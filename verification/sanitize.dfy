/**
 Clean-up of the reporter's name and e-mail submitted with a detection request:
 a missing field takes its default, then a non-empty value is stripped of
 surrounding whitespace and cut to its first 100 characters.
 */
module Sanitize {
  import opened Wrappers
  import opened Text

  /** The longest name or e-mail kept. */
  const MaxFieldLength: nat := 100

  const DefaultUserName: string := "Unknown User"
  const DefaultUserEmail: string := "N/A"

  /** The first `n` characters of `s` (Python's `s[:n]`). */
  function Truncate(s: string, n: nat): (r: string)
    ensures |r| == if |s| <= n then |s| else n
    ensures r == s[..|r|]
  {
    if |s| <= n then s else s[..n]
  }

  /** One form field after sanitisation: at most 100 characters, a prefix of the
      stripped submission (or of the default when nothing was submitted), never
      starting with whitespace, and the whole stripped value when it is short enough. */
  function SanitizeField(submitted: Option<string>, default: string): (r: string)
    ensures var v := Strip(submitted.GetOr(default));
      && |r| <= MaxFieldLength && |r| <= |v|
      && r == v[..|r|]
      && (|v| <= MaxFieldLength ==> r == v)
      && (|v| > MaxFieldLength ==> |r| == MaxFieldLength)
    ensures r != [] ==> !IsSpace(r[0])
  {
    var value := submitted.GetOr(default);
    if value != "" then Truncate(Strip(value), MaxFieldLength) else value
  }

  function SanitizeUserName(submitted: Option<string>): string {
    SanitizeField(submitted, DefaultUserName)
  }

  function SanitizeUserEmail(submitted: Option<string>): string {
    SanitizeField(submitted, DefaultUserEmail)
  }

  /** A field that already fits and has no whitespace at either end is kept as is,
      so sanitising such a value again changes nothing. */
  lemma SanitizeKeepsCleanShortValue(v: string, default: string)
    requires |v| <= MaxFieldLength
    requires v != [] ==> !IsSpace(v[0]) && !IsSpace(v[|v| - 1])
    ensures SanitizeField(Some(v), default) == v
  {
    StripTrimmed(v);
  }

  /** Cutting after stripping can leave whitespace at the end: whenever the stripped
      value is longer than 100 characters and its 100th is whitespace, the
      sanitised value ends in that whitespace. */
  lemma TruncationCanExposeTrailingSpace(v: string, default: string)
    requires |Strip(v)| > MaxFieldLength && IsSpace(Strip(v)[MaxFieldLength - 1])
    ensures var r := SanitizeField(Some(v), default);
      |r| == MaxFieldLength && IsSpace(r[|r| - 1])
  {
    assert v != "";
  }

  /** Such values exist: 99 letters, a space and one more letter sanitise to a value
      ending in that space. */
  lemma TrailingSpaceExample()
    ensures exists v: string :: var r := SanitizeField(Some(v), "");
      r != [] && IsSpace(r[|r| - 1])
  {
    var v := seq(99, _ => 'a') + [' ', 'b'];
    assert !IsSpace(v[0]) && !IsSpace(v[|v| - 1]);
    StripTrimmed(v);
    TruncationCanExposeTrailingSpace(v, "");
  }
}
