/**
 How the Gemini deployment check turns its single command-line argument into the
 API base URL: trailing slashes are removed, "https://" is added when the text
 does not start with "http", and "/api/v1" is appended unless already there.
 */
module BaseUrl {
  import opened Wrappers
  import opened Text

  const DefaultScheme: string := "https://"
  const ApiSuffix: string := "/api/v1"

  /** The normalised base URL. */
  function NormalizeBaseUrl(arg: string): (url: string)
    ensures StartsWith(url, "http")
    ensures EndsWith(url, ApiSuffix)
  {
    var trimmed := RStripChar(arg, '/');
    var withScheme := if StartsWith(trimmed, "http") then trimmed else DefaultScheme + trimmed;
    AppendEnds(DefaultScheme, trimmed);
    assert StartsWith(withScheme, "http");
    if EndsWith(withScheme, ApiSuffix) then withScheme
    else if EndsWith(withScheme, "/") then
      var url := withScheme + "api/v1";
      AppendEnds(withScheme, "api/v1");
      assert url[|url| - 7..] == withScheme[|withScheme| - 1..] + "api/v1";
      url
    else
      AppendEnds(withScheme, ApiSuffix);
      withScheme + ApiSuffix
  }

  /** The address given (without its trailing slashes) is kept at the front, after
      the scheme when one was added; at most the scheme and the suffix are added. */
  lemma NormalizeKeepsAddress(arg: string)
    ensures var host := RStripChar(arg, '/');
      StartsWith(NormalizeBaseUrl(arg), if StartsWith(host, "http") then host else DefaultScheme + host)
    ensures |NormalizeBaseUrl(arg)| <= |DefaultScheme| + |arg| + |ApiSuffix|
  {
    var host := RStripChar(arg, '/');
    var withScheme := if StartsWith(host, "http") then host else DefaultScheme + host;
    AppendEnds(withScheme, "api/v1");
    AppendEnds(withScheme, ApiSuffix);
  }

  /** A URL that already has a scheme and the API suffix is used as given. */
  lemma NormalizeFixedPoint(arg: string)
    requires StartsWith(arg, "http") && EndsWith(arg, ApiSuffix)
    ensures NormalizeBaseUrl(arg) == arg
  {
    assert arg[|arg| - 1] == '1';
    assert RStripChar(arg, '/') == arg;
  }

  /** Normalising an already normalised URL changes nothing. */
  lemma NormalizeIdempotent(arg: string)
    ensures NormalizeBaseUrl(NormalizeBaseUrl(arg)) == NormalizeBaseUrl(arg)
  {
    NormalizeFixedPoint(NormalizeBaseUrl(arg));
  }

  /** The scheme-prefixed address ends in '/' exactly when nothing but slashes was
      given, so "api/v1" is joined without a slash only to the bare scheme and the
      suffix never follows a slash the argument supplied. */
  lemma SlashJoinOnlyWithoutHost(arg: string)
    ensures var host := RStripChar(arg, '/');
      var withScheme := if StartsWith(host, "http") then host else DefaultScheme + host;
      EndsWith(withScheme, "/") <==> host == []
  {
    var host := RStripChar(arg, '/');
    var withScheme := if StartsWith(host, "http") then host else DefaultScheme + host;
    if host != [] {
      assert withScheme[|withScheme| - 1] == host[|host| - 1];
      assert withScheme[|withScheme| - 1..] != "/";
    } else {
      assert withScheme == DefaultScheme;
    }
  }

  /** An argument of nothing but slashes yields the scheme followed by "api/v1". */
  lemma OnlySlashes(arg: string)
    requires forall i :: 0 <= i < |arg| ==> arg[i] == '/'
    ensures NormalizeBaseUrl(arg) == "https://api/v1"
  {
    assert RStripChar(arg, '/') == [];
    assert !StartsWith([], "http");
    assert DefaultScheme + [] == DefaultScheme;
    assert !EndsWith(DefaultScheme, ApiSuffix);
    assert EndsWith(DefaultScheme, "/");
  }

  /** The URL from the command line: exactly one argument after the program name,
      otherwise a usage error. */
  function BaseUrlFromArgs(argv: seq<string>): (r: Option<string>)
    ensures r.Some? <==> |argv| == 2
    ensures r.Some? ==> r.value == NormalizeBaseUrl(argv[1])
  {
    if |argv| != 2 then None else Some(NormalizeBaseUrl(argv[1]))
  }
}
