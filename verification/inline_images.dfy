/**
 The images of the e-mail report: the grid in the HTML body that refers to each
 uploaded image by Content-ID, and the inline attachments that carry them. An
 entry is attached only when it is non-empty, its base64 payload (after the
 comma of a `data:image...` URI, padding repaired) decodes, the bytes are at
 least 100 long, and the MIME layer recognises them as an image. Base64 decoding
 and image-type recognition are supplied by the caller.
 */
module InlineImages {
  import opened Wrappers
  import opened Text

  type Bytes = seq<bv8>

  /** Decoded payloads shorter than this are not attached. */
  const MinImageBytes: nat := 100

  const DataUriPrefix: string := "data:image"

  /** Appends the '=' characters a base64 string needs to reach a length divisible by four. */
  function FixBase64Padding(data: string): (r: string)
    ensures |r| % 4 == 0
    ensures |data| <= |r| < |data| + 4
    ensures r[..|data|] == data
    ensures forall i :: |data| <= i < |r| ==> r[i] == '='
    ensures |data| % 4 == 0 ==> r == data
  {
    var missing := |data| % 4;
    if missing != 0 then data + seq(4 - missing, _ => '=') else data
  }

  /** Repairing the padding twice is the same as repairing it once. */
  lemma FixBase64PaddingIdempotent(data: string)
    ensures FixBase64Padding(FixBase64Padding(data)) == FixBase64Padding(data)
  {
  }

  /** The Content-ID name of the image at 0-based position `i`: `image_{i+1}`. */
  function ContentName(i: nat): string {
    "image_" + NatToString(i + 1)
  }

  /** Different positions get different Content-ID names. */
  lemma ContentNameInjective(i: nat, j: nat)
    requires ContentName(i) == ContentName(j)
    ensures i == j
  {
    AppendCancel("image_", NatToString(i + 1), NatToString(j + 1));
    NatToStringInjective(i + 1, j + 1);
  }

  /** One cell of the image grid: its caption and the `src` of its picture. */
  datatype GridItem = GridItem(title: string, src: string)

  /** One cell per uploaded entry, skipped or not, numbered from 1 and referring to
      `cid:image_{n}`. */
  function ImageGrid(images: seq<string>): (items: seq<GridItem>)
    ensures |items| == |images|
    ensures forall i :: 0 <= i < |items| ==> items[i].src == "cid:" + ContentName(i)
    ensures forall i :: 0 <= i < |items| ==> items[i].title == "Image " + NatToString(i + 1)
  {
    seq(|images|, i requires 0 <= i < |images| => GridItem("Image " + NatToString(i + 1), "cid:" + ContentName(i)))
  }

  /** No two grid cells refer to the same Content-ID. */
  lemma GridSourcesDistinct(images: seq<string>, i: nat, j: nat)
    requires i < |images| && j < |images| && i != j
    ensures ImageGrid(images)[i].src != ImageGrid(images)[j].src
  {
    var g := ImageGrid(images);
    if g[i].src == g[j].src {
      AppendCancel("cid:", ContentName(i), ContentName(j));
      ContentNameInjective(i, j);
    }
  }

  /** The text after the first comma (`s.split(',', 1)[1]`), or nothing without a comma. */
  function AfterFirstComma(s: string): (r: Option<string>)
    ensures r.None? <==> ',' !in s
    ensures r.Some? ==> exists k :: FirstCommaAt(s, k) && r.value == s[k + 1..]
  {
    if s == [] then None
    else if s[0] == ',' then
      assert FirstCommaAt(s, 0);
      Some(s[1..])
    else
      var rest := AfterFirstComma(s[1..]);
      if rest.Some? then
        var k :| FirstCommaAt(s[1..], k) && rest.value == s[1..][k + 1..];
        assert FirstCommaAt(s, k + 1) && rest.value == s[k + 2..] by {
          assert s[..k + 1] == [s[0]] + s[1..][..k];
        }
        rest
      else
        assert ',' !in s by {
          assert s == [s[0]] + s[1..];
        }
        rest
  }

  /** Position `k` holds the first comma of `s`. */
  predicate FirstCommaAt(s: string, k: int) {
    0 <= k < |s| && s[k] == ',' && ',' !in s[..k]
  }

  /** The base64 text of an entry: after the comma of a data URI, else the whole entry. */
  function EncodedPart(entry: string): Option<string> {
    if StartsWith(entry, DataUriPrefix) then AfterFirstComma(entry) else Some(entry)
  }

  /** Why an entry is not attached. */
  datatype Skip = EmptyEntry | Undecodable | TooSmall | NotAnImage

  /** The decoded payload of an entry: nothing when it has no base64 part or that
      part, padding repaired, does not decode. */
  function Payload(entry: string, decode: string -> Option<Bytes>): Option<Bytes> {
    match EncodedPart(entry)
    case None => None
    case Some(e) => decode(FixBase64Padding(e))
  }

  /** The bytes an entry decodes to, or why it is skipped before attachment: an empty
      entry, then a payload that cannot be decoded, then one under 100 bytes. */
  function DecodeEntry(entry: string, decode: string -> Option<Bytes>): (r: Result<Bytes, Skip>)
    ensures entry == "" ==> r == Failure(EmptyEntry)
    ensures entry != "" && Payload(entry, decode).None? ==> r == Failure(Undecodable)
    ensures entry != "" && Payload(entry, decode).Some? && |Payload(entry, decode).value| < MinImageBytes
      ==> r == Failure(TooSmall)
    ensures entry != "" && Payload(entry, decode).Some? && |Payload(entry, decode).value| >= MinImageBytes
      ==> r == Success(Payload(entry, decode).value)
    ensures r.Success? ==> |r.value| >= MinImageBytes
    ensures r.Success? ==> EncodedPart(entry).Some? && decode(FixBase64Padding(EncodedPart(entry).value)) == Some(r.value)
  {
    if entry == "" then Failure(EmptyEntry)
    else
      match EncodedPart(entry)
      case None => Failure(Undecodable)
      case Some(e) =>
        match decode(FixBase64Padding(e))
        case None => Failure(Undecodable)
        case Some(b) => if |b| < MinImageBytes then Failure(TooSmall) else Success(b)
  }

  /** An entry that ends up attached. */
  predicate Attachable(entry: string, decode: string -> Option<Bytes>, recognised: Bytes -> bool) {
    var r := DecodeEntry(entry, decode);
    r.Success? && recognised(r.value)
  }

  /** An inline image: its position among the uploaded entries, its Content-ID header
      value, and its bytes. */
  datatype Attachment = Attachment(index: nat, contentId: string, bytes: Bytes)

  /** Attachment `a` is the one entry `a.index` yields: its Content-ID is the
      bracketed name of that position and its bytes are the entry's decoded,
      recognised payload. */
  predicate MadeFrom(a: Attachment, images: seq<string>, decode: string -> Option<Bytes>, recognised: Bytes -> bool) {
    && a.index < |images|
    && a.contentId == "<" + ContentName(a.index) + ">"
    && DecodeEntry(images[a.index], decode) == Success(a.bytes)
    && recognised(a.bytes)
  }

  /** The inline attachments, in entry order. The Content-ID comes from the entry's
      position, so skipped entries leave gaps instead of shifting later numbers. */
  function AttachImages(images: seq<string>, decode: string -> Option<Bytes>, recognised: Bytes -> bool): (atts: seq<Attachment>)
    ensures forall a :: a in atts ==> MadeFrom(a, images, decode, recognised)
    ensures forall i :: 0 <= i < |images| ==>
      ((exists a :: a in atts && a.index == i) <==> Attachable(images[i], decode, recognised))
    ensures forall p, q :: 0 <= p < q < |atts| ==> atts[p].index < atts[q].index
  {
    AttachFirst(images, |images|, decode, recognised)
  }

  /** The attachments made for the first `n` entries. */
  function AttachFirst(images: seq<string>, n: nat, decode: string -> Option<Bytes>, recognised: Bytes -> bool): (atts: seq<Attachment>)
    requires n <= |images|
    ensures forall a :: a in atts ==> a.index < n && MadeFrom(a, images, decode, recognised)
    ensures forall i :: 0 <= i < n ==>
      ((exists a :: a in atts && a.index == i) <==> Attachable(images[i], decode, recognised))
    ensures forall p, q :: 0 <= p < q < |atts| ==> atts[p].index < atts[q].index
  {
    if n == 0 then []
    else
      var prev := AttachFirst(images, n - 1, decode, recognised);
      if Attachable(images[n - 1], decode, recognised) then
        var last := Attachment(n - 1, "<" + ContentName(n - 1) + ">", DecodeEntry(images[n - 1], decode).value);
        var atts := prev + [last];
        assert forall a :: a in atts <==> a in prev || a == last;
        assert forall p :: 0 <= p < |prev| ==> atts[p] == prev[p];
        atts
      else prev
  }

  /** The Content-ID name inside the angle brackets of a header value. */
  function Unbracket(id: string): string
    requires |id| >= 2
  {
    id[1..|id| - 1]
  }

  /** Every attachment is shown by exactly one grid cell, the one at its own position. */
  lemma AttachmentsMatchGrid(images: seq<string>, decode: string -> Option<Bytes>, recognised: Bytes -> bool,
                             a: Attachment, k: nat)
    requires a in AttachImages(images, decode, recognised)
    requires k < |images|
    ensures |a.contentId| >= 2
    ensures ImageGrid(images)[k].src == "cid:" + Unbracket(a.contentId) <==> k == a.index
  {
    var g := ImageGrid(images);
    assert Unbracket(a.contentId) == ContentName(a.index);
    if k != a.index {
      GridSourcesDistinct(images, k, a.index);
    }
  }

  /** A non-empty entry whose payload decodes to at least 100 bytes of a recognised
      image is attached under its own position's Content-ID, with those bytes. */
  lemma UsableEntriesAttached(images: seq<string>, decode: string -> Option<Bytes>, recognised: Bytes -> bool, i: nat)
    requires i < |images| && images[i] != ""
    requires Payload(images[i], decode).Some? && |Payload(images[i], decode).value| >= MinImageBytes
    requires recognised(Payload(images[i], decode).value)
    ensures exists a ::
      && a in AttachImages(images, decode, recognised)
      && a.index == i
      && a.contentId == "<" + ContentName(i) + ">"
      && a.bytes == Payload(images[i], decode).value
  {
    var atts := AttachImages(images, decode, recognised);
    assert Attachable(images[i], decode, recognised);
    assert exists a :: a in atts && a.index == i;
    var a :| a in atts && a.index == i;
    assert MadeFrom(a, images, decode, recognised);
  }

  /** Empty entries and payloads under 100 bytes are never attached. */
  lemma SkippedEntries(images: seq<string>, decode: string -> Option<Bytes>, recognised: Bytes -> bool, i: nat)
    requires i < |images|
    requires images[i] == "" || (EncodedPart(images[i]).Some?
      && var b := decode(FixBase64Padding(EncodedPart(images[i]).value)); b.Some? && |b.value| < MinImageBytes)
    ensures forall a :: a in AttachImages(images, decode, recognised) ==> a.index != i
  {
  }
}
