/**
 Classification of one detected pothole: its severity from the size of its
 bounding box relative to the image, and the map marker drawn for a severity
 label on the static location map. Box geometry is computed outside the model;
 the relative diagonal arrives as a real number.
 */
module Detection {
  import opened Wrappers
  import opened Text

  datatype Severity = Low | Medium | High

  /** The order of severities: Low < Medium < High. */
  function Rank(s: Severity): nat {
    match s
    case Low => 1
    case Medium => 2
    case High => 3
  }

  /** The text of a severity in JSON and in the e-mail. */
  function Label(s: Severity): string {
    match s
    case Low => "Low"
    case Medium => "Medium"
    case High => "High"
  }

  /** Upper bound (exclusive) of the relative diagonal of a Low pothole. */
  const LowBelow: real := 0.20

  /** Upper bound (exclusive) of the relative diagonal of a Medium pothole. */
  const MediumBelow: real := 0.50

  /** Severity of a box whose diagonal is `relativeDiag` times the image diagonal. */
  function ClassifySeverity(relativeDiag: real): (s: Severity)
    ensures s == Low <==> relativeDiag < LowBelow
    ensures s == Medium <==> LowBelow <= relativeDiag < MediumBelow
    ensures s == High <==> MediumBelow <= relativeDiag
  {
    if relativeDiag < LowBelow then Low
    else if relativeDiag < MediumBelow then Medium
    else High
  }

  /** A larger box never gets a lower severity. */
  lemma ClassifyMonotone(a: real, b: real)
    requires a <= b
    ensures Rank(ClassifySeverity(a)) <= Rank(ClassifySeverity(b))
  {
  }

  /** Colour (hex RGB) and pin size of a map marker. */
  datatype MarkerStyle = MarkerStyle(color: string, size: string)

  /** Pin sizes in increasing order. */
  function PinRank(size: string): nat {
    if size == "l" then 3 else if size == "m" then 2 else 1
  }

  /** Marker style for a severity tag: red large for "High", orange medium for
      "Medium", and green small for every other tag. */
  function MarkerStyleFor(tag: string): (m: MarkerStyle)
    ensures tag == "High" ==> m == MarkerStyle("ff0000", "l")
    ensures tag == "Medium" ==> m == MarkerStyle("ffaa00", "m")
    ensures tag != "High" && tag != "Medium" ==> m == MarkerStyle("00ff00", "s")
  {
    if tag == "High" then MarkerStyle("ff0000", "l")
    else if tag == "Medium" then MarkerStyle("ffaa00", "m")
    else MarkerStyle("00ff00", "s")
  }

  /** The marker follows the severity order: a more severe classification never
      gets a smaller pin, distinct severities get distinct colours, and a tag
      that is not a severity is drawn like Low. */
  lemma MarkerFollowsSeverity(a: Severity, b: Severity, other: string)
    requires other != "High" && other != "Medium"
    ensures Rank(a) <= Rank(b) <==> PinRank(MarkerStyleFor(Label(a)).size) <= PinRank(MarkerStyleFor(Label(b)).size)
    ensures a != b ==> MarkerStyleFor(Label(a)).color != MarkerStyleFor(Label(b)).color
    ensures MarkerStyleFor(other) == MarkerStyleFor(Label(Low))
  {
  }

  /** The Mapbox marker overlay `pin-{size}+{color}({lng},{lat})`; coordinates are
      passed already rendered as text. */
  function Marker(tag: string, lng: string, lat: string): (r: string)
    ensures var m := MarkerStyleFor(tag);
      StartsWith(r, "pin-" + m.size + "+" + m.color) && EndsWith(r, "(" + lng + "," + lat + ")")
    ensures |r| == 15 + |lng| + |lat|  // nothing between the style and the coordinates
  {
    var m := MarkerStyleFor(tag);
    var r := "pin-" + m.size + "+" + m.color + "(" + lng + "," + lat + ")";
    assert r == ("pin-" + m.size + "+" + m.color) + ("(" + lng + "," + lat + ")");
    r
  }

  const StaticMapBase: string := "https://api.mapbox.com/styles/v1/mapbox/streets-v12/static"
  const MapZoom: string := "14"
  const MapSize: string := "600x400"

  /** The static-map request for a report, or nothing when no Mapbox token is configured. */
  function StaticMapUrl(token: string, tag: string, lng: string, lat: string): (r: Option<string>)
    ensures r.None? <==> token == ""
    ensures r.Some? ==> StartsWith(r.value, StaticMapBase + "/" + Marker(tag, lng, lat) + "/")
    ensures r.Some? ==> EndsWith(r.value, "?access_token=" + token)
  {
    if token == "" then None
    else
      var head := StaticMapBase + "/" + Marker(tag, lng, lat) + "/";
      var tail := "?access_token=" + token;
      var url := head + (lng + "," + lat + "," + MapZoom + "/" + MapSize) + tail;
      assert url[..|head|] == head;
      assert url[|url| - |tail|..] == tail;
      Some(url)
  }
}
