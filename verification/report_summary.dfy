/**
 The summary block and the location lines of the e-mail report: total number of
 detections, the highest severity seen, the highest confidence seen, the location
 text and the Google Maps link. Number formatting is done by functions the caller
 supplies (`fixed6` for six decimals, `show` for Python's `str` of a float).
 */
module ReportSummary {
  import opened Wrappers
  import opened ReportData

  /** Number of detections over all images. */
  function TotalDetections(d: Detections): (n: nat)
    ensures n == |Flatten(d)|
    ensures n == 0 <==> forall i :: 0 <= i < |d| ==> d[i] == []
  {
    if d == [] then 0 else TotalDetections(d[..|d| - 1]) + |d[|d| - 1]|
  }

  /** The rank table of the summary: High 3, Medium 2, Low 1, anything else 1. */
  function SeverityLevel(tag: string): nat {
    if tag == "High" then 3 else if tag == "Medium" then 2 else 1
  }

  /** The severity text of a detection, "Low" when missing. */
  function SeverityOf(x: Detection): string {
    x.severity.GetOr("Low")
  }

  /** The running maximum: a detection replaces the current highest only when its
      level is strictly greater. */
  function HighestFrom(acc: string, xs: seq<Detection>): string
    decreases |xs|
  {
    if xs == [] then acc
    else
      var tag := SeverityOf(xs[0]);
      HighestFrom(if SeverityLevel(tag) > SeverityLevel(acc) then tag else acc, xs[1..])
  }

  function HighestSeverity(d: Detections): string {
    HighestFrom("Low", Flatten(d))
  }

  /** The highest severity expressed without iteration: "High" if any detection says
      so, else "Medium" if any does, else "Low". */
  function HighestByPresence(xs: seq<Detection>): string {
    if HasSeverity(xs, "High") then "High"
    else if HasSeverity(xs, "Medium") then "Medium"
    else "Low"
  }

  /** Some detection of `xs` carries severity text `tag`. */
  predicate HasSeverity(xs: seq<Detection>, tag: string) {
    exists x :: x in xs && SeverityOf(x) == tag
  }

  lemma HasSeverityCons(x: Detection, xs: seq<Detection>, tag: string)
    ensures HasSeverity([x] + xs, tag) <==> SeverityOf(x) == tag || HasSeverity(xs, tag)
  {
    assert forall y :: y in [x] + xs <==> y == x || y in xs;
  }

  lemma {:induction false} HighestFromByPresence(acc: string, xs: seq<Detection>)
    requires acc in {"Low", "Medium", "High"}
    ensures HighestFrom(acc, xs) == HighestByPresence([Detection(None, None, Some(acc), None)] + xs)
    decreases |xs|
  {
    var seed := Detection(None, None, Some(acc), None);
    if xs == [] {
      assert [seed] + xs == [seed] + [];
      HasSeverityCons(seed, [], "High");
      HasSeverityCons(seed, [], "Medium");
    } else {
      var tag := SeverityOf(xs[0]);
      var acc' := if SeverityLevel(tag) > SeverityLevel(acc) then tag else acc;
      HighestFromByPresence(acc', xs[1..]);
      var seed' := Detection(None, None, Some(acc'), None);
      assert [seed] + xs == [seed] + ([xs[0]] + xs[1..]);
      HasSeverityCons(seed, [xs[0]] + xs[1..], "High");
      HasSeverityCons(seed, [xs[0]] + xs[1..], "Medium");
      HasSeverityCons(xs[0], xs[1..], "High");
      HasSeverityCons(xs[0], xs[1..], "Medium");
      HasSeverityCons(seed', xs[1..], "High");
      HasSeverityCons(seed', xs[1..], "Medium");
    }
  }

  /** The summary's highest severity is always a known label, "Low" without
      detections, and is the most severe label that occurs; unknown labels are
      never chosen. */
  lemma HighestSeverityIsMaximum(d: Detections)
    ensures HighestSeverity(d) in {"Low", "Medium", "High"}
    ensures HighestSeverity(d) == HighestByPresence(Flatten(d))
    ensures Flatten(d) == [] ==> HighestSeverity(d) == "Low"
  {
    var xs := Flatten(d);
    HighestFromByPresence("Low", xs);
    var seed := Detection(None, None, Some("Low"), None);
    assert forall x :: x in [seed] + xs <==> x == seed || x in xs;
  }

  /** The confidence of a detection, 0 when missing. */
  function ConfidenceOf(x: Detection): real {
    x.confidence.GetOr(0.0)
  }

  /** The running maximum of confidences, starting from `acc`. */
  function MaxFrom(acc: real, xs: seq<Detection>): (r: real)
    ensures r >= acc
    ensures forall i :: 0 <= i < |xs| ==> r >= ConfidenceOf(xs[i])
    ensures r == acc || exists i :: 0 <= i < |xs| && r == ConfidenceOf(xs[i])
    decreases |xs|
  {
    if xs == [] then acc
    else
      var c := ConfidenceOf(xs[0]);
      var r := MaxFrom(if c > acc then c else acc, xs[1..]);
      assert forall i :: 1 <= i < |xs| ==> xs[i] == xs[1..][i - 1];
      r
  }

  /** The summary's maximum confidence: never negative, at least every detection's
      confidence, and either 0 or the confidence of some detection. */
  function MaxConfidence(d: Detections): (r: real)
    ensures r >= 0.0
    ensures forall x :: x in Flatten(d) ==> r >= ConfidenceOf(x)
    ensures r == 0.0 || exists x :: x in Flatten(d) && r == ConfidenceOf(x)
  {
    MaxFrom(0.0, Flatten(d))
  }

  /** With no positive confidence the summary shows 0. */
  lemma MaxConfidenceZero(d: Detections)
    requires forall x :: x in Flatten(d) ==> ConfidenceOf(x) <= 0.0
    ensures MaxConfidence(d) == 0.0
  {
  }

  /** Neither statistic depends on how the detections are ordered or grouped into images. */
  lemma SummaryIgnoresOrder(a: Detections, b: Detections)
    requires multiset(Flatten(a)) == multiset(Flatten(b))
    ensures TotalDetections(a) == TotalDetections(b)
    ensures HighestSeverity(a) == HighestSeverity(b)
    ensures MaxConfidence(a) == MaxConfidence(b)
  {
    var fa, fb := Flatten(a), Flatten(b);
    assert |multiset(fa)| == |multiset(fb)|;
    assert forall x :: x in fa <==> x in multiset(fa);
    assert forall x :: x in fb <==> x in multiset(fb);
    HighestSeverityIsMaximum(a);
    HighestSeverityIsMaximum(b);
  }

  const LocationUnavailable: string := "Location not available"
  const CoordinatesUnavailable: string := "Coordinates not available"

  /** The address text of a location; a missing or null address counts as empty. */
  function AddressOf(loc: Location): string {
    loc.address.GetOr("")
  }

  /** The location line: the coordinates to six decimals, followed by " - " and the
      address when there is one; without both coordinates, the unavailable text. */
  function LocationText(loc: Option<Location>, fixed6: real -> string): (r: string)
    ensures !HasCoordinates(loc) ==> r == LocationUnavailable
    ensures HasCoordinates(loc) ==>
      var coords := fixed6(loc.value.latitude.value) + ", " + fixed6(loc.value.longitude.value);
      && |coords| <= |r|
      && r == coords + r[|coords|..]
      && (AddressOf(loc.value) == "" <==> r == coords)
      && (AddressOf(loc.value) != "" ==> r[|coords|..] == " - " + AddressOf(loc.value))
  {
    if !HasCoordinates(loc) then LocationUnavailable
    else
      var l := loc.value;
      var coords := fixed6(l.latitude.value) + ", " + fixed6(l.longitude.value);
      if AddressOf(l) != "" then coords + " - " + AddressOf(l) else coords
  }

  const MapsPrefix: string := "https://www.google.com/maps?q="

  /** The Google Maps cell: no location, then missing coordinates, then a link
      whose query is `{lat},{lng}`. */
  function GoogleMapsLink(loc: Option<Location>, show: real -> string): (r: string)
    ensures loc.None? ==> r == LocationUnavailable
    ensures loc.Some? && !HasCoordinates(loc) ==> r == CoordinatesUnavailable
    ensures HasCoordinates(loc) ==>
      r == MapsAnchor(MapsUrl(loc.value.latitude.value, loc.value.longitude.value, show))
  {
    match loc
    case None => LocationUnavailable
    case Some(l) =>
      if l.latitude.None? || l.longitude.None? then CoordinatesUnavailable
      else MapsAnchor(MapsUrl(l.latitude.value, l.longitude.value, show))
  }

  /** The Maps search URL for a coordinate pair, each written by `show`. */
  function MapsUrl(lat: real, lng: real, show: real -> string): string {
    MapsPrefix + show(lat) + "," + show(lng)
  }

  /** The link element around a Maps URL. */
  function MapsAnchor(url: string): string {
    "<a href=\"" + url + "\" target=\"_blank\" style=\"color: #3498db; text-decoration: none;\">View on Google Maps</a>"
  }

  /** The location line and the map cell agree: both show the coordinates exactly
      when both are present, and both fall back to the same text when there is no location. */
  lemma LocationCellsAgree(loc: Option<Location>, fixed6: real -> string, show: real -> string)
    ensures loc.None? ==> LocationText(loc, fixed6) == GoogleMapsLink(loc, show)
    ensures HasCoordinates(loc) <==>
      (GoogleMapsLink(loc, show) != LocationUnavailable && GoogleMapsLink(loc, show) != CoordinatesUnavailable)
  {
    if HasCoordinates(loc) {
      var r := GoogleMapsLink(loc, show);
      assert r[0] == '<';
    }
  }
}
