/**
 The data an e-mail report is built from, as the front end sends it: for every
 uploaded image the list of its detections, and an optional location.
 */
module ReportData {
  import opened Wrappers

  /** One detection; every key of the JSON object may be missing. */
  datatype Detection = Detection(
    kind: Option<string>,
    confidence: Option<real>,
    severity: Option<string>,
    relativeSize: Option<real>)

  /** A non-empty location object. A missing or empty object is `None` where a
      `Option<Location>` is expected; a key that is present with value null is `None` here. */
  datatype Location = Location(latitude: Option<real>, longitude: Option<real>, address: Option<string>)

  /** Detections per image, in upload order. */
  type Detections = seq<seq<Detection>>

  /** All detections in the order the report visits them: image by image. */
  function Flatten(d: Detections): seq<Detection> {
    if d == [] then [] else Flatten(d[..|d| - 1]) + d[|d| - 1]
  }

  /** A detection occurs in the flattened list exactly when some image lists it. */
  lemma {:induction false} InFlatten(d: Detections, x: Detection)
    ensures x in Flatten(d) <==> exists i :: 0 <= i < |d| && x in d[i]
  {
    if d != [] {
      var p := d[..|d| - 1];
      InFlatten(p, x);
      assert forall i :: 0 <= i < |p| ==> p[i] == d[i];
    }
  }

  /** Both coordinates are present. */
  predicate HasCoordinates(loc: Option<Location>) {
    loc.Some? && loc.value.latitude.Some? && loc.value.longitude.Some?
  }
}
