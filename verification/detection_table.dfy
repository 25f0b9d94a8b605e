/**
 The "Detection Results" table of the e-mail report. Without any detection it is
 a single message; otherwise it has, for every image in upload order, one row per
 detection numbered `#image` / `#detection`, or one "no detections" row for an
 image without detections. HTML markup and number formatting are not modelled;
 a row keeps the values it displays.
 */
module DetectionTable {
  import opened Wrappers
  import opened Text
  import opened ReportData
  import ReportSummary

  datatype Row =
    | DetectionRow(imageNo: nat, detectionNo: nat, kind: string, severity: string,
                   severityClass: string, confidencePct: real, sizePct: real)
    | EmptyImageRow(imageNo: nat)

  datatype Table = NoDetectionsMessage | Rows(rows: seq<Row>)

  /** The row of detection `j` of image `i` (both 0-based): title-cased type
      ("Pothole" by default), severity ("Medium" by default) with its CSS class,
      and confidence and relative size as percentages (0 by default). */
  function RowFor(i: nat, j: nat, x: Detection): Row {
    var sev := x.severity.GetOr("Medium");
    DetectionRow(i + 1, j + 1, Title(x.kind.GetOr("Pothole")), sev, "severity-" + Lower(sev),
                 x.confidence.GetOr(0.0) * 100.0, x.relativeSize.GetOr(0.0) * 100.0)
  }

  /** The rows of image `i`. */
  function ImageRows(i: nat, xs: seq<Detection>): (rows: seq<Row>)
    ensures |rows| == RowsOf(xs)
  {
    if xs == [] then [EmptyImageRow(i + 1)]
    else seq(|xs|, j requires 0 <= j < |xs| => RowFor(i, j, xs[j]))
  }

  /** Rows taken by one image: one per detection, and at least one. */
  function RowsOf(xs: seq<Detection>): nat {
    if xs == [] then 1 else |xs|
  }

  /** The sum over images of `max(1, len(detections))`. */
  function RowCount(d: Detections): nat {
    if d == [] then 0 else RowCount(d[..|d| - 1]) + RowsOf(d[|d| - 1])
  }

  function AllRows(d: Detections): seq<Row> {
    if d == [] then [] else AllRows(d[..|d| - 1]) + ImageRows(|d| - 1, d[|d| - 1])
  }

  predicate NoDetections(d: Detections) {
    forall i :: 0 <= i < |d| ==> d[i] == []
  }

  /** The table: the message exactly when no image has a detection (including when
      there are no images), and otherwise exactly `RowCount(d)` rows. */
  function DetectionTable(d: Detections): (t: Table)
    ensures t.NoDetectionsMessage? <==> NoDetections(d)
    ensures t.Rows? ==> t.rows == AllRows(d) && |t.rows| == RowCount(d)
  {
    AllRowsCount(d);
    if d == [] || NoDetections(d) then NoDetectionsMessage else Rows(AllRows(d))
  }

  lemma {:induction false} AllRowsCount(d: Detections)
    ensures |AllRows(d)| == RowCount(d)
  {
    if d != [] {
      AllRowsCount(d[..|d| - 1]);
    }
  }

  /** Rows appear in input order: the row of detection `j` of image `i` sits right
      after the rows of the earlier images, at position `RowCount(d[..i]) + j`, and
      an image without detections has its single row there. */
  lemma {:induction false} RowsInInputOrder(d: Detections, i: nat, j: nat)
    requires i < |d| && j < RowsOf(d[i])
    ensures RowCount(d[..i]) + j < |AllRows(d)|
    ensures d[i] != [] ==> AllRows(d)[RowCount(d[..i]) + j] == RowFor(i, j, d[i][j])
    ensures d[i] == [] ==> AllRows(d)[RowCount(d[..i]) + j] == EmptyImageRow(i + 1)
    decreases |d|
  {
    var p := d[..|d| - 1];
    var n := RowCount(d[..i]) + j;
    if i < |p| {
      assert p[i] == d[i] && p[..i] == d[..i];
      RowsInInputOrder(p, i, j);
      EarlierRowsKept(d, n);
    } else {
      assert n == |AllRows(p)| + j by {
        assert d[..i] == p;
        AllRowsCount(p);
      }
      LastImageRows(d, j);
    }
  }

  /** Adding an image keeps the rows of the earlier ones in place. */
  lemma EarlierRowsKept(d: Detections, n: nat)
    requires d != [] && n < |AllRows(d[..|d| - 1])|
    ensures n < |AllRows(d)| && AllRows(d)[n] == AllRows(d[..|d| - 1])[n]
  {
  }

  /** The rows of the last image come after all earlier rows. */
  lemma LastImageRows(d: Detections, j: nat)
    requires d != [] && j < RowsOf(d[|d| - 1])
    ensures |AllRows(d[..|d| - 1])| + j < |AllRows(d)|
    ensures AllRows(d)[|AllRows(d[..|d| - 1])| + j] == ImageRows(|d| - 1, d[|d| - 1])[j]
  {
  }

  /** The (image, detection) number of a row; a "no detections" row counts as detection 0. */
  function Key(r: Row): (nat, nat) {
    match r
    case DetectionRow(img, det, _, _, _, _, _) => (img, det)
    case EmptyImageRow(img) => (img, 0)
  }

  predicate KeyBefore(a: Row, b: Row) {
    Key(a).0 < Key(b).0 || (Key(a).0 == Key(b).0 && Key(a).1 < Key(b).1)
  }

  /** Every row belongs to one of the images: image numbers run from 1 to |d|. */
  lemma {:induction false} RowImagesInRange(d: Detections)
    ensures forall k :: 0 <= k < |AllRows(d)| ==> 1 <= Key(AllRows(d)[k]).0 <= |d|
  {
    if d != [] {
      var p := d[..|d| - 1];
      RowImagesInRange(p);
      var a, b := AllRows(p), ImageRows(|d| - 1, d[|d| - 1]);
      assert forall k :: 0 <= k < |b| ==> Key(b[k]).0 == |d|;
      assert forall k :: 0 <= k < |a| + |b| ==> (a + b)[k] == if k < |a| then a[k] else b[k - |a|];
    }
  }

  /** Rows are strictly ordered by (image number, detection number), so no row repeats. */
  lemma {:induction false} RowsSorted(d: Detections)
    ensures forall a, b :: 0 <= a < b < |AllRows(d)| ==> KeyBefore(AllRows(d)[a], AllRows(d)[b])
  {
    if d != [] {
      var p := d[..|d| - 1];
      RowsSorted(p);
      RowImagesInRange(p);
      var x, y := AllRows(p), ImageRows(|d| - 1, d[|d| - 1]);
      assert forall k :: 0 <= k < |y| ==> Key(y[k]).0 == |d|;
      assert forall k, m :: 0 <= k < m < |y| ==> Key(y[k]).1 < Key(y[m]).1;
      forall a, b | 0 <= a < b < |x + y|
        ensures KeyBefore((x + y)[a], (x + y)[b])
      {
        if b < |x| {
          assert (x + y)[a] == x[a] && (x + y)[b] == x[b];
        } else if a < |x| {
          assert (x + y)[a] == x[a] && (x + y)[b] == y[b - |x|];
        } else {
          assert (x + y)[a] == y[a - |x|] && (x + y)[b] == y[b - |x|];
        }
      }
    }
  }

  /** The summary and the table default a missing severity differently: a report
      whose one detection has no severity is summarised as "Low" while its row
      shows "Medium". */
  lemma MissingSeverityShownDifferently(x: Detection)
    requires x.severity.None?
    ensures ReportSummary.HighestSeverity([[x]]) == "Low"
    ensures DetectionTable([[x]]) == Rows([RowFor(0, 0, x)])
    ensures RowFor(0, 0, x).severity == "Medium"
  {
    assert [[x]][..0] == [];
    assert Flatten([[x]]) == [x];
    assert AllRows([[x]]) == [RowFor(0, 0, x)];
    assert !NoDetections([[x]]) by {
      assert [[x]][0] != [];
    }
    assert ReportSummary.HighestFrom("Low", [x]) == ReportSummary.HighestFrom("Low", []) by {
      assert [x][1..] == [];
    }
  }

  /** How many detection rows a sequence of rows has. */
  function DetectionRowCount(rows: seq<Row>): nat {
    if rows == [] then 0
    else DetectionRowCount(rows[..|rows| - 1]) + (if rows[|rows| - 1].DetectionRow? then 1 else 0)
  }

  lemma {:induction false} DetectionRowCountAppend(a: seq<Row>, b: seq<Row>)
    ensures DetectionRowCount(a + b) == DetectionRowCount(a) + DetectionRowCount(b)
    decreases |b|
  {
    if b != [] {
      assert (a + b)[..|a + b| - 1] == a + b[..|b| - 1];
      DetectionRowCountAppend(a, b[..|b| - 1]);
    } else {
      assert a + b == a;
    }
  }

  lemma {:induction false} ImageDetectionRows(i: nat, xs: seq<Detection>, n: nat)
    requires xs != [] && n <= |xs|
    ensures DetectionRowCount(ImageRows(i, xs)[..n]) == n
  {
    if n > 0 {
      var rows := ImageRows(i, xs);
      assert rows[..n][..n - 1] == rows[..n - 1];
      ImageDetectionRows(i, xs, n - 1);
    }
  }

  /** The table and the summary agree: the table has one detection row for each
      detection the summary counts. */
  lemma {:induction false} DetectionRowsMatchTotal(d: Detections)
    ensures DetectionRowCount(AllRows(d)) == ReportSummary.TotalDetections(d)
  {
    if d != [] {
      var p := d[..|d| - 1];
      var xs := d[|d| - 1];
      DetectionRowsMatchTotal(p);
      DetectionRowCountAppend(AllRows(p), ImageRows(|d| - 1, xs));
      if xs == [] {
        assert ImageRows(|d| - 1, xs) == [] + [EmptyImageRow(|d|)];
      } else {
        ImageDetectionRows(|d| - 1, xs, |xs|);
        assert ImageRows(|d| - 1, xs)[..|xs|] == ImageRows(|d| - 1, xs);
      }
    }
  }
}
