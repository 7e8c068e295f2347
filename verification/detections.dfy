/**
 The person filter of `detect_objects` (tensor-flow/package/detector.py
 and tensor-flow/detect_picamera.py): of the first `count` rows of the
 model's output tensors, keep those whose class id is 0 ("person") and
 whose score reaches the threshold, in row order.

 The tensors are given as sequences (`boxes`, `classes`, `scores`) and
 `count` as the integer the source reads from the fourth output; running
 the interpreter is not modelled. Scores and class ids are reals.
 */
module Detections {

  /** Threshold of the `Detector` class in tensor-flow/package/detector.py. */
  const DetectorThreshold: real := 0.4

  /** Default of `--threshold` in tensor-flow/detect_picamera.py. */
  const CommandLineThreshold: real := 0.6

  /** Class id of "person" in the model's label map. */
  const PersonClass: real := 0.0

  /** One row of the box tensor: `[ymin, xmin, ymax, xmax]`. */
  datatype Box = Box(ymin: real, xmin: real, ymax: real, xmax: real)

  /** The dictionary `{'bounding_box', 'class_id', 'score'}` built per kept row. */
  datatype Detection = Detection(boundingBox: Box, classId: real, score: real)

  /** The output tensors of one inference. */
  datatype Tensors = Tensors(boxes: seq<Box>, classes: seq<real>, scores: seq<real>)

  /** The list of kept detections, or the `IndexError` raised at row `at`
      when a tensor is shorter than `count`. */
  datatype FilterResult = Kept(detections: seq<Detection>) | IndexError(at: nat)

  /**
   Row `i` is processed without an `IndexError`: `scores[i]` is read first;
   `classes[i]` only when the score passes (`and` short-circuits); the
   three reads of the result dictionary only when both pass.
   */
  predicate Readable(t: Tensors, threshold: real, i: nat) {
    && i < |t.scores|
    && (t.scores[i] >= threshold ==>
          && i < |t.classes|
          && (t.classes[i] == PersonClass ==> i < |t.boxes|))
  }

  /** Whether row `i` is kept, for a readable row. */
  predicate Keeps(t: Tensors, threshold: real, i: nat)
    requires Readable(t, threshold, i)
  {
    t.scores[i] >= threshold && t.classes[i] == PersonClass
  }

  /** The detection recorded for a kept row. */
  function DetectionAt(t: Tensors, i: nat): (d: Detection)
    requires i < |t.boxes| && i < |t.classes| && i < |t.scores|
    ensures d.boundingBox == t.boxes[i] && d.classId == t.classes[i] && d.score == t.scores[i]
  {
    Detection(t.boxes[i], t.classes[i], t.scores[i])
  }

  ghost predicate Increasing(s: seq<nat>) {
    forall a, b :: 0 <= a < b < |s| ==> s[a] < s[b]
  }

  /** The rows below `n` that the filter keeps, in increasing order. */
  function KeptRows(t: Tensors, threshold: real, n: nat): (rows: seq<nat>)
    requires forall i :: 0 <= i < n ==> Readable(t, threshold, i)
    ensures Increasing(rows)
    ensures forall k :: 0 <= k < |rows| ==> rows[k] < n && Keeps(t, threshold, rows[k])
    ensures forall i :: 0 <= i < n && Keeps(t, threshold, i) ==> i in rows
    ensures |rows| <= n
  {
    if n == 0 then []
    else
      var prev := KeptRows(t, threshold, n - 1);
      if Keeps(t, threshold, n - 1) then prev + [n - 1] else prev
  }

  /** The detections of the kept rows, in row order. */
  function Detected(t: Tensors, threshold: real, rows: seq<nat>): (ds: seq<Detection>)
    requires forall k :: 0 <= k < |rows| ==> rows[k] < |t.boxes| && rows[k] < |t.classes| && rows[k] < |t.scores|
    ensures |ds| == |rows|
    ensures forall k :: 0 <= k < |rows| ==> ds[k] == DetectionAt(t, rows[k])
  {
    seq(|rows|, k requires 0 <= k < |rows| => DetectionAt(t, rows[k]))
  }

  /** Every kept row can be read in all three tensors. */
  lemma KeptRowsInBounds(t: Tensors, threshold: real, n: nat)
    requires forall i :: 0 <= i < n ==> Readable(t, threshold, i)
    ensures forall k :: 0 <= k < |KeptRows(t, threshold, n)| ==>
              var i := KeptRows(t, threshold, n)[k];
              i < |t.boxes| && i < |t.classes| && i < |t.scores|
  {
    var rows := KeptRows(t, threshold, n);
    forall k | 0 <= k < |rows|
      ensures rows[k] < |t.boxes| && rows[k] < |t.classes| && rows[k] < |t.scores|
    {
      assert Readable(t, threshold, rows[k]) && Keeps(t, threshold, rows[k]);
    }
  }

  /** The detections the loop returns when no row raises: a reference
      definition independent of the loop. */
  function People(t: Tensors, threshold: real, n: nat): (ds: seq<Detection>)
    requires forall i :: 0 <= i < n ==> Readable(t, threshold, i)
    ensures |ds| <= n
  {
    KeptRowsInBounds(t, threshold, n);
    Detected(t, threshold, KeptRows(t, threshold, n))
  }

  /** What the loop body does with one row. */
  datatype RowStep = Raise | Skip | Take(d: Detection)

  /**
   The body of the loop for row `i`, read in the source's order: the
   score, then (only if it passes) the class, then (only if that passes
   too) the box, class and score for the result dictionary.
   */
  function ReadRow(t: Tensors, threshold: real, i: nat): (s: RowStep)
    ensures s.Raise? <==> !Readable(t, threshold, i)
    ensures s.Take? <==> Readable(t, threshold, i) && Keeps(t, threshold, i)
    ensures s.Take? ==> i < |t.boxes| && i < |t.classes| && i < |t.scores| && s.d == DetectionAt(t, i)
  {
    if i >= |t.scores| then Raise
    else if t.scores[i] >= threshold then
      if i >= |t.classes| then Raise
      else if t.classes[i] == PersonClass then
        if i >= |t.boxes| then Raise
        else Take(Detection(t.boxes[i], t.classes[i], t.scores[i]))
      else Skip
    else Skip
  }

  /**
   `detect_objects` after inference: loop over `range(count)`, appending the
   detection of every person row, and stop with `IndexError` at the first
   row a tensor is too short for.
   */
  method DetectObjects(t: Tensors, count: int, threshold: real) returns (r: FilterResult)
    ensures r.Kept? <==> forall i :: 0 <= i < count ==> Readable(t, threshold, i)
    ensures r.Kept? ==> count <= 0 || r.detections == People(t, threshold, count as nat)
    ensures r.Kept? && count <= 0 ==> r.detections == []
    ensures r.IndexError? ==>
              && r.at < count
              && !Readable(t, threshold, r.at)
              && forall i :: 0 <= i < r.at ==> Readable(t, threshold, i)
  {
    var results: seq<Detection> := [];
    var i: nat := 0;
    while i < count
      invariant count <= 0 ==> i == 0
      invariant count > 0 ==> i <= count
      invariant forall j :: 0 <= j < i ==> Readable(t, threshold, j)
      invariant results == People(t, threshold, i)
    {
      match ReadRow(t, threshold, i) {
        case Raise =>
          return IndexError(i);
        case Skip =>
        case Take(d) =>
          results := results + [d];
      }
      PeopleStep(t, threshold, i);
      i := i + 1;
    }
    return Kept(results);
  }

  /** Extending the range by one row appends that row's detection exactly
      when the row is kept. */
  lemma PeopleStep(t: Tensors, threshold: real, i: nat)
    requires forall j :: 0 <= j <= i ==> Readable(t, threshold, j)
    ensures People(t, threshold, i + 1)
            == People(t, threshold, i)
               + (if Keeps(t, threshold, i) then [DetectionAt(t, i)] else [])
  {
    var prev := KeptRows(t, threshold, i);
    KeptRowsInBounds(t, threshold, i);
    KeptRowsInBounds(t, threshold, i + 1);
    if Keeps(t, threshold, i) {
      var rows := prev + [i];
      assert KeptRows(t, threshold, i + 1) == rows;
      var ds := Detected(t, threshold, rows);
      assert ds == Detected(t, threshold, prev) + [DetectionAt(t, i)];
    }
  }

  // ---------------------------------------------------------------------
  // What the filter promises

  /** Soundness: every returned detection is a person whose score reaches
      the threshold, with the box, class and score of one row below
      `count`. */
  lemma OnlyPeople(t: Tensors, threshold: real, n: nat)
    requires forall i :: 0 <= i < n ==> Readable(t, threshold, i)
    ensures forall d :: d in People(t, threshold, n) ==>
              && d.classId == PersonClass
              && d.score >= threshold
              && exists i :: 0 <= i < n && i < |t.boxes| && d.boundingBox == t.boxes[i]
                             && i < |t.scores| && d.score == t.scores[i]
  {
    var rows := KeptRows(t, threshold, n);
    KeptRowsInBounds(t, threshold, n);
    var ds := People(t, threshold, n);
    forall d | d in ds
      ensures && d.classId == PersonClass
              && d.score >= threshold
              && exists i :: 0 <= i < n && i < |t.boxes| && d.boundingBox == t.boxes[i]
                             && i < |t.scores| && d.score == t.scores[i]
    {
      var k :| 0 <= k < |ds| && ds[k] == d;
      assert Keeps(t, threshold, rows[k]);
    }
  }

  /** Completeness: every person row below `count` whose score reaches the
      threshold is returned. */
  lemma AllPeople(t: Tensors, threshold: real, n: nat, i: nat)
    requires forall j :: 0 <= j < n ==> Readable(t, threshold, j)
    requires i < n && Keeps(t, threshold, i)
    ensures i < |t.boxes|
    ensures DetectionAt(t, i) in People(t, threshold, n)
  {
    var rows := KeptRows(t, threshold, n);
    KeptRowsInBounds(t, threshold, n);
    var k :| 0 <= k < |rows| && rows[k] == i;
    assert People(t, threshold, n)[k] == DetectionAt(t, i);
  }

  /** Detections come out in row order: for two of them, the earlier one
      comes from the lower row. */
  lemma RowOrder(t: Tensors, threshold: real, n: nat, a: nat, b: nat)
    requires forall i :: 0 <= i < n ==> Readable(t, threshold, i)
    requires a < b < |KeptRows(t, threshold, n)|
    ensures KeptRows(t, threshold, n)[a] < KeptRows(t, threshold, n)[b]
    ensures var i := KeptRows(t, threshold, n)[a];
            && i < |t.boxes| && i < |t.classes| && i < |t.scores|
            && People(t, threshold, n)[a] == DetectionAt(t, i)
  {
    KeptRowsInBounds(t, threshold, n);
  }

  /** A row readable at some threshold is readable at any higher one:
      fewer rows get past the score test to the other reads. */
  lemma HigherThresholdReadable(t: Tensors, low: real, high: real, n: nat)
    requires low <= high
    requires forall i :: 0 <= i < n ==> Readable(t, low, i)
    ensures forall i :: 0 <= i < n ==> Readable(t, high, i)
  {
    forall i | 0 <= i < n
      ensures Readable(t, high, i)
    {
      assert Readable(t, low, i);
    }
  }

  /** Raising the threshold never adds kept rows. */
  lemma {:induction false} HigherThresholdKeepsFewerRows(t: Tensors, low: real, high: real, n: nat)
    requires low <= high
    requires forall i :: 0 <= i < n ==> Readable(t, low, i)
    requires forall i :: 0 <= i < n ==> Readable(t, high, i)
    ensures |KeptRows(t, high, n)| <= |KeptRows(t, low, n)|
  {
    if n > 0 {
      HigherThresholdKeepsFewerRows(t, low, high, n - 1);
      assert Keeps(t, high, n - 1) ==> Keeps(t, low, n - 1);
    }
  }

  /** Raising the threshold never adds detections. */
  lemma HigherThresholdKeepsFewer(t: Tensors, low: real, high: real, n: nat)
    requires low <= high
    requires forall i :: 0 <= i < n ==> Readable(t, low, i)
    requires forall i :: 0 <= i < n ==> Readable(t, high, i)
    ensures |People(t, high, n)| <= |People(t, low, n)|
  {
    HigherThresholdKeepsFewerRows(t, low, high, n);
  }

  /** A frame with no row of class 0 gives the empty list, not an error. */
  lemma {:induction false} NoPersonNoDetection(t: Tensors, threshold: real, n: nat)
    requires forall i :: 0 <= i < n ==> Readable(t, threshold, i)
    requires forall i :: 0 <= i < n && i < |t.classes| ==> t.classes[i] != PersonClass
    ensures People(t, threshold, n) == []
  {
    if n > 0 {
      NoPersonNoDetection(t, threshold, n - 1);
      assert !Keeps(t, threshold, n - 1);
      PeopleStep(t, threshold, n - 1);
    }
  }

  /**
   The command-line default threshold of detect_picamera.py never reports
   more people than the `Detector` default would on the same frame.
   */
  lemma CommandLineKeepsFewer(t: Tensors, n: nat)
    requires forall i :: 0 <= i < n ==> Readable(t, DetectorThreshold, i)
    ensures forall i :: 0 <= i < n ==> Readable(t, CommandLineThreshold, i)
    ensures |People(t, CommandLineThreshold, n)| <= |People(t, DetectorThreshold, n)|
  {
    HigherThresholdReadable(t, DetectorThreshold, CommandLineThreshold, n);
    HigherThresholdKeepsFewer(t, DetectorThreshold, CommandLineThreshold, n);
  }

  /** Tensors as long as `count` never raise. */
  lemma LongTensorsNeverRaise(t: Tensors, threshold: real, count: nat)
    requires count <= |t.boxes| && count <= |t.classes| && count <= |t.scores|
    ensures forall i :: 0 <= i < count ==> Readable(t, threshold, i)
  {
  }
}
