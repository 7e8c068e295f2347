/**
 The rolling count window of the person counter: `Data.process_result`
 together with the clear-in-`finally` behaviour of `Data.post_data`
 (tensor-flow/package/data.py) and its copy `Data.process_result` /
 `Data.send_data` (tensor-flow/detect_picamera.py).

 The dictionary `data` of the source only ever holds the keys
 `img1 .. img{N}` (contiguous, starting at 1) between calls; `mode` and
 `timestamp` are added on the flushing call and removed again by the clear.
 So a window is modelled as the sequence `imgs` where `imgs[j]` is the value
 stored under the key `img{j+1}`, and the keys `mode`/`timestamp` live in the
 `Sample` handed to the upload.
 */
module Aggregator {
  import Sorting

  /** `process_result` compares the counter with the literal 5, whatever
      `collection_limit` is. */
  const WindowSize: nat := 5

  /** Default `collection_limit` of the `Data` constructor in data.py. */
  const DefaultCollectionLimit: int := 5

  /** Index hard-coded by detect_picamera.py in place of `mode_index`. */
  const PicameraOrderIndex: int := 2

  /** The counter and the `img{k}` values of one window. */
  datatype Window = Window(count: nat, imgs: seq<nat>)

  /** data.py's `Data`: the window plus the configured `collection_limit`. */
  datatype Data = Data(collectionLimit: int, window: Window)

  /** The record posted on a flush: `img1..img5`, `mode`, `timestamp`, and
      whether the POST went through (it changes nothing but the log). */
  datatype Sample = Sample(imgs: seq<nat>, mode: int, timestamp: string, delivered: bool)

  /** What one `process_result` call does: record a count, flush a sample,
      or raise `IndexError` while computing the order statistic. */
  datatype Outcome =
    | Recorded(next: Window)
    | Flushed(next: Window, sample: Sample)
    | Raised(next: Window)

  /** Result of indexing a Python list of length `n`. */
  datatype ListIndex = Valid(at: nat) | OutOfRange

  /** Holds of every state reachable from `Init`: the counter never passes
      the number of stored keys, and there are never more than five of them. */
  ghost predicate Wf(w: Window) {
    w.count <= |w.imgs| <= WindowSize
  }

  /** A fresh `Data()`: counter 0, empty dictionary. */
  function Init(): (w: Window)
    ensures Wf(w) && w.count == 0 && |w.imgs| == 0
  {
    Window(0, [])
  }

  /** `collection_limit // 2` with Python's floor division. */
  function ModeIndex(collectionLimit: int): (r: int)
    ensures 2 * r <= collectionLimit < 2 * r + 2
  {
    collectionLimit / 2
  }

  /** Python list indexing `xs[i]` for `len(xs) == n`, negative indices
      counting from the end. */
  function PyIndex(n: nat, i: int): (r: ListIndex)
    ensures r.Valid? <==> -(n as int) <= i < n
    ensures r.Valid? ==> r.at < n && (i >= 0 ==> r.at == i) && (i < 0 ==> r.at == n + i)
  {
    if 0 <= i < n then Valid(i)
    else if -(n as int) <= i < 0 then Valid(n + i)
    else OutOfRange
  }

  /**
   One `process_result` call that sees `detected` detections, where
   `orderIndex` is the index taken from the sorted values on a flush and
   `timestamp`/`uploadOk` stand for the clock and the POST's fate.
   */
  function Step(w: Window, detected: nat, orderIndex: int, timestamp: string, uploadOk: bool): (r: Outcome)
    requires Wf(w)
    ensures Wf(r.next)
    ensures r.Recorded? <==> w.count < WindowSize
    // a call below the limit stores its count under the next key and touches no other key
    ensures r.Recorded? ==>
              && r.next.count == w.count + 1
              && |r.next.imgs| == (if w.count < |w.imgs| then |w.imgs| else w.count + 1)
              && r.next.imgs[w.count] == detected
              && forall j :: 0 <= j < |w.imgs| && j != w.count ==> r.next.imgs[j] == w.imgs[j]
    // the flushing call ignores its own detections and always leaves an empty window
    ensures r.Flushed? ==>
              && r.next == Init()
              && |w.imgs| == WindowSize
              && r.sample.imgs == w.imgs
              && r.sample.timestamp == timestamp
              && r.sample.delivered == uploadOk
              && PyIndex(WindowSize, orderIndex).Valid?
              && r.sample.mode == Sorting.Sort(w.imgs)[PyIndex(WindowSize, orderIndex).at]
    ensures r.Raised? <==> w.count == WindowSize && PyIndex(WindowSize, orderIndex).OutOfRange?
    // the counter was already reset when the index failed; the dictionary is kept
    ensures r.Raised? ==> r.next == Window(0, w.imgs)
  {
    if w.count < WindowSize then
      var imgs := if w.count < |w.imgs| then w.imgs[w.count := detected] else w.imgs + [detected];
      Recorded(Window(w.count + 1, imgs))
    else
      match PyIndex(|w.imgs|, orderIndex)
      case OutOfRange => Raised(Window(0, w.imgs))
      case Valid(k) =>
        var mode := Sorting.Sort(w.imgs)[k];
        Flushed(Window(0, []), Sample(w.imgs, mode, timestamp, uploadOk))
  }

  /** data.py: `process_result` with `mode_index == collection_limit // 2`. */
  function ProcessResult(d: Data, detected: nat, timestamp: string, uploadOk: bool): (r: Outcome)
    requires Wf(d.window)
    // only a flushing call can raise, and it does so exactly for limits outside -10 .. 9
    ensures r.Raised? <==> d.window.count == WindowSize && !(-10 <= d.collectionLimit <= 9)
    ensures r.Flushed? ==> r.sample.imgs == d.window.imgs && r.next == Init()
  {
    Step(d.window, detected, ModeIndex(d.collectionLimit), timestamp, uploadOk)
  }

  /** detect_picamera.py: `process_result` with the index fixed at 2. */
  function PicameraProcessResult(w: Window, detected: nat, timestamp: string, uploadOk: bool): (r: Outcome)
    requires Wf(w)
    // with index 2 the call never raises: it records below five counts and flushes at five
    ensures !r.Raised?
    ensures r.Flushed? <==> w.count == WindowSize
    ensures r.Flushed? ==> r.sample.imgs == w.imgs && r.next == Init()
  {
    Step(w, detected, PicameraOrderIndex, timestamp, uploadOk)
  }

  /** With the default `collection_limit`, data.py's `Data` behaves exactly
      like detect_picamera.py's. */
  lemma DefaultLimitIsPicamera(w: Window, detected: nat, timestamp: string, uploadOk: bool)
    requires Wf(w)
    ensures ProcessResult(Data(DefaultCollectionLimit, w), detected, timestamp, uploadOk)
            == PicameraProcessResult(w, detected, timestamp, uploadOk)
  {
  }

  /**
   With index 2 (data.py's default, detect_picamera.py's constant) a call
   never raises, and every flushed `mode` is the median of the five recorded
   counts: one of them, with at least three counts at most it and at least
   three at least it.
   */
  lemma FlushIsMedian(w: Window, detected: nat, timestamp: string, uploadOk: bool)
    requires Wf(w)
    ensures var r := PicameraProcessResult(w, detected, timestamp, uploadOk);
            && !r.Raised?
            && (r.Flushed? ==>
                  && r.sample.mode in multiset(r.sample.imgs)
                  && Sorting.CountAtMost(r.sample.imgs, r.sample.mode) >= 3
                  && Sorting.CountAtLeast(r.sample.imgs, r.sample.mode) >= 3)
  {
    if w.count == WindowSize {
      Sorting.MiddleOfFive(w.imgs);
    }
  }

  /** The POST's success or failure leaves the same window behind. */
  lemma UploadOutcomeIrrelevant(w: Window, detected: nat, orderIndex: int, timestamp: string)
    requires Wf(w)
    ensures Step(w, detected, orderIndex, timestamp, true).next == Step(w, detected, orderIndex, timestamp, false).next
  {
  }

  // ---------------------------------------------------------------- runs

  /** The inputs of one call: detections seen, clock reading, POST fate. */
  datatype Call = Call(detected: nat, timestamp: string, uploadOk: bool)

  /** The window after a run, the samples flushed so far, and whether a call
      raised (which ends the capture loop calling `process_result`). */
  datatype Trace = Trace(final: Window, samples: seq<Sample>, raised: bool)

  /** The detection counts of calls `lo .. hi - 1`, in call order. */
  function Counts(calls: seq<Call>, lo: nat, hi: nat): (r: seq<nat>)
    requires lo <= hi <= |calls|
    ensures |r| == hi - lo
    ensures forall j :: 0 <= j < hi - lo ==> r[j] == calls[lo + j].detected
    decreases hi - lo
  {
    if lo == hi then [] else Counts(calls, lo, hi - 1) + [calls[hi - 1].detected]
  }

  /** A flushed sample holds five counts and, as `mode`, the value at the
      order index of their ascending sort. */
  ghost predicate Summarises(s: Sample, orderIndex: int) {
    && |s.imgs| == WindowSize
    && PyIndex(WindowSize, orderIndex).Valid?
    && s.mode == Sorting.Sort(s.imgs)[PyIndex(WindowSize, orderIndex).at]
  }

  /** `process_result` called on the first `n` calls in order, stopping at
      the first `IndexError`. */
  function RunPrefix(w: Window, calls: seq<Call>, n: nat, orderIndex: int): (t: Trace)
    requires Wf(w) && n <= |calls|
    ensures Wf(t.final)
    ensures forall k :: 0 <= k < |t.samples| ==> Summarises(t.samples[k], orderIndex)
  {
    if n == 0 then Trace(w, [], false)
    else
      var prev := RunPrefix(w, calls, n - 1, orderIndex);
      if prev.raised then prev
      else
        var c := calls[n - 1];
        match Step(prev.final, c.detected, orderIndex, c.timestamp, c.uploadOk)
        case Recorded(next) => Trace(next, prev.samples, false)
        case Flushed(next, sample) => Trace(next, prev.samples + [sample], false)
        case Raised(next) => Trace(next, prev.samples, true)
  }

  /** `process_result` called once per element of `calls`. */
  function Run(w: Window, calls: seq<Call>, orderIndex: int): (t: Trace)
    requires Wf(w)
    ensures Wf(t.final)
    ensures forall k :: 0 <= k < |t.samples| ==> Summarises(t.samples[k], orderIndex)
  {
    RunPrefix(w, calls, |calls|, orderIndex)
  }

  /** Sample number `k` of a run from `Init`: calls `6k .. 6k+4` are recorded
      and call `6k+5` flushes them. */
  ghost predicate SampleOfCalls(s: Sample, calls: seq<Call>, k: nat)
    requires 6 * k + 6 <= |calls|
  {
    && s.imgs == Counts(calls, 6 * k, 6 * k + 5)
    && s.timestamp == calls[6 * k + 5].timestamp
    && s.delivered == calls[6 * k + 5].uploadOk
  }

  /** The trace left by the first `n` calls of a run from `Init`. */
  ghost predicate RunShape(t: Trace, calls: seq<Call>, n: nat)
    requires n <= |calls|
  {
    && !t.raised
    && |t.samples| == n / 6
    && t.final.count == n % 6
    && t.final.imgs == Counts(calls, n - n % 6, n)
    && forall k :: 0 <= k < |t.samples| ==> 6 * k + 6 <= n && SampleOfCalls(t.samples[k], calls, k)
  }

  lemma DivideBySix(n: nat)
    requires n > 0
    ensures 6 * ((n - 1) / 6) <= n - 1
    ensures (n - 1) % 6 < 5 ==> n / 6 == (n - 1) / 6 && n % 6 == (n - 1) % 6 + 1
    ensures (n - 1) % 6 == 5 ==> n / 6 == (n - 1) / 6 + 1 && n % 6 == 0 && 6 * ((n - 1) / 6) == n - 6
  {
  }

  /** A call that arrives with fewer than five counts stored extends the window. */
  lemma RecordCall(calls: seq<Call>, n: nat, orderIndex: int)
    requires 0 < n <= |calls| && (n - 1) % 6 < 5
    requires RunShape(RunPrefix(Init(), calls, n - 1, orderIndex), calls, n - 1)
    ensures RunShape(RunPrefix(Init(), calls, n, orderIndex), calls, n)
  {
    var prev := RunPrefix(Init(), calls, n - 1, orderIndex);
    var t := RunPrefix(Init(), calls, n, orderIndex);
    var c := calls[n - 1];
    var r := Step(prev.final, c.detected, orderIndex, c.timestamp, c.uploadOk);
    DivideBySix(n);
    assert r.Recorded?;
    assert t == Trace(r.next, prev.samples, false);
    assert r.next.imgs == prev.final.imgs + [c.detected];
  }

  /** The sixth call of a window flushes the five counts stored before it. */
  lemma FlushCall(calls: seq<Call>, n: nat, orderIndex: int)
    requires PyIndex(WindowSize, orderIndex).Valid?
    requires 0 < n <= |calls| && (n - 1) % 6 == 5
    requires RunShape(RunPrefix(Init(), calls, n - 1, orderIndex), calls, n - 1)
    ensures RunShape(RunPrefix(Init(), calls, n, orderIndex), calls, n)
  {
    var prev := RunPrefix(Init(), calls, n - 1, orderIndex);
    var t := RunPrefix(Init(), calls, n, orderIndex);
    var c := calls[n - 1];
    var r := Step(prev.final, c.detected, orderIndex, c.timestamp, c.uploadOk);
    var k := (n - 1) / 6;
    DivideBySix(n);
    assert r.Flushed?;
    assert t == Trace(r.next, prev.samples + [r.sample], false);
    assert SampleOfCalls(r.sample, calls, k);
    forall j | 0 <= j < |t.samples|
      ensures 6 * j + 6 <= n && SampleOfCalls(t.samples[j], calls, j)
    {
      if j < |prev.samples| {
        assert t.samples[j] == prev.samples[j];
      } else {
        assert j == k && t.samples[j] == r.sample;
      }
    }
  }

  /**
   From a fresh `Data`, with an index that fits five values, the first `n`
   calls never raise, flush exactly `n / 6` samples (every sixth call flushes
   and drops its own detections), and leave the last `n % 6` counts in the
   window, stored under `img1 .. img{n % 6}`.
   */
  lemma {:induction false} RunFromInit(calls: seq<Call>, n: nat, orderIndex: int)
    requires PyIndex(WindowSize, orderIndex).Valid?
    requires n <= |calls|
    ensures RunShape(RunPrefix(Init(), calls, n, orderIndex), calls, n)
  {
    if n > 0 {
      RunFromInit(calls, n - 1, orderIndex);
      if (n - 1) % 6 < 5 {
        RecordCall(calls, n, orderIndex);
      } else {
        FlushCall(calls, n, orderIndex);
      }
    }
  }

  /**
   From a fresh data.py `Data`, the sixth call, the first to find five
   counts, raises exactly when `collection_limit` lies outside -10 .. 9.
   It then leaves no sample, the counter at 0 and the five counts stored,
   and the run stops; otherwise it flushes one sample and empties the window.
   */
  lemma FlushRaisesIff(calls: seq<Call>, collectionLimit: int)
    requires |calls| >= 6
    ensures var t := RunPrefix(Init(), calls, 6, ModeIndex(collectionLimit));
            && (t.raised <==> !(-10 <= collectionLimit <= 9))
            && (t.raised ==> t.samples == [] && t.final == Window(0, Counts(calls, 0, 5)))
            && (!t.raised ==> |t.samples| == 1 && t.final == Init())
  {
    var ix := ModeIndex(collectionLimit);
    RecordCall(calls, 1, ix);
    RecordCall(calls, 2, ix);
    RecordCall(calls, 3, ix);
    RecordCall(calls, 4, ix);
    RecordCall(calls, 5, ix);
  }

  /** Fifteen frames seeing 1,2,3,4,5 three times over give two samples, both
      with `mode` 3, and leave the last three counts waiting. */
  lemma FifteenFrames(calls: seq<Call>)
    requires |calls| == 15
    requires forall i :: 0 <= i < 15 ==> calls[i].detected == i % 5 + 1
    ensures var t := Run(Init(), calls, PicameraOrderIndex);
            && |t.samples| == 2
            && t.samples[0].mode == 3
            && t.samples[1].mode == 3
            && t.final.imgs == [3, 4, 5]
  {
    FifteenCalls(calls);
    FifteenCounts(calls);
    var t := Run(Init(), calls, PicameraOrderIndex);
    MiddleOfExampleWindows(t.samples[0].imgs);
    MiddleOfExampleWindows(t.samples[1].imgs);
  }

  /** Fifteen calls from `Init`: two flushes (calls 6 and 12) and three
      counts left waiting. */
  lemma FifteenCalls(calls: seq<Call>)
    requires |calls| == 15
    ensures var t := Run(Init(), calls, PicameraOrderIndex);
            && |t.samples| == 2
            && t.samples[0].imgs == Counts(calls, 0, 5)
            && t.samples[1].imgs == Counts(calls, 6, 11)
            && t.samples[0].mode == Sorting.Sort(t.samples[0].imgs)[2]
            && t.samples[1].mode == Sorting.Sort(t.samples[1].imgs)[2]
            && t.final.imgs == Counts(calls, 12, 15)
  {
    RunFromInit(calls, 15, PicameraOrderIndex);
    var t := Run(Init(), calls, PicameraOrderIndex);
    assert 15 / 6 == 2 && 15 % 6 == 3;
    assert SampleOfCalls(t.samples[0], calls, 0);
    assert SampleOfCalls(t.samples[1], calls, 1);
    assert Summarises(t.samples[0], PicameraOrderIndex);
    assert Summarises(t.samples[1], PicameraOrderIndex);
  }

  lemma FifteenCounts(calls: seq<Call>)
    requires |calls| == 15
    requires forall i :: 0 <= i < 15 ==> calls[i].detected == i % 5 + 1
    ensures Counts(calls, 0, 5) == [1, 2, 3, 4, 5]
    ensures Counts(calls, 6, 11) == [2, 3, 4, 5, 1]
    ensures Counts(calls, 12, 15) == [3, 4, 5]
  {
    assert Counts(calls, 0, 5) == [1, 2, 3, 4, 5] by {
      CountsOfFive(calls, 0);
      assert calls[0].detected == 1 && calls[1].detected == 2 && calls[2].detected == 3;
      assert calls[3].detected == 4 && calls[4].detected == 5;
    }
    assert Counts(calls, 6, 11) == [2, 3, 4, 5, 1] by {
      CountsOfFive(calls, 6);
      assert calls[6].detected == 2 && calls[7].detected == 3 && calls[8].detected == 4;
      assert calls[9].detected == 5 && calls[10].detected == 1;
    }
    assert Counts(calls, 12, 15) == [3, 4, 5] by {
      CountsOfThree(calls, 12);
      assert calls[12].detected == 3 && calls[13].detected == 4 && calls[14].detected == 5;
    }
  }

  lemma CountsOfFive(calls: seq<Call>, lo: nat)
    requires lo + 5 <= |calls|
    ensures Counts(calls, lo, lo + 5)
              == [calls[lo].detected, calls[lo + 1].detected, calls[lo + 2].detected,
                  calls[lo + 3].detected, calls[lo + 4].detected]
  {
  }

  lemma CountsOfThree(calls: seq<Call>, lo: nat)
    requires lo + 3 <= |calls|
    ensures Counts(calls, lo, lo + 3) == [calls[lo].detected, calls[lo + 1].detected, calls[lo + 2].detected]
  {
  }

  /** A full window holding 0, 1, 2, 3, 4 flushes with `mode` 2 under the
      default `collection_limit`. */
  lemma AscendingWindowExample(imgs: seq<nat>, detected: nat, timestamp: string, uploadOk: bool)
    requires imgs == [0, 1, 2, 3, 4]
    ensures var r := ProcessResult(Data(DefaultCollectionLimit, Window(5, imgs)), detected, timestamp, uploadOk);
            r.Flushed? && r.sample.mode == 2
  {
    assert Sorting.Sort(imgs)[2] == 2 by {
      Sorting.SortIsUnique(imgs, imgs);
    }
  }

  /** The middle of both five-count windows of the example is 3. */
  lemma MiddleOfExampleWindows(imgs: seq<int>)
    requires imgs == [1, 2, 3, 4, 5] || imgs == [2, 3, 4, 5, 1]
    ensures Sorting.Sort(imgs)[2] == 3
  {
    var sorted := [1, 2, 3, 4, 5];
    if imgs == [2, 3, 4, 5, 1] {
      RotatedWindow();
    }
    Sorting.SortIsUnique(imgs, sorted);
  }

  lemma RotatedWindow()
    ensures multiset([2, 3, 4, 5, 1]) == multiset([1, 2, 3, 4, 5])
  {
    assert [2, 3, 4, 5, 1] == [2, 3, 4, 5] + [1];
    assert [1, 2, 3, 4, 5] == [1] + [2, 3, 4, 5];
  }
}
