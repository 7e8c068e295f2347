/**
 `people_count` of opencv/Controller/detector.py: the number of entries
 equal to 1 (the "person" class of the COCO label list, which that
 detector numbers from 1) in the flattened array of class ids.

 The array is given as its rows; the count the source prints is returned.
 */
module PeopleCount {

  /** Class id of "person" for the OpenCV detector. */
  const PersonClassId: int := 1

  /** `numpy.ndarray.flatten()` on a two-dimensional array: the rows one
      after the other. */
  function Flatten(rows: seq<seq<int>>): seq<int> {
    if |rows| == 0 then [] else Flatten(rows[..|rows| - 1]) + rows[|rows| - 1]
  }

  /** Flattening a list of rows is flattening each part, one after the other. */
  lemma {:induction false} FlattenAppend(a: seq<seq<int>>, b: seq<seq<int>>)
    ensures Flatten(a + b) == Flatten(a) + Flatten(b)
    decreases |b|
  {
    if |b| > 0 {
      var b' := b[..|b| - 1];
      assert (a + b)[..|a + b| - 1] == a + b';
      FlattenAppend(a, b');
    } else {
      assert a + b == a;
    }
  }

  /** Row-major order: cell `j` of row `i` sits after all cells of the rows
      before it. */
  lemma FlattenCell(rows: seq<seq<int>>, i: nat, j: nat)
    requires i < |rows| && j < |rows[i]|
    ensures |Flatten(rows[..i])| + j < |Flatten(rows)|
    ensures Flatten(rows)[|Flatten(rows[..i])| + j] == rows[i][j]
  {
    assert rows == rows[..i] + ([rows[i]] + rows[i + 1..]);
    FlattenAppend(rows[..i], [rows[i]] + rows[i + 1..]);
    FlattenAppend([rows[i]], rows[i + 1..]);
    assert Flatten([rows[i]]) == rows[i] by {
      assert [rows[i]][..0] == [];
    }
  }

  /** Occurrences of `x` in `s`. */
  function Occurrences(s: seq<int>, x: int): (n: nat)
    ensures n <= |s|
  {
    if |s| == 0 then 0
    else Occurrences(s[..|s| - 1], x) + (if s[|s| - 1] == x then 1 else 0)
  }

  /** Counting by hand agrees with the multiset of the values. */
  lemma {:induction false} OccurrencesIsMultiplicity(s: seq<int>, x: int)
    ensures Occurrences(s, x) == multiset(s)[x]
  {
    if |s| > 0 {
      OccurrencesIsMultiplicity(s[..|s| - 1], x);
      assert s == s[..|s| - 1] + [s[|s| - 1]];
    }
  }

  /**
   The loop of `people_count` over `classId_arr.flatten()`: add one for
   every entry equal to 1.
   */
  method CountPeople(rows: seq<seq<int>>) returns (cnt: nat)
    ensures cnt == multiset(Flatten(rows))[PersonClassId]
    ensures cnt <= |Flatten(rows)|
  {
    var flat := Flatten(rows);
    cnt := 0;
    var i := 0;
    while i < |flat|
      invariant i <= |flat|
      invariant cnt == Occurrences(flat[..i], PersonClassId)
    {
      assert flat[..i + 1][..i] == flat[..i];
      if flat[i] == PersonClassId {
        cnt := cnt + 1;
      }
      i := i + 1;
    }
    assert flat[..i] == flat;
    OccurrencesIsMultiplicity(flat, PersonClassId);
  }

  /** The count of a concatenation is the sum of the counts. */
  lemma {:induction false} OccurrencesAppend(a: seq<int>, b: seq<int>, x: int)
    ensures Occurrences(a + b, x) == Occurrences(a, x) + Occurrences(b, x)
  {
    OccurrencesIsMultiplicity(a + b, x);
    OccurrencesIsMultiplicity(a, x);
    OccurrencesIsMultiplicity(b, x);
  }

  /** Sum over rows of the per-row counts. */
  function RowCounts(rows: seq<seq<int>>, x: int): nat {
    if |rows| == 0 then 0
    else RowCounts(rows[..|rows| - 1], x) + Occurrences(rows[|rows| - 1], x)
  }

  /** The order of flattening does not matter to the count: it is the sum
      of the counts of the rows. */
  lemma {:induction false} CountByRows(rows: seq<seq<int>>, x: int)
    ensures Occurrences(Flatten(rows), x) == RowCounts(rows, x)
  {
    if |rows| > 0 {
      CountByRows(rows[..|rows| - 1], x);
      OccurrencesAppend(Flatten(rows[..|rows| - 1]), rows[|rows| - 1], x);
    }
  }

  /** Detections of other classes do not change the count. */
  lemma OtherClassesIgnored(rows: seq<seq<int>>, other: int)
    requires other != PersonClassId
    ensures multiset(Flatten(rows + [[other]]))[PersonClassId] == multiset(Flatten(rows))[PersonClassId]
  {
    assert (rows + [[other]])[..|rows|] == rows;
    assert Flatten(rows + [[other]]) == Flatten(rows) + [other];
  }
}
