/** Shared result types: a missing value, and a call that may fail with the error code of
    `domain.AppError` (or with a run-time panic, which unwinds a transaction like an error). */
module Core {
  datatype Option<+T> = None | Some(value: T)

  datatype ErrorCode = NotFound | Validation | Conflict | Internal | Panic

  datatype Result<+T> = Ok(value: T) | Err(code: ErrorCode) {
    predicate IsFailure() {
      Err?
    }

    function PropagateFailure<U>(): Result<U>
      requires Err?
    {
      Err(code)
    }

    function Extract(): T
      requires Ok?
    {
      value
    }
  }

  /** The index of the first row satisfying `p`, or `|rows|` when there is none. */
  function Find<T>(rows: seq<T>, p: T -> bool): (i: nat)
    ensures i <= |rows|
    ensures i < |rows| ==> p(rows[i])
    ensures forall j :: 0 <= j < i ==> !p(rows[j])
  {
    if rows == [] then 0
    else if p(rows[0]) then 0
    else 1 + Find(rows[1..], p)
  }

  ghost predicate Distinct<T(!new)>(xs: seq<T>) {
    forall i, j :: 0 <= i < j < |xs| ==> xs[i] != xs[j]
  }

  lemma {:induction false} SetOfSeq<T(!new)>(xs: seq<T>)
    ensures |set x | x in xs| <= |xs|
    ensures |set x | x in xs| == |xs| <==> Distinct(xs)
  {
    if xs == [] {
      assert (set x | x in xs) == {};
    } else {
      var init, last := xs[..|xs| - 1], xs[|xs| - 1];
      SetOfSeq(init);
      assert (set x | x in xs) == (set x | x in init) + {last};
      assert forall i :: 0 <= i < |init| ==> xs[i] == init[i];
      if last in init {
        assert !Distinct(xs);
      } else {
        assert Distinct(xs) <==> Distinct(init);
      }
    }
  }

  lemma SubsetSize<T>(a: set<T>, b: set<T>)
    requires a <= b
    ensures |a| <= |b| && (|a| == |b| ==> a == b)
  {
    assert b == a + (b - a);
  }
}
