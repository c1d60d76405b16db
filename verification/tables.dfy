/** Tables as sequences of rows.

  No statement of the modelled repositories deletes a copy, a loan or a
  reservation, so a table is a sequence that only grows and a row's id is its
  position. `CountIf` is SQL's `count(*) FILTER (WHERE p)` and `First` is
  `ORDER BY key LIMIT 1` over rows kept in key order. */
module Tables {
  datatype Option<+T> = None | Some(value: T) {
    function GetOr(default: T): T {
      if None? then default else value
    }
  }

  predicate Distinct<T(==)>(s: seq<T>) {
    forall i, j :: 0 <= i < j < |s| ==> s[i] != s[j]
  }

  function Bit(b: bool): nat {
    if b then 1 else 0
  }

  function Matching<T>(rows: seq<T>, p: T -> bool): set<nat> {
    set i: nat | i < |rows| && p(rows[i])
  }

  function CountIf<T>(rows: seq<T>, p: T -> bool): nat {
    |Matching(rows, p)|
  }

  /** The first row satisfying `p`. */
  function First<T>(rows: seq<T>, p: T -> bool): (r: Option<nat>)
    ensures r.Some? ==> r.value < |rows| && p(rows[r.value]) && forall j :: 0 <= j < r.value ==> !p(rows[j])
    ensures r.None? ==> forall j :: 0 <= j < |rows| ==> !p(rows[j])
  {
    FirstFrom(rows, p, 0)
  }

  function FirstFrom<T>(rows: seq<T>, p: T -> bool, i: nat): (r: Option<nat>)
    requires i <= |rows|
    ensures r.Some? ==> i <= r.value < |rows| && p(rows[r.value]) && forall j :: i <= j < r.value ==> !p(rows[j])
    ensures r.None? ==> forall j :: i <= j < |rows| ==> !p(rows[j])
    decreases |rows| - i
  {
    if i == |rows| then None
    else if p(rows[i]) then Some(i)
    else FirstFrom(rows, p, i + 1)
  }

  /** Updating one row moves a count by at most one, in the direction the row moved. */
  lemma CountUpdate<T>(rows: seq<T>, i: nat, x: T, p: T -> bool)
    requires i < |rows|
    ensures CountIf(rows[i := x], p) == CountIf(rows, p) - Bit(p(rows[i])) + Bit(p(x))
  {
    var before, after := Matching(rows, p), Matching(rows[i := x], p);
    assert before - {i} == after - {i};
    assert |before| == |before - {i}| + Bit(p(rows[i]));
    assert |after| == |after - {i}| + Bit(p(x));
  }

  lemma CountAppend<T>(rows: seq<T>, x: T, p: T -> bool)
    ensures CountIf(rows + [x], p) == CountIf(rows, p) + Bit(p(x))
  {
    var rows', n := rows + [x], |rows|;
    assert forall i :: 0 <= i < n ==> rows'[i] == rows[i];
    assert rows'[n] == x;
    var before, after := Matching(rows, p), Matching(rows', p);
    assert n !in before;
    if p(x) {
      assert after == before + {n};
    } else {
      assert after == before;
    }
  }

  lemma SubsetSize<T>(a: set<T>, b: set<T>)
    requires a <= b
    ensures |a| <= |b|
  {
    assert b == a + (b - a);
  }

  /** If every row that matches afterwards matched before, the count did not grow. */
  lemma CountShrinks<T>(rows: seq<T>, rows': seq<T>, p: T -> bool)
    requires |rows'| == |rows|
    requires forall i :: 0 <= i < |rows| && p(rows'[i]) ==> p(rows[i])
    ensures CountIf(rows', p) <= CountIf(rows, p)
  {
    SubsetSize(Matching(rows', p), Matching(rows, p));
  }

  lemma CountSame<T>(rows: seq<T>, rows': seq<T>, p: T -> bool)
    requires |rows'| == |rows|
    requires forall i :: 0 <= i < |rows| ==> p(rows'[i]) == p(rows[i])
    ensures CountIf(rows', p) == CountIf(rows, p)
  {
    assert Matching(rows', p) == Matching(rows, p);
  }

  /** Rows of two kinds that exclude each other. */
  lemma CountSplit<T>(rows: seq<T>, p: T -> bool, q: T -> bool, either: T -> bool)
    requires forall i :: 0 <= i < |rows| ==>
      !(p(rows[i]) && q(rows[i])) && (either(rows[i]) <==> p(rows[i]) || q(rows[i]))
    ensures CountIf(rows, either) == CountIf(rows, p) + CountIf(rows, q)
  {
    assert Matching(rows, either) == Matching(rows, p) + Matching(rows, q);
    assert Matching(rows, p) !! Matching(rows, q);
  }

  lemma CountZero<T>(rows: seq<T>, p: T -> bool)
    ensures CountIf(rows, p) == 0 <==> forall i :: 0 <= i < |rows| ==> !p(rows[i])
  {
    if i :| 0 <= i < |rows| && p(rows[i]) {
      assert i in Matching(rows, p);
    } else {
      assert Matching(rows, p) == {};
    }
  }

  lemma {:induction false} CountConcat<T>(a: seq<T>, b: seq<T>, p: T -> bool)
    ensures CountIf(a + b, p) == CountIf(a, p) + CountIf(b, p)
  {
    if b == [] {
      CountZero(b, p);
      assert a + b == a;
    } else {
      var front, last := b[..|b| - 1], b[|b| - 1];
      CountConcat(a, front, p);
      CountAppend(a + front, last, p);
      CountAppend(front, last, p);
      assert a + b == a + front + [last] && b == front + [last];
    }
  }
}
