/** Selection of the features reported with each threat event: the feature
    indices are ordered by descending absolute attribution value and the
    first three are kept, each paired with its signed attribution value.
    The attribution vector itself comes from the explainer and is an input.
    Among features of equal absolute value the order is left open. */
module Attribution {
  import opened Seqs

  /** How many features each event reports. */
  const TopK: nat := 3

  /** One reported feature: its index and its signed attribution value. */
  datatype FeatureWeight = FeatureWeight(feature: nat, value: real)

  function Abs(x: real): real
  {
    if x < 0.0 then -x else x
  }

  /** The indices of `s` have non-increasing absolute attribution values. */
  predicate Descending(vals: seq<real>, s: seq<nat>)
    requires InRange(s, |vals|)
  {
    forall j, l :: 0 <= j < l < |s| ==> Abs(vals[s[j]]) >= Abs(vals[s[l]])
  }

  /** Insert index `i` into an index list ordered by descending absolute
      value, in front of the first entry whose absolute value it reaches. */
  function Insert(vals: seq<real>, i: nat, sorted: seq<nat>): (r: seq<nat>)
    requires i < |vals| && InRange(sorted, |vals|)
    ensures |r| == |sorted| + 1 && InRange(r, |vals|)
    ensures forall x :: x in r <==> x == i || x in sorted
  {
    if sorted == [] then [i]
    else if Abs(vals[i]) >= Abs(vals[sorted[0]]) then [i] + sorted
    else [sorted[0]] + Insert(vals, i, sorted[1..])
  }

  /** Insertion keeps the list ordered. */
  lemma {:induction false} InsertDescending(vals: seq<real>, i: nat, sorted: seq<nat>)
    requires i < |vals| && InRange(sorted, |vals|) && Descending(vals, sorted)
    ensures Descending(vals, Insert(vals, i, sorted))
  {
    if sorted != [] && Abs(vals[i]) < Abs(vals[sorted[0]]) {
      InsertDescending(vals, i, sorted[1..]);
      var rest := Insert(vals, i, sorted[1..]);
      assert forall x :: x in rest ==> x == i || x in sorted[1..];
      assert forall j :: 0 <= j < |rest| ==> Abs(vals[sorted[0]]) >= Abs(vals[rest[j]]) by {
        forall j | 0 <= j < |rest| ensures Abs(vals[sorted[0]]) >= Abs(vals[rest[j]]) {
          assert rest[j] in rest;
        }
      }
    }
  }

  /** Inserting a new index into a list without repetitions gives a list
      without repetitions. */
  lemma {:induction false} InsertDistinct(vals: seq<real>, i: nat, sorted: seq<nat>)
    requires i < |vals| && InRange(sorted, |vals|) && i !in sorted && Distinct(sorted)
    ensures Distinct(Insert(vals, i, sorted))
  {
    if sorted != [] && Abs(vals[i]) < Abs(vals[sorted[0]]) {
      assert sorted[0] !in sorted[1..];
      InsertDistinct(vals, i, sorted[1..]);
    }
  }

  /** `idx` ordered by descending absolute attribution value: the
      descending argsort of the absolute values. */
  function SortByAbs(vals: seq<real>, idx: seq<nat>): (r: seq<nat>)
    requires InRange(idx, |vals|)
    ensures |r| == |idx| && InRange(r, |vals|)
    ensures forall x :: x in r <==> x in idx
  {
    if idx == [] then []
    else
      assert forall x :: x in idx[1..] ==> x in idx;
      Insert(vals, idx[0], SortByAbs(vals, idx[1..]))
  }

  /** The sorted indices are ordered, and are a permutation of `idx` when
      `idx` has no repetitions. */
  lemma {:induction false} SortByAbsOrdered(vals: seq<real>, idx: seq<nat>)
    requires InRange(idx, |vals|)
    ensures Descending(vals, SortByAbs(vals, idx))
    ensures Distinct(idx) ==> Distinct(SortByAbs(vals, idx))
  {
    if idx != [] {
      var tail := idx[1..];
      SortByAbsOrdered(vals, tail);
      InsertDescending(vals, idx[0], SortByAbs(vals, tail));
      if Distinct(idx) {
        assert idx[0] !in tail;
        InsertDistinct(vals, idx[0], SortByAbs(vals, tail));
      }
    }
  }

  /** The indices `0 .. n - 1`. */
  function Range(n: nat): (r: seq<nat>)
    ensures |r| == n && forall j :: 0 <= j < n ==> r[j] == j
  {
    seq(n, j => j)
  }

  /** All feature indices ordered by descending absolute attribution value:
      `argsort(abs(vals))[::-1]`. */
  function Argsort(vals: seq<real>): seq<nat>
  {
    SortByAbs(vals, Range(|vals|))
  }

  /** Every prefix of the descending argsort holds distinct valid indices in
      descending order, and no index outside it has a larger absolute value
      than one inside it. */
  lemma ArgsortPrefix(vals: seq<real>, k: nat)
    requires k <= |vals|
    ensures |Argsort(vals)[..k]| == k && InRange(Argsort(vals)[..k], |vals|)
    ensures Distinct(Argsort(vals)[..k]) && Descending(vals, Argsort(vals)[..k])
    ensures forall i, j :: 0 <= i < |vals| && 0 <= j < k && i !in Argsort(vals)[..k] ==>
              Abs(vals[i]) <= Abs(vals[Argsort(vals)[j]])
  {
    var all := Range(|vals|);
    var order := SortByAbs(vals, all);
    SortByAbsOrdered(vals, all);
    forall i, j | 0 <= i < |vals| && 0 <= j < k && i !in order[..k]
      ensures Abs(vals[i]) <= Abs(vals[order[j]])
    {
      assert i in all by { assert all[i] == i; }
      var p :| 0 <= p < |order| && order[p] == i;
      assert forall q :: 0 <= q < k ==> order[q] == order[..k][q];
      assert j < p;
    }
  }

  /** The indices of the `TopK` largest absolute attribution values, largest
      first: `argsort(abs(vals))[::-1][:3]`. */
  function TopIndices(vals: seq<real>): (top: seq<nat>)
    ensures |top| == if |vals| < TopK then |vals| else TopK
    ensures InRange(top, |vals|) && Distinct(top) && Descending(vals, top)
    ensures forall i, j :: 0 <= i < |vals| && 0 <= j < |top| && i !in top ==> Abs(vals[i]) <= Abs(vals[top[j]])
  {
    var k := if |vals| < TopK then |vals| else TopK;
    ArgsortPrefix(vals, k);
    Argsort(vals)[..k]
  }

  /** Every index of `top` is reported when the `j`-th report carries the
      `j`-th index. */
  lemma TopReported(top: seq<nat>, r: seq<FeatureWeight>)
    requires |r| == |top| && forall j :: 0 <= j < |top| ==> r[j].feature == top[j]
    ensures forall i: nat :: i in top ==> Reported(r, i)
  {
    forall i: nat | i in top ensures Reported(r, i) {
      var l :| 0 <= l < |top| && top[l] == i;
      assert r[l].feature == i;
    }
  }

  /** The reported features of one event. */
  function TopFeatures(vals: seq<real>): (r: seq<FeatureWeight>)
    // at most three, and three whenever there are three features
    ensures |r| == if |vals| < TopK then |vals| else TopK
    // valid, distinct feature indices, each with its signed value
    ensures forall j :: 0 <= j < |r| ==> r[j].feature < |vals| && r[j].value == vals[r[j].feature]
    ensures forall j, l :: 0 <= j < l < |r| ==> r[j].feature != r[l].feature
    // largest absolute value first
    ensures forall j, l :: 0 <= j < l < |r| ==> Abs(r[j].value) >= Abs(r[l].value)
    // no unreported feature has a larger absolute value than a reported one
    ensures forall i, j :: 0 <= i < |vals| && 0 <= j < |r| && !Reported(r, i) ==> Abs(vals[i]) <= Abs(r[j].value)
  {
    var top := TopIndices(vals);
    var r := seq(|top|, j requires 0 <= j < |top| => FeatureWeight(top[j], vals[top[j]]));
    TopReported(top, r);
    r
  }

  /** Feature `i` is among the reported ones. */
  predicate Reported(r: seq<FeatureWeight>, i: nat)
  {
    exists l :: 0 <= l < |r| && r[l].feature == i
  }
}
