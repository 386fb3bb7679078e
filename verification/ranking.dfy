/** Selecting from a grouping: `idxmax` (the key of a largest group) and
    `sort_values(ascending=False).head(n)` (the n largest groups). */
module Ranking {
  import opened Wrappers
  import opened Grouping

  /** Why a ranking step raised instead of returning. */
  datatype RankError = EmptyGrouping

  /** Number of groups the top-products chart shows. */
  const TopCount: nat := 10

  /** Position of a largest value; which one on ties is not promised. */
  function MaxIndex(gs: seq<Entry>): (m: nat)
    requires |gs| > 0
    ensures m < |gs|
    ensures forall j :: 0 <= j < |gs| ==> gs[j].value <= gs[m].value
  {
    if |gs| == 1 then 0
    else
      var m := MaxIndex(gs[1..]) + 1;
      assert forall j :: 1 <= j < |gs| ==> gs[j] == gs[1..][j - 1];
      if gs[m].value <= gs[0].value then 0 else m
  }

  /** `idxmax`: the key of some largest group; raises on an empty grouping. */
  function IdxMax(gs: seq<Entry>): (r: Result<string, RankError>)
    ensures r.Failure? <==> gs == []
    ensures r.Success? ==>
      exists i :: 0 <= i < |gs| && gs[i].key == r.value && (forall j :: 0 <= j < |gs| ==> gs[j].value <= gs[i].value)
  {
    if gs == [] then Failure(EmptyGrouping)
    else
      var m := MaxIndex(gs);
      Success(gs[m].key)
  }

  /** Values never increase along the sequence. */
  predicate Descending(s: seq<Entry>)
  {
    forall i, j :: 0 <= i < j < |s| ==> s[i].value >= s[j].value
  }

  /** Inserts `e` into a descending sequence, keeping it descending. */
  function InsertDescending(e: Entry, s: seq<Entry>): (r: seq<Entry>)
    requires Descending(s)
    ensures Descending(r)
    ensures |r| == |s| + 1
    ensures multiset(r) == multiset(s) + multiset{e}
    ensures forall x :: x in r <==> x == e || x in s
  {
    if s == [] || s[0].value <= e.value then
      ConsDescending(e, s);
      [e] + s
    else
      var rest := InsertDescending(e, s[1..]);
      assert s == [s[0]] + s[1..];
      HeadDominates(s[0], rest, e, s[1..]);
      ConsDescending(s[0], rest);
      [s[0]] + rest
  }

  /** Prefixing a descending sequence with an element at least its first
      keeps it descending. */
  lemma ConsDescending(h: Entry, s: seq<Entry>)
    requires Descending(s)
    requires s != [] ==> s[0].value <= h.value
    ensures Descending([h] + s)
  {
    var r := [h] + s;
    forall i, j | 0 <= i < j < |r|
      ensures r[i].value >= r[j].value
    {
      assert r[j] == s[j - 1];
      if i > 0 {
        assert r[i] == s[i - 1];
      }
    }
  }

  /** A head that is at least the inserted element and at least every
      element of the old tail is at least every element of the new tail. */
  lemma HeadDominates(h: Entry, rest: seq<Entry>, e: Entry, tail: seq<Entry>)
    requires e.value < h.value
    requires forall x :: x in rest ==> x == e || x in tail
    requires forall j :: 0 <= j < |tail| ==> tail[j].value <= h.value
    ensures forall j :: 0 <= j < |rest| ==> rest[j].value <= h.value
  {
    forall j | 0 <= j < |rest|
      ensures rest[j].value <= h.value
    {
      assert rest[j] in rest;
      if rest[j] != e {
        var p :| 0 <= p < |tail| && tail[p] == rest[j];
      }
    }
  }

  /** The groups ordered by value, largest first. */
  function SortDescending(gs: seq<Entry>): (s: seq<Entry>)
    ensures Descending(s)
    ensures |s| == |gs|
    ensures multiset(s) == multiset(gs)
  {
    if gs == [] then []
    else
      assert gs == [gs[0]] + gs[1..];
      InsertDescending(gs[0], SortDescending(gs[1..]))
  }

  /** A prefix of a descending arrangement of `gs` is itself descending,
      draws only on `gs`, and dominates every element of `gs` it leaves out. */
  lemma PrefixSelection(gs: seq<Entry>, s: seq<Entry>, k: nat)
    requires Descending(s) && multiset(s) == multiset(gs) && k <= |s|
    ensures Descending(s[..k])
    ensures multiset(s[..k]) <= multiset(gs)
    ensures forall i, j :: 0 <= i < k && 0 <= j < |gs| && gs[j] !in s[..k] ==> gs[j].value <= s[..k][i].value
  {
    var top := s[..k];
    assert s == top + s[k..];
    forall i, j | 0 <= i < k && 0 <= j < |gs| && gs[j] !in top
      ensures gs[j].value <= top[i].value
    {
      assert gs[j] in multiset(s);
      var p :| 0 <= p < |s| && s[p] == gs[j];
      assert top[i] == s[i];
    }
  }

  /** The `n` largest groups, largest first: a descending selection of
      min(n, |gs|) of the groups, none of them smaller than any group left out. */
  function TopN(gs: seq<Entry>, n: nat): (top: seq<Entry>)
    ensures |top| == if |gs| < n then |gs| else n
    ensures Descending(top)
    ensures multiset(top) <= multiset(gs)
    ensures forall i, j :: 0 <= i < |top| && 0 <= j < |gs| && gs[j] !in top ==> gs[j].value <= top[i].value
  {
    var s := SortDescending(gs);
    var k := if |gs| < n then |gs| else n;
    PrefixSelection(gs, s, k);
    s[..k]
  }
}
