/** Group-by-sum: `groupby(key)[value].sum()` over (key, value) observations.
    The result lists each distinct key once with the sum of its values; the
    order of the groups is not modelled. */
module Grouping {

  /** A (key, value) pair: an observation before grouping, a group after. */
  datatype Entry = Entry(key: string, value: int)

  /** The set of keys that occur among the entries. */
  function Keys(es: seq<Entry>): set<string>
  {
    if es == [] then {} else {es[0].key} + Keys(es[1..])
  }

  /** Sum of the values recorded under key `k`; 0 when `k` does not occur. */
  function KeyTotal(es: seq<Entry>, k: string): int
  {
    if es == [] then 0
    else (if es[0].key == k then es[0].value else 0) + KeyTotal(es[1..], k)
  }

  /** Sum of all values. */
  function Total(es: seq<Entry>): int
  {
    if es == [] then 0 else es[0].value + Total(es[1..])
  }

  /** No key is listed twice. */
  predicate DistinctKeys(gs: seq<Entry>)
  {
    forall i, j :: 0 <= i < j < |gs| ==> gs[i].key != gs[j].key
  }

  lemma {:induction false} KeysHaveEntries(es: seq<Entry>, k: string)
    ensures k in Keys(es) <==> exists i :: 0 <= i < |es| && es[i].key == k
  {
    if es != [] {
      KeysHaveEntries(es[1..], k);
      if es[0].key != k && k in Keys(es[1..]) {
        var i :| 0 <= i < |es[1..]| && es[1..][i].key == k;
        assert es[i + 1].key == k;
      }
      if exists i :: 0 <= i < |es| && es[i].key == k {
        var i :| 0 <= i < |es| && es[i].key == k;
        if i > 0 {
          assert es[1..][i - 1].key == k;
        }
      }
    }
  }

  /** A key that does not occur totals 0. */
  lemma {:induction false} AbsentKeyTotalsZero(es: seq<Entry>, k: string)
    requires k !in Keys(es)
    ensures KeyTotal(es, k) == 0
  {
    if es != [] {
      AbsentKeyTotalsZero(es[1..], k);
    }
  }

  lemma HeadKeyNotInTail(gs: seq<Entry>)
    requires DistinctKeys(gs) && gs != []
    ensures gs[0].key !in Keys(gs[1..])
  {
    KeysHaveEntries(gs[1..], gs[0].key);
    forall j | 0 <= j < |gs[1..]|
      ensures gs[1..][j].key != gs[0].key
    {
      assert gs[1..][j] == gs[j + 1];
    }
  }

  /** In a list with distinct keys, a key's total is its single entry's value. */
  lemma {:induction false} DistinctKeyTotal(gs: seq<Entry>, i: nat)
    requires DistinctKeys(gs) && i < |gs|
    ensures KeyTotal(gs, gs[i].key) == gs[i].value
  {
    if i == 0 {
      HeadKeyNotInTail(gs);
      AbsentKeyTotalsZero(gs[1..], gs[0].key);
    } else {
      assert gs[0].key != gs[i].key;
      assert gs[1..][i - 1] == gs[i];
      DistinctKeyTotal(gs[1..], i - 1);
    }
  }

  /** A list with distinct keys has one entry per key. */
  lemma {:induction false} DistinctKeysCount(gs: seq<Entry>)
    requires DistinctKeys(gs)
    ensures |Keys(gs)| == |gs|
  {
    if gs != [] {
      HeadKeyNotInTail(gs);
      DistinctKeysCount(gs[1..]);
    }
  }

  /** Adds one observation into a grouping: to its key's group if there is
      one, otherwise as a new group. */
  function Accumulate(gs: seq<Entry>, e: Entry): (r: seq<Entry>)
    requires DistinctKeys(gs)
    ensures DistinctKeys(r)
    ensures Keys(r) == Keys(gs) + {e.key}
    ensures forall k :: KeyTotal(r, k) == KeyTotal(gs, k) + (if k == e.key then e.value else 0)
    ensures Total(r) == Total(gs) + e.value
  {
    if gs == [] then [e]
    else if gs[0].key == e.key then
      var r := [Entry(e.key, gs[0].value + e.value)] + gs[1..];
      assert r[1..] == gs[1..];
      r
    else
      var rest := Accumulate(gs[1..], e);
      var r := [gs[0]] + rest;
      assert r[1..] == rest;
      HeadKeyNotInTail(gs);
      forall j | 0 <= j < |rest|
        ensures rest[j].key != gs[0].key
      {
        KeysHaveEntries(rest, gs[0].key);
      }
      r
  }

  /** Group-by-sum: one group per distinct key carrying that key's total. */
  function GroupSum(es: seq<Entry>): (gs: seq<Entry>)
    ensures DistinctKeys(gs)
    ensures Keys(gs) == Keys(es)
    ensures forall k :: KeyTotal(gs, k) == KeyTotal(es, k)
    ensures Total(gs) == Total(es)
  {
    if es == [] then [] else Accumulate(GroupSum(es[1..]), es[0])
  }

  /** Each group of GroupSum is a key that occurs in the input paired with
      the sum of that key's values, and every key of the input has a group. */
  lemma GroupSumEntries(es: seq<Entry>)
    ensures forall i :: 0 <= i < |GroupSum(es)| ==>
      GroupSum(es)[i].key in Keys(es) && GroupSum(es)[i].value == KeyTotal(es, GroupSum(es)[i].key)
    ensures forall k :: k in Keys(es) ==> exists i :: 0 <= i < |GroupSum(es)| && GroupSum(es)[i].key == k
  {
    var gs := GroupSum(es);
    GroupedEntries(es, gs);
  }

  /** The groups of any grouping that agrees with `es` key by key. */
  lemma GroupedEntries(es: seq<Entry>, gs: seq<Entry>)
    requires DistinctKeys(gs) && Keys(gs) == Keys(es)
    requires forall k :: KeyTotal(gs, k) == KeyTotal(es, k)
    ensures forall i :: 0 <= i < |gs| ==> gs[i].key in Keys(es) && gs[i].value == KeyTotal(es, gs[i].key)
    ensures forall k :: k in Keys(es) ==> exists i :: 0 <= i < |gs| && gs[i].key == k
  {
    forall i | 0 <= i < |gs|
      ensures gs[i].key in Keys(es) && gs[i].value == KeyTotal(es, gs[i].key)
    {
      KeysHaveEntries(gs, gs[i].key);
      DistinctKeyTotal(gs, i);
    }
    forall k | k in Keys(es)
      ensures exists i :: 0 <= i < |gs| && gs[i].key == k
    {
      KeysHaveEntries(gs, k);
    }
  }

  /** In a list with distinct keys every entry occurs at most once. */
  lemma {:induction false} DistinctKeysOccurOnce(gs: seq<Entry>, x: Entry)
    requires DistinctKeys(gs)
    ensures multiset(gs)[x] <= 1
  {
    if gs != [] {
      assert gs == [gs[0]] + gs[1..];
      HeadKeyNotInTail(gs);
      KeysHaveEntries(gs[1..], gs[0].key);
      assert gs[0] !in gs[1..];
      DistinctKeysOccurOnce(gs[1..], x);
    }
  }

  /** In a list with distinct keys an entry is determined by its key. */
  lemma KeyDeterminesEntry(gs: seq<Entry>, x: Entry, y: Entry)
    requires DistinctKeys(gs) && x in gs && y in gs
    ensures x.key == y.key ==> x == y
  {
    var p :| 0 <= p < |gs| && gs[p] == x;
    var q :| 0 <= q < |gs| && gs[q] == y;
  }

  /** An element found at two positions occurs at least twice. */
  lemma TwoPositions(s: seq<Entry>, i: nat, j: nat)
    requires i < j < |s|
    ensures s[i] == s[j] ==> multiset(s)[s[i]] >= 2
  {
    assert s == s[..j] + s[j..];
    assert s[i] == s[..j][i];
    assert s[j] == s[j..][0];
  }

  /** Any selection from a list with distinct keys, taking each entry at
      most as often as the list holds it, has distinct keys too. */
  lemma SelectionKeepsDistinctKeys(sub: seq<Entry>, gs: seq<Entry>)
    requires DistinctKeys(gs) && multiset(sub) <= multiset(gs)
    ensures DistinctKeys(sub)
  {
    forall i, j | 0 <= i < j < |sub|
      ensures sub[i].key != sub[j].key
    {
      assert sub[i] in multiset(sub) && sub[j] in multiset(sub);
      KeyDeterminesEntry(gs, sub[i], sub[j]);
      DistinctKeysOccurOnce(gs, sub[i]);
      TwoPositions(sub, i, j);
    }
  }
}
