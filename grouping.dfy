/**
 * Single-pass grouping of trades by a key, as the strategy and monthly
 * breakdowns do with a JavaScript `Map`: the groups appear in the order in
 * which their key is first seen, and a trade without a key joins no group.
 *
 * This module is the reference definition the two breakdown loops are proved
 * against, and it proves once that the groups partition the keyed trades.
 */
module Grouping {
  import opened TradeData

  /** The distinct keys, in order of first appearance. */
  function Keys(ts: seq<Trade>, key: Trade -> Option<string>): (ks: seq<string>)
    ensures forall i, j :: 0 <= i < j < |ks| ==> ks[i] != ks[j]
  {
    if ts == [] then []
    else
      var ks := Keys(DropLast(ts), key);
      var k := key(Last(ts));
      if k.Some? && k.value !in ks then ks + [k.value] else ks
  }

  /** The trades whose key is `k`, in their original order. */
  function Group(ts: seq<Trade>, key: Trade -> Option<string>, k: string): (g: seq<Trade>)
    ensures |g| <= |ts|
    ensures forall i :: 0 <= i < |g| ==> key(g[i]) == Some(k)
  {
    if ts == [] then []
    else
      var g := Group(DropLast(ts), key, k);
      if key(Last(ts)) == Some(k) then g + [Last(ts)] else g
  }

  /** The trades that have a key at all. */
  function Keyed(ts: seq<Trade>, key: Trade -> Option<string>): (r: seq<Trade>)
    ensures |r| <= |ts|
    ensures forall i :: 0 <= i < |r| ==> key(r[i]).Some?
  {
    if ts == [] then []
    else
      var r := Keyed(DropLast(ts), key);
      if key(Last(ts)).Some? then r + [Last(ts)] else r
  }

  /** The sum of the group sizes over the keys `ks`. */
  function GroupSizes(ks: seq<string>, ts: seq<Trade>, key: Trade -> Option<string>): nat {
    if ks == [] then 0 else GroupSizes(DropLast(ks), ts, key) + |Group(ts, key, Last(ks))|
  }

  /** The sum, over the keys `ks`, of `f` summed over each group. */
  function GroupMeasures(ks: seq<string>, ts: seq<Trade>, key: Trade -> Option<string>, f: Trade -> real): real {
    if ks == [] then 0.0 else GroupMeasures(DropLast(ks), ts, key, f) + Sum(Group(ts, key, Last(ks)), f)
  }

  /** `a` is seen in `ts` at a position where `b` has not been seen yet. */
  ghost predicate AppearsBefore(ts: seq<Trade>, key: Trade -> Option<string>, a: string, b: string) {
    exists p :: 0 <= p < |ts| && key(ts[p]) == Some(a) && forall q :: 0 <= q <= p ==> key(ts[q]) != Some(b)
  }

  lemma GroupStep(s: seq<Trade>, t: Trade, key: Trade -> Option<string>, k: string)
    ensures Group(s + [t], key, k) == Group(s, key, k) + (if key(t) == Some(k) then [t] else [])
  {
    DropLastAppend(s, t);
  }

  lemma {:induction false} KeysMembership(ts: seq<Trade>, key: Trade -> Option<string>, k: string)
    ensures k in Keys(ts, key) <==> exists p :: 0 <= p < |ts| && key(ts[p]) == Some(k)
    ensures k in Keys(ts, key) <==> Group(ts, key, k) != []
  {
    if ts != [] {
      var s := DropLast(ts);
      KeysMembership(s, key, k);
      assert ts == s + [Last(ts)];
      assert forall p :: 0 <= p < |s| ==> s[p] == ts[p];
      if key(Last(ts)) == Some(k) {
        assert key(ts[|ts| - 1]) == Some(k);
      }
    }
  }

  /** The keys come in the order of their first appearance in the trades. */
  lemma {:induction false} KeysInFirstAppearanceOrder(ts: seq<Trade>, key: Trade -> Option<string>)
    ensures forall i, j :: 0 <= i < j < |Keys(ts, key)| ==>
      AppearsBefore(ts, key, Keys(ts, key)[i], Keys(ts, key)[j])
  {
    if ts != [] {
      var s := DropLast(ts);
      var t := Last(ts);
      assert ts == s + [t];
      var ks := Keys(s, key);
      var ks' := Keys(ts, key);
      KeysInFirstAppearanceOrder(s, key);
      forall i, j | 0 <= i < j < |ks'| ensures AppearsBefore(ts, key, ks'[i], ks'[j]) {
        if j < |ks| {
          assert AppearsBefore(s, key, ks[i], ks[j]);
          var p :| 0 <= p < |s| && key(s[p]) == Some(ks[i]) && forall q :: 0 <= q <= p ==> key(s[q]) != Some(ks[j]);
          assert ts[p] == s[p];
          assert forall q :: 0 <= q <= p ==> ts[q] == s[q];
        } else {
          assert ks' == ks + [key(t).value] && ks'[j] == key(t).value;
          assert ks'[i] == ks[i] && ks[i] in ks;
          KeysMembership(s, key, ks[i]);
          KeysMembership(s, key, key(t).value);
          var p :| 0 <= p < |s| && key(s[p]) == Some(ks[i]);
          assert forall q :: 0 <= q <= p ==> ts[q] == s[q] && key(s[q]) != Some(ks'[j]);
          assert ts[p] == s[p];
        }
      }
    }
  }

  /** The optional key `k` is present and is one of `ks`. */
  predicate KeyAmong(ks: seq<string>, k: Option<string>) {
    k.Some? && k.value in ks
  }

  lemma {:induction false} SizesStep(ks: seq<string>, s: seq<Trade>, t: Trade, key: Trade -> Option<string>)
    requires forall i, j :: 0 <= i < j < |ks| ==> ks[i] != ks[j]
    ensures GroupSizes(ks, s + [t], key) == GroupSizes(ks, s, key) + (if KeyAmong(ks, key(t)) then 1 else 0)
  {
    if ks != [] {
      var p, k := DropLast(ks), Last(ks);
      assert ks == p + [k];
      assert forall i :: 0 <= i < |p| ==> p[i] == ks[i];
      SizesStep(p, s, t, key);
      GroupStep(s, t, key, k);
    }
  }

  lemma {:induction false} MeasuresStep(ks: seq<string>, s: seq<Trade>, t: Trade, key: Trade -> Option<string>, f: Trade -> real)
    requires forall i, j :: 0 <= i < j < |ks| ==> ks[i] != ks[j]
    ensures GroupMeasures(ks, s + [t], key, f) == GroupMeasures(ks, s, key, f) + (if KeyAmong(ks, key(t)) then f(t) else 0.0)
  {
    if ks != [] {
      var p, k := DropLast(ks), Last(ks);
      assert ks == p + [k];
      assert forall i :: 0 <= i < |p| ==> p[i] == ks[i];
      MeasuresStep(p, s, t, key, f);
      GroupStep(s, t, key, k);
      if key(t) == Some(k) {
        DropLastAppend(Group(s, key, k), t);
      }
    }
  }

  /** Every keyed trade lies in exactly one group: the group sizes add up to the keyed trades. */
  lemma {:induction false} GroupsPartitionKeyed(ts: seq<Trade>, key: Trade -> Option<string>)
    ensures GroupSizes(Keys(ts, key), ts, key) == |Keyed(ts, key)|
  {
    if ts != [] {
      var s := DropLast(ts);
      var t := Last(ts);
      assert ts == s + [t];
      var ks := Keys(s, key);
      GroupsPartitionKeyed(s, key);
      SizesStep(ks, s, t, key);
      if key(t).Some? && key(t).value !in ks {
        var v := key(t).value;
        KeysMembership(s, key, v);
        GroupStep(s, t, key, v);
        DropLastAppend(ks, v);
      }
    }
  }

  /** The per-group sums of `f` add up to the sum of `f` over the keyed trades. */
  lemma {:induction false} GroupMeasuresPartitionKeyed(ts: seq<Trade>, key: Trade -> Option<string>, f: Trade -> real)
    ensures GroupMeasures(Keys(ts, key), ts, key, f) == Sum(Keyed(ts, key), f)
  {
    if ts != [] {
      var s := DropLast(ts);
      var t := Last(ts);
      assert ts == s + [t];
      var ks := Keys(s, key);
      GroupMeasuresPartitionKeyed(s, key, f);
      MeasuresStep(ks, s, t, key, f);
      if key(t).None? {
        assert Keys(ts, key) == ks && Keyed(ts, key) == Keyed(s, key);
      } else {
        var v := key(t).value;
        DropLastAppend(Keyed(s, key), t);
        assert Sum(Keyed(ts, key), f) == Sum(Keyed(s, key), f) + f(t);
        if v !in ks {
          KeysMembership(s, key, v);
          GroupStep(s, t, key, v);
          assert Group(ts, key, v) == [t];
          assert Sum([t], f) == f(t);
          DropLastAppend(ks, v);
          assert Keys(ts, key) == ks + [v];
          assert GroupMeasures(ks + [v], ts, key, f) == GroupMeasures(ks, ts, key, f) + Sum(Group(ts, key, v), f);
        } else {
          assert Keys(ts, key) == ks;
        }
      }
    }
  }

  /** Each member of a group is one of the trades with that key. */
  lemma {:induction false} GroupMembers(ts: seq<Trade>, key: Trade -> Option<string>, k: string, q: nat)
    requires q < |Group(ts, key, k)|
    ensures exists p :: 0 <= p < |ts| && ts[p] == Group(ts, key, k)[q]
  {
    var s := DropLast(ts);
    var g := Group(s, key, k);
    assert forall p :: 0 <= p < |s| ==> s[p] == ts[p];
    if q < |g| {
      GroupMembers(s, key, k, q);
    } else {
      assert Group(ts, key, k)[q] == ts[|ts| - 1];
    }
  }

  /** Every key of a grouping has a non-empty group. */
  lemma KeysHaveGroups(ts: seq<Trade>, key: Trade -> Option<string>)
    ensures forall i :: 0 <= i < |Keys(ts, key)| ==> Group(ts, key, Keys(ts, key)[i]) != []
  {
    forall i | 0 <= i < |Keys(ts, key)| ensures Group(ts, key, Keys(ts, key)[i]) != [] {
      KeysMembership(ts, key, Keys(ts, key)[i]);
    }
  }
}
