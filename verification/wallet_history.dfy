/** The wallet tab's transaction history: pending ("prepared") payments are
    hidden, and the remaining transactions, already sorted newest first, are
    grouped by calendar day in a `Map` whose insertion order gives the order
    of the day sections. The day key and the day label of a transaction are
    locale renderings of its date and are taken as given. */
module WalletHistory {

  datatype Tx = Tx(id: int, description: string, dayKey: string, dayLabel: string)

  /** One day section: its heading and its transactions. */
  datatype DayGroup = DayGroup(heading: string, items: seq<Tx>)

  /** `transactions.filter((t) => t.description !== 'prepared')`. */
  function Visible(txs: seq<Tx>): (r: seq<Tx>)
    ensures |r| <= |txs|
    ensures forall k :: 0 <= k < |r| ==> r[k] in txs && r[k].description != "prepared"
    ensures forall i :: 0 <= i < |txs| && txs[i].description != "prepared" ==> txs[i] in r
  {
    if txs == [] then []
    else if txs[0].description != "prepared" then [txs[0]] + Visible(txs[1..])
    else Visible(txs[1..])
  }

  /** The filter works transaction by transaction: it distributes over
      concatenation, so the kept transactions stay in order, each as often as
      before. */
  lemma {:induction false} VisibleConcat(a: seq<Tx>, b: seq<Tx>)
    ensures Visible(a + b) == Visible(a) + Visible(b)
  {
    if a == [] {
      assert a + b == b;
    } else {
      assert (a + b)[1..] == a[1..] + b;
      VisibleConcat(a[1..], b);
    }
  }

  // ---------------------------------------------------------------- specification

  /** Some transaction of `s` falls on day `k`. */
  predicate HasDay(s: seq<Tx>, k: string)
  {
    exists i :: 0 <= i < |s| && s[i].dayKey == k
  }

  /** The day keys in order of first appearance: the `Map`'s key order. */
  function DayKeys(s: seq<Tx>): (ks: seq<string>)
    ensures forall k :: k in ks <==> HasDay(s, k)
  {
    if s == [] then []
    else
      var p := DayKeys(s[..|s| - 1]);
      var k := s[|s| - 1].dayKey;
      if k in p then p else p + [k]
  }

  /** The transactions of day `k`, in list order. */
  function ItemsOn(s: seq<Tx>, k: string): (r: seq<Tx>)
    ensures forall j :: 0 <= j < |r| ==> r[j].dayKey == k && r[j] in s
    ensures !HasDay(s, k) ==> r == []
    ensures forall t :: multiset(r)[t] == if t.dayKey == k then multiset(s)[t] else 0
  {
    if s == [] then []
    else
      var p := s[..|s| - 1];
      assert s == p + [s[|s| - 1]];
      ItemsOn(p, k) + (if s[|s| - 1].dayKey == k then [s[|s| - 1]] else [])
  }

  /** The heading of day `k`: the label of the first transaction of that day. */
  function HeadingOn(s: seq<Tx>, k: string): (h: string)
    ensures !HasDay(s, k) ==> h == ""
    ensures HasDay(s, k) ==> exists i :: && 0 <= i < |s| && s[i].dayKey == k && s[i].dayLabel == h
                                          && forall j :: 0 <= j < i ==> s[j].dayKey != k
  {
    if s == [] then ""
    else if HasDay(s[..|s| - 1], k) then HeadingOn(s[..|s| - 1], k)
    else if s[|s| - 1].dayKey == k then s[|s| - 1].dayLabel
    else ""
  }

  predicate Distinct(ks: seq<string>)
  {
    forall i, j :: 0 <= i < j < |ks| ==> ks[i] != ks[j]
  }

  /** Each day appears once. */
  lemma {:induction false} DayKeysDistinct(s: seq<Tx>)
    ensures Distinct(DayKeys(s))
  {
    if s != [] {
      DayKeysDistinct(s[..|s| - 1]);
    }
  }

  /** The number of transactions over the sections for the keys `ks`. */
  function Total(s: seq<Tx>, ks: seq<string>): nat
  {
    if ks == [] then 0 else Total(s, ks[..|ks| - 1]) + |ItemsOn(s, ks[|ks| - 1])|
  }

  lemma {:induction false} TotalStep(s: seq<Tx>, t: Tx, ks: seq<string>)
    requires Distinct(ks)
    ensures Total(s + [t], ks) == Total(s, ks) + (if t.dayKey in ks then 1 else 0)
  {
    if ks != [] {
      var p := ks[..|ks| - 1];
      assert Distinct(p);
      TotalStep(s, t, p);
      assert (s + [t])[..|s|] == s;
      assert t.dayKey in ks <==> t.dayKey in p || t.dayKey == ks[|ks| - 1];
    }
  }

  /** Grouping loses and duplicates nothing: the sections hold as many
      transactions as the list. */
  lemma {:induction false} GroupingKeepsCount(s: seq<Tx>)
    ensures Total(s, DayKeys(s)) == |s|
  {
    if s != [] {
      var p := s[..|s| - 1];
      var t := s[|s| - 1];
      assert s == p + [t];
      GroupingKeepsCount(p);
      DayKeysDistinct(p);
      TotalStep(p, t, DayKeys(p));
      if t.dayKey !in DayKeys(p) {
        var ks := DayKeys(p) + [t.dayKey];
        assert ks[..|ks| - 1] == DayKeys(p);
        assert ItemsOn(p, t.dayKey) == [];
      }
    }
  }

  /** The section the specification gives day `k`. */
  function GroupOn(s: seq<Tx>, k: string): DayGroup
  {
    DayGroup(HeadingOn(s, k), ItemsOn(s, k))
  }

  /** The key order grows by the day of `t` when that day is new. */
  lemma DayKeysStep(s: seq<Tx>, t: Tx)
    ensures DayKeys(s + [t]) == if t.dayKey in DayKeys(s) then DayKeys(s) else DayKeys(s) + [t.dayKey]
  {
    assert (s + [t])[..|s|] == s;
  }

  /** How one more transaction `t` changes the section of day `k`: `t` joins the
      section of its own day, which it opens, with its label as heading, when the
      day is new; the other sections do not change. */
  lemma GroupOnStep(s: seq<Tx>, t: Tx, k: string)
    ensures GroupOn(s + [t], k) ==
              if k != t.dayKey then GroupOn(s, k)
              else if HasDay(s, k) then DayGroup(HeadingOn(s, k), ItemsOn(s, k) + [t])
              else DayGroup(t.dayLabel, [t])
  {
    if k != t.dayKey {
      GroupOnOtherDay(s, t, k);
    } else if HasDay(s, k) {
      GroupOnKnownDay(s, t);
    } else {
      GroupOnNewDay(s, t);
    }
  }

  lemma GroupOnOtherDay(s: seq<Tx>, t: Tx, k: string)
    requires k != t.dayKey
    ensures GroupOn(s + [t], k) == GroupOn(s, k)
  {
    HeadingOnStep(s, t, k);
    ItemsOnStep(s, t, k);
  }

  lemma GroupOnKnownDay(s: seq<Tx>, t: Tx)
    requires HasDay(s, t.dayKey)
    ensures GroupOn(s + [t], t.dayKey) == DayGroup(HeadingOn(s, t.dayKey), ItemsOn(s, t.dayKey) + [t])
  {
    HeadingOnStep(s, t, t.dayKey);
    ItemsOnStep(s, t, t.dayKey);
  }

  lemma GroupOnNewDay(s: seq<Tx>, t: Tx)
    requires !HasDay(s, t.dayKey)
    ensures GroupOn(s + [t], t.dayKey) == DayGroup(t.dayLabel, [t])
  {
    HeadingOnStep(s, t, t.dayKey);
    ItemsOnStep(s, t, t.dayKey);
    assert ItemsOn(s, t.dayKey) == [];
  }

  lemma HeadingOnStep(s: seq<Tx>, t: Tx, k: string)
    ensures HeadingOn(s + [t], k) == if HasDay(s, k) then HeadingOn(s, k) else if t.dayKey == k then t.dayLabel else ""
  {
    assert (s + [t])[..|s|] == s;
  }

  lemma ItemsOnStep(s: seq<Tx>, t: Tx, k: string)
    ensures ItemsOn(s + [t], k) == ItemsOn(s, k) + (if t.dayKey == k then [t] else [])
  {
    assert (s + [t])[..|s|] == s;
  }

  // ---------------------------------------------------------------- the loop

  /** The loop's state after the transactions `s`: the map's insertion order is
      the day order of `s`, and each entry holds that day's section. */
  ghost predicate Grouped(order: seq<string>, byKey: map<string, DayGroup>, s: seq<Tx>)
  {
    && order == DayKeys(s)
    && (forall k :: k in byKey <==> k in order)
    && (forall k :: k in byKey ==> byKey[k] == GroupOn(s, k))
  }

  /** One iteration: open the section of `t`'s day if the map has none
      (`map.set`), then append `t` to it (`items.push`). */
  method AddToDay(order: seq<string>, byKey: map<string, DayGroup>, ghost done: seq<Tx>, t: Tx)
    returns (order': seq<string>, byKey': map<string, DayGroup>)
    requires Grouped(order, byKey, done)
    ensures Grouped(order', byKey', done + [t])
  {
    DayKeysStep(done, t);
    ghost var known := t.dayKey in byKey;
    assert known <==> HasDay(done, t.dayKey);
    order', byKey' := order, byKey;
    if t.dayKey !in byKey' {
      byKey' := byKey'[t.dayKey := DayGroup(t.dayLabel, [])];
      order' := order' + [t.dayKey];
    }
    var g := byKey'[t.dayKey];
    byKey' := byKey'[t.dayKey := g.(items := g.items + [t])];
    forall k | k in byKey'
      ensures byKey'[k] == GroupOn(done + [t], k)
    {
      GroupOnStep(done, t, k);
      if k != t.dayKey {
        assert byKey'[k] == byKey[k];
      } else if known {
        assert g == GroupOn(done, k);
      } else {
        assert g == DayGroup(t.dayLabel, []);
      }
    }
  }

  /** The grouping loop over the sorted transactions, read out in the map's
      insertion order at the end. */
  method GroupByDay(sorted: seq<Tx>) returns (groups: seq<DayGroup>)
    ensures |groups| == |DayKeys(sorted)|
    ensures forall j :: 0 <= j < |groups| ==> groups[j] == GroupOn(sorted, DayKeys(sorted)[j])
  {
    var order: seq<string> := [];
    var byKey: map<string, DayGroup> := map[];
    var i := 0;
    while i < |sorted|
      invariant 0 <= i <= |sorted|
      invariant Grouped(order, byKey, sorted[..i])
    {
      assert sorted[..i + 1] == sorted[..i] + [sorted[i]];
      order, byKey := AddToDay(order, byKey, sorted[..i], sorted[i]);
      i := i + 1;
    }
    assert sorted[..|sorted|] == sorted;
    groups := seq(|order|, j requires 0 <= j < |order| => byKey[order[j]]);
  }
}
