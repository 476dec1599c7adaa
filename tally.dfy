/** The grouped totals behind the chart and the KPI breakdown: a dictionary
    filled by one pass over the records (`data[key] = (data[key] || 0) +
    val`), read back as entries in key-insertion order, sorted by value,
    largest first. */
module Tally {
  import opened Wrappers
  import opened Strings
  import opened Values
  import opened Seqs
  import opened Views

  /** A `[key, value]` pair of `Object.entries`. */
  type Entry = (string, int)

  function EntryValue(): Entry -> int
  {
    (e: Entry) => e.1
  }

  // ---------------------------------------------------------------------
  // the specification of one pass

  /** The keys of `pairs` in order of first occurrence: the key order of
      the filled dictionary. */
  function KeyOrder(pairs: seq<Entry>): seq<string>
  {
    if pairs == [] then []
    else
      var order := KeyOrder(pairs[..|pairs| - 1]);
      if pairs[|pairs| - 1].0 in order then order else order + [pairs[|pairs| - 1].0]
  }

  /** The sum of the values paired with `k`. */
  function Total(pairs: seq<Entry>, k: string): int
  {
    if pairs == [] then 0
    else Total(pairs[..|pairs| - 1], k) + (if pairs[|pairs| - 1].0 == k then pairs[|pairs| - 1].1 else 0)
  }

  function EntriesFor(keys: seq<string>, pairs: seq<Entry>): (es: seq<Entry>)
    ensures |es| == |keys|
    ensures forall i :: 0 <= i < |keys| ==> es[i] == (keys[i], Total(pairs, keys[i]))
  {
    seq(|keys|, i requires 0 <= i < |keys| => (keys[i], Total(pairs, keys[i])))
  }

  /** The dictionary's entries: every key once, with its total. */
  function Entries(pairs: seq<Entry>): seq<Entry>
  {
    EntriesFor(KeyOrder(pairs), pairs)
  }

  /** Some pair has key `k`. */
  predicate KeyOccurs(pairs: seq<Entry>, k: string)
  {
    exists i :: 0 <= i < |pairs| && pairs[i].0 == k
  }

  /** The key order lists every key of `pairs` once and nothing else. */
  lemma {:induction false} KeyOrderSpec(pairs: seq<Entry>)
    ensures Distinct(KeyOrder(pairs))
    ensures forall k :: k in KeyOrder(pairs) <==> KeyOccurs(pairs, k)
  {
    if pairs != [] {
      var init := pairs[..|pairs| - 1];
      KeyOrderSpec(init);
      forall k ensures KeyOccurs(pairs, k) <==> KeyOccurs(init, k) || pairs[|pairs| - 1].0 == k
      {
        if KeyOccurs(pairs, k) {
          var i :| 0 <= i < |pairs| && pairs[i].0 == k;
          if i < |init| {
            assert init[i].0 == k;
          }
        }
        if KeyOccurs(init, k) {
          var i :| 0 <= i < |init| && init[i].0 == k;
          assert pairs[i].0 == k;
        }
      }
    }
  }

  /** A key that does not occur totals 0. */
  lemma {:induction false} TotalAbsent(pairs: seq<Entry>, k: string)
    requires k !in KeyOrder(pairs)
    ensures Total(pairs, k) == 0
  {
    if pairs != [] {
      TotalAbsent(pairs[..|pairs| - 1], k);
    }
  }

  /** One more pair adds its value to its key's entry, if that key is
      listed. */
  lemma {:induction false} EntriesForStep(keys: seq<string>, pairs: seq<Entry>, p: Entry)
    requires Distinct(keys)
    ensures Sum(EntriesFor(keys, pairs + [p]), EntryValue())
      == Sum(EntriesFor(keys, pairs), EntryValue()) + (if p.0 in keys then p.1 else 0)
  {
    var more := pairs + [p];
    assert more[..|more| - 1] == pairs;
    if keys != [] {
      var rest := keys[1..];
      assert Distinct(rest) by {
        forall i, j | 0 <= i < j < |rest| ensures rest[i] != rest[j] {
          assert rest[i] == keys[i + 1] && rest[j] == keys[j + 1];
        }
      }
      EntriesForStep(rest, pairs, p);
      assert EntriesFor(keys, more)[1..] == EntriesFor(rest, more);
      assert EntriesFor(keys, pairs)[1..] == EntriesFor(rest, pairs);
      assert p.0 in keys <==> p.0 == keys[0] || p.0 in rest;
      if p.0 == keys[0] {
        assert p.0 !in rest by {
          forall i | 0 <= i < |rest| ensures rest[i] != p.0 { assert rest[i] == keys[i + 1]; }
        }
      }
    }
  }

  /** Nothing is lost or counted twice: the entries' values add up to the
      values of all pairs. */
  lemma {:induction false} EntriesConserve(pairs: seq<Entry>)
    ensures Sum(Entries(pairs), EntryValue()) == Sum(pairs, EntryValue())
  {
    if pairs != [] {
      var init := pairs[..|pairs| - 1];
      var p := pairs[|pairs| - 1];
      assert pairs == init + [p];
      EntriesConserve(init);
      var order := KeyOrder(init);
      KeyOrderSpec(init);
      EntriesForStep(order, init, p);
      SumAppend(init, p, EntryValue());
      if p.0 !in order {
        TotalAbsent(init, p.0);
        assert KeyOrder(pairs) == order + [p.0];
        assert EntriesFor(order + [p.0], pairs) == EntriesFor(order, pairs) + [(p.0, Total(pairs, p.0))];
        SumAppend(EntriesFor(order, pairs), (p.0, Total(pairs, p.0)), EntryValue());
      }
    }
  }

  /** The entries have distinct keys, one per key of the pairs, each with
      its total. */
  lemma EntriesSpec(pairs: seq<Entry>)
    ensures var es := Entries(pairs);
      && (forall i, j :: 0 <= i < j < |es| ==> es[i].0 != es[j].0)
      && (forall k :: KeyOccurs(es, k) <==> KeyOccurs(pairs, k))
      && (forall i :: 0 <= i < |es| ==> es[i].1 == Total(pairs, es[i].0))
      && Sum(es, EntryValue()) == Sum(pairs, EntryValue())
  {
    KeyOrderSpec(pairs);
    EntriesConserve(pairs);
    var es := Entries(pairs);
    var order := KeyOrder(pairs);
    forall k ensures KeyOccurs(es, k) <==> k in order {
      if k in order {
        var i :| 0 <= i < |order| && order[i] == k;
        assert es[i].0 == k;
      }
    }
  }

  // ---------------------------------------------------------------------
  // the pass itself

  /** The `forEach` filling the dictionary, then `Object.entries`. The
      dictionary's key order is kept explicitly in `order`. */
  method Accumulate(pairs: seq<Entry>) returns (entries: seq<Entry>)
    ensures entries == Entries(pairs)
  {
    var data: map<string, int> := map[];
    var order: seq<string> := [];
    var i := 0;
    while i < |pairs|
      invariant 0 <= i <= |pairs|
      invariant order == KeyOrder(pairs[..i])
      invariant forall k :: k in data <==> k in order
      invariant forall k :: k in data ==> data[k] == Total(pairs[..i], k)
    {
      var (key, val) := pairs[i];
      assert pairs[..i + 1][..i] == pairs[..i];
      if key !in data {
        TotalAbsent(pairs[..i], key);
        order := order + [key];
      }
      data := data[key := (if key in data then data[key] else 0) + val];
      i := i + 1;
    }
    assert pairs[..i] == pairs;
    entries := seq(|order|, j requires 0 <= j < |order| => (order[j], data[order[j]]));
  }

  // ---------------------------------------------------------------------
  // sorting by value, largest first

  predicate SortedDesc(es: seq<Entry>)
  {
    forall i, j :: 0 <= i < j < |es| ==> es[i].1 >= es[j].1
  }

  /** Puts `e` before the first entry whose value is not larger. `SortDesc`
      inserts each entry in front of the already sorted entries after it,
      so entries of equal value keep their original order, as the stable
      `Array.prototype.sort` keeps them. */
  function InsertDesc(e: Entry, es: seq<Entry>): (r: seq<Entry>)
    ensures multiset(r) == multiset(es) + multiset{e}
  {
    if es == [] then [e]
    else if es[0].1 <= e.1 then [e] + es
    else
      assert es == [es[0]] + es[1..];
      [es[0]] + InsertDesc(e, es[1..])
  }

  /** `.sort((a, b) => b[1] - a[1])`, stable. */
  function SortDesc(es: seq<Entry>): (r: seq<Entry>)
    ensures multiset(r) == multiset(es)
  {
    if es == [] then []
    else
      assert es == [es[0]] + es[1..];
      InsertDesc(es[0], SortDesc(es[1..]))
  }

  lemma {:induction false} InsertDescMembers(e: Entry, es: seq<Entry>)
    ensures forall x :: x in InsertDesc(e, es) <==> x == e || x in es
  {
    if es != [] && es[0].1 > e.1 {
      InsertDescMembers(e, es[1..]);
      assert forall x :: x in es <==> x == es[0] || x in es[1..];
    }
  }

  /** A list is sorted exactly when its tail is and its head is at least
      every later value. */
  lemma SortedDescCons(h: Entry, t: seq<Entry>)
    ensures SortedDesc([h] + t) <==> SortedDesc(t) && forall i :: 0 <= i < |t| ==> h.1 >= t[i].1
  {
    var s := [h] + t;
    assert forall i :: 0 <= i < |t| ==> s[i + 1] == t[i];
    if SortedDesc(s) {
      forall i, j | 0 <= i < j < |t| ensures t[i].1 >= t[j].1 {
        assert s[i + 1].1 >= s[j + 1].1;
      }
      forall i | 0 <= i < |t| ensures h.1 >= t[i].1 {
        assert s[0].1 >= s[i + 1].1;
      }
    }
    if SortedDesc(t) && forall i :: 0 <= i < |t| ==> h.1 >= t[i].1 {
      forall i, j | 0 <= i < j < |s| ensures s[i].1 >= s[j].1 {
        assert s[j] == t[j - 1];
        if i > 0 { assert s[i] == t[i - 1]; }
      }
    }
  }

  lemma {:induction false} InsertDescSorted(e: Entry, es: seq<Entry>)
    requires SortedDesc(es)
    ensures SortedDesc(InsertDesc(e, es))
  {
    if es == [] {
      assert SortedDesc([e]);
    } else {
      var rest := es[1..];
      assert es == [es[0]] + rest;
      SortedDescCons(es[0], rest);
      if es[0].1 <= e.1 {
        SortedDescCons(e, es);
      } else {
        InsertDescSorted(e, rest);
        InsertDescMembers(e, rest);
        var tail := InsertDesc(e, rest);
        forall i | 0 <= i < |tail| ensures es[0].1 >= tail[i].1 {
          assert tail[i] in tail;
        }
        SortedDescCons(es[0], tail);
      }
    }
  }

  /** Sorting orders the entries by value, largest first, and keeps every
      entry (a permutation). */
  lemma {:induction false} SortDescSpec(es: seq<Entry>)
    ensures SortedDesc(SortDesc(es))
    ensures multiset(SortDesc(es)) == multiset(es)
  {
    if es != [] {
      SortDescSpec(es[1..]);
      InsertDescSorted(es[0], SortDesc(es[1..]));
    }
  }

  /** `.slice(0, n)`. */
  function Take(es: seq<Entry>, n: nat): (r: seq<Entry>)
    ensures |r| == if |es| <= n then |es| else n
  {
    if |es| <= n then es else es[..n]
  }

  /** The first `n` of a sorted list are the largest: none left out is
      larger than any kept. */
  lemma TakeLargest(es: seq<Entry>, n: nat)
    requires SortedDesc(es)
    ensures SortedDesc(Take(es, n))
    ensures forall i, j :: 0 <= i < |Take(es, n)| <= j < |es| ==> Take(es, n)[i].1 >= es[j].1
  {
  }

  // ---------------------------------------------------------------------
  // the chart

  /** `String(item[groupBy] || 'Unknown')`. */
  function ChartKey(item: Obj, groupBy: string): string
  {
    Show(Some(Or(Prop(item, groupBy), Text("Unknown"))))
  }

  /** `metric === 'sum_nos' ? (Number(item.nos) || 0) : 1`. */
  function ChartWeight(item: Obj, metric: string, number: Parser): int
  {
    if metric == "sum_nos" then NumberOr0(Prop(item, "nos"), number) else 1
  }

  function ChartPairs(items: seq<Obj>, groupBy: string, metric: string, number: Parser): (pairs: seq<Entry>)
    ensures |pairs| == |items|
    ensures forall i :: 0 <= i < |items| ==> pairs[i] == (ChartKey(items[i], groupBy), ChartWeight(items[i], metric, number))
  {
    seq(|items|, i requires 0 <= i < |items| => (ChartKey(items[i], groupBy), ChartWeight(items[i], metric, number)))
  }

  /** Counting gives one per record; summing gives the quantity total. */
  lemma {:induction false} ChartPairsSum(items: seq<Obj>, groupBy: string, metric: string, number: Parser)
    ensures Sum(ChartPairs(items, groupBy, metric, number), EntryValue())
      == if metric == "sum_nos" then TotalQty(items, number) else |items|
  {
    if items != [] {
      ChartPairsSum(items[1..], groupBy, metric, number);
      assert ChartPairs(items, groupBy, metric, number)[1..] == ChartPairs(items[1..], groupBy, metric, number);
    }
  }

  /** `chartData`: the groups of the records by the `groupBy` field, each
      with its record count or quantity sum, largest first, at most 15. The
      groups listed are the largest ones, each group appears once, and
      before the cut the values add up to the record count (or the total
      quantity). */
  method ChartData(items: seq<Obj>, groupBy: string, metric: string, number: Parser)
    returns (rows: seq<Entry>)
    ensures rows == Take(SortDesc(Entries(ChartPairs(items, groupBy, metric, number))), 15)
    ensures |rows| <= 15 && SortedDesc(rows)
    ensures forall i :: 0 <= i < |rows| ==>
      rows[i].1 == Total(ChartPairs(items, groupBy, metric, number), rows[i].0)
      && exists k :: 0 <= k < |items| && ChartKey(items[k], groupBy) == rows[i].0
    ensures var all := SortDesc(Entries(ChartPairs(items, groupBy, metric, number)));
      && (forall i, j :: 0 <= i < |rows| <= j < |all| ==> rows[i].1 >= all[j].1)
      && Sum(all, EntryValue()) == if metric == "sum_nos" then TotalQty(items, number) else |items|
  {
    var pairs := ChartPairs(items, groupBy, metric, number);
    var entries := Accumulate(pairs);
    var sorted := SortDesc(entries);
    rows := Take(sorted, 15);
    SortDescSpec(entries);
    SortDescSum(entries);
    TakeLargest(sorted, 15);
    EntriesConserve(pairs);
    ChartPairsSum(items, groupBy, metric, number);
    forall i | 0 <= i < |rows|
      ensures rows[i].1 == Total(pairs, rows[i].0)
      ensures exists k :: 0 <= k < |items| && ChartKey(items[k], groupBy) == rows[i].0
    {
      assert rows[i] == sorted[i];
      EntryOfPairs(pairs, sorted, i);
      var k :| 0 <= k < |pairs| && pairs[k].0 == rows[i].0;
      assert ChartKey(items[k], groupBy) == rows[i].0;
    }
  }

  /** Each entry, wherever sorting puts it, carries a key of the pairs and
      that key's total. */
  lemma EntryOfPairs(pairs: seq<Entry>, sorted: seq<Entry>, i: nat)
    requires multiset(sorted) == multiset(Entries(pairs))
    requires i < |sorted|
    ensures sorted[i].1 == Total(pairs, sorted[i].0) && KeyOccurs(pairs, sorted[i].0)
  {
    var es := Entries(pairs);
    assert sorted[i] in multiset(es);
    var j :| 0 <= j < |es| && es[j] == sorted[i];
    KeyOrderSpec(pairs);
    assert KeyOrder(pairs)[j] == sorted[i].0;
  }

  /** Inserting adds the entry's value to the sum. */
  lemma {:induction false} InsertDescSum(e: Entry, es: seq<Entry>)
    ensures Sum(InsertDesc(e, es), EntryValue()) == e.1 + Sum(es, EntryValue())
  {
    if es == [] {
      assert [e][1..] == [];
    } else if es[0].1 <= e.1 {
      assert ([e] + es)[1..] == es;
    } else {
      InsertDescSum(e, es[1..]);
      assert ([es[0]] + InsertDesc(e, es[1..]))[1..] == InsertDesc(e, es[1..]);
    }
  }

  /** Sorting does not change the sum of the values. */
  lemma {:induction false} SortDescSum(es: seq<Entry>)
    ensures Sum(SortDesc(es), EntryValue()) == Sum(es, EntryValue())
  {
    if es != [] {
      SortDescSum(es[1..]);
      InsertDescSum(es[0], SortDesc(es[1..]));
    }
  }

  /** `Math.max(...rows.map(([, v]) => v), 1)`: the scale of the bars, at
      least 1 and at least every value, and either 1 or one of the values. */
  function MaxValue(rows: seq<Entry>): (m: int)
    ensures m >= 1
    ensures forall i :: 0 <= i < |rows| ==> rows[i].1 <= m
    ensures m == 1 || exists i :: 0 <= i < |rows| && rows[i].1 == m
  {
    if rows == [] then 1
    else
      var rest := MaxValue(rows[1..]);
      assert forall i :: 1 <= i < |rows| ==> rows[i] == rows[1..][i - 1];
      if rows[0].1 > rest then rows[0].1 else rest
  }

  // ---------------------------------------------------------------------
  // the KPI breakdown

  /** The records behind a KPI card: the three status cards select by
      status, any other selection keeps every record. */
  function KpiRecords(inv: seq<Obj>, kpi: string): seq<Obj>
  {
    if kpi == "Installed" then Filter(inv, HasStatus("installed"))
    else if kpi == "Spare" then Filter(inv, HasStatus("spare"))
    else if kpi == "Planned" then Filter(inv, HasStatus("planned"))
    else inv
  }

  /** `${item.materialType || 'Unknown'} - ${item.modelVariant || 'Unknown'}`. */
  function KpiKey(item: Obj): string
  {
    Show(Some(Or(Prop(item, "materialType"), Text("Unknown")))) + " - "
      + Show(Some(Or(Prop(item, "modelVariant"), Text("Unknown"))))
  }

  function KpiPairs(items: seq<Obj>, number: Parser): (pairs: seq<Entry>)
    ensures |pairs| == |items|
    ensures forall i :: 0 <= i < |items| ==> pairs[i] == (KpiKey(items[i]), NumberOr0(Prop(items[i], "nos"), number))
  {
    seq(|items|, i requires 0 <= i < |items| => (KpiKey(items[i]), NumberOr0(Prop(items[i], "nos"), number)))
  }

  lemma {:induction false} KpiPairsSum(items: seq<Obj>, number: Parser)
    ensures Sum(KpiPairs(items, number), EntryValue()) == TotalQty(items, number)
  {
    if items != [] {
      KpiPairsSum(items[1..], number);
      assert KpiPairs(items, number)[1..] == KpiPairs(items[1..], number);
    }
  }

  /** `getKPIBreakdown`: the card's records grouped by material type and
      model, each group with its quantity, largest first. The groups'
      quantities add up to the card's figure. */
  method KpiBreakdown(inv: seq<Obj>, kpi: string, number: Parser) returns (rows: seq<Entry>)
    ensures rows == SortDesc(Entries(KpiPairs(KpiRecords(inv, kpi), number)))
    ensures SortedDesc(rows)
    ensures multiset(rows) == multiset(Entries(KpiPairs(KpiRecords(inv, kpi), number)))
    ensures Sum(rows, EntryValue()) ==
      if kpi == "Installed" then StatusQty(inv, "installed", number)
      else if kpi == "Spare" then StatusQty(inv, "spare", number)
      else if kpi == "Planned" then StatusQty(inv, "planned", number)
      else TotalQty(inv, number)
  {
    var filtered := KpiRecords(inv, kpi);
    var pairs := KpiPairs(filtered, number);
    var entries := Accumulate(pairs);
    rows := SortDesc(entries);
    SortDescSpec(entries);
    SortDescSum(entries);
    EntriesConserve(pairs);
    KpiPairsSum(filtered, number);
  }
}
