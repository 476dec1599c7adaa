/** Views derived from the inventory on every render: the quantity totals
    of the KPI cards, the engineer list, the search filter, the history
    date-range filter and the per-engineer status counts. */
module Views {
  import opened Wrappers
  import opened Strings
  import opened Values
  import opened Seqs
  import opened Schema

  // ---------------------------------------------------------------------
  // quantities by status

  /** `String(i.status).toLowerCase()`. */
  function StatusOf(o: Obj): string
  {
    Lower(Show(Prop(o, "status")))
  }

  /** `i => String(i.status).toLowerCase() === status`. */
  function HasStatus(status: string): Obj -> bool
  {
    o => StatusOf(o) == status
  }

  /** `Number(item.nos) || 0`. */
  function Qty(number: Parser): Obj -> int
  {
    o => NumberOr0(Prop(o, "nos"), number)
  }

  /** `totalAssets`: the quantities of all records added up. */
  function TotalQty(inv: seq<Obj>, number: Parser): int
  {
    Sum(inv, Qty(number))
  }

  /** `installedCount`, `spareCount`, `plannedCount`: the quantities of the
      records whose lower-cased status is `status`. */
  function StatusQty(inv: seq<Obj>, status: string, number: Parser): int
  {
    Sum(Filter(inv, HasStatus(status)), Qty(number))
  }

  /** A status other than the three the KPI cards count. */
  function OtherStatus(): Obj -> bool
  {
    o => StatusOf(o) != "installed" && StatusOf(o) != "spare" && StatusOf(o) != "planned"
  }

  /** The three KPI counts and the quantity of every other record make up
      the total: each record is counted in exactly one place. */
  lemma {:induction false} KpiPartition(inv: seq<Obj>, number: Parser)
    ensures TotalQty(inv, number)
      == StatusQty(inv, "installed", number) + StatusQty(inv, "spare", number)
       + StatusQty(inv, "planned", number) + Sum(Filter(inv, OtherStatus()), Qty(number))
  {
    if inv != [] {
      KpiPartition(inv[1..], number);
      SumFilterStep(inv, Qty(number), HasStatus("installed"));
      SumFilterStep(inv, Qty(number), HasStatus("spare"));
      SumFilterStep(inv, Qty(number), HasStatus("planned"));
      SumFilterStep(inv, Qty(number), OtherStatus());
    }
  }

  /** A sum of non-negative quantities is non-negative. */
  lemma {:induction false} SumNonNegative(s: seq<Obj>, number: Parser)
    requires forall o :: o in s ==> Qty(number)(o) >= 0
    ensures Sum(s, Qty(number)) >= 0
  {
    if s != [] {
      assert s[0] in s;
      assert forall o :: o in s[1..] ==> o in s;
      SumNonNegative(s[1..], number);
    }
  }

  /** With no negative quantity, the three KPI counts together never exceed
      the total. */
  lemma KpiWithinTotal(inv: seq<Obj>, number: Parser)
    requires forall o :: o in inv ==> Qty(number)(o) >= 0
    ensures 0 <= StatusQty(inv, "installed", number) + StatusQty(inv, "spare", number)
              + StatusQty(inv, "planned", number) <= TotalQty(inv, number)
  {
    KpiPartition(inv, number);
    SumNonNegative(Filter(inv, HasStatus("installed")), number);
    SumNonNegative(Filter(inv, HasStatus("spare")), number);
    SumNonNegative(Filter(inv, HasStatus("planned")), number);
    SumNonNegative(Filter(inv, OtherStatus()), number);
  }

  // ---------------------------------------------------------------------
  // the engineer list

  /** `i.assignedTo`. */
  function Assignee(o: Obj): Option<Value>
  {
    Prop(o, "assignedTo")
  }

  /** `inventory.filter(i => i.assignedTo).map(i => i.assignedTo)`. */
  function Assigned(inv: seq<Obj>): (r: seq<Value>)
    ensures forall v :: v in r <==> exists o :: o in inv && Truthy(Assignee(o)) && Assignee(o) == Some(v)
  {
    if inv == [] then []
    else
      var rest := Assigned(inv[1..]);
      assert forall o :: o in inv <==> o == inv[0] || o in inv[1..];
      (if Truthy(Assignee(inv[0])) then [Assignee(inv[0]).value] else []) + rest
  }

  predicate Distinct<T(==)>(s: seq<T>)
  {
    forall i, j :: 0 <= i < j < |s| ==> s[i] != s[j]
  }

  /** `Array.from(new Set(s))`: each value once, at its first occurrence. */
  function Dedupe(s: seq<Value>): (r: seq<Value>)
    ensures Distinct(r)
    ensures forall v :: v in r <==> v in s
  {
    if s == [] then []
    else
      var d := Dedupe(s[..|s| - 1]);
      assert forall v :: v in s <==> v in s[..|s| - 1] || v == s[|s| - 1] by {
        assert s == s[..|s| - 1] + [s[|s| - 1]];
      }
      if s[|s| - 1] in d then d else d + [s[|s| - 1]]
  }

  /** The text a value is sorted by: `String(v)`. */
  function Label(v: Value): string
  {
    Show(Some(v))
  }

  predicate SortedByLabel(s: seq<Value>)
  {
    forall i, j :: 0 <= i < j < |s| ==> StrLe(Label(s[i]), Label(s[j]))
  }

  /** Puts `x` before the first element it does not come after. */
  function InsertByLabel(x: Value, s: seq<Value>): (r: seq<Value>)
    ensures multiset(r) == multiset(s) + multiset{x}
  {
    if s == [] then [x]
    else if StrLe(Label(x), Label(s[0])) then [x] + s
    else
      assert s == [s[0]] + s[1..];
      [s[0]] + InsertByLabel(x, s[1..])
  }

  /** A sorted list is a least element followed by a sorted list. */
  lemma SortedCons(h: Value, t: seq<Value>)
    ensures SortedByLabel([h] + t) <==>
      SortedByLabel(t) && forall y :: y in t ==> StrLe(Label(h), Label(y))
  {
    var s := [h] + t;
    if SortedByLabel(s) {
      forall i, j | 0 <= i < j < |t| ensures StrLe(Label(t[i]), Label(t[j])) {
        assert t[i] == s[i + 1] && t[j] == s[j + 1];
      }
      forall k | 0 <= k < |t| ensures StrLe(Label(h), Label(t[k])) {
        assert s[0] == h && s[k + 1] == t[k];
      }
    }
    if SortedByLabel(t) && forall y :: y in t ==> StrLe(Label(h), Label(y)) {
      forall i, j | 0 <= i < j < |s| ensures StrLe(Label(s[i]), Label(s[j])) {
        assert s[j] == t[j - 1];
        if i > 0 {
          assert s[i] == t[i - 1];
        }
      }
    }
  }

  /** Inserting adds `x` and nothing else. */
  lemma {:induction false} InsertMembers(x: Value, s: seq<Value>)
    ensures forall y :: y in InsertByLabel(x, s) <==> y == x || y in s
  {
    if s != [] && !StrLe(Label(x), Label(s[0])) {
      InsertMembers(x, s[1..]);
      assert forall y :: y in s <==> y == s[0] || y in s[1..];
    }
  }

  lemma {:induction false} InsertSorted(x: Value, s: seq<Value>)
    requires SortedByLabel(s)
    ensures SortedByLabel(InsertByLabel(x, s))
  {
    if s == [] {
    } else if StrLe(Label(x), Label(s[0])) {
      assert s == [s[0]] + s[1..];
      SortedCons(s[0], s[1..]);
      forall y | y in s ensures StrLe(Label(x), Label(y)) {
        if y != s[0] {
          StrLeTrans(Label(x), Label(s[0]), Label(y));
        }
      }
      SortedCons(x, s);
    } else {
      assert s == [s[0]] + s[1..];
      SortedCons(s[0], s[1..]);
      InsertSorted(x, s[1..]);
      StrLeTotal(Label(x), Label(s[0]));
      InsertMembers(x, s[1..]);
      SortedCons(s[0], InsertByLabel(x, s[1..]));
    }
  }

  lemma {:induction false} InsertDistinct(x: Value, s: seq<Value>)
    requires Distinct(s) && x !in s
    ensures Distinct(InsertByLabel(x, s))
  {
    var r := InsertByLabel(x, s);
    forall i, j | 0 <= i < j < |r| ensures r[i] != r[j] {
      if r[i] == r[j] {
        var v := r[i];
        assert multiset(r)[v] >= 2 by {
          assert r == r[..j] + [r[j]] + r[j + 1..];
          assert v in r[..j];
          assert multiset(r) == multiset(r[..j]) + multiset{v} + multiset(r[j + 1..]);
        }
        DistinctCounts(s, v);
      }
    }
  }

  /** In a list without repeats every value occurs at most once. */
  lemma {:induction false} DistinctCounts(s: seq<Value>, v: Value)
    requires Distinct(s)
    ensures multiset(s)[v] <= 1
  {
    if s != [] {
      var rest := s[1..];
      assert s == [s[0]] + rest;
      assert Distinct(rest) by {
        forall i, j | 0 <= i < j < |rest| ensures rest[i] != rest[j] {
          assert rest[i] == s[i + 1] && rest[j] == s[j + 1];
        }
      }
      DistinctCounts(rest, v);
      if s[0] == v {
        assert v !in rest by {
          forall k | 0 <= k < |rest| ensures rest[k] != v { assert rest[k] == s[k + 1]; }
        }
      }
    }
  }

  /** `.sort()`: insertion sort by `String(v)`. */
  function SortByLabel(s: seq<Value>): (r: seq<Value>)
    ensures multiset(r) == multiset(s)
  {
    if s == [] then [] else
      assert s == [s[0]] + s[1..];
      InsertByLabel(s[0], SortByLabel(s[1..]))
  }

  /** Sorting puts the values in order of their text and keeps a list
      without repeats without repeats. */
  lemma {:induction false} SortSpec(s: seq<Value>)
    ensures SortedByLabel(SortByLabel(s))
    ensures Distinct(s) ==> Distinct(SortByLabel(s))
  {
    if s != [] {
      var rest := s[1..];
      SortSpec(rest);
      InsertSorted(s[0], SortByLabel(rest));
      if Distinct(s) {
        assert Distinct(rest) by {
          forall i, j | 0 <= i < j < |rest| ensures rest[i] != rest[j] {
            assert rest[i] == s[i + 1] && rest[j] == s[j + 1];
          }
        }
        assert s[0] !in SortByLabel(rest) by {
          assert s[0] !in rest by {
            forall k | 0 <= k < |rest| ensures rest[k] != s[0] { assert rest[k] == s[k + 1]; }
          }
          assert s[0] !in multiset(SortByLabel(rest));
        }
        InsertDistinct(s[0], SortByLabel(rest));
      }
    }
  }

  /** `engineers`: the distinct assignees, sorted. */
  function Engineers(inv: seq<Obj>): seq<Value>
  {
    SortByLabel(Dedupe(Assigned(inv)))
  }

  /** The engineer list is sorted, has no repeats, and holds exactly the
      values of the non-empty `assignedTo` fields. */
  lemma EngineersSpec(inv: seq<Obj>)
    ensures SortedByLabel(Engineers(inv))
    ensures Distinct(Engineers(inv))
    ensures forall v :: v in Engineers(inv) <==>
      exists o :: o in inv && Truthy(Assignee(o)) && Assignee(o) == Some(v)
  {
    var d := Dedupe(Assigned(inv));
    SortSpec(d);
    forall v ensures v in Engineers(inv) <==> v in d {
      assert v in Engineers(inv) <==> v in multiset(Engineers(inv));
    }
  }

  // ---------------------------------------------------------------------
  // search

  /** `val && String(val).toLowerCase().includes(searchLower)`. */
  predicate CellMatches(v: Option<Value>, term: string)
  {
    Truthy(v) && Contains(Lower(Show(v)), Lower(term))
  }

  /** `columns.some(col => ...)`, column by column. */
  function AnyColumnMatches(item: Obj, cols: seq<Column>, term: string): (b: bool)
    ensures b <==> exists i :: 0 <= i < |cols| && CellMatches(Prop(item, cols[i].id), term)
  {
    if cols == [] then false
    else
      assert forall i :: 1 <= i < |cols| ==> cols[i] == cols[1..][i - 1];
      CellMatches(Prop(item, cols[0].id), term) || AnyColumnMatches(item, cols[1..], term)
  }

  function MatchesSearch(cols: seq<Column>, term: string): Obj -> bool
  {
    item => AnyColumnMatches(item, cols, term)
  }

  /** `filteredInventory`. */
  function Search(inv: seq<Obj>, cols: seq<Column>, term: string): seq<Obj>
  {
    Filter(inv, MatchesSearch(cols, term))
  }

  /** A record is listed exactly when one of the schema's columns holds a
      non-empty value whose text contains the term, ignoring case; an empty
      term lists every record with some non-empty column. */
  lemma SearchSpec(inv: seq<Obj>, cols: seq<Column>, term: string, item: Obj)
    ensures item in Search(inv, cols, term) <==>
      item in inv && exists i :: 0 <= i < |cols| && CellMatches(Prop(item, cols[i].id), term)
    ensures term == [] ==> (item in Search(inv, cols, term) <==>
      item in inv && exists i :: 0 <= i < |cols| && Truthy(Prop(item, cols[i].id)))
  {
    if term == [] {
      forall i | 0 <= i < |cols| && Truthy(Prop(item, cols[i].id))
        ensures CellMatches(Prop(item, cols[i].id), term)
      {
        ContainsEmpty(Lower(Show(Prop(item, cols[i].id))));
      }
    }
  }

  /** Searching keeps the inventory order: searching a concatenation
      searches each part. */
  lemma SearchKeepsOrder(a: seq<Obj>, b: seq<Obj>, cols: seq<Column>, term: string)
    ensures Search(a + b, cols, term) == Search(a, cols, term) + Search(b, cols, term)
  {
    FilterConcat(a, b, MatchesSearch(cols, term));
  }

  // ---------------------------------------------------------------------
  // history date range

  /** `a < b` on two dates; any comparison with an invalid date (None) is
      false. */
  predicate DateBefore(a: Option<int>, b: Option<int>)
  {
    a.Some? && b.Some? && a.value < b.value
  }

  /** The `historyFilteredData` test. `start` and `end` are the range
      inputs (empty when unset); `dateOf` is `new Date(...)`, None for an
      invalid date. */
  predicate InRange(item: Obj, start: string, end: string, dateOf: Value -> Option<int>)
  {
    var d := Prop(item, "date");
    && Truthy(d)
    && !(start != [] && DateBefore(dateOf(d.value), dateOf(Text(start))))
    && !(end != [] && DateBefore(dateOf(Text(end)), dateOf(d.value)))
  }

  function InRangeTest(start: string, end: string, dateOf: Value -> Option<int>): Obj -> bool
  {
    item => InRange(item, start, end, dateOf)
  }

  function History(inv: seq<Obj>, start: string, end: string, dateOf: Value -> Option<int>): seq<Obj>
  {
    Filter(inv, InRangeTest(start, end, dateOf))
  }

  /** A bound that is unset or is not a valid date imposes nothing. */
  predicate NoBound(bound: string, dateOf: Value -> Option<int>)
  {
    bound == [] || dateOf(Text(bound)).None?
  }

  /** For a record with a valid date, each bound acts on its own: a valid
      start keeps dates from the start on, a valid end keeps dates up to the
      end, and an unset or invalid bound imposes nothing. In particular,
      two valid bounds give the inclusive range `start <= date <= end`. A
      record without a date is never kept; a record whose date is invalid
      is kept whatever the range, since comparisons with an invalid date
      are false. */
  lemma HistorySpec(inv: seq<Obj>, start: string, end: string, dateOf: Value -> Option<int>, item: Obj)
    requires item in inv
    ensures !Truthy(Prop(item, "date")) ==> item !in History(inv, start, end, dateOf)
    ensures Truthy(Prop(item, "date")) && dateOf(Prop(item, "date").value).Some? ==>
      var d := dateOf(Prop(item, "date").value).value;
      (item in History(inv, start, end, dateOf) <==>
        && (NoBound(start, dateOf) || dateOf(Text(start)).value <= d)
        && (NoBound(end, dateOf) || d <= dateOf(Text(end)).value))
    ensures (&& Truthy(Prop(item, "date")) && start != [] && end != []
             && dateOf(Prop(item, "date").value).Some? && dateOf(Text(start)).Some? && dateOf(Text(end)).Some?)
      ==> (item in History(inv, start, end, dateOf) <==>
           dateOf(Text(start)).value <= dateOf(Prop(item, "date").value).value <= dateOf(Text(end)).value)
    ensures Truthy(Prop(item, "date")) && dateOf(Prop(item, "date").value).None? ==>
      item in History(inv, start, end, dateOf)
    ensures Truthy(Prop(item, "date")) && NoBound(start, dateOf) && NoBound(end, dateOf) ==>
      item in History(inv, start, end, dateOf)
  {
  }

  // ---------------------------------------------------------------------
  // per-engineer breakdown

  /** `getEngineerBreakdown`'s result. */
  datatype Breakdown = Breakdown(items: seq<Obj>, spares: nat, installed: nat, returned: nat, planned: nat)

  function AssignedTo(eng: Value): Obj -> bool
  {
    o => Assignee(o) == Some(eng)
  }

  function EngineerBreakdown(inv: seq<Obj>, eng: Value): Breakdown
  {
    var items := Filter(inv, AssignedTo(eng));
    Breakdown(items,
      |Filter(items, HasStatus("spare"))|,
      |Filter(items, HasStatus("installed"))|,
      |Filter(items, HasStatus("returned"))|,
      |Filter(items, HasStatus("planned"))|)
  }

  /** A status other than the four the breakdown counts. */
  function NoneOf(a: string, b: string, c: string, d: string): Obj -> bool
  {
    o => StatusOf(o) != a && StatusOf(o) != b && StatusOf(o) != c && StatusOf(o) != d
  }

  /** Four distinct statuses and the rest split a list: every record is
      counted exactly once. */
  lemma {:induction false} FourStatusesPartition(s: seq<Obj>, a: string, b: string, c: string, d: string)
    requires a != b && a != c && a != d && b != c && b != d && c != d
    ensures |Filter(s, HasStatus(a))| + |Filter(s, HasStatus(b))| + |Filter(s, HasStatus(c))|
      + |Filter(s, HasStatus(d))| + |Filter(s, NoneOf(a, b, c, d))| == |s|
  {
    if s != [] {
      FourStatusesPartition(s[1..], a, b, c, d);
    }
  }

  /** The breakdown lists exactly the records assigned to the engineer;
      each count is the number of the inventory's records with that status
      that are assigned to the engineer; the four counts and the records
      with any other status add up to the records listed. */
  lemma EngineerBreakdownSpec(inv: seq<Obj>, eng: Value)
    ensures var b := EngineerBreakdown(inv, eng);
      && (forall o :: o in b.items <==> o in inv && Assignee(o) == Some(eng))
      && b.spares == |Filter(Filter(inv, HasStatus("spare")), AssignedTo(eng))|
      && b.installed == |Filter(Filter(inv, HasStatus("installed")), AssignedTo(eng))|
      && b.returned == |Filter(Filter(inv, HasStatus("returned")), AssignedTo(eng))|
      && b.planned == |Filter(Filter(inv, HasStatus("planned")), AssignedTo(eng))|
      && b.spares + b.installed + b.returned + b.planned
         + |Filter(b.items, NoneOf("spare", "installed", "returned", "planned"))| == |b.items|
  {
    var b := EngineerBreakdown(inv, eng);
    FilterCommute(inv, AssignedTo(eng), HasStatus("spare"));
    FilterCommute(inv, AssignedTo(eng), HasStatus("installed"));
    FilterCommute(inv, AssignedTo(eng), HasStatus("returned"));
    FilterCommute(inv, AssignedTo(eng), HasStatus("planned"));
    FourStatusesPartition(b.items, "spare", "installed", "returned", "planned");
  }

  /** The breakdown keeps the inventory order: the records listed for a
      concatenation are those listed for each part. */
  lemma BreakdownKeepsOrder(a: seq<Obj>, b: seq<Obj>, eng: Value)
    ensures EngineerBreakdown(a + b, eng).items == EngineerBreakdown(a, eng).items + EngineerBreakdown(b, eng).items
  {
    FilterConcat(a, b, AssignedTo(eng));
  }
}
