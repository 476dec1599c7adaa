/** Bulk import of delimited text: the header line is skipped, blank lines
    are skipped, every other line becomes one record whose cells are mapped
    to the columns by position. */
module CsvImport {
  import opened Wrappers
  import opened Strings
  import opened Values
  import opened Seqs
  import opened Schema
  import opened Records

  /** `line.includes('\t') ? line.split('\t') : line.split(',')`. */
  function Cells(line: string): seq<string>
  {
    if '\t' in line then Split(line, '\t') else Split(line, ',')
  }

  /** The value stored for a cell: `parseFloat(v) || 0` in a number column,
      the trimmed text in any other. */
  function Coerce(col: Column, cell: string, parseFloat: Parser): Value
  {
    var v := Trim(cell);
    if col.kind == NumberField then Num(parseFloat(v).GetOr(0)) else Text(v)
  }

  /** `imp-${Date.now()}-${i}`, with `ms` the clock reading. */
  function ImportId(ms: nat, i: nat): string
  {
    "imp-" + NatString(ms) + "-" + NatString(i)
  }

  /** The assignments `item[col.id] = value` of the `columns.forEach` from
      column `j` on; a column gets a value only when its cell exists. */
  function FillFrom(item: Obj, cols: seq<Column>, cells: seq<string>, j: nat, parseFloat: Parser): Obj
    decreases |cols| - j
  {
    if j >= |cols| then item
    else
      var next := if j < |cells| then item[cols[j].id := Coerce(cols[j], cells[j], parseFloat)] else item;
      FillFrom(next, cols, cells, j + 1, parseFloat)
  }

  /** The record built from the trimmed, non-blank line number `i`. */
  function LineRecord(line: string, i: nat, cols: seq<Column>, now: nat -> nat, parseFloat: Parser): Obj
  {
    FillFrom(map["id" := Text(ImportId(now(i), i))], cols, Cells(line), 0, parseFloat)
  }

  predicate NonBlank(line: string)
  {
    Trim(line) != []
  }

  /** The records built from `lines[i..]`. */
  function RecordsFrom(lines: seq<string>, i: nat, cols: seq<Column>, now: nat -> nat, parseFloat: Parser): seq<Obj>
    decreases |lines| - i
  {
    if i >= |lines| then []
    else
      (if NonBlank(lines[i]) then [LineRecord(Trim(lines[i]), i, cols, now, parseFloat)] else [])
      + RecordsFrom(lines, i + 1, cols, now, parseFloat)
  }

  /** The records an upload of `text` yields, line 0 (the header) excluded. */
  function ImportRecords(text: string, cols: seq<Column>, now: nat -> nat, parseFloat: Parser): seq<Obj>
  {
    RecordsFrom(Split(text, '\n'), 1, cols, now, parseFloat)
  }

  /** The parse loop of `handleFileUpload`: one record per non-blank line
      after the header, in line order. */
  method ParseImport(text: string, cols: seq<Column>, now: nat -> nat, parseFloat: Parser)
    returns (newItems: seq<Obj>)
    ensures newItems == ImportRecords(text, cols, now, parseFloat)
  {
    var lines := Split(text, '\n');
    newItems := [];
    var i := 1;
    while i < |lines|
      invariant 1 <= i <= |lines|
      invariant newItems + RecordsFrom(lines, i, cols, now, parseFloat) == ImportRecords(text, cols, now, parseFloat)
    {
      var line := Trim(lines[i]);
      RecordsFromStep(lines, i, cols, now, parseFloat);
      if line != [] {
        var item := BuildRecord(line, i, cols, now, parseFloat);
        newItems := newItems + [item];
      }
      i := i + 1;
    }
    RecordsFromEnd(lines, i, cols, now, parseFloat);
  }

  /** One step of the record list: line `i` contributes its record when it
      is not blank. */
  lemma RecordsFromStep(lines: seq<string>, i: nat, cols: seq<Column>, now: nat -> nat, parseFloat: Parser)
    requires i < |lines|
    ensures NonBlank(lines[i]) ==>
      RecordsFrom(lines, i, cols, now, parseFloat) == [LineRecord(Trim(lines[i]), i, cols, now, parseFloat)] + RecordsFrom(lines, i + 1, cols, now, parseFloat)
    ensures !NonBlank(lines[i]) ==> RecordsFrom(lines, i, cols, now, parseFloat) == RecordsFrom(lines, i + 1, cols, now, parseFloat)
  {
  }

  lemma RecordsFromEnd(lines: seq<string>, i: nat, cols: seq<Column>, now: nat -> nat, parseFloat: Parser)
    requires i >= |lines|
    ensures RecordsFrom(lines, i, cols, now, parseFloat) == []
  {
  }

  /** The body of the parse loop for one trimmed, non-blank line: the id,
      then `columns.forEach` assigning the cell under each column's key. */
  method BuildRecord(line: string, i: nat, cols: seq<Column>, now: nat -> nat, parseFloat: Parser)
    returns (item: Obj)
    ensures item == LineRecord(line, i, cols, now, parseFloat)
  {
    var cells := if '\t' in line then Split(line, '\t') else Split(line, ',');
    item := map["id" := Text(ImportId(now(i), i))];
    ghost var target := LineRecord(line, i, cols, now, parseFloat);
    assert FillFrom(item, cols, cells, 0, parseFloat) == target;
    var j := 0;
    while j < |cols|
      invariant 0 <= j <= |cols|
      invariant FillFrom(item, cols, cells, j, parseFloat) == target
    {
      FillFromStep(item, cols, cells, j, parseFloat);
      if j < |cells| {
        var v := Trim(cells[j]);
        var value := if cols[j].kind == NumberField then Num(parseFloat(v).GetOr(0)) else Text(v);
        assert value == Coerce(cols[j], cells[j], parseFloat);
        item := item[cols[j].id := value];
      }
      j := j + 1;
    }
    FillFromEnd(item, cols, cells, j, parseFloat);
  }

  /** One step of the `forEach`: column `j` takes its coerced cell when the
      line has one. */
  lemma FillFromStep(item: Obj, cols: seq<Column>, cells: seq<string>, j: nat, parseFloat: Parser)
    requires j < |cols|
    ensures j < |cells| ==>
      FillFrom(item, cols, cells, j, parseFloat)
        == FillFrom(item[cols[j].id := Coerce(cols[j], cells[j], parseFloat)], cols, cells, j + 1, parseFloat)
    ensures j >= |cells| ==> FillFrom(item, cols, cells, j, parseFloat) == FillFrom(item, cols, cells, j + 1, parseFloat)
  {
  }

  lemma FillFromEnd(item: Obj, cols: seq<Column>, cells: seq<string>, j: nat, parseFloat: Parser)
    requires j >= |cols|
    ensures FillFrom(item, cols, cells, j, parseFloat) == item
  {
  }

  // ---------------------------------------------------------------------
  // what a built record holds

  /** A key no column with a cell (from `j` on) is keyed by keeps its
      value. */
  lemma {:induction false} FillFromOther(item: Obj, cols: seq<Column>, cells: seq<string>, j: nat, parseFloat: Parser, key: string)
    requires forall m :: j <= m < |cols| && m < |cells| ==> cols[m].id != key
    ensures Prop(FillFrom(item, cols, cells, j, parseFloat), key) == Prop(item, key)
    decreases |cols| - j
  {
    if j < |cols| {
      var next := if j < |cells| then item[cols[j].id := Coerce(cols[j], cells[j], parseFloat)] else item;
      FillFromOther(next, cols, cells, j + 1, parseFloat, key);
    }
  }

  /** With distinct column keys, the column of a cell holds that cell's
      coerced value. */
  lemma {:induction false} FillFromValue(item: Obj, cols: seq<Column>, cells: seq<string>, j: nat, parseFloat: Parser, m: nat)
    requires UniqueColumnIds(cols)
    requires j <= m < |cols| && m < |cells|
    ensures Prop(FillFrom(item, cols, cells, j, parseFloat), cols[m].id) == Some(Coerce(cols[m], cells[m], parseFloat))
    decreases |cols| - j
  {
    var next := if j < |cells| then item[cols[j].id := Coerce(cols[j], cells[j], parseFloat)] else item;
    if j < m {
      FillFromValue(next, cols, cells, j + 1, parseFloat, m);
    } else {
      FillFromOther(next, cols, cells, j + 1, parseFloat, cols[m].id);
    }
  }

  /** A record built from line `i` has the id `imp-<ms>-<i>` unless some
      column is keyed `id`. */
  lemma LineRecordId(line: string, i: nat, cols: seq<Column>, now: nat -> nat, parseFloat: Parser)
    requires !HasColumnId(cols, "id")
    ensures IdOf(LineRecord(line, i, cols, now, parseFloat)) == Some(Text(ImportId(now(i), i)))
  {
    FillFromOther(map["id" := Text(ImportId(now(i), i))], cols, Cells(line), 0, parseFloat, "id");
  }

  /** A record built from line `i`: column `m` is set exactly when the line
      has a cell `m` (so extra cells are ignored), and then holds the
      coerced cell; a column without a cell stays absent. */
  lemma LineRecordFields(line: string, i: nat, cols: seq<Column>, now: nat -> nat, parseFloat: Parser, m: nat)
    requires UniqueColumnIds(cols) && !HasColumnId(cols, "id")
    requires m < |cols|
    ensures var r := LineRecord(line, i, cols, now, parseFloat);
      && (cols[m].id in r <==> m < |Cells(line)|)
      && (m < |Cells(line)| ==> r[cols[m].id] == Coerce(cols[m], Cells(line)[m], parseFloat))
  {
    var cells := Cells(line);
    var base: Obj := map["id" := Text(ImportId(now(i), i))];
    if m < |cells| {
      FillFromValue(base, cols, cells, 0, parseFloat, m);
    } else {
      assert cols[m].id != "id";
      FillFromOther(base, cols, cells, 0, parseFloat, cols[m].id);
    }
  }

  /** Blanks around a cell never matter: coercing the trimmed cell gives
      the same value, a text column's value has no blanks at either end,
      and a number column always holds a number (0 when parsing fails). */
  lemma CoerceIgnoresPadding(col: Column, cell: string, parseFloat: Parser)
    ensures Coerce(col, Trim(cell), parseFloat) == Coerce(col, cell, parseFloat)
    ensures col.kind != NumberField ==>
      Coerce(col, cell, parseFloat).Text? && Trim(Coerce(col, cell, parseFloat).s) == Coerce(col, cell, parseFloat).s
    ensures col.kind == NumberField ==> Coerce(col, cell, parseFloat) == Num(parseFloat(Trim(cell)).GetOr(0))
  {
    TrimIdempotent(cell);
  }

  // ---------------------------------------------------------------------
  // how many records, and their ids

  /** One record per non-blank line after the header. */
  lemma {:induction false} RecordsFromCount(lines: seq<string>, i: nat, cols: seq<Column>, now: nat -> nat, parseFloat: Parser)
    requires i <= |lines|
    ensures |RecordsFrom(lines, i, cols, now, parseFloat)| == |Filter(lines[i..], NonBlank)|
    decreases |lines| - i
  {
    if i < |lines| {
      RecordsFromCount(lines, i + 1, cols, now, parseFloat);
      assert lines[i..][1..] == lines[i + 1..];
    }
  }

  lemma ImportCount(text: string, cols: seq<Column>, now: nat -> nat, parseFloat: Parser)
    ensures |ImportRecords(text, cols, now, parseFloat)| == |Filter(Split(text, '\n')[1..], NonBlank)|
  {
    RecordsFromCount(Split(text, '\n'), 1, cols, now, parseFloat);
  }

  /** Ids of different lines differ, whatever the clock read. */
  lemma ImportIdInjective(ms1: nat, i: nat, ms2: nat, j: nat)
    requires ImportId(ms1, i) == ImportId(ms2, j)
    ensures i == j
  {
    assert forall n: nat, k :: 0 <= k < |NatString(n)| ==> NatString(n)[k] != '-';
    AfterLastDashOf("imp-" + NatString(ms1), NatString(i));
    AfterLastDashOf("imp-" + NatString(ms2), NatString(j));
    NatStringInjective(i, j);
  }

  /** The id of the record built from some non-blank line `k >= i`. */
  predicate IdFromLineAtLeast(id: Option<Value>, lines: seq<string>, i: nat, now: nat -> nat)
  {
    exists k :: i <= k < |lines| && NonBlank(lines[k]) && id == Some(Text(ImportId(now(k), k)))
  }

  /** Every record of `rs` carries the id of some non-blank line from `i`
      on. */
  predicate IdsFromLines(rs: seq<Obj>, lines: seq<string>, i: nat, now: nat -> nat)
  {
    forall m :: 0 <= m < |rs| ==> IdFromLineAtLeast(IdOf(rs[m]), lines, i, now)
  }

  /** Every id produced from `lines[i..]` is that of some non-blank line
      k >= i. */
  lemma {:induction false} RecordsFromIds(lines: seq<string>, i: nat, cols: seq<Column>, now: nat -> nat, parseFloat: Parser)
    requires !HasColumnId(cols, "id")
    ensures IdsFromLines(RecordsFrom(lines, i, cols, now, parseFloat), lines, i, now)
    decreases |lines| - i
  {
    if i < |lines| {
      var tail := RecordsFrom(lines, i + 1, cols, now, parseFloat);
      RecordsFromStep(lines, i, cols, now, parseFloat);
      RecordsFromIds(lines, i + 1, cols, now, parseFloat);
      if NonBlank(lines[i]) {
        var head := LineRecord(Trim(lines[i]), i, cols, now, parseFloat);
        LineRecordId(Trim(lines[i]), i, cols, now, parseFloat);
        IdsFromLinesCons(head, tail, lines, i, now);
      } else {
        IdsFromLinesCons(map[], tail, lines, i, now);
      }
    }
  }

  /** Widening the range of lines by line `i`, with or without a record of
      that line in front. */
  lemma IdsFromLinesCons(head: Obj, tail: seq<Obj>, lines: seq<string>, i: nat, now: nat -> nat)
    requires IdsFromLines(tail, lines, i + 1, now)
    requires i < |lines|
    ensures IdsFromLines(tail, lines, i, now)
    ensures NonBlank(lines[i]) && IdOf(head) == Some(Text(ImportId(now(i), i))) ==> IdsFromLines([head] + tail, lines, i, now)
  {
    forall m | 0 <= m < |tail| ensures IdFromLineAtLeast(IdOf(tail[m]), lines, i, now) {
      assert IdFromLineAtLeast(IdOf(tail[m]), lines, i + 1, now);
      var k :| i + 1 <= k < |lines| && NonBlank(lines[k]) && IdOf(tail[m]) == Some(Text(ImportId(now(k), k)));
    }
    if NonBlank(lines[i]) && IdOf(head) == Some(Text(ImportId(now(i), i))) {
      var rs := [head] + tail;
      forall m | 0 <= m < |rs| ensures IdFromLineAtLeast(IdOf(rs[m]), lines, i, now) {
        if m > 0 { assert rs[m] == tail[m - 1]; }
      }
    }
  }

  /** The records of one import have distinct ids. */
  lemma {:induction false} RecordsFromUnique(lines: seq<string>, i: nat, cols: seq<Column>, now: nat -> nat, parseFloat: Parser)
    requires !HasColumnId(cols, "id")
    ensures UniqueIds(RecordsFrom(lines, i, cols, now, parseFloat))
    decreases |lines| - i
  {
    if i < |lines| {
      var tail := RecordsFrom(lines, i + 1, cols, now, parseFloat);
      RecordsFromStep(lines, i, cols, now, parseFloat);
      RecordsFromUnique(lines, i + 1, cols, now, parseFloat);
      if NonBlank(lines[i]) {
        var head := LineRecord(Trim(lines[i]), i, cols, now, parseFloat);
        LineRecordId(Trim(lines[i]), i, cols, now, parseFloat);
        RecordsFromIds(lines, i + 1, cols, now, parseFloat);
        forall n | 0 <= n < |tail| ensures IdOf(tail[n]) != IdOf(head) {
          NewerLineId(IdOf(tail[n]), lines, i, now);
        }
        PrependUnique(head, tail);
      }
    }
  }

  /** Ids of later lines differ from the id of line `i`. */
  lemma NewerLineId(id: Option<Value>, lines: seq<string>, i: nat, now: nat -> nat)
    requires IdFromLineAtLeast(id, lines, i + 1, now)
    ensures id != Some(Text(ImportId(now(i), i)))
  {
    var k :| i + 1 <= k < |lines| && NonBlank(lines[k]) && id == Some(Text(ImportId(now(k), k)));
    if ImportId(now(i), i) == ImportId(now(k), k) {
      ImportIdInjective(now(i), i, now(k), k);
    }
  }

  /** A record whose id no record of a unique list has can be put in
      front. */
  lemma PrependUnique(head: Obj, tail: seq<Obj>)
    requires UniqueIds(tail)
    requires forall n :: 0 <= n < |tail| ==> IdOf(tail[n]) != IdOf(head)
    ensures UniqueIds([head] + tail)
  {
    var rs := [head] + tail;
    forall a, b | 0 <= a < b < |rs| ensures IdOf(rs[a]) != IdOf(rs[b]) {
      assert rs[b] == tail[b - 1];
      if a > 0 {
        assert rs[a] == tail[a - 1];
      }
    }
  }

  /** No record of `inv` already has an id that the upload of `text`
      generates: `imp-<stamp>-<k>` for each non-blank line `k` after the
      header. */
  predicate FreshImportIds(inv: seq<Obj>, text: string, now: nat -> nat)
  {
    var lines := Split(text, '\n');
    forall k :: 1 <= k < |lines| && NonBlank(lines[k]) ==> !HasId(inv, Some(Text(ImportId(now(k), k))))
  }

  /** Appending an import to an inventory with unique ids keeps ids unique,
      provided the ids the upload generates are fresh and no column is
      keyed `id`. */
  lemma ImportKeepsUniqueIds(inv: seq<Obj>, text: string, cols: seq<Column>, now: nat -> nat, parseFloat: Parser)
    requires UniqueIds(inv)
    requires FreshImportIds(inv, text, now)
    requires !HasColumnId(cols, "id")
    ensures UniqueIds(inv + ImportRecords(text, cols, now, parseFloat))
  {
    var lines := Split(text, '\n');
    var rs := ImportRecords(text, cols, now, parseFloat);
    RecordsFromUnique(lines, 1, cols, now, parseFloat);
    RecordsFromIds(lines, 1, cols, now, parseFloat);
    var all := inv + rs;
    forall a, b | 0 <= a < b < |all| ensures IdOf(all[a]) != IdOf(all[b]) {
      if b < |inv| {
        assert all[a] == inv[a] && all[b] == inv[b];
      } else if a >= |inv| {
        assert all[a] == rs[a - |inv|] && all[b] == rs[b - |inv|];
      } else {
        assert all[a] == inv[a] && all[b] == rs[b - |inv|];
        assert IdFromLineAtLeast(IdOf(rs[b - |inv|]), lines, 1, now);
        var k :| 1 <= k < |lines| && NonBlank(lines[k]) && IdOf(rs[b - |inv|]) == Some(Text(ImportId(now(k), k)));
        assert !HasId(inv, Some(Text(ImportId(now(k), k))));
      }
    }
  }

  /** A trimmed cell that holds no separator is the whole line's only
      cell. */
  predicate PlainCell(cell: string)
  {
    cell != [] && !IsSpace(cell[0]) && !IsSpace(cell[|cell| - 1])
    && ',' !in cell && '\t' !in cell && '\n' !in cell
  }

  /** A line holding one plain cell, against a single number column. */
  lemma NumberRecord(cell: string, i: nat, col: Column, now: nat -> nat, parseFloat: Parser)
    requires PlainCell(cell)
    requires col.kind == NumberField && col.id != "id"
    ensures Prop(LineRecord(cell, i, [col], now, parseFloat), col.id) == Some(Num(parseFloat(cell).GetOr(0)))
  {
    TrimUnpadded(cell);
    SplitWithoutSep(cell, ',');
    LineRecordFields(cell, i, [col], now, parseFloat, 0);
  }

  /** An upload made of a header, two single-cell lines and a trailing
      newline, against one number column: two records, each holding its
      parsed number, or 0 where the cell does not parse (`Qty`, `5`, `abc`
      gives 5 and 0); the empty last line yields nothing. */
  lemma NumberColumnImport(header: string, a: string, b: string, col: Column, now: nat -> nat, parseFloat: Parser)
    requires '\n' !in header && PlainCell(a) && PlainCell(b)
    requires col.kind == NumberField && col.id != "id"
    ensures var rs := ImportRecords(Join([header, a, b, ""], '\n'), [col], now, parseFloat);
      && |rs| == 2
      && Prop(rs[0], col.id) == Some(Num(parseFloat(a).GetOr(0)))
      && Prop(rs[1], col.id) == Some(Num(parseFloat(b).GetOr(0)))
  {
    var lines := [header, a, b, ""];
    SplitJoin(lines, '\n');
    TrimUnpadded(a);
    TrimUnpadded(b);
    RecordsFromStep(lines, 1, [col], now, parseFloat);
    RecordsFromStep(lines, 2, [col], now, parseFloat);
    RecordsFromStep(lines, 3, [col], now, parseFloat);
    RecordsFromEnd(lines, 4, [col], now, parseFloat);
    NumberRecord(a, 1, col, now, parseFloat);
    NumberRecord(b, 2, col, now, parseFloat);
  }
}
