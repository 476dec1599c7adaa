/** CSV export of the (history-filtered) records: a header of column
    captions, then one line per record whose cells are double-quoted with
    inner quotes doubled. A quote-aware reader recovers every cell. */
module CsvExport {
  import opened Wrappers
  import opened Strings
  import opened Values
  import opened Schema

  /** `.replace(/"/g, '""')`: every double quote is doubled. */
  function Escape(s: string): (r: string)
    ensures |r| >= |s|
    decreases |s|
  {
    if s == [] then []
    else (if s[0] == '"' then "\"\"" else [s[0]]) + Escape(s[1..])
  }

  /** Escaping adds no character other than the quote. */
  lemma {:induction false} EscapeAvoids(s: string, c: char)
    requires c != '"' && c !in s
    ensures c !in Escape(s)
    decreases |s|
  {
    if s != [] {
      assert c !in s[1..] by { assert forall x :: x in s[1..] ==> x in s; }
      EscapeAvoids(s[1..], c);
    }
  }

  /** A cell wrapped in quotes. */
  function Quote(t: string): (q: string)
    ensures |q| >= 2 && q[0] == '"' && q[|q| - 1] == '"'
  {
    "\"" + Escape(t) + "\""
  }

  /** The text exported for a value: `String(v || '')`, so `undefined`, the
      empty string and 0 all give the empty cell. */
  function CellText(v: Option<Value>): string
  {
    if Truthy(v) then Show(v) else ""
  }

  /** The cell texts of one record, column by column. */
  function CellTexts(item: Obj, cols: seq<Column>): (ts: seq<string>)
    ensures |ts| == |cols|
    ensures forall i :: 0 <= i < |cols| ==> ts[i] == CellText(Prop(item, cols[i].id))
  {
    seq(|cols|, i requires 0 <= i < |cols| => CellText(Prop(item, cols[i].id)))
  }

  /** Each text quoted. */
  function QuoteAll(ts: seq<string>): (qs: seq<string>)
    ensures |qs| == |ts|
    ensures forall i :: 0 <= i < |ts| ==> qs[i] == Quote(ts[i])
  {
    if ts == [] then [] else [Quote(ts[0])] + QuoteAll(ts[1..])
  }

  /** One exported line: the quoted cells joined by `,`. */
  function EncodeRow(item: Obj, cols: seq<Column>): string
  {
    Join(QuoteAll(CellTexts(item, cols)), ',')
  }

  function Captions(cols: seq<Column>): (cs: seq<string>)
    ensures |cs| == |cols| && forall i :: 0 <= i < |cols| ==> cs[i] == cols[i].caption
  {
    seq(|cols|, i requires 0 <= i < |cols| => cols[i].caption)
  }

  /** The header line: the captions joined by `,`, unquoted. */
  function Header(cols: seq<Column>): string
  {
    Join(Captions(cols), ',')
  }

  function Rows(items: seq<Obj>, cols: seq<Column>): (rows: seq<string>)
    ensures |rows| == |items|
    ensures forall k :: 0 <= k < |items| ==> rows[k] == EncodeRow(items[k], cols)
  {
    seq(|items|, k requires 0 <= k < |items| => EncodeRow(items[k], cols))
  }

  /** `handleExportCSV`'s file content: the header, then one line per
      record, joined by `\n`. */
  function ExportCsv(items: seq<Obj>, cols: seq<Column>): string
  {
    Join([Header(cols)] + Rows(items, cols), '\n')
  }

  // ---------------------------------------------------------------------
  // reading the cells back

  /** Reads the inside of a quoted cell, the opening quote already consumed:
      `""` stands for one quote and a lone `"` closes the cell. Gives the
      cell text and what follows the closing quote. */
  function DecodeQuoted(s: string): (r: Option<(string, string)>)
    ensures r.Some? ==> |r.value.1| < |s|
    decreases |s|
  {
    if s == [] then None
    else if s[0] == '"' then
      if |s| >= 2 && s[1] == '"' then
        match DecodeQuoted(s[2..])
        case None => None
        case Some((t, rest)) => Some(("\"" + t, rest))
      else Some(([], s[1..]))
    else
      match DecodeQuoted(s[1..])
      case None => None
      case Some((t, rest)) => Some(([s[0]] + t, rest))
  }

  /** Reads one or more quoted cells separated by `,`. */
  function DecodeFields(s: string): Option<seq<string>>
    decreases |s|
  {
    if s == [] || s[0] != '"' then None
    else
      match DecodeQuoted(s[1..])
      case None => None
      case Some((t, rest)) =>
        if rest == [] then Some([t])
        else if rest[0] != ',' then None
        else
          match DecodeFields(rest[1..])
          case None => None
          case Some(ts) => Some([t] + ts)
  }

  /** Reads an exported line back into its cell texts; the empty line is a
      record with no cells. */
  function DecodeRow(line: string): Option<seq<string>>
  {
    if line == [] then Some([]) else DecodeFields(line)
  }

  /** An escaped text followed by the closing quote reads back as the text,
      whatever follows that does not start with another quote. */
  lemma {:induction false} DecodeEscaped(t: string, rest: string)
    requires rest == [] || rest[0] != '"'
    ensures DecodeQuoted(Escape(t) + "\"" + rest) == Some((t, rest))
    decreases |t|
  {
    var s := Escape(t) + "\"" + rest;
    if t == [] {
      assert s == "\"" + rest;
      assert s[1..] == rest;
    } else {
      DecodeEscaped(t[1..], rest);
      var tail := Escape(t[1..]) + "\"" + rest;
      if t[0] == '"' {
        assert s == "\"\"" + tail;
        assert s[2..] == tail;
        assert "\"" + t[1..] == t;
      } else {
        assert s == [t[0]] + tail;
        assert s[1..] == tail;
        assert [t[0]] + t[1..] == t;
      }
    }
  }

  /** One quoted cell followed by nothing or by `,` and more cells. */
  lemma DecodeFieldsCons(t: string, rest: string)
    requires rest == [] || rest[0] == ','
    ensures rest == [] ==> DecodeFields(Quote(t) + rest) == Some([t])
    ensures rest != [] ==>
      DecodeFields(Quote(t) + rest)
        == if DecodeFields(rest[1..]).Some? then Some([t] + DecodeFields(rest[1..]).value) else None
  {
    var s := Quote(t) + rest;
    assert s[0] == '"' && s[1..] == Escape(t) + "\"" + rest;
    DecodeEscaped(t, rest);
  }

  /** Quoted texts joined by `,` read back as the texts. */
  lemma {:induction false} DecodeQuotedJoin(ts: seq<string>)
    requires |ts| >= 1
    ensures DecodeFields(Join(QuoteAll(ts), ',')) == Some(ts)
  {
    var qs := QuoteAll(ts);
    if |ts| == 1 {
      DecodeFieldsCons(ts[0], []);
      assert Join(qs, ',') == Quote(ts[0]) + [];
      assert [ts[0]] == ts;
    } else {
      var more := Join(QuoteAll(ts[1..]), ',');
      assert qs[1..] == QuoteAll(ts[1..]);
      assert Join(qs, ',') == Quote(ts[0]) + ([','] + more);
      DecodeFieldsCons(ts[0], [','] + more);
      assert ([','] + more)[1..] == more;
      DecodeQuotedJoin(ts[1..]);
      assert [ts[0]] + ts[1..] == ts;
    }
  }

  /** Every exported line reads back, column by column, as the text of the
      record's value (`String(value)`, or empty for a falsy value). */
  lemma RowRoundTrip(item: Obj, cols: seq<Column>)
    ensures DecodeRow(EncodeRow(item, cols)) == Some(CellTexts(item, cols))
  {
    var ts := CellTexts(item, cols);
    if |ts| >= 1 {
      DecodeQuotedJoin(ts);
      assert Join(QuoteAll(ts), ',') != [] by {
        assert QuoteAll(ts)[0] == Quote(ts[0]);
        JoinStartsWithFirst(QuoteAll(ts), ',');
      }
    }
  }

  /** A join starts with its first part. */
  lemma JoinStartsWithFirst(parts: seq<string>, sep: char)
    requires |parts| >= 1
    ensures |Join(parts, sep)| >= |parts[0]| && Join(parts, sep)[..|parts[0]|] == parts[0]
  {
  }

  /** Falsy values (a missing field, the empty string, 0) export as the
      empty cell `""`; any other value as its `String()`. */
  lemma FalsyExportsEmpty(v: Option<Value>)
    ensures !Truthy(v) ==> Quote(CellText(v)) == "\"\""
    ensures v == Some(Num(0)) ==> Quote(CellText(v)) == "\"\""
    ensures Truthy(v) ==> CellText(v) == Show(v)
  {
  }

  // ---------------------------------------------------------------------
  // line structure

  /** A character other than the separator that no part holds is absent from
      the join. */
  lemma {:induction false} JoinAvoids(parts: seq<string>, sep: char, c: char)
    requires c != sep
    requires forall p :: p in parts ==> c !in p
    ensures c !in Join(parts, sep)
  {
    if |parts| > 1 {
      assert parts[0] in parts;
      assert forall p :: p in parts[1..] ==> p in parts;
      JoinAvoids(parts[1..], sep, c);
    }
  }

  /** Quoting adds no character other than the quote. */
  lemma {:induction false} QuoteAllAvoids(ts: seq<string>, c: char)
    requires c != '"'
    requires forall i :: 0 <= i < |ts| ==> c !in ts[i]
    ensures forall p :: p in QuoteAll(ts) ==> c !in p
  {
    if ts != [] {
      EscapeAvoids(ts[0], c);
      QuoteAllAvoids(ts[1..], c);
    }
  }

  /** No line break in a caption or a cell text. */
  predicate SingleLine(items: seq<Obj>, cols: seq<Column>)
  {
    && (forall i :: 0 <= i < |cols| ==> '\n' !in cols[i].caption)
    && (forall k, i :: 0 <= k < |items| && 0 <= i < |cols| ==> '\n' !in CellText(Prop(items[k], cols[i].id)))
  }

  /** An exported record line holds no line break when its cell texts hold
      none. */
  lemma RowSingleLine(item: Obj, cols: seq<Column>)
    requires forall i :: 0 <= i < |cols| ==> '\n' !in CellText(Prop(item, cols[i].id))
    ensures '\n' !in EncodeRow(item, cols)
  {
    var ts := CellTexts(item, cols);
    QuoteAllAvoids(ts, '\n');
    JoinAvoids(QuoteAll(ts), ',', '\n');
  }

  /** When no caption or cell text holds a line break, the file has
      `1 + records` lines: the header, then each record's line in order. */
  lemma ExportLines(items: seq<Obj>, cols: seq<Column>)
    requires SingleLine(items, cols)
    ensures var lines := Split(ExportCsv(items, cols), '\n');
      && |lines| == 1 + |items|
      && lines[0] == Header(cols)
      && forall k :: 0 <= k < |items| ==> lines[k + 1] == EncodeRow(items[k], cols)
  {
    var parts := [Header(cols)] + Rows(items, cols);
    JoinAvoids(Captions(cols), ',', '\n');
    forall p | p in parts ensures '\n' !in p {
      var j :| 0 <= j < |parts| && parts[j] == p;
      if j > 0 {
        assert p == EncodeRow(items[j - 1], cols);
        RowSingleLine(items[j - 1], cols);
      }
    }
    SplitJoin(parts, '\n');
  }

  /** Every record line of the file reads back as the record's cell texts. */
  lemma ExportDecodes(items: seq<Obj>, cols: seq<Column>, k: nat)
    requires SingleLine(items, cols) && k < |items|
    ensures var lines := Split(ExportCsv(items, cols), '\n');
      k + 1 < |lines| && DecodeRow(lines[k + 1]) == Some(CellTexts(items[k], cols))
  {
    ExportLines(items, cols);
    RowRoundTrip(items[k], cols);
  }

  /** With captions free of commas, splitting the header on `,` gives the
      captions back. */
  lemma HeaderCaptions(cols: seq<Column>)
    requires |cols| >= 1
    requires forall i :: 0 <= i < |cols| ==> ',' !in cols[i].caption
    ensures Split(Header(cols), ',') == Captions(cols)
  {
    var cs := Captions(cols);
    forall p | p in cs ensures ',' !in p {
      var i :| 0 <= i < |cs| && cs[i] == p;
    }
    SplitJoin(cs, ',');
  }
}
