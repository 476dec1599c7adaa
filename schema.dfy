/** The column list (schema): field definitions that drive the form, the
    import and export mapping, the search and the chart grouping. */
module Schema {
  import opened Wrappers

  datatype FieldType = TextField | NumberField | DateField | SelectField | TextArea

  /** A column: the record key it reads, its caption (`label`), its type and, for
      drop-downs, the allowed values. */
  datatype Column = Column(id: string, caption: string, kind: FieldType, options: Option<seq<string>>)

  /** `Partial<ColumnConfig>` as the column editor sends it: a new caption (label), a
      new type or a new option list. */
  datatype ColumnPatch = ColumnPatch(caption: Option<string>, kind: Option<FieldType>, options: Option<seq<string>>)

  /** The columns of the original spreadsheet layout. */
  const InitialColumns: seq<Column> := [
    Column("date", "Date", DateField, None),
    Column("assetId", "Asset ID", TextField, None),
    Column("materialType", "Material Type", TextField, None),
    Column("modelVariant", "Model/Variant", TextField, None),
    Column("nos", "NOS", NumberField, None),
    Column("circle", "Circle", TextField, None),
    Column("division", "Division", TextField, None),
    Column("substation", "Substation", TextField, None),
    Column("status", "Status", SelectField,
      Some(["Installed", "Spare", "Returned", "Planned", "Defective", "Maintenance"])),
    Column("assignedTo", "Assigned To", TextField, None),
    Column("plannedDate", "Planned Date", DateField, None),
    Column("replacementDate", "Replacement Date", DateField, None),
    Column("remarks", "Remarks", TextArea, None),
    Column("lastUpdatedBy", "Updated By", TextField, None)
  ]

  /** No two columns read the same key. */
  predicate UniqueColumnIds(cols: seq<Column>)
  {
    forall i, j :: 0 <= i < j < |cols| ==> cols[i].id != cols[j].id
  }

  predicate HasColumnId(cols: seq<Column>, id: string)
  {
    exists i :: 0 <= i < |cols| && cols[i].id == id
  }

  lemma InitialColumnsWellFormed()
    ensures UniqueColumnIds(InitialColumns)
    ensures !HasColumnId(InitialColumns, "id")
  {
    var cols := InitialColumns;
    // the length and the second letter of a key already tell the keys apart
    forall i, j | 0 <= i < j < |cols| ensures cols[i].id != cols[j].id {
      assert (|cols[i].id|, cols[i].id[1]) != (|cols[j].id|, cols[j].id[1]);
    }
  }

  /** `{ ...column, ...updates }`: the set parts of the patch win; the key
      never changes, and an empty patch changes nothing. */
  function ApplyPatch(c: Column, p: ColumnPatch): (r: Column)
    ensures r.id == c.id
    ensures r.caption == if p.caption.Some? then p.caption.value else c.caption
    ensures r.kind == if p.kind.Some? then p.kind.value else c.kind
    ensures r.options == if p.options.Some? then p.options else c.options
    ensures p == ColumnPatch(None, None, None) ==> r == c
  {
    Column(c.id, p.caption.GetOr(c.caption), p.kind.GetOr(c.kind),
           if p.options.Some? then p.options else c.options)
  }

  /** The entry `handleAddColumn` appends. */
  function NewField(id: string): Column
  {
    Column(id, "New Field", TextField, None)
  }

  /** `columns.filter((_, i) => i !== index)`: the column at `index` goes
      when there is one, the rest keep their order. */
  function RemoveAt(cols: seq<Column>, index: int): (r: seq<Column>)
    ensures 0 <= index < |cols| ==> r == cols[..index] + cols[index + 1..]
    ensures !(0 <= index < |cols|) ==> r == cols
  {
    if cols == [] then []
    else if index == 0 then cols[1..]
    else [cols[0]] + RemoveAt(cols[1..], index - 1)
  }

  /** Removing a column keeps the keys unique. */
  lemma RemoveAtKeepsUnique(cols: seq<Column>, index: int)
    requires UniqueColumnIds(cols)
    ensures UniqueColumnIds(RemoveAt(cols, index))
  {
    if 0 <= index < |cols| {
      var r := RemoveAt(cols, index);
      forall i, j | 0 <= i < j < |r| ensures r[i].id != r[j].id {
        var i' := if i < index then i else i + 1;
        var j' := if j < index then j else j + 1;
        assert r[i] == cols[i'] && r[j] == cols[j'];
      }
    }
  }
}
