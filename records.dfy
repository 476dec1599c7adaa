/** The inventory: an ordered list of asset records keyed by their `id`
    field, the backend row format `{id, data}`, and the list edits made by
    realtime change events and by the optimistic local handlers. */
module Records {
  import opened Wrappers
  import opened Values
  import opened Seqs

  /** A row of the backend `assets` table: the record id and the JSON `data`
      column holding every other field. */
  datatype Row = Row(id: string, data: Obj)

  /** A change event of the realtime feed on the `assets` table: the new row
      for INSERT and UPDATE, the old row's id for DELETE. */
  datatype Change = Insert(row: Row) | Update(row: Row) | Delete(id: string)

  /** `record.id`. */
  function IdOf(o: Obj): Option<Value>
  {
    Prop(o, "id")
  }

  /** `inventory.some(i => i.id === id)`. */
  predicate HasId(inv: seq<Obj>, id: Option<Value>)
  {
    exists i :: 0 <= i < |inv| && IdOf(inv[i]) == id
  }

  /** No two records share an id. */
  predicate UniqueIds(inv: seq<Obj>)
  {
    forall i, j :: 0 <= i < j < |inv| ==> IdOf(inv[i]) != IdOf(inv[j])
  }

  // ---------------------------------------------------------------------
  // the backend row format

  /** `{ id: row.id, ...row.data }`: the record rebuilt from a row; a key
      `id` inside `data` would win over the row's id. */
  function FromRow(row: Row): (o: Obj)
    ensures IdOf(o) == if "id" in row.data then Some(row.data["id"]) else Some(Text(row.id))
    ensures forall k :: k != "id" ==> Prop(o, k) == Prop(row.data, k)
  {
    map["id" := Text(row.id)] + row.data
  }

  /** `const { id, ...data } = asset; { id: String(id), data }`: the row
      written by an upsert. */
  function ToRow(o: Obj): (row: Row)
    ensures "id" !in row.data
    ensures forall k :: k != "id" ==> Prop(row.data, k) == Prop(o, k)
    ensures IdOf(o).Some? && IdOf(o).value.Text? ==> row.id == IdOf(o).value.s
  {
    Row(Show(IdOf(o)), o - {"id"})
  }

  /** Splitting a record with a string id into a row and rebuilding it gives
      the record back. */
  lemma RowRoundTrip(o: Obj)
    requires IdOf(o).Some? && IdOf(o).value.Text?
    ensures FromRow(ToRow(o)) == o
  {
    var r := FromRow(ToRow(o));
    assert r.Keys == o.Keys;
  }

  /** A row whose data has no `id` key survives the rebuild and split. */
  lemma RecordRoundTrip(row: Row)
    requires "id" !in row.data
    ensures ToRow(FromRow(row)) == row
  {
    var back := ToRow(FromRow(row));
    assert back.data.Keys == row.data.Keys;
  }

  // ---------------------------------------------------------------------
  // list edits

  /** UniqueIds holds of every filter of a list with unique ids. */
  lemma FilterKeepsUniqueIds(inv: seq<Obj>, p: Obj -> bool)
    requires UniqueIds(inv)
    ensures UniqueIds(Filter(inv, p))
  {
    var key := (o: Obj) => IdOf(o);
    assert KeysDistinct(inv, key);
    FilterKeepsKeysDistinct(inv, key, p);
    var r := Filter(inv, p);
    assert forall i, j :: 0 <= i < j < |r| ==> key(r[i]) != key(r[j]);
  }

  /** Remote INSERT: `prev.some(i => i.id === item.id) ? prev : [...prev, item]`.
      The item is present afterwards, earlier records keep their order, the
      list grows exactly when the id was absent, and ids stay unique. */
  function InsertNew(inv: seq<Obj>, item: Obj): (r: seq<Obj>)
    ensures |r| == if HasId(inv, IdOf(item)) then |inv| else |inv| + 1
    ensures r[..|inv|] == inv
    ensures !HasId(inv, IdOf(item)) ==> r[|inv|] == item
    ensures HasId(r, IdOf(item))
    ensures UniqueIds(inv) ==> UniqueIds(r)
  {
    if HasId(inv, IdOf(item)) then inv
    else
      var r := inv + [item];
      assert IdOf(r[|inv|]) == IdOf(item);
      r
  }

  /** Remote UPDATE: `prev.map(i => i.id === item.id ? item : i)`. Only the
      records carrying the item's id are replaced, each by the item itself
      (a full replace, not a merge); nothing is inserted. */
  function ReplaceById(inv: seq<Obj>, item: Obj): (r: seq<Obj>)
    ensures |r| == |inv|
    ensures forall i :: 0 <= i < |r| ==> IdOf(r[i]) == IdOf(inv[i])
    ensures forall i :: 0 <= i < |r| && IdOf(r[i]) == IdOf(item) ==> r[i] == item
    ensures forall i :: 0 <= i < |r| && IdOf(r[i]) != IdOf(item) ==> r[i] == inv[i]
    ensures !HasId(inv, IdOf(item)) ==> r == inv
    ensures UniqueIds(inv) ==> UniqueIds(r)
  {
    seq(|inv|, i requires 0 <= i < |inv| => if IdOf(inv[i]) == IdOf(item) then item else inv[i])
  }

  /** `i => i.id !== id`. */
  function OtherId(id: Option<Value>): Obj -> bool
  {
    o => IdOf(o) != id
  }

  /** Remote DELETE and `handleDeleteItem`: `prev.filter(i => i.id !== id)`.
      Every record with the id goes, every other record stays. */
  function RemoveById(inv: seq<Obj>, id: Option<Value>): (r: seq<Obj>)
    ensures forall o :: o in r <==> o in inv && IdOf(o) != id
    ensures !HasId(r, id)
    ensures !HasId(inv, id) ==> r == inv
    ensures UniqueIds(inv) ==> UniqueIds(r)
  {
    var r := Filter(inv, OtherId(id));
    assert !HasId(r, id) by {
      forall i | 0 <= i < |r| ensures IdOf(r[i]) != id { assert r[i] in r; }
    }
    assert UniqueIds(inv) ==> UniqueIds(r) by {
      if UniqueIds(inv) { FilterKeepsUniqueIds(inv, OtherId(id)); }
    }
    assert !HasId(inv, id) ==> r == inv by {
      if !HasId(inv, id) {
        forall o | o in inv ensures OtherId(id)(o) {
          var i :| 0 <= i < |inv| && inv[i] == o;
        }
        FilterAll(inv, OtherId(id));
      }
    }
    r
  }

  /** Removal works element by element: the survivors of a concatenation are
      the survivors of each part, in order. */
  lemma RemoveKeepsOrder(a: seq<Obj>, b: seq<Obj>, id: Option<Value>)
    ensures RemoveById(a + b, id) == RemoveById(a, id) + RemoveById(b, id)
    ensures RemoveById([], id) == []
    ensures forall o :: RemoveById([o], id) == if IdOf(o) == id then [] else [o]
  {
    FilterConcat(a, b, OtherId(id));
  }

  /** Applies one realtime change event; whatever the event, unique ids stay
      unique. */
  function Apply(inv: seq<Obj>, ev: Change): (r: seq<Obj>)
    ensures UniqueIds(inv) ==> UniqueIds(r)
    ensures ev.Update? ==> |r| == |inv|
    ensures ev.Insert? ==> |inv| <= |r| <= |inv| + 1
    ensures ev.Delete? ==> |r| <= |inv|
  {
    match ev
    case Insert(row) => InsertNew(inv, FromRow(row))
    case Update(row) => ReplaceById(inv, FromRow(row))
    case Delete(id) => RemoveById(inv, Some(Text(id)))
  }

  /** Delivering the same event twice has the effect of delivering it once. */
  lemma ApplyIdempotent(inv: seq<Obj>, ev: Change)
    ensures Apply(Apply(inv, ev), ev) == Apply(inv, ev)
  {
    var once := Apply(inv, ev);
    match ev
    case Insert(row) =>
    case Update(row) =>
      var item := FromRow(row);
      assert forall i :: 0 <= i < |once| ==> (if IdOf(once[i]) == IdOf(item) then item else once[i]) == once[i];
    case Delete(id) =>
  }

  /** After an UPDATE every record with the event's id equals the rebuilt
      row, whatever local edit it carried before: the last event wins. */
  lemma UpdateWins(inv: seq<Obj>, row: Row, i: nat)
    requires i < |inv| && IdOf(inv[i]) == IdOf(FromRow(row))
    ensures Apply(inv, Update(row))[i] == FromRow(row)
  {
  }

  // ---------------------------------------------------------------------
  // optimistic local edits

  /** `handleAddItem`: `[...inventory, { ...formData, id: newId }]`. The new
      record carries `newId` whatever the form held, and ids stay unique when
      `newId` is fresh. */
  function AddRecord(inv: seq<Obj>, form: Obj, newId: string): (r: seq<Obj>)
    ensures |r| == |inv| + 1 && r[..|inv|] == inv
    ensures IdOf(r[|inv|]) == Some(Text(newId))
    ensures forall k :: k != "id" ==> Prop(r[|inv|], k) == Prop(form, k)
    ensures UniqueIds(inv) && !HasId(inv, Some(Text(newId))) ==> UniqueIds(r)
  {
    inv + [form["id" := Text(newId)]]
  }

  /** `handleQuickStatusUpdate`:
      `inventory.map(i => i.id === id ? { ...i, status } : i)`. Only the
      `status` field of the records with the id changes. */
  function SetStatus(inv: seq<Obj>, id: Option<Value>, status: string): (r: seq<Obj>)
    ensures |r| == |inv|
    ensures forall i :: 0 <= i < |r| ==>
      Prop(r[i], "status") == if IdOf(inv[i]) == id then Some(Text(status)) else Prop(inv[i], "status")
    ensures forall i, k :: 0 <= i < |r| && k != "status" ==> Prop(r[i], k) == Prop(inv[i], k)
    ensures forall i :: 0 <= i < |r| && IdOf(inv[i]) != id ==> r[i] == inv[i]
    ensures UniqueIds(inv) ==> UniqueIds(r)
  {
    var r := seq(|inv|, i requires 0 <= i < |inv| =>
      if IdOf(inv[i]) == id then inv[i]["status" := Text(status)] else inv[i]);
    assert forall i :: 0 <= i < |r| ==> IdOf(r[i]) == IdOf(inv[i]);
    r
  }
}
