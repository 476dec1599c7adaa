/** The dashboard's state and the handlers that replace it: the record
    list, the column schema, the user list, who is signed in and which
    record the status dialog is open for. Each handler, remote event and
    snapshot load is one atomic step. */
module Dashboard {
  import opened Wrappers
  import opened Strings
  import opened Values
  import opened Records
  import Accounts
  import opened Schema
  import opened CsvImport
  import opened CsvExport
  import opened Views

  /** One of the seeded records: all of them were entered on the same day
      by the same person, in the same circle, for the same material. */
  function Seed(id: string, model: string, nos: int, division: string, substation: string,
                status: string, assignee: string, planned: string, remarks: string): (o: Obj)
    ensures IdOf(o) == Some(Text(id))
  {
    map["id" := Text(id), "date" := Text("2025-11-20"), "assetId" := Text(id),
        "materialType" := Text("BMU"), "modelVariant" := Text(model), "nos" := Num(nos),
        "circle" := Text("HIMMATANAGAR"), "division" := Text(division),
        "substation" := Text(substation), "status" := Text(status),
        "assignedTo" := Text(assignee), "plannedDate" := Text(planned),
        "replacementDate" := Text(""), "remarks" := Text(remarks),
        "lastUpdatedBy" := Text("ADITYA")]
  }

  /** The records the dashboard starts with. */
  function InitialData(): seq<Obj>
  {
    [
      Seed("1", "11kV DC", 2, "AGIYOL", "", "Installed", "HARDIK THAKOR", "2025-11-20", "REQUESTED TO SEND TO AKASH VAIRAGI"),
      Seed("2", "11kV DC", 1, "DHANSURA", "", "Spare", "PIYUSH", "", "11KV RDSS"),
      Seed("3", "11kV DC", 1, "AGIYOL", "RAYGADH", "Installed", "HARSVARDHAN", "2025-11-20", ""),
      Seed("4", "66kV", 1, "IDAR", "", "Spare", "DAKSH", "", ""),
      Seed("5", "11kV DC", 1, "IDAR", "HINGATIYA", "Installed", "DAKSH", "2025-11-20", "11kV PANCHMAHUDA")
    ]
  }

  /** The five seeded records have unique ids. */
  lemma InitialDataUnique()
    ensures |InitialData()| == 5 && UniqueIds(InitialData())
  {
    var inv := InitialData();
    assert IdOf(inv[0]) == Some(Text("1")) && IdOf(inv[1]) == Some(Text("2"));
    assert IdOf(inv[2]) == Some(Text("3")) && IdOf(inv[3]) == Some(Text("4"));
    assert IdOf(inv[4]) == Some(Text("5"));
  }

  /** The rows a snapshot load rebuilds records from. */
  function Snapshot(rows: seq<Row>): (inv: seq<Obj>)
    ensures |inv| == |rows|
  {
    seq(|rows|, i requires 0 <= i < |rows| => FromRow(rows[i]))
  }

  /** The rows the records are saved as. */
  function Saved(inv: seq<Obj>): (rows: seq<Row>)
    ensures |rows| == |inv|
    ensures forall i :: 0 <= i < |inv| ==> "id" !in rows[i].data
  {
    seq(|inv|, i requires 0 <= i < |inv| => ToRow(inv[i]))
  }

  /** Saving records as rows and loading the rows back gives the same
      records, provided every record has a string id. */
  lemma SnapshotOfSaved(inv: seq<Obj>)
    requires forall i :: 0 <= i < |inv| ==> IdOf(inv[i]).Some? && IdOf(inv[i]).value.Text?
    ensures Snapshot(Saved(inv)) == inv
  {
    forall i | 0 <= i < |inv| ensures Snapshot(Saved(inv))[i] == inv[i] {
      Records.RowRoundTrip(inv[i]);
    }
  }

  class App {
    var inventory: seq<Obj>
    var columns: seq<Column>
    var users: seq<Accounts.User>
    var currentUser: Option<Accounts.User>
    /** The record the quick status dialog is open for. */
    var selected: Option<Obj>

    /** Record ids are unique, column ids are unique and none is `id`, user
        names are unique and the protected admin account is intact. */
    predicate Valid()
      reads this
    {
      UniqueIds(inventory) && UniqueColumnIds(columns) && !HasColumnId(columns, "id")
      && Accounts.UniqueNames(users) && Accounts.AdminIntact(users)
    }

    /** The initial state: the seeded records, the default schema and
        accounts, nobody signed in. */
    constructor()
      ensures inventory == InitialData() && columns == InitialColumns && users == Accounts.DefaultUsers
      ensures currentUser == None && selected == None
      ensures Valid()
    {
      inventory := InitialData();
      columns := InitialColumns;
      users := Accounts.DefaultUsers;
      currentUser := None;
      selected := None;
      InitialColumnsWellFormed();
      InitialDataUnique();
      assert Accounts.DefaultUsers[0].username == Accounts.AdminName;
    }

    /** The realtime handler: a change event from the backend is applied to
        the record list, and nothing else changes. */
    method OnRealtime(ev: Change)
      modifies this
      ensures inventory == Apply(old(inventory), ev)
      ensures columns == old(columns) && users == old(users)
      ensures currentUser == old(currentUser) && selected == old(selected)
      ensures old(Valid()) ==> Valid()
    {
      inventory := Apply(inventory, ev);
    }

    /** `refreshDataFromDb` once both queries have answered: a non-empty
        list of rows replaces the records (an empty one keeps them), and a
        stored schema or user list replaces the current one. */
    method LoadSnapshot(rows: seq<Row>, remoteColumns: Option<seq<Column>>, remoteUsers: Option<seq<Accounts.User>>)
      modifies this
      ensures inventory == if rows == [] then old(inventory) else Snapshot(rows)
      ensures columns == old(remoteColumns.GetOr(columns))
      ensures users == old(remoteUsers.GetOr(users))
      ensures currentUser == old(currentUser) && selected == old(selected)
    {
      if |rows| > 0 {
        var flat: seq<Obj> := [];
        var i := 0;
        while i < |rows|
          invariant 0 <= i <= |rows|
          invariant flat == Snapshot(rows[..i])
        {
          assert Snapshot(rows[..i + 1]) == Snapshot(rows[..i]) + [FromRow(rows[i])];
          flat := flat + [FromRow(rows[i])];
          i := i + 1;
        }
        assert rows[..i] == rows;
        inventory := flat;
      }
      if remoteColumns.Some? {
        columns := remoteColumns.value;
      }
      if remoteUsers.Some? {
        users := remoteUsers.value;
      }
    }

    /** `handleLogin`: the first account whose name matches ignoring case
        and whose password matches exactly becomes the current user; on a
        failed attempt the current user stays. */
    method Login(name: string, password: string) returns (ok: bool)
      modifies this
      ensures ok <==> Accounts.FindLogin(users, name, password).Some?
      ensures currentUser == if ok then Accounts.FindLogin(users, name, password) else old(currentUser)
      ensures inventory == old(inventory) && columns == old(columns) && users == old(users)
      ensures selected == old(selected)
    {
      var found := Accounts.FindLogin(users, name, password);
      ok := found.Some?;
      if ok {
        currentUser := found;
      }
    }

    /** `handleLogout`. */
    method Logout()
      modifies this
      ensures currentUser == None
      ensures !Accounts.CanEdit(currentUser) && !Accounts.CanManageUsers(currentUser)
      ensures inventory == old(inventory) && columns == old(columns) && users == old(users)
      ensures selected == old(selected)
    {
      currentUser := None;
    }

    /** `handleAddItem`: for an editor, the form's fields with the id
        `now` in decimal are appended; otherwise nothing changes. A fresh
        id keeps record ids unique. */
    method AddItem(form: Obj, now: nat)
      modifies this
      ensures inventory == if Accounts.CanEdit(currentUser) then AddRecord(old(inventory), form, NatString(now)) else old(inventory)
      ensures columns == old(columns) && users == old(users)
      ensures currentUser == old(currentUser) && selected == old(selected)
      ensures old(Valid()) && !HasId(old(inventory), Some(Text(NatString(now)))) ==> Valid()
    {
      if !Accounts.CanEdit(currentUser) {
        return;
      }
      inventory := AddRecord(inventory, form, NatString(now));
    }

    /** `handleDeleteItem`: for an editor, every record with this id goes,
        the rest keep their order; otherwise nothing changes. */
    method DeleteItem(id: string)
      modifies this
      ensures inventory == if Accounts.CanEdit(currentUser) then RemoveById(old(inventory), Some(Text(id))) else old(inventory)
      ensures Accounts.CanEdit(currentUser) ==> !HasId(inventory, Some(Text(id)))
      ensures columns == old(columns) && users == old(users)
      ensures currentUser == old(currentUser) && selected == old(selected)
      ensures old(Valid()) ==> Valid()
    {
      if !Accounts.CanEdit(currentUser) {
        return;
      }
      inventory := RemoveById(inventory, Some(Text(id)));
    }

    /** Opening the quick status dialog on a record. */
    method OpenStatusDialog(item: Obj)
      modifies this
      ensures selected == Some(item)
      ensures inventory == old(inventory) && columns == old(columns) && users == old(users)
      ensures currentUser == old(currentUser)
    {
      selected := Some(item);
    }

    /** `handleQuickStatusUpdate`: for an editor with a record selected,
        every record with the selected record's id gets the new status and
        the dialog closes; otherwise nothing changes. */
    method QuickStatusUpdate(status: string)
      modifies this
      ensures Accounts.CanEdit(currentUser) && old(selected).Some? ==>
        inventory == SetStatus(old(inventory), IdOf(old(selected).value), status) && selected == None
      ensures !(Accounts.CanEdit(currentUser) && old(selected).Some?) ==>
        inventory == old(inventory) && selected == old(selected)
      ensures columns == old(columns) && users == old(users) && currentUser == old(currentUser)
      ensures old(Valid()) ==> Valid()
    {
      if !Accounts.CanEdit(currentUser) {
        return;
      }
      if selected.None? {
        return;
      }
      inventory := SetStatus(inventory, IdOf(selected.value), status);
      selected := None;
    }

    /** `handleFileUpload` once the file is read: for an editor, the
        records parsed from the text are appended after the existing ones;
        otherwise nothing changes. Ids stay unique when the ids the upload
        generates are fresh. */
    method FileUpload(text: string, now: nat -> nat, parseFloat: Parser)
      modifies this
      ensures inventory == if Accounts.CanEdit(currentUser) then old(inventory) + ImportRecords(text, old(columns), now, parseFloat) else old(inventory)
      ensures columns == old(columns) && users == old(users)
      ensures currentUser == old(currentUser) && selected == old(selected)
      ensures old(Valid()) && FreshImportIds(old(inventory), text, now) ==> Valid()
    {
      if !Accounts.CanEdit(currentUser) {
        return;
      }
      var newItems := ParseImport(text, columns, now, parseFloat);
      if Valid() && FreshImportIds(inventory, text, now) {
        ImportKeepsUniqueIds(inventory, text, columns, now, parseFloat);
      }
      inventory := inventory + newItems;
    }

    /** `handleExportCSV`: the date-filtered records under the current
        schema, as CSV text. */
    method Export(start: string, end: string, dateOf: Value -> Option<int>) returns (csv: string)
      ensures csv == ExportCsv(History(inventory, start, end, dateOf), columns)
    {
      var items := History(inventory, start, end, dateOf);
      csv := ExportCsv(items, columns);
    }

    /** `handleCreateUser`: a new name is appended, a taken one is
        refused. */
    method CreateUser(u: Accounts.User)
      modifies this
      ensures users == Accounts.CreateUser(old(users), u)
      ensures inventory == old(inventory) && columns == old(columns)
      ensures currentUser == old(currentUser) && selected == old(selected)
      ensures old(Valid()) ==> Valid()
    {
      users := Accounts.CreateUser(users, u);
    }

    /** `handleDeleteUser`: every account with the name goes, except the
        protected admin account. */
    method DeleteUser(name: string)
      modifies this
      ensures users == Accounts.DeleteUser(old(users), name)
      ensures inventory == old(inventory) && columns == old(columns)
      ensures currentUser == old(currentUser) && selected == old(selected)
      ensures old(Valid()) ==> Valid()
    {
      users := Accounts.DeleteUser(users, name);
    }

    /** `handleUpdateRole`: the named account gets the role, unless that
        would demote the admin account. */
    method UpdateRole(name: string, role: Accounts.Role)
      modifies this
      ensures users == Accounts.UpdateRole(old(users), name, role)
      ensures inventory == old(inventory) && columns == old(columns)
      ensures currentUser == old(currentUser) && selected == old(selected)
      ensures old(Valid()) ==> Valid()
    {
      users := Accounts.UpdateRole(users, name, role);
    }

    /** `handleAddColumn`: for a super admin, a text column keyed
        `custom_` and `now` in decimal is appended; otherwise nothing
        changes. */
    method AddColumn(now: nat)
      modifies this
      ensures columns == if Accounts.CanManageUsers(currentUser) then old(columns) + [NewField("custom_" + NatString(now))] else old(columns)
      ensures inventory == old(inventory) && users == old(users)
      ensures currentUser == old(currentUser) && selected == old(selected)
      ensures old(Valid()) && !HasColumnId(old(columns), "custom_" + NatString(now)) ==> Valid()
    {
      if !Accounts.CanManageUsers(currentUser) {
        return;
      }
      var id := "custom_" + NatString(now);
      assert id[0] == 'c';
      columns := columns + [NewField(id)];
    }

    /** `handleUpdateColumn`: for a super admin, the patch is merged into
        the column at `index`, whose id stays; otherwise nothing changes. */
    method UpdateColumn(index: nat, patch: ColumnPatch)
      requires index < |columns|
      modifies this
      ensures columns == if Accounts.CanManageUsers(currentUser) then old(columns)[index := ApplyPatch(old(columns)[index], patch)] else old(columns)
      ensures |columns| == |old(columns)|
      ensures forall i :: 0 <= i < |columns| ==> columns[i].id == old(columns)[i].id
      ensures inventory == old(inventory) && users == old(users)
      ensures currentUser == old(currentUser) && selected == old(selected)
      ensures old(Valid()) ==> Valid()
    {
      if !Accounts.CanManageUsers(currentUser) {
        return;
      }
      columns := columns[index := ApplyPatch(columns[index], patch)];
    }

    /** `handleDeleteColumn`: for a super admin, the column at `index` goes
        (an index out of range removes nothing); otherwise nothing
        changes. */
    method DeleteColumn(index: int)
      modifies this
      ensures columns == if Accounts.CanManageUsers(currentUser) then RemoveAt(old(columns), index) else old(columns)
      ensures inventory == old(inventory) && users == old(users)
      ensures currentUser == old(currentUser) && selected == old(selected)
      ensures old(Valid()) ==> Valid()
    {
      if !Accounts.CanManageUsers(currentUser) {
        return;
      }
      var r := RemoveAt(columns, index);
      if Valid() {
        RemoveAtKeepsUnique(columns, index);
        forall k | 0 <= k < |r| ensures r[k].id != "id" {
          assert r[k] in columns;
        }
      }
      columns := r;
    }

    /** `handleResetData`: once the user confirms, the records and the
        schema go back to the seeded records and the default columns
        (clearing the local backup is not modelled); otherwise nothing
        changes. A reset leaves ids unique and the schema well formed
        whatever came before. */
    method ResetData(confirmed: bool)
      modifies this
      ensures inventory == if confirmed then InitialData() else old(inventory)
      ensures columns == if confirmed then InitialColumns else old(columns)
      ensures users == old(users) && currentUser == old(currentUser) && selected == old(selected)
      ensures confirmed ==> UniqueIds(inventory) && UniqueColumnIds(columns) && !HasColumnId(columns, "id")
      ensures old(Valid()) ==> Valid()
    {
      if confirmed {
        InitialDataUnique();
        InitialColumnsWellFormed();
        inventory := InitialData();
        columns := InitialColumns;
      }
    }
  }
}
