/**
 `up` of src-tauri/migration/src/m20260215_000008_add_cascade_delete_to_sessions.rs: the
 rebuild of the `sessions` table, statement by statement, where each statement may fail and
 the process may die after any of them.
 */
module SessionsMigration {
  import opened Wrappers

  /** `core` stands for the columns that every version of the table has. */
  datatype Row = Row(id: string, core: string, provider: Option<string>, model: Option<string>)

  /** `modelColumns` says whether the columns provider and model exist, `cascades` whether the parent link does. */
  datatype Table = Table(rows: set<Row>, modelColumns: bool, cascades: bool)

  /** A row of a table that references `sessions` with ON DELETE CASCADE. */
  datatype Child = Child(id: string, sessionId: string)

  datatype Index = ParentIndex | LineageIndex

  const BOTH: set<Index> := {ParentIndex, LineageIndex}

  /** The database file, and the foreign-key switch of the connection. */
  datatype Db = Db(
    sessions: Option<Table>,
    sessionsNew: Option<Table>,
    children: set<Child>,
    indexes: set<Index>,
    foreignKeys: bool
  )

  /** What comes of a statement, or of the whole migration: `Crashed` means that the process died after it. */
  datatype Outcome = Done | Failed | Crashed

  /** What becomes of each statement of a run, should the run get to it and the statement be possible. */
  datatype Fates = Fates(
    readSessions: Outcome,
    readNew: Outcome,
    dropNew: Outcome,
    keysOff: Outcome,
    create: Outcome,
    copy: Outcome,
    simpleCopy: Outcome,
    drop: Outcome,
    rename: Outcome,
    parentIndex: Outcome,
    lineageIndex: Outcome,
    keysOn: Outcome
  )

  const NO_FAULTS := Fates(Done, Done, Done, Done, Done, Done, Done, Done, Done, Done, Done, Done)

  datatype Result = Result(db: Db, o: Outcome)

  /** What the simpler copy makes of a row. */
  function Stripped(row: Row): Row {
    row.(provider := None, model := None)
  }

  function AllStripped(rows: set<Row>): set<Row> {
    set row | row in rows :: Stripped(row)
  }

  predicate References(c: Child, table: Option<Table>) {
    table.Some? && exists row :: row in table.value.rows && row.id == c.sessionId
  }

  /******* Statements *******/

  /** A statement has all of its effect or none; an impossible one fails. */
  function Statement(db: Db, possible: bool, fate: Outcome, after: Db): Result {
    if fate.Failed? || !possible then Result(db, Failed) else Result(after, fate)
  }

  function SetForeignKeys(db: Db, on: bool, fate: Outcome): Result {
    Statement(db, true, fate, db.(foreignKeys := on))
  }

  function DropNew(db: Db, fate: Outcome): Result {
    Statement(db, true, fate, db.(sessionsNew := None))
  }

  function Create(db: Db, fate: Outcome): Result {
    Statement(db, db.sessionsNew.None?, fate, db.(sessionsNew := Some(Table({}, true, true))))
  }

  /** `INSERT INTO sessions_new ... SELECT ... FROM sessions`, with or without provider and model. */
  function Copy(db: Db, withModel: bool, fate: Outcome): Result {
    if db.sessions.None? || db.sessionsNew.None? || (withModel && !db.sessions.value.modelColumns) then
      Result(db, Failed)
    else
      var rows := if withModel then db.sessions.value.rows else AllStripped(db.sessions.value.rows);
      Statement(db, true, fate, db.(sessionsNew := Some(db.sessionsNew.value.(rows := rows))))
  }

  /** Dropping `sessions` drops its indexes and, with foreign keys on, deletes the rows that reference it. */
  function Drop(db: Db, fate: Outcome): Result {
    var left := if db.foreignKeys then set c | c in db.children && !References(c, db.sessions) else db.children;
    Statement(db, true, fate, db.(sessions := None, indexes := {}, children := left))
  }

  function Rename(db: Db, fate: Outcome): Result {
    Statement(db, db.sessions.None? && db.sessionsNew.Some?, fate,
              db.(sessions := db.sessionsNew, sessionsNew := None))
  }

  function CreateIndex(db: Db, index: Index, fate: Outcome): Result {
    Statement(db, db.sessions.Some?, fate, db.(indexes := db.indexes + {index}))
  }

  /******* One run *******/

  function Indexed(db: Db, f: Fates): Result {
    var a := CreateIndex(db, ParentIndex, f.parentIndex);
    if !a.o.Done? then a else CreateIndex(a.db, LineageIndex, f.lineageIndex)
  }

  /** Lines 45-50 and 133-138: rename and index. */
  function Recovered(db: Db, f: Fates): Result {
    var a := Rename(db, f.rename);
    if !a.o.Done? then a else Indexed(a.db, f)
  }

  /** Lines 102-127: the copy and, if it fails, the simpler one. */
  function Copied(db: Db, f: Fates): Result {
    var a := Copy(db, true, f.copy);
    if a.o.Failed? then Copy(a.db, false, f.simpleCopy) else a
  }

  /** Lines 66-140: create, copy, drop, rename, index. */
  function Rebuilt(db: Db, f: Fates): Result {
    var a := Create(db, f.create);
    if !a.o.Done? then a
    else
      var b := Copied(a.db, f);
      if !b.o.Done? then b
      else
        var c := Drop(b.db, f.drop);
        if !c.o.Done? then c else Recovered(c.db, f)
  }

  /** The body between the two switches of the foreign keys; its error comes before that of the second. */
  function Switched(db: Db, f: Fates, recovering: bool): Result {
    var a := SetForeignKeys(db, false, f.keysOff);
    if !a.o.Done? then a
    else
      var b := if recovering then Recovered(a.db, f) else Rebuilt(a.db, f);
      if b.o.Crashed? then b
      else
        var c := SetForeignKeys(b.db, true, f.keysOn);
        if c.o.Crashed? || b.o.Done? then c else Result(c.db, b.o)
  }

  function Migrated(db: Db, f: Fates): Result {
    if !f.readSessions.Done? then Result(db, f.readSessions)
    else if !f.readNew.Done? then Result(db, f.readNew)
    else if db.sessions.None? && db.sessionsNew.Some? then Switched(db, f, true)
    else
      var a := if db.sessionsNew.Some? then DropNew(db, f.dropNew) else Result(db, Done);
      if !a.o.Done? then a else Switched(a.db, f, false)
  }

  /******* The migration as it runs *******/

  class Database {
    var sessions: Option<Table>
    var sessionsNew: Option<Table>
    var children: set<Child>
    var indexes: set<Index>
    var foreignKeys: bool

    function Current(): Db
      reads this
    {
      Db(sessions, sessionsNew, children, indexes, foreignKeys)
    }

    method PragmaForeignKeys(on: bool, fate: Outcome) returns (o: Outcome)
      modifies this`foreignKeys
      ensures Result(Current(), o) == SetForeignKeys(old(Current()), on, fate)
    {
      o := fate;
      if o != Failed {
        foreignKeys := on;
      }
    }

    method DropSessionsNew(fate: Outcome) returns (o: Outcome)
      modifies this`sessionsNew
      ensures Result(Current(), o) == DropNew(old(Current()), fate)
    {
      o := fate;
      if o != Failed {
        sessionsNew := None;
      }
    }

    method CreateSessionsNew(fate: Outcome) returns (o: Outcome)
      modifies this`sessionsNew
      ensures Result(Current(), o) == Create(old(Current()), fate)
    {
      o := if sessionsNew.Some? then Failed else fate;
      if o != Failed {
        sessionsNew := Some(Table({}, true, true));
      }
    }

    method CopySessions(withModel: bool, fate: Outcome) returns (o: Outcome)
      modifies this`sessionsNew
      ensures Result(Current(), o) == Copy(old(Current()), withModel, fate)
      ensures o == Failed ==> sessionsNew == old(sessionsNew)
      ensures o != Failed ==>
                && sessions.Some? && sessionsNew.Some?
                && sessionsNew.value.rows == if withModel then sessions.value.rows else AllStripped(sessions.value.rows)
      ensures fate == Done && Copy(old(Current()), withModel, Done).o.Done? ==> o == Done
    {
      if sessions.None? || sessionsNew.None? || (withModel && !sessions.value.modelColumns) {
        return Failed;
      }
      o := fate;
      if o != Failed {
        var rows := if withModel then sessions.value.rows else AllStripped(sessions.value.rows);
        sessionsNew := Some(sessionsNew.value.(rows := rows));
      }
    }

    method DropSessions(fate: Outcome) returns (o: Outcome)
      modifies this`sessions, this`indexes, this`children
      ensures Result(Current(), o) == Drop(old(Current()), fate)
      ensures o == Failed ==> Current() == old(Current())
      ensures o != Failed ==> sessions == None && indexes == {}
      ensures o != Failed && !foreignKeys ==> children == old(children)
      ensures o != Failed && foreignKeys ==> forall c :: c in children ==> !References(c, old(sessions))
    {
      o := fate;
      if o != Failed {
        if foreignKeys {
          children := set c | c in children && !References(c, sessions);
        }
        sessions, indexes := None, {};
      }
    }

    method RenameSessionsNew(fate: Outcome) returns (o: Outcome)
      modifies this`sessions, this`sessionsNew
      ensures Result(Current(), o) == Rename(old(Current()), fate)
    {
      o := if sessions.Some? || sessionsNew.None? then Failed else fate;
      if o != Failed {
        sessions, sessionsNew := sessionsNew, None;
      }
    }

    method AddIndex(index: Index, fate: Outcome) returns (o: Outcome)
      modifies this`indexes
      ensures Result(Current(), o) == CreateIndex(old(Current()), index, fate)
    {
      o := if sessions.None? then Failed else fate;
      if o != Failed {
        indexes := indexes + {index};
      }
    }

    method RecreateSessionsIndexes(f: Fates) returns (o: Outcome)
      modifies this`indexes
      ensures Result(Current(), o) == Indexed(old(Current()), f)
      ensures o == Done ==> BOTH <= indexes
    {
      o := AddIndex(ParentIndex, f.parentIndex);
      if o != Done {
        return;
      }
      o := AddIndex(LineageIndex, f.lineageIndex);
    }

    method Recover(f: Fates) returns (o: Outcome)
      modifies this`sessions, this`sessionsNew, this`indexes
      ensures Result(Current(), o) == Recovered(old(Current()), f)
    {
      o := RenameSessionsNew(f.rename);
      if o != Done {
        return;
      }
      o := RecreateSessionsIndexes(f);
    }

    method Rebuild(f: Fates) returns (o: Outcome)
      modifies this`sessions, this`sessionsNew, this`indexes, this`children
      ensures Result(Current(), o) == Rebuilt(old(Current()), f)
    {
      o := CreateSessionsNew(f.create);
      if o != Done {
        return;
      }
      o := CopySessions(true, f.copy);
      if o == Failed {
        o := CopySessions(false, f.simpleCopy);
      }
      if o != Done {
        return;
      }
      o := DropSessions(f.drop);
      if o != Done {
        return;
      }
      o := Recover(f);
    }

    /** `up` */
    method Up(f: Fates) returns (o: Outcome)
      modifies this
      ensures Result(Current(), o) == Migrated(old(Current()), f)
      ensures Tidy(old(Current())) ==> Keeps(old(Current()), f, Result(Current(), o))
    {
      if Tidy(Current()) {
        MigratedKeeps(Current(), f);
      }
      if f.readSessions != Done {
        return f.readSessions;
      }
      var sessionsExists := sessions.Some?;
      if f.readNew != Done {
        return f.readNew;
      }
      var sessionsNewExists := sessionsNew.Some?;
      var recovering := !sessionsExists && sessionsNewExists;
      if !recovering && sessionsNewExists {
        o := DropSessionsNew(f.dropNew);
        if o != Done {
          return;
        }
      }
      o := PragmaForeignKeys(false, f.keysOff);
      if o != Done {
        return;
      }
      if recovering {
        o := Recover(f);
      } else {
        o := Rebuild(f);
      }
      if o == Crashed {
        return;
      }
      var reenable := PragmaForeignKeys(true, f.keysOn);
      if reenable == Crashed || o == Done {
        o := reenable;
      }
    }

    /** The start-ups of the application, each on a new connection, until the migration is done. */
    method StartUps(fs: seq<Fates>) returns (o: Outcome, n: nat)
      requires Tidy(Current())
      modifies this
      ensures n <= |fs| && Current() == AfterRuns(old(Current()), fs[..n]) && Tidy(Current())
      ensures if o == Done then Complete(Current()) else n == |fs|
    {
      o, n := Failed, 0;
      while n < |fs|
        invariant n <= |fs| && Current() == AfterRuns(old(Current()), fs[..n]) && Tidy(Current())
        invariant o != Done
      {
        assert fs[..n + 1][..n] == fs[..n];
        foreignKeys := true;
        o := Up(fs[n]);
        n := n + 1;
        if o == Done {
          return;
        }
      }
    }

    /** After any number of failed or crashed runs, one without faults completes. */
    method EventuallyCompletes(fs: seq<Fates>) returns (n: nat)
      requires Tidy(Current())
      modifies this
      ensures Complete(Current()) && children == old(children) && n <= |fs|
      ensures Rows(Current()) == if SomeRunStrips(old(Current()), fs[..n]) then AllStripped(Rows(old(Current())))
                                 else Rows(old(Current()))
    {
      var o;
      o, n := StartUps(fs);
      AfterRunsKeeps(old(Current()), fs[..n]);
      if o != Done {
        foreignKeys := true;
        NoFaultsCompletes(Current());
        o := Up(NO_FAULTS);
      }
    }
  }

  /******* What a run keeps *******/

  predicate HasTable(db: Db) {
    db.sessions.Some? || db.sessionsNew.Some?
  }

  /** The table that holds the sessions: `sessions`, or once that is dropped `sessions_new`. */
  function Content(db: Db): Table
    requires HasTable(db)
  {
    if db.sessions.Some? then db.sessions.value else db.sessionsNew.value
  }

  function Rows(db: Db): set<Row>
    requires HasTable(db)
  {
    Content(db).rows
  }

  /** The sessions are there, indexes are those of the migration, and a lone `sessions_new` is one that it made. */
  predicate Tidy(db: Db) {
    && HasTable(db)
    && (!Content(db).modelColumns ==> Rows(db) == AllStripped(Rows(db)))
    && db.indexes <= BOTH
    && (db.sessions.None? ==> db.indexes == {} && db.sessionsNew.value.cascades)
  }

  /** The state that the migration aims for. */
  predicate Complete(db: Db) {
    && db.sessions.Some? && db.sessions.value.cascades && db.sessionsNew.None?
    && db.indexes == BOTH && db.foreignKeys
  }

  /** The run gets as far as dropping `sessions`, and the statement takes effect. */
  predicate Drops(db: Db, f: Fates) {
    && db.sessions.Some?
    && f.readSessions.Done? && f.readNew.Done? && (db.sessionsNew.Some? ==> f.dropNew.Done?)
    && f.keysOff.Done? && f.create.Done?
    && (if f.copy.Failed? || !db.sessions.value.modelColumns then f.simpleCopy.Done? else f.copy.Done?)
    && !f.drop.Failed?
  }

  /** It drops a table that has the columns, and its first copy has failed. */
  predicate Strips(db: Db, f: Fates) {
    Drops(db, f) && db.sessions.value.modelColumns && f.copy.Failed?
  }

  /** No row and no child row is lost, provider and model exactly if the run strips, and a completed run is complete. */
  predicate Keeps(db: Db, f: Fates, r: Result)
    requires HasTable(db)
  {
    && Tidy(r.db) && r.db.children == db.children
    && Rows(r.db) == (if Strips(db, f) then AllStripped(Rows(db)) else Rows(db))
    && (r.o.Done? ==> Complete(r.db))
  }

  lemma AllStrippedTwice(rows: set<Row>)
    ensures AllStripped(AllStripped(rows)) == AllStripped(rows)
  {
    forall row | row in AllStripped(rows)
      ensures row in AllStripped(AllStripped(rows))
    {
      var r :| r in rows && Stripped(r) == row;
      assert Stripped(row) == row;
    }
    forall row | row in AllStripped(AllStripped(rows))
      ensures row in AllStripped(rows)
    {
      var r :| r in AllStripped(rows) && Stripped(r) == row;
      var r0 :| r0 in rows && Stripped(r0) == r;
      assert Stripped(r0) == row;
    }
  }

  lemma RecoveredKeeps(db: Db, f: Fates)
    requires Tidy(db) && db.sessions.None?
    ensures var r := Recovered(db, f);
            && Tidy(r.db) && r.db.children == db.children && Rows(r.db) == Rows(db)
            && r.db.foreignKeys == db.foreignKeys
            && (r.o.Done? ==> Complete(r.db.(foreignKeys := true)))
  {
  }

  /** After the copies `sessions_new` holds the rows as the second one leaves them, if it had to run. */
  lemma CopiedRows(db: Db, f: Fates)
    requires Tidy(db) && db.sessions.Some? && db.sessionsNew == Some(Table({}, true, true))
    ensures var r, simple := Copied(db, f), f.copy.Failed? || !db.sessions.value.modelColumns;
            && r.db == db.(sessionsNew := r.db.sessionsNew) && r.db.sessionsNew.Some?
            && (r.o.Done? <==> if simple then f.simpleCopy.Done? else f.copy.Done?)
            && (r.o.Done? ==> r.db.sessionsNew.value.cascades && r.db.sessionsNew.value.modelColumns
                              && r.db.sessionsNew.value.rows == if simple then AllStripped(Rows(db)) else Rows(db))
  {
  }

  lemma RebuiltKeeps(db: Db, f: Fates)
    requires Tidy(db) && db.sessions.Some? && db.sessionsNew.None? && !db.foreignKeys
    requires f.readSessions.Done? && f.readNew.Done? && f.keysOff.Done?
    ensures var r := Rebuilt(db, f);
            && Tidy(r.db) && r.db.children == db.children
            && Rows(r.db) == (if Strips(db, f) then AllStripped(Rows(db)) else Rows(db))
            && (r.o.Done? ==> Complete(r.db.(foreignKeys := true)))
            && (!Drops(db, f) ==> r.db.sessions == db.sessions)
            && (Drops(db, f) ==> r.db.sessions.None? || r.db.sessions.value.cascades)
  {
    var a := Create(db, f.create);
    if a.o.Done? {
      CopiedRows(a.db, f);
      var b := Copied(a.db, f);
      if b.o.Done? {
        var c := Drop(b.db, f.drop);
        if !f.drop.Failed? {
          assert Drops(db, f);
          AllStrippedTwice(Rows(db));
          RecoveredKeeps(c.db, f);
        }
      }
    }
  }

  lemma RecoveringKeeps(db: Db, f: Fates)
    requires Tidy(db) && db.sessions.None?
    ensures Keeps(db, f, Switched(db, f, true))
  {
    RecoveredKeeps(db.(foreignKeys := false), f);
  }

  lemma RebuildingKeeps(db: Db, f: Fates)
    requires Tidy(db) && db.sessions.Some? && db.sessionsNew.None? && f.readSessions.Done? && f.readNew.Done?
    ensures Keeps(db, f, Switched(db, f, false))
  {
    if f.keysOff.Done? {
      RebuiltKeeps(db.(foreignKeys := false), f);
    }
  }

  lemma MigratedKeeps(db: Db, f: Fates)
    requires Tidy(db)
    ensures Keeps(db, f, Migrated(db, f))
  {
    if f.readSessions.Done? && f.readNew.Done? {
      if db.sessions.None? {
        RecoveringKeeps(db, f);
      } else if db.sessionsNew.Some? ==> f.dropNew.Done? {
        RebuildingKeeps(db.(sessionsNew := None), f);
      }
    }
  }

  /** `Drops` means what it says: from a table that does not cascade yet, it holds if and only if the table is gone. */
  lemma DropsExactlyWhen(db: Db, f: Fates)
    requires Tidy(db) && db.sessions.Some? && !db.sessions.value.cascades
    ensures Drops(db, f) <==> Migrated(db, f).db.sessions != db.sessions
  {
    if f.readSessions.Done? && f.readNew.Done? && f.keysOff.Done? {
      if db.sessionsNew.Some? ==> f.dropNew.Done? {
        RebuiltKeeps(db.(sessionsNew := None, foreignKeys := false), f);
      }
    }
  }

  /******* The foreign-key switch *******/

  /** What the switch is for: with foreign keys on, dropping the table takes the rows that belong to its sessions. */
  lemma DropTakesChildren(db: Db, c: Child)
    requires db.foreignKeys && db.sessions.Some? && c in db.children
    ensures c in Drop(db, Done).db.children <==>
              forall row :: row in db.sessions.value.rows ==> row.id != c.sessionId
  {
  }

  lemma BodyKeepsKeys(db: Db, f: Fates)
    ensures Recovered(db, f).db.foreignKeys == db.foreignKeys && Rebuilt(db, f).db.foreignKeys == db.foreignKeys
  {
  }

  /** The run gets as far as switching foreign keys off, and the statement takes effect. */
  predicate SwitchesOff(db: Db, f: Fates) {
    && f.readSessions.Done? && f.readNew.Done?
    && (db.sessions.Some? && db.sessionsNew.Some? ==> f.dropNew.Done?)
    && f.keysOff.Done?
  }

  /**
   However a run ends, unless the process dies, its connection has foreign keys on again, except if
   it switched them off and switching them on failed.
   */
  lemma KeysOnExactlyWhen(db: Db, f: Fates)
    requires db.foreignKeys && !Migrated(db, f).o.Crashed?
    ensures Migrated(db, f).db.foreignKeys <==> !(SwitchesOff(db, f) && f.keysOn.Failed?)
  {
    BodyKeepsKeys(db.(foreignKeys := false), f);
    BodyKeepsKeys(db.(foreignKeys := false, sessionsNew := None), f);
  }

  /** Without faults a run completes and keeps every row in full. */
  lemma NoFaultsCompletes(db: Db)
    requires Tidy(db)
    ensures var r := Migrated(db, NO_FAULTS); r.o.Done? && Complete(r.db) && Rows(r.db) == Rows(db)
  {
    MigratedKeeps(db, NO_FAULTS);
  }

  /******* When provider and model are lost *******/

  /** If nothing but the first copy fails, the run completes and no row has a provider or a model any more. */
  lemma FailedCopyStrips(db: Db)
    requires Tidy(db) && db.sessions.Some? && db.sessions.value.modelColumns
    ensures var r := Migrated(db, NO_FAULTS.(copy := Failed));
            r.o.Done? && Complete(r.db) && Rows(r.db) == AllStripped(Rows(db))
  {
    MigratedKeeps(db, NO_FAULTS.(copy := Failed));
  }

  /** One session with a provider and a model, and a first copy that fails. */
  lemma LossyRun()
    ensures var row := Row("s", "", Some("p"), Some("m"));
            var db := Db(Some(Table({row}, true, false)), None, {Child("c", "s")}, {}, true);
            var r := Migrated(db, NO_FAULTS.(copy := Failed));
            && Tidy(db) && r.o.Done? && r.db.children == db.children
            && Rows(r.db) == {Row("s", "", None, None)} && row !in Rows(r.db)
  {
    var row := Row("s", "", Some("p"), Some("m"));
    var db := Db(Some(Table({row}, true, false)), None, {Child("c", "s")}, {}, true);
    FailedCopyStrips(db);
    assert AllStripped({row}) == {Stripped(row)};
  }

  /** A new connection has foreign keys on (src-tauri/src/lifecycle/database.rs:111). */
  function Opened(db: Db): Db {
    db.(foreignKeys := true)
  }

  /** The database after one run after another. */
  function AfterRuns(db: Db, fs: seq<Fates>): Db {
    if fs == [] then db else Migrated(Opened(AfterRuns(db, fs[..|fs| - 1])), fs[|fs| - 1]).db
  }

  predicate StripsAt(db: Db, fs: seq<Fates>, i: nat) {
    i < |fs| && Strips(Opened(AfterRuns(db, fs[..i])), fs[i])
  }

  predicate SomeRunStrips(db: Db, fs: seq<Fates>) {
    exists i :: 0 <= i < |fs| && StripsAt(db, fs, i)
  }

  lemma StripsInFront(db: Db, fs: seq<Fates>, i: nat)
    requires i + 1 < |fs|
    ensures StripsAt(db, fs, i) <==> StripsAt(db, fs[..|fs| - 1], i)
  {
    assert fs[..|fs| - 1][..i] == fs[..i];
  }

  lemma SomeRunStripsOneMore(db: Db, fs: seq<Fates>)
    requires fs != []
    ensures SomeRunStrips(db, fs) <==> SomeRunStrips(db, fs[..|fs| - 1]) || StripsAt(db, fs, |fs| - 1)
  {
    var front := fs[..|fs| - 1];
    forall i | 0 <= i < |front|
      ensures StripsAt(db, front, i) <==> StripsAt(db, fs, i)
    {
      StripsInFront(db, fs, i);
    }
  }

  /**
   Over any number of runs, wherever each fails or crashes, no session and no child row is lost, and
   provider and model are lost if and only if a run drops a table with these columns after its first
   copy failed.
   */
  lemma {:induction false} AfterRunsKeeps(db: Db, fs: seq<Fates>)
    requires Tidy(db)
    ensures Tidy(AfterRuns(db, fs)) && AfterRuns(db, fs).children == db.children
    ensures Rows(AfterRuns(db, fs)) == if SomeRunStrips(db, fs) then AllStripped(Rows(db)) else Rows(db)
  {
    if fs != [] {
      var front := fs[..|fs| - 1];
      AfterRunsKeeps(db, front);
      MigratedKeeps(Opened(AfterRuns(db, front)), fs[|fs| - 1]);
      SomeRunStripsOneMore(db, fs);
      AllStrippedTwice(Rows(db));
    }
  }
}
