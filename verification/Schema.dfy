/**
 Opening one `audit.db` from several processes at once (`open_with`, `init_schema`,
 `add_column_if_missing` in `audit/src/store.rs`).

 Every SQL statement is one atomic action, so a schedule interleaves the open sequences
 of any number of processes statement by statement, with any statement failing, and with
 processes that opened earlier appending rows meanwhile.
 */
module Schema {
  import opened Wrappers
  import opened Chain

  const AUDIT_SCHEMA_VERSION := 1

  datatype Statement =
    | CreateTable(table: string, columns: set<string>)   // CREATE TABLE IF NOT EXISTS
    | CreateTrigger(name: string)                        // CREATE TRIGGER IF NOT EXISTS
    | AddColumn(table: string, column: string)           // table_info, then ALTER TABLE

  const EVENT_COLUMNS: set<string> :=
    {"id", "timestamp_ms", "actor", "action", "detail_json", "prev_hash", "hash", "agent_id"}
  const RUN_COLUMNS: set<string> :=
    {"run_id", "session_id", "parent_run_id", "resumed_from_snapshot", "fingerprint",
     "fingerprint_schema", "started_at_ms", "ended_at_ms", "start_seq", "end_seq", "status"}
  const SEGMENT_COLUMNS: set<string> :=
    {"segment_id", "kind", "head_hash", "head_prev_chain", "head_prev_length", "opened_at_ms",
     "closed_at_ms", "state", "note"}

  /** The schema batch, then the column migrations, in order. */
  const PROGRAM: seq<Statement> := [
    CreateTable("audit_events", EVENT_COLUMNS),
    CreateTrigger("audit_no_update"),
    CreateTrigger("audit_no_delete"),
    CreateTable("runs", RUN_COLUMNS),
    CreateTable("segments", SEGMENT_COLUMNS),
    AddColumn("audit_events", "agent_id"),
    AddColumn("audit_events", "segment_id"),
    AddColumn("runs", "resumed_from_snapshot"),
    AddColumn("segments", "head_prev_length")
  ]

  datatype File = File(
    version: int, wal: bool, tables: map<string, set<string>>, triggers: set<string>, rows: seq<RawRow>)

  datatype OpenError =
    | Faulted(fault: Fault)
    | NoSuchTable(table: string)
    | DataTooNew(found: int)

  datatype Pc =
    | ReadMode
    | SwitchToWal
    | ReadVersion
    | Execute(found: int, k: nat)     // statement `k` of the program is next
    | Alter(found: int, k: nat)       // column seen missing, ALTER TABLE is next
    | Stamp
    | Done(result: Result<(), OpenError>)

  datatype Opener = Opener(budget: nat, attempt: nat, pc: Pc)

  datatype System = System(file: File, openers: seq<Opener>)

  datatype Action =
    | Start(attempts: nat)
    | Advance(i: nat)                 // the opener's next statement runs
    | Fail(i: nat, fault: Fault)      // it fails instead
    | WriteRow(row: RawRow)           // a process with the file open appends

  predicate Goal(f: File, s: Statement) {
    match s
    case CreateTable(t, _) => t in f.tables
    case CreateTrigger(n) => n in f.triggers
    case AddColumn(t, c) => t in f.tables && c in f.tables[t]
  }

  function Create(f: File, s: Statement): File {
    match s
    case CreateTable(t, cols) => if t in f.tables then f else f.(tables := f.tables[t := cols])
    case CreateTrigger(n) => f.(triggers := f.triggers + {n})
    case AddColumn(_, _) => f
  }

  /** What an opener does next once its program is finished. */
  function Finish(found: int): Pc {
    if found < AUDIT_SCHEMA_VERSION then Stamp else Done(Ok(()))
  }

  function Then(found: int, k: nat): Pc {
    if k < |PROGRAM| then Execute(found, k) else Finish(found)
  }

  /** One statement of one opener: the file and the counter after it. */
  function Advanced(f: File, pc: Pc): (File, Pc) {
    match pc
    case ReadMode => (f, if f.wal then ReadVersion else SwitchToWal)
    case SwitchToWal => (f.(wal := true), ReadVersion)
    case ReadVersion =>
      (f, if f.version > AUDIT_SCHEMA_VERSION then Done(Err(DataTooNew(f.version)))
          else Then(f.version, 0))
    case Execute(found, k) =>
      if k >= |PROGRAM| then (f, Finish(found))
      else if PROGRAM[k].AddColumn? && !Goal(f, PROGRAM[k]) then (f, Alter(found, k))
      else (Create(f, PROGRAM[k]), Then(found, k + 1))
    case Alter(found, k) =>
      if k >= |PROGRAM| || !PROGRAM[k].AddColumn? then (f, pc)
      else
        var AddColumn(t, c) := PROGRAM[k];
        if t !in f.tables then (f, Done(Err(NoSuchTable(t))))
        else if c in f.tables[t] then (f, Then(found, k + 1))       // duplicate column name
        else (Altered(f, t, c), Then(found, k + 1))
    case Stamp => (f.(version := AUDIT_SCHEMA_VERSION), Done(Ok(())))
    case Done(_) => (f, pc)
  }

  /** The retry loop: a lock error starts over with a fresh connection. */
  function AfterError(o: Opener, fault: Fault): Opener {
    if o.attempt >= o.budget || fault.OtherFault?
    then o.(pc := Done(Err(Faulted(fault))))
    else o.(attempt := o.attempt + 1, pc := ReadMode)
  }

  function Step(s: System, a: Action): System {
    match a
    case Start(attempts) =>
      s.(openers := s.openers + [Opener(if attempts == 0 then 1 else attempts, 1, ReadMode)])
    case Advance(i) =>
      if i >= |s.openers| then s
      else
        var (f, pc) := Advanced(s.file, s.openers[i].pc);
        System(f, s.openers[i := s.openers[i].(pc := pc)])
    case Fail(i, fault) =>
      if i >= |s.openers| || s.openers[i].pc.Done? then s
      else s.(openers := s.openers[i := AfterError(s.openers[i], fault)])
    case WriteRow(row) =>
      if "audit_events" in s.file.tables then s.(file := s.file.(rows := s.file.rows + [row])) else s
  }

  function Run(s: System, schedule: seq<Action>): System {
    if schedule == [] then s
    else Step(Run(s, schedule[..|schedule| - 1]), schedule[|schedule| - 1])
  }

  // ----- The shape every run converges to -----------------------------------------------------

  function Base(t: string): set<string> {
    if t == "audit_events" then EVENT_COLUMNS
    else if t == "runs" then RUN_COLUMNS
    else if t == "segments" then SEGMENT_COLUMNS
    else {}
  }

  function Migrated(t: string): set<string> {
    if t == "audit_events" then {"agent_id", "segment_id"}
    else if t == "runs" then {"resumed_from_snapshot"}
    else if t == "segments" then {"head_prev_length"}
    else {}
  }

  const TABLES: set<string> := {"audit_events", "runs", "segments"}
  const TRIGGERS: set<string> := {"audit_no_update", "audit_no_delete"}

  /** The columns a table starts from: the ones found, or the schema's if there was no table. */
  function Born(f0: File, t: string): set<string> {
    if t in f0.tables then f0.tables[t] else Base(t)
  }

  function Target(f0: File): map<string, set<string>> {
    map t | t in f0.tables.Keys + TABLES :: Born(f0, t) + Migrated(t)
  }

  /** Between what was found and the target; nothing found is ever lost. */
  ghost predicate Grown(f0: File, f: File) {
    && f0.tables.Keys <= f.tables.Keys <= Target(f0).Keys
    && (forall t :: t in f.tables ==> Born(f0, t) <= f.tables[t] <= Target(f0)[t])
    && f0.triggers <= f.triggers <= f0.triggers + TRIGGERS
    && f0.rows <= f.rows
    && (f0.wal ==> f.wal)
    && (f.version == f0.version || (f0.version < AUDIT_SCHEMA_VERSION && f.version == AUDIT_SCHEMA_VERSION))
  }

  ghost predicate Goals(f: File, k: nat) {
    forall j :: 0 <= j < k && j < |PROGRAM| ==> Goal(f, PROGRAM[j])
  }

  ghost predicate PcOk(f0: File, f: File, pc: Pc) {
    match pc
    case Execute(found, k) => VersionRead(f0, f, found) && Goals(f, k)
    case Alter(found, k) =>
      VersionRead(f0, f, found) && Goals(f, k) && k < |PROGRAM| && PROGRAM[k].AddColumn?
    case Stamp => f0.version <= AUDIT_SCHEMA_VERSION && Goals(f, |PROGRAM|)
    case Done(Ok(_)) =>
      f0.version <= AUDIT_SCHEMA_VERSION && Goals(f, |PROGRAM|) && f.version == AUDIT_SCHEMA_VERSION
    case Done(Err(e)) => !e.NoSuchTable? && (e.DataTooNew? ==> e.found == f0.version > AUDIT_SCHEMA_VERSION)
    case _ => true
  }

  /** The version an opener carries: supported, and current if it was current when read. */
  ghost predicate VersionRead(f0: File, f: File, found: int) {
    && f0.version <= AUDIT_SCHEMA_VERSION && found <= AUDIT_SCHEMA_VERSION
    && (found == AUDIT_SCHEMA_VERSION ==> f.version == AUDIT_SCHEMA_VERSION)
  }

  /** A file of a newer build keeps its tables, triggers and version. */
  ghost predicate Untouched(f0: File, f: File) {
    f.tables == f0.tables && f.triggers == f0.triggers && f.version == f0.version
  }

  ghost predicate Inv(f0: File, s: System) {
    && Grown(f0, s.file)
    && (f0.version > AUDIT_SCHEMA_VERSION ==> Untouched(f0, s.file))
    && forall i :: 0 <= i < |s.openers| ==>
         && s.openers[i].attempt <= s.openers[i].budget && PcOk(f0, s.file, s.openers[i].pc)
         && (s.openers[i].pc == Done(Err(Faulted(LockFault))) ==> s.openers[i].attempt == s.openers[i].budget)
  }

  /** Reached goals stay reached: tables, triggers and columns are only ever added. */
  ghost predicate Extends(f: File, g: File) {
    && f.tables.Keys <= g.tables.Keys
    && (forall t :: t in f.tables ==> f.tables[t] <= g.tables[t])
    && f.triggers <= g.triggers
    && (f.version == AUDIT_SCHEMA_VERSION ==> g.version == AUDIT_SCHEMA_VERSION)
  }

  lemma ProgressIsStable(f0: File, f: File, g: File, pc: Pc)
    requires PcOk(f0, f, pc) && Extends(f, g)
    ensures PcOk(f0, g, pc)
  {
    assert forall j :: 0 <= j < |PROGRAM| && Goal(f, PROGRAM[j]) ==> Goal(g, PROGRAM[j]);
  }

  /** What the program's statements are, seen one at a time. */
  predicate Known(s: Statement) {
    match s
    case CreateTable(t, cols) => t in TABLES && cols == Base(t)
    case CreateTrigger(n) => n in TRIGGERS
    case AddColumn(t, c) => t in TABLES && c in Migrated(t)
  }

  lemma ProgramIsKnown(k: nat)
    requires k < |PROGRAM|
    ensures Known(PROGRAM[k])
  {
  }

  lemma CreateFits(f0: File, f: File, s: Statement)
    requires Grown(f0, f) && Known(s) && f0.version <= AUDIT_SCHEMA_VERSION
    ensures Grown(f0, Create(f, s)) && Extends(f, Create(f, s))
    ensures !s.AddColumn? ==> Goal(Create(f, s), s)
  {
  }

  function Altered(f: File, t: string, c: string): File
    requires t in f.tables
  {
    f.(tables := f.tables[t := f.tables[t] + {c}])
  }

  lemma AlterFits(f0: File, f: File, t: string, c: string)
    requires Grown(f0, f) && Known(AddColumn(t, c)) && t in f.tables
    ensures var g := Altered(f, t, c);
      Grown(f0, g) && Extends(f, g) && Goal(g, AddColumn(t, c))
  {
  }

  /** The table a migration alters was created by an earlier statement. */
  lemma TableBeforeColumn(f: File, k: nat)
    requires k < |PROGRAM| && PROGRAM[k].AddColumn? && Goals(f, k)
    ensures PROGRAM[k].table in f.tables
  {
    assert Goal(f, PROGRAM[0]) && Goal(f, PROGRAM[3]) && Goal(f, PROGRAM[4]);
  }

  lemma GoalsNext(f: File, g: File, k: nat)
    requires Goals(f, k) && Extends(f, g) && k < |PROGRAM| && Goal(g, PROGRAM[k])
    ensures Goals(g, k + 1)
  {
    forall j | 0 <= j < k + 1 && j < |PROGRAM| ensures Goal(g, PROGRAM[j]) {
      assert j < k ==> Goal(f, PROGRAM[j]);
    }
  }

  /** What one statement of one opener keeps. */
  ghost predicate Advances(f0: File, f: File, pc: Pc) {
    var (g, pc') := Advanced(f, pc);
    && Grown(f0, g) && Extends(f, g) && PcOk(f0, g, pc')
    && (f0.version > AUDIT_SCHEMA_VERSION ==> Untouched(f0, g))
  }

  lemma AdvanceKeeps(f0: File, f: File, pc: Pc)
    requires Grown(f0, f) && PcOk(f0, f, pc)
    requires f0.version > AUDIT_SCHEMA_VERSION ==> Untouched(f0, f)
    ensures Advances(f0, f, pc)
  {
    match pc
    case Execute(found, k) => ExecuteKeeps(f0, f, found, k);
    case Alter(found, k) => AlterKeeps(f0, f, found, k);
    case _ =>
  }

  lemma ExecuteKeeps(f0: File, f: File, found: int, k: nat)
    requires Grown(f0, f) && PcOk(f0, f, Execute(found, k))
    ensures Advances(f0, f, Execute(found, k))
  {
    if k < |PROGRAM| {
      ProgramIsKnown(k);
      CreateFits(f0, f, PROGRAM[k]);
      if Goal(Create(f, PROGRAM[k]), PROGRAM[k]) {
        GoalsNext(f, Create(f, PROGRAM[k]), k);
      }
    }
  }

  lemma AlterKeeps(f0: File, f: File, found: int, k: nat)
    requires Grown(f0, f) && PcOk(f0, f, Alter(found, k))
    ensures Advances(f0, f, Alter(found, k))
  {
    hide Grown;
    var AddColumn(t, c) := PROGRAM[k];
    TableBeforeColumn(f, k);
    ProgramIsKnown(k);
    AlterFits(f0, f, t, c);
    if c in f.tables[t] {
      GoalsNext(f, f, k);
    } else {
      GoalsNext(f, Altered(f, t, c), k);
    }
  }

  lemma AdvanceFaultsNobody(f: File, pc: Pc, e: Fault)
    ensures Advanced(f, pc).1 == Done(Err(Faulted(e))) ==> pc == Done(Err(Faulted(e)))
  {
    hide PROGRAM, Goal;
  }

  /** What one opener is after a lock, or is told when its attempts are spent. */
  predicate StartsOver(was: Opener, locked: Opener) {
    if was.attempt < was.budget then locked.pc.ReadMode? && locked.attempt == was.attempt + 1
    else locked.pc == Done(Err(Faulted(LockFault)))
  }

  /** How an open begins, and which failures start it over: a lock with attempts left, and nothing else. */
  lemma OpenBegins(s: System, attempts: nat)
    ensures Step(s, Start(attempts)).file == s.file
    ensures Step(s, Start(attempts)).openers
      == s.openers + [Opener(if attempts >= 1 then attempts else 1, 1, ReadMode)]
  {
  }

  lemma OnlyLocksStartOver(s: System, i: nat)
    requires i < |s.openers| && !s.openers[i].pc.Done?
    ensures Step(s, Fail(i, OtherFault)).openers[i].pc == Done(Err(Faulted(OtherFault)))
    ensures StartsOver(s.openers[i], Step(s, Fail(i, LockFault)).openers[i])
  {
  }

  lemma {:induction false} StepKeepsInv(f0: File, s: System, a: Action)
    requires Inv(f0, s)
    ensures Inv(f0, Step(s, a))
  {
    hide PROGRAM, Goal, Goals, Advanced;
    if a.Advance? && a.i < |s.openers| {
      AdvanceKeeps(f0, s.file, s.openers[a.i].pc);
      AdvanceFaultsNobody(s.file, s.openers[a.i].pc, LockFault);
      var (g, _) := Advanced(s.file, s.openers[a.i].pc);
      forall i | 0 <= i < |s.openers| ensures PcOk(f0, g, s.openers[i].pc) {
        ProgressIsStable(f0, s.file, g, s.openers[i].pc);
      }
    } else if a.WriteRow? {
      var t := Step(s, a);
      forall i | 0 <= i < |s.openers| ensures PcOk(f0, t.file, s.openers[i].pc) {
        ProgressIsStable(f0, s.file, t.file, s.openers[i].pc);
      }
    }
  }

  lemma {:induction false} RunKeepsInv(f0: File, s: System, schedule: seq<Action>)
    requires Inv(f0, s)
    ensures Inv(f0, Run(s, schedule))
  {
    if schedule != [] {
      var n := |schedule| - 1;
      RunKeepsInv(f0, s, schedule[..n]);
      StepKeepsInv(f0, Run(s, schedule[..n]), schedule[n]);
    }
  }

  lemma AllGoalsReachTarget(f0: File, f: File)
    requires Grown(f0, f) && Goals(f, |PROGRAM|)
    ensures f.tables == Target(f0) && f.triggers == f0.triggers + TRIGGERS
  {
    AllGoals(f);
    hide PROGRAM, Goals, Goal, Base;
    forall t | t in Target(f0) ensures t in f.tables && f.tables[t] == Target(f0)[t] {
      assert t !in TABLES ==> Migrated(t) == {};
    }
  }

  lemma AllGoals(f: File)
    requires Goals(f, |PROGRAM|)
    ensures TABLES <= f.tables.Keys && TRIGGERS <= f.triggers
    ensures forall t :: t in TABLES ==> Migrated(t) <= f.tables[t]
  {
    assert Goal(f, PROGRAM[0]) && Goal(f, PROGRAM[1]) && Goal(f, PROGRAM[2]);
    assert Goal(f, PROGRAM[3]) && Goal(f, PROGRAM[4]) && Goal(f, PROGRAM[5]);
    assert Goal(f, PROGRAM[6]) && Goal(f, PROGRAM[7]) && Goal(f, PROGRAM[8]);
  }

  /**
   Whatever the interleaving, once any open has succeeded the file has exactly the target
   shape and version 1; what was found is kept; a lost race on a column never fails an open;
   a version is called too new only if it is, and a lock is answered only by the last attempt.
   */
  lemma {:induction false} OpensConverge(f0: File, schedule: seq<Action>)
    ensures var s := Run(System(f0, []), schedule);
      && Grown(f0, s.file)
      && (forall i :: 0 <= i < |s.openers| ==>
            s.openers[i].attempt <= s.openers[i].budget &&
            (s.openers[i].pc == Done(Err(Faulted(LockFault))) ==> s.openers[i].attempt == s.openers[i].budget))
      && forall i :: 0 <= i < |s.openers| && s.openers[i].pc.Done? ==>
           match s.openers[i].pc.result
           case Ok(_) =>
             s.file.version == AUDIT_SCHEMA_VERSION && s.file.tables == Target(f0) &&
             s.file.triggers == f0.triggers + TRIGGERS
           case Err(e) =>
             e.Faulted? || (e == DataTooNew(f0.version) && f0.version > AUDIT_SCHEMA_VERSION)
  {
    var s := Run(System(f0, []), schedule);
    RunKeepsInv(f0, System(f0, []), schedule);
    if Goals(s.file, |PROGRAM|) {
      AllGoalsReachTarget(f0, s.file);
    }
  }

  /** Tables, columns, triggers, rows and the switch to WAL are only ever added. */
  ghost predicate OnlyAdds(f: File, g: File) {
    && f.tables.Keys <= g.tables.Keys
    && (forall t :: t in f.tables ==> f.tables[t] <= g.tables[t])
    && f.triggers <= g.triggers && f.rows <= g.rows && (f.wal ==> g.wal)
  }

  lemma StepOnlyAdds(s: System, a: Action)
    ensures OnlyAdds(s.file, Step(s, a).file)
  {
  }

  /** From any point of any interleaving on, nothing the file holds is lost. */
  lemma {:induction false} FileOnlyGrows(s: System, schedule: seq<Action>)
    ensures OnlyAdds(s.file, Run(s, schedule).file)
  {
    hide Step;
    if schedule != [] {
      var before := Run(s, schedule[..|schedule| - 1]);
      FileOnlyGrows(s, schedule[..|schedule| - 1]);
      StepOnlyAdds(before, schedule[|schedule| - 1]);
    }
  }

  /** A file of a newer build: no open succeeds, and all an open may change is the journal mode. */
  lemma NewerFileIsRefused(f0: File, schedule: seq<Action>)
    requires f0.version > AUDIT_SCHEMA_VERSION
    ensures var s := Run(System(f0, []), schedule);
      && Untouched(f0, s.file) && f0.rows <= s.file.rows
      && forall i :: 0 <= i < |s.openers| ==> !(s.openers[i].pc.Done? && s.openers[i].pc.result.Ok?)
  {
    RunKeepsInv(f0, System(f0, []), schedule);
  }

  /** It may change that much: the journal mode is switched before the version is read. */
  lemma RefusedOpenMaySwitchJournal()
    ensures var f0 := File(2, false, map[], {}, []);
      var s := Run(System(f0, []), [Start(1), Advance(0), Advance(0), Advance(0)]);
      s == System(f0.(wal := true), [Opener(1, 1, Done(Err(DataTooNew(2))))])
  {
    var f0 := File(2, false, map[], {}, []);
    var s0 := System(f0, []);
    var all := [Start(1), Advance(0), Advance(0), Advance(0)];
    assert all[..3][..2] == all[..2] && all[..2][..1] == all[..1] && all[..1][..0] == [];
    assert Run(s0, []) == s0;
    assert Run(s0, all[..1]) == System(f0, [Opener(1, 1, ReadMode)]);
    assert Run(s0, all[..2]) == System(f0, [Opener(1, 1, SwitchToWal)]);
    assert Run(s0, all[..3]) == System(f0.(wal := true), [Opener(1, 1, ReadVersion)]);
  }
}
