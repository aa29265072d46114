/**
 Many writers on one `audit.db` (`append_with` and `append_once` in `audit/src/store.rs`).

 Each append is a call with its own program counter over the committed log and SQLite's
 one write lock. A schedule is any sequence of actions, so it interleaves any number of
 calls in any way and lets any statement fail; an action that is not enabled does nothing.
 */
module Writers {
  import opened Wrappers
  import opened Chain

  datatype Pc =
    | Begin                        // about to run BEGIN IMMEDIATE
    | InTransaction                // write lock held, head not read yet
    | HeadRead(prev: string)
    | Inserted(row: RawRow)        // inserted, not committed
    | Done(result: Result<RawRow, Fault>)

  /** `steps` counts what the call has done; it changes nothing. */
  datatype Call = Call(event: Event, budget: nat, attempt: nat, pc: Pc, steps: nat)

  /** `authors[p]` is the call whose commit wrote row `p`; `None` for rows found at the start. */
  datatype System = System(
    log: seq<RawRow>, authors: seq<Option<nat>>, lock: Option<nat>, calls: seq<Call>)

  datatype Action =
    | Invoke(event: Event, attempts: nat)
    | TakeLock(w: nat)             // BEGIN IMMEDIATE succeeds
    | ReadHead(w: nat)
    | Insert(w: nat)
    | Commit(w: nat)
    | Fail(w: nat, fault: Fault)   // the call's next statement fails; its transaction rolls back

  predicate Holding(pc: Pc) { pc.InTransaction? || pc.HeadRead? || pc.Inserted? }

  predicate Enabled(s: System, a: Action) {
    match a
    case Invoke(_, _) => true
    case TakeLock(w) => w < |s.calls| && s.calls[w].pc.Begin? && s.lock.None?
    case ReadHead(w) => w < |s.calls| && s.calls[w].pc.InTransaction?
    case Insert(w) => w < |s.calls| && s.calls[w].pc.HeadRead?
    case Commit(w) => w < |s.calls| && s.calls[w].pc.Inserted?
    case Fail(w, _) => w < |s.calls| && !s.calls[w].pc.Done?
  }

  /** One pass of the retry loop after an error. */
  function AfterError(c: Call, fault: Fault): Call {
    if c.attempt >= c.budget || fault.OtherFault?
    then c.(pc := Done(Err(fault)))
    else c.(pc := Begin, attempt := c.attempt + 1)
  }

  function Counted(c: Call): Call { c.(steps := c.steps + 1) }

  /** The call fails; a held lock is released and nothing of its transaction stays. */
  function RolledBack(s: System, w: nat, fault: Fault): System
    requires w < |s.calls|
  {
    s.(lock := if s.lock == Some(w) then None else s.lock,
       calls := s.calls[w := Counted(AfterError(s.calls[w], fault))])
  }

  function Moved(s: System, w: nat, pc: Pc): seq<Call>
    requires w < |s.calls|
  {
    s.calls[w := Counted(s.calls[w].(pc := pc))]
  }

  function Step(h: Digest, print_: Printer, s: System, a: Action): System {
    if !Enabled(s, a) then s
    else match a
      case Invoke(e, attempts) =>
        s.(calls := s.calls + [Call(e, if attempts == 0 then 1 else attempts, 1, Begin, 0)])
      case TakeLock(w) => s.(lock := Some(w), calls := Moved(s, w, InTransaction))
      case ReadHead(w) => s.(calls := Moved(s, w, HeadRead(Head(s.log))))
      case Insert(w) =>
        var row := RowOn(h, print_, s.calls[w].pc.prev, |s.log| + 1, s.calls[w].event);
        if HashTaken(s.log, row.hash) then RolledBack(s, w, OtherFault)
        else s.(calls := Moved(s, w, Inserted(row)))
      case Commit(w) =>
        var row := s.calls[w].pc.row;
        System(s.log + [row], s.authors + [Some(w)], None, Moved(s, w, Done(Ok(row))))
      case Fail(w, fault) => RolledBack(s, w, fault)
  }

  function Run(h: Digest, print_: Printer, s: System, schedule: seq<Action>): System {
    if schedule == [] then s
    else Step(h, print_, Run(h, print_, s, schedule[..|schedule| - 1]), schedule[|schedule| - 1])
  }

  // ----- What every step keeps ------------------------------------------------------------

  predicate Records(row: RawRow, print_: Printer, e: Event) {
    row.timestampMs == e.timestampMs && row.actor == e.actor && row.action == e.action &&
    row.detailJson == print_(e.detail) && row.agentId == e.agentId
  }

  function Stage(pc: Pc): nat {
    match pc
    case Begin => 4
    case InTransaction => 3
    case HeadRead(_) => 2
    case Inserted(_) => 1
    case Done(_) => 0
  }

  ghost predicate CallOk(h: Digest, print_: Printer, s: System, w: nat)
    requires w < |s.calls|
  {
    var c := s.calls[w];
    && 1 <= c.attempt <= c.budget
    && c.steps + 4 * (c.budget - c.attempt) + Stage(c.pc) <= 4 * c.budget
    && (Holding(c.pc) <==> s.lock == Some(w))
    && (c.pc.HeadRead? ==> c.pc.prev == Head(s.log))
    && (c.pc.Inserted? ==> c.pc.row == NextRow(h, print_, s.log, c.event))
    && (c.pc.Done? && c.pc.result.Ok? ==> Some(w) in s.authors)
    && (c.pc == Done(Err(LockFault)) ==> c.attempt == c.budget)
  }

  /** Row `p` was written by the commit of a call that answered Ok with that very row. */
  ghost predicate Authored(print_: Printer, s: System, p: nat)
    requires p < |s.log| == |s.authors|
  {
    s.authors[p].Some? ==>
      var w := s.authors[p].value;
      w < |s.calls| && s.calls[w].pc == Done(Ok(s.log[p])) && Records(s.log[p], print_, s.calls[w].event)
  }

  ghost predicate Inv(h: Digest, print_: Printer, s: System) {
    && Intact(h, s.log) && GapFree(s.log)
    && |s.authors| == |s.log|
    && (s.lock.Some? ==> s.lock.value < |s.calls|)
    && (forall w :: 0 <= w < |s.calls| ==> CallOk(h, print_, s, w))
    && (forall p :: 0 <= p < |s.log| ==> Authored(print_, s, p))
    && (forall p, q :: 0 <= p < q < |s.log| && s.authors[p].Some? ==> s.authors[p] != s.authors[q])
  }

  /** A file nobody is writing yet. */
  ghost predicate Init(h: Digest, s: System) {
    Intact(h, s.log) && GapFree(s.log) && s.calls == [] && s.lock == None &&
    s.authors == seq(|s.log|, _ => None)
  }

  /** A call that has not answered Ok has written no row. */
  lemma UnansweredWroteNothing(h: Digest, print_: Printer, s: System, w: nat)
    requires Inv(h, print_, s)
    requires w < |s.calls| ==> !(s.calls[w].pc.Done? && s.calls[w].pc.result.Ok?)
    ensures Some(w) !in s.authors
  {
    forall p | 0 <= p < |s.authors| ensures s.authors[p] != Some(w) {
      assert Authored(print_, s, p);
    }
  }

  /** A step that changes one unfinished call and leaves the log alone. */
  lemma LocalStepKeepsInv(h: Digest, print_: Printer, s: System, t: System, w: nat)
    requires Inv(h, print_, s) && w < |t.calls|
    requires t.log == s.log && t.authors == s.authors
    requires |t.calls| == if w < |s.calls| then |s.calls| else |s.calls| + 1
    requires w < |s.calls| ==> !s.calls[w].pc.Done?
    requires forall v :: 0 <= v < |s.calls| && v != w ==>
      t.calls[v] == s.calls[v] && (t.lock == Some(v) <==> s.lock == Some(v))
    requires (t.lock.Some? ==> t.lock.value < |t.calls|) && CallOk(h, print_, t, w)
    ensures Inv(h, print_, t)
  {
    UnansweredWroteNothing(h, print_, s, w);
    forall v | 0 <= v < |t.calls| ensures CallOk(h, print_, t, v) {
      assert v != w ==> CallOk(h, print_, s, v);
    }
    forall p | 0 <= p < |t.log| ensures Authored(print_, t, p) {
      assert Authored(print_, s, p);
      assert s.authors[p] in s.authors;
    }
  }

  lemma {:induction false} StepKeepsInv(h: Digest, print_: Printer, s: System, a: Action)
    requires Inv(h, print_, s)
    ensures Inv(h, print_, Step(h, print_, s, a))
  {
    if Enabled(s, a) {
      match a
      case Invoke(_, _) => LocalStepKeepsInv(h, print_, s, Step(h, print_, s, a), |s.calls|);
      case Commit(w) => CommitKeepsInv(h, print_, s, w);
      case Fail(w, fault) => RollbackKeepsInv(h, print_, s, w, fault);
      case Insert(w) => InsertKeepsInv(h, print_, s, w);
      case _ => LockStepKeepsInv(h, print_, s, a);
    }
  }

  lemma LockStepKeepsInv(h: Digest, print_: Printer, s: System, a: Action)
    requires Inv(h, print_, s) && (a.TakeLock? || a.ReadHead?) && Enabled(s, a)
    ensures Inv(h, print_, Step(h, print_, s, a))
  {
    assert CallOk(h, print_, s, a.w);
    LocalStepKeepsInv(h, print_, s, Step(h, print_, s, a), a.w);
  }

  lemma RollbackKeepsInv(h: Digest, print_: Printer, s: System, w: nat, fault: Fault)
    requires Inv(h, print_, s) && w < |s.calls| && !s.calls[w].pc.Done?
    ensures Inv(h, print_, RolledBack(s, w, fault))
  {
    assert CallOk(h, print_, s, w);
    LocalStepKeepsInv(h, print_, s, RolledBack(s, w, fault), w);
  }

  lemma InsertKeepsInv(h: Digest, print_: Printer, s: System, w: nat)
    requires Inv(h, print_, s) && Enabled(s, Insert(w))
    ensures Inv(h, print_, Step(h, print_, s, Insert(w)))
  {
    hide HashTaken;
    assert CallOk(h, print_, s, w);
    var row := RowOn(h, print_, s.calls[w].pc.prev, |s.log| + 1, s.calls[w].event);
    if HashTaken(s.log, row.hash) {
      RollbackKeepsInv(h, print_, s, w, OtherFault);
    } else {
      LocalStepKeepsInv(h, print_, s, Step(h, print_, s, Insert(w)), w);
    }
  }

  /** The one step that touches the log: the lock makes the head it read still the head. */
  lemma CommitKeepsInv(h: Digest, print_: Printer, s: System, w: nat)
    requires Inv(h, print_, s) && Enabled(s, Commit(w))
    ensures Inv(h, print_, Step(h, print_, s, Commit(w)))
  {
    var t := Step(h, print_, s, Commit(w));
    assert CallOk(h, print_, s, w);
    AppendKeepsIntact(h, print_, s.log, s.calls[w].event);
    UnansweredWroteNothing(h, print_, s, w);
    assert t.authors[|s.log|] == Some(w);
    forall v | 0 <= v < |t.calls| ensures CallOk(h, print_, t, v) {
      assert CallOk(h, print_, s, v);
      assert Some(v) in s.authors ==> Some(v) in t.authors;
    }
    forall p | 0 <= p < |t.log| ensures Authored(print_, t, p) {
      assert p < |s.log| ==> Authored(print_, s, p) && s.authors[p] in s.authors;
    }
    forall p, q | 0 <= p < q < |t.log| && t.authors[p].Some? ensures t.authors[p] != t.authors[q] {
      assert s.authors[p] in s.authors;
    }
  }

  lemma {:induction false} RunKeepsInv(h: Digest, print_: Printer, s: System, schedule: seq<Action>)
    requires Inv(h, print_, s)
    ensures Inv(h, print_, Run(h, print_, s, schedule))
  {
    if schedule != [] {
      var n := |schedule| - 1;
      RunKeepsInv(h, print_, s, schedule[..n]);
      StepKeepsInv(h, print_, Run(h, print_, s, schedule[..n]), schedule[n]);
    }
  }

  /** A call starts with its first attempt and at least one to spend. */
  predicate Begins(c: Call, e: Event, attempts: nat) {
    c.event == e && c.pc.Begin? && c.attempt == 1 && c.budget == (if attempts >= 1 then attempts else 1)
  }

  /** What one call is after a lock, or is told when its attempts are spent. */
  predicate StartsOver(was: Call, locked: Call) {
    if was.attempt < was.budget then locked.pc.Begin? && locked.attempt == was.attempt + 1
    else locked.pc == Done(Err(LockFault))
  }

  /** How a call begins, and which failures are tried again: a lock with attempts left, and nothing else. */
  lemma CallBegins(h: Digest, print_: Printer, s: System, e: Event, attempts: nat)
    ensures |Step(h, print_, s, Invoke(e, attempts)).calls| == |s.calls| + 1
    ensures Step(h, print_, s, Invoke(e, attempts)).log == s.log
    ensures Begins(Step(h, print_, s, Invoke(e, attempts)).calls[|s.calls|], e, attempts)
  {
  }

  lemma OnlyLocksAreRetried(h: Digest, print_: Printer, s: System, w: nat)
    requires w < |s.calls| && !s.calls[w].pc.Done?
    ensures Step(h, print_, s, Fail(w, OtherFault)).calls[w].pc == Done(Err(OtherFault))
    ensures StartsOver(s.calls[w], Step(h, print_, s, Fail(w, LockFault)).calls[w])
  {
  }

  // ----- Results over whole runs ------------------------------------------------------------

  /** Exactly one row was written by call `w`, and it is `row`. */
  ghost predicate WroteOnce(s: System, w: nat, row: RawRow) {
    |s.authors| == |s.log| &&
    exists p :: 0 <= p < |s.log| && s.authors[p] == Some(w) && s.log[p] == row &&
      forall q :: 0 <= q < |s.log| && s.authors[q] == Some(w) ==> q == p
  }

  /**
   Whatever the schedule: the log verifies, an append that answered Ok is on it exactly
   once, as the row it returned, and any other append (running, failed or exhausted) has
   left no trace; no call outlives its attempts, and a lock is answered only by the last.
   */
  lemma AppendIsAllOrNothing(h: Digest, print_: Printer, s: System, schedule: seq<Action>)
    requires Init(h, s)
    ensures var t := Run(h, print_, s, schedule);
      && Intact(h, t.log) && GapFree(t.log)
      && forall w :: 0 <= w < |t.calls| ==>
           var c := t.calls[w];
           && (if c.pc.Done? && c.pc.result.Ok?
               then WroteOnce(t, w, c.pc.result.value) && Records(c.pc.result.value, print_, c.event)
               else Some(w) !in t.authors)
           && c.attempt <= c.budget && c.steps <= 4 * c.budget
           && (c.pc == Done(Err(LockFault)) ==> c.attempt == c.budget)
  {
    var t := Run(h, print_, s, schedule);
    RunKeepsInv(h, print_, s, schedule);
    forall w | 0 <= w < |t.calls|
      ensures var c := t.calls[w];
        && (if c.pc.Done? && c.pc.result.Ok?
            then WroteOnce(t, w, c.pc.result.value) && Records(c.pc.result.value, print_, c.event)
            else Some(w) !in t.authors)
        && c.attempt <= c.budget && c.steps <= 4 * c.budget
        && (c.pc == Done(Err(LockFault)) ==> c.attempt == c.budget)
    {
      assert CallOk(h, print_, t, w);
      if t.calls[w].pc.Done? && t.calls[w].pc.result.Ok? {
        var p :| 0 <= p < |t.authors| && t.authors[p] == Some(w);
        assert Authored(print_, t, p);
      } else {
        UnansweredWroteNothing(h, print_, t, w);
      }
    }
  }

  /** The log and the answers only grow. */
  lemma {:induction false} LogOnlyGrows(h: Digest, print_: Printer, s: System, schedule: seq<Action>)
    ensures var t := Run(h, print_, s, schedule);
      s.log <= t.log && s.authors <= t.authors && |s.calls| <= |t.calls| &&
      forall w :: 0 <= w < |s.calls| && s.calls[w].pc.Done? ==> t.calls[w].pc == s.calls[w].pc
  {
    if schedule != [] {
      LogOnlyGrows(h, print_, s, schedule[..|schedule| - 1]);
    }
  }

  /**
   The log order respects real time: an append that had answered Ok before another was
   even called stands before it on the chain.
   */
  lemma LogOrderRespectsTime(
      h: Digest, print_: Printer, s: System, first: seq<Action>, rest: seq<Action>, p: nat, q: nat)
    requires Init(h, s)
    requires var mid := Run(h, print_, s, first);
      var end := Run(h, print_, mid, rest);
      && p < |end.authors| && q < |end.authors|
      && end.authors[p].Some? && end.authors[q].Some?
      && end.authors[p].value < |mid.calls| && mid.calls[end.authors[p].value].pc.Done?
      && end.authors[q].value >= |mid.calls|
    ensures p < q
  {
    var mid := Run(h, print_, s, first);
    var end := Run(h, print_, mid, rest);
    RunKeepsInv(h, print_, s, first);
    RunKeepsInv(h, print_, mid, rest);
    LogOnlyGrows(h, print_, mid, rest);
    var w := end.authors[p].value;
    assert Authored(print_, end, p);
    assert CallOk(h, print_, mid, w);
    var k :| 0 <= k < |mid.authors| && mid.authors[k] == Some(w);
    assert end.authors[k] == Some(w);
    forall r | 0 <= r < |mid.authors| && mid.authors[r].Some? ensures mid.authors[r].value < |mid.calls| {
      assert Authored(print_, mid, r);
    }
  }
}
