/**
 Appending to one store, decoded (`append_with` in `audit/src/store.rs`).

 Rows keep the detail as a value; the text that is hashed is what the printer makes of
 it. What the database answers to each attempt is a parameter.
 */
module Ledger {
  import opened Wrappers
  import opened Json
  import opened Chain

  const APPEND_MAX_ATTEMPTS := 5

  /** What the database answers when a statement does not go through. */
  datatype DbError =
    | Locked(text: string)       // SQLITE_BUSY or SQLITE_LOCKED
    | Failed(text: string)

  datatype AuditError =
    | Db(e: DbError)
    | DuplicateHash              // the UNIQUE column rejected the row
    | Refused(why: Refusal)

  datatype Refusal =
    | NoSegment(id: string)
    | NotTemporary(id: string)
    | NotMergeable(id: string, state: string)
    | AlreadyMerged(id: string)
    | PartialMerge(id: string, note: string)
    | NoFreeId

  function ErrorText(e: AuditError): string {
    match e
    case Db(db) => db.text
    case DuplicateHash => "UNIQUE constraint failed: audit_events.hash"
    case Refused(_) => "refused"
  }

  type Parser = string -> Json

  datatype Codec = Codec(digest: Digest, print_: Printer, parse: Parser)

  /** A detail as it comes back from the text it was stored as. */
  function ReadBack(c: Codec, detail: Json): Json { c.parse(c.print_(detail)) }

  function Raw(c: Codec, s: StoredEvent): RawRow {
    RawRow(s.id, s.event.timestampMs, s.event.actor, s.event.action, c.print_(s.event.detail),
           s.prevHash, s.hash, s.event.agentId)
  }

  /** The rows as the database holds them. */
  function Raws(c: Codec, chain: seq<StoredEvent>): (rows: seq<RawRow>)
    ensures |rows| == |chain| && forall i :: 0 <= i < |rows| ==> rows[i] == Raw(c, chain[i])
  {
    seq(|chain|, i requires 0 <= i < |chain| => Raw(c, chain[i]))
  }

  /** A chain this store wrote: it verifies, and its ids count from 1. */
  ghost predicate Whole(c: Codec, chain: seq<StoredEvent>) {
    Intact(c.digest, Raws(c, chain)) && GapFree(Raws(c, chain))
  }

  function LastHash(chain: seq<StoredEvent>): Option<string> {
    if chain == [] then None else Some(chain[|chain| - 1].hash)
  }

  function LastId(chain: seq<StoredEvent>): Option<int> {
    if chain == [] then None else Some(chain[|chain| - 1].id)
  }

  /** The row an append writes on top of `chain`. */
  function NextStored(c: Codec, chain: seq<StoredEvent>, e: Event): StoredEvent {
    var prev := match LastHash(chain) { case Some(h) => h case None => GENESIS_PREV_HASH };
    StoredEvent(|chain| + 1, e, prev,
      ComputeHash(c.digest, prev, e.timestampMs, e.actor, e.action, c.print_(e.detail)))
  }

  predicate HashUsed(chain: seq<StoredEvent>, hash: string) {
    exists i :: 0 <= i < |chain| && chain[i].hash == hash
  }

  /** What the database says to each attempt of one append; `None` lets it through. */
  type Attempts = nat -> Option<DbError>

  /** The retry loop: only a lock is retried, and only within the budget. */
  function Exhausted(io: Attempts, attempt: nat, budget: nat): Option<DbError>
    decreases budget - attempt
  {
    match io(attempt)
    case None => None
    case Some(e) =>
      if attempt >= budget || !e.Locked? then Some(e) else Exhausted(io, attempt + 1, budget)
  }

  /** Every answer from attempt `a` up to but not including `k` is a lock. */
  predicate Locks(io: Attempts, a: nat, k: nat) {
    forall j: nat :: a <= j < k ==> io(j).Some? && io(j).value.Locked?
  }

  /** Some attempt within the budget is let through, and only locks came before it. */
  ghost predicate GetsThrough(io: Attempts, a: nat, budget: nat) {
    exists k: nat :: a <= k <= budget && io(k).None? && Locks(io, a, k)
  }

  /** The first failure that is no lock, or the lock that used up the budget. */
  ghost predicate GivesUpWith(io: Attempts, a: nat, budget: nat, e: DbError) {
    exists k: nat :: a <= k <= budget && io(k) == Some(e) && Locks(io, a, k) && (e.Failed? || k == budget)
  }

  /** Which answers are tried again: locks, and nothing else, until the budget is used up. */
  lemma {:induction false} ExhaustedExactly(io: Attempts, a: nat, budget: nat)
    requires a <= budget
    ensures Exhausted(io, a, budget).None? <==> GetsThrough(io, a, budget)
    ensures forall e :: Exhausted(io, a, budget) == Some(e) <==> GivesUpWith(io, a, budget, e)
    decreases budget - a
  {
    if io(a).None? {
      assert Locks(io, a, a);
      forall k: nat | a <= k && Locks(io, a, k) ensures k == a {
      }
    } else if a == budget || io(a).value.Failed? {
      assert Locks(io, a, a);
      assert GivesUpWith(io, a, budget, io(a).value);
      forall k: nat | a <= k <= budget && Locks(io, a, k) ensures k == a {
      }
    } else {
      ExhaustedExactly(io, a + 1, budget);
      forall k: nat | a <= k ensures Locks(io, a, k) <==> k == a || Locks(io, a + 1, k) {
        assert Locks(io, a, k) && k > a ==> Locks(io, a + 1, k);
      }
    }
  }

  function Append(c: Codec, chain: seq<StoredEvent>, e: Event, io: Attempts): Result<StoredEvent, AuditError> {
    AppendWithin(c, chain, e, io, APPEND_MAX_ATTEMPTS)
  }

  function AppendWithin(
      c: Codec, chain: seq<StoredEvent>, e: Event, io: Attempts, budget: nat): Result<StoredEvent, AuditError>
  {
    match Exhausted(io, 1, budget)
    case Some(error) => Err(Db(error))
    case None =>
      var row := NextStored(c, chain, e);
      if HashUsed(chain, row.hash) then Err(DuplicateHash) else Ok(row)
  }

  /** An append has five attempts; it writes the event on top of the head, or nothing. */
  lemma AppendExactly(c: Codec, chain: seq<StoredEvent>, e: Event, io: Attempts)
    ensures var r := Append(c, chain, e, io);
      && (r.Ok? <==> GetsThrough(io, 1, 5) && !HashUsed(chain, NextStored(c, chain, e).hash))
      && (forall error :: r == Err(Db(error)) <==> GivesUpWith(io, 1, 5, error))
      && (r.Ok? ==> r.value.event == e && r.value.id == |chain| + 1)
      && (r.Ok? ==> r.value.prevHash == (if chain == [] then GENESIS_PREV_HASH else chain[|chain| - 1].hash))
  {
    ExhaustedExactly(io, 1, 5);
    hide Exhausted, GetsThrough, GivesUpWith, HashUsed;
  }

  /** The chain after an append answered `r`. */
  function After(chain: seq<StoredEvent>, r: Result<StoredEvent, AuditError>): seq<StoredEvent> {
    if r.Ok? then chain + [r.value] else chain
  }

  lemma AppendAnswers(c: Codec, chain: seq<StoredEvent>, e: Event, io: Attempts)
    ensures var r := Append(c, chain, e, io);
      if r.Ok? then r.value.event == e && r.value == NextStored(c, chain, e) else !r.error.Refused?
  {
  }

  lemma RawOfNext(c: Codec, chain: seq<StoredEvent>, e: Event)
    ensures Raw(c, NextStored(c, chain, e)) == NextRow(c.digest, c.print_, Raws(c, chain), e)
    ensures Raws(c, chain + [NextStored(c, chain, e)]) ==
      Raws(c, chain) + [NextRow(c.digest, c.print_, Raws(c, chain), e)]
  {
  }

  /** An append, whatever the database answers, keeps the chain whole. */
  lemma AppendKeepsWhole(c: Codec, chain: seq<StoredEvent>, e: Event, io: Attempts)
    requires Whole(c, chain)
    ensures Whole(c, After(chain, Append(c, chain, e, io)))
  {
    RawOfNext(c, chain, e);
    AppendKeepsIntact(c.digest, c.print_, Raws(c, chain), e);
  }
}
