/**
 Appending a run marker and indexing it as two steps (`begin_run`, `finish_run` in
 `host-core/src/state.rs`): the host drops the store's lock in between, so other processes may
 append, index and rebuild before a write arrives.
 */
module IndexWrites {
  import opened Wrappers
  import opened RunMarkers
  import opened RunFold
  import opened RunIndex

  datatype Move =
    | Append(event: Mark)
    | WriteStart(at: nat)     // `index_run_start` for the start at that position, at last
    | WriteEnd(at: nat)       // `index_run_end` for the end at that position
    | Refill(read: nat)       // the transaction of a rebuild that read the first `read` events

  predicate Fits(b: Book, m: Move) {
    match m
    case Append(e) => Ordered(b.log + [e])
    case WriteStart(p) => p < |b.log| && b.log[p].marker.StartOf?
    case WriteEnd(q) => q < |b.log| && b.log[q].marker.EndOf?
    case Refill(read) => read <= |b.log|
  }

  function Moved(b: Book, m: Move): Book
    requires Fits(b, m)
  {
    match m
    case Append(e) => b.(log := b.log + [e])
    case WriteStart(p) => b.(table := IndexRunStart(b.table, RowFor(b.log[p].marker.payload, b.log[p])))
    case WriteEnd(q) =>
      var e := b.log[q];
      b.(table := IndexRunEnd(b.table, e.marker.runId, e.id, e.timestampMs, e.marker.status))
    case Refill(read) => Do(b, Rebuild(read))
  }

  ghost predicate History(books: seq<Book>, moves: seq<Move>) {
    && |books| == |moves| + 1 && books[0] == Book([], map[])
    && forall k :: 0 <= k < |moves| ==> Fits(books[k], moves[k]) && books[k + 1] == Moved(books[k], moves[k])
  }

  /** The index says of this one run what the chain says. */
  ghost predicate AgreesAt(b: Book, id: string) {
    if id in b.table then b.table[id].runId == id && HasMeaning(b.log, b.table[id]) else !Started(b.log, id)
  }

  // ----- What the log and the moves say, with neither table nor derivation -----------------------------

  /** The event says something new, and says it about this run. */
  predicate NewAbout(log: seq<Mark>, e: Mark, id: string) { RunOf(e) == Some(id) && !AddsNothing(log, e) }

  predicate QuietAbout(log: seq<Mark>, read: nat, id: string) {
    forall k :: read <= k < |log| ==> !NewAbout(log[..k], log[k], id)
  }

  ghost predicate FirstEndOf(log: seq<Mark>, q: nat, id: string) {
    exists p: nat :: FirstStart(log, p, id) && FirstEnd(log, p, q, id)
  }

  /** The last write of the run's whole row wrote its first start. */
  predicate StartRight(books: seq<Book>, moves: seq<Move>, n: nat, id: string)
    requires History(books, moves) && n <= |moves|
  {
    if n == 0 then false
    else
      var log := books[n - 1].log;
      match moves[n - 1]
      case WriteStart(p) =>
        if RunOf(log[p]) == Some(id) then FirstStart(log, p, id) else StartRight(books, moves, n - 1, id)
      case Refill(read) => Started(log[..read], id)
      case _ => StartRight(books, moves, n - 1, id)
  }

  /**
   The last move that touched the run was a write that says what the chain says: its start,
   while nothing more was said; its first end, on top of its start; or a rebuild that missed
   nothing about it.
   */
  ghost predicate UpToDate(books: seq<Book>, moves: seq<Move>, n: nat, id: string)
    requires History(books, moves) && n <= |moves|
  {
    if n == 0 then true
    else
      var log := books[n - 1].log;
      match moves[n - 1]
      case Append(e) => !NewAbout(log, e, id) && UpToDate(books, moves, n - 1, id)
      case WriteStart(p) =>
        if RunOf(log[p]) == Some(id) then FirstStart(log, p, id) && !Ended(log, id) && !Abandoned(log, id)
        else UpToDate(books, moves, n - 1, id)
      case WriteEnd(q) =>
        if RunOf(log[q]) == Some(id) && Started(log, id)
        then FirstEndOf(log, q, id) && StartRight(books, moves, n - 1, id)
        else UpToDate(books, moves, n - 1, id)
      case Refill(read) => QuietAbout(log, read, id)
  }

  // ----- Rows of the table came from the log ----------------------------------------------------------------

  ghost predicate RowKnown(log: seq<Mark>, id: string, row: RunRecord) {
    && row.runId == id && Started(log, id)
    && (row.endSeq.Some? ==> exists k :: 0 <= k < |log| && log[k].id == row.endSeq.value)
    && (row.endSeq.None? && row.status == RunAbandoned ==> Abandoned(log, id))
  }

  ghost predicate Known(b: Book) {
    Ordered(b.log) && forall id :: id in b.table ==> RowKnown(b.log, id, b.table[id])
  }

  lemma KnownStays(log: seq<Mark>, more: seq<Mark>, id: string, row: RunRecord)
    requires log <= more && RowKnown(log, id, row)
    ensures RowKnown(more, id, row)
  {
    var p :| 0 <= p < |log| && StartsRun(log[p], id);
    assert StartsRun(more[p], id);
    if Abandoned(log, id) {
      var a, b :| 0 <= a < b < |log| && StartsRun(log[a], id) && AbandonsRun(log[b], id);
      assert StartsRun(more[a], id) && AbandonsRun(more[b], id);
    }
    if row.endSeq.Some? {
      var k :| 0 <= k < |log| && log[k].id == row.endSeq.value;
      assert more[k].id == row.endSeq.value;
    }
  }

  lemma MeaningIsKnown(log: seq<Mark>, row: RunRecord)
    requires HasMeaning(log, row)
    ensures RowKnown(log, row.runId, row)
  {
    var p: nat :| RowMeans(log, row, p);
    OneRowSays(log, row, p);
    if row.endSeq.Some? {
      var q: nat :| ClosedBy(log, row, p, q);
      assert log[q].id == row.endSeq.value;
    }
  }

  lemma DerivedHasMeaning(log: seq<Mark>, row: RunRecord)
    ensures row in DerivedRows(log) <==> HasMeaning(log, row)
  {
    DerivedRowsMean(log);
    var rows := DerivedRows(log);
    if row in rows {
      var i :| 0 <= i < |rows| && rows[i] == row;
    }
    if HasMeaning(log, row) {
      var p: nat :| RowMeans(log, row, p);
      assert HasRow(rows, log[p].marker.payload.runId);
      var i :| 0 <= i < |rows| && rows[i].runId == row.runId;
      assert HasMeaning(log, rows[i]);
      var p': nat :| RowMeans(log, rows[i], p');
      MeaningDeterminesRow(log, row, rows[i], p, p');
    }
  }

  lemma MoveKeepsKnown(b: Book, m: Move)
    requires Known(b) && Fits(b, m)
    ensures Known(Moved(b, m))
  {
    hide RowKnown, HasMeaning, Derive, InsertAll;
    var v := Moved(b, m);
    match m
    case Append(e) =>
      forall id | id in v.table ensures RowKnown(v.log, id, v.table[id]) {
        KnownStays(b.log, v.log, id, b.table[id]);
      }
    case WriteStart(p) =>
      StartIsKnown(b.log, p);
    case WriteEnd(q) =>
      var id := b.log[q].marker.runId;
      if id in b.table {
        EndIsKnown(b.log, q, id, b.table[id]);
      }
    case Refill(read) =>
      RefillIsExact(b, read);
      forall id | id in v.table ensures RowKnown(v.log, id, v.table[id]) {
        MeaningIsKnown(b.log[..read], v.table[id]);
        KnownStays(b.log[..read], b.log, id, v.table[id]);
      }
  }

  lemma StartIsKnown(log: seq<Mark>, p: nat)
    requires p < |log| && log[p].marker.StartOf?
    ensures RowKnown(log, log[p].marker.payload.runId, RowFor(log[p].marker.payload, log[p]))
  {
    assert StartsRun(log[p], log[p].marker.payload.runId);
  }

  lemma EndIsKnown(log: seq<Mark>, q: nat, id: string, row: RunRecord)
    requires q < |log| && EndsRun(log[q], id) && RowKnown(log, id, row)
    ensures RowKnown(log, id, Closed(row, log[q], log[q].marker.status))
  {
  }

  /** A refilled table holds, for each run started by then, the row that means it. */
  lemma RefillIsExact(b: Book, read: nat)
    requires read <= |b.log|
    ensures var t := Moved(b, Refill(read)).table;
      && (forall id :: id in t <==> Started(b.log[..read], id))
      && (forall id :: id in t ==> t[id].runId == id && HasMeaning(b.log[..read], t[id]))
  {
    var log := b.log[..read];
    var rows := DerivedRows(log);
    RunIdsAreUnique(log);
    InsertAllIsExact(rows);
    DerivedRowsMean(log);
    hide HasMeaning, Derive, InsertAll, Ordered;
    var t := Moved(b, Refill(read)).table;
    forall id ensures id in t <==> Started(log, id)
    ensures id in t ==> t[id].runId == id && HasMeaning(log, t[id]) {
      RowsSayWhatTheLogSays(log, id);
      if id in t {
        var i :| 0 <= i < |rows| && rows[i].runId == id;
      }
    }
  }

  // ----- One move -----------------------------------------------------------------------------------------------

  /** An event changes the derived row of no run but the one it says something new about. */
  lemma OtherRowsStay(log: seq<Mark>, e: Mark, row: RunRecord)
    requires !NewAbout(log, e, row.runId)
    ensures HasMeaning(log + [e], row) <==> HasMeaning(log, row)
  {
    LastStep(log, e);
    QuietExactly(log, e);
    DerivedHasMeaning(log, row);
    DerivedHasMeaning(log + [e], row);
    hide HasMeaning, Derive, AddsNothing;
    if !AddsNothing(log, e) {
      StepTouchesOne(Derive(log), e, row);
    }
  }

  lemma StepTouchesOne(d: Derived, e: Mark, row: RunRecord)
    requires RunOf(e) != Some(row.runId)
    ensures row in Step(d, e).rows <==> row in d.rows
  {
    if row in d.rows {
      var i :| 0 <= i < |d.rows| && d.rows[i] == row;
      assert Step(d, e).rows[i] == row;
    }
    if row in Step(d, e).rows {
      var i :| 0 <= i < |Step(d, e).rows| && Step(d, e).rows[i] == row;
      assert d.rows[i] == row;
    }
  }

  lemma StartedAfter(log: seq<Mark>, e: Mark, id: string)
    requires !NewAbout(log, e, id)
    ensures Started(log + [e], id) <==> Started(log, id)
  {
    var all := log + [e];
    if Started(log, id) {
      var p :| 0 <= p < |log| && StartsRun(log[p], id);
      assert StartsRun(all[p], id);
    }
    if Started(all, id) {
      var p :| 0 <= p < |all| && StartsRun(all[p], id);
      assert p < |log| ==> StartsRun(log[p], id);
    }
  }

  lemma QuietAppend(b: Book, e: Mark, id: string)
    requires Fits(b, Append(e)) && !NewAbout(b.log, e, id)
    ensures AgreesAt(Moved(b, Append(e)), id) <==> AgreesAt(b, id)
  {
    hide HasMeaning, Started;
    StartedAfter(b.log, e, id);
    if id in b.table && b.table[id].runId == id {
      OtherRowsStay(b.log, e, b.table[id]);
    }
  }

  /** What is said anew is not in the index yet. */
  lemma NewAppend(b: Book, e: Mark, id: string)
    requires Known(b) && Fits(b, Append(e)) && NewAbout(b.log, e, id)
    ensures !AgreesAt(Moved(b, Append(e)), id)
  {
    var all := b.log + [e];
    if e.marker.StartOf? {
      assert StartsRun(all[|b.log|], id);
    } else {
      var s :| 0 <= s < |b.log| && StartsRun(b.log[s], id);
      assert StartsRun(all[s], id);
      if id in b.table {
        NewIsNotHeld(b, e, id);
      }
    }
  }

  lemma NewIsNotHeld(b: Book, e: Mark, id: string)
    requires Known(b) && Fits(b, Append(e)) && NewAbout(b.log, e, id) && !e.marker.StartOf? && id in b.table
    ensures !HasMeaning(b.log + [e], b.table[id])
  {
    var all, row := b.log + [e], b.table[id];
    assert RowKnown(b.log, id, row);
    var s :| 0 <= s < |b.log| && StartsRun(b.log[s], id);
    assert StartsRun(all[s], id);
    if HasMeaning(all, row) {
      var p: nat :| RowMeans(all, row, p);
      OneRowSays(all, row, p);
      if e.marker.EndOf? {
        assert EndsRun(all[|b.log|], id);
        var q: nat :| ClosedBy(all, row, p, q);
        EndIsOld(b, e, id, q);
      } else {
        assert AbandonsRun(all[|b.log|], id);
        NoEndYet(b.log, e, id);
      }
    }
  }

  lemma EndIsOld(b: Book, e: Mark, id: string, q: nat)
    requires Known(b) && Fits(b, Append(e)) && id in b.table && q < |b.log + [e]|
    requires b.table[id].endSeq == Some((b.log + [e])[q].id)
    ensures q < |b.log|
  {
    assert RowKnown(b.log, id, b.table[id]);
    var k :| 0 <= k < |b.log| && b.log[k].id == b.table[id].endSeq.value;
    assert (b.log + [e])[k].id < (b.log + [e])[|b.log|].id;
  }

  lemma NoEndYet(log: seq<Mark>, e: Mark, id: string)
    requires !e.marker.EndOf? && !Ended(log, id)
    ensures !Ended(log + [e], id)
  {
    var all := log + [e];
    forall p, q | 0 <= p < q < |all| && StartsRun(all[p], id) ensures !EndsRun(all[q], id) {
      assert q < |log| ==> StartsRun(log[p], id) && all[q] == log[q];
    }
  }

  lemma SameMark(log: seq<Mark>, p: nat, q: nat)
    requires Ordered(log) && p < |log| && q < |log| && log[p].id == log[q].id
    ensures p == q
  {
  }

  lemma StartWrite(b: Book, p: nat, id: string)
    requires Known(b) && Fits(b, WriteStart(p)) && RunOf(b.log[p]) == Some(id)
    ensures AgreesAt(Moved(b, WriteStart(p)), id) <==>
      FirstStart(b.log, p, id) && !Ended(b.log, id) && !Abandoned(b.log, id)
  {
    var log := b.log;
    var row := RowFor(log[p].marker.payload, log[p]);
    if HasMeaning(log, row) {
      var p': nat :| RowMeans(log, row, p');
      SameMark(log, p, p');
      OneRowSays(log, row, p);
    }
    if FirstStart(log, p, id) && !Ended(log, id) && !Abandoned(log, id) {
      forall q | p < q < |log| ensures !EndsRun(log[q], id) && !AbandonsRun(log[q], id) {
        assert StartsRun(log[p], id);
      }
      assert RowMeans(log, row, p);
    }
  }

  /** The row in the table, if there is one, has the columns of the run's first start. */
  ghost predicate StartHeld(b: Book, id: string) {
    id in b.table &&
    exists p: nat :: FirstStart(b.log, p, id) && SameStart(b.table[id], RowFor(b.log[p].marker.payload, b.log[p]))
  }

  lemma EndWrite(b: Book, q: nat, id: string)
    requires Known(b) && Fits(b, WriteEnd(q)) && RunOf(b.log[q]) == Some(id) && Started(b.log, id)
    ensures AgreesAt(Moved(b, WriteEnd(q)), id) <==> FirstEndOf(b.log, q, id) && StartHeld(b, id)
  {
    if id in b.table {
      assert RowKnown(b.log, id, b.table[id]);
      var row := Closed(b.table[id], b.log[q], b.log[q].marker.status);
      assert Moved(b, WriteEnd(q)).table[id] == row;
      ClosedMeans(b.log, b.table[id], q, id);
    }
  }

  lemma ClosedMeans(log: seq<Mark>, row: RunRecord, q: nat, id: string)
    requires Ordered(log) && q < |log| && EndsRun(log[q], id) && row.runId == id
    ensures HasMeaning(log, Closed(row, log[q], log[q].marker.status)) <==>
      FirstEndOf(log, q, id) &&
      exists p: nat :: FirstStart(log, p, id) && SameStart(row, RowFor(log[p].marker.payload, log[p]))
  {
    var closed := Closed(row, log[q], log[q].marker.status);
    if HasMeaning(log, closed) {
      var p: nat :| RowMeans(log, closed, p);
      var q': nat :| ClosedBy(log, closed, p, q');
      SameMark(log, q, q');
      assert FirstStart(log, p, id) && FirstEnd(log, p, q, id);
      assert SameStart(row, RowFor(log[p].marker.payload, log[p]));
    }
    if FirstEndOf(log, q, id) {
      var p: nat :| FirstStart(log, p, id) && FirstEnd(log, p, q, id);
      if p': nat :| FirstStart(log, p', id) && SameStart(row, RowFor(log[p'].marker.payload, log[p'])) {
        assert p' == p;
        assert ClosedBy(log, closed, p, q);
        assert RowMeans(log, closed, p);
      }
    }
  }

  /** A table that agreed when the chain was shorter agrees now exactly if nothing new was said since. */
  lemma {:induction false} OldTable(log: seq<Mark>, table: Table, read: nat, id: string)
    requires read <= |log| && Known(Book(log[..read], table)) && Ordered(log)
    requires AgreesAt(Book(log[..read], table), id)
    ensures AgreesAt(Book(log, table), id) <==> QuietAbout(log, read, id)
    decreases |log|
  {
    hide AgreesAt, NewAbout, Known;
    if read == |log| {
      assert log[..read] == log;
    } else {
      var front, e := log[..|log| - 1], log[|log| - 1];
      assert log == front + [e] && front[..read] == log[..read];
      OldTable(front, table, read, id);
      KnownLater(log, table, read, |log| - 1);
      var b := Book(front, table);
      assert Moved(b, Append(e)) == Book(log, table);
      QuietAboutOneMore(front, e, read, id);
      if NewAbout(front, e, id) {
        NewAppend(b, e, id);
      } else {
        QuietAppend(b, e, id);
      }
    }
  }

  lemma QuietAboutOneMore(front: seq<Mark>, e: Mark, read: nat, id: string)
    requires read <= |front|
    ensures QuietAbout(front + [e], read, id) <==> QuietAbout(front, read, id) && !NewAbout(front, e, id)
  {
    hide NewAbout;
    var log := front + [e];
    assert log[..|front|] == front;
    assert forall k :: read <= k < |front| ==> log[..k] == front[..k] && log[k] == front[k];
  }

  lemma KnownLater(log: seq<Mark>, table: Table, read: nat, n: nat)
    requires read <= n <= |log| && Ordered(log) && Known(Book(log[..read], table))
    ensures Known(Book(log[..n], table))
  {
    hide RowKnown;
    forall id | id in table ensures RowKnown(log[..n], id, table[id]) {
      KnownStays(log[..read], log[..n], id, table[id]);
    }
  }

  lemma RefillWrite(b: Book, read: nat, id: string)
    requires Known(b) && read <= |b.log|
    ensures AgreesAt(Moved(b, Refill(read)), id) <==> QuietAbout(b.log, read, id)
  {
    hide HasMeaning, RowKnown, Derive, InsertAll;
    var t := Moved(b, Refill(read)).table;
    RefillIsExact(b, read);
    forall k | k in t ensures RowKnown(b.log[..read], k, t[k]) {
      MeaningIsKnown(b.log[..read], t[k]);
    }
    OldTable(b.log, t, read, id);
  }

  // ----- The start columns ----------------------------------------------------------------------------------------

  lemma FirstStartStays(log: seq<Mark>, more: seq<Mark>, p: nat, id: string)
    requires log <= more && Started(log, id)
    ensures FirstStart(more, p, id) <==> FirstStart(log, p, id)
  {
    var s :| 0 <= s < |log| && StartsRun(log[s], id);
    assert StartsRun(more[s], id);
    assert forall j :: 0 <= j < |log| ==> more[j] == log[j];
  }

  lemma StartHeldStep(b: Book, m: Move, id: string)
    requires Known(b) && Fits(b, m)
    ensures StartHeld(Moved(b, m), id) <==>
      match m
      case WriteStart(p) => if RunOf(b.log[p]) == Some(id) then FirstStart(b.log, p, id) else StartHeld(b, id)
      case Refill(read) => Started(b.log[..read], id)
      case _ => StartHeld(b, id)
  {
    var v := Moved(b, m);
    match m
    case Append(e) =>
      if id in b.table {
        assert RowKnown(b.log, id, b.table[id]);
        forall p: nat ensures FirstStart(v.log, p, id) <==> FirstStart(b.log, p, id) {
          FirstStartStays(b.log, v.log, p, id);
        }
      }
    case WriteStart(p) =>
      if RunOf(b.log[p]) == Some(id) {
        StartColumns(b, p, id);
      }
    case WriteEnd(q) =>
    case Refill(read) =>
      RefillColumns(b, read, id);
  }

  lemma StartColumns(b: Book, p: nat, id: string)
    requires Known(b) && Fits(b, WriteStart(p)) && RunOf(b.log[p]) == Some(id)
    ensures StartHeld(Moved(b, WriteStart(p)), id) <==> FirstStart(b.log, p, id)
  {
    var row := RowFor(b.log[p].marker.payload, b.log[p]);
    if p': nat :| FirstStart(b.log, p', id) && SameStart(row, RowFor(b.log[p'].marker.payload, b.log[p'])) {
      SameMark(b.log, p, p');
    }
  }

  lemma RefillColumns(b: Book, read: nat, id: string)
    requires Fits(b, Refill(read))
    ensures StartHeld(Moved(b, Refill(read)), id) <==> Started(b.log[..read], id)
  {
    var v := Moved(b, Refill(read));
    RefillIsExact(b, read);
    if id in v.table {
      var p: nat :| RowMeans(b.log[..read], v.table[id], p);
      FirstStartStays(b.log[..read], b.log, p, id);
      assert SameStart(v.table[id], RowFor(b.log[p].marker.payload, b.log[p]));
    }
  }

  // ----- Whole runs -----------------------------------------------------------------------------------------------

  lemma {:induction false} AlwaysKnown(books: seq<Book>, moves: seq<Move>, n: nat)
    requires History(books, moves) && n <= |moves|
    ensures Known(books[n])
  {
    hide Known, Moved, Fits;
    if n == 0 {
      NothingIsKnown();
    } else {
      AlwaysKnown(books, moves, n - 1);
      MoveKeepsKnown(books[n - 1], moves[n - 1]);
    }
  }

  lemma NothingIsKnown()
    ensures Known(Book([], map[]))
  {
  }

  lemma {:induction false} StartRightExactly(books: seq<Book>, moves: seq<Move>, n: nat, id: string)
    requires History(books, moves) && n <= |moves|
    ensures StartHeld(books[n], id) <==> StartRight(books, moves, n, id)
  {
    hide Known, Moved, StartHeld, Started, FirstStart;
    if n == 0 {
      assert !StartHeld(Book([], map[]), id) by { NoStartHeld(id); }
    } else {
      StartRightExactly(books, moves, n - 1, id);
      AlwaysKnown(books, moves, n - 1);
      StartHeldStep(books[n - 1], moves[n - 1], id);
    }
  }

  lemma NoStartHeld(id: string)
    ensures !StartHeld(Book([], map[]), id)
  {
  }

  /**
   Over every interleaving of appends, late index writes and rebuilds: the index says of a
   run what the chain says exactly when the last move that touched it was a write that says so.
   */
  lemma {:induction false} AgreesExactlyWhenUpToDate(books: seq<Book>, moves: seq<Move>, n: nat, id: string)
    requires History(books, moves) && n <= |moves|
    ensures AgreesAt(books[n], id) <==> UpToDate(books, moves, n, id)
  {
    hide Known, Moved, StartHeld, Started, FirstStart, Ended, Abandoned, AgreesAt, NewAbout, QuietAbout, FirstEndOf,
      StartRight;
    if n == 0 {
      NothingAgrees(id);
    } else {
      var b, m := books[n - 1], moves[n - 1];
      AgreesExactlyWhenUpToDate(books, moves, n - 1, id);
      AlwaysKnown(books, moves, n - 1);
      match m
      case Append(e) =>
        if NewAbout(b.log, e, id) {
          NewAppend(b, e, id);
        } else {
          QuietAppend(b, e, id);
        }
      case WriteStart(p) =>
        if RunOf(b.log[p]) == Some(id) {
          StartWrite(b, p, id);
        } else {
          OtherWrite(b, m, id);
        }
      case WriteEnd(q) =>
        if RunOf(b.log[q]) == Some(id) && Started(b.log, id) {
          StartRightExactly(books, moves, n - 1, id);
          EndWrite(b, q, id);
        } else {
          OtherWrite(b, m, id);
        }
      case Refill(read) =>
        RefillWrite(b, read, id);
    }
  }

  lemma NothingAgrees(id: string)
    ensures AgreesAt(Book([], map[]), id)
  {
  }

  lemma OtherWrite(b: Book, m: Move, id: string)
    requires Known(b) && Fits(b, m) && (m.WriteStart? || m.WriteEnd?)
    requires RunOf(b.log[m.at]) == Some(id) ==> m.WriteEnd? && !Started(b.log, id)
    ensures AgreesAt(Moved(b, m), id) <==> AgreesAt(b, id)
  {
    hide HasMeaning;
    if id in b.table {
      assert RowKnown(b.log, id, b.table[id]);
    }
  }

  /** Agreement about every run is agreement of index and chain. */
  lemma AgreesAboutAll(b: Book)
    ensures Agrees(b) <==> forall id :: AgreesAt(b, id)
  {
    var rows := DerivedRows(b.log);
    DerivedRowsMean(b.log);
    hide HasMeaning, Derive, Started;
    if Agrees(b) {
      forall id ensures AgreesAt(b, id) {
        RowsSayWhatTheLogSays(b.log, id);
        if id in b.table {
          var i :| 0 <= i < |rows| && rows[i].runId == id;
        }
      }
    }
    if forall id :: AgreesAt(b, id) {
      forall i | 0 <= i < |rows| ensures rows[i].runId in b.table && b.table[rows[i].runId] == rows[i] {
        var id := rows[i].runId;
        RowsSayWhatTheLogSays(b.log, id);
        assert AgreesAt(b, id);
        OneMeaning(b.log, rows[i], b.table[id]);
      }
      forall id | id in b.table ensures HasRow(rows, id) {
        assert AgreesAt(b, id);
        MeaningIsKnown(b.log, b.table[id]);
        RowsSayWhatTheLogSays(b.log, id);
      }
    }
  }

  lemma OneMeaning(log: seq<Mark>, r: RunRecord, q: RunRecord)
    requires HasMeaning(log, r) && HasMeaning(log, q) && r.runId == q.runId
    ensures r == q
  {
    var p: nat :| RowMeans(log, r, p);
    var p': nat :| RowMeans(log, q, p');
    MeaningDeterminesRow(log, r, q, p, p');
  }

  ghost predicate AllUpToDate(books: seq<Book>, moves: seq<Move>, n: nat)
    requires History(books, moves) && n <= |moves|
  {
    forall id :: UpToDate(books, moves, n, id)
  }

  /** Index and chain agree exactly when every run is up to date. */
  lemma {:induction false} AgreementAfterLateWrites(books: seq<Book>, moves: seq<Move>, n: nat)
    requires History(books, moves) && n <= |moves|
    ensures Agrees(books[n]) <==> AllUpToDate(books, moves, n)
  {
    hide AgreesAt, Agrees, UpToDate;
    AgreesAboutAll(books[n]);
    forall id ensures AgreesAt(books[n], id) <==> UpToDate(books, moves, n, id) {
      AgreesExactlyWhenUpToDate(books, moves, n, id);
    }
  }

  /**
   A start that is indexed late takes back what a rebuild put right: its run was marked
   abandoned in between, and the index says open again.
   */
  lemma LateStartUndoesAbandon(start: Mark, abandon: Mark)
    requires start.marker.StartOf? && abandon.marker == AbandonOf(start.marker.payload.runId)
    requires start.id < abandon.id
    ensures var b := Moved(Book([start, abandon], map[]), Refill(2));
      Agrees(b) && Fits(b, WriteStart(0)) && !Agrees(Moved(b, WriteStart(0)))
  {
    hide HasMeaning, RowKnown, Derive, InsertAll, FirstStart, Started, Agrees;
    var log := [start, abandon];
    var b := Moved(Book(log, map[]), Refill(2));
    RebuildStep(Book(log, map[]), 2);
    assert Known(Book(log, map[]));
    MoveKeepsKnown(Book(log, map[]), Refill(2));
    AbandonIsSeen(log, start.marker.payload.runId);
    StartWrite(b, 0, start.marker.payload.runId);
    AgreesAboutAll(Moved(b, WriteStart(0)));
  }

  lemma AbandonIsSeen(log: seq<Mark>, id: string)
    requires |log| == 2 && StartsRun(log[0], id) && AbandonsRun(log[1], id)
    ensures Abandoned(log, id)
  {
  }
}
