/**
 Server-sent events as the streaming client reads them (`agent/src/sse.rs`). Lines are
 those a line reader hands over, without their newline.
 */
module Sse {
  import opened Wrappers
  import opened Text

  datatype SseEvent = Data(payload: string) | Done | Ignore

  function TrimEol(line: string): (r: string)
    ensures r <= line
    ensures r == line <==> line == "" || line[|line| - 1] !in "\r\n"
  {
    if line != "" && line[|line| - 1] in "\r\n" then TrimEol(line[..|line| - 1]) else line
  }

  function ParseSseLine(line: string): SseEvent {
    var text := TrimEol(line);
    var trimmed := TrimStart(text);
    if Trim(text) == "" then Ignore
    else if ":" <= trimmed then Ignore
    else if "data:" <= trimmed then
      var rest := trimmed[5..];
      var payload := if " " <= rest then rest[1..] else rest;
      if Trim(payload) == "[DONE]" then Done else Data(payload)
    else Ignore
  }

  /** What a flush hands over. */
  function Flushed(parts: seq<string>): seq<string> {
    if parts == [] then [] else [Join(parts, '\n')]
  }

  /** The payloads of a stream: everything up to the end or `[DONE]`, then one flush. */
  function Payloads(parts: seq<string>, lines: seq<string>): seq<string>
    decreases |lines|
  {
    if lines == [] then Flushed(parts)
    else match ParseSseLine(lines[0])
      case Done => Flushed(parts)
      case Data(p) => Payloads(parts + [p], lines[1..])
      case Ignore => Flushed(parts) + Payloads([], lines[1..])
  }

  /** Buffered data lines, joined at each boundary. */
  class SseAccumulator {
    var parts: seq<string>
    var done: bool

    constructor ()
      ensures parts == [] && !done
    {
      parts := [];
      done := false;
    }

    /** One raw line; the completed payload, if the event ended. */
    method Feed(line: string) returns (payload: Option<string>)
      modifies this
      ensures done == (old(done) || ParseSseLine(line).Done?)
      ensures match ParseSseLine(line)
        case Done => parts == old(parts) && payload.None?
        case Data(p) => parts == old(parts) + [p] && payload.None?
        case Ignore => parts == [] && Flushed(old(parts)) == if payload.Some? then [payload.value] else []
    {
      payload := None;
      var event := ParseSseLine(line);
      match event
      case Done => done := true;
      case Data(p) => parts := parts + [p];
      case Ignore => payload := Flush();
    }

    method Flush() returns (payload: Option<string>)
      modifies this`parts
      ensures parts == [] && Flushed(old(parts)) == if payload.Some? then [payload.value] else []
    {
      if parts == [] {
        return None;
      }
      payload := Some(Join(parts, '\n'));
      parts := [];
    }
  }

  // ----- Writing a payload as data lines --------------------------------------------------------------

  function DataLine(part: string): string { "data: " + part }

  function DataLines(parts: seq<string>): seq<string> {
    if parts == [] then [] else [DataLine(parts[0])] + DataLines(parts[1..])
  }

  /** One event: a data line for each line of the payload, then a blank line. */
  function Printed(payloads: seq<string>): seq<string> {
    if payloads == [] then []
    else DataLines(Split(payloads[0], '\n')) + ([""] + Printed(payloads[1..]))
  }

  /** The reader takes the line for a terminator. */
  predicate ReadsAsDone(part: string) { Trim(TrimEol(part)) == "[DONE]" }

  predicate PlainLine(part: string) { TrimEol(part) == part && !ReadsAsDone(part) }

  /** No line of the payload ends in a carriage return or is the terminator up to white space. */
  predicate Printable(payload: string) {
    forall part :: part in Split(payload, '\n') ==> PlainLine(part)
  }

  lemma {:induction false} TrimEolKeepsHead(head: string, part: string)
    requires head != "" && head[|head| - 1] !in "\r\n"
    ensures TrimEol(head + part) == head + TrimEol(part)
    decreases |part|
  {
    var line := head + part;
    if part != "" && part[|part| - 1] in "\r\n" {
      assert line[..|line| - 1] == head + part[..|part| - 1];
      TrimEolKeepsHead(head, part[..|part| - 1]);
    } else if part == "" {
      assert line == head;
    }
  }

  lemma NotBlank(text: string)
    requires text != "" && !IsSpace(text[0])
    ensures TrimStart(text) == text && Trim(text) != ""
  {
    TrimEndKeepsFirst(text);
  }

  /** What a printed line reads as. */
  lemma {:induction false} DataLineReads(part: string)
    ensures ParseSseLine(DataLine(part)) == if ReadsAsDone(part) then Done else Data(TrimEol(part))
  {
    TrimEolKeepsHead("data: ", part);
    var text := "data: " + TrimEol(part);
    NotBlank(text);
    TextReads(DataLine(part), text, TrimEol(part));
  }

  lemma TextReads(line: string, text: string, payload: string)
    requires TrimEol(line) == text == "data: " + payload && TrimStart(text) == text && Trim(text) != ""
    ensures ParseSseLine(line) == if Trim(payload) == "[DONE]" then Done else Data(payload)
  {
    hide Trim, TrimEol, TrimStart;
    assert text[0] == 'd' && "data:" <= text;
    assert text[5..] == " " + payload;
    assert text[5..][1..] == payload;
  }

  predicate AllSpace(s: string) { forall i :: 0 <= i < |s| ==> IsSpace(s[i]) }

  /** A data field, after any white space and with or without the one optional space. */
  lemma {:induction false} DataFieldReads(ws: string, rest: string)
    requires AllSpace(ws)
    ensures var field := TrimEol(rest);
      var payload := if " " <= field then field[1..] else field;
      ParseSseLine(ws + ("data:" + rest)) == if Trim(payload) == "[DONE]" then Done else Data(payload)
  {
    var head := ws + "data:";
    assert ws + ("data:" + rest) == head + rest;
    TrimEolKeepsHead(head, rest);
    var text := "data:" + TrimEol(rest);
    assert head + TrimEol(rest) == ws + text;
    TrimStartSkips(ws, text);
    TrimIsEmpty(ws + text);
    assert !IsSpace((ws + text)[|ws|]);
    FieldReads(head + rest, text, TrimEol(rest));
  }

  lemma FieldReads(line: string, text: string, field: string)
    requires TrimStart(TrimEol(line)) == text == "data:" + field && Trim(TrimEol(line)) != ""
    ensures var payload := if " " <= field then field[1..] else field;
      ParseSseLine(line) == if Trim(payload) == "[DONE]" then Done else Data(payload)
  {
    hide Trim, TrimStart, TrimEol;
    assert text[0] == 'd' && text[5..] == field;
  }

  /** Any other line is ignored: after white space it is empty, or does not begin with the field name. */
  lemma OthersAreIgnored(line: string)
    requires !("data:" <= TrimStart(TrimEol(line)))
    ensures ParseSseLine(line) == Ignore
  {
  }

  function Cleaned(parts: seq<string>): (r: seq<string>)
    ensures |r| == |parts| && forall i :: 0 <= i < |r| ==> r[i] == TrimEol(parts[i])
  {
    if parts == [] then [] else [TrimEol(parts[0])] + Cleaned(parts[1..])
  }

  function DoneAt(parts: seq<string>): (k: nat)
    ensures k <= |parts| && (k < |parts| ==> ReadsAsDone(parts[k]))
    ensures forall i :: 0 <= i < k ==> !ReadsAsDone(parts[i])
  {
    if parts == [] || ReadsAsDone(parts[0]) then 0 else 1 + DoneAt(parts[1..])
  }

  lemma PayloadsStep(acc: seq<string>, line: string, rest: seq<string>)
    ensures Payloads(acc, [line] + rest) == match ParseSseLine(line)
      case Done => Flushed(acc)
      case Data(p) => Payloads(acc + [p], rest)
      case Ignore => Flushed(acc) + Payloads([], rest)
  {
    hide ParseSseLine, Flushed;
    assert ([line] + rest)[1..] == rest;
  }

  /** Data lines pile up until one reads as the terminator. */
  lemma {:induction false} DataLinesPileUp(acc: seq<string>, parts: seq<string>, tail: seq<string>)
    ensures var k := DoneAt(parts);
      Payloads(acc, DataLines(parts) + tail) ==
      if k < |parts| then Flushed(acc + Cleaned(parts[..k])) else Payloads(acc + Cleaned(parts), tail)
    decreases |parts|
  {
    hide ParseSseLine, TrimEol, ReadsAsDone, DataLine, Flushed, Payloads, Cleaned;
    if parts == [] {
      NoLines(acc, tail);
    } else {
      var part, more := parts[0], parts[1..];
      var k := DoneAt(parts);
      DataLineReads(part);
      DataLinesOfCons(parts, tail);
      PayloadsStep(acc, DataLine(part), DataLines(more) + tail);
      if k == 0 {
        NoLines(acc, []);
        assert parts[..0] == [];
      } else {
        DataLinesPileUp(acc + [TrimEol(part)], more, tail);
        assert parts == [part] + more && parts[..k] == [part] + more[..k - 1];
        CleanedOfCons(acc, part, more);
        CleanedOfCons(acc, part, more[..k - 1]);
      }
    }
  }

  lemma NoLines(acc: seq<string>, tail: seq<string>)
    ensures DataLines([]) + tail == tail && acc + Cleaned([]) == acc
  {
  }

  lemma DataLinesOfCons(parts: seq<string>, tail: seq<string>)
    requires parts != []
    ensures DataLines(parts) + tail == [DataLine(parts[0])] + (DataLines(parts[1..]) + tail)
  {
  }

  lemma CleanedOfCons(acc: seq<string>, part: string, rest: seq<string>)
    ensures acc + [TrimEol(part)] + Cleaned(rest) == acc + Cleaned([part] + rest)
  {
    hide TrimEol;
  }

  lemma BlankEnds(acc: seq<string>, rest: seq<string>)
    ensures Payloads(acc, [""] + rest) == Flushed(acc) + Payloads([], rest)
  {
    assert ParseSseLine("") == Ignore;
    assert ([""] + rest)[1..] == rest;
  }

  /** Cleaned lines spell the payload exactly when nothing was cleaned away. */
  lemma CleanedSpells(payload: string, k: nat)
    requires k <= |Split(payload, '\n')|
    ensures var parts := Split(payload, '\n');
      k > 0 && Join(Cleaned(parts[..k]), '\n') == payload <==> k == |parts| && Cleaned(parts) == parts
  {
    hide TrimEol;
    var parts := Split(payload, '\n');
    JoinSplit(payload, '\n');
    var some := Cleaned(parts[..k]);
    if k > 0 && Join(some, '\n') == payload {
      forall p | p in some ensures Free('\n', p) {
        var i :| 0 <= i < |some| && some[i] == p;
        assert parts[i] in parts && p == TrimEol(parts[i]);
      }
      JoinInjective(some, parts, '\n');
      assert parts[..k] == parts;
    }
    if k == |parts| {
      assert parts[..k] == parts;
    }
  }

  lemma PrintableExactly(payload: string)
    ensures var parts := Split(payload, '\n');
      Printable(payload) <==> DoneAt(parts) == |parts| && Cleaned(parts) == parts
  {
    var parts := Split(payload, '\n');
    if Printable(payload) {
      forall i | 0 <= i < |parts| ensures PlainLine(parts[i]) {
        assert parts[i] in parts;
      }
    }
    if DoneAt(parts) == |parts| && Cleaned(parts) == parts {
      forall part | part in parts ensures PlainLine(part) {
        var i :| 0 <= i < |parts| && parts[i] == part;
        assert Cleaned(parts)[i] == part;
      }
    }
  }

  lemma NothingToRead()
    ensures Payloads([], Printed([])) == []
  {
  }

  /** How the first printed event reads. */
  lemma FirstEvent(payloads: seq<string>)
    requires payloads != []
    ensures var parts := Split(payloads[0], '\n');
      var k := DoneAt(parts);
      Payloads([], Printed(payloads)) ==
      if k < |parts| then Flushed(Cleaned(parts[..k]))
      else [Join(Cleaned(parts), '\n')] + Payloads([], Printed(payloads[1..]))
  {
    hide Split, Join, Payloads, DoneAt, Cleaned;
    var parts := Split(payloads[0], '\n');
    var k := DoneAt(parts);
    DataLinesPileUp([], parts, [""] + Printed(payloads[1..]));
    BlankEnds(Cleaned(parts), Printed(payloads[1..]));
    assert [] + Cleaned(parts) == Cleaned(parts) && [] + Cleaned(parts[..k]) == Cleaned(parts[..k]);
  }

  /** Payloads written as events and read back come out as they went in exactly when all are printable. */
  lemma {:induction false} PrintedReadsBack(payloads: seq<string>)
    ensures Payloads([], Printed(payloads)) == payloads <==>
            forall p :: p in payloads ==> Printable(p)
  {
    hide Printable, ReadsAsDone, Split, Join, Payloads, DoneAt, Cleaned, Printed;
    if payloads == [] {
      NothingToRead();
    } else {
      var first, rest := payloads[0], payloads[1..];
      var parts := Split(first, '\n');
      PrintedReadsBack(rest);
      PrintableExactly(first);
      CleanedSpells(first, DoneAt(parts));
      FirstEvent(payloads);
      assert payloads == [first] + rest && parts[..|parts|] == parts;
    }
  }

  /** Two ways a stream may end: cut short, or with the terminator and anything after it. */
  predicate EndsStream(tail: seq<string>) { tail == [] || ParseSseLine(tail[0]) == Done }

  /** The last blank line may be missing, and what follows the terminator is not read. */
  lemma {:induction false} LastBlankMayBeMissing(payloads: seq<string>, last: string, tail: seq<string>)
    requires forall p :: p in payloads ==> Printable(p)
    requires Printable(last) && EndsStream(tail)
    ensures Payloads([], Printed(payloads) + (DataLines(Split(last, '\n')) + tail)) == payloads + [last]
    decreases |payloads|
  {
    hide Printable, ParseSseLine, Split, Join;
    if payloads == [] {
      OneEvent(last, tail);
      assert Flushed(Split(last, '\n')) == [last] by { JoinSplit(last, '\n'); }
      assert Payloads(Split(last, '\n'), tail) == Flushed(Split(last, '\n'));
      assert Printed(payloads) + (DataLines(Split(last, '\n')) + tail) == DataLines(Split(last, '\n')) + tail;
    } else {
      var first, rest := payloads[0], payloads[1..];
      var after := Printed(rest) + (DataLines(Split(last, '\n')) + tail);
      LastBlankMayBeMissing(rest, last, tail);
      OneEvent(first, [""] + after);
      BlankEnds(Split(first, '\n'), after);
      assert Flushed(Split(first, '\n')) == [first] by { JoinSplit(first, '\n'); }
      assert Printed(payloads) + (DataLines(Split(last, '\n')) + tail) ==
             DataLines(Split(first, '\n')) + ([""] + after);
    }
  }

  lemma OneEvent(payload: string, tail: seq<string>)
    requires Printable(payload)
    ensures Payloads([], DataLines(Split(payload, '\n')) + tail) == Payloads(Split(payload, '\n'), tail)
  {
    var parts := Split(payload, '\n');
    PrintableExactly(payload);
    DataLinesPileUp([], parts, tail);
    assert [] + Cleaned(parts) == parts;
  }

  // ----- Beside section 9.2.6 of the WHATWG HTML Living Standard ------------------------------------------

  predicate IsBlank(line: string) { TrimEol(line) == "" }

  /** The same lines, dispatched only at blank lines and at the end; other ignored lines do nothing. */
  function Standard(parts: seq<string>, lines: seq<string>): seq<string>
    decreases |lines|
  {
    if lines == [] then Flushed(parts)
    else match ParseSseLine(lines[0])
      case Done => Flushed(parts)
      case Data(p) => Standard(parts + [p], lines[1..])
      case Ignore =>
        if IsBlank(lines[0]) then Flushed(parts) + Standard([], lines[1..])
        else Standard(parts, lines[1..])
  }

  /** Where an event stands: none begun, data lines only so far, or interrupted by an ignored line. */
  datatype Phase = Between | Within | Interrupted

  /** No data line follows an ignored, non-blank line inside one event. */
  predicate Contiguous(phase: Phase, lines: seq<string>)
    decreases |lines|
  {
    lines == [] ||
    match ParseSseLine(lines[0])
    case Done => true
    case Data(_) => !phase.Interrupted? && Contiguous(Within, lines[1..])
    case Ignore =>
      if IsBlank(lines[0]) then Contiguous(Between, lines[1..])
      else Contiguous(if phase.Between? then Between else Interrupted, lines[1..])
  }

  /** The accumulator never hands over fewer payloads. */
  lemma {:induction false} NeverFewer(parts: seq<string>, held: seq<string>, lines: seq<string>)
    ensures |Payloads(parts, lines)| + (if parts == [] && held != [] then 1 else 0) >= |Standard(held, lines)|
    decreases |lines|
  {
    hide ParseSseLine, IsBlank, Join;
    if lines != [] {
      match ParseSseLine(lines[0])
      case Done =>
      case Data(p) => NeverFewer(parts + [p], held + [p], lines[1..]);
      case Ignore =>
        NeverFewer([], [], lines[1..]);
        NeverFewer([], held, lines[1..]);
    }
  }

  /** The accumulator and the standard agree exactly when the data lines of each event are contiguous. */
  lemma {:induction false} AgreesWhenContiguous(parts: seq<string>, lines: seq<string>)
    ensures Payloads(parts, lines) == Standard(parts, lines) <==>
            Contiguous(if parts == [] then Between else Within, lines)
    decreases |lines|
  {
    hide ParseSseLine, IsBlank, Join;
    if lines != [] {
      match ParseSseLine(lines[0])
      case Done =>
      case Data(p) => AgreesWhenContiguous(parts + [p], lines[1..]);
      case Ignore =>
        AgreesWhenContiguous([], lines[1..]);
        SameFront(Flushed(parts), Payloads([], lines[1..]), Standard([], lines[1..]));
        if parts == [] {
          assert Flushed(parts) + Payloads([], lines[1..]) == Payloads([], lines[1..]);
        } else {
          AfterInterruption(parts, lines[1..]);
        }
    }
  }

  lemma SameFront(a: seq<string>, b: seq<string>, c: seq<string>)
    ensures a + b == a + c <==> b == c
  {
    assert (a + b)[|a|..] == b && (a + c)[|a|..] == c;
  }

  lemma {:induction false} AfterInterruption(held: seq<string>, lines: seq<string>)
    requires held != []
    ensures Flushed(held) + Payloads([], lines) == Standard(held, lines) <==> Contiguous(Interrupted, lines)
    decreases |lines|
  {
    hide ParseSseLine, IsBlank, Join;
    if lines == [] {
      assert Flushed(held) + [] == Flushed(held);
    } else {
      match ParseSseLine(lines[0])
      case Done =>
      case Data(p) =>
        NeverFewer([p], held + [p], lines[1..]);
        assert [] + [p] == [p];
        assert |Flushed(held)| == 1;
      case Ignore =>
        AgreesWhenContiguous([], lines[1..]);
        SameFront(Flushed(held), Payloads([], lines[1..]), Standard([], lines[1..]));
        assert Flushed([]) + Payloads([], lines[1..]) == Payloads([], lines[1..]);
        AfterInterruption(held, lines[1..]);
    }
  }

  /** A comment inside an event splits it in two. */
  lemma {:induction false} CommentSplitsEvent()
    ensures Payloads([], ["data: a", ": c", "data: b"]) == ["a", "b"]
    ensures Standard([], ["data: a", ": c", "data: b"]) == ["a\nb"]
  {
    PlainLetters();
    hide TrimEol, ParseSseLine, IsBlank;
    DataLineReads("a");
    DataLineReads("b");
    assert DataLine("a") == "data: a" && DataLine("b") == "data: b";
    PayloadsStep([], "data: a", [": c", "data: b"]);
    PayloadsStep(["a"], ": c", ["data: b"]);
    PayloadsStep([], "data: b", []);
    assert ["data: a", ": c", "data: b"][1..] == [": c", "data: b"];
    assert [": c", "data: b"][1..] == ["data: b"];
    assert ["a"] + ["b"] == ["a", "b"] && ["data: b"][1..] == [];
    assert Standard(["a", "b"], []) == Flushed(["a", "b"]);
    assert Standard(["a"], ["data: b"]) == Standard(["a", "b"], []);
    assert Standard(["a"], [": c", "data: b"]) == Standard(["a"], ["data: b"]);
    assert [] + ["a"] == ["a"];
    assert Standard([], ["data: a", ": c", "data: b"]) == Standard(["a"], [": c", "data: b"]);
    assert "a" + ['\n'] + "b" == "a\nb";
    assert ["a", "b"][1..] == ["b"];
    assert Join(["a", "b"], '\n') == "a" + ['\n'] + "b";
  }

  lemma PlainLetters()
    ensures !ReadsAsDone("a") && !ReadsAsDone("b") && TrimEol("a") == "a" && TrimEol("b") == "b"
    ensures ParseSseLine(": c") == Ignore && !IsBlank(": c")
  {
    NotBlank(": c");
    assert TrimStart("a") == "a" && TrimStart("b") == "b";
  }
}
