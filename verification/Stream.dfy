/**
 A streamed answer put together while it is shown live (`agent/src/llm.rs`). How a payload
 decodes is a parameter.
 */
module Stream {
  import opened Wrappers
  import opened Text
  import opened Sse

  datatype StreamFunction = StreamFunction(name: Option<string>, arguments: Option<string>)

  datatype StreamToolCall = StreamToolCall(index: nat, id: Option<string>, function_: Option<StreamFunction>)

  /** One `choices[]` entry. */
  datatype StreamChoice = StreamChoice(content: Option<string>, toolCalls: seq<StreamToolCall>)

  type Decoder = string -> Option<seq<StreamChoice>>

  datatype StreamEvent =
    | Delta(text: string)
    | ToolCallDelta(index: nat, id: Option<string>, name: Option<string>, argsDelta: string)
    | Finished

  datatype PartialToolCall = PartialToolCall(index: nat, id: Option<string>, name: Option<string>, args: string)

  datatype ToolCall = ToolCall(id: string, name: string, arguments: string)

  datatype ChatResponse = ChatResponse(content: Option<string>, toolCalls: Option<seq<ToolCall>>)

  datatype StreamError = BadPayload | ReadFailed

  // ----- One fragment at a time ----------------------------------------------------------------------

  /** What a payload is made of, in the order it is handled. */
  datatype Fragment = Text_(text: string) | Call(call: StreamToolCall)

  /** What was shown, and what was put together so far. */
  datatype Buffer = Buffer(content: string, calls: seq<PartialToolCall>, events: seq<StreamEvent>)

  const NOTHING := Buffer("", [], [])

  function NonEmpty(s: Option<string>): Option<string> {
    if s.Some? && s.value != "" then s else None
  }

  function OrElse(s: Option<string>, other: Option<string>): Option<string> { if s.Some? then s else other }

  function OrEmpty(s: Option<string>): string { if s.Some? then s.value else "" }

  function SlotOf(calls: seq<PartialToolCall>, index: nat): (k: nat)
    ensures k <= |calls| && (k < |calls| ==> calls[k].index == index)
    ensures forall j :: 0 <= j < k ==> calls[j].index != index
  {
    if calls == [] || calls[0].index == index then 0 else 1 + SlotOf(calls[1..], index)
  }

  function NameIn(c: StreamToolCall): Option<string> {
    if c.function_.Some? then NonEmpty(c.function_.value.name) else None
  }

  function ArgsIn(c: StreamToolCall): string {
    if c.function_.Some? then OrEmpty(c.function_.value.arguments) else ""
  }

  function Updated(old_: PartialToolCall, c: StreamToolCall): PartialToolCall {
    PartialToolCall(old_.index, OrElse(NonEmpty(c.id), old_.id), OrElse(NameIn(c), old_.name), old_.args + ArgsIn(c))
  }

  function Take(b: Buffer, f: Fragment): Buffer {
    match f
    case Text_(text) =>
      if text == "" then b else b.(content := b.content + text, events := b.events + [Delta(text)])
    case Call(c) =>
      var k := SlotOf(b.calls, c.index);
      var calls := if k == |b.calls| then b.calls + [PartialToolCall(c.index, None, None, "")] else b.calls;
      var entry := Updated(calls[k], c);
      Buffer(b.content, calls[k := entry], b.events + [ToolCallDelta(c.index, entry.id, NameIn(c), ArgsIn(c))])
  }

  function TakeAll(b: Buffer, fs: seq<Fragment>): Buffer {
    if fs == [] then b else Take(TakeAll(b, fs[..|fs| - 1]), fs[|fs| - 1])
  }

  function CallFragments(calls: seq<StreamToolCall>): seq<Fragment> {
    if calls == [] then [] else CallFragments(calls[..|calls| - 1]) + [Call(calls[|calls| - 1])]
  }

  function ChoiceFragments(c: StreamChoice): seq<Fragment> {
    (if c.content.Some? then [Text_(c.content.value)] else []) + CallFragments(c.toolCalls)
  }

  function Fragments(choices: seq<StreamChoice>): seq<Fragment> {
    if choices == [] then [] else Fragments(choices[..|choices| - 1]) + ChoiceFragments(choices[|choices| - 1])
  }

  /** A blank payload decodes to nothing without being looked at. */
  function Decoded(decode: Decoder, payload: string): Option<seq<StreamChoice>> {
    if Trim(payload) == "" then Some([]) else decode(payload)
  }

  /** Handle payloads in order; the first that does not decode stops the stream. */
  function HandleAll(decode: Decoder, b: Buffer, payloads: seq<string>): (Buffer, bool)
    decreases |payloads|
  {
    if payloads == [] then (b, true)
    else match Decoded(decode, payloads[0])
      case Some(choices) => HandleAll(decode, TakeAll(b, Fragments(choices)), payloads[1..])
      case None => (b, false)
  }

  lemma {:induction false} TakeAllConcat(b: Buffer, xs: seq<Fragment>, ys: seq<Fragment>)
    ensures TakeAll(b, xs + ys) == TakeAll(TakeAll(b, xs), ys)
  {
    hide Take;
    if ys == [] {
      assert xs + ys == xs;
    } else {
      var n := |ys| - 1;
      assert (xs + ys)[..|xs + ys| - 1] == xs + ys[..n];
      TakeAllConcat(b, xs, ys[..n]);
    }
  }

  /** All fragments of a stream, wherever the payloads were cut; `None` if some payload is broken. */
  function StreamFragments(decode: Decoder, payloads: seq<string>): Option<seq<Fragment>> {
    if payloads == [] then Some([])
    else match (Decoded(decode, payloads[0]), StreamFragments(decode, payloads[1..]))
      case (Some(choices), Some(rest)) => Some(Fragments(choices) + rest)
      case _ => None
  }

  /** Only the fragments count, not how they were cut into payloads. */
  lemma {:induction false} CutsDoNotMatter(decode: Decoder, b: Buffer, payloads: seq<string>)
    ensures HandleAll(decode, b, payloads).1 <==> StreamFragments(decode, payloads).Some?
    ensures StreamFragments(decode, payloads).Some? ==>
      HandleAll(decode, b, payloads).0 == TakeAll(b, StreamFragments(decode, payloads).value)
    decreases |payloads|
  {
    hide TakeAll, Fragments, Decoded;
    if payloads == [] {
      TakeNone(b);
    } else {
      var first := Decoded(decode, payloads[0]);
      if first.Some? {
        CutsDoNotMatter(decode, TakeAll(b, Fragments(first.value)), payloads[1..]);
        var rest := StreamFragments(decode, payloads[1..]);
        if rest.Some? {
          TakeAllConcat(b, Fragments(first.value), rest.value);
        }
      }
    }
  }

  lemma TakeNone(b: Buffer)
    ensures TakeAll(b, []) == b
  {
  }

  // ----- What was shown, read on its own ---------------------------------------------------------------

  function ShownText(events: seq<StreamEvent>): string {
    if events == [] then ""
    else
      var e := events[|events| - 1];
      ShownText(events[..|events| - 1]) + if e.Delta? then e.text else ""
  }

  predicate About(e: StreamEvent, index: nat) { e.ToolCallDelta? && e.index == index }

  predicate Mentioned(events: seq<StreamEvent>, index: nat) {
    exists k :: 0 <= k < |events| && About(events[k], index)
  }

  function ShownArgs(events: seq<StreamEvent>, index: nat): string {
    if events == [] then ""
    else
      var e := events[|events| - 1];
      ShownArgs(events[..|events| - 1], index) + if About(e, index) then e.argsDelta else ""
  }

  /** The last name shown for the call. */
  function ShownName(events: seq<StreamEvent>, index: nat): Option<string> {
    if events == [] then None
    else
      var e := events[|events| - 1];
      if About(e, index) && e.name.Some? then e.name else ShownName(events[..|events| - 1], index)
  }

  /** The id the last event about the call carries. */
  function ShownId(events: seq<StreamEvent>, index: nat): Option<string> {
    if events == [] then None
    else
      var e := events[|events| - 1];
      if About(e, index) then e.id else ShownId(events[..|events| - 1], index)
  }

  function ShownCall(events: seq<StreamEvent>, index: nat): PartialToolCall {
    PartialToolCall(index, ShownId(events, index), ShownName(events, index), ShownArgs(events, index))
  }

  predicate DistinctIndexes(calls: seq<PartialToolCall>) {
    forall i, j :: 0 <= i < j < |calls| ==> calls[i].index != calls[j].index
  }

  /** The buffer holds what the events showed, and nothing else. */
  ghost predicate Faithful(b: Buffer) {
    && b.content == ShownText(b.events)
    && DistinctIndexes(b.calls)
    && (forall k :: 0 <= k < |b.calls| ==>
          b.calls[k] == ShownCall(b.events, b.calls[k].index) && Mentioned(b.events, b.calls[k].index))
    && (forall i :: Mentioned(b.events, i) ==> HasSlot(b.calls, i))
  }

  ghost predicate HasSlot(calls: seq<PartialToolCall>, index: nat) {
    exists k :: 0 <= k < |calls| && calls[k].index == index
  }

  lemma EventOfAnother(events: seq<StreamEvent>, e: StreamEvent, index: nat)
    requires !About(e, index)
    ensures ShownCall(events + [e], index) == ShownCall(events, index)
    ensures Mentioned(events + [e], index) <==> Mentioned(events, index)
  {
    var all := events + [e];
    assert all[..|events|] == events;
    if Mentioned(events, index) {
      var k :| 0 <= k < |events| && About(events[k], index);
      assert About(all[k], index);
    }
  }

  lemma EventOfThis(events: seq<StreamEvent>, e: StreamEvent, index: nat)
    requires About(e, index)
    ensures ShownCall(events + [e], index) == PartialToolCall(
      index, e.id, OrElse(e.name, ShownName(events, index)), ShownArgs(events, index) + e.argsDelta)
    ensures Mentioned(events + [e], index)
  {
    var all := events + [e];
    assert all[..|events|] == events && all[|events|] == e;
  }

  lemma {:induction false} UnmentionedIsBlank(events: seq<StreamEvent>, index: nat)
    requires !Mentioned(events, index)
    ensures ShownCall(events, index) == PartialToolCall(index, None, None, "")
  {
    if events != [] {
      var front, e := events[..|events| - 1], events[|events| - 1];
      assert !About(e, index);
      UnmentionedIsBlank(front, index);
    }
  }

  lemma TextKeepsFaithful(b: Buffer, text: string)
    requires Faithful(b)
    ensures Faithful(Take(b, Text_(text)))
  {
    hide ShownCall, Mentioned, HasSlot;
    if text != "" {
      var e := Delta(text);
      assert (b.events + [e])[..|b.events|] == b.events;
      forall i: nat ensures ShownCall(b.events + [e], i) == ShownCall(b.events, i)
      ensures Mentioned(b.events + [e], i) <==> Mentioned(b.events, i) {
        EventOfAnother(b.events, e, i);
      }
    }
  }

  lemma CallKeepsFaithful(b: Buffer, c: StreamToolCall)
    requires Faithful(b)
    ensures Faithful(Take(b, Call(c)))
  {
    hide ShownCall, Mentioned, ShownText, NameIn, ArgsIn, NonEmpty;
    var after := Take(b, Call(c));
    var k := SlotOf(b.calls, c.index);
    var e := after.events[|b.events|];
    assert after.events == b.events + [e] && About(e, c.index);
    SameText(b.events, e);
    EventOfThis(b.events, e, c.index);
    if k == |b.calls| {
      assert !Mentioned(b.events, c.index);
      UnmentionedIsBlank(b.events, c.index);
    }
    SlotsStay(b, after, k, c.index);
    assert after.calls[k] == ShownCall(after.events, c.index) by {
      assert b.calls[..k] == after.calls[..k];
      CallParts(b.events, c.index);
    }
    forall i: nat | i != c.index
      ensures ShownCall(after.events, i) == ShownCall(b.events, i)
      ensures Mentioned(after.events, i) <==> Mentioned(b.events, i)
    {
      EventOfAnother(b.events, e, i);
    }
  }

  lemma CallParts(events: seq<StreamEvent>, index: nat)
    ensures var call := ShownCall(events, index);
      call.index == index && call.id == ShownId(events, index) &&
      call.name == ShownName(events, index) && call.args == ShownArgs(events, index)
  {
  }

  lemma SameText(events: seq<StreamEvent>, e: StreamEvent)
    requires !e.Delta?
    ensures ShownText(events + [e]) == ShownText(events)
  {
    assert (events + [e])[..|events|] == events;
  }

  lemma SlotsStay(b: Buffer, after: Buffer, k: nat, index: nat)
    requires k == SlotOf(b.calls, index) && k < |after.calls| && after.calls[k].index == index
    requires |after.calls| == if k == |b.calls| then |b.calls| + 1 else |b.calls|
    requires forall j :: 0 <= j < |b.calls| && j != k ==> after.calls[j] == b.calls[j]
    requires DistinctIndexes(b.calls)
    ensures DistinctIndexes(after.calls)
    ensures forall i :: HasSlot(after.calls, i) <==> i == index || HasSlot(b.calls, i)
  {
    forall i | HasSlot(b.calls, i) ensures HasSlot(after.calls, i) {
      var j :| 0 <= j < |b.calls| && b.calls[j].index == i;
      assert after.calls[j].index == i;
    }
  }

  /** At every point of every stream, what is held is what was shown. */
  lemma {:induction false} TakeKeepsFaithful(b: Buffer, fs: seq<Fragment>)
    requires Faithful(b)
    ensures Faithful(TakeAll(b, fs))
  {
    hide Faithful, Take;
    if fs != [] {
      TakeKeepsFaithful(b, fs[..|fs| - 1]);
      var before := TakeAll(b, fs[..|fs| - 1]);
      match fs[|fs| - 1]
      case Text_(text) => TextKeepsFaithful(before, text);
      case Call(c) => CallKeepsFaithful(before, c);
    }
  }

  // ----- What the model said, read off the payloads -------------------------------------------------------

  /** All text, in order. */
  function SaidText(choices: seq<StreamChoice>): string {
    if choices == [] then ""
    else
      var last := choices[|choices| - 1];
      SaidText(choices[..|choices| - 1]) + if last.content.Some? then last.content.value else ""
  }

  /** All pieces of tool calls, in order. */
  function SaidCalls(choices: seq<StreamChoice>): seq<StreamToolCall> {
    if choices == [] then []
    else SaidCalls(choices[..|choices| - 1]) + choices[|choices| - 1].toolCalls
  }

  predicate Called(calls: seq<StreamToolCall>, index: nat) {
    exists k :: 0 <= k < |calls| && calls[k].index == index
  }

  /** The argument texts of one call, put together. */
  function SaidArgs(calls: seq<StreamToolCall>, index: nat): string {
    if calls == [] then ""
    else
      var rest, c := SaidArgs(calls[..|calls| - 1], index), calls[|calls| - 1];
      match c.function_
      case Some(StreamFunction(_, Some(arguments))) => if c.index == index then rest + arguments else rest
      case _ => rest
  }

  /** The last name given to it that is not empty. */
  function SaidName(calls: seq<StreamToolCall>, index: nat): Option<string> {
    if calls == [] then None
    else
      var rest, c := SaidName(calls[..|calls| - 1], index), calls[|calls| - 1];
      match c.function_
      case Some(StreamFunction(Some(name), _)) => if c.index == index && name != "" then Some(name) else rest
      case _ => rest
  }

  /** The last id given to it that is not empty. */
  function SaidId(calls: seq<StreamToolCall>, index: nat): Option<string> {
    if calls == [] then None
    else
      var rest, c := SaidId(calls[..|calls| - 1], index), calls[|calls| - 1];
      match c.id
      case Some(id) => if c.index == index && id != "" then Some(id) else rest
      case None => rest
  }

  function SaidCall(calls: seq<StreamToolCall>, index: nat): PartialToolCall {
    PartialToolCall(index, SaidId(calls, index), SaidName(calls, index), SaidArgs(calls, index))
  }

  /** The buffer holds, and subscribers saw, this text and these calls. */
  ghost predicate Tells(b: Buffer, text: string, calls: seq<StreamToolCall>) {
    && Faithful(b) && ShownText(b.events) == text
    && forall i: nat ::
         ShownCall(b.events, i) == SaidCall(calls, i) && (Mentioned(b.events, i) <==> Called(calls, i))
  }

  lemma TextTells(b: Buffer, text: string, calls: seq<StreamToolCall>, more: string)
    requires Tells(b, text, calls)
    ensures Tells(Take(b, Text_(more)), text + more, calls)
  {
    hide ShownCall, SaidCall, Mentioned, Called, Faithful;
    TextKeepsFaithful(b, more);
    if more == "" {
      assert text + more == text;
    } else {
      var e := Delta(more);
      assert (b.events + [e])[..|b.events|] == b.events;
      forall i: nat ensures ShownCall(b.events + [e], i) == ShownCall(b.events, i)
      ensures Mentioned(b.events + [e], i) <==> Mentioned(b.events, i) {
        EventOfAnother(b.events, e, i);
      }
    }
  }

  lemma CalledMore(calls: seq<StreamToolCall>, c: StreamToolCall, i: nat)
    ensures Called(calls + [c], i) <==> Called(calls, i) || c.index == i
  {
    var all := calls + [c];
    assert all[|calls|] == c;
    if Called(calls, i) {
      var k :| 0 <= k < |calls| && calls[k].index == i;
      assert all[k].index == i;
    }
  }

  /** What one more piece adds to the call it is about, and that it adds nothing to others. */
  lemma SaidMore(calls: seq<StreamToolCall>, c: StreamToolCall, i: nat)
    ensures SaidCall(calls + [c], i) ==
      if c.index == i then Updated(SaidCall(calls, i), c) else SaidCall(calls, i)
  {
    assert (calls + [c])[..|calls|] == calls;
  }

  lemma CallTells(b: Buffer, text: string, calls: seq<StreamToolCall>, c: StreamToolCall)
    requires Tells(b, text, calls)
    ensures Tells(Take(b, Call(c)), text, calls + [c])
  {
    CallKeepsFaithful(b, c);
    var after := Take(b, Call(c));
    var e := after.events[|b.events|];
    assert after.events == b.events + [e];
    SameText(b.events, e);
    ShownAfterCall(b, c);
    hide Take, Faithful, ShownCall, SaidCall, Mentioned, Called, Updated;
    forall i: nat
      ensures ShownCall(after.events, i) == SaidCall(calls + [c], i)
      ensures Mentioned(after.events, i) <==> Called(calls + [c], i)
    {
      CalledMore(calls, c, i);
      SaidMore(calls, c, i);
      if i != c.index {
        EventOfAnother(b.events, e, i);
      }
    }
  }

  lemma ShownAfterCall(b: Buffer, c: StreamToolCall)
    requires Faithful(b)
    ensures var after := Take(b, Call(c));
      && ShownCall(after.events, c.index) == Updated(ShownCall(b.events, c.index), c)
      && Mentioned(after.events, c.index)
  {
    hide ShownCall, Mentioned, ShownText, NameIn, ArgsIn, NonEmpty;
    var after := Take(b, Call(c));
    var k := SlotOf(b.calls, c.index);
    var e := after.events[|b.events|];
    assert after.events == b.events + [e] && About(e, c.index);
    EventOfThis(b.events, e, c.index);
    CallParts(b.events, c.index);
    if k == |b.calls| {
      assert !Mentioned(b.events, c.index);
      UnmentionedIsBlank(b.events, c.index);
    }
  }

  /** Text and calls of a list of fragments. */
  function TextOf(fs: seq<Fragment>): string {
    if fs == [] then ""
    else
      var last := fs[|fs| - 1];
      TextOf(fs[..|fs| - 1]) + if last.Text_? then last.text else ""
  }

  function CallsOf(fs: seq<Fragment>): seq<StreamToolCall> {
    if fs == [] then []
    else
      var last := fs[|fs| - 1];
      CallsOf(fs[..|fs| - 1]) + if last.Call? then [last.call] else []
  }

  lemma {:induction false} TakeTells(fs: seq<Fragment>)
    ensures Tells(TakeAll(NOTHING, fs), TextOf(fs), CallsOf(fs))
  {
    hide Tells, Take;
    if fs == [] {
      NothingTold();
    } else {
      var front := fs[..|fs| - 1];
      TakeTells(front);
      match fs[|fs| - 1]
      case Text_(text) =>
        TextTells(TakeAll(NOTHING, front), TextOf(front), CallsOf(front), text);
        assert CallsOf(front) + [] == CallsOf(front);
      case Call(c) =>
        CallTells(TakeAll(NOTHING, front), TextOf(front), CallsOf(front), c);
        assert TextOf(front) + "" == TextOf(front);
    }
  }

  lemma NothingTold()
    ensures Tells(NOTHING, "", [])
  {
  }

  lemma PartsOfConcat(xs: seq<Fragment>, ys: seq<Fragment>)
    ensures TextOf(xs + ys) == TextOf(xs) + TextOf(ys) && CallsOf(xs + ys) == CallsOf(xs) + CallsOf(ys)
  {
    TextOfConcat(xs, ys);
    CallsOfConcat(xs, ys);
  }

  lemma {:induction false} TextOfConcat(xs: seq<Fragment>, ys: seq<Fragment>)
    ensures TextOf(xs + ys) == TextOf(xs) + TextOf(ys)
  {
    if ys == [] {
      assert xs + ys == xs;
    } else {
      var n := |ys| - 1;
      assert (xs + ys)[..|xs + ys| - 1] == xs + ys[..n];
      TextOfConcat(xs, ys[..n]);
    }
  }

  lemma {:induction false} CallsOfConcat(xs: seq<Fragment>, ys: seq<Fragment>)
    ensures CallsOf(xs + ys) == CallsOf(xs) + CallsOf(ys)
  {
    if ys == [] {
      assert xs + ys == xs;
    } else {
      var n := |ys| - 1;
      assert (xs + ys)[..|xs + ys| - 1] == xs + ys[..n];
      CallsOfConcat(xs, ys[..n]);
    }
  }

  lemma PartsOfOne(f: Fragment)
    ensures TextOf([f]) == (if f.Text_? then f.text else "") && CallsOf([f]) == if f.Call? then [f.call] else []
  {
    assert [f][..0] == [];
  }

  lemma {:induction false} PartsOfCalls(calls: seq<StreamToolCall>)
    ensures TextOf(CallFragments(calls)) == "" && CallsOf(CallFragments(calls)) == calls
  {
    hide TextOf, CallsOf;
    if calls == [] {
      PartsOfNone();
    } else {
      var front, last := calls[..|calls| - 1], calls[|calls| - 1];
      PartsOfCalls(front);
      PartsOfConcat(CallFragments(front), [Call(last)]);
      PartsOfOne(Call(last));
      assert calls == front + [last];
    }
  }

  lemma PartsOfNone()
    ensures TextOf([]) == "" && CallsOf([]) == []
  {
  }

  lemma PartsOfChoice(c: StreamChoice)
    ensures TextOf(ChoiceFragments(c)) == if c.content.Some? then c.content.value else ""
    ensures CallsOf(ChoiceFragments(c)) == c.toolCalls
  {
    hide TextOf, CallsOf, CallFragments;
    PartsOfCalls(c.toolCalls);
    PartsOfNone();
    var head := if c.content.Some? then [Text_(c.content.value)] else [];
    if c.content.Some? {
      PartsOfOne(Text_(c.content.value));
    }
    PartsOfConcat(head, CallFragments(c.toolCalls));
    assert CallsOf(head) == [] && [] + c.toolCalls == c.toolCalls;
  }

  /** Taking choices apart loses and adds nothing. */
  lemma {:induction false} PartsOfChoices(choices: seq<StreamChoice>)
    ensures TextOf(Fragments(choices)) == SaidText(choices) && CallsOf(Fragments(choices)) == SaidCalls(choices)
  {
    hide TextOf, CallsOf, ChoiceFragments;
    if choices == [] {
      PartsOfNone();
    } else {
      var front, last := choices[..|choices| - 1], choices[|choices| - 1];
      PartsOfChoices(front);
      PartsOfConcat(Fragments(front), ChoiceFragments(last));
      PartsOfChoice(last);
    }
  }

  /**
   Whatever the choices, subscribers saw, and the buffer holds, exactly what they say: all
   text in order, and for each call the last id, the last name and all of its arguments.
   */
  lemma ChoicesAreTold(choices: seq<StreamChoice>)
    ensures Tells(TakeAll(NOTHING, Fragments(choices)), SaidText(choices), SaidCalls(choices))
  {
    hide Tells;
    TakeTells(Fragments(choices));
    PartsOfChoices(choices);
  }

  /** Everything a stream's payloads say; `None` if one of them is broken. */
  function StreamChoices(decode: Decoder, payloads: seq<string>): Option<seq<StreamChoice>> {
    if payloads == [] then Some([])
    else match (Decoded(decode, payloads[0]), StreamChoices(decode, payloads[1..]))
      case (Some(choices), Some(rest)) => Some(choices + rest)
      case _ => None
  }

  lemma {:induction false} FragmentsOfConcat(xs: seq<StreamChoice>, ys: seq<StreamChoice>)
    ensures Fragments(xs + ys) == Fragments(xs) + Fragments(ys)
  {
    hide ChoiceFragments;
    if ys == [] {
      assert xs + ys == xs;
    } else {
      var n := |ys| - 1;
      assert (xs + ys)[..|xs + ys| - 1] == xs + ys[..n];
      FragmentsOfConcat(xs, ys[..n]);
    }
  }

  lemma {:induction false} FragmentsOfStream(decode: Decoder, payloads: seq<string>)
    ensures StreamFragments(decode, payloads) == match StreamChoices(decode, payloads)
      case Some(choices) => Some(Fragments(choices))
      case None => None
  {
    hide Fragments, Decoded;
    if payloads == [] {
      assert Fragments([]) == [] by { NoFragments(); }
    } else {
      FragmentsOfStream(decode, payloads[1..]);
      var first, rest := Decoded(decode, payloads[0]), StreamChoices(decode, payloads[1..]);
      if first.Some? && rest.Some? {
        FragmentsOfConcat(first.value, rest.value);
      }
    }
  }

  lemma NoFragments()
    ensures Fragments([]) == []
  {
  }
}
