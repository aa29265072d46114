/**
 Identities of agents and instances (`agent/src/identity.rs`): one process-wide counter and
 a device name that may change between mints.
 */
module Identity {
  import opened Wrappers
  import opened Text

  const DEFAULT_DEVICE := "local"
  const TWO_64 := 0x1_0000_0000_0000_0000

  function Mint(device: string, pid: nat, seq_: nat): string {
    device + ['-'] + NatText(pid) + ['-'] + NatText(seq_)
  }

  /** Cutting from the right recovers all three parts, whatever the device is called. */
  lemma MintIsReadable(device: string, pid: nat, n: nat, device': string, pid': nat, n': nat)
    requires Mint(device, pid, n) == Mint(device', pid', n')
    ensures device == device' && pid == pid' && n == n'
  {
    hide NatText;
    var left, left' := device + ['-'] + NatText(pid), device' + ['-'] + NatText(pid');
    DigitsAreFree(NatText(n), '-');
    DigitsAreFree(NatText(n'), '-');
    assert Mint(device, pid, n) == left + ['-'] + NatText(n);
    assert Mint(device', pid', n') == left' + ['-'] + NatText(n');
    LastCutIsUnique('-', left, NatText(n), left', NatText(n'));
    DigitsAreFree(NatText(pid), '-');
    DigitsAreFree(NatText(pid'), '-');
    LastCutIsUnique('-', device, NatText(pid), device', NatText(pid'));
    NatTextInjective(n, n');
    NatTextInjective(pid, pid');
  }

  /** Device, pid and number, in that order, with a dash between each two. */
  lemma MintIsJoined(device: string, pid: nat, n: nat)
    ensures Mint(device, pid, n) == Join([device, NatText(pid), NatText(n)], '-')
  {
    hide NatText;
    var parts := [device, NatText(pid), NatText(n)];
    assert parts[1..] == [NatText(pid), NatText(n)] && parts[1..][1..] == [NatText(n)];
    assert Join([NatText(pid), NatText(n)], '-') == NatText(pid) + ['-'] + NatText(n);
  }

  // ----- One process ------------------------------------------------------------------------------

  datatype Op = Name(name: string) | NextAgent | NextInstance

  /** A blank name is ignored; otherwise the last caller wins. */
  function Named(held: Option<string>, name: string): Option<string> {
    if Trim(name) == "" then held else Some(name)
  }

  function DeviceOf(held: Option<string>): string {
    if held.Some? then held.value else DEFAULT_DEVICE
  }

  function HeldAfter(held: Option<string>, ops: seq<Op>): Option<string> {
    if ops == [] then held
    else
      var before := HeldAfter(held, ops[..|ops| - 1]);
      var last := ops[|ops| - 1];
      if last.Name? then Named(before, last.name) else before
  }

  predicate IsLastName(ops: seq<Op>, k: nat, device: string) {
    k < |ops| && Renames(ops[k]) && ops[k].name == device && forall j :: k < j < |ops| ==> !Renames(ops[j])
  }

  /** The device in force is the last name that is not blank, or the default before there is one. */
  lemma {:induction false} DeviceIsLastName(ops: seq<Op>)
    ensures var device := DeviceOf(HeldAfter(None, ops));
      || (device == "local" && forall k :: 0 <= k < |ops| ==> !Renames(ops[k]))
      || exists k: nat :: IsLastName(ops, k, device)
  {
    hide Trim, Renames;
    if ops != [] {
      var n := |ops| - 1;
      var front := ops[..n];
      assert forall k :: 0 <= k < n ==> front[k] == ops[k];
      DeviceIsLastName(front);
      NamedExactly(HeldAfter(None, front), ops[n]);
      var device := DeviceOf(HeldAfter(None, ops));
      if Renames(ops[n]) {
        assert IsLastName(ops, n, device);
      } else if k: nat :| IsLastName(front, k, device) {
        assert IsLastName(ops, k, device);
      }
    }
  }

  lemma NamedExactly(held: Option<string>, op: Op)
    ensures op.Name? ==> Named(held, op.name) == if Renames(op) then Some(op.name) else held
    ensures !op.Name? ==> !Renames(op)
  {
    if op.Name? {
      TrimIsEmpty(op.name);
    }
  }

  /** A name that is not white space alone. */
  predicate Renames(op: Op) { op.Name? && exists i :: 0 <= i < |op.name| && !IsSpace(op.name[i]) }

  /** The device in force at each mint, in order. */
  function Devices(held: Option<string>, ops: seq<Op>): seq<string> {
    if ops == [] then []
    else
      var front := ops[..|ops| - 1];
      Devices(held, front) + if ops[|ops| - 1].Name? then [] else [DeviceOf(HeldAfter(held, front))]
  }

  /** The counter after `k` more mints: `fetch_add` wraps. */
  function Counter(start: nat, k: nat): nat { (start + k) % TWO_64 }

  /** What the process has minted. */
  function Minted(pid: nat, devices: seq<string>): (ids: seq<string>)
    ensures |ids| == |devices|
    ensures forall k :: 0 <= k < |ids| ==> ids[k] == Mint(devices[k], pid, Counter(0, k + 1))
  {
    seq(|devices|, k requires 0 <= k < |devices| => Mint(devices[k], pid, Counter(0, k + 1)))
  }

  /** Numbers count from 1. */
  lemma NumbersCountFromOne(pid: nat, devices: seq<string>, k: nat)
    requires k < |devices| && k + 1 < TWO_64
    ensures Minted(pid, devices)[k] == Mint(devices[k], pid, k + 1)
  {
    hide Mint;
  }

  lemma CountersMeet(i: nat, j: nat)
    requires i <= j
    ensures Counter(0, i + 1) == Counter(0, j + 1) <==> (j - i) % TWO_64 == 0
  {
    var a, b := (i + 1) % TWO_64, (j + 1) % TWO_64;
    var d := (j - i) % TWO_64;
    assert a + d == b || a + d == b + TWO_64 by {
      SumOfRemainders(i + 1, j - i);
    }
  }

  lemma SumOfRemainders(x: nat, y: nat)
    ensures x % TWO_64 + y % TWO_64 == (x + y) % TWO_64 || x % TWO_64 + y % TWO_64 == (x + y) % TWO_64 + TWO_64
  {
    var q, r := x / TWO_64, y / TWO_64;
    var a, b := x % TWO_64, y % TWO_64;
    assert x + y == (q + r) * TWO_64 + (a + b);
    var s, t := (x + y) / TWO_64, (x + y) % TWO_64;
    assert (s - q - r) * TWO_64 + t == a + b;
    assert 0 <= a + b < 2 * TWO_64;
    assert s - q - r == 0 || s - q - r == 1;
  }

  /**
   Over any mix of naming and minting, two identities of a process are the same string
   exactly when the same device was in force and the counter went round in between.
   */
  lemma {:induction false} SameIdExactly(pid: nat, held: Option<string>, ops: seq<Op>, i: nat, j: nat)
    requires i <= j < |Devices(held, ops)|
    ensures var devices := Devices(held, ops);
      Minted(pid, devices)[i] == Minted(pid, devices)[j] <==>
      devices[i] == devices[j] && (j - i) % TWO_64 == 0
  {
    hide Counter, Mint;
    var devices := Devices(held, ops);
    CountersMeet(i, j);
    if Minted(pid, devices)[i] == Minted(pid, devices)[j] {
      MintIsReadable(devices[i], pid, Counter(0, i + 1), devices[j], pid, Counter(0, j + 1));
    }
  }

  /** All identities of up to 2^64 mints differ, and none is shared with another process's pid. */
  lemma IdsDiffer(pid: nat, held: Option<string>, ops: seq<Op>, i: nat, j: nat)
    requires i < j < |Devices(held, ops)| && j - i < TWO_64
    ensures Minted(pid, Devices(held, ops))[i] != Minted(pid, Devices(held, ops))[j]
  {
    SameIdExactly(pid, held, ops, i, j);
    assert (j - i) % TWO_64 == j - i;
  }

  lemma ProcessesDiffer(pid: nat, devices: seq<string>, i: nat, pid': nat, devices': seq<string>, j: nat)
    requires i < |devices| && j < |devices'| && pid != pid'
    ensures Minted(pid, devices)[i] != Minted(pid', devices')[j]
  {
    hide Counter, Mint;
    if Minted(pid, devices)[i] == Minted(pid', devices')[j] {
      MintIsReadable(devices[i], pid, Counter(0, i + 1), devices'[j], pid', Counter(0, j + 1));
    }
  }

  /** The process-wide device and counter. */
  class Process {
    const pid: nat
    var held: Option<string>
    var counter: nat
    ghost var ops: seq<Op>
    ghost var ids: seq<string>

    /** The fields are what the calls so far leave, and the ids are the ones they minted. */
    ghost predicate Valid()
      reads this
    {
      var devices := Devices(None, ops);
      held == HeldAfter(None, ops) && counter == Counter(0, |devices|) && ids == Minted(pid, devices)
    }

    constructor (pid: nat)
      ensures Valid() && this.pid == pid && ops == []
    {
      this.pid := pid;
      held := None;
      counter := 0;
      ops := [];
      ids := [];
    }

    function Device(): string
      reads this
    {
      if held.Some? then held.value else DEFAULT_DEVICE
    }

    method SetDevice(name: string) returns (previous: string)
      requires Valid()
      modifies this
      ensures Valid() && ops == old(ops) + [Name(name)] && ids == old(ids) && previous == old(Device())
    {
      previous := Device();
      if Trim(name) != "" {
        held := Some(name);
      }
      ops := ops + [Name(name)];
    }

    /** `fetch_add(1) + 1`, wrapping. */
    method NextSeq() returns (n: nat)
      modifies this`counter
      ensures counter == n == (old(counter) + 1) % TWO_64
    {
      counter := (counter + 1) % TWO_64;
      n := counter;
    }

    method NextAgentId() returns (id: string)
      requires Valid()
      modifies this
      ensures Valid() && ops == old(ops) + [NextAgent] && ids == old(ids) + [id]
    {
      ghost var k := |Devices(None, ops)|;
      var n := NextSeq();
      id := Mint(Device(), pid, n);
      OneMoreCount(k);
      ops := ops + [NextAgent];
      ids := ids + [id];
    }

    method NextInstanceId() returns (id: string)
      requires Valid()
      modifies this
      ensures Valid() && ops == old(ops) + [NextInstance] && ids == old(ids) + [id]
    {
      ghost var k := |Devices(None, ops)|;
      var n := NextSeq();
      id := Mint(Device(), pid, n);
      OneMoreCount(k);
      ops := ops + [NextInstance];
      ids := ids + [id];
    }
  }

  lemma OneMoreCount(k: nat)
    ensures (Counter(0, k) + 1) % TWO_64 == Counter(0, k + 1)
  {
    SumOfRemainders(k, 1);
  }
}
