/** The per-unit ring buffer of write commands. */
module CmdQueue {
  import opened Bytes
  import Codec

  const CAPACITY: nat := 16

  datatype Mode = Auto | Fc06 | Fc16

  /** `values` are the `count` registers copied by a push. */
  datatype Cmd = Cmd(addr: u16, values: seq<u16>, mode: Mode)

  /** `i` places after `from`, around the ring. */
  function Slot(from: nat, i: nat): (k: nat)
    ensures k < CAPACITY
  {
    (from + i) % CAPACITY
  }

  /** The ring's fields. */
  datatype Ring = Ring(entries: seq<Cmd>, head: nat, tail: nat, count: nat) {
    predicate Valid() {
      && |entries| == CAPACITY && head < CAPACITY && count <= CAPACITY
      && tail == Slot(head, count)
    }

    /** Oldest first. */
    function Contents(): (s: seq<Cmd>)
      requires Valid()
      ensures |s| == count
    {
      seq(count, i requires 0 <= i < count => entries[Slot(head, i)])
    }
  }

  /** An acceptable command, and room for it. */
  predicate Accepts(r: Ring, cmd: Cmd) {
    1 <= |cmd.values| <= Codec.MAX_WRITE_REGISTERS && r.count < CAPACITY
  }

  function Pushed(r: Ring, cmd: Cmd): Ring
    requires r.Valid()
  {
    if !Accepts(r, cmd) then r
    else Ring(r.entries[r.tail := cmd], r.head, Slot(r.tail, 1), r.count + 1)
  }

  function Popped(r: Ring): Ring
    requires r.Valid()
  {
    if r.count == 0 then r else Ring(r.entries, Slot(r.head, 1), r.tail, r.count - 1)
  }

  class Queue {
    const entries: array<Cmd>
    var head: nat
    var tail: nat
    var count: nat

    ghost function State(): Ring
      reads this, entries
    {
      Ring(entries[..], head, tail, count)
    }

    constructor ()
      ensures State().Valid() && State().Contents() == [] && fresh(entries)
    {
      entries := new Cmd[CAPACITY](_ => Cmd(0, [], Auto));
      head, tail, count := 0, 0, 0;
    }

    method Push(cmd: Cmd) returns (rc: int)
      requires State().Valid()
      modifies this, entries
      ensures State() == Pushed(old(State()), cmd)
      ensures rc == if 1 <= |cmd.values| <= 123 && old(count) < 16 then 0 else -1
    {
      if |cmd.values| == 0 || |cmd.values| > Codec.MAX_WRITE_REGISTERS {
        return -1;
      }
      if count >= CAPACITY {
        return -1;
      }
      entries[tail] := cmd;
      tail := (tail + 1) % CAPACITY;
      count := count + 1;
      return 0;
    }

    /** What the bridge thread pushes between two pops. */
    method PushAll(cmds: seq<Cmd>)
      requires State().Valid()
      modifies this, entries
      ensures State() == PushedAll(old(State()), cmds)
    {
      hide Ring.Valid, Pushed;
      ghost var was := State();
      for i := 0 to |cmds|
        invariant State() == PushedAll(was, cmds[..i])
      {
        assert cmds[..i + 1][..i] == cmds[..i];
        var _ := Push(cmds[i]);
      }
      assert cmds[..|cmds|] == cmds;
    }

    method Pop() returns (cmd: Option<Cmd>)
      requires State().Valid()
      modifies this
      ensures State() == Popped(old(State()))
      ensures cmd == if old(count) == 0 then None else Some(old(State().Contents()[0]))
    {
      if count == 0 {
        return None;
      }
      cmd := Some(entries[head]);
      head := (head + 1) % CAPACITY;
      count := count - 1;
    }
  }

  // ---------- First in, first out

  lemma SlotsApart(head: nat, i: nat, count: nat)
    requires i < count < CAPACITY
    ensures Slot(head, i) != Slot(head, count)
  {
  }

  lemma PushAppends(r: Ring, cmd: Cmd)
    requires r.Valid()
    ensures Pushed(r, cmd).Valid()
    ensures Accepts(r, cmd) <==> 1 <= |cmd.values| <= 123 && |r.Contents()| < 16
    ensures Pushed(r, cmd).Contents() == if Accepts(r, cmd) then r.Contents() + [cmd] else r.Contents()
  {
    if Accepts(r, cmd) {
      hide Ring.Contents, Slot;
      var p := Pushed(r, cmd);
      NextSlot(r.head, r.count);
      forall i | 0 <= i < r.count
        ensures p.Contents()[i] == r.Contents()[i]
      {
        SlotsApart(r.head, i, r.count);
        ContentsAt(p, i);
        ContentsAt(r, i);
      }
      ContentsAt(p, r.count);
      assert p.Contents() == r.Contents() + [cmd];
    }
  }

  lemma NextSlot(head: nat, count: nat)
    ensures Slot(Slot(head, count), 1) == Slot(head, count + 1)
  {
  }

  lemma SlotAfter(head: nat, i: nat)
    ensures Slot(Slot(head, 1), i) == Slot(head, i + 1)
  {
  }

  lemma PopTakesFirst(r: Ring)
    requires r.Valid()
    ensures Popped(r).Valid()
    ensures r.count == 0 ==> Popped(r) == r
    ensures r.count > 0 ==> r.Contents() == [r.Contents()[0]] + Popped(r).Contents()
  {
    if r.count > 0 {
      hide Ring.Contents, Slot;
      var p := Popped(r);
      SlotAfter(r.head, r.count - 1);
      forall i | 0 <= i < p.count
        ensures p.Contents()[i] == r.Contents()[i + 1]
      {
        SlotAfter(r.head, i);
        ContentsAt(p, i);
        ContentsAt(r, i + 1);
      }
    }
  }

  lemma ContentsAt(r: Ring, i: nat)
    requires r.Valid() && i < r.count
    ensures r.Contents()[i] == r.entries[Slot(r.head, i)]
  {
  }

  /** What the threads do to the ring, in the order the lock lets them. */
  datatype Op = PushOp(cmd: Cmd) | PopOp

  /** The ring after a history, what the pushes put in and what the pops took out. */
  datatype History = History(ring: Ring, accepted: seq<Cmd>, popped: seq<Cmd>)

  function After(r: Ring, ops: seq<Op>): (h: History)
    requires r.Valid()
    decreases |ops|
  {
    if ops == [] then History(r, [], [])
    else
      match ops[0]
      case PushOp(cmd) =>
        PushAppends(r, cmd);
        var h := After(Pushed(r, cmd), ops[1..]);
        if Accepts(r, cmd) then h.(accepted := [cmd] + h.accepted) else h
      case PopOp =>
        PopTakesFirst(r);
        var h := After(Popped(r), ops[1..]);
        if r.count > 0 then h.(popped := [r.Contents()[0]] + h.popped) else h
  }

  /** Over every interleaving nothing is lost, doubled or reordered. */
  lemma {:induction false} FirstInFirstOut(r: Ring, ops: seq<Op>)
    requires r.Valid()
    ensures var h := After(r, ops);
            h.ring.Valid() && r.Contents() + h.accepted == h.popped + h.ring.Contents()
    decreases |ops|
  {
    hide Ring.Contents, Ring.Valid, Pushed, Popped, Accepts;
    if ops != [] {
      match ops[0]
      case PushOp(cmd) =>
        PushAppends(r, cmd);
        FirstInFirstOut(Pushed(r, cmd), ops[1..]);
        Regroup(r.Contents(), [cmd], After(Pushed(r, cmd), ops[1..]).accepted);
      case PopOp =>
        PopTakesFirst(r);
        FirstInFirstOut(Popped(r), ops[1..]);
        if r.count > 0 {
          var h := After(Popped(r), ops[1..]);
          var first := [r.Contents()[0]];
          Regroup(first, Popped(r).Contents(), h.accepted);
          Regroup(first, h.popped, h.ring.Contents());
        }
    }
  }

  // ---------- A drain, with pushes arriving meanwhile

  function PushedAll(r: Ring, cmds: seq<Cmd>): (r': Ring)
    requires r.Valid()
    ensures r'.Valid()
    decreases |cmds|
  {
    if cmds == [] then r
    else
      var last := |cmds| - 1;
      PushAppends(PushedAll(r, cmds[..last]), cmds[last]);
      Pushed(PushedAll(r, cmds[..last]), cmds[last])
  }

  /** The commands among `cmds`, pushed in order, for which there is room. */
  function AcceptedOf(r: Ring, cmds: seq<Cmd>): seq<Cmd>
    requires r.Valid()
    decreases |cmds|
  {
    if cmds == [] then []
    else
      var last := |cmds| - 1;
      var before := AcceptedOf(r, cmds[..last]);
      if Accepts(PushedAll(r, cmds[..last]), cmds[last]) then before + [cmds[last]] else before
  }

  lemma {:induction false} PushingAllAppends(r: Ring, cmds: seq<Cmd>)
    requires r.Valid()
    ensures PushedAll(r, cmds).Contents() == r.Contents() + AcceptedOf(r, cmds)
    decreases |cmds|
  {
    hide Ring.Contents, Ring.Valid, Pushed, Accepts;
    if cmds != [] {
      var last := |cmds| - 1;
      PushingAllAppends(r, cmds[..last]);
      PushAppends(PushedAll(r, cmds[..last]), cmds[last]);
      Regroup(r.Contents(), AcceptedOf(r, cmds[..last]), [cmds[last]]);
    } else {
      assert r.Contents() + [] == r.Contents();
    }
  }

  /** A drain: the commands it takes out, in order, those accepted while it ran, and the ring it leaves. */
  datatype Drain = Drain(popped: seq<Cmd>, accepted: seq<Cmd>, ring: Ring)

  function First(arrivals: seq<seq<Cmd>>): seq<Cmd> {
    if arrivals == [] then [] else arrivals[0]
  }

  function Others(arrivals: seq<seq<Cmd>>): seq<seq<Cmd>> {
    if arrivals == [] then [] else arrivals[1..]
  }

  /**
   * Pop until a pop finds the queue empty, with `arrivals[i]` pushed before the i-th pop and nothing once they
   * run out.
   */
  function Drainage(r: Ring, arrivals: seq<seq<Cmd>>): (d: Drain)
    requires r.Valid()
    ensures d.ring.Valid() && d.ring.count == 0
    decreases |arrivals|, r.count
  {
    var r1 := PushedAll(r, First(arrivals));
    if r1.count == 0 then Drain([], AcceptedOf(r, First(arrivals)), r1)
    else
      PopTakesFirst(r1);
      var d := Drainage(Popped(r1), Others(arrivals));
      Drain([r1.Contents()[0]] + d.popped, AcceptedOf(r, First(arrivals)) + d.accepted, d.ring)
  }

  /** A drain takes out what was queued, at most 16 commands, and what was accepted while it ran, in order. */
  lemma {:induction false} DrainTakesAll(r: Ring, arrivals: seq<seq<Cmd>>)
    requires r.Valid()
    ensures Drainage(r, arrivals).popped == r.Contents() + Drainage(r, arrivals).accepted
    ensures arrivals == [] ==> Drainage(r, arrivals).popped == r.Contents()
    ensures |Drainage(r, arrivals).popped| <= 16 + |Drainage(r, arrivals).accepted|
    decreases |arrivals|, r.count
  {
    hide Ring.Contents, Ring.Valid, PushedAll, AcceptedOf;
    var now := AcceptedOf(r, First(arrivals));
    var r1 := PushedAll(r, First(arrivals));
    PushingAllAppends(r, First(arrivals));
    NothingArrives(r);
    FitsCapacity(r);
    if r1.count == 0 {
      EmptyContents(r1);
      assert r.Contents() + now == [];
    } else {
      PopTakesFirst(r1);
      var d := Drainage(Popped(r1), Others(arrivals));
      DrainTakesAll(Popped(r1), Others(arrivals));
      Regroup([r1.Contents()[0]], Popped(r1).Contents(), d.accepted);
      Regroup(r.Contents(), now, d.accepted);
    }
  }

  /** A drain of an empty queue takes out only what arrives. */
  lemma {:induction false} DrainedArrived(r: Ring, arrivals: seq<seq<Cmd>>, cmd: Cmd)
    requires r.Valid() && cmd in Drainage(r, arrivals).popped
    ensures cmd in r.Contents() || exists i :: 0 <= i < |arrivals| && cmd in arrivals[i]
    decreases |arrivals|, r.count
  {
    hide Ring.Contents, Ring.Valid, Popped, PushedAll, AcceptedOf;
    var now := First(arrivals);
    var r1 := PushedAll(r, now);
    NothingArrives(r);
    PushingAllAppends(r, now);
    if r1.count > 0 {
      PopTakesFirst(r1);
      PoppedCounts(r1);
      if cmd != r1.Contents()[0] {
        DrainedArrived(Popped(r1), Others(arrivals), cmd);
      }
      if cmd in r1.Contents() && cmd !in r.Contents() {
        AcceptedArrived(r, now, cmd);
        assert arrivals != [] && cmd in arrivals[0];
      } else if cmd !in r.Contents() {
        var i :| 0 <= i < |Others(arrivals)| && cmd in Others(arrivals)[i];
        assert cmd in arrivals[i + 1];
      }
    }
  }

  lemma PoppedCounts(r: Ring)
    requires r.Valid() && r.count > 0
    ensures Popped(r).count == r.count - 1
  {
  }

  lemma {:induction false} AcceptedArrived(r: Ring, cmds: seq<Cmd>, cmd: Cmd)
    requires r.Valid() && cmd in AcceptedOf(r, cmds)
    ensures cmd in cmds
    decreases |cmds|
  {
    var last := |cmds| - 1;
    if cmd in AcceptedOf(r, cmds[..last]) {
      AcceptedArrived(r, cmds[..last], cmd);
    }
  }

  lemma NothingArrives(r: Ring)
    requires r.Valid()
    ensures PushedAll(r, []) == r && AcceptedOf(r, []) == []
  {
  }

  lemma FitsCapacity(r: Ring)
    requires r.Valid()
    ensures |r.Contents()| <= CAPACITY
  {
  }

  lemma EmptyContents(r: Ring)
    requires r.Valid() && r.count == 0
    ensures r.Contents() == []
  {
  }

  /** Every queued command holds between 1 and 123 values. */
  predicate ProperCmds(cmds: seq<Cmd>) {
    forall cmd :: cmd in cmds ==> 1 <= |cmd.values| <= Codec.MAX_WRITE_REGISTERS
  }

  lemma RefusedMeansFull(r: Ring, cmd: Cmd)
    requires r.Valid() && 1 <= |cmd.values| <= Codec.MAX_WRITE_REGISTERS
    ensures !Accepts(r, cmd) <==> r.count == CAPACITY
  {
  }

  lemma PushKeepsProper(r: Ring, cmd: Cmd)
    requires r.Valid() && ProperCmds(r.Contents())
    ensures Pushed(r, cmd).Valid() && ProperCmds(Pushed(r, cmd).Contents())
  {
    hide Ring.Contents, Ring.Valid, Pushed;
    PushAppends(r, cmd);
  }

  lemma {:induction false} AcceptedAreProper(r: Ring, cmds: seq<Cmd>)
    requires r.Valid()
    ensures ProperCmds(AcceptedOf(r, cmds))
    decreases |cmds|
  {
    if cmds != [] {
      AcceptedAreProper(r, cmds[..|cmds| - 1]);
    }
  }

  lemma {:induction false} DrainedAreProper(r: Ring, arrivals: seq<seq<Cmd>>)
    requires r.Valid() && ProperCmds(r.Contents())
    ensures ProperCmds(Drainage(r, arrivals).popped)
    decreases |arrivals|, r.count
  {
    hide Ring.Contents, Ring.Valid, PushedAll, AcceptedOf;
    var r1 := PushedAll(r, First(arrivals));
    NothingArrives(r);
    PushingAllAppends(r, First(arrivals));
    AcceptedAreProper(r, First(arrivals));
    if r1.count > 0 {
      PopTakesFirst(r1);
      assert forall cmd :: cmd in Popped(r1).Contents() ==> cmd in r1.Contents();
      DrainedAreProper(Popped(r1), Others(arrivals));
    }
  }
}
