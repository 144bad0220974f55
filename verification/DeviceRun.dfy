/**
 * A whole run of the poll thread's code: what it makes of the pool when a device answers,
 * and what it puts on the wire when commands come through the bridge.
 */
module DeviceRun {
  import opened Bytes
  import opened Codec
  import opened DeviceMap
  import opened Segmentation
  import opened CmdQueue
  import opened Client
  import opened UpsModule
  import opened Session
  import opened EndToEndScan
  import Bridge
  import PollThread

  // ---------- What goes on the wire

  /** An FC03 request for consecutive mapped registers. */
  ghost predicate ReadsMapped(profile: Profile, id: byte, frame: seq<byte>) {
    exists tid: u16, s: Segment ::
      1 <= s.len <= MAX_READ_REGISTERS && IsRun(profile.table, s) && s.start < |profile.table|
      && frame == StandardRequest(tid, id, FC_READ_HOLDING_REGISTERS, profile.table[s.start].device, s.len)
  }

  /** An FC06 request to a mapped address that is not read-only. */
  ghost predicate WritesWritable(profile: Profile, id: byte, frame: seq<byte>) {
    exists tid: u16, i: nat, value: u16 ::
      i < |profile.table| && profile.table[i].access != ReadOnly
      && frame == StandardRequest(tid, id, FC_WRITE_SINGLE_REGISTER, profile.table[i].device, value)
  }

  ghost predicate ProperFrames(profile: Profile, l: Link) {
    forall f :: f in l.sent ==> ReadsMapped(profile, l.unit, f) || WritesWritable(profile, l.unit, f)
  }

  lemma PerformSends(l: Link, ask: Ask, out: ReadBuffer)
    ensures var link := Perform(l, ask, out).link;
            link.unit == l.unit
            && (link.sent == l.sent
                || (ask.ValidArgs() && link.sent == l.sent + [ask.Adu(NextTid(l.tid), l.unit)]))
  {
    hide Check, Ask.Adu, NextTid;
  }

  lemma WriteIsProper(profile: Profile, l: Link, cmd: Cmd)
    requires ProperFrames(profile, l) && Bridge.Allowed(profile, cmd)
    ensures ProperFrames(profile, Written(l, cmd)) && Written(l, cmd).unit == l.unit
  {
    hide Perform, StandardRequest, NextTid;
    var ask := WriteAsk(cmd).value;
    PerformSends(l, ask, NoRegisters());
    var i :| 0 <= i < |profile.table| && profile.table[i].device == cmd.addr && profile.table[i].access != ReadOnly;
    assert WritesWritable(profile, l.unit, ask.Adu(NextTid(l.tid), l.unit));
  }

  lemma {:induction false} DrainIsProper(profile: Profile, l: Link, cmds: seq<Cmd>)
    requires ProperFrames(profile, l) && forall cmd :: cmd in cmds ==> Bridge.Allowed(profile, cmd)
    ensures ProperFrames(profile, Drained(l, cmds)) && Drained(l, cmds).unit == l.unit
    decreases |cmds|
  {
    hide Written, ProperFrames;
    if cmds != [] {
      WriteIsProper(profile, l, cmds[0]);
      DrainIsProper(profile, Written(l, cmds[0]), cmds[1..]);
    }
  }

  lemma ReadIsProper(profile: Profile, s: Segment, was: Scan)
    requires ProperFrames(profile, was.link) && IsRun(profile.table, s) && s.start < |profile.table| && s.len < 0x1_0000
    ensures var now := ReadSegment(profile.table, s, was).1;
            ProperFrames(profile, now.link) && now.link.unit == was.link.unit
  {
    hide Perform, StandardRequest, NextTid, IsRun, Store;
    var ask := SegmentAsk(profile.table, s);
    PerformSends(was.link, ask, was.buf);
    if ask.ValidArgs() {
      assert ReadsMapped(profile, was.link.unit, ask.Adu(NextTid(was.link.tid), was.link.unit));
    }
  }

  lemma {:induction false} ScanIsProper(profile: Profile, segments: seq<Segment>, was: Scan)
    requires forall s :: s in segments ==> s.start < |profile.table| && IsRun(profile.table, s) && s.len < 0x1_0000
    requires ProperFrames(profile, was.link)
    ensures var end := ScanSegments(profile.table, segments, was).1;
            ProperFrames(profile, end.link) && end.link.unit == was.link.unit
    decreases |segments|
  {
    hide ReadSegment, ProperFrames, IsRun;
    if segments != [] {
      ReadIsProper(profile, segments[0], was);
      ScanIsProper(profile, segments[1..], ReadSegment(profile.table, segments[0], was).1);
    }
  }

  lemma CycleIsProper(profile: Profile, p: Poll, cmds: seq<Cmd>)
    requires ProperFrames(profile, p.link) && forall cmd :: cmd in cmds ==> Bridge.Allowed(profile, cmd)
    ensures var next := Polled(profile, p, cmds).1;
            ProperFrames(profile, next.link) && next.link.unit == p.link.unit
  {
    hide ProperFrames, Drained, ScanSegments, IsRun;
    DrainIsProper(profile, p.link, cmds);
    SegmentsCoverExactly(profile.table, profile.readChunk);
    ScanIsProper(profile, ProfileSegments(profile), ScanOf(p, cmds));
  }

  lemma {:induction false} CyclesAreProper(profile: Profile, p: Poll, drains: seq<seq<Cmd>>, ok: iset<Cmd>)
    requires ProperFrames(profile, p.link) && PollThread.ArriveIn(drains, ok)
    requires forall cmd :: cmd in ok ==> Bridge.Allowed(profile, cmd)
    ensures var end := PolledAll(profile, p, drains);
            ProperFrames(profile, end.link) && end.link.unit == p.link.unit
    decreases |drains|
  {
    hide ProperFrames, Polled, Bridge.Allowed;
    if drains != [] {
      CycleIsProper(profile, p, drains[0]);
      CyclesAreProper(profile, Polled(profile, p, drains[0]).1, drains[1..], ok);
    }
  }

  /** Whatever the connections bring, nothing else is ever sent. */
  lemma {:induction false} OnlyProperFrames(profile: Profile, id: byte, cells: Cells, served: seq<Served>,
                                            before: seq<seq<byte>>, after: seq<seq<byte>>, ok: iset<Cmd>)
    requires SentBy(profile, cells, served, before, after) && PollThread.DrainsIn(served, ok)
    requires forall cmd :: cmd in ok ==> Bridge.Allowed(profile, cmd)
    requires forall s :: s in served ==> s.link.unit == id
    requires forall f :: f in before ==> ReadsMapped(profile, id, f) || WritesWritable(profile, id, f)
    ensures forall f :: f in after ==> ReadsMapped(profile, id, f) || WritesWritable(profile, id, f)
    decreases |served|
  {
    hide ReadsMapped, WritesWritable, PolledAll, Bridge.Allowed, PollThread.ArriveIn;
    if served != [] {
      var end := PolledAll(profile, Poll(served[0].link, cells, 0), served[0].drains);
      CyclesAreProper(profile, Poll(served[0].link, cells, 0), served[0].drains, ok);
      OnlyProperFrames(profile, id, end.cells, served[1..], end.link.sent, after, ok);
    }
  }

  // ---------- What becomes of the pool

  /**
   * However the connections the thread made can be read as conversations with an in-order device, each row's cell
   * holds the register at the row's last successful read, and no other cell has changed.
   */
  ghost predicate FollowsDevice(profile: Profile, before: Cells, after: Cells, served: seq<Served>)
    requires OwnCells(profile.table)
  {
    forall ks: seq<Connection> :: ServedOn(ks) == served && AllConnectionsProper(profile, ks) ==>
      Follows(profile, before, after, ks)
  }

  ghost predicate AllConnectionsProper(profile: Profile, ks: seq<Connection>) {
    AllProper(profile, ks) && forall j :: 0 <= j < |ks| ==> ProperConnection(profile, ks[j])
  }

  ghost predicate Follows(profile: Profile, before: Cells, after: Cells, ks: seq<Connection>)
    requires OwnCells(profile.table) && AllProper(profile, ks)
  {
    && (forall i: nat :: i < |profile.table| ==> RowShows(profile, before, after, ks, i))
    && (forall x :: 0 <= x < INTERNAL_POOL_SIZE && Unowned(profile.table, x) ==> after[x] == before[x])
  }

  predicate RowShows(profile: Profile, before: Cells, after: Cells, ks: seq<Connection>, i: nat)
    requires AllProper(profile, ks) && i < |profile.table| && profile.table[i].pool < INTERNAL_POOL_SIZE
  {
    var cell := profile.table[i].pool;
    after[cell] == LastSeenOver(profile, before, ks, i, before[cell])
  }

  lemma PoolFollowsDevice(profile: Profile, before: Cells, served: seq<Served>)
    requires Ascending(profile.table) && OwnCells(profile.table)
    ensures FollowsDevice(profile, before, PoolAfter(profile, before, served), served)
  {
    hide PoolAfter, LastSeenOver, Unowned, AllProper, ProperConnection, ServedOn;
    forall ks: seq<Connection> | ServedOn(ks) == served && AllConnectionsProper(profile, ks)
      ensures Follows(profile, before, PoolAfter(profile, before, served), ks)
    {
      forall i: nat | i < |profile.table|
        ensures RowShows(profile, before, PoolAfter(profile, before, served), ks, i)
      {
        ThreadFollowsDevice(profile, before, ks, i);
      }
      CellsOfNoRow(profile, before, ks);
    }
  }

  lemma CellsOfNoRow(profile: Profile, before: Cells, ks: seq<Connection>)
    requires Ascending(profile.table) && OwnCells(profile.table) && AllConnectionsProper(profile, ks)
    ensures forall x :: 0 <= x < INTERNAL_POOL_SIZE && Unowned(profile.table, x) ==>
              PoolAfter(profile, before, ServedOn(ks))[x] == before[x]
  {
    hide PoolAfter, LastSeenOver, Unowned, AllProper, ProperConnection, ServedOn;
    if profile.table != [] {
      ThreadFollowsDevice(profile, before, ks, 0);
    } else {
      NothingRead(profile, before, ServedOn(ks));
    }
  }

  lemma {:induction false} NothingPolled(profile: Profile, p: Poll, drains: seq<seq<Cmd>>)
    requires profile.table == []
    ensures PolledAll(profile, p, drains).cells == p.cells
    decreases |drains|
  {
    if drains != [] {
      NothingPolled(profile, Polled(profile, p, drains[0]).1, drains[1..]);
    }
  }

  /** A unit without registers never touches the pool. */
  lemma {:induction false} NothingRead(profile: Profile, cells: Cells, served: seq<Served>)
    requires profile.table == []
    ensures PoolAfter(profile, cells, served) == cells
    decreases |served|
  {
    if served != [] {
      NothingPolled(profile, Poll(served[0].link, cells, 0), served[0].drains);
      NothingRead(profile, cells, served[1..]);
    }
  }

  // ---------- The run

  /** Every command pushed is one the bridge makes for this profile. */
  ghost predicate FromBridge(profile: Profile, arrivals: seq<seq<seq<Cmd>>>) {
    forall j, i, cmd :: 0 <= j < |arrivals| && 0 <= i < |arrivals[j]| && cmd in arrivals[j][i] ==>
      BridgeMakes(profile, cmd)
  }

  ghost predicate BridgeMakes(profile: Profile, cmd: Cmd) {
    exists addr: u16, value: u16 :: Bridge.WriteCommand(profile, addr, value) == Some(cmd)
  }

  lemma MadeIsAllowed(profile: Profile, cmd: Cmd)
    requires Ascending(profile.table) && BridgeMakes(profile, cmd)
    ensures Bridge.Allowed(profile, cmd)
  {
    var addr: u16, value: u16 :| Bridge.WriteCommand(profile, addr, value) == Some(cmd);
    Bridge.BridgeCommandAllowed(profile, addr, value);
  }

  /**
   * The thread's code from start to stop, fed by the bridge: the pool follows the device over every connection its
   * plans lead to, and all it ever sends are reads of mapped registers and single-register writes to writable ones.
   */
  method RunThread(unit: UpsUnit, plans: seq<Plan>, arrivals: seq<seq<seq<Cmd>>>, checks: nat)
    returns (ghost served: seq<Served>)
    requires unit.Valid() && OwnCells(unit.profile.table) && unit.queue.State().Contents() == []
    requires unit.commFailCount == 0 && unit.connection == Disconnected && unit.client.sent == []
    requires FromBridge(unit.profile, arrivals)
    modifies unit, unit.client, unit.client.socket, unit.queue, unit.queue.entries, unit.pool
    ensures unit.Valid() && !unit.client.open
    ensures forall s :: s in served ==> PollThread.ByPlan(plans, unit.client.unit, s)
    ensures FollowsDevice(unit.profile, old(unit.pool[..]), unit.pool[..], served)
    ensures forall f :: f in unit.client.sent ==>
              ReadsMapped(unit.profile, unit.client.unit, f) || WritesWritable(unit.profile, unit.client.unit, f)
  {
    hide Ring.Contents, Ring.Valid, ReadsMapped, WritesWritable, FollowsDevice, SentBy, PoolAfter, Bridge.Allowed;
    hide PollThread.Along, PollThread.HeadsFine, BridgeMakes;
    ghost var profile, cells := unit.profile, unit.pool[..];
    ghost var ok := iset cmd: Cmd | BridgeMakes(profile, cmd);
    ghost var steps, m, heads;
    steps, m, heads, served := PollThread.Thread(unit, plans, arrivals, checks, ok);
    PoolFollowsDevice(profile, cells, served);
    forall cmd | cmd in ok ensures Bridge.Allowed(profile, cmd) {
      MadeIsAllowed(profile, cmd);
    }
    OnlyProperFrames(profile, unit.client.unit, cells, served, [], unit.client.sent, ok);
  }
}
