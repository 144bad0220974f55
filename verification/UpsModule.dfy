/**
 * One UPS unit's poll cycle: drain the write queue, then scan the register table
 * segment by segment into the shared pool; and what any number of cycles make of the pool.
 */
module UpsModule {
  import opened Bytes
  import Codec
  import opened DeviceMap
  import opened Segmentation
  import opened CmdQueue
  import opened Transport
  import opened Client

  const COMM_FAIL_THRESHOLD: nat := 5

  // ---------- Writes

  /** The transaction a queued command asks for; none when FC06 is forced on several registers. */
  function WriteAsk(cmd: Cmd): Option<Ask> {
    match cmd.mode
    case Fc06 => if |cmd.values| != 1 then None else Some(WriteOne(cmd.addr, cmd.values[0]))
    case Fc16 => Some(WriteMany(cmd.addr, cmd.values))
    case Auto => if |cmd.values| == 1 then Some(WriteOne(cmd.addr, cmd.values[0]))
                 else Some(WriteMany(cmd.addr, cmd.values))
  }

  /** A zeroed read buffer. */
  function NoRegisters(): ReadBuffer { seq(Codec.MAX_READ_REGISTERS, _ => 0) }

  function Written(l: Link, cmd: Cmd): Link {
    match WriteAsk(cmd)
    case None => l
    case Some(ask) => Perform(l, ask, NoRegisters()).link
  }

  /** The link after each command, in order, has been attempted once. */
  function Drained(l: Link, cmds: seq<Cmd>): Link
    decreases |cmds|
  {
    if cmds == [] then l else Drained(Written(l, cmds[0]), cmds[1..])
  }

  /** The frames the commands put on the wire, starting after id `tid`; `sends` says which sends go through. */
  function Frames(tid: u16, unit: byte, sends: seq<bool>, cmds: seq<Cmd>): seq<seq<byte>>
    requires ProperCmds(cmds)
    decreases |cmds|
  {
    if cmds == [] then []
    else
      match WriteAsk(cmds[0])
      case None => Frames(tid, unit, sends, cmds[1..])
      case Some(ask) =>
        var next := NextTid(tid);
        if sends == [] then [ask.Adu(next, unit)] + Frames(next, unit, [], cmds[1..])
        else if sends[0] then [ask.Adu(next, unit)] + Frames(next, unit, sends[1..], cmds[1..])
        else Frames(next, unit, sends[1..], cmds[1..])
  }

  lemma WrittenSends(l: Link, cmd: Cmd)
    requires l.open && 1 <= |cmd.values| <= Codec.MAX_WRITE_REGISTERS
    ensures Written(l, cmd).open && Written(l, cmd).unit == l.unit
    ensures WriteAsk(cmd) == None ==> Written(l, cmd) == l
    ensures WriteAsk(cmd).Some? ==>
              WriteAsk(cmd).value.ValidArgs()
              && var link, frame := Written(l, cmd), WriteAsk(cmd).value.Adu(NextTid(l.tid), l.unit);
              link.tid == NextTid(l.tid) && link.sends == (if l.sends == [] then [] else l.sends[1..])
              && link.sent == if l.sends == [] || l.sends[0] then l.sent + [frame] else l.sent
  {
    hide RecvResponse, Check, Ask.Adu, NextTid;
  }

  /**
   * What writing a command puts on the wire, byte by byte: FC06 for one value unless FC16 is asked for, FC16 for
   * several unless FC06 is, and then nothing.
   */
  lemma CommandSent(l: Link, cmd: Cmd)
    requires l.open && 1 <= |cmd.values| <= 123
    ensures cmd.mode == Fc06 && |cmd.values| > 1 ==> Written(l, cmd) == l
    ensures !(cmd.mode == Fc06 && |cmd.values| > 1) ==>
              var after, tid, n := Written(l, cmd), if l.tid == 65535 then 1 else l.tid + 1, |cmd.values|;
              && after.tid == tid && after.sends == (if l.sends == [] then [] else l.sends[1..])
              && if l.sends != [] && !l.sends[0] then after.sent == l.sent
                 else
                   && |after.sent| == |l.sent| + 1 && after.sent[..|l.sent|] == l.sent
                   && var f, a, v := after.sent[|l.sent|], cmd.addr, cmd.values[0];
                      if cmd.mode != Fc16 && n == 1 then
                        f == [tid / 256, tid % 256, 0, 0, 0, 6, l.unit, 6, a / 256, a % 256, v / 256, v % 256]
                      else
                        && |f| >= 13 && Codec.HoldsRegisters(f, 13, cmd.values)
                        && f[..13] == [tid / 256, tid % 256, 0, 0, (7 + 2 * n) / 256, (7 + 2 * n) % 256, l.unit, 16,
                                       a / 256, a % 256, n / 256, n % 256, 2 * n]
  {
    hide WriteAsk, Written, Perform, Codec.HoldsRegisters;
    WrittenBy(l, cmd);
    if cmd.mode != Fc16 && |cmd.values| == 1 {
      RequestSent(l, WriteOne(cmd.addr, cmd.values[0]), NoRegisters());
    } else {
      RequestSent(l, WriteMany(cmd.addr, cmd.values), NoRegisters());
    }
  }

  lemma WrittenBy(l: Link, cmd: Cmd)
    requires 1 <= |cmd.values|
    ensures cmd.mode == Fc06 && |cmd.values| > 1 ==> Written(l, cmd) == l
    ensures cmd.mode != Fc16 && |cmd.values| == 1 ==>
              Written(l, cmd) == Perform(l, WriteOne(cmd.addr, cmd.values[0]), NoRegisters()).link
    ensures cmd.mode == Fc16 || (cmd.mode == Auto && |cmd.values| > 1) ==>
              Written(l, cmd) == Perform(l, WriteMany(cmd.addr, cmd.values), NoRegisters()).link
  {
    hide Perform;
  }

  /** Draining sends each command's own frame once, in queue order, under consecutive ids, whatever the replies. */
  lemma {:induction false} DrainSendsInOrder(l: Link, cmds: seq<Cmd>)
    requires l.open && ProperCmds(cmds)
    ensures Drained(l, cmds).sent == l.sent + Frames(l.tid, l.unit, l.sends, cmds)
    decreases |cmds|
  {
    hide Written, WriteAsk, Ask.Adu, NextTid;
    if cmds == [] {
      assert l.sent + [] == l.sent;
    } else {
      WrittenSends(l, cmds[0]);
      var next := Written(l, cmds[0]);
      DrainSendsInOrder(next, cmds[1..]);
      if WriteAsk(cmds[0]).Some? {
        var frame := WriteAsk(cmds[0]).value.Adu(NextTid(l.tid), l.unit);
        Regroup(l.sent, [frame], Frames(next.tid, next.unit, next.sends, cmds[1..]));
      }
    }
  }

  // ---------- The scan

  datatype Scan = Scan(link: Link, cells: Cells, fails: int, buf: ReadBuffer)

  function SegmentAsk(table: seq<Row>, s: Segment): Ask
    requires s.start < |table|
  {
    Read(table[s.start].device, s.len % 0x1_0000)
  }

  /** One segment read: its result code, and the state it leaves. */
  function ReadSegment(table: seq<Row>, s: Segment, was: Scan): (r: (int, Scan))
    requires s.start < |table|
  {
    var ask := SegmentAsk(table, s);
    var p := Perform(was.link, ask, was.buf);
    if p.rc != OK then (p.rc, Scan(p.link, was.cells, was.fails + 1, p.out))
    else (p.rc, Scan(p.link, Store(table, was.cells, ask.addr, p.out[..ask.qty]), 0, p.out))
  }

  /** The rest of a scan; -1 as soon as the failure counter reaches the threshold. */
  function ScanSegments(table: seq<Row>, segments: seq<Segment>, was: Scan): (r: (int, Scan))
    requires forall s :: s in segments ==> s.start < |table|
  {
    if segments == [] then (0, was)
    else
      var (rc, now) := ReadSegment(table, segments[0], was);
      if rc != OK && now.fails >= COMM_FAIL_THRESHOLD then (-1, now)
      else ScanSegments(table, segments[1..], now)
  }

  /** The result codes of the segments that were read. */
  function ScanResults(table: seq<Row>, segments: seq<Segment>, was: Scan): (rcs: seq<int>)
    requires forall s :: s in segments ==> s.start < |table|
    ensures |rcs| <= |segments|
  {
    if segments == [] then []
    else
      var (rc, now) := ReadSegment(table, segments[0], was);
      if rc != OK && now.fails >= COMM_FAIL_THRESHOLD then [rc]
      else [rc] + ScanResults(table, segments[1..], now)
  }

  function ScanTable(profile: Profile, was: Scan): (r: (int, Scan)) {
    ScanSegments(profile.table, ProfileSegments(profile), was)
  }

  /** A scan gives up exactly when the counter reaches the threshold; otherwise it ends below it. */
  lemma {:induction false} ScanCountsFailures(table: seq<Row>, segments: seq<Segment>, was: Scan)
    requires forall s :: s in segments ==> s.start < |table|
    requires 0 <= was.fails < COMM_FAIL_THRESHOLD
    ensures var (rc, end) := ScanSegments(table, segments, was);
            rc in {0, -1} && if rc == 0 then 0 <= end.fails < 5 else end.fails == 5
  {
    if segments != [] {
      var (rc, now) := ReadSegment(table, segments[0], was);
      if rc == OK || now.fails < COMM_FAIL_THRESHOLD {
        ScanCountsFailures(table, segments[1..], now);
      }
    }
  }

  lemma {:induction false} ScanKeepsSocket(table: seq<Row>, segments: seq<Segment>, was: Scan)
    requires forall s :: s in segments ==> s.start < |table|
    ensures ScanSegments(table, segments, was).1.link.open == was.link.open
  {
    if segments != [] {
      var (rc, now) := ReadSegment(table, segments[0], was);
      ScanKeepsSocket(table, segments[1..], now);
    }
  }

  lemma {:induction false} DrainingKeepsSocket(l: Link, cmds: seq<Cmd>)
    ensures Drained(l, cmds).open == l.open
    decreases |cmds|
  {
    if cmds != [] {
      DrainingKeepsSocket(Written(l, cmds[0]), cmds[1..]);
    }
  }

  // ---------- The poll cycle

  /** What a unit's poll cycles work on. */
  datatype Poll = Poll(link: Link, cells: Cells, fails: int)

  /** The scan of a cycle, as it finds the connection after the drain. The read buffer starts out zeroed. */
  function ScanOf(p: Poll, cmds: seq<Cmd>): Scan {
    Scan(Drained(p.link, cmds), p.cells, p.fails, NoRegisters())
  }

  /** One poll cycle whose drain takes out `cmds`. */
  function Polled(profile: Profile, p: Poll, cmds: seq<Cmd>): (r: (int, Poll)) {
    if profile.table == [] then (0, p.(link := Drained(p.link, cmds)))
    else
      var (rc, end) := ScanTable(profile, ScanOf(p, cmds));
      (rc, Poll(end.link, end.cells, end.fails))
  }

  /** The result codes of a cycle's reads. */
  function CycleResults(profile: Profile, p: Poll, cmds: seq<Cmd>): (rcs: seq<int>)
    ensures |rcs| <= |ProfileSegments(profile)|
  {
    ScanResults(profile.table, ProfileSegments(profile), ScanOf(p, cmds))
  }

  /** Cycles on one connection, up to the first that fails. */
  function PolledAll(profile: Profile, p: Poll, drains: seq<seq<Cmd>>): Poll
    decreases |drains|
  {
    if drains == [] then p
    else
      var (rc, next) := Polled(profile, p, drains[0]);
      if rc != 0 then next else PolledAll(profile, next, drains[1..])
  }

  /** None of them fails. */
  predicate AllSucceed(profile: Profile, p: Poll, drains: seq<seq<Cmd>>)
    decreases |drains|
  {
    drains == []
    || (Polled(profile, p, drains[0]).0 == 0 && AllSucceed(profile, Polled(profile, p, drains[0]).1, drains[1..]))
  }

  lemma {:induction false} OneMoreCycle(profile: Profile, p: Poll, drains: seq<seq<Cmd>>, cmds: seq<Cmd>)
    requires AllSucceed(profile, p, drains)
    ensures var (rc, next) := Polled(profile, PolledAll(profile, p, drains), cmds);
            PolledAll(profile, p, drains + [cmds]) == next && (rc == 0 ==> AllSucceed(profile, p, drains + [cmds]))
    decreases |drains|
  {
    hide Polled;
    if drains == [] {
      assert [] + [cmds] == [cmds] && [cmds][1..] == [];
    } else {
      OneMoreCycle(profile, Polled(profile, p, drains[0]).1, drains[1..], cmds);
      assert (drains + [cmds])[1..] == drains[1..] + [cmds];
    }
  }

  /** A connection of the thread: what it started with, and what the drain of each of its cycles took out. */
  datatype Served = Served(link: Link, drains: seq<seq<Cmd>>)

  /** The pool after these connections. */
  function PoolAfter(profile: Profile, cells: Cells, served: seq<Served>): Cells
    decreases |served|
  {
    if served == [] then cells
    else PoolAfter(profile, PolledAll(profile, Poll(served[0].link, cells, 0), served[0].drains).cells, served[1..])
  }

  lemma {:induction false} OneMoreConnection(profile: Profile, cells: Cells, served: seq<Served>, s: Served)
    ensures PoolAfter(profile, cells, served + [s])
            == PolledAll(profile, Poll(s.link, PoolAfter(profile, cells, served), 0), s.drains).cells
    decreases |served|
  {
    hide PolledAll;
    if served == [] {
      assert [] + [s] == [s] && [s][1..] == [];
    } else {
      var end := PolledAll(profile, Poll(served[0].link, cells, 0), served[0].drains);
      OneMoreConnection(profile, end.cells, served[1..], s);
      assert (served + [s])[1..] == served[1..] + [s];
    }
  }

  /** These connections, starting on these cells, take the frames sent from `before` to `after`. */
  ghost predicate SentBy(profile: Profile, cells: Cells, served: seq<Served>, before: seq<seq<byte>>,
                         after: seq<seq<byte>>)
    decreases |served|
  {
    if served == [] then after == before
    else
      var end := PolledAll(profile, Poll(served[0].link, cells, 0), served[0].drains);
      served[0].link.sent == before && SentBy(profile, end.cells, served[1..], end.link.sent, after)
  }

  lemma {:induction false} SentByOneMore(profile: Profile, cells: Cells, served: seq<Served>, before: seq<seq<byte>>,
                                         s: Served)
    requires SentBy(profile, cells, served, before, s.link.sent)
    ensures SentBy(profile, cells, served + [s], before,
                   PolledAll(profile, Poll(s.link, PoolAfter(profile, cells, served), 0), s.drains).link.sent)
    decreases |served|
  {
    hide PolledAll;
    var all := served + [s];
    if served == [] {
      assert all == [s] && all[1..] == [];
    } else {
      var end := PolledAll(profile, Poll(served[0].link, cells, 0), served[0].drains);
      SentByOneMore(profile, end.cells, served[1..], end.link.sent, s);
      assert all[0] == served[0] && all[1..] == served[1..] + [s];
    }
  }

  /** How one connection attempt goes, and what the connection will bring. */
  datatype Plan = Plan(reached: bool, sends: seq<bool>, script: seq<Event>)

  // ---------- The unit

  datatype ConnectionState = Disconnected | Connected

  class UpsUnit {
    const profile: Profile
    const client: ModbusClient
    const queue: Queue
    const pool: array<u16>
    var commFailCount: int
    var connection: ConnectionState

    ghost predicate Valid()
      reads this, queue, queue.entries
    {
      && pool.Length == INTERNAL_POOL_SIZE && Ascending(profile.table)
      && queue.State().Valid()
      && ProperCmds(queue.State().Contents())
    }

    ghost function State(): Poll
      reads this, client, client.socket, pool
      requires pool.Length == INTERNAL_POOL_SIZE
    {
      Poll(client.State(), pool[..], commFailCount)
    }

    constructor (profile: Profile, client: ModbusClient, queue: Queue, pool: array<u16>)
      requires pool.Length == INTERNAL_POOL_SIZE && Ascending(profile.table)
      requires queue.State().Valid() && queue.State().Contents() == []
      ensures Valid() && commFailCount == 0 && connection == Disconnected
      ensures this.profile == profile && this.client == client && this.queue == queue && this.pool == pool
    {
      this.profile, this.client, this.queue, this.pool := profile, client, queue, pool;
      commFailCount, connection := 0, Disconnected;
    }

    method InitCallback(reached: bool, sends: seq<bool>, script: seq<Event>) returns (rc: int)
      requires Valid()
      modifies this, client, client.socket
      ensures Valid() && rc == if reached then 0 else -1
      ensures client.State() == Link(reached, client.unit, 0, sends, script, old(client.sent), old(client.stacks))
      ensures reached ==> commFailCount == 0 && connection == Connected
      ensures !reached ==> commFailCount == old(commFailCount) && connection == old(connection)
    {
      rc := client.Connect(reached, sends, script);
      if rc != 0 {
        return -1;
      }
      commFailCount := 0;
      connection := Connected;
      return 0;
    }

    method WriteRegisters(cmd: Cmd) returns (rc: int)
      modifies client, client.socket
      ensures client.State() == Written(old(client.State()), cmd)
      ensures rc == 0 <==> WriteAsk(cmd).Some?
                           && Perform(old(client.State()), WriteAsk(cmd).value, NoRegisters()).rc == OK
      ensures rc in {0, -1}
    {
      var result;
      match cmd.mode {
        case Fc06 =>
          if |cmd.values| != 1 {
            return -1;
          }
          result := client.WriteSingleRegister(cmd.addr, cmd.values[0], NoRegisters());
        case Fc16 =>
          result := client.WriteMultipleRegisters(cmd.addr, cmd.values, NoRegisters());
        case Auto =>
          if |cmd.values| == 1 {
            result := client.WriteSingleRegister(cmd.addr, cmd.values[0], NoRegisters());
          } else {
            result := client.WriteMultipleRegisters(cmd.addr, cmd.values, NoRegisters());
          }
      }
      return if result != OK then -1 else 0;
    }

    /**
     * Phase 1: every command popped is attempted once, in order, whatever fails. `arrivals[i]` is what the bridge
     * thread pushes before the i-th pop.
     */
    method DrainQueue(arrivals: seq<seq<Cmd>>)
      requires Valid()
      modifies queue, queue.entries, client, client.socket
      ensures Valid()
      ensures queue.State() == Drainage(old(queue.State()), arrivals).ring
      ensures client.State() == Drained(old(client.State()), Drainage(old(queue.State()), arrivals).popped)
    {
      hide Ring.Contents, Ring.Valid, PushedAll, Popped, Written, ProperCmds;
      ghost var target := Drained(client.State(), Drainage(queue.State(), arrivals).popped);
      ghost var end := Drainage(queue.State(), arrivals).ring;
      var left := arrivals;
      while true
        invariant Valid()
        invariant Drained(client.State(), Drainage(queue.State(), left).popped) == target
        invariant Drainage(queue.State(), left).ring == end
        decreases |left|, queue.count
      {
        ghost var before := queue.State();
        PushingKeepsProper(before, First(left));
        if left != [] {
          queue.PushAll(left[0]);
        } else {
          NothingArrives(before);
        }
        left := Others(left);
        ghost var r1 := queue.State();
        PopTakesFirst(r1);
        PoppingKeepsProper(r1);
        var cmd := queue.Pop();
        match cmd {
          case None => break;
          case Some(c) =>
            var rc := WriteRegisters(c);
        }
      }
    }

    /** One read of the scan, into `buf` and on into the pool. */
    method ScanSegment(start: nat, len: nat, buf: array<u16>) returns (rc: int)
      requires Valid() && start < |profile.table| && buf.Length == Codec.MAX_READ_REGISTERS && buf != pool
      modifies this`commFailCount, client, client.socket, pool, buf
      ensures Valid()
      ensures (rc, Scan(client.State(), pool[..], commFailCount, buf[..]))
              == ReadSegment(profile.table, Segment(start, len),
                             old(Scan(client.State(), pool[..], commFailCount, buf[..])))
    {
      var addr: u16 := profile.table[start].device;
      var count: u16 := len % 0x1_0000;
      rc := client.ReadHoldingRegisters(addr, count, buf);
      if rc != OK {
        commFailCount := commFailCount + 1;
      } else {
        commFailCount := 0;
        ReadToPool(profile.table, buf[..], addr, count, pool);
      }
    }

    /** Phase 2: the segmented scan. */
    method ScanRegisters(buf: array<u16>) returns (rc: int)
      requires Valid() && buf.Length == Codec.MAX_READ_REGISTERS && buf != pool && profile.table != []
      modifies this`commFailCount, client, client.socket, pool, buf
      ensures Valid()
      ensures (rc, Scan(client.State(), pool[..], commFailCount, buf[..]))
              == ScanTable(profile, old(Scan(client.State(), pool[..], commFailCount, buf[..])))
    {
      hide ReadSegment, Ring.Contents, Ring.Valid, Ascending, ProperCmds, Grown;
      var table, chunk := profile.table, profile.readChunk;
      ghost var target := ScanTable(profile, Scan(client.State(), pool[..], commFailCount, buf[..]));
      SegmentStarts(table, chunk, 0);
      assert ProfileSegments(profile) == Segments(table, chunk, 0);
      var segStart, segLen := 0, 1;
      var i := 1;
      while i <= |table|
        invariant 1 <= i <= |table| + 1 && i == segStart + segLen
        invariant i <= |table| ==>
                    1 <= segLen && Grown(table, chunk, segStart, segLen) == Grown(table, chunk, segStart, 1)
        invariant i == |table| + 1 ==> segStart == |table|
        invariant Valid()
        invariant forall s :: s in Segments(table, chunk, segStart) ==> s.start < |table|
        invariant ScanSegments(table, Segments(table, chunk, segStart),
                               Scan(client.State(), pool[..], commFailCount, buf[..])) == target
      {
        var contiguous := i < |table| && table[i].device == table[i - 1].device + 1;
        var chunkFull := segLen >= chunk;
        GrownStep(table, chunk, segStart, segLen);
        if contiguous && !chunkFull {
          segLen := segLen + 1;
          i := i + 1;
          continue;
        }
        assert Segments(table, chunk, segStart) == [Segment(segStart, segLen)] + Segments(table, chunk, i);
        var result := ScanSegment(segStart, segLen, buf);
        if result != OK && commFailCount >= COMM_FAIL_THRESHOLD {
          return -1;
        }
        SegmentStarts(table, chunk, i);
        segStart, segLen := i, 1;
        i := i + 1;
      }
      return 0;
    }

    /** The poll cycle, with commands arriving while it drains. */
    method ProcessCallback(arrivals: seq<seq<Cmd>>) returns (rc: int)
      requires Valid()
      modifies this`commFailCount, queue, queue.entries, client, client.socket, pool
      ensures Valid() && queue.State() == Drainage(old(queue.State()), arrivals).ring
      ensures (rc, State()) == Polled(profile, old(State()), Drainage(old(queue.State()), arrivals).popped)
    {
      hide Drainage, Drained, ScanTable;
      DrainQueue(arrivals);
      if |profile.table| == 0 {
        return 0;
      }
      var buf := new u16[Codec.MAX_READ_REGISTERS](_ => 0);
      assert buf[..] == NoRegisters();
      rc := ScanRegisters(buf);
    }

    method ErrorCallback(state: ConnectionState)
      requires Valid()
      modifies this, client
      ensures Valid() && commFailCount == 0 && connection == state
      ensures client.State() == old(client.State()).(open := false)
    {
      client.Disconnect();
      commFailCount := 0;
      connection := state;
    }
  }

  lemma PushingKeepsProper(r: Ring, cmds: seq<Cmd>)
    requires r.Valid() && ProperCmds(r.Contents())
    ensures ProperCmds(PushedAll(r, cmds).Contents())
  {
    hide Ring.Contents, PushedAll, AcceptedOf;
    PushingAllAppends(r, cmds);
    AcceptedAreProper(r, cmds);
  }

  lemma PoppingKeepsProper(r: Ring)
    requires r.Valid() && ProperCmds(r.Contents())
    ensures Popped(r).Valid() && ProperCmds(Popped(r).Contents())
  {
    hide Ring.Contents, Popped;
    PopTakesFirst(r);
    assert forall cmd :: cmd in Popped(r).Contents() ==> cmd in r.Contents();
  }
}
