/**
 * From device registers to pool cells: the scan run over the byte-level client, the in-order
 * server and an arbitrary pattern of lost requests, refusals, silence and replies that come late.
 */
module EndToEndScan {
  import opened Bytes
  import opened Codec
  import opened DeviceMap
  import opened Segmentation
  import opened UpsModule
  import opened Client
  import opened Session
  import opened CmdQueue

  /** The turns a scan would take if none of its reads made it give up; `worlds[i]` is the device at the i-th read. */
  function Turns(table: seq<Row>, segments: seq<Segment>, worlds: seq<World>): (turns: seq<Turn>)
    requires |segments| == |worlds| && forall s :: s in segments ==> s.start < |table|
    ensures |turns| == |segments|
  {
    if segments == [] then []
    else [Turn(SegmentAsk(table, segments[0]), worlds[0])] + Turns(table, segments[1..], worlds[1..])
  }

  /** The device never answers with the exception code 0, which the client would take for success. */
  predicate ProperCodes(worlds: seq<World>) {
    forall k :: 0 <= k < |worlds| && worlds[k].Refuses? ==> worlds[k].code != 0
  }

  /** Row `i`'s cell after a scan: the register as of a successful read of its segment, or what it held before. */
  ghost predicate RowFollows(table: seq<Row>, i: nat, read: bool, world: World, before: Cells, after: Cells)
    requires i < |table| && table[i].pool < INTERNAL_POOL_SIZE
  {
    if read then world.Answers? && after[table[i].pool] == world.regs(table[i].device)
    else after[table[i].pool] == before[table[i].pool]
  }

  /** What a scan promises about every cell of the pool. */
  ghost predicate PoolFollows(table: seq<Row>, segments: seq<Segment>, worlds: seq<World>, rcs: seq<int>,
                              before: Cells, after: Cells)
    requires OwnCells(table) && |segments| == |worlds| && |rcs| <= |segments|
  {
    && (forall k, i :: 0 <= k < |segments| && InSegment(table, i, segments[k]) ==>
          RowFollows(table, i, k < |rcs| && rcs[k] == OK, worlds[k], before, after))
    && (forall c :: 0 <= c < INTERNAL_POOL_SIZE && Unowned(table, c) ==> after[c] == before[c])
  }

  predicate InSegment(table: seq<Row>, i: int, s: Segment) {
    s.start <= i < s.start + s.len && i < |table|
  }

  /** One successful read of a run of rows puts exactly those rows' registers into their cells. */
  lemma SegmentReadStores(table: seq<Row>, s: Segment, was: Scan, regs: Registers)
    requires Ascending(table) && OwnCells(table) && IsRun(table, s) && 1 <= s.len <= MAX_READ_REGISTERS
    requires table[s.start].device + s.len <= 0x1_0000
    requires var p := Perform(was.link, SegmentAsk(table, s), was.buf);
             p.rc == OK && p.out == Overwrite(was.buf, 0, Slice(regs, table[s.start].device, s.len))
    ensures var after := ReadSegment(table, s, was).1.cells;
            (forall i :: 0 <= i < |table| ==>
               after[table[i].pool] == if InSegment(table, i, s) then regs(table[i].device)
                                       else was.cells[table[i].pool])
            && (forall c :: 0 <= c < INTERNAL_POOL_SIZE && Unowned(table, c) ==> after[c] == was.cells[c])
  {
    hide Store, Perform, Unowned, Expected, InSegment, Slice;
    var start := table[s.start].device;
    var values := Slice(regs, start, s.len);
    assert Overwrite(was.buf, 0, values)[..s.len] == values;
    StoreRoutes(table, was.cells, start, values);
    RowsOfRun(table, s);
    forall i | 0 <= i < |table|
      ensures Expected(table[i], was.cells, start, values)
              == if InSegment(table, i, s) then regs(table[i].device) else was.cells[table[i].pool]
    {
      ExpectedIsRegister(table[i], was.cells, start, regs, s.len);
    }
  }

  lemma ExpectedIsRegister(row: Row, cells: Cells, start: u16, regs: Registers, n: nat)
    requires row.pool < INTERNAL_POOL_SIZE && start + n <= 0x1_0000
    ensures Expected(row, cells, start, Slice(regs, start, n))
            == if start <= row.device < start + n then regs(row.device) else cells[row.pool]
  {
  }

  /** In a strictly ascending table the rows of a run are exactly those in its address range. */
  lemma RowsOfRun(table: seq<Row>, s: Segment)
    requires Ascending(table) && IsRun(table, s) && 1 <= s.len
    ensures forall i :: 0 <= i < |table| ==>
              (InSegment(table, i, s) <==> table[s.start].device <= table[i].device < table[s.start].device + s.len)
  {
    forall i | 0 <= i < |table|
      ensures InSegment(table, i, s) <==> table[s.start].device <= table[i].device < table[s.start].device + s.len
    {
      if InSegment(table, i, s) {
        RunAddresses(table, s, i - s.start);
      } else if i >= s.start + s.len {
        RunAddresses(table, s, s.len - 1);
      }
    }
  }

  /** One segment of the scan, whatever becomes of it. */
  lemma ReadSegmentFollows(table: seq<Row>, s: Segment, was: Scan, c: Conversation, turns: seq<Turn>, world: World)
    requires Ascending(table) && OwnCells(table) && IsRun(table, s) && 1 <= s.len < 0x1_0000
    requires turns != [] && turns[0] == Turn(SegmentAsk(table, s), world) && (world.Refuses? ==> world.code != 0)
    requires Valid(c, turns) && Backlog(c) < 0xFFFF && was.link == c.link
    ensures var (rc, now) := ReadSegment(table, s, was);
            (rc == OK ==> world.Answers?)
            && now.link == Advance(c, turns[0], was.buf).link
            && (forall i :: 0 <= i < |table| ==>
                  now.cells[table[i].pool] == if rc == OK && InSegment(table, i, s) then world.regs(table[i].device)
                                              else was.cells[table[i].pool])
            && (forall x :: 0 <= x < INTERNAL_POOL_SIZE && Unowned(table, x) ==> now.cells[x] == was.cells[x])
  {
    hide Valid, Perform, Store, Unowned, Aligned, Overwrite;
    TransactionIsGenuine(c, turns, was.buf);
    RunAddresses(table, s, s.len - 1);
    var p := Perform(was.link, SegmentAsk(table, s), was.buf);
    if p.rc == OK {
      SegmentReadStores(table, s, was, world.regs);
    }
  }

  /** Putting the first segment in front of what is known of the rest. */
  lemma PoolFollowsFrom(table: seq<Row>, segments: seq<Segment>, worlds: seq<World>, rc: int, rcs: seq<int>,
                        before: Cells, now: Cells, after: Cells)
    requires OwnCells(table) && segments != [] && |segments| == |worlds| && |rcs| < |segments|
    requires PoolFollows(table, segments[1..], worlds[1..], rcs, now, after)
    requires forall k :: 1 <= k < |segments| ==> segments[0].start + segments[0].len <= segments[k].start
    requires forall i :: 0 <= i < |table| && InSegment(table, i, segments[0]) ==>
               after[table[i].pool] == now[table[i].pool]
    requires rc == OK ==> worlds[0].Answers?
    requires forall i :: 0 <= i < |table| ==>
               now[table[i].pool] == if rc == OK && InSegment(table, i, segments[0])
                                     then worlds[0].regs(table[i].device) else before[table[i].pool]
    requires forall x :: 0 <= x < INTERNAL_POOL_SIZE && Unowned(table, x) ==> now[x] == before[x]
    ensures PoolFollows(table, segments, worlds, [rc] + rcs, before, after)
  {
    hide Unowned;
    var all := [rc] + rcs;
    forall k, i | 0 <= k < |segments| && InSegment(table, i, segments[k])
      ensures RowFollows(table, i, k < |all| && all[k] == OK, worlds[k], before, after)
    {
      if k > 0 {
        assert segments[k] == segments[1..][k - 1] && worlds[k] == worlds[1..][k - 1];
        assert InSegment(table, i, segments[1..][k - 1]);
        assert RowFollows(table, i, k - 1 < |rcs| && rcs[k - 1] == OK, worlds[1..][k - 1], now, after);
      }
    }
  }

  lemma NothingReadFollows(table: seq<Row>, segments: seq<Segment>, worlds: seq<World>, cells: Cells)
    requires OwnCells(table) && |segments| == |worlds|
    ensures PoolFollows(table, segments, worlds, [], cells, cells)
  {
  }

  // ---------- Why no reply is ever 65535 transactions late

  /**
   * The most commands one drain may take out. Without pushes arriving meanwhile a drain takes out at most 16, so
   * this only asks that fewer than 13091 arrive during one.
   */
  const MAX_DRAINED: nat := 13106

  /**
   * The backlog is paid for by failures in a row: each read that fails adds at most itself and one drain, a read
   * that succeeds had nothing outstanding and leaves nothing, and the fifth failure ends the connection. `extra` is
   * the current drain's.
   */
  ghost predicate BacklogPaid(c: Conversation, fails: int, extra: nat) {
    0 <= Backlog(c) <= (MAX_DRAINED + 1) * fails + extra
  }

  lemma PaidIsEnough(c: Conversation, fails: int, extra: nat)
    requires BacklogPaid(c, fails, extra) && fails < COMM_FAIL_THRESHOLD && extra <= MAX_DRAINED
    ensures Backlog(c) < 0xFFFF
  {
    hide Backlog;
  }

  /** A read of the scan, as far as the connection and the counter go. */
  lemma ReadPays(table: seq<Row>, s: Segment, was: Scan, c: Conversation, turns: seq<Turn>, world: World, extra: nat)
    requires s.start < |table| && turns != [] && turns[0] == Turn(SegmentAsk(table, s), world)
    requires Valid(c, turns) && was.link == c.link
    requires 0 <= was.fails < COMM_FAIL_THRESHOLD && BacklogPaid(c, was.fails, extra) && extra <= MAX_DRAINED
    ensures var (rc, now) := ReadSegment(table, s, was);
            c.bursts != []
            && var c' := Advance(c, turns[0], was.buf);
            Valid(c', turns[1..]) && c'.link == now.link && BacklogPaid(c', now.fails, 0)
            && now.fails == if rc == OK then 0 else was.fails + 1
  {
    hide Valid, Perform, Store, Backlog;
    PaidIsEnough(c, was.fails, extra);
    AdvanceKeepsValid(c, turns, was.buf);
    BacklogGrowsByOne(c, turns, was.buf);
    AnsweredIff(c, turns, was.buf);
  }

  // ---------- The scan

  lemma TurnsSplit(table: seq<Row>, segments: seq<Segment>, worlds: seq<World>, later: seq<Turn>)
    requires segments != [] && |segments| == |worlds| && forall s :: s in segments ==> s.start < |table|
    ensures var turns := Turns(table, segments, worlds) + later;
            turns != [] && turns[0] == Turn(SegmentAsk(table, segments[0]), worlds[0])
            && turns[1..] == Turns(table, segments[1..], worlds[1..]) + later
  {
    var first := Turn(SegmentAsk(table, segments[0]), worlds[0]);
    var rest := Turns(table, segments[1..], worlds[1..]);
    assert Turns(table, segments, worlds) == [first] + rest;
    hide Turns, SegmentAsk;
    Regroup([first], rest, later);
  }

  lemma TurnsNone(table: seq<Row>, later: seq<Turn>)
    ensures Turns(table, [], []) + later == later
  {
  }

  /** The scan over segments that tile the table from row `start` on, and what it leaves if it does not give up. */
  lemma {:induction false} ScanFollowsFrom(table: seq<Row>, segments: seq<Segment>, start: nat, was: Scan,
                                           c: Conversation, worlds: seq<World>, later: seq<Turn>, extra: nat)
    returns (c': Conversation)
    requires Ascending(table) && OwnCells(table) && Tiles(table, segments, start)
    requires |worlds| == |segments| && ProperCodes(worlds) && forall s :: s in segments ==> s.start < |table|
    requires Valid(c, Turns(table, segments, worlds) + later) && was.link == c.link
    requires 0 <= was.fails < COMM_FAIL_THRESHOLD && BacklogPaid(c, was.fails, extra) && extra <= MAX_DRAINED
    ensures var (rc, end) := ScanSegments(table, segments, was);
            PoolFollows(table, segments, worlds, ScanResults(table, segments, was), was.cells, end.cells)
            && (forall i :: 0 <= i < start && i < |table| ==> end.cells[table[i].pool] == was.cells[table[i].pool])
            && (rc == 0 ==> Valid(c', later) && c'.link == end.link && 0 <= end.fails < COMM_FAIL_THRESHOLD
                            && BacklogPaid(c', end.fails, if segments == [] then extra else 0))
    decreases |segments|
  {
    hide Valid, ReadSegment, Advance, Unowned, PoolFollows, SegmentAsk, IsRun, BacklogPaid, Turns, Perform;
    c' := c;
    if segments == [] {
      TurnsNone(table, later);
      NothingReadFollows(table, segments, worlds, was.cells);
    } else {
      var s, rest := segments[0], segments[1..];
      TilesInOrder(table, rest, start + s.len);
      assert forall k :: 1 <= k < |segments| ==> segments[k] == rest[k - 1];
      TurnsSplit(table, segments, worlds, later);
      var turns := Turns(table, segments, worlds) + later;
      PaidIsEnough(c, was.fails, extra);
      ReadSegmentFollows(table, s, was, c, turns, worlds[0]);
      ReadPays(table, s, was, c, turns, worlds[0], extra);
      var (rc, now) := ReadSegment(table, s, was);
      if rc != OK && now.fails >= COMM_FAIL_THRESHOLD {
        NothingReadFollows(table, rest, worlds[1..], now.cells);
        PoolFollowsFrom(table, segments, worlds, rc, [], was.cells, now.cells, now.cells);
        assert [rc] + [] == [rc];
      } else {
        c' := ScanFollowsFrom(table, rest, start + s.len, now, Advance(c, turns[0], was.buf), worlds[1..], later, 0);
        PoolFollowsFrom(table, segments, worlds, rc, ScanResults(table, rest, now), was.cells, now.cells,
                        ScanSegments(table, rest, now).1.cells);
      }
    }
  }

  /**
   * The scan, end to end. For every well-formed table, whichever reads are lost, refused, left in silence or answered
   * too late: afterwards the cell of each row in a segment whose read succeeded holds the device's register as of
   * that read, and every other cell of the pool is untouched. A scan that does not give up leaves a conversation
   * that can go on.
   */
  lemma ScanFollowsDevice(profile: Profile, was: Scan, c: Conversation, worlds: seq<World>, later: seq<Turn>,
                          extra: nat)
    returns (c': Conversation)
    requires Ascending(profile.table) && OwnCells(profile.table)
    requires |worlds| == |ProfileSegments(profile)| && ProperCodes(worlds)
    requires Valid(c, Turns(profile.table, ProfileSegments(profile), worlds) + later) && was.link == c.link
    requires 0 <= was.fails < COMM_FAIL_THRESHOLD && BacklogPaid(c, was.fails, extra) && extra <= MAX_DRAINED
    ensures var segments := ProfileSegments(profile);
            var (rc, end) := ScanTable(profile, was);
            PoolFollows(profile.table, segments, worlds, ScanResults(profile.table, segments, was),
                        was.cells, end.cells)
            && (rc == 0 ==> Valid(c', later) && c'.link == end.link && 0 <= end.fails < COMM_FAIL_THRESHOLD
                            && (profile.table != [] ==> BacklogPaid(c', end.fails, 0)))
  {
    hide Valid, BacklogPaid, PoolFollows, Turns, ScanSegments, ScanResults;
    SegmentsTile(profile.table, profile.readChunk, 0);
    c' := ScanFollowsFrom(profile.table, ProfileSegments(profile), 0, was, c, worlds, later, extra);
  }

  /** Hence a cached read of a readable row in a successful segment gives the device's register. */
  lemma CachedReadIsRegister(profile: Profile, segments: seq<Segment>, worlds: seq<World>, rcs: seq<int>,
                             before: Cells, after: Cells, k: nat, i: nat)
    requires Ascending(profile.table) && OwnCells(profile.table) && |segments| == |worlds| && |rcs| <= |segments|
    requires PoolFollows(profile.table, segments, worlds, rcs, before, after)
    requires k < |rcs| && rcs[k] == OK && InSegment(profile.table, i, segments[k])
    ensures worlds[k].Answers?
    ensures var row := profile.table[i];
            Cached(profile, after, row.device)
            == if row.access == WriteOnly then None else Some(worlds[k].regs(row.device))
  {
    LookupFinds(profile.table, i);
    assert RowFollows(profile.table, i, true, worlds[k], before, after);
  }

  // ---------- The writes

  /** The turns of draining `cmds`; a command that asks for no transaction takes none. */
  function WriteTurns(cmds: seq<Cmd>, worlds: seq<World>): seq<Turn>
    requires |cmds| == |worlds|
    decreases |cmds|
  {
    if cmds == [] then []
    else
      match WriteAsk(cmds[0])
      case None => WriteTurns(cmds[1..], worlds[1..])
      case Some(ask) => [Turn(ask, worlds[0])] + WriteTurns(cmds[1..], worlds[1..])
  }

  /** Each write of a drain fails with a negative code or reports what the device said to that very write. */
  ghost predicate WritesGenuine(l: Link, cmds: seq<Cmd>, worlds: seq<World>)
    requires |cmds| == |worlds|
    decreases |cmds|
  {
    cmds == []
    || ((WriteAsk(cmds[0]).Some? ==>
           var ask := WriteAsk(cmds[0]).value;
           var rc := Perform(l, ask, NoRegisters()).rc;
           rc < 0 || (!worlds[0].Silent? && rc == Verdict(ask, worlds[0])))
        && WritesGenuine(Written(l, cmds[0]), cmds[1..], worlds[1..]))
  }

  /** One write of the drain. */
  lemma WriteIsGenuine(c: Conversation, turns: seq<Turn>)
    requires turns != [] && Valid(c, turns) && Backlog(c) < 0xFFFF
    ensures var p := Perform(c.link, turns[0].ask, NoRegisters());
            (p.rc < 0 || (!turns[0].world.Silent? && p.rc == Verdict(turns[0].ask, turns[0].world)))
            && c.bursts != [] && var c' := Advance(c, turns[0], NoRegisters());
               Valid(c', turns[1..]) && c'.link == p.link && 0 <= Backlog(c') <= Backlog(c) + 1
  {
    hide Valid, Perform, Backlog;
    TransactionIsGenuine(c, turns, NoRegisters());
    AdvanceKeepsValid(c, turns, NoRegisters());
    BacklogGrowsByOne(c, turns, NoRegisters());
  }

  lemma WriteTurnsSplit(cmds: seq<Cmd>, worlds: seq<World>, later: seq<Turn>)
    requires |cmds| == |worlds| && cmds != []
    ensures var turns := WriteTurns(cmds, worlds) + later;
            var rest := WriteTurns(cmds[1..], worlds[1..]) + later;
            match WriteAsk(cmds[0])
            case None => turns == rest
            case Some(ask) => turns != [] && turns[0] == Turn(ask, worlds[0]) && turns[1..] == rest
  {
    var rest := WriteTurns(cmds[1..], worlds[1..]);
    if WriteAsk(cmds[0]).Some? {
      var first := Turn(WriteAsk(cmds[0]).value, worlds[0]);
      assert WriteTurns(cmds, worlds) == [first] + rest;
      hide WriteTurns, WriteAsk;
      Regroup([first], rest, later);
    }
  }

  /** Draining reports on each write and leaves a conversation that can go on. */
  lemma {:induction false} DrainKeepsConversation(c: Conversation, cmds: seq<Cmd>, worlds: seq<World>, later: seq<Turn>)
    returns (c': Conversation)
    requires |cmds| == |worlds| && Valid(c, WriteTurns(cmds, worlds) + later)
    requires 0 <= Backlog(c) && Backlog(c) + |cmds| <= 0xFFFF
    ensures Valid(c', later) && c'.link == Drained(c.link, cmds) && 0 <= Backlog(c') <= Backlog(c) + |cmds|
    ensures WritesGenuine(c.link, cmds, worlds)
    decreases |cmds|
  {
    hide Valid, Backlog, Perform, Advance, Verdict, WriteTurns;
    if cmds == [] {
      NoWriteTurns(later);
      c' := c;
    } else {
      WriteTurnsSplit(cmds, worlds, later);
      var turns := WriteTurns(cmds, worlds) + later;
      match WriteAsk(cmds[0])
      case None =>
        c' := DrainKeepsConversation(c, cmds[1..], worlds[1..], later);
      case Some(ask) =>
        WriteIsGenuine(c, turns);
        AdvancedLink(c, turns[0]);
        c' := DrainKeepsConversation(Advance(c, turns[0], NoRegisters()), cmds[1..], worlds[1..], later);
    }
  }

  lemma NoWriteTurns(later: seq<Turn>)
    ensures WriteTurns([], []) + later == later
  {
  }

  lemma AdvancedLink(c: Conversation, turn: Turn)
    requires c.bursts != []
    ensures Advance(c, turn, NoRegisters()).link == Perform(c.link, turn.ask, NoRegisters()).link
  {
    hide Perform;
  }

  // ---------- The whole poll cycle

  /** One poll cycle: what its drain takes out, and the device at each write and each read. */
  datatype Cycle = Cycle(cmds: seq<Cmd>, writeWorlds: seq<World>, worlds: seq<World>)

  predicate ProperCycle(profile: Profile, cycle: Cycle) {
    |cycle.cmds| == |cycle.writeWorlds| && |cycle.cmds| <= MAX_DRAINED
    && |cycle.worlds| == |ProfileSegments(profile)| && ProperCodes(cycle.worlds)
  }

  /** The turns a cycle would take if it did not give up. */
  function CycleTurns(profile: Profile, cycle: Cycle): seq<Turn>
    requires ProperCycle(profile, cycle)
  {
    WriteTurns(cycle.cmds, cycle.writeWorlds) + Turns(profile.table, ProfileSegments(profile), cycle.worlds)
  }

  /**
   * A poll cycle, writes and all: what the drain does to the connection does not spoil what the scan reads, and a
   * cycle that does not fail leaves a conversation in which the next one can do the same.
   */
  lemma PollCycleFollowsDevice(profile: Profile, p: Poll, c: Conversation, cycle: Cycle, later: seq<Turn>)
    returns (c': Conversation)
    requires Ascending(profile.table) && OwnCells(profile.table) && ProperCycle(profile, cycle)
    requires Valid(c, CycleTurns(profile, cycle) + later) && p.link == c.link
    requires 0 <= p.fails < COMM_FAIL_THRESHOLD && BacklogPaid(c, p.fails, 0)
    ensures var (rc, next) := Polled(profile, p, cycle.cmds);
            PoolFollows(profile.table, ProfileSegments(profile), cycle.worlds, CycleResults(profile, p, cycle.cmds),
                        p.cells, next.cells)
            && WritesGenuine(p.link, cycle.cmds, cycle.writeWorlds)
            && (rc == 0 ==> Valid(c', later) && c'.link == next.link && 0 <= next.fails < COMM_FAIL_THRESHOLD
                            && (profile.table != [] ==> BacklogPaid(c', next.fails, 0)))
  {
    hide Valid, Backlog, PoolFollows, WritesGenuine, WriteTurns, Turns, Drained, ScanTable, ScanResults, ProperCodes;
    var segments := ProfileSegments(profile);
    var reading := Turns(profile.table, segments, cycle.worlds);
    Regroup(WriteTurns(cycle.cmds, cycle.writeWorlds), reading, later);
    c' := DrainKeepsConversation(c, cycle.cmds, cycle.writeWorlds, reading + later);
    if profile.table == [] {
      NothingScanned(profile, p, cycle);
      TurnsNone(profile.table, later);
    } else {
      c' := ScanFollowsDevice(profile, ScanOf(p, cycle.cmds), c', cycle.worlds, later, |cycle.cmds|);
    }
  }

  lemma NothingScanned(profile: Profile, p: Poll, cycle: Cycle)
    requires profile.table == [] && ProperCycle(profile, cycle)
    ensures ProfileSegments(profile) == [] && CycleResults(profile, p, cycle.cmds) == []
    ensures PoolFollows([], [], cycle.worlds, [], p.cells, p.cells)
  {
  }

  // ---------- Any number of cycles and connections

  /** What a row's cell holds after reads of `segments` with these results: the register at the last that succeeded. */
  function Seen(table: seq<Row>, segments: seq<Segment>, worlds: seq<World>, rcs: seq<int>, i: nat, before: u16): u16
    requires |rcs| <= |segments| == |worlds| && i < |table|
    decreases |rcs|
  {
    if rcs == [] then before
    else
      Seen(table, segments[1..], worlds[1..], rcs[1..], i,
           if rcs[0] == OK && worlds[0].Answers? && InSegment(table, i, segments[0])
           then worlds[0].regs(table[i].device) else before)
  }

  lemma {:induction false} SeenElsewhere(table: seq<Row>, segments: seq<Segment>, worlds: seq<World>, rcs: seq<int>,
                                         i: nat, before: u16)
    requires |rcs| <= |segments| == |worlds| && i < |table|
    requires forall k :: 0 <= k < |segments| ==> !InSegment(table, i, segments[k])
    ensures Seen(table, segments, worlds, rcs, i, before) == before
    decreases |rcs|
  {
    if rcs != [] {
      SeenElsewhere(table, segments[1..], worlds[1..], rcs[1..], i, before);
    }
  }

  lemma {:induction false} SeenAt(table: seq<Row>, segments: seq<Segment>, worlds: seq<World>, rcs: seq<int>,
                                  i: nat, before: u16, k: nat)
    requires |rcs| <= |segments| == |worlds| && i < |table| && k < |segments|
    requires forall j :: 0 <= j < |segments| ==> (InSegment(table, i, segments[j]) <==> j == k)
    ensures Seen(table, segments, worlds, rcs, i, before)
            == if k < |rcs| && rcs[k] == OK && worlds[k].Answers? then worlds[k].regs(table[i].device) else before
    decreases k
  {
    hide InSegment;
    if rcs != [] {
      var base := if rcs[0] == OK && worlds[0].Answers? && InSegment(table, i, segments[0])
                  then worlds[0].regs(table[i].device) else before;
      if k == 0 {
        SeenElsewhere(table, segments[1..], worlds[1..], rcs[1..], i, base);
      } else {
        SeenAt(table, segments[1..], worlds[1..], rcs[1..], i, base, k - 1);
      }
    }
  }

  /** Each row lies in exactly one segment. */
  lemma {:induction false} SegmentOf(table: seq<Row>, segments: seq<Segment>, start: nat, i: nat) returns (k: nat)
    requires Tiles(table, segments, start) && start <= i < |table|
    ensures k < |segments| && forall j :: 0 <= j < |segments| ==> (InSegment(table, i, segments[j]) <==> j == k)
    decreases |segments|
  {
    var s, rest := segments[0], segments[1..];
    TilesInOrder(table, rest, start + s.len);
    if i < start + s.len {
      k := 0;
      forall j | 0 < j < |segments| ensures !InSegment(table, i, segments[j]) {
        assert segments[j] == rest[j - 1];
      }
    } else {
      k := SegmentOf(table, rest, start + s.len, i);
      forall j | 0 < j < |segments| ensures InSegment(table, i, segments[j]) <==> j == k + 1 {
        assert segments[j] == rest[j - 1];
      }
      k := k + 1;
    }
  }

  lemma PoolShowsSeen(profile: Profile, worlds: seq<World>, rcs: seq<int>, before: Cells, after: Cells, i: nat)
    requires OwnCells(profile.table) && |worlds| == |ProfileSegments(profile)| && |rcs| <= |worlds|
    requires PoolFollows(profile.table, ProfileSegments(profile), worlds, rcs, before, after) && i < |profile.table|
    ensures var cell := profile.table[i].pool;
            after[cell] == Seen(profile.table, ProfileSegments(profile), worlds, rcs, i, before[cell])
  {
    hide Segments, InSegment, Unowned, Seen;
    var table, segments := profile.table, ProfileSegments(profile);
    SegmentsTile(table, profile.readChunk, 0);
    var k := SegmentOf(table, segments, 0, i);
    assert InSegment(table, i, segments[k]);
    assert RowFollows(table, i, k < |rcs| && rcs[k] == OK, worlds[k], before, after);
    SeenAt(table, segments, worlds, rcs, i, before[table[i].pool], k);
  }

  /** What the drains of these cycles take out. */
  function Drains(cycles: seq<Cycle>): (drains: seq<seq<Cmd>>)
    ensures |drains| == |cycles|
  {
    if cycles == [] then [] else [cycles[0].cmds] + Drains(cycles[1..])
  }

  predicate ProperCycles(profile: Profile, cycles: seq<Cycle>) {
    forall j :: 0 <= j < |cycles| ==> ProperCycle(profile, cycles[j])
  }

  function AllTurns(profile: Profile, cycles: seq<Cycle>): seq<Turn>
    requires ProperCycles(profile, cycles)
  {
    if cycles == [] then [] else CycleTurns(profile, cycles[0]) + AllTurns(profile, cycles[1..])
  }

  /** What a row's cell should hold after these cycles: the device's register at the last successful read of the row. */
  function LastSeen(profile: Profile, p: Poll, cycles: seq<Cycle>, i: nat, before: u16): u16
    requires ProperCycles(profile, cycles) && i < |profile.table|
    decreases |cycles|
  {
    if cycles == [] then before
    else
      var cycle := cycles[0];
      var (rc, next) := Polled(profile, p, cycle.cmds);
      var rcs := CycleResults(profile, p, cycle.cmds);
      var now := Seen(profile.table, ProfileSegments(profile), cycle.worlds, rcs, i, before);
      if rc != 0 then now else LastSeen(profile, next, cycles[1..], i, now)
  }

  lemma CyclesSplit(profile: Profile, cycles: seq<Cycle>, later: seq<Turn>)
    requires cycles != [] && ProperCycles(profile, cycles)
    ensures ProperCycle(profile, cycles[0]) && ProperCycles(profile, cycles[1..])
    ensures AllTurns(profile, cycles) + later
            == CycleTurns(profile, cycles[0]) + (AllTurns(profile, cycles[1..]) + later)
    ensures Drains(cycles)[0] == cycles[0].cmds && Drains(cycles)[1..] == Drains(cycles[1..])
  {
    hide CycleTurns, ProperCycle;
    Regroup(CycleTurns(profile, cycles[0]), AllTurns(profile, cycles[1..]), later);
  }

  /** The pool is a faithful cache over any number of cycles on one connection, whichever transactions fail. */
  lemma {:induction false} ConnectionFollowsDevice(profile: Profile, p: Poll, c: Conversation, cycles: seq<Cycle>,
                                                   later: seq<Turn>, i: nat)
    requires Ascending(profile.table) && OwnCells(profile.table) && ProperCycles(profile, cycles) && i < |profile.table|
    requires Valid(c, AllTurns(profile, cycles) + later) && p.link == c.link
    requires 0 <= p.fails < COMM_FAIL_THRESHOLD && BacklogPaid(c, p.fails, 0)
    ensures var cell := profile.table[i].pool;
            var end := PolledAll(profile, p, Drains(cycles)).cells;
            end[cell] == LastSeen(profile, p, cycles, i, p.cells[cell])
            && forall x :: 0 <= x < INTERNAL_POOL_SIZE && Unowned(profile.table, x) ==> end[x] == p.cells[x]
    decreases |cycles|
  {
    hide Valid, Polled, CycleResults, Seen, ProfileSegments, ProperCycle, CycleTurns, BacklogPaid, PoolFollows;
    hide Unowned, WritesGenuine, AllTurns, Drains;
    if cycles == [] {
      NoDrains();
    } else {
      CyclesSplit(profile, cycles, later);
      var rest := AllTurns(profile, cycles[1..]) + later;
      var next := Polled(profile, p, cycles[0].cmds).1;
      var c' := PollCycleFollowsDevice(profile, p, c, cycles[0], rest);
      CycleCells(profile, p, cycles[0], i);
      if Polled(profile, p, cycles[0].cmds).0 == 0 {
        ConnectionFollowsDevice(profile, next, c', cycles[1..], later, i);
      }
    }
  }

  lemma NoDrains()
    ensures Drains([]) == []
  {
  }

  /** A cycle's promise, for one row and for the cells of no row. */
  lemma CycleCells(profile: Profile, p: Poll, cycle: Cycle, i: nat)
    requires OwnCells(profile.table) && ProperCycle(profile, cycle) && i < |profile.table|
    requires PoolFollows(profile.table, ProfileSegments(profile), cycle.worlds, CycleResults(profile, p, cycle.cmds),
                         p.cells, Polled(profile, p, cycle.cmds).1.cells)
    ensures var cell, cells := profile.table[i].pool, Polled(profile, p, cycle.cmds).1.cells;
            cells[cell] == Seen(profile.table, ProfileSegments(profile), cycle.worlds,
                                CycleResults(profile, p, cycle.cmds), i, p.cells[cell])
            && forall x :: 0 <= x < INTERNAL_POOL_SIZE && Unowned(profile.table, x) ==> cells[x] == p.cells[x]
  {
    hide Polled, CycleResults, Seen, ProfileSegments, Unowned, InSegment;
    PoolShowsSeen(profile, cycle.worlds, CycleResults(profile, p, cycle.cmds), p.cells,
                  Polled(profile, p, cycle.cmds).1.cells, i);
  }

  /** A connection of the thread, the device behind it, and the turns that would follow the cycles it makes. */
  datatype Connection = Connection(link: Link, bursts: seq<seq<seq<byte>>>, cycles: seq<Cycle>, ahead: seq<Turn>)

  /** It starts as connecting leaves it, with an in-order server at the other end. */
  ghost predicate ProperConnection(profile: Profile, k: Connection)
    requires ProperCycles(profile, k.cycles)
  {
    k.link.open && k.link.tid == 0 && Serves(k.link, k.bursts, AllTurns(profile, k.cycles) + k.ahead)
  }

  predicate AllProper(profile: Profile, ks: seq<Connection>) {
    forall j :: 0 <= j < |ks| ==> ProperCycles(profile, ks[j].cycles)
  }

  function ServedOn(ks: seq<Connection>): seq<Served> {
    if ks == [] then [] else [Served(ks[0].link, Drains(ks[0].cycles))] + ServedOn(ks[1..])
  }

  /** What a row's cell should hold after these connections. */
  function LastSeenOver(profile: Profile, cells: Cells, ks: seq<Connection>, i: nat, before: u16): u16
    requires i < |profile.table| && AllProper(profile, ks)
    decreases |ks|
  {
    if ks == [] then before
    else
      var p := Poll(ks[0].link, cells, 0);
      LastSeenOver(profile, PolledAll(profile, p, Drains(ks[0].cycles)).cells, ks[1..], i,
                   LastSeen(profile, p, ks[0].cycles, i, before))
  }

  /**
   * The whole run of the poll thread, from its first connection on: over any number of connections, any number of
   * cycles on each, and every request lost, refused, left in silence or answered too late, the cell of each row holds
   * the device's register as it was at the last successful read of that row, or what it held at the start, and no
   * other cell ever changes.
   */
  lemma {:induction false} ThreadFollowsDevice(profile: Profile, cells: Cells, ks: seq<Connection>, i: nat)
    requires Ascending(profile.table) && OwnCells(profile.table) && i < |profile.table|
    requires AllProper(profile, ks) && forall j :: 0 <= j < |ks| ==> ProperConnection(profile, ks[j])
    ensures var cell := profile.table[i].pool;
            var end := PoolAfter(profile, cells, ServedOn(ks));
            end[cell] == LastSeenOver(profile, cells, ks, i, cells[cell])
            && forall x :: 0 <= x < INTERNAL_POOL_SIZE && Unowned(profile.table, x) ==> end[x] == cells[x]
    decreases |ks|
  {
    hide PolledAll, LastSeen, Unowned, Drains, Serves, AllTurns, Valid, Backlog, ProperCycles;
    if ks != [] {
      var k := ks[0];
      var p := Poll(k.link, cells, 0);
      FreshIsValid(k.link, k.bursts, AllTurns(profile, k.cycles) + k.ahead);
      ConnectionFollowsDevice(profile, p, Fresh(k.link, k.bursts), k.cycles, k.ahead, i);
      var served := Served(k.link, Drains(k.cycles));
      assert ServedOn(ks)[0] == served && ServedOn(ks)[1..] == ServedOn(ks[1..]);
      ThreadFollowsDevice(profile, PolledAll(profile, p, Drains(k.cycles)).cells, ks[1..], i);
    }
  }
}
