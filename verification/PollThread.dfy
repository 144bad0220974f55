/**
 * The poll thread as a state machine, interleaved at will with the bridge thread's
 * pushes and the main thread's stop request; and the thread's code, as a run of it.
 */
module PollThread {
  import opened Bytes
  import opened DeviceMap
  import opened Segmentation
  import opened CmdQueue
  import opened Client
  import opened UpsModule

  /** Where the thread is: its two loop heads, the drain, the scan's i-th read, the failure return. */
  datatype Pc = OuterHead | InnerHead | Draining | Writing(cmd: Cmd) | Reading(i: nat) | Failed | Stopped

  /** The client's descriptor: 0 in a context that was only cleared, -1, or a connected socket's. */
  datatype Descriptor = Cleared | Shut | Live

  /** `accepted`, `popped`, `attempted` and `results` record the run; `results` is since the last connect. */
  datatype Machine = Machine(pc: Pc, running: bool, sock: Descriptor, connection: ConnectionState, fails: int,
                             ring: Ring, accepted: seq<Cmd>, popped: seq<Cmd>, attempted: seq<Cmd>, results: seq<bool>)

  datatype Step =
    | Push(cmd: Cmd)
    | Stop
    | Connect(ok: bool)
    | LeaveOuter
    | EnterCycle
    | LeaveInner
    | Pop
    | Write
    | ReadOne(ok: bool)
    | Recover

  function Initial(ring: Ring): Machine {
    Machine(OuterHead, true, Cleared, Disconnected, 0, ring, [], [], [], [])
  }

  function Stepped(m: Machine, pc: Pc): Machine { m.(pc := pc) }

  /** One atomic step of a unit whose scan has `n` segments; None where the step is not enabled. */
  function Next(m: Machine, n: nat, step: Step): Option<Machine>
    requires m.ring.Valid()
  {
    match step
    case Push(cmd) =>
      Some(m.(ring := Pushed(m.ring, cmd), accepted := if Accepts(m.ring, cmd) then m.accepted + [cmd] else m.accepted))
    case Stop => Some(m.(running := false))
    case Connect(ok) =>
      if m.pc != OuterHead || !m.running then None
      else if !ok then Some(m.(sock := Shut))
      else Some(m.(pc := InnerHead, sock := Live, fails := 0, connection := Connected, results := []))
    case LeaveOuter =>
      if m.pc != OuterHead || m.running then None else Some(m.(pc := Stopped, sock := Shut))
    case EnterCycle => if m.pc != InnerHead || !m.running then None else Some(Stepped(m, Draining))
    case LeaveInner => if m.pc != InnerHead || m.running then None else Some(Stepped(m, OuterHead))
    case Pop =>
      if m.pc != Draining then None
      else if m.ring.count == 0 then Some(Stepped(m, if n == 0 then InnerHead else Reading(0)))
      else
        var cmd := m.ring.Contents()[0];
        Some(m.(pc := Writing(cmd), ring := Popped(m.ring), popped := m.popped + [cmd]))
    case Write =>
      if !m.pc.Writing? then None else Some(m.(pc := Draining, attempted := m.attempted + [m.pc.cmd]))
    case ReadOne(ok) =>
      if !m.pc.Reading? then None
      else
        var fails := if ok then 0 else m.fails + 1;
        var pc := if !ok && fails >= COMM_FAIL_THRESHOLD then Failed
                  else if m.pc.i + 1 < n then Reading(m.pc.i + 1) else InnerHead;
        Some(m.(pc := pc, fails := fails, results := m.results + [ok]))
    case Recover =>
      if m.pc != Failed then None
      else Some(m.(pc := OuterHead, sock := Shut, fails := 0, connection := Disconnected))
  }

  function Run(m: Machine, n: nat, steps: seq<Step>): Option<Machine>
    requires m.ring.Valid()
    decreases |steps|
  {
    if steps == [] then Some(m)
    else
      match Next(m, n, steps[0])
      case None => None
      case Some(m') =>
        RingStaysValid(m, n, steps[0]);
        Run(m', n, steps[1..])
  }

  lemma RingStaysValid(m: Machine, n: nat, step: Step)
    requires m.ring.Valid() && Next(m, n, step).Some?
    ensures Next(m, n, step).value.ring.Valid()
  {
    match step
    case Push(cmd) => PushAppends(m.ring, cmd);
    case Pop => PopTakesFirst(m.ring);
    case _ =>
  }

  // ---------- The invariant

  /** How many reads in a row have just failed. */
  function TrailingFailures(results: seq<bool>): nat {
    if results == [] || results[|results| - 1] then 0 else 1 + TrailingFailures(results[..|results| - 1])
  }

  predicate InCycle(pc: Pc) {
    pc.InnerHead? || pc.Draining? || pc.Writing? || pc.Reading? || pc.Failed?
  }

  /** The queue and its history. */
  ghost predicate QueueInv(m: Machine) {
    && m.ring.Valid()
    && m.accepted == m.popped + m.ring.Contents()
    && m.popped == if m.pc.Writing? then m.attempted + [m.pc.cmd] else m.attempted
  }

  /** The connection and the failure counter. */
  ghost predicate LinkInv(m: Machine, n: nat) {
    && (InCycle(m.pc) ==> m.sock == Live)
    && (m.pc.OuterHead? && m.running ==> m.sock != Live)
    && (m.pc.Stopped? ==> m.sock == Shut && !m.running)
    && (!m.pc.Stopped? ==> (m.sock == Live <==> m.connection == Connected))
    && (m.sock == Live ==> m.fails == TrailingFailures(m.results))
    && (if m.pc.Failed? then m.fails == COMM_FAIL_THRESHOLD else 0 <= m.fails < COMM_FAIL_THRESHOLD)
    && (m.pc.Reading? ==> m.pc.i < n)
  }

  ghost predicate Inv(m: Machine, n: nat) {
    QueueInv(m) && LinkInv(m, n)
  }

  lemma StepKeepsQueueInv(m: Machine, n: nat, step: Step)
    requires QueueInv(m) && Next(m, n, step).Some?
    ensures QueueInv(Next(m, n, step).value)
  {
    hide Ring.Contents, Ring.Valid, Accepts, Pushed, Popped;
    match step
    case Push(cmd) =>
      PushAppends(m.ring, cmd);
      if Accepts(m.ring, cmd) {
        Regroup(m.popped, m.ring.Contents(), [cmd]);
      }
    case Pop =>
      PopTakesFirst(m.ring);
      if m.ring.count > 0 {
        Regroup(m.popped, [m.ring.Contents()[0]], Popped(m.ring).Contents());
      }
    case _ =>
  }

  lemma StepKeepsLinkInv(m: Machine, n: nat, step: Step)
    requires m.ring.Valid() && LinkInv(m, n) && Next(m, n, step).Some?
    ensures LinkInv(Next(m, n, step).value, n)
  {
    hide Ring.Contents, Ring.Valid, Accepts, Pushed, Popped;
    if step.ReadOne? {
      var m' := Next(m, n, step).value;
      assert m'.results[..|m'.results| - 1] == m.results;
    }
  }

  lemma StepKeepsInv(m: Machine, n: nat, step: Step)
    requires Inv(m, n) && Next(m, n, step).Some?
    ensures Inv(Next(m, n, step).value, n)
  {
    hide Next, LinkInv;
    StepKeepsQueueInv(m, n, step);
    StepKeepsLinkInv(m, n, step);
  }

  /** Over every run, from the thread's start, of every interleaving. */
  lemma {:induction false} RunKeepsInv(m: Machine, n: nat, steps: seq<Step>)
    requires Inv(m, n) && Run(m, n, steps).Some?
    ensures Inv(Run(m, n, steps).value, n)
    decreases |steps|
  {
    if steps != [] {
      StepKeepsInv(m, n, steps[0]);
      RunKeepsInv(Next(m, n, steps[0]).value, n, steps[1..]);
    }
  }

  /** These steps lead from the thread's start, on an empty ring, to `m`. */
  ghost predicate Reaches(ring: Ring, n: nat, steps: seq<Step>, m: Machine) {
    ring.Valid() && ring.Contents() == [] && Run(Initial(ring), n, steps) == Some(m)
  }

  ghost predicate Reachable(m: Machine, n: nat, steps: seq<Step>) {
    exists ring :: Reaches(ring, n, steps, m)
  }

  lemma ReachableInv(m: Machine, n: nat, steps: seq<Step>)
    requires Reachable(m, n, steps)
    ensures Inv(m, n)
  {
    var ring :| Reaches(ring, n, steps, m);
    InitialInv(ring, n);
    RunKeepsInv(Initial(ring), n, steps);
  }

  lemma InitialInv(ring: Ring, n: nat)
    requires ring.Valid() && ring.Contents() == []
    ensures Inv(Initial(ring), n)
  {
  }

  // ---------- What it means for the program

  /** No command is lost, doubled or reordered, and each one taken from the queue is attempted exactly once. */
  lemma CommandsInOrder(m: Machine, n: nat, steps: seq<Step>)
    requires Reachable(m, n, steps)
    ensures m.ring.Valid() && m.accepted == m.popped + m.ring.Contents()
    ensures m.popped == if m.pc.Writing? then m.attempted + [m.pc.cmd] else m.attempted
  {
    ReachableInv(m, n, steps);
  }

  /** At the loop heads, and wherever a Modbus request is about to be made. */
  lemma ConnectionAtHeads(m: Machine, n: nat, steps: seq<Step>)
    requires Reachable(m, n, steps)
    ensures m.pc.InnerHead? ==> m.connection == Connected && m.sock == Live && 0 <= m.fails <= 4
    ensures m.pc.OuterHead? && m.running ==> m.connection == Disconnected && m.sock != Live
    ensures m.pc.Writing? || m.pc.Reading? ==> m.sock == Live
  {
    ReachableInv(m, n, steps);
  }

  lemma ClearedStep(m: Machine, n: nat, step: Step)
    requires m.ring.Valid() && (m.sock == Cleared ==> m.pc == OuterHead) && Next(m, n, step).Some?
    ensures var m' := Next(m, n, step).value;
            (m'.sock == Cleared <==> m.sock == Cleared && !step.Connect? && !step.LeaveOuter?)
            && (m'.sock == Cleared ==> m'.pc == OuterHead)
  {
    hide Ring.Contents, Ring.Valid, Pushed, Popped, Accepts;
  }

  /**
   * The client's own guard, which only looks for a negative descriptor, would let a request through on a context
   * that was just cleared; the descriptor is 0 exactly until the first connection attempt, and a stop before that
   * makes the final disconnect close descriptor 0.
   */
  lemma {:induction false} ClearedUntilConnect(ring: Ring, n: nat, steps: seq<Step>)
    requires ring.Valid()
    ensures var end := Run(Initial(ring), n, steps);
            end.Some? ==> (end.value.sock == Cleared
                           <==> forall step :: step in steps ==> !step.Connect? && !step.LeaveOuter?)
                          && (end.value.sock == Cleared ==> end.value.pc == OuterHead)
    decreases |steps|
  {
    var m0 := Initial(ring);
    if steps != [] && Run(m0, n, steps).Some? {
      hide Next;
      var before, last := steps[..|steps| - 1], steps[|steps| - 1];
      RunSplits(m0, n, steps);
      ClearedUntilConnect(ring, n, before);
      RunRingValid(m0, n, before);
      ClearedStep(Run(m0, n, before).value, n, last);
      assert steps == before + [last];
      hide Run;
    }
  }

  /** The last `k` reads all failed. */
  predicate LastFailed(results: seq<bool>, k: nat) {
    |results| >= k && forall i :: |results| - k <= i < |results| ==> !results[i]
  }

  lemma {:induction false} TrailingMeansLast(results: seq<bool>, k: nat)
    ensures TrailingFailures(results) >= k <==> LastFailed(results, k)
    decreases k
  {
    if k > 0 && results != [] && !results[|results| - 1] {
      TrailingMeansLast(results[..|results| - 1], k - 1);
    }
  }

  /** The poll cycle fails at a read exactly when that read completes five failures in a row since connecting. */
  lemma FailsAfterFiveFailures(m: Machine, n: nat, steps: seq<Step>, ok: bool)
    requires Reachable(m, n, steps) && m.pc.Reading?
    ensures m.ring.Valid() && var m' := Next(m, n, ReadOne(ok)).value;
            m'.pc.Failed? <==> LastFailed(m'.results, 5)
  {
    ReachableInv(m, n, steps);
    var m' := Next(m, n, ReadOne(ok)).value;
    StepKeepsInv(m, n, ReadOne(ok));
    TrailingMeansLast(m'.results, COMM_FAIL_THRESHOLD);
  }

  /** The last step taken by the thread's own loops, as opposed to a push or a stop request, left the inner loop. */
  function LeftInner(steps: seq<Step>): bool {
    if steps == [] then false
    else
      var last, before := steps[|steps| - 1], steps[..|steps| - 1];
      if last.Push? || last.Stop? || last.LeaveOuter? then LeftInner(before) else last.LeaveInner?
  }

  lemma {:induction false} RunSplits(m: Machine, n: nat, steps: seq<Step>)
    requires m.ring.Valid() && steps != []
    ensures var before := Run(m, n, steps[..|steps| - 1]);
            Run(m, n, steps) == if before.None? then None
                                else (RunRingValid(m, n, steps[..|steps| - 1]);
                                      Next(before.value, n, steps[|steps| - 1]))
    decreases |steps|
  {
    var before := steps[..|steps| - 1];
    RunRingValid(m, n, before);
    if |steps| > 1 && Next(m, n, steps[0]).Some? {
      RingStaysValid(m, n, steps[0]);
      RunSplits(Next(m, n, steps[0]).value, n, steps[1..]);
      assert steps[1..][..|steps| - 2] == before[1..];
    }
  }

  lemma {:induction false} RunRingValid(m: Machine, n: nat, steps: seq<Step>)
    requires m.ring.Valid()
    ensures Run(m, n, steps).Some? ==> Run(m, n, steps).value.ring.Valid()
    decreases |steps|
  {
    if steps != [] && Next(m, n, steps[0]).Some? {
      RingStaysValid(m, n, steps[0]);
      RunRingValid(Next(m, n, steps[0]).value, n, steps[1..]);
    }
  }

  /** Outside the inner loop, "connected" is published exactly if `left`. */
  predicate ConnectedIff(m: Machine, left: bool) {
    m.pc.OuterHead? || m.pc.Stopped? ==> (m.connection == Connected <==> left)
  }

  lemma ConnectedStep(m: Machine, n: nat, step: Step, left: bool)
    requires Inv(m, n) && ConnectedIff(m, left) && Next(m, n, step).Some?
    ensures ConnectedIff(Next(m, n, step).value,
                         if step.Push? || step.Stop? || step.LeaveOuter? then left else step.LeaveInner?)
  {
    hide Ring.Contents, Ring.Valid, Pushed, Popped, Accepts, TrailingFailures;
  }

  /**
   * At the outer loop head, and after the thread has ended, the published state is still
   * "connected" exactly when the thread last left its inner loop on a stop request.
   */
  lemma {:induction false} ConnectedAfterStop(ring: Ring, n: nat, steps: seq<Step>)
    requires ring.Valid() && ring.Contents() == []
    ensures var end := Run(Initial(ring), n, steps);
            end.Some? ==> ConnectedIff(end.value, LeftInner(steps))
    decreases |steps|
  {
    var m0 := Initial(ring);
    InitialInv(ring, n);
    if steps != [] && Run(m0, n, steps).Some? {
      hide Next, Inv, Ring.Contents;
      var before := steps[..|steps| - 1];
      RunSplits(m0, n, steps);
      ConnectedAfterStop(ring, n, before);
      RunKeepsInv(m0, n, before);
      RunRingValid(m0, n, before);
      ConnectedStep(Run(m0, n, before).value, n, steps[|steps| - 1], LeftInner(before));
      hide Run;
    }
  }

  // ---------- The machine and the code

  lemma {:induction false} RunAppends(m: Machine, n: nat, a: seq<Step>, b: seq<Step>)
    requires m.ring.Valid() && Run(m, n, a).Some?
    ensures Run(m, n, a).value.ring.Valid()
    ensures Run(m, n, a + b) == Run(Run(m, n, a).value, n, b)
    decreases |a|
  {
    hide Next, Ring.Valid;
    if a == [] {
      assert a + b == b;
    } else {
      RingStaysValid(m, n, a[0]);
      RunAppends(Next(m, n, a[0]).value, n, a[1..], b);
      assert (a + b)[1..] == a[1..] + b;
    }
  }

  function PushSteps(cmds: seq<Cmd>): (steps: seq<Step>)
    ensures |steps| == |cmds|
  {
    seq(|cmds|, i requires 0 <= i < |cmds| => Push(cmds[i]))
  }

  function AfterPushes(m: Machine, cmds: seq<Cmd>): Machine
    requires m.ring.Valid()
  {
    m.(ring := PushedAll(m.ring, cmds), accepted := m.accepted + AcceptedOf(m.ring, cmds))
  }

  lemma {:induction false} PushesRun(m: Machine, n: nat, cmds: seq<Cmd>)
    requires m.ring.Valid()
    ensures Run(m, n, PushSteps(cmds)) == Some(AfterPushes(m, cmds))
    decreases |cmds|
  {
    hide Ring.Contents, Ring.Valid, Pushed, Accepts;
    if cmds == [] {
      assert m.accepted + [] == m.accepted;
    } else {
      var last := |cmds| - 1;
      PushesRun(m, n, cmds[..last]);
      assert PushSteps(cmds) == PushSteps(cmds[..last]) + [Push(cmds[last])];
      RunAppends(m, n, PushSteps(cmds[..last]), [Push(cmds[last])]);
      OneStep(AfterPushes(m, cmds[..last]), n, Push(cmds[last]));
      Regroup(m.accepted, AcceptedOf(m.ring, cmds[..last]), [cmds[last]]);
    }
  }

  lemma OneStep(m: Machine, n: nat, step: Step)
    requires m.ring.Valid()
    ensures Run(m, n, [step]) == Next(m, n, step)
  {
    if Next(m, n, step).Some? {
      RingStaysValid(m, n, step);
      assert [step][1..] == [];
    }
  }

  lemma TwoSteps(m: Machine, n: nat, first: Step, second: Step)
    requires m.ring.Valid() && Next(m, n, first).Some?
    ensures Next(m, n, first).value.ring.Valid()
    ensures Run(m, n, [first, second]) == Next(Next(m, n, first).value, n, second)
  {
    RingStaysValid(m, n, first);
    OneStep(Next(m, n, first).value, n, second);
    assert [first, second][1..] == [second];
  }

  /** The steps of a drain: what is pushed before a pop, the pop, and one attempt if it found a command. */
  function DrainSteps(r: Ring, arrivals: seq<seq<Cmd>>): seq<Step>
    requires r.Valid()
    decreases |arrivals|, r.count
  {
    var r1 := PushedAll(r, First(arrivals));
    if r1.count == 0 then PushSteps(First(arrivals)) + [Pop]
    else
      PopTakesFirst(r1);
      PushSteps(First(arrivals)) + [Pop, Write] + DrainSteps(Popped(r1), Others(arrivals))
  }

  /** What a drain that starts at `m` comes to. */
  function AfterDrain(m: Machine, n: nat, d: Drain): Machine {
    m.(pc := if n == 0 then InnerHead else Reading(0), ring := d.ring, accepted := m.accepted + d.accepted,
       popped := m.popped + d.popped, attempted := m.attempted + d.popped)
  }

  /** A pop and, if it found a command, the attempt. */
  lemma PopRuns(m: Machine, n: nat)
    requires m.ring.Valid() && m.pc.Draining?
    ensures m.ring.count == 0 ==> Run(m, n, [Pop]) == Some(m.(pc := if n == 0 then InnerHead else Reading(0)))
    ensures m.ring.count > 0 ==>
              var cmd := m.ring.Contents()[0];
              Run(m, n, [Pop, Write])
              == Some(m.(ring := Popped(m.ring), popped := m.popped + [cmd], attempted := m.attempted + [cmd]))
  {
    hide Ring.Contents, Ring.Valid, Popped;
    if m.ring.count == 0 {
      OneStep(m, n, Pop);
    } else {
      TwoSteps(m, n, Pop, Write);
    }
  }

  /**
   * The drain ends, after one pop and one attempt for each command that was queued or accepted while it ran and
   * the pop that finds the queue empty; then the scan starts.
   */
  lemma {:induction false} DrainEnds(m: Machine, n: nat, arrivals: seq<seq<Cmd>>)
    requires m.ring.Valid() && m.pc.Draining?
    ensures Run(m, n, DrainSteps(m.ring, arrivals)) == Some(AfterDrain(m, n, Drainage(m.ring, arrivals)))
    decreases |arrivals|, m.ring.count
  {
    hide Ring.Contents, Ring.Valid, Popped, PushedAll, AcceptedOf, PushSteps, Next, Run;
    var now := First(arrivals);
    NothingArrives(m.ring);
    PushesRun(m, n, now);
    var m1 := AfterPushes(m, now);
    PopRuns(m1, n);
    if m1.ring.count == 0 {
      RunAppends(m, n, PushSteps(now), [Pop]);
      assert m.popped + [] == m.popped && m.attempted + [] == m.attempted;
    } else {
      PopTakesFirst(m1.ring);
      var cmd := m1.ring.Contents()[0];
      var m2 := m1.(ring := Popped(m1.ring), popped := m1.popped + [cmd], attempted := m1.attempted + [cmd]);
      PoppedCounts(m1.ring);
      DrainEnds(m2, n, Others(arrivals));
      RunAppends(m, n, PushSteps(now), [Pop, Write]);
      RunAppends(m, n, PushSteps(now) + [Pop, Write], DrainSteps(m2.ring, Others(arrivals)));
      var d := Drainage(m2.ring, Others(arrivals));
      Regroup(m.accepted, AcceptedOf(m.ring, now), d.accepted);
      Regroup(m.popped, [cmd], d.popped);
      Regroup(m.attempted, [cmd], d.popped);
    }
  }

  function ReadSteps(rcs: seq<int>): (steps: seq<Step>)
    ensures |steps| == |rcs|
  {
    if rcs == [] then [] else [ReadOne(rcs[0] == OK)] + ReadSteps(rcs[1..])
  }

  function Successes(rcs: seq<int>): seq<bool> {
    if rcs == [] then [] else [rcs[0] == OK] + Successes(rcs[1..])
  }

  /** The scan the code performs is the machine's run over the same read results: same counter, same exit. */
  lemma {:induction false} ScanIsMachineRun(table: seq<Row>, segments: seq<Segment>, was: Scan, m: Machine, n: nat)
    requires forall s :: s in segments ==> s.start < |table|
    requires segments != [] && m.ring.Valid() && m.pc.Reading? && m.pc.i + |segments| == n
    requires was.fails == m.fails
    ensures var (rc, end) := ScanSegments(table, segments, was);
            var rcs := ScanResults(table, segments, was);
            rc in {0, -1}
            && Run(m, n, ReadSteps(rcs))
               == Some(m.(pc := if rc == -1 then Failed else InnerHead, fails := end.fails,
                          results := m.results + Successes(rcs)))
    decreases |segments|
  {
    hide ReadSegment, Ring.Contents, Ring.Valid;
    var (rc, now) := ReadSegment(table, segments[0], was);
    var step := ReadOne(rc == OK);
    var m' := Next(m, n, step).value;
    ReadSegmentCounts(table, segments[0], was);
    var rcs := ScanResults(table, segments, was);
    var steps := ReadSteps(rcs);
    assert steps[0] == step;
    if rc != OK && now.fails >= COMM_FAIL_THRESHOLD {
      assert steps[1..] == [] && Successes(rcs) == [rc == OK];
    } else {
      var later := ScanResults(table, segments[1..], now);
      assert rcs == [rc] + later;
      assert steps[1..] == ReadSteps(later) && Successes(rcs) == [rc == OK] + Successes(later);
      Regroup(m.results, [rc == OK], Successes(later));
      if |segments| > 1 {
        ScanIsMachineRun(table, segments[1..], now, m', n);
      } else {
        assert segments[1..] == [] && later == [];
        assert m'.results == m.results + Successes(rcs);
      }
    }
  }

  lemma ReadSegmentCounts(table: seq<Row>, s: Segment, was: Scan)
    requires s.start < |table|
    ensures var (rc, now) := ReadSegment(table, s, was);
            now.fails == if rc == OK then 0 else was.fails + 1
  {
    hide Perform, Store;
  }

  // ---------- One poll cycle

  function CycleSteps(profile: Profile, p: Poll, r: Ring, arrivals: seq<seq<Cmd>>): seq<Step>
    requires r.Valid()
  {
    [EnterCycle] + DrainSteps(r, arrivals) + ReadSteps(CycleResults(profile, p, Drainage(r, arrivals).popped))
  }

  /** What a cycle that starts at `m` comes to. */
  function AfterCycle(profile: Profile, p: Poll, m: Machine, d: Drain): Machine {
    var (rc, next) := Polled(profile, p, d.popped);
    AfterDrain(m, 0, d).(pc := if rc == 0 then InnerHead else Failed, fails := next.fails,
                         results := m.results + Successes(CycleResults(profile, p, d.popped)))
  }

  /** A poll cycle of the code is a run of the machine, whatever arrives while it drains. */
  lemma CycleIsMachineRun(profile: Profile, p: Poll, m: Machine, arrivals: seq<seq<Cmd>>)
    requires m.ring.Valid() && m.pc.InnerHead? && m.running && p.fails == m.fails
    ensures var n := |ProfileSegments(profile)|;
            var d := Drainage(m.ring, arrivals);
            Polled(profile, p, d.popped).0 in {0, -1}
            && Run(m, n, CycleSteps(profile, p, m.ring, arrivals)) == Some(AfterCycle(profile, p, m, d))
  {
    hide Ring.Contents, Ring.Valid, Drainage, Drained, DrainSteps, ReadSteps, Run, ScanSegments, ScanResults, Segments;
    var segments := ProfileSegments(profile);
    var n := |segments|;
    var d := Drainage(m.ring, arrivals);
    OneStep(m, n, EnterCycle);
    var m1 := Stepped(m, Draining);
    DrainEnds(m1, n, arrivals);
    RunAppends(m, n, [EnterCycle], DrainSteps(m.ring, arrivals));
    var m2 := AfterDrain(m1, n, d);
    var scan := ReadSteps(CycleResults(profile, p, d.popped));
    RunAppends(m, n, [EnterCycle] + DrainSteps(m.ring, arrivals), scan);
    if segments == [] {
      NothingRead(profile.table, ScanOf(p, d.popped));
      RunNothing(m2, n);
      assert m.results + [] == m.results;
    } else {
      ScanIsMachineRun(profile.table, segments, ScanOf(p, d.popped), m2, n);
    }
  }

  lemma NothingRead(table: seq<Row>, was: Scan)
    ensures ScanResults(table, [], was) == [] && ReadSteps([]) == [] && Successes([]) == []
  {
  }

  lemma RunNothing(m: Machine, n: nat)
    requires m.ring.Valid()
    ensures Run(m, n, []) == Some(m)
  {
  }

  // ---------- The thread

  /** The unit's fields are where the machine is. */
  ghost predicate Tracks(m: Machine, unit: UpsUnit)
    reads unit, unit.client, unit.queue, unit.queue.entries
  {
    && m.ring == unit.queue.State() && m.fails == unit.commFailCount && m.connection == unit.connection
    && (m.sock == Live ==> unit.client.open) && (m.sock == Shut ==> !unit.client.open)
  }

  /** The unit is where these steps lead from the thread's start. */
  ghost predicate Along(unit: UpsUnit, ring: Ring, steps: seq<Step>, m: Machine)
    reads unit, unit.client, unit.queue, unit.queue.entries
  {
    Reaches(ring, |ProfileSegments(unit.profile)|, steps, m) && Tracks(m, unit)
  }

  lemma ReachesFurther(ring: Ring, n: nat, steps: seq<Step>, m: Machine, more: seq<Step>, m': Machine)
    requires Reaches(ring, n, steps, m) && m.ring.Valid() && Run(m, n, more) == Some(m')
    ensures Reaches(ring, n, steps + more, m') && Inv(m', n)
  {
    hide Ring.Contents, Next, Inv;
    InitialInv(ring, n);
    RunAppends(Initial(ring), n, steps, more);
    RunKeepsInv(Initial(ring), n, steps + more);
    hide Run;
  }

  lemma ReachesStep(ring: Ring, n: nat, steps: seq<Step>, m: Machine, step: Step)
    requires Reaches(ring, n, steps, m) && m.ring.Valid() && Next(m, n, step).Some?
    ensures Reaches(ring, n, steps + [step], Next(m, n, step).value) && Inv(Next(m, n, step).value, n)
  {
    hide Ring.Contents, Next, Inv, Run;
    OneStep(m, n, step);
    ReachesFurther(ring, n, steps, m, [step], Next(m, n, step).value);
  }

  lemma ReachesStart(ring: Ring, n: nat)
    requires ring.Valid() && ring.Contents() == []
    ensures Reaches(ring, n, [], Initial(ring)) && Inv(Initial(ring), n)
  {
    InitialInv(ring, n);
  }

  /** What another thread could see at a loop head, and the machine's steps up to there. */
  datatype Head = Head(inner: bool, connection: ConnectionState, fails: int, open: bool, steps: seq<Step>)

  /** Connected with a counter in 0..4 at an inner head, disconnected at an outer one, in step with the machine. */
  ghost predicate HeadFine(ring: Ring, n: nat, h: Head) {
    exists m :: Reaches(ring, n, h.steps, m) && m.pc == (if h.inner then InnerHead else OuterHead) && m.running
                && m.connection == h.connection && m.fails == h.fails
                && if h.inner then h.connection == Connected && h.open && 0 <= h.fails <= 4
                   else h.connection == Disconnected
  }

  /** A loop head passed with the running flag set: which loop's, and the steps before it. */
  datatype Mark = Mark(inner: bool, steps: seq<Step>)

  /** The heads some steps pass: one before each connection attempt, one before each cycle. */
  function Marks(steps: seq<Step>): seq<Mark> {
    if steps == [] then []
    else
      var before, last := steps[..|steps| - 1], steps[|steps| - 1];
      if last.Connect? then Marks(before) + [Mark(false, before)]
      else if last.EnterCycle? then Marks(before) + [Mark(true, before)]
      else Marks(before)
  }

  function MarksOf(heads: seq<Head>): (marks: seq<Mark>)
    ensures |marks| == |heads|
  {
    seq(|heads|, i requires 0 <= i < |heads| => Mark(heads[i].inner, heads[i].steps))
  }

  lemma MarksOfConcat(a: seq<Head>, b: seq<Head>)
    ensures MarksOf(a + b) == MarksOf(a) + MarksOf(b)
  {
  }

  lemma MarksOneMore(steps: seq<Step>, step: Step)
    ensures Marks(steps + [step]) == if step.Connect? then Marks(steps) + [Mark(false, steps)]
                                     else if step.EnterCycle? then Marks(steps) + [Mark(true, steps)]
                                     else Marks(steps)
  {
    assert (steps + [step])[..|steps|] == steps;
  }

  /** No loop head among them. */
  predicate Quiet(steps: seq<Step>) {
    forall i :: 0 <= i < |steps| ==> !steps[i].Connect? && !steps[i].EnterCycle?
  }

  lemma {:induction false} QuietMarks(steps: seq<Step>, more: seq<Step>)
    requires Quiet(more)
    ensures Marks(steps + more) == Marks(steps)
    decreases |more|
  {
    if more == [] {
      assert steps + more == steps;
    } else {
      var last := |more| - 1;
      QuietMarks(steps, more[..last]);
      MarksOneMore(steps + more[..last], more[last]);
      hide Marks;
      assert (steps + more[..last]) + [more[last]] == steps + more;
    }
  }

  lemma {:induction false} DrainIsQuiet(r: Ring, arrivals: seq<seq<Cmd>>)
    requires r.Valid()
    ensures Quiet(DrainSteps(r, arrivals))
    decreases |arrivals|, r.count
  {
    hide Ring.Contents, Ring.Valid, Popped, PushedAll;
    var r1 := PushedAll(r, First(arrivals));
    NothingArrives(r);
    if r1.count > 0 {
      PopTakesFirst(r1);
      PoppedCounts(r1);
      DrainIsQuiet(Popped(r1), Others(arrivals));
    }
  }

  lemma {:induction false} ReadsAreQuiet(rcs: seq<int>)
    ensures Quiet(ReadSteps(rcs))
  {
    if rcs != [] {
      ReadsAreQuiet(rcs[1..]);
    }
  }

  lemma CycleMarks(steps: seq<Step>, profile: Profile, p: Poll, r: Ring, arrivals: seq<seq<Cmd>>)
    requires r.Valid()
    ensures Marks(steps + CycleSteps(profile, p, r, arrivals)) == Marks(steps) + [Mark(true, steps)]
  {
    hide Ring.Valid, DrainSteps, Drainage, ReadSteps, CycleResults, Marks;
    var drain, reading := DrainSteps(r, arrivals), ReadSteps(CycleResults(profile, p, Drainage(r, arrivals).popped));
    DrainIsQuiet(r, arrivals);
    ReadsAreQuiet(CycleResults(profile, p, Drainage(r, arrivals).popped));
    MarksOneMore(steps, EnterCycle);
    QuietMarks(steps + [EnterCycle], drain);
    QuietMarks(steps + [EnterCycle] + drain, reading);
    assert steps + CycleSteps(profile, p, r, arrivals) == steps + [EnterCycle] + drain + reading;
  }

  /** The cycles of a connection so far have succeeded and left the unit as it is. */
  ghost predicate OnConnection(unit: UpsUnit, start: Poll, drains: seq<seq<Cmd>>)
    reads unit, unit.client, unit.client.socket, unit.pool
    requires unit.pool.Length == INTERNAL_POOL_SIZE
  {
    AllSucceed(unit.profile, start, drains) && unit.State() == PolledAll(unit.profile, start, drains)
  }

  /** Every command pushed is one of `ok`. */
  ghost predicate ArriveIn(arrivals: seq<seq<Cmd>>, ok: iset<Cmd>) {
    forall i, cmd :: 0 <= i < |arrivals| && cmd in arrivals[i] ==> cmd in ok
  }

  ghost predicate AllArriveIn(arrivals: seq<seq<seq<Cmd>>>, ok: iset<Cmd>) {
    forall j :: 0 <= j < |arrivals| ==> ArriveIn(arrivals[j], ok)
  }

  lemma DrainedIn(r: Ring, arrivals: seq<seq<Cmd>>, ok: iset<Cmd>)
    requires r.Valid() && r.count == 0 && ArriveIn(arrivals, ok)
    ensures forall cmd :: cmd in Drainage(r, arrivals).popped ==> cmd in ok
  {
    hide Drainage, Ring.Valid, Ring.Contents;
    EmptyContents(r);
    forall cmd | cmd in Drainage(r, arrivals).popped ensures cmd in ok {
      DrainedArrived(r, arrivals, cmd);
    }
  }

  /** One poll cycle of the inner loop; on failure the error callback. */
  method PollOnce(unit: UpsUnit, arrivals: seq<seq<Cmd>>, ghost ok: iset<Cmd>, ghost ring: Ring,
                  ghost steps: seq<Step>, ghost m: Machine, ghost start: Poll, ghost drains: seq<seq<Cmd>>)
    returns (rc: int, ghost steps': seq<Step>, ghost m': Machine, ghost drains': seq<seq<Cmd>>)
    requires unit.Valid() && m.ring.Valid() && Along(unit, ring, steps, m) && m.pc == InnerHead && m.running
    requires OnConnection(unit, start, drains)
    requires m.ring.count == 0 && ArriveIn(arrivals, ok) && ArriveIn(drains, ok)
    modifies unit, unit.client, unit.client.socket, unit.queue, unit.queue.entries, unit.pool
    ensures unit.Valid() && Along(unit, ring, steps', m') && m'.running
    ensures Inv(m', |ProfileSegments(unit.profile)|)
    ensures m'.pc == if rc == 0 then InnerHead else OuterHead
    ensures Marks(steps') == Marks(steps) + [Mark(true, steps)]
    ensures unit.pool[..] == PolledAll(unit.profile, start, drains').cells
    ensures unit.client.sent == PolledAll(unit.profile, start, drains').link.sent
    ensures rc == 0 ==> OnConnection(unit, start, drains')
    ensures m'.ring.count == 0 && ArriveIn(drains', ok)
  {
    hide Ring.Contents, Ring.Valid, Ascending, ProperCmds, Drainage, Polled, PolledAll, AllSucceed, Run, Reaches, Inv;
    hide CycleSteps, Marks;
    ghost var n := |ProfileSegments(unit.profile)|;
    ghost var p := unit.State();
    ghost var d := Drainage(m.ring, arrivals);
    CycleIsMachineRun(unit.profile, p, m, arrivals);
    m' := AfterCycle(unit.profile, p, m, d);
    ReachesFurther(ring, n, steps, m, CycleSteps(unit.profile, p, m.ring, arrivals), m');
    CycleMarks(steps, unit.profile, p, m.ring, arrivals);
    steps' := steps + CycleSteps(unit.profile, p, m.ring, arrivals);
    PollingKeepsSocket(unit.profile, p, d.popped);
    OneMoreCycle(unit.profile, start, drains, d.popped);
    DrainedIn(m.ring, arrivals, ok);
    drains' := drains + [d.popped];
    rc := unit.ProcessCallback(arrivals);
    if rc != 0 {
      ReachesStep(ring, n, steps', m', Recover);
      MarksOneMore(steps', Recover);
      steps', m' := steps' + [Recover], Next(m', n, Recover).value;
      unit.ErrorCallback(Disconnected);
    }
  }

  lemma PollingKeepsSocket(profile: Profile, p: Poll, cmds: seq<Cmd>)
    ensures Polled(profile, p, cmds).1.link.open == p.link.open
  {
    hide Drained;
    DrainingKeepsSocket(p.link, cmds);
    ScanKeepsSocket(profile.table, ProfileSegments(profile), ScanOf(p, cmds));
  }

  /** The inner loop: cycles until one fails or the flag is found cleared. */
  method PollWhileConnected(unit: UpsUnit, arrivals: seq<seq<seq<Cmd>>>, checks: nat, ghost ok: iset<Cmd>,
                            ghost ring: Ring, ghost steps: seq<Step>, ghost m: Machine, ghost start: Poll)
    returns (left: nat, rest: seq<seq<seq<Cmd>>>, ghost steps': seq<Step>, ghost m': Machine,
             ghost drains: seq<seq<Cmd>>, ghost heads: seq<Head>)
    requires unit.Valid() && Inv(m, |ProfileSegments(unit.profile)|) && Along(unit, ring, steps, m)
    requires m.pc == InnerHead && m.running && unit.State() == start
    requires m.ring.count == 0 && AllArriveIn(arrivals, ok)
    modifies unit, unit.client, unit.client.socket, unit.queue, unit.queue.entries, unit.pool
    ensures unit.Valid() && Along(unit, ring, steps', m') && Inv(m', |ProfileSegments(unit.profile)|)
    ensures m'.pc == OuterHead && (left > 0 ==> m'.running) && left <= checks
    ensures unit.pool[..] == PolledAll(unit.profile, start, drains).cells
    ensures unit.client.sent == PolledAll(unit.profile, start, drains).link.sent
    ensures forall h :: h in heads ==> HeadFine(ring, |ProfileSegments(unit.profile)|, h)
    ensures Marks(steps') == Marks(steps) + MarksOf(heads)
    ensures m'.ring.count == 0 && AllArriveIn(rest, ok) && ArriveIn(drains, ok)
  {
    hide Ring.Contents, Ring.Valid, Ascending, ProperCmds, Polled, Run, Reaches, ProfileSegments, PolledAll, AllSucceed;
    hide Marks, MarksOf, HeadFine, ArriveIn;
    ghost var n := |ProfileSegments(unit.profile)|;
    steps', m', drains, heads := steps, m, [], [];
    NoCyclesYet(unit.profile, start);
    NothingYet(steps, ok);
    left, rest := checks, arrivals;
    while left > 0
      invariant unit.Valid() && Along(unit, ring, steps', m') && Inv(m', n) && m'.running && m'.pc == InnerHead
      invariant OnConnection(unit, start, drains) && left <= checks
      invariant forall h :: h in heads ==> HeadFine(ring, n, h)
      invariant Marks(steps') == Marks(steps) + MarksOf(heads)
      invariant m'.ring.count == 0 && AllArriveIn(rest, ok) && ArriveIn(drains, ok)
    {
      left := left - 1;
      ghost var head := Head(true, unit.connection, unit.commFailCount, unit.client.open, steps');
      InnerHeadFine(ring, n, head, m');
      OneMoreMark(Marks(steps), heads, head);
      heads := heads + [head];
      var rc;
      rc, steps', m', drains :=
        PollOnce(unit, if rest == [] then [] else rest[0], ok, ring, steps', m', start, drains);
      rest := if rest == [] then [] else rest[1..];
      if rc != 0 {
        return;
      }
    }
    ReachesStep(ring, n, steps', m', Stop);
    MarksOneMore(steps', Stop);
    steps', m' := steps' + [Stop], Next(m', n, Stop).value;
    ReachesStep(ring, n, steps', m', LeaveInner);
    MarksOneMore(steps', LeaveInner);
    steps', m' := steps' + [LeaveInner], Next(m', n, LeaveInner).value;
  }

  lemma OneMoreMark(marks: seq<Mark>, heads: seq<Head>, head: Head)
    ensures MarksOf(heads + [head]) == MarksOf(heads) + [Mark(head.inner, head.steps)]
    ensures marks + MarksOf(heads + [head]) == (marks + MarksOf(heads)) + [Mark(head.inner, head.steps)]
  {
    assert MarksOf(heads + [head]) == MarksOf(heads) + [Mark(head.inner, head.steps)];
  }

  /** The heads passed so far: all of them, and each fine. */
  ghost predicate HeadsFine(ring: Ring, n: nat, heads: seq<Head>, steps: seq<Step>) {
    MarksOf(heads) == Marks(steps) && forall h :: h in heads ==> HeadFine(ring, n, h)
  }

  lemma HeadsMore(ring: Ring, n: nat, heads: seq<Head>, steps: seq<Step>, more: seq<Head>, steps': seq<Step>)
    requires HeadsFine(ring, n, heads, steps) && Marks(steps') == Marks(steps) + MarksOf(more)
    requires forall h :: h in more ==> HeadFine(ring, n, h)
    ensures HeadsFine(ring, n, heads + more, steps')
  {
    hide Marks, MarksOf, HeadFine;
    MarksOfConcat(heads, more);
  }

  /** The head of the outer loop, and the connection attempt after it. */
  lemma HeadsAttempt(ring: Ring, n: nat, heads: seq<Head>, head: Head, ok: bool)
    requires HeadsFine(ring, n, heads, head.steps) && HeadFine(ring, n, head) && !head.inner
    ensures HeadsFine(ring, n, heads + [head], head.steps + [Connect(ok)])
  {
    hide Marks, MarksOf, HeadFine;
    MarksOneMore(head.steps, Connect(ok));
    OneMoreMark([], heads, head);
  }

  lemma HeadsQuiet(ring: Ring, n: nat, heads: seq<Head>, steps: seq<Step>, step: Step)
    requires HeadsFine(ring, n, heads, steps) && !step.Connect? && !step.EnterCycle?
    ensures HeadsFine(ring, n, heads, steps + [step])
  {
    hide Marks, MarksOf, HeadFine;
    MarksOneMore(steps, step);
  }

  lemma NothingYet(steps: seq<Step>, ok: iset<Cmd>)
    ensures Marks(steps) + MarksOf([]) == Marks(steps) && MarksOf([]) == [] && Marks([]) == [] && ArriveIn([], ok)
  {
  }

  lemma NoCyclesYet(profile: Profile, p: Poll)
    ensures AllSucceed(profile, p, []) && PolledAll(profile, p, []) == p
  {
  }

  lemma InnerHeadFine(ring: Ring, n: nat, h: Head, m: Machine)
    requires Reaches(ring, n, h.steps, m) && Inv(m, n) && m.pc == InnerHead && m.running && h.inner
    requires m.connection == h.connection && m.fails == h.fails && (m.sock == Live ==> h.open)
    ensures HeadFine(ring, n, h)
  {
    hide Reaches;
  }

  lemma OuterHeadFine(ring: Ring, n: nat, h: Head, m: Machine)
    requires Reaches(ring, n, h.steps, m) && Inv(m, n) && m.pc == OuterHead && m.running && !h.inner
    requires m.connection == h.connection && m.fails == h.fails
    ensures HeadFine(ring, n, h)
  {
    hide Reaches;
  }

  /** Each connection starts as a successful attempt by one of the plans leaves the client. */
  ghost predicate ByPlan(plans: seq<Plan>, id: byte, s: Served) {
    exists j :: 0 <= j < |plans|
                && s.link == Link(true, id, 0, plans[j].sends, plans[j].script, s.link.sent, s.link.stacks)
  }

  /** Every command these connections took out of the queue is one of `ok`. */
  ghost predicate DrainsIn(served: seq<Served>, ok: iset<Cmd>) {
    forall s :: s in served ==> ArriveIn(s.drains, ok)
  }

  /** Where these connections have taken the pool and the log of frames, from `cells` and `sent`. */
  ghost predicate Accounts(profile: Profile, cells: Cells, sent: seq<seq<byte>>, served: seq<Served>, plans: seq<Plan>,
                           id: byte, ok: iset<Cmd>, pool: Cells, log: seq<seq<byte>>)
  {
    && pool == PoolAfter(profile, cells, served)
    && SentBy(profile, cells, served, sent, log)
    && (forall s :: s in served ==> ByPlan(plans, id, s))
    && DrainsIn(served, ok)
  }

  lemma AccountsOneMore(profile: Profile, cells: Cells, sent: seq<seq<byte>>, served: seq<Served>, plans: seq<Plan>,
                        id: byte, ok: iset<Cmd>, start: Poll, drains: seq<seq<Cmd>>)
    requires Accounts(profile, cells, sent, served, plans, id, ok, start.cells, start.link.sent)
    requires ByPlan(plans, id, Served(start.link, drains)) && ArriveIn(drains, ok) && start.fails == 0
    ensures var end := PolledAll(profile, start, drains);
            var all := served + [Served(start.link, drains)];
            Accounts(profile, cells, sent, all, plans, id, ok, end.cells, end.link.sent)
  {
    hide PolledAll, SentBy, PoolAfter, ByPlan, ArriveIn;
    var s := Served(start.link, drains);
    OneMoreConnection(profile, cells, served, s);
    SentByOneMore(profile, cells, served, sent, s);
  }

  /**
   * The thread. The running flag is found cleared after `checks` looks at it; connection attempts go by `plans`,
   * and fail when those run out; `arrivals[j]` is what is pushed while the j-th cycle drains. What the code does
   * is a run of the machine; `heads` are all the loop heads it passes with the flag set, and each is fine; the pool and
   * the frames sent are what its poll cycles make of them; and only what arrives is ever taken out of the queue.
   */
  method Thread(unit: UpsUnit, plans: seq<Plan>, arrivals: seq<seq<seq<Cmd>>>, checks: nat, ghost ok: iset<Cmd>)
    returns (ghost steps: seq<Step>, ghost m: Machine, ghost heads: seq<Head>, ghost served: seq<Served>)
    requires unit.Valid() && unit.queue.State().Contents() == []
    requires unit.commFailCount == 0 && unit.connection == Disconnected
    requires AllArriveIn(arrivals, ok)
    modifies unit, unit.client, unit.client.socket, unit.queue, unit.queue.entries, unit.pool
    ensures unit.Valid() && !unit.client.open
    ensures Along(unit, old(unit.queue.State()), steps, m) && m.pc == Stopped
    ensures HeadsFine(old(unit.queue.State()), |ProfileSegments(unit.profile)|, heads, steps)
    ensures Accounts(unit.profile, old(unit.pool[..]), old(unit.client.sent), served, plans, unit.client.unit, ok,
                     unit.pool[..], unit.client.sent)
  {
    hide Ring.Contents, Ring.Valid, Ascending, ProperCmds, Run, Reaches, ProfileSegments, PolledAll, HeadFine;
    hide HeadsFine, Accounts, ArriveIn, AllArriveIn, ByPlan;
    ghost var ring, profile, id := unit.queue.State(), unit.profile, unit.client.unit;
    ghost var n := |ProfileSegments(profile)|;
    ghost var cells, sent := unit.pool[..], unit.client.sent;
    steps, m, heads, served := [], Initial(ring), [], [];
    ReachesStart(ring, n);
    NothingServed(profile, cells, sent, plans, id, ok);
    NoHeads(ring, n);
    var left, attempt, later := checks, 0, arrivals;
    while left > 0
      invariant unit.Valid() && Along(unit, ring, steps, m) && Inv(m, n) && m.pc == OuterHead
      invariant left > 0 ==> m.running
      invariant HeadsFine(ring, n, heads, steps)
      invariant Accounts(profile, cells, sent, served, plans, id, ok, unit.pool[..], unit.client.sent)
      invariant m.ring.count == 0 && AllArriveIn(later, ok)
    {
      left := left - 1;
      ghost var head := Head(false, unit.connection, unit.commFailCount, unit.client.open, steps);
      OuterHeadFine(ring, n, head, m);
      var plan := if attempt < |plans| then plans[attempt] else Plan(false, [], []);
      ghost var j := attempt;
      attempt := attempt + 1;
      ReachesStep(ring, n, steps, m, Connect(plan.reached));
      HeadsAttempt(ring, n, heads, head, plan.reached);
      heads, steps, m := heads + [head], steps + [Connect(plan.reached)], Next(m, n, Connect(plan.reached)).value;
      var rc := unit.InitCallback(plan.reached, plan.sends, plan.script);
      if rc != 0 {
        continue;
      }
      ghost var start := unit.State();
      ghost var steps', drains, more;
      left, later, steps', m, drains, more := PollWhileConnected(unit, later, left, ok, ring, steps, m, start);
      HeadsMore(ring, n, heads, steps, more, steps');
      heads, steps := heads + more, steps';
      ByPlanIs(plans, id, Served(start.link, drains), j);
      AccountsOneMore(profile, cells, sent, served, plans, id, ok, start, drains);
      served := served + [Served(start.link, drains)];
    }
    ReachesStep(ring, n, steps, m, Stop);
    HeadsQuiet(ring, n, heads, steps, Stop);
    steps, m := steps + [Stop], Next(m, n, Stop).value;
    ReachesStep(ring, n, steps, m, LeaveOuter);
    HeadsQuiet(ring, n, heads, steps, LeaveOuter);
    steps, m := steps + [LeaveOuter], Next(m, n, LeaveOuter).value;
    unit.client.Disconnect();
  }

  lemma ByPlanIs(plans: seq<Plan>, id: byte, s: Served, j: nat)
    requires j < |plans| && s.link == Link(true, id, 0, plans[j].sends, plans[j].script, s.link.sent, s.link.stacks)
    ensures ByPlan(plans, id, s)
  {
  }

  lemma NothingServed(profile: Profile, cells: Cells, sent: seq<seq<byte>>, plans: seq<Plan>, id: byte, ok: iset<Cmd>)
    ensures Accounts(profile, cells, sent, [], plans, id, ok, cells, sent)
  {
  }

  lemma NoHeads(ring: Ring, n: nat)
    ensures HeadsFine(ring, n, [], [])
  {
  }
}
