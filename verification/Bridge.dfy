/**
 * The bridge thread's two doors into a unit: validated single-register writes in
 * front of the command queue, validated reads in front of the pool.
 */
module Bridge {
  import opened Bytes
  import opened Codec
  import opened DeviceMap
  import opened CmdQueue
  import opened Client
  import opened UpsModule
  import opened PollThread

  /** The command a write request becomes, if its address is mapped and not read-only. */
  function WriteCommand(profile: Profile, addr: u16, val: u16): Option<Cmd> {
    match Lookup(profile.table, addr)
    case None => None
    case Some(row) => if row.access == ReadOnly then None else Some(Cmd(addr, [val], Auto))
  }

  /** The first unit whose configured uid, cut to a byte, is `uid`. */
  ghost predicate FirstWith(uids: seq<int>, uid: byte, i: int) {
    0 <= i < |uids| && uids[i] % 0x100 == uid && forall j :: 0 <= j < i ==> uids[j] % 0x100 != uid
  }

  lemma WriteCommandMeans(profile: Profile, addr: u16, val: u16)
    requires Ascending(profile.table)
    ensures WriteCommand(profile, addr, val)
            == if Writable(profile, addr) then Some(Cmd(addr, [val], Auto)) else None
  {
    if !Mapped(profile.table, addr) {
      LookupMisses(profile.table, addr);
    } else {
      var i :| 0 <= i < |profile.table| && profile.table[i].device == addr;
      LookupFinds(profile.table, i);
    }
  }

  class CmosBridge {
    const units: seq<UpsUnit>
    /** The configured modbus_uid of each unit. */
    const uids: seq<int>

    /** Every unit runs the profile its uid is registered with, on a queue of its own. */
    ghost predicate Valid()
      reads this, units, set u | u in units :: u.queue, set u | u in units :: u.queue.entries
    {
      && |units| == |uids|
      && (forall i :: 0 <= i < |units| ==> units[i].Valid() && ProfileByUid(uids[i] % 0x100) == Some(units[i].profile))
      && (forall i, j :: 0 <= i < j < |units| ==>
            units[i].queue != units[j].queue && units[i].queue.entries != units[j].queue.entries)
    }

    constructor (units: seq<UpsUnit>, uids: seq<int>)
      ensures this.units == units && this.uids == uids
    {
      this.units, this.uids := units, uids;
    }

    /** The first unit whose configured uid, cut to a byte, is `uid`. */
    method UnitFromUid(uid: byte) returns (i: int)
      requires |units| == |uids|
      ensures -1 <= i < |units|
      ensures i >= 0 ==> FirstWith(uids, uid, i)
      ensures i < 0 ==> forall j :: 0 <= j < |uids| ==> uids[j] % 0x100 != uid
    {
      for k := 0 to |units|
        invariant forall j :: 0 <= j < k ==> uids[j] % 0x100 != uid
      {
        if uids[k] % 0x100 == uid {
          return k;
        }
      }
      return -1;
    }

    /** Enqueue for the unit with that uid: the target's queue gains the command or nothing changes anywhere. */
    method CmdPush(uid: byte, cmd: Cmd) returns (rc: int, ghost target: int)
      requires Valid()
      modifies set u | u in units :: u.queue, set u | u in units :: u.queue.entries
      ensures Valid() && rc in {0, -1} && -1 <= target < |units| && (rc == 0 <==> target >= 0)
      ensures target >= 0 ==>
                && FirstWith(uids, uid, target) && 1 <= |cmd.values| <= MAX_WRITE_REGISTERS
                && units[target].queue.State().Contents() == old(units[target].queue.State().Contents()) + [cmd]
      ensures forall i :: 0 <= i < |units| && i != target ==>
                units[i].queue.State() == old(units[i].queue.State())
      ensures rc == 0 <==>
                && 1 <= |cmd.values| <= 123
                && exists i :: FirstWith(uids, uid, i) && old(units[i].queue.count) < 16
    {
      hide Ring.Contents, Ring.Valid, Ascending, ProperCmds;
      target := -1;
      if |cmd.values| == 0 || |cmd.values| > MAX_WRITE_REGISTERS {
        return -1, -1;
      }
      var i := UnitFromUid(uid);
      if i < 0 {
        return -1, -1;
      }
      PushAppends(units[i].queue.State(), cmd);
      PushKeepsProper(units[i].queue.State(), cmd);
      RefusedMeansFull(units[i].queue.State(), cmd);
      rc := units[i].queue.Push(cmd);
      assert forall j :: 0 <= j < |units| && j != i ==> units[j].queue.State() == old(units[j].queue.State());
      if rc == 0 {
        target := i;
      }
    }

    /**
     * On success exactly the validated command is appended to the target unit's queue;
     * on any failure, and for every other unit, nothing changes.
     */
    method OnWrite(uid: byte, addr: u16, val: u16) returns (rc: int, ghost target: int)
      requires Valid()
      modifies set u | u in units :: u.queue, set u | u in units :: u.queue.entries
      ensures Valid() && rc in {0, -1} && -1 <= target < |units| && (rc == 0 <==> target >= 0)
      ensures target >= 0 ==>
                && FirstWith(uids, uid, target)
                && units[target].queue.State().Contents()
                   == old(units[target].queue.State().Contents()) + [Cmd(addr, [val], Auto)]
                && WriteCommand(units[target].profile, addr, val) == Some(Cmd(addr, [val], Auto))
      ensures forall i :: 0 <= i < |units| && i != target ==>
                units[i].queue.State() == old(units[i].queue.State())
      ensures rc == 0 <==>
                && ProfileByUid(uid).Some?
                && (exists i ::
                      && 0 <= i < |ProfileByUid(uid).value.table|
                      && ProfileByUid(uid).value.table[i].device == addr
                      && ProfileByUid(uid).value.table[i].access != ReadOnly)
                && exists i :: FirstWith(uids, uid, i) && old(units[i].queue.count) < 16
    {
      hide Ring.Contents, Ring.Valid, Lookup, ProperCmds, Ascending, OwnCells;
      target := -1;
      var profile := ProfileByUid(uid);
      if profile.None? {
        return -1, -1;
      }
      RegisteredProfilesWellFormed(uid);
      WriteCommandMeans(profile.value, addr, val);
      var entry := FindSlot(profile.value.table, addr);
      if entry.None? {
        return -1, -1;
      }
      if entry.value.access == ReadOnly {
        return -1, -1;
      }
      rc, target := CmdPush(uid, Cmd(addr, [val], Auto));
    }

    /** The cached value of a mapped register that may be read. */
    method OnRead(uid: byte, addr: u16, pool: array<u16>) returns (val: Option<u16>)
      requires pool.Length == INTERNAL_POOL_SIZE
      ensures val == if ProfileByUid(uid).None? then None else Cached(ProfileByUid(uid).value, pool[..], addr)
      ensures val.None? <==>
                || ProfileByUid(uid).None?
                || var table := ProfileByUid(uid).value.table;
                   forall i :: 0 <= i < |table| && table[i].device == addr ==>
                                 table[i].access == WriteOnly || table[i].pool >= 65535
      ensures val.Some? ==>
                var table := ProfileByUid(uid).value.table;
                exists i :: 0 <= i < |table| && table[i].device == addr
                            && table[i].pool < pool.Length && val.value == pool[table[i].pool]
    {
      var profile := ProfileByUid(uid);
      if profile.None? {
        return None;
      }
      RegisteredProfilesWellFormed(uid);
      CachedMeans(profile.value, pool[..], addr);
      var entry := FindSlot(profile.value.table, addr);
      if entry.None? || entry.value.access == WriteOnly || entry.value.pool >= INTERNAL_POOL_SIZE {
        return None;
      }
      return Some(pool[entry.value.pool]);
    }
  }

  // ---------- What can reach the device

  /** A single-register write to a mapped address that is not read-only. */
  ghost predicate Allowed(profile: Profile, cmd: Cmd) {
    && |cmd.values| == 1 && cmd.mode == Auto
    && exists i ::
         0 <= i < |profile.table| && profile.table[i].device == cmd.addr && profile.table[i].access != ReadOnly
  }

  ghost predicate FromBridge(profile: Profile, steps: seq<Step>) {
    forall i :: 0 <= i < |steps| && steps[i].Push? ==>
      exists addr: u16, val: u16 :: WriteCommand(profile, addr, val) == Some(steps[i].cmd)
  }

  lemma BridgeCommandAllowed(profile: Profile, addr: u16, val: u16)
    requires Ascending(profile.table) && WriteCommand(profile, addr, val).Some?
    ensures Allowed(profile, WriteCommand(profile, addr, val).value)
  {
    WriteCommandMeans(profile, addr, val);
  }

  lemma StepAccepts(m: Machine, n: nat, step: Step)
    requires m.ring.Valid() && Next(m, n, step).Some?
    ensures var accepted := Next(m, n, step).value.accepted;
            accepted == m.accepted || (step.Push? && accepted == m.accepted + [step.cmd])
  {
    hide Ring.Contents, Ring.Valid, Pushed, Popped;
  }

  lemma {:induction false} AcceptedAreAllowed(profile: Profile, ring: Ring, n: nat, steps: seq<Step>)
    requires Ascending(profile.table) && ring.Valid() && ring.Contents() == [] && FromBridge(profile, steps)
    ensures Run(Initial(ring), n, steps).Some? ==>
              forall cmd :: cmd in Run(Initial(ring), n, steps).value.accepted ==> Allowed(profile, cmd)
    decreases |steps|
  {
    if steps != [] && Run(Initial(ring), n, steps).Some? {
      hide Ring.Contents, Ring.Valid, WriteCommand, Pushed, Popped;
      var before, last := steps[..|steps| - 1], steps[|steps| - 1];
      RunSplits(Initial(ring), n, steps);
      RunRingValid(Initial(ring), n, before);
      StepAccepts(Run(Initial(ring), n, before).value, n, last);
      hide Next, Run;
      assert FromBridge(profile, before);
      AcceptedAreAllowed(profile, ring, n, before);
      if last.Push? {
        var addr: u16, val: u16 :| WriteCommand(profile, addr, val) == Some(last.cmd);
        BridgeCommandAllowed(profile, addr, val);
      }
    }
  }

  /**
   * In every run fed through the bridge, every command still queued and the command being written is
   * allowed, and what goes on the wire for it is one FC06 request to its own, writable, address.
   */
  lemma OnlyAllowedWritesReachDevice(profile: Profile, ring: Ring, n: nat, steps: seq<Step>, m: Machine, l: Link)
    requires Ascending(profile.table) && ring.Valid() && ring.Contents() == [] && FromBridge(profile, steps)
    requires Run(Initial(ring), n, steps) == Some(m)
    ensures m.ring.Valid() && forall cmd :: cmd in m.ring.Contents() ==> Allowed(profile, cmd)
    ensures m.pc.Writing? ==> Allowed(profile, m.pc.cmd)
    ensures m.pc.Writing? && l.open && Written(l, m.pc.cmd).sent != l.sent ==>
              var frame := StandardRequest(NextTid(l.tid), l.unit, FC_WRITE_SINGLE_REGISTER,
                                           m.pc.cmd.addr, m.pc.cmd.values[0]);
              Written(l, m.pc.cmd).sent == l.sent + [frame]
  {
    RunKeepsInv(Initial(ring), n, steps);
    AcceptedAreAllowed(profile, ring, n, steps);
    forall cmd | cmd in m.ring.Contents() ensures cmd in m.accepted {
    }
    if m.pc.Writing? {
      assert m.popped[|m.popped| - 1] == m.pc.cmd;
      assert m.pc.cmd in m.accepted;
    }
  }

  /** What draining a command from the bridge puts on the wire: the value asked for, to the address asked for. */
  lemma BridgeWriteSent(l: Link, addr: u16, val: u16)
    requires l.open
    ensures var after, tid := Drained(l, [Cmd(addr, [val], Auto)]), if l.tid == 65535 then 1 else l.tid + 1;
            if l.sends != [] && !l.sends[0] then after.sent == l.sent
            else after.sent == l.sent + [[tid / 256, tid % 256, 0, 0, 0, 6, l.unit, 6,
                                          addr / 256, addr % 256, val / 256, val % 256]]
  {
    var cmd := Cmd(addr, [val], Auto);
    CommandSent(l, cmd);
    assert [cmd][1..] == [];
    hide Written;
    assert Drained(l, [cmd]) == Written(l, cmd);
  }
}
