/**
 * The register map: a table from device addresses to cells of the shared pool,
 * the search through it, the stores it routes, and the access check on pool ranges.
 */
module DeviceMap {
  import opened Bytes

  const INTERNAL_POOL_SIZE: nat := 65535

  datatype Access = ReadOnly | ReadWrite | WriteOnly

  datatype Row = Row(device: u16, pool: u16, access: Access)

  datatype Profile = Profile(table: seq<Row>, readChunk: u16)

  type Cells = s: seq<u16> | |s| == INTERNAL_POOL_SIZE witness seq(INTERNAL_POOL_SIZE, _ => 0)

  /** Rows sorted by device address, as the binary search needs them. */
  ghost predicate Ascending(table: seq<Row>) {
    forall i, j :: 0 <= i < j < |table| ==> table[i].device < table[j].device
  }

  /** No two rows share a pool cell, and every cell exists. */
  ghost predicate OwnCells(table: seq<Row>) {
    && (forall i, j :: 0 <= i < j < |table| ==> table[i].pool != table[j].pool)
    && (forall i :: 0 <= i < |table| ==> table[i].pool < INTERNAL_POOL_SIZE)
  }

  ghost predicate Mapped(table: seq<Row>, addr: int) {
    exists i :: 0 <= i < |table| && table[i].device == addr
  }

  // ---------- Lookup

  function Lookup(table: seq<Row>, addr: u16): Option<Row> {
    if table == [] then None
    else if table[0].device == addr then Some(table[0])
    else Lookup(table[1..], addr)
  }

  lemma {:induction false} LookupMisses(table: seq<Row>, addr: u16)
    requires !Mapped(table, addr)
    ensures Lookup(table, addr) == None
  {
    if table != [] {
      assert table[0].device != addr;
      LookupMisses(table[1..], addr);
    }
  }

  lemma {:induction false} LookupFinds(table: seq<Row>, i: nat)
    requires i < |table| && Ascending(table)
    ensures Lookup(table, table[i].device) == Some(table[i])
  {
    if i > 0 {
      LookupFinds(table[1..], i - 1);
    }
  }

  method FindSlot(table: seq<Row>, addr: u16) returns (slot: Option<Row>)
    requires Ascending(table)
    ensures slot == Lookup(table, addr)
    ensures slot.Some? <==> Mapped(table, addr)
    ensures slot.Some? ==> slot.value in table && slot.value.device == addr
  {
    if |table| == 0 {
      return None;
    }
    var low, high := 0, |table|;
    while low < high
      invariant 0 <= low <= high <= |table|
      invariant forall i :: 0 <= i < low ==> table[i].device < addr
      invariant forall i :: high <= i < |table| ==> addr < table[i].device
    {
      var mid := low + (high - low) / 2;
      var device := table[mid].device;
      if device == addr {
        LookupFinds(table, mid);
        return Some(table[mid]);
      }
      if device < addr {
        low := mid + 1;
      } else {
        high := mid;
      }
    }
    LookupMisses(table, addr);
    return None;
  }

  // ---------- Stores

  function StoreOne(table: seq<Row>, cells: Cells, addr: u16, raw: u16): Cells {
    match Lookup(table, addr)
    case None => cells
    case Some(row) => if row.pool >= INTERNAL_POOL_SIZE then cells else cells[row.pool := raw]
  }

  /** `values[i]` goes to the cell of device address `start + i` (mod 2^16), in order. */
  function Store(table: seq<Row>, cells: Cells, start: u16, values: seq<u16>): Cells {
    if values == [] then cells
    else
      var last := |values| - 1;
      StoreOne(table, Store(table, cells, start, values[..last]), (start + last) % 0x1_0000, values[last])
  }

  lemma {:induction false} EmptyTableStoresNothing(cells: Cells, start: u16, values: seq<u16>)
    ensures Store([], cells, start, values) == cells
  {
    if values != [] {
      EmptyTableStoresNothing(cells, start, values[..|values| - 1]);
    }
  }

  method ReadToPool(table: seq<Row>, values: seq<u16>, start: u16, count: nat, pool: array<u16>)
    requires Ascending(table) && count <= |values| && pool.Length == INTERNAL_POOL_SIZE
    modifies pool
    ensures pool[..] == Store(table, old(pool[..]), start, values[..count])
  {
    if count == 0 || |table| == 0 {
      EmptyTableStoresNothing(pool[..], start, values[..count]);
      return;
    }
    ghost var was := pool[..];
    for i := 0 to count
      invariant pool[..] == Store(table, was, start, values[..i])
    {
      assert values[..i + 1][..i] == values[..i];
      var slot := FindSlot(table, (start + i) % 0x1_0000);
      match slot {
        case None =>
        case Some(row) =>
          if row.pool < INTERNAL_POOL_SIZE {
            pool[row.pool] := values[i];
          }
      }
    }
  }

  /** How far past `start` an address is, counting on from 65535 to 0. */
  function Offset(start: u16, device: u16): nat {
    (device - start) % 0x1_0000
  }

  lemma OffsetMeans(start: u16, device: u16, i: nat)
    requires i < 0x1_0000
    ensures Offset(start, device) == i <==> device == (start + i) % 0x1_0000
  {
  }

  /** The value a row's cell holds after storing `values` read from `start` on. */
  function Expected(row: Row, cells: Cells, start: u16, values: seq<u16>): u16
    requires row.pool < INTERNAL_POOL_SIZE
  {
    var i := Offset(start, row.device);
    if i < |values| then values[i] else cells[row.pool]
  }

  /** In a range that does not wrap, an address's value is at its distance from the start. */
  lemma ExpectedDirect(row: Row, cells: Cells, start: u16, values: seq<u16>)
    requires row.pool < INTERNAL_POOL_SIZE && start + |values| <= 0x1_0000
    ensures Expected(row, cells, start, values)
            == if start <= row.device < start + |values| then values[row.device - start] else cells[row.pool]
  {
  }

  lemma StoreOneRoutes(table: seq<Row>, cells: Cells, addr: u16, raw: u16)
    requires Ascending(table) && OwnCells(table)
    ensures var after := StoreOne(table, cells, addr, raw);
            (forall i :: 0 <= i < |table| ==>
               after[table[i].pool] == if table[i].device == addr then raw else cells[table[i].pool])
            && (forall c :: 0 <= c < INTERNAL_POOL_SIZE && Unowned(table, c) ==> after[c] == cells[c])
  {
    if Mapped(table, addr) {
      var m :| 0 <= m < |table| && table[m].device == addr;
      LookupFinds(table, m);
    } else {
      LookupMisses(table, addr);
    }
  }

  ghost predicate Unowned(table: seq<Row>, cell: int) {
    forall i :: 0 <= i < |table| ==> table[i].pool != cell
  }

  /** Every row's cell follows its own register; the cells no row owns keep their value. */
  lemma {:induction false} StoreRoutes(table: seq<Row>, cells: Cells, start: u16, values: seq<u16>)
    requires Ascending(table) && OwnCells(table) && |values| <= 0x1_0000
    ensures var after := Store(table, cells, start, values);
            (forall i :: 0 <= i < |table| ==> after[table[i].pool] == Expected(table[i], cells, start, values))
            && (forall c :: 0 <= c < INTERNAL_POOL_SIZE && Unowned(table, c) ==> after[c] == cells[c])
  {
    if values != [] {
      hide StoreOne, Expected, Unowned;
      var last := |values| - 1;
      var before := Store(table, cells, start, values[..last]);
      StoreRoutes(table, cells, start, values[..last]);
      StoreOneRoutes(table, before, (start + last) % 0x1_0000, values[last]);
      forall i | 0 <= i < |table|
        ensures Expected(table[i], cells, start, values)
                == if table[i].device == (start + last) % 0x1_0000 then values[last] else before[table[i].pool]
      {
        ExpectedOneMore(table[i], cells, start, values);
      }
    } else {
      NothingExpected(table, cells, start);
    }
  }

  lemma ExpectedOneMore(row: Row, cells: Cells, start: u16, values: seq<u16>)
    requires row.pool < INTERNAL_POOL_SIZE && values != [] && |values| <= 0x1_0000
    ensures var last := |values| - 1;
            Expected(row, cells, start, values)
            == if row.device == (start + last) % 0x1_0000 then values[last]
               else Expected(row, cells, start, values[..last])
  {
    OffsetMeans(start, row.device, |values| - 1);
    hide Offset;
  }

  lemma NothingExpected(table: seq<Row>, cells: Cells, start: u16)
    requires OwnCells(table)
    ensures forall i :: 0 <= i < |table| ==> Expected(table[i], cells, start, []) == cells[table[i].pool]
  {
  }

  /** The pool's value for a device address, if it is mapped and may be read. */
  function Cached(profile: Profile, cells: Cells, addr: u16): Option<u16> {
    match Lookup(profile.table, addr)
    case None => None
    case Some(row) =>
      if row.access == WriteOnly || row.pool >= INTERNAL_POOL_SIZE then None else Some(cells[row.pool])
  }

  /** What is cached for an address: the cell of its row, unless there is none, it may not be read, or has no cell. */
  lemma CachedMeans(profile: Profile, cells: Cells, addr: u16)
    requires Ascending(profile.table)
    ensures Cached(profile, cells, addr).None? <==>
              forall i :: 0 <= i < |profile.table| && profile.table[i].device == addr ==>
                            profile.table[i].access == WriteOnly || profile.table[i].pool >= 65535
    ensures forall i :: 0 <= i < |profile.table| && profile.table[i].device == addr
                        && profile.table[i].access != WriteOnly && profile.table[i].pool < 65535 ==>
              Cached(profile, cells, addr) == Some(cells[profile.table[i].pool])
  {
    if Mapped(profile.table, addr) {
      var i :| 0 <= i < |profile.table| && profile.table[i].device == addr;
      LookupFinds(profile.table, i);
    } else {
      LookupMisses(profile.table, addr);
    }
  }

  // ---------- Access check

  const EX_ILLEGAL_FUNCTION: byte := 1
  const EX_ILLEGAL_DATA_ADDRESS: byte := 2

  predicate Forbids(row: Row, need: Access) {
    (need == ReadOnly && row.access == WriteOnly) || (need == WriteOnly && row.access == ReadOnly)
  }

  /** The exception code one pool address earns: 0 if it is mapped and permits the access. */
  function AccessCode(table: seq<Row>, pa: u16, need: Access): byte {
    if table == [] then EX_ILLEGAL_DATA_ADDRESS
    else if table[0].pool != pa then AccessCode(table[1..], pa, need)
    else if Forbids(table[0], need) then EX_ILLEGAL_FUNCTION
    else 0
  }

  /** Each code has its meaning. */
  lemma {:induction false} AccessCodeMeans(table: seq<Row>, pa: u16, need: Access)
    requires OwnCells(table)
    ensures var code := AccessCode(table, pa, need);
            && (code == 2 <==> forall row :: row in table ==> row.pool != pa)
            && (code == 1 <==> exists row :: row in table && row.pool == pa
                                             && ((need == ReadOnly && row.access == WriteOnly)
                                                 || (need == WriteOnly && row.access == ReadOnly)))
            && (code == 0 <==> exists row :: row in table && row.pool == pa
                                             && (need == ReadWrite || row.access == ReadWrite || row.access == need))
  {
    if table != [] {
      AccessCodeMeans(table[1..], pa, need);
      assert forall row :: row in table <==> row == table[0] || row in table[1..];
    }
  }

  /** What the check is for: a nonempty range, every address of which exists, is mapped and permits the access. */
  ghost predicate Permitted(table: seq<Row>, poolStart: u16, count: u16, need: Access) {
    count > 0 && forall pa :: poolStart <= pa < poolStart + count ==> pa < 0x1_0000 && AccessCode(table, pa, need) == 0
  }

  /** Past the last cell nothing is mapped. */
  lemma {:induction false} LastAddressUnmapped(table: seq<Row>, need: Access)
    requires OwnCells(table)
    ensures AccessCode(table, 0xFFFF, need) == EX_ILLEGAL_DATA_ADDRESS
  {
    if table != [] {
      LastAddressUnmapped(table[1..], need);
    }
  }

  /** The inner search: the first row with that pool address decides. */
  method CheckAddress(table: seq<Row>, pa: u16, need: Access) returns (code: byte)
    ensures code == AccessCode(table, pa, need)
  {
    for i := 0 to |table|
      invariant AccessCode(table, pa, need) == AccessCode(table[i..], pa, need)
    {
      if table[i].pool != pa {
        continue;
      }
      if Forbids(table[i], need) {
        return EX_ILLEGAL_FUNCTION;
      }
      return 0;
    }
    return EX_ILLEGAL_DATA_ADDRESS;
  }

  /**
   * The check with its 16-bit counter. It answers for the range exactly when the range
   * does not run past 65535; a range that does is let through unexamined.
   */
  method CheckAccessRange(table: seq<Row>, poolStart: u16, count: u16, need: Access) returns (code: byte)
    requires OwnCells(table)
    ensures count == 0 ==> code == EX_ILLEGAL_DATA_ADDRESS
    ensures (code == 0 <==> Permitted(table, poolStart, count, need)) <==> poolStart + count <= 0x1_0000
    ensures poolStart + count > 0x1_0000 ==> code == 0
    ensures count > 0 && code != 0 ==>
              exists pa: u16 :: poolStart <= pa < poolStart + count && code == AccessCode(table, pa, need)
                                && forall lower :: poolStart <= lower < pa ==> AccessCode(table, lower, need) == 0
  {
    LastAddressUnmapped(table, need);
    if count == 0 {
      return EX_ILLEGAL_DATA_ADDRESS;
    }
    var poolEnd := (poolStart + count - 1) % 0x1_0000;
    var pa := poolStart;
    while pa <= poolEnd
      invariant poolStart <= pa < 0x1_0000
      invariant pa <= poolEnd + 1 || poolEnd < poolStart
      invariant forall lower :: poolStart <= lower < pa ==> AccessCode(table, lower, need) == 0
      decreases 0x1_0000 - pa
    {
      code := CheckAddress(table, pa, need);
      if code != 0 {
        return code;
      }
      pa := (pa + 1) % 0x1_0000;
    }
    return 0;
  }

  // ---------- The real table

  const UPS1_TABLE: seq<Row> :=
    [ Row(0x0000, 0xBB00, ReadOnly), Row(0x0001, 0xBB01, ReadOnly), Row(0x0002, 0xBB02, ReadOnly),
      Row(0x0003, 0xBB03, ReadOnly), Row(0x0004, 0xBB04, ReadOnly), Row(0x0005, 0xBB05, ReadOnly),
      Row(0x0006, 0xBB06, ReadOnly), Row(0x0007, 0xBB07, ReadOnly), Row(0x0008, 0xBB08, ReadOnly),
      Row(0x0009, 0xBB09, ReadOnly), Row(0x000A, 0xBB0A, ReadOnly), Row(0x000B, 0xBB0B, ReadOnly),
      Row(0x000C, 0xBB0C, ReadOnly), Row(0x000D, 0xBB0D, ReadOnly), Row(0x000E, 0xBB0E, ReadOnly),
      Row(0x000F, 0xBB0F, ReadOnly), Row(0x0010, 0xBB10, ReadOnly), Row(0x0011, 0xBB11, ReadOnly),
      Row(0x0012, 0xBB12, ReadWrite), Row(0x0013, 0xBB13, ReadWrite), Row(0x0014, 0xBB14, ReadWrite),
      Row(0x0015, 0xBB15, ReadWrite) ]

  const UPS1_PROFILE: Profile := Profile(UPS1_TABLE, 50)

  function ProfileByUid(uid: byte): Option<Profile> {
    if uid == 1 then Some(UPS1_PROFILE) else None
  }

  /** Every registered profile meets the rules its file states, which the rest of this project relies on. */
  lemma RegisteredProfilesWellFormed(uid: byte)
    requires ProfileByUid(uid).Some?
    ensures uid == 1
    ensures var profile := ProfileByUid(uid).value;
            profile.table != [] && Ascending(profile.table) && OwnCells(profile.table) && 1 <= profile.readChunk <= 125
  {
    assert forall i :: 0 <= i < |UPS1_TABLE| ==> UPS1_TABLE[i].device == i && UPS1_TABLE[i].pool == 0xBB00 + i;
  }

  /** A row of the profile lets a write to that address through. */
  predicate Writable(profile: Profile, addr: u16) {
    exists i :: 0 <= i < |profile.table| && profile.table[i].device == addr && profile.table[i].access != ReadOnly
  }

  /** What the real table lets through: writes to 0x12 to 0x15, and reads of 0x00 to 0x15. */
  lemma RegisteredAddresses(uid: byte, cells: Cells, addr: u16)
    ensures ProfileByUid(uid).Some? <==> uid == 1
    ensures uid == 1 ==>
              && (Writable(ProfileByUid(uid).value, addr) <==> 0x12 <= addr <= 0x15)
              && Cached(ProfileByUid(uid).value, cells, addr)
                 == if addr <= 0x15 then Some(cells[0xBB00 + addr]) else None
  {
    assert forall i :: 0 <= i < |UPS1_TABLE| ==> UPS1_TABLE[i] == RowAt(i);
    RowsInOrder(UPS1_PROFILE, cells, addr);
  }

  function RowAt(i: nat): Row
    requires i <= 0x15
  {
    Row(i, 0xBB00 + i, if i < 0x12 then ReadOnly else ReadWrite)
  }

  lemma RowsInOrder(profile: Profile, cells: Cells, addr: u16)
    requires |profile.table| == 0x16 && forall i :: 0 <= i < 0x16 ==> profile.table[i] == RowAt(i)
    ensures Writable(profile, addr) <==> 0x12 <= addr <= 0x15
    ensures Cached(profile, cells, addr) == if addr <= 0x15 then Some(cells[0xBB00 + addr]) else None
  {
    CachedMeans(profile, cells, addr);
    hide Cached;
    if addr <= 0x15 {
      assert profile.table[addr].device == addr;
    }
  }
}
