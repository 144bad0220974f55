/**
 * How a scan cuts the register table into read requests: the greedy segmentation,
 * that it is an exact cover, and that no cover uses fewer requests.
 */
module Segmentation {
  import opened Bytes
  import opened DeviceMap

  /** Rows `start .. start + len` of the table, read by one request. */
  datatype Segment = Segment(start: nat, len: nat)

  /** Row `i` continues the run of row `i - 1`. */
  predicate Contiguous(table: seq<Row>, i: nat) {
    0 < i < |table| && table[i].device == table[i - 1].device + 1
  }

  /** The largest request the loop makes: a read_chunk of 0 still reads one register at a time. */
  function Cap(chunk: u16): nat { if chunk == 0 then 1 else chunk }

  /** How far a segment at `start` that has grown to `len` will grow. */
  function Grown(table: seq<Row>, chunk: u16, start: nat, len: nat): (n: nat)
    requires 1 <= len && start + len <= |table|
    ensures len <= n && start + n <= |table|
    decreases |table| - start - len
  {
    if Contiguous(table, start + len) && len < chunk then Grown(table, chunk, start, len + 1) else len
  }

  lemma GrownStep(table: seq<Row>, chunk: u16, start: nat, len: nat)
    requires 1 <= len && start + len <= |table|
    ensures Grown(table, chunk, start, len)
            == if Contiguous(table, start + len) && len < chunk then Grown(table, chunk, start, len + 1) else len
  {
  }

  function Segments(table: seq<Row>, chunk: u16, start: nat): seq<Segment>
    requires start <= |table|
    decreases |table| - start
  {
    if start == |table| then []
    else
      var len := Grown(table, chunk, start, 1);
      [Segment(start, len)] + Segments(table, chunk, start + len)
  }

  lemma {:induction false} SegmentStarts(table: seq<Row>, chunk: u16, start: nat)
    requires start <= |table|
    ensures forall s :: s in Segments(table, chunk, start) ==> s.start < |table|
    decreases |table| - start
  {
    if start < |table| {
      SegmentStarts(table, chunk, start + Grown(table, chunk, start, 1));
    }
  }

  /** The requests of one scan. */
  function ProfileSegments(profile: Profile): (segments: seq<Segment>)
    ensures forall s :: s in segments ==> s.start < |profile.table|
    ensures segments == [] <==> profile.table == []
  {
    SegmentStarts(profile.table, profile.readChunk, 0);
    Segments(profile.table, profile.readChunk, 0)
  }

  // ---------- Exact cover

  function Run(addr: int, len: nat): (r: seq<int>)
    ensures |r| == len
  {
    seq(len, i => addr + i)
  }

  /** The device addresses the segments ask for, in the order they are asked for. */
  function Requested(table: seq<Row>, segments: seq<Segment>): seq<int>
    requires forall s :: s in segments ==> s.start < |table|
  {
    if segments == [] then []
    else Run(table[segments[0].start].device, segments[0].len) + Requested(table, segments[1..])
  }

  function Addresses(table: seq<Row>, start: nat): (r: seq<int>)
    requires start <= |table|
    ensures |r| == |table| - start
  {
    seq(|table| - start, i requires 0 <= i < |table| - start => table[start + i].device)
  }

  ghost predicate IsRun(table: seq<Row>, s: Segment) {
    && s.start + s.len <= |table|
    && forall i :: s.start < i < s.start + s.len ==> Contiguous(table, i)
  }

  lemma {:induction false} GrownRun(table: seq<Row>, chunk: u16, start: nat, len: nat)
    requires 1 <= len <= Cap(chunk) && start + len <= |table| && IsRun(table, Segment(start, len))
    ensures var n := Grown(table, chunk, start, len);
            n <= Cap(chunk) && IsRun(table, Segment(start, n))
            && (n == Cap(chunk) || !Contiguous(table, start + n))
    decreases |table| - start - len
  {
    if Contiguous(table, start + len) && len < chunk {
      GrownRun(table, chunk, start, len + 1);
    }
  }

  lemma {:induction false} RunAddresses(table: seq<Row>, s: Segment, i: nat)
    requires IsRun(table, s) && s.start + i < |table| && i < s.len
    ensures table[s.start + i].device == table[s.start].device + i
  {
    if i > 0 {
      RunAddresses(table, s, i - 1);
      assert Contiguous(table, s.start + i);
    }
  }

  /** Segments laid end to end from row `start` to the end of the table. */
  ghost predicate Tiles(table: seq<Row>, segments: seq<Segment>, start: nat)
    decreases |segments|
  {
    if segments == [] then start == |table|
    else
      var s := segments[0];
      s.start == start < |table| && 1 <= s.len < 0x1_0000 && IsRun(table, s)
      && Tiles(table, segments[1..], start + s.len)
  }

  lemma {:induction false} SegmentsTile(table: seq<Row>, chunk: u16, start: nat)
    requires start <= |table|
    ensures Tiles(table, Segments(table, chunk, start), start)
    ensures forall s :: s in Segments(table, chunk, start) ==> s.len <= Cap(chunk)
    decreases |table| - start
  {
    NoSegments(table, chunk);
    if start < |table| {
      hide Segments, Grown, IsRun;
      FirstSegment(table, chunk, start);
      SegmentsTile(table, chunk, start + Grown(table, chunk, start, 1));
    }
  }

  lemma {:induction false} TilesInOrder(table: seq<Row>, segments: seq<Segment>, start: nat)
    requires Tiles(table, segments, start)
    ensures forall k :: 0 <= k < |segments| ==>
              start <= segments[k].start < |table| && 1 <= segments[k].len && IsRun(table, segments[k])
    decreases |segments|
  {
    if segments != [] {
      TilesInOrder(table, segments[1..], start + segments[0].len);
    }
  }

  lemma {:induction false} TilesRequestAll(table: seq<Row>, segments: seq<Segment>, start: nat)
    requires start <= |table| && Tiles(table, segments, start) && forall s :: s in segments ==> s.start < |table|
    ensures Requested(table, segments) == Addresses(table, start)
    decreases |segments|
  {
    if segments != [] {
      hide IsRun, Tiles;
      var s := segments[0];
      TilesRequestFirst(table, segments, start);
      TilesRequestAll(table, segments[1..], start + s.len);
    }
  }

  lemma TilesRequestFirst(table: seq<Row>, segments: seq<Segment>, start: nat)
    requires start <= |table| && segments != [] && Tiles(table, segments, start)
    ensures var s := segments[0];
            s.start == start && start + s.len <= |table| && Tiles(table, segments[1..], start + s.len)
            && start < |table|
            && Addresses(table, start) == Run(table[start].device, s.len) + Addresses(table, start + s.len)
  {
    var s := segments[0];
    forall k | start <= k < start + s.len ensures table[k].device == table[start].device + (k - start) {
      RunAddresses(table, s, k - start);
    }
  }

  /**
   * The scan asks for every mapped address exactly once, in table order, and for nothing else;
   * every request is a run of consecutive addresses no longer than the chunk.
   */
  lemma SegmentsCoverExactly(table: seq<Row>, chunk: u16)
    ensures var segments := Segments(table, chunk, 0);
            (forall s :: s in segments ==> s.start < |table| && 1 <= s.len <= Cap(chunk) && IsRun(table, s))
            && Requested(table, segments) == Addresses(table, 0)
  {
    var segments := Segments(table, chunk, 0);
    SegmentsTile(table, chunk, 0);
    TilesInOrder(table, segments, 0);
    TilesRequestAll(table, segments, 0);
  }

  // ---------- Minimality

  /** A read of `len` registers from `addr`. */
  datatype ReadRequest = ReadRequest(addr: nat, len: nat)

  /** Requests that touch only mapped addresses, stay within the cap, and reach every row. */
  ghost predicate Covers(table: seq<Row>, cap: nat, requests: seq<ReadRequest>) {
    && (forall r :: r in requests ==> r.len <= cap && forall a :: r.addr <= a < r.addr + r.len ==> Mapped(table, a))
    && (forall i :: 0 <= i < |table| ==> Reached(requests, table[i]))
  }

  predicate Reaches(r: ReadRequest, row: Row) {
    r.addr <= row.device < r.addr + r.len
  }

  ghost predicate Reached(requests: seq<ReadRequest>, row: Row) {
    exists r :: 0 <= r < |requests| && Reaches(requests[r], row)
  }

  lemma FirstSegment(table: seq<Row>, chunk: u16, start: nat)
    requires start < |table|
    ensures var len := Grown(table, chunk, start, 1);
            var first := Segment(start, len);
            Segments(table, chunk, start) == [first] + Segments(table, chunk, start + len)
            && 1 <= len <= Cap(chunk) && IsRun(table, first)
            && ((forall i :: start < i <= start + len ==> Contiguous(table, i)) ==> len == Cap(chunk))
  {
    GrownRun(table, chunk, start, 1);
  }

  /** Two segments cannot be merged: a run from one start to a later one is longer than the cap. */
  lemma {:induction false} SegmentsApart(table: seq<Row>, chunk: u16, start: nat, s: nat, t: nat)
    requires start <= |table|
    requires s < t < |Segments(table, chunk, start)|
    ensures var a := Segments(table, chunk, start)[s].start;
            var b := Segments(table, chunk, start)[t].start;
            start <= a < b < |table|
            && ((forall i :: a < i <= b ==> Contiguous(table, i)) ==> b - a >= Cap(chunk))
    decreases |table| - start
  {
    NoSegments(table, chunk);
    hide Segments, Grown, Contiguous, IsRun;
    FirstSegment(table, chunk, start);
    var len := Grown(table, chunk, start, 1);
    var whole, rest := Segments(table, chunk, start), Segments(table, chunk, start + len);
    assert whole[t] == rest[t - 1];
    if s > 0 {
      assert whole[s] == rest[s - 1];
      SegmentsApart(table, chunk, start + len, s - 1, t - 1);
    } else {
      assert whole[s] == Segment(start, len);
      SegmentStartsLater(table, chunk, start + len, t - 1);
    }
  }

  lemma NoSegments(table: seq<Row>, chunk: u16)
    ensures Segments(table, chunk, |table|) == []
  {
  }

  lemma {:induction false} SegmentStartsLater(table: seq<Row>, chunk: u16, start: nat, t: nat)
    requires start <= |table| && t < |Segments(table, chunk, start)|
    ensures start <= Segments(table, chunk, start)[t].start < |table|
    decreases |table| - start
  {
    if t > 0 {
      SegmentStartsLater(table, chunk, start + Grown(table, chunk, start, 1), t - 1);
    }
  }

  /** A request reaching two rows and touching only mapped addresses spans a run of the table. */
  lemma {:induction false} OneRequestIsARun(table: seq<Row>, r: ReadRequest, a: nat, b: nat)
    requires Ascending(table) && a <= b < |table|
    requires Reaches(r, table[a]) && Reaches(r, table[b])
    requires forall x :: r.addr <= x < r.addr + r.len ==> Mapped(table, x)
    ensures forall i :: a < i <= b ==> Contiguous(table, i)
    ensures table[b].device - table[a].device == b - a
    decreases b - a
  {
    if a < b {
      var next := table[a].device + 1;
      assert Mapped(table, next);
      var j :| 0 <= j < |table| && table[j].device == next;
      assert a < j && table[a].device < table[a + 1].device;
      assert j == a + 1;
      OneRequestIsARun(table, r, a + 1, b);
    }
  }

  lemma {:induction false} DistinctBelow(f: seq<nat>, m: nat)
    requires forall i :: 0 <= i < |f| ==> f[i] < m
    requires forall i, j :: 0 <= i < j < |f| ==> f[i] != f[j]
    ensures |f| <= m
    decreases |f|
  {
    if f != [] {
      var top := |f| - 1;
      var last := f[top];
      var g := seq(top, i requires 0 <= i < top => if f[i] == m - 1 then last else f[i]);
      DistinctBelow(g, m - 1);
    }
  }

  /** No set of requests that reads the whole table within the cap is smaller than the scan's own. */
  lemma SegmentationIsMinimal(table: seq<Row>, chunk: u16, requests: seq<ReadRequest>)
    requires Ascending(table) && Covers(table, Cap(chunk), requests)
    ensures |Segments(table, chunk, 0)| <= |requests|
  {
    var segments := Segments(table, chunk, 0);
    var n := |segments|;
    forall s | 0 <= s < n
      ensures segments[s].start < |table|
    {
      SegmentStartsLater(table, chunk, 0, s);
    }
    var chosen := seq(n, s requires 0 <= s < n => Chosen(requests, table[segments[s].start]));
    forall s, t | 0 <= s < t < n ensures chosen[s] != chosen[t] {
      SegmentsApart(table, chunk, 0, s, t);
      if chosen[s] == chosen[t] {
        OneRequestIsARun(table, requests[chosen[s]], segments[s].start, segments[t].start);
      }
    }
    DistinctBelow(chosen, |requests|);
  }

  ghost function Chosen(requests: seq<ReadRequest>, row: Row): (r: nat)
    requires Reached(requests, row)
    ensures r < |requests| && Reaches(requests[r], row)
  {
    var r :| 0 <= r < |requests| && Reaches(requests[r], row);
    r
  }
}
