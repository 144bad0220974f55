/**
 * The receiving half of the Modbus TCP client: exact-length reads and MBAP framing
 * over a socket whose behaviour is an arbitrary script of chunks and failures.
 */
module Transport {
  import opened Bytes
  import opened Codec

  type Chunk = s: seq<byte> | s != [] witness [0]

  /**
   * What successive recv calls come to: bytes, or a return of 0 or less with errno then holding a timeout
   * code or not. A script that runs out goes on failing for another reason.
   */
  datatype Event = Data(bytes: Chunk) | Fail(timeout: bool)

  datatype Received = Received(rc: int, bytes: seq<byte>, rest: seq<Event>)

  /** One recv of at most `cap` bytes. */
  function RecvOnce(script: seq<Event>, cap: nat): (r: Received)
    requires cap > 0
    ensures r.rc == 0 ==> 1 <= |r.bytes| <= cap
    ensures r.rc != 0 ==> r.bytes == []
  {
    if script == [] then Received(-1, [], [])
    else match script[0]
      case Fail(timeout) => Received(if timeout then -2 else -1, [], script[1..])
      case Data(d) =>
        if |d| > cap then Received(0, d[..cap], [Data(d[cap..])] + script[1..])
        else Received(0, d, script[1..])
  }

  /** 0 with exactly `len` bytes, or -1 (transport) / -2 (timeout) with what had arrived before. */
  function RecvExact(script: seq<Event>, len: nat): (r: Received)
    ensures r.rc in {0, -1, -2}
    ensures r.rc == 0 ==> |r.bytes| == len
    ensures r.rc != 0 ==> |r.bytes| < len
    decreases len
  {
    if len == 0 then Received(0, [], script)
    else
      var once := RecvOnce(script, len);
      if once.rc != 0 then once
      else
        var more := RecvExact(once.rest, len - |once.bytes|);
        Received(more.rc, once.bytes + more.bytes, more.rest)
  }

  lemma WholeAdu(head: seq<byte>, body: seq<byte>)
    requires |head| == MBAP_LEN && 0 < Word(head[4], head[5]) <= MAX_ADU_LEN - MBAP_LEN
    ensures |body| == Word(head[4], head[5]) ==> IsAdu(head + body)
  {
    hide Word;
  }

  /** One whole ADU: header first, then as many bytes as the header announces. */
  function RecvResponse(script: seq<Event>): (r: Received)
    ensures r.rc in {0, -1, -2}
    ensures r.rc == 0 ==> IsAdu(r.bytes)
    ensures |r.bytes| <= MAX_ADU_LEN
  {
    var head := RecvExact(script, MBAP_LEN);
    if head.rc != 0 then head
    else
      var remaining := Word(head.bytes[4], head.bytes[5]);
      if remaining == 0 || remaining > MAX_ADU_LEN - MBAP_LEN then Received(-1, head.bytes, head.rest)
      else
        var body := RecvExact(head.rest, remaining);
        WholeAdu(head.bytes, body.bytes);
        Received(body.rc, head.bytes + body.bytes, body.rest)
  }

  /** A frame whose MBAP length field is its true length, between 1 and 254. */
  predicate IsAdu(adu: seq<byte>) {
    MBAP_LEN < |adu| <= MAX_ADU_LEN && MBAP_LEN + Word(adu[4], adu[5]) == |adu|
  }

  /** After `bytes`, what is left of the exact read `whole` is to read `len` more from `script`. */
  ghost predicate Continues(whole: Received, bytes: seq<byte>, script: seq<Event>, len: nat) {
    var r := RecvExact(script, len);
    whole == Received(r.rc, bytes + r.bytes, r.rest)
  }

  lemma ContinuesStart(script: seq<Event>, len: nat)
    ensures Continues(RecvExact(script, len), [], script, len)
  {
    var r := RecvExact(script, len);
    assert [] + r.bytes == r.bytes;
  }

  lemma ContinuesEnd(whole: Received, bytes: seq<byte>, script: seq<Event>)
    requires Continues(whole, bytes, script, 0)
    ensures whole == Received(0, bytes, script)
  {
    assert bytes + [] == bytes;
  }

  lemma ContinuesStep(whole: Received, bytes: seq<byte>, script: seq<Event>, len: nat)
    requires len > 0 && Continues(whole, bytes, script, len)
    ensures var once := RecvOnce(script, len);
            if once.rc != 0 then whole == Received(once.rc, bytes + once.bytes, once.rest)
            else Continues(whole, bytes + once.bytes, once.rest, len - |once.bytes|)
  {
    var once := RecvOnce(script, len);
    if once.rc == 0 {
      var more := RecvExact(once.rest, len - |once.bytes|);
      assert bytes + (once.bytes + more.bytes) == (bytes + once.bytes) + more.bytes;
    }
  }

  predicate WholeFrames(adus: seq<seq<byte>>) {
    forall i :: 0 <= i < |adus| ==> IsAdu(adus[i])
  }

  class Socket {
    var script: seq<Event>

    method Recv(buf: array<byte>, at: nat, cap: nat) returns (rc: int, n: nat)
      requires cap > 0 && at + cap <= buf.Length
      modifies this, buf
      ensures var r := RecvOnce(old(script), cap);
              rc == r.rc && n == |r.bytes| && script == r.rest
              && buf[..] == Overwrite(old(buf[..]), at, r.bytes)
    {
      var r := RecvOnce(script, cap);
      rc, n, script := r.rc, |r.bytes|, r.rest;
      forall i | 0 <= i < |r.bytes| {
        buf[at + i] := r.bytes[i];
      }
    }

    /** The loop body below: `got` has been stored so far. */
    method RecvMore(buf: array<byte>, at: nat, received: nat, len: nat, ghost was: seq<byte>, ghost got: seq<byte>)
      returns (rc: int, n: nat, ghost got': seq<byte>)
      requires received == |got| < len && at + len <= buf.Length == |was|
      requires buf[..] == Overwrite(was, at, got)
      modifies this, buf
      ensures var once := RecvOnce(old(script), len - received);
              rc == once.rc && n == |once.bytes| && script == once.rest && got' == got + once.bytes
      ensures received + n <= len && buf[..] == Overwrite(was, at, got')
    {
      hide Overwrite, RecvOnce;
      rc, n := Recv(buf, at + received, len - received);
      ghost var once := RecvOnce(old(script), len - received);
      got' := got + once.bytes;
      OverwriteInTwo(was, at, got, once.bytes);
    }

    method RecvExactly(buf: array<byte>, at: nat, len: nat) returns (rc: int)
      requires at + len <= buf.Length
      modifies this, buf
      ensures var r := RecvExact(old(script), len);
              rc == r.rc && script == r.rest
              && buf[..] == Overwrite(old(buf[..]), at, r.bytes)
    {
      hide Overwrite, RecvOnce, RecvExact, Continues;
      var received := 0;
      ghost var whole := RecvExact(script, len);
      ghost var got: seq<byte> := [];
      ghost var was := buf[..];
      ContinuesStart(script, len);
      OverwriteNothing(was, at);
      while received < len
        invariant 0 <= received == |got| <= len
        invariant buf[..] == Overwrite(was, at, got)
        invariant Continues(whole, got, script, len - received)
      {
        ContinuesStep(whole, got, script, len - received);
        var rc', n;
        rc', n, got := RecvMore(buf, at, received, len, was, got);
        if rc' != 0 {
          return rc';
        }
        received := received + n;
      }
      ContinuesEnd(whole, got, script);
      return 0;
    }

    method RecvAdu(buf: array<byte>) returns (rc: int, total: nat)
      requires buf.Length == MAX_ADU_LEN
      modifies this, buf
      ensures var r := RecvResponse(old(script));
              rc == r.rc && script == r.rest && (rc == 0 ==> total == |r.bytes|)
              && buf[..] == Overwrite(old(buf[..]), 0, r.bytes)
    {
      total := 0;
      rc := RecvExactly(buf, 0, MBAP_LEN);
      if rc != 0 {
        return;
      }
      ghost var head := RecvExact(old(script), MBAP_LEN);
      assert buf[..][4] == head.bytes[4] && buf[..][5] == head.bytes[5];
      hide Overwrite, RecvExact;
      var remaining := Word(buf[4], buf[5]);
      if remaining == 0 || remaining > MAX_ADU_LEN - MBAP_LEN {
        return -1, 0;
      }
      OverwriteInTwo(old(buf[..]), 0, head.bytes, RecvExact(head.rest, remaining).bytes);
      rc := RecvExactly(buf, MBAP_LEN, remaining);
      if rc == 0 {
        total := MBAP_LEN + remaining;
      }
    }
  }

  // ---------- The byte stream behind a script

  /** The bytes that arrive before the first failure. */
  function Burst(script: seq<Event>): seq<byte> {
    if script == [] || script[0].Fail? then [] else script[0].bytes + Burst(script[1..])
  }

  /** The script from its first failure on. */
  function AfterBurst(script: seq<Event>): (rest: seq<Event>)
    ensures rest == [] || rest[0].Fail?
    ensures |rest| <= |script|
  {
    if script == [] || script[0].Fail? then script else AfterBurst(script[1..])
  }

  /** The script past its first failure. */
  function PastFailure(script: seq<Event>): seq<Event> {
    var rest := AfterBurst(script);
    if rest == [] then [] else rest[1..]
  }

  /** A chunk in front of the stream, as large as what is asked for or larger. */
  lemma ExactReadWithinChunk(d: Chunk, later: seq<Event>, len: nat)
    requires 0 < len < |d|
    ensures var script := [Data(d)] + later;
            var r := RecvExact(script, len);
            r == Received(0, d[..len], [Data(d[len..])] + later)
            && Burst(script)[..len] == d[..len] && Burst(r.rest) == Burst(script)[len..]
            && AfterBurst(r.rest) == AfterBurst(script)
  {
    var script := [Data(d)] + later;
    assert script[1..] == later;
    var rest: seq<Event> := [Data(d[len..])] + later;
    assert rest[1..] == later;
    assert RecvOnce(script, len) == Received(0, d[..len], rest);
    assert d[..len] + [] == d[..len];
  }

  /**
   * An exact read succeeds iff enough bytes come before the next failure, and then takes just those, however they
   * are chunked; otherwise it takes all of them and the failure.
   */
  lemma {:induction false} ExactReadTakesPrefix(script: seq<Event>, len: nat)
    ensures var r := RecvExact(script, len);
            (r.rc == 0 <==> len <= |Burst(script)|)
            && (r.rc == 0 ==> r.bytes == Burst(script)[..len]
                              && Burst(r.rest) == Burst(script)[len..]
                              && AfterBurst(r.rest) == AfterBurst(script))
            && (r.rc != 0 ==> r.bytes == Burst(script) && r.rest == PastFailure(script))
    decreases len
  {
    if len > 0 && script != [] && script[0].Data? {
      var d, later := script[0].bytes, script[1..];
      assert script == [Data(d)] + later;
      if |d| > len {
        ExactReadWithinChunk(d, later, len);
        hide RecvExact, AfterBurst;
      } else {
        ExactReadTakesPrefix(later, len - |d|);
        var more := RecvExact(later, len - |d|);
        assert RecvExact(script, len) == Received(more.rc, d + more.bytes, more.rest);
        assert Burst(script) == d + Burst(later) && AfterBurst(script) == AfterBurst(later);
        hide RecvExact, Burst, AfterBurst;
        if len <= |Burst(script)| {
          SlicesOfSum(d, Burst(later), len);
        }
      }
    }
  }

  lemma SlicesOfSum(a: seq<byte>, b: seq<byte>, n: nat)
    requires |a| <= n <= |a + b|
    ensures (a + b)[..n] == a + b[..n - |a|] && (a + b)[n..] == b[n - |a|..]
  {
  }

  /** What follows the frame once its header has been read. */
  lemma HeaderTaken(stream: seq<byte>, adu: seq<byte>, tail: seq<byte>)
    requires stream == adu + tail && |adu| > MBAP_LEN
    ensures stream[..MBAP_LEN] == adu[..MBAP_LEN] && stream[MBAP_LEN..] == adu[MBAP_LEN..] + tail
    ensures (adu[MBAP_LEN..] + tail)[..|adu| - MBAP_LEN] == adu[MBAP_LEN..]
    ensures (adu[MBAP_LEN..] + tail)[|adu| - MBAP_LEN..] == tail
    ensures adu[..MBAP_LEN] + adu[MBAP_LEN..] == adu
  {
  }

  /** Framing: a whole ADU at the front of the stream is what one receive returns, and it consumes just that ADU. */
  lemma ReceiveTakesAdu(script: seq<Event>, adu: seq<byte>, tail: seq<byte>)
    requires Burst(script) == adu + tail && IsAdu(adu)
    ensures var r := RecvResponse(script);
            r.rc == 0 && r.bytes == adu && Burst(r.rest) == tail && AfterBurst(r.rest) == AfterBurst(script)
  {
    hide Burst, AfterBurst, RecvExact, Word;
    HeaderTaken(Burst(script), adu, tail);
    ExactReadTakesPrefix(script, MBAP_LEN);
    var head := RecvExact(script, MBAP_LEN);
    assert head.bytes[4] == adu[4] && head.bytes[5] == adu[5];
    ExactReadTakesPrefix(head.rest, |adu| - MBAP_LEN);
  }

  /** Too short for the frame it begins. */
  predicate Torn(part: seq<byte>) {
    |part| < MBAP_LEN
    || (var n := Word(part[4], part[5]);
        0 < n <= MAX_ADU_LEN - MBAP_LEN && |part| < MBAP_LEN + n)
  }

  /** When a failure comes before the end of a frame, the receive fails, with the frame's first bytes lost. */
  lemma ReceiveFails(script: seq<Event>)
    requires Torn(Burst(script))
    ensures var r := RecvResponse(script); r.rc != 0 && r.bytes == Burst(script) && r.rest == PastFailure(script)
  {
    hide Burst, AfterBurst, RecvExact, Word, PastFailure;
    var part := Burst(script);
    ExactReadTakesPrefix(script, MBAP_LEN);
    if |part| >= MBAP_LEN {
      var head := RecvExact(script, MBAP_LEN);
      assert head.bytes[4] == part[4] && head.bytes[5] == part[5];
      ExactReadTakesPrefix(head.rest, Word(part[4], part[5]));
      SamePastFailure(head.rest, script);
      assert part[..MBAP_LEN] + part[MBAP_LEN..] == part;
    }
  }

  lemma SamePastFailure(a: seq<Event>, b: seq<Event>)
    requires AfterBurst(a) == AfterBurst(b)
    ensures PastFailure(a) == PastFailure(b)
  {
  }

  lemma PrefixIsTorn(adu: seq<byte>, part: seq<byte>)
    requires IsAdu(adu) && part < adu
    ensures Torn(part)
  {
    hide Word;
    if |part| >= MBAP_LEN {
      assert part[4] == adu[4] && part[5] == adu[5];
    }
  }

  /**
   * A failed receive keeps the stream in step exactly when no byte of the frame had arrived: only then does the
   * next receive, when the rest of the frame comes, take the frame and leave what follows it.
   */
  lemma FailedReceiveKeepsFramingIff(script: seq<Event>, adu: seq<byte>, part: seq<byte>, tail: seq<byte>)
    requires IsAdu(adu) && part < adu && Burst(script) == part
    requires Burst(PastFailure(script)) == adu[|part|..] + tail
    ensures RecvResponse(script).rc != 0
    ensures var second := RecvResponse(RecvResponse(script).rest);
            second.rc == 0 && second.bytes == adu && Burst(second.rest) == tail <==> part == []
  {
    hide Burst, AfterBurst, PastFailure, IsAdu, Torn;
    PrefixIsTorn(adu, part);
    ReceiveFails(script);
    var later := PastFailure(script);
    if part == [] {
      assert adu[0..] == adu;
      ReceiveTakesAdu(later, adu, tail);
    } else {
      ReceiveConsumes(later);
    }
  }

  /** A receive that succeeds takes its bytes off the stream. */
  lemma ReceiveConsumes(script: seq<Event>)
    ensures var r := RecvResponse(script); r.rc == 0 ==> Burst(script) == r.bytes + Burst(r.rest)
  {
    hide Burst, AfterBurst, RecvExact, Word;
    ExactReadTakesPrefix(script, MBAP_LEN);
    var head := RecvExact(script, MBAP_LEN);
    if head.rc == 0 {
      var n := Word(head.bytes[4], head.bytes[5]);
      ExactReadTakesPrefix(head.rest, n);
      var stream := Burst(script);
      if MBAP_LEN + n <= |stream| {
        assert stream == stream[..MBAP_LEN] + (stream[MBAP_LEN..][..n] + stream[MBAP_LEN..][n..]);
        Regroup(stream[..MBAP_LEN], stream[MBAP_LEN..][..n], stream[MBAP_LEN..][n..]);
      }
    }
  }

  // ---------- The result of a receive

  /** Chunks and then a failure: the bytes of the chunks, and the failure. */
  lemma {:induction false} StreamOf(chunks: seq<Chunk>, rest: seq<Event>)
    requires rest == [] || rest[0].Fail?
    ensures var script := seq(|chunks|, i requires 0 <= i < |chunks| => Data(chunks[i])) + rest;
            Burst(script) == Concat(chunks) && AfterBurst(script) == rest
    decreases |chunks|
  {
    var script := seq(|chunks|, i requires 0 <= i < |chunks| => Data(chunks[i])) + rest;
    if chunks == [] {
      assert script == rest;
    } else {
      StreamOf(chunks[1..], rest);
      assert script[1..] == seq(|chunks| - 1, i requires 0 <= i < |chunks| - 1 => Data(chunks[1..][i])) + rest;
    }
  }

  /** The next failure is a timeout. */
  predicate TimesOut(script: seq<Event>) {
    var rest := AfterBurst(script);
    rest != [] && rest[0] == Fail(true)
  }

  lemma {:induction false} ExactReadResult(script: seq<Event>, len: nat)
    ensures RecvExact(script, len).rc
            == if len <= |Burst(script)| then 0 else if TimesOut(script) then -2 else -1
    decreases len
  {
    ExactReadTakesPrefix(script, len);
    if len > 0 && script != [] && script[0].Data? {
      var once := RecvOnce(script, len);
      ExactReadResult(once.rest, len - |once.bytes|);
      if |script[0].bytes| <= len {
        assert once.rest == script[1..] && AfterBurst(script) == AfterBurst(script[1..]);
      }
    }
  }

  /**
   * What a receive returns, from the bytes before the next failure, however they are chunked, and from what that
   * failure is: a frame; a timeout, or another failure, before the frame's end; or a length that no frame can have.
   */
  lemma ReceiveResult(script: seq<Event>)
    ensures var r, stream := RecvResponse(script), Burst(script);
            var failure := if TimesOut(script) then -2 else -1;
            if |stream| < 6 then r.rc == failure
            else
              var n := stream[4] as int * 256 + stream[5];
              if n == 0 || n > 254 then r.rc == -1 && Burst(r.rest) == stream[6..]
              else if |stream| < 6 + n then r.rc == failure
              else r.rc == 0 && r.bytes == stream[..6 + n] && Burst(r.rest) == stream[6 + n..]
  {
    hide Burst, AfterBurst, RecvExact, TimesOut, PastFailure, Word, IsAdu;
    var stream := Burst(script);
    ExactReadTakesPrefix(script, MBAP_LEN);
    ExactReadResult(script, MBAP_LEN);
    if |stream| >= MBAP_LEN {
      var head := RecvExact(script, MBAP_LEN);
      assert head.bytes[4] == stream[4] && head.bytes[5] == stream[5];
      var n := Word(stream[4], stream[5]);
      WordMeans(stream[4], stream[5]);
      ExactReadTakesPrefix(head.rest, n);
      ExactReadResult(head.rest, n);
      SameTimesOut(head.rest, script);
      if MBAP_LEN + n <= |stream| {
        SlicesTwice(stream, n);
      }
    }
  }

  lemma WordMeans(hi: byte, lo: byte)
    ensures Word(hi, lo) == hi as int * 256 + lo
  {
  }

  lemma SameTimesOut(a: seq<Event>, b: seq<Event>)
    requires AfterBurst(a) == AfterBurst(b)
    ensures TimesOut(a) == TimesOut(b)
  {
  }

  lemma SlicesTwice(stream: seq<byte>, n: nat)
    requires 6 + n <= |stream|
    ensures stream[..6] + stream[6..][..n] == stream[..6 + n] && stream[6..][n..] == stream[6 + n..]
  {
  }

  /** The frames of `n` receives in a row, stopping at the first failure. */
  function ReceiveMany(script: seq<Event>, n: nat): (r: (seq<seq<byte>>, seq<Event>))
    decreases n
  {
    if n == 0 then ([], script)
    else
      var first := RecvResponse(script);
      if first.rc != 0 then ([], first.rest)
      else
        var more := ReceiveMany(first.rest, n - 1);
        ([first.bytes] + more.0, more.1)
  }

  /** Reply framing stays synchronised, for any chunking of the stream. */
  lemma {:induction false} FramingStaysSynchronised(script: seq<Event>, adus: seq<seq<byte>>, tail: seq<byte>, n: nat)
    requires Burst(script) == Concat(adus) + tail && n <= |adus|
    requires WholeFrames(adus)
    ensures var r := ReceiveMany(script, n);
            r.0 == adus[..n] && Burst(r.1) == Concat(adus[n..]) + tail && AfterBurst(r.1) == AfterBurst(script)
    decreases n
  {
    hide RecvResponse, IsAdu, Burst, AfterBurst;
    if n > 0 {
      var first, others := adus[0], adus[1..];
      var stream := Concat(others) + tail;
      assert Concat(adus) + tail == first + stream;
      ReceiveTakesAdu(script, first, stream);
      var rest := RecvResponse(script).rest;
      FramingStaysSynchronised(rest, others, tail, n - 1);
      assert adus[..n] == [first] + others[..n - 1];
      assert adus[n..] == others[n - 1..];
      var r := ReceiveMany(script, n);
      assert r == ([first] + ReceiveMany(rest, n - 1).0, ReceiveMany(rest, n - 1).1);
    } else {
      assert adus[0..] == adus;
    }
  }

  // ---------- Where timeouts come from

  /** What one recv call does: bytes, an error that sets errno (to a timeout code or not), or end of file. */
  datatype Outcome = Delivered(bytes: Chunk) | Failed(timeout: bool) | EndOfFile

  /** The events the client takes successive outcomes for: it asks errno whenever recv returns 0 or less. */
  function Events(timeout: bool, outcomes: seq<Outcome>): (events: seq<Event>)
    ensures |events| == |outcomes|
    decreases |outcomes|
  {
    if outcomes == [] then []
    else
      match outcomes[0]
      case Delivered(d) => [Data(d)] + Events(timeout, outcomes[1..])
      case Failed(t) => [Fail(t)] + Events(t, outcomes[1..])
      case EndOfFile => [Fail(timeout)] + Events(timeout, outcomes[1..])
  }

  /** Whether errno holds a timeout code: set by the last failed call, or what it held before. */
  function LastErrno(timeout: bool, outcomes: seq<Outcome>): bool {
    if outcomes == [] then timeout
    else
      var last := outcomes[|outcomes| - 1];
      if last.Failed? then last.timeout else LastErrno(timeout, outcomes[..|outcomes| - 1])
  }

  lemma {:induction false} LastErrnoFrom(timeout: bool, outcomes: seq<Outcome>)
    requires outcomes != []
    ensures LastErrno(timeout, outcomes)
            == LastErrno(if outcomes[0].Failed? then outcomes[0].timeout else timeout, outcomes[1..])
    decreases |outcomes|
  {
    var n := |outcomes| - 1;
    if n > 0 && !outcomes[n].Failed? {
      LastErrnoFrom(timeout, outcomes[..n]);
      assert outcomes[..n][1..] == outcomes[1..][..n - 1];
    }
  }

  /** A peer that closes is taken for one that is slow exactly when the last call that failed had timed out. */
  lemma {:induction false} CloseTakenForTimeoutIff(timeout: bool, outcomes: seq<Outcome>, k: nat)
    requires k < |outcomes| && outcomes[k].EndOfFile?
    ensures Events(timeout, outcomes)[k] == Fail(LastErrno(timeout, outcomes[..k]))
    decreases k
  {
    if k > 0 {
      var next := if outcomes[0].Failed? then outcomes[0].timeout else timeout;
      CloseTakenForTimeoutIff(next, outcomes[1..], k - 1);
      LastErrnoFrom(timeout, outcomes[..k]);
      assert outcomes[..k][1..] == outcomes[1..][..k - 1];
    }
  }
}
