/**
 * The Modbus TCP client: one request and one reply per transaction, with the
 * validation that decides which replies are believed.
 */
module Client {
  import opened Bytes
  import opened Codec
  import opened Transport

  const OK: int := 0
  const ERR_ARG: int := -1
  const ERR_NOT_CONNECTED: int := -2
  const ERR_TRANSPORT: int := -3
  const ERR_TIMEOUT: int := -4
  const ERR_FRAME: int := -5
  const ERR_TID: int := -6

  type AduBuffer = s: seq<byte> | |s| == MAX_ADU_LEN witness seq(MAX_ADU_LEN, _ => 0)
  type ReadBuffer = s: seq<u16> | |s| == MAX_READ_REGISTERS witness seq(MAX_READ_REGISTERS, _ => 0)

  /** The three public transactions. */
  datatype Ask =
    | Read(addr: u16, qty: u16)
    | WriteOne(addr: u16, value: u16)
    | WriteMany(addr: u16, data: seq<u16>)
  {
    predicate ValidArgs() {
      match this
      case Read(_, qty) => 1 <= qty <= MAX_READ_REGISTERS
      case WriteOne(_, _) => true
      case WriteMany(_, data) => 1 <= |data| <= MAX_WRITE_REGISTERS
    }

    function Fc(): byte {
      match this
      case Read(_, _) => FC_READ_HOLDING_REGISTERS
      case WriteOne(_, _) => FC_WRITE_SINGLE_REGISTER
      case WriteMany(_, _) => FC_WRITE_MULTIPLE_REGISTERS
    }

    function Adu(tid: u16, unit: byte): seq<byte>
      requires ValidArgs()
    {
      match this
      case Read(addr, qty) => StandardRequest(tid, unit, FC_READ_HOLDING_REGISTERS, addr, qty)
      case WriteOne(addr, value) => StandardRequest(tid, unit, FC_WRITE_SINGLE_REGISTER, addr, value)
      case WriteMany(addr, data) => MultipleRequest(tid, unit, addr, data)
    }
  }

  /**
   * A connection and its future: whether the descriptor passes for open, the last transaction id,
   * which sends will go through, what recv will deliver, and every frame ever sent.
   * `stacks` is what the reply buffer of each coming transaction holds before a reply
   * overwrites it; zeros once it runs out.
   */
  datatype Link = Link(open: bool, unit: byte, tid: u16, sends: seq<bool>, script: seq<Event>,
                       sent: seq<seq<byte>>, stacks: seq<AduBuffer>)

  datatype Performed = Performed(rc: int, out: ReadBuffer, link: Link)

  // ---------- Transaction ids

  function NextTid(tid: u16): u16 {
    if tid < 0xFFFF then tid + 1 else 1
  }

  /** The id of the k-th transaction of a connection; 0 before the first. */
  function TidAt(k: nat): u16 {
    if k == 0 then 0 else (k - 1) % 0xFFFF + 1
  }

  lemma NextTidCounts(k: nat)
    ensures NextTid(TidAt(k)) == TidAt(k + 1)
  {
    if k > 0 && (k - 1) % 0xFFFF == 0xFFFE {
      assert k - 1 == 0xFFFF * ((k - 1) / 0xFFFF) + 0xFFFE;
      assert k == 0xFFFF * ((k - 1) / 0xFFFF + 1);
    }
  }

  /** Ids repeat with period 65535 and not sooner. */
  lemma TidsAgree(j: nat, k: nat)
    requires 1 <= j <= k
    ensures TidAt(j) == TidAt(k) <==> (k - j) % 0xFFFF == 0
  {
    var q := (k - 1) / 0xFFFF - (j - 1) / 0xFFFF;
    var r := (k - 1) % 0xFFFF - (j - 1) % 0xFFFF;
    assert k - j == 0xFFFF * q + r;
    RemainderOf(q, r);
  }

  lemma RemainderOf(q: int, r: int)
    requires -0xFFFF < r < 0xFFFF
    ensures (0xFFFF * q + r) % 0xFFFF == 0 <==> r == 0
  {
  }

  // ---------- Validation

  predicate IsException(fc: byte) {
    fc >= EXCEPTION_FLAG
  }

  /** FC03 validation over the whole reply buffer, of which `total` bytes were received. */
  function CheckRead(resp: AduBuffer, total: nat, tid: u16, qty: u16, out: ReadBuffer): (r: (int, ReadBuffer))
    requires 1 <= qty <= MAX_READ_REGISTERS
  {
    if Word(resp[0], resp[1]) != tid then (ERR_TID, out)
    else if IsException(resp[7]) then (resp[8], out)
    else if resp[7] != FC_READ_HOLDING_REGISTERS then (ERR_FRAME, out)
    else if total < 9 then (ERR_FRAME, out)
    else if resp[8] != qty * 2 then (ERR_FRAME, out)
    else (OK, Overwrite(out, 0, DecodeRegisters(resp[9..], qty)))
  }

  /** FC06 and FC16 validation. */
  function CheckWrite(resp: AduBuffer, total: nat, tid: u16, fc: byte): int {
    if total < 9 then ERR_FRAME
    else if Word(resp[0], resp[1]) != tid then ERR_TID
    else if IsException(resp[7]) then resp[8]
    else if total < 12 || resp[7] != fc then ERR_FRAME
    else OK
  }

  function Check(ask: Ask, resp: AduBuffer, total: nat, tid: u16, out: ReadBuffer): (r: (int, ReadBuffer))
    requires ask.ValidArgs()
  {
    if ask.Read? then CheckRead(resp, total, tid, ask.qty, out)
    else (CheckWrite(resp, total, tid, ask.Fc()), out)
  }

  // ---------- What a verdict says about the frame received

  /** The reply carries the id that was sent. */
  predicate OwnId(reply: seq<byte>, tid: u16)
    requires |reply| >= 2
  {
    Word(reply[0], reply[1]) == tid
  }

  /** An exception reply with that code. */
  predicate Refusal(reply: seq<byte>, code: int) {
    |reply| >= 9 && IsException(reply[7]) && reply[8] == code
  }

  /** Long enough for the normal reply to a write, with the function code of the request. */
  predicate Confirmation(reply: seq<byte>, fc: byte) {
    |reply| >= 12 && !IsException(reply[7]) && reply[7] == fc
  }

  /**
   * The verdict on a write, for every frame that can be received. It does not depend on what the buffer held
   * before; a confirmation and a refusal with code 0 are told apart by nothing.
   */
  lemma WriteVerdictMeans(reply: seq<byte>, stack: AduBuffer, tid: u16, fc: byte)
    requires IsAdu(reply) && !IsException(fc)
    ensures var rc := CheckWrite(Overwrite(stack, 0, reply), |reply|, tid, fc);
            && (rc == OK <==> OwnId(reply, tid) && (Confirmation(reply, fc) || Refusal(reply, 0)))
            && (forall code :: code > 0 ==> (rc == code <==> OwnId(reply, tid) && Refusal(reply, code)))
            && (rc == ERR_TID <==> |reply| >= 9 && !OwnId(reply, tid))
            && (rc == ERR_FRAME
                <==> |reply| < 9 || (OwnId(reply, tid) && !IsException(reply[7]) && !Confirmation(reply, fc)))
  {
    hide Word;
  }

  /** The unit, the address and the value a write reply echoes are not compared with the request. */
  lemma EchoNotCompared(reply: seq<byte>, other: seq<byte>, stack: AduBuffer, tid: u16, fc: byte)
    requires IsAdu(reply) && IsAdu(other) && |reply| >= 12 && |other| >= 12
    requires reply[..2] == other[..2] && reply[7] == other[7] && !IsException(reply[7])
    ensures CheckWrite(Overwrite(stack, 0, reply), |reply|, tid, fc)
            == CheckWrite(Overwrite(stack, 0, other), |other|, tid, fc)
  {
    hide Word;
    assert reply[0] == reply[..2][0] == other[0] && reply[1] == reply[..2][1] == other[1];
  }

  /** A normal read reply of `qty` registers to this request, as far as the client checks. */
  predicate Accepted(reply: seq<byte>, tid: u16, qty: u16)
    requires |reply| >= 9
  {
    OwnId(reply, tid) && reply[7] == FC_READ_HOLDING_REGISTERS && reply[8] == 2 * qty
  }

  /**
   * A read reports success for a normal reply of the right size, and for anything whose function and code bytes
   * say "refused with code 0"; a frame of seven or eight bytes leaves those to what the buffer held before.
   */
  lemma ReadSucceedsIff(reply: seq<byte>, stack: AduBuffer, tid: u16, qty: u16, out: ReadBuffer)
    requires IsAdu(reply) && 1 <= qty <= MAX_READ_REGISTERS
    ensures var resp := Overwrite(stack, 0, reply);
            CheckRead(resp, |reply|, tid, qty, out).0 == OK
            <==> OwnId(reply, tid)
                 && if IsException(resp[7]) then resp[8] == 0 else |reply| >= 9 && Accepted(reply, tid, qty)
  {
    hide Word, DecodeRegisters;
  }

  ghost predicate IndependentOfStack(reply: seq<byte>, tid: u16, qty: u16, out: ReadBuffer)
    requires |reply| <= MAX_ADU_LEN && 1 <= qty <= MAX_READ_REGISTERS
  {
    forall s1: AduBuffer, s2: AduBuffer ::
      CheckRead(Overwrite(s1, 0, reply), |reply|, tid, qty, out)
      == CheckRead(Overwrite(s2, 0, reply), |reply|, tid, qty, out)
  }

  /** The bytes that decide were all received. */
  predicate Sufficient(reply: seq<byte>, tid: u16, qty: u16)
    requires |reply| > MBAP_LEN
  {
    || !OwnId(reply, tid)
    || (|reply| == 8 && !IsException(reply[7]))
    || (|reply| >= 9 && (Accepted(reply, tid, qty) ==> |reply| >= 9 + 2 * qty))
  }

  lemma {:induction false} DecodeReadsPrefix(a: seq<byte>, b: seq<byte>, qty: nat)
    requires 2 * qty <= |a| && 2 * qty <= |b| && a[..2 * qty] == b[..2 * qty]
    ensures DecodeRegisters(a, qty) == DecodeRegisters(b, qty)
  {
    forall i | 0 <= i < qty ensures Word(a[2 * i], a[2 * i + 1]) == Word(b[2 * i], b[2 * i + 1]) {
      assert a[2 * i] == a[..2 * qty][2 * i] && a[2 * i + 1] == a[..2 * qty][2 * i + 1];
    }
  }

  lemma SufficientForOne(reply: seq<byte>, s1: AduBuffer, s2: AduBuffer, tid: u16, qty: u16, out: ReadBuffer)
    requires IsAdu(reply) && 1 <= qty <= MAX_READ_REGISTERS && Sufficient(reply, tid, qty)
    ensures CheckRead(Overwrite(s1, 0, reply), |reply|, tid, qty, out)
            == CheckRead(Overwrite(s2, 0, reply), |reply|, tid, qty, out)
  {
    hide DecodeRegisters, Word;
    var r1, r2 := Overwrite(s1, 0, reply), Overwrite(s2, 0, reply);
    if |reply| >= 9 + 2 * qty {
      assert r1[9..][..2 * qty] == reply[9..][..2 * qty] == r2[9..][..2 * qty];
      DecodeReadsPrefix(r1[9..], r2[9..], qty);
    }
  }

  /** A buffer that held nothing but `b`. */
  function Filled(b: byte): AduBuffer { seq(MAX_ADU_LEN, _ => b) }

  lemma ShortReplyTakesStack(reply: seq<byte>, tid: u16, qty: u16, out: ReadBuffer)
    requires 1 <= qty <= MAX_READ_REGISTERS && 9 <= |reply| < 9 + 2 * qty && Accepted(reply, tid, qty)
    ensures !IndependentOfStack(reply, tid, qty, out)
  {
    hide Word;
    var r0: AduBuffer, r1: AduBuffer := Overwrite(Filled(0), 0, reply), Overwrite(Filled(1), 0, reply);
    var last := qty - 1;
    var d0, d1 := DecodeRegisters(r0[9..], qty), DecodeRegisters(r1[9..], qty);
    assert r0[9..][2 * last + 1] == 0 && r1[9..][2 * last + 1] == 1;
    JoinSplit(r0[9..][2 * last], 0);
    JoinSplit(r1[9..][2 * last], 1);
    assert Lo(d0[last]) == 0 && Lo(d1[last]) == 1;
    hide DecodeRegisters;
    assert CheckRead(r0, |reply|, tid, qty, out).1[last] == d0[last];
    assert CheckRead(r1, |reply|, tid, qty, out).1[last] == d1[last];
  }

  /** A frame that stops short of the code byte of a refusal takes that byte from the buffer. */
  lemma CutRefusalTakesStack(reply: seq<byte>, tid: u16, qty: u16, out: ReadBuffer)
    requires MBAP_LEN < |reply| <= 8 && 1 <= qty <= MAX_READ_REGISTERS && OwnId(reply, tid)
    requires |reply| == 8 ==> IsException(reply[7])
    ensures !IndependentOfStack(reply, tid, qty, out)
  {
    hide Word, DecodeRegisters;
    var r0: AduBuffer, r1: AduBuffer := Overwrite(Filled(0x81), 0, reply), Overwrite(Filled(0x82), 0, reply);
    assert CheckRead(r0, |reply|, tid, qty, out).0 == 0x81;
    assert CheckRead(r1, |reply|, tid, qty, out).0 == 0x82;
  }

  /**
   * The client looks at bytes of the buffer without asking whether they were received. For every frame that can
   * be received, the outcome of a read comes from received bytes alone exactly when the frame carries another id,
   * or is long enough for what it says it is: a code for a refusal, its registers for a reply that is accepted.
   */
  lemma DecodedFromReplyIff(reply: seq<byte>, tid: u16, qty: u16, out: ReadBuffer)
    requires IsAdu(reply) && 1 <= qty <= MAX_READ_REGISTERS
    ensures IndependentOfStack(reply, tid, qty, out) <==> Sufficient(reply, tid, qty)
  {
    if Sufficient(reply, tid, qty) {
      hide CheckRead, Sufficient, IsAdu, Overwrite;
      forall s1: AduBuffer, s2: AduBuffer
        ensures CheckRead(Overwrite(s1, 0, reply), |reply|, tid, qty, out)
                == CheckRead(Overwrite(s2, 0, reply), |reply|, tid, qty, out)
      {
        SufficientForOne(reply, s1, s2, tid, qty, out);
      }
    } else if |reply| >= 9 {
      ShortReplyTakesStack(reply, tid, qty, out);
    } else {
      CutRefusalTakesStack(reply, tid, qty, out);
    }
  }

  // ---------- One transaction

  function SendOn(l: Link, adu: seq<byte>): (r: (bool, Link)) {
    var ok := l.sends == [] || l.sends[0];
    (ok, l.(sends := if l.sends == [] then [] else l.sends[1..], sent := if ok then l.sent + [adu] else l.sent))
  }

  function ClientError(recvRc: int): int {
    if recvRc == -2 then ERR_TIMEOUT else ERR_TRANSPORT
  }

  /** The link once a transaction has begun: the next id, and a reply buffer of its own. */
  function Begun(l: Link): Link {
    l.(tid := NextTid(l.tid), stacks := if l.stacks == [] then [] else l.stacks[1..])
  }

  /** What the reply buffer of the next transaction holds. */
  function Garbage(l: Link): AduBuffer {
    if l.stacks == [] then Filled(0) else l.stacks[0]
  }

  datatype Reply = Reply(rc: int, bytes: seq<byte>, link: Link)

  /** Send a frame and receive one. */
  function Exchanged(l: Link, adu: seq<byte>): (r: Reply)
    ensures |r.bytes| <= MAX_ADU_LEN && (r.rc == OK ==> IsAdu(r.bytes))
    ensures r.link.open == l.open && r.link.unit == l.unit && r.link.tid == l.tid
  {
    var sent := SendOn(l, adu);
    if !sent.0 then Reply(ERR_TRANSPORT, [], sent.1)
    else
      var r := RecvResponse(sent.1.script);
      Reply(if r.rc != 0 then ClientError(r.rc) else OK, r.bytes, sent.1.(script := r.rest))
  }

  function Perform(l: Link, ask: Ask, out: ReadBuffer): (p: Performed)
    ensures p.link.open == l.open && p.link.unit == l.unit
  {
    if !ask.ValidArgs() then Performed(ERR_ARG, out, l)
    else if !l.open then Performed(ERR_NOT_CONNECTED, out, l)
    else
      var tid := NextTid(l.tid);
      var reply := Exchanged(Begun(l), ask.Adu(tid, l.unit));
      if reply.rc != OK then Performed(reply.rc, out, reply.link)
      else
        var c := Check(ask, Overwrite(Garbage(l), 0, reply.bytes), |reply.bytes|, tid, out);
        Performed(c.0, c.1, reply.link)
  }

  // ---------- Result codes

  /** What a read makes of its reply buffer, byte by byte. */
  lemma ReadVerdictMeans(b: AduBuffer, total: nat, tid: u16, qty: u16, out: ReadBuffer)
    requires 1 <= qty <= MAX_READ_REGISTERS
    ensures CheckRead(b, total, tid, qty, out).0
            == if b[0] as int * 256 + b[1] != tid then -6
               else if b[7] >= 128 then b[8]
               else if b[7] == 3 && total >= 9 && b[8] == 2 * qty then 0
               else -5
  {
    hide DecodeRegisters, Overwrite;
  }

  /** The registers go to the front of the caller's buffer, high byte first; without them it is left alone. */
  lemma ReadTakesRegisters(b: AduBuffer, total: nat, tid: u16, qty: u16, out: ReadBuffer)
    requires 1 <= qty <= MAX_READ_REGISTERS
    ensures var (rc, out') := CheckRead(b, total, tid, qty, out);
            if rc != 0 || b[7] >= 128 then out' == out
            else
              && (forall i :: 0 <= i < qty ==> out'[i] == b[9 + 2 * i] as int * 256 + b[10 + 2 * i])
              && out'[qty..] == out[qty..]
  {
    var data := DecodeRegisters(b[9..], qty);
    DecodeMeans(b[9..], qty);
    hide DecodeRegisters, Word;
    forall i | 0 <= i < qty ensures data[i] == b[9 + 2 * i] as int * 256 + b[10 + 2 * i] {
      assert b[9..][2 * i] == b[9 + 2 * i] && b[9..][2 * i + 1] == b[10 + 2 * i];
    }
  }

  /** How the receive of a transaction ends, by what arrives. */
  datatype Ending = TimedOut | Broken | Whole(frame: seq<byte>)

  function EndingOf(script: seq<Event>): (e: Ending)
    ensures e.Whole? ==> |e.frame| >= 6
  {
    var stream := Burst(script);
    if |stream| < 6 then if TimesOut(script) then TimedOut else Broken
    else
      var n := stream[4] as int * 256 + stream[5];
      if n == 0 || n > 254 then Broken
      else if |stream| < 6 + n then if TimesOut(script) then TimedOut else Broken
      else Whole(stream[..6 + n])
  }

  /** What begins every transaction that reaches the socket. */
  predicate Goes(l: Link, ask: Ask) {
    ask.ValidArgs() && l.open && (l.sends == [] || l.sends[0])
  }

  lemma ExchangeEnds(l: Link, adu: seq<byte>)
    ensures l.sends != [] && !l.sends[0] ==> Exchanged(l, adu).rc == -3 && Exchanged(l, adu).link.script == l.script
    ensures l.sends == [] || l.sends[0] ==>
              var r, stream := Exchanged(l, adu), Burst(l.script);
              match EndingOf(l.script)
              case TimedOut => r.rc == -4
              case Broken => r.rc == -3
              case Whole(f) => r.rc == 0 && r.bytes == f && Burst(r.link.script) == stream[|f|..]
  {
    ReceiveResult(l.script);
    hide RecvResponse, Word, Burst, AfterBurst, TimesOut;
  }

  /**
   * The result code of every transaction: its arguments, the connection and the send decide in that order; once the
   * request went out it is -4 exactly if the receive ended on a timeout, -3 exactly if it ended on another failure or
   * on a length no frame can have, and otherwise the verdict on the frame received.
   */
  lemma ResultMeans(l: Link, ask: Ask, out: ReadBuffer)
    ensures var rc := Perform(l, ask, out).rc;
            && (rc == -1 <==> match ask
                              case Read(_, qty) => qty < 1 || qty > 125
                              case WriteOne(_, _) => false
                              case WriteMany(_, data) => |data| < 1 || |data| > 123)
            && (rc != -1 ==> (rc == -2 <==> !l.open))
            && (rc !in {-1, -2} && l.sends != [] && !l.sends[0] ==> rc == -3)
            && (rc in {-1, -2, -3, -4} ==> Perform(l, ask, out).out == out)
    ensures Goes(l, ask) ==>
              var rc, end := Perform(l, ask, out).rc, EndingOf(l.script);
              (rc == -4 <==> end == TimedOut) && (rc == -3 <==> end == Broken)
  {
    if ask.ValidArgs() && l.open {
      var tid := NextTid(l.tid);
      ExchangeEnds(Begun(l), ask.Adu(tid, l.unit));
      var f := Exchanged(Begun(l), ask.Adu(tid, l.unit)).bytes;
      VerdictRange(ask, Overwrite(Garbage(l), 0, f), |f|, tid, out);
    }
    hide Exchanged, Overwrite, Ask.Adu, EndingOf, Check, Garbage;
  }

  /** The verdict is on the frame received, against the id sent. */
  lemma FrameDecides(l: Link, ask: Ask, out: ReadBuffer)
    requires Goes(l, ask) && EndingOf(l.script).Whole?
    ensures var f, tid := EndingOf(l.script).frame, if l.tid == 65535 then 1 else l.tid + 1;
            && |f| <= MAX_ADU_LEN
            && (Perform(l, ask, out).rc, Perform(l, ask, out).out)
               == Check(ask, Overwrite(Garbage(l), 0, f), |f|, tid, out)
  {
    ExchangeEnds(Begun(l), ask.Adu(NextTid(l.tid), l.unit));
    hide Exchanged, Overwrite, Ask.Adu, EndingOf, Check, Garbage;
  }

  lemma VerdictRange(ask: Ask, resp: AduBuffer, total: nat, tid: u16, out: ReadBuffer)
    requires ask.ValidArgs()
    ensures var rc := Check(ask, resp, total, tid, out).0; rc >= 0 || rc == -5 || rc == -6
  {
    hide Word, DecodeRegisters, Overwrite;
  }

  /** What every transaction sends, byte by byte, and under which id: nothing unless its arguments are in range. */
  lemma RequestSent(l: Link, ask: Ask, out: ReadBuffer)
    ensures var after, tid := Perform(l, ask, out).link, if l.tid == 65535 then 1 else l.tid + 1;
            && after.open == l.open && after.unit == l.unit
            && (!ask.ValidArgs() || !l.open ==> after == l)
            && (ask.ValidArgs() && l.open ==>
                  && after.tid == tid && after.sends == (if l.sends == [] then [] else l.sends[1..])
                  && (l.sends != [] && !l.sends[0] ==> after.sent == l.sent))
    ensures Goes(l, ask) ==>
              var after, tid := Perform(l, ask, out).link, if l.tid == 65535 then 1 else l.tid + 1;
              && |after.sent| == |l.sent| + 1 && after.sent[..|l.sent|] == l.sent
              && var f := after.sent[|l.sent|];
                 match ask
                 case Read(a, n) =>
                   f == [tid / 256, tid % 256, 0, 0, 0, 6, l.unit, 3, a / 256, a % 256, n / 256, n % 256]
                 case WriteOne(a, v) =>
                   f == [tid / 256, tid % 256, 0, 0, 0, 6, l.unit, 6, a / 256, a % 256, v / 256, v % 256]
                 case WriteMany(a, data) =>
                   && |f| >= 13 && HoldsRegisters(f, 13, data)
                   && f[..13] == [tid / 256, tid % 256, 0, 0, (7 + 2 * |data|) / 256, (7 + 2 * |data|) % 256, l.unit,
                                  16, a / 256, a % 256, |data| / 256, |data| % 256, 2 * |data|]
  {
    if Goes(l, ask) {
      AduBytes(ask, NextTid(l.tid), l.unit);
    }
    hide Overwrite, RecvResponse, Check, HoldsRegisters, Ask.Adu, Garbage;
  }

  lemma AduBytes(ask: Ask, tid: u16, unit: byte)
    requires ask.ValidArgs()
    ensures var f := ask.Adu(tid, unit);
            match ask
            case Read(a, n) =>
              f == [tid / 256, tid % 256, 0, 0, 0, 6, unit, 3, a / 256, a % 256, n / 256, n % 256]
            case WriteOne(a, v) =>
              f == [tid / 256, tid % 256, 0, 0, 0, 6, unit, 6, a / 256, a % 256, v / 256, v % 256]
            case WriteMany(a, data) =>
              && |f| >= 13 && HoldsRegisters(f, 13, data)
              && f[..13] == [tid / 256, tid % 256, 0, 0, (7 + 2 * |data|) / 256, (7 + 2 * |data|) % 256, unit, 16,
                             a / 256, a % 256, |data| / 256, |data| % 256, 2 * |data|]
  {
    hide HoldsRegisters, StandardRequest, MultipleRequest;
    match ask
    case Read(a, n) => StandardRequestBytes(tid, unit, 3, a, n);
    case WriteOne(a, v) => StandardRequestBytes(tid, unit, 6, a, v);
    case WriteMany(a, data) => MultipleRequestBytes(tid, unit, a, data);
  }

  // ---------- The client object

  class ModbusClient {
    var open: bool
    const unit: byte
    var tid: u16
    var sends: seq<bool>
    var sent: seq<seq<byte>>
    const socket: Socket
    var stacks: seq<AduBuffer>

    ghost function State(): Link
      reads this, socket
    {
      Link(open, unit, tid, sends, socket.script, sent, stacks)
    }

    /** A cleared context; its descriptor 0 passes for open until the first connection attempt. */
    constructor (unit: byte, socket: Socket, stacks: seq<AduBuffer>)
      ensures open && tid == 0 && sent == [] && sends == []
      ensures this.unit == unit && this.socket == socket && this.stacks == stacks
    {
      open, tid, sends, sent := true, 0, [], [];
      this.unit, this.socket, this.stacks := unit, socket, stacks;
    }

    /** `reached` says whether the peer accepts; a new connection starts counting ids from zero. */
    method Connect(reached: bool, sends: seq<bool>, script: seq<Event>) returns (rc: int)
      modifies this, socket
      ensures rc == if reached then 0 else -1
      ensures State() == Link(reached, unit, 0, sends, script, old(sent), old(stacks))
    {
      open, tid, this.sends := reached, 0, sends;
      socket.script := script;
      rc := if reached then 0 else -1;
    }

    method Disconnect()
      modifies this
      ensures State() == old(State()).(open := false)
    {
      open := false;
    }

    /** Sends are all or nothing. */
    method Send(req: array<byte>, len: nat) returns (ok: bool)
      requires len <= req.Length
      modifies this
      ensures (ok, State()) == SendOn(old(State()), req[..len])
    {
      ok := sends == [] || sends[0];
      if sends != [] {
        sends := sends[1..];
      }
      if ok {
        sent := sent + [req[..len]];
      }
    }

    /** The next id, and an uninitialised reply buffer. */
    method Begin() returns (resp: array<byte>)
      modifies this
      ensures State() == Begun(old(State()))
      ensures fresh(resp) && resp[..] == Garbage(old(State()))
    {
      var stack: AduBuffer := if stacks == [] then Filled(0) else stacks[0];
      resp := new byte[MAX_ADU_LEN](i requires 0 <= i < MAX_ADU_LEN => stack[i]);
      tid := NextTid(tid);
      if stacks != [] {
        stacks := stacks[1..];
      }
    }

    /** The part all three transactions share: send the request, receive a reply. */
    method Exchange(req: array<byte>, len: nat, resp: array<byte>) returns (rc: int, total: nat)
      requires len <= req.Length && resp.Length == MAX_ADU_LEN && req != resp
      modifies this, socket, resp
      ensures var r := Exchanged(old(State()), req[..len]);
              rc == r.rc && State() == r.link && (rc == OK ==> total == |r.bytes|)
              && resp[..] == Overwrite(old(resp[..]), 0, r.bytes)
    {
      hide Overwrite, RecvResponse;
      total := 0;
      OverwriteNothing(resp[..], 0);
      var ok := Send(req, len);
      if !ok {
        return ERR_TRANSPORT, 0;
      }
      rc, total := socket.RecvAdu(resp);
      if rc != 0 {
        rc := ClientError(rc);
      }
    }

    method DecodeInto(resp: array<byte>, qty: u16, out: array<u16>)
      requires resp.Length == MAX_ADU_LEN && 1 <= qty <= MAX_READ_REGISTERS == out.Length
      modifies out
      ensures out[..] == Overwrite(old(out[..]), 0, DecodeRegisters(resp[9..], qty))
    {
      hide Word, Overwrite;
      ghost var was := out[..];
      OverwriteNothing(was, 0);
      for i := 0 to qty
        invariant out[..] == Overwrite(was, 0, DecodeRegisters(resp[9..], i))
      {
        var offset := 9 + i * 2;
        assert resp[9..][2 * i] == resp[offset] && resp[9..][2 * i + 1] == resp[offset + 1];
        OverwriteOneMore(was, 0, DecodeRegisters(resp[9..], i), Word(resp[offset], resp[offset + 1]));
        out[i] := Word(resp[offset], resp[offset + 1]);
      }
    }

    /** What follows the receive in a read. */
    method ValidateRead(resp: array<byte>, total: nat, qty: u16, out: array<u16>) returns (rc: int)
      requires resp.Length == MAX_ADU_LEN && 1 <= qty <= MAX_READ_REGISTERS == out.Length
      modifies out
      ensures (rc, out[..]) == CheckRead(resp[..], total, tid, qty, old(out[..]))
    {
      hide Word, Overwrite, DecodeRegisters;
      if Word(resp[0], resp[1]) != tid {
        return ERR_TID;
      }
      if IsException(resp[7]) {
        return resp[8];
      }
      if resp[7] != FC_READ_HOLDING_REGISTERS || total < 9 || resp[8] != qty * 2 {
        return ERR_FRAME;
      }
      assert resp[..][9..] == resp[9..];
      DecodeInto(resp, qty, out);
      return OK;
    }

    method ReadHoldingRegisters(addr: u16, qty: u16, out: array<u16>) returns (rc: int)
      requires out.Length == MAX_READ_REGISTERS
      modifies this, socket, out
      ensures Performed(rc, out[..], State()) == Perform(old(State()), Read(addr, qty), old(out[..]))
    {
      hide Overwrite, Exchanged, CheckRead, StandardRequest;
      if qty == 0 || qty > MAX_READ_REGISTERS {
        return ERR_ARG;
      }
      if !open {
        return ERR_NOT_CONNECTED;
      }
      var req := new byte[STANDARD_REQUEST_LEN];
      ghost var was := req[..];
      var resp := Begin();
      BuildRequest(tid, unit, FC_READ_HOLDING_REGISTERS, addr, qty, req);
      WholeOverwritten(was, StandardRequest(tid, unit, FC_READ_HOLDING_REGISTERS, addr, qty));
      assert req[..STANDARD_REQUEST_LEN] == req[..];
      var total;
      rc, total := Exchange(req, STANDARD_REQUEST_LEN, resp);
      if rc != OK {
        return;
      }
      rc := ValidateRead(resp, total, qty, out);
    }

    method ValidateWrite(fc: byte, resp: array<byte>, total: nat) returns (rc: int)
      requires resp.Length == MAX_ADU_LEN
      ensures rc == CheckWrite(resp[..], total, tid, fc)
    {
      if total < 9 {
        return ERR_FRAME;
      }
      if Word(resp[0], resp[1]) != tid {
        return ERR_TID;
      }
      if IsException(resp[7]) {
        return resp[8];
      }
      if total < 12 || resp[7] != fc {
        return ERR_FRAME;
      }
      return OK;
    }

    method WriteSingleRegister(addr: u16, value: u16, ghost out: ReadBuffer) returns (rc: int)
      modifies this, socket
      ensures Performed(rc, out, State()) == Perform(old(State()), WriteOne(addr, value), out)
    {
      hide Overwrite, Exchanged, CheckWrite, StandardRequest;
      if !open {
        return ERR_NOT_CONNECTED;
      }
      var req := new byte[STANDARD_REQUEST_LEN];
      ghost var was := req[..];
      var resp := Begin();
      BuildRequest(tid, unit, FC_WRITE_SINGLE_REGISTER, addr, value, req);
      WholeOverwritten(was, StandardRequest(tid, unit, FC_WRITE_SINGLE_REGISTER, addr, value));
      assert req[..STANDARD_REQUEST_LEN] == req[..];
      var total;
      rc, total := Exchange(req, STANDARD_REQUEST_LEN, resp);
      if rc != OK {
        return;
      }
      rc := ValidateWrite(FC_WRITE_SINGLE_REGISTER, resp, total);
    }

    method WriteMultipleRegisters(addr: u16, data: seq<u16>, ghost out: ReadBuffer) returns (rc: int)
      modifies this, socket
      ensures Performed(rc, out, State()) == Perform(old(State()), WriteMany(addr, data), out)
    {
      hide Overwrite, Exchanged, CheckWrite, MultipleRequest, ByteCount;
      if |data| == 0 || |data| > MAX_WRITE_REGISTERS {
        return ERR_ARG;
      }
      if !open {
        return ERR_NOT_CONNECTED;
      }
      var req := new byte[MAX_ADU_LEN];
      ghost var was := req[..];
      var resp := Begin();
      var len := BuildMultipleRequest(tid, unit, addr, data, req);
      MultipleRequestLength(tid, unit, addr, data);
      OverwrittenFront(was, MultipleRequest(tid, unit, addr, data));
      assert req[..len] == req[..][..len];
      var total;
      rc, total := Exchange(req, len, resp);
      if rc != OK {
        return;
      }
      rc := ValidateWrite(FC_WRITE_MULTIPLE_REGISTERS, resp, total);
    }
  }

  lemma OverwrittenFront(was: seq<byte>, frame: seq<byte>)
    requires |frame| <= |was|
    ensures Overwrite(was, 0, frame)[..|frame|] == frame
  {
  }

  lemma WholeOverwritten(was: seq<byte>, frame: seq<byte>)
    requires |frame| == |was|
    ensures Overwrite(was, 0, frame) == frame
  {
  }
}
