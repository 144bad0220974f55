/**
 * Whole conversations with a device: a server that answers the requests it gets in order,
 * or leaves some unanswered, a client that may lose patience before a reply comes, and the
 * guarantee that a reply is only ever believed by the request it answers.
 */
module Session {
  import opened Bytes
  import opened Codec
  import opened Transport
  import opened Client

  type Registers = u16 -> u16

  /** What the device does with one request: carry it out on its current registers, refuse, or never answer. */
  datatype World = Answers(regs: Registers) | Refuses(code: byte) | Silent

  datatype Turn = Turn(ask: Ask, world: World)

  function Slice(regs: Registers, addr: u16, qty: nat): (s: seq<u16>)
    requires addr + qty <= 0x1_0000
    ensures |s| == qty
  {
    seq(qty, i requires 0 <= i < qty => regs(addr + i))
  }

  // ---------- The server

  function ExceptionReply(tid: u16, unit: byte, fc: byte, code: byte): seq<byte> {
    Header(tid, 3, unit, fc % EXCEPTION_FLAG + EXCEPTION_FLAG) + [code]
  }

  /** The answer to a parsed request; `f` is the request frame, echoed in part by a write. */
  function Answer(q: Codec.Request, tid: u16, unit: byte, f: seq<byte>, w: World): seq<byte>
    requires |f| >= STANDARD_REQUEST_LEN
  {
    match w
    case Silent => []
    case Refuses(code) => ExceptionReply(tid, unit, q.fc, code)
    case Answers(regs) =>
      if q.fc != FC_READ_HOLDING_REGISTERS then Header(tid, 6, unit, q.fc) + f[8..12]
      else if q.qty == 0 || q.qty > MAX_READ_REGISTERS then ExceptionReply(tid, unit, q.fc, 3)
      else if q.addr + q.qty > 0x1_0000 then ExceptionReply(tid, unit, q.fc, 2)
      else ReadReply(tid, q.fc, unit, Slice(regs, q.addr, q.qty))
  }

  /** The library's parser in front of the library's reply builder; writes are echoed. */
  function Serve(request: seq<byte>, w: World): seq<byte> {
    match ParseRequest(request)
    case None => []
    case Some(q) => Answer(q, Word(request[0], request[1]), request[6], request, w)
  }

  predicate Granted(ask: Ask, w: World) {
    w.Answers? && (ask.Read? ==> ask.addr + ask.qty <= 0x1_0000)
  }

  function Verdict(ask: Ask, w: World): int
    requires !w.Silent?
  {
    if Granted(ask, w) then OK else if w.Refuses? then w.code else 2
  }

  /** The result of a transaction is its own: the verdict on this very request, with this device's values. */
  ghost predicate Genuine(rc: int, before: ReadBuffer, after: ReadBuffer, turn: Turn)
    requires turn.ask.ValidArgs()
  {
    && !turn.world.Silent?
    && rc == Verdict(turn.ask, turn.world)
    && after == if turn.ask.Read? && Granted(turn.ask, turn.world)
                then Overwrite(before, 0, Slice(turn.world.regs, turn.ask.addr, turn.ask.qty))
                else before
  }

  lemma AduFields(ask: Ask, tid: u16, unit: byte)
    requires ask.ValidArgs()
    ensures var f := ask.Adu(tid, unit);
            |f| >= STANDARD_REQUEST_LEN && f[0] == Hi(tid) && f[1] == Lo(tid) && f[6] == unit
            && ParseRequest(f).Some? && ParseRequest(f).value.fc == ask.Fc()
            && (ask.Read? ==> ParseRequest(f).value == Codec.Request(FC_READ_HOLDING_REGISTERS, ask.addr, ask.qty))
  {
    hide Hi, Lo, Word, ParseRequest, RegisterBytes;
    match ask
    case Read(addr, qty) => StandardRequestRoundTrip(tid, unit, FC_READ_HOLDING_REGISTERS, addr, qty);
    case WriteOne(addr, value) => StandardRequestRoundTrip(tid, unit, FC_WRITE_SINGLE_REGISTER, addr, value);
    case WriteMany(addr, data) =>
      MultipleRequestRoundTrip(tid, unit, addr, data);
      MultipleRequestLayout(tid, unit, addr, data);
      var f := ask.Adu(tid, unit);
      assert f[0] == f[..8][0] && f[1] == f[..8][1] && f[6] == f[..8][6];
  }

  /** A header followed by as many bytes as it announces is a whole frame, and reads back. */
  lemma HeaderReadsBack(tid: u16, length: u16, unit: byte, fc: byte, tail: seq<byte>, stack: AduBuffer)
    requires 3 <= length == |tail| + 2 <= MAX_ADU_LEN - MBAP_LEN
    ensures var f := Header(tid, length, unit, fc) + tail;
            IsAdu(f) && Word(f[0], f[1]) == tid
            && var resp := Overwrite(stack, 0, f);
               Word(resp[0], resp[1]) == tid && resp[7] == fc && resp[8] == tail[0]
               && resp[9..] == tail[1..] + stack[|f|..]
  {
    hide Hi, Lo, Word;
    SplitJoin(tid);
    SplitJoin(length);
  }

  /** The header byte and tail of the reply to a request: a header for `|tail| + 2` bytes, then the tail. */
  ghost predicate Shape(ask: Ask, w: World, fc: byte, tail: seq<byte>)
    requires !w.Silent?
  {
    && 1 <= |tail| <= 252
    && if !Granted(ask, w) then fc == ask.Fc() + EXCEPTION_FLAG && tail == [Verdict(ask, w)]
       else fc == ask.Fc()
            && if ask.Read? then tail == [2 * ask.qty] + RegisterBytes(Slice(w.regs, ask.addr, ask.qty))
               else |tail| == 4
  }

  lemma AnswerShape(q: Codec.Request, tid: u16, unit: byte, f: seq<byte>, ask: Ask, w: World)
    returns (fc: byte, tail: seq<byte>)
    requires ask.ValidArgs() && !w.Silent? && |f| >= STANDARD_REQUEST_LEN && q.fc == ask.Fc()
    requires ask.Read? ==> q == Codec.Request(FC_READ_HOLDING_REGISTERS, ask.addr, ask.qty)
    ensures Shape(ask, w, fc, tail) && 1 <= |tail| <= 252
    ensures Answer(q, tid, unit, f, w) == Header(tid, |tail| + 2, unit, fc) + tail
  {
    hide Hi, Lo, RegisterBytes;
    if !Granted(ask, w) {
      fc, tail := ask.Fc() + EXCEPTION_FLAG, [Verdict(ask, w)];
    } else if ask.Read? {
      var data := Slice(w.regs, ask.addr, ask.qty);
      fc, tail := ask.Fc(), [2 * ask.qty] + RegisterBytes(data);
      var h := Header(tid, |tail| + 2, unit, fc);
      assert h + [2 * ask.qty] + RegisterBytes(data) == h + tail;
    } else {
      fc, tail := ask.Fc(), f[8..12];
    }
  }

  lemma ServedShape(f: seq<byte>, ask: Ask, tid: u16, unit: byte, w: World) returns (fc: byte, tail: seq<byte>)
    requires ask.ValidArgs() && !w.Silent? && |f| >= STANDARD_REQUEST_LEN
    requires f[0] == Hi(tid) && f[1] == Lo(tid) && f[6] == unit
    requires ParseRequest(f).Some? && ParseRequest(f).value.fc == ask.Fc()
    requires ask.Read? ==> ParseRequest(f).value == Codec.Request(FC_READ_HOLDING_REGISTERS, ask.addr, ask.qty)
    ensures Shape(ask, w, fc, tail) && 1 <= |tail| <= 252 && Serve(f, w) == Header(tid, |tail| + 2, unit, fc) + tail
  {
    hide Hi, Lo, Word, ParseRequest, Answer, Shape;
    SplitJoin(tid);
    var q := ParseRequest(f).value;
    assert Serve(f, w) == Answer(q, tid, unit, f, w);
    fc, tail := AnswerShape(q, tid, unit, f, ask, w);
  }

  lemma ReplyShape(ask: Ask, tid: u16, unit: byte, w: World) returns (fc: byte, tail: seq<byte>)
    requires ask.ValidArgs() && !w.Silent?
    ensures Shape(ask, w, fc, tail) && 1 <= |tail| <= 252
    ensures Serve(ask.Adu(tid, unit), w) == Header(tid, |tail| + 2, unit, fc) + tail
  {
    hide Hi, Lo, Word, ParseRequest, Serve, Shape;
    AduFields(ask, tid, unit);
    var f := ask.Adu(tid, unit);
    fc, tail := ServedShape(f, ask, tid, unit, w);
  }

  /** Every reply is one whole frame carrying the id of its request. */
  lemma ReplyIsFrame(ask: Ask, tid: u16, unit: byte, w: World, stack: AduBuffer)
    requires ask.ValidArgs() && !w.Silent?
    ensures var reply := Serve(ask.Adu(tid, unit), w);
            IsAdu(reply) && 9 <= |reply| <= MAX_ADU_LEN
            && var resp := Overwrite(stack, 0, reply); Word(resp[0], resp[1]) == tid
  {
    hide Hi, Lo, Word, Serve, Overwrite;
    var fc, tail := ReplyShape(ask, tid, unit, w);
    HeaderReadsBack(tid, |tail| + 2, unit, fc, tail, stack);
  }

  lemma ShapedReplyIsGenuine(turn: Turn, resp: AduBuffer, fc: byte, tail: seq<byte>, rest: seq<byte>, tid: u16,
                             out: ReadBuffer)
    requires turn.ask.ValidArgs() && !turn.world.Silent? && Shape(turn.ask, turn.world, fc, tail)
    requires Word(resp[0], resp[1]) == tid && resp[7] == fc && resp[8] == tail[0] && resp[9..] == tail[1..] + rest
    ensures var c := Check(turn.ask, resp, 8 + |tail|, tid, out);
            Genuine(c.0, out, c.1, turn)
  {
    if turn.ask.Read? && Granted(turn.ask, turn.world) {
      var data := Slice(turn.world.regs, turn.ask.addr, turn.ask.qty);
      assert tail[1..] == RegisterBytes(data);
      DecodeInvertsRegisterBytes(data, rest);
    }
  }

  /** The client's verdict on the server's own reply to a request is genuine, for all three transactions. */
  lemma OwnReplyIsGenuine(turn: Turn, tid: u16, unit: byte, stack: AduBuffer, out: ReadBuffer)
    requires turn.ask.ValidArgs() && !turn.world.Silent?
    ensures var reply := Serve(turn.ask.Adu(tid, unit), turn.world);
            |reply| <= MAX_ADU_LEN
            && var c := Check(turn.ask, Overwrite(stack, 0, reply), |reply|, tid, out);
               Genuine(c.0, out, c.1, turn)
  {
    hide Hi, Lo, Word, Serve, Shape, Check, Genuine, Overwrite;
    var fc, tail := ReplyShape(turn.ask, tid, unit, turn.world);
    HeaderReadsBack(tid, |tail| + 2, unit, fc, tail, stack);
    var reply := Header(tid, |tail| + 2, unit, fc) + tail;
    ShapedReplyIsGenuine(turn, Overwrite(stack, 0, reply), fc, tail, stack[|reply|..], tid, out);
  }

  /**
   * Success is believed without data exactly when the server refuses with code 0, which section 7 of the
   * MODBUS Application Protocol Specification does not define.
   */
  lemma FalseSuccessIffCodeZero(turn: Turn, tid: u16, unit: byte, stack: AduBuffer, out: ReadBuffer)
    requires turn.ask.ValidArgs() && !turn.world.Silent?
    ensures var reply := Serve(turn.ask.Adu(tid, unit), turn.world);
            |reply| <= MAX_ADU_LEN
            && var c := Check(turn.ask, Overwrite(stack, 0, reply), |reply|, tid, out);
               (c.0 == OK && !Granted(turn.ask, turn.world)) <==> (turn.world.Refuses? && turn.world.code == 0)
  {
    OwnReplyIsGenuine(turn, tid, unit, stack, out);
    hide Serve, Check;
  }

  // ---------- Frames on the wire

  /** Nothing more arrives. */
  predicate Dead(script: seq<Event>) {
    forall i :: 0 <= i < |script| ==> script[i].Fail?
  }

  /** `whole`, and possibly the beginning of a frame after it. */
  predicate EndsIn(stream: seq<byte>, whole: seq<byte>) {
    whole <= stream && Torn(stream[|whole|..])
  }

  /**
   * The script is whole frames, `bursts[i]` of them before the i-th failure; after the last of them the connection
   * may break inside a frame.
   */
  ghost predicate Aligned(script: seq<Event>, bursts: seq<seq<seq<byte>>>)
    decreases |bursts|
  {
    && bursts != [] && WholeFrames(bursts[0])
    && var rest := AfterBurst(script);
       if |bursts| == 1 then EndsIn(Burst(script), Concat(bursts[0])) && Dead(rest)
       else Burst(script) == Concat(bursts[0]) && rest != [] && Aligned(rest[1..], bursts[1..])
  }

  /** The bursts frame by frame, with a timeout after each but the last, then `torn`, then `end`. */
  function Deliver(bursts: seq<seq<Chunk>>, torn: seq<byte>, end: seq<Event>): seq<Event>
    decreases |bursts|
  {
    if bursts == [] then end
    else if |bursts| == 1 then DeliverBurst(bursts[0]) + DeliverEnd(torn, end)
    else DeliverBurst(bursts[0]) + ([Fail(true)] + Deliver(bursts[1..], torn, end))
  }

  function DeliverEnd(torn: seq<byte>, end: seq<Event>): seq<Event> {
    if torn == [] then end else [Data(torn)] + end
  }

  function DeliverBurst(chunks: seq<Chunk>): seq<Event> {
    if chunks == [] then [] else [Data(chunks[0])] + DeliverBurst(chunks[1..])
  }

  lemma BurstOfData(d: Chunk, script: seq<Event>)
    ensures Burst([Data(d)] + script) == d + Burst(script) && AfterBurst([Data(d)] + script) == AfterBurst(script)
  {
    assert ([Data(d)] + script)[1..] == script;
  }

  lemma {:induction false} BurstDelivered(chunks: seq<Chunk>, rest: seq<Event>)
    ensures Burst(DeliverBurst(chunks) + rest) == Concat<byte>(chunks) + Burst(rest)
    ensures AfterBurst(DeliverBurst(chunks) + rest) == AfterBurst(rest)
  {
    if chunks == [] {
      assert DeliverBurst(chunks) + rest == rest;
      assert Concat<byte>([]) + Burst(rest) == Burst(rest);
    } else {
      var first: seq<Event>, others := [Data(chunks[0])], DeliverBurst(chunks[1..]);
      BurstDelivered(chunks[1..], rest);
      assert DeliverBurst(chunks) == first + others;
      assert Concat<byte>(chunks) == chunks[0] + Concat<byte>(chunks[1..]);
      hide Burst, AfterBurst, DeliverBurst, Concat;
      Regroup(first, others, rest);
      BurstOfData(chunks[0], others + rest);
      Regroup<byte>(chunks[0], Concat<byte>(chunks[1..]), Burst(rest));
    }
  }

  lemma BurstOfDead(script: seq<Event>)
    requires Dead(script)
    ensures Burst(script) == [] && AfterBurst(script) == script && Dead(PastFailure(script))
  {
  }

  lemma EndDelivered(torn: seq<byte>, end: seq<Event>)
    requires Dead(end)
    ensures Burst(DeliverEnd(torn, end)) == torn && AfterBurst(DeliverEnd(torn, end)) == end
  {
    BurstOfDead(end);
    if torn != [] {
      BurstOfData(torn, end);
      assert torn + [] == torn;
    }
  }

  /** Every pattern of whole frames, failures between them and a broken end does occur. */
  lemma {:induction false} EveryPatternArises(bursts: seq<seq<Chunk>>, torn: seq<byte>, end: seq<Event>)
    requires bursts != [] && forall i :: 0 <= i < |bursts| ==> WholeFrames(bursts[i])
    requires Torn(torn) && Dead(end)
    ensures Aligned(Deliver(bursts, torn, end), bursts)
    decreases |bursts|
  {
    hide DeliverBurst, DeliverEnd, Burst, AfterBurst, Concat, WholeFrames, Torn, Dead;
    if |bursts| == 1 {
      EndDelivered(torn, end);
      BurstDelivered(bursts[0], DeliverEnd(torn, end));
      var whole := Concat<byte>(bursts[0]);
      assert (whole + torn)[|whole|..] == torn;
    } else {
      var rest := [Fail(true)] + Deliver(bursts[1..], torn, end);
      BurstDelivered(bursts[0], rest);
      AtFailure(rest);
      assert Concat<byte>(bursts[0]) + [] == Concat<byte>(bursts[0]);
      assert rest[1..] == Deliver(bursts[1..], torn, end);
      EveryPatternArises(bursts[1..], torn, end);
    }
  }

  lemma AtFailure(script: seq<Event>)
    requires script != [] && script[0].Fail?
    ensures Burst(script) == [] && AfterBurst(script) == script && PastFailure(script) == script[1..]
  {
  }

  lemma {:induction false} ConcatHas<T>(parts: seq<seq<T>>, i: nat, j: nat)
    requires i < |parts| && j < |parts[i]|
    ensures parts[i][j] in Concat(parts)
  {
    if i == 0 {
      assert parts[0][j] == Concat(parts)[j];
    } else {
      ConcatHas(parts[1..], i - 1, j);
      assert forall x :: x in Concat(parts[1..]) ==> x in Concat(parts);
    }
  }

  function NextBursts(bursts: seq<seq<seq<byte>>>): (next: seq<seq<seq<byte>>>)
    requires bursts != []
    ensures next != []
  {
    if bursts[0] != [] then [bursts[0][1..]] + bursts[1..]
    else if |bursts| > 1 then bursts[1..]
    else bursts
  }

  /** One receive on an aligned script takes the next frame, or fails without touching one. */
  lemma AlignedReceive(script: seq<Event>, bursts: seq<seq<seq<byte>>>)
    requires Aligned(script, bursts)
    ensures var r := RecvResponse(script);
            Aligned(r.rest, NextBursts(bursts))
            && (r.rc == 0 <==> bursts[0] != [])
            && (r.rc == 0 ==> r.bytes == bursts[0][0])
  {
    hide Burst, AfterBurst, Torn, Dead, IsAdu;
    var stream, frames := Burst(script), bursts[0];
    if frames == [] {
      NothingTorn();
      assert stream[0..] == stream;
      ReceiveFails(script);
      if |bursts| == 1 {
        BurstOfDead(AfterBurst(script));
        BurstOfDead(PastFailure(script));
        assert Burst(PastFailure(script))[0..] == [];
      }
    } else {
      var whole, later := Concat(frames), Concat(frames[1..]);
      var tail := stream[|frames[0]|..];
      assert whole == frames[0] + later;
      assert stream == frames[0] + tail;
      ReceiveTakesAdu(script, frames[0], tail);
      if |bursts| == 1 {
        assert tail[|later|..] == stream[|whole|..];
      } else {
        assert tail == later;
      }
    }
  }

  lemma NothingTorn()
    ensures Torn([]) && Concat<byte>([]) == []
  {
  }

  lemma NextBurstsFlatten(bursts: seq<seq<seq<byte>>>)
    requires bursts != []
    ensures bursts[0] == [] ==> Concat(bursts) == Concat(NextBursts(bursts))
    ensures bursts[0] != [] ==> Concat(bursts) == [bursts[0][0]] + Concat(NextBursts(bursts))
  {
    if bursts[0] != [] {
      ConcatTakesFirst(bursts);
    } else {
      assert [] + Concat(bursts[1..]) == Concat(bursts[1..]);
    }
  }

  // ---------- Conversations

  /** Transaction number `k` reached the server. */
  datatype Due = Due(k: nat, turn: Turn)

  /** The server will reply to it. */
  predicate Answered(d: Due) {
    d.turn.ask.ValidArgs() && !d.turn.world.Silent?
  }

  function ReplyTo(unit: byte, d: Due): seq<byte>
    requires Answered(d)
  {
    Serve(d.turn.ask.Adu(TidAt(d.k), unit), d.turn.world)
  }

  function Replies(unit: byte, dues: seq<Due>): seq<seq<byte>>
    requires forall d :: d in dues ==> Answered(d)
  {
    if dues == [] then [] else [ReplyTo(unit, dues[0])] + Replies(unit, dues[1..])
  }

  function Later(sends: seq<bool>): seq<bool> {
    if sends == [] then [] else sends[1..]
  }

  /** The request of this turn, if it reaches the server and is to be answered. */
  function OwnDue(k: nat, sends: seq<bool>, turn: Turn): (r: seq<Due>)
    requires turn.ask.ValidArgs()
    ensures forall d :: d in r ==> Answered(d)
  {
    if (sends == [] || sends[0]) && !turn.world.Silent? then [Due(k + 1, turn)] else []
  }

  /** The transactions of `turns` that will be answered, numbered from `k + 1`. */
  function Reaching(k: nat, sends: seq<bool>, turns: seq<Turn>): (r: seq<Due>)
    ensures forall d :: d in r ==> Answered(d)
    decreases |turns|
  {
    if turns == [] then []
    else if !turns[0].ask.ValidArgs() then Reaching(k, sends, turns[1..])
    else OwnDue(k, sends, turns[0]) + Reaching(k + 1, Later(sends), turns[1..])
  }

  /**
   * No reply comes before its request: whenever a request goes out and none is to be answered, nothing arrives.
   * `due` requests are outstanding at the start.
   */
  ghost predicate Causal(due: nat, sends: seq<bool>, turns: seq<Turn>, bursts: seq<seq<seq<byte>>>)
    requires bursts != []
    decreases |turns|
  {
    if turns == [] then true
    else if !turns[0].ask.ValidArgs() then Causal(due, sends, turns[1..], bursts)
    else if sends != [] && !sends[0] then Causal(due, Later(sends), turns[1..], bursts)
    else
      var now := due + if turns[0].world.Silent? then 0 else 1;
      (now == 0 ==> bursts[0] == [])
      && Causal(if bursts[0] == [] then now else now - 1, Later(sends), turns[1..], NextBursts(bursts))
  }

  /** A conversation so far: `k` transactions made; the replies to those in `pending` are still to come. */
  datatype Conversation = Conversation(link: Link, k: nat, pending: seq<Due>, bursts: seq<seq<seq<byte>>>)

  /** Replies still to come after `k` transactions, oldest first. */
  ghost predicate Outstanding(dues: seq<Due>, k: nat) {
    && (forall d :: d in dues ==> Answered(d) && 1 <= d.k <= k)
    && (forall i, j :: 0 <= i < j < |dues| ==> dues[i].k < dues[j].k)
  }

  lemma OutstandingLonger(dues: seq<Due>, k: nat, own: Due)
    requires Outstanding(dues, k)
    ensures Outstanding(dues, k + 1)
    ensures own.k == k + 1 && Answered(own) ==> Outstanding(dues + [own], k + 1)
  {
    hide Answered;
  }

  lemma OutstandingRest(dues: seq<Due>, k: nat)
    requires dues != [] && Outstanding(dues, k)
    ensures Outstanding(dues[1..], k)
  {
    hide Answered;
  }

  ghost predicate Valid(c: Conversation, turns: seq<Turn>) {
    && c.link.open
    && c.link.tid == TidAt(c.k)
    && Outstanding(c.pending, c.k)
    && c.bursts != [] && Aligned(c.link.script, c.bursts)
    && Concat(c.bursts) <= Replies(c.link.unit, c.pending + Reaching(c.k, c.link.sends, turns))
    && Causal(|c.pending|, c.link.sends, turns, c.bursts)
  }

  // ---------- Where conversations start

  /** A connection just made. */
  function Fresh(link: Link, bursts: seq<seq<seq<byte>>>): Conversation {
    Conversation(link, 0, [], bursts)
  }

  /**
   * The wire of a new connection brings, in whole frames and in order, replies to the requests the server answers,
   * each after its request; how many of them, and how late, is open.
   */
  ghost predicate Serves(link: Link, bursts: seq<seq<seq<byte>>>, turns: seq<Turn>) {
    && bursts != [] && Aligned(link.script, bursts)
    && Concat(bursts) <= Replies(link.unit, Reaching(0, link.sends, turns))
    && Causal(0, link.sends, turns, bursts)
  }

  /** What connecting leaves, with such a wire, is a valid conversation with nothing outstanding. */
  lemma FreshIsValid(link: Link, bursts: seq<seq<seq<byte>>>, turns: seq<Turn>)
    requires link.open && link.tid == 0 && Serves(link, bursts, turns)
    ensures Valid(Fresh(link, bursts), turns) && Backlog(Fresh(link, bursts)) == 0
  {
    hide Aligned, Replies, Reaching, Causal;
    assert [] + Reaching(0, link.sends, turns) == Reaching(0, link.sends, turns);
  }

  // ---------- Every such conversation exists

  /**
   * The bursts in which, at the i-th request that goes out, the oldest outstanding reply comes in time if there is
   * one and `inTime[i]`.
   */
  function Arriving(unit: byte, k: nat, dues: seq<Due>, sends: seq<bool>, turns: seq<Turn>, inTime: seq<bool>)
    : (bursts: seq<seq<Chunk>>)
    requires forall d :: d in dues ==> Answered(d)
    ensures bursts != []
    decreases |turns|
  {
    if turns == [] then [[]]
    else if !turns[0].ask.ValidArgs() then Arriving(unit, k, dues, sends, turns[1..], inTime)
    else if sends != [] && !sends[0] then Arriving(unit, k + 1, dues, Later(sends), turns[1..], inTime)
    else
      var now := dues + OwnDue(k, sends, turns[0]);
      if now == [] || inTime == [] || !inTime[0] then
        [[]] + Arriving(unit, k + 1, now, Later(sends), turns[1..], Later(inTime))
      else
        var later := Arriving(unit, k + 1, now[1..], Later(sends), turns[1..], Later(inTime));
        [[ReplyChunk(unit, now[0])] + later[0]] + later[1..]
  }

  function ReplyChunk(unit: byte, d: Due): (c: Chunk)
    requires Answered(d)
    ensures IsAdu(c) && c == ReplyTo(unit, d)
  {
    ReplyIsFrame(d.turn.ask, TidAt(d.k), unit, d.turn.world, Filled(0));
    ReplyTo(unit, d)
  }

  /** A request that goes out finds a reply in time exactly when one is outstanding and `inTime` says so. */
  ghost predicate Paced(due: nat, sends: seq<bool>, turns: seq<Turn>, bursts: seq<seq<seq<byte>>>, inTime: seq<bool>)
    requires bursts != []
    decreases |turns|
  {
    if turns == [] then true
    else if !turns[0].ask.ValidArgs() then Paced(due, sends, turns[1..], bursts, inTime)
    else if sends != [] && !sends[0] then Paced(due, Later(sends), turns[1..], bursts, inTime)
    else
      var now := due + if turns[0].world.Silent? then 0 else 1;
      (bursts[0] != [] <==> now > 0 && inTime != [] && inTime[0])
      && Paced(if bursts[0] == [] then now else now - 1, Later(sends), turns[1..], NextBursts(bursts), Later(inTime))
  }

  lemma {:induction false} PacedIsCausal(due: nat, sends: seq<bool>, turns: seq<Turn>, bursts: seq<seq<seq<byte>>>,
                                         inTime: seq<bool>)
    requires bursts != [] && Paced(due, sends, turns, bursts, inTime)
    ensures Causal(due, sends, turns, bursts)
    decreases |turns|
  {
    hide NextBursts;
    if turns != [] {
      if !turns[0].ask.ValidArgs() {
        PacedIsCausal(due, sends, turns[1..], bursts, inTime);
      } else if sends != [] && !sends[0] {
        PacedIsCausal(due, Later(sends), turns[1..], bursts, inTime);
      } else {
        var now := due + if turns[0].world.Silent? then 0 else 1;
        PacedIsCausal(if bursts[0] == [] then now else now - 1, Later(sends), turns[1..], NextBursts(bursts),
                      Later(inTime));
      }
    }
  }

  /** The three things `Arriving` is for. */
  ghost predicate ArrivesWell(unit: byte, k: nat, dues: seq<Due>, sends: seq<bool>, turns: seq<Turn>, inTime: seq<bool>,
                              bursts: seq<seq<Chunk>>)
    requires forall d :: d in dues ==> Answered(d)
  {
    && bursts != []
    && (forall i :: 0 <= i < |bursts| ==> WholeFrames(bursts[i]))
    && Concat<seq<byte>>(bursts) <= Replies(unit, dues + Reaching(k, sends, turns))
    && Paced(|dues|, sends, turns, bursts, inTime)
  }

  lemma ArrivesOutside(unit: byte, k: nat, dues: seq<Due>, sends: seq<bool>, turns: seq<Turn>, inTime: seq<bool>,
                       bursts: seq<seq<Chunk>>)
    requires turns != [] && (forall d :: d in dues ==> Answered(d))
    requires !turns[0].ask.ValidArgs() || (sends != [] && !sends[0])
    requires if !turns[0].ask.ValidArgs() then ArrivesWell(unit, k, dues, sends, turns[1..], inTime, bursts)
             else ArrivesWell(unit, k + 1, dues, Later(sends), turns[1..], inTime, bursts)
    ensures ArrivesWell(unit, k, dues, sends, turns, inTime, bursts)
  {
    hide WholeFrames, Concat, Replies, NextBursts;
    if turns[0].ask.ValidArgs() {
      var later := Reaching(k + 1, Later(sends), turns[1..]);
      assert Reaching(k, sends, turns) == [] + later == later;
    }
  }

  /** A request that finds no reply in time. */
  lemma ArrivesLate(unit: byte, k: nat, dues: seq<Due>, sends: seq<bool>, turns: seq<Turn>, inTime: seq<bool>,
                    later: seq<seq<Chunk>>)
    requires turns != [] && turns[0].ask.ValidArgs() && (sends == [] || sends[0])
    requires forall d :: d in dues ==> Answered(d)
    requires var now := dues + OwnDue(k, sends, turns[0]);
             (now == [] || inTime == [] || !inTime[0])
             && ArrivesWell(unit, k + 1, now, Later(sends), turns[1..], Later(inTime), later)
    ensures ArrivesWell(unit, k, dues, sends, turns, inTime, [[]] + later)
  {
    hide Concat, Replies, Answered;
    var bursts: seq<seq<Chunk>> := [[]] + later;
    assert bursts[1..] == later;
    NextBurstsFlatten(bursts);
    Regroup(dues, OwnDue(k, sends, turns[0]), Reaching(k + 1, Later(sends), turns[1..]));
  }

  /** A request that finds the oldest outstanding reply. */
  lemma ArrivesNow(unit: byte, k: nat, dues: seq<Due>, sends: seq<bool>, turns: seq<Turn>, inTime: seq<bool>,
                   later: seq<seq<Chunk>>)
    requires turns != [] && turns[0].ask.ValidArgs() && (sends == [] || sends[0])
    requires forall d :: d in dues ==> Answered(d)
    requires var now := dues + OwnDue(k, sends, turns[0]);
             now != [] && inTime != [] && inTime[0]
             && ArrivesWell(unit, k + 1, now[1..], Later(sends), turns[1..], Later(inTime), later)
    ensures var now := dues + OwnDue(k, sends, turns[0]);
            ArrivesWell(unit, k, dues, sends, turns, inTime, [[ReplyChunk(unit, now[0])] + later[0]] + later[1..])
  {
    hide Concat, Replies, Answered, ReplyTo, IsAdu, ReplyChunk, Reaching, NextBursts, Paced;
    var now := dues + OwnDue(k, sends, turns[0]);
    var f := ReplyChunk(unit, now[0]);
    var bursts: seq<seq<Chunk>> := [[f] + later[0]] + later[1..];
    FrontedBursts(f, later);
    NextBurstsFlatten(bursts);
    var reaching := Reaching(k + 1, Later(sends), turns[1..]);
    assert Reaching(k, sends, turns) == OwnDue(k, sends, turns[0]) + reaching by { ReachingSplit(k, sends, turns); }
    Regroup(dues, OwnDue(k, sends, turns[0]), reaching);
    RepliesFirst(unit, now, reaching);
    assert Paced(|dues|, sends, turns, bursts, inTime) by {
      PacedNow(|dues|, sends, turns, bursts, later, inTime);
    }
  }

  lemma ReachingSplit(k: nat, sends: seq<bool>, turns: seq<Turn>)
    requires turns != [] && turns[0].ask.ValidArgs()
    ensures Reaching(k, sends, turns) == OwnDue(k, sends, turns[0]) + Reaching(k + 1, Later(sends), turns[1..])
  {
  }

  lemma PacedNow(due: nat, sends: seq<bool>, turns: seq<Turn>, bursts: seq<seq<seq<byte>>>,
                 later: seq<seq<seq<byte>>>, inTime: seq<bool>)
    requires turns != [] && turns[0].ask.ValidArgs() && (sends == [] || sends[0]) && inTime != [] && inTime[0]
    requires bursts != [] && bursts[0] != [] && NextBursts(bursts) == later
    requires var now := due + if turns[0].world.Silent? then 0 else 1;
             now > 0 && Paced(now - 1, Later(sends), turns[1..], later, Later(inTime))
    ensures Paced(due, sends, turns, bursts, inTime)
  {
    hide NextBursts;
  }

  /** A frame put in front of what comes later. */
  lemma FrontedBursts(f: Chunk, later: seq<seq<Chunk>>)
    requires later != []
    ensures var bursts: seq<seq<Chunk>> := [[f] + later[0]] + later[1..];
            NextBursts(bursts) == later
            && (IsAdu(f) && (forall i :: 0 <= i < |later| ==> WholeFrames(later[i])) ==>
                  forall i :: 0 <= i < |bursts| ==> WholeFrames(bursts[i]))
  {
    hide IsAdu;
    var first := [f] + later[0];
    var bursts: seq<seq<Chunk>> := [first] + later[1..];
    assert first[1..] == later[0] && bursts[1..] == later[1..];
    assert [later[0]] + later[1..] == later;
    if IsAdu(f) && forall i :: 0 <= i < |later| ==> WholeFrames(later[i]) {
      forall i | 0 <= i < |bursts| ensures WholeFrames(bursts[i]) {
        if i == 0 {
          assert WholeFrames(later[0]);
        } else {
          assert bursts[i] == later[i];
        }
      }
    }
  }

  lemma RepliesFirst(unit: byte, dues: seq<Due>, later: seq<Due>)
    requires dues != [] && (forall d :: d in dues ==> Answered(d)) && (forall d :: d in later ==> Answered(d))
    ensures Replies(unit, dues + later) == [ReplyTo(unit, dues[0])] + Replies(unit, dues[1..] + later)
  {
    hide Answered, ReplyTo;
    assert (dues + later)[1..] == dues[1..] + later;
  }

  lemma {:induction false} ArrivingWell(unit: byte, k: nat, dues: seq<Due>, sends: seq<bool>, turns: seq<Turn>,
                                        inTime: seq<bool>)
    requires forall d :: d in dues ==> Answered(d)
    ensures ArrivesWell(unit, k, dues, sends, turns, inTime, Arriving(unit, k, dues, sends, turns, inTime))
    decreases |turns|
  {
    if turns == [] {
      assert Concat<seq<byte>>([[]]) == [];
    } else {
      hide ArrivesWell, Answered, OwnDue, ReplyChunk;
      if !turns[0].ask.ValidArgs() {
        ArrivingWell(unit, k, dues, sends, turns[1..], inTime);
        ArrivesOutside(unit, k, dues, sends, turns, inTime, Arriving(unit, k, dues, sends, turns[1..], inTime));
      } else if sends != [] && !sends[0] {
        ArrivingWell(unit, k + 1, dues, Later(sends), turns[1..], inTime);
        ArrivesOutside(unit, k, dues, sends, turns, inTime,
                       Arriving(unit, k + 1, dues, Later(sends), turns[1..], inTime));
      } else {
        var now := dues + OwnDue(k, sends, turns[0]);
        if now == [] || inTime == [] || !inTime[0] {
          ArrivingWell(unit, k + 1, now, Later(sends), turns[1..], Later(inTime));
          ArrivesLate(unit, k, dues, sends, turns, inTime,
                      Arriving(unit, k + 1, now, Later(sends), turns[1..], Later(inTime)));
        } else {
          ArrivingWell(unit, k + 1, now[1..], Later(sends), turns[1..], Later(inTime));
          ArrivesNow(unit, k, dues, sends, turns, inTime,
                     Arriving(unit, k + 1, now[1..], Later(sends), turns[1..], Later(inTime)));
        }
      }
    }
  }

  /**
   * For every sequence of turns, answered, refused or left in silence, every pattern of lost requests, every choice
   * of which requests find a reply in time, and every way for the connection to break at the end, there is a
   * connection just made on which it goes that way.
   */
  lemma ConversationArises(link: Link, turns: seq<Turn>, inTime: seq<bool>, torn: seq<byte>, end: seq<Event>)
    returns (bursts: seq<seq<seq<byte>>>)
    requires link.open && link.tid == 0 && Torn(torn) && Dead(end)
    requires link.script == Deliver(Arriving(link.unit, 0, [], link.sends, turns, inTime), torn, end)
    ensures Serves(link, bursts, turns) && Valid(Fresh(link, bursts), turns)
    ensures bursts != [] && Paced(0, link.sends, turns, bursts, inTime)
  {
    hide Aligned, Reaching, Replies, Deliver, Paced, Causal, WholeFrames, Torn, Dead, Arriving;
    var chunks := Arriving(link.unit, 0, [], link.sends, turns, inTime);
    ArrivingWell(link.unit, 0, [], link.sends, turns, inTime);
    bursts := chunks;
    assert [] + Reaching(0, link.sends, turns) == Reaching(0, link.sends, turns);
    PacedIsCausal(0, link.sends, turns, bursts, inTime);
    EveryPatternArises(chunks, torn, end);
    FreshIsValid(link, bursts, turns);
  }

  // ---------- How a conversation goes on

  /** How many transactions before the next one the request was whose reply is the next to come; 0 if none is. */
  function Backlog(c: Conversation): int {
    Behind(c.pending, c.k)
  }

  function Behind(dues: seq<Due>, k: nat): int {
    if dues == [] then 0 else k + 1 - dues[0].k
  }

  function Advance(c: Conversation, turn: Turn, out: ReadBuffer): Conversation
    requires c.bursts != []
  {
    var link := Perform(c.link, turn.ask, out).link;
    if !turn.ask.ValidArgs() then c.(link := link)
    else if c.link.sends != [] && !c.link.sends[0] then c.(link := link, k := c.k + 1)
    else Conversation(link, c.k + 1, StillDue(c, turn), NextBursts(c.bursts))
  }

  /** The requests whose replies will be outstanding once this turn's has gone out. */
  function DueNow(c: Conversation, turn: Turn): (dues: seq<Due>)
    requires turn.ask.ValidArgs()
    ensures (forall d :: d in c.pending ==> Answered(d)) ==> forall d :: d in dues ==> Answered(d)
  {
    c.pending + OwnDue(c.k, c.link.sends, turn)
  }

  /** And when the turn is over. */
  function StillDue(c: Conversation, turn: Turn): seq<Due>
    requires c.bursts != [] && turn.ask.ValidArgs()
  {
    var now := DueNow(c, turn);
    if c.bursts[0] == [] || now == [] then now else now[1..]
  }

  /** This turn's request goes out. */
  predicate Sends(c: Conversation, turns: seq<Turn>)
    requires turns != []
  {
    turns[0].ask.ValidArgs() && (c.link.sends == [] || c.link.sends[0])
  }

  /** What arrives answers something. */
  lemma ArrivalIsDue(c: Conversation, turns: seq<Turn>)
    requires turns != [] && Valid(c, turns) && Sends(c, turns)
    ensures c.bursts[0] != [] ==> DueNow(c, turns[0]) != []
    ensures |DueNow(c, turns[0])| == |c.pending| + if turns[0].world.Silent? then 0 else 1
    ensures Causal(|StillDue(c, turns[0])|, Later(c.link.sends), turns[1..], NextBursts(c.bursts))
  {
    hide Aligned, Replies, Reaching, TidAt, NextBursts;
  }

  lemma DuesSplit(c: Conversation, turns: seq<Turn>)
    requires turns != [] && Valid(c, turns) && Sends(c, turns)
    ensures forall d :: d in DueNow(c, turns[0]) ==> Answered(d)
    ensures var later := Reaching(c.k + 1, Later(c.link.sends), turns[1..]);
            Concat(c.bursts) <= Replies(c.link.unit, DueNow(c, turns[0]) + later)
            && (DueNow(c, turns[0]) != [] ==>
                  Replies(c.link.unit, DueNow(c, turns[0]) + later)
                  == [ReplyTo(c.link.unit, DueNow(c, turns[0])[0])]
                     + Replies(c.link.unit, DueNow(c, turns[0])[1..] + later))
  {
    hide Aligned, ReplyTo, Answered, Causal, Replies;
    var dues := DueNow(c, turns[0]);
    var later := Reaching(c.k + 1, Later(c.link.sends), turns[1..]);
    Regroup(c.pending, OwnDue(c.k, c.link.sends, turns[0]), later);
    if dues != [] {
      RepliesFirst(c.link.unit, dues, later);
    }
  }

  /** What a transaction whose request gets through does with the reply it reads, if any. */
  lemma TransactionReads(c: Conversation, turns: seq<Turn>, out: ReadBuffer)
    requires turns != [] && Valid(c, turns) && Sends(c, turns)
    ensures var p := Perform(c.link, turns[0].ask, out);
            p.link.tid == TidAt(c.k + 1)
            && Aligned(p.link.script, NextBursts(c.bursts))
            && (c.bursts[0] == [] ==> p.rc < 0 && p.out == out)
    ensures c.bursts[0] != [] ==> DueNow(c, turns[0]) != [] && Answered(DueNow(c, turns[0])[0])
    ensures c.bursts[0] != [] ==>
              var p := Perform(c.link, turns[0].ask, out);
              var reply := ReplyTo(c.link.unit, DueNow(c, turns[0])[0]);
              |reply| <= MAX_ADU_LEN && c.bursts[0][0] == reply
              && (p.rc, p.out)
                 == Check(turns[0].ask, Overwrite(Garbage(c.link), 0, reply), |reply|, TidAt(c.k + 1), out)
  {
    hide Aligned, Causal, Replies, Reaching, DueNow, ReplyTo, NextBursts, Ask.Adu, Check, TidAt, NextTid;
    NextTidCounts(c.k);
    AlignedReceive(c.link.script, c.bursts);
    ArrivalIsDue(c, turns);
    DuesSplit(c, turns);
    if c.bursts[0] != [] {
      FirstOfAll(c.bursts);
    }
  }

  lemma FirstOfAll(bursts: seq<seq<seq<byte>>>)
    requires bursts != [] && bursts[0] != []
    ensures Concat(bursts) != [] && Concat(bursts)[0] == bursts[0][0]
  {
  }

  /** What a transaction leaves of the connection besides the wire. */
  lemma PerformKeeps(l: Link, ask: Ask, out: ReadBuffer)
    requires l.open && ask.ValidArgs()
    ensures var link := Perform(l, ask, out).link;
            link.open && link.unit == l.unit && link.tid == NextTid(l.tid) && link.sends == Later(l.sends)
            && (l.sends != [] && !l.sends[0] ==> link.script == l.script)
  {
    hide Check, RecvResponse, Ask.Adu;
  }

  lemma DuesStayOrdered(c: Conversation, turns: seq<Turn>)
    requires turns != [] && Valid(c, turns) && Sends(c, turns)
    ensures Outstanding(DueNow(c, turns[0]), c.k + 1) && Outstanding(StillDue(c, turns[0]), c.k + 1)
  {
    hide Aligned, Replies, Reaching, TidAt, Causal, Outstanding;
    OutstandingLonger(c.pending, c.k, Due(c.k + 1, turns[0]));
    assert c.pending + [] == c.pending;
    if DueNow(c, turns[0]) != [] {
      OutstandingRest(DueNow(c, turns[0]), c.k + 1);
    }
  }

  lemma WireStaysInStep(c: Conversation, turns: seq<Turn>)
    requires turns != [] && Valid(c, turns) && Sends(c, turns)
    ensures forall d :: d in StillDue(c, turns[0]) ==> Answered(d)
    ensures Concat(NextBursts(c.bursts))
            <= Replies(c.link.unit, StillDue(c, turns[0]) + Reaching(c.k + 1, Later(c.link.sends), turns[1..]))
  {
    hide Aligned, Causal, Replies, Reaching, TidAt, Concat, NextBursts, ReplyTo, DueNow, Answered;
    DuesStayOrdered(c, turns);
    DuesSplit(c, turns);
    ArrivalIsDue(c, turns);
    NextBurstsFlatten(c.bursts);
    if c.bursts[0] != [] {
      var later := Reaching(c.k + 1, Later(c.link.sends), turns[1..]);
      var replies := Replies(c.link.unit, DueNow(c, turns[0]) + later);
      assert Concat(NextBursts(c.bursts)) == Concat(c.bursts)[1..] <= replies[1..];
    }
  }

  lemma AdvanceSent(c: Conversation, turns: seq<Turn>, out: ReadBuffer)
    requires turns != [] && Valid(c, turns) && Sends(c, turns)
    ensures Valid(Advance(c, turns[0], out), turns[1..])
  {
    hide Perform, Check, Aligned, Replies, Reaching, TidAt, NextTid, Concat, NextBursts, ReplyTo, Causal;
    hide StillDue, Answered;
    NextTidCounts(c.k);
    PerformKeeps(c.link, turns[0].ask, out);
    TransactionReads(c, turns, out);
    DuesStayOrdered(c, turns);
    WireStaysInStep(c, turns);
    ArrivalIsDue(c, turns);
  }

  lemma AdvanceUnsent(c: Conversation, turns: seq<Turn>, out: ReadBuffer)
    requires turns != [] && Valid(c, turns) && !Sends(c, turns)
    ensures c.bursts != [] && Valid(Advance(c, turns[0], out), turns[1..])
  {
    hide Perform, Check, Aligned, Replies, TidAt, NextTid, Concat, NextBursts, ReplyTo, Answered;
    NextTidCounts(c.k);
    if turns[0].ask.ValidArgs() {
      PerformKeeps(c.link, turns[0].ask, out);
      var later := Reaching(c.k + 1, Later(c.link.sends), turns[1..]);
      assert Reaching(c.k, c.link.sends, turns) == [] + later == later;
    } else {
      InvalidIsRefused(c.link, turns[0].ask, out);
    }
  }

  lemma InvalidIsRefused(l: Link, ask: Ask, out: ReadBuffer)
    requires !ask.ValidArgs()
    ensures Perform(l, ask, out) == Performed(ERR_ARG, out, l)
  {
  }

  /** A conversation stays valid, whatever the wire does next. */
  lemma AdvanceKeepsValid(c: Conversation, turns: seq<Turn>, out: ReadBuffer)
    requires turns != [] && Valid(c, turns)
    ensures c.bursts != [] && Valid(Advance(c, turns[0], out), turns[1..])
  {
    hide Valid, Advance;
    BurstsRemain(c, turns);
    if Sends(c, turns) {
      AdvanceSent(c, turns, out);
    } else {
      AdvanceUnsent(c, turns, out);
    }
  }

  /**
   * A reply is accepted iff it carries this request's id: a reply to transaction j passes
   * the id test of transaction k exactly when k - j is a multiple of 65535.
   */
  lemma ForeignReplyRejected(ask: Ask, k: nat, due: Due, unit: byte, stack: AduBuffer, out: ReadBuffer)
    requires ask.ValidArgs() && Answered(due) && 1 <= due.k <= k
    ensures var reply := ReplyTo(unit, due);
            |reply| <= MAX_ADU_LEN
            && (Check(ask, Overwrite(stack, 0, reply), |reply|, TidAt(k), out) == (ERR_TID, out)
                <==> (k - due.k) % 0xFFFF != 0)
  {
    hide Serve, TidAt, Word, DecodeRegisters, Overwrite;
    TidsAgree(due.k, k);
    ReplyIsFrame(due.turn.ask, TidAt(due.k), unit, due.turn.world, stack);
  }

  /** Every transaction of the run either fails with a negative code or reports on its own request. */
  ghost predicate AllGenuine(c: Conversation, turns: seq<Turn>, out: ReadBuffer)
    requires turns != [] ==> c.bursts != []
    decreases |turns|
  {
    turns != [] ==>
      var p := Perform(c.link, turns[0].ask, out);
      var c' := Advance(c, turns[0], out);
      && (Backlog(c) < 0xFFFF ==>
            (p.rc < 0 && p.out == out) || (turns[0].ask.ValidArgs() && Genuine(p.rc, out, p.out, turns[0])))
      && c'.bursts != []
      && AllGenuine(c', turns[1..], p.out)
  }

  /**
   * No stale reply is ever believed, over any conversation, at any transaction fewer than 65535 after the oldest one
   * whose reply is still to come.
   */
  lemma {:induction false} NoStaleReply(c: Conversation, turns: seq<Turn>, out: ReadBuffer)
    requires Valid(c, turns)
    ensures AllGenuine(c, turns, out)
    decreases |turns|
  {
    if turns != [] {
      hide Perform, Advance, Genuine, Backlog;
      AdvanceKeepsValid(c, turns, out);
      var p := Perform(c.link, turns[0].ask, out);
      if Backlog(c) < 0xFFFF {
        TransactionIsGenuine(c, turns, out);
      }
      BurstsRemain(c, turns);
      NoStaleReply(Advance(c, turns[0], out), turns[1..], p.out);
    }
  }

  lemma BurstsRemain(c: Conversation, turns: seq<Turn>)
    requires Valid(c, turns)
    ensures c.bursts != []
  {
  }

  lemma UnsentFails(l: Link, ask: Ask, out: ReadBuffer)
    requires !ask.ValidArgs() || (l.sends != [] && !l.sends[0])
    ensures Perform(l, ask, out).rc < 0 && Perform(l, ask, out).out == out
  {
    hide Ask.Adu;
  }

  /**
   * The frame a transaction reads passes its id test exactly when it answers this very request or the backlog is
   * a multiple of 65535 transactions.
   */
  lemma FrameBelievedIff(c: Conversation, turns: seq<Turn>, out: ReadBuffer)
    requires turns != [] && Valid(c, turns) && Sends(c, turns) && c.bursts[0] != []
    ensures var p := Perform(c.link, turns[0].ask, out);
            (p.rc, p.out) != (ERR_TID, out) <==> Backlog(c) % 0xFFFF == 0
    ensures Backlog(c) == 0 <==> DueNow(c, turns[0]) == [Due(c.k + 1, turns[0])]
  {
    hide Perform, Check, Replies, Reaching, Aligned, Serve, Causal, NextBursts;
    TransactionReads(c, turns, out);
    var due := DueNow(c, turns[0])[0];
    ForeignReplyRejected(turns[0].ask, c.k + 1, due, c.link.unit, Garbage(c.link), out);
  }

  lemma TransactionIsGenuine(c: Conversation, turns: seq<Turn>, out: ReadBuffer)
    requires turns != [] && Valid(c, turns) && Backlog(c) < 0xFFFF
    ensures var p := Perform(c.link, turns[0].ask, out);
            (p.rc < 0 && p.out == out) || (turns[0].ask.ValidArgs() && Genuine(p.rc, out, p.out, turns[0]))
  {
    hide Perform, Check, Genuine, Replies, Reaching, Aligned, Serve, Causal, NextBursts;
    var turn := turns[0];
    if !Sends(c, turns) {
      UnsentFails(c.link, turn.ask, out);
    } else {
      TransactionReads(c, turns, out);
      if c.bursts[0] != [] {
        FrameBelievedIff(c, turns, out);
        if Backlog(c) == 0 {
          OwnReplyIsGenuine(turn, TidAt(c.k + 1), c.link.unit, Garbage(c.link), out);
        }
      }
    }
  }

  /** What a turn does to the replies still to come. */
  lemma AdvanceDues(c: Conversation, turns: seq<Turn>, out: ReadBuffer)
    requires turns != [] && c.bursts != []
    ensures var next := Advance(c, turns[0], out);
            if Sends(c, turns) then next.k == c.k + 1 && next.pending == StillDue(c, turns[0])
            else (next.k == c.k || next.k == c.k + 1) && next.pending == c.pending
  {
    hide Perform, NextBursts, StillDue;
  }

  /** From `before` replies to come to `after`, by way of `now`. */
  lemma BehindGrows(before: seq<Due>, now: seq<Due>, after: seq<Due>, k: nat)
    requires before <= now && |now| <= |before| + 1 && (|now| > |before| ==> now[|before|].k == k + 1)
    requires Outstanding(before, k) && Outstanding(now, k + 1)
    requires after == now || (now != [] && after == now[1..])
    ensures 0 <= Behind(after, k + 1) <= Behind(before, k) + 1
  {
    hide Outstanding;
    OldestDue(before, k);
    OldestDue(now, k + 1);
  }

  lemma BacklogGrowsByOne(c: Conversation, turns: seq<Turn>, out: ReadBuffer)
    requires turns != [] && Valid(c, turns)
    ensures 0 <= Backlog(Advance(c, turns[0], out)) <= Backlog(c) + 1
  {
    hide Aligned, Replies, Reaching, TidAt, Causal, Answered, Outstanding, Advance;
    AdvanceDues(c, turns, out);
    OldestDue(c.pending, c.k);
    if Sends(c, turns) {
      DuesStayOrdered(c, turns);
      BehindGrows(c.pending, DueNow(c, turns[0]), StillDue(c, turns[0]), c.k);
    }
  }

  /** The oldest comes first. */
  lemma OldestDue(dues: seq<Due>, k: nat)
    requires Outstanding(dues, k)
    ensures dues != [] ==> 1 <= dues[0].k <= k
    ensures |dues| > 1 ==> dues[0].k < dues[1].k <= k
  {
    hide Answered;
  }

  /**
   * A transaction is answered, be it by a refusal, exactly when its request goes out, no earlier reply is still to
   * come, and a reply arrives before the client loses patience. Then none is outstanding afterwards either.
   */
  lemma AnsweredIff(c: Conversation, turns: seq<Turn>, out: ReadBuffer)
    requires turns != [] && Valid(c, turns) && Backlog(c) < 0xFFFF
    ensures Perform(c.link, turns[0].ask, out).rc >= 0
            <==> Sends(c, turns) && c.bursts[0] != [] && c.pending == []
    ensures Perform(c.link, turns[0].ask, out).rc >= 0 ==>
              Backlog(Advance(c, turns[0], out)) == 0 && !turns[0].world.Silent?
  {
    hide Perform, Check, Replies, Reaching, Aligned, Serve, Causal, NextBursts, Overwrite, Granted;
    var p := Perform(c.link, turns[0].ask, out);
    if !Sends(c, turns) {
      UnsentFails(c.link, turns[0].ask, out);
    } else {
      TransactionReads(c, turns, out);
      if c.bursts[0] != [] {
        FrameBelievedIff(c, turns, out);
        TransactionIsGenuine(c, turns, out);
        if c.pending == [] {
          OwnReplyIsGenuine(turns[0], TidAt(c.k + 1), c.link.unit, Garbage(c.link), out);
        }
      }
    }
  }

  /** Every transaction of the run fails, with the buffer untouched. */
  ghost predicate AllFail(c: Conversation, turns: seq<Turn>, out: ReadBuffer)
    requires c.bursts != []
    decreases |turns|
  {
    turns != [] ==>
      var p := Perform(c.link, turns[0].ask, out);
      var c' := Advance(c, turns[0], out);
      p.rc < 0 && p.out == out && c'.bursts != [] && AllFail(c', turns[1..], out)
  }

  /**
   * One reply that comes too late dooms the connection for as long as the device goes on answering: each request
   * that goes out finds, at best, the reply to an earlier one, and only a request left in silence, or a new
   * connection, gets rid of it.
   */
  lemma {:induction false} LateReplyDooms(c: Conversation, turns: seq<Turn>, out: ReadBuffer)
    requires Valid(c, turns) && 0 < Backlog(c) && Backlog(c) + |turns| <= 0xFFFF
    requires forall i :: 0 <= i < |turns| ==> !turns[i].world.Silent?
    ensures c.bursts != [] && AllFail(c, turns, out)
    decreases |turns|
  {
    hide Valid, Perform, Advance, Backlog;
    BurstsRemain(c, turns);
    if turns != [] {
      AnsweredIff(c, turns, out);
      TransactionIsGenuine(c, turns, out);
      AdvanceKeepsValid(c, turns, out);
      BacklogGrowsByOne(c, turns, out);
      StaysBehind(c, turns, out);
      if turns[0].ask.ValidArgs() {
        GenuineIsAnswer(turns[0], Perform(c.link, turns[0].ask, out), out);
      }
      var next := Advance(c, turns[0], out);
      BurstsRemain(next, turns[1..]);
      LateReplyDooms(next, turns[1..], out);
    }
  }

  /** After a request left in silence the next one, answered in time, is believed: silence dooms nothing. */
  lemma SilenceRecovers(unit: byte, silent: Turn, turn: Turn, out: ReadBuffer) returns (c: Conversation)
    requires silent.ask.ValidArgs() && silent.world.Silent? && turn.ask.ValidArgs() && !turn.world.Silent?
    ensures Valid(c, [silent, turn]) && c.k == 0 && c.bursts != []
    ensures var first := Perform(c.link, silent.ask, out); first.rc < 0 && first.out == out
    ensures var c' := Advance(c, silent, out);
            var second := Perform(c'.link, turn.ask, out);
            Genuine(second.rc, out, second.out, turn)
  {
    hide Perform, Valid, Serves, Genuine, Arriving, Deliver, Aligned;
    var turns := [silent, turn];
    var script := Deliver(Arriving(unit, 0, [], [], turns, [false, true]), [], []);
    var link := Link(true, unit, 0, [], script, [], []);
    var bursts := ConversationArises(link, turns, [false, true], [], []);
    c := Fresh(link, bursts);
    assert turns[1..] == [turn] && [false, true][1..] == [true];
    assert Paced(0, [], [turn], NextBursts(bursts), [true]);
    AnsweredIff(c, turns, out);
    TransactionIsGenuine(c, turns, out);
    GenuineIsAnswer(silent, Perform(c.link, silent.ask, out), out);
    AdvanceKeepsValid(c, turns, out);
    var c' := Advance(c, silent, out);
    PerformKeeps(c.link, silent.ask, out);
    AnsweredIff(c', [turn], out);
    TransactionIsGenuine(c', [turn], out);
  }

  lemma StaysBehind(c: Conversation, turns: seq<Turn>, out: ReadBuffer)
    requires turns != [] && Valid(c, turns) && !turns[0].world.Silent?
    ensures Backlog(c) > 0 <==> c.pending != []
    ensures c.pending != [] ==> Backlog(Advance(c, turns[0], out)) > 0
  {
    hide Aligned, Replies, Reaching, TidAt, Causal, Answered, Outstanding, Advance;
    AdvanceDues(c, turns, out);
    OldestDue(c.pending, c.k);
    if Sends(c, turns) {
      DuesStayOrdered(c, turns);
      OldestDue(StillDue(c, turns[0]), c.k + 1);
    }
  }

  lemma GenuineIsAnswer(turn: Turn, p: Performed, out: ReadBuffer)
    requires turn.ask.ValidArgs()
    ensures Genuine(p.rc, out, p.out, turn) ==> p.rc >= 0
  {
  }

  // ---------- The bound is sharp

  /** The conversation after these turns. */
  function Advanced(c: Conversation, turns: seq<Turn>, out: ReadBuffer): Conversation
    requires c.bursts != []
    decreases |turns|
  {
    if turns == [] then c
    else
      var next := Advance(c, turns[0], out);
      if next.bursts == [] then next else Advanced(next, turns[1..], out)
  }

  lemma LostRequestAdvances(c: Conversation, turn: Turn, out: ReadBuffer)
    requires c.bursts != [] && c.link.open && c.link.stacks == [] && c.link.tid == TidAt(c.k)
    requires turn.ask.ValidArgs() && c.link.sends != [] && !c.link.sends[0]
    ensures Advance(c, turn, out)
            == c.(link := c.link.(tid := TidAt(c.k + 1), sends := c.link.sends[1..]), k := c.k + 1)
  {
    hide TidAt, NextTid, Ask.Adu, RecvResponse, Check;
    NextTidCounts(c.k);
  }

  /** Turns whose requests are lost only move the id on. */
  lemma {:induction false} LostRequestsAdvance(c: Conversation, turns: seq<Turn>, out: ReadBuffer)
    requires c.bursts != [] && c.link.open && c.link.stacks == [] && c.link.tid == TidAt(c.k)
    requires |turns| <= |c.link.sends| && forall i :: 0 <= i < |turns| ==> turns[i].ask.ValidArgs() && !c.link.sends[i]
    ensures var n := |turns|;
            Advanced(c, turns, out)
            == c.(link := c.link.(tid := TidAt(c.k + n), sends := c.link.sends[n..]), k := c.k + n)
    decreases |turns|
  {
    hide TidAt, Advance;
    if turns != [] {
      LostRequestAdvances(c, turns[0], out);
      LostRequestsAdvance(Advance(c, turns[0], out), turns[1..], out);
      assert c.link.sends[1..][|turns| - 1..] == c.link.sends[|turns|..];
    } else {
      assert c.link.sends[0..] == c.link.sends;
    }
  }

  /** A connection whose first reply comes too late, and whose next 65534 requests are lost. */
  function LateLink(unit: byte, stale: Turn): Link
    requires Answered(Due(1, stale))
  {
    Link(true, unit, 0, [true] + LostSends(), [Fail(true), Data(LateReply(unit, stale))], [], [])
  }

  function LostSends(): seq<bool> { seq(0xFFFE, _ => false) }

  function LateReply(unit: byte, stale: Turn): Chunk
    requires Answered(Due(1, stale))
  {
    ReplyIsFrame(stale.ask, TidAt(1), unit, stale.world, Filled(0));
    ReplyTo(unit, Due(1, stale))
  }

  function LateStart(unit: byte, stale: Turn): Conversation
    requires Answered(Due(1, stale))
  {
    Fresh(LateLink(unit, stale), [[], [LateReply(unit, stale)]])
  }

  /** After `k` transactions, with the first one's reply still to come. */
  function LateAfter(unit: byte, stale: Turn, k: nat, sends: seq<bool>): Conversation
    requires Answered(Due(1, stale))
  {
    Conversation(Link(true, unit, TidAt(k), sends, [Data(LateReply(unit, stale))], [stale.ask.Adu(TidAt(1), unit)], []),
                 k, [Due(1, stale)], [[LateReply(unit, stale)]])
  }

  lemma LateFirstTurn(unit: byte, stale: Turn, out: ReadBuffer)
    requires Answered(Due(1, stale))
    ensures Advance(LateStart(unit, stale), stale, out) == LateAfter(unit, stale, 1, LostSends())
  {
    hide Ask.Adu, Serve, LostSends, LateReply, TidAt;
    NextTidCounts(0);
    assert TidAt(0) == 0 by { ZeroTid(); }
    var l := LateLink(unit, stale);
    assert l.sends[1..] == LostSends();
    assert RecvResponse(l.script) == Received(-2, [], l.script[1..]);
    assert l.script[1..] == [Data(LateReply(unit, stale))];
    assert [] + [stale.ask.Adu(TidAt(1), unit)] == [stale.ask.Adu(TidAt(1), unit)];
    assert [] + [Due(1, stale)] == [Due(1, stale)];
  }

  lemma ZeroTid()
    ensures TidAt(0) == 0
  {
  }

  /** One frame, in one chunk. */
  lemma OneFrameAligned(frame: Chunk)
    requires IsAdu(frame)
    ensures Aligned([Data(frame)], [[frame]]) && Aligned([Fail(true), Data(frame)], [[], [frame]])
    ensures Concat<seq<byte>>([[frame]]) == [frame] && Concat<seq<byte>>([[], [frame]]) == [frame]
  {
    hide IsAdu, Torn;
    NothingTorn();
    var script: seq<Event> := [Data(frame)];
    assert script[1..] == [] && Burst([]) == [] && frame + [] == frame;
    assert Concat([frame]) == frame + Concat([]) == frame;
    assert frame[|frame|..] == [];
    assert [[frame]][1..] == [];
    assert [frame] + [] == [frame];
    assert [[], [frame]][1..] == [[frame]];
    assert [] + [frame] == [frame];
    assert [Fail(true), Data(frame)][1..] == script;
  }

  lemma FirstReply(unit: byte, dues: seq<Due>)
    requires dues != [] && forall d :: d in dues ==> Answered(d)
    ensures [ReplyTo(unit, dues[0])] <= Replies(unit, dues)
  {
    hide Serve;
  }

  lemma FirstReaching(k: nat, sends: seq<bool>, turns: seq<Turn>)
    requires turns != [] && Answered(Due(k + 1, turns[0])) && (sends == [] || sends[0])
    ensures Reaching(k, sends, turns) != [] && Reaching(k, sends, turns)[0] == Due(k + 1, turns[0])
  {
  }

  lemma LateReplyIsFrame(unit: byte, stale: Turn)
    requires Answered(Due(1, stale))
    ensures IsAdu(LateReply(unit, stale)) && LateReply(unit, stale) == ReplyTo(unit, Due(1, stale))
  {
    ReplyIsFrame(stale.ask, TidAt(1), unit, stale.world, Filled(0));
  }

  /** Lost requests, and then any one turn: the late reply comes after its request. */
  lemma {:induction false} LateIsCausal(unit: byte, stale: Turn, lost: seq<Turn>, now: Turn)
    requires Answered(Due(1, stale)) && now.ask.ValidArgs() && forall i :: 0 <= i < |lost| ==> lost[i].ask.ValidArgs()
    ensures Causal(1, seq(|lost|, _ => false), lost + [now], [[LateReply(unit, stale)]])
    decreases |lost|
  {
    hide LateReply;
    var turns, sends := lost + [now], seq(|lost|, _ => false);
    if lost == [] {
      assert turns == [now] && turns[1..] == [];
    } else {
      LateIsCausal(unit, stale, lost[1..], now);
      assert turns[1..] == lost[1..] + [now];
      assert sends[1..] == seq(|lost[1..]|, _ => false);
    }
  }

  lemma LateStartValid(unit: byte, stale: Turn, lost: seq<Turn>, now: Turn)
    requires Answered(Due(1, stale)) && now.ask.ValidArgs()
    requires |lost| == 0xFFFE && forall i :: 0 <= i < |lost| ==> lost[i].ask.ValidArgs()
    ensures Valid(LateStart(unit, stale), [stale] + lost + [now])
  {
    hide Aligned, Replies, Reaching, ReplyTo, LateReply, Concat, IsAdu;
    LateReplyIsFrame(unit, stale);
    OneFrameAligned(LateReply(unit, stale));
    var link, turns := LateLink(unit, stale), [stale] + lost + [now];
    FirstReaching(0, link.sends, turns);
    FirstReply(unit, Reaching(0, link.sends, turns));
    assert turns[1..] == lost + [now];
    assert link.sends[1..] == LostSends() == seq(|lost|, _ => false);
    LateIsCausal(unit, stale, lost, now);
    FreshIsValid(link, LateStart(unit, stale).bursts, turns);
  }

  lemma LateAfterValid(unit: byte, stale: Turn, now: Turn)
    requires Answered(Due(1, stale)) && now.ask.ValidArgs()
    ensures Valid(LateAfter(unit, stale, 0xFFFF, []), [now])
  {
    hide Aligned, Replies, Reaching, ReplyTo, LateReply, Concat, IsAdu, Ask.Adu;
    LateReplyIsFrame(unit, stale);
    OneFrameAligned(LateReply(unit, stale));
    FirstReply(unit, [Due(1, stale)] + Reaching(0xFFFF, [], [now]));
    LateIsCausal(unit, stale, [], now);
    assert [] + [now] == [now];
  }

  /**
   * The bound cannot be raised, and counting outstanding replies instead of transactions will not do: on a valid
   * connection with one reply outstanding, transaction 65536 takes it, and reports what the device said to the first.
   */
  lemma LateReplyBelieved(unit: byte, stale: Turn, lost: seq<Turn>, now: Turn, out: ReadBuffer)
    requires Answered(Due(1, stale)) && now.ask == stale.ask
    requires |lost| == 0xFFFE && forall i :: 0 <= i < |lost| ==> lost[i].ask.ValidArgs()
    ensures Valid(LateStart(unit, stale), [stale] + lost + [now])
    ensures var c := Advanced(LateStart(unit, stale), [stale] + lost, out);
            var p := Perform(c.link, now.ask, out);
            |c.pending| == 1 && Backlog(c) == 0xFFFF && Valid(c, [now]) && Genuine(p.rc, out, p.out, stale)
  {
    hide Perform, Check, Genuine, Valid, Advance, LateStart, Serve, Reaching, Replies, Ask.Adu;
    var turns := [stale] + lost;
    LateStartValid(unit, stale, lost, now);
    BurstsRemain(LateStart(unit, stale), turns + [now]);
    LateFirstTurn(unit, stale, out);
    var first := LateAfter(unit, stale, 1, LostSends());
    assert turns[1..] == lost;
    LostRequestsAdvance(first, lost, out);
    var c := LateAfter(unit, stale, 0xFFFF, []);
    assert LostSends()[0xFFFE..] == [];
    assert Advanced(LateStart(unit, stale), turns, out) == c;
    LateAfterValid(unit, stale, now);
    TransactionReads(c, [now], out);
    TidsAgree(1, 0x1_0000);
    OwnReplyIsGenuine(stale, TidAt(1), unit, Garbage(c.link), out);
  }
}
