/**
 * The Modbus TCP frames that cross the wire: request builders and reply builder
 * as byte-filling methods, the server's request parser, and the round trips
 * between them.
 */
module Codec {
  import opened Bytes

  const FC_READ_HOLDING_REGISTERS: byte := 0x03
  const FC_WRITE_SINGLE_REGISTER: byte := 0x06
  const FC_WRITE_MULTIPLE_REGISTERS: byte := 0x10
  const EXCEPTION_FLAG: byte := 0x80
  const MBAP_LEN: nat := 6
  const STANDARD_REQUEST_LEN: nat := 12
  const MAX_ADU_LEN: nat := 260
  const MAX_READ_REGISTERS: nat := 125
  const MAX_WRITE_REGISTERS: nat := 123

  // ---------- Frames as byte sequences

  /** Transaction id, protocol id 0, length, unit id and function code. */
  function Header(tid: u16, length: u16, unit: byte, fc: byte): seq<byte> {
    [Hi(tid), Lo(tid), 0, 0, Hi(length), Lo(length), unit, fc]
  }

  function StandardRequest(tid: u16, unit: byte, fc: byte, addr: u16, word: u16): (f: seq<byte>)
    ensures |f| == STANDARD_REQUEST_LEN
  {
    Header(tid, 6, unit, fc) + [Hi(addr), Lo(addr), Hi(word), Lo(word)]
  }

  /** Two big-endian bytes per register. */
  function RegisterBytes(data: seq<u16>): (bytes: seq<byte>)
    ensures |bytes| == 2 * |data|
  {
    if data == [] then []
    else RegisterBytes(data[..|data| - 1]) + [Hi(data[|data| - 1]), Lo(data[|data| - 1])]
  }

  function DecodeRegisters(bytes: seq<byte>, qty: nat): (data: seq<u16>)
    requires 2 * qty <= |bytes|
    ensures |data| == qty
    ensures forall i :: 0 <= i < qty ==> data[i] == Word(bytes[2 * i], bytes[2 * i + 1])
  {
    if qty == 0 then [] else DecodeRegisters(bytes, qty - 1) + [Word(bytes[2 * qty - 2], bytes[2 * qty - 1])]
  }

  /** The byte count of a write request, cut to its one byte. */
  function ByteCount(data: seq<u16>): byte { 2 * |data| % 0x100 }

  /** What the builder puts in the buffer; more than 127 registers overflow the byte count. */
  function MultipleRequest(tid: u16, unit: byte, addr: u16, data: seq<u16>): seq<byte>
    requires |data| < 0x1_0000
  {
    Header(tid, 7 + ByteCount(data), unit, FC_WRITE_MULTIPLE_REGISTERS)
    + [Hi(addr), Lo(addr), Hi(|data|), Lo(|data|), ByteCount(data)] + RegisterBytes(data)
  }

  function ReadReply(tid: u16, fc: byte, unit: byte, data: seq<u16>): seq<byte>
    requires |data| <= MAX_READ_REGISTERS
  {
    Header(tid, 3 + 2 * |data|, unit, fc) + [2 * |data|] + RegisterBytes(data)
  }

  // ---------- The same, byte by byte

  lemma StandardRequestBytes(tid: u16, unit: byte, fc: byte, addr: u16, word: u16)
    ensures StandardRequest(tid, unit, fc, addr, word)
            == [tid / 256, tid % 256, 0, 0, 0, 6, unit, fc, addr / 256, addr % 256, word / 256, word % 256]
  {
  }

  lemma {:induction false} RegisterBytesAt(data: seq<u16>, i: nat)
    requires i < |data|
    ensures RegisterBytes(data)[2 * i] == Hi(data[i]) && RegisterBytes(data)[2 * i + 1] == Lo(data[i])
  {
    hide Hi, Lo;
    var n := |data| - 1;
    if i < n {
      RegisterBytesAt(data[..n], i);
    }
  }

  /** High byte first, from `at` on. */
  ghost predicate HoldsRegisters(f: seq<byte>, at: nat, data: seq<u16>) {
    |f| == at + 2 * |data|
    && forall i :: 0 <= i < |data| ==> f[at + 2 * i] == data[i] / 256 && f[at + 2 * i + 1] == data[i] % 256
  }

  lemma RegistersHeld(head: seq<byte>, data: seq<u16>)
    ensures HoldsRegisters(head + RegisterBytes(data), |head|, data)
  {
    hide RegisterBytes;
    forall i | 0 <= i < |data|
      ensures RegisterBytes(data)[2 * i] == data[i] / 256 && RegisterBytes(data)[2 * i + 1] == data[i] % 256
    {
      RegisterBytesAt(data, i);
    }
  }

  lemma MultipleRequestBytes(tid: u16, unit: byte, addr: u16, data: seq<u16>)
    requires |data| < 0x1_0000
    ensures var f := MultipleRequest(tid, unit, addr, data);
            && |f| >= 13
            && f[..13] == [tid / 256, tid % 256, 0, 0, (7 + 2 * |data| % 256) / 256, (7 + 2 * |data| % 256) % 256, unit,
                           16, addr / 256, addr % 256, |data| / 256, |data| % 256, 2 * |data| % 256]
            && HoldsRegisters(f, 13, data)
  {
    var head := Header(tid, 7 + ByteCount(data), unit, 16)
                + [Hi(addr), Lo(addr), Hi(|data|), Lo(|data|), ByteCount(data)];
    RegistersHeld(head, data);
    hide RegisterBytes, HoldsRegisters;
    assert MultipleRequest(tid, unit, addr, data) == head + RegisterBytes(data);
  }

  lemma ReadReplyBytes(tid: u16, fc: byte, unit: byte, data: seq<u16>)
    requires |data| <= MAX_READ_REGISTERS
    ensures var f := ReadReply(tid, fc, unit, data);
            && |f| >= 9
            && f[..9] == [tid / 256, tid % 256, 0, 0, (3 + 2 * |data|) / 256, (3 + 2 * |data|) % 256, unit, fc,
                          2 * |data|]
            && HoldsRegisters(f, 9, data)
  {
    var head := Header(tid, 3 + 2 * |data|, unit, fc) + [2 * |data|];
    RegistersHeld(head, data);
    hide RegisterBytes, HoldsRegisters;
    assert ReadReply(tid, fc, unit, data) == head + RegisterBytes(data);
  }

  // ---------- Builders

  /** A big-endian word at `at`, as the builders store every one of theirs. */
  method PutWord(w: u16, buf: array<byte>, at: nat)
    requires at + 2 <= buf.Length
    modifies buf
    ensures buf[..] == Overwrite(old(buf[..]), at, [Hi(w), Lo(w)])
  {
    buf[at] := Hi(w);
    buf[at + 1] := Lo(w);
  }

  method PutByte(b: byte, buf: array<byte>, at: nat)
    requires at < buf.Length
    modifies buf
    ensures buf[..] == Overwrite(old(buf[..]), at, [b])
  {
    buf[at] := b;
  }

  method PutHeader(tid: u16, length: u16, unit: byte, fc: byte, buf: array<byte>)
    requires buf.Length >= 8
    modifies buf
    ensures buf[..] == Overwrite(old(buf[..]), 0, Header(tid, length, unit, fc))
  {
    hide Overwrite, Hi, Lo;
    ghost var was := buf[..];
    PutWord(tid, buf, 0);
    PutWord(0, buf, 2);
    OverwriteInTwo(was, 0, [Hi(tid), Lo(tid)], [Hi(0), Lo(0)]);
    ghost var four := [Hi(tid), Lo(tid)] + [Hi(0), Lo(0)];
    PutWord(length, buf, 4);
    OverwriteInTwo(was, 0, four, [Hi(length), Lo(length)]);
    ghost var six := four + [Hi(length), Lo(length)];
    PutByte(unit, buf, 6);
    OverwriteInTwo(was, 0, six, [unit]);
    PutByte(fc, buf, 7);
    OverwriteInTwo(was, 0, six + [unit], [fc]);
    assert Hi(0) == 0 && Lo(0) == 0 by { ZeroWord(); }
    assert six + [unit] + [fc] == Header(tid, length, unit, fc);
  }

  lemma ZeroWord()
    ensures Hi(0) == 0 && Lo(0) == 0
  {
  }

  /** The FC03 and FC06 requests: the frame in front, and nothing past it. */
  method BuildRequest(tid: u16, unit: byte, fc: byte, addr: u16, word: u16, buf: array<byte>)
    requires buf.Length >= STANDARD_REQUEST_LEN
    modifies buf
    ensures buf[..] == Overwrite(old(buf[..]), 0, StandardRequest(tid, unit, fc, addr, word))
    ensures buf[..12] == [tid / 256, tid % 256, 0, 0, 0, 6, unit, fc, addr / 256, addr % 256, word / 256, word % 256]
    ensures buf[12..] == old(buf[12..])
  {
    hide Overwrite, Hi, Lo, Header;
    ghost var was := buf[..];
    ghost var header := Header(tid, 6, unit, fc);
    PutHeader(tid, 6, unit, fc, buf);
    PutWord(addr, buf, 8);
    HeaderLength(tid, 6, unit, fc);
    OverwriteInTwo(was, 0, header, [Hi(addr), Lo(addr)]);
    PutWord(word, buf, 10);
    OverwriteInTwo(was, 0, header + [Hi(addr), Lo(addr)], [Hi(word), Lo(word)]);
    assert header + [Hi(addr), Lo(addr)] + [Hi(word), Lo(word)] == StandardRequest(tid, unit, fc, addr, word);
    StandardRequestBytes(tid, unit, fc, addr, word);
    InFront(was, StandardRequest(tid, unit, fc, addr, word), buf);
  }

  lemma HeaderLength(tid: u16, length: u16, unit: byte, fc: byte)
    ensures |Header(tid, length, unit, fc)| == 8
  {
  }

  /** The data loop shared by the FC16 request and the FC03 reply. */
  method PutRegisters(data: seq<u16>, buf: array<byte>, at: nat)
    requires at + 2 * |data| <= buf.Length
    modifies buf
    ensures buf[..] == Overwrite(old(buf[..]), at, RegisterBytes(data))
  {
    hide Overwrite, Hi, Lo;
    ghost var was := buf[..];
    OverwriteNothing(was, at);
    for i := 0 to |data|
      invariant buf[..] == Overwrite(was, at, RegisterBytes(data[..i]))
    {
      RegisterBytesOneMore(data, i);
      OverwriteInTwo(was, at, RegisterBytes(data[..i]), [Hi(data[i]), Lo(data[i])]);
      PutWord(data[i], buf, at + 2 * i);
    }
    assert data[..|data|] == data;
  }

  lemma RegisterBytesOneMore(data: seq<u16>, i: nat)
    requires i < |data|
    ensures RegisterBytes(data[..i + 1]) == RegisterBytes(data[..i]) + [Hi(data[i]), Lo(data[i])]
  {
    assert data[..i + 1][..i] == data[..i];
  }

  /** The FC16 request. The returned length counts the data only as far as the byte count does. */
  method BuildMultipleRequest(tid: u16, unit: byte, addr: u16, data: seq<u16>, buf: array<byte>) returns (len: nat)
    requires |data| < 0x1_0000
    requires buf.Length >= MBAP_LEN + 7 + 2 * |data|
    modifies buf
    ensures len == MBAP_LEN + 7 + ByteCount(data)
    ensures buf[..] == Overwrite(old(buf[..]), 0, MultipleRequest(tid, unit, addr, data))
    ensures var n, length := |data|, 7 + 2 * |data| % 256;
            && buf[..13] == [tid / 256, tid % 256, 0, 0, length / 256, length % 256, unit, 16,
                             addr / 256, addr % 256, n / 256, n % 256, 2 * n % 256]
            && HoldsRegisters(buf[..13 + 2 * n], 13, data) && buf[13 + 2 * n..] == old(buf[13 + 2 * n..])
  {
    hide Overwrite, Hi, Lo, Header, HoldsRegisters;
    var qty: u16 := |data|;
    var byteCount: byte := (qty * 2) % 0x100;
    var mbapLen: u16 := 7 + byteCount;
    ghost var was := buf[..];
    PutHeader(tid, mbapLen, unit, FC_WRITE_MULTIPLE_REGISTERS, buf);
    HeaderLength(tid, mbapLen, unit, FC_WRITE_MULTIPLE_REGISTERS);
    ghost var header := Header(tid, mbapLen, unit, FC_WRITE_MULTIPLE_REGISTERS);
    PutWord(addr, buf, 8);
    OverwriteInTwo(was, 0, header, [Hi(addr), Lo(addr)]);
    PutWord(qty, buf, 10);
    ghost var ten := header + [Hi(addr), Lo(addr)];
    OverwriteInTwo(was, 0, ten, [Hi(qty), Lo(qty)]);
    PutByte(byteCount, buf, 12);
    OverwriteInTwo(was, 0, ten + [Hi(qty), Lo(qty)], [byteCount]);
    ghost var head := ten + [Hi(qty), Lo(qty)] + [byteCount];
    PutRegisters(data, buf, 13);
    OverwriteInTwo(was, 0, head, RegisterBytes(data));
    assert head == header + [Hi(addr), Lo(addr), Hi(|data|), Lo(|data|), ByteCount(data)];
    len := MBAP_LEN + mbapLen;
    ghost var f := MultipleRequest(tid, unit, addr, data);
    assert head + RegisterBytes(data) == f;
    MultipleRequestBytes(tid, unit, addr, data);
    FrameInFront(was, f, 13, data, buf);
  }

  lemma FrameInFront(was: seq<byte>, f: seq<byte>, head: nat, data: seq<u16>, buf: array<byte>)
    requires |f| <= |was| && buf[..] == Overwrite(was, 0, f) && HoldsRegisters(f, head, data)
    ensures |was| == buf.Length && |f| == head + 2 * |data|
    ensures buf[..head] == f[..head] && HoldsRegisters(buf[..|f|], head, data) && buf[|f|..] == was[|f|..]
  {
    hide HoldsRegisters, Overwrite;
    InFront(was, f, buf);
    HeldLength(f, head, data);
  }

  lemma HeldLength(f: seq<byte>, at: nat, data: seq<u16>)
    requires HoldsRegisters(f, at, data)
    ensures |f| == at + 2 * |data|
  {
  }

  /** What overwriting the front of a buffer means for the buffer. */
  lemma InFront(was: seq<byte>, f: seq<byte>, buf: array<byte>)
    requires |f| <= |was| && buf[..] == Overwrite(was, 0, f)
    ensures |was| == buf.Length && buf[..|f|] == f && buf[|f|..] == was[|f|..]
  {
    OverwriteFront(was, f);
    assert buf[..|f|] == buf[..][..|f|] && buf[|f|..] == buf[..][|f|..];
  }

  /** The announced length is the frame's own exactly up to 127 registers, four more than the client lets through. */
  lemma MultipleRequestWholeIff(tid: u16, unit: byte, addr: u16, data: seq<u16>)
    requires |data| < 0x1_0000
    ensures MBAP_LEN + 7 + ByteCount(data) == |MultipleRequest(tid, unit, addr, data)| <==> |data| <= 127
  {
    hide Hi, Lo, RegisterBytes;
    assert |MultipleRequest(tid, unit, addr, data)| == 13 + 2 * |data|;
  }

  /** Server side: returns the frame length, or -1 when the quantity or the buffer is out of range. */
  method BuildReadReply(tid: u16, fc: byte, unit: byte, data: seq<u16>, quantity: u16, buf: array<byte>)
    returns (total: int)
    requires quantity <= |data|
    modifies buf
    ensures (total == -1) == (quantity > MAX_READ_REGISTERS || buf.Length < 9 + 2 * quantity)
    ensures total == -1 ==> buf[..] == old(buf[..])
    ensures total != -1 ==> total == 9 + 2 * quantity
                            && buf[..] == Overwrite(old(buf[..]), 0, ReadReply(tid, fc, unit, data[..quantity]))
    ensures total != -1 ==>
              var length := 3 + 2 * quantity;
              && buf[..9] == [tid / 256, tid % 256, 0, 0, length / 256, length % 256, unit, fc, 2 * quantity]
              && HoldsRegisters(buf[..total], 9, data[..quantity]) && buf[total..] == old(buf[total..])
  {
    hide Overwrite, Hi, Lo, Header, HoldsRegisters;
    if quantity > 125 {
      return -1;
    }
    var mbapLen := 1 + 1 + 1 + quantity * 2;
    total := MBAP_LEN + mbapLen;
    if buf.Length < total {
      return -1;
    }
    ghost var was := buf[..];
    PutHeader(tid, mbapLen, unit, fc, buf);
    HeaderLength(tid, mbapLen, unit, fc);
    ghost var header := Header(tid, mbapLen, unit, fc);
    var byteCount: byte := quantity * 2;
    PutByte(byteCount, buf, 8);
    OverwriteInTwo(was, 0, header, [byteCount]);
    PutRegisters(data[..quantity], buf, 9);
    OverwriteInTwo(was, 0, header + [byteCount], RegisterBytes(data[..quantity]));
    ghost var f := ReadReply(tid, fc, unit, data[..quantity]);
    ReadReplyBytes(tid, fc, unit, data[..quantity]);
    FrameInFront(was, f, 9, data[..quantity], buf);
  }

  // ---------- Parser

  datatype Request = Request(fc: byte, addr: u16, qty: u16)

  function ParseRequest(request: seq<byte>): Option<Request> {
    if |request| < MBAP_LEN then None
    else
      var mbapLen := Word(request[4], request[5]);
      if mbapLen < 6 || mbapLen > MAX_ADU_LEN - MBAP_LEN || |request| < MBAP_LEN + mbapLen then None
      else
        var fc := request[7];
        var addr := Word(request[8], request[9]);
        Some(Request(fc, addr, if fc == FC_WRITE_SINGLE_REGISTER then 1 else Word(request[10], request[11])))
  }

  /** When a frame is a request, and which: word by word. */
  lemma ParseRequestMeans(f: seq<byte>)
    ensures ParseRequest(f).None? <==>
              |f| < 6 || var length := f[4] as int * 256 + f[5]; length < 6 || length > 254 || |f| < 6 + length
    ensures ParseRequest(f).Some? ==>
              var r := ParseRequest(f).value;
              && |f| >= 12 && r.fc == f[7] && r.addr == f[8] as int * 256 + f[9]
              && r.qty == if f[7] == 6 then 1 else f[10] as int * 256 + f[11]
  {
  }

  lemma DecodeMeans(bytes: seq<byte>, qty: nat)
    requires 2 * qty <= |bytes|
    ensures |DecodeRegisters(bytes, qty)| == qty
    ensures forall i :: 0 <= i < qty ==> DecodeRegisters(bytes, qty)[i] == bytes[2 * i] as int * 256 + bytes[2 * i + 1]
  {
    hide DecodeRegisters;
  }

  // ---------- Round trips

  lemma DecodeInvertsRegisterBytes(data: seq<u16>, tail: seq<byte>)
    ensures DecodeRegisters(RegisterBytes(data) + tail, |data|) == data
  {
    hide Hi, Lo, Word, RegisterBytes, DecodeRegisters;
    var bytes := RegisterBytes(data) + tail;
    forall i | 0 <= i < |data| ensures Word(bytes[2 * i], bytes[2 * i + 1]) == data[i] {
      RegisterBytesAt(data, i);
      SplitJoin(data[i]);
    }
  }

  /** What the parser makes of a whole frame, given the words it carries. */
  lemma ParseWords(f: seq<byte>, length: u16, addr: u16, qty: u16)
    requires 6 <= length <= MAX_ADU_LEN - MBAP_LEN && |f| == MBAP_LEN + length
    requires f[4] == Hi(length) && f[5] == Lo(length)
    requires f[8] == Hi(addr) && f[9] == Lo(addr) && f[10] == Hi(qty) && f[11] == Lo(qty)
    ensures ParseRequest(f) == Some(Request(f[7], addr, if f[7] == FC_WRITE_SINGLE_REGISTER then 1 else qty))
  {
    hide Hi, Lo, Word;
    SplitJoin(length);
    SplitJoin(addr);
    SplitJoin(qty);
  }

  /**
   * The fixed-size requests parse back to the client's own arguments (FC06 always asks for one register),
   * and carry the id, the unit and the quantity or value in their places.
   */
  lemma StandardRequestRoundTrip(tid: u16, unit: byte, fc: byte, addr: u16, word: u16)
    ensures var f := StandardRequest(tid, unit, fc, addr, word);
            ParseRequest(f) == Some(Request(fc, addr, if fc == FC_WRITE_SINGLE_REGISTER then 1 else word))
            && |f| == STANDARD_REQUEST_LEN && Word(f[0], f[1]) == tid && f[6] == unit && Word(f[10], f[11]) == word
  {
    assert Hi(6) == 0 && Lo(6) == 6;
    hide Hi, Lo, Word;
    SplitJoin(tid);
    SplitJoin(word);
    ParseWords(StandardRequest(tid, unit, fc, addr, word), 6, addr, word);
  }

  lemma MultipleRequestLength(tid: u16, unit: byte, addr: u16, data: seq<u16>)
    requires |data| <= MAX_WRITE_REGISTERS
    ensures |MultipleRequest(tid, unit, addr, data)| == MBAP_LEN + 7 + ByteCount(data) == 13 + 2 * |data| <= MAX_ADU_LEN
  {
    hide Hi, Lo, RegisterBytes;
  }

  lemma MultipleRequestLayout(tid: u16, unit: byte, addr: u16, data: seq<u16>)
    requires |data| <= MAX_WRITE_REGISTERS
    ensures var f := MultipleRequest(tid, unit, addr, data);
            |f| == 13 + 2 * |data| && f[12] == 2 * |data| && f[13..] == RegisterBytes(data)
            && f[0] == Hi(tid) && f[1] == Lo(tid) && f[6] == unit && f[7] == FC_WRITE_MULTIPLE_REGISTERS
            && f[4] == Hi(7 + 2 * |data|) && f[5] == Lo(7 + 2 * |data|)
            && f[8] == Hi(addr) && f[9] == Lo(addr) && f[10] == Hi(|data|) && f[11] == Lo(|data|)
  {
    hide Hi, Lo, RegisterBytes;
  }

  /** An FC16 request parses back, fits an ADU, and its payload decodes to the values to be written. */
  lemma MultipleRequestRoundTrip(tid: u16, unit: byte, addr: u16, data: seq<u16>)
    requires 1 <= |data| <= MAX_WRITE_REGISTERS
    ensures var f := MultipleRequest(tid, unit, addr, data);
            ParseRequest(f) == Some(Request(FC_WRITE_MULTIPLE_REGISTERS, addr, |data|))
            && f[12] == 2 * |data| && |f| == 13 + f[12] <= MAX_ADU_LEN
            && DecodeRegisters(f[13..], |data|) == data
  {
    hide Hi, Lo, Word, ParseRequest, DecodeRegisters, MultipleRequest, RegisterBytes;
    MultipleRequestLayout(tid, unit, addr, data);
    var f := MultipleRequest(tid, unit, addr, data);
    ParseWords(f, 7 + 2 * |data|, addr, |data|);
    DecodeInvertsRegisterBytes(data, []);
    assert RegisterBytes(data) + [] == f[13..];
  }
}
