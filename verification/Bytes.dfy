/** Fixed-width words, the way the C code splits and joins them. */
module Bytes {
  type byte = x: int | 0 <= x < 0x100
  type u16 = x: int | 0 <= x < 0x1_0000

  datatype Option<+T> = None | Some(value: T)

  /** The high byte: `w >> 8`. */
  function Hi(w: u16): byte { w / 0x100 }

  /** The low byte: `w & 0xFF`. */
  function Lo(w: u16): byte { w % 0x100 }

  /** Big-endian join: `(hi << 8) | lo`. */
  function Word(hi: byte, lo: byte): u16 { hi * 0x100 + lo }

  lemma JoinSplit(hi: byte, lo: byte)
    ensures Hi(Word(hi, lo)) == hi && Lo(Word(hi, lo)) == lo
  {
  }

  lemma SplitJoin(w: u16)
    ensures Word(Hi(w), Lo(w)) == w
  {
  }

  /** `buffer` with `bytes` stored from index `at` on: a memcpy into the middle. */
  function Overwrite<T>(buffer: seq<T>, at: nat, bytes: seq<T>): (r: seq<T>)
    requires at + |bytes| <= |buffer|
    ensures |r| == |buffer|
  {
    buffer[..at] + bytes + buffer[at + |bytes|..]
  }

  lemma OverwriteInTwo<T>(buffer: seq<T>, at: nat, a: seq<T>, b: seq<T>)
    requires at + |a| + |b| <= |buffer|
    ensures Overwrite(Overwrite(buffer, at, a), at + |a|, b) == Overwrite(buffer, at, a + b)
  {
  }

  lemma OverwriteOneMore<T>(buffer: seq<T>, at: nat, bytes: seq<T>, x: T)
    requires at + |bytes| < |buffer|
    ensures Overwrite(buffer, at, bytes + [x]) == Overwrite(buffer, at, bytes)[at + |bytes| := x]
  {
  }

  lemma OverwriteAt<T>(buffer: seq<T>, at: nat, bytes: seq<T>, i: nat)
    requires at + |bytes| <= |buffer| && i < |buffer|
    ensures Overwrite(buffer, at, bytes)[i] == if at <= i < at + |bytes| then bytes[i - at] else buffer[i]
  {
  }

  lemma OverwriteFront<T>(buffer: seq<T>, bytes: seq<T>)
    requires |bytes| <= |buffer|
    ensures Overwrite(buffer, 0, bytes)[..|bytes|] == bytes
    ensures Overwrite(buffer, 0, bytes)[|bytes|..] == buffer[|bytes|..]
  {
  }

  lemma OverwriteNothing<T>(buffer: seq<T>, at: nat)
    requires at <= |buffer|
    ensures Overwrite(buffer, at, []) == buffer
  {
  }

  lemma Regroup<T>(a: seq<T>, b: seq<T>, c: seq<T>)
    ensures (a + b) + c == a + (b + c)
  {
  }

  function Concat<T>(parts: seq<seq<T>>): seq<T> {
    if parts == [] then [] else parts[0] + Concat(parts[1..])
  }

  /** Taking the first element off the first part takes it off the whole. */
  lemma ConcatTakesFirst<T>(parts: seq<seq<T>>)
    requires parts != [] && parts[0] != []
    ensures Concat(parts) == [parts[0][0]] + Concat([parts[0][1..]] + parts[1..])
  {
    var first, others := parts[0], parts[1..];
    var fewer := [first[1..]] + others;
    assert fewer[0] == first[1..] && fewer[1..] == others;
    assert Concat(fewer) == first[1..] + Concat(others);
    hide Concat;
    Regroup([first[0]], first[1..], Concat(others));
    assert [first[0]] + first[1..] == first;
  }
}
