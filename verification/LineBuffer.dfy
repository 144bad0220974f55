/**
 * How a subscriber connection turns the chunks recv hands it into lines: the receive
 * buffer with its compaction, truncation and overflow drop, and the byte-at-a-time
 * machine it amounts to.
 */
module LineBuffer {
  import opened Bytes

  const RX_BUF: nat := 2048
  const LINE_BUF: nat := 512

  // ---------- A machine that eats one byte at a time

  /** A line as it is handed on: its first 511 bytes. */
  function Cut(line: string): string {
    if |line| < LINE_BUF then line else line[..LINE_BUF - 1]
  }

  datatype Fed = Fed(partial: string, lines: seq<string>)

  /** A newline ends the line; a line that reaches 2047 bytes without one is dropped. */
  function FeedByte(partial: string, b: char): Fed {
    var line := partial + [b];
    if b == '\n' then Fed("", [Cut(line)])
    else if |line| == RX_BUF - 1 then Fed("", [])
    else Fed(line, [])
  }

  function Feed(partial: string, data: string): Fed
    decreases |data|
  {
    if data == "" then Fed(partial, [])
    else
      var last := |data| - 1;
      var before := Feed(partial, data[..last]);
      var one := FeedByte(before.partial, data[last]);
      Fed(one.partial, before.lines + one.lines)
  }

  lemma {:induction false} FeedInTwo(partial: string, a: string, b: string)
    ensures var first := Feed(partial, a);
            var second := Feed(first.partial, b);
            Feed(partial, a + b) == Fed(second.partial, first.lines + second.lines)
    decreases |b|
  {
    if b == "" {
      assert a + b == a;
    } else {
      var last := |b| - 1;
      assert (a + b)[..|a + b| - 1] == a + b[..last];
      FeedInTwo(partial, a, b[..last]);
    }
  }

  /** Without a newline and short of the limit, bytes just pile up. */
  lemma {:induction false} FeedPartial(partial: string, data: string)
    requires '\n' !in data && |partial| + |data| < RX_BUF - 1
    ensures Feed(partial, data) == Fed(partial + data, [])
    decreases |data|
  {
    if data != "" {
      var last := |data| - 1;
      FeedPartial(partial, data[..last]);
      assert partial + data == (partial + data[..last]) + [data[last]];
    } else {
      assert partial + data == partial;
    }
  }

  predicate WholeLine(line: string) {
    line != "" && |line| <= RX_BUF - 1 && line[|line| - 1] == '\n' && '\n' !in line[..|line| - 1]
  }

  /** A whole line of any length the buffer holds comes out once, cut. */
  lemma FeedLine(line: string)
    requires WholeLine(line)
    ensures Feed("", line) == Fed("", [Cut(line)])
  {
    hide Cut;
    var body := line[..|line| - 1];
    FeedPartial("", body);
    assert "" + body == body;
    assert body + ['\n'] == line;
  }

  /** A line that fills the buffer without a newline is lost, and the next byte starts a new one. */
  lemma FeedOverflow(line: string)
    requires |line| == 2047 && '\n' !in line
    ensures Feed("", line) == Fed("", [])
  {
    var n := |line| - 1;
    var body, last := line[..n], line[n];
    assert last in line && '\n' !in body;
    hide Feed, Cut;
    FeedPartial("", body);
    assert "" + body == body;
    FeedNext("", line, n);
    assert line[..n + 1] == line;
    OverflowByte(body, last);
  }

  lemma OverflowByte(partial: string, b: char)
    requires |partial| == 2046 && b != '\n'
    ensures FeedByte(partial, b) == Fed("", [])
  {
  }

  function CutAll(lines: seq<string>): seq<string> {
    seq(|lines|, i requires 0 <= i < |lines| => Cut(lines[i]))
  }

  /** A stream of whole lines comes out line by line. */
  lemma {:induction false} FeedLines(lines: seq<string>)
    requires forall i :: 0 <= i < |lines| ==> WholeLine(lines[i])
    ensures Feed("", Concat(lines)) == Fed("", CutAll(lines))
    ensures |CutAll(lines)| == |lines|
    ensures forall i :: 0 <= i < |lines| ==>
              CutAll(lines)[i] == if |lines[i]| <= 511 then lines[i] else lines[i][..511]
    decreases |lines|
  {
    if lines != [] {
      FeedLine(lines[0]);
      FeedLines(lines[1..]);
      FeedInTwo("", lines[0], Concat(lines[1..]));
      assert CutAll(lines) == [Cut(lines[0])] + CutAll(lines[1..]);
    }
  }

  // ---------- Any chunking

  function FeedChunks(partial: string, chunks: seq<string>): Fed
    decreases |chunks|
  {
    if chunks == [] then Fed(partial, [])
    else
      var first := Feed(partial, chunks[0]);
      var others := FeedChunks(first.partial, chunks[1..]);
      Fed(others.partial, first.lines + others.lines)
  }

  /** The lines handed on do not depend on how the stream was chunked. */
  lemma {:induction false} ChunkingIrrelevant(partial: string, chunks: seq<string>)
    ensures FeedChunks(partial, chunks) == Feed(partial, Concat(chunks))
    decreases |chunks|
  {
    if chunks != [] {
      ChunkingIrrelevant(Feed(partial, chunks[0]).partial, chunks[1..]);
      FeedInTwo(partial, chunks[0], Concat(chunks[1..]));
    }
  }

  // ---------- The buffer

  /** What is kept of an unfinished line. */
  function Kept(rest: string): string {
    if |rest| >= RX_BUF - 1 then "" else rest
  }

  /** The scan has looked at `all[..k]`, handed on `lines`, and the unfinished line starts at `start`. */
  ghost predicate ScannedTo(all: string, k: nat, start: nat, lines: seq<string>) {
    && start <= k <= |all| < RX_BUF
    && '\n' !in all[start..k]
    && Feed("", all[..k]) == Fed(Kept(all[start..k]), lines)
  }

  lemma FeedNext(partial: string, data: string, k: nat)
    requires k < |data|
    ensures var before := Feed(partial, data[..k]);
            var one := FeedByte(before.partial, data[k]);
            Feed(partial, data[..k + 1]) == Fed(one.partial, before.lines + one.lines)
  {
    assert data[..k + 1][..k] == data[..k];
  }

  lemma ScanByte(all: string, k: nat, start: nat, lines: seq<string>)
    requires ScannedTo(all, k, start, lines) && k < |all|
    ensures all[k] != '\n' ==> ScannedTo(all, k + 1, start, lines)
    ensures all[k] == '\n' ==> ScannedTo(all, k + 1, k + 1, lines + [Cut(all[start..k + 1])])
  {
    hide Cut, Feed;
    FeedNext("", all, k);
    var line := all[start..k + 1];
    assert line == all[start..k] + [all[k]];
    assert lines + [] == lines;
  }

  lemma ScanStart(all: string)
    requires |all| < RX_BUF
    ensures ScannedTo(all, 0, 0, [])
  {
  }

  lemma ScanBounds(all: string, k: nat, start: nat, lines: seq<string>)
    requires ScannedTo(all, k, start, lines)
    ensures start <= k <= |all| < RX_BUF
  {
  }

  /** The length the loop computes cuts the line as it should. */
  lemma LineCut(all: string, start: nat, k: nat)
    requires start <= k < |all|
    ensures var ll := if k - start + 1 >= LINE_BUF then LINE_BUF - 1 else k - start + 1;
            all[start..start + ll] == Cut(all[start..k + 1])
  {
    var line := all[start..k + 1];
    if |line| >= LINE_BUF {
      assert line[..LINE_BUF - 1] == all[start..start + (LINE_BUF - 1)];
    }
  }

  lemma SliceOfFront(a: array<char>, n: nat, i: nat, j: nat)
    requires i <= j <= n <= a.Length
    ensures a[..n][i..j] == a[i..j]
  {
  }

  class Receiver {
    const rxbuf: array<char>
    var rxlen: nat

    ghost predicate Valid()
      reads this, rxbuf
    {
      rxbuf.Length == RX_BUF && rxlen < RX_BUF - 1 && '\n' !in rxbuf[..rxlen]
    }

    ghost function Partial(): string
      reads this, rxbuf
      requires rxlen <= rxbuf.Length
    {
      rxbuf[..rxlen]
    }

    constructor ()
      ensures Valid() && Partial() == "" && fresh(rxbuf)
    {
      rxbuf := new char[RX_BUF](_ => '\0');
      rxlen := 0;
    }

    /** recv puts a chunk behind what is there. */
    method Append(chunk: string)
      requires Valid() && rxlen + |chunk| <= RX_BUF - 1
      modifies this, rxbuf
      ensures rxlen == old(rxlen) + |chunk| && rxbuf[..rxlen] == old(rxbuf[..rxlen]) + chunk
    {
      var at := rxlen;
      forall i | 0 <= i < |chunk| {
        rxbuf[at + i] := chunk[i];
      }
      rxlen := rxlen + |chunk|;
      rxbuf[rxlen] := '\0';
      assert rxbuf[..rxlen] == rxbuf[..at] + rxbuf[at..rxlen];
    }

    /** Moves what follows the last line to the front; drops it if it fills the buffer. */
    method Compact(start: nat)
      requires rxbuf.Length == RX_BUF && start <= rxlen < RX_BUF
      modifies this, rxbuf
      ensures rxlen < RX_BUF - 1
      ensures var rest := old(rxbuf[start..rxlen]);
              rxbuf[..rxlen] == if |rest| >= 2047 then "" else rest
    {
      if start > 0 {
        var n := rxlen - start;
        forall i | 0 <= i < n {
          rxbuf[i] := rxbuf[start + i];
        }
        rxlen := n;
      }
      if rxlen >= RX_BUF - 1 {
        rxlen := 0;
        rxbuf[0] := '\0';
      }
    }

    /** The scan of the buffer: the lines it finds, and where what follows the last of them starts. */
    method Scan() returns (lines: seq<string>, start: nat)
      requires rxbuf.Length == RX_BUF && rxlen < RX_BUF
      ensures ScannedTo(rxbuf[..rxlen], rxlen, start, lines)
    {
      hide Cut, ScannedTo;
      lines, start := [], 0;
      ghost var all := rxbuf[..rxlen];
      ScanStart(all);
      var k := 0;
      while k < rxlen
        invariant 0 <= k <= rxlen && ScannedTo(all, k, start, lines)
      {
        ScanBounds(all, k, start, lines);
        ScanByte(all, k, start, lines);
        if rxbuf[k] != '\n' {
          k := k + 1;
          continue;
        }
        var ll := k - start + 1;
        if ll >= LINE_BUF {
          ll := LINE_BUF - 1;
        }
        LineCut(all, start, k);
        SliceOfFront(rxbuf, rxlen, start, start + ll);
        lines := lines + [rxbuf[start..start + ll]];
        start := k + 1;
        k := k + 1;
      }
    }

    /**
     * One receive of a chunk that fits the free space, which is never zero: the lines handed on and
     * what is kept are what the byte-at-a-time machine makes of it.
     */
    method Receive(chunk: string) returns (lines: seq<string>)
      requires Valid() && 1 <= |chunk| <= RX_BUF - 1 - rxlen
      modifies this, rxbuf
      ensures Valid() && RX_BUF - 1 - rxlen >= 1
      ensures Fed(Partial(), lines) == Feed(old(Partial()), chunk)
    {
      hide Feed, Cut;
      ghost var was := Partial();
      Append(chunk);
      ghost var all := rxbuf[..rxlen];
      var start;
      lines, start := Scan();
      ReceivedIsFed(was, chunk, all, start, lines);
      SliceOfFront(rxbuf, rxlen, start, rxlen);
      assert all[start..] == rxbuf[start..rxlen];
      Compact(start);
    }
  }

  /** What a scan of the old partial line and a chunk finds is what the machine makes of the chunk. */
  lemma ReceivedIsFed(was: string, chunk: string, all: string, start: nat, lines: seq<string>)
    requires |was| < RX_BUF - 1 && '\n' !in was && all == was + chunk && ScannedTo(all, |all|, start, lines)
    ensures start <= |all| && Feed(was, chunk) == Fed(Kept(all[start..]), lines) && '\n' !in all[start..]
  {
    hide Feed;
    FeedPartial("", was);
    assert "" + was == was;
    FeedInTwo("", was, chunk);
    var fed := Feed(was, chunk);
    assert [] + fed.lines == fed.lines;
    assert all[..|all|] == all && all[start..|all|] == all[start..];
  }
}
