/** The subscriber's event loop over any number of waits: whose bytes make whose lines. */
module EventLoop {
  import opened Bytes
  import opened LineBuffer
  import opened ConnTable

  /** Since a socket was opened: the bytes that came for it, those among them not yet received, the lines handed on. */
  datatype Tape = Tape(stream: string, waiting: string, lines: seq<string>)

  datatype Watch = Watch(table: Table, tapes: map<int, Tape>)

  /** Every connection has handed on, and kept, what the line machine makes of what its own socket has received. */
  ghost predicate Faithful(w: Watch) {
    Sound(w.table)
    && forall i :: 0 <= i < MAX_PUB_CONN && w.table.conns[i].active ==> EntryFaithful(w, i)
  }

  ghost predicate EntryFaithful(w: Watch, i: nat)
    requires i < |w.table.conns|
  {
    var c := w.table.conns[i];
    c.sock in w.tapes && TapeFaithful(w.tapes[c.sock], c.rx)
  }

  ghost predicate TapeFaithful(tape: Tape, rx: string) {
    exists received :: tape.stream == received + tape.waiting && Feed("", received) == Fed(rx, tape.lines)
  }

  /** A new socket starts on an empty tape. */
  ghost function WatchAdded(w: Watch, f: Found): Watch {
    var t := Added(w.table, f);
    Watch(t, if t == w.table then w.tapes else w.tapes[f.sock := Tape("", "", [])])
  }

  ghost function WatchAddedAll(w: Watch, finds: seq<Found>): (w': Watch)
    ensures w'.table == AddedAll(w.table, finds)
  {
    if finds == [] then w else WatchAdded(WatchAddedAll(w, finds[..|finds| - 1]), finds[|finds| - 1])
  }

  ghost function Waiting(w: Watch, sock: int): string {
    if sock in w.tapes then w.tapes[sock].waiting else ""
  }

  /** What a socket has for recv: what was waiting and what has come since; `came` is None for a peer that is gone. */
  ghost function Has(w: Watch, r: Ready, came: Option<string>): Option<string> {
    if came.None? then None else Some(Waiting(w, r.sock) + came.value)
  }

  /**
   * An event recorded for the socket that raised it, whichever entry its index leads to. Of what the socket has, recv
   * takes as many bytes from the front as a receive buffer of 2047 bytes still has room for.
   */
  ghost function WatchHandled(w: Watch, r: Ready, came: Option<string>): (w': Watch)
    ensures w'.table == Handled(w.table, r.idx, Has(w, r, came)).0
  {
    var (t, lines) := Handled(w.table, r.idx, Has(w, r, came));
    if came.None? || r.idx >= |w.table.conns| || r.sock !in w.tapes then Watch(t, w.tapes)
    else
      var tape, filled := w.tapes[r.sock], |w.table.conns[r.idx].rx|;
      Watch(t, w.tapes[r.sock := Tape(tape.stream + came.value,
                                      LeftWaiting(tape.waiting + came.value, filled),
                                      tape.lines + lines)])
  }

  function LeftWaiting(has: string, filled: nat): string {
    if filled + |has| <= 2047 then "" else if filled <= 2047 then has[2047 - filled..] else has
  }

  /** A wait: its events, what has come for each socket, what is looked up before each event, and after the last. */
  datatype Wait = Wait(events: seq<Ready>, came: seq<Option<string>>, finds: seq<seq<Found>>, after: seq<Found>)

  ghost predicate ProperWait(t: Table, wait: Wait) {
    Captured(t, wait.events) && |wait.events| == |wait.came| == |wait.finds|
  }

  /** Just before event `n` is handled, and after the first `n` events. */
  ghost function BeforeEvent(w: Watch, wait: Wait, n: nat): Watch
    requires n < |wait.events| == |wait.came| == |wait.finds|
    decreases n, 1
  {
    WatchAddedAll(AfterEvents(w, wait, n), wait.finds[n])
  }

  ghost function AfterEvents(w: Watch, wait: Wait, n: nat): Watch
    requires n <= |wait.events| == |wait.came| == |wait.finds|
    decreases n, 0
  {
    if n == 0 then w else WatchHandled(BeforeEvent(w, wait, n - 1), wait.events[n - 1], wait.came[n - 1])
  }

  ghost function AfterWait(w: Watch, wait: Wait): Watch
    requires |wait.events| == |wait.came| == |wait.finds|
  {
    WatchAddedAll(AfterEvents(w, wait, |wait.events|), wait.after)
  }

  /** What each event's socket has at its turn. */
  ghost function Arrivals(w: Watch, wait: Wait): seq<Option<string>>
    requires |wait.events| == |wait.came| == |wait.finds|
  {
    seq(|wait.events|, n requires 0 <= n < |wait.events| =>
      Has(BeforeEvent(w, wait, n), wait.events[n], wait.came[n]))
  }

  lemma AddKeepsFaithful(w: Watch, f: Found)
    requires Faithful(w)
    ensures Faithful(WatchAdded(w, f))
  {
    hide Feed;
    AddKeepsEntries(w.table, f);
    EmptyFeed();
    var w' := WatchAdded(w, f);
    if w'.table != w.table {
      forall i | 0 <= i < MAX_PUB_CONN && w'.table.conns[i].active ensures EntryFaithful(w', i) {
        if w.table.conns[i].active {
          assert EntryFaithful(w, i);
          assert w.table.conns[i].sock in w.table.watched;
        }
      }
    }
  }

  lemma EmptyFeed()
    ensures Feed("", "") == Fed("", [])
  {
  }

  lemma {:induction false} AddingKeepsFaithful(w: Watch, finds: seq<Found>)
    requires Faithful(w)
    ensures Faithful(WatchAddedAll(w, finds))
    decreases |finds|
  {
    hide Faithful, WatchAdded;
    if finds != [] {
      AddingKeepsFaithful(w, finds[..|finds| - 1]);
      AddKeepsFaithful(WatchAddedAll(w, finds[..|finds| - 1]), finds[|finds| - 1]);
    }
  }

  /** Two active entries never share a socket. */
  lemma SocketsDiffer(t: Table, i: nat, j: nat)
    requires Sound(t) && i < MAX_PUB_CONN && j < MAX_PUB_CONN && t.conns[i].active && t.conns[j].active && i != j
    ensures t.conns[i].sock != t.conns[j].sock
  {
    assert EntrySound(t, i) && EntrySound(t, j);
  }

  /** What was taken is fed, and the rest waits. */
  lemma OwnBytes(tape: Tape, rx: string, came: string)
    requires TapeFaithful(tape, rx) && |rx| < RX_BUF - 1
    ensures var has := tape.waiting + came;
            var fed := Feed(rx, Taken(rx, has));
            TapeFaithful(Tape(tape.stream + came, LeftWaiting(has, |rx|), tape.lines + fed.lines), fed.partial)
  {
    var received :| tape.stream == received + tape.waiting && Feed("", received) == Fed(rx, tape.lines);
    var has := tape.waiting + came;
    hide Feed;
    TakenAndLeft(rx, has);
    hide Taken, LeftWaiting;
    FeedInTwo("", received, Taken(rx, has));
    Regroup(received, Taken(rx, has), LeftWaiting(has, |rx|));
    Regroup(received, tape.waiting, came);
  }

  lemma TakenAndLeft(rx: string, has: string)
    requires |rx| < RX_BUF - 1
    ensures has == Taken(rx, has) + LeftWaiting(has, |rx|)
  {
    TakenMeans(rx, has);
  }

  /** The event is raised by the connection its index names. */
  lemma EventKeepsFaithful(w: Watch, r: Ready, came: Option<string>)
    requires Faithful(w) && IsConn(w.table, r)
    ensures Faithful(WatchHandled(w, r, came))
  {
    hide Feed, Sound, Taken, TapeFaithful, LeftWaiting;
    TableFull(w.table);
    HandlingKeepsOthers(w.table, r.idx, Has(w, r, came));
    var w' := WatchHandled(w, r, came);
    TableFull(w'.table);
    SoundEntry(w.table, r.idx);
    assert EntryFaithful(w, r.idx);
    if came.Some? {
      OwnBytes(w.tapes[r.sock], w.table.conns[r.idx].rx, came.value);
    }
    forall i | 0 <= i < MAX_PUB_CONN && w'.table.conns[i].active ensures EntryFaithful(w', i) {
      if i != r.idx {
        SocketsDiffer(w.table, i, r.idx);
        assert EntryFaithful(w, i);
      }
    }
  }

  lemma SoundEntry(t: Table, i: nat)
    requires Sound(t) && i < MAX_PUB_CONN && t.conns[i].active
    ensures t.conns[i].sock >= 0 && |t.conns[i].rx| < RX_BUF - 1
  {
    assert EntrySound(t, i);
  }

  /** The table of the watch is the table the events are handled on. */
  lemma {:induction false} WatchesTheTable(w: Watch, wait: Wait, n: nat)
    requires n < |wait.events| == |wait.came| == |wait.finds|
    ensures BeforeEvent(w, wait, n).table == Before(w.table, wait.events, Arrivals(w, wait), wait.finds, n)
    decreases n
  {
    hide Handled, AddedAll, WatchHandled, WatchAddedAll, Has;
    if n > 0 {
      WatchesTheTable(w, wait, n - 1);
    }
  }

  lemma {:induction false} EventsKeepFaithful(w: Watch, wait: Wait, n: nat)
    requires Faithful(w) && ProperWait(w.table, wait) && n <= |wait.events|
    ensures Faithful(AfterEvents(w, wait, n))
    decreases n
  {
    hide Faithful, Captured, WatchHandled, BeforeEvent;
    if n > 0 {
      EventsKeepFaithful(w, wait, n - 1);
      NextEventKeepsFaithful(w, wait, n - 1);
    }
  }

  lemma NextEventKeepsFaithful(w: Watch, wait: Wait, n: nat)
    requires Faithful(w) && ProperWait(w.table, wait) && n < |wait.events| && Faithful(AfterEvents(w, wait, n))
    ensures Faithful(AfterEvents(w, wait, n + 1))
  {
    FaithfulIsSound(w);
    var r, came, now := wait.events[n], wait.came[n], BeforeEvent(w, wait, n);
    assert AfterEvents(w, wait, n + 1) == WatchHandled(now, r, came);
    AddingKeepsFaithful(AfterEvents(w, wait, n), wait.finds[n]);
    WatchesTheTable(w, wait, n);
    hide Faithful, WatchHandled, WatchAddedAll, Captured, Before, AfterEvents, BeforeEvent, Arrivals, Sound;
    EventsReachTheirOwn(w.table, wait.events, Arrivals(w, wait), wait.finds, n);
    assert IsConn(now.table, r);
    EventKeepsFaithful(now, r, came);
  }

  lemma FaithfulIsSound(w: Watch)
    requires Faithful(w)
    ensures Sound(w.table)
  {
  }

  /** A table with nothing open, as it is at the start. */
  lemma NothingOpenIsFaithful(t: Table)
    requires Sound(t) && t.watched == map[]
    ensures Faithful(Watch(t, map[]))
  {
    forall i | 0 <= i < MAX_PUB_CONN ensures !t.conns[i].active {
      ActiveIsWatched(t, i);
    }
  }

  lemma ActiveIsWatched(t: Table, i: nat)
    requires Sound(t) && i < MAX_PUB_CONN
    ensures t.conns[i].active ==> t.conns[i].sock in t.watched
  {
  }

  /** Waits one after the other, each on the table the one before has left. */
  ghost predicate ProperWaits(w: Watch, waits: seq<Wait>)
    decreases |waits|
  {
    waits != [] ==> ProperWait(w.table, waits[0]) && ProperWaits(AfterWait(w, waits[0]), waits[1..])
  }

  ghost function AfterWaits(w: Watch, waits: seq<Wait>): Watch
    requires ProperWaits(w, waits)
    decreases |waits|
  {
    if waits == [] then w else AfterWaits(AfterWait(w, waits[0]), waits[1..])
  }

  lemma {:induction false} WaitsKeepFaithful(w: Watch, waits: seq<Wait>)
    requires Faithful(w) && ProperWaits(w, waits)
    ensures Faithful(AfterWaits(w, waits))
    decreases |waits|
  {
    hide Faithful, AfterWait, Captured;
    if waits != [] {
      WaitKeepsFaithful(w, waits[0]);
      WaitsKeepFaithful(AfterWait(w, waits[0]), waits[1..]);
    }
  }

  /**
   * Over any number of waits: the lines handed on for each open connection, and what it has kept, are what the line
   * machine makes of all the bytes that came for its own socket since it was opened, but for those that had no room
   * yet and still wait, and of nothing else.
   */
  lemma LinesAreTheirOwn(w: Watch, waits: seq<Wait>, i: nat)
    requires Faithful(w) && ProperWaits(w, waits)
    requires i < |AfterWaits(w, waits).table.conns| && AfterWaits(w, waits).table.conns[i].active
    ensures var w', c := AfterWaits(w, waits), AfterWaits(w, waits).table.conns[i];
            && c.sock in w'.tapes
            && exists received :: w'.tapes[c.sock].stream == received + w'.tapes[c.sock].waiting
                                  && Feed("", received) == Fed(c.rx, w'.tapes[c.sock].lines)
  {
    WaitsKeepFaithful(w, waits);
    assert EntryFaithful(AfterWaits(w, waits), i);
  }

  lemma WaitKeepsFaithful(w: Watch, wait: Wait)
    requires Faithful(w) && ProperWait(w.table, wait)
    ensures Faithful(AfterWait(w, wait))
  {
    hide Faithful, AfterEvents, WatchAddedAll;
    EventsKeepFaithful(w, wait, |wait.events|);
    AddingKeepsFaithful(AfterEvents(w, wait, |wait.events|), wait.after);
  }
}
