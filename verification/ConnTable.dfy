/**
 * The subscriber's table of publisher connections: who is connected, for which
 * subscription, and which socket the event loop watches under which index.
 */
module ConnTable {
  import opened Bytes
  import opened CStrings
  import opened LineBuffer

  const MAX_PUB_CONN: nat := 512
  const NODE_NAME: nat := 64

  /** One entry; `rx` is the unfinished line in its receive buffer. */
  datatype Conn = Conn(sock: int, node: string, rx: string, active: bool, subSlot: int)

  const EMPTY: Conn := Conn(-1, "", "", false, -1)

  /** The entries, the running count, and the event loop's watches from socket to index. */
  datatype Table = Table(conns: seq<Conn>, count: int, watched: map<int, nat>)

  function Active(conns: seq<Conn>): nat {
    if conns == [] then 0 else (if conns[0].active then 1 else 0) + Active(conns[1..])
  }

  function ActiveIndices(conns: seq<Conn>): set<int> {
    set i | 0 <= i < |conns| && conns[i].active
  }

  lemma ActiveIndicesOneMore(conns: seq<Conn>, c: Conn)
    ensures |conns| !in ActiveIndices(conns)
    ensures ActiveIndices(conns + [c]) == if c.active then ActiveIndices(conns) + {|conns|} else ActiveIndices(conns)
  {
  }

  /** It counts the active entries. */
  lemma {:induction false} ActiveCounts(conns: seq<Conn>)
    ensures Active(conns) == |ActiveIndices(conns)|
    decreases |conns|
  {
    if conns != [] {
      var last := |conns| - 1;
      var before := conns[..last];
      assert conns == before + [conns[last]];
      hide Active, ActiveIndices;
      ActiveCounts(before);
      ActiveOneMore(before, conns[last]);
      ActiveIndicesOneMore(before, conns[last]);
    }
  }

  /** Holds throughout: exact count, reset free entries, and every active socket watched under its own index. */
  ghost predicate Sound(t: Table) {
    && |t.conns| == MAX_PUB_CONN
    && t.count == Active(t.conns)
    && (forall i :: 0 <= i < MAX_PUB_CONN ==>
          if t.conns[i].active then EntrySound(t, i) else t.conns[i] == EMPTY)
    && (forall sock :: sock in t.watched ==>
          t.watched[sock] < MAX_PUB_CONN && t.conns[t.watched[sock]].active && t.conns[t.watched[sock]].sock == sock)
  }

  ghost predicate EntrySound(t: Table, i: nat)
    requires i < |t.conns|
  {
    var c := t.conns[i];
    c.sock >= 0 && |c.node| < NODE_NAME && c.sock in t.watched && t.watched[c.sock] == i
    && |c.rx| < RX_BUF - 1 && '\n' !in c.rx
  }

  predicate IsFor(c: Conn, node: string, subSlot: int) {
    c.active && c.subSlot == subSlot && c.node == node
  }

  /** No two active entries serve the same publisher for the same subscription. */
  ghost predicate Unique(conns: seq<Conn>) {
    forall i, j :: 0 <= i < j < |conns| && conns[i].active && conns[j].active ==>
      conns[i].node != conns[j].node || conns[i].subSlot != conns[j].subSlot
  }

  // ---------- Changes of the table

  function Opened(t: Table, i: nat, subSlot: int, node: string, sock: int): Table
    requires i < |t.conns|
  {
    Table(t.conns[i := Conn(sock, Truncated(node, NODE_NAME), "", true, subSlot)], t.count + 1, t.watched[sock := i])
  }

  function Closed(t: Table, i: int): Table {
    if i < 0 || i >= |t.conns| then t
    else
      var c := t.conns[i];
      Table(t.conns[i := EMPTY], if c.active then t.count - 1 else t.count,
            if c.sock >= 0 then t.watched - {c.sock} else t.watched)
  }

  function Fetched(t: Table, i: nat, rx: string): Table
    requires i < |t.conns|
  {
    t.(conns := t.conns[i := t.conns[i].(rx := rx)])
  }

  lemma {:induction false} ActiveUpdated(conns: seq<Conn>, i: nat, c: Conn)
    requires i < |conns|
    ensures Active(conns[i := c]) == Active(conns) - (if conns[i].active then 1 else 0) + (if c.active then 1 else 0)
  {
    if i > 0 {
      ActiveUpdated(conns[1..], i - 1, c);
      assert conns[i := c][1..] == conns[1..][i - 1 := c];
    } else {
      assert conns[0 := c][1..] == conns[1..];
    }
  }

  /** A new socket is one nobody watches yet. */
  lemma OpenKeepsSound(t: Table, i: nat, subSlot: int, node: string, sock: int)
    requires Sound(t) && i < MAX_PUB_CONN && !t.conns[i].active && sock >= 0 && sock !in t.watched
    ensures Sound(Opened(t, i, subSlot, node, sock))
  {
    ActiveUpdated(t.conns, i, Opened(t, i, subSlot, node, sock).conns[i]);
  }

  lemma CloseKeepsSound(t: Table, i: int)
    requires Sound(t)
    ensures Sound(Closed(t, i)) && (Unique(t.conns) ==> Unique(Closed(t, i).conns))
  {
    if 0 <= i < MAX_PUB_CONN {
      ActiveUpdated(t.conns, i, EMPTY);
    }
  }

  lemma FetchKeepsSound(t: Table, i: nat, rx: string)
    requires Sound(t) && i < MAX_PUB_CONN && t.conns[i].active && |rx| < RX_BUF - 1 && '\n' !in rx
    ensures Sound(Fetched(t, i, rx)) && (Unique(t.conns) ==> Unique(Fetched(t, i, rx).conns))
  {
    ActiveUpdated(t.conns, i, t.conns[i].(rx := rx));
  }

  ghost predicate Known(conns: seq<Conn>, node: string, subSlot: int) {
    exists i :: 0 <= i < |conns| && IsFor(conns[i], node, subSlot)
  }

  /** Opening an entry keeps the table free of doubles exactly when its stored, cut name is not there already. */
  lemma OpenKeepsUniqueIff(t: Table, i: nat, subSlot: int, node: string, sock: int)
    requires i < |t.conns| && !t.conns[i].active && Unique(t.conns)
    ensures Unique(Opened(t, i, subSlot, node, sock).conns) <==> !Known(t.conns, Truncated(node, NODE_NAME), subSlot)
  {
    var conns := Opened(t, i, subSlot, node, sock).conns;
    if Known(t.conns, Truncated(node, NODE_NAME), subSlot) {
      var j :| 0 <= j < |t.conns| && IsFor(t.conns[j], Truncated(node, NODE_NAME), subSlot);
      assert conns[j] == t.conns[j] && conns[i].active;
    } else {
      forall j, k | 0 <= j < k < |conns| && conns[j].active && conns[k].active
        ensures conns[j].node != conns[k].node || conns[j].subSlot != conns[k].subSlot
      {
        if j == i {
          assert !IsFor(t.conns[k], Truncated(node, NODE_NAME), subSlot);
        } else if k == i {
          assert !IsFor(t.conns[j], Truncated(node, NODE_NAME), subSlot);
        }
      }
    }
  }

  /** A name of 64 bytes or more is never found again, however often it is added. */
  lemma LongNamesNeverFound(t: Table, node: string, subSlot: int)
    requires Sound(t) && |node| >= NODE_NAME
    ensures !Known(t.conns, node, subSlot)
  {
  }

  // ---------- Every run

  ghost predicate OpenStep(t: Table, t': Table, i: int, subSlot: int, node: string, sock: int) {
    && 0 <= i < |t.conns| && !t.conns[i].active && sock >= 0 && sock !in t.watched
    && !Known(t.conns, node, subSlot)
    && t' == Opened(t, i, subSlot, node, sock)
  }

  ghost predicate FetchStep(t: Table, t': Table, i: int, rx: string) {
    && 0 <= i < |t.conns| && t.conns[i].active && |rx| < RX_BUF - 1 && '\n' !in rx
    && t' == Fetched(t, i, rx)
  }

  /** What adding, closing, looking up and receiving can do to the table; `short` if the names added fit their field. */
  ghost predicate Step(t: Table, t': Table, short: bool) {
    || t' == t
    || (exists i, subSlot, node, sock :: OpenStep(t, t', i, subSlot, node, sock) && (short ==> |node| < NODE_NAME))
    || (exists i: int :: t' == Closed(t, i))
    || (exists i, rx :: FetchStep(t, t', i, rx))
  }

  ghost predicate Run(ts: seq<Table>, short: bool) {
    forall k :: 0 < k < |ts| ==> Step(ts[k - 1], ts[k], short)
  }

  lemma StepKeepsSound(t: Table, t': Table, short: bool)
    requires Sound(t) && Step(t, t', short)
    ensures Sound(t') && (short && Unique(t.conns) ==> Unique(t'.conns))
  {
    hide Sound, Unique, Opened, Closed, Fetched, Known;
    if exists i, subSlot, node, sock :: OpenStep(t, t', i, subSlot, node, sock) && (short ==> |node| < NODE_NAME) {
      var i, subSlot, node, sock :|
        OpenStep(t, t', i, subSlot, node, sock) && (short ==> |node| < NODE_NAME);
      TableFull(t);
      OpenKeepsSound(t, i, subSlot, node, sock);
      if short && Unique(t.conns) {
        OpenKeepsUniqueIff(t, i, subSlot, node, sock);
      }
    } else if exists i: int :: t' == Closed(t, i) {
      var i: int :| t' == Closed(t, i);
      CloseKeepsSound(t, i);
    } else if exists i, rx :: FetchStep(t, t', i, rx) {
      var i, rx :| FetchStep(t, t', i, rx);
      TableFull(t);
      FetchKeepsSound(t, i, rx);
    }
  }

  lemma TableFull(t: Table)
    requires Sound(t)
    ensures |t.conns| == MAX_PUB_CONN
  {
  }

  /** Over every run from a sound table; and free of doubles too, when all names fit. */
  lemma {:induction false} RunKeepsSound(ts: seq<Table>, short: bool)
    requires ts != [] && Sound(ts[0]) && Unique(ts[0].conns) && Run(ts, short)
    ensures Sound(ts[|ts| - 1]) && (short ==> Unique(ts[|ts| - 1].conns))
    decreases |ts|
  {
    if |ts| > 1 {
      var last := |ts| - 1;
      var before := ts[..last];
      RunKeepsSound(before, short);
      StepKeepsSound(ts[last - 1], ts[last], short);
    }
  }

  /** Without that: a long name, added twice for one subscription, gives two entries that cannot be told apart. */
  lemma LongNameDoubled(t: Table, node: string, subSlot: int, i: nat, j: nat, a: int, b: int)
    requires Sound(t) && |node| >= NODE_NAME && i < MAX_PUB_CONN && j < MAX_PUB_CONN && i != j
    requires !t.conns[i].active && !t.conns[j].active
    requires a >= 0 && b >= 0 && a != b && a !in t.watched && b !in t.watched
    ensures var t1 := Opened(t, i, subSlot, node, a);
            var t2 := Opened(t1, j, subSlot, node, b);
            Step(t, t1, false) && Step(t1, t2, false) && !Unique(t2.conns)
  {
    var t1 := Opened(t, i, subSlot, node, a);
    var t2 := Opened(t1, j, subSlot, node, b);
    LongNamesNeverFound(t, node, subSlot);
    OpenKeepsSound(t, i, subSlot, node, a);
    LongNamesNeverFound(t1, node, subSlot);
    assert OpenStep(t, t1, i, subSlot, node, a);
    assert OpenStep(t1, t2, j, subSlot, node, b);
    assert t2.conns[i].active && t2.conns[j].active;
  }

  // ---------- One pass of the event loop

  /** What a lookup finds: a publisher for a subscription, and the socket connecting to it gives, or -1. */
  datatype Found = Found(subSlot: int, node: string, sock: int)

  /** The first inactive entry. */
  function FreeSlot(conns: seq<Conn>): (slot: Option<nat>)
    ensures slot.Some? ==> slot.value < |conns| && !conns[slot.value].active
    ensures slot.Some? ==> forall i :: 0 <= i < slot.value ==> conns[i].active
    ensures slot.None? ==> forall i :: 0 <= i < |conns| ==> conns[i].active
  {
    if conns == [] then None
    else if !conns[0].active then Some(0)
    else
      match FreeSlot(conns[1..])
      case None => None
      case Some(i) => Some(i + 1)
  }

  /** The kernel never gives a new socket a descriptor in use. */
  ghost function Added(t: Table, f: Found): Table {
    if Known(t.conns, f.node, f.subSlot) || f.sock < 0 || f.sock in t.watched then t
    else
      match FreeSlot(t.conns)
      case None => t
      case Some(i) => Opened(t, i, f.subSlot, f.node, f.sock)
  }

  ghost function AddedAll(t: Table, finds: seq<Found>): Table {
    if finds == [] then t else Added(AddedAll(t, finds[..|finds| - 1]), finds[|finds| - 1])
  }

  /** What recv takes of the data a socket has: as much as the receive buffer has room for. */
  function Taken(rx: string, data: string): string {
    if |rx| + |data| <= RX_BUF - 1 then data
    else if |rx| <= RX_BUF - 1 then data[..RX_BUF - 1 - |rx|]
    else ""
  }

  /** As much from the front as there is room for: all that fits, and never nothing. */
  lemma TakenMeans(rx: string, data: string)
    requires |rx| < RX_BUF - 1
    ensures |rx| + |data| <= 2047 ==> Taken(rx, data) == data
    ensures |rx| + |data| >= 2047 ==> |Taken(rx, data)| == 2047 - |rx|
    ensures Taken(rx, data) <= data
    ensures data != "" ==> Taken(rx, data) != ""
  {
  }

  /** The loop body for an event with index `i`; an arrival of None is a peer that is gone. */
  function Handled(t: Table, i: nat, arrival: Option<string>): (Table, seq<string>) {
    if i >= |t.conns| || !t.conns[i].active || t.conns[i].sock < 0 then (t, [])
    else if arrival.None? then (Closed(t, i), [])
    else
      var fed := Feed(t.conns[i].rx, Taken(t.conns[i].rx, arrival.value));
      (Fetched(t, i, fed.partial), fed.lines)
  }

  /** An event: a socket, and the index under which it was watched when the event was taken. */
  datatype Ready = Ready(sock: int, idx: nat)

  /** Events as waiting gives them: watched sockets, each once. */
  ghost predicate Captured(t: Table, events: seq<Ready>) {
    && (forall e :: 0 <= e < |events| ==> events[e].sock in t.watched && t.watched[events[e].sock] == events[e].idx)
    && (forall d, e :: 0 <= d < e < |events| ==> events[d].sock != events[e].sock)
  }

  /** Each index belongs to the connection that raised the event, and to no other event. */
  ghost predicate Right(t: Table, events: seq<Ready>) {
    && (forall e :: 0 <= e < |events| ==> IsConn(t, events[e]))
    && (forall d, e :: 0 <= d < e < |events| ==> events[d].idx != events[e].idx)
  }

  predicate IsConn(t: Table, r: Ready) {
    r.idx < |t.conns| && t.conns[r.idx].active && t.conns[r.idx].sock == r.sock
  }

  lemma CapturedIsRight(t: Table, events: seq<Ready>)
    requires Sound(t) && Captured(t, events)
    ensures Right(t, events)
  {
    forall d, e | 0 <= d < e < |events| ensures events[d].idx != events[e].idx {
      assert t.conns[events[d].idx].sock == events[d].sock && t.conns[events[e].idx].sock == events[e].sock;
    }
  }

  lemma AddedNothing(t: Table, f: Found)
    requires Known(t.conns, f.node, f.subSlot) || f.sock < 0 || forall i :: 0 <= i < |t.conns| ==> t.conns[i].active
    ensures Added(t, f) == t
  {
  }

  lemma AddedOpens(t: Table, f: Found, slot: nat)
    requires !Known(t.conns, f.node, f.subSlot) && f.sock >= 0 && f.sock !in t.watched
    requires slot < |t.conns| && !t.conns[slot].active && forall i :: 0 <= i < slot ==> t.conns[i].active
    ensures Added(t, f) == Opened(t, slot, f.subSlot, f.node, f.sock)
  {
  }

  lemma OpenedIs(t: Table, i: nat, subSlot: int, node: string, sock: int)
    requires i < |t.conns| && !t.conns[i].active
    ensures var conn := Conn(sock, Truncated(node, NODE_NAME), "", true, subSlot);
            Opened(t, i, subSlot, node, sock) == Table(t.conns[i := conn], t.count + 1, t.watched[sock := i])
    ensures Opened(t, i, subSlot, node, sock) != t
  {
    assert Opened(t, i, subSlot, node, sock).conns[i] != t.conns[i];
  }

  /** What an addition does to the table, whatever comes of it. */
  lemma AddedMeans(t: Table, f: Found)
    requires Sound(t) && f.sock !in t.watched
    ensures Sound(Added(t, f))
    ensures Added(t, f) == t <==>
              Known(t.conns, f.node, f.subSlot) || f.sock < 0 || forall i :: 0 <= i < MAX_PUB_CONN ==> t.conns[i].active
    ensures Unique(t.conns) ==>
              (Unique(Added(t, f).conns)
               <==> Added(t, f) == t || !Known(t.conns, Truncated(f.node, NODE_NAME), f.subSlot))
    ensures Unique(t.conns) && |f.node| < NODE_NAME ==> Unique(Added(t, f).conns)
  {
    TableFull(t);
    hide Sound, Unique, Opened;
    if !Known(t.conns, f.node, f.subSlot) && f.sock >= 0 && FreeSlot(t.conns).Some? {
      var i := FreeSlot(t.conns).value;
      OpenedIs(t, i, f.subSlot, f.node, f.sock);
      OpenKeepsSound(t, i, f.subSlot, f.node, f.sock);
      if Unique(t.conns) {
        OpenKeepsUniqueIff(t, i, f.subSlot, f.node, f.sock);
      }
    }
  }

  /** Entries in use are not touched by an addition. */
  lemma AddKeepsEntries(t: Table, f: Found)
    requires Sound(t)
    ensures Sound(Added(t, f))
    ensures forall i :: 0 <= i < |t.conns| && t.conns[i].active ==> Added(t, f).conns[i] == t.conns[i]
  {
    if Added(t, f) != t {
      OpenKeepsSound(t, FreeSlot(t.conns).value, f.subSlot, f.node, f.sock);
    }
  }

  lemma {:induction false} AddingKeepsEntries(t: Table, finds: seq<Found>)
    requires Sound(t)
    ensures Sound(AddedAll(t, finds)) && |AddedAll(t, finds).conns| == |t.conns|
    ensures forall i :: 0 <= i < |t.conns| && t.conns[i].active ==> AddedAll(t, finds).conns[i] == t.conns[i]
    decreases |finds|
  {
    hide Sound, Added;
    TableFull(t);
    if finds != [] {
      var before := AddedAll(t, finds[..|finds| - 1]);
      AddingKeepsEntries(t, finds[..|finds| - 1]);
      AddKeepsEntries(before, finds[|finds| - 1]);
      TableFull(Added(before, finds[|finds| - 1]));
    }
  }

  /** An event changes no entry but its own. */
  lemma HandlingKeepsOthers(t: Table, i: nat, arrival: Option<string>)
    requires Sound(t)
    ensures Sound(Handled(t, i, arrival).0) && (Unique(t.conns) ==> Unique(Handled(t, i, arrival).0.conns))
    ensures forall j :: 0 <= j < |t.conns| && j != i ==> Handled(t, i, arrival).0.conns[j] == t.conns[j]
  {
    if i < |t.conns| && t.conns[i].active {
      if arrival.None? {
        CloseKeepsSound(t, i);
      } else {
        var rx := t.conns[i].rx;
        FeedKeepsPartial(rx, Taken(rx, arrival.value));
        FetchKeepsSound(t, i, Feed(rx, Taken(rx, arrival.value)).partial);
      }
    }
  }

  /**
   * A hang-up frees the entry and nothing else. In a table free of doubles the publisher is then unknown, so that
   * the next lookup that reaches it connects again.
   */
  lemma HangUpCloses(t: Table, r: Ready, again: Found)
    requires Sound(t) && IsConn(t, r)
    ensures var (t', lines) := Handled(t, r.idx, None);
            && t' == Table(t.conns[r.idx := Conn(-1, "", "", false, -1)], t.count - 1, t.watched - {r.sock})
            && lines == [] && !IsConn(t', r)
    ensures var c, t' := t.conns[r.idx], Handled(t, r.idx, None).0;
            Unique(t.conns) && again.node == c.node && again.subSlot == c.subSlot ==>
              && !Known(t'.conns, again.node, again.subSlot)
              && (again.sock >= 0 && again.sock !in t'.watched ==>
                    exists i :: 0 <= i < MAX_PUB_CONN && IsConn(Added(t', again), Ready(again.sock, i))
                                && IsFor(Added(t', again).conns[i], c.node, c.subSlot))
  {
    var c, t' := t.conns[r.idx], Handled(t, r.idx, None).0;
    assert EntrySound(t, r.idx);
    if Unique(t.conns) && again.node == c.node && again.subSlot == c.subSlot {
      UniqueGone(t.conns, r.idx);
      if again.sock >= 0 && again.sock !in t'.watched {
        assert !t'.conns[r.idx].active;
        var i := FreeSlot(t'.conns).value;
        assert Added(t', again) == Opened(t', i, again.subSlot, again.node, again.sock);
        assert IsConn(Added(t', again), Ready(again.sock, i));
      }
    }
  }

  /** Without the one entry for it, a publisher is unknown. */
  lemma UniqueGone(conns: seq<Conn>, i: nat)
    requires i < |conns| && Unique(conns) && conns[i].active
    ensures !Known(conns[i := EMPTY], conns[i].node, conns[i].subSlot)
  {
  }

  /** What an event with data does to its entry. */
  lemma DataFeeds(t: Table, i: nat, data: string)
    requires Sound(t) && i < MAX_PUB_CONN && t.conns[i].active
    ensures |t.conns[i].rx| < 2047
    ensures var rx := t.conns[i].rx;
            var fed := Feed(rx, if |rx| + |data| <= 2047 then data else data[..2047 - |rx|]);
            Handled(t, i, Some(data)) == (t.(conns := t.conns[i := t.conns[i].(rx := fed.partial)]), fed.lines)
  {
    hide Feed;
    assert EntrySound(t, i);
  }

  /** The lines a connection hands on for its event. */
  function LinesFor(c: Conn, arrival: Option<string>): seq<string>
    requires |c.rx| < RX_BUF - 1
  {
    match arrival
    case None => []
    case Some(data) => Feed(c.rx, if |c.rx| + |data| <= 2047 then data else data[..2047 - |c.rx|]).lines
  }

  lemma OwnEventServed(t: Table, r: Ready, arrival: Option<string>)
    requires Sound(t) && IsConn(t, r)
    ensures |t.conns[r.idx].rx| < RX_BUF - 1
    ensures Handled(t, r.idx, arrival).1 == LinesFor(t.conns[r.idx], arrival)
  {
    hide Feed;
    assert EntrySound(t, r.idx);
  }

  /** The table just before the e-th event is handled; `finds[e]` is added between the events before it and itself. */
  ghost function Before(t: Table, events: seq<Ready>, arrivals: seq<Option<string>>, finds: seq<seq<Found>>, e: nat)
    : Table
    requires e < |events| == |arrivals| == |finds|
    decreases e
  {
    AddedAll(if e == 0 then t
             else Handled(Before(t, events, arrivals, finds, e - 1), events[e - 1].idx, arrivals[e - 1]).0,
             finds[e])
  }

  /**
   * The index in an event is the one the socket had when the wait returned. It still names the connection that
   * raised the event, which nothing has touched, when its turn comes: whatever lookups, run before and between the
   * events, have added, and whatever earlier events have closed.
   */
  lemma {:induction false} EventsReachTheirOwn(t: Table, events: seq<Ready>, arrivals: seq<Option<string>>,
                                               finds: seq<seq<Found>>, e: nat)
    requires Sound(t) && Captured(t, events) && e < |events| == |arrivals| == |finds|
    ensures var now := Before(t, events, arrivals, finds, e);
            Sound(now) && |now.conns| == |t.conns|
            && forall d :: e <= d < |events| ==>
                 IsConn(now, events[d]) && now.conns[events[d].idx] == t.conns[events[d].idx]
    decreases e
  {
    hide Sound, Captured, Handled, AddedAll;
    CapturedIsRight(t, events);
    TableFull(t);
    if e == 0 {
      AddingKeepsEntries(t, finds[0]);
    } else {
      var before := Before(t, events, arrivals, finds, e - 1);
      EventsReachTheirOwn(t, events, arrivals, finds, e - 1);
      HandlingKeepsOthers(before, events[e - 1].idx, arrivals[e - 1]);
      var after := Handled(before, events[e - 1].idx, arrivals[e - 1]).0;
      TableFull(after);
      AddingKeepsEntries(after, finds[e]);
    }
  }

  // ---------- Names that fit

  ghost predicate NamesFit(finds: seq<Found>) {
    forall f :: f in finds ==> |f.node| < NODE_NAME
  }

  lemma AddKeepsUnique(t: Table, f: Found)
    requires Sound(t) && Unique(t.conns) && |f.node| < NODE_NAME
    ensures Unique(Added(t, f).conns)
  {
    if f.sock !in t.watched {
      AddedMeans(t, f);
    }
  }

  lemma {:induction false} AddingKeepsUnique(t: Table, finds: seq<Found>)
    requires Sound(t) && Unique(t.conns) && NamesFit(finds)
    ensures Unique(AddedAll(t, finds).conns)
    decreases |finds|
  {
    hide Sound, Unique, Added;
    if finds != [] {
      var before := finds[..|finds| - 1];
      AddingKeepsUnique(t, before);
      AddingKeepsEntries(t, before);
      AddKeepsUnique(AddedAll(t, before), finds[|finds| - 1]);
    }
  }

  // ---------- The table in place

  class Connections {
    const conns: array<Conn>
    var pubCount: int
    var watched: map<int, nat>

    ghost function State(): Table
      reads this, conns
    {
      Table(conns[..], pubCount, watched)
    }

    constructor ()
      ensures Sound(State()) && Unique(State().conns) && pubCount == 0 && watched == map[] && fresh(conns)
      ensures conns.Length == 512
    {
      conns := new Conn[MAX_PUB_CONN](_ => EMPTY);
      pubCount, watched := 0, map[];
      new;
      NoneActive(conns[..]);
    }

    method Close(idx: int)
      requires conns.Length == MAX_PUB_CONN
      modifies this, conns
      ensures State() == Closed(old(State()), idx)
      ensures idx < 0 || idx >= MAX_PUB_CONN ==> State() == old(State())
      ensures 0 <= idx < MAX_PUB_CONN ==>
                var c := old(conns[idx]);
                && State().conns == old(State()).conns[idx := Conn(-1, "", "", false, -1)]
                && pubCount == old(pubCount) - (if c.active then 1 else 0)
                && watched == if c.sock >= 0 then old(watched) - {c.sock} else old(watched)
    {
      if idx < 0 || idx >= MAX_PUB_CONN {
        return;
      }
      if conns[idx].active {
        pubCount := pubCount - 1;
      }
      if conns[idx].sock >= 0 {
        watched := watched - {conns[idx].sock};
      }
      conns[idx] := EMPTY;
    }

    method Find(node: string, slot: int) returns (idx: int)
      requires conns.Length == MAX_PUB_CONN
      ensures -1 <= idx < MAX_PUB_CONN
      ensures idx >= 0 ==> conns[idx].active && conns[idx].node == node && conns[idx].subSlot == slot
      ensures idx == -1 <==> !Known(conns[..], node, slot)
    {
      for i := 0 to MAX_PUB_CONN
        invariant forall j :: 0 <= j < i ==> !IsFor(conns[j], node, slot)
      {
        if conns[i].active && conns[i].subSlot == slot && conns[i].node == node {
          assert IsFor(conns[..][i], node, slot);
          return i;
        }
      }
      return -1;
    }

    method FirstFree() returns (slot: int)
      requires conns.Length == MAX_PUB_CONN
      ensures -1 <= slot < MAX_PUB_CONN
      ensures slot >= 0 ==> !conns[slot].active && forall i :: 0 <= i < slot ==> conns[i].active
      ensures slot == -1 <==> forall i :: 0 <= i < MAX_PUB_CONN ==> conns[i].active
    {
      for i := 0 to MAX_PUB_CONN
        invariant forall j :: 0 <= j < i ==> conns[j].active
      {
        if !conns[i].active {
          return i;
        }
      }
      return -1;
    }

    /**
     * `sock` is what connecting would give: -1, or a descriptor not in use. The table stays sound; it stays
     * free of doubles exactly when nothing was added or the stored name was new, as it always is for names
     * that fit.
     */
    method Add(subSlot: int, node: string, sock: int) returns (rc: int)
      requires Sound(State()) && sock !in watched
      modifies this, conns
      ensures Sound(State()) && rc in {0, -1}
      ensures State() == Added(old(State()), Found(subSlot, node, sock))
      ensures State() == old(State()) <==>
                || old(Known(conns[..], node, subSlot)) || sock < 0
                || old(forall i :: 0 <= i < MAX_PUB_CONN ==> conns[i].active)
      ensures State() != old(State()) ==>
                exists slot: nat :: slot < MAX_PUB_CONN
                  && !old(conns[slot].active) && (forall i :: 0 <= i < slot ==> old(conns[i].active))
                  && pubCount == old(pubCount) + 1 && watched == old(watched)[sock := slot]
                  && var stored := if |node| <= 63 then node else node[..63];
                     State().conns == old(State()).conns[slot := Conn(sock, stored, "", true, subSlot)]
      ensures rc == 0 <==> old(Known(conns[..], node, subSlot)) || State() != old(State())
      ensures old(Unique(conns[..])) ==>
                (Unique(State().conns) <==>
                   State() == old(State()) || !old(Known(conns[..], Truncated(node, NODE_NAME), subSlot)))
      ensures old(Unique(conns[..])) && |node| < NODE_NAME ==> Unique(State().conns)
    {
      hide Sound, Unique, Added, Known, Opened;
      ghost var was, f := State(), Found(subSlot, node, sock);
      TableFull(was);
      AddedMeans(was, f);
      var existing := Find(node, subSlot);
      if existing >= 0 {
        AddedNothing(was, f);
        return 0;
      }
      var slot := FirstFree();
      if slot < 0 || sock < 0 {
        AddedNothing(was, f);
        return -1;
      }
      AddedOpens(was, f, slot);
      OpenedIs(was, slot, subSlot, node, sock);
      conns[slot] := Conn(sock, Truncated(node, NODE_NAME), "", true, subSlot);
      pubCount := pubCount + 1;
      watched := watched[sock := slot];
      return 0;
    }

    /** Counting agrees with the running count. */
    method ActiveCount() returns (n: nat)
      requires Sound(State())
      ensures n == pubCount == |set i | 0 <= i < 512 && conns[i].active|
    {
      n := 0;
      for i := 0 to MAX_PUB_CONN
        invariant n == Active(conns[..i])
      {
        ActiveOneMore(conns[..i], conns[i]);
        assert conns[..i + 1] == conns[..i] + [conns[i]];
        if conns[i].active && conns[i].sock >= 0 {
          n := n + 1;
        }
      }
      assert conns[..MAX_PUB_CONN] == conns[..];
      ActiveCounts(conns[..]);
      assert (set i | 0 <= i < 512 && conns[i].active) == ActiveIndices(conns[..]);
    }

    /** The publishers a lookup finds; connecting never gives a descriptor in use. */
    method AddAll(finds: seq<Found>)
      requires Sound(State())
      modifies this, conns
      ensures State() == AddedAll(old(State()), finds) && Sound(State())
    {
      hide Sound, Added;
      ghost var was := State();
      for i := 0 to |finds|
        invariant Sound(State()) && State() == AddedAll(was, finds[..i])
      {
        assert finds[..i + 1][..i] == finds[..i];
        AddKeepsEntries(State(), finds[i]);
        if finds[i].sock !in watched {
          var _ := Add(finds[i].subSlot, finds[i].node, finds[i].sock);
        } else {
          NotAdded(State(), finds[i]);
        }
      }
      assert finds[..|finds|] == finds;
    }

    /** `arrival` is what the socket has, None when the peer is gone; the index may be anything. */
    method HandleEvent(i: nat, arrival: Option<string>) returns (lines: seq<string>)
      requires Sound(State())
      modifies this, conns
      ensures Sound(State()) && (old(Unique(conns[..])) ==> Unique(State().conns))
      ensures (State(), lines) == Handled(old(State()), i, arrival)
      ensures i >= MAX_PUB_CONN || !old(conns[i].active) ==> State() == old(State()) && lines == []
      ensures i < MAX_PUB_CONN && old(conns[i].active) ==>
                && pubCount == old(pubCount) - (if arrival.None? then 1 else 0)
                && watched == (if arrival.None? then old(watched) - {old(conns[i].sock)} else old(watched))
                && (forall j :: 0 <= j < MAX_PUB_CONN && j != i ==> conns[j] == old(conns[j]))
      ensures i < MAX_PUB_CONN && old(conns[i].active) && arrival.None? ==>
                conns[i] == Conn(-1, "", "", false, -1) && lines == []
      ensures i < MAX_PUB_CONN && old(conns[i].active) && arrival.Some? ==>
                var c, data := old(conns[i]), arrival.value;
                && |c.rx| < 2047
                && Fed(conns[i].rx, lines)
                   == Feed(c.rx, if |c.rx| + |data| <= 2047 then data else data[..2047 - |c.rx|])
                && conns[i] == c.(rx := conns[i].rx)
    {
      hide Sound, Unique, Feed, Taken;
      TableFull(State());
      ActiveHasSocket(State(), i);
      if arrival.Some? && i < MAX_PUB_CONN && conns[i].active {
        DataFeeds(State(), i, arrival.value);
      }
      HandlingKeepsOthers(State(), i, arrival);
      if i >= MAX_PUB_CONN || !conns[i].active || conns[i].sock < 0 {
        return [];
      }
      if arrival.None? {
        Close(i);
        return [];
      }
      var fed := Feed(conns[i].rx, Taken(conns[i].rx, arrival.value));
      conns[i] := conns[i].(rx := fed.partial);
      return fed.lines;
    }

    /**
     * The events of one wait, handled in order by the index each carries, with lookups before and between them.
     * Each finds its own connection as it was when the wait returned.
     */
    method HandleEvents(events: seq<Ready>, arrivals: seq<Option<string>>, finds: seq<seq<Found>>)
      returns (lines: seq<seq<string>>)
      requires Sound(State()) && Captured(State(), events) && |events| == |arrivals| == |finds|
      modifies this, conns
      ensures Sound(State()) && |lines| == |events|
      ensures old(Unique(conns[..])) && (forall e :: 0 <= e < |finds| ==> NamesFit(finds[e])) ==> Unique(State().conns)
      ensures forall e :: 0 <= e < |events| ==>
                var c := old(State()).conns[events[e].idx];
                && c.active && c.sock == events[e].sock && |c.rx| < RX_BUF - 1
                && lines[e] == LinesFor(c, arrivals[e])
      ensures events != [] ==>
                var last := |events| - 1;
                var now := Before(old(State()), events, arrivals, finds, last);
                State() == Handled(now, events[last].idx, arrivals[last]).0
    {
      hide Sound, Captured, Handled, AddedAll, LinesFor, Feed, Before, Unique, NamesFit;
      ghost var was := State();
      ghost var unique := Unique(was.conns) && forall e :: 0 <= e < |finds| ==> NamesFit(finds[e]);
      CapturedIsRight(was, events);
      lines := [];
      for e := 0 to |events|
        invariant Sound(State()) && |lines| == e && (unique ==> Unique(State().conns))
        invariant State()
                  == if e == 0 then was
                     else Handled(Before(was, events, arrivals, finds, e - 1), events[e - 1].idx, arrivals[e - 1]).0
        invariant forall d :: 0 <= d < e ==>
                    var c := was.conns[events[d].idx];
                    IsConn(was, events[d]) && |c.rx| < RX_BUF - 1 && lines[d] == LinesFor(c, arrivals[d])
      {
        EventsReachTheirOwn(was, events, arrivals, finds, e);
        if unique {
          AddingKeepsUnique(State(), finds[e]);
        }
        AddAll(finds[e]);
        BeforeIs(was, events, arrivals, finds, e);
        ghost var now := Before(was, events, arrivals, finds, e);
        OwnEventServed(now, events[e], arrivals[e]);
        var more := HandleEvent(events[e].idx, arrivals[e]);
        lines := lines + [more];
      }
    }
  }

  lemma BeforeIs(t: Table, events: seq<Ready>, arrivals: seq<Option<string>>, finds: seq<seq<Found>>, e: nat)
    requires e < |events| == |arrivals| == |finds|
    ensures Before(t, events, arrivals, finds, e)
            == AddedAll(if e == 0 then t
                        else Handled(Before(t, events, arrivals, finds, e - 1), events[e - 1].idx, arrivals[e - 1]).0,
                        finds[e])
  {
    hide Handled, AddedAll;
  }

  lemma ActiveHasSocket(t: Table, i: nat)
    requires Sound(t)
    ensures i < |t.conns| && t.conns[i].active ==> t.conns[i].sock >= 0
  {
    assert i < |t.conns| && t.conns[i].active ==> EntrySound(t, i);
  }

  lemma NotAdded(t: Table, f: Found)
    requires f.sock in t.watched
    ensures Added(t, f) == t
  {
  }

  lemma {:induction false} NoneActive(conns: seq<Conn>)
    requires forall i :: 0 <= i < |conns| ==> !conns[i].active
    ensures Active(conns) == 0
  {
    if conns != [] {
      NoneActive(conns[1..]);
    }
  }

  lemma {:induction false} ActiveOneMore(conns: seq<Conn>, c: Conn)
    ensures Active(conns + [c]) == Active(conns) + if c.active then 1 else 0
  {
    if conns != [] {
      ActiveOneMore(conns[1..], c);
      assert (conns + [c])[1..] == conns[1..] + [c];
    } else {
      assert conns + [c] == [c];
    }
  }

  /** What the line machine keeps is always an unfinished line that leaves room. */
  lemma {:induction false} FeedKeepsPartial(partial: string, data: string)
    requires |partial| < RX_BUF - 1 && '\n' !in partial
    ensures |Feed(partial, data).partial| < RX_BUF - 1 && '\n' !in Feed(partial, data).partial
    decreases |data|
  {
    if data != "" {
      FeedKeepsPartial(partial, data[..|data| - 1]);
    }
  }
}
