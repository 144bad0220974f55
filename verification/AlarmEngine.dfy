/** A table of edge detectors over register readings that may fail. */
module AlarmEngine {
  import opened AlarmConditions
  import opened Bytes

  datatype Condition = Bitmask | Range | Change

  datatype Entry = Entry(address: bv16, condition: Condition, lo: bv16, hi: bv16)

  /** Zeroed at startup, and never reset between passes. */
  datatype State = State(active: bool, prev: bv16)

  const ZEROED: State := State(false, 0)

  datatype Kind = Trigger | Clear

  /** What an event says about one entry, and the event itself, which names the table entry. */
  datatype Notice = Notice(value: bv16, kind: Kind)
  datatype Event = Event(entry: nat, notice: Notice)

  /** None where the register could not be read. */
  type Reading = Option<bv16>

  predicate Sticky(e: Entry) { e.condition != Change }

  function Holds(e: Entry, value: bv16): bool
    requires Sticky(e)
  {
    if e.condition == Bitmask then BitmaskHolds(e.hi, value) else RangeHolds(e.lo, e.hi, value)
  }

  // ---------- When an entry alarms

  /** What the table's author means: each bit of the mask is set in the value, or the value is outside the limits. */
  ghost predicate Alarming(e: Entry, value: bv16) {
    match e.condition
    case Bitmask => AllBitsSet(e.hi, value)
    case Range => !Within(e.lo, e.hi, value)
    case Change => false
  }

  /** The code's comparisons evaluate that. */
  lemma HoldsMeans(e: Entry, value: bv16)
    requires Sticky(e)
    ensures Holds(e, value) <==> Alarming(e, value)
  {
    hide BitmaskHolds, RangeHolds, AllBitsSet, Within;
    BitmaskMeans(e.hi, value);
    RangeMeans(e.lo, e.hi, value);
  }

  // ---------- One entry

  function NextState(e: Entry, s: State, reading: Reading): State {
    match reading
    case None => s
    case Some(value) => if Sticky(e) then s.(active := Holds(e, value)) else s.(prev := value)
  }

  function Notices(e: Entry, s: State, reading: Reading): seq<Notice> {
    match reading
    case None => []
    case Some(value) =>
      if Sticky(e) then
        if Holds(e, value) == s.active then [] else [Notice(value, if s.active then Clear else Trigger)]
      else if value != s.prev then [Notice(value, Trigger)]
      else []
  }

  // ---------- One pass

  function Named(i: nat, notices: seq<Notice>): (events: seq<Event>)
    ensures |events| == |notices|
  {
    seq(|notices|, k requires 0 <= k < |notices| => Event(i, notices[k]))
  }

  /** The events of the first `n` entries of a pass, in table order. */
  function PassEvents(table: seq<Entry>, states: seq<State>, readings: seq<Reading>, n: nat): seq<Event>
    requires n <= |table| == |states| == |readings|
  {
    if n == 0 then []
    else PassEvents(table, states, readings, n - 1)
         + Named(n - 1, Notices(table[n - 1], states[n - 1], readings[n - 1]))
  }

  function PassStates(table: seq<Entry>, states: seq<State>, readings: seq<Reading>): (r: seq<State>)
    requires |table| == |states| == |readings|
    ensures |r| == |table|
  {
    seq(|table|, i requires 0 <= i < |table| => NextState(table[i], states[i], readings[i]))
  }

  /** A notice is due: the reading that causes it, and the state it finds. */
  ghost predicate Due(e: Entry, s: State, reading: Reading, n: Notice) {
    && reading == Some(n.value)
    && if e.condition == Change then n.kind == Trigger && n.value != s.prev
       else (n.kind == Trigger <==> Alarming(e, n.value)) && (n.kind == Clear <==> s.active)
  }

  /** In table order, exactly the notices due. */
  ghost predicate Reports(table: seq<Entry>, states: seq<State>, readings: seq<Reading>, events: seq<Event>)
    requires |table| == |states| == |readings|
  {
    && (forall j, k :: 0 <= j < k < |events| ==> events[j].entry < events[k].entry)
    && (forall i: nat, n :: Event(i, n) in events <==> i < |table| && Due(table[i], states[i], readings[i], n))
  }

  /** An entry's new state: its last reading decides, and a failed one changes nothing. */
  ghost predicate Evaluated(e: Entry, s: State, reading: Reading, s': State) {
    match reading
    case None => s' == s
    case Some(value) =>
      if e.condition == Change then s' == State(s.active, value)
      else s'.prev == s.prev && (s'.active <==> Alarming(e, value))
  }

  lemma NoticesAreDue(e: Entry, s: State, reading: Reading, n: Notice)
    ensures |Notices(e, s, reading)| <= 1
    ensures n in Notices(e, s, reading) <==> Due(e, s, reading, n)
    ensures Evaluated(e, s, reading, NextState(e, s, reading))
  {
    hide Alarming, Holds;
    if Sticky(e) && reading.Some? {
      HoldsMeans(e, reading.value);
    }
  }

  /** One entry more at the end of the table. */
  lemma ReportsOneMore(table: seq<Entry>, states: seq<State>, readings: seq<Reading>, events: seq<Event>,
                       e: Entry, s: State, r: Reading)
    requires |table| == |states| == |readings| && Reports(table, states, readings, events)
    ensures Reports(table + [e], states + [s], readings + [r], events + Named(|table|, Notices(e, s, r)))
  {
    hide Notices, Due, Alarming;
    var last, own, all := |table|, Notices(e, s, r), events + Named(|table|, Notices(e, s, r));
    forall i: nat, n
      ensures Event(i, n) in all <==> i <= last && Due((table + [e])[i], (states + [s])[i], (readings + [r])[i], n)
    {
      NoticesAreDue(e, s, r, n);
      assert Event(i, n) in events ==> i < last;
      if n in own && i == last {
        var k :| 0 <= k < |own| && own[k] == n;
        assert Named(last, own)[k] == Event(i, n);
      }
    }
    forall j, k | 0 <= j < k < |all| ensures all[j].entry < all[k].entry {
      NoticesAreDue(e, s, r, Notice(0, Trigger));
      assert events[j] == Event(events[j].entry, events[j].notice) && events[j] in events;
    }
  }

  lemma {:induction false} PassReports(table: seq<Entry>, states: seq<State>, readings: seq<Reading>, n: nat)
    requires n <= |table| == |states| == |readings|
    ensures Reports(table[..n], states[..n], readings[..n], PassEvents(table, states, readings, n))
    decreases n
  {
    hide Notices, Due, Named, Reports;
    if n == 0 {
      NothingReported(table[..0], states[..0], readings[..0]);
    } else {
      PassReports(table, states, readings, n - 1);
      ReportsOneMore(table[..n - 1], states[..n - 1], readings[..n - 1], PassEvents(table, states, readings, n - 1),
                     table[n - 1], states[n - 1], readings[n - 1]);
      assert table[..n] == table[..n - 1] + [table[n - 1]];
      assert states[..n] == states[..n - 1] + [states[n - 1]];
      assert readings[..n] == readings[..n - 1] + [readings[n - 1]];
    }
  }

  lemma NothingReported(table: seq<Entry>, states: seq<State>, readings: seq<Reading>)
    requires table == [] && states == [] && readings == []
    ensures Reports(table, states, readings, [])
  {
  }

  lemma WholePassReports(table: seq<Entry>, states: seq<State>, readings: seq<Reading>)
    requires |table| == |states| == |readings|
    ensures Reports(table, states, readings, PassEvents(table, states, readings, |table|))
  {
    hide Reports, PassEvents;
    PassReports(table, states, readings, |table|);
    assert table[..|table|] == table && states[..|table|] == states && readings[..|table|] == readings;
  }

  class Engine {
    const table: seq<Entry>
    const states: array<State>
    /** Everything handed to the event callback. */
    var log: seq<Event>

    ghost predicate Valid()
      reads this
    {
      states.Length == |table|
    }

    constructor (table: seq<Entry>)
      ensures Valid() && this.table == table && log == [] && fresh(states)
      ensures forall i :: 0 <= i < |table| ==> states[i] == ZEROED
    {
      this.table := table;
      states := new State[|table|](_ => ZEROED);
      log := [];
    }

    method ApplySticky(i: nat, value: bv16, triggered: bool)
      requires Valid() && i < |table|
      modifies states, this`log
      ensures states[..] == old(states[..])[i := old(states[i]).(active := triggered)]
      ensures log == old(log) + if old(states[i]).active == triggered then []
                                else [Event(i, Notice(value, if triggered then Trigger else Clear))]
    {
      if triggered && !states[i].active {
        states[i] := states[i].(active := true);
        log := log + [Event(i, Notice(value, Trigger))];
      } else if !triggered && states[i].active {
        states[i] := states[i].(active := false);
        log := log + [Event(i, Notice(value, Clear))];
      }
    }

    method RunEntry(i: nat, reading: Reading)
      requires Valid() && i < |table|
      modifies states, this`log
      ensures states[..] == old(states[..])[i := NextState(table[i], old(states[i]), reading)]
      ensures log == old(log) + Named(i, Notices(table[i], old(states[i]), reading))
    {
      hide BitmaskHolds, RangeHolds;
      var e := table[i];
      match reading {
        case None =>
        case Some(value) =>
          match e.condition {
            case Bitmask => ApplySticky(i, value, BitmaskHolds(e.hi, value));
            case Range => ApplySticky(i, value, RangeHolds(e.lo, e.hi, value));
            case Change =>
              var changed := value != states[i].prev;
              states[i] := states[i].(prev := value);
              if changed {
                log := log + [Event(i, Notice(value, Trigger))];
              }
          }
      }
    }

    /** One pass; `readings[i]` is what reading entry i's register gives. */
    method Run(readings: seq<Reading>)
      requires Valid() && |readings| == |table|
      modifies states, this`log
      ensures states[..] == PassStates(table, old(states[..]), readings)
      ensures log == old(log) + PassEvents(table, old(states[..]), readings, |table|)
      ensures forall i :: 0 <= i < |table| ==> Evaluated(table[i], old(states[i]), readings[i], states[i])
      ensures |old(log)| <= |log| && log[..|old(log)|] == old(log)
      ensures Reports(table, old(states[..]), readings, log[|old(log)|..])
    {
      hide PassEvents, PassStates, NextState, Notices, Named, Evaluated, Reports;
      ghost var was := states[..];
      ghost var before := log;
      PassStart(table, was, readings, before);
      for i := 0 to |table|
        invariant states.Length == |table|
        invariant PassedTo(table, was, readings, states[..], i)
        invariant log == before + PassEvents(table, was, readings, i)
      {
        PassStep(table, was, readings, states[..], i, before);
        RunEntry(i, readings[i]);
      }
      PassDone(table, was, readings, states[..]);
      WholePassReports(table, was, readings);
      assert log[|before|..] == PassEvents(table, was, readings, |table|);
    }
  }

  /** The first `i` entries have been evaluated. */
  ghost predicate PassedTo(table: seq<Entry>, was: seq<State>, readings: seq<Reading>, now: seq<State>, i: nat)
    requires i <= |table| == |was| == |readings|
  {
    && |now| == |table|
    && (forall k :: 0 <= k < i ==> now[k] == NextState(table[k], was[k], readings[k]))
    && (forall k :: i <= k < |table| ==> now[k] == was[k])
  }

  lemma PassStart(table: seq<Entry>, was: seq<State>, readings: seq<Reading>, log: seq<Event>)
    requires |table| == |was| == |readings|
    ensures PassedTo(table, was, readings, was, 0) && log + PassEvents(table, was, readings, 0) == log
  {
  }

  lemma PassStep(table: seq<Entry>, was: seq<State>, readings: seq<Reading>, now: seq<State>, i: nat, log: seq<Event>)
    requires i < |table| == |was| == |readings| && PassedTo(table, was, readings, now, i)
    ensures now[i] == was[i]
    ensures PassedTo(table, was, readings, now[i := NextState(table[i], now[i], readings[i])], i + 1)
    ensures log + PassEvents(table, was, readings, i + 1)
            == (log + PassEvents(table, was, readings, i)) + Named(i, Notices(table[i], was[i], readings[i]))
  {
    hide NextState, Notices, Named;
    Regroup(log, PassEvents(table, was, readings, i), Named(i, Notices(table[i], was[i], readings[i])));
  }

  lemma PassDone(table: seq<Entry>, was: seq<State>, readings: seq<Reading>, now: seq<State>)
    requires |table| == |was| == |readings| && PassedTo(table, was, readings, now, |table|)
    ensures now == PassStates(table, was, readings)
    ensures forall i :: 0 <= i < |table| ==> Evaluated(table[i], was[i], readings[i], now[i])
  {
    hide NextState, Evaluated, Notices, Due;
    forall i | 0 <= i < |table| ensures Evaluated(table[i], was[i], readings[i], now[i]) {
      NoticesAreDue(table[i], was[i], readings[i], Notice(0, Trigger));
    }
  }

  // ---------- Any number of passes

  type Pass = seq<Reading>

  function StatesAfter(table: seq<Entry>, states: seq<State>, passes: seq<Pass>): (r: seq<State>)
    requires |states| == |table| && forall p :: p in passes ==> |p| == |table|
    ensures |r| == |table|
    decreases |passes|
  {
    if passes == [] then states else StatesAfter(table, PassStates(table, states, passes[0]), passes[1..])
  }

  function EventsOf(table: seq<Entry>, states: seq<State>, passes: seq<Pass>): seq<Event>
    requires |states| == |table| && forall p :: p in passes ==> |p| == |table|
    decreases |passes|
  {
    if passes == [] then []
    else
      PassEvents(table, states, passes[0], |table|)
      + EventsOf(table, PassStates(table, states, passes[0]), passes[1..])
  }

  /** The notices about entry `i`. */
  function About(events: seq<Event>, i: nat): seq<Notice> {
    if events == [] then []
    else if events[0].entry == i then [events[0].notice] + About(events[1..], i)
    else About(events[1..], i)
  }

  function Column(passes: seq<Pass>, i: nat): (readings: seq<Reading>)
    requires forall p :: p in passes ==> i < |p|
    ensures |readings| == |passes|
  {
    seq(|passes|, k requires 0 <= k < |passes| => passes[k][i])
  }

  /** One entry on its own, over its own readings. */
  function AloneState(e: Entry, s: State, readings: seq<Reading>): State
    decreases |readings|
  {
    if readings == [] then s else AloneState(e, NextState(e, s, readings[0]), readings[1..])
  }

  function AloneNotices(e: Entry, s: State, readings: seq<Reading>): seq<Notice>
    decreases |readings|
  {
    if readings == [] then []
    else Notices(e, s, readings[0]) + AloneNotices(e, NextState(e, s, readings[0]), readings[1..])
  }

  lemma {:induction false} AboutConcat(a: seq<Event>, b: seq<Event>, i: nat)
    ensures About(a + b, i) == About(a, i) + About(b, i)
  {
    if a == [] {
      assert a + b == b;
      assert [] + About(b, i) == About(b, i);
    } else {
      AboutConcat(a[1..], b, i);
      assert (a + b)[1..] == a[1..] + b;
      var first := [a[0].notice];
      assert (first + About(a[1..], i)) + About(b, i) == first + (About(a[1..], i) + About(b, i));
    }
  }

  lemma {:induction false} AboutMeans(events: seq<Event>, i: nat, n: Notice)
    ensures n in About(events, i) <==> Event(i, n) in events
  {
    if events != [] {
      AboutMeans(events[1..], i, n);
      assert Event(i, n) in events <==> events[0] == Event(i, n) || Event(i, n) in events[1..];
    }
  }

  lemma {:induction false} AboutNamed(n: nat, notices: seq<Notice>, i: nat)
    ensures About(Named(n, notices), i) == if n == i then notices else []
  {
    if notices != [] {
      AboutNamed(n, notices[1..], i);
      assert Named(n, notices)[1..] == Named(n, notices[1..]);
    }
  }

  lemma {:induction false} AboutPass(table: seq<Entry>, states: seq<State>, readings: seq<Reading>, n: nat, i: nat)
    requires n <= |table| == |states| == |readings|
    ensures About(PassEvents(table, states, readings, n), i)
            == if i < n then Notices(table[i], states[i], readings[i]) else []
  {
    hide Named, Notices, About;
    if n > 0 {
      AboutPass(table, states, readings, n - 1, i);
      var own := Notices(table[n - 1], states[n - 1], readings[n - 1]);
      AboutNamed(n - 1, own, i);
      AboutConcat(PassEvents(table, states, readings, n - 1), Named(n - 1, own), i);
    } else {
      AboutNamed(0, [], i);
    }
  }

  /** Entries never affect one another: in any run, each behaves as if it were alone with its own readings. */
  lemma {:induction false} EntriesIndependent(table: seq<Entry>, states: seq<State>, passes: seq<Pass>, i: nat)
    requires |states| == |table| && i < |table| && forall p :: p in passes ==> |p| == |table|
    ensures StatesAfter(table, states, passes)[i] == AloneState(table[i], states[i], Column(passes, i))
    ensures About(EventsOf(table, states, passes), i) == AloneNotices(table[i], states[i], Column(passes, i))
    decreases |passes|
  {
    hide About, PassEvents, Notices, NextState;
    if passes == [] {
      AboutNamed(i, [], i);
      assert Named(i, []) == [];
    } else {
      var next := PassStates(table, states, passes[0]);
      EntriesIndependent(table, next, passes[1..], i);
      AboutPass(table, states, passes[0], |table|, i);
      AboutConcat(PassEvents(table, states, passes[0], |table|), EventsOf(table, next, passes[1..]), i);
      assert Column(passes, i)[1..] == Column(passes[1..], i);
    }
  }

  // ---------- What each entry reports

  /** The readings that succeeded. */
  function Values(readings: seq<Reading>): seq<bv16> {
    if readings == [] then []
    else if readings[0].Some? then [readings[0].value] + Values(readings[1..])
    else Values(readings[1..])
  }

  function Count(notices: seq<Notice>, kind: Kind): nat {
    if notices == [] then 0 else (if notices[0].kind == kind then 1 else 0) + Count(notices[1..], kind)
  }

  /** Alternately Trigger and Clear, the first as given. */
  predicate Alternates(notices: seq<Notice>, first: Kind) {
    forall k :: 0 <= k < |notices| ==> (notices[k].kind == first <==> k % 2 == 0)
  }

  /** The condition at the last successful read, or `initial` if there was none. */
  ghost function LastHeld(e: Entry, initial: bool, values: seq<bv16>): bool {
    if values == [] then initial else Alarming(e, values[|values| - 1])
  }

  lemma {:induction false} StickyFlag(e: Entry, s: State, readings: seq<Reading>)
    requires Sticky(e)
    ensures AloneState(e, s, readings).active == LastHeld(e, s.active, Values(readings))
    decreases |readings|
  {
    hide Holds, Alarming;
    if readings != [] {
      StickyFlag(e, NextState(e, s, readings[0]), readings[1..]);
      if readings[0].Some? {
        HoldsMeans(e, readings[0].value);
        assert Values(readings) == [readings[0].value] + Values(readings[1..]);
      }
    }
  }

  /**
   * A sticky entry from any state: its events alternate, its flag is the condition at the last
   * successful read, and triggers minus clears is the change in the flag.
   */
  lemma {:induction false} StickyEntry(e: Entry, s: State, readings: seq<Reading>)
    requires Sticky(e)
    ensures var notices := AloneNotices(e, s, readings);
            var end := AloneState(e, s, readings);
            Alternates(notices, if s.active then Clear else Trigger)
            && end.active == LastHeld(e, s.active, Values(readings))
            && Count(notices, Trigger) - Count(notices, Clear)
               == (if end.active then 1 else 0) - (if s.active then 1 else 0)
    decreases |readings|
  {
    hide Holds, LastHeld, Alternates;
    StickyFlag(e, s, readings);
    if readings == [] {
      AlternatesNone(if s.active then Clear else Trigger);
    } else {
      var next := NextState(e, s, readings[0]);
      var later := AloneNotices(e, next, readings[1..]);
      StickyEntry(e, next, readings[1..]);
      if Notices(e, s, readings[0]) == [] {
        assert AloneNotices(e, s, readings) == later;
      } else {
        var first := Notices(e, s, readings[0])[0];
        assert AloneNotices(e, s, readings) == [first] + later;
        AlternatesMore(first, later);
      }
    }
  }

  lemma AlternatesNone(first: Kind)
    ensures Alternates([], first)
  {
  }

  lemma AlternatesMore(first: Notice, later: seq<Notice>)
    requires Alternates(later, if first.kind == Clear then Trigger else Clear)
    ensures Alternates([first] + later, first.kind)
    ensures forall kind :: Count([first] + later, kind) == (if first.kind == kind then 1 else 0) + Count(later, kind)
  {
    var all := [first] + later;
    assert all[1..] == later;
    forall k | 0 <= k < |all| ensures all[k].kind == first.kind <==> k % 2 == 0 {
      if k > 0 {
        assert all[k] == later[k - 1];
      }
    }
  }

  /** The values that differ from the one before, starting from `prev`. */
  function Changes(prev: bv16, values: seq<bv16>): seq<Notice>
    decreases |values|
  {
    if values == [] then []
    else if values[0] != prev then [Notice(values[0], Trigger)] + Changes(values[0], values[1..])
    else Changes(values[0], values[1..])
  }

  /** A change entry triggers once per change in its previous value followed by its readings, and never clears. */
  lemma {:induction false} ChangeEntry(e: Entry, s: State, readings: seq<Reading>)
    requires !Sticky(e)
    ensures AloneNotices(e, s, readings) == Changes(s.prev, Values(readings))
    decreases |readings|
  {
    if readings != [] {
      var next := NextState(e, s, readings[0]);
      ChangeEntry(e, next, readings[1..]);
      var later := AloneNotices(e, next, readings[1..]);
      assert AloneNotices(e, s, readings) == Notices(e, s, readings[0]) + later;
      hide AloneNotices;
      if readings[0].Some? {
        ChangesMore(s.prev, readings[0].value, Values(readings[1..]));
      } else {
        assert [] + later == later;
      }
    }
  }

  lemma ChangesMore(prev: bv16, value: bv16, values: seq<bv16>)
    ensures Changes(prev, [value] + values)
            == (if value != prev then [Notice(value, Trigger)] else []) + Changes(value, values)
  {
    var all := [value] + values;
    assert all[0] == value && all[1..] == values;
    assert [] + Changes(value, values) == Changes(value, values);
  }

  /** What the engine's header promises for CHANGE: a change to zero stays silent. */
  function DocumentedChanges(prev: bv16, values: seq<bv16>): seq<Notice>
    decreases |values|
  {
    if values == [] then []
    else if values[0] != 0 && values[0] != prev
    then [Notice(values[0], Trigger)] + DocumentedChanges(values[0], values[1..])
    else DocumentedChanges(values[0], values[1..])
  }

  /** No zero is read right after a non-zero value. */
  predicate NeverFallsToZero(prev: bv16, values: seq<bv16>)
    decreases |values|
  {
    values == [] || ((values[0] == 0 ==> prev == 0) && NeverFallsToZero(values[0], values[1..]))
  }

  /** The header's rule and the code agree exactly on the runs in which the register never falls to zero. */
  lemma {:induction false} DocumentedChangesIff(prev: bv16, values: seq<bv16>)
    ensures Changes(prev, values) == DocumentedChanges(prev, values) <==> NeverFallsToZero(prev, values)
    ensures |DocumentedChanges(prev, values)| <= |Changes(prev, values)|
    ensures |DocumentedChanges(prev, values)| == |Changes(prev, values)| ==> NeverFallsToZero(prev, values)
    decreases |values|
  {
    if values != [] {
      DocumentedChangesIff(values[0], values[1..]);
    }
  }

  /** One reading more, for an entry on its own. */
  lemma {:induction false} AloneOneMore(e: Entry, s: State, readings: seq<Reading>, last: Reading)
    ensures AloneNotices(e, s, readings + [last])
            == AloneNotices(e, s, readings) + Notices(e, AloneState(e, s, readings), last)
    decreases |readings|
  {
    hide Notices, NextState;
    var all := readings + [last];
    if readings == [] {
      assert all == [last] && all[1..] == [];
      assert [] + Notices(e, s, last) == Notices(e, s, last) + [];
    } else {
      AloneOneMore(e, NextState(e, s, readings[0]), readings[1..], last);
      assert all[0] == readings[0] && all[1..] == readings[1..] + [last];
    }
  }

  /** A change entry remembers its last successful reading. */
  lemma {:induction false} ChangeState(e: Entry, s: State, readings: seq<Reading>)
    requires !Sticky(e)
    ensures var values := Values(readings);
            AloneState(e, s, readings).prev == if values == [] then s.prev else values[|values| - 1]
    decreases |readings|
  {
    if readings != [] {
      ChangeState(e, NextState(e, s, readings[0]), readings[1..]);
      if readings[0].Some? {
        assert Values(readings) == [readings[0].value] + Values(readings[1..]);
      }
    }
  }

  lemma {:induction false} ValuesOneMore(readings: seq<Reading>, last: Reading)
    ensures Values(readings + [last]) == Values(readings) + if last.Some? then [last.value] else []
    ensures Values([]) == []
  {
    if readings != [] {
      ValuesOneMore(readings[1..], last);
      assert (readings + [last])[1..] == readings[1..] + [last];
    } else {
      assert (readings + [last])[1..] == [];
    }
  }

  /**
   * From startup, whatever has happened before: what one pass more reports for an entry. `before` are its successful
   * readings until then.
   */
  lemma OnePassMore(table: seq<Entry>, passes: seq<Pass>, last: Pass, i: nat)
    requires i < |table| == |last| && forall p :: p in passes ==> |p| == |table|
    ensures var states := seq(|table|, _ => ZEROED);
            var all := passes + [last];
            var before := Values(Column(passes, i));
            var latest := if before == [] then 0 else before[|before| - 1];
            About(EventsOf(table, states, all), i)
            == About(EventsOf(table, states, passes), i)
               + match last[i]
                 case None => []
                 case Some(value) =>
                   if table[i].condition == Change then
                     if value == latest then [] else [Notice(value, Trigger)]
                   else
                     var was, now := before != [] && Alarming(table[i], latest), Alarming(table[i], value);
                     if now && !was then [Notice(value, Trigger)]
                     else if was && !now then [Notice(value, Clear)]
                     else []
  {
    hide About, EventsOf, StatesAfter, AloneState, AloneNotices, Values, Alarming, Holds;
    var states := seq(|table|, _ => ZEROED);
    var all, column := passes + [last], Column(passes, i);
    EntriesIndependent(table, states, passes, i);
    EntriesIndependent(table, states, all, i);
    assert Column(all, i) == column + [last[i]];
    AloneOneMore(table[i], ZEROED, column, last[i]);
    if Sticky(table[i]) {
      StickyFlag(table[i], ZEROED, column);
      if last[i].Some? {
        HoldsMeans(table[i], last[i].value);
      }
    } else {
      ChangeState(table[i], ZEROED, column);
    }
  }

  /** From startup, in any run: what every entry of the table has reported, and whether it is active. */
  lemma AlarmsFromStartup(table: seq<Entry>, passes: seq<Pass>, i: nat)
    requires i < |table| && forall p :: p in passes ==> |p| == |table|
    ensures var states := seq(|table|, _ => ZEROED);
            var e, notices := table[i], About(EventsOf(table, states, passes), i);
            var active := StatesAfter(table, states, passes)[i].active;
            var values := Values(Column(passes, i));
            && (e.condition == Range ==>
                  (active <==> values != [] && !Within(e.lo, e.hi, values[|values| - 1])))
            && (e.condition == Bitmask ==>
                  (active <==> values != [] && AllBitsSet(e.hi, values[|values| - 1])))
            && (e.condition != Change ==>
                  && Alternates(notices, Trigger)
                  && Count(notices, Trigger) - Count(notices, Clear) == if active then 1 else 0)
            && (e.condition == Change ==> notices == Changes(0, values))
  {
    var states := seq(|table|, _ => ZEROED);
    var values := Values(Column(passes, i));
    LastHeldMeans(table[i], values);
    if values != [] {
      AlarmingMeans(table[i], values[|values| - 1]);
    }
    hide LastHeld, Alternates, About, EventsOf, StatesAfter, AloneState, AloneNotices, Values, Column, Count, Changes,
      AllBitsSet, Within, Alarming;
    EntriesIndependent(table, states, passes, i);
    if Sticky(table[i]) {
      StickyEntry(table[i], ZEROED, Column(passes, i));
    } else {
      ChangeEntry(table[i], ZEROED, Column(passes, i));
    }
  }

  lemma AlarmingMeans(e: Entry, value: bv16)
    ensures e.condition == Range ==> (Alarming(e, value) <==> !Within(e.lo, e.hi, value))
    ensures e.condition == Bitmask ==> (Alarming(e, value) <==> AllBitsSet(e.hi, value))
  {
    hide AllBitsSet, Within;
  }

  lemma LastHeldMeans(e: Entry, values: seq<bv16>)
    ensures LastHeld(e, false, values) <==> values != [] && Alarming(e, values[|values| - 1])
  {
    hide Alarming;
  }
}
