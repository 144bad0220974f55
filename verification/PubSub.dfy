/** From publish to callback: the printer, the stream, the reassembler and the filter put together. */
module PubSub {
  import opened Bytes
  import opened CStrings
  import opened LineBuffer
  import opened Publisher
  import opened Subscriber

  /** Free of what the protocol uses to separate: space, CR, LF and NUL. */
  predicate Plain(s: string) {
    Free(s, " \r\n\0")
  }

  predicate PlainField(f: Option<string>) {
    f.Some? ==> Plain(f.value)
  }

  /** A message the protocol can carry: a state, type or key, plain fields, and a line that is not cut. */
  ghost predicate Carried(topic: string, m: Msg) {
    && Tagged(m)
    && PlainField(m.state) && PlainField(m.typ) && PlainField(m.key) && PlainField(m.value)
    && topic != "" && Plain(topic)
    && |Line(topic, m)| < LineBuffer.LINE_BUF
  }

  /** What a subscriber should hear of a message: its value when it filters by key, else the whole data part. */
  function Heard(slot: Slot, topic: string, m: Msg): Option<Call> {
    if slot.topic == topic && slot.hasCallback
       && Passes(slot.state, m.state) && Passes(slot.typ, m.typ) && Passes(slot.key, m.key)
    then Some(Call(topic, if slot.key != "" then OrEmpty(m.value) else Data(m)))
    else None
  }

  // ---------- One message

  lemma FreeConcat(a: string, b: string, stops: string)
    requires Free(a, stops) && Free(b, stops)
    ensures Free(a + b, stops)
  {
  }

  predicate PlainWords(words: seq<string>) {
    forall i :: 0 <= i < |words| ==> words[i] != "" && Plain(words[i])
  }

  lemma PartPlain(name: string, field: Option<string>)
    requires name != "" && Plain(name) && PlainField(field)
    ensures PlainWords(Part(name, field))
  {
    if field.Some? {
      FreeConcat(name, field.value, " \r\n\0");
    }
  }

  lemma PlainConcat(a: seq<string>, b: seq<string>)
    requires PlainWords(a) && PlainWords(b)
    ensures PlainWords(a + b)
  {
    hide Plain;
  }

  lemma WordsPlain(m: Msg)
    requires Tagged(m) && PlainField(m.state) && PlainField(m.typ) && PlainField(m.key) && PlainField(m.value)
    ensures Words(m) != []
    ensures forall i :: 0 <= i < |Words(m)| ==> Words(m)[i] != "" && Plain(Words(m)[i])
  {
    assert Words(m) != [];
    assert Plain("state=") && Plain("type=") && Plain("key=") && Plain("value=");
    var p1, p2, p3, p4 := Part("state=", m.state), Part("type=", m.typ), Part("key=", m.key), Part("value=", m.value);
    assert Words(m) == p1 + p2 + p3 + p4;
    hide Part, Plain, PlainField, Words;
    PartPlain("state=", m.state);
    PartPlain("type=", m.typ);
    PartPlain("key=", m.key);
    PartPlain("value=", m.value);
    PlainConcat(p1, p2);
    PlainConcat(p1 + p2, p3);
    PlainConcat(p1 + p2 + p3, p4);
  }

  lemma {:induction false} JoinFree(words: seq<string>, stops: string)
    requires words != [] && ' ' !in stops
    requires forall i :: 0 <= i < |words| ==> words[i] != "" && Free(words[i], stops)
    ensures Join(words, ' ') != "" && Free(Join(words, ' '), stops)
    decreases |words|
  {
    if |words| > 1 {
      JoinFree(words[1..], stops);
    }
  }

  lemma LastFieldOfPart(words: seq<string>, name: string, partName: string, field: Option<string>)
    ensures LastField(words + Part(partName, field), name)
            == if field.Some? && StartsWith(partName + field.value, name) then Some((partName + field.value)[|name|..])
               else LastField(words, name)
  {
    var all := words + Part(partName, field);
    if field.Some? {
      assert all[..|all| - 1] == words;
    } else {
      assert all == words;
    }
  }

  lemma NameStarts(name: string, other: string, text: string)
    requires name != "" && other != ""
    ensures name == other ==> StartsWith(other + text, name) && (other + text)[|name|..] == text
    ensures name[0] != other[0] ==> !StartsWith(other + text, name)
  {
    if StartsWith(other + text, name) {
      assert (other + text)[..|name|][0] == (other + text)[0];
    }
  }

  /** The parse loop finds the fields the message was printed from. */
  lemma FieldsRecovered(m: Msg)
    requires Tagged(m)
    ensures FieldsOf(Words(m)) == Fields(m.state, m.typ, m.key, m.value)
  {
    forall name | name in ["state=", "type=", "key=", "value="]
      ensures LastField(Words(m), name)
              == if name == "state=" then m.state else if name == "type=" then m.typ
                 else if name == "key=" then m.key else m.value
    {
      FieldRecovered(m, name);
    }
  }

  lemma FieldRecovered(m: Msg, name: string)
    requires Tagged(m) && name in ["state=", "type=", "key=", "value="]
    ensures LastField(Words(m), name)
            == if name == "state=" then m.state else if name == "type=" then m.typ
               else if name == "key=" then m.key else m.value
  {
    hide StartsWith;
    var w1 := Part("state=", m.state);
    var w2 := w1 + Part("type=", m.typ);
    var w3 := w2 + Part("key=", m.key);
    LastFieldOfPart([], name, "state=", m.state);
    assert [] + w1 == w1;
    LastFieldOfPart(w1, name, "type=", m.typ);
    LastFieldOfPart(w2, name, "key=", m.key);
    LastFieldOfPart(w3, name, "value=", m.value);
    NameStarts(name, "state=", OrEmpty(m.state));
    NameStarts(name, "type=", OrEmpty(m.typ));
    NameStarts(name, "key=", OrEmpty(m.key));
    NameStarts(name, "value=", OrEmpty(m.value));
  }

  lemma DataPlain(topic: string, m: Msg)
    requires Carried(topic, m)
    ensures Data(m) != "" && Free(Data(m), "\r\n\0") && |Data(m)| < TMP_BUF
    ensures Line(topic, m) == LineOf(topic, Data(m))
  {
    WordsPlain(m);
    JoinFree(Words(m), "\r\n\0");
    hide Words, Free, Join;
    CutPlain(Data(m));
  }

  /** Text without a NUL is cut only by the buffer. */
  lemma CutPlain(data: string)
    requires Free(data, "\r\n\0")
    ensures CStr(Truncated(data, DATA_BUF)) == Truncated(data, DATA_BUF)
  {
    hide CStr;
    assert '\0' !in Truncated(data, DATA_BUF);
  }

  lemma LineWhole(topic: string, m: Msg)
    requires Carried(topic, m)
    ensures WholeLine(Line(topic, m)) && CStr(Line(topic, m)) == Line(topic, m) && Cut(Line(topic, m)) == Line(topic, m)
  {
    DataPlain(topic, m);
    hide Data, CStr;
    var body := "MSG " + topic + " " + Data(m);
    assert Free("MSG ", "\r\n\0") && Free(topic, "\r\n\0") && Free(" ", "\r\n\0");
    FreeConcat("MSG ", topic, "\r\n\0");
    FreeConcat("MSG " + topic, " ", "\r\n\0");
    FreeConcat("MSG " + topic + " ", Data(m), "\r\n\0");
    assert LineOf(topic, Data(m)) == body + ['\n'];
    assert LineOf(topic, Data(m))[..|body|] == body;
  }

  /** A message the protocol can carry is formatted within its buffer. */
  lemma CarriedIsSent(topic: string, m: Msg, stack: seq<char>)
    requires Carried(topic, m)
    ensures Sendable(topic, m, stack) == Some(Line(topic, m))
  {
    hide Join, Line, Within;
    WordsPlain(m);
    DataPlain(topic, m);
    FormatsWithinIff(m);
    var n := |Words(m)|;
    JoinGrows(Words(m), n - 1, n);
    assert Words(m)[..n] == Words(m);
  }

  /** Tokenising a line: its command, its topic and its data part. */
  lemma LineTokens(topic: string, data: string)
    requires topic != "" && Plain(topic) && data != "" && Free(data, "\r\n\0")
    ensures Strtok("MSG " + topic + " " + data + "\n", " \r\n") == Some(Token("MSG", topic + " " + data + "\n"))
    ensures Strtok(topic + " " + data + "\n", " \r\n") == Some(Token(topic, data + "\n"))
    ensures Strtok(data + "\n", "\r\n") == Some(Token(data, ""))
  {
    hide Strtok;
    var rest := topic + " " + data + "\n";
    assert "MSG " + topic + " " + data + "\n" == "MSG" + [' '] + rest;
    StrtokTakesWord("MSG", ' ', rest, " \r\n");
    assert rest == topic + [' '] + (data + "\n");
    StrtokTakesWord(topic, ' ', data + "\n", " \r\n");
    assert data + "\n" == data + ['\n'] + "";
    StrtokTakesWord(data, '\n', "", "\r\n");
  }

  /** A carried message reaches a callback exactly as it should. */
  lemma MessageHeard(slot: Slot, topic: string, m: Msg)
    requires Carried(topic, m)
    ensures Dispatch(slot, Line(topic, m)) == Heard(slot, topic, m)
  {
    DataPlain(topic, m);
    LineWhole(topic, m);
    LineTokens(topic, Data(m));
    PayloadHeard(slot, topic, m);
    hide Strtok, CStr, Free, Data, Payload, Cut, WholeLine;
  }

  lemma PayloadHeard(slot: Slot, topic: string, m: Msg)
    requires Carried(topic, m)
    ensures Payload(slot, Data(m))
            == if Passes(slot.state, m.state) && Passes(slot.typ, m.typ) && Passes(slot.key, m.key)
               then Some(if slot.key != "" then OrEmpty(m.value) else Data(m)) else None
  {
    DataPlain(topic, m);
    WordsPlain(m);
    TokensOfWords(Words(m));
    FieldsRecovered(m);
    hide Carried, Free, Tokens, Join, Words, LastField;
  }

  lemma TokensOfWords(words: seq<string>)
    requires forall i :: 0 <= i < |words| ==> words[i] != "" && Plain(words[i])
    ensures Tokens(Join(words, ' '), " ") == words
  {
    assert forall i :: 0 <= i < |words| ==> Free(words[i], [' ']);
    TokensOfJoin(words, ' ');
  }

  // ---------- Any number of messages, any chunking

  function Lines(topic: string, msgs: seq<Msg>): (r: seq<string>)
    ensures |r| == |msgs|
  {
    seq(|msgs|, i requires 0 <= i < |msgs| => Line(topic, msgs[i]))
  }

  /** The calls a connection's lines make. */
  function Calls(slot: Slot, lines: seq<string>): seq<Call> {
    if lines == [] then []
    else
      match Dispatch(slot, lines[0])
      case None => Calls(slot, lines[1..])
      case Some(call) => [call] + Calls(slot, lines[1..])
  }

  /** The calls of the lines before `k`, and of the rest. */
  predicate CallsSplit(slot: Slot, lines: seq<string>, k: nat, calls: seq<Call>)
    requires k <= |lines|
  {
    Calls(slot, lines) == calls + Calls(slot, lines[k..])
  }

  lemma CallsStart(slot: Slot, lines: seq<string>)
    ensures CallsSplit(slot, lines, 0, [])
  {
    assert lines[0..] == lines;
  }

  lemma CallsEnd(slot: Slot, lines: seq<string>, calls: seq<Call>)
    requires CallsSplit(slot, lines, |lines|, calls)
    ensures calls == Calls(slot, lines)
  {
    assert lines[|lines|..] == [];
  }

  lemma CallsStep(slot: Slot, lines: seq<string>, k: nat, calls: seq<Call>)
    requires k < |lines| && CallsSplit(slot, lines, k, calls)
    ensures var call := Dispatch(slot, lines[k]);
            CallsSplit(slot, lines, k + 1, if call.Some? then calls + [call.value] else calls)
  {
    hide Dispatch;
    var rest, later := lines[k..], lines[k + 1..];
    assert rest[0] == lines[k] && rest[1..] == later;
    var calls' := Calls(slot, rest);
    if Dispatch(slot, lines[k]).Some? {
      assert calls' == [Dispatch(slot, lines[k]).value] + Calls(slot, later);
      hide Calls;
      Regroup(calls, [Dispatch(slot, lines[k]).value], Calls(slot, later));
    }
  }

  /** Handing lines on one by one makes exactly those calls, in order. */
  method HandleLines(slots: seq<Slot>, subSlot: int, lines: seq<string>) returns (calls: seq<Call>)
    ensures calls == if 0 <= subSlot < |slots| then Calls(slots[subSlot], lines) else []
  {
    hide Dispatch, Calls, CallsSplit;
    calls := [];
    ghost var known := 0 <= subSlot < |slots|;
    if known {
      CallsStart(slots[subSlot], lines);
    }
    for k := 0 to |lines|
      invariant if known then CallsSplit(slots[subSlot], lines, k, calls) else calls == []
    {
      if known {
        CallsStep(slots[subSlot], lines, k, calls);
      }
      var call := HandleLine(slots, subSlot, lines[k]);
      if call.Some? {
        calls := calls + [call.value];
      }
    }
    if known {
      CallsEnd(slots[subSlot], lines, calls);
    }
  }

  /** The calls the messages should make. */
  function AllHeard(slot: Slot, topic: string, msgs: seq<Msg>): seq<Call> {
    if msgs == [] then []
    else
      match Heard(slot, topic, msgs[0])
      case None => AllHeard(slot, topic, msgs[1..])
      case Some(call) => [call] + AllHeard(slot, topic, msgs[1..])
  }

  lemma {:induction false} LinesHeard(slot: Slot, topic: string, msgs: seq<Msg>)
    requires forall i :: 0 <= i < |msgs| ==> Carried(topic, msgs[i])
    ensures Calls(slot, Lines(topic, msgs)) == AllHeard(slot, topic, msgs)
    decreases |msgs|
  {
    if msgs != [] {
      hide Dispatch, Heard, Line;
      MessageHeard(slot, topic, msgs[0]);
      LinesHeard(slot, topic, msgs[1..]);
      var lines := Lines(topic, msgs);
      assert lines[0] == Line(topic, msgs[0]) && lines[1..] == Lines(topic, msgs[1..]);
      hide Lines;
    }
  }

  /**
   * End to end. Whatever carried messages are published, and however the stream is cut into chunks, the
   * subscriber is called back exactly with what it should hear, in the order of publication.
   */
  lemma PublishedMessagesHeard(slot: Slot, topic: string, msgs: seq<Msg>, chunks: seq<string>)
    requires forall i :: 0 <= i < |msgs| ==> Carried(topic, msgs[i])
    requires Concat(chunks) == Concat(Lines(topic, msgs))
    ensures var fed := FeedChunks("", chunks);
            fed.partial == "" && Calls(slot, fed.lines) == AllHeard(slot, topic, msgs)
  {
    hide Dispatch, Heard, Line, Feed, Cut;
    var lines := Lines(topic, msgs);
    forall i | 0 <= i < |lines|
      ensures WholeLine(lines[i]) && Cut(lines[i]) == lines[i]
    {
      LineWhole(topic, msgs[i]);
    }
    ChunkingIrrelevant("", chunks);
    FeedLines(lines);
    assert CutAll(lines) == lines;
    LinesHeard(slot, topic, msgs);
  }

  // ---------- From subscribing to hearing

  /** A given filter, empty or missing for any, wants exactly the messages with that field. */
  predicate Wants(filter: Option<string>, field: Option<string>) {
    OrEmpty(filter) == "" || field == filter
  }

  /** What a subscriber asked to hear of a message. */
  function AskedFor(topic: string, state: Option<string>, typ: Option<string>, key: Option<string>,
                    pubTopic: string, m: Msg): Option<Call>
  {
    if topic == pubTopic && Wants(state, m.state) && Wants(typ, m.typ) && Wants(key, m.key)
    then Some(Call(pubTopic, if OrEmpty(key) != "" then OrEmpty(m.value) else Data(m)))
    else None
  }

  /** A stored filter means the one that was given, for every message, exactly when it fits its field. */
  lemma FilterMeantIffFits(filter: string)
    ensures (forall field: Option<string> ::
               Passes(Truncated(filter, SLOT_FIELD), field) <==> Wants(Some(filter), field))
            <==> |filter| < SLOT_FIELD
  {
    if |filter| >= SLOT_FIELD {
      var own := Some(filter);
      assert Wants(Some(filter), own) && !Passes(Truncated(filter, SLOT_FIELD), own);
    }
  }

  /** Hence subscriptions whose names fit hear what they asked for. */
  lemma SubscriptionHears(topic: string, state: Option<string>, typ: Option<string>, key: Option<string>,
                          pubTopic: string, m: Msg)
    requires |topic| < SLOT_TOPIC
    requires |OrEmpty(state)| < SLOT_FIELD && |OrEmpty(typ)| < SLOT_FIELD && |OrEmpty(key)| < SLOT_FIELD
    ensures Heard(MakeSlot(topic, state, typ, key, true), pubTopic, m) == AskedFor(topic, state, typ, key, pubTopic, m)
  {
  }
}
