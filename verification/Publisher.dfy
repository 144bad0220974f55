/**
 * The publisher: how a message is put on the wire, and how the send loop keeps the
 * array of subscribers while it drops the dead ones.
 */
module Publisher {
  import opened Bytes
  import opened CStrings

  const DATA_BUF: nat := 896
  const LINE_BUF: nat := 1024
  const TOPIC_BUF: nat := 64
  const MAX_SUB_CLIENT: nat := 512

  datatype Msg = Msg(state: Option<string>, typ: Option<string>, key: Option<string>, value: Option<string>)

  // ---------- The wire format

  function Part(name: string, field: Option<string>): seq<string> {
    if field.Some? then [name + field.value] else []
  }

  predicate Tagged(m: Msg) {
    m.state.Some? || m.typ.Some? || m.key.Some?
  }

  function Tags(m: Msg): seq<string> {
    Part("state=", m.state) + Part("type=", m.typ) + Part("key=", m.key)
  }

  /** The space-separated words of a message; a value on its own has no name in front. */
  function Words(m: Msg): seq<string> {
    Tags(m) + Part(if Tagged(m) then "value=" else "", m.value)
  }

  function Data(m: Msg): string {
    Join(Words(m), ' ')
  }

  function LineOf(topic: string, data: string): string {
    "MSG " + topic + " " + data + "\n"
  }

  /** The line for a message: its data part cut to the buffer, and at a NUL if there is one. */
  function Line(topic: string, m: Msg): string {
    LineOf(topic, CStr(Truncated(Data(m), DATA_BUF)))
  }

  /** The text the printing calls put together, field by field. */
  function TagsText(m: Msg): string {
    var s := if m.state.Some? then "state=" + m.state.value else "";
    var st := if m.typ.None? then s else s + (if s == "" then "" else " ") + "type=" + m.typ.value;
    if m.key.None? then st else st + (if st == "" then "" else " ") + "key=" + m.key.value
  }

  lemma TagsJoined(m: Msg)
    ensures Join(Tags(m), ' ') == TagsText(m)
  {
    var w1 := Part("state=", m.state);
    var w2 := w1 + Part("type=", m.typ);
    assert [] + w1 == w1;
    PartNonempty("state=", m.state);
    PartNonempty("type=", m.typ);
    hide Join, Part;
    JoinPart([], "state=", m.state);
    JoinPart(w1, "type=", m.typ);
    JoinPart(w2, "key=", m.key);
    assert "" + "" + "state=" == "state=";
  }

  lemma PartNonempty(name: string, field: Option<string>)
    requires name != ""
    ensures forall i :: 0 <= i < |Part(name, field)| ==> Part(name, field)[i] != ""
  {
  }

  lemma DataText(m: Msg)
    ensures Data(m) == if m.value.None? then TagsText(m)
                       else if TagsText(m) == "" then m.value.value
                       else TagsText(m) + " value=" + m.value.value
  {
    WordsSplit(m);
    TagsJoined(m);
    hide Join, Words, Tags, TagsText;
    if m.value.Some? {
      JoinText(Tags(m), (if Tags(m) != [] then "value=" else "") + m.value.value);
      JoinsAs(Join(Tags(m), ' '), "value=", m.value.value);
      assert " " + "value=" == " value=";
    }
  }

  lemma WordsSplit(m: Msg)
    ensures Words(m) == if m.value.None? then Tags(m)
                        else Tags(m) + [(if Tags(m) != [] then "value=" else "") + m.value.value]
    ensures forall i :: 0 <= i < |Tags(m)| ==> Tags(m)[i] != ""
  {
    LastPart(m);
    assert Tags(m) + [] == Tags(m);
  }

  lemma JoinsAs(before: string, name: string, text: string)
    ensures before + (" " + (name + text)) == before + (" " + name) + text == before + " " + name + text
  {
  }

  /** A named field joined on. */
  lemma JoinPart(words: seq<string>, name: string, field: Option<string>)
    requires name != "" && forall i :: 0 <= i < |words| ==> words[i] != ""
    ensures var before := Join(words, ' ');
            Join(words + Part(name, field), ' ')
            == if field.None? then before else before + (if before == "" then "" else " ") + name + field.value
    ensures words == [] ==> Join(words, ' ') == ""
  {
    if field.Some? {
      JoinText(words, name + field.value);
      hide Join;
      var before := Join(words, ' ');
      var sep := if before == "" then "" else " ";
      Regroup(before + sep, name, field.value);
      Regroup(before, sep, name + field.value);
    } else {
      assert words + [] == words;
    }
  }

  /** A message with all four fields. */
  lemma FullMessageText(s: string, t: string, k: string, v: string)
    ensures Data(Msg(Some(s), Some(t), Some(k), Some(v)))
            == "state=" + s + " type=" + t + " key=" + k + " value=" + v
  {
    DataText(Msg(Some(s), Some(t), Some(k), Some(v)));
    hide Data;
    var d1 := "state=" + s;
    var d2 := d1 + " type=" + t;
    assert " " + "type=" == " type=" && " " + "key=" == " key=";
    JoinsAs(d1, "type=", t);
    JoinsAs(d2, "key=", k);
  }

  lemma {:induction false} JoinOneMore(words: seq<string>, word: string)
    ensures Join(words + [word], ' ') == if words == [] then word else Join(words, ' ') + " " + word
  {
    var all := words + [word];
    if words == [] {
      assert all == [word];
    } else if |words| == 1 {
      assert all[1..] == [word];
    } else {
      var head, rest := words[0] + [' '], words[1..];
      JoinOneMore(rest, word);
      assert all[1..] == rest + [word];
      assert Join(all, ' ') == head + Join(rest + [word], ' ') && Join(words, ' ') == head + Join(rest, ' ');
      hide Join;
      Regroup(Join(rest, ' '), " ", word);
      Regroup(head, Join(rest, ' '), " " + word);
      Regroup(Join(words, ' '), " ", word);
    }
  }

  /** What printing one more word adds. */
  lemma JoinText(words: seq<string>, word: string)
    requires forall i :: 0 <= i < |words| ==> words[i] != ""
    ensures Join(words, ' ') == "" <==> words == []
    ensures Join(words, ' ') + (if Join(words, ' ') == "" then word else " " + word) == Join(words + [word], ' ')
  {
    JoinEmpty(words);
    JoinOneMore(words, word);
    hide Join;
    Regroup(Join(words, ' '), " ", word);
  }

  lemma JoinEmpty(words: seq<string>)
    requires forall i :: 0 <= i < |words| ==> words[i] != ""
    ensures Join(words, ' ') == "" <==> words == []
  {
  }

  /** The buffer, read as a C string, is `text`, cut to fit. */
  predicate Shows(buf: seq<char>, text: string)
    requires |buf| > 0
  {
    var shown := Truncated(text, |buf|);
    buf[..|shown|] == shown && buf[|shown|] == '\0'
  }

  lemma {:induction false} CStrStops(shown: string, rest: string)
    ensures CStr(shown + ['\0'] + rest) == CStr(shown)
  {
    var s := shown + ['\0'] + rest;
    if shown != "" && shown[0] != '\0' {
      CStrStops(shown[1..], rest);
      assert s[1..] == shown[1..] + ['\0'] + rest;
    }
  }

  lemma BufferSplits(buf: seq<char>, n: nat)
    requires n < |buf|
    ensures buf == buf[..n] + [buf[n]] + buf[n + 1..]
  {
  }

  lemma ShownIsRead(buf: seq<char>, text: string)
    requires |buf| > 0 && Shows(buf, text)
    ensures CStr(buf) == CStr(Truncated(text, |buf|))
  {
    hide CStr;
    var shown := Truncated(text, |buf|);
    var n := |shown|;
    CStrStops(shown, buf[n + 1..]);
    BufferSplits(buf, n);
  }

  /** snprintf at `pos`: what fits, a NUL if there is room for any, and the length it would have taken. */
  method Print(buf: array<char>, pos: nat, text: string) returns (pos': nat)
    requires pos <= buf.Length
    modifies buf
    ensures pos' == pos + |text|
    ensures pos == buf.Length ==> buf[..] == old(buf[..])
    ensures pos < buf.Length ==>
              var end := if pos' < buf.Length then pos' else buf.Length - 1;
              buf[..end] == old(buf[..pos]) + text[..end - pos] && buf[end] == '\0'
  {
    pos' := pos + |text|;
    if pos < buf.Length {
      var end := if pos' < buf.Length then pos' else buf.Length - 1;
      forall i | pos <= i < end {
        buf[i] := text[i - pos];
      }
      buf[end] := '\0';
      assert buf[..end] == buf[..pos] + buf[pos..end];
      assert buf[..pos] == old(buf[..pos]) && buf[pos..end] == text[..end - pos];
    }
  }

  lemma PrintedShows(was: seq<char>, now: seq<char>, before: string, text: string)
    requires |was| == |now| > 0 && |before| <= |was| && (before == "" || Shows(was, before))
    requires |before| == |was| ==> now == was
    requires |before| < |was| ==>
               var end := if |before| + |text| < |was| then |before| + |text| else |was| - 1;
               now[..end] == was[..|before|] + text[..end - |before|] && now[end] == '\0'
    ensures Shows(now, before + text)
  {
    if |before| == |was| {
      assert (before + text)[..|was| - 1] == before[..|was| - 1];
    } else if |before| + |text| >= |was| {
      assert (before + text)[..|was| - 1] == before + text[..|was| - 1 - |before|];
    } else {
      assert text[..|text|] == text;
    }
  }

  /** Every snprintf that prints these words starts within the buffer; past it, the size it is given wraps around. */
  predicate Within(words: seq<string>) {
    forall j :: 0 <= j < |words| ==> |Join(words[..j], ' ')| <= DATA_BUF
  }

  lemma WithinOneMore(words: seq<string>, word: string)
    ensures Within(words + [word]) <==> Within(words) && |Join(words, ' ')| <= DATA_BUF
  {
    var all := words + [word];
    assert all[..|words|] == words;
    forall j | 0 <= j < |words| ensures all[..j] == words[..j] {
    }
    if Within(all) {
      forall j | 0 <= j < |words| ensures |Join(words[..j], ' ')| <= DATA_BUF {
        assert all[..j] == words[..j];
      }
    }
  }

  /** What has been printed so far. */
  ghost predicate Printed(buf: seq<char>, pos: nat, words: seq<string>) {
    && |buf| == DATA_BUF && Within(words) && pos == |Join(words, ' ')|
    && (words != [] ==> Shows(buf, Join(words, ' ')))
    && forall i :: 0 <= i < |words| ==> words[i] != ""
  }

  /** One optional field. `ok` is false when the call would write outside the buffer. */
  method PrintField(buf: array<char>, pos: nat, name: string, field: Option<string>, ghost words: seq<string>)
    returns (ok: bool, pos': nat)
    requires name != "" && Printed(buf[..], pos, words)
    modifies buf
    ensures ok <==> Within(words + Part(name, field))
    ensures ok ==> Printed(buf[..], pos', words + Part(name, field))
    ensures field.None? ==> buf[..] == old(buf[..])
  {
    hide Join, Within, Shows;
    if field.None? {
      assert words + [] == words;
      return true, pos;
    }
    var word := name + field.value;
    ok, pos' := PrintWord(buf, pos, word, words);
  }

  /** A word, after a separator if something is there already. */
  method PrintWord(buf: array<char>, pos: nat, word: string, ghost words: seq<string>) returns (ok: bool, pos': nat)
    requires Printed(buf[..], pos, words)
    modifies buf
    ensures ok <==> Within(words + [word])
    ensures ok ==> pos' == |Join(words + [word], ' ')| && Shows(buf[..], Join(words + [word], ' '))
  {
    hide Join, Within, Shows;
    WithinOneMore(words, word);
    if pos > DATA_BUF {
      return false, pos;
    }
    JoinText(words, word);
    var text := if pos > 0 then " " + word else word;
    ghost var was, before := buf[..], Join(words, ' ');
    pos' := Print(buf, pos, text);
    assert was[..pos] == old(buf[..pos]);
    PrintedShows(was, buf[..], before, text);
    ok := true;
  }

  /** The value on its own has no name, and may be the empty text; it comes last. */
  method PrintValue(buf: array<char>, pos: nat, value: string, ghost words: seq<string>) returns (ok: bool, pos': nat)
    requires Printed(buf[..], pos, words)
    modifies buf
    ensures var all := words + [(if words != [] then "value=" else "") + value];
            (ok <==> Within(all)) && (ok ==> Shows(buf[..], Join(all, ' ')))
  {
    hide Join, Within, Shows;
    JoinEmpty(words);
    var word := if pos > 0 then "value=" + value else value;
    assert word == (if words != [] then "value=" else "") + value;
    ok, pos' := PrintWord(buf, pos, word, words);
  }

  lemma WithinPrefix(a: seq<string>, b: seq<string>)
    requires Within(a + b)
    ensures Within(a)
  {
    forall j | 0 <= j < |a| ensures |Join(a[..j], ' ')| <= DATA_BUF {
      assert (a + b)[..j] == a[..j];
    }
  }

  lemma NothingPrinted(buf: seq<char>)
    requires |buf| == DATA_BUF
    ensures Printed(buf, 0, [])
  {
  }

  /**
   * The data part. Only what overflows last is cut: when an earlier field has pushed the position past the buffer,
   * the next call is given a size that wraps around and writes outside it, and `ok` is false.
   */
  method FormatData(m: Msg, buf: array<char>) returns (ok: bool)
    requires buf.Length == DATA_BUF
    modifies buf
    ensures ok <==> Within(Words(m))
    ensures ok && Words(m) != [] ==> Shows(buf[..], Data(m))
    ensures Words(m) == [] ==> buf[..] == old(buf[..])
  {
    hide Join, Within, Shows, Printed;
    ghost var w1 := Part("state=", m.state);
    ghost var w2 := w1 + Part("type=", m.typ);
    ghost var w3 := w2 + Part("key=", m.key);
    ghost var w4 := Part(if Tagged(m) then "value=" else "", m.value);
    assert Tags(m) == w3 && Words(m) == w3 + w4;
    hide Words, Tags, Part;
    NothingPrinted(buf[..]);
    assert [] + w1 == w1;
    var pos;
    ok, pos := PrintField(buf, 0, "state=", m.state, []);
    if !ok {
      NotWithin(w1, Part("type=", m.typ));
      NotWithin(w2, Part("key=", m.key));
      NotWithin(w3, w4);
      return;
    }
    ok, pos := PrintField(buf, pos, "type=", m.typ, w1);
    if !ok {
      NotWithin(w2, Part("key=", m.key));
      NotWithin(w3, w4);
      return;
    }
    ok, pos := PrintField(buf, pos, "key=", m.key, w2);
    if !ok {
      NotWithin(w3, w4);
      return;
    }
    LastPart(m);
    if m.value.Some? {
      ok, pos := PrintValue(buf, pos, m.value.value, w3);
    } else {
      assert w3 + [] == w3;
      PrintedAll(buf[..], pos, w3);
    }
  }

  lemma LastPart(m: Msg)
    ensures Tags(m) != [] <==> Tagged(m)
    ensures Part(if Tagged(m) then "value=" else "", m.value)
            == if m.value.Some? then [(if Tags(m) != [] then "value=" else "") + m.value.value] else []
  {
  }

  lemma NotWithin(a: seq<string>, b: seq<string>)
    requires !Within(a)
    ensures !Within(a + b)
  {
    if Within(a + b) {
      WithinPrefix(a, b);
    }
  }

  lemma PrintedAll(buf: seq<char>, pos: nat, words: seq<string>)
    requires Printed(buf, pos, words)
    ensures |buf| > 0 && Within(words) && (words != [] ==> Shows(buf, Join(words, ' ')))
  {
  }

  /** Exactly: all fields but the last given, joined, must come to no more than the buffer's 896 bytes. */
  lemma FormatsWithinIff(m: Msg)
    requires Words(m) != []
    ensures Within(Words(m)) <==> |Join(Words(m)[..|Words(m)| - 1], ' ')| <= 896
  {
    hide Join;
    var all := Words(m);
    var last := |all| - 1;
    forall j | 0 <= j < |all| ensures |Join(all[..j], ' ')| <= |Join(all[..last], ' ')| {
      JoinGrows(all, j, last);
    }
  }

  lemma {:induction false} JoinGrows(words: seq<string>, j: nat, k: nat)
    requires j <= k <= |words|
    ensures |Join(words[..j], ' ')| <= |Join(words[..k], ' ')|
    decreases k
  {
    if j < k {
      JoinGrows(words, j, k - 1);
      JoinOneMore(words[..k - 1], words[k - 1]);
      assert words[..k - 1] + [words[k - 1]] == words[..k];
      assert k == 1 ==> words[..0] == [];
    }
  }

  /** For one: a state of 891 bytes and any type. */
  lemma LongStateRunsWild(state: string, typ: string)
    requires |state| > 890
    ensures !Within(Words(Msg(Some(state), Some(typ), None, None)))
  {
    var words := Words(Msg(Some(state), Some(typ), None, None));
    assert words[..1] == ["state=" + state];
    assert |Join(words[..1], ' ')| == 6 + |state|;
  }

  /** What is sent, where that is defined; `stack` is what the data buffer held before. */
  function Sendable(topic: string, m: Msg, stack: seq<char>): Option<string> {
    if !Within(Words(m)) then None
    else if Words(m) != [] then Some(Line(topic, m))
    else if '\0' in stack then Some(LineOf(topic, CStr(stack)))
    else None
  }

  /** Data without a NUL goes out as it is, but for what its buffer has no room for. */
  lemma SentText(topic: string, m: Msg, stack: seq<char>)
    requires m != Msg(None, None, None, None) && '\0' !in Data(m)
    ensures |Data(m)| <= 895 ==> Sendable(topic, m, stack) == Some("MSG " + topic + " " + Data(m) + "\n")
    ensures |Data(m)| > 895 && Within(Words(m)) ==>
              Sendable(topic, m, stack) == Some("MSG " + topic + " " + Data(m)[..895] + "\n")
  {
    NoWords(m);
    FormatsWithinIff(m);
    var n := |Words(m)|;
    JoinGrows(Words(m), n - 1, n);
    assert Words(m)[..n] == Words(m);
    hide Words, Within, Join, CStr, Tags;
  }

  /** A message without fields sends what the buffer held before, as far as its first NUL. */
  lemma StaleText(topic: string, before: string, after: string)
    requires '\0' !in before
    ensures Sendable(topic, Msg(None, None, None, None), before + "\0" + after)
            == Some("MSG " + topic + " " + before + "\n")
  {
    var m, stack := Msg(None, None, None, None), before + "\0" + after;
    NoWords(m);
    CStrStops(before, after);
    assert stack[|before|] == '\0' && stack == before + ['\0'] + after;
    hide CStr, Words;
  }

  method FormatWhole(topic: string, data: array<char>) returns (line: string)
    requires data.Length == DATA_BUF && |topic| < TOPIC_BUF
    ensures line == LineOf(topic, CStr(data[..]))
  {
    hide CStr;
    CStrLength(data[..]);
    var text := LineOf(topic, CStr(data[..]));
    var buf := new char[LINE_BUF](_ => '\0');
    var n := Print(buf, 0, text);
    line := buf[..n];
    assert text[..|text|] == text;
  }

  /** The whole line, as sent. */
  method FormatLine(topic: string, m: Msg, stack: seq<char>) returns (line: Option<string>)
    requires |stack| == DATA_BUF && |topic| < TOPIC_BUF
    ensures line == Sendable(topic, m, stack)
  {
    hide Words, Join, Within, Shows, CStr, LineOf, Data;
    var data := new char[DATA_BUF](i requires 0 <= i < DATA_BUF => stack[i]);
    assert data[..] == stack;
    var ok := FormatData(m, data);
    if !ok {
      return None;
    }
    if m == Msg(None, None, None, None) {
      NoWords(m);
      if '\0' !in stack {
        return None;
      }
    } else {
      NoWords(m);
      ShownIsRead(data[..], Data(m));
    }
    var whole := FormatWhole(topic, data);
    line := Some(whole);
  }

  lemma NoWords(m: Msg)
    ensures Words(m) == [] <==> m == Msg(None, None, None, None)
  {
  }

  /** A C string in a buffer stops before the buffer's end if the buffer holds a NUL. */
  lemma {:induction false} CStrLength(s: string)
    ensures |CStr(s)| <= |s|
  {
    if s != "" && s[0] != '\0' {
      CStrLength(s[1..]);
    }
  }

  // ---------- Subscribers

  /** The sockets whose send succeeded, in order; `sent[i]` is the outcome for the i-th. */
  function Survivors(socks: seq<int>, sent: seq<bool>): seq<int>
    requires |socks| == |sent|
  {
    if socks == [] then []
    else if sent[0] then [socks[0]] + Survivors(socks[1..], sent[1..])
    else Survivors(socks[1..], sent[1..])
  }

  function Negated(sent: seq<bool>): (r: seq<bool>)
    ensures |r| == |sent|
  {
    seq(|sent|, i requires 0 <= i < |sent| => !sent[i])
  }

  function Attempts(socks: seq<int>, line: string): (r: seq<(int, string)>)
    ensures |r| == |socks|
  {
    seq(|socks|, i requires 0 <= i < |socks| => (socks[i], line))
  }

  lemma AttemptsOneMore(socks: seq<int>, sock: int, line: string)
    ensures Attempts([], line) == []
    ensures Attempts(socks + [sock], line) == Attempts(socks, line) + [(sock, line)]
  {
  }

  /** A broadcast so far: who is left, where the next attempt stands, who was tried and who was dropped. */
  datatype Sending = Sending(live: seq<int>, i: nat, tried: seq<int>, dropped: seq<int>)

  /** The broadcast to `was` after `done` attempts. */
  ghost predicate Progress(was: seq<int>, sent: seq<bool>, done: nat, s: Sending)
    requires |was| == |sent|
  {
    && done <= |was|
    && s.i == |Survivors(was[..done], sent[..done])|
    && s.live == Survivors(was[..done], sent[..done]) + was[done..]
    && s.tried == was[..done]
    && s.dropped == Survivors(was[..done], Negated(sent)[..done])
  }

  function Sent(s: Sending, ok: bool): Sending
    requires s.i < |s.live|
  {
    if ok then Sending(s.live, s.i + 1, s.tried + [s.live[s.i]], s.dropped)
    else Sending(s.live[..s.i] + s.live[s.i + 1..], s.i, s.tried + [s.live[s.i]], s.dropped + [s.live[s.i]])
  }

  lemma AtSeam<T>(a: seq<T>, b: seq<T>)
    requires b != []
    ensures (a + b)[|a|] == b[0] && (a + b)[..|a|] + (a + b)[|a| + 1..] == a + b[1..]
    ensures (a + [b[0]]) + b[1..] == a + b
  {
  }

  lemma ProgressStep(was: seq<int>, sent: seq<bool>, done: nat, s: Sending)
    requires |was| == |sent| && done < |was| && Progress(was, sent, done, s)
    ensures s.i < |s.live| && |s.live| - s.i == |was| - done
    ensures var s' := Sent(s, sent[done]);
            Progress(was, sent, done + 1, s') && |s'.live| - s'.i == |was| - (done + 1)
  {
    hide Survivors;
    SurvivorsOneMore(was, sent, done);
    SurvivorsOneMore(was, Negated(sent), done);
    AtSeam(Survivors(was[..done], sent[..done]), was[done..]);
    assert was[done..][1..] == was[done + 1..] && was[..done + 1] == was[..done] + [was[done]];
  }

  lemma ProgressStart(was: seq<int>, sent: seq<bool>)
    requires |was| == |sent|
    ensures Progress(was, sent, 0, Sending(was, 0, [], []))
  {
  }

  lemma ProgressEnd(was: seq<int>, sent: seq<bool>, s: Sending)
    requires |was| == |sent| && Progress(was, sent, |was|, s)
    ensures s.live == Survivors(was, sent) && s.tried == was && s.dropped == Survivors(was, Negated(sent))
    ensures s.i == |s.live|
  {
    assert was[..|was|] == was && sent[..|was|] == sent && was[|was|..] == [];
    assert Negated(sent)[..|was|] == Negated(sent);
  }

  class Subscribers {
    const socks: array<int>
    var count: nat
    /** Every send attempted and every socket closed, in order. */
    var attempts: seq<(int, string)>
    var closed: seq<int>

    ghost predicate Valid()
      reads this, socks
    {
      && socks.Length == MAX_SUB_CLIENT && count <= MAX_SUB_CLIENT
      && forall i :: count <= i < MAX_SUB_CLIENT ==> socks[i] == -1
    }

    ghost function Live(): seq<int>
      reads this, socks
      requires count <= socks.Length
    {
      socks[..count]
    }

    constructor ()
      ensures Valid() && Live() == [] && attempts == [] && closed == [] && fresh(socks)
    {
      socks := new int[MAX_SUB_CLIENT](_ => -1);
      count, attempts, closed := 0, [], [];
    }

    /** A new connection, if accept gave one; it is closed again when the array is full. */
    method Poll(c: int)
      requires Valid()
      modifies this`count, this`closed, socks
      ensures Valid()
      ensures Live() == if c >= 0 && old(count) < 512 then old(Live()) + [c] else old(Live())
      ensures closed == if c >= 0 && old(count) == 512 then old(closed) + [c] else old(closed)
    {
      if c >= 0 && count < MAX_SUB_CLIENT {
        socks[count] := c;
        count := count + 1;
      } else if c >= 0 {
        closed := closed + [c];
      }
    }

    /** Close the gap at `i`. */
    method Remove(i: nat)
      requires Valid() && i < count
      modifies this`count, socks
      ensures Valid() && count == old(count) - 1
      ensures Live() == old(Live())[..i] + old(Live())[i + 1..]
    {
      ghost var was := socks[..];
      var k := i;
      while k < count - 1
        invariant i <= k <= count - 1 && count == old(count) && socks.Length == MAX_SUB_CLIENT
        invariant forall j :: 0 <= j < i ==> socks[j] == was[j]
        invariant forall j :: i <= j < k ==> socks[j] == was[j + 1]
        invariant forall j :: k <= j < MAX_SUB_CLIENT ==> socks[j] == was[j]
      {
        socks[k] := socks[k + 1];
        k := k + 1;
      }
      count := count - 1;
      socks[count] := -1;
    }

    /** The array and the logs are where the broadcast `s` of `line` has taken them. */
    ghost predicate At(s: Sending, line: string, attempts0: seq<(int, string)>, closed0: seq<int>)
      reads this, socks
    {
      && Valid() && s.i <= |s.live| && Live() == s.live
      && attempts == attempts0 + Attempts(s.tried, line)
      && closed == closed0 + s.dropped
    }

    /** One attempt, to the i-th subscriber, and where the next one stands. */
    method SendTo(i: nat, line: string, n: int, ghost s: Sending, ghost attempts0: seq<(int, string)>,
                  ghost closed0: seq<int>) returns (next: nat)
      requires At(s, line, attempts0, closed0) && i == s.i < count
      modifies this, socks
      ensures At(Sent(s, n > 0), line, attempts0, closed0) && next == Sent(s, n > 0).i
    {
      AttemptsOneMore(s.tried, socks[i], line);
      attempts := attempts + [(socks[i], line)];
      if n <= 0 {
        closed := closed + [socks[i]];
        Remove(i);
        next := i;
      } else {
        next := i + 1;
      }
    }

    /**
     * Send `line` to everyone; `sent[i]` is how the send to the i-th goes. Each gets exactly one attempt,
     * in order; those who failed are closed and removed, the others stay in order.
     */
    method Broadcast(line: string, sent: seq<bool>)
      requires Valid() && |sent| == count
      modifies this, socks
      ensures Valid()
      ensures Live() == Survivors(old(Live()), sent)
      ensures attempts == old(attempts) + Attempts(old(Live()), line)
      ensures closed == old(closed) + Survivors(old(Live()), Negated(sent))
    {
      hide Survivors, Progress, Attempts, Sent;
      ghost var was := Live();
      ghost var attempts0, closed0 := attempts, closed;
      ghost var s := Sending(was, 0, [], []);
      ProgressStart(was, sent);
      AttemptsOneMore([], 0, line);
      var i, done := 0, 0;
      while i < count
        invariant At(s, line, attempts0, closed0) && s.i == i && done <= |sent|
        invariant Progress(was, sent, done, s) && |s.live| - i == |sent| - done
        decreases |sent| - done
      {
        ProgressStep(was, sent, done, s);
        i := SendTo(i, line, if sent[done] then 1 else 0, s, attempts0, closed0);
        s := Sent(s, sent[done]);
        done := done + 1;
      }
      ProgressEnd(was, sent, s);
    }

    /** Publishing, wherever what is formatted is defined. */
    method Publish(topic: string, m: Msg, sent: seq<bool>, stack: seq<char>)
      requires Valid() && |sent| == count && |stack| == DATA_BUF && |topic| < TOPIC_BUF
      requires Sendable(topic, m, stack).Some?
      modifies this, socks
      ensures Valid()
      ensures Live() == Survivors(old(Live()), sent)
      ensures attempts == old(attempts) + Attempts(old(Live()), Sendable(topic, m, stack).value)
      ensures closed == old(closed) + Survivors(old(Live()), Negated(sent))
    {
      hide Sendable, Survivors, Attempts;
      var line := FormatLine(topic, m, stack);
      Broadcast(line.value, sent);
    }
  }

  /** How many of the first `n` sends ended that way. */
  function Rank(sent: seq<bool>, outcome: bool, n: nat): nat
    requires n <= |sent|
  {
    |set i | 0 <= i < n && sent[i] == outcome|
  }

  lemma RankOneMore(sent: seq<bool>, outcome: bool, n: nat)
    requires n < |sent|
    ensures Rank(sent, outcome, n + 1) == Rank(sent, outcome, n) + if sent[n] == outcome then 1 else 0
  {
    var before := set i | 0 <= i < n && sent[i] == outcome;
    var now := set i | 0 <= i < n + 1 && sent[i] == outcome;
    assert now == if sent[n] == outcome then before + {n} else before;
  }

  lemma {:induction false} RankGrows(sent: seq<bool>, outcome: bool, i: nat, n: nat)
    requires i < n <= |sent| && sent[i] == outcome
    ensures Rank(sent, outcome, i) < Rank(sent, outcome, n)
    decreases n
  {
    hide Rank;
    RankOneMore(sent, outcome, n - 1);
    if i < n - 1 {
      RankGrows(sent, outcome, i, n - 1);
    }
  }

  /** Each survivor keeps its place among the survivors. */
  lemma {:induction false} SurvivorsRanked(socks: seq<int>, sent: seq<bool>, n: nat)
    requires |socks| == |sent| && n <= |socks|
    ensures var left := Survivors(socks[..n], sent[..n]);
            && |left| == Rank(sent, true, n)
            && forall i :: 0 <= i < n && sent[i] ==>
                             Rank(sent, true, i) < |left| && left[Rank(sent, true, i)] == socks[i]
    decreases n
  {
    if n > 0 {
      SurvivorsRanked(socks, sent, n - 1);
      SurvivorsOneMore(socks, sent, n - 1);
      RankOneMore(sent, true, n - 1);
      var before, left := Survivors(socks[..n - 1], sent[..n - 1]), Survivors(socks[..n], sent[..n]);
      hide Survivors, Rank;
      assert before <= left;
      forall i | 0 <= i < n && sent[i]
        ensures Rank(sent, true, i) < |left| && left[Rank(sent, true, i)] == socks[i]
      {
        RankGrows(sent, true, i, n);
        if i < n - 1 {
          assert left[Rank(sent, true, i)] == before[Rank(sent, true, i)];
        }
      }
    }
  }

  lemma RankNegated(sent: seq<bool>, n: nat)
    requires n <= |sent|
    ensures Rank(Negated(sent), true, n) == Rank(sent, false, n)
  {
    assert (set i | 0 <= i < n && Negated(sent)[i] == true) == set i | 0 <= i < n && sent[i] == false;
  }

  /** Survivors and casualties, each in order and each in its place. */
  lemma SurvivorsMean(socks: seq<int>, sent: seq<bool>)
    requires |socks| == |sent|
    ensures var left, lost := Survivors(socks, sent), Survivors(socks, Negated(sent));
            && |left| == Rank(sent, true, |sent|) && |lost| == Rank(sent, false, |sent|)
            && (forall i :: 0 <= i < |sent| && sent[i] ==>
                  Rank(sent, true, i) < |left| && left[Rank(sent, true, i)] == socks[i])
            && (forall i :: 0 <= i < |sent| && !sent[i] ==>
                  Rank(sent, false, i) < |lost| && lost[Rank(sent, false, i)] == socks[i])
  {
    var n := |sent|;
    SurvivorsRanked(socks, sent, n);
    SurvivorsRanked(socks, Negated(sent), n);
    assert socks[..n] == socks && sent[..n] == sent && Negated(sent)[..n] == Negated(sent);
    hide Survivors, Rank;
    forall i | 0 <= i <= n ensures Rank(Negated(sent), true, i) == Rank(sent, false, i) {
      RankNegated(sent, i);
    }
  }

  lemma AttemptsMean(socks: seq<int>, line: string)
    ensures forall i :: 0 <= i < |socks| ==> Attempts(socks, line)[i] == (socks[i], line)
  {
  }

  lemma {:induction false} SurvivorsOneMore(socks: seq<int>, sent: seq<bool>, n: nat)
    requires |socks| == |sent| && n < |socks|
    ensures Survivors(socks[..n + 1], sent[..n + 1])
            == if sent[n] then Survivors(socks[..n], sent[..n]) + [socks[n]] else Survivors(socks[..n], sent[..n])
    decreases n
  {
    if n == 0 {
      assert socks[..1][1..] == [] && sent[..1][1..] == [];
    } else {
      SurvivorsOneMore(socks[1..], sent[1..], n - 1);
      assert socks[..n + 1][1..] == socks[1..][..n] && sent[..n + 1][1..] == sent[1..][..n];
      assert socks[..n][1..] == socks[1..][..n - 1] && sent[..n][1..] == sent[1..][..n - 1];
    }
  }
}
