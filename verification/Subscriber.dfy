/** What a subscription does with one line: tokenise, filter, call back. */
module Subscriber {
  import opened Bytes
  import opened CStrings

  const SLOT_FIELD: nat := 32
  const SLOT_TOPIC: nat := 64
  const TMP_BUF: nat := 512
  const MAX_SUB_SLOTS: nat := 512

  /** One subscription; an empty filter does not filter. */
  datatype Slot = Slot(topic: string, state: string, typ: string, key: string, hasCallback: bool)

  datatype Call = Call(topic: string, data: string)

  /** The slot a subscription fills: names are cut to their fields, a missing filter is the empty one. */
  function MakeSlot(topic: string, state: Option<string>, typ: Option<string>, key: Option<string>,
                    hasCallback: bool): Slot
  {
    Slot(Truncated(topic, SLOT_TOPIC), Truncated(OrEmpty(state), SLOT_FIELD), Truncated(OrEmpty(typ), SLOT_FIELD),
         Truncated(OrEmpty(key), SLOT_FIELD), hasCallback)
  }

  function OrEmpty(s: Option<string>): string {
    if s.Some? then s.value else ""
  }

  /** The registered subscriptions. */
  class Subscriptions {
    const slots: array<Slot>
    var count: nat

    ghost predicate Valid()
      reads this
    {
      slots.Length == MAX_SUB_SLOTS && count <= MAX_SUB_SLOTS
    }

    ghost function Registered(): seq<Slot>
      reads this, slots
      requires count <= slots.Length
    {
      slots[..count]
    }

    constructor ()
      ensures Valid() && Registered() == [] && fresh(slots)
    {
      slots := new Slot[MAX_SUB_SLOTS](_ => Slot("", "", "", "", false));
      count := 0;
    }

    method Add(topic: string, state: Option<string>, typ: Option<string>, key: Option<string>, hasCallback: bool)
      returns (rc: int)
      requires Valid()
      modifies this, slots
      ensures Valid() && rc == if old(count) < 512 then 0 else -1
      ensures Registered() == if rc == 0 then old(Registered()) + [MakeSlot(topic, state, typ, key, hasCallback)]
                              else old(Registered())
      ensures rc == 0 ==>
                var slot := Registered()[old(count)];
                && slot.topic == (if |topic| <= 63 then topic else topic[..63]) && slot.hasCallback == hasCallback
                && FilterKept(slot.state, state) && FilterKept(slot.typ, typ) && FilterKept(slot.key, key)
    {
      if count >= MAX_SUB_SLOTS {
        return -1;
      }
      slots[count] := MakeSlot(topic, state, typ, key, hasCallback);
      count := count + 1;
      return 0;
    }
  }

  /** What is stored of a filter: its first 31 bytes, and nothing for a missing one. */
  predicate FilterKept(stored: string, given: Option<string>) {
    match given
    case None => stored == ""
    case Some(f) => stored == if |f| <= 31 then f else f[..31]
  }

  predicate Unfiltered(slot: Slot) {
    slot.state == "" && slot.typ == "" && slot.key == ""
  }

  /** The text after the name of the last word that starts with it. */
  function LastField(words: seq<string>, name: string): Option<string> {
    if words == [] then None
    else
      var last := words[|words| - 1];
      if StartsWith(last, name) then Some(last[|name|..]) else LastField(words[..|words| - 1], name)
  }

  predicate Passes(filter: string, field: Option<string>) {
    filter == "" || field == Some(filter)
  }

  /** What the callback of a slot gets for a data part, if anything. */
  function Payload(slot: Slot, data: string): Option<string> {
    if Unfiltered(slot) then Some(data)
    else
      var words := Tokens(Truncated(data, TMP_BUF), " ");
      if Passes(slot.state, LastField(words, "state=")) && Passes(slot.typ, LastField(words, "type="))
         && Passes(slot.key, LastField(words, "key="))
      then Some(if slot.key != "" then OrEmpty(LastField(words, "value=")) else data)
      else None
  }

  /** What a line in the line buffer makes a slot's callback receive. */
  function Dispatch(slot: Slot, line: string): Option<Call> {
    match Strtok(CStr(line), " \r\n")
    case None => None
    case Some(cmd) =>
      if cmd.text != "MSG" then None
      else
        match Strtok(cmd.rest, " \r\n")
        case None => None
        case Some(topic) =>
          match Strtok(topic.rest, "\r\n")
          case None => None
          case Some(data) =>
            if topic.text != slot.topic || !slot.hasCallback then None
            else
              match Payload(slot, data.text)
              case None => None
              case Some(payload) => Some(Call(topic.text, payload))
  }

  /** The last word that starts with the name, or none does. */
  lemma {:induction false} LastFieldMeans(words: seq<string>, name: string)
    ensures LastField(words, name).None? <==> forall i :: 0 <= i < |words| ==> !(name <= words[i])
    ensures LastField(words, name).Some? ==>
              exists i :: 0 <= i < |words| && words[i] == name + LastField(words, name).value
                          && forall j :: i < j < |words| ==> !(name <= words[j])
  {
    if words != [] {
      var n := |words| - 1;
      var last := words[n];
      StartsWithMeans(last, name);
      LastFieldMeans(words[..n], name);
      if !StartsWith(last, name) && LastField(words, name).Some? {
        var i :| 0 <= i < n && words[..n][i] == name + LastField(words, name).value
                 && forall j :: i < j < n ==> !(name <= words[..n][j]);
        assert words[i] == name + LastField(words, name).value;
        forall j | i < j < |words| ensures !(name <= words[j]) {
          assert j < n ==> words[j] == words[..n][j];
        }
      } else if StartsWith(last, name) {
        assert words[n] == name + LastField(words, name).value;
      }
    }
  }

  lemma StartsWithMeans(s: string, prefix: string)
    ensures StartsWith(s, prefix) <==> prefix <= s
    ensures StartsWith(s, prefix) ==> s == prefix + s[|prefix|..]
  {
  }

  /** A field passes: there is no filter, or it is there and is the filter. */
  predicate Fits(filter: string, words: seq<string>, name: string) {
    filter != "" ==> LastField(words, name) == Some(filter)
  }

  /**
   * When a line causes a call, and which. The line must be "MSG", the slot's topic and a data part; the fields
   * filtered by are looked for in the first 511 bytes of the data part; only a slot that filters by key gets the value.
   */
  lemma DispatchMeans(slot: Slot, line: string)
    ensures var command := Strtok(CStr(line), " \r\n");
            var topic := if command.None? then None else Strtok(command.value.rest, " \r\n");
            var data := if topic.None? then None else Strtok(topic.value.rest, "\r\n");
            var call := Dispatch(slot, line);
            && (command.None? || command.value.text != "MSG" ==> call == None)
            && (topic.None? || data.None? || topic.value.text != slot.topic || !slot.hasCallback ==> call == None)
            && (data.Some? && command.value.text == "MSG" && topic.value.text == slot.topic && slot.hasCallback ==>
                  var text := data.value.text;
                  var words := Tokens(if |text| <= 511 then text else text[..511], " ");
                  && (call.Some? <==> Fits(slot.state, words, "state=") && Fits(slot.typ, words, "type=")
                                      && Fits(slot.key, words, "key="))
                  && (call.Some? ==> call.value.topic == slot.topic)
                  && (call.Some? && slot.key == "" ==> call.value.data == text)
                  && (call.Some? && slot.key != "" ==>
                        call.value.data == match LastField(words, "value=")
                                           case None => ""
                                           case Some(value) => value))
  {
    hide Strtok, CStr, Tokens, LastField;
  }

  /** The four pointers of the parse loop. */
  datatype Fields = Fields(state: Option<string>, typ: Option<string>, key: Option<string>, value: Option<string>)

  function FieldsOf(words: seq<string>): Fields {
    Fields(LastField(words, "state="), LastField(words, "type="), LastField(words, "key="), LastField(words, "value="))
  }

  /** No word starts with two of the names. */
  lemma NamesDistinct(word: string)
    ensures StartsWith(word, "state=") ==> word[0] == 's'
    ensures StartsWith(word, "type=") ==> word[0] == 't'
    ensures StartsWith(word, "key=") ==> word[0] == 'k'
    ensures StartsWith(word, "value=") ==> word[0] == 'v'
  {
    if StartsWith(word, "state=") {
      assert word[0] == word[..6][0];
    }
    if StartsWith(word, "type=") {
      assert word[0] == word[..5][0];
    }
    if StartsWith(word, "key=") {
      assert word[0] == word[..4][0];
    }
    if StartsWith(word, "value=") {
      assert word[0] == word[..6][0];
    }
  }

  /** One turn of the parse loop. */
  lemma FieldsOneMore(words: seq<string>, word: string)
    ensures FieldsOf(words + [word])
            == var f := FieldsOf(words);
               if StartsWith(word, "state=") then f.(state := Some(word[6..]))
               else if StartsWith(word, "type=") then f.(typ := Some(word[5..]))
               else if StartsWith(word, "key=") then f.(key := Some(word[4..]))
               else if StartsWith(word, "value=") then f.(value := Some(word[6..]))
               else f
  {
    hide StartsWith;
    NamesDistinct(word);
    assert (words + [word])[..|words|] == words;
  }

  method ParseFields(tmp: string) returns (f: Fields)
    ensures f == FieldsOf(Tokens(tmp, " "))
  {
    hide FieldsOf, Strtok, StartsWith;
    f := Fields(None, None, None, None);
    FieldsOfNone();
    ghost var all := Tokens(tmp, " ");
    ghost var seen: seq<string> := [];
    ghost var left := all;
    var t := Strtok(tmp, " ");
    while t.Some?
      invariant all == seen + left
      invariant left == if t.None? then [] else [t.value.text] + Tokens(t.value.rest, " ")
      invariant f == FieldsOf(seen)
      decreases if t.None? then 0 else |t.value.rest| + 1
    {
      var word := t.value.text;
      FieldsOneMore(seen, word);
      if StartsWith(word, "state=") {
        f := f.(state := Some(word[6..]));
      } else if StartsWith(word, "type=") {
        f := f.(typ := Some(word[5..]));
      } else if StartsWith(word, "key=") {
        f := f.(key := Some(word[4..]));
      } else if StartsWith(word, "value=") {
        f := f.(value := Some(word[6..]));
      }
      assert all == (seen + [word]) + left[1..];
      seen, left := seen + [word], left[1..];
      t := Strtok(t.value.rest, " ");
    }
    assert seen == all;
  }

  lemma FieldsOfNone()
    ensures FieldsOf([]) == Fields(None, None, None, None)
  {
  }

  /** `slots` are the registered subscriptions, `subSlot` the one the connection belongs to. */
  method HandleLine(slots: seq<Slot>, subSlot: int, line: string) returns (call: Option<Call>)
    ensures call == if 0 <= subSlot < |slots| then Dispatch(slots[subSlot], line) else None
  {
    hide Strtok, CStr, Tokens, LastField;
    var cmd := Strtok(CStr(line), " \r\n");
    if cmd.None? || cmd.value.text != "MSG" {
      return None;
    }
    var topic := Strtok(cmd.value.rest, " \r\n");
    if topic.None? {
      return None;
    }
    var data := Strtok(topic.value.rest, "\r\n");
    if data.None? {
      return None;
    }
    if subSlot < 0 || subSlot >= |slots| {
      return None;
    }
    var slot := slots[subSlot];
    if topic.value.text != slot.topic {
      return None;
    }
    if !slot.hasCallback {
      return None;
    }
    if slot.state == "" && slot.typ == "" && slot.key == "" {
      return Some(Call(topic.value.text, data.value.text));
    }
    var f := ParseFields(Truncated(data.value.text, TMP_BUF));
    if slot.state != "" && (f.state.None? || f.state.value != slot.state) {
      return None;
    }
    if slot.typ != "" && (f.typ.None? || f.typ.value != slot.typ) {
      return None;
    }
    if slot.key != "" && (f.key.None? || f.key.value != slot.key) {
      return None;
    }
    if slot.key != "" {
      return Some(Call(topic.value.text, if f.value.Some? then f.value.value else ""));
    }
    return Some(Call(topic.value.text, data.value.text));
  }
}
