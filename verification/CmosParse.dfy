/** The subscriber-side helper that picks fields out of a data part by substring search. */
module CmosParse {
  import opened Bytes
  import opened CStrings
  import opened Publisher
  import opened Subscriber
  import opened PubSub

  const FIELD_ENDS := " \r\n\0"

  // ---------- Substring search

  /** strstr: the first place `pattern` occurs. */
  function Find(s: string, pattern: string): (k: Option<nat>)
    ensures k.Some? ==> OccursAt(s, pattern, k.value) && forall j :: 0 <= j < k.value ==> !OccursAt(s, pattern, j)
    ensures k.Some? ==> k.value + |pattern| <= |s|
    ensures k.None? ==> forall j: nat :: !OccursAt(s, pattern, j)
  {
    if OccursAt(s, pattern, 0) then Some(0)
    else if s == "" then None
    else
      assert forall j: nat :: j > 0 ==> (OccursAt(s, pattern, j) <==> OccursAt(s[1..], pattern, j - 1));
      match Find(s[1..], pattern)
      case None => None
      case Some(k) => Some(k + 1)
  }

  predicate OccursAt(s: string, pattern: string, k: int) {
    0 <= k && k + |pattern| <= |s| && forall i :: 0 <= i < |pattern| ==> s[k + i] == pattern[i]
  }

  // ---------- The helper

  /** The text of a field, up to the separator that ends it. */
  function FieldText(data: string, name: string): Option<string> {
    match Find(data, name + "=")
    case None => None
    case Some(k) =>
      var text := data[k + |name| + 1..];
      Some(text[..Span(text, FIELD_ENDS)])
  }

  /** Not there; or what follows the first place it is at, up to the end or the first separator. */
  lemma FieldTextMeans(data: string, name: string)
    ensures FieldText(data, name).None? <==> forall k: nat :: !OccursAt(data, name + "=", k)
    ensures FieldText(data, name).Some? ==>
              var text := FieldText(data, name).value;
              && Free(text, " \r\n\0")
              && exists k: nat ::
                   && OccursAt(data, name + "=" + text, k)
                   && (k + |name| + 1 + |text| < |data| ==> data[k + |name| + 1 + |text|] in " \r\n\0")
                   && forall j :: 0 <= j < k ==> !OccursAt(data, name + "=", j)
  {
    hide Find, Span;
    var found := Find(data, name + "=");
    if found.Some? {
      var k := found.value;
      var rest := data[k + |name| + 1..];
      SpanMeans(rest, FIELD_ENDS);
      var text := rest[..Span(rest, FIELD_ENDS)];
      assert OccursAt(data, name + "=" + text, k);
    }
  }

  const SEARCH_BUF: nat := 127

  /**
   * The search string is built byte by byte, from at most 126 bytes of the name. An output of no size is left alone
   * when the field is not there; when it is, there would be no room for the NUL.
   */
  method GetField(data: string, field: string, outSize: nat) returns (rc: int, out: string)
    requires outSize > 0 || FieldText(data, Truncated(field, SEARCH_BUF)).None?
    ensures var found := FieldText(data, if |field| <= 126 then field else field[..126]);
            && rc == (if found.Some? then 0 else -1)
            && out == match found
                      case None => ""
                      case Some(text) => if |text| < outSize then text else text[..outSize - 1]
  {
    hide Find, OccursAt, Span;
    var search := "";
    while |search| < |field| && |search| < SEARCH_BUF - 1
      invariant |search| <= |field| && |search| <= SEARCH_BUF - 1 && search == field[..|search|]
    {
      search := search + [field[|search|]];
    }
    assert search == Truncated(field, SEARCH_BUF);
    search := search + ['='];
    var p := Find(data, search);
    if p.None? {
      return -1, "";
    }
    var text := data[p.value + |search|..];
    out := "";
    var i := 0;
    while i < |text| && text[i] !in FIELD_ENDS && i < outSize - 1
      invariant 0 <= i <= Span(text, FIELD_ENDS) && i <= outSize - 1 && out == text[..i]
    {
      SpanReaches(text, i, FIELD_ENDS);
      out := out + [text[i]];
      i := i + 1;
    }
    SpanReaches(text, i, FIELD_ENDS);
    rc := 0;
  }

  lemma {:induction false} SpanReaches(s: string, i: nat, stops: string)
    requires i <= Span(s, stops)
    ensures i < Span(s, stops) <==> i < |s| && s[i] !in stops
  {
    if i > 0 {
      SpanReaches(s[1..], i - 1, stops);
    }
  }

  datatype Parsed = Parsed(rc: int, typ: string, key: string, value: string)

  function ParsedData(data: string): Parsed {
    var typ := Truncated(OrEmpty(FieldText(data, "type")), 64);
    Parsed(if typ != "" then 0 else -1, typ, Truncated(OrEmpty(FieldText(data, "key")), 64),
           Truncated(OrEmpty(FieldText(data, "value")), 256))
  }

  /** What fits of a field, or nothing for one that is not there. */
  predicate KeptOf(stored: string, found: Option<string>, room: nat) {
    match found
    case None => stored == ""
    case Some(text) => stored == if |text| <= room then text else text[..room]
  }

  method Parse(data: string) returns (p: Parsed)
    ensures p == ParsedData(data)
    ensures KeptOf(p.typ, FieldText(data, "type"), 63) && KeptOf(p.key, FieldText(data, "key"), 63)
    ensures KeptOf(p.value, FieldText(data, "value"), 255)
    ensures p.rc == if p.typ == "" then -1 else 0
  {
    hide FieldText;
    var _, typ := GetField(data, "type", 64);
    var _, key := GetField(data, "key", 64);
    var _, value := GetField(data, "value", 256);
    p := Parsed(if typ != "" then 0 else -1, typ, key, value);
  }

  // ---------- Named words

  datatype Pair = Pair(name: string, text: string)

  const NAMES := ["state", "type", "key", "value"]

  /** One of the four names, and a text free of separators and equals signs. */
  predicate Proper(p: Pair) {
    p.name in NAMES && Free(p.text, " \r\n\0=")
  }

  function Word(p: Pair): string {
    p.name + "=" + p.text
  }

  function WordsOf(pairs: seq<Pair>): (w: seq<string>)
    ensures |w| == |pairs|
  {
    seq(|pairs|, i requires 0 <= i < |pairs| => Word(pairs[i]))
  }

  /** The text of the first pair of that name. */
  function FirstText(pairs: seq<Pair>, name: string): Option<string> {
    if pairs == [] then None
    else if pairs[0].name == name then Some(pairs[0].text)
    else FirstText(pairs[1..], name)
  }

  predicate EndsWith(s: string, suffix: string) {
    |suffix| <= |s| && OccursAt(s, suffix, |s| - |suffix|)
  }

  /** An occurrence that starts no later than the first equals sign ends on it. */
  lemma OccursUpToEquals(w: string, rest: string, name: string, j: nat)
    requires '=' !in w && '=' !in name && j <= |w| && OccursAt(w + "=" + rest, name + "=", j)
    ensures j + |name| == |w| && EndsWith(w, name)
  {
    var s, pattern := w + "=" + rest, name + "=";
    assert forall k :: 0 <= k < |w| ==> s[k] == w[k] != '=';
    assert s[|w|] == '=';
    assert s[j + |name|] == pattern[|name|] == '=';
    forall k | j <= k < j + |name| ensures s[k] != '=' {
      assert s[j + (k - j)] == pattern[k - j] == name[k - j];
    }
    forall i | 0 <= i < |name| ensures w[j + i] == name[i] {
      assert s[j + i] == pattern[i];
    }
  }

  lemma OccursAfterEquals(w: string, rest: string, pattern: string, j: nat)
    ensures OccursAt(w + "=" + rest, pattern, |w| + 1 + j) <==> OccursAt(rest, pattern, j)
  {
    var s := w + "=" + rest;
    assert forall k :: 0 <= k < |rest| ==> s[|w| + 1 + k] == rest[k];
    if OccursAt(s, pattern, |w| + 1 + j) {
      forall i | 0 <= i < |pattern| ensures rest[j + i] == pattern[i] {
        assert s[|w| + 1 + j + i] == s[|w| + 1 + (j + i)];
      }
    }
    if OccursAt(rest, pattern, j) {
      forall i | 0 <= i < |pattern| ensures s[|w| + 1 + j + i] == pattern[i] {
        assert s[|w| + 1 + j + i] == s[|w| + 1 + (j + i)];
      }
    }
  }

  lemma OccursAtEquals(w: string, rest: string, name: string)
    requires EndsWith(w, name)
    ensures OccursAt(w + "=" + rest, name + "=", |w| - |name|)
  {
    var s, pattern, at := w + "=" + rest, name + "=", |w| - |name|;
    forall i | 0 <= i < |pattern| ensures s[at + i] == pattern[i] {
      if i < |name| {
        assert w[at + i] == name[i];
      }
    }
  }

  lemma FindShifts(s: string, rest: string, pattern: string, offset: nat)
    requires forall k: nat :: OccursAt(s, pattern, k) ==> k >= offset && OccursAt(rest, pattern, k - offset)
    requires forall j: nat :: OccursAt(rest, pattern, j) ==> OccursAt(s, pattern, j + offset)
    ensures Find(s, pattern) == match Find(rest, pattern)
                                case None => None
                                case Some(k) => Some(k + offset)
  {
    hide Find, OccursAt;
    var found, later := Find(s, pattern), Find(rest, pattern);
    if found.Some? {
      assert OccursAt(rest, pattern, found.value - offset);
    }
    if later.Some? {
      assert OccursAt(s, pattern, later.value + offset);
    }
  }

  /** When the name does not stand before the first equals sign, it is searched for after it. */
  lemma FindPastEquals(w: string, rest: string, name: string)
    requires '=' !in w && '=' !in name && !EndsWith(w, name)
    ensures Find(w + "=" + rest, name + "=") == match Find(rest, name + "=")
                                                case None => None
                                                case Some(k) => Some(k + (|w| + 1))
  {
    hide Find, OccursAt, EndsWith;
    var s, pattern := w + "=" + rest, name + "=";
    forall k: nat ensures OccursAt(s, pattern, k) ==> k >= |w| + 1 && OccursAt(rest, pattern, k - (|w| + 1)) {
      if OccursAt(s, pattern, k) {
        if k <= |w| {
          OccursUpToEquals(w, rest, name, k);
        } else {
          OccursAfterEquals(w, rest, pattern, k - |w| - 1);
        }
      }
    }
    forall j: nat ensures OccursAt(rest, pattern, j) ==> OccursAt(s, pattern, j + (|w| + 1)) {
      OccursAfterEquals(w, rest, pattern, j);
    }
    FindShifts(s, rest, pattern, |w| + 1);
  }

  /** When it does, it is found there. */
  lemma FindAtEquals(w: string, rest: string, name: string)
    requires '=' !in w && '=' !in name && EndsWith(w, name)
    ensures |name| <= |w| && Find(w + "=" + rest, name + "=") == Some(|w| - |name|)
  {
    hide Find, OccursAt, EndsWith;
    EndsWithFits(w, name);
    OccursAtEquals(w, rest, name);
    var found := Find(w + "=" + rest, name + "=");
    if found.Some? && found.value <= |w| {
      OccursUpToEquals(w, rest, name, found.value);
    }
  }

  lemma EndsWithFits(s: string, suffix: string)
    requires EndsWith(s, suffix)
    ensures |suffix| <= |s|
  {
  }

  lemma NoEqualsNoField(s: string, name: string)
    requires '=' !in s
    ensures Find(s, name + "=") == None
  {
    hide OccursAt;
    if Find(s, name + "=").Some? {
      OccursHasEquals(s, name, Find(s, name + "=").value);
    }
  }

  lemma OccursHasEquals(s: string, name: string, k: nat)
    requires OccursAt(s, name + "=", k)
    ensures '=' in s
  {
    assert s[k + |name|] == (name + "=")[|name|];
  }

  lemma NamesEndApart(a: string, b: string)
    requires a in NAMES && b in NAMES && a[|a| - 1] == b[|b| - 1] && a[|a| - 2] == b[|b| - 2]
    ensures a == b
  {
  }

  /** None of the four names ends another, whatever stands in front. */
  lemma NamesDoNotOverlap(prefix: string, a: string, b: string)
    requires a in NAMES && b in NAMES
    ensures EndsWith(prefix + a, b) <==> a == b
  {
    var s := prefix + a;
    assert |a| >= 3 && |b| >= 3;
    if EndsWith(s, b) {
      var at := |s| - |b|;
      assert s[at + (|b| - 1)] == b[|b| - 1] && s[at + (|b| - 2)] == b[|b| - 2];
      assert s[|s| - 1] == a[|a| - 1] && s[|s| - 2] == a[|a| - 2];
      NamesEndApart(a, b);
    }
  }

  // ---------- Search and tokens agree

  /** The first named word of a message answers for its own name, and what follows it for any other. */
  lemma FieldTextAtHead(prefix: string, p: Pair, tail: string, name: string)
    requires '=' !in prefix && name in NAMES && Proper(p) && (tail == "" || tail[0] == ' ')
    ensures FieldText(prefix + (p.name + "=" + p.text + tail), name)
            == if p.name == name then Some(p.text) else FieldText(p.text + tail, name)
  {
    hide FieldText, EndsWith;
    var w := prefix + p.name;
    assert prefix + (p.name + "=" + p.text + tail) == w + "=" + (p.text + tail);
    NamesPlain(p.name);
    NamesPlain(name);
    NamesDoNotOverlap(prefix, p.name, name);
    if p.name == name {
      FieldTextHere(w, p.text, tail, name);
    } else {
      FieldTextShifts(w, p.text + tail, name);
    }
  }

  lemma {:induction false} FieldTextOfWords(prefix: string, pairs: seq<Pair>, name: string)
    requires '=' !in prefix && name in NAMES && forall i :: 0 <= i < |pairs| ==> Proper(pairs[i])
    ensures FieldText(prefix + Join(WordsOf(pairs), ' '), name) == FirstText(pairs, name)
    decreases |pairs|
  {
    hide FieldText, WordsOf, Join;
    JoinNone();
    if pairs == [] {
      assert prefix + "" == prefix;
      NoFieldText(prefix, name);
    } else {
      JoinHead(pairs);
      FieldTextAtHead(prefix, pairs[0], Tail(pairs), name);
      var between := if |pairs| == 1 then pairs[0].text else pairs[0].text + " ";
      assert pairs[0].text + Tail(pairs) == between + Join(WordsOf(pairs[1..]), ' ');
      FieldTextOfWords(between, pairs[1..], name);
    }
  }

  lemma JoinNone()
    ensures Join(WordsOf([]), ' ') == ""
  {
  }

  lemma NoFieldText(s: string, name: string)
    requires '=' !in s
    ensures FieldText(s, name) == None
  {
    NoEqualsNoField(s, name);
  }

  /** What follows the first word of a joined message. */
  function Tail(pairs: seq<Pair>): string
    requires pairs != []
  {
    if |pairs| == 1 then "" else " " + Join(WordsOf(pairs[1..]), ' ')
  }

  lemma JoinHead(pairs: seq<Pair>)
    requires pairs != []
    ensures Join(WordsOf(pairs), ' ') == pairs[0].name + "=" + pairs[0].text + Tail(pairs)
  {
    assert WordsOf(pairs)[1..] == WordsOf(pairs[1..]);
    if |pairs| > 1 {
      assert Word(pairs[0]) + [' '] + Join(WordsOf(pairs[1..]), ' ')
             == pairs[0].name + "=" + pairs[0].text + (" " + Join(WordsOf(pairs[1..]), ' '));
    } else {
      assert Word(pairs[0]) + "" == Word(pairs[0]);
    }
  }

  lemma NamesPlain(name: string)
    requires name in NAMES
    ensures '=' !in name
  {
  }

  /** A field whose name stands before the first equals sign runs up to the separator after it. */
  lemma FieldTextHere(w: string, text: string, tail: string, name: string)
    requires '=' !in w && '=' !in name && EndsWith(w, name)
    requires Free(text, " \r\n\0=") && (tail == "" || tail[0] == ' ')
    ensures FieldText(w + "=" + (text + tail), name) == Some(text)
  {
    hide Find, OccursAt, EndsWith, Span;
    FindAtEquals(w, text + tail, name);
    assert (w + "=" + (text + tail))[|w| - |name| + |name| + 1..] == text + tail;
    assert Free(text, FIELD_ENDS);
    SpanStops(text, tail, FIELD_ENDS);
    assert (text + tail)[..|text|] == text;
  }

  /** A field that is not at the first equals sign is read off what follows it. */
  lemma FieldTextShifts(w: string, rest: string, name: string)
    requires '=' !in w && '=' !in name && !EndsWith(w, name)
    ensures FieldText(w + "=" + rest, name) == FieldText(rest, name)
  {
    hide Find, OccursAt, EndsWith, Span;
    FindPastEquals(w, rest, name);
    var later := Find(rest, name + "=");
    if later.Some? {
      var k := later.value;
      assert (w + "=" + rest)[k + (|w| + 1) + |name| + 1..] == rest[k + |name| + 1..];
    }
  }

  // ---------- Printing and parsing

  function PairOf(name: string, field: Option<string>): seq<Pair> {
    if field.Some? then [Pair(name, field.value)] else []
  }

  function PairsOf(m: Msg): seq<Pair> {
    PairOf("state", m.state) + PairOf("type", m.typ) + PairOf("key", m.key) + PairOf("value", m.value)
  }

  predicate Clean(f: Option<string>) {
    f.Some? ==> Free(f.value, " \r\n\0=")
  }

  /** A tagged message whose fields are free of separators and equals signs. */
  predicate Searchable(m: Msg) {
    Tagged(m) && Clean(m.state) && Clean(m.typ) && Clean(m.key) && Clean(m.value)
  }

  lemma PartIsPair(name: string, field: Option<string>)
    ensures Part(name + "=", field) == WordsOf(PairOf(name, field))
  {
  }

  lemma WordsOfConcat(a: seq<Pair>, b: seq<Pair>)
    ensures WordsOf(a + b) == WordsOf(a) + WordsOf(b)
  {
  }

  lemma WordsOfPairs(m: Msg)
    requires Tagged(m)
    ensures Words(m) == WordsOf(PairsOf(m))
  {
    hide Part, PairOf, WordsOf;
    assert "state" + "=" == "state=" && "type" + "=" == "type=" && "key" + "=" == "key=" && "value" + "=" == "value=";
    PartIsPair("state", m.state);
    PartIsPair("type", m.typ);
    PartIsPair("key", m.key);
    PartIsPair("value", m.value);
    WordsOfConcat(PairOf("state", m.state), PairOf("type", m.typ));
    WordsOfConcat(PairOf("state", m.state) + PairOf("type", m.typ), PairOf("key", m.key));
    WordsOfConcat(PairOf("state", m.state) + PairOf("type", m.typ) + PairOf("key", m.key), PairOf("value", m.value));
  }

  lemma FirstTextOfPair(pairs: seq<Pair>, partName: string, field: Option<string>, name: string)
    ensures FirstText(PairOf(partName, field) + pairs, name)
            == if field.Some? && partName == name then field else FirstText(pairs, name)
  {
    var all := PairOf(partName, field) + pairs;
    if field.Some? {
      assert all[1..] == pairs;
    } else {
      assert all == pairs;
    }
  }

  lemma PairsProper(m: Msg)
    requires Searchable(m)
    ensures forall i :: 0 <= i < |PairsOf(m)| ==> Proper(PairsOf(m)[i])
  {
  }

  lemma PairsGiveFields(m: Msg, name: string)
    requires name in NAMES
    ensures FirstText(PairsOf(m), name) == if name == "state" then m.state else if name == "type" then m.typ
                                           else if name == "key" then m.key else m.value
  {
    hide PairOf, FirstText;
    var p4 := PairOf("value", m.value);
    var p3 := PairOf("key", m.key) + p4;
    var p2 := PairOf("type", m.typ) + p3;
    assert PairsOf(m) == PairOf("state", m.state) + p2;
    assert p4 == p4 + [];
    FirstTextOfPair(p2, "state", m.state, name);
    FirstTextOfPair(p3, "type", m.typ, name);
    FirstTextOfPair(p4, "key", m.key, name);
    FirstTextOfPair([], "value", m.value, name);
    NoFirstText(name);
  }

  lemma NoFirstText(name: string)
    ensures FirstText([], name) == None
  {
  }

  /** Substring search finds, for each name, the field the message was printed from. */
  lemma SearchFindsFields(m: Msg, name: string)
    requires Searchable(m) && name in NAMES
    ensures FieldText(Data(m), name) == if name == "state" then m.state else if name == "type" then m.typ
                                        else if name == "key" then m.key else m.value
  {
    hide FieldText, Join, PairsOf, Words, WordsOf, FirstText, Proper;
    PairsProper(m);
    WordsOfPairs(m);
    assert "" + Data(m) == Data(m);
    FieldTextOfWords("", PairsOf(m), name);
    PairsGiveFields(m, name);
  }

  /** Search and tokens: the first substring match and the last matching token give the same field. */
  lemma SearchAgreesWithTokens(m: Msg, name: string)
    requires Searchable(m) && name in NAMES
    ensures FieldText(Data(m), name) == LastField(Tokens(Data(m), " "), name + "=")
  {
    hide FieldText, Join, Words, LastField, Tokens;
    SearchFindsFields(m, name);
    CleanIsPlain(m);
    WordsPlain(m);
    TokensOfWords(Words(m));
    assert "state" + "=" == "state=" && "type" + "=" == "type=" && "key" + "=" == "key=" && "value" + "=" == "value=";
    FieldRecovered(m, name + "=");
  }

  lemma CleanIsPlain(m: Msg)
    requires Searchable(m)
    ensures PlainField(m.state) && PlainField(m.typ) && PlainField(m.key) && PlainField(m.value)
  {
  }

  /** Parsing inverts printing, for fields that fit their buffers. */
  lemma ParseInvertsPublish(m: Msg)
    requires Searchable(m)
    requires |OrEmpty(m.typ)| < 64 && |OrEmpty(m.key)| < 64 && |OrEmpty(m.value)| < 256
    ensures ParsedData(Data(m))
            == Parsed(if OrEmpty(m.typ) != "" then 0 else -1, OrEmpty(m.typ), OrEmpty(m.key), OrEmpty(m.value))
  {
    hide FieldText, Data;
    SearchFindsFields(m, "type");
    SearchFindsFields(m, "key");
    SearchFindsFields(m, "value");
  }
}
