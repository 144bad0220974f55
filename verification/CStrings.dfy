/** C strings and the tokeniser the text protocol is parsed with. One char stands for one byte. */
module CStrings {
  import opened Bytes

  /** A buffer read as a C string: up to its first NUL. */
  function CStr(s: string): (r: string)
    ensures '\0' !in s ==> r == s
  {
    if s == "" || s[0] == '\0' then "" else [s[0]] + CStr(s[1..])
  }

  lemma {:induction false} CStrMeans(s: string) returns (n: nat)
    ensures n <= |s| && CStr(s) == s[..n] && '\0' !in s[..n] && (n < |s| ==> s[n] == '\0')
  {
    if s == "" || s[0] == '\0' {
      n := 0;
    } else {
      n := CStrMeans(s[1..]);
      assert s[..n + 1] == [s[0]] + s[1..][..n];
      n := n + 1;
    }
  }

  /** strncpy into a buffer of `size` bytes, terminated. */
  function Truncated(s: string, size: nat): string
    requires size > 0
  {
    if |s| < size then s else s[..size - 1]
  }

  /** No character of `s` is in `stops`. */
  predicate Free(s: string, stops: string) {
    forall i :: 0 <= i < |s| ==> s[i] !in stops
  }

  function Skip(s: string, delims: string): (r: string)
    ensures |r| <= |s|
    ensures r == "" || r[0] !in delims
  {
    if s == "" || s[0] !in delims then s else Skip(s[1..], delims)
  }

  /** How many leading characters are outside `delims`. */
  function Span(s: string, delims: string): (n: nat)
    ensures n <= |s|
  {
    if s == "" || s[0] in delims then 0 else 1 + Span(s[1..], delims)
  }

  /** A token and what the next call goes on with. */
  datatype Token = Token(text: string, rest: string)

  /** strtok: skip delimiters, then take up to the next one, which is consumed. */
  function Strtok(s: string, delims: string): (t: Option<Token>)
    ensures t.Some? ==> |t.value.rest| < |s|
  {
    var from := Skip(s, delims);
    if from == "" then None
    else
      var n := Span(from, delims);
      Some(Token(from[..n], if n < |from| then from[n + 1..] else ""))
  }

  predicate Only(s: string, chars: string) {
    forall i :: 0 <= i < |s| ==> s[i] in chars
  }

  lemma {:induction false} SkipMeans(s: string, delims: string) returns (lead: string)
    ensures s == lead + Skip(s, delims) && Only(lead, delims)
  {
    if s == "" || s[0] !in delims {
      lead := "";
    } else {
      lead := SkipMeans(s[1..], delims);
      lead := [s[0]] + lead;
    }
  }

  lemma {:induction false} SpanMeans(s: string, delims: string)
    ensures Free(s[..Span(s, delims)], delims) && (Span(s, delims) < |s| ==> s[Span(s, delims)] in delims)
  {
    if s != "" && s[0] !in delims {
      SpanMeans(s[1..], delims);
      var n := Span(s[1..], delims);
      assert s[..n + 1] == [s[0]] + s[1..][..n];
    }
  }

  /**
   * The string taken apart: nothing but delimiters, or delimiters, a nonempty token free of them, and then the end,
   * or a delimiter that is dropped and the rest.
   */
  lemma StrtokMeans(s: string, delims: string) returns (lead: string, tail: string)
    ensures Strtok(s, delims).None? <==> Only(s, delims)
    ensures Strtok(s, delims).Some? ==>
              var t := Strtok(s, delims).value;
              && s == lead + t.text + tail && Only(lead, delims) && t.text != "" && Free(t.text, delims)
              && if tail == "" then t.rest == "" else tail[0] in delims && t.rest == tail[1..]
  {
    hide Strtok, Skip, Span, Only, Free;
    lead := SkipMeans(s, delims);
    tail := "";
    var from := Skip(s, delims);
    var n := Span(from, delims);
    StrtokIs(s, delims);
    SpanMeans(from, delims);
    SkippedFirst(s, delims);
    NotOnly(lead, from, delims);
    if from == "" {
      assert lead + from == lead;
    } else {
      tail := from[n..];
      TailSplits(from, n);
      Regroup(lead, from[..n], tail);
    }
  }

  lemma StrtokIs(s: string, delims: string)
    ensures var from := Skip(s, delims);
            var n := Span(from, delims);
            Strtok(s, delims)
            == if from == "" then None else Some(Token(from[..n], if n < |from| then from[n + 1..] else ""))
  {
    hide Skip, Span;
  }

  lemma TailSplits(s: string, n: nat)
    requires n <= |s|
    ensures s == s[..n] + s[n..]
    ensures n < |s| ==> s[n..] != "" && s[n..][0] == s[n] && s[n..][1..] == s[n + 1..]
  {
  }

  lemma SkippedFirst(s: string, delims: string)
    ensures Skip(s, delims) != "" ==> Span(Skip(s, delims), delims) > 0 && Skip(s, delims)[0] !in delims
  {
  }

  lemma NotOnly(lead: string, from: string, delims: string)
    requires from != "" ==> from[0] !in delims
    ensures from != "" ==> !Only(lead + from, delims)
  {
    if from != "" {
      assert (lead + from)[|lead|] == from[0];
    }
  }

  lemma {:induction false} SpanStops(token: string, rest: string, delims: string)
    requires Free(token, delims) && (rest == "" || rest[0] in delims)
    ensures Span(token + rest, delims) == |token|
  {
    if token == "" {
      assert token + rest == rest;
    } else {
      assert (token + rest)[1..] == token[1..] + rest;
      SpanStops(token[1..], rest, delims);
    }
  }

  /** A delimiter-free word followed by a delimiter is the next token. */
  lemma StrtokTakesWord(word: string, delim: char, rest: string, delims: string)
    requires word != "" && Free(word, delims) && delim in delims
    ensures Strtok(word + [delim] + rest, delims) == Some(Token(word, rest))
  {
    var s := word + [delim] + rest;
    assert s == word + ([delim] + rest);
    SpanStops(word, [delim] + rest, delims);
    assert s[0] == word[0];
    assert s[|word| + 1..] == rest;
  }

  lemma StrtokTakesLast(word: string, delims: string)
    requires word != "" && Free(word, delims)
    ensures Strtok(word, delims) == Some(Token(word, ""))
  {
    SpanStops(word, "", delims);
    assert word + "" == word;
  }

  /** All tokens of a string. */
  function Tokens(s: string, delims: string): seq<string>
    decreases |s|
  {
    match Strtok(s, delims)
    case None => []
    case Some(t) => [t.text] + Tokens(t.rest, delims)
  }

  /** Words joined by single separators. */
  function Join(words: seq<string>, separator: char): string {
    if words == [] then "" else if |words| == 1 then words[0]
    else words[0] + [separator] + Join(words[1..], separator)
  }

  /** Tokenising undoes joining. */
  lemma {:induction false} TokensOfJoin(words: seq<string>, separator: char)
    requires forall i :: 0 <= i < |words| ==> words[i] != "" && Free(words[i], [separator])
    ensures Tokens(Join(words, separator), [separator]) == words
    decreases |words|
  {
    NoTokens([separator]);
    if words != [] {
      var text, rest := Join(words, separator), Join(words[1..], separator);
      TokensOfJoin(words[1..], separator);
      if |words| == 1 {
        assert text == words[0] && words[1..] == [];
        hide Join, Tokens, Strtok;
        StrtokTakesLast(words[0], [separator]);
        FirstToken(text, [separator], Token(words[0], ""));
      } else {
        assert text == words[0] + [separator] + rest;
        hide Join, Tokens, Strtok;
        StrtokTakesWord(words[0], separator, rest, [separator]);
        FirstToken(text, [separator], Token(words[0], rest));
      }
    }
  }

  lemma NoTokens(delims: string)
    ensures Tokens("", delims) == []
  {
  }

  lemma FirstToken(s: string, delims: string, t: Token)
    requires Strtok(s, delims) == Some(t)
    ensures Tokens(s, delims) == [t.text] + Tokens(t.rest, delims)
  {
  }

  predicate StartsWith(s: string, prefix: string)
    ensures StartsWith(s, prefix) ==> |prefix| <= |s|
  {
    |prefix| <= |s| && s[..|prefix|] == prefix
  }
}
