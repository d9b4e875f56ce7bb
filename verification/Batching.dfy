/** Splitting texts into embedding requests, and joining the answers. */
module Batching {
  import opened Sequences
  import opened Wrappers

  const MAX_TEXTS: nat := 64
  const MAX_TEXT_BYTES: nat := 16 * 1024
  const MAX_REQUEST_BYTES: nat := 256 * 1024

  datatype Purpose = Query | Document

  function PurposeName(purpose: Purpose): string { if purpose.Query? then "query" else "document" }

  // ----- The request on the wire --------------------------------------------------------------

  /** Bytes of a character in UTF-8 (section 3 of RFC 3629). */
  function CharBytes(c: char): nat {
    if c < '\U{80}' then 1 else if c < '\U{800}' then 2 else if c < '\U{10000}' then 3 else 4
  }

  function Bytes(s: string): nat {
    if s == [] then 0 else CharBytes(s[0]) + Bytes(s[1..])
  }

  const HEX: string := "0123456789abcdef"

  /** A character inside a JSON string (section 7 of RFC 8259); characters
      outside ASCII stay as they are. */
  function Escape(c: char): string {
    if c == '"' then "\\\"" else if c == '\\' then "\\\\" else if c == '\n' then "\\n" else if c == '\r' then "\\r"
    else if c == '\t' then "\\t" else if c == '\U{8}' then "\\b" else if c == '\U{C}' then "\\f"
    else if c < ' ' then "\\u00" + [HEX[c as int / 16]] + [HEX[c as int % 16]]
    else [c]
  }

  function Escaped(s: string): string {
    if s == [] then [] else Escape(s[0]) + Escaped(s[1..])
  }

  function Quoted(s: string): string { "\"" + Escaped(s) + "\"" }

  function List(texts: seq<string>): string {
    if texts == [] then "" else if |texts| == 1 then Quoted(texts[0])
    else List(texts[..|texts| - 1]) + "," + Quoted(texts[|texts| - 1])
  }

  /** The compact JSON document that is sent. */
  function Request(texts: seq<string>, purpose: Purpose): string {
    "{\"texts\":[" + List(texts) + "],\"purpose\":" + Quoted(PurposeName(purpose)) + "}"
  }

  function RequestSize(texts: seq<string>, purpose: Purpose): nat { Bytes(Request(texts, purpose)) }

  lemma {:induction false} BytesOfBoth(s: string, t: string)
    ensures Bytes(s + t) == Bytes(s) + Bytes(t)
  {
    if s == [] {
      assert s + t == t;
    } else {
      BytesOfBoth(s[1..], t);
      assert (s + t)[1..] == s[1..] + t;
    }
  }

  lemma {:induction false} AsciiBytes(s: string)
    requires forall k :: 0 <= k < |s| ==> s[k] < '\U{80}'
    ensures Bytes(s) == |s|
  {
    if s != [] { AsciiBytes(s[1..]); }
  }

  lemma EscapeGrows(c: char)
    ensures Bytes(Escape(c)) <= 6 * CharBytes(c)
  {
    if Escape(c) == [c] {
      assert Bytes([c]) == CharBytes(c);
    } else {
      AsciiBytes(Escape(c));
    }
  }

  /** Escaping grows a text at most sixfold. */
  lemma {:induction false} EscapingGrowsSixfold(s: string)
    ensures Bytes(Escaped(s)) <= 6 * Bytes(s)
  {
    if s != [] {
      EscapingGrowsSixfold(s[1..]);
      EscapeGrows(s[0]);
      BytesOfBoth(Escape(s[0]), Escaped(s[1..]));
    }
  }

  // ----- The document read back ----------------------------------------------------------------

  /** What stands at the front of a document and what follows it. */
  datatype Reading<T> = Reading(value: T, rest: string)

  function HexDigit(c: char): Option<nat> {
    if '0' <= c <= '9' then Some(c as int - '0' as int)
    else if 'a' <= c <= 'f' then Some(c as int - 'a' as int + 10)
    else None
  }

  /** The value of the second half of `\u00xy`; higher code points are never escaped. */
  function HexPair(s: string): Option<char> {
    if |s| < 6 || s[2] != '0' || s[3] != '0' || HexDigit(s[4]).None? || HexDigit(s[5]).None? then None
    else Some((16 * HexDigit(s[4]).value + HexDigit(s[5]).value) as char)
  }

  /** What the letter behind a backslash stands for (section 7 of RFC 8259). */
  function LetterOf(c: char): Option<char> {
    match c
    case '"' => Some('"')
    case '\\' => Some('\\')
    case 'n' => Some('\n')
    case 'r' => Some('\r')
    case 't' => Some('\t')
    case 'b' => Some('\U{8}')
    case 'f' => Some('\U{C}')
    case _ => None
  }

  /** The first character of a JSON string, escaped or not. */
  function ReadChar(s: string): (r: Option<Reading<char>>)
    ensures r.Some? ==> |r.value.rest| < |s|
  {
    if s == [] || s[0] == '"' || s[0] < ' ' then None
    else if s[0] != '\\' then Some(Reading(s[0], s[1..]))
    else if |s| == 1 then None
    else if s[1] == 'u' then if HexPair(s).None? then None else Some(Reading(HexPair(s).value, s[6..]))
    else if LetterOf(s[1]).None? then None
    else Some(Reading(LetterOf(s[1]).value, s[2..]))
  }

  /** A JSON string up to its closing quote. */
  function ReadBody(s: string): (r: Option<Reading<string>>)
    ensures r.Some? ==> |r.value.rest| < |s|
    decreases |s|
  {
    if s != [] && s[0] == '"' then Some(Reading([], s[1..]))
    else
      var first := ReadChar(s);
      if first.None? then None
      else
        var others := ReadBody(first.value.rest);
        if others.None? then None
        else Some(Reading([first.value.value] + others.value.value, others.value.rest))
  }

  function ReadString(s: string): (r: Option<Reading<string>>)
    ensures r.Some? ==> |r.value.rest| < |s|
  {
    if s == [] || s[0] != '"' then None else ReadBody(s[1..])
  }

  /** One string or more with commas between them. */
  function ReadStrings(s: string): Option<Reading<seq<string>>>
    decreases |s|
  {
    var first := ReadString(s);
    if first.None? then None
    else if first.value.rest == [] || first.value.rest[0] != ',' then
      Some(Reading([first.value.value], first.value.rest))
    else
      var others := ReadStrings(first.value.rest[1..]);
      if others.None? then None
      else Some(Reading([first.value.value] + others.value.value, others.value.rest))
  }

  lemma CharReadBack(c: char, rest: string)
    ensures ReadChar(Escape(c) + rest) == Some(Reading(c, rest))
    ensures Escape(c) != [] && Escape(c)[0] != '"'
  {
    var s := Escape(c) + rest;
    assert s[|Escape(c)|..] == rest;
    if c < ' ' && |Escape(c)| != 2 {
      HexReadBack(c as int / 16);
      HexReadBack(c as int % 16);
      assert s[..6] == "\\u00" + [HEX[c as int / 16]] + [HEX[c as int % 16]];
      assert s[4] == s[..6][4] && s[5] == s[..6][5];
    }
  }

  lemma HexReadBack(n: nat)
    requires n < 16
    ensures HexDigit(HEX[n]) == Some(n)
  {
  }

  lemma {:induction false} BodyReadBack(s: string, rest: string)
    ensures ReadBody(Escaped(s) + "\"" + rest) == Some(Reading(s, rest))
  {
    hide Escape, ReadChar;
    if s == [] {
      assert Escaped(s) + "\"" + rest == "\"" + rest;
    } else {
      var others := Escaped(s[1..]) + "\"" + rest;
      BodyReadBack(s[1..], rest);
      CharReadBack(s[0], others);
      ReadsOn(Escape(s[0]) + others, s[0], others);
      hide ReadBody;
      assert Escaped(s) + "\"" + rest == Escape(s[0]) + others;
      assert s == [s[0]] + s[1..];
    }
  }

  lemma ReadsOn(s: string, c: char, others: string)
    requires s != [] && s[0] != '"' && ReadChar(s) == Some(Reading(c, others)) && ReadBody(others).Some?
    ensures ReadBody(s) == Some(Reading([c] + ReadBody(others).value.value, ReadBody(others).value.rest))
  {
    hide ReadChar;
  }

  /** The text comes back from its JSON string, whatever follows. */
  lemma QuotedReadBack(s: string, rest: string)
    ensures ReadString(Quoted(s) + rest) == Some(Reading(s, rest))
  {
    hide Escaped, ReadBody;
    BodyReadBack(s, rest);
    OpenFirst(Escaped(s), rest);
  }

  lemma OpenFirst(body: string, rest: string)
    ensures var s := "\"" + body + "\"" + rest; s != [] && s[0] == '"' && s[1..] == body + "\"" + rest
  {
  }

  lemma {:induction false} ListFromFront(text: string, texts: seq<string>)
    requires texts != []
    ensures List([text] + texts) == Quoted(text) + "," + List(texts)
  {
    hide Quoted;
    var n := |texts| - 1;
    assert ([text] + texts)[..n + 1] == [text] + texts[..n];
    if n > 0 {
      ListFromFront(text, texts[..n]);
    } else {
      assert [text] + texts[..n] == [text];
    }
  }

  /** The texts come back from the list of a request. */
  lemma {:induction false} ListReadBack(texts: seq<string>, rest: string)
    requires texts != [] && (rest == [] || rest[0] != ',')
    ensures ReadStrings(List(texts) + rest) == Some(Reading(texts, rest))
  {
    hide Quoted, ReadString;
    if |texts| == 1 {
      QuotedReadBack(texts[0], rest);
      assert texts == [texts[0]];
    } else {
      assert texts == [texts[0]] + texts[1..];
      ListFromFront(texts[0], texts[1..]);
      var others := List(texts[1..]) + rest;
      QuotedReadBack(texts[0], "," + others);
      ListReadBack(texts[1..], rest);
      assert List(texts) + rest == Quoted(texts[0]) + ("," + others);
      assert ("," + others)[1..] == others;
    }
  }

  /** The texts and the purpose that a compact request document stands for. */
  function ReadRequest(s: string): Option<(seq<string>, Purpose)> {
    if |s| < 10 || s[..10] != "{\"texts\":[" then None
    else
      var texts := if |s| > 10 && s[10] == ']' then Some(Reading([], s[10..])) else ReadStrings(s[10..]);
      if texts.None? then None
      else if texts.value.rest == Ending(Query) then Some((texts.value.value, Query))
      else if texts.value.rest == Ending(Document) then Some((texts.value.value, Document))
      else None
  }

  /** Nothing in a text can disturb the document around it: every request is
      read back as the texts and the purpose it was made of. */
  lemma RequestReadBack(texts: seq<string>, purpose: Purpose)
    ensures ReadRequest(Request(texts, purpose)) == Some((texts, purpose))
  {
    hide List, ReadStrings;
    var end := Ending(purpose);
    var s := Request(texts, purpose);
    RequestParts(texts, purpose);
    if texts == [] {
      NothingListed();
    } else {
      ListReadBack(texts, end);
      ListOpens(texts);
      assert s[10] == (List(texts) + end)[0];
    }
  }

  function Ending(purpose: Purpose): string {
    if purpose.Query? then "],\"purpose\":\"query\"}" else "],\"purpose\":\"document\"}"
  }

  lemma NothingListed()
    ensures List([]) == []
  {
  }

  lemma EndingIs(purpose: Purpose)
    ensures Ending(purpose) == "],\"purpose\":" + Quoted(PurposeName(purpose)) + "}"
  {
    hide Escaped;
    PlainEscaped(PurposeName(purpose));
    assert Quoted(PurposeName(purpose)) == "\"" + PurposeName(purpose) + "\"";
    hide Quoted;
    if purpose.Query? { Sealed("],\"purpose\":", "query"); } else { Sealed("],\"purpose\":", "document"); }
  }

  lemma Sealed(key: string, name: string)
    ensures key + ("\"" + name + "\"") + "}" == key + "\"" + name + "\"}"
  {
  }

  lemma RequestParts(texts: seq<string>, purpose: Purpose)
    ensures var s := Request(texts, purpose);
            |s| > 10 && s[..10] == "{\"texts\":[" && s[10..] == List(texts) + Ending(purpose)
  {
    hide List, Ending, Quoted, PurposeName;
    EndingIs(purpose);
    FirstOfFive("{\"texts\":[", List(texts), "],\"purpose\":", Quoted(PurposeName(purpose)), "}");
  }

  lemma FirstOfFive(a: string, b: string, c: string, d: string, e: string)
    ensures var s := a + b + c + d + e; s[..|a|] == a && s[|a|..] == b + (c + d + e)
  {
  }

  lemma {:induction false} ListOpens(texts: seq<string>)
    requires texts != []
    ensures List(texts) != [] && List(texts)[0] == '"'
  {
    if |texts| > 1 { ListOpens(texts[..|texts| - 1]); }
  }

  lemma {:induction false} PlainEscaped(s: string)
    requires forall k :: 0 <= k < |s| ==> 'a' <= s[k] <= 'z'
    ensures Escaped(s) == s
  {
    if s != [] { PlainEscaped(s[1..]); }
  }

  /** A quote, a backslash and five controls take two bytes, the other controls
      six, and every other character its own in UTF-8. */
  lemma EscapeTakes(c: char)
    ensures Bytes(Escape(c)) ==
            if c in {'"', '\\', '\n', '\r', '\t', '\U{8}', '\U{C}'} then 2
            else if c as int < 32 then 6
            else if c as int < 0x80 then 1
            else if c as int < 0x800 then 2
            else if c as int < 0x1_0000 then 3
            else 4
  {
    if Escape(c) == [c] {
      assert Bytes([c]) == CharBytes(c) + Bytes([]);
    } else {
      AsciiBytes(Escape(c));
    }
  }

  // ----- Its size -----------------------------------------------------------------------------

  /** What the texts of a request add to its size, commas included. */
  function Weight(texts: seq<string>): nat {
    if texts == [] then 0
    else Weight(texts[..|texts| - 1]) + (if |texts| == 1 then 0 else 1) + 2 + Bytes(Escaped(texts[|texts| - 1]))
  }

  lemma QuotedBytes(s: string)
    ensures Bytes(Quoted(s)) == 2 + Bytes(Escaped(s))
  {
    BytesOfBoth("\"" + Escaped(s), "\"");
    BytesOfBoth("\"", Escaped(s));
    AsciiBytes("\"");
  }

  lemma {:induction false} ListBytes(texts: seq<string>)
    ensures Bytes(List(texts)) == Weight(texts)
  {
    if texts != [] {
      var head, last := texts[..|texts| - 1], texts[|texts| - 1];
      QuotedBytes(last);
      if |texts| > 1 {
        ListBytes(head);
        BytesOfBoth(List(head) + ",", Quoted(last));
        BytesOfBoth(List(head), ",");
        AsciiBytes(",");
      }
    }
  }

  function Envelope(purpose: Purpose): nat { if purpose.Query? then 30 else 33 }

  lemma BytesOfFive(a: string, b: string, c: string, d: string, e: string)
    ensures Bytes(a + b + c + d + e) == Bytes(a) + Bytes(b) + Bytes(c) + Bytes(d) + Bytes(e)
  {
    BytesOfBoth(a + b + c + d, e);
    BytesOfBoth(a + b + c, d);
    BytesOfBoth(a + b, c);
    BytesOfBoth(a, b);
  }

  lemma EnvelopeBytes()
    ensures Bytes("{\"texts\":[") == 10 && Bytes("],\"purpose\":") == 12 && Bytes("}") == 1
  {
    hide Bytes;
    AsciiBytes("{\"texts\":[");
    AsciiBytes("],\"purpose\":");
    AsciiBytes("}");
  }

  /** A request is its texts and a fixed envelope. */
  lemma RequestSizeIs(texts: seq<string>, purpose: Purpose)
    ensures RequestSize(texts, purpose) == Envelope(purpose) + Weight(texts)
  {
    ListBytes(texts);
    QuotedBytes(PurposeName(purpose));
    PurposeIsPlain(purpose);
    EnvelopeBytes();
    BytesOfFive("{\"texts\":[", List(texts), "],\"purpose\":", Quoted(PurposeName(purpose)), "}");
    hide Bytes, List, Quoted, PurposeName;
  }

  lemma PurposeIsPlain(purpose: Purpose)
    ensures Bytes(Escaped(PurposeName(purpose))) == if purpose.Query? then 5 else 8
  {
    var name := PurposeName(purpose);
    PlainEscaped(name);
    AsciiBytes(name);
  }

  // ----- Requests that may be sent --------------------------------------------------------------

  predicate Fits(texts: seq<string>, purpose: Purpose) {
    |texts| <= MAX_TEXTS && RequestSize(texts, purpose) <= MAX_REQUEST_BYTES
  }

  function Load(texts: seq<string>): nat {
    if texts == [] then 0 else Load(texts[..|texts| - 1]) + 3 + Bytes(Escaped(texts[|texts| - 1]))
  }

  lemma {:induction false} WeightIsLoad(texts: seq<string>)
    ensures Weight(texts) == if texts == [] then 0 else Load(texts) - 1
  {
    if texts != [] { WeightIsLoad(texts[..|texts| - 1]); }
  }

  lemma {:induction false} LoadOfBoth(s: seq<string>, t: seq<string>)
    ensures Load(s + t) == Load(s) + Load(t)
  {
    if t == [] {
      assert s + t == s;
    } else {
      hide Escaped, Bytes;
      var n := |t| - 1;
      LoadOfBoth(s, t[..n]);
      assert (s + t)[..|s + t| - 1] == s + t[..n] && (s + t)[|s + t| - 1] == t[n];
    }
  }

  /** Whatever fits still fits when texts at either end are left out. */
  lemma PartFits(a: seq<string>, b: seq<string>, c: seq<string>, purpose: Purpose)
    requires Fits(a + b + c, purpose)
    ensures Fits(b, purpose)
  {
    LoadOfBoth(a + b, c);
    LoadOfBoth(a, b);
    WeightIsLoad(a + b + c);
    WeightIsLoad(b);
    RequestSizeIs(a + b + c, purpose);
    RequestSizeIs(b, purpose);
  }

  /** A text within its own limit always fits into a request of its own. */
  lemma SingleFits(text: string, purpose: Purpose)
    requires Bytes(text) <= MAX_TEXT_BYTES
    ensures Fits([text], purpose)
  {
    EscapingGrowsSixfold(text);
    RequestSizeIs([text], purpose);
  }

  // ----- Validation --------------------------------------------------------------------------------

  predicate Blank(text: string, isSpace: char -> bool) {
    forall k :: 0 <= k < |text| ==> isSpace(text[k])
  }

  predicate ValidTexts(texts: seq<string>, isSpace: char -> bool) {
    texts != [] && forall k :: 0 <= k < |texts| ==> !Blank(texts[k], isSpace) && Bytes(texts[k]) <= MAX_TEXT_BYTES
  }

  ghost predicate Unacceptable(text: string, isSpace: char -> bool) {
    Bytes(text) > 16384 || forall i :: 0 <= i < |text| ==> isSpace(text[i])
  }

  lemma WhatIsInvalid(texts: seq<string>, isSpace: char -> bool)
    ensures !ValidTexts(texts, isSpace) <==>
            texts == [] || exists k :: 0 <= k < |texts| && Unacceptable(texts[k], isSpace)
  {
    hide Bytes;
    forall k | 0 <= k < |texts|
      ensures Unacceptable(texts[k], isSpace) <==> Blank(texts[k], isSpace) || Bytes(texts[k]) > MAX_TEXT_BYTES
    {
    }
    hide Unacceptable, Blank;
  }

  // ----- Splitting -----------------------------------------------------------------------------------

  /** A division of the texts, in order, into requests that may be sent. */
  predicate IsSplit(texts: seq<string>, batches: seq<seq<string>>, purpose: Purpose) {
    Flatten(batches) == texts && forall k :: 0 <= k < |batches| ==> batches[k] != [] && Fits(batches[k], purpose)
  }

  predicate FullBefore(batch: seq<string>, next: seq<string>, purpose: Purpose) {
    next != [] && !Fits(batch + [next[0]], purpose)
  }

  /** No batch has room for the first text of the next one. */
  ghost predicate Filled(batches: seq<seq<string>>, purpose: Purpose) {
    forall k, l :: 0 <= k < l < |batches| && l == k + 1 ==> FullBefore(batches[k], batches[l], purpose)
  }

  /** The batches closed so far and the one being filled. */
  ghost predicate Splitting(
    texts: seq<string>, n: nat, batches: seq<seq<string>>, current: seq<string>, purpose: Purpose)
  {
    && n <= |texts| && (if n == 0 then batches == [] && current == [] else current != [] && Fits(current, purpose))
    && Flatten(batches) + current == texts[..n]
    && (forall k :: 0 <= k < |batches| ==> batches[k] != [] && Fits(batches[k], purpose))
    && Filled(batches, purpose)
    && (batches != [] && current != [] ==> FullBefore(batches[|batches| - 1], current, purpose))
  }

  lemma FilledGrows(batches: seq<seq<string>>, next: seq<string>, purpose: Purpose)
    requires Filled(batches, purpose) && batches != [] && FullBefore(batches[|batches| - 1], next, purpose)
    ensures Filled(batches + [next], purpose)
  {
    hide FullBefore;
  }

  lemma FilledAlone(batch: seq<string>, purpose: Purpose)
    ensures Filled([], purpose) && Filled([] + [batch], purpose)
  {
  }

  lemma BatchClosed(texts: seq<string>, n: nat, batches: seq<seq<string>>, current: seq<string>, purpose: Purpose)
    requires Splitting(texts, n, batches, current, purpose) && n < |texts| && current != []
    requires !Fits(current + [texts[n]], purpose) && Fits([texts[n]], purpose)
    ensures Splitting(texts, n + 1, batches + [current], [texts[n]], purpose)
  {
    hide Fits, Flatten, Filled, RequestSize;
    assert FullBefore(current, [texts[n]], purpose);
    FlattenPush(batches, current);
    if batches != [] { FilledGrows(batches, current, purpose); } else { FilledAlone(current, purpose); }
    assert texts[..n + 1] == texts[..n] + [texts[n]];
  }

  lemma FullLater(batch: seq<string>, next: seq<string>, text: string, purpose: Purpose)
    requires FullBefore(batch, next, purpose)
    ensures FullBefore(batch, next + [text], purpose)
  {
    hide Fits;
  }

  lemma BatchFilled(texts: seq<string>, n: nat, batches: seq<seq<string>>, current: seq<string>, purpose: Purpose)
    requires Splitting(texts, n, batches, current, purpose) && n < |texts| && Fits(current + [texts[n]], purpose)
    ensures Splitting(texts, n + 1, batches, current + [texts[n]], purpose) && Fits([texts[n]], purpose)
  {
    hide Fits, RequestSize, Flatten;
    assert current + [texts[n]] + [] == current + [texts[n]];
    PartFits(current, [texts[n]], [], purpose);
    if batches != [] && current != [] { FullLater(batches[|batches| - 1], current, texts[n], purpose); }
    hide FullBefore;
    assert texts[..n + 1] == texts[..n] + [texts[n]];
  }

  lemma LastBatchClosed(texts: seq<string>, batches: seq<seq<string>>, current: seq<string>, purpose: Purpose)
    requires Splitting(texts, |texts|, batches, current, purpose)
    ensures var all := if current == [] then batches else batches + [current];
            IsSplit(texts, all, purpose) && Filled(all, purpose)
  {
    hide Fits, FullBefore, Flatten, RequestSize, Filled;
    FlattenPush(batches, current);
    if batches == [] { FilledAlone(current, purpose); }
    else if current != [] { FilledGrows(batches, current, purpose); }
    assert texts[..|texts|] == texts;
    assert current == [] ==> Flatten(batches) + current == Flatten(batches);
  }

  method SplitBatches(texts: seq<string>, purpose: Purpose) returns (r: Option<seq<seq<string>>>)
    ensures r.None? <==> exists k :: 0 <= k < |texts| && !Fits([texts[k]], purpose)
    ensures r.Some? ==> IsSplit(texts, r.value, purpose) && Filled(r.value, purpose)
    // A request holds up to 64 texts in up to 256 KiB and is closed when the next
    // text would be one too many or too much.
    ensures r.None? <==> exists k :: 0 <= k < |texts| && RequestSize([texts[k]], purpose) > 262144
    ensures r.Some? ==> forall k :: 0 <= k < |r.value| ==>
              1 <= |r.value[k]| <= 64 && RequestSize(r.value[k], purpose) <= 262144
    ensures r.Some? ==> forall k, l :: 0 <= k < l < |r.value| && l == k + 1 ==>
              |r.value[k]| == 64 || RequestSize(r.value[k] + [r.value[l][0]], purpose) > 262144
  {
    hide RequestSize, Splitting, Filled, IsSplit;
    var batches: seq<seq<string>>, current: seq<string> := [], [];
    NothingSplit(texts, purpose);
    for n := 0 to |texts|
      invariant Splitting(texts, n, batches, current, purpose)
      invariant forall k :: 0 <= k < n ==> Fits([texts[k]], purpose)
    {
      var candidate := current + [texts[n]];
      var full := current != [] && (|candidate| > MAX_TEXTS || RequestSize(candidate, purpose) > MAX_REQUEST_BYTES);
      ghost var closed, open := batches, current;
      if full {
        batches := batches + [current];
        current := [texts[n]];
      } else {
        assert current == [] ==> candidate == [texts[n]];
        current := candidate;
      }
      if RequestSize(current, purpose) > MAX_REQUEST_BYTES {
        return None;
      }
      if full {
        BatchClosed(texts, n, closed, open, purpose);
      } else {
        BatchFilled(texts, n, closed, open, purpose);
      }
    }
    LastBatchClosed(texts, batches, current, purpose);
    if current != [] {
      batches := batches + [current];
    }
    SplitInNumbers(texts, batches, purpose);
    return Some(batches);
  }

  lemma SplitInNumbers(texts: seq<string>, batches: seq<seq<string>>, purpose: Purpose)
    requires IsSplit(texts, batches, purpose) && Filled(batches, purpose)
    ensures forall k :: 0 <= k < |batches| ==> 1 <= |batches[k]| <= 64 && RequestSize(batches[k], purpose) <= 262144
    ensures forall k, l :: 0 <= k < l < |batches| && l == k + 1 ==>
              |batches[k]| == 64 || RequestSize(batches[k] + [batches[l][0]], purpose) > 262144
  {
    hide RequestSize, Flatten;
  }

  lemma NothingSplit(texts: seq<string>, purpose: Purpose)
    ensures Splitting(texts, 0, [], [], purpose)
  {
  }

  // ----- No split is shorter ---------------------------------------------------------------------------

  function EndOf<T>(lists: seq<seq<T>>, k: nat): nat
    requires k <= |lists|
  {
    |Flatten(lists[..k])|
  }

  lemma {:induction false} FlattenSplits<T>(lists: seq<seq<T>>, k: nat)
    requires k <= |lists|
    ensures EndOf(lists, k) <= |Flatten(lists)| && Flatten(lists)[..EndOf(lists, k)] == Flatten(lists[..k])
    decreases |lists| - k
  {
    if k == |lists| {
      assert lists[..k] == lists;
    } else {
      FlattenSplits(lists, k + 1);
      assert lists[..k + 1][..k] == lists[..k];
    }
  }

  lemma BatchIs<T>(lists: seq<seq<T>>, k: nat)
    requires k < |lists|
    ensures EndOf(lists, k + 1) == EndOf(lists, k) + |lists[k]| <= |Flatten(lists)|
    ensures lists[k] == Flatten(lists)[EndOf(lists, k)..EndOf(lists, k + 1)]
  {
    FlattenSplits(lists, k + 1);
    assert lists[..k + 1][..k] == lists[..k];
  }

  /** The greedy split is never behind any other. */
  lemma {:induction false} GreedyStaysAhead(
    texts: seq<string>, batches: seq<seq<string>>, other: seq<seq<string>>, k: nat, purpose: Purpose)
    requires IsSplit(texts, batches, purpose) && Filled(batches, purpose) && IsSplit(texts, other, purpose)
    requires k <= |batches| && k <= |other|
    ensures EndOf(batches, k) >= EndOf(other, k)
  {
    hide Fits, Flatten, Filled;
    if k > 0 {
      GreedyStaysAhead(texts, batches, other, k - 1, purpose);
      FlattenSplits(other, k);
      if k < |batches| {
        OneMoreBatch(texts, batches, other, k - 1, purpose);
      } else {
        assert batches[..k] == batches;
      }
    }
  }

  lemma OneMoreBatch(texts: seq<string>, batches: seq<seq<string>>, other: seq<seq<string>>, j: nat, purpose: Purpose)
    requires IsSplit(texts, batches, purpose) && Filled(batches, purpose) && IsSplit(texts, other, purpose)
    requires j + 1 < |batches| && j < |other| && EndOf(batches, j) >= EndOf(other, j)
    ensures EndOf(batches, j + 1) >= EndOf(other, j + 1)
  {
    BatchIs(batches, j);
    BatchIs(batches, j + 1);
    BatchIs(other, j);
    assert FullBefore(batches[j], batches[j + 1], purpose);
    FullStopsBefore(texts, batches[j], batches[j + 1], EndOf(other, j), EndOf(batches, j), EndOf(batches, j + 1),
        EndOf(batches, j + 2),
                    EndOf(other, j + 1), purpose);
  }

  lemma FullStopsBefore(
    texts: seq<string>, batch: seq<string>, next: seq<string>, a: nat, b: nat, c: nat, e: nat, d: nat, purpose: Purpose)
    requires a <= b <= c <= e <= |texts| && a <= d <= |texts| && batch == texts[b..c] && next == texts[c..e]
    requires FullBefore(batch, next, purpose) && Fits(texts[a..d], purpose)
    ensures d <= c
  {
    hide Fits;
    assert batch + [next[0]] == texts[b..c + 1];
    if d > c {
      WiderDoesNotFit(texts, a, b, c, d, purpose);
    }
  }

  lemma WiderDoesNotFit(texts: seq<string>, a: nat, b: nat, c: nat, d: nat, purpose: Purpose)
    requires a <= b <= c < d <= |texts| && Fits(texts[a..d], purpose)
    ensures Fits(texts[b..c + 1], purpose)
  {
    hide Fits;
    assert texts[a..d] == texts[a..b] + texts[b..c + 1] + texts[c + 1..d];
    PartFits(texts[a..b], texts[b..c + 1], texts[c + 1..d], purpose);
  }

  /** No division that keeps the order needs fewer requests. */
  lemma SplitIsShortest(texts: seq<string>, batches: seq<seq<string>>, other: seq<seq<string>>, purpose: Purpose)
    requires IsSplit(texts, batches, purpose) && Filled(batches, purpose) && IsSplit(texts, other, purpose)
    ensures |batches| <= |other|
  {
    if |other| < |batches| {
      GreedyStaysAhead(texts, batches, other, |other|, purpose);
      assert other[..|other|] == other;
      BatchIs(batches, |other|);
    }
  }

  /** The error for a single oversized request cannot follow a validation. */
  lemma ValidatedTextsSplit(texts: seq<string>, isSpace: char -> bool, purpose: Purpose)
    requires ValidTexts(texts, isSpace)
    ensures forall k :: 0 <= k < |texts| ==> Fits([texts[k]], purpose)
  {
    forall k | 0 <= k < |texts|
      ensures Fits([texts[k]], purpose)
    {
      SingleFits(texts[k], purpose);
    }
  }

  // ----- The client --------------------------------------------------------------------------------------

  type Vector = seq<real>

  /** What comes back for one request: an answer, or a failure of the transport. */
  datatype Reply = Failure | Malformed | Reply(purpose: Purpose, metadata: nat, vectors: seq<Vector>)

  datatype EmbedError = Closed | InvalidRequest | ServiceFailed | BadResponse | ModelMismatch

  datatype Embedded = Vectors(vectors: seq<Vector>) | Failed(error: EmbedError)

  /** What a reply to a batch comes to. */
  function Verdict(reply: Reply, batch: seq<string>, purpose: Purpose, expected: nat): Embedded {
    match reply
    case Failure => Failed(ServiceFailed)
    case Malformed => Failed(BadResponse)
    case Reply(p, metadata, vectors) =>
      if p != purpose then Failed(BadResponse)
      else if metadata != expected then Failed(ModelMismatch)
      else if |vectors| != |batch| then Failed(BadResponse)
      else Vectors(vectors)
  }

  /** A reply that answers the batch: for its purpose, from the model that is
      expected, and with one vector for each text. */
  ghost predicate Answers(reply: Reply, batch: seq<string>, purpose: Purpose, expected: nat) {
    reply.Reply? && reply.purpose == purpose && reply.metadata == expected && |reply.vectors| == |batch|
  }

  /** Every reply that answers its batch gives each of its texts the model's vector. */
  ghost predicate Faithful(server: seq<string> -> Reply, model: string -> Vector, purpose: Purpose, expected: nat) {
    forall batch: seq<string> :: Answers(server(batch), batch, purpose, expected) ==>
      forall j :: 0 <= j < |batch| ==> server(batch).vectors[j] == model(batch[j])
  }

  ghost predicate AllAnswered(
    batches: seq<seq<string>>, server: seq<string> -> Reply, purpose: Purpose, expected: nat)
  {
    forall k :: 0 <= k < |batches| ==> Answers(server(batches[k]), batches[k], purpose, expected)
  }

  /** The first request without an answer, and what is reported for it. */
  ghost predicate FailsAt(
    batches: seq<seq<string>>, k: int, server: seq<string> -> Reply, purpose: Purpose, expected: nat, error: EmbedError)
  {
    && 0 <= k < |batches| && AllAnswered(batches[..k], server, purpose, expected)
    && var reply := server(batches[k]);
       && !Answers(reply, batches[k], purpose, expected)
       && (error == ServiceFailed <==> reply == Failure)
       && (error == ModelMismatch <==> reply.Reply? && reply.purpose == purpose && reply.metadata != expected)
       && error != Closed && error != InvalidRequest
  }

  ghost function Modelled(model: string -> Vector, texts: seq<string>): seq<Vector> {
    seq(|texts|, i requires 0 <= i < |texts| => model(texts[i]))
  }

  /** One request after the other, in order, up to the first failure. */
  method EmbedBatches(
    batches: seq<seq<string>>, purpose: Purpose, expected: nat, server: seq<string> -> Reply,
    ghost model: string -> Vector)
    returns (r: Embedded)
    requires forall k :: 0 <= k < |batches| ==> batches[k] != [] && Fits(batches[k], purpose)
    ensures r.Vectors? ==> |r.vectors| == |Flatten(batches)|
    ensures r.Vectors? && Faithful(server, model, purpose, expected) ==> r.vectors == Modelled(model, Flatten(batches))
    ensures r.Vectors? ==> AllAnswered(batches, server, purpose, expected)
    ensures r.Failed? ==> exists k :: FailsAt(batches, k, server, purpose, expected, r.error)
  {
    hide Fits, Faithful, Flatten, Modelled;
    var vectors: seq<Vector> := [];
    JoinedNothing(batches, server, model, purpose, expected);
    for k := 0 to |batches|
      invariant Joined(batches, k, vectors, server, model, purpose, expected)
      invariant AllAnswered(batches[..k], server, purpose, expected)
    {
      var verdict := Verdict(server(batches[k]), batches[k], purpose, expected);
      if verdict.Failed? {
        assert FailsAt(batches, k, server, purpose, expected, verdict.error);
        return verdict;
      }
      JoinedNext(batches, k, vectors, server, model, purpose, expected);
      vectors := vectors + verdict.vectors;
      assert batches[..k + 1] == batches[..k] + [batches[k]];
    }
    assert batches[..|batches|] == batches;
    return Vectors(vectors);
  }

  class SyncEmbeddingClient {
    var closed: bool
    /** How often the transport has been closed. */
    var closings: nat

    constructor ()
      ensures !closed && closings == 0
    { closed, closings := false, 0; }

    /** Embeds all texts, in order, or reports the first failure.  `server` is
        what the service answers to a batch, `model` what it stands for. */
    method Embed(
      texts: seq<string>, purpose: Purpose, expected: nat, isSpace: char -> bool, server: seq<string> -> Reply,
      ghost model: string -> Vector)
      returns (r: Embedded)
      ensures closed ==> r == Failed(Closed)
      ensures !closed ==>
                (r == Failed(InvalidRequest) <==>
                 || texts == []
                 || exists k :: 0 <= k < |texts| && Unacceptable(texts[k], isSpace))
      // Vector number i belongs to text number i.
      ensures r.Vectors? && Faithful(server, model, purpose, expected) ==> r.vectors == Modelled(model, texts)
      ensures r.Vectors? ==> |r.vectors| == |texts|
      // The requests are the greedy division, sent in order until one has no answer.
      ensures r.Vectors? ==>
                exists split :: IsSplit(texts, split, purpose) && Filled(split, purpose)
                    && AllAnswered(split, server, purpose, expected)
      ensures r.Failed? && !closed && r.error != InvalidRequest ==>
                exists split, k :: IsSplit(texts, split, purpose) && Filled(split, purpose)
                    && FailsAt(split, k, server, purpose, expected, r.error)
    {
      if closed {
        return Failed(Closed);
      }
      WhatIsInvalid(texts, isSpace);
      if !ValidTexts(texts, isSpace) {
        return Failed(InvalidRequest);
      }
      ValidatedTextsSplit(texts, isSpace, purpose);
      hide Fits, ValidTexts, Unacceptable, Filled, Faithful, Flatten, Modelled, RequestSize, AllAnswered;
      var split := SplitBatches(texts, purpose);
      r := EmbedBatches(split.value, purpose, expected, server, model);
    }

    /** Closes the transport once. */
    method Close()
      modifies this
      ensures closed && closings == old(closings) + (if old(closed) then 0 else 1)
    {
      if closed {
        return;
      }
      closed := true;
      closings := closings + 1;
    }
  }

  /** The answers to the first batches, joined. */
  ghost predicate Joined(
    batches: seq<seq<string>>, k: nat, vectors: seq<Vector>, server: seq<string> -> Reply, model: string -> Vector,
    purpose: Purpose, expected: nat)
  {
    k <= |batches| && |vectors| == |Flatten(batches[..k])|
    && (Faithful(server, model, purpose, expected) ==> vectors == Modelled(model, Flatten(batches[..k])))
  }

  lemma JoinedNothing(
    batches: seq<seq<string>>, server: seq<string> -> Reply, model: string -> Vector, purpose: Purpose, expected: nat)
    ensures Joined(batches, 0, [], server, model, purpose, expected)
  {
  }

  lemma JoinedNext(
    batches: seq<seq<string>>, k: nat, vectors: seq<Vector>, server: seq<string> -> Reply, model: string -> Vector,
    purpose: Purpose, expected: nat)
    requires Joined(batches, k, vectors, server, model, purpose, expected) && k < |batches|
    requires Verdict(server(batches[k]), batches[k], purpose, expected).Vectors?
    ensures Joined(batches, k + 1, vectors + server(batches[k]).vectors, server, model, purpose, expected)
  {
    var batch, done := batches[k], Flatten(batches[..k]);
    assert batches[..k + 1] == batches[..k] + [batch];
    FlattenPush(batches[..k], batch);
    if Faithful(server, model, purpose, expected) {
      assert vectors + server(batch).vectors == Modelled(model, done + batch);
    }
  }
}
