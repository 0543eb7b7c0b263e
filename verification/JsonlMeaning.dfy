/** What the line reader hands on, in terms of the texts that were written. */
module JsonlMeaning {
  import opened Wrappers
  import opened Utf8
  import opened JsonlParser

  /** The bytes of a line without the one carriage return that may end it. */
  predicate Stripped(bytes: seq<Byte>, raw: seq<Byte>) {
    bytes == raw + [0x0D] || (bytes == raw && !(raw != [] && raw[|raw| - 1] == 0x0D))
  }

  /** The bytes spell the text, with or without a byte order mark before it. */
  predicate SpellsOut(raw: seq<Byte>, t: Text) {
    (raw == Encode(t) && !(t != [] && t[0] == 0xFEFF)) || raw == Encode([0xFEFF] + t)
  }

  lemma DecodeExact(raw: seq<Byte>, t: Text)
    ensures DecodeText(raw) == Ok(t) <==> SpellsOut(raw, t)
  {
    hide Decode, Encode;
    if DecodeText(raw) == Ok(t) {
      DecodedIsEncoded(raw);
      var whole := Decode(raw).value;
      assert whole != [] ==> whole == [whole[0]] + whole[1..];
    }
    EncodedDecodes(t);
    EncodedDecodes([0xFEFF] + t);
    assert ([0xFEFF] + t)[1..] == t;
  }

  lemma EncodedDecodes(t: Text)
    ensures Decode(Encode(t)) == Some(t)
  {
    DecodeEncode(t, []);
    assert Encode(t) + [] == Encode(t) && t + [] == t;
  }

  /** A line is handed on exactly as the text its bytes spell, if it is short enough and the handler takes it. */
  lemma LineExact(bytes: seq<Byte>, c: Config, t: Text)
    ensures LineOf(bytes, c) == Some(t) <==>
            exists raw :: Stripped(bytes, raw) && |raw| <= c.limit && SpellsOut(raw, t) && c.accepts(t)
  {
    hide DecodeText, SpellsOut;
    var line := WithoutReturn(bytes);
    assert Stripped(bytes, line);
    forall raw | Stripped(bytes, raw) ensures raw == line {
      if bytes == raw + [0x0D] { assert bytes[..|bytes| - 1] == raw; }
    }
    DecodeExact(line, t);
  }

  // ---------------------------------------------------------------- round trip

  /** Texts written one to a line, each line ended by a newline or by a carriage return and a newline. */
  function Written(texts: seq<Text>, crlf: seq<bool>): seq<Byte>
    requires |crlf| == |texts|
  {
    if texts == [] then []
    else Encode(texts[0]) + (if crlf[0] then [0x0D, 0x0A] else [0x0A]) + Written(texts[1..], crlf[1..])
  }

  /** A text that a line can carry: no newline, no return at its end, no mark at its front, short enough and welcome. */
  predicate Carried(t: Text, c: Config) {
    && 0x0A !in Encode(t) && !(t != [] && t[0] == 0xFEFF) && |Encode(t)| <= c.limit && c.accepts(t)
    && !(Encode(t) != [] && Encode(t)[|Encode(t)| - 1] == 0x0D)
  }

  /** Reading what was written returns the texts, in order, with nothing left over. */
  lemma {:induction false} ScanReads(before: seq<Text>, texts: seq<Text>, crlf: seq<bool>, c: Config)
    requires |crlf| == |texts| && forall i | 0 <= i < |texts| :: Carried(texts[i], c)
    ensures Scan(before, Written(texts, crlf), c) == Parsing(true, [], before + texts)
    decreases |texts|
  {
    hide Encode, LineOf, Carried;
    var bytes := Written(texts, crlf);
    if texts == [] {
      LastLine(before, [], c);
      assert before + texts == before;
    } else {
      var line := Encode(texts[0]) + if crlf[0] then [0x0D] else [];
      var rest := Written(texts[1..], crlf[1..]);
      FirstLine(texts[0], crlf[0], rest, c);
      assert bytes == line + [0x0A] + rest;
      hide Written, Scan;
      ScanLine(before, line, rest, c);
      ScanReads(before + [texts[0]], texts[1..], crlf[1..], c);
      assert before + [texts[0]] + texts[1..] == before + texts;
    }
  }

  lemma FirstLine(t: Text, withReturn: bool, rest: seq<Byte>, c: Config)
    requires Carried(t, c)
    ensures var line := Encode(t) + if withReturn then [0x0D] else [];
            && 0x0A !in line && LineOf(line, c) == Some(t)
            && Encode(t) + (if withReturn then [0x0D, 0x0A] else [0x0A]) + rest == line + [0x0A] + rest
  {
    hide Encode, LineOf;
    LineEnds(Encode(t), withReturn, rest);
    LineExact(Encode(t) + if withReturn then [0x0D] else [], c, t);
  }

  lemma LineEnds(raw: seq<Byte>, withReturn: bool, rest: seq<Byte>)
    requires 0x0A !in raw && !(raw != [] && raw[|raw| - 1] == 0x0D)
    ensures var line := raw + if withReturn then [0x0D] else [];
            && 0x0A !in line && Stripped(line, raw)
            && raw + (if withReturn then [0x0D, 0x0A] else [0x0A]) + rest == line + [0x0A] + rest
  {
    assert raw + [] == raw;
  }

  lemma ScanLine(before: seq<Text>, line: seq<Byte>, rest: seq<Byte>, c: Config)
    requires 0x0A !in line && LineOf(line, c).Some?
    ensures Scan(before, line + [0x0A] + rest, c) == Scan(before + [LineOf(line, c).value], rest, c)
  {
    hide LineOf, Scan;
    var bytes := line + [0x0A] + rest;
    assert bytes[0..|line|] == line && bytes[|line| + 1..] == rest && bytes[0..] == bytes;
    NextLine(before, bytes, 0, |line|, c);
  }

  /** A reader that is fed everything at once and finished has handed on exactly the texts. */
  lemma StreamReads(texts: seq<Text>, crlf: seq<bool>, c: Config)
    requires |crlf| == |texts| && forall i | 0 <= i < |texts| :: Carried(texts[i], c)
    ensures var p := FinishStep(FeedStep(Parsing(true, [], []), Written(texts, crlf), c), c);
            p.ok && p.lines == texts && p.buffer == []
  {
    hide Scan, Written;
    ScanReads([], texts, crlf, c);
    assert [] + Written(texts, crlf) == Written(texts, crlf) && [] + texts == texts;
    EmptyWritten(texts, crlf);
  }

  lemma EmptyWritten(texts: seq<Text>, crlf: seq<bool>)
    requires |crlf| == |texts|
    ensures Written(texts, crlf) == [] ==> texts == []
  {
  }
}
