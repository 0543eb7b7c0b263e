/** UTF-8 as in RFC 3629, and the decoder the archive reader uses, which drops a byte order mark. */
module Utf8 {
  import opened Wrappers

  type Byte = b: nat | b < 256
  type CodePoint = c: nat | c < 0x110000 && !(0xD800 <= c < 0xE000)
  type Text = seq<CodePoint>

  const BYTE_ORDER_MARK: CodePoint := 0xFEFF

  predicate Continues(b: Byte) {
    0x80 <= b < 0xC0
  }

  datatype Char = Char(point: CodePoint, length: nat)

  /** The first character of a byte string, shortest form only. */
  function First(b: seq<Byte>): (r: Option<Char>)
    ensures r.Some? ==> 0 < r.value.length <= |b|
  {
    if b == [] then None
    else if b[0] < 0x80 then Some(Char(b[0], 1))
    else if 0xC2 <= b[0] < 0xE0 then
      if |b| >= 2 && Continues(b[1]) then Some(Char((b[0] as int - 0xC0) * 64 + (b[1] as int - 0x80), 2)) else None
    else if 0xE0 <= b[0] < 0xF0 then
      if |b| >= 3 && Continues(b[1]) && Continues(b[2])
         && (b[0] == 0xE0 ==> b[1] >= 0xA0) && (b[0] == 0xED ==> b[1] < 0xA0)
      then Some(Char((b[0] as int - 0xE0) * 4096 + (b[1] as int - 0x80) * 64 + (b[2] as int - 0x80), 3)) else None
    else if 0xF0 <= b[0] < 0xF5 then
      if |b| >= 4 && Continues(b[1]) && Continues(b[2]) && Continues(b[3])
         && (b[0] == 0xF0 ==> b[1] >= 0x90) && (b[0] == 0xF4 ==> b[1] < 0x90)
      then
        Some(Char((b[0] as int - 0xF0) * 262144 + (b[1] as int - 0x80) * 4096 + (b[2] as int - 0x80) * 64
                  + (b[3] as int - 0x80), 4))
      else None
    else None
  }

  function Decode(b: seq<Byte>): Option<Text> {
    if b == [] then Some([])
    else
      var first := First(b);
      if first.None? then None
      else
        var rest := Decode(b[first.value.length..]);
        if rest.None? then None else Some([first.value.point] + rest.value)
  }

  function EncodeOne(c: CodePoint): seq<Byte> {
    if c < 0x80 then [c]
    else if c < 0x800 then [0xC0 + c / 64, 0x80 + c % 64]
    else if c < 0x10000 then [0xE0 + c / 64 / 64, 0x80 + c / 64 % 64, 0x80 + c % 64]
    else [0xF0 + c / 64 / 64 / 64, 0x80 + c / 64 / 64 % 64, 0x80 + c / 64 % 64, 0x80 + c % 64]
  }

  function Encode(t: Text): seq<Byte> {
    if t == [] then [] else EncodeOne(t[0]) + Encode(t[1..])
  }

  /** The strict decoder: malformed input is an error, a leading byte order mark is dropped. */
  function DecodeText(b: seq<Byte>): Result<Text> {
    var t := Decode(b);
    if t.None? then Err("invalid UTF-8")
    else if t.value != [] && t.value[0] == BYTE_ORDER_MARK then Ok(t.value[1..])
    else Ok(t.value)
  }

  lemma Digits64(c: nat)
    ensures c == c / 64 * 64 + c % 64
    ensures c / 64 == c / 64 / 64 * 64 + c / 64 % 64
    ensures c / 64 / 64 == c / 64 / 64 / 64 * 64 + c / 64 / 64 % 64
  {
  }

  lemma FirstOfEncoded(c: CodePoint, rest: seq<Byte>)
    ensures First(EncodeOne(c) + rest) == Some(Char(c, |EncodeOne(c)|))
  {
    Digits64(c);
    var b := EncodeOne(c) + rest;
    if c < 0x80 {
      assert b[0] == c;
    } else if c < 0x800 {
      assert b[0] == 0xC0 + c / 64 && b[1] == 0x80 + c % 64;
    } else if c < 0x10000 {
      assert b[0] == 0xE0 + c / 64 / 64 && b[1] == 0x80 + c / 64 % 64 && b[2] == 0x80 + c % 64;
    } else {
      assert b[0] == 0xF0 + c / 64 / 64 / 64 && b[1] == 0x80 + c / 64 / 64 % 64;
      assert b[2] == 0x80 + c / 64 % 64 && b[3] == 0x80 + c % 64;
    }
  }

  /** Decoding gives back what was encoded, followed by what follows it. */
  lemma {:induction false} DecodeEncode(t: Text, rest: seq<Byte>)
    ensures var r := Decode(rest);
            Decode(Encode(t) + rest) == if r.None? then None else Some(t + r.value)
  {
    hide First, EncodeOne;
    if t == [] {
      assert Encode(t) + rest == rest;
      assert Decode(rest).Some? ==> [] + Decode(rest).value == Decode(rest).value;
    } else {
      var tail := Encode(t[1..]) + rest;
      var b := Encode(t) + rest;
      assert b == EncodeOne(t[0]) + tail;
      FirstOfEncoded(t[0], tail);
      assert b[|EncodeOne(t[0])|..] == tail;
      DecodeEncode(t[1..], rest);
      assert t == [t[0]] + t[1..];
      assert Decode(rest).Some? ==> [t[0]] + (t[1..] + Decode(rest).value) == t + Decode(rest).value;
    }
  }

  lemma LastDigit(high: nat, low: nat)
    requires low < 64
    ensures (high * 64 + low) / 64 == high && (high * 64 + low) % 64 == low
  {
  }

  lemma FirstIsEncoded(b: seq<Byte>)
    requires First(b).Some?
    ensures var first := First(b).value; b[..first.length] == EncodeOne(first.point)
  {
    var n := First(b).value.length;
    if n == 2 {
      LastDigit(b[0] - 0xC0, b[1] - 0x80);
    } else if n == 3 {
      ThreeBytes(b);
    } else if n == 4 {
      FourBytes(b);
    }
  }

  lemma ThreeBytes(b: seq<Byte>)
    requires First(b).Some? && First(b).value.length == 3
    ensures b[..3] == EncodeOne(First(b).value.point)
  {
    var high: nat := (b[0] as int - 0xE0) * 64 + (b[1] as int - 0x80);
    assert First(b).value.point == high * 64 + (b[2] - 0x80);
    LastDigit(high, b[2] - 0x80);
    LastDigit(b[0] - 0xE0, b[1] - 0x80);
  }

  lemma FourBytes(b: seq<Byte>)
    requires First(b).Some? && First(b).value.length == 4
    ensures b[..4] == EncodeOne(First(b).value.point)
  {
    var high: nat := (b[0] as int - 0xF0) * 64 + (b[1] as int - 0x80);
    var middle: nat := high * 64 + (b[2] as int - 0x80);
    assert First(b).value.point == middle * 64 + (b[3] - 0x80);
    LastDigit(middle, b[3] - 0x80);
    LastDigit(high, b[2] - 0x80);
    LastDigit(b[0] - 0xF0, b[1] - 0x80);
  }

  /** Only the shortest form is read: what decodes to a text is its encoding. */
  lemma {:induction false} DecodedIsEncoded(b: seq<Byte>)
    requires Decode(b).Some?
    ensures Encode(Decode(b).value) == b
  {
    hide First, EncodeOne;
    if b != [] {
      var n := First(b).value.length;
      FirstIsEncoded(b);
      DecodedIsEncoded(b[n..]);
      assert b == b[..n] + b[n..];
      assert Decode(b).value[1..] == Decode(b[n..]).value;
    }
  }

  predicate Ascii(b: seq<Byte>) {
    forall i | 0 <= i < |b| :: b[i] < 0x80
  }

  lemma {:induction false} DecodeAscii(b: seq<Byte>)
    requires Ascii(b)
    ensures Decode(b).Some? && |Decode(b).value| == |b| && forall i | 0 <= i < |b| :: Decode(b).value[i] == b[i]
  {
    if b != [] { DecodeAscii(b[1..]); }
  }
}
