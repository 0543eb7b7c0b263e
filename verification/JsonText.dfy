/**
 The text of JSON numbers and strings: shortest decimals laid out as ECMAScript prints them,
 strings quoted as in section 7 of RFC 8259 with lone surrogates escaped.
 */
module JsonText {
  import opened Wrappers

  /** A UTF-16 code unit. */
  type Unit = n: nat | n < 0x10000
  type Text = seq<Unit>

  // --------------------------------------------------------------------- numbers

  /** A nonzero finite number is 0.d1d2...dk * 10^point with its fewest digits. */
  datatype Number = NotFinite | Zero(negative: bool) | Decimal(negative: bool, digits: seq<nat>, point: int)

  predicate IsDigits(digits: seq<nat>) {
    && digits != [] && (forall i | 0 <= i < |digits| :: digits[i] < 10)
    && digits[0] != 0 && digits[|digits| - 1] != 0
  }

  predicate ValidNumber(n: Number) {
    n.Decimal? ==> IsDigits(n.digits)
  }

  function Ascii(digits: seq<nat>): (t: Text)
    requires forall i | 0 <= i < |digits| :: digits[i] < 10
    ensures |t| == |digits| && forall i | 0 <= i < |t| :: t[i] == 48 + digits[i]
  {
    seq(|digits|, i requires 0 <= i < |digits| => 48 + digits[i])
  }

  function Zeros(n: nat): (t: Text)
    ensures |t| == n && forall i | 0 <= i < n :: t[i] == 48
  {
    seq(n, i => 48)
  }

  function Natural(n: nat): (t: Text)
    ensures |t| > 0 && forall i | 0 <= i < |t| :: 48 <= t[i] < 58
  {
    if n < 10 then [48 + n] else Natural(n / 10) + [48 + n % 10]
  }

  function Exponent(e: int): Text {
    if e < 0 then [45] + Natural(-e) else [43] + Natural(e)
  }

  function Mantissa(digits: seq<nat>): Text
    requires IsDigits(digits)
  {
    var t := Ascii(digits);
    if |t| == 1 then t else t[..1] + [46] + t[1..]
  }

  predicate Plain(point: int) {
    -6 < point <= 21
  }

  function PlainText(digits: seq<nat>, point: int): Text
    requires IsDigits(digits) && Plain(point)
  {
    var t := Ascii(digits);
    if point >= |t| then t + Zeros(point - |t|)
    else if point > 0 then t[..point] + [46] + t[point..]
    else [48, 46] + Zeros(-point) + t
  }

  function Magnitude(digits: seq<nat>, point: int): Text
    requires IsDigits(digits)
  {
    if Plain(point) then PlainText(digits, point) else Mantissa(digits) + [101] + Exponent(point - 1)
  }

  function NumberText(n: Number): Text
    requires ValidNumber(n)
  {
    match n
    case NotFinite => []
    case Zero(_) => [48]
    case Decimal(negative, digits, point) => (if negative then [45] else []) + Magnitude(digits, point)
  }

  predicate NumberUnit(u: Unit) {
    48 <= u < 58 || u == 43 || u == 45 || u == 46 || u == 101
  }

  /** Zero is printed without its sign; every other number keeps its identity. */
  predicate SameNumber(a: Number, b: Number) {
    a == b || (a.Zero? && b.Zero?)
  }

  /** Splitting at the first occurrence of a unit is unambiguous. */
  lemma SplitUnique(a: Text, x: Text, b: Text, y: Text, u: Unit)
    requires a + [u] + x == b + [u] + y && u !in a && u !in b
    ensures a == b && x == y
  {
    var l, r := a + [u] + x, b + [u] + y;
    assert l[|a|] == u && r[|b|] == u;
    assert forall i | 0 <= i < |a| :: l[i] == a[i];
    assert forall i | 0 <= i < |b| :: r[i] == b[i];
    assert a == l[..|a|] && b == r[..|a|] && x == l[|a| + 1..] && y == r[|a| + 1..];
  }

  lemma {:induction false} NaturalUnique(m: nat, n: nat)
    requires Natural(m) == Natural(n)
    ensures m == n
  {
    var t, u := Natural(m), Natural(n);
    assert t[|t| - 1] == 48 + m % 10 && u[|u| - 1] == 48 + n % 10;
    if m < 10 || n < 10 {
      assert |t| == 1;
    } else {
      assert t[..|t| - 1] == Natural(m / 10) && u[..|u| - 1] == Natural(n / 10);
      NaturalUnique(m / 10, n / 10);
    }
  }

  lemma ExponentUnique(d: int, e: int)
    requires Exponent(d) == Exponent(e)
    ensures d == e
  {
    assert Exponent(d)[0] == (if d < 0 then 45 else 43) && Exponent(e)[0] == (if e < 0 then 45 else 43);
    assert Exponent(d)[1..] == Natural(if d < 0 then -d else d);
    assert Exponent(e)[1..] == Natural(if e < 0 then -e else e);
    NaturalUnique(if d < 0 then -d else d, if e < 0 then -e else e);
  }

  lemma AsciiUnique(d: seq<nat>, e: seq<nat>)
    requires (forall i | 0 <= i < |d| :: d[i] < 10) && (forall i | 0 <= i < |e| :: e[i] < 10)
    requires Ascii(d) == Ascii(e)
    ensures d == e
  {
    forall i | 0 <= i < |d| ensures d[i] == e[i] {
      assert Ascii(d)[i] == Ascii(e)[i];
    }
  }

  lemma MantissaUnique(d: seq<nat>, e: seq<nat>)
    requires IsDigits(d) && IsDigits(e) && Mantissa(d) == Mantissa(e)
    ensures d == e
  {
    var t, u := Ascii(d), Ascii(e);
    if |d| > 1 && |e| > 1 {
      assert t == Mantissa(d)[..1] + Mantissa(d)[2..] && u == Mantissa(e)[..1] + Mantissa(e)[2..];
    }
    AsciiUnique(d, e);
  }

  /** Whole numbers: the length is the point, and the last digit is the last unit not zero. */
  lemma WholeUnique(d: seq<nat>, p: int, e: seq<nat>, q: int)
    requires IsDigits(d) && IsDigits(e) && p >= |d| && q >= |e|
    requires Ascii(d) + Zeros(p - |d|) == Ascii(e) + Zeros(q - |e|)
    ensures d == e && p == q
  {
    var l, r := Ascii(d) + Zeros(p - |d|), Ascii(e) + Zeros(q - |e|);
    assert |l| == p && |r| == q;
    assert l[|d| - 1] == 48 + d[|d| - 1] && r[|e| - 1] == 48 + e[|e| - 1];
    assert forall i | |d| <= i < p :: l[i] == 48;
    assert forall i | |e| <= i < p :: r[i] == 48;
    assert Ascii(d) == l[..|d|] && Ascii(e) == r[..|e|];
    AsciiUnique(d, e);
  }

  lemma FractionUnique(d: seq<nat>, p: int, e: seq<nat>, q: int)
    requires IsDigits(d) && IsDigits(e) && 0 < p < |d| && 0 < q < |e|
    requires Ascii(d)[..p] + [46] + Ascii(d)[p..] == Ascii(e)[..q] + [46] + Ascii(e)[q..]
    ensures d == e && p == q
  {
    SplitUnique(Ascii(d)[..p], Ascii(d)[p..], Ascii(e)[..q], Ascii(e)[q..], 46);
    assert Ascii(d) == Ascii(d)[..p] + Ascii(d)[p..] && Ascii(e) == Ascii(e)[..q] + Ascii(e)[q..];
    AsciiUnique(d, e);
  }

  lemma SmallUnique(d: seq<nat>, p: nat, e: seq<nat>, q: nat)
    requires IsDigits(d) && IsDigits(e)
    requires [48, 46] + Zeros(p) + Ascii(d) == [48, 46] + Zeros(q) + Ascii(e)
    ensures d == e && p == q
  {
    var l, r := [48, 46] + Zeros(p) + Ascii(d), [48, 46] + Zeros(q) + Ascii(e);
    assert l[2 + p] == 48 + d[0] && r[2 + q] == 48 + e[0];
    assert forall i | 2 <= i < 2 + p :: l[i] == 48;
    assert forall i | 2 <= i < 2 + q :: r[i] == 48;
    assert Ascii(d) == l[2 + p..] && Ascii(e) == r[2 + q..];
    AsciiUnique(d, e);
  }

  datatype Layout = Whole | Fraction | Small

  function LayoutOf(digits: seq<nat>, point: int): Layout {
    if point >= |digits| then Whole else if point > 0 then Fraction else Small
  }

  /** The layout shows in the text: a leading zero, and otherwise a point or none. */
  lemma LayoutShows(digits: seq<nat>, point: int)
    requires IsDigits(digits) && Plain(point)
    ensures var t := PlainText(digits, point);
            && t != [] && (t[0] == 48 <==> LayoutOf(digits, point) == Small)
            && (46 in t <==> LayoutOf(digits, point) != Whole)
  {
    var t := PlainText(digits, point);
    if LayoutOf(digits, point) == Fraction { assert t[point] == 46; }
    if LayoutOf(digits, point) == Small { assert t[1] == 46; }
  }

  lemma PlainUnique(d: seq<nat>, p: int, e: seq<nat>, q: int)
    requires IsDigits(d) && IsDigits(e) && Plain(p) && Plain(q) && PlainText(d, p) == PlainText(e, q)
    ensures d == e && p == q
  {
    hide IsDigits;
    LayoutShows(d, p);
    LayoutShows(e, q);
    match LayoutOf(d, p) {
      case Whole => WholeUnique(d, p, e, q);
      case Fraction => FractionUnique(d, p, e, q);
      case Small => SmallUnique(d, -p, e, -q);
    }
  }

  lemma PlainUnits(digits: seq<nat>, point: int)
    requires IsDigits(digits) && Plain(point)
    ensures forall u | u in PlainText(digits, point) :: 48 <= u < 58 || u == 46
  {
  }

  lemma MantissaUnits(digits: seq<nat>)
    requires IsDigits(digits)
    ensures Mantissa(digits) != [] && 48 <= Mantissa(digits)[0] < 58
    ensures forall u | u in Mantissa(digits) :: 48 <= u < 58 || u == 46
  {
  }

  lemma MagnitudeUnits(digits: seq<nat>, point: int)
    requires IsDigits(digits)
    ensures var t := Magnitude(digits, point);
            t != [] && 48 <= t[0] < 58 && (101 in t <==> !Plain(point)) && forall u | u in t :: NumberUnit(u)
  {
    hide IsDigits, PlainText, Mantissa, Exponent;
    if Plain(point) {
      PlainUnits(digits, point);
      PlainFirst(digits, point);
      var t := PlainText(digits, point);
      assert t[0] in t;
    } else {
      MantissaUnits(digits);
      ExponentUnits(point - 1);
      var m, e := Mantissa(digits), Exponent(point - 1);
      var t := m + [101] + e;
      assert t[0] == m[0] && t[|m|] == 101;
      assert forall u | u in t :: u in m || u == 101 || u in e;
    }
  }

  lemma ExponentUnits(e: int)
    ensures forall u | u in Exponent(e) :: NumberUnit(u)
  {
  }

  lemma PlainFirst(digits: seq<nat>, point: int)
    requires IsDigits(digits) && Plain(point)
    ensures PlainText(digits, point) != [] && PlainText(digits, point)[0] != 46
  {
  }

  lemma MagnitudeUnique(d: seq<nat>, p: int, e: seq<nat>, q: int)
    requires IsDigits(d) && IsDigits(e) && Magnitude(d, p) == Magnitude(e, q)
    ensures d == e && p == q
  {
    hide IsDigits, PlainText, Mantissa, Exponent;
    MagnitudeUnits(d, p);
    MagnitudeUnits(e, q);
    if Plain(p) {
      PlainUnique(d, p, e, q);
    } else {
      MantissaUnits(d);
      MantissaUnits(e);
      SplitUnique(Mantissa(d), Exponent(p - 1), Mantissa(e), Exponent(q - 1), 101);
      MantissaUnique(d, e);
      ExponentUnique(p - 1, q - 1);
    }
  }

  lemma NumberUnits(n: Number)
    requires ValidNumber(n) && !n.NotFinite?
    ensures var t := NumberText(n);
            t != [] && (t[0] == 45 || 48 <= t[0] < 58) && (forall u | u in t :: NumberUnit(u))
            && (n.Decimal? ==> (t[0] == 45 <==> n.negative))
  {
    hide Magnitude;
    if n.Decimal? { MagnitudeUnits(n.digits, n.point); }
  }

  /** A magnitude is never the single unit of zero. */
  lemma NotZero(digits: seq<nat>, point: int)
    requires IsDigits(digits)
    ensures Magnitude(digits, point) != [48]
  {
    MagnitudeUnits(digits, point);
    if Plain(point) { LayoutShows(digits, point); }
    assert |[48]| == 1 && [48][0] == 48 && 101 !in [48] && 46 !in [48];
  }

  /** Finite numbers are printed alike exactly when they are the same number. */
  lemma NumberUnique(a: Number, b: Number)
    requires ValidNumber(a) && ValidNumber(b) && !a.NotFinite? && !b.NotFinite?
    ensures NumberText(a) == NumberText(b) <==> SameNumber(a, b)
  {
    hide Magnitude;
    NumberUnits(a);
    NumberUnits(b);
    if a.Decimal? { NotZero(a.digits, a.point); MagnitudeUnits(a.digits, a.point); }
    if b.Decimal? { NotZero(b.digits, b.point); MagnitudeUnits(b.digits, b.point); }
    if NumberText(a) == NumberText(b) && a.Decimal? && b.Decimal? {
      var k := if a.negative then 1 else 0;
      assert Magnitude(a.digits, a.point) == NumberText(a)[k..] && Magnitude(b.digits, b.point) == NumberText(b)[k..];
      MagnitudeUnique(a.digits, a.point, b.digits, b.point);
    }
  }

  // --------------------------------------------------------------------- strings

  predicate High(u: Unit) { 0xD800 <= u < 0xDC00 }
  predicate Low(u: Unit) { 0xDC00 <= u < 0xE000 }

  /** A surrogate that is not half of a pair. */
  predicate Lone(s: Text, i: nat)
    requires i < |s|
  {
    || (High(s[i]) && !(i + 1 < |s| && Low(s[i + 1])))
    || (Low(s[i]) && !(i > 0 && High(s[i - 1])))
  }

  function HexDigit(d: nat): Unit
    requires d < 16
  {
    if d < 10 then 48 + d else 87 + d
  }

  function HexValue(u: Unit): Option<nat> {
    if 48 <= u < 58 then Some(u - 48)
    else if 97 <= u < 103 then Some(u - 87)
    else if 65 <= u < 71 then Some(u - 55)
    else None
  }

  function Hex4(u: Unit): Text {
    [HexDigit(u / 16 / 16 / 16), HexDigit(u / 16 / 16 % 16), HexDigit(u / 16 % 16), HexDigit(u % 16)]
  }

  function ShortEscape(u: Unit): Option<Unit> {
    if u == 34 || u == 92 then Some(u)
    else if u == 8 then Some(98)
    else if u == 9 then Some(116)
    else if u == 10 then Some(110)
    else if u == 12 then Some(102)
    else if u == 13 then Some(114)
    else None
  }

  function Escape(s: Text, i: nat): Text
    requires i < |s|
  {
    var short := ShortEscape(s[i]);
    if short.Some? then [92, short.value]
    else if s[i] < 32 || Lone(s, i) then [92, 117] + Hex4(s[i])
    else [s[i]]
  }

  function Body(s: Text, i: nat): Text
    requires i <= |s|
    decreases |s| - i
  {
    if i == |s| then [] else Escape(s, i) + Body(s, i + 1)
  }

  function Quote(s: Text): Text {
    [34] + Body(s, 0) + [34]
  }

  function Unescape(u: Unit): Option<Unit> {
    if u == 34 || u == 92 || u == 47 then Some(u)
    else if u == 98 then Some(8)
    else if u == 116 then Some(9)
    else if u == 110 then Some(10)
    else if u == 102 then Some(12)
    else if u == 114 then Some(13)
    else None
  }

  /** Reads one unit of a string, giving it and what follows. */
  function ReadUnit(t: Text): Option<(Unit, Text)> {
    if t == [] || t[0] < 32 || t[0] == 34 then None
    else if t[0] != 92 then Some((t[0], t[1..]))
    else if |t| >= 2 && Unescape(t[1]).Some? then Some((Unescape(t[1]).value, t[2..]))
    else if |t| >= 6 && t[1] == 117 then ReadHex(t)
    else None
  }

  function ReadHex(t: Text): Option<(Unit, Text)>
    requires |t| >= 6
  {
    var a, b, c, d := HexValue(t[2]), HexValue(t[3]), HexValue(t[4]), HexValue(t[5]);
    if a.None? || b.None? || c.None? || d.None? then None
    else Some((a.value * 4096 + b.value * 256 + c.value * 16 + d.value, t[6..]))
  }

  /** Reads a string after its opening quotation mark, giving it and what follows the closing one. */
  function Unquote(t: Text): Option<(Text, Text)>
    decreases |t|
  {
    if t == [] then None
    else if t[0] == 34 then Some(([], t[1..]))
    else
      var first := ReadUnit(t);
      if first.None? || |first.value.1| >= |t| then None
      else
        var rest := Unquote(first.value.1);
        if rest.None? then None else Some(([first.value.0] + rest.value.0, rest.value.1))
  }

  lemma HexRoundTrip(u: Unit, rest: Text)
    ensures ReadHex([92, 117] + Hex4(u) + rest) == Some((u, rest))
  {
    var t := [92, 117] + Hex4(u) + rest;
    assert t[2] == HexDigit(u / 16 / 16 / 16) && t[3] == HexDigit(u / 16 / 16 % 16);
    assert t[4] == HexDigit(u / 16 % 16) && t[5] == HexDigit(u % 16) && t[6..] == rest;
    HexDigits(u);
  }

  lemma HexDigits(u: Unit)
    ensures u / 16 / 16 / 16 * 4096 + u / 16 / 16 % 16 * 256 + u / 16 % 16 * 16 + u % 16 == u
    ensures forall d: nat | d < 16 :: HexValue(HexDigit(d)) == Some(d)
  {
    var a := u / 16;
    var b := a / 16;
    assert u == a * 16 + u % 16 && a == b * 16 + a % 16 && b == b / 16 * 16 + b % 16;
  }

  lemma UnitRoundTrip(s: Text, i: nat, rest: Text)
    requires i < |s|
    ensures ReadUnit(Escape(s, i) + rest) == Some((s[i], rest))
    ensures (Escape(s, i) + rest)[0] != 34
  {
    hide ReadHex, Lone;
    var t := Escape(s, i) + rest;
    if ShortEscape(s[i]).Some? {
      assert t[0] == 92 && t[1] == ShortEscape(s[i]).value && t[2..] == rest;
    } else if s[i] < 32 || Lone(s, i) {
      assert t[0] == 92 && t[1] == 117 && |t| >= 6;
      HexRoundTrip(s[i], rest);
    } else {
      assert t[0] == s[i] && t[1..] == rest;
    }
  }

  /** Reading back a quoted string gives the string and leaves the rest of the text. */
  lemma {:induction false} UnquoteBody(s: Text, i: nat, rest: Text)
    requires i <= |s|
    ensures Unquote(Body(s, i) + [34] + rest) == Some((s[i..], rest))
    decreases |s| - i
  {
    hide ReadUnit, Escape;
    var t := Body(s, i) + [34] + rest;
    if i == |s| {
      assert t == [34] + rest && t[1..] == rest && s[i..] == [];
    } else {
      var more := Body(s, i + 1) + [34] + rest;
      assert t == Escape(s, i) + more;
      UnitRoundTrip(s, i, more);
      EscapeSome(s, i);
      UnquoteBody(s, i + 1, rest);
      assert [s[i]] + s[i + 1..] == s[i..];
    }
  }

  lemma EscapeSome(s: Text, i: nat)
    requires i < |s|
    ensures |Escape(s, i)| > 0
  {
  }

  /** Two quoted strings that start texts alike are the same string with the same text after it. */
  lemma QuoteUnique(s: Text, x: Text, t: Text, y: Text)
    requires Quote(s) + x == Quote(t) + y
    ensures s == t && x == y
  {
    hide Unquote, Body;
    UnquoteBody(s, 0, x);
    UnquoteBody(t, 0, y);
    assert (Quote(s) + x)[1..] == Body(s, 0) + [34] + x;
    assert (Quote(t) + y)[1..] == Body(t, 0) + [34] + y;
    assert s[0..] == s && t[0..] == t;
  }

  // ------------------------------------------------------------------ surrogates

  /** Every surrogate is half of a pair, so that the text has a lossless UTF-8 form. */
  predicate WellPaired(t: Text) {
    if t == [] then true
    else if High(t[0]) then |t| > 1 && Low(t[1]) && WellPaired(t[2..])
    else !Low(t[0]) && WellPaired(t[1..])
  }

  lemma {:induction false} PairedAppend(s: Text, t: Text)
    requires WellPaired(s) && WellPaired(t)
    ensures WellPaired(s + t)
  {
    if s == [] {
      assert s + t == t;
    } else if High(s[0]) {
      PairedAppend(s[2..], t);
      assert (s + t)[2..] == s[2..] + t;
    } else {
      PairedAppend(s[1..], t);
      assert (s + t)[1..] == s[1..] + t;
    }
  }

  predicate NoSurrogates(t: Text) {
    forall i | 0 <= i < |t| :: t[i] < 0xD800
  }

  lemma {:induction false} PlainPaired(t: Text)
    requires NoSurrogates(t)
    ensures WellPaired(t)
  {
    if t != [] { PlainPaired(t[1..]); }
  }

  lemma EscapePlain(s: Text, i: nat)
    requires i < |s| && (!(High(s[i]) || Low(s[i])) || Lone(s, i))
    ensures WellPaired(Escape(s, i))
  {
    if Escape(s, i) != [s[i]] { PlainPaired(Escape(s, i)); }
  }

  lemma {:induction false} BodyPaired(s: Text, i: nat)
    requires i <= |s| && (i < |s| && Low(s[i]) ==> Lone(s, i))
    ensures WellPaired(Body(s, i))
    decreases |s| - i
  {
    hide Escape, WellPaired;
    if i == |s| {
      PlainPaired([]);
    } else if High(s[i]) && !Lone(s, i) {
      RawPair(s, i);
      BodyPaired(s, i + 2);
      assert Body(s, i) == [s[i]] + ([s[i + 1]] + Body(s, i + 2));
      assert Body(s, i) == [s[i], s[i + 1]] + Body(s, i + 2);
      PairFirst(s[i], s[i + 1], Body(s, i + 2));
    } else {
      EscapePlain(s, i);
      BodyPaired(s, i + 1);
      PairedAppend(Escape(s, i), Body(s, i + 1));
    }
  }

  lemma PairFirst(high: Unit, low: Unit, rest: Text)
    requires High(high) && Low(low) && WellPaired(rest)
    ensures WellPaired([high, low] + rest)
  {
    assert ([high, low] + rest)[2..] == rest;
  }

  lemma RawPair(s: Text, i: nat)
    requires i + 1 < |s| && High(s[i]) && Low(s[i + 1])
    ensures Escape(s, i) == [s[i]] && Escape(s, i + 1) == [s[i + 1]]
  {
  }

  lemma QuotePaired(s: Text)
    ensures WellPaired(Quote(s))
  {
    hide Body;
    BodyPaired(s, 0);
    PlainPaired([34]);
    PairedAppend([34], Body(s, 0));
    PairedAppend([34] + Body(s, 0), [34]);
  }
}
