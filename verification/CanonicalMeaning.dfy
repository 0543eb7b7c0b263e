/** The canonical text is JSON as in RFC 8259, and denotes the value it was made from. */
module CanonicalMeaning {
  import opened Wrappers
  import opened JsonText
  import opened CanonicalJson

  function Units(s: string): Text
    requires forall i | 0 <= i < |s| :: s[i] < 128 as char
  {
    seq(|s|, i requires 0 <= i < |s| => s[i] as int)
  }

  // --------------------------------------------------------------------- numbers

  function Pow10(n: nat): nat {
    if n == 0 then 1 else 10 * Pow10(n - 1)
  }

  /** The number that decimal digits spell. */
  function Value(digits: seq<nat>): nat {
    if digits == [] then 0 else Value(digits[..|digits| - 1]) * 10 + digits[|digits| - 1]
  }

  /** The units of digits. */
  predicate Spells(t: Text, digits: seq<nat>) {
    |t| == |digits| && forall i | 0 <= i < |t| :: digits[i] < 10 && t[i] == 48 + digits[i]
  }

  /** m * 10^s == n * 10^t */
  predicate Equal(m: nat, s: int, n: nat, t: int) {
    if s <= t then m == n * Pow10(t - s) else m * Pow10(s - t) == n
  }

  /** An exponent part, or none for nought. */
  ghost predicate ReadsExponent(t: Text, e: int) {
    || (t == [] && e == 0)
    || exists digits, sign | sign == Units("+") || sign == Units("-") ::
         && digits != [] && |t| == 2 + |digits| && t[..2] == Units("e") + sign && Spells(t[2..], digits)
         && e == if sign == Units("-") then -(Value(digits) as int) else Value(digits)
  }

  /** A fraction part, or none. */
  ghost predicate ReadsFraction(t: Text, digits: seq<nat>) {
    (t == [] && digits == []) || (digits != [] && t != [] && t[..1] == Units(".") && Spells(t[1..], digits))
  }

  /** An optional sign, digits without a leading zero, a fraction and an exponent, worth the number. */
  ghost predicate ReadsNumber(t: Text, n: Number) {
    match n
    case NotFinite => false
    case Zero(_) => t == Units("0")
    case Decimal(negative, digits, point) =>
      exists whole: seq<nat>, w: Text, fraction: seq<nat>, f: Text, exponent: int, e: Text ::
        && t == (if negative then Units("-") else []) + w + f + e
        && Spells(w, whole) && whole != [] && (whole[0] == 0 ==> |whole| == 1)
        && ReadsFraction(f, fraction) && ReadsExponent(e, exponent)
        && Equal(Value(whole + fraction), exponent - |fraction|, Value(digits), point - |digits|)
  }

  lemma {:induction false} ValueAppendZeros(digits: seq<nat>, n: nat, zeros: seq<nat>)
    requires |zeros| == n && forall i | 0 <= i < n :: zeros[i] == 0
    ensures Value(digits + zeros) == Value(digits) * Pow10(n)
  {
    if n == 0 {
      assert digits + zeros == digits;
    } else {
      assert (digits + zeros)[..|digits| + n - 1] == digits + zeros[..n - 1];
      ValueAppendZeros(digits, n - 1, zeros[..n - 1]);
    }
  }

  lemma {:induction false} ValueAfterZeros(zeros: seq<nat>, digits: seq<nat>)
    requires forall i | 0 <= i < |zeros| :: zeros[i] == 0
    ensures Value(zeros + digits) == Value(digits)
  {
    if digits == [] {
      assert zeros + digits == zeros;
      if zeros != [] {
        var fewer := zeros[..|zeros| - 1];
        ValueAfterZeros(fewer, []);
        assert fewer + [] == fewer;
      }
    } else {
      var n := |digits| - 1;
      assert (zeros + digits)[..|zeros| + n] == zeros + digits[..n];
      ValueAfterZeros(zeros, digits[..n]);
    }
  }

  lemma {:induction false} NaturalSpells(n: nat) returns (digits: seq<nat>)
    ensures digits != [] && Spells(Natural(n), digits) && Value(digits) == n
  {
    if n < 10 {
      digits := [n];
      assert digits[..0] == [];
    } else {
      digits := NaturalSpells(n / 10);
      var more := digits + [n % 10];
      assert more[..|digits|] == digits;
      digits := more;
    }
  }

  lemma ExponentParts(e: int)
    ensures var t, sign := [101] + Exponent(e), if e < 0 then Units("-") else Units("+");
            && |t| >= 2 && t[..2] == Units("e") + sign && t[2..] == Natural(if e < 0 then -e else e)
            && Units("-") != Units("+")
  {
    hide Natural, Units;
    ExponentMarks();
  }

  lemma ExponentMarks()
    ensures Units("e") == [101] && Units("-") == [45] && Units("+") == [43]
  {
  }

  lemma ExponentReads(e: int)
    ensures ReadsExponent([101] + Exponent(e), e)
  {
    var digits := NaturalSpells(if e < 0 then -e else e);
    ExponentParts(e);
    hide Units, Exponent, Natural, Value;
    var t, sign := [101] + Exponent(e), if e < 0 then Units("-") else Units("+");
    assert |t| == 2 + |t[2..]|;
  }

  lemma AsciiSpells(digits: seq<nat>)
    requires forall i | 0 <= i < |digits| :: digits[i] < 10
    ensures Spells(Ascii(digits), digits)
  {
  }

  lemma ExponentLayout(n: Number)
    requires n.Decimal? && IsDigits(n.digits) && !Plain(n.point)
    ensures ReadsNumber(NumberText(n), n)
  {
    hide ReadsNumber, Exponent, Value, ReadsExponent;
    var digits, t := n.digits, Ascii(n.digits);
    assert Units(".") == [46];
    ExponentReads(n.point - 1);
    var f := if |digits| == 1 then [] else [46] + t[1..];
    var e := [101] + Exponent(n.point - 1);
    assert Mantissa(digits) == t[..1] + f;
    assert Magnitude(digits, n.point) == t[..1] + f + e;
    hide Magnitude, Mantissa;
    assert f != [] ==> f[..1] == Units(".") && f[1..] == t[1..];
    assert digits[..1] + digits[1..] == digits;
    Witness(n, digits[..1], t[..1], digits[1..], f, n.point - 1, e);
  }

  lemma WholeLayout(n: Number)
    requires n.Decimal? && IsDigits(n.digits) && Plain(n.point) && n.point >= |n.digits|
    ensures ReadsNumber(NumberText(n), n)
  {
    hide ReadsNumber, Value;
    var digits, k := n.digits, n.point - |n.digits|;
    var zeros := seq(k, i => 0);
    ValueAppendZeros(digits, k, zeros);
    assert digits + zeros + [] == digits + zeros;
    var w := Ascii(digits) + Zeros(k);
    assert w == w + [] + [];
    Witness(n, digits + zeros, w, [], [], 0, []);
  }

  lemma FractionLayout(n: Number)
    requires n.Decimal? && IsDigits(n.digits) && Plain(n.point) && 0 < n.point < |n.digits|
    ensures ReadsNumber(NumberText(n), n)
  {
    hide ReadsNumber, Value, Spells, ReadsFraction, NumberText, Units;
    var digits, t, p := n.digits, Ascii(n.digits), n.point;
    AsciiSpells(digits);
    SplitReads(digits, t, p);
    FractionParts(digits, p);
    hide Magnitude, IsDigits;
    assert digits[..p] + digits[p..] == digits;
    Witness(n, digits[..p], t[..p], digits[p..], [46] + t[p..], 0, []);
  }

  lemma FractionParts(digits: seq<nat>, p: int)
    requires IsDigits(digits) && Plain(p) && 0 < p < |digits|
    ensures Magnitude(digits, p) == Ascii(digits)[..p] + ([46] + Ascii(digits)[p..]) + []
  {
    var t := Ascii(digits);
    assert t[..p] + [46] + t[p..] == t[..p] + ([46] + t[p..]) + [];
  }

  lemma SplitReads(digits: seq<nat>, t: Text, p: nat)
    requires Spells(t, digits) && p < |t|
    ensures Spells(t[..p], digits[..p]) && ReadsFraction([46] + t[p..], digits[p..])
  {
    var f := [46] + t[p..];
    assert Units(".") == [46];
    assert f[..1] == [46] && f[1..] == t[p..];
  }

  lemma SmallLayout(n: Number)
    requires n.Decimal? && IsDigits(n.digits) && Plain(n.point) && n.point <= 0
    ensures ReadsNumber(NumberText(n), n)
  {
    hide ReadsNumber, Value, Units, NumberText, Spells, ReadsFraction;
    var digits, k := n.digits, -n.point;
    var zeros := seq(k, i => 0);
    ValueAfterZeros([0] + zeros, digits);
    assert [0] + zeros + digits == [0] + (zeros + digits);
    SmallParts(digits, k);
    SmallReads(digits, zeros);
    hide Magnitude, IsDigits;
    Witness(n, [0], [48], zeros + digits, [46] + (Zeros(k) + Ascii(digits)), 0, []);
  }

  lemma SmallParts(digits: seq<nat>, k: nat)
    requires IsDigits(digits) && Plain(0 - k)
    ensures Magnitude(digits, 0 - k) == [48] + ([46] + (Zeros(k) + Ascii(digits))) + []
  {
    var t := Ascii(digits);
    assert [48, 46] + Zeros(k) + t == [48] + ([46] + (Zeros(k) + t)) + [];
  }

  lemma SmallReads(digits: seq<nat>, zeros: seq<nat>)
    requires IsDigits(digits) && forall i | 0 <= i < |zeros| :: zeros[i] == 0
    ensures Spells([48], [0])
    ensures ReadsFraction([46] + (Zeros(|zeros|) + Ascii(digits)), zeros + digits)
  {
    var t := Zeros(|zeros|) + Ascii(digits);
    assert Units(".") == [46];
    assert ([46] + t)[..1] == [46] && ([46] + t)[1..] == t;
    assert Spells(t, zeros + digits);
  }

  lemma Witness(
    n: Number, whole: seq<nat>, w: Text, fraction: seq<nat>, f: Text, exponent: int, e: Text)
    requires n.Decimal? && IsDigits(n.digits)
    requires Magnitude(n.digits, n.point) == w + f + e
    requires Spells(w, whole) && whole != [] && (whole[0] == 0 ==> |whole| == 1)
    requires ReadsFraction(f, fraction) && ReadsExponent(e, exponent)
    requires Equal(Value(whole + fraction), exponent - |fraction|, Value(n.digits), n.point - |n.digits|)
    ensures ReadsNumber(NumberText(n), n)
  {
    hide Value, Spells, ReadsFraction, ReadsExponent, Equal, Magnitude, NumberText, Units, IsDigits;
    SignFirst(n, w, f, e);
  }

  lemma SignFirst(n: Number, w: Text, f: Text, e: Text)
    requires n.Decimal? && IsDigits(n.digits) && Magnitude(n.digits, n.point) == w + f + e
    ensures NumberText(n) == (if n.negative then Units("-") else []) + w + f + e
  {
    hide Magnitude, IsDigits;
    assert Units("-") == [45];
  }

  /** A number's text reads as that number. */
  lemma NumberReads(n: Number)
    requires ValidNumber(n) && !n.NotFinite?
    ensures ReadsNumber(NumberText(n), n)
  {
    hide ReadsNumber, NumberText;
    if n.Zero? {
      ZeroReads(n);
    } else if !Plain(n.point) {
      ExponentLayout(n);
    } else if n.point >= |n.digits| {
      WholeLayout(n);
    } else if n.point > 0 {
      FractionLayout(n);
    } else {
      SmallLayout(n);
    }
  }

  lemma ZeroReads(n: Number)
    requires n.Zero?
    ensures ReadsNumber(NumberText(n), n)
  {
    assert Units("0") == [48];
  }

  /** The exponent form is used exactly below 10^-6 and from 10^21 on. */
  lemma ExponentIff(n: Number)
    requires n.Decimal? && IsDigits(n.digits)
    ensures 101 in NumberText(n) <==> n.point - 1 < -6 || n.point - 1 >= 21
  {
    hide Magnitude;
    MagnitudeUnits(n.digits, n.point);
  }

  /** Quotation mark, backslash and controls are escaped, the shortest way; so are lone surrogates, and nothing else. */
  lemma EscapeMeans(s: Text, i: nat)
    requires i < |s|
    ensures var e, u := Escape(s, i), s[i];
            && (u == '\"' as int ==> e == Units("\\\"")) && (u == '\\' as int ==> e == Units("\\\\"))
            && (u == 8 ==> e == Units("\\b")) && (u == 9 ==> e == Units("\\t")) && (u == 10 ==> e == Units("\\n"))
            && (u == 12 ==> e == Units("\\f")) && (u == 13 ==> e == Units("\\r"))
            && (u in {0, 1, 2, 3, 4, 5, 6, 7, 11} || 14 <= u < 32 || Lone(s, i) ==>
                  |e| == 6 && e[..2] == Units("\\u") && forall k | 2 <= k < 6 :: !(65 <= e[k] <= 90))
            && (u >= 32 && u != 34 && u != 92 && !Lone(s, i) ==> e == [u])
  {
  }

  // ---------------------------------------------------------------------- values

  function Commas(parts: seq<Text>): Text {
    if parts == [] then [] else if |parts| == 1 then parts[0] else parts[0] + Units(",") + Commas(parts[1..])
  }

  /** A quotation mark, and behind it a string that reads as `s` up to its closing mark, with nothing after. */
  predicate ReadsString(t: Text, s: Text) {
    t != [] && t[..1] == [34] && Unquote(t[1..]) == Some((s, []))
  }

  /** One member of an object: which field it is, with the texts of its name and its value. */
  datatype Member = Member(field: nat, name: Text, value: Text)

  function MemberTexts(members: seq<Member>): (texts: seq<Text>)
    ensures |texts| == |members|
    ensures forall i | 0 <= i < |members| :: texts[i] == members[i].name + Units(":") + members[i].value
  {
    seq(|members|, i requires 0 <= i < |members| => members[i].name + Units(":") + members[i].value)
  }

  /** Every field once, by ascending key. */
  ghost predicate Lists(members: seq<Member>, fields: seq<Field>) {
    && |members| == |fields| && (forall i | 0 <= i < |members| :: members[i].field < |fields|)
    && (forall i, j | 0 <= i < j < |members| ::
          KeyLess(fields[members[i].field].key, fields[members[j].field].key))
  }

  /** The text is the JSON text of the value, without white space. */
  ghost predicate Denotes(t: Text, v: Json)
    decreases v
  {
    match v
    case Null => t == Units("null")
    case Bool(b) => t == Units(if b then "true" else "false")
    case Str(s) => ReadsString(t, s)
    case Num(n) => ReadsNumber(t, n)
    case Arr(items) =>
      exists parts :: |parts| == |items| && t == Units("[") + Commas(parts) + Units("]")
                      && forall i | 0 <= i < |items| :: Denotes(parts[i], items[i])
    case Obj(fields) =>
      exists members: seq<Member> ::
        && Lists(members, fields) && t == Units("{") + Commas(MemberTexts(members)) + Units("}")
        && (forall i | 0 <= i < |members| :: ReadsString(members[i].name, fields[members[i].field].key))
        && (forall i | 0 <= i < |members| :: Denotes(members[i].value, fields[members[i].field].value))
    case Unserializable => false
  }

  lemma QuoteReads(s: Text)
    ensures ReadsString(Quote(s), s)
  {
    hide Body, Unquote;
    UnquoteBody(s, 0, []);
    var t := Quote(s);
    assert t[1..] == Body(s, 0) + [34] + [] && s[0..] == s;
  }

  lemma {:induction false} ItemsAreCommas(v: Json, i: nat, parts: seq<Text>)
    requires v.Arr? && Valid(v) && i < |v.items| && |parts| == |v.items|
    requires forall k | 0 <= k < |parts| :: parts[k] == Print(v.items[k])
    ensures Items(v, i) == Comma(i) + Commas(parts[i..])
    decreases |v.items| - i
  {
    hide Print;
    assert Units(",") == [44];
    if i + 1 < |v.items| {
      ItemsAreCommas(v, i + 1, parts);
      assert parts[i..][1..] == parts[i + 1..];
      assert Items(v, i) == Comma(i) + parts[i] + ([44] + Commas(parts[i + 1..]));
      assert Commas(parts[i..]) == parts[i] + [44] + Commas(parts[i + 1..]);
    } else {
      assert Items(v, i + 1) == [] && parts[i..] == [parts[i]];
      assert Items(v, i) == Comma(i) + parts[i];
    }
  }

  lemma ItemsWhole(v: Json, parts: seq<Text>)
    requires v.Arr? && Valid(v) && |parts| == |v.items|
    requires forall k | 0 <= k < |parts| :: parts[k] == Print(v.items[k])
    ensures Items(v, 0) == Commas(parts)
  {
    hide Print, Units;
    if |parts| > 0 {
      ItemsAreCommas(v, 0, parts);
      assert parts[0..] == parts;
    }
  }

  lemma ArrayText(v: Json, parts: seq<Text>)
    requires v.Arr? && Valid(v) && |parts| == |v.items|
    requires forall k | 0 <= k < |parts| :: parts[k] == Print(v.items[k])
    ensures Print(v) == Units("[") + Commas(parts) + Units("]")
  {
    ItemsWhole(v, parts);
    Brackets();
    hide Units, Commas, Items, Valid;
  }

  lemma ArrayDenotes(v: Json, parts: seq<Text>)
    requires v.Arr? && Valid(v) && |parts| == |v.items|
    requires forall k | 0 <= k < |parts| :: parts[k] == Print(v.items[k]) && Denotes(parts[k], v.items[k])
    ensures Denotes(Print(v), v)
  {
    ArrayText(v, parts);
    hide Print, Units, Commas, Valid;
    Gathered(Print(v), v, parts);
  }

  lemma Gathered(t: Text, v: Json, parts: seq<Text>)
    requires v.Arr? && |parts| == |v.items| && t == Units("[") + Commas(parts) + Units("]")
    requires forall k | 0 <= k < |parts| :: Denotes(parts[k], v.items[k])
    ensures Denotes(t, v)
  {
    hide Units, Commas;
  }

  lemma Brackets()
    ensures Units("[") == [91] && Units("]") == [93]
  {
  }

  function MembersOf(v: Json, keys: seq<Text>): (members: seq<Member>)
    requires v.Obj? && Valid(v) && forall j | 0 <= j < |keys| :: keys[j] in Keys(v.fields)
    ensures |members| == |keys|
    ensures forall j | 0 <= j < |keys| ::
              var k := IndexOf(v.fields, keys[j]); members[j] == Member(k, Quote(keys[j]), Print(v.fields[k].value))
  {
    seq(|keys|, j requires 0 <= j < |keys| =>
      var k := IndexOf(v.fields, keys[j]); Member(k, Quote(keys[j]), Print(v.fields[k].value)))
  }

  lemma {:induction false} FieldsAreCommas(v: Json, keys: seq<Text>, i: nat)
    requires v.Obj? && Valid(v) && i < |keys| && forall j | 0 <= j < |keys| :: keys[j] in Keys(v.fields)
    ensures Fields(v, keys, i) == Comma(i) + Commas(MemberTexts(MembersOf(v, keys))[i..])
    decreases |keys| - i
  {
    hide Print, Quote, IndexOf, Keys, Units, Comma;
    Signs();
    var texts := MemberTexts(MembersOf(v, keys));
    var value := Print(v.fields[IndexOf(v.fields, keys[i])].value);
    assert texts[i] == Quote(keys[i]) + [58] + value;
    CommasStep(texts, i);
    hide Commas;
    if i + 1 < |keys| {
      FieldsAreCommas(v, keys, i + 1);
      LaterComma(i + 1);
      FieldStep(Comma(i), Quote(keys[i]), value, Commas(texts[i + 1..]));
    } else {
      assert Fields(v, keys, i + 1) == [];
      FieldStep(Comma(i), Quote(keys[i]), value, []);
    }
  }

  lemma Signs()
    ensures Units(",") == [44] && Units(":") == [58]
  {
  }

  lemma LaterComma(i: nat)
    requires i > 0
    ensures Comma(i) == [44]
  {
  }

  lemma CommasStep(texts: seq<Text>, i: nat)
    requires i < |texts|
    ensures Commas(texts[i..]) == if i + 1 < |texts| then texts[i] + [44] + Commas(texts[i + 1..]) else texts[i]
  {
    Signs();
    assert texts[i..][1..] == texts[i + 1..];
  }

  lemma FieldStep(comma: Text, name: Text, value: Text, rest: Text)
    ensures comma + name + [58] + value + ([44] + rest) == comma + (name + [58] + value + [44] + rest)
    ensures comma + name + [58] + value + [] == comma + (name + [58] + value)
  {
  }

  lemma {:induction false} InsertLength(keys: seq<Text>, k: Text)
    ensures |InsertKey(keys, k)| == |keys| + 1
  {
    hide KeyLess;
    if keys != [] { InsertLength(keys[1..], k); }
  }

  lemma {:induction false} SortedLength(fields: seq<Field>)
    ensures |SortedKeys(fields)| == |fields|
  {
    hide InsertKey;
    if fields != [] {
      SortedLength(fields[1..]);
      InsertLength(SortedKeys(fields[1..]), fields[0].key);
    }
  }

  lemma MembersList(v: Json)
    requires v.Obj? && Valid(v)
    ensures var keys := SortedKeys(v.fields);
            (forall j | 0 <= j < |keys| :: keys[j] in Keys(v.fields)) && Lists(MembersOf(v, keys), v.fields)
  {
    hide KeyLess, Print, Quote, Keys, SortedKeys;
    SortedKeysSort(v.fields);
    SortedLength(v.fields);
  }

  lemma FieldsWhole(v: Json, keys: seq<Text>)
    requires v.Obj? && Valid(v) && forall j | 0 <= j < |keys| :: keys[j] in Keys(v.fields)
    ensures Fields(v, keys, 0) == Commas(MemberTexts(MembersOf(v, keys)))
  {
    hide Keys, Print, Quote, Units;
    var texts := MemberTexts(MembersOf(v, keys));
    if |keys| > 0 {
      FieldsAreCommas(v, keys, 0);
      assert texts[0..] == texts;
    }
  }

  lemma Braces()
    ensures Units("{") == [123] && Units("}") == [125]
  {
  }

  lemma ObjectText(v: Json)
    requires v.Obj? && Valid(v)
    ensures var keys := SortedKeys(v.fields);
            && (forall j | 0 <= j < |keys| :: keys[j] in Keys(v.fields))
            && Print(v) == Units("{") + Commas(MemberTexts(MembersOf(v, keys))) + Units("}")
  {
    hide KeyLess, Keys, SortedKeys, Lists, Units, Commas, MemberTexts, Fields, Valid;
    Braces();
    MembersList(v);
    FieldsWhole(v, SortedKeys(v.fields));
  }

  lemma MembersRead(v: Json, keys: seq<Text>)
    requires v.Obj? && Valid(v) && forall j | 0 <= j < |keys| :: keys[j] in Keys(v.fields)
    requires forall i | 0 <= i < |v.fields| :: Denotes(Print(v.fields[i].value), v.fields[i].value)
    ensures forall m | m in MembersOf(v, keys) ::
              && m.field < |v.fields| && ReadsString(m.name, v.fields[m.field].key)
              && Denotes(m.value, v.fields[m.field].value)
  {
    hide Keys, Denotes, Print, ReadsString, Quote, Valid;
    forall m | m in MembersOf(v, keys)
      ensures m.field < |v.fields| && ReadsString(m.name, v.fields[m.field].key)
              && Denotes(m.value, v.fields[m.field].value)
    {
      var j :| 0 <= j < |keys| && m == MembersOf(v, keys)[j];
      QuoteReads(keys[j]);
    }
  }

  lemma Assembled(t: Text, v: Json, members: seq<Member>)
    requires v.Obj? && Lists(members, v.fields)
    requires t == Units("{") + Commas(MemberTexts(members)) + Units("}")
    requires forall m | m in members ::
               && m.field < |v.fields| && ReadsString(m.name, v.fields[m.field].key)
               && Denotes(m.value, v.fields[m.field].value)
    ensures Denotes(t, v)
  {
    hide Units, Commas, MemberTexts, ReadsString, KeyLess;
    forall i | 0 <= i < |members|
      ensures ReadsString(members[i].name, v.fields[members[i].field].key)
      ensures Denotes(members[i].value, v.fields[members[i].field].value)
    {
      assert members[i] in members;
    }
  }

  lemma ObjectDenotes(v: Json)
    requires v.Obj? && Valid(v)
    requires forall i | 0 <= i < |v.fields| :: Denotes(Print(v.fields[i].value), v.fields[i].value)
    ensures Denotes(Print(v), v)
  {
    hide Units, Commas, MemberTexts, ReadsString, Lists, Denotes, Print, SortedKeys, Keys;
    MembersList(v);
    ObjectText(v);
    MembersRead(v, SortedKeys(v.fields));
    Assembled(Print(v), v, MembersOf(v, SortedKeys(v.fields)));
  }

  /** A printed value denotes what it was printed from. */
  lemma {:induction false} PrintDenotes(v: Json)
    requires Valid(v) && Printable(v)
    ensures Denotes(Print(v), v)
    decreases v
  {
    match v {
      case Str(s) => QuoteReads(s);
      case Num(n) => NumberReads(n);
      case Arr(items) =>
        var parts := seq(|items|, i requires 0 <= i < |items| => Print(items[i]));
        forall i | 0 <= i < |items| ensures Denotes(parts[i], items[i]) { PrintDenotes(items[i]); }
        ArrayDenotes(v, parts);
      case Obj(fields) =>
        forall i | 0 <= i < |fields| ensures Denotes(Print(fields[i].value), fields[i].value) {
          PrintDenotes(fields[i].value);
        }
        ObjectDenotes(v);
      case Null => assert Units("null") == [110, 117, 108, 108];
      case Bool(b) =>
        assert Units("true") == [116, 114, 117, 101] && Units("false") == [102, 97, 108, 115, 101];
      case Unserializable =>
    }
  }

  /** The value itself, or one inside it. */
  ghost predicate Within(w: Json, v: Json)
    decreases v
  {
    || w == v
    || (v.Arr? && exists i | 0 <= i < |v.items| :: Within(w, v.items[i]))
    || (v.Obj? && exists i | 0 <= i < |v.fields| :: Within(w, v.fields[i].value))
  }

  predicate NoJson(w: Json) {
    w == Unserializable || w == Num(NotFinite)
  }

  lemma {:induction false} PrintableIff(v: Json)
    ensures Printable(v) <==> forall w | Within(w, v) :: !NoJson(w)
    decreases v
  {
    match v {
      case Arr(items) =>
        forall i | 0 <= i < |items| ensures Printable(items[i]) <==> forall w | Within(w, items[i]) :: !NoJson(w) {
          PrintableIff(items[i]);
        }
      case Obj(fields) =>
        forall i | 0 <= i < |fields|
          ensures Printable(fields[i].value) <==> forall w | Within(w, fields[i].value) :: !NoJson(w)
        {
          PrintableIff(fields[i].value);
        }
      case _ => assert Within(v, v);
    }
  }

  /** A value is refused exactly if it holds something JSON cannot say; otherwise its text denotes it. */
  lemma CanonicalMeans(v: Json)
    requires Valid(v)
    ensures Canonical(v).Err? <==> exists w :: Within(w, v) && NoJson(w)
    ensures Canonical(v).Ok? ==> Denotes(Canonical(v).value, v)
  {
    hide Valid, Printable, Denotes, Print, Within;
    PrintableIff(v);
    if Printable(v) { PrintDenotes(v); }
  }
}
