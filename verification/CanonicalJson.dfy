/** The canonical JSON text whose digest binds an approval to its arguments. */
module CanonicalJson {
  import opened Wrappers
  import opened JsonText
  import TextOrder

  /** A script value; the fields of an object stand in the order they were added. */
  datatype Json =
    | Null | Bool(b: bool) | Str(s: Text) | Num(n: Number)
    | Arr(items: seq<Json>) | Obj(fields: seq<Field>) | Unserializable

  datatype Field = Field(key: Text, value: Json)

  /** Values as the script engine can build them: no key twice in an object. */
  predicate Valid(v: Json) {
    match v
    case Num(n) => ValidNumber(n)
    case Arr(items) => forall i | 0 <= i < |items| :: Valid(items[i])
    case Obj(fields) =>
      && (forall i | 0 <= i < |fields| :: Valid(fields[i].value))
      && (forall i, j | 0 <= i < j < |fields| :: fields[i].key != fields[j].key)
    case _ => true
  }

  /** Values without a non-finite number or a value JSON has no form for. */
  predicate Printable(v: Json) {
    match v
    case Num(n) => !n.NotFinite?
    case Arr(items) => forall i | 0 <= i < |items| :: Printable(items[i])
    case Obj(fields) => forall i | 0 <= i < |fields| :: Printable(fields[i].value)
    case Unserializable => false
    case _ => true
  }

  // --------------------------------------------------------------------- sorting

  function UnitCode(u: Unit): int {
    u
  }

  /** Order by UTF-16 code units, as an array of strings is sorted by default. */
  predicate KeyLess(a: Text, b: Text) {
    TextOrder.Less(a, b, UnitCode)
  }

  function InsertKey(keys: seq<Text>, k: Text): seq<Text> {
    if keys == [] then [k]
    else if KeyLess(k, keys[0]) then [k] + keys
    else [keys[0]] + InsertKey(keys[1..], k)
  }

  function SortedKeys(fields: seq<Field>): seq<Text> {
    if fields == [] then [] else InsertKey(SortedKeys(fields[1..]), fields[0].key)
  }

  function Keys(fields: seq<Field>): set<Text> {
    set f | f in fields :: f.key
  }

  function IndexOf(fields: seq<Field>, k: Text): (i: nat)
    requires k in Keys(fields)
    ensures i < |fields| && fields[i].key == k
  {
    if fields[0].key == k then 0
    else
      assert k in Keys(fields[1..]) by {
        var f :| f in fields && f.key == k;
        assert f in fields[1..];
      }
      IndexOf(fields[1..], k) + 1
  }

  ghost predicate Ascending(keys: seq<Text>) {
    forall i, j | 0 <= i < j < |keys| :: KeyLess(keys[i], keys[j])
  }

  lemma KeyTotal(a: Text, b: Text)
    ensures a == b || KeyLess(a, b) || KeyLess(b, a)
    ensures !(KeyLess(a, b) && KeyLess(b, a))
    ensures !KeyLess(a, a)
  {
    TextOrder.LessTotal(a, b, UnitCode);
  }

  lemma KeyTransitive(a: Text, b: Text, c: Text)
    requires KeyLess(a, b) && KeyLess(b, c)
    ensures KeyLess(a, c)
  {
    TextOrder.LessTransitive(a, b, c, UnitCode);
  }

  lemma {:induction false} InsertKeeps(keys: seq<Text>, k: Text)
    ensures forall x :: x in InsertKey(keys, k) <==> x == k || x in keys
  {
    if keys != [] {
      assert keys == [keys[0]] + keys[1..];
      InsertKeeps(keys[1..], k);
    }
  }

  lemma {:induction false} InsertAscends(keys: seq<Text>, k: Text)
    requires Ascending(keys) && k !in keys
    ensures Ascending(InsertKey(keys, k))
  {
    hide KeyLess;
    if keys != [] {
      var tail := keys[1..];
      if KeyLess(k, keys[0]) {
        forall i | 0 < i < |keys| ensures KeyLess(k, keys[i]) {
          KeyTransitive(k, keys[0], keys[i]);
        }
      } else {
        InsertAscends(tail, k);
        InsertKeeps(tail, k);
        KeyTotal(k, keys[0]);
        var rest := InsertKey(tail, k);
        assert InsertKey(keys, k) == [keys[0]] + rest;
        hide InsertKey;
        forall i | 0 <= i < |rest| ensures KeyLess(keys[0], rest[i]) {
          assert rest[i] in rest;
          if rest[i] in tail {
            var j :| 0 <= j < |tail| && tail[j] == rest[i];
            assert keys[j + 1] == rest[i];
          }
        }
      }
    }
  }

  ghost predicate DistinctKeys(fields: seq<Field>) {
    forall i, j | 0 <= i < j < |fields| :: fields[i].key != fields[j].key
  }

  lemma {:induction false} SortedKeysSort(fields: seq<Field>)
    requires DistinctKeys(fields)
    ensures Ascending(SortedKeys(fields))
    ensures forall k :: k in SortedKeys(fields) <==> k in Keys(fields)
  {
    hide InsertKey, KeyLess;
    if fields != [] {
      var tail := fields[1..];
      SortedKeysSort(tail);
      InsertKeeps(SortedKeys(tail), fields[0].key);
      KeysStep(fields);
      assert fields[0].key !in Keys(tail);
      InsertAscends(SortedKeys(tail), fields[0].key);
    }
  }

  lemma KeysStep(fields: seq<Field>)
    requires fields != []
    ensures forall k :: k in Keys(fields) <==> k == fields[0].key || k in Keys(fields[1..])
    ensures DistinctKeys(fields) ==> fields[0].key !in Keys(fields[1..])
  {
    assert fields == [fields[0]] + fields[1..];
  }

  /** A set of keys has only one ascending listing. */
  lemma {:induction false} AscendingUnique(xs: seq<Text>, ys: seq<Text>)
    requires Ascending(xs) && Ascending(ys) && forall k :: k in xs <==> k in ys
    ensures xs == ys
  {
    hide KeyLess;
    assert ys != [] ==> ys[0] in xs;
    if xs != [] {
      assert xs[0] in ys;
      SameFirst(xs, ys);
      forall k ensures k in xs[1..] <==> k in ys[1..] {
        TailMember(xs, k);
        TailMember(ys, k);
      }
      AscendingUnique(xs[1..], ys[1..]);
      assert xs == [xs[0]] + xs[1..] && ys == [ys[0]] + ys[1..];
    }
  }

  lemma SameFirst(xs: seq<Text>, ys: seq<Text>)
    requires Ascending(xs) && Ascending(ys) && xs != [] && ys != [] && xs[0] in ys && ys[0] in xs
    ensures xs[0] == ys[0]
  {
    hide KeyLess;
    var i :| 0 <= i < |ys| && ys[i] == xs[0];
    var j :| 0 <= j < |xs| && xs[j] == ys[0];
    KeyTotal(xs[0], ys[0]);
  }

  lemma TailMember(xs: seq<Text>, k: Text)
    requires Ascending(xs) && xs != []
    ensures k in xs[1..] <==> k in xs && k != xs[0]
  {
    hide KeyLess;
    KeyTotal(xs[0], xs[0]);
    assert xs == [xs[0]] + xs[1..];
  }

  // -------------------------------------------------------------------- printing

  function Print(v: Json): Text
    requires Valid(v)
    decreases v, 1, 0
  {
    match v
    case Null => [110, 117, 108, 108]
    case Bool(b) => if b then [116, 114, 117, 101] else [102, 97, 108, 115, 101]
    case Str(s) => Quote(s)
    case Num(n) => NumberText(n)
    case Arr(_) => [91] + Items(v, 0) + [93]
    case Obj(fields) =>
      SortedKeysSort(fields);
      [123] + Fields(v, SortedKeys(fields), 0) + [125]
    case Unserializable => []
  }

  function Comma(i: nat): Text {
    if i == 0 then [] else [44]
  }

  function Items(v: Json, i: nat): Text
    requires v.Arr? && Valid(v) && i <= |v.items|
    decreases v, 0, |v.items| - i
  {
    if i == |v.items| then [] else Comma(i) + Print(v.items[i]) + Items(v, i + 1)
  }

  function Fields(v: Json, keys: seq<Text>, i: nat): Text
    requires v.Obj? && Valid(v) && i <= |keys| && forall j | 0 <= j < |keys| :: keys[j] in Keys(v.fields)
    decreases v, 0, |keys| - i
  {
    if i == |keys| then []
    else
      var value := v.fields[IndexOf(v.fields, keys[i])].value;
      Comma(i) + Quote(keys[i]) + [58] + Print(value) + Fields(v, keys, i + 1)
  }

  function Canonical(v: Json): Result<Text>
    requires Valid(v)
  {
    if Printable(v) then Ok(Print(v)) else Err("approval-mismatch")
  }

  // ----------------------------------------------------------------- equality

  /** Equal up to the order of object keys and the sign of zero. */
  ghost predicate Same(a: Json, b: Json) {
    match a
    case Num(n) => b.Num? && SameNumber(n, b.n)
    case Arr(items) =>
      b.Arr? && |items| == |b.items| && forall i | 0 <= i < |items| :: Same(items[i], b.items[i])
    case Obj(fields) =>
      && b.Obj? && Keys(fields) == Keys(b.fields)
      && forall i, j | 0 <= i < |fields| && 0 <= j < |b.fields| && fields[i].key == b.fields[j].key ::
           Same(fields[i].value, b.fields[j].value)
    case _ => a == b
  }

  /** What may follow a value: nothing, a comma or a closing bracket. */
  predicate Delimited(t: Text) {
    t == [] || t[0] == 44 || t[0] == 93 || t[0] == 125
  }

  predicate StartsLike(v: Json, u: Unit) {
    match v
    case Null => u == 110
    case Bool(b) => u == if b then 116 else 102
    case Str(_) => u == 34
    case Num(_) => u == 45 || 48 <= u < 58
    case Arr(_) => u == 91
    case Obj(_) => u == 123
    case Unserializable => false
  }

  lemma FirstUnit(v: Json)
    requires Valid(v) && Printable(v)
    ensures Print(v) != [] && StartsLike(v, Print(v)[0])
  {
    hide Items, Fields, NumberText;
    if v.Num? { NumberUnits(v.n); }
  }

  lemma NumberEnds(a: Number, x: Text, b: Number, y: Text)
    requires ValidNumber(a) && ValidNumber(b) && !a.NotFinite? && !b.NotFinite?
    requires NumberText(a) + x == NumberText(b) + y && Delimited(x) && Delimited(y)
    ensures SameNumber(a, b) && x == y
  {
    hide NumberText;
    NumberUnits(a);
    NumberUnits(b);
    RunUnique(NumberText(a), x, NumberText(b), y);
    NumberUnique(a, b);
  }

  lemma RunUnique(p: Text, x: Text, q: Text, y: Text)
    requires p + x == q + y && Delimited(x) && Delimited(y)
    requires (forall u | u in p :: NumberUnit(u)) && (forall u | u in q :: NumberUnit(u))
    ensures p == q && x == y
  {
    var l, r := p + x, q + y;
    assert |p| < |q| ==> r[|p|] == q[|p|] && l[|p|] == x[0] && NumberUnit(q[|p|]);
    assert |q| < |p| ==> l[|q|] == p[|q|] && r[|q|] == y[0] && NumberUnit(p[|q|]);
    assert p == l[..|p|] && q == r[..|q|] && x == l[|p|..] && y == r[|q|..];
  }

  lemma ItemsRest(v: Json, i: nat, x: Text)
    requires v.Arr? && Valid(v) && Printable(v) && i <= |v.items|
    ensures var t := Items(v, i) + [93] + x;
            (t[0] == 93 <==> i == |v.items|) && (i > 0 ==> Delimited(t))
  {
    var t := Items(v, i) + [93] + x;
    if i < |v.items| {
      FirstUnit(v.items[i]);
      hide Print;
      assert t[0] == if i == 0 then Print(v.items[i])[0] else 44;
    }
  }

  lemma FieldsRest(v: Json, keys: seq<Text>, i: nat, x: Text)
    requires v.Obj? && Valid(v) && i <= |keys| && forall j | 0 <= j < |keys| :: keys[j] in Keys(v.fields)
    ensures var t := Fields(v, keys, i) + [125] + x;
            (t[0] == 125 <==> i == |keys|) && (i > 0 ==> Delimited(t))
  {
    hide Print, Keys, Body;
    var t := Fields(v, keys, i) + [125] + x;
    if i < |keys| {
      assert t[0] == if i == 0 then 34 else 44;
    }
  }

  lemma Cancel(p: Text, x: Text, y: Text)
    requires p + x == p + y
    ensures x == y
  {
    assert x == (p + x)[|p|..] && y == (p + y)[|p|..];
  }

  predicate SameKind(a: Json, b: Json) {
    match a
    case Null => b.Null?
    case Bool(v) => b == Bool(v)
    case Str(_) => b.Str?
    case Num(_) => b.Num?
    case Arr(_) => b.Arr?
    case Obj(_) => b.Obj?
    case Unserializable => b.Unserializable?
  }

  lemma KindShows(a: Json, x: Text, b: Json, y: Text)
    requires Valid(a) && Valid(b) && Printable(a) && Printable(b) && Print(a) + x == Print(b) + y
    ensures SameKind(a, b)
  {
    hide Print;
    FirstUnit(a);
    FirstUnit(b);
    assert (Print(a) + x)[0] == Print(a)[0] && (Print(b) + y)[0] == Print(b)[0];
  }

  /** Texts that start with the same value's text: the value can be read off, and what follows it. */
  lemma {:induction false} PrintUnique(a: Json, x: Text, b: Json, y: Text)
    requires Valid(a) && Valid(b) && Printable(a) && Printable(b)
    requires Print(a) + x == Print(b) + y && Delimited(x) && Delimited(y)
    ensures Same(a, b) && x == y
    decreases a, 2, 0
  {
    hide Items, Fields, NumberText, Quote, SortedKeys, Delimited;
    KindShows(a, x, b, y);
    match a {
      case Num(n) => NumberEnds(n, x, b.n, y);
      case Str(s) => QuoteUnique(s, x, b.s, y);
      case Arr(_) =>
        hide Print;
        ArrayUnique(a, x, b, y);
      case Obj(_) =>
        hide Print;
        ObjectUnique(a, x, b, y);
      case Null => Cancel(Print(a), x, y);
      case Bool(_) => Cancel(Print(a), x, y);
      case Unserializable =>
    }
  }

  lemma {:induction false} ArrayUnique(a: Json, x: Text, b: Json, y: Text)
    requires a.Arr? && b.Arr? && Valid(a) && Valid(b) && Printable(a) && Printable(b)
    requires Print(a) + x == Print(b) + y && Delimited(x) && Delimited(y)
    ensures Same(a, b) && x == y
    decreases a, 1, 0
  {
    hide Items, Print, Delimited;
    ArrayText(a, x);
    ArrayText(b, y);
    Cancel([91], Items(a, 0) + [93] + x, Items(b, 0) + [93] + y);
    ItemsUnique(a, x, b, y, 0);
  }

  lemma {:induction false} ObjectUnique(a: Json, x: Text, b: Json, y: Text)
    requires a.Obj? && b.Obj? && Valid(a) && Valid(b) && Printable(a) && Printable(b)
    requires Print(a) + x == Print(b) + y && Delimited(x) && Delimited(y)
    ensures Same(a, b) && x == y
    decreases a, 1, 0
  {
    hide Fields, Print, Delimited, SortedKeys, Same, Keys;
    SortedKeysSort(a.fields);
    SortedKeysSort(b.fields);
    ObjectText(a, x);
    ObjectText(b, y);
    var ks, ls := SortedKeys(a.fields), SortedKeys(b.fields);
    Cancel([123], Fields(a, ks, 0) + [125] + x, Fields(b, ls, 0) + [125] + y);
    FieldsUnique(a, ks, x, b, ls, y, 0);
    assert ks == ls;
    ObjectsSame(a, b, ks);
  }

  lemma ArrayText(v: Json, x: Text)
    requires v.Arr? && Valid(v)
    ensures Print(v) + x == [91] + (Items(v, 0) + [93] + x)
  {
    hide Items;
  }

  lemma ObjectText(v: Json, x: Text)
    requires v.Obj? && Valid(v)
    requires forall k :: k in SortedKeys(v.fields) <==> k in Keys(v.fields)
    ensures Print(v) + x == [123] + (Fields(v, SortedKeys(v.fields), 0) + [125] + x)
  {
    hide Fields, SortedKeys, Keys;
  }

  lemma {:induction false} ItemsUnique(a: Json, x: Text, b: Json, y: Text, i: nat)
    requires a.Arr? && b.Arr? && Valid(a) && Valid(b) && Printable(a) && Printable(b)
    requires i <= |a.items| && i <= |b.items| && Delimited(x) && Delimited(y)
    requires Items(a, i) + [93] + x == Items(b, i) + [93] + y
    ensures |a.items| == |b.items| && x == y
    ensures forall j | i <= j < |a.items| :: Same(a.items[j], b.items[j])
    decreases a, 0, |a.items| - i
  {
    hide Print, Same, Delimited, Items, Comma;
    ItemsRest(a, i, x);
    ItemsRest(b, i, y);
    if i == |a.items| {
      NoItems(a, x);
      NoItems(b, y);
      Cancel([93], x, y);
    } else {
      var p, q := Items(a, i + 1) + [93] + x, Items(b, i + 1) + [93] + y;
      ItemsRest(a, i + 1, x);
      ItemsRest(b, i + 1, y);
      ItemText(a, x, i);
      ItemText(b, y, i);
      Cancel(Comma(i), Print(a.items[i]) + p, Print(b.items[i]) + q);
      PrintUnique(a.items[i], p, b.items[i], q);
      ItemsUnique(a, x, b, y, i + 1);
    }
  }

  lemma NoItems(v: Json, x: Text)
    requires v.Arr? && Valid(v)
    ensures Items(v, |v.items|) + [93] + x == [93] + x
  {
    assert [] + [93] + x == [93] + x;
  }

  lemma ItemText(v: Json, x: Text, i: nat)
    requires v.Arr? && Valid(v) && i < |v.items|
    ensures Items(v, i) + [93] + x == Comma(i) + (Print(v.items[i]) + (Items(v, i + 1) + [93] + x))
  {
    hide Print, Comma;
    Regroup(Comma(i), Print(v.items[i]), Items(v, i + 1), [93], x);
  }

  lemma Regroup(a: Text, b: Text, c: Text, d: Text, x: Text)
    ensures a + b + c + d + x == a + (b + (c + d + x))
  {
  }

  ghost predicate SameAt(a: Json, b: Json, k: Text)
    requires a.Obj? && b.Obj?
  {
    k in Keys(a.fields) && k in Keys(b.fields)
    && Same(a.fields[IndexOf(a.fields, k)].value, b.fields[IndexOf(b.fields, k)].value)
  }

  lemma {:induction false} FieldsUnique(a: Json, ks: seq<Text>, x: Text, b: Json, ls: seq<Text>, y: Text, i: nat)
    requires a.Obj? && b.Obj? && Valid(a) && Valid(b) && Printable(a) && Printable(b)
    requires forall j | 0 <= j < |ks| :: ks[j] in Keys(a.fields)
    requires forall j | 0 <= j < |ls| :: ls[j] in Keys(b.fields)
    requires i <= |ks| && i <= |ls| && Delimited(x) && Delimited(y)
    requires Fields(a, ks, i) + [125] + x == Fields(b, ls, i) + [125] + y
    ensures |ks| == |ls| && x == y
    ensures forall j | i <= j < |ks| :: ks[j] == ls[j] && SameAt(a, b, ks[j])
    decreases a, 0, |ks| - i
  {
    hide Print, Keys, Quote, Same, Fields, Delimited, Comma;
    FieldsRest(a, ks, i, x);
    FieldsRest(b, ls, i, y);
    if i == |ks| {
      NoFields(a, ks, x);
      NoFields(b, ls, y);
      Cancel([125], x, y);
    } else {
      FirstField(a, ks, x, b, ls, y, i);
      var v, w := a.fields[IndexOf(a.fields, ks[i])].value, b.fields[IndexOf(b.fields, ls[i])].value;
      FieldsRest(a, ks, i + 1, x);
      FieldsRest(b, ls, i + 1, y);
      PrintUnique(v, Fields(a, ks, i + 1) + [125] + x, w, Fields(b, ls, i + 1) + [125] + y);
      FieldsUnique(a, ks, x, b, ls, y, i + 1);
    }
  }

  lemma NoFields(v: Json, keys: seq<Text>, x: Text)
    requires v.Obj? && Valid(v) && forall j | 0 <= j < |keys| :: keys[j] in Keys(v.fields)
    ensures Fields(v, keys, |keys|) + [125] + x == [125] + x
  {
    assert [] + [125] + x == [125] + x;
  }

  lemma FirstField(a: Json, ks: seq<Text>, x: Text, b: Json, ls: seq<Text>, y: Text, i: nat)
    requires a.Obj? && b.Obj? && Valid(a) && Valid(b) && i < |ks| && i < |ls|
    requires forall j | 0 <= j < |ks| :: ks[j] in Keys(a.fields)
    requires forall j | 0 <= j < |ls| :: ls[j] in Keys(b.fields)
    requires Fields(a, ks, i) + [125] + x == Fields(b, ls, i) + [125] + y
    ensures ks[i] == ls[i]
    ensures Print(a.fields[IndexOf(a.fields, ks[i])].value) + (Fields(a, ks, i + 1) + [125] + x)
            == Print(b.fields[IndexOf(b.fields, ls[i])].value) + (Fields(b, ls, i + 1) + [125] + y)
  {
    hide Print, Keys, Quote, Fields, Comma;
    var v, w := a.fields[IndexOf(a.fields, ks[i])].value, b.fields[IndexOf(b.fields, ls[i])].value;
    var p, q := Fields(a, ks, i + 1) + [125] + x, Fields(b, ls, i + 1) + [125] + y;
    FieldText(a, ks, x, i);
    FieldText(b, ls, y, i);
    var vp, wq := [58] + (Print(v) + p), [58] + (Print(w) + q);
    Cancel(Comma(i), Quote(ks[i]) + vp, Quote(ls[i]) + wq);
    QuoteUnique(ks[i], vp, ls[i], wq);
    Cancel([58], Print(v) + p, Print(w) + q);
  }

  lemma FieldText(v: Json, keys: seq<Text>, x: Text, i: nat)
    requires v.Obj? && Valid(v) && i < |keys| && forall j | 0 <= j < |keys| :: keys[j] in Keys(v.fields)
    ensures var value := v.fields[IndexOf(v.fields, keys[i])].value;
            Fields(v, keys, i) + [125] + x
            == Comma(i) + (Quote(keys[i]) + ([58] + (Print(value) + (Fields(v, keys, i + 1) + [125] + x))))
  {
    hide Print, Keys, Quote, Comma;
    var text := Print(v.fields[IndexOf(v.fields, keys[i])].value);
    Regroup(Comma(i) + Quote(keys[i]) + [58], text, Fields(v, keys, i + 1), [125], x);
    Regroup(Comma(i), Quote(keys[i]), [58], [], text + (Fields(v, keys, i + 1) + [125] + x));
  }

  lemma ObjectsSame(a: Json, b: Json, ks: seq<Text>)
    requires a.Obj? && b.Obj? && Valid(a) && Valid(b)
    requires (forall k :: k in ks <==> k in Keys(a.fields)) && (forall k :: k in ks <==> k in Keys(b.fields))
    requires forall j | 0 <= j < |ks| :: SameAt(a, b, ks[j])
    ensures Same(a, b)
  {
    forall i, j | 0 <= i < |a.fields| && 0 <= j < |b.fields| && a.fields[i].key == b.fields[j].key
      ensures Same(a.fields[i].value, b.fields[j].value)
    {
      var k := a.fields[i].key;
      assert k in Keys(a.fields) && k in ks;
      var n :| 0 <= n < |ks| && ks[n] == k;
      assert SameAt(a, b, ks[n]);
      OneIndex(a.fields, i);
      OneIndex(b.fields, j);
    }
  }

  lemma OneIndex(fields: seq<Field>, i: nat)
    requires i < |fields| && DistinctKeys(fields)
    ensures fields[i].key in Keys(fields) && IndexOf(fields, fields[i].key) == i
  {
    assert fields[i] in fields;
    var n := IndexOf(fields, fields[i].key);
    assert n == i;
  }

  /** Values equal up to key order have the same text. */
  lemma {:induction false} SamePrints(a: Json, b: Json)
    requires Valid(a) && Valid(b) && Printable(a) && Printable(b) && Same(a, b)
    ensures Print(a) == Print(b)
    decreases a, 1, 0
  {
    match a {
      case Num(n) => NumberUnique(n, b.n);
      case Arr(items) => SameItems(a, b, 0);
      case Obj(fields) =>
        SortedKeysSort(fields);
        SortedKeysSort(b.fields);
        AscendingUnique(SortedKeys(fields), SortedKeys(b.fields));
        SameFields(a, b, SortedKeys(fields), 0);
      case _ =>
    }
  }

  lemma {:induction false} SameItems(a: Json, b: Json, i: nat)
    requires a.Arr? && Valid(a) && Valid(b) && Printable(a) && Printable(b) && Same(a, b) && i <= |a.items|
    ensures Items(a, i) == Items(b, i)
    decreases a, 0, |a.items| - i
  {
    hide Print;
    if i < |a.items| {
      SamePrints(a.items[i], b.items[i]);
      SameItems(a, b, i + 1);
    }
  }

  lemma {:induction false} SameFields(a: Json, b: Json, ks: seq<Text>, i: nat)
    requires a.Obj? && Valid(a) && Valid(b) && Printable(a) && Printable(b) && Same(a, b) && i <= |ks|
    requires forall j | 0 <= j < |ks| :: ks[j] in Keys(a.fields)
    ensures Fields(a, ks, i) == Fields(b, ks, i)
    decreases a, 0, |ks| - i
  {
    hide Print, Keys, Quote;
    if i < |ks| {
      SamePrints(a.fields[IndexOf(a.fields, ks[i])].value, b.fields[IndexOf(b.fields, ks[i])].value);
      SameFields(a, b, ks, i + 1);
    }
  }

  /** Two values get the same canonical text exactly when they are equal up to key order. */
  lemma CanonicalIff(a: Json, b: Json)
    requires Valid(a) && Valid(b)
    ensures Canonical(a).Ok? && Canonical(b).Ok? ==>
              (Canonical(a) == Canonical(b) <==> Same(a, b))
  {
    hide Print, Same, Valid, Printable;
    if Printable(a) && Printable(b) {
      if Print(a) == Print(b) {
        assert Print(a) + [] == Print(b) + [];
        PrintUnique(a, [], b, []);
      }
      if Same(a, b) { SamePrints(a, b); }
    }
  }

  /** No text has a surrogate outside a pair, so its UTF-8 bytes determine it. */
  lemma {:induction false} PrintPaired(v: Json)
    requires Valid(v) && Printable(v)
    ensures WellPaired(Print(v))
    decreases v, 1, 0
  {
    hide WellPaired, Quote, NumberText, Items, Fields, SortedKeys;
    match v {
      case Str(s) => QuotePaired(s);
      case Num(n) =>
        NumberUnits(n);
        assert forall i | 0 <= i < |NumberText(n)| :: NumberText(n)[i] in NumberText(n);
        PlainPaired(NumberText(n));
      case Arr(items) =>
        ItemsPaired(v, 0);
        Bracketed(91, Items(v, 0), 93);
      case Obj(fields) =>
        SortedKeysSort(fields);
        FieldsPaired(v, SortedKeys(fields), 0);
        Bracketed(123, Fields(v, SortedKeys(fields), 0), 125);
      case Null => PlainPaired(Print(v));
      case Bool(_) => PlainPaired(Print(v));
      case Unserializable =>
    }
  }

  lemma Bracketed(open: Unit, t: Text, close: Unit)
    requires WellPaired(t) && open < 0xD800 && close < 0xD800
    ensures WellPaired([open] + t + [close])
  {
    PlainPaired([open]);
    PlainPaired([close]);
    PairedAppend([open], t);
    PairedAppend([open] + t, [close]);
  }

  lemma {:induction false} ItemsPaired(v: Json, i: nat)
    requires v.Arr? && Valid(v) && Printable(v) && i <= |v.items|
    ensures WellPaired(Items(v, i))
    decreases v, 0, |v.items| - i
  {
    hide Print;
    if i < |v.items| {
      PrintPaired(v.items[i]);
      ItemsPaired(v, i + 1);
      PlainPaired(Comma(i));
      PairedAppend(Comma(i), Print(v.items[i]));
      PairedAppend(Comma(i) + Print(v.items[i]), Items(v, i + 1));
    }
  }

  lemma {:induction false} FieldsPaired(v: Json, keys: seq<Text>, i: nat)
    requires v.Obj? && Valid(v) && Printable(v)
    requires i <= |keys| && forall j | 0 <= j < |keys| :: keys[j] in Keys(v.fields)
    ensures WellPaired(Fields(v, keys, i))
    decreases v, 0, |keys| - i
  {
    hide Print, Keys, Quote;
    if i < |keys| {
      var value := v.fields[IndexOf(v.fields, keys[i])].value;
      PrintPaired(value);
      QuotePaired(keys[i]);
      FieldsPaired(v, keys, i + 1);
      var a := Comma(i) + Quote(keys[i]);
      var b := a + [58];
      PlainPaired(Comma(i));
      PlainPaired([58]);
      PairedAppend(Comma(i), Quote(keys[i]));
      PairedAppend(a, [58]);
      PairedAppend(b, Print(value));
      PairedAppend(b + Print(value), Fields(v, keys, i + 1));
    }
  }
}
