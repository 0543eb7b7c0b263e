/** The order of texts unit by unit, a proper prefix first, for any units that have distinct codes. */
module TextOrder {

  predicate Less<T(==)>(a: seq<T>, b: seq<T>, code: T -> int) {
    if b == [] then false
    else if a == [] then true
    else if a[0] != b[0] then code(a[0]) < code(b[0])
    else Less(a[1..], b[1..], code)
  }

  ghost predicate Injective<T(!new)>(code: T -> int) {
    forall x, y | code(x) == code(y) :: x == y
  }

  lemma {:induction false} LessTotal<T(!new)>(a: seq<T>, b: seq<T>, code: T -> int)
    requires Injective(code)
    ensures a == b || Less(a, b, code) || Less(b, a, code)
    ensures !(Less(a, b, code) && Less(b, a, code))
    ensures !Less(a, a, code)
  {
    if a != [] { LessTotal(a[1..], a[1..], code); }
    if a != [] && b != [] {
      LessTotal(a[1..], b[1..], code);
      assert a == [a[0]] + a[1..] && b == [b[0]] + b[1..];
    }
  }

  lemma {:induction false} LessTransitive<T(!new)>(a: seq<T>, b: seq<T>, c: seq<T>, code: T -> int)
    requires Less(a, b, code) && Less(b, c, code)
    ensures Less(a, c, code)
  {
    if a != [] && a[0] == b[0] == c[0] { LessTransitive(a[1..], b[1..], c[1..], code); }
  }

  /** `a` and `b` agree on their first `k` units, where `a` ends or has the smaller unit. */
  ghost predicate LessAt<T(!new)>(a: seq<T>, b: seq<T>, code: T -> int, k: nat) {
    && k <= |a| && k < |b| && a[..k] == b[..k]
    && (k == |a| || (a[k] != b[k] && code(a[k]) < code(b[k])))
  }

  lemma SameFirst<T>(a: seq<T>, b: seq<T>, k: nat)
    ensures 0 < k <= |a| && k <= |b| && a[..k] == b[..k] ==> a[0] == b[0]
  {
    assert 0 < k <= |a| ==> a[0] == a[..k][0];
    assert 0 < k <= |b| ==> b[0] == b[..k][0];
  }

  /** The order is decided at the first difference. */
  lemma {:induction false} LessMeans<T(!new)>(a: seq<T>, b: seq<T>, code: T -> int)
    ensures Less(a, b, code) <==> exists k: nat :: LessAt(a, b, code, k)
  {
    if a == [] || b == [] || a[0] != b[0] {
      if a == [] && b != [] { assert LessAt(a, b, code, 0); }
      if a != [] && b != [] && code(a[0]) < code(b[0]) { assert LessAt(a, b, code, 0); }
      forall k: nat | LessAt(a, b, code, k) ensures Less(a, b, code) {
        SameFirst(a, b, k);
      }
    } else {
      LessMeans(a[1..], b[1..], code);
      if Less(a, b, code) {
        var k: nat :| LessAt(a[1..], b[1..], code, k);
        assert a[..k + 1] == [a[0]] + a[1..][..k] && b[..k + 1] == [b[0]] + b[1..][..k];
        assert LessAt(a, b, code, k + 1);
      }
      forall k: nat | LessAt(a, b, code, k) ensures Less(a, b, code) {
        assert a[1..][..k - 1] == a[..k][1..] && b[1..][..k - 1] == b[..k][1..];
        assert LessAt(a[1..], b[1..], code, k - 1);
      }
    }
  }

  function CharCode(c: char): int {
    c as int
  }

  lemma CharCodeInjective()
    ensures Injective(CharCode)
  {
  }

  /** Order by character, as SQLite compares TEXT and script code compares dates. */
  predicate TextLess(a: string, b: string) {
    Less(a, b, CharCode)
  }

  lemma TextTotal(a: string, b: string)
    ensures a == b || TextLess(a, b) || TextLess(b, a)
    ensures !(TextLess(a, b) && TextLess(b, a))
    ensures !TextLess(a, a)
  {
    CharCodeInjective();
    LessTotal(a, b, CharCode);
  }

  lemma TextTransitive(a: string, b: string, c: string)
    requires TextLess(a, b) && TextLess(b, c)
    ensures TextLess(a, c)
  {
    LessTransitive(a, b, c, CharCode);
  }
}
