/** What the reader accepts, said of the bytes themselves: header fields, safe paths, metadata and the whole archive. */
module TarMeaning {
  import opened Wrappers
  import opened Utf8
  import opened TarArchive
  import opened TarTiling
  import opened TarEncoding

  /** Printable text as code points, so that names can be written as they are read. */
  function Chars(s: string): Text {
    seq(|s|, i requires 0 <= i < |s| => s[i] as int)
  }

  // ----------------------------------------------------------------------- paths

  /** A longest stretch without a slash. */
  predicate Stretch(t: Text, i: int, j: int) {
    && 0 <= i <= j <= |t| && (i == 0 || t[i - 1] == 47) && (j == |t| || t[j] == 47)
    && forall k | i <= k < j :: t[k] != 47
  }

  /** No stretch between slashes or ends is empty, "." or "..". */
  ghost predicate Named(t: Text) {
    forall i, j | Stretch(t, i, j) :: t[i..j] != [] && t[i..j] != [46] && t[i..j] != [46, 46]
  }

  /** No control character and no backslash. */
  predicate Clean(t: Text) {
    forall k | 0 <= k < |t| :: t[k] >= 0x20 && t[k] != 0x7F && t[k] != 92
  }

  predicate Under(t: Text, bundle: Text) {
    t == bundle || bundle + [47] <= t
  }

  /** The same path but for slashes at the end. */
  predicate Trailed(path: Text, p: Text) {
    p <= path && forall k | |p| <= k < |path| :: path[k] == 47
  }

  ghost predicate Safe(p: Text, bundle: Text) {
    47 !in bundle && Under(p, bundle) && Named(p) && Clean(p) && |Encode(p)| <= 4096
  }

  /** How one character more changes the parts. */
  lemma SplitStep(t: Text)
    requires t != []
    ensures var parts, rest := Split(t), Split(t[1..]);
            && |parts| == (if t[0] == 47 then |rest| + 1 else |rest|)
            && parts[0] == (if t[0] == 47 then [] else [t[0]] + rest[0])
            && forall m | 0 < m < |parts| :: parts[m] == rest[if t[0] == 47 then m - 1 else m]
  {
  }

  /** A stretch behind the first character, seen from before it. */
  lemma OneFurther(t: Text, a: int, b: int)
    requires t != [] && Stretch(t[1..], a, b)
    ensures t[a + 1..b + 1] == t[1..][a..b] && (a > 0 || t[0] == 47 ==> Stretch(t, a + 1, b + 1))
    ensures a == 0 && t[0] != 47 ==> Stretch(t, 0, b + 1) && t[0..b + 1] == [t[0]] + t[1..][0..b]
  {
    var rest := t[1..];
    assert forall k | 0 <= k < |rest| :: rest[k] == t[k + 1];
  }

  /** And a stretch without its first character. */
  lemma OneNearer(t: Text, i: int, j: int)
    requires Stretch(t, i, j) && j > 0
    ensures i > 0 ==> Stretch(t[1..], i - 1, j - 1) && t[i..j] == t[1..][i - 1..j - 1] && (i == 1 ==> t[0] == 47)
    ensures i == 0 ==> Stretch(t[1..], 0, j - 1) && t[0..j] == [t[0]] + t[1..][0..j - 1] && t[0] != 47
  {
    var rest := t[1..];
    assert forall k | 0 <= k < |rest| :: rest[k] == t[k + 1];
  }

  lemma {:induction false} PartIsStretch(t: Text, m: nat) returns (i: int, j: int)
    requires m < |Split(t)|
    ensures Stretch(t, i, j) && t[i..j] == Split(t)[m] && (m == 0 <==> i == 0)
  {
    if t == [] {
      i, j := 0, 0;
    } else {
      SplitStep(t);
      hide Split;
      if t[0] == 47 && m == 0 {
        i, j := 0, 0;
      } else {
        var a, b := PartIsStretch(t[1..], if t[0] == 47 then m - 1 else m);
        OneFurther(t, a, b);
        hide Stretch;
        i, j := if m == 0 then 0 else a + 1, b + 1;
      }
    }
  }

  lemma {:induction false} StretchIsPart(t: Text, i: int, j: int) returns (m: nat)
    requires Stretch(t, i, j)
    ensures m < |Split(t)| && Split(t)[m] == t[i..j] && (i == 0 <==> m == 0)
  {
    m := 0;
    if t != [] {
      SplitStep(t);
      hide Split;
      if j > 0 {
        OneNearer(t, i, j);
        var k := StretchIsPart(t[1..], if i == 0 then 0 else i - 1, j - 1);
        hide Stretch;
        m := if t[0] == 47 then k + 1 else k;
      }
    }
  }

  predicate NoControl(t: Text) {
    forall k | 0 <= k < |t| :: t[k] >= 0x20 && t[k] != 0x7F
  }

  ghost predicate AllSafe(parts: seq<Text>) {
    forall m | 0 <= m < |parts| :: SafeComponent(parts[m])
  }

  lemma SafePartsNamed(t: Text)
    requires AllSafe(Split(t))
    ensures Named(t) && NoControl(t)
  {
    hide Split;
    var parts := Split(t);
    forall i, j | Stretch(t, i, j) ensures t[i..j] != [] && t[i..j] != [46] && t[i..j] != [46, 46] {
      var m := StretchIsPart(t, i, j);
      assert SafeComponent(parts[m]);
    }
    forall k | 0 <= k < |t| ensures t[k] >= 0x20 && t[k] != 0x7F {
      if t[k] != 47 {
        SplitHolds(t, t[k]);
        var m :| 0 <= m < |parts| && t[k] in parts[m];
        assert SafeComponent(parts[m]);
      }
    }
  }

  lemma NamedPartsSafe(t: Text)
    requires Named(t) && NoControl(t)
    ensures AllSafe(Split(t))
  {
    hide Split;
    var parts := Split(t);
    forall m | 0 <= m < |parts| ensures SafeComponent(parts[m]) {
      var i, j := PartIsStretch(t, m);
      assert Stretch(t, i, j);
      assert forall k | 0 <= k < |parts[m]| :: parts[m][k] == t[i + k];
    }
  }

  /** Every part is a name exactly when every stretch is; a control character can only be inside one. */
  lemma PartsSafe(t: Text)
    ensures AllSafe(Split(t)) <==> Named(t) && NoControl(t)
  {
    hide Split, AllSafe, NoControl, Named;
    if AllSafe(Split(t)) { SafePartsNamed(t); }
    if Named(t) && NoControl(t) { NamedPartsSafe(t); }
  }

  lemma FirstIsBundle(t: Text, bundle: Text)
    ensures Split(t)[0] == bundle <==> 47 !in bundle && Under(t, bundle)
  {
    var n := |bundle|;
    if Split(t)[0] == bundle {
      var i, j := PartIsStretch(t, 0);
      assert t[..j] == bundle && forall k | 0 <= k < n :: bundle[k] == t[k];
      assert j < |t| ==> t[..j + 1] == bundle + [47];
    }
    if 47 !in bundle && Under(t, bundle) {
      assert t != bundle ==> t[..n + 1] == bundle + [47];
      assert forall k | 0 <= k < n :: t[k] == (bundle + [47])[k] == bundle[k];
      assert t != bundle ==> t[n] == (bundle + [47])[n];
      var m := StretchIsPart(t, 0, n);
      assert t[0..n] == bundle;
    }
  }

  lemma {:induction false} StripMeans(path: Text)
    ensures Trailed(path, StripSlashes(path))
    ensures var p := StripSlashes(path); p == [] || p[|p| - 1] != 47
  {
    if path != [] && path[|path| - 1] == 47 { StripMeans(path[..|path| - 1]); }
  }

  lemma StripUnique(path: Text, p: Text)
    requires Trailed(path, p) && (p == [] || p[|p| - 1] != 47)
    ensures StripSlashes(path) == p
  {
    StripMeans(path);
    var q := StripSlashes(path);
    assert q == path[..|q|] && p == path[..|p|];
  }

  lemma NamedEnds(t: Text)
    requires Named(t)
    ensures t != [] && t[0] != 47 && t[|t| - 1] != 47
  {
    if t == [] {
      assert Stretch(t, 0, 0);
    } else {
      assert t[0] == 47 ==> Stretch(t, 0, 0);
      assert t[|t| - 1] == 47 ==> Stretch(t, |t|, |t|);
    }
  }

  /** A path is accepted exactly when, without slashes at its end, it is a safe one; and then it is read as that. */
  lemma PathExact(path: Text, bundle: Text, p: Text)
    ensures ValidatePath(path, bundle) == Ok(p) <==> Trailed(path, p) && Safe(p, bundle)
  {
    hide Split, SafeComponent, Encode, StripSlashes, Named;
    var stripped := StripSlashes(path);
    StripMeans(path);
    PartsSafe(stripped);
    FirstIsBundle(stripped, bundle);
    if ValidatePath(path, bundle) == Ok(p) {
      forall k | 0 <= k < |p| ensures p[k] != 92 {
        assert p[k] == path[k] && path[k] in path;
      }
    }
    if Trailed(path, p) && Safe(p, bundle) {
      NamedEnds(p);
      StripUnique(path, p);
      forall c | c in path ensures c == 47 || (c >= 0x20 && c != 92) {
        var k :| 0 <= k < |path| && path[k] == c;
        assert k < |p| ==> p[k] == path[k];
      }
      assert p[0] == path[0];
    }
  }

  // ----------------------------------------------------------------------- depth

  function NextSlash(t: Text): (k: nat)
    ensures k <= |t| && (k < |t| ==> t[k] == 47) && forall i | 0 <= i < k :: t[i] != 47
  {
    if t == [] || t[0] == 47 then 0 else 1 + NextSlash(t[1..])
  }

  /** How a component moves from directory to directory. */
  function Move(component: Text): int {
    if component == [46, 46] then -1 else if component == [] || component == [46] then 0 else 1
  }

  /** The depth below the starting directory after each component of a path. */
  function Depths(t: Text, depth: int): seq<int> {
    var k := NextSlash(t);
    var here := depth + Move(t[..k]);
    [here] + if k == |t| then [] else Depths(t[k + 1..], here)
  }

  lemma StretchBehind(t: Text, k: nat, i: int, j: int)
    requires k < |t| && t[k] == 47 && Stretch(t[k + 1..], i, j)
    ensures Stretch(t, k + 1 + i, k + 1 + j) && t[k + 1 + i..k + 1 + j] == t[k + 1..][i..j]
  {
    var rest := t[k + 1..];
    assert forall n | 0 <= n < |rest| :: rest[n] == t[k + 1 + n];
  }

  lemma RestNamed(t: Text, k: nat)
    requires Named(t) && k < |t| && t[k] == 47
    ensures Named(t[k + 1..])
  {
    var rest := t[k + 1..];
    forall i, j | Stretch(rest, i, j)
      ensures rest[i..j] != [] && rest[i..j] != [46] && rest[i..j] != [46, 46]
    {
      StretchBehind(t, k, i, j);
    }
  }

  /** Following a path of names never leaves the directory that its first component names. */
  lemma {:induction false} NeverLeaves(t: Text, depth: nat)
    requires Named(t)
    ensures forall d | d in Depths(t, depth) :: d >= 1
    decreases |t|
  {
    var k := NextSlash(t);
    assert Stretch(t, 0, k) && t[0..k] == t[..k];
    assert Move(t[..k]) == 1;
    if k < |t| {
      RestNamed(t, k);
      hide Named;
      NeverLeaves(t[k + 1..], depth + 1);
    }
  }

  /** Every path of an accepted archive lies in the bundle, is made of names, and never climbs out. */
  lemma AcceptedPathsSafe(archive: seq<Byte>, bundle: Text, p: Parsed, path: Text)
    requires Parse(archive, bundle) == Ok(p) && (path in p.files || path in p.directories)
    ensures path == bundle || bundle + [47] <= path
    ensures Named(path) && Clean(path) && |Encode(path)| <= 4096
    ensures forall d | d in Depths(path, 0) :: d >= 1
  {
    hide Parse, PathOf, PathsOf, KindOf, Depths, Named, Clean, Encode;
    var tiles, tail := AcceptedIsTiled(archive, bundle);
    var kind := if path in p.files then FILE else DIRECTORY;
    PathMember(tiles, kind, bundle, path);
    var i :| 0 <= i < |tiles| && KindOf(tiles[i]) == kind && PathOf(tiles[i], bundle) == Ok(path);
    PathOfSafe(tiles[i], bundle, path);
    NeverLeaves(path, 0);
  }

  lemma PathOfSafe(t: Tile, bundle: Text, path: Text)
    requires Fits(t) && PathOf(t, bundle) == Ok(path)
    ensures Safe(path, bundle)
  {
    hide HeaderPath, ValidatePath, Safe, ChecksumOk, SizeOf, Zero;
    PathExact(HeaderPath(t.header).value, bundle, path);
  }

  // ---------------------------------------------------------------------- fields

  /** The text of a field: what comes before the first NUL of its decoded bytes. */
  predicate FieldText(field: seq<Byte>, t: Text) {
    && DecodeText(field).Ok?
    && var whole := DecodeText(field).value;
       t <= whole && 0 !in t && (|t| < |whole| ==> whole[|t|] == 0)
  }

  lemma {:induction false} UntilNulMeans(t: Text, s: Text)
    ensures UntilNul(t) == s <==> s <= t && 0 !in s && (|s| < |t| ==> t[|s|] == 0)
  {
    if t != [] && t[0] != 0 && s != [] {
      UntilNulMeans(t[1..], s[1..]);
      assert s <= t <==> s[0] == t[0] && s[1..] <= t[1..];
      assert 0 in s <==> s[0] == 0 || 0 in s[1..];
    }
  }

  /** The path of a header is its name field, behind its prefix field and a slash if there is one. */
  lemma HeaderPathExact(header: seq<Byte>, path: Text)
    requires |header| == 512
    ensures HeaderPath(header) == Ok(path) <==>
            exists prefix, name :: FieldText(header[345..500], prefix) && FieldText(header[0..100], name)
                                   && path == if prefix == [] then name else prefix + Chars("/") + name
  {
    hide DecodeText;
    assert Chars("/") == [47];
    if DecodeText(header[0..100]).Ok? && DecodeText(header[345..500]).Ok? {
      var n, p := DecodeText(header[0..100]).value, DecodeText(header[345..500]).value;
      UntilNulMeans(n, UntilNul(n));
      UntilNulMeans(p, UntilNul(p));
      assert FieldText(header[345..500], UntilNul(p)) && FieldText(header[0..100], UntilNul(n));
      forall prefix, name | FieldText(header[345..500], prefix) && FieldText(header[0..100], name)
        ensures prefix == UntilNul(p) && name == UntilNul(n)
      {
        UntilNulMeans(n, name);
        UntilNulMeans(p, prefix);
      }
    }
  }

  predicate AllWhite(t: Text) {
    forall i | 0 <= i < |t| :: WhiteSpace(t[i])
  }

  lemma {:induction false} TrimStartMeans(t: Text) returns (lead: Text)
    ensures AllWhite(lead) && t == lead + TrimStart(t)
    ensures var r := TrimStart(t); r == [] || !WhiteSpace(r[0])
  {
    if t != [] && WhiteSpace(t[0]) {
      lead := TrimStartMeans(t[1..]);
      lead := [t[0]] + lead;
    } else {
      lead := [];
    }
  }

  lemma {:induction false} TrimEndMeans(t: Text) returns (trail: Text)
    ensures AllWhite(trail) && t == TrimEnd(t) + trail
    ensures var r := TrimEnd(t); r == [] || !WhiteSpace(r[|r| - 1])
  {
    if t != [] && WhiteSpace(t[|t| - 1]) {
      trail := TrimEndMeans(t[..|t| - 1]);
      trail := trail + [t[|t| - 1]];
    } else {
      trail := [];
    }
  }

  lemma {:induction false} TrimStartSkips(lead: Text, t: Text)
    requires AllWhite(lead) && (t == [] || !WhiteSpace(t[0]))
    ensures TrimStart(lead + t) == t
  {
    if lead == [] {
      assert lead + t == t;
    } else {
      assert (lead + t)[1..] == lead[1..] + t;
      TrimStartSkips(lead[1..], t);
    }
  }

  lemma {:induction false} TrimEndSkips(t: Text, trail: Text)
    requires AllWhite(trail) && (t == [] || !WhiteSpace(t[|t| - 1]))
    ensures TrimEnd(t + trail) == t
  {
    if trail == [] {
      assert t + trail == t;
    } else {
      var n := |trail| - 1;
      assert (t + trail)[..|t| + n] == t + trail[..n];
      TrimEndSkips(t, trail[..n]);
    }
  }

  /** A number as the format spells it: octal digits among white space, or white space alone for nought. */
  ghost predicate Spells(t: Text, n: nat) {
    || (AllWhite(t) && n == 0)
    || exists lead: Text, digits: Text, trail: Text ::
         t == lead + digits + trail && AllWhite(lead) && AllWhite(trail)
         && digits != [] && OctalText(digits) && OctalValue(digits) == n
  }

  lemma DigitsNotWhite(digits: Text)
    requires OctalText(digits)
    ensures forall i | 0 <= i < |digits| :: !WhiteSpace(digits[i])
  {
  }

  lemma SpellsExact(t: Text, n: nat)
    ensures var raw := TrimEnd(TrimStart(t));
            Spells(t, n) <==> if raw == [] then n == 0 else OctalText(raw) && OctalValue(raw) == n
  {
    hide TrimEnd, TrimStart, WhiteSpace, OctalValue;
    var raw := TrimEnd(TrimStart(t));
    var lead := TrimStartMeans(t);
    var trail := TrimEndMeans(TrimStart(t));
    assert t == lead + raw + trail;
    if AllWhite(t) {
      assert t + [] == t;
      TrimStartSkips(t, []);
    }
    if raw == [] { assert t == lead + trail; }
    forall l: Text, digits: Text, r: Text
      | t == l + digits + r && AllWhite(l) && AllWhite(r) && digits != [] && OctalText(digits)
      ensures raw == digits
    {
      assert t == l + (digits + r);
      DigitsNotWhite(digits);
      TrimStartSkips(l, digits + r);
      TrimEndSkips(digits, r);
    }
  }

  /** A number field is read exactly when its first byte is below 128 and its text spells a number. */
  lemma OctalExact(field: seq<Byte>, n: nat)
    ensures ParseOctal(field) == Ok(n) <==>
            (field != [] ==> field[0] < 128) && exists t :: FieldText(field, t) && Spells(t, n)
  {
    hide DecodeText, Spells, TrimEnd, TrimStart;
    if DecodeText(field).Ok? {
      var whole := DecodeText(field).value;
      UntilNulMeans(whole, UntilNul(whole));
      assert FieldText(field, UntilNul(whole));
      SpellsExact(UntilNul(whole), n);
      forall t | FieldText(field, t) ensures t == UntilNul(whole) { UntilNulMeans(whole, t); }
    }
  }

  function Sum(bytes: seq<Byte>): nat {
    if bytes == [] then 0 else bytes[0] + Sum(bytes[1..])
  }

  lemma {:induction false} SumAppend(bytes: seq<Byte>, b: Byte)
    ensures Sum(bytes + [b]) == Sum(bytes) + b
  {
    if bytes != [] {
      assert (bytes + [b])[1..] == bytes[1..] + [b];
      SumAppend(bytes[1..], b);
    }
  }

  lemma {:induction false} ByteSumParts(h: seq<Byte>, n: nat)
    requires n <= |h|
    ensures n <= 148 ==> ByteSum(h, n) == Sum(h[..n])
    ensures 148 <= n <= 156 ==> ByteSum(h, n) == Sum(h[..148]) + 32 * (n - 148)
    ensures 156 <= n ==> ByteSum(h, n) == Sum(h[..148]) + 256 + Sum(h[156..n])
  {
    if n > 0 {
      ByteSumParts(h, n - 1);
      if n <= 148 {
        assert h[..n] == h[..n - 1] + [h[n - 1]];
        SumAppend(h[..n - 1], h[n - 1]);
      } else if n > 156 {
        assert h[156..n] == h[156..n - 1] + [h[n - 1]];
        SumAppend(h[156..n - 1], h[n - 1]);
      }
    }
  }

  /** The checksum is the sum of the bytes outside its own field, with that field counted as eight spaces. */
  lemma ChecksumExact(header: seq<Byte>)
    requires |header| == 512
    ensures ChecksumOk(header) <==>
            ParseOctal(header[148..156]) == Ok(Sum(header[..148]) + 8 * 32 + Sum(header[156..]))
  {
    hide ParseOctal;
    ByteSumParts(header, 512);
    assert header[156..512] == header[156..];
  }

  // -------------------------------------------------------------------- metadata

  predicate Starts(t: Text, s: string) {
    Chars(s) <= t
  }

  lemma HarmlessExact(key: Text)
    ensures HarmlessKey(key) <==>
            || key == Chars("mtime") || key == Chars("atime") || key == Chars("ctime")
            || Starts(key, "LIBARCHIVE.xattr.") || Starts(key, "SCHILY.xattr.")
  {
    assert Chars("mtime") == MTIME && Chars("atime") == ATIME && Chars("ctime") == CTIME;
    assert Chars("LIBARCHIVE.xattr.") == LIBARCHIVE && Chars("SCHILY.xattr.") == SCHILY;
  }

  /** One record: its length in decimal, a space, the key, an equals sign, the value and a line end. */
  predicate Record(bytes: seq<Byte>, digits: seq<Byte>, key: seq<Byte>, value: seq<Byte>) {
    && bytes == digits + [32] + key + [61] + value + [10]
    && 32 !in digits && 61 !in key && key != []
    && DecimalText(WithoutMark(digits)) && DecimalValue(WithoutMark(digits)) == |bytes|
    && DecodeText(key).Ok? && HarmlessKey(DecodeText(key).value)
  }

  lemma {:induction false} FindMeans(bytes: seq<Byte>, from: nat, until: nat, b: Byte, i: nat)
    requires from <= until <= |bytes|
    ensures Find(bytes, from, until, b) == i <==>
            from <= i <= until && b !in bytes[from..i] && (i < until ==> bytes[i] == b)
    decreases until - from
  {
    if from == until || bytes[from] == b {
      assert from < i <= until ==> bytes[from..i][0] == bytes[from];
    } else {
      FindMeans(bytes, from + 1, until, b, i);
      assert from < i <= until ==> bytes[from..i] == [bytes[from]] + bytes[from + 1..i];
    }
  }

  /** The reader finds a record of that length exactly when the bytes begin with one. */
  lemma RecordExact(bytes: seq<Byte>, n: nat)
    ensures RecordLength(bytes) == Some(n) <==>
            n <= |bytes| && exists digits, key, value :: Record(bytes[..n], digits, key, value)
  {
    hide DecodeText, HarmlessKey, WithoutMark, DecimalValue, DecimalText;
    if RecordLength(bytes) == Some(n) { RecordFound(bytes, n); }
    if n <= |bytes| {
      forall digits, key, value | Record(bytes[..n], digits, key, value) ensures RecordLength(bytes) == Some(n) {
        RecordRead(bytes, n, digits, key, value);
      }
    }
  }

  lemma RecordFound(bytes: seq<Byte>, n: nat)
    requires RecordLength(bytes) == Some(n)
    ensures n <= |bytes| && exists digits, key, value :: Record(bytes[..n], digits, key, value)
  {
    hide DecodeText, HarmlessKey, WithoutMark, DecimalValue, DecimalText, Find;
    var space := Find(bytes, 0, |bytes|, 0x20);
    var equals := Find(bytes, space + 1, n - 1, 0x3D);
    FindMeans(bytes, 0, |bytes|, 0x20, space);
    FindMeans(bytes, space + 1, n - 1, 0x3D, equals);
    var digits, key, value := bytes[..space], bytes[space + 1..equals], bytes[equals + 1..n - 1];
    assert bytes[0..space] == digits;
    CutTwice(bytes, space, equals, n);
    assert Record(bytes[..n], digits, key, value);
  }

  /** A front part of the bytes, taken apart at two positions and before its last byte. */
  lemma CutTwice(bytes: seq<Byte>, a: nat, b: nat, n: nat)
    requires a < b < n - 1 < |bytes|
    ensures bytes[..n] == bytes[..a] + [bytes[a]] + bytes[a + 1..b] + [bytes[b]] + bytes[b + 1..n - 1] + [bytes[n - 1]]
  {
    assert bytes[..n] == bytes[..n - 1] + [bytes[n - 1]];
    assert bytes[..n - 1] == bytes[..b] + [bytes[b]] + bytes[b + 1..n - 1];
    assert bytes[..b] == bytes[..a] + [bytes[a]] + bytes[a + 1..b];
  }

  lemma RecordRead(bytes: seq<Byte>, n: nat, digits: seq<Byte>, key: seq<Byte>, value: seq<Byte>)
    requires n <= |bytes| && Record(bytes[..n], digits, key, value)
    ensures RecordLength(bytes) == Some(n)
  {
    hide DecodeText, HarmlessKey, WithoutMark, DecimalValue, DecimalText, Find;
    var space := |digits|;
    var equals := space + 1 + |key|;
    var front := bytes[..n];
    assert front[..space] == digits == bytes[..space] == bytes[0..space];
    assert front[space] == 32 && front[equals] == 61 && front[n - 1] == 10;
    assert front[space + 1..equals] == key == bytes[space + 1..equals];
    FindMeans(bytes, 0, |bytes|, 0x20, space);
    FindMeans(bytes, space + 1, n - 1, 0x3D, equals);
  }

  /** Decimal digits, most significant first. */
  function Decimal(n: nat): seq<Byte> {
    if n < 10 then [48 + n] else Decimal(n / 10) + [48 + n % 10]
  }

  lemma {:induction false} DecimalReads(n: nat)
    ensures DecimalText(Decimal(n)) && DecimalValue(Decimal(n)) == n
  {
    if n >= 10 {
      DecimalReads(n / 10);
      var d := Decimal(n);
      assert d[..|d| - 1] == Decimal(n / 10);
    }
  }

  /** Metadata: a sequence of records and nothing else. */
  ghost predicate Records(bytes: seq<Byte>) {
    bytes == [] || exists n: nat | 0 < n <= |bytes| ::
      (exists digits, key, value :: Record(bytes[..n], digits, key, value)) && Records(bytes[n..])
  }

  lemma {:induction false} PaxExact(bytes: seq<Byte>)
    ensures PaxOk(bytes) <==> Records(bytes)
    decreases |bytes|
  {
    hide RecordLength, Record;
    if PaxOk(bytes) && bytes != [] {
      var n := RecordLength(bytes).value;
      RecordExact(bytes, n);
      PaxExact(bytes[n..]);
    }
    if Records(bytes) && bytes != [] {
      var n: nat :| 0 < n <= |bytes| && (exists digits, key, value :: Record(bytes[..n], digits, key, value))
                    && Records(bytes[n..]);
      RecordExact(bytes, n);
      PaxExact(bytes[n..]);
    }
  }

  // --------------------------------------------------------------------- archive

  /** A field that holds the number. */
  ghost predicate Number(field: seq<Byte>, n: nat) {
    (field != [] ==> field[0] < 128) && exists t :: FieldText(field, t) && Spells(t, n)
  }

  /** A header with the right checksum and content that fills whole blocks, the last one at least in part. */
  ghost predicate Shaped(t: Tile, size: nat) {
    && |t.header| == 512 && (exists i | 0 <= i < 512 :: t.header[i] != 0)
    && Number(t.header[148..156], Sum(t.header[..148]) + 8 * 32 + Sum(t.header[156..]))
    && Number(t.header[124..136], size)
    && |t.content| % 512 == 0 && size <= |t.content| < size + 512
  }

  lemma ShapedExact(t: Tile, size: nat)
    ensures Shaped(t, size) <==> Fits(t) && SizeOf(t.header) == Ok(size)
  {
    hide ParseOctal, Spells, Sum, DecodeText;
    if |t.header| == 512 {
      ChecksumExact(t.header);
      hide ChecksumOk;
      OctalExact(t.header[148..156], Sum(t.header[..148]) + 8 * 32 + Sum(t.header[156..]));
      OctalExact(t.header[124..136], size);
      PaddedExact(size, |t.content|);
    }
  }

  /** Padding goes to the next block boundary. */
  lemma PaddedExact(size: nat, n: nat)
    ensures Padded(size) == n <==> n % 512 == 0 && size <= n < size + 512
  {
    assert Padded(size) % 512 == 0 && size <= Padded(size) < size + 512;
    if n % 512 == 0 {
      assert n == n / 512 * 512;
      assert Padded(size) == Padded(size) / 512 * 512;
    }
  }

  /** The header names this path, but for slashes at its end, and the path is safe. */
  ghost predicate Names(t: Tile, path: Text, bundle: Text)
    requires |t.header| == 512
  {
    Safe(path, bundle) && exists prefix, name ::
      && FieldText(t.header[345..500], prefix) && FieldText(t.header[0..100], name)
      && Trailed(if prefix == [] then name else prefix + Chars("/") + name, path)
  }

  ghost predicate IsFile(t: Tile, path: Text, bundle: Text) {
    |t.header| == 512 && (t.header[156] == 0 || t.header[156] as char == '0') && Names(t, path, bundle)
  }

  ghost predicate IsDirectory(t: Tile, path: Text, bundle: Text) {
    |t.header| == 512 && t.header[156] as char == '5' && t.content == [] && Names(t, path, bundle)
  }

  ghost predicate IsMetadata(t: Tile) {
    && |t.header| == 512 && t.header[156] as char == 'x'
    && exists size: nat | size <= |t.content| :: Shaped(t, size) && Records(t.content[..size])
  }

  lemma NamesExact(t: Tile, path: Text, bundle: Text)
    requires Fits(t)
    ensures PathOf(t, bundle) == Ok(path) <==> Names(t, path, bundle)
  {
    hide ChecksumOk, SizeOf, Zero, Padded, ValidatePath, Safe, FieldText;
    assert |t.header| == 512;
    if HeaderPath(t.header).Ok? {
      PathExact(HeaderPath(t.header).value, bundle, path);
      HeaderPathExact(t.header, HeaderPath(t.header).value);
    }
    forall prefix, name | FieldText(t.header[345..500], prefix) && FieldText(t.header[0..100], name)
      ensures HeaderPath(t.header) == Ok(if prefix == [] then name else prefix + Chars("/") + name)
    {
      HeaderPathExact(t.header, if prefix == [] then name else prefix + Chars("/") + name);
    }
    hide HeaderPath;
  }

  lemma TileExact(t: Tile, bundle: Text, path: Text)
    requires Fits(t)
    ensures KindOf(t) == FILE && PathOf(t, bundle) == Ok(path) <==> IsFile(t, path, bundle)
    ensures KindOf(t) == DIRECTORY && Data(t) == [] && PathOf(t, bundle) == Ok(path) <==> IsDirectory(t, path, bundle)
    ensures KindOf(t) == PAX && PaxOk(Data(t)) <==> IsMetadata(t)
  {
    NamesExact(t, path, bundle);
    var size := SizeOf(t.header).value;
    ShapedExact(t, size);
    PaxExact(Data(t));
    forall n: nat | Shaped(t, n) ensures n == size { ShapedExact(t, n); }
    hide Names, PathOf, PaxOk, ChecksumOk, SizeOf, Zero, Padded, Shaped, Records;
    PaddedExact(size, |t.content|);
  }

  ghost predicate Holds(t: Tile, path: Text, bundle: Text) {
    IsFile(t, path, bundle) || IsDirectory(t, path, bundle)
  }

  /** Every tile is well formed, and is metadata, a file or a directory. */
  ghost predicate Orderly(t: Tile, bundle: Text) {
    (exists size: nat :: Shaped(t, size)) && (IsMetadata(t) || exists path :: Holds(t, path, bundle))
  }

  ghost predicate Lists(tiles: seq<Tile>, p: Parsed, bundle: Text) {
    && (forall path :: path in p.files <==> exists i | 0 <= i < |tiles| :: IsFile(tiles[i], path, bundle))
    && (forall path :: path in p.directories <==> exists i | 0 <= i < |tiles| :: IsDirectory(tiles[i], path, bundle))
  }

  /** The rules for a whole archive: each path once, metadata only before an entry, and the bundle's own files there. */
  ghost predicate Lawful(tiles: seq<Tile>, p: Parsed, bundle: Text) {
    && |tiles| <= 100000 && |p.files| + |p.directories| <= 50000
    && (forall i | 0 <= i < |tiles| :: Orderly(tiles[i], bundle))
    && (forall i, j, path | 0 <= i < j < |tiles| :: !(Holds(tiles[i], path, bundle) && Holds(tiles[j], path, bundle)))
    && (forall i, j | 0 <= i < j < |tiles| && j == i + 1 :: !(IsMetadata(tiles[i]) && IsMetadata(tiles[j])))
    && (tiles != [] ==> !IsMetadata(tiles[|tiles| - 1]))
    && Lists(tiles, p, bundle)
    && bundle + Chars("/Contents/Info.plist") in p.files
    && bundle + Chars("/Contents/MacOS/launcher") in p.files
    && bundle + Chars("/Contents/Resources/version.json") in p.files
  }

  lemma OrderlyExact(t: Tile, bundle: Text)
    ensures Orderly(t, bundle) <==> Fits(t) && TileOk(t, bundle)
    ensures Orderly(t, bundle) ==> (IsMetadata(t) <==> KindOf(t) == PAX)
    ensures Orderly(t, bundle) ==> forall path :: Holds(t, path, bundle) <==>
                                                  IsEntry(t, bundle) && PathOf(t, bundle) == Ok(path)
  {
    hide Shaped, ChecksumOk, SizeOf, Zero, Padded, IsFile, IsDirectory, IsMetadata, PathOf, PaxOk, KindOf;
    forall size: nat ensures Shaped(t, size) <==> Fits(t) && SizeOf(t.header) == Ok(size) { ShapedExact(t, size); }
    if Fits(t) {
      hide Data;
      assert exists size: nat :: Shaped(t, size) by { assert Shaped(t, SizeOf(t.header).value); }
      TileExact(t, bundle, []);
      forall path
        ensures KindOf(t) == FILE && PathOf(t, bundle) == Ok(path) <==> IsFile(t, path, bundle)
        ensures KindOf(t) == DIRECTORY && Data(t) == [] && PathOf(t, bundle) == Ok(path)
                <==> IsDirectory(t, path, bundle)
      {
        TileExact(t, bundle, path);
      }
      if IsEntry(t, bundle) { assert Holds(t, PathOf(t, bundle).value, bundle); }
    }
  }

  lemma RequiredExact(bundle: Text)
    ensures Required(bundle) == {bundle + Chars("/Contents/Info.plist"), bundle + Chars("/Contents/MacOS/launcher"),
                                 bundle + Chars("/Contents/Resources/version.json")}
  {
    assert Chars("/Contents/Info.plist") == INFO_PLIST && Chars("/Contents/MacOS/launcher") == LAUNCHER;
    assert Chars("/Contents/Resources/version.json") == VERSION_JSON;
  }

  lemma ListsExact(tiles: seq<Tile>, p: Parsed, bundle: Text)
    requires AllFit(tiles) && AllOk(tiles, bundle)
    ensures Lists(tiles, p, bundle) <==>
            p == Parsed(PathsOf(tiles, FILE, bundle), PathsOf(tiles, DIRECTORY, bundle))
  {
    hide Fits, KindOf, PathOf, PathsOf, PaxOk, Data, IsFile, IsDirectory;
    var files, directories := PathsOf(tiles, FILE, bundle), PathsOf(tiles, DIRECTORY, bundle);
    forall path
      ensures path in files <==> exists i | 0 <= i < |tiles| :: IsFile(tiles[i], path, bundle)
      ensures path in directories <==> exists i | 0 <= i < |tiles| :: IsDirectory(tiles[i], path, bundle)
    {
      PathMember(tiles, FILE, bundle, path);
      PathMember(tiles, DIRECTORY, bundle, path);
      forall i | 0 <= i < |tiles|
        ensures KindOf(tiles[i]) == FILE && PathOf(tiles[i], bundle) == Ok(path) <==> IsFile(tiles[i], path, bundle)
        ensures KindOf(tiles[i]) == DIRECTORY && PathOf(tiles[i], bundle) == Ok(path) <==>
                IsDirectory(tiles[i], path, bundle)
      {
        TileExact(tiles[i], bundle, path);
        assert TileOk(tiles[i], bundle);
      }
    }
    if Lists(tiles, p, bundle) {
      assert p.files == files;
      assert p.directories == directories;
    }
  }

  lemma OrderlyTiles(tiles: seq<Tile>, bundle: Text)
    ensures (forall i | 0 <= i < |tiles| :: Orderly(tiles[i], bundle)) <==> AllFit(tiles) && AllOk(tiles, bundle)
  {
    hide Fits, TileOk, Orderly;
    forall i | 0 <= i < |tiles| ensures Orderly(tiles[i], bundle) <==> Fits(tiles[i]) && TileOk(tiles[i], bundle) {
      OrderlyExact(tiles[i], bundle);
    }
  }

  lemma LawfulExact(tiles: seq<Tile>, p: Parsed, bundle: Text)
    requires AllFit(tiles) && AllOk(tiles, bundle)
    ensures Lawful(tiles, p, bundle) <==>
            Complete(tiles, bundle) && p == Parsed(PathsOf(tiles, FILE, bundle), PathsOf(tiles, DIRECTORY, bundle))
  {
    hide Fits, TileOk, KindOf, PathOf, PathsOf, IsEntry, Orderly, IsMetadata, Holds, Lists;
    OrderlyTiles(tiles, bundle);
    RequiredExact(bundle);
    hide Required;
    ListsExact(tiles, p, bundle);
    FrontPaths(tiles, bundle);
    forall i | 0 <= i < |tiles|
      ensures IsMetadata(tiles[i]) <==> KindOf(tiles[i]) == PAX
      ensures IsEntry(tiles[i], bundle) ==> PathOf(tiles[i], bundle).Ok?
      ensures forall path :: Holds(tiles[i], path, bundle) <==>
                             IsEntry(tiles[i], bundle) && PathOf(tiles[i], bundle) == Ok(path)
    {
      OrderlyExact(tiles[i], bundle);
      PaxIsNoEntry(tiles[i], bundle);
    }
    assert PathsDiffer(tiles, bundle) <==>
           forall i, j, path | 0 <= i < j < |tiles| ::
             !(Holds(tiles[i], path, bundle) && Holds(tiles[j], path, bundle));
    hide Chars;
  }

  /** An archive is accepted, with these files and directories, exactly when lawful tiles and zeros make it up. */
  lemma ParseExact(archive: seq<Byte>, bundle: Text, p: Parsed)
    ensures Parse(archive, bundle) == Ok(p) <==>
            exists tiles, tail ::
              && archive == Join(tiles) + tail && |tail| >= 512 && (forall i | 0 <= i < |tail| :: tail[i] == 0)
              && Lawful(tiles, p, bundle)
  {
    hide Parse, Lawful, Complete, Join, PathsOf, Fits, TileOk;
    if Parse(archive, bundle) == Ok(p) {
      var tiles, tail := AcceptedIsTiled(archive, bundle);
      CompleteIsOk(tiles, bundle);
      LawfulExact(tiles, p, bundle);
      assert Zero(tail);
    }
    forall tiles, tail: seq<Byte> | archive == Join(tiles) + tail && |tail| >= 512
                                    && (forall i | 0 <= i < |tail| :: tail[i] == 0) && Lawful(tiles, p, bundle)
      ensures Parse(archive, bundle) == Ok(p)
    {
      LawfulIsOrderly(tiles, p, bundle);
      LawfulExact(tiles, p, bundle);
      assert Zero(tail);
      TiledIsAccepted(archive, tiles, tail, bundle);
    }
  }

  lemma CompleteIsOk(tiles: seq<Tile>, bundle: Text)
    requires AllFit(tiles) && Complete(tiles, bundle)
    ensures AllOk(tiles, bundle)
  {
    hide AllOk, PathsOf, Fits;
  }

  lemma LawfulIsOrderly(tiles: seq<Tile>, p: Parsed, bundle: Text)
    requires Lawful(tiles, p, bundle)
    ensures AllFit(tiles) && AllOk(tiles, bundle)
  {
    hide AllFit, AllOk, Orderly, IsMetadata, Holds, Lists, Chars;
    OrderlyTiles(tiles, bundle);
  }
}
