/** Writing an archive in the ustar interchange format, and reading it back. */
module TarEncoding {
  import opened Wrappers
  import opened Utf8
  import opened TarArchive
  import opened TarTiling

  /** What an archive is written from: a file or directory, or pax metadata for the next one. */
  datatype Item =
    | Entry(prefix: Text, name: Text, directory: bool, data: seq<Byte>)
    | Meta(data: seq<Byte>)

  function OctalDigits(n: nat, width: nat): (b: seq<Byte>)
    ensures |b| == width && forall i | 0 <= i < width :: 48 <= b[i] < 56
  {
    if width == 0 then [] else OctalDigits(n / 8, width - 1) + [48 + n % 8]
  }

  function Pow8(k: nat): nat {
    if k == 0 then 1 else 8 * Pow8(k - 1)
  }

  /** Byte `i` of a header whose checksum field holds spaces. */
  function BlankByte(name: seq<Byte>, prefix: seq<Byte>, size: nat, kind: Byte, i: nat): Byte {
    if i < 100 then if i < |name| then name[i] else 0
    else if 124 <= i < 135 then OctalDigits(size, 11)[i - 124]
    else if 148 <= i < 156 then 32
    else if i == 156 then kind
    else if 257 <= i < 265 then [117, 115, 116, 97, 114, 0, 48, 48][i - 257]
    else if 345 <= i < 500 then if i - 345 < |prefix| then prefix[i - 345] else 0
    else 0
  }

  function Blank(name: seq<Byte>, prefix: seq<Byte>, size: nat, kind: Byte): (h: seq<Byte>)
    ensures |h| == BLOCK && forall i | 0 <= i < BLOCK :: h[i] == BlankByte(name, prefix, size, kind, i)
  {
    seq(BLOCK, (i: nat) => BlankByte(name, prefix, size, kind, i))
  }

  /** The header with its checksum filled in: six octal digits, a NUL and a space. */
  function Header(name: seq<Byte>, prefix: seq<Byte>, size: nat, kind: Byte): (h: seq<Byte>)
    ensures |h| == BLOCK
  {
    var blank := Blank(name, prefix, size, kind);
    blank[..148] + OctalDigits(ByteSum(blank, BLOCK), 6) + [0, 32] + blank[156..]
  }

  function Zeros(n: nat): (z: seq<Byte>)
    ensures |z| == n && Zero(z)
  {
    seq(n, i => 0)
  }

  function Pad(data: seq<Byte>): seq<Byte> {
    data + Zeros(Padded(|data|) - |data|)
  }

  /** Directories are written with a trailing slash. */
  function WrittenName(item: Item): Text
    requires item.Entry?
  {
    if item.directory then item.name + [47] else item.name
  }

  function TileFor(item: Item): Tile {
    match item
    case Meta(data) => Tile(Header([], [], |data|, PAX), Pad(data))
    case Entry(prefix, _, directory, data) =>
      Tile(Header(Encode(WrittenName(item)), Encode(prefix), |data|, if directory then DIRECTORY else FILE), Pad(data))
  }

  function Tiles(items: seq<Item>): (tiles: seq<Tile>)
    ensures |tiles| == |items| && forall i | 0 <= i < |items| :: tiles[i] == TileFor(items[i])
  {
    seq(|items|, i requires 0 <= i < |items| => TileFor(items[i]))
  }

  /** Two blocks of zeros end the archive. */
  function Write(items: seq<Item>): seq<Byte> {
    Join(Tiles(items)) + Zeros(2 * BLOCK)
  }

  // ---------------------------------------------------------------------- octal

  lemma {:induction false} OctalRoundTrip(n: nat, width: nat)
    requires n < Pow8(width)
    ensures OctalText(OctalDigits(n, width)) && OctalValue(OctalDigits(n, width)) == n
  {
    if width > 0 {
      OctalRoundTrip(n / 8, width - 1);
      var b := OctalDigits(n, width);
      assert b[..width - 1] == OctalDigits(n / 8, width - 1);
    }
  }

  lemma {:induction false} UntilNulStops(t: Text, rest: Text)
    requires 0 !in t && (rest == [] || rest[0] == 0)
    ensures UntilNul(t + rest) == t
  {
    if t == [] {
      assert t + rest == rest;
    } else {
      assert (t + rest)[1..] == t[1..] + rest;
      UntilNulStops(t[1..], rest);
    }
  }

  lemma OctalFieldReads(n: nat, width: nat, ending: seq<Byte>)
    requires 0 < width && n < Pow8(width) && Ascii(ending) && ending != [] && ending[0] == 0
    ensures ParseOctal(OctalDigits(n, width) + ending) == Ok(n)
  {
    hide Decode;
    var digits := OctalDigits(n, width);
    var field := digits + ending;
    DecodeAscii(field);
    var t := Decode(field).value;
    var d: Text, e: Text := t[..width], t[width..];
    assert t == d + e;
    assert forall i | 0 <= i < width :: d[i] == digits[i];
    assert d == digits;
    UntilNulStops(d, e);
    OctalRoundTrip(n, width);
  }

  lemma Powers()
    ensures Pow8(6) == 262144 && Pow8(11) == 8589934592
  {
    assert Pow8(3) == 512;
    assert Pow8(6) == 262144;
    assert Pow8(9) == 134217728;
  }

  // -------------------------------------------------------------------- checksum

  lemma {:induction false} ByteSumBound(h: seq<Byte>, n: nat)
    requires n <= |h|
    ensures ByteSum(h, n) <= 255 * n
  {
    if n > 0 { ByteSumBound(h, n - 1); }
  }

  lemma {:induction false} ByteSumAgrees(g: seq<Byte>, h: seq<Byte>, n: nat)
    requires n <= |g| && n <= |h| && forall i | 0 <= i < n && !(148 <= i < 156) :: g[i] == h[i]
    ensures ByteSum(g, n) == ByteSum(h, n)
  {
    if n > 0 { ByteSumAgrees(g, h, n - 1); }
  }

  lemma HeaderBytes(name: seq<Byte>, prefix: seq<Byte>, size: nat, kind: Byte)
    ensures var h := Header(name, prefix, size, kind);
            && (forall i | 0 <= i < BLOCK && !(148 <= i < 156) :: h[i] == BlankByte(name, prefix, size, kind, i))
            && h[148..156] == OctalDigits(ByteSum(Blank(name, prefix, size, kind), BLOCK), 6) + [0, 32]
  {
    hide BlankByte, ByteSum, OctalDigits;
  }

  lemma HeaderChecksum(name: seq<Byte>, prefix: seq<Byte>, size: nat, kind: Byte)
    ensures ChecksumOk(Header(name, prefix, size, kind))
  {
    hide BlankByte, ParseOctal, Header;
    var h, blank := Header(name, prefix, size, kind), Blank(name, prefix, size, kind);
    HeaderBytes(name, prefix, size, kind);
    ByteSumAgrees(h, blank, BLOCK);
    ByteSumBound(blank, BLOCK);
    Powers();
    OctalFieldReads(ByteSum(blank, BLOCK), 6, [0, 32]);
  }

  lemma HeaderSize(name: seq<Byte>, prefix: seq<Byte>, size: nat, kind: Byte)
    requires size < Pow8(11)
    ensures SizeOf(Header(name, prefix, size, kind)) == Ok(size)
  {
    hide ParseOctal, Header, OctalDigits, ByteSum;
    var h := Header(name, prefix, size, kind);
    HeaderBytes(name, prefix, size, kind);
    assert h[124..136] == OctalDigits(size, 11) + [0];
    OctalFieldReads(size, 11, [0]);
  }

  lemma HeaderKind(name: seq<Byte>, prefix: seq<Byte>, size: nat, kind: Byte)
    ensures var h := Header(name, prefix, size, kind); h[156] == kind && !Zero(h)
  {
    hide Header, OctalDigits, ByteSum;
    var h := Header(name, prefix, size, kind);
    HeaderBytes(name, prefix, size, kind);
    assert h[257] == 117;
  }

  // ----------------------------------------------------------------------- paths

  predicate NoMark(t: Text) {
    t == [] || t[0] != BYTE_ORDER_MARK
  }

  /** What the decoder leaves of a text: all but a leading byte order mark. */
  function Unmarked(t: Text): Text {
    if NoMark(t) then t else t[1..]
  }

  lemma TextFieldReads(t: Text, width: nat)
    requires 0 !in t && |Encode(t)| <= width
    ensures var r := DecodeText(Encode(t) + Zeros(width - |Encode(t)|)); r.Ok? && UntilNul(r.value) == Unmarked(t)
  {
    hide Encode;
    var z := Zeros(width - |Encode(t)|);
    DecodeAscii(z);
    DecodeEncode(t, z);
    hide Decode;
    var rest := Decode(z).value;
    assert rest != [] ==> rest[0] == 0;
    UntilNulStops(Unmarked(t), rest);
    assert t != [] ==> (t + rest)[0] == t[0] && (t + rest)[1..] == t[1..] + rest;
    assert t == [] ==> t + rest == rest;
  }

  function Slashed(prefix: Text, name: Text): Text {
    if prefix == [] then name else prefix + [47] + name
  }

  lemma HeaderPathReads(name: Text, prefix: Text, size: nat, kind: Byte)
    requires 0 !in name && 0 !in prefix && |Encode(name)| <= 100 && |Encode(prefix)| <= 155
    ensures HeaderPath(Header(Encode(name), Encode(prefix), size, kind))
            == Ok(Slashed(Unmarked(prefix), Unmarked(name)))
  {
    hide Header, OctalDigits, ByteSum, Encode, DecodeText, UntilNul, Unmarked;
    var n, p := Encode(name), Encode(prefix);
    var h := Header(n, p, size, kind);
    HeaderBytes(n, p, size, kind);
    assert h[0..100] == n + Zeros(100 - |n|);
    assert h[345..500] == p + Zeros(155 - |p|);
    TextFieldReads(name, 100);
    TextFieldReads(prefix, 155);
  }

  function PathFor(item: Item): Text
    requires item.Entry?
  {
    Slashed(item.prefix, item.name)
  }

  /** An entry the format can hold, at a safe path under the bundle. */
  predicate Holdable(item: Item, bundle: Text)
    requires item.Entry?
  {
    && |item.data| < Pow8(11) && SafePath(PathFor(item), bundle) && 92 !in PathFor(item)
    && |Encode(WrittenName(item))| <= 100 && |Encode(item.prefix)| <= 155
    && (item.directory ==> item.data == [])
  }

  predicate Writable(item: Item, bundle: Text) {
    match item
    case Meta(data) => PaxOk(data) && |data| < Pow8(11)
    case Entry(prefix, name, _, _) => Holdable(item, bundle) && NoMark(prefix) && NoMark(name)
  }

  lemma {:induction false} SplitEnds(t: Text)
    ensures t != [] && t[|t| - 1] == 47 ==> Split(t)[|Split(t)| - 1] == []
    ensures t != [] && t[0] == 47 ==> Split(t)[0] == []
  {
    if |t| > 1 {
      SplitEnds(t[1..]);
      assert t[1..][|t| - 2] == t[|t| - 1];
    }
  }

  lemma {:induction false} SplitHolds(t: Text, c: CodePoint)
    requires c in t && c != 47
    ensures exists i | 0 <= i < |Split(t)| :: c in Split(t)[i]
  {
    var rest, parts := Split(t[1..]), Split(t);
    assert parts == if t[0] == 47 then [[]] + rest else [[t[0]] + rest[0]] + rest[1..];
    if c in t[1..] {
      SplitHolds(t[1..], c);
      hide Split;
      var i :| 0 <= i < |rest| && c in rest[i];
      var k := if t[0] == 47 then i + 1 else i;
      assert 0 <= k < |parts| && c in parts[k];
    } else {
      assert c == t[0] && c in parts[0];
    }
  }

  /** A safe path has no slash at either end and no NUL, so stripping slashes leaves it alone. */
  lemma SafePathPlain(t: Text, bundle: Text)
    requires SafePath(t, bundle)
    ensures 0 !in t && t[0] != 47 && t[|t| - 1] != 47
    ensures StripSlashes(t) == t && StripSlashes(t + [47]) == t
  {
    SplitEnds(t);
    var parts := Split(t);
    assert SafeComponent(parts[0]) && SafeComponent(parts[|parts| - 1]);
    if 0 in t {
      SplitHolds(t, 0);
      assert false;
    }
    assert (t + [47])[..|t|] == t;
  }

  // --------------------------------------------------------------------- reading

  lemma TileFits(item: Item)
    requires |item.data| < Pow8(11)
    ensures Fits(TileFor(item)) && Data(TileFor(item)) == item.data
    ensures KindOf(TileFor(item)) == if item.Meta? then PAX else if item.directory then DIRECTORY else FILE
  {
    hide Header, ChecksumOk, SizeOf, Pow8, Encode, Padded;
    var name := if item.Meta? then [] else Encode(WrittenName(item));
    var prefix := if item.Meta? then [] else Encode(item.prefix);
    var kind := if item.Meta? then PAX else if item.directory then DIRECTORY else FILE;
    HeaderChecksum(name, prefix, |item.data|, kind);
    HeaderSize(name, prefix, |item.data|, kind);
    HeaderKind(name, prefix, |item.data|, kind);
    PaddedFits(|item.data|);
    assert Pad(item.data)[..|item.data|] == item.data;
  }

  function WrittenPath(item: Item): Text
    requires item.Entry?
  {
    if item.directory then PathFor(item) + [47] else PathFor(item)
  }

  lemma WrittenPathReads(item: Item, bundle: Text)
    requires item.Entry? && Holdable(item, bundle) && 0 !in PathFor(item) && |TileFor(item).header| == BLOCK
    ensures HeaderPath(TileFor(item).header) == Ok(Slashed(Unmarked(item.prefix), Unmarked(WrittenName(item))))
  {
    hide Header, Encode, SafePath, Pow8, HeaderPath, Unmarked;
    PartsInPath(item);
    HeaderPathReads(WrittenName(item), item.prefix, |item.data|, if item.directory then DIRECTORY else FILE);
  }

  lemma PartsInPath(item: Item)
    requires item.Entry? && 0 !in PathFor(item)
    ensures 0 !in item.prefix && 0 !in WrittenName(item)
  {
    NameInPath(item);
    assert item.prefix != [] ==> forall i | 0 <= i < |item.prefix| :: PathFor(item)[i] == item.prefix[i];
  }

  lemma WrittenPathValid(item: Item, bundle: Text)
    requires item.Entry? && SafePath(PathFor(item), bundle) && 92 !in PathFor(item)
    ensures 0 !in PathFor(item) && ValidatePath(WrittenPath(item), bundle) == Ok(PathFor(item))
  {
    SafePathPlain(PathFor(item), bundle);
    hide SafePath, StripSlashes, PathFor;
  }

  lemma EntryPath(item: Item, bundle: Text)
    requires item.Entry? && Writable(item, bundle) && Fits(TileFor(item))
    ensures PathOf(TileFor(item), bundle) == Ok(PathFor(item))
  {
    WrittenPathValid(item, bundle);
    assert Slashed(Unmarked(item.prefix), Unmarked(WrittenName(item))) == WrittenPath(item) by { UnmarkedPath(item); }
    hide TileFor, PathFor, HeaderPath, ValidatePath, WrittenPath, Slashed, Unmarked;
    WrittenPathReads(item, bundle);
  }

  lemma UnmarkedPath(item: Item)
    requires item.Entry? && NoMark(item.prefix) && NoMark(item.name)
    ensures Slashed(Unmarked(item.prefix), Unmarked(WrittenName(item))) == WrittenPath(item)
  {
    assert item.prefix + [47] + item.name + [47] == item.prefix + [47] + (item.name + [47]);
  }

  lemma {:induction false} StripShortens(t: Text)
    ensures |StripSlashes(t)| <= |t| && (t != [] && t[|t| - 1] == 47 ==> |StripSlashes(t)| < |t|)
  {
    if t != [] && t[|t| - 1] == 47 { StripShortens(t[..|t| - 1]); }
  }

  /** An entry is read back under its own path exactly when neither field starts with a byte order mark. */
  lemma ReadsBackIff(item: Item, bundle: Text)
    requires item.Entry? && Holdable(item, bundle)
    ensures Fits(TileFor(item))
    ensures PathOf(TileFor(item), bundle) == Ok(PathFor(item)) <==> NoMark(item.prefix) && NoMark(item.name)
  {
    TileFits(item);
    if NoMark(item.prefix) && NoMark(item.name) {
      EntryPath(item, bundle);
    } else {
      WrittenPathValid(item, bundle);
      WrittenPathReads(item, bundle);
      var read := Slashed(Unmarked(item.prefix), Unmarked(WrittenName(item)));
      MarkedShortens(item);
      StripShortens(read);
      hide TileFor, Fits, HeaderPath, SafePath, StripSlashes, Slashed, Unmarked;
    }
  }

  lemma MarkedShortens(item: Item)
    requires item.Entry? && !(NoMark(item.prefix) && NoMark(item.name))
    ensures var read := Slashed(Unmarked(item.prefix), Unmarked(WrittenName(item)));
            |read| < |WrittenPath(item)| && (item.directory ==> read != [] && read[|read| - 1] == 47)
  {
  }

  lemma NameInPath(item: Item)
    requires item.Entry?
    ensures forall i | 0 <= i < |item.name| :: item.name[i] in PathFor(item)
  {
    var k := |PathFor(item)| - |item.name|;
    forall i | 0 <= i < |item.name| ensures item.name[i] in PathFor(item) {
      assert PathFor(item)[k + i] == item.name[i];
    }
  }

  /** Items that may make up an archive of the bundle. */
  ghost predicate Proper(items: seq<Item>, bundle: Text) {
    && 0 < |items| <= MAX_ENTRIES * 2 && items[|items| - 1].Entry?
    && (forall i | 0 <= i < |items| :: Writable(items[i], bundle))
    && (forall i, j | 0 <= i < j < |items| && j == i + 1 && items[i].Meta? :: items[j].Entry?)
    && (forall i, j | 0 <= i < j < |items| && items[i].Entry?
       && items[j].Entry? :: PathFor(items[i]) != PathFor(items[j]))
    && |Paths(items, false)| + |Paths(items, true)| <= MAX_ENTRIES
    && Required(bundle) <= Paths(items, false)
  }

  function Paths(items: seq<Item>, directories: bool): set<Text> {
    set i | 0 <= i < |items| && items[i].Entry? && items[i].directory == directories :: PathFor(items[i])
  }

  lemma PathsRead(items: seq<Item>, bundle: Text)
    requires (forall i | 0 <= i < |items| :: Writable(items[i], bundle)) && AllFit(Tiles(items))
    ensures PathsOf(Tiles(items), FILE, bundle) == Paths(items, false)
    ensures PathsOf(Tiles(items), DIRECTORY, bundle) == Paths(items, true)
  {
    hide Writable, Fits, PathOf, TileFor, PathsOf, KindOf, PathFor;
    var tiles := Tiles(items);
    forall i | 0 <= i < |items|
      ensures KindOf(tiles[i]) == if items[i].Meta? then PAX else if items[i].directory then DIRECTORY else FILE
      ensures items[i].Entry? ==> PathOf(tiles[i], bundle) == Ok(PathFor(items[i]))
    {
      ItemReads(items[i], bundle);
    }
    forall p ensures p in PathsOf(tiles, FILE, bundle) <==> p in Paths(items, false) {
      PathMember(tiles, FILE, bundle, p);
    }
    forall p ensures p in PathsOf(tiles, DIRECTORY, bundle) <==> p in Paths(items, true) {
      PathMember(tiles, DIRECTORY, bundle, p);
    }
  }

  lemma ItemReads(item: Item, bundle: Text)
    requires Writable(item, bundle)
    ensures Fits(TileFor(item)) && Data(TileFor(item)) == item.data
    ensures KindOf(TileFor(item)) == if item.Meta? then PAX else if item.directory then DIRECTORY else FILE
    ensures item.Entry? ==> PathOf(TileFor(item), bundle) == Ok(PathFor(item))
    ensures TileOk(TileFor(item), bundle)
  {
    hide PathOf, TileFor, Fits, PathFor, Data, KindOf, PaxOk, Pow8, SafePath;
    TileFits(item);
    if item.Entry? { EntryPath(item, bundle); }
  }

  lemma ProperIsComplete(items: seq<Item>, bundle: Text)
    requires Proper(items, bundle)
    ensures AllFit(Tiles(items)) && Complete(Tiles(items), bundle)
  {
    hide Writable, Fits, PathOf, TileFor, PathsOf, KindOf, PathFor, TileOk;
    var tiles := Tiles(items);
    forall i | 0 <= i < |items|
      ensures Fits(tiles[i]) && TileOk(tiles[i], bundle)
      ensures KindOf(tiles[i]) == if items[i].Meta? then PAX else if items[i].directory then DIRECTORY else FILE
      ensures items[i].Entry? ==> PathOf(tiles[i], bundle) == Ok(PathFor(items[i]))
    {
      ItemReads(items[i], bundle);
    }
    PathsRead(items, bundle);
    forall i | 0 <= i < |items| ensures IsEntry(tiles[i], bundle) ==> items[i].Entry? {
      PaxIsNoEntry(tiles[i], bundle);
    }
    hide IsEntry, Paths;
    FrontPaths(tiles, bundle);
    assert bundle + INFO_PLIST in Required(bundle);
  }

  /** Reading a written archive returns exactly the files and directories it was written from. */
  lemma RoundTrip(items: seq<Item>, bundle: Text)
    requires Proper(items, bundle)
    ensures Parse(Write(items), bundle) == Ok(Parsed(Paths(items, false), Paths(items, true)))
  {
    hide Fits, Complete, Parse, Writable, Join;
    ProperIsComplete(items, bundle);
    PathsRead(items, bundle);
    TiledIsAccepted(Write(items), Tiles(items), Zeros(2 * BLOCK), bundle);
  }
}
