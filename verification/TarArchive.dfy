/** Reading and checking a macOS update archive before anything is extracted from it. */
module TarArchive {
  import opened Wrappers
  import opened Utf8

  const BLOCK := 512
  const MAX_ENTRIES := 50000
  const MAX_PATH_BYTES := 4096

  datatype Progress = Progress(headers: nat, pendingPax: bool, files: set<Text>, directories: set<Text>)
  datatype Parsed = Parsed(files: set<Text>, directories: set<Text>)

  const START := Progress(0, false, {}, {})

  // ---------------------------------------------------------------------- fields

  function UntilNul(t: Text): Text {
    if t == [] || t[0] == 0 then [] else [t[0]] + UntilNul(t[1..])
  }

  /** White space and line ends as ECMAScript trims them. */
  predicate WhiteSpace(c: CodePoint) {
    || 9 <= c <= 13 || c == 32 || c == 0xA0 || c == 0x1680 || 0x2000 <= c <= 0x200A
    || c == 0x2028 || c == 0x2029 || c == 0x202F || c == 0x205F || c == 0x3000 || c == BYTE_ORDER_MARK
  }

  function TrimStart(t: Text): Text {
    if t != [] && WhiteSpace(t[0]) then TrimStart(t[1..]) else t
  }

  function TrimEnd(t: Text): Text {
    if t != [] && WhiteSpace(t[|t| - 1]) then TrimEnd(t[..|t| - 1]) else t
  }

  predicate OctalText(t: Text) {
    forall i | 0 <= i < |t| :: 48 <= t[i] < 56
  }

  function OctalValue(t: Text): nat
    requires OctalText(t)
  {
    if t == [] then 0 else OctalValue(t[..|t| - 1]) * 8 + (t[|t| - 1] as int - 48)
  }

  function ParseOctal(field: seq<Byte>): Result<nat> {
    if field != [] && field[0] >= 0x80 then Err("unsupported")
    else
      match DecodeText(field)
      case Err(e) => Err(e)
      case Ok(t) =>
        var raw := TrimEnd(TrimStart(UntilNul(t)));
        if raw == [] then Ok(0) else if OctalText(raw) then Ok(OctalValue(raw)) else Err("invalid number")
  }

  /** The sum of the first `n` bytes, with the checksum field read as spaces. */
  function ByteSum(header: seq<Byte>, n: nat): nat
    requires n <= |header|
  {
    if n == 0 then 0
    else ByteSum(header, n - 1) + if 148 <= n - 1 < 156 then 0x20 else header[n - 1]
  }

  predicate ChecksumOk(header: seq<Byte>)
    requires |header| == BLOCK
  {
    ParseOctal(header[148..156]) == Ok(ByteSum(header, BLOCK))
  }

  method ValidateChecksum(header: seq<Byte>) returns (ok: bool)
    requires |header| == BLOCK
    ensures ok == ChecksumOk(header)
  {
    var expected := ParseOctal(header[148..156]);
    if expected.Err? { return false; }
    var actual: int, index := 0, 0;
    while index < BLOCK
      invariant 0 <= index <= BLOCK && actual == ByteSum(header, index)
    {
      actual := actual + if index >= 148 && index < 156 then 0x20 else header[index] as int;
      index := index + 1;
    }
    return actual == expected.value;
  }

  function SizeOf(header: seq<Byte>): Result<nat>
    requires |header| == BLOCK
  {
    ParseOctal(header[124..136])
  }

  function Padded(size: nat): (n: nat)
    ensures size <= n < size + BLOCK && n % BLOCK == 0
  {
    (size + BLOCK - 1) / BLOCK * BLOCK
  }

  function TypeOf(header: seq<Byte>): Byte
    requires |header| == BLOCK
  {
    if header[156] == 0 then 48 else header[156]
  }

  const FILE: Byte := 48
  const DIRECTORY: Byte := 53
  const PAX: Byte := 120

  function HeaderPath(header: seq<Byte>): Result<Text>
    requires |header| == BLOCK
  {
    match DecodeText(header[0..100])
    case Err(e) => Err(e)
    case Ok(nameText) =>
      match DecodeText(header[345..500])
      case Err(e) => Err(e)
      case Ok(prefixText) =>
        var name, prefix := UntilNul(nameText), UntilNul(prefixText);
        Ok(if prefix == [] then name else prefix + [47] + name)
  }

  function StripSlashes(t: Text): Text {
    if t != [] && t[|t| - 1] == 47 then StripSlashes(t[..|t| - 1]) else t
  }

  function Split(t: Text): (parts: seq<Text>)
    ensures |parts| > 0
  {
    if t == [] then [[]]
    else
      var rest := Split(t[1..]);
      if t[0] == 47 then [[]] + rest else [[t[0]] + rest[0]] + rest[1..]
  }

  predicate SafeComponent(c: Text) {
    c != [] && c != [46] && c != [46, 46] && forall i | 0 <= i < |c| :: c[i] > 0x1F && c[i] != 0x7F
  }

  predicate SafePath(stripped: Text, bundle: Text) {
    && stripped != [] && |Encode(stripped)| <= MAX_PATH_BYTES
    && Split(stripped)[0] == bundle
    && forall i | 0 <= i < |Split(stripped)| :: SafeComponent(Split(stripped)[i])
  }

  function ValidatePath(path: Text, bundle: Text): Result<Text> {
    var stripped := StripSlashes(path);
    if SafePath(stripped, bundle) && 0 !in path && 92 !in path && !(path != [] && path[0] == 47)
    then Ok(stripped) else Err("unsafe path")
  }

  // ------------------------------------------------------------------------- pax

  function Find(bytes: seq<Byte>, from: nat, until: nat, b: Byte): (i: nat)
    requires from <= until <= |bytes|
    ensures from <= i <= until && (i < until ==> bytes[i] == b)
    decreases until - from
  {
    if from == until || bytes[from] == b then from else Find(bytes, from + 1, until, b)
  }

  function WithoutMark(bytes: seq<Byte>): seq<Byte> {
    if |bytes| >= 3 && bytes[0] == 0xEF && bytes[1] == 0xBB && bytes[2] == 0xBF then bytes[3..] else bytes
  }

  predicate DecimalText(bytes: seq<Byte>) {
    bytes != [] && forall i | 0 <= i < |bytes| :: 48 <= bytes[i] < 58
  }

  function DecimalValue(bytes: seq<Byte>): nat
    requires forall i | 0 <= i < |bytes| :: 48 <= bytes[i] < 58
  {
    if bytes == [] then 0 else DecimalValue(bytes[..|bytes| - 1]) * 10 + (bytes[|bytes| - 1] as int - 48)
  }

  function StartsWith(t: Text, p: Text): bool {
    |p| <= |t| && t[..|p|] == p
  }

  const MTIME: Text := [109, 116, 105, 109, 101]
  const ATIME: Text := [97, 116, 105, 109, 101]
  const CTIME: Text := [99, 116, 105, 109, 101]
  /** "LIBARCHIVE.xattr." and "SCHILY.xattr." */
  const LIBARCHIVE: Text := [76, 73, 66, 65, 82, 67, 72, 73, 86, 69, 46, 120, 97, 116, 116, 114, 46]
  const SCHILY: Text := [83, 67, 72, 73, 76, 89, 46, 120, 97, 116, 116, 114, 46]

  predicate HarmlessKey(key: Text) {
    key == MTIME || key == ATIME || key == CTIME || StartsWith(key, LIBARCHIVE) || StartsWith(key, SCHILY)
  }

  /** The length of the record at the front, when it is well formed and its key harmless. */
  function RecordLength(bytes: seq<Byte>): (r: Option<nat>)
    ensures r.Some? ==> 3 < r.value <= |bytes|
  {
    var space := Find(bytes, 0, |bytes|, 0x20);
    var digits := WithoutMark(bytes[..space]);
    if space >= |bytes| || !DecimalText(digits) then None
    else
      var length := DecimalValue(digits);
      if length <= space + 3 || length > |bytes| || bytes[length - 1] != 0x0A then None
      else
        var equals := Find(bytes, space + 1, length - 1, 0x3D);
        if equals == space + 1 || equals >= length - 1 then None
        else
          var key := DecodeText(bytes[space + 1..equals]);
          if key.Ok? && HarmlessKey(key.value) then Some(length) else None
  }

  predicate PaxOk(bytes: seq<Byte>) {
    bytes == [] || (RecordLength(bytes).Some? && PaxOk(bytes[RecordLength(bytes).value..]))
  }

  /** Scans for the end of the length and of the key. */
  method ReadRecord(rest: seq<Byte>) returns (r: Option<nat>)
    ensures r == RecordLength(rest)
  {
    hide DecodeText, HarmlessKey, WithoutMark, DecimalValue;
    var space := 0;
    while space < |rest| && rest[space] != 0x20
      invariant 0 <= space <= |rest| && Find(rest, 0, |rest|, 0x20) == Find(rest, space, |rest|, 0x20)
    {
      space := space + 1;
    }
    var digits := WithoutMark(rest[..space]);
    if space >= |rest| || !DecimalText(digits) { return None; }
    var length := DecimalValue(digits);
    if length <= space + 3 || length > |rest| || rest[length - 1] != 0x0A { return None; }
    var equals := space + 1;
    while equals < length - 1 && rest[equals] != 0x3D
      invariant space + 1 <= equals <= length - 1
      invariant Find(rest, space + 1, length - 1, 0x3D) == Find(rest, equals, length - 1, 0x3D)
    {
      equals := equals + 1;
    }
    if equals == space + 1 || equals >= length - 1 { return None; }
    var key := DecodeText(rest[space + 1..equals]);
    if key.Err? || !HarmlessKey(key.value) { return None; }
    return Some(length);
  }

  method ValidatePax(bytes: seq<Byte>) returns (ok: bool)
    ensures ok == PaxOk(bytes)
  {
    hide RecordLength;
    var offset := 0;
    while offset < |bytes|
      invariant 0 <= offset <= |bytes| && PaxOk(bytes) == PaxOk(bytes[offset..])
      decreases |bytes| - offset
    {
      var length := ReadRecord(bytes[offset..]);
      if length.None? { return false; }
      assert bytes[offset..][length.value..] == bytes[offset + length.value..];
      offset := offset + length.value;
    }
    return true;
  }

  // --------------------------------------------------------------------- entries

  predicate Zero(bytes: seq<Byte>) {
    forall i | 0 <= i < |bytes| :: bytes[i] == 0
  }

  /** Everything checked about one header and its content, and the progress it makes. */
  function Accept(st: Progress, header: seq<Byte>, content: seq<Byte>, bundle: Text): Result<Progress>
    requires |header| == BLOCK
  {
    var kind := TypeOf(header);
    if kind == PAX then
      if st.pendingPax || !PaxOk(content) then Err("ambiguous or unsafe metadata")
      else Ok(st.(headers := st.headers + 1, pendingPax := true))
    else if kind != FILE && kind != DIRECTORY then Err("link or special entry")
    else
      match HeaderPath(header)
      case Err(e) => Err(e)
      case Ok(path) =>
        match ValidatePath(path, bundle)
        case Err(e) => Err(e)
        case Ok(safe) =>
          if safe in st.files || safe in st.directories then Err("duplicate path")
          else if kind == DIRECTORY && content != [] then Err("invalid directory")
          else if |st.files| + |st.directories| >= MAX_ENTRIES then Err("too many entries")
          else if kind == DIRECTORY
          then Ok(Progress(st.headers + 1, false, st.files, st.directories + {safe}))
          else Ok(Progress(st.headers + 1, false, st.files + {safe}, st.directories))
  }

  /** The header's own checks, giving the size of its content. */
  function ReadHeader(st: Progress, header: seq<Byte>): Result<nat>
    requires |header| == BLOCK
  {
    if st.headers >= MAX_ENTRIES * 2 then Err("too many entries")
    else if !ChecksumOk(header) then Err("invalid checksum")
    else SizeOf(header)
  }

  /** Reads entries up to the first block of zeros, giving the progress and what is left. */
  function Walk(rest: seq<Byte>, st: Progress, bundle: Text): Result<(Progress, seq<Byte>)>
    decreases |rest|
  {
    if |rest| < BLOCK then Err("incomplete")
    else if Zero(rest[..BLOCK]) then Ok((st, rest))
    else
      match ReadHeader(st, rest[..BLOCK])
      case Err(e) => Err(e)
      case Ok(size) =>
        if BLOCK + Padded(size) > |rest| then Err("truncated")
        else
          match Accept(st, rest[..BLOCK], rest[BLOCK..BLOCK + size], bundle)
          case Err(e) => Err(e)
          case Ok(next) => Walk(rest[BLOCK + Padded(size)..], next, bundle)
  }

  const INFO_PLIST: Text := [47, 67, 111, 110, 116, 101, 110, 116, 115, 47, 73, 110, 102, 111, 46, 112, 108, 105,
      115, 116]
  const LAUNCHER: Text := [47, 67, 111, 110, 116, 101, 110, 116, 115, 47, 77, 97, 99, 79, 83, 47,
                           108, 97, 117, 110, 99, 104, 101, 114]
  const VERSION_JSON: Text := [47, 67, 111, 110, 116, 101, 110, 116, 115, 47, 82, 101, 115, 111, 117, 114, 99, 101,
      115, 47,
                               118, 101, 114, 115, 105, 111, 110, 46, 106, 115, 111, 110]

  /** /Contents/Info.plist, /Contents/MacOS/launcher and /Contents/Resources/version.json */
  function Required(bundle: Text): set<Text> {
    {bundle + INFO_PLIST, bundle + LAUNCHER, bundle + VERSION_JSON}
  }

  function Conclude(st: Progress, tail: seq<Byte>, bundle: Text): Result<Parsed> {
    if st.pendingPax || st.files == {} then Err("incomplete")
    else if !Zero(tail) then Err("trailing content")
    else if !(Required(bundle) <= st.files) then Err("missing file")
    else Ok(Parsed(st.files, st.directories))
  }

  function Parse(archive: seq<Byte>, bundle: Text): Result<Parsed> {
    match Walk(archive, START, bundle)
    case Err(e) => Err(e)
    case Ok((st, tail)) => Conclude(st, tail, bundle)
  }

  /** The reader itself, moving an offset over the bytes and filling two sets. */
  method ParseArchive(archive: seq<Byte>, bundle: Text) returns (r: Result<Parsed>)
    ensures r == Parse(archive, bundle)
  {
    hide Zero, Accept, ReadHeader, Padded, Walk, Conclude;
    var offset, st, reachedEnd := 0, START, false;
    assert archive[0..] == archive;
    while offset + BLOCK <= |archive|
      invariant 0 <= offset <= |archive| && !reachedEnd
      invariant Walk(archive[offset..], st, bundle) == Walk(archive, START, bundle)
      decreases |archive| - offset
    {
      var rest := archive[offset..];
      var header := archive[offset..offset + BLOCK];
      assert header == rest[..BLOCK];
      WalkStep(rest, st, bundle);
      if Zero(header) {
        reachedEnd := true;
        break;
      }
      var size := ReadHeader(st, header);
      if size.Err? { return Err(size.error); }
      var contentStart := offset + BLOCK;
      var nextOffset := contentStart + Padded(size.value);
      if nextOffset > |archive| { return Err("truncated"); }
      PaddedFits(size.value);
      assert archive[contentStart..contentStart + size.value] == rest[BLOCK..BLOCK + size.value];
      var next := Accept(st, header, archive[contentStart..contentStart + size.value], bundle);
      if next.Err? { return Err(next.error); }
      assert archive[nextOffset..] == rest[BLOCK + Padded(size.value)..];
      offset, st := nextOffset, next.value;
    }
    if !reachedEnd {
      WalkShort(archive[offset..], st, bundle);
      return Err("incomplete");
    }
    return Conclude(st, archive[offset..], bundle);
  }

  lemma PaddedFits(size: nat)
    ensures Padded(size) >= size
  {
  }

  lemma WalkShort(rest: seq<Byte>, st: Progress, bundle: Text)
    requires |rest| < BLOCK
    ensures Walk(rest, st, bundle) == Err("incomplete")
  {
  }

  lemma WalkStep(rest: seq<Byte>, st: Progress, bundle: Text)
    requires |rest| >= BLOCK
    ensures var size := ReadHeader(st, rest[..BLOCK]);
            Walk(rest, st, bundle) ==
            if Zero(rest[..BLOCK]) then Ok((st, rest))
            else if size.Err? then Err(size.error)
            else if BLOCK + Padded(size.value) > |rest| then Err("truncated")
            else
              var next := Accept(st, rest[..BLOCK], rest[BLOCK..BLOCK + size.value], bundle);
              if next.Err? then Err(next.error)
              else Walk(rest[BLOCK + Padded(size.value)..], next.value, bundle)
  {
    hide Zero, Accept, ReadHeader;
  }
}
