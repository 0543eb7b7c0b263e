/** Which archives are accepted: those tiled by checked headers and padded contents up to zeros. */
module TarTiling {
  import opened Wrappers
  import opened Utf8
  import opened TarArchive

  /** A header block with the padded content behind it. */
  datatype Tile = Tile(header: seq<Byte>, content: seq<Byte>)

  predicate Fits(t: Tile) {
    && |t.header| == BLOCK && !Zero(t.header) && ChecksumOk(t.header)
    && SizeOf(t.header).Ok? && |t.content| == Padded(SizeOf(t.header).value)
  }

  function Join(tiles: seq<Tile>): seq<Byte> {
    if tiles == [] then [] else tiles[0].header + tiles[0].content + Join(tiles[1..])
  }

  /** The content without its padding. */
  function Data(t: Tile): seq<Byte>
    requires Fits(t)
  {
    t.content[..SizeOf(t.header).value]
  }

  predicate AllFit(tiles: seq<Tile>) {
    forall i | 0 <= i < |tiles| :: Fits(tiles[i])
  }

  /** The reader's progress over a list of tiles, from the front. */
  function Fold(tiles: seq<Tile>, st: Progress, bundle: Text): Result<Progress>
    requires AllFit(tiles)
  {
    if tiles == [] then Ok(st)
    else if st.headers >= MAX_ENTRIES * 2 then Err("too many entries")
    else
      match Accept(st, tiles[0].header, Data(tiles[0]), bundle)
      case Err(e) => Err(e)
      case Ok(next) => Fold(tiles[1..], next, bundle)
  }

  // ------------------------------------------------------- reading is tiling

  /** Whatever the reader accepts is tiled, without a gap, up to the block of zeros it stopped at. */
  lemma {:induction false} WalkTiles(rest: seq<Byte>, st: Progress, bundle: Text) returns (tiles: seq<Tile>)
    requires Walk(rest, st, bundle).Ok?
    ensures AllFit(tiles)
    ensures var (next, tail) := Walk(rest, st, bundle).value;
            && rest == Join(tiles) + tail && Fold(tiles, st, bundle) == Ok(next)
            && |tail| >= BLOCK && Zero(tail[..BLOCK])
    decreases |rest|
  {
    hide Zero, Accept, Padded, SizeOf, ChecksumOk, Walk, ReadHeader;
    ShortIsRefused(rest, st, bundle);
    WalkStep(rest, st, bundle);
    if Zero(rest[..BLOCK]) {
      tiles := [];
      assert Join(tiles) + rest == rest;
    } else {
      HeaderRead(st, rest[..BLOCK]);
      var size := SizeOf(rest[..BLOCK]).value;
      var end := BLOCK + Padded(size);
      PaddedFits(size);
      var tile := Tile(rest[..BLOCK], rest[BLOCK..end]);
      assert Data(tile) == rest[BLOCK..BLOCK + size];
      var next := Accept(st, tile.header, Data(tile), bundle).value;
      var more := WalkTiles(rest[end..], next, bundle);
      tiles := [tile] + more;
      assert tiles[1..] == more;
      var tail := Walk(rest, st, bundle).value.1;
      assert rest == tile.header + tile.content + rest[end..];
      assert Join(tiles) + tail == tile.header + tile.content + (Join(more) + tail);
    }
  }

  lemma ShortIsRefused(rest: seq<Byte>, st: Progress, bundle: Text)
    ensures |rest| < BLOCK ==> Walk(rest, st, bundle).Err?
  {
  }

  lemma HeaderRead(st: Progress, header: seq<Byte>)
    requires |header| == BLOCK && ReadHeader(st, header).Ok?
    ensures ChecksumOk(header) && SizeOf(header) == ReadHeader(st, header) && st.headers < MAX_ENTRIES * 2
  {
    hide ChecksumOk, SizeOf;
  }

  /** Whatever is tiled that way is read back tile by tile. */
  lemma {:induction false} TilesWalk(tiles: seq<Tile>, tail: seq<Byte>, st: Progress, bundle: Text)
    requires AllFit(tiles) && |tail| >= BLOCK && Zero(tail[..BLOCK]) && Fold(tiles, st, bundle).Ok?
    ensures Walk(Join(tiles) + tail, st, bundle) == Ok((Fold(tiles, st, bundle).value, tail))
  {
    hide Zero, Accept, Padded, SizeOf, ChecksumOk;
    var rest := Join(tiles) + tail;
    WalkStep(rest, st, bundle);
    if tiles == [] {
      assert rest == tail;
    } else {
      var t := tiles[0];
      var size := SizeOf(t.header).value;
      var more := Join(tiles[1..]) + tail;
      PaddedFits(size);
      assert rest == t.header + t.content + more;
      TileAtFront(t.header, t.content, more, size);
      TilesWalk(tiles[1..], tail, Accept(st, t.header, Data(t), bundle).value, bundle);
    }
  }

  lemma TileAtFront(header: seq<Byte>, content: seq<Byte>, more: seq<Byte>, size: nat)
    requires |header| == BLOCK && size <= |content|
    ensures var rest := header + content + more;
            rest[..BLOCK] == header && rest[BLOCK..BLOCK + size] == content[..size] && rest[BLOCK + |content|..] == more
  {
  }

  // --------------------------------------------------- what progress means

  function KindOf(t: Tile): Byte
    requires Fits(t)
  {
    TypeOf(t.header)
  }

  /** The safe path a file or directory tile stands for. */
  function PathOf(t: Tile, bundle: Text): Result<Text>
    requires Fits(t)
  {
    match HeaderPath(t.header)
    case Err(e) => Err(e)
    case Ok(path) => ValidatePath(path, bundle)
  }

  predicate IsEntry(t: Tile, bundle: Text)
    requires Fits(t)
  {
    (KindOf(t) == FILE || (KindOf(t) == DIRECTORY && Data(t) == [])) && PathOf(t, bundle).Ok?
  }

  predicate TileOk(t: Tile, bundle: Text)
    requires Fits(t)
  {
    if KindOf(t) == PAX then PaxOk(Data(t)) else IsEntry(t, bundle)
  }

  function PathsOf(tiles: seq<Tile>, kind: Byte, bundle: Text): set<Text>
    requires AllFit(tiles)
  {
    if tiles == [] then {}
    else
      var n := |tiles| - 1;
      PathsOf(tiles[..n], kind, bundle) +
      if KindOf(tiles[n]) == kind && PathOf(tiles[n], bundle).Ok? then {PathOf(tiles[n], bundle).value} else {}
  }

  /** No two files or directories share a path. */
  ghost predicate PathsDiffer(tiles: seq<Tile>, bundle: Text)
    requires AllFit(tiles)
  {
    forall i, j | 0 <= i < j < |tiles| && IsEntry(tiles[i], bundle) && IsEntry(tiles[j], bundle) ::
      PathOf(tiles[i], bundle) != PathOf(tiles[j], bundle)
  }

  /** Metadata is always followed by the file or directory it belongs to, if anything follows. */
  ghost predicate PaxBeforeEntry(tiles: seq<Tile>)
    requires AllFit(tiles)
  {
    forall i, j | 0 <= i < j < |tiles| && j == i + 1 && KindOf(tiles[i]) == PAX :: KindOf(tiles[j]) != PAX
  }

  ghost predicate AllOk(tiles: seq<Tile>, bundle: Text)
    requires AllFit(tiles)
  {
    forall i | 0 <= i < |tiles| :: TileOk(tiles[i], bundle)
  }

  function EntryCount(tiles: seq<Tile>, bundle: Text): nat
    requires AllFit(tiles)
  {
    |PathsOf(tiles, FILE, bundle)| + |PathsOf(tiles, DIRECTORY, bundle)|
  }

  /** The rules for a list of tiles, without running the reader. */
  ghost predicate Acceptable(tiles: seq<Tile>, bundle: Text)
    requires AllFit(tiles)
  {
    && |tiles| <= MAX_ENTRIES * 2 && AllOk(tiles, bundle) && PathsDiffer(tiles, bundle)
    && PaxBeforeEntry(tiles) && EntryCount(tiles, bundle) <= MAX_ENTRIES
  }

  function After(tiles: seq<Tile>, bundle: Text): Progress
    requires AllFit(tiles)
  {
    Progress(|tiles|, tiles != [] && KindOf(tiles[|tiles| - 1]) == PAX,
             PathsOf(tiles, FILE, bundle), PathsOf(tiles, DIRECTORY, bundle))
  }

  lemma {:induction false} FoldLast(tiles: seq<Tile>, st: Progress, bundle: Text)
    requires AllFit(tiles) && tiles != []
    ensures var n := |tiles| - 1;
            var before := Fold(tiles[..n], st, bundle);
            Fold(tiles, st, bundle) ==
            if before.Err? then before
            else if before.value.headers >= MAX_ENTRIES * 2 then Err("too many entries")
            else Accept(before.value, tiles[n].header, Data(tiles[n]), bundle)
  {
    hide Accept, Data, ChecksumOk, SizeOf, Padded, Zero;
    var n := |tiles| - 1;
    if n == 0 {
      assert tiles[..0] == [] && tiles[1..] == [];
    } else {
      var front, back := tiles[..n], tiles[1..];
      assert front[1..] == back[..n - 1] && front[0] == tiles[0];
      var next := Accept(st, tiles[0].header, Data(tiles[0]), bundle);
      if next.Ok? { FoldLast(back, next.value, bundle); }
    }
  }

  lemma {:induction false} PathMember(tiles: seq<Tile>, kind: Byte, bundle: Text, p: Text)
    requires AllFit(tiles)
    ensures p in PathsOf(tiles, kind, bundle) <==>
            exists i | 0 <= i < |tiles| :: KindOf(tiles[i]) == kind && PathOf(tiles[i], bundle) == Ok(p)
  {
    hide Fits, PathOf, KindOf;
    if tiles != [] {
      var n := |tiles| - 1;
      var front := tiles[..n];
      assert forall i | 0 <= i < n :: front[i] == tiles[i];
      PathMember(front, kind, bundle, p);
    }
  }

  /** One more tile: what is accepted after `n` tiles is what keeps the rules. */
  ghost predicate LastDecides(tiles: seq<Tile>, bundle: Text)
    requires AllFit(tiles) && tiles != []
  {
    var t := tiles[|tiles| - 1];
    var r := Accept(After(tiles[..|tiles| - 1], bundle), t.header, Data(t), bundle);
    (r.Ok? <==> Acceptable(tiles, bundle)) && (r.Ok? ==> r.value == After(tiles, bundle))
  }

  lemma AfterPax(tiles: seq<Tile>, bundle: Text)
    requires AllFit(tiles) && tiles != [] && KindOf(tiles[|tiles| - 1]) == PAX
    ensures var front := After(tiles[..|tiles| - 1], bundle);
            After(tiles, bundle) == front.(headers := front.headers + 1, pendingPax := true)
  {
    hide Fits, KindOf, PathOf;
  }

  lemma AfterEntry(tiles: seq<Tile>, bundle: Text)
    requires AllFit(tiles) && tiles != [] && KindOf(tiles[|tiles| - 1]) != PAX && PathOf(tiles[|tiles| - 1], bundle).Ok?
    ensures var front, t := After(tiles[..|tiles| - 1], bundle), tiles[|tiles| - 1];
            var p := PathOf(t, bundle).value;
            After(tiles, bundle) == Progress(
              front.headers + 1, false,
              front.files + if KindOf(t) == FILE then {p} else {},
              front.directories + if KindOf(t) == DIRECTORY then {p} else {})
  {
    hide Fits, KindOf, PathOf;
  }

  lemma CountIsProgress(tiles: seq<Tile>, bundle: Text)
    requires AllFit(tiles)
    ensures EntryCount(tiles, bundle) == |After(tiles, bundle).files| + |After(tiles, bundle).directories|
  {
    hide Fits, KindOf, PathsOf;
  }

  lemma PendingIsLast(tiles: seq<Tile>, bundle: Text)
    requires AllFit(tiles) && tiles != []
    ensures var n := |tiles| - 1;
            After(tiles[..n], bundle).pendingPax <==> n > 0 && KindOf(tiles[n - 1]) == PAX
  {
    hide Fits, KindOf, PathsOf;
  }

  lemma AcceptsPax(tiles: seq<Tile>, bundle: Text)
    requires AllFit(tiles) && tiles != [] && |tiles| <= MAX_ENTRIES * 2
    requires Acceptable(tiles[..|tiles| - 1], bundle) && KindOf(tiles[|tiles| - 1]) == PAX
    ensures LastDecides(tiles, bundle)
  {
    hide Accept, PathOf, PathsOf, Fits, Data, TileOk, AllOk, PathsDiffer, PaxBeforeEntry, KindOf, After, EntryCount;
    var n := |tiles| - 1;
    PaxMeans(After(tiles[..n], bundle), tiles[n], bundle);
    LastPax(tiles);
    RulesOfLast(tiles, bundle);
    PendingIsLast(tiles, bundle);
    AfterPax(tiles, bundle);
    CountIsProgress(tiles, bundle);
    CountIsProgress(tiles[..n], bundle);
    PaxIsNoEntry(tiles[n], bundle);
  }

  lemma PaxIsNoEntry(t: Tile, bundle: Text)
    requires Fits(t)
    ensures KindOf(t) == PAX ==> !IsEntry(t, bundle)
    ensures KindOf(t) != PAX ==> (TileOk(t, bundle) <==> IsEntry(t, bundle))
    ensures IsEntry(t, bundle) ==> PathOf(t, bundle).Ok? && (KindOf(t) == FILE || KindOf(t) == DIRECTORY)
  {
    hide Fits, KindOf, PathOf, PaxOk, Data;
  }

  lemma AcceptsEntry(tiles: seq<Tile>, bundle: Text)
    requires AllFit(tiles) && tiles != [] && |tiles| <= MAX_ENTRIES * 2
    requires Acceptable(tiles[..|tiles| - 1], bundle) && KindOf(tiles[|tiles| - 1]) != PAX
    ensures LastDecides(tiles, bundle)
  {
    hide Accept, PathOf, PathsOf, Fits, Data, TileOk, IsEntry, AllOk, PathsDiffer, PaxBeforeEntry, KindOf, After,
         EntryCount;
    var n := |tiles| - 1;
    var front, t := tiles[..n], tiles[n];
    EntryMeans(After(front, bundle), t, bundle);
    RulesOfLast(tiles, bundle);
    PaxIsNoEntry(t, bundle);
    if IsEntry(t, bundle) {
      LastPax(tiles);
      LastPath(tiles, bundle);
      AfterEntry(tiles, bundle);
      FrontPaths(front, bundle);
      CountIsProgress(tiles, bundle);
      CountIsProgress(front, bundle);
      AddOne(After(front, bundle).files, After(front, bundle).directories, PathOf(t, bundle).value);
    }
  }

  lemma FrontPaths(tiles: seq<Tile>, bundle: Text)
    requires AllFit(tiles)
    ensures After(tiles, bundle).files == PathsOf(tiles, FILE, bundle)
    ensures After(tiles, bundle).directories == PathsOf(tiles, DIRECTORY, bundle)
  {
    hide Fits, KindOf, PathsOf;
  }

  lemma AddOne(files: set<Text>, directories: set<Text>, p: Text)
    ensures p !in files ==> |files + {p}| == |files| + 1
    ensures p !in directories ==> |directories + {p}| == |directories| + 1
    ensures files + {} == files && directories + {} == directories
  {
  }

  lemma AcceptsLast(tiles: seq<Tile>, bundle: Text)
    requires AllFit(tiles) && tiles != [] && |tiles| <= MAX_ENTRIES * 2
    requires Acceptable(tiles[..|tiles| - 1], bundle)
    ensures LastDecides(tiles, bundle)
  {
    hide LastDecides, Acceptable, KindOf, Fits;
    if KindOf(tiles[|tiles| - 1]) == PAX { AcceptsPax(tiles, bundle); } else { AcceptsEntry(tiles, bundle); }
  }

  /** When metadata is accepted. */
  lemma PaxMeans(st: Progress, t: Tile, bundle: Text)
    requires Fits(t) && KindOf(t) == PAX
    ensures var r := Accept(st, t.header, Data(t), bundle);
            && (r.Ok? <==> !st.pendingPax && TileOk(t, bundle))
            && (r.Ok? ==> r.value == st.(headers := st.headers + 1, pendingPax := true))
  {
    hide Fits, PaxOk, PathOf, Data;
  }

  /** When a file or directory is accepted. */
  lemma EntryMeans(st: Progress, t: Tile, bundle: Text)
    requires Fits(t) && KindOf(t) != PAX
    ensures var r := Accept(st, t.header, Data(t), bundle);
            var path := PathOf(t, bundle);
            && (r.Ok? <==> && IsEntry(t, bundle) && path.value !in st.files && path.value !in st.directories
                           && |st.files| + |st.directories| < MAX_ENTRIES)
            && (r.Ok? ==> r.value == Progress(
                  st.headers + 1, false,
                  st.files + if KindOf(t) == FILE then {path.value} else {},
                  st.directories + if KindOf(t) == DIRECTORY then {path.value} else {}))
  {
    hide Fits, PaxOk, HeaderPath, ValidatePath, Data;
    assert st.files + {} == st.files && st.directories + {} == st.directories;
  }

  lemma LastPax(tiles: seq<Tile>)
    requires AllFit(tiles) && tiles != [] && PaxBeforeEntry(tiles[..|tiles| - 1])
    ensures var n := |tiles| - 1;
            PaxBeforeEntry(tiles) <==> !(n > 0 && KindOf(tiles[n - 1]) == PAX && KindOf(tiles[n]) == PAX)
  {
    hide Fits, KindOf;
    var n := |tiles| - 1;
    var front := tiles[..n];
    assert forall i | 0 <= i < n :: front[i] == tiles[i];
    assert n > 0 ==> 0 <= n - 1 < n < |tiles|;
  }

  lemma LastPath(tiles: seq<Tile>, bundle: Text)
    requires AllFit(tiles) && tiles != [] && IsEntry(tiles[|tiles| - 1], bundle)
    requires PathsDiffer(tiles[..|tiles| - 1], bundle) && AllOk(tiles[..|tiles| - 1], bundle)
    ensures var front, p := tiles[..|tiles| - 1], PathOf(tiles[|tiles| - 1], bundle).value;
            PathsDiffer(tiles, bundle) <==>
            p !in PathsOf(front, FILE, bundle) && p !in PathsOf(front, DIRECTORY, bundle)
  {
    hide Fits, PathOf, Data, PaxOk;
    var n := |tiles| - 1;
    var front, p := tiles[..n], PathOf(tiles[n], bundle).value;
    assert forall i | 0 <= i < n :: front[i] == tiles[i];
    PathMember(front, FILE, bundle, p);
    PathMember(front, DIRECTORY, bundle, p);
    forall i | 0 <= i < n && IsEntry(tiles[i], bundle) && PathOf(tiles[i], bundle) == Ok(p)
      ensures p in PathsOf(front, FILE, bundle) || p in PathsOf(front, DIRECTORY, bundle)
    {
      assert KindOf(front[i]) == FILE || KindOf(front[i]) == DIRECTORY;
    }
    forall i | 0 <= i < n && (KindOf(front[i]) == FILE || KindOf(front[i]) == DIRECTORY)
               && PathOf(front[i], bundle) == Ok(p)
      ensures !PathsDiffer(tiles, bundle)
    {
      assert TileOk(front[i], bundle);
    }
  }

  lemma RulesOfLast(tiles: seq<Tile>, bundle: Text)
    requires AllFit(tiles) && tiles != [] && Acceptable(tiles[..|tiles| - 1], bundle)
    ensures AllOk(tiles, bundle) <==> TileOk(tiles[|tiles| - 1], bundle)
    ensures !IsEntry(tiles[|tiles| - 1], bundle) ==> PathsDiffer(tiles, bundle)
  {
    hide Fits, IsEntry, TileOk, PathOf, KindOf;
    var n := |tiles| - 1;
    var front := tiles[..n];
    assert forall i | 0 <= i < n :: front[i] == tiles[i];
  }

  lemma FrontAcceptable(tiles: seq<Tile>, bundle: Text)
    requires AllFit(tiles) && tiles != [] && Acceptable(tiles, bundle)
    ensures Acceptable(tiles[..|tiles| - 1], bundle)
  {
    hide Fits, IsEntry, TileOk, PathOf, KindOf;
    var n := |tiles| - 1;
    var front := tiles[..n];
    assert forall i | 0 <= i < n :: front[i] == tiles[i];
    SubsetSize(PathsOf(front, FILE, bundle), PathsOf(tiles, FILE, bundle));
    SubsetSize(PathsOf(front, DIRECTORY, bundle), PathsOf(tiles, DIRECTORY, bundle));
  }

  lemma {:induction false} SubsetSize(a: set<Text>, b: set<Text>)
    requires a <= b
    ensures |a| <= |b|
  {
    if a != {} {
      var x :| x in a;
      SubsetSize(a - {x}, b - {x});
    }
  }

  /** The reader gets through a list of tiles exactly when the rules hold, and then knows its paths. */
  lemma {:induction false} FoldIff(tiles: seq<Tile>, bundle: Text)
    requires AllFit(tiles)
    ensures Fold(tiles, START, bundle).Ok? <==> Acceptable(tiles, bundle)
    ensures Fold(tiles, START, bundle).Ok? ==> Fold(tiles, START, bundle).value == After(tiles, bundle)
  {
    hide Fits, Accept, IsEntry, TileOk, PathOf, KindOf;
    if tiles != [] {
      var n := |tiles| - 1;
      FoldIff(tiles[..n], bundle);
      FoldLast(tiles, START, bundle);
      if Acceptable(tiles, bundle) { FrontAcceptable(tiles, bundle); }
      if Acceptable(tiles[..n], bundle) && n < MAX_ENTRIES * 2 { AcceptsLast(tiles, bundle); }
    }
  }

  // ------------------------------------------------------------------ acceptance

  /** The archive is these tiles and a tail of zeros of at least one block. */
  ghost predicate TiledBy(archive: seq<Byte>, tiles: seq<Tile>, tail: seq<Byte>) {
    AllFit(tiles) && archive == Join(tiles) + tail && |tail| >= BLOCK && Zero(tail)
  }

  ghost predicate Complete(tiles: seq<Tile>, bundle: Text)
    requires AllFit(tiles)
  {
    && Acceptable(tiles, bundle) && !After(tiles, bundle).pendingPax
    && PathsOf(tiles, FILE, bundle) != {} && Required(bundle) <= PathsOf(tiles, FILE, bundle)
  }

  /** An accepted archive is tiled, its tiles keep the rules, and its paths are what is returned. */
  lemma AcceptedIsTiled(archive: seq<Byte>, bundle: Text) returns (tiles: seq<Tile>, tail: seq<Byte>)
    requires Parse(archive, bundle).Ok?
    ensures TiledBy(archive, tiles, tail) && Complete(tiles, bundle)
    ensures Parse(archive, bundle) == Ok(Parsed(PathsOf(tiles, FILE, bundle), PathsOf(tiles, DIRECTORY, bundle)))
  {
    hide Walk, Zero, Acceptable, Fold, Join;
    tiles := WalkTiles(archive, START, bundle);
    tail := Walk(archive, START, bundle).value.1;
    FoldIff(tiles, bundle);
  }

  /** And every archive tiled that way is accepted with those paths. */
  lemma TiledIsAccepted(archive: seq<Byte>, tiles: seq<Tile>, tail: seq<Byte>, bundle: Text)
    requires TiledBy(archive, tiles, tail) && Complete(tiles, bundle)
    ensures Parse(archive, bundle) == Ok(Parsed(PathsOf(tiles, FILE, bundle), PathsOf(tiles, DIRECTORY, bundle)))
  {
    FoldIff(tiles, bundle);
    assert Zero(tail[..BLOCK]);
    TilesWalk(tiles, tail, START, bundle);
    hide Walk, Zero, Acceptable, Fold, Join;
  }
}
