/** Incremental splitting of a byte stream into lines, and its agreement with splitting it whole. */
module JsonlParser {
  import opened Wrappers
  import opened Utf8

  const NEWLINE: Byte := 0x0A
  const RETURN: Byte := 0x0D

  /** `accepts` is whether the line handler returns normally. */
  datatype Config = Config(limit: nat, accepts: Text -> bool)

  datatype Parsing = Parsing(ok: bool, buffer: seq<Byte>, lines: seq<Text>)

  function WithoutReturn(bytes: seq<Byte>): seq<Byte> {
    if bytes != [] && bytes[|bytes| - 1] == RETURN then bytes[..|bytes| - 1] else bytes
  }

  /** The line handed on, or None when the limit, the decoder or the handler raises an error. */
  function LineOf(bytes: seq<Byte>, c: Config): Option<Text> {
    var line := WithoutReturn(bytes);
    if |line| > c.limit then None
    else
      var text := DecodeText(line);
      if text.Ok? && c.accepts(text.value) then Some(text.value) else None
  }

  /** The first newline from `i` on, or the end. */
  function FindNewline(bytes: seq<Byte>, i: nat): (k: nat)
    requires i <= |bytes|
    ensures i <= k <= |bytes| && (k < |bytes| ==> bytes[k] == NEWLINE) && NEWLINE !in bytes[i..k]
    decreases |bytes| - i
  {
    if i == |bytes| || bytes[i] == NEWLINE then i
    else
      var k := FindNewline(bytes, i + 1);
      assert bytes[i..k] == [bytes[i]] + bytes[i + 1..k];
      k
  }

  /** Hands on every complete line; `buffer` keeps what follows the last newline. */
  function Scan(lines: seq<Text>, bytes: seq<Byte>, c: Config): Parsing
    decreases |bytes|
  {
    var k := FindNewline(bytes, 0);
    if k == |bytes| then Parsing(true, bytes, lines)
    else
      var line := LineOf(bytes[..k], c);
      if line.None? then Parsing(false, bytes, lines)
      else Scan(lines + [line.value], bytes[k + 1..], c)
  }

  function FeedStep(p: Parsing, chunk: seq<Byte>, c: Config): Parsing {
    if chunk == [] then p
    else
      var r := Scan(p.lines, p.buffer + chunk, c);
      if !r.ok then Parsing(false, p.buffer, r.lines) else r.(ok := |r.buffer| <= c.limit)
  }

  function FinishStep(p: Parsing, c: Config): Parsing {
    if p.buffer == [] then p
    else
      var line := LineOf(p.buffer, c);
      if line.None? then p.(ok := false) else Parsing(p.ok, [], p.lines + [line.value])
  }

  class JsonlReader {
    var buffer: seq<Byte>
    var lines: seq<Text>
    const c: Config

    constructor (c: Config)
      ensures this.c == c && buffer == [] && lines == []
    {
      this.c, buffer, lines := c, [], [];
    }

    method EmitBytes(bytes: seq<Byte>) returns (ok: bool)
      modifies this`lines
      ensures ok == LineOf(bytes, c).Some?
      ensures lines == if ok then old(lines) + [LineOf(bytes, c).value] else old(lines)
    {
      var lineBytes := if bytes != [] && bytes[|bytes| - 1] == RETURN then bytes[..|bytes| - 1] else bytes;
      if |lineBytes| > c.limit { return false; }
      var text := DecodeText(lineBytes);
      if text.Err? || !c.accepts(text.value) { return false; }
      lines := lines + [text.value];
      return true;
    }

    method Feed(chunk: seq<Byte>) returns (ok: bool)
      modifies this
      ensures Parsing(ok, buffer, lines) == FeedStep(Parsing(true, old(buffer), old(lines)), chunk, c)
    {
      hide LineOf, Scan;
      if chunk == [] { return true; }
      var merged := buffer + chunk;
      var lineStart, index := 0, 0;
      assert merged[0..] == merged;
      while index < |merged|
        invariant 0 <= lineStart <= index <= |merged| && buffer == old(buffer)
        invariant NEWLINE !in merged[lineStart..index]
        invariant Scan(old(lines), merged, c) == Scan(lines, merged[lineStart..], c)
      {
        if merged[index] == NEWLINE {
          NextLine(lines, merged, lineStart, index, c);
          var emitted := EmitBytes(merged[lineStart..index]);
          if !emitted { return false; }
          lineStart := index + 1;
        } else {
          assert merged[lineStart..index + 1] == merged[lineStart..index] + [merged[index]];
        }
        index := index + 1;
      }
      LastLine(lines, merged[lineStart..], c);
      buffer := merged[lineStart..];
      return |buffer| <= c.limit;
    }

    method Finish() returns (ok: bool)
      modifies this
      ensures var p := FinishStep(Parsing(true, old(buffer), old(lines)), c); ok == p.ok && lines == p.lines
      ensures ok ==> buffer == []
    {
      ok := true;
      if |buffer| > 0 { ok := EmitBytes(buffer); }
      if ok { buffer := []; }
    }
  }

  lemma LastLine(lines: seq<Text>, bytes: seq<Byte>, c: Config)
    requires NEWLINE !in bytes
    ensures Scan(lines, bytes, c) == Parsing(true, bytes, lines)
  {
  }

  lemma NextLine(lines: seq<Text>, merged: seq<Byte>, lineStart: nat, index: nat, c: Config)
    requires lineStart <= index < |merged| && merged[index] == NEWLINE && NEWLINE !in merged[lineStart..index]
    ensures var line := LineOf(merged[lineStart..index], c);
            Scan(lines, merged[lineStart..], c) ==
            if line.None? then Parsing(false, merged[lineStart..], lines)
            else Scan(lines + [line.value], merged[index + 1..], c)
  {
    hide LineOf;
    var rest := merged[lineStart..];
    var k := FindNewline(rest, 0);
    FirstIs(rest, index - lineStart);
    assert rest[..k] == merged[lineStart..index] && rest[k + 1..] == merged[index + 1..];
  }

  lemma FirstIs(bytes: seq<Byte>, k: nat)
    requires k < |bytes| && bytes[k] == NEWLINE && NEWLINE !in bytes[..k]
    ensures FindNewline(bytes, 0) == k
  {
    var f := FindNewline(bytes, 0);
    assert forall i | 0 <= i < k :: bytes[i] in bytes[..k];
    assert forall i | 0 <= i < f :: bytes[i] in bytes[0..f];
  }

  // ------------------------------------------------------------------ reference

  /** The pieces between newlines, defined byte by byte. */
  function Pieces(bytes: seq<Byte>): (p: seq<seq<Byte>>)
    ensures |p| > 0
  {
    if bytes == [] then [[]]
    else
      var rest := Pieces(bytes[1..]);
      if bytes[0] == NEWLINE then [[]] + rest else [[bytes[0]] + rest[0]] + rest[1..]
  }

  /** The lines of a whole stream: what follows the last newline counts only if it is not empty. */
  function WholeLines(bytes: seq<Byte>): seq<seq<Byte>> {
    var p := Pieces(bytes);
    if p[|p| - 1] == [] then p[..|p| - 1] else p
  }

  /** Hands on lines in order up to the first one that raises an error. */
  function Deliver(pieces: seq<seq<Byte>>, c: Config): (bool, seq<Text>) {
    if pieces == [] then (true, [])
    else
      var line := LineOf(pieces[0], c);
      if line.None? then (false, [])
      else var rest := Deliver(pieces[1..], c); (rest.0, [line.value] + rest.1)
  }

  /** Feeding chunks one by one until the first error. */
  function FeedAll(p: Parsing, chunks: seq<seq<Byte>>, c: Config): Parsing
    decreases |chunks|
  {
    if chunks == [] || !p.ok then p else FeedAll(FeedStep(p, chunks[0], c), chunks[1..], c)
  }

  function Concat(chunks: seq<seq<Byte>>): seq<Byte> {
    if chunks == [] then [] else chunks[0] + Concat(chunks[1..])
  }

  /** All of the first `n` pieces can be handed on. */
  predicate Handed(pieces: seq<seq<Byte>>, c: Config, n: nat)
    requires n <= |pieces|
  {
    forall i | 0 <= i < n :: LineOf(pieces[i], c).Some?
  }

  /** Every line that is handed on fits the limit together with its trailing return. */
  ghost predicate HandedLinesFit(bytes: seq<Byte>, c: Config) {
    forall i | 0 <= i < |WholeLines(bytes)| && Handed(WholeLines(bytes), c, i + 1) :: |WholeLines(bytes)[i]| <= c.limit
  }

  lemma {:induction false} PiecesSplit(bytes: seq<Byte>)
    ensures var k := FindNewline(bytes, 0);
            Pieces(bytes) == if k == |bytes| then [bytes] else [bytes[..k]] + Pieces(bytes[k + 1..])
  {
    var k := FindNewline(bytes, 0);
    if k == |bytes| {
      OnePiece(bytes);
    } else {
      PiecesAt(bytes, k);
    }
  }

  lemma {:induction false} OnePiece(bytes: seq<Byte>)
    requires NEWLINE !in bytes
    ensures Pieces(bytes) == [bytes]
  {
    if bytes != [] {
      OnePiece(bytes[1..]);
      assert [bytes[0]] + bytes[1..] == bytes;
    }
  }

  lemma {:induction false} PiecesAt(bytes: seq<Byte>, k: nat)
    requires k < |bytes| && bytes[k] == NEWLINE && NEWLINE !in bytes[..k]
    ensures Pieces(bytes) == [bytes[..k]] + Pieces(bytes[k + 1..])
  {
    if k > 0 {
      assert bytes[..k][0] == bytes[0];
      assert bytes[1..][..k - 1] == bytes[..k][1..] && bytes[1..][k..] == bytes[k + 1..];
      PiecesAt(bytes[1..], k - 1);
      assert bytes[..k] == [bytes[0]] + bytes[..k][1..];
    }
  }

  lemma WholeLinesNext(bytes: seq<Byte>, k: nat)
    requires k < |bytes| && k == FindNewline(bytes, 0)
    ensures WholeLines(bytes) == [bytes[..k]] + WholeLines(bytes[k + 1..])
  {
    hide Pieces;
    PiecesSplit(bytes);
    var p, q := Pieces(bytes), Pieces(bytes[k + 1..]);
    hide FindNewline;
    assert p == [bytes[..k]] + q;
    assert p[|p| - 1] == q[|q| - 1];
    assert p[..|p| - 1] == [bytes[..k]] + q[..|q| - 1];
  }

  lemma WholeLinesLast(bytes: seq<Byte>)
    requires FindNewline(bytes, 0) == |bytes|
    ensures WholeLines(bytes) == if bytes == [] then [] else [bytes]
  {
    hide Pieces;
    PiecesSplit(bytes);
  }

  /** The outcome of scanning a whole stream and finishing. */
  function ScanAll(lines: seq<Text>, bytes: seq<Byte>, c: Config): (bool, seq<Text>) {
    var r := Scan(lines, bytes, c);
    if !r.ok then (false, r.lines) else var f := FinishStep(r, c); (f.ok, f.lines)
  }

  /** Scanning a stream hands on the lines of its newline split. */
  lemma {:induction false} ScanIsDeliver(lines: seq<Text>, bytes: seq<Byte>, c: Config)
    ensures var d := Deliver(WholeLines(bytes), c); ScanAll(lines, bytes, c) == (d.0, lines + d.1)
    decreases |bytes|
  {
    hide LineOf, WholeLines;
    assert lines + [] == lines;
    var k := FindNewline(bytes, 0);
    if k < |bytes| {
      var rest := bytes[k + 1..];
      WholeLinesNext(bytes, k);
      assert WholeLines(bytes)[1..] == WholeLines(rest);
      var line := LineOf(bytes[..k], c);
      if line.Some? {
        ScanIsDeliver(lines + [line.value], rest, c);
        var d := Deliver(WholeLines(rest), c);
        assert lines + [line.value] + d.1 == lines + ([line.value] + d.1);
      }
    } else {
      WholeLinesLast(bytes);
      if bytes != [] {
        assert WholeLines(bytes)[1..] == [];
        var line := LineOf(bytes, c);
        assert line.Some? ==> [line.value] + [] == [line.value];
      }
    }
  }

  // ------------------------------------------------------------------- theorems

  /** Scanning more bytes goes on from where scanning the first ones stopped. */
  lemma {:induction false} ScanAppend(lines: seq<Text>, a: seq<Byte>, b: seq<Byte>, c: Config)
    ensures var r, s := Scan(lines, a, c), Scan(lines, a + b, c);
            if r.ok then s == Scan(r.lines, r.buffer + b, c) else !s.ok && s.lines == r.lines
    decreases |a|
  {
    hide LineOf;
    var k := FindNewline(a, 0);
    if k < |a| {
      assert (a + b)[..k] == a[0..k];
      FirstIs(a + b, k);
      assert (a + b)[..k] == a[..k] && (a + b)[k + 1..] == a[k + 1..] + b;
      var line := LineOf(a[..k], c);
      if line.Some? { ScanAppend(lines + [line.value], a[k + 1..], b, c); }
    }
  }

  lemma {:induction false} ScanBuffer(lines: seq<Text>, bytes: seq<Byte>, c: Config)
    ensures Scan(lines, bytes, c).ok ==> Scan(lines, bytes, c).buffer == Pieces(bytes)[|Pieces(bytes)| - 1]
    decreases |bytes|
  {
    hide LineOf, Pieces;
    PiecesSplit(bytes);
    var k := FindNewline(bytes, 0);
    if k < |bytes| && LineOf(bytes[..k], c).Some? {
      ScanBuffer(lines + [LineOf(bytes[..k], c).value], bytes[k + 1..], c);
    }
  }

  /** More bytes go on with the last piece. */
  lemma {:induction false} PiecesAppend(a: seq<Byte>, b: seq<Byte>)
    ensures var p, q := Pieces(a), Pieces(b);
            Pieces(a + b) == p[..|p| - 1] + [p[|p| - 1] + q[0]] + q[1..]
  {
    if a == [] {
      assert a + b == b;
      var q := Pieces(b);
      assert [] + q[0] == q[0] && q == [q[0]] + q[1..];
      assert Pieces(a) == [[]];
    } else {
      assert (a + b)[1..] == a[1..] + b;
      PiecesAppend(a[1..], b);
      FirstPieceAppend(a, Pieces(a[1..]), Pieces(b));
    }
  }

  lemma FirstPieceAppend(a: seq<Byte>, p: seq<seq<Byte>>, q: seq<seq<Byte>>)
    requires a != [] && p != [] && q != []
    ensures var joined := p[..|p| - 1] + [p[|p| - 1] + q[0]] + q[1..];
            var longer := if a[0] == NEWLINE then [[]] + p else [[a[0]] + p[0]] + p[1..];
            (if a[0] == NEWLINE then [[]] + joined else [[a[0]] + joined[0]] + joined[1..])
            == longer[..|longer| - 1] + [longer[|longer| - 1] + q[0]] + q[1..]
  {
    if |p| == 1 && a[0] != NEWLINE {
      assert [a[0]] + (p[0] + q[0]) == [a[0]] + p[0] + q[0];
    }
  }

  /** From `before` to `after` exactly the first `n` pieces have been handed on. */
  ghost predicate HandsOn(before: seq<Text>, after: seq<Text>, pieces: seq<seq<Byte>>, c: Config, n: nat)
    requires n <= |pieces|
  {
    && Handed(pieces, c, n) && |after| == |before| + n
    && (forall i | 0 <= i < |before| :: after[i] == before[i])
    && (forall i | 0 <= i < n :: after[|before| + i] == LineOf(pieces[i], c).value)
  }

  lemma HandsFirst(before: seq<Text>, after: seq<Text>, first: seq<Byte>, rest: seq<seq<Byte>>, c: Config, n: nat)
    requires n <= |rest| && LineOf(first, c).Some?
    requires HandsOn(before + [LineOf(first, c).value], after, rest, c, n)
    ensures HandsOn(before, after, [first] + rest, c, n + 1)
  {
    hide LineOf;
    var more, pieces := before + [LineOf(first, c).value], [first] + rest;
    assert forall i | 0 <= i < |before| :: after[i] == more[i];
    forall i | 0 <= i < n + 1
      ensures LineOf(pieces[i], c).Some? && after[|before| + i] == LineOf(pieces[i], c).value
    {
      if i == 0 {
        assert after[|before|] == more[|before|];
      } else {
        assert pieces[i] == rest[i - 1] && after[|more| + (i - 1)] == LineOf(rest[i - 1], c).value;
      }
    }
  }

  /** A scan has handed on all pieces but the last, in order. */
  lemma {:induction false} ScanHands(lines: seq<Text>, bytes: seq<Byte>, c: Config)
    ensures var r, p := Scan(lines, bytes, c), Pieces(bytes);
            r.ok ==> HandsOn(lines, r.lines, p, c, |p| - 1)
    decreases |bytes|
  {
    hide LineOf, Pieces, HandsOn;
    PiecesSplit(bytes);
    var k := FindNewline(bytes, 0);
    if k == |bytes| {
      HandsNone(lines, Pieces(bytes), c);
    } else if LineOf(bytes[..k], c).Some? && Scan(lines, bytes, c).ok {
      var rest := bytes[k + 1..];
      ScanHands(lines + [LineOf(bytes[..k], c).value], rest, c);
      HandsFirst(lines, Scan(lines, bytes, c).lines, bytes[..k], Pieces(rest), c, |Pieces(rest)| - 1);
    }
  }

  lemma HandsNone(lines: seq<Text>, pieces: seq<seq<Byte>>, c: Config)
    ensures HandsOn(lines, lines, pieces, c, 0)
  {
  }

  /** Delivery of pieces that are handed on up to one that is not. */
  lemma {:induction false} DeliverStops(pieces: seq<seq<Byte>>, c: Config, n: nat)
    requires n < |pieces| && Handed(pieces, c, n) && LineOf(pieces[n], c).None?
    ensures var d := Deliver(pieces, c);
            !d.0 && |d.1| == n && forall i | 0 <= i < n :: d.1[i] == LineOf(pieces[i], c).value
  {
    hide LineOf;
    if n > 0 {
      assert forall i | 0 <= i < n - 1 :: pieces[1..][i] == pieces[i + 1];
      DeliverStops(pieces[1..], c, n - 1);
    }
  }

  lemma {:induction false} DeliverHands(pieces: seq<seq<Byte>>, c: Config, n: nat)
    requires n <= |pieces| && Handed(pieces, c, n)
    ensures |Deliver(pieces, c).1| >= n
  {
    hide LineOf;
    if n > 0 {
      assert forall i | 0 <= i < n - 1 :: pieces[1..][i] == pieces[i + 1];
      DeliverHands(pieces[1..], c, n - 1);
    }
  }

  /** Lines are the pieces, except that an empty one at the end is none. */
  lemma LinesArePieces(bytes: seq<Byte>)
    ensures var p, lines := Pieces(bytes), WholeLines(bytes);
            && |p| - 1 <= |lines| <= |p| && (forall i | 0 <= i < |lines| :: lines[i] == p[i])
            && (|lines| == |p| <==> p[|p| - 1] != [])
  {
    hide Pieces;
  }

  lemma HandedPrefix(p: seq<seq<Byte>>, q: seq<seq<Byte>>, c: Config, n: nat)
    requires n <= |p| && n <= |q| && Handed(p, c, n) && forall i | 0 <= i < n :: q[i] == p[i]
    ensures Handed(q, c, n)
  {
    hide LineOf;
  }

  /** The pieces of a stream that begins with `a`, as far as scanning `a` has got. */
  lemma Reached(a: seq<Byte>, b: seq<Byte>, c: Config)
    requires Scan([], a, c).ok
    ensures var r, p := Scan([], a, c), Pieces(a + b);
            var n := |r.lines|;
            && n < |p| && Handed(p, c, n) && (forall i | 0 <= i < n :: r.lines[i] == LineOf(p[i], c).value)
            && |r.buffer| <= |p[n]|
  {
    hide LineOf, Scan, Pieces;
    ScanHands([], a, c);
    ScanBuffer([], a, c);
    PiecesAppend(a, b);
    var p, q, whole := Pieces(a), Pieces(b), Pieces(a + b);
    var n := |p| - 1;
    assert forall i | 0 <= i < n :: whole[i] == p[i];
    assert whole[n] == p[n] + q[0];
    HandedPrefix(p, whole, c, n);
  }

  /** A buffer over the limit is the beginning of a line that is not handed on. */
  lemma OverflowAgrees(a: seq<Byte>, b: seq<Byte>, c: Config)
    requires HandedLinesFit(a + b, c) && Scan([], a, c).ok && |Scan([], a, c).buffer| > c.limit
    ensures Deliver(WholeLines(a + b), c) == (false, Scan([], a, c).lines)
  {
    hide LineOf, Scan, Pieces, WholeLines, Deliver;
    Reached(a, b, c);
    LinesArePieces(a + b);
    var r, p, lines := Scan([], a, c), Pieces(a + b), WholeLines(a + b);
    var n := |r.lines|;
    assert n < |lines|;
    HandedPrefix(p, lines, c, n);
    assert Handed(lines, c, n + 1) <==> LineOf(lines[n], c).Some?;
    DeliverStops(lines, c, n);
    var d := Deliver(lines, c);
    assert d.1 == r.lines && d == (d.0, d.1);
  }

  /** The outcome of feeding the remaining chunks, as a pair. */
  function Outcome(p: Parsing, c: Config): (bool, seq<Text>) {
    if !p.ok then (false, p.lines) else var f := FinishStep(p, c); (f.ok, f.lines)
  }

  /** While nothing has failed, what has been fed stands where scanning it as a whole would. */
  lemma {:induction false} FeedAllDelivers(p: Parsing, done: seq<Byte>, chunks: seq<seq<Byte>>, c: Config)
    requires p.ok && p == Scan([], done, c) && HandedLinesFit(done + Concat(chunks), c)
    ensures Outcome(FeedAll(p, chunks, c), c) == Deliver(WholeLines(done + Concat(chunks)), c)
    decreases |chunks|
  {
    hide Scan, HandedLinesFit, LineOf, WholeLines, Deliver;
    if chunks == [] {
      assert done + Concat(chunks) == done;
      ScanIsDeliver([], done, c);
      PairAgain(Deliver(WholeLines(done), c));
    } else {
      var more, rest := done + chunks[0], Concat(chunks[1..]);
      assert done + Concat(chunks) == more + rest;
      ScanAppend([], done, chunks[0], c);
      assert chunks[0] == [] ==> more == done;
      var next := FeedStep(p, chunks[0], c);
      if next.ok {
        FeedAllDelivers(next, more, chunks[1..], c);
      } else if Scan([], more, c).ok {
        OverflowAgrees(more, rest, c);
      } else {
        ScanAppend([], more, rest, c);
        ScanIsDeliver([], more + rest, c);
        PairAgain(Deliver(WholeLines(more + rest), c));
      }
    }
  }

  lemma PairAgain(d: (bool, seq<Text>))
    ensures (d.0, [] + d.1) == d
  {
    assert [] + d.1 == d.1;
  }

  /** The result of feeding all chunks and finishing: whether no error was raised, and the lines. */
  function Read(chunks: seq<seq<Byte>>, c: Config): (bool, seq<Text>) {
    Outcome(FeedAll(Parsing(true, [], []), chunks, c), c)
  }

  /** Read as its newline split, however it is cut into chunks. */
  ghost predicate ReadsWhole(stream: seq<Byte>, c: Config) {
    forall chunks: seq<seq<Byte>> | Concat(chunks) == stream :: Read(chunks, c) == Deliver(WholeLines(stream), c)
  }

  lemma FittingReadsWhole(stream: seq<Byte>, c: Config)
    requires HandedLinesFit(stream, c)
    ensures ReadsWhole(stream, c)
  {
    hide Scan, HandedLinesFit, WholeLines, Deliver, FeedAll;
    LastLine([], [], c);
    forall chunks: seq<seq<Byte>> | Concat(chunks) == stream ensures Read(chunks, c) == Deliver(WholeLines(stream), c) {
      assert [] + stream == stream;
      FeedAllDelivers(Parsing(true, [], []), [], chunks, c);
    }
  }

  /** Where piece `i` ends in the stream. */
  lemma {:induction false} PieceEnds(bytes: seq<Byte>, i: nat) returns (end: nat)
    requires i < |Pieces(bytes)|
    ensures end <= |bytes| && Pieces(bytes[..end]) == Pieces(bytes)[..i + 1]
    ensures end < |bytes| ==> bytes[end] == NEWLINE
  {
    if bytes == [] {
      end := 0;
    } else if bytes[0] == NEWLINE && i == 0 {
      end := 0;
      assert bytes[..0] == [];
    } else {
      var tail := bytes[1..];
      var e := PieceEnds(tail, if bytes[0] == NEWLINE then i - 1 else i);
      end := e + 1;
      assert bytes[..end][1..] == tail[..e];
      var p, q := Pieces(bytes[..end]), Pieces(tail[..e]);
      assert p == if bytes[0] == NEWLINE then [[]] + q else [[bytes[0]] + q[0]] + q[1..];
    }
  }

  /** Fed up to its end, a line that only fits without its return overflows the buffer. */
  lemma LongLineOverflows(a: seq<Byte>, c: Config, i: nat)
    requires |Pieces(a)| == i + 1 && Handed(Pieces(a), c, i) && |Pieces(a)[i]| > c.limit
    ensures var p := FeedStep(Parsing(true, [], []), a, c); !p.ok && |p.lines| == i
  {
    hide LineOf, Scan, Pieces;
    PrefixScans([], a, c);
    ScanHands([], a, c);
    ScanBuffer([], a, c);
    assert a != [] by { OnePiece([]); }
    assert [] + a == a;
  }

  lemma FailsFirst(a: seq<Byte>, b: seq<Byte>, c: Config)
    requires !FeedStep(Parsing(true, [], []), a, c).ok
    ensures Read([a, b], c) == (false, FeedStep(Parsing(true, [], []), a, c).lines)
    ensures Concat([a, b]) == a + b
  {
    hide FeedStep;
    var both, last := [a, b], [b];
    assert both[1..] == last && last[1..] == [] && Concat(last) == b;
    var failed := FeedStep(Parsing(true, [], []), a, c);
    assert FeedAll(Parsing(true, [], []), both, c) == FeedAll(failed, last, c) == failed;
  }

  /** Cut right before its newline, such a line is refused. */
  lemma UnfittingReadsDifferently(stream: seq<Byte>, c: Config, i: nat) returns (chunks: seq<seq<Byte>>)
    requires i < |WholeLines(stream)| && Handed(WholeLines(stream), c, i + 1) && |WholeLines(stream)[i]| > c.limit
    ensures Concat(chunks) == stream && Read(chunks, c) != Deliver(WholeLines(stream), c)
  {
    hide LineOf, Pieces, WholeLines, Deliver, FeedStep, Read;
    LinesArePieces(stream);
    var end := PieceEnds(stream, i);
    var a, b := stream[..end], stream[end..];
    var p, lines := Pieces(a), WholeLines(stream);
    assert forall j | 0 <= j <= i :: p[j] == lines[j];
    HandedPrefix(lines, p, c, i);
    LongLineOverflows(a, c, i);
    FailsFirst(a, b, c);
    DeliverHands(lines, c, i + 1);
    assert stream == a + b;
    chunks := [a, b];
  }

  /** Pieces that can all be handed on but the last are scanned without an error. */
  lemma {:induction false} PrefixScans(lines: seq<Text>, bytes: seq<Byte>, c: Config)
    requires Handed(Pieces(bytes), c, |Pieces(bytes)| - 1)
    ensures Scan(lines, bytes, c).ok
    decreases |bytes|
  {
    hide LineOf, Pieces;
    PiecesSplit(bytes);
    var k := FindNewline(bytes, 0);
    if k < |bytes| {
      var p, q := Pieces(bytes), Pieces(bytes[k + 1..]);
      assert p == [bytes[..k]] + q && p[0] == bytes[..k];
      assert forall j | 0 <= j < |q| - 1 :: q[j] == p[j + 1];
      PrefixScans(lines + [LineOf(bytes[..k], c).value], bytes[k + 1..], c);
    }
  }

  /**
   A stream is read as its newline split under every chunking exactly when every line that is
   handed on fits the limit together with its trailing return.
   */
  lemma ChunkingDoesNotMatterIff(stream: seq<Byte>, c: Config)
    ensures ReadsWhole(stream, c) <==> HandedLinesFit(stream, c)
  {
    hide WholeLines, Deliver, Read, LineOf;
    if HandedLinesFit(stream, c) {
      FittingReadsWhole(stream, c);
    } else {
      var i :| 0 <= i < |WholeLines(stream)| && Handed(WholeLines(stream), c, i + 1)
          && |WholeLines(stream)[i]| > c.limit;
      var chunks := UnfittingReadsDifferently(stream, c, i);
    }
  }

  const ONE_BYTE_LINES := Config(1, (t: Text) => true)
  const FULL_LINE: seq<Byte> := [97, RETURN]

  /** Without that, chunking does matter: a buffered return counts against the limit. */
  lemma LimitDependsOnChunking()
    ensures Concat([FULL_LINE + [NEWLINE]]) == Concat([FULL_LINE, [NEWLINE]])
    ensures Read([FULL_LINE + [NEWLINE]], ONE_BYTE_LINES).0 && !Read([FULL_LINE, [NEWLINE]], ONE_BYTE_LINES).0
  {
    hide LineOf, Scan, FeedStep;
    assert [FULL_LINE, [NEWLINE]][1..] == [[NEWLINE]] && [[NEWLINE]][1..] == [];
    assert Concat([[NEWLINE]]) == [NEWLINE];
    var whole := FULL_LINE + [NEWLINE];
    var only := [whole];
    assert only[1..] == [] && Concat(only) == whole;
    var start := Parsing(true, [], []);
    WholeLineFits();
    var fed := FeedStep(start, whole, ONE_BYTE_LINES);
    assert FeedAll(start, [whole], ONE_BYTE_LINES) == FeedAll(fed, [], ONE_BYTE_LINES) == fed;
    SplitLineFails();
    var failed := FeedStep(start, FULL_LINE, ONE_BYTE_LINES);
    assert FeedAll(start, [FULL_LINE, [NEWLINE]], ONE_BYTE_LINES) == FeedAll(failed, [[NEWLINE]], ONE_BYTE_LINES)
        == failed;
  }

  lemma WholeLineFits()
    ensures var p := FeedStep(Parsing(true, [], []), FULL_LINE + [NEWLINE], ONE_BYTE_LINES); p.ok && p.buffer == []
  {
    var whole := FULL_LINE + [NEWLINE];
    DecodeAscii([97]);
    assert WithoutReturn(FULL_LINE) == [97];
    assert LineOf(FULL_LINE, ONE_BYTE_LINES).Some?;
    hide LineOf, Decode, Scan;
    assert [] + whole == whole && whole[0..] == whole && whole[0..2] == FULL_LINE && whole[3..] == [];
    NextLine([], whole, 0, 2, ONE_BYTE_LINES);
    LastLine([] + [LineOf(FULL_LINE, ONE_BYTE_LINES).value], [], ONE_BYTE_LINES);
  }

  lemma SplitLineFails()
    ensures !FeedStep(Parsing(true, [], []), FULL_LINE, ONE_BYTE_LINES).ok
  {
    hide Scan;
    assert [] + FULL_LINE == FULL_LINE;
    LastLine([], FULL_LINE, ONE_BYTE_LINES);
  }
}
