/**
 * The sliding-window splitter of the ingestion step
 * (`DocumentProcessor._chunk_text` in json_to_rag_chunks.py): the body is
 * cut into windows of `chunkSize` characters, each window end pushed
 * forward to the next blank within a 100-character lookahead, and each
 * window start moved forward by `chunkSize - overlap` (or
 * `2 * chunkSize - overlap` when that step is not positive, or `chunkSize`
 * when even that is not: see `WrittenStep` and `Step`). Every chunk is the
 * header followed by one window of the body.
 */
module Chunker {
  import opened Wrappers
  import Text

  /** Number of positions the lookahead inspects (`range(0, 100)`). */
  const Lookahead := 100

  /** The characters the lookahead accepts as a cut point. */
  predicate IsBreak(c: char) {
    c == ' ' || c == '\n' || c == '\t'
  }

  /** The lookahead loop from position `q` on, for the cut point `end`. */
  function Scan(body: string, end: nat, q: nat): (r: Option<nat>)
    requires end <= q <= end + Lookahead
    ensures r.Some? ==> (q <= r.value < end + Lookahead && r.value < |body| && IsBreak(body[r.value]))
    ensures r.Some? ==> forall k :: q <= k < r.value ==> !IsBreak(body[k])
    ensures r.None? ==> forall k :: q <= k < end + Lookahead && k < |body| ==> !IsBreak(body[k])
    decreases end + Lookahead - q
  {
    if q == end + Lookahead then None
    else if q < |body| && IsBreak(body[q]) then Some(q)
    else Scan(body, end, q + 1)
  }

  /**
   * `next_space`: the first blank at or after `end` and fewer than 100
   * positions past it, if there is one.
   */
  function NextSpace(body: string, end: nat): (r: Option<nat>)
    ensures r.Some? ==> (end <= r.value < end + Lookahead && r.value < |body| && IsBreak(body[r.value]))
    ensures r.Some? ==> forall q :: end <= q < r.value ==> !IsBreak(body[q])
    ensures r.None? ==> forall q :: end <= q < end + Lookahead && q < |body| ==> !IsBreak(body[q])
  {
    Scan(body, end, end)
  }

  function Min(a: int, b: int): int {
    if a <= b then a else b
  }

  /**
   * Where the window that starts at `start` ends: at the end of the body
   * when the window reaches it, otherwise at the first blank found by the
   * lookahead from `start + chunkSize`, or at `start + chunkSize` when the
   * lookahead finds none.
   */
  function WindowEnd(body: string, start: nat, chunkSize: int): (end: nat)
    requires start < |body| && 0 < chunkSize
    ensures start < end <= |body|
    ensures end - start < chunkSize + Lookahead
    ensures |body| <= start + chunkSize ==> end == |body|
    ensures start + chunkSize < |body| ==> start + chunkSize <= end < |body|
  {
    var end := Min(start + chunkSize, |body|);
    if end < |body| then
      match NextSpace(body, end)
      case Some(p) => p
      case None => end
    else end
  }

  /**
   * A window that stops short of the end of the body is cut either on the
   * first blank at or after `start + chunkSize` (within the lookahead), or
   * at `start + chunkSize` itself when the lookahead holds no blank.
   */
  lemma WindowEndCut(body: string, start: nat, chunkSize: int)
    requires start < |body| && 0 < chunkSize && start + chunkSize < |body|
    ensures var end := WindowEnd(body, start, chunkSize);
      && (forall q :: start + chunkSize <= q < end ==> !IsBreak(body[q]))
      && (end == start + chunkSize || IsBreak(body[end]))
      && (!IsBreak(body[end]) ==>
            forall q :: start + chunkSize <= q < start + chunkSize + Lookahead && q < |body| ==> !IsBreak(body[q]))
  {
  }

  /** A positive chunk size; any overlap is accepted. */
  predicate ValidConfig(chunkSize: int, overlap: int) {
    0 < chunkSize
  }

  /** `CHUNK_SIZE` and `OVERLAP_SIZE` of the ingestion step (also the constructor's defaults). */
  const DefaultChunkSize := 1500
  const DefaultOverlap := 200

  /** The shipped configuration is valid and its windows start 1300 characters apart, as written. */
  lemma DefaultConfigSteps()
    ensures ValidConfig(DefaultChunkSize, DefaultOverlap)
    ensures Step(DefaultChunkSize, DefaultOverlap) == WrittenStep(DefaultChunkSize, DefaultOverlap) == 1300
  {
  }

  /**
   * How far the source moves the window start: `chunkSize - overlap`, and
   * a further `chunkSize` when that is not positive.
   */
  function WrittenStep(chunkSize: int, overlap: int): int {
    if chunkSize - overlap <= 0 then 2 * chunkSize - overlap else chunkSize - overlap
  }

  /**
   * From an overlap of twice the chunk size on, the written fallback no
   * longer moves the start forward, so the loop would revisit the same
   * window (or move backwards) for ever.
   */
  lemma WrittenStepStalls(chunkSize: int, overlap: int)
    requires 0 < chunkSize && 2 * chunkSize <= overlap
    ensures WrittenStep(chunkSize, overlap) <= 0
  {
  }

  /** The smallest stalling configuration: chunks of 1 with an overlap of 2. */
  lemma WrittenStepStallsExample()
    ensures WrittenStep(1, 2) == 0
  {
  }

  /**
   * The step the model uses: the written step wherever it moves forward,
   * and a full `chunkSize` (no overlap, as the fallback intends) where it
   * would not.
   */
  function Step(chunkSize: int, overlap: int): int {
    var written := WrittenStep(chunkSize, overlap);
    if written <= 0 then chunkSize else written
  }

  /** The start always moves forward, whatever the overlap, so the loop ends. */
  lemma StepPositive(chunkSize: int, overlap: int)
    requires ValidConfig(chunkSize, overlap)
    ensures 0 < Step(chunkSize, overlap)
  {
  }

  /** Wherever the written step moves forward, the model takes exactly that step. */
  lemma StepAgreesWhereWrittenAdvances(chunkSize: int, overlap: int)
    requires 0 < WrittenStep(chunkSize, overlap)
    ensures Step(chunkSize, overlap) == WrittenStep(chunkSize, overlap)
  {
  }

  /** For an overlap below twice the chunk size the two steps agree. */
  lemma StepIsWrittenBelowTwiceChunkSize(chunkSize: int, overlap: int)
    requires 0 < chunkSize && overlap < 2 * chunkSize
    ensures Step(chunkSize, overlap) == WrittenStep(chunkSize, overlap)
  {
  }

  /**
   * The `(start, end)` bounds of the windows produced from `start` on: one
   * window, then (unless it reaches the end of the body or the next start
   * is past the end) the windows from the next start. Every window is a
   * non-empty slice of the body whose end is placed by `WindowEnd`, and each
   * next window starts one step after the previous start.
   */
  function Windows(body: string, start: nat, chunkSize: int, overlap: int): (ws: seq<(nat, nat)>)
    requires ValidConfig(chunkSize, overlap) && start < |body|
    ensures 0 < |ws| && ws[0].0 == start
    ensures forall i :: 0 <= i < |ws| ==> start <= ws[i].0 < ws[i].1 <= |body|
    ensures forall i, j {:trigger ws[i], ws[j]} :: 0 <= i && j == i + 1 && j < |ws| ==> ws[j].0 == ws[i].0 + Step(chunkSize, overlap)
    decreases |body| - start
  {
    var end := WindowEnd(body, start, chunkSize);
    var next := start + Step(chunkSize, overlap);
    if end >= |body| || next >= |body| then [(start, end)]
    else [(start, end)] + Windows(body, next, chunkSize, overlap)
  }

  /** A window that stops short of the body, with a next start inside it, is followed by the windows from that start. */
  lemma WindowsUnfold(body: string, start: nat, next: nat, chunkSize: int, overlap: int)
    requires ValidConfig(chunkSize, overlap) && start < |body|
    requires WindowEnd(body, start, chunkSize) < |body| && next == start + Step(chunkSize, overlap) < |body|
    ensures Windows(body, start, chunkSize, overlap)
         == [(start, WindowEnd(body, start, chunkSize))] + Windows(body, next, chunkSize, overlap)
  {
  }

  /** The last of the windows `ws` ends at the end of the body. */
  predicate EndsAtBody(body: string, ws: seq<(nat, nat)>) {
    0 < |ws| && ws[|ws| - 1].1 == |body|
  }

  /** If the windows from the next start end at the end of the body, so do the windows from `start`. */
  lemma WindowsLastStep(body: string, start: nat, next: nat, chunkSize: int, overlap: int)
    requires ValidConfig(chunkSize, overlap) && start < |body|
    requires WindowEnd(body, start, chunkSize) < |body| && next == start + Step(chunkSize, overlap) < |body|
    requires EndsAtBody(body, Windows(body, next, chunkSize, overlap))
    ensures EndsAtBody(body, Windows(body, start, chunkSize, overlap))
  {
    WindowsUnfold(body, start, next, chunkSize, overlap);
  }

  /** A window that reaches the end of the body is the last one. */
  lemma WindowsSingle(body: string, start: nat, chunkSize: int, overlap: int)
    requires ValidConfig(chunkSize, overlap) && start < |body|
    requires WindowEnd(body, start, chunkSize) >= |body|
    ensures EndsAtBody(body, Windows(body, start, chunkSize, overlap))
  {
    assert Windows(body, start, chunkSize, overlap) == [(start, |body|)];
  }

  /** With a non-negative overlap, a window that stops short of the body is followed by another. */
  lemma NextStartInside(body: string, start: nat, chunkSize: int, overlap: int)
    requires ValidConfig(chunkSize, overlap) && start < |body| && 0 <= overlap
    requires WindowEnd(body, start, chunkSize) < |body|
    ensures start + Step(chunkSize, overlap) < |body|
  {
    StepAtMostChunkSize(chunkSize, overlap);
  }

  /** A window that reaches the end of the body, or whose next start is past it, is the only one. */
  lemma WindowsOne(body: string, start: nat, chunkSize: int, overlap: int)
    requires ValidConfig(chunkSize, overlap) && start < |body|
    requires WindowEnd(body, start, chunkSize) >= |body| || start + Step(chunkSize, overlap) >= |body|
    ensures Windows(body, start, chunkSize, overlap) == [(start, WindowEnd(body, start, chunkSize))]
  {
  }

  /** Every window of `ws` ends where the lookahead places the cut for its start. */
  predicate EndsPlaced(body: string, ws: seq<(nat, nat)>, chunkSize: int)
    requires 0 < chunkSize
  {
    forall i :: 0 <= i < |ws| && ws[i].0 < |body| ==> ws[i].1 == WindowEnd(body, ws[i].0, chunkSize)
  }

  /** Every window ends where the lookahead places the cut for its start. */
  lemma {:induction false} WindowsEnds(body: string, start: nat, chunkSize: int, overlap: int)
    requires ValidConfig(chunkSize, overlap) && start < |body|
    ensures EndsPlaced(body, Windows(body, start, chunkSize, overlap), chunkSize)
    decreases |body| - start
  {
    var ws := Windows(body, start, chunkSize, overlap);
    if WindowEnd(body, start, chunkSize) < |body| && start + Step(chunkSize, overlap) < |body| {
      var next := start + Step(chunkSize, overlap);
      WindowsUnfold(body, start, next, chunkSize, overlap);
      WindowsEnds(body, next, chunkSize, overlap);
      var rest := Windows(body, next, chunkSize, overlap);
      forall i | 0 < i < |ws| ensures ws[i].1 == WindowEnd(body, ws[i].0, chunkSize) {
        assert ws[i] == rest[i - 1];
      }
    } else {
      WindowsOne(body, start, chunkSize, overlap);
    }
  }

  /** No window of `ws` is longer than `n`. */
  predicate SpansAtMost(ws: seq<(nat, nat)>, n: int) {
    forall i :: 0 <= i < |ws| ==> ws[i].1 - ws[i].0 <= n
  }

  /** Every window spans at most `chunkSize + 99` characters. */
  lemma WindowsBounded(body: string, start: nat, chunkSize: int, overlap: int)
    requires ValidConfig(chunkSize, overlap) && start < |body|
    ensures SpansAtMost(Windows(body, start, chunkSize, overlap), chunkSize + Lookahead - 1)
  {
    WindowsEnds(body, start, chunkSize, overlap);
  }

  /** Window `i` of `ws` starts `i` steps after `start`. */
  predicate StartsEvery(ws: seq<(nat, nat)>, start: int, step: int) {
    forall i :: 0 <= i < |ws| ==> ws[i].0 == start + i * step
  }

  /**
   * The i-th window starts `i` steps after the first, and the last start
   * is inside the body: so there are at most `ceil((|body| - start) / step)`
   * windows.
   */
  lemma WindowsCount(body: string, start: nat, chunkSize: int, overlap: int)
    requires ValidConfig(chunkSize, overlap) && start < |body|
    ensures StartsEvery(Windows(body, start, chunkSize, overlap), start, Step(chunkSize, overlap))
    ensures start + (|Windows(body, start, chunkSize, overlap)| - 1) * Step(chunkSize, overlap) < |body|
  {
    var ws := Windows(body, start, chunkSize, overlap);
    var step := Step(chunkSize, overlap);
    StartsAreSteps(ws, start, step, |ws|);
    assert ws[|ws| - 1].0 == start + (|ws| - 1) * step;
  }

  /** Starts that advance by a constant step are an arithmetic progression. */
  lemma {:induction false} StartsAreSteps(ws: seq<(nat, nat)>, start: int, step: int, n: nat)
    requires n <= |ws| && 0 < |ws| && ws[0].0 == start
    requires forall i, j {:trigger ws[i], ws[j]} :: 0 <= i && j == i + 1 && j < |ws| ==> ws[j].0 == ws[i].0 + step
    ensures forall i :: 0 <= i < n ==> ws[i].0 == start + i * step
  {
    if n > 1 {
      StartsAreSteps(ws, start, step, n - 1);
      assert ws[n - 1].0 == ws[n - 2].0 + step;
      assert start + (n - 2) * step + step == start + (n - 1) * step;
    }
  }

  /** The last window ends at the end of the body. */
  lemma {:induction false} WindowsLast(body: string, start: nat, chunkSize: int, overlap: int)
    requires ValidConfig(chunkSize, overlap) && start < |body| && 0 <= overlap
    ensures EndsAtBody(body, Windows(body, start, chunkSize, overlap))
    decreases |body| - start
  {
    if WindowEnd(body, start, chunkSize) < |body| {
      NextStartInside(body, start, chunkSize, overlap);
      var next := start + Step(chunkSize, overlap);
      WindowsLast(body, next, chunkSize, overlap);
      WindowsLastStep(body, start, next, chunkSize, overlap);
    } else {
      WindowsSingle(body, start, chunkSize, overlap);
    }
  }

  /**
   * With a non-negative overlap no character is skipped: each window starts
   * at or before the end of the previous one, and the last window ends at
   * the end of the body.
   */
  lemma WindowsChain(body: string, start: nat, chunkSize: int, overlap: int)
    requires ValidConfig(chunkSize, overlap) && start < |body| && 0 <= overlap
    ensures EndsAtBody(body, Windows(body, start, chunkSize, overlap))
    ensures Chained(Windows(body, start, chunkSize, overlap))
  {
    var ws := Windows(body, start, chunkSize, overlap);
    WindowsLast(body, start, chunkSize, overlap);
    WindowsEnds(body, start, chunkSize, overlap);
    forall i, j | 0 <= i < j < |ws| && j == i + 1 ensures ws[j].0 <= ws[i].1 {
      assert ws[j].0 == ws[i].0 + Step(chunkSize, overlap) && ws[j].0 < |body|;
      NextStartWithin(body, ws[i].0, chunkSize, overlap);
    }
  }

  /** With a non-negative overlap, a next start inside the body is at or before the current window's end. */
  lemma NextStartWithin(body: string, start: nat, chunkSize: int, overlap: int)
    requires ValidConfig(chunkSize, overlap) && 0 <= overlap && start + Step(chunkSize, overlap) < |body|
    ensures start + Step(chunkSize, overlap) <= WindowEnd(body, start, chunkSize)
  {
    StepAtMostChunkSize(chunkSize, overlap);
  }

  /** With a non-negative overlap the start never moves past a full window. */
  lemma StepAtMostChunkSize(chunkSize: int, overlap: int)
    requires ValidConfig(chunkSize, overlap) && 0 <= overlap
    ensures 0 < Step(chunkSize, overlap) <= chunkSize
  {
  }

  /** Window `i` of `ws` contains body position `p`. */
  predicate Covers(ws: seq<(nat, nat)>, i: int, p: int) {
    0 <= i < |ws| && ws[i].0 <= p < ws[i].1
  }

  /** Each window of `ws` starts at or before the end of the previous one. */
  ghost predicate Chained(ws: seq<(nat, nat)>) {
    forall i, j {:trigger ws[i], ws[j]} :: 0 <= i < j < |ws| && j == i + 1 ==> ws[j].0 <= ws[i].1
  }

  /** Chained windows from `ws[0].0` to the last end cover every position in between. */
  lemma {:induction false} ChainCovers(ws: seq<(nat, nat)>, p: int)
    requires 0 < |ws| && ws[0].0 <= p < ws[|ws| - 1].1
    requires Chained(ws)
    ensures exists i :: Covers(ws, i, p)
  {
    if p < ws[0].1 {
      assert Covers(ws, 0, p);
    } else {
      var rest := ws[1..];
      assert rest[0].0 <= ws[0].1;
      assert rest[|rest| - 1] == ws[|ws| - 1];
      assert forall i :: 0 < i < |rest| ==> rest[i].0 == ws[i + 1].0 && rest[i - 1].1 == ws[i].1;
      ChainCovers(rest, p);
      var i :| Covers(rest, i, p);
      assert Covers(ws, i + 1, p);
    }
  }

  /** Every body position from `start` on lies inside some window. */
  lemma WindowsCover(body: string, start: nat, chunkSize: int, overlap: int, p: nat)
    requires ValidConfig(chunkSize, overlap) && start <= p < |body| && 0 <= overlap
    ensures exists i :: Covers(Windows(body, start, chunkSize, overlap), i, p)
  {
    WindowsChain(body, start, chunkSize, overlap);
    ChainCovers(Windows(body, start, chunkSize, overlap), p);
  }

  /**
   * Windows that tile the body: non-empty slices whose starts strictly
   * increase, each start at or before the previous end, the last window
   * ending at the end of the body.
   */
  ghost predicate Tiling(body: string, ws: seq<(nat, nat)>) {
    && 0 < |ws|
    && (forall i :: 0 <= i < |ws| ==> ws[i].0 < ws[i].1 <= |body|)
    && (forall i, j {:trigger ws[i], ws[j]} :: 0 <= i < j < |ws| && j == i + 1 ==> ws[i].0 < ws[j].0 <= ws[i].1)
    && ws[|ws| - 1].1 == |body|
  }

  /**
   * The part of window `i` that the next window does not repeat: from its
   * start to the next window's start (or to its own end for the last one).
   */
  function FreshEnd(ws: seq<(nat, nat)>, i: nat): nat
    requires i < |ws|
  {
    if i + 1 < |ws| then ws[i + 1].0 else ws[i].1
  }

  /** Each window with its overlap into the next window dropped. */
  function FreshParts(body: string, ws: seq<(nat, nat)>): (r: seq<string>)
    requires Tiling(body, ws)
    ensures |r| == |ws|
    ensures forall i :: 0 <= i < |ws| ==> ws[i].0 <= FreshEnd(ws, i) <= ws[i].1
    ensures forall i :: 0 <= i < |ws| ==> r[i] == body[ws[i].0..FreshEnd(ws, i)]
  {
    seq(|ws|, i requires 0 <= i < |ws| => body[ws[i].0..FreshEnd(ws, i)])
  }

  /** The fresh parts of a tiling, concatenated, are the body from the first start on. */
  lemma {:induction false} TilingReassembles(body: string, ws: seq<(nat, nat)>)
    requires Tiling(body, ws)
    ensures Text.Concat(FreshParts(body, ws)) == body[ws[0].0..]
  {
    if |ws| == 1 {
      SingleWindowReassembles(body, ws);
    } else {
      var rest := ws[1..];
      FreshPartsTail(body, ws);
      TilingReassembles(body, rest);
      var parts := FreshParts(body, ws);
      assert Text.Concat(parts) == parts[0] + Text.Concat(FreshParts(body, rest));
      SplitSuffix(body, ws[0].0, ws[1].0);
    }
  }

  lemma SplitSuffix(s: string, a: nat, b: nat)
    requires a <= b <= |s|
    ensures s[a..] == s[a..b] + s[b..]
  {
  }

  lemma SingleWindowReassembles(body: string, ws: seq<(nat, nat)>)
    requires Tiling(body, ws) && |ws| == 1
    ensures Text.Concat(FreshParts(body, ws)) == body[ws[0].0..]
  {
    var parts := FreshParts(body, ws);
    assert parts[0] == body[ws[0].0..];
    assert Text.Concat(parts) == parts[0] + Text.Concat([]);
  }

  lemma TilingTail(body: string, ws: seq<(nat, nat)>)
    requires Tiling(body, ws) && 1 < |ws|
    ensures Tiling(body, ws[1..])
  {
    var rest := ws[1..];
    assert forall i :: 0 <= i < |rest| ==> rest[i] == ws[i + 1];
  }

  lemma FreshPartsTail(body: string, ws: seq<(nat, nat)>)
    requires Tiling(body, ws) && 1 < |ws|
    ensures Tiling(body, ws[1..])
    ensures FreshParts(body, ws)[1..] == FreshParts(body, ws[1..])
  {
    TilingTail(body, ws);
    var rest := ws[1..];
    var a := FreshParts(body, ws);
    var b := FreshParts(body, rest);
    forall i | 0 <= i < |b| ensures a[1..][i] == b[i] {
      assert rest[i] == ws[i + 1];
      assert FreshEnd(ws, i + 1) == FreshEnd(rest, i);
      assert a[1..][i] == a[i + 1];
    }
  }

  /**
   * With a non-negative overlap the windows tile the body: dropping the
   * overlap regions and concatenating what is left of each window gives
   * back the body.
   */
  lemma WindowsReassemble(body: string, chunkSize: int, overlap: int)
    requires ValidConfig(chunkSize, overlap) && 0 < |body| && 0 <= overlap
    ensures Tiling(body, Windows(body, 0, chunkSize, overlap))
    ensures Text.Concat(FreshParts(body, Windows(body, 0, chunkSize, overlap))) == body
  {
    WindowsTiling(body, 0, chunkSize, overlap);
    TilingReassembles(body, Windows(body, 0, chunkSize, overlap));
  }

  /** With a non-negative overlap the windows tile the body from `start` on. */
  lemma WindowsTiling(body: string, start: nat, chunkSize: int, overlap: int)
    requires ValidConfig(chunkSize, overlap) && start < |body| && 0 <= overlap
    ensures Tiling(body, Windows(body, start, chunkSize, overlap))
  {
    var ws := Windows(body, start, chunkSize, overlap);
    WindowsChain(body, start, chunkSize, overlap);
    StepAtMostChunkSize(chunkSize, overlap);
    forall i, j | 0 <= i < j < |ws| && j == i + 1 ensures ws[i].0 < ws[j].0 <= ws[i].1 {
      assert ws[j].0 == ws[i].0 + Step(chunkSize, overlap);
    }
  }

  /**
   * `_chunk_text(header, body)`: `[header.strip()]` for an empty body,
   * otherwise the header followed by each window of the body.
   */
  function ChunkText(header: string, body: string, chunkSize: int, overlap: int): (r: seq<string>)
    requires ValidConfig(chunkSize, overlap)
    ensures 0 < |r|
    ensures |body| == 0 ==> r == [Text.Strip(header)]
    ensures 0 < |body| ==> forall i :: 0 <= i < |r| ==> |header| < |r[i]| && r[i][..|header|] == header
  {
    if |body| == 0 then [Text.Strip(header)]
    else
      var ws := Windows(body, 0, chunkSize, overlap);
      seq(|ws|, i requires 0 <= i < |ws| => header + body[ws[i].0..ws[i].1])
  }

  /**
   * Chunks of a non-empty body pair up with the windows: the i-th chunk is
   * the header followed by the i-th window's slice.
   */
  lemma ChunksAreWindows(header: string, body: string, chunkSize: int, overlap: int)
    requires ValidConfig(chunkSize, overlap) && 0 < |body|
    ensures var ws := Windows(body, 0, chunkSize, overlap);
      var r := ChunkText(header, body, chunkSize, overlap);
      && |r| == |ws|
      && forall i :: 0 <= i < |ws| ==> 0 <= ws[i].0 < ws[i].1 <= |body| && r[i] == header + body[ws[i].0..ws[i].1]
  {
  }

  /** A body that fits in one window gives exactly one chunk holding all of it. */
  lemma ShortBodyIsOneChunk(header: string, body: string, chunkSize: int, overlap: int)
    requires ValidConfig(chunkSize, overlap) && 0 < |body| <= chunkSize
    ensures ChunkText(header, body, chunkSize, overlap) == [header + body]
  {
    assert body[0..|body|] == body;
  }
}
