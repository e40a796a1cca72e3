/**
 * The TF-IDF index builder's text chunker: the text is normalised (each line
 * right-stripped, the whole stripped) and cut into windows of at most
 * `maxChars` characters, each starting `overlap` characters before the
 * previous one ended. Reading the files, the vectoriser and the pickled index
 * are left to the file system and the library.
 */
module IngestKb {
  import Text

  /** `"\n".join(line.rstrip() for line in text.splitlines()).strip()`. */
  function Normalize(text: string): string {
    var lines := Text.SplitLines(text);
    Text.Strip(Text.Join("\n", seq(|lines|, i requires 0 <= i < |lines| => Text.RStrip(lines[i]))))
  }

  /** The normalised text neither starts nor ends with a space, so normalising it again changes nothing at its ends. */
  lemma NormalizeStripped(text: string)
    ensures Text.Strip(Normalize(text)) == Normalize(text)
  {
    var lines := Text.SplitLines(text);
    Text.StripIdempotent(Text.Join("\n", seq(|lines|, i requires 0 <= i < |lines| => Text.RStrip(lines[i]))));
  }

  /** A window `t[lo:hi]` of the normalised text. */
  datatype Span = Span(lo: nat, hi: nat)

  /** `min(n, start + maxChars)`: where the window starting at `start` ends. */
  function WindowEnd(n: nat, start: nat, maxChars: int): (r: nat)
    requires 0 < maxChars
    ensures r <= n && r <= start + maxChars
    ensures start < n ==> start < r && (r < n ==> r == start + maxChars)
  {
    if n < start + maxChars then n else start + maxChars
  }

  /** `end - overlap`, clamped at 0: where the next window starts. */
  function NextStart(end: nat, overlap: int): (r: nat)
    ensures 0 <= overlap <= end ==> r == end - overlap
    ensures overlap <= 0 ==> r == end - overlap
  {
    if end - overlap < 0 then 0 else end - overlap
  }

  /**
   * The windows the loop cuts from a text of length `n` once `start` has
   * passed its guard `start < n`: this window, then the rest unless this one
   * reached the end (the `break`) or the next start is past it (the guard).
   */
  function Spans(n: nat, start: nat, maxChars: int, overlap: int): (r: seq<Span>)
    requires start < n && 0 < maxChars && overlap < maxChars
    ensures r != [] && r[0] == Span(start, WindowEnd(n, start, maxChars))
    decreases n - start
  {
    var end := WindowEnd(n, start, maxChars);
    var next := NextStart(end, overlap);
    [Span(start, end)] + if end == n || next >= n then [] else Spans(n, next, maxChars, overlap)
  }

  /** All the windows of a text of length `n`: none for an empty text. */
  function AllSpans(n: nat, maxChars: int, overlap: int): seq<Span>
    requires 0 < maxChars && overlap < maxChars
  {
    if n == 0 then [] else Spans(n, 0, maxChars, overlap)
  }

  /** `t[lo:hi]` for a window inside the text. */
  function Slice(t: string, s: Span): string {
    if s.lo <= s.hi <= |t| then t[s.lo..s.hi] else []
  }

  /** The text of each window. */
  function Pieces(t: string, spans: seq<Span>): seq<string> {
    if spans == [] then [] else [Slice(t, spans[0])] + Pieces(t, spans[1..])
  }

  /** The chunks of a normalised text `t`. */
  function ChunksOf(t: string, maxChars: int, overlap: int): seq<string>
    requires 0 < maxChars && overlap < maxChars
  {
    Pieces(t, AllSpans(|t|, maxChars, overlap))
  }

  /** `chunk_text(text, maxChars, overlap)`. */
  function Chunks(text: string, maxChars: int, overlap: int): seq<string>
    requires 0 < maxChars && overlap < maxChars
  {
    ChunksOf(Normalize(text), maxChars, overlap)
  }

  /** The windows still to be cut when the loop is at `start`. */
  function Remaining(n: nat, start: nat, maxChars: int, overlap: int): seq<Span>
    requires 0 < maxChars && overlap < maxChars
  {
    if start < n then Spans(n, start, maxChars, overlap) else []
  }

  /** One turn of the loop: the text of the first window still to be cut, then the texts of the ones after it. */
  lemma PiecesStep(t: string, start: nat, maxChars: int, overlap: int)
    requires start < |t| && 0 < maxChars && overlap < maxChars
    ensures var end := WindowEnd(|t|, start, maxChars);
      Pieces(t, Remaining(|t|, start, maxChars, overlap))
        == [t[start..end]] + if end == |t| then [] else Pieces(t, Remaining(|t|, NextStart(end, overlap), maxChars, overlap))
  {
    var end := WindowEnd(|t|, start, maxChars);
    var r := Spans(|t|, start, maxChars, overlap);
    var rest := if end == |t| then [] else Remaining(|t|, NextStart(end, overlap), maxChars, overlap);
    assert r[1..] == rest;
  }

  lemma AppendAssoc<T>(a: seq<T>, b: seq<T>, c: seq<T>)
    ensures a + (b + c) == (a + b) + c
  {
  }

  /** What one turn of the loop appends, and what is left to cut after it. */
  lemma LoopStep(t: string, start: nat, maxChars: int, overlap: int, chunks: seq<string>)
    requires start < |t| && 0 < maxChars && overlap < maxChars
    ensures var end := WindowEnd(|t|, start, maxChars);
      && (end == |t| ==> chunks + Pieces(t, Remaining(|t|, start, maxChars, overlap)) == chunks + [t[start..end]])
      && (end < |t| ==>
            chunks + Pieces(t, Remaining(|t|, start, maxChars, overlap))
              == (chunks + [t[start..end]]) + Pieces(t, Remaining(|t|, NextStart(end, overlap), maxChars, overlap)))
  {
    var end := WindowEnd(|t|, start, maxChars);
    var rest := if end == |t| then [] else Pieces(t, Remaining(|t|, NextStart(end, overlap), maxChars, overlap));
    PiecesStep(t, start, maxChars, overlap);
    AppendAssoc(chunks, [t[start..end]], rest);
    if end == |t| {
      assert [t[start..end]] + rest == [t[start..end]];
    }
  }

  /** `chunk_text`: the text is normalised, then cut into windows. */
  method ChunkText(text: string, maxChars: int, overlap: int) returns (chunks: seq<string>)
    requires 0 < maxChars && overlap < maxChars
    ensures chunks == Chunks(text, maxChars, overlap)
  {
    var t := Normalize(text);
    chunks := ChunkNormalized(t, maxChars, overlap);
  }

  /**
   * The loop of `chunk_text` over the normalised text `t`: it appends the
   * window `t[start:end]` and moves `start` to `end - overlap` (at least 0)
   * until the window reaches the end of the text. It ends only when
   * `overlap < maxChars`.
   */
  method ChunkNormalized(t: string, maxChars: int, overlap: int) returns (chunks: seq<string>)
    requires 0 < maxChars && overlap < maxChars
    ensures chunks == ChunksOf(t, maxChars, overlap)
  {
    if t == [] {
      return [];
    }
    chunks := [];
    var start := 0;
    while start < |t|
      invariant 0 <= start
      invariant chunks + Pieces(t, Remaining(|t|, start, maxChars, overlap)) == ChunksOf(t, maxChars, overlap)
      decreases |t| - start
    {
      var end := WindowEnd(|t|, start, maxChars);
      var chunk := t[start..end];
      LoopStep(t, start, maxChars, overlap, chunks);
      chunks := chunks + [chunk];
      start := end - overlap;
      if start < 0 {
        start := 0;
      }
      if end == |t| {
        break;
      }
    }
  }

  // ---------------------------------------------------------------------
  // Properties of the windows
  // ---------------------------------------------------------------------

  /** Every window lies in the text from `start` on, and ends `maxChars` after its start or at the end of the text. */
  lemma {:induction false} SpanAt(n: nat, start: nat, maxChars: int, overlap: int, k: nat)
    requires start < n && 0 < maxChars && overlap < maxChars
    requires k < |Spans(n, start, maxChars, overlap)|
    ensures var r := Spans(n, start, maxChars, overlap);
      start <= r[k].lo < r[k].hi <= n && r[k].hi == WindowEnd(n, r[k].lo, maxChars)
    decreases n - start
  {
    if k > 0 {
      var r := Spans(n, start, maxChars, overlap);
      var next := NextStart(WindowEnd(n, start, maxChars), overlap);
      var rest := Spans(n, next, maxChars, overlap);
      assert r[1..] == rest;
      SpanAt(n, next, maxChars, overlap, k - 1);
      assert r[k] == rest[k - 1];
    }
  }

  /** Every window but the last ends before the text does, and the next one starts `overlap` before its end (at least 0). */
  lemma {:induction false} SpansLink(n: nat, start: nat, maxChars: int, overlap: int, k: nat)
    requires start < n && 0 < maxChars && overlap < maxChars
    requires k + 1 < |Spans(n, start, maxChars, overlap)|
    ensures var r := Spans(n, start, maxChars, overlap);
      r[k].hi < n && r[k + 1].lo == NextStart(r[k].hi, overlap)
    decreases n - start
  {
    var r := Spans(n, start, maxChars, overlap);
    var end := WindowEnd(n, start, maxChars);
    var next := NextStart(end, overlap);
    var rest := Spans(n, next, maxChars, overlap);
    assert r[1..] == rest;
    if k > 0 {
      SpansLink(n, next, maxChars, overlap, k - 1);
      assert r[k] == rest[k - 1] && r[k + 1] == rest[k];
    }
  }

  /** With a non-negative overlap the last window ends at the end of the text. */
  lemma {:induction false} SpansReachEnd(n: nat, start: nat, maxChars: int, overlap: int)
    requires start < n && 0 < maxChars && 0 <= overlap < maxChars
    ensures var r := Spans(n, start, maxChars, overlap); r[|r| - 1].hi == n
    decreases n - start
  {
    var end := WindowEnd(n, start, maxChars);
    var next := NextStart(end, overlap);
    if !(end == n || next >= n) {
      SpansReachEnd(n, next, maxChars, overlap);
    }
  }

  /** With a non-negative overlap every position from `start` on lies in some window. */
  lemma {:induction false} SpansCover(n: nat, start: nat, maxChars: int, overlap: int, i: nat)
    requires start <= i < n && 0 < maxChars && 0 <= overlap < maxChars
    ensures exists k :: 0 <= k < |Spans(n, start, maxChars, overlap)| && Spans(n, start, maxChars, overlap)[k].lo <= i < Spans(n, start, maxChars, overlap)[k].hi
    decreases n - start
  {
    var r := Spans(n, start, maxChars, overlap);
    var end := WindowEnd(n, start, maxChars);
    if i < end {
      assert r[0].hi == end;
      assert r[0].lo <= i < r[0].hi;
    } else {
      var next := NextStart(end, overlap);
      var rest := Spans(n, next, maxChars, overlap);
      assert r[1..] == rest;
      SpansCover(n, next, maxChars, overlap, i);
      var k :| 0 <= k < |rest| && rest[k].lo <= i < rest[k].hi;
      assert r[k + 1] == rest[k];
    }
  }

  /** Each window's text is `t[lo:hi]`. */
  lemma {:induction false} PiecesAt(t: string, spans: seq<Span>, k: nat)
    requires k < |spans| && spans[k].lo <= spans[k].hi <= |t|
    ensures |Pieces(t, spans)| == |spans|
    ensures Pieces(t, spans)[k] == t[spans[k].lo..spans[k].hi]
  {
    if k > 0 {
      PiecesAt(t, spans[1..], k - 1);
    } else {
      PiecesLength(t, spans);
    }
  }

  lemma {:induction false} PiecesLength(t: string, spans: seq<Span>)
    ensures |Pieces(t, spans)| == |spans|
  {
    if spans != [] {
      PiecesLength(t, spans[1..]);
    }
  }

  /** `text[n:]` of a chunk, or nothing when it is shorter. */
  function Drop(s: string, n: nat): string {
    if n <= |s| then s[n..] else []
  }

  function DropEach(cs: seq<string>, n: nat): string {
    if cs == [] then [] else Drop(cs[0], n) + DropEach(cs[1..], n)
  }

  /** The chunks put back together: the first whole, then each of the others without its first `overlap` characters. */
  function Glue(cs: seq<string>, overlap: nat): string {
    if cs == [] then [] else cs[0] + DropEach(cs[1..], overlap)
  }

  /** The text of the first window, without its first `overlap` characters, then the texts of the windows after it. */
  lemma DropEachCons(a: string, cs: seq<string>, overlap: nat)
    ensures DropEach([a] + cs, overlap) == Drop(a, overlap) + DropEach(cs, overlap)
  {
    assert ([a] + cs)[1..] == cs;
  }

  /** The windows still to be cut at `start`, without their overlaps, spell out the text from `start + overlap` on. */
  lemma GlueCons(a: string, cs: seq<string>, overlap: nat)
    ensures Glue([a] + cs, overlap) == a + DropEach(cs, overlap)
  {
    assert ([a] + cs)[1..] == cs;
  }

  /**
   * Windows of `t` that start at `start`, each reaching at least `overlap`
   * past its start, each starting `overlap` before the end of the one
   * before it, the last ending with the text.
   */
  predicate Chain(t: string, start: nat, overlap: nat, spans: seq<Span>)
    decreases |spans|
  {
    && spans != []
    && spans[0].lo == start && start + overlap <= spans[0].hi <= |t|
    && (if |spans| == 1 then spans[0].hi == |t|
        else spans[1].lo + overlap == spans[0].hi && Chain(t, spans[1].lo, overlap, spans[1..]))
  }

  /** From a start at least `overlap` before the end of the text, the loop's windows form a chain. */
  lemma {:induction false} SpansChain(t: string, start: nat, maxChars: int, overlap: nat)
    requires start < |t| && start + overlap <= |t| && 0 < maxChars && overlap < maxChars
    ensures Chain(t, start, overlap, Spans(|t|, start, maxChars, overlap))
    decreases |t| - start
  {
    var n := |t|;
    var r := Spans(n, start, maxChars, overlap);
    var end := WindowEnd(n, start, maxChars);
    var next := NextStart(end, overlap);
    if end < n && next < n {
      var rest := Spans(n, next, maxChars, overlap);
      assert r[1..] == rest;
      SpansChain(t, next, maxChars, overlap);
    }
  }

  /** The first window of a chain without its overlap, then the rest of the chain without theirs. */
  lemma ChainStep(t: string, start: nat, overlap: nat, spans: seq<Span>)
    requires spans != [] && spans[0].lo == start && start + overlap <= spans[0].hi <= |t|
    ensures DropEach(Pieces(t, spans), overlap)
      == t[start + overlap..spans[0].hi] + DropEach(Pieces(t, spans[1..]), overlap)
  {
    var h := spans[0].hi;
    var tail := Pieces(t, spans[1..]);
    assert Slice(t, spans[0]) == t[start..h];
    assert Pieces(t, spans) == [t[start..h]] + tail;
    DropEachCons(t[start..h], tail, overlap);
  }

  /** A chain's texts, each but the first without its first `overlap` characters, spell out the text from `start + overlap` on. */
  lemma {:induction false} ChainDrop(t: string, start: nat, overlap: nat, spans: seq<Span>)
    requires Chain(t, start, overlap, spans)
    ensures DropEach(Pieces(t, spans), overlap) == t[start + overlap..]
    decreases |spans|
  {
    var h := spans[0].hi;
    ChainStep(t, start, overlap, spans);
    if |spans| == 1 {
      assert spans[1..] == [];
      assert t[start + overlap..] == t[start + overlap..h] + [];
    } else {
      ChainDrop(t, spans[1].lo, overlap, spans[1..]);
      assert t[start + overlap..] == t[start + overlap..h] + t[h..];
    }
  }

  // ---------------------------------------------------------------------
  // Properties of the chunks of a normalised text `t`
  // ---------------------------------------------------------------------

  /** No chunks exactly for an empty text. */
  lemma ChunksEmpty(t: string, maxChars: int, overlap: int)
    requires 0 < maxChars && overlap < maxChars
    ensures ChunksOf(t, maxChars, overlap) == [] <==> t == []
  {
    if t != [] {
      PiecesLength(t, Spans(|t|, 0, maxChars, overlap));
    }
  }

  /** Chunk `k` is the window `t[lo:hi]`. */
  lemma ChunkIsWindow(t: string, maxChars: int, overlap: int, k: nat)
    requires 0 < maxChars && overlap < maxChars && t != []
    requires k < |ChunksOf(t, maxChars, overlap)|
    ensures var r := Spans(|t|, 0, maxChars, overlap);
      |ChunksOf(t, maxChars, overlap)| == |r|
      && r[k].lo < r[k].hi <= |t| && r[k].hi == WindowEnd(|t|, r[k].lo, maxChars)
      && ChunksOf(t, maxChars, overlap)[k] == t[r[k].lo..r[k].hi]
  {
    var r := Spans(|t|, 0, maxChars, overlap);
    PiecesLength(t, r);
    SpanAt(|t|, 0, maxChars, overlap, k);
    PiecesAt(t, r, k);
  }

  /** Every chunk is non-empty and at most `maxChars` long, and exactly `maxChars` long unless it is the last. */
  lemma ChunkLength(t: string, maxChars: int, overlap: int, k: nat)
    requires 0 < maxChars && overlap < maxChars
    requires k < |ChunksOf(t, maxChars, overlap)|
    ensures var cs := ChunksOf(t, maxChars, overlap);
      1 <= |cs[k]| <= maxChars && (k + 1 < |cs| ==> |cs[k]| == maxChars)
  {
    ChunksEmpty(t, maxChars, overlap);
    ChunkIsWindow(t, maxChars, overlap, k);
    if k + 1 < |ChunksOf(t, maxChars, overlap)| {
      SpansLink(|t|, 0, maxChars, overlap, k);
    }
  }

  /**
   * With a non-negative overlap, each chunk but the last is followed by one
   * that is longer than `overlap` and begins with its last `overlap`
   * characters.
   */
  lemma ChunksOverlap(t: string, maxChars: int, overlap: int, k: nat)
    requires 0 <= overlap < maxChars
    requires k + 1 < |ChunksOf(t, maxChars, overlap)|
    ensures var cs := ChunksOf(t, maxChars, overlap);
      |cs[k]| == maxChars && overlap < |cs[k + 1]| && cs[k][maxChars - overlap..] == cs[k + 1][..overlap]
  {
    ChunksEmpty(t, maxChars, overlap);
    ChunkLength(t, maxChars, overlap, k);
    ChunkIsWindow(t, maxChars, overlap, k);
    ChunkIsWindow(t, maxChars, overlap, k + 1);
    SpansLink(|t|, 0, maxChars, overlap, k);
    var r := Spans(|t|, 0, maxChars, overlap);
    var cs := ChunksOf(t, maxChars, overlap);
    var hi := r[k].hi;
    assert r[k + 1].lo == hi - overlap;
    assert hi < r[k + 1].hi;
    SubSlice(t, r[k].lo, hi, maxChars - overlap, maxChars);
    SubSlice(t, r[k + 1].lo, r[k + 1].hi, 0, overlap);
  }

  lemma SubSlice(t: string, lo: nat, hi: nat, i: nat, j: nat)
    requires lo <= hi <= |t| && i <= j <= hi - lo
    ensures t[lo..hi][i..j] == t[lo + i..lo + j]
  {
    assert forall m :: 0 <= m < j - i ==> t[lo..hi][i..j][m] == t[lo + i + m];
  }

  /** With a non-negative overlap the first chunk starts the text and the last one ends it. */
  lemma ChunksEnds(t: string, maxChars: int, overlap: int)
    requires 0 <= overlap < maxChars && t != []
    ensures var cs := ChunksOf(t, maxChars, overlap);
      cs != [] && Text.StartsWith(t, cs[0]) && Text.EndsWith(t, cs[|cs| - 1])
  {
    var cs := ChunksOf(t, maxChars, overlap);
    var r := Spans(|t|, 0, maxChars, overlap);
    ChunksEmpty(t, maxChars, overlap);
    ChunkIsWindow(t, maxChars, overlap, 0);
    assert cs[0] == t[..r[0].hi];
    var last := |cs| - 1;
    ChunkIsWindow(t, maxChars, overlap, last);
    SpansReachEnd(|t|, 0, maxChars, overlap);
    assert cs[last] == t[r[last].lo..];
  }

  /** With a non-negative overlap every character of the text lies in some chunk's window. */
  lemma ChunksCover(t: string, maxChars: int, overlap: int, i: nat)
    requires 0 <= overlap < maxChars && i < |t|
    ensures exists k :: 0 <= k < |AllSpans(|t|, maxChars, overlap)| && AllSpans(|t|, maxChars, overlap)[k].lo <= i < AllSpans(|t|, maxChars, overlap)[k].hi
  {
    assert AllSpans(|t|, maxChars, overlap) == Spans(|t|, 0, maxChars, overlap);
    SpansCover(|t|, 0, maxChars, overlap, i);
  }

  /** A non-empty text of at most `maxChars` characters is one chunk. */
  lemma ShortTextOneChunk(t: string, maxChars: int, overlap: int)
    requires 0 < maxChars && overlap < maxChars
    requires t != [] && |t| <= maxChars
    ensures ChunksOf(t, maxChars, overlap) == [t]
  {
    var r := Spans(|t|, 0, maxChars, overlap);
    assert r == [Span(0, |t|)];
    assert AllSpans(|t|, maxChars, overlap) == r;
    assert r[1..] == [];
    assert Pieces(t, r) == [Slice(t, r[0])] + Pieces(t, []);
    assert t[0..|t|] == t;
  }

  /** With a non-negative overlap, gluing the chunks back together gives the text. */
  lemma GlueChunks(t: string, maxChars: int, overlap: int)
    requires 0 <= overlap < maxChars
    ensures Glue(ChunksOf(t, maxChars, overlap), overlap) == t
  {
    var n := |t|;
    if n > 0 {
      var end := WindowEnd(n, 0, maxChars);
      assert ChunksOf(t, maxChars, overlap) == Pieces(t, Remaining(n, 0, maxChars, overlap));
      PiecesStep(t, 0, maxChars, overlap);
      var tail := if end == n then [] else Pieces(t, Remaining(n, NextStart(end, overlap), maxChars, overlap));
      GlueCons(t[0..end], tail, overlap);
      if end < n {
        GlueRest(t, maxChars, overlap, end);
      } else {
        assert t[0..end] == t;
      }
    }
  }

  /** The first window whole, then the later ones without their overlaps, give the text back. */
  lemma GlueRest(t: string, maxChars: int, overlap: nat, end: nat)
    requires overlap <= end < |t| && 0 < maxChars && overlap < maxChars
    ensures t[0..end] + DropEach(Pieces(t, Remaining(|t|, NextStart(end, overlap), maxChars, overlap)), overlap) == t
  {
    var next := NextStart(end, overlap);
    SpansChain(t, next, maxChars, overlap);
    ChainDrop(t, next, overlap, Remaining(|t|, next, maxChars, overlap));
    assert t == t[0..end] + t[end..];
  }

  /** `chunk_text` of a text: no chunks for a blank one, and with a non-negative overlap the chunks glue back into the normalised text. */
  lemma ChunkTextRoundTrip(text: string, maxChars: int, overlap: int)
    requires 0 <= overlap < maxChars
    ensures Chunks(text, maxChars, overlap) == [] <==> Normalize(text) == []
    ensures Glue(Chunks(text, maxChars, overlap), overlap) == Normalize(text)
  {
    ChunksEmpty(Normalize(text), maxChars, overlap);
    GlueChunks(Normalize(text), maxChars, overlap);
  }
}
