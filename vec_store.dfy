/**
 * Retrieval post-processing: turning the nearest-neighbour matches (chunk
 * ids with cosine distances, nearest first) into citations with shaped
 * snippets, and the best similarity score the escalation policy reads.
 * The vector search and the database are inputs: the matches as a list and
 * the joined chunk/document rows as a table keyed by chunk id.
 */
module VecStore {
  import opened Schemas
  import Text

  /** A chunk joined with its document: what the citation query selects. */
  datatype ChunkRow = ChunkRow(
    chunkId: string,
    docTitle: string,
    category: string,
    sourcePath: string,
    sectionTitle: string,
    text: string)

  /** A nearest-neighbour match: a chunk id and its cosine distance. */
  datatype Match = Match(chunkId: string, distance: real)

  /** The longest snippet, in characters, shown as it is. */
  const SnippetLimit := 240

  /** The text stripped, with its newlines turned into spaces. */
  function NormalizeSnippet(text: string): (s: string)
    ensures |s| <= |text|
    ensures forall i :: 0 <= i < |s| ==> s[i] != '\n'
  {
    Text.ReplaceChar(Text.Strip(text), '\n', ' ')
  }

  /** The snippet shown: the normalised text, cut to 240 characters, right-trimmed and marked with "..." when longer. */
  function ShapeSnippet(text: string): (r: string)
    ensures |r| <= SnippetLimit + 3
    ensures |NormalizeSnippet(text)| <= SnippetLimit ==> r == NormalizeSnippet(text)
    ensures |NormalizeSnippet(text)| > SnippetLimit ==>
      Text.EndsWith(r, "...") && Text.StartsWith(NormalizeSnippet(text), r[..|r| - 3])
  {
    var s := NormalizeSnippet(text);
    if |s| > SnippetLimit then
      var cut := Text.RStrip(s[..SnippetLimit]);
      Text.RStripPrefix(s[..SnippetLimit]);
      assert (cut + "...")[..|cut|] == cut;
      cut + "..."
    else s
  }

  /** A shaped snippet has no newline. */
  lemma ShapeSnippetOneLine(text: string)
    ensures forall i :: 0 <= i < |ShapeSnippet(text)| ==> ShapeSnippet(text)[i] != '\n'
  {
    var s := NormalizeSnippet(text);
    var r := ShapeSnippet(text);
    if |s| > SnippetLimit {
      var k := |r| - 3;
      forall i | 0 <= i < |r| ensures r[i] != '\n' {
        if i < k {
          assert r[i] == r[..k][i] == s[i];
        } else {
          assert r[i] == r[k..][i - k] == "..."[i - k];
        }
      }
    }
  }

  /** A snippet is cut only when it is longer than the limit. */
  lemma ShortSnippetKept(text: string)
    requires |Text.Strip(text)| <= SnippetLimit
    ensures ShapeSnippet(text) == Text.ReplaceChar(Text.Strip(text), '\n', ' ')
  {
  }

  /** The citation made from one row: the source path and section as id, document and section as title. */
  function CitationFor(row: ChunkRow): Citation {
    Citation(row.sourcePath + "#" + row.sectionTitle, row.docTitle + " — " + row.sectionTitle, ShapeSnippet(row.text))
  }

  /** The citation's id is the source path, "#" and the section; its title the document title, " — " and the section. */
  lemma CitationForShape(row: ChunkRow)
    ensures var c := CitationFor(row);
      && Text.StartsWith(c.sourceId, row.sourcePath + "#") && Text.EndsWith(c.sourceId, row.sectionTitle)
      && |c.sourceId| == |row.sourcePath| + 1 + |row.sectionTitle|
      && Text.StartsWith(c.title, row.docTitle + " — ") && Text.EndsWith(c.title, row.sectionTitle)
      && |c.title| == |row.docTitle| + 3 + |row.sectionTitle|
      && c.snippet == ShapeSnippet(row.text)
  {
    var c := CitationFor(row);
    assert c.sourceId[..|row.sourcePath + "#"|] == row.sourcePath + "#";
    assert c.sourceId[|c.sourceId| - |row.sectionTitle|..] == row.sectionTitle;
    assert c.title[..|row.docTitle + " — "|] == row.docTitle + " — ";
    assert c.title[|c.title| - |row.sectionTitle|..] == row.sectionTitle;
  }

  /** The ids that have a row, in the order given. */
  function Present(ids: seq<string>, table: map<string, ChunkRow>): (r: seq<string>)
    ensures |r| <= |ids|
    ensures forall i :: 0 <= i < |r| ==> r[i] in table
  {
    if ids == [] then []
    else
      var last := ids[|ids| - 1];
      Present(ids[..|ids| - 1], table) + (if last in table then [last] else [])
  }

  /** The citations for `ids`: one per id that has a row, in the order of `ids`. */
  function Citations(ids: seq<string>, table: map<string, ChunkRow>): (r: seq<Citation>)
    ensures |r| <= |ids|
  {
    if ids == [] then []
    else
      var last := ids[|ids| - 1];
      Citations(ids[..|ids| - 1], table) + (if last in table then [CitationFor(table[last])] else [])
  }

  /** `fetch_citations`: no query for no ids; otherwise the rows are looked up id by id, skipping ids without one. */
  method FetchCitations(ids: seq<string>, table: map<string, ChunkRow>) returns (cits: seq<Citation>)
    ensures cits == Citations(ids, table)
  {
    if ids == [] {
      return [];
    }
    cits := [];
    for i := 0 to |ids|
      invariant cits == Citations(ids[..i], table)
    {
      assert ids[..i + 1][..i] == ids[..i];
      var cid := ids[i];
      if cid in table {
        var r := table[cid];
        var snippet := NormalizeSnippet(r.text);
        if |snippet| > SnippetLimit {
          snippet := Text.RStrip(snippet[..SnippetLimit]) + "...";
        }
        cits := cits + [Citation(r.sourcePath + "#" + r.sectionTitle, r.docTitle + " — " + r.sectionTitle, snippet)];
      }
    }
    assert ids[..|ids|] == ids;
  }

  /**
   * The citations are those of the ids that have a row, one each, in input
   * order; an id without a row is skipped; an id with a row is never dropped.
   */
  lemma {:induction false} CitationsInOrder(ids: seq<string>, table: map<string, ChunkRow>)
    ensures var p := Present(ids, table); var c := Citations(ids, table);
      && |c| == |p|
      && (forall i :: 0 <= i < |c| ==> c[i] == CitationFor(table[p[i]]))
      && (forall id :: id in ids && id in table ==> id in p)
      && (forall id :: id in p ==> id in ids)
  {
    if ids != [] {
      var init := ids[..|ids| - 1];
      CitationsInOrder(init, table);
      assert ids == init + [ids[|ids| - 1]];
    }
  }

  /** When every id has a row, the i-th citation is the i-th id's. */
  lemma AllPresentCitations(ids: seq<string>, table: map<string, ChunkRow>)
    requires forall id :: id in ids ==> id in table
    ensures |Citations(ids, table)| == |ids|
    ensures forall i :: 0 <= i < |ids| ==> Citations(ids, table)[i] == CitationFor(table[ids[i]])
  {
    AllPresent(ids, table);
    CitationsInOrder(ids, table);
  }

  lemma {:induction false} AllPresent(ids: seq<string>, table: map<string, ChunkRow>)
    requires forall id :: id in ids ==> id in table
    ensures Present(ids, table) == ids
  {
    if ids != [] {
      AllPresent(ids[..|ids| - 1], table);
      assert ids == ids[..|ids| - 1] + [ids[|ids| - 1]];
    }
  }

  /** The similarity shown for a distance: `max(0, 1 - d)`. */
  function Score(distance: real): (s: real)
    ensures s >= 0.0 && s >= 1.0 - distance
    ensures s == 0.0 || s == 1.0 - distance
  {
    if 1.0 - distance > 0.0 then 1.0 - distance else 0.0
  }

  predicate SortedByDistance(matches: seq<Match>) {
    forall i, j :: 0 <= i < j < |matches| ==> matches[i].distance <= matches[j].distance
  }

  /** The best score of the matches: that of the first, which is the nearest; 0 when there is none. */
  function BestScore(matches: seq<Match>): (b: real)
    ensures b >= 0.0
    ensures matches == [] ==> b == 0.0
  {
    if matches == [] then 0.0 else Score(matches[0].distance)
  }

  /** With the matches nearest first, the best score is the largest score of any match. */
  lemma BestScoreIsMax(matches: seq<Match>)
    requires SortedByDistance(matches)
    ensures forall i :: 0 <= i < |matches| ==> Score(matches[i].distance) <= BestScore(matches)
    ensures matches != [] ==> exists i :: 0 <= i < |matches| && Score(matches[i].distance) == BestScore(matches)
  {
    if matches != [] {
      forall i | 0 <= i < |matches| ensures Score(matches[i].distance) <= BestScore(matches) {
        assert matches[0].distance <= matches[i].distance;
      }
      assert Score(matches[0].distance) == BestScore(matches);
    }
  }

  /** Cosine distances lie in [0, 2], so the best score lies in [0, 1]. */
  lemma BestScoreBounded(matches: seq<Match>)
    requires forall i :: 0 <= i < |matches| ==> 0.0 <= matches[i].distance <= 2.0
    ensures 0.0 <= BestScore(matches) <= 1.0
  {
  }

  /** A citation's snippet with its score label in front, `[{score:.2f}] {snippet}`, the number formatted by `fmt`. */
  function Labelled(c: Citation, score: real, fmt: real -> string): Citation {
    Citation(c.sourceId, c.title, "[" + fmt(score) + "] " + c.snippet)
  }

  function Ids(matches: seq<Match>): (ids: seq<string>)
    ensures |ids| == |matches|
    ensures forall i :: 0 <= i < |matches| ==> ids[i] == matches[i].chunkId
  {
    seq(|matches|, i requires 0 <= i < |matches| => matches[i].chunkId)
  }

  /**
   * As written: the citations are labelled position by position with the
   * distances of the matches, `zip(citations, distances)`, although a match
   * without a row has no citation, which shifts every later label.
   */
  function LabelledAsWritten(matches: seq<Match>, table: map<string, ChunkRow>, fmt: real -> string): (r: seq<Citation>)
    ensures |r| == |Citations(Ids(matches), table)|
  {
    var cits := Citations(Ids(matches), table);
    seq(|cits|, i requires 0 <= i < |cits| => Labelled(cits[i], 1.0 - matches[i].distance, fmt))
  }

  /** `retrieve_with_scores` as written: one label per citation found, and the best score; no matches give `([], 0)`. */
  function RetrieveWithScoresAsWritten(matches: seq<Match>, table: map<string, ChunkRow>, fmt: real -> string)
    : (r: (seq<Citation>, real))
    ensures matches == [] ==> r == ([], 0.0)
    ensures matches != [] ==> |r.0| == |Citations(Ids(matches), table)| <= |matches| && r.1 == BestScore(matches)
  {
    if matches == [] then ([], 0.0)
    else (LabelledAsWritten(matches, table, fmt), BestScore(matches))
  }

  /**
   * The mislabelling: with the nearest match missing its row, the only
   * citation, which is the second match's, carries the first match's score.
   */
  lemma AsWrittenMislabels(a: ChunkRow, b: ChunkRow, fmt: real -> string)
    requires a.chunkId != b.chunkId
    ensures var matches := [Match(a.chunkId, 0.1), Match(b.chunkId, 0.5)];
      var table := map[b.chunkId := b];
      RetrieveWithScoresAsWritten(matches, table, fmt).0
        == [Labelled(CitationFor(b), 1.0 - 0.1, fmt)]
  {
    var matches := [Match(a.chunkId, 0.1), Match(b.chunkId, 0.5)];
    var table := map[b.chunkId := b];
    assert Ids(matches) == [a.chunkId, b.chunkId];
    assert Ids(matches)[..1] == [a.chunkId];
    assert Ids(matches)[..1][..0] == [];
    assert Citations([a.chunkId], table) == [];
  }

  /** The citation of a match that has a row, labelled with that match's own score. */
  function LabelFor(m: Match, table: map<string, ChunkRow>, fmt: real -> string): Citation
    requires m.chunkId in table
  {
    Labelled(CitationFor(table[m.chunkId]), 1.0 - m.distance, fmt)
  }

  /** The matches that have a row, in order. */
  function PresentMatches(matches: seq<Match>, table: map<string, ChunkRow>): (r: seq<Match>)
    ensures |r| <= |matches|
    ensures forall i :: 0 <= i < |r| ==> r[i].chunkId in table
  {
    if matches == [] then []
    else
      var m := matches[|matches| - 1];
      PresentMatches(matches[..|matches| - 1], table) + (if m.chunkId in table then [m] else [])
  }

  /** The labelled citations: each match with a row gives its citation, labelled with that match's own score. */
  function LabelledCitations(matches: seq<Match>, table: map<string, ChunkRow>, fmt: real -> string): (r: seq<Citation>)
    ensures |r| <= |matches|
  {
    if matches == [] then []
    else
      var m := matches[|matches| - 1];
      LabelledCitations(matches[..|matches| - 1], table, fmt)
        + (if m.chunkId in table then [LabelFor(m, table, fmt)] else [])
  }

  /** `retrieve_with_scores` with each citation labelled by its own match: no matches give no citations and score 0. */
  method RetrieveWithScores(matches: seq<Match>, table: map<string, ChunkRow>, fmt: real -> string)
    returns (cits: seq<Citation>, best: real)
    ensures cits == LabelledCitations(matches, table, fmt)
    ensures best == BestScore(matches)
  {
    if matches == [] {
      return [], 0.0;
    }
    cits := [];
    for i := 0 to |matches|
      invariant cits == LabelledCitations(matches[..i], table, fmt)
    {
      LabelledStep(matches, i, table, fmt);
      var m := matches[i];
      if m.chunkId in table {
        cits := cits + [LabelFor(m, table, fmt)];
      }
    }
    assert matches[..|matches|] == matches;
    best := Score(matches[0].distance);
  }

  /** One more match extends the labelled citations by its own, if it has a row. */
  lemma LabelledStep(matches: seq<Match>, i: nat, table: map<string, ChunkRow>, fmt: real -> string)
    requires i < |matches|
    ensures LabelledCitations(matches[..i + 1], table, fmt)
      == LabelledCitations(matches[..i], table, fmt)
         + (if matches[i].chunkId in table then [LabelFor(matches[i], table, fmt)] else [])
  {
    assert matches[..i + 1][..i] == matches[..i];
  }

  /**
   * The corrected labelling keeps the citations of `fetch_citations`, in
   * order, and labels the i-th with the score of the i-th match that has a
   * row, the match it was made from.
   */
  lemma LabelledCitationsOwnScore(matches: seq<Match>, table: map<string, ChunkRow>, fmt: real -> string)
    ensures var r := LabelledCitations(matches, table, fmt);
      var c := Citations(Ids(matches), table);
      var p := PresentMatches(matches, table);
      && |r| == |c| == |p|
      && forall i :: 0 <= i < |r| ==>
           c[i] == CitationFor(table[p[i].chunkId]) && r[i] == Labelled(c[i], 1.0 - p[i].distance, fmt)
  {
    CitationsFromPresent(matches, table);
    LabelledFromPresent(matches, table, fmt);
  }

  lemma {:induction false} LabelledFromPresent(matches: seq<Match>, table: map<string, ChunkRow>, fmt: real -> string)
    ensures var r := LabelledCitations(matches, table, fmt);
      var p := PresentMatches(matches, table);
      && |r| == |p|
      && forall i :: 0 <= i < |r| ==> r[i] == LabelFor(p[i], table, fmt)
  {
    if matches != [] {
      var init := matches[..|matches| - 1];
      var m := matches[|matches| - 1];
      LabelledFromPresent(init, table, fmt);
      var r0 := LabelledCitations(init, table, fmt);
      var p0 := PresentMatches(init, table);
      if m.chunkId in table {
        assert LabelledCitations(matches, table, fmt) == r0 + [LabelFor(m, table, fmt)];
        assert PresentMatches(matches, table) == p0 + [m];
      } else {
        assert LabelledCitations(matches, table, fmt) == r0;
        assert PresentMatches(matches, table) == p0;
      }
    }
  }

  lemma {:induction false} CitationsFromPresent(matches: seq<Match>, table: map<string, ChunkRow>)
    ensures var c := Citations(Ids(matches), table);
      var p := PresentMatches(matches, table);
      && |c| == |p|
      && forall i :: 0 <= i < |c| ==> c[i] == CitationFor(table[p[i].chunkId])
  {
    if matches != [] {
      var init := matches[..|matches| - 1];
      var m := matches[|matches| - 1];
      CitationsFromPresent(init, table);
      var c0 := Citations(Ids(init), table);
      var p0 := PresentMatches(init, table);
      IdsSplit(matches);
      if m.chunkId in table {
        assert Citations(Ids(matches), table) == c0 + [CitationFor(table[m.chunkId])];
        assert PresentMatches(matches, table) == p0 + [m];
      } else {
        assert Citations(Ids(matches), table) == c0;
        assert PresentMatches(matches, table) == p0;
      }
    }
  }

  lemma IdsSplit(matches: seq<Match>)
    requires matches != []
    ensures Ids(matches)[..|matches| - 1] == Ids(matches[..|matches| - 1])
    ensures Ids(matches)[|matches| - 1] == matches[|matches| - 1].chunkId
  {
  }

  /** On the same input the corrected labels follow the match each citation came from. */
  lemma CorrectedLabelsOwnScore(a: ChunkRow, b: ChunkRow, fmt: real -> string)
    requires a.chunkId != b.chunkId
    ensures var matches := [Match(a.chunkId, 0.1), Match(b.chunkId, 0.5)];
      LabelledCitations(matches, map[b.chunkId := b], fmt) == [Labelled(CitationFor(b), 1.0 - 0.5, fmt)]
  {
    var matches := [Match(a.chunkId, 0.1), Match(b.chunkId, 0.5)];
    assert matches[..1] == [Match(a.chunkId, 0.1)];
    assert matches[..1][..0] == [];
  }
}
