/**
 * Loading knowledge-base files: splitting a Markdown file's `---` front
 * matter from its body, cutting the body into sections at `## ` headings,
 * choosing the sections of a YAML file, and the document metadata both
 * kinds of file yield. The YAML parser, the file system and the sha1 of the
 * path are inputs.
 */
module Ingest {
  import opened Options
  import opened Dicts
  import opened Schemas
  import Text
  import Seqs
  import StrRepr

  /** A value of a parsed YAML mapping: a scalar or a list of scalars. */
  datatype Yaml = Scalar(v: Value) | Items(items: seq<Value>)

  /** A parsed front matter or YAML file: its top-level mapping. */
  type FrontMatter = Dict<Yaml>

  /** Python's `bool(y)`. */
  predicate YamlTruthy(y: Yaml) {
    match y
    case Scalar(v) => Truthy(v)
    case Items(xs) => xs != []
  }

  /** Python's `repr` of a scalar inside a list. */
  function Repr(v: Value): string {
    match v
    case Str(s) => StrRepr.Repr(s)
    case _ => ValueText(v)
  }

  /** Python's `str(y)`. */
  function YamlText(y: Yaml): (r: string)
    ensures y.Items? ==> r != [] && r[0] == '['
  {
    match y
    case Scalar(v) => ValueText(v)
    case Items(xs) => "[" + Text.Join(", ", seq(|xs|, i requires 0 <= i < |xs| => Repr(xs[i]))) + "]"
  }

  /** A one-item list of a string is written as the item's `repr` in brackets, so `["it's"]` keeps its double quotes. */
  lemma ListTextOne(s: string)
    ensures YamlText(Items([Str(s)])) == "[" + StrRepr.Repr(s) + "]"
    ensures s == "it's" ==> YamlText(Items([Str(s)])) == "[\"it's\"]"
  {
    ListTextSingle(Str(s));
    if s == "it's" {
      StrRepr.ReprExamples();
    }
  }

  lemma ListTextSingle(v: Value)
    ensures YamlText(Items([v])) == "[" + Repr(v) + "]"
  {
    var parts := seq(1, i requires 0 <= i < 1 => Repr([v][i]));
    assert parts == [Repr(v)];
  }

  /** `str(y or default)` for a looked-up key: a present, truthy value's text, else the default. */
  function TextOr(y: Option<Yaml>, default: string): (r: string)
    ensures r == default || r != []
  {
    if y.Some? && YamlTruthy(y.value) then YamlTextNonEmpty(y.value); YamlText(y.value) else default
  }

  /** `bool(y)` implies `str(y)` is not empty. */
  lemma YamlTextNonEmpty(y: Yaml)
    requires YamlTruthy(y)
    ensures YamlText(y) != []
  {
    if y.Scalar? {
      TruthyTextNonEmpty(y.v);
    }
  }

  // ---------------------------------------------------------------------
  // Front matter
  // ---------------------------------------------------------------------

  /** The first index at or after `i` where `sub` occurs in `s`. */
  function FindFrom(s: string, sub: string, i: nat): (r: Option<nat>)
    ensures r.Some? ==> i <= r.value && Text.OccursAt(s, sub, r.value)
    ensures forall k :: i <= k && (r.None? || k < r.value) ==> !Text.OccursAt(s, sub, k)
    decreases |s| - i
  {
    if i + |sub| > |s| then None
    else if Text.OccursAt(s, sub, i) then Some(i)
    else FindFrom(s, sub, i + 1)
  }

  /** The text opens with `---` and has a second `---` after it. */
  predicate HasFrontMatter(text: string) {
    Text.StartsWith(text, "---") && FindFrom(text, "---", 3).Some?
  }

  /**
   * `_split_front_matter`: for `---<fm>---<rest>`, the parsed `fm` (an empty
   * mapping when it fails to parse or is empty) and `rest` without its
   * leading newlines; any other text is returned whole with no front matter.
   * `parse` is the YAML loader, `None` when it raises or loads nothing.
   */
  function SplitFrontMatter(text: string, parse: string -> Option<FrontMatter>): (r: (FrontMatter, string))
  {
    if !Text.StartsWith(text, "---") then ([], text)
    else
      match FindFrom(text, "---", 3)
      case None => ([], text)
      case Some(j) => (parse(text[3..j]).GetOr([]), Text.LStripNewlines(text[j + 3..]))
  }

  /** The body comes back unchanged exactly when there is no front matter, and then the front matter is empty. */
  lemma FrontMatterAbsent(text: string, parse: string -> Option<FrontMatter>)
    ensures SplitFrontMatter(text, parse).1 == text <==> !HasFrontMatter(text)
    ensures !HasFrontMatter(text) ==> SplitFrontMatter(text, parse) == ([], text)
  {
    if HasFrontMatter(text) {
      var j := FindFrom(text, "---", 3).value;
      assert |Text.LStripNewlines(text[j + 3..])| < |text|;
    }
  }

  /**
   * `---`, a front matter, `---` and a body split back into the parsed front
   * matter and the body without its leading newlines, provided the closing
   * `---` is the first one after the opening.
   */
  lemma FrontMatterRoundTrip(fm: string, rest: string, parse: string -> Option<FrontMatter>)
    requires forall k :: 0 <= k < |fm| ==> !Text.OccursAt(fm + "---", "---", k)
    ensures SplitFrontMatter("---" + fm + "---" + rest, parse) == (parse(fm).GetOr([]), Text.LStripNewlines(rest))
  {
    var text := "---" + fm + "---" + rest;
    var closing := 3 + |fm|;
    assert text == "---" + (fm + "---") + rest;
    forall k | 3 <= k < closing
      ensures !Text.OccursAt(text, "---", k)
    {
      assert !Text.OccursAt(fm + "---", "---", k - 3);
      assert text[k..k + 3] == (fm + "---")[k - 3..k];
    }
    assert text[closing..closing + 3] == "---";
    assert Text.OccursAt(text, "---", closing);
    assert Text.StartsWith(text, "---") by {
      assert text[..3] == "---";
    }
    var found := FindFrom(text, "---", 3);
    assert found == Some(closing);
    assert text[3..closing] == fm;
    assert text[closing + 3..] == rest;
  }

  // ---------------------------------------------------------------------
  // Sections at `## ` headings
  // ---------------------------------------------------------------------

  /** A section: its heading and its body. */
  type Section = (string, string)

  predicate IsH2(line: string) {
    Text.StartsWith(line, "## ")
  }

  predicate IsH1(line: string) {
    Text.StartsWith(line, "# ")
  }

  /** The title a `## ` line opens: the rest of the line, trimmed, or "Section" when nothing is left. */
  function HeadingTitle(line: string): (t: string)
    requires IsH2(line)
    ensures t != [] && Text.Strip(t) == t
  {
    var t := Text.Strip(line[3..]);
    Text.StripIdempotent(line[3..]);
    Text.StripNoOp("Section");
    if t == "" then "Section" else t
  }

  /** The body of a section: its lines joined with newlines and trimmed. */
  function SectionBody(buf: seq<string>): string {
    Text.Strip(Text.Join("\n", buf))
  }

  /** What closing a section emits: the section, unless its body is blank. */
  function Emit(title: string, buf: seq<string>): (r: seq<Section>)
    ensures |r| <= 1
  {
    var body := SectionBody(buf);
    if body != "" then [(title, body)] else []
  }

  /** The chunker between two lines: sections emitted, the open title and the open section's lines. */
  datatype ScanState = ScanState(out: seq<Section>, title: string, buf: seq<string>)

  const Start := ScanState([], "Overview", [])

  /** One line: a `## ` line closes the open section and opens another, a `# ` line is dropped, any other line is body. */
  function StepLine(st: ScanState, line: string): ScanState {
    if IsH2(line) then ScanState(st.out + Emit(st.title, st.buf), HeadingTitle(line), [])
    else if IsH1(line) then st
    else ScanState(st.out, st.title, st.buf + [line])
  }

  function Scan(st: ScanState, lines: seq<string>): ScanState
    decreases |lines|
  {
    if lines == [] then st else Scan(StepLine(st, lines[0]), lines[1..])
  }

  function Finish(st: ScanState): seq<Section> {
    st.out + Emit(st.title, st.buf)
  }

  /** `_chunk_markdown_by_h2` as a function of the document. */
  function Chunked(md: string): seq<Section> {
    Finish(Scan(Start, Text.SplitLines(md)))
  }

  /** The nested `flush`: emit the open section unless its body is blank. */
  method Flush(out: seq<Section>, title: string, buf: seq<string>) returns (out': seq<Section>)
    ensures out' == out + Emit(title, buf)
  {
    var body := Text.Strip(Text.Join("\n", buf));
    out' := out;
    if body != "" {
      out' := out + [(title, body)];
    }
  }

  /** `_chunk_markdown_by_h2`: the sections of a Markdown body, cut at `## ` lines. */
  method ChunkMarkdownByH2(md: string) returns (out: seq<Section>)
    ensures out == Chunked(md)
  {
    var lines := Text.SplitLines(md);
    var title := "Overview";
    var buf: seq<string> := [];
    out := [];
    for i := 0 to |lines|
      invariant Scan(ScanState(out, title, buf), lines[i..]) == Scan(Start, lines)
    {
      assert lines[i..][1..] == lines[i + 1..];
      var line := lines[i];
      if Text.StartsWith(line, "## ") {
        out := Flush(out, title, buf);
        buf := [];
        var t := Text.Strip(line[3..]);
        title := if t == "" then "Section" else t;
        continue;
      }
      if Text.StartsWith(line, "# ") {
        continue;
      }
      buf := buf + [line];
    }
    assert lines[|lines|..] == [];
    out := Flush(out, title, buf);
  }

  // A reference reading of the chunker: each heading owns the lines up to
  // the next `## ` line.

  /** The index of the first `## ` line, or the number of lines. */
  function NextH2(lines: seq<string>): (j: nat)
    ensures j <= |lines|
    ensures j < |lines| ==> IsH2(lines[j])
    ensures forall k :: 0 <= k < j ==> !IsH2(lines[k])
  {
    if lines == [] || IsH2(lines[0]) then 0 else 1 + NextH2(lines[1..])
  }

  /** The lines of a group without its `# ` lines. */
  function BodyLines(lines: seq<string>): (r: seq<string>)
    ensures |r| <= |lines|
  {
    if lines == [] then [] else (if IsH1(lines[0]) then [] else [lines[0]]) + BodyLines(lines[1..])
  }

  /** A heading's title and the lines between it and the next `## ` line. */
  datatype Group = Group(title: string, lines: seq<string>)

  /** The groups of a document whose first group is titled `title`. */
  function Groups(title: string, lines: seq<string>): (gs: seq<Group>)
    ensures |gs| >= 1 && gs[0].title == title
    decreases |lines|
  {
    var j := NextH2(lines);
    [Group(title, lines[..j])] + (if j < |lines| then Groups(HeadingTitle(lines[j]), lines[j + 1..]) else [])
  }

  /** The sections the groups give: each group's non-blank body. */
  function EmitAll(gs: seq<Group>): seq<Section> {
    if gs == [] then [] else Emit(gs[0].title, BodyLines(gs[0].lines)) + EmitAll(gs[1..])
  }

  /** The sections after the first group. */
  function LaterSections(lines: seq<string>): seq<Section> {
    var j := NextH2(lines);
    if j < |lines| then EmitAll(Groups(HeadingTitle(lines[j]), lines[j + 1..])) else []
  }

  /** What the chunker emits from a state: the state's sections, then those of the groups the lines make. */
  function Grouped(out: seq<Section>, title: string, buf: seq<string>, lines: seq<string>): seq<Section> {
    out + Emit(title, buf + BodyLines(lines[..NextH2(lines)])) + LaterSections(lines)
  }

  lemma {:induction false} ScanIsGrouping(out: seq<Section>, title: string, buf: seq<string>, lines: seq<string>)
    ensures Finish(Scan(ScanState(out, title, buf), lines)) == Grouped(out, title, buf, lines)
    decreases |lines|
  {
    if lines == [] {
      assert buf + BodyLines([]) == buf;
    } else {
      var l := lines[0];
      var tail := lines[1..];
      assert Scan(ScanState(out, title, buf), lines) == Scan(StepLine(ScanState(out, title, buf), l), tail);
      if IsH2(l) {
        ScanIsGrouping(out + Emit(title, buf), HeadingTitle(l), [], tail);
        GroupingAtH2(out, title, buf, lines);
      } else if IsH1(l) {
        ScanIsGrouping(out, title, buf, tail);
        GroupingPastLine(out, title, buf, lines);
      } else {
        ScanIsGrouping(out, title, buf + [l], tail);
        GroupingPastLine(out, title, buf, lines);
      }
    }
  }

  /** At a `## ` line the open section closes and the line's title opens the next. */
  lemma GroupingAtH2(out: seq<Section>, title: string, buf: seq<string>, lines: seq<string>)
    requires lines != [] && IsH2(lines[0])
    ensures Grouped(out, title, buf, lines) == Grouped(out + Emit(title, buf), HeadingTitle(lines[0]), [], lines[1..])
  {
    assert NextH2(lines) == 0;
    assert buf + BodyLines(lines[..0]) == buf;
    LaterAtH2(lines);
  }

  lemma LaterAtH2(lines: seq<string>)
    requires lines != [] && IsH2(lines[0])
    ensures LaterSections(lines)
      == Emit(HeadingTitle(lines[0]), [] + BodyLines(lines[1..][..NextH2(lines[1..])])) + LaterSections(lines[1..])
  {
    var tail := lines[1..];
    assert NextH2(lines) == 0;
    assert lines[0 + 1..] == tail;
    var gs := Groups(HeadingTitle(lines[0]), tail);
    assert LaterSections(lines) == EmitAll(gs);
    assert [] + BodyLines(tail[..NextH2(tail)]) == BodyLines(tail[..NextH2(tail)]);
    assert gs[0] == Group(HeadingTitle(lines[0]), tail[..NextH2(tail)]);
    assert gs[1..] == (if NextH2(tail) < |tail| then Groups(HeadingTitle(tail[NextH2(tail)]), tail[NextH2(tail) + 1..]) else []);
    assert EmitAll(gs[1..]) == LaterSections(tail);
  }

  /** Any other line stays in the open section, as body unless it is a `# ` line. */
  lemma GroupingPastLine(out: seq<Section>, title: string, buf: seq<string>, lines: seq<string>)
    requires lines != [] && !IsH2(lines[0])
    ensures Grouped(out, title, buf, lines)
      == Grouped(out, title, if IsH1(lines[0]) then buf else buf + [lines[0]], lines[1..])
  {
    var tail := lines[1..];
    LaterPastLine(lines);
    BodyPastLine(lines);
    var rest := BodyLines(tail[..NextH2(tail)]);
    if IsH1(lines[0]) {
      assert BodyLines(lines[..NextH2(lines)]) == rest;
    } else {
      assert BodyLines(lines[..NextH2(lines)]) == [lines[0]] + rest;
      assert buf + ([lines[0]] + rest) == buf + [lines[0]] + rest;
    }
  }

  lemma LaterPastLine(lines: seq<string>)
    requires lines != [] && !IsH2(lines[0])
    ensures LaterSections(lines) == LaterSections(lines[1..])
  {
    var tail := lines[1..];
    var j' := NextH2(tail);
    assert NextH2(lines) == 1 + j';
    if 1 + j' < |lines| {
      assert lines[1 + j'] == tail[j'];
      assert lines[1 + j' + 1..] == tail[j' + 1..];
    }
  }

  lemma BodyPastLine(lines: seq<string>)
    requires lines != [] && !IsH2(lines[0])
    ensures NextH2(lines) == 1 + NextH2(lines[1..])
    ensures BodyLines(lines[..NextH2(lines)])
      == (if IsH1(lines[0]) then [] else [lines[0]]) + BodyLines(lines[1..][..NextH2(lines[1..])])
  {
    var tail := lines[1..];
    var j' := NextH2(tail);
    assert NextH2(lines) == 1 + j';
    var pre := lines[..1 + j'];
    assert pre[0] == lines[0];
    assert pre[1..] == tail[..j'];
  }

  /**
   * The chunker emits, in document order, one section per heading (with
   * "Overview" for the lines before the first), holding exactly the lines up
   * to the next `## ` line less the `# ` lines, and drops the blank ones.
   */
  lemma ChunkedIsGrouping(md: string)
    ensures Chunked(md) == EmitAll(Groups("Overview", Text.SplitLines(md)))
  {
    var lines := Text.SplitLines(md);
    ScanIsGrouping([], "Overview", [], lines);
    GroupedFromStart(lines);
  }

  lemma GroupedFromStart(lines: seq<string>)
    ensures Grouped([], "Overview", [], lines) == EmitAll(Groups("Overview", lines))
  {
    EmitAllGroups("Overview", lines);
    var b := BodyLines(lines[..NextH2(lines)]);
    assert [] + b == b;
    assert [] + Emit("Overview", b) == Emit("Overview", b);
  }

  /** The sections of the groups from a title: the first group's, then the later ones. */
  lemma EmitAllGroups(title: string, lines: seq<string>)
    ensures EmitAll(Groups(title, lines)) == Emit(title, BodyLines(lines[..NextH2(lines)])) + LaterSections(lines)
  {
    var gs := Groups(title, lines);
    var j := NextH2(lines);
    assert gs[0] == Group(title, lines[..j]);
    assert gs[1..] == (if j < |lines| then Groups(HeadingTitle(lines[j]), lines[j + 1..]) else []);
    assert EmitAll(gs[1..]) == LaterSections(lines);
  }

  /** A group has a title, and none of its lines is a `## ` line. */
  predicate GroupOk(g: Group) {
    g.title != [] && forall line :: line in g.lines ==> !IsH2(line)
  }

  /** Each line sits in the group of the nearest `## ` line before it, and every group has a title. */
  lemma {:induction false} GroupsShape(title: string, lines: seq<string>)
    requires title != []
    ensures forall g :: g in Groups(title, lines) ==> GroupOk(g)
    decreases |lines|
  {
    var j := NextH2(lines);
    FirstGroupOk(title, lines);
    if j < |lines| {
      var next := HeadingTitle(lines[j]);
      var rest := lines[j + 1..];
      GroupsShape(next, rest);
      ConsAllOk(Group(title, lines[..j]), Groups(next, rest), Groups(title, lines));
    } else {
      ConsAllOk(Group(title, lines[..j]), [], Groups(title, lines));
    }
  }

  lemma ConsAllOk(first: Group, later: seq<Group>, gs: seq<Group>)
    requires gs == [first] + later
    requires GroupOk(first)
    requires forall g :: g in later ==> GroupOk(g)
    ensures forall g :: g in gs ==> GroupOk(g)
  {
    forall g | g in gs
      ensures GroupOk(g)
    {
      if g != first {
        assert g in later;
      }
    }
  }

  lemma FirstGroupOk(title: string, lines: seq<string>)
    requires title != []
    ensures GroupOk(Group(title, lines[..NextH2(lines)]))
  {
    var j := NextH2(lines);
    forall line | line in lines[..j]
      ensures !IsH2(line)
    {
      var k :| 0 <= k < j && lines[..j][k] == line;
    }
  }

  /** There is one group more than there are `## ` lines. */
  function CountH2(lines: seq<string>): nat {
    if lines == [] then 0 else (if IsH2(lines[0]) then 1 else 0) + CountH2(lines[1..])
  }

  lemma {:induction false} CountH2Skip(lines: seq<string>, j: nat)
    requires j <= |lines|
    requires forall k :: 0 <= k < j ==> !IsH2(lines[k])
    ensures CountH2(lines) == CountH2(lines[j..])
    decreases j
  {
    if j > 0 {
      CountH2Skip(lines[1..], j - 1);
      assert lines[1..][j - 1..] == lines[j..];
    }
  }

  lemma {:induction false} GroupsCount(title: string, lines: seq<string>)
    ensures |Groups(title, lines)| == 1 + CountH2(lines)
    decreases |lines|
  {
    var j := NextH2(lines);
    CountH2Skip(lines, j);
    if j < |lines| {
      GroupsCount(HeadingTitle(lines[j]), lines[j + 1..]);
      assert lines[j..][1..] == lines[j + 1..];
    }
  }

  lemma {:induction false} EmitAllShape(gs: seq<Group>)
    requires forall g :: g in gs ==> g.title != []
    ensures |EmitAll(gs)| <= |gs|
    ensures forall s :: s in EmitAll(gs) ==> s.0 != [] && s.1 != [] && Text.Strip(s.1) == s.1
  {
    if gs != [] {
      assert gs[0] in gs;
      assert forall g :: g in gs[1..] ==> g in gs;
      EmitAllShape(gs[1..]);
      Text.StripIdempotent(Text.Join("\n", BodyLines(gs[0].lines)));
    }
  }

  /**
   * Every emitted section has a non-empty title and a non-empty, trimmed
   * body, and there are at most one more sections than `## ` lines.
   */
  lemma ChunkedShape(md: string)
    ensures forall s :: s in Chunked(md) ==> s.0 != [] && s.1 != [] && Text.Strip(s.1) == s.1
    ensures |Chunked(md)| <= 1 + CountH2(Text.SplitLines(md))
  {
    var lines := Text.SplitLines(md);
    ChunkedIsGrouping(md);
    GroupsShape("Overview", lines);
    GroupsCount("Overview", lines);
    EmitAllShape(Groups("Overview", lines));
  }

  /** A document with no heading lines is one "Overview" section holding all of it, trimmed, or nothing if it is blank. */
  lemma {:induction false} NoHeadingsOneSection(md: string)
    requires forall line :: line in Text.SplitLines(md) ==> !IsH2(line) && !IsH1(line)
    ensures Chunked(md) == Emit("Overview", Text.SplitLines(md))
  {
    var lines := Text.SplitLines(md);
    ChunkedIsGrouping(md);
    assert NextH2(lines) == |lines|;
    assert lines[..|lines|] == lines;
    BodyLinesKeepAll(lines);
    var gs := Groups("Overview", lines);
    assert gs == [Group("Overview", lines)];
    assert gs[1..] == [];
  }

  lemma {:induction false} BodyLinesKeepAll(lines: seq<string>)
    requires forall line :: line in lines ==> !IsH1(line)
    ensures BodyLines(lines) == lines
  {
    if lines != [] {
      assert lines[0] in lines;
      BodyLinesKeepAll(lines[1..]);
    }
  }

  // ---------------------------------------------------------------------
  // The sections of a YAML file
  // ---------------------------------------------------------------------

  /** One entry of a YAML file's `sections` list: its `heading` and `body`, when given. */
  datatype RawSection = RawSection(heading: Option<Value>, body: Option<Value>)

  /** `str(v or default)`. */
  function ValueOr(v: Option<Value>, default: string): (r: string)
    ensures r == default || r != []
  {
    if v.Some? && Truthy(v.value) then TruthyTextNonEmpty(v.value); ValueText(v.value) else default
  }

  /** A section's trimmed body. */
  function RawBody(s: RawSection): string {
    Text.Strip(ValueOr(s.body, ""))
  }

  /** What one listed section keeps: itself, headed by its heading or "Section", when its body is not blank. */
  function KeptOne(s: RawSection): (r: seq<Section>)
    ensures |r| <= 1
  {
    var body := RawBody(s);
    if body != "" then [(ValueOr(s.heading, "Section"), body)] else []
  }

  /** The listed sections with a non-blank body, headed by their heading or "Section". */
  function KeptSections(raw: seq<RawSection>): (r: seq<Section>)
    ensures |r| <= |raw|
  {
    if raw == [] then [] else KeptSections(raw[..|raw| - 1]) + KeptOne(raw[|raw| - 1])
  }

  /** The YAML file's sections: the kept ones, or else the top-level body as one "Overview" section when it is not blank. */
  function SelectedSections(raw: seq<RawSection>, topBody: Option<Value>): seq<Section> {
    var kept := KeptSections(raw);
    if kept != [] then kept
    else
      var body := Text.Strip(ValueOr(topBody, ""));
      if body != "" then [("Overview", body)] else []
  }

  /** The section selection of `load_kb_file`'s YAML branch. */
  method SelectSections(raw: seq<RawSection>, topBody: Option<Value>) returns (sections: seq<Section>)
    ensures sections == SelectedSections(raw, topBody)
  {
    sections := [];
    for i := 0 to |raw|
      invariant sections == KeptSections(raw[..i])
    {
      assert raw[..i + 1][..i] == raw[..i];
      var s := raw[i];
      var heading := if s.heading.Some? && Truthy(s.heading.value) then ValueText(s.heading.value) else "Section";
      var body := Text.Strip(if s.body.Some? && Truthy(s.body.value) then ValueText(s.body.value) else "");
      if body != "" {
        sections := sections + [(heading, body)];
      }
    }
    assert raw[..|raw|] == raw;
    if sections == [] {
      var body := Text.Strip(if topBody.Some? && Truthy(topBody.value) then ValueText(topBody.value) else "");
      if body != "" {
        sections := [("Overview", body)];
      }
    }
  }

  /** Every kept section has a non-empty heading and a non-empty, trimmed body. */
  lemma {:induction false} KeptShape(raw: seq<RawSection>)
    ensures forall k :: 0 <= k < |KeptSections(raw)| ==>
      KeptSections(raw)[k].0 != [] && KeptSections(raw)[k].1 != []
      && Text.Strip(KeptSections(raw)[k].1) == KeptSections(raw)[k].1
  {
    if raw != [] {
      var s := raw[|raw| - 1];
      KeptShape(raw[..|raw| - 1]);
      Text.StripIdempotent(ValueOr(s.body, ""));
    }
  }

  /** Every listed body is blank. */
  predicate AllBlank(raw: seq<RawSection>) {
    raw == [] || (AllBlank(raw[..|raw| - 1]) && RawBody(raw[|raw| - 1]) == "")
  }

  /** The kept sections are empty exactly when every listed body is blank. */
  lemma {:induction false} KeptEmpty(raw: seq<RawSection>)
    ensures KeptSections(raw) == [] <==> AllBlank(raw)
  {
    if raw != [] {
      KeptEmpty(raw[..|raw| - 1]);
      KeptOneEmpty(raw[|raw| - 1]);
    }
  }

  lemma KeptOneEmpty(s: RawSection)
    ensures KeptOne(s) == [] <==> RawBody(s) == ""
  {
  }

  /** The number of listed sections whose body is blank. */
  function BlankCount(raw: seq<RawSection>): (n: nat)
    ensures n <= |raw|
  {
    if raw == [] then 0 else BlankCount(raw[..|raw| - 1]) + (if RawBody(raw[|raw| - 1]) == "" then 1 else 0)
  }

  /** Exactly the blank sections are dropped. */
  lemma {:induction false} KeptCount(raw: seq<RawSection>)
    ensures |KeptSections(raw)| == |raw| - BlankCount(raw)
  {
    if raw != [] {
      KeptCount(raw[..|raw| - 1]);
      KeptOneEmpty(raw[|raw| - 1]);
    }
  }

  /** The selection keeps document order: the sections of two lists in a row are those of the first, then those of the second. */
  lemma KeptConcat(a: seq<RawSection>, b: seq<RawSection>)
    ensures KeptSections(a + b) == KeptSections(a) + KeptSections(b)
  {
    KeptIsFlatMap(a);
    KeptIsFlatMap(b);
    KeptIsFlatMap(a + b);
    Seqs.FlatMapConcat(a, b, KeptOne);
  }

  lemma {:induction false} KeptIsFlatMap(raw: seq<RawSection>)
    ensures KeptSections(raw) == Seqs.FlatMap(raw, KeptOne)
  {
    if raw != [] {
      KeptIsFlatMap(raw[..|raw| - 1]);
    }
  }

  /** One listed section keeps itself exactly when its body is not blank, headed by its heading or "Section". */
  lemma KeptSingle(s: RawSection)
    ensures KeptSections([s]) == if RawBody(s) != "" then [(ValueOr(s.heading, "Section"), RawBody(s))] else []
  {
    assert [s][..0] == [];
  }

  /**
   * A YAML file yields no section exactly when every listed body and the
   * top-level body are blank; every section it yields has a non-empty
   * heading and a non-empty, trimmed body.
   */
  lemma SelectedShape(raw: seq<RawSection>, topBody: Option<Value>)
    ensures SelectedSections(raw, topBody) == [] <==> AllBlank(raw) && Text.Strip(ValueOr(topBody, "")) == ""
    ensures forall k :: 0 <= k < |SelectedSections(raw, topBody)| ==>
      SelectedSections(raw, topBody)[k].0 != [] && SelectedSections(raw, topBody)[k].1 != []
      && Text.Strip(SelectedSections(raw, topBody)[k].1) == SelectedSections(raw, topBody)[k].1
  {
    KeptEmpty(raw);
    KeptShape(raw);
    Text.StripIdempotent(ValueOr(topBody, ""));
  }

  // ---------------------------------------------------------------------
  // Document metadata
  // ---------------------------------------------------------------------

  /**
   * What the loader knows of a file besides its text: its POSIX path, the
   * name of its directory, its name without suffix, and the first 16 hex
   * digits of the sha1 of its path.
   */
  datatype FileInfo = FileInfo(path: string, parentName: string, stem: string, pathHash: string)

  datatype DocMeta = DocMeta(
    docId: string,
    title: string,
    service: Option<string>,
    category: string,
    tags: seq<string>,
    sourcePath: string)

  /** The category: the mapping's, else the directory's name. */
  function CategoryOf(fm: FrontMatter, f: FileInfo): string {
    TextOr(Get(fm, "category"), f.parentName)
  }

  /** The title: the mapping's, else the file's stem with underscores as spaces. */
  function TitleOf(fm: FrontMatter, f: FileInfo): string {
    TextOr(Get(fm, "title"), Text.ReplaceChar(f.stem, '_', ' '))
  }

  /** The document id: the mapping's, else "KB-" and the path's hash. */
  function DocIdOf(fm: FrontMatter, f: FileInfo): (r: string)
    ensures r != []
  {
    TextOr(Get(fm, "doc_id"), "KB-" + f.pathHash)
  }

  /** `list(y or [])`: a list as is, a string as its characters; `None` where Python raises because a number or boolean is not iterable. */
  function TagList(y: Option<Yaml>): (r: Option<seq<Value>>)
    ensures (y.None? || !YamlTruthy(y.value)) ==> r == Some([])
    ensures y.Some? && y.value.Items? ==> r == Some(y.value.items)
  {
    if y.None? || !YamlTruthy(y.value) then Some([])
    else
      match y.value
      case Items(xs) => Some(xs)
      case Scalar(v) =>
        if v.Str? then Some(seq(|v.s|, i requires 0 <= i < |v.s| => Str([v.s[i]]))) else None
  }

  /** The metadata of a file whose mapping is `fm`; `None` when its `tags` cannot be listed. */
  function MetaOf(fm: FrontMatter, f: FileInfo): (r: Option<DocMeta>)
    ensures r.Some? <==> TagList(Get(fm, "tags")).Some?
    ensures r.Some? ==>
      && r.value.docId != [] && r.value.sourcePath == f.path
      && |r.value.tags| == |TagList(Get(fm, "tags")).value|
      && (r.value.service.Some? <==> Get(fm, "service").Some? && YamlTruthy(Get(fm, "service").value))
      && (r.value.service.Some? ==> r.value.service.value != [])
  {
    var service := Get(fm, "service");
    match TagList(Get(fm, "tags"))
    case None => None
    case Some(tags) =>
      Some(DocMeta(
        DocIdOf(fm, f),
        TitleOf(fm, f),
        if service.Some? && YamlTruthy(service.value) then Some(YamlText(service.value)) else None,
        CategoryOf(fm, f),
        seq(|tags|, i requires 0 <= i < |tags| => ValueText(tags[i])),
        f.path))
  }

  /** A file without front matter takes every field from its path. */
  lemma MetaDefaults(f: FileInfo)
    ensures MetaOf([], f) == Some(DocMeta("KB-" + f.pathHash, Text.ReplaceChar(f.stem, '_', ' '), None, f.parentName, [], f.path))
  {
    var none: FrontMatter := [];
    assert Get(none, "tags") == None && Get(none, "service") == None;
    assert Get(none, "doc_id") == None && Get(none, "title") == None && Get(none, "category") == None;
    assert TagList(None) == Some([]);
    var m := MetaOf(none, f).value;
    assert m.docId == "KB-" + f.pathHash;
    assert m.title == Text.ReplaceChar(f.stem, '_', ' ');
    assert m.service == None;
    assert m.category == f.parentName;
    assert m.tags == [];
    assert m.sourcePath == f.path;
  }

  /** `load_kb_file` for a Markdown file: the front matter's metadata and the body's sections. */
  function LoadMarkdownFile(raw: string, parse: string -> Option<FrontMatter>, f: FileInfo): (r: Option<(DocMeta, seq<Section>)>)
    ensures r.Some? <==> MetaOf(SplitFrontMatter(raw, parse).0, f).Some?
    ensures r.Some? ==> forall s :: s in r.value.1 ==> s.0 != [] && s.1 != [] && Text.Strip(s.1) == s.1
  {
    var (fm, body) := SplitFrontMatter(raw, parse);
    ChunkedShape(body);
    match MetaOf(fm, f)
    case None => None
    case Some(meta) => Some((meta, Chunked(body)))
  }

  /**
   * `load_kb_file` for a YAML file: `data` is its top-level mapping, `raw`
   * its `sections` list and `topBody` its top-level `body`.
   */
  function LoadYamlFile(data: FrontMatter, raw: seq<RawSection>, topBody: Option<Value>, f: FileInfo)
    : (r: Option<(DocMeta, seq<Section>)>)
    ensures r.Some? <==> MetaOf(data, f).Some?
    ensures r.Some? ==> (r.value.1 == [] <==> AllBlank(raw) && Text.Strip(ValueOr(topBody, "")) == "")
    ensures r.Some? ==> forall s :: s in r.value.1 ==> s.0 != [] && s.1 != [] && Text.Strip(s.1) == s.1
  {
    SelectedShape(raw, topBody);
    match MetaOf(data, f)
    case None => None
    case Some(meta) => Some((meta, SelectedSections(raw, topBody)))
  }
}
