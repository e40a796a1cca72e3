/**
 * The Markdown-to-YAML knowledge-base converter: the mapping it writes for
 * one Markdown file. Its copies of the front-matter splitter and of the
 * `## ` chunker are textually the same as the loader's, so they are modelled
 * once, by `Ingest.SplitFrontMatter` and `Ingest.Chunked`. Writing the YAML
 * text and choosing the output path are left to the file system.
 */
module ConvertKb {
  import opened Options
  import opened Dicts
  import opened Schemas
  import opened Ingest
  import Text

  /** The mapping `convert_file` dumps: `doc_id`, `title`, `category`, `service`, `tags` and `sections`. */
  datatype KbRecord = KbRecord(
    docId: string,
    title: string,
    category: string,
    service: Option<Yaml>,
    tags: seq<Value>,
    sections: seq<Section>)

  /**
   * `convert_file` for a Markdown file with text `raw`: the loader's
   * metadata rules, the front matter's `service` and `tags` as they are, and
   * the chunker's sections; `None` where `list(tags)` raises.
   */
  function ConvertFile(raw: string, parse: string -> Option<FrontMatter>, f: FileInfo): (r: Option<KbRecord>)
    ensures r.Some? <==> LoadMarkdownFile(raw, parse, f).Some?
    ensures r.Some? ==> r.value.docId != [] && forall s :: s in r.value.sections ==> s.0 != [] && s.1 != [] && Text.Strip(s.1) == s.1
  {
    var (fm, body) := SplitFrontMatter(raw, parse);
    RecordOf(fm, body, f)
  }

  /** The record for front matter `fm` and body `body`. */
  function RecordOf(fm: FrontMatter, body: string, f: FileInfo): (r: Option<KbRecord>)
    ensures r.Some? <==> MetaOf(fm, f).Some?
    ensures r.Some? ==> r.value.docId != [] && forall s :: s in r.value.sections ==> s.0 != [] && s.1 != [] && Text.Strip(s.1) == s.1
  {
    ChunkedShape(body);
    match TagList(Get(fm, "tags"))
    case None => None
    case Some(tags) =>
      Some(KbRecord(DocIdOf(fm, f), TitleOf(fm, f), CategoryOf(fm, f), Get(fm, "service"), tags, Chunked(body)))
  }

  /**
   * The mapping the YAML loader reads back from the dumped record, taking
   * `yaml.safe_load` of what `yaml.safe_dump` writes to give the same
   * mapping back: the five keys in order, a missing `service` written as
   * `null`. `ConvertedFileLoadsAlike` holds on that premise.
   */
  function RecordData(r: KbRecord): (d: FrontMatter)
    ensures Keys(d) == ["doc_id", "title", "category", "service", "tags"] && KeysDistinct(d)
  {
    [("doc_id", Scalar(Str(r.docId))),
     ("title", Scalar(Str(r.title))),
     ("category", Scalar(Str(r.category))),
     ("service", r.service.GetOr(Scalar(Null))),
     ("tags", Items(r.tags))]
  }

  /** The dumped `sections` list as the loader reads it back: each entry with its `heading` and `body`. */
  function WrittenSection(s: Section): RawSection {
    RawSection(Some(Str(s.0)), Some(Str(s.1)))
  }

  function WrittenSections(secs: seq<Section>): seq<RawSection> {
    seq(|secs|, i requires 0 <= i < |secs| => WrittenSection(secs[i]))
  }

  function RecordSections(r: KbRecord): seq<RawSection> {
    WrittenSections(r.sections)
  }

  /** A section with a title and a non-empty, trimmed body is read back as itself. */
  lemma ReadBackOne(s: Section)
    requires s.0 != [] && s.1 != [] && Text.Strip(s.1) == s.1
    ensures KeptOne(WrittenSection(s)) == [s]
  {
  }

  lemma ReadBackAll(secs: seq<Section>)
    requires forall s :: s in secs ==> s.0 != [] && s.1 != [] && Text.Strip(s.1) == s.1
    ensures KeptSections(WrittenSections(secs)) == secs
  {
    var raw := WrittenSections(secs);
    forall k | 0 <= k < |raw|
      ensures KeptOne(raw[k]) == [secs[k]]
    {
      assert secs[k] in secs;
      ReadBackOne(secs[k]);
    }
    KeptIsFlatMap(raw);
    Seqs.FlatMapOneEach(raw, secs, KeptOne);
  }

  /** The sections the loader selects from a written record whose sections all have a title and a trimmed, non-empty body. */
  lemma SectionsReread(secs: seq<Section>)
    requires forall s :: s in secs ==> s.0 != [] && s.1 != [] && Text.Strip(s.1) == s.1
    ensures SelectedSections(WrittenSections(secs), None) == secs
  {
    ReadBackAll(secs);
    if secs == [] {
      assert Text.Strip(ValueOr(None, "")) == "";
    }
  }

  /** A `str(x or default)` result written out and read back with the same default is unchanged. */
  lemma TextOrReread(y: Option<Yaml>, default: string)
    ensures TextOr(Some(Scalar(Str(TextOr(y, default)))), default) == TextOr(y, default)
  {
  }

  /** What the loader looks up in a written record. */
  lemma RecordDataGets(r: KbRecord)
    ensures Get(RecordData(r), "doc_id") == Some(Scalar(Str(r.docId)))
    ensures Get(RecordData(r), "title") == Some(Scalar(Str(r.title)))
    ensures Get(RecordData(r), "category") == Some(Scalar(Str(r.category)))
    ensures Get(RecordData(r), "service") == Some(r.service.GetOr(Scalar(Null)))
    ensures Get(RecordData(r), "tags") == Some(Items(r.tags))
  {
    var d := RecordData(r);
    IndexOfIs(d, "doc_id", 0);
    IndexOfIs(d, "title", 1);
    IndexOfIs(d, "category", 2);
    IndexOfIs(d, "service", 3);
    IndexOfIs(d, "tags", 4);
  }

  /** The metadata read back from a written record is the metadata of the Markdown file, at the new path. */
  lemma MetaReread(fm: FrontMatter, f: FileInfo, g: FileInfo, r: KbRecord)
    requires g.parentName == f.parentName && g.stem == f.stem
    requires TagList(Get(fm, "tags")) == Some(r.tags)
    requires r.docId == DocIdOf(fm, f) && r.title == TitleOf(fm, f) && r.category == CategoryOf(fm, f)
    requires r.service == Get(fm, "service")
    ensures MetaOf(fm, f).Some? && MetaOf(RecordData(r), g) == Some(MetaOf(fm, f).value.(sourcePath := g.path))
  {
    RecordDataGets(r);
    TextOrReread(Get(fm, "doc_id"), "KB-" + f.pathHash);
    TextOrReread(Get(fm, "title"), Text.ReplaceChar(f.stem, '_', ' '));
    TextOrReread(Get(fm, "category"), f.parentName);
    assert TagList(Some(Items(r.tags))) == Some(r.tags);
  }

  /** Reading back the record of a front matter and body gives the front matter's metadata and the body's sections. */
  lemma RecordLoadsAlike(fm: FrontMatter, body: string, f: FileInfo, g: FileInfo)
    requires g.parentName == f.parentName && g.stem == f.stem
    ensures RecordOf(fm, body, f).Some? <==> MetaOf(fm, f).Some?
    ensures RecordOf(fm, body, f).Some? ==>
      var rec := RecordOf(fm, body, f).value;
      LoadYamlFile(RecordData(rec), RecordSections(rec), None, g)
        == Some((MetaOf(fm, f).value.(sourcePath := g.path), Chunked(body)))
  {
    if RecordOf(fm, body, f).Some? {
      var rec := RecordOf(fm, body, f).value;
      assert rec.sections == Chunked(body);
      MetaReread(fm, f, g, rec);
      var meta := MetaOf(fm, f).value.(sourcePath := g.path);
      ChunkedShape(body);
      SectionsReread(rec.sections);
      var sections := SelectedSections(RecordSections(rec), None);
      assert LoadYamlFile(RecordData(rec), RecordSections(rec), None, g) == Some((meta, sections));
    }
  }

  /**
   * Converting a Markdown file and loading the YAML file written for it
   * gives the metadata and sections that loading the Markdown file itself
   * gives; only the source path differs. The YAML file `g` lies in a
   * directory of the same name and has the same stem.
   */
  lemma ConvertedFileLoadsAlike(raw: string, parse: string -> Option<FrontMatter>, f: FileInfo, g: FileInfo)
    requires g.parentName == f.parentName && g.stem == f.stem
    ensures ConvertFile(raw, parse, f).Some? <==> LoadMarkdownFile(raw, parse, f).Some?
    ensures ConvertFile(raw, parse, f).Some? ==>
      var rec := ConvertFile(raw, parse, f).value;
      var md := LoadMarkdownFile(raw, parse, f).value;
      LoadYamlFile(RecordData(rec), RecordSections(rec), None, g) == Some((md.0.(sourcePath := g.path), md.1))
  {
    var (fm, body) := SplitFrontMatter(raw, parse);
    RecordLoadsAlike(fm, body, f, g);
  }
}
