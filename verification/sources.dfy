/** The class-style note extraction (app/logic/sources.py): a source file is cut into chunks
    by the same block expression as the function-style parser, each chunk keeps the whole
    match as its metadata text, is classified against a catalog of note types that must match
    exactly once, and becomes a note whose fields end with the name of its file, whose tags
    add the file's frontmatter tags and whose images are resolved next to the file. */
module Sources {
  import opened Results
  import opened Text
  import opened Settings
  import opened Documents
  import opened Footnotes
  import opened Metadata
  import opened Blocks
  import opened Patterns
  import opened Markup
  import opened Genanki
  import Decks
  import Parser
  import NoteModels

  // ---------------------------------------------------------------------------------------
  // The note type catalog (NoteType.get_types)

  /** The two patterns of the catalog: `(.+):::(.+)` and the cloze-body pattern. */
  datatype Pattern = QaPattern | ClozeBodyPattern

  /** findall with the DOTALL flag. */
  function Findall(p: Pattern, s: string): (r: seq<Found>)
    ensures |r| <= 1
  {
    match p
    case QaPattern => FindQa(s)
    case ClozeBodyPattern => FindClozeBody(s)
  }

  datatype NoteKind = NoteKind(name: string, regex: Pattern, model: Model)

  /** The question/answer entry: its model adds a Source field for the file name. */
  function QaKind(): NoteKind {
    NoteKind("QA", QaPattern,
      Model("1764365620", "AnkCompiler-Question_Answer", ["Question", "Answer", "Source"], FrontBack))
  }

  /** The cloze entry: its model adds a Source field for the file name. */
  function ClozeKind(): NoteKind {
    NoteKind("Cloze", ClozeBodyPattern,
      Model("1783507665", "AnkCompiler-Cloze", ["Text", "Source"], ClozeCards))
  }

  /** NoteType.get_types: the catalog, question/answer first. */
  function GetTypes(): seq<NoteKind> {
    [QaKind(), ClozeKind()]
  }

  /** The catalog's two entries differ in name, pattern and model identifier, and each
      model's last field is Source. */
  lemma CatalogDistinct()
    ensures |GetTypes()| == 2
    ensures GetTypes()[0].name != GetTypes()[1].name && GetTypes()[0].regex != GetTypes()[1].regex
    ensures GetTypes()[0].model.modelId != GetTypes()[1].model.modelId
    ensures forall k :: 0 <= k < 2 ==> GetTypes()[k].model.fields[|GetTypes()[k].model.fields| - 1] == "Source"
  {
    assert QaKind().model.modelId[2] != ClozeKind().model.modelId[2];
  }

  // ---------------------------------------------------------------------------------------
  // Classification (_extract_type)

  /** The catalog entries whose pattern finds something in the body, in catalog order. */
  function MatchingKinds(types: seq<NoteKind>, body: string): (ms: seq<NoteKind>)
    ensures |ms| <= |types|
  {
    if types == [] then []
    else
      var t := types[|types| - 1];
      MatchingKinds(types[..|types| - 1], body) + (if |Findall(t.regex, body)| > 0 then [t] else [])
  }

  /** The note type of a body: the one catalog entry that matches; none and several are
      errors. */
  function TypeOf(body: string): Result<NoteKind> {
    var ms := MatchingKinds(GetTypes(), body);
    if |ms| == 0 then Err(NoNoteType) else if |ms| > 1 then Err(AmbiguousNoteType) else Ok(ms[0])
  }

  /** The loop of _extract_type, shared by both class-style generations. */
  method MatchingType(body: string) returns (r: Result<NoteKind>)
    ensures r == TypeOf(body)
  {
    var types := GetTypes();
    var matches := [];
    for i := 0 to |types|
      invariant matches == MatchingKinds(types[..i], body)
    {
      assert types[..i + 1][..i] == types[..i];
      var found := Findall(types[i].regex, body);
      if |found| > 0 {
        matches := matches + [types[i]];
      }
    }
    assert types[..|types|] == types;
    if |matches| == 0 {
      return Err(NoNoteType);
    }
    if |matches| > 1 {
      return Err(AmbiguousNoteType);
    }
    return Ok(matches[0]);
  }

  /** Exactly one of the two patterns must match: a cloze body with a ":::" that has text on
      both sides is ambiguous, a body with neither has no type. */
  lemma TypeOfSpec(body: string)
    ensures var cloze, qa := HasCloze(body), QaSplit(body).Some?;
      TypeOf(body) ==
        if cloze && qa then Err(AmbiguousNoteType)
        else if cloze then Ok(ClozeKind())
        else if qa then Ok(QaKind())
        else Err(NoNoteType)
  {
    var types := GetTypes();
    assert types[..1] == [QaKind()];
    assert MatchingKinds(types, body) ==
      MatchingKinds([QaKind()], body) + (if HasCloze(body) then [ClozeKind()] else []);
  }

  /** The two generations disagree on a body that is both a cloze and a question/answer:
      the function-style classifier gives the cloze priority, the catalog rejects the body.
      On every other body they accept the same bodies, with the same kind of note. */
  lemma ClassifiersCompared(body: string)
    ensures HasCloze(body) && QaSplit(body).Some? ==>
      Parser.ClassifyNote(body) == Ok(NoteModels.Cloze) && TypeOf(body) == Err(AmbiguousNoteType)
    ensures !(HasCloze(body) && QaSplit(body).Some?) ==>
      && (Parser.ClassifyNote(body).Ok? <==> TypeOf(body).Ok?)
      && (Parser.ClassifyNote(body) == Ok(NoteModels.Cloze) <==> TypeOf(body) == Ok(ClozeKind()))
  {
    TypeOfSpec(body);
  }

  /** The markdown fields of a body: the groups of the one match of its type's pattern, or the
      whole match when the pattern has a single group. */
  function MdFieldsOf(body: string): Result<seq<string>> {
    match TypeOf(body)
    case Err(e) => Err(e)
    case Ok(t) =>
      var matches := Findall(t.regex, body);
      if |matches| != 1 then Err(FieldExtraction)
      else
        match matches[0]
        case Groups(gs) => Ok(gs)
        case Whole(w) => Ok([w])
  }

  /** Once a type is found its pattern matches exactly once, so the field-extraction error
      cannot happen: a question/answer body gives the two sides of its last ":::", a cloze
      body gives itself. */
  lemma MdFieldsSpec(body: string)
    ensures MdFieldsOf(body).Err? <==> TypeOf(body).Err?
    ensures MdFieldsOf(body).Err? ==> MdFieldsOf(body).error == TypeOf(body).error
    ensures TypeOf(body) == Ok(QaKind()) ==>
      MdFieldsOf(body) == Ok([QaSplit(body).value.0, QaSplit(body).value.1])
      && body == QaSplit(body).value.0 + ":::" + QaSplit(body).value.1
    ensures TypeOf(body) == Ok(ClozeKind()) ==> MdFieldsOf(body) == Ok([body])
    ensures MdFieldsOf(body).Ok? ==> |MdFieldsOf(body).value| == |TypeOf(body).value.model.fields| - 1
  {
    TypeOfSpec(body);
  }

  /** The fields of a chunk: the rendered markdown fields, then the name of its file. */
  function FieldsWithSource(md: string -> string, body: string, path: FsPath): Result<seq<string>> {
    match MdFieldsOf(body)
    case Err(e) => Err(e)
    case Ok(mdFields) => Ok(Rendered(md, mdFields) + [Name(path)])
  }

  /** A chunk has one field per field of its model: the rendered markdown fields in order,
      and last the file name in the Source field. */
  lemma FieldsWithSourceSpec(md: string -> string, body: string, path: FsPath)
    ensures FieldsWithSource(md, body, path).Err? <==> TypeOf(body).Err?
    ensures var r := FieldsWithSource(md, body, path);
      r.Ok? ==>
        var fields := r.value; var mdFields := MdFieldsOf(body).value;
        && |fields| == |TypeOf(body).value.model.fields|
        && fields[|fields| - 1] == Name(path)
        && forall i :: 0 <= i < |mdFields| ==> fields[i] == md(mdFields[i])
  {
    MdFieldsSpec(body);
    if MdFieldsOf(body).Ok? {
      var mdFields := MdFieldsOf(body).value;
      forall i | 0 <= i < |mdFields| ensures Rendered(md, mdFields)[i] == md(mdFields[i]) {
        RenderedAt(md, mdFields, i);
      }
    }
  }

  // ---------------------------------------------------------------------------------------
  // Images (_extract_images)

  /** The result of find on the last field where it finds something; the loop of
      _extract_images overwrites its list at every such field. */
  function LastFound(find: string -> seq<string>, fields: seq<string>): seq<string> {
    if fields == [] then []
    else if find(fields[|fields| - 1]) != [] then find(fields[|fields| - 1])
    else LastFound(find, fields[..|fields| - 1])
  }

  /** Only the last field where find succeeds contributes; no such field, nothing. */
  lemma {:induction false} LastFoundSpec(find: string -> seq<string>, fields: seq<string>)
    ensures LastFound(find, fields) == [] <==> forall i :: 0 <= i < |fields| ==> find(fields[i]) == []
    ensures LastFound(find, fields) != [] ==>
      exists i :: 0 <= i < |fields| && LastFound(find, fields) == find(fields[i])
        && forall j :: i < j < |fields| ==> find(fields[j]) == []
  {
    if fields != [] {
      var p := fields[..|fields| - 1];
      LastFoundSpec(find, p);
      assert forall i :: 0 <= i < |p| ==> p[i] == fields[i];
    }
  }

  /** Each relative path joined to a directory. */
  function JoinAll(dir: FsPath, paths: seq<string>): (r: seq<FsPath>)
    ensures |r| == |paths| && forall i :: 0 <= i < |paths| ==> r[i] == Join(dir, PathOf(paths[i]))
  {
    seq(|paths|, i requires 0 <= i < |paths| => Join(dir, PathOf(paths[i])))
  }

  /** The images of a chunk, resolved against its file's directory. */
  function ImagesOf(md: string -> string, body: string, path: FsPath): Result<seq<FsPath>> {
    match MdFieldsOf(body)
    case Err(e) => Err(e)
    case Ok(mdFields) => Ok(JoinAll(Parent(path), LastFound(FindImg, Rendered(md, mdFields))))
  }

  // ---------------------------------------------------------------------------------------
  // Tags of the frontmatter (File.get_tags)

  /** [tag.strip() for tag in items]: an item that is not a string has no strip(). */
  function StripAll(items: seq<Value>): Result<seq<string>> {
    if items == [] then Ok([])
    else
      match StripAll(items[..|items| - 1])
      case Err(e) => Err(e)
      case Ok(tags) =>
        var item := items[|items| - 1];
        if item.Str? then Ok(tags + [Strip(item.s)]) else Err(TagNotString)
  }

  lemma {:induction false} StripAllSpec(items: seq<Value>)
    ensures StripAll(items).Ok? <==> forall i :: 0 <= i < |items| ==> items[i].Str?
    ensures StripAll(items).Ok? ==>
      |StripAll(items).value| == |items| && forall i :: 0 <= i < |items| ==> StripAll(items).value[i] == Strip(items[i].s)
    ensures StripAll(items).Err? ==> StripAll(items).error == TagNotString
  {
    if items != [] {
      var p := items[..|items| - 1];
      StripAllSpec(p);
      assert forall i :: 0 <= i < |p| ==> p[i] == items[i];
    }
  }

  /** A source file: its path, its body after the frontmatter, and the frontmatter. */
  datatype File = File(path: FsPath, body: string, meta: map<string, Value>) {

    /** File.extract_chunks: one chunk per match of the block expression, in document
        order, keeping the whole match as the metadata text and the unstripped body group. */
    method ExtractChunks(keys: Keys) returns (noteChunks: seq<Chunk>)
      ensures noteChunks == ChunksOf(this, keys)
    {
      var cardMatches := FindBlocks(body, keys);
      noteChunks := [];
      for i := 0 to |cardMatches|
        invariant noteChunks == ChunksOf(this, keys)[..i]
      {
        noteChunks := noteChunks + [Chunk(cardMatches[i].whole, cardMatches[i].body, this)];
      }
    }

    /** File.get_tags: a list of strings gives its items stripped (any other item raises), a
        string gives itself alone, anything else or nothing gives no tag. */
    function GetTags(keys: Keys): (r: Result<seq<string>>)
      ensures var v := Get(meta, keys.metaTagKey);
        && (r.Err? <==> v.List? && exists i :: 0 <= i < |v.items| && !v.items[i].Str?)
        && (r.Err? ==> r.error == TagNotString)
        && (v.List? && r.Ok? ==>
              |r.value| == |v.items| && forall i :: 0 <= i < |v.items| ==> r.value[i] == Strip(v.items[i].s))
        && (v.Str? ==> r == Ok([v.s]))
        && (!v.List? && !v.Str? ==> r == Ok([]))
    {
      var v := Get(meta, keys.metaTagKey);
      if v.List? then
        StripAllSpec(v.items);
        StripAll(v.items)
      else if v.Str? then Ok([v.s])
      else Ok([])
    }

    /** File.get_name: the last component of the path. */
    function GetName(): (name: string)
      ensures path.parts != [] ==> name == path.parts[|path.parts| - 1]
      ensures path.parts == [] ==> name == ""
    {
      Name(path)
    }
  }

  /** The chunks of a file, one per match, in order. */
  function ChunksOf(f: File, keys: Keys): (cs: seq<Chunk>)
    ensures var ms := FindBlocks(f.body, keys);
      |cs| == |ms| && forall n :: 0 <= n < |ms| ==> cs[n] == Chunk(ms[n].whole, ms[n].body, f)
  {
    var ms := FindBlocks(f.body, keys);
    seq(|ms|, n requires 0 <= n < |ms| => Chunk(ms[n].whole, ms[n].body, f))
  }

  /** A chunk's metadata text is the whole match, not the footer alone: it holds the opening
      fence, the chunk's body and the footer, in that order, so footnote lines in the body
      are read as metadata too. */
  lemma ChunkMetaIsWholeMatch(f: File, keys: Keys, n: nat)
    requires n < |ChunksOf(f, keys)|
    ensures var L := Lines(f.body); var sp := BlockSpans(L, keys)[n]; var c := ChunksOf(f, keys)[n];
      && c.body == BodyText(L, sp)
      && c.meta == "---\n" + (TermConcat(L[sp.open + 1..sp.bodyStart])
           + ((c.body + "\n") + (TermConcat(L[sp.bodyEnd..sp.footerStart]) + FooterText(L, sp))))
  {
    FindBlocksWhole(f.body, keys, n);
  }

  /** The metadata of a chunk's text: footnote pairs whose values are word runs. */
  function ChunkMeta(meta: string, keys: Keys): Meta {
    MetaOf(FindPairs(meta, WordRun), keys)
  }

  /** A class-style note: the model, fields, tags, source file and image paths. */
  datatype SourceNote = SourceNote(guid: string, model: Model, fields: seq<string>, tags: seq<string>,
                                   source: File, images: seq<FsPath>)

  /** What Chunk.extract_note yields: a missing guid is checked first, then the type, the
      fields, the file's tags and the images. */
  function ChunkNote(md: string -> string, c: Chunk, keys: Keys): Result<SourceNote> {
    var pairs := FindPairs(c.meta, WordRun);
    var guid := LastValue(pairs, keys.guidKey);
    if guid.None? then Err(MissingGuid)
    else
      match TypeOf(c.body)
      case Err(e) => Err(e)
      case Ok(t) =>
        match FieldsWithSource(md, c.body, c.file.path)
        case Err(e) => Err(e)
        case Ok(fields) =>
          match c.file.GetTags(keys)
          case Err(e) => Err(e)
          case Ok(fileTags) =>
            match ImagesOf(md, c.body, c.file.path)
            case Err(e) => Err(e)
            case Ok(images) =>
              Ok(SourceNote(guid.value, t.model, fields, Dedup(Values(pairs, keys.tagKey) + fileTags),
                            c.file, images))
  }

  /** A note chunk: the whole match text, the body group and the file it came from. */
  datatype Chunk = Chunk(meta: string, body: string, file: File) {

    /** Chunk._extract_meta: the guid is the last guid pair (None when there is none), the
        tags are all tag pairs in order, other keys are ignored, values are word runs. */
    method ExtractMeta(keys: Keys) returns (metaDict: Meta)
      ensures metaDict == ChunkMeta(meta, keys)
      ensures metaDict[keys.guidKey] == Scalar(LastValue(FindPairs(meta, WordRun), keys.guidKey))
      ensures metaDict[keys.tagKey] == Items(Values(FindPairs(meta, WordRun), keys.tagKey))
    {
      metaDict := Metadata.ExtractMeta(meta, WordRun, keys);
      MetaOfKeys(FindPairs(meta, WordRun), keys);
    }

    /** Chunk._extract_type. */
    method ExtractType() returns (r: Result<NoteKind>)
      ensures r == TypeOf(body)
    {
      r := MatchingType(body);
    }

    /** Chunk._extract_md_fields: the groups of the one match of the type's pattern. */
    method ExtractMdFields() returns (r: Result<seq<string>>)
      ensures r == MdFieldsOf(body)
    {
      var noteType :- ExtractType();
      var matches := Findall(noteType.regex, body);
      if |matches| != 1 {
        return Err(FieldExtraction);
      }
      match matches[0]
      case Groups(gs) => return Ok(gs);
      case Whole(w) => return Ok([w]);
    }

    /** Chunk._extract_html_fields. */
    method ExtractHtmlFields(md: string -> string) returns (r: Result<seq<string>>)
      ensures r.Err? <==> MdFieldsOf(body).Err?
      ensures r.Err? ==> r.error == MdFieldsOf(body).error
      ensures r.Ok? ==> r.value == Rendered(md, MdFieldsOf(body).value)
    {
      var mdFields :- ExtractMdFields();
      var htmlFields := ConvertToHtml(md, mdFields);
      return Ok(htmlFields);
    }

    /** Chunk._extract_fields. */
    method ExtractFields(md: string -> string) returns (r: Result<seq<string>>)
      ensures r == FieldsWithSource(md, body, file.path)
    {
      var fields := [];
      var htmlFields :- ExtractHtmlFields(md);
      fields := fields + htmlFields;
      assert fields == htmlFields;
      var sourceFileName := file.GetName();
      fields := fields + [sourceFileName];
      return Ok(fields);
    }

    /** Chunk._extract_images. */
    method ExtractImages(md: string -> string) returns (r: Result<seq<FsPath>>)
      ensures r == ImagesOf(md, body, file.path)
    {
      var htmlFields :- ExtractHtmlFields(md);
      var relativeImagePaths := [];
      for i := 0 to |htmlFields|
        invariant relativeImagePaths == LastFound(FindImg, htmlFields[..i])
      {
        assert htmlFields[..i + 1][..i] == htmlFields[..i];
        var found := FindImg(htmlFields[i]);
        if |found| >= 1 {
          relativeImagePaths := found;
        }
      }
      assert htmlFields[..|htmlFields|] == htmlFields;
      return Ok(JoinAll(Parent(file.path), relativeImagePaths));
    }

    /** Chunk.extract_note. */
    method ExtractNote(md: string -> string, keys: Keys) returns (r: Result<SourceNote>)
      ensures r == ChunkNote(md, this, keys)
    {
      var metaDict := ExtractMeta(keys);
      var guid := metaDict[keys.guidKey].value;
      var tags := metaDict[keys.tagKey].items;
      if guid.None? {
        return Err(MissingGuid);
      }
      var noteType :- ExtractType();
      var model := noteType.model;
      var fields :- ExtractFields(md);
      var metaTags :- file.GetTags(keys);
      tags := tags + metaTags;
      tags := Dedup(tags);
      var images :- ExtractImages(md);
      return Ok(SourceNote(guid.value, model, fields, tags, file, images));
    }
  }

  /** A chunk fails exactly when it has no guid (checked first), when its body has no single
      type, or when the file's tag list holds something that is not a string. */
  lemma ChunkNoteErrors(md: string -> string, c: Chunk, keys: Keys)
    ensures var pairs := FindPairs(c.meta, WordRun); var r := ChunkNote(md, c, keys);
      && (r.Err? <==> LastIndex(pairs, keys.guidKey) == -1 || TypeOf(c.body).Err? || c.file.GetTags(keys).Err?)
      && (LastIndex(pairs, keys.guidKey) == -1 ==> r == Err(MissingGuid))
      && (LastIndex(pairs, keys.guidKey) != -1 && TypeOf(c.body).Err? ==> r == Err(TypeOf(c.body).error))
  {
    MdFieldsSpec(c.body);
  }

  /** A chunk's note: the guid of the last guid pair, the model of its one type with one
      field per model field (the rendered fields, then the file name), the chunk's tags
      followed by the file's, each once at its first occurrence, and the images of its last
      image field. */
  lemma ChunkNoteOk(md: string -> string, c: Chunk, keys: Keys, t: NoteKind, fileTags: seq<string>)
    requires LastIndex(FindPairs(c.meta, WordRun), keys.guidKey) != -1
    requires TypeOf(c.body) == Ok(t) && c.file.GetTags(keys) == Ok(fileTags)
    ensures var pairs := FindPairs(c.meta, WordRun); var r := ChunkNote(md, c, keys);
      var chunkTags := Values(pairs, keys.tagKey);
      && r.Ok?
      && r.value.guid == Strip(pairs[LastIndex(pairs, keys.guidKey)].text)
      && r.value.model == t.model
      && |r.value.fields| == |t.model.fields| && r.value.fields[|t.model.fields| - 1] == c.file.GetName()
      && NoDuplicates(r.value.tags)
      && (forall x :: x in r.value.tags <==> x in chunkTags || x in fileTags)
      && |Dedup(chunkTags)| <= |r.value.tags| && r.value.tags[..|Dedup(chunkTags)|] == Dedup(chunkTags)
      && r.value.tags == Dedup(chunkTags + fileTags)
      && FieldsWithSource(md, c.body, c.file.path) == Ok(r.value.fields)
      && ImagesOf(md, c.body, c.file.path) == Ok(r.value.images)
      && r.value.source == c.file
  {
    var pairs := FindPairs(c.meta, WordRun);
    var chunkTags := Values(pairs, keys.tagKey);
    FieldsWithSourceSpec(md, c.body, c.file.path);
    MdFieldsSpec(c.body);
    DedupPrefix(chunkTags, fileTags);
  }

  // ---------------------------------------------------------------------------------------
  // The deck (Deck._get_chunks and what it calls)

  /** File.extract_chunks as a function of the file. */
  function ChunksFn(keys: Keys): File -> seq<Chunk> {
    f => ChunksOf(f, keys)
  }

  /** Every chunk of a list of files comes from one of them, and the chunks of two runs of
      files are those of the first run followed by those of the second. */
  lemma AllChunksSpec(a: seq<File>, b: seq<File>, keys: Keys)
    ensures forall c :: c in FlatMap(ChunksFn(keys), a) ==> c.file in a
    ensures FlatMap(ChunksFn(keys), a + b) == FlatMap(ChunksFn(keys), a) + FlatMap(ChunksFn(keys), b)
  {
    FlatMapAppend(ChunksFn(keys), a, b);
    forall c | c in FlatMap(ChunksFn(keys), a) ensures c.file in a {
      FlatMapFrom(ChunksFn(keys), a, c);
      var i :| 0 <= i < |a| && c in ChunksOf(a[i], keys);
      var n :| 0 <= n < |ChunksOf(a[i], keys)| && ChunksOf(a[i], keys)[n] == c;
    }
  }

  /** Deck._extract_source_file: a document as a source file. */
  function SourceFile(doc: Document): File {
    File(doc.path, doc.body, doc.frontmatter)
  }

  /** A deck of the class-style generation, known by its name. */
  datatype SourceDeck = SourceDeck(name: string) {

    /** Deck.get_source_file_paths: the documents whose deck name is this deck's, in the
        given order. */
    method GetSourceFilePaths(docs: seq<Document>, keys: Keys) returns (deckPaths: seq<Document>)
      ensures deckPaths == Decks.InDeck(docs, name, keys.deckTitleKey)
      ensures forall d :: d in deckPaths <==> d in docs && Get(d.frontmatter, keys.deckTitleKey) == Str(name)
    {
      deckPaths := [];
      for i := 0 to |docs|
        invariant deckPaths == Decks.InDeck(docs[..i], name, keys.deckTitleKey)
      {
        assert docs[..i + 1][..i] == docs[..i];
        if Get(docs[i].frontmatter, keys.deckTitleKey) == Str(name) {
          deckPaths := deckPaths + [docs[i]];
        }
      }
      assert docs[..|docs|] == docs;
      Decks.InDeckMembers(docs, name, keys.deckTitleKey);
    }

    /** Deck.get_source_files. */
    method GetSourceFiles(docs: seq<Document>, keys: Keys) returns (sourceFiles: seq<File>)
      ensures var paths := Decks.InDeck(docs, name, keys.deckTitleKey);
        |sourceFiles| == |paths| && forall i :: 0 <= i < |paths| ==> sourceFiles[i] == SourceFile(paths[i])
    {
      var filePaths := GetSourceFilePaths(docs, keys);
      sourceFiles := [];
      for i := 0 to |filePaths|
        invariant |sourceFiles| == i
        invariant forall j :: 0 <= j < i ==> sourceFiles[j] == SourceFile(filePaths[j])
      {
        sourceFiles := sourceFiles + [SourceFile(filePaths[i])];
      }
    }

    /** Deck._get_chunks: the chunks of the deck's files, file by file. */
    method GetChunks(docs: seq<Document>, keys: Keys) returns (chunks: seq<Chunk>)
      ensures exists files: seq<File> ::
        && |files| == |Decks.InDeck(docs, name, keys.deckTitleKey)|
        && (forall i :: 0 <= i < |files| ==> files[i] == SourceFile(Decks.InDeck(docs, name, keys.deckTitleKey)[i]))
        && chunks == FlatMap(ChunksFn(keys), files)
    {
      var sourceFiles := GetSourceFiles(docs, keys);
      chunks := [];
      for i := 0 to |sourceFiles|
        invariant chunks == FlatMap(ChunksFn(keys), sourceFiles[..i])
      {
        assert sourceFiles[..i + 1][..i] == sourceFiles[..i];
        var more := sourceFiles[i].ExtractChunks(keys);
        chunks := chunks + more;
      }
      assert sourceFiles[..|sourceFiles|] == sourceFiles;
    }
  }
}
