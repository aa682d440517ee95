/** The function-style note extraction (app/logic/parser.py): a document body is cut into
    note blocks, and each block becomes a note with a guid, a model, HTML fields and tags. */
module Parser {
  import opened Text
  import opened Results
  import opened Settings
  import opened Blocks
  import opened Footnotes
  import opened Metadata
  import opened Patterns
  import opened Markup
  import opened Genanki
  import opened NoteModels

  /** A note block: the stripped footer (metadata) and the stripped body. */
  datatype NoteBlock = NoteBlock(meta: string, body: string)

  // ---------------------------------------------------------------------------------------
  // Splitting a page into blocks

  /** The stripped footer and body of each match, in order. */
  function BlocksOf(ms: seq<RawMatch>): (blocks: seq<NoteBlock>)
    ensures |blocks| == |ms|
    ensures forall i :: 0 <= i < |ms| ==> blocks[i] == NoteBlock(Strip(ms[i].footer), Strip(ms[i].body))
  {
    seq(|ms|, i requires 0 <= i < |ms| => NoteBlock(Strip(ms[i].footer), Strip(ms[i].body)))
  }

  /** The blocks of a document body: one per match of the block expression, in order. */
  function PageBlocks(contents: string, keys: Keys): seq<NoteBlock> {
    BlocksOf(FindBlocks(contents, keys))
  }

  /** split_markdown_page: the loop over the matches, stripping the two groups. */
  method SplitMarkdownPage(contents: string, keys: Keys) returns (blocks: seq<NoteBlock>)
    ensures blocks == PageBlocks(contents, keys)
  {
    var matches := FindBlocks(contents, keys);
    blocks := [];
    for n := 0 to |matches|
      invariant blocks == BlocksOf(matches)[..n]
    {
      var noteMeta := Strip(matches[n].footer);
      var noteBody := Strip(matches[n].body);
      blocks := blocks + [NoteBlock(noteMeta, noteBody)];
    }
  }

  /** What the blocks of a page are: each is the stripped body and footer of a match of the
      block expression, taken in document order from non-overlapping spans of lines; both
      halves are stripped. */
  lemma PageBlocksSpans(contents: string, keys: Keys, i: nat)
    requires i < |PageBlocks(contents, keys)|
    ensures var L := Lines(contents); var spans := BlockSpans(L, keys);
      && |spans| == |PageBlocks(contents, keys)|
      && IsMatch(L, spans[i], keys)
      && PageBlocks(contents, keys)[i].body == Strip(BodyText(L, spans[i]))
      && PageBlocks(contents, keys)[i].meta == Strip(FooterText(L, spans[i]))
      && (i + 1 < |spans| ==> spans[i].end <= spans[i + 1].open)
      && IsStripped(PageBlocks(contents, keys)[i].body)
      && IsStripped(PageBlocks(contents, keys)[i].meta)
  {
    BlockSpansSound(Lines(contents), keys, i);
    FindBlocksAt(contents, keys, i);
  }

  /** A page yields no block exactly when the block expression matches nowhere in it. */
  lemma PageBlocksEmpty(contents: string, keys: Keys)
    ensures PageBlocks(contents, keys) == [] <==> NoMatch(Lines(contents), keys)
  {
    var L := Lines(contents);
    BlockSpansEmpty(L, keys);
    assert |PageBlocks(contents, keys)| == |BlockSpans(L, keys)|;
  }

  // ---------------------------------------------------------------------------------------
  // Classification and fields

  /** classify_note: cloze first, as the more specific type, then question/answer. */
  function ClassifyNote(body: string): Result<NoteType> {
    if HasCloze(body) then Ok(Cloze)
    else if QaSplit(body).Some? then Ok(QuestionAnswer)
    else Err(InvalidNoteType)
  }

  /** A body holding a cloze deletion is a cloze note, even when it also splits as a
      question and an answer; otherwise it is a question/answer note if some ":::" has text
      on both sides; otherwise it is invalid. */
  lemma ClassifyNoteSpec(body: string)
    ensures var r := ClassifyNote(body);
      && (r == Ok(Cloze) <==> exists q :: 0 <= q <= |body| && ClozeAt(body, q))
      && (r == Ok(QuestionAnswer) <==>
            (forall q :: 0 <= q <= |body| ==> !ClozeAt(body, q)) && exists p :: IsSeparator(body, p))
      && (r.Err? <==> r == Err(InvalidNoteType))
      && (r.Err? <==>
            (forall q :: 0 <= q <= |body| ==> !ClozeAt(body, q)) && forall p :: !IsSeparator(body, p))
  {
    HasClozeSpec(body);
  }

  /** get_model: the model registered for a note type. Every note type has one, so the
      source's "no model" error cannot happen. */
  function GetModel(t: NoteType): (m: Model)
    ensures m.kind == (if t == Cloze then ClozeCards else FrontBack)
  {
    match t
    case QuestionAnswer => GetModelQa()
    case Cloze => GetModelCz()
  }

  /** The fields a body of type t yields: the question and the answer of the single match of
      the question/answer pattern, or the whole body for a cloze, each rendered to HTML. */
  function FieldsOf(md: string -> string, body: string, t: NoteType): Result<seq<string>> {
    match t
    case QuestionAnswer =>
      var matches := FindQa(body);
      if |matches| != 1 then Err(FieldExtraction) else Ok(Rendered(md, matches[0].groups))
    case Cloze => Ok(Rendered(md, [body]))
  }

  /** extract_fields_qa: exactly one match is required; its two groups are rendered. */
  method ExtractFieldsQa(md: string -> string, body: string) returns (r: Result<seq<string>>)
    ensures r == FieldsOf(md, body, QuestionAnswer)
    ensures r.Ok? <==> exists p :: IsSeparator(body, p)
    ensures r.Ok? ==> exists q, a ::
      && body == q + ":::" + a && |q| >= 1 && |a| >= 1
      && r.value == [md(q), md(a)]
  {
    var matches := FindQa(body);
    if |matches| != 1 {
      return Err(FieldExtraction);
    }
    var mdFields := matches[0].groups;
    var htmlFields := ConvertToHtml(md, mdFields);
    r := Ok(htmlFields);
    assert mdFields == [QaSplit(body).value.0, QaSplit(body).value.1];
  }

  /** extract_fields_cz: the whole body is the one field. */
  method ExtractFieldsCz(md: string -> string, body: string) returns (r: Result<seq<string>>)
    ensures r == FieldsOf(md, body, Cloze)
    ensures r == Ok([md(body)])
  {
    var htmlFields := ConvertToHtml(md, [body]);
    assert htmlFields == [md(body)];
    r := Ok(htmlFields);
  }

  /** extract_fields: dispatch on the note type. */
  method ExtractFields(md: string -> string, body: string, t: NoteType) returns (r: Result<seq<string>>)
    ensures r == FieldsOf(md, body, t)
  {
    match t
    case QuestionAnswer => r := ExtractFieldsQa(md, body);
    case Cloze => r := ExtractFieldsCz(md, body);
  }

  // ---------------------------------------------------------------------------------------
  // Notes

  /** parse_note_meta's result: the guid (its absence is an error) and the tag list. */
  function MetaOfBlock(meta: string, keys: Keys): Result<(string, seq<string>)> {
    var pairs := FindPairs(meta, RestOfLine);
    var guid := LastValue(pairs, keys.guidKey);
    if guid.None? then Err(MissingGuid) else Ok((guid.value, Values(pairs, keys.tagKey)))
  }

  /** parse_note_body's result: the model and the fields of a body. */
  function BodyOf(md: string -> string, body: string): Result<(Model, seq<string>)> {
    match ClassifyNote(body)
    case Err(e) => Err(e)
    case Ok(t) =>
      match FieldsOf(md, body, t)
      case Err(e) => Err(e)
      case Ok(fields) => Ok((GetModel(t), fields))
  }

  /** The note a block yields: metadata first (a missing guid is an error before the body is
      looked at), then the note type, its model and its fields. */
  function NoteOf(md: string -> string, block: NoteBlock, keys: Keys): Result<Note> {
    match MetaOfBlock(block.meta, keys)
    case Err(e) => Err(e)
    case Ok((guid, tags)) =>
      match BodyOf(md, block.body)
      case Err(e) => Err(e)
      case Ok((model, fields)) => Ok(Note(guid, model, fields, tags))
  }

  /** parse_note_meta. */
  method ParseNoteMeta(meta: string, keys: Keys) returns (r: Result<(string, seq<string>)>)
    ensures r == MetaOfBlock(meta, keys)
  {
    var metaDict := ExtractMeta(meta, RestOfLine, keys);
    MetaOfKeys(FindPairs(meta, RestOfLine), keys);
    var guid := metaDict[keys.guidKey].value;
    var tags := metaDict[keys.tagKey].items;
    if guid.None? {
      return Err(MissingGuid);
    }
    return Ok((guid.value, tags));
  }

  /** parse_note_body. */
  method ParseNoteBody(md: string -> string, body: string) returns (r: Result<(Model, seq<string>)>)
    ensures r == BodyOf(md, body)
  {
    var t :- ClassifyNote(body);
    var model := GetModel(t);
    var fields :- ExtractFields(md, body, t);
    return Ok((model, fields));
  }

  /** parse_note_block. */
  method ParseNoteBlock(md: string -> string, block: NoteBlock, keys: Keys) returns (r: Result<Note>)
    ensures r == NoteOf(md, block, keys)
  {
    var meta :- ParseNoteMeta(block.meta, keys);
    var body :- ParseNoteBody(md, block.body);
    var (guid, tags) := meta;
    var (model, fields) := body;
    return Ok(Note(guid, model, fields, tags));
  }

  /** The guid is the stripped value of the last guid pair of the footer, and its absence is
      the only metadata error; the tags are the values of all tag pairs, in order. */
  lemma MetaOfBlockSpec(meta: string, keys: Keys)
    ensures var pairs := FindPairs(meta, RestOfLine); var r := MetaOfBlock(meta, keys);
      && (r.Err? <==> LastIndex(pairs, keys.guidKey) == -1)
      && (r.Err? ==> r.error == MissingGuid)
      && (r.Ok? ==> r.value.0 == Strip(pairs[LastIndex(pairs, keys.guidKey)].text)
                    && r.value.1 == Values(pairs, keys.tagKey))
  {
  }

  /** A body is rejected exactly when it is neither a cloze nor a question/answer note, and
      then with the invalid-type error: a body that classifies as question/answer always has
      the single match its fields need. */
  lemma BodyOfErrors(md: string -> string, body: string)
    ensures var r := BodyOf(md, body);
      && (r.Err? <==> !HasCloze(body) && QaSplit(body).None?)
      && (r.Err? ==> r.error == InvalidNoteType)
  {
  }

  /** A cloze note has the whole body as its one field, as its model declares. */
  lemma BodyOfCloze(md: string -> string, body: string)
    requires HasCloze(body)
    ensures BodyOf(md, body) == Ok((GetModelCz(), [md(body)]))
    ensures |BodyOf(md, body).value.1| == |GetModelCz().fields|
  {
    assert [body][..0] == [];
    assert Rendered(md, [body]) == [md(body)];
  }

  /** A question/answer note has the two sides of its last ":::" as its two fields, as its
      model declares. */
  lemma BodyOfQa(md: string -> string, body: string)
    requires !HasCloze(body) && QaSplit(body).Some?
    ensures var (q, a) := QaSplit(body).value;
      && body == q + ":::" + a
      && BodyOf(md, body) == Ok((GetModelQa(), [md(q), md(a)]))
      && |BodyOf(md, body).value.1| == |GetModelQa().fields|
  {
    var (q, a) := QaSplit(body).value;
    assert FindQa(body)[0].groups == [q, a];
    RenderedAt(md, [q, a], 0);
    RenderedAt(md, [q, a], 1);
    assert Rendered(md, [q, a]) == [md(q), md(a)];
  }

  /** A block's note: an error from the footer wins over one from the body; otherwise the
      note pairs the footer's guid and tags with the body's model and fields. */
  lemma NoteOfSpec(md: string -> string, block: NoteBlock, keys: Keys)
    ensures var r := NoteOf(md, block, keys);
      var m := MetaOfBlock(block.meta, keys); var b := BodyOf(md, block.body);
      && (m.Err? ==> r == Err(m.error))
      && (m.Ok? && b.Err? ==> r == Err(b.error))
      && (m.Ok? && b.Ok? ==> r == Ok(Note(m.value.0, b.value.0, b.value.1, m.value.1)))
  {
  }
}
