/** The block model of the class-style generation (app/models/notes.py): a note block holds
    the footer text and the body of one match and the file it came from. It uses the same
    catalog of note types as the chunks of app/logic/sources.py, but reads footer values to
    the end of the line and extracts no images. */
module BlockNotes {
  import opened Results
  import opened Text
  import opened Settings
  import opened Documents
  import opened Footnotes
  import opened Metadata
  import opened Patterns
  import opened Markup
  import opened Genanki
  import opened Sources

  /** _extract_fields as written: the rendered fields of the one match, without the file
      name that the catalog's models end with. */
  function FieldsAsWritten(md: string -> string, body: string): Result<seq<string>> {
    match MdFieldsOf(body)
    case Err(e) => Err(e)
    case Ok(mdFields) => Ok(Rendered(md, mdFields))
  }

  /** As written, a block's note always has one field fewer than its model declares: the
      Source field is never filled. For the body "q:::a" the question/answer model declares
      three fields and the note gets two. */
  lemma FieldsAsWrittenShort(md: string -> string, body: string)
    ensures TypeOf(body).Ok? ==>
      FieldsAsWritten(md, body).Ok? && |FieldsAsWritten(md, body).value| == |TypeOf(body).value.model.fields| - 1
    ensures TypeOf("q:::a") == Ok(QaKind())
    ensures |FieldsAsWritten(md, "q:::a").value| == 2 && |QaKind().model.fields| == 3
  {
    MdFieldsSpec(body);
    var s := "q:::a";
    assert IsSeparator(s, 1);
    assert !HasCloze(s) by {
      HasClozeSpec(s);
      forall q | 0 <= q <= |s| ensures !ClozeAt(s, q) {
        assert ClozeHeadAt(s, q).None?;
      }
    }
    TypeOfSpec(s);
    MdFieldsSpec(s);
  }

  /** The note a block yields: a missing guid is checked first, then the type, the fields
      (with the file name, as the catalog's models require), the file's tags; no images. */
  function BlockNote(md: string -> string, b: Block, keys: Keys): Result<SourceNote> {
    var pairs := FindPairs(b.metaStr, RestOfLine);
    var guid := LastValue(pairs, keys.guidKey);
    if guid.None? then Err(MissingGuid)
    else
      match TypeOf(b.bodyStr)
      case Err(e) => Err(e)
      case Ok(t) =>
        match FieldsWithSource(md, b.bodyStr, b.file.path)
        case Err(e) => Err(e)
        case Ok(fields) =>
          match b.file.GetTags(keys)
          case Err(e) => Err(e)
          case Ok(fileTags) =>
            Ok(SourceNote(guid.value, t.model, fields, Dedup(Values(pairs, keys.tagKey) + fileTags), b.file, []))
  }

  /** A note block: the footer text, the body and the file it came from. */
  datatype Block = Block(metaStr: string, bodyStr: string, file: File) {

    /** Block._extract_meta: the guid is the last guid pair (None when there is none), the
        tags are all tag pairs in order, other keys are ignored, values run to the end of
        the line and are stripped. */
    method ExtractMeta(keys: Keys) returns (metaDict: Meta)
      ensures metaDict == MetaOf(FindPairs(metaStr, RestOfLine), keys)
      ensures metaDict[keys.guidKey] == Scalar(LastValue(FindPairs(metaStr, RestOfLine), keys.guidKey))
      ensures metaDict[keys.tagKey] == Items(Values(FindPairs(metaStr, RestOfLine), keys.tagKey))
    {
      metaDict := Metadata.ExtractMeta(metaStr, RestOfLine, keys);
      MetaOfKeys(FindPairs(metaStr, RestOfLine), keys);
    }

    /** Block._extract_type. */
    method ExtractType() returns (r: Result<NoteKind>)
      ensures r == TypeOf(bodyStr)
    {
      r := MatchingType(bodyStr);
    }

    /** Block._extract_fields as written. */
    method ExtractFieldsAsWritten(md: string -> string) returns (r: Result<seq<string>>)
      ensures r == FieldsAsWritten(md, bodyStr)
    {
      var noteType :- ExtractType();
      var matches := Findall(noteType.regex, bodyStr);
      var mdFields;
      if |matches| != 1 {
        return Err(FieldExtraction);
      } else if matches[0].Groups? {
        mdFields := matches[0].groups;
      } else {
        mdFields := [matches[0].text];
      }
      var htmlFields := ConvertToHtml(md, mdFields);
      return Ok(htmlFields);
    }

    /** Block._extract_fields, corrected: the file name follows the rendered fields, as in
        Chunk._extract_fields, so that the note fills its model. */
    method ExtractFields(md: string -> string) returns (r: Result<seq<string>>)
      ensures r == FieldsWithSource(md, bodyStr, file.path)
    {
      var htmlFields :- ExtractFieldsAsWritten(md);
      var sourceFileName := file.GetName();
      return Ok(htmlFields + [sourceFileName]);
    }

    /** Block._extract_images: no images. */
    function ExtractImages(): (imagePaths: seq<FsPath>)
      ensures |imagePaths| == 0
    {
      []
    }

    /** Block.extract_note, with the corrected fields. */
    method ExtractNote(md: string -> string, keys: Keys) returns (r: Result<SourceNote>)
      ensures r == BlockNote(md, this, keys)
    {
      var metaDict := ExtractMeta(keys);
      var guid := metaDict[keys.guidKey].value;
      var tags := metaDict[keys.tagKey].items;
      if guid.None? {
        return Err(MissingGuid);
      }
      var noteType :- ExtractType();
      var model := noteType.model;
      var fields :- ExtractFields(md);
      var metaTags :- file.GetTags(keys);
      tags := tags + metaTags;
      tags := Dedup(tags);
      var images := ExtractImages();
      return Ok(SourceNote(guid.value, model, fields, tags, file, images));
    }
  }

  /** A block fails exactly when it has no guid (checked first), when its body has no single
      type, or when the file's tag list holds something that is not a string. */
  lemma BlockNoteErrors(md: string -> string, b: Block, keys: Keys)
    ensures var pairs := FindPairs(b.metaStr, RestOfLine); var r := BlockNote(md, b, keys);
      && (r.Err? <==> LastIndex(pairs, keys.guidKey) == -1 || TypeOf(b.bodyStr).Err? || b.file.GetTags(keys).Err?)
      && (LastIndex(pairs, keys.guidKey) == -1 ==> r == Err(MissingGuid))
      && (LastIndex(pairs, keys.guidKey) != -1 && TypeOf(b.bodyStr).Err? ==> r == Err(TypeOf(b.bodyStr).error))
  {
    MdFieldsSpec(b.bodyStr);
  }

  /** A block's note: the guid of the last guid pair, the model of its one type, filled
      field for field, the block's tags followed by the file's, each once, the block's first;
      and no images. */
  lemma BlockNoteOk(md: string -> string, b: Block, keys: Keys, t: NoteKind, fileTags: seq<string>)
    requires LastIndex(FindPairs(b.metaStr, RestOfLine), keys.guidKey) != -1
    requires TypeOf(b.bodyStr) == Ok(t) && b.file.GetTags(keys) == Ok(fileTags)
    ensures var pairs := FindPairs(b.metaStr, RestOfLine); var r := BlockNote(md, b, keys);
      var blockTags := Values(pairs, keys.tagKey);
      && r.Ok?
      && r.value.guid == Strip(pairs[LastIndex(pairs, keys.guidKey)].text)
      && r.value.model == t.model
      && |r.value.fields| == |t.model.fields| && r.value.fields[|t.model.fields| - 1] == b.file.GetName()
      && NoDuplicates(r.value.tags)
      && (forall x :: x in r.value.tags <==> x in blockTags || x in fileTags)
      && |Dedup(blockTags)| <= |r.value.tags| && r.value.tags[..|Dedup(blockTags)|] == Dedup(blockTags)
      && r.value.tags == Dedup(blockTags + fileTags)
      && FieldsWithSource(md, b.bodyStr, b.file.path) == Ok(r.value.fields)
      && r.value.images == []
  {
    var pairs := FindPairs(b.metaStr, RestOfLine);
    FieldsWithSourceSpec(md, b.bodyStr, b.file.path);
    MdFieldsSpec(b.bodyStr);
    DedupPrefix(Values(pairs, keys.tagKey), fileTags);
  }
}
