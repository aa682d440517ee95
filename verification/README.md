# ankcompiler note extraction, modelled in Dafny

ankcompiler compiles markdown notes into Anki decks. A markdown document carries a YAML
frontmatter (its deck name and tags) and a body. The body holds note blocks delimited by
`---` fences. Each block is followed by footnote lines: `[^tag]: …` for tags and
`[^id]: <10 alphanumerics>` for the note's guid. A block's body is a question/answer note
(`question:::answer`) or a cloze note (`{{c1::…}}`).

This project models the path from a document to note records and decks. It covers both
generations of that path:

- The function-style generation:
  - `app/logic/parser.py` splits a page into (footer, body) blocks, reads the footer
    metadata, classifies the body with cloze taking priority, extracts the fields and
    renders them to HTML.
  - `app/logic/deck.py` lists the deck names, filters documents by deck, collects the notes
    of a deck in file order, derives the deck id and cleans deck names.
  - `app/logic/utils.py` provides the two digests. The integer hash folds the bits of the
    first 20 bytes of a SHA-256 hex digest. The string hash is the first 10 characters of the
    URL-safe base64 of the digest (section 5 of RFC 4648).
  - `app/logic/notes.py` holds the note-type enumeration and the two models.
- The class-style generation:
  - `app/logic/sources.py`: `File`, `Chunk`, `NoteType.get_types` and the filtering part of
    `Deck`. Here exactly one note type must match a body, and the file name is appended as
    a field.
  - `app/models/notes.py`: a copy of the chunk logic, as `Block`.

## Modules

- `Results`: options, error kinds and results. Also holds the generic "first error wins" map
  (`Collect`) and concatenating map (`Gather`).
- `Settings`: the key names (guid, tag, deck title, frontmatter tag). They are parameters here.
- `Text`: whitespace classes, `str.strip`, line splitting, order-preserving de-duplication
  and `FlatMap`.
- `Scanning`: a generic left-to-right, non-overlapping `findall` over a matcher.
- `Footnotes`: the `[^key]: value` recogniser. It comes in two value shapes: rest of line
  (`.+`) and word run (`\w+`).
- `Metadata`: the metadata dictionary loop.
- `Blocks`: the block grammar, recognised line by line.
- `Patterns`: the `:::`, cloze and `<img … src="…">` patterns.
- `Markup`: the field conversion to HTML. The markdown renderer is a parameter.
- `Genanki` and `NoteModels`: models, notes and decks as plain data.
- `Documents`: frontmatter values, paths and documents.
- `Parser` and `Decks`: the function-style generation.
- `Hashing`: the two digests. SHA-256 is a parameter.
- `Sources` and `BlockNotes`: the class-style generation.

Loops in the source are methods with loop invariants. Each method is proved equal to a
specification function, and the lemmas beside that function state what the source
promises.

Where the documentation and the code disagree, the model follows the code:

- The class-style chunk's metadata text is the whole match, including the block itself, not
  only the footer group (`app/logic/sources.py:120`).
- Its metadata values are word runs (`\w+`), not the rest of the line.
- The two generations classify a body that is both a cloze and a question/answer note
  differently. The function style calls it a cloze; the class style rejects it as
  ambiguous (see `Sources.ClassifiersCompared`).

## Model

| member | source | states |
|---|---|---|
| Blocks.FooterEndSpec | app/logic/parser.py:31-34 | the footer group is tag lines, at most one id line and tag lines again, each with the empty lines after it, and it is greedy: the line after it is no further tag line, no further empty line once the group is non-empty, and no id line when the group has none |
| Blocks.FooterEndUnique | app/logic/parser.py:31-37 | any end with the footer's shape that cannot be extended is the footer group's end, so the group is determined by where it starts |
| Blocks.GuidIsNotTag | app/logic/parser.py:50-64 | no footer line is both an id line and a tag line |
| Blocks.MatchAtSound | app/logic/parser.py:31-37 | a match found at an opening fence has the shape of the block expression: fence, all the blank lines after it, the shortest body, blank line, closing fence, all the empty lines after it, and the greedy footer group |
| Blocks.MatchAtUnique | app/logic/parser.py:31-37 | the converse: any span with that shape at a line is the match reported there, so the shape determines the match |
| Blocks.MatchAtComplete | app/logic/parser.py:36-37 | an opening fence gives no match only when no body can start or end after it |
| Blocks.BlockSpansSound | app/logic/parser.py:37-39 | every reported span is the match of the block expression at its opening line |
| Blocks.BlockSpansComplete | app/logic/parser.py:39 | no line skipped before, between or after the reported spans opens a match |
| Blocks.BlockSpansEmpty | app/logic/parser.py:39-47 | there is no span exactly when no line opens a match |
| Blocks.FindBlocksWhole | app/logic/sources.py:113-116 | the whole match is the fence, the padding, the body group, the closing fence and then the footer group |
| Parser.SplitMarkdownPage | app/logic/parser.py:28-47 | the loop gives one block per match, stripped footer and stripped body, in order |
| Parser.PageBlocksSpans | app/logic/parser.py:39-47 | block i is the stripped body and footer of the i-th match, the spans do not overlap and come in document order, and both halves are stripped |
| Parser.PageBlocksEmpty | app/logic/parser.py:39-47 | a page gives no block, not an error, exactly when the block expression matches nowhere |
| Text.StripSpec | app/logic/parser.py:43-45 | strip removes exactly the leading and trailing whitespace and leaves a stripped string |
| Footnotes.FindPairs | app/logic/parser.py:101 | the pairs are the values of the footnote matches found left to right |
| Footnotes.FindPairsSound | app/logic/parser.py:101 | every pair is a `[^key]: value` match of the footer text |
| Footnotes.PairAtComplete | app/logic/parser.py:101 | any `[^key]: value` match at a position is the one the recogniser reports there, with the same end, key and value |
| Footnotes.FindPairsComplete | app/logic/parser.py:101 | no footnote match is lost: each one is reported with its own key and value, or starts inside a reported match |
| Scanning.FindAllCovers | app/logic/parser.py:101 | every match position is reported or lies inside a reported match, as findall resumes after each match |
| Footnotes.FootnoteLineRoundTrip | app/logic/parser.py:101-107 | a single footnote line `[^key]: value` reads back as exactly that key and value |
| Metadata.LastValue | app/logic/parser.py:112-118 | the scalar slot holds the stripped value of the last pair with the key, None when there is none |
| Metadata.CollectMeta | app/logic/parser.py:99-120 | the dictionary loop gives the guid of the last id pair and the tag values in order |
| Metadata.ExtractMeta | app/logic/parser.py:95-120 | extract_meta is findall of the footnote expression followed by the dictionary loop |
| Metadata.MetaOfKeys | app/logic/parser.py:99 | the dictionary holds exactly the guid key (a scalar) and the tag key (a list) |
| Metadata.ValuesAppend | app/logic/parser.py:115-116 | tags accumulate in order: the tags of a concatenation are the concatenated tags |
| Metadata.UnknownKeyIgnored | app/logic/parser.py:112-113 | a pair with any other key changes nothing, wherever it stands |
| Metadata.LastValueAppend | app/logic/parser.py:117-118 | the last id pair wins: a later part with an id overrides an earlier one |
| Patterns.HasClozeSpec | app/logic/parser.py:153-156 | the cloze pattern is found exactly when some `{{cN::…}}` span occurs in the body |
| Patterns.FindQa | app/logic/parser.py:153 | `(.+):::(.+)` gives at most one match, and it splits at the last separator with text on both sides |
| Patterns.FindClozeBody | app/logic/sources.py:327-333 | the class-style cloze pattern matches the whole body when a cloze occurs, and nothing otherwise |
| Patterns.ImgSrc | app/logic/sources.py:271-275 | a found path lies between the last `src="` and the last quote, with `<img` before it |
| Patterns.ImgSrcComplete | app/logic/sources.py:271-276 | the image pattern matches whenever `<img`, `src="` and a quote occur in that order |
| Parser.ClassifyNoteSpec | app/logic/parser.py:123-143 | a body with a cloze is a cloze note even if it has `:::`; otherwise `:::` with text on both sides gives question/answer; otherwise it is invalid |
| Parser.GetModel | app/logic/parser.py:164-177 | each note type has its model: front/back for question/answer, cloze cards for cloze |
| Parser.ExtractFieldsQa | app/logic/parser.py:198-210 | it succeeds iff a separator exists; the two rendered fields come from q and a, with body = q + ":::" + a and both non-empty |
| Parser.ExtractFieldsCz | app/logic/parser.py:213-220 | the one field is the whole body, rendered |
| Parser.ExtractFields | app/logic/parser.py:180-195 | it dispatches on the note type to the matching extractor |
| Markup.ConvertToHtml | app/logic/parser.py:223-232 | one HTML field per markdown field, in the same order |
| Markup.RenderedAt | app/logic/parser.py:229-230 | field i of the conversion is the rendering of field i |
| Parser.ParseNoteMeta | app/logic/parser.py:70-77 | gives the guid and tags of the footer, or the missing-guid error |
| Parser.ParseNoteBody | app/logic/parser.py:79-85 | gives the model and fields of the body |
| Parser.ParseNoteBlock | app/logic/parser.py:67-92 | a block's note pairs the footer's guid and tags with the body's model and fields |
| Parser.MetaOfBlockSpec | app/logic/parser.py:70-77 | a missing id is the only footer error; the guid is the last id value stripped, and the tags are all tag values in order |
| Parser.BodyOfErrors | app/logic/parser.py:79-85 | a body fails exactly when it is neither cloze nor question/answer, and then with the invalid-type error |
| Parser.BodyOfCloze | app/logic/parser.py:213-220 | a cloze body gives the cloze model and one field, matching the model's field count |
| Parser.BodyOfQa | app/logic/parser.py:198-210 | a question/answer body gives the QA model and the fields [q, a], matching the model's field count |
| Parser.NoteOfSpec | app/logic/parser.py:67-92 | a footer error wins over a body error; otherwise the note is guid, model, fields and tags |
| NoteModels.ModelsDistinct | app/logic/notes.py:13-47 | the two models have distinct ids; QA is front/back and cloze is cloze |
| Decks.DeckNames | app/logic/deck.py:24-29 | the names are exactly the deck values of the documents that are not None; a document without the key contributes nothing |
| Decks.ListOfSet | app/logic/deck.py:31 | list(set) holds each element of the set exactly once |
| Decks.ListSourceDecks | app/logic/deck.py:14-31 | every non-None deck name occurs exactly once; an unhashable name is the only error |
| Decks.InDeckMembers | app/logic/deck.py:45-52 | a document is kept exactly when its deck name equals the requested name |
| Decks.InDeckAppend | app/logic/deck.py:45-52 | the filter keeps order: filtering a concatenation concatenates the filtered parts |
| Decks.GetSourceDeckPaths | app/logic/deck.py:34-52 | the loop is the order-preserving filter on the deck name |
| Decks.DocNotesSpec | app/logic/deck.py:65-74 | one note per block in block order when every block parses; otherwise the error of the first failing block |
| Decks.GetNotes | app/logic/deck.py:65-74 | get_notes is the notes of the page's blocks |
| Decks.ParseNoteBlocks | app/logic/deck.py:71-74 | the loop parses each block in order and stops at the first error |
| Decks.CreateDeck | app/logic/deck.py:100-102 | the deck id is the integer hash of the name, between 0 and 336860180, and the deck starts empty |
| Decks.CompileDeck | app/logic/deck.py:77-97 | the deck's notes are those of its documents in order, in the deck created for its name, packaged under the cleaned name |
| Decks.GetDeckNotes | app/logic/deck.py:89-91 | the loop concatenates the notes of each source document in order |
| Decks.CompiledNotes | app/logic/deck.py:85-91 | the notes of a deck over two runs of documents are the notes of the first run followed by those of the second |
| Decks.CompileDecks | app/logic/deck.py:55-62 | each deck compiles in turn; on success there is one package per name; a failure is that of the first deck that fails, after every earlier deck compiled |
| Decks.Substitute | app/logic/deck.py:107 | the substitution preserves length |
| Decks.CleanDeckNameSpec | app/logic/deck.py:105-107 | one character per character: letters lowered, digits kept, anything else '-'; the result holds only [a-z0-9-] |
| Decks.CleanDeckNameIdempotent | app/logic/deck.py:105-107 | cleaning a cleaned name changes nothing |
| Hashing.HexDigest | app/logic/utils.py:48 | the hex digest has two digits per byte |
| Hashing.ParseHexPair | app/logic/utils.py:52 | int(_, 16) of two hex digits is a byte |
| Hashing.ParseHexPairRoundTrip | app/logic/utils.py:52 | decoding the two digits of a byte gives back the byte |
| Hashing.HexDigestAt | app/logic/utils.py:51-52 | digits 2j and 2j+1 are those of byte j |
| Hashing.HexDigestPrefix | app/logic/utils.py:48-51 | the first 40 digits are exactly those of the first 20 bytes |
| Hashing.HexByteAt | app/logic/utils.py:51-52 | each pair read by the loop decodes to the corresponding digest byte |
| Hashing.GenerateIntegerHash | app/logic/utils.py:46-58 | the nested loops compute the fold of the first 20 bytes of the digest of the text |
| Hashing.FoldCountsBits | app/logic/utils.py:52-56 | the fold is c0*2^24 + c1*2^16 + c2*2^8 + c3, with cj the number of bytes with bit j set |
| Hashing.IntegerHashBounds | app/logic/utils.py:46-58 | 0 <= hash <= 336860180 < 2^31, and the hash depends only on the first 20 digest bytes |
| Hashing.EncodeGroup | app/logic/utils.py:64 | three bytes give four characters of the URL-safe alphabet |
| Hashing.GroupRoundTrip | app/logic/utils.py:64 | decoding an encoded group gives back its three bytes |
| Hashing.GenerateStringHash | app/logic/utils.py:61-68 | the string hash has exactly 10 characters |
| Hashing.StringHashAlphabet | app/logic/utils.py:61-68 | all 10 characters are in A-Z a-z 0-9 - _ |
| Hashing.StringHashPrefix | app/logic/utils.py:64-68 | the string hash depends only on the first 8 digest bytes |
| Sources.CatalogDistinct | app/logic/sources.py:301-345 | two note types with distinct names, patterns and model ids, each model ending with the Source field |
| Sources.MatchingType | app/logic/sources.py:212-228 | the loop keeps the catalog entries whose pattern matches and requires exactly one |
| Sources.TypeOfSpec | app/logic/sources.py:212-228 | zero matches is an error, two is an error, and otherwise the unique match is returned |
| Sources.ClassifiersCompared | app/logic/sources.py:212-228 | the two generations disagree exactly on bodies that are both cloze and question/answer |
| Sources.MdFieldsSpec | app/logic/sources.py:251-266 | once a type is found its pattern matches once: QA gives [q, a], cloze gives [body], one field fewer than the model |
| Sources.FieldsWithSourceSpec | app/logic/sources.py:230-242 | the fields are the rendered markdown fields followed by the file name, one per model field |
| Sources.LastFoundSpec | app/logic/sources.py:273-277 | only the last field where the image pattern matches contributes; none gives [] |
| Sources.JoinAll | app/logic/sources.py:279-281 | each image path is joined to the file's parent directory |
| Documents.PathOf | app/logic/sources.py:279-281 | `Path(x)`: the components without empty ones and ".", relative without a leading slash, rooted at "//" with exactly two leading slashes and at "/" otherwise |
| Documents.JoinParent | app/logic/sources.py:279-281 | a relative image path joined to the file's directory stays in that directory and keeps its own name |
| Documents.LeadingSlashes | app/logic/sources.py:279-281 | an image path "//x" keeps its double-slash root, while "///x" reads as "/x" |
| Sources.StripAllSpec | app/logic/sources.py:130-131 | every item of a tag list is stripped in order; an item that is not a string is an error |
| Sources.File.ExtractChunks | app/logic/sources.py:102-123 | one chunk per match, in order, with the whole match as metadata and the body group as body |
| Sources.File.GetTags | app/logic/sources.py:125-138 | a list gives its items stripped, a string gives itself, anything else or missing gives [] |
| Sources.File.GetName | app/logic/sources.py:140-142 | the name is the last path component |
| Sources.ChunksOf | app/logic/sources.py:116-121 | chunk n is the whole text and body of match n of the file |
| Sources.ChunkMetaIsWholeMatch | app/logic/sources.py:114-120 | a chunk's metadata text is the whole match, block included, ending with the footer group |
| Sources.Chunk.ExtractMeta | app/logic/sources.py:183-210 | the guid is the last word-run id value, the tags are the word-run tag values in order, other keys are ignored |
| Sources.Chunk.ExtractType | app/logic/sources.py:212-228 | the chunk's type is the one matching catalog entry |
| Sources.Chunk.ExtractMdFields | app/logic/sources.py:251-266 | the groups of the single match of the type's pattern |
| Sources.Chunk.ExtractHtmlFields | app/logic/sources.py:244-249 | the markdown fields rendered, or the markdown fields' error |
| Sources.Chunk.ExtractFields | app/logic/sources.py:230-242 | the rendered fields followed by the file name |
| Sources.Chunk.ExtractImages | app/logic/sources.py:268-282 | the paths of the last field with an image, joined to the file's directory |
| Sources.Chunk.ExtractNote | app/logic/sources.py:151-181 | extract_note assembles guid, model, fields, merged tags, file and images |
| Sources.ChunkNoteErrors | app/logic/sources.py:156-165 | a chunk fails exactly when it has no id (checked first), no single type, or a frontmatter tag that is not a string |
| Sources.ChunkNoteOk | app/logic/sources.py:156-181 | the note has the last id and the type's model; its fields are the rendered fields then the file name, one per model field; its tags are Dedup(chunk tags + file tags), so the chunk tags come first and each tag appears once at its first occurrence; its images are those of the last image field |
| Sources.AllChunksSpec | app/logic/sources.py:49-57 | the chunks are concatenated file by file, and each comes from one of the files |
| Sources.SourceDeck.GetSourceFilePaths | app/logic/sources.py:70-85 | the files whose deck name equals the deck's, in search order |
| Sources.SourceDeck.GetSourceFiles | app/logic/sources.py:59-68 | one source file per kept path, in order |
| Sources.SourceDeck.GetChunks | app/logic/sources.py:49-57 | the chunks of the deck's files, concatenated file by file |
| Text.Dedup | app/logic/sources.py:167-168 | the distinct tags, each at its first occurrence, in first-occurrence order |
| Text.DedupPrefix | app/logic/sources.py:166-168 | the de-duplicated block tags come first, unchanged, before the file tags |
| Text.DedupOfDistinct | app/logic/sources.py:167-168 | a list without repeated tags is left as it is |
| BlockNotes.Block.ExtractMeta | app/models/notes.py:50-75 | the guid is the last rest-of-line id value stripped, tags are appended in order, other keys are ignored |
| BlockNotes.Block.ExtractType | app/models/notes.py:77-93 | zero or several matching types is an error; otherwise the single match |
| BlockNotes.FieldsAsWrittenShort | app/models/notes.py:95-114 | as written, a block's fields are one fewer than its model's: "q:::a" gives 2 fields for 3 |
| BlockNotes.Block.ExtractFieldsAsWritten | app/models/notes.py:95-114 | the rendered groups of the single match, without the file name |
| BlockNotes.Block.ExtractFields | app/models/notes.py:95-114 | corrected: the rendered fields followed by the file name |
| BlockNotes.Block.ExtractImages | app/models/notes.py:116-119 | always the empty list |
| BlockNotes.Block.ExtractNote | app/models/notes.py:18-48 | assembles the note from the guid, model, corrected fields, merged tags and no images |
| BlockNotes.BlockNoteErrors | app/models/notes.py:23-30 | a block fails exactly when it has no id (checked first), no single type, or a frontmatter tag that is not a string |
| BlockNotes.BlockNoteOk | app/models/notes.py:23-48 | the note has the last id and the type's model; its fields are the rendered fields then the file name, one per model field; its tags are Dedup(block tags + file tags), each once at its first occurrence; it has no images |

## Left out

- Reading files and finding them (`search_files`, `get_markdown_files`, `read_file`) is left
  out. The frontmatter parse (`split_markdown_file`, parser.py:17-25) is also left out.
  Documents are given as (path, frontmatter, body) values, and a path stands for its
  document.
- Markdown-to-HTML rendering is a parameter `md`. Only field count and order are modelled.
- SHA-256 is a parameter `sha256` from text to a 32-byte digest. The `hashlib` and `base64`
  calls are modelled only through it and the encoders here.
- The genanki `Model` templates and css, `get_default_css`, `Package`, `write_to_file` and
  the `.apkg` output are left out. `Deck.compile` (sources.py:27-47), including its media
  list, is left out as well. A model is its id, name, field list and kind; a package is the
  deck and its file name.
- `clean_str_for_filename`, `convert_md_to_html`, `search_markdown_files` and
  `parse_markdown_file` are imported by sources.py but absent from utils.py. They are not
  part of this model; their evident meaning is taken from the parser's `convert_to_html`
  and the given documents.
- `models/notes.py` lacks `import re`, `get_types` and `Note`. They are read as `re`,
  `NoteType.get_types` and the `Note` of sources.py.
- `settings.TAG_KEY`, `META_TAG_KEY` and `MASTER_STYLESHEET` are missing from the
  configuration. All key names are parameters.
- The debug print in `generate_string_hash` (utils.py:66) is output only.
- Decks.ListSourceDecks: the order of `list(set)` is left open. Any order is allowed.
- Python set equality between numbers and booleans (`1 == True`) is not modelled. Other
  scalar values are compared by their text.
- `File.meta = None` is not modelled: a file always has a frontmatter map.
- Hashing.ParseHexPair: only the two-digit strings hexdigest produces are read (no sign,
  whitespace or underscores).
- The regular expressions are hand-written recognisers:
  - `\w` and `\d` are ASCII only.
  - Block matching is done line by line. A backtracking match that starts the body at a
    whitespace-only line is not modelled. This happens in two cases: the first body line
    is shorter than three characters and no later line can end the body; or whitespace-only
    lines are followed directly by the closing fence. An example of the second case is
    "---\n\n   \n\n---\n". The program matches it with body "   " and an empty footer, and
    then raises the missing-id error (parser.py:73-77, sources.py:159-160). The model
    reports no block there and so no error.
- Python's exception types are collapsed into the error kinds of `Results.Error`.
- app/logic/drivers.py and the command line are out of scope: they are thin wrappers and
  the command surface.

## Findings

| source | as written | input that shows it | evidently intended | confidence | as-written member | corrected member |
|---|---|---|---|---|---|---|
| app/models/notes.py:95-114 | `Block._extract_fields` returns the rendered groups only, with no source-file field | body "q:::a" classifies as question/answer, whose model declares 3 fields (Question, Answer, Source), but gives 2 fields | the file name follows the rendered fields, as `Chunk._extract_fields` does (sources.py:234-242) | not executed | BlockNotes.FieldsAsWrittenShort | BlockNotes.Block.ExtractFields |
