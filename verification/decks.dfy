/** Deck resolution and compilation of the function-style generation (app/logic/deck.py):
    the distinct deck names of a set of documents, the documents of one deck, the notes of a
    document, and a deck assembled from the notes of its documents in order. The documents
    are given with their frontmatter already parsed; searching and reading them is not
    modelled, and a path stands for the document read from it. */
module Decks {
  import opened Results
  import opened Text
  import opened Settings
  import opened Documents
  import opened Genanki
  import opened Parser
  import opened Hashing

  // ---------------------------------------------------------------------------------------
  // list_source_decks

  /** The deck names the documents declare: every value of the deck key that is not None;
      a document without the key contributes nothing. */
  function DeckNames(docs: seq<Document>, key: string): (names: set<Value>)
    ensures Null !in names
    ensures forall i ::
      0 <= i < |docs| && key in docs[i].frontmatter && docs[i].frontmatter[key] != Null ==> docs[i].frontmatter[key] in names
    ensures forall v :: v in names ==> exists i :: 0 <= i < |docs| && Get(docs[i].frontmatter, key) == v
  {
    set i | 0 <= i < |docs| && Get(docs[i].frontmatter, key) != Null :: Get(docs[i].frontmatter, key)
  }

  /** Adding a value to a set fails exactly when the value is unhashable. */
  predicate AllHashable(docs: seq<Document>, key: string) {
    forall i :: 0 <= i < |docs| ==> Hashable(Get(docs[i].frontmatter, key))
  }

  /** list(s): the elements of a set, each once, in an order the model leaves open. */
  method ListOfSet(s: set<Value>) returns (xs: seq<Value>)
    ensures NoDuplicates(xs) && |xs| == |s|
    ensures forall x :: x in xs <==> x in s
  {
    xs := [];
    var rest := s;
    while rest != {}
      invariant NoDuplicates(xs)
      invariant forall x :: x in s <==> x in xs || x in rest
      invariant forall x :: x in xs ==> x !in rest
      invariant |xs| + |rest| == |s|
      decreases |rest|
    {
      var x :| x in rest;
      xs := xs + [x];
      rest := rest - {x};
    }
  }

  /** list_source_decks: every deck name that is not None, exactly once; an unhashable name
      (a list or a mapping) makes set.add raise. */
  method ListSourceDecks(docs: seq<Document>, keys: Keys) returns (r: Result<seq<Value>>)
    ensures r.Err? <==> !AllHashable(docs, keys.deckTitleKey)
    ensures r.Err? ==> r.error == UnhashableDeckName
    ensures r.Ok? ==> NoDuplicates(r.value)
    ensures r.Ok? ==> forall v :: v in r.value <==> v in DeckNames(docs, keys.deckTitleKey)
  {
    var deckSet: set<Value> := {};
    for i := 0 to |docs|
      invariant deckSet == DeckNames(docs[..i], keys.deckTitleKey)
      invariant AllHashable(docs[..i], keys.deckTitleKey)
    {
      var deckName := Get(docs[i].frontmatter, keys.deckTitleKey);
      assert forall j :: 0 <= j < i ==> docs[..i + 1][j] == docs[..i][j];
      if deckName != Null {
        if !Hashable(deckName) {
          assert !Hashable(Get(docs[i].frontmatter, keys.deckTitleKey));
          return Err(UnhashableDeckName);
        }
        deckSet := deckSet + {deckName};
      }
    }
    assert docs[..|docs|] == docs;
    var names := ListOfSet(deckSet);
    return Ok(names);
  }

  // ---------------------------------------------------------------------------------------
  // get_source_deck_paths

  /** The documents whose deck name is the string name, in the given order. */
  function InDeck(docs: seq<Document>, name: string, key: string): (r: seq<Document>)
    ensures |r| <= |docs|
  {
    if docs == [] then []
    else
      var p := docs[..|docs| - 1];
      var d := docs[|docs| - 1];
      InDeck(p, name, key) + (if Get(d.frontmatter, key) == Str(name) then [d] else [])
  }

  /** The filter keeps exactly the documents of the deck ... */
  lemma {:induction false} InDeckMembers(docs: seq<Document>, name: string, key: string)
    ensures forall d :: d in InDeck(docs, name, key) <==> d in docs && Get(d.frontmatter, key) == Str(name)
  {
    if docs != [] {
      var p := docs[..|docs| - 1];
      InDeckMembers(p, name, key);
      assert docs == p + [docs[|docs| - 1]];
    }
  }

  /** ... and keeps their order: filtering a concatenation concatenates the filtered parts. */
  lemma {:induction false} InDeckAppend(a: seq<Document>, b: seq<Document>, name: string, key: string)
    ensures InDeck(a + b, name, key) == InDeck(a, name, key) + InDeck(b, name, key)
  {
    if b == [] {
      assert a + b == a;
    } else {
      var q := b[..|b| - 1];
      assert (a + b)[..|a + b| - 1] == a + q;
      InDeckAppend(a, q, name, key);
    }
  }

  /** get_source_deck_paths. */
  method GetSourceDeckPaths(docs: seq<Document>, deckName: string, keys: Keys) returns (deckDocs: seq<Document>)
    ensures deckDocs == InDeck(docs, deckName, keys.deckTitleKey)
  {
    deckDocs := [];
    for i := 0 to |docs|
      invariant deckDocs == InDeck(docs[..i], deckName, keys.deckTitleKey)
    {
      assert docs[..i + 1][..i] == docs[..i];
      if Get(docs[i].frontmatter, keys.deckTitleKey) == Str(deckName) {
        deckDocs := deckDocs + [docs[i]];
      }
    }
    assert docs[..|docs|] == docs;
  }

  // ---------------------------------------------------------------------------------------
  // get_notes

  /** parse_note_block as a function of the block. */
  function ParseBlock(md: string -> string, keys: Keys): NoteBlock -> Result<Note> {
    block => NoteOf(md, block, keys)
  }

  /** The notes of a document: those of the blocks of its body. */
  function DocNotes(md: string -> string, doc: Document, keys: Keys): Result<seq<Note>> {
    Collect(ParseBlock(md, keys), PageBlocks(doc.body, keys))
  }

  /** One note per block of the document, in block order, when every block gives a note;
      otherwise the error of the first block that fails. */
  lemma DocNotesSpec(md: string -> string, doc: Document, keys: Keys)
    ensures var blocks := PageBlocks(doc.body, keys); var r := DocNotes(md, doc, keys);
      && (r.Ok? <==> forall i :: 0 <= i < |blocks| ==> NoteOf(md, blocks[i], keys).Ok?)
      && (r.Ok? ==> |r.value| == |blocks|
                    && forall i :: 0 <= i < |blocks| ==> r.value[i] == NoteOf(md, blocks[i], keys).value)
      && (r.Err? ==> exists i :: 0 <= i < |blocks| && NoteOf(md, blocks[i], keys) == Err(r.error)
                                 && forall j :: 0 <= j < i ==> NoteOf(md, blocks[j], keys).Ok?)
  {
    CollectSpec(ParseBlock(md, keys), PageBlocks(doc.body, keys));
  }

  /** get_notes. */
  method GetNotes(md: string -> string, doc: Document, keys: Keys) returns (r: Result<seq<Note>>)
    ensures r == DocNotes(md, doc, keys)
  {
    var noteBlocks := SplitMarkdownPage(doc.body, keys);
    r := ParseNoteBlocks(md, noteBlocks, keys);
  }

  /** The loop of get_notes: parse_note_block on each block, in order. */
  method ParseNoteBlocks(md: string -> string, noteBlocks: seq<NoteBlock>, keys: Keys) returns (r: Result<seq<Note>>)
    ensures r == Collect(ParseBlock(md, keys), noteBlocks)
  {
    var notes := [];
    for i := 0 to |noteBlocks|
      invariant Collect(ParseBlock(md, keys), noteBlocks[..i]) == Ok(notes)
    {
      assert noteBlocks[..i + 1][..i] == noteBlocks[..i];
      var note := ParseNoteBlock(md, noteBlocks[i], keys);
      if note.Err? {
        CollectErrPrefix(ParseBlock(md, keys), noteBlocks, i + 1);
        return Err(note.error);
      }
      notes := notes + [note.value];
    }
    assert noteBlocks[..|noteBlocks|] == noteBlocks;
    return Ok(notes);
  }

  // ---------------------------------------------------------------------------------------
  // compile_deck

  /** get_notes as a function of the document. */
  function ReadNotes(md: string -> string, keys: Keys): Document -> Result<seq<Note>> {
    doc => DocNotes(md, doc, keys)
  }

  /** The notes of a list of documents, document after document; the first document that
      fails decides the error. */
  function DeckNotes(md: string -> string, docs: seq<Document>, keys: Keys): Result<seq<Note>> {
    Gather(ReadNotes(md, keys), docs)
  }

  /** create_deck: the deck identifier is the integer hash of the deck name. */
  function CreateDeck(sha256: string -> Digest, deckName: string): (deck: Deck)
    ensures deck.name == deckName && deck.notes == []
    ensures deck.deckId == IntegerHashOf(sha256(deckName))
    ensures 0 <= deck.deckId <= 336860180
  {
    IntegerHashBounds(sha256(deckName), sha256(deckName));
    Deck(IntegerHashOf(sha256(deckName)), deckName, [])
  }

  /** What compile_deck writes: the deck with its notes, and the package file name. */
  datatype Package = Package(deck: Deck, fileName: string)

  /** The package of a deck: the notes of its documents in order, in the deck created for
      its name, written to the cleaned name with the ".apkg" extension. */
  function DeckPackage(md: string -> string, sha256: string -> Digest, docs: seq<Document>,
                       deckName: string, keys: Keys): Result<Package>
  {
    match DeckNotes(md, InDeck(docs, deckName, keys.deckTitleKey), keys)
    case Err(e) => Err(e)
    case Ok(notes) =>
      var deck := CreateDeck(sha256, deckName);
      Ok(Package(Deck(deck.deckId, deck.name, notes), CleanDeckName(deckName) + ".apkg"))
  }

  /** compile_deck, up to the package it would write. */
  method CompileDeck(md: string -> string, sha256: string -> Digest, docs: seq<Document>,
                     deckName: string, keys: Keys) returns (r: Result<Package>)
    ensures r == DeckPackage(md, sha256, docs, deckName, keys)
  {
    var deck := CreateDeck(sha256, deckName);
    var sourceDocs := GetSourceDeckPaths(docs, deckName, keys);
    var notes :- GetDeckNotes(md, sourceDocs, keys);
    deck := Deck(deck.deckId, deck.name, deck.notes + notes);
    var cleanedDeckName := CleanDeckName(deckName);
    assert sourceDocs == InDeck(docs, deckName, keys.deckTitleKey);
    assert DeckNotes(md, sourceDocs, keys) == Ok(notes);
    assert deck == Deck(CreateDeck(sha256, deckName).deckId, deckName, notes);
    return Ok(Package(deck, cleanedDeckName + ".apkg"));
  }

  /** The loop of compile_deck: the notes of each source document, extended in order. */
  method GetDeckNotes(md: string -> string, sourceDocs: seq<Document>, keys: Keys) returns (r: Result<seq<Note>>)
    ensures r == DeckNotes(md, sourceDocs, keys)
  {
    var notes := [];
    for i := 0 to |sourceDocs|
      invariant Gather(ReadNotes(md, keys), sourceDocs[..i]) == Ok(notes)
    {
      assert sourceDocs[..i + 1][..i] == sourceDocs[..i];
      var more := GetNotes(md, sourceDocs[i], keys);
      if more.Err? {
        GatherErrPrefix(ReadNotes(md, keys), sourceDocs, i + 1);
        return Err(more.error);
      }
      notes := notes + more.value;
    }
    assert sourceDocs[..|sourceDocs|] == sourceDocs;
    return Ok(notes);
  }

  /** A compiled deck holds, in order, the notes of the deck's documents and of no other. */
  lemma CompiledNotes(md: string -> string, sha256: string -> Digest, a: seq<Document>, b: seq<Document>,
                      deckName: string, keys: Keys)
    requires DeckPackage(md, sha256, a + b, deckName, keys).Ok?
    ensures var key := keys.deckTitleKey;
      && DeckNotes(md, InDeck(a, deckName, key), keys).Ok?
      && DeckNotes(md, InDeck(b, deckName, key), keys).Ok?
      && DeckPackage(md, sha256, a + b, deckName, keys).value.deck.notes ==
           DeckNotes(md, InDeck(a, deckName, key), keys).value + DeckNotes(md, InDeck(b, deckName, key), keys).value
  {
    InDeckAppend(a, b, deckName, keys.deckTitleKey);
    GatherAppend(ReadNotes(md, keys), InDeck(a, deckName, keys.deckTitleKey), InDeck(b, deckName, keys.deckTitleKey));
  }

  /** compile_decks: each deck in turn; the first that fails stops the run. */
  method CompileDecks(md: string -> string, sha256: string -> Digest, docs: seq<Document>,
                      deckNames: seq<string>, keys: Keys) returns (r: Result<seq<Package>>)
    ensures r.Ok? ==> |r.value| == |deckNames|
    ensures r.Ok? ==> forall i :: 0 <= i < |deckNames| ==>
      DeckPackage(md, sha256, docs, deckNames[i], keys) == Ok(r.value[i])
    ensures r.Err? ==>
      exists i :: 0 <= i < |deckNames| && DeckPackage(md, sha256, docs, deckNames[i], keys) == Err(r.error)
        && forall j :: 0 <= j < i ==> DeckPackage(md, sha256, docs, deckNames[j], keys).Ok?
  {
    var packages := [];
    for i := 0 to |deckNames|
      invariant |packages| == i
      invariant forall j :: 0 <= j < i ==> DeckPackage(md, sha256, docs, deckNames[j], keys) == Ok(packages[j])
    {
      var package := CompileDeck(md, sha256, docs, deckNames[i], keys);
      if package.Err? {
        return Err(package.error);
      }
      packages := packages + [package.value];
    }
    return Ok(packages);
  }

  // ---------------------------------------------------------------------------------------
  // clean_deck_name

  /** re.sub("[^a-zA-Z0-9]", "-", s): every character outside the class becomes '-'. */
  function Substitute(s: string): (r: string)
    ensures |r| == |s|
  {
    if s == [] then []
    else
      var c := s[|s| - 1];
      Substitute(s[..|s| - 1]) + [if IsAsciiAlnum(c) then c else '-']
  }

  /** str.lower() on a string of ASCII letters, digits and '-'. */
  function Lower(s: string): (r: string)
    ensures |r| == |s|
  {
    if s == [] then []
    else
      var c := s[|s| - 1];
      Lower(s[..|s| - 1]) + [if 'A' <= c <= 'Z' then c - 'A' + 'a' else c]
  }

  /** clean_deck_name. */
  function CleanDeckName(deckName: string): string {
    Lower(Substitute(deckName))
  }

  predicate IsCleanChar(c: char) {
    'a' <= c <= 'z' || '0' <= c <= '9' || c == '-'
  }

  /** One character per character: a letter is lowered, a digit kept, anything else becomes
      '-'; so the result has the same length and only characters of [a-z0-9-]. */
  lemma {:induction false} CleanDeckNameSpec(deckName: string)
    ensures var r := CleanDeckName(deckName);
      && |r| == |deckName|
      && (forall i :: 0 <= i < |r| ==> IsCleanChar(r[i]))
      && (forall i :: 0 <= i < |r| ==>
            if 'A' <= deckName[i] <= 'Z' then r[i] == deckName[i] - 'A' + 'a'
            else if IsAsciiAlnum(deckName[i]) then r[i] == deckName[i]
            else r[i] == '-')
  {
    if deckName != [] {
      var p := deckName[..|deckName| - 1];
      CleanDeckNameSpec(p);
      assert Substitute(deckName)[..|p|] == Substitute(p);
    }
  }

  /** Cleaning a clean name changes nothing. */
  lemma {:induction false} CleanDeckNameIdempotent(deckName: string)
    ensures CleanDeckName(CleanDeckName(deckName)) == CleanDeckName(deckName)
  {
    var r := CleanDeckName(deckName);
    CleanDeckNameSpec(deckName);
    CleanDeckNameSpec(r);
  }
}
