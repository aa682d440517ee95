/** The objects of the flashcard-packaging library the pipeline hands its results to, reduced
    to the data the pipeline puts into them. A model keeps its identifier, name, field names
    and kind; its card templates and stylesheet are not modelled. */
module Genanki {

  /** The two model kinds: front/back cards and cloze cards. */
  datatype ModelKind = FrontBack | ClozeCards

  datatype Model = Model(modelId: string, name: string, fields: seq<string>, kind: ModelKind)

  /** A note: its identifier, model, field values (HTML) and tags. */
  datatype Note = Note(guid: string, model: Model, fields: seq<string>, tags: seq<string>)

  /** A deck: its numeric identifier, its name and the notes added to it, in order. */
  datatype Deck = Deck(deckId: int, name: string, notes: seq<Note>)
}
