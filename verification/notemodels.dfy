/** The note types and their models (app/logic/notes.py). */
module NoteModels {
  import opened Genanki

  /** The NoteType enumeration: exactly two members. */
  datatype NoteType = QuestionAnswer | Cloze

  function GetModelQa(): Model {
    Model("1764365620", "AnkCompiler-Question_Answer", ["Question", "Answer"], FrontBack)
  }

  function GetModelCz(): Model {
    Model("1783507665", "AnkCompiler-Cloze", ["Text"], ClozeCards)
  }

  /** The two models can be told apart by their identifiers, and each has the kind its note
      type needs: front/back cards for questions and answers, cloze cards for clozes. */
  lemma ModelsDistinct()
    ensures GetModelQa().modelId != GetModelCz().modelId
    ensures GetModelQa().kind == FrontBack && GetModelCz().kind == ClozeCards
  {
    assert GetModelQa().modelId[2] != GetModelCz().modelId[2];
  }
}
