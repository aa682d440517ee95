/** The metadata key names the pipeline looks up. The source reads them from a global
    settings object; here they are an explicit value passed to every component. */
module Settings {
  import opened Text

  datatype KeyNames = KeyNames(
    guidKey: string,      // footer key of the note identifier, "id"
    tagKey: string,       // footer key of a note tag
    deckTitleKey: string, // frontmatter key of the deck name, "deck"
    metaTagKey: string    // frontmatter key of the document-level tags
  )

  /** A footer key is a non-empty run of word characters (only such keys can match
      `\[\^(\w+)\]`), restricted here to ASCII. */
  predicate IsFooterKey(key: string) {
    |key| > 0 && forall k :: 0 <= k < |key| ==> IsWordChar(key[k])
  }

  /** The metadata dictionary starts as {guidKey: None, tagKey: []}; the two keys must differ
      for the identifier to be a scalar and the tags a list. */
  type Keys = k: KeyNames | IsFooterKey(k.guidKey) && IsFooterKey(k.tagKey) && k.guidKey != k.tagKey
    witness KeyNames("id", "tag", "deck", "tags")
}
