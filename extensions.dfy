/** The extension registry: a fixed catalogue of four tools, each known by
    its id and a list of lower-case keywords. Names, descriptions, icons and
    view components are not part of this model. */
module Extensions {

  datatype Option<T> = None | Some(value: T)

  datatype Extension = Extension(id: string, keywords: seq<string>)

  const Drawing := Extension("drawing", ["draw", "sketch", "paint", "canvas", "brush", "art"])
  const TextEditor := Extension("textEditor", ["write", "text", "notes", "document", "edit", "typing"])
  const ColorPalette := Extension("colorPalette", ["color", "palette", "scheme", "theme", "design"])
  const MoodBoard := Extension("moodBoard", ["mood", "board", "inspiration", "collage", "ideas", "visual"])

  /** `Object.values(EXTENSION_REGISTRY)`: the records in declaration order. */
  const Registry: seq<Extension> := [Drawing, TextEditor, ColorPalette, MoodBoard]

  /** No two registry entries share an id. */
  lemma RegistryIdsDistinct()
    ensures forall i, j :: 0 <= i < j < |Registry| ==> Registry[i].id != Registry[j].id
  {
    assert Registry[0].id[0] == 'd' && Registry[1].id[0] == 't';
    assert Registry[2].id[0] == 'c' && Registry[3].id[0] == 'm';
  }

  /** A keyword that can match lowered input: non-empty, no upper-case
      ASCII letter. */
  predicate LowerKeywords(e: Extension) {
    forall k :: k in e.keywords ==> k != [] && forall c :: c in k ==> !('A' <= c <= 'Z')
  }

  lemma DrawingLower() ensures LowerKeywords(Drawing) {}
  lemma TextEditorLower() ensures LowerKeywords(TextEditor) {}
  lemma ColorPaletteLower() ensures LowerKeywords(ColorPalette) {}
  lemma MoodBoardLower() ensures LowerKeywords(MoodBoard) {}

  /** Every keyword is non-empty and already lower case, so lowering the
      input is all it takes to match regardless of case. */
  lemma RegistryKeywordsLowerCase()
    ensures forall e :: e in Registry ==> LowerKeywords(e)
  {
    DrawingLower();
    TextEditorLower();
    ColorPaletteLower();
    MoodBoardLower();
  }
}
