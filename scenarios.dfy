/** Concrete inputs run through the suggestion rule: the tie-break, an
    installed high scorer, each fallback, and the empty result. */
module Scenarios {
  import opened Text
  import opened Extensions
  import opened Matcher

  /** The registry-wide hypothesis of `SuggestionFallback`, entry by entry. */
  lemma NoUninstalledScores(input: string, installed: seq<Extension>)
    requires IsInstalled(installed, Drawing.id) || Score(input, Drawing.keywords) == 0
    requires IsInstalled(installed, TextEditor.id) || Score(input, TextEditor.keywords) == 0
    requires IsInstalled(installed, ColorPalette.id) || Score(input, ColorPalette.keywords) == 0
    requires IsInstalled(installed, MoodBoard.id) || Score(input, MoodBoard.keywords) == 0
    ensures forall k :: 0 <= k < |Registry| && !IsInstalled(installed, Registry[k].id) ==>
              Score(input, Registry[k].keywords) == 0
  {
    forall k | 0 <= k < |Registry| && !IsInstalled(installed, Registry[k].id)
      ensures Score(input, Registry[k].keywords) == 0
    {
      if k == 0 {} else if k == 1 {} else if k == 2 {} else {}
    }
  }

  // "visual": only the mood board's keyword occurs.

  lemma VisualDrawing()
    ensures Score("visual", Drawing.keywords) == 0
  {
    var s := "visual";
    AbsentChar(s, "draw", 0); AbsentChar(s, "sketch", 1); AbsentChar(s, "paint", 0);
    AbsentChar(s, "canvas", 0); AbsentChar(s, "brush", 0); AbsentChar(s, "art", 1);
    ScoreZero(s, Drawing.keywords);
  }

  lemma VisualTextEditor()
    ensures Score("visual", TextEditor.keywords) == 0
  {
    var s := "visual";
    AbsentChar(s, "write", 0); AbsentChar(s, "text", 0); AbsentChar(s, "notes", 0);
    AbsentChar(s, "document", 0); AbsentChar(s, "edit", 0); AbsentChar(s, "typing", 0);
    ScoreZero(s, TextEditor.keywords);
  }

  lemma VisualColorPalette()
    ensures Score("visual", ColorPalette.keywords) == 0
  {
    var s := "visual";
    AbsentChar(s, "color", 0); AbsentChar(s, "palette", 0); AbsentChar(s, "scheme", 1);
    AbsentChar(s, "theme", 0); AbsentChar(s, "design", 0);
    ScoreZero(s, ColorPalette.keywords);
  }

  lemma VisualLowerCase()
    ensures Lower("visual") == "visual"
  {
  }

  /** With `moodBoard` installed, "visual" makes the first fallback suggest
      the installed `moodBoard` again. */
  lemma VisualSuggestsInstalledMoodBoard()
    ensures Suggestion("visual", [MoodBoard]) == Some(MoodBoard)
    ensures IsInstalled([MoodBoard], MoodBoard.id)
  {
    VisualLowerCase();
    VisualNothingScores();
    assert OccursAt("visual", "visual", 0);
    SuggestionFallback("visual", [MoodBoard]);
  }

  lemma VisualNothingScores()
    ensures forall k :: 0 <= k < |Registry| && !IsInstalled([MoodBoard], Registry[k].id) ==>
              Score("visual", Registry[k].keywords) == 0
  {
    VisualDrawing(); VisualTextEditor(); VisualColorPalette();
    assert IsInstalled([MoodBoard], MoodBoard.id);
    NoUninstalledScores("visual", [MoodBoard]);
  }

  // "organize": no keyword of any entry occurs.

  lemma OrganizeDrawing()
    ensures Score("organize", Drawing.keywords) == 0
  {
    var s := "organize";
    AbsentChar(s, "draw", 0); AbsentChar(s, "sketch", 0); AbsentChar(s, "paint", 0);
    AbsentChar(s, "canvas", 0); AbsentChar(s, "brush", 0); AbsentChar(s, "art", 2);
    ScoreZero(s, Drawing.keywords);
  }

  lemma OrganizeTextEditor()
    ensures Score("organize", TextEditor.keywords) == 0
  {
    var s := "organize";
    AbsentChar(s, "write", 0); AbsentChar(s, "text", 0); AbsentChar(s, "notes", 2);
    AbsentChar(s, "document", 0); AbsentChar(s, "edit", 1); AbsentChar(s, "typing", 0);
    ScoreZero(s, TextEditor.keywords);
  }

  lemma OrganizeColorPalette()
    ensures Score("organize", ColorPalette.keywords) == 0
  {
    var s := "organize";
    AbsentChar(s, "color", 0); AbsentChar(s, "palette", 0); AbsentChar(s, "scheme", 0);
    AbsentChar(s, "theme", 0); AbsentChar(s, "design", 0);
    ScoreZero(s, ColorPalette.keywords);
  }

  lemma OrganizeMoodBoard()
    ensures Score("organize", MoodBoard.keywords) == 0
  {
    var s := "organize";
    AbsentChar(s, "mood", 0); AbsentChar(s, "board", 0); AbsentChar(s, "inspiration", 2);
    AbsentChar(s, "collage", 0); AbsentChar(s, "ideas", 1); AbsentChar(s, "visual", 0);
    ScoreZero(s, MoodBoard.keywords);
  }

  lemma OrganizeLowerCase()
    ensures Lower("organize") == "organize"
  {
    assert Lower("orga") == "orga";
    assert Lower("nize") == "nize";
    LowerAppend("orga", "nize");
    assert "orga" + "nize" == "organize";
  }

  /** "organize" is not a keyword of any entry; the first fallback suggests
      `moodBoard` on an empty workspace. */
  lemma OrganizeSuggestsMoodBoard()
    ensures Suggestion("organize", []) == Some(MoodBoard)
  {
    OrganizeLowerCase();
    OrganizeNothingScores();
    assert OccursAt("organize", "organize", 0);
    SuggestionFallback("organize", []);
  }

  lemma OrganizeNothingScores()
    ensures forall k :: 0 <= k < |Registry| && !IsInstalled([], Registry[k].id) ==>
              Score("organize", Registry[k].keywords) == 0
  {
    OrganizeDrawing(); OrganizeTextEditor(); OrganizeColorPalette(); OrganizeMoodBoard();
    NoUninstalledScores("organize", []);
  }

  // "Mood Art": one drawing keyword and one mood-board keyword.

  lemma MoodArtTextEditor()
    ensures Score("mood art", TextEditor.keywords) == 0
  {
    var s := "mood art";
    AbsentChar(s, "write", 0); AbsentChar(s, "text", 1); AbsentChar(s, "notes", 0);
    AbsentChar(s, "document", 2); AbsentChar(s, "edit", 0); AbsentChar(s, "typing", 1);
    ScoreZero(s, TextEditor.keywords);
  }

  lemma MoodArtColorPalette()
    ensures Score("mood art", ColorPalette.keywords) == 0
  {
    var s := "mood art";
    AbsentChar(s, "color", 0); AbsentChar(s, "palette", 0); AbsentChar(s, "scheme", 0);
    AbsentChar(s, "theme", 1); AbsentChar(s, "design", 1);
    ScoreZero(s, ColorPalette.keywords);
  }

  lemma MoodArtDrawingPrefix()
    ensures Score("mood art", ["draw", "sketch", "paint", "canvas", "brush"]) == 0
  {
    var s := "mood art";
    AbsentChar(s, "draw", 3); AbsentChar(s, "sketch", 0); AbsentChar(s, "paint", 0);
    AbsentChar(s, "canvas", 0); AbsentChar(s, "brush", 0);
    ScoreZero(s, ["draw", "sketch", "paint", "canvas", "brush"]);
  }

  lemma MoodArtHasArt()
    ensures Contains("mood art", "art")
  {
    assert OccursAt("mood art", "art", 5);
  }

  lemma MoodArtDrawing()
    ensures Score("mood art", Drawing.keywords) == 1
  {
    MoodArtDrawingPrefix();
    MoodArtHasArt();
    var pre := ["draw", "sketch", "paint", "canvas", "brush"];
    ScoreSnoc("mood art", pre, "art");
    assert Drawing.keywords == pre + ["art"];
  }

  lemma MoodArtMoodBoardRest()
    ensures Score("mood art", ["board", "inspiration", "collage", "ideas", "visual"]) == 0
  {
    var s := "mood art";
    AbsentChar(s, "board", 0); AbsentChar(s, "inspiration", 0); AbsentChar(s, "collage", 0);
    AbsentChar(s, "ideas", 0); AbsentChar(s, "visual", 0);
    ScoreZero(s, ["board", "inspiration", "collage", "ideas", "visual"]);
  }

  lemma MoodArtHasMood()
    ensures Score("mood art", ["mood"]) == 1
  {
    assert OccursAt("mood art", "mood", 0);
    ScoreSnoc("mood art", [], "mood");
    assert [] + ["mood"] == ["mood"];
  }

  lemma MoodArtMoodBoard()
    ensures Score("mood art", MoodBoard.keywords) == 1
  {
    MoodArtHasMood();
    MoodArtMoodBoardRest();
    var rest := ["board", "inspiration", "collage", "ideas", "visual"];
    ScoreAppend("mood art", ["mood"], rest);
    assert MoodBoard.keywords == ["mood"] + rest;
  }

  lemma MoodArtLowerCase()
    ensures Lower("Mood Art") == "mood art"
  {
  }

  lemma MoodArtDrawingIsFirstBest()
    ensures IsFirstBest("mood art", [], Registry, 0)
  {
    MoodArtDrawing(); MoodArtTextEditor(); MoodArtColorPalette(); MoodArtMoodBoard();
    forall k | 0 <= k < |Registry| ensures Score("mood art", Registry[k].keywords) <= 1 {
      if k == 0 {} else if k == 1 {} else if k == 2 {} else {}
    }
  }

  /** Drawing and the mood board tie at 1; the earlier entry wins. */
  lemma MoodArtTieGoesToDrawing()
    ensures Suggestion("Mood Art", []) == Some(Drawing)
  {
    MoodArtLowerCase();
    MoodArtDrawingIsFirstBest();
    SuggestionByKeywords("Mood Art", [], 0);
  }

  lemma MoodArtMoodBoardIsFirstBest()
    ensures IsFirstBest("mood art", [Drawing], Registry, 3)
  {
    MoodArtDrawing(); MoodArtTextEditor(); MoodArtColorPalette(); MoodArtMoodBoard();
    assert !IsInstalled([Drawing], MoodBoard.id);
    assert IsInstalled([Drawing], Drawing.id);
    forall k | 0 <= k < |Registry| && !IsInstalled([Drawing], Registry[k].id)
      ensures k == 3 || Score("mood art", Registry[k].keywords) == 0
    {
      if k == 0 {} else if k == 1 {} else if k == 2 {} else {}
    }
  }

  /** With `drawing` installed, its score does not block the mood board. */
  lemma MoodArtInstalledDrawingDoesNotBlock()
    ensures Suggestion("Mood Art", [Drawing]) == Some(MoodBoard)
  {
    MoodArtLowerCase();
    MoodArtMoodBoardIsFirstBest();
    SuggestionByKeywords("Mood Art", [Drawing], 3);
  }

  // "sketch" with `drawing` installed: only the installed entry scores.

  lemma SketchLowerCase()
    ensures Lower("sketch") == "sketch"
  {
  }

  lemma SketchTextEditor()
    ensures Score("sketch", TextEditor.keywords) == 0
  {
    var s := "sketch";
    AbsentChar(s, "write", 0); AbsentChar(s, "text", 2); AbsentChar(s, "notes", 0);
    AbsentChar(s, "document", 0); AbsentChar(s, "edit", 1); AbsentChar(s, "typing", 1);
    ScoreZero(s, TextEditor.keywords);
  }

  lemma SketchColorPalette()
    ensures Score("sketch", ColorPalette.keywords) == 0
  {
    var s := "sketch";
    AbsentChar(s, "color", 1); AbsentChar(s, "palette", 0); AbsentChar(s, "scheme", 4);
    AbsentChar(s, "theme", 3); AbsentChar(s, "design", 0);
    ScoreZero(s, ColorPalette.keywords);
  }

  lemma SketchMoodBoard()
    ensures Score("sketch", MoodBoard.keywords) == 0
  {
    var s := "sketch";
    AbsentChar(s, "mood", 0); AbsentChar(s, "board", 0); AbsentChar(s, "inspiration", 0);
    AbsentChar(s, "collage", 1); AbsentChar(s, "ideas", 0); AbsentChar(s, "visual", 0);
    ScoreZero(s, MoodBoard.keywords);
  }

  lemma SketchMentionsNoFallback()
    ensures !MentionsMoodBoard("sketch") && !MentionsColorPalette("sketch")
  {
    var s := "sketch";
    AbsentChar(s, "visual", 0); AbsentChar(s, "organize", 0);
    AbsentChar(s, "color", 1); AbsentChar(s, "design", 0);
  }

  /** With `drawing` installed and "sketch" as input, nothing else scores and
      no fallback keyword occurs: the registry search yields `textEditor`,
      not an empty suggestion. */
  lemma SketchWithDrawingInstalledSuggestsTextEditor()
    ensures Suggestion("sketch", [Drawing]) == Some(TextEditor)
  {
    SketchLowerCase();
    SketchNothingScores();
    SketchMentionsNoFallback();
    SuggestionFallback("sketch", [Drawing]);
    SketchFirstUninstalled();
  }

  lemma SketchNothingScores()
    ensures forall k :: 0 <= k < |Registry| && !IsInstalled([Drawing], Registry[k].id) ==>
              Score("sketch", Registry[k].keywords) == 0
  {
    SketchTextEditor(); SketchColorPalette(); SketchMoodBoard();
    assert IsInstalled([Drawing], Drawing.id);
    NoUninstalledScores("sketch", [Drawing]);
  }

  lemma SketchFirstUninstalled()
    ensures FirstUninstalled(Registry, [Drawing]) == Some(TextEditor)
  {
    assert IsInstalled([Drawing], Drawing.id);
    assert !IsInstalled([Drawing], TextEditor.id);
  }

  // Everything installed.

  lemma PaintMentionsNoFallback()
    ensures !MentionsMoodBoard("paint") && !MentionsColorPalette("paint")
  {
    var s := "paint";
    AbsentChar(s, "visual", 0); AbsentChar(s, "organize", 0);
    AbsentChar(s, "color", 0); AbsentChar(s, "design", 0);
  }

  lemma PaintLowerCase()
    ensures Lower("paint") == "paint"
  {
  }

  /** Once all four entries are installed, an input without a fallback
      keyword gets no suggestion. */
  lemma AllInstalledNoSuggestion()
    ensures Suggestion("paint", Registry) == None
  {
    PaintLowerCase();
    PaintMentionsNoFallback();
    assert forall j :: 0 <= j < |Registry| ==> IsInstalled(Registry, Registry[j].id) by {
      forall j | 0 <= j < |Registry| ensures IsInstalled(Registry, Registry[j].id) {
        assert Registry[j] in Registry;
      }
    }
    SuggestionNoneIff("paint", Registry);
  }
}
