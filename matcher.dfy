/** The suggestion rule of `analyzeTask`: score every registry entry by its
    keywords found in the lower-cased input, keep the first strictly best
    entry that is not installed, and fall back to a fixed chain of rules
    when nothing scored. */
module Matcher {
  import opened Text
  import opened Extensions

  /** `ext.keywords.filter(kw => input.includes(kw))`, keeping order. */
  function Matched(input: string, kws: seq<string>): (r: seq<string>)
    ensures |r| <= |kws|
    ensures forall k :: k in r <==> k in kws && Contains(input, k)
  {
    if kws == [] then []
    else
      var last := kws[|kws| - 1];
      assert kws == kws[..|kws| - 1] + [last];
      Matched(input, kws[..|kws| - 1]) + (if Contains(input, last) then [last] else [])
  }

  /** The score of a keyword list: the length of the filtered list. */
  function Score(input: string, kws: seq<string>): (n: nat)
    ensures n <= |kws|
  {
    |Matched(input, kws)|
  }

  /** The positions in `kws` of the keywords that occur in `input`. */
  ghost function MatchedPositions(input: string, kws: seq<string>): set<int> {
    set i | 0 <= i < |kws| && Contains(input, kws[i])
  }

  /** The score counts keyword positions: each listed keyword adds one if it
      occurs in the input, however many times it occurs there. */
  lemma {:induction false} ScoreCountsPositions(input: string, kws: seq<string>)
    ensures Score(input, kws) == |MatchedPositions(input, kws)| <= |kws|
  {
    if kws != [] {
      var n := |kws| - 1;
      ScoreCountsPositions(input, kws[..n]);
      var prev := MatchedPositions(input, kws[..n]);
      if Contains(input, kws[n]) {
        assert MatchedPositions(input, kws) == prev + {n};
      } else {
        assert MatchedPositions(input, kws) == prev;
      }
    }
  }

  /** A keyword that occurs makes the score positive. */
  lemma ScorePositive(input: string, kws: seq<string>, i: int)
    requires 0 <= i < |kws| && Contains(input, kws[i])
    ensures Score(input, kws) > 0
  {
    assert kws[i] in Matched(input, kws);
  }

  /** A list none of whose keywords occurs scores 0. */
  lemma ScoreZero(input: string, kws: seq<string>)
    requires forall k :: k in kws ==> !Contains(input, k)
    ensures Score(input, kws) == 0
  {
    ScoreCountsPositions(input, kws);
    assert forall i :: i !in MatchedPositions(input, kws);
  }

  /** Appending a keyword adds one to the score exactly when it occurs. */
  lemma ScoreSnoc(input: string, kws: seq<string>, k: string)
    ensures Score(input, kws + [k]) == Score(input, kws) + if Contains(input, k) then 1 else 0
  {
    assert (kws + [k])[..|kws|] == kws;
  }

  /** The score of a concatenation is the sum of the scores. */
  lemma {:induction false} ScoreAppend(input: string, a: seq<string>, b: seq<string>)
    ensures Score(input, a + b) == Score(input, a) + Score(input, b)
    decreases |b|
  {
    if b != [] {
      var n := |b| - 1;
      ScoreAppend(input, a, b[..n]);
      ScoreSnoc(input, a + b[..n], b[n]);
      ScoreSnoc(input, b[..n], b[n]);
      assert a + b == (a + b[..n]) + [b[n]];
      assert b == b[..n] + [b[n]];
    } else {
      assert a + b == a;
    }
  }

  /** `installedExtensions.find(e => e.id === id)` finds an entry. */
  predicate IsInstalled(installed: seq<Extension>, id: string)
    ensures installed == [] ==> !IsInstalled(installed, id)
  {
    exists e :: e in installed && e.id == id
  }

  /** The `find` by id succeeds exactly when some index holds that id. */
  lemma IsInstalledIndex(installed: seq<Extension>, id: string)
    ensures IsInstalled(installed, id) <==> exists j :: 0 <= j < |installed| && installed[j].id == id
  {
    if IsInstalled(installed, id) {
      var e :| e in installed && e.id == id;
      var j :| 0 <= j < |installed| && installed[j] == e;
    }
  }

  /** After appending `e`, an id is installed exactly when it was before or
      it is `e`'s id. */
  lemma IsInstalledSnoc(installed: seq<Extension>, e: Extension, id: string)
    ensures IsInstalled(installed + [e], id) <==> IsInstalled(installed, id) || e.id == id
  {
    assert e in installed + [e];
    assert forall x :: x in installed + [e] <==> x in installed || x == e;
  }

  /** The values of `bestMatch` and `maxScore` after the keyword pass. */
  datatype Pass = Pass(best: Option<Extension>, maxScore: nat)

  /** The `forEach` over `exts`: an entry replaces the current best only when
      its score is strictly greater and it is not installed. */
  function KeywordPass(input: string, installed: seq<Extension>, exts: seq<Extension>): (p: Pass)
    ensures p.best.Some? <==> p.maxScore > 0
    ensures p.best.Some? ==> p.best.value in exts && !IsInstalled(installed, p.best.value.id)
    ensures p.best.Some? ==> Score(input, p.best.value.keywords) == p.maxScore
  {
    if exts == [] then Pass(None, 0)
    else
      var p := KeywordPass(input, installed, exts[..|exts| - 1]);
      var e := exts[|exts| - 1];
      var score := Score(input, e.keywords);
      if score > p.maxScore && !IsInstalled(installed, e.id) then Pass(Some(e), score) else p
  }

  /** Reference definition of the keyword winner: position `j` holds an
      uninstalled entry with a positive score that no uninstalled entry
      beats, and every uninstalled entry before it scores strictly less. */
  ghost predicate IsFirstBest(input: string, installed: seq<Extension>, exts: seq<Extension>, j: int) {
    && 0 <= j < |exts|
    && !IsInstalled(installed, exts[j].id)
    && Score(input, exts[j].keywords) > 0
    && (forall k :: 0 <= k < |exts| && !IsInstalled(installed, exts[k].id) ==>
          Score(input, exts[k].keywords) <= Score(input, exts[j].keywords))
    && (forall k :: 0 <= k < j && !IsInstalled(installed, exts[k].id) ==>
          Score(input, exts[k].keywords) < Score(input, exts[j].keywords))
  }

  /** `maxScore` bounds the score of every uninstalled entry. */
  lemma {:induction false} KeywordPassBound(input: string, installed: seq<Extension>, exts: seq<Extension>)
    ensures forall k :: 0 <= k < |exts| && !IsInstalled(installed, exts[k].id) ==>
              Score(input, exts[k].keywords) <= KeywordPass(input, installed, exts).maxScore
  {
    if exts != [] {
      var n := |exts| - 1;
      KeywordPassBound(input, installed, exts[..n]);
      assert forall k :: 0 <= k < n ==> exts[k] == exts[..n][k];
    }
  }

  /** The kept entry sits at a first-best position. */
  lemma {:induction false} KeywordPassWinner(input: string, installed: seq<Extension>, exts: seq<Extension>) returns (j: int)
    requires KeywordPass(input, installed, exts).best.Some?
    ensures IsFirstBest(input, installed, exts, j) && exts[j] == KeywordPass(input, installed, exts).best.value
  {
    var n := |exts| - 1;
    var pre := exts[..n];
    var p := KeywordPass(input, installed, pre);
    var e := exts[n];
    KeywordPassBound(input, installed, exts);
    assert forall k :: 0 <= k < n ==> exts[k] == pre[k];
    if Score(input, e.keywords) > p.maxScore && !IsInstalled(installed, e.id) {
      KeywordPassBound(input, installed, pre);
      j := n;
    } else {
      j := KeywordPassWinner(input, installed, pre);
    }
  }

  /** The keyword pass keeps something exactly when a first-best position
      exists, and then it keeps the entry at that position. */
  lemma KeywordPassIsFirstBest(input: string, installed: seq<Extension>, exts: seq<Extension>)
    ensures KeywordPass(input, installed, exts).best.Some? <==> exists j :: IsFirstBest(input, installed, exts, j)
    ensures forall j :: IsFirstBest(input, installed, exts, j) ==> KeywordPass(input, installed, exts).best == Some(exts[j])
  {
    KeywordPassBound(input, installed, exts);
    var p := KeywordPass(input, installed, exts);
    if p.best.Some? {
      var i := KeywordPassWinner(input, installed, exts);
      forall j | IsFirstBest(input, installed, exts, j) ensures p.best == Some(exts[j]) {
        assert !(i < j) && !(j < i);
      }
    }
  }

  /** Nothing is kept exactly when every uninstalled entry scores 0, so
      installed entries, whatever they score, never block a match. */
  lemma KeywordPassNone(input: string, installed: seq<Extension>, exts: seq<Extension>)
    ensures KeywordPass(input, installed, exts).best.None? <==>
              forall k :: 0 <= k < |exts| && !IsInstalled(installed, exts[k].id) ==> Score(input, exts[k].keywords) == 0
  {
    KeywordPassBound(input, installed, exts);
    if KeywordPass(input, installed, exts).best.Some? {
      var j := KeywordPassWinner(input, installed, exts);
    }
  }

  /** `exts.find(ext => !installedExtensions.find(e => e.id === ext.id))`. */
  function FirstUninstalled(exts: seq<Extension>, installed: seq<Extension>): (r: Option<Extension>)
    ensures r.None? <==> forall j :: 0 <= j < |exts| ==> IsInstalled(installed, exts[j].id)
    ensures r.Some? ==> exists j :: && 0 <= j < |exts| && exts[j] == r.value
                                    && !IsInstalled(installed, exts[j].id)
                                    && forall k :: 0 <= k < j ==> IsInstalled(installed, exts[k].id)
  {
    if exts == [] then None
    else if !IsInstalled(installed, exts[0].id) then Some(exts[0])
    else
      var r := FirstUninstalled(exts[1..], installed);
      assert forall k :: 1 <= k < |exts| ==> exts[k] == exts[1..][k - 1];
      assert r.Some? ==> exists j :: && 0 <= j < |exts| && exts[j] == r.value
                                    && !IsInstalled(installed, exts[j].id)
                                    && forall k :: 0 <= k < j ==> IsInstalled(installed, exts[k].id) by {
        if r.Some? {
          var j :| && 0 <= j < |exts| - 1 && exts[1..][j] == r.value
                   && !IsInstalled(installed, exts[1..][j].id)
                   && forall k :: 0 <= k < j ==> IsInstalled(installed, exts[1..][k].id);
          assert exts[j + 1] == r.value;
        }
      }
      r
  }

  predicate MentionsMoodBoard(input: string) {
    Contains(input, "visual") || Contains(input, "organize")
  }

  predicate MentionsColorPalette(input: string) {
    Contains(input, "color") || Contains(input, "design")
  }

  /** What `analyzeTask` stores as the suggestion for `taskInput` once the
      delay is over. The two keyword fallbacks do not look at `installed`. */
  function Suggestion(taskInput: string, installed: seq<Extension>): (r: Option<Extension>)
    ensures r.Some? ==> r.value in Registry
  {
    var input := Lower(taskInput);
    var pass := KeywordPass(input, installed, Registry);
    if pass.best.Some? then pass.best
    else if MentionsMoodBoard(input) then Some(MoodBoard)
    else if MentionsColorPalette(input) then Some(ColorPalette)
    else FirstUninstalled(Registry, installed)
  }

  /** The matching body of `analyzeTask`, with the locals `bestMatch` and
      `maxScore` updated while walking the registry. */
  method Suggest(taskInput: string, installed: seq<Extension>) returns (suggestion: Option<Extension>)
    ensures suggestion == Suggestion(taskInput, installed)
  {
    var input := Lower(taskInput);
    var bestMatch: Option<Extension> := None;
    var maxScore: nat := 0;
    for i := 0 to |Registry|
      invariant Pass(bestMatch, maxScore) == KeywordPass(input, installed, Registry[..i])
    {
      var ext := Registry[i];
      var score := Score(input, ext.keywords);
      if score > maxScore && !IsInstalled(installed, ext.id) {
        maxScore := score;
        bestMatch := Some(ext);
      }
      assert Registry[..i + 1][..i] == Registry[..i];
    }
    assert Registry[..|Registry|] == Registry;
    if bestMatch.None? {
      if Contains(input, "visual") || Contains(input, "organize") {
        bestMatch := Some(MoodBoard);
      } else if Contains(input, "color") || Contains(input, "design") {
        bestMatch := Some(ColorPalette);
      } else {
        bestMatch := FirstUninstalled(Registry, installed);
      }
    }
    suggestion := bestMatch;
  }

  /** When some uninstalled entry scores, the suggestion is the first-best one. */
  lemma SuggestionByKeywords(taskInput: string, installed: seq<Extension>, j: int)
    requires IsFirstBest(Lower(taskInput), installed, Registry, j)
    ensures Suggestion(taskInput, installed) == Some(Registry[j])
  {
    KeywordPassIsFirstBest(Lower(taskInput), installed, Registry);
  }

  /** When no uninstalled entry scores, the fallbacks apply in order:
      "visual"/"organize", then "color"/"design", then the first uninstalled
      entry of the registry. */
  lemma SuggestionFallback(taskInput: string, installed: seq<Extension>)
    requires forall k :: 0 <= k < |Registry| && !IsInstalled(installed, Registry[k].id) ==>
               Score(Lower(taskInput), Registry[k].keywords) == 0
    ensures MentionsMoodBoard(Lower(taskInput)) ==> Suggestion(taskInput, installed) == Some(MoodBoard)
    ensures !MentionsMoodBoard(Lower(taskInput)) && MentionsColorPalette(Lower(taskInput)) ==>
              Suggestion(taskInput, installed) == Some(ColorPalette)
    ensures !MentionsMoodBoard(Lower(taskInput)) && !MentionsColorPalette(Lower(taskInput)) ==>
              Suggestion(taskInput, installed) == FirstUninstalled(Registry, installed)
  {
    KeywordPassNone(Lower(taskInput), installed, Registry);
  }

  /** The keyword fallbacks fire only after the keyword pass found nothing,
      and "visual", "color" and "design" are themselves keywords: so when they
      fire because of one of those words, their target is already installed. */
  lemma FallbackTargetsInstalled(taskInput: string, installed: seq<Extension>)
    requires KeywordPass(Lower(taskInput), installed, Registry).best.None?
    ensures Contains(Lower(taskInput), "visual") ==> IsInstalled(installed, MoodBoard.id)
    ensures MentionsColorPalette(Lower(taskInput)) ==> IsInstalled(installed, ColorPalette.id)
  {
    var input := Lower(taskInput);
    KeywordPassNone(input, installed, Registry);
    if Contains(input, "visual") && !IsInstalled(installed, MoodBoard.id) {
      ScorePositive(input, MoodBoard.keywords, 5);
    }
    if Contains(input, "color") && !IsInstalled(installed, ColorPalette.id) {
      ScorePositive(input, ColorPalette.keywords, 0);
    }
    if Contains(input, "design") && !IsInstalled(installed, ColorPalette.id) {
      ScorePositive(input, ColorPalette.keywords, 4);
    }
  }

  /** An installed extension is suggested only by one of the two keyword
      fallbacks, never by the keyword pass or the registry search. */
  lemma InstalledOnlyByFallback(taskInput: string, installed: seq<Extension>)
    ensures Suggestion(taskInput, installed).Some? && IsInstalled(installed, Suggestion(taskInput, installed).value.id) ==>
              || (Suggestion(taskInput, installed) == Some(MoodBoard) && MentionsMoodBoard(Lower(taskInput)))
              || (Suggestion(taskInput, installed) == Some(ColorPalette) && MentionsColorPalette(Lower(taskInput)))
  {
    var r := Suggestion(taskInput, installed);
    if r.Some? && IsInstalled(installed, r.value.id) {
      assert KeywordPass(Lower(taskInput), installed, Registry).best.None?;
    }
  }

  /** There is no suggestion exactly when every registry entry is installed
      and the input mentions none of "visual", "organize", "color", "design". */
  lemma SuggestionNoneIff(taskInput: string, installed: seq<Extension>)
    ensures Suggestion(taskInput, installed).None? <==>
              && (forall j :: 0 <= j < |Registry| ==> IsInstalled(installed, Registry[j].id))
              && !MentionsMoodBoard(Lower(taskInput)) && !MentionsColorPalette(Lower(taskInput))
  {
    KeywordPassNone(Lower(taskInput), installed, Registry);
  }
}
