/** The state of `CreativeExtensionApp`: the task input, the current
    suggestion and the list of installed extensions, with the three handlers
    that change them. The one-second delay of the analysis is collapsed, so
    `Analyze` is one atomic step. */
module App {
  import opened Text
  import opened Extensions
  import opened Matcher

  /** How many entries of `installed` carry `id`. */
  function Occurrences(installed: seq<Extension>, id: string): (n: nat)
    ensures n <= |installed|
    ensures n == 0 <==> !IsInstalled(installed, id)
  {
    if installed == [] then 0
    else
      assert forall e :: e in installed <==> e == installed[0] || e in installed[1..];
      (if installed[0].id == id then 1 else 0) + Occurrences(installed[1..], id)
  }

  /** `installed.filter(e => e.id !== id)`. */
  function RemoveById(installed: seq<Extension>, id: string): (r: seq<Extension>)
    ensures forall e :: e in r <==> e in installed && e.id != id
    ensures |r| == |installed| - Occurrences(installed, id)
  {
    if installed == [] then []
    else
      assert forall e :: e in installed <==> e == installed[0] || e in installed[1..];
      (if installed[0].id == id then [] else [installed[0]]) + RemoveById(installed[1..], id)
  }

  /** Removal filters each part of a list separately: what is kept stays in
      its original order. */
  lemma {:induction false} RemoveByIdAppend(a: seq<Extension>, b: seq<Extension>, id: string)
    ensures RemoveById(a + b, id) == RemoveById(a, id) + RemoveById(b, id)
  {
    if a == [] {
      assert a + b == b;
    } else {
      assert (a + b)[1..] == a[1..] + b;
      RemoveByIdAppend(a[1..], b, id);
    }
  }

  /** Removing an id that is not installed leaves the list as it was. */
  lemma {:induction false} RemoveAbsentIsIdentity(installed: seq<Extension>, id: string)
    requires !IsInstalled(installed, id)
    ensures RemoveById(installed, id) == installed
  {
    if installed != [] {
      assert installed[0] in installed;
      assert !IsInstalled(installed[1..], id) by {
        assert forall e :: e in installed[1..] ==> e in installed;
      }
      RemoveAbsentIsIdentity(installed[1..], id);
    }
  }

  /** Removal drops every entry with the id and counts of other ids stay. */
  lemma {:induction false} RemoveByIdCounts(installed: seq<Extension>, id: string, other: string)
    ensures Occurrences(RemoveById(installed, id), id) == 0
    ensures other != id ==> Occurrences(RemoveById(installed, id), other) == Occurrences(installed, other)
  {
    if installed != [] {
      RemoveByIdCounts(installed[1..], id, other);
      var head := if installed[0].id == id then [] else [installed[0]];
      OccurrencesAppend(head, RemoveById(installed[1..], id), id);
      OccurrencesAppend(head, RemoveById(installed[1..], id), other);
    }
  }

  lemma {:induction false} OccurrencesAppend(a: seq<Extension>, b: seq<Extension>, id: string)
    ensures Occurrences(a + b, id) == Occurrences(a, id) + Occurrences(b, id)
  {
    if a == [] {
      assert a + b == b;
    } else {
      assert (a + b)[1..] == a[1..] + b;
      OccurrencesAppend(a[1..], b, id);
    }
  }

  /** Installing appends without looking for an entry with the same id: the
      count of that id grows by one whether or not it was installed already. */
  lemma InstallAddsOccurrence(installed: seq<Extension>, extension: Extension)
    ensures Occurrences(installed + [extension], extension.id) == Occurrences(installed, extension.id) + 1
  {
    OccurrencesAppend(installed, [extension], extension.id);
  }

  class Workspace {
    var taskInput: string
    var suggestion: Option<Extension>
    var installed: seq<Extension>

    /** The initial `useState` values. */
    constructor ()
      ensures taskInput == "" && suggestion == None && installed == []
    {
      taskInput := "";
      suggestion := None;
      installed := [];
    }

    /** The input field's change handler. */
    method SetTaskInput(text: string)
      modifies this
      ensures taskInput == text
      ensures suggestion == old(suggestion) && installed == old(installed)
    {
      taskInput := text;
    }

    /** `analyzeTask`: an input that trims to "" changes nothing; otherwise
        the suggestion becomes the matcher's answer for the input. */
    method Analyze()
      modifies this
      ensures Trim(old(taskInput)) == [] ==> unchanged(this)
      ensures Trim(old(taskInput)) != [] ==> suggestion == Suggestion(old(taskInput), old(installed))
      ensures taskInput == old(taskInput) && installed == old(installed)
    {
      if Trim(taskInput) == [] {
        return;
      }
      suggestion := Suggest(taskInput, installed);
    }

    /** `installExtension`: append, then clear the suggestion and the input. */
    method Install(extension: Extension)
      modifies this
      ensures installed == old(installed) + [extension]
      ensures suggestion == None && taskInput == ""
    {
      installed := installed + [extension];
      suggestion := None;
      taskInput := "";
    }

    /** `removeExtension`: drop every entry with the id. */
    method Remove(id: string)
      modifies this
      ensures installed == RemoveById(old(installed), id)
      ensures suggestion == old(suggestion) && taskInput == old(taskInput)
    {
      installed := RemoveById(installed, id);
    }
  }

  /** Whitespace-only input is ignored: no suggestion appears. */
  method BlankInputIsIgnored() returns (w: Workspace)
    ensures w.taskInput == " \t " && w.suggestion == None && w.installed == []
  {
    w := new Workspace();
    w.SetTaskInput(" \t ");
    TrimEmptyIffBlank(" \t ");
    w.Analyze();
  }
}
