/** The review gate between content generation and the rest of the pipeline:
    it shows the four text files, then reads operator choices until one of
    them ends it with an exit code. */
module ReviewGate {
  import opened Options
  import opened Text

  /** The data files the generator writes. */
  datatype DataFile = Title | Description | Hashtags | Script | ImageQuery

  /** The contents of the data directory; a file that is not a key is missing. */
  type Files = map<DataFile, string>

  /** `FILES`: the four editable files by their menu key. */
  function FileOfKey(key: string): (r: Option<DataFile>)
    ensures r.Some? <==> key == "1" || key == "2" || key == "3" || key == "4"
    ensures r != Some(ImageQuery)
  {
    if key == "1" then Some(Title)
    else if key == "2" then Some(Description)
    else if key == "3" then Some(Hashtags)
    else if key == "4" then Some(Script)
    else None
  }

  /** `read_file`: the stripped contents, or "(missing)". */
  function ReadFile(files: Files, f: DataFile): (r: string)
    ensures Trimmed(r)
    ensures f !in files ==> r == "(missing)"
    ensures f in files ==> |r| <= |files[f]|
  {
    if f in files then Strip(files[f]) else "(missing)"
  }

  /** `show_content`: the four editable files, in menu order. */
  function Show(files: Files): (r: seq<string>)
    ensures |r| == 4
    ensures forall i :: 0 <= i < 4 ==> Trimmed(r[i])
  {
    [ReadFile(files, Title), ReadFile(files, Description), ReadFile(files, Hashtags), ReadFile(files, Script)]
  }

  /** The operator's editor: given the input position, the file and its
      contents, what the file holds afterwards (`None`: it does not exist). */
  type Editor = (nat, DataFile, Option<string>) -> Option<string>

  /** The regeneration subprocess at an input position: the files it wrote,
      or `None` when it returned a non-zero code. */
  type Regenerate = nat -> Option<Files>

  function Contents(files: Files, f: DataFile): Option<string>
  {
    if f in files then Some(files[f]) else None
  }

  /** `edit_field` once its key is read: an editable file is handed to the
      editor, any other key changes nothing. */
  function EditField(files: Files, key: string, editor: Editor, at: nat): (r: Files)
    ensures FileOfKey(key).None? ==> r == files
    ensures forall f :: f != ImageQuery ==> Some(f) != FileOfKey(key) ==> Contents(r, f) == Contents(files, f)
    ensures Contents(r, ImageQuery) == Contents(files, ImageQuery)
  {
    match FileOfKey(key)
    case None => files
    case Some(f) =>
      match editor(at, f, Contents(files, f))
      case None => files - {f}
      case Some(text) => files[f := text]
  }

  /** `input().strip().lower()`. */
  function Choice(line: string): (r: string)
    ensures |r| <= |line|
  {
    Lower(Strip(line))
  }

  /** The four choices of the menu, and everything else. */
  datatype Command = Continue | Edit | Regen | Quit | Invalid

  /** Every line the gate reads is stripped first, `input(...).strip()`. */
  function StripLines(inputs: seq<string>): (r: seq<string>)
    ensures |r| == |inputs|
    ensures forall i :: 0 <= i < |r| ==> r[i] == Strip(inputs[i]) && Trimmed(r[i])
  {
    seq(|inputs|, i requires 0 <= i < |inputs| => Strip(inputs[i]))
  }

  /** The dispatch of the loop on a stripped line, which it lower-cases. */
  function Parse(t: string): (r: Command)
  {
    if |t| != 1 then Invalid
    else
      var c := LowerChar(t[0]);
      if c == 'c' then Continue
      else if c == 'e' then Edit
      else if c == 'r' then Regen
      else if c == 'q' then Quit
      else Invalid
  }

  /** Each command is recognised from exactly its one-letter choice. */
  lemma ParseChoice(line: string)
    ensures Parse(Strip(line)) == Continue <==> Choice(line) == "c"
    ensures Parse(Strip(line)) == Edit <==> Choice(line) == "e"
    ensures Parse(Strip(line)) == Regen <==> Choice(line) == "r"
    ensures Parse(Strip(line)) == Quit <==> Choice(line) == "q"
  {
    var t := Strip(line);
    LowerOne(t, 'c');
    LowerOne(t, 'e');
    LowerOne(t, 'r');
    LowerOne(t, 'q');
  }

  /** A text lower-cases to one given character exactly when it is one
      character that lower-cases to it. */
  lemma LowerOne(t: string, x: char)
    ensures Lower(t) == [x] <==> |t| == 1 && LowerChar(t[0]) == x
  {
    if |t| == 1 {
      assert Lower(t) == [LowerChar(t[0])];
    }
  }

  /** How a session ends: the exit code, the files, everything shown, and how
      many input lines were read. */
  datatype Final = Final(code: int, files: Files, shown: seq<seq<string>>, consumed: nat)

  /** One pass of the loop: the program exits with a code, or goes on from a
      later line with the files and displays it has then. */
  datatype Step = Stop(code: int) | Go(pos: nat, files: Files, shown: seq<seq<string>>)

  /** One pass of the choice loop at line `pos` of the stripped input. */
  function Next(lines: seq<string>, pos: nat, files: Files, shown: seq<seq<string>>, editor: Editor,
                regen: Regenerate): (r: Step)
    requires pos < |lines|
    ensures r.Go? ==> pos < r.pos <= |lines|
    ensures r.Go? ==> r.shown == shown || r.shown == shown + [Show(r.files)]
    ensures r == Stop(0) <==> Parse(lines[pos]) == Continue
    ensures r.Stop? ==> r.code == 0 || r.code == 1
    ensures Parse(lines[pos]) == Invalid ==> r == Go(pos + 1, files, shown)
    ensures r.Go? && Parse(lines[pos]) != Regen ==> Contents(r.files, ImageQuery) == Contents(files, ImageQuery)
  {
    match Parse(lines[pos])
    case Continue => Stop(0)
    case Edit =>
      if pos + 1 == |lines| then Stop(1)
      else
        var next := EditField(files, lines[pos + 1], editor, pos + 1);
        Go(pos + 2, next, shown + [Show(next)])
    case Regen =>
      if regen(pos).None? then Stop(1)
      else Go(pos + 1, regen(pos).value, shown + [Show(regen(pos).value)])
    case Quit => Stop(1)
    case Invalid => Go(pos + 1, files, shown)
  }

  /** The choice loop of `main` from line `pos` of the stripped input.
      Running out of input makes `input` raise, which ends the program with
      code 1. */
  function Session(lines: seq<string>, pos: nat, files: Files, shown: seq<seq<string>>, editor: Editor,
                   regen: Regenerate): (r: Final)
    requires pos <= |lines|
    ensures pos <= r.consumed <= |lines|
    ensures r.code == 0 || r.code == 1
    decreases |lines| - pos
  {
    if pos == |lines| then Final(1, files, shown, pos)
    else
      match Next(lines, pos, files, shown, editor, regen)
      case Stop(code) => Final(code, files, shown, pos + 1)
      case Go(p, f, s) => Session(lines, p, f, s, editor, regen)
  }

  /** `main`: without a data directory it exits with 1 before showing
      anything; otherwise it shows the files and runs the choice loop. */
  function Gate(hasDataDir: bool, files: Files, inputs: seq<string>, editor: Editor, regen: Regenerate): (r: Final)
    ensures !hasDataDir ==> r.code == 1 && r.shown == [] && r.consumed == 0 && r.files == files
    ensures r.consumed <= |inputs|
  {
    if !hasDataDir then Final(1, files, [], 0) else Session(StripLines(inputs), 0, files, [Show(files)], editor, regen)
  }

  /** The gate as the program runs it: the data directory's files, and what
      was shown to the operator. */
  class ReviewSession {
    var files: Files
    var shown: seq<seq<string>>

    constructor(files: Files)
      ensures this.files == files && shown == []
    {
      this.files := files;
      shown := [];
    }

    /** `show_content`, recorded. */
    method ShowContent()
      modifies this
      ensures files == old(files) && shown == old(shown) + [Show(files)]
    {
      shown := shown + [Show(files)];
    }

    /** One pass of the loop of `main`: reads the choice at `pos` and acts
        on it. `display` is what the session has shown so far, after `base`. */
    method Pass(ghost lines: seq<string>, ghost base: seq<seq<string>>, ghost display: seq<seq<string>>,
                inputs: seq<string>, pos: nat, editor: Editor, regen: Regenerate)
      returns (done: bool, code: int, next: nat)
      requires lines == StripLines(inputs) && pos < |inputs| && shown == base + display
      modifies this
      ensures var s := Next(lines, pos, old(files), display, editor, regen);
        (done <==> s.Stop?)
        && (done ==> code == s.code && files == old(files) && shown == old(shown))
        && (!done ==> next == s.pos && files == s.files && shown == base + s.shown)
    {
      ghost var s := Next(lines, pos, files, display, editor, regen);
      var choice := Strip(inputs[pos]);
      assert choice == lines[pos];
      done, code, next := false, 0, pos + 1;
      match Parse(choice)
      case Continue =>
        done := true;
        assert s == Stop(0);
      case Quit =>
        done, code := true, 1;
        assert s == Stop(1);
      case Edit =>
        if pos + 1 == |inputs| {
          done, code := true, 1;
          assert s == Stop(1);
        } else {
          var key := Strip(inputs[pos + 1]);
          assert key == lines[pos + 1];
          files := EditField(files, key, editor, pos + 1);
          ShowContent();
          AppendAssociates(base, display, Show(files));
          next := pos + 2;
          assert s == Go(next, files, display + [Show(files)]);
        }
      case Regen =>
        var written := regen(pos);
        if written.None? {
          done, code := true, 1;
          assert s == Stop(1);
        } else {
          files := written.value;
          ShowContent();
          AppendAssociates(base, display, Show(files));
          assert s == Go(next, files, display + [Show(files)]);
        }
      case Invalid =>
        assert s == Go(next, files, display);
    }

    /** `main`: reads the inputs one by one until a choice ends the session. */
    method Run(hasDataDir: bool, inputs: seq<string>, editor: Editor, regen: Regenerate) returns (code: int)
      modifies this
      ensures var r := Gate(hasDataDir, old(files), inputs, editor, regen);
        code == r.code && files == r.files && shown == old(shown) + r.shown
    {
      if !hasDataDir {
        return 1;
      }
      ghost var base := old(shown);
      ghost var lines := StripLines(inputs);
      ShowContent();
      ghost var display := [Show(files)];
      var pos := 0;
      while pos < |inputs|
        invariant pos <= |inputs| && shown == base + display
        invariant Session(lines, pos, files, display, editor, regen)
                  == Gate(hasDataDir, old(files), inputs, editor, regen)
        decreases |inputs| - pos
      {
        ghost var step := Next(lines, pos, files, display, editor, regen);
        ghost var before := files;
        var done, exit, next := Pass(lines, base, display, inputs, pos, editor, regen);
        if done {
          SessionStops(lines, pos, files, display, editor, regen);
          return exit;
        }
        SessionGoes(lines, pos, before, display, editor, regen);
        display := step.shown;
        pos := next;
      }
      return 1;
    }
  }

  /** A pass that ends the program ends the session there. */
  lemma SessionStops(lines: seq<string>, pos: nat, files: Files, shown: seq<seq<string>>, editor: Editor,
                     regen: Regenerate)
    requires pos < |lines| && Next(lines, pos, files, shown, editor, regen).Stop?
    ensures Session(lines, pos, files, shown, editor, regen)
            == Final(Next(lines, pos, files, shown, editor, regen).code, files, shown, pos + 1)
  {
  }

  /** A pass that goes on leaves the rest of the session to the next one. */
  lemma SessionGoes(lines: seq<string>, pos: nat, files: Files, shown: seq<seq<string>>, editor: Editor,
                    regen: Regenerate)
    requires pos < |lines| && Next(lines, pos, files, shown, editor, regen).Go?
    ensures var s := Next(lines, pos, files, shown, editor, regen);
      Session(lines, pos, files, shown, editor, regen) == Session(lines, s.pos, s.files, s.shown, editor, regen)
  {
  }

  lemma AppendAssociates(a: seq<seq<string>>, b: seq<seq<string>>, x: seq<string>)
    ensures a + b + [x] == a + (b + [x])
  {
  }

  /** A line whose stripped, lower-cased form is "c" ends the gate with code
      0, changing nothing and reading nothing further. */
  lemma ContinueExitsZero(inputs: seq<string>, pos: nat, files: Files, shown: seq<seq<string>>, editor: Editor,
                          regen: Regenerate)
    requires pos < |inputs| && Choice(inputs[pos]) == "c"
    ensures Session(StripLines(inputs), pos, files, shown, editor, regen) == Final(0, files, shown, pos + 1)
  {
    ParseChoice(inputs[pos]);
  }

  /** A line normalised to "q" ends the gate with code 1. */
  lemma QuitExitsOne(inputs: seq<string>, pos: nat, files: Files, shown: seq<seq<string>>, editor: Editor,
                     regen: Regenerate)
    requires pos < |inputs| && Choice(inputs[pos]) == "q"
    ensures Session(StripLines(inputs), pos, files, shown, editor, regen) == Final(1, files, shown, pos + 1)
  {
    ParseChoice(inputs[pos]);
  }

  /** Any other choice is complained about and skipped: the session goes on
      from the next line in the same state. */
  lemma InvalidChoiceSkipped(inputs: seq<string>, pos: nat, files: Files, shown: seq<seq<string>>,
                             editor: Editor, regen: Regenerate)
    requires pos < |inputs|
    requires var c := Choice(inputs[pos]); c != "c" && c != "e" && c != "r" && c != "q"
    ensures Session(StripLines(inputs), pos, files, shown, editor, regen)
            == Session(StripLines(inputs), pos + 1, files, shown, editor, regen)
  {
    ParseChoice(inputs[pos]);
  }

  /** A failed regeneration ends the gate with code 1. */
  lemma FailedRegenerationExitsOne(inputs: seq<string>, pos: nat, files: Files, shown: seq<seq<string>>,
                                   editor: Editor, regen: Regenerate)
    requires pos < |inputs| && Choice(inputs[pos]) == "r" && regen(pos).None?
    ensures Session(StripLines(inputs), pos, files, shown, editor, regen).code == 1
  {
    ParseChoice(inputs[pos]);
  }

  /** Exit code 0 comes only from a "c": it is the last line read. */
  lemma ZeroOnlyFromContinue(hasDataDir: bool, files: Files, inputs: seq<string>, editor: Editor, regen: Regenerate)
    returns (k: nat)
    requires Gate(hasDataDir, files, inputs, editor, regen).code == 0
    ensures k + 1 == Gate(hasDataDir, files, inputs, editor, regen).consumed
    ensures k < |inputs| && Choice(inputs[k]) == "c"
  {
    var r := Gate(hasDataDir, files, inputs, editor, regen);
    var lines := StripLines(inputs);
    assert hasDataDir && r == Session(lines, 0, files, [Show(files)], editor, regen);
    k := ZeroFromContinue(lines, 0, files, [Show(files)], editor, regen);
    ContinueLine(inputs, k);
  }

  /** A stripped line read as `Continue` was typed as "c". */
  lemma ContinueLine(inputs: seq<string>, k: nat)
    requires k < |inputs| && Parse(StripLines(inputs)[k]) == Continue
    ensures Choice(inputs[k]) == "c"
  {
    var last := inputs[k];
    assert StripLines(inputs)[k] == Strip(last);
    ParseChoice(last);
  }

  lemma {:induction false} ZeroFromContinue(lines: seq<string>, pos: nat, files: Files, shown: seq<seq<string>>,
                                            editor: Editor, regen: Regenerate) returns (k: nat)
    requires pos <= |lines|
    requires Session(lines, pos, files, shown, editor, regen).code == 0
    ensures k + 1 == Session(lines, pos, files, shown, editor, regen).consumed
    ensures k < |lines| && Parse(lines[k]) == Continue
    decreases |lines| - pos
  {
    var step := Next(lines, pos, files, shown, editor, regen);
    if step.Go? {
      assert Session(lines, pos, files, shown, editor, regen) == Session(lines, step.pos, step.files, step.shown, editor, regen);
      k := ZeroFromContinue(lines, step.pos, step.files, step.shown, editor, regen);
    } else {
      assert step == Stop(0);
      k := pos;
    }
  }


  /** The session only adds to what was shown, and everything it shows is
      stripped text when what was shown before was. */
  lemma {:induction false} SessionKeepsShown(lines: seq<string>, pos: nat, files: Files, shown: seq<seq<string>>,
                                             editor: Editor, regen: Regenerate)
    requires pos <= |lines|
    ensures var r := Session(lines, pos, files, shown, editor, regen);
      |shown| <= |r.shown| && r.shown[..|shown|] == shown
      && (AllTrimmed(shown) ==> AllTrimmed(r.shown))
    decreases |lines| - pos
  {
    if pos < |lines| {
      var step := Next(lines, pos, files, shown, editor, regen);
      if step.Go? {
        SessionKeepsShown(lines, step.pos, step.files, step.shown, editor, regen);
        var r := Session(lines, step.pos, step.files, step.shown, editor, regen);
        if step.shown != shown {
          PrefixOfAppend(shown, Show(step.files), r.shown);
          if AllTrimmed(shown) {
            AppendShown(shown, Show(step.files));
          }
        }
      }
    }
  }

  lemma PrefixOfAppend(a: seq<seq<string>>, x: seq<string>, b: seq<seq<string>>)
    requires |a| + 1 <= |b| && b[..|a| + 1] == a + [x]
    ensures |a| <= |b| && b[..|a|] == a
  {
    assert b[..|a|] == b[..|a| + 1][..|a|];
  }

  /** With a data directory, the files are shown before any choice is read,
      and everything shown is stripped text. */
  lemma GateShows(files: Files, inputs: seq<string>, editor: Editor, regen: Regenerate)
    ensures var r := Gate(true, files, inputs, editor, regen);
      |r.shown| >= 1 && r.shown[0] == Show(files) && AllTrimmed(r.shown)
  {
    AppendShown([], Show(files));
    assert [] + [Show(files)] == [Show(files)];
    SessionKeepsShown(StripLines(inputs), 0, files, [Show(files)], editor, regen);
    var r := Gate(true, files, inputs, editor, regen);
    assert r.shown[..1] == [Show(files)];
    assert r.shown[0] == r.shown[..1][0];
  }

  /** The image query file is never changed by the gate except through a
      regeneration: with no "r", it ends as it started. */
  lemma GateKeepsImageQuery(files: Files, inputs: seq<string>, editor: Editor, regen: Regenerate)
    requires forall i :: 0 <= i < |inputs| ==> Choice(inputs[i]) != "r"
    ensures Contents(Gate(true, files, inputs, editor, regen).files, ImageQuery) == Contents(files, ImageQuery)
  {
    var lines := StripLines(inputs);
    forall i | 0 <= i < |lines|
      ensures Parse(lines[i]) != Regen
    {
      ParseChoice(inputs[i]);
    }
    ImageQueryKept(lines, 0, files, [Show(files)], editor, regen);
  }

  lemma {:induction false} ImageQueryKept(lines: seq<string>, pos: nat, files: Files, shown: seq<seq<string>>,
                                          editor: Editor, regen: Regenerate)
    requires pos <= |lines|
    requires forall i :: pos <= i < |lines| ==> Parse(lines[i]) != Regen
    ensures Contents(Session(lines, pos, files, shown, editor, regen).files, ImageQuery) == Contents(files, ImageQuery)
    decreases |lines| - pos
  {
    if pos < |lines| {
      var step := Next(lines, pos, files, shown, editor, regen);
      if step.Go? {
        ImageQueryKept(lines, step.pos, step.files, step.shown, editor, regen);
      }
    }
  }

  /** Every line of every display is stripped text. */
  predicate AllTrimmed(shown: seq<seq<string>>)
  {
    forall i, j :: 0 <= i < |shown| && 0 <= j < |shown[i]| ==> Trimmed(shown[i][j])
  }

  lemma AppendShown(shown: seq<seq<string>>, s: seq<string>)
    requires AllTrimmed(shown) && forall j :: 0 <= j < |s| ==> Trimmed(s[j])
    ensures AllTrimmed(shown + [s])
  {
    var t := shown + [s];
    forall i, j | 0 <= i < |t| && 0 <= j < |t[i]|
      ensures Trimmed(t[i][j])
    {
      if i < |shown| {
        assert t[i] == shown[i];
      }
    }
  }

  /** A choice is recognised whatever its case and surrounding whitespace. */
  lemma ChoiceNormalised(p: string, t: string, q: string)
    requires AllSpace(p) && AllSpace(q) && Trimmed(t)
    ensures Choice(p + t + q) == Lower(t)
  {
    StripUnique(p, t, q);
  }

  /** An upper-case "C" with whitespace around it continues. */
  lemma UpperContinue(p: string, q: string)
    requires AllSpace(p) && AllSpace(q)
    ensures Choice(p + "C" + q) == "c"
  {
    ChoiceNormalised(p, "C", q);
  }
}
