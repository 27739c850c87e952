/** For which patch texts parsing, printing and parsing again gives what the first parse gave. */
module PatchStability {
  import opened Common
  import opened PatchText
  import opened PatchParser
  import opened PatchPrinting

  // -------------------------------------------------- the lines that decide headings

  /** The line gives the hunk it is read in a new heading. */
  predicate Decides(h: Hunk, line: string) {
    && line != "" && !HasPrefix(line, "\\ No newline") && line[0] != '-'
    && HeadingTitle(line[1..]).Some? && AllContext(h.lines)
  }

  /** Such a line also becomes a line of the hunk. Otherwise it is stray: its first character is none
      of the three markers. */
  predicate Stays(line: string) {
    line != "" && InNew(line[0])
  }

  function TitleIn(line: string): string {
    if line != "" && HeadingTitle(line[1..]).Some? then HeadingTitle(line[1..]).value else ""
  }

  /** For each hunk, the lines of the text that have decided its heading, in order. */
  datatype Notes = Notes(done: seq<seq<seq<string>>>, file: seq<seq<string>>, hunk: seq<string>)

  function FileNotes(s: State, n: Notes): seq<seq<string>> {
    if s.hunk.Some? then n.file + [n.hunk] else n.file
  }

  function AllNotes(s: State, n: Notes): seq<seq<seq<string>>> {
    if s.file.None? then n.done else n.done + [FileNotes(s, n)]
  }

  function NoteStep(s: State, n: Notes, line: string): Notes {
    if HasPrefix(line, "diff --git ") then Notes(AllNotes(s, n), [], [])
    else if s.file.None? || HasPrefix(line, "+++ ") then n
    else if s.file.value.path == "" && HasPrefix(line, "--- ") then n
    else if ParseHeader(line).Some? then Notes(n.done, FileNotes(s, n), [])
    else if s.hunk.Some? && Decides(s.hunk.value, line) then n.(hunk := n.hunk + [line])
    else n
  }

  function NotesAfter(lines: seq<string>): Notes {
    if lines == [] then Notes([], [], [])
    else
      var init := lines[..|lines| - 1];
      NoteStep(Steps(START, init), NotesAfter(init), lines[|lines| - 1])
  }

  /** The notes of the files that are kept. */
  function FilteredNotes(files: seq<FilePatch>, notes: seq<seq<seq<string>>>): seq<seq<seq<string>>> {
    if files == [] || notes == [] then []
    else
      FilteredNotes(files[..|files| - 1], notes[..|notes| - 1])
      + if Kept(files[|files| - 1]) then [notes[|notes| - 1]] else []
  }

  /** For each hunk of each parsed file, the lines of the text that decided its heading. */
  function Deciders(patch: string): seq<seq<seq<string>>> {
    var lines := Split(patch, '\n');
    var s := Steps(START, lines);
    FilteredNotes(AllFiles(s), AllNotes(s, NotesAfter(lines)))
  }

  function LastStaying(ds: seq<string>): Option<string> {
    if ds == [] then None
    else if Stays(ds[|ds| - 1]) then Some(TitleIn(ds[|ds| - 1]))
    else LastStaying(ds[..|ds| - 1])
  }

  /** The last line that decided is one of the hunk's own, or, being stray, has the title of the last
      of the hunk's own that did, or, none of them having decided, a title without white space around it. */
  predicate Steady(ds: seq<string>) {
    ds == [] || Stays(ds[|ds| - 1]) ||
    var title := TitleIn(ds[|ds| - 1]);
    match LastStaying(ds)
    case Some(own) => own == title
    case None => JsTrim(title) == title
  }

  // ------------------------------------------------------- what the lines have decided

  ghost predicate Decided(h: Hunk, ds: seq<string>) {
    && (exists given :: Trimmed(JsSpace, given) && h.heading == if ds == [] then given else TitleIn(ds[|ds| - 1]))
    && forall x: string :: HeadingAfter(x, h.lines) == match LastStaying(ds) case Some(own) => own case None => x
  }

  lemma DecidedNew(h: Hunk)
    requires h.lines == [] && Trimmed(JsSpace, h.heading)
    ensures Decided(h, [])
  {
    assert Trimmed(JsSpace, h.heading) && h.heading == h.heading;
  }

  lemma HunkStepDecided(h: Hunk, ds: seq<string>, line: string, o: nat, n: nat)
    requires Decided(h, ds) && line != "" && !HasPrefix(line, "\\ No newline")
    ensures Decided(HunkStep(h, line, o, n), if Decides(h, line) then ds + [line] else ds)
  {
    hide HeadingTitle, AllContext, Trimmed;
    var t := HunkStep(h, line, o, n);
    var given :| Trimmed(JsSpace, given) && h.heading == if ds == [] then given else TitleIn(ds[|ds| - 1]);
    var more := if Decides(h, line) then ds + [line] else ds;
    assert t.heading == if more == [] then given else TitleIn(more[|more| - 1]);
    StayingSnoc(ds, line);
    forall x: string ensures HeadingAfter(x, t.lines) == match LastStaying(more) case Some(own) => own case None => x {
      assert HeadingAfter(x, h.lines) == match LastStaying(ds) case Some(own) => own case None => x;
      HeadingStep(h, line, o, n, x);
    }
  }

  lemma StayingSnoc(ds: seq<string>, line: string)
    ensures LastStaying(ds + [line]) == if Stays(line) then Some(TitleIn(line)) else LastStaying(ds)
  {
    assert (ds + [line])[..|ds|] == ds;
  }

  lemma HeadingStep(h: Hunk, line: string, o: nat, n: nat, x: string)
    requires line != "" && !HasPrefix(line, "\\ No newline")
    ensures HeadingAfter(x, HunkStep(h, line, o, n).lines) ==
            if Decides(h, line) && Stays(line) then TitleIn(line) else HeadingAfter(x, h.lines)
  {
    hide HeadingTitle, AllContext;
    var t := HunkStep(h, line, o, n);
    if t.lines != h.lines { assert t.lines[..|h.lines|] == h.lines; }
  }

  /** A heading is what printing and parsing make of it exactly when its deciders are steady. */
  lemma SettledExactly(h: Hunk, ds: seq<string>)
    requires Decided(h, ds)
    ensures h.heading == HeadingAfter(JsTrim(h.heading), h.lines) <==> Steady(ds)
  {
    hide HeadingAfter, TitleIn, Stays;
    var given :| Trimmed(JsSpace, given) && h.heading == if ds == [] then given else TitleIn(ds[|ds| - 1]);
    TrimFixes(JsSpace, given);
  }

  // ------------------------------------------------------------------ all files at once

  ghost predicate DecidedFile(f: FilePatch, ns: seq<seq<string>>) {
    |ns| == |f.hunks| && forall i :: 0 <= i < |ns| ==> Decided(f.hunks[i], ns[i])
  }

  ghost predicate DecidedFiles(files: seq<FilePatch>, notes: seq<seq<seq<string>>>) {
    |notes| == |files| && forall i :: 0 <= i < |notes| ==> DecidedFile(files[i], notes[i])
  }

  ghost predicate DecidedState(s: State, n: Notes) {
    && DecidedFiles(s.done, n.done) && (s.file.Some? ==> DecidedFile(s.file.value, n.file))
    && (s.hunk.Some? ==> Decided(s.hunk.value, n.hunk))
  }

  lemma AllDecided(s: State, n: Notes)
    requires DecidedState(s, n)
    ensures DecidedFiles(AllFiles(s), AllNotes(s, n))
    ensures s.file.Some? ==> DecidedFile(s.file.value.(hunks := Hunks(s.file.value, s.hunk)), FileNotes(s, n))
    ensures s.file.Some? ==> forall path :: DecidedFile(s.file.value.(path := path), n.file)
  {
    hide Decided;
  }

  lemma HeaderDecided(line: string)
    requires ParseHeader(line).Some?
    ensures var h := ParseHeader(line).value; Decided(Hunk(h.oldStart, h.newStart, h.heading, []), [])
  {
    hide ParseHeader, Trimmed, Decided;
    HeaderFacts(line);
    var h := ParseHeader(line).value;
    DecidedNew(Hunk(h.oldStart, h.newStart, h.heading, []));
  }

  lemma StepDecided(s: State, n: Notes, line: string)
    requires DecidedState(s, n)
    ensures DecidedState(Step(s, line), NoteStep(s, n, line))
  {
    hide Decided, ParseHeader, SidePath, HunkStep, DecidedFiles, AllFiles, AllNotes, HasPrefix;
    AllDecided(s, n);
    assert DecidedFile(FilePatch("", []), []);
    if ParseHeader(line).Some? { HeaderDecided(line); }
    if !Ignored(s, line) { HunkStepDecided(s.hunk.value, n.hunk, line, s.oldLine, s.newLine); }
  }

  lemma {:induction false} StepsDecided(lines: seq<string>)
    ensures DecidedState(Steps(START, lines), NotesAfter(lines))
    decreases |lines|
  {
    hide Step, NoteStep;
    if lines != [] {
      StepsDecided(lines[..|lines| - 1]);
      StepDecided(Steps(START, lines[..|lines| - 1]), NotesAfter(lines[..|lines| - 1]), lines[|lines| - 1]);
    }
  }

  lemma {:induction false} FilteredDecided(files: seq<FilePatch>, notes: seq<seq<seq<string>>>)
    requires DecidedFiles(files, notes)
    ensures DecidedFiles(Filtered(files), FilteredNotes(files, notes))
    decreases |files|
  {
    hide DecidedFile, Kept;
    if files != [] {
      var m := |files| - 1;
      FilteredDecided(files[..m], notes[..m]);
      DecidedSnoc(Filtered(files[..m]), FilteredNotes(files[..m], notes[..m]), files[m], notes[m]);
    }
  }

  lemma DecidedSnoc(files: seq<FilePatch>, notes: seq<seq<seq<string>>>, f: FilePatch, ns: seq<seq<string>>)
    requires DecidedFiles(files, notes) && DecidedFile(f, ns)
    ensures DecidedFiles(files + [f], notes + [ns])
    ensures files + [] == files && notes + [] == notes
  {
    hide DecidedFile;
  }

  lemma DecidersMatch(patch: string)
    ensures DecidedFiles(Parse(patch), Deciders(patch))
  {
    hide Split, Steps, NotesAfter, Filtered, FilteredNotes, AllFiles, AllNotes, DecidedFiles;
    var lines := Split(patch, '\n');
    StepsDecided(lines);
    AllDecided(Steps(START, lines), NotesAfter(lines));
    FilteredDecided(AllFiles(Steps(START, lines)), AllNotes(Steps(START, lines), NotesAfter(lines)));
  }

  ghost predicate AllSteady(notes: seq<seq<seq<string>>>) {
    forall i, j :: 0 <= i < |notes| && 0 <= j < |notes[i]| ==> Steady(notes[i][j])
  }

  /** Printing what was parsed and parsing it again gives the same files exactly when, for every hunk
      that is kept, the lines of the text that decided its heading are steady. */
  lemma ReparseIsStable(patch: string)
    ensures Parse(Print(Parse(patch))) == Parse(patch) <==> AllSteady(Deciders(patch))
  {
    hide Parse, Deciders, Print, WellFormed, HeadingAfter, Steady, Decided;
    ParsedIsWellFormed(patch);
    DecidersMatch(patch);
    var files, notes := Parse(patch), Deciders(patch);
    forall i, j | 0 <= i < |files| && 0 <= j < |files[i].hunks|
      ensures files[i].hunks[j].heading == HeadingAfter(JsTrim(files[i].hunks[j].heading), files[i].hunks[j].lines)
              <==> Steady(notes[i][j])
    {
      assert DecidedFile(files[i], notes[i]) && Decided(files[i].hunks[j], notes[i][j]);
      SettledExactly(files[i].hunks[j], notes[i][j]);
    }
    RoundTripExactly(files);
    SteadyMeans(files, notes);
  }

  lemma SteadyMeans(files: seq<FilePatch>, notes: seq<seq<seq<string>>>)
    requires DecidedFiles(files, notes)
    ensures AllSteady(notes) <==> forall i, j :: 0 <= i < |files| && 0 <= j < |files[i].hunks| ==> Steady(notes[i][j])
  {
    hide Steady, Decided;
    forall i | 0 <= i < |files| ensures |notes[i]| == |files[i].hunks| { assert DecidedFile(files[i], notes[i]); }
  }

  // --------------------------------------------------------------- a text that is not stable

  /** Its last line has the unknown first character "x" and a heading behind it. */
  function StrayLines(): seq<string> {
    ["diff --git a/x b/x", "--- a/x", "+++ b/x", "@@ -1,1 +1,1 @@", " # A", "x# B"]
  }

  function StrayPatch(): string {
    Join(StrayLines(), '\n')
  }

  function StrayFile(heading: string): FilePatch {
    FilePatch("x", [Hunk(1, 1, heading, [PatchLine(Context, "# A", Some(1), Some(1))])])
  }

  lemma Titles()
    ensures HeadingTitle("# A") == Some("A") && HeadingTitle("# B") == Some("B")
  {
    assert Closing("");
    assert "" + ("#" + (" " + ("A" + ""))) == "# A" && "" + ("#" + (" " + ("B" + ""))) == "# B";
    HeadingText("", "#", " ", "A", "");
    HeadingText("", "#", " ", "B", "");
  }

  lemma OneDigit()
    ensures Decimal(1) == "1"
  {
  }

  lemma StrayTop()
    ensures StrayLines()[..3] == TopLines("x")
    ensures StrayLines()[3] == PrintHeader(Header(1, 1, ""), 1, 1)
    ensures " # A" == PrintLine(PatchLine(Context, "# A", Some(1), Some(1)))
  {
    OneDigit();
    assert "diff --git a/" + "x" + " b/" + "x" == "diff --git a/x b/x";
    assert "--- a/" + "x" == "--- a/x" && "+++ b/" + "x" == "+++ b/x";
    assert "1" + "," + "1" == "1,1";
    assert "@@ -" + "1,1" + " +" + "1,1" + " @@" + "" == "@@ -1,1 +1,1 @@";
  }

  /** The parser before the line " # A". */
  function BeforeContent(): State {
    Within([], FilePatch("x", []), Hunk(1, 1, "", []))
  }

  lemma StrayHead()
    ensures Steps(START, StrayLines()[..4]) == BeforeContent()
  {
    hide Step, Steps, PrintHeader, TopLines, Olds, News;
    var l := PatchLine(Context, "# A", Some(1), Some(1));
    var h := Hunk(1, 1, "", [l]);
    StrayTop();
    CountSnoc([], l);
    NothingCounted();
    assert [] + [l] == [l];
    TopRead(START, "x");
    StepsSnoc(START, TopLines("x"), StrayLines()[3]);
    assert StrayLines()[..4] == StrayLines()[..3] + [StrayLines()[3]];
    HeaderRead(Steps(START, TopLines("x")), FilePatch("x", []), h);
  }

  lemma StrayStep()
    ensures var l := PatchLine(Context, "# A", Some(1), Some(1));
            Step(Within([], FilePatch("x", []), Hunk(1, 1, "A", [l])), "x# B")
            == Within([], FilePatch("x", []), Hunk(1, 1, "B", [l]))
  {
    hide HeadingTitle, Olds, News;
    Titles();
    assert "x# B"[1..] == "# B";
    assert "diff --git "[0] == 'd' && "+++ "[0] == '+' && "@@ -"[0] == '@' && "\\ No newline"[0] == '\\';
    assert ParseHeader("x# B") == None;
  }

  lemma StrayParsed()
    ensures Parse(StrayPatch()) == [StrayFile("B")]
  {
    hide Step, Steps, Split, HeadingTitle, Join, Within, Print;
    var lines, l := StrayLines(), PatchLine(Context, "# A", Some(1), Some(1));
    forall i | 0 <= i < |lines| ensures '\n' !in lines[i] {}
    SplitJoin(lines, '\n');
    StrayHead();
    StrayTop();
    Titles();
    NothingCounted();
    assert lines[..5] == lines[..4] + [" # A"] && lines == lines[..5] + ["x# B"];
    StepsSnoc(START, lines[..4], " # A");
    StepsSnoc(START, lines[..5], "x# B");
    LineRead([], FilePatch("x", []), Hunk(1, 1, "", []), l);
    assert [] + [l] == [l];
    StrayStep();
    StrayKept(Steps(START, lines));
  }

  lemma StrayKept(s: State)
    requires var l := PatchLine(Context, "# A", Some(1), Some(1));
             s == Within([], FilePatch("x", []), Hunk(1, 1, "B", [l]))
    ensures Filtered(AllFiles(s)) == [StrayFile("B")]
  {
    var fs := [StrayFile("B")];
    assert Hunks(FilePatch("x", []), s.hunk) == fs[0].hunks;
    assert AllFiles(s) == fs && fs[..0] == [];
  }

  /** The stray line has replaced the heading, and the heading does not survive a round trip. */
  lemma StrayReplacesHeading()
    ensures Parse(StrayPatch()) == [StrayFile("B")]
    ensures Parse(Print(Parse(StrayPatch()))) == [StrayFile("A")]
  {
    hide Parse, Print, HeadingTitle, WellFormed;
    StrayParsed();
    ParsedIsWellFormed(StrayPatch());
    ParsePrint([StrayFile("B")]);
    Titles();
    var l := PatchLine(Context, "# A", Some(1), Some(1));
    assert [l][..0] == [];
    assert SettledHunks(StrayFile("B").hunks) == StrayFile("A").hunks;
  }
}
