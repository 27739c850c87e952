/** The unified-patch parser of the change viewer: one pass over the lines of a patch. */
module PatchParser {
  import opened Common
  import opened PatchText

  datatype Kind = Add | Delete | Context

  datatype PatchLine = PatchLine(kind: Kind, content: string, oldLine: Option<nat>, newLine: Option<nat>)

  datatype Hunk = Hunk(oldStart: nat, newStart: nat, heading: string, lines: seq<PatchLine>)

  datatype FilePatch = FilePatch(path: string, hunks: seq<Hunk>)

  /** The parser's variables. The file and the hunk that are still growing are kept apart from the
      files and hunks before them. */
  datatype State = State(done: seq<FilePatch>, file: Option<FilePatch>, hunk: Option<Hunk>, oldLine: nat, newLine: nat)

  const START := State([], None, None, 0, 0)

  function Hunks(file: FilePatch, hunk: Option<Hunk>): seq<Hunk> {
    if hunk.Some? then file.hunks + [hunk.value] else file.hunks
  }

  /** All files so far. */
  function AllFiles(s: State): seq<FilePatch> {
    if s.file.None? then s.done else s.done + [FilePatch(s.file.value.path, Hunks(s.file.value, s.hunk))]
  }

  predicate AllContext(lines: seq<PatchLine>) {
    forall l :: l in lines ==> l.kind.Context?
  }

  /** A named side of the patch, without the prefix git puts before it. */
  function SidePath(line: string, prefix: string, path: string): string
    requires |line| >= 4
  {
    var side := JsTrim(line[4..]);
    if side == "/dev/null" then path
    else if HasPrefix(side, prefix) then side[|prefix|..] else side
  }

  predicate InOld(marker: char) { marker == '-' || marker == ' ' }

  predicate InNew(marker: char) { marker == '+' || marker == ' ' }

  /** What one line inside a hunk does to the hunk. */
  function HunkStep(h: Hunk, line: string, oldLine: nat, newLine: nat): Hunk
    requires line != ""
  {
    var marker, content := line[0], line[1..];
    var title := HeadingTitle(content);
    var heading := if title.Some? && marker != '-' && AllContext(h.lines) then title.value else h.heading;
    var lines :=
      if marker == '+' then h.lines + [PatchLine(Add, content, None, Some(newLine))]
      else if marker == '-' then h.lines + [PatchLine(Delete, content, Some(oldLine), None)]
      else if marker == ' ' then h.lines + [PatchLine(Context, content, Some(oldLine), Some(newLine))]
      else h.lines;
    h.(heading := heading, lines := lines)
  }

  predicate Ignored(s: State, line: string) {
    s.hunk.None? || HasPrefix(line, "\\ No newline") || line == ""
  }

  function BodyStep(s: State, line: string): State {
    if Ignored(s, line) then s
    else
      s.(hunk := Some(HunkStep(s.hunk.value, line, s.oldLine, s.newLine)),
         oldLine := s.oldLine + if InOld(line[0]) then 1 else 0,
         newLine := s.newLine + if InNew(line[0]) then 1 else 0)
  }

  function FileStep(s: State, file: FilePatch, line: string): State {
    if HasPrefix(line, "+++ ") then s.(file := Some(file.(path := SidePath(line, "b/", file.path))))
    else if file.path == "" && HasPrefix(line, "--- ") then
      s.(file := Some(file.(path := SidePath(line, "a/", file.path))))
    else
      match ParseHeader(line)
      case Some(h) =>
        State(s.done, Some(file.(hunks := Hunks(file, s.hunk))), Some(Hunk(h.oldStart, h.newStart, h.heading, [])),
              h.oldStart, h.newStart)
      case None => BodyStep(s, line)
  }

  function Step(s: State, line: string): State {
    if HasPrefix(line, "diff --git ") then State(AllFiles(s), Some(FilePatch("", [])), None, s.oldLine, s.newLine)
    else if s.file.None? then s
    else FileStep(s, s.file.value, line)
  }

  function Steps(s: State, lines: seq<string>): State {
    if lines == [] then s else Step(Steps(s, lines[..|lines| - 1]), lines[|lines| - 1])
  }

  predicate Kept(f: FilePatch) {
    f.path != "" && f.hunks != []
  }

  function Filtered(files: seq<FilePatch>): seq<FilePatch> {
    if files == [] then []
    else Filtered(files[..|files| - 1]) + if Kept(files[|files| - 1]) then [files[|files| - 1]] else []
  }

  function Parse(patch: string): seq<FilePatch> {
    Filtered(AllFiles(Steps(START, Split(patch, '\n'))))
  }

  lemma StepsSnoc(s: State, lines: seq<string>, line: string)
    ensures Steps(s, lines + [line]) == Step(Steps(s, lines), line)
  {
  }

  /** A line inside a hunk: its heading, its place, and the running line numbers. */
  method AddLine(hunk: Hunk, line: string, oldLine: nat, newLine: nat) returns (h: Hunk, o: nat, n: nat)
    requires line != ""
    ensures h == HunkStep(hunk, line, oldLine, newLine)
    ensures o == oldLine + (if InOld(line[0]) then 1 else 0) && n == newLine + if InNew(line[0]) then 1 else 0
  {
    hide HeadingTitle, AllContext;
    h, o, n := hunk, oldLine, newLine;
    var marker, content := line[0], line[1..];
    var title := HeadingTitle(content);
    if title.Some? && marker != '-' && AllContext(h.lines) {
      h := h.(heading := title.value);
    }
    if marker == '+' {
      h := h.(lines := h.lines + [PatchLine(Add, content, None, Some(n))]);
      n := n + 1;
    } else if marker == '-' {
      h := h.(lines := h.lines + [PatchLine(Delete, content, Some(o), None)]);
      o := o + 1;
    } else if marker == ' ' {
      h := h.(lines := h.lines + [PatchLine(Context, content, Some(o), Some(n))]);
      o, n := o + 1, n + 1;
    }
  }

  /** A line that names one side of the current file. */
  method TakePath(line: string, prefix: string, path: string) returns (p: string)
    requires |line| >= 4
    ensures p == SidePath(line, prefix, path)
  {
    p := JsTrim(line[4..]);
    if p == "/dev/null" { return path; }
    if HasPrefix(p, prefix) { p := p[|prefix|..]; }
  }

  /** parseDocumentPatch. */
  method ParseDocumentPatch(patch: string) returns (files: seq<FilePatch>)
    ensures files == Parse(patch)
  {
    hide SidePath, ParseHeader, HunkStep, Filtered, Split;
    var done: seq<FilePatch>, file: Option<FilePatch>, hunk: Option<Hunk> := [], None, None;
    var oldLine, newLine := 0, 0;
    var lines := Split(patch, '\n');
    assert lines[..0] == [];
    for i := 0 to |lines|
      invariant State(done, file, hunk, oldLine, newLine) == Steps(START, lines[..i])
    {
      var line := lines[i];
      StepsSnoc(START, lines[..i], line);
      assert lines[..i + 1] == lines[..i] + [line];
      hide Steps;
      if HasPrefix(line, "diff --git ") {
        done := AllFiles(State(done, file, hunk, oldLine, newLine));
        file, hunk := Some(FilePatch("", [])), None;
        continue;
      }
      if file.None? { continue; }
      if HasPrefix(line, "+++ ") {
        var path := TakePath(line, "b/", file.value.path);
        file := Some(file.value.(path := path));
        continue;
      }
      if file.value.path == "" && HasPrefix(line, "--- ") {
        var path := TakePath(line, "a/", file.value.path);
        file := Some(file.value.(path := path));
        continue;
      }
      var header := ParseHeader(line);
      if header.Some? {
        file := Some(file.value.(hunks := Hunks(file.value, hunk)));
        oldLine, newLine := header.value.oldStart, header.value.newStart;
        hunk := Some(Hunk(oldLine, newLine, header.value.heading, []));
        continue;
      }
      if hunk.None? || HasPrefix(line, "\\ No newline") || line == "" { continue; }
      var grown: Hunk;
      grown, oldLine, newLine := AddLine(hunk.value, line, oldLine, newLine);
      hunk := Some(grown);
    }
    assert lines[..|lines|] == lines;
    files := Filtered(AllFiles(State(done, file, hunk, oldLine, newLine)));
  }

  // ------------------------------------------------- what every parsed patch satisfies

  /** How many of the lines are in the old file, and how many in the new one. */
  function Olds(lines: seq<PatchLine>): nat {
    if lines == [] then 0 else Olds(lines[..|lines| - 1]) + if lines[|lines| - 1].kind.Add? then 0 else 1
  }

  function News(lines: seq<PatchLine>): nat {
    if lines == [] then 0 else News(lines[..|lines| - 1]) + if lines[|lines| - 1].kind.Delete? then 0 else 1
  }

  /** The line carries exactly the numbers that its kind has a place for. */
  predicate Carries(l: PatchLine, oldLine: nat, newLine: nat) {
    && l.oldLine == (if l.kind.Add? then None else Some(oldLine))
    && l.newLine == (if l.kind.Delete? then None else Some(newLine))
  }

  /** The numbers of a line are counted from the starts of its hunk over the lines before it. */
  predicate NumberedAt(h: Hunk, i: nat)
    requires i < |h.lines|
  {
    Carries(h.lines[i], h.oldStart + Olds(h.lines[..i]), h.newStart + News(h.lines[..i]))
  }

  /** A line of content that the parser can have kept. */
  predicate GoodContent(l: PatchLine) {
    '\n' !in l.content && !(l.kind.Add? && HasPrefix(l.content, "++ "))
  }

  ghost predicate GoodHunk(h: Hunk) {
    && OneLine(h.heading)
    && forall i :: 0 <= i < |h.lines| ==> NumberedAt(h, i) && GoodContent(h.lines[i])
  }

  predicate GoodPath(path: string) {
    '\n' !in path && (path != "" ==> !JsSpace(path[|path| - 1]))
  }

  ghost predicate GoodFile(f: FilePatch) {
    GoodPath(f.path) && forall i :: 0 <= i < |f.hunks| ==> GoodHunk(f.hunks[i])
  }

  ghost predicate GoodFiles(files: seq<FilePatch>) {
    forall i :: 0 <= i < |files| ==> GoodFile(files[i])
  }

  /** The files that a parse can produce. */
  ghost predicate WellFormed(files: seq<FilePatch>) {
    GoodFiles(files) && forall i :: 0 <= i < |files| ==> Kept(files[i])
  }

  ghost predicate Inv(s: State) {
    && GoodFiles(s.done)
    && (s.file.Some? ==> GoodFile(s.file.value))
    && (s.hunk.Some? ==>
          && GoodHunk(s.hunk.value)
          && s.oldLine == s.hunk.value.oldStart + Olds(s.hunk.value.lines)
          && s.newLine == s.hunk.value.newStart + News(s.hunk.value.lines))
  }

  lemma CountSnoc(lines: seq<PatchLine>, l: PatchLine)
    ensures Olds(lines + [l]) == Olds(lines) + if l.kind.Add? then 0 else 1
    ensures News(lines + [l]) == News(lines) + if l.kind.Delete? then 0 else 1
  {
  }

  lemma HunkSnoc(h: Hunk, l: PatchLine)
    requires GoodHunk(h) && GoodContent(l) && Carries(l, h.oldStart + Olds(h.lines), h.newStart + News(h.lines))
    ensures GoodHunk(h.(lines := h.lines + [l]))
  {
    hide Olds, News, OneLine, GoodContent, Carries;
    var more := h.(lines := h.lines + [l]);
    var n := |h.lines|;
    forall i | 0 <= i < |more.lines| ensures NumberedAt(more, i) && GoodContent(more.lines[i]) {
      if i < n {
        assert NumberedAt(h, i) && GoodContent(h.lines[i]);
        assert more.lines[..i] == h.lines[..i] && more.lines[i] == h.lines[i];
      } else {
        assert more.lines[..n] == h.lines && more.lines[n] == l;
      }
    }
  }

  lemma HeadingGood(h: Hunk, heading: string)
    requires GoodHunk(h) && OneLine(heading)
    ensures GoodHunk(h.(heading := heading))
  {
  }

  lemma HunkStepGood(h: Hunk, line: string)
    requires GoodHunk(h) && line != "" && '\n' !in line && !HasPrefix(line, "+++ ")
    ensures var o, n := h.oldStart + Olds(h.lines), h.newStart + News(h.lines);
            var t := HunkStep(h, line, o, n);
            && GoodHunk(t)
            && o + (if InOld(line[0]) then 1 else 0) == t.oldStart + Olds(t.lines)
            && n + (if InNew(line[0]) then 1 else 0) == t.newStart + News(t.lines)
  {
    hide HeadingTitle, Olds, News, OneLine, AllContext;
    var o, n := h.oldStart + Olds(h.lines), h.newStart + News(h.lines);
    var content := line[1..];
    assert '\n' !in content && OneLine(h.heading);
    assert line == [line[0]] + content;
    assert line[0] == '+' ==> !HasPrefix(content, "++ ");
    var g := h.(heading := HunkStep(h, line, o, n).heading);
    HeadingGood(h, g.heading);
    hide GoodHunk, HasPrefix;
    var add, del := PatchLine(Add, content, None, Some(n)), PatchLine(Delete, content, Some(o), None);
    var con := PatchLine(Context, content, Some(o), Some(n));
    if line[0] == '+' { CountSnoc(h.lines, add); HunkSnoc(g, add); }
    else if line[0] == '-' { CountSnoc(h.lines, del); HunkSnoc(g, del); }
    else if line[0] == ' ' { CountSnoc(h.lines, con); HunkSnoc(g, con); }
  }

  lemma WellFormedSnoc(files: seq<FilePatch>, f: FilePatch)
    requires WellFormed(files) && GoodFile(f)
    ensures WellFormed(files + if Kept(f) then [f] else [])
  {
  }

  lemma {:induction false} FilteredGood(files: seq<FilePatch>)
    requires GoodFiles(files)
    ensures WellFormed(Filtered(files))
  {
    if files != [] {
      hide GoodFile, Kept;
      var n := |files| - 1;
      assert forall i :: 0 <= i < n ==> files[..n][i] == files[i];
      FilteredGood(files[..n]);
      WellFormedSnoc(Filtered(files[..n]), files[n]);
    }
  }

  lemma {:induction false} NothingFiltered(files: seq<FilePatch>)
    requires forall i :: 0 <= i < |files| ==> Kept(files[i])
    ensures Filtered(files) == files
  {
    if files != [] {
      hide Kept;
      var n := |files| - 1;
      NothingFiltered(files[..n]);
      assert files == files[..n] + [files[n]];
    }
  }

  lemma SideGood(line: string, prefix: string, path: string)
    requires |line| >= 4 && '\n' !in line && GoodPath(path)
    ensures GoodPath(SidePath(line, prefix, path))
  {
    hide TrimLeft, TrimRight, JsSpace;
    var named := line[4..];
    assert '\n' !in named;
    TrimKeepsChars(JsSpace, named);
    TrimFixes(JsSpace, named);
    hide Trim;
    var side := JsTrim(named);
    assert '\n' !in side;
  }

  lemma AllFilesGood(s: State)
    requires Inv(s)
    ensures GoodFiles(AllFiles(s))
    ensures s.file.Some? ==> GoodFile(FilePatch(s.file.value.path, Hunks(s.file.value, s.hunk)))
  {
  }

  lemma FileStepInv(s: State, file: FilePatch, line: string)
    requires Inv(s) && s.file == Some(file) && '\n' !in line
    ensures Inv(FileStep(s, file, line))
  {
    hide GoodHunk, GoodPath, ParseHeader, SidePath, HunkStep, GoodFiles, Olds, News;
    if HasPrefix(line, "+++ ") {
      SideGood(line, "b/", file.path);
    } else if file.path == "" && HasPrefix(line, "--- ") {
      SideGood(line, "a/", file.path);
    } else {
      match ParseHeader(line) {
        case Some(h) =>
          HeaderFacts(line);
          AllFilesGood(s);
          EmptyHunkGood(Hunk(h.oldStart, h.newStart, h.heading, []));
        case None =>
          if !Ignored(s, line) { HunkStepGood(s.hunk.value, line); }
      }
    }
  }

  lemma EmptyHunkGood(h: Hunk)
    requires OneLine(h.heading) && h.lines == []
    ensures GoodHunk(h) && Olds(h.lines) == 0 && News(h.lines) == 0
  {
  }

  lemma {:induction false} StepsKeepInv(lines: seq<string>)
    requires forall i :: 0 <= i < |lines| ==> '\n' !in lines[i]
    ensures Inv(Steps(START, lines))
  {
    if lines != [] {
      var n := |lines| - 1;
      StepsKeepInv(lines[..n]);
      var s := Steps(START, lines[..n]);
      hide GoodHunk, FileStep, Steps;
      AllFilesGood(s);
      if s.file.Some? { FileStepInv(s, s.file.value, lines[n]); }
      assert GoodFile(FilePatch("", []));
    }
  }

  /** Whatever the text, every line of the result carries the numbers its hunk's starts give it,
      every file has a path and a hunk, and no content spans lines. */
  lemma ParsedIsWellFormed(patch: string)
    ensures WellFormed(Parse(patch))
  {
    hide Steps, Filtered, WellFormed;
    StepsKeepInv(Split(patch, '\n'));
    AllFilesGood(Steps(START, Split(patch, '\n')));
    FilteredGood(AllFiles(Steps(START, Split(patch, '\n'))));
  }
}
