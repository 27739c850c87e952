/** Printing parsed patches, and what parsing a printed patch gives back. */
module PatchPrinting {
  import opened Common
  import opened PatchText
  import opened PatchParser

  function PrintLine(l: PatchLine): string {
    [match l.kind case Add => '+' case Delete => '-' case Context => ' '] + l.content
  }

  function PrintLines(lines: seq<PatchLine>): seq<string> {
    if lines == [] then [] else PrintLines(lines[..|lines| - 1]) + [PrintLine(lines[|lines| - 1])]
  }

  function PrintHunk(h: Hunk): seq<string> {
    [PrintHeader(Header(h.oldStart, h.newStart, h.heading), Olds(h.lines), News(h.lines))] + PrintLines(h.lines)
  }

  function PrintHunks(hunks: seq<Hunk>): seq<string> {
    if hunks == [] then [] else PrintHunks(hunks[..|hunks| - 1]) + PrintHunk(hunks[|hunks| - 1])
  }

  function TopLines(path: string): seq<string> {
    ["diff --git a/" + path + " b/" + path, "--- a/" + path, "+++ b/" + path]
  }

  function PrintFile(f: FilePatch): seq<string> {
    TopLines(f.path) + PrintHunks(f.hunks)
  }

  function PrintFiles(files: seq<FilePatch>): seq<string> {
    if files == [] then [] else PrintFiles(files[..|files| - 1]) + PrintFile(files[|files| - 1])
  }

  /** A patch in the unified format, with a newline after its last line. */
  function Print(files: seq<FilePatch>): string {
    Join(PrintFiles(files) + [""], '\n')
  }

  // ---------------------------------------------------------- headings after a round trip

  /** The heading of a hunk whose header says `heading`: the last markdown heading on a line that
      is not deleted and has only context before it, or else the header's. */
  function HeadingAfter(heading: string, lines: seq<PatchLine>): string {
    if lines == [] then heading
    else
      var init, l := lines[..|lines| - 1], lines[|lines| - 1];
      var title := HeadingTitle(l.content);
      if title.Some? && !l.kind.Delete? && AllContext(init) then title.value else HeadingAfter(heading, init)
  }

  function Settled(h: Hunk): Hunk {
    h.(heading := HeadingAfter(JsTrim(h.heading), h.lines))
  }

  function SettledHunks(hunks: seq<Hunk>): seq<Hunk> {
    seq(|hunks|, i requires 0 <= i < |hunks| => Settled(hunks[i]))
  }

  function SettledFile(f: FilePatch): FilePatch {
    f.(hunks := SettledHunks(f.hunks))
  }

  function SettledFiles(files: seq<FilePatch>): seq<FilePatch> {
    seq(|files|, i requires 0 <= i < |files| => SettledFile(files[i]))
  }

  // -------------------------------------------------------------------- reading back

  lemma {:induction false} StepsAppend(s: State, xs: seq<string>, ys: seq<string>)
    ensures Steps(s, xs + ys) == Steps(Steps(s, xs), ys)
    decreases |ys|
  {
    hide Step, Steps;
    if ys == [] {
      NoSteps(s, xs);
    } else {
      var n := |ys| - 1;
      StepsAppend(s, xs, ys[..n]);
      StepsSnoc(s, xs + ys[..n], ys[n]);
      StepsSnoc(Steps(s, xs), ys[..n], ys[n]);
      assert xs + ys == (xs + ys[..n]) + [ys[n]] && ys == ys[..n] + [ys[n]];
    }
  }

  lemma NoSteps(s: State, xs: seq<string>)
    ensures Steps(s, xs + []) == Steps(Steps(s, xs), [])
  {
    hide Step;
    assert xs + [] == xs;
  }

  /** The parser inside a hunk that has been read so far. */
  function Within(done: seq<FilePatch>, file: FilePatch, h: Hunk): State {
    State(done, Some(file), Some(h), h.oldStart + Olds(h.lines), h.newStart + News(h.lines))
  }

  lemma LineRead(done: seq<FilePatch>, file: FilePatch, h: Hunk, l: PatchLine)
    requires file.path != "" && GoodContent(l) && Carries(l, h.oldStart + Olds(h.lines), h.newStart + News(h.lines))
    ensures var title := HeadingTitle(l.content);
            var heading := if title.Some? && !l.kind.Delete? && AllContext(h.lines) then title.value else h.heading;
            Step(Within(done, file, h), PrintLine(l))
            == Within(done, file, h.(lines := h.lines + [l], heading := heading))
  {
    hide HeadingTitle, AllContext, Olds, News;
    var s, line := Within(done, file, h), PrintLine(l);
    assert line[1..] == l.content;
    MarkedLine(l);
    assert ParseHeader(line) == None;
    CountSnoc(h.lines, l);
  }

  lemma MarkedLine(l: PatchLine)
    requires GoodContent(l)
    ensures var line := PrintLine(l);
            && !HasPrefix(line, "diff --git ") && !HasPrefix(line, "+++ ") && !HasPrefix(line, "@@ -")
            && !HasPrefix(line, "\\ No newline") && '\n' !in line
  {
    var line := PrintLine(l);
    assert line == [line[0]] + l.content;
    assert "diff --git "[0] == 'd' && "@@ -"[0] == '@' && "\\ No newline"[0] == '\\';
    assert "+++ "[0] == '+';
    PlusPlus(l.content);
  }

  lemma PlusPlus(content: string)
    ensures "+++ " <= "+" + content ==> "++ " <= content
  {
    var line := "+" + content;
    if "+++ " <= line {
      assert line[..4] == "+++ " && line[1..] == content;
      assert forall i :: 0 <= i < 3 ==> content[i] == line[i + 1] == "++ "[i];
    }
  }

  /** The hunk `h` with its lines and the heading they give it. */
  function Grown(h: Hunk, lines: seq<PatchLine>): Hunk {
    h.(lines := lines, heading := HeadingAfter(h.heading, lines))
  }

  lemma LineGrows(done: seq<FilePatch>, file: FilePatch, h: Hunk, init: seq<PatchLine>, l: PatchLine)
    requires file.path != "" && GoodContent(l) && Carries(l, h.oldStart + Olds(init), h.newStart + News(init))
    ensures Step(Within(done, file, Grown(h, init)), PrintLine(l)) == Within(done, file, Grown(h, init + [l]))
  {
    hide HeadingTitle, AllContext, Step, Within, PrintLine, Olds, News, Carries, GoodContent;
    LineRead(done, file, Grown(h, init), l);
    assert (init + [l])[..|init|] == init;
  }

  lemma {:induction false} LinesRead(done: seq<FilePatch>, file: FilePatch, h: Hunk, lines: seq<PatchLine>)
    requires file.path != "" && h.lines == [] && GoodHunk(h.(lines := lines))
    ensures Steps(Within(done, file, h), PrintLines(lines)) == Within(done, file, Grown(h, lines))
    decreases |lines|
  {
    hide HeadingAfter, Step, Within, GoodHunk, Steps, Carries, GoodContent, Olds, News, Grown, PrintLine, PrintLines;
    if lines == [] {
      NoLinesRead(Within(done, file, h), h);
    } else {
      var n := |lines| - 1;
      var init, l := lines[..n], lines[n];
      GoodInit(h.(lines := lines));
      Snoc(lines);
      LinesRead(done, file, h, init);
      LineGrows(done, file, h, init, l);
      StepsSnoc(Within(done, file, h), PrintLines(init), PrintLine(l));
      PrintLinesSnoc(init, l);
    }
  }

  lemma NoLinesRead(s: State, h: Hunk)
    requires h.lines == []
    ensures Steps(s, PrintLines([])) == s && Grown(h, []) == h
  {
  }

  lemma Snoc<T>(xs: seq<T>)
    requires xs != []
    ensures xs == xs[..|xs| - 1] + [xs[|xs| - 1]]
  {
  }

  lemma PrintLinesSnoc(lines: seq<PatchLine>, l: PatchLine)
    ensures PrintLines(lines + [l]) == PrintLines(lines) + [PrintLine(l)]
  {
    assert (lines + [l])[..|lines|] == lines;
  }

  lemma GoodInit(h: Hunk)
    requires GoodHunk(h) && h.lines != []
    ensures var n := |h.lines| - 1;
            && GoodHunk(h.(lines := h.lines[..n])) && GoodContent(h.lines[n])
            && Carries(h.lines[n], h.oldStart + Olds(h.lines[..n]), h.newStart + News(h.lines[..n]))
  {
    hide Olds, News, OneLine, GoodContent, Carries;
    var n := |h.lines| - 1;
    var g := h.(lines := h.lines[..n]);
    assert NumberedAt(h, n);
    forall i | 0 <= i < n ensures NumberedAt(g, i) && GoodContent(g.lines[i]) {
      assert NumberedAt(h, i) && GoodContent(h.lines[i]);
      assert g.lines[..i] == h.lines[..i] && g.lines[i] == h.lines[i];
    }
  }

  lemma HeaderRead(s: State, file: FilePatch, h: Hunk)
    requires s.file == Some(file) && file.path != "" && OneLine(h.heading)
    ensures Step(s, PrintHeader(Header(h.oldStart, h.newStart, h.heading), Olds(h.lines), News(h.lines)))
            == Within(s.done, file.(hunks := Hunks(file, s.hunk)), Hunk(h.oldStart, h.newStart, JsTrim(h.heading), []))
  {
    hide PrintHeader, ParseHeader, JsTrim, HasPrefix, Olds, News, Decimal, OneLine, BodyStep, SidePath, AllFiles;
    var header := Header(h.oldStart, h.newStart, h.heading);
    HeaderMarked(header, Olds(h.lines), News(h.lines));
    HeaderPrinted(header, Olds(h.lines), News(h.lines));
    NothingCounted();
  }

  lemma NothingCounted()
    ensures Olds([]) == 0 && News([]) == 0
  {
  }

  lemma HeaderMarked(h: Header, oldCount: nat, newCount: nat)
    ensures var line := PrintHeader(h, oldCount, newCount);
            !HasPrefix(line, "diff --git ") && !HasPrefix(line, "+++ ") && !HasPrefix(line, "--- ")
  {
    hide PrintRange;
    assert PrintHeader(h, oldCount, newCount)[0] == '@';
    assert "diff --git "[0] == 'd' && "+++ "[0] == '+' && "--- "[0] == '-';
  }

  lemma HunkRead(s: State, file: FilePatch, h: Hunk)
    requires s.file == Some(file) && file.path != "" && GoodHunk(h)
    ensures Steps(s, PrintHunk(h)) == Within(s.done, file.(hunks := Hunks(file, s.hunk)), Settled(h))
  {
    var g := Hunk(h.oldStart, h.newStart, JsTrim(h.heading), []);
    HeadingGood(h, g.heading) by { OneLineTrim(h.heading); }
    var head := [PrintHeader(Header(h.oldStart, h.newStart, h.heading), Olds(h.lines), News(h.lines))];
    OneStep(s, head[0]);
    HeaderRead(s, file, h);
    hide Step, Steps, Within, GoodHunk, HeadingAfter;
    StepsAppend(s, head, PrintLines(h.lines));
    LinesRead(s.done, file.(hunks := Hunks(file, s.hunk)), g, h.lines);
  }

  lemma OneStep(s: State, line: string)
    ensures Steps(s, [line]) == Step(s, line)
  {
    hide Step;
    assert [line][..0] == [];
  }

  lemma OneLineTrim(s: string)
    requires OneLine(s)
    ensures OneLine(JsTrim(s))
  {
    TrimKeepsChars(JsSpace, s);
  }

  lemma {:induction false} HunksRead(s: State, file: FilePatch, hunks: seq<Hunk>)
    requires s.file == Some(file) && file.path != "" && file.hunks == [] && s.hunk == None
    requires forall i :: 0 <= i < |hunks| ==> GoodHunk(hunks[i])
    ensures var t := Steps(s, PrintHunks(hunks));
            t.file.Some? && t.file.value.path == file.path && t.done == s.done
            && Hunks(t.file.value, t.hunk) == SettledHunks(hunks)
    decreases |hunks|
  {
    hide Step, Steps, GoodHunk, Settled, SettledHunks, PrintHunk, PrintHunks;
    if hunks == [] {
      NoHunksRead(s);
    } else {
      var n := |hunks| - 1;
      var init, h := hunks[..n], hunks[n];
      HunksRead(s, file, init);
      var mid := Steps(s, PrintHunks(init));
      HunkRead(mid, mid.file.value, h);
      StepsAppend(s, PrintHunks(init), PrintHunk(h));
      Snoc(hunks);
      HunksSnoc(init, h);
    }
  }

  lemma NoHunksRead(s: State)
    ensures Steps(s, PrintHunks([])) == s && SettledHunks([]) == []
  {
  }

  lemma HunksSnoc(hunks: seq<Hunk>, h: Hunk)
    ensures PrintHunks(hunks + [h]) == PrintHunks(hunks) + PrintHunk(h)
    ensures SettledHunks(hunks + [h]) == SettledHunks(hunks) + [Settled(h)]
  {
    hide PrintHunk, Settled;
    assert (hunks + [h])[..|hunks|] == hunks;
  }

  lemma SideRead(prefix: string, sigil: string, path: string)
    requires path != "" && GoodPath(path)
    requires (prefix == "a/" && sigil == "--- ") || (prefix == "b/" && sigil == "+++ ")
    ensures SidePath(sigil + prefix + path, prefix, "") == path && SidePath(sigil + prefix + path, prefix, path) == path
  {
    hide TrimLeft, TrimRight, Trim, JsSpace;
    var side := prefix + path;
    assert (sigil + prefix + path)[4..] == side;
    assert side[|side| - 1] == path[|path| - 1] && side[0] == prefix[0];
    LettersAreNoSpace();
    TrimFixes(JsSpace, side);
    assert side[|prefix|..] == path;
  }

  lemma LettersAreNoSpace()
    ensures !JsSpace('a') && !JsSpace('b')
  {
  }

  lemma FileRead(s: State, f: FilePatch)
    requires GoodFile(f) && f.path != ""
    ensures AllFiles(Steps(s, PrintFile(f))) == AllFiles(s) + [SettledFile(f)]
  {
    hide Steps, Step, GoodHunk, GoodPath, PrintHunks, SettledHunks, TopLines;
    StepsAppend(s, TopLines(f.path), PrintHunks(f.hunks));
    TopRead(s, f.path);
    HunksRead(Steps(s, TopLines(f.path)), FilePatch(f.path, []), f.hunks);
  }

  lemma DiffRead(s: State, path: string)
    ensures Step(s, TopLines(path)[0]) == State(AllFiles(s), Some(FilePatch("", [])), None, s.oldLine, s.newLine)
  {
    hide FileStep, AllFiles;
    assert TopLines(path)[0][..11] == "diff --git ";
  }

  lemma OldRead(s: State, path: string)
    requires GoodPath(path) && path != "" && s.file.Some? && s.file.value.path == ""
    ensures Step(s, TopLines(path)[1]) == s.(file := Some(s.file.value.(path := path)))
  {
    hide SidePath, BodyStep, ParseHeader, GoodPath;
    var line := "--- " + "a/" + path;
    assert TopLines(path)[1] == line && line[0] == '-' && line[..4] == "--- ";
    assert "diff --git "[0] == 'd' && "+++ "[0] == '+';
    SideRead("a/", "--- ", path);
  }

  lemma NewRead(s: State, path: string)
    requires GoodPath(path) && path != "" && s.file.Some? && s.file.value.path == path
    ensures Step(s, TopLines(path)[2]) == s
  {
    hide SidePath, BodyStep, ParseHeader, GoodPath;
    var line := "+++ " + "b/" + path;
    assert TopLines(path)[2] == line && line[0] == '+' && line[..4] == "+++ ";
    assert "diff --git "[0] == 'd';
    SideRead("b/", "+++ ", path);
  }

  lemma TopRead(s: State, path: string)
    requires GoodPath(path) && path != ""
    ensures Steps(s, TopLines(path)) == State(AllFiles(s), Some(FilePatch(path, [])), None, s.oldLine, s.newLine)
  {
    hide Step, AllFiles, GoodPath;
    var top := TopLines(path);
    assert top == [top[0]] + [top[1]] + [top[2]];
    StepsSnoc(s, [top[0]] + [top[1]], top[2]);
    StepsSnoc(s, [top[0]], top[1]);
    OneStep(s, top[0]);
    DiffRead(s, path);
    OldRead(Step(s, top[0]), path);
    NewRead(Step(Step(s, top[0]), top[1]), path);
  }

  lemma {:induction false} FilesRead(files: seq<FilePatch>)
    requires WellFormed(files)
    ensures AllFiles(Steps(START, PrintFiles(files))) == SettledFiles(files)
    decreases |files|
  {
    hide Step, Steps, AllFiles, GoodFile, SettledFile, SettledFiles, PrintFile, PrintFiles;
    if files == [] {
      NoFilesRead();
    } else {
      var n := |files| - 1;
      var init, f := files[..n], files[n];
      FilesRead(init);
      FileRead(Steps(START, PrintFiles(init)), f);
      StepsAppend(START, PrintFiles(init), PrintFile(f));
      Snoc(files);
      FilesSnoc(init, f);
    }
  }

  lemma NoFilesRead()
    ensures AllFiles(Steps(START, PrintFiles([]))) == SettledFiles([])
  {
  }

  lemma FilesSnoc(files: seq<FilePatch>, f: FilePatch)
    ensures PrintFiles(files + [f]) == PrintFiles(files) + PrintFile(f)
    ensures SettledFiles(files + [f]) == SettledFiles(files) + [SettledFile(f)]
  {
    hide PrintFile, SettledFile;
    assert (files + [f])[..|files|] == files;
  }

  // ------------------------------------------------------------------- the round trip

  predicate NoBreaks(lines: seq<string>) {
    forall i :: 0 <= i < |lines| ==> '\n' !in lines[i]
  }

  lemma NoBreaksAppend(xs: seq<string>, ys: seq<string>)
    requires NoBreaks(xs) && NoBreaks(ys)
    ensures NoBreaks(xs + ys)
  {
  }

  lemma {:induction false} LinesUnbroken(lines: seq<PatchLine>)
    requires forall i :: 0 <= i < |lines| ==> GoodContent(lines[i])
    ensures NoBreaks(PrintLines(lines))
    decreases |lines|
  {
    if lines != [] {
      LinesUnbroken(lines[..|lines| - 1]);
      MarkedLine(lines[|lines| - 1]);
    }
  }

  lemma RangeUnbroken(start: nat, count: nat)
    ensures '\n' !in PrintRange(start, count)
  {
  }

  lemma HunkUnbroken(h: Hunk)
    requires GoodHunk(h)
    ensures NoBreaks(PrintHunk(h))
  {
    hide PrintRange;
    var o, n := Olds(h.lines), News(h.lines);
    RangeUnbroken(h.oldStart, o);
    RangeUnbroken(h.newStart, n);
    assert '\n' !in h.heading;
    assert '\n' !in PrintHeader(Header(h.oldStart, h.newStart, h.heading), o, n);
    LinesUnbroken(h.lines);
    NoBreaksAppend([PrintHeader(Header(h.oldStart, h.newStart, h.heading), o, n)], PrintLines(h.lines));
  }

  lemma {:induction false} HunksUnbroken(hunks: seq<Hunk>)
    requires forall i :: 0 <= i < |hunks| ==> GoodHunk(hunks[i])
    ensures NoBreaks(PrintHunks(hunks))
    decreases |hunks|
  {
    if hunks != [] {
      hide PrintHunk, GoodHunk;
      var n := |hunks| - 1;
      HunksUnbroken(hunks[..n]);
      HunkUnbroken(hunks[n]);
      NoBreaksAppend(PrintHunks(hunks[..n]), PrintHunk(hunks[n]));
    }
  }

  lemma FileUnbroken(f: FilePatch)
    requires GoodFile(f)
    ensures NoBreaks(PrintFile(f))
  {
    hide GoodHunk, PrintHunks;
    HunksUnbroken(f.hunks);
    assert NoBreaks(TopLines(f.path));
    NoBreaksAppend(TopLines(f.path), PrintHunks(f.hunks));
  }

  lemma {:induction false} FilesUnbroken(files: seq<FilePatch>)
    requires GoodFiles(files)
    ensures NoBreaks(PrintFiles(files))
    decreases |files|
  {
    hide GoodFile, PrintFile;
    if files != [] {
      var n := |files| - 1;
      FilesUnbroken(files[..n]);
      FileUnbroken(files[n]);
      NoBreaksAppend(PrintFiles(files[..n]), PrintFile(files[n]));
    }
  }

  /** Parsing a printed patch gives the patch back with every heading settled. */
  lemma ParsePrint(files: seq<FilePatch>)
    requires WellFormed(files)
    ensures Parse(Print(files)) == SettledFiles(files)
  {
    hide Step, Steps, GoodFile, SettledFile, PrintFiles, Print, Split, Join;
    FilesUnbroken(files);
    NoBreaksAppend(PrintFiles(files), [""]);
    SplitPrinted(files);
    FilesRead(files);
    StepsSnoc(START, PrintFiles(files), "");
    LastLineIdle(Steps(START, PrintFiles(files)));
    SettledKept(files);
    NothingFiltered(SettledFiles(files));
  }

  lemma SplitPrinted(files: seq<FilePatch>)
    requires NoBreaks(PrintFiles(files) + [""])
    ensures Split(Print(files), '\n') == PrintFiles(files) + [""]
  {
    SplitJoin(PrintFiles(files) + [""], '\n');
  }

  lemma LastLineIdle(s: State)
    ensures Step(s, "") == s
  {
  }

  lemma SettledKept(files: seq<FilePatch>)
    requires forall i :: 0 <= i < |files| ==> Kept(files[i])
    ensures forall i :: 0 <= i < |files| ==> Kept(SettledFiles(files)[i])
  {
  }

  /** So it gives the patch itself exactly when every heading is what its header, read back, and
      its own lines make it. */
  lemma RoundTripExactly(files: seq<FilePatch>)
    requires WellFormed(files)
    ensures Parse(Print(files)) == files
            <==> forall i, j :: 0 <= i < |files| && 0 <= j < |files[i].hunks| ==>
                   files[i].hunks[j].heading == HeadingAfter(JsTrim(files[i].hunks[j].heading), files[i].hunks[j].lines)
  {
    hide Parse, Print, WellFormed, HeadingAfter;
    ParsePrint(files);
    if SettledFiles(files) == files {
      forall i, j | 0 <= i < |files| && 0 <= j < |files[i].hunks|
        ensures files[i].hunks[j].heading == HeadingAfter(JsTrim(files[i].hunks[j].heading), files[i].hunks[j].lines)
      {
        assert SettledFiles(files)[i] == files[i];
        assert SettledHunks(files[i].hunks)[j] == files[i].hunks[j];
      }
    }
    if forall i, j :: 0 <= i < |files| && 0 <= j < |files[i].hunks| ==>
         files[i].hunks[j].heading == HeadingAfter(JsTrim(files[i].hunks[j].heading), files[i].hunks[j].lines) {
      forall i | 0 <= i < |files| ensures SettledFile(files[i]) == files[i] {
        assert SettledHunks(files[i].hunks) == files[i].hunks;
      }
      assert SettledFiles(files) == files;
    }
  }
}
