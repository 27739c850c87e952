/** Patches as git writes them, whatever the printer here would write: what path a file section gets
    from any lines that name its sides, and every form of a hunk header. */
module PatchSections {
  import opened Common
  import opened PatchText
  import opened PatchParser
  import opened PatchPrinting

  // ------------------------------------------------------------ the path of a section

  /** The new side of a file as the line names it: what follows the plus signs, trimmed and without a
      leading "b/", unless it is /dev/null. */
  ghost function NewName(line: string): Option<string> {
    if !("+++ " <= line) then None
    else
      var side := JsTrim(line[4..]);
      if side == "/dev/null" then None else Some(if "b/" <= side then side[2..] else side)
  }

  /** The old side likewise, which git marks with "a/". */
  ghost function OldName(line: string): Option<string> {
    if !("--- " <= line) then None
    else
      var side := JsTrim(line[4..]);
      if side == "/dev/null" then None else Some(if "a/" <= side then side[2..] else side)
  }

  /** Line `k` is the last that names the new side, or `k` is -1 and none does. */
  ghost predicate LastNew(lines: seq<string>, k: int) {
    && -1 <= k < |lines| && (k >= 0 ==> NewName(lines[k]).Some?)
    && forall j :: k < j < |lines| ==> NewName(lines[j]).None?
  }

  ghost predicate Nameless(name: Option<string>) {
    name.None? || name.value == ""
  }

  /** Line `j` is the first after `k` that gives the old side a name, or `j` is past the end and none does. */
  ghost predicate FirstOld(lines: seq<string>, k: int, j: int) {
    && -1 <= k < j <= |lines| && (j < |lines| ==> !Nameless(OldName(lines[j])))
    && forall i :: k < i < j ==> Nameless(OldName(lines[i]))
  }

  /** The path of a section: the name on its last line for the new side; failing that, the name on its
      first line for the old side; failing both, empty. A name can be empty, and then it counts as none. */
  ghost predicate PathIs(path: string, lines: seq<string>) {
    exists k, j ::
      && LastNew(lines, k) && FirstOld(lines, k, j)
      && path == if k >= 0 && NewName(lines[k]).value != "" then NewName(lines[k]).value
                 else if j < |lines| then OldName(lines[j]).value else ""
  }

  ghost predicate NoDiff(lines: seq<string>) {
    forall i :: 0 <= i < |lines| ==> !("diff --git " <= lines[i])
  }

  /** What one line of a section does to the path. */
  ghost function PathAfter(path: string, line: string): string {
    if NewName(line).Some? then NewName(line).value
    else if path == "" && OldName(line).Some? then OldName(line).value
    else path
  }

  lemma StepPath(s: State, line: string)
    requires s.file.Some? && !("diff --git " <= line)
    ensures var t := Step(s, line);
            t.file.Some? && t.done == s.done && t.file.value.path == PathAfter(s.file.value.path, line)
  {
    hide JsTrim, ParseHeader, HunkStep, Ignored;
    assert "+++ "[0] == '+' && "--- "[0] == '-';
  }

  lemma PathSnoc(path: string, lines: seq<string>, line: string)
    requires PathIs(path, lines)
    ensures PathIs(PathAfter(path, line), lines + [line])
  {
    hide NewName, OldName;
    var n, more := |lines|, lines + [line];
    var k, j :|
      && LastNew(lines, k) && FirstOld(lines, k, j)
      && path == if k >= 0 && NewName(lines[k]).value != "" then NewName(lines[k]).value
                 else if j < |lines| then OldName(lines[j]).value else "";
    assert forall i :: 0 <= i < n ==> more[i] == lines[i];
    if NewName(line).Some? {
      assert LastNew(more, n) && FirstOld(more, n, n + 1);
    } else {
      assert LastNew(more, k);
      if j == n && Nameless(OldName(line)) {
        assert FirstOld(more, k, n + 1);
      } else {
        assert FirstOld(more, k, j);
      }
    }
  }

  lemma {:induction false} SectionPath(s: State, lines: seq<string>)
    requires s.file.Some? && s.file.value.path == "" && NoDiff(lines)
    ensures var t := Steps(s, lines);
            t.file.Some? && t.done == s.done && PathIs(t.file.value.path, lines)
    decreases |lines|
  {
    hide Step, PathIs, PathAfter;
    if lines == [] {
      NoPath();
    } else {
      var n := |lines| - 1;
      SectionPath(s, lines[..n]);
      StepPath(Steps(s, lines[..n]), lines[n]);
      PathSnoc(Steps(s, lines[..n]).file.value.path, lines[..n], lines[n]);
      assert lines == lines[..n] + [lines[n]];
    }
  }

  lemma NoPath()
    ensures PathIs("", [])
  {
    assert LastNew([], -1) && FirstOld([], -1, 0);
  }

  // -------------------------------------------------------------------- hunk headers

  /** A line number with or without a count behind it. */
  ghost predicate RangeText(r: string, n: nat) {
    exists d: string, c: string ::
      && All(Digit, d) && All(Digit, c) && d != "" && Value(d) == n
      && ((c == "" && r == d) || (c != "" && r == d + "," + c))
  }

  /** A hunk header in any of its forms, and what it says. */
  ghost predicate HeaderIs(line: string, h: Header) {
    exists a, b, tail: string ::
      && RangeText(a, h.oldStart) && RangeText(b, h.newStart)
      && OneLine(TrimLeft(JsSpace, tail)) && h.heading == JsTrim(tail)
      && line == "@@ -" + a + " +" + b + " @@" + tail
  }

  lemma RangeWritten(r: string, n: nat, rest: string)
    requires RangeText(r, n) && rest != "" && !Digit(rest[0]) && rest[0] != ','
    ensures ParseRange(r + rest) == Some(Range(n, rest))
  {
    hide TrimLeft, Run, Value;
    var d, c: string :|
      && All(Digit, d) && All(Digit, c) && d != "" && Value(d) == n
      && ((c == "" && r == d) || (c != "" && r == d + "," + c));
    if c == "" {
      RunAppend(Digit, d, rest);
    } else {
      var tail := "," + (c + rest);
      assert r + rest == d + tail && tail[1..] == c + rest;
      RunAppend(Digit, d, tail);
      RunAppend(Digit, c, rest);
    }
  }

  lemma RangeFound(s: string) returns (r: string)
    requires ParseRange(s).Some?
    ensures RangeText(r, ParseRange(s).value.start) && s == r + ParseRange(s).value.rest
  {
    hide TrimLeft, Run, Value;
    var d, rest := Run(Digit, s), TrimLeft(Digit, s);
    RunIsAll(Digit, s);
    RunSplits(Digit, s);
    if rest != "" && rest[0] == ',' && Run(Digit, rest[1..]) != "" {
      var c := Run(Digit, rest[1..]);
      RunIsAll(Digit, rest[1..]);
      RunSplits(Digit, rest[1..]);
      r := d + "," + c;
      assert rest == "," + rest[1..];
      assert All(Digit, d) && All(Digit, c) && d != "" && c != "";
      assert s == r + TrimLeft(Digit, rest[1..]);
    } else {
      r := d;
      assert All(Digit, d) && All(Digit, "") && r == d;
    }
  }

  lemma TrimTwice(s: string)
    ensures JsTrim(TrimLeft(JsSpace, s)) == JsTrim(s)
  {
  }

  lemma HeaderWritten(line: string, h: Header)
    requires HeaderIs(line, h)
    ensures ParseHeader(line) == Some(h)
  {
    hide ParseRange, RangeText, TrimLeft, JsTrim, OneLine, ParseHeader;
    var a, b, tail: string :|
      && RangeText(a, h.oldStart) && RangeText(b, h.newStart)
      && OneLine(TrimLeft(JsSpace, tail)) && h.heading == JsTrim(tail)
      && line == "@@ -" + a + " +" + b + " @@" + tail;
    RangeWritten(b, h.newStart, " @@" + tail);
    RangeWritten(a, h.oldStart, " +" + (b + (" @@" + tail)));
    HeaderJoins(a, b, tail);
    HeaderFound(line, a + (" +" + (b + (" @@" + tail))), b + (" @@" + tail), tail, h.oldStart, h.newStart);
    TrimTwice(tail);
  }

  lemma FrontOff(s: string, front: string)
    requires HasPrefix(s, front)
    ensures s == front + s[|front|..]
  {
  }

  lemma HeaderShape(line: string)
    requires ParseHeader(line).Some?
    ensures HeaderIs(line, ParseHeader(line).value)
  {
    hide ParseRange, RangeText, TrimLeft, JsTrim, OneLine;
    var before := ParseRange(line[4..]).value;
    var after := ParseRange(before.rest[2..]).value;
    var tail := after.rest[3..];
    var a := RangeFound(line[4..]);
    var b := RangeFound(before.rest[2..]);
    FrontOff(line, "@@ -");
    FrontOff(before.rest, " +");
    FrontOff(after.rest, " @@");
    HeaderJoins(a, b, tail);
    TrimTwice(tail);
    assert line == "@@ -" + a + " +" + b + " @@" + tail;
  }

  /** Which lines are hunk headers, and what the parser reads from them: either range may lack its count. */
  lemma HeaderExactly(line: string, h: Header)
    ensures ParseHeader(line) == Some(h) <==> HeaderIs(line, h)
  {
    hide ParseHeader, HeaderIs;
    if ParseHeader(line) == Some(h) { HeaderShape(line); }
    if HeaderIs(line, h) { HeaderWritten(line, h); }
  }

  // -------------------------------------------------------------------- whole texts

  /** The hunk headers among the lines. */
  function Headers(lines: seq<string>): seq<Header> {
    if lines == [] then []
    else
      var n := |lines| - 1;
      Headers(lines[..n]) + match ParseHeader(lines[n]) case Some(h) => [h] case None => []
  }

  /** One hunk for each header, with the line numbers it gives. */
  ghost predicate StartsAre(hunks: seq<Hunk>, headers: seq<Header>) {
    && |hunks| == |headers|
    && forall i :: 0 <= i < |hunks| ==>
                     hunks[i].oldStart == headers[i].oldStart && hunks[i].newStart == headers[i].newStart
  }

  ghost predicate Begun(s: State, headers: seq<Header>) {
    s.file.Some? && StartsAre(Hunks(s.file.value, s.hunk), headers)
  }

  lemma StepHunks(s: State, line: string, headers: seq<Header>)
    requires !("diff --git " <= line) && Begun(s, headers)
    ensures Begun(Step(s, line), headers + match ParseHeader(line) case Some(h) => [h] case None => [])
  {
    hide ParseRange, OneLine, JsTrim, HeadingTitle, AllContext;
    assert "+++ "[0] == '+' && "--- "[0] == '-' && "@@ -"[0] == '@';
  }

  lemma {:induction false} SectionHunks(s: State, lines: seq<string>)
    requires s.file.Some? && s.file.value.hunks == [] && s.hunk == None && NoDiff(lines)
    ensures Begun(Steps(s, lines), Headers(lines))
    decreases |lines|
  {
    hide Step, ParseHeader;
    if lines != [] {
      var n := |lines| - 1;
      SectionHunks(s, lines[..n]);
      StepHunks(Steps(s, lines[..n]), lines[n], Headers(lines[..n]));
    }
  }

  /** What one section of a patch becomes: a file with the path its lines give and a hunk for each header. */
  ghost predicate FileOf(f: FilePatch, section: seq<string>) {
    section != [] && PathIs(f.path, section[1..]) && StartsAre(f.hunks, Headers(section[1..]))
  }

  ghost predicate IsSection(section: seq<string>) {
    section != [] && "diff --git " <= section[0] && NoDiff(section[1..])
  }

  /** Reading one more section adds one file and leaves those before it. */
  lemma SectionRead(s: State, section: seq<string>)
    requires IsSection(section)
    ensures var files := AllFiles(Steps(s, section));
            |files| == |AllFiles(s)| + 1 && AllFiles(s) <= files && FileOf(files[|files| - 1], section)
  {
    hide Steps, Step, PathIs, StartsAre, NoDiff, Headers;
    var top, rest := section[0], section[1..];
    assert section == [top] + rest;
    StepsAppend(s, [top], rest);
    OneStep(s, top);
    TopStep(s, top);
    SectionPath(Step(s, top), rest);
    SectionHunks(Step(s, top), rest);
  }

  lemma TopStep(s: State, top: string)
    requires "diff --git " <= top
    ensures Step(s, top) == State(AllFiles(s), Some(FilePatch("", [])), None, s.oldLine, s.newLine)
  {
    hide FileStep, AllFiles;
  }

  function Flat(sections: seq<seq<string>>): seq<string> {
    if sections == [] then [] else Flat(sections[..|sections| - 1]) + sections[|sections| - 1]
  }

  ghost predicate AreSections(sections: seq<seq<string>>) {
    forall i :: 0 <= i < |sections| ==> IsSection(sections[i])
  }

  ghost predicate FilesOf(files: seq<FilePatch>, sections: seq<seq<string>>) {
    |files| == |sections| && forall i :: 0 <= i < |files| ==> FileOf(files[i], sections[i])
  }

  lemma {:induction false} PreambleIdle(lines: seq<string>)
    requires NoDiff(lines)
    ensures Steps(START, lines) == START
  {
    hide FileStep;
    if lines != [] { PreambleIdle(lines[..|lines| - 1]); }
  }

  lemma {:induction false} SectionsRead(pre: seq<string>, sections: seq<seq<string>>)
    requires NoDiff(pre) && AreSections(sections)
    ensures FilesOf(AllFiles(Steps(START, pre + Flat(sections))), sections)
    decreases |sections|
  {
    hide Steps, AllFiles, FileOf, IsSection, NoDiff;
    if sections == [] {
      PreambleIdle(pre);
      NoSections(pre);
    } else {
      var n := |sections| - 1;
      SectionsRead(pre, sections[..n]);
      var s := Steps(START, pre + Flat(sections[..n]));
      SectionRead(s, sections[n]);
      StepsAppend(START, pre + Flat(sections[..n]), sections[n]);
      assert pre + Flat(sections) == pre + Flat(sections[..n]) + sections[n];
    }
  }

  lemma NoSections(pre: seq<string>)
    ensures pre + Flat([]) == pre && AllFiles(START) == []
  {
  }

  /** Any lines are some without a "diff --git" line followed by sections. */
  lemma {:induction false} Sectioned(lines: seq<string>) returns (pre: seq<string>, sections: seq<seq<string>>)
    ensures lines == pre + Flat(sections) && NoDiff(pre) && AreSections(sections)
    decreases |lines|
  {
    if lines == [] {
      pre, sections := [], [];
    } else {
      var n := |lines| - 1;
      pre, sections := Sectioned(lines[..n]);
      var line := lines[n];
      if "diff --git " <= line {
        sections := sections + [[line]];
        FlatSnoc(sections);
      } else if sections == [] {
        pre := pre + [line];
      } else {
        var m := |sections| - 1;
        var longer := sections[m] + [line];
        assert longer[1..] == sections[m][1..] + [line];
        FlatSnoc(sections);
        sections := sections[..m] + [longer];
        FlatSnoc(sections);
      }
    }
  }

  lemma FlatSnoc(sections: seq<seq<string>>)
    requires sections != []
    ensures var m := |sections| - 1; Flat(sections) == Flat(sections[..m]) + sections[m]
  {
  }

  /** Any text is lines before the first section, then sections; and its files are those of its sections
      that have a path and a hunk. */
  lemma TextRead(patch: string) returns (pre: seq<string>, sections: seq<seq<string>>, files: seq<FilePatch>)
    ensures Split(patch, '\n') == pre + Flat(sections) && NoDiff(pre) && AreSections(sections)
    ensures FilesOf(files, sections)
    ensures forall f :: f in Parse(patch) <==> f in files && f.path != "" && f.hunks != []
  {
    hide Steps, AllFiles, FileOf, IsSection, NoDiff, Split, Flat;
    pre, sections := Sectioned(Split(patch, '\n'));
    SectionsRead(pre, sections);
    files := AllFiles(Steps(START, Split(patch, '\n')));
    FilteredHolds(files);
  }

  lemma {:induction false} FilteredHolds(files: seq<FilePatch>)
    ensures forall f :: f in Filtered(files) <==> f in files && f.path != "" && f.hunks != []
  {
    if files != [] {
      var n := |files| - 1;
      FilteredHolds(files[..n]);
      assert files == files[..n] + [files[n]];
    }
  }

  // ------------------------------------------- renamed, added and deleted files in full

  /** The lines that name both sides of a file. */
  lemma SideNames(path: string)
    requires path != "" && GoodPath(path)
    ensures NewName("+++ b/" + path) == Some(path) && OldName("--- a/" + path) == Some(path)
    ensures NewName("+++ /dev/null") == None && OldName("--- /dev/null") == None
    ensures NewName("--- a/" + path) == None && NewName("--- /dev/null") == None
  {
    hide TrimLeft, TrimRight, Trim, JsSpace;
    SideTrims("+++ ", "b/", path);
    SideTrims("--- ", "a/", path);
    NullTrims("+++ ");
    NullTrims("--- ");
    assert "+++ b/" + path == "+++ " + "b/" + path && "--- a/" + path == "--- " + "a/" + path;
    assert "+++ "[0] == '+' && ("--- a/" + path)[0] == '-' && "--- /dev/null"[0] == '-';
  }

  lemma SideTrims(sigil: string, prefix: string, path: string)
    requires path != "" && GoodPath(path) && |sigil| == 4 && (prefix == "a/" || prefix == "b/")
    ensures var line := sigil + prefix + path;
            sigil <= line && JsTrim(line[4..]) == prefix + path && prefix <= prefix + path
            && (prefix + path)[2..] == path && (prefix + path)[0] != '/'
  {
    hide TrimLeft, TrimRight, Trim, JsSpace;
    var side := prefix + path;
    assert (sigil + prefix + path)[4..] == side;
    assert side[|side| - 1] == path[|path| - 1] && side[0] == prefix[0];
    LettersAreNoSpace();
    TrimFixes(JsSpace, side);
  }

  lemma NullTrims(sigil: string)
    requires |sigil| == 4
    ensures sigil <= sigil + "/dev/null" && JsTrim((sigil + "/dev/null")[4..]) == "/dev/null"
  {
    hide TrimLeft, TrimRight, Trim;
    assert (sigil + "/dev/null")[4..] == "/dev/null";
    TrimFixes(JsSpace, "/dev/null");
  }

  /** What a section with these two lines for its sides is named. */
  ghost function Named(oldSide: string, newSide: string): string {
    if NewName(newSide).Some? then NewName(newSide).value
    else if OldName(oldSide).Some? then OldName(oldSide).value else ""
  }

  /** A section of one hunk as git writes it: its sides may differ or be missing, and its header may lack counts. */
  ghost function OneHunk(top: string, oldSide: string, newSide: string, header: string, lines: seq<PatchLine>)
    : seq<string>
  {
    [top] + [oldSide] + [newSide] + [header] + PrintLines(lines)
  }

  lemma SidesRead(s: State, top: string, oldSide: string, newSide: string)
    requires "diff --git " <= top && "--- " <= oldSide && "+++ " <= newSide
    ensures Steps(s, [top] + [oldSide] + [newSide])
            == State(AllFiles(s), Some(FilePatch(Named(oldSide, newSide), [])), None, s.oldLine, s.newLine)
  {
    hide AllFiles, JsTrim, ParseHeader;
    StepsSnoc(s, [top] + [oldSide], newSide);
    StepsSnoc(s, [top], oldSide);
    OneStep(s, top);
    hide Steps;
    assert "+++ "[0] == '+' && "--- "[0] == '-' && "diff --git "[0] == 'd';
  }

  /** Such a section adds one file with its name and its hunk, whatever was read before. */
  lemma OneHunkRead(s: State, top: string, oldSide: string, newSide: string, header: string, h: Header,
      lines: seq<PatchLine>)
    requires "diff --git " <= top && "--- " <= oldSide && "+++ " <= newSide && Named(oldSide, newSide) != ""
    requires HeaderIs(header, h) && GoodHunk(Hunk(h.oldStart, h.newStart, h.heading, lines))
    ensures AllFiles(Steps(s, OneHunk(top, oldSide, newSide, header, lines)))
            == AllFiles(s) + [FilePatch(Named(oldSide, newSide),
                                        [Hunk(h.oldStart, h.newStart, HeadingAfter(h.heading, lines), lines)])]
  {
    hide Step, Steps, GoodHunk, HeadingAfter, Named, ParseHeader, HeaderIs, PrintLines;
    var path := Named(oldSide, newSide);
    var mid := State(AllFiles(s), Some(FilePatch(path, [])), None, s.oldLine, s.newLine);
    SidesRead(s, top, oldSide, newSide);
    HeaderWritten(header, h);
    HeaderStep(mid, header, h);
    StepsSnoc(s, [top] + [oldSide] + [newSide], header);
    StepsAppend(s, [top] + [oldSide] + [newSide] + [header], PrintLines(lines));
    LinesRead(mid.done, FilePatch(path, []), Hunk(h.oldStart, h.newStart, h.heading, []), lines);
    OnlyHunk(mid.done, path, Hunk(h.oldStart, h.newStart, HeadingAfter(h.heading, lines), lines));
  }

  lemma OnlyHunk(done: seq<FilePatch>, path: string, h: Hunk)
    ensures AllFiles(Within(done, FilePatch(path, []), h)) == done + [FilePatch(path, [h])]
  {
    assert [] + [h] == [h];
  }

  lemma HeaderBegins(header: string)
    requires ParseHeader(header).Some?
    ensures header != "" && header[0] == '@'
  {
    assert "@@ -" <= header;
  }

  lemma HeaderStep(s: State, header: string, h: Header)
    requires s.file.Some? && s.file.value.path != "" && s.file.value.hunks == [] && s.hunk == None
    requires ParseHeader(header) == Some(h)
    ensures Step(s, header) == Within(s.done, s.file.value, Hunk(h.oldStart, h.newStart, h.heading, []))
  {
    hide ParseHeader;
    HeaderBegins(header);
    assert "+++ "[0] == '+' && "diff --git "[0] == 'd';
    NothingCounted();
  }

  /** So a renamed file is shown under its new name, an added file under its only name, and a deleted one
      under the name it had, also when the header gives no counts. */
  lemma RenamedAddedDeleted(s: State, before: string, after: string, header: string, h: Header, lines: seq<PatchLine>)
    requires before != "" && GoodPath(before) && after != "" && GoodPath(after)
    requires HeaderIs(header, h) && GoodHunk(Hunk(h.oldStart, h.newStart, h.heading, lines))
    ensures var hunks := [Hunk(h.oldStart, h.newStart, HeadingAfter(h.heading, lines), lines)];
            var top := "diff --git a/" + before + " b/" + after;
            && AllFiles(Steps(s, OneHunk(top, "--- a/" + before, "+++ b/" + after, header, lines)))
               == AllFiles(s) + [FilePatch(after, hunks)]
            && AllFiles(Steps(s, OneHunk(top, "--- /dev/null", "+++ b/" + after, header, lines)))
               == AllFiles(s) + [FilePatch(after, hunks)]
            && AllFiles(Steps(s, OneHunk(top, "--- a/" + before, "+++ /dev/null", header, lines)))
               == AllFiles(s) + [FilePatch(before, hunks)]
  {
    hide Steps, GoodHunk, HeadingAfter, NewName, OldName, HeaderIs, OneHunk, AllFiles, GoodPath;
    var top := "diff --git a/" + before + " b/" + after;
    Fronts(top, before, after);
    SideNames(before);
    SideNames(after);
    OneHunkRead(s, top, "--- a/" + before, "+++ b/" + after, header, h, lines);
    OneHunkRead(s, top, "--- /dev/null", "+++ b/" + after, header, h, lines);
    OneHunkRead(s, top, "--- a/" + before, "+++ /dev/null", header, h, lines);
  }

  lemma Fronts(top: string, before: string, after: string)
    requires top == "diff --git a/" + before + " b/" + after
    ensures "diff --git " <= top && "--- " <= "--- a/" + before && "+++ " <= "+++ b/" + after
    ensures "--- " <= "--- /dev/null" && "+++ " <= "+++ /dev/null"
  {
    assert top[..11] == "diff --git " && ("--- a/" + before)[..4] == "--- " && ("+++ b/" + after)[..4] == "+++ ";
    assert "--- /dev/null"[..4] == "--- " && "+++ /dev/null"[..4] == "+++ ";
  }

  /** The shortest header there is. */
  lemma CountlessHeader(a: nat, b: nat)
    ensures HeaderIs("@@ -" + Decimal(a) + " +" + Decimal(b) + " @@", Header(a, b, ""))
  {
    hide Decimal, Value;
    var line := "@@ -" + Decimal(a) + " +" + Decimal(b) + " @@";
    assert All(Digit, Decimal(a)) && All(Digit, Decimal(b)) && All(Digit, "");
    assert RangeText(Decimal(a), a) && RangeText(Decimal(b), b);
    assert TrimLeft(JsSpace, "") == "" && JsTrim("") == "";
    assert line == "@@ -" + Decimal(a) + " +" + Decimal(b) + " @@" + "";
  }
}
