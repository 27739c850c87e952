/** The lines of a hunk, from the lines of the text alone: which of them it keeps, how they are
    marked and numbered, and which one gives it its heading. */
module PatchBodies {
  import opened Common
  import opened PatchText
  import opened PatchParser

  ghost predicate Marked(line: string) {
    line != "" && (line[0] == '+' || line[0] == '-' || line[0] == ' ')
  }

  /** What a marked line becomes. */
  ghost predicate Becomes(line: string, l: PatchLine) {
    && Marked(line) && l.content == line[1..]
    && (l.kind == Add <==> line[0] == '+') && (l.kind == Delete <==> line[0] == '-')
  }

  /** The kept lines are the marked ones, each once and in order; `at` says where each stands in the text. */
  ghost predicate LinesAre(kept: seq<PatchLine>, lines: seq<string>, at: seq<nat>) {
    && |at| == |kept| && (forall i, j :: 0 <= i < j < |at| ==> at[i] < at[j])
    && (forall i :: 0 <= i < |at| ==> at[i] < |lines| && Becomes(lines[at[i]], kept[i]))
    && (forall n :: 0 <= n < |lines| && Marked(lines[n]) ==> n in at)
  }

  /** The line is a markdown heading, is not a deleted one, and only unchanged lines stand before it. */
  ghost predicate TitlesAt(lines: seq<string>, n: nat)
    requires n < |lines|
  {
    && lines[n] != "" && lines[n][0] != '-' && !("\\ No newline" <= lines[n]) && HeadingTitle(lines[n][1..]).Some?
    && forall m :: 0 <= m < n && Marked(lines[m]) ==> lines[m][0] == ' '
  }

  /** The heading of the last such line, or else the one given by the header. */
  ghost predicate HeadingIs(heading: string, given: string, lines: seq<string>) {
    exists n ::
      && LastTitle(lines, n)
      && heading == if n >= 0 then HeadingTitle(lines[n][1..]).value else given
  }

  ghost predicate LastTitle(lines: seq<string>, n: int) {
    && -1 <= n < |lines| && (n >= 0 ==> TitlesAt(lines, n))
    && forall m :: n < m < |lines| ==> !TitlesAt(lines, m)
  }

  /** Lines that are neither the start of a file or hunk nor the name of its new side. */
  ghost predicate Inner(lines: seq<string>) {
    forall i :: 0 <= i < |lines| ==>
      !("diff --git " <= lines[i]) && !("+++ " <= lines[i]) && ParseHeader(lines[i]).None?
  }

  lemma StepInner(s: State, line: string)
    requires s.file.Some? && s.file.value.path != "" && s.hunk.Some? && Inner([line])
    ensures var t, h := Step(s, line), s.hunk.value;
            && t.file == s.file && t.done == s.done && t.hunk.Some?
            && t.hunk.value.oldStart == h.oldStart && t.hunk.value.newStart == h.newStart
            && h.lines <= t.hunk.value.lines && |t.hunk.value.lines| == |h.lines| + (if Marked(line) then 1 else 0)
            && (Marked(line) ==> Becomes(line, t.hunk.value.lines[|h.lines|]))
            && t.hunk.value.heading ==
               if line != "" && line[0] != '-' && !("\\ No newline" <= line) && HeadingTitle(line[1..]).Some?
                  && (forall i :: 0 <= i < |h.lines| ==> h.lines[i].kind == Context)
               then HeadingTitle(line[1..]).value else h.heading
  {
    hide HeadingTitle, ParseHeader;
    assert [line][0] == line;
    assert "\\ No newline"[0] == '\\';
    assert AllContext(s.hunk.value.lines)
           <==> forall i :: 0 <= i < |s.hunk.value.lines| ==> s.hunk.value.lines[i].kind == Context;
  }

  lemma LinesSnoc(kept: seq<PatchLine>, lines: seq<string>, at: seq<nat>, line: string, l: PatchLine)
    requires LinesAre(kept, lines, at)
    ensures !Marked(line) ==> LinesAre(kept, lines + [line], at)
    ensures Becomes(line, l) ==> LinesAre(kept + [l], lines + [line], at + [|lines|])
  {
    hide Marked, Becomes;
    var more := lines + [line];
    assert forall n :: 0 <= n < |lines| ==> more[n] == lines[n];
    assert forall n :: n in at ==> n in at + [|lines|];
    assert (at + [|lines|])[|at|] == |lines|;
  }

  lemma HeadingSnoc(heading: string, given: string, lines: seq<string>, line: string)
    requires HeadingIs(heading, given, lines)
    ensures var more := lines + [line];
            HeadingIs(if TitlesAt(more, |lines|) then HeadingTitle(line[1..]).value else heading, given, more)
  {
    hide HeadingTitle, Marked;
    var more := lines + [line];
    var n :| LastTitle(lines, n) && heading == if n >= 0 then HeadingTitle(lines[n][1..]).value else given;
    forall m | 0 <= m < |lines| ensures TitlesAt(more, m) <==> TitlesAt(lines, m) {
      assert forall i :: 0 <= i <= m ==> more[i] == lines[i];
    }
    if TitlesAt(more, |lines|) {
      assert LastTitle(more, |lines|);
    } else {
      assert LastTitle(more, n);
    }
  }

  lemma ContextMeans(kept: seq<PatchLine>, lines: seq<string>, at: seq<nat>)
    requires LinesAre(kept, lines, at)
    ensures (forall i :: 0 <= i < |kept| ==> kept[i].kind == Context) <==>
            forall m :: 0 <= m < |lines| && Marked(lines[m]) ==> lines[m][0] == ' '
  {
    if forall i :: 0 <= i < |kept| ==> kept[i].kind == Context {
      forall m | 0 <= m < |lines| && Marked(lines[m]) ensures lines[m][0] == ' ' {
        var i :| 0 <= i < |at| && at[i] == m;
        assert kept[i].kind == Context;
      }
    } else {
      var i :| 0 <= i < |kept| && kept[i].kind != Context;
      assert Marked(lines[at[i]]);
    }
  }

  /** A hunk that has just begun, after any lines that start nothing new. */
  lemma {:induction false} BodyRead(s: State, lines: seq<string>) returns (at: seq<nat>)
    requires s.file.Some? && s.file.value.path != "" && s.hunk.Some? && s.hunk.value.lines == [] && Inner(lines)
    ensures var t, h := Steps(s, lines), s.hunk.value;
            && t.file == s.file && t.done == s.done && t.hunk.Some?
            && t.hunk.value.oldStart == h.oldStart && t.hunk.value.newStart == h.newStart
            && LinesAre(t.hunk.value.lines, lines, at) && HeadingIs(t.hunk.value.heading, h.heading, lines)
    decreases |lines|
  {
    hide Step, LinesAre, HeadingIs, Becomes, Marked, HeadingTitle, ParseHeader;
    if lines == [] {
      at := [];
      NothingKept(s.hunk.value.heading);
    } else {
      var n := |lines| - 1;
      var init, line := lines[..n], lines[n];
      at := BodyRead(s, init);
      var mid := Steps(s, init);
      var t := Step(mid, line);
      assert lines == init + [line];
      StepInner(mid, line);
      ContextMeans(mid.hunk.value.lines, init, at);
      HeadingSnoc(mid.hunk.value.heading, s.hunk.value.heading, init, line);
      TitlesLast(init, line);
      if Marked(line) {
        var l := t.hunk.value.lines[|mid.hunk.value.lines|];
        LinesSnoc(mid.hunk.value.lines, init, at, line, l);
        assert t.hunk.value.lines == mid.hunk.value.lines + [l];
        at := at + [n];
      } else {
        LinesSnoc(mid.hunk.value.lines, init, at, line, PatchLine(Context, "", None, None));
        assert t.hunk.value.lines == mid.hunk.value.lines;
      }
    }
  }

  lemma TitlesLast(init: seq<string>, line: string)
    ensures TitlesAt(init + [line], |init|) <==>
            && line != "" && line[0] != '-' && !("\\ No newline" <= line) && HeadingTitle(line[1..]).Some?
            && forall m :: 0 <= m < |init| && Marked(init[m]) ==> init[m][0] == ' '
  {
    hide HeadingTitle, Marked;
    assert forall m :: 0 <= m < |init| ==> (init + [line])[m] == init[m];
  }

  lemma NothingKept(heading: string)
    ensures LinesAre([], [], []) && HeadingIs(heading, heading, [])
  {
    assert LastTitle([], -1);
  }

  // ------------------------------------------------------------------ line numbers

  lemma {:induction false} OldsCounted(lines: seq<PatchLine>)
    ensures Olds(lines) == |set j | 0 <= j < |lines| && lines[j].kind != Add|
    decreases |lines|
  {
    if lines != [] {
      var n := |lines| - 1;
      OldsCounted(lines[..n]);
      var all, init := set j | 0 <= j < |lines| && lines[j].kind != Add,
                       set j | 0 <= j < n && lines[..n][j].kind != Add;
      assert all == init + if lines[n].kind != Add then {n} else {};
    }
  }

  lemma {:induction false} NewsCounted(lines: seq<PatchLine>)
    ensures News(lines) == |set j | 0 <= j < |lines| && lines[j].kind != Delete|
    decreases |lines|
  {
    if lines != [] {
      var n := |lines| - 1;
      NewsCounted(lines[..n]);
      var all, init := set j | 0 <= j < |lines| && lines[j].kind != Delete,
                       set j | 0 <= j < n && lines[..n][j].kind != Delete;
      assert all == init + if lines[n].kind != Delete then {n} else {};
    }
  }

  /** The numbers on a line of a hunk: an added line has none in the old file and a deleted one none in
      the new; otherwise the start and how many lines before it are in that file. */
  lemma NumbersExactly(h: Hunk, i: nat)
    requires i < |h.lines|
    ensures var l := h.lines[i];
            NumberedAt(h, i) <==>
            && l.oldLine == (if l.kind == Add then None
                             else Some(h.oldStart + |set j | 0 <= j < i && h.lines[j].kind != Add|))
            && l.newLine == (if l.kind == Delete then None
                             else Some(h.newStart + |set j | 0 <= j < i && h.lines[j].kind != Delete|))
  {
    hide Olds, News;
    OldsCounted(h.lines[..i]);
    NewsCounted(h.lines[..i]);
    assert (set j | 0 <= j < i && h.lines[..i][j].kind != Add) == set j | 0 <= j < i && h.lines[j].kind != Add;
    assert (set j | 0 <= j < i && h.lines[..i][j].kind != Delete) == set j | 0 <= j < i && h.lines[j].kind != Delete;
  }
}
