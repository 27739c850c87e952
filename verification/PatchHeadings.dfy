/** The heading pattern of the patch parser, exactly: which lines it matches, and which of the
    ways to match it takes. */
module PatchHeadings {
  import opened Common
  import opened PatchText

  /** White space and then hashes, either of which may be missing. */
  ghost predicate ClosingText(s: string) {
    exists k :: 0 <= k <= |s| && All(JsSpace, s[..k]) && All(Hash, s[k..])
  }

  /** One way to read a line as a heading: at most three characters of white space, one to six hashes,
      white space, a title on one line, and a closing. */
  ghost predicate Shape(line: string, indent: string, hashes: string, gap: string, title: string, closing: string) {
    && |indent| <= 3 && All(JsSpace, indent) && 1 <= |hashes| <= 6 && All(Hash, hashes)
    && gap != "" && All(JsSpace, gap) && title != "" && OneLine(title) && ClosingText(closing)
    && line == indent + (hashes + (gap + (title + closing)))
  }

  /** The way the pattern takes: no other has a wider gap, nor the same gap and a shorter title. */
  ghost predicate Chosen(line: string, gap: string, title: string) {
    forall i, h, g, t, c :: Shape(line, i, h, g, t, c) ==> |g| < |gap| || (|g| == |gap| && |t| >= |title|)
  }

  lemma ClosingExactly(s: string)
    ensures Closing(s) <==> ClosingText(s)
  {
    hide Closing, ClosingText;
    if Closing(s) { ClosingSplits(s); }
    if ClosingText(s) { SplitsClose(s); }
  }

  lemma ClosingSplits(s: string)
    requires Closing(s)
    ensures ClosingText(s)
  {
    hide TrimLeft, JsSpace, Hash, All;
    var blank, rest := Run(JsSpace, s), TrimLeft(JsSpace, s);
    RunIsAll(JsSpace, s);
    RunSplits(JsSpace, s);
    RunIsAll(Hash, rest);
    assert Run(Hash, rest) == rest;
    assert s[..|blank|] == blank && s[|blank|..] == rest;
  }

  lemma SplitsClose(s: string)
    requires ClosingText(s)
    ensures Closing(s)
  {
    hide TrimLeft, JsSpace;
    var k :| 0 <= k <= |s| && All(JsSpace, s[..k]) && All(Hash, s[k..]);
    HashIsNoSpace();
    assert s[k..] != "" ==> Hash(s[k..][0]);
    assert s[..k] + s[k..] == s && s[k..] + "" == s[k..];
    TrimLeftAppend(JsSpace, s[..k], s[k..]);
    TrimLeftAppend(Hash, s[k..], "");
  }

  lemma HashIsNoSpace()
    ensures !JsSpace('#') && forall c :: Hash(c) <==> c == '#'
  {
  }

  /** The search for a title gives the shortest one of at least `n` characters, if there is one. */
  lemma {:induction false} ShortestExactly(s: string, n: nat)
    requires 0 < n && OneLine(s[..if n <= |s| then n - 1 else |s|])
    ensures var t := Shortest(s, n);
            && (t.Some? ==> |t.value| >= n && forall m :: n <= m < |t.value| ==> !Closing(s[m..]))
            && (t.None? ==> forall m :: n <= m <= |s| && OneLine(s[..m]) ==> !Closing(s[m..]))
    decreases |s| + 1 - n
  {
    hide Closing, LineEnd;
    if n <= |s| && !LineEnd(s[n - 1]) && !Closing(s[n..]) {
      assert forall c :: c in s[..n] ==> c in s[..n - 1] || c == s[n - 1];
      ShortestExactly(s, n + 1);
    } else if n <= |s| && LineEnd(s[n - 1]) {
      forall m | n <= m <= |s| ensures !OneLine(s[..m]) { assert s[..m][n - 1] == s[n - 1]; }
    }
  }

  /** The title that the pattern finds behind a gap of `v` characters. */
  ghost function TitleFrom(s: string, v: nat): Option<string>
    requires v <= |s|
  {
    Shortest(s[v..], 1)
  }

  /** Giving white space back stops at the first gap after which there is a title. */
  lemma {:induction false} TitleAfterExactly(s: string, w: nat) returns (v: nat)
    requires w <= |s|
    ensures v <= w && TitleAfter(s, w) == (if v == 0 then None else TitleFrom(s, v))
    ensures v > 0 ==> TitleAfter(s, w).Some?
    ensures forall u :: v < u <= w ==> TitleFrom(s, u) == None
    decreases w
  {
    hide TitleFrom;
    TitleAfterStep(s, w);
    if w == 0 || TitleFrom(s, w).Some? {
      v := w;
    } else {
      v := TitleAfterExactly(s, w - 1);
    }
  }

  lemma TitleAfterStep(s: string, w: nat)
    requires w <= |s|
    ensures TitleAfter(s, w) ==
            if w == 0 then None else if TitleFrom(s, w).Some? then TitleFrom(s, w) else TitleAfter(s, w - 1)
  {
    hide Shortest;
  }

  /** In any reading of a line the indentation and the hashes are the same, and the gap and the title
      divide what follows them. */
  lemma ShapeParts(line: string, i: string, h: string, g: string, t: string, c: string)
    requires Shape(line, i, h, g, t, c)
    ensures var inner := TrimLeft(JsSpace, line);
            var rest := TrimLeft(Hash, inner);
            && |line| - |inner| == |i| && |inner| - |rest| == |h| && rest == g + (t + c)
            && 1 <= |g| <= |rest| - |TrimLeft(JsSpace, rest)|
            && rest[..|g|] == g && rest[|g|..] == t + c
  {
    hide TrimLeft, ClosingText, OneLine;
    HashIsNoSpace();
    TrimLeftAppend(JsSpace, i, h + (g + (t + c)));
    assert (g + (t + c))[0] == g[0];
    hide JsSpace;
    TrimLeftAppend(Hash, h, g + (t + c));
    BlankFront(g, t + c);
  }

  lemma {:induction false} BlankFront(gap: string, rest: string)
    requires All(JsSpace, gap)
    ensures |TrimLeft(JsSpace, gap + rest)| <= |rest|
    decreases |gap|
  {
    if gap == "" {
      assert gap + rest == rest;
    } else {
      assert JsSpace(gap[0]) && (gap + rest)[1..] == gap[1..] + rest;
      BlankFront(gap[1..], rest);
    }
  }

  /** The search has found the gap and the title at `v`, and nothing at a wider gap. */
  ghost predicate FoundAt(line: string, v: nat, title: string) {
    var rest := TrimLeft(Hash, TrimLeft(JsSpace, line));
    var w := |rest| - |TrimLeft(JsSpace, rest)|;
    && 1 <= v <= w <= |rest| && TitleFrom(rest, v) == Some(title)
    && forall u :: v < u <= w ==> TitleFrom(rest, u) == None
  }

  lemma HeadingFinds(line: string) returns (v: nat)
    requires HeadingTitle(line).Some?
    ensures FoundAt(line, v, HeadingTitle(line).value)
    ensures var inner := TrimLeft(JsSpace, line); var rest := TrimLeft(Hash, inner);
            |line| - |inner| <= 3 && 1 <= |inner| - |rest| <= 6
  {
    hide TrimLeft, TitleAfter, TitleFrom, HeadingTitle;
    var inner := TrimLeft(JsSpace, line);
    var rest := TrimLeft(Hash, inner);
    var body := TrimLeft(JsSpace, rest);
    HeadingParts(line, inner, rest, body);
    v := TitleAfterExactly(rest, |rest| - |body|);
  }

  /** If a line is read as a heading with this title, there is a reading of it so, and it is the chosen one. */
  lemma HeadingHasShape(line: string) returns (i: string, h: string, g: string, c: string)
    requires HeadingTitle(line).Some?
    ensures Shape(line, i, h, g, HeadingTitle(line).value, c) && Chosen(line, g, HeadingTitle(line).value)
  {
    hide TrimLeft, Shape, Chosen, HeadingTitle, FoundAt, Run;
    var v := HeadingFinds(line);
    var inner := TrimLeft(JsSpace, line);
    var rest := TrimLeft(Hash, inner);
    var title := HeadingTitle(line).value;
    ShapeFound(line, v, title);
    i, h, g, c := Run(JsSpace, line), Run(Hash, inner), rest[..v], rest[v..][|title|..];
    NoneBefore(line, v, title);
  }

  lemma NoneBefore(line: string, v: nat, title: string)
    requires FoundAt(line, v, title)
    ensures Chosen(line, TrimLeft(Hash, TrimLeft(JsSpace, line))[..v], title)
  {
    hide Shape;
    forall i, h, g, t, c | Shape(line, i, h, g, t, c) ensures |g| < v || (|g| == v && |t| >= |title|) {
      NotBefore(line, i, h, g, t, c, v, title);
    }
  }

  lemma TitleFits(s: string, v: nat)
    requires v <= |s|
    ensures var t := TitleFrom(s, v);
            t.Some? ==> t.value != "" && OneLine(t.value) && t.value <= s[v..] && ClosingText(s[v..][|t.value|..])
  {
    hide Closing, ClosingText;
    if TitleFrom(s, v).Some? { ClosingExactly(s[v..][|TitleFrom(s, v).value|..]); }
  }

  lemma ShapeFound(line: string, v: nat, title: string)
    requires FoundAt(line, v, title)
    requires var inner := TrimLeft(JsSpace, line); var rest := TrimLeft(Hash, inner);
             |line| - |inner| <= 3 && 1 <= |inner| - |rest| <= 6
    ensures var inner := TrimLeft(JsSpace, line); var rest := TrimLeft(Hash, inner);
            && v <= |rest| && |title| <= |rest[v..]|
            && Shape(line, Run(JsSpace, line), Run(Hash, inner), rest[..v], title, rest[v..][|title|..])
  {
    hide TrimLeft, Closing, JsSpace, Hash, Shortest, ClosingText, All, OneLine, TitleFrom;
    var inner := TrimLeft(JsSpace, line);
    var rest := TrimLeft(Hash, inner);
    var gap, after := rest[..v], rest[v..];
    RunIsAll(JsSpace, line);
    RunSplits(JsSpace, line);
    RunIsAll(Hash, inner);
    RunSplits(Hash, inner);
    RunIsAll(JsSpace, rest);
    assert gap == Run(JsSpace, rest)[..v];
    PrefixIsAll(JsSpace, Run(JsSpace, rest), v);
    TitleFits(rest, v);
    assert after == title + after[|title|..] && rest == gap + after;
  }

  lemma PrefixIsAll(ok: char -> bool, s: string, n: nat)
    requires All(ok, s) && n <= |s|
    ensures All(ok, s[..n])
  {
  }

  /** No reading comes before the one that the search finds. */
  lemma NotBefore(line: string, i: string, h: string, g: string, t: string, c: string, v: nat, title: string)
    requires Shape(line, i, h, g, t, c)
    requires FoundAt(line, v, title)
    ensures |g| < v || (|g| == v && |t| >= |title|)
  {
    hide TrimLeft, Closing, JsSpace, Hash, Shortest, ClosingText, OneLine;
    var rest := TrimLeft(Hash, TrimLeft(JsSpace, line));
    ShapeParts(line, i, h, g, t, c);
    TitleThere(rest[|g|..], t, c);
    EmptyOneLine();
    assert rest[|g|..][..0] == "";
    ShortestExactly(rest[|g|..], 1);
    var found := TitleFrom(rest, |g|);
    assert found.Some?;
    if |g| == v { assert found == Some(title); }
  }

  lemma EmptyOneLine()
    ensures OneLine("")
  {
  }

  lemma TitleThere(s: string, t: string, c: string)
    requires s == t + c && OneLine(t) && ClosingText(c)
    ensures OneLine(s[..|t|]) && Closing(s[|t|..])
  {
    assert s[..|t|] == t && s[|t|..] == c;
    ClosingExactly(c);
  }

  lemma ShapeIsHeading(line: string, i: string, h: string, g: string, t: string, c: string)
    requires Shape(line, i, h, g, t, c)
    ensures HeadingTitle(line).Some?
  {
    hide TrimLeft, Closing, JsSpace, Hash, OneLine, Shortest, ClosingText, TitleAfter, TitleFrom;
    var inner := TrimLeft(JsSpace, line);
    var rest := TrimLeft(Hash, inner);
    ShapeParts(line, i, h, g, t, c);
    TitleAt(rest, |g|, t, c);
    var v := TitleAfterExactly(rest, |rest| - |TrimLeft(JsSpace, rest)|);
    HeadingParts(line, inner, rest, TrimLeft(JsSpace, rest));
  }

  lemma TitleAt(rest: string, v: nat, t: string, c: string)
    requires v <= |rest| && rest[v..] == t + c && t != "" && OneLine(t) && ClosingText(c)
    ensures TitleFrom(rest, v).Some?
  {
    hide Closing, ClosingText, OneLine, Shortest;
    EmptyOneLine();
    assert rest[v..][..0] == "";
    TitleThere(rest[v..], t, c);
    ShortestExactly(rest[v..], 1);
  }

  lemma SameTitle(line: string, i: string, h: string, g: string, t: string, c: string, j: string, k: string, f: string,
      u: string, d: string)
    requires Shape(line, i, h, g, t, c) && Shape(line, j, k, f, u, d) && |g| == |f| && |t| == |u|
    ensures t == u
  {
    ShapeParts(line, i, h, g, t, c);
    ShapeParts(line, j, k, f, u, d);
    hide Shape, TrimLeft;
    assert t == (t + c)[..|t|] == (u + d)[..|u|] == u;
  }

  /** The pattern matches a line exactly if the line can be read as a heading at all, and then gives the
      title of the chosen reading. */
  lemma HeadingExactly(line: string, title: string)
    ensures HeadingTitle(line) == Some(title) <==>
            exists i, h, g, c :: Shape(line, i, h, g, title, c) && Chosen(line, g, title)
  {
    hide Shape, HeadingTitle;
    if HeadingTitle(line).Some? { var i, h, g, c := HeadingHasShape(line); }
    if i, h, g, c :| Shape(line, i, h, g, title, c) && Chosen(line, g, title) {
      ShapeIsHeading(line, i, h, g, title, c);
      var j, k, f, d := HeadingHasShape(line);
      SameTitle(line, i, h, g, title, c, j, k, f, HeadingTitle(line).value, d);
    }
  }
}
