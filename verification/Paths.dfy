/** Lexical path handling: path.Clean as its own loop, the document path check
    built on it, and the proof that the check is exactly confinement. */
module Paths {
  import opened Common

  /** A cleaned path as data: `ups` leading ".." segments and then real names. */
  datatype Norm = Norm(rooted: bool, ups: nat, names: seq<string>)

  predicate RealName(e: string) {
    e != "" && e != "." && e != ".." && '/' !in e
  }

  ghost predicate Sound(n: Norm) {
    && (n.rooted ==> n.ups == 0)
    && forall i :: 0 <= i < |n.names| ==> RealName(n.names[i])
  }

  /** What one path element does to a cleaned path. */
  function Step(n: Norm, e: string): Norm {
    if e == "" || e == "." then n
    else if e == ".." then
      if n.names != [] then n.(names := n.names[..|n.names| - 1])
      else if n.rooted then n
      else n.(ups := n.ups + 1)
    else n.(names := n.names + [e])
  }

  function Walk(n: Norm, es: seq<string>): Norm
    decreases |es|
  {
    if es == [] then n else Walk(Step(n, es[0]), es[1..])
  }

  function Normal(p: string): Norm {
    Walk(Norm(p != "" && p[0] == '/', 0, []), Split(p, '/'))
  }

  function Dots(n: nat): (d: seq<string>)
    ensures |d| == n && forall i :: 0 <= i < n ==> d[i] == ".."
  {
    seq(n, _ => "..")
  }

  function Body(n: Norm): string {
    Join(Dots(n.ups) + n.names, '/')
  }

  /** The text the cleaning loop has written so far for `n`. */
  function Raw(n: Norm): string {
    (if n.rooted then "/" else "") + Body(n)
  }

  function Render(n: Norm): string {
    if Raw(n) == "" then "." else Raw(n)
  }

  // ------------------------------------------------------- facts about writing

  lemma RawPush(n: Norm, e: string)
    requires Sound(n)
    ensures Raw(n.(names := n.names + [e])) ==
            Raw(n) + (if n.ups == 0 && n.names == [] then "" else "/") + e
    ensures (Body(n) == "") <==> (n.ups == 0 && n.names == [])
  {
    var parts := Dots(n.ups) + n.names;
    JoinSnoc(parts, e, '/');
    assert Dots(n.ups) + (n.names + [e]) == parts + [e];
    if parts != [] {
      assert parts[0] != "";
      assert Body(n) != "";
    }
  }

  lemma RawUp(n: Norm)
    requires n.names == [] && !n.rooted
    ensures Raw(n.(ups := n.ups + 1)) == Raw(n) + (if n.ups == 0 then "" else "/") + ".."
    ensures (Raw(n) == "") <==> n.ups == 0
  {
    JoinSnoc(Dots(n.ups), "..", '/');
    assert Dots(n.ups + 1) + [] == Dots(n.ups) + [".."];
    assert Dots(n.ups) + [] == Dots(n.ups);
    if n.ups > 0 { assert Dots(n.ups)[0] == ".."; }
  }

  lemma WalkNothing(n: Norm)
    ensures Walk(n, Split("", '/')) == n
  {
  }

  /** One element at the front of the unread text is one step of the walk. */
  lemma WalkElement(n: Norm, e: string, rest: string)
    requires '/' !in e
    requires rest == "" || rest[0] == '/'
    ensures Walk(n, Split(e + rest, '/')) == Walk(Step(n, e), Split(rest, '/'))
  {
    SplitHead(e, rest, '/');
    var tail := Split(rest, '/');
    assert ([e] + tail[1..])[1..] == tail[1..];
    assert Walk(Step(n, e), tail) == Walk(Step(Step(n, e), ""), tail[1..]);
  }

  /** What cleaning comes to when `n` is written and `path[r..]` is still unread. */
  ghost function Pending(n: Norm, path: string, r: nat): Norm
    requires r <= |path|
  {
    Walk(n, Split(path[r..], '/'))
  }

  lemma ReadSlash(n: Norm, path: string, r: nat)
    requires r < |path| && path[r] == '/'
    ensures Pending(n, path, r) == Pending(n, path, r + 1)
  {
  }

  lemma ReadElement(n: Norm, path: string, r: nat, e: string)
    requires r + |e| <= |path| && e == path[r..r + |e|] && '/' !in e
    requires r + |e| == |path| || path[r + |e|] == '/'
    ensures Pending(n, path, r) == Pending(Step(n, e), path, r + |e|)
  {
    assert path[r..] == e + path[r + |e|..];
    WalkElement(n, e, path[r + |e|..]);
  }

  // ----------------------------------------------------------- the cleaning loop

  lemma LastName(n: Norm)
    requires Sound(n) && n.names != []
    ensures var shorter, last := Step(n, ".."), n.names[|n.names| - 1];
            Sound(shorter) && RealName(last) && n == shorter.(names := shorter.names + [last])
  {
    var m := |n.names| - 1;
    assert n.names == n.names[..m] + [n.names[m]];
  }

  /** The part of the loop that drops the last written element. */
  method Backtrack(buf: string, dotdot: nat, ghost n: Norm) returns (out: string)
    requires Sound(n) && buf == Raw(n)
    requires dotdot == |Raw(n.(names := []))| < |buf|
    ensures out == Raw(Step(n, "..")) && n.names != []
  {
    RawLength(n);
    ghost var shorter := Step(n, "..");
    ghost var last := n.names[|n.names| - 1];
    LastName(n);
    RawPush(shorter, last);
    RawLength(shorter);
    var w := |buf| - 1;
    while w > dotdot && buf[w] != '/'
      invariant |Raw(shorter)| <= w < |buf|
    {
      w := w - 1;
    }
    out := buf[..w];
  }

  /** The inner copying loop: the element that starts at `r`. */
  method Element(path: string, r: nat) returns (e: string)
    requires r < |path| && path[r] != '/'
    ensures 0 < |e| <= |path| - r && e == path[r..r + |e|] && '/' !in e
    ensures r + |e| == |path| || path[r + |e|] == '/'
  {
    var k := r;
    while k < |path| && path[k] != '/'
      invariant r <= k <= |path|
      invariant '/' !in path[r..k]
    {
      k := k + 1;
    }
    e := path[r..k];
  }

  /** One element written into the buffer; `dotdot` marks where backtracking stops. */
  method WriteElement(buf: string, dotdot: nat, e: string, ghost n: Norm) returns (out: string, stop: nat)
    requires Sound(n) && e != "" && '/' !in e
    requires buf == Raw(n) && dotdot == |Raw(n.(names := []))|
    ensures Sound(Step(n, e))
    ensures out == Raw(Step(n, e)) && stop == |Raw(Step(n, e).(names := []))|
  {
    var rooted := buf != "" && buf[0] == '/';
    out, stop := buf, dotdot;
    RawLength(n);
    RawRooted(n);
    if e == ".." {
      if |buf| > dotdot {
        out := Backtrack(buf, dotdot, n);
      } else if !rooted {
        RawUp(n);
        out := if |buf| > 0 then buf + "/" + ".." else "..";
        stop := |out|;
      }
    } else if e != "." {
      RawPush(n, e);
      var slash := (rooted && |buf| != 1) || (!rooted && |buf| != 0);
      out := if slash then buf + "/" + e else buf + e;
    }
  }

  /** path.Clean: reads left to right, writing into a buffer and backtracking over
      the last written element at "..", but never below `dotdot`. */
  method Clean(path: string) returns (out: string)
    ensures out == Render(Normal(path))
  {
    assert Dots(0) + [] == [];
    if path == "" {
      WalkNothing(Norm(false, 0, []));
      return ".";
    }
    var buf, r, dotdot := "", 0, 0;
    ghost var n := Norm(path[0] == '/', 0, []);
    assert path[0..] == path;
    if path[0] == '/' {
      ReadSlash(n, path, 0);
      buf, r, dotdot := "/", 1, 1;
    }
    while r < |path|
      invariant 0 <= r <= |path| && Sound(n)
      invariant buf == Raw(n) && dotdot == |Raw(n.(names := []))|
      invariant Pending(n, path, r) == Normal(path)
    {
      if path[r] == '/' {
        ReadSlash(n, path, r);
        r := r + 1;
      } else {
        var e := Element(path, r);
        buf, dotdot := WriteElement(buf, dotdot, e, n);
        ReadElement(n, path, r, e);
        n := Step(n, e);
        r := r + |e|;
      }
    }
    WalkNothing(n);
    assert path[r..] == "";
    out := if buf == "" then "." else buf;
  }

  lemma RawRooted(n: Norm)
    requires Sound(n)
    ensures n.rooted <==> Raw(n) != "" && Raw(n)[0] == '/'
  {
  }

  /** The written text is longer than its ".." part exactly when a name follows it. */
  lemma {:induction false} RawLength(n: Norm)
    requires Sound(n)
    ensures |Raw(n)| >= |Raw(n.(names := []))|
    ensures |Raw(n)| > |Raw(n.(names := []))| <==> n.names != []
    decreases |n.names|
  {
    if n.names != [] {
      var m := n.(names := n.names[..|n.names| - 1]);
      assert n == m.(names := m.names + [n.names[|n.names| - 1]]);
      RawPush(m, n.names[|n.names| - 1]);
      RawLength(m);
    }
  }

  // -------------------------------------------------------------- confinement

  /** How far one element moves down from the root. */
  function Rise(e: string): int {
    if e == "" || e == "." then 0 else if e == ".." then -1 else 1
  }

  function Depth(es: seq<string>): int {
    if es == [] then 0 else Rise(es[0]) + Depth(es[1..])
  }

  /** No prefix of the walk is above where it started. */
  ghost predicate StaysInside(es: seq<string>) {
    forall k :: 0 <= k <= |es| ==> Depth(es[..k]) >= 0
  }

  /** validateDocPathInternal: the cleaned text decides. */
  predicate AcceptsDocPath(p: string) {
    && p != "" && !HasPrefix(p, "/") && '\\' !in p
    && Render(Normal(p)) != ".." && !HasPrefix(Render(Normal(p)), "../")
  }

  /** Walking from `base` under `names`: the walk stays inside exactly when it never
      eats into `base`, and then it does to `names` what it does from nothing. */
  lemma {:induction false} WalkFrom(rooted: bool, base: seq<string>, names: seq<string>, es: seq<string>)
    requires forall k :: 0 <= k <= |es| ==> |names| + Depth(es[..k]) >= 0
    ensures Walk(Norm(false, 0, names), es).ups == 0
    ensures Walk(Norm(rooted, 0, base + names), es) ==
            Norm(rooted, 0, base + Walk(Norm(false, 0, names), es).names)
    ensures |Walk(Norm(false, 0, names), es).names| == |names| + Depth(es)
    decreases |es|
  {
    if es != [] {
      var next := Step(Norm(false, 0, names), es[0]);
      assert es[..1] == [es[0]];
      assert Depth(es[..1]) == Rise(es[0]) + Depth(es[..1][1..]);
      assert Step(Norm(rooted, 0, base + names), es[0]) == Norm(rooted, 0, base + next.names);
      forall k | 0 <= k <= |es[1..]| ensures |next.names| + Depth(es[1..][..k]) >= 0 {
        assert es[..k + 1][1..] == es[1..][..k];
        assert Depth(es[..k + 1]) == Rise(es[0]) + Depth(es[1..][..k]);
      }
      WalkFrom(rooted, base, next.names, es[1..]);
    }
  }

  lemma {:induction false} WalkKeepsUps(n: Norm, es: seq<string>)
    requires !n.rooted
    ensures Walk(n, es).ups >= n.ups && !Walk(n, es).rooted
    decreases |es|
  {
    if es != [] { WalkKeepsUps(Step(n, es[0]), es[1..]); }
  }

  /** A walk that somewhere goes above its start ends with a leading "..". */
  lemma {:induction false} WalkEscapes(names: seq<string>, es: seq<string>, k: nat)
    requires k <= |es| && |names| + Depth(es[..k]) < 0
    ensures Walk(Norm(false, 0, names), es).ups > 0
    decreases |es|
  {
    var next := Step(Norm(false, 0, names), es[0]);
    assert es[..k][1..] == es[1..][..k - 1];
    if next.ups > 0 {
      WalkKeepsUps(next, es[1..]);
    } else {
      WalkEscapes(next.names, es[1..], k - 1);
    }
  }

  lemma {:induction false} WalkSound(n: Norm, es: seq<string>)
    requires Sound(n) && forall i :: 0 <= i < |es| ==> '/' !in es[i]
    ensures Sound(Walk(n, es)) && Walk(n, es).rooted == n.rooted
    decreases |es|
  {
    if es != [] { WalkSound(Step(n, es[0]), es[1..]); }
  }

  lemma RealNameLeads(first: string, text: string)
    requires RealName(first) && first <= text
    ensures text != ".." && !HasPrefix(text, "../")
  {
    assert text[0] == first[0];
    if |first| == 1 {
      assert first == [first[0]];
    } else if |first| == 2 {
      assert first == [first[0], first[1]];
      assert text[1] == first[1];
    } else {
      assert text[2] == first[2];
    }
  }

  /** The cleaned text of a relative path begins with a ".." segment exactly when `ups` is positive. */
  lemma RenderEscapes(n: Norm)
    requires Sound(n) && !n.rooted
    ensures n.ups > 0 <==> (Render(n) == ".." || HasPrefix(Render(n), "../"))
  {
    var parts := Dots(n.ups) + n.names;
    if parts != [] {
      var first := parts[0];
      assert |parts| == 1 ==> Join(parts, '/') == first;
      assert |parts| > 1 ==> Join(parts, '/') == first + ['/'] + Join(parts[1..], '/');
      if n.ups == 0 {
        assert RealName(first);
        var text := Join(parts, '/');
        RealNameLeads(first, text);
      }
    }
  }

  /** The document path check accepts exactly the paths whose segments, walked from
      the root, are never above the root. */
  lemma AcceptedIffInside(p: string)
    ensures AcceptsDocPath(p) <==>
            p != "" && p[0] != '/' && '\\' !in p && StaysInside(Split(p, '/'))
  {
    if p != "" && p[0] != '/' {
      var start, es := Norm(false, 0, []), Split(p, '/');
      WalkSound(start, es);
      RenderEscapes(Normal(p));
      if StaysInside(es) {
        WalkFrom(false, [], [], es);
      } else {
        var k :| 0 <= k <= |es| && Depth(es[..k]) < 0;
        WalkEscapes([], es, k);
      }
    }
  }

  /** Where an accepted path lies, as the list of its segments. */
  function Locate(p: string): seq<string> {
    Normal(p).names
  }

  /** One more segment of a path: nothing and "." stay, ".." goes back one name, a name goes on. */
  lemma LocateNext(p: string, e: string)
    requires '/' !in e
    ensures Locate(p + "/" + e) ==
            if e == "" || e == "." then Locate(p)
            else if e == ".." then (if Locate(p) == [] then [] else Locate(p)[..|Locate(p)| - 1])
            else Locate(p) + [e]
  {
    var whole := p + "/" + e;
    var start := Norm(whole[0] == '/', 0, []);
    assert whole == p + ['/'] + e && (p != "" ==> whole[0] == p[0]);
    SplitAppend(p, e, '/');
    SplitAlone(e, '/');
    WalkAppend(start, Split(p, '/'), [e]);
    if p == "" { WalkNothing(start); WalkNothing(Norm(false, 0, [])); }
    var at := Walk(start, Split(p, '/'));
    assert at.names == Locate(p) && [e][1..] == [];
    assert Normal(whole) == Walk(at, [e]) == Walk(Step(at, e), []);
  }

  /** A path of one segment. */
  lemma LocateOne(e: string)
    requires '/' !in e
    ensures Locate(e) == if e == "" || e == "." || e == ".." then [] else [e]
  {
    SplitAlone(e, '/');
    var start := Norm(false, 0, []);
    assert e != "" ==> e[0] != '/';
    assert [e][1..] == [] && Normal(e) == Walk(start, [e]) == Walk(Step(start, e), []);
  }

  /** filepath.Join of an absolute directory and an accepted path is that directory
      followed by the path's own segments: never above it and never beside it. */
  lemma JoinedUnderWorktree(wt: string, p: string)
    requires wt != "" && wt[0] == '/' && AcceptsDocPath(p)
    ensures Normal(wt + "/" + p) == Norm(true, 0, Normal(wt).names + Locate(p))
  {
    AcceptedIffInside(p);
    var start, es := Norm(true, 0, []), Split(p, '/');
    assert wt + "/" + p == wt + ['/'] + p;
    SplitAppend(wt, p, '/');
    WalkAppend(start, Split(wt, '/'), es);
    WalkSound(start, Split(wt, '/'));
    WalkFrom(true, Normal(wt).names, [], es);
    assert Normal(wt).names + [] == Normal(wt).names;
  }

  lemma {:induction false} WalkAppend(n: Norm, xs: seq<string>, ys: seq<string>)
    ensures Walk(n, xs + ys) == Walk(Walk(n, xs), ys)
    decreases |xs|
  {
    if xs == [] {
      assert xs + ys == ys;
    } else {
      assert (xs + ys)[1..] == xs[1..] + ys;
      WalkAppend(Step(n, xs[0]), xs[1..], ys);
    }
  }

  lemma LocateNames(p: string)
    ensures forall i :: 0 <= i < |Locate(p)| ==> RealName(Locate(p)[i])
  {
    WalkSound(Norm(p != "" && p[0] == '/', 0, []), Split(p, '/'));
  }

  /** Two accepted paths clean to the same text exactly when they name the same place. */
  lemma CleanEqualIffSamePlace(p: string, q: string)
    requires AcceptsDocPath(p) && AcceptsDocPath(q)
    ensures Render(Normal(p)) == Render(Normal(q)) <==> Locate(p) == Locate(q)
  {
    PlaceFromText(p);
    PlaceFromText(q);
  }

  lemma PlaceFromText(p: string)
    requires AcceptsDocPath(p)
    ensures Normal(p).ups == 0 && !Normal(p).rooted
    ensures Locate(p) == (if Render(Normal(p)) == "." then [] else Split(Render(Normal(p)), '/'))
  {
    var n := Normal(p);
    WalkSound(Norm(false, 0, []), Split(p, '/'));
    RenderEscapes(n);
    assert Dots(0) + n.names == n.names;
    if n.names != [] {
      SplitJoin(n.names, '/');
      assert Render(n) == Join(n.names, '/');
      SplitHead(".", "", '/');
      assert Split(".", '/') == ["."];
    }
  }

  /** validateDocPathInternal. */
  method ValidateDocPath(p: string) returns (ok: bool)
    ensures ok == AcceptsDocPath(p)
    ensures ok <==> p != "" && p[0] != '/' && '\\' !in p && StaysInside(Split(p, '/'))
  {
    AcceptedIffInside(p);
    if p == "" || HasPrefix(p, "/") || '\\' in p {
      return false;
    }
    var clean := Clean(p);
    ok := clean != ".." && !HasPrefix(clean, "../");
  }
}
