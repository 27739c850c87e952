/** Small vocabulary shared by the other modules: optional values, and the
    string splitting, joining and trimming that Go and JavaScript provide. */
module Common {

  datatype Option<+T> = None | Some(value: T)

  datatype Result<+T, +E> = Ok(value: T) | Err(error: E)

  /** A path as the list of its names, from the root down. */
  type Path = seq<string>

  function Find<K, V>(m: map<K, V>, key: K): Option<V> {
    if key in m then Some(m[key]) else None
  }

  // ---------------------------------------------------------------- splitting

  /** The pieces of `s` between occurrences of `sep`; never empty. */
  function Split(s: string, sep: char): (parts: seq<string>)
    ensures parts != []
    ensures forall i :: 0 <= i < |parts| ==> sep !in parts[i]
  {
    if s == "" then [""]
    else
      var rest := Split(s[1..], sep);
      if s[0] == sep then [""] + rest else [[s[0]] + rest[0]] + rest[1..]
  }

  function Join(parts: seq<string>, sep: char): string {
    if parts == [] then ""
    else if |parts| == 1 then parts[0]
    else parts[0] + [sep] + Join(parts[1..], sep)
  }

  /** A piece free of separators, followed by nothing or by a separator, is split off whole. */
  lemma {:induction false} SplitHead(e: string, rest: string, sep: char)
    requires sep !in e
    requires rest == "" || rest[0] == sep
    ensures Split(e + rest, sep) == [e] + Split(rest, sep)[1..]
    ensures Split(rest, sep)[0] == ""
  {
    if e == "" {
      assert e + rest == rest;
      assert Split(rest, sep) == [""] + Split(rest, sep)[1..];
    } else {
      SplitHead(e[1..], rest, sep);
      assert (e + rest)[1..] == e[1..] + rest;
      assert [e[0]] + e[1..] == e;
    }
  }

  lemma SplitHeads(xs: seq<string>, ys: seq<string>, c: char)
    requires xs != []
    ensures [""] + (xs + ys) == ([""] + xs) + ys
    ensures [[c] + (xs + ys)[0]] + (xs + ys)[1..] == ([[c] + xs[0]] + xs[1..]) + ys
  {
  }

  lemma {:induction false} SplitAppend(a: string, b: string, sep: char)
    ensures Split(a + [sep] + b, sep) == Split(a, sep) + Split(b, sep)
  {
    if a == "" {
      assert a + [sep] + b == [sep] + b;
    } else {
      SplitAppend(a[1..], b, sep);
      var whole := a + [sep] + b;
      assert whole[1..] == a[1..] + [sep] + b;
      assert whole[0] == a[0];
      SplitHeads(Split(a[1..], sep), Split(b, sep), a[0]);
    }
  }

  lemma SplitAlone(e: string, sep: char)
    requires sep !in e
    ensures Split(e, sep) == [e]
  {
    SplitHead(e, "", sep);
    assert e + "" == e;
  }

  /** Splitting a joined list gives the list back, when no piece holds the separator. */
  lemma {:induction false} SplitJoin(parts: seq<string>, sep: char)
    requires parts != []
    requires forall i :: 0 <= i < |parts| ==> sep !in parts[i]
    ensures Split(Join(parts, sep), sep) == parts
    decreases |parts|
  {
    hide Split;
    SplitAlone(parts[0], sep);
    if |parts| > 1 {
      SplitJoin(parts[1..], sep);
      SplitAppend(parts[0], Join(parts[1..], sep), sep);
    }
  }

  lemma {:induction false} JoinSplit(s: string, sep: char)
    ensures Join(Split(s, sep), sep) == s
  {
    if s != "" {
      JoinSplit(s[1..], sep);
      JoinFront(Split(s[1..], sep), s[0], sep);
      assert [s[0]] + s[1..] == s;
    }
  }

  lemma JoinFront(parts: seq<string>, c: char, sep: char)
    requires parts != []
    ensures Join([""] + parts, sep) == [sep] + Join(parts, sep)
    ensures Join([[c] + parts[0]] + parts[1..], sep) == [c] + Join(parts, sep)
  {
    assert ([""] + parts)[1..] == parts && ([[c] + parts[0]] + parts[1..])[1..] == parts[1..];
    assert "" + [sep] + Join(parts, sep) == [sep] + Join(parts, sep);
    assert ([c] + parts[0]) + [sep] + Join(parts[1..], sep) == [c] + (parts[0] + [sep] + Join(parts[1..], sep));
  }

  lemma {:induction false} JoinSnoc(parts: seq<string>, e: string, sep: char)
    ensures Join(parts + [e], sep) == (if parts == [] then e else Join(parts, sep) + [sep] + e)
  {
    if parts == [] {
      assert parts + [e] == [e];
    } else {
      JoinSnoc(parts[1..], e, sep);
      assert (parts + [e])[1..] == parts[1..] + [e];
      if |parts| > 1 {
        assert parts[0] + [sep] + (Join(parts[1..], sep) + [sep] + e) == Join(parts, sep) + [sep] + e;
      }
    }
  }

  // ----------------------------------------------------------------- trimming

  function TrimLeft(space: char -> bool, s: string): (r: string)
    ensures |r| <= |s| && (r == "" || !space(r[0]))
  {
    if s != "" && space(s[0]) then TrimLeft(space, s[1..]) else s
  }

  function TrimRight(space: char -> bool, s: string): (r: string)
    ensures |r| <= |s| && (r == "" || !space(r[|r| - 1]))
  {
    if s != "" && space(s[|s| - 1]) then TrimRight(space, s[..|s| - 1]) else s
  }

  lemma {:induction false} TrimLeftSuffix(space: char -> bool, s: string)
    ensures s[|s| - |TrimLeft(space, s)|..] == TrimLeft(space, s)
    decreases |s|
  {
    if s != "" && space(s[0]) { TrimLeftSuffix(space, s[1..]); }
  }

  lemma {:induction false} TrimRightPrefix(space: char -> bool, s: string)
    ensures s[..|TrimRight(space, s)|] == TrimRight(space, s)
    decreases |s|
  {
    if s != "" && space(s[|s| - 1]) { TrimRightPrefix(space, s[..|s| - 1]); }
  }

  function Trim(space: char -> bool, s: string): string {
    TrimRight(space, TrimLeft(space, s))
  }

  predicate Trimmed(space: char -> bool, s: string) {
    s == "" || (!space(s[0]) && !space(s[|s| - 1]))
  }

  /** Trimming leaves exactly the strings that neither begin nor end with a space. */
  lemma TrimFixes(space: char -> bool, s: string)
    ensures Trimmed(space, Trim(space, s))
    ensures Trimmed(space, s) ==> Trim(space, s) == s
  {
    var left := TrimLeft(space, s);
    TrimRightPrefix(space, left);
    if Trim(space, s) != "" { assert Trim(space, s)[0] == left[0]; }
  }

  lemma {:induction false} TrimLeftKeeps(space: char -> bool, s: string)
    ensures forall c :: c in TrimLeft(space, s) ==> c in s
    decreases |s|
  {
    if s != "" && space(s[0]) { TrimLeftKeeps(space, s[1..]); }
  }

  lemma {:induction false} TrimRightKeeps(space: char -> bool, s: string)
    ensures forall c :: c in TrimRight(space, s) ==> c in s
    decreases |s|
  {
    if s != "" && space(s[|s| - 1]) { TrimRightKeeps(space, s[..|s| - 1]); }
  }

  lemma TrimKeepsChars(space: char -> bool, s: string)
    ensures forall c :: c in Trim(space, s) ==> c in s
  {
    TrimLeftKeeps(space, s);
    TrimRightKeeps(space, TrimLeft(space, s));
  }

  predicate All(ok: char -> bool, s: string) {
    forall i :: 0 <= i < |s| ==> ok(s[i])
  }

  lemma {:induction false} TrimLeftAppend(ok: char -> bool, run: string, rest: string)
    requires All(ok, run) && (rest == "" || !ok(rest[0]))
    ensures TrimLeft(ok, run + rest) == rest
  {
    var whole := run + rest;
    if run == "" {
      assert whole == rest;
    } else {
      assert whole[0] == run[0] && ok(run[0]);
      assert whole[1..] == run[1..] + rest;
      hide TrimLeft;
      TrimLeftAppend(ok, run[1..], rest);
      TrimLeftStep(ok, whole);
    }
  }

  lemma TrimLeftStep(ok: char -> bool, s: string)
    requires s != "" && ok(s[0])
    ensures TrimLeft(ok, s) == TrimLeft(ok, s[1..])
  {
  }

  /** What is trimmed away. */
  function Run(ok: char -> bool, s: string): string {
    s[..|s| - |TrimLeft(ok, s)|]
  }

  lemma RunAppend(ok: char -> bool, run: string, rest: string)
    requires All(ok, run) && (rest == "" || !ok(rest[0]))
    ensures TrimLeft(ok, run + rest) == rest && Run(ok, run + rest) == run
  {
    TrimLeftAppend(ok, run, rest);
    hide TrimLeft;
    assert (run + rest)[..|run|] == run;
  }

  lemma {:induction false} RunIsAll(ok: char -> bool, s: string)
    ensures All(ok, Run(ok, s))
  {
    if s != "" && ok(s[0]) {
      RunIsAll(ok, s[1..]);
      TrimLeftStep(ok, s);
      hide TrimLeft;
      var run, shorter := Run(ok, s), Run(ok, s[1..]);
      forall i | 0 <= i < |run| ensures ok(run[i]) {
        if i > 0 { assert run[i] == s[1..][i - 1] == shorter[i - 1]; }
      }
    }
  }

  lemma {:induction false} TrimRightCuts(space: char -> bool, s: string)
    ensures All(space, s[|TrimRight(space, s)|..])
    decreases |s|
  {
    if s != "" && space(s[|s| - 1]) {
      var init := s[..|s| - 1];
      TrimRightCuts(space, init);
      assert TrimRight(space, s) == TrimRight(space, init);
      hide TrimRight;
      var n := |TrimRight(space, init)|;
      forall i | 0 <= i < |s[n..]| ensures space(s[n..][i]) {
        if n + i < |s| - 1 { assert s[n..][i] == init[n..][i]; }
      }
    }
  }

  lemma RunSplits(ok: char -> bool, s: string)
    ensures s == Run(ok, s) + TrimLeft(ok, s)
  {
    TrimLeftSuffix(ok, s);
  }

  lemma RightSplits(space: char -> bool, s: string)
    ensures s == TrimRight(space, s) + s[|TrimRight(space, s)|..]
  {
    TrimRightPrefix(space, s);
  }

  lemma Regroup(a: string, b: string, c: string)
    ensures a + (b + c) == a + b + c
  {
  }

  /** Trimming cuts nothing but spaces, and only at the ends. */
  lemma TrimCuts(space: char -> bool, s: string)
    ensures exists before, after :: s == before + Trim(space, s) + after && All(space, before) && All(space, after)
  {
    hide All, TrimLeft, TrimRight, Run;
    var left := TrimLeft(space, s);
    var both := TrimRight(space, left);
    var before, after := Run(space, s), left[|both|..];
    RunIsAll(space, s);
    RunSplits(space, s);
    TrimRightCuts(space, left);
    RightSplits(space, left);
    Regroup(before, both, after);
    assert s == before + Trim(space, s) + after && All(space, before) && All(space, after);
  }

  /** Go's unicode.IsSpace. */
  predicate GoSpace(c: char) {
    || '\t' <= c <= '\r' || c == ' ' || c == '\U{0085}' || c == '\U{00A0}' || c == '\U{1680}'
    || '\U{2000}' <= c <= '\U{200A}' || c == '\U{2028}' || c == '\U{2029}' || c == '\U{202F}'
    || c == '\U{205F}' || c == '\U{3000}'
  }

  /** Go's strings.TrimSpace. */
  function TrimSpace(s: string): string {
    Trim(GoSpace, s)
  }

  predicate HasPrefix(s: string, p: string) {
    p <= s
  }

  predicate HasSuffix(s: string, p: string) {
    |p| <= |s| && s[|s| - |p|..] == p
  }

  /** Go's strings.ReplaceAll for a pattern of one character. */
  function ReplaceAll(s: string, what: char, with: string): string {
    if s == "" then ""
    else (if s[0] == what then with else [s[0]]) + ReplaceAll(s[1..], what, with)
  }
}
