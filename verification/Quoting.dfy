/** The shell script that a purge hands to git's index filter, and a reader of the shell's quoting
    rules (sections 2.2 and 2.3 of the Shell Command Language, IEEE Std 1003.1). */
module Quoting {
  import opened Common

  const QUOTE := '\''

  function ShellQuote(s: string): string {
    "'" + ReplaceAll(s, QUOTE, "'\\''") + "'"
  }

  const REMOVE := "git rm -r --cached --ignore-unmatch -- "

  const REMOVE_WORDS := ["git", "rm", "-r", "--cached", "--ignore-unmatch", "--"]

  function FilterScript(paths: seq<string>): string {
    if paths == [] then ""
    else FilterScript(paths[..|paths| - 1]) + REMOVE + ShellQuote(paths[|paths| - 1]) + "; "
  }

  /** The loop in PurgePaths that writes the script. */
  method BuildFilter(paths: seq<string>) returns (filter: string)
    ensures filter == FilterScript(paths)
  {
    filter := "";
    for i := 0 to |paths|
      invariant filter == FilterScript(paths[..i])
    {
      assert paths[..i + 1][..i] == paths[..i];
      filter := filter + REMOVE;
      filter := filter + ShellQuote(paths[i]);
      filter := filter + "; ";
    }
    assert paths[..|paths|] == paths;
  }

  // ------------------------------------------------------------------ the reader

  datatype Mode = Bare | Quoted | Escaped

  /** The commands read so far, the words of the current one, and the word being read. */
  datatype Reader = Reader(mode: Mode, commands: seq<seq<string>>, words: seq<string>, word: Option<string>)

  const START := Reader(Bare, [], [], None)

  /** Characters that mean something to the shell unquoted and that this reader does not follow:
      expansions, redirections, other operators, patterns, comments, other quotes. */
  predicate Special(c: char) {
    c in "$`\"&|<>()*?[]#~=%!{}\r"
  }

  function TextOf(word: Option<string>): string {
    if word.Some? then word.value else ""
  }

  function EndWord(r: Reader): Reader {
    if r.word.None? then r else r.(words := r.words + [r.word.value], word := None)
  }

  function EndCommand(r: Reader): Reader {
    var e := EndWord(r);
    if e.words == [] then e else e.(commands := e.commands + [e.words], words := [])
  }

  /** One character. None: not a script this reader follows, or not a script at all. */
  function Feed(r: Reader, c: char): Option<Reader> {
    match r.mode
    case Quoted =>
      if c == QUOTE then Some(r.(mode := Bare)) else Some(r.(word := Some(TextOf(r.word) + [c])))
    case Escaped =>
      if c == '\n' then Some(r.(mode := Bare)) else Some(r.(mode := Bare, word := Some(TextOf(r.word) + [c])))
    case Bare =>
      if c == QUOTE then Some(r.(mode := Quoted, word := Some(TextOf(r.word))))
      else if c == '\\' then Some(r.(mode := Escaped))
      else if c == ' ' || c == '\t' then Some(EndWord(r))
      else if c == '\n' then Some(EndCommand(r))
      else if c == ';' then if EndWord(r).words == [] then None else Some(EndCommand(r))
      else if Special(c) then None
      else Some(r.(word := Some(TextOf(r.word) + [c])))
  }

  function FeedAll(r: Reader, s: string): Option<Reader>
    decreases |s|
  {
    if s == "" then Some(r)
    else
      match Feed(r, s[0])
      case None => None
      case Some(next) => FeedAll(next, s[1..])
  }

  /** The commands of a script, each as its list of words. */
  function ReadScript(s: string): Option<seq<seq<string>>> {
    match FeedAll(START, s)
    case None => None
    case Some(r) => if r.mode.Bare? then Some(EndCommand(r).commands) else None
  }

  // ------------------------------------------------------------- what is recovered

  lemma {:induction false} FeedAppend(r: Reader, a: string, b: string)
    ensures FeedAll(r, a + b) == match FeedAll(r, a) case None => None case Some(t) => FeedAll(t, b)
    decreases |a|
  {
    hide Feed;
    if a == "" {
      assert a + b == b;
    } else {
      assert (a + b)[0] == a[0] && (a + b)[1..] == a[1..] + b;
      if Feed(r, a[0]).Some? { FeedAppend(Feed(r, a[0]).value, a[1..], b); }
    }
  }

  lemma FeedTwo(r: Reader, a: string, mid: Reader, b: string)
    requires FeedAll(r, a) == Some(mid)
    ensures FeedAll(r, a + b) == FeedAll(mid, b)
  {
    FeedAppend(r, a, b);
  }

  /** Inside quotes the escaped text reads as the text, whatever its characters. */
  lemma {:induction false} EscapedReads(r: Reader, p: string)
    requires r.mode.Quoted? && r.word.Some?
    ensures FeedAll(r, ReplaceAll(p, QUOTE, "'\\''")) == Some(r.(word := Some(r.word.value + p)))
    decreases |p|
  {
    if p == "" {
      assert r.word.value + p == r.word.value;
    } else {
      var next := r.(word := Some(r.word.value + [p[0]]));
      FirstReads(r, p[0]);
      hide FeedAll;
      EscapedReads(next, p[1..]);
      FeedTwo(r, if p[0] == QUOTE then "'\\''" else [p[0]], next, ReplaceAll(p[1..], QUOTE, "'\\''"));
      assert r.word.value + [p[0]] + p[1..] == r.word.value + p;
    }
  }

  lemma FirstReads(r: Reader, c: char)
    requires r.mode.Quoted? && r.word.Some?
    ensures FeedAll(r, if c == QUOTE then "'\\''" else [c]) == Some(r.(word := Some(r.word.value + [c])))
  {
    if c == QUOTE {
      var s := "'\\''";
      assert s[1..] == "\\''" && s[1..][1..] == "''" && s[1..][1..][1..] == "'";
      var escaped := r.(mode := Escaped);
      assert Feed(r, s[0]) == Some(r.(mode := Bare)) && Feed(r.(mode := Bare), s[1]) == Some(escaped);
      OneCharacter(r.(mode := Bare, word := Some(r.word.value + [c])), '\'');
      assert FeedAll(escaped, "''") == FeedAll(r.(mode := Bare, word := Some(r.word.value + [c])), "'");
    } else {
      OneCharacter(r, c);
    }
  }

  lemma OneCharacter(r: Reader, c: char)
    ensures FeedAll(r, [c]) == Feed(r, c)
  {
  }

  /** A quoted text is one word, and that word is the text. */
  lemma QuoteReads(r: Reader, p: string)
    requires r.mode.Bare? && r.word.None?
    ensures FeedAll(r, ShellQuote(p)) == Some(r.(word := Some(p)))
  {
    hide FeedAll;
    var inside := r.(mode := Quoted, word := Some(""));
    OneCharacter(r, QUOTE);
    EscapedReads(inside, p);
    assert "" + p == p;
    OneCharacter(r.(mode := Quoted, word := Some(p)), QUOTE);
    var inner := ReplaceAll(p, QUOTE, "'\\''");
    assert ShellQuote(p) == [QUOTE] + inner + [QUOTE];
    FeedTwo(r, [QUOTE], inside, inner);
    FeedTwo(r, [QUOTE] + inner, r.(mode := Quoted, word := Some(p)), [QUOTE]);
  }

  predicate Ordinary(c: char) {
    c != QUOTE && c != '\\' && c != ' ' && c != '\t' && c != '\n' && c != ';' && !Special(c)
  }

  lemma {:induction false} WordReads(r: Reader, w: string)
    requires r.mode.Bare? && (forall c :: c in w ==> Ordinary(c)) && (w != "" || r.word.Some?)
    ensures FeedAll(r, w) == Some(r.(word := Some(TextOf(r.word) + w)))
    decreases |w|
  {
    hide Special;
    if w == "" {
      assert TextOf(r.word) + w == TextOf(r.word);
    } else {
      assert w[0] in w;
      WordReads(r.(word := Some(TextOf(r.word) + [w[0]])), w[1..]);
      assert TextOf(r.word) + [w[0]] + w[1..] == TextOf(r.word) + w;
    }
  }

  lemma SpacedWordReads(r: Reader, w: string)
    requires r.mode.Bare? && r.word.None? && w != "" && forall c :: c in w ==> Ordinary(c)
    ensures FeedAll(r, w + " ") == Some(r.(words := r.words + [w]))
  {
    hide FeedAll, Ordinary;
    WordReads(r, w);
    assert "" + w == w;
    OneCharacter(r.(word := Some(w)), ' ');
    FeedTwo(r, w, r.(word := Some(w)), " ");
  }

  function Spaced(words: seq<string>): string {
    if words == [] then "" else words[0] + " " + Spaced(words[1..])
  }

  lemma {:induction false} WordsRead(r: Reader, words: seq<string>)
    requires r.mode.Bare? && r.word.None?
    requires forall i :: 0 <= i < |words| ==> words[i] != "" && forall c :: c in words[i] ==> Ordinary(c)
    ensures FeedAll(r, Spaced(words)) == Some(r.(words := r.words + words))
    decreases |words|
  {
    hide Ordinary;
    if words == [] {
      assert r.words + words == r.words;
    } else {
      var next := r.(words := r.words + [words[0]]);
      SpacedWordReads(r, words[0]);
      WordsRead(next, words[1..]);
      FeedTwo(r, words[0] + " ", next, Spaced(words[1..]));
      assert r.words + [words[0]] + words[1..] == r.words + words;
    }
  }

  predicate Letters(w: string) {
    forall i :: 0 <= i < |w| ==> 'a' <= w[i] <= 'z' || w[i] == '-'
  }

  lemma LettersAreOrdinary(w: string)
    requires Letters(w)
    ensures forall c :: c in w ==> Ordinary(c)
  {
  }

  lemma SpacedCons(w: string, words: seq<string>)
    ensures Spaced([w] + words) == w + " " + Spaced(words)
  {
  }

  lemma Text4()
    ensures "--ignore-unmatch -- " == "--ignore-unmatch" + " " + "-- "
  {
  }

  lemma Text3()
    ensures "--cached --ignore-unmatch -- " == "--cached" + " " + "--ignore-unmatch -- "
  {
  }

  lemma Text2()
    ensures "-r --cached --ignore-unmatch -- " == "-r" + " " + "--cached --ignore-unmatch -- "
  {
  }

  lemma Text1()
    ensures "rm -r --cached --ignore-unmatch -- " == "rm" + " " + "-r --cached --ignore-unmatch -- "
  {
  }

  lemma Text0()
    ensures "git rm -r --cached --ignore-unmatch -- " == "git" + " " + "rm -r --cached --ignore-unmatch -- "
  {
  }

  lemma RemoveIsSpaced()
    ensures REMOVE == Spaced(REMOVE_WORDS)
  {
    hide Spaced;
    SpacedNothing();
    SpacedCons("--", []);
    assert ["--"] + [] == ["--"];
    assert "--" + " " + "" == "-- ";
    SpacedCons("--ignore-unmatch", ["--"]);
    Text4();
    SpacedCons("--cached", ["--ignore-unmatch", "--"]);
    Text3();
    SpacedCons("-r", ["--cached", "--ignore-unmatch", "--"]);
    Text2();
    SpacedCons("rm", ["-r", "--cached", "--ignore-unmatch", "--"]);
    Text1();
    SpacedCons("git", ["rm", "-r", "--cached", "--ignore-unmatch", "--"]);
    Text0();
    SpacedLists();
  }

  lemma SpacedLists()
    ensures ["--ignore-unmatch"] + ["--"] == ["--ignore-unmatch", "--"]
    ensures ["--cached"] + ["--ignore-unmatch", "--"] == ["--cached", "--ignore-unmatch", "--"]
    ensures ["-r"] + ["--cached", "--ignore-unmatch", "--"] == ["-r", "--cached", "--ignore-unmatch", "--"]
    ensures ["rm"] + ["-r", "--cached", "--ignore-unmatch", "--"] == ["rm", "-r", "--cached", "--ignore-unmatch", "--"]
    ensures ["git"] + ["rm", "-r", "--cached", "--ignore-unmatch", "--"]
            == ["git", "rm", "-r", "--cached", "--ignore-unmatch", "--"]
  {
  }

  lemma SpacedNothing()
    ensures Spaced([]) == ""
  {
  }

  lemma RemoveWordsOrdinary()
    ensures forall i :: 0 <= i < |REMOVE_WORDS| ==>
              REMOVE_WORDS[i] != "" && forall c :: c in REMOVE_WORDS[i] ==> Ordinary(c)
  {
    forall i | 0 <= i < |REMOVE_WORDS| ensures Letters(REMOVE_WORDS[i]) {}
    forall i | 0 <= i < |REMOVE_WORDS| ensures forall c :: c in REMOVE_WORDS[i] ==> Ordinary(c) {
      LettersAreOrdinary(REMOVE_WORDS[i]);
    }
  }

  /** What the purge means to run: one removal for each path. */
  function Removals(paths: seq<string>): seq<seq<string>> {
    seq(|paths|, i requires 0 <= i < |paths| => REMOVE_WORDS + [paths[i]])
  }

  /** Read by the shell's rules, the script is exactly one removal command for each path, in order,
      with the path as its one operand, whatever characters the paths hold. */
  lemma ScriptReadsAsPaths(paths: seq<string>)
    ensures var run := ReadScript(FilterScript(paths));
            && run.Some? && |run.value| == |paths|
            && forall i :: 0 <= i < |paths| ==>
                 run.value[i] == ["git", "rm", "-r", "--cached", "--ignore-unmatch", "--", paths[i]]
  {
    hide FeedAll, FilterScript;
    PathsRead(paths);
  }

  lemma {:induction false} PathsRead(paths: seq<string>)
    ensures FeedAll(START, FilterScript(paths)) == Some(Reader(Bare, Removals(paths), [], None))
    decreases |paths|
  {
    hide FeedAll, FilterScript, Removals, ShellQuote;
    if paths == [] {
      NothingRead();
    } else {
      var n := |paths| - 1;
      var before := Reader(Bare, Removals(paths[..n]), [], None);
      PathsRead(paths[..n]);
      RemovalReads(before, paths[n]);
      FeedTwo(START, FilterScript(paths[..n]), before, REMOVE + ShellQuote(paths[n]) + "; ");
      LastPath(paths);
    }
  }

  lemma LastPath(paths: seq<string>)
    requires paths != []
    ensures var n := |paths| - 1;
            && FilterScript(paths) == FilterScript(paths[..n]) + (REMOVE + ShellQuote(paths[n]) + "; ")
            && Removals(paths) == Removals(paths[..n]) + [REMOVE_WORDS + [paths[n]]]
  {
    hide ShellQuote;
    var n := |paths| - 1;
    Regroup(FilterScript(paths[..n]), REMOVE + ShellQuote(paths[n]), "; ");
    Regroup(FilterScript(paths[..n]), REMOVE, ShellQuote(paths[n]));
    RemovalsSnoc(paths);
  }

  lemma RemovalsSnoc(paths: seq<string>)
    requires paths != []
    ensures Removals(paths) == Removals(paths[..|paths| - 1]) + [REMOVE_WORDS + [paths[|paths| - 1]]]
  {
  }

  lemma NothingRead()
    ensures FeedAll(START, FilterScript([])) == Some(START) && Removals([]) == []
  {
  }

  lemma RemovalReads(r: Reader, p: string)
    requires r.mode.Bare? && r.word.None? && r.words == []
    ensures FeedAll(r, REMOVE + ShellQuote(p) + "; ") == Some(r.(commands := r.commands + [REMOVE_WORDS + [p]]))
  {
    hide FeedAll, ShellQuote, Spaced;
    RemoveIsSpaced();
    RemoveWordsOrdinary();
    WordsRead(r, REMOVE_WORDS);
    var words := r.(words := [] + REMOVE_WORDS);
    QuoteReads(words, p);
    var quoted := words.(word := Some(p));
    var done := r.(commands := r.commands + [REMOVE_WORDS + [p]]);
    assert [] + REMOVE_WORDS == REMOVE_WORDS;
    OneCharacter(quoted, ';');
    OneCharacter(done, ' ');
    FeedTwo(r, REMOVE, words, ShellQuote(p));
    FeedTwo(r, REMOVE + ShellQuote(p), quoted, ";");
    FeedTwo(r, REMOVE + ShellQuote(p) + ";", done, " ");
    assert REMOVE + ShellQuote(p) + "; " == REMOVE + ShellQuote(p) + ";" + " ";
  }
}
