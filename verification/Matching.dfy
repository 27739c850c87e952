/** What the two kinds of search query match: the escaped LIKE patterns used for short terms, and
    the quoted phrases handed to the full-text engine. */
module Matching {
  import opened Common

  // ------------------------------------------------------------------------ LIKE

  function Lower(c: char): char {
    if 'A' <= c <= 'Z' then (c as int + 32) as char else c
  }

  predicate Same(a: char, b: char) {
    Lower(a) == Lower(b)
  }

  /** SQLite's LIKE with the backslash as escape character. */
  predicate Like(pattern: string, s: string)
    decreases |pattern| + |s|
  {
    if pattern == "" then s == ""
    else if pattern[0] == '%' then Like(pattern[1..], s) || (s != "" && Like(pattern, s[1..]))
    else if pattern[0] == '_' then s != "" && Like(pattern[1..], s[1..])
    else if pattern[0] == '\\' then |pattern| > 1 && s != "" && Same(pattern[1], s[0]) && Like(pattern[2..], s[1..])
    else s != "" && Same(pattern[0], s[0]) && Like(pattern[1..], s[1..])
  }

  function EscapeLike(s: string): string {
    ReplaceAll(ReplaceAll(ReplaceAll(s, '\\', "\\\\"), '%', "\\%"), '_', "\\_")
  }

  /** The escape of one character. */
  function Escaped(c: char): string {
    if c == '\\' || c == '%' || c == '_' then ['\\', c] else [c]
  }

  function EscapedAll(s: string): string {
    if s == "" then "" else Escaped(s[0]) + EscapedAll(s[1..])
  }

  lemma {:induction false} ReplaceAppend(a: string, b: string, what: char, with: string)
    ensures ReplaceAll(a + b, what, with) == ReplaceAll(a, what, with) + ReplaceAll(b, what, with)
    decreases |a|
  {
    if a == "" {
      assert a + b == b;
    } else {
      assert (a + b)[0] == a[0] && (a + b)[1..] == a[1..] + b;
      ReplaceAppend(a[1..], b, what, with);
    }
  }

  lemma ReplaceShort(s: string, what: char, with: string)
    requires |s| <= 2
    ensures ReplaceAll(s, what, with) ==
            if s == "" then ""
            else (if s[0] == what then with else [s[0]])
                 + if |s| == 1 then "" else if s[1] == what then with else [s[1]]
  {
  }

  /** The three replacements in their order escape each character once. */
  lemma {:induction false} EscapeIsCharwise(s: string)
    ensures EscapeLike(s) == EscapedAll(s)
    decreases |s|
  {
    if s != "" {
      var c, rest := [s[0]], s[1..];
      assert s == c + rest;
      EscapeIsCharwise(rest);
      EscapeFirst(s[0]);
      hide ReplaceAll;
      var one, two := ReplaceAll(c, '\\', "\\\\"), ReplaceAll(rest, '\\', "\\\\");
      ReplaceAppend(c, rest, '\\', "\\\\");
      ReplaceAppend(one, two, '%', "\\%");
      ReplaceAppend(ReplaceAll(one, '%', "\\%"), ReplaceAll(two, '%', "\\%"), '_', "\\_");
    }
  }

  lemma EscapeFirst(c: char)
    ensures EscapeLike([c]) == Escaped(c)
  {
    var one := ReplaceAll([c], '\\', "\\\\");
    ReplaceShort([c], '\\', "\\\\");
    hide ReplaceAll;
    ReplaceShort(one, '%', "\\%");
    var two := ReplaceAll(one, '%', "\\%");
    assert one == if c == '\\' then "\\\\" else [c];
    assert two == if c == '\\' then "\\\\" else if c == '%' then "\\%" else [c];
    ReplaceShort(two, '_', "\\_");
  }

  predicate SameText(a: string, b: string) {
    |a| == |b| && forall i :: 0 <= i < |a| ==> Same(a[i], b[i])
  }

  /** The term occurs at `i`, up to ASCII case. */
  predicate OccursAt(term: string, s: string, i: nat) {
    i + |term| <= |s| && SameText(term, s[i..i + |term|])
  }

  lemma {:induction false} PercentMatchesAll(s: string)
    ensures Like("%", s)
    decreases |s|
  {
    assert "%"[1..] == "";
    if s != "" { PercentMatchesAll(s[1..]); }
  }

  /** An escaped term followed by "%" matches the texts that begin with the term. */
  lemma {:induction false} EscapedPrefix(term: string, s: string)
    ensures Like(EscapedAll(term) + "%", s) <==> OccursAt(term, s, 0)
    decreases |term|
  {
    if term == "" {
      assert EscapedAll(term) + "%" == "%";
      PercentMatchesAll(s);
    } else {
      var pattern, rest := EscapedAll(term) + "%", EscapedAll(term[1..]) + "%";
      assert pattern == Escaped(term[0]) + rest;
      assert pattern[|Escaped(term[0])|..] == rest;
      if s != "" {
        EscapedPrefix(term[1..], s[1..]);
        OccursNext(term, s);
      }
    }
  }

  lemma OccursNext(term: string, s: string)
    requires term != "" && s != ""
    ensures OccursAt(term, s, 0) <==> Same(term[0], s[0]) && OccursAt(term[1..], s[1..], 0)
  {
  }

  /** The pattern of a query term matches exactly the contents that hold the term, up to ASCII
      case: no character of the term acts as a wildcard. */
  lemma LikeIsLiteral(term: string, content: string)
    ensures Like("%" + EscapeLike(term) + "%", content) <==> exists i: nat :: OccursAt(term, content, i)
  {
    EscapeIsCharwise(term);
    assert "%" + EscapedAll(term) + "%" == "%" + (EscapedAll(term) + "%");
    PercentFirst(term, content);
  }

  lemma OccursLater(term: string, s: string, i: nat)
    requires i > 0 && s != ""
    ensures OccursAt(term, s, i) <==> OccursAt(term, s[1..], i - 1)
  {
  }

  lemma {:induction false} PercentFirst(term: string, s: string)
    ensures Like("%" + (EscapedAll(term) + "%"), s) <==> exists i: nat :: OccursAt(term, s, i)
    decreases |s|
  {
    var pattern := "%" + (EscapedAll(term) + "%");
    assert pattern[1..] == EscapedAll(term) + "%";
    EscapedPrefix(term, s);
    if s != "" {
      PercentFirst(term, s[1..]);
      forall i: nat | i > 0 ensures OccursAt(term, s, i) <==> OccursAt(term, s[1..], i - 1) {
        OccursLater(term, s, i);
      }
      if i: nat :| OccursAt(term, s[1..], i) { assert OccursAt(term, s, i + 1); }
      if i: nat :| i > 0 && OccursAt(term, s, i) { assert OccursAt(term, s[1..], i - 1); }
    }
  }

  // ------------------------------------------------------------------- phrases

  predicate NoSpace(c: char) { !GoSpace(c) }

  /** strings.Fields. */
  function Fields(s: string): seq<string>
    decreases |s|
  {
    var t := TrimLeft(GoSpace, s);
    if t == "" then []
    else
      var rest := TrimLeft(NoSpace, t);
      assert rest == TrimLeft(NoSpace, t[1..]);
      [Run(NoSpace, t)] + Fields(rest)
  }

  function Phrase(word: string): string {
    "\"" + ReplaceAll(word, '"', "\"\"") + "\""
  }

  function MatchExpr(words: seq<string>): string {
    if words == [] then ""
    else if |words| == 1 then Phrase(words[0])
    else Phrase(words[0]) + " " + MatchExpr(words[1..])
  }

  function Phrases(words: seq<string>): seq<string> {
    seq(|words|, i requires 0 <= i < |words| => Phrase(words[i]))
  }

  /** buildMatchExpr. */
  method BuildMatchExpr(q: string) returns (expr: string)
    ensures expr == MatchExpr(Fields(q))
  {
    var fields := Fields(q);
    var quoted: seq<string> := [];
    for i := 0 to |fields|
      invariant quoted == Phrases(fields[..i])
    {
      quoted := quoted + ["\"" + ReplaceAll(fields[i], '"', "\"\"") + "\""];
      assert fields[..i + 1] == fields[..i] + [fields[i]];
    }
    assert fields[..|fields|] == fields;
    JoinPhrases(fields);
    expr := Join(quoted, ' ');
  }

  lemma {:induction false} JoinPhrases(words: seq<string>)
    ensures Join(Phrases(words), ' ') == MatchExpr(words)
    decreases |words|
  {
    if |words| > 1 {
      JoinPhrases(words[1..]);
      assert Phrases(words)[1..] == Phrases(words[1..]);
    }
  }

  datatype Cut = Cut(text: string, rest: string)

  /** The rest of a phrase after its opening quote: a doubled quote stands for one. */
  function ReadPhrase(s: string): Option<Cut> {
    if s == "" then None
    else if s[0] != '"' then
      match ReadPhrase(s[1..])
      case None => None
      case Some(cut) => Some(Cut([s[0]] + cut.text, cut.rest))
    else if |s| > 1 && s[1] == '"' then
      match ReadPhrase(s[2..])
      case None => None
      case Some(cut) => Some(Cut("\"" + cut.text, cut.rest))
    else Some(Cut("", s[1..]))
  }

  /** A query made of phrases only; None when it holds anything else. */
  function ReadPhrases(s: string): Option<seq<string>>
    decreases |s|
  {
    if s == "" then Some([])
    else if s[0] == ' ' then ReadPhrases(s[1..])
    else if s[0] != '"' then None
    else
      match ReadPhrase(s[1..])
      case None => None
      case Some(cut) =>
        if |cut.rest| >= |s| then None
        else
          match ReadPhrases(cut.rest)
          case None => None
          case Some(more) => Some([cut.text] + more)
  }

  lemma {:induction false} PhraseReads(word: string, rest: string)
    requires rest == "" || rest[0] != '"'
    ensures ReadPhrase(ReplaceAll(word, '"', "\"\"") + "\"" + rest) == Some(Cut(word, rest))
    decreases |word|
  {
    var s := ReplaceAll(word, '"', "\"\"") + "\"" + rest;
    if word == "" {
      assert s == "\"" + rest && s[1..] == rest;
    } else {
      PhraseReads(word[1..], rest);
      var tail := ReplaceAll(word[1..], '"', "\"\"") + "\"" + rest;
      if word[0] == '"' {
        assert s == "\"\"" + tail && s[2..] == tail;
      } else {
        assert s == [word[0]] + tail && s[1..] == tail;
      }
      assert word == [word[0]] + word[1..];
    }
  }

  /** Whatever its words hold, the expression reads as exactly those words, one phrase each. */
  lemma {:induction false} ExprReadsAsWords(words: seq<string>)
    ensures ReadPhrases(MatchExpr(words)) == Some(words)
    decreases |words|
  {
    hide ReplaceAll, ReadPhrase, ReadPhrases, MatchExpr;
    if words == [] {
      NoWords();
    } else {
      ExprReadsAsWords(words[1..]);
      ExprStep(words);
      assert words == [words[0]] + words[1..];
    }
  }

  lemma NoWords()
    ensures ReadPhrases(MatchExpr([])) == Some([])
  {
  }

  lemma ReadStep(inner: string, text: string, rest: string, more: seq<string>)
    requires ReadPhrase(inner) == Some(Cut(text, rest)) && |rest| <= |inner| && ReadPhrases(rest) == Some(more)
    ensures ReadPhrases("\"" + inner) == Some([text] + more)
  {
  }

  lemma SpaceStep(s: string)
    ensures ReadPhrases(" " + s) == ReadPhrases(s)
  {
  }

  lemma ExprStep(words: seq<string>)
    requires words != [] && ReadPhrases(MatchExpr(words[1..])) == Some(words[1..])
    ensures ReadPhrases(MatchExpr(words)) == Some([words[0]] + words[1..])
  {
    hide ReplaceAll, ReadPhrase, ReadPhrases;
    var rest := if |words| == 1 then "" else " " + MatchExpr(words[1..]);
    var inner := ReplaceAll(words[0], '"', "\"\"") + "\"" + rest;
    PhraseReads(words[0], rest);
    if |words| > 1 { SpaceStep(MatchExpr(words[1..])); }
    ReadStep(inner, words[0], rest, words[1..]);
    assert MatchExpr(words) == "\"" + inner;
  }

  // ---------------------------------------------------------------- the words themselves

  predicate Word(w: string) {
    w != "" && All(NoSpace, w)
  }

  lemma FieldsStep(s: string)
    ensures var t := TrimLeft(GoSpace, s);
            && (t == "" ==> Fields(s) == [])
            && (t != "" ==> Fields(s) == [Run(NoSpace, t)] + Fields(TrimLeft(NoSpace, t)))
            && (t != "" ==> |TrimLeft(NoSpace, t)| < |t| <= |s| && !GoSpace(t[0]) && Run(NoSpace, t) != "")
  {
  }

  lemma {:induction false} FieldsAreWords(s: string)
    ensures forall i :: 0 <= i < |Fields(s)| ==> Word(Fields(s)[i])
    decreases |s|
  {
    hide GoSpace, NoSpace, All, TrimLeft, Fields, Run;
    var t := TrimLeft(GoSpace, s);
    FieldsStep(s);
    if t != "" {
      RunIsAll(NoSpace, t);
      FieldsAreWords(TrimLeft(NoSpace, t));
    }
  }

  /** Words set apart by white space of any kind and length, with white space around them. */
  ghost predicate Separated(s: string, words: seq<string>)
    decreases |words|
  {
    if words == [] then All(GoSpace, s)
    else
      exists gap, rest ::
        && s == gap + (words[0] + rest) && All(GoSpace, gap)
        && (rest == "" || GoSpace(rest[0])) && Separated(rest, words[1..])
  }

  /** The words of a query are those that its white space sets apart. */
  lemma {:induction false} FieldsExactly(s: string, words: seq<string>)
    requires forall i :: 0 <= i < |words| ==> Word(words[i])
    ensures Separated(s, words) <==> Fields(s) == words
    decreases |s|
  {
    if Separated(s, words) { SeparatedFields(s, words); }
    if Fields(s) == words { FieldsSeparated(s); }
  }

  lemma FirstField(gap: string, word: string, rest: string)
    requires All(GoSpace, gap) && Word(word) && (rest == "" || GoSpace(rest[0]))
    ensures Fields(gap + (word + rest)) == [word] + Fields(rest)
  {
    hide GoSpace, TrimLeft, Fields, Run;
    assert (word + rest)[0] == word[0] && NoSpace(word[0]);
    RunAppend(GoSpace, gap, word + rest);
    RunAppend(NoSpace, word, rest);
    FieldsStep(gap + (word + rest));
  }

  lemma NoField(gap: string)
    requires All(GoSpace, gap)
    ensures Fields(gap) == []
  {
    RunAppend(GoSpace, gap, "");
    assert gap + "" == gap;
  }

  lemma {:induction false} SeparatedFields(s: string, words: seq<string>)
    requires Separated(s, words) && forall i :: 0 <= i < |words| ==> Word(words[i])
    ensures Fields(s) == words
    decreases |words|
  {
    hide GoSpace, Fields, Word, All;
    if words == [] {
      NoField(s);
    } else {
      var gap, rest :|
        && s == gap + (words[0] + rest) && All(GoSpace, gap)
        && (rest == "" || GoSpace(rest[0])) && Separated(rest, words[1..]);
      SeparatedFields(rest, words[1..]);
      FirstField(gap, words[0], rest);
    }
  }

  lemma {:induction false} FieldsSeparated(s: string)
    ensures Separated(s, Fields(s))
    decreases |s|
  {
    hide GoSpace, TrimLeft, Fields, Run, All;
    var t := TrimLeft(GoSpace, s);
    FieldsStep(s);
    RunIsAll(GoSpace, s);
    RunSplits(GoSpace, s);
    if t == "" {
      assert Run(GoSpace, s) + "" == Run(GoSpace, s);
    } else {
      var rest := TrimLeft(NoSpace, t);
      RunSplits(NoSpace, t);
      FieldsSeparated(rest);
      assert Fields(s)[1..] == Fields(rest);
      assert rest == "" || GoSpace(rest[0]);
      assert s == Run(GoSpace, s) + (Fields(s)[0] + rest);
    }
  }
}
