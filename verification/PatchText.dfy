/** The patterns of the patch parser, one line at a time: hunk headers, and markdown headings
    inside changed documents. */
module PatchText {
  import opened Common

  /** White space as JavaScript's trim and \s see it. */
  predicate JsSpace(c: char) {
    || '\t' <= c <= '\r' || c == ' ' || c == '\U{00A0}' || c == '\U{1680}' || '\U{2000}' <= c <= '\U{200A}'
    || c == '\U{2028}' || c == '\U{2029}' || c == '\U{202F}' || c == '\U{205F}' || c == '\U{3000}' || c == '\U{FEFF}'
  }

  /** What the dot of a pattern does not match. */
  predicate LineEnd(c: char) {
    c == '\n' || c == '\r' || c == '\U{2028}' || c == '\U{2029}'
  }

  predicate OneLine(s: string) {
    forall c :: c in s ==> !LineEnd(c)
  }

  predicate Digit(c: char) { '0' <= c <= '9' }

  predicate Hash(c: char) { c == '#' }

  function JsTrim(s: string): string {
    Trim(JsSpace, s)
  }

  // -------------------------------------------------------------------- numbers

  function Value(digits: string): nat
    requires All(Digit, digits)
  {
    if digits == "" then 0
    else
      var n := |digits| - 1;
      assert Digit(digits[n]);
      Value(digits[..n]) * 10 + (digits[n] as int - '0' as int)
  }

  function Decimal(n: nat): (digits: string)
    ensures digits != "" && All(Digit, digits) && Value(digits) == n
  {
    var last := ('0' as int + n % 10) as char;
    if n < 10 then
      assert [last][..0] == "" && Value([last]) == Value("") * 10 + n;
      [last]
    else
      var init := Decimal(n / 10);
      assert (init + [last])[..|init|] == init;
      init + [last]
  }

  // --------------------------------------------------------------- hunk headers

  datatype Header = Header(oldStart: nat, newStart: nat, heading: string)

  datatype Range = Range(start: nat, rest: string)

  /** The pattern \d+(?:,\d+)? at the front of a text. */
  function ParseRange(s: string): Option<Range> {
    var run, rest := Run(Digit, s), TrimLeft(Digit, s);
    RunIsAll(Digit, s);
    if run == "" then None
    else if rest != "" && rest[0] == ',' && Run(Digit, rest[1..]) != ""
      then Some(Range(Value(run), TrimLeft(Digit, rest[1..])))
    else Some(Range(Value(run), rest))
  }

  function ParseHeader(line: string): Option<Header> {
    if !HasPrefix(line, "@@ -") then None
    else
      match ParseRange(line[4..])
      case None => None
      case Some(before) =>
        if !HasPrefix(before.rest, " +") then None
        else
          match ParseRange(before.rest[2..])
          case None => None
          case Some(after) =>
            if !HasPrefix(after.rest, " @@") then None
            else
              var heading := TrimLeft(JsSpace, after.rest[3..]);
              if OneLine(heading) then Some(Header(before.start, after.start, JsTrim(heading))) else None
  }

  function PrintRange(start: nat, count: nat): string {
    Decimal(start) + "," + Decimal(count)
  }

  lemma RangePrinted(start: nat, count: nat, rest: string)
    requires rest != "" && !Digit(rest[0])
    ensures ParseRange(PrintRange(start, count) + rest) == Some(Range(start, rest))
  {
    hide TrimLeft, Run, Value, Decimal;
    var tail := "," + (Decimal(count) + rest);
    assert PrintRange(start, count) + rest == Decimal(start) + tail;
    RunAppend(Digit, Decimal(start), tail);
    assert tail[1..] == Decimal(count) + rest;
    RunAppend(Digit, Decimal(count), rest);
  }

  function PrintHeader(h: Header, oldCount: nat, newCount: nat): string {
    "@@ -" + PrintRange(h.oldStart, oldCount) + " +" + PrintRange(h.newStart, newCount) + " @@"
    + if h.heading == "" then "" else " " + h.heading
  }

  lemma HeaderFound(line: string, first: string, second: string, third: string, before: nat, after: nat)
    requires line == "@@ -" + first && ParseRange(first) == Some(Range(before, " +" + second))
    requires ParseRange(second) == Some(Range(after, " @@" + third))
    ensures ParseHeader(line) == if OneLine(TrimLeft(JsSpace, third))
                                 then Some(Header(before, after, JsTrim(TrimLeft(JsSpace, third)))) else None
  {
    hide ParseRange, TrimLeft, JsTrim, OneLine;
    assert line[4..] == first;
    assert (" +" + second)[2..] == second;
    assert (" @@" + third)[3..] == third;
  }

  /** A printed header is read back, its heading trimmed. */
  lemma HeaderPrinted(h: Header, oldCount: nat, newCount: nat)
    requires OneLine(h.heading)
    ensures ParseHeader(PrintHeader(h, oldCount, newCount)) == Some(h.(heading := JsTrim(h.heading)))
  {
    hide ParseRange, PrintRange, TrimLeft, JsTrim, OneLine, ParseHeader;
    var third := if h.heading == "" then "" else " " + h.heading;
    var second := PrintRange(h.newStart, newCount) + (" @@" + third);
    var first := PrintRange(h.oldStart, oldCount) + (" +" + second);
    RangePrinted(h.oldStart, oldCount, " +" + second);
    RangePrinted(h.newStart, newCount, " @@" + third);
    HeaderJoins(PrintRange(h.oldStart, oldCount), PrintRange(h.newStart, newCount), third);
    HeaderFound(PrintHeader(h, oldCount, newCount), first, second, third, h.oldStart, h.newStart);
    TitleTrims(h.heading);
  }

  lemma HeaderJoins(before: string, after: string, title: string)
    ensures "@@ -" + before + " +" + after + " @@" + title == "@@ -" + (before + (" +" + (after + (" @@" + title))))
  {
  }

  lemma TitleTrims(heading: string)
    requires OneLine(heading)
    ensures var title := if heading == "" then "" else " " + heading;
            OneLine(TrimLeft(JsSpace, title)) && JsTrim(TrimLeft(JsSpace, title)) == JsTrim(heading)
  {
    if heading != "" {
      var title := " " + heading;
      assert title[1..] == heading;
      assert TrimLeft(JsSpace, title) == TrimLeft(JsSpace, heading);
    }
    TrimLeftKeeps(JsSpace, heading);
  }

  lemma HeaderFacts(line: string)
    requires ParseHeader(line).Some?
    ensures OneLine(ParseHeader(line).value.heading) && Trimmed(JsSpace, ParseHeader(line).value.heading)
  {
    hide ParseRange;
    var after := ParseRange(ParseRange(line[4..]).value.rest[2..]).value.rest;
    var heading := TrimLeft(JsSpace, after[3..]);
    TrimFixes(JsSpace, heading);
    TrimKeepsChars(JsSpace, heading);
  }

  // ----------------------------------------------------------- markdown headings

  /** The end of a heading line: white space, then any number of hashes. */
  predicate Closing(s: string) {
    TrimLeft(Hash, TrimLeft(JsSpace, s)) == ""
  }

  /** The shortest text of at least `n` characters, on one line, that leaves a closing. */
  function Shortest(s: string, n: nat): (title: Option<string>)
    requires 0 < n && OneLine(s[..if n <= |s| then n - 1 else |s|])
    ensures title.Some? ==> title.value != "" && OneLine(title.value) && title.value <= s && Closing(s[|title.value|..])
    decreases |s| + 1 - n
  {
    if n > |s| || LineEnd(s[n - 1]) then None
    else
      assert forall c :: c in s[..n] ==> c in s[..n - 1] || c == s[n - 1];
      if Closing(s[n..]) then Some(s[..n]) else Shortest(s, n + 1)
  }

  /** The title behind the hashes, when `w` of the white space there is taken first and then,
      failing that, less of it, down to one. */
  function TitleAfter(s: string, w: nat): (title: Option<string>)
    requires w <= |s|
    ensures title.Some? ==> title.value != "" && OneLine(title.value)
  {
    if w == 0 then None
    else
      var title := Shortest(s[w..], 1);
      if title.Some? then title else TitleAfter(s, w - 1)
  }

  /** The text of a markdown heading line, if it is one: at most three characters of white space,
      one to six hashes, white space and a title. */
  function HeadingTitle(content: string): (title: Option<string>)
    ensures title.Some? ==> title.value != "" && OneLine(title.value)
  {
    var line := TrimLeft(JsSpace, content);
    var rest := TrimLeft(Hash, line);
    TitleOf(|content| - |line|, |line| - |rest|, rest, TrimLeft(JsSpace, rest))
  }

  function TitleOf(indent: nat, hashes: nat, rest: string, body: string): (title: Option<string>)
    requires |body| <= |rest|
    ensures title.Some? ==> title.value != "" && OneLine(title.value)
  {
    if indent > 3 || hashes < 1 || hashes > 6 then None else TitleAfter(rest, |rest| - |body|)
  }

  lemma {:induction false} ClosingChars(s: string)
    ensures Closing(s) ==> forall c :: c in s ==> JsSpace(c) || Hash(c)
  {
    RunIsAll(JsSpace, s);
    var rest := TrimLeft(JsSpace, s);
    RunIsAll(Hash, rest);
    RunSplits(JsSpace, s);
    if Closing(s) { assert Run(Hash, rest) == rest; }
  }

  lemma NotClosing(s: string, title: string, n: nat)
    requires 0 < n < |title| && title <= s && !JsSpace(title[|title| - 1]) && !Hash(title[|title| - 1])
    ensures !Closing(s[n..])
  {
    hide Closing, JsSpace, Hash;
    ClosingChars(s[n..]);
    assert s[n..][|title| - 1 - n] == title[|title| - 1];
  }

  lemma OneLinePrefix(s: string, title: string, n: nat)
    requires n <= |title| && title <= s && OneLine(title)
    ensures OneLine(s[..n]) && (n > 0 ==> !LineEnd(s[n - 1]))
  {
  }

  lemma {:induction false} ShortestIs(s: string, n: nat, title: string)
    requires 0 < n <= |title| <= |s| && title <= s && OneLine(title) && Closing(s[|title|..])
    requires !JsSpace(title[|title| - 1]) && !Hash(title[|title| - 1])
    requires OneLine(s[..n - 1])
    ensures Shortest(s, n) == Some(title)
    decreases |title| - n
  {
    hide Closing, JsSpace, Hash, OneLine, LineEnd;
    OneLinePrefix(s, title, n);
    if n < |title| {
      NotClosing(s, title, n);
      ShortestIs(s, n + 1, title);
    } else {
      assert s[..n] == title;
    }
  }

  lemma BlankThenHash(hashes: string, gap: string, body: string)
    requires hashes != "" && All(Hash, hashes) && gap != "" && All(JsSpace, gap) && body != ""
    ensures !JsSpace((hashes + (gap + body))[0]) && !Hash((gap + body)[0]) && (gap + body)[0] == gap[0]
  {
  }

  lemma HeadingParts(content: string, line: string, rest: string, body: string)
    requires TrimLeft(JsSpace, content) == line && TrimLeft(Hash, line) == rest && TrimLeft(JsSpace, rest) == body
    ensures |body| <= |rest| <= |line| <= |content|
    ensures HeadingTitle(content) == TitleOf(|content| - |line|, |line| - |rest|, rest, body)
  {
  }

  lemma HeadingShape(indent: string, hashes: string, gap: string, body: string)
    requires |indent| <= 3 && All(JsSpace, indent) && 1 <= |hashes| <= 6 && All(Hash, hashes)
    requires gap != "" && All(JsSpace, gap) && body != "" && !JsSpace(body[0])
    ensures HeadingTitle(indent + (hashes + (gap + body))) == TitleAfter(gap + body, |gap|)
  {
    hide TrimLeft, TitleAfter, HeadingTitle, All, JsSpace, Hash, OneLine;
    BlankThenHash(hashes, gap, body);
    TrimLeftAppend(JsSpace, indent, hashes + (gap + body));
    TrimLeftAppend(Hash, hashes, gap + body);
    TrimLeftAppend(JsSpace, gap, body);
    HeadingParts(indent + (hashes + (gap + body)), hashes + (gap + body), gap + body, body);
  }

  /** A heading of one to six hashes, indented by at most three characters, has the text between
      the hashes and the closing as its title. */
  lemma HeadingText(indent: string, hashes: string, gap: string, title: string, closing: string)
    requires |indent| <= 3 && All(JsSpace, indent) && 1 <= |hashes| <= 6 && All(Hash, hashes)
    requires gap != "" && All(JsSpace, gap) && Closing(closing)
    requires title != "" && Trimmed(JsSpace, title) && OneLine(title) && title[|title| - 1] != '#'
    ensures HeadingTitle(indent + (hashes + (gap + (title + closing)))) == Some(title)
  {
    hide HeadingTitle, Shortest, Closing;
    var body := title + closing;
    assert body[0] == title[0];
    HeadingShape(indent, hashes, gap, body);
    assert (gap + body)[|gap|..] == body;
    assert body[|title|..] == closing;
    ShortestIs(body, 1, title);
  }
}
