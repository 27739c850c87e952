/** Searching the commit log a page at a time, stopping early, and reading all pages in turn. */
module CommitLog {
  import opened Common

  datatype Summary = Summary(sha: string, message: string, author: string, date: string)

  /** A page of results, and whether there are matches beyond it. */
  datatype Page = Page(commits: seq<Summary>, hasMore: bool)

  const DEFAULT_LIMIT := 20
  const MAX_LIMIT := 100

  /** Go's bufio.MaxScanTokenSize: what a line and its end must fit in. */
  const MAX_TOKEN := 64 * 1024

  predicate TooLong(line: string) {
    |line| >= MAX_TOKEN
  }

  /** The first line the scanner cannot deliver, or the number of lines. */
  function FirstLong(lines: seq<string>): (n: nat)
    ensures n <= |lines| && (forall i :: 0 <= i < n ==> !TooLong(lines[i])) && (n < |lines| ==> TooLong(lines[n]))
  {
    if lines == [] || TooLong(lines[0]) then 0 else 1 + FirstLong(lines[1..])
  }

  function DropCR(line: string): string {
    if line != "" && line[|line| - 1] == '\r' then line[..|line| - 1] else line
  }

  function ParseLine(line: string): Option<Summary> {
    var parts := Split(DropCR(line), '\U{001F}');
    if |parts| < 4 then None else Some(Summary(parts[0], parts[1], parts[2], parts[3]))
  }

  predicate Contains(s: string, q: string) {
    exists i :: 0 <= i <= |s| && q <= s[i..]
  }

  /** `lower` is the language's lower-casing; `q` has been through it already. */
  predicate Matches(c: Summary, q: string, lower: string -> string) {
    q == "" || Contains(lower(c.message), q) || Contains(lower(c.author), q) || HasPrefix(lower(c.sha), q)
  }

  predicate Wanted(line: string, q: string, lower: string -> string) {
    ParseLine(line).Some? && Matches(ParseLine(line).value, q, lower)
  }

  /** All matches of the log, in its order. */
  function Filtered(lines: seq<string>, q: string, lower: string -> string): seq<Summary> {
    if lines == [] then []
    else
      var line := lines[|lines| - 1];
      Filtered(lines[..|lines| - 1], q, lower) + if Wanted(line, q, lower) then [ParseLine(line).value] else []
  }

  function Clamp(limit: int): (n: nat)
    ensures 1 <= n <= MAX_LIMIT
    ensures 1 <= limit <= MAX_LIMIT ==> n == limit
  {
    if limit <= 0 then DEFAULT_LIMIT else if limit > MAX_LIMIT then MAX_LIMIT else limit
  }

  function Min(a: nat, b: nat): nat { if a < b then a else b }

  function Start(offset: int): nat { if offset < 0 then 0 else offset }

  /** The slice of all matches that a page should be. */
  function PageOf(matches: seq<Summary>, limit: int, offset: int): Page {
    var from := Min(Start(offset), |matches|);
    var to := Min(from + Clamp(limit), |matches|);
    Page(matches[from..to], to < |matches|)
  }

  lemma FilteredSnoc(lines: seq<string>, i: nat, q: string, lower: string -> string)
    requires i < |lines|
    ensures Filtered(lines[..i + 1], q, lower)
            == Filtered(lines[..i], q, lower) + if Wanted(lines[i], q, lower) then [ParseLine(lines[i]).value] else []
  {
    assert lines[..i + 1][..i] == lines[..i];
  }

  lemma {:induction false} FilteredGrows(lines: seq<string>, i: nat, q: string, lower: string -> string)
    requires i <= |lines|
    ensures Filtered(lines[..i], q, lower) <= Filtered(lines, q, lower)
    decreases |lines| - i
  {
    hide Wanted, ParseLine;
    if i == |lines| {
      assert lines[..i] == lines;
    } else {
      FilteredGrows(lines, i + 1, q, lower);
      FilteredSnoc(lines, i, q, lower);
    }
  }

  /** The search stops before it would come to a line that the scanner cannot deliver. */
  predicate Reaches(lines: seq<string>, q: string, limit: int, offset: int, lower: string -> string) {
    var n := FirstLong(lines);
    n == |lines| || |Filtered(lines[..n], q, lower)| > Start(offset) + Clamp(limit)
  }

  /** SearchCommits: the loop skips `offset` matches, collects one more than the page needs and then
      stops; the page is the slice of all matches, wherever it stopped. */
  method SearchCommits(lines: seq<string>, query: string, limit: int, offset: int, lower: string -> string)
    returns (page: Option<Page>)
    ensures var q := lower(TrimSpace(query));
            page == if Reaches(lines, q, limit, offset, lower)
                    then Some(PageOf(Filtered(lines, q, lower), limit, offset))
                    else None
  {
    hide Wanted, TooLong, FirstLong, ParseLine, Filtered, Matches, TrimSpace;
    var n := limit;
    if n <= 0 { n := DEFAULT_LIMIT; }
    if n > MAX_LIMIT { n := MAX_LIMIT; }
    var q := lower(TrimSpace(query));
    var matched: seq<Summary> := [];
    var seen := 0;
    var i := 0;
    ghost var found: seq<Summary> := [];
    NothingFiltered(lines, q, lower);
    while i < |lines|
      invariant 0 <= i <= |lines|
      invariant found == Filtered(lines[..i], q, lower)
      invariant Collected(found, matched, seen, offset) && |matched| <= n
      invariant forall j :: 0 <= j < i ==> !TooLong(lines[j])
    {
      if TooLong(lines[i]) { return None; }
      FilteredSnoc(lines, i, q, lower);
      WantedMeans(lines[i], q, lower);
      var commit := ParseLine(lines[i]);
      i := i + 1;
      if commit.None? || !Matches(commit.value, q, lower) { continue; }
      CollectedNext(found, matched, seen, offset, commit.value);
      found := found + [commit.value];
      if seen < offset {
        seen := seen + 1;
        continue;
      }
      matched := matched + [commit.value];
      if |matched| >= n + 1 { break; }
    }
    FilteredGrows(lines, i, q, lower);
    assert i == |lines| ==> lines[..i] == lines;
    FilteredGrows(lines[..FirstLong(lines)], i, q, lower);
    assert lines[..FirstLong(lines)][..i] == lines[..i];
    CollectedPage(Filtered(lines, q, lower), found, matched, seen, limit, offset, n);
    var hasMore := |matched| > n;
    if hasMore { matched := matched[..n]; }
    return Some(Page(matched, hasMore));
  }

  /** Of the matches found so far, the first `seen` were skipped and the others are collected. */
  ghost predicate Collected(found: seq<Summary>, matched: seq<Summary>, seen: nat, offset: int) {
    && seen <= Start(offset) && (matched != [] ==> seen == Start(offset))
    && seen <= |found| && matched == found[seen..]
  }

  lemma CollectedNext(found: seq<Summary>, matched: seq<Summary>, seen: nat, offset: int, c: Summary)
    requires Collected(found, matched, seen, offset)
    ensures if seen < offset then Collected(found + [c], matched, seen + 1, offset)
            else Collected(found + [c], matched + [c], seen, offset)
  {
  }

  lemma CollectedPage(all: seq<Summary>, found: seq<Summary>, matched: seq<Summary>, seen: nat, limit: int,
      offset: int, n: nat)
    requires Collected(found, matched, seen, offset) && found <= all && n == Clamp(limit)
    requires |matched| <= n + 1 && (|matched| <= n ==> found == all)
    ensures PageOf(all, limit, offset) == Page(if |matched| > n then matched[..n] else matched, |matched| > n)
  {
  }

  lemma NothingFiltered(lines: seq<string>, q: string, lower: string -> string)
    ensures Filtered(lines[..0], q, lower) == []
  {
  }

  lemma WantedMeans(line: string, q: string, lower: string -> string)
    ensures Wanted(line, q, lower) <==> ParseLine(line).Some? && Matches(ParseLine(line).value, q, lower)
  {
  }

  /** The lines that give a summary of their own to the matches. */
  function Sources(lines: seq<string>, q: string, lower: string -> string, c: Summary): set<nat> {
    set i | 0 <= i < |lines| && Wanted(lines[i], q, lower) && ParseLine(lines[i]) == Some(c)
  }

  lemma SourcesSnoc(lines: seq<string>, q: string, lower: string -> string, c: Summary)
    requires lines != []
    ensures var n := |lines| - 1;
            |Sources(lines, q, lower, c)| == |Sources(lines[..n], q, lower, c)|
            + if Wanted(lines[n], q, lower) && ParseLine(lines[n]) == Some(c) then 1 else 0
  {
    hide Wanted, ParseLine;
    var n := |lines| - 1;
    assert Sources(lines, q, lower, c) == Sources(lines[..n], q, lower, c)
      + if Wanted(lines[n], q, lower) && ParseLine(lines[n]) == Some(c) then {n} else {};
  }

  /** A summary is among the matches as often as the log has matching lines for it. */
  lemma {:induction false} FilteredExactly(lines: seq<string>, q: string, lower: string -> string, c: Summary)
    ensures multiset(Filtered(lines, q, lower))[c] == |Sources(lines, q, lower, c)|
  {
    hide ParseLine, Matches, Sources;
    if lines == [] {
      NoSources(q, lower, c);
    } else {
      FilteredExactly(lines[..|lines| - 1], q, lower, c);
      SourcesSnoc(lines, q, lower, c);
    }
  }

  lemma NoSources(q: string, lower: string -> string, c: Summary)
    ensures Sources([], q, lower, c) == {}
  {
  }

  /** The matches are those of the wanted lines, each once, in the order of the log. */
  lemma {:induction false} FilteredInOrder(lines: seq<string>, q: string, lower: string -> string)
    returns (at: seq<nat>)
    ensures |at| == |Filtered(lines, q, lower)|
    ensures forall i :: 0 <= i < |at| ==>
              && at[i] < |lines| && Wanted(lines[at[i]], q, lower)
              && ParseLine(lines[at[i]]) == Some(Filtered(lines, q, lower)[i])
    ensures forall i, j :: 0 <= i < j < |at| ==> at[i] < at[j]
    ensures forall n :: 0 <= n < |lines| && Wanted(lines[n], q, lower) ==> n in at
  {
    hide Wanted, ParseLine;
    if lines == [] {
      at := [];
    } else {
      var n := |lines| - 1;
      at := FilteredInOrder(lines[..n], q, lower);
      WantedMeans(lines[n], q, lower);
      if Wanted(lines[n], q, lower) { at := at + [n]; }
    }
  }

  /** A line of the log and its fields: at least four pieces set apart by the unit separator, and
      perhaps a carriage return at the end. */
  ghost predicate LineOf(line: string, c: Summary) {
    exists parts: seq<string> ::
      && |parts| >= 4 && (forall i :: 0 <= i < |parts| ==> '\U{001F}' !in parts[i])
      && c == Summary(parts[0], parts[1], parts[2], parts[3])
      && var text := Join(parts, '\U{001F}');
         line == text + "\r" || (line == text && (text == "" || text[|text| - 1] != '\r'))
  }

  lemma LineExactly(line: string, c: Summary)
    ensures ParseLine(line) == Some(c) <==> LineOf(line, c)
  {
    hide Split, Join;
    var pieces := Split(DropCR(line), '\U{001F}');
    JoinSplit(DropCR(line), '\U{001F}');
    if ParseLine(line) == Some(c) {
      assert line == DropCR(line) || line == DropCR(line) + "\r";
      assert c == Summary(pieces[0], pieces[1], pieces[2], pieces[3]);
    }
    if LineOf(line, c) {
      var parts: seq<string> :|
        && |parts| >= 4 && (forall i :: 0 <= i < |parts| ==> '\U{001F}' !in parts[i])
        && c == Summary(parts[0], parts[1], parts[2], parts[3])
        && var text := Join(parts, '\U{001F}');
           line == text + "\r" || (line == text && (text == "" || text[|text| - 1] != '\r'));
      SplitJoin(parts, '\U{001F}');
      assert DropCR(line) == Join(parts, '\U{001F}');
    }
  }

  /** `q` stands somewhere in `s`. */
  ghost predicate Occurs(q: string, s: string) {
    exists i :: 0 <= i <= |s| && q <= s[i..]
  }

  /** Which lines match: those with the term, in lower case, in the subject or the author's name, or at
      the front of the commit id; all that are well formed when the term is empty. */
  lemma WantedExactly(line: string, q: string, lower: string -> string)
    ensures Wanted(line, q, lower) <==>
            exists c :: LineOf(line, c)
                        && (q == "" || Occurs(q, lower(c.message)) || Occurs(q, lower(c.author)) || q <= lower(c.sha))
  {
    hide ParseLine, LineOf;
    if ParseLine(line).Some? { LineExactly(line, ParseLine(line).value); }
    forall c ensures ParseLine(line) == Some(c) <==> LineOf(line, c) { LineExactly(line, c); }
  }

  /** A page: from the offset on, at most as many matches as asked for, 20 if nothing sensible is asked
      for and 100 at most; and there is more exactly when matches are left. */
  lemma PageExactly(matches: seq<Summary>, limit: int, offset: int)
    ensures var page := PageOf(matches, limit, offset);
            var size := if limit <= 0 then 20 else if limit > 100 then 100 else limit;
            var from := if offset < 0 then 0 else offset;
            && |page.commits| <= size && (|page.commits| < size ==> from + |page.commits| >= |matches|)
            && (from >= |matches| ==> page.commits == [])
            && (forall i :: 0 <= i < |page.commits| ==> from + i < |matches| && page.commits[i] == matches[from + i])
            && (page.hasMore <==> from + size < |matches|)
  {
  }

  /** The page view: it asks for the next page at the number of commits it has, while there are more.
      It ends with all matches exactly when the scanner can deliver every line. */
  method FetchAll(lines: seq<string>, query: string, limit: int, lower: string -> string)
    returns (commits: Option<seq<Summary>>)
    ensures commits.Some? <==> forall line :: line in lines ==> |line| < 65536
    ensures commits.Some? ==> commits.value == Filtered(lines, lower(TrimSpace(query)), lower)
  {
    hide Filtered, TrimSpace;
    ghost var all := Filtered(lines, lower(TrimSpace(query)), lower);
    FilteredGrows(lines, FirstLong(lines), lower(TrimSpace(query)), lower);
    var loaded: seq<Summary> := [];
    var more := true;
    while more
      invariant loaded <= all
      invariant !more ==> loaded == all && FirstLong(lines) == |lines|
      decreases |all| - |loaded|, more
    {
      var page := SearchCommits(lines, query, limit, |loaded|, lower);
      if page.None? { return None; }
      assert all[..|loaded|] + page.value.commits == all[..|loaded| + |page.value.commits|];
      loaded := loaded + page.value.commits;
      more := page.value.hasMore;
    }
    commits := Some(loaded);
  }

  /** A later page begins where an earlier one ended, none overlap, and a page says there is more
      exactly when the next one is not empty. */
  lemma PagesAbut(matches: seq<Summary>, limit: int, next: int, offset: nat)
    ensures var page := PageOf(matches, limit, offset);
            var after := PageOf(matches, next, offset + |page.commits|);
            && (page.hasMore <==> after.commits != [])
            && (offset <= |matches| ==> matches[..offset] + page.commits + after.commits <= matches)
  {
  }
}
