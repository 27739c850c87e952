/** The search index of one project: rows keyed by path, each remembering the blob it was made
    from. What one pass over a tree does to the rows, and what is left after many passes. */
module SearchIndex {
  import opened Common
  import opened GitTrees
  import WikiLinks

  const MAX_DOC_BLOB_BYTES := 2 * 1024 * 1024

  datatype Row = Row(sha: Blob, title: string, content: string)

  type Rows = map<Path, Row>

  datatype Link = Link(source: Path, target: string)

  /** What reading a blob yields: git's output with the white space around it removed. */
  function Text(b: Blob): string {
    TrimSpace(b.data)
  }

  predicate IsHeading(line: string) {
    HasPrefix(TrimSpace(line), "# ")
  }

  function FirstHeading(lines: seq<string>): string {
    if lines == [] then ""
    else if IsHeading(lines[0]) then TrimSpace(lines[0])[2..]
    else FirstHeading(lines[1..])
  }

  function ExtractTitle(md: string): string {
    FirstHeading(Split(md, '\n'))
  }

  /** Line `i` is the first that, trimmed, begins with "# "; or `i` is past the end and none does. */
  ghost predicate HeadingAt(lines: seq<string>, i: nat) {
    && i <= |lines| && (forall j :: 0 <= j < i ==> !("# " <= TrimSpace(lines[j])))
    && (i < |lines| ==> "# " <= TrimSpace(lines[i]))
  }

  /** The title is what follows "# " in the first such line of the text, or empty without one. */
  ghost predicate TitleIs(title: string, md: string) {
    var lines := Split(md, '\n');
    exists i: nat :: HeadingAt(lines, i) && title == if i < |lines| then TrimSpace(lines[i])[2..] else ""
  }

  lemma {:induction false} FirstHeadingAt(lines: seq<string>, i: nat)
    requires HeadingAt(lines, i)
    ensures FirstHeading(lines) == if i < |lines| then TrimSpace(lines[i])[2..] else ""
    decreases i
  {
    hide TrimSpace;
    if i > 0 { FirstHeadingAt(lines[1..], i - 1); }
  }

  lemma {:induction false} HeadingSomewhere(lines: seq<string>) returns (i: nat)
    ensures HeadingAt(lines, i)
  {
    hide TrimSpace;
    if lines == [] || "# " <= TrimSpace(lines[0]) {
      i := 0;
    } else {
      var k := HeadingSomewhere(lines[1..]);
      i := k + 1;
    }
  }

  /** Every text has exactly one title. */
  lemma TitleExactly(md: string, title: string)
    ensures TitleIs(title, md) <==> title == ExtractTitle(md)
  {
    hide TrimSpace, Split;
    var lines := Split(md, '\n');
    forall i: nat | HeadingAt(lines, i)
      ensures ExtractTitle(md) == if i < |lines| then TrimSpace(lines[i])[2..] else ""
    {
      FirstHeadingAt(lines, i);
    }
    var i := HeadingSomewhere(lines);
  }

  /** ExtractTitle, as its loop over the lines. */
  method FindTitle(md: string) returns (title: string)
    ensures TitleIs(title, md)
  {
    hide TrimSpace, Split, TitleIs;
    TitleExactly(md, ExtractTitle(md));
    var lines := Split(md, '\n');
    for i := 0 to |lines|
      invariant FirstHeading(lines[i..]) == FirstHeading(lines)
    {
      assert lines[i..][1..] == lines[i + 1..];
      var line := TrimSpace(lines[i]);
      if HasPrefix(line, "# ") { return line[2..]; }
    }
    title := "";
  }

  predicate Indexable(b: Blob) {
    b.readable && |Text(b)| <= MAX_DOC_BLOB_BYTES && '\0' !in Text(b)
  }

  function RowOf(b: Blob): Row {
    Row(b, ExtractTitle(Text(b)), Text(b))
  }

  /** Which blobs the index takes: readable ones whose text, trimmed, is no longer than two
      mebibytes and has no NUL. */
  ghost predicate Fit(b: Blob) {
    b.readable && |TrimSpace(b.data)| <= 2097152 && '\0' !in TrimSpace(b.data)
  }

  /** The row has the blob's id, its trimmed text as content and the title of that content. */
  ghost predicate Describes(row: Row, b: Blob) {
    row.sha == b && row.content == TrimSpace(b.data) && TitleIs(row.title, row.content)
  }

  lemma FitExactly(b: Blob)
    ensures Indexable(b) <==> Fit(b)
  {
    hide TrimSpace;
  }

  /** The row that the index keeps for a blob is the one that describes it. */
  lemma RowDescribes(row: Row, b: Blob)
    ensures row == RowOf(b) <==> Describes(row, b)
  {
    hide TrimSpace, TitleIs, ExtractTitle;
    TitleExactly(TrimSpace(b.data), row.title);
  }

  /** Every row holds what its own blob says, whatever tree that blob came from. */
  ghost predicate CacheSound(rows: Rows) {
    forall p :: p in rows ==> Indexable(rows[p].sha) && rows[p] == RowOf(rows[p].sha)
  }

  /** In a sound index every row describes its own blob, and that blob was fit for the index. */
  lemma SoundExactly(rows: Rows)
    ensures CacheSound(rows) <==> forall p :: p in rows ==> Fit(rows[p].sha) && Describes(rows[p], rows[p].sha)
  {
    hide Indexable, Fit, RowOf, Describes;
    forall p | p in rows
      ensures Indexable(rows[p].sha) <==> Fit(rows[p].sha)
      ensures rows[p] == RowOf(rows[p].sha) <==> Describes(rows[p], rows[p].sha)
    {
      FitExactly(rows[p].sha);
      RowDescribes(rows[p], rows[p].sha);
    }
  }

  /** What is indexed is the blob's data without the white space around it, and nothing else. */
  lemma TextExactly(b: Blob)
    ensures Trimmed(GoSpace, Text(b))
    ensures exists before, after :: b.data == before + Text(b) + after && All(GoSpace, before) && All(GoSpace, after)
  {
    hide GoSpace;
    TrimFixes(GoSpace, b.data);
    TrimCuts(GoSpace, b.data);
  }

  // ------------------------------------------------------------------ one pass

  predicate Fresh(rows: Rows, l: Listed, lost: set<Path>) {
    !(l.path in rows && rows[l.path].sha == l.blob) && Indexable(l.blob) && l.path !in lost
  }

  function Visit(rows: Rows, l: Listed, lost: set<Path>): Rows {
    if Fresh(rows, l, lost) then rows[l.path := RowOf(l.blob)] else rows
  }

  function VisitAll(rows: Rows, ls: seq<Listed>, lost: set<Path>): Rows {
    if ls == [] then rows else Visit(VisitAll(rows, ls[..|ls| - 1], lost), ls[|ls| - 1], lost)
  }

  /** How many of the visits write a row. */
  function Upserts(rows: Rows, ls: seq<Listed>, lost: set<Path>): nat {
    if ls == [] then 0
    else
      var init := ls[..|ls| - 1];
      Upserts(rows, init, lost) + if Fresh(VisitAll(rows, init, lost), ls[|ls| - 1], lost) then 1 else 0
  }

  function PathsOf(ls: seq<Listed>): set<Path> {
    set l | l in ls :: l.path
  }

  /** A revision's tree as one pass reads it. At the paths in `lost` reading the blob fails in this
      pass, which the pass does not report. */
  datatype Reading = Reading(dir: Directory, lost: set<Path>)

  /** The path's blob is read in this pass and fit for the index. */
  predicate Taken(v: Reading, p: Path, b: Blob) {
    Indexable(b) && p !in v.lost
  }

  function Pass(rows: Rows, v: Reading): Rows {
    var ls := Listing(v.dir.entries, []);
    var visited := VisitAll(rows, ls, v.lost);
    map p | p in visited && p in PathsOf(ls) :: visited[p]
  }

  function Rebuild(dir: Directory): Rows {
    Pass(map[], Reading(dir, {}))
  }

  lemma VisitAllSnoc(rows: Rows, ls: seq<Listed>, l: Listed, lost: set<Path>)
    ensures VisitAll(rows, ls + [l], lost) == Visit(VisitAll(rows, ls, lost), l, lost)
    ensures Upserts(rows, ls + [l], lost) ==
            Upserts(rows, ls, lost) + if Fresh(VisitAll(rows, ls, lost), l, lost) then 1 else 0
  {
  }

  lemma {:induction false} VisitAllAppend(rows: Rows, xs: seq<Listed>, ys: seq<Listed>, lost: set<Path>)
    ensures VisitAll(rows, xs + ys, lost) == VisitAll(VisitAll(rows, xs, lost), ys, lost)
    ensures Upserts(rows, xs + ys, lost) == Upserts(rows, xs, lost) + Upserts(VisitAll(rows, xs, lost), ys, lost)
  {
    if ys == [] {
      assert xs + ys == xs;
    } else {
      var n := |ys| - 1;
      VisitAllAppend(rows, xs, ys[..n], lost);
      assert xs + ys == (xs + ys[..n]) + [ys[n]];
      VisitAllSnoc(rows, xs + ys[..n], ys[n], lost);
    }
  }

  lemma {:induction false} UnvisitedStays(rows: Rows, ls: seq<Listed>, p: Path, lost: set<Path>)
    requires forall l :: l in ls ==> l.path != p
    ensures Find(VisitAll(rows, ls, lost), p) == Find(rows, p)
  {
    if ls != [] {
      UnvisitedStays(rows, ls[..|ls| - 1], p, lost);
      assert ls[|ls| - 1] in ls;
    }
  }

  /** A path that is met once ends as one visit from the rows before the pass would leave it. */
  lemma {:induction false} VisitedOnce(rows: Rows, ls: seq<Listed>, i: nat, lost: set<Path>)
    requires i < |ls| && DistinctPaths(ls)
    ensures Find(VisitAll(rows, ls, lost), ls[i].path) == Find(Visit(rows, ls[i], lost), ls[i].path)
    ensures Fresh(VisitAll(rows, ls[..i], lost), ls[i], lost) == Fresh(rows, ls[i], lost)
  {
    var n := |ls| - 1;
    if i == n {
      UnvisitedStays(rows, ls[..n], ls[n].path, lost);
    } else {
      assert ls[..n][i] == ls[i] && ls[..n][..i] == ls[..i];
      VisitedOnce(rows, ls[..n], i, lost);
    }
  }

  function FreshAt(rows: Rows, ls: seq<Listed>, lost: set<Path>): set<nat> {
    set i | 0 <= i < |ls| && Fresh(rows, ls[i], lost)
  }

  /** Which listed blobs a pass writes: the fit ones that it reads and whose id the path's row lacks. */
  lemma FreshExactly(rows: Rows, ls: seq<Listed>, lost: set<Path>, i: nat)
    requires i < |ls|
    ensures i in FreshAt(rows, ls, lost) <==>
            Fit(ls[i].blob) && ls[i].path !in lost && (ls[i].path in rows ==> rows[ls[i].path].sha != ls[i].blob)
  {
    hide Indexable, Fit;
    FitExactly(ls[i].blob);
  }

  /** The number of writes is the number of those blobs. */
  lemma {:induction false} UpsertsExactly(rows: Rows, ls: seq<Listed>, lost: set<Path>)
    requires DistinctPaths(ls)
    ensures Upserts(rows, ls, lost) == |FreshAt(rows, ls, lost)|
  {
    if ls != [] {
      var n := |ls| - 1;
      UpsertsExactly(rows, ls[..n], lost);
      VisitedOnce(rows, ls, n, lost);
      hide Fresh, VisitAll, DistinctPaths;
      FreshSnoc(rows, ls, lost);
    }
  }

  lemma FreshSnoc(rows: Rows, ls: seq<Listed>, lost: set<Path>)
    requires ls != []
    ensures var n := |ls| - 1;
            |FreshAt(rows, ls, lost)| == |FreshAt(rows, ls[..n], lost)| + if Fresh(rows, ls[n], lost) then 1 else 0
  {
    hide Fresh;
    var n := |ls| - 1;
    var init := ls[..n];
    assert forall i :: 0 <= i < n ==> init[i] == ls[i];
    assert FreshAt(rows, ls, lost) == FreshAt(rows, init, lost) + if Fresh(rows, ls[n], lost) then {n} else {};
  }

  /** What a complete pass leaves at a path: nothing when the tree has no blob there, the blob's
      own row when the blob was read and is indexable, and otherwise whatever row was there before. */
  lemma PassExactly(rows: Rows, v: Reading, p: Path)
    requires CacheSound(rows) && WellNamed(v.dir.entries)
    ensures Find(Pass(rows, v), p) ==
            match Lookup(v.dir.entries, p)
            case None => None
            case Some(b) => if Taken(v, p, b) then Some(RowOf(b)) else Find(rows, p)
  {
    hide Listing, Lookup, WellNamed, DistinctPaths, VisitAll, Visit, Pass, Find, Indexable, RowOf, CacheSound, Fresh;
    var ls := Listing(v.dir.entries, []);
    PassAt(rows, v, p);
    match Lookup(v.dir.entries, p) {
      case Some(b) =>
        Met(v.dir, p, b);
        var i :| 0 <= i < |ls| && ls[i] == Listed(p, b);
        WalkMeetsEachOnce(v.dir.entries, []);
        VisitedOnce(rows, ls, i, v.lost);
        assert ls[i].path in PathsOf(ls) by { assert ls[i] in ls; }
        VisitAt(rows, ls[i], v.lost);
      case None =>
        if p in PathsOf(ls) {
          var l :| l in ls && l.path == p;
          assert l == Listed(p, l.blob);
          Met(v.dir, p, l.blob);
        }
    }
  }

  /** The same without naming how a row is made: no row where the tree has no blob, the row that
      describes the blob where it is fit and was read, and elsewhere the row from before. */
  lemma PassDescribes(rows: Rows, v: Reading, p: Path)
    requires CacheSound(rows) && WellNamed(v.dir.entries)
    ensures var after := Pass(rows, v);
            match Lookup(v.dir.entries, p)
            case None => p !in after
            case Some(b) =>
              if Fit(b) && p !in v.lost then p in after && Describes(after[p], b) else Find(after, p) == Find(rows, p)
  {
    hide Pass, Lookup, WellNamed, CacheSound, Indexable, Fit, RowOf, Describes;
    PassExactly(rows, v, p);
    match Lookup(v.dir.entries, p) {
      case Some(b) => FitExactly(b); RowDescribes(RowOf(b), b);
      case None =>
    }
  }

  lemma PassAt(rows: Rows, v: Reading, p: Path)
    ensures var ls := Listing(v.dir.entries, []);
            Find(Pass(rows, v), p) == if p in PathsOf(ls) then Find(VisitAll(rows, ls, v.lost), p) else None
  {
  }

  lemma VisitAt(rows: Rows, l: Listed, lost: set<Path>)
    requires CacheSound(rows)
    ensures Find(Visit(rows, l, lost), l.path) ==
            if Indexable(l.blob) && l.path !in lost then Some(RowOf(l.blob)) else Find(rows, l.path)
  {
  }

  lemma Met(dir: Directory, p: Path, b: Blob)
    requires WellNamed(dir.entries)
    ensures Listed(p, b) in Listing(dir.entries, []) <==> Lookup(dir.entries, p) == Some(b)
  {
    WalkFindsExactly(dir.entries, [], p, b);
    assert [] + p == p;
  }

  lemma PassKeepsSound(rows: Rows, v: Reading)
    requires CacheSound(rows) && WellNamed(v.dir.entries)
    ensures CacheSound(Pass(rows, v))
  {
    var after := Pass(rows, v);
    forall p | p in after ensures Indexable(after[p].sha) && after[p] == RowOf(after[p].sha) {
      PassExactly(rows, v, p);
      assert Find(after, p) == Some(after[p]);
    }
  }

  lemma SameRows(a: Rows, b: Rows)
    requires forall p :: Find(a, p) == Find(b, p)
    ensures a == b
  {
    forall p | p in a ensures p in b && a[p] == b[p] { assert Find(a, p) == Find(b, p); }
    forall p | p in b ensures p in a { assert Find(a, p) == Find(b, p); }
  }

  /** A second pass over the same tree, which reads no more than the first did, writes nothing,
      removes nothing and changes no row. */
  lemma SecondPassIsIdle(rows: Rows, v: Reading, again: Reading)
    requires CacheSound(rows) && WellNamed(v.dir.entries) && again.dir == v.dir && v.lost <= again.lost
    ensures var once := Pass(rows, v); var ls := Listing(v.dir.entries, []);
            Pass(once, again) == once && Upserts(once, ls, again.lost) == 0 && once.Keys <= PathsOf(ls)
  {
    var once, ls := Pass(rows, v), Listing(v.dir.entries, []);
    PassKeepsSound(rows, v);
    forall p ensures Find(Pass(once, again), p) == Find(once, p) {
      PassExactly(rows, v, p);
      PassExactly(once, again, p);
    }
    SameRows(Pass(once, again), once);
    WalkMeetsEachOnce(v.dir.entries, []);
    UpsertsExactly(once, ls, again.lost);
    forall i | 0 <= i < |ls| ensures !Fresh(once, ls[i], again.lost) {
      Met(v.dir, ls[i].path, ls[i].blob);
      PassExactly(rows, v, ls[i].path);
      assert Taken(v, ls[i].path, ls[i].blob) ==> Find(once, ls[i].path) == Some(RowOf(ls[i].blob));
    }
    assert FreshAt(once, ls, again.lost) == {};
  }

  // ------------------------------------------------------- any number of revisions

  function IndexAfter(rows: Rows, revisions: seq<Reading>): Rows {
    if revisions == [] then rows
    else Pass(IndexAfter(rows, revisions[..|revisions| - 1]), revisions[|revisions| - 1])
  }

  ghost predicate AllWellNamed(revisions: seq<Reading>) {
    forall v :: v in revisions ==> WellNamed(v.dir.entries)
  }

  lemma {:induction false} AlwaysSound(rows: Rows, revisions: seq<Reading>)
    requires CacheSound(rows) && AllWellNamed(revisions)
    ensures CacheSound(IndexAfter(rows, revisions))
  {
    if revisions != [] {
      AlwaysSound(rows, revisions[..|revisions| - 1]);
      PassKeepsSound(IndexAfter(rows, revisions[..|revisions| - 1]), revisions[|revisions| - 1]);
    }
  }

  /** However the index came about, after a complete pass over the latest tree an indexable path that
      was read has the row a rebuild gives it, no path outside the tree has a row, and any other path
      keeps the row it had. */
  lemma IncrementalEqualsRebuild(rows: Rows, revisions: seq<Reading>, p: Path)
    requires CacheSound(rows) && AllWellNamed(revisions) && revisions != []
    ensures var n := |revisions| - 1; var v := revisions[n]; var index := IndexAfter(rows, revisions);
            match Lookup(v.dir.entries, p)
            case None => p !in index
            case Some(b) =>
              if Taken(v, p, b) then p in index && Find(index, p) == Find(Rebuild(v.dir), p)
              else Find(index, p) == Find(IndexAfter(rows, revisions[..n]), p) && (p in Rebuild(v.dir) ==> p in v.lost)
  {
    hide Lookup, Indexable, RowOf, Pass, WellNamed;
    var n := |revisions| - 1;
    var v := revisions[n];
    AlwaysSound(rows, revisions[..n]);
    PassExactly(IndexAfter(rows, revisions[..n]), v, p);
    PassExactly(map[], Reading(v.dir, {}), p);
  }

  /** When every blob of the latest tree is indexable and was read, the index is the rebuilt one. */
  lemma AllIndexableMeansRebuilt(rows: Rows, revisions: seq<Reading>)
    requires CacheSound(rows) && AllWellNamed(revisions) && revisions != []
    requires revisions[|revisions| - 1].lost == {}
    requires forall l :: l in Listing(revisions[|revisions| - 1].dir.entries, []) ==> Indexable(l.blob)
    ensures IndexAfter(rows, revisions) == Rebuild(revisions[|revisions| - 1].dir)
  {
    hide Lookup, Indexable, RowOf, Pass, WellNamed, Listing, IndexAfter;
    var v := revisions[|revisions| - 1];
    var index := IndexAfter(rows, revisions);
    forall p ensures Find(index, p) == Find(Rebuild(v.dir), p) {
      IncrementalEqualsRebuild(rows, revisions, p);
      PassExactly(map[], Reading(v.dir, {}), p);
      match Lookup(v.dir.entries, p) {
        case Some(b) => Met(v.dir, p, b); assert Indexable(Listed(p, b).blob);
        case None =>
      }
    }
    hide Find;
    SameRows(index, Rebuild(v.dir));
  }

  /** The pass takes this blob at the path. */
  predicate Takes(v: Reading, p: Path, b: Blob) {
    Lookup(v.dir.entries, p) == Some(b) && Taken(v, p, b)
  }

  /** The path holds a blob that the pass does not take. */
  predicate Skips(v: Reading, p: Path) {
    var found := Lookup(v.dir.entries, p);
    found.Some? && !Taken(v, p, found.value)
  }

  /** At `m` the blob of the path was taken, and in every later revision the path held one that was not. */
  ghost predicate LastTakenAt(revisions: seq<Reading>, p: Path, m: nat, b: Blob) {
    m < |revisions| && Takes(revisions[m], p, b) && forall k :: m < k < |revisions| ==> Skips(revisions[k], p)
  }

  lemma LastTakenSnoc(revisions: seq<Reading>, p: Path, m: nat, b: Blob)
    requires revisions != []
    ensures var n := |revisions| - 1;
            LastTakenAt(revisions, p, m, b) <==>
            if m == n then Takes(revisions[n], p, b)
            else LastTakenAt(revisions[..n], p, m, b) && Skips(revisions[n], p)
  {
    hide Takes, Skips;
  }

  /** Which rows an index grown from nothing holds: exactly those of the last blob taken at a path
      that has been present ever since. So a stale row is one with `m` before the last revision. */
  lemma RowsExactly(revisions: seq<Reading>, p: Path, row: Row)
    requires AllWellNamed(revisions)
    ensures Find(IndexAfter(map[], revisions), p) == Some(row)
            <==> exists m, b :: LastTakenAt(revisions, p, m, b) && Describes(row, b)
  {
    hide LastTakenAt, RowOf, Describes;
    RowsAre(revisions, p, row);
    forall b ensures row == RowOf(b) <==> Describes(row, b) { RowDescribes(row, b); }
  }

  lemma {:induction false} RowsAre(revisions: seq<Reading>, p: Path, row: Row)
    requires AllWellNamed(revisions)
    ensures Find(IndexAfter(map[], revisions), p) == Some(row)
            <==> exists m, b :: LastTakenAt(revisions, p, m, b) && row == RowOf(b)
  {
    hide Lookup, Indexable, RowOf, Pass, WellNamed;
    if revisions == [] {
      assert Find<Path, Row>(map[], p) == None;
    } else {
      hide Find;
      var n := |revisions| - 1;
      var v := revisions[n];
      RowsAre(revisions[..n], p, row);
      AlwaysSound(map[], revisions[..n]);
      PassExactly(IndexAfter(map[], revisions[..n]), v, p);
      forall m: nat, b
        ensures LastTakenAt(revisions, p, m, b) <==>
                if m == n then Takes(v, p, b) else LastTakenAt(revisions[..n], p, m, b) && Skips(v, p)
        ensures LastTakenAt(revisions[..n], p, m, b) ==> m < n
      {
        LastTakenSnoc(revisions, p, m, b);
      }
      hide LastTakenAt;
      if m: nat, b :| LastTakenAt(revisions[..n], p, m, b) && row == RowOf(b) {
        assert Skips(v, p) ==> LastTakenAt(revisions, p, m, b);
      }
      if b :| Takes(v, p, b) && row == RowOf(b) {
        assert LastTakenAt(revisions, p, n, b);
      }
    }
  }

  // -------------------------------------------------------------- a pass cut short

  /** What an interrupted pass over `dir` can have left of `rows`. */
  ghost predicate Interrupted(rows: Rows, dir: Directory, left: Rows) {
    forall p ::
      || Find(left, p) == Find(rows, p)
      || match Lookup(dir.entries, p)
         case None => p !in left
         case Some(b) => Indexable(b) && Find(left, p) == Some(RowOf(b))
  }

  /** An interrupted pass leaves a sound cache, and a complete pass that reads all of the same tree
      then ends where it would have ended without the interruption. */
  lemma RetryHeals(rows: Rows, dir: Directory, left: Rows)
    requires CacheSound(rows) && WellNamed(dir.entries) && Interrupted(rows, dir, left)
    ensures CacheSound(left) && Pass(left, Reading(dir, {})) == Pass(rows, Reading(dir, {}))
  {
    forall p | p in left ensures Indexable(left[p].sha) && left[p] == RowOf(left[p].sha) {
      assert Find(left, p) == Some(left[p]);
      if Find(left, p) == Find(rows, p) { assert rows[p] == left[p]; }
    }
    var v := Reading(dir, {});
    forall p ensures Find(Pass(left, v), p) == Find(Pass(rows, v), p) {
      PassExactly(rows, v, p);
      PassExactly(left, v, p);
    }
    SameRows(Pass(left, v), Pass(rows, v));
  }

  // ---------------------------------------------------------------------- links

  predicate Markdown(p: Path) {
    HasSuffix(Join(p, '/'), ".md") || HasSuffix(Join(p, '/'), ".markdown")
  }

  /** From some place on, `s` reads `e`. */
  ghost predicate EndsIn(s: string, e: string) {
    exists n :: 0 <= n <= |s| && s[n..] == e
  }

  lemma SuffixExactly(s: string, e: string)
    ensures HasSuffix(s, e) <==> EndsIn(s, e)
  {
    if n :| 0 <= n <= |s| && s[n..] == e { assert n == |s| - |e|; }
  }

  /** A markdown file is one whose path ends so. */
  lemma MarkdownExactly(p: Path)
    ensures Markdown(p) <==> EndsIn(Join(p, '/'), ".md") || EndsIn(Join(p, '/'), ".markdown")
  {
    hide HasSuffix, EndsIn;
    SuffixExactly(Join(p, '/'), ".md");
    SuffixExactly(Join(p, '/'), ".markdown");
  }

  predicate Scanned(l: Listed) {
    Markdown(l.path) && l.blob.readable && |Text(l.blob)| <= MAX_DOC_BLOB_BYTES
  }

  /** The links of the listed files that the second walk reads. */
  ghost function LinksIn(ls: seq<Listed>, lost: set<Path>): set<Link> {
    set l, t | l in ls && Scanned(l) && l.path !in lost && t in WikiLinks.FindAll(Text(l.blob), 0) :: Link(l.path, t)
  }

  /** A markdown file of the tree, read and within the size limit, whose text has a link to the target. */
  predicate LinksTo(v: Reading, source: Path, target: string) {
    Markdown(source) && source !in v.lost &&
    match Lookup(v.dir.entries, source)
    case None => false
    case Some(b) => b.readable && |Text(b)| <= MAX_DOC_BLOB_BYTES && target in WikiLinks.FindAll(Text(b), 0)
  }

  /** Said outright: the path ends as a markdown file's does, the pass reads its blob, and the trimmed text,
      of at most two mebibytes, has a link to the target. A NUL in it does not matter here. */
  lemma LinksToExactly(v: Reading, source: Path, target: string)
    ensures LinksTo(v, source, target) <==>
            && (EndsIn(Join(source, '/'), ".md") || EndsIn(Join(source, '/'), ".markdown")) && source !in v.lost
            && exists b :: Lookup(v.dir.entries, source) == Some(b) && b.readable && |TrimSpace(b.data)| <= 2097152
                           && target in WikiLinks.FindAll(TrimSpace(b.data), 0)
  {
    hide Markdown, EndsIn, Lookup, WikiLinks.FindAll, TrimSpace;
    MarkdownExactly(source);
  }

  lemma LinksExactly(v: Reading, source: Path, target: string)
    requires WellNamed(v.dir.entries)
    ensures Link(source, target) in LinksIn(Listing(v.dir.entries, []), v.lost) <==> LinksTo(v, source, target)
  {
    var ls := Listing(v.dir.entries, []);
    if Link(source, target) in LinksIn(ls, v.lost) {
      var l, t :|
        && l in ls && Scanned(l) && l.path !in v.lost && t in WikiLinks.FindAll(Text(l.blob), 0)
        && Link(l.path, t) == Link(source, target);
      Met(v.dir, l.path, l.blob);
    }
    match Lookup(v.dir.entries, source) {
      case None =>
      case Some(b) => Met(v.dir, source, b); assert Listed(source, b).path == source;
    }
  }
}
