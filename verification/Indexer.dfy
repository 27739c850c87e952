/** The search service's reindex pass as it runs: a recursive walk over the tree, one database
    statement at a time, any of which may fail and end the pass. */
module Indexer {
  import opened Common
  import opened GitTrees
  import opened SearchIndex
  import WikiLinks

  datatype Status = Clean | Dirty | Error

  /** The stored state: the revision is the tree that the index was last brought in line with. */
  datatype State = State(revision: Option<Directory>, status: Status)

  datatype Stats = Stats(indexed: nat, removed: nat)

  /** Every listed blob is the one that its path leads to from the root. */
  ghost predicate ListedIn(root: Directory, ls: seq<Listed>) {
    forall l :: l in ls ==> Lookup(root.entries, l.path) == Some(l.blob)
  }

  /** The rows after some of the visits. */
  ghost predicate Partly(before: Rows, ls: seq<Listed>, after: Rows, lost: set<Path>) {
    exists n :: 0 <= n <= |ls| && after == VisitAll(before, ls[..n], lost)
  }

  ghost function Targets(found: map<Path, seq<string>>): set<Link> {
    set p, t | p in found && t in found[p] :: Link(p, t)
  }

  /** The rows of the paths in `keep`. */
  ghost function Restricted(rows: Rows, keep: set<Path>): Rows {
    map p | p in rows && p in keep :: rows[p]
  }

  ghost function Unseen(paths: set<Path>, seen: set<Path>): nat {
    |paths - seen|
  }

  class Index {
    var rows: Rows
    var links: set<Link>
    var state: Option<State>

    constructor ()
      ensures rows == map[] && links == {} && state == None
    {
      rows, links, state := map[], {}, None;
    }

    /** SetProjectState: one statement, which may fail. */
    method SetState(s: State) returns (ok: bool)
      modifies `state
      ensures state == if ok then Some(s) else old(state)
    {
      ok := *;
      if ok { state := Some(s); }
    }

    /** HasSHA. */
    method HasSHA(path: Path, sha: Blob) returns (answer: Option<bool>)
      ensures answer.Some? ==> answer.value == (path in rows && rows[path].sha == sha)
    {
      var fails: bool := *;
      if fails { return None; }
      answer := Some(path in rows && rows[path].sha == sha);
    }

    /** Store.Upsert: a look at the stored blob id, then a write. */
    method Upsert(path: Path, row: Row) returns (changed: Option<bool>)
      modifies `rows
      ensures changed.None? ==> rows == old(rows)
      ensures changed.Some? ==>
                && changed.value == !(path in old(rows) && old(rows)[path].sha == row.sha)
                && rows == if changed.value then old(rows)[path := row] else old(rows)
    {
      var known := HasSHA(path, row.sha);
      if known.None? { return None; }
      if known.value { return Some(false); }
      var fails: bool := *;
      if fails { return None; }
      rows := rows[path := row];
      changed := Some(true);
    }

    /** One blob of the walk. A blob that cannot be read, at all or this time, is passed over. */
    method VisitBlob(root: Directory, path: Path, sha: Blob, lost: set<Path>) returns (ok: bool, written: bool)
      requires Lookup(root.entries, path) == Some(sha)
      modifies `rows
      ensures ok ==> rows == Visit(old(rows), Listed(path, sha), lost)
      ensures ok ==> written == Fresh(old(rows), Listed(path, sha), lost)
      ensures ok ==> (written <==> Fit(sha) && path !in lost && (path in old(rows) ==> old(rows)[path].sha != sha))
      ensures written ==> path in rows && Describes(rows[path], sha) && rows == old(rows)[path := rows[path]]
      ensures !ok ==> rows == old(rows)
    {
      hide ExtractTitle, TitleIs;
      written := false;
      FitExactly(sha);
      RowDescribes(RowOf(sha), sha);
      var known := HasSHA(path, sha);
      if known.None? { return false, false; }
      if known.value { return true, false; }
      var blob := Lookup(root.entries, path).value;
      if !blob.readable || path in lost { return true, false; }
      var content := Text(blob);
      if |content| > MAX_DOC_BLOB_BYTES || '\0' in content { return true, false; }
      var title := FindTitle(content);
      TitleExactly(content, title);
      var changed := Upsert(path, Row(sha, title, content));
      if changed.None? { return false, false; }
      return true, changed.value;
    }

    /** The walk: its visits are those of the listing, in that order, and a failure leaves the
        rows as some of them left them. */
    method Walk(root: Directory, entries: seq<Entry>, prefix: Path, seen: set<Path>, lost: set<Path>)
      returns (ok: bool, allSeen: set<Path>, written: nat)
      requires ListedIn(root, Listing(entries, prefix))
      modifies `rows
      ensures ok ==> rows == VisitAll(old(rows), Listing(entries, prefix), lost)
      ensures ok ==> written == Upserts(old(rows), Listing(entries, prefix), lost)
      ensures ok ==> allSeen == seen + PathsOf(Listing(entries, prefix))
      ensures !ok ==> Partly(old(rows), Listing(entries, prefix), rows, lost)
      decreases entries
    {
      hide Listing, ListEntry, Lookup, VisitAll, Visit, Fresh, Upserts, PathsOf, Partly;
      allSeen, written := seen, 0;
      var fails: bool := *;
      ghost var all := Listing(entries, prefix);
      NothingVisited(rows, all, lost);
      if fails { return false, allSeen, written; }
      var i := 0;
      while i < |entries|
        invariant 0 <= i <= |entries|
        invariant Listing(entries[..i], prefix) <= all
        invariant rows == VisitAll(old(rows), Listing(entries[..i], prefix), lost)
        invariant written == Upserts(old(rows), Listing(entries[..i], prefix), lost)
        invariant allSeen == seen + PathsOf(Listing(entries[..i], prefix))
      {
        var e := entries[i];
        ghost var done, more := Listing(entries[..i], prefix), ListEntry(e, prefix);
        ListingStep(entries, prefix, i);
        VisitAllAppend(old(rows), done, more, lost);
        SubListed(root, all, done, more);
        ghost var before := rows;
        match e {
          case Sub(name, dir) =>
            ListEntryIs(e, prefix);
            var inner: nat;
            ok, allSeen, inner := Walk(root, dir.entries, prefix + [name], allSeen, lost);
            if !ok {
              PartlyInside(old(rows), all, done, more, before, rows, lost);
              return;
            }
            written := written + inner;
          case Leaf(name, blob) =>
            ListEntryIs(e, prefix);
            allSeen := allSeen + {prefix + [name]};
            assert Listed(prefix + [name], blob) in more;
            var wrote: bool;
            ok, wrote := VisitBlob(root, prefix + [name], blob, lost);
            OneVisit(before, more, lost);
            if !ok {
              NothingVisited(before, more, lost);
              PartlyInside(old(rows), all, done, more, before, rows, lost);
              return;
            }
            written := written + if wrote then 1 else 0;
        }
        PathsOfAppend(done, more);
        i := i + 1;
      }
      assert entries[..i] == entries;
      ok := true;
    }

    /** Reading the stored paths and deleting those that the walk has not seen. */
    method RemoveVanished(seen: set<Path>) returns (ok: bool, removed: nat)
      modifies `rows
      ensures ok ==> rows == Restricted(old(rows), seen) && removed == Unseen(old(rows).Keys, seen)
      ensures exists keep :: seen <= keep && rows == Restricted(old(rows), keep)
    {
      hide Restricted, Unseen;
      removed := 0;
      var fails: bool := *;
      AllRestricted(rows, seen);
      if fails { return false, 0; }
      var existing := rows.Keys;
      while existing != {}
        invariant rows == Restricted(old(rows), seen + existing)
        invariant removed + Unseen(existing, seen) == Unseen(old(rows).Keys, seen)
        decreases |existing|
      {
        var p :| p in existing;
        OneChecked(old(rows), seen, existing, p);
        if p !in seen {
          fails := *;
          if fails { return false, removed; }
          rows := rows - {p};
          removed := removed + 1;
        }
        existing := existing - {p};
      }
      assert seen + {} == seen;
      ok := true;
    }

    /** The second walk, which gathers the links of the markdown files. It writes nothing. */
    method CollectLinks(root: Directory, entries: seq<Entry>, prefix: Path, found: map<Path, seq<string>>,
        lost: set<Path>)
      returns (ok: bool, all: map<Path, seq<string>>)
      requires ListedIn(root, Listing(entries, prefix))
      ensures ok ==> Targets(all) == Targets(found) + LinksIn(Listing(entries, prefix), lost)
      decreases entries
    {
      hide Listing, ListEntry, Lookup, Text, Targets, LinksIn, Markdown, WikiLinks.FindAll;
      all := found;
      var fails: bool := *;
      if fails { return false, all; }
      ghost var whole := Listing(entries, prefix);
      NoLinks(prefix, lost);
      var i := 0;
      while i < |entries|
        invariant 0 <= i <= |entries|
        invariant Targets(all) == Targets(found) + LinksIn(Listing(entries[..i], prefix), lost)
      {
        var e := entries[i];
        ghost var done, more := Listing(entries[..i], prefix), ListEntry(e, prefix);
        ListingStep(entries, prefix, i);
        LinksInAppend(done, more, lost);
        ListEntryIs(e, prefix);
        SubListed(root, whole, done, more);
        match e {
          case Sub(name, dir) =>
            ok, all := CollectLinks(root, dir.entries, prefix + [name], all, lost);
            if !ok { return; }
          case Leaf(name, blob) =>
            var path := prefix + [name];
            assert Lookup(root.entries, path) == Some(blob) by { assert Listed(path, blob) in more; }
            OneScanned(path, blob, lost);
            assert Listed(path, blob).path == path;
            if Markdown(path) {
              var read := Lookup(root.entries, path).value;
              if read.readable && path !in lost && |Text(read)| <= MAX_DOC_BLOB_BYTES {
                var targets := WikiLinks.LinkTargets(Text(read));
                var known := if path in all then all[path] else [];
                TargetsAdd(all, path, known, targets);
                SameLinks(path, targets, WikiLinks.FindAll(Text(blob), 0));
                if targets != [] { all := all[path := known + targets]; }
              }
            }
        }
        i := i + 1;
      }
      assert entries[..i] == entries;
      ok := true;
    }

    /** ReplaceLinks: all rows are deleted and the new ones inserted in one transaction, so the
        stored links are either the old ones or the new ones. */
    method ReplaceLinks(found: map<Path, seq<string>>) returns (ok: bool)
      modifies `links
      ensures links == if ok then Targets(found) else old(links)
    {
      var inserted: set<Link> := {};
      var sources := found.Keys;
      while sources != {}
        invariant sources <= found.Keys
        invariant forall l :: l in inserted <==>
                    l.source in found && l.source !in sources && l.target in found[l.source]
        decreases |sources|
      {
        var source :| source in sources;
        ghost var before := inserted;
        var targets := found[source];
        for i := 0 to |targets|
          invariant forall l :: l in inserted <==> l in before || (l.source == source && l.target in targets[..i])
        {
          var fails: bool := *;
          if fails { return false; }
          inserted := inserted + {Link(source, targets[i])};
        }
        assert targets[..|targets|] == targets;
        sources := sources - {source};
      }
      assert forall l :: l in inserted <==> l in Targets(found);
      ok := *;
      if ok { links := inserted; }
    }

    /** The body of ReindexProject between marking the project dirty and recording the outcome. */
    method Sync(dir: Directory, lost: set<Path>, lostLinks: set<Path>) returns (stats: Option<Stats>)
      requires WellNamed(dir.entries) && CacheSound(rows)
      modifies `rows, `links
      ensures stats.Some? ==> rows == Pass(old(rows), Reading(dir, lost))
      ensures stats.Some? ==> links == LinksIn(Listing(dir.entries, []), lostLinks)
      ensures stats.Some? ==> stats.value.indexed == |FreshAt(old(rows), Listing(dir.entries, []), lost)|
      ensures stats.Some? ==> stats.value.removed == |old(rows).Keys - PathsOf(Listing(dir.entries, []))|
      ensures Interrupted(old(rows), dir, rows)
      ensures links == old(links) || links == LinksIn(Listing(dir.entries, []), lostLinks)
    {
      hide Listing, Lookup, WellNamed, VisitAll, Upserts, PathsOf, LinksIn, Targets, FreshAt,
        DistinctPaths, ListedIn, Partly, CacheSound, Interrupted;
      ghost var ls := Listing(dir.entries, []);
      RootListed(dir);
      WalkMeetsEachOnce(dir.entries, []);
      UpsertsExactly(rows, ls, lost);
      var ok, seen, indexed := Walk(dir, dir.entries, [], {}, lost);
      if !ok {
        PartlyIsInterrupted(old(rows), dir, rows, lost);
        return None;
      }
      ghost var visited := rows;
      CompleteIsInterrupted(old(rows), dir, lost);
      assert {} + PathsOf(ls) == PathsOf(ls);
      var found: map<Path, seq<string>>;
      NoTargets();
      ok, found := CollectLinks(dir, dir.entries, [], map[], lostLinks);
      if !ok { return None; }
      ok := ReplaceLinks(found);
      if !ok { return None; }
      var removed: nat;
      ok, removed := RemoveVanished(seen);
      ghost var keep: set<Path> :| seen <= keep && rows == Restricted(visited, keep);
      RemovalIsInterrupted(old(rows), dir, visited, keep, rows);
      if !ok { return None; }
      VisitedKeys(old(rows), ls, lost);
      assert rows == Pass(old(rows), Reading(dir, lost));
      stats := Some(Stats(indexed, removed));
    }

    /** ReindexProject. In either walk reading the blobs at some paths may fail without being reported:
        those in `lost` in the first, those in `lostLinks` in the second. */
    method Reindex(dir: Directory, lost: set<Path>, lostLinks: set<Path>) returns (stats: Option<Stats>, written: bool)
      requires WellNamed(dir.entries) && CacheSound(rows)
      modifies this
      ensures CacheSound(rows) && forall p :: p in rows ==> Fit(rows[p].sha) && Describes(rows[p], rows[p].sha)
      ensures stats.Some? ==>
                && (forall l :: l in Listing(dir.entries, []) && Fit(l.blob) && l.path !in lost ==>
                                  l.path in rows && Describes(rows[l.path], l.blob))
                && (forall p :: p in rows ==> p in PathsOf(Listing(dir.entries, [])))
      ensures stats.Some? ==>
                && rows == Pass(old(rows), Reading(dir, lost)) && links == LinksIn(Listing(dir.entries, []), lostLinks)
                && state == Some(State(Some(dir), Clean))
                && stats.value.indexed == |FreshAt(old(rows), Listing(dir.entries, []), lost)|
                && stats.value.removed == |old(rows).Keys - PathsOf(Listing(dir.entries, []))|
      ensures stats.None? ==> Interrupted(old(rows), dir, rows)
      ensures stats.None? && written ==> state.Some? && !state.value.status.Clean?
      ensures stats.None? && !written ==> state == old(state)
      ensures links == old(links) || links == LinksIn(Listing(dir.entries, []), lostLinks)
    {
      hide *;
      var marked := SetState(State(None, Dirty));
      stats := Sync(dir, lost, lostLinks);
      RetryHeals(old(rows), dir, rows);
      SoundExactly(rows);
      if stats.Some? {
        PassShown(old(rows), dir, lost);
        var ok := SetState(State(Some(dir), Clean));
        if ok { return stats, true; }
        stats := None;
      }
      var noted := SetState(State(None, Error));
      written := marked || noted;
    }

    /** Backlinks: the sources of the stored links to a target, each once. After a pass whose second
        walk read `v` these are exactly the files of the tree that link to the target. */
    method Backlinks(target: string) returns (sources: seq<Path>)
      ensures forall p :: p in sources <==> Link(p, target) in links
      ensures forall i, j :: 0 <= i < j < |sources| ==> sources[i] != sources[j]
      ensures forall v: Reading ::
                WellNamed(v.dir.entries) && links == LinksIn(Listing(v.dir.entries, []), v.lost) ==>
                  forall p :: p in sources <==> LinksTo(v, p, target)
    {
      hide LinksIn, LinksTo, Listing, WellNamed;
      sources := [];
      var rest := links;
      while rest != {}
        invariant rest <= links
        invariant forall p :: p in sources <==> Link(p, target) in links && Link(p, target) !in rest
        invariant forall i, j :: 0 <= i < j < |sources| ==> sources[i] != sources[j]
        decreases |rest|
      {
        var l :| l in rest;
        if l.target == target {
          assert l == Link(l.source, target);
          sources := sources + [l.source];
        }
        rest := rest - {l};
      }
      forall v: Reading, p | WellNamed(v.dir.entries) && links == LinksIn(Listing(v.dir.entries, []), v.lost)
        ensures p in sources <==> LinksTo(v, p, target)
      {
        LinksExactly(v, p, target);
      }
    }
  }

  /** What a complete pass shows, blob by blob of the listing. */
  lemma PassShown(rows: Rows, dir: Directory, lost: set<Path>)
    requires CacheSound(rows) && WellNamed(dir.entries)
    ensures var ls, after := Listing(dir.entries, []), Pass(rows, Reading(dir, lost));
            && (forall l :: l in ls && Fit(l.blob) && l.path !in lost ==>
                              l.path in after && Describes(after[l.path], l.blob))
            && (forall p :: p in after ==> p in PathsOf(ls))
  {
    hide Lookup, Fit, Describes, WellNamed, VisitAll, Listing, CacheSound;
    RootListed(dir);
    forall l | l in Listing(dir.entries, []) && Fit(l.blob) && l.path !in lost
      ensures var after := Pass(rows, Reading(dir, lost)); l.path in after && Describes(after[l.path], l.blob)
    {
      PassDescribes(rows, Reading(dir, lost), l.path);
    }
  }

  // ---------------------------------------------------------------- the walk's steps

  lemma ListingStep(entries: seq<Entry>, prefix: Path, i: nat)
    requires i < |entries|
    ensures Listing(entries[..i + 1], prefix) == Listing(entries[..i], prefix) + ListEntry(entries[i], prefix)
    ensures Listing(entries[..i + 1], prefix) <= Listing(entries, prefix)
  {
    assert entries[..i + 1][..i] == entries[..i];
    ListingGrows(entries, prefix, i + 1);
  }

  lemma {:induction false} ListingGrows(entries: seq<Entry>, prefix: Path, i: nat)
    requires i <= |entries|
    ensures Listing(entries[..i], prefix) <= Listing(entries, prefix)
    decreases |entries|
  {
    var n := |entries|;
    if i == n {
      assert entries[..i] == entries;
    } else {
      ListingGrows(entries[..n - 1], prefix, i);
      assert entries[..n - 1][..i] == entries[..i];
    }
  }

  lemma ListEntryIs(e: Entry, prefix: Path)
    ensures e.Sub? ==> ListEntry(e, prefix) == Listing(e.dir.entries, prefix + [e.name])
    ensures e.Leaf? ==> ListEntry(e, prefix) == [Listed(prefix + [e.name], e.blob)]
  {
  }

  lemma NothingVisited(rows: Rows, ls: seq<Listed>, lost: set<Path>)
    ensures Partly(rows, ls, rows, lost)
    ensures VisitAll(rows, [], lost) == rows && Upserts(rows, [], lost) == 0 && PathsOf([]) == {}
    ensures forall entries: seq<Entry>, prefix :: entries == [] ==> Listing(entries, prefix) == []
  {
    assert rows == VisitAll(rows, ls[..0], lost);
  }

  lemma OneVisit(rows: Rows, ls: seq<Listed>, lost: set<Path>)
    requires |ls| == 1
    ensures VisitAll(rows, ls, lost) == Visit(rows, ls[0], lost)
            && Upserts(rows, ls, lost) == if Fresh(rows, ls[0], lost) then 1 else 0
    ensures PathsOf(ls) == {ls[0].path}
  {
  }

  lemma PathsOfAppend(xs: seq<Listed>, ys: seq<Listed>)
    ensures PathsOf(xs + ys) == PathsOf(xs) + PathsOf(ys)
  {
  }

  lemma PartlyInside(before: Rows, all: seq<Listed>, done: seq<Listed>, more: seq<Listed>, mid: Rows, after: Rows,
      lost: set<Path>)
    requires done + more <= all && mid == VisitAll(before, done, lost) && Partly(mid, more, after, lost)
    ensures Partly(before, all, after, lost)
  {
    var n :| 0 <= n <= |more| && after == VisitAll(mid, more[..n], lost);
    VisitAllAppend(before, done, more[..n], lost);
    assert done + more[..n] == all[..|done| + n];
  }

  lemma SubListed(root: Directory, whole: seq<Listed>, done: seq<Listed>, more: seq<Listed>)
    requires ListedIn(root, whole) && done + more <= whole
    ensures ListedIn(root, more)
  {
    hide Lookup;
    forall l | l in more ensures l in whole {
      var i :| 0 <= i < |more| && more[i] == l;
      assert l == (done + more)[|done| + i] == whole[|done| + i];
    }
  }

  lemma RootListed(dir: Directory)
    requires WellNamed(dir.entries)
    ensures ListedIn(dir, Listing(dir.entries, []))
  {
    hide Lookup, Listing, WellNamed;
    forall l | l in Listing(dir.entries, []) ensures Lookup(dir.entries, l.path) == Some(l.blob) {
      assert l == Listed(l.path, l.blob);
      Met(dir, l.path, l.blob);
    }
  }

  // ---------------------------------------------------------------- what a failure leaves

  /** Each path is as it was, or as the visit of its blob leaves it. */
  lemma {:induction false} VisitsInterrupt(rows: Rows, dir: Directory, ls: seq<Listed>, lost: set<Path>)
    requires CacheSound(rows) && ListedIn(dir, ls)
    ensures Interrupted(rows, dir, VisitAll(rows, ls, lost))
  {
    if ls != [] {
      var n := |ls| - 1;
      VisitsInterrupt(rows, dir, ls[..n], lost);
      hide Interrupted, Lookup;
      assert ls[n] in ls;
      OneVisitInterrupts(rows, dir, VisitAll(rows, ls[..n], lost), ls[n], lost);
    }
  }

  lemma OneVisitInterrupts(rows: Rows, dir: Directory, mid: Rows, l: Listed, lost: set<Path>)
    requires Interrupted(rows, dir, mid) && Lookup(dir.entries, l.path) == Some(l.blob)
    ensures Interrupted(rows, dir, Visit(mid, l, lost))
  {
  }

  lemma PartlyIsInterrupted(rows: Rows, dir: Directory, left: Rows, lost: set<Path>)
    requires CacheSound(rows) && WellNamed(dir.entries) && Partly(rows, Listing(dir.entries, []), left, lost)
    ensures Interrupted(rows, dir, left)
  {
    hide CacheSound, WellNamed, Listing, Interrupted, VisitAll, Lookup;
    var ls := Listing(dir.entries, []);
    RootListed(dir);
    var n :| 0 <= n <= |ls| && left == VisitAll(rows, ls[..n], lost);
    VisitsInterrupt(rows, dir, ls[..n], lost);
  }

  lemma CompleteIsInterrupted(rows: Rows, dir: Directory, lost: set<Path>)
    requires CacheSound(rows) && WellNamed(dir.entries)
    ensures Interrupted(rows, dir, VisitAll(rows, Listing(dir.entries, []), lost))
  {
    RootListed(dir);
    VisitsInterrupt(rows, dir, Listing(dir.entries, []), lost);
  }

  lemma AllRestricted(rows: Rows, seen: set<Path>)
    ensures rows == Restricted(rows, seen + rows.Keys) && Unseen({}, seen) == 0
  {
  }

  lemma OneChecked(rows: Rows, seen: set<Path>, existing: set<Path>, p: Path)
    requires p in existing
    ensures Unseen(existing, seen) == Unseen(existing - {p}, seen) + if p in seen then 0 else 1
    ensures Restricted(rows, seen + (existing - {p})) ==
            if p in seen then Restricted(rows, seen + existing) else Restricted(rows, seen + existing) - {p}
  {
    if p in seen {
      assert existing - seen == existing - {p} - seen;
      assert seen + (existing - {p}) == seen + existing;
    } else {
      assert existing - seen == (existing - {p} - seen) + {p};
    }
  }

  lemma RemovalIsInterrupted(rows: Rows, dir: Directory, visited: Rows, keep: set<Path>, left: Rows)
    requires WellNamed(dir.entries) && Interrupted(rows, dir, visited)
    requires PathsOf(Listing(dir.entries, [])) <= keep && left == Restricted(visited, keep)
    ensures Interrupted(rows, dir, left)
  {
    hide Lookup, Listing, WellNamed, Indexable, RowOf;
    forall p ensures Find(left, p) == Find(visited, p) || (p !in left && Lookup(dir.entries, p) == None) {
      if p in visited && p !in left {
        match Lookup(dir.entries, p) {
          case Some(b) => Met(dir, p, b); PathListed(Listing(dir.entries, []), Listed(p, b));
          case None =>
        }
      }
    }
  }

  lemma PathListed(ls: seq<Listed>, l: Listed)
    requires l in ls
    ensures l.path in PathsOf(ls)
  {
  }

  lemma MinusMore(a: set<Path>, b: set<Path>, c: set<Path>, q: set<Path>, x: Path)
    requires a - {x} == b - {x} && b - q == c - q
    ensures a - (q + {x}) == c - (q + {x})
  {
    forall k ensures k in a - (q + {x}) <==> k in c - (q + {x}) {
      assert k in a - {x} <==> k in b - {x};
      assert k in b - q <==> k in c - q;
    }
  }

  /** The keys that the visits add are paths of the tree, so counting removals before or after them is the same. */
  lemma {:induction false} VisitedKeys(rows: Rows, ls: seq<Listed>, lost: set<Path>)
    ensures VisitAll(rows, ls, lost).Keys - PathsOf(ls) == rows.Keys - PathsOf(ls)
  {
    if ls != [] {
      var n := |ls| - 1;
      VisitedKeys(rows, ls[..n], lost);
      assert ls[n].path in PathsOf(ls) && ls[..n] < ls;
      assert VisitAll(rows, ls, lost).Keys - {ls[n].path} == VisitAll(rows, ls[..n], lost).Keys - {ls[n].path};
      hide VisitAll, PathsOf;
      assert PathsOf(ls) == PathsOf(ls[..n]) + {ls[n].path} by {
        PathsOfAppend(ls[..n], [ls[n]]);
        assert ls == ls[..n] + [ls[n]];
        OneVisit(rows, [ls[n]], lost);
      }
      MinusMore(VisitAll(rows, ls, lost).Keys, VisitAll(rows, ls[..n], lost).Keys, rows.Keys, PathsOf(ls[..n]),
          ls[n].path);
    }
  }

  // ---------------------------------------------------------------- the links' steps

  lemma NoLinks(prefix: Path, lost: set<Path>)
    ensures LinksIn(Listing([], prefix), lost) == {}
  {
  }

  lemma NoTargets()
    ensures Targets(map[]) == {}
  {
  }

  lemma LinksInAppend(xs: seq<Listed>, ys: seq<Listed>, lost: set<Path>)
    ensures LinksIn(xs + ys, lost) == LinksIn(xs, lost) + LinksIn(ys, lost)
  {
  }

  lemma OneScanned(path: Path, blob: Blob, lost: set<Path>)
    ensures LinksIn([Listed(path, blob)], lost) ==
            if Scanned(Listed(path, blob)) && path !in lost
            then set t | t in WikiLinks.FindAll(Text(blob), 0) :: Link(path, t)
            else {}
  {
  }

  lemma SameLinks(path: Path, xs: seq<string>, ys: seq<string>)
    requires forall t :: t in xs <==> t in ys
    ensures (set t | t in xs :: Link(path, t)) == (set t | t in ys :: Link(path, t))
  {
  }

  lemma TargetsAdd(found: map<Path, seq<string>>, path: Path, known: seq<string>, targets: seq<string>)
    requires known == if path in found then found[path] else []
    ensures Targets(found[path := known + targets]) == Targets(found) + set t | t in targets :: Link(path, t)
    ensures targets == [] ==> (set t | t in targets :: Link(path, t)) == {}
  {
  }
}
