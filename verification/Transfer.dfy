/** Exporting a project's tree as a list of files, and importing such a list as one changeset. */
module Transfer {
  import opened Common
  import opened Worktree
  import opened Commits
  import opened Changesets
  import GitTrees
  import Outcomes
  import Paths
  import SearchIndex

  const MAX_IMPORT_FILES := 500

  datatype ZipEntry = ZipEntry(path: string, content: string)

  /** A file of an import request: its path, and its payload when that is valid base64. */
  datatype ZipFile = ZipFile(path: string, decoded: Option<string>)

  // -------------------------------------------------------------------- export

  function EntryOf(l: GitTrees.Listed): ZipEntry {
    ZipEntry(Join(l.path, '/'), SearchIndex.Text(l.blob))
  }

  function EntriesOf(ls: seq<GitTrees.Listed>): seq<ZipEntry> {
    seq(|ls|, i requires 0 <= i < |ls| => EntryOf(ls[i]))
  }

  predicate AllReadable(ls: seq<GitTrees.Listed>) {
    forall l :: l in ls ==> l.blob.readable
  }

  function Export(dir: GitTrees.Directory): Option<seq<ZipEntry>> {
    var ls := GitTrees.Listing(dir.entries, []);
    if AllReadable(ls) then Some(EntriesOf(ls)) else None
  }

  /** The recursive walk of ExportZip, writing to the archive as it goes. */
  method WriteTree(entries: seq<GitTrees.Entry>, prefix: Path, zip: seq<ZipEntry>)
    returns (ok: bool, out: seq<ZipEntry>)
    ensures ok == AllReadable(GitTrees.Listing(entries, prefix))
    ensures ok ==> out == zip + EntriesOf(GitTrees.Listing(entries, prefix))
    decreases entries
  {
    hide GitTrees.Listing, GitTrees.ListEntry, AllReadable, EntriesOf, EntryOf;
    out := zip;
    NothingWalked(prefix);
    var i := 0;
    while i < |entries|
      invariant 0 <= i <= |entries|
      invariant AllReadable(GitTrees.Listing(entries[..i], prefix))
      invariant out == zip + EntriesOf(GitTrees.Listing(entries[..i], prefix))
    {
      WalkStep(entries, prefix, i);
      var path := prefix + [entries[i].name];
      match entries[i] {
        case Sub(name, dir) =>
          ok, out := WriteTree(dir.entries, path, out);
          if !ok { return; }
        case Leaf(name, blob) =>
          if !blob.readable { return false, out; }
          out := out + [EntryOf(GitTrees.Listed(path, blob))];
      }
      i := i + 1;
    }
    assert entries[..i] == entries;
    ok := true;
  }

  lemma NothingWalked(prefix: Path)
    ensures GitTrees.Listing([], prefix) == [] && AllReadable([]) && EntriesOf([]) == []
  {
  }

  lemma WalkStep(entries: seq<GitTrees.Entry>, prefix: Path, i: nat)
    requires i < |entries|
    ensures var done, e := GitTrees.Listing(entries[..i], prefix), entries[i];
            var more := GitTrees.ListEntry(e, prefix);
            && GitTrees.Listing(entries[..i + 1], prefix) == done + more
            && EntriesOf(done + more) == EntriesOf(done) + EntriesOf(more)
            && (AllReadable(done + more) <==> AllReadable(done) && AllReadable(more))
            && (AllReadable(GitTrees.Listing(entries, prefix)) ==> AllReadable(done + more))
            && (e.Sub? ==> more == GitTrees.Listing(e.dir.entries, prefix + [e.name]))
            && (e.Leaf? ==> AllReadable(more) == e.blob.readable
                            && EntriesOf(more) == [EntryOf(GitTrees.Listed(prefix + [e.name], e.blob))])
  {
    hide GitTrees.Listing, GitTrees.ListEntry, AllReadable, EntriesOf, EntryOf;
    var done, more := GitTrees.Listing(entries[..i], prefix), GitTrees.ListEntry(entries[i], prefix);
    ListingNext(entries, prefix, i);
    EntriesAppend(done, more);
    ReadableAppend(done, more);
    if AllReadable(GitTrees.Listing(entries, prefix)) { ReadableGrows(entries, prefix, i + 1); }
    EntryMeans(entries[i], prefix);
  }

  lemma ListingNext(entries: seq<GitTrees.Entry>, prefix: Path, i: nat)
    requires i < |entries|
    ensures GitTrees.Listing(entries[..i + 1], prefix)
            == GitTrees.Listing(entries[..i], prefix) + GitTrees.ListEntry(entries[i], prefix)
  {
    hide GitTrees.ListEntry;
    assert entries[..i + 1][..i] == entries[..i];
  }

  lemma EntriesAppend(xs: seq<GitTrees.Listed>, ys: seq<GitTrees.Listed>)
    ensures EntriesOf(xs + ys) == EntriesOf(xs) + EntriesOf(ys)
  {
    hide EntryOf;
  }

  lemma EntryMeans(e: GitTrees.Entry, prefix: Path)
    ensures var more := GitTrees.ListEntry(e, prefix);
            && (e.Sub? ==> more == GitTrees.Listing(e.dir.entries, prefix + [e.name]))
            && (e.Leaf? ==> AllReadable(more) == e.blob.readable
                            && EntriesOf(more) == [EntryOf(GitTrees.Listed(prefix + [e.name], e.blob))])
  {
  }

  lemma ReadableAppend(xs: seq<GitTrees.Listed>, ys: seq<GitTrees.Listed>)
    ensures AllReadable(xs + ys) <==> AllReadable(xs) && AllReadable(ys)
  {
  }

  lemma {:induction false} ReadableGrows(entries: seq<GitTrees.Entry>, prefix: Path, i: nat)
    requires i <= |entries| && AllReadable(GitTrees.Listing(entries, prefix))
    ensures AllReadable(GitTrees.Listing(entries[..i], prefix))
    decreases |entries|
  {
    if i == |entries| {
      assert entries[..i] == entries;
    } else {
      var n := |entries| - 1;
      ReadableAppend(GitTrees.Listing(entries[..n], prefix), GitTrees.ListEntry(entries[n], prefix));
      ReadableGrows(entries[..n], prefix, i);
      assert entries[..n][..i] == entries[..i];
    }
  }

  /** ExportZip. */
  method ExportZip(dir: GitTrees.Directory) returns (zip: Option<seq<ZipEntry>>)
    ensures zip == Export(dir)
  {
    var ok, out := WriteTree(dir.entries, [], []);
    assert ok ==> out == EntriesOf(GitTrees.Listing(dir.entries, []));
    zip := if ok then Some(out) else None;
  }

  // -------------------------------------------------------------------- import

  predicate ValidFile(f: ZipFile) {
    Paths.AcceptsDocPath(f.path) && f.decoded.Some? && |f.decoded.value| <= MAX_IMPORT_FILE_BYTES
  }

  function CreateOf(f: ZipFile): Change {
    Change(Create, f.path, if f.decoded.Some? then f.decoded.value else "", Plain, "")
  }

  function Creates(files: seq<ZipFile>): seq<Change> {
    seq(|files|, i requires 0 <= i < |files| => CreateOf(files[i]))
  }

  predicate AllValid(files: seq<ZipFile>) {
    forall f :: f in files ==> ValidFile(f)
  }

  function ImportVerdict(head: Commit, archived: bool, base: Commit, files: seq<ZipFile>, meta: Meta): Outcome {
    if !(1 <= |files| <= MAX_IMPORT_FILES) || !AllValid(files) then Invalid
    else Verdict(head, archived, Input(base, Creates(files), false, meta))
  }

  /** One file of the request. */
  method CheckFile(f: ZipFile) returns (change: Option<Change>)
    ensures change == if ValidFile(f) then Some(CreateOf(f)) else None
  {
    var ok := Paths.ValidateDocPath(f.path);
    if !ok { return None; }
    if f.decoded.None? { return None; }
    if |f.decoded.value| > MAX_IMPORT_FILE_BYTES { return None; }
    change := Some(Change(Create, f.path, f.decoded.value, Plain, ""));
  }

  /** ImportZip: its own checks, then one changeset. */
  method ImportZip(repo: Repository, base: Commit, files: seq<ZipFile>, meta: Meta) returns (r: Outcome)
    requires repo.Valid() && ProperInput(Creates(files))
    modifies repo`head
    ensures repo.Valid() && r == ImportVerdict(old(repo.head), repo.archived, base, files, meta)
    ensures repo.head == if r.Committed? then r.commit else old(repo.head)
  {
    hide Verdict, GitEffects, DecodeAll, ValidFile, ProperInput, ValidChangeset, CreateOf;
    if |files| == 0 || |files| > MAX_IMPORT_FILES { return Invalid; }
    var changes: seq<Change> := [];
    for i := 0 to |files|
      invariant changes == Creates(files[..i])
      invariant AllValid(files[..i]) && repo.head == old(repo.head)
    {
      var change := CheckFile(files[i]);
      FileNext(files, i);
      if change.None? { return Invalid; }
      changes := changes + [change.value];
    }
    assert files[..|files|] == files;
    r := repo.ApplyChangeset(Input(base, changes, false, meta));
  }

  lemma FileNext(files: seq<ZipFile>, i: nat)
    requires i < |files|
    ensures Creates(files[..i + 1]) == Creates(files[..i]) + [CreateOf(files[i])]
    ensures AllValid(files[..i + 1]) <==> AllValid(files[..i]) && ValidFile(files[i])
    ensures AllValid(files) ==> ValidFile(files[i])
  {
    hide ValidFile, CreateOf;
    assert files[i] in files && files[i] in files[..i + 1];
    assert files[..i + 1] == files[..i] + [files[i]];
  }

  lemma InsideExactly(path: string)
    ensures Paths.AcceptsDocPath(path) <==> Outcomes.Inside(path)
  {
    Paths.AcceptedIffInside(path);
  }

  /** The import's own limit of 500 files is never reached: the changeset it makes is refused above
      100. So a request gets past validation exactly with 1 to 100 files, each with a payload that is
      base64 of at most 5 MiB and a path that stays inside the project. */
  lemma ImportValidExactly(head: Commit, archived: bool, base: Commit, files: seq<ZipFile>, meta: Meta)
    ensures ImportVerdict(head, archived, base, files, meta).Invalid?
            <==> !(1 <= |files| <= 100 && forall f :: f in files ==>
                     Outcomes.Inside(f.path) && f.decoded.Some? && |f.decoded.value| <= 5242880)
  {
    hide Build, CheckoutOf, Paths.AcceptsDocPath, Paths.Locate, Outcomes.Inside;
    forall f ensures Paths.AcceptsDocPath(f) <==> Outcomes.Inside(f) { InsideExactly(f); }
    if AllValid(files) {
      forall c | c in Creates(files) ensures ValidChange(c) {
        var i :| 0 <= i < |files| && Creates(files)[i] == c;
        assert ValidFile(files[i]);
      }
    }
  }

  /** 101 files, as many as a request may hold by the import's own check, are always refused. */
  lemma LargeImportRefused(head: Commit, archived: bool, base: Commit, files: seq<ZipFile>, meta: Meta)
    requires 100 < |files| <= 500
    ensures ImportVerdict(head, archived, base, files, meta) == Invalid
  {
  }

  // ----------------------------------------------------- an export imported elsewhere

  /** Git's own rule for the names in a tree. */
  ghost predicate RealNames(entries: seq<GitTrees.Entry>)
    decreases entries
  {
    forall i :: 0 <= i < |entries| ==>
      Paths.RealName(entries[i].name) && (entries[i].Sub? ==> RealNames(entries[i].dir.entries))
  }

  ghost predicate RealPath(p: Path) {
    p != [] && forall i :: 0 <= i < |p| ==> Paths.RealName(p[i])
  }

  lemma RealNamesInit(entries: seq<GitTrees.Entry>)
    requires entries != [] && RealNames(entries)
    ensures RealNames(entries[..|entries| - 1])
  {
  }

  lemma {:induction false} ListedReal(entries: seq<GitTrees.Entry>, prefix: Path)
    requires RealNames(entries) && forall i :: 0 <= i < |prefix| ==> Paths.RealName(prefix[i])
    ensures forall l :: l in GitTrees.Listing(entries, prefix) ==> RealPath(l.path)
    decreases entries
  {
    if entries != [] {
      RealNamesInit(entries);
      ListedReal(entries[..|entries| - 1], prefix);
      match entries[|entries| - 1] {
        case Leaf(_, _) =>
        case Sub(name, dir) => ListedReal(dir.entries, prefix + [name]);
      }
    }
  }

  lemma {:induction false} WalkReal(names: seq<string>, p: Path)
    requires forall i :: 0 <= i < |p| ==> Paths.RealName(p[i])
    ensures Paths.Walk(Paths.Norm(false, 0, names), p) == Paths.Norm(false, 0, names + p)
    decreases |p|
  {
    if p == [] {
      assert names + p == names;
    } else {
      assert Paths.RealName(p[0]);
      WalkReal(names + [p[0]], p[1..]);
      assert names + [p[0]] + p[1..] == names + p;
    }
  }

  /** A path of the tree, written with slashes, leads an import back to the same place. */
  lemma JoinedLocates(p: Path)
    requires RealPath(p)
    ensures Paths.Locate(Join(p, '/')) == p
  {
    SplitJoin(p, '/');
    WalkReal([], p);
    assert [] + p == p;
    assert Paths.RealName(p[0]);
    assert Join(p, '/')[0] == p[0][0];
  }

  /** No two entries of an archive have the same name. */
  lemma ExportNamesDistinct(dir: GitTrees.Directory, i: nat, j: nat)
    requires GitTrees.WellNamed(dir.entries) && RealNames(dir.entries) && Export(dir).Some?
    requires i < j < |Export(dir).value|
    ensures Export(dir).value[i].path != Export(dir).value[j].path
  {
    hide GitTrees.Listing, GitTrees.WellNamed, RealNames, Join, Paths.Locate, SearchIndex.Text, RealPath;
    var ls := GitTrees.Listing(dir.entries, []);
    GitTrees.WalkMeetsEachOnce(dir.entries, []);
    ListedReal(dir.entries, []);
    JoinedLocates(ls[i].path);
    JoinedLocates(ls[j].path);
  }

  function Request(zip: seq<ZipEntry>): seq<ZipFile> {
    seq(|zip|, i requires 0 <= i < |zip| => ZipFile(zip[i].path, Some(zip[i].content)))
  }

  lemma {:induction false} CreatesElsewhere(t: Tree, changes: seq<Change>, p: Path)
    requires forall i :: 0 <= i < |changes| ==> changes[i].op.Create? && Paths.Locate(changes[i].path) != p
    ensures (p in GitEffects(t, changes) <==> p in t) && (p in t ==> GitEffects(t, changes)[p] == t[p])
    decreases |changes|
  {
    hide Paths.Locate;
    if changes != [] {
      CreatesElsewhere(GitEffect(t, changes[0]), changes[1..], p);
    }
  }

  lemma {:induction false} CreatesHere(t: Tree, changes: seq<Change>, k: nat)
    requires k < |changes| && forall i :: 0 <= i < |changes| ==> changes[i].op.Create?
    requires forall i :: k < i < |changes| ==> Paths.Locate(changes[i].path) != Paths.Locate(changes[k].path)
    ensures var p := Paths.Locate(changes[k].path);
            p in GitEffects(t, changes) && GitEffects(t, changes)[p] == changes[k].content
    decreases k
  {
    hide Paths.Locate;
    var rest, u := changes[1..], GitEffect(t, changes[0]);
    if k == 0 {
      CreatesElsewhere(u, rest, Paths.Locate(changes[0].path));
    } else {
      assert rest[k - 1] == changes[k];
      CreatesHere(u, rest, k - 1);
    }
  }

  /** The tree after a successful import of an export: at every exported path the exported text, and
      every other path as it was. */
  lemma ImportAgrees(source: GitTrees.Directory, head: Commit, base: Commit, meta: Meta, k: Commit, p: Path)
    requires GitTrees.WellNamed(source.entries) && RealNames(source.entries) && Export(source).Some?
    requires PrefixFree(head.tree) && ProperInput(Creates(Request(Export(source).value)))
    requires ImportVerdict(head, false, base, Request(Export(source).value), meta) == Committed(k)
    ensures k.Child? && k.parent == head
    ensures match GitTrees.Lookup(source.entries, p)
            case Some(b) => p in k.tree && k.tree[p] == SearchIndex.Text(b)
            case None => (p in k.tree <==> p in head.tree) && (p in head.tree ==> k.tree[p] == head.tree[p])
  {
    hide Paths.Locate, Build, CheckoutOf, GitTrees.Lookup, GitTrees.Listing, ValidChangeset, SearchIndex.Text, Join,
      GitEffects, PrefixFree, GitTrees.WellNamed, RealNames;
    var ls := GitTrees.Listing(source.entries, []);
    var changes := Creates(Request(EntriesOf(ls)));
    BuildMeaning(head.tree, changes);
    PlainDecodes(changes);
    ListedReal(source.entries, []);
    forall i | 0 <= i < |ls| ensures changes[i].op.Create? && Paths.Locate(changes[i].path) == ls[i].path {
      assert ls[i] in ls;
      JoinedLocates(ls[i].path);
    }
    GitTrees.WalkMeetsEachOnce(source.entries, []);
    match GitTrees.Lookup(source.entries, p) {
      case Some(b) =>
        SearchIndex.Met(source, p, b);
        var i :| 0 <= i < |ls| && ls[i] == GitTrees.Listed(p, b);
        CreatesHere(head.tree, changes, i);
      case None =>
        forall i | 0 <= i < |ls| ensures ls[i].path != p {
          if ls[i].path == p { SearchIndex.Met(source, p, ls[i].blob); }
        }
        CreatesElsewhere(head.tree, changes, p);
    }
  }

  lemma PlainDecodes(changes: seq<Change>)
    requires forall i :: 0 <= i < |changes| ==> changes[i].encoding.Plain?
    ensures DecodeAll(changes) == Some(changes)
  {
    assert forall c :: c in changes ==> Decode(c) == Some(c);
    assert DecodeAll(changes).value == changes;
  }

  /** The directory, all of it readable, whose blobs are the files of a tree. */
  ghost predicate Represents(dir: GitTrees.Directory, t: Tree) {
    && GitTrees.WellNamed(dir.entries)
    && forall p :: GitTrees.Lookup(dir.entries, p) == if p in t then Some(GitTrees.Blob(t[p], true)) else None
  }

  // ------------------------------------------------- every tree is that of a directory

  ghost predicate RealTree(t: Tree) {
    PrefixFree(t) && forall p :: p in t ==> RealPath(p)
  }

  /** What a tree holds below one name of its root. */
  function Below(t: Tree, name: string): Tree {
    var inside := set p | p in t && |p| > 1 && p[0] == name :: p[1..];
    map q | q in inside && [name] + q in t :: t[[name] + q]
  }

  lemma BelowExactly(t: Tree, name: string, q: Path)
    ensures q in Below(t, name) <==> q != [] && [name] + q in t
    ensures q in Below(t, name) ==> Below(t, name)[q] == t[[name] + q]
  {
    var p := [name] + q;
    if q != [] && p in t { assert |p| > 1 && p[0] == name && p[1..] == q; }
  }

  lemma BelowReal(t: Tree, name: string, depth: nat)
    requires RealTree(t) && forall p :: p in t ==> |p| <= depth + 1
    ensures RealTree(Below(t, name)) && forall q :: q in Below(t, name) ==> |q| <= depth
  {
    var u := Below(t, name);
    forall q | q in u ensures RealPath(q) && |q| <= depth {
      BelowExactly(t, name, q);
      var p := [name] + q;
      assert forall i :: 0 <= i < |q| ==> q[i] == p[i + 1];
    }
    forall q, k | q in u && 0 <= k < |q| ensures q[..k] !in u {
      BelowExactly(t, name, q);
      BelowExactly(t, name, q[..k]);
      assert ([name] + q)[..k + 1] == [name] + q[..k];
    }
    BelowExactly(t, name, []);
  }

  ghost predicate EntryOfTree(e: GitTrees.Entry, t: Tree) {
    && Paths.RealName(e.name)
    && (e.Leaf? ==> [e.name] in t && e.blob == GitTrees.Blob(t[[e.name]], true))
    && (e.Sub? ==> [e.name] !in t && Represents(e.dir, Below(t, e.name)) && RealNames(e.dir.entries))
  }

  /** What a lookup that begins with the name of such an entry finds. */
  lemma EntryLooksUp(e: GitTrees.Entry, t: Tree, p: Path)
    requires EntryOfTree(e, t) && PrefixFree(t) && p != [] && p[0] == e.name
    ensures GitTrees.LookupEntry(e, p) == if p in t then Some(GitTrees.Blob(t[p], true)) else None
  {
    hide GitTrees.Lookup, RealNames;
    assert p == [e.name] + p[1..];
    if e.Leaf? {
      assert p[..1] == [e.name];
      assert |p| == 1 ==> p == [e.name];
    } else {
      BelowExactly(t, e.name, p[1..]);
      if |p| == 1 { assert p[1..] == [] && p == [e.name]; }
    }
  }

  /** The entries cover the names in `done`, and no other path is found in them. */
  ghost predicate Covers(entries: seq<GitTrees.Entry>, t: Tree, done: set<string>) {
    && GitTrees.WellNamed(entries) && RealNames(entries)
    && (forall i :: 0 <= i < |entries| ==> entries[i].name in done)
    && forall p :: GitTrees.Lookup(entries, p) ==
         if p != [] && p[0] in done && p in t then Some(GitTrees.Blob(t[p], true)) else None
  }

  lemma CoversNothing(t: Tree)
    ensures Covers([], t, {})
  {
  }

  lemma CoversMore(entries: seq<GitTrees.Entry>, t: Tree, done: set<string>, e: GitTrees.Entry)
    requires Covers(entries, t, done) && EntryOfTree(e, t) && PrefixFree(t) && e.name !in done
    ensures Covers(entries + [e], t, done + {e.name})
  {
    hide PrefixFree, GitTrees.Lookup, GitTrees.LookupEntry, EntryOfTree;
    var more := entries + [e];
    EntryNamed(e, t);
    assert more[|entries|] == e && more[..|entries|] == entries;
    forall p ensures GitTrees.Lookup(more, p) ==
        if p != [] && p[0] in done + {e.name} && p in t then Some(GitTrees.Blob(t[p], true)) else None
    {
      if p == [] {
        NoEmptyPath(more);
      } else {
        GitTrees.LookupSnoc(more, p);
        if p[0] == e.name { EntryLooksUp(e, t, p); }
      }
    }
  }

  lemma NoEmptyPath(entries: seq<GitTrees.Entry>)
    ensures GitTrees.Lookup(entries, []) == None
  {
  }

  lemma EntryNamed(e: GitTrees.Entry, t: Tree)
    requires EntryOfTree(e, t)
    ensures Paths.RealName(e.name) && (e.Sub? ==> GitTrees.WellNamed(e.dir.entries) && RealNames(e.dir.entries))
  {
  }

  /** Each tree of real names in which no file lies under another is that of a directory. */
  lemma {:induction false} DirectoryUpTo(t: Tree, depth: nat) returns (dir: GitTrees.Directory)
    requires RealTree(t) && forall p :: p in t ==> |p| <= depth
    ensures Represents(dir, t) && RealNames(dir.entries)
    decreases depth
  {
    hide RealNames, GitTrees.Lookup, GitTrees.WellNamed, Covers, EntryOfTree;
    var entries: seq<GitTrees.Entry> := [];
    var names := set p | p in t && p != [] :: p[0];
    var todo := names;
    CoversNothing(t);
    assert names - todo == {};
    while todo != {}
      invariant todo <= names && Covers(entries, t, names - todo)
      decreases |todo|
    {
      var name :| name in todo;
      var p :| p in t && p != [] && p[0] == name;
      assert RealPath(p);
      var e: GitTrees.Entry;
      if [name] in t {
        e := GitTrees.Leaf(name, GitTrees.Blob(t[[name]], true));
        LeafOfTree(t, name);
      } else {
        BelowReal(t, name, depth - 1);
        var inner := DirectoryUpTo(Below(t, name), depth - 1);
        e := GitTrees.Sub(name, inner);
        SubOfTree(t, name, inner);
      }
      CoversMore(entries, t, names - todo, e);
      assert names - (todo - {name}) == names - todo + {name};
      entries := entries + [e];
      todo := todo - {name};
    }
    dir := GitTrees.Directory(entries);
    CoversAll(dir, t, names);
  }

  lemma LeafOfTree(t: Tree, name: string)
    requires Paths.RealName(name) && [name] in t
    ensures EntryOfTree(GitTrees.Leaf(name, GitTrees.Blob(t[[name]], true)), t)
  {
  }

  lemma SubOfTree(t: Tree, name: string, inner: GitTrees.Directory)
    requires Paths.RealName(name) && [name] !in t && Represents(inner, Below(t, name)) && RealNames(inner.entries)
    ensures EntryOfTree(GitTrees.Sub(name, inner), t)
  {
  }

  lemma CoversAll(dir: GitTrees.Directory, t: Tree, names: set<string>)
    requires RealTree(t) && names == (set p | p in t && p != [] :: p[0]) && Covers(dir.entries, t, names - {})
    ensures Represents(dir, t) && RealNames(dir.entries)
  {
    hide GitTrees.Lookup, GitTrees.WellNamed, RealNames;
    assert names - {} == names;
    forall p ensures GitTrees.Lookup(dir.entries, p) == if p in t then Some(GitTrees.Blob(t[p], true)) else None {
      if p in t { assert RealPath(p); }
    }
  }

  lemma DirectoryExists(t: Tree) returns (dir: GitTrees.Directory)
    requires RealTree(t)
    ensures Represents(dir, t) && RealNames(dir.entries)
  {
    var depth: nat := 0;
    var todo := t.Keys;
    while todo != {}
      invariant todo <= t.Keys && forall p :: p in t && p !in todo ==> |p| <= depth
      decreases |todo|
    {
      var p :| p in todo;
      if |p| > depth { depth := |p|; }
      todo := todo - {p};
    }
    dir := DirectoryUpTo(t, depth);
  }

  /** Exporting the target before and after importing the source's export: afterwards every entry of
      the source's export is there, word for word, and all other entries are those from before. */
  lemma ExportImportExport(source: GitTrees.Directory, before: GitTrees.Directory, after: GitTrees.Directory,
                           head: Commit, base: Commit, meta: Meta, k: Commit, p: Path)
    requires GitTrees.WellNamed(source.entries) && RealNames(source.entries) && Export(source).Some?
    requires PrefixFree(head.tree) && ProperInput(Creates(Request(Export(source).value)))
    requires ImportVerdict(head, false, base, Request(Export(source).value), meta) == Committed(k)
    requires Represents(before, head.tree) && Represents(after, k.tree)
    ensures Exported(after, p) == if Exported(source, p).Some? then Exported(source, p) else Exported(before, p)
  {
    hide *;
    ImportAgrees(source, head, base, meta, k, p);
    ExportedMeans(source, p);
    ExportedRepresents(before, head.tree, p);
    ExportedRepresents(after, k.tree, p);
    match GitTrees.Lookup(source.entries, p) {
      case Some(b) => TextAgain(b);
      case None =>
    }
  }

  /** An import keeps the names real, so the trees on both sides of it have directories, and their
      exports are related at every path. */
  lemma ImportedDirectories(source: GitTrees.Directory, head: Commit, base: Commit, meta: Meta, k: Commit)
    returns (before: GitTrees.Directory, after: GitTrees.Directory)
    requires GitTrees.WellNamed(source.entries) && RealNames(source.entries) && Export(source).Some?
    requires RealTree(head.tree) && ProperInput(Creates(Request(Export(source).value)))
    requires ImportVerdict(head, false, base, Request(Export(source).value), meta) == Committed(k)
    ensures Represents(before, head.tree) && Represents(after, k.tree)
    ensures forall p :: Exported(after, p) == if Exported(source, p).Some? then Exported(source, p)
            else Exported(before, p)
  {
    hide Exported, Represents, Export, ImportVerdict, Request, Creates, ProperInput, PrefixFree, RealNames, RealPath,
      GitTrees.WellNamed, GitTrees.Lookup, GitTrees.Listing;
    ImportedReal(source, head, base, meta, k);
    before := DirectoryExists(head.tree);
    after := DirectoryExists(k.tree);
    forall p ensures Exported(after, p) == if Exported(source, p).Some? then Exported(source, p)
        else Exported(before, p) {
      ExportImportExport(source, before, after, head, base, meta, k, p);
    }
  }

  lemma ImportedReal(source: GitTrees.Directory, head: Commit, base: Commit, meta: Meta, k: Commit)
    requires GitTrees.WellNamed(source.entries) && RealNames(source.entries) && Export(source).Some?
    requires RealTree(head.tree) && ProperInput(Creates(Request(Export(source).value)))
    requires ImportVerdict(head, false, base, Request(Export(source).value), meta) == Committed(k)
    ensures RealTree(k.tree)
  {
    hide RealPath, RealNames, GitTrees.WellNamed, GitTrees.Lookup, GitTrees.Listing, Build, CheckoutOf, PrefixFree,
      ValidChangeset, ProperInput, Paths.Locate;
    ListedReal(source.entries, []);
    BuildMeaning(head.tree, Creates(Request(Export(source).value)));
    forall p | p in k.tree ensures RealPath(p) {
      ImportAgrees(source, head, base, meta, k, p);
      match GitTrees.Lookup(source.entries, p) {
        case Some(b) => SearchIndex.Met(source, p, b); assert GitTrees.Listed(p, b).path == p;
        case None =>
      }
    }
  }

  /** What an export says at a path. */
  ghost function Exported(dir: GitTrees.Directory, p: Path): Option<string> {
    if exists l :: l in GitTrees.Listing(dir.entries, []) && l.path == p
    then var l :| l in GitTrees.Listing(dir.entries, []) && l.path == p; Some(EntryOf(l).content)
    else None
  }

  lemma ExportedMeans(dir: GitTrees.Directory, p: Path)
    requires GitTrees.WellNamed(dir.entries)
    ensures Exported(dir, p) == match GitTrees.Lookup(dir.entries, p)
                                case Some(b) => Some(SearchIndex.Text(b))
                                case None => None
  {
    hide GitTrees.Lookup, GitTrees.Listing, GitTrees.WellNamed, SearchIndex.Text, Join;
    var ls := GitTrees.Listing(dir.entries, []);
    forall l | l in ls ensures GitTrees.Lookup(dir.entries, l.path) == Some(l.blob) {
      SearchIndex.Met(dir, l.path, l.blob);
    }
    match GitTrees.Lookup(dir.entries, p) {
      case Some(b) =>
        SearchIndex.Met(dir, p, b);
        assert GitTrees.Listed(p, b) in ls && GitTrees.Listed(p, b).path == p;
      case None =>
    }
  }

  lemma ExportedRepresents(dir: GitTrees.Directory, t: Tree, p: Path)
    requires Represents(dir, t)
    ensures Exported(dir, p) == if p in t then Some(TrimSpace(t[p])) else None
  {
    hide GitTrees.Lookup, Exported, TrimSpace, GitTrees.WellNamed;
    ExportedMeans(dir, p);
  }

  /** Trimming what was trimmed already changes nothing. */
  lemma TextAgain(b: GitTrees.Blob)
    ensures TrimSpace(SearchIndex.Text(b)) == SearchIndex.Text(b)
  {
    TrimFixes(GoSpace, b.data);
    TrimFixes(GoSpace, SearchIndex.Text(b));
  }
}
