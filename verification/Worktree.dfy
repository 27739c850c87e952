/** The temporary worktree: a forest of files and directories, the four file
    operations a changeset is made of, and what they do to the tree git sees. */
module Worktree {
  import opened Common
  import Paths

  datatype Node = Dir | File(content: string)

  type Forest = map<Path, Node>

  /** A git tree, flattened: only files are in it. */
  type Tree = map<Path, string>

  datatype Op = Create | Update | Delete | Move | Unsupported

  /** `decoded` is what the base64 decoder answers for the content. */
  datatype Encoding = Plain | Base64(decoded: Option<string>) | UnknownEncoding

  datatype Change = Change(op: Op, path: string, content: string, encoding: Encoding, newPath: string)

  datatype Status = Created | Updated | Deleted | Moved

  datatype Failure = NotADirectory | IsADirectory | SourceMissing | PathExists | IntoItself | WorktreeGone
    | UnsupportedOp

  datatype Effect<+R> = Effect(forest: Forest, result: Result<R, Failure>)

  // ------------------------------------------------------------------ forests

  /** Every proper prefix of an entry is a directory; the worktree itself is one. */
  ghost predicate WellFormed(f: Forest) {
    && [] in f && f[[]] == Dir
    && forall p, k :: p in f && 0 <= k < |p| ==> p[..k] in f && f[p[..k]] == Dir
  }

  function Files(f: Forest): Tree {
    map p | p in f && f[p].File? :: f[p].content
  }

  /** No file lies under another one. */
  predicate PrefixFree(t: Tree) {
    && [] !in t
    && forall p, k :: p in t && 0 <= k < |p| ==> p[..k] !in t
  }

  function Prefixes(p: Path): (s: set<Path>)
    ensures forall q :: q in s <==> q <= p
  {
    var s := set k | 0 <= k <= |p| :: p[..k];
    assert forall q :: q <= p ==> q == p[..|q|];
    s
  }

  /** The worktree that git checks out for `t`: the files and the directories above them. */
  function CheckoutOf(t: Tree): Forest {
    var above := {[]} + set p, k | p in t && 0 <= k <= |p| :: p[..k];
    map q | q in above :: if q in t then File(t[q]) else Dir
  }

  lemma CheckoutWellFormed(t: Tree)
    requires PrefixFree(t)
    ensures WellFormed(CheckoutOf(t)) && Files(CheckoutOf(t)) == t
  {
    var f := CheckoutOf(t);
    forall p, k | p in f && 0 <= k < |p| ensures p[..k] in f && f[p[..k]] == Dir {
      var q, j :| q in t && 0 <= j <= |q| && p == q[..j];
      assert p[..k] == q[..k];
    }
    forall q | q in t ensures q in f {
      assert q == q[..|q|];
    }
  }

  /** What a checkout holds: the files, and every directory on the way to one. */
  lemma CheckoutEntries(t: Tree, q: Path)
    ensures q in CheckoutOf(t) <==> q == [] || exists r :: r in t && q <= r
    ensures q in CheckoutOf(t) ==> CheckoutOf(t)[q] == (if q in t then File(t[q]) else Dir)
  {
    if r :| r in t && q <= r {
      assert q == r[..|q|];
    }
  }

  lemma FilesPrefixFree(f: Forest)
    requires WellFormed(f)
    ensures PrefixFree(Files(f))
  {
  }

  // ------------------------------------------------- file system calls as functions

  /** Some prefix of `p`, or `p` itself, is a regular file. */
  predicate FileOn(f: Forest, p: Path) {
    exists q :: q in Prefixes(p) && q in f && f[q].File?
  }

  function Parent(p: Path): Path {
    if p == [] then [] else p[..|p| - 1]
  }

  function MadeDirs(f: Forest, d: Path): Forest {
    f + map q | q in Prefixes(d) :: Dir
  }

  /** os.MkdirAll and os.WriteFile. */
  function Put(f: Forest, p: Path, content: string): Effect<()> {
    if FileOn(f, Parent(p)) then Effect(f, Err(NotADirectory))
    else
      var g := MadeDirs(f, Parent(p));
      if p in g && g[p].Dir? then Effect(g, Err(IsADirectory))
      else Effect(g[p := File(content)], Ok(()))
  }

  function Without<V>(m: map<Path, V>, p: Path): map<Path, V> {
    map q | q in m && !(p <= q) :: m[q]
  }

  /** os.RemoveAll: nothing to remove is fine, a file on the way is not. A worktree that was
      itself removed can no longer be staged, so that change fails the request. */
  function Remove(f: Forest, p: Path): Effect<()> {
    if p == [] then Effect(f, Err(WorktreeGone))
    else if FileOn(f, Parent(p)) then Effect(f, Err(NotADirectory))
    else Effect(Without(f, p), Ok(()))
  }

  function Relocate(q: Path, a: Path, b: Path): Path {
    if a <= q then b + q[|a|..] else q
  }

  /** Everything at or under `a` carried to `b`. */
  function Carry<V>(m: map<Path, V>, a: Path, b: Path): map<Path, V> {
    var keys := set q | q in m :: Relocate(q, a, b);
    map q | q in keys :: m[Origin(m, q, a, b)]
  }

  function Origin<V>(m: map<Path, V>, q: Path, a: Path, b: Path): (o: Path)
    ensures q in (set r | r in m :: Relocate(r, a, b)) ==> o in m
  {
    if b <= q && a + q[|b|..] in m then a + q[|b|..]
    else
      assert forall r :: r in m && a <= r ==> a + (b + r[|a|..])[|b|..] == r;
      q
  }

  /** os.Lstat, os.MkdirAll, os.Lstat and os.Rename, in that order. */
  function Rename(f: Forest, a: Path, b: Path): Effect<()> {
    if a !in f then Effect(f, Err(if FileOn(f, Parent(a)) then NotADirectory else SourceMissing))
    else if FileOn(f, Parent(b)) then Effect(f, Err(NotADirectory))
    else
      var g := MadeDirs(f, Parent(b));
      if b in g then Effect(g, Err(PathExists))
      else if a <= b then Effect(g, Err(IntoItself))
      else Effect(Carry(g, a, b), Ok(()))
  }

  function Tell(e: Effect<()>, s: Status): Effect<Status> {
    Effect(e.forest, if e.result.Ok? then Ok(s) else Err(e.result.error))
  }

  /** applyOne. */
  function ApplyOne(f: Forest, c: Change): Effect<Status> {
    var p := Paths.Locate(c.path);
    match c.op
    case Create => Tell(Put(f, p, c.content), Created)
    case Update => Tell(Put(f, p, c.content), Updated)
    case Delete => Tell(Remove(f, p), Deleted)
    case Move => Tell(Rename(f, p, Paths.Locate(c.newPath)), Moved)
    case Unsupported => Effect(f, Err(UnsupportedOp))
  }

  /** The changes in order, stopping at the first failure. */
  function ApplyFrom(f: Forest, changes: seq<Change>, done: seq<Status>): Effect<seq<Status>>
    decreases |changes|
  {
    if changes == [] then Effect(f, Ok(done))
    else
      var e := ApplyOne(f, changes[0]);
      if e.result.Err? then Effect(e.forest, Err(e.result.error))
      else ApplyFrom(e.forest, changes[1..], done + [e.result.value])
  }

  function ApplyAll(f: Forest, changes: seq<Change>): Effect<seq<Status>> {
    ApplyFrom(f, changes, [])
  }

  /** Paths this model speaks about: no name in them is git's own. */
  predicate Proper(c: Change) {
    ".git" !in Paths.Locate(c.path) && (c.op == Move ==> ".git" !in Paths.Locate(c.newPath))
  }

  // -------------------------------------------------------- the forest invariant

  lemma FileOnSpelled(f: Forest, p: Path)
    ensures FileOn(f, p) <==> exists k :: 0 <= k <= |p| && p[..k] in f && f[p[..k]].File?
  {
  }

  lemma MadeDirsWellFormed(f: Forest, d: Path)
    requires WellFormed(f) && !FileOn(f, d)
    ensures WellFormed(MadeDirs(f, d)) && Files(MadeDirs(f, d)) == Files(f)
    ensures forall q :: q in MadeDirs(f, d) <==> q in f || q <= d
  {
  }

  lemma PutWellFormed(f: Forest, p: Path, content: string)
    requires WellFormed(f)
    ensures WellFormed(Put(f, p, content).forest)
    ensures Files(Put(f, p, content).forest) ==
            (if Put(f, p, content).result.Ok? then Files(f)[p := content] else Files(f))
  {
    if !FileOn(f, Parent(p)) {
      var g := MadeDirs(f, Parent(p));
      MadeDirsWellFormed(f, Parent(p));
      if p !in g || g[p].File? {
        assert p != [];
        forall q, k | q in g[p := File(content)] && 0 <= k < |q|
          ensures q[..k] in g && g[q[..k]] == Dir && q[..k] != p
        {
          if q == p {
            assert p[..k] == Parent(p)[..k];
            assert Parent(p) in g && (k < |Parent(p)| || p[..k] == Parent(p));
          }
        }
      }
    }
  }

  lemma RemoveWellFormed(f: Forest, p: Path)
    requires WellFormed(f)
    ensures WellFormed(Remove(f, p).forest)
    ensures Files(Remove(f, p).forest) ==
            (if Remove(f, p).result.Ok? then Without(Files(f), p) else Files(f))
  {
  }

  /** What it means that `g` is `m` with everything at or under `a` now at `b`. */
  ghost predicate Carried<V>(m: map<Path, V>, g: map<Path, V>, a: Path, b: Path) {
    && (forall q :: q in m ==> !(b <= q))
    && (forall q :: q in g <==> if b <= q then a + q[|b|..] in m else q in m && !(a <= q))
    && (forall q :: q in g ==> g[q] == m[if b <= q then a + q[|b|..] else q])
  }

  lemma CarryFacts<V>(m: map<Path, V>, a: Path, b: Path)
    requires forall q :: q in m ==> !(b <= q)
    ensures Carried(m, Carry(m, a, b), a, b)
  {
    forall q | b <= q && a + q[|b|..] in m ensures q in Carry(m, a, b) {
      var r := a + q[|b|..];
      assert r[|a|..] == q[|b|..];
      assert Relocate(r, a, b) == b + q[|b|..] == q;
    }
    forall q | q in Carry(m, a, b)
      ensures if b <= q then a + q[|b|..] in m else q in m && !(a <= q)
    {
      var r :| r in m && Relocate(r, a, b) == q;
      assert a <= r ==> q[|b|..] == r[|a|..] && a + r[|a|..] == r;
    }
  }

  /** Read forwards: each entry is found at its relocated path, and nothing else is there. */
  lemma CarriedForward<V>(m: map<Path, V>, g: map<Path, V>, a: Path, b: Path)
    requires Carried(m, g, a, b)
    ensures forall q :: q in m ==> Relocate(q, a, b) in g && g[Relocate(q, a, b)] == m[q]
    ensures forall q :: q in g ==> exists r :: r in m && Relocate(r, a, b) == q
  {
    forall q | q in m ensures Relocate(q, a, b) in g && g[Relocate(q, a, b)] == m[q] {
      if a <= q {
        var r := Relocate(q, a, b);
        assert r[|b|..] == q[|a|..];
        assert a + r[|b|..] == q;
      }
    }
    forall q | q in g ensures exists r :: r in m && Relocate(r, a, b) == q {
      if b <= q {
        var r := a + q[|b|..];
        assert r[|a|..] == q[|b|..];
        assert Relocate(r, a, b) == q;
      } else {
        assert Relocate(q, a, b) == q;
      }
    }
  }

  /** Carrying determines its result. */
  lemma CarriedUnique<V>(m: map<Path, V>, g: map<Path, V>, h: map<Path, V>, a: Path, b: Path)
    requires Carried(m, g, a, b) && Carried(m, h, a, b)
    ensures g == h
  {
  }

  lemma PrefixIn(f: Forest, p: Path, q: Path)
    requires WellFormed(f) && p in f && q <= p
    ensures q in f && (q != p ==> f[q] == Dir)
  {
    assert q == p[..|q|];
    assert |q| == |p| ==> q == p;
  }

  lemma PrefixesComparable(a: Path, b: Path, q: Path)
    requires a <= q && b <= q
    ensures a <= b || b <= a
  {
  }

  lemma NothingUnderMissing(f: Forest, b: Path)
    requires WellFormed(f) && b !in f
    ensures forall q :: q in f ==> !(b <= q)
  {
    forall q | q in f && b <= q ensures false {
      PrefixIn(f, q, b);
    }
  }

  lemma CarriedPrefix(f: Forest, g: Forest, a: Path, b: Path, q: Path, k: nat)
    requires WellFormed(f) && Carried(f, g, a, b)
    requires b != [] && !(a <= b) && Parent(b) in f && f[Parent(b)] == Dir
    requires q in g && k < |q|
    ensures q[..k] in g && g[q[..k]] == Dir
  {
    if b <= q && k < |b| {
      assert q[..k] == b[..k] && Parent(b)[..k] == b[..k];
      assert k < |Parent(b)| || b[..k] == Parent(b);
    } else if b <= q {
      var r := a + q[|b|..];
      assert r in f;
      assert b <= q[..k] && q[..k][|b|..] == q[|b|..][..k - |b|];
      assert r[..|a| + k - |b|] == a + q[..k][|b|..];
    } else {
      assert (a <= q[..k] ==> a <= q) && (b <= q[..k] ==> b <= q);
    }
  }

  lemma CarriedFiles(f: Forest, g: Forest, a: Path, b: Path)
    requires Carried(f, g, a, b)
    ensures Carried(Files(f), Files(g), a, b)
  {
  }

  lemma CarryWellFormed(f: Forest, a: Path, b: Path)
    requires WellFormed(f) && a in f && b !in f && b != [] && !(a <= b)
    requires Parent(b) in f && f[Parent(b)] == Dir
    ensures WellFormed(Carry(f, a, b))
    ensures Files(Carry(f, a, b)) == Carry(Files(f), a, b)
  {
    NothingUnderMissing(f, b);
    CarryFacts(f, a, b);
    CarryFacts(Files(f), a, b);
    var g := Carry(f, a, b);
    CarriedFiles(f, g, a, b);
    CarriedUnique(Files(f), Files(g), Carry(Files(f), a, b), a, b);
    forall q, k | q in g && 0 <= k < |q| ensures q[..k] in g && g[q[..k]] == Dir {
      CarriedPrefix(f, g, a, b, q, k);
    }
    CarriedRoot(f, g, a, b);
  }

  lemma CarriedRoot(f: Forest, g: Forest, a: Path, b: Path)
    requires WellFormed(f) && Carried(f, g, a, b) && b != [] && !(a <= b)
    ensures [] in g && g[[]] == Dir
  {
  }

  lemma RenameWellFormed(f: Forest, a: Path, b: Path)
    requires WellFormed(f)
    ensures WellFormed(Rename(f, a, b).forest)
    ensures Files(Rename(f, a, b).forest) ==
            (if Rename(f, a, b).result.Ok? then Carry(Files(f), a, b) else Files(f))
  {
    if a in f && !FileOn(f, Parent(b)) {
      var g := MadeDirs(f, Parent(b));
      MadeDirsWellFormed(f, Parent(b));
      if b !in g && !(a <= b) {
        CarryWellFormed(g, a, b);
      }
    }
  }

  // ------------------------------- when an operation succeeds, and what it leaves where

  /** An entry strictly above `p` is a file. */
  ghost predicate FileAbove(f: Forest, p: Path) {
    exists k :: 0 <= k < |p| && p[..k] in f && f[p[..k]].File?
  }

  /** What the user is told of one change, from what is in the worktree before it. */
  ghost function Reported(f: Forest, c: Change): Result<Status, Failure> {
    var p, b := Paths.Locate(c.path), Paths.Locate(c.newPath);
    match c.op
    case Create | Update =>
      if FileAbove(f, p) then Err(NotADirectory)
      else if Find(f, p) == Some(Dir) then Err(IsADirectory)
      else Ok(if c.op == Create then Created else Updated)
    case Delete =>
      if p == [] then Err(WorktreeGone) else if FileAbove(f, p) then Err(NotADirectory) else Ok(Deleted)
    case Move =>
      if FileAbove(f, p) then Err(NotADirectory)
      else if p !in f then Err(SourceMissing)
      else if FileAbove(f, b) then Err(NotADirectory)
      else if b in f then Err(PathExists)
      else if p <= b then Err(IntoItself)
      else Ok(Moved)
    case Unsupported => Err(UnsupportedOp)
  }

  /** What is at `q` after the change, from what is in the worktree before it. Only a move into
      itself fails after it has made directories. */
  ghost function Place(f: Forest, c: Change, q: Path): Option<Node> {
    var p, b := Paths.Locate(c.path), Paths.Locate(c.newPath);
    if Reported(f, c) == Err(IntoItself) && q <= b && q != b then Some(Dir)
    else if Reported(f, c).Err? then Find(f, q)
    else
      match c.op
      case Create | Update =>
        if q == p then Some(File(c.content)) else if q <= p then Some(Dir) else Find(f, q)
      case Delete => if p <= q then None else Find(f, q)
      case Move =>
        if b <= q then Find(f, p + q[|b|..])
        else if p <= q then None
        else if q <= b then Some(Dir)
        else Find(f, q)
      case Unsupported => Find(f, q)
  }

  lemma FileAboveIsOn(f: Forest, p: Path)
    requires WellFormed(f)
    ensures FileOn(f, Parent(p)) <==> FileAbove(f, p)
  {
    FileOnSpelled(f, Parent(p));
    forall k | 0 <= k < |p| ensures p[..k] == Parent(p)[..k] {
    }
    if p == [] { assert forall k :: 0 <= k <= 0 ==> p[..k] == []; }
  }

  lemma MadeAbove(f: Forest, p: Path, q: Path)
    requires WellFormed(f) && !FileAbove(f, p)
    ensures Find(MadeDirs(f, Parent(p)), q) == (if q <= p && q != p then Some(Dir) else Find(f, q))
  {
    if q <= p && q != p { assert q <= Parent(p); }
    if q <= Parent(p) && q !in f { assert q != []; }
    if p == [] { assert Prefixes(Parent(p)) == {[]}; }
  }

  lemma NoFileAboveEntry(f: Forest, p: Path)
    requires WellFormed(f) && p in f
    ensures !FileAbove(f, p)
  {
  }

  lemma PutExactly(f: Forest, c: Change, q: Path)
    requires WellFormed(f) && (c.op == Create || c.op == Update)
    ensures ApplyOne(f, c).result == Reported(f, c) && Find(ApplyOne(f, c).forest, q) == Place(f, c, q)
  {
    var p := Paths.Locate(c.path);
    FileAboveIsOn(f, p);
    if !FileAbove(f, p) {
      MadeAbove(f, p, p);
      MadeAbove(f, p, q);
      if p in f && q <= p { PrefixIn(f, p, q); }
    }
  }

  lemma RemoveExactly(f: Forest, c: Change, q: Path)
    requires WellFormed(f) && c.op == Delete
    ensures ApplyOne(f, c).result == Reported(f, c) && Find(ApplyOne(f, c).forest, q) == Place(f, c, q)
  {
    FileAboveIsOn(f, Paths.Locate(c.path));
  }

  lemma RenameExactly(f: Forest, c: Change, q: Path)
    requires WellFormed(f) && c.op == Move
    ensures ApplyOne(f, c).result == Reported(f, c) && Find(ApplyOne(f, c).forest, q) == Place(f, c, q)
  {
    var a, b := Paths.Locate(c.path), Paths.Locate(c.newPath);
    FileAboveIsOn(f, a);
    FileAboveIsOn(f, b);
    if a in f { NoFileAboveEntry(f, a); }
    if a in f && !FileAbove(f, b) {
      var g := MadeDirs(f, Parent(b));
      MadeAbove(f, b, b);
      MadeAbove(f, b, q);
      if b in f {
        if q <= b { PrefixIn(f, b, q); }
      } else if !(a <= b) {
        FileOnSpelled(f, Parent(b));
        MadeDirsWellFormed(f, Parent(b));
        NothingUnderMissing(g, b);
        CarryFacts(g, a, b);
        if b <= q {
          MadeAbove(f, b, a + q[|b|..]);
          assert a <= a + q[|b|..];
        }
      }
    }
  }

  /** Each operation on a well-formed worktree answers exactly so and leaves exactly that. */
  lemma ApplyOneExactly(f: Forest, c: Change)
    requires WellFormed(f)
    ensures ApplyOne(f, c).result == Reported(f, c)
    ensures forall q :: Find(ApplyOne(f, c).forest, q) == Place(f, c, q)
  {
    hide ApplyOne, Reported, Place;
    forall q ensures ApplyOne(f, c).result == Reported(f, c) && Find(ApplyOne(f, c).forest, q) == Place(f, c, q) {
      match c.op {
        case Create | Update => PutExactly(f, c, q);
        case Delete => RemoveExactly(f, c, q);
        case Move => RenameExactly(f, c, q);
        case Unsupported => UnsupportedExactly(f, c, q);
      }
    }
    assert Find(ApplyOne(f, c).forest, []) == Place(f, c, []);
  }

  lemma UnsupportedExactly(f: Forest, c: Change, q: Path)
    requires c.op == Unsupported
    ensures ApplyOne(f, c).result == Reported(f, c) && Find(ApplyOne(f, c).forest, q) == Place(f, c, q)
  {
  }

  // --------------------------------------------------- what git sees of a change

  /** The meaning of a successful change on the git tree alone: directories do not matter. */
  function GitEffect(t: Tree, c: Change): Tree {
    var p := Paths.Locate(c.path);
    match c.op
    case Create => t[p := c.content]
    case Update => t[p := c.content]
    case Delete => Without(t, p)
    case Move => Carry(t, p, Paths.Locate(c.newPath))
    case Unsupported => t
  }

  function GitEffects(t: Tree, changes: seq<Change>): Tree
    decreases |changes|
  {
    if changes == [] then t else GitEffects(GitEffect(t, changes[0]), changes[1..])
  }

  /** Every operation keeps the forest well formed, whether it succeeds or not; if it
      fails git sees no difference, and if it succeeds git sees exactly its meaning. */
  lemma ApplyOneSound(f: Forest, c: Change)
    requires WellFormed(f) && Proper(c)
    ensures WellFormed(ApplyOne(f, c).forest)
    ensures Files(ApplyOne(f, c).forest) ==
            (if ApplyOne(f, c).result.Ok? then GitEffect(Files(f), c) else Files(f))
  {
    var p := Paths.Locate(c.path);
    match c.op {
      case Create => PutWellFormed(f, p, c.content);
      case Update => PutWellFormed(f, p, c.content);
      case Delete => RemoveWellFormed(f, p);
      case Move => RenameWellFormed(f, p, Paths.Locate(c.newPath));
      case Unsupported =>
    }
  }

  /** A whole changeset, also one that stops partway: the forest stays well formed, and a
      successful one leaves git exactly the effects of its changes, folded in order. */
  lemma {:induction false} ApplyAllSound(f: Forest, changes: seq<Change>, done: seq<Status>)
    requires WellFormed(f) && forall i :: 0 <= i < |changes| ==> Proper(changes[i])
    ensures WellFormed(ApplyFrom(f, changes, done).forest)
    ensures ApplyFrom(f, changes, done).result.Ok? ==>
              Files(ApplyFrom(f, changes, done).forest) == GitEffects(Files(f), changes)
              && |ApplyFrom(f, changes, done).result.value| == |done| + |changes|
    decreases |changes|
  {
    if changes != [] {
      var e := ApplyOne(f, changes[0]);
      ApplyOneSound(f, changes[0]);
      if e.result.Ok? {
        ApplyAllSound(e.forest, changes[1..], done + [e.result.value]);
      }
    }
  }

  // ---------------------------------------------------------------- framing

  /** Outside the path or paths of a change, the files are as before and no file appears. */
  lemma ChangeFraming(f: Forest, c: Change, q: Path)
    requires WellFormed(f) && Proper(c)
    requires !(Paths.Locate(c.path) <= q)
    requires c.op == Move ==> !(Paths.Locate(c.newPath) <= q)
    ensures q in Files(ApplyOne(f, c).forest) <==> q in Files(f)
    ensures q in Files(f) ==> Files(ApplyOne(f, c).forest)[q] == Files(f)[q]
  {
    ApplyOneSound(f, c);
    if c.op == Move && ApplyOne(f, c).result.Ok? {
      MoveTargetWasFree(f, Paths.Locate(c.path), Paths.Locate(c.newPath));
      CarryFacts(Files(f), Paths.Locate(c.path), Paths.Locate(c.newPath));
    }
  }

  lemma MoveTargetWasFree(f: Forest, a: Path, b: Path)
    requires WellFormed(f) && Rename(f, a, b).result.Ok?
    ensures forall q :: q in f ==> !(b <= q)
    ensures !(a <= b) && !(b <= a)
  {
    NothingUnderMissing(f, b);
  }

  // ------------------------------------------------------- moves conserve content

  /** In how many files a content occurs. */
  ghost function Copies(t: Tree, content: string): nat {
    |set p | p in t && t[p] == content|
  }

  /** Relocation is one to one on any paths of which none lies under the target. */
  lemma RelocateInjective(p: Path, q: Path, a: Path, b: Path)
    requires !(b <= p) && !(b <= q) && Relocate(p, a, b) == Relocate(q, a, b)
    ensures p == q
  {
    if a <= p && a <= q {
      assert (b + p[|a|..])[|b|..] == p[|a|..] && (b + q[|a|..])[|b|..] == q[|a|..];
      assert p == a + p[|a|..] && q == a + q[|a|..];
    }
    assert a <= p ==> b <= Relocate(p, a, b);
    assert a <= q ==> b <= Relocate(q, a, b);
  }

  lemma {:induction false} ImageSize(s: set<Path>, a: Path, b: Path)
    requires forall p :: p in s ==> !(b <= p)
    ensures |set p | p in s :: Relocate(p, a, b)| == |s|
    decreases |s|
  {
    if s == {} {
      assert (set p | p in s :: Relocate(p, a, b)) == {};
    } else {
      var x :| x in s;
      var rest := s - {x};
      ImageSize(rest, a, b);
      var image := set p | p in rest :: Relocate(p, a, b);
      if Relocate(x, a, b) in image {
        var y :| y in rest && Relocate(y, a, b) == Relocate(x, a, b);
        RelocateInjective(x, y, a, b);
      }
      assert (set p | p in s :: Relocate(p, a, b)) == image + {Relocate(x, a, b)};
    }
  }

  /** One successful move: each file goes where relocation says, with its content, every
      file of the result came from one, and no content occurs more or less often. */
  lemma MoveConserves(f: Forest, a: Path, b: Path, content: string)
    requires WellFormed(f) && Rename(f, a, b).result.Ok?
    ensures var t, u := Files(f), Files(Rename(f, a, b).forest);
            && (forall q :: q in t ==> Relocate(q, a, b) in u && u[Relocate(q, a, b)] == t[q])
            && (forall q :: q in u ==> exists r :: r in t && Relocate(r, a, b) == q)
            && Copies(u, content) == Copies(t, content)
  {
    var t, u := Files(f), Files(Rename(f, a, b).forest);
    RenameWellFormed(f, a, b);
    MoveTargetWasFree(f, a, b);
    CarryFacts(t, a, b);
    CarriedForward(t, u, a, b);
    CarriedCopies(t, u, a, b, content);
  }

  lemma CarriedCopies(t: Tree, u: Tree, a: Path, b: Path, content: string)
    requires Carried(t, u, a, b)
    ensures Copies(u, content) == Copies(t, content)
  {
    CarriedForward(t, u, a, b);
    var here := set p | p in t && t[p] == content;
    ImageSize(here, a, b);
    assert (set p | p in u && u[p] == content) == set p | p in here :: Relocate(p, a, b);
  }

  datatype MovePair = MovePair(source: Path, target: Path)

  function Moves(f: Forest, moves: seq<MovePair>): Effect<()>
    decreases |moves|
  {
    if moves == [] then Effect(f, Ok(()))
    else
      var e := Rename(f, moves[0].source, moves[0].target);
      if e.result.Err? then e else Moves(e.forest, moves[1..])
  }

  function Journey(q: Path, moves: seq<MovePair>): Path
    decreases |moves|
  {
    if moves == [] then q else Journey(Relocate(q, moves[0].source, moves[0].target), moves[1..])
  }

  /** Any sequence of successful moves carries every file along its journey and conserves
      the multiset of contents. */
  lemma {:induction false} MovesConserve(f: Forest, moves: seq<MovePair>, content: string)
    requires WellFormed(f) && Moves(f, moves).result.Ok?
    ensures var t, u := Files(f), Files(Moves(f, moves).forest);
            && (forall q :: q in t ==> Journey(q, moves) in u && u[Journey(q, moves)] == t[q])
            && Copies(u, content) == Copies(t, content)
    decreases |moves|
  {
    if moves != [] {
      var a, b := moves[0].source, moves[0].target;
      MoveConserves(f, a, b, content);
      RenameWellFormed(f, a, b);
      MovesConserve(Rename(f, a, b).forest, moves[1..], content);
    }
  }

  /** Carrying away and back changes nothing. */
  lemma CarriedBack<V>(m: map<Path, V>, g: map<Path, V>, a: Path, b: Path)
    requires Carried(m, g, a, b) && !(a <= b) && !(b <= a)
    ensures Carried(g, m, b, a)
  {
    forall q ensures q in m <==> if a <= q then b + q[|a|..] in g else q in g && !(b <= q) {
      if a <= q {
        assert (b + q[|a|..])[|b|..] == q[|a|..] && a + q[|a|..] == q;
      }
    }
    forall q | q in m ensures m[q] == g[if a <= q then b + q[|a|..] else q] {
      if a <= q {
        assert (b + q[|a|..])[|b|..] == q[|a|..] && a + q[|a|..] == q;
      }
    }
    forall q | q in g && a <= q ensures false {
      if b <= q { PrefixesComparable(a, b, q); }
    }
  }

  /** The directory that held `a` is still a directory once `a` has been carried to `b`. */
  lemma CarriedParentStays(f: Forest, g: Forest, a: Path, b: Path)
    requires WellFormed(f) && WellFormed(g) && Carried(f, g, a, b) && a in f && a != [] && !(b <= a)
    ensures a !in g && Parent(a) in g && g[Parent(a)] == Dir && !FileOn(g, Parent(a))
  {
    assert !(b <= Parent(a)) && !(a <= Parent(a));
    FileOnSpelled(g, Parent(a));
    forall k | 0 <= k <= |Parent(a)| && Parent(a)[..k] in g ensures g[Parent(a)[..k]] == Dir {
      assert k < |Parent(a)| || Parent(a)[..k] == Parent(a);
    }
  }

  /** After a successful move the move back always succeeds, and git sees the old tree again. */
  lemma MoveAndBack(f: Forest, a: Path, b: Path)
    requires WellFormed(f) && Rename(f, a, b).result.Ok?
    ensures var g := Rename(f, a, b).forest;
            Rename(g, b, a).result.Ok? && Files(Rename(g, b, a).forest) == Files(f)
  {
    var made := MadeDirs(f, Parent(b));
    var g := Carry(made, a, b);
    MadeDirsWellFormed(f, Parent(b));
    NothingUnderMissing(made, b);
    CarryFacts(made, a, b);
    RenameWellFormed(f, a, b);
    CarriedParentStays(made, g, a, b);
    assert a + b[|b|..] == a;
    MadeDirsSame(g, Parent(a));
    RenameWellFormed(g, b, a);
    CarriedFiles(made, g, a, b);
    CarriedBack(Files(f), Files(g), a, b);
    NothingUnderMissing(g, a);
    CarryFacts(Files(g), b, a);
    CarriedUnique(Files(g), Files(f), Carry(Files(g), b, a), b, a);
  }

  lemma MadeDirsSame(f: Forest, d: Path)
    requires WellFormed(f) && d in f && f[d] == Dir
    ensures MadeDirs(f, d) == f
  {
  }

  // ------------------------------------------------------------ the worktree object

  /** One level of os.MkdirAll: making the next directory continues what was made above it,
      and meeting a file means that nothing has been made yet. */
  lemma LevelFacts(f: Forest, d: Path, k: nat)
    requires WellFormed(f) && k <= |d| && (k > 0 ==> !FileOn(f, d[..k - 1]))
    ensures var made := if k == 0 then f else MadeDirs(f, d[..k - 1]);
            && made[d[..k] := Dir] == MadeDirs(f, d[..k])
            && (d[..k] in made && made[d[..k]].File? ==> FileOn(f, d) && made == f)
            && (!(d[..k] in made && made[d[..k]].File?) ==> !FileOn(f, d[..k]))
  {
    var here := d[..k];
    if k == 0 {
      assert forall q :: q in Prefixes(here) <==> q == here;
      assert here in Prefixes(d);
    } else {
      var above := d[..k - 1];
      NextLevel(above, here);
      NextDir(f, above, here);
      assert here in Prefixes(d);
      if here in f && f[here].File? {
        PrefixIn(f, here, above);
        MadeDirsSame(f, above);
      }
    }
  }

  lemma NextDir(f: Forest, above: Path, here: Path)
    requires Prefixes(here) == Prefixes(above) + {here} && here !in Prefixes(above)
    requires !FileOn(f, above)
    ensures MadeDirs(f, above)[here := Dir] == MadeDirs(f, here)
    ensures FileOn(f, here) <==> here in f && f[here].File?
    ensures here in f ==> MadeDirs(f, above)[here] == f[here]
    ensures here in MadeDirs(f, above) <==> here in f
  {
  }

  lemma NextLevel(above: Path, here: Path)
    requires |here| > 0 && above == here[..|here| - 1]
    ensures Prefixes(here) == Prefixes(above) + {here} && here !in Prefixes(above)
  {
    forall q ensures q in Prefixes(here) <==> q in Prefixes(above) || q == here {
      if q <= here && q != here {
        assert |q| < |here|;
        assert q == here[..|q|] == above[..|q|];
      }
      if q <= above { assert q == above[..|q|] == here[..|q|]; }
    }
  }

  /** The checked-out directory that a changeset works in. */
  class Checkout {
    var entries: Forest

    ghost predicate Valid()
      reads this
    {
      WellFormed(entries)
    }

    /** git worktree add: only files of the tree and the directories above them. */
    constructor (t: Tree)
      requires PrefixFree(t)
      ensures Valid() && entries == CheckoutOf(t)
    {
      CheckoutWellFormed(t);
      entries := CheckoutOf(t);
    }

    /** os.MkdirAll, one level at a time from the top. */
    method MkdirAll(d: Path) returns (ok: bool)
      requires Valid()
      modifies this
      ensures Valid() && ok == !FileOn(old(entries), d)
      ensures entries == if ok then MadeDirs(old(entries), d) else old(entries)
    {
      ghost var before := entries;
      FileOnSpelled(before, d);
      var k := 0;
      while k <= |d|
        invariant 0 <= k <= |d| + 1
        invariant entries == (if k == 0 then before else MadeDirs(before, d[..k - 1]))
        invariant k > 0 ==> !FileOn(before, d[..k - 1])
      {
        var here := d[..k];
        LevelFacts(before, d, k);
        if here in entries && entries[here].File? {
          return false;
        }
        entries := entries[here := Dir];
        k := k + 1;
      }
      assert d[..|d|] == d;
      MadeDirsWellFormed(before, d);
      ok := true;
    }

    /** applyOne: each branch makes its calls in the source's order. */
    method Apply(c: Change) returns (r: Result<Status, Failure>)
      requires Valid() && Proper(c)
      modifies this
      ensures Valid() && Effect(entries, r) == ApplyOne(old(entries), c)
      ensures r == Reported(old(entries), c)
      ensures forall q :: Find(entries, q) == Place(old(entries), c, q)
    {
      hide Reported, Place;
      ApplyOneSound(entries, c);
      ApplyOneExactly(entries, c);
      var abs := Paths.Locate(c.path);
      match c.op {
        case Create | Update =>
          var made := MkdirAll(Parent(abs));
          if !made { return Err(NotADirectory); }
          if abs in entries && entries[abs].Dir? { return Err(IsADirectory); }
          entries := entries[abs := File(c.content)];
          r := Ok(if c.op == Create then Created else Updated);
        case Delete =>
          if abs == [] { return Err(WorktreeGone); }
          if FileOn(entries, Parent(abs)) { return Err(NotADirectory); }
          entries := Without(entries, abs);
          r := Ok(Deleted);
        case Move =>
          if abs !in entries {
            return Err(if FileOn(entries, Parent(abs)) then NotADirectory else SourceMissing);
          }
          var newAbs := Paths.Locate(c.newPath);
          var made := MkdirAll(Parent(newAbs));
          if !made { return Err(NotADirectory); }
          if newAbs in entries { return Err(PathExists); }
          if abs <= newAbs { return Err(IntoItself); }
          entries := Carry(entries, abs, newAbs);
          r := Ok(Moved);
        case Unsupported =>
          r := Err(UnsupportedOp);
      }
    }

    /** The loop over the changes of one request. */
    method ApplyChanges(changes: seq<Change>) returns (r: Result<seq<Status>, Failure>)
      requires Valid() && forall i :: 0 <= i < |changes| ==> Proper(changes[i])
      modifies this
      ensures Valid() && Effect(entries, r) == ApplyAll(old(entries), changes)
    {
      ghost var before := entries;
      var outcomes := [];
      for i := 0 to |changes|
        invariant Valid()
        invariant ApplyFrom(entries, changes[i..], outcomes) == ApplyAll(before, changes)
      {
        assert changes[i..][0] == changes[i] && changes[i..][1..] == changes[i + 1..];
        var outcome := Apply(changes[i]);
        if outcome.Err? { return Err(outcome.error); }
        outcomes := outcomes + [outcome.value];
      }
      r := Ok(outcomes);
    }

    /** git add -A and git write-tree. */
    method WriteTree() returns (t: Tree)
      requires Valid()
      ensures t == Files(entries) && PrefixFree(t)
    {
      FilesPrefixFree(entries);
      t := Files(entries);
    }
  }
}
