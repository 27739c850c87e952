/** Commits as structural values, and the reverse of the change a commit made. */
module Commits {
  import opened Common
  import opened Worktree

  // ------------------------------------------------------------------- commits

  /** Message, author and time of a commit. */
  datatype Meta = Meta(message: string, author: string, time: int)

  /** A commit is identified by all it contains, its history included. */
  datatype Commit = Root(tree: Tree, meta: Meta) | Child(parent: Commit, tree: Tree, meta: Meta)

  ghost function Depth(c: Commit): nat {
    if c.Root? then 0 else 1 + Depth(c.parent)
  }

  /** `a` is `b` or one of the commits behind it. */
  ghost predicate Ancestor(a: Commit, b: Commit) {
    a == b || (b.Child? && Ancestor(a, b.parent))
  }

  lemma {:induction false} AncestorTransitive(a: Commit, b: Commit, c: Commit)
    requires Ancestor(a, b) && Ancestor(b, c)
    ensures Ancestor(a, c)
  {
    if b != c { AncestorTransitive(a, b, c.parent); }
  }

  lemma {:induction false} AncestorDepth(a: Commit, b: Commit)
    requires Ancestor(a, b)
    ensures Depth(a) <= Depth(b)
    ensures Depth(a) == Depth(b) ==> a == b
  {
    if a != b { AncestorDepth(a, b.parent); }
  }

  /** A history holds one commit of each depth. */
  lemma {:induction false} OneAncestorPerDepth(a: Commit, b: Commit, c: Commit)
    requires Ancestor(a, c) && Ancestor(b, c) && Depth(a) == Depth(b)
    ensures a == b
  {
    if a == c {
      AncestorDepth(b, c);
    } else if b == c {
      AncestorDepth(a, c);
    } else {
      OneAncestorPerDepth(a, b, c.parent);
    }
  }

  // ------------------------------------------------------------ reverse patches

  /** The file-level difference a commit made: both sides at each path where they differ. */
  datatype Delta = Delta(was: Tree, became: Tree)

  function Before(c: Commit): Tree {
    if c.Root? then map[] else c.parent.tree
  }

  function Touched(d: Delta): set<Path> {
    d.was.Keys + d.became.Keys
  }

  /** git show of one commit. */
  function DeltaOf(c: Commit): Delta {
    var was, became := Before(c), c.tree;
    Delta(map p | p in was && Find(became, p) != Find(was, p) :: was[p],
          map p | p in became && Find(became, p) != Find(was, p) :: became[p])
  }

  function Unapplied(d: Delta, t: Tree): Tree {
    map p | p in (t.Keys - Touched(d)) + d.was.Keys :: if p in d.was then d.was[p] else t[p]
  }

  /** git apply --reverse --check: an empty patch is refused, every touched path must be as the
      commit left it, and the restored files must fit beside the others. */
  predicate Applies(d: Delta, t: Tree) {
    && Touched(d) != {}
    && (forall p :: p in Touched(d) ==> Find(t, p) == Find(d.became, p))
    && PrefixFree(Unapplied(d, t))
  }

  /** git show and git apply --reverse in a worktree. */
  function Reverse(target: Commit, f: Forest): Option<Forest> {
    var d, t := DeltaOf(target), Files(f);
    if Applies(d, t) then Some(CheckoutOf(Unapplied(d, t))) else None
  }

  lemma ReverseIsApply(target: Commit, f: Forest)
    ensures Reverse(target, f).Some? ==>
              Files(Reverse(target, f).value) == Unapplied(DeltaOf(target), Files(f))
              && WellFormed(Reverse(target, f).value)
  {
    if Reverse(target, f).Some? { CheckoutWellFormed(Unapplied(DeltaOf(target), Files(f))); }
  }

  /** Which paths a commit touched. */
  lemma TouchedExactly(c: Commit, p: Path)
    ensures p in Touched(DeltaOf(c)) <==> Find(Before(c), p) != Find(c.tree, p)
  {
  }

  /** Reversing a commit on any tree: exactly the paths the commit touched return to what they
      were before it, every other path keeps what it has now. */
  lemma ReverseExactly(target: Commit, t: Tree, p: Path)
    requires PrefixFree(t) && Reverse(target, CheckoutOf(t)).Some?
    ensures Find(Files(Reverse(target, CheckoutOf(t)).value), p) ==
            if Find(Before(target), p) != Find(target.tree, p) then Find(Before(target), p) else Find(t, p)
    ensures Find(Before(target), p) != Find(target.tree, p) ==> Find(t, p) == Find(target.tree, p)
  {
    CheckoutWellFormed(t);
    ReverseIsApply(target, CheckoutOf(t));
    TouchedExactly(target, p);
  }

  /** The commit changed something at `p`. */
  ghost predicate ChangedAt(c: Commit, p: Path) {
    Find(Before(c), p) != Find(c.tree, p)
  }

  /** `u` is `t` with exactly the paths that the commit changed set back. */
  ghost predicate SetBack(c: Commit, t: Tree, u: Tree) {
    forall p :: Find(u, p) == if ChangedAt(c, p) then Find(Before(c), p) else Find(t, p)
  }

  lemma UnappliedSetsBack(c: Commit, t: Tree)
    ensures SetBack(c, t, Unapplied(DeltaOf(c), t))
  {
    forall p ensures Find(Unapplied(DeltaOf(c), t), p) == if ChangedAt(c, p) then Find(Before(c), p) else Find(t, p) {
      TouchedExactly(c, p);
    }
  }

  lemma SetBackUnique(c: Commit, t: Tree, u: Tree, v: Tree)
    requires SetBack(c, t, u) && SetBack(c, t, v)
    ensures u == v
  {
    SameTree(u, v);
  }

  lemma DeltaAt(c: Commit, p: Path)
    ensures p in Touched(DeltaOf(c)) <==> ChangedAt(c, p)
    ensures ChangedAt(c, p) ==> Find(DeltaOf(c).became, p) == Find(c.tree, p)
  {
  }

  lemma AppliesExactly(c: Commit, t: Tree)
    ensures Applies(DeltaOf(c), t) <==>
            && c.tree != Before(c)
            && (forall p :: ChangedAt(c, p) ==> Find(t, p) == Find(c.tree, p))
            && exists u :: SetBack(c, t, u) && PrefixFree(u)
  {
    hide SetBack, PrefixFree, DeltaOf, Touched, Unapplied, ChangedAt;
    forall p ensures p in Touched(DeltaOf(c)) <==> ChangedAt(c, p) { DeltaAt(c, p); }
    forall p | ChangedAt(c, p) ensures Find(DeltaOf(c).became, p) == Find(c.tree, p) { DeltaAt(c, p); }
    ChangedSomewhere(c);
    UnappliedSetsBack(c, t);
    if u :| SetBack(c, t, u) && PrefixFree(u) { SetBackUnique(c, t, u, Unapplied(DeltaOf(c), t)); }
  }

  lemma ChangedSomewhere(c: Commit)
    ensures c.tree != Before(c) <==> exists p :: ChangedAt(c, p)
  {
    if forall p :: !ChangedAt(c, p) {
      forall p ensures Find(Before(c), p) == Find(c.tree, p) { assert !ChangedAt(c, p); }
      SameTree(Before(c), c.tree);
    }
  }

  /** When a commit can be reversed on a tree, whatever came after it: exactly if it changed something,
      the tree has at each path it changed what it left there, and the tree with those paths set back
      has no file under another one. That tree is then the result. */
  lemma ReverseAppliesExactly(c: Commit, t: Tree)
    requires PrefixFree(t)
    ensures Reverse(c, CheckoutOf(t)).Some? <==>
            && c.tree != Before(c)
            && (forall p :: ChangedAt(c, p) ==> Find(t, p) == Find(c.tree, p))
            && exists u :: SetBack(c, t, u) && PrefixFree(u)
    ensures Reverse(c, CheckoutOf(t)).Some? ==> SetBack(c, t, Files(Reverse(c, CheckoutOf(t)).value))
  {
    hide Applies, SetBack, PrefixFree, Unapplied;
    CheckoutWellFormed(t);
    ReverseIsApply(c, CheckoutOf(t));
    UnappliedSetsBack(c, t);
    AppliesExactly(c, t);
  }

  /** No commit after `c`, up to `head`, changed a path that `c` changed. */
  ghost predicate LaterLeave(c: Commit, head: Commit) {
    || head == c
    || (head.Child? && LaterLeave(c, head.parent) && forall p :: ChangedAt(c, p) ==> !ChangedAt(head, p))
  }

  lemma {:induction false} LaterLeaveKeeps(c: Commit, head: Commit, p: Path)
    requires LaterLeave(c, head) && ChangedAt(c, p)
    ensures Find(head.tree, p) == Find(c.tree, p)
  {
    if head != c { LaterLeaveKeeps(c, head.parent, p); }
  }

  /** An older commit whose paths were left alone since can be reversed, if the files then fit. */
  lemma ReverseOlder(c: Commit, head: Commit, u: Tree)
    requires LaterLeave(c, head) && PrefixFree(head.tree) && c.tree != Before(c)
    requires SetBack(c, head.tree, u) && PrefixFree(u)
    ensures Reverse(c, CheckoutOf(head.tree)).Some? && Files(Reverse(c, CheckoutOf(head.tree)).value) == u
  {
    hide SetBack, Reverse, PrefixFree;
    forall p | ChangedAt(c, p) ensures Find(head.tree, p) == Find(c.tree, p) { LaterLeaveKeeps(c, head, p); }
    ReverseAppliesExactly(c, head.tree);
    SetBackUnique(c, head.tree, u, Files(Reverse(c, CheckoutOf(head.tree)).value));
  }

  /** Reversing a commit where it is the newest one gives the tree before it, and is refused
      exactly when the commit changed nothing. */
  lemma ReverseNewest(c: Commit)
    requires PrefixFree(c.tree) && PrefixFree(Before(c))
    ensures Reverse(c, CheckoutOf(c.tree)).Some? <==> c.tree != Before(c)
    ensures c.tree != Before(c) ==> Files(Reverse(c, CheckoutOf(c.tree)).value) == Before(c)
  {
    CheckoutWellFormed(c.tree);
    ReverseIsApply(c, CheckoutOf(c.tree));
    var d := DeltaOf(c);
    assert Unapplied(d, c.tree) == Before(c) by {
      forall p ensures Find(Unapplied(d, c.tree), p) == Find(Before(c), p) {}
      SameTree(Unapplied(d, c.tree), Before(c));
    }
    if c.tree != Before(c) && Touched(d) == {} {
      forall p ensures Find(c.tree, p) == Find(Before(c), p) { TouchedExactly(c, p); }
      SameTree(c.tree, Before(c));
    }
  }

  lemma SameTree(t: Tree, u: Tree)
    requires forall p :: Find(t, p) == Find(u, p)
    ensures t == u
  {
    forall p ensures p in t <==> p in u { assert Find(t, p) == Find(u, p); }
    forall p | p in t ensures t[p] == u[p] { assert Find(t, p) == Find(u, p); }
  }
}
