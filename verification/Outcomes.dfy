/** The answers to changesets said outright: which requests are refused and why, and, from the
    tree of the base alone, when a change goes through and what it leaves at every path. */
module Outcomes {
  import opened Common
  import opened Worktree
  import opened Commits
  import opened Changesets
  import Paths

  // -------------------------------------------------------- validation and decoding

  /** A relative path without backslash that stays inside the project at every segment. */
  ghost predicate Inside(p: string) {
    p != "" && p[0] != '/' && '\\' !in p && Paths.StaysInside(Split(p, '/'))
  }

  /** Which changes pass validation. Sizes are those of the text or, for base64, the decoder's bound
      of three bytes for every four characters; a move needs another place to go to. */
  lemma ValidExactly(c: Change)
    ensures ValidChange(c) <==>
            && Inside(c.path)
            && (c.op == Create || c.op == Update || c.op == Delete || c.op == Move)
            && (c.op == Create || c.op == Update ==>
                  || (c.encoding == Plain && |c.content| <= 5242880)
                  || (c.encoding.Base64? && c.encoding.decoded.Some? && |c.content| / 4 * 3 <= 5242880))
            && (c.op == Move ==> Inside(c.newPath) && Paths.Locate(c.newPath) != Paths.Locate(c.path))
  {
    Paths.AcceptedIffInside(c.path);
    Paths.AcceptedIffInside(c.newPath);
    hide Paths.AcceptsDocPath, Paths.StaysInside, Paths.Locate;
  }

  /** What a change is after decoding: only a base64 payload is replaced, by what it encodes. */
  ghost predicate IsDecoded(c: Change, d: Change) {
    && d.op == c.op && d.path == c.path && d.newPath == c.newPath
    && if c.encoding.Base64? then c.encoding.decoded == Some(d.content) && d.encoding == Plain
       else d.content == c.content && d.encoding == c.encoding
  }

  /** Decoding succeeds exactly when every base64 payload is one, and replaces those and nothing else. */
  lemma DecodedExactly(changes: seq<Change>)
    ensures DecodeAll(changes).Some? <==>
            forall i :: 0 <= i < |changes| && changes[i].encoding.Base64? ==> changes[i].encoding.decoded.Some?
    ensures DecodeAll(changes).Some? ==>
              var plain := DecodeAll(changes).value;
              |plain| == |changes| && forall i :: 0 <= i < |changes| ==> IsDecoded(changes[i], plain[i])
  {
    if c :| c in changes && Decode(c).None? {
      var i :| 0 <= i < |changes| && changes[i] == c;
      assert changes[i].encoding.Base64?;
    }
    forall i | 0 <= i < |changes| && Decode(changes[i]).None? ensures DecodeAll(changes).None? {
      assert changes[i] in changes;
    }
  }

  /** The refusals before anything is built, in the order in which the source looks for them:
      no or more than 100 changes or an invalid one, an archived project, another base. */
  lemma RefusedExactly(head: Commit, archived: bool, input: Input)
    ensures var n := |input.changes|;
            var ok := 1 <= n <= 100 && forall i :: 0 <= i < n ==> ValidChange(input.changes[i]);
            var r := Verdict(head, archived, input);
            && (r == Invalid <==> !ok)
            && (r == Archived <==> ok && archived)
            && (r == Conflict <==> ok && !archived && head != input.base)
            && (r.Rejected? || r.Previewed? || r.Committed? <==> ok && !archived && head == input.base)
            && (r.Committed? ==>
                  !input.dryRun && r.commit.Child? && r.commit.parent == head && r.commit.meta == input.meta)
            && (r.Previewed? ==> input.dryRun && r.revision == head)
  {
    hide ValidChange, Build;
    assert forall i :: 0 <= i < |input.changes| ==> input.changes[i] in input.changes;
  }

  // ---------------------------------------------------- many changes, one after another

  /** The worktrees that the changes go through, as far as they succeed. */
  ghost predicate Stations(f: Forest, changes: seq<Change>, fs: seq<Forest>) {
    && 1 <= |fs| <= |changes| + 1 && fs[0] == f
    && forall i :: 0 <= i < |fs| - 1 ==> Reported(fs[i], changes[i]).Ok? && Onward(fs[i], changes[i], fs[i + 1])
  }

  ghost predicate Onward(f: Forest, c: Change, g: Forest) {
    forall q :: Find(g, q) == Place(f, c, q)
  }

  ghost predicate Tells(f: Forest, c: Change, s: Status) {
    Reported(f, c) == Ok(s)
  }

  /** A whole list of changes: it succeeds exactly when each change succeeds on what the earlier ones
      left, with the status of each; otherwise it stops with the first failure. */
  lemma {:induction false} ApplyAllExactly(f: Forest, changes: seq<Change>, done: seq<Status>) returns (fs: seq<Forest>)
    requires WellFormed(f) && forall i :: 0 <= i < |changes| ==> Proper(changes[i])
    ensures Stations(f, changes, fs)
    ensures var e := ApplyFrom(f, changes, done);
            && (e.result.Ok? <==> |fs| == |changes| + 1)
            && (e.result.Ok? ==>
                  && e.forest == fs[|changes|] && |e.result.value| == |done| + |changes|
                  && (forall i :: 0 <= i < |changes| ==> Tells(fs[i], changes[i], e.result.value[|done| + i])))
            && (e.result.Err? ==> Reported(fs[|fs| - 1], changes[|fs| - 1]) == Err(e.result.error))
    ensures ApplyFrom(f, changes, done).result.Ok? ==> done <= ApplyFrom(f, changes, done).result.value
    decreases |changes|
  {
    hide Reported, Place, ApplyOne, WellFormed, Proper;
    if changes == [] {
      fs := [f];
    } else {
      var e := ApplyOne(f, changes[0]);
      ApplyOneExactly(f, changes[0]);
      if e.result.Err? {
        fs := [f];
      } else {
        ApplyOneSound(f, changes[0]);
        var rest := ApplyAllExactly(e.forest, changes[1..], done + [e.result.value]);
        fs := [f] + rest;
        assert forall i :: 0 < i < |fs| ==> fs[i] == rest[i - 1];
        assert forall i :: 0 < i < |changes| ==> changes[i] == changes[1..][i - 1];
        assert Onward(f, changes[0], fs[1]);
        var all := ApplyFrom(f, changes, done);
        if all.result.Ok? {
          forall i | 0 <= i < |changes| ensures Tells(fs[i], changes[i], all.result.value[|done| + i]) {
            if i > 0 { assert Tells(rest[i - 1], changes[1..][i - 1], all.result.value[|done| + 1 + (i - 1)]); }
          }
        }
      }
    }
  }

  /** A build: its answer is settled by the worktrees its decoded changes go through from the
      checked-out base, and the tree it writes holds the files of the last of them. */
  lemma BuildExactly(t: Tree, changes: seq<Change>) returns (fs: seq<Forest>)
    requires PrefixFree(t) && ProperInput(changes) && DecodeAll(changes).Some?
    ensures var plain, r := DecodeAll(changes).value, Build(CheckoutOf(t), changes);
            && |plain| == |changes| && Stations(CheckoutOf(t), plain, fs)
            && (r.Ok? <==> |fs| == |changes| + 1)
            && (r.Ok? ==>
                  && |r.value.statuses| == |changes|
                  && (forall i :: 0 <= i < |changes| ==> Tells(fs[i], plain[i], r.value.statuses[i]))
                  && (forall q, text :: q in r.value.tree && r.value.tree[q] == text <==>
                                        Find(fs[|changes|], q) == Some(File(text))))
            && (r.Err? ==> r.error.FileOperation? && Reported(fs[|fs| - 1], plain[|fs| - 1]) == Err(r.error.failure))
  {
    hide Reported, Place, WellFormed, Proper, CheckoutOf, DecodeAll, Stations;
    var plain := DecodeAll(changes).value;
    CheckoutWellFormed(t);
    DecodedExactly(changes);
    DecodedProper(changes);
    fs := ApplyAllExactly(CheckoutOf(t), plain, []);
  }

  // ------------------------------------------------- one change, from the tree alone

  /** A file of the tree lies strictly above `p`. */
  ghost predicate UnderFile(t: Tree, p: Path) {
    exists k :: 0 <= k < |p| && p[..k] in t
  }

  /** There is a file or directory at `p`: some file is there or under it. */
  ghost predicate Exists(t: Tree, p: Path) {
    p == [] || exists q :: q in t && p <= q
  }

  lemma CheckoutAnswers(t: Tree, p: Path)
    ensures FileAbove(CheckoutOf(t), p) <==> UnderFile(t, p)
    ensures p in CheckoutOf(t) <==> Exists(t, p)
    ensures Find(CheckoutOf(t), p) == Some(Dir) <==> Exists(t, p) && p !in t
  {
    hide CheckoutOf;
    CheckoutEntries(t, p);
    forall k | 0 <= k < |p| ensures p[..k] in CheckoutOf(t) && CheckoutOf(t)[p[..k]].File? <==> p[..k] in t {
      CheckoutEntries(t, p[..k]);
      assert p[..k] in t ==> p[..k] <= p[..k];
    }
  }

  /** The answer to one change: a create or update goes through unless a file is above the path or a
      directory is there, a delete unless it names the project itself or a file is above the path,
      a move if the source exists and the target neither exists, nor is under a file or the source. */
  ghost function AnswerOn(t: Tree, c: Change): Result<Status, Failure> {
    var p, b := Paths.Locate(c.path), Paths.Locate(c.newPath);
    if c.op == Unsupported then Err(UnsupportedOp)
    else if c.op == Delete && p == [] then Err(WorktreeGone)
    else if UnderFile(t, p) || (c.op == Move && Exists(t, p) && UnderFile(t, b)) then Err(NotADirectory)
    else if c.op == Delete then Ok(Deleted)
    else if c.op == Move then
      if !Exists(t, p) then Err(SourceMissing)
      else if Exists(t, b) then Err(PathExists)
      else if p <= b then Err(IntoItself)
      else Ok(Moved)
    else if Exists(t, p) && p !in t then Err(IsADirectory)
    else Ok(if c.op == Create then Created else Updated)
  }

  /** What a successful change leaves at `q`. */
  ghost function TextAfter(t: Tree, c: Change, q: Path): Option<string> {
    var p, b := Paths.Locate(c.path), Paths.Locate(c.newPath);
    match c.op
    case Create | Update => if q == p then Some(c.content) else Find(t, q)
    case Delete => if p <= q then None else Find(t, q)
    case Move => if b <= q then Find(t, p + q[|b|..]) else if p <= q then None else Find(t, q)
    case Unsupported => Find(t, q)
  }

  lemma AnswerOnTree(t: Tree, c: Change)
    ensures Reported(CheckoutOf(t), c) == AnswerOn(t, c)
  {
    hide CheckoutOf, FileAbove, UnderFile, Exists;
    CheckoutAnswers(t, Paths.Locate(c.path));
    CheckoutAnswers(t, Paths.Locate(c.newPath));
  }

  lemma CheckoutText(f: Forest, q: Path, at: Option<Node>)
    requires Find(f, q) == at
    ensures Find(Files(f), q) == (if at.Some? && at.value.File? then Some(at.value.content) else None)
  {
  }

  /** What the place of an operation holds as text, when it succeeds. */
  lemma PlaceText(t: Tree, c: Change, q: Path)
    requires PrefixFree(t) && AnswerOn(t, c).Ok? && Reported(CheckoutOf(t), c) == AnswerOn(t, c)
    ensures var at := Place(CheckoutOf(t), c, q);
            TextAfter(t, c, q) == (if at.Some? && at.value.File? then Some(at.value.content) else None)
  {
    hide CheckoutOf, Reported, FileAbove;
    var p, b := Paths.Locate(c.path), Paths.Locate(c.newPath);
    CheckoutEntries(t, q);
    CheckoutEntries(t, p + (if b <= q then q[|b|..] else []));
    if q <= p && q != p { assert q == p[..|q|]; }
    if q <= b && q != b { assert q == b[..|q|]; }
    assert forall r :: r in t ==> r <= r;
  }

  /** One change on the worktree of a prefix-free tree: its answer, and what git sees after it. */
  lemma OneChangeExactly(t: Tree, c: Change)
    requires PrefixFree(t) && Proper(c)
    ensures var e := ApplyOne(CheckoutOf(t), c);
            && e.result == AnswerOn(t, c)
            && forall q :: Find(Files(e.forest), q) == if e.result.Ok? then TextAfter(t, c, q) else Find(t, q)
  {
    hide CheckoutOf, ApplyOne, Reported, AnswerOn, TextAfter, Place, Files, PrefixFree, Proper;
    var f := CheckoutOf(t);
    CheckoutWellFormed(t);
    ApplyOneExactly(f, c);
    ApplyOneSound(f, c);
    AnswerOnTree(t, c);
    var e := ApplyOne(f, c);
    forall q ensures Find(Files(e.forest), q) == if e.result.Ok? then TextAfter(t, c, q) else Find(t, q) {
      if e.result.Ok? {
        PlaceText(t, c, q);
        CheckoutText(e.forest, q, Place(f, c, q));
      }
    }
  }

  /** A valid request of one change on the present base of an open project, `d` being the change once
      decoded: it commits, or previews a dry run, exactly when the change goes through. */
  lemma OneChangeVerdict(head: Commit, input: Input, d: Change)
    requires PrefixFree(head.tree) && ProperInput(input.changes) && head == input.base
    requires |input.changes| == 1 && ValidChange(input.changes[0]) && IsDecoded(input.changes[0], d)
    ensures var a, r := AnswerOn(head.tree, d), Verdict(head, false, input);
            && (a.Err? ==> r == Rejected(FileOperation(a.error)))
            && (a.Ok? && input.dryRun ==>
                  && r.Previewed? && r.revision == head && r.preview.statuses == [a.value]
                  && forall q :: Find(r.preview.tree, q) == TextAfter(head.tree, d, q))
            && (a.Ok? && !input.dryRun ==>
                  && r.Committed? && r.commit.Child? && r.commit.parent == head
                  && forall q :: Find(r.commit.tree, q) == TextAfter(head.tree, d, q))
  {
    hide ValidChange, AnswerOn, TextAfter, ApplyOne, CheckoutOf, PrefixFree;
    var c := input.changes[0];
    DecodedExactly(input.changes);
    assert input.changes == [c];
    assert forall i :: 0 <= i < |input.changes| ==> input.changes[i] == c;
    var plain := DecodeAll(input.changes).value;
    assert IsDecoded(c, plain[0]) && plain[0] == d && plain == [d];
    assert Proper(c) && Proper(d);
    OneChangeExactly(head.tree, d);
    var e := ApplyOne(CheckoutOf(head.tree), d);
    ApplyAllOne(CheckoutOf(head.tree), d);
    assert forall x :: x in input.changes ==> x == c;
  }

  lemma ApplyAllOne(f: Forest, c: Change)
    ensures var e := ApplyOne(f, c);
            ApplyAll(f, [c]) == Effect(e.forest, if e.result.Ok? then Ok([e.result.value]) else Err(e.result.error))
  {
    hide ApplyOne;
    var e := ApplyOne(f, c);
    assert [c][1..] == [];
    if e.result.Ok? {
      var told := [e.result.value];
      assert [] + told == told && ApplyFrom(e.forest, [], told) == Effect(e.forest, Ok(told));
    }
  }

  // ------------------------------------------------------------------------ reverts

  /** The answer to a revert of any commit at any head, in the source's order of checks. */
  lemma RevertExactly(head: Commit, archived: bool, target: Option<Commit>, meta: Meta)
    requires PrefixFree(head.tree)
    ensures var r := RevertVerdict(head, archived, target, meta);
            && (r == Archived <==> archived)
            && (r == NotFound <==> !archived && target.None?)
            && (r == PatchRefused || r.Committed? <==> !archived && target.Some?)
            && (r.Committed? <==>
                  && !archived && target.Some? && target.value.tree != Before(target.value)
                  && (forall p :: ChangedAt(target.value, p) ==> Find(head.tree, p) == Find(target.value.tree, p))
                  && exists u :: SetBack(target.value, head.tree, u) && PrefixFree(u))
            && (r.Committed? ==>
                  && r.commit.Child? && r.commit.parent == head && r.commit.meta == meta
                  && SetBack(target.value, head.tree, r.commit.tree))
  {
    hide Reverse, SetBack, ChangedAt, PrefixFree, CheckoutOf;
    if target.Some? { ReverseAppliesExactly(target.value, head.tree); }
  }

  /** An older commit is reverted whenever no later commit changed its paths and its files fit. */
  lemma RevertOlder(c: Commit, head: Commit, u: Tree, meta: Meta)
    requires LaterLeave(c, head) && PrefixFree(head.tree) && c.tree != Before(c)
    requires SetBack(c, head.tree, u) && PrefixFree(u)
    ensures RevertVerdict(head, false, Some(c), meta) == Committed(Child(head, u, meta))
  {
    hide Reverse, SetBack, PrefixFree, CheckoutOf, LaterLeave;
    ReverseOlder(c, head, u);
  }
}
