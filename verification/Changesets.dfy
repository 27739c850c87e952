/** The checks on a changeset request, and one changeset or revert run on its own. */
module Changesets {
  import opened Common
  import opened Worktree
  import opened Commits
  import Paths

  // ---------------------------------------------------------------- validation

  const MAX_CHANGESET_FILES := 100
  const MAX_IMPORT_FILE_BYTES := 5 * 1024 * 1024

  /** The size the request check works with: for base64 the decoder's upper bound. */
  function CheckedSize(c: Change): nat {
    if c.encoding.Base64? then |c.content| / 4 * 3 else |c.content|
  }

  predicate ValidChange(c: Change) {
    && Paths.AcceptsDocPath(c.path)
    && match c.op
       case Create | Update =>
         && !c.encoding.UnknownEncoding?
         && (c.encoding.Base64? ==> c.encoding.decoded.Some?)
         && CheckedSize(c) <= MAX_IMPORT_FILE_BYTES
       case Delete => true
       case Move =>
         && c.newPath != "" && Paths.AcceptsDocPath(c.newPath)
         && Paths.Locate(c.path) != Paths.Locate(c.newPath)
       case Unsupported => false
  }

  predicate ValidChangeset(changes: seq<Change>) {
    1 <= |changes| <= MAX_CHANGESET_FILES && forall c :: c in changes ==> ValidChange(c)
  }

  method CheckChange(c: Change) returns (ok: bool)
    ensures ok == ValidChange(c)
  {
    var good := Paths.ValidateDocPath(c.path);
    if !good { return false; }
    match c.op {
      case Create | Update =>
        if c.encoding.UnknownEncoding? { return false; }
        var size := |c.content|;
        if c.encoding.Base64? {
          if c.encoding.decoded.None? { return false; }
          size := |c.content| / 4 * 3;
        }
        return size <= MAX_IMPORT_FILE_BYTES;
      case Delete =>
        return true;
      case Move =>
        if c.newPath == "" { return false; }
        good := Paths.ValidateDocPath(c.newPath);
        if !good { return false; }
        Paths.CleanEqualIffSamePlace(c.path, c.newPath);
        var from := Paths.Clean(c.path);
        var to := Paths.Clean(c.newPath);
        return from != to;
      case Unsupported =>
        return false;
    }
  }

  /** validateChangeset. */
  method ValidateChangeset(changes: seq<Change>) returns (ok: bool)
    ensures ok <==> ValidChangeset(changes)
  {
    if |changes| == 0 || |changes| > MAX_CHANGESET_FILES { return false; }
    for i := 0 to |changes|
      invariant forall j :: 0 <= j < i ==> ValidChange(changes[j])
    {
      var good := CheckChange(changes[i]);
      if !good { return false; }
    }
    ok := true;
  }

  // -------------------------------------------------------------------- decoding

  function Decode(c: Change): Option<Change> {
    match c.encoding
    case Base64(Some(text)) => Some(c.(content := text, encoding := Plain))
    case Base64(None) => None
    case _ => Some(c)
  }

  function DecodeAll(changes: seq<Change>): Option<seq<Change>> {
    if exists c :: c in changes && Decode(c).None? then None
    else
      Some(seq(|changes|, i requires 0 <= i < |changes| =>
        if Decode(changes[i]).Some? then Decode(changes[i]).value else changes[i]))
  }

  /** The loop that decodes the payloads in place. */
  method DecodeInPlace(changes: array<Change>) returns (ok: bool)
    modifies changes
    ensures ok <==> DecodeAll(old(changes[..])).Some?
    ensures ok ==> changes[..] == DecodeAll(old(changes[..])).value
  {
    ghost var before := changes[..];
    for i := 0 to changes.Length
      invariant changes[i..] == before[i..]
      invariant forall j :: 0 <= j < i ==> Decode(before[j]) == Some(changes[j])
    {
      assert changes[i] == before[i];
      match Decode(changes[i]) {
        case None =>
          assert before[i] in before;
          return false;
        case Some(c) =>
          changes[i] := c;
      }
    }
    ok := true;
  }

  // ------------------------------------------------------------- one run by itself

  datatype Input = Input(base: Commit, changes: seq<Change>, dryRun: bool, meta: Meta)

  datatype Built = Built(tree: Tree, statuses: seq<Status>)

  datatype BuildError = BadBase64 | FileOperation(failure: Failure)

  /** Decoding, applying and writing the tree, from a checked-out forest. */
  function Build(f: Forest, changes: seq<Change>): Result<Built, BuildError> {
    match DecodeAll(changes)
    case None => Err(BadBase64)
    case Some(plain) =>
      var e := ApplyAll(f, plain);
      if e.result.Err? then Err(FileOperation(e.result.error))
      else Ok(Built(Files(e.forest), e.result.value))
  }

  ghost predicate ProperInput(changes: seq<Change>) {
    forall c :: c in changes ==> Proper(c)
  }

  /** What a successful build means: the decoded changes folded over the tree it began from. */
  lemma BuildMeaning(t: Tree, changes: seq<Change>)
    requires PrefixFree(t) && ProperInput(changes)
    ensures Build(CheckoutOf(t), changes).Ok? ==>
              var built := Build(CheckoutOf(t), changes).value;
              && DecodeAll(changes).Some?
              && built.tree == GitEffects(t, DecodeAll(changes).value)
              && PrefixFree(built.tree) && |built.statuses| == |changes|
  {
    CheckoutWellFormed(t);
    if DecodeAll(changes).Some? {
      var plain := DecodeAll(changes).value;
      DecodedProper(changes);
      ApplyAllSound(CheckoutOf(t), plain, []);
      FilesPrefixFree(ApplyAll(CheckoutOf(t), plain).forest);
    }
  }

  lemma DecodedProper(changes: seq<Change>)
    requires ProperInput(changes) && DecodeAll(changes).Some?
    ensures forall i :: 0 <= i < |DecodeAll(changes).value| ==> Proper(DecodeAll(changes).value[i])
  {
    forall i | 0 <= i < |changes| ensures Proper(DecodeAll(changes).value[i]) {
      assert changes[i] in changes;
    }
  }

  datatype Outcome =
    | Invalid
    | Archived
    | Conflict
    | Rejected(error: BuildError)
    | Previewed(revision: Commit, preview: Built)
    | Committed(commit: Commit)
    | NotFound
    | PatchRefused
    | Failed
    | ReplyLost(commit: Commit)

  /** What ApplyChangeset answers when nothing else happens meanwhile. */
  function Verdict(head: Commit, archived: bool, input: Input): Outcome {
    if !ValidChangeset(input.changes) then Invalid
    else if archived then Archived
    else if head != input.base then Conflict
    else
      match Build(CheckoutOf(head.tree), input.changes)
      case Err(e) => Rejected(e)
      case Ok(built) =>
        if input.dryRun then Previewed(head, built)
        else Committed(Child(head, built.tree, input.meta))
  }

  /** What RevertCommit answers when nothing else happens meanwhile; `target` is None when
      the id names no commit. */
  function RevertVerdict(head: Commit, archived: bool, target: Option<Commit>, meta: Meta): Outcome {
    if archived then Archived
    else if target.None? then NotFound
    else
      match Reverse(target.value, CheckoutOf(head.tree))
      case None => PatchRefused
      case Some(f) => Committed(Child(head, Files(f), meta))
  }

  /** Reverting the newest commit, whatever made it, succeeds exactly when that commit changed
      something, and restores the tree before it; the commit itself stays in the history. */
  lemma RevertNewest(k: Commit, meta: Meta)
    requires k.Child? && PrefixFree(k.tree) && PrefixFree(k.parent.tree)
    ensures k.tree != k.parent.tree ==>
              RevertVerdict(k, false, Some(k), meta) == Committed(Child(k, k.parent.tree, meta))
    ensures k.tree == k.parent.tree ==> RevertVerdict(k, false, Some(k), meta) == PatchRefused
    ensures Ancestor(k, Child(k, k.parent.tree, meta)) && Ancestor(k.parent, Child(k, k.parent.tree, meta))
  {
    ReverseNewest(k);
    var r := Child(k, k.parent.tree, meta);
    assert Ancestor(k.parent, k) && Ancestor(k, r.parent);
    AncestorTransitive(k.parent, k, r);
  }

  /** A changeset and then the revert of its commit: the tree from before, on top of both commits. */
  lemma ChangesetThenRevert(head: Commit, input: Input, k: Commit, meta: Meta)
    requires PrefixFree(head.tree) && ProperInput(input.changes)
    requires Verdict(head, false, input) == Committed(k) && k.tree != head.tree
    ensures RevertVerdict(k, false, Some(k), meta) == Committed(Child(k, head.tree, meta))
    ensures Ancestor(head, Child(k, head.tree, meta)) && Ancestor(k, Child(k, head.tree, meta))
  {
    BuildMeaning(head.tree, input.changes);
    RevertNewest(k, meta);
  }

  /** Reverting a revert brings the reverted changes back. */
  lemma RevertOfRevert(k: Commit, meta: Meta, again: Meta)
    requires k.Child? && PrefixFree(k.tree) && PrefixFree(k.parent.tree) && k.tree != k.parent.tree
    ensures var r := Child(k, k.parent.tree, meta);
            && RevertVerdict(k, false, Some(k), meta) == Committed(r)
            && RevertVerdict(r, false, Some(r), again) == Committed(Child(r, k.tree, again))
  {
    RevertNewest(k, meta);
    RevertNewest(Child(k, k.parent.tree, meta), again);
  }

  /** One project's repository as a single request sees it. */
  class Repository {
    var head: Commit
    var archived: bool

    ghost predicate Valid()
      reads this
    {
      PrefixFree(head.tree)
    }

    constructor (readme: Commit)
      requires PrefixFree(readme.tree)
      ensures Valid() && head == readme && !archived
    {
      head, archived := readme, false;
    }

    /** ApplyChangeset under the project lock. */
    method ApplyChangeset(input: Input) returns (r: Outcome)
      requires Valid() && ProperInput(input.changes)
      modifies this`head
      ensures Valid() && r == Verdict(old(head), archived, input)
      ensures head == if r.Committed? then r.commit else old(head)
      ensures r.Committed? ==>
                && old(head) == input.base && !archived && ValidChangeset(input.changes)
                && head.Child? && head.parent == old(head)
                && head.tree == GitEffects(old(head).tree, DecodeAll(input.changes).value)
    {
      var valid := ValidateChangeset(input.changes);
      if !valid { return Invalid; }
      if archived { return Archived; }
      var current := head;
      if current != input.base { return Conflict; }
      var worktree := new Checkout(head.tree);
      var changes := new Change[|input.changes|](i requires 0 <= i < |input.changes| => input.changes[i]);
      assert changes[..] == input.changes;
      var decoded := DecodeInPlace(changes);
      if !decoded { return Rejected(BadBase64); }
      DecodedProper(input.changes);
      BuildMeaning(head.tree, input.changes);
      var applied := worktree.ApplyChanges(changes[..]);
      if applied.Err? { return Rejected(FileOperation(applied.error)); }
      var tree := worktree.WriteTree();
      if input.dryRun {
        return Previewed(current, Built(tree, applied.value));
      }
      var commit := Child(current, tree, input.meta);
      if head != current { return Conflict; }
      head := commit;
      r := Committed(commit);
    }

    /** RevertCommit under the project lock. */
    method RevertCommit(target: Option<Commit>, meta: Meta) returns (r: Outcome)
      requires Valid()
      modifies this`head
      ensures Valid() && r == RevertVerdict(old(head), archived, target, meta)
      ensures head == if r.Committed? then r.commit else old(head)
      ensures r.Committed? ==> head.Child? && head.parent == old(head)
    {
      if archived { return Archived; }
      var current := head;
      if target.None? { return NotFound; }
      var worktree := new Checkout(head.tree);
      var patch := DeltaOf(target.value);
      ReverseIsApply(target.value, worktree.entries);
      if !Applies(patch, Files(worktree.entries)) { return PatchRefused; }
      var tree := Unapplied(patch, Files(worktree.entries));
      CheckoutWellFormed(tree);
      var commit := Child(current, tree, meta);
      if head != current { return Conflict; }
      head := commit;
      r := Committed(commit);
    }
  }
}
