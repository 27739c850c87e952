/** Any number of changeset and revert requests on one project, interleaved statement by
    statement, with or without the project lock, any of them failing anywhere. */
module Protocol {
  import opened Common
  import opened Worktree
  import opened Commits
  import opened Changesets

  type Id = nat

  datatype Job = Write(input: Input) | Revert(target: Commit, meta: Meta)

  /** git show of a commit followed by git apply --reverse in a worktree. */
  type Undo = (Commit, Forest) -> Option<Forest>

  /** Where a request stands. `current` is the HEAD it read, `seen` the commit that the
      branch name stood for when the worktree was checked out. */
  datatype Phase =
    | Ready
    | Admitted
    | AtHead(current: Commit)
    | InWorktree(current: Commit, seen: Commit)
    | Staged(current: Commit, seen: Commit, built: Built)
    | Minted(current: Commit, seen: Commit, commit: Commit)
    | Over(outcome: Outcome)

  datatype Run = Run(job: Job, phase: Phase)

  datatype State = State(head: Commit, archived: bool, holder: Option<Id>, runs: map<Id, Run>)

  datatype Action =
    | Arrive(id: Id, job: Job)
    | Admit(id: Id)
    | ReadHead(id: Id)
    | CheckOut(id: Id)
    | Stage(id: Id)
    | Mint(id: Id)
    | Swap(id: Id, replyLost: bool)
    | Fail(id: Id)
    | SetArchived(flag: bool)

  ghost function Init(root: Commit): State {
    State(root, false, None, map[])
  }

  ghost predicate ProperJob(j: Job) {
    j.Write? ==> ProperInput(j.input.changes)
  }

  /** One statement of a request: the phase it enters, None if the statement cannot happen now. */
  ghost function Next(undo: Undo, lock: bool, s: State, a: Action, run: Run): Option<Phase> {
    match (a, run.phase)
    case (Fail(_), Over(_)) => None
    case (Fail(_), _) => Some(Over(Outcome.Failed))
    case (Admit(_), Ready) =>
      if run.job.Write? && !ValidChangeset(run.job.input.changes) then Some(Over(Invalid))
      else if s.archived then Some(Over(Archived))
      else Some(Admitted)
    case (ReadHead(_), Admitted) =>
      if lock && s.holder.Some? then None
      else if run.job.Write? && run.job.input.base != s.head then Some(Over(Conflict))
      else Some(AtHead(s.head))
    case (CheckOut(_), AtHead(current)) => Some(InWorktree(current, s.head))
    case (Stage(_), InWorktree(current, seen)) => Some(StagePhase(undo, run.job, current, seen))
    case (Mint(_), Staged(current, seen, built)) =>
      if run.job.Write? && run.job.input.dryRun then Some(Over(Previewed(current, built)))
      else Some(Minted(current, seen, Child(current, built.tree, MetaOf(run.job))))
    case (Swap(_, replyLost), Minted(current, _, commit)) =>
      Some(Over(if s.head != current then Conflict
                else if replyLost then ReplyLost(commit) else Committed(commit)))
    case _ => None
  }

  ghost function StagePhase(undo: Undo, job: Job, current: Commit, seen: Commit): (p: Phase)
    ensures p.Over? || p.Staged?
  {
    match job
    case Write(input) =>
      (match Build(CheckoutOf(seen.tree), input.changes)
       case Err(e) => Over(Rejected(e))
       case Ok(built) => Staged(current, seen, built))
    case Revert(target, _) =>
      (match undo(target, CheckoutOf(seen.tree))
       case None => Over(PatchRefused)
       case Some(f) => Staged(current, seen, Built(Files(f), [])))
  }

  /** The project mutex is taken on reading HEAD and given back at the end of the request. */
  ghost function HolderAfter(lock: bool, holder: Option<Id>, id: Id, p: Phase): Option<Id> {
    if p.Over? then if holder == Some(id) then None else holder
    else if p.AtHead? && lock then Some(id)
    else holder
  }

  ghost function Advance(lock: bool, s: State, id: Id, p: Phase): State
    requires id in s.runs
  {
    State(if HasLanded(p) then p.outcome.commit else s.head, s.archived,
          HolderAfter(lock, s.holder, id, p), s.runs[id := s.runs[id].(phase := p)])
  }

  /** One statement of the whole system; None when it cannot happen now. Archiving takes the lock too. */
  ghost function Act(undo: Undo, lock: bool, s: State, a: Action): Option<State> {
    if a.Arrive? then
      if a.id in s.runs || !ProperJob(a.job) then None
      else Some(s.(runs := s.runs[a.id := Run(a.job, Ready)]))
    else if a.SetArchived? then
      if lock && s.holder.Some? then None else Some(s.(archived := a.flag))
    else if a.id !in s.runs then None
    else
      match Next(undo, lock, s, a, s.runs[a.id])
      case None => None
      case Some(p) => Some(Advance(lock, s, a.id, p))
  }

  function MetaOf(j: Job): Meta {
    match j case Write(input) => input.meta case Revert(_, meta) => meta
  }

  /** The state after a sequence of statements, None if some statement was impossible. */
  ghost function After(undo: Undo, lock: bool, s: State, acts: seq<Action>): Option<State>
    decreases |acts|
  {
    if acts == [] then Some(s)
    else
      match After(undo, lock, s, acts[..|acts| - 1])
      case None => None
      case Some(t) => Act(undo, lock, t, acts[|acts| - 1])
  }

  // ------------------------------------------------------------------ invariant

  /** The request has moved the branch. */
  ghost predicate HasLanded(p: Phase) {
    p.Over? && (p.outcome.Committed? || p.outcome.ReplyLost?)
  }

  ghost predicate Landed(r: Run, k: Commit) {
    HasLanded(r.phase) && r.phase.outcome.commit == k
  }

  /** `tree` is what the job makes of the tree of `seen`. */
  ghost predicate TreeFrom(undo: Undo, j: Job, seen: Commit, tree: Tree) {
    match j
    case Write(input) =>
      Build(CheckoutOf(seen.tree), input.changes).Ok?
      && Build(CheckoutOf(seen.tree), input.changes).value.tree == tree
    case Revert(target, _) =>
      undo(target, CheckoutOf(seen.tree)).Some? && Files(undo(target, CheckoutOf(seen.tree)).value) == tree
  }

  ghost predicate OnBase(j: Job, current: Commit) {
    j.Write? ==> j.input.base == current && ValidChangeset(j.input.changes)
  }

  ghost predicate Underway(p: Phase) {
    p.AtHead? || p.InWorktree? || p.Staged? || p.Minted?
  }

  ghost predicate RunOk(undo: Undo, lock: bool, head: Commit, r: Run) {
    && ProperJob(r.job)
    && match r.phase
       case Ready => true
       case Admitted => r.job.Write? ==> ValidChangeset(r.job.input.changes)
       case AtHead(current) => OnBase(r.job, current) && Ancestor(current, head)
       case InWorktree(current, seen) =>
         OnBase(r.job, current) && Ancestor(current, seen) && Ancestor(seen, head)
       case Staged(current, seen, built) =>
         && OnBase(r.job, current) && Ancestor(current, seen) && Ancestor(seen, head)
         && TreeFrom(undo, r.job, seen, built.tree)
         && (r.job.Write? ==> Build(CheckoutOf(seen.tree), r.job.input.changes) == Ok(built))
       case Minted(current, seen, commit) =>
         && OnBase(r.job, current) && Ancestor(current, seen) && Ancestor(seen, head)
         && commit == Child(current, commit.tree, MetaOf(r.job))
         && TreeFrom(undo, r.job, seen, commit.tree)
         && (r.job.Write? ==> !r.job.input.dryRun)
       case Over(Committed(k)) => LandedOk(undo, head, r.job, k)
       case Over(ReplyLost(k)) => LandedOk(undo, head, r.job, k)
       case Over(Previewed(current, built)) =>
         r.job.Write? && OnBase(r.job, current) && PreviewOk(lock, head, r.job.input, built)
       case Over(_) => true
  }

  ghost predicate LandedOk(undo: Undo, head: Commit, j: Job, k: Commit) {
    && k.Child? && Ancestor(k, head) && OnBase(j, k.parent) && k.meta == MetaOf(j)
    && TreeFrom(undo, j, k.parent, k.tree)
    && (j.Write? ==> !j.input.dryRun)
  }

  /** A preview was built from some commit between the base and HEAD; under the lock from the base. */
  ghost predicate PreviewOk(lock: bool, head: Commit, input: Input, built: Built) {
    && input.dryRun
    && (exists seen :: Ancestor(input.base, seen) && Ancestor(seen, head)
                       && Build(CheckoutOf(seen.tree), input.changes) == Ok(built))
    && (lock ==> Build(CheckoutOf(input.base.tree), input.changes) == Ok(built))
  }

  /** Under the lock at most one request is past reading HEAD, and it sees the branch as it is. */
  ghost predicate LockOk(lock: bool, s: State) {
    lock ==>
      && (s.holder.Some? ==> s.holder.value in s.runs)
      && forall id :: id in s.runs && Underway(s.runs[id].phase) ==>
           && s.holder == Some(id) && s.runs[id].phase.current == s.head
           && (!s.runs[id].phase.AtHead? ==> s.runs[id].phase.seen == s.head)
  }

  ghost predicate RunsOk(undo: Undo, lock: bool, s: State) {
    forall id :: id in s.runs ==> RunOk(undo, lock, s.head, s.runs[id])
  }

  ghost predicate LandedApart(s: State) {
    forall i, j :: i in s.runs && j in s.runs && i != j && HasLanded(s.runs[i].phase) && HasLanded(s.runs[j].phase)
                   ==> s.runs[i].phase.outcome.commit != s.runs[j].phase.outcome.commit
  }

  /** Every commit of the history was there at the start or was landed by one of the requests. */
  ghost predicate Explained(root: Commit, s: State) {
    && Ancestor(root, s.head)
    && forall k :: Ancestor(k, s.head) && !Ancestor(k, root) ==>
         exists id :: id in s.runs && Landed(s.runs[id], k)
  }

  /** Nothing is built on a commit from before the start. */
  ghost predicate Rooted(root: Commit, p: Phase) {
    && (Underway(p) ==> Ancestor(root, p.current))
    && (HasLanded(p) ==> p.outcome.commit.Child? && Ancestor(root, p.outcome.commit.parent))
  }

  ghost predicate Inv(undo: Undo, lock: bool, root: Commit, s: State) {
    && RunsOk(undo, lock, s) && LockOk(lock, s) && LandedApart(s) && Explained(root, s)
    && forall id :: id in s.runs ==> Rooted(root, s.runs[id].phase)
  }

  // --------------------------------------------------------------- preservation

  lemma RunOkGrows(undo: Undo, lock: bool, head: Commit, k: Commit, r: Run)
    requires RunOk(undo, lock, head, r) && k.Child? && k.parent == head
    ensures RunOk(undo, lock, k, r)
  {
  }

  /** The swap succeeds only for a request whose worktree showed the very commit it swaps away. */
  lemma SwapSawItsBase(undo: Undo, lock: bool, s: State, r: Run)
    requires RunOk(undo, lock, s.head, r) && r.phase.Minted? && s.head == r.phase.current
    ensures r.phase.seen == s.head
    ensures LandedOk(undo, r.phase.commit, r.job, r.phase.commit)
  {
    var current, seen := r.phase.current, r.phase.seen;
    AncestorDepth(current, seen);
    AncestorDepth(seen, s.head);
  }

  /** A request entering a phase that does not move the branch. */
  lemma QuietStep(undo: Undo, lock: bool, root: Commit, s: State, t: State, id: Id)
    requires Inv(undo, lock, root, s) && id in t.runs
    requires t.head == s.head && t.runs == s.runs[id := t.runs[id]]
    requires !HasLanded(t.runs[id].phase) && (id in s.runs ==> !HasLanded(s.runs[id].phase))
    requires RunOk(undo, lock, t.head, t.runs[id]) && LockOk(lock, t) && Rooted(root, t.runs[id].phase)
    ensures Inv(undo, lock, root, t)
  {
    forall k | Ancestor(k, t.head) && !Ancestor(k, root)
      ensures exists i :: i in t.runs && Landed(t.runs[i], k)
    {
      var i :| i in s.runs && Landed(s.runs[i], k);
      assert i in t.runs && Landed(t.runs[i], k);
    }
  }

  /** The phase a request enters is a sound one. */
  lemma NextOk(undo: Undo, lock: bool, s: State, a: Action, r: Run)
    requires RunOk(undo, lock, s.head, r) && Next(undo, lock, s, a, r).Some?
    requires lock && r.phase.Staged? ==> r.phase.seen == r.phase.current
    ensures var p := Next(undo, lock, s, a, r).value;
            && !HasLanded(r.phase)
            && (!HasLanded(p) ==> RunOk(undo, lock, s.head, r.(phase := p)))
            && (HasLanded(p) ==> r.phase.Minted? && s.head == r.phase.current && p.outcome.commit == r.phase.commit)
  {
  }

  lemma NextRooted(undo: Undo, lock: bool, root: Commit, s: State, a: Action, r: Run)
    requires RunOk(undo, lock, s.head, r) && Rooted(root, r.phase) && Ancestor(root, s.head)
    requires Next(undo, lock, s, a, r).Some?
    ensures Rooted(root, Next(undo, lock, s, a, r).value)
  {
  }

  lemma NextLock(undo: Undo, lock: bool, s: State, a: Action)
    requires LockOk(lock, s) && !a.Arrive? && !a.SetArchived? && a.id in s.runs
    requires Next(undo, lock, s, a, s.runs[a.id]).Some?
    ensures LockOk(lock, Advance(lock, s, a.id, Next(undo, lock, s, a, s.runs[a.id]).value))
  {
  }

  lemma SwapApart(undo: Undo, lock: bool, root: Commit, s: State, t: State, id: Id, commit: Commit)
    requires Inv(undo, lock, root, s) && id in s.runs && id in t.runs && !HasLanded(s.runs[id].phase)
    requires t.runs == s.runs[id := t.runs[id]] && Landed(t.runs[id], commit)
    requires commit.Child? && commit.parent == s.head
    ensures LandedApart(t)
  {
    forall i | i in s.runs && HasLanded(s.runs[i].phase) ensures !Landed(s.runs[i], commit) {
      assert RunOk(undo, lock, s.head, s.runs[i]);
      AncestorDepth(s.runs[i].phase.outcome.commit, s.head);
    }
  }

  lemma SwapExplained(root: Commit, s: State, t: State, id: Id, commit: Commit)
    requires Explained(root, s) && id in s.runs && id in t.runs && !HasLanded(s.runs[id].phase)
    requires t.runs == s.runs[id := t.runs[id]] && Landed(t.runs[id], commit)
    requires t.head == commit && commit.Child? && commit.parent == s.head
    ensures Explained(root, t)
  {
    forall k | Ancestor(k, t.head) && !Ancestor(k, root)
      ensures exists i :: i in t.runs && Landed(t.runs[i], k)
    {
      if k == commit {
        assert Landed(t.runs[id], k);
      } else {
        var i :| i in s.runs && Landed(s.runs[i], k);
        assert Landed(t.runs[i], k);
      }
    }
  }

  lemma SwapStep(undo: Undo, lock: bool, root: Commit, s: State, t: State, id: Id)
    requires Inv(undo, lock, root, s) && id in s.runs && s.runs[id].phase.Minted?
    requires s.head == s.runs[id].phase.current && id in t.runs
    requires t.runs == s.runs[id := t.runs[id]] && Landed(t.runs[id], s.runs[id].phase.commit)
    requires t.runs[id].job == s.runs[id].job && t.head == s.runs[id].phase.commit && LockOk(lock, t)
    requires Rooted(root, t.runs[id].phase)
    ensures Inv(undo, lock, root, t) && Ancestor(s.head, t.head)
  {
    var commit := s.runs[id].phase.commit;
    assert RunOk(undo, lock, s.head, s.runs[id]);
    SwapSawItsBase(undo, lock, s, s.runs[id]);
    forall i | i in t.runs ensures RunOk(undo, lock, t.head, t.runs[i]) {
      if i != id { RunOkGrows(undo, lock, s.head, commit, s.runs[i]); }
    }
    SwapApart(undo, lock, root, s, t, id, commit);
    SwapExplained(root, s, t, id, commit);
    assert Ancestor(s.head, t.head.parent);
  }

  lemma StepKeepsInv(undo: Undo, lock: bool, root: Commit, s: State, a: Action, t: State)
    requires Inv(undo, lock, root, s) && Act(undo, lock, s, a) == Some(t)
    ensures Inv(undo, lock, root, t) && Ancestor(s.head, t.head)
  {
    if a.Arrive? {
      QuietStep(undo, lock, root, s, t, a.id);
    } else if a.SetArchived? {
      assert RunsOk(undo, lock, t) && LockOk(lock, t) && Explained(root, t);
    } else {
      var p := Next(undo, lock, s, a, s.runs[a.id]).value;
      assert RunOk(undo, lock, s.head, s.runs[a.id]);
      NextOk(undo, lock, s, a, s.runs[a.id]);
      NextLock(undo, lock, s, a);
      NextRooted(undo, lock, root, s, a, s.runs[a.id]);
      if HasLanded(p) {
        SwapStep(undo, lock, root, s, t, a.id);
      } else {
        QuietStep(undo, lock, root, s, t, a.id);
      }
    }
  }

  lemma {:induction false} Reachable(undo: Undo, lock: bool, root: Commit, acts: seq<Action>)
    requires After(undo, lock, Init(root), acts).Some?
    ensures Inv(undo, lock, root, After(undo, lock, Init(root), acts).value)
    decreases |acts|
  {
    if acts != [] {
      var before := acts[..|acts| - 1];
      Reachable(undo, lock, root, before);
      StepKeepsInv(undo, lock, root, After(undo, lock, Init(root), before).value, acts[|acts| - 1],
                   After(undo, lock, Init(root), acts).value);
    }
  }

  // ---------------------------------------------------------------- main results

  ghost predicate Happens(undo: Undo, lock: bool, root: Commit, acts: seq<Action>) {
    After(undo, lock, Init(root), acts).Some?
  }

  ghost function Ends(undo: Undo, lock: bool, root: Commit, acts: seq<Action>): State
    requires Happens(undo, lock, root, acts)
  {
    After(undo, lock, Init(root), acts).value
  }

  /** A changeset that lands, in any interleaving and without any lock, lands what it would
      have landed alone on its base. */
  lemma Serialisable(undo: Undo, lock: bool, root: Commit, acts: seq<Action>, id: Id, k: Commit)
    requires Happens(undo, lock, root, acts)
    requires var s := Ends(undo, lock, root, acts); id in s.runs && s.runs[id].job.Write? && Landed(s.runs[id], k)
    ensures var input := Ends(undo, lock, root, acts).runs[id].job.input;
            && Verdict(input.base, false, input) == Committed(k)
            && k.Child? && k.parent == input.base
  {
    Reachable(undo, lock, root, acts);
    var s := Ends(undo, lock, root, acts);
    assert RunOk(undo, lock, s.head, s.runs[id]);
  }

  ghost predicate UndoSound(undo: Undo) {
    forall target, f :: WellFormed(f) && undo(target, f).Some? ==> WellFormed(undo(target, f).value)
  }

  ghost predicate CleanHistory(c: Commit) {
    PrefixFree(c.tree) && (c.Child? ==> CleanHistory(c.parent))
  }

  lemma {:induction false} CleanAncestor(a: Commit, c: Commit)
    requires CleanHistory(c) && Ancestor(a, c)
    ensures PrefixFree(a.tree)
  {
    if a != c { CleanAncestor(a, c.parent); }
  }

  lemma {:induction false} HistoryStaysClean(undo: Undo, lock: bool, root: Commit, s: State, k: Commit)
    requires Inv(undo, lock, root, s) && UndoSound(undo) && CleanHistory(root) && Ancestor(k, s.head)
    ensures PrefixFree(k.tree)
  {
    if Ancestor(k, root) {
      CleanAncestor(k, root);
    } else {
      var id :| id in s.runs && Landed(s.runs[id], k);
      assert RunOk(undo, lock, s.head, s.runs[id]);
      AncestorTransitive(k.parent, k, s.head);
      HistoryStaysClean(undo, lock, root, s, k.parent);
      CheckoutWellFormed(k.parent.tree);
      match s.runs[id].job {
        case Write(input) => BuildMeaning(k.parent.tree, input.changes);
        case Revert(target, _) => FilesPrefixFree(undo(target, CheckoutOf(k.parent.tree)).value);
      }
    }
  }

  /** The tree that lands is the request's changes folded over its base's tree. */
  lemma LandedTreeIsFold(undo: Undo, lock: bool, root: Commit, acts: seq<Action>, id: Id, k: Commit)
    requires Happens(undo, lock, root, acts) && UndoSound(undo) && CleanHistory(root)
    requires var s := Ends(undo, lock, root, acts); id in s.runs && s.runs[id].job.Write? && Landed(s.runs[id], k)
    ensures var input := Ends(undo, lock, root, acts).runs[id].job.input;
            && DecodeAll(input.changes).Some?
            && k.tree == GitEffects(input.base.tree, DecodeAll(input.changes).value)
  {
    Reachable(undo, lock, root, acts);
    var s := Ends(undo, lock, root, acts);
    assert RunOk(undo, lock, s.head, s.runs[id]);
    AncestorTransitive(k.parent, k, s.head);
    HistoryStaysClean(undo, lock, root, s, k.parent);
    BuildMeaning(k.parent.tree, s.runs[id].job.input.changes);
  }

  /** A revert that lands, in any interleaving, lands the reverse of its target on the tree of
      the commit it is built on; nothing that came between is overwritten. */
  lemma RevertSerialisable(lock: bool, root: Commit, acts: seq<Action>, id: Id, k: Commit)
    requires Happens(Reverse, lock, root, acts) && CleanHistory(root)
    requires var s := Ends(Reverse, lock, root, acts); id in s.runs && s.runs[id].job.Revert? && Landed(s.runs[id], k)
    ensures var job := Ends(Reverse, lock, root, acts).runs[id].job;
            && k.Child? && RevertVerdict(k.parent, false, Some(job.target), job.meta) == Committed(k)
            && forall p :: Find(k.tree, p) ==
                 if Find(Before(job.target), p) != Find(job.target.tree, p) then Find(Before(job.target), p)
                 else Find(k.parent.tree, p)
  {
    Reachable(Reverse, lock, root, acts);
    var s := Ends(Reverse, lock, root, acts);
    assert RunOk(Reverse, lock, s.head, s.runs[id]);
    AncestorTransitive(k.parent, k, s.head);
    assert UndoSound(Reverse) by {
      forall target, f ensures Reverse(target, f).Some? ==> WellFormed(Reverse(target, f).value) {
        ReverseIsApply(target, f);
      }
    }
    HistoryStaysClean(Reverse, lock, root, s, k.parent);
    forall p { ReverseExactly(s.runs[id].job.target, k.parent.tree, p); }
  }

  lemma {:induction false} BranchOnlyGrows(undo: Undo, lock: bool, root: Commit, acts: seq<Action>, i: nat)
    requires Happens(undo, lock, root, acts) && i <= |acts|
    ensures Happens(undo, lock, root, acts[..i])
    ensures Ancestor(Ends(undo, lock, root, acts[..i]).head, Ends(undo, lock, root, acts).head)
    decreases |acts|
  {
    if i == |acts| {
      assert acts[..i] == acts;
    } else {
      var before := acts[..|acts| - 1];
      BranchOnlyGrows(undo, lock, root, before, i);
      assert before[..i] == acts[..i];
      Reachable(undo, lock, root, before);
      var s, t := Ends(undo, lock, root, before), Ends(undo, lock, root, acts);
      StepKeepsInv(undo, lock, root, s, acts[|acts| - 1], t);
      AncestorTransitive(Ends(undo, lock, root, acts[..i]).head, s.head, t.head);
    }
  }

  /** The branch never comes back to a value it has left. */
  lemma NeverReturns(undo: Undo, lock: bool, root: Commit, acts: seq<Action>, i: nat, j: nat)
    requires Happens(undo, lock, root, acts) && i <= j <= |acts|
    ensures Happens(undo, lock, root, acts[..i]) && Happens(undo, lock, root, acts[..j])
    ensures Ends(undo, lock, root, acts[..i]).head == Ends(undo, lock, root, acts).head ==>
              Ends(undo, lock, root, acts[..j]).head == Ends(undo, lock, root, acts).head
  {
    BranchOnlyGrows(undo, lock, root, acts, j);
    BranchOnlyGrows(undo, lock, root, acts[..j], i);
    assert acts[..j][..i] == acts[..i];
    var a, b := Ends(undo, lock, root, acts[..i]).head, Ends(undo, lock, root, acts[..j]).head;
    var c := Ends(undo, lock, root, acts).head;
    AncestorDepth(a, b);
    AncestorDepth(b, c);
  }

  /** At most one request ever commits on a given parent. */
  lemma OneCommitPerBase(undo: Undo, lock: bool, root: Commit, acts: seq<Action>, i: Id, j: Id)
    requires Happens(undo, lock, root, acts)
    requires var s := Ends(undo, lock, root, acts);
             && i in s.runs && j in s.runs && HasLanded(s.runs[i].phase) && HasLanded(s.runs[j].phase)
             && s.runs[i].phase.outcome.commit.Child? && s.runs[j].phase.outcome.commit.Child?
             && s.runs[i].phase.outcome.commit.parent == s.runs[j].phase.outcome.commit.parent
    ensures i == j
  {
    Reachable(undo, lock, root, acts);
    SameParentSameRun(undo, lock, root, Ends(undo, lock, root, acts), i, j);
  }

  lemma SameParentSameRun(undo: Undo, lock: bool, root: Commit, s: State, i: Id, j: Id)
    requires Inv(undo, lock, root, s)
    requires i in s.runs && j in s.runs && HasLanded(s.runs[i].phase) && HasLanded(s.runs[j].phase)
    requires s.runs[i].phase.outcome.commit.Child? && s.runs[j].phase.outcome.commit.Child?
    requires s.runs[i].phase.outcome.commit.parent == s.runs[j].phase.outcome.commit.parent
    ensures i == j
  {
    LandedFacts(undo, lock, root, s, i);
    LandedFacts(undo, lock, root, s, j);
    OneAncestorPerDepth(s.runs[i].phase.outcome.commit, s.runs[j].phase.outcome.commit, s.head);
  }

  lemma LandedFacts(undo: Undo, lock: bool, root: Commit, s: State, id: Id)
    requires Inv(undo, lock, root, s) && id in s.runs && HasLanded(s.runs[id].phase)
    ensures LandedOk(undo, s.head, s.runs[id].job, s.runs[id].phase.outcome.commit)
  {
    assert RunOk(undo, lock, s.head, s.runs[id]);
  }

  /** Dry runs are previewed and never land; everything else is never previewed. */
  lemma DryRunFacts(undo: Undo, lock: bool, root: Commit, s: State, id: Id)
    requires Inv(undo, lock, root, s) && id in s.runs && s.runs[id].job.Write?
    ensures HasLanded(s.runs[id].phase) ==> !s.runs[id].job.input.dryRun
    ensures s.runs[id].phase.Over? && s.runs[id].phase.outcome.Previewed? ==> s.runs[id].job.input.dryRun
  {
    assert RunOk(undo, lock, s.head, s.runs[id]);
  }

  /** No update is lost and none is made up: the commits added to the history are exactly
      those the landed requests made. */
  lemma HistoryIsWhatLanded(undo: Undo, lock: bool, root: Commit, acts: seq<Action>, k: Commit)
    requires Happens(undo, lock, root, acts)
    ensures var s := Ends(undo, lock, root, acts);
            Ancestor(k, s.head) && !Ancestor(k, root) <==> exists id :: id in s.runs && Landed(s.runs[id], k)
  {
    Reachable(undo, lock, root, acts);
    var s := Ends(undo, lock, root, acts);
    forall id | id in s.runs && Landed(s.runs[id], k) ensures Ancestor(k, s.head) && !Ancestor(k, root) {
      assert RunOk(undo, lock, s.head, s.runs[id]) && Rooted(root, s.runs[id].phase);
      AncestorDepth(root, k.parent);
      if Ancestor(k, root) { AncestorDepth(k, root); }
    }
  }

  // -------------------------------------------------------------------- previews

  /** Under the project lock a dry run previews exactly what the request would commit on that base. */
  lemma PreviewUnderLock(undo: Undo, root: Commit, acts: seq<Action>, id: Id)
    requires Happens(undo, true, root, acts)
    requires var s := Ends(undo, true, root, acts);
             id in s.runs && s.runs[id].phase.Over? && s.runs[id].phase.outcome.Previewed?
    ensures var r := Ends(undo, true, root, acts).runs[id];
            && r.job.Write? && r.phase.outcome.revision == r.job.input.base
            && Verdict(r.job.input.base, false, r.job.input.(dryRun := false)) ==
               Committed(Child(r.job.input.base, r.phase.outcome.preview.tree, r.job.input.meta))
  {
    Reachable(undo, true, root, acts);
    var s := Ends(undo, true, root, acts);
    assert RunOk(undo, true, s.head, s.runs[id]);
  }

  /** With compare-and-swap alone a preview shows the changes on some commit between the
      base and HEAD, and on the base itself if the branch has not moved. */
  lemma PreviewWithoutLock(undo: Undo, root: Commit, acts: seq<Action>, id: Id)
    requires Happens(undo, false, root, acts)
    requires var s := Ends(undo, false, root, acts);
             id in s.runs && s.runs[id].phase.Over? && s.runs[id].phase.outcome.Previewed?
    ensures var s := Ends(undo, false, root, acts);
            var r := s.runs[id];
            && r.job.Write?
            && (exists seen :: Ancestor(r.job.input.base, seen) && Ancestor(seen, s.head)
                 && Build(CheckoutOf(seen.tree), r.job.input.changes) == Ok(r.phase.outcome.preview))
            && (s.head == r.job.input.base ==>
                 Build(CheckoutOf(s.head.tree), r.job.input.changes) == Ok(r.phase.outcome.preview))
  {
    Reachable(undo, false, root, acts);
    var s := Ends(undo, false, root, acts);
    assert RunOk(undo, false, s.head, s.runs[id]);
    var r := s.runs[id];
    var seen :| Ancestor(r.job.input.base, seen) && Ancestor(seen, s.head)
                && Build(CheckoutOf(seen.tree), r.job.input.changes) == Ok(r.phase.outcome.preview);
    AncestorDepth(r.job.input.base, seen);
    AncestorDepth(seen, s.head);
  }

  // ----------------------------------------------------- admission and archiving

  ghost predicate PastAdmission(p: Phase) {
    p == Admitted || Underway(p) || HasLanded(p)
  }

  /** A request that is past its admission was admitted while the project was not archived. */
  lemma {:induction false} AdmittedWhileOpen(undo: Undo, lock: bool, root: Commit, acts: seq<Action>, id: Id)
    returns (i: nat)
    requires Happens(undo, lock, root, acts)
    requires var s := Ends(undo, lock, root, acts); id in s.runs && PastAdmission(s.runs[id].phase)
    ensures i < |acts| && acts[i] == Admit(id)
    ensures Happens(undo, lock, root, acts[..i]) && !Ends(undo, lock, root, acts[..i]).archived
    decreases |acts|
  {
    var n := |acts| - 1;
    var before := Ends(undo, lock, root, acts[..n]);
    if id in before.runs && PastAdmission(before.runs[id].phase) {
      i := AdmittedWhileOpen(undo, lock, root, acts[..n], id);
      assert acts[..n][..i] == acts[..i];
    } else {
      assert Act(undo, lock, before, acts[n]) == Some(Ends(undo, lock, root, acts));
      i := n;
    }
  }

  /** The project was archived at some statement from `i` on and not reopened before `j`. */
  ghost predicate ArchivedBetween(acts: seq<Action>, i: nat, j: nat)
    requires j <= |acts|
  {
    exists a :: i <= a < j && acts[a] == SetArchived(true) && forall b :: a < b < j ==> acts[b] != SetArchived(false)
  }

  lemma {:induction false} ArchivedSince(undo: Undo, lock: bool, root: Commit, acts: seq<Action>, i: nat)
    requires Happens(undo, lock, root, acts) && i <= |acts|
    requires Happens(undo, lock, root, acts[..i]) && !Ends(undo, lock, root, acts[..i]).archived
    ensures Ends(undo, lock, root, acts).archived <==> ArchivedBetween(acts, i, |acts|)
    decreases |acts|
  {
    if i == |acts| {
      assert acts[..i] == acts;
    } else {
      var n := |acts| - 1;
      assert acts[..n][..i] == acts[..i];
      ArchivedSince(undo, lock, root, acts[..n], i);
      ArchivedStep(undo, lock, Ends(undo, lock, root, acts[..n]), acts[n], Ends(undo, lock, root, acts));
      BetweenSnoc(acts, i);
    }
  }

  lemma ArchivedStep(undo: Undo, lock: bool, s: State, a: Action, t: State)
    requires Act(undo, lock, s, a) == Some(t)
    ensures t.archived == if a.SetArchived? then a.flag else s.archived
  {
  }

  lemma BetweenSnoc(acts: seq<Action>, i: nat)
    requires i < |acts|
    ensures var n := |acts| - 1;
            ArchivedBetween(acts, i, |acts|) <==>
            if acts[n].SetArchived? then acts[n].flag else ArchivedBetween(acts[..n], i, n)
  {
    var n := |acts| - 1;
    var init := acts[..n];
    if a :| i <= a < n && init[a] == SetArchived(true) && forall b :: a < b < n ==> init[b] != SetArchived(false) {
      assert acts[a] == SetArchived(true);
      assert forall b :: a < b < n ==> acts[b] == init[b];
    }
    if a :| i <= a < n && acts[a] == SetArchived(true) && forall b :: a < b < |acts| ==> acts[b] != SetArchived(false) {
      assert init[a] == SetArchived(true);
    }
    if acts[n] == SetArchived(true) { assert ArchivedBetween(acts, i, |acts|); }
  }

  /** The statement at `m` is the swap with which the request lands. */
  ghost predicate LandsAt(undo: Undo, lock: bool, root: Commit, acts: seq<Action>, id: Id, m: nat) {
    && m < |acts| && acts[m].Swap? && acts[m].id == id
    && Happens(undo, lock, root, acts[..m]) && Happens(undo, lock, root, acts[..m + 1])
    && var s, t := Ends(undo, lock, root, acts[..m]), Ends(undo, lock, root, acts[..m + 1]);
    && id in s.runs && s.runs[id].phase.Minted? && id in t.runs && HasLanded(t.runs[id].phase)
  }

  lemma {:induction false} LandedBySwap(undo: Undo, lock: bool, root: Commit, acts: seq<Action>, id: Id)
    returns (m: nat)
    requires Happens(undo, lock, root, acts)
    requires var s := Ends(undo, lock, root, acts); id in s.runs && HasLanded(s.runs[id].phase)
    ensures LandsAt(undo, lock, root, acts, id, m)
    decreases |acts|
  {
    var n := |acts| - 1;
    var before := Ends(undo, lock, root, acts[..n]);
    if id in before.runs && HasLanded(before.runs[id].phase) {
      m := LandedBySwap(undo, lock, root, acts[..n], id);
      assert acts[..n][..m] == acts[..m] && acts[..n][..m + 1] == acts[..m + 1];
    } else {
      Reachable(undo, lock, root, acts[..n]);
      LandingStep(undo, lock, root, before, acts[n], Ends(undo, lock, root, acts), id);
      m := n;
      assert acts[..n + 1] == acts;
    }
  }

  lemma LandingStep(undo: Undo, lock: bool, root: Commit, s: State, a: Action, t: State, id: Id)
    requires Inv(undo, lock, root, s) && Act(undo, lock, s, a) == Some(t)
    requires id in t.runs && HasLanded(t.runs[id].phase) && !(id in s.runs && HasLanded(s.runs[id].phase))
    ensures a.Swap? && a.id == id && id in s.runs && s.runs[id].phase.Minted?
  {
    hide Inv, Build;
  }

  /** When a commit lands on an archived project: exactly when the project was archived after the
      request's admission and not reopened before its swap. */
  lemma LandsOnArchivedExactly(undo: Undo, lock: bool, root: Commit, acts: seq<Action>, id: Id)
    returns (i: nat, m: nat)
    requires Happens(undo, lock, root, acts)
    requires var s := Ends(undo, lock, root, acts); id in s.runs && HasLanded(s.runs[id].phase)
    ensures i < m && LandsAt(undo, lock, root, acts, id, m) && acts[i] == Admit(id)
    ensures Happens(undo, lock, root, acts[..i]) && !Ends(undo, lock, root, acts[..i]).archived
    ensures Ends(undo, lock, root, acts[..m]).archived <==> ArchivedBetween(acts, i, m)
  {
    hide After;
    m := LandedBySwap(undo, lock, root, acts, id);
    var before := acts[..m];
    i := AdmittedWhileOpen(undo, lock, root, before, id);
    assert before[..i] == acts[..i];
    ArchivedSince(undo, lock, root, before, i);
    BetweenPrefix(acts, i, m);
  }

  lemma BetweenPrefix(acts: seq<Action>, i: nat, m: nat)
    requires m <= |acts|
    ensures ArchivedBetween(acts[..m], i, m) <==> ArchivedBetween(acts, i, m)
  {
    var before := acts[..m];
    assert forall k :: 0 <= k < m ==> before[k] == acts[k];
    if a :| i <= a < m && before[a] == SetArchived(true) && forall b :: a < b < m ==> before[b] != SetArchived(false) {
      assert acts[a] == SetArchived(true) && forall b :: a < b < m ==> acts[b] != SetArchived(false);
    }
    if a :| i <= a < m && acts[a] == SetArchived(true) && forall b :: a < b < m ==> acts[b] != SetArchived(false) {
      assert before[a] == SetArchived(true) && forall b :: a < b < m ==> before[b] != SetArchived(false);
    }
  }

  /** Under the project lock, archiving waits from the moment the request reads HEAD. */
  lemma {:induction false} OpenStateHeld(undo: Undo, root: Commit, acts: seq<Action>, id: Id) returns (r: nat)
    requires Happens(undo, true, root, acts)
    requires var s := Ends(undo, true, root, acts); id in s.runs && Underway(s.runs[id].phase)
    ensures r < |acts| && acts[r] == ReadHead(id) && Happens(undo, true, root, acts[..r])
    ensures Ends(undo, true, root, acts).archived == Ends(undo, true, root, acts[..r]).archived
    decreases |acts|
  {
    var n := |acts| - 1;
    var s, t := Ends(undo, true, root, acts[..n]), Ends(undo, true, root, acts);
    Reachable(undo, true, root, acts[..n]);
    HeldStep(undo, root, s, acts[n], t, id);
    if id in s.runs && Underway(s.runs[id].phase) {
      r := OpenStateHeld(undo, root, acts[..n], id);
      assert acts[..n][..r] == acts[..r];
    } else {
      r := n;
    }
  }

  lemma HeldStep(undo: Undo, root: Commit, s: State, a: Action, t: State, id: Id)
    requires Inv(undo, true, root, s) && Act(undo, true, s, a) == Some(t)
    requires id in t.runs && Underway(t.runs[id].phase)
    ensures t.archived == s.archived
    ensures !(id in s.runs && Underway(s.runs[id].phase)) ==> a == ReadHead(id)
  {
    hide Build, RunsOk, LandedApart, Explained, Rooted;
  }

  /** Under the lock: exactly when the project is archived as the request reads HEAD, which is where
      the second look at the archived flag would belong. */
  lemma LandsOnArchivedUnderLock(undo: Undo, root: Commit, acts: seq<Action>, id: Id) returns (r: nat, m: nat)
    requires Happens(undo, true, root, acts)
    requires var s := Ends(undo, true, root, acts); id in s.runs && HasLanded(s.runs[id].phase)
    ensures r < m && LandsAt(undo, true, root, acts, id, m)
    ensures acts[r] == ReadHead(id) && Happens(undo, true, root, acts[..r])
    ensures Ends(undo, true, root, acts[..m]).archived <==> Ends(undo, true, root, acts[..r]).archived
  {
    hide After;
    m := LandedBySwap(undo, true, root, acts, id);
    r := OpenStateHeld(undo, root, acts[..m], id);
    assert acts[..m][..r] == acts[..r];
  }
}
