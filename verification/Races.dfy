/** Concrete executions of the write protocol: the undisturbed one, and the ones that show
    which stronger promises do not hold. */
module Races {
  import opened Common
  import opened Worktree
  import opened Commits
  import opened Changesets
  import opened Protocol
  import Paths

  lemma Extend(undo: Undo, lock: bool, s0: State, acts: seq<Action>, s: State, a: Action, t: State)
    requires After(undo, lock, s0, acts) == Some(s) && Act(undo, lock, s, a) == Some(t)
    ensures After(undo, lock, s0, acts + [a]) == Some(t)
  {
  }

  /** One request's own statement appended to an execution. */
  lemma ExtendRun(undo: Undo, lock: bool, s0: State, acts: seq<Action>, s: State, a: Action, p: Phase)
    requires After(undo, lock, s0, acts) == Some(s)
    requires !a.Arrive? && !a.SetArchived? && a.id in s.runs
    requires Next(undo, lock, s, a, s.runs[a.id]) == Some(p)
    ensures After(undo, lock, s0, acts + [a]) == Some(Advance(lock, s, a.id, p))
  {
  }

  /** The state `s` with the lock free, but for request `id`, which stands at phase `p`. */
  ghost function Mid(lock: bool, s: State, id: Id, job: Job, p: Phase): State {
    State(if HasLanded(p) then p.outcome.commit else s.head, s.archived,
          if lock && Underway(p) then Some(id) else None, s.runs[id := Run(job, p)])
  }

  /** The state `s` after request `id` has ended in `o`. */
  ghost function Done(s: State, id: Id, job: Job, o: Outcome): State {
    Mid(false, s, id, job, Over(o))
  }

  /** The statements of one request after its arrival, in order. */
  function Statements(id: Id): seq<Action> {
    [Admit(id), ReadHead(id), CheckOut(id), Stage(id), Mint(id), Swap(id, false)]
  }

  /** How many of them it takes to reach an outcome. */
  function Needed(o: Outcome): (n: nat)
    ensures 1 <= n <= 6
  {
    match o
    case Invalid => 1
    case Archived => 1
    case Conflict => 2
    case Rejected(_) => 4
    case PatchRefused => 4
    case Previewed(_, _) => 5
    case _ => 6
  }

  /** The statements from reading HEAD on. */
  function From(id: Id, k: nat): seq<Action>
    requires 1 <= k <= 6
  {
    Statements(id)[1..k]
  }

  predicate Follows(p: Phase, next: Phase) {
    && (next.AtHead? ==> p.Admitted?) && (next.InWorktree? ==> p.AtHead?) && (next.Staged? ==> p.InWorktree?)
    && (next.Minted? ==> p.Staged?) && !next.Ready? && !next.Admitted? && !p.Over?
  }

  lemma NextFrom(acts: seq<Action>, id: Id, k: nat)
    requires 1 <= k < 6
    ensures acts + From(id, k + 1) == acts + From(id, k) + [Statements(id)[k]]
    ensures acts + From(id, 1) == acts
  {
  }

  lemma AdvanceIsMid(lock: bool, s: State, id: Id, job: Job, p: Phase, next: Phase)
    requires Follows(p, next) && s.holder == None
    ensures Advance(lock, Mid(lock, s, id, job, p), id, next) == Mid(lock, s, id, job, next)
  {
    assert s.runs[id := Run(job, p)][id := Run(job, next)] == s.runs[id := Run(job, next)];
  }

  /** One more statement of a request that nothing disturbs. */
  lemma StepAlone(undo: Undo, lock: bool, s0: State, acts: seq<Action>, k: nat, s: State, id: Id, job: Job, p: Phase,
      next: Phase)
    requires 1 <= k < 6 && s.holder == None && Follows(p, next)
    requires After(undo, lock, s0, acts + From(id, k)) == Some(Mid(lock, s, id, job, p))
    requires Next(undo, lock, Mid(lock, s, id, job, p), Statements(id)[k], Run(job, p)) == Some(next)
    ensures After(undo, lock, s0, acts + From(id, k + 1)) == Some(Mid(lock, s, id, job, next))
  {
    hide After, Next, Advance, Follows, From;
    NextFrom(acts, id, k);
    AdvanceIsMid(lock, s, id, job, p, next);
    ExtendRun(undo, lock, s0, acts + From(id, k), Mid(lock, s, id, job, p), Statements(id)[k], next);
  }

  lemma Stands(lock: bool, s: State, id: Id, job: Job, p: Phase)
    requires id in s.runs && s.runs[id] == Run(job, p) && !HasLanded(p)
    requires s.holder == if lock && Underway(p) then Some(id) else None
    ensures Mid(lock, s, id, job, p) == s
  {
    assert s.runs[id := Run(job, p)] == s.runs;
  }

  /** Checkout and build of a request that has read `current`. */
  lemma Views(undo: Undo, lock: bool, s0: State, acts: seq<Action>, s: State, id: Id, job: Job, current: Commit)
    requires s.holder == None
    requires After(undo, lock, s0, acts + From(id, 2)) == Some(Mid(lock, s, id, job, AtHead(current)))
    ensures After(undo, lock, s0, acts + From(id, 4)) ==
            Some(Mid(lock, s, id, job, StagePhase(undo, job, current, s.head)))
  {
    hide After, Build, From, StagePhase, HasLanded;
    var p := StagePhase(undo, job, current, s.head);
    StagedOrOver(undo, job, current, s.head);
    StepAlone(undo, lock, s0, acts, 2, s, id, job, AtHead(current), InWorktree(current, s.head));
    StepAlone(undo, lock, s0, acts, 3, s, id, job, InWorktree(current, s.head), p);
  }

  lemma StagedOrOver(undo: Undo, job: Job, current: Commit, seen: Commit)
    ensures var p := StagePhase(undo, job, current, seen);
            && Follows(InWorktree(current, seen), p) && !HasLanded(p)
    ensures !HasLanded(AtHead(current)) && !HasLanded(InWorktree(current, seen))
  {
  }

  lemma Previews(undo: Undo, lock: bool, s0: State, acts: seq<Action>, s: State, id: Id, dry: Input, p: Phase)
    requires s.holder == None && dry.dryRun && p.Staged?
    requires After(undo, lock, s0, acts + From(id, 4)) == Some(Mid(lock, s, id, Write(dry), p))
    ensures After(undo, lock, s0, acts + From(id, 5)) == Some(Done(s, id, Write(dry), Previewed(p.current, p.built)))
  {
    hide After, From;
    StepAlone(undo, lock, s0, acts, 4, s, id, Write(dry), p, Over(Previewed(p.current, p.built)));
  }

  lemma Lands(undo: Undo, lock: bool, s0: State, acts: seq<Action>, s: State, id: Id, job: Job, p: Phase)
    requires s.holder == None && !(job.Write? && job.input.dryRun) && p.Staged? && p.current == s.head
    requires After(undo, lock, s0, acts + From(id, 4)) == Some(Mid(lock, s, id, job, p))
    ensures After(undo, lock, s0, acts + From(id, 6)) ==
            Some(Done(s, id, job, Committed(Child(s.head, p.built.tree, MetaOf(job)))))
  {
    hide After, From;
    var k := Child(s.head, p.built.tree, MetaOf(job));
    StepAlone(undo, lock, s0, acts, 4, s, id, job, p, Minted(s.head, p.seen, k));
    StepAlone(undo, lock, s0, acts, 5, s, id, job, Minted(s.head, p.seen, k), Over(Committed(k)));
  }

  /** What a request that has been admitted comes to when nothing disturbs it. */
  ghost function Proceeds(undo: Undo, head: Commit, job: Job): Outcome {
    if job.Write? && job.input.base != head then Conflict
    else
      var p := StagePhase(undo, job, head, head);
      if p.Over? then p.outcome
      else if job.Write? && job.input.dryRun then Previewed(head, p.built)
      else Committed(Child(head, p.built.tree, MetaOf(job)))
  }

  lemma AdmittedAlone(undo: Undo, lock: bool, s0: State, acts: seq<Action>, s: State, id: Id, job: Job)
    requires After(undo, lock, s0, acts) == Some(s) && s.holder == None
    requires id in s.runs && s.runs[id] == Run(job, Admitted)
    ensures var o := Proceeds(undo, s.head, job);
            After(undo, lock, s0, acts + From(id, Needed(o))) == Some(Done(s, id, job, o))
  {
    hide After, Build, From, StagePhase, Mid, Follows;
    NextFrom(acts, id, 1);
    Stands(lock, s, id, job, Admitted);
    var p := StagePhase(undo, job, s.head, s.head);
    ReadsHead(undo, lock, s, id, job);
    if job.Write? && job.input.base != s.head {
      StepAlone(undo, lock, s0, acts, 1, s, id, job, Admitted, Over(Conflict));
      OverUnlocks(lock, s, id, job, Conflict);
    } else {
      StepAlone(undo, lock, s0, acts, 1, s, id, job, Admitted, AtHead(s.head));
      Views(undo, lock, s0, acts, s, id, job, s.head);
      StageAnswers(undo, job, s.head);
      if p.Over? { OverUnlocks(lock, s, id, job, p.outcome); }
      else if job.Write? && job.input.dryRun { Previews(undo, lock, s0, acts, s, id, job.input, p); }
      else { Lands(undo, lock, s0, acts, s, id, job, p); }
    }
  }

  lemma OverUnlocks(lock: bool, s: State, id: Id, job: Job, o: Outcome)
    ensures Mid(lock, s, id, job, Over(o)) == Done(s, id, job, o)
  {
  }

  lemma ReadsHead(undo: Undo, lock: bool, s: State, id: Id, job: Job)
    requires s.holder == None && id in s.runs && s.runs[id] == Run(job, Admitted)
    ensures var p := if job.Write? && job.input.base != s.head then Over(Conflict) else AtHead(s.head);
            Next(undo, lock, s, Statements(id)[1], Run(job, Admitted)) == Some(p) && Follows(Admitted, p)
  {
  }

  lemma StageAnswers(undo: Undo, job: Job, head: Commit)
    ensures var p := StagePhase(undo, job, head, head);
            && (p.Over? ==> p.outcome.Rejected? || p.outcome.PatchRefused?)
            && (p.Staged? ==> p.current == head && p.seen == head)
  {
  }

  ghost function Admission(s: State, job: Job): Phase {
    if job.Write? && !ValidChangeset(job.input.changes) then Over(Invalid)
    else if s.archived then Over(Archived)
    else Admitted
  }

  lemma Admits(undo: Undo, lock: bool, s0: State, acts: seq<Action>, s: State, id: Id, job: Job)
    requires After(undo, lock, s0, acts) == Some(s) && s.holder == None
    requires id in s.runs && s.runs[id] == Run(job, Ready)
    ensures After(undo, lock, s0, acts + [Admit(id)]) == Some(Mid(lock, s, id, job, Admission(s, job)))
  {
    hide After, ValidChangeset;
    ExtendRun(undo, lock, s0, acts, s, Admit(id), Admission(s, job));
  }

  /** What a request comes to when nothing disturbs it. */
  ghost function Answer(undo: Undo, s: State, job: Job): Outcome {
    if Admission(s, job).Over? then Admission(s, job).outcome else Proceeds(undo, s.head, job)
  }

  lemma ReadyAlone(undo: Undo, lock: bool, s0: State, acts: seq<Action>, s: State, id: Id, job: Job)
    requires After(undo, lock, s0, acts) == Some(s) && s.holder == None
    requires id in s.runs && s.runs[id] == Run(job, Ready)
    ensures var o := Answer(undo, s, job);
            After(undo, lock, s0, acts + Statements(id)[..Needed(o)]) == Some(Done(s, id, job, o))
  {
    hide After, ValidChangeset, Proceeds;
    var o := Answer(undo, s, job);
    Admits(undo, lock, s0, acts, s, id, job);
    assert acts + Statements(id)[..Needed(o)] == acts + [Admit(id)] + From(id, Needed(o));
    NextFrom(acts + [Admit(id)], id, 1);
    if Admission(s, job).Admitted? {
      var t := Mid(lock, s, id, job, Admitted);
      AdmittedAlone(undo, lock, s0, acts + [Admit(id)], t, id, job);
      assert t.runs[id := Run(job, Over(o))] == s.runs[id := Run(job, Over(o))];
    } else {
      OverUnlocks(lock, s, id, job, o);
    }
  }

  /** The statements of a whole request with its arrival. */
  ghost function WholeRun(undo: Undo, s: State, id: Id, job: Job): seq<Action> {
    [Arrive(id, job)] + Statements(id)[..Needed(Answer(undo, s, job))]
  }

  lemma ArrivedAlone(undo: Undo, lock: bool, s0: State, acts: seq<Action>, s: State, id: Id, job: Job)
    requires After(undo, lock, s0, acts) == Some(s)
    requires id !in s.runs && s.holder == None && ProperJob(job)
    ensures After(undo, lock, s0, acts + WholeRun(undo, s, id, job)) == Some(Done(s, id, job, Answer(undo, s, job)))
  {
    hide After, Answer, ProperJob;
    var o := Answer(undo, s, job);
    var t := s.(runs := s.runs[id := Run(job, Ready)]);
    Extend(undo, lock, s0, acts, s, Arrive(id, job), t);
    ReadyAlone(undo, lock, s0, acts + [Arrive(id, job)], t, id, job);
    SameAnswer(undo, s, t, job);
    assert acts + WholeRun(undo, s, id, job) == acts + [Arrive(id, job)] + Statements(id)[..Needed(o)];
    assert t.runs[id := Run(job, Over(o))] == s.runs[id := Run(job, Over(o))];
  }

  lemma SameAnswer(undo: Undo, s: State, t: State, job: Job)
    requires s.head == t.head && s.archived == t.archived
    ensures Answer(undo, s, job) == Answer(undo, t, job)
  {
  }

  /** A fresh changeset request, appended to any execution that has ended with the lock free, runs
      through its statements and answers what the sequential reading says, whatever that is. */
  lemma UndisturbedRun(undo: Undo, lock: bool, s0: State, acts: seq<Action>, s: State, id: Id, input: Input)
    requires After(undo, lock, s0, acts) == Some(s)
    requires id !in s.runs && s.holder == None && ProperInput(input.changes)
    ensures After(undo, lock, s0, acts + WholeRun(undo, s, id, Write(input)))
            == Some(Done(s, id, Write(input), Verdict(s.head, s.archived, input)))
  {
    hide After, Done, WholeRun;
    ArrivedAlone(undo, lock, s0, acts, s, id, Write(input));
    AnswerIsVerdict(undo, s, input);
  }

  lemma AnswerIsVerdict(undo: Undo, s: State, input: Input)
    ensures Answer(undo, s, Write(input)) == Verdict(s.head, s.archived, input)
  {
    hide Build, ValidChangeset;
  }

  /** And so does a fresh revert request. */
  lemma UndisturbedRevert(lock: bool, s0: State, acts: seq<Action>, s: State, id: Id, target: Commit, meta: Meta)
    requires After(Reverse, lock, s0, acts) == Some(s)
    requires id !in s.runs && s.holder == None
    ensures After(Reverse, lock, s0, acts + WholeRun(Reverse, s, id, Revert(target, meta)))
            == Some(Done(s, id, Revert(target, meta), RevertVerdict(s.head, s.archived, Some(target), meta)))
  {
    ArrivedAlone(Reverse, lock, s0, acts, s, id, Revert(target, meta));
  }

  // ------------------------------------------------------- promises that do not hold

  ghost predicate WouldCommit(base: Commit, input: Input) {
    && ProperInput(input.changes) && ValidChangeset(input.changes)
    && input.base == base && !input.dryRun && Build(CheckoutOf(base.tree), input.changes).Ok?
  }

  ghost function CommitOf(input: Input): Commit
    requires Build(CheckoutOf(input.base.tree), input.changes).Ok?
  {
    Child(input.base, Build(CheckoutOf(input.base.tree), input.changes).value.tree, input.meta)
  }

  function Opening(id: Id, input: Input): seq<Action> {
    [Arrive(id, Write(input))] + [Admit(id)]
  }

  lemma Opens(undo: Undo, lock: bool, s0: State, acts: seq<Action>, s: State, id: Id, input: Input)
    requires After(undo, lock, s0, acts) == Some(s) && id !in s.runs && !s.archived && s.holder == None
    requires ProperInput(input.changes) && ValidChangeset(input.changes)
    ensures After(undo, lock, s0, acts + Opening(id, input)) == Some(Mid(lock, s, id, Write(input), Admitted))
  {
    hide After, ValidChangeset, ProperInput;
    var job := Write(input);
    var t := s.(runs := s.runs[id := Run(job, Ready)]);
    Extend(undo, lock, s0, acts, s, Arrive(id, job), t);
    Admits(undo, lock, s0, acts + [Arrive(id, job)], t, id, job);
    assert acts + Opening(id, input) == acts + [Arrive(id, job)] + [Admit(id)];
    assert t.runs[id := Run(job, Admitted)] == s.runs[id := Run(job, Admitted)];
  }

  lemma CommitIsProceeds(undo: Undo, head: Commit, input: Input)
    requires WouldCommit(head, input)
    ensures Proceeds(undo, head, Write(input)) == Committed(CommitOf(input)) && CommitOf(input).parent == head
  {
    hide Build, ValidChangeset, ProperInput;
  }

  /** Archiving between admission and the lock does not stop the commit, lock or no lock. */
  lemma CommitLandsOnArchived(undo: Undo, lock: bool, root: Commit, input: Input)
    requires WouldCommit(root, input)
    ensures var acts := Opening(0, input) + [SetArchived(true)] + From(0, 6);
            && Happens(undo, lock, root, acts)
            && Ends(undo, lock, root, acts).archived
            && Ends(undo, lock, root, acts).head == CommitOf(input)
  {
    hide Build, After, Opening, From, Proceeds;
    var s0 := Init(root);
    NothingDone(undo, lock, s0);
    Opens(undo, lock, s0, [], s0, 0, input);
    assert [] + Opening(0, input) == Opening(0, input);
    var s1 := Mid(lock, s0, 0, Write(input), Admitted);
    var s2 := s1.(archived := true);
    Extend(undo, lock, s0, Opening(0, input), s1, SetArchived(true), s2);
    CommitIsProceeds(undo, root, input);
    AdmittedAlone(undo, lock, s0, Opening(0, input) + [SetArchived(true)], s2, 0, Write(input));
  }

  lemma NothingDone(undo: Undo, lock: bool, s0: State)
    ensures After(undo, lock, s0, []) == Some(s0)
  {
  }

  /** A dry run up to reading HEAD, another request from its arrival to its swap, and the rest of the dry run. */
  function AroundAnother(dry: Input, other: Input): seq<Action> {
    Opening(0, dry) + From(0, 2) + ([Arrive(1, Write(other))] + Statements(1)) + [CheckOut(0), Stage(0), Mint(0)]
  }

  lemma DryReads(undo: Undo, root: Commit, dry: Input)
    requires ProperInput(dry.changes) && ValidChangeset(dry.changes) && dry.base == root
    ensures After(undo, false, Init(root), Opening(0, dry) + From(0, 2))
            == Some(Mid(false, Init(root), 0, Write(dry), AtHead(root)))
  {
    hide After, Opening, From, ProperInput, ValidChangeset;
    var s0, job := Init(root), Write(dry);
    NothingDone(undo, false, s0);
    Opens(undo, false, s0, [], s0, 0, dry);
    assert [] + Opening(0, dry) == Opening(0, dry);
    NextFrom(Opening(0, dry), 0, 1);
    StepAlone(undo, false, s0, Opening(0, dry), 1, s0, 0, job, Admitted, AtHead(root));
  }

  /** Another request runs from start to swap. */
  lemma AnotherCommits(undo: Undo, s0: State, acts: seq<Action>, s: State, id: Id, other: Input)
    requires After(undo, false, s0, acts) == Some(s)
    requires id !in s.runs && s.holder == None && !s.archived && WouldCommit(s.head, other)
    ensures After(undo, false, s0, acts + ([Arrive(id, Write(other))] + Statements(id)))
            == Some(Done(s, id, Write(other), Committed(CommitOf(other))))
  {
    hide After, Build, ProperInput, ValidChangeset, Done;
    UndisturbedRun(undo, false, s0, acts, s, id, other);
    AnswerIsVerdict(undo, s, other);
    assert Statements(id)[..6] == Statements(id);
  }

  /** Without the lock: another request commits after a dry run has read HEAD and before its
      checkout; the dry run then previews its changes on top of that other commit. */
  lemma PreviewOfAnotherTree(undo: Undo, root: Commit, dry: Input, other: Input, built: Built)
    requires WouldCommit(root, other)
    requires ProperInput(dry.changes) && ValidChangeset(dry.changes) && dry.base == root && dry.dryRun
    requires Build(CheckoutOf(CommitOf(other).tree), dry.changes) == Ok(built)
    ensures var acts := AroundAnother(dry, other);
            && Happens(undo, false, root, acts)
            && 0 in Ends(undo, false, root, acts).runs
            && Ends(undo, false, root, acts).runs[0].phase == Over(Previewed(root, built))
  {
    hide Build, After, Opening, ProperInput, ValidChangeset, Statements, From;
    var s0 := Init(root);
    DryReads(undo, root, dry);
    var s := Mid(false, s0, 0, Write(dry), AtHead(root));
    AnotherCommits(undo, s0, Opening(0, dry) + From(0, 2), s, 1, other);
    var t := Done(s, 1, Write(other), Committed(CommitOf(other)));
    var before := Opening(0, dry) + From(0, 2) + ([Arrive(1, Write(other))] + Statements(1));
    DryEnds(undo, s0, before, t, 0, dry, root, built);
  }

  lemma DryEnds(undo: Undo, s0: State, acts: seq<Action>, s: State, id: Id, dry: Input, current: Commit, built: Built)
    requires After(undo, false, s0, acts) == Some(s) && s.holder == None && dry.dryRun
    requires id in s.runs && s.runs[id] == Run(Write(dry), AtHead(current))
    requires Build(CheckoutOf(s.head.tree), dry.changes) == Ok(built)
    ensures After(undo, false, s0, acts + [CheckOut(id), Stage(id), Mint(id)])
            == Some(Done(s, id, Write(dry), Previewed(current, built)))
  {
    hide Build, After;
    var job, at := Write(dry), InWorktree(current, s.head);
    ExtendRun(undo, false, s0, acts, s, CheckOut(id), at);
    var s1 := Advance(false, s, id, at);
    ExtendRun(undo, false, s0, acts + [CheckOut(id)], s1, Stage(id), Staged(current, s.head, built));
    var s2 := Advance(false, s1, id, Staged(current, s.head, built));
    ExtendRun(undo, false, s0, acts + [CheckOut(id)] + [Stage(id)], s2, Mint(id), Over(Previewed(current, built)));
    assert acts + [CheckOut(id), Stage(id), Mint(id)] == acts + [CheckOut(id)] + [Stage(id)] + [Mint(id)];
    assert s2.runs[id := Run(job, Over(Previewed(current, built)))]
        == s.runs[id := Run(job, Over(Previewed(current, built)))];
  }

  // ------------------------------------------------------------ a concrete instance

  lemma OneSegment(p: string)
    requires Paths.RealName(p) && '\\' !in p
    ensures Paths.Locate(p) == [p] && Paths.AcceptsDocPath(p)
  {
    SplitHead(p, "", '/');
    assert p + "" == p;
    var n := Paths.Norm(false, 0, [p]);
    assert Paths.Normal(p) == n by {
      assert Split(p, '/') == [p];
      assert Paths.Step(Paths.Norm(false, 0, []), p) == n;
      assert Paths.Walk(n, []) == n;
    }
    Paths.RenderEscapes(n);
  }

  function CreateAt(p: string): Change {
    Change(Create, p, "text", Plain, "")
  }

  lemma OneChange(f: Forest, c: Change)
    requires c.encoding == Plain && ApplyOne(f, c).result.Ok?
    ensures Build(f, [c]) == Ok(Built(Files(ApplyOne(f, c).forest), [ApplyOne(f, c).result.value]))
  {
    assert Decode(c) == Some(c);
    assert DecodeAll([c]).value == [c];
    var e := ApplyOne(f, c);
    assert [c][1..] == [] && [] + [e.result.value] == [e.result.value];
    assert ApplyFrom(f, [c], []) == ApplyFrom(e.forest, [], [e.result.value]);
  }

  lemma CreateAlone(f: Forest, p: string)
    requires WellFormed(f) && Paths.Locate(p) == [p] && ([p] in f ==> f[[p]].File?)
    ensures ApplyOne(f, CreateAt(p)).result == Ok(Created)
  {
  }

  /** Creating a file in the root directory succeeds unless a directory is there. */
  lemma CreateInRoot(t: Tree, p: string)
    requires PrefixFree(t) && Paths.RealName(p) && '\\' !in p && p != ".git"
    requires forall q :: q in t ==> !([p] < q)
    ensures ProperInput([CreateAt(p)]) && ValidChangeset([CreateAt(p)])
    ensures Build(CheckoutOf(t), [CreateAt(p)]) == Ok(Built(t[[p] := "text"], [Created]))
  {
    hide *;
    RequestInRoot(p);
    NoDirectoryThere(t, p);
    CreateAlone(CheckoutOf(t), p);
    CreateSeen(CheckoutOf(t), p);
    OneChange(CheckoutOf(t), CreateAt(p));
  }

  lemma RequestInRoot(p: string)
    requires Paths.RealName(p) && '\\' !in p && p != ".git"
    ensures Paths.Locate(p) == [p] && CreateAt(p).encoding == Plain
    ensures ProperInput([CreateAt(p)]) && ValidChangeset([CreateAt(p)]) && Proper(CreateAt(p))
  {
    OneSegment(p);
  }

  lemma NoDirectoryThere(t: Tree, p: string)
    requires PrefixFree(t) && forall q :: q in t ==> !([p] < q)
    ensures WellFormed(CheckoutOf(t)) && Files(CheckoutOf(t)) == t
    ensures [p] in CheckoutOf(t) ==> CheckoutOf(t)[[p]].File?
  {
    hide CheckoutOf;
    CheckoutWellFormed(t);
    CheckoutEntries(t, [p]);
    if [p] in CheckoutOf(t) {
      var r :| r in t && [p] <= r;
      assert |r| == 1;
      assert r == [p];
    }
  }

  lemma CreateSeen(f: Forest, p: string)
    requires WellFormed(f) && Proper(CreateAt(p)) && Paths.Locate(p) == [p]
    requires ApplyOne(f, CreateAt(p)).result.Ok?
    ensures Files(ApplyOne(f, CreateAt(p)).forest) == Files(f)[[p] := "text"]
  {
  }

  /** A preview that the changes alone would never give: it shows the other request's file. */
  lemma PreviewCanBeWrong(undo: Undo, meta: Meta)
    ensures var root := Root(map[], meta);
            var dry := Input(root, [CreateAt("a")], true, meta);
            var other := Input(root, [CreateAt("b")], false, meta);
            var acts := AroundAnother(dry, other);
            && Happens(undo, false, root, acts)
            && 0 in Ends(undo, false, root, acts).runs
            && Ends(undo, false, root, acts).runs[0].phase ==
               Over(Previewed(root, Built(map[["a"] := "text", ["b"] := "text"], [Created])))
            && Build(CheckoutOf(root.tree), dry.changes) == Ok(Built(map[["a"] := "text"], [Created]))
  {
    hide Build;
    var root := Root(map[], meta);
    var dry := Input(root, [CreateAt("a")], true, meta);
    var other := Input(root, [CreateAt("b")], false, meta);
    CreateInRoot(map[], "a");
    CreateInRoot(map[], "b");
    var after: Tree := map[["b"] := "text"];
    CreateInRoot(after, "a");
    assert after[["a"] := "text"] == map[["a"] := "text", ["b"] := "text"];
    PreviewOfAnotherTree(undo, root, dry, other, Built(after[["a"] := "text"], [Created]));
  }
}
