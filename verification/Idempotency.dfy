/** The idempotency layer around changesets: look the key up, run, store the result, each a
    separate statement that may fail or never happen, over the interleaved write protocol. */
module Idempotency {
  import opened Common
  import opened Worktree
  import opened Commits
  import opened Changesets
  import opened Protocol

  /** The request body. Its hash stands for it: equal hashes mean equal bodies. */
  datatype Body = Body(base: Commit, changes: seq<Change>, message: string, dryRun: bool)

  /** `dryQuery` is the dry_run query parameter, which is not part of the body. */
  datatype Request = Request(key: string, body: Body, dryQuery: bool, author: string)

  function InputOf(r: Request, time: int): Input {
    Input(r.body.base, r.body.changes, r.body.dryRun || r.dryQuery, Meta(r.body.message, r.author, time))
  }

  datatype Record = Record(body: Body, result: Outcome)

  datatype Reply =
    | Replay(result: Outcome)
    | Own(result: Outcome)
    | KeyConflict
    | RunError(error: Outcome)
    | StoreError
    | NoReply

  datatype Stage = Waiting | Running | Ran(result: Outcome) | Answered(reply: Reply)

  datatype Pending = Pending(request: Request, stage: Stage)

  /** One project: the write protocol, its rows of idempotency_keys, and the requests at hand. */
  datatype System = System(p: State, table: map<string, Record>, reqs: map<Id, Pending>)

  /** How the statement that stores a record ends: it answers, it fails without effect, or it takes
      effect and its answer is lost. */
  datatype Fault = Answers | Fails | AnswerLost

  datatype Event =
    | Come(id: Id, request: Request)
    | Look(id: Id, time: int, storeFails: bool)
    | Inner(act: Action)
    | Collect(id: Id)
    | Store(id: Id, fault: Fault)
    | Die(id: Id)

  predicate Succeeded(o: Outcome) {
    o.Committed? || o.Previewed?
  }

  function To(sys: System, id: Id, stage: Stage): System
    requires id in sys.reqs
  {
    sys.(reqs := sys.reqs[id := sys.reqs[id].(stage := stage)])
  }

  ghost function Handle(undo: Undo, lock: bool, sys: System, e: Event): Option<System> {
    match e
    case Come(id, request) =>
      if id in sys.reqs || id in sys.p.runs then None
      else Some(sys.(reqs := sys.reqs[id := Pending(request, Waiting)]))
    case Inner(act) =>
      if act.Arrive? && act.id in sys.reqs then None
      else
        (match Act(undo, lock, sys.p, act)
         case None => None
         case Some(p) => Some(sys.(p := p)))
    case Look(id, time, storeFails) =>
      if id !in sys.reqs || sys.reqs[id].stage != Waiting then None
      else LookUp(undo, lock, sys, id, sys.reqs[id].request, time, storeFails)
    case Collect(id) =>
      if id !in sys.reqs || sys.reqs[id].stage != Running || id !in sys.p.runs || !sys.p.runs[id].phase.Over? then None
      else
        var o := sys.p.runs[id].phase.outcome;
        Some(To(sys, id, if !Succeeded(o) then Answered(RunError(o))
                         else if sys.reqs[id].request.key == "" then Answered(Own(o)) else Ran(o)))
    case Store(id, fault) =>
      if id !in sys.reqs || !sys.reqs[id].stage.Ran? then None
      else if fault.Fails? then Some(To(sys, id, Answered(StoreError)))
      else
        var put := PutRecord(sys, id, sys.reqs[id].request, sys.reqs[id].stage.result);
        Some(if fault.Answers? then put else To(put, id, Answered(StoreError)))
    case Die(id) =>
      if id !in sys.reqs || sys.reqs[id].stage.Answered? then None
      else Some(To(sys, id, Answered(NoReply)))
  }

  /** A failed lookup counts as a miss, and a miss starts the run. */
  ghost function LookUp(undo: Undo, lock: bool, sys: System, id: Id, r: Request, time: int,
      storeFails: bool): Option<System>
    requires id in sys.reqs
  {
    if r.key != "" && !storeFails && r.key in sys.table then
      Some(To(sys, id, Answered(if sys.table[r.key].body != r.body then KeyConflict
                                else Replay(sys.table[r.key].result))))
    else
      match Act(undo, lock, sys.p, Arrive(id, Write(InputOf(r, time))))
      case None => None
      case Some(p) => Some(To(sys, id, Running).(p := p))
  }

  /** PutIdempotency: the primary key decides, and an equal body already stored is fine. */
  function PutRecord(sys: System, id: Id, r: Request, result: Outcome): (next: System)
    requires id in sys.reqs
    ensures id in next.reqs
  {
    if r.key !in sys.table then
      To(sys, id, Answered(Own(result))).(table := sys.table[r.key := Record(r.body, result)])
    else if sys.table[r.key].body != r.body then To(sys, id, Answered(KeyConflict))
    else To(sys, id, Answered(Own(result)))
  }

  ghost function Handled(undo: Undo, lock: bool, sys: System, es: seq<Event>): Option<System>
    decreases |es|
  {
    if es == [] then Some(sys)
    else
      match Handled(undo, lock, sys, es[..|es| - 1])
      case None => None
      case Some(t) => Handle(undo, lock, t, es[|es| - 1])
  }

  ghost function Start(root: Commit): System {
    System(Init(root), map[], map[])
  }

  // ------------------------------------------------------------------- invariant

  /** The protocol run that belongs to a request. */
  ghost predicate RunsFor(p: State, id: Id, r: Request) {
    && id in p.runs && p.runs[id].job.Write?
    && exists time :: p.runs[id].job.input == InputOf(r, time)
  }

  ghost predicate PendingOk(sys: System, id: Id) {
    id in sys.reqs &&
    var r := sys.reqs[id].request;
    match sys.reqs[id].stage
    case Waiting => id !in sys.p.runs
    case Running => RunsFor(sys.p, id, r)
    case Ran(o) => RunsFor(sys.p, id, r) && sys.p.runs[id].phase == Over(o) && Succeeded(o) && r.key != ""
    case Answered(Replay(o)) => id !in sys.p.runs && r.key in sys.table && sys.table[r.key] == Record(r.body, o)
    case Answered(Own(o)) =>
      && RunsFor(sys.p, id, r) && sys.p.runs[id].phase == Over(o) && Succeeded(o)
      && (r.key != "" ==> r.key in sys.table && sys.table[r.key].body == r.body)
    case Answered(_) => id in sys.p.runs ==> RunsFor(sys.p, id, r)
  }

  /** A stored record is the result of a request with that key and body whose run succeeded. */
  ghost predicate FromRun(sys: System, key: string, id: Id) {
    && key in sys.table && id in sys.reqs
    && sys.reqs[id].request.key == key && sys.reqs[id].request.body == sys.table[key].body
    && RunsFor(sys.p, id, sys.reqs[id].request)
    && sys.p.runs[id].phase == Over(sys.table[key].result) && Succeeded(sys.table[key].result)
  }

  ghost predicate SysInv(undo: Undo, lock: bool, root: Commit, sys: System) {
    && Inv(undo, lock, root, sys.p)
    && (forall id :: id in sys.reqs ==> PendingOk(sys, id))
    && (forall key :: key in sys.table ==> exists id :: FromRun(sys, key, id))
  }

  /** Requests that have reached their outcome keep it, and jobs never change. */
  lemma RunsPersist(undo: Undo, lock: bool, p: State, a: Action, q: State, id: Id)
    requires Act(undo, lock, p, a) == Some(q) && id in p.runs
    ensures id in q.runs && q.runs[id].job == p.runs[id].job
    ensures p.runs[id].phase.Over? ==> q.runs[id].phase == p.runs[id].phase
  {
  }

  lemma OnlyArrivalsAdd(undo: Undo, lock: bool, p: State, a: Action, q: State, id: Id)
    requires Act(undo, lock, p, a) == Some(q) && id !in p.runs && !(a.Arrive? && a.id == id)
    ensures id !in q.runs
  {
  }

  /** A change of the protocol state alone. */
  lemma InnerKeepsInv(undo: Undo, lock: bool, root: Commit, sys: System, a: Action, next: System)
    requires SysInv(undo, lock, root, sys) && Handle(undo, lock, sys, Inner(a)) == Some(next)
    ensures SysInv(undo, lock, root, next)
  {
    hide Act, Inv;
    StepKeepsInv(undo, lock, root, sys.p, a, next.p);
    forall id | id in next.reqs ensures PendingOk(next, id) {
      assert PendingOk(sys, id);
      if id in sys.p.runs { RunsPersist(undo, lock, sys.p, a, next.p, id); }
      else { OnlyArrivalsAdd(undo, lock, sys.p, a, next.p, id); }
    }
    forall key | key in next.table ensures exists id :: FromRun(next, key, id) {
      var id :| FromRun(sys, key, id);
      RunsPersist(undo, lock, sys.p, a, next.p, id);
      assert FromRun(next, key, id);
    }
  }

  lemma PendingStays(sys: System, next: System, id: Id)
    requires PendingOk(sys, id) && id in next.reqs && next.reqs[id] == sys.reqs[id] && next.p == sys.p
    requires forall key :: key in sys.table ==> key in next.table && next.table[key] == sys.table[key]
    ensures PendingOk(next, id)
  {
  }

  /** A change of one request's own stage, with the table at most extended. */
  lemma StageKeepsInv(undo: Undo, lock: bool, root: Commit, sys: System, id: Id, next: System)
    requires SysInv(undo, lock, root, sys) && id in next.reqs && next.p == sys.p
    requires next.reqs == sys.reqs[id := next.reqs[id]]
    requires id in sys.reqs ==> next.reqs[id].request == sys.reqs[id].request
    requires PendingOk(next, id)
    requires forall key :: key in sys.table ==> key in next.table && next.table[key] == sys.table[key]
    requires forall key :: key in next.table && key !in sys.table ==> FromRun(next, key, id)
    ensures SysInv(undo, lock, root, next)
  {
    hide Inv, PendingOk, RunsFor;
    forall i | i in next.reqs ensures PendingOk(next, i) {
      if i != id {
        assert PendingOk(sys, i);
        PendingStays(sys, next, i);
      }
    }
    forall key | key in next.table ensures exists i :: FromRun(next, key, i) {
      if key in sys.table {
        var i :| FromRun(sys, key, i);
        assert FromRun(next, key, i);
      } else {
        assert FromRun(next, key, id);
      }
    }
  }

  lemma ArrivalRuns(undo: Undo, lock: bool, p: State, id: Id, job: Job, q: State)
    requires Act(undo, lock, p, Arrive(id, job)) == Some(q)
    ensures q.runs == p.runs[id := Run(job, Ready)]
  {
  }

  /** One request starts its run and the rest stays. */
  ghost predicate Started(sys: System, id: Id, time: int, next: System) {
    && id in sys.reqs && sys.reqs[id].stage == Waiting && next == To(sys, id, Running).(p := next.p)
    && next.p.runs == sys.p.runs[id := Run(Write(InputOf(sys.reqs[id].request, time)), Ready)]
  }

  lemma StartedPending(sys: System, id: Id, time: int, next: System, i: Id)
    requires Started(sys, id, time, next) && PendingOk(sys, i) && PendingOk(sys, id)
    ensures PendingOk(next, i)
  {
    if i == id { assert RunsFor(next.p, id, sys.reqs[id].request); }
  }

  lemma StartedRecord(sys: System, id: Id, time: int, next: System, key: string, i: Id)
    requires Started(sys, id, time, next) && FromRun(sys, key, i) && PendingOk(sys, id)
    ensures FromRun(next, key, i)
  {
  }

  lemma MissKeepsInv(undo: Undo, lock: bool, root: Commit, sys: System, id: Id, time: int, next: System)
    requires SysInv(undo, lock, root, sys) && id in sys.reqs && sys.reqs[id].stage == Waiting
    requires Act(undo, lock, sys.p, Arrive(id, Write(InputOf(sys.reqs[id].request, time)))) == Some(next.p)
    requires next == To(sys, id, Running).(p := next.p)
    ensures SysInv(undo, lock, root, next)
  {
    hide Inv, Act, PendingOk, FromRun;
    var job := Write(InputOf(sys.reqs[id].request, time));
    StepKeepsInv(undo, lock, root, sys.p, Arrive(id, job), next.p);
    ArrivalRuns(undo, lock, sys.p, id, job, next.p);
    forall i | i in next.reqs ensures PendingOk(next, i) {
      StartedPending(sys, id, time, next, i);
    }
    forall key | key in next.table ensures exists i :: FromRun(next, key, i) {
      var i :| FromRun(sys, key, i);
      StartedRecord(sys, id, time, next, key, i);
    }
  }

  lemma HitKeepsInv(undo: Undo, lock: bool, root: Commit, sys: System, id: Id, next: System)
    requires SysInv(undo, lock, root, sys) && id in sys.reqs && sys.reqs[id].stage == Waiting
    requires var r := sys.reqs[id].request;
             r.key in sys.table
             && next == To(sys, id, Answered(if sys.table[r.key].body != r.body then KeyConflict
                                             else Replay(sys.table[r.key].result)))
    ensures SysInv(undo, lock, root, next)
  {
    hide Inv, FromRun, RunsFor;
    assert PendingOk(sys, id);
    StageKeepsInv(undo, lock, root, sys, id, next);
  }

  lemma StoreKeepsInv(undo: Undo, lock: bool, root: Commit, sys: System, id: Id, next: System)
    requires SysInv(undo, lock, root, sys) && id in sys.reqs && sys.reqs[id].stage.Ran?
    requires var put := PutRecord(sys, id, sys.reqs[id].request, sys.reqs[id].stage.result);
             next == put || next == To(put, id, Answered(StoreError))
    ensures SysInv(undo, lock, root, next)
  {
    hide Inv, RunsFor;
    assert PendingOk(sys, id);
    StageKeepsInv(undo, lock, root, sys, id, next);
  }

  /** A request that ends or comes without the table having a part in it. */
  lemma AloneKeepsInv(undo: Undo, lock: bool, root: Commit, sys: System, e: Event, next: System)
    requires SysInv(undo, lock, root, sys) && Handle(undo, lock, sys, e) == Some(next)
    requires e.Come? || e.Collect? || e.Die? || (e.Store? && e.fault.Fails?)
    ensures SysInv(undo, lock, root, next)
  {
    hide Inv, Act, FromRun, RunsFor;
    if e.id in sys.reqs { assert PendingOk(sys, e.id); }
    StageKeepsInv(undo, lock, root, sys, e.id, next);
  }

  lemma HandleKeepsInv(undo: Undo, lock: bool, root: Commit, sys: System, e: Event, next: System)
    requires SysInv(undo, lock, root, sys) && Handle(undo, lock, sys, e) == Some(next)
    ensures SysInv(undo, lock, root, next)
  {
    hide Act, SysInv, PutRecord;
    match e {
      case Inner(a) => InnerKeepsInv(undo, lock, root, sys, a, next);
      case Look(id, time, storeFails) =>
        var r := sys.reqs[id].request;
        if r.key != "" && !storeFails && r.key in sys.table { HitKeepsInv(undo, lock, root, sys, id, next); }
        else { MissKeepsInv(undo, lock, root, sys, id, time, next); }
      case Store(id, fault) =>
        if fault.Fails? { AloneKeepsInv(undo, lock, root, sys, e, next); }
        else { StoreKeepsInv(undo, lock, root, sys, id, next); }
      case _ => AloneKeepsInv(undo, lock, root, sys, e, next);
    }
  }

  lemma {:induction false} AlwaysInv(undo: Undo, lock: bool, root: Commit, es: seq<Event>)
    requires Handled(undo, lock, Start(root), es).Some?
    ensures SysInv(undo, lock, root, Handled(undo, lock, Start(root), es).value)
    decreases |es|
  {
    if es != [] {
      AlwaysInv(undo, lock, root, es[..|es| - 1]);
      HandleKeepsInv(undo, lock, root, Handled(undo, lock, Start(root), es[..|es| - 1]).value, es[|es| - 1],
                     Handled(undo, lock, Start(root), es).value);
    }
  }

  // ---------------------------------------------------------------- main results

  ghost predicate Reached(undo: Undo, lock: bool, root: Commit, es: seq<Event>, sys: System) {
    Handled(undo, lock, Start(root), es) == Some(sys)
  }

  /** The request has moved the branch, whether or not anybody was told. */
  ghost predicate MovedBranch(sys: System, id: Id) {
    id in sys.reqs && id in sys.p.runs && HasLanded(sys.p.runs[id].phase)
  }

  /** Exactly-once effect: of all requests with one body, in any interleaving and with any
      failures, at most one ever commits. */
  lemma OneEffectPerBody(undo: Undo, lock: bool, root: Commit, es: seq<Event>, sys: System, i: Id, j: Id)
    requires Reached(undo, lock, root, es, sys) && MovedBranch(sys, i) && MovedBranch(sys, j)
    requires sys.reqs[i].request.body == sys.reqs[j].request.body
    ensures i == j
  {
    hide Inv, LandedOk, TreeFrom;
    AlwaysInv(undo, lock, root, es);
    assert PendingOk(sys, i) && PendingOk(sys, j);
    LandedOnBase(undo, lock, root, sys.p, i);
    LandedOnBase(undo, lock, root, sys.p, j);
    SameParentSameRun(undo, lock, root, sys.p, i, j);
  }

  lemma LandedOnBase(undo: Undo, lock: bool, root: Commit, p: State, id: Id)
    requires Inv(undo, lock, root, p) && id in p.runs && HasLanded(p.runs[id].phase) && p.runs[id].job.Write?
    ensures p.runs[id].phase.outcome.commit.Child?
    ensures p.runs[id].phase.outcome.commit.parent == p.runs[id].job.input.base
  {
    LandedFacts(undo, lock, root, p, id);
  }

  /** The commit that a request makes, told or not, is that of its own body: on the base it names, with
      the tree its changes build there, under its message and its caller's name, and never for a dry
      run, whether the body or the query parameter asks for one. */
  lemma CommitIsOfRequest(undo: Undo, lock: bool, root: Commit, es: seq<Event>, sys: System, id: Id)
    requires Reached(undo, lock, root, es, sys) && MovedBranch(sys, id)
    ensures var k, r := sys.p.runs[id].phase.outcome.commit, sys.reqs[id].request;
            && k.Child? && k.parent == r.body.base
            && k.meta.message == r.body.message && k.meta.author == r.author
            && !r.body.dryRun && !r.dryQuery
            && Build(CheckoutOf(k.parent.tree), r.body.changes).Ok?
            && Build(CheckoutOf(k.parent.tree), r.body.changes).value.tree == k.tree
  {
    hide Inv, Build, Handled, CheckoutOf, LandedOk, TreeFrom;
    AlwaysInv(undo, lock, root, es);
    assert PendingOk(sys, id);
    LandedFacts(undo, lock, root, sys.p, id);
    LandedVerdict(undo, lock, root, sys.p, id);
  }

  lemma LandedVerdict(undo: Undo, lock: bool, root: Commit, p: State, id: Id)
    requires Inv(undo, lock, root, p) && id in p.runs && HasLanded(p.runs[id].phase) && p.runs[id].job.Write?
    ensures var input, k := p.runs[id].job.input, p.runs[id].phase.outcome.commit;
            Verdict(input.base, false, input) == Committed(k)
  {
    assert RunOk(undo, lock, p.head, p.runs[id]);
  }

  /** A replayed answer has no effect of its own and is the stored result of an earlier
      request with the same key and body whose run succeeded. */
  lemma ReplayIsEarlierResult(undo: Undo, lock: bool, root: Commit, es: seq<Event>, sys: System, id: Id)
    returns (origin: Id)
    requires Reached(undo, lock, root, es, sys)
    requires id in sys.reqs && sys.reqs[id].stage.Answered? && sys.reqs[id].stage.reply.Replay?
    ensures id !in sys.p.runs
    ensures origin in sys.reqs && sys.reqs[origin].request.key == sys.reqs[id].request.key
    ensures sys.reqs[origin].request.body == sys.reqs[id].request.body
    ensures origin in sys.p.runs && sys.p.runs[origin].phase == Over(sys.reqs[id].stage.reply.result)
    ensures Succeeded(sys.reqs[id].stage.reply.result)
  {
    AlwaysInv(undo, lock, root, es);
    assert PendingOk(sys, id);
    origin :| FromRun(sys, sys.reqs[id].request.key, origin);
  }

  /** A replayed commit is in the history, and is what the body alone commits on its base. */
  lemma ReplayedCommitIsReal(undo: Undo, lock: bool, root: Commit, es: seq<Event>, sys: System, id: Id, k: Commit)
    requires Reached(undo, lock, root, es, sys)
    requires id in sys.reqs && sys.reqs[id].stage == Answered(Replay(Committed(k)))
    ensures Ancestor(k, sys.p.head) && k.Child? && k.parent == sys.reqs[id].request.body.base
    ensures Build(CheckoutOf(k.parent.tree), sys.reqs[id].request.body.changes).Ok?
    ensures Build(CheckoutOf(k.parent.tree), sys.reqs[id].request.body.changes).value.tree == k.tree
  {
    hide Inv, Build, Handled;
    var origin := ReplayIsEarlierResult(undo, lock, root, es, sys, id);
    AlwaysInv(undo, lock, root, es);
    assert PendingOk(sys, origin);
    LandedFacts(undo, lock, root, sys.p, origin);
  }

  /** What a replay shows depends on the request that stored it, not on the one that asks: it
      is a commit exactly when the origin was not a dry run. */
  lemma ReplayKind(undo: Undo, lock: bool, root: Commit, es: seq<Event>, sys: System, id: Id)
    returns (origin: Id)
    requires Reached(undo, lock, root, es, sys)
    requires id in sys.reqs && sys.reqs[id].stage.Answered? && sys.reqs[id].stage.reply.Replay?
    ensures origin in sys.reqs && sys.reqs[origin].request.key == sys.reqs[id].request.key
    ensures sys.reqs[origin].request.body == sys.reqs[id].request.body
    ensures sys.reqs[id].stage.reply.result.Committed? <==>
            !(sys.reqs[origin].request.body.dryRun || sys.reqs[origin].request.dryQuery)
  {
    hide Handled, Inv, Build;
    origin := ReplayIsEarlierResult(undo, lock, root, es, sys, id);
    AlwaysInv(undo, lock, root, es);
    ResultKind(undo, lock, root, sys, origin);
  }

  lemma ResultKind(undo: Undo, lock: bool, root: Commit, sys: System, id: Id)
    requires SysInv(undo, lock, root, sys) && id in sys.reqs && id in sys.p.runs
    requires sys.p.runs[id].phase.Over? && Succeeded(sys.p.runs[id].phase.outcome)
    ensures sys.p.runs[id].phase.outcome.Committed? <==>
            !(sys.reqs[id].request.body.dryRun || sys.reqs[id].request.dryQuery)
  {
    hide Inv;
    assert PendingOk(sys, id);
    DryRunFacts(undo, lock, root, sys.p, id);
  }

  /** Once a request with a key has been answered with its own result, the key is taken by its body. */
  lemma AnsweredMeansStored(undo: Undo, lock: bool, root: Commit, es: seq<Event>, sys: System, id: Id)
    requires Reached(undo, lock, root, es, sys) && id in sys.reqs && sys.reqs[id].request.key != ""
    requires sys.reqs[id].stage.Answered? && sys.reqs[id].stage.reply.Own?
    ensures sys.reqs[id].request.key in sys.table
    ensures sys.table[sys.reqs[id].request.key].body == sys.reqs[id].request.body
  {
    AlwaysInv(undo, lock, root, es);
    assert PendingOk(sys, id);
  }

  /** One key never gives its own result to two bodies. */
  lemma OwnAnswersAgree(undo: Undo, lock: bool, root: Commit, es: seq<Event>, sys: System, i: Id, j: Id)
    requires Reached(undo, lock, root, es, sys) && i in sys.reqs && j in sys.reqs
    requires sys.reqs[i].request.key == sys.reqs[j].request.key != ""
    requires sys.reqs[i].stage.Answered? && sys.reqs[i].stage.reply.Own?
    requires sys.reqs[j].stage.Answered? && sys.reqs[j].stage.reply.Own?
    ensures sys.reqs[i].request.body == sys.reqs[j].request.body
  {
    AnsweredMeansStored(undo, lock, root, es, sys, i);
    AnsweredMeansStored(undo, lock, root, es, sys, j);
  }

  // --------------------------------------------------------- which keys are taken when

  /** The event is a store that took effect, of a request with this key. */
  ghost predicate StoresKey(sys: System, e: Event, key: string) {
    e.Store? && !e.fault.Fails? && e.id in sys.reqs && sys.reqs[e.id].request.key == key
  }

  ghost predicate StoredBefore(es: seq<Event>, sys: System, key: string) {
    exists n :: 0 <= n < |es| && StoresKey(sys, es[n], key)
  }

  ghost predicate StoresKnown(es: seq<Event>, sys: System) {
    forall n :: 0 <= n < |es| && es[n].Store? ==> es[n].id in sys.reqs
  }

  /** What one event does to the table's keys and to the requests. */
  lemma HandleTable(undo: Undo, lock: bool, sys: System, e: Event, next: System)
    requires Handle(undo, lock, sys, e) == Some(next)
    ensures e.Store? ==> e.id in sys.reqs
    ensures forall id :: id in sys.reqs ==> id in next.reqs && next.reqs[id].request == sys.reqs[id].request
    ensures forall key :: key in next.table <==> key in sys.table || StoresKey(sys, e, key)
  {
    hide Act;
  }

  /** A key is in the table exactly when the store of some earlier request with it took effect. */
  lemma {:induction false} TableExactly(undo: Undo, lock: bool, root: Commit, es: seq<Event>, sys: System, key: string)
    requires Reached(undo, lock, root, es, sys)
    ensures key in sys.table <==> StoredBefore(es, sys, key)
    ensures StoresKnown(es, sys)
    decreases |es|
  {
    if es != [] {
      var n := |es| - 1;
      var before := Handled(undo, lock, Start(root), es[..n]).value;
      TableExactly(undo, lock, root, es[..n], before, key);
      HandleTable(undo, lock, before, es[n], sys);
      StoredSnoc(es, before, sys, key);
    }
  }

  lemma StoredSnoc(es: seq<Event>, before: System, sys: System, key: string)
    requires es != [] && StoresKnown(es[..|es| - 1], before) && (es[|es| - 1].Store? ==> es[|es| - 1].id in before.reqs)
    requires forall id :: id in before.reqs ==> id in sys.reqs && sys.reqs[id].request == before.reqs[id].request
    ensures StoresKnown(es, sys)
    ensures StoredBefore(es, sys, key) <==>
            StoredBefore(es[..|es| - 1], before, key) || StoresKey(before, es[|es| - 1], key)
  {
    var n := |es| - 1;
    forall i | 0 <= i < n && es[i].Store? ensures es[i].id in before.reqs { assert es[..n][i] == es[i]; }
    if i :| 0 <= i < |es| && StoresKey(sys, es[i], key) {
      if i < n { assert StoresKey(before, es[..n][i], key); }
    }
    if i :| 0 <= i < n && StoresKey(before, es[..n][i], key) { assert StoresKey(sys, es[i], key); }
    if StoresKey(before, es[n], key) { assert StoresKey(sys, es[n], key); }
  }

  /** A lookup starts a run exactly when the request has no key, the lookup failed, or no store
      under its key has taken effect before. */
  lemma LookupRunsExactly(undo: Undo, lock: bool, root: Commit, es: seq<Event>, sys: System, id: Id, time: int,
                          fails: bool, next: System)
    requires Reached(undo, lock, root, es, sys) && Handle(undo, lock, sys, Look(id, time, fails)) == Some(next)
    ensures id in sys.reqs && id in next.reqs
    ensures var key := sys.reqs[id].request.key;
            next.reqs[id].stage == Running <==> key == "" || fails || !StoredBefore(es, sys, key)
    ensures next.reqs[id].stage != Running ==> next.p == sys.p
  {
    hide Act, StoredBefore;
    TableExactly(undo, lock, root, es, sys, sys.reqs[id].request.key);
  }

  /** Once a store under a key has taken effect, a working lookup of that key never runs anything:
      an equal body is replayed and another body is refused, both without touching the repository. */
  lemma TakenKeyNeverRuns(undo: Undo, lock: bool, root: Commit, es: seq<Event>, sys: System, id: Id, time: int)
    requires Reached(undo, lock, root, es, sys) && id in sys.reqs && sys.reqs[id].stage == Waiting
    requires sys.reqs[id].request.key != "" && StoredBefore(es, sys, sys.reqs[id].request.key)
    ensures var key := sys.reqs[id].request.key;
            key in sys.table && Handle(undo, lock, sys, Look(id, time, false)).Some?
    ensures var next := Handle(undo, lock, sys, Look(id, time, false)).value;
            var rec := sys.table[sys.reqs[id].request.key];
            && next.p == sys.p && next.table == sys.table && id in next.reqs
            && next.reqs[id].stage ==
               Answered(if rec.body == sys.reqs[id].request.body then Replay(rec.result) else KeyConflict)
  {
    hide Act, StoredBefore;
    TableExactly(undo, lock, root, es, sys, sys.reqs[id].request.key);
  }

  // ------------------------------------------------------------ one server, one request

  /** A project with its idempotency rows, serving one request at a time. */
  class Server {
    const repo: Repository
    var records: map<string, Record>

    constructor (repo: Repository)
      ensures this.repo == repo && records == map[]
    {
      this.repo := repo;
      records := map[];
    }

    /** GetIdempotency; any failure looks like an absent record to the caller. */
    method Get(key: string, fails: bool) returns (r: Option<Record>)
      ensures r == if !fails && key in records then Some(records[key]) else None
    {
      r := if !fails && key in records then Some(records[key]) else None;
    }

    /** PutIdempotency: insert, and on a duplicate key compare the bodies. */
    method Put(key: string, rec: Record, fault: Fault) returns (r: Option<Reply>)
      modifies this`records
      ensures r == if !fault.Answers? then Some(StoreError)
                   else if key in old(records) && old(records)[key].body != rec.body then Some(KeyConflict)
                   else None
      ensures records == if fault.Fails? || key in old(records) then old(records) else old(records)[key := rec]
    {
      if fault.Fails? { return Some(StoreError); }
      var taken := key in records;
      if !taken { records := records[key := rec]; }
      if fault.AnswerLost? { return Some(StoreError); }
      if taken {
        var existing := Get(key, false);
        if existing.value.body != rec.body { return Some(KeyConflict); }
      }
      r := None;
    }

    /** ApplyIdempotent around one changeset. The repository changes only by a commit of this
        request; a stored record is returned as it is and nothing else happens. */
    method Apply(request: Request, time: int, getFails: bool, fault: Fault) returns (r: Reply)
      requires repo.Valid() && ProperInput(request.body.changes)
      modifies this`records, repo`head
      ensures repo.Valid()
      ensures var known := request.key != "" && !getFails && request.key in old(records);
              var verdict := Verdict(old(repo.head), repo.archived, InputOf(request, time));
              if known then
                && records == old(records) && repo.head == old(repo.head)
                && r == (if old(records)[request.key].body != request.body then KeyConflict
                         else Replay(old(records)[request.key].result))
              else
                && repo.head == (if verdict.Committed? then verdict.commit else old(repo.head))
                && (!Succeeded(verdict) ==> r == RunError(verdict) && records == old(records))
                && (Succeeded(verdict) && request.key == "" ==> r == Own(verdict) && records == old(records))
                && (Succeeded(verdict) && request.key != "" ==>
                      var taken := request.key in old(records);
                      && records == (if fault.Fails? || taken then old(records)
                                     else old(records)[request.key := Record(request.body, verdict)])
                      && r == (if !fault.Answers? then StoreError
                               else if taken && old(records)[request.key].body != request.body then KeyConflict
                               else Own(verdict)))
    {
      if request.key != "" {
        var existing := Get(request.key, getFails);
        if existing.Some? {
          if existing.value.body != request.body { return KeyConflict; }
          return Replay(existing.value.result);
        }
      }
      var result := repo.ApplyChangeset(InputOf(request, time));
      if !Succeeded(result) { return RunError(result); }
      if request.key == "" { return Own(result); }
      var problem := Put(request.key, Record(request.body, result), fault);
      r := if problem.Some? then problem.value else Own(result);
    }
  }

  /** A retry of a request that committed but whose answer was never stored, at any time after it:
      the base is stale, so the retry is a conflict and the branch keeps its one commit. */
  lemma RetryIsConflict(head: Commit, request: Request, time: int, k: Commit, later: Commit, again: int)
    requires Verdict(head, false, InputOf(request, time)) == Committed(k) && Ancestor(k, later)
    ensures Verdict(later, false, InputOf(request, again)) == Conflict
  {
    hide Build, ValidChangeset;
    AncestorDepth(k, later);
  }
}
