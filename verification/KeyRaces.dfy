/** Executions of the idempotency layer that show which stronger promises do not hold. */
module KeyRaces {
  import opened Common
  import opened Worktree
  import opened Commits
  import opened Changesets
  import opened Protocol
  import opened Races
  import opened Idempotency

  lemma Grow(undo: Undo, lock: bool, s0: System, es: seq<Event>, sys: System, e: Event, next: System)
    requires Handled(undo, lock, s0, es) == Some(sys) && Handle(undo, lock, sys, e) == Some(next)
    ensures Handled(undo, lock, s0, es + [e]) == Some(next)
  {
  }

  lemma NoEvents(undo: Undo, lock: bool, s0: System)
    ensures Handled(undo, lock, s0, []) == Some(s0)
  {
  }

  function Inners(acts: seq<Action>): seq<Event> {
    seq(|acts|, i requires 0 <= i < |acts| => Inner(acts[i]))
  }

  /** Statements of the write protocol happen inside the larger system unchanged. */
  lemma {:induction false} GrowInner(undo: Undo, lock: bool, s0: System, es: seq<Event>, sys: System,
                                         acts: seq<Action>, p: State)
    requires Handled(undo, lock, s0, es) == Some(sys)
    requires After(undo, lock, sys.p, acts) == Some(p)
    requires forall a :: a in acts ==> !a.Arrive?
    ensures Handled(undo, lock, s0, es + Inners(acts)) == Some(sys.(p := p))
    decreases |acts|
  {
    hide Act;
    if acts == [] {
      assert es + Inners(acts) == es;
    } else {
      var n := |acts| - 1;
      var q := After(undo, lock, sys.p, acts[..n]).value;
      GrowInner(undo, lock, s0, es, sys, acts[..n], q);
      assert acts[n] in acts;
      Grow(undo, lock, s0, es + Inners(acts[..n]), sys.(p := q), Inner(acts[n]), sys.(p := p));
      assert es + Inners(acts) == es + Inners(acts[..n]) + [Inner(acts[n])];
    }
  }

  ghost function Entered(sys: System, id: Id, r: Request): System {
    var p := sys.p.(runs := sys.p.runs[id := Run(Write(InputOf(r, 0)), Ready)]);
    System(p, sys.table, sys.reqs[id := Pending(r, Running)])
  }

  function Entering(id: Id, r: Request): seq<Event> {
    [Come(id, r)] + [Look(id, 0, false)]
  }

  /** A request comes and its lookup misses. */
  lemma Enters(undo: Undo, lock: bool, s0: System, es: seq<Event>, sys: System, id: Id, r: Request)
    requires Handled(undo, lock, s0, es) == Some(sys)
    requires id !in sys.reqs && id !in sys.p.runs && r.key !in sys.table && ProperInput(r.body.changes)
    ensures Handled(undo, lock, s0, es + Entering(id, r)) == Some(Entered(sys, id, r))
  {
    hide Handled, ProperInput;
    var s1 := sys.(reqs := sys.reqs[id := Pending(r, Waiting)]);
    Grow(undo, lock, s0, es, sys, Come(id, r), s1);
    assert s1.reqs[id := Pending(r, Running)] == Entered(sys, id, r).reqs;
    Grow(undo, lock, s0, es + [Come(id, r)], s1, Look(id, 0, false), Entered(sys, id, r));
    assert es + Entering(id, r) == es + [Come(id, r)] + [Look(id, 0, false)];
  }

  function Carrying(id: Id, o: Outcome): seq<Event> {
    Inners(Statements(id)[..Needed(o)])
  }

  /** A run that has just started goes on undisturbed to its outcome. */
  lemma RunsAlone(undo: Undo, lock: bool, s0: System, es: seq<Event>, sys: System, id: Id, input: Input, o: Outcome)
    requires Handled(undo, lock, s0, es) == Some(sys)
    requires id in sys.p.runs && sys.p.runs[id] == Run(Write(input), Ready) && sys.p.holder == None
    requires o == Verdict(sys.p.head, sys.p.archived, input)
    ensures Handled(undo, lock, s0, es + Carrying(id, o)) == Some(sys.(p := Done(sys.p, id, Write(input), o)))
  {
    hide Handled, Answer, Done, Verdict, After, Inners;
    var acts := Statements(id)[..Needed(o)];
    NothingDone(undo, lock, sys.p);
    AnswerIsVerdict(undo, sys.p, input);
    ReadyAlone(undo, lock, sys.p, [], sys.p, id, Write(input));
    assert [] + acts == acts;
    GrowInner(undo, lock, s0, es, sys, acts, Done(sys.p, id, Write(input), o));
  }

  function Storing(id: Id): seq<Event> {
    [Collect(id)] + [Store(id, Answers)]
  }

  /** A finished, successful request stores its result and is answered. */
  lemma Stores(undo: Undo, lock: bool, s0: System, es: seq<Event>, sys: System, id: Id, o: Outcome)
    requires Handled(undo, lock, s0, es) == Some(sys)
    requires id in sys.reqs && sys.reqs[id].stage == Running && sys.reqs[id].request.key != ""
    requires id in sys.p.runs && sys.p.runs[id].phase == Over(o) && Succeeded(o)
    ensures var r := sys.reqs[id].request;
            Handled(undo, lock, s0, es + Storing(id)) == Some(
              if r.key !in sys.table then To(sys, id, Answered(Own(o))).(table := sys.table[r.key := Record(r.body, o)])
              else To(sys, id, Answered(if sys.table[r.key].body != r.body then KeyConflict else Own(o))))
  {
    hide Handled, Act, Inv;
    var r := sys.reqs[id].request;
    var s1 := To(sys, id, Ran(o));
    Grow(undo, lock, s0, es, sys, Collect(id), s1);
    var s2 := PutRecord(s1, id, r, o);
    Grow(undo, lock, s0, es + [Collect(id)], s1, Store(id, Answers), s2);
    assert es + Storing(id) == es + [Collect(id)] + [Store(id, Answers)];
    assert s2.reqs == sys.reqs[id := Pending(r, s2.reqs[id].stage)];
  }

  lemma Replays(undo: Undo, lock: bool, s0: System, es: seq<Event>, sys: System, id: Id, r: Request)
    requires Handled(undo, lock, s0, es) == Some(sys)
    requires id !in sys.reqs && id !in sys.p.runs
    requires r.key != "" && r.key in sys.table && sys.table[r.key].body == r.body
    ensures Handled(undo, lock, s0, es + Entering(id, r)) ==
            Some(sys.(reqs := sys.reqs[id := Pending(r, Answered(Replay(sys.table[r.key].result)))]))
  {
    hide Handled, Act;
    var s1 := sys.(reqs := sys.reqs[id := Pending(r, Waiting)]);
    Grow(undo, lock, s0, es, sys, Come(id, r), s1);
    var s2 := sys.(reqs := sys.reqs[id := Pending(r, Answered(Replay(sys.table[r.key].result)))]);
    assert s1.reqs[id := Pending(r, Answered(Replay(sys.table[r.key].result)))] == s2.reqs;
    Grow(undo, lock, s0, es + [Come(id, r)], s1, Look(id, 0, false), s2);
    assert es + Entering(id, r) == es + [Come(id, r)] + [Look(id, 0, false)];
  }

  // --------------------------------------------------------- a dry run and a real request

  ghost function DryThenReal(r: Request, o: Outcome): seq<Event> {
    Entering(0, r) + Carrying(0, o) + Storing(0) + Entering(1, r.(dryQuery := false))
  }

  /** The dry_run query parameter is not part of what the key remembers: a dry run under a key
      answers the real request that follows with the preview, and nothing is ever committed. */
  lemma DryRunAnswersRealRequest(undo: Undo, lock: bool, root: Commit, r: Request, built: Built)
    requires r.key != "" && r.dryQuery && !r.body.dryRun && r.body.base == root
    requires ProperInput(r.body.changes) && ValidChangeset(r.body.changes)
    requires Build(CheckoutOf(root.tree), r.body.changes) == Ok(built)
    ensures var es := DryThenReal(r, Previewed(root, built));
            && Handled(undo, lock, Start(root), es).Some?
            && var end := Handled(undo, lock, Start(root), es).value;
            && 1 in end.reqs && !end.reqs[1].request.dryQuery && !end.reqs[1].request.body.dryRun
            && end.reqs[1].stage == Answered(Replay(Previewed(root, built)))
            && end.p.head == root && 1 !in end.p.runs
  {
    hide Build, Handled, After, Handle, ValidChangeset, Entering, Carrying, Storing, Statements;
    var s0, o, none: seq<Event> := Start(root), Previewed(root, built), [];
    NoEvents(undo, lock, s0);
    Enters(undo, lock, s0, none, s0, 0, r);
    assert none + Entering(0, r) == Entering(0, r);
    var s1 := Entered(s0, 0, r);
    RunsAlone(undo, lock, s0, Entering(0, r), s1, 0, InputOf(r, 0), o);
    var s2 := s1.(p := Done(s1.p, 0, Write(InputOf(r, 0)), o));
    Stores(undo, lock, s0, Entering(0, r) + Carrying(0, o), s2, 0, o);
    var s3 := To(s2, 0, Answered(Own(o))).(table := map[][r.key := Record(r.body, o)]);
    Replays(undo, lock, s0, Entering(0, r) + Carrying(0, o) + Storing(0), s3, 1, r.(dryQuery := false));
  }

  // ------------------------------------------------------------ two bodies under one key

  /** The second request comes, based on what the first has committed, before the first has stored
      its record; then both store. */
  ghost function TwoUnderOneKey(r: Request, q: Request, o: Outcome, u: Outcome): seq<Event> {
    Entering(0, r) + Carrying(0, o) + Entering(1, q) + Carrying(1, u) + Storing(0) + Storing(1)
  }

  lemma BothCommit(undo: Undo, lock: bool, root: Commit, r: Request, q: Request)
    returns (sys: System)
    requires WouldCommit(root, InputOf(r, 0)) && WouldCommit(CommitOf(InputOf(r, 0)), InputOf(q, 0))
    ensures var k, l := CommitOf(InputOf(r, 0)), CommitOf(InputOf(q, 0));
            var es := Entering(0, r) + Carrying(0, Committed(k)) + Entering(1, q) + Carrying(1, Committed(l));
            && Handled(undo, lock, Start(root), es) == Some(sys)
            && sys.table == map[] && sys.reqs == map[0 := Pending(r, Running), 1 := Pending(q, Running)]
            && 0 in sys.p.runs && sys.p.runs[0].phase == Over(Committed(k))
            && 1 in sys.p.runs && sys.p.runs[1].phase == Over(Committed(l)) && sys.p.head == l
  {
    hide Build, Handled, After, Handle, ValidChangeset, Entering, Carrying, Statements, ProperInput;
    var s0, none: seq<Event> := Start(root), [];
    var k, l := CommitOf(InputOf(r, 0)), CommitOf(InputOf(q, 0));
    NoEvents(undo, lock, s0);
    Enters(undo, lock, s0, none, s0, 0, r);
    assert none + Entering(0, r) == Entering(0, r);
    var s1 := Entered(s0, 0, r);
    RunsAlone(undo, lock, s0, Entering(0, r), s1, 0, InputOf(r, 0), Committed(k));
    var s2 := s1.(p := Done(s1.p, 0, Write(InputOf(r, 0)), Committed(k)));
    Enters(undo, lock, s0, Entering(0, r) + Carrying(0, Committed(k)), s2, 1, q);
    var s3 := Entered(s2, 1, q);
    var e3 := Entering(0, r) + Carrying(0, Committed(k)) + Entering(1, q);
    RunsAlone(undo, lock, s0, e3, s3, 1, InputOf(q, 0), Committed(l));
    sys := s3.(p := Done(s3.p, 1, Write(InputOf(q, 0)), Committed(l)));
  }

  /** Two bodies under one key: the second has missed before the first stores, so both commit; the
      first is answered with its commit, and only the second, whose commit stays, with a conflict. */
  lemma TwoBodiesBothCommit(undo: Undo, lock: bool, root: Commit, r: Request, q: Request)
    requires WouldCommit(root, InputOf(r, 0)) && WouldCommit(CommitOf(InputOf(r, 0)), InputOf(q, 0))
    requires r.key == q.key != "" && r.body != q.body
    ensures var k, l := CommitOf(InputOf(r, 0)), CommitOf(InputOf(q, 0));
            var es := TwoUnderOneKey(r, q, Committed(k), Committed(l));
            && Handled(undo, lock, Start(root), es).Some?
            && var end := Handled(undo, lock, Start(root), es).value;
            && MovedBranch(end, 0) && MovedBranch(end, 1) && end.p.head == l && l.parent == k
            && end.reqs[0] == Pending(r, Answered(Own(Committed(k))))
            && end.reqs[1] == Pending(q, Answered(KeyConflict))
  {
    hide Build, Handled, After, Handle, ValidChangeset, Entering, Carrying, Storing, Statements, ProperInput;
    var s0 := Start(root);
    var k, l := CommitOf(InputOf(r, 0)), CommitOf(InputOf(q, 0));
    var s4 := BothCommit(undo, lock, root, r, q);
    var e4 := Entering(0, r) + Carrying(0, Committed(k)) + Entering(1, q) + Carrying(1, Committed(l));
    Stores(undo, lock, s0, e4, s4, 0, Committed(k));
    var s5 := To(s4, 0, Answered(Own(Committed(k)))).(table := map[][r.key := Record(r.body, Committed(k))]);
    Stores(undo, lock, s0, e4 + Storing(0), s5, 1, Committed(l));
  }
}
