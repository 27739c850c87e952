/** Whole lock requests among the statements of others: what a call answers in the end when
    nobody else works on its page meanwhile. */
module LockCalls {
  import opened Common
  import opened Locks

  /** The event is no statement of another call for the page, and it neither breaks the call nor
      makes its purge fail. Anything may happen to other pages, and their purges count here too. */
  ghost predicate Apart(s: State, e: Event, id: Id, page: Page) {
    match e
    case Tick(_) => true
    case Begin(_, _, _, _) => true
    case Step(other) => other == id || (other in s.calls && s.calls[other].page != page)
    case PurgeFails(other) => other != id
    case Breaks(other) => other != id
  }

  /** How many of its statements a call has run, at least. */
  function Rank(stage: Stage): nat {
    match stage
    case Begun => 0
    case PurgeAt(_) => 1
    case Purged => 2
    case MayWrite => 3
    case WriteAt(_) => 4
    case Contended => 5
    case Written => 5
    case Done(_) => 6
  }

  /** The statements that the call has run since event `i`. */
  ghost function OwnSteps(es: seq<Event>, i: nat, id: Id): nat
    requires i <= |es|
    decreases |es|
  {
    if |es| == i then 0 else OwnSteps(es[..|es| - 1], i, id) + (if es[|es| - 1] == Step(id) then 1 else 0)
  }

  lemma WithoutLast(now: int, es: seq<Event>)
    requires Happens(now, es) && es != []
    ensures var shorter := es[..|es| - 1];
            Happens(now, shorter) && forall k :: 0 <= k < |es| ==> At(now, shorter, k) == At(now, es, k)
  {
    var shorter := es[..|es| - 1];
    PrefixHappens(now, es, |es| - 1);
    forall k | 0 <= k < |es| ensures At(now, shorter, k) == At(now, es, k) {
      assert shorter[..k] == es[..k];
    }
  }

  // ---------------------------------------------- calls on a page whose lock is gone

  /** A lock that `user` was given for five minutes at a moment since `start`. */
  ghost predicate Lease(row: Row, user: string, start: int) {
    row.user == user && row.expires == row.acquired + 300000 && start <= row.acquired
  }

  /** What the call answers when no lock held at its start, `now` being the end of the execution. */
  ghost predicate FreeReply(r: Reply, kind: Kind, user: string, start: int, now: int) {
    match kind
    case StatusCall => r == Shown(None)
    case AcquireCall => r.Granted? && (r.lock.Some? ==> Lease(r.lock.value, user, start))
                        && (now <= start + 300000 ==> r.lock.Some?)
    case ReleaseCall => r == Released(false)
    case HeartbeatCall => r == LockLost
    case ForceCall => r == Released(true)
  }

  ghost predicate NoneLive(s: State, page: Page, start: int) {
    page in s.rows ==> s.rows[page].expires < start
  }

  ghost predicate Given(s: State, page: Page, user: string, start: int) {
    && (page in s.rows ==> Lease(s.rows[page], user, start))
    && (s.now <= start + 300000 ==> page in s.rows)
  }

  ghost predicate FreeSoFar(s: State, id: Id, kind: Kind, user: string, page: Page, start: int) {
    && id in s.calls && s.calls[id] == Call(kind, user, page, s.calls[id].stage) && start <= s.now
    && match s.calls[id].stage
       case Begun => NoneLive(s, page, start)
       case PurgeAt(t) => NoneLive(s, page, start) && start <= t && kind != ForceCall
       case Purged => page !in s.rows && kind != ForceCall
       case MayWrite => page !in s.rows && kind == AcquireCall
       case WriteAt(t) => page !in s.rows && kind == AcquireCall && start <= t
       case Contended => false
       case Written => kind == AcquireCall && Given(s, page, user, start)
       case Done(r) => FreeReply(r, kind, user, start, s.now)
                       && (kind == AcquireCall ==> Given(s, page, user, start))
  }

  lemma FreeStep(s: State, e: Event, t: State, id: Id, kind: Kind, user: string, page: Page, start: int)
    requires Inv(s) && Happen(s, e) == Some(t) && Apart(s, e, id, page)
    requires FreeSoFar(s, id, kind, user, page, start)
    ensures FreeSoFar(t, id, kind, user, page, start)
    ensures Rank(t.calls[id].stage) >= Rank(s.calls[id].stage) + (if e == Step(id) then 1 else 0)
  {
    RowExactly(s, e, t, page);
    if e.Step? { assert CallOk(s, s.calls[e.id]); }
  }

  lemma {:induction false} FreeRun(now: int, es: seq<Event>, i: nat, id: Id, kind: Kind, user: string, page: Page)
    requires Happens(now, es) && i < |es| && es[i] == Begin(id, kind, user, page)
    requires NoneLive(At(now, es, i), page, At(now, es, i).now)
    requires forall k :: i < k < |es| ==> Apart(At(now, es, k), es[k], id, page)
    ensures var t := At(now, es, |es|);
            && FreeSoFar(t, id, kind, user, page, At(now, es, i).now)
            && OwnSteps(es, i + 1, id) <= Rank(t.calls[id].stage)
    decreases |es|
  {
    hide Inv, FreeSoFar, Apart, NoneLive, At;
    var n := |es| - 1;
    OneEvent(now, es, n);
    if i < n {
      var shorter := es[..n];
      WithoutLast(now, es);
      FreeRun(now, shorter, i, id, kind, user, page);
      FreeStep(At(now, es, n), es[n], At(now, es, |es|), id, kind, user, page, At(now, es, i).now);
    } else {
      FreeStart(At(now, es, i), es[i], At(now, es, |es|), id, kind, user, page);
    }
  }

  lemma FreeStart(s: State, e: Event, t: State, id: Id, kind: Kind, user: string, page: Page)
    requires Happen(s, e) == Some(t) && e == Begin(id, kind, user, page) && NoneLive(s, page, s.now)
    ensures FreeSoFar(t, id, kind, user, page, s.now)
  {
  }

  /** A call that begins when the page has no row or one that has expired, and during which nobody
      else works on the page, is answered after at most six statements of its own, as if there were
      no row: above all an acquire is granted, for five minutes from a reading since its start. */
  lemma CallOnExpiredPage(now: int, es: seq<Event>, i: nat, id: Id, kind: Kind, user: string, page: Page)
    requires Happens(now, es) && i < |es| && es[i] == Begin(id, kind, user, page)
    requires var s := At(now, es, i); page in s.rows ==> s.rows[page].expires < s.now
    requires forall k :: i < k < |es| ==> Apart(At(now, es, k), es[k], id, page)
    ensures var start, t := At(now, es, i).now, At(now, es, |es|);
            && id in t.calls
            && (OwnSteps(es, i + 1, id) >= 6 ==> t.calls[id].stage.Done?)
            && (t.calls[id].stage.Done? ==> FreeReply(t.calls[id].stage.reply, kind, user, start, t.now))
            && (t.calls[id].stage.Done? && kind == AcquireCall && t.now <= start + 300000 ==>
                  page in t.rows && Lease(t.rows[page], user, start))
  {
    FreeRun(now, es, i, id, kind, user, page);
  }

  // --------------------------------------------------- calls on a page that is locked

  /** A row as the owner's heartbeat left it: the same lock, for five minutes from a moment since `start`. */
  ghost predicate Longer(row: Row, was: Row, start: int) {
    row.user == was.user && row.acquired == was.acquired && start + 300000 <= row.expires
  }

  /** What the call answers when the lock `was` holds from its start to its end. */
  ghost predicate HeldReply(r: Reply, kind: Kind, user: string, was: Row, start: int) {
    match kind
    case StatusCall => r == Shown(Some(was))
    case AcquireCall => r == PageLocked(was)
    case ReleaseCall => r == (if was.user == user then Released(true) else NotHolder)
    case HeartbeatCall => if was.user == user then r.Extended? && r.lock.Some? && Longer(r.lock.value, was, start)
                          else r == NotHolder
    case ForceCall => r == Released(true)
  }

  /** What such a call leaves at its page. */
  ghost predicate HeldRow(s: State, kind: Kind, user: string, page: Page, was: Row, start: int) {
    if kind == ForceCall || (kind == ReleaseCall && was.user == user) then page !in s.rows
    else if kind == HeartbeatCall && was.user == user then page in s.rows && Longer(s.rows[page], was, start)
    else Find(s.rows, page) == Some(was)
  }

  ghost predicate HeldSoFar(s: State, id: Id, kind: Kind, user: string, page: Page, was: Row, start: int) {
    && id in s.calls && s.calls[id] == Call(kind, user, page, s.calls[id].stage) && start <= s.now
    && match s.calls[id].stage
       case Begun => Find(s.rows, page) == Some(was)
       case PurgeAt(_) => Find(s.rows, page) == Some(was) && kind != ForceCall
       case Purged => Find(s.rows, page) == Some(was) && kind != ForceCall
       case MayWrite => Find(s.rows, page) == Some(was) && was.user == user && kind in {ReleaseCall, HeartbeatCall}
       case WriteAt(t) => Find(s.rows, page) == Some(was) && was.user == user && kind == HeartbeatCall && start <= t
       case Contended => false
       case Written => was.user == user && kind == HeartbeatCall && HeldRow(s, kind, user, page, was, start)
       case Done(r) => HeldReply(r, kind, user, was, start) && HeldRow(s, kind, user, page, was, start)
  }

  lemma HeldStep(s: State, e: Event, t: State, id: Id, kind: Kind, user: string, page: Page, was: Row, start: int)
    requires Inv(s) && Happen(s, e) == Some(t) && Apart(s, e, id, page)
    requires t.now <= was.expires <= start + 300000
    requires HeldSoFar(s, id, kind, user, page, was, start)
    ensures HeldSoFar(t, id, kind, user, page, was, start)
    ensures Rank(t.calls[id].stage) >= Rank(s.calls[id].stage) + (if e == Step(id) then 1 else 0)
  {
    RowExactly(s, e, t, page);
    if e.Step? { assert CallOk(s, s.calls[e.id]); }
  }

  lemma {:induction false} HeldRun(now: int, es: seq<Event>, i: nat, id: Id, kind: Kind, user: string, page: Page)
    requires Happens(now, es) && i < |es| && es[i] == Begin(id, kind, user, page)
    requires page in At(now, es, i).rows && At(now, es, |es|).now <= At(now, es, i).rows[page].expires
    requires forall k :: i < k < |es| ==> Apart(At(now, es, k), es[k], id, page)
    ensures var s, t := At(now, es, i), At(now, es, |es|);
            && HeldSoFar(t, id, kind, user, page, s.rows[page], s.now)
            && OwnSteps(es, i + 1, id) <= Rank(t.calls[id].stage)
    decreases |es|
  {
    hide Inv, HeldSoFar, Apart, At;
    var n := |es| - 1;
    OneEvent(now, es, n);
    OneEvent(now, es, i);
    ExpiryBound(At(now, es, i), page);
    if i < n {
      var shorter := es[..n];
      WithoutLast(now, es);
      HeldRun(now, shorter, i, id, kind, user, page);
      HeldStep(At(now, es, n), es[n], At(now, es, |es|), id, kind, user, page, At(now, es, i).rows[page],
               At(now, es, i).now);
    } else {
      HeldStart(At(now, es, i), es[i], At(now, es, |es|), id, kind, user, page);
    }
  }

  lemma ExpiryBound(s: State, page: Page)
    requires Inv(s) && page in s.rows
    ensures s.rows[page].expires <= s.now + 300000
  {
  }

  lemma HeldStart(s: State, e: Event, t: State, id: Id, kind: Kind, user: string, page: Page)
    requires Happen(s, e) == Some(t) && e == Begin(id, kind, user, page) && page in s.rows
    ensures HeldSoFar(t, id, kind, user, page, s.rows[page], s.now)
  {
  }

  /** A call that begins while a row holds the page, during which the clock does not pass its expiry
      and nobody else works on the page, is answered after at most six statements of its own: the
      row is shown or refuses an acquire, only its owner releases or extends it, force removes it. */
  lemma CallOnLockedPage(now: int, es: seq<Event>, i: nat, id: Id, kind: Kind, user: string, page: Page)
    requires Happens(now, es) && i < |es| && es[i] == Begin(id, kind, user, page)
    requires page in At(now, es, i).rows && At(now, es, |es|).now <= At(now, es, i).rows[page].expires
    requires forall k :: i < k < |es| ==> Apart(At(now, es, k), es[k], id, page)
    ensures var s, t := At(now, es, i), At(now, es, |es|);
            && id in t.calls
            && (OwnSteps(es, i + 1, id) >= 6 ==> t.calls[id].stage.Done?)
            && (t.calls[id].stage.Done? ==>
                  && HeldReply(t.calls[id].stage.reply, kind, user, s.rows[page], s.now)
                  && HeldRow(t, kind, user, page, s.rows[page], s.now))
  {
    HeldRun(now, es, i, id, kind, user, page);
  }
}
