/** Exclusive per-page edit locks: leases in one table, handlers made of separate SQL
    statements, and every interleaving of those statements. Times are in milliseconds. */
module Locks {
  import opened Common

  const LEASE: int := 5 * 60 * 1000

  datatype Page = Page(project: string, path: string)

  datatype Row = Row(user: string, acquired: int, expires: int)

  /** edit_locks: the primary key is the page. */
  type Rows = map<Page, Row>

  predicate ValidLockPath(p: string) {
    && p != "" && !HasPrefix(p, "/")
    && forall i :: 0 <= i < |p| - 1 ==> !(p[i] == '.' && p[i + 1] == '.')
  }

  /** A path is refused exactly if it is empty, begins with a slash or has two dots in a row anywhere. */
  lemma LockPathExactly(p: string)
    ensures ValidLockPath(p) <==> p != "" && p[0] != '/' && !exists i :: 0 <= i <= |p| && HasPrefix(p[i..], "..")
  {
    if i :| 0 <= i <= |p| && HasPrefix(p[i..], "..") {
      assert p[i..][0] == p[i] && p[i..][1] == p[i + 1];
      assert p[i..][..2] == "..";
    }
    forall i | 0 <= i < |p| - 1 && p[i] == '.' && p[i + 1] == '.' ensures HasPrefix(p[i..], "..") {
      assert p[i..][..2] == "..";
    }
  }

  // --------------------------------------------------------------- SQL statements

  function Live(rows: Rows, t: int): Rows {
    map p | p in rows && !(rows[p].expires < t) :: rows[p]
  }

  function Renewed(rows: Rows, page: Page, user: string, expires: int): Rows {
    if page in rows && rows[page].user == user then rows[page := rows[page].(expires := expires)] else rows
  }

  function Dropped(rows: Rows, page: Page, user: string): Rows {
    if page in rows && rows[page].user == user then rows - {page} else rows
  }

  /** Every page but one has its row exactly if the row was there and has not expired before `t`. */
  ghost predicate OthersPurged(was: Rows, rows: Rows, t: int, page: Page) {
    forall p :: p != page ==> Find(rows, p) == (if p in was && was[p].expires >= t then Some(was[p]) else None)
  }

  /** The row that a purge at `t` leaves at the page. */
  ghost function Unexpired(was: Rows, t: int, page: Page): Option<Row> {
    if page in was && was[page].expires >= t then Some(was[page]) else None
  }

  // -------------------------------------------------------- handlers, one at a time

  datatype Reply =
    | Shown(lock: Option<Row>)
    | Granted(lock: Option<Row>)
    | PageLocked(holder: Row)
    | Released(released: bool)
    | NotHolder
    | LockLost
    | Extended(lock: Option<Row>)
    | BadPath
    | InternalError

  /** The lock handlers over one table, each running undisturbed; `t0` and `t1` are what the
      clock shows at its reads, in order. */
  class LockTable {
    var rows: Rows

    constructor ()
      ensures rows == map[]
    {
      rows := map[];
    }

    method PurgeExpired(t: int)
      modifies this
      ensures forall p :: p in rows <==> p in old(rows) && old(rows)[p].expires >= t
      ensures forall p :: p in rows ==> rows[p] == old(rows)[p]
    {
      rows := map p | p in rows && rows[p].expires >= t :: rows[p];
    }

    method Get(page: Page) returns (r: Option<Row>)
      ensures r == Find(rows, page)
    {
      r := if page in rows then Some(rows[page]) else None;
    }

    /** INSERT: the primary key refuses a second row. */
    method Insert(page: Page, row: Row) returns (ok: bool)
      modifies this
      ensures ok == (page !in old(rows))
      ensures rows == if ok then old(rows)[page := row] else old(rows)
    {
      ok := page !in rows;
      if ok { rows := rows[page := row]; }
    }

    method Status(page: Page, t0: int) returns (r: Reply)
      modifies this
      ensures !ValidLockPath(page.path) ==> r == BadPath && rows == old(rows)
      ensures ValidLockPath(page.path) ==>
                var held := Unexpired(old(rows), t0, page);
                OthersPurged(old(rows), rows, t0, page) && Find(rows, page) == held && r == Shown(held)
    {
      if !ValidLockPath(page.path) { return BadPath; }
      PurgeExpired(t0);
      var existing := Get(page);
      r := Shown(existing);
    }

    /** Granted exactly when no unexpired row is there, whoever asks. `rival` is a row that
        another request may have inserted between the check and the insertion. */
    method Acquire(page: Page, user: string, t0: int, t1: int, rival: Option<Row>) returns (r: Reply)
      modifies this
      ensures !ValidLockPath(page.path) ==> r == BadPath && rows == old(rows)
      ensures ValidLockPath(page.path) ==>
                var held := Unexpired(old(rows), t0, page);
                var mine := Row(user, t1, t1 + 300000);
                && OthersPurged(old(rows), rows, t0, page)
                && Find(rows, page) == (if held.Some? then held else if rival.Some? then rival else Some(mine))
                && r == (if held.Some? then PageLocked(held.value)
                         else if rival.Some? then PageLocked(rival.value) else Granted(Some(mine)))
    {
      if !ValidLockPath(page.path) { return BadPath; }
      PurgeExpired(t0);
      var existing := Get(page);
      if existing.Some? { return PageLocked(existing.value); }
      if rival.Some? { rows := rows[page := rival.value]; }
      var ok := Insert(page, Row(user, t1, t1 + LEASE));
      existing := Get(page);
      if !ok {
        return if existing.Some? then PageLocked(existing.value) else InternalError;
      }
      r := Granted(existing);
    }

    /** Only the holder of an unexpired row removes it. */
    method Release(page: Page, user: string, t0: int) returns (r: Reply)
      modifies this
      ensures !ValidLockPath(page.path) ==> r == BadPath && rows == old(rows)
      ensures ValidLockPath(page.path) ==>
                var held := Unexpired(old(rows), t0, page);
                && OthersPurged(old(rows), rows, t0, page)
                && Find(rows, page) == (if held.Some? && held.value.user != user then held else None)
                && r == (if held.None? then Released(false)
                         else if held.value.user != user then NotHolder else Released(true))
    {
      if !ValidLockPath(page.path) { return BadPath; }
      PurgeExpired(t0);
      var existing := Get(page);
      if existing.None? { return Released(false); }
      if existing.value.user != user { return NotHolder; }
      rows := rows - {page};
      r := Released(true);
    }

    method Heartbeat(page: Page, user: string, t0: int, t1: int) returns (r: Reply)
      modifies this
      ensures !ValidLockPath(page.path) ==> r == BadPath && rows == old(rows)
      ensures ValidLockPath(page.path) ==>
                var held := Unexpired(old(rows), t0, page);
                && OthersPurged(old(rows), rows, t0, page)
                && (held.None? ==> page !in rows && r == LockLost)
                && (held.Some? && held.value.user != user ==> Find(rows, page) == held && r == NotHolder)
                && (held.Some? && held.value.user == user ==>
                      var row := Row(user, held.value.acquired, t1 + 300000);
                      Find(rows, page) == Some(row) && r == Extended(Some(row)))
    {
      if !ValidLockPath(page.path) { return BadPath; }
      PurgeExpired(t0);
      var existing := Get(page);
      if existing.None? { return LockLost; }
      if existing.value.user != user { return NotHolder; }
      rows := rows[page := rows[page].(expires := t1 + LEASE)];
      existing := Get(page);
      r := Extended(existing);
    }

    method ForceRelease(page: Page) returns (r: Reply)
      modifies this
      ensures !ValidLockPath(page.path) ==> r == BadPath && rows == old(rows)
      ensures ValidLockPath(page.path) ==> rows == old(rows) - {page} && r == Released(true)
    {
      if !ValidLockPath(page.path) { return BadPath; }
      rows := rows - {page};
      r := Released(true);
    }
  }

  // ---------------------------------------------------- handlers, statement by statement

  type Id = nat

  datatype Kind = AcquireCall | ReleaseCall | HeartbeatCall | StatusCall | ForceCall

  /** `PurgeAt` and `WriteAt` hold a clock value that has been read and not yet used. */
  datatype Stage =
    | Begun
    | PurgeAt(t: int)
    | Purged
    | MayWrite
    | WriteAt(t: int)
    | Contended
    | Written
    | Done(reply: Reply)

  datatype Call = Call(kind: Kind, user: string, page: Page, stage: Stage)

  datatype State = State(now: int, rows: Rows, calls: map<Id, Call>)

  datatype Event =
    | Tick(ms: nat)
    | Begin(id: Id, kind: Kind, user: string, page: Page)
    | Step(id: Id)
    | PurgeFails(id: Id)
    | Breaks(id: Id)

  /** What the next statement of a call leaves in the table. */
  function RowsAfter(s: State, c: Call): Rows {
    match c.stage
    case Begun => if c.kind == ForceCall then s.rows - {c.page} else s.rows
    case PurgeAt(t) => Live(s.rows, t)
    case MayWrite => if c.kind == ReleaseCall then Dropped(s.rows, c.page, c.user) else s.rows
    case WriteAt(t) =>
      if c.kind == HeartbeatCall then Renewed(s.rows, c.page, c.user, t + LEASE)
      else if c.page in s.rows then s.rows
      else s.rows[c.page := Row(c.user, t, t + LEASE)]
    case _ => s.rows
  }

  /** Where the next statement of a call leads. */
  function StageAfter(s: State, c: Call): Stage {
    var found := Find(s.rows, c.page);
    match c.stage
    case Begun => if c.kind == ForceCall then Done(Released(true)) else PurgeAt(s.now)
    case PurgeAt(_) => Purged
    case Purged =>
      (match c.kind
       case StatusCall => Done(Shown(found))
       case AcquireCall => if found.Some? then Done(PageLocked(found.value)) else MayWrite
       case ReleaseCall =>
         if found.None? then Done(Released(false)) else if found.value.user != c.user then Done(NotHolder) else MayWrite
       case HeartbeatCall =>
         if found.None? then Done(LockLost) else if found.value.user != c.user then Done(NotHolder) else MayWrite
       case ForceCall => Purged)
    case MayWrite => if c.kind == ReleaseCall then Done(Released(true)) else WriteAt(s.now)
    case WriteAt(_) => if c.kind == AcquireCall && found.Some? then Contended else Written
    case Contended => Done(if found.Some? then PageLocked(found.value) else InternalError)
    case Written => Done(if c.kind == HeartbeatCall then Extended(found) else Granted(found))
    case Done(r) => Done(r)
  }

  function Happen(s: State, e: Event): Option<State> {
    match e
    case Tick(ms) => Some(s.(now := s.now + ms))
    case Begin(id, kind, user, page) =>
      if id in s.calls || !ValidLockPath(page.path) then None
      else Some(s.(calls := s.calls[id := Call(kind, user, page, Begun)]))
    case Step(id) =>
      if id !in s.calls || s.calls[id].stage.Done? then None
      else Some(State(s.now, RowsAfter(s, s.calls[id]),
                      s.calls[id := s.calls[id].(stage := StageAfter(s, s.calls[id]))]))
    case PurgeFails(id) =>
      if id !in s.calls || !s.calls[id].stage.PurgeAt? then None
      else Some(s.(calls := s.calls[id := s.calls[id].(stage := Purged)]))
    case Breaks(id) =>
      if id !in s.calls || s.calls[id].stage.Done? then None
      else Some(s.(calls := s.calls[id := s.calls[id].(stage := Done(InternalError))]))
  }

  function After(s: State, es: seq<Event>): Option<State>
    decreases |es|
  {
    if es == [] then Some(s)
    else
      match After(s, es[..|es| - 1])
      case None => None
      case Some(t) => Happen(t, es[|es| - 1])
  }

  function Init(now: int): State {
    State(now, map[], map[])
  }

  // ------------------------------------------------------------------- invariant

  /** Every clock value that is kept was read earlier, and rows are dated by such values. */
  ghost predicate Inv(s: State) {
    && (forall p :: p in s.rows ==> s.rows[p].acquired <= s.now && s.rows[p].expires <= s.now + LEASE)
    && (forall id :: id in s.calls ==> CallOk(s, s.calls[id]))
  }

  ghost predicate CallOk(s: State, c: Call) {
    && (c.stage.PurgeAt? ==> c.kind != ForceCall && c.stage.t <= s.now)
    && (c.stage.WriteAt? ==> (c.kind == AcquireCall || c.kind == HeartbeatCall) && c.stage.t <= s.now)
    && (c.stage.MayWrite? ==> c.kind == AcquireCall || c.kind == HeartbeatCall || c.kind == ReleaseCall)
    && (c.stage.Contended? ==> c.kind == AcquireCall)
    && (c.stage.Purged? ==> c.kind != ForceCall)
  }

  lemma HappenKeepsInv(s: State, e: Event, t: State)
    requires Inv(s) && Happen(s, e) == Some(t)
    ensures Inv(t) && s.now <= t.now
  {
    forall id | id in t.calls ensures CallOk(t, t.calls[id]) {
      assert id in s.calls ==> CallOk(s, s.calls[id]);
    }
    if e.Step? {
      assert CallOk(s, s.calls[e.id]);
    }
  }

  lemma {:induction false} Reachable(now: int, es: seq<Event>)
    requires After(Init(now), es).Some?
    ensures Inv(After(Init(now), es).value)
    decreases |es|
  {
    if es != [] {
      Reachable(now, es[..|es| - 1]);
      HappenKeepsInv(After(Init(now), es[..|es| - 1]).value, es[|es| - 1], After(Init(now), es).value);
    }
  }

  // ------------------------------------------------------------ what one event may do

  /** The call whose statement event `e` runs. */
  ghost predicate Runs(s: State, e: Event, kind: Kind, page: Page, user: string) {
    e.Step? && e.id in s.calls && s.calls[e.id].kind == kind && s.calls[e.id].page == page && s.calls[e.id].user == user
  }

  ghost predicate Appears(s: State, e: Event, t: State, p: Page) {
    && p !in s.rows && p in t.rows
    && Runs(s, e, AcquireCall, p, t.rows[p].user) && s.calls[e.id].stage == WriteAt(t.rows[p].acquired)
    && t.rows[p].expires == t.rows[p].acquired + LEASE && t.rows[p].acquired <= s.now
  }

  ghost predicate IsRenewed(s: State, e: Event, t: State, p: Page) {
    && p in s.rows && p in t.rows
    && t.rows[p] == s.rows[p].(expires := t.rows[p].expires)
    && Runs(s, e, HeartbeatCall, p, s.rows[p].user) && s.calls[e.id].stage == WriteAt(t.rows[p].expires - LEASE)
    && t.rows[p].expires <= s.now + LEASE
  }

  /** The three ways a row can go: purged after its expiry, released by its owner, forced. */
  ghost predicate Vanishes(s: State, e: Event, t: State, p: Page) {
    && p in s.rows && p !in t.rows && e.Step? && e.id in s.calls
    && (|| (s.calls[e.id].stage.PurgeAt? && s.rows[p].expires < s.calls[e.id].stage.t <= s.now)
        || Runs(s, e, ReleaseCall, p, s.rows[p].user)
        || (s.calls[e.id].kind == ForceCall && s.calls[e.id].page == p))
  }

  /** One statement does to each page one of four things and nothing else; in particular a
      release or heartbeat of anyone but the present owner does nothing to the row. */
  lemma EveryChangeIsJustified(s: State, e: Event, t: State, p: Page)
    requires Inv(s) && Happen(s, e) == Some(t)
    ensures || Find(t.rows, p) == Find(s.rows, p)
            || Appears(s, e, t, p) || IsRenewed(s, e, t, p) || Vanishes(s, e, t, p)
  {
  }

  /** What each event makes of the row of any page. A purge leaves exactly the rows that have not
      expired before its reading; a forced release and the owner's release leave none; an acquire
      fills a free page and the owner's heartbeat extends his row, both for five minutes from the
      reading; anything else leaves the row alone. */
  lemma RowExactly(s: State, e: Event, t: State, p: Page)
    requires Inv(s) && Happen(s, e) == Some(t)
    ensures !e.Step? ==> t.rows == s.rows
    ensures e.Step? ==>
              var c, was := s.calls[e.id], Find(s.rows, p);
              var mine := c.page == p && was.Some? && was.value.user == c.user;
              Find(t.rows, p) ==
              if c.stage.PurgeAt? then (if was.Some? && was.value.expires < c.stage.t then None else was)
              else if c.stage == Begun && c.kind == ForceCall && c.page == p then None
              else if c.stage == MayWrite && c.kind == ReleaseCall && mine then None
              else if c.stage.WriteAt? && c.kind == AcquireCall && c.page == p && was.None? then
                Some(Row(c.user, c.stage.t, c.stage.t + 300000))
              else if c.stage.WriteAt? && c.kind == HeartbeatCall && mine then
                Some(Row(c.user, was.value.acquired, c.stage.t + 300000))
              else was
  {
    if e.Step? { assert CallOk(s, s.calls[e.id]); }
  }

  // ---------------------------------------------------------------- whole executions

  predicate Happens(now: int, es: seq<Event>) {
    After(Init(now), es).Some?
  }

  function StateAt(now: int, es: seq<Event>, k: nat): State
    requires k <= |es| && Happens(now, es[..k])
  {
    After(Init(now), es[..k]).value
  }

  lemma {:induction false} PrefixHappens(now: int, es: seq<Event>, k: nat)
    requires Happens(now, es) && k <= |es|
    ensures Happens(now, es[..k])
    decreases |es|
  {
    if k == |es| {
      assert es[..k] == es;
    } else {
      PrefixHappens(now, es[..|es| - 1], k);
      assert es[..|es| - 1][..k] == es[..k];
    }
  }

  /** Two consecutive states of an execution, with everything known about them. */
  lemma LastEvent(now: int, es: seq<Event>)
    requires Happens(now, es) && es != []
    ensures var n := |es| - 1;
            && Happens(now, es[..n]) && es[..|es|] == es
            && Inv(StateAt(now, es, n)) && Happen(StateAt(now, es, n), es[n]) == Some(StateAt(now, es, |es|))
            && Inv(StateAt(now, es, |es|))
  {
    assert es[..|es|] == es;
    Reachable(now, es[..|es| - 1]);
    Reachable(now, es);
  }

  /** The owner of a page changes only through a moment in which nobody holds it. */
  lemma {:induction false} OwnerChangesThroughAbsence(now: int, es: seq<Event>, i: nat, p: Page) returns (k: nat)
    requires Happens(now, es) && i <= |es| && Happens(now, es[..i])
    requires p in StateAt(now, es, i).rows && es[..|es|] == es && p in StateAt(now, es, |es|).rows
    requires StateAt(now, es, i).rows[p].user != StateAt(now, es, |es|).rows[p].user
    ensures i < k < |es| && Happens(now, es[..k]) && p !in StateAt(now, es, k).rows
    decreases |es|
  {
    LastEvent(now, es);
    var n := |es| - 1;
    var s, t := StateAt(now, es, n), StateAt(now, es, |es|);
    EveryChangeIsJustified(s, es[n], t, p);
    if p !in s.rows {
      k := n;
    } else {
      assert es[..n][..i] == es[..i] && es[..n][..n] == es[..n];
      k := OwnerChangesThroughAbsence(now, es[..n], i, p);
      assert es[..n][..k] == es[..k];
    }
  }

  /** A row that is there was last written by an acquire or heartbeat of its own owner, it has
      stood unchanged since, and it expires at most one lease after that write. */
  lemma {:induction false} LastWrite(now: int, es: seq<Event>, p: Page) returns (k: nat)
    requires Happens(now, es) && es[..|es|] == es && p in StateAt(now, es, |es|).rows
    ensures k < |es| && Happens(now, es[..k]) && Happens(now, es[..k + 1])
    ensures var s, row := StateAt(now, es, k), StateAt(now, es, |es|).rows[p];
            && (Runs(s, es[k], AcquireCall, p, row.user) || Runs(s, es[k], HeartbeatCall, p, row.user))
            && s.calls[es[k].id].stage == WriteAt(row.expires - LEASE)
            && row.expires <= s.now + LEASE
    ensures Find(StateAt(now, es, k + 1).rows, p) == Find(StateAt(now, es, |es|).rows, p)
    decreases |es|
  {
    LastEvent(now, es);
    var n := |es| - 1;
    var s, t := StateAt(now, es, n), StateAt(now, es, |es|);
    EveryChangeIsJustified(s, es[n], t, p);
    if Appears(s, es[n], t, p) || IsRenewed(s, es[n], t, p) {
      k := n;
    } else {
      assert es[..n][..n] == es[..n];
      k := LastWrite(now, es[..n], p);
      assert es[..n][..k] == es[..k] && es[..n][..k + 1] == es[..k + 1];
    }
  }

  // ----------------------------------------------------- how long a lease can be trusted

  ghost function At(now: int, es: seq<Event>, k: nat): State
    requires Happens(now, es) && k <= |es|
  {
    PrefixHappens(now, es, k);
    StateAt(now, es, k)
  }

  /** The statement writes the row of the page: an insert that is not refused, or the owner's update. */
  ghost predicate WritesRow(s: State, e: Event, p: Page) {
    && e.Step? && e.id in s.calls && s.calls[e.id].page == p && s.calls[e.id].stage.WriteAt?
    && (|| (s.calls[e.id].kind == AcquireCall && p !in s.rows)
        || (s.calls[e.id].kind == HeartbeatCall && p in s.rows && s.rows[p].user == s.calls[e.id].user))
  }

  /** The clock reading with which the row of the page was last written before event `k`. */
  ghost function LastReading(now: int, es: seq<Event>, k: nat, p: Page): int
    requires Happens(now, es) && k <= |es|
  {
    if k == 0 then now
    else if WritesRow(At(now, es, k - 1), es[k - 1], p) then At(now, es, k - 1).calls[es[k - 1].id].stage.t
    else LastReading(now, es, k - 1, p)
  }

  lemma OneEvent(now: int, es: seq<Event>, k: nat)
    requires Happens(now, es) && k < |es|
    ensures Happen(At(now, es, k), es[k]) == Some(At(now, es, k + 1))
    ensures Inv(At(now, es, k)) && At(now, es, k).now <= At(now, es, k + 1).now
  {
    var shorter := es[..k + 1];
    PrefixHappens(now, es, k + 1);
    LastEvent(now, shorter);
    assert shorter[..k] == es[..k] && shorter[..k + 1] == shorter;
    HappenKeepsInv(At(now, es, k), es[k], At(now, es, k + 1));
  }

  lemma WrittenDate(s: State, e: Event, t: State, p: Page)
    requires Inv(s) && Happen(s, e) == Some(t) && p in t.rows
    ensures WritesRow(s, e, p) ==> t.rows[p].expires == s.calls[e.id].stage.t + LEASE
    ensures !WritesRow(s, e, p) ==> Find(s.rows, p) == Some(t.rows[p])
  {
    if e.Step? { assert CallOk(s, s.calls[e.id]); }
  }

  /** A row expires one lease after the clock reading it was last written with. */
  lemma {:induction false} ReadingDates(now: int, es: seq<Event>, k: nat, p: Page)
    requires Happens(now, es) && k <= |es| && p in At(now, es, k).rows
    ensures At(now, es, k).rows[p].expires == LastReading(now, es, k, p) + LEASE
    decreases k
  {
    hide Inv, Happen, WritesRow;
    if k > 0 {
      OneEvent(now, es, k - 1);
      WrittenDate(At(now, es, k - 1), es[k - 1], At(now, es, k), p);
      if !WritesRow(At(now, es, k - 1), es[k - 1], p) { ReadingDates(now, es, k - 1, p); }
    }
  }

  /** The event renews a row with a clock reading older than the one the row was last written with. */
  ghost predicate Stale(now: int, es: seq<Event>, k: nat, p: Page)
    requires Happens(now, es) && k < |es|
  {
    var s := At(now, es, k);
    p in s.rows && WritesRow(s, es[k], p) && s.calls[es[k].id].stage.t < LastReading(now, es, k, p)
  }

  /** The expiry of a row goes back exactly with such a renewal. */
  lemma ExpiryBackExactly(now: int, es: seq<Event>, k: nat, p: Page)
    requires Happens(now, es) && k < |es| && p in At(now, es, k).rows
    ensures var before, after := At(now, es, k).rows, At(now, es, k + 1).rows;
            (p in after && after[p].expires < before[p].expires) <==> Stale(now, es, k, p)
  {
    hide Inv, WritesRow;
    OneEvent(now, es, k);
    ReadingDates(now, es, k, p);
    var s, t := At(now, es, k), At(now, es, k + 1);
    if WritesRow(s, es[k], p) { RenewedStays(s, es[k], t, p); }
    if p in t.rows { WrittenDate(s, es[k], t, p); }
  }

  lemma RenewedStays(s: State, e: Event, t: State, p: Page)
    requires Happen(s, e) == Some(t) && p in s.rows && WritesRow(s, e, p)
    ensures p in t.rows
  {
  }

  /** A heartbeat whose update runs in the millisecond in which it read the clock is never stale. */
  lemma PunctualIsFresh(now: int, es: seq<Event>, k: nat, p: Page)
    requires Happens(now, es) && k < |es| && WritesRow(At(now, es, k), es[k], p)
    requires At(now, es, k).calls[es[k].id].stage.t == At(now, es, k).now
    ensures !Stale(now, es, k, p)
  {
    if p in At(now, es, k).rows {
      OneEvent(now, es, k);
      ReadingDates(now, es, k, p);
    }
  }

  /** Nothing in this event takes the page from its owner on purpose. */
  ghost predicate Gentle(s: State, e: Event, p: Page, user: string) {
    && !Runs(s, e, ReleaseCall, p, user)
    && !(e.Step? && e.id in s.calls && s.calls[e.id].kind == ForceCall && s.calls[e.id].page == p)
  }

  /** Between `i` and `j` the row stays with its owner, and its expiry never goes back. */
  ghost predicate Steady(now: int, es: seq<Event>, i: nat, j: nat, p: Page)
    requires Happens(now, es) && i <= j <= |es| && p in At(now, es, i).rows
  {
    forall k :: i < k <= j ==> SteadyAt(now, es, i, k, p)
  }

  ghost predicate SteadyAt(now: int, es: seq<Event>, i: nat, k: nat, p: Page)
    requires Happens(now, es) && i < k <= |es| && p in At(now, es, i).rows
  {
    var was, before, rows := At(now, es, i).rows[p], At(now, es, k - 1).rows, At(now, es, k).rows;
    && p in before && p in rows && rows[p].user == was.user && rows[p].acquired == was.acquired
    && rows[p].expires >= before[p].expires
  }

  lemma {:induction false} SteadySoFar(now: int, es: seq<Event>, i: nat, j: nat, p: Page)
    requires Happens(now, es) && i <= j <= |es| && p in At(now, es, i).rows && Steady(now, es, i, j, p)
    ensures var was, rows := At(now, es, i).rows[p], At(now, es, j).rows;
            p in rows && rows[p].user == was.user && rows[p].acquired == was.acquired && rows[p].expires >= was.expires
    decreases j
  {
    if i < j {
      SteadySoFar(now, es, i, j - 1, p);
      assert SteadyAt(now, es, i, j, p);
    }
  }

  lemma {:induction false} ClockRuns(now: int, es: seq<Event>, k: nat)
    requires Happens(now, es) && k <= |es|
    ensures At(now, es, k).now <= At(now, es, |es|).now
    decreases |es| - k
  {
    if k < |es| {
      OneEvent(now, es, k);
      ClockRuns(now, es, k + 1);
    }
  }

  /** One event on a row that has not expired and that nobody takes away on purpose. */
  lemma OneSteadyEvent(s: State, e: Event, t: State, p: Page)
    requires Inv(s) && Happen(s, e) == Some(t) && p in s.rows && s.now <= s.rows[p].expires
    requires Gentle(s, e, p, s.rows[p].user)
    ensures p in t.rows && t.rows[p].user == s.rows[p].user && t.rows[p].acquired == s.rows[p].acquired
  {
    EveryChangeIsJustified(s, e, t, p);
  }

  lemma {:induction false} FreshIsSteady(now: int, es: seq<Event>, i: nat, j: nat, p: Page)
    requires Happens(now, es) && i <= j <= |es| && p in At(now, es, i).rows
    requires forall k :: i <= k < j ==> Gentle(At(now, es, k), es[k], p, At(now, es, i).rows[p].user)
    requires forall k :: i <= k < j ==> !Stale(now, es, k, p)
    requires At(now, es, |es|).now <= At(now, es, i).rows[p].expires
    ensures Steady(now, es, i, j, p)
    decreases j
  {
    hide Inv, Happen, Stale, Gentle, At;
    if i < j {
      FreshIsSteady(now, es, i, j - 1, p);
      SteadySoFar(now, es, i, j - 1, p);
      OneEvent(now, es, j - 1);
      ClockRuns(now, es, j - 1);
      OneSteadyEvent(At(now, es, j - 1), es[j - 1], At(now, es, j), p);
      ExpiryBackExactly(now, es, j - 1, p);
      assert SteadyAt(now, es, i, j, p);
    }
  }

  /** As long as the clock has not passed the expiry a row had, and unless its owner releases it or
      somebody forces it: the row stays with its owner and its expiry never goes back exactly when no
      renewal of this row uses a clock reading older than that of the row's last write. */
  lemma LeaseKeptExactly(now: int, es: seq<Event>, i: nat, p: Page)
    requires Happens(now, es) && i <= |es| && p in At(now, es, i).rows
    requires forall k :: i <= k < |es| ==> Gentle(At(now, es, k), es[k], p, At(now, es, i).rows[p].user)
    requires At(now, es, |es|).now <= At(now, es, i).rows[p].expires
    ensures Steady(now, es, i, |es|, p) <==> forall k :: i <= k < |es| ==> !Stale(now, es, k, p)
  {
    hide Stale, Gentle, At;
    if forall k :: i <= k < |es| ==> !Stale(now, es, k, p) { FreshIsSteady(now, es, i, |es|, p); }
    if Steady(now, es, i, |es|, p) {
      forall k | i <= k < |es| ensures !Stale(now, es, k, p) {
        assert SteadyAt(now, es, i, k + 1, p);
        ExpiryBackExactly(now, es, k, p);
      }
    }
  }

  lemma Then(s0: State, es: seq<Event>, s: State, e: Event, t: State)
    requires After(s0, es) == Some(s) && Happen(s, e) == Some(t)
    ensures After(s0, es + [e]) == Some(t)
  {
  }

  /** The statements of a call up to its purge. */
  function ToPurge(id: Id, kind: Kind, user: string, page: Page): seq<Event> {
    [Begin(id, kind, user, page)] + [Step(id)] + [Step(id)]
  }

  /** From the purge to the clock reading before the write. */
  function ToWrite(id: Id): seq<Event> {
    [Step(id)] + [Step(id)]
  }

  lemma Enters(s0: State, es: seq<Event>, s: State, id: Id, kind: Kind, user: string, page: Page)
    requires After(s0, es) == Some(s) && id !in s.calls && ValidLockPath(page.path) && kind != ForceCall
    ensures After(s0, es + [Begin(id, kind, user, page)] + [Step(id)]) ==
            Some(s.(calls := s.calls[id := Call(kind, user, page, PurgeAt(s.now))]))
  {
    hide After, ValidLockPath, RowsAfter, StageAfter;
    var c := Call(kind, user, page, Begun);
    var s1 := s.(calls := s.calls[id := c]);
    Then(s0, es, s, Begin(id, kind, user, page), s1);
    FirstStep(s1, c);
    var s2 := s.(calls := s.calls[id := c.(stage := PurgeAt(s.now))]);
    assert s1.calls[id := c.(stage := PurgeAt(s.now))] == s2.calls;
    Then(s0, es + [Begin(id, kind, user, page)], s1, Step(id), s2);
  }

  lemma FirstStep(s: State, c: Call)
    requires c.stage == Begun && c.kind != ForceCall
    ensures RowsAfter(s, c) == s.rows && StageAfter(s, c) == PurgeAt(s.now)
  {
  }

  lemma Purges(s0: State, es: seq<Event>, s: State, id: Id, kind: Kind, user: string, page: Page)
    requires After(s0, es) == Some(s) && id !in s.calls && ValidLockPath(page.path) && kind != ForceCall
    ensures After(s0, es + ToPurge(id, kind, user, page)) ==
            Some(State(s.now, Live(s.rows, s.now), s.calls[id := Call(kind, user, page, Purged)]))
  {
    Enters(s0, es, s, id, kind, user, page);
    var s2 := s.(calls := s.calls[id := Call(kind, user, page, PurgeAt(s.now))]);
    var s3 := State(s.now, Live(s.rows, s.now), s.calls[id := Call(kind, user, page, Purged)]);
    assert s2.calls[id := Call(kind, user, page, Purged)] == s3.calls;
    Then(s0, es + [Begin(id, kind, user, page)] + [Step(id)], s2, Step(id), s3);
    assert es + ToPurge(id, kind, user, page) == es + [Begin(id, kind, user, page)] + [Step(id)] + [Step(id)];
  }

  /** The check before the write passes and the clock is read. */
  lemma Readies(s0: State, es: seq<Event>, s: State, id: Id, c: Call)
    requires After(s0, es) == Some(s) && id in s.calls && s.calls[id] == c && c.stage == Purged
    requires (c.kind == AcquireCall && c.page !in s.rows)
             || (c.kind == HeartbeatCall && c.page in s.rows && s.rows[c.page].user == c.user)
    ensures After(s0, es + ToWrite(id)) == Some(s.(calls := s.calls[id := c.(stage := WriteAt(s.now))]))
  {
    var s1 := s.(calls := s.calls[id := c.(stage := MayWrite)]);
    Then(s0, es, s, Step(id), s1);
    var s2 := s.(calls := s.calls[id := c.(stage := WriteAt(s.now))]);
    assert s1.calls[id := c.(stage := WriteAt(s.now))] == s2.calls;
    Then(s0, es + [Step(id)], s1, Step(id), s2);
    assert es + ToWrite(id) == es + [Step(id)] + [Step(id)];
  }

  /** A page is acquired in an empty table. */
  lemma AcquiresEmpty(s0: State, es: seq<Event>, s: State, id: Id, user: string, page: Page)
    requires After(s0, es) == Some(s) && id !in s.calls && ValidLockPath(page.path) && s.rows == map[]
    ensures After(s0, es + ToPurge(id, AcquireCall, user, page) + ToWrite(id) + [Step(id)]) ==
            Some(State(s.now, map[page := Row(user, s.now, s.now + LEASE)],
                       s.calls[id := Call(AcquireCall, user, page, Written)]))
  {
    var c := Call(AcquireCall, user, page, Purged);
    Purges(s0, es, s, id, AcquireCall, user, page);
    assert Live(s.rows, s.now) == map[];
    var s1 := State(s.now, map[], s.calls[id := c]);
    var e1 := es + ToPurge(id, AcquireCall, user, page);
    Readies(s0, e1, s1, id, c);
    var s2 := s1.(calls := s1.calls[id := c.(stage := WriteAt(s.now))]);
    var s3 := State(s.now, map[page := Row(user, s.now, s.now + LEASE)], s.calls[id := c.(stage := Written)]);
    assert s2.calls[id := c.(stage := Written)] == s3.calls;
    Then(s0, e1 + ToWrite(id), s2, Step(id), s3);
  }

  function FirstHolder(user: string, page: Page): seq<Event> {
    ToPurge(0, AcquireCall, user, page) + ToWrite(0) + [Step(0)]
    + ToPurge(1, HeartbeatCall, user, page) + ToWrite(1)
  }

  /** A heartbeat that has read the clock and is then delayed until its row has been purged
      and the same user has acquired the page again. */
  function LateHeartbeat(user: string, page: Page): seq<Event> {
    FirstHolder(user, page)
    + [Tick(LEASE + 1)] + ToPurge(2, StatusCall, user, page)
    + ToPurge(3, AcquireCall, user, page) + ToWrite(3) + [Step(3)]
  }

  ghost function FirstCalls(user: string, page: Page): map<Id, Call> {
    map[0 := Call(AcquireCall, user, page, Written)][1 := Call(HeartbeatCall, user, page, WriteAt(0))]
  }

  lemma FirstHolderState(user: string, page: Page)
    requires ValidLockPath(page.path)
    ensures After(Init(0), FirstHolder(user, page)) ==
            Some(State(0, map[page := Row(user, 0, LEASE)], FirstCalls(user, page)))
  {
    hide Happen;
    var none: seq<Event> := [];
    var held := map[page := Row(user, 0, LEASE)];
    var calls0 := map[0 := Call(AcquireCall, user, page, Written)];
    AcquiresEmpty(Init(0), none, Init(0), 0, user, page);
    assert none + ToPurge(0, AcquireCall, user, page) == ToPurge(0, AcquireCall, user, page);
    var e0 := ToPurge(0, AcquireCall, user, page) + ToWrite(0) + [Step(0)];
    Purges(Init(0), e0, State(0, held, calls0), 1, HeartbeatCall, user, page);
    assert Live(held, 0) == held;
    var s1 := State(0, held, calls0[1 := Call(HeartbeatCall, user, page, Purged)]);
    Readies(Init(0), e0 + ToPurge(1, HeartbeatCall, user, page), s1, 1, Call(HeartbeatCall, user, page, Purged));
    assert s1.calls[1 := Call(HeartbeatCall, user, page, WriteAt(0))] == FirstCalls(user, page);
  }

  lemma LateHeartbeatState(user: string, page: Page)
    requires ValidLockPath(page.path)
    ensures After(Init(0), LateHeartbeat(user, page)) ==
            Some(State(LEASE + 1, map[page := Row(user, LEASE + 1, 2 * LEASE + 1)],
                       FirstCalls(user, page)
                         [2 := Call(StatusCall, user, page, Purged)][3 := Call(AcquireCall, user, page, Written)]))
  {
    hide After;
    FirstHolderState(user, page);
    var held := map[page := Row(user, 0, LEASE)];
    var calls := FirstCalls(user, page);
    var e1 := FirstHolder(user, page);
    Then(Init(0), e1, State(0, held, calls), Tick(LEASE + 1), State(LEASE + 1, held, calls));
    var e2 := e1 + [Tick(LEASE + 1)];
    Purges(Init(0), e2, State(LEASE + 1, held, calls), 2, StatusCall, user, page);
    assert Live(held, LEASE + 1) == map[];
    AcquiresEmpty(Init(0), e2 + ToPurge(2, StatusCall, user, page),
                  State(LEASE + 1, map[], calls[2 := Call(StatusCall, user, page, Purged)]), 3, user, page);
  }

  /** What the delayed heartbeat then does: the fresh lease, just granted for five minutes,
      is dated back, and the next purge in the same millisecond removes it. */
  lemma LateHeartbeatEndsFreshLease(user: string, page: Page)
    requires ValidLockPath(page.path)
    ensures var es := LateHeartbeat(user, page);
            var more := es + [Step(1)] + ToPurge(4, StatusCall, user, page);
            && After(Init(0), es).Some? && After(Init(0), more).Some?
            && var before, after := After(Init(0), es).value, After(Init(0), more).value;
               && before.now == after.now == LEASE + 1
               && Find(before.rows, page) == Some(Row(user, LEASE + 1, 2 * LEASE + 1))
               && page !in after.rows
  {
    LateHeartbeatState(user, page);
    var es := LateHeartbeat(user, page);
    var s := After(Init(0), es).value;
    var shortened := map[page := Row(user, LEASE + 1, LEASE)];
    assert Renewed(s.rows, page, user, LEASE) == shortened;
    var t := State(s.now, shortened, s.calls[1 := s.calls[1].(stage := Written)]);
    Then(Init(0), es, s, Step(1), t);
    Purges(Init(0), es + [Step(1)], t, 4, StatusCall, user, page);
  }
}
