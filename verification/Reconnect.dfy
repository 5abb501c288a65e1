/** Reconnection by many threads (Http2Client::reconnect, Http2Connection::reconnect). */
module Reconnect {
  import opened Sequences
  import opened Sums

  datatype Status = NOT_OPEN | OPEN | CLOSED

  // ---------- One connection, its callbacks and its reconnect ----------

  // What the io thread reports about a session.
  datatype Report = Opened | Failed

  class Http2Connection {
    var status: Status
    var hasSession: bool

    constructor ()
      ensures status == NOT_OPEN && hasSession
    {
      status, hasSession := NOT_OPEN, true;
    }

    // The on_connect callback of the session.
    method OnConnect()
      modifies this`status
      ensures status == OPEN
    {
      status := OPEN;
    }

    method NotifyClose()
      modifies this`status
      ensures status == CLOSED
    {
      status := CLOSED;
    }

    // The callbacks of the session, in the order of its reports.
    method Deliver(reports: seq<Report>)
      modifies this`status
      ensures status == if reports == [] then old(status) else if Last(reports) == Opened then OPEN else CLOSED
    {
      for i := 0 to |reports|
        invariant i > 0 ==> status == if reports[i - 1] == Opened then OPEN else CLOSED
        invariant i == 0 ==> status == old(status)
      {
        if reports[i] == Opened {
          OnConnect();
        } else {
          NotifyClose();
        }
      }
    }

    // The new session makes `early` reports before the status is set to NOT_OPEN, and `late` ones
    // until the caller stops waiting and reads the status. Only the last of the late ones matters.
    method Reconnect(created: bool, early: seq<Report>, late: seq<Report>) returns (connected: bool)
      modifies this
      ensures connected <==> created && late != [] && Last(late) == Opened
      ensures hasSession == created
      ensures created && late == [] ==> status == NOT_OPEN
      ensures !created || (late != [] && Last(late) == Failed) ==> status == CLOSED
      ensures connected ==> status == OPEN
    {
      NotifyClose();
      hasSession := false;
      if !created {
        return false;
      }
      hasSession := true;
      Deliver(early);
      status := NOT_OPEN;
      Deliver(late);
      connected := status == OPEN;
    }
  }

  // ---------- Many threads ----------

  // Where a thread stands in Http2Client::reconnect. The last group is inside
  // Http2Connection::reconnect.
  datatype Pc =
    | Outside | Locking
    | Holding | Unconnected | Releasing
    | Closing | Creating | Configured | Waiting | Reading | Leaving(connected: bool)

  predicate Inside(p: Pc) {
    p.Closing? || p.Creating? || p.Configured? || p.Waiting? || p.Reading? || p.Leaving?
  }

  predicate Locked(p: Pc) {
    Inside(p) || p == Holding || p == Unconnected || p == Releasing
  }

  // The lock is free when its holder is -1. Counted are the reconnects started, those that ended with
  // the status not OPEN, and the times the status left OPEN while no reconnect was in progress.
  datatype Client = Client(status: Status, holder: int, threads: seq<Pc>, started: nat, failed: nat, left: nat)

  datatype Step =
    | Arrive
    | Acquire(i: nat) | GiveUp(i: nat) | Check(i: nat) | Begin(i: nat)
    | CloseOld(i: nat) | Create(i: nat, ok: bool) | MarkNotOpen(i: nat) | WaitEnds(i: nat) | Read(i: nat)
    | Leave(i: nat) | Unlock(i: nat)
    | Connected | Lost       // the environment: on_connect, and any notifyClose

  predicate At(c: Client, i: nat, p: Pc) {
    i < |c.threads| && c.threads[i] == p
  }

  predicate CanStep(c: Client, s: Step) {
    match s
    case Acquire(i) => At(c, i, Locking) && c.holder == -1
    case GiveUp(i) => At(c, i, Locking)
    case Check(i) => At(c, i, Holding)
    case Begin(i) => At(c, i, Unconnected)
    case CloseOld(i) => At(c, i, Closing)
    case Create(i, _) => At(c, i, Creating)
    case MarkNotOpen(i) => At(c, i, Configured)
    case WaitEnds(i) => At(c, i, Waiting)
    case Read(i) => At(c, i, Reading)
    case Leave(i) => i < |c.threads| && c.threads[i].Leaving?
    case Unlock(i) => At(c, i, Releasing)
    case _ => true
  }

  function Go(c: Client, i: nat, p: Pc): Client
    requires i < |c.threads|
  {
    c.(threads := c.threads[i := p])
  }

  predicate NobodyInside(c: Client) {
    forall i | 0 <= i < |c.threads| :: !Inside(c.threads[i])
  }

  function Next(c: Client, s: Step): Client
    requires CanStep(c, s)
  {
    match s
    case Arrive => c.(threads := c.threads + [Locking])
    case Acquire(i) => Go(c, i, Holding).(holder := i)
    case GiveUp(i) => Go(c, i, Outside)
    case Check(i) => Go(c, i, if c.status == OPEN then Releasing else Unconnected)
    case Begin(i) => Go(c, i, Closing).(started := c.started + 1)
    case CloseOld(i) => Go(c, i, Creating).(status := CLOSED)
    case Create(i, ok) => Go(c, i, if ok then Configured else Leaving(false))
    case MarkNotOpen(i) => Go(c, i, Waiting).(status := NOT_OPEN)
    case WaitEnds(i) => Go(c, i, Reading)
    case Read(i) => Go(c, i, Leaving(c.status == OPEN))
    case Leave(i) => Go(c, i, Releasing).(failed := c.failed + if c.status != OPEN then 1 else 0)
    case Unlock(i) => Go(c, i, Outside).(holder := -1)
    case Connected => c.(status := OPEN)
    case Lost => c.(status := CLOSED, left := c.left + if c.status == OPEN && NobodyInside(c) then 1 else 0)
  }

  function After(initial: Status, run: seq<Step>): Client {
    if run == [] then Client(initial, -1, [], 0, 0, 0)
    else
      var c, s := After(initial, Front(run)), Last(run);
      if CanStep(c, s) then Next(c, s) else c
  }

  predicate Execution(initial: Status, run: seq<Step>) {
    run == [] || (Execution(initial, Front(run)) && CanStep(After(initial, Front(run)), Last(run)))
  }

  // Every reconnect but the last is accounted for: it failed, or the status left OPEN after it. When
  // the status is not OPEN outside a reconnect, the last one is accounted for as well.
  ghost predicate Inv(c: Client) {
    && -1 <= c.holder < |c.threads|
    && (forall i | 0 <= i < |c.threads| :: Locked(c.threads[i]) <==> i == c.holder)
    && c.started <= c.failed + c.left + 1
    && (c.holder >= 0 && c.threads[c.holder] == Unconnected ==> c.started <= c.failed + c.left)
    && (NobodyInside(c) && c.status != OPEN ==> c.started <= c.failed + c.left)
  }

  // Steps of a thread inside Http2Connection::reconnect, up to its return.
  predicate OfConnection(s: Step) {
    s.CloseOld? || s.Create? || s.MarkNotOpen? || s.WaitEnds? || s.Read? || s.Leave?
  }

  lemma ConnectionKeepsInv(c: Client, s: Step)
    requires Inv(c) && CanStep(c, s) && OfConnection(s)
    ensures Inv(Next(c, s))
  {
    var d := Next(c, s);
    assert Inside(d.threads[s.i]) || s.Leave?;
  }

  lemma ClientKeepsInv(c: Client, s: Step)
    requires Inv(c) && CanStep(c, s) && !OfConnection(s)
    ensures Inv(Next(c, s))
  {}

  lemma StepKeepsInv(c: Client, s: Step)
    requires Inv(c) && CanStep(c, s)
    ensures Inv(Next(c, s))
  {
    if OfConnection(s) {
      ConnectionKeepsInv(c, s);
    } else {
      ClientKeepsInv(c, s);
    }
  }

  lemma {:induction false} RunKeepsInv(initial: Status, run: seq<Step>)
    ensures Inv(After(initial, run))
  {
    if run != [] {
      RunKeepsInv(initial, Front(run));
      var c, s := After(initial, Front(run)), Last(run);
      if CanStep(c, s) {
        StepKeepsInv(c, s);
      }
    }
  }

  // ---------- Which connects are noticed ----------

  // The report at k is still in force at the end: nothing since then has changed the status, neither a
  // loss nor the NOT_OPEN that thread i stores.
  predicate InForce(run: seq<Step>, k: nat, i: nat) {
    && k < |run| && run[k] == Connected
    && forall j | k < j < |run| :: run[j] != Lost && run[j] != MarkNotOpen(i)
  }

  lemma InForceStays(run: seq<Step>, k: nat, i: nat)
    requires run != [] && Last(run) != Lost && Last(run) != MarkNotOpen(i) && k < |run| - 1
    ensures InForce(run, k, i) <==> InForce(Front(run), k, i)
  {
    assert forall j | 0 <= j < |run| - 1 :: Front(run)[j] == run[j];
  }

  predicate AwaitsConnect(c: Client, i: nat) {
    i < |c.threads| && (c.threads[i] == Waiting || c.threads[i] == Reading)
  }

  // While a thread awaits the connection, only a report, a loss or its own store touch the status.
  lemma StepOfOthers(c: Client, s: Step, i: nat)
    requires Inv(c) && CanStep(c, s) && AwaitsConnect(Next(c, s), i)
    requires s != Connected && s != Lost && s != MarkNotOpen(i)
    ensures AwaitsConnect(c, i) && Next(c, s).status == c.status
  {
    if AwaitsConnect(c, i) {
      assert Locked(c.threads[i]) && c.holder == i;
    }
  }

  lemma {:induction false} OpenIffInForce(initial: Status, run: seq<Step>, i: nat)
    requires Execution(initial, run) && AwaitsConnect(After(initial, run), i)
    ensures After(initial, run).status == OPEN <==> exists k :: InForce(run, k, i)
  {
    var c, s := After(initial, Front(run)), Last(run);
    RunKeepsInv(initial, Front(run));
    if s == Connected {
      assert InForce(run, |run| - 1, i);
    } else if s == Lost || s == MarkNotOpen(i) {
      assert run[|run| - 1] == s;
    } else {
      StepOfOthers(c, s, i);
      OpenIffInForce(initial, Front(run), i);
      forall k: nat | k < |run| - 1
        ensures InForce(run, k, i) <==> InForce(Front(run), k, i)
      {
        InForceStays(run, k, i);
      }
      assert !InForce(run, |run| - 1, i);
    }
  }

  /** A reconnect returns true exactly when some report of a connection is still in force when it reads
      the status: one made after the thread's own store of NOT_OPEN, with no loss since. */
  lemma ReconnectNotices(initial: Status, run: seq<Step>, i: nat)
    requires Execution(initial, run + [Read(i)])
    ensures i < |After(initial, run + [Read(i)]).threads|
    ensures After(initial, run + [Read(i)]).threads[i] == Leaving(exists k :: InForce(run, k, i))
  {
    assert Front(run + [Read(i)]) == run;
    OpenIffInForce(initial, run, i);
  }

  // ---------- What a run stores, counts and returns ----------

  predicate Stores(s: Step) {
    s.CloseOld? || s.MarkNotOpen? || s.Connected? || s.Lost?
  }

  function StoredBy(s: Step): Status
    requires Stores(s)
  {
    if s.Connected? then OPEN else if s.MarkNotOpen? then NOT_OPEN else CLOSED
  }

  // The last step of the run that stores a status, -1 for none.
  function LastStore(run: seq<Step>): (k: int)
    ensures -1 <= k < |run|
    ensures k >= 0 ==> Stores(run[k])
    ensures forall j | k < j < |run| :: !Stores(run[j])
  {
    if run == [] then -1 else if Stores(Last(run)) then |run| - 1 else LastStore(Front(run))
  }

  lemma StepStores(c: Client, s: Step)
    requires CanStep(c, s)
    ensures Next(c, s).status == if Stores(s) then StoredBy(s) else c.status
  {}

  /** The status is the one stored last, whoever stored it. */
  lemma {:induction false} StatusIsStoredLast(initial: Status, run: seq<Step>)
    requires Execution(initial, run)
    ensures After(initial, run).status == if LastStore(run) < 0 then initial else StoredBy(run[LastStore(run)])
  {
    if run != [] {
      StatusIsStoredLast(initial, Front(run));
      StepStores(After(initial, Front(run)), Last(run));
    }
  }

  // How many reconnects began in the run.
  function Begun(initial: Status, run: seq<Step>): nat {
    if run == [] then 0
    else
      var c, s := After(initial, Front(run)), Last(run);
      Begun(initial, Front(run)) + Bit(s.Begin? && CanStep(c, s))
  }

  // How many of them ended with a status other than OPEN.
  function Failures(initial: Status, run: seq<Step>): nat {
    if run == [] then 0
    else
      var c, s := After(initial, Front(run)), Last(run);
      Failures(initial, Front(run)) + Bit(s.Leave? && CanStep(c, s) && c.status != OPEN)
  }

  // How often an open connection was lost while no reconnect was in progress.
  function Losses(initial: Status, run: seq<Step>): nat {
    if run == [] then 0
    else
      var c := After(initial, Front(run));
      Losses(initial, Front(run)) + Bit(Last(run) == Lost && c.status == OPEN && NobodyInside(c))
  }

  lemma StepCounts(c: Client, s: Step)
    requires CanStep(c, s)
    ensures var d := Next(c, s);
            && d.started == c.started + Bit(s.Begin?)
            && d.failed == c.failed + Bit(s.Leave? && c.status != OPEN)
            && d.left == c.left + Bit(s == Lost && c.status == OPEN && NobodyInside(c))
  {}

  lemma {:induction false} CountsFollowSteps(initial: Status, run: seq<Step>)
    ensures var c := After(initial, run);
            && c.started == Begun(initial, run)
            && c.failed == Failures(initial, run)
            && c.left == Losses(initial, run)
  {
    if run != [] {
      CountsFollowSteps(initial, Front(run));
      if CanStep(After(initial, Front(run)), Last(run)) {
        StepCounts(After(initial, Front(run)), Last(run));
      }
    }
  }

  /** At most one thread is inside Http2Connection::reconnect, and no reconnect is begun in vain: each
      but the first follows one that ended not OPEN, or a time an open connection was lost. */
  lemma ReconnectBound(initial: Status, run: seq<Step>, i: nat, j: nat)
    requires i < |After(initial, run).threads| && j < |After(initial, run).threads|
    ensures Inside(After(initial, run).threads[i]) && Inside(After(initial, run).threads[j]) ==> i == j
    ensures Begun(initial, run) <= 1 + Failures(initial, run) + Losses(initial, run)
  {
    RunKeepsInv(initial, run);
    CountsFollowSteps(initial, run);
  }

  // The step at j belongs to thread i, and is the last that does.
  predicate LastOf(run: seq<Step>, i: nat, j: nat) {
    j < |run| && OfThread(run[j], i) && forall l | j < l < |run| :: !OfThread(run[l], i)
  }

  predicate OfThread(s: Step, i: nat) {
    !s.Arrive? && !s.Connected? && !s.Lost? && s.i == i
  }

  // The thread is about to return what its last step says: false if no session was created, or else
  // whether a report was in force where it read the status.
  ghost predicate ReturnsAt(run: seq<Step>, i: nat, j: nat, connected: bool) {
    && LastOf(run, i, j)
    && (run[j] == Create(i, false) || run[j] == Read(i))
    && (connected <==> run[j] == Read(i) && exists k :: InForce(run[..j], k, i))
  }

  lemma ReturnsStays(run: seq<Step>, i: nat, j: nat, connected: bool)
    requires run != [] && ReturnsAt(Front(run), i, j, connected) && !OfThread(Last(run), i)
    ensures ReturnsAt(run, i, j, connected)
  {
    assert Front(run)[..j] == run[..j];
    assert forall l | 0 <= l < |run| - 1 :: Front(run)[l] == run[l];
  }

  /** What a thread returns from its reconnect, in every run: true exactly when a session was created
      and a connect report was in force where the thread read the status. */
  lemma {:induction false} ReturnsWhatItRead(initial: Status, run: seq<Step>, i: nat)
    requires Execution(initial, run) && i < |After(initial, run).threads|
    requires After(initial, run).threads[i].Leaving?
    ensures exists j :: ReturnsAt(run, i, j, After(initial, run).threads[i].connected)
  {
    var s, prior := Last(run), Front(run);
    if s == Create(i, false) || s == Read(i) {
      if s == Read(i) {
        assert run == prior + [s];
        ReconnectNotices(initial, prior, i);
      }
      assert run[..|run| - 1] == prior;
      assert ReturnsAt(run, i, |run| - 1, After(initial, run).threads[i].connected);
    } else {
      assert !OfThread(s, i) && After(initial, run).threads[i] == After(initial, prior).threads[i];
      ReturnsWhatItRead(initial, prior, i);
      var j :| ReturnsAt(prior, i, j, After(initial, prior).threads[i].connected);
      ReturnsStays(run, i, j, After(initial, run).threads[i].connected);
    }
  }

  lemma StepOfThread(c: Client, s: Step, i: nat)
    requires CanStep(c, s) && !OfThread(s, i) && i < |c.threads|
    ensures i < |Next(c, s).threads| && Next(c, s).threads[i] == c.threads[i]
  {}

  /** And conversely: where the last step of a thread is a failed creation, or its reading of the status,
      it is about to return false, or whether a report was in force. */
  lemma {:induction false} ReturnsAfterLast(initial: Status, run: seq<Step>, i: nat, j: nat)
    requires Execution(initial, run) && LastOf(run, i, j)
    requires run[j] == Create(i, false) || run[j] == Read(i)
    ensures i < |After(initial, run).threads|
    ensures After(initial, run).threads[i]
            == Leaving(run[j] == Read(i) && exists k :: InForce(run[..j], k, i))
    decreases |run|
  {
    var s, prior := Last(run), Front(run);
    if j == |run| - 1 {
      assert run[..j] == prior;
      if s == Read(i) {
        assert run == prior + [s];
        ReconnectNotices(initial, prior, i);
      }
    } else {
      assert prior[..j] == run[..j];
      ReturnsAfterLast(initial, prior, i, j);
      StepOfThread(After(initial, prior), s, i);
    }
  }

  lemma Extend(initial: Status, run: seq<Step>, s: Step) returns (longer: seq<Step>)
    requires Execution(initial, run) && CanStep(After(initial, run), s)
    ensures longer == run + [s] && Execution(initial, longer)
    ensures After(initial, longer) == Next(After(initial, run), s)
  {
    longer := run + [s];
    assert Front(longer) == run && Last(longer) == s;
  }

  // A solitary thread, up to where it has the lock, is about to reconnect, and has a new session.
  lemma UpToLock(initial: Status) returns (run: seq<Step>)
    ensures Execution(initial, run) && run == [Arrive, Acquire(0)]
    ensures After(initial, run) == Client(initial, 0, [Holding], 0, 0, 0)
  {
    run := Extend(initial, [], Arrive);
    assert After(initial, run) == Client(initial, -1, [Locking], 0, 0, 0);
    run := Extend(initial, run, Acquire(0));
  }

  lemma UpToBegin(initial: Status) returns (run: seq<Step>)
    requires initial != OPEN
    ensures Execution(initial, run) && run == [Arrive, Acquire(0), Check(0)]
    ensures After(initial, run) == Client(initial, 0, [Unconnected], 0, 0, 0)
  {
    run := UpToLock(initial);
    run := Extend(initial, run, Check(0));
  }

  lemma UpToSession(initial: Status) returns (run: seq<Step>)
    requires initial != OPEN
    ensures Execution(initial, run)
    ensures run == [Arrive, Acquire(0), Check(0), Begin(0), CloseOld(0), Create(0, true)]
    ensures After(initial, run) == Client(CLOSED, 0, [Configured], 1, 0, 0)
  {
    run := UpToBegin(initial);
    run := Extend(initial, run, Begin(0));
    assert After(initial, run) == Client(initial, 0, [Closing], 1, 0, 0);
    run := Extend(initial, run, CloseOld(0));
    assert After(initial, run) == Client(CLOSED, 0, [Creating], 1, 0, 0);
    run := Extend(initial, run, Create(0, true));
  }

  lemma UpToWait(initial: Status) returns (run: seq<Step>)
    requires initial != OPEN
    ensures Execution(initial, run)
    ensures run == [Arrive, Acquire(0), Check(0), Begin(0), CloseOld(0), Create(0, true), Connected, MarkNotOpen(0)]
    ensures After(initial, run) == Client(NOT_OPEN, 0, [Waiting], 1, 0, 0)
  {
    run := UpToSession(initial);
    run := Extend(initial, run, Connected);
    run := Extend(initial, run, MarkNotOpen(0));
  }

  /** A connection reported between the creation of the session and the store of NOT_OPEN goes
      unnoticed, though it is never lost: from any status but OPEN this run ends without success. */
  lemma EarlyConnectUnnoticed(initial: Status) returns (run: seq<Step>)
    requires initial != OPEN
    ensures Execution(initial, run)
    ensures run == [Arrive, Acquire(0), Check(0), Begin(0), CloseOld(0), Create(0, true),
                    Connected, MarkNotOpen(0), WaitEnds(0), Read(0)]
    ensures After(initial, run).threads == [Leaving(false)]
  {
    run := UpToWait(initial);
    run := Extend(initial, run, WaitEnds(0));
    assert After(initial, run) == Client(NOT_OPEN, 0, [Reading], 1, 0, 0);
    run := Extend(initial, run, Read(0));
  }
}
