/** A client with many requests in flight: its counters against what the callbacks were given. */
module ClientRun {
  import opened Sequences
  import opened RequestProtocol
  import opened Sums

  // The sent, unsent and timed-out counters (Http2Client::enableMetrics), whether the status of the
  // connection is OPEN, and every request made so far.
  datatype Client = Client(
    metrics: bool, sent: nat, unsent: nat, timedOut: nat, open: bool, requests: seq<Request>)

  datatype Step =
    | Call(delayed: bool)
    | Run(i: nat, e: Event)
    | Connects      // on_connect, on the io thread
    | Loses         // any change of the status away from OPEN, on any thread

  // A delayed request is inside async_send: on the io thread, and it stays there until it has posted.
  predicate OnIoThread(r: Request) {
    r.delayed && Early(r.phase) && r.phase != Delaying && r.phase != DelayAborted && r.phase != Submitting
  }

  predicate IoThreadBusy(c: Client) {
    exists i :: 0 <= i < |c.requests| && OnIoThread(c.requests[i])
  }

  // Events that are handlers of the io context, with those of its timers.
  predicate IsHandler(e: Event) {
    || e.DelayExpires? || e.DelayAborts? || e.Submit? || e.TimerRuns? || e.AbortRuns?
    || e.Response? || e.Data? || e.Close?
  }

  // The checks see the status, and a submit is accepted only over an open connection.
  predicate Sees(open: bool, e: Event) {
    match e
    case CheckFirst(seen) => seen == open
    case CheckSecond(seen) => seen == open
    case Submit(ok, _) => ok ==> open
    case _ => true
  }

  predicate CanStep(c: Client, s: Step) {
    match s
    case Call(_) => true
    case Run(i, e) =>
      && i < |c.requests| && Enabled(c.requests[i], e)
      && (IsHandler(e) ==> !IoThreadBusy(c))
      && Sees(c.open, e)
    case Connects => !IoThreadBusy(c)
    case Loses => true
  }

  function Next(c: Client, s: Step, stops: bool): Client
    requires CanStep(c, s)
  {
    match s
    case Call(delayed) => c.(requests := c.requests + [Start(delayed)])
    case Run(i, e) =>
      var r := c.requests[i];
      c.(requests := c.requests[i := Apply(r, e, stops)],
         unsent := c.unsent + Bit(c.metrics && e == CountUnsent),
         sent := c.sent + Bit(c.metrics && e == CountSent),
         timedOut := c.timedOut + Bit(c.metrics && e == TimerRuns && !r.x.timedOut),
         open := c.open && !(e.Submit? && !e.ok))         // a failed submit calls notifyClose
    case Connects => c.(open := true)
    case Loses => c.(open := false)
  }

  function After(metrics: bool, run: seq<Step>, stops: bool): Client {
    if run == [] then Client(metrics, 0, 0, 0, false, [])
    else
      var c, s := After(metrics, Front(run), stops), Last(run);
      if CanStep(c, s) then Next(c, s, stops) else c
  }

  predicate Execution(metrics: bool, run: seq<Step>, stops: bool) {
    run == [] || (Execution(metrics, Front(run), stops) && CanStep(After(metrics, Front(run), stops), Last(run)))
  }

  // ---------- What one request contributes ----------

  // async_send has been entered.
  const Called := (r: Request) => Bit(r.phase != Delaying && r.phase != DelayAborted)
  // async_send has not counted the request yet.
  const Undecided :=
    (r: Request) => Bit(r.phase in {FirstCheck, Reconnecting, SecondCheck, CountingUnsent, CountingSent})
  const CountedUnsent := (r: Request) => Bit(r.phase == Refusing || r.phase == Refused)
  const CountedSent := (r: Request) => Bit(r.phase in {Posting, Submitting, Failed, Streaming})
  const CountedEither := (r: Request) => CountedSent(r) + CountedUnsent(r)
  const CountedTimedOut := (r: Request) => Bit(r.x.timedOut)
  // Timed out although the callback was given another answer.
  const TimedOutLate := (r: Request) => Bit(CountedLate(r))

  // Callbacks given a status, and callbacks given any other than the connection error.
  function Given(status: int): Request -> nat {
    (r: Request) => Bit(|r.x.calls| == 1 && r.x.calls[0].status == status)
  }
  const GivenElse := (r: Request) => Bit(|r.x.calls| == 1 && r.x.calls[0].status != -1)

  ghost predicate AllInv(c: Client, stops: bool) {
    forall i | 0 <= i < |c.requests| :: Inv(c.requests[i], stops)
  }

  ghost predicate Counted(c: Client) {
    if c.metrics then
      && c.sent == Sum(CountedSent, c.requests)
      && c.unsent == Sum(CountedUnsent, c.requests)
      && c.timedOut == Sum(CountedTimedOut, c.requests)
    else c.sent == c.unsent == c.timedOut == 0
  }

  lemma StepKeepsCounts(c: Client, s: Step, stops: bool)
    requires AllInv(c, stops) && Counted(c) && CanStep(c, s)
    ensures AllInv(Next(c, s, stops), stops) && Counted(Next(c, s, stops))
  {
    match s
    case Call(delayed) => CallKeepsCounts(c, delayed, stops);
    case Run(i, e) => EventKeepsCounts(c, i, e, stops);
    case _ =>
  }

  lemma CallKeepsCounts(c: Client, delayed: bool, stops: bool)
    requires AllInv(c, stops) && Counted(c)
    ensures AllInv(Next(c, Call(delayed), stops), stops) && Counted(Next(c, Call(delayed), stops))
  {
    var r := Start(delayed);
    SumAppend(CountedSent, c.requests, r);
    SumAppend(CountedUnsent, c.requests, r);
    SumAppend(CountedTimedOut, c.requests, r);
  }

  lemma EventKeepsCounts(c: Client, i: nat, e: Event, stops: bool)
    requires AllInv(c, stops) && Counted(c) && CanStep(c, Run(i, e))
    ensures AllInv(Next(c, Run(i, e), stops), stops) && Counted(Next(c, Run(i, e), stops))
  {
    var r := c.requests[i];
    var q := Apply(r, e, stops);
    StepKeepsInv(r, e, stops);
    StepContributes(r, e, stops);
    SumUpdate(CountedSent, c.requests, i, q);
    SumUpdate(CountedUnsent, c.requests, i, q);
    SumUpdate(CountedTimedOut, c.requests, i, q);
  }

  lemma StepContributes(r: Request, e: Event, stops: bool)
    requires Inv(r, stops) && Enabled(r, e)
    ensures var q := Apply(r, e, stops);
            && CountedSent(q) == CountedSent(r) + Bit(e == CountSent)
            && CountedUnsent(q) == CountedUnsent(r) + Bit(e == CountUnsent)
            && CountedTimedOut(q) == CountedTimedOut(r) + Bit(e == TimerRuns && !r.x.timedOut)
  {}

  lemma {:induction false} RunKeepsCounts(metrics: bool, run: seq<Step>, stops: bool)
    requires Execution(metrics, run, stops)
    ensures var c := After(metrics, run, stops); AllInv(c, stops) && Counted(c) && c.metrics == metrics
  {
    if run != [] {
      RunKeepsCounts(metrics, Front(run), stops);
      StepKeepsCounts(After(metrics, Front(run), stops), Last(run), stops);
    }
  }

  // ---------- Conservation ----------

  lemma CalledSplits(rs: seq<Request>)
    ensures Sum(Called, rs) == Sum(CountedSent, rs) + Sum(CountedUnsent, rs) + Sum(Undecided, rs)
  {
    SumSplit(CountedEither, CountedSent, CountedUnsent, rs);
    SumSplit(Called, CountedEither, Undecided, rs);
  }

  lemma TimeoutOfOne(r: Request, stops: bool)
    requires Inv(r, stops)
    ensures CountedTimedOut(r) == Given(-2)(r) + TimedOutLate(r)
    ensures CountedTimedOut(r) <= CountedSent(r)
    ensures stops ==> TimedOutLate(r) == 0
  {}

  lemma {:induction false} TimeoutBounds(rs: seq<Request>, stops: bool)
    requires forall i | 0 <= i < |rs| :: Inv(rs[i], stops)
    ensures Sum(CountedTimedOut, rs) == Sum(Given(-2), rs) + Sum(TimedOutLate, rs)
    ensures Sum(CountedTimedOut, rs) <= Sum(CountedSent, rs)
    ensures stops ==> Sum(TimedOutLate, rs) == 0
  {
    if rs != [] {
      TimeoutOfOne(rs[0], stops);
      TimeoutBounds(rs[1..], stops);
    }
  }

  // The timed-out counter exceeds the callbacks given a timeout by the requests timed out late.
  ghost predicate Balanced(c: Client, stops: bool) {
    && c.sent + c.unsent + Sum(Undecided, c.requests) == Sum(Called, c.requests)
    && c.timedOut == Sum(Given(-2), c.requests) + Sum(TimedOutLate, c.requests)
    && c.timedOut <= c.sent
    && (stops ==> Sum(TimedOutLate, c.requests) == 0)
  }

  lemma CountedIsBalanced(c: Client, stops: bool)
    requires AllInv(c, stops) && Counted(c) && c.metrics
    ensures Balanced(c, stops)
  {
    var rs := c.requests;
    CalledSplits(rs);
    TimeoutBounds(rs, stops);
  }

  /** In every reachable state, each call of async_send is counted sent, counted unsent or still on
      its way to one of the two; the timed-out counter is at most the requests sent, and is the number
      of callbacks given a timeout plus that of the requests timed out after another answer, of which
      there is none if a cancellation always stops the timer. */
  lemma Conservation(run: seq<Step>, stops: bool)
    requires Execution(true, run, stops)
    ensures Balanced(After(true, run, stops), stops)
  {
    RunKeepsCounts(true, run, stops);
    CountedIsBalanced(After(true, run, stops), stops);
  }

  predicate AtRest(c: Client) {
    forall i | 0 <= i < |c.requests| :: !Pending(c.requests[i])
  }

  lemma AnswerOfOne(r: Request, stops: bool)
    requires Inv(r, stops) && !Pending(r)
    ensures CountedUnsent(r) == Given(-1)(r) && CountedSent(r) == GivenElse(r)
    ensures Undecided(r) == 0
  {}

  lemma AnswersAtRest(rs: seq<Request>, stops: bool)
    requires forall i | 0 <= i < |rs| :: Inv(rs[i], stops) && !Pending(rs[i])
    ensures Sum(CountedUnsent, rs) == Sum(Given(-1), rs) && Sum(CountedSent, rs) == Sum(GivenElse, rs)
    ensures Sum(Undecided, rs) == 0
  {
    if rs != [] {
      AnswerOfOne(rs[0], stops);
      AnswersAtRest(rs[1..], stops);
    }
  }

  ghost predicate Settled(c: Client) {
    && c.sent + c.unsent == Sum(Called, c.requests)
    && c.unsent == Sum(Given(-1), c.requests)
    && c.sent == Sum(GivenElse, c.requests)
  }

  lemma CountedIsSettled(c: Client, stops: bool)
    requires AllInv(c, stops) && Counted(c) && c.metrics && AtRest(c)
    ensures Settled(c)
  {
    CalledSplits(c.requests);
    AnswersAtRest(c.requests, stops);
  }

  /** With nothing pending: sent and unsent add up to the calls, each unsent request got exactly the
      connection error and each sent request exactly one other answer. */
  lemma ConservationAtRest(run: seq<Step>, stops: bool)
    requires Execution(true, run, stops) && AtRest(After(true, run, stops))
    ensures Settled(After(true, run, stops))
  {
    RunKeepsCounts(true, run, stops);
    CountedIsSettled(After(true, run, stops), stops);
  }

  /** With metrics off no counter moves. */
  lemma SilentWithoutMetrics(run: seq<Step>, stops: bool)
    requires Execution(false, run, stops)
    ensures var c := After(false, run, stops); c.sent == c.unsent == c.timedOut == 0
  {
    RunKeepsCounts(false, run, stops);
  }

  // ---------- Each request runs by itself ----------

  // The calls made, each with whether it was delayed.
  function Calls(run: seq<Step>): seq<bool> {
    if run == [] then []
    else Calls(Front(run)) + if Last(run).Call? then [Last(run).delayed] else []
  }

  // The events of request i.
  function EventsOf(run: seq<Step>, i: nat): seq<Event> {
    if run == [] then []
    else EventsOf(Front(run), i) + if Last(run).Run? && Last(run).i == i then [Last(run).e] else []
  }

  lemma {:induction false} NoEventsBeforeCall(metrics: bool, run: seq<Step>, i: nat, stops: bool)
    requires Execution(metrics, run, stops)
    ensures |Calls(run)| == |After(metrics, run, stops).requests|
    ensures i >= |After(metrics, run, stops).requests| ==> EventsOf(run, i) == []
  {
    if run != [] {
      NoEventsBeforeCall(metrics, Front(run), i, stops);
    }
  }

  lemma OneMoreEvent(delayed: bool, t: seq<Event>, e: Event, stops: bool)
    requires RequestProtocol.Execution(delayed, t, stops)
    requires Enabled(RequestProtocol.After(delayed, t, stops), e)
    ensures RequestProtocol.Execution(delayed, t + [e], stops)
    ensures RequestProtocol.After(delayed, t + [e], stops) == Apply(RequestProtocol.After(delayed, t, stops), e, stops)
  {
    assert Front(t + [e]) == t;
  }

  // What one more step means for request i: a call, an event of its own, or nothing.
  lemma StepOfOne(metrics: bool, run: seq<Step>, i: nat, stops: bool)
    requires Execution(metrics, run, stops) && run != [] && i < |After(metrics, run, stops).requests|
    ensures var c, s := After(metrics, Front(run), stops), Last(run);
            var r := After(metrics, run, stops).requests[i];
            if i >= |c.requests| then s.Call? && i == |c.requests| && r == Start(s.delayed)
            else if s.Run? && s.i == i
            then Enabled(c.requests[i], s.e) && r == Apply(c.requests[i], s.e, stops)
            else r == c.requests[i]
  {}

  /** However the requests of a client interleave, each is in the state that its own events lead to. */
  lemma {:induction false} EachRequestRunsAlone(metrics: bool, run: seq<Step>, i: nat, stops: bool)
    requires Execution(metrics, run, stops) && i < |After(metrics, run, stops).requests|
    ensures i < |Calls(run)| && RequestProtocol.Execution(Calls(run)[i], EventsOf(run, i), stops)
    ensures RequestProtocol.After(Calls(run)[i], EventsOf(run, i), stops) == After(metrics, run, stops).requests[i]
  {
    var prior, s := Front(run), Last(run);
    NoEventsBeforeCall(metrics, run, i, stops);
    NoEventsBeforeCall(metrics, prior, i, stops);
    StepOfOne(metrics, run, i, stops);
    if i < |After(metrics, prior, stops).requests| {
      EachRequestRunsAlone(metrics, prior, i, stops);
      assert Calls(run)[i] == Calls(prior)[i];
      if s.Run? && s.i == i {
        OneMoreEvent(Calls(prior)[i], EventsOf(prior, i), s.e, stops);
      } else {
        assert EventsOf(run, i) == EventsOf(prior, i);
      }
    }
  }

  /** So in every run of a client, each callback is given exactly what the first terminal event of its
      own request says. */
  lemma EveryCallbackFirstTerminal(metrics: bool, run: seq<Step>, i: nat, stops: bool)
    requires Execution(metrics, run, stops) && i < |After(metrics, run, stops).requests|
    ensures After(metrics, run, stops).requests[i].x.calls == Outcome(EventsOf(run, i))
  {
    EachRequestRunsAlone(metrics, run, i, stops);
    CallsFollowEvents(Calls(run)[i], EventsOf(run, i), stops);
  }

  // ---------- What the checks see ----------

  // A step that takes the status away from OPEN: a loss, or a submit that fails.
  predicate Closes(s: Step) {
    s == Loses || (s.Run? && s.e.Submit? && !s.e.ok)
  }

  // The connection reported at k still stands.
  predicate Stands(run: seq<Step>, k: nat) {
    k < |run| && run[k] == Connects && forall j | k < j < |run| :: !Closes(run[j])
  }

  lemma StandsInFront(run: seq<Step>, k: nat)
    requires run != [] && k < |run| - 1
    ensures Stands(run, k) <==> Stands(Front(run), k) && !Closes(Last(run))
  {
    assert forall j | 0 <= j < |run| - 1 :: Front(run)[j] == run[j];
  }

  lemma {:induction false} OpenIffStands(metrics: bool, run: seq<Step>, stops: bool)
    requires Execution(metrics, run, stops)
    ensures After(metrics, run, stops).open <==> exists k :: Stands(run, k)
  {
    if run != [] {
      OpenIffStands(metrics, Front(run), stops);
      forall k: nat | k < |run| - 1
        ensures Stands(run, k) <==> Stands(Front(run), k) && !Closes(Last(run))
      {
        StandsInFront(run, k);
      }
      assert Stands(run, |run| - 1) <==> Last(run) == Connects;
    }
  }

  /** Both checks of a request find the connection open exactly if a report of it still stands; and a
      submit is accepted only then. A failed submit closes the connection for all. */
  lemma ChecksSeeReports(metrics: bool, run: seq<Step>, i: nat, e: Event, stops: bool)
    requires Execution(metrics, run + [Run(i, e)], stops)
    ensures e.CheckFirst? || e.CheckSecond? ==> (e.open <==> exists k :: Stands(run, k))
    ensures e.Submit? && e.ok ==> exists k :: Stands(run, k)
  {
    assert Front(run + [Run(i, e)]) == run;
    OpenIffStands(metrics, run, stops);
  }

  // ---------- A delayed request has no connection made for it ----------

  ghost predicate OneOnIoThread(c: Client) {
    forall i, j ::
      0 <= i < |c.requests| && 0 <= j < |c.requests| ==>
        OnIoThread(c.requests[i]) && OnIoThread(c.requests[j]) ==> i == j
  }

  lemma StepEntersIoThread(r: Request, e: Event, stops: bool)
    requires Enabled(r, e) && !OnIoThread(r) && OnIoThread(Apply(r, e, stops))
    ensures e == DelayExpires
  {}

  lemma StepKeepsOne(c: Client, s: Step, stops: bool)
    requires OneOnIoThread(c) && CanStep(c, s)
    ensures OneOnIoThread(Next(c, s, stops))
  {
    if s.Run? && !OnIoThread(c.requests[s.i]) && OnIoThread(Next(c, s, stops).requests[s.i]) {
      StepEntersIoThread(c.requests[s.i], s.e, stops);
      assert forall j | 0 <= j < |c.requests| :: !OnIoThread(c.requests[j]);
    }
  }

  /** At most one delayed request is inside async_send at any time: they all run on the io thread. */
  lemma {:induction false} OneDelayedAtATime(metrics: bool, run: seq<Step>, stops: bool)
    requires Execution(metrics, run, stops)
    ensures OneOnIoThread(After(metrics, run, stops))
  {
    if run != [] {
      OneDelayedAtATime(metrics, Front(run), stops);
      StepKeepsOne(After(metrics, Front(run), stops), Last(run), stops);
    }
  }

  // On its way from a first check that failed to the connection error.
  predicate Refusal(p: Phase) {
    p in {Reconnecting, SecondCheck, CountingUnsent, Refusing, Refused}
  }

  // While a delayed request reconnects it holds the only thread that could report a connection.
  ghost predicate BlockedInv(c: Client) {
    forall i | 0 <= i < |c.requests| ::
      c.requests[i].delayed && c.requests[i].phase in {Reconnecting, SecondCheck} ==> !c.open
  }

  lemma StepKeepsBlocked(c: Client, s: Step, stops: bool)
    requires BlockedInv(c) && CanStep(c, s)
    ensures BlockedInv(Next(c, s, stops))
  {
    if s == Connects {
      assert forall i | 0 <= i < |c.requests| :: !OnIoThread(c.requests[i]);
    }
  }

  lemma {:induction false} RunKeepsBlocked(metrics: bool, run: seq<Step>, stops: bool)
    requires Execution(metrics, run, stops)
    ensures BlockedInv(After(metrics, run, stops))
  {
    if run != [] {
      RunKeepsBlocked(metrics, Front(run), stops);
      StepKeepsBlocked(After(metrics, Front(run), stops), Last(run), stops);
    }
  }

  lemma StepOfDelayed(r: Request, e: Event, open: bool, stops: bool)
    requires Enabled(r, e) && Sees(open, e) && r.delayed
    requires r.phase in {Reconnecting, SecondCheck} ==> !open
    ensures e != CheckSecond(true)
    ensures Refusal(r.phase) || e == CheckFirst(false) ==> Refusal(Apply(r, e, stops).phase)
  {}

  /** A delayed request that finds the connection not open cannot have it opened: the reconnect it
      makes waits on the thread that would report the connection. In every run its second check fails
      too, and at rest its callback was given the connection error. */
  lemma {:induction false} DelayedIsRefused(metrics: bool, run: seq<Step>, i: nat, stops: bool)
    requires Execution(metrics, run, stops) && i < |After(metrics, run, stops).requests|
    requires After(metrics, run, stops).requests[i].delayed
    ensures CheckSecond(true) !in EventsOf(run, i)
    ensures CheckFirst(false) in EventsOf(run, i) ==> Refusal(After(metrics, run, stops).requests[i].phase)
  {
    var prior := Front(run);
    var c, s := After(metrics, prior, stops), Last(run);
    assert CanStep(c, s) && After(metrics, run, stops) == Next(c, s, stops);
    if i < |c.requests| {
      DelayedIsRefused(metrics, prior, i, stops);
      RunKeepsBlocked(metrics, prior, stops);
      if s.Run? && s.i == i {
        StepOfDelayed(c.requests[i], s.e, c.open, stops);
      }
    } else {
      NoEventsBeforeCall(metrics, prior, i, stops);
    }
  }

  lemma DelayedGetsConnectionError(metrics: bool, run: seq<Step>, i: nat, stops: bool)
    requires Execution(metrics, run, stops) && i < |After(metrics, run, stops).requests|
    requires After(metrics, run, stops).requests[i].delayed && CheckFirst(false) in EventsOf(run, i)
    requires !Pending(After(metrics, run, stops).requests[i])
    ensures After(metrics, run, stops).requests[i].x.calls == [CONNECTION_ERROR]
  {
    DelayedIsRefused(metrics, run, i, stops);
    RunKeepsCounts(metrics, run, stops);
  }

  // ---------- Which requests can reconnect ----------

  lemma Extend(metrics: bool, run: seq<Step>, s: Step, stops: bool) returns (longer: seq<Step>)
    requires Execution(metrics, run, stops) && CanStep(After(metrics, run, stops), s)
    ensures longer == run + [s] && Execution(metrics, longer, stops)
    ensures After(metrics, longer, stops) == Next(After(metrics, run, stops), s, stops)
  {
    longer := run + [s];
    assert Front(longer) == run && Last(longer) == s;
  }

  // What a request on the io thread does next: none of it waits for a handler.
  function Onward(p: Phase, open: bool): Event {
    match p
    case FirstCheck => CheckFirst(open)
    case Reconnecting => Reconnected
    case SecondCheck => CheckSecond(open)
    case CountingUnsent => CountUnsent
    case Refusing => Refuse
    case CountingSent => CountSent
    case _ => Post
  }

  // How much a request has still to do before it leaves the io thread.
  const Load := (r: Request) => if OnIoThread(r) then Rank(r) else 0

  lemma StepUnloads(r: Request, open: bool, stops: bool)
    requires OnIoThread(r)
    ensures var e := Onward(r.phase, open);
            Enabled(r, e) && !IsHandler(e) && Sees(open, e) && Load(Apply(r, e, stops)) < Load(r)
  {}

  // The requests on the io thread leave it by themselves, and the others need not move.
  lemma FreeIoThread(metrics: bool, run: seq<Step>, i: nat, stops: bool) returns (longer: seq<Step>)
    requires Execution(metrics, run, stops) && i < |After(metrics, run, stops).requests|
    requires !OnIoThread(After(metrics, run, stops).requests[i])
    ensures run <= longer && Execution(metrics, longer, stops) && !IoThreadBusy(After(metrics, longer, stops))
    ensures i < |After(metrics, longer, stops).requests|
    ensures After(metrics, longer, stops).requests[i] == After(metrics, run, stops).requests[i]
    decreases Sum(Load, After(metrics, run, stops).requests)
  {
    longer := run;
    var c := After(metrics, run, stops);
    if j: nat :| j < |c.requests| && OnIoThread(c.requests[j]) {
      var e := Onward(c.requests[j].phase, c.open);
      StepUnloads(c.requests[j], c.open, stops);
      SumUpdate(Load, c.requests, j, Apply(c.requests[j], e, stops));
      longer := Extend(metrics, run, Run(j, e), stops);
      longer := FreeIoThread(metrics, longer, i, stops);
    }
  }

  // In some continuation of the run, request i is counted sent.
  ghost predicate CanBeSent(metrics: bool, run: seq<Step>, i: nat, stops: bool) {
    exists longer ::
      run <= longer && Execution(metrics, longer, stops) && CountSent in EventsOf(longer, i)
  }

  lemma SecondCheckSucceeds(metrics: bool, run: seq<Step>, i: nat, stops: bool) returns (longer: seq<Step>)
    requires Execution(metrics, run, stops) && i < |After(metrics, run, stops).requests|
    requires After(metrics, run, stops).requests[i].phase == Reconnecting && After(metrics, run, stops).open
    ensures run <= longer && Execution(metrics, longer, stops) && i < |After(metrics, longer, stops).requests|
    ensures After(metrics, longer, stops).requests[i].phase == CountingSent
  {
    longer := Extend(metrics, run, Run(i, Reconnected), stops);
    longer := Extend(metrics, longer, Run(i, CheckSecond(true)), stops);
  }

  lemma OthersAreSent(metrics: bool, run: seq<Step>, i: nat, stops: bool) returns (longer: seq<Step>)
    requires Execution(metrics, run, stops) && i < |After(metrics, run, stops).requests|
    requires After(metrics, run, stops).requests[i].phase == Reconnecting
    requires !After(metrics, run, stops).requests[i].delayed
    ensures run <= longer && Execution(metrics, longer, stops) && CountSent in EventsOf(longer, i)
  {
    longer := FreeIoThread(metrics, run, i, stops);
    longer := Extend(metrics, longer, Connects, stops);
    longer := SecondCheckSucceeds(metrics, longer, i, stops);
    longer := Extend(metrics, longer, Run(i, CountSent), stops);
    assert Last(longer) == Run(i, CountSent);
  }

  lemma RefusedIsNotSent(metrics: bool, run: seq<Step>, i: nat, stops: bool)
    requires Execution(metrics, run, stops) && i < |After(metrics, run, stops).requests|
    requires Refusal(After(metrics, run, stops).requests[i].phase)
    ensures CountSent !in EventsOf(run, i)
  {
    EachRequestRunsAlone(metrics, run, i, stops);
    ChecksDecide(Calls(run)[i], EventsOf(run, i), stops);
  }

  lemma {:induction false} RefusalStays(metrics: bool, run: seq<Step>, longer: seq<Step>, i: nat, stops: bool)
    requires run <= longer && Execution(metrics, longer, stops) && i < |After(metrics, run, stops).requests|
    requires After(metrics, run, stops).requests[i].delayed && Refusal(After(metrics, run, stops).requests[i].phase)
    ensures i < |After(metrics, longer, stops).requests|
    ensures After(metrics, longer, stops).requests[i].delayed
    ensures Refusal(After(metrics, longer, stops).requests[i].phase)
    decreases |longer|
  {
    if |longer| == |run| {
      assert longer == run;
    } else {
      RefusalStays(metrics, run, Front(longer), i, stops);
      var c, s := After(metrics, Front(longer), stops), Last(longer);
      RunKeepsBlocked(metrics, Front(longer), stops);
      if s.Run? && s.i == i {
        StepOfDelayed(c.requests[i], s.e, c.open, stops);
      }
    }
  }

  /** A request that reconnects can still find the connection open and be sent exactly when it was not
      delayed: whatever keeps the io thread busy is done without the connection, and then the
      connection can be reported. */
  lemma ReconnectsIffNotDelayed(metrics: bool, run: seq<Step>, i: nat, stops: bool)
    requires Execution(metrics, run, stops) && i < |After(metrics, run, stops).requests|
    requires After(metrics, run, stops).requests[i].phase == Reconnecting
    ensures CanBeSent(metrics, run, i, stops) <==> !After(metrics, run, stops).requests[i].delayed
  {
    if CanBeSent(metrics, run, i, stops) && After(metrics, run, stops).requests[i].delayed {
      var longer :| run <= longer && Execution(metrics, longer, stops) && CountSent in EventsOf(longer, i);
      RefusalStays(metrics, run, longer, i, stops);
      RefusedIsNotSent(metrics, longer, i, stops);
    }
    if !After(metrics, run, stops).requests[i].delayed {
      var longer := OthersAreSent(metrics, run, i, stops);
    }
  }

  // A client with one request and no connection, and the next step of that request.
  predicate Lone(c: Client, r: Request) {
    c.requests == [r] && !c.open
  }

  lemma LoneStep(metrics: bool, run: seq<Step>, r: Request, e: Event, stops: bool) returns (longer: seq<Step>)
    requires Execution(metrics, run, stops) && Lone(After(metrics, run, stops), r)
    requires Enabled(r, e) && Sees(false, e) && (IsHandler(e) ==> !OnIoThread(r))
    ensures Execution(metrics, longer, stops) && Lone(After(metrics, longer, stops), Apply(r, e, stops))
  {
    longer := Extend(metrics, run, Run(0, e), stops);
  }

  // A delayed request that has reconnected in vain.
  lemma UpToReconnect(metrics: bool, stops: bool) returns (run: seq<Step>)
    ensures Execution(metrics, run, stops)
    ensures Lone(After(metrics, run, stops), Request(true, SecondCheck, FRESH))
  {
    run := Extend(metrics, [], Call(true), stops);
    assert Lone(After(metrics, run, stops), Start(true));
    run := LoneStep(metrics, run, Start(true), DelayExpires, stops);
    run := LoneStep(metrics, run, Request(true, FirstCheck, FRESH), CheckFirst(false), stops);
    run := LoneStep(metrics, run, Request(true, Reconnecting, FRESH), Reconnected, stops);
  }

  /** The first request of a client, delayed and made before the connection is open, is refused. */
  lemma DelayedRefusedRun(metrics: bool, stops: bool) returns (run: seq<Step>)
    ensures Execution(metrics, run, stops)
    ensures After(metrics, run, stops).requests == [Request(true, Refused, FRESH.(calls := [CONNECTION_ERROR]))]
  {
    run := UpToReconnect(metrics, stops);
    run := LoneStep(metrics, run, Request(true, SecondCheck, FRESH), CheckSecond(false), stops);
    run := LoneStep(metrics, run, Request(true, CountingUnsent, FRESH), CountUnsent, stops);
    assert FRESH.calls + [CONNECTION_ERROR] == [CONNECTION_ERROR];
    run := LoneStep(metrics, run, Request(true, Refusing, FRESH), Refuse, stops);
  }
}
