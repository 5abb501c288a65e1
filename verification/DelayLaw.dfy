/** When a server stream replies: the delay asked by the reception, then those of responseDelayMs. The
    clock is ideal: a wait lasts as long as its timer is set to, and the handlers take no time. */
module DelayLaw {
  import opened ServerStream
  import opened StreamSafety
  import opened Sums
  import opened Sequences

  // ---------- Delays and answers ----------

  // The first k answers added up.
  function SumFirst(answers: nat -> int, k: nat): int {
    if k == 0 then 0 else SumFirst(answers, k - 1) + answers(k - 1)
  }

  predicate AllPositive(answers: nat -> int, n: nat) {
    forall i | 0 <= i < n :: answers(i) > 0
  }

  // k is the first answer that asks for no further delay.
  predicate FirstRelease(answers: nat -> int, k: nat) {
    answers(k) <= 0 && AllPositive(answers, k)
  }

  // How often responseDelayMs was asked, how many waits have expired, and how long they took together.
  datatype Tally = Tally(asked: nat, waits: nat, elapsed: int)

  // The reception asks responseDelayMs only when `receive` set no delay of its own.
  predicate Asks(e: Event) {
    e.Reschedule? || (e.Arm? && e.responseDelay == 0)
  }

  function Counted(t: Tally, s: State, e: Event): Tally {
    Tally(t.asked + Bit(Asks(e)), t.waits + Bit(e.Expire?), t.elapsed + if e.Expire? then s.m.delay else 0)
  }

  function TallyOf(run: seq<Event>): Tally {
    if run == [] then Tally(0, 0, 0) else Counted(TallyOf(Front(run)), After(Front(run)), Last(run))
  }

  // The event fits an application whose `receive` sets `delay` and whose responseDelayMs gives
  // `answers` in turn, with or without an io context for timers; and it does not close the stream.
  predicate Fits(e: Event, asked: nat, delay: nat, answers: nat -> int, timers: bool) {
    match e
    case Arm(d, first, t) => d == delay && (d == 0 ==> first == answers(0)) && t == timers
    case Reschedule(next) => next == answers(asked)
    case CloseBegins(_) => false
    case _ => true
  }

  predicate Obeys(run: seq<Event>, delay: nat, answers: nat -> int, timers: bool) {
    run == [] ||
    (Obeys(Front(run), delay, answers, timers) && Fits(Last(run), TallyOf(Front(run)).asked, delay, answers, timers))
  }

  // ---------- What each place says about the clock ----------

  predicate Unarmed(s: State) {
    s.ends == 0 || BeforeAnswer(s.at) + s.at.arming > 0
  }

  // A wait has begun, or is about to.
  predicate Delayed(s: State) {
    s.at.waiting > 0 || (s.at.committing > 0 && s.m.needTimer)
  }

  predicate Expired(s: State) {
    s.at.ready + s.at.rescheduling > 0
  }

  predicate Replied(s: State) {
    s.at.posted + s.at.ended + s.at.cancelled > 0
  }

  // On the way to the reply without a further wait.
  predicate Released(s: State) {
    (s.at.committing > 0 && !s.m.needTimer) || s.at.checking + s.at.posting > 0 || Replied(s)
  }

  // While the stream waits, the present wait ends at the delay plus all answers so far, which were
  // positive. Once it is released, the last answer was the first that was not.
  ghost predicate OnTime(s: State, t: Tally, delay: nat, answers: nat -> int) {
    && s.closing == Open
    && (Unarmed(s) ==> t == Tally(0, 0, 0) && !s.m.needTimer)
    && (Delayed(s) ==>
          && AllPositive(answers, t.asked)
          && t.elapsed + s.m.delay == delay + SumFirst(answers, t.asked)
          && t.waits + 1 == t.asked + Bit(delay > 0))
    && (Expired(s) ==>
          && AllPositive(answers, t.asked)
          && t.elapsed == delay + SumFirst(answers, t.asked)
          && t.waits == t.asked + Bit(delay > 0))
    && (Released(s) ==>
          && t.asked > 0
          && FirstRelease(answers, t.asked - 1)
          && t.elapsed == delay + SumFirst(answers, t.asked - 1)
          && t.waits == t.asked - 1 + Bit(delay > 0))
  }

  lemma ReceptionOnTime(s: State, t: Tally, e: Event, delay: nat, answers: nat -> int)
    requires Inv(s) && Enabled(s, e) && Fits(e, t.asked, delay, answers, true) && OnTime(s, t, delay, answers)
    requires OfReception(e)
    ensures OnTime(Apply(s, e), Counted(t, s, e), delay, answers)
  {
    assert SumFirst(answers, 1) == answers(0);
  }

  lemma ReplyOnTime(s: State, t: Tally, e: Event, delay: nat, answers: nat -> int)
    requires Inv(s) && Enabled(s, e) && Fits(e, t.asked, delay, answers, true) && OnTime(s, t, delay, answers)
    requires !OfReception(e)
    ensures OnTime(Apply(s, e), Counted(t, s, e), delay, answers)
  {}

  lemma StepOnTime(s: State, t: Tally, e: Event, delay: nat, answers: nat -> int)
    requires Inv(s) && Enabled(s, e) && Fits(e, t.asked, delay, answers, true) && OnTime(s, t, delay, answers)
    ensures OnTime(Apply(s, e), Counted(t, s, e), delay, answers)
  {
    if OfReception(e) {
      ReceptionOnTime(s, t, e, delay, answers);
    } else {
      ReplyOnTime(s, t, e, delay, answers);
    }
  }

  lemma {:induction false} RunOnTime(run: seq<Event>, delay: nat, answers: nat -> int)
    requires Execution(run) && Obeys(run, delay, answers, true)
    ensures OnTime(After(run), TallyOf(run), delay, answers)
  {
    if run != [] {
      RunOnTime(Front(run), delay, answers);
      RunKeepsInv(Front(run));
      StepOnTime(After(Front(run)), TallyOf(Front(run)), Last(run), delay, answers);
    }
  }

  ghost predicate ReleasedAt(s: State, t: Tally, delay: nat, answers: nat -> int, k: nat) {
    && t.asked <= k + 1 && t.waits <= k + Bit(delay > 0)
    && (Released(s) ==> t.elapsed == delay + SumFirst(answers, k) && t.waits == k + Bit(delay > 0))
  }

  lemma OnTimeMeans(s: State, t: Tally, delay: nat, answers: nat -> int, k: nat)
    requires Inv(s) && OnTime(s, t, delay, answers) && FirstRelease(answers, k)
    ensures ReleasedAt(s, t, delay, answers, k)
  {
    assert Unarmed(s) || Delayed(s) || Expired(s) || Released(s);
    if Released(s) {
      // The first answer that releases the reply is unique.
      assert t.asked - 1 == k;
    } else if !Unarmed(s) {
      assert t.asked <= k;
    }
  }

  /** In every run without a close, with an io context for timers: the reply is released after the
      reception's delay plus the answers before the first that asks for no delay, and after exactly one
      wait for each of these delays that is positive. */
  lemma PostedAtSumOfDelays(run: seq<Event>, delay: nat, answers: nat -> int, k: nat)
    requires Execution(run) && Obeys(run, delay, answers, true) && FirstRelease(answers, k)
    ensures ReleasedAt(After(run), TallyOf(run), delay, answers, k)
  {
    RunOnTime(run, delay, answers);
    RunKeepsInv(run);
    OnTimeMeans(After(run), TallyOf(run), delay, answers, k);
  }

  // ---------- The reply can always still be posted ----------

  function Onward(s: State, asked: nat, delay: nat, answers: nat -> int): Event {
    if s.ends == 0 then RequestEnds(1)
    else if s.at.numbering != [] then SetId
    else if s.at.dispatching > 0 then Dispatch(false)
    else if s.at.queued > 0 then Dequeue
    else if s.at.receiving > 0 then Judge(true)
    else if s.at.answering > 0 then Answer(200)
    else if s.at.arming > 0 then Arm(delay, answers(0), true)
    else if s.at.committing > 0 then TestTimer
    else if s.at.waiting > 0 then Expire
    else if s.at.ready > 0 then Fire
    else if s.at.rescheduling > 0 then Reschedule(answers(asked))
    else if s.at.checking > 0 then TestError
    else Post
  }

  // Places still to pass on the way to the reply, were there no further answer.
  function Remaining(s: State): nat {
    if s.ends == 0 then 13
    else if s.at.numbering != [] then 12
    else if s.at.dispatching > 0 then 11
    else if s.at.queued > 0 then 10
    else if s.at.receiving > 0 then 9
    else if s.at.answering > 0 then 8
    else if s.at.arming > 0 then 7
    else if s.at.committing > 0 then 6
    else if s.at.waiting > 0 then 5
    else if s.at.ready > 0 then 4
    else if s.at.rescheduling > 0 then 3
    else if s.at.checking > 0 then 2
    else 1
  }

  // Another answer has been asked, or the reply is nearer, or there.
  predicate Closer(s: State, asked: nat, next: State, askedNext: nat) {
    asked < askedNext || (asked == askedNext && (Replied(next) || Remaining(next) < Remaining(s)))
  }

  lemma StepOnward(s: State, t: Tally, delay: nat, answers: nat -> int) returns (e: Event)
    requires Inv(s) && OnTime(s, t, delay, answers) && !Replied(s)
    ensures Enabled(s, e) && Fits(e, t.asked, delay, answers, true)
    ensures Closer(s, t.asked, Apply(s, e), Counted(t, s, e).asked)
  {
    e := Onward(s, t.asked, delay, answers);
  }

  lemma ExtendObeying(run: seq<Event>, e: Event, delay: nat, answers: nat -> int) returns (longer: seq<Event>)
    requires Execution(run) && Obeys(run, delay, answers, true)
    requires Enabled(After(run), e) && Fits(e, TallyOf(run).asked, delay, answers, true)
    ensures run <= longer && Execution(longer) && Obeys(longer, delay, answers, true)
    ensures After(longer) == Apply(After(run), e) && TallyOf(longer) == Counted(TallyOf(run), After(run), e)
  {
    longer := Extend(run, e);
    assert Front(longer) == run && Last(longer) == e;
  }

  lemma OneStepOnward(run: seq<Event>, delay: nat, answers: nat -> int) returns (longer: seq<Event>)
    requires Execution(run) && Obeys(run, delay, answers, true) && !Replied(After(run))
    ensures run <= longer && Execution(longer) && Obeys(longer, delay, answers, true)
    ensures Closer(After(run), TallyOf(run).asked, After(longer), TallyOf(longer).asked)
  {
    RunKeepsInv(run);
    RunOnTime(run, delay, answers);
    var e := StepOnward(After(run), TallyOf(run), delay, answers);
    longer := ExtendObeying(run, e, delay, answers);
  }

  lemma ToReply(run: seq<Event>, delay: nat, answers: nat -> int, k: nat) returns (longer: seq<Event>)
    requires Execution(run) && Obeys(run, delay, answers, true) && FirstRelease(answers, k)
    ensures run <= longer && Execution(longer) && Obeys(longer, delay, answers, true) && Replied(After(longer))
    decreases k + 1 - TallyOf(run).asked, !Replied(After(run)), Remaining(After(run))
  {
    longer := run;
    if !Replied(After(run)) {
      longer := OneStepOnward(run, delay, answers);
      PostedAtSumOfDelays(longer, delay, answers, k);
      longer := ToReply(longer, delay, answers, k);
    }
  }

  // Some continuation of the run posts the reply.
  ghost predicate CanReply(run: seq<Event>, delay: nat, answers: nat -> int) {
    exists longer ::
      run <= longer && Execution(longer) && Obeys(longer, delay, answers, true) && Replied(After(longer))
  }

  /** Wherever a run without a close stands, the reply can still be posted exactly when some answer asks
      for no further delay. */
  lemma PostedIffReleased(run: seq<Event>, delay: nat, answers: nat -> int)
    requires Execution(run) && Obeys(run, delay, answers, true)
    ensures CanReply(run, delay, answers) <==> exists k: nat :: FirstRelease(answers, k)
  {
    if CanReply(run, delay, answers) {
      var longer :|
        run <= longer && Execution(longer) && Obeys(longer, delay, answers, true) && Replied(After(longer));
      RunOnTime(longer, delay, answers);
    }
    if k: nat :| FirstRelease(answers, k) {
      var longer := ToReply(run, delay, answers, k);
    }
  }

  predicate Timerless(s: State, t: Tally) {
    Waits(s.at) == 0 && !s.m.needTimer && t.waits == 0 && t.elapsed == 0
  }

  lemma TimerlessStays(s: State, t: Tally, e: Event, delay: nat, answers: nat -> int)
    requires Enabled(s, e) && Fits(e, t.asked, delay, answers, false) && Timerless(s, t)
    ensures Timerless(Apply(s, e), Counted(t, s, e))
  {}

  /** Without an io context for timers no delay is honoured: no run waits at all. */
  lemma {:induction false} PostedAtOnceWithoutTimers(run: seq<Event>, delay: nat, answers: nat -> int)
    requires Execution(run) && Obeys(run, delay, answers, false)
    ensures Timerless(After(run), TallyOf(run))
  {
    if run != [] {
      PostedAtOnceWithoutTimers(Front(run), delay, answers);
      TimerlessStays(After(Front(run)), TallyOf(Front(run)), Last(run), delay, answers);
    }
  }
}
