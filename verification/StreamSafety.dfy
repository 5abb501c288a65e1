/** What every run of a server stream keeps: one token for each end of a request, and no response
    head once the stream has ended. */
module StreamSafety {
  import opened ServerStream
  import opened Sequences

  // ---------- The commit token ----------

  function BeforeAnswer(p: Places): nat {
    |p.numbering| + p.dispatching + p.queued + p.receiving + p.answering
  }

  function Waits(p: Places): nat {
    p.waiting + p.ready + p.aborting + p.rescheduling
  }

  function AfterAnswer(p: Places): nat {
    p.arming + p.committing + p.checking + p.posting + Waits(p) + p.posted
  }

  function Done(p: Places): nat {
    p.ended + p.cancelled + p.discarded
  }

  // ---------- The invariant ----------

  predicate IsReply(a: Action) {
    a.WriteHead? || a.Cancel?
  }

  predicate IsEnd(a: Action) {
    a.Errored? || a.Closed?
  }

  predicate HeadAfterEnd(log: seq<Action>) {
    exists i, j :: 0 <= i < j < |log| && IsEnd(log[i]) && log[j].WriteHead?
  }

  // One token for each end of a request, at one place.
  ghost predicate TokenInv(s: State) {
    Total(s.at) == s.ends <= 1
  }

  // The flags follow the close, and a timer that is needed or waited on exists.
  ghost predicate FlagInv(s: State) {
    && s.m.error == (s.closing.Over? && s.closing.code != 0)
    && s.m.closed == (s.closing.Over? && s.closing.code == 0)
    && (s.m.needTimer || Waits(s.at) > 0 ==> s.m.hasTimer)
    && (s.at.aborting + s.at.discarded > 0 ==> s.closing != Open)
  }

  // The thread of the stream that is in on_data stands in the reception or the commit, and the stream
  // is not closed before it has left.
  ghost predicate ThreadInv(s: State) {
    && (s.inline ==> BeforeAnswer(s.at) + s.at.arming + s.at.committing + s.at.checking + s.at.posting > 0)
    && (s.closing != Open ==> !InOnData(s))
  }

  // The status is the reception's answer, and from the check of error_ on also the code of an error.
  ghost predicate StatusInv(s: State) {
    && (AfterAnswer(s.at) > 0 && !s.m.error ==> s.m.statusCode == s.answer)
    && (s.at.posting + s.at.posted > 0 && s.closing.Over? && s.closing.code != 0 ==> s.m.statusCode == s.closing.code)
  }

  function EndOf(closing: Closing): seq<Action> {
    if !closing.Over? then [] else if closing.code != 0 then [Errored(closing.code)] else [Closed]
  }

  // The reply, if any, carries the reception's answer and precedes the end of the stream; or it
  // follows an error and carries its code.
  ghost predicate LogInv(s: State) {
    && s.at.ended + s.at.cancelled <= 1
    && (s.at.ended + s.at.cancelled == 0 ==> s.log == EndOf(s.closing))
    && (s.at.ended + s.at.cancelled == 1 ==> RepliedFirst(s) || RepliedAfterError(s))
  }

  ghost predicate RepliedFirst(s: State) {
    s.log == [ReplyOf(s.answer)] + EndOf(s.closing) && (s.at.ended == 1 <==> s.answer >= 100)
  }

  ghost predicate RepliedAfterError(s: State) {
    && s.closing.Over? && s.closing.code != 0
    && s.log == [Errored(s.closing.code), ReplyOf(s.closing.code)]
    && (s.at.ended == 1 <==> s.closing.code >= 100)
  }

  ghost predicate Inv(s: State) {
    TokenInv(s) && FlagInv(s) && ThreadInv(s) && StatusInv(s) && LogInv(s)
  }

  function Total(p: Places): nat {
    BeforeAnswer(p) + AfterAnswer(p) + Done(p)
  }

  // Every event moves one token from one place to another; only an end of request brings one in.
  lemma StepMovesToken(s: State, e: Event)
    requires Enabled(s, e)
    ensures Total(Apply(s, e).at) == Total(s.at) + if e.RequestEnds? then 1 else 0
  {
    if OfArrival(e) {
      ArrivalMovesToken(s, e);
    } else if OfReception(e) {
      ReceptionMovesToken(s, e);
    } else {
      ReplyMovesToken(s, e);
    }
  }

  predicate OfArrival(e: Event) {
    e.RequestEnds? || e.SetId? || e.Dispatch? || e.Dequeue?
  }

  predicate OfReception(e: Event) {
    OfArrival(e) || e.Judge? || e.Answer? || e.Arm? || e.TestTimer?
  }

  lemma ArrivalMovesToken(s: State, e: Event)
    requires Enabled(s, e) && OfArrival(e)
    ensures Total(Apply(s, e).at) == Total(s.at) + if e.RequestEnds? then 1 else 0
  {}

  lemma ReceptionMovesToken(s: State, e: Event)
    requires Enabled(s, e) && OfReception(e) && !OfArrival(e)
    ensures Total(Apply(s, e).at) == Total(s.at)
  {}

  lemma ReplyMovesToken(s: State, e: Event)
    requires Enabled(s, e) && !OfReception(e)
    ensures Total(Apply(s, e).at) == Total(s.at)
  {}

  lemma StepKeepsToken(s: State, e: Event)
    requires Inv(s) && Enabled(s, e)
    ensures TokenInv(Apply(s, e))
  {
    StepMovesToken(s, e);
  }

  lemma StepKeepsFlags(s: State, e: Event)
    requires Inv(s) && Enabled(s, e)
    ensures FlagInv(Apply(s, e))
  {
    if OfReception(e) {
      ReceptionKeepsFlags(s, e);
    } else {
      ReplyKeepsFlags(s, e);
    }
  }

  lemma ReceptionKeepsFlags(s: State, e: Event)
    requires TokenInv(s) && FlagInv(s) && Enabled(s, e) && OfReception(e)
    ensures FlagInv(Apply(s, e))
  {}

  lemma ReplyKeepsFlags(s: State, e: Event)
    requires TokenInv(s) && FlagInv(s) && Enabled(s, e) && !OfReception(e)
    ensures FlagInv(Apply(s, e))
  {}

  lemma StepKeepsThread(s: State, e: Event)
    requires TokenInv(s) && ThreadInv(s) && Enabled(s, e)
    ensures ThreadInv(Apply(s, e))
  {}

  lemma StepKeepsStatus(s: State, e: Event)
    requires Inv(s) && Enabled(s, e)
    ensures StatusInv(Apply(s, e))
  {}

  lemma StepKeepsLog(s: State, e: Event)
    requires Inv(s) && Enabled(s, e)
    ensures LogInv(Apply(s, e))
  {
    var t := Apply(s, e);
    if e.RunReply? {
      ReplyKeepsLog(s);
    } else if e.CloseEnds? {
      assert s.log == EndOf(s.closing) || s.log == [ReplyOf(s.answer)];
    } else {
      assert t.log == s.log && EndOf(t.closing) == EndOf(s.closing);
      assert t.answer == s.answer || s.at.ended + s.at.cancelled == 0;
    }
  }

  lemma ReplyKeepsLog(s: State)
    requires Inv(s) && Enabled(s, RunReply)
    ensures LogInv(Apply(s, RunReply))
  {
    assert s.log == EndOf(s.closing);
    assert Reply(s.m) == if s.m.closed then [] else [ReplyOf(s.m.statusCode)];
  }

  lemma StepKeepsInv(s: State, e: Event)
    requires Inv(s) && Enabled(s, e)
    ensures Inv(Apply(s, e))
  {
    StepKeepsToken(s, e);
    StepKeepsFlags(s, e);
    StepKeepsThread(s, e);
    StepKeepsStatus(s, e);
    StepKeepsLog(s, e);
  }

  lemma NewIsGood()
    ensures Inv(NEW)
  {
    NewToken();
    NewFlags();
    NewLog();
  }

  lemma NewToken()
    ensures TokenInv(NEW)
  {}

  lemma NewFlags()
    ensures FlagInv(NEW) && ThreadInv(NEW) && StatusInv(NEW)
  {}

  lemma NewLog()
    ensures LogInv(NEW)
  {}

  lemma {:induction false} RunKeepsInv(run: seq<Event>)
    ensures Inv(After(run))
  {
    if run == [] {
      NewIsGood();
    } else {
      RunKeepsInv(Front(run));
      var s, e := After(Front(run)), Last(run);
      if Enabled(s, e) {
        StepKeepsInv(s, e);
      }
    }
  }

  // ---------- One token, one reply ----------

  /** A stream whose request has ended stands at exactly one place, and no other at any: through every
      dispatch, timer wait, rescheduling and nested commit, the places hold as many tokens as requests
      have ended, and that is at most one. */
  lemma OneCommitToken(run: seq<Event>)
    ensures Total(After(run).at) == After(run).ends <= 1
  {
    RunKeepsInv(run);
  }

  /** At most one reply is given; a reply given before the end of the stream carries the status that
      the reception answered with; and nothing at all follows a close without error. The timer that
      commit waits on exists. */
  lemma OneTrueReply(run: seq<Event>)
    ensures var log := After(run).log;
            && (forall i, j | 0 <= i < |log| && 0 <= j < |log| && IsReply(log[i]) && IsReply(log[j]) :: i == j)
            && (forall i | 0 <= i < |log| && IsReply(log[i]) && !IsEnd(log[0]) ::
                  log[i] == ReplyOf(After(run).answer))
            && (forall i | 0 <= i < |log| && log[i] == Closed :: i == |log| - 1)
    ensures After(run).m.needTimer ==> After(run).m.hasTimer
  {
    RunKeepsInv(run);
  }

  // The statuses that the reception of the stream answers with in the run.
  function Answers(run: seq<Event>): seq<nat> {
    if run == [] then [] else Answers(Front(run)) + if Last(run).Answer? then [Last(run).status] else []
  }

  predicate Answered(s: State) {
    BeforeAnswer(s.at) < s.ends
  }

  // There is one such status as soon as the request has passed its reception, and none before.
  lemma {:induction false} AnswerOfRun(run: seq<Event>)
    requires Execution(run)
    ensures Answers(run) == if Answered(After(run)) then [After(run).answer] else []
  {
    if run == [] {
      NewIsUnanswered();
    } else {
      AnswerOfRun(Front(run));
      RunKeepsInv(Front(run));
      StepKeepsAnswer(After(Front(run)), Last(run));
      StepAnswers(After(Front(run)), Last(run));
    }
  }

  lemma NewIsUnanswered()
    ensures !Answered(NEW)
  {}

  lemma StepKeepsAnswer(s: State, e: Event)
    requires Enabled(s, e)
    ensures Apply(s, e).answer == if e.Answer? then e.status else s.answer
  {}

  lemma StepAnswers(s: State, e: Event)
    requires Inv(s) && Enabled(s, e)
    ensures Answered(Apply(s, e)) <==> Answered(s) || e.Answer?
    ensures e.Answer? ==> !Answered(s)
  {}

  // The status or code that a reply carries.
  function Carried(a: Action): nat
    requires IsReply(a)
  {
    if a.WriteHead? then a.status else a.code
  }

  /** What is written to the peer, whatever the interleaving. A reply before the end of the stream
      carries the status that the run answered with, and a reply after an error carries its code; it is
      a head exactly from 100 on, and a reset below. The end itself is logged with the close's code. */
  lemma ReplyCarriesStatus(run: seq<Event>, i: nat)
    requires Execution(run) && i < |After(run).log|
    ensures var s := After(run); var a := s.log[i];
            && (IsReply(a) && !IsEnd(s.log[0]) ==> Answers(run) == [Carried(a)])
            && (IsReply(a) && IsEnd(s.log[0]) ==> s.closing == Over(Carried(a)) && Carried(a) != 0)
            && (IsReply(a) ==> (a.WriteHead? <==> Carried(a) >= 100))
            && (a.Errored? ==> s.closing == Over(a.code) && a.code != 0)
            && (a.Closed? ==> s.closing == Over(0))
  {
    RunKeepsInv(run);
    AnswerOfRun(run);
    LogSays(After(run), i);
  }

  lemma LogSays(s: State, i: nat)
    requires Inv(s) && i < |s.log|
    ensures var a := s.log[i];
            && (IsReply(a) && !IsEnd(s.log[0]) ==> Carried(a) == s.answer && Answered(s))
            && (IsReply(a) && IsEnd(s.log[0]) ==> s.closing == Over(Carried(a)) && Carried(a) != 0)
            && (IsReply(a) ==> (a.WriteHead? <==> Carried(a) >= 100))
            && (a.Errored? ==> s.closing == Over(a.code) && a.code != 0)
            && (a.Closed? ==> s.closing == Over(0))
  {
    if s.at.ended + s.at.cancelled == 0 {
      assert s.log == EndOf(s.closing);
    } else if RepliedFirst(s) {
      assert s.log[0] == ReplyOf(s.answer);
    }
  }

  predicate InTransit(s: State) {
    BeforeAnswer(s.at) + AfterAnswer(s.at) > 0
  }

  /** When nothing is in transit any more, the reply was given or dropped, one of the two; and it was
      dropped only if the close of the stream had begun. */
  lemma ReplyNotLost(run: seq<Event>)
    requires After(run).ends == 1 && !InTransit(After(run))
    ensures var s := After(run); s.at.ended + s.at.cancelled + s.at.discarded == 1
    ensures var s := After(run); s.closing == Open ==> s.log == [ReplyOf(s.answer)]
  {
    RunKeepsInv(run);
  }

  // Events that the peer, or the end of a wait, brings about.
  predicate FromOutside(e: Event) {
    e.RequestEnds? || e.CloseBegins? || e.Expire?
  }

  /** While anything is in transit, or a close is under way, some thread can take a step, or the timer
      that is waited on can expire. */
  lemma NeverStuck(run: seq<Event>)
    requires InTransit(After(run)) || After(run).closing.Cancelling?
    ensures exists e :: Enabled(After(run), e) && (!FromOutside(e) || e == Expire)
  {
    RunKeepsInv(run);
    CanMove(After(run));
  }

  lemma CanMove(s: State)
    requires Inv(s) && (InTransit(s) || s.closing.Cancelling?)
    ensures exists e :: Enabled(s, e) && (!FromOutside(e) || e == Expire)
  {
    var p := s.at;
    var e := if s.closing.Cancelling? then CloseEnds
             else if p.numbering != [] then SetId else if p.dispatching > 0 then Dispatch(true)
             else if p.queued > 0 then Dequeue else if p.receiving > 0 then Judge(true)
             else if p.answering > 0 then Answer(200) else if p.arming > 0 then Arm(0, 0, true)
             else if p.committing > 0 then TestTimer else if p.checking > 0 then TestError
             else if p.posting > 0 then Post else if p.waiting > 0 then Expire
             else if p.ready > 0 then Fire else if p.aborting > 0 then Abort
             else if p.rescheduling > 0 then Reschedule(0) else RunReply;
    assert Enabled(s, e);
  }

  predicate OfIoThread(e: Event) {
    e.RequestEnds? || e.SetId? || e.Dispatch? || e.RunReply? || e.CloseBegins? || e.CloseEnds?
  }

  /** What runs on the stream's io thread runs alone: on_close is not interrupted by a reply, and a
      reply or a close waits until on_data has left the thread. */
  lemma IoThreadRunsAlone(run: seq<Event>, e: Event)
    requires Enabled(After(run), e) && OfIoThread(e)
    ensures After(run).closing.Cancelling? ==> e == CloseEnds
    ensures InOnData(After(run)) ==> e.SetId? || e.Dispatch?
  {
    RunKeepsInv(run);
    IoThreadGoesOn(After(run), e);
  }

  lemma IoThreadGoesOn(s: State, e: Event)
    requires Inv(s) && Enabled(s, e) && OfIoThread(e)
    ensures s.closing.Cancelling? ==> e == CloseEnds
    ensures InOnData(s) ==> e.SetId? || e.Dispatch?
  {}

  // ---------- No response head after the end of the stream ----------

  // Some run in which the stream closes with this code writes a response head after its end.
  ghost predicate CanHeadAfterEnd(code: nat) {
    exists run :: Execution(run) && CloseBegins(code) in run && HeadAfterEnd(After(run).log)
  }

  lemma StepKeepsClose(s: State, e: Event, code: nat)
    requires Enabled(s, e)
    requires e == CloseBegins(code) || (s.closing != Open && s.closing.code == code)
    ensures Apply(s, e).closing != Open && Apply(s, e).closing.code == code
  {}

  lemma {:induction false} CloseCodeOfRun(run: seq<Event>, code: nat)
    requires Execution(run) && CloseBegins(code) in run
    ensures After(run).closing != Open && After(run).closing.code == code
  {
    var e, prior := Last(run), Front(run);
    assert run == prior + [e];
    if CloseBegins(code) in prior {
      CloseCodeOfRun(prior, code);
    }
    StepKeepsClose(After(prior), e, code);
  }

  lemma HeadAfterEndMeansCode(run: seq<Event>)
    requires HeadAfterEnd(After(run).log)
    ensures After(run).closing.Over? && After(run).closing.code >= 100
  {
    RunKeepsInv(run);
  }

  lemma Extend(run: seq<Event>, e: Event) returns (longer: seq<Event>)
    requires Execution(run) && Enabled(After(run), e)
    ensures longer == run + [e] && Execution(longer) && After(longer) == Apply(After(run), e)
  {
    longer := run + [e];
    assert longer[..|longer| - 1] == run;
  }

  // A worker that answers 200 without delay, stopped between the check of error_ and the post.
  lemma UpToPost() returns (run: seq<Event>)
    ensures Execution(run)
    ensures After(run)
            == State(FRESH.(statusCode := 200, receptionId := 1), NOWHERE.(posting := 1), Open, false, 1, 1, 200, [])
  {
    run := UpToAnswer();
    run := Extend(run, Arm(0, 0, false));
    run := Extend(run, TestTimer);
    run := Extend(run, TestError);
  }

  lemma UpToReception() returns (run: seq<Event>)
    ensures Execution(run)
    ensures After(run) == State(FRESH.(receptionId := 1), NOWHERE.(receiving := 1), Open, false, 1, 1, 0, [])
  {
    run := Extend([], RequestEnds(1));
    assert After(run).at == NOWHERE.(numbering := [1]);
    run := Extend(run, SetId);
    assert After(run).at == NOWHERE.(dispatching := 1);
    run := Extend(run, Dispatch(false));
    assert After(run).at == NOWHERE.(queued := 1);
    run := Extend(run, Dequeue);
  }

  lemma UpToAnswer() returns (run: seq<Event>)
    ensures Execution(run)
    ensures After(run)
            == State(FRESH.(statusCode := 200, receptionId := 1), NOWHERE.(arming := 1), Open, false, 1, 1, 200, [])
  {
    run := UpToReception();
    run := Extend(run, Judge(true));
    run := Extend(run, Answer(200));
  }

  lemma UpToLateError(code: nat) returns (run: seq<Event>)
    requires code >= 100
    ensures Execution(run) && CloseBegins(code) in run
    ensures After(run).closing == Over(code) && After(run).at.posting == 1
  {
    run := UpToPost();
    run := Extend(run, CloseBegins(code));
    run := Extend(run, CloseEnds);
  }

  lemma ReplyAfterError(run: seq<Event>) returns (longer: seq<Event>)
    requires Execution(run) && After(run).closing.Over? && After(run).closing.code >= 100
    requires After(run).at.posted > 0
    ensures run <= longer && Execution(longer) && HeadAfterEnd(After(longer).log)
  {
    RunKeepsInv(run);
    var code := After(run).closing.code;
    assert After(run).log == [Errored(code)];
    longer := Extend(run, RunReply);
    var log := After(longer).log;
    assert log == [Errored(code), WriteHead(code)];
    assert IsEnd(log[0]) && log[1].WriteHead?;
  }

  lemma HeadAfterError(run: seq<Event>) returns (longer: seq<Event>)
    requires Execution(run) && After(run).closing.Over? && After(run).closing.code >= 100
    requires After(run).at.posting + After(run).at.posted > 0
    ensures run <= longer && Execution(longer) && HeadAfterEnd(After(longer).log)
  {
    longer := run;
    if After(run).at.posting > 0 {
      longer := Extend(run, Post);
    }
    longer := ReplyAfterError(longer);
  }

  lemma LateErrorOverwritesStatus(code: nat)
    requires code >= 100
    ensures CanHeadAfterEnd(code)
  {
    var run := UpToLateError(code);
    run := HeadAfterError(run);
  }

  /** Whatever the interleaving, no response head follows the end of the stream, provided its error
      code is below 100, as the codes of section 7 of RFC 7540 are; and for every other code some run
      writes one, with the code as its status: the posted reply tests closed_ and the status only. */
  lemma HeadAfterEndIffLargeCode(code: nat)
    ensures CanHeadAfterEnd(code) <==> code >= 100
  {
    if CanHeadAfterEnd(code) {
      var run :| Execution(run) && CloseBegins(code) in run && HeadAfterEnd(After(run).log);
      CloseCodeOfRun(run, code);
      HeadAfterEndMeansCode(run);
    }
    if code >= 100 {
      LateErrorOverwritesStatus(code);
    }
  }

  // Some continuation of the run writes a response head after the end of the stream.
  ghost predicate CanHeadLater(run: seq<Event>) {
    exists longer :: run <= longer && Execution(longer) && HeadAfterEnd(After(longer).log)
  }

  // Ended by an error, with no reply that has passed the check of error_ and is still to run.
  ghost predicate Silenced(s: State, code: nat) {
    code != 0 && s.closing == Over(code) && s.at.posting + s.at.posted == 0 && !HeadAfterEnd(s.log)
  }

  lemma StepKeepsSilence(s: State, e: Event, code: nat)
    requires Inv(s) && Enabled(s, e) && Silenced(s, code)
    ensures Silenced(Apply(s, e), code)
  {
    assert Apply(s, e).log == s.log;
  }

  lemma {:induction false} StaysSilent(run: seq<Event>, longer: seq<Event>, code: nat)
    requires run <= longer && Silenced(After(run), code)
    ensures Silenced(After(longer), code)
    decreases |longer|
  {
    if |longer| == |run| {
      assert longer == run;
    } else {
      StaysSilent(run, Front(longer), code);
      RunKeepsInv(Front(longer));
      if Enabled(After(Front(longer)), Last(longer)) {
        StepKeepsSilence(After(Front(longer)), Last(longer), code);
      }
    }
  }

  lemma {:induction false} EndStays(run: seq<Event>, longer: seq<Event>)
    requires run <= longer && After(run).closing.Over?
    ensures After(longer).closing == After(run).closing
    decreases |longer|
  {
    if |longer| == |run| {
      assert longer == run;
    } else {
      EndStays(run, Front(longer));
    }
  }

  lemma NothingFollowsYet(s: State)
    requires Inv(s) && Enabled(s, CloseEnds)
    ensures var t := Apply(s, CloseEnds); t.closing.Over? && !HeadAfterEnd(t.log)
  {
    assert s.log == [] || s.log == [ReplyOf(s.answer)];
  }

  lemma EndIsLast(run: seq<Event>)
    requires Execution(run) && run != [] && Last(run) == CloseEnds
    ensures After(run).closing.Over? && !HeadAfterEnd(After(run).log)
  {
    RunKeepsInv(Front(run));
    NothingFollowsYet(After(Front(run)));
  }

  /** In one run: when an error has just ended the stream, a response head still follows in some
      continuation exactly when the code is 100 or more and the reply has passed the check of error_
      but has not run yet. */
  lemma HeadFollowsIffReplyUnderWay(run: seq<Event>)
    requires Execution(run) && run != [] && Last(run) == CloseEnds && After(run).closing.code != 0
    ensures var s := After(run);
            CanHeadLater(run) <==> s.closing.code >= 100 && s.at.posting + s.at.posted > 0
  {
    EndIsLast(run);
    var s := After(run);
    if CanHeadLater(run) {
      var longer :| run <= longer && Execution(longer) && HeadAfterEnd(After(longer).log);
      EndStays(run, longer);
      HeadAfterEndMeansCode(longer);
      if s.at.posting + s.at.posted == 0 {
        StaysSilent(run, longer, s.closing.code);
      }
    }
    if s.closing.code >= 100 && s.at.posting + s.at.posted > 0 {
      var longer := HeadAfterError(run);
    }
  }

  // ---------- Timer waits and the close of the stream ----------

  // The close cancels the wait it finds, so at that instant none is left that could expire.
  lemma CloseCancelsWait(s: State, code: nat)
    requires FlagInv(s) && Enabled(s, CloseBegins(code))
    ensures var q := Apply(s, CloseBegins(code)).at; q.waiting == 0 && q.aborting == s.at.aborting + s.at.waiting
    ensures WaitAhead(Apply(s, CloseBegins(code))) <==> WaitAhead(s)
  {}

  // The token stands where a timer wait still lies ahead.
  predicate WaitAhead(s: State) {
    || s.at.queued + s.at.receiving + s.at.answering + s.at.arming + s.at.ready + s.at.rescheduling > 0
    || (s.at.committing > 0 && s.m.needTimer)
  }

  lemma NoWaitAheadStays(s: State, e: Event)
    requires Inv(s) && Enabled(s, e) && s.closing != Open && s.at.waiting == 0 && !WaitAhead(s)
    ensures Apply(s, e).closing != Open && Apply(s, e).at.waiting == 0 && !WaitAhead(Apply(s, e))
  {
    if OfReception(e) {
      assert e.TestTimer?;
    }
  }

  lemma {:induction false} NoWaitBegins(run: seq<Event>, longer: seq<Event>)
    requires run <= longer && After(run).closing != Open && After(run).at.waiting == 0 && !WaitAhead(After(run))
    ensures After(longer).closing != Open && After(longer).at.waiting == 0 && !WaitAhead(After(longer))
    decreases |longer|
  {
    if |longer| == |run| {
      assert longer == run;
    } else {
      NoWaitBegins(run, Front(longer));
      RunKeepsInv(Front(longer));
      if Enabled(After(Front(longer)), Last(longer)) {
        NoWaitAheadStays(After(Front(longer)), Last(longer));
      }
    }
  }

  // The next event on the way to a timer wait, and how many there are.
  function Towards(s: State): Event {
    if s.at.queued > 0 then Dequeue
    else if s.at.receiving > 0 then Judge(true)
    else if s.at.answering > 0 then Answer(200)
    else if s.at.arming > 0 then Arm(1, 0, true)
    else if s.at.ready > 0 then Fire
    else if s.at.rescheduling > 0 then Reschedule(1)
    else TestTimer
  }

  function Distance(s: State): nat {
    if s.at.queued > 0 then 6
    else if s.at.receiving > 0 then 5
    else if s.at.answering > 0 then 4
    else if s.at.arming > 0 || s.at.ready > 0 then 3
    else if s.at.rescheduling > 0 then 2
    else 1
  }

  predicate Nearer(s: State, t: State) {
    t.at.waiting > 0 || (WaitAhead(t) && Distance(t) < Distance(s))
  }

  lemma StepTowards(s: State)
    requires Inv(s) && WaitAhead(s) && s.at.waiting == 0
    ensures Enabled(s, Towards(s)) && Nearer(s, Apply(s, Towards(s)))
  {}

  lemma OneStepTowards(run: seq<Event>) returns (longer: seq<Event>)
    requires Execution(run) && WaitAhead(After(run)) && After(run).at.waiting == 0
    ensures run <= longer && Execution(longer) && Nearer(After(run), After(longer))
  {
    RunKeepsInv(run);
    StepTowards(After(run));
    longer := Extend(run, Towards(After(run)));
  }

  lemma WaitCanBegin(run: seq<Event>) returns (longer: seq<Event>)
    requires Execution(run) && WaitAhead(After(run)) && After(run).at.waiting == 0
    ensures run <= longer && Execution(longer) && After(longer).at.waiting > 0
    decreases Distance(After(run))
  {
    longer := OneStepTowards(run);
    if After(longer).at.waiting == 0 {
      longer := WaitCanBegin(longer);
    }
  }

  // Some continuation of the run has the stream wait on its timer.
  ghost predicate CanWait(run: seq<Event>) {
    exists longer :: run <= longer && Execution(longer) && After(longer).at.waiting > 0
  }

  lemma CanWaitIffAhead(run: seq<Event>)
    requires Execution(run) && After(run).closing != Open && After(run).at.waiting == 0
    ensures CanWait(run) <==> WaitAhead(After(run))
  {
    if WaitAhead(After(run)) {
      var longer := WaitCanBegin(run);
    }
    if CanWait(run) {
      var longer :| run <= longer && Execution(longer) && After(longer).at.waiting > 0;
      if !WaitAhead(After(run)) {
        NoWaitBegins(run, longer);
      }
    }
  }

  lemma CloseLeavesAhead(run: seq<Event>)
    requires Execution(run) && run != [] && Last(run).CloseBegins?
    ensures After(run).closing != Open && After(run).at.waiting == 0
    ensures WaitAhead(After(run)) <==> WaitAhead(After(Front(run)))
  {
    RunKeepsInv(Front(run));
    CloseCancelsWait(After(Front(run)), Last(run).code);
  }

  /** Take a run up to the beginning of the close. A timer wait begins in some continuation exactly
      when one lay ahead of the token just before: a worker or the timer's handler has it, and
      cancelTimer reaches the wait it finds and none that commit starts later. */
  lemma WaitAfterCloseIff(run: seq<Event>)
    requires Execution(run) && run != [] && Last(run).CloseBegins?
    ensures CanWait(run) <==> WaitAhead(After(Front(run)))
  {
    CloseLeavesAhead(run);
    CanWaitIffAhead(run);
  }

  /** So a stream that is already closed can be left waiting on its timer. */
  lemma ClosedStreamWaits() returns (run: seq<Event>)
    ensures Execution(run) && After(run).closing == Over(0) && After(run).at.waiting == 1
  {
    run := UpToAnswer();
    run := Extend(run, CloseBegins(0));
    run := Extend(run, CloseEnds);
    run := Extend(run, Arm(5, 0, true));
    run := Extend(run, TestTimer);
  }

  // ---------- The steps of a commit ----------

  /** The two tests that commit makes, with nothing in between, decide as Committed says. */
  lemma CommitInSteps(s: State)
    requires s.at.committing > 0
    ensures var t := Apply(s, TestTimer);
            if Committed(s.m) == AwaitTimer
            then t.at == s.at.(committing := s.at.committing - 1, waiting := s.at.waiting + 1)
            else Enabled(t, TestError) &&
                 Apply(t, TestError).at ==
                 if Committed(s.m) == Discard
                 then s.at.(committing := s.at.committing - 1, discarded := s.at.discarded + 1)
                 else s.at.(committing := s.at.committing - 1, posting := s.at.posting + 1)
  {}
}
