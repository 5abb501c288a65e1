/** One stream of the server (Stream, and its part in Http2Server::handler): from the end of the
    request to the reply, on a worker thread, a timers thread and the stream's own io thread, racing
    with the close of the stream. */
module ServerStream {
  import opened Sequences

  // ---------- The members of a stream that its threads share ----------

  datatype Members = Members(
    closed: bool, error: bool, statusCode: nat, needTimer: bool,
    hasTimer: bool, delay: int, receptionId: nat)

  const FRESH := Members(false, false, 0, false, false, 0, 0)

  // The delay of an answer: the one `receive` asked for, or else the first of responseDelayMs, and no
  // delay without an io context for timers.
  function Armed(m: Members, responseDelay: nat, first: int, timers: bool): Members {
    if responseDelay != 0 then
      if timers then m.(hasTimer := true, delay := responseDelay, needTimer := true) else m
    else if first > 0 && timers then m.(hasTimer := true, delay := first, needTimer := true)
    else m
  }

  // The timer has expired and responseDelayMs is asked again.
  function Rescheduled(m: Members, next: int): Members {
    m.(needTimer := next > 0, delay := if next > 0 then next else m.delay)
  }

  function Ended(m: Members, code: nat): Members {
    if code != 0 then m.(error := true, statusCode := code) else m.(closed := true)
  }

  datatype Choice = AwaitTimer | Discard | PostReply

  function Committed(m: Members): Choice {
    if m.needTimer then AwaitTimer else if m.error then Discard else PostReply
  }

  // What is done to the peer, and what the peer or the transport does to the stream.
  datatype Action = WriteHead(status: nat) | Cancel(code: nat) | Errored(code: nat) | Closed

  function ReplyOf(status: nat): Action {
    if status < 100 then Cancel(status) else WriteHead(status)
  }

  function Reply(m: Members): seq<Action> {
    if m.closed then [] else [ReplyOf(m.statusCode)]
  }

  // ---------- The checks of a reception ----------

  // Whether each check of Stream::reception passes, in the order in which they are made.
  datatype Checks = Checks(uncongested: bool, allowed: bool, implemented: bool, headers: bool, api: bool)

  const SERVICE_UNAVAILABLE := 503
  const METHOD_NOT_ALLOWED := 405
  const METHOD_NOT_IMPLEMENTED := 501
  const UNSUPPORTED_MEDIA_TYPE := 415
  const WRONG_API_NAME_OR_VERSION := 400

  function Passed(k: Checks): seq<bool> {
    [k.uncongested, k.allowed, k.implemented, k.headers, k.api]
  }

  // The error status of each check.
  const FAILURES: seq<nat> :=
    [SERVICE_UNAVAILABLE, METHOD_NOT_ALLOWED, METHOD_NOT_IMPLEMENTED, UNSUPPORTED_MEDIA_TYPE, WRONG_API_NAME_OR_VERSION]

  ghost predicate FirstFailed(k: Checks, i: nat) {
    i < 5 && !Passed(k)[i] && forall j | 0 <= j < i :: Passed(k)[j]
  }

  // Http2Server keeps the limit of its constructor, or -1 for anything below.
  function QueueLimit(given: int): int {
    if given >= -1 then given else -1
  }

  function Congested(limit: int, busyConsumers: bool, queueSize: int): bool {
    limit >= 0 && busyConsumers && queueSize > limit
  }

  lemma NegativeLimitNeverCongests(given: int, busyConsumers: bool, queueSize: int)
    ensures Congested(QueueLimit(given), busyConsumers, queueSize) <==>
            given >= 0 && busyConsumers && queueSize > given
  {}

  // ---------- The methods of the original ----------

  class Stream {
    var closed: bool
    var error: bool
    var statusCode: nat
    var needTimer: bool
    var hasTimer: bool
    var delay: int
    var receptionId: nat

    constructor ()
      ensures Value() == FRESH
    {
      closed, error, statusCode, needTimer := false, false, 0, false;
      hasTimer, delay, receptionId := false, 0, 0;
    }

    function Value(): Members
      reads this
    {
      Members(closed, error, statusCode, needTimer, hasTimer, delay, receptionId)
    }

    // `answer` and `responseDelay` are what `receive` fills in, `first` what responseDelayMs returns.
    method Reception(k: Checks, answer: nat, responseDelay: nat, first: int, timers: bool) returns (accepted: bool)
      modifies this
      ensures accepted <==> k == Checks(true, true, true, true, true)
      ensures statusCode == if !k.uncongested then 503 else if !k.allowed then 405
                            else if !k.implemented then 501 else if !k.headers then 415
                            else if !k.api then 400 else answer
      ensures accepted ==> Value() == Armed(old(Value()).(statusCode := answer), responseDelay, first, timers)
      ensures !accepted ==> exists i: nat :: FirstFailed(k, i) &&
                                        Value() == Armed(old(Value()).(statusCode := FAILURES[i]), 0, first, timers)
    {
      accepted := false;
      var responseDelayMs := 0;
      ghost var failed: nat := if !k.uncongested then 0 else if !k.allowed then 1
                               else if !k.implemented then 2 else if !k.headers then 3 else 4;
      assert FirstFailed(k, failed) || (Passed(k)[4] && failed == 4);
      if !k.uncongested {
        statusCode := SERVICE_UNAVAILABLE;
      } else if !k.allowed {
        statusCode := METHOD_NOT_ALLOWED;
      } else if !k.implemented {
        statusCode := METHOD_NOT_IMPLEMENTED;
      } else {
        if k.headers {
          if !k.api {
            statusCode := WRONG_API_NAME_OR_VERSION;
          } else {
            accepted := true;
            statusCode := answer;
            responseDelayMs := responseDelay;
          }
        } else {
          statusCode := UNSUPPORTED_MEDIA_TYPE;
        }
      }
      ArmTimer(responseDelayMs, first, timers);
    }

    // The last part of the reception.
    method ArmTimer(responseDelayMs: nat, first: int, timers: bool)
      modifies this
      ensures Value() == Armed(old(Value()), responseDelayMs, first, timers)
    {
      if responseDelayMs != 0 {
        if timers {
          hasTimer, delay := true, responseDelayMs;
          needTimer := true;
        }
      } else if first > 0 {
        if timers {
          hasTimer, delay := true, first;
          needTimer := true;
        }
      }
    }

    method Commit() returns (choice: Choice)
      requires needTimer ==> hasTimer
      ensures choice == Committed(Value())
    {
      if needTimer {
        return AwaitTimer;
      }
      if error {
        return Discard;
      }
      return PostReply;
    }

    // The handler of the timer wait, which ends in a commit of its own.
    method OnTimer(aborted: bool, next: int) returns (choice: Choice)
      requires hasTimer
      modifies this
      ensures Value() == if aborted then old(Value()) else Rescheduled(old(Value()), next)
      ensures choice == if aborted then Discard else Committed(Value())
    {
      if aborted {
        return Discard;
      }
      needTimer := next > 0;
      if needTimer {
        delay := next;
      }
      choice := Commit();
    }

    // The posted handler.
    method RunReply() returns (actions: seq<Action>)
      ensures actions == Reply(Value())
    {
      if closed {
        return [];
      }
      if statusCode < 100 {
        return [Cancel(statusCode)];
      }
      return [WriteHead(statusCode)];
    }

    method Error(code: nat)
      requires code != 0
      modifies this
      ensures Value() == Ended(old(Value()), code)
      ensures Committed(Value()) != PostReply
      ensures Reply(Value()) == if closed then [] else [ReplyOf(code)]
    {
      error := true;
      statusCode := code;
    }

    method Close()
      modifies this
      ensures Value() == Ended(old(Value()), 0)
      ensures Reply(Value()) == [] && Committed(Value()) == Committed(old(Value()))
    {
      closed := true;
    }
  }

  // ---------- The threads ----------

  // How many ends of a request stand at each place between their arrival and their reply. Those still
  // being numbered carry the id they drew.
  datatype Places = Places(
    numbering: seq<nat>, dispatching: nat, queued: nat,                  // io thread, queue
    receiving: nat, answering: nat, arming: nat,                         // reception()
    committing: nat, checking: nat, posting: nat,                        // commit()
    waiting: nat, ready: nat, aborting: nat, rescheduling: nat,          // timer wait and its handler
    posted: nat,                                                         // the posted reply
    ended: nat, cancelled: nat, discarded: nat)                          // done

  const NOWHERE := Places([], 0, 0, 0, 0, 0, 0, 0, 0, 0, 0, 0, 0, 0, 0, 0, 0)

  // on_close runs in two parts: cancelTimer, then error or close.
  datatype Closing = Open | Cancelling(code: nat) | Over(code: nat)

  // Without a queue the io thread itself goes through reception and commit (`inline`). Kept beside these
  // for the record: the ends of request seen, the id drawn, the status that the reception answered
  // with, and the actions in order.
  datatype State = State(
    m: Members, at: Places, closing: Closing, inline: bool, ends: nat, drawn: nat, answer: nat, log: seq<Action>)

  const NEW := State(FRESH, NOWHERE, Open, false, 0, 0, 0, [])

  // The stream's io thread is in on_data, or in on_close.
  predicate InOnData(s: State) {
    s.at.numbering != [] || s.at.dispatching > 0 || s.inline
  }

  predicate IoThreadBusy(s: State) {
    InOnData(s) || s.closing.Cancelling?
  }

  datatype Event =
    | RequestEnds(id: nat) | SetId | Dispatch(inline: bool) | Dequeue
    | Judge(accepted: bool) | Answer(status: nat) | Arm(responseDelay: nat, first: int, timers: bool)
    | TestTimer | TestError | Post
    | Expire | Fire | Abort | Reschedule(next: int)
    | RunReply
    | CloseBegins(code: nat) | CloseEnds

  predicate Enabled(s: State, e: Event) {
    match e
    // The transport reports the end of a request once, and nothing after the close, which it reports once.
    case RequestEnds(id) => s.ends == 0 && id > 0 && s.closing == Open
    case SetId => s.at.numbering != []
    case Dispatch(_) => s.at.dispatching > 0
    case Dequeue => s.at.queued > 0
    case Judge(_) => s.at.receiving > 0
    case Answer(_) => s.at.answering > 0
    case Arm(_, _, _) => s.at.arming > 0
    case TestTimer => s.at.committing > 0
    case TestError => s.at.checking > 0
    case Post => s.at.posting > 0
    case Expire => s.at.waiting > 0
    case Fire => s.at.ready > 0
    case Abort => s.at.aborting > 0
    case Reschedule(_) => s.at.rescheduling > 0
    case RunReply => s.at.posted > 0 && !IoThreadBusy(s)
    case CloseBegins(_) => s.closing == Open && !IoThreadBusy(s)
    case CloseEnds => s.closing.Cancelling?
  }

  function Apply(s: State, e: Event): State
    requires Enabled(s, e)
  {
    var p := s.at;
    match e
    case RequestEnds(id) => s.(at := p.(numbering := p.numbering + [id]), ends := s.ends + 1, drawn := id)
    case SetId =>
      s.(at := p.(numbering := p.numbering[1..], dispatching := p.dispatching + 1),
         m := s.m.(receptionId := p.numbering[0]))
    case Dispatch(inline) =>
      if inline then s.(at := p.(dispatching := p.dispatching - 1, receiving := p.receiving + 1), inline := true)
      else s.(at := p.(dispatching := p.dispatching - 1, queued := p.queued + 1))
    case Dequeue => s.(at := p.(queued := p.queued - 1, receiving := p.receiving + 1))
    case Judge(_) => s.(at := p.(receiving := p.receiving - 1, answering := p.answering + 1))
    case Answer(status) =>
      s.(at := p.(answering := p.answering - 1, arming := p.arming + 1),
         m := s.m.(statusCode := status), answer := status)
    case Arm(d, first, timers) =>
      s.(at := p.(arming := p.arming - 1, committing := p.committing + 1), m := Armed(s.m, d, first, timers))
    case TestTimer =>
      if s.m.needTimer then s.(at := p.(committing := p.committing - 1, waiting := p.waiting + 1), inline := false)
      else s.(at := p.(committing := p.committing - 1, checking := p.checking + 1))
    case TestError =>
      if s.m.error then s.(at := p.(checking := p.checking - 1, discarded := p.discarded + 1), inline := false)
      else s.(at := p.(checking := p.checking - 1, posting := p.posting + 1))
    case Post => s.(at := p.(posting := p.posting - 1, posted := p.posted + 1), inline := false)
    case Expire => s.(at := p.(waiting := p.waiting - 1, ready := p.ready + 1))
    case Fire => s.(at := p.(ready := p.ready - 1, rescheduling := p.rescheduling + 1))
    case Abort => s.(at := p.(aborting := p.aborting - 1, discarded := p.discarded + 1))
    case Reschedule(next) =>
      s.(at := p.(rescheduling := p.rescheduling - 1, committing := p.committing + 1), m := Rescheduled(s.m, next))
    case RunReply =>
      var q := p.(posted := p.posted - 1);
      var done := if s.m.closed then q.(discarded := q.discarded + 1)
                  else if s.m.statusCode < 100 then q.(cancelled := q.cancelled + 1)
                  else q.(ended := q.ended + 1);
      s.(at := done, log := s.log + Reply(s.m))
    case CloseBegins(code) =>
      // cancelTimer: without a timer it does nothing, and an expired wait keeps its queued handler.
      var q := if s.m.hasTimer then p.(waiting := 0, aborting := p.aborting + p.waiting) else p;
      s.(at := q, closing := Cancelling(code))
    case CloseEnds =>
      var code := s.closing.code;
      s.(m := Ended(s.m, code), closing := Over(code),
         log := s.log + [if code != 0 then Errored(code) else Closed])
  }

  // The state after a run; an event that is not enabled would change nothing.
  function After(run: seq<Event>): State {
    if run == [] then NEW
    else
      var s, e := After(Front(run)), Last(run);
      if Enabled(s, e) then Apply(s, e) else s
  }

  // A run of the stream: every event is enabled where it happens.
  predicate Execution(run: seq<Event>) {
    run == [] || (Execution(Front(run)) && Enabled(After(Front(run)), Last(run)))
  }
}
