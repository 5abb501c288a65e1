/** The callback wrapper of Http2Client::send: an exchanged flag guards the promise, whatever threads
    the callback is invoked on and however often. */
module BlockingSend {
  import opened Sequences
  import opened RequestProtocol

  datatype Promise = Unset | Set(value: Answer)

  // An invocation of the wrapper: before the exchange, past it as the one that found the flag clear
  // and about to set the promise, back after setting it, or back at once.
  datatype Stage = Entering | Setting | Returned | Ignored

  datatype Invocation = Invocation(value: Answer, stage: Stage)

  // `failures` counts attempts to set a promise that was already set (std::future_error).
  datatype Wrapper = Wrapper(satisfied: bool, promise: Promise, failures: nat, invocations: seq<Invocation>)

  const NEW := Wrapper(false, Unset, 0, [])

  datatype Step = Enter(value: Answer) | TestAndSet(k: nat) | SetValue(k: nat)

  predicate CanStep(w: Wrapper, s: Step) {
    match s
    case Enter(_) => true
    case TestAndSet(k) => k < |w.invocations| && w.invocations[k].stage == Entering
    case SetValue(k) => k < |w.invocations| && w.invocations[k].stage == Setting
  }

  function Move(w: Wrapper, k: nat, stage: Stage): Wrapper
    requires k < |w.invocations|
  {
    w.(invocations := w.invocations[k := w.invocations[k].(stage := stage)])
  }

  function Next(w: Wrapper, s: Step): Wrapper
    requires CanStep(w, s)
  {
    match s
    case Enter(value) => w.(invocations := w.invocations + [Invocation(value, Entering)])
    case TestAndSet(k) => Move(w, k, if w.satisfied then Ignored else Setting).(satisfied := true)
    case SetValue(k) =>
      var v := Move(w, k, Returned);
      if w.promise.Unset? then v.(promise := Set(w.invocations[k].value)) else v.(failures := w.failures + 1)
  }

  function After(run: seq<Step>): Wrapper {
    if run == [] then NEW
    else
      var w, s := After(Front(run)), Last(run);
      if CanStep(w, s) then Next(w, s) else w
  }

  predicate Execution(run: seq<Step>) {
    run == [] || (Execution(Front(run)) && CanStep(After(Front(run)), Last(run)))
  }

  // ---------- The original wrapper, run without interference ----------

  class CallbackWrapper {
    var satisfied: bool
    var promise: Promise

    constructor ()
      ensures !satisfied && promise == Unset
    {
      satisfied, promise := false, Unset;
    }

    method Exchange(b: bool) returns (before: bool)
      modifies this`satisfied
      ensures before == old(satisfied) && satisfied == b
    {
      before := satisfied;
      satisfied := b;
    }

    method Invoke(res: Answer)
      modifies this
      ensures satisfied
      ensures promise == if old(satisfied) || old(promise).Set? then old(promise) else Set(res)
    {
      var before := Exchange(true);
      if before {
        return;
      }
      if promise.Unset? {
        promise := Set(res);
      }
    }
  }

  // ---------- One winner ----------

  // The first exchange of the run: its invocation is the winner.
  function Winner(run: seq<Step>): (k: int)
    ensures k >= -1
  {
    if run == [] then -1
    else if Winner(Front(run)) >= 0 then Winner(Front(run))
    else if Last(run).TestAndSet? then Last(run).k
    else -1
  }

  ghost predicate Inv(w: Wrapper, winner: int) {
    && w.failures == 0
    && -1 <= winner < |w.invocations|
    && (w.satisfied <==> winner >= 0)
    && (forall k | 0 <= k < |w.invocations| :: w.invocations[k].stage in {Setting, Returned} <==> k == winner)
    && (winner < 0 ==> w.promise == Unset)
    && (winner >= 0 ==>
          var i := w.invocations[winner];
          w.promise == if i.stage == Setting then Unset else Set(i.value))
    && (winner < 0 ==> forall k | 0 <= k < |w.invocations| :: w.invocations[k].stage == Entering)
  }

  /** In every run, under any interleaving: the promise is set at most once and never found set, and
      what it holds is the value of the invocation whose exchange came first. */
  lemma {:induction false} PromiseSetByWinner(run: seq<Step>)
    requires Execution(run)
    ensures Inv(After(run), Winner(run))
  {
    if run != [] {
      PromiseSetByWinner(Front(run));
    }
  }

  predicate AtRest(w: Wrapper) {
    forall k | 0 <= k < |w.invocations| :: w.invocations[k].stage in {Returned, Ignored}
  }

  function Values(w: Wrapper): seq<Answer> {
    seq(|w.invocations|, k requires 0 <= k < |w.invocations| => w.invocations[k].value)
  }

  /** At rest the promise is set exactly when the callback was invoked at all. */
  lemma PromiseSetAtRest(run: seq<Step>)
    requires Execution(run) && AtRest(After(run))
    ensures After(run).promise.Set? <==> After(run).invocations != []
    ensures After(run).promise.Set? ==> After(run).promise.value in Values(After(run))
  {
    PromiseSetByWinner(run);
    var w, k := After(run), Winner(run);
    if w.invocations != [] {
      assert k >= 0 ==> w.promise == Set(Values(w)[k]);
      assert w.invocations[0].stage != Entering;
    }
  }

  /** The blocking send returns exactly when the pre-send wait was not aborted: for any run of the
      request to rest, and any run of the wrapper to rest on the callbacks that the request makes, the
      promise then holds the answer of the first terminal event, and otherwise it is never set. */
  lemma SendReturnsFirstOutcome(delayed: bool, t: seq<Event>, stops: bool, run: seq<Step>)
    requires RequestProtocol.Execution(delayed, t, stops) && !Pending(RequestProtocol.After(delayed, t, stops))
    requires Execution(run) && AtRest(After(run))
    requires Values(After(run)) == RequestProtocol.After(delayed, t, stops).x.calls
    ensures After(run).promise.Set? <==> DelayAborts !in t
    ensures After(run).promise.Set? ==>
              FirstTerminal(t) < |t| && After(run).promise == Set(AnswerAt(t, FirstTerminal(t)))
  {
    ExactlyOnceAtRest(delayed, t, stops);
    CallsFollowEvents(delayed, t, stops);
    PromiseSetAtRest(run);
  }
}
