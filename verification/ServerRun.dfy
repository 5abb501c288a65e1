/** A server with many concurrent streams: its reception ids and its request counters. */
module ServerRun {
  import opened ServerStream
  import opened StreamSafety
  import opened Sums
  import opened Sequences

  // The atomic reception_id_, the accepted and errored counters, and every stream so far. For the
  // record, `issued` lists the streams in the order in which they drew their ids.
  datatype Server = Server(
    metrics: bool, receptionId: nat, accepted: nat, errored: nat, streams: seq<State>, issued: seq<nat>)

  datatype Step = Opens | Run(i: nat, e: Event)

  predicate CanStep(c: Server, s: Step) {
    s.Run? ==>
      && s.i < |c.streams|
      && Enabled(c.streams[s.i], s.e)
      && (s.e.RequestEnds? ==> s.e.id == c.receptionId + 1)      // fetch_add(1) + 1
  }

  function Next(c: Server, s: Step): Server
    requires CanStep(c, s)
  {
    match s
    case Opens => c.(streams := c.streams + [NEW])
    case Run(i, e) =>
      c.(streams := c.streams[i := Apply(c.streams[i], e)],
         receptionId := c.receptionId + Bit(e.RequestEnds?),
         issued := if e.RequestEnds? then c.issued + [i] else c.issued,
         accepted := c.accepted + Bit(c.metrics && e == Judge(true)),
         errored := c.errored + Bit(c.metrics && e == Judge(false)))
  }

  function After(metrics: bool, run: seq<Step>): Server {
    if run == [] then Server(metrics, 0, 0, 0, [], [])
    else
      var c, s := After(metrics, Front(run)), Last(run);
      if CanStep(c, s) then Next(c, s) else c
  }

  // ---------- The invariant ----------

  // An id is drawn with the end of the request, kept while the stream is being numbered, and the
  // stream's own from then on.
  ghost predicate IdInv(s: State) {
    && (s.ends == 0 <==> s.drawn == 0)
    && (forall k | 0 <= k < |s.at.numbering| :: s.at.numbering[k] == s.drawn)
    && (s.at.numbering == [] ==> s.m.receptionId == s.drawn)
  }

  // Requests that have an id and are not yet counted accepted or errored.
  const Unjudged := (s: State) => |s.at.numbering| + s.at.dispatching + s.at.queued + s.at.receiving

  // The id drawn by each stream, 0 for none.
  function Draws(c: Server): (d: seq<nat>)
    ensures |d| == |c.streams| && forall i | 0 <= i < |d| :: d[i] == c.streams[i].drawn
  {
    seq(|c.streams|, i requires 0 <= i < |c.streams| => c.streams[i].drawn)
  }

  // The ids issued are 1, 2, ... in the order of issue, one for each stream that has drawn.
  ghost predicate Issued(draws: seq<nat>, issued: seq<nat>) {
    && (forall k | 0 <= k < |issued| :: issued[k] < |draws| && draws[issued[k]] == k + 1)
    && (forall i | 0 <= i < |draws| && draws[i] > 0 :: draws[i] <= |issued| && issued[draws[i] - 1] == i)
  }

  lemma IssueOne(draws: seq<nat>, issued: seq<nat>, i: nat)
    requires Issued(draws, issued) && i < |draws| && draws[i] == 0
    ensures Issued(draws[i := |issued| + 1], issued + [i])
  {}

  lemma IssueNone(draws: seq<nat>, issued: seq<nat>)
    requires Issued(draws, issued)
    ensures Issued(draws + [0], issued)
  {}

  ghost predicate IssueInv(c: Server) {
    |c.issued| == c.receptionId && Issued(Draws(c), c.issued)
  }

  ghost predicate AllInv(c: Server) {
    forall i | 0 <= i < |c.streams| :: Inv(c.streams[i]) && IdInv(c.streams[i])
  }

  ghost predicate CountInv(c: Server) {
    if c.metrics then c.accepted + c.errored + Sum(Unjudged, c.streams) == c.receptionId
    else c.accepted == c.errored == 0
  }

  lemma StepKeepsId(s: State, e: Event)
    requires Inv(s) && IdInv(s) && Enabled(s, e)
    ensures IdInv(Apply(s, e))
  {}

  lemma StepJudges(s: State, e: Event)
    requires Enabled(s, e)
    ensures Unjudged(Apply(s, e)) + Bit(e.Judge?) == Unjudged(s) + Bit(e.RequestEnds?)
  {}

  lemma StepDraws(s: State, e: Event)
    requires Enabled(s, e) && IdInv(s)
    ensures Apply(s, e).drawn == if e.RequestEnds? then e.id else s.drawn
    ensures e.RequestEnds? ==> s.drawn == 0
  {}

  lemma StepKeepsIssue(c: Server, i: nat, e: Event)
    requires IssueInv(c) && CanStep(c, Run(i, e)) && IdInv(c.streams[i])
    ensures IssueInv(Next(c, Run(i, e)))
  {
    StepDraws(c.streams[i], e);
    var d := Draws(Next(c, Run(i, e)));
    if e.RequestEnds? {
      IssueOne(Draws(c), c.issued, i);
      assert d == Draws(c)[i := e.id];
    } else {
      assert d == Draws(c);
    }
  }

  lemma StepKeepsCount(c: Server, i: nat, e: Event)
    requires CountInv(c) && CanStep(c, Run(i, e))
    ensures CountInv(Next(c, Run(i, e)))
  {
    StepJudges(c.streams[i], e);
    SumUpdate(Unjudged, c.streams, i, Apply(c.streams[i], e));
  }

  ghost predicate ServerInv(c: Server) {
    AllInv(c) && IssueInv(c) && CountInv(c)
  }

  lemma RunStepKeepsInv(c: Server, i: nat, e: Event)
    requires ServerInv(c) && CanStep(c, Run(i, e))
    ensures ServerInv(Next(c, Run(i, e)))
  {
    StepKeepsInv(c.streams[i], e);
    StepKeepsId(c.streams[i], e);
    StepKeepsIssue(c, i, e);
    StepKeepsCount(c, i, e);
  }

  lemma NewIsUnnumbered()
    ensures IdInv(NEW) && Unjudged(NEW) == 0 && NEW.drawn == 0
  {}

  lemma FreshStream() returns (s: State)
    ensures Inv(s) && IdInv(s) && Unjudged(s) == 0 && s.drawn == 0
    ensures s == NEW
  {
    NewIsGood();
    NewIsUnnumbered();
    s := NEW;
  }

  function Added(c: Server, s: State): Server {
    c.(streams := c.streams + [s])
  }

  lemma StreamAddedKeepsAll(c: Server, s: State)
    requires AllInv(c) && Inv(s) && IdInv(s)
    ensures AllInv(Added(c, s))
  {
    var d := Added(c, s);
    forall i | 0 <= i < |d.streams|
      ensures Inv(d.streams[i]) && IdInv(d.streams[i])
    {
      assert d.streams[i] == if i < |c.streams| then c.streams[i] else s;
    }
  }

  lemma StreamAddedKeepsCounts(c: Server, s: State)
    requires IssueInv(c) && CountInv(c) && Unjudged(s) == 0 && s.drawn == 0
    ensures IssueInv(Added(c, s)) && CountInv(Added(c, s))
  {
    SumAppend(Unjudged, c.streams, s);
    IssueNone(Draws(c), c.issued);
    assert Draws(Added(c, s)) == Draws(c) + [0];
  }

  lemma {:induction false} RunKeepsInv(metrics: bool, run: seq<Step>)
    ensures ServerInv(After(metrics, run)) && After(metrics, run).metrics == metrics
  {
    if run != [] {
      RunKeepsInv(metrics, Front(run));
      var c, s := After(metrics, Front(run)), Last(run);
      if CanStep(c, s) {
        if s.Opens? {
          var added := FreshStream();
          StreamAddedKeepsAll(c, added);
          StreamAddedKeepsCounts(c, added);
        } else {
          RunStepKeepsInv(c, s.i, s.e);
        }
      }
    }
  }

  // ---------- Conservation ----------

  /** Reception ids are exactly 1..N, without repetition: each belongs to some stream, no two streams
      have the same, and each stream whose request has ended has one, as its own once it is numbered. */
  lemma IdsAreOneToN(metrics: bool, run: seq<Step>)
    ensures var c := After(metrics, run);
            var d := Draws(c);
            && (forall id | 1 <= id <= c.receptionId :: id in d)
            && (forall i, j | 0 <= i < j < |d| && d[i] > 0 :: d[i] != d[j])
            && (forall i | 0 <= i < |d| :: d[i] <= c.receptionId && (d[i] > 0 <==> c.streams[i].ends > 0))
            && (forall i | 0 <= i < |d| && c.streams[i].at.numbering == [] :: c.streams[i].m.receptionId == d[i])
  {
    RunKeepsInv(metrics, run);
    var c := After(metrics, run);
    IssuedAll(Draws(c), c.issued);
  }

  lemma IssuedAll(draws: seq<nat>, issued: seq<nat>)
    requires Issued(draws, issued)
    ensures forall id | 1 <= id <= |issued| :: id in draws
  {
    forall id | 1 <= id <= |issued|
      ensures id in draws
    {
      assert draws[issued[id - 1]] == id;
    }
  }

  // How many streams passed their checks, or failed them, in the run.
  function Judged(metrics: bool, run: seq<Step>, accepted: bool): nat {
    if run == [] then 0
    else
      var s := Last(run);
      Judged(metrics, Front(run), accepted)
      + Bit(s.Run? && s.e == Judge(accepted) && CanStep(After(metrics, Front(run)), s))
  }

  /** The accepted counter is the number of receptions that passed all their checks, and the errored
      counter that of the others; without metrics both stay at zero. */
  lemma {:induction false} CountersFollowChecks(metrics: bool, run: seq<Step>)
    ensures var c := After(metrics, run);
            && c.accepted == (if metrics then Judged(metrics, run, true) else 0)
            && c.errored == (if metrics then Judged(metrics, run, false) else 0)
            && c.metrics == metrics
  {
    if run != [] {
      CountersFollowChecks(metrics, Front(run));
    }
  }

  /** Every id handed out is counted accepted once its request has passed its checks, counted errored
      once it has failed one, or still on its way to them. */
  lemma EveryRequestCounted(run: seq<Step>)
    ensures var c := After(true, run);
            && c.accepted == Judged(true, run, true) && c.errored == Judged(true, run, false)
            && c.accepted + c.errored + Sum(Unjudged, c.streams) == c.receptionId
  {
    RunKeepsInv(true, run);
    CountersFollowChecks(true, run);
  }

  // ---------- The id given to streamError ----------

  // At step k of the run, the request of stream j ends.
  predicate RequestEndsAt(metrics: bool, run: seq<Step>, k: nat, j: nat) {
    && k < |run| && run[k].Run? && run[k].i == j && run[k].e.RequestEnds?
    && CanStep(After(metrics, run[..k]), run[k])
  }

  lemma EndsInPrefix(metrics: bool, run: seq<Step>, k: nat, j: nat)
    requires run != [] && k < |run| - 1
    ensures RequestEndsAt(metrics, run, k, j) <==> RequestEndsAt(metrics, Front(run), k, j)
  {
    assert Front(run)[..k] == run[..k];
  }

  // The last stream to draw an id is the one whose request ended last.
  lemma {:induction false} LastIssued(metrics: bool, run: seq<Step>) returns (k: int)
    ensures var issued := After(metrics, run).issued;
            if issued == [] then k == -1 else 0 <= k && RequestEndsAt(metrics, run, k, Last(issued))
    ensures -1 <= k && forall l: nat, j: nat | k < l :: !RequestEndsAt(metrics, run, l, j)
  {
    if run == [] {
      k := -1;
    } else {
      var prior, s := Front(run), Last(run);
      var c := After(metrics, prior);
      k := LastIssued(metrics, prior);
      if k >= 0 {
        EndsInPrefix(metrics, run, k, Last(c.issued));
      }
      if CanStep(c, s) && s.Run? && s.e.RequestEnds? {
        k := |run| - 1;
        assert run[..k] == prior;
        assert Last(c.issued + [s.i]) == s.i;
      } else {
        forall l: nat, j: nat | k < l
          ensures !RequestEndsAt(metrics, run, l, j)
        {
          if l < |run| - 1 {
            EndsInPrefix(metrics, run, l, j);
          } else if l == |run| - 1 {
            assert run[..l] == prior;
          }
        }
      }
    }
  }

  // Every end of another stream's request is followed by the end of this one's.
  ghost predicate NoneEndsAfter(metrics: bool, run: seq<Step>, i: nat) {
    forall k: nat, j: nat | RequestEndsAt(metrics, run, k, j) && j != i ::
      exists l: nat :: k < l && RequestEndsAt(metrics, run, l, i)
  }

  lemma LastIssuedHasGreatest(draws: seq<nat>, issued: seq<nat>, i: nat)
    requires Issued(draws, issued) && i < |draws|
    ensures |issued| == draws[i] <==> issued == [] || Last(issued) == i
  {
    if issued != [] {
      assert draws[Last(issued)] == |issued|;
    }
  }

  /** streamError is passed the server's counter in place of the stream's id, which is 0 while its
      request has not ended. At every moment, so also at its close, the two agree exactly when no other
      stream's request has ended since the stream's own, or at all if the stream's own never has. */
  lemma StreamErrorIdIsLatest(metrics: bool, run: seq<Step>, i: nat)
    requires i < |After(metrics, run).streams|
    ensures After(metrics, run).receptionId == After(metrics, run).streams[i].drawn
            <==> NoneEndsAfter(metrics, run, i)
  {
    RunKeepsInv(metrics, run);
    var c := After(metrics, run);
    LastIssuedHasGreatest(Draws(c), c.issued, i);
    var k := LastIssued(metrics, run);
    if c.issued != [] {
      var last := Last(c.issued);
      assert RequestEndsAt(metrics, run, k, last);
      if last == i {
        LatestFollowsAll(metrics, run, k, i);
      }
    }
  }

  lemma LatestFollowsAll(metrics: bool, run: seq<Step>, k: nat, i: nat)
    requires RequestEndsAt(metrics, run, k, i)
    requires forall l: nat, j: nat | k < l :: !RequestEndsAt(metrics, run, l, j)
    ensures NoneEndsAfter(metrics, run, i)
  {
    forall m: nat, j: nat | RequestEndsAt(metrics, run, m, j) && j != i
      ensures exists l: nat :: m < l && RequestEndsAt(metrics, run, l, i)
    {
      assert m != k && m <= k;
    }
  }

  lemma Extend(metrics: bool, run: seq<Step>, s: Step) returns (longer: seq<Step>)
    requires CanStep(After(metrics, run), s)
    ensures longer == run + [s] && After(metrics, longer) == Next(After(metrics, run), s)
  {
    longer := run + [s];
    assert Front(longer) == run && Last(longer) == s;
  }

  lemma UpToTwoStreams(metrics: bool) returns (run: seq<Step>)
    ensures After(metrics, run) == Server(metrics, 0, 0, 0, [NEW, NEW], [])
  {
    run := Extend(metrics, [], Opens);
    assert After(metrics, run) == Server(metrics, 0, 0, 0, [NEW], []);
    run := Extend(metrics, run, Opens);
  }

  // The requests of both have ended.
  lemma UpToTwoRequests(metrics: bool) returns (run: seq<Step>)
    ensures After(metrics, run)
            == Server(metrics, 2, 0, 0, [Apply(NEW, RequestEnds(1)), Apply(NEW, RequestEnds(2))], [0, 1])
  {
    run := UpToTwoStreams(metrics);
    run := Extend(metrics, run, Run(0, RequestEnds(1)));
    assert After(metrics, run) == Server(metrics, 1, 0, 0, [Apply(NEW, RequestEnds(1)), NEW], [0]);
    run := Extend(metrics, run, Run(1, RequestEnds(2)));
  }

  // The first of them numbered and queued.
  lemma UpToQueue(metrics: bool) returns (run: seq<Step>)
    ensures var c := After(metrics, run);
            && c.receptionId == 2 && |c.streams| == 2
            && c.streams[0] == NEW.(m := FRESH.(receptionId := 1), at := NOWHERE.(queued := 1), ends := 1, drawn := 1)
  {
    run := UpToTwoRequests(metrics);
    run := Extend(metrics, run, Run(0, SetId));
    assert After(metrics, run).streams[0]
        == NEW.(m := FRESH.(receptionId := 1), at := NOWHERE.(dispatching := 1), ends := 1, drawn := 1);
    run := Extend(metrics, run, Run(0, Dispatch(false)));
  }

  /** So there are runs in which streamError is passed the id of another stream's request. */
  lemma StreamErrorIdOfAnother(metrics: bool, code: nat) returns (run: seq<Step>)
    requires code != 0
    ensures var c := After(metrics, run);
            && |c.streams| == 2 && CanStep(c, Run(0, CloseEnds)) && c.streams[0].closing == Cancelling(code)
            && c.streams[0].m.receptionId == 1 && c.receptionId == 2
  {
    run := UpToQueue(metrics);
    run := Extend(metrics, run, Run(0, CloseBegins(code)));
  }

  // ---------- Each stream runs by itself ----------

  // The events of stream i that took place.
  function EventsOf(metrics: bool, run: seq<Step>, i: nat): seq<Event> {
    if run == [] then []
    else
      var prior, s := Front(run), Last(run);
      EventsOf(metrics, prior, i) + if s.Run? && s.i == i && CanStep(After(metrics, prior), s) then [s.e] else []
  }

  lemma {:induction false} NoEventsBeforeOpening(metrics: bool, run: seq<Step>, i: nat)
    requires i >= |After(metrics, run).streams|
    ensures EventsOf(metrics, run, i) == []
  {
    if run != [] {
      NoEventsBeforeOpening(metrics, Front(run), i);
    }
  }

  lemma OneMoreEvent(t: seq<Event>, e: Event)
    requires Execution(t) && Enabled(ServerStream.After(t), e)
    ensures Execution(t + [e]) && ServerStream.After(t + [e]) == Apply(ServerStream.After(t), e)
  {
    assert (t + [e])[..|t + [e]| - 1] == t;
  }

  /** However the streams of a server interleave, each is in the state that its own events lead to. */
  lemma {:induction false} EachStreamRunsAlone(metrics: bool, run: seq<Step>, i: nat)
    requires i < |After(metrics, run).streams|
    ensures Execution(EventsOf(metrics, run, i))
    ensures ServerStream.After(EventsOf(metrics, run, i)) == After(metrics, run).streams[i]
  {
    var prior, s := Front(run), Last(run);
    var c, t := After(metrics, prior), EventsOf(metrics, prior, i);
    if i < |c.streams| {
      EachStreamRunsAlone(metrics, prior, i);
      if s.Run? && s.i == i && CanStep(c, s) {
        OneMoreEvent(t, s.e);
      } else {
        assert EventsOf(metrics, run, i) == t;
      }
    } else {
      NoEventsBeforeOpening(metrics, prior, i);
      assert EventsOf(metrics, run, i) == [];
    }
  }

  /** So in every run of a server, no stream writes a response head after its end unless that end
      carried a code of 100 or more. */
  lemma NoHeadAfterEndAnywhere(metrics: bool, run: seq<Step>, i: nat)
    requires i < |After(metrics, run).streams| && HeadAfterEnd(After(metrics, run).streams[i].log)
    ensures After(metrics, run).streams[i].closing.Over? && After(metrics, run).streams[i].closing.code >= 100
  {
    EachStreamRunsAlone(metrics, run, i);
    HeadAfterEndMeansCode(EventsOf(metrics, run, i));
  }
}
