/** The lock-free maximum of chunk lengths (the compare-exchange loop in Http2Server::handler). */
module ChunkMaximum {
  import opened Sequences

  // Where the loop of one chunk stands: about to load, about to test `len > current`, about to
  // compare-exchange, or out.
  datatype Pc = Loading | Testing | Swapping | Exited

  // One chunk's loop with its local copy of the maximum. The last three record the first value
  // loaded, the compare-exchanges made and how many of them failed without cause.
  datatype Loop = Loop(len: nat, pc: Pc, current: nat, first: nat, attempts: nat, spurious: nat)

  datatype Shared = Shared(stored: nat, loops: seq<Loop>)

  datatype Step =
    | Chunk(len: nat)
    | Load(i: nat)
    | Test(i: nat)
    | CompareExchange(i: nat, weak: bool)      // weak: fails although the values agree

  predicate CanStep(c: Shared, s: Step) {
    match s
    case Chunk(len) => len > 0
    case Load(i) => i < |c.loops| && c.loops[i].pc == Loading
    case Test(i) => i < |c.loops| && c.loops[i].pc == Testing
    case CompareExchange(i, _) => i < |c.loops| && c.loops[i].pc == Swapping
  }

  function Next(c: Shared, s: Step): Shared
    requires CanStep(c, s)
  {
    match s
    case Chunk(len) => c.(loops := c.loops + [Loop(len, Loading, 0, 0, 0, 0)])
    case Load(i) => c.(loops := c.loops[i := c.loops[i].(pc := Testing, current := c.stored, first := c.stored)])
    case Test(i) =>
      c.(loops := c.loops[i := c.loops[i].(pc := if c.loops[i].len > c.loops[i].current then Swapping else Exited)])
    case CompareExchange(i, weak) =>
      var l := c.loops[i];
      var tried := l.(attempts := l.attempts + 1);
      if c.stored == l.current && !weak then
        Shared(l.len, c.loops[i := tried.(pc := Exited)])
      else
        c.(loops := c.loops[i := tried.(pc := Testing, current := c.stored,
                                        spurious := l.spurious + if c.stored == l.current then 1 else 0)])
  }

  function After(run: seq<Step>): Shared {
    if run == [] then Shared(0, [])
    else
      var c, s := After(Front(run)), Last(run);
      if CanStep(c, s) then Next(c, s) else c
  }

  // ---------- The loop of the original, when no other thread interferes ----------

  class MaximumCell {
    var stored: nat

    constructor ()
      ensures stored == 0
    {
      stored := 0;
    }

    method CompareExchangeWeak(expected: nat, desired: nat, weak: bool) returns (exchanged: bool, observed: nat)
      modifies this
      ensures exchanged <==> old(stored) == expected && !weak
      ensures stored == if exchanged then desired else old(stored)
      ensures observed == old(stored)
    {
      observed := stored;
      exchanged := stored == expected && !weak;
      if exchanged {
        stored := desired;
      }
    }

    // `failures` is the number of exchanges that fail without cause.
    method Update(len: nat, failures: nat)
      modifies this
      ensures stored == if len > old(stored) then len else old(stored)
    {
      var current := stored;
      var exchanged := false;
      var left: nat := failures;
      while len > current && !exchanged
        invariant current == old(stored) && stored == if exchanged then len else current
        invariant exchanged ==> len > current
        decreases left, !exchanged
      {
        exchanged, current := CompareExchangeWeak(current, len, left > 0);
        left := if left > 0 then left - 1 else 0;
      }
    }
  }

  // ---------- The invariant ----------

  function Least(a: nat, b: nat): nat {
    if a <= b then a else b
  }

  // A failed exchange with cause raises the local copy, so attempts are paid for by its rise or by
  // failures without cause.
  ghost predicate LoopInv(l: Loop, stored: nat) {
    && l.current <= stored
    && l.first <= l.current
    && (l.pc == Loading ==> l.attempts == l.spurious == 0)
    && (l.pc == Swapping ==> l.current < l.len)
    && (l.pc == Exited ==> l.len <= stored)
    && (l.first >= l.len ==> l.attempts == l.spurious == 0)
    && (l.first < l.len && l.pc != Exited ==> l.attempts <= Least(l.current, l.len) - l.first + l.spurious)
    && (l.first < l.len ==> l.attempts <= l.len - l.first + l.spurious)
  }

  ghost predicate Inv(c: Shared) {
    && (forall i | 0 <= i < |c.loops| :: LoopInv(c.loops[i], c.stored))
    && (c.stored == 0 || exists i :: 0 <= i < |c.loops| && c.loops[i].len == c.stored)
  }

  // The loop that steps keeps its invariant, and the stored value only grows.
  lemma StepKeepsLoop(c: Shared, s: Step)
    requires !s.Chunk? && CanStep(c, s) && LoopInv(c.loops[s.i], c.stored)
    ensures LoopInv(Next(c, s).loops[s.i], Next(c, s).stored) && c.stored <= Next(c, s).stored
  {}

  lemma StepKeepsInv(c: Shared, s: Step)
    requires Inv(c) && CanStep(c, s)
    ensures Inv(Next(c, s)) && c.stored <= Next(c, s).stored
  {
    var d := Next(c, s);
    if !s.Chunk? {
      StepKeepsLoop(c, s);
    }
    assert forall i | 0 <= i < |c.loops| :: d.loops[i].len == c.loops[i].len;
    if s.CompareExchange? && d.stored != c.stored {
      assert d.loops[s.i].len == d.stored;
    }
  }

  lemma {:induction false} RunKeepsInv(run: seq<Step>)
    ensures Inv(After(run))
  {
    if run != [] {
      RunKeepsInv(Front(run));
      var c, s := After(Front(run)), Last(run);
      if CanStep(c, s) {
        StepKeepsInv(c, s);
      }
    }
  }

  /** The stored value never decreases along a run. */
  lemma {:induction false} MaximumNeverDecreases(run: seq<Step>, n: nat)
    requires n <= |run|
    ensures After(run[..n]).stored <= After(run).stored
    decreases |run|
  {
    if n == |run| {
      assert run[..n] == run;
    } else {
      var prior := Front(run);
      assert prior[..n] == run[..n];
      MaximumNeverDecreases(prior, n);
      RunKeepsInv(prior);
      if CanStep(After(prior), Last(run)) {
        StepKeepsInv(After(prior), Last(run));
      }
    }
  }

  /** Only an exchange that finds the value it expects, and does not fail without cause, stores: it
      stores the length of its own chunk. */
  lemma StoredByExchange(run: seq<Step>)
    requires run != []
    ensures var c, d, s := After(Front(run)), After(run), Last(run);
            d.stored != c.stored ==>
              s.CompareExchange? && !s.weak && s.i < |c.loops| &&
              c.loops[s.i].current == c.stored && d.stored == c.loops[s.i].len
  {}

  predicate IsMaximum(m: nat, loops: seq<Loop>) {
    && (forall i | 0 <= i < |loops| :: loops[i].len <= m)
    && (m == 0 || exists i :: 0 <= i < |loops| && loops[i].len == m)
  }

  /** For any number of threads and any interleaving: the stored value is zero or the length of some
      chunk submitted, and once every loop is out it is the largest length of all. */
  lemma StoredIsMaximum(run: seq<Step>)
    ensures var c := After(run);
            && (c.stored == 0 || exists i :: 0 <= i < |c.loops| && c.loops[i].len == c.stored)
            && ((forall i | 0 <= i < |c.loops| :: c.loops[i].pc == Exited) ==> IsMaximum(c.stored, c.loops))
  {
    RunKeepsInv(run);
  }

  // How many compare-exchanges loop i makes in the run, and how many of them that may fail without cause.
  function Exchanges(run: seq<Step>, i: nat): nat {
    if run == [] then 0
    else
      var s := Last(run);
      Exchanges(Front(run), i) + if s.CompareExchange? && s.i == i && CanStep(After(Front(run)), s) then 1 else 0
  }

  function WeakExchanges(run: seq<Step>, i: nat): nat {
    if run == [] then 0
    else
      var s := Last(run);
      WeakExchanges(Front(run), i) + if s == CompareExchange(i, true) && CanStep(After(Front(run)), s) then 1 else 0
  }

  // At step k of the run, loop i loads the stored value.
  predicate LoadsAt(run: seq<Step>, k: nat, i: nat) {
    k < |run| && run[k] == Load(i) && CanStep(After(run[..k]), Load(i))
  }

  lemma {:induction false} LoopFollowsSteps(run: seq<Step>, i: nat)
    ensures i >= |After(run).loops| ==> Exchanges(run, i) == WeakExchanges(run, i) == 0
    ensures i < |After(run).loops| ==>
              After(run).loops[i].attempts == Exchanges(run, i) && After(run).loops[i].spurious <= WeakExchanges(run, i)
  {
    if run != [] {
      LoopFollowsSteps(Front(run), i);
    }
  }

  lemma {:induction false} FirstIsLoaded(run: seq<Step>, i: nat, k: nat)
    requires LoadsAt(run, k, i)
    ensures i < |After(run).loops| && After(run).loops[i].pc != Loading
    ensures After(run).loops[i].first == After(run[..k]).stored
    decreases |run|
  {
    var prior := Front(run);
    if k == |run| - 1 {
      assert run[..k] == prior;
    } else {
      assert prior[..k] == run[..k];
      FirstIsLoaded(prior, i, k);
    }
  }

  /** Each loop ends: from the step at which it loads the stored value, it makes no more exchanges than
      its length exceeds that value, plus those that fail without cause; and none if the value was large
      enough. */
  lemma AttemptsBounded(run: seq<Step>, i: nat, k: nat)
    requires LoadsAt(run, k, i)
    ensures i < |After(run).loops|
    ensures var len, loaded := After(run).loops[i].len, After(run[..k]).stored;
            Exchanges(run, i) <= if loaded < len then len - loaded + WeakExchanges(run, i) else 0
  {
    RunKeepsInv(run);
    LoopFollowsSteps(run, i);
    FirstIsLoaded(run, i, k);
  }
}
