/** Loading package headers on demand from many threads: a cache checked before and
    after taking a lock on the package, as a step system. */
module PackageLookup {

  /** A call of lookup. `Locking` waits for the lock of its package, `Rechecking` and
      `Loading` hold it. */
  datatype Phase = Checking | Locking | Rechecking | Loading | Found(header: nat) | Failed

  datatype Call = Call(package: nat, phase: Phase) {
    predicate HoldsLock() {
      phase.Rechecking? || phase.Loading?
    }
  }

  /** Every successful load makes a header of its own, numbered in order. */
  datatype State = State(cache: map<nat, nat>, failed: set<nat>, loaded: nat, calls: seq<Call>) {
    function With(c: nat, phase: Phase): State
      requires c < |calls|
    {
      this.(calls := calls[c := calls[c].(phase := phase)])
    }
  }

  /** A step of one call. Loading ends in one of three ways: with a header, with a
      failure that is remembered, or with an error that is not. */
  datatype Step =
    | Check(call: nat)
    | Lock(call: nat)
    | Recheck(call: nat)
    | LoadSucceeds(call: nat)
    | LoadFails(call: nat)
    | LoadAborts(call: nat)

  predicate Enabled(s: State, step: Step) {
    var c := step.call;
    && c < |s.calls|
    && match step
       case Check(_) => s.calls[c].phase.Checking?
       case Lock(_) => s.calls[c].phase.Locking? && forall d ::
           0 <= d < |s.calls| && s.calls[d].package == s.calls[c].package ==> !s.calls[d].HoldsLock()
       case Recheck(_) => s.calls[c].phase.Rechecking?
       case _ => s.calls[c].phase.Loading?
  }

  /** The cache lookup itself: a hit, a remembered failure, or a reason to go on. */
  function TryLookup(s: State, package: nat, otherwise: Phase): Phase {
    if package in s.cache then Found(s.cache[package]) else if package in s.failed then Failed else otherwise
  }

  function Next(s: State, step: Step): State
    requires Enabled(s, step)
  {
    var c := step.call;
    var package := s.calls[c].package;
    match step
    case Check(_) => s.With(c, TryLookup(s, package, Locking))
    case Lock(_) => s.With(c, Rechecking)
    case Recheck(_) => s.With(c, TryLookup(s, package, Loading))
    case LoadSucceeds(_) => s.With(c, Found(s.loaded)).(cache := s.cache[package := s.loaded], loaded := s.loaded + 1)
    case LoadFails(_) => s.With(c, Failed).(failed := s.failed + {package})
    case LoadAborts(_) => s.With(c, Failed)
  }

  ghost predicate Initial(s: State) {
    s.cache == map[] && s.failed == {} && s.loaded == 0 && forall c :: 0 <= c < |s.calls| ==> s.calls[c].phase.Checking?
  }

  // ---------------------------------------------------------------- invariant

  /** A call only loads what is neither cached nor known to fail, and what it found is
      what the cache holds. */
  ghost predicate CallOk(s: State, c: nat)
    requires c < |s.calls|
  {
    var call := s.calls[c];
    && (call.phase.Loading? ==> call.package !in s.cache && call.package !in s.failed)
    && (call.phase.Found? ==> call.package in s.cache && s.cache[call.package] == call.phase.header)
  }

  ghost predicate CallsOk(s: State) {
    forall c: nat {:trigger CallOk(s, c)} :: c < |s.calls| ==> CallOk(s, c)
  }

  /** The lock of a package is held by one call at most. */
  ghost predicate LocksOk(s: State) {
    forall c, d :: 0 <= c < d < |s.calls| && s.calls[c].package == s.calls[d].package ==>
        !(s.calls[c].HoldsLock() && s.calls[d].HoldsLock())
  }

  /** No package is both cached and failed, and no two packages share a header. */
  ghost predicate CacheOk(s: State) {
    && s.cache.Keys !! s.failed
    && (forall p :: p in s.cache ==> s.cache[p] < s.loaded)
    && (forall p, q :: p in s.cache && q in s.cache && s.cache[p] == s.cache[q] ==> p == q)
  }

  ghost predicate Inv(s: State) {
    CallsOk(s) && LocksOk(s) && CacheOk(s)
  }

  /** What was cached or failed stays so, unchanged. */
  ghost predicate Settles(s: State, t: State) {
    && (forall p :: p in s.cache ==> p in t.cache && t.cache[p] == s.cache[p])
    && s.failed <= t.failed
    && |s.calls| == |t.calls|
    && forall c :: 0 <= c < |s.calls| ==>
         && t.calls[c].package == s.calls[c].package
         && (s.calls[c].phase.Found? || s.calls[c].phase.Failed? ==> t.calls[c] == s.calls[c])
  }

  lemma {:induction false} LoaderIsAlone(s: State, c: nat, d: nat)
    requires LocksOk(s) && c < |s.calls| && d < |s.calls| && c != d
    requires s.calls[c].phase.Loading? && s.calls[d].phase.Loading?
    ensures s.calls[c].package != s.calls[d].package
  {
    var low, high := if c < d then c else d, if c < d then d else c;
    assert s.calls[low].HoldsLock() && s.calls[high].HoldsLock();
  }

  lemma {:induction false} CallsKept(s: State, step: Step)
    requires Inv(s) && Enabled(s, step)
    ensures CallsOk(Next(s, step))
  {
    var t, c := Next(s, step), step.call;
    forall d: nat | d < |t.calls|
      ensures CallOk(t, d)
    {
      assert CallOk(s, d) && CallOk(s, c);
      if d != c && s.calls[d].phase.Loading? && s.calls[c].phase.Loading? {
        LoaderIsAlone(s, c, d);
      }
    }
  }

  lemma {:induction false} LocksKept(s: State, step: Step)
    requires Inv(s) && Enabled(s, step)
    ensures LocksOk(Next(s, step))
  {
  }

  lemma {:induction false} CacheKept(s: State, step: Step)
    requires Inv(s) && Enabled(s, step)
    ensures CacheOk(Next(s, step))
  {
    assert CallOk(s, step.call);
  }

  lemma {:induction false} StepKeepsInv(s: State, step: Step)
    requires Inv(s) && Enabled(s, step)
    ensures Inv(Next(s, step)) && Settles(s, Next(s, step))
  {
    CallsKept(s, step);
    LocksKept(s, step);
    CacheKept(s, step);
    assert CallOk(s, step.call);
  }

  // ---------------------------------------------------------------- whole runs

  ghost predicate IsRun(states: seq<State>, steps: seq<Step>) {
    && |states| == |steps| + 1 && Initial(states[0])
    && forall i :: 0 <= i < |steps| ==> Enabled(states[i], steps[i]) && states[i + 1] == Next(states[i], steps[i])
  }

  lemma {:induction false} RunsAreSafe(states: seq<State>, steps: seq<Step>, i: nat)
    requires IsRun(states, steps) && i < |states|
    ensures Inv(states[i])
  {
    if i > 0 {
      RunsAreSafe(states, steps, i - 1);
      StepKeepsInv(states[i - 1], steps[i - 1]);
    } else {
      forall c: nat | c < |states[0].calls|
        ensures CallOk(states[0], c)
      {
      }
    }
  }

  lemma {:induction false} RunsSettle(states: seq<State>, steps: seq<Step>, i: nat, j: nat)
    requires IsRun(states, steps) && i <= j < |states|
    ensures Settles(states[i], states[j])
    decreases j - i
  {
    if i < j {
      RunsSettle(states, steps, i, j - 1);
      RunsAreSafe(states, steps, j - 1);
      StepKeepsInv(states[j - 1], steps[j - 1]);
    }
  }

  /** Whatever the interleaving, and whenever they return: two calls that find the same
      package find the same header, and calls that find different packages do not. */
  lemma {:induction false} ResultsAgree(states: seq<State>, steps: seq<Step>, i: nat, j: nat, c: nat, d: nat)
    requires IsRun(states, steps) && i < |states| && j < |states|
    requires c < |states[i].calls| && d < |states[j].calls|
    requires states[i].calls[c].phase.Found? && states[j].calls[d].phase.Found?
    ensures states[i].calls[c].package == states[j].calls[d].package <==>
            states[i].calls[c].phase.header == states[j].calls[d].phase.header
  {
    var last := |states| - 1;
    RunsSettle(states, steps, i, last);
    RunsSettle(states, steps, j, last);
    RunsAreSafe(states, steps, last);
    assert CallOk(states[last], c) && CallOk(states[last], d);
  }

  /** A package once known to fail never loads later: no call finds it in any later
      state, or ever. */
  lemma {:induction false} FailureIsFinal(states: seq<State>, steps: seq<Step>, i: nat, j: nat, c: nat)
    requires IsRun(states, steps) && i < |states| && j < |states|
    requires c < |states[j].calls| && states[j].calls[c].package in states[i].failed
    ensures !states[j].calls[c].phase.Found?
  {
    var last := |states| - 1;
    RunsSettle(states, steps, i, last);
    RunsSettle(states, steps, j, last);
    RunsAreSafe(states, steps, last);
    assert CallOk(states[last], c);
  }

  /** No deadlock: while some call has not returned, some call can take a step. */
  lemma {:induction false} NeverStuck(s: State, c: nat)
    requires c < |s.calls| && !s.calls[c].phase.Found? && !s.calls[c].phase.Failed?
    ensures exists step :: Enabled(s, step)
  {
    if s.calls[c].phase.Checking? {
      assert Enabled(s, Check(c));
    } else if s.calls[c].phase.Rechecking? {
      assert Enabled(s, Recheck(c));
    } else if s.calls[c].phase.Loading? {
      assert Enabled(s, LoadAborts(c));
    } else if d :| 0 <= d < |s.calls| && s.calls[d].package == s.calls[c].package && s.calls[d].HoldsLock() {
      assert if s.calls[d].phase.Rechecking? then Enabled(s, Recheck(d)) else Enabled(s, LoadAborts(d));
    } else {
      assert Enabled(s, Lock(c));
    }
  }
}
