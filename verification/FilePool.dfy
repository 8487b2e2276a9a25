/** A bounded pool of file handles shared by concurrent clients, as a step system.
    Everything a client does while it holds the mutex is one step. */
module FilePool {
  import opened Zen
  import opened Sequences

  /** A client is one call of acquire and the handle it returned. */
  datatype Phase = Idle | Entering | Waiting | Notified | Holding(file: nat)

  /** Files are numbered in the order in which they were opened. */
  datatype State = State(available: seq<nat>, active: nat, max: nat, clients: seq<Phase>) {
    ghost function WaitingClients(): set<nat> {
      set c: nat | c < |clients| && clients[c].Waiting?
    }

    ghost function NotifiedClients(): set<nat> {
      set c: nat | c < |clients| && clients[c].Notified?
    }

    ghost function Holders(): set<nat> {
      set c: nat | c < |clients| && clients[c].Holding?
    }

    /** The client is about to run with the mutex: it has just called acquire, or its
        wait on the condition variable has ended. */
    predicate Runs(c: nat) {
      c < |clients| && (clients[c].Entering? || clients[c].Notified?)
    }

    function With(c: nat, phase: Phase): State
      requires c < |clients|
    {
      this.(clients := clients[c := phase])
    }
  }

  datatype Step =
    | Call(client: nat)
    | Take(client: nat)
    | Open(client: nat)
    | OpenFails(client: nat)
    | Sleep(client: nat)
    | Drop(client: nat, woken: Option<nat>)
    | SpuriousWakeup(client: nat)

  ghost predicate Enabled(s: State, step: Step) {
    match step
    case Call(c) => c < |s.clients| && s.clients[c].Idle?
    case Take(c) => s.Runs(c) && s.available != []
    case Open(c) => s.Runs(c) && s.available == [] && s.active < s.max
    case OpenFails(c) => s.Runs(c) && s.available == [] && s.active < s.max
    case Sleep(c) => s.Runs(c) && s.available == [] && s.active >= s.max
    case Drop(c, woken) =>
      // notify_one wakes one of the waiting clients, if there are any
      && c < |s.clients| && s.clients[c].Holding?
      && if woken.Some? then woken.value in s.WaitingClients() else s.WaitingClients() == {}
    case SpuriousWakeup(c) => c in s.WaitingClients()
  }

  ghost function Next(s: State, step: Step): State
    requires Enabled(s, step)
  {
    match step
    case Call(c) => s.With(c, Entering)
    case Take(c) => s.With(c, Holding(s.available[0])).(available := s.available[1..])
    case Open(c) => s.With(c, Holding(s.active)).(active := s.active + 1)
    case OpenFails(c) => s.With(c, Idle)
    case Sleep(c) => s.With(c, Waiting)
    case Drop(c, woken) =>
      var back := s.With(c, Idle).(available := s.available + [s.clients[c].file]);
      if woken.Some? then back.With(woken.value, Notified) else back
    case SpuriousWakeup(c) => s.With(c, Notified)
  }

  ghost predicate Initial(s: State) {
    s.available == [] && s.active == 0 && forall c :: 0 <= c < |s.clients| ==> s.clients[c].Idle?
  }

  // ---------------------------------------------------------------- invariants

  ghost predicate AvailableOk(s: State) {
    Distinct(s.available) && forall f: nat :: f in s.available ==> f < s.active
  }

  ghost predicate HeldOk(s: State) {
    && (forall c :: c in s.Holders() ==> s.clients[c].file < s.active && s.clients[c].file !in s.available)
    && (forall c, d :: c in s.Holders() && d in s.Holders() && s.clients[c].file == s.clients[d].file ==> c == d)
  }

  /** Handles are distinct: a file is available once or held by one client, not both. */
  ghost predicate HandlesOk(s: State) {
    AvailableOk(s) && HeldOk(s)
  }

  /** The counter counts the handles, and never exceeds the maximum. */
  ghost predicate CountOk(s: State) {
    |s.available| + |s.Holders()| == s.active <= s.max
  }

  /** No wakeup is lost: while a client waits un-notified, the pool is full and every
      available handle has a notified client on its way. */
  ghost predicate WakeupsOk(s: State) {
    s.WaitingClients() != {} ==> s.active == s.max && |s.available| <= |s.NotifiedClients()|
  }

  ghost predicate Inv(s: State) {
    HandlesOk(s) && CountOk(s) && WakeupsOk(s)
  }

  lemma {:induction false} InitialHolds(s: State)
    requires Initial(s)
    ensures Inv(s)
  {
    assert s.Holders() == {} && s.WaitingClients() == {};
  }

  /** How the sets of clients change when one client changes its phase. */
  lemma {:induction false} SetsAfter(s: State, c: nat, phase: Phase)
    requires c < |s.clients|
    ensures var t := s.With(c, phase);
            && t.Holders() == (if phase.Holding? then s.Holders() + {c} else s.Holders() - {c})
            && t.WaitingClients() == (if phase.Waiting? then s.WaitingClients() + {c} else s.WaitingClients() - {c})
            && t.NotifiedClients() == (if phase.Notified? then s.NotifiedClients() + {c} else s.NotifiedClients() - {c})
  {
  }

  lemma {:induction false} TailOfDistinct(list: seq<nat>)
    requires Distinct(list) && list != []
    ensures Distinct(list[1..]) && forall f :: f in list[1..] <==> f in list && f != list[0]
  {
    assert list == [list[0]] + list[1..];
    assert forall i :: 0 <= i < |list[1..]| ==> list[1..][i] == list[i + 1];
  }

  lemma {:induction false} TakeKeepsHeld(s: State, c: nat)
    requires Inv(s) && Enabled(s, Take(c))
    ensures HeldOk(Next(s, Take(c)))
  {
    var t, first := Next(s, Take(c)), s.available[0];
    TailOfDistinct(s.available);
    assert first in s.available;
    SetsAfter(s, c, Holding(first));
    assert t.Holders() == s.Holders() + {c};
    forall d | d in t.Holders()
      ensures t.clients[d].file == if d == c then first else s.clients[d].file
    {
    }
  }

  lemma {:induction false} TakeKeepsHandles(s: State, c: nat)
    requires Inv(s) && Enabled(s, Take(c))
    ensures HandlesOk(Next(s, Take(c)))
  {
    TailOfDistinct(s.available);
    TakeKeepsHeld(s, c);
  }

  lemma {:induction false} DropKeepsHandles(s: State, c: nat, woken: Option<nat>)
    requires Inv(s) && Enabled(s, Drop(c, woken))
    ensures HandlesOk(Next(s, Drop(c, woken)))
  {
    assert c in s.Holders();
    SetsAfter(s, c, Idle);
    if woken.Some? {
      SetsAfter(s.With(c, Idle), woken.value, Notified);
    }
  }

  lemma {:induction false} OpenKeepsHandles(s: State, c: nat)
    requires Inv(s) && Enabled(s, Open(c))
    ensures HandlesOk(Next(s, Open(c)))
  {
    SetsAfter(s, c, Holding(s.active));
  }

  lemma {:induction false} PhaseKeepsHandles(s: State, c: nat, phase: Phase)
    requires HandlesOk(s) && c < |s.clients| && !s.clients[c].Holding? && !phase.Holding?
    ensures HandlesOk(s.With(c, phase))
  {
    HoldersSame(s, c, phase);
    assert c !in s.Holders();
  }

  lemma {:induction false} HandlesKept(s: State, step: Step)
    requires Inv(s) && Enabled(s, step)
    ensures HandlesOk(Next(s, step))
  {
    match step {
      case Call(c) => { PhaseKeepsHandles(s, c, Entering); }
      case Take(c) => { TakeKeepsHandles(s, c); }
      case Open(c) => { OpenKeepsHandles(s, c); }
      case OpenFails(c) => { PhaseKeepsHandles(s, c, Idle); }
      case Sleep(c) => { PhaseKeepsHandles(s, c, Waiting); }
      case Drop(c, woken) => { DropKeepsHandles(s, c, woken); }
      case SpuriousWakeup(c) => { PhaseKeepsHandles(s, c, Notified); }
    }
  }

  lemma {:induction false} HolderAdded(s: State, c: nat, f: nat)
    requires s.Runs(c)
    ensures |s.With(c, Holding(f)).Holders()| == |s.Holders()| + 1
  {
    SetsAfter(s, c, Holding(f));
    assert c !in s.Holders();
  }

  lemma {:induction false} HolderDropped(s: State, c: nat, woken: Option<nat>)
    requires Enabled(s, Drop(c, woken))
    ensures |Next(s, Drop(c, woken)).Holders()| == |s.Holders()| - 1
  {
    assert c in s.Holders();
    SetsAfter(s, c, Idle);
    if woken.Some? {
      SetsAfter(s.With(c, Idle), woken.value, Notified);
    }
    assert Next(s, Drop(c, woken)).Holders() == s.Holders() - {c};
  }

  lemma {:induction false} HoldersSame(s: State, c: nat, phase: Phase)
    requires c < |s.clients| && !s.clients[c].Holding? && !phase.Holding?
    ensures s.With(c, phase).Holders() == s.Holders()
  {
  }

  lemma {:induction false} CountKept(s: State, step: Step)
    requires Inv(s) && Enabled(s, step)
    ensures CountOk(Next(s, step))
  {
    match step {
      case Call(c) => { HoldersSame(s, c, Entering); }
      case Take(c) => {
        HolderAdded(s, c, s.available[0]);
        assert Next(s, step).Holders() == s.With(c, Holding(s.available[0])).Holders();
      }
      case Open(c) => {
        HolderAdded(s, c, s.active);
        assert Next(s, step).Holders() == s.With(c, Holding(s.active)).Holders();
      }
      case OpenFails(c) => { HoldersSame(s, c, Idle); }
      case Sleep(c) => { HoldersSame(s, c, Waiting); }
      case Drop(c, woken) => { HolderDropped(s, c, woken); }
      case SpuriousWakeup(c) => { HoldersSame(s, c, Notified); }
    }
  }

  lemma {:induction false} WakeupsKept(s: State, step: Step)
    requires Inv(s) && Enabled(s, step)
    ensures WakeupsOk(Next(s, step))
  {
    var c, t := step.client, Next(s, step);
    match step {
      case Call(_) => { SetsAfter(s, c, Entering); }
      case Take(_) => {
        SetsAfter(s, c, Holding(s.available[0]));
        assert t.WaitingClients() == s.WaitingClients() && t.NotifiedClients() == s.NotifiedClients() - {c};
      }
      case Open(_) => { SetsAfter(s, c, Holding(s.active)); assert t.WaitingClients() == s.WaitingClients(); }
      case OpenFails(_) => { SetsAfter(s, c, Idle); assert t.WaitingClients() == s.WaitingClients(); }
      case Sleep(_) => { SetsAfter(s, c, Waiting); }
      case Drop(_, woken) => { DropWakes(s, c, woken); }
      case SpuriousWakeup(_) => { SetsAfter(s, c, Notified); }
    }
  }

  lemma {:induction false} DropWakes(s: State, c: nat, woken: Option<nat>)
    requires Inv(s) && Enabled(s, Drop(c, woken))
    ensures WakeupsOk(Next(s, Drop(c, woken)))
  {
    SetsAfter(s, c, Idle);
    if woken.Some? {
      var t := Next(s, Drop(c, woken));
      SetsAfter(s.With(c, Idle), woken.value, Notified);
      assert t.NotifiedClients() == s.NotifiedClients() + {woken.value};
      assert woken.value !in s.NotifiedClients();
    }
  }

  /** Every step keeps the invariant. */
  lemma {:induction false} StepKeepsInv(s: State, step: Step)
    requires Inv(s) && Enabled(s, step)
    ensures Inv(Next(s, step))
  {
    HandlesKept(s, step);
    CountKept(s, step);
    WakeupsKept(s, step);
  }

  // ---------------------------------------------------------------- whole runs

  /** A run: every state follows from the one before by some step. */
  ghost predicate IsRun(states: seq<State>, steps: seq<Step>) {
    && |states| == |steps| + 1 && Initial(states[0])
    && forall i :: 0 <= i < |steps| ==> Enabled(states[i], steps[i]) && states[i + 1] == Next(states[i], steps[i])
  }

  /** In every state of every run the counts agree, no two clients share a handle, and
      no wakeup is lost. */
  lemma {:induction false} RunsAreSafe(states: seq<State>, steps: seq<Step>, i: nat)
    requires IsRun(states, steps) && i < |states|
    ensures Inv(states[i])
  {
    if i == 0 {
      InitialHolds(states[0]);
    } else {
      RunsAreSafe(states, steps, i - 1);
      StepKeepsInv(states[i - 1], steps[i - 1]);
    }
  }

  /** The pool cannot get stuck: when some client wants a handle and nobody holds one,
      a client can run at once and get one, asleep as the others may be. */
  lemma {:induction false} NeverStuck(states: seq<State>, steps: seq<Step>, i: nat, c: nat)
    requires IsRun(states, steps) && i < |states|
    requires states[i].max > 0 && states[i].Holders() == {}
    requires c < |states[i].clients| && !states[i].clients[c].Idle?
    ensures exists d :: Enabled(states[i], Take(d)) || Enabled(states[i], Open(d))
  {
    RunsAreSafe(states, steps, i);
    var s := states[i];
    assert s.clients[c].Holding? ==> c in s.Holders();
    if s.clients[c].Waiting? {
      assert c in s.WaitingClients();
      assert |s.NotifiedClients()| > 0;
      var d :| d in s.NotifiedClients();
      assert Enabled(s, Take(d));
    } else {
      assert s.Runs(c);
      assert Enabled(s, Take(c)) || Enabled(s, Open(c));
    }
  }
}
