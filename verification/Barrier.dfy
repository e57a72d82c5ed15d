/** The cyclic barrier as a state machine: a thread's section under the lock, up to its return or its wait, is one step,
    and so is each look at the round after a wakeup, spurious or not. */
module Barrier {

  datatype Thread = Outside | Waiting(round: nat)

  /** The fields of the barrier, the threads in `wait`, and a record of who arrived in which round and who returned
      from which with which result. */
  datatype State = State(threshold: nat, count: nat, round: nat, threads: map<nat, Thread>,
                         arrivals: seq<nat>, left: seq<Return>)

  datatype Return = Return(round: nat, result: bool)

  datatype Step = Arrive(thread: nat) | Recheck(thread: nat)

  function Init(threshold: nat, threads: set<nat>): (s: State) {
    State(threshold, 0, 0, map t | t in threads :: Outside, [], [])
  }

  predicate Enabled(s: State, e: Step) {
    e.thread in s.threads && (e.Arrive? <==> s.threads[e.thread] == Outside)
  }

  function Apply(s: State, e: Step): (r: State)
    requires Enabled(s, e)
  {
    match e
    case Arrive(t) =>
      var a := s.(arrivals := s.arrivals + [s.round]);
      if s.count + 1 == s.threshold then a.(round := s.round + 1, count := 0, left := s.left + [Return(s.round, true)])
      else a.(count := s.count + 1, threads := s.threads[t := Waiting(s.round)])
    case Recheck(t) =>
      var mine := s.threads[t].round;
      if s.round == mine then s
      else s.(threads := s.threads[t := Outside], left := s.left + [Return(mine, false)])
  }

  // ---------- counting ----------

  /** How often x occurs. */
  function Times<T(==)>(q: seq<T>, x: T): (n: nat) {
    if q == [] then 0 else Times(q[..|q| - 1], x) + (if q[|q| - 1] == x then 1 else 0)
  }

  lemma TimesPush<T>(q: seq<T>, y: T, x: T)
    ensures Times(q + [y], x) == Times(q, x) + (if y == x then 1 else 0)
  {
    assert (q + [y])[..|q|] == q;
  }

  function WaitingIn(s: State, r: nat): (ts: set<nat>) {
    set t | t in s.threads && s.threads[t] == Waiting(r)
  }

  /** Round r: all its arrivals are there when it is over, none before it has begun; one return of it is true, when it is
      over, and none before; and everyone who arrived has returned or waits. */
  ghost predicate RoundOk(s: State, r: nat) {
    && Times(s.arrivals, r) == (if r < s.round then s.threshold else if r == s.round then s.count else 0)
    && Times(s.left, Return(r, true)) == (if r < s.round then 1 else 0)
    && Times(s.arrivals, r) == Times(s.left, Return(r, true)) + Times(s.left, Return(r, false)) + |WaitingIn(s, r)|
    && (r >= s.round ==> Times(s.left, Return(r, false)) == 0)
  }

  ghost predicate Inv(s: State) {
    && s.count < s.threshold
    && forall r: nat {:trigger RoundOk(s, r)} :: RoundOk(s, r)
  }

  lemma InitInv(threshold: nat, threads: set<nat>)
    requires threshold > 0
    ensures Inv(Init(threshold, threads))
  {
    var s := Init(threshold, threads);
    forall r: nat ensures RoundOk(s, r) { assert WaitingIn(s, r) == {}; }
  }

  lemma ArriveRound(s: State, t: nat, r: nat)
    requires Inv(s) && Enabled(s, Arrive(t))
    ensures RoundOk(Apply(s, Arrive(t)), r)
  {
    assert RoundOk(s, r);
    var s' := Apply(s, Arrive(t));
    TimesPush(s.arrivals, s.round, r);
    TimesPush(s.left, Return(s.round, true), Return(r, true));
    TimesPush(s.left, Return(s.round, true), Return(r, false));
    assert t !in WaitingIn(s, r);
    assert WaitingIn(s', r) == if s.count + 1 != s.threshold && r == s.round then WaitingIn(s, r) + {t} else WaitingIn(s, r);
  }

  lemma RecheckRound(s: State, t: nat, r: nat)
    requires Inv(s) && Enabled(s, Recheck(t))
    ensures RoundOk(Apply(s, Recheck(t)), r)
  {
    assert RoundOk(s, r);
    var s', mine := Apply(s, Recheck(t)), s.threads[t].round;
    if s.round != mine {
      RecheckWaits(s, t, r);
      assert RoundOk(s, mine);
      hide Inv, WaitingIn;
      TimesPush(s.left, Return(mine, false), Return(r, true));
      TimesPush(s.left, Return(mine, false), Return(r, false));
    }
  }

  /** One thread fewer waits in its round. */
  lemma RecheckWaits(s: State, t: nat, r: nat)
    requires Enabled(s, Recheck(t)) && s.round != s.threads[t].round
    ensures var s', mine := Apply(s, Recheck(t)), s.threads[t].round;
      |WaitingIn(s, r)| == |WaitingIn(s', r)| + (if r == mine then 1 else 0)
    ensures WaitingIn(s, s.threads[t].round) != {}
  {
    var s', mine := Apply(s, Recheck(t)), s.threads[t].round;
    assert t in WaitingIn(s, mine);
    assert WaitingIn(s', r) == if r == mine then WaitingIn(s, r) - {t} else WaitingIn(s, r);
  }

  lemma StepInv(s: State, e: Step)
    requires Inv(s) && Enabled(s, e)
    ensures Inv(Apply(s, e)) && Apply(s, e).threshold == s.threshold
  {
    hide RoundOk;
    forall r: nat ensures RoundOk(Apply(s, e), r) {
      if e.Arrive? { ArriveRound(s, e.thread, r); } else { RecheckRound(s, e.thread, r); }
    }
  }

  // ---------- runs ----------

  ghost predicate Run(threshold: nat, threads: set<nat>, es: seq<Step>, s: seq<State>) {
    && |s| == |es| + 1 && s[0] == Init(threshold, threads)
    && forall i {:trigger StepAt(es, s, i)} | 0 <= i < |es| :: StepAt(es, s, i)
  }

  ghost predicate StepAt(es: seq<Step>, s: seq<State>, i: int) {
    0 <= i < |es| && i + 1 < |s| && Enabled(s[i], es[i]) && s[i + 1] == Apply(s[i], es[i])
  }

  lemma {:induction false} RunInv(threshold: nat, threads: set<nat>, es: seq<Step>, s: seq<State>, k: nat)
    requires threshold > 0 && Run(threshold, threads, es, s) && k < |s|
    ensures Inv(s[k]) && s[k].threshold == threshold
  {
    if k == 0 {
      InitInv(threshold, threads);
    } else {
      RunInv(threshold, threads, es, s, k - 1);
      assert StepAt(es, s, k - 1);
      StepInv(s[k - 1], es[k - 1]);
    }
  }

  lemma {:induction false} TimesIn<T>(q: seq<T>, x: T)
    ensures x in q <==> Times(q, x) > 0
  {
    if q != [] {
      TimesIn(q[..|q| - 1], x);
      assert q == q[..|q| - 1] + [q[|q| - 1]];
    }
  }

  /** In every interleaving, a thread that has left a round was preceded by all its arrivals, and just one of them was
      told true. */
  lemma NobodyLeavesEarly(threshold: nat, threads: set<nat>, es: seq<Step>, s: seq<State>, k: nat, x: Return)
    requires threshold > 0 && Run(threshold, threads, es, s) && k < |s| && x in s[k].left
    ensures Times(s[k].arrivals, x.round) == threshold
    ensures Times(s[k].left, Return(x.round, true)) == 1
    ensures Times(s[k].left, Return(x.round, false)) + |WaitingIn(s[k], x.round)| == threshold - 1
  {
    RunInv(threshold, threads, es, s, k);
    TimesIn(s[k].left, x);
    assert x == Return(x.round, x.result) && RoundOk(s[k], x.round);
  }
}
