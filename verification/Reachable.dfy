/** Runs of a slot, call by call. `After` computes where a sequence of arrivals leads; a trace says the
    same of every state on the way, and the two agree. */
module Reachable {
  import opened Slot
  import opened Invariant
  import opened Lifetime

  /** The k-th call takes the k-th state of the trace to the next. */
  ghost predicate CallAt(env: Env, events: Events, trace: seq<State>, k: nat)
    requires k < |events| && |trace| == |events| + 1
  {
    && EventOk(events[k]) && Bounded(trace[k])
    && trace[k + 1] == Step(env, trace[k], events[k])
  }

  ghost predicate IsTrace(env: Env, events: Events, trace: seq<State>)
  {
    && |trace| == |events| + 1 && trace[0] == NEW_SLOT
    && forall k :: 0 <= k < |events| ==> CallAt(env, events, trace, k)
  }

  /** These arrivals take a new slot to this state. */
  ghost predicate Reaches(env: Env, events: Events, s: State)
  {
    exists trace :: IsTrace(env, events, trace) && s == trace[|events|]
  }

  lemma {:induction false} TraceIsAfter(env: Env, events: Events, trace: seq<State>, k: nat)
    requires IsTrace(env, events, trace) && k <= |events|
    ensures EventsOk(events[..k]) && trace[k] == After(env, events[..k])
    decreases k
  {
    hide Step, EventOk, Bounded;
    if k > 0 {
      TraceIsAfter(env, events, trace, k - 1);
      assert CallAt(env, events, trace, k - 1);
      assert events[..k][..k - 1] == events[..k - 1];
      assert events[..k][k - 1] == events[k - 1];
      assert EventsOk(events[..k]) by {
        assert forall i :: 0 <= i < k - 1 ==> events[..k][i] == events[..k - 1][i];
      }
    }
  }

  /** A reached state is the computed one. */
  lemma ReachesAfter(env: Env, events: Events, s: State)
    requires Reaches(env, events, s)
    ensures EventsOk(events) && s == After(env, events)
  {
    hide After;
    var trace :| IsTrace(env, events, trace) && s == trace[|events|];
    TraceIsAfter(env, events, trace, |events|);
    assert events[..|events|] == events;
  }

  /** And the computed state is reached. */
  lemma {:induction false} AfterReached(env: Env, events: Events)
    requires EventsOk(events)
    ensures Reaches(env, events, After(env, events))
    decreases |events|
  {
    hide Step, EventOk, Bounded;
    if events == [] {
      assert IsTrace(env, events, [NEW_SLOT]);
    } else {
      var n := |events| - 1;
      AfterReached(env, events[..n]);
      var before :| IsTrace(env, events[..n], before) && After(env, events[..n]) == before[n];
      var trace := before + [After(env, events)];
      forall k | 0 <= k < |events|
        ensures CallAt(env, events, trace, k)
      {
        if k < n { assert CallAt(env, events[..n], before, k); }
      }
      assert IsTrace(env, events, trace);
    }
  }

  /** In every reachable state the slot is at rest: all its invariants hold. */
  lemma ReachableRests(env: Env, events: Events, s: State)
    requires Reaches(env, events, s)
    ensures Resting(env, s)
  {
    hide Reaches, After, Resting;
    ReachesAfter(env, events, s);
    AlwaysRests(env, events);
  }
}
