/**
 Two deterministic processes whose enabled steps commute: one schedule that ends
 decides where, and after how many steps, every schedule ends.
 */
module Confluence {
  import opened Wrappers

  datatype Who = ByClient | ByServer

  function Other(who: Who): Who { if who == ByClient then ByServer else ByClient }

  type StepFn<!X> = (X, Who) -> Option<X>

  predicate Stuck<X>(step: StepFn<X>, x: X) { step(x, ByClient).None? && step(x, ByServer).None? }

  /** When both can step from x, each can still make its step after the other's, and they meet. */
  ghost predicate Diamond<X(!new)>(step: StepFn<X>)
  {
    forall x, who :: step(x, who).Some? && step(x, Other(who)).Some? ==>
      && step(step(x, who).value, Other(who)).Some?
      && step(step(x, who).value, Other(who)) == step(step(x, Other(who)).value, who)
  }

  /** x can reach y in k steps. */
  ghost predicate Reaches<X(!new)>(step: StepFn<X>, x: X, k: nat, y: X)
    decreases k
  {
    if k == 0 then x == y
    else exists who :: step(x, who).Some? && Reaches(step, step(x, who).value, k - 1, y)
  }

  /** If one schedule ends in a stuck state, every first step is on the way there. */
  lemma {:induction false} OneStepOnTheWay<X(!new)>(step: StepFn<X>, x: X, k: nat, end: X, who: Who)
    requires Diamond(step) && Reaches(step, x, k, end) && Stuck(step, end) && step(x, who).Some?
    ensures k > 0 && Reaches(step, step(x, who).value, k - 1, end)
    decreases k
  {
    assert who == ByClient || who == ByServer;
    var first :| step(x, first).Some? && Reaches(step, step(x, first).value, k - 1, end);
    if first != who {
      assert who == Other(first);
      var y, z := step(x, first).value, step(x, who).value;
      OneStepOnTheWay(step, y, k - 1, end, who);
      assert step(z, first) == step(y, who);
    }
  }

  /** The state after a schedule, or None when one of its steps was not enabled. */
  function After<X>(step: StepFn<X>, x: X, schedule: seq<Who>): Option<X>
    decreases |schedule|
  {
    if schedule == [] then Some(x)
    else if step(x, schedule[0]).None? then None
    else After(step, step(x, schedule[0]).value, schedule[1..])
  }

  /**
   The schedule is no longer than k, the rest of the k steps still lead from where
   it stopped to the end, and it can go no further exactly when it is there.
   */
  ghost predicate Arrives<X(!new)>(step: StepFn<X>, x: X, k: nat, end: X, schedule: seq<Who>)
    requires After(step, x, schedule).Some?
  {
    var y := After(step, x, schedule).value;
    && |schedule| <= k && Reaches(step, y, k - |schedule|, end)
    && (Stuck(step, y) <==> y == end)
    && (Stuck(step, y) ==> |schedule| == k)
  }

  /** Every schedule stays on the way, and one that can go no further has arrived. */
  lemma {:induction false} EveryScheduleArrives<X(!new)>(step: StepFn<X>, x: X, k: nat, end: X, schedule: seq<Who>)
    requires Diamond(step) && Reaches(step, x, k, end) && Stuck(step, end) && After(step, x, schedule).Some?
    ensures Arrives(step, x, k, end, schedule)
    decreases |schedule|
  {
    if schedule == [] {
      if k > 0 {
        var first :| step(x, first).Some? && Reaches(step, step(x, first).value, k - 1, end);
        assert first == ByClient || first == ByServer;
      }
    } else {
      OneStepOnTheWay(step, x, k, end, schedule[0]);
      EveryScheduleArrives(step, step(x, schedule[0]).value, k - 1, end, schedule[1..]);
    }
  }

  lemma {:induction false} ReachesTrans<X(!new)>(step: StepFn<X>, x: X, i: nat, y: X, j: nat, z: X)
    requires Reaches(step, x, i, y) && Reaches(step, y, j, z)
    ensures Reaches(step, x, i + j, z)
    decreases i
  {
    if i > 0 {
      var who :| step(x, who).Some? && Reaches(step, step(x, who).value, i - 1, y);
      ReachesTrans(step, step(x, who).value, i - 1, y, j, z);
    }
  }
}
