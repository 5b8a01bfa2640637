/** The order in which the background run takes a project's steps: by step
    number, ties broken by id. */
module StepOrdering {
  import opened Models

  /** The order of the step query: by step number, ties by id (row order). */
  predicate Before(steps: map<nat, Step>, a: nat, b: nat)
    requires a in steps && b in steps
  {
    steps[a].number < steps[b].number || (steps[a].number == steps[b].number && a <= b)
  }

  /** Every non-empty set of step ids has a last element in the query order. */
  lemma {:induction false} HasLast(steps: map<nat, Step>, ids: set<nat>)
    requires ids != {} && ids <= steps.Keys
    ensures exists m :: m in ids && forall y :: y in ids ==> Before(steps, y, m)
    decreases |ids|
  {
    var x :| x in ids;
    var rest := ids - {x};
    assert ids == rest + {x};
    if rest == {} {
      assert forall y :: y in ids ==> y == x;
      assert Before(steps, x, x);
    } else {
      HasLast(steps, rest);
      var m :| m in rest && forall y :: y in rest ==> Before(steps, y, m);
      LastAfterInsert(steps, rest, x, m);
    }
  }

  /** Adding `x` to a set whose last element is `m` makes the later of the
      two the last element. */
  lemma LastAfterInsert(steps: map<nat, Step>, rest: set<nat>, x: nat, m: nat)
    requires rest <= steps.Keys && x in steps && m in rest
    requires forall y :: y in rest ==> Before(steps, y, m)
    ensures var w := if Before(steps, x, m) then m else x;
      w in rest + {x} && forall y :: y in rest + {x} ==> Before(steps, y, w)
  {
  }

  /** The last id of a non-empty set in the query order. */
  function LastOf(steps: map<nat, Step>, ids: set<nat>): (m: nat)
    requires ids != {} && ids <= steps.Keys
    ensures m in ids && forall y :: y in ids ==> Before(steps, y, m)
  {
    HasLast(steps, ids);
    var m :| m in ids && forall y :: y in ids ==> Before(steps, y, m);
    m
  }

  /** The ids of `ids` in query order. */
  function Ordered(steps: map<nat, Step>, ids: set<nat>): (r: seq<nat>)
    requires ids <= steps.Keys
    ensures forall i :: 0 <= i < |r| ==> r[i] in ids
    ensures forall id :: id in ids ==> id in r
    ensures forall i, j :: 0 <= i < j < |r| ==> r[i] != r[j] && Before(steps, r[i], r[j])
    decreases |ids|
  {
    if ids == {} then []
    else
      var m := LastOf(steps, ids);
      Ordered(steps, ids - {m}) + [m]
  }

  /** The ids of project `pid`'s steps. */
  function ProjectSteps(steps: map<nat, Step>, pid: nat): (ids: set<nat>)
    ensures ids <= steps.Keys
  {
    set id | id in steps && steps[id].projectId == pid
  }

  /** The steps the run walks through: every step of the project exactly once,
      by ascending step number. */
  function StepOrder(steps: map<nat, Step>, pid: nat): (r: seq<nat>)
    ensures forall id :: id in r <==> id in steps && steps[id].projectId == pid
    ensures forall i, j :: 0 <= i < j < |r| ==> r[i] != r[j] && steps[r[i]].number <= steps[r[j]].number
  {
    Ordered(steps, ProjectSteps(steps, pid))
  }
}
