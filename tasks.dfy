/**
 * Tasks and completion listeners shared by `WorkQueue` and `AnimationQueue`.
 *
 * A queued task is a function with its arguments; here it is data: an
 * identifier and the list of actions its body performs on the queue it was
 * scheduled on.  `Spawn(t)` is a call of `schedule` with task `t`, `Stop`
 * is a call of `cancel`, and `Throw` is an exception, which ends the body
 * (the queue's `run` catches it and goes on with the next task).  A
 * completion listener is an identifier; calling it is recorded as a `Call`
 * carrying the `canceled` flag it was passed.
 */
module Tasks {

  datatype Action = Spawn(task: Task) | Stop | Throw

  datatype Task = Task(id: nat, body: seq<Action>)

  type Listener = nat

  datatype Call = Call(listener: Listener, canceled: bool)

  /** `for (let fn of this._after) fn(this._canceled)`: every listener, in order, called with `canceled`. */
  function Fired(after: seq<Listener>, canceled: bool): (calls: seq<Call>)
    ensures |calls| == |after|
    ensures forall i | 0 <= i < |after| :: calls[i] == Call(after[i], canceled)
  {
    if |after| == 0 then [] else Fired(after[..|after| - 1], canceled) + [Call(after[|after| - 1], canceled)]
  }

  /**
   * The tasks a body gets onto a queue whose `canceled` flag is `canceled`:
   * none once the queue is canceled, else those spawned before the first
   * `Stop` or `Throw`.
   */
  function Accepted(body: seq<Action>, canceled: bool): (ts: seq<Task>)
    ensures canceled ==> ts == []
    ensures |ts| <= |body|
  {
    if canceled || |body| == 0 then []
    else match body[0]
      case Spawn(t) => [t] + Accepted(body[1..], false)
      case Stop => []
      case Throw => []
  }

  /** Whether a body calls `cancel` before it throws. */
  predicate Cancels(body: seq<Action>) {
    |body| > 0 && match body[0]
      case Spawn(_) => Cancels(body[1..])
      case Stop => true
      case Throw => false
  }

  /** Whether `body` only spawns: it neither cancels nor throws. */
  predicate SpawnsOnly(body: seq<Action>) {
    forall i | 0 <= i < |body| :: body[i].Spawn?
  }

  /** The tasks a body that only spawns schedules, in order. */
  function Spawned(body: seq<Action>): (ts: seq<Task>)
    requires SpawnsOnly(body)
    ensures |ts| == |body|
    ensures forall i | 0 <= i < |body| :: ts[i] == body[i].task
  {
    if |body| == 0 then [] else [body[0].task] + Spawned(body[1..])
  }

  /** The size of a task: one for itself plus the size of its body. */
  function Size(t: Task): nat {
    1 + BodySize(t.body)
  }

  /** The size of an action: a spawned task counts its size, any other action one. */
  function ActionSize(a: Action): nat
    decreases a
  {
    match a
    case Spawn(t) => 1 + BodySize(t.body)
    case Stop => 1
    case Throw => 1
  }

  /** The size of a body: the summed sizes of its actions. */
  function BodySize(body: seq<Action>): nat
    decreases body
  {
    if |body| == 0 then 0 else ActionSize(body[0]) + BodySize(body[1..])
  }

  /** The summed sizes of a list of tasks. */
  function Weight(ts: seq<Task>): nat {
    if |ts| == 0 then 0 else Size(ts[0]) + Weight(ts[1..])
  }

  // ---------------------------------------------------------------------
  // Properties
  // ---------------------------------------------------------------------

  /** A body that only spawns gets all its tasks onto a live queue, in order, and never cancels. */
  lemma {:induction false} SpawnsOnlyAccepted(body: seq<Action>)
    requires SpawnsOnly(body)
    ensures Accepted(body, false) == Spawned(body)
    ensures !Cancels(body)
  {
    if |body| > 0 {
      SpawnsOnlyAccepted(body[1..]);
    }
  }

  /**
   * Running two bodies one after the other: the second body's tasks are
   * accepted only if the first neither canceled the queue nor threw.
   */
  lemma {:induction false} AcceptedAppend(b: seq<Action>, c: seq<Action>)
    requires SpawnsOnly(b)
    ensures Accepted(b + c, false) == Spawned(b) + Accepted(c, false)
    ensures Cancels(b + c) == Cancels(c)
  {
    if |b| > 0 {
      assert (b + c)[0] == b[0] && (b + c)[1..] == b[1..] + c;
      AcceptedAppend(b[1..], c);
    } else {
      assert b + c == c;
    }
  }

  /** Whatever follows a `Throw` has no effect on the queue. */
  lemma ThrowEndsBody(b: seq<Action>, c: seq<Action>)
    requires SpawnsOnly(b)
    ensures Accepted(b + [Throw] + c, false) == Spawned(b)
    ensures !Cancels(b + [Throw] + c)
  {
    AcceptedAppend(b, [Throw] + c);
    assert b + [Throw] + c == b + ([Throw] + c);
  }

  /** The weight of two lists one after the other is the sum of their weights. */
  lemma {:induction false} WeightAppend(a: seq<Task>, b: seq<Task>)
    ensures Weight(a + b) == Weight(a) + Weight(b)
  {
    if |a| == 0 {
      assert a + b == b;
    } else {
      assert (a + b)[0] == a[0] && (a + b)[1..] == a[1..] + b;
      WeightAppend(a[1..], b);
    }
  }

  /** The tasks a body gets onto a queue weigh no more than the body itself. */
  lemma {:induction false} AcceptedLighter(body: seq<Action>, canceled: bool)
    ensures Weight(Accepted(body, canceled)) <= BodySize(body)
  {
    if !canceled && |body| > 0 {
      AcceptedLighter(body[1..], false);
      if body[0].Spawn? {
        assert Accepted(body, false) == [body[0].task] + Accepted(body[1..], false);
        WeightAppend([body[0].task], Accepted(body[1..], false));
        assert Weight([body[0].task]) == Size(body[0].task);
      }
    }
  }

  /**
   * Running the front task of a non-empty queue and adding what it accepts
   * leaves a lighter queue: a queue drained without a budget empties.
   */
  lemma RunFrontLighter(ts: seq<Task>, canceled: bool)
    requires |ts| > 0
    ensures Weight(ts[1..] + Accepted(ts[0].body, canceled)) < Weight(ts)
  {
    WeightAppend(ts[1..], Accepted(ts[0].body, canceled));
    AcceptedLighter(ts[0].body, canceled);
  }
}
