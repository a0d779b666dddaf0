/**
 * `WorkQueue`: cooperative background work.  `schedule` appends a task and
 * asks the host for an idle callback; the host answers by calling `run` with
 * a deadline, and `run` takes tasks off the front while the deadline allows,
 * then either fires the completion listeners or asks for another callback.
 *
 * The host is modelled by the `handle` flag (an idle callback is pending)
 * and the `requests` counter (idle callbacks asked for); the driver calls
 * `Run` for a pending callback.  The deadline is an oracle: `timeRemaining()`
 * is positive on the first `fast` checks of the loop condition and zero from
 * then on, and `didTimeout` is fixed for the call.
 */
module WorkQueues {
  import opened Tasks

  class WorkQueue {
    /** `_timeout`, passed to the host with every request. */
    const timeout: int
    /** `_tasks`, front first. */
    var tasks: seq<Task>
    /** `_after`, the completion listeners. */
    var after: seq<Listener>
    /** `_canceled`. */
    var canceled: bool
    /** `_done`: the listeners have been called by `run` or `cancel`. */
    var done: bool
    /** `_handle != null`: an idle callback is pending. */
    var handle: bool
    /** `_deadline != null`: inside `run`. */
    var inRun: bool
    /** Idle callbacks requested from the host so far. */
    var requests: nat
    /** Every task called so far, in order. */
    var executed: seq<Task>
    /** Every listener call so far, in order. */
    var calls: seq<Call>
    /** Every task that got onto the queue, in order. */
    ghost var queued: seq<Task>
    /** Every task `cancel` threw away, in the order it was queued. */
    ghost var dropped: seq<Task>

    /**
     * Each task that got onto the queue was called once, thrown away once,
     * or is still waiting, and the three together keep the order of
     * queueing; a canceled queue holds nothing, and only `cancel` throws
     * tasks away.
     */
    ghost predicate Valid()
      reads this
    {
      executed + dropped + tasks == queued && (canceled ==> tasks == []) && (!canceled ==> dropped == [])
    }

    constructor (timeout: int)
      ensures Valid() && this.timeout == timeout
      ensures tasks == [] && after == [] && !canceled && !done && !handle && !inRun
      ensures requests == 0 && executed == [] && calls == [] && queued == [] && dropped == []
    {
      this.timeout := timeout;
      tasks := [];
      after := [];
      canceled := false;
      done := false;
      handle := false;
      inRun := false;
      requests := 0;
      executed := [];
      calls := [];
      queued := [];
      dropped := [];
    }

    /** `after(fn)`: called at once with `canceled` on a done queue, otherwise kept for later. */
    method After(fn: Listener)
      modifies this`after, this`calls
      ensures done ==> after == old(after) && calls == old(calls) + [Call(fn, canceled)]
      ensures !done ==> after == old(after) + [fn] && calls == old(calls)
    {
      if done {
        calls := calls + [Call(fn, canceled)];
      } else {
        after := after + [fn];
      }
    }

    /** Calls every listener with the current `canceled` flag. */
    method FireAll()
      modifies this`calls
      ensures calls == old(calls) + Fired(after, canceled)
    {
      for i := 0 to |after|
        invariant calls == old(calls) + Fired(after[..i], canceled)
      {
        assert after[..i + 1][..i] == after[..i];
        calls := calls + [Call(after[i], canceled)];
      }
      assert after[..|after|] == after;
    }

    /**
     * `cancel()`.  Its guard reads `this.canceled`, a field that is never
     * set, so the guard always passes: every call cancels again and, outside
     * `run`, calls every listener again, even on a queue already done.
     */
    method Cancel()
      requires Valid()
      modifies this
      ensures Valid() && canceled && !handle && tasks == []
      ensures executed == old(executed) && queued == old(queued) && dropped == old(dropped) + old(tasks)
      ensures !inRun ==> done && calls == old(calls) + Fired(after, true)
      ensures inRun ==> done == old(done) && calls == old(calls)
      ensures after == old(after) && inRun == old(inRun) && requests == old(requests)
    {
      canceled := true;
      if handle {
        handle := false;
      }
      dropped := dropped + tasks;
      PopAll();
      if !inRun {
        done := true;
        FireAll();
      }
    }

    /** Empties the queue from the back, one task at a time. */
    method PopAll()
      modifies this`tasks
      ensures tasks == []
    {
      while |tasks| > 0
        decreases |tasks|
      {
        tasks := tasks[..|tasks| - 1];
      }
    }

    /**
     * `schedule(func, ...args)`: ignored on a canceled queue; otherwise the
     * task joins the back, and an idle callback is requested when none is
     * pending and no `run` is active.
     */
    method Schedule(t: Task)
      requires Valid()
      modifies this
      ensures Valid()
      ensures old(canceled) ==> tasks == old(tasks) && queued == old(queued)
      ensures !old(canceled) ==> tasks == old(tasks) + [t] && queued == old(queued) + [t]
      ensures handle == (old(handle) || (!old(canceled) && !inRun))
      ensures requests == old(requests) + if handle && !old(handle) then 1 else 0
      ensures executed == old(executed) && dropped == old(dropped) && calls == old(calls)
      ensures after == old(after) && canceled == old(canceled) && done == old(done) && inRun == old(inRun)
    {
      if !canceled {
        tasks := tasks + [t];
        queued := queued + [t];
        if !handle && !inRun {
          handle := true;
          requests := requests + 1;
        }
      }
    }

    /** One action of a task body run from inside `run`: a `schedule` or a `cancel` call on this queue. */
    method Perform(a: Action)
      requires Valid() && inRun && !handle && !a.Throw?
      modifies this
      ensures Valid() && inRun && !handle
      ensures canceled == (old(canceled) || a.Stop?)
      ensures queued == old(queued) + if !old(canceled) && a.Spawn? then [a.task] else []
      ensures !canceled ==> tasks == old(tasks) + if a.Spawn? then [a.task] else []
      ensures old(dropped) <= dropped
      ensures executed == old(executed) && calls == old(calls) && after == old(after)
      ensures done == old(done) && requests == old(requests)
    {
      if a.Spawn? {
        Schedule(a.task);
      } else {
        Cancel();
      }
    }

    /**
     * A task's body run from inside `run`: its `schedule` calls append to
     * the queue without a request, its `cancel` empties the queue without
     * calling listeners, and a throw ends it.
     */
    method Execute(body: seq<Action>)
      requires Valid() && inRun && !handle
      modifies this
      ensures Valid() && inRun && !handle
      ensures queued == old(queued) + Accepted(body, old(canceled))
      ensures canceled == (old(canceled) || Cancels(body))
      ensures !canceled ==> tasks == old(tasks) + Accepted(body, false)
      ensures old(dropped) <= dropped
      ensures executed == old(executed) && calls == old(calls) && after == old(after)
      ensures done == old(done) && requests == old(requests)
    {
      var rest := body;
      ghost var added: seq<Task> := [];
      while rest != [] && !rest[0].Throw?
        invariant Valid() && inRun && !handle
        invariant queued == old(queued) + added
        invariant Accepted(body, old(canceled)) == added + Accepted(rest, canceled)
        invariant (old(canceled) || Cancels(body)) == (canceled || Cancels(rest))
        invariant !canceled ==> tasks == old(tasks) + added
        invariant old(dropped) <= dropped
        invariant executed == old(executed) && calls == old(calls) && after == old(after)
        invariant done == old(done) && requests == old(requests)
      {
        ghost var step := if !canceled && rest[0].Spawn? then [rest[0].task] else [];
        Perform(rest[0]);
        added := added + step;
        rest := rest[1..];
      }
    }

    /**
     * The task loop of `run`: while time remains (the first `fast` checks)
     * or the callback timed out and fewer than `m` tasks have run, with
     * tasks waiting and the queue not canceled, the front task is taken off
     * and called.  `n` tasks run.
     */
    method Drain(fast: nat, didTimeout: bool, m: int) returns (n: nat)
      requires Valid() && inRun && !handle
      modifies this
      ensures Valid() && inRun && !handle
      ensures n == |executed| - |old(executed)| && n <= (if didTimeout && m > fast then m else fast)
      ensures tasks == [] || canceled || (n >= fast && !(didTimeout && n < m))
      ensures old(queued) <= queued && old(dropped) <= dropped && old(executed) <= executed
      ensures old(canceled) ==> canceled
      ensures calls == old(calls) && after == old(after) && done == old(done) && requests == old(requests)
    {
      n := 0;
      while (n < fast || (n < m && didTimeout)) && |tasks| > 0 && !canceled
        invariant Valid() && inRun && !handle
        invariant n == |executed| - |old(executed)| && n <= (if didTimeout && m > fast then m else fast)
        invariant old(queued) <= queued && old(dropped) <= dropped && old(executed) <= executed
        invariant old(canceled) ==> canceled
        invariant calls == old(calls) && after == old(after) && done == old(done) && requests == old(requests)
        decreases (if didTimeout && m > fast then m else fast) - n
      {
        n := n + 1;
        var t := tasks[0];
        tasks := tasks[1..];
        executed := executed + [t];
        Execute(t.body);
      }
    }

    /**
     * `run(deadline)`: while time remains (or, once it is up, while the
     * callback timed out and fewer than twice the entry length of tasks
     * have run), with tasks waiting and the queue not canceled, the front
     * task is called.  Then, if the queue is empty or canceled and not yet
     * done, it becomes done and calls every listener; otherwise a new idle
     * callback is requested while tasks remain.
     */
    method Run(fast: nat, didTimeout: bool)
      requires Valid()
      modifies this
      ensures Valid() && !inRun
      ensures old(queued) <= queued && old(dropped) <= dropped && old(executed) <= executed
      ensures var ran, m := |executed| - |old(executed)|, 2 * |old(tasks)|;
        ran <= (if didTimeout && m > fast then m else fast)
        && (tasks == [] || canceled || (ran >= fast && !(didTimeout && ran < m)))
      ensures old(canceled) ==> canceled
      ensures done == (old(done) || tasks == [] || canceled)
      ensures (tasks == [] || canceled) && !old(done) ==> calls == old(calls) + Fired(after, canceled)
      ensures !((tasks == [] || canceled) && !old(done)) ==> calls == old(calls)
      ensures handle == (tasks != [] && !canceled)
      ensures requests == old(requests) + if handle then 1 else 0
      ensures after == old(after)
    {
      inRun := true;
      handle := false;
      var n := Drain(fast, didTimeout, |tasks| * 2);
      if (|tasks| <= 0 || canceled) && !done {
        done := true;
        FireAll();
      }
      inRun := false;
      if |tasks| > 0 && !canceled {
        handle := true;
        requests := requests + 1;
      }
    }
  }
}
