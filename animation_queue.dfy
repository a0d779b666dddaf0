/**
 * `AnimationQueue`: DOM updates deferred to the next animation frame.
 * `schedule` appends a task and asks the host for a frame; the host answers
 * by calling `run`, which drains the whole queue, tasks scheduled meanwhile
 * included, and then calls the completion listeners.
 *
 * The host is modelled by the `handle` flag (a frame is pending) and the
 * `requests` counter (frames asked for); the frame time `run` receives is
 * only logged and is left out.
 */
module AnimationQueues {
  import opened Tasks

  class AnimationQueue {
    /** `_tasks`, front first. */
    var tasks: seq<Task>
    /** `_after`, the completion listeners. */
    var after: seq<Listener>
    /** `_canceled`. */
    var canceled: bool
    /** `_done`. */
    var done: bool
    /** `_handle != null`: a frame is pending. */
    var handle: bool
    /** `_updating`: inside `run`. */
    var updating: bool
    /** Animation frames requested from the host so far. */
    var requests: nat
    /** Every task called so far, in order. */
    var executed: seq<Task>
    /** Every listener call so far, in order. */
    var calls: seq<Call>
    /** Every task that got onto the queue, in order. */
    ghost var queued: seq<Task>
    /** Every task `cancel` threw away, in the order it was queued. */
    ghost var dropped: seq<Task>

    /**
     * Each task that got onto the queue was called once, thrown away once,
     * or is still waiting, in the order of queueing; a canceled queue holds
     * nothing, and only `cancel` throws tasks away.
     */
    ghost predicate Valid()
      reads this
    {
      executed + dropped + tasks == queued && (canceled ==> tasks == []) && (!canceled ==> dropped == [])
    }

    constructor ()
      ensures Valid()
      ensures tasks == [] && after == [] && !canceled && !done && !handle && !updating
      ensures requests == 0 && executed == [] && calls == [] && queued == [] && dropped == []
    {
      tasks := [];
      after := [];
      canceled := false;
      done := false;
      handle := false;
      updating := false;
      requests := 0;
      executed := [];
      calls := [];
      queued := [];
      dropped := [];
    }

    /** `after(fn)`: called at once with `canceled` on a done queue, otherwise kept for later. */
    method After(fn: Listener)
      modifies this`after, this`calls
      ensures done ==> after == old(after) && calls == old(calls) + [Call(fn, canceled)]
      ensures !done ==> after == old(after) + [fn] && calls == old(calls)
    {
      if done {
        calls := calls + [Call(fn, canceled)];
      } else {
        after := after + [fn];
      }
    }

    /** Calls every listener with the current `canceled` flag. */
    method FireAll()
      modifies this`calls
      ensures calls == old(calls) + Fired(after, canceled)
    {
      for i := 0 to |after|
        invariant calls == old(calls) + Fired(after[..i], canceled)
      {
        assert after[..i + 1][..i] == after[..i];
        calls := calls + [Call(after[i], canceled)];
      }
      assert after[..|after|] == after;
    }

    /**
     * `cancel()`: no guard; the queue is canceled and emptied and becomes
     * done, and outside `run` every listener is called with `true`.
     */
    method Cancel()
      requires Valid()
      modifies this
      ensures Valid() && canceled && done && !handle && tasks == []
      ensures executed == old(executed) && queued == old(queued) && dropped == old(dropped) + old(tasks)
      ensures updating ==> calls == old(calls)
      ensures !updating ==> calls == old(calls) + Fired(after, true)
      ensures after == old(after) && updating == old(updating) && requests == old(requests)
    {
      canceled := true;
      if handle {
        handle := false;
      }
      dropped := dropped + tasks;
      PopAll();
      done := true;
      if !updating {
        FireAll();
      }
    }

    /** Empties the queue from the back, one task at a time. */
    method PopAll()
      modifies this`tasks
      ensures tasks == []
    {
      while |tasks| > 0
        decreases |tasks|
      {
        tasks := tasks[..|tasks| - 1];
      }
    }

    /**
     * `schedule(func, ...args)`: ignored on a canceled queue; otherwise the
     * task joins the back, and a frame is requested when none is pending
     * and no `run` is active.
     */
    method Schedule(t: Task)
      requires Valid()
      modifies this
      ensures Valid()
      ensures old(canceled) ==> tasks == old(tasks) && queued == old(queued)
      ensures !old(canceled) ==> tasks == old(tasks) + [t] && queued == old(queued) + [t]
      ensures handle == (old(handle) || (!old(canceled) && !updating))
      ensures requests == old(requests) + if handle && !old(handle) then 1 else 0
      ensures executed == old(executed) && dropped == old(dropped) && calls == old(calls)
      ensures after == old(after) && canceled == old(canceled) && done == old(done) && updating == old(updating)
    {
      if !canceled {
        tasks := tasks + [t];
        queued := queued + [t];
        if !handle && !updating {
          handle := true;
          requests := requests + 1;
        }
      }
    }

    /** One action of a task body run from inside `run`: a `schedule` or a `cancel` call on this queue. */
    method Perform(a: Action)
      requires Valid() && updating && !a.Throw?
      modifies this
      ensures Valid() && updating
      ensures canceled == (old(canceled) || a.Stop?)
      ensures queued == old(queued) + if !old(canceled) && a.Spawn? then [a.task] else []
      ensures !canceled ==> tasks == old(tasks) + if a.Spawn? then [a.task] else []
      ensures old(dropped) <= dropped
      ensures executed == old(executed) && calls == old(calls) && after == old(after)
      ensures done == (old(done) || a.Stop?) && requests == old(requests)
    {
      if a.Spawn? {
        Schedule(a.task);
      } else {
        Cancel();
      }
    }

    /**
     * A task's body run from inside `run`: its `schedule` calls append to
     * the queue without a request, its `cancel` empties the queue and marks
     * it done without calling listeners, and a throw ends it.
     */
    method Execute(body: seq<Action>)
      requires Valid() && updating
      modifies this
      ensures Valid() && updating
      ensures queued == old(queued) + Accepted(body, old(canceled))
      ensures canceled == (old(canceled) || Cancels(body))
      ensures !canceled ==> tasks == old(tasks) + Accepted(body, false)
      ensures old(dropped) <= dropped
      ensures executed == old(executed) && calls == old(calls) && after == old(after)
      ensures done == (old(done) || Cancels(body)) && requests == old(requests)
    {
      var rest := body;
      ghost var added: seq<Task> := [];
      while rest != [] && !rest[0].Throw?
        invariant Valid() && updating
        invariant queued == old(queued) + added
        invariant Accepted(body, old(canceled)) == added + Accepted(rest, canceled)
        invariant (old(canceled) || Cancels(body)) == (canceled || Cancels(rest))
        invariant (old(done) || Cancels(body)) == (done || Cancels(rest))
        invariant !canceled ==> tasks == old(tasks) + added
        invariant old(dropped) <= dropped
        invariant executed == old(executed) && calls == old(calls) && after == old(after)
        invariant requests == old(requests)
      {
        ghost var step := if !canceled && rest[0].Spawn? then [rest[0].task] else [];
        Perform(rest[0]);
        added := added + step;
        rest := rest[1..];
      }
    }

    /**
     * The task loop of `run`: the front task is taken off and called while
     * tasks wait and the queue is not canceled.  It ends because every task
     * body is finite: each call replaces a task by the tasks it schedules,
     * which are smaller.
     */
    method Drain()
      requires Valid() && updating
      modifies this
      ensures Valid() && updating && (tasks == [] || canceled)
      ensures old(queued) <= queued && old(dropped) <= dropped && old(executed) <= executed
      ensures old(canceled) ==> canceled
      ensures calls == old(calls) && after == old(after) && requests == old(requests)
    {
      while |tasks| > 0 && !canceled
        invariant Valid() && updating
        invariant old(queued) <= queued && old(dropped) <= dropped && old(executed) <= executed
        invariant old(canceled) ==> canceled
        invariant calls == old(calls) && after == old(after) && requests == old(requests)
        decreases Weight(tasks)
      {
        var t := tasks[0];
        ghost var lighter := Weight(tasks[1..] + Accepted(t.body, false));
        RunFrontLighter(tasks, false);
        tasks := tasks[1..];
        executed := executed + [t];
        Execute(t.body);
        assert canceled || Weight(tasks) == lighter;
      }
    }

    /**
     * `run(frametime)`: the front task is called while tasks wait and the
     * queue is not canceled; tasks scheduled meanwhile join the same drain.
     * The completion test reads `tasks.length <= 0 || (canceled && !done)`,
     * since `&&` binds tighter than `||`, so every run ends by marking the
     * queue done and calling every listener, not only the first; the
     * request for another frame is never reached.
     */
    method Run()
      requires Valid()
      modifies this
      ensures Valid() && !updating && !handle && done && tasks == []
      ensures old(queued) <= queued && old(dropped) <= dropped && old(executed) <= executed
      ensures old(canceled) ==> canceled
      ensures calls == old(calls) + Fired(after, canceled)
      ensures after == old(after) && requests == old(requests)
    {
      updating := true;
      Drain();
      if |tasks| <= 0 || (canceled && !done) {
        done := true;
        FireAll();
      }
      updating := false;
      handle := false;
      if |tasks| > 0 && !canceled {
        // Never reached: the drain above leaves the queue empty or canceled.
        assert false;
      }
    }
  }
}
