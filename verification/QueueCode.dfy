// The atomic sections of OperationQueue and Semaphore as methods on their fields,
// each proved to be one step of the transition system.
module QueueCode {
  import opened Queue

  class Semaphore {
    var capacity: nat

    constructor (permits: nat)
      ensures capacity == permits
    {
      capacity := permits;
    }

    method Notify()
      modifies this
      ensures capacity == old(capacity) + 1
    {
      capacity := capacity + 1;
    }

    // One pass of the loop in wait(), under the mutex: takes a permit, or reports
    // that the caller has to sleep.
    method TryWait() returns (taken: bool)
      modifies this
      ensures taken <==> old(capacity) > 0
      ensures capacity == if taken then old(capacity) - 1 else old(capacity)
    {
      taken := capacity != 0;
      if taken { capacity := capacity - 1; }
    }
  }

  function Members(s: seq<Id>): set<Id> { set x | x in s }

  predicate Distinct(s: seq<Id>) {
    forall i, j :: 0 <= i < j < |s| ==> s[i] != s[j]
  }

  lemma AppendNew(s: seq<Id>, id: Id)
    requires Distinct(s) && id !in Members(s)
    ensures Distinct(s + [id]) && Members(s + [id]) == Members(s) + {id}
  {
  }

  lemma EmptyList(s: seq<Id>)
    ensures Members(s) == {} <==> s == []
  {
    if s != [] { assert s[0] in Members(s); }
  }

  // std::list::remove
  method Remove(s: seq<Id>, id: Id) returns (r: seq<Id>)
    requires Distinct(s)
    ensures Distinct(r) && Members(r) == Members(s) - {id}
  {
    r := [];
    for i := 0 to |s|
      invariant Distinct(r)
      invariant forall x :: x in r <==> x in s[..i] && x != id
    {
      assert s[..i + 1] == s[..i] + [s[i]];
      assert s[i] !in s[..i];
      if s[i] != id {
        assert s[i] !in r;
        r := r + [s[i]];
      }
    }
    assert s[..|s|] == s;
  }

  class OperationQueue {
    const priority: Id -> int
    var unscheduledOps: set<Id>
    var runningOps: seq<Id>
    var isRunning: bool
    const guard: Semaphore
    ghost const total: nat
    ghost var st: State

    ghost predicate Valid()
      reads this, guard
    {
      && Inv(st, total)
      && unscheduledOps == st.unscheduled
      && Distinct(runningOps) && Members(runningOps) == st.running
      && guard.capacity == st.permits
    }

    constructor (hardwareConcurrency: nat, prio: Id -> int)
      ensures Valid() && fresh(guard) && st == Init(hardwareConcurrency) && total == hardwareConcurrency
    {
      priority := prio;
      unscheduledOps, runningOps, isRunning := {}, [], false;
      guard := new Semaphore(hardwareConcurrency);
      total := hardwareConcurrency;
      st := Init(hardwareConcurrency);
      InvInit(hardwareConcurrency);
    }

    ghost method Take(a: Action)
      requires Inv(st, total) && Enabled(priority, st, a)
      modifies this`st
      ensures st == Apply(old(st), a) && Inv(st, total)
    {
      InvStep(priority, st, a, total);
      st := Apply(st, a);
    }

    method Add(op: Id)
      requires Valid() && !Known(st, op)
      modifies this
      ensures Valid() && st == Apply(old(st), AddOp(op))
    {
      unscheduledOps := unscheduledOps + {op};
      Take(AddOp(op));
    }

    // execute(true): starts the scheduling thread and goes to wait for its end.
    method Execute()
      requires Valid() && st.main == Idle
      modifies this`st, this`isRunning
      ensures Valid() && isRunning && st == Apply(old(st), Queue.Execute)
    {
      isRunning := true;
      Take(Queue.Execute);
    }

    // waitForScheduled() returns: the scheduling thread has ended.
    method WaitForScheduled()
      requires Valid() && st.main == Joining && st.exe == Stopped
      modifies this`st
      ensures Valid() && st == Apply(old(st), JoinExe)
    {
      Take(JoinExe);
    }

    // waitForFinished() has joined all workers, and resets the queue: an operation that
    // is still there is cancelled, which waits for ever for an operation that never
    // starts. Nothing is running any more.
    method WaitForFinished() returns (reset: bool)
      requires Valid() && Enabled(priority, st, JoinWorkers)
      modifies this`st, this`isRunning
      ensures Valid() && st == Apply(old(st), JoinWorkers) && runningOps == []
      ensures reset <==> old(unscheduledOps) == {}
      ensures reset ==> st.main == Idle && !isRunning
      ensures !reset ==> st.main == Hung
    {
      reset := unscheduledOps == {};
      assert st.running == {};
      EmptyList(runningOps);
      Take(JoinWorkers);
      if reset { isRunning := false; }
    }

    // The loop condition of the scheduling thread.
    method HasUnscheduled() returns (more: bool)
      requires Valid() && st.exe == Check
      modifies this`st
      ensures Valid() && st == Apply(old(st), ExeCheck) && (more <==> st.exe == Acquire)
    {
      more := unscheduledOps != {};
      Take(ExeCheck);
    }

    method WaitForPermit() returns (taken: bool)
      requires Valid() && st.exe == Acquire
      modifies this`st, guard
      ensures Valid() && st == Apply(old(st), ExeAcquire) && (taken <==> st.exe == Holding)
    {
      taken := guard.TryWait();
      Take(ExeAcquire);
    }

    // top(), pop() and push_back() under the mutex. The queue cannot be empty here.
    method Schedule() returns (op: Id)
      requires Valid() && st.exe == Holding
      modifies this
      ensures Valid() && Enabled(priority, old(st), ExeSchedule(op)) && st == Apply(old(st), ExeSchedule(op))
      ensures runningOps == old(runningOps) + [op]
    {
      ghost var top := TopExists(priority, unscheduledOps);
      op :| op in unscheduledOps && forall x :: x in unscheduledOps ==> !OpGreaterPriority(priority, op, x);
      assert Places(st, op) <= 1;
      assert op !in st.running;
      AppendNew(runningOps, op);
      unscheduledOps := unscheduledOps - {op};
      runningOps := runningOps + [op];
      Take(ExeSchedule(op));
    }

    // The operation is in the running list, and is not any more afterwards.
    method Finished(op: Id)
      requires Valid() && op in st.ran
      modifies this
      ensures Valid() && st == Apply(old(st), Finish(op))
      ensures op in old(runningOps) && op !in runningOps
    {
      assert op in Members(runningOps);
      runningOps := Remove(runningOps, op);
      assert op !in Members(runningOps);
      Take(Finish(op));
    }

    method GiveBack(op: Id)
      requires Valid() && op in st.removed
      modifies this`st, guard
      ensures Valid() && st == Apply(old(st), Notify(op))
    {
      guard.Notify();
      Take(Notify(op));
    }
  }
}
