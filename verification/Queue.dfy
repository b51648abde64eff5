// OperationQueue and Semaphore: one thread schedules operations by priority onto
// worker threads, no more at a time than the semaphore has permits. The model is a
// transition system over all interleavings of the clients that add operations, the
// scheduling thread, the workers, and the thread that executes the queue and waits.
module Queue {

  type Id = nat

  // What happens to an operation, in the history of a run.
  datatype Event = Added(id: Id) | Scheduled(id: Id) | Started(id: Id) | Destroyed(id: Id)

  // The scheduling thread: about to test whether the queue is empty, about to look
  // at the permits, asleep in the semaphore, holding a permit, out of its loop.
  datatype Exe = Check | Acquire | Asleep | Holding | Stopped

  // The thread that runs the queue: outside; in waitForScheduled(); in
  // waitForFinished(); blocked for ever in the cancel() of an operation that was
  // never started.
  datatype Main = Idle | Joining | Waiting | Hung

  datatype State = State(
    permits: nat,            // Semaphore::_capacity
    exe: Exe,
    main: Main,
    unscheduled: set<Id>,    // unscheduledOps
    running: set<Id>,        // runningOps
    ready: set<Id>,          // worker threads by position: before start(),
    ran: set<Id>,            // before finished(),
    removed: set<Id>,        // before notify(),
    done: set<Id>,           // ended
    retired: set<Id>,        // operations of earlier rounds
    late: set<Id>,           // added after the scheduling thread has left its loop
    log: seq<Event>)

  predicate Known(s: State, id: Id) {
    id in s.unscheduled || id in s.ready || id in s.ran || id in s.removed || id in s.done || id in s.retired
  }

  function Init(capacity: nat): State {
    State(capacity, Stopped, Idle, {}, {}, {}, {}, {}, {}, {}, {}, [])
  }

  // The comparator of the priority queue.
  predicate OpGreaterPriority(prio: Id -> int, lhs: Id, rhs: Id) {
    prio(lhs) < prio(rhs)
  }

  // What may be on top of it: an element that the comparator puts before no other.
  ghost predicate IsTop(prio: Id -> int, ops: set<Id>, id: Id) {
    id in ops && forall x :: x in ops ==> !OpGreaterPriority(prio, id, x)
  }

  datatype Action =
    | AddOp(id: Id)
    | Execute
    | ExeCheck
    | ExeAcquire
    | SpuriousWake
    | ExeSchedule(id: Id)
    | Run(id: Id)
    | Finish(id: Id)
    | Notify(id: Id)
    | JoinExe
    | JoinWorkers

  ghost predicate Enabled(prio: Id -> int, s: State, a: Action) {
    match a
    case AddOp(id) => !Known(s, id)
    case Execute => s.main == Idle
    case ExeCheck => s.exe == Check
    case ExeAcquire => s.exe == Acquire
    case SpuriousWake => s.exe == Asleep
    case ExeSchedule(id) => s.exe == Holding && IsTop(prio, s.unscheduled, id)
    case Run(id) => id in s.ready
    case Finish(id) => id in s.ran
    case Notify(id) => id in s.removed
    case JoinExe => s.main == Joining && s.exe == Stopped
    case JoinWorkers => s.main == Waiting && s.ready == s.ran == s.removed == {}
  }

  function Apply(s: State, a: Action): State {
    match a
    case AddOp(id) =>
      s.(unscheduled := s.unscheduled + {id},
         late := if s.main != Idle && s.exe == Stopped then s.late + {id} else s.late,
         log := s.log + [Added(id)])
    case Execute => s.(main := Joining, exe := Check)
    case ExeCheck => s.(exe := if s.unscheduled == {} then Stopped else Acquire)
    case ExeAcquire =>
      if s.permits == 0 then s.(exe := Asleep) else s.(exe := Holding, permits := s.permits - 1)
    case SpuriousWake => s.(exe := Acquire)
    case ExeSchedule(id) =>
      s.(exe := Check, unscheduled := s.unscheduled - {id}, running := s.running + {id},
         ready := s.ready + {id}, log := s.log + [Scheduled(id)])
    case Run(id) => s.(ready := s.ready - {id}, ran := s.ran + {id}, log := s.log + [Started(id)])
    case Finish(id) =>
      s.(ran := s.ran - {id}, removed := s.removed + {id}, running := s.running - {id},
         log := s.log + [Destroyed(id)])
    case Notify(id) =>
      s.(removed := s.removed - {id}, done := s.done + {id}, permits := s.permits + 1,
         exe := if s.exe == Asleep then Acquire else s.exe)
    case JoinExe => s.(main := Waiting)
    case JoinWorkers =>
      if s.unscheduled == {}
      then s.(main := Idle, retired := s.retired + s.done, done := {}, late := {})
      else s.(main := Hung)
  }

  // --- the invariant ---

  // The events of one operation.
  function Events(log: seq<Event>, id: Id): seq<Event> {
    if log == [] then []
    else
      var rest := Events(log[..|log| - 1], id);
      if log[|log| - 1].id == id then rest + [log[|log| - 1]] else rest
  }

  function History(s: State, id: Id): seq<Event> {
    if id in s.unscheduled then [Added(id)]
    else if id in s.ready then [Added(id), Scheduled(id)]
    else if id in s.ran then [Added(id), Scheduled(id), Started(id)]
    else if id in s.removed + s.done + s.retired then [Added(id), Scheduled(id), Started(id), Destroyed(id)]
    else []
  }

  // Every permit is with the semaphore, with the scheduling thread, or with a worker
  // that has not given it back.
  predicate PermitsBalance(s: State, capacity: nat) {
    s.permits + (if s.exe == Holding then 1 else 0) + |s.ready| + |s.ran| + |s.removed| == capacity
  }

  function One(b: bool): nat { if b then 1 else 0 }

  // The number of places that an operation is in.
  function Places(s: State, id: Id): nat {
    One(id in s.unscheduled) + One(id in s.ready) + One(id in s.ran)
    + One(id in s.removed) + One(id in s.done) + One(id in s.retired)
  }

  ghost predicate Apart(s: State) {
    forall id :: Places(s, id) <= 1
  }

  // How the positions of the two threads and the queue hang together.
  predicate Phases(s: State) {
    && (s.exe in {Acquire, Asleep, Holding} ==> s.unscheduled != {})
    && (s.exe == Asleep ==> s.permits == 0)
    && (s.main in {Idle, Waiting, Hung} ==> s.exe == Stopped)
    && (s.main in {Idle, Hung} ==> s.ready == s.ran == s.removed == {})
    && (s.main == Idle ==> s.done == {} && s.late == {})
    && (s.main == Hung ==> s.unscheduled != {})
    && (s.main != Idle && s.exe == Stopped ==> s.unscheduled == s.late)
    && (s.exe != Stopped ==> s.late == {})
  }

  ghost predicate Inv(s: State, capacity: nat) {
    PermitsBalance(s, capacity) && Apart(s) && s.running == s.ready + s.ran && Phases(s)
  }

  ghost predicate Recorded(s: State) {
    forall id :: Events(s.log, id) == History(s, id)
  }

  lemma InvInit(capacity: nat)
    ensures Inv(Init(capacity), capacity) && Recorded(Init(capacity))
  {
  }

  lemma CardMove(a: set<Id>, b: set<Id>, id: Id)
    requires id in a && id !in b
    ensures |a - {id}| == |a| - 1 && |b + {id}| == |b| + 1
  {
  }

  lemma PermitsStep(prio: Id -> int, s: State, a: Action, capacity: nat)
    requires PermitsBalance(s, capacity) && Apart(s) && Phases(s) && Enabled(prio, s, a)
    ensures PermitsBalance(Apply(s, a), capacity)
  {
    match a
    case ExeSchedule(id) => assert Places(s, id) <= 1; CardMove(s.unscheduled, s.ready, id);
    case Run(id) => assert Places(s, id) <= 1; CardMove(s.ready, s.ran, id);
    case Finish(id) => assert Places(s, id) <= 1; CardMove(s.ran, s.removed, id);
    case Notify(id) => assert Places(s, id) <= 1; CardMove(s.removed, s.done, id);
    case _ =>
  }

  lemma ApartStep(prio: Id -> int, s: State, a: Action)
    requires Apart(s) && Enabled(prio, s, a)
    ensures Apart(Apply(s, a))
  {
    forall id ensures Places(Apply(s, a), id) <= 1 {
      assert Places(s, id) <= 1;
    }
  }

  lemma RunningStep(prio: Id -> int, s: State, a: Action)
    requires Apart(s) && s.running == s.ready + s.ran && Enabled(prio, s, a)
    ensures Apply(s, a).running == Apply(s, a).ready + Apply(s, a).ran
  {
    if a.Finish? { assert Places(s, a.id) <= 1; }
  }

  lemma PhasesStep(prio: Id -> int, s: State, a: Action)
    requires Phases(s) && Enabled(prio, s, a)
    ensures Phases(Apply(s, a))
  {
  }

  // Every atomic step keeps the invariant, whoever takes it.
  lemma InvStep(prio: Id -> int, s: State, a: Action, capacity: nat)
    requires Inv(s, capacity) && Enabled(prio, s, a)
    ensures Inv(Apply(s, a), capacity)
  {
    PermitsStep(prio, s, a, capacity);
    ApartStep(prio, s, a);
    RunningStep(prio, s, a);
    PhasesStep(prio, s, a);
  }

  lemma EventsSnoc(log: seq<Event>, e: Event, id: Id)
    ensures Events(log + [e], id) == if e.id == id then Events(log, id) + [e] else Events(log, id)
  {
    assert (log + [e])[..|log + [e]| - 1] == log;
  }

  // What an action adds to the log.
  function Logged(a: Action): seq<Event> {
    match a
    case AddOp(id) => [Added(id)]
    case ExeSchedule(id) => [Scheduled(id)]
    case Run(id) => [Started(id)]
    case Finish(id) => [Destroyed(id)]
    case _ => []
  }

  // The part of it that concerns one operation.
  function LoggedFor(a: Action, id: Id): seq<Event> {
    if Logged(a) != [] && Logged(a)[0].id == id then Logged(a) else []
  }

  lemma EventsStep(s: State, a: Action, id: Id)
    ensures Events(Apply(s, a).log, id) == Events(s.log, id) + LoggedFor(a, id)
  {
    assert Apply(s, a).log == s.log + Logged(a);
    if Logged(a) == [] {
      assert s.log + Logged(a) == s.log;
    } else {
      EventsSnoc(s.log, Logged(a)[0], id);
    }
  }

  lemma HistoryStep(prio: Id -> int, s: State, a: Action, id: Id)
    requires Places(s, id) <= 1 && Enabled(prio, s, a)
    ensures History(Apply(s, a), id) == History(s, id) + LoggedFor(a, id)
  {
  }

  lemma RecordedStep(prio: Id -> int, s: State, a: Action)
    requires Apart(s) && Recorded(s) && Enabled(prio, s, a)
    ensures Recorded(Apply(s, a))
  {
    forall id ensures Events(Apply(s, a).log, id) == History(Apply(s, a), id) {
      EventsStep(s, a, id);
      HistoryStep(prio, s, a, id);
    }
  }

  // --- runs ---

  ghost predicate Path(prio: Id -> int, s: State, actions: seq<Action>, t: State)
    decreases |actions|
  {
    if actions == [] then s == t
    else Enabled(prio, s, actions[0]) && Path(prio, Apply(s, actions[0]), actions[1..], t)
  }

  lemma {:induction false} PathInv(prio: Id -> int, s: State, actions: seq<Action>, t: State, capacity: nat)
    requires Inv(s, capacity) && Recorded(s) && Path(prio, s, actions, t)
    ensures Inv(t, capacity) && Recorded(t)
    decreases |actions|
  {
    if actions != [] {
      InvStep(prio, s, actions[0], capacity);
      RecordedStep(prio, s, actions[0]);
      PathInv(prio, Apply(s, actions[0]), actions[1..], t, capacity);
    }
  }

  // In every reachable state: no more workers are active than there were permits;
  // the scheduling thread takes the top of a queue that is not empty; finished()
  // finds its operation in the running list; and every operation that was added is in
  // exactly one place, with the history that belongs to that place.
  lemma Safety(prio: Id -> int, capacity: nat, actions: seq<Action>, s: State)
    requires Path(prio, Init(capacity), actions, s)
    ensures s.permits + One(s.exe == Holding) + |s.ready + s.ran + s.removed| == capacity
    ensures s.exe == Holding ==> s.unscheduled != {}
    ensures forall id :: id in s.ran ==> id in s.running
    ensures forall id :: Added(id) in s.log ==> Places(s, id) == 1
    ensures Recorded(s)
  {
    InvInit(capacity);
    PathInv(prio, Init(capacity), actions, s, capacity);
    ActiveCard(s);
    forall id | Added(id) in s.log ensures Places(s, id) == 1 {
      assert Places(s, id) <= 1 && Events(s.log, id) == History(s, id);
      EventsContain(s.log, Added(id));
    }
  }

  lemma ActiveCard(s: State)
    requires Apart(s)
    ensures |s.ready + s.ran + s.removed| == |s.ready| + |s.ran| + |s.removed|
  {
    forall id | id in s.ready ensures id !in s.ran + s.removed { assert Places(s, id) <= 1; }
    forall id | id in s.ran ensures id !in s.removed { assert Places(s, id) <= 1; }
    assert s.ready !! s.ran && (s.ready + s.ran) !! s.removed;
  }

  lemma {:induction false} EventsContain(log: seq<Event>, e: Event)
    requires e in log
    ensures e in Events(log, e.id)
  {
    if log[|log| - 1] != e {
      EventsContain(log[..|log| - 1], e);
    }
  }

  // --- progress ---

  // The steps of a round that are sure to be taken: all but additions, the decision
  // to execute the queue, and wake-ups without a reason.
  predicate Internal(a: Action) {
    !a.AddOp? && !a.Execute? && !a.SpuriousWake?
  }

  lemma {:induction false} TopExists(prio: Id -> int, ops: set<Id>) returns (id: Id)
    requires ops != {}
    ensures IsTop(prio, ops, id)
  {
    id :| id in ops;
    if ops != {id} {
      var x := TopExists(prio, ops - {id});
      assert forall y :: y in ops ==> y == id || y in ops - {id};
      id := if prio(id) < prio(x) then x else id;
    }
  }

  // While the queue is being executed or waited for, something can happen: the
  // scheduling thread sleeps only while a worker holds a permit.
  lemma Progress(prio: Id -> int, s: State, capacity: nat) returns (a: Action)
    requires Inv(s, capacity) && capacity >= 1 && s.main in {Joining, Waiting}
    ensures Internal(a) && Enabled(prio, s, a)
  {
    if id :| id in s.ready {
      a := Run(id);
    } else if id :| id in s.ran {
      a := Finish(id);
    } else if id :| id in s.removed {
      a := Notify(id);
    } else if s.exe == Check {
      a := ExeCheck;
    } else if s.exe == Acquire {
      a := ExeAcquire;
    } else if s.exe == Holding {
      var id := TopExists(prio, s.unscheduled);
      a := ExeSchedule(id);
    } else if s.main == Joining {
      assert s.exe != Asleep;
      a := JoinExe;
    } else {
      a := JoinWorkers;
    }
  }

  function ExeRank(e: Exe): nat {
    match e case Check => 3 case Acquire => 2 case Asleep => 1 case Holding => 1 case Stopped => 0
  }

  function MainRank(m: Main): nat {
    match m case Joining => 2 case Waiting => 1 case Idle => 0 case Hung => 0
  }

  // How many steps a round can still take at most.
  function Measure(s: State): nat {
    7 * |s.unscheduled| + 4 * |s.ready| + 3 * |s.ran| + 2 * |s.removed| + ExeRank(s.exe) + MainRank(s.main)
  }

  lemma MeasureDecreases(prio: Id -> int, s: State, a: Action)
    requires Apart(s) && Phases(s) && Enabled(prio, s, a) && Internal(a)
    ensures Measure(Apply(s, a)) < Measure(s)
  {
    match a
    case ExeSchedule(id) => assert Places(s, id) <= 1; ScheduleDecreases(s, id);
    case Run(id) => assert Places(s, id) <= 1; RunDecreases(s, id);
    case Finish(id) => assert Places(s, id) <= 1; FinishDecreases(s, id);
    case Notify(id) => NotifyDecreases(s, id);
    case _ =>
  }

  lemma ScheduleDecreases(s: State, id: Id)
    requires s.exe == Holding && id in s.unscheduled && id !in s.ready
    ensures Measure(Apply(s, ExeSchedule(id))) < Measure(s)
  {
    CardMove(s.unscheduled, s.ready, id);
  }

  lemma RunDecreases(s: State, id: Id)
    requires id in s.ready && id !in s.ran
    ensures Measure(Apply(s, Run(id))) < Measure(s)
  {
    CardMove(s.ready, s.ran, id);
  }

  lemma FinishDecreases(s: State, id: Id)
    requires id in s.ran && id !in s.removed
    ensures Measure(Apply(s, Finish(id))) < Measure(s)
  {
    CardMove(s.ran, s.removed, id);
  }

  lemma NotifyDecreases(s: State, id: Id)
    requires id in s.removed
    ensures Measure(Apply(s, Notify(id))) < Measure(s)
  {
    CardMove(s.removed, s.done - {id}, id);
  }

  ghost predicate AllInternal(actions: seq<Action>) {
    forall i :: 0 <= i < |actions| ==> Internal(actions[i])
  }

  // So no run of internal steps is longer than the measure of its first state.
  lemma {:induction false} RunsEnd(prio: Id -> int, s: State, actions: seq<Action>, t: State, capacity: nat)
    requires Inv(s, capacity) && Path(prio, s, actions, t) && AllInternal(actions)
    ensures |actions| + Measure(t) <= Measure(s)
    decreases |actions|
  {
    if actions != [] {
      InvStep(prio, s, actions[0], capacity);
      MeasureDecreases(prio, s, actions[0]);
      RunsEnd(prio, Apply(s, actions[0]), actions[1..], t, capacity);
    }
  }

  // --- a whole round ---

  function All(s: State): set<Id> {
    s.unscheduled + s.ready + s.ran + s.removed + s.done + s.retired
  }

  lemma RoundStep(prio: Id -> int, s: State, a: Action)
    requires Enabled(prio, s, a) && Internal(a)
    ensures All(Apply(s, a)) == All(s)
    ensures s.late == {} ==> Apply(s, a).late == {}
    ensures (s.main == Idle ==> s.unscheduled == {}) ==> (Apply(s, a).main == Idle ==> Apply(s, a).unscheduled == {})
  {
  }

  lemma {:induction false} RoundKeeps(prio: Id -> int, s: State, actions: seq<Action>, t: State)
    requires Path(prio, s, actions, t) && AllInternal(actions)
    requires s.late == {} && (s.main == Idle ==> s.unscheduled == {})
    ensures t.late == {} && All(t) == All(s) && (t.main == Idle ==> t.unscheduled == {})
    decreases |actions|
  {
    if actions != [] {
      RoundStep(prio, s, actions[0]);
      RoundKeeps(prio, Apply(s, actions[0]), actions[1..], t);
    }
  }

  // The end of a round after any run, with operations added and threads woken up at any
  // time: if no operation came too late, then when waitForFinished() has returned every
  // operation that was ever added has been started once and destroyed once, all permits
  // are back, and the queue is as good as new.
  lemma Quiescence(prio: Id -> int, capacity: nat, actions: seq<Action>, s: State)
    requires Path(prio, Init(capacity), actions, s) && Enabled(prio, s, JoinWorkers) && s.late == {}
    ensures var t := Apply(s, JoinWorkers);
            && Inv(t, capacity) && Recorded(t)
            && t.main == Idle && t.permits == capacity && t.unscheduled == t.running == {}
            && forall id :: Added(id) in t.log ==>
                 Events(t.log, id) == [Added(id), Scheduled(id), Started(id), Destroyed(id)]
  {
    InvInit(capacity);
    PathInv(prio, Init(capacity), actions, s, capacity);
    InvStep(prio, s, JoinWorkers, capacity);
    RecordedStep(prio, s, JoinWorkers);
    var t := Apply(s, JoinWorkers);
    forall id | Added(id) in t.log
      ensures Events(t.log, id) == [Added(id), Scheduled(id), Started(id), Destroyed(id)]
    {
      EventsContain(t.log, Added(id));
      assert Events(t.log, id) == History(t, id);
    }
  }

  // If nobody adds an operation after execute(true) was called, every run that can go no
  // further has come to such an end.
  lemma RoundCompletes(prio: Id -> int, s: State, actions: seq<Action>, t: State, capacity: nat)
    requires Inv(s, capacity) && s.main == Idle
    requires Path(prio, Apply(s, Execute), actions, t) && AllInternal(actions)
    requires t.main !in {Joining, Waiting}
    ensures t.main == Idle && Inv(t, capacity)
    ensures t.permits == capacity && t.unscheduled == t.running == {}
    ensures t.retired == s.unscheduled + s.retired
  {
    InvStep(prio, s, Execute, capacity);
    RoundInv(prio, Apply(s, Execute), actions, t, capacity);
    RoundKeeps(prio, Apply(s, Execute), actions, t);
    assert t.main == Idle;
    assert All(t) == t.retired && All(s) == s.unscheduled + s.retired;
  }

  lemma {:induction false} RoundInv(prio: Id -> int, s: State, actions: seq<Action>, t: State, capacity: nat)
    requires Inv(s, capacity) && Path(prio, s, actions, t)
    ensures Inv(t, capacity)
    decreases |actions|
  {
    if actions != [] {
      InvStep(prio, s, actions[0], capacity);
      RoundInv(prio, Apply(s, actions[0]), actions[1..], t, capacity);
    }
  }

  // An operation may come too late: added after the scheduling thread has found the
  // queue empty, but before it has been waited for.
  lemma LateExists(prio: Id -> int, capacity: nat, id: Id) returns (actions: seq<Action>, s: State)
    ensures Path(prio, Init(capacity), actions, s)
    ensures s.late == {id} && Enabled(prio, s, JoinWorkers) && Apply(s, JoinWorkers).main == Hung
  {
    var s1 := Apply(Init(capacity), Execute);
    var s2 := Apply(s1, ExeCheck);
    var s3 := Apply(s2, AddOp(id));
    s := Apply(s3, JoinExe);
    actions := [Execute, ExeCheck, AddOp(id), JoinExe];
    assert actions[1..] == [ExeCheck, AddOp(id), JoinExe];
    assert actions[1..][1..] == [AddOp(id), JoinExe];
    assert actions[1..][1..][1..] == [JoinExe];
    assert actions[1..][1..][1..][1..] == [];
    assert Path(prio, s, [], s);
    assert Path(prio, s3, [JoinExe], s);
    assert Path(prio, s2, [AddOp(id), JoinExe], s);
    assert Path(prio, s1, [ExeCheck, AddOp(id), JoinExe], s);
  }

  // An operation added after the scheduling thread has left its loop is never
  // started, and then, and only then, waitForFinished() blocks for ever.
  lemma HangsIff(prio: Id -> int, s: State, capacity: nat)
    requires Inv(s, capacity) && Enabled(prio, s, JoinWorkers)
    ensures Apply(s, JoinWorkers).main == Hung <==> s.late != {}
    ensures s.late != {} ==> forall a :: Internal(a) ==> !Enabled(prio, Apply(s, JoinWorkers), a)
  {
  }

  // --- priorities ---

  // The operations scheduled by some actions, in order.
  function Order(actions: seq<Action>): seq<Id> {
    if actions == [] then []
    else (if actions[0].ExeSchedule? then [actions[0].id] else []) + Order(actions[1..])
  }

  lemma {:induction false} OrderFrom(prio: Id -> int, s: State, actions: seq<Action>, t: State)
    requires Path(prio, s, actions, t) && AllInternal(actions)
    ensures forall id :: id in Order(actions) ==> id in s.unscheduled
    decreases |actions|
  {
    if actions != [] { OrderFrom(prio, Apply(s, actions[0]), actions[1..], t); }
  }

  // A round schedules the operations that are waiting by falling priority.
  lemma {:induction false} OrderFalls(prio: Id -> int, s: State, actions: seq<Action>, t: State)
    requires Path(prio, s, actions, t) && AllInternal(actions)
    ensures forall i, j :: 0 <= i < j < |Order(actions)| ==> prio(Order(actions)[i]) >= prio(Order(actions)[j])
    decreases |actions|
  {
    if actions != [] {
      var a, rest := actions[0], Order(actions[1..]);
      OrderFalls(prio, Apply(s, a), actions[1..], t);
      OrderFrom(prio, Apply(s, a), actions[1..], t);
      if a.ExeSchedule? {
        forall j | 0 <= j < |rest| ensures prio(a.id) >= prio(rest[j]) {
          assert rest[j] in rest && !OpGreaterPriority(prio, a.id, rest[j]);
        }
      }
    }
  }
}
