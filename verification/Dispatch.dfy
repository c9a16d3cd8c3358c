/**
 * Orders for one deployment: controllers that hold the lease, frontends that
 * read it, one generation counter in a database that may be restored from a
 * backup, and runners that receive the orders late, out of order, more than
 * once or never, and serve any number of them at once
 * (bentod/src/runners.rs, bentod/src/sshd.rs, crates/runner/src/lib.rs).
 */
module Dispatch {
  import opened Options
  import opened ControllerStore
  import Fence

  /** A controller speaks under the lease it holds, a frontend under the one it reads. */
  datatype LeaseSource = Held(lease: Lease) | Current

  /** An order is dispatched in three steps that other processes can separate. */
  datatype Progress =
    | Ready
    | Leased(lease: Lease)
    | Numbered(order: Order)

  datatype Process = Process(source: LeaseSource, progress: Progress)

  /** `era` counts the restores before the order was numbered. */
  datatype Order = Order(objectId: string, generation: int, digest: string, requestId: string, lease: Lease, era: nat)

  /** An order that went through the fence, and when it read and wrote what, in steps of its runner. */
  datatype Served = Served(order: Order, epochReadAt: nat, objectReadAt: nat, epochWrittenAt: nat, objectWrittenAt: nat)

  /** How far a runner is with an order. */
  datatype Task =
    | EpochRead(order: Order, epochReadAt: nat)
    | Decided(order: Order, epochReadAt: nat, objectReadAt: nat)
    | EpochWritten(order: Order, epochReadAt: nat, objectReadAt: nat, epochWrittenAt: nat)
    | Working(served: Served)

  datatype Done = Done(served: Served, endedAt: nat)

  /** Something was written for an order. */
  datatype Mark = Mark(order: Order, at: nat)

  /** `epochs` and `objects` are the writes ever made, `log` the work that ended, all oldest first. */
  datatype Runner = Runner(machine: string, memory: Fence.Memory, tick: nat, tasks: map<nat, Task>,
                           epochs: seq<Mark>, objects: seq<Mark>, log: seq<Done>)

  /**
   * `issued` is every order ever numbered, in the order of the transactions.
   * `history` is every content the database ever had, so every backup there
   * can be.
   */
  datatype System = System(
    database: Database,
    history: seq<Database>,
    era: nat,
    processes: map<string, Process>,
    issued: seq<Order>,
    runners: map<string, Runner>)

  datatype Action =
    | TakeLease(name: string, holder: string, now: int, ttl: int)
    | RenewHeld(name: string, now: int, ttl: int)
    | ReleaseLease(holder: string)
    | Restore(version: nat)
    | StartFrontend(name: string)
    | ReadLease(name: string)
    | Number(name: string, objectId: string, digest: string, requestId: string)
    | GiveUp(name: string)
    | ReadEpoch(runner: string, task: nat, index: nat)
    | ReadObject(runner: string, task: nat, sentAt: int, now: int)
    | Write(runner: string, task: nat)
    | End(runner: string, task: nat, works: bool)
    | Die(runner: string, task: nat)

  function EnvelopeOf(o: Order, machine: string, sentAt: int): Fence.Envelope {
    Fence.Envelope(Fence.PROTOCOL_VERSION, Some(machine), o.lease.epoch, o.lease.expiresAt, sentAt,
                   o.requestId, Some(Fence.ObjectFence(o.objectId, o.generation, o.digest)), true)
  }

  /** The lease a process would name now. */
  function LeaseFor(source: LeaseSource, row: LeaseRow): Option<Lease> {
    match source
    case Held(lease) => Some(lease)
    case Current => ControllerStore.Current(row)
  }

  /** Request identifiers are random, so no two orders share one. */
  predicate FreshRequest(s: System, requestId: string) {
    forall i :: 0 <= i < |s.issued| ==> s.issued[i].requestId != requestId
  }

  // ------------------------------------------------------------------
  // One runner
  // ------------------------------------------------------------------

  function FenceOf(o: Order): Fence.ObjectFence { Fence.ObjectFence(o.objectId, o.generation, o.digest) }

  /** An order arrives and its epoch passes, or it is refused. */
  function ReadEpochOf(r: Runner, t: nat, o: Order): Runner {
    if t !in r.tasks && Fence.EpochPasses(r.memory, o.lease.epoch)
    then r.(tasks := r.tasks[t := EpochRead(o, r.tick)], tick := r.tick + 1)
    else r
  }

  /** The clock, the object and the outcome are read, and the order is let through or refused. */
  function ReadObjectOf(r: Runner, t: nat, sentAt: int, now: int): Runner {
    if !(t in r.tasks && r.tasks[t].EpochRead?) then r
    else
      var o := r.tasks[t].order;
      if && Fence.Timely(now, EnvelopeOf(o, r.machine, sentAt)) && Fence.ObjectPasses(r.memory, FenceOf(o))
         && o.requestId !in r.memory.outcomes
      then r.(tasks := r.tasks[t := Decided(o, r.tasks[t].epochReadAt, r.tick)], tick := r.tick + 1)
      else r.(tasks := r.tasks - {t})
  }

  /** The epoch is written, then the object. */
  function WriteOne(r: Runner, t: nat): Runner {
    if t !in r.tasks then r
    else
      match r.tasks[t]
      case Decided(o, e, d) =>
        r.(memory := Fence.AcceptEpoch(r.memory, o.lease.epoch), tick := r.tick + 1,
           tasks := r.tasks[t := EpochWritten(o, e, d, r.tick)], epochs := r.epochs + [Mark(o, r.tick)])
      case EpochWritten(o, e, d, w) =>
        r.(memory := Fence.AcceptObject(r.memory, FenceOf(o)), tick := r.tick + 1,
           tasks := r.tasks[t := Working(Served(o, e, d, w, r.tick))], objects := r.objects + [Mark(o, r.tick)])
      case _ => r
  }

  /** The answer goes nowhere here: whether it gets back does not change what the runner did. */
  function EndOne(r: Runner, t: nat, works: bool): Runner {
    if !(t in r.tasks && r.tasks[t].Working?) then r
    else
      var served := r.tasks[t].served;
      r.(memory := if works then Fence.Finish(r.memory, served.order.requestId, "done") else r.memory,
         tick := r.tick + 1, tasks := r.tasks - {t}, log := r.log + [Done(served, r.tick)])
  }

  function ServeStep(r: Runner, a: Action, issued: seq<Order>): Runner {
    match a
    case ReadEpoch(_, t, index) => if index < |issued| then ReadEpochOf(r, t, issued[index]) else r
    case ReadObject(_, t, sentAt, now) => ReadObjectOf(r, t, sentAt, now)
    case Write(_, t) => WriteOne(r, t)
    case End(_, t, works) => EndOne(r, t, works)
    case Die(_, t) => r.(tasks := r.tasks - {t})
    case _ => r
  }

  // ------------------------------------------------------------------
  // The deployment
  // ------------------------------------------------------------------

  predicate IsServing(a: Action) { a.ReadEpoch? || a.ReadObject? || a.Write? || a.End? || a.Die? }

  function Store(s: System, database: Database): System {
    s.(database := database, history := s.history + [database])
  }

  /** One step of the deployment. A step that is not possible changes nothing. */
  function Do(s: System, a: Action): System {
    match a
    case TakeLease(name, holder, now, ttl) =>
      var taken := Acquire(s.database.lease, holder, now, ttl);
      if taken.None? then s
      else Store(s, s.database.(lease := RowOf(taken.value)))
           .(processes := s.processes[name := Process(Held(taken.value), Ready)])
    case RenewHeld(name, now, ttl) =>
      if !(name in s.processes && s.processes[name].source.Held?) then s
      else
        var renewed := Renew(s.database.lease, s.processes[name].source.lease.holder, now, ttl);
        if renewed.None? then s
        else Store(s, s.database.(lease := RowOf(renewed.value)))
             .(processes := s.processes[name := s.processes[name].(source := Held(renewed.value))])
    case ReleaseLease(holder) =>
      if s.database.lease.holder != Some(holder) then s
      else Store(s, s.database.(lease := LeaseRow(None, s.database.lease.epoch, None)))
    case Restore(version) =>
      if version < |s.history| then Store(s, s.history[version]).(era := s.era + 1) else s
    case StartFrontend(name) =>
      s.(processes := s.processes[name := Process(LeaseSource.Current, Ready)])
    case ReadLease(name) =>
      if name !in s.processes then s
      else
        var lease := LeaseFor(s.processes[name].source, s.database.lease);
        if lease.None? then s
        else s.(processes := s.processes[name := s.processes[name].(progress := Leased(lease.value))])
    case Number(name, objectId, digest, requestId) =>
      if !(name in s.processes && s.processes[name].progress.Leased? && FreshRequest(s, requestId)) then s
      else
        var lease := s.processes[name].progress.lease;
        var g := NextGeneration(s.database.generations, objectId, lease.epoch);
        var order := Order(objectId, g, digest, requestId, lease, s.era);
        Store(s, s.database.(generations := s.database.generations[objectId := g]))
        .(processes := s.processes[name := s.processes[name].(progress := Numbered(order))],
          issued := s.issued + [order])
    case GiveUp(name) =>
      if name !in s.processes then s
      else s.(processes := s.processes[name := s.processes[name].(progress := Ready)])
    case _ =>
      if a.runner !in s.runners then s
      else s.(runners := s.runners[a.runner := ServeStep(s.runners[a.runner], a, s.issued)])
  }

  function Run(s: System, actions: seq<Action>): System
    decreases |actions|
  {
    if actions == [] then s else Do(Run(s, actions[..|actions| - 1]), actions[|actions| - 1])
  }

  /** A deployment that has sent nothing yet, over any database content. */
  predicate Initial(s: System) {
    && s.issued == [] && s.history == [s.database] && s.era == 0
    && (forall r :: r in s.runners ==>
          && s.runners[r].log == [] && s.runners[r].epochs == [] && s.runners[r].objects == [] && s.runners[r].tasks == map[]
          && s.runners[r].memory == Fence.Memory(0, map[], map[]))
  }

  // ------------------------------------------------------------------
  // What every step keeps
  // ------------------------------------------------------------------

  /** Between restores, generations of one object go up in the order they were handed out. */
  ghost predicate Numbering(issued: seq<Order>, era: nat, generations: map<string, int>) {
    && (forall i, j :: 0 <= i < j < |issued| && issued[i].objectId == issued[j].objectId && issued[i].era == issued[j].era ==>
          issued[i].generation < issued[j].generation)
    && (forall i :: 0 <= i < |issued| ==>
          && issued[i].era <= era
          && (issued[i].era == era ==>
                && issued[i].objectId in generations
                && issued[i].generation <= generations[issued[i].objectId]))
  }

  predicate IsAccepted(o: Order, id: string, a: Fence.Accepted) {
    o.objectId == id && o.generation == a.generation && o.digest == a.digest
  }

  /** What a runner has accepted for an object is some order that was issued. */
  ghost predicate MemoryIssued(m: Fence.Memory, issued: seq<Order>) {
    forall id :: id in m.objects ==> exists o :: o in issued && IsAccepted(o, id, m.objects[id])
  }

  /** The epoch read at `at` is not lower than any written before that. */
  predicate EpochAfter(epochs: seq<Mark>, o: Order, at: nat) {
    forall i :: 0 <= i < |epochs| && epochs[i].at < at ==> epochs[i].order.lease.epoch <= o.lease.epoch
  }

  /** The object read at `at` was not at a higher generation. */
  predicate ObjectAfter(objects: seq<Mark>, o: Order, at: nat) {
    forall i :: 0 <= i < |objects| && objects[i].at < at && objects[i].order.objectId == o.objectId ==>
      objects[i].order.generation <= o.generation
  }

  ghost predicate MarksInv(r: Runner) {
    && (forall i :: 0 <= i < |r.epochs| ==>
          r.epochs[i].at < r.tick && r.epochs[i].order.lease.epoch <= r.memory.acceptedEpoch)
    && (forall i :: 0 <= i < |r.objects| ==>
          && r.objects[i].at < r.tick && r.objects[i].order.objectId in r.memory.objects
          && r.objects[i].order.generation <= r.memory.objects[r.objects[i].order.objectId].generation)
  }

  predicate ServedInv(r: Runner, x: Served) {
    && x.epochReadAt < x.objectReadAt < x.epochWrittenAt < x.objectWrittenAt < r.tick
    && Mark(x.order, x.epochWrittenAt) in r.epochs && Mark(x.order, x.objectWrittenAt) in r.objects
    && EpochAfter(r.epochs, x.order, x.epochReadAt) && ObjectAfter(r.objects, x.order, x.objectReadAt)
  }

  predicate TaskInv(r: Runner, task: Task) {
    match task
    case EpochRead(o, e) => e < r.tick && EpochAfter(r.epochs, o, e)
    case Decided(o, e, d) => e < d < r.tick && EpochAfter(r.epochs, o, e) && ObjectAfter(r.objects, o, d)
    case EpochWritten(o, e, d, w) =>
      e < d < w < r.tick && EpochAfter(r.epochs, o, e) && ObjectAfter(r.objects, o, d) && Mark(o, w) in r.epochs
    case Working(x) => ServedInv(r, x)
  }

  function OrderOf(task: Task): Order { if task.Working? then task.served.order else task.order }

  ghost predicate IssuedInv(r: Runner, issued: seq<Order>) {
    && (forall t :: t in r.tasks ==> OrderOf(r.tasks[t]) in issued)
    && (forall i :: 0 <= i < |r.log| ==> r.log[i].served.order in issued)
    && MemoryIssued(r.memory, issued)
  }

  ghost predicate ServiceInv(r: Runner) {
    && (forall t :: t in r.tasks ==> TaskInv(r, r.tasks[t]))
    && (forall i :: 0 <= i < |r.log| ==>
          ServedInv(r, r.log[i].served) && r.log[i].served.objectWrittenAt < r.log[i].endedAt)
  }

  ghost predicate RunnerInv(r: Runner, issued: seq<Order>) {
    MarksInv(r) && ServiceInv(r) && IssuedInv(r, issued)
  }

  ghost predicate Inv(s: System) {
    && Numbering(s.issued, s.era, s.database.generations)
    && (forall r :: r in s.runners ==> RunnerInv(s.runners[r], s.issued))
  }

  /** Only later marks were added. */
  predicate Extends(before: seq<Mark>, after: seq<Mark>, tick: nat) {
    before <= after && forall i :: |before| <= i < |after| ==> after[i].at >= tick
  }

  /** Marks are made in time, so a new one disturbs nothing that was read before. */
  lemma MarkingKeepsTask(r: Runner, r': Runner, task: Task)
    requires TaskInv(r, task) && r.tick <= r'.tick
    requires Extends(r.epochs, r'.epochs, r.tick) && Extends(r.objects, r'.objects, r.tick)
    ensures TaskInv(r', task)
  {
    assert forall m :: m in r.epochs ==> m in r'.epochs;
    assert forall m :: m in r.objects ==> m in r'.objects;
    assert forall i :: 0 <= i < |r.epochs| ==> r'.epochs[i] == r.epochs[i];
    assert forall i :: 0 <= i < |r.objects| ==> r'.objects[i] == r.objects[i];
  }

  lemma ReadEpochKeepsInv(r: Runner, t: nat, o: Order, issued: seq<Order>)
    requires RunnerInv(r, issued) && o in issued
    ensures RunnerInv(ReadEpochOf(r, t, o), issued)
  {
    var r' := ReadEpochOf(r, t, o);
    if r' != r {
      ServiceGoesOn(r, r', t);
    }
  }

  lemma ReadObjectKeepsInv(r: Runner, t: nat, sentAt: int, now: int, issued: seq<Order>)
    requires RunnerInv(r, issued)
    ensures RunnerInv(ReadObjectOf(r, t, sentAt, now), issued)
  {
    var r' := ReadObjectOf(r, t, sentAt, now);
    if t in r'.tasks && r'.tasks[t].Decided? && r' != r {
      ServiceGoesOn(r, r', t);
    }
  }

  /** One task and the marks go on; what the others rely on stays. */
  lemma ServiceGoesOn(r: Runner, r': Runner, t: nat)
    requires ServiceInv(r) && r.tick <= r'.tick && r'.log == r.log
    requires Extends(r.epochs, r'.epochs, r.tick) && Extends(r.objects, r'.objects, r.tick)
    requires forall u :: u in r'.tasks && u != t ==> u in r.tasks && r'.tasks[u] == r.tasks[u]
    requires t in r'.tasks ==> TaskInv(r', r'.tasks[t])
    ensures ServiceInv(r')
  {
    forall u | u in r'.tasks ensures TaskInv(r', r'.tasks[u]) {
      if u != t {
        MarkingKeepsTask(r, r', r.tasks[u]);
      }
    }
    forall i | 0 <= i < |r.log| ensures ServedInv(r', r.log[i].served) {
      MarkingKeepsTask(r, r', Working(r.log[i].served));
    }
  }

  lemma WriteEpochKeepsInv(r: Runner, t: nat, issued: seq<Order>)
    requires RunnerInv(r, issued) && t in r.tasks && r.tasks[t].Decided?
    ensures RunnerInv(WriteOne(r, t), issued)
  {
    var r' := WriteOne(r, t);
    var m := Mark(r.tasks[t].order, r.tick);
    assert r'.epochs == r.epochs + [m] && r'.epochs[|r.epochs|] == m;
    MarkingKeepsTask(r, r', r.tasks[t]);
    ServiceGoesOn(r, r', t);
  }

  lemma WriteObjectKeepsMarks(r: Runner, t: nat, issued: seq<Order>)
    requires RunnerInv(r, issued) && t in r.tasks && r.tasks[t].EpochWritten?
    ensures MarksInv(WriteOne(r, t)) && IssuedInv(WriteOne(r, t), issued)
  {
    var r', o := WriteOne(r, t), r.tasks[t].order;
    assert r'.objects[|r.objects|] == Mark(o, r.tick);
    assert forall i :: 0 <= i < |r.objects| ==> r'.objects[i] == r.objects[i];
    assert OrderOf(r.tasks[t]) == o;
    forall id | id in r'.memory.objects ensures exists o :: o in issued && IsAccepted(o, id, r'.memory.objects[id]) {
      if !(id in r.memory.objects && r'.memory.objects[id] == r.memory.objects[id]) {
        assert o in issued && IsAccepted(o, id, r'.memory.objects[id]);
      }
    }
  }

  lemma WriteObjectKeepsInv(r: Runner, t: nat, issued: seq<Order>)
    requires RunnerInv(r, issued) && t in r.tasks && r.tasks[t].EpochWritten?
    ensures RunnerInv(WriteOne(r, t), issued)
  {
    var r' := WriteOne(r, t);
    var m := Mark(r.tasks[t].order, r.tick);
    assert r'.objects == r.objects + [m] && r'.objects[|r.objects|] == m;
    MarkingKeepsTask(r, r', r.tasks[t]);
    ServiceGoesOn(r, r', t);
    WriteObjectKeepsMarks(r, t, issued);
  }

  lemma EndKeepsInv(r: Runner, t: nat, works: bool, issued: seq<Order>)
    requires RunnerInv(r, issued) && t in r.tasks && r.tasks[t].Working?
    ensures RunnerInv(EndOne(r, t, works), issued)
  {
    var r' := EndOne(r, t, works);
    assert OrderOf(r.tasks[t]) == r.tasks[t].served.order;
    assert r'.log[|r.log|] == Done(r.tasks[t].served, r.tick);
    assert forall i :: 0 <= i < |r.log| ==> r'.log[i] == r.log[i];
    forall u | u in r'.tasks ensures TaskInv(r', r'.tasks[u]) {
      MarkingKeepsTask(r, r', r.tasks[u]);
    }
    forall i | 0 <= i < |r'.log| ensures ServedInv(r', r'.log[i].served) {
      MarkingKeepsTask(r, r', Working(r'.log[i].served));
    }
  }

  lemma ServingKeepsInv(r: Runner, a: Action, issued: seq<Order>)
    requires RunnerInv(r, issued)
    ensures RunnerInv(ServeStep(r, a, issued), issued)
  {
    match a {
      case ReadEpoch(_, t, index) => if index < |issued| { ReadEpochKeepsInv(r, t, issued[index], issued); }
      case ReadObject(_, t, sentAt, now) => ReadObjectKeepsInv(r, t, sentAt, now, issued);
      case Write(_, t) =>
        if t in r.tasks && r.tasks[t].Decided? { WriteEpochKeepsInv(r, t, issued); }
        else if t in r.tasks && r.tasks[t].EpochWritten? { WriteObjectKeepsInv(r, t, issued); }
      case End(_, t, works) => if t in r.tasks && r.tasks[t].Working? { EndKeepsInv(r, t, works, issued); }
      case _ =>
    }
  }

  lemma IssuingKeepsRunner(r: Runner, issued: seq<Order>, o: Order)
    requires RunnerInv(r, issued)
    ensures RunnerInv(r, issued + [o])
  {
    var longer := issued + [o];
    assert forall x :: x in issued ==> x in longer;
    forall id | id in r.memory.objects ensures exists o :: o in longer && IsAccepted(o, id, r.memory.objects[id]) {
      var o :| o in issued && IsAccepted(o, id, r.memory.objects[id]);
      assert o in longer;
    }
  }

  lemma NumberingGrows(issued: seq<Order>, era: nat, generations: map<string, int>, o: Order)
    requires Numbering(issued, era, generations) && o.era == era
    requires o.objectId in generations ==> o.generation > generations[o.objectId]
    ensures Numbering(issued + [o], era, generations[o.objectId := o.generation])
  {
    var longer := issued + [o];
    assert forall i :: 0 <= i < |issued| ==> longer[i] == issued[i];
  }

  lemma NumberKeepsInv(s: System, a: Action)
    requires Inv(s) && a.Number?
    ensures Inv(Do(s, a))
  {
    var s' := Do(s, a);
    if a.name in s.processes && s.processes[a.name].progress.Leased? && FreshRequest(s, a.requestId) {
      var o := s'.issued[|s.issued|];
      assert s'.issued == s.issued + [o];
      NumberingGrows(s.issued, s.era, s.database.generations, o);
      forall r | r in s'.runners ensures RunnerInv(s'.runners[r], s'.issued) {
        IssuingKeepsRunner(s.runners[r], s.issued, o);
      }
    }
  }

  lemma StepKeepsInv(s: System, a: Action)
    requires Inv(s)
    ensures Inv(Do(s, a))
  {
    if a.Number? {
      NumberKeepsInv(s, a);
    } else if IsServing(a) {
      if a.runner in s.runners {
        ServingKeepsInv(s.runners[a.runner], a, s.issued);
      }
    }
  }

  lemma {:induction false} RunKeepsInv(s: System, actions: seq<Action>)
    requires Initial(s)
    ensures Inv(Run(s, actions))
    decreases |actions|
  {
    if actions != [] {
      RunKeepsInv(s, actions[..|actions| - 1]);
      StepKeepsInv(Run(s, actions[..|actions| - 1]), actions[|actions| - 1]);
    }
  }

  // ------------------------------------------------------------------
  // The ordering theorems
  // ------------------------------------------------------------------

  /**
   * However controllers and frontends interleave, and whatever lease each of
   * them names, no two orders for one object that were numbered between the
   * same restores carry the same generation, and the later transaction has
   * the higher one.
   */
  lemma NoGenerationIsShared(s: System, actions: seq<Action>, i: nat, j: nat)
    requires Initial(s)
    requires i < j < |Run(s, actions).issued|
    requires Run(s, actions).issued[i].objectId == Run(s, actions).issued[j].objectId
    requires Run(s, actions).issued[i].era == Run(s, actions).issued[j].era
    ensures Run(s, actions).issued[i].generation < Run(s, actions).issued[j].generation
  {
    RunKeepsInv(s, actions);
  }

  predicate SameNumber(a: Order, b: Order) { a.objectId == b.objectId && a.generation == b.generation }

  /** Between restores a generation stands for one order. */
  lemma SameNumberSameOrder(issued: seq<Order>, era: nat, generations: map<string, int>, a: Order, b: Order)
    requires Numbering(issued, era, generations) && a in issued && b in issued
    requires SameNumber(a, b) && a.era == b.era
    ensures a == b
  {
    var i :| 0 <= i < |issued| && issued[i] == a;
    var j :| 0 <= j < |issued| && issued[j] == b;
    assert i < j || j < i || i == j;
  }

  /**
   * How a late order can land on a newer one. On a runner that serves any
   * number of orders at once, over restores and all: work is not of a lower
   * epoch than any that was written before it read the epoch, nor of a lower
   * generation than any that was written for its object before it read the
   * object. So whatever ends on top of something newer asked too early.
   */
  lemma WorkIsInOrder(s: System, actions: seq<Action>, runner: string, i: nat, j: nat)
    requires Initial(s) && runner in Run(s, actions).runners
    requires i < |Run(s, actions).runners[runner].log| && j < |Run(s, actions).runners[runner].log|
    ensures
      var x, y := Run(s, actions).runners[runner].log[i].served, Run(s, actions).runners[runner].log[j].served;
      && (x.epochWrittenAt < y.epochReadAt ==> x.order.lease.epoch <= y.order.lease.epoch)
      && (x.objectWrittenAt < y.objectReadAt && x.order.objectId == y.order.objectId ==>
            x.order.generation <= y.order.generation)
      && (SameNumber(x.order, y.order) && x.order.era == y.order.era ==> x.order == y.order)
  {
    RunKeepsInv(s, actions);
    var t := Run(s, actions);
    var r := t.runners[runner];
    var x, y := r.log[i].served, r.log[j].served;
    assert ServedInv(r, x) && ServedInv(r, y);
    if SameNumber(x.order, y.order) && x.order.era == y.order.era {
      SameNumberSameOrder(t.issued, t.era, t.database.generations, x.order, y.order);
    }
  }

  /** The order would pass every question of the runner now. */
  predicate Passes(r: Runner, o: Order, sentAt: int, now: int) {
    && Fence.EpochPasses(r.memory, o.lease.epoch) && Fence.Timely(now, EnvelopeOf(o, r.machine, sentAt))
    && Fence.ObjectPasses(r.memory, FenceOf(o)) && o.requestId !in r.memory.outcomes
  }

  /**
   * Nothing stops an order that passes: left to itself it is worked on, and
   * its outcome recorded, exactly if it passes; then and only then the
   * runner's memory is what the fence's decision and write leave.
   */
  lemma PassingIsServedExactlyWhen(r: Runner, t: nat, o: Order, sentAt: int, now: int)
    requires t !in r.tasks
    ensures
      var read := ReadObjectOf(ReadEpochOf(r, t, o), t, sentAt, now);
      var done := EndOne(WriteOne(WriteOne(read, t), t), t, true);
      var admitted := Fence.Admit(r.memory, r.machine, now, EnvelopeOf(o, r.machine, sentAt));
      && (done.log != r.log <==> Passes(r, o, sentAt, now))
      && (done.log != r.log ==>
            && |done.log| == |r.log| + 1 && done.log[|r.log|].served.order == o
            && done.memory == Fence.Finish(admitted, o.requestId, "done"))
      && (done.log == r.log ==> done.memory == r.memory && done.tasks == r.tasks)
  {
    Fence.CheckInSteps(r.memory, r.machine, now, EnvelopeOf(o, r.machine, sentAt));
    var epoch := ReadEpochOf(r, t, o);
    var read := ReadObjectOf(epoch, t, sentAt, now);
    if Passes(r, o, sentAt, now) {
      assert read.tasks[t].Decided?;
      var half := WriteOne(read, t);
      assert half.tasks[t].EpochWritten?;
      var whole := WriteOne(half, t);
      assert whole.tasks[t].Working?;
      assert |EndOne(whole, t, true).log| == |r.log| + 1;
    } else {
      assert read.tasks == r.tasks;
    }
  }

  /** Each work was begun after the one before it had ended. */
  predicate OneAtATime(log: seq<Done>) {
    forall i, j :: 0 <= i < j < |log| ==> log[i].endedAt < log[j].served.epochReadAt
  }

  /**
   * On a runner that served one order at a time nothing late ever lands: the
   * work on one object goes up strictly in generation, apart from repeating
   * an order that failed, and epochs never go down.
   */
  lemma SerialWorkIsInOrder(s: System, actions: seq<Action>, runner: string, i: nat, j: nat)
    requires Initial(s) && runner in Run(s, actions).runners && OneAtATime(Run(s, actions).runners[runner].log)
    requires i < j < |Run(s, actions).runners[runner].log|
    ensures
      var a, b := Run(s, actions).runners[runner].log[i].served.order, Run(s, actions).runners[runner].log[j].served.order;
      && a.lease.epoch <= b.lease.epoch
      && (a.objectId == b.objectId && a.era == b.era ==> a.generation < b.generation || a == b)
  {
    RunKeepsInv(s, actions);
    var r := Run(s, actions).runners[runner];
    assert ServedInv(r, r.log[i].served) && ServedInv(r, r.log[j].served);
    WorkIsInOrder(s, actions, runner, i, j);
  }

  /** An order is refused as a generation conflict only over one that another side of a restore numbered. */
  lemma ConflictNeedsRestore(s: System, actions: seq<Action>, runner: string, k: nat, sentAt: int, now: int)
    requires Initial(s) && runner in Run(s, actions).runners && k < |Run(s, actions).issued|
    requires
      var r := Run(s, actions).runners[runner];
      Fence.Check(r.memory, r.machine, now, EnvelopeOf(Run(s, actions).issued[k], r.machine, sentAt))
        == Fence.Refused(Fence.GenerationConflict)
    ensures
      var t := Run(s, actions);
      && t.era > 0
      && exists other :: other in t.issued && SameNumber(other, t.issued[k]) && other.era != t.issued[k].era
  {
    RunKeepsInv(s, actions);
    var t := Run(s, actions);
    var r, o := t.runners[runner], t.issued[k];
    var other :| other in t.issued && IsAccepted(other, o.objectId, r.memory.objects[o.objectId]);
    if other.era == o.era {
      SameNumberSameOrder(t.issued, t.era, t.database.generations, other, o);
      assert false;
    }
  }

  // ------------------------------------------------------------------
  // Who has the lease
  // ------------------------------------------------------------------

  /** The process holds the lease that is in the row, to the moment. */
  predicate NamesTheRow(s: System, name: string) {
    && name in s.processes && s.processes[name].source.Held?
    && ControllerStore.Current(s.database.lease) == Some(s.processes[name].source.lease)
  }

  /** Nobody but this process does anything to the lease. */
  predicate LeavesLeaseTo(a: Action, name: string) {
    && !a.TakeLease? && !a.ReleaseLease? && !a.Restore?
    && (a.RenewHeld? ==> a.name == name) && (a.StartFrontend? ==> a.name != name)
  }

  /**
   * However often it renews, and whatever else goes on, the one process that
   * took the lease goes on holding exactly the lease that is in the row.
   */
  lemma {:induction false} HolderNamesTheRow(s: System, name: string, holder: string, now: int, ttl: int,
                                             actions: seq<Action>)
    requires Acquire(s.database.lease, holder, now, ttl).Some?
    requires forall i :: 0 <= i < |actions| ==> LeavesLeaseTo(actions[i], name)
    ensures NamesTheRow(Run(Do(s, TakeLease(name, holder, now, ttl)), actions), name)
    decreases |actions|
  {
    if actions != [] {
      HolderNamesTheRow(s, name, holder, now, ttl, actions[..|actions| - 1]);
    }
  }

  /** A released lease goes to whoever asks next, under the next epoch; the one who released it cannot renew. */
  lemma ReleasedIsTakenNext(s: System, holder: string, name: string, next: string, now: int, ttl: int)
    requires s.database.lease.holder == Some(holder)
    ensures
      var t := Do(Do(s, ReleaseLease(holder)), TakeLease(name, next, now, ttl));
      && NamesTheRow(t, name) && t.database.lease == LeaseRow(Some(next), s.database.lease.epoch + 1, Some(now + ttl))
      && (next != holder ==> forall at, span :: Renew(t.database.lease, holder, at, span).None?)
  {
    assert Acquire(Do(s, ReleaseLease(holder)).database.lease, next, now, ttl).Some?;
  }

  /**
   * A frontend asks the row each time: the lease it names in an order is the
   * one that is there when it reads, and an order it gave up is never numbered.
   */
  lemma FrontendNamesTheRow(s: System, name: string, objectId: string, digest: string, requestId: string)
    requires FreshRequest(s, requestId)
    ensures
      var read := Do(Do(s, StartFrontend(name)), ReadLease(name));
      var current := ControllerStore.Current(s.database.lease);
      var t := Do(read, Number(name, objectId, digest, requestId));
      && |t.issued| == |s.issued| + (if current.Some? then 1 else 0)
      && (current.Some? ==> t.issued[|s.issued|].lease == current.value)
      && Do(Do(read, GiveUp(name)), Number(name, objectId, digest, requestId)).issued == s.issued
  {
  }

  /** What died before it ended never ends, and its number is free for another order. */
  lemma DeadTaskNeverEnds(s: System, runner: string, t: nat, works: bool, index: nat)
    requires runner in s.runners && index < |s.issued|
    requires Fence.EpochPasses(s.runners[runner].memory, s.issued[index].lease.epoch)
    ensures
      var dead := Do(s, Die(runner, t));
      var again := Do(dead, ReadEpoch(runner, t, index)).runners[runner];
      && Do(dead, End(runner, t, works)) == dead && Do(dead, Write(runner, t)) == dead
      && t in again.tasks && again.tasks[t].EpochRead? && again.tasks[t].order == s.issued[index]
  {
    var dead := Do(s, Die(runner, t));
    assert dead.runners[runner := dead.runners[runner]] == dead.runners;
  }

  // ------------------------------------------------------------------
  // What the epoch floor is worth after a restore
  // ------------------------------------------------------------------

  function CountOf(issued: seq<Order>, id: string): nat {
    if issued == [] then 0
    else CountOf(issued[..|issued| - 1], id) + (if issued[|issued| - 1].objectId == id then 1 else 0)
  }

  ghost predicate EpochsAtMost(issued: seq<Order>, id: string, epoch: int) {
    forall i :: 0 <= i < |issued| && issued[i].objectId == id ==> issued[i].lease.epoch <= epoch
  }

  /** No backup's counter and no order for the object is above the floor by more than the number of orders. */
  ghost predicate Bounded(s: System, id: string, epoch: int) {
    var top := epoch * EPOCH_SPAN + CountOf(s.issued, id);
    && s.database in s.history
    && (forall k :: 0 <= k < |s.history| && id in s.history[k].generations ==> s.history[k].generations[id] <= top)
    && (forall i :: 0 <= i < |s.issued| && s.issued[i].objectId == id ==> s.issued[i].generation <= top)
  }

  /** Every order's number is above the floor of the epoch it names. */
  predicate AboveFloor(issued: seq<Order>) {
    forall i :: 0 <= i < |issued| ==> issued[i].generation > issued[i].lease.epoch * EPOCH_SPAN
  }

  lemma NumberKeepsBound(s: System, a: Action, id: string, epoch: int)
    requires a.Number? && Bounded(s, id, epoch) && EpochsAtMost(Do(s, a).issued, id, epoch)
    ensures Bounded(Do(s, a), id, epoch)
  {
    var s' := Do(s, a);
    if a.name in s.processes && s.processes[a.name].progress.Leased? && FreshRequest(s, a.requestId) {
      var o := s'.issued[|s.issued|];
      assert s'.issued[..|s.issued|] == s.issued;
      assert CountOf(s'.issued, id) == CountOf(s.issued, id) + (if o.objectId == id then 1 else 0);
      assert s'.history[|s.history|] == s'.database;
      assert forall k :: 0 <= k < |s.history| ==> s'.history[k] == s.history[k];
      if o.objectId == id {
        assert o.lease.epoch <= epoch;
        assert o.lease.epoch * EPOCH_SPAN <= epoch * EPOCH_SPAN;
      }
    }
  }

  lemma OtherStepsKeepBound(s: System, a: Action, id: string, epoch: int)
    requires !a.Number? && Bounded(s, id, epoch)
    ensures Bounded(Do(s, a), id, epoch) && Do(s, a).issued == s.issued
  {
    var s' := Do(s, a);
    assert s'.history == s.history || s'.history == s.history + [s'.database];
    assert s'.database == s.database || s'.database in s'.history;
    assert s'.database.generations == s.database.generations || s'.database in s.history;
  }

  lemma {:induction false} RunKeepsBound(s: System, actions: seq<Action>, id: string, epoch: int)
    requires Initial(s) && s.database.generations == map[]
    requires EpochsAtMost(Run(s, actions).issued, id, epoch)
    ensures Bounded(Run(s, actions), id, epoch)
    decreases |actions|
  {
    if actions != [] {
      var before, a := actions[..|actions| - 1], actions[|actions| - 1];
      IssuedGrows(Run(s, before), a);
      RunKeepsBound(s, before, id, epoch);
      if a.Number? {
        NumberKeepsBound(Run(s, before), a, id, epoch);
      } else {
        OtherStepsKeepBound(Run(s, before), a, id, epoch);
      }
    }
  }

  lemma IssuedGrows(s: System, a: Action)
    ensures s.issued <= Do(s, a).issued
    ensures s.history <= Do(s, a).history
    ensures AboveFloor(s.issued) ==> AboveFloor(Do(s, a).issued)
  {
  }

  lemma {:induction false} RunGrows(s: System, actions: seq<Action>)
    requires Initial(s)
    ensures s.history <= Run(s, actions).history && AboveFloor(Run(s, actions).issued)
    decreases |actions|
  {
    if actions != [] {
      RunGrows(s, actions[..|actions| - 1]);
      IssuedGrows(Run(s, actions[..|actions| - 1]), actions[|actions| - 1]);
    }
  }

  /** Whichever backup is restored, the next number for the object is above every order there ever was for it. */
  ghost predicate RestoredAbove(s: System, id: string, epoch: int) {
    forall k, i :: 0 <= k < |s.history| && 0 <= i < |s.issued| && s.issued[i].objectId == id ==>
      NextGeneration(s.history[k].generations, id, epoch) > s.issued[i].generation
  }

  /** Above for every backup means that the floor alone is enough: the first backup has no counters. */
  lemma RestoredAboveIsUnderFloor(s: System, actions: seq<Action>, id: string, epoch: int)
    requires Initial(s) && s.database.generations == map[]
    ensures
      var t := Run(s, actions);
      RestoredAbove(t, id, epoch) <==>
      forall i :: 0 <= i < |t.issued| && t.issued[i].objectId == id ==> t.issued[i].generation <= epoch * EPOCH_SPAN
  {
    var t := Run(s, actions);
    RunGrows(s, actions);
    assert t.history[0].generations == map[];
    assert NextGeneration(t.history[0].generations, id, epoch) == epoch * EPOCH_SPAN + 1;
    forall i | 0 <= i < |t.issued| && t.issued[i].generation <= epoch * EPOCH_SPAN
      ensures forall restored :: NextGeneration(restored, id, epoch) > t.issued[i].generation
    {
      FloorLiftsExactlyWhen(id, epoch, t.issued[i].generation);
    }
  }

  /**
   * What the epoch floor is worth. In every run from empty counters, with any
   * restores: whichever backup is restored, the next order under an epoch is
   * above everything a runner can have accepted for the object, if and only
   * if all its orders lie under that epoch's floor. As long as an object has
   * no more orders than an epoch has room for, that is: if and only if the
   * epoch is above every epoch its orders named. A restored lease row goes
   * back with the counters, so the first epochs after a restore need not be.
   */
  lemma RestoredAboveExactlyWhen(s: System, actions: seq<Action>, id: string, epoch: int)
    requires Initial(s) && s.database.generations == map[]
    ensures
      var t := Run(s, actions);
      && (RestoredAbove(t, id, epoch) ==> EpochsAtMost(t.issued, id, epoch - 1))
      && (CountOf(t.issued, id) <= EPOCH_SPAN && EpochsAtMost(t.issued, id, epoch - 1) ==> RestoredAbove(t, id, epoch))
  {
    var t := Run(s, actions);
    RunGrows(s, actions);
    RestoredAboveIsUnderFloor(s, actions, id, epoch);
    if EpochsAtMost(t.issued, id, epoch - 1) {
      RunKeepsBound(s, actions, id, epoch - 1);
      assert (epoch - 1) * EPOCH_SPAN + EPOCH_SPAN == epoch * EPOCH_SPAN;
    } else {
      var i :| 0 <= i < |t.issued| && t.issued[i].objectId == id && t.issued[i].lease.epoch >= epoch;
      assert t.issued[i].lease.epoch * EPOCH_SPAN >= epoch * EPOCH_SPAN;
    }
  }

  // ------------------------------------------------------------------
  // A restore, as a run
  // ------------------------------------------------------------------

  const EMPTY: Database := Database(LeaseRow(None, 0, None), map[])

  /** The one controller takes the lease, reads it and numbers an order. */
  function Dispatching(digest: string, requestId: string): seq<Action> {
    [TakeLease("serve", "controller", 0, 30), ReadLease("serve"), Number("serve", "vm", digest, requestId)]
  }

  function AfterDispatching(s: System, digest: string, requestId: string): System {
    var a := Dispatching(digest, requestId);
    Do(Do(Do(s, a[0]), a[1]), a[2])
  }

  lemma RunDispatching(s: System, digest: string, requestId: string)
    ensures Run(s, Dispatching(digest, requestId)) == AfterDispatching(s, digest, requestId)
  {
    var a := Dispatching(digest, requestId);
    assert a[..2] == [a[0], a[1]] && a[..1] == [a[0]] && a[..2][..1] == a[..1] && a[..1][..0] == [];
    assert Run(s, a[..1]) == Do(s, a[0]);
    assert Run(s, a[..2]) == Do(Do(s, a[0]), a[1]);
  }

  lemma {:induction false} RunConcat(s: System, first: seq<Action>, second: seq<Action>)
    ensures Run(s, first + second) == Run(Run(s, first), second)
    decreases |second|
  {
    if second == [] {
      assert first + second == first;
    } else {
      var n := |second| - 1;
      assert (first + second)[..|first + second| - 1] == first + second[..n];
      RunConcat(s, first, second[..n]);
    }
  }

  /** What dispatching does to a deployment whose lease is free or the controller's own. */
  lemma DispatchingNumbers(s: System, digest: string, requestId: string)
    requires s.database.lease.holder.None? && s.database.generations == map[] && FreshRequest(s, requestId)
    ensures
      var epoch := s.database.lease.epoch + 1;
      var t := AfterDispatching(s, digest, requestId);
      && t.issued == s.issued + [Order("vm", epoch * EPOCH_SPAN + 1, digest, requestId, Lease("controller", epoch, 30), s.era)]
      && t.era == s.era && s.history <= t.history
  {
  }

  /**
   * A restore can hand a number out twice. A backup from before the first
   * order is restored: the next order has the same object, epoch and
   * generation as the first and wants something else.
   */
  lemma RestoreRepeatsANumber() returns (actions: seq<Action>)
    ensures
      var start := System(EMPTY, [EMPTY], 0, map[], [], map[]);
      var issued := Run(start, actions).issued;
      && Initial(start) && |issued| == 2
      && SameNumber(issued[0], issued[1]) && issued[0].lease.epoch == issued[1].lease.epoch
      && issued[0].digest != issued[1].digest
  {
    var start := System(EMPTY, [EMPTY], 0, map[], [], map[]);
    var first, second, restore := Dispatching("A", "r1"), Dispatching("B", "r2"), [Restore(0)];
    actions := first + restore + second;
    RunConcat(start, first, restore);
    RunConcat(start, first + restore, second);
    RunDispatching(start, "A", "r1");
    DispatchingNumbers(start, "A", "r1");
    var t := AfterDispatching(start, "A", "r1");
    assert restore[..0] == [];
    assert Run(t, restore) == Do(t, Restore(0));
    var u := Do(t, Restore(0));
    assert u.database == EMPTY && u.issued == t.issued;
    RunDispatching(u, "B", "r2");
    DispatchingNumbers(u, "B", "r2");
  }
}
