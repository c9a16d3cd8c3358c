/**
 * One controller and one runner machine joined by a network that may delay,
 * reorder, repeat or lose every order (bentod/src/runners.rs, `PollTask` and
 * `NetworkSync`; crates/runner/src/lib.rs, `serve_one`;
 * crates/runner/src/fence.rs, `admit_as`).
 *
 * The controller's maps are keyed by machine and the fence keeps each
 * machine's network under its own object, so machines do not meet: one
 * machine stands for all of them. A controller that was replaced may go on
 * sending. A runner serves any number of orders at once; each read and write
 * of its fence, the work and the recording of it are steps that others can
 * come between. Its clock only moves forward.
 */
module NetworkConvergence {
  import opened Options
  import opened NetworkSync
  import Fence

  const OBJECT: string := "network"

  /** One `ApplyNetwork`: the description, its digest and its fence. */
  datatype Order = Order(body: string, digest: string, generation: int, requestId: string,
                         epoch: int, sentAt: int, leaseExpiresAt: int)

  /** What is on the machine. `Broken` is an apply that stopped half way. */
  datatype Held = Empty | Broken | Holds(order: nat)

  /** How the work on an order ended: applied and recorded, applied and not recorded, or half way. */
  datatype Result = Recorded | Unrecorded | HalfWay

  datatype Ending = Ending(order: nat, result: Result)

  /** How far the runner is with an order, in the order it goes through these. */
  datatype Stage = Arrived | EpochRead | ClockRead | ObjectRead | Decided | EpochWritten | Working

  datatype Flight = Flight(order: nat, stage: Stage)

  /**
   * The machine. `boots` are its boot identifiers, the last one current;
   * `memory` and everything the fence keeps survive a reboot. `tasks` are the
   * orders under way, `ended` all work that ended in this boot. `done` gives
   * the boot in which an order was applied and recorded, `newest` is the
   * newest order written down (-1 for none). `raced` says that two orders
   * were under way at once during this boot.
   */
  datatype Machine = Machine(name: string, boots: seq<string>, now: int, memory: Fence.Memory, tasks: map<nat, Flight>,
                             held: Held, ended: seq<Ending>, done: map<nat, nat>, newest: int, raced: bool)

  /** Where the poll task stands. `Returned` is a `sync_host` that ended well. */
  datatype Progress =
    | Idle
    | Polled(boot: string)
    | Noted
    | Waiting(order: nat)
    | Returned(body: string, digest: string, sent: bool)

  /** `orders` is everything ever sent to the machine; `acked` wrote the cache entry. */
  datatype System = System(view: HostView, progress: Progress, epoch: int, orders: seq<Order>, acked: int,
                           machine: Machine)

  datatype Action =
    // The controllers.
    | PollAnswered
    | NoteBootId
    | GiveUp
    | SyncHost(body: string, digest: string, generation: int, requestId: string, sentAt: int, leaseExpiresAt: int)
    | AnswerReceived
    | Restart
    | ReplacedSends(sent: Order)
    // The network and the machine.
    | Pass(span: nat)
    | Arrive(task: nat, order: nat)
    | Advance(task: nat)
    | Work(task: nat, result: Result)
    | Drop(task: nat)
    | OtherOrder(envelope: Fence.Envelope, finished: bool)
    | Reboot(boot: string)

  /** What the world does without a controller and without a reboot. */
  predicate Ambient(a: Action) { a.Pass? || a.Arrive? || a.Advance? || a.Work? || a.Drop? || a.OtherOrder? }

  function CurrentBoot(m: Machine): string
    requires m.boots != []
  {
    m.boots[|m.boots| - 1]
  }

  function FenceOf(o: Order): Fence.ObjectFence { Fence.ObjectFence(OBJECT, o.generation, o.digest) }

  function EnvelopeOf(o: Order, machine: string): Fence.Envelope {
    Fence.Envelope(Fence.PROTOCOL_VERSION, Some(machine), o.epoch, o.leaseExpiresAt, o.sentAt, o.requestId,
                   Some(FenceOf(o)), true)
  }

  /** The counter and the random request identifier give an order a place of its own. */
  predicate NewOrder(s: System, o: Order) {
    && (forall i :: 0 <= i < |s.orders| ==>
          s.orders[i].generation < o.generation && s.orders[i].requestId != o.requestId)
    && o.requestId !in s.machine.memory.outcomes
  }

  predicate IsElsewhere(s: System, e: Fence.Envelope) {
    && e.fenced.Some? && e.fenced.value.objectId != OBJECT && e.epoch <= s.epoch
    && (forall i :: 0 <= i < |s.orders| ==> s.orders[i].requestId != e.requestId)
  }

  /** A question is answered well and the order goes on, or it is refused. */
  function Judged(m: Machine, t: nat, ok: bool, next: Stage): Machine
    requires t in m.tasks
  {
    m.(tasks := if ok then m.tasks[t := m.tasks[t].(stage := next)] else m.tasks - {t})
  }

  /** The next read or write of the fence for one order. */
  function Advanced(m: Machine, t: nat, o: Order): Machine
    requires t in m.tasks
  {
    match m.tasks[t].stage
    case Arrived => Judged(m, t, Fence.EpochPasses(m.memory, o.epoch), EpochRead)
    case EpochRead => Judged(m, t, Fence.Timely(m.now, EnvelopeOf(o, m.name)), ClockRead)
    case ClockRead => Judged(m, t, Fence.ObjectPasses(m.memory, FenceOf(o)), ObjectRead)
    case ObjectRead => Judged(m, t, o.requestId !in m.memory.outcomes, Decided)
    case Decided => Judged(m, t, true, EpochWritten).(memory := Fence.AcceptEpoch(m.memory, o.epoch))
    case EpochWritten =>
      Judged(m, t, true, Working).(memory := Fence.AcceptObject(m.memory, FenceOf(o)),
                                   newest := if m.tasks[t].order > m.newest then m.tasks[t].order else m.newest)
    case Working => m
  }

  /** The work on one order ends. */
  function Worked(m: Machine, t: nat, requestId: string, result: Result): Machine
    requires m.boots != [] && t in m.tasks
  {
    var k := m.tasks[t].order;
    var after := m.(tasks := m.tasks - {t}, ended := m.ended + [Ending(k, result)],
                    held := if result.HalfWay? then Broken else Holds(k));
    if result.Recorded?
    then after.(done := m.done[k := |m.boots| - 1], memory := Fence.Finish(m.memory, requestId, "applied"))
    else after
  }

  /** An order for another object goes by; whatever the fence says of it, it may only raise the epoch. */
  function WentBy(memory: Fence.Memory, e: Fence.Envelope, finished: bool): Fence.Memory
    requires e.fenced.Some?
  {
    var m := Fence.Accept(memory, e);
    if finished then Fence.Finish(m, e.requestId, "done") else m
  }

  /** One step. A step that is not possible changes nothing. */
  function Do(s: System, a: Action): System
    requires s.machine.boots != []
    ensures Do(s, a).machine.boots != []
  {
    match a
    case PollAnswered =>
      if s.progress.Idle? || s.progress.Returned? then s.(progress := Polled(CurrentBoot(s.machine))) else s
    case NoteBootId =>
      if s.progress.Polled? then s.(progress := Noted, view := NoteBoot(s.view, s.progress.boot)) else s
    case GiveUp => s.(progress := Idle)
    case SyncHost(body, digest, generation, requestId, sentAt, leaseExpiresAt) =>
      if !s.progress.Noted? then s
      else if Skips(s.view, digest) then s.(progress := Returned(body, digest, false))
      else
        var o := Order(body, digest, generation, requestId, s.epoch, sentAt, leaseExpiresAt);
        if NewOrder(s, o) then s.(progress := Waiting(|s.orders|), orders := s.orders + [o]) else s
    case AnswerReceived =>
      if s.progress.Waiting? && s.progress.order in s.machine.done && s.progress.order < |s.orders| then
        var o := s.orders[s.progress.order];
        s.(progress := Returned(o.body, o.digest, true), view := Acknowledge(s.view, o.digest),
           acked := s.progress.order)
      else s
    case Restart =>
      s.(view := HostView(None, None), progress := Idle, epoch := s.epoch + 1, acked := -1)
    case ReplacedSends(o) =>
      if o.epoch < s.epoch && NewOrder(s, o) then s.(orders := s.orders + [o]) else s
    case Pass(span) => s.(machine := s.machine.(now := s.machine.now + span))
    case Arrive(t, k) =>
      if k < |s.orders| && t !in s.machine.tasks
      then s.(machine := s.machine.(tasks := s.machine.tasks[t := Flight(k, Arrived)],
                                    raced := s.machine.raced || s.machine.tasks != map[]))
      else s
    case Advance(t) =>
      if t in s.machine.tasks && s.machine.tasks[t].order < |s.orders|
      then s.(machine := Advanced(s.machine, t, s.orders[s.machine.tasks[t].order]))
      else s
    case Work(t, result) =>
      if t in s.machine.tasks && s.machine.tasks[t].stage.Working? && s.machine.tasks[t].order < |s.orders|
      then s.(machine := Worked(s.machine, t, s.orders[s.machine.tasks[t].order].requestId, result))
      else s
    case Drop(t) => s.(machine := s.machine.(tasks := s.machine.tasks - {t}))
    case OtherOrder(e, finished) =>
      if IsElsewhere(s, e) then s.(machine := s.machine.(memory := WentBy(s.machine.memory, e, finished))) else s
    case Reboot(boot) =>
      if boot == "" || boot in s.machine.boots then s
      else s.(machine := s.machine.(boots := s.machine.boots + [boot], held := Empty, ended := [], tasks := map[],
                                    raced := false))
  }

  function Run(s: System, actions: seq<Action>): (t: System)
    requires s.machine.boots != []
    ensures t.machine.boots != []
    decreases |actions|
  {
    if actions == [] then s else Do(Run(s, actions[..|actions| - 1]), actions[|actions| - 1])
  }

  predicate Initial(s: System) {
    && s.view == HostView(None, None) && s.progress == Idle && s.orders == [] && s.acked == -1
    && |s.machine.boots| == 1 && s.machine.boots[0] != ""
    && s.machine.memory == Fence.Memory(0, map[], map[]) && s.epoch >= 0
    && s.machine.tasks == map[] && s.machine.held == Empty && s.machine.ended == [] && s.machine.done == map[]
    && s.machine.newest == -1 && !s.machine.raced
  }

  // ------------------------------------------------------------------
  // What every step keeps
  // ------------------------------------------------------------------

  ghost predicate OrdersInv(orders: seq<Order>, epoch: int) {
    && (forall i, j :: 0 <= i < j < |orders| ==>
          orders[i].generation < orders[j].generation && orders[i].requestId != orders[j].requestId)
    && (forall i :: 0 <= i < |orders| ==> orders[i].epoch <= epoch)
  }

  ghost predicate FenceInv(orders: seq<Order>, epoch: int, memory: Fence.Memory, done: map<nat, nat>, newest: int) {
    && -1 <= newest < |orders|
    && memory.acceptedEpoch <= epoch
    && (OBJECT in memory.objects <==> newest >= 0)
    && (newest >= 0 ==> memory.objects[OBJECT] == Fence.Accepted(orders[newest].generation, orders[newest].digest))
    && (forall k :: 0 <= k < |orders| ==> (orders[k].requestId in memory.outcomes <==> k in done))
  }

  ghost predicate BootsInv(boots: seq<string>) {
    && boots != []
    && (forall i :: 0 <= i < |boots| ==> boots[i] != "")
    && (forall i, j :: 0 <= i < j < |boots| ==> boots[i] != boots[j])
  }

  function Rank(stage: Stage): nat {
    match stage
    case Arrived => 0
    case EpochRead => 1
    case ClockRead => 2
    case ObjectRead => 3
    case Decided => 4
    case EpochWritten => 5
    case Working => 6
  }

  /** The order is there and its epoch is written. */
  predicate Known(orders: seq<Order>, accepted: int, k: nat) { k < |orders| && orders[k].epoch <= accepted }

  ghost predicate TaskInv(f: Flight, orders: seq<Order>, accepted: int, newest: int) {
    && f.order < |orders|
    && (Rank(f.stage) >= 5 ==> Known(orders, accepted, f.order))
    && (f.stage.Working? ==> f.order <= newest)
  }

  ghost predicate TasksInv(tasks: map<nat, Flight>, orders: seq<Order>, accepted: int, newest: int) {
    forall t :: t in tasks ==> TaskInv(tasks[t], orders, accepted, newest)
  }

  /** What is held is what the last work to end in this boot left. */
  function HeldAfter(ended: seq<Ending>): Held {
    if ended == [] then Empty
    else if ended[|ended| - 1].result.HalfWay? then Broken
    else Holds(ended[|ended| - 1].order)
  }

  ghost predicate EndedInv(held: Held, ended: seq<Ending>, done: map<nat, nat>, newest: int, boots: nat) {
    && held == HeldAfter(ended)
    && (forall k :: k in done ==> k <= newest && done[k] < boots)
    && (forall i :: 0 <= i < |ended| ==>
          && ended[i].order <= newest
          && (ended[i].result.Recorded? ==> ended[i].order in done && done[ended[i].order] == boots - 1))
    && (forall k :: k in done && done[k] == boots - 1 ==> Ending(k, Recorded) in ended)
  }

  ghost predicate KnownInv(ended: seq<Ending>, done: map<nat, nat>, orders: seq<Order>, accepted: int) {
    && (forall i :: 0 <= i < |ended| ==> Known(orders, accepted, ended[i].order))
    && (forall k :: k in done ==> Known(orders, accepted, k))
  }

  /** Nothing that ended names a higher epoch than this order. */
  ghost predicate NotBehind(ended: seq<Ending>, orders: seq<Order>, k: nat) {
    k < |orders| && forall i :: 0 <= i < |ended| && ended[i].order < |orders| ==> orders[ended[i].order].epoch <= orders[k].epoch
  }

  ghost predicate SerialTaskInv(f: Flight, newest: int, done: map<nat, nat>, ended: seq<Ending>, orders: seq<Order>) {
    && (Rank(f.stage) >= 1 ==> NotBehind(ended, orders, f.order))
    && (Rank(f.stage) >= 3 ==> newest <= f.order)
    && (Rank(f.stage) >= 4 ==> f.order !in done)
    && (f.stage.Working? ==> f.order == newest)
  }

  /** One order under way at most. */
  predicate Single(tasks: map<nat, Flight>) { forall t, u :: t in tasks && u in tasks ==> t == u }

  /** While orders are served one after another, they end in the order they were sent, and a recorded end is final. */
  ghost predicate Sorted(ended: seq<Ending>, orders: seq<Order>) {
    forall i, j :: 0 <= i < j < |ended| ==>
      && ended[i].order <= ended[j].order
      && (ended[i].result.Recorded? ==> ended[i].order < ended[j].order)
      && (ended[i].order < |orders| && ended[j].order < |orders| ==>
            orders[ended[i].order].epoch <= orders[ended[j].order].epoch)
  }

  ghost predicate SerialInv(raced: bool, tasks: map<nat, Flight>, newest: int, done: map<nat, nat>, ended: seq<Ending>,
                            orders: seq<Order>) {
    !raced ==>
      && Single(tasks) && Sorted(ended, orders)
      && (forall t :: t in tasks ==> SerialTaskInv(tasks[t], newest, done, ended, orders))
  }

  ghost predicate MachineInv(m: Machine, orders: seq<Order>) {
    && BootsInv(m.boots)
    && TasksInv(m.tasks, orders, m.memory.acceptedEpoch, m.newest)
    && EndedInv(m.held, m.ended, m.done, m.newest, |m.boots|)
    && KnownInv(m.ended, m.done, orders, m.memory.acceptedEpoch)
    && SerialInv(m.raced, m.tasks, m.newest, m.done, m.ended, orders)
  }

  /** The order was applied in the noted boot or a later one. */
  predicate NotBefore(boots: seq<string>, done: map<nat, nat>, k: nat, boot: string)
    requires k in done
  {
    forall i :: 0 <= i < |boots| && boots[i] == boot ==> i <= done[k]
  }

  /** The present controller has sent nothing after this order. */
  predicate IsLatest(orders: seq<Order>, epoch: int, k: int) {
    forall i :: k < i < |orders| && 0 <= i ==> orders[i].epoch < epoch
  }

  ghost predicate CacheInv(view: HostView, acked: int, orders: seq<Order>, epoch: int, boots: seq<string>,
                           done: map<nat, nat>) {
    && (view.applied.Some? ==>
          && 0 <= acked < |orders|
          && orders[acked].digest == view.applied.value && orders[acked].epoch == epoch
          && acked in done
          && view.boot.Some?
          && NotBefore(boots, done, acked, view.boot.value)
          && (forall k :: acked < k < |orders| && orders[k].epoch == epoch ==> orders[k].digest != view.applied.value))
    && (view.boot.Some? ==> view.boot.value in boots)
  }

  ghost predicate ProgressInv(progress: Progress, view: HostView, acked: int, orders: seq<Order>, epoch: int,
                              boots: seq<string>, done: map<nat, nat>) {
    match progress
    case Idle => true
    case Polled(boot) => boot in boots
    case Noted => view.boot.Some?
    case Waiting(k) =>
      && k < |orders| && orders[k].epoch == epoch && IsLatest(orders, epoch, k)
      && view.boot.Some?
      && (k in done ==> NotBefore(boots, done, k, view.boot.value))
    case Returned(body, digest, sent) =>
      && view.applied == Some(digest)
      && (sent ==> 0 <= acked < |orders| && IsLatest(orders, epoch, acked) && orders[acked].body == body)
  }

  ghost predicate ViewInv(s: System) {
    && CacheInv(s.view, s.acked, s.orders, s.epoch, s.machine.boots, s.machine.done)
    && ProgressInv(s.progress, s.view, s.acked, s.orders, s.epoch, s.machine.boots, s.machine.done)
  }

  ghost predicate Inv(s: System) {
    && OrdersInv(s.orders, s.epoch)
    && FenceInv(s.orders, s.epoch, s.machine.memory, s.machine.done, s.machine.newest)
    && MachineInv(s.machine, s.orders)
    && ViewInv(s)
  }

  lemma PollKeepsInv(s: System, a: Action)
    requires Inv(s) && (a.PollAnswered? || a.NoteBootId? || a.GiveUp?)
    ensures Inv(Do(s, a))
  {
  }

  lemma SendKeepsFence(s: System, o: Order)
    requires Inv(s) && NewOrder(s, o) && o.epoch <= s.epoch
    ensures OrdersInv(s.orders + [o], s.epoch)
    ensures FenceInv(s.orders + [o], s.epoch, s.machine.memory, s.machine.done, s.machine.newest)
  {
    var orders := s.orders + [o];
    assert forall k :: 0 <= k < |s.orders| ==> orders[k] == s.orders[k];
    assert |s.orders| !in s.machine.done;
  }

  /** A new order touches nothing the machine has. */
  lemma SendKeepsMachine(s: System, o: Order)
    requires Inv(s)
    ensures MachineInv(s.machine, s.orders + [o])
  {
    var orders := s.orders + [o];
    assert forall k :: 0 <= k < |s.orders| ==> orders[k] == s.orders[k];
  }

  lemma SendKeepsView(s: System, o: Order)
    requires Inv(s) && s.progress.Noted? && o.epoch == s.epoch && !Skips(s.view, o.digest)
    ensures CacheInv(s.view, s.acked, s.orders + [o], s.epoch, s.machine.boots, s.machine.done)
    ensures ProgressInv(Waiting(|s.orders|), s.view, s.acked, s.orders + [o], s.epoch, s.machine.boots, s.machine.done)
  {
    var orders := s.orders + [o];
    assert forall k :: 0 <= k < |s.orders| ==> orders[k] == s.orders[k];
    assert |s.orders| !in s.machine.done;
  }

  lemma SyncKeepsInv(s: System, a: Action)
    requires Inv(s) && a.SyncHost?
    ensures Inv(Do(s, a))
  {
    var o := Order(a.body, a.digest, a.generation, a.requestId, s.epoch, a.sentAt, a.leaseExpiresAt);
    if s.progress.Noted? && !Skips(s.view, a.digest) && NewOrder(s, o) {
      SendKeepsFence(s, o);
      SendKeepsMachine(s, o);
      SendKeepsView(s, o);
    }
  }

  lemma ReplacedKeepsView(s: System, o: Order)
    requires Inv(s) && o.epoch < s.epoch
    ensures ViewInv(s.(orders := s.orders + [o]))
  {
    var orders := s.orders + [o];
    assert forall k :: 0 <= k < |s.orders| ==> orders[k] == s.orders[k];
    assert orders[|s.orders|] == o;
  }

  lemma ReplacedKeepsInv(s: System, o: Order)
    requires Inv(s)
    ensures Inv(Do(s, ReplacedSends(o)))
  {
    if o.epoch < s.epoch && NewOrder(s, o) {
      SendKeepsFence(s, o);
      SendKeepsMachine(s, o);
      ReplacedKeepsView(s, o);
    }
  }

  lemma AnswerKeepsInv(s: System)
    requires Inv(s)
    ensures Inv(Do(s, AnswerReceived))
  {
  }

  lemma RestartKeepsInv(s: System)
    requires Inv(s)
    ensures Inv(Do(s, Restart))
  {
  }

  /** The fence lets through only the newest order so far or a newer one. */
  lemma PassingIsNewest(s: System, k: nat)
    requires Inv(s) && k < |s.orders|
    ensures Fence.ObjectPasses(s.machine.memory, FenceOf(s.orders[k])) <==> s.machine.newest <= k
  {
    var newest := s.machine.newest;
    assert newest >= 0 ==> (newest == k || newest < k || k < newest);
  }

  lemma ArriveKeepsInv(s: System, t: nat, k: nat)
    requires Inv(s)
    ensures Inv(Do(s, Arrive(t, k)))
  {
  }

  /** One task moves on, and nothing else changes but what is written. */
  lemma MovingOnKeepsTasks(m: Machine, orders: seq<Order>, t: nat, f: Flight, accepted: int, newest: int)
    requires MachineInv(m, orders) && t in m.tasks && m.memory.acceptedEpoch <= accepted && m.newest <= newest
    requires TaskInv(f, orders, accepted, newest)
    requires !m.raced ==> SerialTaskInv(f, newest, m.done, m.ended, orders)
    ensures TasksInv(m.tasks[t := f], orders, accepted, newest)
    ensures KnownInv(m.ended, m.done, orders, accepted)
    ensures SerialInv(m.raced, m.tasks[t := f], newest, m.done, m.ended, orders)
    ensures EndedInv(m.held, m.ended, m.done, newest, |m.boots|)
  {
    var tasks := m.tasks[t := f];
    assert forall u :: u in tasks ==> u in m.tasks;
  }

  lemma LeavingKeepsTasks(m: Machine, orders: seq<Order>, t: nat)
    requires MachineInv(m, orders)
    ensures MachineInv(m.(tasks := m.tasks - {t}), orders)
  {
  }

  /** What ended is no newer than the epoch on record, so whoever passes that is not behind. */
  lemma PassingIsNotBehind(m: Machine, orders: seq<Order>, k: nat)
    requires MachineInv(m, orders) && k < |orders| && Fence.EpochPasses(m.memory, orders[k].epoch)
    ensures NotBehind(m.ended, orders, k)
  {
    forall i | 0 <= i < |m.ended| && m.ended[i].order < |orders|
      ensures orders[m.ended[i].order].epoch <= orders[k].epoch
    {
      assert Known(orders, m.memory.acceptedEpoch, m.ended[i].order);
    }
  }

  lemma ReadKeepsMachine(s: System, t: nat)
    requires Inv(s) && t in s.machine.tasks && Rank(s.machine.tasks[t].stage) < 4
    ensures MachineInv(Advanced(s.machine, t, s.orders[s.machine.tasks[t].order]), s.orders)
  {
    var m, f := s.machine, s.machine.tasks[t];
    var o := s.orders[f.order];
    LeavingKeepsTasks(m, s.orders, t);
    PassingIsNewest(s, f.order);
    match f.stage {
      case Arrived =>
        if Fence.EpochPasses(m.memory, o.epoch) {
          PassingIsNotBehind(m, s.orders, f.order);
          MovingOnKeepsTasks(m, s.orders, t, f.(stage := EpochRead), m.memory.acceptedEpoch, m.newest);
        }
      case EpochRead =>
        if Fence.Timely(m.now, EnvelopeOf(o, m.name)) {
          MovingOnKeepsTasks(m, s.orders, t, f.(stage := ClockRead), m.memory.acceptedEpoch, m.newest);
        }
      case ClockRead =>
        if Fence.ObjectPasses(m.memory, FenceOf(o)) {
          MovingOnKeepsTasks(m, s.orders, t, f.(stage := ObjectRead), m.memory.acceptedEpoch, m.newest);
        }
      case ObjectRead =>
        if o.requestId !in m.memory.outcomes {
          MovingOnKeepsTasks(m, s.orders, t, f.(stage := Decided), m.memory.acceptedEpoch, m.newest);
        }
    }
  }

  lemma WriteKeepsMachine(s: System, t: nat)
    requires Inv(s) && t in s.machine.tasks && Rank(s.machine.tasks[t].stage) >= 4
    ensures MachineInv(Advanced(s.machine, t, s.orders[s.machine.tasks[t].order]), s.orders)
  {
    var m, f := s.machine, s.machine.tasks[t];
    var m' := Advanced(m, t, s.orders[f.order]);
    if f.stage.Decided? {
      MovingOnKeepsTasks(m, s.orders, t, f.(stage := EpochWritten), m'.memory.acceptedEpoch, m.newest);
    } else if f.stage.EpochWritten? {
      MovingOnKeepsTasks(m, s.orders, t, f.(stage := Working), m.memory.acceptedEpoch, m'.newest);
    }
  }

  lemma WriteKeepsFence(s: System, t: nat)
    requires Inv(s) && t in s.machine.tasks
    ensures
      var m := Advanced(s.machine, t, s.orders[s.machine.tasks[t].order]);
      FenceInv(s.orders, s.epoch, m.memory, m.done, m.newest)
  {
    var newest, k := s.machine.newest, s.machine.tasks[t].order;
    assert newest >= 0 && k < newest ==> s.orders[k].generation < s.orders[newest].generation;
    assert newest >= 0 && newest < k ==> s.orders[newest].generation < s.orders[k].generation;
  }

  lemma AdvanceKeepsInv(s: System, t: nat)
    requires Inv(s) && t in s.machine.tasks
    ensures Inv(Do(s, Advance(t)))
  {
    assert TaskInv(s.machine.tasks[t], s.orders, s.machine.memory.acceptedEpoch, s.machine.newest);
    WriteKeepsFence(s, t);
    if Rank(s.machine.tasks[t].stage) < 4 {
      ReadKeepsMachine(s, t);
    } else {
      WriteKeepsMachine(s, t);
    }
    AdvanceKeepsRest(s.machine, t, s.orders[s.machine.tasks[t].order]);
  }

  lemma AdvanceKeepsRest(m: Machine, t: nat, o: Order)
    requires t in m.tasks
    ensures Advanced(m, t, o).boots == m.boots && Advanced(m, t, o).done == m.done
  {
  }

  lemma RecordedKeepsEnded(ended: seq<Ending>, done: map<nat, nat>, newest: int, boots: nat, k: nat)
    requires boots > 0 && EndedInv(HeldAfter(ended), ended, done, newest, boots) && k <= newest
    ensures EndedInv(Holds(k), ended + [Ending(k, Recorded)], done[k := boots - 1], newest, boots)
  {
    var more := ended + [Ending(k, Recorded)];
    assert more[|ended|] == Ending(k, Recorded);
    assert forall i :: 0 <= i < |ended| ==> more[i] == ended[i];
    assert forall e :: e in ended ==> e in more;
  }

  lemma OtherEndKeepsEnded(ended: seq<Ending>, done: map<nat, nat>, newest: int, boots: nat, k: nat, result: Result)
    requires EndedInv(HeldAfter(ended), ended, done, newest, boots) && k <= newest && !result.Recorded?
    ensures
      var more := ended + [Ending(k, result)];
      EndedInv(HeldAfter(more), more, done, newest, boots)
  {
    var more := ended + [Ending(k, result)];
    assert more[|ended|] == Ending(k, result);
    assert forall i :: 0 <= i < |ended| ==> more[i] == ended[i];
    assert forall e :: e in ended ==> e in more;
  }

  /** Without overlap, work on the newest order that is not done ends at the end. */
  lemma EndKeepsSorted(ended: seq<Ending>, orders: seq<Order>, done: map<nat, nat>, k: nat, result: Result)
    requires Sorted(ended, orders) && NotBehind(ended, orders, k) && k !in done
    requires forall i :: 0 <= i < |ended| ==> ended[i].order <= k && (ended[i].result.Recorded? ==> ended[i].order in done)
    ensures Sorted(ended + [Ending(k, result)], orders)
  {
    var more := ended + [Ending(k, result)];
    assert more[|ended|] == Ending(k, result);
    assert forall i :: 0 <= i < |ended| ==> more[i] == ended[i];
  }

  lemma EndKeepsKnown(ended: seq<Ending>, done: map<nat, nat>, orders: seq<Order>, accepted: int, k: nat, result: Result,
                      boot: nat)
    requires KnownInv(ended, done, orders, accepted) && Known(orders, accepted, k)
    ensures KnownInv(ended + [Ending(k, result)], done, orders, accepted)
    ensures KnownInv(ended + [Ending(k, result)], done[k := boot], orders, accepted)
  {
    var more := ended + [Ending(k, result)];
    assert more[|ended|] == Ending(k, result);
    assert forall i :: 0 <= i < |ended| ==> more[i] == ended[i];
  }

  lemma WorkKeepsEnded(m: Machine, orders: seq<Order>, t: nat, requestId: string, result: Result)
    requires MachineInv(m, orders) && t in m.tasks && m.tasks[t].stage.Working?
    ensures
      var m' := Worked(m, t, requestId, result);
      && EndedInv(m'.held, m'.ended, m'.done, m'.newest, |m'.boots|)
      && KnownInv(m'.ended, m'.done, orders, m'.memory.acceptedEpoch)
  {
    var k := m.tasks[t].order;
    assert TaskInv(m.tasks[t], orders, m.memory.acceptedEpoch, m.newest);
    if result.Recorded? {
      RecordedKeepsEnded(m.ended, m.done, m.newest, |m.boots|, k);
    } else {
      OtherEndKeepsEnded(m.ended, m.done, m.newest, |m.boots|, k, result);
    }
    EndKeepsKnown(m.ended, m.done, orders, m.memory.acceptedEpoch, k, result, |m.boots| - 1);
  }

  lemma WorkKeepsSerial(m: Machine, orders: seq<Order>, t: nat, requestId: string, result: Result)
    requires MachineInv(m, orders) && t in m.tasks && m.tasks[t].stage.Working?
    ensures
      var m' := Worked(m, t, requestId, result);
      && SerialInv(m'.raced, m'.tasks, m'.newest, m'.done, m'.ended, orders)
      && TasksInv(m'.tasks, orders, m'.memory.acceptedEpoch, m'.newest)
  {
    if !m.raced {
      assert SerialTaskInv(m.tasks[t], m.newest, m.done, m.ended, orders);
      EndKeepsSorted(m.ended, orders, m.done, m.tasks[t].order, result);
      assert forall u :: u !in m.tasks - {t};
    }
  }

  lemma WorkKeepsFence(s: System, t: nat, result: Result)
    requires Inv(s) && t in s.machine.tasks && s.machine.tasks[t].order < |s.orders|
    ensures
      var m := Worked(s.machine, t, s.orders[s.machine.tasks[t].order].requestId, result);
      FenceInv(s.orders, s.epoch, m.memory, m.done, m.newest)
  {
    var k := s.machine.tasks[t].order;
    var m := Worked(s.machine, t, s.orders[k].requestId, result);
    forall i | 0 <= i < |s.orders| ensures s.orders[i].requestId in m.memory.outcomes <==> i in m.done {
      assert i == k || s.orders[i].requestId != s.orders[k].requestId;
    }
  }

  /** The controller's side does not mind what the machine applies within a boot. */
  lemma WorkKeepsView(s: System, k: nat)
    requires Inv(s)
    ensures
      var boots, done := s.machine.boots, s.machine.done[k := |s.machine.boots| - 1];
      && CacheInv(s.view, s.acked, s.orders, s.epoch, boots, done)
      && ProgressInv(s.progress, s.view, s.acked, s.orders, s.epoch, boots, done)
  {
  }

  lemma WorkKeepsInv(s: System, t: nat, result: Result)
    requires Inv(s) && t in s.machine.tasks && s.machine.tasks[t].stage.Working?
    ensures Inv(Do(s, Work(t, result)))
  {
    var k := s.machine.tasks[t].order;
    assert TaskInv(s.machine.tasks[t], s.orders, s.machine.memory.acceptedEpoch, s.machine.newest);
    WorkKeepsEnded(s.machine, s.orders, t, s.orders[k].requestId, result);
    WorkKeepsSerial(s.machine, s.orders, t, s.orders[k].requestId, result);
    WorkKeepsFence(s, t, result);
    WorkKeepsView(s, k);
  }

  lemma OtherKeepsInv(s: System, e: Fence.Envelope, finished: bool)
    requires Inv(s)
    ensures Inv(Do(s, OtherOrder(e, finished)))
  {
    if IsElsewhere(s, e) {
      assert FenceInv(s.orders, s.epoch, WentBy(s.machine.memory, e, finished), s.machine.done, s.machine.newest);
    }
  }

  lemma RebootKeepsMachine(s: System, boot: string)
    requires Inv(s) && boot != "" && boot !in s.machine.boots
    ensures MachineInv(Do(s, Reboot(boot)).machine, s.orders)
  {
  }

  lemma RebootKeepsInv(s: System, boot: string)
    requires Inv(s)
    ensures Inv(Do(s, Reboot(boot)))
  {
    if boot != "" && boot !in s.machine.boots {
      RebootKeepsMachine(s, boot);
      var boots, done := s.machine.boots + [boot], s.machine.done;
      assert CacheInv(s.view, s.acked, s.orders, s.epoch, boots, done);
      assert ProgressInv(s.progress, s.view, s.acked, s.orders, s.epoch, boots, done);
    }
  }

  lemma StepKeepsInv(s: System, a: Action)
    requires Inv(s)
    ensures Inv(Do(s, a))
  {
    match a {
      case Pass(_) =>
      case Arrive(t, k) => ArriveKeepsInv(s, t, k);
      case Advance(t) => if t in s.machine.tasks { AdvanceKeepsInv(s, t); }
      case Work(t, result) =>
        if t in s.machine.tasks && s.machine.tasks[t].stage.Working? { WorkKeepsInv(s, t, result); }
      case Drop(t) => LeavingKeepsTasks(s.machine, s.orders, t);
      case OtherOrder(e, finished) => OtherKeepsInv(s, e, finished);
      case Reboot(boot) => RebootKeepsInv(s, boot);
      case SyncHost(_, _, _, _, _, _) => SyncKeepsInv(s, a);
      case AnswerReceived => AnswerKeepsInv(s);
      case Restart => RestartKeepsInv(s);
      case ReplacedSends(o) => ReplacedKeepsInv(s, o);
      case _ => PollKeepsInv(s, a);
    }
  }

  lemma {:induction false} RunKeepsInv(s: System, actions: seq<Action>)
    requires Inv(s)
    ensures Inv(Run(s, actions))
    decreases |actions|
  {
    if actions != [] {
      RunKeepsInv(s, actions[..|actions| - 1]);
      StepKeepsInv(Run(s, actions[..|actions| - 1]), actions[|actions| - 1]);
    }
  }

  // ------------------------------------------------------------------
  // What can still get through
  // ------------------------------------------------------------------

  /** The machine holds a description with this digest, applied in this boot. */
  predicate HoldsDigest(s: System, digest: string) {
    && s.machine.held.Holds?
    && s.machine.held.order < |s.orders|
    && s.orders[s.machine.held.order].digest == digest
  }

  /** It still does, whatever arrives, ends, breaks or dies from here on, and whenever. */
  ghost predicate KeepsDigest(s: System, digest: string)
    requires s.machine.boots != []
  {
    forall world: seq<Action> :: (forall a :: a in world ==> Ambient(a)) ==> HoldsDigest(Run(s, world), digest)
  }

  function Later(a: int, b: int): int { if a >= b then a else b }

  /** The first moment at which the clocks agree well enough on an order. */
  function FirstMoment(o: Order): int { o.sentAt - (Fence.MAX_SKEW_SECONDS + 1) * Fence.NS_PER_SEC + 1 }

  /** There is a moment from now on at which the fence finds this order timely. */
  predicate StillTimely(now: int, o: Order, machine: string) {
    Fence.Timely(Later(now, FirstMoment(o)), EnvelopeOf(o, machine))
  }

  /** An order at this stage can still get through: nothing that is still to be read speaks against it. */
  predicate Passable(s: System, k: nat, stage: Stage)
    requires k < |s.orders|
  {
    var m, o := s.machine, s.orders[k];
    && (Rank(stage) < 1 ==> Fence.EpochPasses(m.memory, o.epoch))
    && (Rank(stage) < 2 ==> StillTimely(m.now, o, m.name))
    && (Rank(stage) < 3 ==> m.newest <= k)
    && (Rank(stage) < 4 ==> k !in m.done)
  }

  /** The same for an order under way. */
  predicate CanGetThrough(s: System, t: nat) {
    && t in s.machine.tasks && s.machine.tasks[t].order < |s.orders|
    && Passable(s, s.machine.tasks[t].order, s.machine.tasks[t].stage)
  }

  /** No order, delivered again or for the first time, can get through any more. */
  predicate NothingToCome(s: System) {
    forall k: nat :: k < |s.orders| ==> !Passable(s, k, Arrived)
  }

  /** No order under way can get through any more. */
  predicate NothingUnderWay(s: System) {
    forall t :: t in s.machine.tasks ==> !CanGetThrough(s, t)
  }

  predicate Spent(s: System) { NothingToCome(s) && NothingUnderWay(s) }

  /** The last work to end in this boot applied this digest. */
  predicate EndedLastWith(s: System, digest: string) {
    var ended := s.machine.ended;
    && ended != [] && !ended[|ended| - 1].result.HalfWay? && ended[|ended| - 1].order < |s.orders|
    && s.orders[ended[|ended| - 1].order].digest == digest
  }

  predicate Settled(s: System, digest: string) { EndedLastWith(s, digest) && Spent(s) }

  lemma TimelyNowIsStillTimely(now: int, o: Order, machine: string)
    requires Fence.Timely(now, EnvelopeOf(o, machine))
    ensures StillTimely(now, o, machine)
  {
  }

  /** An order that is out of time stays out of time. */
  lemma TimeOnlyRunsOut(now: int, span: nat, o: Order, machine: string)
    requires !StillTimely(now, o, machine)
    ensures !StillTimely(now + span, o, machine)
  {
  }

  /** What cannot pass stays so while epoch, clock, newest order and outcomes go on. */
  lemma StaysImpassable(s: System, s': System, k: nat, stage: Stage)
    requires k < |s.orders| && s'.orders == s.orders && !Passable(s, k, stage)
    requires s.machine.now <= s'.machine.now && s'.machine.name == s.machine.name
    requires s.machine.memory.acceptedEpoch <= s'.machine.memory.acceptedEpoch && s.machine.newest <= s'.machine.newest
    requires forall i :: i in s.machine.done ==> i in s'.machine.done
    ensures !Passable(s', k, stage)
  {
    if !StillTimely(s.machine.now, s.orders[k], s.machine.name) {
      TimeOnlyRunsOut(s.machine.now, s'.machine.now - s.machine.now, s.orders[k], s.machine.name);
    }
  }

  /** The surroundings only make it harder to get through. */
  lemma SettledSurroundings(s: System, a: Action, digest: string)
    requires Inv(s) && Settled(s, digest) && (a.Pass? || a.OtherOrder?)
    ensures Settled(Do(s, a), digest)
  {
    var s' := Do(s, a);
    forall k: nat | k < |s.orders| ensures !Passable(s', k, Arrived) {
      StaysImpassable(s, s', k, Arrived);
    }
    forall t | t in s'.machine.tasks ensures !CanGetThrough(s', t) {
      assert !CanGetThrough(s, t);
      if s.machine.tasks[t].order < |s.orders| {
        StaysImpassable(s, s', s.machine.tasks[t].order, s.machine.tasks[t].stage);
      }
    }
  }

  /** A task that cannot get through is refused at one of its questions, or has not come to it yet. */
  lemma ImpassableAdvances(s: System, t: nat)
    requires Inv(s) && t in s.machine.tasks && s.machine.tasks[t].order < |s.orders|
    requires !Passable(s, s.machine.tasks[t].order, s.machine.tasks[t].stage)
    ensures
      var f, m := s.machine.tasks[t], Do(s, Advance(t)).machine;
      && m == s.machine.(tasks := m.tasks)
      && (m.tasks == s.machine.tasks - {t}
          || (t in m.tasks && m.tasks[t].order == f.order && m.tasks == s.machine.tasks[t := m.tasks[t]]
              && !Passable(s, f.order, m.tasks[t].stage)))
  {
    var m, f := s.machine, s.machine.tasks[t];
    assert Rank(f.stage) < 4;
    PassingIsNewest(s, f.order);
    if Fence.Timely(m.now, EnvelopeOf(s.orders[f.order], m.name)) {
      TimelyNowIsStillTimely(m.now, s.orders[f.order], m.name);
    }
  }

  /** Only the tasks changed, and each is an old one or cannot get through. */
  lemma SettledTasks(s: System, s': System, digest: string)
    requires Settled(s, digest) && s' == s.(machine := s.machine.(tasks := s'.machine.tasks, raced := s'.machine.raced))
    requires forall t :: t in s'.machine.tasks ==>
               || (t in s.machine.tasks && s'.machine.tasks[t] == s.machine.tasks[t])
               || (s'.machine.tasks[t].order < |s.orders| ==>
                     !Passable(s, s'.machine.tasks[t].order, s'.machine.tasks[t].stage))
    ensures Settled(s', digest)
  {
    assert forall k: nat, stage: Stage :: k < |s.orders| ==> (Passable(s', k, stage) <==> Passable(s, k, stage));
    forall t | t in s'.machine.tasks ensures !CanGetThrough(s', t) {
      assert t in s.machine.tasks ==> !CanGetThrough(s, t);
    }
  }

  lemma SettledHasNoWork(s: System, t: nat, result: Result, digest: string)
    requires s.machine.boots != [] && Settled(s, digest)
    ensures Do(s, Work(t, result)) == s
  {
    assert t in s.machine.tasks ==> !CanGetThrough(s, t);
  }

  lemma SettledStep(s: System, a: Action, digest: string)
    requires Inv(s) && Settled(s, digest) && Ambient(a)
    ensures Settled(Do(s, a), digest)
  {
    match a {
      case Advance(t) =>
        if t in s.machine.tasks && s.machine.tasks[t].order < |s.orders| {
          assert !CanGetThrough(s, t);
          ImpassableAdvances(s, t);
          SettledTasks(s, Do(s, a), digest);
        }
      case Arrive(t, k) =>
        if k < |s.orders| {
          assert !Passable(s, k, Arrived);
          SettledTasks(s, Do(s, a), digest);
        }
      case Work(t, result) => SettledHasNoWork(s, t, result, digest);
      case Drop(t) => SettledTasks(s, Do(s, a), digest);
      case _ => SettledSurroundings(s, a, digest);
    }
  }

  lemma {:induction false} SettledRun(s: System, world: seq<Action>, digest: string)
    requires Inv(s) && Settled(s, digest)
    requires forall a :: a in world ==> Ambient(a)
    ensures Settled(Run(s, world), digest)
    decreases |world|
  {
    if world != [] {
      var before := world[..|world| - 1];
      SettledRun(s, before, digest);
      RunKeepsInv(s, before);
      SettledStep(Run(s, before), world[|world| - 1], digest);
    }
  }

  /** What ended last is what is held. */
  lemma EndedIsHeld(s: System, digest: string)
    requires MachineInv(s.machine, s.orders)
    ensures HoldsDigest(s, digest) <==> EndedLastWith(s, digest)
  {
  }

  lemma {:induction false} RunConcat(s: System, first: seq<Action>, second: seq<Action>)
    requires s.machine.boots != []
    ensures Run(s, first + second) == Run(Run(s, first), second)
    decreases |second|
  {
    if second == [] {
      assert first + second == first;
    } else {
      var n := |second| - 1;
      assert (first + second)[..|first + second| - 1] == first + second[..n];
      RunConcat(s, first, second[..n]);
    }
  }

  lemma RunOne(s: System, a: Action)
    requires s.machine.boots != []
    ensures Run(s, [a]) == Do(s, a)
  {
    assert [a][..0] == [];
  }

  lemma RunFirst(s: System, a: Action, rest: seq<Action>)
    requires s.machine.boots != []
    ensures Run(s, [a] + rest) == Run(Do(s, a), rest)
  {
    RunConcat(s, [a], rest);
    RunOne(s, a);
  }

  /** An order that can get through does so: one step at a time, once the clock is right. */
  lemma PassableAdvances(s: System, t: nat)
    requires Inv(s) && t in s.machine.tasks && Rank(s.machine.tasks[t].stage) < 6
    requires s.machine.tasks[t].order < |s.orders| && Passable(s, s.machine.tasks[t].order, s.machine.tasks[t].stage)
    requires s.machine.tasks[t].stage.EpochRead? ==>
               Fence.Timely(s.machine.now, EnvelopeOf(s.orders[s.machine.tasks[t].order], s.machine.name))
    ensures
      var f, s' := s.machine.tasks[t], Do(s, Advance(t));
      && t in s'.machine.tasks && s'.machine.tasks[t].order == f.order && s'.orders == s.orders
      && Rank(s'.machine.tasks[t].stage) == Rank(f.stage) + 1
      && Passable(s', f.order, s'.machine.tasks[t].stage)
  {
    PassingIsNewest(s, s.machine.tasks[t].order);
  }

  /** The clock is brought to a moment at which an order that can get through is timely. */
  lemma WaitingMakesTimely(s: System, k: nat, stage: Stage)
    requires Inv(s) && k < |s.orders| && Passable(s, k, stage) && Rank(stage) < 2
    ensures
      var span := Later(s.machine.now, FirstMoment(s.orders[k])) - s.machine.now;
      var s' := Do(s, Pass(span));
      Passable(s', k, stage) && Fence.Timely(s'.machine.now, EnvelopeOf(s.orders[k], s.machine.name))
  {
  }

  /** How many steps the order still has before it, waiting for the clock included. */
  function Ahead(s: System, t: nat): nat
    requires CanGetThrough(s, t)
  {
    var f := s.machine.tasks[t];
    2 * (6 - Rank(f.stage))
    + if f.stage.EpochRead? && !Fence.Timely(s.machine.now, EnvelopeOf(s.orders[f.order], s.machine.name)) then 1 else 0
  }

  lemma OneStepOn(s: System, t: nat) returns (a: Action)
    requires Inv(s) && CanGetThrough(s, t) && !s.machine.tasks[t].stage.Working?
    ensures Ambient(a) && CanGetThrough(Do(s, a), t) && Ahead(Do(s, a), t) < Ahead(s, t)
  {
    var f := s.machine.tasks[t];
    if f.stage.EpochRead? && !Fence.Timely(s.machine.now, EnvelopeOf(s.orders[f.order], s.machine.name)) {
      WaitingMakesTimely(s, f.order, f.stage);
      return Pass(Later(s.machine.now, FirstMoment(s.orders[f.order])) - s.machine.now);
    }
    PassableAdvances(s, t);
    return Advance(t);
  }

  lemma {:induction false} UnderWayCanBreak(s: System, t: nat, digest: string) returns (world: seq<Action>)
    requires Inv(s) && CanGetThrough(s, t)
    ensures forall a :: a in world ==> Ambient(a)
    ensures !HoldsDigest(Run(s, world), digest)
    decreases Ahead(s, t)
  {
    if s.machine.tasks[t].stage.Working? {
      RunOne(s, Work(t, HalfWay));
      return [Work(t, HalfWay)];
    }
    var a := OneStepOn(s, t);
    StepKeepsInv(s, a);
    var rest := UnderWayCanBreak(Do(s, a), t, digest);
    RunFirst(s, a, rest);
    return [a] + rest;
  }

  /** A task number that is not in use. */
  lemma FreshTask(tasks: set<nat>) returns (t: nat)
    ensures t !in tasks
  {
    if tasks == {} {
      return 0;
    }
    var x :| x in tasks;
    var bigger := FreshAbove(tasks, x);
    return bigger;
  }

  lemma FreshAbove(tasks: set<nat>, start: nat) returns (t: nat)
    ensures t !in tasks && t >= start
    decreases tasks
  {
    if start in tasks {
      var u := FreshAbove(tasks - {start}, start + 1);
      return u;
    }
    return start;
  }

  lemma ToComeCanBreak(s: System, k: nat, digest: string) returns (world: seq<Action>)
    requires Inv(s) && k < |s.orders| && Passable(s, k, Arrived)
    ensures forall a :: a in world ==> Ambient(a)
    ensures !HoldsDigest(Run(s, world), digest)
  {
    var t := FreshTask(s.machine.tasks.Keys);
    var a := Arrive(t, k);
    StepKeepsInv(s, a);
    var s' := Do(s, a);
    assert s'.machine.tasks[t] == Flight(k, Arrived) && Passable(s', k, Arrived);
    var rest := UnderWayCanBreak(s', t, digest);
    RunFirst(s, a, rest);
    return [a] + rest;
  }

  /** Whatever is missing, some world takes the machine elsewhere. */
  lemma UnsettledCanBreak(s: System, digest: string) returns (world: seq<Action>)
    requires Inv(s) && !Settled(s, digest)
    ensures forall a :: a in world ==> Ambient(a)
    ensures !HoldsDigest(Run(s, world), digest)
  {
    if !EndedLastWith(s, digest) {
      EndedIsHeld(s, digest);
      world := [];
    } else if !NothingToCome(s) {
      var k: nat :| k < |s.orders| && Passable(s, k, Arrived);
      world := ToComeCanBreak(s, k, digest);
    } else {
      var t :| CanGetThrough(s, t);
      world := UnderWayCanBreak(s, t, digest);
    }
  }

  // ------------------------------------------------------------------
  // When the cache entry can be trusted
  // ------------------------------------------------------------------

  /** There is a cache entry and the machine has not rebooted since the noted boot. */
  predicate EntryIsCurrent(s: System)
    requires s.machine.boots != []
  {
    s.view.applied.Some? && s.view.boot == Some(CurrentBoot(s.machine))
  }

  /**
   * When a digest can be trusted, the cached one included. In every run with
   * reboots, lost, late and repeated orders, orders served at once, orders
   * under a lapsed lease, replaced controllers that still send, and restarts:
   * the machine holds a description with the digest, and keeps it whatever
   * still happens on the network and the machine, if and only if the last
   * work to end in this boot applied that digest, and nothing sent or under
   * way can still get through: each order is of a replaced epoch, out of
   * time, superseded or done, as far as that is still to be asked.
   */
  lemma CacheIsSoundExactlyWhen(start: System, actions: seq<Action>, digest: string)
    requires Initial(start)
    ensures KeepsDigest(Run(start, actions), digest) <==> Settled(Run(start, actions), digest)
  {
    RunKeepsInv(start, actions);
    var s := Run(start, actions);
    if Settled(s, digest) {
      forall world: seq<Action> | forall a :: a in world ==> Ambient(a)
        ensures HoldsDigest(Run(s, world), digest)
      {
        SettledRun(s, world, digest);
        RunKeepsInv(s, world);
        EndedIsHeld(Run(s, world), digest);
      }
    } else {
      var world := UnsettledCanBreak(s, digest);
    }
  }

  /** The work on the acknowledged order was the last to end. */
  predicate AckedEndedLast(s: System) {
    var ended := s.machine.ended;
    ended != [] && ended[|ended| - 1].order == s.acked
  }

  lemma AckedEndedInThisBoot(s: System) returns (i: nat)
    requires Inv(s) && EntryIsCurrent(s)
    ensures 0 <= s.acked <= s.machine.newest && s.acked in s.machine.done
    ensures s.machine.done[s.acked] == |s.machine.boots| - 1
    ensures s.machine.memory.acceptedEpoch == s.epoch == s.orders[s.acked].epoch
    ensures i < |s.machine.ended| && s.machine.ended[i] == Ending(s.acked, Recorded)
  {
    assert s.machine.done[s.acked] == |s.machine.boots| - 1;
    assert Known(s.orders, s.machine.memory.acceptedEpoch, s.acked);
    assert Ending(s.acked, Recorded) in s.machine.ended;
    i :| 0 <= i < |s.machine.ended| && s.machine.ended[i] == Ending(s.acked, Recorded);
  }

  /** Without overlap, what ended after the acknowledged order is a later one of the present controller. */
  lemma SerialEndsLater(s: System)
    requires Inv(s) && EntryIsCurrent(s) && !s.machine.raced
    ensures s.machine.ended != []
    ensures
      var last := s.machine.ended[|s.machine.ended| - 1];
      && s.acked <= last.order < |s.orders| && s.orders[last.order].epoch == s.epoch
      && (last.order == s.acked ==> last.result.Recorded?)
  {
    var i := AckedEndedInThisBoot(s);
    var ended := s.machine.ended;
    assert Known(s.orders, s.machine.memory.acceptedEpoch, ended[|ended| - 1].order);
  }

  /** Without overlap, what is held has the cached digest exactly when nothing ended after the acknowledged order. */
  lemma SerialEndsWithAcked(s: System)
    requires Inv(s) && EntryIsCurrent(s) && !s.machine.raced
    ensures EndedLastWith(s, s.view.applied.value) <==> AckedEndedLast(s)
  {
    SerialEndsLater(s);
  }

  /** The cached digest on a machine that served one order at a time since it booted. */
  lemma SerialCacheIsSoundExactlyWhen(start: System, actions: seq<Action>)
    requires Initial(start) && EntryIsCurrent(Run(start, actions)) && !Run(start, actions).machine.raced
    ensures
      var s := Run(start, actions);
      KeepsDigest(s, s.view.applied.value) <==> AckedEndedLast(s) && Spent(s)
  {
    CacheIsSoundExactlyWhen(start, actions, Run(start, actions).view.applied.value);
    RunKeepsInv(start, actions);
    SerialEndsWithAcked(Run(start, actions));
  }

  // ------------------------------------------------------------------
  // One tick
  // ------------------------------------------------------------------

  /** No description that was sent shares its digest with the one just computed. */
  predicate CollisionFree(s: System)
    requires s.progress.Returned?
  {
    forall k :: 0 <= k < |s.orders| && s.orders[k].digest == s.progress.digest ==> s.orders[k].body == s.progress.body
  }

  predicate HoldsBody(s: System, body: string) {
    && s.machine.held.Holds?
    && s.machine.held.order < |s.orders|
    && s.orders[s.machine.held.order].body == body
  }

  /** The controller itself sent nothing after the order that was acknowledged. */
  predicate NothingSentSince(s: System) { IsLatest(s.orders, s.epoch, s.acked) }

  /** Then no order that is delivered from now on gets through. */
  lemma LatestLeavesNothingToCome(s: System)
    requires Inv(s) && EntryIsCurrent(s) && NothingSentSince(s)
    ensures NothingToCome(s)
  {
    var i := AckedEndedInThisBoot(s);
  }

  /** And without overlap none that is under way. */
  lemma LatestSettles(s: System)
    requires Inv(s) && EntryIsCurrent(s) && NothingSentSince(s) && !s.machine.raced
    ensures Settled(s, s.view.applied.value)
  {
    var i := AckedEndedInThisBoot(s);
    LatestLeavesNothingToCome(s);
    SerialEndsLater(s);
    SerialEndsWithAcked(s);
    forall t | t in s.machine.tasks ensures !CanGetThrough(s, t) {
      var f := s.machine.tasks[t];
      assert TaskInv(f, s.orders, s.machine.memory.acceptedEpoch, s.machine.newest);
      assert SerialTaskInv(f, s.machine.newest, s.machine.done, s.machine.ended, s.orders);
      if Rank(f.stage) >= 1 {
        assert s.orders[s.machine.ended[i].order].epoch <= s.orders[f.order].epoch;
      }
    }
  }

  /**
   * One tick is enough, exactly under the same condition. When `sync_host`
   * ends well, the machine holds the description that was computed, for good,
   * if and only if it is settled. If the machine did not reboot since it was
   * polled and the controller sent nothing after the order it had
   * acknowledged, which a tick that sent always meets and a skip can check,
   * then nothing still to be delivered gets through, and without overlap the
   * machine is settled.
   */
  lemma OneTickIsEnoughExactlyWhen(start: System, actions: seq<Action>)
    requires Initial(start) && Run(start, actions).progress.Returned?
    ensures
      var s := Run(start, actions);
      && (KeepsDigest(s, s.progress.digest) <==> Settled(s, s.progress.digest))
      && (s.progress.sent ==> NothingSentSince(s))
      && (EntryIsCurrent(s) && NothingSentSince(s) ==>
            NothingToCome(s) && (!s.machine.raced ==> Settled(s, s.progress.digest)))
      && (Settled(s, s.progress.digest) && CollisionFree(s) ==> HoldsBody(s, s.progress.body))
  {
    RunKeepsInv(start, actions);
    var s := Run(start, actions);
    CacheIsSoundExactlyWhen(start, actions, s.progress.digest);
    EndedIsHeld(s, s.progress.digest);
    if EntryIsCurrent(s) && NothingSentSince(s) {
      LatestLeavesNothingToCome(s);
      if !s.machine.raced {
        LatestSettles(s);
      }
    }
  }

  /**
   * After a reboot the next answered poll forces a resend: once the new boot
   * is noted and nothing was recorded as applied in it, no digest at all is
   * skipped.
   */
  lemma RebootForcesResend(start: System, actions: seq<Action>, digest: string)
    requires Initial(start)
    requires
      var s := Run(start, actions);
      && s.progress.Noted? && s.view.boot == Some(CurrentBoot(s.machine))
      && (forall k :: k in s.machine.done ==> s.machine.done[k] < |s.machine.boots| - 1)
    ensures !Skips(Run(start, actions).view, digest)
  {
    RunKeepsInv(start, actions);
    if Run(start, actions).view.applied.Some? {
      var i := AckedEndedInThisBoot(Run(start, actions));
    }
  }

  /**
   * A controller that restarted skips nothing until a machine has answered it:
   * the cache starts empty and only an answer fills it. Its lease is newer.
   */
  lemma {:induction false} RestartForcesResend(s: System, actions: seq<Action>, digest: string)
    requires s.machine.boots != []
    requires forall i :: 0 <= i < |actions| ==> !actions[i].AnswerReceived?
    ensures
      var t := Run(Do(s, Restart), actions);
      !t.progress.Returned? && !Skips(t.view, digest) && t.epoch > s.epoch
    decreases |actions|
  {
    if actions != [] {
      RestartForcesResend(s, actions[..|actions| - 1], digest);
      var last := actions[|actions| - 1];
      if last.SyncHost? {
        RestartForcesResend(s, actions[..|actions| - 1], last.digest);
      }
    }
  }

  /** An order that was dropped changes nothing any more, whatever it had been through. */
  lemma DroppedChangesNothing(s: System, t: nat, result: Result)
    requires s.machine.boots != []
    ensures
      var dropped := Do(s, Drop(t));
      && dropped.machine.held == s.machine.held && t !in dropped.machine.tasks
      && Do(dropped, Advance(t)) == dropped && Do(dropped, Work(t, result)) == dropped
  {
  }

  /** An order for another object fences this one too: nothing of an older epoch gets past its first question. */
  lemma OtherOrderFencesOlderEpochs(s: System, e: Fence.Envelope, finished: bool, t: nat)
    requires s.machine.boots != [] && IsElsewhere(s, e) && t in s.machine.tasks
    requires s.machine.tasks[t].order < |s.orders| && s.machine.tasks[t].stage.Arrived?
    requires s.orders[s.machine.tasks[t].order].epoch < e.epoch
    ensures t !in Do(Do(s, OtherOrder(e, finished)), Advance(t)).machine.tasks
  {
  }

  // ------------------------------------------------------------------
  // The two ways it goes wrong, as runs
  // ------------------------------------------------------------------

  const ORDER_A: Order := Order("A", "digest-A", 1, "r1", 1, 0, 1)
  const ORDER_B: Order := Order("B", "digest-B", 2, "r2", 1, 0, 1)
  const ACCEPTED_A: map<string, Fence.Accepted> := map[OBJECT := Fence.Accepted(1, "digest-A")]
  const ACCEPTED_B: map<string, Fence.Accepted> := map[OBJECT := Fence.Accepted(2, "digest-B")]

  function FirstDay(): System {
    System(HostView(None, None), Idle, 1, [], -1, Unused())
  }

  function Unused(): Machine {
    Machine("tsukasa", ["boot-1"], 0, Fence.Memory(0, map[], map[]), map[], Empty, [], map[], -1, false)
  }

  lemma RunTwo(s: System, a: Action, b: Action)
    requires s.machine.boots != []
    ensures Run(s, [a, b]) == Do(Do(s, a), b)
  {
    assert [a, b] == [a] + [b];
    RunFirst(s, a, [b]);
    RunOne(Do(s, a), b);
  }

  /** A poll that is answered and noted, and the send it leads to. */
  function Tick(o: Order): seq<Action> {
    [PollAnswered, NoteBootId, SyncHost(o.body, o.digest, o.generation, o.requestId, o.sentAt, o.leaseExpiresAt)]
  }

  lemma TickRuns(s: System, o: Order)
    requires s.machine.boots != []
    ensures Run(s, Tick(o)) == Do(Do(Do(s, PollAnswered), NoteBootId), Tick(o)[2])
  {
    assert Tick(o) == [PollAnswered] + [NoteBootId, Tick(o)[2]];
    RunFirst(s, PollAnswered, [NoteBootId, Tick(o)[2]]);
    RunTwo(Do(s, PollAnswered), NoteBootId, Tick(o)[2]);
  }

  /** An order is delivered and goes through the fence. */
  function Admission(t: nat, k: nat): seq<Action> {
    [Arrive(t, k)] + Reading(t) + Writing(t)
  }

  function Reading(t: nat): seq<Action> { [Advance(t), Advance(t)] + [Advance(t), Advance(t)] }

  function Writing(t: nat): seq<Action> { [Advance(t), Advance(t)] }

  /** The same with one task at a stage. */
  function At(s: System, t: nat, k: nat, stage: Stage): System {
    s.(machine := s.machine.(tasks := s.machine.tasks[t := Flight(k, stage)]))
  }

  lemma AtAgain(s: System, t: nat, k: nat, stage: Stage, next: Stage)
    ensures At(At(s, t, k, stage), t, k, next) == At(s, t, k, next)
  {
    assert At(At(s, t, k, stage), t, k, next).machine.tasks == At(s, t, k, next).machine.tasks;
  }

  predicate Passes(m: Machine, o: Order) {
    && Fence.EpochPasses(m.memory, o.epoch) && Fence.Timely(m.now, EnvelopeOf(o, m.name))
    && Fence.ObjectPasses(m.memory, FenceOf(o)) && o.requestId !in m.memory.outcomes
  }

  lemma Reads(s: System, t: nat, k: nat)
    requires s.machine.boots != [] && k < |s.orders| && Passes(s.machine, s.orders[k])
    ensures Do(At(s, t, k, Arrived), Advance(t)) == At(s, t, k, EpochRead)
    ensures Do(At(s, t, k, EpochRead), Advance(t)) == At(s, t, k, ClockRead)
    ensures Do(At(s, t, k, ClockRead), Advance(t)) == At(s, t, k, ObjectRead)
    ensures Do(At(s, t, k, ObjectRead), Advance(t)) == At(s, t, k, Decided)
  {
    AtAgain(s, t, k, Arrived, EpochRead);
    AtAgain(s, t, k, EpochRead, ClockRead);
    AtAgain(s, t, k, ClockRead, ObjectRead);
    AtAgain(s, t, k, ObjectRead, Decided);
  }

  lemma ReadingRuns(s: System, t: nat, k: nat)
    requires s.machine.boots != [] && k < |s.orders| && Passes(s.machine, s.orders[k])
    ensures Run(At(s, t, k, Arrived), Reading(t)) == At(s, t, k, Decided)
  {
    Reads(s, t, k);
    RunTwo(At(s, t, k, Arrived), Advance(t), Advance(t));
    RunTwo(At(s, t, k, ClockRead), Advance(t), Advance(t));
    RunConcat(At(s, t, k, Arrived), [Advance(t), Advance(t)], [Advance(t), Advance(t)]);
  }

  function Admitted(s: System, t: nat, k: nat): System
    requires k < |s.orders|
  {
    At(s, t, k, Working)
    .(machine := At(s, t, k, Working).machine
        .(memory := Fence.Accept(s.machine.memory, EnvelopeOf(s.orders[k], s.machine.name)),
          newest := if k > s.machine.newest then k else s.machine.newest))
  }

  lemma WritingRuns(s: System, t: nat, k: nat)
    requires s.machine.boots != [] && k < |s.orders|
    ensures Run(At(s, t, k, Decided), Writing(t)) == Admitted(s, t, k)
  {
    AtAgain(s, t, k, Decided, EpochWritten);
    AtAgain(s, t, k, EpochWritten, Working);
    RunTwo(At(s, t, k, Decided), Advance(t), Advance(t));
  }

  lemma AdmissionRuns(s: System, t: nat, k: nat)
    requires s.machine.boots != [] && t !in s.machine.tasks && k < |s.orders| && Passes(s.machine, s.orders[k])
    ensures
      var begun := s.(machine := s.machine.(raced := s.machine.raced || s.machine.tasks != map[]));
      Run(s, Admission(t, k)) == Admitted(begun, t, k)
  {
    var begun := s.(machine := s.machine.(raced := s.machine.raced || s.machine.tasks != map[]));
    RunOne(s, Arrive(t, k));
    assert Do(s, Arrive(t, k)) == At(begun, t, k, Arrived);
    RunConcat(s, [Arrive(t, k)], Reading(t));
    RunConcat(s, [Arrive(t, k)] + Reading(t), Writing(t));
    ReadingRuns(begun, t, k);
    WritingRuns(begun, t, k);
  }

  /**
   * A controller that was replaced is not cut off by that alone: what it still
   * sends is let through by every machine whose fence it passes, and only the
   * machine's own accepted epoch is in the way of it.
   */
  lemma ReplacedIsLetThrough(s: System, o: Order, t: nat)
    requires s.machine.boots != [] && t !in s.machine.tasks
    requires o.epoch < s.epoch && NewOrder(s, o) && Passes(s.machine, o)
    ensures
      var k := |s.orders|;
      var u := Run(s, [ReplacedSends(o)] + Admission(t, k));
      && |u.orders| == k + 1 && u.orders[k] == o
      && t in u.machine.tasks && u.machine.tasks[t] == Flight(k, Working)
      && u.machine.memory == Fence.Accept(s.machine.memory, EnvelopeOf(o, s.machine.name))
  {
    RunConcat(s, [ReplacedSends(o)], Admission(t, |s.orders|));
    RunOne(s, ReplacedSends(o));
    AdmissionRuns(Do(s, ReplacedSends(o)), t, |s.orders|);
  }

  /** An order is delivered, let through, applied and recorded. */
  function Serve(t: nat, k: nat): seq<Action> { Admission(t, k) + [Work(t, Recorded)] }

  /** Both stories begin with the first order on its way. */
  function FirstSent(): System {
    System(HostView(None, Some("boot-1")), Waiting(0), 1, [ORDER_A], -1, Unused())
  }

  lemma FirstTick()
    ensures Run(FirstDay(), Tick(ORDER_A)) == FirstSent()
  {
    TickRuns(FirstDay(), ORDER_A);
  }

  function ServingA(): Machine {
    Unused().(tasks := map[0 := Flight(0, Working)], newest := 0, memory := Fence.Memory(1, ACCEPTED_A, map[]))
  }

  lemma AdmitA()
    ensures Run(FirstSent(), Admission(0, 0)) == FirstSent().(machine := ServingA())
  {
    AdmissionRuns(FirstSent(), 0, 0);
    assert Unused().tasks[0 := Flight(0, Working)] == map[0 := Flight(0, Working)];
  }

  function AppliedA(): Machine {
    Unused().(memory := Fence.Memory(1, ACCEPTED_A, map["r1" := "applied"]), held := Holds(0),
              ended := [Ending(0, Recorded)], done := map[0 := 0], newest := 0)
  }

  lemma WorkA()
    ensures Do(FirstSent().(machine := ServingA()), Work(0, Recorded)) == FirstSent().(machine := AppliedA())
  {
    assert ServingA().tasks - {0} == map[];
  }

  lemma ServeA()
    ensures Run(FirstSent(), Serve(0, 0)) == FirstSent().(machine := AppliedA())
  {
    AdmitA();
    RunConcat(FirstSent(), Admission(0, 0), [Work(0, Recorded)]);
    RunOne(FirstSent().(machine := ServingA()), Work(0, Recorded));
    WorkA();
  }

  function FirstAcknowledged(): System {
    System(HostView(Some("digest-A"), Some("boot-1")), Returned("A", "digest-A", true), 1, [ORDER_A], 0, AppliedA())
  }

  lemma FirstApplied()
    ensures Run(FirstSent(), Serve(0, 0) + [AnswerReceived]) == FirstAcknowledged()
  {
    RunConcat(FirstSent(), Serve(0, 0), [AnswerReceived]);
    ServeA();
    RunOne(FirstSent().(machine := AppliedA()), AnswerReceived);
  }

  function SecondSent(): System {
    FirstAcknowledged().(progress := Waiting(1), orders := [ORDER_A, ORDER_B])
  }

  lemma SecondTick()
    ensures Run(FirstAcknowledged(), Tick(ORDER_B)) == SecondSent()
  {
    TickRuns(FirstAcknowledged(), ORDER_B);
  }

  function ServingB(): Machine {
    AppliedA().(tasks := map[0 := Flight(1, Working)], newest := 1,
                memory := Fence.Memory(1, ACCEPTED_B, map["r1" := "applied"]))
  }

  lemma AdmitB()
    ensures Run(SecondSent(), Admission(0, 1)) == SecondSent().(machine := ServingB())
  {
    AdmissionRuns(SecondSent(), 0, 1);
    assert ACCEPTED_A[OBJECT := Fence.Accepted(2, "digest-B")] == ACCEPTED_B;
    assert AppliedA().tasks[0 := Flight(1, Working)] == map[0 := Flight(1, Working)];
  }

  function AppliedB(): Machine {
    AppliedA().(memory := Fence.Memory(1, ACCEPTED_B, map["r1" := "applied", "r2" := "applied"]), held := Holds(1),
                ended := [Ending(0, Recorded), Ending(1, Recorded)], done := map[0 := 0, 1 := 0], newest := 1)
  }

  lemma WorkB()
    ensures Do(SecondSent().(machine := ServingB()), Work(0, Recorded)) == SecondSent().(machine := AppliedB())
  {
    assert ServingB().tasks - {0} == map[];
    assert [Ending(0, Recorded)] + [Ending(1, Recorded)] == [Ending(0, Recorded), Ending(1, Recorded)];
  }

  lemma ServeB()
    ensures Run(SecondSent(), Serve(0, 1)) == SecondSent().(machine := AppliedB())
  {
    AdmitB();
    RunConcat(SecondSent(), Admission(0, 1), [Work(0, Recorded)]);
    RunOne(SecondSent().(machine := ServingB()), Work(0, Recorded));
    WorkB();
  }

  lemma SecondAppliedUnheard()
    ensures Run(SecondSent(), Serve(0, 1) + [GiveUp]) == SecondSent().(progress := Idle, machine := AppliedB())
  {
    RunConcat(SecondSent(), Serve(0, 1), [GiveUp]);
    ServeB();
    RunOne(SecondSent().(machine := AppliedB()), GiveUp);
  }

  const REVERT: Order := Order("A", "digest-A", 3, "r3", 1, 0, 1)

  lemma RevertIsSkipped()
    ensures Run(SecondSent().(progress := Idle, machine := AppliedB()), Tick(REVERT))
            == SecondSent().(progress := Returned("A", "digest-A", false), machine := AppliedB())
  {
    TickRuns(SecondSent().(progress := Idle, machine := AppliedB()), REVERT);
  }

  /**
   * A skip that is wrong. The first description is applied and acknowledged.
   * The database changes, the second one is applied and its answer is lost.
   * The database changes back: the third tick skips and reports success while
   * the machine holds the second description.
   */
  lemma LostAnswerThenRevertSkipsWrongly() returns (actions: seq<Action>)
    ensures
      var s := Run(FirstDay(), actions);
      && Initial(FirstDay()) && !s.machine.raced && EntryIsCurrent(s)
      && s.progress == Returned("A", "digest-A", false)
      && HoldsBody(s, "B")
  {
    var t1, t2, t3 := Tick(ORDER_A), Tick(ORDER_B), Tick(REVERT);
    var apply, lose := Serve(0, 0) + [AnswerReceived], Serve(0, 1) + [GiveUp];
    actions := t1 + apply + t2 + lose + t3;
    RunConcat(FirstDay(), t1, apply);
    RunConcat(FirstDay(), t1 + apply, t2);
    RunConcat(FirstDay(), t1 + apply + t2, lose);
    RunConcat(FirstDay(), t1 + apply + t2 + lose, t3);
    FirstTick();
    FirstApplied();
    SecondTick();
    SecondAppliedUnheard();
    RevertIsSkipped();
  }

  /** The first order was written down and is slow; the controller gave up on it. */
  function SlowFirst(): System { FirstSent().(progress := Idle, machine := ServingA()) }

  lemma FirstIsSlow()
    ensures Run(FirstSent(), Admission(0, 0) + [GiveUp]) == SlowFirst()
  {
    RunConcat(FirstSent(), Admission(0, 0), [GiveUp]);
    AdmitA();
    RunOne(FirstSent().(machine := ServingA()), GiveUp);
  }

  function SecondSentEarly(): System {
    SlowFirst().(view := HostView(None, Some("boot-1")), progress := Waiting(1), orders := [ORDER_A, ORDER_B])
  }

  lemma SecondTickEarly()
    ensures Run(SlowFirst(), Tick(ORDER_B)) == SecondSentEarly()
  {
    TickRuns(SlowFirst(), ORDER_B);
  }

  function ServingBoth(): Machine {
    Unused().(tasks := map[0 := Flight(0, Working), 1 := Flight(1, Working)], newest := 1, raced := true,
              memory := Fence.Memory(1, ACCEPTED_B, map[]))
  }

  lemma AdmitOverlapped()
    ensures Run(SecondSentEarly(), Admission(1, 1)) == SecondSentEarly().(machine := ServingBoth())
  {
    AdmissionRuns(SecondSentEarly(), 1, 1);
    assert ACCEPTED_A[OBJECT := Fence.Accepted(2, "digest-B")] == ACCEPTED_B;
    assert ServingA().tasks[1 := Flight(1, Working)] == ServingBoth().tasks;
    assert 0 in ServingA().tasks;
  }

  function Overlapped(): Machine {
    Unused().(tasks := map[0 := Flight(0, Working)], newest := 1,
              memory := Fence.Memory(1, ACCEPTED_B, map["r2" := "applied"]),
              held := Holds(1), ended := [Ending(1, Recorded)], done := map[1 := 0], raced := true)
  }

  lemma WorkOverlapped()
    ensures Do(SecondSentEarly().(machine := ServingBoth()), Work(1, Recorded))
            == SecondSentEarly().(machine := Overlapped())
  {
    assert ServingBoth().tasks - {1} == Overlapped().tasks;
  }

  lemma ServeOverlapped()
    ensures Run(SecondSentEarly(), Serve(1, 1)) == SecondSentEarly().(machine := Overlapped())
  {
    AdmitOverlapped();
    RunConcat(SecondSentEarly(), Admission(1, 1), [Work(1, Recorded)]);
    RunOne(SecondSentEarly().(machine := ServingBoth()), Work(1, Recorded));
    WorkOverlapped();
  }

  function SecondAcknowledged(): System {
    SecondSentEarly().(view := HostView(Some("digest-B"), Some("boot-1")), progress := Returned("B", "digest-B", true),
                       acked := 1, machine := Overlapped())
  }

  lemma SecondApplied()
    ensures Run(SecondSentEarly(), Serve(1, 1) + [AnswerReceived]) == SecondAcknowledged()
  {
    RunConcat(SecondSentEarly(), Serve(1, 1), [AnswerReceived]);
    ServeOverlapped();
    RunOne(SecondSentEarly().(machine := Overlapped()), AnswerReceived);
  }

  lemma FirstEndsLate()
    ensures
      var s := Run(SecondAcknowledged(), [Work(0, Recorded)]);
      && s.machine.raced && EntryIsCurrent(s) && NothingSentSince(s)
      && s.view.applied == Some("digest-B") && HoldsBody(s, "A")
  {
    RunOne(SecondAcknowledged(), Work(0, Recorded));
  }

  /**
   * What overlap does. The first order is let through and slow, so the
   * controller gives up on it. The second is applied and acknowledged. Then
   * the first one ends: nothing was sent since, the cache names the second
   * description, the machine holds the first.
   */
  lemma OverlappedServiceBreaksTheCache() returns (actions: seq<Action>)
    ensures
      var s := Run(FirstDay(), actions);
      && Initial(FirstDay()) && s.machine.raced && EntryIsCurrent(s) && NothingSentSince(s)
      && s.view.applied == Some("digest-B") && HoldsBody(s, "A")
  {
    var t1, t2 := Tick(ORDER_A), Tick(ORDER_B);
    var slow, apply, late := Admission(0, 0) + [GiveUp], Serve(1, 1) + [AnswerReceived], [Work(0, Recorded)];
    actions := t1 + slow + t2 + apply + late;
    RunConcat(FirstDay(), t1, slow);
    RunConcat(FirstDay(), t1 + slow, t2);
    RunConcat(FirstDay(), t1 + slow + t2, apply);
    RunConcat(FirstDay(), t1 + slow + t2 + apply, late);
    FirstTick();
    FirstIsSlow();
    SecondTickEarly();
    SecondApplied();
    FirstEndsLate();
  }
}
