/**
 * The runner's fence: three durable facts (epoch, generations, outcomes) and
 * the questions put to them before a change is let through
 * (crates/runner/src/fence.rs, crates/runner/src/store.rs).
 *
 * `Check` is the decision, `Accept` is the durable write that follows an
 * allowed change, `Admit` the two together. The source makes each read and
 * each write on its own, without a transaction around them: it reads the
 * epoch, the object and the outcome, then writes the epoch and the object.
 * The later parts of the module are about what happens when other orders come
 * in between.
 */
module Fence {
  import opened Options

  const PROTOCOL_VERSION: int := 1
  const NS_PER_SEC: int := 1_000_000_000
  const MAX_SKEW_SECONDS: int := 60

  datatype ObjectFence = ObjectFence(objectId: string, generation: int, digest: string)

  /** One request. Times are nanoseconds; `mutates` is `Operation::mutates`. */
  datatype Envelope = Envelope(
    protocolVersion: int,
    target: Option<string>,
    epoch: int,
    leaseExpiresAt: int,
    sentAt: int,
    requestId: string,
    fenced: Option<ObjectFence>,
    mutates: bool)

  datatype Refusal =
    | ProtocolVersion
    | WrongMachine
    | UnaddressedChange
    | StaleEpoch
    | ClockUntrusted
    | LeaseExpired
    | UnfencedChange
    | StaleGeneration
    | GenerationConflict

  datatype Admission = Allowed | AlreadyDone(outcome: string) | Refused(refusal: Refusal)

  /** One row of the runner's table of objects. */
  datatype Accepted = Accepted(generation: int, digest: string)

  datatype Memory = Memory(
    acceptedEpoch: int,
    objects: map<string, Accepted>,
    outcomes: map<string, string>)

  /** Whole seconds of a span, rounded toward zero. */
  function WholeSeconds(span: int): int {
    if span < 0 then -((-span) / NS_PER_SEC) else span / NS_PER_SEC
  }

  function Abs(n: int): int { if n < 0 then -n else n }

  /** Whether the two clocks agree well enough and the lease is live. */
  predicate Timely(now: int, e: Envelope) {
    Abs(WholeSeconds(now - e.sentAt)) <= MAX_SKEW_SECONDS && e.leaseExpiresAt > now
  }

  /** The decision on one envelope, in the order the source asks its questions. */
  function Check(m: Memory, machine: string, now: int, e: Envelope): Admission {
    if e.protocolVersion != PROTOCOL_VERSION then Refused(ProtocolVersion)
    else if e.target.Some? && e.target.value != machine then Refused(WrongMachine)
    else if e.target.None? && e.mutates then Refused(UnaddressedChange)
    else if e.epoch < m.acceptedEpoch then Refused(StaleEpoch)
    else if Abs(WholeSeconds(now - e.sentAt)) > MAX_SKEW_SECONDS then Refused(ClockUntrusted)
    else if e.leaseExpiresAt <= now then Refused(LeaseExpired)
    else if !e.mutates then Allowed
    else if e.fenced.None? then Refused(UnfencedChange)
    else
      var o := e.fenced.value;
      if o.objectId in m.objects && o.generation < m.objects[o.objectId].generation then
        Refused(StaleGeneration)
      else if o.objectId in m.objects && o.generation == m.objects[o.objectId].generation
              && o.digest != m.objects[o.objectId].digest then
        Refused(GenerationConflict)
      else if e.requestId in m.outcomes then AlreadyDone(m.outcomes[e.requestId])
      else Allowed
  }

  /** In plain numbers: under 61 seconds between the clocks, either way, and the lease not over. */
  lemma TimelyExactlyWhen(now: int, e: Envelope)
    ensures Timely(now, e) <==> -61_000_000_000 < now - e.sentAt < 61_000_000_000 && now < e.leaseExpiresAt
  {
  }

  /** The envelope is of this protocol and for this machine, or a read that names none. */
  predicate ReachesHere(machine: string, e: Envelope) {
    && e.protocolVersion == 1
    && (e.target == Some(machine) || (e.target.None? && !e.mutates))
  }

  /**
   * What an answer says about the envelope. A clock is mistrusted exactly when
   * the times are 61 seconds or more apart, a lease is over exactly when the
   * clocks agree and it is, a read is allowed exactly when it gets past both,
   * and a change is answered from memory with what was recorded for it.
   */
  lemma AnswersExactlyWhen(m: Memory, machine: string, now: int, e: Envelope)
    ensures
      var answer := Check(m, machine, now, e);
      var heard := ReachesHere(machine, e) && m.acceptedEpoch <= e.epoch;
      var agrees := -61_000_000_000 < now - e.sentAt < 61_000_000_000;
      var timely := heard && agrees && now < e.leaseExpiresAt;
      && (answer == Refused(ProtocolVersion) <==> e.protocolVersion != 1)
      && (answer == Refused(WrongMachine) <==>
            e.protocolVersion == 1 && e.target.Some? && e.target.value != machine)
      && (answer == Refused(UnaddressedChange) <==>
            e.protocolVersion == 1 && e.target.None? && e.mutates)
      && (answer == Refused(StaleEpoch) <==> ReachesHere(machine, e) && e.epoch < m.acceptedEpoch)
      && (answer == Refused(ClockUntrusted) <==> heard && !agrees)
      && (answer == Refused(LeaseExpired) <==> heard && agrees && e.leaseExpiresAt <= now)
      && (!e.mutates ==> (answer == Allowed <==> timely))
      && (answer == Refused(UnfencedChange) <==> timely && e.mutates && e.fenced.None?)
      && (answer == Refused(StaleGeneration) <==>
            && timely && e.mutates && e.fenced.Some? && e.fenced.value.objectId in m.objects
            && e.fenced.value.generation < m.objects[e.fenced.value.objectId].generation)
      && (answer == Refused(GenerationConflict) <==>
            && timely && e.mutates && e.fenced.Some? && e.fenced.value.objectId in m.objects
            && e.fenced.value.generation == m.objects[e.fenced.value.objectId].generation
            && e.fenced.value.digest != m.objects[e.fenced.value.objectId].digest)
      && (answer.AlreadyDone? <==>
            && timely && e.mutates && e.fenced.Some?
            && ObjectPasses(m, e.fenced.value) && e.requestId in m.outcomes)
      && (answer.AlreadyDone? ==> answer.outcome == m.outcomes[e.requestId])
  {
    TimelyExactlyWhen(now, e);
  }

  /** What a change must be to come into question on this machine at all. */
  predicate Addressed(machine: string, e: Envelope) {
    e.protocolVersion == PROTOCOL_VERSION && e.target == Some(machine) && e.fenced.Some?
  }

  predicate EpochPasses(m: Memory, epoch: int) { epoch >= m.acceptedEpoch }

  predicate ObjectPasses(m: Memory, o: ObjectFence) {
    o.objectId in m.objects ==>
      || m.objects[o.objectId].generation < o.generation
      || m.objects[o.objectId] == Accepted(o.generation, o.digest)
  }

  /** A change is let through exactly when each of the questions asked one after the other is answered well. */
  lemma CheckInSteps(m: Memory, machine: string, now: int, e: Envelope)
    requires e.mutates
    ensures Check(m, machine, now, e).Allowed? <==>
              && Addressed(machine, e) && EpochPasses(m, e.epoch) && Timely(now, e)
              && ObjectPasses(m, e.fenced.value) && e.requestId !in m.outcomes
  {
  }

  function AcceptEpoch(m: Memory, epoch: int): Memory {
    m.(acceptedEpoch := if epoch > m.acceptedEpoch then epoch else m.acceptedEpoch)
  }

  function AcceptObject(m: Memory, o: ObjectFence): Memory {
    m.(objects := if o.objectId in m.objects && o.generation <= m.objects[o.objectId].generation
                  then m.objects
                  else m.objects[o.objectId := Accepted(o.generation, o.digest)])
  }

  /** The two durable writes after an allowed change. Neither part ever goes down. */
  function Accept(m: Memory, e: Envelope): (r: Memory)
    requires e.fenced.Some?
    ensures m.acceptedEpoch <= r.acceptedEpoch
    ensures forall id :: id in m.objects ==>
              id in r.objects && m.objects[id].generation <= r.objects[id].generation
    ensures e.fenced.value.objectId in r.objects
            && e.fenced.value.generation <= r.objects[e.fenced.value.objectId].generation
  {
    AcceptObject(AcceptEpoch(m, e.epoch), e.fenced.value)
  }

  /** Decision and write together, as for a runner serving one order at a time. */
  function Admit(m: Memory, machine: string, now: int, e: Envelope): (r: Memory) {
    if Check(m, machine, now, e).Allowed? && e.mutates then
      Accept(m, e)
    else
      m
  }

  function Finish(m: Memory, requestId: string, outcome: string): Memory {
    m.(outcomes := m.outcomes[requestId := outcome])
  }

  /** The runner's own small database and the checks in front of it. */
  class RunnerFence {
    const machine: string
    var acceptedEpoch: int
    var objects: map<string, Accepted>
    var outcomes: map<string, string>

    function View(): Memory
      reads this
    {
      Memory(acceptedEpoch, objects, outcomes)
    }

    constructor (machine: string)
      ensures this.machine == machine
      ensures View() == Memory(0, map[], map[])
    {
      this.machine := machine;
      acceptedEpoch, objects, outcomes := 0, map[], map[];
    }

    method AdmitRequest(e: Envelope, now: int) returns (a: Admission)
      modifies this
      ensures a == Check(old(View()), machine, now, e)
      ensures View() == Admit(old(View()), machine, now, e)
    {
      if e.protocolVersion != PROTOCOL_VERSION {
        return Refused(ProtocolVersion);
      }
      match e.target {
        case Some(target) =>
          if target != machine {
            return Refused(WrongMachine);
          }
        case None =>
          if e.mutates {
            return Refused(UnaddressedChange);
          }
      }
      if e.epoch < acceptedEpoch {
        return Refused(StaleEpoch);
      }
      var skew := WholeSeconds(now - e.sentAt);
      if Abs(skew) > MAX_SKEW_SECONDS {
        return Refused(ClockUntrusted);
      }
      if e.leaseExpiresAt <= now {
        return Refused(LeaseExpired);
      }
      if !e.mutates {
        return Allowed;
      }
      if e.fenced.None? {
        return Refused(UnfencedChange);
      }
      var o := e.fenced.value;
      if o.objectId in objects {
        var accepted := objects[o.objectId];
        if o.generation < accepted.generation {
          return Refused(StaleGeneration);
        }
        if o.generation == accepted.generation && o.digest != accepted.digest {
          return Refused(GenerationConflict);
        }
      }
      if e.requestId in outcomes {
        return AlreadyDone(outcomes[e.requestId]);
      }
      acceptedEpoch := if e.epoch > acceptedEpoch then e.epoch else acceptedEpoch;
      if !(o.objectId in objects && o.generation <= objects[o.objectId].generation) {
        objects := objects[o.objectId := Accepted(o.generation, o.digest)];
      }
      return Allowed;
    }

    method FinishRequest(requestId: string, outcome: string)
      modifies this
      ensures View() == Finish(old(View()), requestId, outcome)
    {
      outcomes := outcomes[requestId := outcome];
    }
  }

  // ------------------------------------------------------------------
  // Every run of a runner that serves any number of orders at once
  // ------------------------------------------------------------------

  /** What a runner does with its memory, each on its own. */
  datatype Event =
    | ReadsEpoch(epoch: int)
    | ReadsObject(fenced: ObjectFence)
    | WritesEpoch(epoch: int)
    | WritesObject(fenced: ObjectFence)
    | Records(requestId: string, outcome: string)

  function Step(m: Memory, ev: Event): Memory {
    match ev
    case ReadsEpoch(_) => m
    case ReadsObject(_) => m
    case WritesEpoch(epoch) => AcceptEpoch(m, epoch)
    case WritesObject(o) => AcceptObject(m, o)
    case Records(id, text) => Finish(m, id, text)
  }

  function Run(m: Memory, events: seq<Event>): Memory
    decreases |events|
  {
    if events == [] then m else Step(Run(m, events[..|events| - 1]), events[|events| - 1])
  }

  lemma {:induction false} RunMonotone(m: Memory, events: seq<Event>, i: nat, j: nat, id: string)
    requires i <= j <= |events|
    ensures Run(m, events[..i]).acceptedEpoch <= Run(m, events[..j]).acceptedEpoch
    ensures id in Run(m, events[..i]).objects ==>
              && id in Run(m, events[..j]).objects
              && Run(m, events[..i]).objects[id].generation <= Run(m, events[..j]).objects[id].generation
    decreases j
  {
    if i < j {
      RunMonotone(m, events, i, j - 1, id);
      assert events[..j][..j - 1] == events[..j - 1];
    }
  }

  /** Once a generation is the highest, its digest is the one it was accepted with. */
  lemma {:induction false} DigestFixed(m: Memory, events: seq<Event>, i: nat, j: nat, id: string)
    requires i <= j <= |events|
    requires id in Run(m, events[..i]).objects
    ensures id in Run(m, events[..j]).objects
    ensures Run(m, events[..j]).objects[id].generation == Run(m, events[..i]).objects[id].generation
            ==> Run(m, events[..j]).objects[id] == Run(m, events[..i]).objects[id]
    decreases j
  {
    RunMonotone(m, events, i, j, id);
    if i < j {
      RunMonotone(m, events, i, j - 1, id);
      RunMonotone(m, events, j - 1, j, id);
      DigestFixed(m, events, i, j - 1, id);
      assert events[..j][..j - 1] == events[..j - 1];
    }
  }

  /**
   * A runner cannot be talked backwards. In every run, with the reads and
   * writes of any number of orders in any order, an epoch that passes after
   * another was written is not lower.
   */
  lemma EpochNeverGoesBack(m: Memory, events: seq<Event>, i: nat, j: nat)
    requires i < j < |events| && events[i].WritesEpoch? && events[j].ReadsEpoch?
    requires EpochPasses(Run(m, events[..j]), events[j].epoch)
    ensures events[i].epoch <= events[j].epoch
  {
    assert events[..i + 1][..i] == events[..i];
    RunMonotone(m, events, i + 1, j, "");
  }

  /**
   * And a generation that passes after another of the same object was written
   * is not lower, and wants the same thing when it is the same and the
   * earlier write took.
   */
  lemma GenerationNeverGoesBack(m: Memory, events: seq<Event>, i: nat, j: nat)
    requires i < j < |events| && events[i].WritesObject? && events[j].ReadsObject?
    requires ObjectPasses(Run(m, events[..j]), events[j].fenced)
    ensures
      var a, b := events[i].fenced, events[j].fenced;
      a.objectId == b.objectId ==>
        && a.generation <= b.generation
        && (a.generation == b.generation && ObjectPasses(Run(m, events[..i]), a) ==> a.digest == b.digest)
  {
    var a := events[i].fenced;
    assert events[..i + 1][..i] == events[..i];
    assert Run(m, events[..i + 1]) == AcceptObject(Run(m, events[..i]), a);
    RunMonotone(m, events, i + 1, j, a.objectId);
    DigestFixed(m, events, i + 1, j, a.objectId);
  }

  /** A write takes when nothing was written for the object since the order passed. */
  lemma {:induction false} UndisturbedWriteTakes(m: Memory, events: seq<Event>, d: nat, w: nat)
    requires d < w < |events| && events[d].ReadsObject? && ObjectPasses(Run(m, events[..d]), events[d].fenced)
    requires forall k :: d < k < w && events[k].WritesObject? ==> events[k].fenced.objectId != events[d].fenced.objectId
    ensures ObjectPasses(Run(m, events[..w]), events[d].fenced)
    decreases w
  {
    assert events[..w][..w - 1] == events[..w - 1];
    if d + 1 < w {
      UndisturbedWriteTakes(m, events, d, w - 1);
    }
  }

  /**
   * A retry of a finished change is never run a second time: at any later
   * point of any run it is answered from memory or refused.
   */
  lemma FinishedIsNotRepeated(m: Memory, machine: string, events: seq<Event>, i: nat, j: nat, now: int, e: Envelope)
    requires i < j <= |events|
    requires e.mutates && events[i].Records? && events[i].requestId == e.requestId
    ensures !Check(Run(m, events[..j]), machine, now, e).Allowed?
  {
    OutcomeStays(m, events, i, j);
  }

  lemma {:induction false} OutcomeStays(m: Memory, events: seq<Event>, i: nat, j: nat)
    requires i < j <= |events| && events[i].Records?
    ensures events[i].requestId in Run(m, events[..j]).outcomes
    ensures (forall k :: i < k < j && events[k].Records? ==> events[k].requestId != events[i].requestId) ==>
              Run(m, events[..j]).outcomes[events[i].requestId] == events[i].outcome
    decreases j
  {
    assert events[..j][..j - 1] == events[..j - 1];
    if i < j - 1 {
      OutcomeStays(m, events, i, j - 1);
    }
  }

  /** The retry is answered with what the change itself was recorded with, if it gets as far as that question. */
  lemma RetryIsAnsweredAlike(m: Memory, machine: string, events: seq<Event>, i: nat, j: nat, now: int, e: Envelope)
    requires i < j <= |events| && events[i].Records? && events[i].requestId == e.requestId && e.mutates
    requires forall k :: i < k < j && events[k].Records? ==> events[k].requestId != e.requestId
    requires Addressed(machine, e) && Timely(now, e)
    requires EpochPasses(Run(m, events[..j]), e.epoch) && ObjectPasses(Run(m, events[..j]), e.fenced.value)
    ensures Check(Run(m, events[..j]), machine, now, e) == AlreadyDone(events[i].outcome)
  {
    OutcomeStays(m, events, i, j);
  }

  // ------------------------------------------------------------------
  // Two orders for one object served at the same time
  // ------------------------------------------------------------------

  /**
   * What the source does for one order, apart from the reading of clock and
   * outcome. Other orders may run between any two of these.
   */
  datatype Phase = ReadEpoch | ReadObject | WriteEpoch | WriteObject | Work

  /** One phase of the older (`newer == false`) or the newer order. */
  datatype Move = Move(newer: bool, phase: Phase)

  /** `leftover` is the newest work that reached the host: none, older or newer. */
  datatype Leftover = Nothing | Older | Newer

  /** How far an order was let through. */
  datatype Side = Side(epochOk: bool, objectOk: bool)

  datatype Race = Race(memory: Memory, older: Side, newer: Side, leftover: Leftover)

  const OUTSIDE: Side := Side(false, false)

  function Start(m: Memory): Race { Race(m, OUTSIDE, OUTSIDE, Nothing) }

  /** Both orders are named by their epoch and fence. */
  datatype Contender = Contender(epoch: int, fenced: ObjectFence)

  function SideStep(m: Memory, side: Side, c: Contender, phase: Phase): Side {
    match phase
    case ReadEpoch => side.(epochOk := EpochPasses(m, c.epoch))
    case ReadObject => side.(objectOk := side.epochOk && ObjectPasses(m, c.fenced))
    case _ => side
  }

  function MemoryStep(m: Memory, side: Side, c: Contender, phase: Phase): Memory {
    match phase
    case WriteEpoch => if side.objectOk then AcceptEpoch(m, c.epoch) else m
    case WriteObject => if side.objectOk then AcceptObject(m, c.fenced) else m
    case _ => m
  }

  function RaceStep(r: Race, older: Contender, newer: Contender, mv: Move): Race {
    var side := if mv.newer then r.newer else r.older;
    var c := if mv.newer then newer else older;
    var memory := MemoryStep(r.memory, side, c, mv.phase);
    var after := SideStep(r.memory, side, c, mv.phase);
    Race(memory, if mv.newer then r.older else after, if mv.newer then after else r.newer,
         if mv.phase.Work? && side.objectOk then (if mv.newer then Newer else Older) else r.leftover)
  }

  function RaceRun(r: Race, older: Contender, newer: Contender, schedule: seq<Move>): Race
    decreases |schedule|
  {
    if schedule == [] then r
    else RaceStep(RaceRun(r, older, newer, schedule[..|schedule| - 1]), older, newer, schedule[|schedule| - 1])
  }

  /** Where the five moves of one side stand in a schedule. */
  datatype Lane = Lane(readEpoch: nat, readObject: nat, writeEpoch: nat, writeObject: nat, work: nat)

  function PlaceIn(l: Lane, phase: Phase): nat {
    match phase
    case ReadEpoch => l.readEpoch
    case ReadObject => l.readObject
    case WriteEpoch => l.writeEpoch
    case WriteObject => l.writeObject
    case Work => l.work
  }

  predicate InOrder(l: Lane) {
    l.readEpoch < l.readObject < l.writeEpoch < l.writeObject < l.work
  }

  function PlaceOf(o: Lane, n: Lane, mv: Move): nat { PlaceIn(if mv.newer then n else o, mv.phase) }

  /** A schedule of the ten moves that keeps the order of each side. */
  ghost predicate Interleaves(schedule: seq<Move>, o: Lane, n: Lane) {
    && |schedule| == 10 && InOrder(o) && InOrder(n) && o.work < 10 && n.work < 10
    && (forall k :: 0 <= k < 10 ==> PlaceOf(o, n, schedule[k]) == k)
    && (forall mv: Move :: schedule[PlaceOf(o, n, mv)] == mv)
  }

  /** No two moves share a place. */
  predicate Apart(o: Lane, n: Lane) {
    forall p: Phase, q: Phase :: PlaceIn(o, p) != PlaceIn(n, q)
  }

  /**
   * Both orders are for one object, would pass now, and differ in generation.
   * Either may be from the newer controller: a frontend that read an old
   * lease can number its order after the new controller did.
   */
  predicate Contend(m: Memory, older: Contender, newer: Contender) {
    && EpochPasses(m, older.epoch) && EpochPasses(m, newer.epoch)
    && ObjectPasses(m, older.fenced) && ObjectPasses(m, newer.fenced)
    && older.fenced.objectId == newer.fenced.objectId
    && older.fenced.generation < newer.fenced.generation
  }

  /** The older order passes its epoch: no higher one was written before. */
  predicate OlderEpochOk(older: Contender, newer: Contender, o: Lane, n: Lane) {
    !(older.epoch < newer.epoch && n.writeEpoch < o.readEpoch)
  }

  /** The older order is let through. */
  predicate OlderIn(older: Contender, newer: Contender, o: Lane, n: Lane) {
    OlderEpochOk(older, newer, o, n) && !(n.writeObject < o.readObject)
  }

  /** The newer order is let through: only a higher epoch can bar it. */
  predicate NewerIn(older: Contender, newer: Contender, o: Lane, n: Lane) {
    older.epoch <= newer.epoch || n.readEpoch < o.writeEpoch
  }

  /** The memory after some of the four writes. */
  function MemoryWith(m: Memory, older: Contender, newer: Contender, oe: bool, oo: bool, ne: bool, no: bool): Memory {
    var m1 := if oe then AcceptEpoch(m, older.epoch) else m;
    var m2 := if ne then AcceptEpoch(m1, newer.epoch) else m1;
    var m3 := if oo then AcceptObject(m2, older.fenced) else m2;
    if no then AcceptObject(m3, newer.fenced) else m3
  }

  /** What the reads find in such a memory. */
  lemma PassingWith(m: Memory, older: Contender, newer: Contender, oe: bool, oo: bool, ne: bool, no: bool)
    requires Contend(m, older, newer)
    ensures
      var w := MemoryWith(m, older, newer, oe, oo, ne, no);
      && (EpochPasses(w, older.epoch) <==> !(ne && older.epoch < newer.epoch))
      && (EpochPasses(w, newer.epoch) <==> !(oe && newer.epoch < older.epoch))
      && (ObjectPasses(w, older.fenced) <==> !no)
      && ObjectPasses(w, newer.fenced)
  {
  }

  /** The writes lead from one such memory to the next, whichever comes first. */
  lemma WritingWith(m: Memory, older: Contender, newer: Contender, oe: bool, oo: bool, ne: bool, no: bool)
    requires Contend(m, older, newer)
    ensures
      var w := MemoryWith(m, older, newer, oe, oo, ne, no);
      && AcceptEpoch(w, older.epoch) == MemoryWith(m, older, newer, true, oo, ne, no)
      && AcceptEpoch(w, newer.epoch) == MemoryWith(m, older, newer, oe, oo, true, no)
      && AcceptObject(w, older.fenced) == MemoryWith(m, older, newer, oe, true, ne, no)
      && AcceptObject(w, newer.fenced) == MemoryWith(m, older, newer, oe, oo, ne, true)
  {
    var id, row := older.fenced.objectId, Accepted(newer.fenced.generation, newer.fenced.digest);
    assert MemoryWith(m, older, newer, oe, true, ne, true).objects == m.objects[id := row];
    assert MemoryWith(m, older, newer, oe, false, ne, true).objects == m.objects[id := row];
  }

  function LeftoverAt(oIn: bool, nIn: bool, o: Lane, n: Lane, k: nat): Leftover {
    if nIn && n.work < k && !(oIn && n.work < o.work < k) then Newer
    else if oIn && o.work < k then Older
    else Nothing
  }

  /** The state after the first `k` moves, read off the places. */
  function RaceAt(m: Memory, older: Contender, newer: Contender, o: Lane, n: Lane, k: nat): Race {
    var oIn, nIn := OlderIn(older, newer, o, n), NewerIn(older, newer, o, n);
    Race(MemoryWith(m, older, newer, oIn && o.writeEpoch < k, oIn && o.writeObject < k,
                    nIn && n.writeEpoch < k, nIn && n.writeObject < k),
         Side(OlderEpochOk(older, newer, o, n) && o.readEpoch < k, oIn && o.readObject < k),
         Side(nIn && n.readEpoch < k, nIn && n.readObject < k),
         LeftoverAt(oIn, nIn, o, n, k))
  }

  /** Whoever is kept out was kept out by one that is in. */
  lemma OneIsIn(older: Contender, newer: Contender, o: Lane, n: Lane)
    requires InOrder(o) && InOrder(n)
    ensures NewerIn(older, newer, o, n) || OlderIn(older, newer, o, n)
    ensures older.epoch < newer.epoch || n.writeObject < o.readObject ==> NewerIn(older, newer, o, n)
  {
  }

  lemma OlderMove(m: Memory, older: Contender, newer: Contender, o: Lane, n: Lane, phase: Phase)
    requires Contend(m, older, newer) && InOrder(o) && InOrder(n) && Apart(o, n)
    ensures
      var k := PlaceIn(o, phase);
      RaceStep(RaceAt(m, older, newer, o, n, k), older, newer, Move(false, phase)) == RaceAt(m, older, newer, o, n, k + 1)
  {
    var k := PlaceIn(o, phase);
    var oIn, nIn := OlderIn(older, newer, o, n), NewerIn(older, newer, o, n);
    assert forall q: Phase :: PlaceIn(n, q) < k <==> PlaceIn(n, q) < k + 1;
    assert n.readEpoch == PlaceIn(n, ReadEpoch) && n.readObject == PlaceIn(n, ReadObject);
    assert n.writeEpoch == PlaceIn(n, WriteEpoch) && n.writeObject == PlaceIn(n, WriteObject) && n.work == PlaceIn(n, Work);
    OneIsIn(older, newer, o, n);
    PassingWith(m, older, newer, oIn && o.writeEpoch < k, oIn && o.writeObject < k,
                nIn && n.writeEpoch < k, nIn && n.writeObject < k);
    WritingWith(m, older, newer, oIn && o.writeEpoch < k, oIn && o.writeObject < k,
                nIn && n.writeEpoch < k, nIn && n.writeObject < k);
  }

  lemma NewerMove(m: Memory, older: Contender, newer: Contender, o: Lane, n: Lane, phase: Phase)
    requires Contend(m, older, newer) && InOrder(o) && InOrder(n) && Apart(o, n)
    ensures
      var k := PlaceIn(n, phase);
      RaceStep(RaceAt(m, older, newer, o, n, k), older, newer, Move(true, phase)) == RaceAt(m, older, newer, o, n, k + 1)
  {
    var k := PlaceIn(n, phase);
    var oIn, nIn := OlderIn(older, newer, o, n), NewerIn(older, newer, o, n);
    assert forall q: Phase :: PlaceIn(o, q) < k <==> PlaceIn(o, q) < k + 1;
    assert o.readEpoch == PlaceIn(o, ReadEpoch) && o.readObject == PlaceIn(o, ReadObject);
    assert o.writeEpoch == PlaceIn(o, WriteEpoch) && o.writeObject == PlaceIn(o, WriteObject) && o.work == PlaceIn(o, Work);
    OneIsIn(older, newer, o, n);
    PassingWith(m, older, newer, oIn && o.writeEpoch < k, oIn && o.writeObject < k,
                nIn && n.writeEpoch < k, nIn && n.writeObject < k);
    WritingWith(m, older, newer, oIn && o.writeEpoch < k, oIn && o.writeObject < k,
                nIn && n.writeEpoch < k, nIn && n.writeObject < k);
  }

  lemma {:induction false} RacePrefix(m: Memory, older: Contender, newer: Contender, schedule: seq<Move>, o: Lane, n: Lane,
                                      k: nat)
    requires Contend(m, older, newer) && Interleaves(schedule, o, n) && Apart(o, n) && k <= 10
    ensures RaceRun(Start(m), older, newer, schedule[..k]) == RaceAt(m, older, newer, o, n, k)
  {
    if k > 0 {
      RacePrefix(m, older, newer, schedule, o, n, k - 1);
      assert schedule[..k][..k - 1] == schedule[..k - 1];
      var mv := schedule[k - 1];
      assert PlaceOf(o, n, mv) == k - 1;
      if mv.newer {
        NewerMove(m, older, newer, o, n, mv.phase);
      } else {
        OlderMove(m, older, newer, o, n, mv.phase);
      }
    }
  }

  lemma InterleavedAreApart(schedule: seq<Move>, o: Lane, n: Lane)
    requires Interleaves(schedule, o, n)
    ensures Apart(o, n)
  {
    forall p: Phase, q: Phase ensures PlaceIn(o, p) != PlaceIn(n, q) {
      assert schedule[PlaceOf(o, n, Move(false, p))] == Move(false, p);
      assert schedule[PlaceOf(o, n, Move(true, q))] == Move(true, q);
    }
  }

  /**
   * A late order can land on a newer one, and this is exactly when. Over all
   * interleavings of the reads, writes and work of two orders of one object,
   * whichever has the higher epoch, the newer one is what is left on the
   * machine if and only if two things hold. It was let through: its epoch is
   * not lower, or it read the epoch before the older one wrote it. And the
   * older one was refused or was worked off first: it read the object after
   * the newer one wrote it, or read the epoch after the newer one wrote a
   * higher one, or worked earlier.
   */
  lemma NewerSurvivesExactlyWhen(m: Memory, older: Contender, newer: Contender, schedule: seq<Move>, o: Lane, n: Lane)
    requires Contend(m, older, newer) && Interleaves(schedule, o, n)
    ensures RaceRun(Start(m), older, newer, schedule).leftover == Newer
            <==> && (older.epoch <= newer.epoch || n.readEpoch < o.writeEpoch)
                 && (|| n.writeObject < o.readObject
                     || (older.epoch < newer.epoch && n.writeEpoch < o.readEpoch)
                     || o.work < n.work)
  {
    InterleavedAreApart(schedule, o, n);
    assert schedule[..10] == schedule;
    assert PlaceIn(o, Work) != PlaceIn(n, Work);
    RacePrefix(m, older, newer, schedule, o, n, 10);
  }
}
