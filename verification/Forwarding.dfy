/**
 * Routes derived from the descriptions, and the path a packet takes over the
 * machines of one deployment (crates/network/src/machine.rs, `routes`;
 * crates/network/src/slot.rs, `prefix`).
 */
module Forwarding {
  import opened Options
  import opened Sequences
  import opened NetState
  import opened NetStateLaws

  const MIN_SLOT_BITS: nat := 24
  const MAX_SLOT_BITS: nat := 27

  datatype Route = Route(destination: Prefix, nextHop: Addr)

  predicate DividesSlots(bits: nat) { MIN_SLOT_BITS <= bits <= MAX_SLOT_BITS }

  /** How many slots a user's `/24` divides into. */
  function SlotCount(bits: nat): nat
    requires DividesSlots(bits)
  {
    Pow2(bits - MIN_SLOT_BITS)
  }

  lemma Sizes()
    ensures Size(24) == 256 && Size(25) == 128 && Size(26) == 64 && Size(27) == 32
    ensures Pow2(0) == 1 && Pow2(1) == 2 && Pow2(2) == 4 && Pow2(3) == 8
  {
    assert Pow2(5) == 32;
  }

  /** The routed part of one user's network that belongs to one slot. */
  function SlotPrefix(bits: nat, subnet: Prefix, slot: nat): Prefix
    requires DividesSlots(bits) && slot < SlotCount(bits)
  {
    Sizes();
    assert slot * Size(bits) <= 256 - Size(bits);
    Prefix(subnet.addr - subnet.addr % 256 + slot * Size(bits), bits)
  }

  /** The slot that holds an address: its host octet, shifted. */
  function SlotOf(bits: nat, a: Addr): int { (a % 256) / Size(bits) }

  /** The user network is a `/24` and the slot exists. */
  predicate Fits(n: MachineNetwork, i: nat, j: nat)
    requires DividesSlots(n.runnerPrefix) && i < |n.users| && j < |n.remoteSlots|
  {
    n.users[i].subnet.bits == 24 && n.remoteSlots[j].slot < SlotCount(n.runnerPrefix)
  }

  predicate Routable(n: MachineNetwork) {
    && DividesSlots(n.runnerPrefix)
    && (SlotCount(n.runnerPrefix) > 1 ==>
          forall i, j :: 0 <= i < |n.users| && 0 <= j < |n.remoteSlots| ==> Fits(n, i, j))
  }

  function RouteFor(n: MachineNetwork, i: nat, j: nat): Route
    requires DividesSlots(n.runnerPrefix) && i < |n.users| && j < |n.remoteSlots| && Fits(n, i, j)
  {
    Route(SlotPrefix(n.runnerPrefix, n.users[i].subnet, n.remoteSlots[j].slot), n.remoteSlots[j].nextHop)
  }

  /** The route for one user and one remote slot. */
  ghost predicate IsRoute(n: MachineNetwork, r: Route) {
    && DividesSlots(n.runnerPrefix) && SlotCount(n.runnerPrefix) > 1
    && exists u, x ::
         && u in n.users && x in n.remoteSlots && x.slot < SlotCount(n.runnerPrefix)
         && r == Route(SlotPrefix(n.runnerPrefix, u.subnet, x.slot), x.nextHop)
  }

  /** The inner loop: the routes of one user, one for each remote slot. */
  method RoutesOfUser(n: MachineNetwork, i: nat) returns (r: Option<seq<Route>>)
    requires DividesSlots(n.runnerPrefix) && i < |n.users|
    ensures r.Some? <==> forall j :: 0 <= j < |n.remoteSlots| ==> Fits(n, i, j)
    ensures r.Some? ==> && |r.value| == |n.remoteSlots|
                        && forall j :: 0 <= j < |n.remoteSlots| ==> Fits(n, i, j) && r.value[j] == RouteFor(n, i, j)
  {
    var routes: seq<Route> := [];
    for j := 0 to |n.remoteSlots|
      invariant |routes| == j
      invariant forall l :: 0 <= l < j ==> Fits(n, i, l) && routes[l] == RouteFor(n, i, l)
    {
      if n.users[i].subnet.bits != 24 || n.remoteSlots[j].slot >= SlotCount(n.runnerPrefix) {
        assert !Fits(n, i, j);
        return None;
      }
      routes := routes + [RouteFor(n, i, j)];
    }
    return Some(routes);
  }

  /** One route for each user and each remote slot, none when a `/24` is one slot. */
  method Routes(n: MachineNetwork) returns (r: Option<seq<Route>>)
    ensures r.Some? <==> Routable(n)
    ensures r.Some? ==> forall route :: route in r.value <==> IsRoute(n, route)
  {
    if !DividesSlots(n.runnerPrefix) {
      return None;
    }
    if SlotCount(n.runnerPrefix) == 1 {
      return Some([]);
    }
    var routes: seq<Route> := [];
    for i := 0 to |n.users|
      invariant forall route :: route in routes ==> IsRoute(n, route)
      invariant forall k, j :: 0 <= k < i && 0 <= j < |n.remoteSlots| ==> Fits(n, k, j) && RouteFor(n, k, j) in routes
    {
      var more := RoutesOfUser(n, i);
      if more.None? {
        return None;
      }
      forall j | 0 <= j < |n.remoteSlots| ensures IsRoute(n, more.value[j]) {
        assert n.users[i] in n.users && n.remoteSlots[j] in n.remoteSlots && Fits(n, i, j);
      }
      forall j | 0 <= j < |n.remoteSlots| ensures Fits(n, i, j) && RouteFor(n, i, j) in routes + more.value {
        assert more.value[j] in more.value;
      }
      routes := routes + more.value;
    }
    assert forall i, j :: 0 <= i < |n.users| && 0 <= j < |n.remoteSlots| ==> Fits(n, i, j);
    forall route | IsRoute(n, route) ensures route in routes {
      var u, x :| && u in n.users && x in n.remoteSlots && x.slot < SlotCount(n.runnerPrefix)
                  && route == Route(SlotPrefix(n.runnerPrefix, u.subnet, x.slot), x.nextHop);
      var k :| 0 <= k < |n.users| && n.users[k] == u;
      var j :| 0 <= j < |n.remoteSlots| && n.remoteSlots[j] == x;
      assert Fits(n, k, j) && RouteFor(n, k, j) == route;
    }
    return Some(routes);
  }

  /** A slot's prefix covers exactly the addresses of the user network with that slot number. */
  lemma SlotPrefixCovers(bits: nat, subnet: Prefix, slot: nat, a: Addr)
    requires DividesSlots(bits) && slot < SlotCount(bits)
    ensures Contains(SlotPrefix(bits, subnet, slot), a) <==> a / 256 == subnet.addr / 256 && SlotOf(bits, a) == slot
  {
    Sizes();
    var base := subnet.addr - subnet.addr % 256;
    var addr := SlotPrefix(bits, subnet, slot).addr;
    match bits {
      case 24 => Covers(base, addr, slot, a, 256);
      case 25 => Covers(base, addr, slot, a, 128);
      case 26 => Covers(base, addr, slot, a, 64);
      case 27 => Covers(base, addr, slot, a, 32);
    }
  }

  /** How many addresses a slot has, by the division of the deployment. */
  function PartSize(bits: nat): nat { if bits == 24 then 256 else if bits == 25 then 128 else if bits == 26 then 64 else 32 }

  /** The slots of a user network are its equal parts, in order of their numbers. */
  lemma SlotPrefixIsPart(bits: nat, subnet: Prefix, slot: nat, a: Addr)
    requires DividesSlots(bits) && slot < SlotCount(bits)
    ensures
      var first := subnet.addr - subnet.addr % 256 + slot * PartSize(bits);
      Contains(SlotPrefix(bits, subnet, slot), a) <==> first <= a < first + PartSize(bits)
  {
    Sizes();
    assert Size(bits) == PartSize(bits);
    PartIsBlock(subnet.addr - subnet.addr % 256, SlotPrefix(bits, subnet, slot).addr, slot, a, PartSize(bits));
  }

  lemma PartIsBlock(base: int, addr: int, slot: nat, a: int, size: int)
    requires size == 256 || size == 128 || size == 64 || size == 32
    requires base % 256 == 0 && addr == base + slot * size
    ensures a / size == addr / size <==> addr <= a < addr + size
  {
    var b := base / 256;
    var parts := if size == 256 then 1 else if size == 128 then 2 else if size == 64 then 4 else 8;
    var k := parts * b + slot;
    assert addr == k * size;
    BlockAt(a, k, size);
    BlockAt(addr, k, size);
  }

  lemma Covers(base: int, addr: int, slot: nat, a: int, size: int)
    requires size == 256 || size == 128 || size == 64 || size == 32
    requires base % 256 == 0 && addr == base + slot * size && (slot + 1) * size <= 256
    ensures a / size == addr / size <==> a / 256 == base / 256 && (a % 256) / size == slot
  {
    var q, r := a / 256, a % 256;
    assert a == 256 * q + r;
    var b := base / 256;
    assert base == 256 * b;
    if size == 256 {
    } else if size == 128 {
      assert a / 128 == 2 * q + r / 128 && addr / 128 == 2 * b + slot;
    } else if size == 64 {
      assert a / 64 == 4 * q + r / 64 && addr / 64 == 4 * b + slot;
    } else {
      assert a / 32 == 8 * q + r / 32 && addr / 32 == 8 * b + slot;
    }
  }

  // ------------------------------------------------------------------
  // Paths
  // ------------------------------------------------------------------

  /** The machine has a route for the address through this next hop. */
  ghost predicate Forwards(n: MachineNetwork, a: Addr, hop: Addr) {
    exists r :: IsRoute(n, r) && Contains(r.destination, a) && r.nextHop == hop
  }

  /** A deployment at one moment, with everything that does not depend on the machine. */
  datatype Deployment = Deployment(db: Database, range: Prefix, high: PortRange, controller: int)

  function NetworkOf(d: Deployment, machine: int): MachineNetwork {
    Describe(d.db, d.range, d.high, machine, d.controller)
  }

  ghost predicate Sends(d: Deployment, machine: int, a: Addr, hop: Addr) { Forwards(NetworkOf(d, machine), a, hop) }

  /** The address lies in this user's network, which is the one at this place of the private range. */
  predicate IsGuestOf(d: Deployment, u: User, index: int, a: Addr) {
    && d.range.bits <= 24 && u.subnet.Some? && IsSubnetAt(d.range, index, u.subnet.value)
    && a / 256 == u.subnet.value.addr / 256
  }

  /** The address lies in the network of a user that machines carry. */
  ghost predicate Guest(d: Deployment, a: Addr) {
    exists u, index :: u in d.db.users && IsGuestOf(d, u, index, a)
  }

  /**
   * The range is a plan, the tables have their keys, slot numbers are ones a
   * user network has, and no two hosts share an underlay address.
   */
  ghost predicate Consistent(d: Deployment) {
    && IsPlan(d.range) && HostKey(d.db.hosts) && SlotRowKey(d.db.slots)
    && DividesSlots(d.db.runnerPrefix)
    && (forall s :: s in d.db.slots ==> s.slot < SlotCount(d.db.runnerPrefix))
    && (forall g, h :: g in d.db.hosts && h in d.db.hosts && g.underlay.Some? && g.underlay == h.underlay ==> g == h)
  }

  /** The slot is settled and its owner can be reached. */
  predicate Reachable(d: Deployment, s: Slot) {
    !s.state.Moving? && UnderlayOf(d.db.hosts, s.owner).Some?
  }

  lemma RemoteSlotsOf(d: Deployment, machine: int, x: RemoteSlot)
    ensures x in NetworkOf(d, machine).remoteSlots
            <==> exists s :: s in d.db.slots && RemoteOf(s, machine, d.db.hosts) == [x]
  {
    var rule := RemoteRule(machine, d.db.hosts);
    SortedMembers(Collect(d.db.slots, rule), SlotKey(), x);
    CollectIn(d.db.slots, rule, x);
    if s :| s in d.db.slots && x in rule(s) {
      assert RemoteOf(s, machine, d.db.hosts) == [x];
    }
  }

  /** In a consistent deployment every machine can install its routes. */
  lemma ConsistentIsRoutable(d: Deployment, machine: int)
    requires Consistent(d)
    ensures Routable(NetworkOf(d, machine))
  {
    var n := NetworkOf(d, machine);
    forall i, j | 0 <= i < |n.users| && 0 <= j < |n.remoteSlots| ensures Fits(n, i, j) {
      UsersOnEveryMachine(d.db, d.range, d.high, machine, d.controller, n.users[i]);
      RemoteSlotsOf(d, machine, n.remoteSlots[j]);
    }
  }

  /** A user's network is divided, so that parts of it can be on several machines. */
  predicate Divided(d: Deployment) {
    DividesSlots(d.db.runnerPrefix) && SlotCount(d.db.runnerPrefix) > 1
  }

  /** The row of a slot gives the machine this next hop. */
  ghost predicate RowSends(d: Deployment, machine: int, s: Slot, a: Addr, hop: Addr) {
    && s in d.db.slots && s.slot == SlotOf(d.db.runnerPrefix, a)
    && RemoteOf(s, machine, d.db.hosts) == [RemoteSlot(s.slot, hop)]
  }

  lemma SendingHasRow(d: Deployment, machine: int, a: Addr, hop: Addr)
    requires Consistent(d) && Sends(d, machine, a, hop)
    ensures Divided(d) && Guest(d, a) && exists s :: RowSends(d, machine, s, a, hop)
  {
    var n, bits := NetworkOf(d, machine), d.db.runnerPrefix;
    var r :| IsRoute(n, r) && Contains(r.destination, a) && r.nextHop == hop;
    var u, x :| && u in n.users && x in n.remoteSlots && x.slot < SlotCount(bits)
                && r == Route(SlotPrefix(bits, u.subnet, x.slot), x.nextHop);
    SlotPrefixCovers(bits, u.subnet, x.slot, a);
    UsersOnEveryMachine(d.db, d.range, d.high, machine, d.controller, u);
    var user :| user in d.db.users && user.subnet == Some(u.subnet);
    assert IsGuestOf(d, user, u.index, a);
    RemoteSlotsOf(d, machine, x);
    var s :| s in d.db.slots && RemoteOf(s, machine, d.db.hosts) == [x];
    assert RowSends(d, machine, s, a, hop);
  }

  lemma RowIsSent(d: Deployment, machine: int, s: Slot, a: Addr, hop: Addr)
    requires Consistent(d) && Divided(d) && Guest(d, a) && RowSends(d, machine, s, a, hop)
    ensures Sends(d, machine, a, hop)
  {
    var n, bits, x := NetworkOf(d, machine), d.db.runnerPrefix, RemoteSlot(s.slot, hop);
    RemoteSlotsOf(d, machine, x);
    var user, index :| user in d.db.users && IsGuestOf(d, user, index, a);
    var u := MachineUser(index, user.subnet.value,
                         Collect(d.db.instances, PublishRule(machine, user.id, d.high)));
    UsersOnEveryMachine(d.db, d.range, d.high, machine, d.controller, u);
    SlotPrefixCovers(bits, u.subnet, x.slot, a);
    var r := Route(SlotPrefix(bits, u.subnet, x.slot), x.nextHop);
    assert IsRoute(n, r) && Contains(r.destination, a);
  }

  /**
   * A machine sends an address exactly where the row of its slot says, if it
   * is a guest's and networks are divided; what it sends by is what it can
   * install.
   */
  lemma SendsByRow(d: Deployment, machine: int, a: Addr, hop: Addr)
    requires Consistent(d)
    ensures Sends(d, machine, a, hop) <==> Divided(d) && Guest(d, a) && exists s :: RowSends(d, machine, s, a, hop)
    ensures Routable(NetworkOf(d, machine))
  {
    ConsistentIsRoutable(d, machine);
    if Sends(d, machine, a, hop) {
      SendingHasRow(d, machine, a, hop);
    }
    if Divided(d) && Guest(d, a) {
      if s :| RowSends(d, machine, s, a, hop) {
        RowIsSent(d, machine, s, a, hop);
      }
    }
  }

  /** An address has one slot, and a slot one row. */
  lemma RowOfSlot(d: Deployment, s: Slot, machine: int, a: Addr, hop: Addr)
    requires Consistent(d) && s in d.db.slots && s.slot == SlotOf(d.db.runnerPrefix, a)
    ensures (exists x :: RowSends(d, machine, x, a, hop)) <==> RowSends(d, machine, s, a, hop)
  {
    forall x | RowSends(d, machine, x, a, hop) ensures x == s {
      assert x in d.db.slots && x.slot == s.slot;
    }
  }

  /** What the row of a settled slot says to another machine than its owner. */
  lemma SettledRowSends(d: Deployment, s: Slot, machine: int, a: Addr, hop: Addr)
    requires Consistent(d) && s in d.db.slots && s.slot == SlotOf(d.db.runnerPrefix, a)
    requires Reachable(d, s) && machine != s.owner
    ensures RowSends(d, machine, s, a, hop) <==> Some(hop) == UnderlayOf(d.db.hosts, s.owner)
  {
    FewSlots(d.db.runnerPrefix);
    assert s.slot < SLOT_NUMBERS;
    assert RemoteOf(s, machine, d.db.hosts) == [RemoteSlot(s.slot, UnderlayOf(d.db.hosts, s.owner).value)];
  }

  lemma FewSlots(bits: nat)
    requires DividesSlots(bits)
    ensures SlotCount(bits) <= 8
  {
    Sizes();
  }

  /** The owner of a slot has no route for its addresses. */
  lemma OwnerSendsNowhere(d: Deployment, s: Slot, a: Addr, hop: Addr)
    requires Consistent(d) && s in d.db.slots && s.slot == SlotOf(d.db.runnerPrefix, a)
    ensures !Sends(d, s.owner, a, hop)
  {
    SendsByRow(d, s.owner, a, hop);
    RowOfSlot(d, s, s.owner, a, hop);
  }

  /**
   * Where networks are divided, a guest address in a settled slot is reached
   * from every other machine in exactly one hop: the only next hop is the
   * owner's address, and the owner itself has no route for it. Where a
   * network is one slot, no machine sends it anywhere.
   */
  lemma ReachedInOneHop(d: Deployment, s: Slot, machine: int, a: Addr, hop: Addr)
    requires Consistent(d) && Guest(d, a)
    requires s in d.db.slots && s.slot == SlotOf(d.db.runnerPrefix, a) && Reachable(d, s)
    ensures machine != s.owner ==>
              (Sends(d, machine, a, hop) <==> Divided(d) && Some(hop) == UnderlayOf(d.db.hosts, s.owner))
    ensures !Sends(d, s.owner, a, hop)
  {
    SendsByRow(d, machine, a, hop);
    RowOfSlot(d, s, machine, a, hop);
    OwnerSendsNowhere(d, s, a, hop);
    if machine != s.owner {
      SettledRowSends(d, s, machine, a, hop);
    }
  }

  /** A slot that is moving, or whose owner has no address, is routed by no machine. */
  lemma UnreachableIsRoutedNowhere(d: Deployment, s: Slot, machine: int, a: Addr, hop: Addr)
    requires Consistent(d)
    requires s in d.db.slots && s.slot == SlotOf(d.db.runnerPrefix, a) && !Reachable(d, s)
    ensures !Sends(d, machine, a, hop)
  {
    SendsByRow(d, machine, a, hop);
  }

  /**
   * No packet loops. Whatever machine sends whatever address onward, exactly
   * one machine has the next hop as its address, it is another machine, and
   * it sends that address nowhere.
   */
  lemma ForwardingNeverLoops(d: Deployment, machine: int, a: Addr, hop: Addr) returns (next: Host)
    requires Consistent(d) && Sends(d, machine, a, hop)
    ensures next in d.db.hosts && next.underlay == Some(hop) && next.id != machine
    ensures forall h :: h in d.db.hosts && h.underlay == Some(hop) ==> h == next
    ensures forall onward :: !Sends(d, next.id, a, onward)
  {
    SendsByRow(d, machine, a, hop);
    var s :| RowSends(d, machine, s, a, hop);
    HostOfFinds(d.db.hosts, s.owner);
    next := HostOf(d.db.hosts, s.owner).value;
    forall onward ensures !Sends(d, next.id, a, onward) {
      OwnerSendsNowhere(d, s, a, onward);
    }
  }
}
