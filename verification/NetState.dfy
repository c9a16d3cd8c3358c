/**
 * What each machine's network should be (bentod/src/netstate.rs).
 *
 * Rows carry the result of reading their text columns: an address or prefix
 * that does not parse is `None`, like one that is missing.
 */
module NetState {
  import opened Options
  import opened Sequences

  type Addr = a: int | 0 <= a < 0x1_0000_0000

  datatype Prefix = Prefix(addr: Addr, bits: nat)

  datatype Host = Host(id: int, endpoint: Option<Addr>, underlay: Option<Addr>)

  datatype SlotState = Active | Draining | Moving

  datatype Slot = Slot(slot: nat, state: SlotState, owner: int)

  datatype Visibility = Off | Private | Public

  datatype Instance = Instance(owner: int, host: int, address: Option<Addr>, visibility: Visibility, httpPort: nat)

  datatype User = User(id: int, subnet: Option<Prefix>)

  datatype Database = Database(runnerPrefix: nat, hosts: seq<Host>, slots: seq<Slot>, instances: seq<Instance>,
                               users: seq<User>)

  datatype PortRange = PortRange(first: nat, last: nat)

  datatype Published = Published(address: Addr, httpPorts: seq<nat>, portRanges: seq<PortRange>)

  datatype MachineUser = MachineUser(index: int, subnet: Prefix, instances: seq<Published>)

  datatype RemoteSlot = RemoteSlot(slot: nat, nextHop: Addr)

  datatype MachineNetwork = MachineNetwork(privateRange: Prefix, runnerPrefix: nat, users: seq<MachineUser>,
                                           remoteSlots: seq<RemoteSlot>, frontends: seq<Addr>, management: seq<Addr>)

  const DEFAULT_HTTP_PORT: nat := 80
  const SLOT_NUMBERS: nat := 0x1_0000_0000

  function Pow2(n: nat): (p: nat)
    ensures p > 0
  {
    if n == 0 then 1 else 2 * Pow2(n - 1)
  }

  /** How many addresses a prefix of this length covers. */
  function Size(bits: nat): (n: nat)
    ensures n > 0
  {
    if bits <= 32 then Pow2(32 - bits) else 1
  }

  predicate Contains(p: Prefix, a: Addr) { a / Size(p.bits) == p.addr / Size(p.bits) }

  /** The place of a user's `/24` inside the private range, if it is inside. */
  function SubnetIndex(range: Prefix, subnet: Prefix): Option<int> {
    var base := subnet.addr - subnet.addr % 256;
    if subnet.bits != 24 || !Contains(range, base) then None else Some((base - range.addr) / 256)
  }

  // ------------------------------------------------------------------
  // What each row contributes
  // ------------------------------------------------------------------

  /** The host with an identifier; of two, the later row. */
  function HostOf(hosts: seq<Host>, id: int): Option<Host>
    decreases |hosts|
  {
    if hosts == [] then None
    else if hosts[|hosts| - 1].id == id then Some(hosts[|hosts| - 1])
    else HostOf(hosts[..|hosts| - 1], id)
  }

  function UnderlayOf(hosts: seq<Host>, id: int): Option<Addr> {
    var host := HostOf(hosts, id);
    if host.Some? then host.value.underlay else None
  }

  function RemoteOf(s: Slot, host: int, hosts: seq<Host>): seq<RemoteSlot> {
    if s.owner == host then []
    else
      var hop := UnderlayOf(hosts, s.owner);
      if hop.None? || s.state.Moving? || s.slot >= SLOT_NUMBERS then []
      else [RemoteSlot(s.slot, hop.value)]
  }

  function RemoteRule(host: int, hosts: seq<Host>): Slot -> seq<RemoteSlot> {
    (s: Slot) => RemoteOf(s, host, hosts)
  }

  function EffectivePort(i: Instance): nat { if i.httpPort == 0 then DEFAULT_HTTP_PORT else i.httpPort }

  function Publish(i: Instance, address: Addr, high: PortRange): Published {
    if i.visibility.Off? then Published(address, [], [])
    else Published(address, [EffectivePort(i)], [high])
  }

  function PublishedOf(i: Instance, host: int, owner: int, high: PortRange): seq<Published> {
    if i.host != host || i.owner != owner || i.address.None? then []
    else [Publish(i, i.address.value, high)]
  }

  function PublishRule(host: int, owner: int, high: PortRange): Instance -> seq<Published> {
    (i: Instance) => PublishedOf(i, host, owner, high)
  }

  function UserOf(u: User, range: Prefix, host: int, instances: seq<Instance>, high: PortRange): seq<MachineUser> {
    if u.subnet.None? then []
    else
      var index := SubnetIndex(range, u.subnet.value);
      if index.None? then []
      else [MachineUser(index.value, u.subnet.value, Collect(instances, PublishRule(host, u.id, high)))]
  }

  function UserRule(range: Prefix, host: int, instances: seq<Instance>, high: PortRange): User -> seq<MachineUser> {
    (u: User) => UserOf(u, range, host, instances, high)
  }

  function AddressesOf(h: Host): seq<Addr> {
    (if h.endpoint.Some? then [h.endpoint.value] else []) + (if h.underlay.Some? then [h.underlay.value] else [])
  }

  function AddressRule(): Host -> seq<Addr> { (h: Host) => AddressesOf(h) }

  function IndexKey(): MachineUser -> int { (u: MachineUser) => u.index }

  function SlotKey(): RemoteSlot -> int { (r: RemoteSlot) => r.slot }

  function AddrKey(): Addr -> int { (a: Addr) => a }

  /** Neighbours that are equal become one. */
  function Dedup(s: seq<Addr>): seq<Addr>
    decreases |s|
  {
    if |s| <= 1 then s
    else if s[|s| - 2] == s[|s| - 1] then Dedup(s[..|s| - 1])
    else Dedup(s[..|s| - 1]) + [s[|s| - 1]]
  }

  function Management(hosts: seq<Host>): seq<Addr> { Dedup(SortBy(Collect(hosts, AddressRule()), AddrKey())) }

  function Frontends(hosts: seq<Host>, host: int, controller: int): seq<Addr> {
    if host == controller || UnderlayOf(hosts, controller).None? then []
    else [UnderlayOf(hosts, controller).value]
  }

  /** The description of one machine. */
  function Describe(db: Database, range: Prefix, high: PortRange, host: int, controller: int): MachineNetwork {
    MachineNetwork(
      range,
      db.runnerPrefix,
      SortBy(Collect(db.users, UserRule(range, host, db.instances, high)), IndexKey()),
      SortBy(Collect(db.slots, RemoteRule(host, db.hosts)), SlotKey()),
      Frontends(db.hosts, host, controller),
      Management(db.hosts))
  }

  // ------------------------------------------------------------------
  // The loops of the source
  // ------------------------------------------------------------------

  /** User identifiers are a primary key. */
  predicate DistinctUsers(users: seq<User>) {
    forall i, j :: 0 <= i < j < |users| ==> users[i].id != users[j].id
  }

  function Drained(byOwner: map<int, seq<Published>>, owner: int): seq<Published> {
    if owner in byOwner then byOwner[owner] else []
  }

  method CollectRemoteSlots(slots: seq<Slot>, host: int, hosts: seq<Host>) returns (remote: seq<RemoteSlot>)
    ensures remote == Collect(slots, RemoteRule(host, hosts))
  {
    var byId: map<int, Host> := map[];
    for k := 0 to |hosts|
      invariant forall id :: HostOf(hosts[..k], id) == if id in byId then Some(byId[id]) else None
    {
      assert hosts[..k + 1][..k] == hosts[..k];
      byId := byId[hosts[k].id := hosts[k]];
    }
    assert hosts[..|hosts|] == hosts;
    remote := [];
    for k := 0 to |slots|
      invariant remote == Collect(slots[..k], RemoteRule(host, hosts))
    {
      assert slots[..k + 1][..k] == slots[..k];
      var s := slots[k];
      if s.owner == host || s.owner !in byId {
        continue;
      }
      var hop := byId[s.owner].underlay;
      if hop.None? || s.state.Moving? || s.slot >= SLOT_NUMBERS {
        continue;
      }
      remote := remote + [RemoteSlot(s.slot, hop.value)];
    }
    assert slots[..|slots|] == slots;
  }

  method GroupInstances(instances: seq<Instance>, host: int, high: PortRange) returns (byOwner: map<int, seq<Published>>)
    ensures forall owner :: Drained(byOwner, owner) == Collect(instances, PublishRule(host, owner, high))
  {
    byOwner := map[];
    for k := 0 to |instances|
      invariant forall owner :: Drained(byOwner, owner) == Collect(instances[..k], PublishRule(host, owner, high))
    {
      assert instances[..k + 1][..k] == instances[..k];
      var i := instances[k];
      if i.host != host || i.address.None? {
        continue;
      }
      var published := Published(i.address.value, [], []);
      if i.visibility.Private? || i.visibility.Public? {
        published := published.(httpPorts := [EffectivePort(i)], portRanges := [high]);
      }
      byOwner := byOwner[i.owner := Drained(byOwner, i.owner) + [published]];
    }
    assert instances[..|instances|] == instances;
  }

  method CollectUsers(users: seq<User>, range: Prefix, host: int, instances: seq<Instance>, high: PortRange)
    returns (r: seq<MachineUser>)
    requires DistinctUsers(users)
    ensures r == Collect(users, UserRule(range, host, instances, high))
  {
    var byOwner := GroupInstances(instances, host, high);
    r := [];
    for k := 0 to |users|
      invariant r == Collect(users[..k], UserRule(range, host, instances, high))
      invariant forall j :: k <= j < |users| ==>
                  Drained(byOwner, users[j].id) == Collect(instances, PublishRule(host, users[j].id, high))
    {
      assert users[..k + 1][..k] == users[..k];
      var u := users[k];
      if u.subnet.None? {
        continue;
      }
      var index := SubnetIndex(range, u.subnet.value);
      if index.None? {
        continue;
      }
      r := r + [MachineUser(index.value, u.subnet.value, Drained(byOwner, u.id))];
      byOwner := byOwner - {u.id};
    }
    assert users[..|users|] == users;
  }

  method CollectManagement(hosts: seq<Host>) returns (r: seq<Addr>)
    ensures r == Management(hosts)
  {
    r := [];
    for k := 0 to |hosts|
      invariant r == Collect(hosts[..k], AddressRule())
    {
      assert hosts[..k + 1][..k] == hosts[..k];
      if hosts[k].endpoint.Some? {
        r := r + [hosts[k].endpoint.value];
      }
      if hosts[k].underlay.Some? {
        r := r + [hosts[k].underlay.value];
      }
    }
    assert hosts[..|hosts|] == hosts;
    r := Dedup(SortBy(r, AddrKey()));
  }

  method BuildMachineNetwork(db: Database, range: Prefix, high: PortRange, host: int, controller: int)
    returns (n: MachineNetwork)
    requires DistinctUsers(db.users)
    ensures n == Describe(db, range, high, host, controller)
  {
    var remoteSlots := CollectRemoteSlots(db.slots, host, db.hosts);
    var users := CollectUsers(db.users, range, host, db.instances, high);
    var frontends := [];
    if host != controller && UnderlayOf(db.hosts, controller).Some? {
      frontends := [UnderlayOf(db.hosts, controller).value];
    }
    var management := CollectManagement(db.hosts);
    n := MachineNetwork(range, db.runnerPrefix, SortBy(users, IndexKey()), SortBy(remoteSlots, SlotKey()), frontends,
                        management);
  }
}
