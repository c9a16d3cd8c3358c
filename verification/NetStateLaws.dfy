/**
 * Laws of the network description that relate descriptions to each other:
 * independence from row order, and where each instance appears.
 */
module NetStateLaws {
  import opened Options
  import opened Sequences
  import opened NetState

  // ------------------------------------------------------------------
  // Keys of the tables
  // ------------------------------------------------------------------

  predicate HostKey(hosts: seq<Host>) {
    forall i, j :: 0 <= i < |hosts| && 0 <= j < |hosts| && hosts[i].id == hosts[j].id ==> hosts[i] == hosts[j]
  }

  predicate SlotRowKey(slots: seq<Slot>) {
    forall i, j :: 0 <= i < |slots| && 0 <= j < |slots| && slots[i].slot == slots[j].slot ==> slots[i] == slots[j]
  }

  function IndexOf(u: User, range: Prefix): Option<int> {
    if u.subnet.None? then None else SubnetIndex(range, u.subnet.value)
  }

  predicate UserIndexKey(users: seq<User>, range: Prefix) {
    forall i, j ::
      && 0 <= i < |users| && 0 <= j < |users|
      && IndexOf(users[i], range).Some? && IndexOf(users[i], range) == IndexOf(users[j], range)
      ==> users[i] == users[j]
  }

  // ------------------------------------------------------------------
  // Row order
  // ------------------------------------------------------------------

  lemma {:induction false} HostOfFinds(hosts: seq<Host>, id: int)
    ensures HostOf(hosts, id).Some? ==> HostOf(hosts, id).value in hosts && HostOf(hosts, id).value.id == id
    ensures HostOf(hosts, id).None? ==> forall h :: h in hosts ==> h.id != id
    decreases |hosts|
  {
    if hosts != [] {
      assert hosts == hosts[..|hosts| - 1] + [hosts[|hosts| - 1]];
      HostOfFinds(hosts[..|hosts| - 1], id);
    }
  }

  lemma SameMembers<T>(a: seq<T>, b: seq<T>)
    requires multiset(a) == multiset(b)
    ensures forall x :: x in a <==> x in b
  {
    forall x ensures x in a <==> x in b {
      assert x in a <==> x in multiset(a);
      assert x in b <==> x in multiset(b);
    }
  }

  lemma HostOfPermuted(a: seq<Host>, b: seq<Host>, id: int)
    requires multiset(a) == multiset(b) && HostKey(a)
    ensures HostOf(a, id) == HostOf(b, id)
  {
    SameMembers(a, b);
    HostOfFinds(a, id);
    HostOfFinds(b, id);
  }

  lemma RemoteSlotsDiffer(a: seq<Slot>, rule: Slot -> seq<RemoteSlot>, one: RemoteSlot, two: RemoteSlot)
    requires SlotRowKey(a)
    requires forall s, r :: s in a && r in rule(s) ==> rule(s) == [r] && r.slot == s.slot
    requires one in Collect(a, rule) && two in Collect(a, rule) && one.slot == two.slot
    ensures one == two
  {
    CollectIn(a, rule, one);
    CollectIn(a, rule, two);
    var x :| x in a && one in rule(x);
    var y :| y in a && two in rule(y);
    assert x == y;
  }

  lemma RemotePermuted(a: seq<Slot>, b: seq<Slot>, hosts: seq<Host>, hosts': seq<Host>, host: int)
    requires multiset(a) == multiset(b) && SlotRowKey(a)
    requires multiset(hosts) == multiset(hosts') && HostKey(hosts)
    ensures SortBy(Collect(a, RemoteRule(host, hosts)), SlotKey()) == SortBy(Collect(b, RemoteRule(host, hosts')), SlotKey())
  {
    var rule, rule' := RemoteRule(host, hosts), RemoteRule(host, hosts');
    forall s: Slot ensures rule(s) == rule'(s) {
      HostOfPermuted(hosts, hosts', s.owner);
    }
    CollectSame(b, rule, rule');
    CollectPermuted(a, b, rule);
    var remote := Collect(a, rule);
    forall i, j | 0 <= i < |remote| && 0 <= j < |remote| && remote[i].slot == remote[j].slot
      ensures remote[i] == remote[j]
    {
      RemoteSlotsDiffer(a, rule, remote[i], remote[j]);
    }
    SortPermuted(remote, Collect(b, rule'), SlotKey());
  }

  lemma UserIndexesDiffer(a: seq<User>, range: Prefix, rule: User -> seq<MachineUser>, one: MachineUser, two: MachineUser)
    requires UserIndexKey(a, range)
    requires forall u, m :: u in a && m in rule(u) ==> rule(u) == [m] && IndexOf(u, range) == Some(m.index)
    requires one in Collect(a, rule) && two in Collect(a, rule) && one.index == two.index
    ensures one == two
  {
    CollectIn(a, rule, one);
    CollectIn(a, rule, two);
    var x :| x in a && one in rule(x);
    var y :| y in a && two in rule(y);
    assert x == y;
  }

  lemma UsersPermuted(a: seq<User>, b: seq<User>, range: Prefix, host: int, instances: seq<Instance>, high: PortRange)
    requires multiset(a) == multiset(b) && UserIndexKey(a, range)
    ensures SortBy(Collect(a, UserRule(range, host, instances, high)), IndexKey())
            == SortBy(Collect(b, UserRule(range, host, instances, high)), IndexKey())
  {
    var rule := UserRule(range, host, instances, high);
    CollectPermuted(a, b, rule);
    var users := Collect(a, rule);
    forall i, j | 0 <= i < |users| && 0 <= j < |users| && users[i].index == users[j].index
      ensures users[i] == users[j]
    {
      UserIndexesDiffer(a, range, rule, users[i], users[j]);
    }
    SortPermuted(users, Collect(b, rule), IndexKey());
  }

  lemma ManagementPermuted(a: seq<Host>, b: seq<Host>)
    requires multiset(a) == multiset(b)
    ensures Management(a) == Management(b)
  {
    CollectPermuted(a, b, AddressRule());
    SortPermuted(Collect(a, AddressRule()), Collect(b, AddressRule()), AddrKey());
  }

  /**
   * The same rows in any order give the same description, so an unchanged
   * database never looks changed to the digest.
   */
  lemma RowOrderDoesNotMatter(db: Database, other: Database, range: Prefix, high: PortRange, host: int, controller: int)
    requires multiset(db.hosts) == multiset(other.hosts) && HostKey(db.hosts)
    requires multiset(db.slots) == multiset(other.slots) && SlotRowKey(db.slots)
    requires multiset(db.users) == multiset(other.users) && UserIndexKey(db.users, range)
    requires db.instances == other.instances && db.runnerPrefix == other.runnerPrefix
    ensures Describe(db, range, high, host, controller) == Describe(other, range, high, host, controller)
  {
    RemotePermuted(db.slots, other.slots, db.hosts, other.hosts, host);
    UsersPermuted(db.users, other.users, range, host, db.instances, high);
    HostOfPermuted(db.hosts, other.hosts, controller);
    ManagementPermuted(db.hosts, other.hosts);
  }

  /** The same users in the same places, with their instances in some order. */
  ghost predicate SameButOrder(a: seq<MachineUser>, b: seq<MachineUser>) {
    && |a| == |b|
    && (forall i :: 0 <= i < |a| ==>
          && a[i].index == b[i].index && a[i].subnet == b[i].subnet
          && multiset(a[i].instances) == multiset(b[i].instances))
  }

  lemma {:induction false} InsertRelated(a: seq<MachineUser>, b: seq<MachineUser>, x: MachineUser, y: MachineUser)
    requires SameButOrder(a, b) && SameButOrder([x], [y])
    ensures SameButOrder(Insert(a, x, IndexKey()), Insert(b, y, IndexKey()))
    decreases |a|
  {
    assert x.index == [x][0].index == [y][0].index == y.index;
    assert multiset([x][0].instances) == multiset([y][0].instances);
    if !(a == [] || a[|a| - 1].index <= x.index) {
      InsertRelated(a[..|a| - 1], b[..|b| - 1], x, y);
    }
  }

  lemma {:induction false} SortRelated(a: seq<MachineUser>, b: seq<MachineUser>)
    requires SameButOrder(a, b)
    ensures SameButOrder(SortBy(a, IndexKey()), SortBy(b, IndexKey()))
    decreases |a|
  {
    if a != [] {
      SortRelated(a[..|a| - 1], b[..|b| - 1]);
      InsertRelated(SortBy(a[..|a| - 1], IndexKey()), SortBy(b[..|b| - 1], IndexKey()), a[|a| - 1], b[|b| - 1]);
    }
  }

  lemma {:induction false} UsersRelated(users: seq<User>, range: Prefix, host: int, a: seq<Instance>, b: seq<Instance>,
                                        high: PortRange)
    requires multiset(a) == multiset(b)
    ensures SameButOrder(Collect(users, UserRule(range, host, a, high)), Collect(users, UserRule(range, host, b, high)))
    decreases |users|
  {
    if users != [] {
      UsersRelated(users[..|users| - 1], range, host, a, b, high);
      CollectPermuted(a, b, PublishRule(host, users[|users| - 1].id, high));
    }
  }

  /** Instance rows in another order change nothing but the order inside one user's list. */
  lemma InstanceOrderStaysInside(db: Database, instances: seq<Instance>, range: Prefix, high: PortRange, host: int,
                                 controller: int)
    requires multiset(db.instances) == multiset(instances)
    ensures
      var n := Describe(db, range, high, host, controller);
      var n' := Describe(db.(instances := instances), range, high, host, controller);
      SameButOrder(n.users, n'.users) && n' == n.(users := n'.users)
  {
    UsersRelated(db.users, range, host, db.instances, instances, high);
    SortRelated(Collect(db.users, UserRule(range, host, db.instances, high)),
                Collect(db.users, UserRule(range, host, instances, high)));
  }

  // ------------------------------------------------------------------
  // Management addresses
  // ------------------------------------------------------------------

  ghost predicate Ascending(s: seq<Addr>) {
    forall i, j :: 0 <= i < j < |s| ==> s[i] < s[j]
  }

  predicate NotDescending(s: seq<Addr>) { forall i, j :: 0 <= i <= j < |s| ==> s[i] <= s[j] }

  lemma SortedDoesNotDescend(s: seq<Addr>)
    requires SortedBy(s, AddrKey())
    ensures NotDescending(s)
  {
    forall i, j | 0 <= i <= j < |s| ensures s[i] <= s[j] {
      assert AddrKey()(s[i]) <= AddrKey()(s[j]);
    }
  }

  lemma {:induction false} DedupAscends(s: seq<Addr>)
    requires NotDescending(s)
    ensures Ascending(Dedup(s))
    ensures forall a :: a in Dedup(s) <==> a in s
    decreases |s|
  {
    if |s| > 1 {
      var front, last := s[..|s| - 1], s[|s| - 1];
      assert s == front + [last];
      DedupAscends(front);
      if s[|s| - 2] == last {
        assert last in front;
      } else {
        var r := Dedup(front);
        forall i | 0 <= i < |r| ensures r[i] < last {
          assert r[i] in front;
          var k :| 0 <= k < |front| && front[k] == r[i];
          assert s[k] <= s[|s| - 2] <= last;
        }
      }
    }
  }

  /**
   * Every machine gets the same list: strictly ascending, and exactly the
   * endpoint and underlay addresses of all hosts.
   */
  lemma ManagementIsEveryAddressOnce(db: Database, range: Prefix, high: PortRange, host: int, controller: int, a: Addr)
    ensures Ascending(Describe(db, range, high, host, controller).management)
    ensures a in Describe(db, range, high, host, controller).management
            <==> exists h :: h in db.hosts && (h.endpoint == Some(a) || h.underlay == Some(a))
  {
    var all := Collect(db.hosts, AddressRule());
    SortKeeps(all, AddrKey());
    SortedDoesNotDescend(SortBy(all, AddrKey()));
    DedupAscends(SortBy(all, AddrKey()));
    SortedMembers(all, AddrKey(), a);
    CollectIn(db.hosts, AddressRule(), a);
    if h :| h in db.hosts && (h.endpoint == Some(a) || h.underlay == Some(a)) {
      assert a in AddressRule()(h);
    }
  }

  // ------------------------------------------------------------------
  // Where instances appear
  // ------------------------------------------------------------------

  lemma UsersByIndex(db: Database, range: Prefix, high: PortRange, host: int, controller: int, x: MachineUser)
    ensures x in Describe(db, range, high, host, controller).users
            <==> exists u :: && u in db.users && IndexOf(u, range) == Some(x.index) && u.subnet == Some(x.subnet)
                             && x.instances == Collect(db.instances, PublishRule(host, u.id, high))
  {
    var rule := UserRule(range, host, db.instances, high);
    SortedMembers(Collect(db.users, rule), IndexKey(), x);
    CollectIn(db.users, rule, x);
    if u :| u in db.users && IndexOf(u, range) == Some(x.index) && u.subnet == Some(x.subnet)
            && x.instances == Collect(db.instances, PublishRule(host, u.id, high)) {
      assert rule(u) == [x];
    }
  }

  /** A private range as the source keeps it: no narrower than a user's network, and its own first address. */
  predicate IsPlan(range: Prefix) { range.bits <= 24 && range.addr % Size(range.bits) == 0 }

  /** How many user networks the range holds. */
  function Subnets(range: Prefix): nat
    requires range.bits <= 24
  {
    Pow2(24 - range.bits)
  }

  /** The user network at a place of the range. */
  predicate IsSubnetAt(range: Prefix, index: int, subnet: Prefix)
    requires range.bits <= 24
  {
    && 0 <= index < Subnets(range)
    && subnet.bits == 24 && subnet.addr - subnet.addr % 256 == range.addr + 256 * index
  }

  lemma {:induction false} Pow2Up(n: nat)
    ensures Pow2(n + 8) == 256 * Pow2(n)
  {
    assert Pow2(n + 8) == 2 * Pow2(n + 7) && Pow2(n + 7) == 2 * Pow2(n + 6) && Pow2(n + 6) == 2 * Pow2(n + 5);
    assert Pow2(n + 5) == 2 * Pow2(n + 4) && Pow2(n + 4) == 2 * Pow2(n + 3) && Pow2(n + 3) == 2 * Pow2(n + 2);
    assert Pow2(n + 2) == 2 * Pow2(n + 1) && Pow2(n + 1) == 2 * Pow2(n);
  }

  lemma BlockAt(a: int, k: int, size: int)
    requires size > 0
    ensures a / size == k <==> k * size <= a < k * size + size
  {
    var q := a / size;
    assert q * size <= a < q * size + size;
    if q > k {
      assert q * size >= (k + 1) * size;
      assert (k + 1) * size == k * size + size;
    } else if q < k {
      assert k * size >= (q + 1) * size;
      assert (q + 1) * size == q * size + size;
    }
  }

  lemma SameBlock(a: int, b: int, size: int)
    requires size > 0 && b % size == 0
    ensures a / size == b / size <==> b <= a < b + size
  {
    assert b == b / size * size;
    BlockAt(a, b / size, size);
  }

  /** The index is the inverse of the place: it is found exactly for the networks the range is made of. */
  lemma IndexIsPlaceExactlyWhen(range: Prefix, subnet: Prefix, index: int)
    requires IsPlan(range)
    ensures SubnetIndex(range, subnet) == Some(index) <==> IsSubnetAt(range, index, subnet)
  {
    var base := subnet.addr - subnet.addr % 256;
    var n := Subnets(range);
    Pow2Up(24 - range.bits);
    PlaceInRange(base, range.addr, n, Size(range.bits), index);
  }

  lemma PlaceInRange(base: int, addr: int, n: int, size: int, index: int)
    requires n > 0 && size == 256 * n && base % 256 == 0 && addr % size == 0
    ensures base / size == addr / size && (base - addr) / 256 == index <==> 0 <= index < n && base == addr + 256 * index
  {
    SameBlock(base, addr, size);
    BlockDivides(addr, n);
    PlaceInBlock(base, addr, n, index);
  }

  lemma PlaceInBlock(base: int, addr: int, n: int, index: int)
    requires base % 256 == 0 && addr % 256 == 0
    ensures addr <= base < addr + 256 * n && (base - addr) / 256 == index <==> 0 <= index < n && base == addr + 256 * index
  {
    var p, q := base / 256, addr / 256;
    assert base == 256 * p && addr == 256 * q;
    assert base - addr == 256 * (p - q);
    assert (base - addr) / 256 == p - q;
  }

  lemma BlockDivides(a: int, n: int)
    requires n > 0 && a % (256 * n) == 0
    ensures a % 256 == 0
  {
    var q := a / (256 * n);
    assert a == 256 * n * q;
    assert a == 256 * (n * q);
  }

  /**
   * Every user with a network of the range is on every machine, at the place
   * that network has in the range; nobody else is; and the entry holds
   * exactly that machine's instances of that user, in row order.
   */
  lemma UsersOnEveryMachine(db: Database, range: Prefix, high: PortRange, host: int, controller: int, x: MachineUser)
    requires IsPlan(range)
    ensures x in Describe(db, range, high, host, controller).users
            <==> && IsSubnetAt(range, x.index, x.subnet)
                 && exists u :: && u in db.users && u.subnet == Some(x.subnet)
                                && x.instances == Collect(db.instances, PublishRule(host, u.id, high))
  {
    UsersByIndex(db, range, high, host, controller, x);
    IndexIsPlaceExactlyWhen(range, x.subnet, x.index);
    if IsSubnetAt(range, x.index, x.subnet) {
      if u :| u in db.users && u.subnet == Some(x.subnet)
              && x.instances == Collect(db.instances, PublishRule(host, u.id, high)) {
        assert IndexOf(u, range) == Some(x.index);
      }
    }
  }

  /** What a row opens to others: nothing if it is off, else its port, or 80 if it has none, and the high ports. */
  predicate Opens(i: Instance, p: Published, high: PortRange) {
    match i.visibility
    case Off => p.httpPorts == [] && p.portRanges == []
    case _ => p.httpPorts == [if i.httpPort == 0 then 80 else i.httpPort] && p.portRanges == [high]
  }

  /** An entry of a user is exactly one of this machine's rows of that user with an address, opened by its visibility. */
  lemma EntriesAreRows(instances: seq<Instance>, host: int, owner: int, high: PortRange, p: Published)
    ensures p in Collect(instances, PublishRule(host, owner, high))
            <==> exists i :: && i in instances && i.host == host && i.owner == owner
                             && i.address == Some(p.address) && Opens(i, p, high)
  {
    CollectIn(instances, PublishRule(host, owner, high), p);
    if i :| i in instances && p in PublishRule(host, owner, high)(i) {
      assert i.address == Some(p.address) && Opens(i, p, high);
    }
    if i :| i in instances && i.host == host && i.owner == owner && i.address == Some(p.address) && Opens(i, p, high) {
      assert p in PublishRule(host, owner, high)(i);
    }
  }

  /** Both lists are in order of their numbers, and range and division are the deployment's. */
  lemma DescriptionIsSorted(db: Database, range: Prefix, high: PortRange, host: int, controller: int, i: nat, j: nat)
    requires i < j
    ensures
      var n := Describe(db, range, high, host, controller);
      && n.privateRange == range && n.runnerPrefix == db.runnerPrefix
      && (j < |n.users| ==> n.users[i].index <= n.users[j].index)
      && (j < |n.remoteSlots| ==> n.remoteSlots[i].slot <= n.remoteSlots[j].slot)
  {
    var users := Collect(db.users, UserRule(range, host, db.instances, high));
    var remote := Collect(db.slots, RemoteRule(host, db.hosts));
    SortKeeps(users, IndexKey());
    SortKeeps(remote, SlotKey());
    var n := Describe(db, range, high, host, controller);
    assert j < |n.users| ==> IndexKey()(n.users[i]) <= IndexKey()(n.users[j]);
    assert j < |n.remoteSlots| ==> SlotKey()(n.remoteSlots[i]) <= SlotKey()(n.remoteSlots[j]);
  }

  /** The frontends a machine permits: the controller's underlay address, and none on the controller itself. */
  lemma FrontendsAreTheController(db: Database, range: Prefix, high: PortRange, host: int, controller: int, a: Addr)
    requires HostKey(db.hosts)
    ensures a in Describe(db, range, high, host, controller).frontends
            <==> host != controller && exists h :: h in db.hosts && h.id == controller && h.underlay == Some(a)
    ensures |Describe(db, range, high, host, controller).frontends| <= 1
  {
    HostOfFinds(db.hosts, controller);
  }

  function Tag(index: int, s: seq<Published>): seq<(int, Published)> {
    seq(|s|, i requires 0 <= i < |s| => (index, s[i]))
  }

  function TagRule(): MachineUser -> seq<(int, Published)> { (u: MachineUser) => Tag(u.index, u.instances) }

  /** Everything one description publishes, under the user it is published for. */
  function AllPublished(n: MachineNetwork): seq<(int, Published)> { Collect(n.users, TagRule()) }

  /** Everything the descriptions of these machines publish together. */
  ghost function Everywhere(db: Database, range: Prefix, high: PortRange, machines: seq<int>, controller: int)
    : multiset<(int, Published)>
    decreases |machines|
  {
    if machines == [] then multiset{}
    else
      Everywhere(db, range, high, machines[..|machines| - 1], controller)
      + multiset(AllPublished(Describe(db, range, high, machines[|machines| - 1], controller)))
  }

  /** What one instance row stands for: its own publication, under its owner's index. */
  function Expected(i: Instance, users: seq<User>, range: Prefix, machines: seq<int>, high: PortRange)
    : multiset<(int, Published)>
    decreases |users|
  {
    if users == [] || i.host !in machines || i.address.None? then multiset{}
    else
      var u := users[|users| - 1];
      if u.id == i.owner && IndexOf(u, range).Some?
      then multiset{(IndexOf(u, range).value, Publish(i, i.address.value, high))}
      else Expected(i, users[..|users| - 1], range, machines, high)
  }

  ghost function AllExpected(instances: seq<Instance>, users: seq<User>, range: Prefix, machines: seq<int>,
                             high: PortRange): multiset<(int, Published)>
    decreases |instances|
  {
    if instances == [] then multiset{}
    else AllExpected(instances[..|instances| - 1], users, range, machines, high)
         + Expected(instances[|instances| - 1], users, range, machines, high)
  }

  /** What one machine publishes for the given users, before sorting. */
  ghost function OnMachine(users: seq<User>, range: Prefix, host: int, instances: seq<Instance>, high: PortRange)
    : multiset<(int, Published)>
  {
    multiset(Collect(Collect(users, UserRule(range, host, instances, high)), TagRule()))
  }

  lemma DescribedIsOnMachine(db: Database, range: Prefix, high: PortRange, host: int, controller: int)
    ensures multiset(AllPublished(Describe(db, range, high, host, controller)))
            == OnMachine(db.users, range, host, db.instances, high)
  {
    var users := Collect(db.users, UserRule(range, host, db.instances, high));
    SortKeeps(users, IndexKey());
    CollectPermuted(SortBy(users, IndexKey()), users, TagRule());
  }

  /** What one machine publishes for one user. */
  ghost function Share(u: User, range: Prefix, host: int, instances: seq<Instance>, high: PortRange)
    : multiset<(int, Published)>
  {
    if IndexOf(u, range).None? then multiset{}
    else multiset(Tag(IndexOf(u, range).value, Collect(instances, PublishRule(host, u.id, high))))
  }

  lemma OnMachineLastUser(users: seq<User>, range: Prefix, host: int, instances: seq<Instance>, high: PortRange)
    requires users != []
    ensures
      OnMachine(users, range, host, instances, high)
      == OnMachine(users[..|users| - 1], range, host, instances, high)
         + Share(users[|users| - 1], range, host, instances, high)
  {
    var u := users[|users| - 1];
    var rule := UserRule(range, host, instances, high);
    CollectConcat(Collect(users[..|users| - 1], rule), rule(u), TagRule());
    if IndexOf(u, range).Some? {
      var entry := rule(u)[0];
      assert rule(u) == [entry];
      assert [entry][..0] == [];
      assert Collect([entry], TagRule()) == Tag(entry.index, entry.instances);
    }
  }

  lemma TagConcat(index: int, a: seq<Published>, b: seq<Published>)
    ensures Tag(index, a + b) == Tag(index, a) + Tag(index, b)
  {
  }

  lemma ShareLastInstance(u: User, range: Prefix, host: int, instances: seq<Instance>, high: PortRange)
    requires instances != []
    ensures Share(u, range, host, instances, high)
            == Share(u, range, host, instances[..|instances| - 1], high)
               + Expected(instances[|instances| - 1], [u], range, [host], high)
  {
    var front, i := instances[..|instances| - 1], instances[|instances| - 1];
    assert [u][..0] == [];
    if IndexOf(u, range).Some? {
      var index := IndexOf(u, range).value;
      TagConcat(index, Collect(front, PublishRule(host, u.id, high)), PublishedOf(i, host, u.id, high));
      assert PublishedOf(i, host, u.id, high) != [] ==>
          Tag(index, PublishedOf(i, host, u.id, high)) == [(index, Publish(i, i.address.value, high))];
    }
  }

  lemma ExpectedLastUser(i: Instance, users: seq<User>, range: Prefix, host: int, high: PortRange)
    requires users != [] && DistinctUsers(users)
    ensures Expected(i, users, range, [host], high)
            == Expected(i, users[..|users| - 1], range, [host], high)
               + Expected(i, [users[|users| - 1]], range, [host], high)
  {
    var u := users[|users| - 1];
    assert [u][..0] == [];
    if u.id == i.owner {
      OwnerOnlyOnce(i, users[..|users| - 1], range, [host], high);
    }
  }

  lemma Combine<T>(all: multiset<T>, fewer: multiset<T>, left: multiset<T>, leftFewer: multiset<T>, share: multiset<T>,
                   shareFewer: multiset<T>, more: multiset<T>, moreLeft: multiset<T>, moreShare: multiset<T>)
    requires all == left + share && fewer == leftFewer + shareFewer && more == moreLeft + moreShare
    requires left == leftFewer + moreLeft && share == shareFewer + moreShare
    ensures all == fewer + more
  {
  }

  /** One more instance row adds its publication to its own machine only. */
  lemma {:induction false} OnMachineLastInstance(users: seq<User>, range: Prefix, host: int, instances: seq<Instance>,
                                                 high: PortRange)
    requires instances != [] && DistinctUsers(users)
    ensures OnMachine(users, range, host, instances, high)
            == OnMachine(users, range, host, instances[..|instances| - 1], high)
               + Expected(instances[|instances| - 1], users, range, [host], high)
    decreases |users|
  {
    if users != [] {
      var front := instances[..|instances| - 1];
      OnMachineLastUser(users, range, host, instances, high);
      OnMachineLastUser(users, range, host, front, high);
      OnMachineLastInstance(users[..|users| - 1], range, host, instances, high);
      ShareLastInstance(users[|users| - 1], range, host, instances, high);
      ExpectedLastUser(instances[|instances| - 1], users, range, host, high);
      var i, others, u := instances[|instances| - 1], users[..|users| - 1], users[|users| - 1];
      Combine(OnMachine(users, range, host, instances, high), OnMachine(users, range, host, front, high),
              OnMachine(others, range, host, instances, high), OnMachine(others, range, host, front, high),
              Share(u, range, host, instances, high), Share(u, range, host, front, high),
              Expected(i, users, range, [host], high), Expected(i, others, range, [host], high),
              Expected(i, [u], range, [host], high));
    }
  }

  lemma {:induction false} OwnerOnlyOnce(i: Instance, users: seq<User>, range: Prefix, machines: seq<int>, high: PortRange)
    requires forall k :: 0 <= k < |users| ==> users[k].id != i.owner
    ensures Expected(i, users, range, machines, high) == multiset{}
    decreases |users|
  {
    if users != [] {
      OwnerOnlyOnce(i, users[..|users| - 1], range, machines, high);
    }
  }

  /** All rows of one machine. */
  lemma {:induction false} OnMachineIsExpected(users: seq<User>, range: Prefix, host: int, instances: seq<Instance>,
                                               high: PortRange)
    requires DistinctUsers(users)
    ensures OnMachine(users, range, host, instances, high) == AllExpected(instances, users, range, [host], high)
    decreases |instances|
  {
    if instances == [] {
      NobodyRuns(users, range, host, high);
    } else {
      OnMachineIsExpected(users, range, host, instances[..|instances| - 1], high);
      OnMachineLastInstance(users, range, host, instances, high);
    }
  }

  lemma {:induction false} NobodyRuns(users: seq<User>, range: Prefix, host: int, high: PortRange)
    ensures OnMachine(users, range, host, [], high) == multiset{}
    decreases |users|
  {
    if users != [] {
      NobodyRuns(users[..|users| - 1], range, host, high);
      OnMachineLastUser(users, range, host, [], high);
    }
  }

  lemma {:induction false} ExpectedSplits(i: Instance, users: seq<User>, range: Prefix, machines: seq<int>, host: int,
                                          high: PortRange)
    requires host !in machines
    ensures Expected(i, users, range, machines + [host], high)
            == Expected(i, users, range, machines, high) + Expected(i, users, range, [host], high)
    decreases |users|
  {
    if users != [] {
      ExpectedSplits(i, users[..|users| - 1], range, machines, host, high);
    }
  }

  lemma {:induction false} AllExpectedSplits(instances: seq<Instance>, users: seq<User>, range: Prefix, machines: seq<int>,
                                             host: int, high: PortRange)
    requires host !in machines
    ensures AllExpected(instances, users, range, machines + [host], high)
            == AllExpected(instances, users, range, machines, high) + AllExpected(instances, users, range, [host], high)
    decreases |instances|
  {
    if instances != [] {
      AllExpectedSplits(instances[..|instances| - 1], users, range, machines, host, high);
      ExpectedSplits(instances[|instances| - 1], users, range, machines, host, high);
    }
  }

  lemma {:induction false} NowhereExpected(instances: seq<Instance>, users: seq<User>, range: Prefix, high: PortRange)
    ensures AllExpected(instances, users, range, [], high) == multiset{}
    decreases |instances|
  {
    if instances != [] {
      NowhereExpected(instances[..|instances| - 1], users, range, high);
    }
  }

  /**
   * Instances are partitioned over the machines. Taken together, the
   * descriptions of any set of machines publish each instance that lives on
   * one of them, has an address and has an owner with a subnet in the range,
   * exactly once and under that owner, and they publish nothing else.
   */
  lemma {:induction false} InstancesArePartitioned(db: Database, range: Prefix, high: PortRange, machines: seq<int>,
                                                   controller: int)
    requires DistinctUsers(db.users)
    requires forall i, j :: 0 <= i < j < |machines| ==> machines[i] != machines[j]
    ensures Everywhere(db, range, high, machines, controller)
            == AllExpected(db.instances, db.users, range, machines, high)
    decreases |machines|
  {
    if machines == [] {
      NowhereExpected(db.instances, db.users, range, high);
    } else {
      var front, last := machines[..|machines| - 1], machines[|machines| - 1];
      assert machines == front + [last];
      InstancesArePartitioned(db, range, high, front, controller);
      DescribedIsOnMachine(db, range, high, last, controller);
      OnMachineIsExpected(db.users, range, last, db.instances, high);
      AllExpectedSplits(db.instances, db.users, range, front, last, high);
    }
  }
}
