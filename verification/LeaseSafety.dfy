/**
 * What the one lease row gives the processes that compete for it
 * (crates/store/src/runners.rs): in every run, one controller at a time. All
 * processes use one time to live, and the clock the transactions read never
 * goes back.
 */
module LeaseSafety {
  import opened Options
  import opened ControllerStore

  datatype Action =
    | Wait(span: nat)
    | Take(holder: string)
    | Extend(holder: string)
    | Release(holder: string)

  /** `grants` is every lease ever handed out; `void` are those given up. */
  datatype State = State(row: LeaseRow, now: int, grants: seq<Lease>, void: set<nat>)

  function OwnGrants(s: State, holder: string): set<nat> {
    set i | 0 <= i < |s.grants| && s.grants[i].holder == holder
  }

  function Grant(s: State, lease: Option<Lease>): State {
    if lease.None? then s else s.(row := RowOf(lease.value), grants := s.grants + [lease.value])
  }

  function Do(s: State, a: Action, ttl: nat): State {
    match a
    case Wait(span) => s.(now := s.now + span)
    case Take(holder) => Grant(s, Acquire(s.row, holder, s.now, ttl))
    case Extend(holder) => Grant(s, Renew(s.row, holder, s.now, ttl))
    case Release(holder) =>
      if s.row.holder != Some(holder) then s
      else s.(row := LeaseRow(None, s.row.epoch, None), void := s.void + OwnGrants(s, holder))
  }

  function Run(s: State, actions: seq<Action>, ttl: nat): State
    decreases |actions|
  {
    if actions == [] then s else Do(Run(s, actions[..|actions| - 1], ttl), actions[|actions| - 1], ttl)
  }

  predicate Initial(s: State) {
    s.row.holder.None? && s.row.expiresAt.None? && s.grants == [] && s.void == {}
  }

  /** A holder may still act on this lease. */
  predicate InForce(s: State, i: nat) {
    i < |s.grants| && i !in s.void && s.now < s.grants[i].expiresAt
  }

  ghost predicate Inv(s: State, ttl: nat) {
    && (s.row.holder.Some? <==> s.row.expiresAt.Some?)
    && (forall i :: 0 <= i < |s.grants| ==> s.grants[i].epoch <= s.row.epoch && s.grants[i].expiresAt <= s.now + ttl)
    && (forall i: nat :: InForce(s, i) ==>
          && s.row.holder == Some(s.grants[i].holder)
          && s.grants[i].expiresAt <= s.row.expiresAt.value)
    && (forall i :: 0 <= i < |s.grants| && s.grants[i].epoch == s.row.epoch && s.row.holder.Some? ==>
          s.row.holder.value == s.grants[i].holder)
    && (forall i, j :: 0 <= i < j < |s.grants| ==>
          && s.grants[i].epoch <= s.grants[j].epoch
          && (s.grants[i].epoch == s.grants[j].epoch ==> s.grants[i].holder == s.grants[j].holder))
  }

  lemma StepKeepsInv(s: State, a: Action, ttl: nat)
    requires Inv(s, ttl)
    ensures Inv(Do(s, a, ttl), ttl)
  {
    var s' := Do(s, a, ttl);
    forall i: nat | InForce(s', i)
      ensures s'.row.holder == Some(s'.grants[i].holder) && s'.grants[i].expiresAt <= s'.row.expiresAt.value
    {
      if i < |s.grants| {
        assert InForce(s, i);
      }
    }
  }

  lemma {:induction false} RunKeepsInv(s: State, actions: seq<Action>, ttl: nat)
    requires Initial(s)
    ensures Inv(Run(s, actions, ttl), ttl)
    decreases |actions|
  {
    if actions != [] {
      RunKeepsInv(s, actions[..|actions| - 1], ttl);
      StepKeepsInv(Run(s, actions[..|actions| - 1], ttl), actions[|actions| - 1], ttl);
    }
  }

  /** Leases in force at one moment all belong to one holder. */
  lemma LeaseIsExclusive(s: State, actions: seq<Action>, ttl: nat, i: nat, j: nat)
    requires Initial(s) && InForce(Run(s, actions, ttl), i) && InForce(Run(s, actions, ttl), j)
    ensures Run(s, actions, ttl).grants[i].holder == Run(s, actions, ttl).grants[j].holder
  {
    RunKeepsInv(s, actions, ttl);
  }

  /** An epoch names one holder for good, and epochs go up in the order leases were granted. */
  lemma EpochNamesHolder(s: State, actions: seq<Action>, ttl: nat, i: nat, j: nat)
    requires Initial(s) && i < j < |Run(s, actions, ttl).grants|
    ensures
      var a, b := Run(s, actions, ttl).grants[i], Run(s, actions, ttl).grants[j];
      a.epoch <= b.epoch && (a.epoch == b.epoch ==> a.holder == b.holder)
  {
    RunKeepsInv(s, actions, ttl);
  }

  /**
   * A lost lease is never won back by renewing: once another holder was
   * granted the lease, this one's renewals fail until it takes a new epoch.
   */
  lemma LostLeaseIsNotRenewed(s: State, actions: seq<Action>, ttl: nat, i: nat, j: nat)
    requires Initial(s) && i < j < |Run(s, actions, ttl).grants|
    requires
      var t := Run(s, actions, ttl);
      && t.grants[i].holder != t.grants[j].holder
      && (forall k :: j < k < |t.grants| ==> t.grants[k].holder != t.grants[i].holder)
    ensures
      var t := Run(s, actions, ttl);
      Renew(t.row, t.grants[i].holder, t.now, ttl) == None
  {
    RowIsLastGrant(s, actions, ttl);
  }

  lemma {:induction false} RowIsLastGrant(s: State, actions: seq<Action>, ttl: nat)
    requires Initial(s)
    ensures
      var t := Run(s, actions, ttl);
      && (t.row.holder.Some? <==> t.grants != [] && |t.grants| - 1 !in t.void)
      && (t.row.holder.Some? ==> t.row == RowOf(t.grants[|t.grants| - 1]))
      && (forall i :: i in t.void ==> i < |t.grants|)
    decreases |actions|
  {
    if actions != [] {
      RowIsLastGrant(s, actions[..|actions| - 1], ttl);
    }
  }

  /** What a process that only reads the lease is told: the last one granted, unless it was given up. */
  lemma ReadIsLastGrant(s: State, actions: seq<Action>, ttl: nat)
    requires Initial(s)
    ensures
      var t := Run(s, actions, ttl);
      Current(t.row) == if t.grants != [] && |t.grants| - 1 !in t.void then Some(t.grants[|t.grants| - 1]) else None
  {
    RunKeepsInv(s, actions, ttl);
    RowIsLastGrant(s, actions, ttl);
  }

  /**
   * When the lease is to be had. In every run, a process that asks for the
   * lease gets it, under an epoch above all before and for the whole time to
   * live, unless another holder's lease is in force: a lease that ran out or
   * was given up is taken over.
   */
  lemma TakenExactlyWhen(s: State, actions: seq<Action>, ttl: nat, holder: string)
    requires Initial(s)
    ensures
      var t := Run(s, actions, ttl);
      var t' := Do(t, Take(holder), ttl);
      && (t'.grants == t.grants <==> exists i: nat :: InForce(t, i) && t.grants[i].holder != holder)
      && (t'.grants != t.grants ==>
            && t'.grants == t.grants + [Lease(holder, t.row.epoch + 1, t.now + ttl)]
            && forall i :: 0 <= i < |t.grants| ==> t.grants[i].epoch <= t.row.epoch)
  {
    RunKeepsInv(s, actions, ttl);
    RowIsLastGrant(s, actions, ttl);
    var t := Run(s, actions, ttl);
    if HeldByOther(t.row, holder, t.now) {
      assert InForce(t, |t.grants| - 1);
    } else {
      var t' := Do(t, Take(holder), ttl);
      assert |t'.grants| == |t.grants| + 1;
    }
  }

  /**
   * When it can be renewed: exactly when the last lease granted is the
   * holder's own, was not given up, and sorts after now as text. The epoch
   * stays and the whole time to live begins anew.
   */
  lemma RenewedExactlyWhen(s: State, actions: seq<Action>, ttl: nat, holder: string)
    requires Initial(s)
    ensures
      var t := Run(s, actions, ttl);
      var t' := Do(t, Extend(holder), ttl);
      var n := |t.grants|;
      && (t'.grants != t.grants <==>
            && n > 0 && n - 1 !in t.void && t.grants[n - 1].holder == holder
            && TextAfter(t.grants[n - 1].expiresAt, t.now))
      && (t'.grants != t.grants ==> t'.grants == t.grants + [Lease(holder, t.grants[n - 1].epoch, t.now + ttl)])
  {
    RowIsLastGrant(s, actions, ttl);
    var t := Run(s, actions, ttl);
    var t' := Do(t, Extend(holder), ttl);
    if Renew(t.row, holder, t.now, ttl).Some? {
      assert |t'.grants| == |t.grants| + 1;
    }
  }

  /**
   * A holder that releases gives everything up: nothing it was granted is in
   * force any more, and whoever asks next gets the lease under the next epoch.
   */
  lemma ReleasedIsFree(s: State, actions: seq<Action>, holder: string, next: string, ttl: nat)
    requires Initial(s) && Run(s, actions, ttl).row.holder == Some(holder)
    ensures
      var before := Run(s, actions, ttl);
      var after := Do(before, Release(holder), ttl);
      && (forall i: nat :: i < |after.grants| ==> !InForce(after, i))
      && Do(after, Take(next), ttl).grants == before.grants + [Lease(next, before.row.epoch + 1, before.now + ttl)]
  {
    RunKeepsInv(s, actions, ttl);
    var before := Run(s, actions, ttl);
    var after := Do(before, Release(holder), ttl);
    forall i: nat | i < |after.grants| ensures !InForce(after, i) {
      if InForce(before, i) {
        assert i in OwnGrants(before, holder);
      }
    }
  }
}
