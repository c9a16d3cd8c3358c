/**
 * The two rows of the controller database that order all remote work: the
 * controller lease and the dispatch generation of each object
 * (crates/store/src/runners.rs). Every operation is one write transaction.
 */
module ControllerStore {
  import opened Options

  /** The holder and expiry are both absent when nobody holds the lease. */
  datatype LeaseRow = LeaseRow(holder: Option<string>, epoch: int, expiresAt: Option<int>)

  datatype Lease = Lease(holder: string, epoch: int, expiresAt: int)

  datatype Database = Database(lease: LeaseRow, generations: map<string, int>)

  /** How far the epoch lifts the first generation of an object. */
  const EPOCH_SPAN: int := 1_000_000

  function Max(a: int, b: int): int { if a >= b then a else b }

  /** The lease is taken by another holder and has not run out. */
  predicate HeldByOther(row: LeaseRow, holder: string, now: int) {
    row.holder.Some? && row.expiresAt.Some? && row.holder.value != holder && row.expiresAt.value > now
  }

  function Acquire(row: LeaseRow, holder: string, now: int, ttl: int): Option<Lease> {
    if HeldByOther(row, holder, now) then None else Some(Lease(holder, row.epoch + 1, now + ttl))
  }

  // ------------------------------------------------------------------
  // Times compared as text
  // ------------------------------------------------------------------

  const NS_PER_SEC: int := 1_000_000_000
  const FRACTION_DIGITS: nat := 9

  function Pow10(k: nat): (p: nat)
    ensures p > 0
  {
    if k == 0 then 1 else 10 * Pow10(k - 1)
  }

  /**
   * Which of two fractions of a second comes later as text. A fraction is
   * written without trailing zeros and none of it if it is zero, and the
   * letter that ends a time sorts after every digit and the point.
   */
  predicate FractionAfter(f: nat, g: nat, k: nat)
    requires f < Pow10(k) && g < Pow10(k)
    decreases k
  {
    if f == g then false
    else if f == 0 then true
    else if g == 0 then false
    else
      var unit := Pow10(k - 1);
      if f / unit != g / unit then f / unit > g / unit else FractionAfter(f % unit, g % unit, k - 1)
  }

  /** One written fraction is the beginning of the other. */
  predicate FractionBegins(f: nat, g: nat, k: nat)
    requires f < Pow10(k) && g < Pow10(k)
    decreases k
  {
    if f == g || g == 0 then false
    else if f == 0 then true
    else
      var unit := Pow10(k - 1);
      f / unit == g / unit && FractionBegins(f % unit, g % unit, k - 1)
  }

  lemma LeadingDigit(f: nat, g: nat, unit: nat)
    requires unit > 0 && f / unit >= g / unit
    ensures f / unit > g / unit ==> f > g
    ensures f / unit == g / unit ==> (f > g <==> f % unit > g % unit) && (f == g <==> f % unit == g % unit)
  {
    assert f == f / unit * unit + f % unit && g == g / unit * unit + g % unit;
    if f / unit > g / unit {
      assert f / unit * unit >= (g / unit + 1) * unit;
      assert (g / unit + 1) * unit == g / unit * unit + unit;
    }
  }

  lemma {:induction false} FractionOrderIsRightExactlyWhen(f: nat, g: nat, k: nat)
    requires f < Pow10(k) && g < Pow10(k)
    ensures (FractionAfter(f, g, k) <==> f > g) <==> !FractionBegins(f, g, k) && !FractionBegins(g, f, k)
    decreases k
  {
    if f != g && f != 0 && g != 0 {
      var unit := Pow10(k - 1);
      if f / unit >= g / unit {
        LeadingDigit(f, g, unit);
      } else {
        LeadingDigit(g, f, unit);
      }
      if f / unit == g / unit {
        FractionOrderIsRightExactlyWhen(f % unit, g % unit, k - 1);
      }
    }
  }

  lemma FractionFits(t: int)
    ensures 0 <= t % NS_PER_SEC < Pow10(FRACTION_DIGITS)
  {
    assert Pow10(3) == 1_000;
    assert Pow10(6) == 1_000_000;
    assert Pow10(9) == 1_000_000_000;
  }

  /** Whether the text of one time sorts after that of another; the seconds are of one width. */
  predicate TextAfter(a: int, b: int) {
    FractionFits(a);
    FractionFits(b);
    if a / NS_PER_SEC != b / NS_PER_SEC then a > b
    else FractionAfter(a % NS_PER_SEC, b % NS_PER_SEC, FRACTION_DIGITS)
  }

  /** The two times are in one second, and one fraction as written begins the other. */
  predicate Misread(a: int, b: int) {
    FractionFits(a);
    FractionFits(b);
    && a / NS_PER_SEC == b / NS_PER_SEC
    && (|| FractionBegins(a % NS_PER_SEC, b % NS_PER_SEC, FRACTION_DIGITS)
        || FractionBegins(b % NS_PER_SEC, a % NS_PER_SEC, FRACTION_DIGITS))
  }

  /** Text compares two times rightly exactly when neither fraction, as written in one second, begins the other. */
  lemma TextOrderIsRightExactlyWhen(a: int, b: int)
    ensures (TextAfter(a, b) <==> a > b) <==> !Misread(a, b)
  {
    FractionFits(a);
    FractionFits(b);
    if a / NS_PER_SEC == b / NS_PER_SEC {
      FractionOrderIsRightExactlyWhen(a % NS_PER_SEC, b % NS_PER_SEC, FRACTION_DIGITS);
    }
  }

  // ------------------------------------------------------------------
  // The transactions
  // ------------------------------------------------------------------

  /** The renewal compares expiry and now as text, in the database. */
  function Renew(row: LeaseRow, holder: string, now: int, ttl: int): Option<Lease> {
    if row.holder == Some(holder) && row.expiresAt.Some? && TextAfter(row.expiresAt.value, now)
    then Some(Lease(holder, row.epoch, now + ttl))
    else None
  }

  function RowOf(lease: Lease): LeaseRow { LeaseRow(Some(lease.holder), lease.epoch, Some(lease.expiresAt)) }

  function Current(row: LeaseRow): Option<Lease> {
    if row.holder.Some? && row.expiresAt.Some?
    then Some(Lease(row.holder.value, row.epoch, row.expiresAt.value))
    else None
  }

  function NextGeneration(generations: map<string, int>, id: string, epoch: int): (g: int)
    ensures g > epoch * EPOCH_SPAN
    ensures id in generations ==> g > generations[id]
  {
    var floor := epoch * EPOCH_SPAN;
    if id in generations then Max(generations[id] + 1, floor + 1) else floor + 1
  }

  class Store {
    var lease: LeaseRow
    var generations: map<string, int>

    function View(): Database
      reads this
    {
      Database(lease, generations)
    }

    method AcquireLease(holder: string, now: int, ttl: int) returns (r: Option<Lease>)
      modifies this`lease
      ensures r == Acquire(old(lease), holder, now, ttl)
      ensures lease == if r.Some? then RowOf(r.value) else old(lease)
    {
      match (lease.holder, lease.expiresAt) {
        case (Some(other), Some(expires)) =>
          if other != holder && expires > now {
            return None;
          }
        case _ =>
      }
      lease := LeaseRow(Some(holder), lease.epoch + 1, Some(now + ttl));
      r := Some(Lease(holder, lease.epoch, now + ttl));
    }

    method RenewLease(holder: string, now: int, ttl: int) returns (r: Option<Lease>)
      modifies this`lease
      ensures r == Renew(old(lease), holder, now, ttl)
      ensures lease == if r.Some? then RowOf(r.value) else old(lease)
    {
      if lease.holder != Some(holder) || lease.expiresAt.None? || !TextAfter(lease.expiresAt.value, now) {
        return None;
      }
      lease := lease.(expiresAt := Some(now + ttl));
      r := Some(Lease(holder, lease.epoch, now + ttl));
    }

    method NextDispatchGeneration(id: string, epoch: int) returns (g: int)
      modifies this`generations
      ensures g == NextGeneration(old(generations), id, epoch)
      ensures generations == old(generations)[id := g]
    {
      var floor := epoch * EPOCH_SPAN;
      g := floor + 1;
      if id in generations {
        g := Max(generations[id] + 1, g);
      }
      generations := generations[id := g];
    }
  }

  /**
   * What the floor is worth after an older database was restored. The
   * restored rows can hold anything, so the next generation rises above one
   * that a runner already accepted for every such content exactly when that
   * generation lies at or under the floor of the new epoch.
   */
  lemma FloorLiftsExactlyWhen(id: string, epoch: int, accepted: int)
    ensures (forall restored: map<string, int> :: NextGeneration(restored, id, epoch) > accepted)
            <==> accepted <= epoch * 1_000_000
  {
    var empty: map<string, int> := map[];
    assert NextGeneration(empty, id, epoch) == epoch * EPOCH_SPAN + 1;
  }
}
