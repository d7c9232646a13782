/** The claim list (`CLAIM_LIST`, src/state.rs:41): bLuna pulled in from liquidations,
    locked for `lock_period` after its timestamp, kept in ascending key order. It is
    appended to by `claim_liquidation`, drained from the front by `unlock`, and drained
    early from the front by the shortfall path of `withdraw_ust`. */
module ClaimQueue {
  import opened ContractErrors
  import opened Uint

  /** A `TokenRecord` under its u32 key; the timestamp is in nanoseconds. */
  datatype Claim = Claim(key: nat, amount: nat, timestamp: nat)

  function Sum(cs: seq<Claim>): nat {
    if cs == [] then 0 else cs[0].amount + Sum(cs[1..])
  }

  ghost predicate KeysIncreasing(cs: seq<Claim>) {
    forall i, j :: 0 <= i < j < |cs| ==> cs[i].key < cs[j].key
  }

  ghost predicate AmountsPositive(cs: seq<Claim>) {
    forall i :: 0 <= i < |cs| ==> 0 < cs[i].amount
  }

  /** The shape every reachable claim list has: keys strictly increasing and within u32,
      amounts positive, timestamps within u64. */
  ghost predicate WellFormed(cs: seq<Claim>) {
    KeysIncreasing(cs) && AmountsPositive(cs) &&
    forall i :: 0 <= i < |cs| ==> cs[i].key < U32 && cs[i].timestamp < U64
  }

  function Min(a: nat, b: nat): nat { if a <= b then a else b }

  lemma {:induction false} SumAppend(cs: seq<Claim>, c: Claim)
    ensures Sum(cs + [c]) == Sum(cs) + c.amount
  {
    if cs != [] {
      assert (cs + [c])[1..] == cs[1..] + [c];
      SumAppend(cs[1..], c);
    }
  }

  lemma {:induction false} SumSplit(cs: seq<Claim>, n: nat)
    requires n <= |cs|
    ensures Sum(cs) == Sum(cs[..n]) + Sum(cs[n..])
  {
    if n > 0 {
      SumSplit(cs[1..], n - 1);
      assert cs[..n][1..] == cs[1..][..n - 1];
      assert cs[1..][n - 1..] == cs[n..];
    }
  }

  // ----- claim_liquidation -----

  /** The key of a new record: one past the last key (a u32 `+ 1`, which panics at the
      top of the range), or 0 for an empty list. */
  function NextKey(cs: seq<Claim>): Result<nat> {
    if cs == [] then Ok(0)
    else if cs[|cs| - 1].key + 1 < U32 then Ok(cs[|cs| - 1].key + 1)
    else Err(Panic)
  }

  /** Appending a record under the next key keeps the list well formed and adds its
      amount to the total. */
  lemma AppendPreserves(cs: seq<Claim>, amount: nat, now: nat)
    requires WellFormed(cs) && 0 < amount && now < U64 && NextKey(cs).Ok?
    ensures var appended := cs + [Claim(NextKey(cs).value, amount, now)];
            WellFormed(appended) && Sum(appended) == Sum(cs) + amount &&
            appended[..|cs|] == cs
  {
    var c := Claim(NextKey(cs).value, amount, now);
    SumAppend(cs, c);
    var appended := cs + [c];
    forall i, j | 0 <= i < j < |appended| ensures appended[i].key < appended[j].key {
      if j == |cs| && i < |cs| - 1 {
        assert cs[i].key < cs[|cs| - 1].key;
      }
    }
  }

  // ----- unlock and query_unlockable -----

  /** The release test of (:679, :1025) in exact arithmetic. */
  predicate Releasable(c: Claim, lockPeriod: nat, now: nat) {
    c.timestamp + lockPeriod * NANOS_PER_SECOND <= now
  }

  datatype Unlocked = Unlocked(count: nat, total: nat)

  /** The loop of `unlock` (:677-685) from a running total: release records from the front
      while `timestamp + lock_period <= now`, stopping at the first that is not due. */
  function ScanUnlock(cs: seq<Claim>, lockPeriod: nat, now: nat, total: nat): (r: Result<Unlocked>)
    ensures r.Ok? ==> r.value.count <= |cs|
    decreases |cs|
  {
    if cs == [] then Ok(Unlocked(0, total))
    else
      var due :- PlusSeconds(cs[0].timestamp, lockPeriod);
      if due <= now then
        var t :- Add128(total, cs[0].amount);
        var rest :- ScanUnlock(cs[1..], lockPeriod, now, t);
        Ok(Unlocked(rest.count + 1, rest.total))
      else Ok(Unlocked(0, total))
  }

  function Shift(r: Result<Unlocked>, i: nat): Result<Unlocked> {
    if r.Ok? then Ok(Unlocked(r.value.count + i, r.value.total)) else r
  }

  /** `unlock`'s loop. */
  method UnlockScan(cs: seq<Claim>, lockPeriod: nat, now: nat) returns (r: Result<Unlocked>)
    ensures r == ScanUnlock(cs, lockPeriod, now, 0)
  {
    var total: nat := 0;
    var i := 0;
    while i < |cs|
      invariant i <= |cs|
      invariant ScanUnlock(cs, lockPeriod, now, 0) == Shift(ScanUnlock(cs[i..], lockPeriod, now, total), i)
    {
      var due := PlusSeconds(cs[i].timestamp, lockPeriod);
      if due.Err? {
        return Err(due.error);
      }
      if due.value <= now {
        if U128 <= total + cs[i].amount {
          return Err(Panic);
        }
        total := total + cs[i].amount;
        assert cs[i..][1..] == cs[i + 1..];
        i := i + 1;
      } else {
        break;
      }
    }
    return Ok(Unlocked(i, total));
  }

  /** What `unlock` releases is the longest prefix of due records, and their total. */
  lemma {:induction false} ScanUnlockPrefix(cs: seq<Claim>, lockPeriod: nat, now: nat, total: nat)
    requires ScanUnlock(cs, lockPeriod, now, total).Ok?
    ensures var u := ScanUnlock(cs, lockPeriod, now, total).value;
            u.count <= |cs| && u.total == total + Sum(cs[..u.count]) &&
            (forall k :: 0 <= k < u.count ==> Releasable(cs[k], lockPeriod, now)) &&
            (u.count < |cs| ==> !Releasable(cs[u.count], lockPeriod, now))
  {
    if cs != [] && cs[0].timestamp + lockPeriod * NANOS_PER_SECOND <= now {
      var t := total + cs[0].amount;
      ScanUnlockPrefix(cs[1..], lockPeriod, now, t);
      var u := ScanUnlock(cs, lockPeriod, now, total).value;
      assert cs[..u.count][1..] == cs[1..][..u.count - 1];
      forall k | 0 <= k < u.count ensures Releasable(cs[k], lockPeriod, now) {
        if k > 0 { assert cs[k] == cs[1..][k - 1]; }
      }
    }
  }

  /** The scan cannot panic while every due date and the released total stay in range. */
  lemma {:induction false} ScanUnlockSucceeds(cs: seq<Claim>, lockPeriod: nat, now: nat, total: nat)
    requires total + Sum(cs) < U128
    requires forall k :: 0 <= k < |cs| ==> cs[k].timestamp + lockPeriod * NANOS_PER_SECOND < U64
    ensures ScanUnlock(cs, lockPeriod, now, total).Ok?
  {
    if cs != [] {
      assert cs[0].timestamp + lockPeriod * NANOS_PER_SECOND < U64;
      ScanUnlockSucceeds(cs[1..], lockPeriod, now, total + cs[0].amount);
    }
  }

  ghost predicate TimestampsOrdered(cs: seq<Claim>) {
    forall i, j :: 0 <= i < j < |cs| ==> cs[i].timestamp <= cs[j].timestamp
  }

  /** With records in timestamp order (as appending at the block time makes them), the
      prefix scan releases exactly the due records and keeps exactly the others. */
  lemma UnlockReleasesExactlyDue(cs: seq<Claim>, lockPeriod: nat, now: nat)
    requires TimestampsOrdered(cs)
    requires ScanUnlock(cs, lockPeriod, now, 0).Ok?
    ensures var u := ScanUnlock(cs, lockPeriod, now, 0).value;
            forall k :: 0 <= k < |cs| ==> (k < u.count <==> Releasable(cs[k], lockPeriod, now))
  {
    ScanUnlockPrefix(cs, lockPeriod, now, 0);
  }

  /** A record stamped no earlier than the last one keeps the list in timestamp order. */
  lemma AppendKeepsOrder(cs: seq<Claim>, c: Claim)
    requires TimestampsOrdered(cs)
    requires cs != [] ==> cs[|cs| - 1].timestamp <= c.timestamp
    ensures TimestampsOrdered(cs + [c])
  {
    var r := cs + [c];
    forall i, j | 0 <= i < j < |r| ensures r[i].timestamp <= r[j].timestamp {
      if j == |cs| {
        assert r[i] == cs[i] && r[|cs| - 1] == cs[|cs| - 1];
      }
    }
  }

  /** Dropping a prefix keeps the rest in timestamp order. */
  lemma SuffixKeepsOrder(cs: seq<Claim>, n: nat)
    requires TimestampsOrdered(cs) && n <= |cs|
    ensures TimestampsOrdered(cs[n..])
  {
    assert forall i :: 0 <= i < |cs[n..]| ==> cs[n..][i] == cs[n + i];
  }

  /** Three records stamped T1 < T2 < T3: unlocking at T2 + lock_period releases the first
      two, for their combined amount, and keeps the third. */
  lemma FifoScenario(c1: Claim, c2: Claim, c3: Claim, lockPeriod: nat)
    requires c1.timestamp < c2.timestamp < c3.timestamp
    requires c3.timestamp + lockPeriod * NANOS_PER_SECOND < U64
    requires c1.amount + c2.amount < U128
    ensures ScanUnlock([c1, c2, c3], lockPeriod, c2.timestamp + lockPeriod * NANOS_PER_SECOND, 0) ==
            Ok(Unlocked(2, c1.amount + c2.amount))
  {
    var now := c2.timestamp + lockPeriod * NANOS_PER_SECOND;
    assert [c1, c2, c3][1..] == [c2, c3] && [c2, c3][1..] == [c3];
    assert ScanUnlock([c3], lockPeriod, now, c1.amount + c2.amount) == Ok(Unlocked(0, c1.amount + c2.amount));
  }

  /** `query_unlockable` (:1020-1030): looks at the oldest record only. */
  function Unlockable(cs: seq<Claim>, lockPeriod: nat, now: nat): Result<bool> {
    if cs == [] then Ok(false)
    else
      var due :- PlusSeconds(cs[0].timestamp, lockPeriod);
      Ok(due <= now)
  }

  /** Looking at the oldest record is enough: with positive amounts the query answers
      true exactly when `unlock` would release something. */
  lemma UnlockableAgrees(cs: seq<Claim>, lockPeriod: nat, now: nat)
    requires AmountsPositive(cs)
    requires ScanUnlock(cs, lockPeriod, now, 0).Ok?
    ensures Unlockable(cs, lockPeriod, now) == Ok(ScanUnlock(cs, lockPeriod, now, 0).value.total > 0)
  {
    ScanUnlockPrefix(cs, lockPeriod, now, 0);
    var u := ScanUnlock(cs, lockPeriod, now, 0).value;
    if u.count > 0 {
      SumSplit(cs[..u.count], 1);
      assert cs[..u.count][..1] == [cs[0]];
    } else if cs != [] {
      assert cs[..0] == [];
    }
  }

  // ----- the forced release of withdraw_ust -----

  datatype Release = Release(claims: seq<Claim>, released: nat)

  /** The loop of (:470-492) from a running total: draw `excess` from the records in key
      order, removing each record it covers whole and lowering the first it does not
      cover; stop as soon as nothing is left to draw. */
  function ForcedRelease(cs: seq<Claim>, excess: nat, acc: nat): Result<Release>
    decreases |cs|
  {
    if cs == [] then Ok(Release([], acc))
    else if excess >= cs[0].amount then
      var unlocked :- Add128(acc, cs[0].amount);
      if excess - cs[0].amount == 0 then Ok(Release(cs[1..], unlocked))
      else ForcedRelease(cs[1..], excess - cs[0].amount, unlocked)
    else
      var unlocked :- Add128(acc, excess);
      Ok(Release([cs[0].(amount := cs[0].amount - excess)] + cs[1..], unlocked))
  }

  /** `r` is `cs` with some records removed from the front and the amount of the first
      remaining one possibly lowered (but not to zero); everything after it is untouched. */
  ghost predicate TrimmedFrom(r: seq<Claim>, cs: seq<Claim>) {
    |r| <= |cs| &&
    (r != [] ==>
       var k := |cs| - |r|;
       r[1..] == cs[k + 1..] && r[0].key == cs[k].key && r[0].timestamp == cs[k].timestamp &&
       0 < r[0].amount <= cs[k].amount)
  }

  /** The forced release draws exactly min(excess, Σ amounts), takes it from the front of
      the list, and cannot overflow while the list total fits Uint128. */
  lemma {:induction false} ForcedReleaseSpec(cs: seq<Claim>, excess: nat, acc: nat)
    requires AmountsPositive(cs) && acc + Sum(cs) < U128
    ensures ForcedRelease(cs, excess, acc).Ok?
    ensures var r := ForcedRelease(cs, excess, acc).value;
            r.released == acc + Min(excess, Sum(cs)) &&
            Sum(r.claims) == Sum(cs) - Min(excess, Sum(cs)) &&
            TrimmedFrom(r.claims, cs)
  {
    if cs != [] {
      var a := cs[0].amount;
      if excess >= a && excess - a != 0 {
        ForcedReleaseSpec(cs[1..], excess - a, acc + a);
        var r := ForcedRelease(cs, excess, acc).value;
        if r.claims != [] {
          var k := |cs| - |r.claims|;
          assert cs[1..][k - 1 + 1..] == cs[k + 1..];
          assert cs[1..][k - 1] == cs[k];
        }
      }
    }
  }

  /** Trimming the front keeps a well-formed list well formed. */
  lemma TrimmedWellFormed(r: seq<Claim>, cs: seq<Claim>)
    requires WellFormed(cs) && TrimmedFrom(r, cs)
    ensures WellFormed(r)
  {
    if r != [] {
      var k := |cs| - |r|;
      forall i | 1 <= i < |r| ensures r[i] == cs[k + i] {
        assert r[i] == r[1..][i - 1];
      }
    }
  }

  /** Trimming the front keeps the list in timestamp order. */
  lemma TrimmedKeepsOrder(r: seq<Claim>, cs: seq<Claim>)
    requires TimestampsOrdered(cs) && TrimmedFrom(r, cs)
    ensures TimestampsOrdered(r)
  {
    if r != [] {
      var k := |cs| - |r|;
      forall i | 0 <= i < |r| ensures r[i].timestamp == cs[k + i].timestamp {
        if 0 < i {
          assert r[i] == r[1..][i - 1];
        }
      }
    }
  }

  /** The forced-release loop. */
  method ReleaseClaims(claims: seq<Claim>, excess: nat) returns (r: Result<Release>)
    ensures r == ForcedRelease(claims, excess, 0)
  {
    var rest: nat := excess;
    var unlocked: nat := 0;
    var i := 0;
    while i < |claims|
      invariant i <= |claims|
      invariant ForcedRelease(claims[i..], rest, unlocked) == ForcedRelease(claims, excess, 0)
    {
      var claim := claims[i];
      assert claims[i..][1..] == claims[i + 1..];
      if rest >= claim.amount {
        if U128 <= unlocked + claim.amount {
          return Err(Panic);
        }
        rest := rest - claim.amount;
        unlocked := unlocked + claim.amount;
        i := i + 1;
        if rest == 0 {
          return Ok(Release(claims[i..], unlocked));
        }
      } else {
        if U128 <= unlocked + rest {
          return Err(Panic);
        }
        unlocked := unlocked + rest;
        return Ok(Release([claim.(amount := claim.amount - rest)] + claims[i + 1..], unlocked));
      }
    }
    return Ok(Release([], unlocked));
  }
}
