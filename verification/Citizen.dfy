/**
 Citizen staking: coins move between spendable balance and stake, rewards accrue by the second and are
 paid from the treasury, and a claim the treasury cannot cover in full forfeits nothing.
 */
module Citizen {
  import opened Arithmetic
  import opened Common
  import opened Ledger

  const SecondsPerYear: nat := 31_536_000
  /** Basis points times seconds: what amount * rate * elapsed is divided by. */
  const D: nat := 315_360_000_000

  datatype Stake = Stake(amount: nat, stakedAt: int, lastClaimAt: int)

  datatype Citizens = Citizens(balances: map<Address, nat>, stakes: map<Address, Stake>, treasury: Address,
    rateBps: nat)

  datatype Result = Ok(paid: nat) | Failed

  // ---------------------------------------------------------------- formulas

  /** Accrued reward, in uint64 arithmetic. */
  function Pending(stake: Stake, rateBps: nat, now: int): nat
  {
    var elapsed := now - stake.lastClaimAt;
    if rateBps == 0 || stake.amount == 0 || elapsed <= 0 then 0
    else Floor(Wrap(Wrap(stake.amount * rateBps) * elapsed), D)
  }

  /** Seconds of accrual a payout covers: the reward formula inverted, in uint64 arithmetic. */
  function Covered(stake: Stake, payout: nat, rateBps: nat): nat
  {
    var perSecond := Wrap(stake.amount * rateBps);
    if stake.amount == 0 || rateBps == 0 || perSecond == 0 then 0
    else Floor(Wrap(Wrap(payout * 10000) * SecondsPerYear), perSecond)
  }

  function PendingFor(c: Citizens, addr: Address, now: int): nat
  {
    if addr in c.stakes then Pending(c.stakes[addr], c.rateBps, now) else 0
  }

  /** The stake after a claim that paid `payout` of `pending`. */
  function Advanced(stake: Stake, pending: nat, payout: nat, rateBps: nat, now: int): Stake
  {
    if payout == pending then stake.(lastClaimAt := now)
    else stake.(lastClaimAt := stake.lastClaimAt + Covered(stake, payout, rateBps))
  }

  // ---------------------------------------------------------------- the three operations

  datatype Effect = Effect(state: Citizens, result: Result)

  function StakeCoins(c: Citizens, addr: Address, amount: nat, now: int): Effect
  {
    if amount == 0 || At(c.balances, addr) < amount || addr !in c.balances then Effect(c, Failed) else
    var held := if addr in c.stakes then c.stakes[addr] else Stake(0, 0, 0);
    var started := if held.stakedAt == 0 then held.(stakedAt := now, lastClaimAt := now) else held;
    if SafeAdd(started.amount, amount).None? then Effect(c, Failed)
    else Effect(c.(balances := c.balances[addr := c.balances[addr] - amount],
                   stakes := c.stakes[addr := started.(amount := started.amount + amount)]), Ok(0))
  }

  /** When the credit would overflow, the stake has already been reduced and stays so. */
  function UnstakeCoins(c: Citizens, addr: Address, amount: nat): Effect
  {
    if amount == 0 || addr !in c.stakes || c.stakes[addr].amount == 0 ||
      amount > c.stakes[addr].amount then Effect(c, Failed) else
    var left := c.stakes[addr].amount - amount;
    var reduced := c.(stakes := if left == 0 then c.stakes - {addr}
      else c.stakes[addr := c.stakes[addr].(amount := left)]);
    match SafeAdd(At(c.balances, addr), amount)
    case None => Effect(reduced, Failed)
    case Some(credited) => Effect(reduced.(balances := c.balances[addr := credited]), Ok(0))
  }

  /** Pay min(pending, treasury), rolling the treasury debit back if the credit overflows. */
  function ClaimRewards(c: Citizens, addr: Address, now: int): Effect
  {
    if c.treasury == "" || c.rateBps == 0 then Effect(c, Failed) else
    var pending := PendingFor(c, addr, now);
    var payout := Min(pending, At(c.balances, c.treasury));
    if payout == 0 then Effect(c, Ok(0)) else
    var debited := c.balances[c.treasury := At(c.balances, c.treasury) - payout];
    match SafeAdd(At(debited, addr), payout)
    case None => Effect(c, Failed)
    case Some(credited) =>
      Effect(c.(balances := debited[addr := credited],
                stakes := c.stakes[addr := Advanced(c.stakes[addr], pending, payout, c.rateBps, now)]), Ok(payout))
  }

  class CitizenState {
    var balances: map<Address, nat>
    var stakes: map<Address, Stake>
    const treasury: Address
    const rateBps: nat

    function Value(): Citizens
      reads this
    {
      Citizens(balances, stakes, treasury, rateBps)
    }

    constructor (c: Citizens)
      ensures Value() == c
    {
      balances, stakes, treasury, rateBps := c.balances, c.stakes, c.treasury, c.rateBps;
    }

    method StakeCitizen(addr: Address, amount: nat, now: int) returns (result: Result)
      modifies this
      ensures Effect(Value(), result) == StakeCoins(old(Value()), addr, amount, now)
    {
      if amount == 0 {
        return Failed;
      }
      if addr !in balances || balances[addr] < amount {
        return Failed;
      }
      balances := balances[addr := balances[addr] - amount];
      var stake := if addr in stakes then stakes[addr] else Stake(0, 0, 0);
      if stake.stakedAt == 0 {
        stake := stake.(stakedAt := now, lastClaimAt := now);
      }
      var next := SafeAdd(stake.amount, amount);
      if next.None? {
        balances := balances[addr := balances[addr] + amount];
        assert balances == old(balances);
        return Failed;
      }
      stakes := stakes[addr := stake.(amount := next.value)];
      return Ok(0);
    }

    method UnstakeCitizen(addr: Address, amount: nat) returns (result: Result)
      modifies this
      ensures Effect(Value(), result) == UnstakeCoins(old(Value()), addr, amount)
    {
      if amount == 0 || addr !in stakes || stakes[addr].amount == 0 {
        return Failed;
      }
      var stake := stakes[addr];
      if amount > stake.amount {
        return Failed;
      }
      stake := stake.(amount := stake.amount - amount);
      if stake.amount == 0 {
        stakes := stakes - {addr};
      } else {
        stakes := stakes[addr := stake];
      }
      var credited := SafeAdd(At(balances, addr), amount);
      if credited.None? {
        return Failed;
      }
      balances := balances[addr := credited.value];
      return Ok(0);
    }

    method ClaimCitizenRewards(addr: Address, now: int) returns (result: Result)
      modifies this
      ensures Effect(Value(), result) == ClaimRewards(old(Value()), addr, now)
    {
      if treasury == "" || rateBps == 0 {
        return Failed;
      }
      var pending := PendingFor(Value(), addr, now);
      if pending == 0 {
        return Ok(0);
      }
      var payout := pending;
      if At(balances, treasury) < payout {
        payout := At(balances, treasury);
      }
      if payout == 0 {
        return Ok(0);
      }
      balances := balances[treasury := At(balances, treasury) - payout];
      var credited := SafeAdd(At(balances, addr), payout);
      if credited.None? {
        balances := balances[treasury := At(balances, treasury) + payout];
        assert balances == old(balances);
        return Failed;
      }
      balances := balances[addr := credited.value];
      var stake := stakes[addr];
      if payout == pending {
        stake := stake.(lastClaimAt := now);
      } else {
        stake := stake.(lastClaimAt := stake.lastClaimAt + Covered(stake, payout, rateBps));
      }
      stakes := stakes[addr := stake];
      return Ok(payout);
    }
  }

  // ---------------------------------------------------------------- conservation

  ghost function Staked(c: Citizens): map<Address, nat>
  {
    map a | a in c.stakes :: c.stakes[a].amount
  }

  /** All coins, spendable and staked. */
  ghost function Coins(c: Citizens): nat { MapSum(c.balances) + MapSum(Staked(c)) }

  lemma StakeConserves(c: Citizens, addr: Address, amount: nat, now: int)
    ensures Coins(StakeCoins(c, addr, amount, now).state) == Coins(c)
  {
    var e := StakeCoins(c, addr, amount, now);
    if e.result.Ok? {
      MapSumUpdate(c.balances, addr, c.balances[addr] - amount);
      var staked := e.state.stakes[addr].amount;
      assert Staked(e.state) == Staked(c)[addr := staked];
      MapSumUpdate(Staked(c), addr, staked);
    }
  }

  lemma UnstakeMoves(c: Citizens, addr: Address, amount: nat)
    requires addr in c.stakes && 0 < amount <= c.stakes[addr].amount
    ensures MapSum(Staked(UnstakeCoins(c, addr, amount).state)) + amount == MapSum(Staked(c))
  {
    var e, left := UnstakeCoins(c, addr, amount), c.stakes[addr].amount - amount;
    MapSumUpdate(Staked(c), addr, left);
    if left == 0 {
      MapSumRemove(Staked(c), addr);
      assert Staked(e.state) == Staked(c) - {addr};
    } else {
      assert Staked(e.state) == Staked(c)[addr := left];
    }
  }

  /** Unstaking loses coins in exactly one case: a valid request whose credit would overflow. */
  lemma UnstakeConserves(c: Citizens, addr: Address, amount: nat)
    ensures Coins(UnstakeCoins(c, addr, amount).state) == Coins(c) <==>
            !(addr in c.stakes && 0 < amount <= c.stakes[addr].amount && At(c.balances, addr) + amount >= U64)
  {
    if addr in c.stakes && 0 < amount <= c.stakes[addr].amount {
      UnstakeMoves(c, addr, amount);
      if At(c.balances, addr) + amount < U64 {
        MapSumUpdate(c.balances, addr, At(c.balances, addr) + amount);
      }
    }
  }

  lemma UnstakeCanLoseCoins(stakedAt: int)
    ensures var c := Citizens(map["a" := U64 - 1], map["a" := Stake(1, stakedAt, stakedAt)], "t", 1);
            Coins(UnstakeCoins(c, "a", 1).state) != Coins(c)
  {
    var c := Citizens(map["a" := U64 - 1], map["a" := Stake(1, stakedAt, stakedAt)], "t", 1);
    UnstakeConserves(c, "a", 1);
  }

  /** A claim moves coins from treasury to claimant and nothing else, even if they are one account. */
  lemma ClaimConserves(c: Citizens, addr: Address, now: int)
    ensures Coins(ClaimRewards(c, addr, now).state) == Coins(c)
    ensures var e := ClaimRewards(c, addr, now);
            e.result.Ok? ==> e.result.paid <= At(c.balances, c.treasury) && e.result.paid <= PendingFor(c, addr, now)
  {
    var e := ClaimRewards(c, addr, now);
    if e.result.Ok? && e.result.paid > 0 {
      var payout := e.result.paid;
      var debited := c.balances[c.treasury := At(c.balances, c.treasury) - payout];
      MapSumUpdate(c.balances, c.treasury, At(c.balances, c.treasury) - payout);
      MapSumUpdate(debited, addr, At(debited, addr) + payout);
      assert Staked(e.state) == Staked(c);
    }
  }

  // ---------------------------------------------------------------- what each operation does

  /** Nothing but the entries of `a` and `b` differs. */
  ghost predicate OnlyTouches(c: Citizens, d: Citizens, a: Address, b: Address)
  {
    && d.treasury == c.treasury && d.rateBps == c.rateBps
    && d.balances - {a, b} == c.balances - {a, b} && d.stakes - {a} == c.stakes - {a}
  }

  /** A stake that holds coins: what `addr` has staked, and since when it accrues. */
  function Held(c: Citizens, addr: Address): Stake
  {
    if addr in c.stakes then c.stakes[addr] else Stake(0, 0, 0)
  }

  /**
   Staking succeeds exactly when the coins are there and the stake does not overflow. A fresh stake
   accrues from now on; an old one keeps its clocks.
   */
  lemma StakesExactly(c: Citizens, addr: Address, amount: nat, now: int)
    ensures var e, held := StakeCoins(c, addr, amount, now), Held(c, addr);
            && (e.result.Ok? <==>
                  0 < amount && addr in c.balances && amount <= c.balances[addr] && held.amount + amount < U64)
            && (e.result.Failed? ==> e.state == c)
            && (e.result.Ok? ==>
                  && OnlyTouches(c, e.state, addr, addr) && At(e.state.balances, addr) == At(c.balances, addr) - amount
                  && addr in e.state.stakes && e.state.stakes[addr].amount == held.amount + amount
                  && (held.stakedAt == 0 ==>
                        e.state.stakes[addr].stakedAt == now && Pending(e.state.stakes[addr], c.rateBps, now) == 0)
                  && (held.stakedAt == 0 ==> e.state.stakes[addr].lastClaimAt == now)
                  && (held.stakedAt != 0 ==> e.state.stakes[addr] == held.(amount := held.amount + amount)))
  {
  }

  /** Unstaking succeeds exactly for what is staked and fits the balance; an emptied stake is gone. */
  lemma UnstakesExactly(c: Citizens, addr: Address, amount: nat)
    ensures var e, held := UnstakeCoins(c, addr, amount), Held(c, addr);
            && (e.result.Ok? <==> 0 < amount <= held.amount && At(c.balances, addr) + amount < U64)
            && (e.result.Ok? ==>
                  && OnlyTouches(c, e.state, addr, addr) && At(e.state.balances, addr) == At(c.balances, addr) + amount
                  && Held(e.state, addr) == if amount == held.amount then Stake(0, 0, 0)
                       else held.(amount := held.amount - amount))
  {
  }

  /** A claim pays what is pending or what the treasury holds, whichever is less, out of the treasury. */
  lemma ClaimsExactly(c: Citizens, addr: Address, now: int)
    ensures var e, due := ClaimRewards(c, addr, now), Min(PendingFor(c, addr, now), At(c.balances, c.treasury));
            && (e.result.Ok? <==>
                  && c.treasury != "" && c.rateBps > 0
                  && (due == 0 || At(c.balances, addr) + (if addr == c.treasury then 0 else due) < U64))
            && (e.result.Failed? ==> e.state == c)
            && (e.result.Ok? ==>
                  && e.result.paid == due && OnlyTouches(c, e.state, addr, c.treasury)
                  && (addr != c.treasury ==>
                        && At(e.state.balances, addr) == At(c.balances, addr) + due
                        && At(e.state.balances, c.treasury) == At(c.balances, c.treasury) - due)
                  && (addr == c.treasury ==> At(e.state.balances, addr) == At(c.balances, addr)))
  {
  }

  // ---------------------------------------------------------------- accrual

  /** amount * rate * elapsed fits in uint64. */
  predicate Fits(stake: Stake, rateBps: nat, now: int)
  {
    now > stake.lastClaimAt ==> stake.amount * rateBps * (now - stake.lastClaimAt) < U64
  }

  /** What a stake accrues per second, in units of 1/D coin: amount * rate in uint64. */
  function PerSecond(stake: Stake, rateBps: nat): (p: nat)
    ensures p < U64 && p <= stake.amount * rateBps
  {
    Wrap(stake.amount * rateBps)
  }

  /** The reward is the exact accrual, exactly when amount * rate * elapsed does not wrap. */
  lemma AccrualExactly(stake: Stake, rateBps: nat, now: int)
    requires rateBps > 0 && stake.amount > 0 && now > stake.lastClaimAt
    ensures Pending(stake, rateBps, now) == Floor(stake.amount * rateBps * (now - stake.lastClaimAt), D) <==>
            Fits(stake, rateBps, now)
  {
    WrapMul(stake.amount * rateBps, now - stake.lastClaimAt);
    FloorOfWrap(stake.amount * rateBps * (now - stake.lastClaimAt), D);
  }

  /** One percent of the supply, staked a year at the 6.5% the networks ship with, earns a tenth of its reward. */
  lemma AccrualWraps()
    ensures var stake := Stake(1_000_000_000, 1, 1);
            && Pending(stake, 650, 1 + SecondsPerYear) == 6_505_758
            && Floor(stake.amount * 650 * SecondsPerYear, D) == 65_000_000
  {
    assert Wrap(1_000_000_000 * 650 * SecondsPerYear) == 20_498_400_000_000_000_000 - U64;
  }

  /** A payout is worth no more than the accrual it is taken from, wrapped or not. */
  lemma PayoutBacked(stake: Stake, rateBps: nat, now: int, payout: nat)
    requires payout <= Pending(stake, rateBps, now) && Pending(stake, rateBps, now) > 0
    ensures now > stake.lastClaimAt && PerSecond(stake, rateBps) > 0
    ensures payout * D <= Wrap(PerSecond(stake, rateBps) * (now - stake.lastClaimAt)) < U64
  {
    var p, e := PerSecond(stake, rateBps), now - stake.lastClaimAt;
    FloorBounds(Wrap(p * e), D);
    MulLe(payout, Pending(stake, rateBps, now), D);
    assert p == 0 ==> p * e == 0;
  }

  lemma CoveredFormula(stake: Stake, rateBps: nat, payout: nat)
    requires PerSecond(stake, rateBps) > 0 && payout * D < U64
    ensures Covered(stake, payout, rateBps) == Floor(payout * D, PerSecond(stake, rateBps))
  {
    assert payout * 10000 <= payout * D;
    assert payout * 10000 * SecondsPerYear == payout * D;
  }

  /** The inverse of the reward formula never wraps, is exact, and never covers more than elapsed. */
  lemma CoveredExact(stake: Stake, rateBps: nat, now: int, payout: nat)
    requires payout <= Pending(stake, rateBps, now) && Pending(stake, rateBps, now) > 0
    ensures var p, c := PerSecond(stake, rateBps), Covered(stake, payout, rateBps);
            && p > 0 && payout * D < U64 && c == Floor(payout * D, p)
            && p * c <= payout * D < p * (c + 1)
            && c <= now - stake.lastClaimAt
  {
    var p, e := PerSecond(stake, rateBps), now - stake.lastClaimAt;
    PayoutBacked(stake, rateBps, now, payout);
    CoveredFormula(stake, rateBps, payout);
    InverseBounds(p, e, payout * D);
  }

  lemma InverseBounds(p: nat, e: nat, n: nat)
    requires p > 0 && n <= p * e
    ensures var c := Floor(n, p); p * c <= n < p * (c + 1) && c <= e
  {
    var c := Floor(n, p);
    FloorBounds(n, p);
    assert c * p == p * c && (c + 1) * p == p * (c + 1) && e * p == p * e;
    Cancel(c, e, p);
  }

  /** A partial claim forfeits nothing and never moves the accrual clock past now, whatever wraps. */
  lemma PartialClaimForfeitsNothing(stake: Stake, rateBps: nat, now: int, payout: nat)
    requires payout < Pending(stake, rateBps, now)
    ensures var after := Advanced(stake, Pending(stake, rateBps, now), payout, rateBps, now);
            && stake.lastClaimAt <= after.lastClaimAt <= now
            && Pending(after, rateBps, now) >= Pending(stake, rateBps, now) - payout
  {
    CoveredExact(stake, rateBps, now, payout);
    PayoutBacked(stake, rateBps, now, payout);
    RemainderBacked(PerSecond(stake, rateBps), now - stake.lastClaimAt, Covered(stake, payout, rateBps),
                    Pending(stake, rateBps, now), payout);
  }

  /** What `before - payout` is worth is still covered by the seconds left on the clock. */
  lemma RemainderBacked(p: nat, e: nat, c: nat, before: nat, payout: nat)
    requires p > 0 && c <= e && payout < before == Floor(Wrap(p * e), D) && p * c <= payout * D
    ensures c < e && Floor(Wrap(p * (e - c)), D) >= before - payout
  {
    FloorBounds(Wrap(p * e), D);
    WorthLeft(before, payout, Wrap(p * e), p * c);
    Distributes(e - c, c, p);
    WrapLess(p * e, p * c);
    FloorIsMost(Wrap(p * (e - c)), D, before - payout);
    StrictCancel(c, e, p);
  }

  lemma WorthLeft(before: nat, payout: nat, accrued: nat, spent: nat)
    requires payout < before && before * D <= accrued && spent <= payout * D
    ensures spent < accrued && (before - payout) * D <= accrued - spent
  {
  }

  /** Taking no more than the remainder leaves the rest of it. */
  lemma WrapLess(n: nat, k: nat)
    requires k <= Wrap(n)
    ensures k <= n && Wrap(n - k) == Wrap(n) - k
  {
    assert n - k == Wrap(n) - k + U64 * (n / U64);
    WrapShift(Wrap(n) - k, n / U64);
  }

  // ---------------------------------------------------------------- claim sequences

  /** One claim against a stake nobody adds to or takes from; `funds` is the treasury's balance then. */
  datatype Claim = Claim(now: int, funds: nat)

  datatype Account = Account(stake: Stake, paid: nat, partials: nat)

  function Settle(a: Account, rateBps: nat, claim: Claim): Account
  {
    var pending := Pending(a.stake, rateBps, claim.now);
    var payout := Min(pending, claim.funds);
    if payout == 0 then a
    else Account(Advanced(a.stake, pending, payout, rateBps, claim.now), a.paid + payout,
      a.partials + if payout == pending then 0 else 1)
  }

  /** Settling is what a claim does to the claimant's stake. */
  lemma ClaimSettles(c: Citizens, addr: Address, now: int, a: Account)
    requires addr in c.stakes && a.stake == c.stakes[addr] && ClaimRewards(c, addr, now).result.Ok?
    ensures var e := ClaimRewards(c, addr, now);
            var b := Settle(a, c.rateBps, Claim(now, At(c.balances, c.treasury)));
            addr in e.state.stakes && e.state.stakes[addr] == b.stake && e.result.paid == b.paid - a.paid
  {
  }

  function SettleAll(a: Account, rateBps: nat, claims: seq<Claim>): Account
    decreases |claims|
  {
    if claims == [] then a else SettleAll(Settle(a, rateBps, claims[0]), rateBps, claims[1..])
  }

  /** What a claim pays is covered by the seconds it consumes, one extra second for a partial one. */
  lemma SettleBound(a: Account, rateBps: nat, claim: Claim)
    ensures var b := Settle(a, rateBps, claim);
            && b.stake.amount == a.stake.amount && b.stake.lastClaimAt >= a.stake.lastClaimAt
            && b.paid >= a.paid && b.partials >= a.partials
            && var seconds := b.stake.lastClaimAt - a.stake.lastClaimAt + b.partials - a.partials;
               D * (b.paid - a.paid) <= PerSecond(a.stake, rateBps) * seconds
  {
    var b := Settle(a, rateBps, claim);
    if b.paid > a.paid {
      CoveredExact(a.stake, rateBps, claim.now, b.paid - a.paid);
      PayoutBacked(a.stake, rateBps, claim.now, b.paid - a.paid);
    }
  }

  /** Over any claim sequence, what was paid is backed by accrued seconds plus one per partial claim. */
  lemma {:induction false} ClaimsBacked(a: Account, rateBps: nat, claims: seq<Claim>)
    ensures var b := SettleAll(a, rateBps, claims);
            && b.stake.amount == a.stake.amount && b.stake.lastClaimAt >= a.stake.lastClaimAt
            && b.paid >= a.paid && b.partials >= a.partials
            && var seconds := b.stake.lastClaimAt - a.stake.lastClaimAt + b.partials - a.partials;
               D * (b.paid - a.paid) <= PerSecond(a.stake, rateBps) * seconds <= a.stake.amount * rateBps * seconds
    decreases |claims|
  {
    var b := SettleAll(a, rateBps, claims);
    var p := PerSecond(a.stake, rateBps);
    if claims != [] {
      var m := Settle(a, rateBps, claims[0]);
      SettleBound(a, rateBps, claims[0]);
      ClaimsBacked(m, rateBps, claims[1..]);
      AddUp(p, m.paid - a.paid, b.paid - m.paid,
            m.stake.lastClaimAt - a.stake.lastClaimAt + m.partials - a.partials,
            b.stake.lastClaimAt - m.stake.lastClaimAt + b.partials - m.partials);
    }
    MulLe(p, a.stake.amount * rateBps, b.stake.lastClaimAt - a.stake.lastClaimAt + b.partials - a.partials);
  }

  lemma AddUp(p: nat, x: nat, y: nat, s: nat, t: nat)
    requires D * x <= p * s && D * y <= p * t
    ensures D * (x + y) <= p * (s + t)
  {
    assert p * (s + t) == p * s + p * t;
  }
}
