/**
 The automated market maker: constant-product pools with a 0.3% fee, all in uint64 arithmetic whose
 sums and products may wrap: who that hurts, who it cannot hurt, and exactly when.
 */
module Dex {
  import opened Arithmetic
  import opened Common
  import opened Ledger

  /** Machine subtraction. */
  function Sub64(a: nat, b: nat): (r: nat)
    ensures b <= a < U64 ==> r == a - b
  {
    (a - b) % U64
  }

  // ---------------------------------------------------------------- integer square root

  ghost predicate IsFloorSqrt(x: nat, r: nat) { r * r <= x < (r + 1) * (r + 1) }

  function Isqrt(x: nat): (r: nat)
    ensures IsFloorSqrt(x, r)
  {
    if x == 0 then 0 else
    var r := Isqrt(x - 1);
    if (r + 1) * (r + 1) <= x then r + 1 else r
  }

  lemma FloorSqrtUnique(x: nat, r: nat, s: nat)
    requires IsFloorSqrt(x, r) && IsFloorSqrt(x, s)
    ensures r == s
  {
    if r < s { SquareMonotone(r + 1, s); }
    if s < r { SquareMonotone(s + 1, r); }
  }

  lemma SquareMonotone(a: nat, b: nat)
    requires a <= b
    ensures a * a <= b * b
  {
    MulLe(a, b, a);
    MulLe(a, b, b);
  }

  /** Any Newton step from above or below lands at or above the root. */
  lemma NewtonFromAbove(x: nat, y: nat)
    requires y > 0
    ensures var z := (x / y + y) / 2; x < (z + 1) * (z + 1)
  {
    var q := x / y;
    var z := (q + y) / 2;
    var s, d := q + 1 + y, q + 1 - y;
    assert x < (q + 1) * y;
    assert s * s - d * d == 4 * ((q + 1) * y);
    assert d * d >= 0;
    SquareMonotone(s, 2 * (z + 1));
    assert (2 * (z + 1)) * (2 * (z + 1)) == 4 * ((z + 1) * (z + 1));
  }

  lemma SumBelowProduct(q: nat, z: nat)
    requires q >= 1 && z >= 1
    ensures q + z <= q * z + 1
  {
    MulLe(1, q, z - 1);
    assert q * (z - 1) == q * z - q;
  }

  lemma NewtonFits(x: nat, z: nat)
    requires 1 <= z <= x
    ensures 1 <= x / z && x / z + z <= x + 1
  {
    var q := x / z;
    assert x == q * z + x % z;
    StrictCancel(0, q, z);
    SumBelowProduct(q, z);
  }

  function Newton(x: nat, y: nat): nat
    requires y > 0
  {
    (x / y + y) / 2
  }

  /** A guess from which the loop may go on: no larger than `x`, no smaller than its root. */
  ghost predicate Guess(x: nat, y: nat) { 1 <= y <= x && x < (y + 1) * (y + 1) }

  lemma NewtonStarts(x: nat)
    requires x > 0
    ensures Guess(x, x) && Newton(x, x) == (x + 1) / 2
  {
    assert x / x == 1;
    MulLe(1, x + 1, x + 1);
  }

  /** One turn of the loop: a smaller guess is again a guess, and the next one does not overflow. */
  lemma NewtonStep(x: nat, y: nat)
    requires Guess(x, y) && x < U64 - 1 && Newton(x, y) < y
    ensures var z := Newton(x, y); Guess(x, z) && x / z + z < U64
  {
    NewtonFromAbove(x, y);
    NewtonFits(x, y);
    NewtonFits(x, Newton(x, y));
  }

  lemma NewtonStops(x: nat, y: nat)
    requires Guess(x, y) && Newton(x, y) >= y
    ensures y == Isqrt(x)
  {
    MulLe(y, x / y, y);
    assert x / y * y <= x;
    FloorSqrtUnique(x, y, Isqrt(x));
  }

  /** The next guess as uint64 computes it. */
  function Half(x: nat, y: nat): (z: nat)
    requires y > 0
    ensures x / y + y < U64 ==> z == Newton(x, y)
  {
    Wrap(x / y + y) / 2
  }

  /** Floor square root, except at the largest uint64, where `x+1` wraps and the loop divides by zero. */
  method SqrtUint64(x: nat) returns (r: Option<nat>)
    requires x < U64
    ensures r == if x == U64 - 1 then None else Some(Isqrt(x))
  {
    if x == 0 {
      return Some(0);
    }
    var z: nat, y: nat := Wrap(x + 1) / 2, x;
    if z == 0 {
      return None;
    }
    NewtonStarts(x);
    while z < y
      invariant Guess(x, y) && z == Newton(x, y)
      decreases y
    {
      NewtonStep(x, y);
      y := z;
      z := Half(x, z);
    }
    NewtonStops(x, y);
    return Some(y);
  }

  // ---------------------------------------------------------------- one pool

  datatype Pool = Pool(syn: nat, asset: nat, total: nat, shares: map<Address, nat>)

  const EmptyPool := Pool(0, 0, 0, map[])

  /** Constant product with 0.3% of the input kept as fee; None on overflow or empty reserves. */
  function AmountOut(amountIn: nat, reserveIn: nat, reserveOut: nat): Option<nat>
  {
    var withFee, scaled := amountIn * 997, reserveIn * 1000;
    if amountIn == 0 || reserveIn == 0 || reserveOut == 0 then None
    else if withFee >= U64 || withFee * reserveOut >= U64 || scaled >= U64 || scaled + withFee >= U64 then None
    else Some(Floor(withFee * reserveOut, scaled + withFee))
  }

  /** Shares a later deposit mints: the smaller of its two proportions, products in uint64. */
  function Minted(p: Pool, syn: nat, asset: nat): nat
    requires p.syn > 0 && p.asset > 0
  {
    Min(Floor(Wrap(syn * p.total), p.syn), Floor(Wrap(asset * p.total), p.asset))
  }

  /** Shares the first deposit mints; None where the square root crashes. */
  function FirstMinted(syn: nat, asset: nat): Option<nat>
  {
    var product := Wrap(syn * asset);
    if product == U64 - 1 then None else Some(if Isqrt(product) == 0 then syn else Isqrt(product))
  }

  method FirstShares(syn: nat, asset: nat) returns (minted: Option<nat>)
    ensures minted == FirstMinted(syn, asset)
  {
    var root := SqrtUint64(Wrap(syn * asset));
    if root.None? {
      return None;
    }
    return Some(if root.value == 0 then syn else root.value);
  }

  datatype AddResult = Added(pool: Pool, minted: nat) | Refused | Crashed

  function Add(p: Pool, syn: nat, asset: nat, provider: Address): AddResult
  {
    if p.total == 0 && FirstMinted(syn, asset).None? then Crashed
    else if p.total > 0 && (p.syn == 0 || p.asset == 0) then Refused
    else
      var minted := if p.total == 0 then FirstMinted(syn, asset).value else Minted(p, syn, asset);
      if minted == 0 then Refused
      else Added(Deposit(p, syn, asset, minted, provider), minted)
  }

  function Deposit(p: Pool, syn: nat, asset: nat, minted: nat, provider: Address): Pool
  {
    Pool(Wrap(p.syn + syn), Wrap(p.asset + asset), Wrap(p.total + minted),
         p.shares[provider := Wrap(At(p.shares, provider) + minted)])
  }

  datatype RemoveResult = Removed(pool: Pool, synOut: nat, assetOut: nat) | NotRemoved

  function Remove(p: Pool, shares: nat, provider: Address): RemoveResult
  {
    if shares == 0 || p.total == 0 || p.syn == 0 || p.asset == 0 || At(p.shares, provider) < shares then NotRemoved else
    var synOut, assetOut := Floor(Wrap(shares * p.syn), p.total), Floor(Wrap(shares * p.asset), p.total);
    if synOut == 0 || assetOut == 0 then NotRemoved else
    var left := At(p.shares, provider) - shares;
    Removed(Pool(Sub64(p.syn, synOut), Sub64(p.asset, assetOut), Sub64(p.total, shares),
                 if left == 0 then p.shares - {provider} else p.shares[provider := left]), synOut, assetOut)
  }

  datatype SwapResult = Swapped(pool: Pool, amountOut: nat) | NotSwapped

  function Swap(p: Pool, amountIn: nat, fromSyn: bool): SwapResult
  {
    var (reserveIn, reserveOut) := if fromSyn then (p.syn, p.asset) else (p.asset, p.syn);
    var out := AmountOut(amountIn, reserveIn, reserveOut);
    if out.None? || SafeAdd(reserveIn, amountIn).None? then NotSwapped
    else if fromSyn then Swapped(p.(syn := reserveIn + amountIn, asset := Sub64(reserveOut, out.value)), out.value)
    else Swapped(p.(asset := reserveIn + amountIn, syn := Sub64(reserveOut, out.value)), out.value)
  }

  // ---------------------------------------------------------------- the object

  class DEX {
    var pools: map<string, Pool>

    constructor ()
      ensures pools == map[]
    {
      pools := map[];
    }

    /** A refused first deposit still leaves an empty pool behind. */
    method AddLiquidity(assetId: string, syn: nat, asset: nat, provider: Address) returns (result: AddResult)
      modifies this
      ensures var p := if assetId in old(pools) then old(pools)[assetId] else EmptyPool;
              && result == Add(p, syn, asset, provider)
              && pools == old(pools)[assetId := if result.Added? then result.pool else p]
    {
      if assetId !in pools {
        pools := pools[assetId := EmptyPool];
      }
      var p := pools[assetId];
      var minted;
      if p.total == 0 {
        var first := FirstShares(syn, asset);
        if first.None? {
          return Crashed;
        }
        minted := first.value;
      } else {
        if p.syn == 0 || p.asset == 0 {
          return Refused;
        }
        var bySyn, byAsset := Floor(Wrap(syn * p.total), p.syn), Floor(Wrap(asset * p.total), p.asset);
        minted := if bySyn < byAsset then bySyn else byAsset;
      }
      if minted == 0 {
        return Refused;
      }
      p := Deposit(p, syn, asset, minted, provider);
      pools := pools[assetId := p];
      return Added(p, minted);
    }

    method RemoveLiquidity(assetId: string, shares: nat, provider: Address) returns (result: RemoveResult)
      modifies this
      ensures result == if assetId in old(pools) then Remove(old(pools)[assetId], shares, provider) else NotRemoved
      ensures pools == if result.Removed? then old(pools)[assetId := result.pool] else old(pools)
    {
      if assetId !in pools {
        return NotRemoved;
      }
      var p := pools[assetId];
      if shares == 0 || p.total == 0 || p.syn == 0 || p.asset == 0 {
        return NotRemoved;
      }
      if At(p.shares, provider) < shares {
        return NotRemoved;
      }
      var synOut, assetOut := Floor(Wrap(shares * p.syn), p.total), Floor(Wrap(shares * p.asset), p.total);
      if synOut == 0 || assetOut == 0 {
        return NotRemoved;
      }
      var left := At(p.shares, provider) - shares;
      p := p.(shares := p.shares[provider := left]);
      if left == 0 {
        p := p.(shares := p.shares - {provider});
        assert p.shares == old(pools)[assetId].shares - {provider};
      }
      p := p.(total := Sub64(p.total, shares), syn := Sub64(p.syn, synOut), asset := Sub64(p.asset, assetOut));
      pools := pools[assetId := p];
      return Removed(p, synOut, assetOut);
    }

    method SwapTokens(assetId: string, amountIn: nat, fromSyn: bool) returns (result: SwapResult)
      modifies this
      ensures result == if assetId in old(pools) then Swap(old(pools)[assetId], amountIn, fromSyn) else NotSwapped
      ensures pools == if result.Swapped? then old(pools)[assetId := result.pool] else old(pools)
    {
      if assetId !in pools {
        return NotSwapped;
      }
      var p := pools[assetId];
      var out;
      if fromSyn {
        out := AmountOut(amountIn, p.syn, p.asset);
        if out.None? || SafeAdd(p.syn, amountIn).None? {
          return NotSwapped;
        }
        p := p.(syn := p.syn + amountIn, asset := Sub64(p.asset, out.value));
      } else {
        out := AmountOut(amountIn, p.asset, p.syn);
        if out.None? || SafeAdd(p.asset, amountIn).None? {
          return NotSwapped;
        }
        p := p.(asset := p.asset + amountIn, syn := Sub64(p.syn, out.value));
      }
      pools := pools[assetId := p];
      return Swapped(p, out.value);
    }
  }

  // ---------------------------------------------------------------- per-share liquidity

  /** Reserves and shares are uint64, and nobody's shares exceed those issued. */
  ghost predicate PoolOk(p: Pool)
  {
    p.syn < U64 && p.asset < U64 && p.total < U64 && MapSum(p.shares) <= p.total
  }

  function K(p: Pool): nat { p.syn * p.asset }

  /** Reserves per share, squared: K / total^2 has not fallen from `p` to `q`. */
  ghost predicate NotDiluted(p: Pool, q: Pool)
  {
    K(q) * (p.total * p.total) >= K(p) * (q.total * q.total)
  }

  lemma Regroup(a: nat, b: nat, t: nat)
    ensures (a * t) * (b * t) == (a * b) * (t * t)
  {
  }

  /** Two reserves that each kept their value per share keep the product's too. */
  lemma ReservesKept(p: Pool, q: Pool)
    requires q.syn * p.total >= p.syn * q.total && q.asset * p.total >= p.asset * q.total
    ensures NotDiluted(p, q)
  {
    ProductLe(p.syn * q.total, q.syn * p.total, p.asset * q.total, q.asset * p.total);
    Regroup(p.syn, p.asset, q.total);
    Regroup(q.syn, q.asset, p.total);
  }

  /** A proportion computed in uint64 never exceeds the exact one, wrapped or not. */
  lemma ProportionBelow(a: nat, b: nat, d: nat)
    requires d > 0
    ensures Floor(Wrap(a * b), d) * d <= a * b
  {
    FloorBounds(Wrap(a * b), d);
  }

  /** The additions of a deposit stay within uint64. */
  predicate Fits(p: Pool, syn: nat, asset: nat)
    requires p.syn > 0 && p.asset > 0
  {
    p.syn + syn < U64 && p.asset + asset < U64 && p.total + Minted(p, syn, asset) < U64
  }

  /** The deposit is booked: shares were added, and neither reserve lost value per share. */
  predicate Booked(p: Pool, q: Pool)
  {
    q.total > p.total && q.syn * p.total >= p.syn * q.total && q.asset * p.total >= p.asset * q.total
  }

  /** Minted shares never exceed either proportion, wrapped or not. */
  lemma MintedBelow(p: Pool, syn: nat, asset: nat)
    requires p.syn > 0 && p.asset > 0
    ensures var m := Minted(p, syn, asset); m * p.syn <= syn * p.total && m * p.asset <= asset * p.total
  {
    var m := Minted(p, syn, asset);
    ProportionBelow(syn, p.total, p.syn);
    ProportionBelow(asset, p.total, p.asset);
    MulLe(m, Floor(Wrap(syn * p.total), p.syn), p.syn);
    MulLe(m, Floor(Wrap(asset * p.total), p.asset), p.asset);
  }

  lemma AddKeeps(p: Pool, syn: nat, asset: nat, provider: Address)
    requires PoolOk(p) && p.total > 0 && Add(p, syn, asset, provider).Added? && Fits(p, syn, asset)
    ensures var q := Add(p, syn, asset, provider).pool; PoolOk(q) && Booked(p, q) && NotDiluted(p, q)
    ensures var m := Add(p, syn, asset, provider).minted; m * p.syn <= syn * p.total && m * p.asset <= asset * p.total
  {
    var m := Minted(p, syn, asset);
    var q := Add(p, syn, asset, provider).pool;
    MintedBelow(p, syn, asset);
    DepositSide(p.syn, syn, p.total, m);
    DepositSide(p.asset, asset, p.total, m);
    ReservesKept(p, q);
    MapSumBounds(p.shares, provider);
    MapSumUpdate(p.shares, provider, At(p.shares, provider) + m);
  }

  /** A deposit is booked exactly when none of its sums wraps. */
  lemma BookedExactly(p: Pool, syn: nat, asset: nat, provider: Address)
    requires PoolOk(p) && p.total > 0 && syn < U64 && asset < U64 && Add(p, syn, asset, provider).Added?
    ensures Booked(p, Add(p, syn, asset, provider).pool) <==> Fits(p, syn, asset)
  {
    if Fits(p, syn, asset) {
      AddKeeps(p, syn, asset, provider);
    } else {
      var q := Add(p, syn, asset, provider).pool;
      if p.total + Minted(p, syn, asset) < U64 {
        if p.syn + syn >= U64 { LostReserve(p.syn, q.syn, p.total, q.total); }
        if p.asset + asset >= U64 { LostReserve(p.asset, q.asset, p.total, q.total); }
      } else {
        MintedSmall(p, syn, asset);
      }
    }
  }

  lemma LostReserve(reserve: nat, left: nat, total: nat, more: nat)
    requires left < reserve && 0 < total <= more
    ensures left * total < reserve * more
  {
    MulLe(left + 1, reserve, total);
    MulLe(total, more, reserve);
    Distributes(left, 1, total);
  }

  /** The shares of one deposit are a uint64, so a wrapped total is smaller than it was. */
  lemma MintedSmall(p: Pool, syn: nat, asset: nat)
    requires p.syn > 0 && p.asset > 0 && p.total < U64 <= p.total + Minted(p, syn, asset)
    ensures Wrap(p.total + Minted(p, syn, asset)) < p.total
  {
    var w := Wrap(syn * p.total);
    FloorBounds(w, p.syn);
    MulLe(1, p.syn, Floor(w, p.syn));
  }

  lemma DepositSide(reserve: nat, added: nat, total: nat, m: nat)
    requires m * reserve <= added * total
    ensures (reserve + added) * total >= reserve * (total + m)
  {
    assert (reserve + added) * total == reserve * total + added * total;
    assert reserve * (total + m) == reserve * total + m * reserve;
  }

  lemma RemoveKeeps(p: Pool, shares: nat, provider: Address)
    requires PoolOk(p) && Remove(p, shares, provider).Removed?
    ensures var r := Remove(p, shares, provider);
            && PoolOk(r.pool) && NotDiluted(p, r.pool)
            && r.synOut <= p.syn && r.assetOut <= p.asset && shares <= p.total
            && r.pool.syn == p.syn - r.synOut && r.pool.asset == p.asset - r.assetOut &&
                 r.pool.total == p.total - shares
  {
    var r := Remove(p, shares, provider);
    MapSumBounds(p.shares, provider);
    WithdrawSide(p.syn, shares, p.total, r.synOut);
    WithdrawSide(p.asset, shares, p.total, r.assetOut);
    ReservesKept(p, r.pool);
    MapSumRemove(p.shares, provider);
    MapSumUpdate(p.shares, provider, At(p.shares, provider) - shares);
  }

  lemma WithdrawSide(reserve: nat, shares: nat, total: nat, out: nat)
    requires shares <= total && total > 0 && out == Floor(Wrap(shares * reserve), total)
    ensures out <= reserve && (reserve - out) * total >= reserve * (total - shares)
  {
    ProportionBelow(shares, reserve, total);
    MulLe(shares, total, reserve);
    assert shares * reserve <= reserve * total;
    Cancel(out, reserve, total);
    assert (reserve - out) * total == reserve * total - out * total;
    assert reserve * (total - shares) == reserve * total - shares * reserve;
  }

  /** A swap never lowers the product of the reserves and never empties one. */
  lemma AmountOutKeepsProduct(amountIn: nat, reserveIn: nat, reserveOut: nat)
    requires AmountOut(amountIn, reserveIn, reserveOut).Some?
    ensures var out := AmountOut(amountIn, reserveIn, reserveOut).value;
            out < reserveOut && (reserveIn + amountIn) * (reserveOut - out) >= reserveIn * reserveOut
  {
    var f, d := amountIn * 997, reserveIn * 1000 + amountIn * 997;
    var out := AmountOut(amountIn, reserveIn, reserveOut).value;
    FloorBounds(f * reserveOut, d);
    assert out * d <= f * reserveOut;
    assert d * reserveOut == reserveIn * reserveOut * 1000 + f * reserveOut;
    assert reserveIn * reserveOut > 0;
    StrictCancel(out, reserveOut, d);
    FeeSide(amountIn, reserveIn, reserveOut, out);
  }

  lemma FeeSide(x: nat, s: nat, a: nat, out: nat)
    requires out * (s * 1000 + x * 997) <= (x * 997) * a && out < a
    ensures (s + x) * (a - out) >= s * a
  {
    assert out * (s * 1000 + x * 997) == 1000 * (out * s) + 997 * (out * x);
    assert (x * 997) * a == 997 * (x * a);
    assert x * (a - out) == x * a - out * x;
    assert x * (a - out) >= 0;
    assert 1000 * (out * s) <= 997 * (x * (a - out));
    assert out * s <= x * (a - out);
    assert (s + x) * (a - out) == s * a - out * s + x * (a - out);
  }

  lemma SwapKeeps(p: Pool, amountIn: nat, fromSyn: bool)
    requires PoolOk(p) && Swap(p, amountIn, fromSyn).Swapped?
    ensures var q, out := Swap(p, amountIn, fromSyn).pool, Swap(p, amountIn, fromSyn).amountOut;
            && PoolOk(q) && q.total == p.total && K(q) >= K(p) && NotDiluted(p, q) && q.syn > 0 && q.asset > 0
            && q.shares == p.shares
            && (fromSyn ==> q.syn == p.syn + amountIn && out < p.asset && q.asset == p.asset - out)
            && (!fromSyn ==> q.asset == p.asset + amountIn && out < p.syn && q.syn == p.syn - out)
  {
    var q := Swap(p, amountIn, fromSyn).pool;
    if fromSyn {
      AmountOutKeepsProduct(amountIn, p.syn, p.asset);
    } else {
      AmountOutKeepsProduct(amountIn, p.asset, p.syn);
    }
    MulLe(K(p), K(q), p.total * p.total);
  }

  // ---------------------------------------------------------------- and not a unit less

  /** The quote is the greatest output that keeps the product once the fee is held back. */
  lemma QuoteIsMost(x: nat, s: nat, a: nat, y: nat)
    requires AmountOut(x, s, a).Some? && y <= a
    ensures y <= AmountOut(x, s, a).value <==> (s * 1000 + x * 997) * (a - y) >= s * 1000 * a
  {
    var d, f := s * 1000 + x * 997, x * 997;
    FloorIsMost(f * a, d, y);
    assert d * (a - y) == d * a - y * d;
    Distributes(s * 1000, f, a);
  }

  /** A proportion computed in uint64 is the exact one exactly when the product does not wrap. */
  lemma ProportionExactly(a: nat, b: nat, d: nat)
    requires 0 < d < U64
    ensures Floor(Wrap(a * b), d) == Floor(a * b, d) <==> a * b < U64
  {
    FloorOfWrap(a * b, d);
  }

  /** What a withdrawal of `shares` should pay out of `reserve`, and the shares a deposit should mint. */
  function Worth(shares: nat, reserve: nat, total: nat): nat
    requires total > 0
  {
    Floor(shares * reserve, total)
  }

  function FairMint(p: Pool, syn: nat, asset: nat): nat
    requires p.syn > 0 && p.asset > 0
  {
    Min(Worth(syn, p.total, p.syn), Worth(asset, p.total, p.asset))
  }

  /** The fair mint is the most shares that dilute neither reserve. */
  lemma FairMintIsMost(p: Pool, syn: nat, asset: nat, m: nat)
    requires p.syn > 0 && p.asset > 0
    ensures m <= FairMint(p, syn, asset) <==> m * p.syn <= syn * p.total && m * p.asset <= asset * p.total
  {
    FloorIsMost(syn * p.total, p.syn, m);
    FloorIsMost(asset * p.total, p.asset, m);
  }

  /**
   A founding deposit mints the root of its exact product exactly when that product is below 2^64 - 1 --
   or leaves nothing when wrapped, and the two amounts happen to be next to each other.
   */
  lemma FoundsFairExactly(syn: nat, asset: nat)
    ensures FirstMinted(syn, asset) == Some(Isqrt(syn * asset)) <==>
            if Wrap(syn * asset) == 0 then syn == 0 || syn <= asset <= syn + 2 else syn * asset < U64 - 1
  {
    var n := syn * asset;
    if Wrap(n) == 0 {
      FloorSqrtUnique(0, 0, Isqrt(0));
      RootOfProduct(syn, asset);
    } else if n >= U64 {
      RootsApart(n, Wrap(n));
    } else {
      RootPositive(n);
    }
  }

  lemma RootPositive(n: nat)
    requires n > 0
    ensures Isqrt(n) > 0
  {
  }

  /** A root is at least `h` exactly when the number is at least its square. */
  lemma RootAtLeast(n: nat, h: nat)
    ensures h <= Isqrt(n) <==> h * h <= n
  {
    var r := Isqrt(n);
    if h <= r { SquareMonotone(h, r); } else { SquareMonotone(r + 1, h); }
  }

  /** Above 2^64 a root has more than 32 bits, below it has not. */
  lemma RootsApart(n: nat, w: nat)
    requires n >= U64 > w > 0
    ensures 0 < Isqrt(w) < Isqrt(n)
  {
    RootPositive(w);
    RootsAround(n, w, 0x1_0000_0000);
  }

  lemma RootsAround(n: nat, w: nat, h: nat)
    requires w < h * h <= n
    ensures Isqrt(w) < h <= Isqrt(n)
  {
    RootAtLeast(n, h);
    RootAtLeast(w, h);
  }

  lemma RootOfProduct(syn: nat, asset: nat)
    ensures Isqrt(syn * asset) == syn <==> syn == 0 || syn <= asset <= syn + 2
  {
    RootAtLeast(syn * asset, syn);
    RootAtLeast(syn * asset, syn + 1);
    SquareBelow(syn, asset);
    SquareAbove(syn, asset);
  }

  lemma SquareBelow(s: nat, a: nat)
    ensures s * s <= s * a <==> s == 0 || s <= a
  {
    if s <= a { MulLe(s, a, s); } else { MulLe(a, s - 1, s); }
  }

  lemma SquareAbove(s: nat, a: nat)
    ensures (s + 1) * (s + 1) <= s * a <==> s > 0 && a >= s + 3
  {
    assert (s + 1) * (s + 1) == s * (s + 2) + 1;
    if a >= s + 3 {
      MulLe(s + 3, a, s);
      Distributes(s + 2, 1, s);
    } else {
      MulLe(a, s + 2, s);
    }
  }

  /**
   A deposit mints its fair share exactly when at most one product wraps, and the side it belongs to
   still comes out no smaller than the other.
   */
  lemma MintsFairExactly(p: Pool, syn: nat, asset: nat)
    requires 0 < p.syn < U64 && 0 < p.asset < U64
    ensures var bySyn, byAsset := Floor(Wrap(syn * p.total), p.syn), Floor(Wrap(asset * p.total), p.asset);
            Minted(p, syn, asset) == FairMint(p, syn, asset) <==>
              || (syn * p.total < U64 && asset * p.total < U64)
              || (syn * p.total < U64 && bySyn <= byAsset)
              || (asset * p.total < U64 && byAsset <= bySyn)
    ensures Minted(p, syn, asset) <= FairMint(p, syn, asset)
  {
    ProportionExactly(syn, p.total, p.syn);
    ProportionExactly(asset, p.total, p.asset);
    FloorIsMost(syn * p.total, p.syn, Floor(Wrap(syn * p.total), p.syn));
    FloorIsMost(asset * p.total, p.asset, Floor(Wrap(asset * p.total), p.asset));
    ProportionBelow(syn, p.total, p.syn);
    ProportionBelow(asset, p.total, p.asset);
  }

  /** A withdrawal pays what its shares are worth, side by side, exactly when that side's product does not wrap. */
  lemma RemovePaysExactly(p: Pool, shares: nat, provider: Address)
    requires p.total < U64 && Remove(p, shares, provider).Removed?
    ensures var r := Remove(p, shares, provider);
            && (r.synOut == Worth(shares, p.syn, p.total) <==> shares * p.syn < U64)
            && (r.assetOut == Worth(shares, p.asset, p.total) <==> shares * p.asset < U64)
  {
    ProportionExactly(shares, p.syn, p.total);
    ProportionExactly(shares, p.asset, p.total);
  }

  // ---------------------------------------------------------------- and whoever can, may

  /** A swap goes through exactly when there is something on both sides and no number leaves uint64. */
  lemma SwapsExactly(p: Pool, amountIn: nat, fromSyn: bool)
    ensures var reserveIn, reserveOut := if fromSyn then p.syn else p.asset, if fromSyn then p.asset else p.syn;
            Swap(p, amountIn, fromSyn).Swapped? <==>
            && amountIn > 0 && reserveIn > 0 && reserveOut > 0 && reserveIn + amountIn < U64
            && amountIn * 997 * reserveOut < U64 && reserveIn * 1000 + amountIn * 997 < U64
  {
    var reserveOut := if fromSyn then p.asset else p.syn;
    if reserveOut > 0 { MulLe(1, reserveOut, amountIn * 997); }
  }

  /**
   A deposit whose sums fit and that is worth a share is taken: both sides are added, the provider gets the
   shares.
   */
  lemma DepositTaken(p: Pool, syn: nat, asset: nat, provider: Address)
    requires PoolOk(p) && p.total > 0 && p.syn > 0 && p.asset > 0 && Fits(p, syn, asset)
    ensures var m, r := Minted(p, syn, asset), Add(p, syn, asset, provider);
            && (m > 0 <==> r.Added?)
            && (m > 0 ==>
                  && r.minted == m && r.pool.syn == p.syn + syn && r.pool.asset == p.asset + asset
                  && r.pool.total == p.total + m && r.pool.shares == p.shares[provider := At(p.shares, provider) + m])
  {
    MapSumBounds(p.shares, provider);
  }

  /** A founding deposit is taken unless it mints nothing or its root crashes. */
  lemma FoundingTaken(p: Pool, syn: nat, asset: nat, provider: Address)
    requires PoolOk(p) && p.total == 0
    ensures var m, r := FirstMinted(syn, asset), Add(p, syn, asset, provider);
            && (r.Crashed? <==> m.None?) && (r.Added? <==> m.Some? && m.value > 0)
            && (r.Added? && m.value < U64 ==>
                  r.minted == m.value == r.pool.total && At(r.pool.shares, provider) == m.value)
  {
    MapSumBounds(p.shares, provider);
  }

  /** Whoever holds shares worth something on both sides can withdraw them, and only the holder's shares change. */
  lemma HolderWithdraws(p: Pool, shares: nat, provider: Address)
    requires PoolOk(p) && 0 < shares <= At(p.shares, provider) && shares * p.syn < U64 && shares * p.asset < U64
    ensures p.total > 0
    ensures var worthSyn, worthAsset := Worth(shares, p.syn, p.total), Worth(shares, p.asset, p.total);
            var r := Remove(p, shares, provider);
            && (r.Removed? <==> worthSyn > 0 && worthAsset > 0)
            && (r.Removed? ==>
                  && r.synOut == worthSyn && r.assetOut == worthAsset
                  && At(r.pool.shares, provider) == At(p.shares, provider) - shares
                  && r.pool.shares - {provider} == p.shares - {provider})
  {
    MapSumBounds(p.shares, provider);
    assert p.syn == 0 ==> shares * p.syn == 0;
    assert p.asset == 0 ==> shares * p.asset == 0;
  }

  // ---------------------------------------------------------------- runs

  datatype Op =
    | AddOp(syn: nat, asset: nat, provider: Address)
    | RemoveOp(shares: nat, provider: Address)
    | SwapOp(amountIn: nat, fromSyn: bool)

  /** One call on a pool; a refused call changes nothing. */
  function Act(p: Pool, op: Op): Pool
  {
    match op
    case AddOp(syn, asset, provider) => (var r := Add(p, syn, asset, provider); if r.Added? then r.pool else p)
    case RemoveOp(shares, provider) => (var r := Remove(p, shares, provider); if r.Removed? then r.pool else p)
    case SwapOp(amountIn, fromSyn) => (var r := Swap(p, amountIn, fromSyn); if r.Swapped? then r.pool else p)
  }

  function ActAll(p: Pool, ops: seq<Op>): Pool
    decreases |ops|
  {
    if ops == [] then p else ActAll(Act(p, ops[0]), ops[1..])
  }

  /** The sums of a deposit to a pool that has shares stay within uint64. */
  predicate Regular(p: Pool, op: Op)
  {
    op.AddOp? && p.total > 0 && Add(p, op.syn, op.asset, op.provider).Added? ==> Fits(p, op.syn, op.asset)
  }

  predicate AllRegular(p: Pool, ops: seq<Op>)
    decreases |ops|
  {
    ops == [] || (Regular(p, ops[0]) && AllRegular(Act(p, ops[0]), ops[1..]))
  }

  /** A deposit into a pool without shares. */
  predicate Founds(p: Pool, op: Op)
  {
    op.AddOp? && p.total == 0 && Add(p, op.syn, op.asset, op.provider).Added?
  }

  predicate NeverFounds(p: Pool, ops: seq<Op>)
    decreases |ops|
  {
    ops == [] || (!Founds(p, ops[0]) && NeverFounds(Act(p, ops[0]), ops[1..]))
  }

  /** Every deposit to a pool that has shares is booked. */
  predicate AllBooked(p: Pool, ops: seq<Op>)
    decreases |ops|
  {
    ops == [] ||
    (&& (ops[0].AddOp? && p.total > 0 && Add(p, ops[0].syn, ops[0].asset, ops[0].provider).Added? ==>
           Booked(p, Act(p, ops[0])))
     && AllBooked(Act(p, ops[0]), ops[1..]))
  }

  /** Amounts are uint64. */
  predicate Uint64Op(op: Op)
  {
    op.AddOp? ==> op.syn < U64 && op.asset < U64
  }

  lemma ActKeeps(p: Pool, op: Op)
    requires PoolOk(p) && Regular(p, op)
    ensures PoolOk(Act(p, op))
    ensures !Founds(p, op) ==> NotDiluted(p, Act(p, op)) && (p.total == 0 ==> Act(p, op).total == 0)
  {
    match op
    case AddOp(syn, asset, provider) =>
      if Founds(p, op) {
        FoundingKeeps(p, syn, asset, provider);
      } else if Add(p, syn, asset, provider).Added? {
        AddKeeps(p, syn, asset, provider);
      }
    case RemoveOp(shares, provider) => if Remove(p, shares, provider).Removed? { RemoveKeeps(p, shares, provider); }
    case SwapOp(amountIn, fromSyn) => if Swap(p, amountIn, fromSyn).Swapped? { SwapKeeps(p, amountIn, fromSyn); }
  }

  /** The first shares of a pool are all held by its founder. */
  lemma FoundingKeeps(p: Pool, syn: nat, asset: nat, provider: Address)
    requires PoolOk(p) && p.total == 0 && Add(p, syn, asset, provider).Added?
    ensures PoolOk(Add(p, syn, asset, provider).pool)
  {
    var m := Add(p, syn, asset, provider).minted;
    MapSumBounds(p.shares, provider);
    MapSumUpdate(p.shares, provider, Wrap(m));
  }

  lemma NotDilutedTransitive(p: Pool, q: Pool, s: Pool)
    requires NotDiluted(p, q) && NotDiluted(q, s) && q.total > 0
    ensures NotDiluted(p, s)
  {
    CrossTransitive(K(p), p.total * p.total, K(q), q.total * q.total, K(s), s.total * s.total);
  }

  lemma CrossTransitive(k0: nat, t0: nat, k1: nat, t1: nat, k2: nat, t2: nat)
    requires k1 * t0 >= k0 * t1 && k2 * t1 >= k1 * t2 && t1 > 0
    ensures k2 * t0 >= k0 * t2
  {
    MulLe(k1 * t2, k2 * t1, t0);
    MulLe(k0 * t1, k1 * t0, t2);
    assert (k2 * t1) * t0 == (k2 * t0) * t1;
    assert (k1 * t2) * t0 == (k1 * t0) * t2;
    assert (k0 * t1) * t2 == (k0 * t2) * t1;
    Cancel(k0 * t2, k2 * t0, t1);
  }

  lemma EmptyNotDiluted(p: Pool, q: Pool)
    requires q.total == 0
    ensures NotDiluted(p, q)
  {
    assert q.total * q.total == 0;
    assert K(p) * (q.total * q.total) == 0;
    assert K(q) * (p.total * p.total) >= 0;
  }

  lemma {:induction false} EmptyStaysEmpty(p: Pool, ops: seq<Op>)
    requires PoolOk(p) && AllRegular(p, ops) && NeverFounds(p, ops) && p.total == 0
    ensures ActAll(p, ops).total == 0
    decreases |ops|
  {
    if ops != [] {
      ActKeeps(p, ops[0]);
      EmptyStaysEmpty(Act(p, ops[0]), ops[1..]);
    }
  }

  /**
   Over every sequence of deposits, withdrawals and swaps whose deposits' sums fit, founding deposits
   and wrapping products included: reserves never underflow and shares held never exceed shares issued.
   */
  lemma {:induction false} RunKeepsPool(p: Pool, ops: seq<Op>)
    requires PoolOk(p) && AllRegular(p, ops)
    ensures PoolOk(ActAll(p, ops))
    decreases |ops|
  {
    if ops != [] {
      ActKeeps(p, ops[0]);
      RunKeepsPool(Act(p, ops[0]), ops[1..]);
    }
  }

  /** And until the pool is founded anew, liquidity per share never falls. */
  lemma {:induction false} RunNeverDilutes(p: Pool, ops: seq<Op>)
    requires PoolOk(p) && AllRegular(p, ops) && NeverFounds(p, ops)
    ensures NotDiluted(p, ActAll(p, ops))
    decreases |ops|
  {
    if ops != [] {
      var q := Act(p, ops[0]);
      ActKeeps(p, ops[0]);
      RunNeverDilutes(q, ops[1..]);
      if q.total > 0 {
        NotDilutedTransitive(p, q, ActAll(q, ops[1..]));
      } else {
        EmptyStaysEmpty(q, ops[1..]);
        EmptyNotDiluted(p, ActAll(q, ops[1..]));
      }
    }
  }

  /** All deposits of a run are booked exactly when none of their sums wraps. */
  lemma {:induction false} RunBookedExactly(p: Pool, ops: seq<Op>)
    requires PoolOk(p) && forall i :: 0 <= i < |ops| ==> Uint64Op(ops[i])
    ensures AllBooked(p, ops) <==> AllRegular(p, ops)
    decreases |ops|
  {
    if ops != [] {
      var op := ops[0];
      assert Uint64Op(op);
      if op.AddOp? && p.total > 0 && Add(p, op.syn, op.asset, op.provider).Added? {
        BookedExactly(p, op.syn, op.asset, op.provider);
      }
      if Regular(p, op) {
        ActKeeps(p, op);
        RunBookedExactly(Act(p, op), ops[1..]);
      }
    }
  }

  // ---------------------------------------------------------------- round trips

  /** Swapping and straight back never returns more than was put in. */
  lemma SwapBackNeverProfits(p: Pool, amountIn: nat, fromSyn: bool)
    requires PoolOk(p) && Swap(p, amountIn, fromSyn).Swapped?
    requires var r := Swap(p, amountIn, fromSyn); Swap(r.pool, r.amountOut, !fromSyn).Swapped?
    ensures var r := Swap(p, amountIn, fromSyn); Swap(r.pool, r.amountOut, !fromSyn).amountOut <= amountIn
  {
    if fromSyn {
      AmountOutKeepsProduct(amountIn, p.syn, p.asset);
      QuoteBack(amountIn, p.syn, p.asset);
    } else {
      AmountOutKeepsProduct(amountIn, p.asset, p.syn);
      QuoteBack(amountIn, p.asset, p.syn);
    }
  }

  lemma QuoteBack(x: nat, s: nat, a: nat)
    requires AmountOut(x, s, a).Some? && AmountOut(x, s, a).value <= a
    requires var y := AmountOut(x, s, a).value; AmountOut(y, a - y, s + x).Some?
    ensures var y := AmountOut(x, s, a).value; AmountOut(y, a - y, s + x).value <= x
  {
    var y := AmountOut(x, s, a).value;
    var back := AmountOut(y, a - y, s + x).value;
    AmountOutKeepsProduct(x, s, a);
    AmountOutKeepsProduct(y, a - y, s + x);
    assert (a - y + y) * (s + x - back) == (s + x - back) * a;
    assert (a - y) * (s + x) == (s + x) * (a - y);
    Cancel(s, s + x - back, a);
  }

  /** Withdrawing freshly minted shares never returns more than was deposited, on either side. */
  lemma AddThenRemoveNeverProfits(p: Pool, syn: nat, asset: nat, provider: Address)
    requires PoolOk(p) && p.total > 0 && Add(p, syn, asset, provider).Added?
    requires p.total + Minted(p, syn, asset) < U64
    requires var a := Add(p, syn, asset, provider); Remove(a.pool, a.minted, provider).Removed?
    ensures var a := Add(p, syn, asset, provider);
            var r := Remove(a.pool, a.minted, provider);
            r.synOut <= syn && r.assetOut <= asset
  {
    var a := Add(p, syn, asset, provider);
    MintedBelow(p, syn, asset);
    MintedWorth(p.syn, syn, a.pool.syn, p.total, a.minted);
    MintedWorth(p.asset, asset, a.pool.asset, p.total, a.minted);
  }

  lemma MintedWorth(reserve: nat, added: nat, left: nat, total: nat, m: nat)
    requires m * reserve <= added * total && total > 0 && left <= reserve + added
    ensures Floor(Wrap(m * left), total + m) <= added
  {
    var out := Floor(Wrap(m * left), total + m);
    ProportionBelow(m, left, total + m);
    MulLe(left, reserve + added, m);
    assert m * (reserve + added) == m * reserve + m * added;
    assert added * (total + m) == added * total + m * added;
    Cancel(out, added, total + m);
  }

  // ---------------------------------------------------------------- where it breaks

  /** Amounts whose product is the largest uint64 crash the first deposit. */
  lemma FirstDepositCrashes(provider: Address)
    ensures Add(EmptyPool, 0xFFFF_FFFF, 0x1_0000_0001, provider) == Crashed
  {
    assert 0xFFFF_FFFF * 0x1_0000_0001 == U64 - 1;
  }

  /** Reached from an empty pool: a reserve sum that wraps loses liquidity per share. */
  lemma WrappedDepositDilutes(a: Address, b: Address)
    requires a != b
    ensures var first, second := AddOp(0x8000_0000_0000_0000, 2, a), AddOp(0x8000_0000_0000_0001, 1, b);
            var p := Act(EmptyPool, first);
            && PoolOk(p) && At(p.shares, a) == p.total > 0
            && Add(p, second.syn, second.asset, b).Added? && !NotDiluted(p, Act(p, second))
  {
    var n: nat := 0x8000_0000_0000_0000;
    assert n * 2 == U64 && Wrap(n * 2) == 0;
    assert Isqrt(0) == 0;
    var p := Act(EmptyPool, AddOp(n, 2, a));
    MapSumUpdate(EmptyPool.shares, a, n);
    assert p == Pool(n, 2, n, map[a := n]);
    assert (n + 1) * n == U64 * 0x4000_0000_0000_0000 + n && Wrap((n + 1) * n) == n;
    assert Floor(n, n) == 1 && Floor(n, 2) == 0x4000_0000_0000_0000;
    assert Minted(p, n + 1, 1) == 1;
    var q := Act(p, AddOp(n + 1, 1, b));
    assert q.syn == 1 && q.asset == 3 && q.total == n + 1;
  }

  /**
   Reached from an empty pool: of five thousand million shares a holder withdraws four, and is paid
   310,651,185 on either side instead of four thousand million.
   */
  lemma WrappedWithdrawalUnderpays(a: Address)
    ensures var p := ActAll(EmptyPool,
            [AddOp(4_000_000_000, 4_000_000_000, a), AddOp(1_000_000_000, 1_000_000_000, a)]);
            && p == Pool(5_000_000_000, 5_000_000_000, 5_000_000_000, map[a := 5_000_000_000])
            && var r := Remove(p, 4_000_000_000, a);
            && r.Removed? && r.synOut == r.assetOut == 310_651_185 &&
                 Worth(4_000_000_000, p.syn, p.total) == 4_000_000_000
  {
    var first, second := AddOp(4_000_000_000, 4_000_000_000, a), AddOp(1_000_000_000, 1_000_000_000, a);
    FloorSqrtUnique(16_000_000_000_000_000_000, 4_000_000_000, Isqrt(16_000_000_000_000_000_000));
    var p1 := Act(EmptyPool, first);
    assert p1 == Pool(4_000_000_000, 4_000_000_000, 4_000_000_000, map[a := 4_000_000_000]);
    var p2 := Act(p1, second);
    assert p2 == Pool(5_000_000_000, 5_000_000_000, 5_000_000_000, map[a := 5_000_000_000]);
    assert [first, second][1..] == [second] && [second][1..] == [];
    assert ActAll(p1, [second]) == p2;
    assert Wrap(4_000_000_000 * 5_000_000_000) == 1_553_255_926_290_448_384;
  }
}
