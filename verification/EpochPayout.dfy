/**
 Who gets what at the end of a fee epoch: half of the treasury's income, divided by signed power, to the
 unit -- and scaled down, again to the unit, when the treasury cannot cover it.
 */
module EpochPayout {
  import opened Arithmetic
  import opened Common
  import opened Ledger
  import opened FeeEpoch
  import opened FeeLedger

  /** An operator's part of half the income, by the power it signed with. */
  function Share(st: State, op: Address): nat
    requires st.feeTotalPower > 0
  {
    Floor(st.feeIncome / 2 * At(st.feeSignedPower, op), st.feeTotalPower)
  }

  function Shares(st: State): map<Address, nat>
    requires st.feeTotalPower > 0
  {
    map op | op in st.feeSignedPower :: Share(st, op)
  }

  /** What the operators are due together. */
  ghost function Owed(st: State): nat
    requires st.feeTotalPower > 0
  {
    MapSum(Shares(st))
  }

  /** What the treasury can pay an operator of it. */
  ghost function Paid(st: State, op: Address): nat
    requires st.feeTotalPower > 0
  {
    var balance := st.Balance(st.treasury);
    if Owed(st) <= balance then Share(st, op) else Floor(Share(st, op) * balance, Owed(st))
  }

  // ---------------------------------------------------------------- portions, one by one

  /** A portion of a part within the whole is exact and does not exceed the amount. */
  lemma PortionExact(amount: nat, part: nat, whole: nat)
    requires part <= whole && whole > 0 && amount < U64
    ensures Portion(amount, part, whole) == Floor(amount * part, whole) <= amount
  {
    MulLe(part, whole, amount);
    FloorBounds(amount * part, whole);
    Cancel(Floor(amount * part, whole), amount, whole);
  }

  lemma {:induction false} PortionsAt(amount: nat, parts: seq<nat>, whole: nat, i: nat)
    requires whole > 0 && i < |parts|
    ensures Portions(amount, parts, whole)[i] == Portion(amount, parts[i], whole)
  {
    if i > 0 { PortionsAt(amount, parts[1..], whole, i - 1); }
  }

  lemma {:induction false} PartWithin(parts: seq<nat>, i: nat)
    requires i < |parts|
    ensures parts[i] <= SeqSum(parts)
  {
    if i > 0 { PartWithin(parts[1..], i - 1); }
  }

  /** Rounding loses less than a unit per part. */
  lemma {:induction false} PortionsAbove(amount: nat, parts: seq<nat>, whole: nat)
    requires whole > 0 && amount < U64 && forall i :: 0 <= i < |parts| ==> parts[i] <= whole
    ensures var up := (SeqSum(Portions(amount, parts, whole)) + |parts|) * whole;
            up >= amount * SeqSum(parts) && (parts != [] ==> up > amount * SeqSum(parts))
    decreases |parts|
  {
    if parts != [] {
      PortionExact(amount, parts[0], whole);
      FloorBounds(amount * parts[0], whole);
      PortionsAbove(amount, parts[1..], whole);
      var rest := Portions(amount, parts[1..], whole);
      assert Portions(amount, parts, whole)[1..] == rest;
      AboveStep(amount, parts[0], SeqSum(parts[1..]), Portion(amount, parts[0], whole), SeqSum(rest) + |parts| - 1,
        whole);
    }
  }

  lemma AboveStep(amount: nat, part: nat, parts: nat, p: nat, rest: nat, whole: nat)
    requires amount * part < (p + 1) * whole && amount * parts <= rest * whole
    ensures amount * (part + parts) < (p + 1 + rest) * whole
  {
    Distributes(p + 1, rest, whole);
    Distributes(part, parts, amount);
  }

  // ---------------------------------------------------------------- the amounts

  ghost predicate Payable(st: State)
  {
    VotesSound(st) && st.feeIncome < U64 && MapSum(st.balances) < U64 && !NothingToPay(st)
  }

  lemma OperatorsListed(st: State)
    ensures multiset(Operators(st)) == multiset(st.feeSignedPower.Keys)
  {
    StrLessStrictTotal(st.feeSignedPower.Keys);
    ListOfLists(st.feeSignedPower.Keys);
    SortedListingUnique(StrLess, ListOf(st.feeSignedPower.Keys), st.feeSignedPower.Keys);
  }

  ghost function Unscaled(st: State): seq<nat>
    requires st.feeTotalPower > 0
  {
    Portions(st.feeIncome / 2, SignedBy(st, Operators(st)), st.feeTotalPower)
  }

  /** The unscaled amounts are the shares, and sum to what is owed. */
  lemma UnscaledShares(st: State)
    requires Payable(st)
    ensures |Unscaled(st)| == |Operators(st)| && SeqSum(Unscaled(st)) == Owed(st) <= st.feeIncome / 2
    ensures forall i :: 0 <= i < |Operators(st)| ==> Unscaled(st)[i] == Share(st, Operators(st)[i])
  {
    var ops, pool, shares := Operators(st), st.feeIncome / 2, Unscaled(st);
    var signed := SignedBy(st, ops);
    OperatorsSum(st);
    OperatorsListed(st);
    forall i | 0 <= i < |ops| ensures shares[i] == Share(st, ops[i]) && ops[i] in st.feeSignedPower {
      assert ops[i] in multiset(st.feeSignedPower.Keys);
      PortionsAt(pool, signed, st.feeTotalPower, i);
      PartWithin(signed, i);
      PortionExact(pool, signed[i], st.feeTotalPower);
    }
    PortionsBounded(pool, signed, st.feeTotalPower);
    assert Shares(st).Keys == st.feeSignedPower.Keys;
    ListedMapSum(Shares(st), ops);
    assert shares == seq(|ops|, i requires 0 <= i < |ops| => At(Shares(st), ops[i]));
  }

  lemma AmountExact(st: State, i: nat)
    requires Payable(st) && i < |Operators(st)|
    ensures Amounts(st, Operators(st))[i] == Paid(st, Operators(st)[i])
  {
    UnscaledShares(st);
    var shares, balance, owed := Unscaled(st), st.Balance(st.treasury), Owed(st);
    assert Amounts(st, Operators(st)) == if owed > balance then Portions(balance, shares, owed) else shares;
    if owed > balance {
      PortionsAt(balance, shares, owed, i);
      PartWithin(shares, i);
      MapSumBounds(st.balances, st.treasury);
      PortionExact(balance, shares[i], owed);
      assert balance * shares[i] == shares[i] * balance;
    }
  }

  // ---------------------------------------------------------------- the payouts

  /** What the listed amounts bring `a`. */
  function Sum(ops: seq<Address>, amounts: seq<nat>, a: Address): nat
    requires |ops| == |amounts|
  {
    if ops == [] then 0 else (if ops[0] == a then amounts[0] else 0) + Sum(ops[1..], amounts[1..], a)
  }

  lemma {:induction false} ReceivedListed(payouts: seq<Payout>, ops: seq<Address>, amounts: seq<nat>, epoch: nat,
                                          a: Address)
    requires |ops| == |amounts|
    ensures Received(Listed(payouts, ops, amounts, epoch), a) == Received(payouts, a) + Sum(ops, amounts, a)
    decreases |ops|
  {
    if ops != [] {
      var p := Payout(ops[0], amounts[0], epoch);
      assert (payouts + [p])[..|payouts|] == payouts;
      ReceivedListed(if amounts[0] == 0 then payouts else payouts + [p], ops[1..], amounts[1..], epoch, a);
    }
  }

  lemma {:induction false} SumOnce(ops: seq<Address>, amounts: seq<nat>, i: nat)
    requires |ops| == |amounts| && i < |ops| && forall j, k :: 0 <= j < k < |ops| ==> ops[j] != ops[k]
    ensures Sum(ops, amounts, ops[i]) == amounts[i]
  {
    if i == 0 {
      SumNone(ops[1..], amounts[1..], ops[0]);
    } else {
      SumOnce(ops[1..], amounts[1..], i - 1);
    }
  }

  lemma {:induction false} SumNone(ops: seq<Address>, amounts: seq<nat>, a: Address)
    requires |ops| == |amounts| && a !in ops
    ensures Sum(ops, amounts, a) == 0
  {
    if ops != [] { SumNone(ops[1..], amounts[1..], a); }
  }

  lemma Distinct<T>(s: seq<T>, dom: set<T>)
    requires multiset(s) == multiset(dom)
    ensures forall j, k :: 0 <= j < k < |s| ==> s[j] != s[k]
    ensures |s| == |dom| && forall x :: x in dom <==> x in s
  {
    forall j, k | 0 <= j < k < |s| ensures s[j] != s[k] {
      var x := s[k];
      assert s == s[..k] + s[k..] && s[k..][0] == x;
      assert multiset(s)[x] == multiset(s[..k])[x] + multiset(s[k..])[x];
      assert x in multiset(s[k..]) && multiset(dom)[x] <= 1;
      assert s[..k][j] == s[j] && s[j] in multiset(s[..k]);
    }
    assert |multiset(s)| == |multiset(dom)|;
    forall x ensures x in dom <==> x in s { assert x in multiset(dom) <==> x in multiset(s); }
  }

  /**
   Every operator receives its floor share of half the income by signed power, or, when the treasury cannot
   cover all shares, its floor part of the treasury's balance.
   */
  lemma PayoutExactly(st: State, epoch: nat, op: Address)
    requires Payable(st)
    ensures Received(Distribute(st, epoch).payouts, op) == Paid(st, op)
  {
    var ops := Operators(st);
    var amounts := Amounts(st, ops);
    DistributePays(st, epoch);
    ReceivedListed([], ops, amounts, epoch, op);
    OperatorsListed(st);
    Distinct(ops, st.feeSignedPower.Keys);
    if op in ops {
      var i :| 0 <= i < |ops| && ops[i] == op;
      SumOnce(ops, amounts, i);
      AmountExact(st, i);
    } else {
      SumNone(ops, amounts, op);
      NothingSigned(st, op);
    }
  }

  lemma NothingSigned(st: State, op: Address)
    requires Payable(st) && op !in st.feeSignedPower
    ensures Paid(st, op) == 0
  {
    UnscaledShares(st);
    assert st.feeIncome / 2 * At(st.feeSignedPower, op) == 0;
    assert Share(st, op) == 0;
  }

  /** The same as inequalities, where the treasury covers everything. */
  lemma PayoutBounds(st: State, epoch: nat, op: Address)
    requires Payable(st) && Owed(st) <= st.Balance(st.treasury)
    ensures var a, half, w := Received(Distribute(st, epoch).payouts, op), st.feeIncome / 2, At(st.feeSignedPower, op);
            a * st.feeTotalPower <= half * w < (a + 1) * st.feeTotalPower
  {
    PayoutExactly(st, epoch, op);
    FloorBounds(st.feeIncome / 2 * At(st.feeSignedPower, op), st.feeTotalPower);
  }

  /** What all operators receive together. */
  lemma PaidTogether(st: State, epoch: nat)
    requires Payable(st)
    ensures var ops := Operators(st);
            && TotalPaid(Distribute(st, epoch).payouts) == SeqSum(Amounts(st, ops))
            && |ops| == |st.feeSignedPower| > 0
  {
    var ops := Operators(st);
    DistributePays(st, epoch);
    ListedTotal([], ops, Amounts(st, ops), epoch);
    OperatorsListed(st);
    Distinct(ops, st.feeSignedPower.Keys);
    assert |st.feeSignedPower| == |st.feeSignedPower.Keys|;
  }

  /**
   Where the treasury covers everything, only what nobody signed for stays unpaid, and less than a unit per
   operator.
   */
  lemma UnpaidCovered(st: State, epoch: nat)
    requires Payable(st) && Owed(st) <= st.Balance(st.treasury)
    ensures var paid, n := TotalPaid(Distribute(st, epoch).payouts), |st.feeSignedPower|;
            (paid + n) * st.feeTotalPower > st.feeIncome / 2 * MapSum(st.feeSignedPower)
  {
    var signed := SignedBy(st, Operators(st));
    PaidTogether(st, epoch);
    UnscaledShares(st);
    OperatorsSum(st);
    forall i | 0 <= i < |signed| ensures signed[i] <= st.feeTotalPower { PartWithin(signed, i); }
    PortionsAbove(st.feeIncome / 2, signed, st.feeTotalPower);
    assert Amounts(st, Operators(st)) == Unscaled(st);
  }

  /** Where it does not, it pays out all it has, but for less than a unit per operator. */
  lemma UnpaidScaled(st: State, epoch: nat)
    requires Payable(st) && Owed(st) > st.Balance(st.treasury)
    ensures TotalPaid(Distribute(st, epoch).payouts) + |st.feeSignedPower| > st.Balance(st.treasury)
  {
    var shares, balance, owed := Unscaled(st), st.Balance(st.treasury), Owed(st);
    PaidTogether(st, epoch);
    UnscaledShares(st);
    forall i | 0 <= i < |shares| ensures shares[i] <= owed { PartWithin(shares, i); }
    MapSumBounds(st.balances, st.treasury);
    PortionsAbove(balance, shares, owed);
    assert Amounts(st, Operators(st)) == Portions(balance, shares, owed);
    StrictCancel(balance, SeqSum(Portions(balance, shares, owed)) + |shares|, owed);
  }

  // ---------------------------------------------------------------- the block that ends the epoch

  /** The state of a block once its fees are split and its votes recorded. */
  ghost function Voted(e: Entry, height: nat): State
    requires SplitFees(e.pre, e.applied, e.proposer, height).Some?
  {
    RecordVotes(SplitFees(e.pre, e.applied, e.proposer, height).value.state, e.votes)
  }

  /**
   The last block of an epoch pays it out: by the income and the signed power of the whole epoch, this
   block's fees and votes included. No other block pays anybody.
   */
  lemma EpochPays(b: Books, e: Entry, height: nat, op: Address)
    requires InOrder(b, height) && Follows(b.state, e) && height >= FeeModelV2Height && FeeBlock(e, height).Some?
    ensures SplitFees(e.pre, e.applied, e.proposer, height).Some?
    ensures var o, v := FeeBlock(e, height).value, Voted(e, height);
            && v.feeIncome == b.state.feeIncome + o.split.toTreasury
            && v.feeTotalPower == b.state.feeTotalPower + VotePower(e.votes)
            && (op != "" ==> At(v.feeSignedPower, op) == At(b.state.feeSignedPower, op) + CommittedBy(e.votes, op))
            && Received(o.payouts, op) ==
               if (height - FeeModelV2Height + 1) % EpochBlocks != 0 || NothingToPay(v) then 0 else Paid(v, op)
  {
    Clock(height);
    SplitAccounts(e.pre, e.applied, e.proposer, height);
    var c, v := SplitFees(e.pre, e.applied, e.proposer, height).value, Voted(e, height);
    assert Elapsed(height) * MaxBlockPower + MaxBlockPower <= EpochBlocks * MaxBlockPower < U64;
    RecordVotesSound(c.state, e.votes);
    if Boundary(height) && !NothingToPay(v) { PayoutExactly(v, EpochOf(height), op); }
  }
}
