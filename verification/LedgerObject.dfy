/**
 The mutable state object a block executes on: a clone of the committed state whose balances and
 epoch accumulators are updated in place.
 */
module LedgerObject {
  import opened Common
  import opened Ledger
  import opened FeeEpoch

  class Book {
    var balances: map<Address, nat>
    var snapshot: seq<ActiveValidator>
    var treasury: Address
    var feeIncome: nat
    var feeTotalPower: nat
    var feeSignedPower: map<Address, nat>
    var rest: Remainder

    function Value(): State
      reads this
    {
      State(balances, snapshot, treasury, feeIncome, feeTotalPower, feeSignedPower, rest)
    }

    /** `State.Clone`. */
    constructor Clone(st: State)
      ensures Value() == st
    {
      balances, snapshot, treasury := st.balances, st.snapshot, st.treasury;
      feeIncome, feeTotalPower, feeSignedPower, rest := st.feeIncome, st.feeTotalPower, st.feeSignedPower, st.rest;
    }

    method SetBalance(a: Address, n: nat)
      modifies this`balances
      ensures Value() == old(Value()).WithBalance(a, n)
    {
      balances := balances[a := n];
    }

    /** On failure at most the treasury deposit has been made; callers throw the object away. */
    method ApplyBlockFees(applied: seq<Tx>, proposer: Address, height: nat) returns (split: Option<FeeSplit>)
      modifies this`balances, this`feeIncome
      ensures var spec := SplitFees(old(Value()), applied, proposer, height);
              if spec.None? then split.None? else split == Some(spec.value.split) && Value() == spec.value.state
      ensures split.None? ==> feeIncome == old(feeIncome)
    {
      var total: nat := 0;
      for i := 0 to |applied|
        invariant TotalFees(applied) == TotalFees(applied[i..], total)
        invariant Value() == old(Value())
      {
        assert applied[i..][1..] == applied[i + 1..];
        var sum := SafeAdd(total, applied[i].fee);
        if sum.None? {
          return None;
        }
        total := sum.value;
      }
      var burn := Burned(total);
      if height < FeeModelV2Height {
        if total == 0 || proposer == "" {
          return Some(FeeSplit(total, total, 0, 0));
        }
        var credited := SafeAdd(At(balances, proposer), total - burn);
        if credited.None? {
          return None;
        }
        SetBalance(proposer, credited.value);
        return Some(FeeSplit(total, burn, 0, total - burn));
      }
      if total == 0 {
        return Some(FeeSplit(0, 0, 0, 0));
      }
      if treasury == "" {
        return None;
      }
      var deposited := SafeAdd(At(balances, treasury), total - burn);
      if deposited.None? {
        return None;
      }
      SetBalance(treasury, deposited.value);
      var income := SafeAdd(feeIncome, total - burn);
      if income.None? {
        return None;
      }
      feeIncome := income.value;
      return Some(FeeSplit(total, burn, total - burn, 0));
    }

    method RecordFeeEpochVote(v: Vote)
      modifies this`feeTotalPower, this`feeSignedPower
      ensures Value() == RecordVote(old(Value()), v)
    {
      if v.power == 0 {
        return;
      }
      feeTotalPower := Wrap(feeTotalPower + v.power);
      if v.committed && v.operator != "" {
        feeSignedPower := feeSignedPower[v.operator := Wrap(At(feeSignedPower, v.operator) + v.power)];
      }
    }

    method DistributeFeeEpochPayout(epoch: nat) returns (payouts: seq<Payout>)
      modifies this
      ensures Value() == Distribute(old(Value()), epoch).state
      ensures payouts == Distribute(old(Value()), epoch).payouts
    {
      ghost var start := Value();
      payouts := [];
      if !NothingToPay(Value()) {
        StrLessStrictTotal(feeSignedPower.Keys);
        var ops := SortedListing(StrLess, feeSignedPower.Keys);
        var amounts := ComputeAmounts(ops);
        payouts := PayOperators(ops, amounts, epoch);
      }
      feeIncome, feeTotalPower, feeSignedPower := 0, 0, map[];
    }

    method ComputeAmounts(ops: seq<Address>) returns (amounts: seq<nat>)
      requires feeTotalPower > 0
      ensures amounts == Amounts(Value(), ops)
    {
      var pool := feeIncome / 2;
      var shares: seq<nat>, sum := [], 0;
      ghost var signed := SignedBy(Value(), ops);
      for i := 0 to |ops|
        invariant shares == Portions(pool, signed[..i], feeTotalPower) && sum == Wrap(SeqSum(shares))
      {
        var share := Portion(pool, At(feeSignedPower, ops[i]), feeTotalPower);
        assert signed[..i + 1] == signed[..i] + [signed[i]];
        PortionsSnoc(pool, signed[..i], signed[i], feeTotalPower);
        SumSnoc(shares, share);
        WrapAdd(SeqSum(shares), share);
        shares, sum := shares + [share], Wrap(sum + share);
      }
      assert signed[..|ops|] == signed;
      var balance := At(balances, treasury);
      if sum <= balance {
        return shares;
      }
      amounts := [];
      for i := 0 to |ops|
        invariant amounts == Portions(balance, shares[..i], sum)
      {
        assert shares[..i + 1] == shares[..i] + [shares[i]];
        PortionsSnoc(balance, shares[..i], shares[i], sum);
        amounts := amounts + [Portion(shares[i], balance, sum)];
      }
      assert shares[..|ops|] == shares;
    }

    method PayOperator(op: Address, amount: nat)
      requires amount <= At(balances, treasury)
      modifies this`balances
      ensures Value() == Pay(old(Value()), op, amount)
    {
      SetBalance(treasury, At(balances, treasury) - amount);
      SetBalance(op, Wrap(At(balances, op) + amount));
    }

    method PayOperators(ops: seq<Address>, amounts: seq<nat>, epoch: nat) returns (payouts: seq<Payout>)
      requires |ops| == |amounts|
      modifies this`balances
      ensures Distribution(Value(), payouts) == PayAll(Distribution(old(Value()), []), ops, amounts, epoch)
    {
      payouts := [];
      for i := 0 to |ops|
        invariant Value() == old(Value()).(balances := balances)
        invariant PayAll(Distribution(old(Value()), []), ops, amounts, epoch) ==
                  PayAll(Distribution(Value(), payouts), ops[i..], amounts[i..], epoch)
      {
        assert ops[i..][1..] == ops[i + 1..] && amounts[i..][1..] == amounts[i + 1..];
        var amount := amounts[i];
        if amount == 0 {
          continue;
        }
        if At(balances, treasury) < amount {
          amount := At(balances, treasury);
        }
        PayOperator(ops[i], amount);
        payouts := payouts + [Payout(ops[i], amount, epoch)];
      }
    }
  }

  lemma {:induction false} PortionsSnoc(amount: nat, parts: seq<nat>, part: nat, whole: nat)
    requires whole > 0
    ensures Portions(amount, parts + [part], whole) == Portions(amount, parts, whole) + [Portion(part, amount, whole)]
    ensures Portion(part, amount, whole) == Portion(amount, part, whole)
  {
    assert part * amount == amount * part;
    if parts == [] {
      assert parts + [part] == [part];
      assert [part][1..] == [];
    } else {
      assert (parts + [part])[1..] == parts[1..] + [part];
      PortionsSnoc(amount, parts[1..], part, whole);
    }
  }

  lemma {:induction false} SumSnoc(xs: seq<nat>, x: nat)
    ensures SeqSum(xs + [x]) == SeqSum(xs) + x
  {
    if xs == [] {
      assert xs + [x] == [x];
    } else {
      assert (xs + [x])[1..] == xs[1..] + [x];
      SumSnoc(xs[1..], x);
    }
  }
}
