/**
 Block fees and the monthly validator payout: how a block's fees are split, how signed power is
 recorded over an epoch, and how half of the treasury's fee income is paid out at its end.
 */
module FeeEpoch {
  import opened Arithmetic
  import opened Common
  import opened Ledger

  const EpochBlocks: nat := 216_000
  /** No block's voting power exceeds the total supply. */
  const MaxBlockPower: nat := 100_000_000_000

  datatype FeeSplit = FeeSplit(total: nat, burn: nat, toTreasury: nat, toProposer: nat)

  datatype Vote = Vote(operator: Address, power: nat, committed: bool)

  datatype Payout = Payout(operator: Address, amount: nat, epoch: nat)

  // ---------------------------------------------------------------- splitting a block's fees

  datatype Credited = Credited(state: State, split: FeeSplit)

  function SplitFees(st: State, txs: seq<Tx>, proposer: Address, height: nat): Option<Credited>
  {
    match TotalFees(txs)
    case None => None
    case Some(total) =>
      if height < FeeModelV2Height then
        match CreditProposerFees(st, txs, proposer)
        case None => None
        case Some(next) =>
          Some(Credited(next,
            if total == 0 || proposer == "" then FeeSplit(total, total, 0, 0)
            else FeeSplit(total, Burned(total), 0, total - Burned(total))))
      else if total == 0 then Some(Credited(st, FeeSplit(0, 0, 0, 0)))
      else if st.treasury == "" then None
      else
        var toTreasury := total - Burned(total);
        var balance, income := SafeAdd(st.Balance(st.treasury), toTreasury), SafeAdd(st.feeIncome, toTreasury);
        if balance.None? || income.None? then None
        else Some(Credited(st.WithBalance(st.treasury, balance.value).(feeIncome := income.value),
                           FeeSplit(total, Burned(total), toTreasury, 0)))
  }

  function FeeSum(txs: seq<Tx>): nat
  {
    if txs == [] then 0 else txs[0].fee + FeeSum(txs[1..])
  }

  lemma {:induction false} TotalFeesIsSum(txs: seq<Tx>, sum: nat)
    ensures TotalFees(txs, sum).Some? ==> TotalFees(txs, sum).value == sum + FeeSum(txs)
    ensures TotalFees(txs, sum).Some? <==> txs == [] || sum + FeeSum(txs) < U64
    decreases |txs|
  {
    if txs != [] && SafeAdd(sum, txs[0].fee).Some? {
      TotalFeesIsSum(txs[1..], sum + txs[0].fee);
    }
  }

  /** Half of the fees is burned, exactly when taking the percentage does not wrap. */
  lemma BurnsHalfExactly(total: nat)
    ensures Burned(total) == total / 2 <==> total * BurnPercent < U64
  {
    FloorOfWrap(total * BurnPercent, 100);
    assert total * 50 / 100 == total / 2;
  }

  /** Every fee is accounted for, and the balances move by exactly what the split reports. */
  lemma SplitAccounts(st: State, txs: seq<Tx>, proposer: Address, height: nat)
    requires SplitFees(st, txs, proposer, height).Some?
    ensures var c := SplitFees(st, txs, proposer, height).value;
            && c.split.total == FeeSum(txs) == c.split.burn + c.split.toTreasury + c.split.toProposer
            && MapSum(c.state.balances) == MapSum(st.balances) + c.split.toTreasury + c.split.toProposer
            && (forall a :: c.state.Balance(a) ==
                  st.Balance(a) + (if a == st.treasury then c.split.toTreasury else 0)
                                + (if a == proposer then c.split.toProposer else 0))
            && c.state.feeIncome == st.feeIncome + c.split.toTreasury
            && c.state == st.(balances := c.state.balances, feeIncome := c.state.feeIncome)
            && (height >= FeeModelV2Height ==> c.split.toProposer == 0)
            && (st.feeIncome < U64 ==> c.state.feeIncome < U64)
            && (height < FeeModelV2Height ==> c.split.toTreasury == 0)
            && (c.split.burn == c.split.total <==> FeeSum(txs) == 0 || (height < FeeModelV2Height && proposer == ""))
            && (FeeSum(txs) * BurnPercent < U64 && c.split.burn < c.split.total ==> c.split.burn == FeeSum(txs) / 2)
  {
    var to, paid, moved := SplitMoves(st, txs, proposer, height);
    MapSumUpdate(st.balances, to, st.Balance(to) + paid);
  }

  /** At most one account is credited: the proposer under the old model, the treasury under the new one. */
  lemma SplitMoves(st: State, txs: seq<Tx>, proposer: Address, height: nat)
    returns (to: Address, paid: nat, moved: bool)
    requires SplitFees(st, txs, proposer, height).Some?
    ensures var c, early := SplitFees(st, txs, proposer, height).value, height < FeeModelV2Height;
            && to == (if early then proposer else st.treasury)
            && paid <= FeeSum(txs) && (!moved ==> paid == 0)
            && c.split.total == FeeSum(txs) && c.split.burn == FeeSum(txs) - paid
            && c.split.toTreasury == (if early then 0 else paid) && c.split.toProposer == (if early then paid else 0)
            && c.state == (if moved then st.WithBalance(to, st.Balance(to) + paid) else st)
                            .(feeIncome := st.feeIncome + if early then 0 else paid)
            && (st.feeIncome < U64 ==> c.state.feeIncome < U64)
            && (paid == 0 <==> FeeSum(txs) == 0 || (early && proposer == ""))
            && (FeeSum(txs) * BurnPercent < U64 && paid > 0 ==> FeeSum(txs) - paid == FeeSum(txs) / 2)
  {
    TotalFeesIsSum(txs, 0);
    var total := FeeSum(txs);
    to := if height < FeeModelV2Height then proposer else st.treasury;
    moved := total > 0 && !(height < FeeModelV2Height && proposer == "");
    paid := if moved then total - Burned(total) else 0;
  }

  // ---------------------------------------------------------------- recording votes

  function RecordVote(st: State, v: Vote): State
  {
    if v.power == 0 then st else
    var counted := st.(feeTotalPower := Wrap(st.feeTotalPower + v.power));
    if !v.committed || v.operator == "" then counted
    else counted.(feeSignedPower := st.feeSignedPower[v.operator := Wrap(At(st.feeSignedPower, v.operator) + v.power)])
  }

  function RecordVotes(st: State, votes: seq<Vote>): State
    decreases |votes|
  {
    if votes == [] then st else RecordVotes(RecordVote(st, votes[0]), votes[1..])
  }

  function VotePower(votes: seq<Vote>): nat
  {
    if votes == [] then 0 else votes[0].power + VotePower(votes[1..])
  }

  /** The power of the committed votes of an operator. */
  function CommittedBy(votes: seq<Vote>, op: Address): nat
  {
    if votes == [] then 0 else
    (if votes[0].committed && votes[0].operator == op then votes[0].power else 0) + CommittedBy(votes[1..], op)
  }

  /** What operators signed never exceeds what there was to sign. */
  ghost predicate VotesSound(st: State)
  {
    MapSum(st.feeSignedPower) <= st.feeTotalPower < U64
  }

  lemma RecordVoteSound(st: State, v: Vote)
    requires VotesSound(st) && st.feeTotalPower + v.power < U64
    ensures VotesSound(RecordVote(st, v))
    ensures RecordVote(st, v).feeTotalPower == st.feeTotalPower + v.power
    ensures forall op :: At(RecordVote(st, v).feeSignedPower, op) ==
                         At(st.feeSignedPower, op) + if v.committed && v.operator == op != "" then v.power else 0
  {
    MapSumBounds(st.feeSignedPower, v.operator);
    MapSumUpdate(st.feeSignedPower, v.operator, At(st.feeSignedPower, v.operator) + v.power);
  }

  lemma {:induction false} RecordVotesSound(st: State, votes: seq<Vote>)
    requires VotesSound(st) && st.feeTotalPower + VotePower(votes) < U64
    ensures VotesSound(RecordVotes(st, votes))
    ensures RecordVotes(st, votes).feeTotalPower == st.feeTotalPower + VotePower(votes)
    ensures forall op :: op != "" ==>
              At(RecordVotes(st, votes).feeSignedPower, op) == At(st.feeSignedPower, op) + CommittedBy(votes, op)
    ensures At(RecordVotes(st, votes).feeSignedPower, "") == At(st.feeSignedPower, "")
    ensures RecordVotes(st, votes) == st.(feeTotalPower := RecordVotes(st, votes).feeTotalPower,
            feeSignedPower := RecordVotes(st, votes).feeSignedPower)
    decreases |votes|
  {
    if votes != [] {
      RecordVoteSound(st, votes[0]);
      RecordVotesSound(RecordVote(st, votes[0]), votes[1..]);
    }
  }

  // ---------------------------------------------------------------- shares

  function SeqSum(xs: seq<nat>): nat
  {
    if xs == [] then 0 else xs[0] + SeqSum(xs[1..])
  }

  /** floor(amount * part / whole), as big integers and back to uint64. */
  function Portion(amount: nat, part: nat, whole: nat): nat
    requires whole > 0
  {
    Wrap(Floor(amount * part, whole))
  }

  function Portions(amount: nat, parts: seq<nat>, whole: nat): (out: seq<nat>)
    requires whole > 0
    ensures |out| == |parts|
  {
    if parts == [] then [] else [Portion(amount, parts[0], whole)] + Portions(amount, parts[1..], whole)
  }

  lemma FloorBelow(amount: nat, part: nat, whole: nat)
    requires whole > 0
    ensures Portion(amount, part, whole) * whole <= amount * part
  {
    FloorBounds(amount * part, whole);
    MulLe(Portion(amount, part, whole), Floor(amount * part, whole), whole);
  }

  lemma {:induction false} PortionsScaled(amount: nat, parts: seq<nat>, whole: nat)
    requires whole > 0
    ensures SeqSum(Portions(amount, parts, whole)) * whole <= amount * SeqSum(parts)
  {
    if parts != [] {
      PortionsScaled(amount, parts[1..], whole);
      var p, rest := Portion(amount, parts[0], whole), SeqSum(Portions(amount, parts[1..], whole));
      assert Portions(amount, parts, whole)[1..] == Portions(amount, parts[1..], whole);
      ScaledStep(amount, parts[0], SeqSum(parts[1..]), p, rest, whole);
    }
  }

  lemma ScaledStep(amount: nat, part: nat, parts: nat, p: nat, rest: nat, whole: nat)
    requires whole > 0 && p == Portion(amount, part, whole) && rest * whole <= amount * parts
    ensures (p + rest) * whole <= amount * (part + parts)
  {
    FloorBelow(amount, part, whole);
    Distributes(p, rest, whole);
    Distributes(part, parts, amount);
  }

  /** Floor portions of parts that make up at most the whole sum to at most the amount. */
  lemma PortionsBounded(amount: nat, parts: seq<nat>, whole: nat)
    requires whole > 0 && SeqSum(parts) <= whole
    ensures SeqSum(Portions(amount, parts, whole)) <= amount
  {
    PortionsScaled(amount, parts, whole);
    MulLe(SeqSum(parts), whole, amount);
    Cancel(SeqSum(Portions(amount, parts, whole)), amount, whole);
  }

  // ---------------------------------------------------------------- paying out

  datatype Distribution = Distribution(state: State, payouts: seq<Payout>)

  /** One payment: debit the treasury, then credit the operator. */
  function Pay(st: State, op: Address, amount: nat): State
    requires amount <= st.Balance(st.treasury)
  {
    var debited := st.WithBalance(st.treasury, st.Balance(st.treasury) - amount);
    debited.WithBalance(op, Wrap(debited.Balance(op) + amount))
  }

  /** Pay `amounts[i]` to `ops[i]` from the treasury, clamped to what the treasury still holds. */
  function PayAll(d: Distribution, ops: seq<Address>, amounts: seq<nat>, epoch: nat): Distribution
    requires |ops| == |amounts|
    decreases |ops|
  {
    if ops == [] then d
    else if amounts[0] == 0 then PayAll(d, ops[1..], amounts[1..], epoch)
    else
      var amount := Min(amounts[0], d.state.Balance(d.state.treasury));
      PayAll(Distribution(Pay(d.state, ops[0], amount), d.payouts + [Payout(ops[0], amount, epoch)]), ops[1..],
        amounts[1..], epoch)
  }

  ghost function Operators(st: State): seq<Address>
  {
    SortBy(StrLess, ListOf(st.feeSignedPower.Keys))
  }

  ghost function SignedBy(st: State, ops: seq<Address>): (out: seq<nat>)
    ensures |out| == |ops| && forall i :: 0 <= i < |ops| ==> out[i] == At(st.feeSignedPower, ops[i])
  {
    seq(|ops|, i requires 0 <= i < |ops| => At(st.feeSignedPower, ops[i]))
  }

  /** What each operator gets: its floor share of the pool, scaled down if the treasury is short. */
  ghost function Amounts(st: State, ops: seq<Address>): (out: seq<nat>)
    requires st.feeTotalPower > 0
    ensures |out| == |ops|
  {
    var shares := Portions(st.feeIncome / 2, SignedBy(st, ops), st.feeTotalPower);
    var sum, balance := Wrap(SeqSum(shares)), st.Balance(st.treasury);
    if sum > balance then Portions(balance, shares, sum) else shares
  }

  function Reset(st: State): State
  {
    st.(feeIncome := 0, feeTotalPower := 0, feeSignedPower := map[])
  }

  predicate NothingToPay(st: State)
  {
    st.feeTotalPower == 0 || st.feeIncome / 2 == 0 || st.feeSignedPower == map[]
  }

  ghost function Distribute(st: State, epoch: nat): Distribution
  {
    if NothingToPay(st) then Distribution(Reset(st), []) else
    var ops := Operators(st);
    var d := PayAll(Distribution(st, []), ops, Amounts(st, ops), epoch);
    Distribution(Reset(d.state), d.payouts)
  }

  function TotalPaid(payouts: seq<Payout>): nat
  {
    if payouts == [] then 0 else TotalPaid(payouts[..|payouts| - 1]) + payouts[|payouts| - 1].amount
  }

  /** All that `a` receives. */
  function Received(payouts: seq<Payout>, a: Address): nat
  {
    if payouts == [] then 0 else
    var last := payouts[|payouts| - 1];
    Received(payouts[..|payouts| - 1], a) + if last.operator == a then last.amount else 0
  }

  /** The payouts when no clamp bites: the non-zero amounts, in order. */
  function Listed(payouts: seq<Payout>, ops: seq<Address>, amounts: seq<nat>, epoch: nat): seq<Payout>
    requires |ops| == |amounts|
    decreases |ops|
  {
    if ops == [] then payouts
    else Listed(if amounts[0] == 0 then payouts else payouts + [Payout(ops[0], amounts[0], epoch)], ops[1..],
      amounts[1..], epoch)
  }

  /** Balances of `st` after paying `payouts` out of `start`, account by account. */
  ghost predicate PaidFrom(start: State, st: State, payouts: seq<Payout>)
  {
    && st == start.(balances := st.balances)
    && MapSum(st.balances) == MapSum(start.balances)
    && forall a :: st.Balance(a) + (if a == start.treasury then TotalPaid(payouts) else 0) ==
         start.Balance(a) + Received(payouts, a)
  }

  lemma PayConserves(st: State, op: Address, amount: nat)
    requires amount <= st.Balance(st.treasury) && MapSum(st.balances) < U64
    ensures MapSum(Pay(st, op, amount).balances) == MapSum(st.balances)
    ensures forall a :: Pay(st, op, amount).Balance(a) + (if a == st.treasury then amount else 0) ==
                        st.Balance(a) + (if a == op then amount else 0)
  {
    var debited := DebitKeeps(st, amount);
    MapSumBounds(debited.balances, op);
    MapSumUpdate(debited.balances, op, debited.Balance(op) + amount);
  }

  lemma DebitKeeps(st: State, amount: nat) returns (debited: State)
    requires amount <= st.Balance(st.treasury)
    ensures debited == st.WithBalance(st.treasury, st.Balance(st.treasury) - amount)
    ensures MapSum(debited.balances) + amount == MapSum(st.balances)
  {
    debited := st.WithBalance(st.treasury, st.Balance(st.treasury) - amount);
    MapSumUpdate(st.balances, st.treasury, st.Balance(st.treasury) - amount);
  }

  lemma PayOne(start: State, st: State, payouts: seq<Payout>, op: Address, amount: nat, epoch: nat)
    requires PaidFrom(start, st, payouts) && MapSum(start.balances) < U64
    requires amount <= st.Balance(st.treasury)
    ensures PaidFrom(start, Pay(st, op, amount), payouts + [Payout(op, amount, epoch)])
    ensures Pay(st, op, amount).Balance(st.treasury) >= st.Balance(st.treasury) - amount
  {
    PayConserves(st, op, amount);
    var more := payouts + [Payout(op, amount, epoch)];
    assert more[..|payouts|] == payouts;
    assert TotalPaid(more) == TotalPaid(payouts) + amount;
    assert forall a :: Received(more, a) == Received(payouts, a) + if a == op then amount else 0;
  }

  /** Amounts the treasury can cover are paid in full: the clamp never bites. */
  lemma {:induction false} PayAllInFull(start: State, d: Distribution, ops: seq<Address>, amounts: seq<nat>, epoch: nat)
    requires |ops| == |amounts| && MapSum(start.balances) < U64
    requires PaidFrom(start, d.state, d.payouts) && SeqSum(amounts) <= d.state.Balance(start.treasury)
    ensures var end := PayAll(d, ops, amounts, epoch);
            && PaidFrom(start, end.state, end.payouts)
            && end.payouts == Listed(d.payouts, ops, amounts, epoch)
    decreases |ops|
  {
    if ops != [] {
      if amounts[0] == 0 {
        PayAllInFull(start, d, ops[1..], amounts[1..], epoch);
      } else {
        PayOne(start, d.state, d.payouts, ops[0], amounts[0], epoch);
        PayAllInFull(start, Distribution(Pay(d.state, ops[0], amounts[0]),
          d.payouts + [Payout(ops[0], amounts[0], epoch)]), ops[1..], amounts[1..], epoch);
      }
    }
  }

  lemma {:induction false} ListedTotal(payouts: seq<Payout>, ops: seq<Address>, amounts: seq<nat>, epoch: nat)
    requires |ops| == |amounts|
    ensures TotalPaid(Listed(payouts, ops, amounts, epoch)) == TotalPaid(payouts) + SeqSum(amounts)
    decreases |ops|
  {
    if ops != [] {
      var p := Payout(ops[0], amounts[0], epoch);
      assert (payouts + [p])[..|payouts|] == payouts;
      ListedTotal(if amounts[0] == 0 then payouts else payouts + [p], ops[1..], amounts[1..], epoch);
    }
  }

  /** Listing a map's keys in any order and adding up gives the map's sum. */
  lemma {:induction false} ListedMapSum(m: map<Address, nat>, keys: seq<Address>)
    requires multiset(keys) == multiset(m.Keys)
    ensures SeqSum(seq(|keys|, i requires 0 <= i < |keys| => At(m, keys[i]))) == MapSum(m)
  {
    var values := seq(|keys|, i requires 0 <= i < |keys| => At(m, keys[i]));
    if keys == [] {
      assert |multiset(m.Keys)| == 0;
      assert m == map[];
    } else {
      var k := keys[0];
      assert keys == [k] + keys[1..];
      assert k in multiset(m.Keys);
      MapSumRemove(m, k);
      assert multiset(keys[1..]) == multiset(m.Keys) - multiset{k} == multiset((m - {k}).Keys);
      ListedMapSum(m - {k}, keys[1..]);
      WithoutFirst(m, keys);
    }
  }

  lemma WithoutFirst(m: map<Address, nat>, keys: seq<Address>)
    requires keys != [] && multiset(keys[1..]) == multiset((m - {keys[0]}).Keys)
    ensures seq(|keys|, i requires 0 <= i < |keys| => At(m, keys[i]))[1..] ==
            seq(|keys[1..]|, i requires 0 <= i < |keys[1..]| => At(m - {keys[0]}, keys[1..][i]))
  {
    forall i | 0 <= i < |keys| - 1 ensures At(m, keys[i + 1]) == At(m - {keys[0]}, keys[1..][i]) {
      assert keys[1..][i] in multiset(keys[1..]);
    }
  }

  lemma OperatorsSum(st: State)
    ensures SeqSum(SignedBy(st, Operators(st))) == MapSum(st.feeSignedPower)
  {
    StrLessStrictTotal(st.feeSignedPower.Keys);
    ListOfLists(st.feeSignedPower.Keys);
    SortedListingUnique(StrLess, ListOf(st.feeSignedPower.Keys), st.feeSignedPower.Keys);
    ListedMapSum(st.feeSignedPower, Operators(st));
    assert SignedBy(st, Operators(st)) ==
           seq(|Operators(st)|, i requires 0 <= i < |Operators(st)| => At(st.feeSignedPower, Operators(st)[i]));
  }

  /** The pool bounds the shares, and scaling makes the treasury cover them. */
  lemma AmountsCovered(st: State, ops: seq<Address>)
    requires st.feeTotalPower > 0 && SeqSum(SignedBy(st, ops)) <= st.feeTotalPower && st.feeIncome < U64
    ensures SeqSum(Amounts(st, ops)) <= st.feeIncome / 2
    ensures SeqSum(Amounts(st, ops)) <= st.Balance(st.treasury)
  {
    var shares := Portions(st.feeIncome / 2, SignedBy(st, ops), st.feeTotalPower);
    PortionsBounded(st.feeIncome / 2, SignedBy(st, ops), st.feeTotalPower);
    var sum, balance := Wrap(SeqSum(shares)), st.Balance(st.treasury);
    if sum > balance {
      PortionsBounded(balance, shares, sum);
    }
  }

  /**
   The epoch payout: at most half the recorded income and at most what the treasury holds leaves it,
   every operator gets exactly its listed amount, nothing is created or lost -- even when an operator
   is the treasury -- and the accumulators start over.
   */
  lemma DistributePays(st: State, epoch: nat)
    requires VotesSound(st) && st.feeIncome < U64 && MapSum(st.balances) < U64
    ensures var d := Distribute(st, epoch);
            && TotalPaid(d.payouts) <= st.feeIncome / 2 && TotalPaid(d.payouts) <= st.Balance(st.treasury)
            && PaidFrom(Reset(st), d.state, d.payouts)
            && VotesSound(d.state) && d.state.feeTotalPower == 0 == d.state.feeIncome
            && (!NothingToPay(st) ==> d.payouts == Listed([], Operators(st), Amounts(st, Operators(st)), epoch))
  {
    assert MapSum<Address>(map[]) == 0;
    if !NothingToPay(st) {
      var ops := Operators(st);
      OperatorsSum(st);
      AmountsCovered(st, ops);
      PayAllInFull(st, Distribution(st, []), ops, Amounts(st, ops), epoch);
      ListedTotal([], ops, Amounts(st, ops), epoch);
    }
  }
}
