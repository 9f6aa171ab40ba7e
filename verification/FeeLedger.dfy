/**
 The fee ledger over a whole run of blocks: when epochs settle, what has been paid by then, and why
 the uint64 accumulators of an epoch cannot overflow.
 */
module FeeLedger {
  import opened Common
  import opened Ledger
  import opened FeeEpoch

  /** A block as the fee rules see it: the state its transactions left, and the votes it reports. */
  datatype Entry = Entry(pre: State, applied: seq<Tx>, proposer: Address, votes: seq<Vote>)

  datatype Outcome = Outcome(state: State, split: FeeSplit, payouts: seq<Payout>)

  /** The last block of an epoch. */
  predicate Boundary(height: nat)
  {
    height >= FeeModelV2Height && (height - FeeModelV2Height + 1) % EpochBlocks == 0
  }

  function EpochOf(height: nat): nat
    requires height >= FeeModelV2Height
  {
    (height - FeeModelV2Height) / EpochBlocks
  }

  /** The fee part of executing a block; None when it fails the block. */
  ghost function FeeBlock(e: Entry, height: nat): Option<Outcome>
  {
    match SplitFees(e.pre, e.applied, e.proposer, height)
    case None => None
    case Some(c) =>
      if height < FeeModelV2Height then Some(Outcome(c.state, c.split, []))
      else Some(Settlement(RecordVotes(c.state, e.votes), c.split, height))
  }

  /** At an epoch's last block, pay it out. */
  ghost function Settlement(voted: State, split: FeeSplit, height: nat): Outcome
    requires height >= FeeModelV2Height
  {
    if !Boundary(height) then Outcome(voted, split, []) else
    var d := Distribute(voted, EpochOf(height));
    Outcome(d.state, split, d.payouts)
  }

  /** Cumulative books: treasury fee income, validator payouts, epochs settled so far. */
  datatype Tally = Tally(income: nat, paid: nat, settled: seq<nat>)

  /** Transactions leave the fee accumulators alone and create no balance beyond uint64. */
  ghost predicate Follows(st: State, e: Entry)
  {
    && e.pre.feeIncome == st.feeIncome && e.pre.feeTotalPower == st.feeTotalPower &&
         e.pre.feeSignedPower == st.feeSignedPower
    && MapSum(e.pre.balances) + FeeSum(e.applied) < U64
    && VotePower(e.votes) <= MaxBlockPower
  }

  ghost function After(t: Tally, height: nat, o: Outcome): Tally
  {
    Tally(t.income + o.split.toTreasury, t.paid + TotalPaid(o.payouts),
          if Boundary(height) then t.settled + [EpochOf(height)] else t.settled)
  }

  datatype Books = Books(state: State, tally: Tally)

  /** One block of a run; the run ends at a block that fails. */
  ghost function FeeStep(): (Books, Entry, nat) -> Option<Books>
  {
    (b: Books, e: Entry, height: nat) =>
      if !Follows(b.state, e) || FeeBlock(e, height).None? then None else
      var o := FeeBlock(e, height).value;
      Some(Books(o.state, After(b.tally, height, o)))
  }

  /** Blocks of the current epoch already executed before `height`. */
  function Elapsed(height: nat): nat
  {
    if height < FeeModelV2Height then 0 else (height - FeeModelV2Height) % EpochBlocks
  }

  function Settled(height: nat): nat
  {
    if height < FeeModelV2Height then 0 else (height - FeeModelV2Height) / EpochBlocks
  }

  /** The books before the block at `height`. */
  ghost predicate InOrder(b: Books, height: nat)
  {
    var (st, t) := (b.state, b.tally);
    && VotesSound(st) && st.feeIncome < U64
    && st.feeTotalPower <= Elapsed(height) * MaxBlockPower
    && 2 * t.paid + st.feeIncome <= t.income
    && |t.settled| == Settled(height) && (forall i :: 0 <= i < |t.settled| ==> t.settled[i] == i)
  }

  lemma Clock(height: nat)
    ensures Boundary(height) ==> Elapsed(height) == EpochBlocks - 1 && Elapsed(height + 1) == 0
    ensures Boundary(height) ==> Settled(height + 1) == Settled(height) + 1 && EpochOf(height) == Settled(height)
    ensures !Boundary(height) ==> Settled(height + 1) == Settled(height)
    ensures !Boundary(height) && height >= FeeModelV2Height ==> Elapsed(height + 1) == Elapsed(height) + 1
    ensures Elapsed(height) < EpochBlocks
  {
  }

  lemma FeeBlockInOrder(b: Books, e: Entry, height: nat)
    requires InOrder(b, height) && FeeStep()(b, e, height).Some?
    ensures InOrder(FeeStep()(b, e, height).value, height + 1)
  {
    Clock(height);
    SplitAccounts(e.pre, e.applied, e.proposer, height);
    var c := SplitFees(e.pre, e.applied, e.proposer, height).value;
    if height >= FeeModelV2Height {
      assert Elapsed(height) * MaxBlockPower + MaxBlockPower <= EpochBlocks * MaxBlockPower < U64;
      RecordVotesSound(c.state, e.votes);
      if Boundary(height) {
        DistributePays(RecordVotes(c.state, e.votes), EpochOf(height));
      }
    }
  }

  lemma EveryBlockInOrder()
    ensures forall b: Books, e: Entry, k: nat :: InOrder(b, k) && FeeStep()(b, e, k).Some? ==>
            InOrder(FeeStep()(b, e, k).value, k + 1)
  {
    forall b: Books, e: Entry, k: nat | InOrder(b, k) && FeeStep()(b, e, k).Some?
      ensures InOrder(FeeStep()(b, e, k).value, k + 1)
    {
      FeeBlockInOrder(b, e, k);
    }
  }

  /**
   Over every run from a chain with empty accumulators: epochs settle exactly at the boundary heights
   with consecutive numbers, the recorded signed power never exceeds the total power, no accumulator
   overflows, and validators have been paid at most half of the treasury's fee income.
   */
  lemma RunInOrder(b: Books, height: nat, entries: seq<Entry>)
    requires InOrder(b, height) && Fold(FeeStep(), b, entries, height).Some?
    ensures InOrder(Fold(FeeStep(), b, entries, height).value, height + |entries|)
  {
    EveryBlockInOrder();
    FoldKeeps(FeeStep(), InOrder, b, entries, height);
  }

  /** A block settles an epoch exactly at heights FeeModelV2Height + k * EpochBlocks - 1, as epoch k - 1. */
  lemma BoundaryHeights(height: nat)
    ensures Boundary(height) <==> exists k: nat :: k >= 1 && height == FeeModelV2Height + k * EpochBlocks - 1
    ensures Boundary(height) ==> height == FeeModelV2Height + (EpochOf(height) + 1) * EpochBlocks - 1
  {
    if Boundary(height) {
      assert height == FeeModelV2Height + (EpochOf(height) + 1) * EpochBlocks - 1;
      assert EpochOf(height) + 1 >= 1;
    }
    if k: nat :| k >= 1 && height == FeeModelV2Height + k * EpochBlocks - 1 {
      assert height - FeeModelV2Height + 1 == k * EpochBlocks;
      assert (k * EpochBlocks) % EpochBlocks == 0;
    }
  }
}
