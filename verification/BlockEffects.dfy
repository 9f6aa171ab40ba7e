/**
 What finalizing a block does to the state, account by account, and to the staked set that decides the
 blocks after it.
 */
module BlockEffects {
  import opened Arithmetic
  import opened Common
  import opened Ledger
  import opened StakeQuorum
  import opened ChainMachine
  import opened HotWindow
  import opened FeeEpoch

  // ---------------------------------------------------------------- balances

  /** What the corrections of `height` take from `a`. */
  function Due(corrections: seq<Correction>, height: nat, a: Address): nat
  {
    if corrections == [] then 0 else
    (if corrections[0].height == height && corrections[0].address == a then corrections[0].debit else 0) +
    Due(corrections[1..], height, a)
  }

  /** Corrections debit what is due, and never below zero. */
  lemma {:induction false} CorrectionsDebit(st: State, corrections: seq<Correction>, height: nat, a: Address)
    ensures ApplyCorrections(st, corrections, height).Balance(a) == Max(st.Balance(a) - Due(corrections, height, a), 0)
    decreases |corrections|
  {
    if corrections != [] {
      var c := corrections[0];
      var next :=
        if c.height != height then st
        else st.WithBalance(c.address, if st.Balance(c.address) > c.debit then st.Balance(c.address) - c.debit else 0);
      CorrectionsDebit(next, corrections[1..], height, a);
    }
  }

  /** Member `i` is the first with the key. */
  ghost predicate FirstWith(members: seq<ActiveValidator>, key: string, i: nat)
  {
    i < |members| && members[i].key == key && forall j :: 0 <= j < i ==> members[j].key != key
  }

  /** The operator of the first member with the key, if there is one. */
  lemma {:induction false} FirstOperator(members: seq<ActiveValidator>, key: string)
    ensures forall i: nat :: FirstWith(members, key, i) ==> OperatorOf(members, key) == members[i].operator
    ensures (forall i :: 0 <= i < |members| ==> members[i].key != key) ==> OperatorOf(members, key) == ""
  {
    if members != [] && members[0].key != key {
      FirstOperator(members[1..], key);
      forall i: nat | FirstWith(members, key, i) ensures OperatorOf(members, key) == members[i].operator {
        assert members[1..][i - 1] == members[i];
        forall j | 0 <= j < i - 1 ensures members[1..][j].key != key { assert members[1..][j] == members[j + 1]; }
        assert FirstWith(members[1..], key, i - 1);
      }
    }
  }

  /** The account a block's fees go to: the proposer's operator under stake, its roster account otherwise. */
  lemma PayeeExactly(r: Rules, cfg: Config, pre: State, height: nat, proposerId: string, i: nat)
    ensures var payee, staked := ProposerAddress(r, cfg, pre, height, proposerId),
                                 cfg.staking.consensusFrom > 0 && height >= cfg.staking.consensusFrom &&
                                   pre.snapshot != [];
            && (staked && DistinctKeys(pre.snapshot) && i < |pre.snapshot| &&
                 pre.snapshot[i].key == Lower(proposerId) ==>
                  payee == pre.snapshot[i].operator)
            && (staked && (forall m <- pre.snapshot :: m.key != Lower(proposerId)) ==> payee == "")
            && (!staked ==> payee == if proposerId in cfg.keys then r.addressOf(cfg.keys[proposerId]) else "")
  {
    FirstOperator(pre.snapshot, Lower(proposerId));
    if i < |pre.snapshot| && pre.snapshot[i].key == Lower(proposerId) && DistinctKeys(pre.snapshot) {
      assert FirstWith(pre.snapshot, Lower(proposerId), i);
    }
  }

  /** A block was finalized: the history grew. */
  ghost predicate Finalizes(r: Rules, cfg: Config, n: Node, b: Block, now: int)
  {
    |Next(r, cfg, n, FinalizeStep(b, now)).history| > |n.history|
  }

  lemma FinalizedState(r: Rules, cfg: Config, n: Node, b: Block, now: int)
    requires Finalizes(r, cfg, n, b, now)
    ensures CanFinalize(r, cfg, n.view, b, now)
    ensures Some(Next(r, cfg, n, FinalizeStep(b, now)).view.state) == Transition(r, cfg, n.view.state, b)
    ensures Next(r, cfg, n, FinalizeStep(b, now)).history == n.history + [Stamped(b)]
  {
  }

  /** Nothing dated before its parent, or more than five minutes ahead of the clock, is finalized. */
  lemma FinalizedOnTime(r: Rules, cfg: Config, n: Node, b: Block, now: int)
    requires Standing(n) && Finalizes(r, cfg, n, b, now) && b.header.timestamp.Some?
    ensures var parent := n.history[|n.history| - 1].header.timestamp;
            && b.header.timestamp.value <= now + 300 * 1_000_000_000
            && (parent.Some? ==> parent.value <= b.header.timestamp.value)
  {
    FinalizedState(r, cfg, n, b, now);
    assert n.view.blocks[|n.view.blocks| - 1] == n.history[|n.history| - 1];
  }

  lemma EconomyPays(r: Rules, cfg: Config, st: State, b: Block)
    requires Economy(r, cfg, st, b).Some?
    ensures var left, fees := ApplyAll(r, cfg, st, b.txs, b.header.height), FeeSum(b.txs);
            var payee := ProposerAddress(r, cfg, st, b.header.height, b.header.proposerId);
            && left.Some? && Economy(r, cfg, st, b).value ==
                 left.value.(balances := Economy(r, cfg, st, b).value.balances)
            && forall a :: Economy(r, cfg, st, b).value.Balance(a) ==
                           left.value.Balance(a) + if a == payee != "" then fees - Burned(fees) else 0
  {
    TotalFeesIsSum(b.txs, 0);
  }

  /**
   Finalizing a block leaves every account with what its transactions left it, plus the unburned fees if it is
   the payee, less what the corrections of the height take.
   */
  lemma FinalizePays(r: Rules, cfg: Config, n: Node, b: Block, now: int, a: Address)
    requires Finalizes(r, cfg, n, b, now)
    ensures var left, fees := ApplyAll(r, cfg, n.view.state, b.txs, b.header.height), FeeSum(b.txs);
            var payee := ProposerAddress(r, cfg, n.view.state, b.header.height, b.header.proposerId);
            && left.Some?
            && Next(r, cfg, n, FinalizeStep(b, now)).view.state.Balance(a) ==
               Max(left.value.Balance(a) + (if a == payee != "" then fees - Burned(fees) else 0)
                     - Due(cfg.corrections, b.header.height, a), 0)
  {
    FinalizedState(r, cfg, n, b, now);
    EconomyPays(r, cfg, n.view.state, b);
    CorrectionsDebit(Economy(r, cfg, n.view.state, b).value, cfg.corrections, b.header.height, a);
  }

  // ---------------------------------------------------------------- the authorizing set

  /** A snapshot height ends an epoch: the next block is the first, or a whole number of epochs later, under stake. */
  ghost predicate EndsEpoch(staking: Staking, height: nat)
  {
    staking.consensusFrom > 0 && staking.epochBlocks > 0 &&
    exists k: nat :: height + 1 == staking.consensusFrom + k * staking.epochBlocks
  }

  lemma SnapshotHeights(staking: Staking, height: nat)
    ensures staking.SnapshotHeight(height) <==> EndsEpoch(staking, height)
  {
    var from, e := staking.consensusFrom, staking.epochBlocks;
    if from > 0 && e > 0 {
      if height + 1 >= from {
        DividesExactly(height + 1 - from, e);
        assert forall k: nat :: height + 1 - from == k * e <==> height + 1 == from + k * e;
      } else {
        forall k: nat ensures height + 1 != from + k * e { MulLe(0, k, e); }
      }
    }
  }

  /** Within an epoch no other height ends one. */
  lemma NoneBetween(staking: Staking, first: nat, height: nat)
    requires EndsEpoch(staking, first) && first < height < first + staking.epochBlocks
    ensures !EndsEpoch(staking, height)
  {
    var e := staking.epochBlocks;
    var j: nat :| first + 1 == staking.consensusFrom + j * e;
    forall k: nat ensures height + 1 != staking.consensusFrom + k * e {
      if height + 1 == staking.consensusFrom + k * e { MultiplesApart(k, j, e); }
    }
  }

  /** A block that ends an epoch snapshots the staked set of the state it leaves; any other keeps the snapshot. */
  lemma SnapshotTaken(r: Rules, cfg: Config, n: Node, b: Block, now: int)
    requires Finalizes(r, cfg, n, b, now)
    ensures var left, st := ApplyAll(r, cfg, n.view.state, b.txs, b.header.height),
                            Next(r, cfg, n, FinalizeStep(b, now)).view.state;
            && left.Some?
            && st.snapshot == if EndsEpoch(cfg.staking, b.header.height)
                              then r.activeSet(st.(snapshot := left.value.snapshot), cfg.staking)
                              else left.value.snapshot
  {
    FinalizedState(r, cfg, n, b, now);
    EconomyPays(r, cfg, n.view.state, b);
    SnapshotHeights(cfg.staking, b.header.height);
    var credited := Economy(r, cfg, n.view.state, b).value;
    CorrectionsOnlyBalances(credited, cfg.corrections, b.header.height);
    var s := ApplyCorrections(credited, cfg.corrections, b.header.height);
    assert s.(snapshot := credited.snapshot) == s;
  }

  /** No transaction replaces the snapshot. */
  ghost predicate SnapshotUntouched(r: Rules)
  {
    forall st: State, tx: Tx, ctx: TxContext ::
      r.applyTx(st, tx, ctx).ok ==> r.applyTx(st, tx, ctx).state.snapshot == st.snapshot
  }

  lemma {:induction false} ApplyAllKeepsSnapshot(r: Rules, cfg: Config, st: State, txs: seq<Tx>, height: nat)
    requires SnapshotUntouched(r) && ApplyAll(r, cfg, st, txs, height).Some?
    ensures ApplyAll(r, cfg, st, txs, height).value.snapshot == st.snapshot
    decreases |txs|
  {
    if txs != [] {
      var a := ApplyTransaction(r, st, txs[0], BlockContext(cfg, height));
      ApplyAllKeepsSnapshot(r, cfg, a.state, txs[1..], height);
    }
  }

  lemma {:induction false} HistoryGrows(r: Rules, cfg: Config, n: Node, steps: seq<Step>)
    requires forall i :: 0 <= i < |steps| ==> !steps[i].SwapStep?
    ensures |Run(r, cfg, n, steps).history| >= |n.history|
    decreases |steps|
  {
    if steps != [] { HistoryGrows(r, cfg, Next(r, cfg, n, steps[0]), steps[1..]); }
  }

  lemma StepKeepsAuthority(r: Rules, cfg: Config, n: Node, step: Step, first: nat)
    requires Standing(n) && SnapshotUntouched(r) && EndsEpoch(cfg.staking, first) && !step.SwapStep?
    requires first < |n.history| && |Next(r, cfg, n, step).history| <= first + cfg.staking.epochBlocks
    ensures Next(r, cfg, n, step).view.state.snapshot == n.view.state.snapshot
  {
    if step.FinalizeStep? && Finalizes(r, cfg, n, step.b, step.now) {
      var b := step.b;
      FinalizedState(r, cfg, n, b, step.now);
      assert n.view.blocks[|n.view.blocks| - 1] == n.history[|n.history| - 1];
      NoneBetween(cfg.staking, first, b.header.height);
      SnapshotTaken(r, cfg, n, b, step.now);
      ApplyAllKeepsSnapshot(r, cfg, n.view.state, b.txs, b.header.height);
    }
  }

  lemma {:induction false} AuthorityHolds(r: Rules, cfg: Config, n: Node, steps: seq<Step>, first: nat)
    requires Standing(n) && SnapshotUntouched(r) && EndsEpoch(cfg.staking, first)
    requires forall i :: 0 <= i < |steps| ==> !steps[i].SwapStep?
    requires first < |n.history| && |Run(r, cfg, n, steps).history| <= first + cfg.staking.epochBlocks
    ensures Run(r, cfg, n, steps).view.state.snapshot == n.view.state.snapshot
    decreases |steps|
  {
    if steps != [] {
      var next := Next(r, cfg, n, steps[0]);
      HistoryGrows(r, cfg, next, steps[1..]);
      StepKeepsAuthority(r, cfg, n, steps[0], first);
      NextStanding(r, cfg, n, steps[0]);
      HistoryGrows(r, cfg, n, [steps[0]]);
      assert [steps[0]][1..] == [];
      AuthorityHolds(r, cfg, next, steps[1..], first);
    }
  }

  /**
   The set that decides the blocks of an epoch, heights h + 1 to h + epochBlocks, is the staked set of the state
   block h left, whatever is finalized in between.
   */
  lemma EpochAuthority(r: Rules, cfg: Config, n: Node, b: Block, now: int, steps: seq<Step>)
    requires Standing(n) && SnapshotUntouched(r)
    requires Finalizes(r, cfg, n, b, now) && EndsEpoch(cfg.staking, b.header.height)
    requires forall i :: 0 <= i < |steps| ==> !steps[i].SwapStep?
    requires var end := Run(r, cfg, Next(r, cfg, n, FinalizeStep(b, now)), steps);
             |end.history| <= b.header.height + cfg.staking.epochBlocks
    ensures var taken := Next(r, cfg, n, FinalizeStep(b, now));
            var end, st := Run(r, cfg, taken, steps), taken.view.state;
            StakeAuthority(cfg, end.view.state, |end.history|) ==
            r.activeSet(st.(snapshot := n.view.state.snapshot), cfg.staking)
  {
    var taken := Next(r, cfg, n, FinalizeStep(b, now));
    EpochBegins(r, cfg, n, b, now);
    HistoryGrows(r, cfg, taken, steps);
    AuthorityHolds(r, cfg, taken, steps, b.header.height);
    AuthorityIsSnapshot(cfg, Run(r, cfg, taken, steps), b.header.height);
  }

  lemma EpochBegins(r: Rules, cfg: Config, n: Node, b: Block, now: int)
    requires Standing(n) && SnapshotUntouched(r)
    requires Finalizes(r, cfg, n, b, now) && EndsEpoch(cfg.staking, b.header.height)
    ensures var taken := Next(r, cfg, n, FinalizeStep(b, now));
            && Standing(taken) && |taken.history| == b.header.height + 1
            && taken.view.state.snapshot ==
               r.activeSet(taken.view.state.(snapshot := n.view.state.snapshot), cfg.staking)
  {
    FinalizedState(r, cfg, n, b, now);
    SnapshotTaken(r, cfg, n, b, now);
    ApplyAllKeepsSnapshot(r, cfg, n.view.state, b.txs, b.header.height);
    NextStanding(r, cfg, n, FinalizeStep(b, now));
    assert n.view.blocks[|n.view.blocks| - 1] == n.history[|n.history| - 1];
  }

  lemma AuthorityIsSnapshot(cfg: Config, n: Node, first: nat)
    requires EndsEpoch(cfg.staking, first) && |n.history| > first
    ensures StakeAuthority(cfg, n.view.state, |n.history|) == n.view.state.snapshot
  {
    var k: nat :| first + 1 == cfg.staking.consensusFrom + k * cfg.staking.epochBlocks;
    MulLe(0, k, cfg.staking.epochBlocks);
  }
}
