/**
 The whole history is certified: every block above genesis, finalized or brought in by a reorganization, is
 linked, hashed, made of genuine transactions, committed to by its root and authorized -- by the stake
 snapshotted below it or by the roster -- in the state its predecessors replay to.
 */
module CertifiedHistory {
  import opened Common
  import opened Ledger
  import opened StakeQuorum
  import opened ChainMachine
  import opened HotWindow

  /** A staked proposer signed the block, and staked approvers hold more than two thirds. */
  ghost predicate StakeCertified(r: Rules, cfg: Config, members: seq<ActiveValidator>, b: Block)
  {
    && (exists i :: 0 <= i < |members| && members[i].key == Lower(b.header.proposerId) &&
          r.verifySig(members[i].key, StakeProposal(cfg.chainId, b.header.height, b.hash), b.proposerSignature))
    && QuorumMet(r, cfg.chainId, b, members)
  }

  /** A roster member proposed the block, and enough distinct members approved it. */
  ghost predicate RosterCertified(r: Rules, cfg: Config, b: Block)
  {
    && b.header.proposerId in cfg.keys
    && r.verifySig(cfg.keys[b.header.proposerId], RosterProposal(b.hash), b.proposerSignature)
    && |set id | id in b.quorumSignatures && id in cfg.keys &&
               r.verifySig(cfg.keys[id], RosterApproval(b.hash), b.quorumSignatures[id])| >= cfg.requiredQuorum
  }

  /** Who must have certified a block that follows state `st`. */
  ghost predicate CertifiedBy(r: Rules, cfg: Config, st: State, b: Block)
  {
    var h := b.header.height;
    if h > 0 && cfg.staking.consensusFrom > 0 && h >= cfg.staking.consensusFrom && st.snapshot != []
    then StakeCertified(r, cfg, st.snapshot, b)
    else h > 0 && cfg.keys != map[] && h >= cfg.authFrom ==> RosterCertified(r, cfg, b)
  }

  ghost predicate CertifiedBlock(r: Rules, cfg: Config, parent: Block, st: State, b: Block)
  {
    && b.hash == r.headerHash(b.header, b.txs) != "" && b.header.txMerkleRoot == r.txRoot(b.txs)
    && b.header.parentHash == parent.hash && b.header.height == parent.header.height + 1
    && (parent.header.timestamp.Some? && b.header.timestamp.Some? ==>
          parent.header.timestamp.value <= b.header.timestamp.value)
    && (forall i :: 0 <= i < |b.txs| ==> b.txs[i].chainId == cfg.TxDomain() && r.verifyTx(b.txs[i]))
    && CertifiedBy(r, cfg, st, b)
    && Transition(r, cfg, st, b).Some?
    && (b.header.height >= FeeModelV2Height ==> forall i :: 0 <= i < |b.txs| ==> b.txs[i].fee >= RequiredFee(b.txs[i]))
    && (b.header.height >= cfg.rootFrom ==> r.root(Transition(r, cfg, st, b).value) == b.header.stateRoot)
  }

  /** Each block of `bs` is certified by its predecessor and the state reached there. */
  ghost predicate CertifiedChain(r: Rules, cfg: Config, parent: Block, st: State, bs: seq<Block>)
    decreases |bs|
  {
    bs == [] ||
    (CertifiedBlock(r, cfg, parent, st, bs[0]) &&
      CertifiedChain(r, cfg, bs[0], Transition(r, cfg, st, bs[0]).value, bs[1..]))
  }

  ghost predicate Certified(r: Rules, cfg: Config, n: Node)
    requires n.history != [] && n.view.genesis.Some?
  {
    CertifiedChain(r, cfg, n.history[0], n.view.genesis.value, n.history[1..])
  }

  function Last(parent: Block, bs: seq<Block>): Block { if bs == [] then parent else bs[|bs| - 1] }

  lemma {:induction false} ChainAppend(r: Rules, cfg: Config, parent: Block, st: State, a: seq<Block>, b: seq<Block>)
    ensures CertifiedChain(r, cfg, parent, st, a + b) <==>
            && CertifiedChain(r, cfg, parent, st, a) && Replay(r, cfg, st, a).Some?
            && CertifiedChain(r, cfg, Last(parent, a), Replay(r, cfg, st, a).value, b)
    decreases |a|
  {
    if a == [] {
      assert a + b == b;
    } else {
      assert (a + b)[1..] == a[1..] + b;
      var next := Transition(r, cfg, st, a[0]);
      if next.Some? { ChainAppend(r, cfg, a[0], next.value, a[1..], b); }
    }
  }

  /** A valid block is certified, and so is its stamped copy. */
  lemma ValidIsCertified(r: Rules, cfg: Config, parent: Block, st: State, b: Block, now: int)
    requires ValidBlock(r, cfg, parent, st, b, now, true)
    ensures CertifiedBlock(r, cfg, parent, st, Stamped(b))
    ensures Transition(r, cfg, st, Stamped(b)) == Transition(r, cfg, st, b)
  {
    ValidIsAuthorized(r, cfg, parent, st, b, now);
    if b.header.height >= FeeModelV2Height { AllPay(r, cfg, st, b.txs, b.header.height); }
  }

  lemma {:induction false} AllPay(r: Rules, cfg: Config, st: State, txs: seq<Tx>, height: nat)
    requires height >= FeeModelV2Height && ApplyAll(r, cfg, st, txs, height).Some?
    ensures forall i :: 0 <= i < |txs| ==> txs[i].fee >= RequiredFee(txs[i])
    decreases |txs|
  {
    if txs != [] {
      var a := ApplyTransaction(r, st, txs[0], BlockContext(cfg, height));
      AllPay(r, cfg, a.state, txs[1..], height);
      forall i | 0 <= i < |txs| ensures txs[i].fee >= RequiredFee(txs[i]) {
        if i > 0 { assert txs[i] == txs[1..][i - 1]; }
      }
    }
  }

  lemma ValidIsAuthorized(r: Rules, cfg: Config, parent: Block, st: State, b: Block, now: int)
    requires ValidBlock(r, cfg, parent, st, b, now, true)
    ensures CertifiedBy(r, cfg, st, Stamped(b))
  {
    var members := StakeAuthority(cfg, st, b.header.height);
    if members != [] {
      StakedIsCertified(r, cfg, members, b);
    } else if b.header.height > 0 && cfg.keys != map[] && b.header.height >= cfg.authFrom {
      assert RosterApprovers(r, cfg.keys, b) ==
             set id | id in b.quorumSignatures && id in cfg.keys &&
                      r.verifySig(cfg.keys[id], RosterApproval(b.hash), b.quorumSignatures[id]);
    }
  }

  lemma StakedIsCertified(r: Rules, cfg: Config, members: seq<ActiveValidator>, b: Block)
    requires StakeAuthorized(r, cfg.chainId, b, members, true)
    ensures StakeCertified(r, cfg, members, Stamped(b))
  {
    var k := Lower(b.header.proposerId);
    ByKeyHolds(members, k);
    assert ByKey(members)[k].key == k;
    assert ApproversOf(r, cfg.chainId, Stamped(b), members) == ApproversOf(r, cfg.chainId, b, members);
  }

  lemma NextBlock(before: seq<Block>, after: seq<Block>, b: Block)
    requires |after| > |before| && after[..|before| + 1] == before + [Stamped(b)]
    ensures after[|before|] == Stamped(b) && after[|before|..][0] == Stamped(b)
    ensures after[|before|..][1..] == after[|before| + 1..]
  {
    assert after[|before|] == after[..|before| + 1][|before|];
  }

  /** What a chain finalizes on top of its last block is certified there. */
  lemma {:induction false} FinalizedCertified(r: Rules, cfg: Config, v: View, bs: seq<Option<Block>>,
                                              clock: nat -> int, k: nat)
    requires v.maxHot <= 0 && v.blocks != [] && FinalizeAll(r, cfg, v, bs, clock, k).Some?
    ensures var w := FinalizeAll(r, cfg, v, bs, clock, k).value;
            && |w.blocks| >= |v.blocks|
            && CertifiedChain(r, cfg, v.blocks[|v.blocks| - 1], v.state, w.blocks[|v.blocks|..])
    decreases |bs|
  {
    var w := FinalizeAll(r, cfg, v, bs, clock, k).value;
    FinalizedAll(r, cfg, v, bs, clock, k);
    if bs != [] {
      var b, tip := bs[0].value, v.blocks[|v.blocks| - 1];
      FinalizedOne(r, cfg, v, b, clock(k));
      ValidIsCertified(r, cfg, tip, v.state, b, clock(k));
      var v1 := Appended(r, cfg, v, b);
      FinalizedCertified(r, cfg, v1, bs[1..], clock, k + 1);
      FinalizedAll(r, cfg, v1, bs[1..], clock, k + 1);
      NextBlock(v.blocks, w.blocks, b);
    }
  }

  /** Certified on a scratch chain, away from corrections, is certified on the chain itself. */
  lemma {:induction false} ScratchCertifies(r: Rules, cfg: Config, parent: Block, st: State, bs: seq<Block>)
    requires CertifiedChain(r, ScratchConfig(cfg), parent, st, bs)
    requires forall i :: 0 <= i < |bs| ==> NoneAt(cfg.corrections, bs[i].header.height)
    ensures CertifiedChain(r, cfg, parent, st, bs)
    decreases |bs|
  {
    if bs != [] {
      TransitionWithoutCorrections(r, cfg, ScratchConfig(cfg), st, bs[0]);
      ScratchCertifiesOne(r, cfg, parent, st, bs[0]);
      ScratchCertifies(r, cfg, bs[0], Transition(r, cfg, st, bs[0]).value, bs[1..]);
    }
  }

  lemma ScratchCertifiesOne(r: Rules, cfg: Config, parent: Block, st: State, b: Block)
    requires CertifiedBlock(r, ScratchConfig(cfg), parent, st, b)
    requires Transition(r, cfg, st, b) == Transition(r, ScratchConfig(cfg), st, b)
    ensures CertifiedBlock(r, cfg, parent, st, b)
  {
  }

  /** A branch that replayed is certified from its anchor on. */
  lemma BranchCertified(r: Rules, cfg: Config, a: Attempt, clock: nat -> int)
    requires Evaluate(r, cfg, a, clock).Some? && ClearOfCorrections(cfg, a)
    requires a.candidate != [] && a.candidate[0].Some? && a.candidate[0].value.header.height == a.forkHeight
    requires a.forkHeight == Max(a.hotStart, 1) + |a.prefix| && forall i :: 0 <= i < |a.prefix| ==>
             a.prefix[i].finalized
    ensures CertifiedChain(r, cfg, a.baseBlock, a.base, Evaluate(r, cfg, a, clock).value.blocks[1..])
  {
    var w := Evaluate(r, cfg, a, clock).value;
    FinalizedCertified(r, ScratchConfig(cfg), ScratchView(a), Wrapped(a.prefix) + a.candidate, clock, 0);
    EvaluatedBranch(r, cfg, a, clock);
    BranchHeights(a, w.blocks);
    var bs := w.blocks[1..];
    forall i | 0 <= i < |bs| ensures NoneAt(cfg.corrections, bs[i].header.height) {
      assert bs[i] == w.blocks[i + 1];
    }
    ScratchCertifies(r, cfg, a.baseBlock, a.base, bs);
  }

  /** A swap grafts certified blocks onto a certified beginning. */
  lemma SwapCertified(r: Rules, cfg: Config, n: Node, i: nat, clock: nat -> int)
    requires Sound(r, cfg, n) && Certified(r, cfg, n)
    requires Installs(r, cfg, n, SwapStep(i, clock)) && ClearOfCorrections(cfg, n.attempts[i])
    ensures var n' := Next(r, cfg, n, SwapStep(i, clock));
            n'.history != [] && n'.view.genesis == n.view.genesis && Certified(r, cfg, n')
  {
    var a, w := n.attempts[i], Evaluate(r, cfg, n.attempts[i], clock).value;
    assert Tracks(n.view, n.history, a);
    EvaluatedBranch(r, cfg, a, clock);
    BranchCertified(r, cfg, a, clock);
    InstallCertified(r, cfg, n.view, n.history, n.dropped, a, w);
    SwapInstalls(r, cfg, n, i, clock);
  }

  lemma InstallCertified(r: Rules, cfg: Config, v: View, history: seq<Block>, dropped: nat, a: Attempt, w: View)
    requires Agrees(r, cfg, v, history, dropped) && Tracks(v, history, a) && v.hotStart == a.hotStart
    requires CertifiedChain(r, cfg, history[0], v.genesis.value, history[1..])
    requires Branch(a, w.blocks) && CertifiedChain(r, cfg, a.baseBlock, a.base, w.blocks[1..])
    ensures var h := Grafted(history, a, w);
            h != [] && CertifiedChain(r, cfg, h[0], v.genesis.value, h[1..])
  {
    BranchHeights(a, w.blocks);
    AnchorStands(r, cfg, v, history, dropped, a);
    GraftedParts(history, a, w);
    GraftCertified(r, cfg, history, v.genesis.value, Max(a.hotStart, 1), a.base, w.blocks[1..]);
    assert Grafted(history, a, w)[0] == history[0];
  }

  lemma GraftCertified(r: Rules, cfg: Config, history: seq<Block>, g: State, keep: nat, base: State, branch: seq<Block>)
    requires 0 < keep <= |history| && CertifiedChain(r, cfg, history[0], g, history[1..])
    requires Replay(r, cfg, g, history[1..keep]) == Some(base) &&
             CertifiedChain(r, cfg, history[keep - 1], base, branch)
    ensures CertifiedChain(r, cfg, history[0], g, history[1..keep] + branch)
  {
    var kept := history[1..keep];
    assert history[1..] == kept + history[keep..] && Last(history[0], kept) == history[keep - 1];
    Regraft(r, cfg, history[0], g, kept, history[keep..], base, branch);
  }

  lemma Regraft(r: Rules, cfg: Config, parent: Block, g: State, kept: seq<Block>, dropped: seq<Block>, base: State,
                branch: seq<Block>)
    requires CertifiedChain(r, cfg, parent, g, kept + dropped)
    requires Replay(r, cfg, g, kept) == Some(base) && CertifiedChain(r, cfg, Last(parent, kept), base, branch)
    ensures CertifiedChain(r, cfg, parent, g, kept + branch)
  {
    ChainAppend(r, cfg, parent, g, kept, dropped);
    ChainAppend(r, cfg, parent, g, kept, branch);
  }

  lemma FinalizeCertified(r: Rules, cfg: Config, n: Node, b: Block, now: int)
    requires Sound(r, cfg, n) && Certified(r, cfg, n)
    ensures var n' := Next(r, cfg, n, FinalizeStep(b, now));
            n'.history != [] && n'.view.genesis == n.view.genesis && Certified(r, cfg, n')
  {
    if CanFinalize(r, cfg, n.view, b, now) {
      var tip := n.history[|n.history| - 1];
      assert n.view.blocks[|n.view.blocks| - 1] == tip;
      ValidIsCertified(r, cfg, tip, n.view.state, b, now);
      AppendedCertified(r, cfg, n.history, n.view.genesis.value, n.view.state, Stamped(b));
    }
  }

  lemma AppendedCertified(r: Rules, cfg: Config, history: seq<Block>, g: State, st: State, b: Block)
    requires history != [] && CertifiedChain(r, cfg, history[0], g, history[1..])
    requires Replay(r, cfg, g, history[1..]) == Some(st) && CertifiedBlock(r, cfg, history[|history| - 1], st, b)
    ensures CertifiedChain(r, cfg, history[0], g, (history + [b])[1..])
  {
    assert (history + [b])[1..] == history[1..] + [b] && [b][1..] == [];
    assert Last(history[0], history[1..]) == history[|history| - 1];
    ChainAppend(r, cfg, history[0], g, history[1..], [b]);
  }

  /** One step keeps the history certified. */
  lemma NextCertified(r: Rules, cfg: Config, n: Node, step: Step)
    requires Sound(r, cfg, n) && Certified(r, cfg, n)
    requires Installs(r, cfg, n, step) ==> ClearOfCorrections(cfg, n.attempts[step.attempt])
    ensures var n' := Next(r, cfg, n, step);
            n'.history != [] && n'.view.genesis == n.view.genesis && Certified(r, cfg, n')
  {
    match step
    case FinalizeStep(b, now) => FinalizeCertified(r, cfg, n, b, now);
    case WindowStep(maxHot) =>
    case BeginStep(forkHeight, candidate) =>
    case SwapStep(i, clock) => if Installs(r, cfg, n, step) { SwapCertified(r, cfg, n, i, clock); }
  }

  /** Over every run, however reorganizations interleave, the history is certified from genesis to tip. */
  lemma {:induction false} RunCertified(r: Rules, cfg: Config, n: Node, steps: seq<Step>)
    requires Sound(r, cfg, n) && Certified(r, cfg, n) && Clear(r, cfg, n, steps)
    ensures var n' := Run(r, cfg, n, steps);
            n'.history != [] && n'.view.genesis == n.view.genesis && Certified(r, cfg, n')
    decreases |steps|
  {
    if steps != [] {
      NextSound(r, cfg, n, steps[0]);
      NextCertified(r, cfg, n, steps[0]);
      RunCertified(r, cfg, Next(r, cfg, n, steps[0]), steps[1..]);
    }
  }
}
