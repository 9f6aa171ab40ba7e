/**
 The chain object itself: fields that locked methods overwrite, loops over blocks, transactions and
 signature maps. Each method is tied to the machine of `ChainMachine`, whose runs are proved sound in
 `HotWindow` and `ForkChoice`.
 */
module ChainObject {
  import opened Common
  import opened Ledger
  import opened StakeQuorum
  import opened ChainMachine
  import Building = BlockBuilding
  import Reads = BlockReads

  datatype Error = NoGenesis | BadBlock | StateRootMismatch | BadTransaction | Rejected(reason: string)

  /** Distinct roster members whose approval of `b` verifies: the weight fork choice gives a block. */
  method VerifiedApprovalCount(r: Rules, keys: map<string, string>, b: Block) returns (count: nat)
    ensures count == Approvals(r, keys, b)
  {
    count := 0;
    if keys == map[] {
      assert RosterApprovers(r, keys, b) == {};
      return;
    }
    var rest := b.quorumSignatures.Keys;
    ghost var approvers := RosterApprovers(r, keys, b);
    assert approvers - rest == {};
    while rest != {}
      invariant rest <= b.quorumSignatures.Keys && count == |approvers - rest|
      decreases rest
    {
      var id :| id in rest;
      OneLess(approvers, rest, id);
      rest := rest - {id};
      if id in keys && r.verifySig(keys[id], RosterApproval(b.hash), b.quorumSignatures[id]) {
        count := count + 1;
      }
    }
    assert approvers - rest == approvers;
  }

  lemma OneLess(approvers: set<string>, rest: set<string>, id: string)
    requires id in rest
    ensures |approvers - (rest - {id})| == |approvers - rest| + if id in approvers then 1 else 0
  {
    var before, after := approvers - rest, approvers - (rest - {id});
    assert after == if id in approvers then before + {id} else before;
  }

  method ScoreOf(r: Rules, keys: map<string, string>, blocks: seq<Option<Block>>) returns (total: nat)
    ensures total == Score(r, keys, Present(blocks))
  {
    total := 0;
    for i := 0 to |blocks|
      invariant total == Score(r, keys, Present(blocks[..i]))
    {
      assert blocks[..i + 1][..i] == blocks[..i];
      ghost var before := Present(blocks[..i]);
      assert before + [] == before;
      if blocks[i].Some? {
        var n := VerifiedApprovalCount(r, keys, blocks[i].value);
        total := total + n;
        assert (before + [blocks[i].value])[..|before|] == before;
      }
    }
    assert blocks[..|blocks|] == blocks;
  }

  method IsHeavier(r: Rules, keys: map<string, string>, a: Attempt) returns (heavier: bool)
    ensures heavier <==> Heavier(r, keys, a)
  {
    var candidateScore := ScoreOf(r, keys, a.candidate);
    var currentScore := ScoreOf(r, keys, Wrapped(a.tail));
    PresentWrapped(a.tail);
    return !(candidateScore < currentScore || (candidateScore == currentScore && |a.candidate| <= |a.tail|));
  }

  lemma {:induction false} PresentWrapped(bs: seq<Block>)
    ensures Present(Wrapped(bs)) == bs
  {
    if bs != [] {
      var n := |bs| - 1;
      PresentWrapped(bs[..n]);
      assert Wrapped(bs)[..n] == Wrapped(bs[..n]);
      assert bs == bs[..n] + [bs[n]];
    }
  }

  /** A block's effect on `st`: transactions, then fees, then the end-of-block steps. */
  method ApplyBlock(r: Rules, cfg: Config, st: State, b: Block) returns (next: Option<State>)
    ensures next == Transition(r, cfg, st, b)
  {
    var applied := st;
    for i := 0 to |b.txs|
      invariant ApplyAll(r, cfg, st, b.txs, b.header.height) == ApplyAll(r, cfg, applied, b.txs[i..], b.header.height)
    {
      assert b.txs[i..][1..] == b.txs[i + 1..];
      var a := ApplyTransaction(r, applied, b.txs[i], BlockContext(cfg, b.header.height));
      if !a.ok {
        return None;
      }
      applied := a.state;
    }
    var credited := CreditFees(applied, b.txs, ProposerAddress(r, cfg, st, b.header.height, b.header.proposerId));
    if credited.None? {
      return None;
    }
    var finished := FinishBlock(r, cfg, credited.value, b.header.height);
    return Some(finished);
  }

  /** Move a checkpoint state over blocks about to be evicted. */
  method AdvanceCheckpoint(r: Rules, cfg: Config, st: State, evicted: seq<Block>) returns (next: Option<State>)
    ensures next == Replay(r, cfg, st, evicted)
  {
    var reached := st;
    for i := 0 to |evicted|
      invariant Replay(r, cfg, st, evicted) == Replay(r, cfg, reached, evicted[i..])
    {
      assert evicted[i..][1..] == evicted[i + 1..];
      var advanced := ApplyBlock(r, cfg, reached, evicted[i]);
      if advanced.None? {
        return None;
      }
      reached := advanced.value;
    }
    return Some(reached);
  }

  method CreditFees(st: State, txs: seq<Tx>, proposer: Address) returns (next: Option<State>)
    ensures next == CreditProposerFees(st, txs, proposer)
  {
    var total: nat := 0;
    for i := 0 to |txs|
      invariant TotalFees(txs) == TotalFees(txs[i..], total)
    {
      assert txs[i..][1..] == txs[i + 1..];
      var sum := SafeAdd(total, txs[i].fee);
      if sum.None? {
        return None;
      }
      total := sum.value;
    }
    if total == 0 || proposer == "" {
      return Some(st);
    }
    var nextBalance := SafeAdd(st.Balance(proposer), total - Burned(total));
    if nextBalance.None? {
      return None;
    }
    return Some(st.WithBalance(proposer, nextBalance.value));
  }

  method FinishBlock(r: Rules, cfg: Config, st: State, height: nat) returns (next: State)
    ensures next == Finish(r, cfg, st, height)
  {
    next := st;
    for i := 0 to |cfg.corrections|
      invariant ApplyCorrections(st, cfg.corrections, height) == ApplyCorrections(next, cfg.corrections[i..], height)
    {
      assert cfg.corrections[i..][1..] == cfg.corrections[i + 1..];
      var c := cfg.corrections[i];
      if c.height == height {
        var balance := next.Balance(c.address);
        next := next.WithBalance(c.address, if balance > c.debit then balance - c.debit else 0);
      }
    }
    if cfg.staking.SnapshotHeight(height) {
      next := next.(snapshot := r.activeSet(next, cfg.staking));
    }
  }

  method VerifyRoster(r: Rules, cfg: Config, b: Block, requireQuorum: bool) returns (ok: bool)
    ensures ok <==> RosterAuthorized(r, cfg, b, requireQuorum)
  {
    if b.header.proposerId !in cfg.keys {
      return false;
    }
    if !r.verifySig(cfg.keys[b.header.proposerId], RosterProposal(b.hash), b.proposerSignature) {
      return false;
    }
    if !requireQuorum {
      return true;
    }
    var seen := VerifiedApprovalCount(r, cfg.keys, b);
    return seen >= cfg.requiredQuorum;
  }

  /** Everything about a block's own bytes: all checks but the replayed state root. */
  ghost predicate SoundBytes(r: Rules, cfg: Config, tip: Block, st: State, b: Block, now: int, requireQuorum: bool)
  {
    && b.hash != "" && Extends(tip, b) && Timely(tip, b, now) && Authorized(r, cfg, st, b, requireQuorum)
    && r.headerHash(b.header, b.txs) == b.hash && r.txRoot(b.txs) == b.header.txMerkleRoot
    && Genuine(r, cfg, b.txs) && Transition(r, cfg, st, b).Some?
  }

  /** The mempool once `txs` are in a block. */
  function Without(pool: map<string, Tx>, txs: seq<Tx>): map<string, Tx>
  {
    pool - set i | 0 <= i < |txs| :: txs[i].id
  }

  class Chain {
    const r: Rules
    const cfg: Config

    var blocks: seq<Block>
    var state: State
    var mempool: map<string, Tx>
    var hotWindowStart: nat
    var maxHotBlocks: int
    var coldBlocks: Option<Reads.Archive>
    var hotWindowBaseState: Option<State>
    var hotWindowBaseBlock: Option<Block>
    var genesisState: Option<State>

    function Current(): View
      reads this
    {
      View(blocks, state, hotWindowStart, maxHotBlocks, hotWindowBaseState, hotWindowBaseBlock, genesisState)
    }

    /** NewChain: genesis is the only block and is never applied. */
    constructor (r: Rules, cfg: Config, genesis: State, genesisBlock: Block)
      ensures this.r == r && this.cfg == cfg && mempool == map[] && coldBlocks == None
      ensures Current() == View([genesisBlock], genesis, 0, 0, None, None, Some(genesis))
    {
      this.r, this.cfg := r, cfg;
      blocks, state, mempool := [genesisBlock], genesis, map[];
      hotWindowStart, maxHotBlocks, coldBlocks := 0, 0, None;
      hotWindowBaseState, hotWindowBaseBlock, genesisState := None, None, Some(genesis);
    }

    /** The disposable chain a reorganization replays on. */
    constructor Scratch(r: Rules, cfg: Config, a: Attempt)
      ensures this.r == r && this.cfg == ScratchConfig(cfg) && Current() == ScratchView(a)
    {
      this.r, this.cfg := r, ScratchConfig(cfg);
      blocks, state, mempool := [a.baseBlock], a.base, map[];
      hotWindowStart, maxHotBlocks, coldBlocks := 0, 0, None;
      hotWindowBaseState, hotWindowBaseBlock, genesisState := None, None, None;
    }

    method TrimHotWindow()
      modifies this
      ensures Current() == Trim(r, cfg, old(Current()))
      ensures mempool == old(mempool) && coldBlocks == old(coldBlocks)
    {
      if maxHotBlocks <= 0 {
        return;
      }
      var excess := |blocks| - maxHotBlocks;
      if excess <= 0 {
        return;
      }
      var base := Current().BaseState();
      if base.None? {
        return;
      }
      var next := AdvanceCheckpoint(r, cfg, base.value, blocks[..excess]);
      if next.None? {
        return;
      }
      Evict(excess, next.value);
    }

    /** Drop the oldest blocks and remember the state and block just before the rest. */
    method Evict(excess: nat, next: State)
      requires 0 < excess <= |blocks|
      modifies this
      ensures Current() == Evicted(old(Current()), excess, next)
      ensures mempool == old(mempool) && coldBlocks == old(coldBlocks)
    {
      hotWindowBaseState, hotWindowBaseBlock := Some(next), Some(blocks[excess - 1]);
      blocks, hotWindowStart := blocks[excess..], hotWindowStart + excess;
    }

    method SetHotWindow(maxHot: int, archive: Option<Reads.Archive>)
      modifies this
      ensures Current() == Trim(r, cfg, old(Current()).(maxHot := maxHot))
      ensures coldBlocks == archive && mempool == old(mempool)
    {
      maxHotBlocks, coldBlocks := maxHot, archive;
      TrimHotWindow();
    }

    /** A state-root mismatch is reported only once everything about the block itself has passed. */
    method ValidateBlock(candidate: Option<Block>, now: int, requireQuorum: bool) returns (error: Option<Error>)
      ensures error.None? <==>
        candidate.Some? && blocks != [] &&
          ValidBlock(r, cfg, blocks[|blocks| - 1], state, candidate.value, now, requireQuorum)
      ensures error == Some(StateRootMismatch) <==>
        && candidate.Some? && blocks != [] &&
             SoundBytes(r, cfg, blocks[|blocks| - 1], state, candidate.value, now, requireQuorum)
        && !ValidBlock(r, cfg, blocks[|blocks| - 1], state, candidate.value, now, requireQuorum)
    {
      if candidate.None? || candidate.value.hash == "" {
        return Some(BadBlock);
      }
      var b := candidate.value;
      if blocks == [] {
        return Some(NoGenesis);
      }
      var tip := blocks[|blocks| - 1];
      if !Extends(tip, b) || !Timely(tip, b, now) {
        return Some(BadBlock);
      }
      var authorized := Authorize(b, requireQuorum);
      if !authorized {
        return Some(BadBlock);
      }
      if r.headerHash(b.header, b.txs) != b.hash || r.txRoot(b.txs) != b.header.txMerkleRoot {
        return Some(BadBlock);
      }
      for i := 0 to |b.txs|
        invariant Genuine(r, cfg, b.txs[..i])
      {
        if b.txs[i].chainId != cfg.TxDomain() || !r.verifyTx(b.txs[i]) {
          assert !Genuine(r, cfg, b.txs);
          return Some(BadTransaction);
        }
      }
      assert b.txs[..|b.txs|] == b.txs;
      var next := ApplyBlock(r, cfg, state, b);
      if next.None? {
        return Some(BadTransaction);
      }
      if b.header.height >= cfg.rootFrom && r.root(next.value) != b.header.stateRoot {
        return Some(StateRootMismatch);
      }
      return None;
    }

    method Authorize(b: Block, requireQuorum: bool) returns (ok: bool)
      ensures ok <==> Authorized(r, cfg, state, b, requireQuorum)
    {
      var members := StakeAuthority(cfg, state, b.header.height);
      if members != [] {
        ok := VerifyStakeAuthorization(r, cfg.chainId, b, members, requireQuorum);
      } else if b.header.height > 0 && cfg.keys != map[] && b.header.height >= cfg.authFrom {
        ok := VerifyRoster(r, cfg, b, requireQuorum);
      } else {
        ok := true;
      }
    }

    /** The transition is recomputed after validation; its own checks can no longer fail. */
    method FinalizeBlock(candidate: Option<Block>, now: int) returns (error: Option<Error>)
      modifies this
      ensures error.None? <==> candidate.Some? && CanFinalize(r, cfg, old(Current()), candidate.value, now)
      ensures error.None? ==>
        && Some(Current()) == ChainMachine.FinalizeBlock(r, cfg, old(Current()), candidate.value, now)
        && mempool == Without(old(mempool), candidate.value.txs)
      ensures error.Some? ==> Current() == old(Current()) && mempool == old(mempool)
      ensures coldBlocks == old(coldBlocks)
    {
      error := ValidateBlock(candidate, now, true);
      if error.Some? {
        return;
      }
      var next := Recompute(candidate.value, now);
      Accept(candidate.value, next);
    }

    /** The transition once more, with checks that cannot fail after validation. */
    method Recompute(b: Block, ghost now: int) returns (next: State)
      requires CanFinalize(r, cfg, Current(), b, now)
      ensures Some(next) == Transition(r, cfg, state, b)
    {
      var applied := ApplyBlock(r, cfg, state, b);
      if applied.None? || (b.header.height >= cfg.rootFrom && r.root(applied.value) != b.header.stateRoot) {
        assert false;
      }
      return applied.value;
    }

    /** The writes of a finalization. */
    method Accept(b: Block, next: State)
      modifies this
      ensures Current() == Trim(r, cfg, old(Current()).(state := next, blocks := old(blocks) + [Stamped(b)]))
      ensures mempool == Without(old(mempool), b.txs) && coldBlocks == old(coldBlocks)
    {
      state := next;
      blocks := blocks + [Stamped(b)];
      ForgetIncluded(b.txs);
      TrimHotWindow();
    }

    method ForgetIncluded(txs: seq<Tx>)
      modifies this`mempool
      ensures mempool == Without(old(mempool), txs)
    {
      for i := 0 to |txs|
        invariant mempool == Without(old(mempool), txs[..i])
      {
        assert txs[..i + 1] == txs[..i] + [txs[i]];
        mempool := mempool - {txs[i].id};
      }
      assert txs[..|txs|] == txs;
    }

    // -------------------------------------------------------------- mempool and block building

    method SubmitTx(tx: Tx, now: int) returns (error: Option<Error>)
      requires Building.MempoolOk(r, cfg, mempool)
      modifies this`mempool
      ensures Building.MempoolOk(r, cfg, mempool)
      ensures error.None? <==>
        && tx.id != "" && tx.id !in old(mempool) && r.verifyTx(tx) && tx.chainId == cfg.TxDomain()
        && tx.nonce == r.nextNonce(state, tx.from)
        && (MetadataValue(tx.metadata, "type") in {"citizen_stake", "citizen_claim_rewards"} ==>
              -300 <= tx.timestamp - now / Second <= 300)
      ensures error.None? ==> mempool == old(mempool)[tx.id := tx]
      ensures error.Some? ==> mempool == old(mempool)
    {
      if tx.id == "" || !r.verifyTx(tx) || tx.chainId != cfg.TxDomain() {
        return Some(BadTransaction);
      }
      if tx.id in mempool {
        return Some(Rejected("already in mempool"));
      }
      if tx.nonce != r.nextNonce(state, tx.from) {
        return Some(Rejected("nonce mismatch"));
      }
      var kind := MetadataValue(tx.metadata, "type");
      var skew := tx.timestamp - now / Second;
      if (kind == "citizen_stake" || kind == "citizen_claim_rewards") && (skew > 300 || skew < -300) {
        return Some(Rejected("timestamp too far from the current time"));
      }
      mempool := mempool[tx.id := tx];
      return None;
    }

    /** The block depends on the mempool's contents, not on the order its map is walked in. */
    method BuildBlock(proposerId: string, pocRoot: string, maxTx: int, now: int) returns (built: Option<Block>)
      requires Building.MempoolOk(r, cfg, mempool)
      ensures built == if blocks == [] then None
                   else Building.Build(r, cfg, blocks[|blocks| - 1], state, Building.Candidates(mempool),
                                       proposerId, pocRoot, if maxTx <= 0 then 1000 else maxTx, now)
    {
      if blocks == [] {
        return None;
      }
      var tip, limit := blocks[|blocks| - 1], Building.BlockLimit(maxTx);
      var height := tip.header.height + 1;
      var candidates := SortedCandidates();
      var sel := SelectTxs(candidates, height, limit);
      var credited := CreditFees(sel.state, sel.chosen, ProposerAddress(r, cfg, state, height, proposerId));
      if credited.None? {
        return None;
      }
      var b := SealBlock(tip, credited.value, sel.chosen, proposerId, pocRoot, now);
      return Some(b);
    }

    method SortedCandidates() returns (candidates: seq<Tx>)
      requires Building.MempoolOk(r, cfg, mempool)
      ensures candidates == Building.Candidates(mempool)
    {
      Building.CandidatesOrdered(r, cfg, mempool);
      candidates := SortedListing(Building.TxBefore, mempool.Values);
    }

    method SealBlock(tip: Block, credited: State, txs: seq<Tx>, proposerId: string, pocRoot: string, now: int)
      returns (b: Block)
      ensures b == Building.Sealed(r, cfg, tip, credited, txs, proposerId, pocRoot, now)
    {
      var height := tip.header.height + 1;
      var finished := FinishBlock(r, cfg, credited, height);
      var corrected := ApplyCorrections(finished, cfg.corrections, height);
      var header :=
        Header(height, tip.hash, Some(Building.Truncated(now)), proposerId, r.txRoot(txs), r.root(corrected), pocRoot);
      return Block(header, txs, r.headerHash(header, txs), false, "", map[]);
    }

    method SelectTxs(candidates: seq<Tx>, height: nat, limit: nat) returns (sel: Building.Selection)
      ensures sel == Building.Select(r, cfg, Building.Selection(state, []), candidates, height, limit)
    {
      sel := Building.Selection(state, []);
      var i := 0;
      while i < |candidates| && |sel.chosen| < limit
        invariant i <= |candidates|
        invariant Building.Select(r, cfg, Building.Selection(state, []), candidates, height, limit)
               == Building.Select(r, cfg, sel, candidates[i..], height, limit)
      {
        assert candidates[i..][1..] == candidates[i + 1..];
        var a := ApplyTransaction(r, sel.state, candidates[i], BlockContext(cfg, height));
        sel := Building.Selection(a.state, if a.ok then sel.chosen + [candidates[i]] else sel.chosen);
        i := i + 1;
      }
    }

    // -------------------------------------------------------------- reads

    method BlockAt(height: nat) returns (b: Option<Block>)
      ensures b == Reads.BlockAt(Current(), coldBlocks, height)
    {
      var (hot, maybeCold) := Reads.HotAt(Current(), height);
      if hot.Some? || !maybeCold || coldBlocks.None? {
        return hot;
      }
      return coldBlocks.value(height);
    }

    method BlocksRange(from: int, limit: int) returns (out: seq<Block>)
      ensures out == Reads.BlocksRange(Current(), coldBlocks, from, limit)
    {
      var start := Max(from, 0);
      if blocks == [] || start > Current().Height() {
        return [];
      }
      var hot := Reads.HotPart(Current(), start, limit);
      if start >= hotWindowStart || coldBlocks.None? {
        return hot;
      }
      out := ReadCold(coldBlocks.value, start, hotWindowStart, limit);
      if |out| < hotWindowStart - start || 0 < limit <= |out| {
        return;
      }
      if limit > 0 && |out| + |hot| > limit {
        assert false; // the hot part was already cut to what the limit leaves
      }
      out := out + hot;
    }

    /** Read archived heights until the limit, a gap, or the window. */
    static method ReadCold(archive: Reads.Archive, from: nat, until: nat, limit: int) returns (out: seq<Block>)
      requires from <= until
      ensures var cold := Reads.ColdRun(archive, from, until);
              out == if 0 < limit < |cold| then cold[..limit] else cold
    {
      out := [];
      ghost var cold := Reads.ColdRun(archive, from, until);
      for h := from to until
        invariant |out| == h - from <= |cold| && out == cold[..|out|]
        invariant limit > 0 ==> |out| <= limit
      {
        if limit > 0 && |out| >= limit {
          assert |out| == |cold| ==> out == cold;
          return;
        }
        var b := archive(h);
        assert h == from + |out| && (|out| < |cold| ==> archive(from + |out|) == Some(cold[|out|]));
        if b.None? {
          assert |out| == |cold| && cold[..|cold|] == cold;
          return;
        }
        assert b == Some(cold[|out|]);
        out := out + [b.value];
      }
    }

    // -------------------------------------------------------------- reorganization

    method BeginReorg(forkHeight: nat, candidate: seq<Option<Block>>) returns (begun: BeginResult)
      requires Indexable(Current())
      ensures begun == Begin(Current(), forkHeight, candidate)
    {
      var v := Current();
      if genesisState.None? {
        return Refused("genesis state not seeded");
      }
      if forkHeight == 0 || forkHeight > v.Height() {
        return Refused("invalid fork height");
      }
      if forkHeight < hotWindowStart {
        return Refused("fork height predates the hot window");
      }
      if candidate == [] {
        return Refused("empty candidate branch");
      }
      if candidate[0].None? || candidate[0].value.header.height != forkHeight {
        return Refused("candidate starts elsewhere");
      }
      var first, end := if hotWindowStart == 0 then 1 else 0, forkHeight - hotWindowStart;
      var prefix, tail := blocks[first..end], blocks[end..];
      if v.BaseState().None? || v.BaseBlock().None? {
        return Refused("hot-window checkpoint not established");
      }
      return Begun(Attempt(forkHeight, candidate, prefix, tail, v.BaseState().value, v.BaseBlock().value,
        hotWindowStart, |blocks|));
    }

    /** Fork choice and replay, away from the lock: nothing of the live chain is touched. */
    static method EvaluateReorg(r: Rules, cfg: Config, a: Attempt, clock: nat -> int) returns (replayed: Option<View>)
      ensures replayed == Evaluate(r, cfg, a, clock)
    {
      EvaluateInParts(r, cfg, a, clock);
      var heavier := IsHeavier(r, cfg.keys, a);
      if !heavier {
        return None;
      }
      var scratch := new Chain.Scratch(r, cfg, a);
      var ok := scratch.FinalizeEach(Wrapped(a.prefix), clock, 0);
      if !ok {
        return None;
      }
      ok := scratch.FinalizeEach(a.candidate, clock, |a.prefix|);
      if !ok {
        return None;
      }
      return Some(scratch.Current());
    }

    /** Finalize block after block, stopping at the first that is nil or refused. */
    method FinalizeEach(bs: seq<Option<Block>>, clock: nat -> int, k: nat) returns (ok: bool)
      modifies this
      ensures ok <==> FinalizeAll(r, cfg, old(Current()), bs, clock, k).Some?
      ensures ok ==> FinalizeAll(r, cfg, old(Current()), bs, clock, k) == Some(Current())
    {
      ghost var step, start := Finalizer(r, cfg, clock), Current();
      for i := 0 to |bs|
        invariant Fold(step, start, bs[..i], k) == Some(Current())
      {
        FoldSnoc(step, start, bs, i, k);
        if bs[i].None? {
          FoldRefused(step, start, bs, i + 1, k);
          return false;
        }
        var error := FinalizeBlock(bs[i], clock(k + i));
        if error.Some? {
          FoldRefused(step, start, bs, i + 1, k);
          return false;
        }
      }
      assert bs[..|bs|] == bs;
      return true;
    }

    method SwapReorg(a: Attempt, replayed: View) returns (done: bool)
      requires |replayed.blocks| >= 1 + |a.prefix|
      modifies this
      ensures done <==> Unmoved(old(Current()), a)
      ensures Current() == Swap(r, cfg, old(Current()), a, replayed)
      ensures !done ==> Current() == old(Current())
      ensures mempool == old(mempool) && coldBlocks == old(coldBlocks)
    {
      if |blocks| != a.startLen || hotWindowStart != a.hotStart {
        return false;
      }
      blocks := a.prefix + replayed.blocks[1 + |a.prefix|..];
      state := replayed.state;
      TrimHotWindow();
      return true;
    }

    /** A call nothing else interleaves with; a refused or failed attempt changes nothing. */
    method TryReorg(forkHeight: nat, candidate: seq<Option<Block>>, clock: nat -> int) returns (done: bool)
      requires Indexable(Current())
      modifies this
      ensures var begun := Begin(old(Current()), forkHeight, candidate);
              done <==> begun.Begun? && Evaluate(r, cfg, begun.attempt, clock).Some?
      ensures done ==>
                var a := Begin(old(Current()), forkHeight, candidate).attempt;
                Current() == Swap(r, cfg, old(Current()), a, Evaluate(r, cfg, a, clock).value)
      ensures !done ==> Current() == old(Current())
      ensures mempool == old(mempool) && coldBlocks == old(coldBlocks)
    {
      var begun := BeginReorg(forkHeight, candidate);
      if begun.Refused? {
        return false;
      }
      var replayed := EvaluateReorg(r, cfg, begun.attempt, clock);
      if replayed.None? {
        return false;
      }
      done := SwapReorg(begun.attempt, replayed.value);
    }
  }
}
