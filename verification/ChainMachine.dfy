/**
 The chain as a machine on values: what FinalizeBlock, SetHotWindow and the three phases of TryReorg
 do to the in-memory chain. `ChainObject.Chain` is the mutable object that refines it.
 */
module ChainMachine {
  import opened Common
  import opened Ledger
  import opened StakeQuorum

  const Second: int := 1_000_000_000
  const FutureDrift: int := 300 * Second

  /** Every field of the chain object that blocks and trimming touch. */
  datatype View = View(
    blocks: seq<Block>, state: State, hotStart: nat, maxHot: int,
    base: Option<State>, baseBlock: Option<Block>, genesis: Option<State>)
  {
    function Height(): nat { if blocks == [] then 0 else blocks[|blocks| - 1].header.height }

    /** State just before the hot window; genesis while nothing has been trimmed. */
    function BaseState(): Option<State> { if hotStart == 0 then genesis else base }

    /** Block just before the hot window; Blocks[0] while nothing has been trimmed. */
    function BaseBlock(): Option<Block>
    {
      if hotStart > 0 then baseBlock else if blocks == [] then None else Some(blocks[0])
    }
  }

  function Stamped(b: Block): Block { b.(finalized := true) }

  function StampAll(bs: seq<Block>): (r: seq<Block>)
    ensures |r| == |bs| && forall i :: 0 <= i < |bs| ==> r[i] == Stamped(bs[i])
  {
    seq(|bs|, i requires 0 <= i < |bs| => Stamped(bs[i]))
  }

  // ---------------------------------------------------------------- block validity

  /** Distinct roster members with a valid approval signature on `b`. */
  ghost function RosterApprovers(r: Rules, keys: map<string, string>, b: Block): set<string>
  {
    set id | id in b.quorumSignatures && id in keys &&
      r.verifySig(keys[id], RosterApproval(b.hash), b.quorumSignatures[id])
  }

  ghost predicate RosterAuthorized(r: Rules, cfg: Config, b: Block, requireQuorum: bool)
  {
    && b.header.proposerId in cfg.keys
    && r.verifySig(cfg.keys[b.header.proposerId], RosterProposal(b.hash), b.proposerSignature)
    && (requireQuorum ==> |RosterApprovers(r, cfg.keys, b)| >= cfg.requiredQuorum)
  }

  /** The staked set deciding a block at `height`, [] when the configured roster does. */
  function StakeAuthority(cfg: Config, st: State, height: nat): seq<ActiveValidator>
  {
    if height == 0 || !cfg.staking.ConsensusActiveAt(height) then [] else st.snapshot
  }

  ghost predicate Authorized(r: Rules, cfg: Config, st: State, b: Block, requireQuorum: bool)
  {
    var members := StakeAuthority(cfg, st, b.header.height);
    if members != [] then StakeAuthorized(r, cfg.chainId, b, members, requireQuorum)
    else b.header.height > 0 && cfg.keys != map[] && b.header.height >= cfg.authFrom ==>
           RosterAuthorized(r, cfg, b, requireQuorum)
  }

  predicate Timely(tip: Block, b: Block, now: int)
  {
    b.header.timestamp.Some? ==>
      && (tip.header.timestamp.Some? ==> tip.header.timestamp.value <= b.header.timestamp.value)
      && b.header.timestamp.value <= now + FutureDrift
  }

  predicate Extends(tip: Block, b: Block)
  {
    b.header.parentHash == tip.hash && b.header.height == tip.header.height + 1
  }

  predicate Genuine(r: Rules, cfg: Config, txs: seq<Tx>)
  {
    forall i :: 0 <= i < |txs| ==> txs[i].chainId == cfg.TxDomain() && r.verifyTx(txs[i])
  }

  ghost predicate ValidBlock(r: Rules, cfg: Config, tip: Block, st: State, b: Block, now: int, requireQuorum: bool)
  {
    && b.hash != ""
    && Extends(tip, b)
    && Timely(tip, b, now)
    && Authorized(r, cfg, st, b, requireQuorum)
    && r.headerHash(b.header, b.txs) == b.hash
    && r.txRoot(b.txs) == b.header.txMerkleRoot
    && Genuine(r, cfg, b.txs)
    && Transition(r, cfg, st, b).Some?
    && (b.header.height >= cfg.rootFrom ==> r.root(Transition(r, cfg, st, b).value) == b.header.stateRoot)
  }

  // ---------------------------------------------------------------- finalizing and trimming

  /** Evict the oldest blocks past maxHot, moving the checkpoint over them; best effort. */
  function Trim(r: Rules, cfg: Config, v: View): View
  {
    var excess := |v.blocks| - v.maxHot;
    if v.maxHot <= 0 || excess <= 0 || v.BaseState().None? then v else
    match Replay(r, cfg, v.BaseState().value, v.blocks[..excess])
    case None => v
    case Some(next) => Evicted(v, excess, next)
  }

  function Evicted(v: View, k: nat, next: State): View
    requires 0 < k <= |v.blocks|
  {
    v.(base := Some(next), baseBlock := Some(v.blocks[k - 1]), blocks := v.blocks[k..], hotStart := v.hotStart + k)
  }

  ghost predicate CanFinalize(r: Rules, cfg: Config, v: View, b: Block, now: int)
  {
    v.blocks != [] && ValidBlock(r, cfg, v.blocks[|v.blocks| - 1], v.state, b, now, true)
  }

  function Appended(r: Rules, cfg: Config, v: View, b: Block): View
    requires Transition(r, cfg, v.state, b).Some?
  {
    v.(state := Transition(r, cfg, v.state, b).value, blocks := v.blocks + [Stamped(b)])
  }

  ghost function FinalizeBlock(r: Rules, cfg: Config, v: View, b: Block, now: int): Option<View>
  {
    if CanFinalize(r, cfg, v, b, now) then Some(Trim(r, cfg, Appended(r, cfg, v, b))) else None
  }

  // ---------------------------------------------------------------- reorganization

  /** What TryReorg copies under the lock before it replays off to the side. */
  datatype Attempt = Attempt(
    forkHeight: nat, candidate: seq<Option<Block>>, prefix: seq<Block>, tail: seq<Block>,
    base: State, baseBlock: Block, hotStart: nat, startLen: nat)

  datatype BeginResult = Begun(attempt: Attempt) | Refused(reason: string)

  /** Heights and indices of the window differ by at most the one block a reorg may have dropped. */
  predicate Indexable(v: View) { v.Height() <= v.hotStart + |v.blocks| }

  function Begin(v: View, forkHeight: nat, candidate: seq<Option<Block>>): BeginResult
    requires Indexable(v)
  {
    if v.genesis.None? then Refused("genesis state not seeded")
    else if forkHeight == 0 || forkHeight > v.Height() then Refused("invalid fork height")
    else if forkHeight < v.hotStart then Refused("fork height predates the hot window")
    else if candidate == [] then Refused("empty candidate branch")
    else if candidate[0].None? || candidate[0].value.header.height != forkHeight
      then Refused("candidate starts elsewhere")
    else if v.BaseState().None? || v.BaseBlock().None? then Refused("hot-window checkpoint not established")
    else
      var first := if v.hotStart == 0 then 1 else 0;
      var end := forkHeight - v.hotStart;
      Begun(Attempt(forkHeight, candidate, v.blocks[first..end], v.blocks[end..],
                    v.BaseState().value, v.BaseBlock().value, v.hotStart, |v.blocks|))
  }

  ghost function Approvals(r: Rules, keys: map<string, string>, b: Block): nat
  {
    |RosterApprovers(r, keys, b)|
  }

  /** Fork-choice weight of a branch: verified approvals over all its blocks. */
  ghost function Score(r: Rules, keys: map<string, string>, bs: seq<Block>): nat
  {
    if bs == [] then 0 else Score(r, keys, bs[..|bs| - 1]) + Approvals(r, keys, bs[|bs| - 1])
  }

  /** Nil entries of a candidate weigh nothing. */
  function Present(bs: seq<Option<Block>>): seq<Block>
  {
    if bs == [] then [] else
    Present(bs[..|bs| - 1]) + (if bs[|bs| - 1].Some? then [bs[|bs| - 1].value] else [])
  }

  ghost predicate Heavier(r: Rules, keys: map<string, string>, a: Attempt)
  {
    var candidate, current := Score(r, keys, Present(a.candidate)), Score(r, keys, a.tail);
    candidate > current || (candidate == current && |a.candidate| > |a.tail|)
  }

  /** The scratch chain has no corrections and enforces everything from the start. */
  function ScratchConfig(cfg: Config): Config
  {
    Config(cfg.chainId, cfg.TxDomain(), cfg.keys, cfg.requiredQuorum, 0, 0, [], cfg.staking)
  }

  function ScratchView(a: Attempt): View
  {
    View([a.baseBlock], a.base, 0, 0, None, None, None)
  }

  /** Finalize one block, `clock(k)` being the time read for the block at position k; nil is refused. */
  ghost function Finalizer(r: Rules, cfg: Config, clock: nat -> int): (View, Option<Block>, nat) -> Option<View>
  {
    (v: View, b: Option<Block>, k: nat) => if b.None? then None else FinalizeBlock(r, cfg, v, b.value, clock(k))
  }

  ghost function FinalizeAll(r: Rules, cfg: Config, v: View, bs: seq<Option<Block>>, clock: nat -> int,
                             k: nat): Option<View>
  {
    Fold(Finalizer(r, cfg, clock), v, bs, k)
  }

  lemma {:induction false} FinalizeAllLength(r: Rules, cfg: Config, v: View, bs: seq<Option<Block>>, clock: nat -> int,
                                             k: nat)
    requires v.maxHot <= 0 && FinalizeAll(r, cfg, v, bs, clock, k).Some?
    ensures |FinalizeAll(r, cfg, v, bs, clock, k).value.blocks| == |v.blocks| + |bs|
    decreases |bs|
  {
    if bs != [] {
      FinalizeAllLength(r, cfg, FinalizeBlock(r, cfg, v, bs[0].value, clock(k)).value, bs[1..], clock, k + 1);
    }
  }

  lemma FinalizeAllAppend(r: Rules, cfg: Config, v: View, a: seq<Option<Block>>, b: seq<Option<Block>>,
                          clock: nat -> int, k: nat)
    ensures FinalizeAll(r, cfg, v, a + b, clock, k) ==
            match FinalizeAll(r, cfg, v, a, clock, k)
            case None => None
            case Some(w) => FinalizeAll(r, cfg, w, b, clock, k + |a|)
  {
    FoldAppend(Finalizer(r, cfg, clock), v, a, b, k);
  }

  function Wrapped(bs: seq<Block>): (r: seq<Option<Block>>)
    ensures |r| == |bs| && forall i :: 0 <= i < |bs| ==> r[i] == Some(bs[i])
  {
    seq(|bs|, i requires 0 <= i < |bs| => Some(bs[i]))
  }

  /** The off-lock phase: fork choice, then replay of prefix and candidate on a scratch chain. */
  ghost function Evaluate(r: Rules, cfg: Config, a: Attempt, clock: nat -> int): (w: Option<View>)
    ensures w.Some? ==> |w.value.blocks| == 1 + |a.prefix| + |a.candidate|
  {
    if !Heavier(r, cfg.keys, a) then None else
    var w := FinalizeAll(r, ScratchConfig(cfg), ScratchView(a), Wrapped(a.prefix) + a.candidate, clock, 0);
    assert w.Some? ==> |w.value.blocks| == 1 + |a.prefix| + |a.candidate| by {
      if w.Some? { FinalizeAllLength(r, ScratchConfig(cfg), ScratchView(a), Wrapped(a.prefix) + a.candidate, clock,
        0); }
    }
    w
  }

  /** The replay is the prefix, then the candidate on top of it. */
  lemma EvaluateInParts(r: Rules, cfg: Config, a: Attempt, clock: nat -> int)
    ensures Evaluate(r, cfg, a, clock) ==
            if !Heavier(r, cfg.keys, a) then None else
            match FinalizeAll(r, ScratchConfig(cfg), ScratchView(a), Wrapped(a.prefix), clock, 0)
            case None => None
            case Some(w) => FinalizeAll(r, ScratchConfig(cfg), w, a.candidate, clock, |a.prefix|)
  {
    if Heavier(r, cfg.keys, a) {
      FinalizeAllAppend(r, ScratchConfig(cfg), ScratchView(a), Wrapped(a.prefix), a.candidate, clock, 0);
    }
  }

  predicate Unmoved(v: View, a: Attempt) { |v.blocks| == a.startLen && v.hotStart == a.hotStart }

  /** The locked swap: abort if the chain advanced, else install the replayed branch. */
  function Swap(r: Rules, cfg: Config, v: View, a: Attempt, scratch: View): View
    requires |scratch.blocks| >= 1 + |a.prefix|
  {
    if !Unmoved(v, a) then v
    else Trim(r, cfg, v.(blocks := a.prefix + scratch.blocks[1 + |a.prefix|..], state := scratch.state))
  }
}
