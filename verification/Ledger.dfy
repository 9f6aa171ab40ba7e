/**
 The values the chain is made of -- transactions, blocks, state, configuration -- and the one state
 transition that building, validating, finalizing and checkpointing a block all share.

 Signature checks, hashing, `State.ApplyTx`, `State.Root` and the validator registry are taken as
 arbitrary functions, collected in `Rules`; every theorem of the project holds for all of them.
 */
module Ledger {
  import opened Common

  type Address = string

  datatype KeyValue = KeyValue(key: string, value: string)

  datatype Tx = Tx(
    id: string, chainId: nat, from: Address, to: Address, amount: nat, fee: nat, nonce: nat,
    publicKey: string, signature: string, assetId: string, metadata: seq<KeyValue>, timestamp: int)

  /** One member of the stake-based validator set. */
  datatype ActiveValidator = ActiveValidator(operator: Address, key: string, power: nat)

  /** Parts of the state no property here looks into: nonces, assets, bridge, governance, registry. */
  type Remainder(==, 0, !new)

  datatype State = State(
    balances: map<Address, nat>,
    snapshot: seq<ActiveValidator>,
    treasury: Address,
    feeIncome: nat,
    feeTotalPower: nat,
    feeSignedPower: map<Address, nat>,
    rest: Remainder)
  {
    /** `State.Get(a).Balance`: an absent account reads as empty. */
    function Balance(a: Address): nat { At(balances, a) }

    function WithBalance(a: Address, n: nat): State { this.(balances := balances[a := n]) }
  }

  datatype Staking = Staking(enabledFrom: nat, consensusFrom: nat, epochBlocks: nat, slashBps: nat)
  {
    predicate ConsensusActiveAt(height: nat) { consensusFrom > 0 && height >= consensusFrom }

    predicate SnapshotHeight(height: nat)
    {
      && consensusFrom != 0 && epochBlocks != 0
      && height + 1 >= consensusFrom
      && (height + 1 - consensusFrom) % epochBlocks == 0
    }
  }

  datatype TxContext = TxContext(height: nat, chainId: string, staking: Staking, blockTime: int)

  /** What an apply step leaves behind: the state, possibly half modified when `!ok`. */
  datatype Applied = Applied(state: State, ok: bool)

  datatype Header = Header(
    height: nat, parentHash: string, timestamp: Option<int>, proposerId: string,
    txMerkleRoot: string, stateRoot: string, pocRoot: string)

  datatype Block = Block(
    header: Header, txs: seq<Tx>, hash: string, finalized: bool,
    proposerSignature: string, quorumSignatures: map<string, string>)

  /** The messages validators sign; their byte encodings are kept abstract. */
  datatype Message =
    | StakeProposal(chainId: string, height: nat, hash: string)
    | StakeApproval(chainId: string, height: nat, hash: string)
    | RosterProposal(hash: string)
    | RosterApproval(hash: string)

  datatype Rules = Rules(
    verifyTx: Tx -> bool,
    applyTx: (State, Tx, TxContext) -> Applied,
    root: State -> string,
    activeSet: (State, Staking) -> seq<ActiveValidator>,
    nextNonce: (State, Address) -> nat,
    headerHash: (Header, seq<Tx>) -> string,
    txRoot: seq<Tx> -> string,
    // the account of a roster public key, "" for a malformed key
    addressOf: string -> Address,
    // key, message, hex signature; false for malformed keys and signatures
    verifySig: (string, Message, string) -> bool)

  datatype Correction = Correction(height: nat, address: Address, debit: nat)

  /** What a chain is configured with; fixed over a run. */
  datatype Config = Config(
    chainId: string, txChainId: nat, keys: map<string, string>, requiredQuorum: int,
    authFrom: nat, rootFrom: nat, corrections: seq<Correction>, staking: Staking)
  {
    function TxDomain(): nat { if txChainId == 0 then 1 else txChainId }
  }

  // ---------------------------------------------------------------- transactions

  const FeeModelV2Height: nat := 102550
  const BurnPercent: nat := 50

  function MetadataValue(items: seq<KeyValue>, key: string): string
  {
    if items == [] then "" else if items[0].key == key then items[0].value else MetadataValue(items[1..], key)
  }

  /** A transfer of the chain's own coin. */
  predicate PlainSend(tx: Tx)
  {
    tx.assetId == "" && MetadataValue(tx.metadata, "type") in {"", "transfer"}
  }

  /** Minimum fee from FeeModelV2Height on. */
  function RequiredFee(tx: Tx): (fee: nat)
    ensures 10 <= fee <= 1000 && (!PlainSend(tx) ==> fee == 10)
    // a SYN send pays the least fee that covers a thousandth of the amount, between 10 and 1000
    ensures PlainSend(tx) ==> 1000 * fee >= Min(tx.amount, 1_000_000)
    ensures fee > 10 ==> 1000 * (fee - 1) < tx.amount
  {
    if PlainSend(tx) then
      var ceil := tx.amount / 1000 + (if tx.amount % 1000 != 0 then 1 else 0);
      if ceil < 10 then 10 else if ceil > 1000 then 1000 else ceil
    else 10
  }

  function ApplyTransaction(r: Rules, st: State, tx: Tx, ctx: TxContext): Applied
  {
    if ctx.height >= FeeModelV2Height && tx.fee < RequiredFee(tx) then Applied(st, false)
    else r.applyTx(st, if ctx.blockTime != 0 then tx.(timestamp := ctx.blockTime) else tx, ctx)
  }

  /** From FeeModelV2Height on nothing below the minimum fee applies; otherwise the rules decide alone. */
  lemma MinimumFee(r: Rules, st: State, tx: Tx, ctx: TxContext)
    ensures ctx.height >= FeeModelV2Height && tx.fee < RequiredFee(tx) ==>
            ApplyTransaction(r, st, tx, ctx) == Applied(st, false)
    ensures (ctx.height < FeeModelV2Height || tx.fee >= RequiredFee(tx)) &&
            (ctx.blockTime == 0 || ctx.blockTime == tx.timestamp) ==>
              ApplyTransaction(r, st, tx, ctx) == r.applyTx(st, tx, ctx)
  {
  }

  /** Under consensus time, the time the sender wrote down makes no difference. */
  lemma SenderTimeIgnored(r: Rules, st: State, tx: Tx, ctx: TxContext, time: int)
    requires ctx.blockTime != 0
    ensures ApplyTransaction(r, st, tx, ctx) == ApplyTransaction(r, st, tx.(timestamp := time), ctx)
  {
    assert tx.(timestamp := ctx.blockTime) == tx.(timestamp := time).(timestamp := ctx.blockTime);
  }

  // ---------------------------------------------------------------- the block transition

  /** The chain's own blocks carry no consensus time. */
  function BlockContext(cfg: Config, height: nat): TxContext
  {
    TxContext(height, cfg.chainId, cfg.staking, 0)
  }

  function ApplyAll(r: Rules, cfg: Config, st: State, txs: seq<Tx>, height: nat): Option<State>
    decreases |txs|
  {
    if txs == [] then Some(st) else
    var a := ApplyTransaction(r, st, txs[0], BlockContext(cfg, height));
    if a.ok then ApplyAll(r, cfg, a.state, txs[1..], height) else None
  }

  function TotalFees(txs: seq<Tx>, sum: nat := 0): Option<nat>
  {
    if txs == [] then Some(sum) else
    match SafeAdd(sum, txs[0].fee)
    case None => None
    case Some(next) => TotalFees(txs[1..], next)
  }

  /** `totalFees * BURN_PERCENT / 100` in uint64. */
  function Burned(total: nat): (burn: nat)
    ensures burn <= total
    ensures total * BurnPercent < U64 ==> burn == total / 2
  {
    Wrap(total * BurnPercent) / 100
  }

  function CreditProposerFees(st: State, txs: seq<Tx>, proposer: Address): Option<State>
  {
    match TotalFees(txs)
    case None => None
    case Some(total) =>
      if total == 0 || proposer == "" then Some(st) else
      match SafeAdd(st.Balance(proposer), total - Burned(total))
      case None => None
      case Some(next) => Some(st.WithBalance(proposer, next))
  }

  function ApplyCorrections(st: State, corrections: seq<Correction>, height: nat): State
    decreases |corrections|
  {
    if corrections == [] then st else
    var c := corrections[0];
    var next :=
      if c.height != height then st
      else st.WithBalance(c.address, if st.Balance(c.address) > c.debit then st.Balance(c.address) - c.debit else 0);
    ApplyCorrections(next, corrections[1..], height)
  }

  /** End-of-block steps: corrections, then the epoch snapshot of the authorizing set. */
  function Finish(r: Rules, cfg: Config, st: State, height: nat): State
  {
    var s := ApplyCorrections(st, cfg.corrections, height);
    if cfg.staking.SnapshotHeight(height) then s.(snapshot := r.activeSet(s, cfg.staking)) else s
  }

  function OperatorOf(members: seq<ActiveValidator>, key: string): Address
  {
    if members == [] then "" else if members[0].key == key then members[0].operator else OperatorOf(members[1..], key)
  }

  /** The account credited with a block's fees, looked up in the state before the block. */
  function ProposerAddress(r: Rules, cfg: Config, pre: State, height: nat, proposerId: string): Address
  {
    if cfg.staking.ConsensusActiveAt(height) && pre.snapshot != [] then OperatorOf(pre.snapshot, Lower(proposerId))
    else if proposerId in cfg.keys then r.addressOf(cfg.keys[proposerId])
    else ""
  }

  /** A block's transactions and fees, before the end-of-block steps. */
  function Economy(r: Rules, cfg: Config, st: State, b: Block): Option<State>
  {
    match ApplyAll(r, cfg, st, b.txs, b.header.height)
    case None => None
    case Some(applied) =>
      CreditProposerFees(applied, b.txs, ProposerAddress(r, cfg, st, b.header.height, b.header.proposerId))
  }

  function Transition(r: Rules, cfg: Config, st: State, b: Block): Option<State>
  {
    match Economy(r, cfg, st, b)
    case None => None
    case Some(credited) => Some(Finish(r, cfg, credited, b.header.height))
  }

  /** The simple form the chain's compact one must agree with: every block applied in order. */
  function Replay(r: Rules, cfg: Config, st: State, blocks: seq<Block>): Option<State>
    decreases |blocks|
  {
    if blocks == [] then Some(st) else
    match Transition(r, cfg, st, blocks[0])
    case None => None
    case Some(next) => Replay(r, cfg, next, blocks[1..])
  }

  function Then(r: Rules, cfg: Config, st: Option<State>, blocks: seq<Block>): Option<State>
  {
    if st.None? then None else Replay(r, cfg, st.value, blocks)
  }

  lemma {:induction false} ReplayAppend(r: Rules, cfg: Config, st: State, a: seq<Block>, b: seq<Block>)
    ensures Replay(r, cfg, st, a + b) == Then(r, cfg, Replay(r, cfg, st, a), b)
    decreases |a|
  {
    if a == [] {
      assert a + b == b;
    } else {
      assert (a + b)[1..] == a[1..] + b;
      var next := Transition(r, cfg, st, a[0]);
      if next.Some? { ReplayAppend(r, cfg, next.value, a[1..], b); }
    }
  }

  /** Only the corrections set at a block's own height reach its transition. */
  lemma TransitionWithoutCorrections(r: Rules, cfg: Config, cfg': Config, st: State, b: Block)
    requires cfg'.chainId == cfg.chainId && cfg'.keys == cfg.keys && cfg'.staking == cfg.staking
    requires NoneAt(cfg.corrections, b.header.height) && NoneAt(cfg'.corrections, b.header.height)
    ensures Transition(r, cfg, st, b) == Transition(r, cfg', st, b)
  {
    SameContext(r, cfg, cfg', st, b.txs, b.header.height);
    forall s: State
      ensures ApplyCorrections(s, cfg.corrections, b.header.height) == s
      ensures ApplyCorrections(s, cfg'.corrections, b.header.height) == s
    {
      NoCorrectionsApplied(s, cfg.corrections, b.header.height);
      NoCorrectionsApplied(s, cfg'.corrections, b.header.height);
    }
  }

  ghost predicate NoneAt(corrections: seq<Correction>, height: nat)
  {
    forall c <- corrections :: c.height != height
  }

  lemma {:induction false} NoCorrectionsApplied(st: State, corrections: seq<Correction>, height: nat)
    requires NoneAt(corrections, height)
    ensures ApplyCorrections(st, corrections, height) == st
  {
    if corrections != [] { NoCorrectionsApplied(st, corrections[1..], height); }
  }

  lemma {:induction false} SameContext(r: Rules, cfg: Config, cfg': Config, st: State, txs: seq<Tx>, height: nat)
    requires cfg'.chainId == cfg.chainId && cfg'.staking == cfg.staking
    ensures ApplyAll(r, cfg, st, txs, height) == ApplyAll(r, cfg', st, txs, height)
    decreases |txs|
  {
    if txs != [] {
      var a := ApplyTransaction(r, st, txs[0], BlockContext(cfg, height));
      if a.ok { SameContext(r, cfg, cfg', a.state, txs[1..], height); }
    }
  }
}
