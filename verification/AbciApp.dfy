/**
 The ABCI application: InitChain, CheckTx, FinalizeBlock and Commit over committed, pending and
 mempool-check states, together with the consensus engine that consumes its validator updates.
 */
module AbciApp {
  import opened Common
  import opened Ledger
  import opened FeeEpoch
  import opened FeeLedger
  import opened ValidatorUpdates
  import opened LedgerObject

  datatype GenesisValidator = GenesisValidator(operator: Address, key: string, selfBond: nat)

  /** The application's genesis; `start` is None when its own checks refuse to build a state. */
  datatype Genesis = Genesis(chainId: string, txChainId: nat, staking: Staking, validators: seq<GenesisValidator>,
    start: Option<State>)

  /** Chain rules plus the parts that read or change the validator registry inside the remainder. */
  datatype AppRules = AppRules(
    chain: Rules,
    decode: string -> Option<Tx>,
    operatorFor: (Remainder, string) -> Address,
    keyFor: (Remainder, string) -> Option<string>,
    slash: (Remainder, string, nat) -> Option<Remainder>,
    bond: (State, GenesisValidator) -> Option<State>,
    keyOk: string -> bool)

  datatype CommitVote = CommitVote(address: string, power: int, committed: bool)

  datatype Request = Request(height: nat, time: int, proposer: string, txs: seq<string>, votes: seq<CommitVote>,
    misbehavior: seq<string>)

  datatype Pending = Pending(state: State, height: nat, hash: string)

  datatype AppState = AppState(
    chainId: string, txChainId: nat, staking: Staking,
    committed: Option<State>, height: nat, appHash: string,
    pending: Option<Pending>, check: Option<State>)
  {
    function Context(height: nat, time: int): TxContext { TxContext(height, chainId, staking, time) }
  }

  function DecodeTx(ar: AppRules, txChainId: nat, raw: string): Option<Tx>
  {
    var tx := ar.decode(raw);
    if tx.Some? && tx.value.chainId == txChainId then tx else None
  }

  // ---------------------------------------------------------------- executing a block

  datatype Executed = Executed(state: State, applied: seq<Tx>, codes: seq<nat>)

  /** A failed transaction is reported with code 1 and works on a clone that is thrown away. */
  function ExecOne(ar: AppRules, txChainId: nat, ctx: TxContext, e: Executed, raw: string): Executed
  {
    var tx := DecodeTx(ar, txChainId, raw);
    if tx.None? then e.(codes := e.codes + [1]) else
    var a := ApplyTransaction(ar.chain, e.state, tx.value, ctx);
    if a.ok then Executed(a.state, e.applied + [tx.value], e.codes + [0]) else e.(codes := e.codes + [1])
  }

  function Exec(ar: AppRules, txChainId: nat, ctx: TxContext, e: Executed, raws: seq<string>): Executed
    decreases |raws|
  {
    if raws == [] then e else Exec(ar, txChainId, ctx, ExecOne(ar, txChainId, ctx, e, raws[0]), raws[1..])
  }

  function VotesOf(ar: AppRules, rest: Remainder, votes: seq<CommitVote>): seq<Vote>
  {
    if votes == [] then [] else
    (if votes[0].power > 0 then [Vote(ar.operatorFor(rest, votes[0].address), votes[0].power, votes[0].committed)]
      else []) +
    VotesOf(ar, rest, votes[1..])
  }

  datatype Slashing = Slashing(rest: Remainder, any: bool)

  function SlashAll(ar: AppRules, bps: nat, s: Slashing, addresses: seq<string>): Slashing
    decreases |addresses|
  {
    if addresses == [] then s else
    var key := ar.keyFor(s.rest, addresses[0]);
    var slashed := if key.None? then None else ar.slash(s.rest, key.value, bps);
    SlashAll(ar, bps, if slashed.None? then s else Slashing(slashed.value, true), addresses[1..])
  }

  datatype Response = Response(state: State, codes: seq<nat>, split: FeeSplit, payouts: seq<Payout>,
    updates: seq<Update>, hash: string)

  datatype Rotation = Rotation(state: State, updates: seq<Update>)

  /** Adopt the staked set, unless that would leave none; None when an update cannot be expressed. */
  function Rotate(ar: AppRules, staking: Staking, st: State, due: bool): Option<Rotation>
  {
    var next := ar.chain.activeSet(st, staking);
    if !due || next == [] then Some(Rotation(st, []))
    else if !Expressible(ar.keyOk, Updates(st.snapshot, next)) then None
    else Some(Rotation(st.(snapshot := next), Updates(st.snapshot, next)))
  }

  ghost function Execute(ar: AppRules, app: AppState, req: Request): Option<Response>
    requires app.committed.Some? && app.staking.epochBlocks > 0
  {
    var st := app.committed.value;
    var e := Exec(ar, app.txChainId, app.Context(req.height, req.time), Executed(st, [], []), req.txs);
    if req.height >= FeeModelV2Height && e.state.treasury == "" then None else
    var entry := Entry(e.state, e.applied, ar.operatorFor(st.rest, req.proposer), VotesOf(ar, e.state.rest, req.votes));
    var fees := FeeBlock(entry, req.height);
    if fees.None? then None else
    var s := SlashAll(ar, app.staking.slashBps, Slashing(fees.value.state.rest, false), req.misbehavior);
    var rotation := Rotate(ar, app.staking, fees.value.state.(rest := s.rest), s.any ||
      req.height % app.staking.epochBlocks == 0);
    if rotation.None? then None else
    Some(Response(rotation.value.state, e.codes, fees.value.split, fees.value.payouts, rotation.value.updates,
      ar.chain.root(rotation.value.state)))
  }

  // ---------------------------------------------------------------- the four calls

  function BondAll(ar: AppRules, st: State, validators: seq<GenesisValidator>): Option<State>
    decreases |validators|
  {
    if validators == [] then Some(st) else
    match ar.bond(st, validators[0])
    case None => None
    case Some(next) => BondAll(ar, next, validators[1..])
  }

  predicate GenesisOk(g: Genesis)
  {
    && g.start.Some? && g.staking.enabledFrom == 1 && g.staking.consensusFrom == 0 && g.staking.epochBlocks != 0
    && 0 < g.staking.slashBps <= 10_000 && g.validators != []
  }

  /** The genesis state with its first validator set, None when InitChain refuses. */
  function GenesisState(ar: AppRules, g: Genesis): Option<State>
  {
    if !GenesisOk(g) then None else
    match BondAll(ar, g.start.value, g.validators)
    case None => None
    case Some(st) =>
      var members := ar.chain.activeSet(st, g.staking);
      if members == [] || !Expressible(ar.keyOk, Updates([], members)) then None else Some(st.(snapshot := members))
  }

  function Initialized(ar: AppRules, app: AppState, g: Genesis, chainId: string): Option<AppState>
  {
    var st := GenesisState(ar, g);
    if g.chainId != chainId || st.None? then None
    else Some(app.(chainId := chainId, txChainId := if g.txChainId == 0 then 1 else g.txChainId, staking := g.staking,
                   committed := st, height := 0, appHash := ar.chain.root(st.value), check := st))
  }

  /** The mempool view after an admitted transaction, None when it is refused. */
  function Checked(ar: AppRules, app: AppState, raw: string, now: int): Option<State>
  {
    var tx := DecodeTx(ar, app.txChainId, raw);
    if app.check.None? || tx.None? then None else
    var a := ApplyTransaction(ar.chain, app.check.value, tx.value, app.Context(app.height + 1, now));
    if a.ok then Some(a.state) else None
  }

  function Committed(app: AppState): AppState
    requires app.pending.Some?
  {
    var p := app.pending.value;
    app.(committed := Some(p.state), height := p.height, appHash := p.hash, pending := None, check := Some(p.state))
  }

  class App {
    const ar: AppRules
    var chainId: string
    var txChainId: nat
    var staking: Staking
    var committed: Option<State>
    var height: nat
    var appHash: string
    var pending: Option<Pending>
    var check: Option<State>

    function Current(): AppState
      reads this
    {
      AppState(chainId, txChainId, staking, committed, height, appHash, pending, check)
    }

    constructor (ar: AppRules)
      ensures this.ar == ar && committed.None? && pending.None? && check.None?
    {
      this.ar := ar;
      chainId, txChainId, staking, height, appHash := "", 0, Staking(0, 0, 0, 0), 0, "";
      committed, pending, check := None, None, None;
    }

    method InitChain(g: Genesis, requestChainId: string) returns (updates: Option<seq<Update>>)
      modifies this
      ensures var next := Initialized(ar, old(Current()), g, requestChainId);
              if next.None? then updates.None? && Current() == old(Current())
              else Current() == next.value && updates == Some(Updates([], committed.value.snapshot))
    {
      if g.chainId != requestChainId || !GenesisOk(g) {
        return None;
      }
      var st := g.start.value;
      for i := 0 to |g.validators|
        invariant BondAll(ar, g.start.value, g.validators) == BondAll(ar, st, g.validators[i..])
        invariant Current() == old(Current())
      {
        assert g.validators[i..][1..] == g.validators[i + 1..];
        var bonded := ar.bond(st, g.validators[i]);
        if bonded.None? {
          return None;
        }
        st := bonded.value;
      }
      var members := ar.chain.activeSet(st, g.staking);
      if members == [] {
        return None;
      }
      st := st.(snapshot := members);
      updates := ComputeUpdates(ar.keyOk, [], members);
      if updates.None? {
        return None;
      }
      chainId, txChainId, staking := requestChainId, if g.txChainId == 0 then 1 else g.txChainId, g.staking;
      committed, height, appHash, check := Some(st), 0, ar.chain.root(st), Some(st);
    }

    method CheckTx(raw: string, now: int) returns (code: nat)
      modifies this`check
      ensures code == 0 <==> Checked(ar, old(Current()), raw, now).Some?
      ensures code == 0 ==> check == Checked(ar, old(Current()), raw, now)
      ensures code != 0 ==> code == 1 && check == old(check)
    {
      if check.None? {
        return 1;
      }
      var tx := DecodeTx(ar, txChainId, raw);
      if tx.None? {
        return 1;
      }
      var a := ApplyTransaction(ar.chain, check.value, tx.value, Current().Context(height + 1, now));
      if !a.ok {
        return 1;
      }
      check := Some(a.state);
      return 0;
    }

    method FinalizeBlock(req: Request) returns (response: Option<Response>)
      requires committed.Some? ==> staking.epochBlocks > 0
      modifies this`pending
      ensures response == if committed.None? then None else Execute(ar, old(Current()), req)
      ensures pending == if response.None? then old(pending)
                         else Some(Pending(response.value.state, req.height, response.value.hash))
    {
      if committed.None? {
        return None;
      }
      var e := ExecuteTxs(req);
      if req.height >= FeeModelV2Height && e.state.treasury == "" {
        return None;
      }
      var book := new Book.Clone(e.state);
      var fees := ApplyFees(book, e, ar.operatorFor(committed.value.rest, req.proposer), req);
      if fees.None? {
        return None;
      }
      var slashed := SlashMisbehavior(book, req.misbehavior);
      var updates: seq<Update> := [];
      if slashed || req.height % staking.epochBlocks == 0 {
        var next := ar.chain.activeSet(book.Value(), staking);
        if next != [] {
          var computed := ComputeUpdates(ar.keyOk, book.snapshot, next);
          if computed.None? {
            return None;
          }
          updates := computed.value;
          book.snapshot := next;
        }
      }
      var st := book.Value();
      var hash := ar.chain.root(st);
      pending := Some(Pending(st, req.height, hash));
      return Some(Response(st, e.codes, fees.value.split, fees.value.payouts, updates, hash));
    }

    method ExecuteTxs(req: Request) returns (e: Executed)
      requires committed.Some?
      ensures e == Exec(ar, txChainId, Current().Context(req.height, req.time), Executed(committed.value, [], []),
              req.txs)
    {
      var ctx := Current().Context(req.height, req.time);
      e := Executed(committed.value, [], []);
      for i := 0 to |req.txs|
        invariant Exec(ar, txChainId, ctx, Executed(committed.value, [], []), req.txs) ==
                  Exec(ar, txChainId, ctx, e, req.txs[i..])
      {
        assert req.txs[i..][1..] == req.txs[i + 1..];
        var tx := DecodeTx(ar, txChainId, req.txs[i]);
        if tx.Some? {
          var a := ApplyTransaction(ar.chain, e.state, tx.value, ctx);
          if a.ok {
            e := Executed(a.state, e.applied + [tx.value], e.codes + [0]);
            continue;
          }
        }
        e := e.(codes := e.codes + [1]);
      }
    }

    /** Fees, votes and, at an epoch's end, payouts, all on the block's own state object. */
    method ApplyFees(book: Book, e: Executed, proposer: Address, req: Request) returns (out: Option<Outcome>)
      requires book.Value() == e.state
      modifies book
      ensures out == FeeBlock(Entry(e.state, e.applied, proposer, VotesOf(ar, e.state.rest, req.votes)), req.height)
      ensures out.Some? ==> book.Value() == out.value.state
    {
      var split := book.ApplyBlockFees(e.applied, proposer, req.height);
      if split.None? {
        return None;
      }
      if req.height < FeeModelV2Height {
        return Some(Outcome(book.Value(), split.value, []));
      }
      RecordCommitVotes(book, req.votes);
      var settled := SettleEpoch(book, split.value, req.height);
      return Some(settled);
    }

    method SettleEpoch(book: Book, split: FeeSplit, height: nat) returns (out: Outcome)
      requires height >= FeeModelV2Height
      modifies book
      ensures out == Settlement(old(book.Value()), split, height) && book.Value() == out.state
    {
      if (height - FeeModelV2Height + 1) % EpochBlocks != 0 {
        return Outcome(book.Value(), split, []);
      }
      var payouts := book.DistributeFeeEpochPayout((height - FeeModelV2Height) / EpochBlocks);
      return Outcome(book.Value(), split, payouts);
    }

    method RecordCommitVotes(book: Book, votes: seq<CommitVote>)
      modifies book
      ensures book.Value() == RecordVotes(old(book.Value()), VotesOf(ar, old(book.rest), votes))
    {
      ghost var start, rest := book.Value(), book.rest;
      for i := 0 to |votes|
        invariant book.rest == rest
        invariant RecordVotes(start, VotesOf(ar, rest, votes)) ==
                  RecordVotes(book.Value(), VotesOf(ar, rest, votes[i..]))
      {
        assert votes[i..][1..] == votes[i + 1..];
        if votes[i].power > 0 {
          var v := Vote(ar.operatorFor(book.rest, votes[i].address), votes[i].power, votes[i].committed);
          assert VotesOf(ar, rest, votes[i..]) == [v] + VotesOf(ar, rest, votes[i + 1..]);
          assert ([v] + VotesOf(ar, rest, votes[i + 1..]))[1..] == VotesOf(ar, rest, votes[i + 1..]);
          book.RecordFeeEpochVote(v);
        } else {
          assert VotesOf(ar, rest, votes[i..]) == VotesOf(ar, rest, votes[i + 1..]);
        }
      }
    }

    method SlashMisbehavior(book: Book, addresses: seq<string>) returns (any: bool)
      modifies book`rest
      ensures Slashing(book.rest, any) == SlashAll(ar, staking.slashBps, Slashing(old(book.rest), false), addresses)
    {
      any := false;
      for i := 0 to |addresses|
        invariant SlashAll(ar, staking.slashBps, Slashing(old(book.rest), false), addresses)
               == SlashAll(ar, staking.slashBps, Slashing(book.rest, any), addresses[i..])
      {
        assert addresses[i..][1..] == addresses[i + 1..];
        var key := ar.keyFor(book.rest, addresses[i]);
        if key.None? {
          continue;
        }
        var slashed := ar.slash(book.rest, key.value, staking.slashBps);
        if slashed.Some? {
          book.rest, any := slashed.value, true;
        }
      }
    }

    method Commit() returns (ok: bool)
      modifies this
      ensures ok <==> old(pending).Some?
      ensures Current() == if ok then Committed(old(Current())) else old(Current())
    {
      if pending.None? {
        return false;
      }
      var p := pending.value;
      committed, height, appHash := Some(p.state), p.height, p.hash;
      pending, check := None, Some(p.state);
      return true;
    }
  }
}
