/**
 The application and the consensus engine over whole runs: the engine's validator set is the snapshot
 in committed state, the stored hash commits to that state, the mempool view is what was admitted on
 top of it, and transactions reported as failed might as well not have been in the block.
 */
module EngineSync {
  import opened Common
  import opened Ledger
  import opened FeeEpoch
  import opened FeeLedger
  import opened ValidatorUpdates
  import opened AbciApp

  // ---------------------------------------------------------------- what executing a block leaves alone

  /** The registry hands out one entry per key, with positive power. */
  ghost predicate SetsWellFormed(ar: AppRules)
  {
    forall st: State, p: Staking :: WellFormed(ar.chain.activeSet(st, p))
  }

  /** With stake consensus off -- genesis insists on it -- no transaction touches the snapshot. */
  ghost predicate SnapshotStable(ar: AppRules)
  {
    forall st: State, tx: Tx, ctx: TxContext ::
      ctx.staking.consensusFrom == 0 && ar.chain.applyTx(st, tx, ctx).ok ==>
        ar.chain.applyTx(st, tx, ctx).state.snapshot == st.snapshot
  }

  lemma {:induction false} ExecKeepsSnapshot(ar: AppRules, txChainId: nat, ctx: TxContext, e: Executed,
                                             raws: seq<string>)
    requires SnapshotStable(ar) && ctx.staking.consensusFrom == 0
    ensures Exec(ar, txChainId, ctx, e, raws).state.snapshot == e.state.snapshot
    decreases |raws|
  {
    if raws != [] {
      ExecKeepsSnapshot(ar, txChainId, ctx, ExecOne(ar, txChainId, ctx, e, raws[0]), raws[1..]);
    }
  }

  lemma {:induction false} VotesKeepSnapshot(st: State, votes: seq<Vote>)
    ensures RecordVotes(st, votes).snapshot == st.snapshot
    decreases |votes|
  {
    if votes != [] { VotesKeepSnapshot(RecordVote(st, votes[0]), votes[1..]); }
  }

  lemma {:induction false} PayKeepsSnapshot(d: Distribution, ops: seq<Address>, amounts: seq<nat>, epoch: nat)
    requires |ops| == |amounts|
    ensures PayAll(d, ops, amounts, epoch).state.snapshot == d.state.snapshot
    decreases |ops|
  {
    if ops != [] {
      if amounts[0] == 0 {
        PayKeepsSnapshot(d, ops[1..], amounts[1..], epoch);
      } else {
        var amount := Min(amounts[0], d.state.Balance(d.state.treasury));
        PayKeepsSnapshot(Distribution(Pay(d.state, ops[0], amount), d.payouts + [Payout(ops[0], amount, epoch)]),
          ops[1..], amounts[1..], epoch);
      }
    }
  }

  lemma FeesKeepSnapshot(e: Entry, height: nat)
    requires FeeBlock(e, height).Some?
    ensures FeeBlock(e, height).value.state.snapshot == e.pre.snapshot
  {
    var c := SplitFees(e.pre, e.applied, e.proposer, height).value;
    VotesKeepSnapshot(c.state, e.votes);
    var voted := RecordVotes(c.state, e.votes);
    if height >= FeeModelV2Height && Boundary(height) && !NothingToPay(voted) {
      PayKeepsSnapshot(Distribution(voted, []), Operators(voted), Amounts(voted, Operators(voted)), EpochOf(height));
    }
  }

  /** The updates a block emits turn the committed snapshot into the one the block leaves. */
  lemma ExecuteRotates(ar: AppRules, app: AppState, req: Request)
    requires SetsWellFormed(ar) && SnapshotStable(ar)
    requires app.committed.Some? && app.staking.epochBlocks > 0 && app.staking.consensusFrom == 0
    requires app.committed.value.snapshot != [] && WellFormed(app.committed.value.snapshot)
    requires Execute(ar, app, req).Some?
    ensures var r := Execute(ar, app, req).value;
            && ApplyUpdates(SetMap(app.committed.value.snapshot), r.updates) == SetMap(r.state.snapshot)
            && r.state.snapshot != [] && WellFormed(r.state.snapshot)
            && DistinctUpdates(r.updates) && r.hash == ar.chain.root(r.state)
  {
    var st := app.committed.value;
    var ctx := app.Context(req.height, req.time);
    var e := Exec(ar, app.txChainId, ctx, Executed(st, [], []), req.txs);
    ExecKeepsSnapshot(ar, app.txChainId, ctx, Executed(st, [], []), req.txs);
    var entry := Entry(e.state, e.applied, ar.operatorFor(st.rest, req.proposer), VotesOf(ar, e.state.rest, req.votes));
    FeesKeepSnapshot(entry, req.height);
    var fees := FeeBlock(entry, req.height).value;
    var s := SlashAll(ar, app.staking.slashBps, Slashing(fees.state.rest, false), req.misbehavior);
    var executed := fees.state.(rest := s.rest);
    var next := ar.chain.activeSet(executed, app.staking);
    UpdatesConvert(executed.snapshot, next);
    UpdatesAcceptable(executed.snapshot, next);
  }

  // ---------------------------------------------------------------- runs

  datatype Admission = Admission(tx: Tx, ctx: TxContext)

  /** The engine's set, the updates of the block being decided, and what CheckTx has admitted. */
  datatype System = System(app: AppState, engine: map<string, nat>, staged: seq<Update>, admitted: seq<Admission>)

  /** InitChain is called once, on an application that has no state yet. */
  datatype Call =
    | InitCall(genesis: Genesis, chainId: string)
    | CheckCall(raw: string, now: int)
    | FinalizeCall(req: Request)
    | CommitCall

  ghost function Step(ar: AppRules, s: System, call: Call): System
  {
    match call
    case InitCall(g, chainId) =>
      var next := Initialized(ar, s.app, g, chainId);
      if s.app.committed.Some? || next.None? then s
      else System(next.value, ApplyUpdates(map[], Updates([], next.value.committed.value.snapshot)), [], [])
    case CheckCall(raw, now) =>
      var next := Checked(ar, s.app, raw, now);
      if next.None? then s
      else s.(app := s.app.(check := next),
              admitted := s.admitted + [Admission(DecodeTx(ar, s.app.txChainId, raw).value,
                s.app.Context(s.app.height + 1, now))])
    case FinalizeCall(req) =>
      if s.app.committed.None? || s.app.staking.epochBlocks == 0 then s else
      var r := Execute(ar, s.app, req);
      if r.None? then s
      else s.(app := s.app.(pending := Some(Pending(r.value.state, req.height, r.value.hash))),
        staged := r.value.updates)
    case CommitCall =>
      if s.app.pending.None? then s
      else System(Committed(s.app), ApplyUpdates(s.engine, s.staged), [], [])
  }

  ghost function RunCalls(ar: AppRules, s: System, calls: seq<Call>): System
    decreases |calls|
  {
    if calls == [] then s else RunCalls(ar, Step(ar, s, calls[0]), calls[1..])
  }

  /** Apply admitted transactions in order; each has already been seen to apply. */
  ghost function Admit(ar: AppRules, st: State, admitted: seq<Admission>): State
  {
    if admitted == [] then st else
    var last := admitted[|admitted| - 1];
    ApplyTransaction(ar.chain, Admit(ar, st, admitted[..|admitted| - 1]), last.tx, last.ctx).state
  }

  ghost predicate InSync(ar: AppRules, s: System)
  {
    && (s.app.committed.None? ==> s.app.pending.None? && s.app.check.None?)
    && (s.app.committed.Some? ==>
          && s.app.staking.epochBlocks > 0 && s.app.staking.consensusFrom == 0
          && s.engine == SetMap(s.app.committed.value.snapshot) && s.engine != map[]
          && s.app.committed.value.snapshot != [] && WellFormed(s.app.committed.value.snapshot)
          && s.app.appHash == ar.chain.root(s.app.committed.value)
          && s.app.check == Some(Admit(ar, s.app.committed.value, s.admitted)))
    && (s.app.pending.Some? ==>
          var p := s.app.pending.value;
          && ApplyUpdates(s.engine, s.staged) == SetMap(p.state.snapshot)
          && p.state.snapshot != [] && WellFormed(p.state.snapshot) && p.hash == ar.chain.root(p.state))
  }

  lemma InitInSync(ar: AppRules, s: System, g: Genesis, chainId: string)
    requires SetsWellFormed(ar) && InSync(ar, s)
    ensures InSync(ar, Step(ar, s, InitCall(g, chainId)))
  {
    var next := Initialized(ar, s.app, g, chainId);
    if s.app.committed.None? && next.Some? {
      var members := next.value.committed.value.snapshot;
      assert WellFormed(members);
      UpdatesConvert([], members);
      SetMapPositive(members);
    }
  }

  lemma CheckInSync(ar: AppRules, s: System, raw: string, now: int)
    requires InSync(ar, s)
    ensures InSync(ar, Step(ar, s, CheckCall(raw, now)))
  {
    if Checked(ar, s.app, raw, now).Some? {
      var admission := Admission(DecodeTx(ar, s.app.txChainId, raw).value, s.app.Context(s.app.height + 1, now));
      assert (s.admitted + [admission])[..|s.admitted|] == s.admitted;
    }
  }

  /**
   Validator-set synchronisation, over every run of the four calls: applying all emitted updates in
   order leaves the engine with exactly the snapshot in committed state, never an empty one; the stored
   hash is the root of that state; the mempool view is the admitted transactions applied to it.
   */
  lemma {:induction false} RunInSync(ar: AppRules, s: System, calls: seq<Call>)
    requires SetsWellFormed(ar) && SnapshotStable(ar) && InSync(ar, s)
    ensures InSync(ar, RunCalls(ar, s, calls))
    decreases |calls|
  {
    if calls != [] {
      StepInSync(ar, s, calls[0]);
      RunInSync(ar, Step(ar, s, calls[0]), calls[1..]);
    }
  }

  lemma StepInSync(ar: AppRules, s: System, call: Call)
    requires SetsWellFormed(ar) && SnapshotStable(ar) && InSync(ar, s)
    ensures InSync(ar, Step(ar, s, call))
  {
    match call
    case InitCall(g, chainId) => InitInSync(ar, s, g, chainId);
    case CheckCall(raw, now) => CheckInSync(ar, s, raw, now);
    case FinalizeCall(req) =>
      if s.app.committed.Some? && Execute(ar, s.app, req).Some? {
        ExecuteRotates(ar, s.app, req);
      }
    case CommitCall =>
      if s.app.pending.Some? { SetMapPositive(s.app.pending.value.state.snapshot); }
  }

  // ---------------------------------------------------------------- failed transactions are erasable

  /** The transactions of a block that were not reported with code 1. */
  function Succeeded(raws: seq<string>, codes: seq<nat>): seq<string>
    requires |codes| == |raws|
  {
    if raws == [] then [] else (if codes[0] == 0 then [raws[0]] else []) + Succeeded(raws[1..], codes[1..])
  }

  /** The codes one execution adds. */
  function Codes(ar: AppRules, txChainId: nat, ctx: TxContext, e: Executed, raws: seq<string>): (codes: seq<nat>)
    ensures |codes| == |raws|
    decreases |raws|
  {
    if raws == [] then [] else
    var e' := ExecOne(ar, txChainId, ctx, e, raws[0]);
    [if |e'.applied| > |e.applied| then 0 else 1] + Codes(ar, txChainId, ctx, e', raws[1..])
  }

  lemma {:induction false} ExecCodes(ar: AppRules, txChainId: nat, ctx: TxContext, e: Executed, raws: seq<string>)
    ensures Exec(ar, txChainId, ctx, e, raws).codes == e.codes + Codes(ar, txChainId, ctx, e, raws)
    decreases |raws|
  {
    if raws != [] {
      ExecCodes(ar, txChainId, ctx, ExecOne(ar, txChainId, ctx, e, raws[0]), raws[1..]);
    }
  }

  /** Results may differ only in the reported codes. */
  ghost predicate SameEffect(a: Executed, b: Executed) { a.state == b.state && a.applied == b.applied }

  lemma {:induction false} ExecWithoutFailures(ar: AppRules, txChainId: nat, ctx: TxContext, e: Executed, f: Executed,
                                               raws: seq<string>)
    requires SameEffect(e, f)
    ensures SameEffect(Exec(ar, txChainId, ctx, e, raws),
                       Exec(ar, txChainId, ctx, f, Succeeded(raws, Codes(ar, txChainId, ctx, e, raws))))
    decreases |raws|
  {
    if raws != [] {
      var codes, e' := Codes(ar, txChainId, ctx, e, raws), ExecOne(ar, txChainId, ctx, e, raws[0]);
      var rest := Succeeded(raws[1..], codes[1..]);
      if codes[0] == 0 {
        var f' := ExecOne(ar, txChainId, ctx, f, raws[0]);
        ExecWithoutFailures(ar, txChainId, ctx, e', f', raws[1..]);
        assert ([raws[0]] + rest)[1..] == rest;
      } else {
        ExecWithoutFailures(ar, txChainId, ctx, e', f, raws[1..]);
        assert [] + rest == rest;
      }
    }
  }

  /** Deleting from a block everything reported with code 1 changes nothing but the list of codes. */
  lemma FailedTxsErasable(ar: AppRules, app: AppState, req: Request)
    requires app.committed.Some? && app.staking.epochBlocks > 0
    requires Execute(ar, app, req).Some?
    ensures var r := Execute(ar, app, req).value;
            && |r.codes| == |req.txs|
            && var r' := Execute(ar, app, req.(txs := Succeeded(req.txs, r.codes)));
               r'.Some? && r'.value == r.(codes := r'.value.codes)
  {
    var ctx := app.Context(req.height, req.time);
    var e := Executed(app.committed.value, [], []);
    ExecCodes(ar, app.txChainId, ctx, e, req.txs);
    ExecWithoutFailures(ar, app.txChainId, ctx, e, e, req.txs);
    assert [] + Codes(ar, app.txChainId, ctx, e, req.txs) == Codes(ar, app.txChainId, ctx, e, req.txs);
  }
}
