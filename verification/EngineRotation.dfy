/**
 What executing a block does, call by call: which transactions run and on what, who is slashed, and when
 the validator set changes -- in the response, and in the engine once the block is committed.
 */
module EngineRotation {
  import opened Common
  import opened Ledger
  import opened FeeEpoch
  import opened FeeLedger
  import opened ValidatorUpdates
  import opened AbciApp
  import opened EngineSync
  import opened EngineLedger

  // ---------------------------------------------------------------- transactions

  /** A transaction of a block decodes, is for this chain and applies to `st`. */
  ghost predicate Executes(ar: AppRules, txChainId: nat, ctx: TxContext, st: State, raw: string)
  {
    var tx := ar.decode(raw);
    tx.Some? && tx.value.chainId == txChainId && ApplyTransaction(ar.chain, st, tx.value, ctx).ok
  }

  /** One transaction: `codes`, state and list of applied transactions change only if it executes. */
  ghost predicate ExecutedOne(ar: AppRules, txChainId: nat, ctx: TxContext, before: Executed, raw: string,
                              after: Executed)
  {
    if Executes(ar, txChainId, ctx, before.state, raw) then
      && after.state == ApplyTransaction(ar.chain, before.state, ar.decode(raw).value, ctx).state
      && after.applied == before.applied + [ar.decode(raw).value] && after.codes == before.codes + [0]
    else
      after.state == before.state && after.applied == before.applied && after.codes == before.codes + [1]
  }

  /** A block runs its transactions one after the other, each on what the ones before it left. */
  lemma {:induction false} ExecTrace(ar: AppRules, txChainId: nat, ctx: TxContext, e: Executed, raws: seq<string>)
    returns (trace: seq<Executed>)
    ensures |trace| == |raws| + 1 && trace[0] == e && trace[|raws|] == Exec(ar, txChainId, ctx, e, raws)
    ensures forall i :: 0 <= i < |raws| ==> ExecutedOne(ar, txChainId, ctx, trace[i], raws[i], trace[i + 1])
    decreases |raws|
  {
    if raws == [] { return [e]; }
    var next := ExecOne(ar, txChainId, ctx, e, raws[0]);
    var tail := ExecTrace(ar, txChainId, ctx, next, raws[1..]);
    trace := [e] + tail;
    forall i | 0 <= i < |raws| ensures ExecutedOne(ar, txChainId, ctx, trace[i], raws[i], trace[i + 1]) {
      if i > 0 { assert raws[i] == raws[1..][i - 1]; }
    }
  }

  /** CheckTx admits exactly what a block at the next height would execute on the mempool view. */
  lemma CheckedLikeExecuted(ar: AppRules, app: AppState, raw: string, now: int)
    ensures Checked(ar, app, raw, now).Some? <==>
            app.check.Some? && Executes(ar, app.txChainId, app.Context(app.height + 1, now), app.check.value, raw)
    ensures Checked(ar, app, raw, now).Some? ==>
            var e := Exec(ar, app.txChainId, app.Context(app.height + 1, now), Executed(app.check.value, [], []),
              [raw]);
            Checked(ar, app, raw, now) == Some(e.state) && e.codes == [0]
  {
    assert [raw][1..] == [];
  }

  // ---------------------------------------------------------------- votes

  /** Power of the votes with positive power that an operator's validators committed. */
  function CommittedPower(ar: AppRules, rest: Remainder, votes: seq<CommitVote>, op: Address): nat
  {
    if votes == [] then 0 else
    var v := votes[0];
    (if v.power > 0 && v.committed && ar.operatorFor(rest, v.address) == op then v.power else 0) +
    CommittedPower(ar, rest, votes[1..], op)
  }

  function ReportedPower(votes: seq<CommitVote>): nat
  {
    if votes == [] then 0 else (if votes[0].power > 0 then votes[0].power else 0) + ReportedPower(votes[1..])
  }

  /** Votes reach the fee rules under the operator of their validator, with their power. */
  lemma {:induction false} VotesCounted(ar: AppRules, rest: Remainder, votes: seq<CommitVote>, op: Address)
    ensures CommittedBy(VotesOf(ar, rest, votes), op) == CommittedPower(ar, rest, votes, op)
    ensures VotePower(VotesOf(ar, rest, votes)) == ReportedPower(votes)
  {
    if votes != [] {
      VotesCounted(ar, rest, votes[1..], op);
      var tail := VotesOf(ar, rest, votes[1..]);
      if votes[0].power > 0 {
        var v := Vote(ar.operatorFor(rest, votes[0].address), votes[0].power, votes[0].committed);
        assert ([v] + tail)[1..] == tail;
      } else {
        assert [] + tail == tail;
      }
    }
  }

  // ---------------------------------------------------------------- slashing

  /** What a report of `address` makes of the registry; None when it is unknown or already slashed. */
  function SlashedOnce(ar: AppRules, bps: nat, rest: Remainder, address: string): Option<Remainder>
  {
    var key := ar.keyFor(rest, address);
    if key.None? then None else ar.slash(rest, key.value, bps)
  }

  /** One report: an effective one changes the registry and is remembered. */
  ghost predicate SlashedStep(ar: AppRules, bps: nat, before: Slashing, address: string, after: Slashing)
  {
    var x := SlashedOnce(ar, bps, before.rest, address);
    after == if x.Some? then Slashing(x.value, true) else before
  }

  /** Reports are acted on one after the other. */
  lemma {:induction false} SlashTrace(ar: AppRules, bps: nat, s: Slashing, addresses: seq<string>)
    returns (trace: seq<Slashing>)
    ensures |trace| == |addresses| + 1 && trace[0] == s && trace[|addresses|] == SlashAll(ar, bps, s, addresses)
    ensures forall i :: 0 <= i < |addresses| ==> SlashedStep(ar, bps, trace[i], addresses[i], trace[i + 1])
    decreases |addresses|
  {
    if addresses == [] { return [s]; }
    var x := SlashedOnce(ar, bps, s.rest, addresses[0]);
    var tail := SlashTrace(ar, bps, if x.None? then s else Slashing(x.value, true), addresses[1..]);
    trace := [s] + tail;
    forall i | 0 <= i < |addresses| ensures SlashedStep(ar, bps, trace[i], addresses[i], trace[i + 1]) {
      if i > 0 { assert addresses[i] == addresses[1..][i - 1]; }
    }
  }

  // ---------------------------------------------------------------- the validator set

  ghost function Slashed(ar: AppRules, app: AppState, req: Request): Slashing
    requires app.committed.Some? && FeeBlock(EntryOf(ar, app, req), req.height).Some?
  {
    var charged := FeeBlock(EntryOf(ar, app, req), req.height).value.state;
    SlashAll(ar, app.staking.slashBps, Slashing(charged.rest, false), req.misbehavior)
  }

  /** The state after transactions, fees and slashing, when the staked set is looked at. */
  ghost function Charged(ar: AppRules, app: AppState, req: Request): State
    requires app.committed.Some? && FeeBlock(EntryOf(ar, app, req), req.height).Some?
  {
    FeeBlock(EntryOf(ar, app, req), req.height).value.state.(rest := Slashed(ar, app, req).rest)
  }

  /** The set is due to change: someone was slashed, or an epoch ends. */
  ghost predicate Due(ar: AppRules, app: AppState, req: Request)
    requires app.committed.Some? && app.staking.epochBlocks > 0 && FeeBlock(EntryOf(ar, app, req), req.height).Some?
  {
    Slashed(ar, app, req).any || req.height % app.staking.epochBlocks == 0
  }

  /** The staked set a block switches to, if it switches. */
  ghost predicate Switches(ar: AppRules, app: AppState, req: Request, to: seq<ActiveValidator>)
    requires app.committed.Some? && app.staking.epochBlocks > 0 && FeeBlock(EntryOf(ar, app, req), req.height).Some?
  {
    Due(ar, app, req) && to != [] && to == ar.chain.activeSet(Charged(ar, app, req), app.staking)
  }

  /**
   A block's response: when a change is due and somebody is staked, the snapshot becomes the staked set;
   otherwise it stays and no update is emitted.
   */
  lemma RotatesExactly(ar: AppRules, app: AppState, req: Request)
    requires app.committed.Some? && app.staking.epochBlocks > 0 && Execute(ar, app, req).Some?
    ensures FeeBlock(EntryOf(ar, app, req), req.height).Some?
    ensures var r, x := Execute(ar, app, req).value, Charged(ar, app, req);
            var to := ar.chain.activeSet(x, app.staking);
            if Switches(ar, app, req, to) then r.state == x.(snapshot := to) && r.updates == Updates(x.snapshot, to)
            else r.state == x && r.updates == []
  {
  }

  /** A block is refused only for a missing treasury, fees that overflow, or a set the engine cannot be told of. */
  lemma ExecutesExactly(ar: AppRules, app: AppState, req: Request)
    requires app.committed.Some? && app.staking.epochBlocks > 0
    ensures var e := EntryOf(ar, app, req);
            Execute(ar, app, req).Some? <==>
            && (req.height >= FeeModelV2Height ==> e.pre.treasury != "")
            && FeeBlock(e, req.height).Some?
            && var x := Charged(ar, app, req);
               var to := ar.chain.activeSet(x, app.staking);
               Switches(ar, app, req, to) ==> Expressible(ar.keyOk, Updates(x.snapshot, to))
  {
  }

  /**
   Once the block is committed, the engine runs with the staked set if one was due, and with the old set
   otherwise.
   */
  lemma CommittedRotation(ar: AppRules, s: System, req: Request)
    requires SetsWellFormed(ar) && SnapshotStable(ar) && InSync(ar, s)
    requires s.app.committed.Some? && Execute(ar, s.app, req).Some?
    ensures FeeBlock(EntryOf(ar, s.app, req), req.height).Some?
    ensures var done := Step(ar, Step(ar, s, FinalizeCall(req)), CommitCall);
            var to := ar.chain.activeSet(Charged(ar, s.app, req), s.app.staking);
            && done.app.committed.Some? && done.app.height == req.height
            && if Switches(ar, s.app, req, to) then done.engine == SetMap(to) && done.app.committed.value.snapshot == to
               else done.engine == s.engine && done.app.committed.value.snapshot == s.app.committed.value.snapshot
  {
    RotatesExactly(ar, s.app, req);
    ExecuteRotates(ar, s.app, req);
    ChargedSnapshot(ar, s.app, req);
  }

  lemma ChargedSnapshot(ar: AppRules, app: AppState, req: Request)
    requires SnapshotStable(ar) && app.committed.Some? && app.staking.consensusFrom == 0
    requires FeeBlock(EntryOf(ar, app, req), req.height).Some?
    ensures Charged(ar, app, req).snapshot == app.committed.value.snapshot
  {
    var st, ctx := app.committed.value, app.Context(req.height, req.time);
    ExecKeepsSnapshot(ar, app.txChainId, ctx, Executed(st, [], []), req.txs);
    FeesKeepSnapshot(EntryOf(ar, app, req), req.height);
  }

  // ---------------------------------------------------------------- genesis

  /** Genesis validators are bonded one after the other, and the first that cannot be ends it. */
  lemma {:induction false} BondTrace(ar: AppRules, st: State, validators: seq<GenesisValidator>)
    returns (trace: seq<State>)
    ensures 0 < |trace| <= |validators| + 1 && trace[0] == st
    ensures forall i :: 0 <= i < |trace| - 1 ==> ar.bond(trace[i], validators[i]) == Some(trace[i + 1])
    ensures BondAll(ar, st, validators) ==
            if |trace| == |validators| + 1 then Some(trace[|trace| - 1]) else None
    ensures |trace| <= |validators| ==> ar.bond(trace[|trace| - 1], validators[|trace| - 1]).None?
    decreases |validators|
  {
    if validators == [] || ar.bond(st, validators[0]).None? { return [st]; }
    var tail := BondTrace(ar, ar.bond(st, validators[0]).value, validators[1..]);
    trace := [st] + tail;
    forall i | 0 <= i < |trace| - 1 ensures ar.bond(trace[i], validators[i]) == Some(trace[i + 1]) {
      if i > 0 { assert validators[i] == validators[1..][i - 1]; }
    }
  }

  /**
   Genesis is accepted exactly when it is for this chain, its staking is sound, all validators bond and some
   are active.
   */
  lemma InitsExactly(ar: AppRules, app: AppState, g: Genesis, chainId: string)
    ensures var bonded := if g.start.Some? then BondAll(ar, g.start.value, g.validators) else None;
            var next := Initialized(ar, app, g, chainId);
            && (next.Some? <==>
                  && g.chainId == chainId && g.staking.enabledFrom == 1 && g.staking.consensusFrom == 0
                  && g.staking.epochBlocks > 0 && 0 < g.staking.slashBps <= 10_000 && g.validators != []
                  && bonded.Some? && ar.chain.activeSet(bonded.value, g.staking) != []
                  && Expressible(ar.keyOk, Updates([], ar.chain.activeSet(bonded.value, g.staking))))
            && (next.Some? ==>
                  var st := bonded.value.(snapshot := ar.chain.activeSet(bonded.value, g.staking));
                  && next.value.committed == Some(st) == next.value.check && next.value.height == 0
                  && next.value.appHash == ar.chain.root(st) && next.value.staking == g.staking
                  && next.value.chainId == chainId && next.value.pending == app.pending
                  && next.value.txChainId == if g.txChainId == 0 then 1 else g.txChainId)
  {
  }
}
