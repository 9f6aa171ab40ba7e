/**
 The fee books of the running application: over every run of its calls, what its committed blocks
 report adds up, and its epochs settle in order.
 */
module EngineLedger {
  import opened Common
  import opened Ledger
  import opened FeeEpoch
  import opened FeeLedger
  import opened AbciApp
  import opened EngineSync

  ghost predicate SameAccumulators(a: State, b: State)
  {
    a.feeIncome == b.feeIncome && a.feeTotalPower == b.feeTotalPower && a.feeSignedPower == b.feeSignedPower
  }

  /** No transaction touches the fee accumulators. */
  ghost predicate FeesUntouched(ar: AppRules)
  {
    forall st: State, tx: Tx, ctx: TxContext ::
      ar.chain.applyTx(st, tx, ctx).ok ==> SameAccumulators(ar.chain.applyTx(st, tx, ctx).state, st)
  }

  lemma {:induction false} ExecKeepsFees(ar: AppRules, txChainId: nat, ctx: TxContext, e: Executed, raws: seq<string>)
    requires FeesUntouched(ar)
    ensures SameAccumulators(Exec(ar, txChainId, ctx, e, raws).state, e.state)
    decreases |raws|
  {
    if raws != [] {
      ExecKeepsFees(ar, txChainId, ctx, ExecOne(ar, txChainId, ctx, e, raws[0]), raws[1..]);
    }
  }

  /** A request as the fee rules see it. */
  ghost function EntryOf(ar: AppRules, app: AppState, req: Request): Entry
    requires app.committed.Some?
  {
    var st := app.committed.value;
    var e := Exec(ar, app.txChainId, app.Context(req.height, req.time), Executed(st, [], []), req.txs);
    Entry(e.state, e.applied, ar.operatorFor(st.rest, req.proposer), VotesOf(ar, e.state.rest, req.votes))
  }

  function Reported(r: Response): Outcome { Outcome(r.state, r.split, r.payouts) }

  /** Executing a block is its fee step, up to slashing and rotation, which leave the accumulators alone. */
  lemma ExecuteCharges(ar: AppRules, app: AppState, req: Request)
    requires app.committed.Some? && app.staking.epochBlocks > 0 && Execute(ar, app, req).Some?
    ensures var o, r := FeeBlock(EntryOf(ar, app, req), req.height), Execute(ar, app, req).value;
            o.Some? && SameAccumulators(r.state, o.value.state) && r.split == o.value.split &&
              r.payouts == o.value.payouts
  {
  }

  // ---------------------------------------------------------------- runs

  /** The running system with the books an observer keeps of its committed responses. */
  datatype Audit = Audit(sys: System, tally: Tally, staged: Option<Response>)

  ghost function AuditStep(ar: AppRules, a: Audit, call: Call): Audit
  {
    var app, next := a.sys.app, a.(sys := Step(ar, a.sys, call));
    match call
    case InitCall(_, _) => if app.committed.None? then next.(tally := Tally(0, 0, [])) else next
    case CheckCall(_, _) => next
    case FinalizeCall(req) =>
      if app.committed.None? || app.staking.epochBlocks == 0 || Execute(ar, app, req).None? then next
      else next.(staged := Execute(ar, app, req))
    case CommitCall =>
      if app.pending.None? || a.staged.None? then next
      else next.(tally := After(a.tally, app.pending.value.height, Reported(a.staged.value)), staged := None)
  }

  ghost function RunAudit(ar: AppRules, a: Audit, calls: seq<Call>): Audit
    decreases |calls|
  {
    if calls == [] then a else RunAudit(ar, AuditStep(ar, a, calls[0]), calls[1..])
  }

  /**
   What consensus and genesis provide: blocks at consecutive heights, votes carrying at most the total
   supply, balances and fees within uint64, and a genesis state with empty accumulators.
   */
  ghost predicate Orderly(ar: AppRules, s: System, call: Call)
  {
    match call
    case InitCall(g, _) =>
      var st := GenesisState(ar, g);
      st.Some? ==> st.value.feeIncome == 0 && st.value.feeTotalPower == 0 && st.value.feeSignedPower == map[]
    case FinalizeCall(req) =>
      s.app.committed.Some? ==>
        var e := EntryOf(ar, s.app, req);
        && req.height == s.app.height + 1
        && MapSum(e.pre.balances) + FeeSum(e.applied) < U64 && VotePower(e.votes) <= MaxBlockPower
    case _ => true
  }

  ghost predicate AllOrderly(ar: AppRules, a: Audit, calls: seq<Call>)
    decreases |calls|
  {
    calls == [] || (Orderly(ar, a.sys, calls[0]) && AllOrderly(ar, AuditStep(ar, a, calls[0]), calls[1..]))
  }

  /** The books are in order before the next block, and will be once the pending one is committed. */
  ghost predicate Audited(a: Audit)
  {
    var app := a.sys.app;
    && (app.committed.None? ==> app.pending.None?)
    && (app.committed.Some? ==> InOrder(Books(app.committed.value, a.tally), app.height + 1))
    && (app.pending.Some? ==>
          var p := app.pending.value;
          && p.height == app.height + 1 && a.staged.Some?
          && InOrder(Books(p.state, After(a.tally, p.height, Reported(a.staged.value))), p.height + 1))
  }

  lemma InOrderElsewhere(st: State, st': State, t: Tally, height: nat)
    requires InOrder(Books(st, t), height) && SameAccumulators(st, st')
    ensures InOrder(Books(st', t), height)
  {
  }

  /** The books once the response to `req` is committed. */
  lemma ResponseInOrder(ar: AppRules, app: AppState, t: Tally, req: Request)
    requires FeesUntouched(ar) && app.committed.Some? && app.staking.epochBlocks > 0 && Execute(ar, app, req).Some?
    requires InOrder(Books(app.committed.value, t), req.height)
    requires var e := EntryOf(ar, app, req);
             MapSum(e.pre.balances) + FeeSum(e.applied) < U64 && VotePower(e.votes) <= MaxBlockPower
    ensures var r := Execute(ar, app, req).value; InOrder(Books(r.state, After(t, req.height, Reported(r))),
            req.height + 1)
  {
    var st := app.committed.value;
    ExecKeepsFees(ar, app.txChainId, app.Context(req.height, req.time), Executed(st, [], []), req.txs);
    ExecuteCharges(ar, app, req);
    BlockAudited(st, t, EntryOf(ar, app, req), req.height, Execute(ar, app, req).value);
  }

  lemma FinalizeAudited(ar: AppRules, a: Audit, req: Request)
    requires FeesUntouched(ar) && Audited(a) && Orderly(ar, a.sys, FinalizeCall(req))
    ensures Audited(AuditStep(ar, a, FinalizeCall(req)))
  {
    var app := a.sys.app;
    if app.committed.Some? && app.staking.epochBlocks > 0 && Execute(ar, app, req).Some? {
      ResponseInOrder(ar, app, a.tally, req);
      FinalizeStages(ar, a, req, Execute(ar, app, req).value);
      StagedAudited(a, req.height, Execute(ar, app, req).value);
    }
  }

  lemma StagedAudited(a: Audit, height: nat, r: Response)
    requires Audited(a) && a.sys.app.committed.Some? && height == a.sys.app.height + 1
    requires InOrder(Books(r.state, After(a.tally, height, Reported(r))), height + 1)
    ensures var app := a.sys.app.(pending := Some(Pending(r.state, height, r.hash)));
            Audited(Audit(a.sys.(app := app, staged := r.updates), a.tally, Some(r)))
  {
  }

  lemma FinalizeStages(ar: AppRules, a: Audit, req: Request, r: Response)
    requires a.sys.app.committed.Some? && a.sys.app.staking.epochBlocks > 0 && Execute(ar, a.sys.app, req) == Some(r)
    ensures var app := a.sys.app.(pending := Some(Pending(r.state, req.height, r.hash)));
            AuditStep(ar, a, FinalizeCall(req)) == Audit(a.sys.(app := app, staged := r.updates), a.tally, Some(r))
  {
  }

  lemma InitAudited(ar: AppRules, a: Audit, g: Genesis, chainId: string)
    requires Audited(a) && Orderly(ar, a.sys, InitCall(g, chainId))
    ensures Audited(AuditStep(ar, a, InitCall(g, chainId)))
  {
    assert MapSum<Address>(map[]) == 0;
  }

  lemma BlockAudited(st: State, t: Tally, e: Entry, height: nat, r: Response)
    requires InOrder(Books(st, t), height) && Follows(st, e)
    requires var o := FeeBlock(e, height);
             o.Some? && SameAccumulators(r.state, o.value.state) && r.split == o.value.split &&
               r.payouts == o.value.payouts
    ensures InOrder(Books(r.state, After(t, height, Reported(r))), height + 1)
  {
    var o := FeeBlock(e, height).value;
    FeeBlockInOrder(Books(st, t), e, height);
    InOrderElsewhere(o.state, r.state, After(t, height, o), height + 1);
  }

  lemma StepAudited(ar: AppRules, a: Audit, call: Call)
    requires FeesUntouched(ar) && Audited(a) && Orderly(ar, a.sys, call)
    ensures Audited(AuditStep(ar, a, call))
  {
    match call
    case InitCall(g, chainId) => InitAudited(ar, a, g, chainId);
    case CheckCall(raw, now) =>
    case FinalizeCall(req) => FinalizeAudited(ar, a, req);
    case CommitCall =>
  }

  /**
   Over every run of the application, whatever is checked, proposed again or committed: the epochs its
   committed blocks settle are 0, 1, 2, ..., what they pay validators is at most half of what they report
   as treasury income, signed power never exceeds total power, and no accumulator leaves uint64.
   */
  lemma {:induction false} RunAudited(ar: AppRules, a: Audit, calls: seq<Call>)
    requires FeesUntouched(ar) && Audited(a) && AllOrderly(ar, a, calls)
    ensures Audited(RunAudit(ar, a, calls))
    decreases |calls|
  {
    if calls != [] {
      StepAudited(ar, a, calls[0]);
      RunAudited(ar, AuditStep(ar, a, calls[0]), calls[1..]);
    }
  }
}
