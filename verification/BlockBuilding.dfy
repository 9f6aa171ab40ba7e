/**
 What BuildBlock assembles from the mempool, and when the block it assembles passes the validation
 every node -- its own included -- will put it through.
 */
module BlockBuilding {
  import opened Common
  import opened Ledger
  import opened ChainMachine

  /** Fee descending, then sender, nonce and ID ascending. */
  predicate TxBefore(a: Tx, b: Tx)
  {
    if a.fee != b.fee then a.fee > b.fee
    else if a.from != b.from then StrLess(a.from, b.from)
    else if a.nonce != b.nonce then a.nonce < b.nonce
    else StrLess(a.id, b.id)
  }

  /** SubmitTx files a transaction under its own ID, after checking signature and chain ID. */
  ghost predicate MempoolOk(r: Rules, cfg: Config, mempool: map<string, Tx>)
  {
    forall id <- mempool :: mempool[id].id == id && mempool[id].chainId == cfg.TxDomain() && r.verifyTx(mempool[id])
  }

  lemma TxBeforeStrictTotal(txs: set<Tx>)
    requires forall a <- txs, b <- txs :: a.id == b.id ==> a == b
    ensures StrictTotal(TxBefore, txs)
  {
    forall a: string ensures !StrLess(a, a) { StrIrreflexive(a); }
    forall a: string, b: string ensures a == b || StrLess(a, b) || StrLess(b, a) { StrTotal(a, b); }
    forall a: string, b: string, c: string | StrLess(a, b) && StrLess(b, c) ensures StrLess(a, c) {
      StrTransitive(a, b, c);
    }
  }

  /** The transactions BuildBlock considers, in the order it considers them. */
  ghost function Candidates(mempool: map<string, Tx>): seq<Tx>
  {
    SortBy(TxBefore, ListOf(mempool.Values))
  }

  lemma CandidatesOrdered(r: Rules, cfg: Config, mempool: map<string, Tx>)
    requires MempoolOk(r, cfg, mempool)
    ensures StrictTotal(TxBefore, mempool.Values)
    ensures multiset(Candidates(mempool)) == multiset(mempool.Values)
    ensures Sorted(TxBefore, Candidates(mempool)) && Genuine(r, cfg, Candidates(mempool))
    ensures forall i, j :: 0 <= i < j < |Candidates(mempool)| ==>
              var a, b := Candidates(mempool)[i], Candidates(mempool)[j];
              a.fee >= b.fee && (a.fee == b.fee && a.from == b.from ==> a.nonce <= b.nonce)
  {
    TxBeforeStrictTotal(mempool.Values);
    ListOfLists(mempool.Values);
    SortPermutes(TxBefore, ListOf(mempool.Values));
    SortSorts(TxBefore, ListOf(mempool.Values), mempool.Values);
  }

  // ---------------------------------------------------------------- assembling

  datatype Selection = Selection(state: State, chosen: seq<Tx>)

  function Chosen(s: Selection, tx: Tx, a: Applied): Selection
  {
    Selection(a.state, if a.ok then s.chosen + [tx] else s.chosen)
  }

  /** The selection loop: a failed candidate is skipped, but keeps whatever it did to the state. */
  function Select(r: Rules, cfg: Config, s: Selection, candidates: seq<Tx>, height: nat, limit: nat): Selection
    decreases |candidates|
  {
    if candidates == [] || |s.chosen| >= limit then s else
    var a := ApplyTransaction(r, s.state, candidates[0], BlockContext(cfg, height));
    Select(r, cfg, Chosen(s, candidates[0], a), candidates[1..], height, limit)
  }

  function Truncated(now: int): int { now - now % Second }

  function BlockLimit(maxTx: int): nat { if maxTx <= 0 then 1000 else maxTx }

  /** The candidate block; None when the fees cannot be credited. */
  function Build(r: Rules, cfg: Config, tip: Block, st: State, candidates: seq<Tx>, proposerId: string,
                 pocRoot: string, limit: nat, now: int): Option<Block>
  {
    var height := tip.header.height + 1;
    var sel := Select(r, cfg, Selection(st, []), candidates, height, limit);
    match CreditProposerFees(sel.state, sel.chosen, ProposerAddress(r, cfg, st, height, proposerId))
    case None => None
    case Some(credited) => Some(Sealed(r, cfg, tip, credited, sel.chosen, proposerId, pocRoot, now))
  }

  /** The block over `txs`; its height's corrections are applied by Finish and then once more. */
  function Sealed(r: Rules, cfg: Config, tip: Block, credited: State, txs: seq<Tx>,
                  proposerId: string, pocRoot: string, now: int): Block
  {
    var height := tip.header.height + 1;
    var final := ApplyCorrections(Finish(r, cfg, credited, height), cfg.corrections, height);
    var header := Header(height, tip.hash, Some(Truncated(now)), proposerId, r.txRoot(txs), r.root(final), pocRoot);
    Block(header, txs, r.headerHash(header, txs), false, "", map[])
  }

  /** A transaction that fails leaves the state as it was. */
  ghost predicate FailsCleanly(r: Rules)
  {
    forall st: State, tx: Tx, ctx: TxContext :: !r.applyTx(st, tx, ctx).ok ==> r.applyTx(st, tx, ctx).state == st
  }

  lemma {:induction false} ApplyAllAppend(r: Rules, cfg: Config, st: State, txs: seq<Tx>, tx: Tx, height: nat)
    ensures ApplyAll(r, cfg, st, txs + [tx], height) ==
            match ApplyAll(r, cfg, st, txs, height)
            case None => None
            case Some(s) => ApplyAll(r, cfg, s, [tx], height)
    decreases |txs|
  {
    if txs == [] {
      assert txs + [tx] == [tx];
    } else {
      assert (txs + [tx])[1..] == txs[1..] + [tx];
      var a := ApplyTransaction(r, st, txs[0], BlockContext(cfg, height));
      if a.ok { ApplyAllAppend(r, cfg, a.state, txs[1..], tx, height); }
    }
  }

  /** Every candidate the selection skips leaves the state as it found it. */
  ghost predicate SkipsCleanly(r: Rules, cfg: Config, s: Selection, candidates: seq<Tx>, height: nat, limit: nat)
    decreases |candidates|
  {
    candidates == [] || |s.chosen| >= limit ||
    var a := ApplyTransaction(r, s.state, candidates[0], BlockContext(cfg, height));
    && (!a.ok ==> a.state == s.state)
    && SkipsCleanly(r, cfg, Chosen(s, candidates[0], a), candidates[1..], height, limit)
  }

  /** After every candidate, the selection's state is the one its chosen transactions produce from `st`. */
  ghost predicate SelectsFaithfully(r: Rules, cfg: Config, st: State, s: Selection, candidates: seq<Tx>, height: nat,
                                    limit: nat)
    decreases |candidates|
  {
    && ApplyAll(r, cfg, st, s.chosen, height) == Some(s.state)
    && (candidates == [] || |s.chosen| >= limit ||
        var a := ApplyTransaction(r, s.state, candidates[0], BlockContext(cfg, height));
        SelectsFaithfully(r, cfg, st, Chosen(s, candidates[0], a), candidates[1..], height, limit))
  }

  lemma {:induction false} CleanRulesSkipCleanly(r: Rules, cfg: Config, s: Selection, candidates: seq<Tx>, height: nat,
                                                 limit: nat)
    requires FailsCleanly(r)
    ensures SkipsCleanly(r, cfg, s, candidates, height, limit)
    decreases |candidates|
  {
    if candidates != [] && |s.chosen| < limit {
      var a := ApplyTransaction(r, s.state, candidates[0], BlockContext(cfg, height));
      CleanRulesSkipCleanly(r, cfg, Chosen(s, candidates[0], a), candidates[1..], height, limit);
    }
  }

  /** The selection is faithful exactly when what it skips leaves no trace. */
  lemma {:induction false} FaithfulExactly(r: Rules, cfg: Config, st: State, s: Selection, candidates: seq<Tx>,
                                           height: nat, limit: nat)
    requires ApplyAll(r, cfg, st, s.chosen, height) == Some(s.state)
    ensures SelectsFaithfully(r, cfg, st, s, candidates, height, limit) <==>
            SkipsCleanly(r, cfg, s, candidates, height, limit)
    decreases |candidates|
  {
    if candidates != [] && |s.chosen| < limit {
      var tx := candidates[0];
      var a := ApplyTransaction(r, s.state, tx, BlockContext(cfg, height));
      if a.ok {
        ApplyAllAppend(r, cfg, st, s.chosen, tx, height);
        assert ApplyAll(r, cfg, s.state, [tx], height) == Some(a.state) by { assert [tx][1..] == []; }
      }
      if a.ok || a.state == s.state {
        FaithfulExactly(r, cfg, st, Chosen(s, tx, a), candidates[1..], height, limit);
      }
    }
  }

  /** When skipping is clean, the selection ends in the state the chosen transactions produce. */
  lemma {:induction false} SelectedApplies(r: Rules, cfg: Config, st: State, s: Selection, candidates: seq<Tx>,
                                           height: nat, limit: nat)
    requires SelectsFaithfully(r, cfg, st, s, candidates, height, limit)
    requires Genuine(r, cfg, s.chosen) && Genuine(r, cfg, candidates) && |s.chosen| <= limit
    ensures var sel := Select(r, cfg, s, candidates, height, limit);
            && ApplyAll(r, cfg, st, sel.chosen, height) == Some(sel.state)
            && Genuine(r, cfg, sel.chosen) && |sel.chosen| <= limit
    decreases |candidates|
  {
    if candidates != [] && |s.chosen| < limit {
      var a := ApplyTransaction(r, s.state, candidates[0], BlockContext(cfg, height));
      SelectedApplies(r, cfg, st, Chosen(s, candidates[0], a), candidates[1..], height, limit);
    }
  }

  /** No validator set, roster or staked, decides the next block. */
  ghost predicate Unguarded(cfg: Config, v: View)
  {
    v.blocks != [] && cfg.keys == map[] && StakeAuthority(cfg, v.state, v.Height() + 1) == []
  }

  /** The block's time suits the tip and the clock, and applying its corrections once more keeps the enforced root. */
  ghost predicate Agreeable(r: Rules, cfg: Config, v: View, b: Block, checked: int)
    requires Unguarded(cfg, v) && Transition(r, cfg, v.state, b).Some?
  {
    var next, height := Transition(r, cfg, v.state, b).value, v.Height() + 1;
    && Timely(v.blocks[|v.blocks| - 1], b, checked)
    && (height < cfg.rootFrom || r.root(ApplyCorrections(next, cfg.corrections, height)) == r.root(next))
  }

  /**
   Build/validate agreement: on a chain without a validator set, when skipping is clean, a block BuildBlock
   returns can be finalized exactly when its time suits and debiting the corrections of its height a second
   time leaves the enforced root alone -- with a monotone clock and no such correction, always.
   */
  lemma BuiltBlockIsValid(r: Rules, cfg: Config, v: View, mempool: map<string, Tx>, proposerId: string,
                          pocRoot: string, limit: nat, built: int, checked: int)
    requires Unguarded(cfg, v) && MempoolOk(r, cfg, mempool)
    requires SkipsCleanly(r, cfg, Selection(v.state, []), Candidates(mempool), v.Height() + 1, limit)
    requires forall h: Header, txs: seq<Tx> :: r.headerHash(h, txs) != ""
    ensures var tip := v.blocks[|v.blocks| - 1];
            var b := Build(r, cfg, tip, v.state, Candidates(mempool), proposerId, pocRoot, limit, built);
            b.Some? ==>
              && |b.value.txs| <= limit && Transition(r, cfg, v.state, b.value).Some?
              && (CanFinalize(r, cfg, v, b.value, checked) <==> Agreeable(r, cfg, v, b.value, checked))
              && (&& (tip.header.timestamp.Some? ==> tip.header.timestamp.value <= Truncated(built))
                  && built <= checked && NoneAt(cfg.corrections, v.Height() + 1) ==>
                    CanFinalize(r, cfg, v, b.value, checked))
  {
    CandidatesOrdered(r, cfg, mempool);
    BuiltFromGenuine(r, cfg, v, Candidates(mempool), proposerId, pocRoot, limit, built, checked);
    var b := Build(r, cfg, v.blocks[|v.blocks| - 1], v.state, Candidates(mempool), proposerId, pocRoot, limit, built);
    if b.Some? { QuietlyAgreeable(r, cfg, v, b.value, built, checked); }
  }

  /** A monotone clock and no correction at the new height suffice. */
  lemma QuietlyAgreeable(r: Rules, cfg: Config, v: View, b: Block, built: int, checked: int)
    requires Unguarded(cfg, v) && Transition(r, cfg, v.state, b).Some? && b.header.timestamp == Some(Truncated(built))
    ensures var t := v.blocks[|v.blocks| - 1].header.timestamp;
            (t.Some? ==> t.value <= Truncated(built)) && built <= checked && NoneAt(cfg.corrections, v.Height() + 1) ==>
              Agreeable(r, cfg, v, b, checked)
  {
    if NoneAt(cfg.corrections, v.Height() + 1) {
      NoCorrectionsApplied(Transition(r, cfg, v.state, b).value, cfg.corrections, v.Height() + 1);
    }
  }

  lemma BuiltFromGenuine(r: Rules, cfg: Config, v: View, candidates: seq<Tx>, proposerId: string,
                         pocRoot: string, limit: nat, built: int, checked: int)
    requires Unguarded(cfg, v) && Genuine(r, cfg, candidates)
    requires SkipsCleanly(r, cfg, Selection(v.state, []), candidates, v.Height() + 1, limit)
    requires forall h: Header, txs: seq<Tx> :: r.headerHash(h, txs) != ""
    ensures var b := Build(r, cfg, v.blocks[|v.blocks| - 1], v.state, candidates, proposerId, pocRoot, limit, built);
            b.Some? ==>
              && |b.value.txs| <= limit && Transition(r, cfg, v.state, b.value).Some?
              && b.value.header.timestamp == Some(Truncated(built))
              && (CanFinalize(r, cfg, v, b.value, checked) <==> Agreeable(r, cfg, v, b.value, checked))
  {
    var tip, height, start := v.blocks[|v.blocks| - 1], v.Height() + 1, Selection(v.state, []);
    FaithfulExactly(r, cfg, v.state, start, candidates, height, limit);
    SelectedApplies(r, cfg, v.state, start, candidates, height, limit);
    var sel := Select(r, cfg, start, candidates, height, limit);
    var credited := CreditProposerFees(sel.state, sel.chosen, ProposerAddress(r, cfg, v.state, height, proposerId));
    if credited.Some? {
      SealedAgrees(r, cfg, v, sel, credited.value, proposerId, pocRoot, built, checked);
    }
  }

  /** A sealed block is what validation recomputes, but for its time and the doubled corrections. */
  lemma SealedAgrees(r: Rules, cfg: Config, v: View, sel: Selection, credited: State, proposerId: string,
                     pocRoot: string, built: int, checked: int)
    requires Unguarded(cfg, v) && Genuine(r, cfg, sel.chosen)
    requires ApplyAll(r, cfg, v.state, sel.chosen, v.Height() + 1) == Some(sel.state)
    requires CreditProposerFees(sel.state, sel.chosen, ProposerAddress(r, cfg, v.state, v.Height() + 1, proposerId)) ==
             Some(credited)
    requires forall h: Header, txs: seq<Tx> :: r.headerHash(h, txs) != ""
    ensures var b := Sealed(r, cfg, v.blocks[|v.blocks| - 1], credited, sel.chosen, proposerId, pocRoot, built);
            && Transition(r, cfg, v.state, b) == Some(Finish(r, cfg, credited, v.Height() + 1))
            && (CanFinalize(r, cfg, v, b, checked) <==> Agreeable(r, cfg, v, b, checked))
  {
  }

  // ---------------------------------------------------------------- why the hypotheses are there

  /** Rules whose root shows the balance of "x" and whose every transaction fails after writing to it. */
  function DirtyRules(): Rules
  {
    Rules((t: Tx) => true, (s: State, t: Tx, c: TxContext) => Applied(s.WithBalance("x", 7), false),
          (s: State) => if s.Balance("x") == 0 then "0" else if s.Balance("x") == 1 then "1" else "many",
          (s: State, p: Staking) => [], (s: State, a: Address) => 0, (h: Header, txs: seq<Tx>) => "h",
          (txs: seq<Tx>) => "t", (k: string) => "", (k: string, m: Message, sig: string) => true)
  }

  function PlainConfig(corrections: seq<Correction>): Config
  {
    Config("c", 1, map[], 1, 0, 0, corrections, Staking(0, 0, 0, 0))
  }

  /** A failing candidate that writes before it fails makes the producer commit to a root nobody reaches. */
  lemma DirtyFailureSpoilsBlock(tip: Block, st: State, tx: Tx, now: int, checked: int)
    requires st.Balance("x") == 0 && tip.header.height + 1 < FeeModelV2Height
    ensures var b := Build(DirtyRules(), PlainConfig([]), tip, st, [tx], "p", "", 1000, now);
            b.Some? && !ValidBlock(DirtyRules(), PlainConfig([]), tip, st, b.value, checked, true)
  {
    var r, cfg, h := DirtyRules(), PlainConfig([]), tip.header.height + 1;
    assert Select(r, cfg, Selection(st, []), [tx], h, 1000) == Selection(st.WithBalance("x", 7), []) by {
      assert [tx][1..] == [];
      assert Select(r, cfg, Selection(st.WithBalance("x", 7), []), [], h, 1000) ==
        Selection(st.WithBalance("x", 7), []);
    }
    var b := Build(r, cfg, tip, st, [tx], "p", "", 1000, now).value;
    assert Transition(r, cfg, st, b) == Some(st);
  }

  /** BuildBlock debits a correction of the new height twice, validation once. */
  lemma CorrectionSpoilsBlock(tip: Block, st: State, now: int, checked: int)
    requires st.Balance("x") == 2 && tip.header.height + 1 < FeeModelV2Height
    ensures var cfg := PlainConfig([Correction(tip.header.height + 1, "x", 1)]);
            var b := Build(DirtyRules(), cfg, tip, st, [], "p", "", 1000, now);
            b.Some? && !ValidBlock(DirtyRules(), cfg, tip, st, b.value, checked, true)
  {
    var r, h := DirtyRules(), tip.header.height + 1;
    var c := Correction(h, "x", 1);
    var cfg := PlainConfig([c]);
    assert [c][1..] == [];
    assert ApplyCorrections(st, [c], h) == st.WithBalance("x", 1);
    assert ApplyCorrections(st.WithBalance("x", 1), [c], h) == st.WithBalance("x", 1).WithBalance("x", 0);
    var b := Build(r, cfg, tip, st, [], "p", "", 1000, now).value;
    assert Transition(r, cfg, st, b) == Some(st.WithBalance("x", 1));
  }
}
