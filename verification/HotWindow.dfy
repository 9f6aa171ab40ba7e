/**
 The compact chain (hot window, checkpoint, live state) against the simple one (the whole history and
 its replay), over every interleaving of FinalizeBlock, SetHotWindow and any number of TryReorg calls.
 */
module HotWindow {
  import opened Common
  import opened Ledger
  import opened ChainMachine

  /**
   A chain with the history no field holds any more. `dropped` is 1 once a reorganization has been
   installed while nothing was trimmed: that installation leaves genesis out of the window.
   */
  datatype Node = Node(view: View, history: seq<Block>, dropped: nat, attempts: seq<Attempt>)

  /** One locked section; a replay happens between its BeginStep and its SwapStep. */
  datatype Step =
    | FinalizeStep(b: Block, now: int)
    | WindowStep(maxHot: int)
    | BeginStep(forkHeight: nat, candidate: seq<Option<Block>>)
    | SwapStep(attempt: nat, clock: nat -> int)

  /** The history a swap leaves: up to the window, then prefix and replayed candidate. */
  function Grafted(history: seq<Block>, a: Attempt, scratch: View): seq<Block>
    requires |scratch.blocks| >= 1 + |a.prefix|
  {
    history[..Min(Max(a.hotStart, 1), |history|)] + a.prefix + scratch.blocks[1 + |a.prefix|..]
  }

  /** Whether a SwapStep installs its branch. */
  ghost predicate Installs(r: Rules, cfg: Config, n: Node, step: Step)
  {
    && step.SwapStep? && step.attempt < |n.attempts|
    && Evaluate(r, cfg, n.attempts[step.attempt], step.clock).Some?
    && Unmoved(n.view, n.attempts[step.attempt])
  }

  ghost function Next(r: Rules, cfg: Config, n: Node, step: Step): Node
  {
    match step
    case FinalizeStep(b, now) =>
      (match FinalizeBlock(r, cfg, n.view, b, now)
       case None => n
       case Some(v) => n.(view := v, history := n.history + [Stamped(b)]))
    case WindowStep(maxHot) =>
      n.(view := Trim(r, cfg, n.view.(maxHot := maxHot)))
    case BeginStep(forkHeight, candidate) =>
      if !Indexable(n.view) then n else
      (match Begin(n.view, forkHeight, candidate)
       case Refused(_) => n
       case Begun(a) => n.(attempts := n.attempts + [a]))
    case SwapStep(i, clock) =>
      if !Installs(r, cfg, n, step) then n else
      var a := n.attempts[i];
      var scratch := Evaluate(r, cfg, a, clock).value;
      n.(view := Swap(r, cfg, n.view, a, scratch),
         history := Grafted(n.history, a, scratch),
         dropped := if n.view.hotStart == 0 then 1 else n.dropped)
  }

  ghost function Run(r: Rules, cfg: Config, n: Node, steps: seq<Step>): Node
    decreases |steps|
  {
    if steps == [] then n else Run(r, cfg, Next(r, cfg, n, steps[0]), steps[1..])
  }

  // ---------------------------------------------------------------- the invariant

  ghost predicate Linked(history: seq<Block>)
  {
    && (forall i :: 0 <= i < |history| ==> history[i].header.height == i && history[i].finalized)
    && (forall i :: 0 < i < |history| ==> history[i].header.parentHash == history[i - 1].hash)
  }

  /** Genesis carries no transactions, and no end-of-block step is configured for height 0. */
  ghost predicate InertGenesis(cfg: Config, genesisBlock: Block)
  {
    && genesisBlock.txs == [] && genesisBlock.header.height == 0
    && NoneAt(cfg.corrections, 0) && !cfg.staking.SnapshotHeight(0)
  }

  /** The blocks: the window is the end of a linked history, and the checkpoint's block is right below it. */
  ghost predicate Shaped(v: View, history: seq<Block>, dropped: nat)
  {
    && v.genesis.Some? && dropped <= 1
    && Linked(history)
    && v.hotStart + dropped < |history|
    && v.blocks == history[v.hotStart + dropped..]
    && (v.hotStart > 0 ==> v.base.Some? && v.baseBlock == Some(history[v.hotStart + dropped - 1]))
  }

  /** Everything but the size of the window: the blocks, and the states their replay leads to. */
  ghost predicate Agrees(r: Rules, cfg: Config, v: View, history: seq<Block>, dropped: nat)
  {
    && Shaped(v, history, dropped)
    && InertGenesis(cfg, history[0])
    && Replay(r, cfg, v.genesis.value, history[1..]) == Some(v.state)
    && (v.hotStart > 0 ==> v.base == Replay(r, cfg, v.genesis.value, history[1..v.hotStart + dropped]))
  }

  ghost predicate Bounded(v: View) { v.maxHot > 0 ==> |v.blocks| <= v.maxHot }

  /** What an attempt still guarantees about the chain it was taken from. */
  ghost predicate Tracks(v: View, history: seq<Block>, a: Attempt)
    requires |history| > 0
  {
    && a.candidate != [] && a.candidate[0].Some? && a.candidate[0].value.header.height == a.forkHeight
    && a.forkHeight == Max(a.hotStart, 1) + |a.prefix|
    && (forall i :: 0 <= i < |a.prefix| ==> a.prefix[i].finalized)
    && a.hotStart <= v.hotStart
    && (a.hotStart == v.hotStart > 0 ==> Some(a.base) == v.base && Some(a.baseBlock) == v.baseBlock)
    && (a.hotStart == 0 ==> Some(a.base) == v.genesis && (a.baseBlock.header.height == 0 ==> a.baseBlock == history[0]))
  }

  /** What every run keeps, reorganizations across corrected heights included: the blocks, not the states. */
  ghost predicate Standing(n: Node)
  {
    && Shaped(n.view, n.history, n.dropped)
    && forall i :: 0 <= i < |n.attempts| ==> Tracks(n.view, n.history, n.attempts[i])
  }

  ghost predicate Sound(r: Rules, cfg: Config, n: Node)
  {
    && Agrees(r, cfg, n.view, n.history, n.dropped)
    && Bounded(n.view)
    && forall i :: 0 <= i < |n.attempts| ==> Tracks(n.view, n.history, n.attempts[i])
  }

  // ---------------------------------------------------------------- trimming

  lemma InertGenesisReplays(r: Rules, cfg: Config, st: State, genesisBlock: Block)
    requires InertGenesis(cfg, genesisBlock)
    ensures Transition(r, cfg, st, genesisBlock) == Some(st)
  {
    NoCorrectionsApplied(st, cfg.corrections, 0);
  }

  lemma ReplayMiddle(r: Rules, cfg: Config, g: State, pre: seq<Block>, mid: seq<Block>, post: seq<Block>)
    requires Replay(r, cfg, g, pre + mid + post).Some?
    ensures Replay(r, cfg, g, pre).Some? && Replay(r, cfg, g, pre + mid).Some?
    ensures Replay(r, cfg, Replay(r, cfg, g, pre).value, mid) == Replay(r, cfg, g, pre + mid)
  {
    ReplayAppend(r, cfg, g, pre + mid, post);
    ReplayAppend(r, cfg, g, pre, mid);
  }

  /** Replaying part of the window from the checkpoint is replaying the history up to there. */
  lemma CheckpointReplay(r: Rules, cfg: Config, v: View, history: seq<Block>, dropped: nat, k: nat)
    requires Agrees(r, cfg, v, history, dropped) && 0 < k <= |v.blocks|
    ensures v.BaseState().Some?
    ensures var s := Replay(r, cfg, v.BaseState().value, v.blocks[..k]);
            s.Some? && s == Replay(r, cfg, v.genesis.value, history[1..v.hotStart + dropped + k])
  {
    WindowReplay(r, cfg, v, history, v.hotStart + dropped, k);
  }

  lemma WindowReplay(r: Rules, cfg: Config, v: View, history: seq<Block>, at: nat, k: nat)
    requires v.genesis.Some? && at < |history| && v.hotStart <= at <= v.hotStart + 1 && 0 < k <= |v.blocks|
    requires v.blocks == history[at..] && InertGenesis(cfg, history[0]) &&
             Replay(r, cfg, v.genesis.value, history[1..]).Some?
    requires v.hotStart > 0 ==> v.base.Some? && v.base == Replay(r, cfg, v.genesis.value, history[1..at])
    ensures v.BaseState().Some?
    ensures var s := Replay(r, cfg, v.BaseState().value, v.blocks[..k]);
            s.Some? && s == Replay(r, cfg, v.genesis.value, history[1..at + k])
  {
    if at == 0 {
      UntrimmedReplay(r, cfg, v.genesis.value, history, k);
      assert v.blocks[..k] == history[..k];
    } else {
      TrimmedReplay(r, cfg, v.genesis.value, history, at, k);
    }
  }

  lemma TrimmedReplay(r: Rules, cfg: Config, g: State, history: seq<Block>, at: nat, k: nat)
    requires 0 < at && at + k <= |history| && Replay(r, cfg, g, history[1..]).Some?
    ensures Replay(r, cfg, g, history[1..at]).Some? && Replay(r, cfg, g, history[1..at + k]).Some?
    ensures Replay(r, cfg, Replay(r, cfg, g, history[1..at]).value, history[at..][..k]) ==
            Replay(r, cfg, g, history[1..at + k])
    ensures at == 1 ==> Replay(r, cfg, g, history[1..at]) == Some(g)
  {
    var pre, mid, post := history[1..at], history[at..][..k], history[at + k..];
    assert pre + mid == history[1..at + k];
    assert history[1..] == pre + mid + post;
    ReplayMiddle(r, cfg, g, pre, mid, post);
  }

  lemma UntrimmedReplay(r: Rules, cfg: Config, g: State, history: seq<Block>, k: nat)
    requires 0 < k <= |history| && InertGenesis(cfg, history[0]) && Replay(r, cfg, g, history[1..]).Some?
    ensures Replay(r, cfg, g, history[..k]).Some?
    ensures Replay(r, cfg, g, history[..k]) == Replay(r, cfg, g, history[1..k])
  {
    InertGenesisReplays(r, cfg, g, history[0]);
    assert history[..k][1..] == history[1..k];
    assert history[1..] == [] + history[1..k] + history[k..];
    ReplayMiddle(r, cfg, g, [], history[1..k], history[k..]);
  }

  /** Trimming cannot fail on finalized blocks, moves the checkpoint right, and meets the bound. */
  lemma TrimAgrees(r: Rules, cfg: Config, v: View, history: seq<Block>, dropped: nat)
    requires Agrees(r, cfg, v, history, dropped)
    ensures Agrees(r, cfg, Trim(r, cfg, v), history, dropped) && Bounded(Trim(r, cfg, v))
    ensures |Trim(r, cfg, v).blocks| == if v.maxHot > 0 then Min(|v.blocks|, v.maxHot) else |v.blocks|
    ensures Trim(r, cfg, v).hotStart >= v.hotStart
    ensures Trim(r, cfg, v).hotStart == v.hotStart ==> Trim(r, cfg, v) == v
  {
    var excess := |v.blocks| - v.maxHot;
    if v.maxHot > 0 && excess > 0 {
      CheckpointReplay(r, cfg, v, history, dropped, excess);
      var next := TrimEvicts(r, cfg, v, excess);
      EvictAgrees(r, cfg, v, history, dropped, excess, next);
    }
  }

  lemma TrimEvicts(r: Rules, cfg: Config, v: View, excess: nat) returns (next: State)
    requires v.maxHot > 0 && 0 < excess == |v.blocks| - v.maxHot
    requires v.BaseState().Some? && Replay(r, cfg, v.BaseState().value, v.blocks[..excess]).Some?
    ensures Some(next) == Replay(r, cfg, v.BaseState().value, v.blocks[..excess])
    ensures Trim(r, cfg, v) == Evicted(v, excess, next)
  {
    next := Replay(r, cfg, v.BaseState().value, v.blocks[..excess]).value;
  }

  lemma EvictAgrees(r: Rules, cfg: Config, v: View, history: seq<Block>, dropped: nat, k: nat, next: State)
    requires Agrees(r, cfg, v, history, dropped) && 0 < k < |v.blocks|
    requires Some(next) == Replay(r, cfg, v.genesis.value, history[1..v.hotStart + dropped + k])
    ensures Agrees(r, cfg, Evicted(v, k, next), history, dropped)
  {
    EvictShapes(v, history, dropped, k, next);
    assert v.hotStart + dropped + k == v.hotStart + k + dropped;
  }

  /** Whether or not it can replay what it evicts, trimming keeps the shape. */
  lemma TrimShapes(r: Rules, cfg: Config, v: View, history: seq<Block>, dropped: nat)
    requires Shaped(v, history, dropped)
    ensures Shaped(Trim(r, cfg, v), history, dropped)
    ensures Trim(r, cfg, v).hotStart >= v.hotStart && Trim(r, cfg, v).genesis == v.genesis
    ensures Trim(r, cfg, v).hotStart == v.hotStart ==> Trim(r, cfg, v) == v
  {
    var excess := |v.blocks| - v.maxHot;
    if v.maxHot > 0 && excess > 0 && v.BaseState().Some? &&
       Replay(r, cfg, v.BaseState().value, v.blocks[..excess]).Some?
    {
      var next := TrimEvicts(r, cfg, v, excess);
      EvictShapes(v, history, dropped, excess, next);
    }
  }

  lemma EvictShapes(v: View, history: seq<Block>, dropped: nat, k: nat, next: State)
    requires Shaped(v, history, dropped) && 0 < k < |v.blocks|
    ensures Shaped(Evicted(v, k, next), history, dropped)
  {
    var at := v.hotStart + dropped;
    assert v.blocks[k..] == history[at + k..];
    assert v.blocks[k - 1] == history[at + k - 1];
  }

  lemma TracksTrim(r: Rules, cfg: Config, v: View, history: seq<Block>, dropped: nat, a: Attempt)
    requires Shaped(v, history, dropped) && Tracks(v, history, a)
    ensures Tracks(Trim(r, cfg, v), history, a)
  {
    TrimShapes(r, cfg, v, history, dropped);
  }

  lemma TrimStands(r: Rules, cfg: Config, v: View, history: seq<Block>, dropped: nat, attempts: seq<Attempt>)
    requires Shaped(v, history, dropped)
    requires forall i :: 0 <= i < |attempts| ==> Tracks(v, history, attempts[i])
    ensures Standing(Node(Trim(r, cfg, v), history, dropped, attempts))
  {
    TrimShapes(r, cfg, v, history, dropped);
    forall i | 0 <= i < |attempts| ensures Tracks(Trim(r, cfg, v), history, attempts[i]) {
      TracksTrim(r, cfg, v, history, dropped, attempts[i]);
    }
  }

  // ---------------------------------------------------------------- finalizing

  /** Replay does not look at the finalized mark. */
  lemma ReplayStamped(r: Rules, cfg: Config, st: State, b: Block, rest: seq<Block>)
    ensures Replay(r, cfg, st, [Stamped(b)] + rest) == Then(r, cfg, Transition(r, cfg, st, b), rest)
  {
    assert ([Stamped(b)] + rest)[1..] == rest;
  }

  lemma AppendedAgrees(r: Rules, cfg: Config, v: View, history: seq<Block>, dropped: nat, b: Block)
    requires Agrees(r, cfg, v, history, dropped)
    requires Extends(v.blocks[|v.blocks| - 1], b) && Transition(r, cfg, v.state, b).Some?
    ensures Agrees(r, cfg, Appended(r, cfg, v, b), history + [Stamped(b)], dropped)
  {
    AppendShapes(r, cfg, v, history, dropped, b);
    ReplayLonger(r, cfg, v.genesis.value, history, v.state, b);
    LongerSlices(history, Stamped(b), v.hotStart + dropped);
  }

  lemma AppendShapes(r: Rules, cfg: Config, v: View, history: seq<Block>, dropped: nat, b: Block)
    requires Shaped(v, history, dropped)
    requires Extends(v.blocks[|v.blocks| - 1], b) && Transition(r, cfg, v.state, b).Some?
    ensures Shaped(Appended(r, cfg, v, b), history + [Stamped(b)], dropped)
  {
    LongerLinked(history, b);
    LongerSlices(history, Stamped(b), v.hotStart + dropped);
  }

  lemma ReplayLonger(r: Rules, cfg: Config, g: State, history: seq<Block>, st: State, b: Block)
    requires history != [] && Replay(r, cfg, g, history[1..]) == Some(st)
    ensures Replay(r, cfg, g, (history + [Stamped(b)])[1..]) == Transition(r, cfg, st, b)
  {
    ReplayAppend(r, cfg, g, history[1..], [Stamped(b)]);
    ReplayStamped(r, cfg, st, b, []);
    assert [Stamped(b)] + [] == [Stamped(b)];
    assert (history + [Stamped(b)])[1..] == history[1..] + [Stamped(b)];
  }

  lemma LongerLinked(history: seq<Block>, b: Block)
    requires history != [] && Linked(history) && Extends(history[|history| - 1], b)
    ensures Linked(history + [Stamped(b)])
  {
  }

  lemma LongerSlices(history: seq<Block>, b: Block, at: nat)
    requires at < |history|
    ensures (history + [b])[at..] == history[at..] + [b]
    ensures at > 0 ==> (history + [b])[1..at] == history[1..at] && (history + [b])[at - 1] == history[at - 1]
    ensures history[at..][|history[at..]| - 1] == history[|history| - 1]
  {
  }

  /** `after` is `before` with the blocks of `bs` finalized on top, each extending the one before. */
  ghost predicate Grown(before: seq<Block>, after: seq<Block>, bs: seq<Option<Block>>)
  {
    && |after| == |before| + |bs|
    && before == after[..|before|]
    && (forall i :: 0 <= i < |bs| ==> bs[i].Some? && after[|before| + i] == Stamped(bs[i].value))
    && (forall i :: 1 <= |before| <= i < |after| ==> Extends(after[i - 1], after[i]))
  }

  lemma GrownStep(before: seq<Block>, b: Block, after: seq<Block>, bs: seq<Option<Block>>)
    requires before != [] && Extends(before[|before| - 1], b)
    requires bs != [] && bs[0] == Some(b) && Grown(before + [Stamped(b)], after, bs[1..])
    ensures Grown(before, after, bs)
    ensures after[|before|..] == [Stamped(b)] + after[|before| + 1..]
  {
    var n := |before|;
    assert after[..n + 1][n] == after[n] && after[..n + 1][n - 1] == after[n - 1];
    assert after[..n] == after[..n + 1][..n];
    forall i | 0 <= i < |bs| ensures bs[i].Some? && after[n + i] == Stamped(bs[i].value) {
      if i > 0 { assert bs[1..][i - 1] == bs[i]; }
    }
  }

  lemma FinalizedOne(r: Rules, cfg: Config, v: View, b: Block, now: int)
    requires v.maxHot <= 0 && FinalizeBlock(r, cfg, v, b, now).Some?
    ensures v.blocks != [] && Extends(v.blocks[|v.blocks| - 1], b)
    ensures Transition(r, cfg, v.state, b).Some?
    ensures FinalizeBlock(r, cfg, v, b, now).value == Appended(r, cfg, v, b)
  {
  }

  lemma FinalizeAllCons(r: Rules, cfg: Config, v: View, bs: seq<Option<Block>>, clock: nat -> int, k: nat)
    requires bs != [] && FinalizeAll(r, cfg, v, bs, clock, k).Some?
    ensures bs[0].Some? && FinalizeBlock(r, cfg, v, bs[0].value, clock(k)).Some?
    ensures FinalizeAll(r, cfg, v, bs, clock, k) ==
            FinalizeAll(r, cfg, FinalizeBlock(r, cfg, v, bs[0].value, clock(k)).value, bs[1..], clock, k + 1)
  {
  }

  /** A scratch chain that finalizes `bs` has replayed exactly them, linked onto its anchor. */
  lemma {:induction false} FinalizedAll(r: Rules, cfg: Config, v: View, bs: seq<Option<Block>>, clock: nat -> int,
                                        k: nat)
    requires v.maxHot <= 0 && v.blocks != []
    requires FinalizeAll(r, cfg, v, bs, clock, k).Some?
    ensures var w := FinalizeAll(r, cfg, v, bs, clock, k).value;
            Grown(v.blocks, w.blocks, bs) && Replay(r, cfg, v.state, w.blocks[|v.blocks|..]) == Some(w.state)
    decreases |bs|
  {
    var w := FinalizeAll(r, cfg, v, bs, clock, k).value;
    if bs != [] {
      FinalizeAllCons(r, cfg, v, bs, clock, k);
      var b := bs[0].value;
      FinalizedOne(r, cfg, v, b, clock(k));
      var v1 := Appended(r, cfg, v, b);
      FinalizedAll(r, cfg, v1, bs[1..], clock, k + 1);
      GrownStep(v.blocks, b, w.blocks, bs);
      ReplayStamped(r, cfg, v.state, b, w.blocks[|v.blocks| + 1..]);
    }
  }

  // ---------------------------------------------------------------- reorganizing

  /** No correction is configured for a height the attempt replays. */
  predicate ClearOfCorrections(cfg: Config, a: Attempt)
  {
    var first := Max(a.hotStart, 1);
    forall c <- cfg.corrections :: !(first <= c.height < first + |a.prefix| + |a.candidate|)
  }

  /** Every reorganization the run installs is clear of corrections; other steps are free. */
  ghost predicate Clear(r: Rules, cfg: Config, n: Node, steps: seq<Step>)
    decreases |steps|
  {
    steps == [] ||
    (&& (Installs(r, cfg, n, steps[0]) ==> ClearOfCorrections(cfg, n.attempts[steps[0].attempt]))
     && Clear(r, cfg, Next(r, cfg, n, steps[0]), steps[1..]))
  }

  /** So a chain without corrections is free, and so is any run that installs no reorganization. */
  lemma {:induction false} ClearRuns(r: Rules, cfg: Config, n: Node, steps: seq<Step>)
    requires cfg.corrections == [] || forall i :: 0 <= i < |steps| ==> !steps[i].SwapStep?
    ensures Clear(r, cfg, n, steps)
    decreases |steps|
  {
    if steps != [] { ClearRuns(r, cfg, Next(r, cfg, n, steps[0]), steps[1..]); }
  }

  /** No correction of a replayed height changes the state it would be applied to. */
  ghost predicate Unbitten(r: Rules, cfg: Config, st: State, bs: seq<Block>)
    decreases |bs|
  {
    bs == [] ||
    match Economy(r, cfg, st, bs[0])
    case None => true
    case Some(credited) =>
      && ApplyCorrections(credited, cfg.corrections, bs[0].header.height) == credited
      && Unbitten(r, cfg, Finish(r, cfg, credited, bs[0].header.height), bs[1..])
  }

  /** The scratch chain and the chain itself replay `bs` through the same states. */
  ghost predicate ReplaysAlike(r: Rules, cfg: Config, st: State, bs: seq<Block>)
  {
    forall k :: 0 <= k <= |bs| ==> Replay(r, cfg, st, bs[..k]) == Replay(r, ScratchConfig(cfg), st, bs[..k])
  }

  lemma {:induction false} CorrectionsOnlyBalances(st: State, corrections: seq<Correction>, height: nat)
    ensures ApplyCorrections(st, corrections, height) ==
            st.(balances := ApplyCorrections(st, corrections, height).balances)
    decreases |corrections|
  {
    if corrections != [] {
      var c := corrections[0];
      var next :=
        if c.height != height then st
        else st.WithBalance(c.address, if st.Balance(c.address) > c.debit then st.Balance(c.address) - c.debit else 0);
      CorrectionsOnlyBalances(next, corrections[1..], height);
    }
  }

  /** One block: the transitions agree exactly when its corrections change nothing. */
  lemma TransitionsAlike(r: Rules, cfg: Config, st: State, b: Block)
    ensures Transition(r, cfg, st, b) == Transition(r, ScratchConfig(cfg), st, b) <==>
            match Economy(r, cfg, st, b)
            case None => true
            case Some(credited) => ApplyCorrections(credited, cfg.corrections, b.header.height) == credited
  {
    SameContext(r, cfg, ScratchConfig(cfg), st, b.txs, b.header.height);
    var e := Economy(r, cfg, st, b);
    if e.Some? { CorrectionsOnlyBalances(e.value, cfg.corrections, b.header.height); }
  }

  /** What the scratch chain demands of a block even where the chain itself does not yet: a roster and a true root. */
  ghost predicate Strict(r: Rules, cfg: Config, st: State, b: Block)
    requires Transition(r, cfg, st, b).Some?
  {
    && (StakeAuthority(cfg, st, b.header.height) == [] && b.header.height > 0 && cfg.keys != map[] ==>
          RosterAuthorized(r, cfg, b, true))
    && r.root(Transition(r, cfg, st, b).value) == b.header.stateRoot
  }

  /** Away from corrections, the scratch chain accepts exactly the blocks the chain accepts that are also strict. */
  lemma ScratchAcceptsExactly(r: Rules, cfg: Config, tip: Block, st: State, b: Block, now: int)
    requires NoneAt(cfg.corrections, b.header.height)
    ensures ValidBlock(r, ScratchConfig(cfg), tip, st, b, now, true) <==>
            ValidBlock(r, cfg, tip, st, b, now, true) && Strict(r, cfg, st, b)
    ensures Transition(r, ScratchConfig(cfg), st, b) == Transition(r, cfg, st, b)
  {
    TransitionWithoutCorrections(r, cfg, ScratchConfig(cfg), st, b);
  }

  /** Where the chain enforces everything itself, nothing more is demanded. */
  lemma EnforcedIsStrict(r: Rules, cfg: Config, tip: Block, st: State, b: Block, now: int)
    requires b.header.height >= cfg.authFrom && b.header.height >= cfg.rootFrom &&
             ValidBlock(r, cfg, tip, st, b, now, true)
    ensures Strict(r, cfg, st, b)
  {
  }

  /** A height the chain already enforces authorization and roots at, without a correction. */
  predicate Settled(cfg: Config, height: nat)
  {
    height >= cfg.authFrom && height >= cfg.rootFrom && forall c <- cfg.corrections :: c.height != height
  }

  /** Over such heights the scratch chain runs the very checks, and reaches the very states, of the chain itself. */
  lemma {:induction false} ScratchFinalizesAlike(r: Rules, cfg: Config, v: View, bs: seq<Option<Block>>,
                                                 clock: nat -> int,
                                                 k: nat)
    requires v.maxHot <= 0
    requires forall i :: 0 <= i < |bs| && bs[i].Some? ==> Settled(cfg, bs[i].value.header.height)
    ensures FinalizeAll(r, ScratchConfig(cfg), v, bs, clock, k) == FinalizeAll(r, cfg, v, bs, clock, k)
    decreases |bs|
  {
    if bs != [] && bs[0].Some? {
      var b := bs[0].value;
      FinalizesAlike(r, cfg, v, b, clock(k));
      var next := FinalizeBlock(r, cfg, v, b, clock(k));
      if next.Some? { ScratchFinalizesAlike(r, cfg, next.value, bs[1..], clock, k + 1); }
    }
  }

  lemma FinalizesAlike(r: Rules, cfg: Config, v: View, b: Block, now: int)
    requires v.maxHot <= 0 && Settled(cfg, b.header.height)
    ensures FinalizeBlock(r, ScratchConfig(cfg), v, b, now) == FinalizeBlock(r, cfg, v, b, now)
    ensures FinalizeBlock(r, cfg, v, b, now).Some? ==> FinalizeBlock(r, cfg, v, b, now).value.maxHot == v.maxHot
  {
    if v.blocks != [] {
      var tip := v.blocks[|v.blocks| - 1];
      ScratchAcceptsExactly(r, cfg, tip, v.state, b, now);
      if ValidBlock(r, cfg, tip, v.state, b, now, true) { EnforcedIsStrict(r, cfg, tip, v.state, b, now); }
    }
  }

  /**
   A scratch replay passes through the states of the chain's own rules exactly when no correction of a
   replayed height changes a balance there.
   */
  lemma {:induction false} ScratchReplaysExactly(r: Rules, cfg: Config, st: State, bs: seq<Block>)
    ensures ReplaysAlike(r, cfg, st, bs) <==> Unbitten(r, cfg, st, bs)
    decreases |bs|
  {
    if bs != [] {
      TransitionsAlike(r, cfg, st, bs[0]);
      var next := Transition(r, cfg, st, bs[0]);
      var same := next == Transition(r, ScratchConfig(cfg), st, bs[0]);
      assert Replay(r, cfg, st, bs[..1]) == next && Replay(r, ScratchConfig(cfg), st, bs[..1]) ==
             Transition(r, ScratchConfig(cfg), st, bs[0]) by {
        assert bs[..1] == [bs[0]] && [bs[0]][1..] == [];
      }
      if same {
        if next.Some? { ScratchReplaysExactly(r, cfg, next.value, bs[1..]); }
        AlikeCons(r, cfg, st, bs);
      }
    }
  }

  lemma AlikeCons(r: Rules, cfg: Config, st: State, bs: seq<Block>)
    requires bs != [] && Transition(r, cfg, st, bs[0]) == Transition(r, ScratchConfig(cfg), st, bs[0])
    ensures var next := Transition(r, cfg, st, bs[0]);
            ReplaysAlike(r, cfg, st, bs) <==> next.None? || ReplaysAlike(r, cfg, next.value, bs[1..])
  {
    var next := Transition(r, cfg, st, bs[0]);
    forall k | 0 < k <= |bs|
      ensures Replay(r, cfg, st, bs[..k]) == Then(r, cfg, next, bs[1..][..k - 1])
      ensures Replay(r, ScratchConfig(cfg), st, bs[..k]) == Then(r, ScratchConfig(cfg), next, bs[1..][..k - 1])
    {
      assert bs[..k][1..] == bs[1..][..k - 1];
    }
    if ReplaysAlike(r, cfg, st, bs) && next.Some? {
      forall k | 0 <= k <= |bs[1..]|
        ensures Replay(r, cfg, next.value, bs[1..][..k]) == Replay(r, ScratchConfig(cfg), next.value, bs[1..][..k])
      {
        assert Replay(r, cfg, st, bs[..k + 1]) == Replay(r, ScratchConfig(cfg), st, bs[..k + 1]);
      }
    }
  }

  lemma {:induction false} ScratchReplay(r: Rules, cfg: Config, st: State, bs: seq<Block>)
    requires forall i :: 0 <= i < |bs| ==> NoneAt(cfg.corrections, bs[i].header.height)
    ensures Replay(r, cfg, st, bs) == Replay(r, ScratchConfig(cfg), st, bs)
    decreases |bs|
  {
    if bs != [] {
      TransitionWithoutCorrections(r, cfg, ScratchConfig(cfg), st, bs[0]);
      var next := Transition(r, cfg, st, bs[0]);
      if next.Some? { ScratchReplay(r, cfg, next.value, bs[1..]); }
    }
  }

  lemma {:induction false} HeightsFrom(bs: seq<Block>, i: nat)
    requires bs != [] && i < |bs|
    requires forall j :: 1 <= j < |bs| ==> Extends(bs[j - 1], bs[j])
    ensures bs[i].header.height == bs[0].header.height + i
  {
    if i > 0 {
      HeightsFrom(bs, i - 1);
      assert Extends(bs[i - 1], bs[i]);
    }
  }

  /** The scratch blocks: anchor, prefix, stamped candidate, each extending the one before. */
  ghost predicate Branch(a: Attempt, bs: seq<Block>)
  {
    && |bs| == 1 + |a.prefix| + |a.candidate|
    && bs[0] == a.baseBlock
    && bs[1..1 + |a.prefix|] == a.prefix
    && (forall i :: 0 <= i < |a.candidate| ==>
         a.candidate[i].Some? && bs[1 + |a.prefix| + i] == Stamped(a.candidate[i].value))
    && (forall i :: 1 <= i < |bs| ==> Extends(bs[i - 1], bs[i]) && bs[i].finalized)
  }

  lemma GrownIsBranch(a: Attempt, bs: seq<Block>)
    requires forall i :: 0 <= i < |a.prefix| ==> a.prefix[i].finalized
    requires Grown([a.baseBlock], bs, Wrapped(a.prefix) + a.candidate)
    ensures Branch(a, bs)
  {
    var all := Wrapped(a.prefix) + a.candidate;
    assert bs[0] == bs[..1][0];
    forall i | 0 <= i < |a.prefix| ensures bs[1 + i] == a.prefix[i] {
      assert all[i] == Some(a.prefix[i]);
    }
    forall i | 0 <= i < |a.candidate|
      ensures a.candidate[i].Some? && bs[1 + |a.prefix| + i] == Stamped(a.candidate[i].value)
    {
      assert all[|a.prefix| + i] == a.candidate[i];
    }
    forall i | 1 <= i < |bs| ensures bs[i].finalized {
      assert bs[1 + (i - 1)] == Stamped(all[i - 1].value);
    }
  }

  lemma EvaluatedBranch(r: Rules, cfg: Config, a: Attempt, clock: nat -> int)
    requires forall i :: 0 <= i < |a.prefix| ==> a.prefix[i].finalized
    requires Evaluate(r, cfg, a, clock).Some?
    ensures var w := Evaluate(r, cfg, a, clock).value;
            Branch(a, w.blocks) && Replay(r, ScratchConfig(cfg), a.base, w.blocks[1..]) == Some(w.state)
  {
    FinalizedAll(r, ScratchConfig(cfg), ScratchView(a), Wrapped(a.prefix) + a.candidate, clock, 0);
    GrownIsBranch(a, Evaluate(r, cfg, a, clock).value.blocks);
  }

  /** Where the anchor of a branch must have stood, and so at which height each block stands. */
  lemma BranchHeights(a: Attempt, bs: seq<Block>)
    requires Branch(a, bs)
    requires a.candidate != [] && a.candidate[0].Some? && a.candidate[0].value.header.height == a.forkHeight
    requires a.forkHeight == Max(a.hotStart, 1) + |a.prefix|
    ensures a.baseBlock.header.height == Max(a.hotStart, 1) - 1
    ensures forall i :: 0 <= i < |bs| ==> bs[i].header.height == Max(a.hotStart, 1) - 1 + i
  {
    forall i | 0 <= i < |bs| ensures bs[i].header.height == a.baseBlock.header.height + i {
      HeightsFrom(bs, i);
    }
    assert bs[1 + |a.prefix| + 0].header.height == a.forkHeight;
  }

  /** Grafting a branch onto the history its anchor ends gives a linked history. */
  lemma Graft(history: seq<Block>, keep: nat, bs: seq<Block>)
    requires Linked(history) && 0 < keep <= |history| && bs != [] && bs[0] == history[keep - 1]
    requires forall i :: 0 <= i < |bs| ==> bs[i].header.height == keep - 1 + i
    requires forall i :: 1 <= i < |bs| ==> Extends(bs[i - 1], bs[i]) && bs[i].finalized
    ensures Linked(history[..keep] + bs[1..])
  {
    var h := history[..keep] + bs[1..];
    forall i | 0 <= i < |h| ensures h[i].header.height == i && h[i].finalized {
      if i >= keep { assert h[i] == bs[1 + i - keep]; }
    }
    forall i | 0 < i < |h| ensures h[i].header.parentHash == h[i - 1].hash {
      if i >= keep {
        assert h[i] == bs[1 + i - keep];
        assert h[i - 1] == bs[i - keep];
        assert Extends(bs[i - keep], bs[1 + i - keep]);
      }
    }
  }

  /** The window the swap writes, before trimming. */
  function Installed(v: View, a: Attempt, scratch: View): View
    requires |scratch.blocks| >= 1 + |a.prefix|
  {
    v.(blocks := a.prefix + scratch.blocks[1 + |a.prefix|..], state := scratch.state)
  }

  /** The chain has not moved under the attempt, so its anchor is still where it was taken. */
  lemma AnchorBlock(v: View, history: seq<Block>, dropped: nat, a: Attempt)
    requires Shaped(v, history, dropped) && Tracks(v, history, a) && v.hotStart == a.hotStart
    requires a.baseBlock.header.height == Max(a.hotStart, 1) - 1
    ensures v.hotStart > 0 ==> dropped == 0
    ensures Max(a.hotStart, 1) <= |history| && a.baseBlock == history[Max(a.hotStart, 1) - 1]
  {
  }

  /** And its state is the replay up to there. */
  lemma AnchorStands(r: Rules, cfg: Config, v: View, history: seq<Block>, dropped: nat, a: Attempt)
    requires Agrees(r, cfg, v, history, dropped) && Tracks(v, history, a) && v.hotStart == a.hotStart
    requires a.baseBlock.header.height == Max(a.hotStart, 1) - 1
    ensures v.hotStart > 0 ==> dropped == 0
    ensures Max(a.hotStart, 1) <= |history| && a.baseBlock == history[Max(a.hotStart, 1) - 1]
    ensures Replay(r, cfg, v.genesis.value, history[1..Max(a.hotStart, 1)]) == Some(a.base)
  {
    AnchorBlock(v, history, dropped, a);
    if a.hotStart == 0 {
      assert history[1..1] == [];
    }
  }

  /** A swap that passes its recheck leaves linked blocks, whatever it replayed. */
  lemma InstallShapes(v: View, history: seq<Block>, dropped: nat, a: Attempt, w: View)
    requires Shaped(v, history, dropped) && Tracks(v, history, a) && v.hotStart == a.hotStart && Branch(a, w.blocks)
    ensures Max(a.hotStart, 1) <= |history|
    ensures v.hotStart > 0 ==> dropped == 0
    ensures Shaped(Installed(v, a, w), Grafted(history, a, w), if v.hotStart == 0 then 1 else 0)
  {
    BranchHeights(a, w.blocks);
    AnchorBlock(v, history, dropped, a);
    Graft(history, Max(a.hotStart, 1), w.blocks);
    GraftedParts(history, a, w);
  }

  /** Reorg safety: what a swap that passes its recheck leaves behind, whatever ran in between. */
  lemma InstalledAgrees(r: Rules, cfg: Config, v: View, history: seq<Block>, dropped: nat, a: Attempt, w: View)
    requires Agrees(r, cfg, v, history, dropped) && Tracks(v, history, a) && v.hotStart == a.hotStart
    requires Branch(a, w.blocks) && Replay(r, ScratchConfig(cfg), a.base, w.blocks[1..]) == Some(w.state)
    requires ClearOfCorrections(cfg, a)
    ensures Max(a.hotStart, 1) <= |history|
    ensures v.hotStart > 0 ==> dropped == 0
    ensures Agrees(r, cfg, Installed(v, a, w), Grafted(history, a, w), if v.hotStart == 0 then 1 else 0)
  {
    var keep := Max(a.hotStart, 1);
    BranchHeights(a, w.blocks);
    AnchorStands(r, cfg, v, history, dropped, a);
    InstallShapes(v, history, dropped, a, w);
    ScratchReplay(r, cfg, a.base, w.blocks[1..]);
    ReplayAppend(r, cfg, v.genesis.value, history[1..keep], w.blocks[1..]);
    GraftedParts(history, a, w);
  }

  lemma GraftedParts(history: seq<Block>, a: Attempt, w: View)
    requires Branch(a, w.blocks) && Max(a.hotStart, 1) <= |history|
    ensures var h, keep := Grafted(history, a, w), Max(a.hotStart, 1);
            && h == history[..keep] + w.blocks[1..]
            && h[1..] == history[1..keep] + w.blocks[1..]
            && h[keep..] == w.blocks[1..] == a.prefix + w.blocks[1 + |a.prefix|..]
            && h[..keep] == history[..keep] && h[1..keep] == history[1..keep]
  {
    var keep := Max(a.hotStart, 1);
    assert w.blocks[1..] == w.blocks[1..1 + |a.prefix|] + w.blocks[1 + |a.prefix|..];
  }

  // ---------------------------------------------------------------- whole runs

  lemma BegunTracks(v: View, history: seq<Block>, dropped: nat, forkHeight: nat, candidate: seq<Option<Block>>)
    requires Shaped(v, history, dropped)
    ensures Indexable(v)
    ensures var b := Begin(v, forkHeight, candidate); b.Begun? ==> Tracks(v, history, b.attempt)
  {
    assert v.blocks[|v.blocks| - 1] == history[|history| - 1];
  }

  /** One step: what it keeps, and when it drops genesis from the window. */
  lemma NextSound(r: Rules, cfg: Config, n: Node, step: Step)
    requires Sound(r, cfg, n)
    requires Installs(r, cfg, n, step) ==> ClearOfCorrections(cfg, n.attempts[step.attempt])
    ensures Sound(r, cfg, Next(r, cfg, n, step))
    ensures Next(r, cfg, n, step).view.hotStart >= n.view.hotStart
    ensures Next(r, cfg, n, step).dropped ==
            (if Installs(r, cfg, n, step) && n.view.hotStart == 0 then 1 else n.dropped)
  {
    match step
    case FinalizeStep(b, now) => FinalizeSound(r, cfg, n, b, now);
    case WindowStep(maxHot) => WindowSound(r, cfg, n, maxHot);
    case BeginStep(forkHeight, candidate) => BeginSound(r, cfg, n, forkHeight, candidate);
    case SwapStep(i, clock) => if Installs(r, cfg, n, step) { SwapSound(r, cfg, n, i, clock); }
  }

  lemma WindowSound(r: Rules, cfg: Config, n: Node, maxHot: int)
    requires Sound(r, cfg, n)
    ensures Sound(r, cfg, Next(r, cfg, n, WindowStep(maxHot)))
    ensures Next(r, cfg, n, WindowStep(maxHot)).view.hotStart >= n.view.hotStart
  {
    TrimKeeps(r, cfg, n.view.(maxHot := maxHot), n.history, n.dropped, n.attempts);
  }

  lemma BeginSound(r: Rules, cfg: Config, n: Node, forkHeight: nat, candidate: seq<Option<Block>>)
    requires Sound(r, cfg, n)
    ensures Sound(r, cfg, Next(r, cfg, n, BeginStep(forkHeight, candidate)))
    ensures Next(r, cfg, n, BeginStep(forkHeight, candidate)).view == n.view
  {
    BegunTracks(n.view, n.history, n.dropped, forkHeight, candidate);
  }

  lemma FinalizeSound(r: Rules, cfg: Config, n: Node, b: Block, now: int)
    requires Sound(r, cfg, n)
    ensures Sound(r, cfg, Next(r, cfg, n, FinalizeStep(b, now)))
    ensures Next(r, cfg, n, FinalizeStep(b, now)).view.hotStart >= n.view.hotStart
  {
    if CanFinalize(r, cfg, n.view, b, now) {
      AppendedAgrees(r, cfg, n.view, n.history, n.dropped, b);
      var h := n.history + [Stamped(b)];
      StillTracks(n.view, Appended(r, cfg, n.view, b), n.history, h, n.attempts);
      TrimKeeps(r, cfg, Appended(r, cfg, n.view, b), h, n.dropped, n.attempts);
    }
  }

  lemma SwapSound(r: Rules, cfg: Config, n: Node, i: nat, clock: nat -> int)
    requires Sound(r, cfg, n)
    requires Installs(r, cfg, n, SwapStep(i, clock)) && ClearOfCorrections(cfg, n.attempts[i])
    ensures Sound(r, cfg, Next(r, cfg, n, SwapStep(i, clock)))
    ensures Next(r, cfg, n, SwapStep(i, clock)).view.hotStart >= n.view.hotStart
    ensures n.view.hotStart > 0 ==> n.dropped == 0
  {
    var a := n.attempts[i];
    assert Tracks(n.view, n.history, a);
    EvaluatedBranch(r, cfg, a, clock);
    var w := Evaluate(r, cfg, a, clock).value;
    InstalledSound(r, cfg, n, a, w);
    SwapInstalls(r, cfg, n, i, clock);
  }

  /** An installing swap, spelled out. */
  lemma SwapInstalls(r: Rules, cfg: Config, n: Node, i: nat, clock: nat -> int)
    requires Installs(r, cfg, n, SwapStep(i, clock))
    ensures var a := n.attempts[i];
            var w := Evaluate(r, cfg, a, clock).value;
            Next(r, cfg, n, SwapStep(i, clock)) ==
            Node(Trim(r, cfg, Installed(n.view, a, w)), Grafted(n.history, a, w),
                 if n.view.hotStart == 0 then 1 else n.dropped, n.attempts)
  {
  }

  lemma InstalledSound(r: Rules, cfg: Config, n: Node, a: Attempt, w: View)
    requires Sound(r, cfg, n) && Tracks(n.view, n.history, a) && n.view.hotStart == a.hotStart
    requires Branch(a, w.blocks) && Replay(r, ScratchConfig(cfg), a.base, w.blocks[1..]) == Some(w.state)
    requires ClearOfCorrections(cfg, a)
    ensures Sound(r, cfg, Node(Trim(r, cfg, Installed(n.view, a, w)), Grafted(n.history, a, w),
                               if n.view.hotStart == 0 then 1 else 0, n.attempts))
    ensures Trim(r, cfg, Installed(n.view, a, w)).hotStart >= n.view.hotStart
    ensures n.view.hotStart > 0 ==> n.dropped == 0
  {
    InstalledAgrees(r, cfg, n.view, n.history, n.dropped, a, w);
    var h := Grafted(n.history, a, w);
    GraftedParts(n.history, a, w);
    assert h[0] == n.history[0];
    StillTracks(n.view, Installed(n.view, a, w), n.history, h, n.attempts);
    TrimKeeps(r, cfg, Installed(n.view, a, w), h, if n.view.hotStart == 0 then 1 else 0, n.attempts);
  }

  lemma StillTracks(v: View, v': View, history: seq<Block>, history': seq<Block>, attempts: seq<Attempt>)
    requires |history| > 0 && |history'| > 0 && history[0] == history'[0]
    requires v'.hotStart == v.hotStart && v'.base == v.base && v'.baseBlock == v.baseBlock && v'.genesis == v.genesis
    requires forall i :: 0 <= i < |attempts| ==> Tracks(v, history, attempts[i])
    ensures forall i :: 0 <= i < |attempts| ==> Tracks(v', history', attempts[i])
  {
  }

  lemma TrimKeeps(r: Rules, cfg: Config, v: View, history: seq<Block>, dropped: nat, attempts: seq<Attempt>)
    requires Agrees(r, cfg, v, history, dropped)
    requires forall i :: 0 <= i < |attempts| ==> Tracks(v, history, attempts[i])
    ensures Sound(r, cfg, Node(Trim(r, cfg, v), history, dropped, attempts))
    ensures Trim(r, cfg, v).hotStart >= v.hotStart
  {
    TrimAgrees(r, cfg, v, history, dropped);
    forall i | 0 <= i < |attempts| ensures Tracks(Trim(r, cfg, v), history, attempts[i]) {
      TracksTrim(r, cfg, v, history, dropped, attempts[i]);
    }
  }

  /** A chain as NewChain leaves it: genesis is the history, and nothing has been applied. */
  lemma FreshChainSound(r: Rules, cfg: Config, genesis: State, genesisBlock: Block)
    requires InertGenesis(cfg, genesisBlock) && genesisBlock.finalized
    ensures Sound(r, cfg, Node(View([genesisBlock], genesis, 0, 0, None, None, Some(genesis)), [genesisBlock], 0, []))
  {
    var h := [genesisBlock];
    assert h[1..] == [] && h[0..] == h;
    assert Replay(r, cfg, genesis, h[1..]) == Some(genesis);
    assert Linked(h);
  }

  /**
   Hot-window refinement over every run: however finalizations, window changes and reorganization
   attempts interleave, the live state is the replay of the whole history, the window is its end, the
   checkpoint is the replay up to the window, and a positive bound is met.
   */
  lemma {:induction false} RunSound(r: Rules, cfg: Config, n: Node, steps: seq<Step>)
    requires Sound(r, cfg, n) && Clear(r, cfg, n, steps)
    ensures Sound(r, cfg, Run(r, cfg, n, steps))
    decreases |steps|
  {
    if steps != [] {
      NextSound(r, cfg, n, steps[0]);
      RunSound(r, cfg, Next(r, cfg, n, steps[0]), steps[1..]);
    }
  }

  // ---------------------------------------------------------------- index = height - hotStart

  ghost predicate Aligned(v: View)
  {
    forall i :: 0 <= i < |v.blocks| ==> v.blocks[i].header.height == v.hotStart + i
  }

  /** One step keeps the blocks in place, whatever a reorganization replays. */
  lemma NextStanding(r: Rules, cfg: Config, n: Node, step: Step)
    requires Standing(n)
    ensures Standing(Next(r, cfg, n, step))
    ensures Next(r, cfg, n, step).dropped ==
            (if Installs(r, cfg, n, step) && n.view.hotStart == 0 then 1 else n.dropped)
  {
    match step
    case FinalizeStep(b, now) => FinalizeStanding(r, cfg, n, b, now);
    case WindowStep(maxHot) => WindowStanding(r, cfg, n, maxHot);
    case BeginStep(forkHeight, candidate) => BeginStanding(r, cfg, n, forkHeight, candidate);
    case SwapStep(i, clock) => if Installs(r, cfg, n, step) { SwapStanding(r, cfg, n, i, clock); }
  }

  lemma WindowStanding(r: Rules, cfg: Config, n: Node, maxHot: int)
    requires Standing(n)
    ensures Standing(Next(r, cfg, n, WindowStep(maxHot)))
  {
    TrimStands(r, cfg, n.view.(maxHot := maxHot), n.history, n.dropped, n.attempts);
  }

  lemma BeginStanding(r: Rules, cfg: Config, n: Node, forkHeight: nat, candidate: seq<Option<Block>>)
    requires Standing(n)
    ensures Standing(Next(r, cfg, n, BeginStep(forkHeight, candidate)))
  {
    BegunTracks(n.view, n.history, n.dropped, forkHeight, candidate);
  }

  lemma FinalizeStanding(r: Rules, cfg: Config, n: Node, b: Block, now: int)
    requires Standing(n)
    ensures Standing(Next(r, cfg, n, FinalizeStep(b, now)))
  {
    NextFinalized(r, cfg, n, b, now);
    if CanFinalize(r, cfg, n.view, b, now) {
      AppendStands(r, cfg, n, b);
    }
  }

  /** A FinalizeStep, spelled out. */
  lemma NextFinalized(r: Rules, cfg: Config, n: Node, b: Block, now: int)
    ensures CanFinalize(r, cfg, n.view, b, now) ==>
              n.view.blocks != [] && Extends(n.view.blocks[|n.view.blocks| - 1], b) &&
              Transition(r, cfg, n.view.state, b).Some?
    ensures Next(r, cfg, n, FinalizeStep(b, now)) ==
            if CanFinalize(r, cfg, n.view, b, now)
            then n.(view := Trim(r, cfg, Appended(r, cfg, n.view, b)), history := n.history + [Stamped(b)]) else n
  {
  }

  lemma AppendStands(r: Rules, cfg: Config, n: Node, b: Block)
    requires Standing(n) && Extends(n.view.blocks[|n.view.blocks| - 1], b) && Transition(r, cfg, n.view.state, b).Some?
    ensures Standing(n.(view := Trim(r, cfg, Appended(r, cfg, n.view, b)), history := n.history + [Stamped(b)]))
  {
    var h := n.history + [Stamped(b)];
    AppendShapes(r, cfg, n.view, n.history, n.dropped, b);
    StillTracks(n.view, Appended(r, cfg, n.view, b), n.history, h, n.attempts);
    TrimStands(r, cfg, Appended(r, cfg, n.view, b), h, n.dropped, n.attempts);
  }

  lemma SwapStanding(r: Rules, cfg: Config, n: Node, i: nat, clock: nat -> int)
    requires Standing(n) && Installs(r, cfg, n, SwapStep(i, clock))
    ensures Standing(Next(r, cfg, n, SwapStep(i, clock)))
    ensures n.view.hotStart > 0 ==> n.dropped == 0
  {
    var a := n.attempts[i];
    assert Tracks(n.view, n.history, a);
    EvaluatedBranch(r, cfg, a, clock);
    var w := Evaluate(r, cfg, a, clock).value;
    InstallStands(r, cfg, n, a, w);
    SwapInstalls(r, cfg, n, i, clock);
  }

  lemma InstallStands(r: Rules, cfg: Config, n: Node, a: Attempt, w: View)
    requires Standing(n) && Tracks(n.view, n.history, a) && n.view.hotStart == a.hotStart && Branch(a, w.blocks)
    ensures Standing(Node(Trim(r, cfg, Installed(n.view, a, w)), Grafted(n.history, a, w),
                          if n.view.hotStart == 0 then 1 else 0, n.attempts))
    ensures n.view.hotStart > 0 ==> n.dropped == 0
  {
    InstallShapes(n.view, n.history, n.dropped, a, w);
    var h := Grafted(n.history, a, w);
    GraftedParts(n.history, a, w);
    assert h[0] == n.history[0];
    StillTracks(n.view, Installed(n.view, a, w), n.history, h, n.attempts);
    TrimStands(r, cfg, Installed(n.view, a, w), h, if n.view.hotStart == 0 then 1 else 0, n.attempts);
  }

  /** Over every run at all, the window stays the end of a linked history. */
  lemma {:induction false} RunStanding(r: Rules, cfg: Config, n: Node, steps: seq<Step>)
    requires Standing(n)
    ensures Standing(Run(r, cfg, n, steps))
    decreases |steps|
  {
    if steps != [] {
      NextStanding(r, cfg, n, steps[0]);
      RunStanding(r, cfg, Next(r, cfg, n, steps[0]), steps[1..]);
    }
  }

  /** Some reorganization of the run is installed while nothing has been trimmed yet. */
  ghost predicate InstallsUntrimmed(r: Rules, cfg: Config, n: Node, steps: seq<Step>)
    decreases |steps|
  {
    steps != [] &&
    ((Installs(r, cfg, n, steps[0]) && n.view.hotStart == 0) ||
      InstallsUntrimmed(r, cfg, Next(r, cfg, n, steps[0]), steps[1..]))
  }

  /** Blocks sit at index height - hotWindowStart exactly when no untrimmed chain was reorganized. */
  lemma {:induction false} RunAligned(r: Rules, cfg: Config, n: Node, steps: seq<Step>)
    requires Standing(n)
    ensures Aligned(Run(r, cfg, n, steps).view) <==> n.dropped == 0 && !InstallsUntrimmed(r, cfg, n, steps)
    decreases |steps|
  {
    if steps == [] {
      assert n.view.blocks[0] == n.history[n.view.hotStart + n.dropped];
      forall i | 0 <= i < |n.view.blocks| ensures n.view.blocks[i].header.height == n.view.hotStart + n.dropped + i {
        assert n.view.blocks[i] == n.history[n.view.hotStart + n.dropped + i];
      }
    } else {
      NextStanding(r, cfg, n, steps[0]);
      RunAligned(r, cfg, Next(r, cfg, n, steps[0]), steps[1..]);
    }
  }

  /** Once genesis has been dropped no reorganization begun from that chain can succeed. */
  lemma DroppedRefusesReorg(r: Rules, cfg: Config, n: Node, forkHeight: nat, candidate: seq<Option<Block>>,
                            clock: nat -> int)
    requires Standing(n) && n.dropped == 1
    requires Indexable(n.view) && Begin(n.view, forkHeight, candidate).Begun?
    ensures Evaluate(r, cfg, Begin(n.view, forkHeight, candidate).attempt, clock).None?
  {
    var a := Begin(n.view, forkHeight, candidate).attempt;
    BegunTracks(n.view, n.history, n.dropped, forkHeight, candidate);
    assert a.baseBlock.header.height == n.view.hotStart + if n.view.hotStart == 0 then 1 else 0;
    if Evaluate(r, cfg, a, clock).Some? {
      EvaluatedBranch(r, cfg, a, clock);
      BranchHeights(a, Evaluate(r, cfg, a, clock).value.blocks);
    }
  }
}
