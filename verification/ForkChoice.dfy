/**
 Fork choice: the weight a branch has, exactly which installations make a chain heavier, that runs of
 such installations never return to a history they left, and how two concurrent attempts can fail to.
 */
module ForkChoice {
  import opened Common
  import opened Ledger
  import opened ChainMachine
  import opened HotWindow

  /** More verified approvals, or as many and longer. */
  ghost predicate Outweighs(r: Rules, keys: map<string, string>, h: seq<Block>, before: seq<Block>)
  {
    var s, s' := Score(r, keys, h), Score(r, keys, before);
    s > s' || (s == s' && |h| > |before|)
  }

  lemma {:induction false} ScoreAppend(r: Rules, keys: map<string, string>, a: seq<Block>, b: seq<Block>)
    ensures Score(r, keys, a + b) == Score(r, keys, a) + Score(r, keys, b)
  {
    if b == [] {
      assert a + b == a;
    } else {
      assert (a + b)[..|a + b| - 1] == a + b[..|b| - 1];
      ScoreAppend(r, keys, a, b[..|b| - 1]);
    }
  }

  lemma ScoreSnoc(r: Rules, keys: map<string, string>, bs: seq<Block>, b: Block)
    ensures Score(r, keys, bs + [b]) == Score(r, keys, bs) + Approvals(r, keys, b)
  {
    assert (bs + [b])[..|bs|] == bs;
  }

  lemma StampedApprovals(r: Rules, keys: map<string, string>, b: Block)
    ensures Approvals(r, keys, Stamped(b)) == Approvals(r, keys, b)
  {
    assert RosterApprovers(r, keys, Stamped(b)) == RosterApprovers(r, keys, b);
  }

  lemma {:induction false} ScoreOfCandidate(r: Rules, keys: map<string, string>, candidate: seq<Option<Block>>,
                                            bs: seq<Block>)
    requires |bs| == |candidate|
    requires forall i :: 0 <= i < |candidate| ==> candidate[i].Some? && bs[i] == Stamped(candidate[i].value)
    ensures Score(r, keys, bs) == Score(r, keys, Present(candidate))
  {
    if bs != [] {
      var n := |bs| - 1;
      var b := candidate[n].value;
      ScoreOfCandidate(r, keys, candidate[..n], bs[..n]);
      ScoreSnoc(r, keys, Present(candidate[..n]), b);
      StampedApprovals(r, keys, b);
    }
  }

  // ---------------------------------------------------------------- attempts that are still current

  /** The anchor of an attempt ends right below its window; no other attempt can be replayed. */
  ghost predicate Anchored(a: Attempt) { a.baseBlock.header.height == Max(a.hotStart, 1) - 1 }

  /** The attempt's prefix and contested tail are the end of `history`. */
  ghost predicate Contests(history: seq<Block>, a: Attempt)
  {
    && Max(a.hotStart, 1) <= a.forkHeight <= |history|
    && a.prefix == history[Max(a.hotStart, 1)..a.forkHeight] && a.tail == history[a.forkHeight..]
  }

  /** Whenever the recheck of the attempt would pass, it contests what the chain now holds. */
  ghost predicate StillCurrent(v: View, history: seq<Block>, a: Attempt)
  {
    && a.hotStart <= v.hotStart
    && (a.hotStart == v.hotStart ==>
          a.startLen <= |v.blocks| && (a.startLen == |v.blocks| && Anchored(a) ==> Contests(history, a)))
  }

  /** All attempts but the first `since` are current. */
  ghost predicate CurrentSince(n: Node, since: nat)
  {
    forall i :: since <= i < |n.attempts| ==> StillCurrent(n.view, n.history, n.attempts[i])
  }

  lemma GrowthKeepsCurrent(v: View, v': View, history: seq<Block>, history': seq<Block>, a: Attempt)
    requires StillCurrent(v, history, a) && v'.hotStart >= v.hotStart
    requires v'.hotStart == v.hotStart ==> |v'.blocks| > |v.blocks| || (v'.blocks == v.blocks && history' == history)
    ensures StillCurrent(v', history', a)
  {
  }

  lemma BegunSlices(v: View, history: seq<Block>, forkHeight: nat, candidate: seq<Option<Block>>)
    requires v.hotStart < |history| && v.blocks == history[v.hotStart..]
    requires history[|history| - 1].header.height == |history| - 1
    requires Indexable(v) && Begin(v, forkHeight, candidate).Begun?
    ensures Contests(history, Begin(v, forkHeight, candidate).attempt)
  {
    assert v.blocks[|v.blocks| - 1] == history[|history| - 1];
  }

  lemma BegunIsCurrent(v: View, history: seq<Block>, dropped: nat, forkHeight: nat, candidate: seq<Option<Block>>)
    requires Shaped(v, history, dropped) && Indexable(v) && Begin(v, forkHeight, candidate).Begun?
    ensures StillCurrent(v, history, Begin(v, forkHeight, candidate).attempt)
  {
    if dropped == 0 {
      BegunSlices(v, history, forkHeight, candidate);
    } else {
      assert v.hotStart == 0 ==> v.blocks[0] == history[1];
    }
  }

  // ---------------------------------------------------------------- what a swap does to the weight

  /** The part of the history a reorganization of a chain whose window starts at `hotStart` may replace. */
  function Contestable(history: seq<Block>, hotStart: nat): seq<Block>
  {
    history[Min(Max(hotStart, 1), |history|)..]
  }

  /** The comparison the locked swap does not make: the attempt's branch against what the chain now holds. */
  ghost predicate Improves(r: Rules, keys: map<string, string>, history: seq<Block>, a: Attempt)
  {
    var current := Contestable(history, a.hotStart);
    var gained, held := Score(r, keys, a.prefix) + Score(r, keys, Present(a.candidate)), Score(r, keys, current);
    gained > held || (gained == held && |a.prefix| + |a.candidate| > |current|)
  }

  /** The attempt's branch is what the chain already holds. */
  ghost predicate Repeats(history: seq<Block>, a: Attempt)
  {
    a.prefix + StampAll(Present(a.candidate)) == Contestable(history, a.hotStart)
  }

  lemma {:induction false} PresentAll(candidate: seq<Option<Block>>, bs: seq<Block>)
    requires |bs| == |candidate|
    requires forall i :: 0 <= i < |candidate| ==> candidate[i].Some? && bs[i] == Stamped(candidate[i].value)
    ensures StampAll(Present(candidate)) == bs
  {
    if bs != [] {
      var n := |bs| - 1;
      PresentAll(candidate[..n], bs[..n]);
      var present := Present(candidate[..n]);
      assert |present| == |StampAll(present)| == n;
      assert StampAll(present + [candidate[n].value]) == StampAll(present) + [bs[n]];
      assert bs == bs[..n] + [bs[n]];
    }
  }

  /** Common beginnings do not matter. */
  lemma WeighEnds(r: Rules, keys: map<string, string>, kept: seq<Block>, branch: seq<Block>, current: seq<Block>)
    ensures Outweighs(r, keys, kept + branch, kept + current) <==> Outweighs(r, keys, branch, current)
    ensures kept + branch == kept + current <==> branch == current
  {
    ScoreAppend(r, keys, kept, branch);
    ScoreAppend(r, keys, kept, current);
    assert (kept + branch)[|kept|..] == branch && (kept + current)[|kept|..] == current;
  }

  /** The blocks an attempt would put at the end of the history, and their weight. */
  lemma BranchWeighs(r: Rules, keys: map<string, string>, a: Attempt, bs: seq<Block>)
    requires Branch(a, bs)
    ensures var branch := a.prefix + StampAll(Present(a.candidate));
            && branch == a.prefix + bs[1 + |a.prefix|..] && |branch| == |a.prefix| + |a.candidate|
            && Score(r, keys, branch) == Score(r, keys, a.prefix) + Score(r, keys, Present(a.candidate))
  {
    var tail := bs[1 + |a.prefix|..];
    PresentAll(a.candidate, tail);
    ScoreOfCandidate(r, keys, a.candidate, tail);
    ScoreAppend(r, keys, a.prefix, tail);
  }

  lemma GraftSplits(history: seq<Block>, a: Attempt, w: View) returns (kept: seq<Block>)
    requires |w.blocks| >= 1 + |a.prefix| && Max(a.hotStart, 1) <= |history|
    ensures Grafted(history, a, w) == kept + (a.prefix + w.blocks[1 + |a.prefix|..])
    ensures history == kept + Contestable(history, a.hotStart)
  {
    kept := history[..Max(a.hotStart, 1)];
  }

  lemma GraftWeighs(r: Rules, keys: map<string, string>, history: seq<Block>, a: Attempt, w: View)
    requires Branch(a, w.blocks) && Max(a.hotStart, 1) <= |history|
    ensures Outweighs(r, keys, Grafted(history, a, w), history) <==> Improves(r, keys, history, a)
    ensures Grafted(history, a, w) == history <==> Repeats(history, a)
  {
    var kept := GraftSplits(history, a, w);
    BranchWeighs(r, keys, a, w.blocks);
    WeighEnds(r, keys, kept, a.prefix + StampAll(Present(a.candidate)), Contestable(history, a.hotStart));
  }

  /** An installation makes the chain heavier, or leaves it as it is, exactly when its branch says so. */
  lemma SwapWeighs(r: Rules, cfg: Config, n: Node, i: nat, clock: nat -> int)
    requires Standing(n) && Installs(r, cfg, n, SwapStep(i, clock))
    ensures var h := Next(r, cfg, n, SwapStep(i, clock)).history;
            && (Outweighs(r, cfg.keys, h, n.history) <==> Improves(r, cfg.keys, n.history, n.attempts[i]))
            && (h == n.history <==> Repeats(n.history, n.attempts[i]))
  {
    var a := n.attempts[i];
    assert Tracks(n.view, n.history, a);
    EvaluatedBranch(r, cfg, a, clock);
    SwapInstalls(r, cfg, n, i, clock);
    GraftWeighs(r, cfg.keys, n.history, a, Evaluate(r, cfg, a, clock).value);
  }

  // ---------------------------------------------------------------- whole runs

  ghost predicate SameOrHeavier(r: Rules, keys: map<string, string>, h: seq<Block>, before: seq<Block>)
  {
    h == before || Outweighs(r, keys, h, before)
  }

  /** No step of the run gives up weight. */
  ghost predicate Monotone(r: Rules, cfg: Config, n: Node, steps: seq<Step>)
    decreases |steps|
  {
    steps == [] ||
    (&& SameOrHeavier(r, cfg.keys, Next(r, cfg, n, steps[0]).history, n.history)
     && Monotone(r, cfg, Next(r, cfg, n, steps[0]), steps[1..]))
  }

  /** Every installation of the run improves on the chain it finds, or repeats it. */
  ghost predicate Improving(r: Rules, cfg: Config, n: Node, steps: seq<Step>)
    decreases |steps|
  {
    steps == [] ||
    (&& (Installs(r, cfg, n, steps[0]) ==>
           var a := n.attempts[steps[0].attempt]; Improves(r, cfg.keys, n.history, a) || Repeats(n.history, a))
     && Improving(r, cfg, Next(r, cfg, n, steps[0]), steps[1..]))
  }

  /** One step: only an installation can give up weight, and it does exactly when it neither improves nor repeats. */
  lemma StepWeighs(r: Rules, cfg: Config, n: Node, step: Step)
    requires Standing(n)
    ensures SameOrHeavier(r, cfg.keys, Next(r, cfg, n, step).history, n.history) <==>
            (Installs(r, cfg, n, step) ==>
               var a := n.attempts[step.attempt]; Improves(r, cfg.keys, n.history, a) || Repeats(n.history, a))
  {
    if Installs(r, cfg, n, step) {
      SwapWeighs(r, cfg, n, step.attempt, step.clock);
    } else if step.FinalizeStep? {
      ScoreAppend(r, cfg.keys, n.history, [Stamped(step.b)]);
    }
  }

  /** The weight never falls along a run exactly when every installation passes the comparison of `Improves`. */
  lemma {:induction false} MonotoneExactly(r: Rules, cfg: Config, n: Node, steps: seq<Step>)
    requires Standing(n)
    ensures Monotone(r, cfg, n, steps) <==> Improving(r, cfg, n, steps)
    decreases |steps|
  {
    if steps != [] {
      NextStanding(r, cfg, n, steps[0]);
      StepWeighs(r, cfg, n, steps[0]);
      MonotoneExactly(r, cfg, Next(r, cfg, n, steps[0]), steps[1..]);
    }
  }

  lemma {:induction false} MonotoneOutweighs(r: Rules, cfg: Config, n: Node, steps: seq<Step>)
    requires Monotone(r, cfg, n, steps)
    ensures SameOrHeavier(r, cfg.keys, Run(r, cfg, n, steps).history, n.history)
    decreases |steps|
  {
    if steps != [] { MonotoneOutweighs(r, cfg, Next(r, cfg, n, steps[0]), steps[1..]); }
  }

  /** Over every improving run, whatever else interleaves, the history only gets heavier. */
  lemma RunOutweighs(r: Rules, cfg: Config, n: Node, steps: seq<Step>)
    requires Standing(n) && Improving(r, cfg, n, steps)
    ensures Standing(Run(r, cfg, n, steps))
    ensures SameOrHeavier(r, cfg.keys, Run(r, cfg, n, steps).history, n.history)
  {
    RunStanding(r, cfg, n, steps);
    MonotoneExactly(r, cfg, n, steps);
    MonotoneOutweighs(r, cfg, n, steps);
  }

  /** Fork choice never oscillates: a history once left never becomes current again. */
  lemma NeverReturns(r: Rules, cfg: Config, n: Node, away: seq<Step>, back: seq<Step>)
    requires Standing(n) && Improving(r, cfg, n, away) && Improving(r, cfg, Run(r, cfg, n, away), back)
    requires Run(r, cfg, n, away).history != n.history
    ensures Run(r, cfg, Run(r, cfg, n, away), back).history != n.history
  {
    RunOutweighs(r, cfg, n, away);
    RunOutweighs(r, cfg, Run(r, cfg, n, away), back);
  }

  // ---------------------------------------------------------------- serial runs improve

  /** For an attempt that contests the chain as it is, fork choice is the comparison of whole histories. */
  lemma CurrentImproves(r: Rules, keys: map<string, string>, history: seq<Block>, a: Attempt)
    requires Contests(history, a)
    ensures Heavier(r, keys, a) <==> Improves(r, keys, history, a)
  {
    assert Contestable(history, a.hotStart) == a.prefix + a.tail;
    ScoreAppend(r, keys, a.prefix, a.tail);
  }

  /** An attempt that is still current when it is swapped in improves on the chain. */
  lemma CurrentSwapImproves(r: Rules, cfg: Config, n: Node, i: nat, clock: nat -> int)
    requires Installs(r, cfg, n, SwapStep(i, clock)) && StillCurrent(n.view, n.history, n.attempts[i])
    requires n.history != [] && Tracks(n.view, n.history, n.attempts[i])
    ensures Improves(r, cfg.keys, n.history, n.attempts[i])
  {
    var a := n.attempts[i];
    EvaluatedBranch(r, cfg, a, clock);
    BranchHeights(a, Evaluate(r, cfg, a, clock).value.blocks);
    EvaluateInParts(r, cfg, a, clock);
    CurrentImproves(r, cfg.keys, n.history, a);
  }

  lemma FinalizeKeepsCurrent(r: Rules, cfg: Config, n: Node, since: nat, b: Block, now: int)
    requires Standing(n) && CurrentSince(n, since)
    ensures CurrentSince(Next(r, cfg, n, FinalizeStep(b, now)), since)
  {
    if CanFinalize(r, cfg, n.view, b, now) {
      var longer := Appended(r, cfg, n.view, b);
      AppendShapes(r, cfg, n.view, n.history, n.dropped, b);
      TrimShapes(r, cfg, longer, n.history + [Stamped(b)], n.dropped);
      StepsKeepCurrent(n, Trim(r, cfg, longer), n.history + [Stamped(b)], since);
    }
  }

  lemma StepsKeepCurrent(n: Node, v': View, history': seq<Block>, since: nat)
    requires CurrentSince(n, since) && v'.hotStart >= n.view.hotStart
    requires v'.hotStart == n.view.hotStart ==>
               |v'.blocks| > |n.view.blocks| || (v'.blocks == n.view.blocks && history' == n.history)
    ensures CurrentSince(n.(view := v', history := history'), since)
  {
    forall i | since <= i < |n.attempts| ensures StillCurrent(v', history', n.attempts[i]) {
      GrowthKeepsCurrent(n.view, v', n.history, history', n.attempts[i]);
    }
  }

  lemma WindowKeepsCurrent(r: Rules, cfg: Config, n: Node, since: nat, maxHot: int)
    requires Standing(n) && CurrentSince(n, since)
    ensures CurrentSince(Next(r, cfg, n, WindowStep(maxHot)), since)
  {
    var v := n.view.(maxHot := maxHot);
    TrimShapes(r, cfg, v, n.history, n.dropped);
    StepsKeepCurrent(n, Trim(r, cfg, v), n.history, since);
  }

  lemma BeginKeepsCurrent(r: Rules, cfg: Config, n: Node, since: nat, forkHeight: nat, candidate: seq<Option<Block>>)
    requires Standing(n) && CurrentSince(n, since)
    ensures CurrentSince(Next(r, cfg, n, BeginStep(forkHeight, candidate)), since)
  {
    if Indexable(n.view) && Begin(n.view, forkHeight, candidate).Begun? {
      BegunIsCurrent(n.view, n.history, n.dropped, forkHeight, candidate);
    }
  }

  /** How many attempts predate the last installation, after one more step. */
  ghost function Since(r: Rules, cfg: Config, n: Node, since: nat, step: Step): nat
  {
    if Installs(r, cfg, n, step) then |n.attempts| else since
  }

  lemma StepKeepsCurrent(r: Rules, cfg: Config, n: Node, since: nat, step: Step)
    requires Standing(n) && CurrentSince(n, since)
    ensures CurrentSince(Next(r, cfg, n, step), Since(r, cfg, n, since, step))
  {
    match step
    case FinalizeStep(b, now) => FinalizeKeepsCurrent(r, cfg, n, since, b, now);
    case WindowStep(maxHot) => WindowKeepsCurrent(r, cfg, n, since, maxHot);
    case BeginStep(forkHeight, candidate) => BeginKeepsCurrent(r, cfg, n, since, forkHeight, candidate);
    case SwapStep(i, clock) =>
  }

  /** Attempts overlap freely, but none is installed over an installation that came after it began. */
  ghost predicate Serial(r: Rules, cfg: Config, n: Node, since: nat, steps: seq<Step>)
    decreases |steps|
  {
    steps == [] ||
    (&& (Installs(r, cfg, n, steps[0]) ==> steps[0].attempt >= since)
     && Serial(r, cfg, Next(r, cfg, n, steps[0]), Since(r, cfg, n, since, steps[0]), steps[1..]))
  }

  /** In a serial run every installation improves: nobody needs to compare again. */
  lemma {:induction false} SerialImproves(r: Rules, cfg: Config, n: Node, since: nat, steps: seq<Step>)
    requires Standing(n)
    requires CurrentSince(n, since) && Serial(r, cfg, n, since, steps)
    ensures Improving(r, cfg, n, steps)
    decreases |steps|
  {
    if steps != [] {
      var step := steps[0];
      if Installs(r, cfg, n, step) { CurrentSwapImproves(r, cfg, n, step.attempt, step.clock); }
      NextStanding(r, cfg, n, step);
      StepKeepsCurrent(r, cfg, n, since, step);
      SerialImproves(r, cfg, Next(r, cfg, n, step), Since(r, cfg, n, since, step), steps[1..]);
    }
  }

  // ---------------------------------------------------------------- an undisturbed call

  /** Where a reorganization may begin, as long as genesis was not dropped, and what it then contests. */
  lemma BeginsExactly(v: View, history: seq<Block>, forkHeight: nat, candidate: seq<Option<Block>>)
    requires Shaped(v, history, 0)
    ensures Indexable(v)
    ensures Begin(v, forkHeight, candidate).Begun? <==>
            && Max(v.hotStart, 1) <= forkHeight < |history|
            && candidate != [] && candidate[0].Some? && candidate[0].value.header.height == forkHeight
    ensures var b := Begin(v, forkHeight, candidate);
            b.Begun? ==>
              && Contests(history, b.attempt) && b.attempt.candidate == candidate && b.attempt.forkHeight == forkHeight
              && b.attempt.baseBlock == history[Max(v.hotStart, 1) - 1]
  {
    BegunTracks(v, history, 0, forkHeight, candidate);
    BeginsWhere(v, forkHeight, candidate, |history| - 1);
    if Begin(v, forkHeight, candidate).Begun? {
      BegunSlices(v, history, forkHeight, candidate);
      AnchoredAt(v, history, forkHeight, candidate);
    }
  }

  lemma BeginsWhere(v: View, forkHeight: nat, candidate: seq<Option<Block>>, height: nat)
    requires Indexable(v) && v.Height() == height && v.genesis.Some? && v.blocks != []
    requires v.hotStart > 0 ==> v.base.Some? && v.baseBlock.Some?
    ensures Begin(v, forkHeight, candidate).Begun? <==>
            && Max(v.hotStart, 1) <= forkHeight <= height
            && candidate != [] && candidate[0].Some? && candidate[0].value.header.height == forkHeight
  {
  }

  lemma AnchoredAt(v: View, history: seq<Block>, forkHeight: nat, candidate: seq<Option<Block>>)
    requires Shaped(v, history, 0) && Indexable(v) && Begin(v, forkHeight, candidate).Begun?
    ensures Begin(v, forkHeight, candidate).attempt.baseBlock == history[Max(v.hotStart, 1) - 1]
  {
    assert v.hotStart == 0 ==> v.blocks[0] == history[0];
  }

  /** The branch of an attempt replayed on a scratch chain, if every block of it is accepted there. */
  ghost function Replayed(r: Rules, cfg: Config, a: Attempt, clock: nat -> int): (w: Option<View>)
    ensures w.Some? ==> |w.value.blocks| == 1 + |a.prefix| + |a.candidate|
  {
    var w := FinalizeAll(r, ScratchConfig(cfg), ScratchView(a), Wrapped(a.prefix) + a.candidate, clock, 0);
    assert w.Some? ==> |w.value.blocks| == 1 + |a.prefix| + |a.candidate| by {
      if w.Some? { FinalizeAllLength(r, ScratchConfig(cfg), ScratchView(a), Wrapped(a.prefix) + a.candidate, clock,
        0); }
    }
    w
  }

  /** What a replayed branch would leave is heavier exactly when fork choice says so. */
  lemma ReplayedWeighs(r: Rules, cfg: Config, history: seq<Block>, a: Attempt, clock: nat -> int)
    requires Contests(history, a) && forall i :: 0 <= i < |a.prefix| ==> a.prefix[i].finalized
    ensures var w := Replayed(r, cfg, a, clock);
            Evaluate(r, cfg, a, clock) ==
            if w.Some? && Outweighs(r, cfg.keys, Grafted(history, a, w.value), history) then w else None
  {
    CurrentImproves(r, cfg.keys, history, a);
    var w := Replayed(r, cfg, a, clock);
    if w.Some? {
      FinalizedAll(r, ScratchConfig(cfg), ScratchView(a), Wrapped(a.prefix) + a.candidate, clock, 0);
      GrownIsBranch(a, w.value.blocks);
      GraftWeighs(r, cfg.keys, history, a, w.value);
    }
  }

  /**
   Fork choice of an undisturbed call: a branch that begins is installed exactly when it replays and
   leaves a history that outweighs the current one -- more approvals, or as many and longer.
   */
  lemma ReorgInstallsExactly(r: Rules, cfg: Config, n: Node, forkHeight: nat, candidate: seq<Option<Block>>,
                             clock: nat -> int)
    requires Standing(n) && n.dropped == 0 && Indexable(n.view) && Begin(n.view, forkHeight, candidate).Begun?
    ensures var a := Begin(n.view, forkHeight, candidate).attempt;
            var begun, w := Next(r, cfg, n, BeginStep(forkHeight, candidate)), Replayed(r, cfg, a, clock);
            var heavier := w.Some? && Outweighs(r, cfg.keys, Grafted(n.history, a, w.value), n.history);
            && (Installs(r, cfg, begun, SwapStep(|n.attempts|, clock)) <==> heavier)
            && Next(r, cfg, begun, SwapStep(|n.attempts|, clock)).history ==
               if heavier then Grafted(n.history, a, w.value) else n.history
  {
    var a := Begin(n.view, forkHeight, candidate).attempt;
    BeginsExactly(n.view, n.history, forkHeight, candidate);
    BegunTracks(n.view, n.history, 0, forkHeight, candidate);
    ReplayedWeighs(r, cfg, n.history, a, clock);
    BegunNode(r, cfg, n, forkHeight, candidate);
    UndisturbedSwap(r, cfg, n.(attempts := n.attempts + [a]), |n.attempts|, clock);
  }

  lemma BegunNode(r: Rules, cfg: Config, n: Node, forkHeight: nat, candidate: seq<Option<Block>>)
    requires Indexable(n.view) && Begin(n.view, forkHeight, candidate).Begun?
    ensures var a := Begin(n.view, forkHeight, candidate).attempt;
            Next(r, cfg, n, BeginStep(forkHeight, candidate)) == n.(attempts := n.attempts + [a]) && Unmoved(n.view, a)
  {
  }

  lemma UndisturbedSwap(r: Rules, cfg: Config, n: Node, i: nat, clock: nat -> int)
    requires i < |n.attempts| && Unmoved(n.view, n.attempts[i])
    ensures var w := Evaluate(r, cfg, n.attempts[i], clock);
            && (Installs(r, cfg, n, SwapStep(i, clock)) <==> w.Some?)
            && Next(r, cfg, n, SwapStep(i, clock)).history ==
               if w.Some? then Grafted(n.history, n.attempts[i], w.value) else n.history
  {
  }

  // ---------------------------------------------------------------- two attempts at once

  /** Rules under which every well-linked block is valid and every signature verifies. */
  function LaxRules(): Rules
  {
    Rules((t: Tx) => true, (s: State, t: Tx, c: TxContext) => Applied(s, true), (s: State) => "r",
          (s: State, p: Staking) => [], (s: State, a: Address) => 0, (h: Header, txs: seq<Tx>) => "h",
          (txs: seq<Tx>) => "t", (k: string) => "", (k: string, m: Message, sig: string) => true)
  }

  function LaxConfig(): Config
  {
    Config("c", 1, map["p" := "k", "q" := "k", "s" := "k"], 1, 0, 0, [], Staking(0, 0, 0, 0))
  }

  function LaxBlock(height: nat, sigs: map<string, string>): Block
  {
    Block(Header(height, "h", None, "p", "t", "r", ""), [], "h", true, "sig", sigs)
  }

  /** A chain whose window starts at height 1 and holds one block. */
  function SmallView(st: State, b: Block): View
  {
    View([b], st, 1, 0, Some(st), Some(LaxBlock(0, map[])), Some(st))
  }

  function SmallNode(st: State, b: Block, attempts: seq<Attempt>): Node
  {
    Node(SmallView(st, b), [LaxBlock(0, map[]), b], 0, attempts)
  }

  function SmallAttempt(st: State, tip: Block, candidate: Block, hotStart: nat := 1, startLen: nat := 1): Attempt
  {
    Attempt(1, [Some(candidate)], [], [tip], st, LaxBlock(0, map[]), hotStart, startLen)
  }

  lemma SmallTransition(st: State, sigs: map<string, string>)
    ensures Transition(LaxRules(), LaxConfig(), st, LaxBlock(1, sigs)) == Some(st)
    ensures Transition(LaxRules(), ScratchConfig(LaxConfig()), st, LaxBlock(1, sigs)) == Some(st)
  {
  }

  lemma SmallScore(sigs: map<string, string>)
    requires sigs.Keys <= {"p", "q", "s"}
    ensures Score(LaxRules(), LaxConfig().keys, [LaxBlock(1, sigs)]) == |sigs|
    ensures Score(LaxRules(), LaxConfig().keys, Present([Some(LaxBlock(1, sigs))])) == |sigs|
  {
    var b := LaxBlock(1, sigs);
    assert RosterApprovers(LaxRules(), LaxConfig().keys, b) == sigs.Keys;
    assert [b][..0] == [];
    assert [Some(b)][..0] == [];
    assert Present([Some(b)]) == [b];
  }

  lemma SmallFinalize(st: State, sigs: map<string, string>, now: int)
    requires sigs.Keys <= {"p", "q", "s"} && 0 < |sigs|
    ensures FinalizeBlock(LaxRules(), ScratchConfig(LaxConfig()),
            View([LaxBlock(0, map[])], st, 0, 0, None, None, None), LaxBlock(1, sigs), now)
         == Some(View([LaxBlock(0, map[]), LaxBlock(1, sigs)], st, 0, 0, None, None, None))
  {
    var r, cfg, g, b := LaxRules(), ScratchConfig(LaxConfig()), LaxBlock(0, map[]), LaxBlock(1, sigs);
    var v := View([g], st, 0, 0, None, None, None);
    SmallTransition(st, sigs);
    assert RosterApprovers(r, cfg.keys, b) == sigs.Keys && |sigs.Keys| == |sigs|;
    assert RosterAuthorized(r, cfg, b, true);
    assert CanFinalize(r, cfg, v, b, now);
    assert Stamped(b) == b && [g] + [b] == [g, b];
  }

  lemma EvaluateOne(r: Rules, cfg: Config, a: Attempt, b: Block, clock: nat -> int)
    requires a.prefix == [] && a.candidate == [Some(b)] && Heavier(r, cfg.keys, a)
    ensures Evaluate(r, cfg, a, clock) == FinalizeBlock(r, ScratchConfig(cfg), ScratchView(a), b, clock(0))
  {
    var step := Finalizer(r, ScratchConfig(cfg), clock);
    assert Wrapped(a.prefix) + a.candidate == [Some(b)];
    FoldOne(step, ScratchView(a), Some(b), 0);
  }

  lemma FoldOne<S, T>(step: (S, T, nat) -> Option<S>, s: S, x: T, k: nat)
    ensures Fold(step, s, [x], k) == step(s, x, k)
  {
    assert [x][1..] == [];
  }

  lemma SmallHeavier(a: Attempt, tip: map<string, string>, sigs: map<string, string>)
    requires tip.Keys <= {"p", "q", "s"} && sigs.Keys <= {"p", "q", "s"} && |tip| < |sigs|
    requires a.tail == [LaxBlock(1, tip)] && a.candidate == [Some(LaxBlock(1, sigs))]
    ensures Heavier(LaxRules(), LaxConfig().keys, a)
  {
    SmallScore(tip);
    SmallScore(sigs);
  }

  lemma SmallEvaluate(a: Attempt, tip: map<string, string>, sigs: map<string, string>, clock: nat -> int)
    requires tip.Keys <= {"p", "q", "s"} && sigs.Keys <= {"p", "q", "s"} && 0 < |tip| < |sigs|
    requires a == SmallAttempt(a.base, LaxBlock(1, tip), LaxBlock(1, sigs), a.hotStart, a.startLen)
    ensures Evaluate(LaxRules(), LaxConfig(), a, clock)
         == Some(View([LaxBlock(0, map[]), LaxBlock(1, sigs)], a.base, 0, 0, None, None, None))
  {
    SmallHeavier(a, tip, sigs);
    EvaluateOne(LaxRules(), LaxConfig(), a, LaxBlock(1, sigs), clock);
    SmallFinalize(a.base, sigs, clock(0));
  }

  /** Swapping an attempt taken from tip `taken` into a chain whose tip is by now `current`. */
  lemma SmallSwap(st: State, taken: map<string, string>, current: map<string, string>, sigs: map<string, string>,
                  attempts: seq<Attempt>, i: nat, clock: nat -> int)
    requires taken.Keys <= {"p", "q", "s"} && sigs.Keys <= {"p", "q", "s"} && 0 < |taken| < |sigs|
    requires i < |attempts| && attempts[i] == SmallAttempt(st, LaxBlock(1, taken), LaxBlock(1, sigs))
    ensures Next(LaxRules(), LaxConfig(), SmallNode(st, LaxBlock(1, current), attempts), SwapStep(i, clock))
         == SmallNode(st, LaxBlock(1, sigs), attempts)
  {
    var g, b := LaxBlock(0, map[]), LaxBlock(1, sigs);
    var n := SmallNode(st, LaxBlock(1, current), attempts);
    SmallEvaluate(attempts[i], taken, sigs, clock);
    SwapInstalls(LaxRules(), LaxConfig(), n, i, clock);
    assert [g, b][1..] == [b] && [] + [b] == [b];
    assert n.history[..1] + [] + [b] == [g, b];
  }

  lemma SmallBegin(st: State, tip: map<string, string>, sigs: map<string, string>, attempts: seq<Attempt>)
    ensures Next(LaxRules(), LaxConfig(), SmallNode(st, LaxBlock(1, tip), attempts),
            BeginStep(1, [Some(LaxBlock(1, sigs))]))
         == SmallNode(st, LaxBlock(1, tip), attempts + [SmallAttempt(st, LaxBlock(1, tip), LaxBlock(1, sigs))])
  {
    var v := SmallView(st, LaxBlock(1, tip));
    assert v.blocks[0..0] == [] && v.blocks[0..] == v.blocks;
  }

  lemma SmallSound(st: State, tip: map<string, string>)
    ensures Sound(LaxRules(), LaxConfig(), SmallNode(st, LaxBlock(1, tip), []))
  {
    var n := SmallNode(st, LaxBlock(1, tip), []);
    SmallTransition(st, tip);
    assert n.history[1..] == [LaxBlock(1, tip)] && [LaxBlock(1, tip)][1..] == [];
    assert n.history[1..1] == [];
  }

  const One := map["p" := "1"]
  const Two := map["p" := "1", "q" := "1"]
  const Three := map["p" := "1", "q" := "1", "s" := "1"]

  /** A three-approval and a two-approval branch, both offered while a one-approval block is the tip. */
  ghost function RaceBegun(st: State): Node
  {
    Next(LaxRules(), LaxConfig(),
         Next(LaxRules(), LaxConfig(), SmallNode(st, LaxBlock(1, One), []), BeginStep(1, [Some(LaxBlock(1, Three))])),
         BeginStep(1, [Some(LaxBlock(1, Two))]))
  }

  ghost function RaceFirst(st: State, clock: nat -> int): Node
  {
    Next(LaxRules(), LaxConfig(), RaceBegun(st), SwapStep(0, clock))
  }

  ghost function RaceSecond(st: State, clock: nat -> int): Node
  {
    Next(LaxRules(), LaxConfig(), RaceFirst(st, clock), SwapStep(1, clock))
  }

  /** The three-approval branch is offered once more. */
  ghost function RaceThird(st: State, clock: nat -> int): Node
  {
    Next(LaxRules(), LaxConfig(),
         Next(LaxRules(), LaxConfig(), RaceSecond(st, clock), BeginStep(1, [Some(LaxBlock(1, Three))])),
         SwapStep(2, clock))
  }

  lemma RaceStates(st: State, clock: nat -> int)
    ensures RaceFirst(st, clock).history == [LaxBlock(0, map[]), LaxBlock(1, Three)]
    ensures RaceSecond(st, clock).history == [LaxBlock(0, map[]), LaxBlock(1, Two)]
    ensures RaceThird(st, clock).history == [LaxBlock(0, map[]), LaxBlock(1, Three)]
  {
    assert |One| == 1 && |Two| == 2 && |Three| == 3;
    var a0 := SmallAttempt(st, LaxBlock(1, One), LaxBlock(1, Three));
    var a1 := SmallAttempt(st, LaxBlock(1, One), LaxBlock(1, Two));
    var a2 := SmallAttempt(st, LaxBlock(1, Two), LaxBlock(1, Three));
    SmallBegin(st, One, Three, []);
    assert [] + [a0] == [a0];
    SmallBegin(st, One, Two, [a0]);
    assert [a0] + [a1] == [a0, a1];
    SmallSwap(st, One, One, Three, [a0, a1], 0, clock);
    SmallSwap(st, One, Three, Two, [a0, a1], 1, clock);
    SmallBegin(st, Two, Three, [a0, a1]);
    assert [a0, a1] + [a2] == [a0, a1, a2];
    SmallSwap(st, Two, Two, Three, [a0, a1, a2], 2, clock);
  }

  /**
   The recheck before a swap compares only the length and the start of the window. Of two attempts
   begun together both are installed: the heavier branch gives way to the lighter one, and a third
   attempt brings the abandoned history back.
   */
  lemma ConcurrentReorgsOscillate(st: State, clock: nat -> int)
    ensures Sound(LaxRules(), LaxConfig(), SmallNode(st, LaxBlock(1, One), []))
    ensures Outweighs(LaxRules(), LaxConfig().keys, RaceFirst(st, clock).history, RaceSecond(st, clock).history)
    ensures RaceThird(st, clock).history == RaceFirst(st, clock).history != RaceSecond(st, clock).history
  {
    SmallSound(st, One);
    RaceStates(st, clock);
    RaceWeights();
  }

  lemma RaceWeights()
    ensures Outweighs(LaxRules(), LaxConfig().keys, [LaxBlock(0, map[]), LaxBlock(1, Three)],
            [LaxBlock(0, map[]), LaxBlock(1, Two)])
    ensures [LaxBlock(0, map[]), LaxBlock(1, Three)] != [LaxBlock(0, map[]), LaxBlock(1, Two)]
  {
    assert |Two| == 2 && |Three| == 3;
    SmallHistoryScore(Two);
    SmallHistoryScore(Three);
    var g := LaxBlock(0, map[]);
    assert [g, LaxBlock(1, Three)][1].quorumSignatures != [g, LaxBlock(1, Two)][1].quorumSignatures;
  }

  lemma SmallHistoryScore(sigs: map<string, string>)
    requires sigs.Keys <= {"p", "q", "s"}
    ensures var r, keys, g := LaxRules(), LaxConfig().keys, LaxBlock(0, map[]);
            Score(r, keys, [g, LaxBlock(1, sigs)]) == Score(r, keys, [g]) + |sigs|
  {
    var g := LaxBlock(0, map[]);
    SmallScore(sigs);
    ScoreAppend(LaxRules(), LaxConfig().keys, [g], [LaxBlock(1, sigs)]);
    assert [g] + [LaxBlock(1, sigs)] == [g, LaxBlock(1, sigs)];
  }

  // ---------------------------------------------------------------- genesis dropped

  /** A chain that has finalized one block after genesis and never trimmed. */
  function YoungNode(st: State, b: Block, attempts: seq<Attempt>): Node
  {
    var g := LaxBlock(0, map[]);
    Node(View([g, b], st, 0, 0, None, None, Some(st)), [g, b], 0, attempts)
  }

  lemma YoungSound(st: State)
    ensures Sound(LaxRules(), LaxConfig(), YoungNode(st, LaxBlock(1, One), []))
  {
    var h := [LaxBlock(0, map[]), LaxBlock(1, One)];
    SmallTransition(st, One);
    assert h[1..] == [LaxBlock(1, One)] && [LaxBlock(1, One)][1..] == [] && h[0..] == h;
    assert Replay(LaxRules(), LaxConfig(), st, h[1..]) == Some(st);
    assert Linked(h);
  }

  /** The chain after its only block was replaced. */
  function DroppedNode(st: State, b: Block, attempts: seq<Attempt>): Node
  {
    Node(View([b], st, 0, 0, None, None, Some(st)), [LaxBlock(0, map[]), b], 1, attempts)
  }

  /** Reorganizing a chain that was never trimmed leaves a window without genesis, off by one. */
  lemma ReorgDropsGenesis(st: State, clock: nat -> int)
    ensures var r, cfg, start := LaxRules(), LaxConfig(), YoungNode(st, LaxBlock(1, One), []);
            var begun := Next(r, cfg, start, BeginStep(1, [Some(LaxBlock(1, Two))]));
            var n := Next(r, cfg, begun, SwapStep(0, clock));
            && Sound(r, cfg, start) && n == DroppedNode(st, LaxBlock(1, Two), n.attempts) && !Aligned(n.view)
  {
    YoungSound(st);
    var b, a := LaxBlock(1, Two), SmallAttempt(st, LaxBlock(1, One), LaxBlock(1, Two), 0, 2);
    YoungBegin(st, a);
    YoungSwap(st, a, clock);
    assert DroppedNode(st, b, [a]).view.blocks[0].header.height == 1;
  }

  lemma YoungBegin(st: State, a: Attempt)
    requires a == SmallAttempt(st, LaxBlock(1, One), LaxBlock(1, Two), 0, 2)
    ensures Next(LaxRules(), LaxConfig(), YoungNode(st, LaxBlock(1, One), []), BeginStep(1, [Some(LaxBlock(1, Two))]))
         == YoungNode(st, LaxBlock(1, One), [a])
  {
    var start := YoungNode(st, LaxBlock(1, One), []);
    assert start.view.blocks[1..1] == [] && start.view.blocks[1..] == [LaxBlock(1, One)];
    assert Begin(start.view, 1, [Some(LaxBlock(1, Two))]) == Begun(a);
  }

  lemma YoungSwap(st: State, a: Attempt, clock: nat -> int)
    requires a == SmallAttempt(st, LaxBlock(1, One), LaxBlock(1, Two), 0, 2)
    ensures Next(LaxRules(), LaxConfig(), YoungNode(st, LaxBlock(1, One), [a]), SwapStep(0, clock))
         == DroppedNode(st, LaxBlock(1, Two), [a])
  {
    var g, b, n := LaxBlock(0, map[]), LaxBlock(1, Two), YoungNode(st, LaxBlock(1, One), [a]);
    assert |One| == 1 && |Two| == 2;
    SmallEvaluate(a, One, Two, clock);
    SwapInstalls(LaxRules(), LaxConfig(), n, 0, clock);
    var w := View([g, b], st, 0, 0, None, None, None);
    assert Installed(n.view, a, w) == DroppedNode(st, b, [a]).view by { assert [g, b][1..] == [b] && [] + [b] == [b]; }
    assert Grafted(n.history, a, w) == [g, b] by { assert n.history[..1] + [] + [b] == [g, b]; }
  }

  // ---------------------------------------------------------------- corrections in the replayed range

  function CorrectedConfig(): Config { LaxConfig().(corrections := [Correction(1, "x", 1)]) }

  /** Rules whose root shows whether "x" holds anything. */
  function RootedRules(): Rules
  {
    LaxRules().(root := (s: State) => if s.Balance("x") == 0 then "0" else "1")
  }

  function RootedBlock(sigs: map<string, string>, root: string): Block
  {
    Block(Header(1, "h", None, "p", "t", root, ""), [], "h", true, "sig", sigs)
  }

  /** A one-block window whose block carries a configured correction, and a branch that ignores it. */
  function CorrectedNode(st: State): Node
  {
    var g, b := LaxBlock(0, map[]), RootedBlock(One, "0");
    Node(View([b], st.WithBalance("x", 0), 1, 0, Some(st), Some(g), Some(st)), [g, b], 0,
         [SmallAttempt(st, b, RootedBlock(Two, "1"))])
  }

  lemma CorrectedTransition(st: State, sigs: map<string, string>, root: string)
    requires st.Balance("x") == 1
    ensures var b := RootedBlock(sigs, root);
            && Transition(RootedRules(), CorrectedConfig(), st, b) == Some(st.WithBalance("x", 0))
            && Replay(RootedRules(), CorrectedConfig(), st, [b]) == Some(st.WithBalance("x", 0))
            && Transition(RootedRules(), ScratchConfig(CorrectedConfig()), st, b) == Some(st)
  {
    var c, b := Correction(1, "x", 1), RootedBlock(sigs, root);
    assert [c][1..] == [];
    assert ApplyCorrections(st, [c], 1) == st.WithBalance("x", 0);
    assert [b][1..] == [];
  }

  lemma CorrectedSound(st: State)
    requires st.Balance("x") == 1
    ensures Sound(RootedRules(), CorrectedConfig(), CorrectedNode(st))
  {
    var h := CorrectedNode(st).history;
    CorrectedTransition(st, One, "0");
    assert h[1..] == [RootedBlock(One, "0")] && h[1..1] == [];
    assert Linked(h);
  }

  /**
   Why installed reorganizations must be clear of corrections: the scratch chain has none, so a branch
   replayed over a corrected height is installed with a state its own history does not replay to -- and
   only a branch whose root ignores the correction, which the chain itself refuses, gets that far.
   */
  lemma ReorgForgetsCorrection(st: State, clock: nat -> int, now: int)
    requires st.Balance("x") == 1
    ensures var r, cfg, n, b := RootedRules(), CorrectedConfig(), CorrectedNode(st), RootedBlock(Two, "1");
            var n' := Next(r, cfg, n, SwapStep(0, clock));
            && Sound(r, cfg, n) && !ClearOfCorrections(cfg, n.attempts[0])
            && n'.view.state == st && n'.history == [LaxBlock(0, map[]), b]
            && Replay(r, cfg, st, [b]) == Some(st.WithBalance("x", 0)) != Some(st)
            && !ValidBlock(r, cfg, LaxBlock(0, map[]), st, b, now, true)
  {
    CorrectedSound(st);
    CorrectedTransition(st, Two, "1");
    assert st.WithBalance("x", 0).Balance("x") != st.Balance("x");
    assert Correction(1, "x", 1) in CorrectedConfig().corrections;
    CorrectedSwap(st, clock);
  }

  lemma RootedScore(sigs: map<string, string>, root: string)
    requires sigs.Keys <= {"p", "q", "s"}
    ensures var keys, b := LaxConfig().keys, RootedBlock(sigs, root);
            && RosterApprovers(RootedRules(), keys, b) == sigs.Keys
            && Score(RootedRules(), keys, [b]) == |sigs|
            && Present([Some(b)]) == [b]
  {
    var b := RootedBlock(sigs, root);
    assert RosterApprovers(RootedRules(), LaxConfig().keys, b) == sigs.Keys;
    assert [b][..0] == [] && [Some(b)][..0] == [];
  }

  lemma CorrectedFinalize(st: State, now: int)
    requires st.Balance("x") == 1
    ensures FinalizeBlock(RootedRules(), ScratchConfig(CorrectedConfig()),
                          View([LaxBlock(0, map[])], st, 0, 0, None, None, None), RootedBlock(Two, "1"), now)
         == Some(View([LaxBlock(0, map[]), RootedBlock(Two, "1")], st, 0, 0, None, None, None))
  {
    var r, cfg, g, b := RootedRules(), ScratchConfig(CorrectedConfig()), LaxBlock(0, map[]), RootedBlock(Two, "1");
    CorrectedTransition(st, Two, "1");
    RootedScore(Two, "1");
    assert |Two| == 2 && |Two.Keys| == |Two|;
    assert RosterAuthorized(r, cfg, b, true);
    assert CanFinalize(r, cfg, View([g], st, 0, 0, None, None, None), b, now);
    assert Stamped(b) == b && [g] + [b] == [g, b];
  }

  lemma CorrectedEvaluate(st: State, clock: nat -> int)
    requires st.Balance("x") == 1
    ensures Evaluate(RootedRules(), CorrectedConfig(), CorrectedNode(st).attempts[0], clock)
         == Some(View([LaxBlock(0, map[]), RootedBlock(Two, "1")], st, 0, 0, None, None, None))
  {
    var a := CorrectedNode(st).attempts[0];
    assert |One| == 1 && |Two| == 2;
    RootedScore(One, "0");
    RootedScore(Two, "1");
    assert Heavier(RootedRules(), CorrectedConfig().keys, a);
    EvaluateOne(RootedRules(), CorrectedConfig(), a, RootedBlock(Two, "1"), clock);
    CorrectedFinalize(st, clock(0));
  }

  lemma CorrectedSwap(st: State, clock: nat -> int)
    requires st.Balance("x") == 1
    ensures var n := Next(RootedRules(), CorrectedConfig(), CorrectedNode(st), SwapStep(0, clock));
            n.view.state == st && n.history == [LaxBlock(0, map[]), RootedBlock(Two, "1")]
  {
    var n, g, b := CorrectedNode(st), LaxBlock(0, map[]), RootedBlock(Two, "1");
    CorrectedEvaluate(st, clock);
    SwapInstalls(RootedRules(), CorrectedConfig(), n, 0, clock);
    assert [g, b][1..] == [b] && [] + [b] == [b];
    assert n.history[..1] + [] + [b] == [g, b];
  }

  // ---------------------------------------------------------------- grandfathered heights

  /** A block from before roots were enforced: the chain finalizes it, a scratch chain refuses to replay it. */
  lemma ScratchRefusesGrandfathered(st: State, now: int)
    ensures var cfg, b := LaxConfig().(rootFrom := 10),
            LaxBlock(1, One).(header := Header(1, "h", None, "p", "t", "z", ""));
            var v := View([LaxBlock(0, map[])], st, 0, 0, None, None, None);
            && FinalizeBlock(LaxRules(), cfg, v, b, now).Some?
            && FinalizeBlock(LaxRules(), ScratchConfig(cfg), v, b, now).None?
  {
    var r, cfg := LaxRules(), LaxConfig().(rootFrom := 10);
    var b := LaxBlock(1, One).(header := Header(1, "h", None, "p", "t", "z", ""));
    GrandfatheredTransition(st, b);
    assert RosterApprovers(r, cfg.keys, b) == One.Keys && |One.Keys| == 1;
    assert RosterAuthorized(r, cfg, b, true);
    assert b.header.stateRoot != r.root(st);
  }

  lemma GrandfatheredTransition(st: State, b: Block)
    requires b.txs == [] && b.header.height == 1
    ensures var cfg := LaxConfig().(rootFrom := 10);
            Transition(LaxRules(), cfg, st, b) == Some(st) == Transition(LaxRules(), ScratchConfig(cfg), st, b)
  {
  }
}
