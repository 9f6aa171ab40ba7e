/**
 Which transactions a built block holds: every candidate, in order, that applies on top of the earlier
 ones, until the block is full.
 */
module BlockContents {
  import opened Common
  import opened Ledger
  import opened ChainMachine
  import opened BlockBuilding

  /** The picked candidates, in order. */
  function Picked(candidates: seq<Tx>, picks: seq<bool>): seq<Tx>
    requires |picks| == |candidates|
  {
    if candidates == [] then [] else
    var n := |candidates| - 1;
    Picked(candidates[..n], picks[..n]) + if picks[n] then [candidates[n]] else []
  }

  /** Candidate `i` was picked exactly when there was room and it applies after the earlier picks. */
  ghost predicate PickedRight(r: Rules, cfg: Config, st: State, candidates: seq<Tx>, picks: seq<bool>, height: nat,
                              limit: nat, i: nat)
    requires |picks| == |candidates| && i < |candidates|
  {
    var earlier := Picked(candidates[..i], picks[..i]);
    var reached := ApplyAll(r, cfg, st, earlier, height);
    && reached.Some?
    && (picks[i] <==>
          |earlier| < limit && ApplyTransaction(r, reached.value, candidates[i], BlockContext(cfg, height)).ok)
  }

  ghost predicate AllPickedRight(r: Rules, cfg: Config, st: State, candidates: seq<Tx>, picks: seq<bool>, height: nat,
                                 limit: nat)
    requires |picks| == |candidates|
  {
    forall i :: 0 <= i < |candidates| ==> PickedRight(r, cfg, st, candidates, picks, height, limit, i)
  }

  /** One more candidate, decided by the rule above. */
  lemma PickOne(r: Rules, cfg: Config, st: State, candidates: seq<Tx>, picks: seq<bool>, tx: Tx, height: nat,
                limit: nat)
    returns (more: seq<bool>)
    requires |picks| == |candidates| && AllPickedRight(r, cfg, st, candidates, picks, height, limit)
    requires ApplyAll(r, cfg, st, Picked(candidates, picks), height).Some?
    ensures |more| == |candidates| + 1 && more[..|candidates|] == picks
    ensures AllPickedRight(r, cfg, st, candidates + [tx], more, height, limit)
    ensures var earlier := Picked(candidates, picks);
            var s := ApplyAll(r, cfg, st, earlier, height).value;
            var a := ApplyTransaction(r, s, tx, BlockContext(cfg, height));
            && more[|candidates|] == (|earlier| < limit && a.ok)
            && Picked(candidates + [tx], more) == earlier + (if more[|candidates|] then [tx] else [])
            && (more[|candidates|] ==> ApplyAll(r, cfg, st, earlier + [tx], height) == Some(a.state))
  {
    var n, earlier := |candidates|, Picked(candidates, picks);
    var s := ApplyAll(r, cfg, st, earlier, height).value;
    var ok := |earlier| < limit && ApplyTransaction(r, s, tx, BlockContext(cfg, height)).ok;
    more := picks + [ok];
    var all := candidates + [tx];
    assert all[..n] == candidates && more[..n] == picks;
    forall i | 0 <= i < |all| ensures PickedRight(r, cfg, st, all, more, height, limit, i) {
      if i < n {
        assert all[..i] == candidates[..i] && more[..i] == picks[..i];
        assert PickedRight(r, cfg, st, candidates, picks, height, limit, i);
      }
    }
    if ok {
      ApplyAllAppend(r, cfg, st, earlier, tx, height);
      assert [tx][1..] == [];
    }
  }

  /** The selection loop, from any point on: `before` has been decided, `rest` has not. */
  lemma {:induction false} SelectPicks(r: Rules, cfg: Config, st: State, before: seq<Tx>, picks: seq<bool>,
                                       s: Selection,
                                       rest: seq<Tx>, height: nat, limit: nat) returns (all: seq<bool>)
    requires |picks| == |before| && AllPickedRight(r, cfg, st, before, picks, height, limit)
    requires s.chosen == Picked(before, picks) && |s.chosen| <= limit
    requires ApplyAll(r, cfg, st, s.chosen, height) == Some(s.state) && SkipsCleanly(r, cfg, s, rest, height, limit)
    ensures |all| == |before + rest| && AllPickedRight(r, cfg, st, before + rest, all, height, limit)
    ensures Picked(before + rest, all) == Select(r, cfg, s, rest, height, limit).chosen
    decreases |rest|
  {
    if rest == [] {
      assert before + rest == before;
      return picks;
    }
    var tx := rest[0];
    var more := PickOne(r, cfg, st, before, picks, tx, height, limit);
    var next := s;
    if |s.chosen| < limit { next := Chosen(s, tx, ApplyTransaction(r, s.state, tx, BlockContext(cfg, height))); }
    FullStaysFull(r, cfg, s, rest, height, limit);
    assert before + rest == before + [tx] + rest[1..];
    all := SelectPicks(r, cfg, st, before + [tx], more, next, rest[1..], height, limit);
  }

  /** A full block takes nothing more. */
  lemma FullStaysFull(r: Rules, cfg: Config, s: Selection, rest: seq<Tx>, height: nat, limit: nat)
    requires rest != []
    ensures |s.chosen| >= limit ==>
              && Select(r, cfg, s, rest, height, limit) == s == Select(r, cfg, s, rest[1..], height, limit)
              && SkipsCleanly(r, cfg, s, rest[1..], height, limit)
  {
  }

  /**
   A built block holds exactly the candidates that apply on top of the earlier ones it holds, in their
   order, up to its limit -- and says who built it, on what, and when.
   */
  lemma BuiltBlockHolds(r: Rules, cfg: Config, tip: Block, st: State, candidates: seq<Tx>, proposerId: string,
                        pocRoot: string, limit: nat, now: int) returns (picks: seq<bool>)
    requires SkipsCleanly(r, cfg, Selection(st, []), candidates, tip.header.height + 1, limit)
    requires Build(r, cfg, tip, st, candidates, proposerId, pocRoot, limit, now).Some?
    ensures var b := Build(r, cfg, tip, st, candidates, proposerId, pocRoot, limit, now).value;
            && |picks| == |candidates| && b.txs == Picked(candidates, picks)
            && AllPickedRight(r, cfg, st, candidates, picks, tip.header.height + 1, limit)
            && b.header.height == tip.header.height + 1 && b.header.parentHash == tip.hash
            && b.header.proposerId == proposerId && b.header.pocRoot == pocRoot
            && b.header.timestamp == Some(now - now % Second)
  {
    picks := SelectPicks(r, cfg, st, [], [], Selection(st, []), candidates, tip.header.height + 1, limit);
    assert [] + candidates == candidates;
  }
}
