/**
 The reward keeper: confirm earlier transfers against the wallet's nonce, pick this month's qualifying
 nodes within the cap, submit one transfer each with consecutive nonces.
 */
module RewardKeeper {
  import opened Common
  import opened Hardware

  const Day: int := 24 * 60 * Minute
  const FirstUptime: int := 30 * Day
  const RepeatUptime: int := 27 * Day
  const StuckAfter: int := 60 * Minute
  const ActivationSYN: nat := 10_000
  const ProgramStart: int := 1793407000000

  datatype Status = Submitted | Confirmed | Stuck

  /** One ledger line. */
  datatype Payout = Payout(
    nodeId: string, address: string, amount: nat, epoch: string, nonce: nat, txId: string,
    status: Status, uptimeMS: int, submittedAt: int, confirmedAt: int)

  /** `monthly` is the recurring reward of the day, `normalize` the payout-address normalization. */
  datatype Config = Config(enabled: bool, cap: nat, approved: map<string, string>, monthly: nat,
    normalize: string -> string)

  datatype Registry = Registry(ledger: seq<Payout>, peers: map<string, Peer>)

  datatype Candidate = Candidate(nodeId: string, address: string, amount: nat, uptimeMS: int)

  /** One cycle's outside world: clock, calendar month, wallet nonce if readable, and what Submit answers per nonce. */
  datatype World = World(now: int, epoch: string, nonce: Option<nat>, submit: nat -> Option<string>)

  // ---------------------------------------------------------------- step 1: confirm

  function ConfirmLine(po: Payout, nonce: nat, now: int): Payout
  {
    if po.status == Confirmed then po
    else if po.nonce < nonce then po.(status := Confirmed, confirmedAt := now)
    else if po.status == Submitted && now - po.submittedAt > StuckAfter then po.(status := Stuck)
    else po
  }

  function ConfirmPeer(peers: map<string, Peer>, po: Payout, nonce: nat, now: int): map<string, Peer>
  {
    if po.status == Confirmed || po.nonce >= nonce || po.nodeId !in peers then peers else
    var p := peers[po.nodeId];
    peers[po.nodeId := p.(lastRewardPaidEpoch := po.epoch, lastRewardPaidAt := now,
                          totalRewardsPaidSYN := Wrap(p.totalRewardsPaidSYN + po.amount),
                          lastRewardTxHash := po.txId, rewardUptimeAtPaidMS := po.uptimeMS)]
  }

  function ConfirmLines(ledger: seq<Payout>, nonce: nat, now: int): (out: seq<Payout>)
    ensures |out| == |ledger| && forall i :: 0 <= i < |ledger| ==> out[i] == ConfirmLine(ledger[i], nonce, now)
  {
    seq(|ledger|, i requires 0 <= i < |ledger| => ConfirmLine(ledger[i], nonce, now))
  }

  function ConfirmPeers(peers: map<string, Peer>, ledger: seq<Payout>, nonce: nat, now: int): map<string, Peer>
  {
    if ledger == [] then peers
    else ConfirmPeer(ConfirmPeers(peers, ledger[..|ledger| - 1], nonce, now), ledger[|ledger| - 1], nonce, now)
  }

  predicate Waiting(ledger: seq<Payout>)
  {
    exists i :: 0 <= i < |ledger| && ledger[i].status != Confirmed
  }

  /** One of the first `n` lines stays unconfirmed at this wallet nonce. */
  predicate Unsettled(ledger: seq<Payout>, nonce: nat, n: nat)
    requires n <= |ledger|
  {
    exists i :: 0 <= i < n && ledger[i].status != Confirmed && ledger[i].nonce >= nonce
  }

  lemma UnsettledWaits(ledger: seq<Payout>, nonce: nat, now: int)
    ensures Unsettled(ledger, nonce, |ledger|) <==> Waiting(ConfirmLines(ledger, nonce, now))
  {
    var out := ConfirmLines(ledger, nonce, now);
    if Unsettled(ledger, nonce, |ledger|) {
      var i :| 0 <= i < |ledger| && ledger[i].status != Confirmed && ledger[i].nonce >= nonce;
      assert out[i].status != Confirmed;
    }
  }

  // ---------------------------------------------------------------- step 2: candidates

  /** How the founder's own nodes are named. */
  const FleetPrefixes: seq<string> := [
    "syn-fleet-", "synthos-hosteons-", "synthos-render-", "synthos-lovable-", "synthos-ryzen-", "syn-gitlab-",
    "synthos-home-", "desktop-17d2b0d4d401"]

  predicate StartsWithAny(s: string, prefixes: seq<string>)
  {
    prefixes != [] && (prefixes[0] <= s || StartsWithAny(s, prefixes[1..]))
  }

  lemma {:induction false} StartsExactly(s: string, prefixes: seq<string>)
    ensures StartsWithAny(s, prefixes) <==> exists i :: 0 <= i < |prefixes| && prefixes[i] <= s
  {
    if prefixes != [] {
      StartsExactly(s, prefixes[1..]);
      if i :| 0 <= i < |prefixes| && prefixes[i] <= s {
        if i > 0 { assert prefixes[1..][i - 1] <= s; }
      }
      if i :| 0 <= i < |prefixes[1..]| && prefixes[1..][i] <= s { assert prefixes[i + 1] <= s; }
    }
  }

  predicate FounderFleet(p: Peer)
  {
    StartsWithAny(Lower(p.name), FleetPrefixes) || p.cloud in {"fleet", "render", "lovable"}
  }

  predicate RealHeartbeat(p: Peer) { !p.hostedProofSession && p.lastNonce != "" && p.validHeartbeats > 0 }

  /** rewardIneligibleReason returned nothing. */
  predicate Eligible(p: Peer, now: int, epoch: string, paid: bool)
  {
    && !FounderFleet(p)
    && !(0 < p.registeredAt < ProgramStart)
    && !paid && p.lastRewardPaidEpoch != epoch
    && RealHeartbeat(p)
    && !Stale(p, now)
    && p.sharedHardwareWith == "" && p.sharedHouseholdWith == ""
    && p.verifiedUptimeMS >= FirstUptime
    && !(p.rewardUptimeAtPaidMS > 0 && p.verifiedUptimeMS - p.rewardUptimeAtPaidMS < RepeatUptime)
  }

  predicate Qualifies(cfg: Config, p: Peer, now: int, epoch: string, paid: bool)
  {
    && Eligible(p, now, epoch, paid) && p.name in cfg.approved
    && (p.payoutAddress != "" ==> cfg.normalize(p.payoutAddress) == cfg.approved[p.name])
  }

  function AmountFor(cfg: Config, p: Peer): nat
  {
    if p.totalRewardsPaidSYN == 0 && p.rewardUptimeAtPaidMS == 0 then ActivationSYN else cfg.monthly
  }

  function Spent(ledger: seq<Payout>, epoch: string): nat
  {
    if ledger == [] then 0 else
    var last := ledger[|ledger| - 1];
    Spent(ledger[..|ledger| - 1], epoch) + if last.epoch == epoch then last.amount else 0
  }

  function PaidNodes(ledger: seq<Payout>, epoch: string): set<string>
  {
    set i | 0 <= i < |ledger| && ledger[i].epoch == epoch :: ledger[i].nodeId
  }

  /** Walk the peers in order; the first that would break the cap ends the walk. */
  function Choose(cfg: Config, peers: seq<Peer>, paid: set<string>, spent: nat, now: int, epoch: string): seq<Candidate>
    decreases |peers|
  {
    if peers == [] then [] else
    var p := peers[0];
    if !Qualifies(cfg, p, now, epoch, p.name in paid) then Choose(cfg, peers[1..], paid, spent, now, epoch)
    else if Wrap(spent + AmountFor(cfg, p)) > cfg.cap then []
    else [Candidate(p.name, cfg.approved[p.name], AmountFor(cfg, p), p.verifiedUptimeMS)] +
         Choose(cfg, peers[1..], paid, spent + AmountFor(cfg, p), now, epoch)
  }

  predicate NameBefore(a: Peer, b: Peer) { StrLess(a.name, b.name) }

  ghost function SortedPeers(peers: map<string, Peer>): seq<Peer>
  {
    SortBy(NameBefore, ListOf(peers.Values))
  }

  ghost function Candidates(cfg: Config, reg: Registry, now: int, epoch: string): seq<Candidate>
  {
    Choose(cfg, Marked(SortedPeers(reg.peers), now), PaidNodes(reg.ledger, epoch), Spent(reg.ledger, epoch), now, epoch)
  }

  // ---------------------------------------------------------------- step 3: submit

  function Line(c: Candidate, w: World, nonce: nat, txId: string): Payout
  {
    Payout(c.nodeId, c.address, c.amount, w.epoch, nonce, txId, Submitted, c.uptimeMS, w.now, 0)
  }

  /** Submit in order with consecutive nonces; a refusal is not recorded and ends the cycle. */
  function SubmitAll(ledger: seq<Payout>, cs: seq<Candidate>, w: World, nonce: nat): seq<Payout>
    decreases |cs|
  {
    if cs == [] || w.submit(nonce).None? then ledger
    else SubmitAll(ledger + [Line(cs[0], w, nonce, w.submit(nonce).value)], cs[1..], w, nonce + 1)
  }

  ghost function Cycle(cfg: Config, reg: Registry, w: World): Registry
  {
    if !cfg.enabled || w.nonce.None? then reg else
    var ledger, peers := ConfirmLines(reg.ledger, w.nonce.value, w.now),
      ConfirmPeers(reg.peers, reg.ledger, w.nonce.value, w.now);
    if Waiting(ledger) then Registry(ledger, peers) else
    Registry(SubmitAll(ledger, Candidates(cfg, Registry(ledger, peers), w.now, w.epoch), w, w.nonce.value), peers)
  }

  /** The registry files every peer under its own name, and refuses or replaces empty names. */
  ghost predicate Filed(peers: map<string, Peer>) { forall n <- peers :: n != "" && peers[n].name == n }

  lemma NamesStrictTotal(peers: map<string, Peer>)
    requires Filed(peers)
    ensures StrictTotal(NameBefore, peers.Values)
  {
    forall a: string ensures !StrLess(a, a) { StrIrreflexive(a); }
    forall a: string, b: string ensures a == b || StrLess(a, b) || StrLess(b, a) { StrTotal(a, b); }
    forall a: string, b: string, c: string | StrLess(a, b) && StrLess(b, c) ensures StrLess(a, c) {
      StrTransitive(a, b, c);
    }
  }

  class Keeper {
    var ledger: seq<Payout>
    var peers: map<string, Peer>

    function Value(): Registry
      reads this
    {
      Registry(ledger, peers)
    }

    constructor (reg: Registry)
      ensures Value() == reg
    {
      ledger, peers := reg.ledger, reg.peers;
    }

    method RewardKeeperCycle(cfg: Config, w: World)
      requires Filed(peers)
      modifies this
      ensures Value() == Cycle(cfg, old(Value()), w)
    {
      if !cfg.enabled {
        return;
      }
      if w.nonce.None? {
        return;
      }
      var waiting := ConfirmEarlier(w.nonce.value, w.now);
      if waiting {
        return;
      }
      var candidates := RewardCandidates(cfg, w.now, w.epoch);
      SubmitCandidates(candidates, w, w.nonce.value);
    }

    method SubmitCandidates(candidates: seq<Candidate>, w: World, accountNonce: nat)
      modifies this`ledger
      ensures ledger == SubmitAll(old(ledger), candidates, w, accountNonce)
    {
      var nextNonce := accountNonce;
      for i := 0 to |candidates|
        invariant nextNonce == accountNonce + i
        invariant SubmitAll(old(ledger), candidates, w, accountNonce) ==
                  SubmitAll(ledger, candidates[i..], w, nextNonce)
      {
        assert candidates[i..][1..] == candidates[i + 1..];
        var txId := w.submit(nextNonce);
        if txId.None? {
          return;
        }
        ledger := ledger + [Line(candidates[i], w, nextNonce, txId.value)];
        nextNonce := nextNonce + 1;
      }
    }

    method ConfirmEarlier(nonce: nat, now: int) returns (waiting: bool)
      modifies this
      ensures ledger == ConfirmLines(old(ledger), nonce, now)
      ensures peers == ConfirmPeers(old(peers), old(ledger), nonce, now)
      ensures Filed(old(peers)) ==> Filed(peers)
      ensures waiting <==> Waiting(ledger)
    {
      waiting := false;
      ghost var start := ledger;
      for i := 0 to |ledger|
        invariant |ledger| == |start| && waiting == Unsettled(start, nonce, i)
        invariant forall j :: 0 <= j < |start| ==>
                  ledger[j] == if j < i then ConfirmLine(start[j], nonce, now) else start[j]
        invariant peers == ConfirmPeers(old(peers), start[..i], nonce, now)
        invariant Filed(old(peers)) ==> Filed(peers)
      {
        assert start[..i + 1][..i] == start[..i];
        var waits := ConfirmAt(i, nonce, now);
        waiting := waiting || waits;
      }
      assert start[..|start|] == start;
      UnsettledWaits(start, nonce, now);
    }

    method ConfirmAt(i: nat, nonce: nat, now: int) returns (waits: bool)
      requires i < |ledger|
      modifies this
      ensures ledger == old(ledger)[i := ConfirmLine(old(ledger)[i], nonce, now)]
      ensures peers == ConfirmPeer(old(peers), old(ledger)[i], nonce, now)
      ensures Filed(old(peers)) ==> Filed(peers)
      ensures waits == (old(ledger)[i].status != Confirmed && old(ledger)[i].nonce >= nonce)
    {
      var po := ledger[i];
      if po.status == Confirmed {
        return false;
      }
      if po.nonce < nonce {
        ledger := ledger[i := po.(status := Confirmed, confirmedAt := now)];
        if po.nodeId in peers {
          var p := peers[po.nodeId];
          peers := peers[po.nodeId := p.(lastRewardPaidEpoch := po.epoch, lastRewardPaidAt := now,
                                         totalRewardsPaidSYN := Wrap(p.totalRewardsPaidSYN + po.amount),
                                         lastRewardTxHash := po.txId, rewardUptimeAtPaidMS := po.uptimeMS)];
        }
        return false;
      }
      if po.status == Submitted && now - po.submittedAt > StuckAfter {
        ledger := ledger[i := po.(status := Stuck)];
      }
      return true;
    }

    method RewardCandidates(cfg: Config, now: int, epoch: string) returns (out: seq<Candidate>)
      requires Filed(peers)
      ensures out == Candidates(cfg, Value(), now, epoch)
    {
      var spent: nat, paid := 0, {};
      for i := 0 to |ledger|
        invariant spent == Spent(ledger[..i], epoch) && paid == PaidNodes(ledger[..i], epoch)
      {
        assert ledger[..i + 1][..i] == ledger[..i];
        PaidSnoc(ledger[..i + 1], epoch);
        if ledger[i].epoch == epoch {
          spent := spent + ledger[i].amount;
          paid := paid + {ledger[i].nodeId};
        }
      }
      assert ledger[..|ledger|] == ledger;
      NamesStrictTotal(peers);
      var sorted := SortedListing(NameBefore, peers.Values);
      var listed := new Peer[|sorted|](i requires 0 <= i < |sorted| => sorted[i]);
      assert listed[..] == sorted;
      MarkSharedHardware(listed, now);
      out := ChooseCandidates(cfg, listed[..], paid, spent, now, epoch);
    }
  }

  lemma PaidSnoc(ledger: seq<Payout>, epoch: string)
    requires ledger != []
    ensures var n := |ledger| - 1;
            PaidNodes(ledger, epoch) == PaidNodes(ledger[..n], epoch) + (if ledger[n].epoch == epoch
              then {ledger[n].nodeId} else {})
  {
    var n := |ledger| - 1;
    forall x | x in PaidNodes(ledger[..n], epoch) ensures x in PaidNodes(ledger, epoch) {
      var i :| 0 <= i < n && ledger[..n][i].epoch == epoch && ledger[..n][i].nodeId == x;
      assert ledger[i].epoch == epoch && ledger[i].nodeId == x;
    }
    forall x | x in PaidNodes(ledger, epoch)
      ensures x in PaidNodes(ledger[..n], epoch) || (ledger[n].epoch == epoch && ledger[n].nodeId == x)
    {
      var i :| 0 <= i < |ledger| && ledger[i].epoch == epoch && ledger[i].nodeId == x;
      assert i == n || (ledger[..n][i].epoch == epoch && ledger[..n][i].nodeId == x);
    }
  }

  method ChooseCandidates(cfg: Config, peers: seq<Peer>, paid: set<string>, alreadySpent: nat, now: int, epoch: string)
    returns (out: seq<Candidate>)
    ensures out == Choose(cfg, peers, paid, alreadySpent, now, epoch)
  {
    out := [];
    var spent := alreadySpent;
    for i := 0 to |peers|
      invariant Choose(cfg, peers, paid, alreadySpent, now, epoch) ==
                out + Choose(cfg, peers[i..], paid, spent, now, epoch)
    {
      var p := peers[i];
      assert peers[i..][1..] == peers[i + 1..];
      if !Qualifies(cfg, p, now, epoch, p.name in paid) {
        continue;
      }
      var amount := AmountFor(cfg, p);
      if Wrap(spent + amount) > cfg.cap {
        break;
      }
      spent := spent + amount;
      out := out + [Candidate(p.name, cfg.approved[p.name], amount, p.verifiedUptimeMS)];
    }
  }
}
