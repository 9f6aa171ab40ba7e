/**
 What the reward keeper's ledger keeps over every run of cycles, interleaved with anything the rest of
 the registry does to the peer records.
 */
module RewardLedger {
  import opened Common
  import opened Hardware
  import opened RewardKeeper

  // ---------------------------------------------------------------- what a candidate has earned

  /**
   A node on file has earned this month's reward, may have it, and nobody on its machine or in its household
   comes first.
   */
  ghost predicate Deserves(cfg: Config, reg: Registry, n: string, now: int, epoch: string)
  {
    && n in reg.peers && n !in PaidNodes(reg.ledger, epoch)
    && var p := reg.peers[n];
    && !p.hostedProofSession && p.lastNonce != "" && p.validHeartbeats > 0 && !Stale(p, now)
    && !FounderFleet(p) && !(0 < p.registeredAt < ProgramStart) && p.lastRewardPaidEpoch != epoch
    && p.verifiedUptimeMS >= FirstUptime
    && (p.rewardUptimeAtPaidMS > 0 ==> p.verifiedUptimeMS - p.rewardUptimeAtPaidMS >= RepeatUptime)
    && n in cfg.approved && (p.payoutAddress != "" ==> cfg.normalize(p.payoutAddress) == cfg.approved[n])
    && MarkedRight(reg.peers.Values, Machine, now, p, "") && MarkedRight(reg.peers.Values, Household, now, p, "")
  }

  /** The candidate a deserving node makes: the activation reward the first time, the monthly one after. */
  ghost predicate Earned(cfg: Config, reg: Registry, c: Candidate, now: int, epoch: string)
  {
    && Deserves(cfg, reg, c.nodeId, now, epoch)
    && var p := reg.peers[c.nodeId];
    && c.amount == (if p.totalRewardsPaidSYN == 0 && p.rewardUptimeAtPaidMS == 0 then ActivationSYN else cfg.monthly)
    && c.address == cfg.approved[c.nodeId] && c.uptimeMS == p.verifiedUptimeMS
  }

  function Total(cs: seq<Candidate>): nat
  {
    if cs == [] then 0 else cs[0].amount + Total(cs[1..])
  }

  ghost predicate DistinctNodes(cs: seq<Candidate>)
  {
    forall i, j :: 0 <= i < j < |cs| ==> cs[i].nodeId != cs[j].nodeId
  }

  /** `c` was made from the qualifying peer `p`. */
  ghost predicate MadeFrom(cfg: Config, p: Peer, paid: set<string>, now: int, epoch: string, c: Candidate)
  {
    && Qualifies(cfg, p, now, epoch, p.name in paid)
    && c == Candidate(p.name, cfg.approved[p.name], AmountFor(cfg, p), p.verifiedUptimeMS)
  }

  ghost predicate Drawn(cfg: Config, peers: seq<Peer>, paid: set<string>, now: int, epoch: string, c: Candidate)
  {
    exists i :: 0 <= i < |peers| && MadeFrom(cfg, peers[i], paid, now, epoch, c)
  }

  ghost predicate AllDrawn(cfg: Config, peers: seq<Peer>, paid: set<string>, now: int, epoch: string,
                           cs: seq<Candidate>)
  {
    forall k :: 0 <= k < |cs| ==> Drawn(cfg, peers, paid, now, epoch, cs[k])
  }

  lemma DrawnFromTail(cfg: Config, peers: seq<Peer>, paid: set<string>, now: int, epoch: string, cs: seq<Candidate>)
    requires peers != [] && DistinctNames(peers) && AllDrawn(cfg, peers[1..], paid, now, epoch, cs)
    ensures AllDrawn(cfg, peers, paid, now, epoch, cs) && forall k :: 0 <= k < |cs| ==> cs[k].nodeId != peers[0].name
  {
    forall k | 0 <= k < |cs| ensures Drawn(cfg, peers, paid, now, epoch, cs[k]) && cs[k].nodeId != peers[0].name {
      var i :| 0 <= i < |peers[1..]| && MadeFrom(cfg, peers[1..][i], paid, now, epoch, cs[k]);
      assert peers[i + 1] == peers[1..][i];
    }
  }

  lemma DrawnCons(cfg: Config, peers: seq<Peer>, paid: set<string>, now: int, epoch: string, c: Candidate,
                  cs: seq<Candidate>)
    requires peers != [] && MadeFrom(cfg, peers[0], paid, now, epoch, c)
    requires DistinctNodes(cs) && AllDrawn(cfg, peers, paid, now, epoch, cs)
    requires forall k :: 0 <= k < |cs| ==> cs[k].nodeId != peers[0].name
    ensures DistinctNodes([c] + cs) && AllDrawn(cfg, peers, paid, now, epoch, [c] + cs)
  {
  }

  /** Candidates come from qualifying peers, each node at most once. */
  lemma {:induction false} ChosenAreDrawn(cfg: Config, peers: seq<Peer>, paid: set<string>, spent: nat, now: int,
                                          epoch: string)
    requires DistinctNames(peers)
    ensures var cs := Choose(cfg, peers, paid, spent, now, epoch);
            DistinctNodes(cs) && AllDrawn(cfg, peers, paid, now, epoch, cs)
    decreases |peers|
  {
    if peers != [] {
      var p := peers[0];
      if !Qualifies(cfg, p, now, epoch, p.name in paid) {
        ChosenAreDrawn(cfg, peers[1..], paid, spent, now, epoch);
        DrawnFromTail(cfg, peers, paid, now, epoch, Choose(cfg, peers[1..], paid, spent, now, epoch));
      } else {
        var first, tail := Candidate(p.name, cfg.approved[p.name], AmountFor(cfg, p), p.verifiedUptimeMS),
                           Choose(cfg, peers[1..], paid, spent + AmountFor(cfg, p), now, epoch);
        ChosenAreDrawn(cfg, peers[1..], paid, spent + AmountFor(cfg, p), now, epoch);
        DrawnFromTail(cfg, peers, paid, now, epoch, tail);
        DrawnCons(cfg, peers, paid, now, epoch, first, tail);
      }
    }
  }

  /** The walk stays within the cap as long as no uint64 sum on the way wraps. */
  lemma {:induction false} ChosenWithinCap(cfg: Config, peers: seq<Peer>, paid: set<string>, spent: nat, now: int,
                                           epoch: string, cap: nat)
    requires spent <= cap && cfg.cap <= cap && cap + Max(ActivationSYN, cfg.monthly) < U64
    ensures spent + Total(Choose(cfg, peers, paid, spent, now, epoch)) <= cap
    decreases |peers|
  {
    if peers != [] {
      var p := peers[0];
      if !Qualifies(cfg, p, now, epoch, p.name in paid) {
        ChosenWithinCap(cfg, peers[1..], paid, spent, now, epoch, cap);
      } else if spent + AmountFor(cfg, p) <= cfg.cap {
        ChosenWithinCap(cfg, peers[1..], paid, spent + AmountFor(cfg, p), now, epoch, cap);
        var tail := Choose(cfg, peers[1..], paid, spent + AmountFor(cfg, p), now, epoch);
        var c := Candidate(p.name, cfg.approved[p.name], AmountFor(cfg, p), p.verifiedUptimeMS);
        assert ([c] + tail)[1..] == tail;
      }
    }
  }

  /** Somewhere on its way the walk adds a reward to the month's spending and the uint64 sum wraps. */
  predicate WalkWraps(cfg: Config, peers: seq<Peer>, paid: set<string>, spent: nat, now: int, epoch: string)
    decreases |peers|
  {
    peers != [] &&
    var p, sum := peers[0], spent + AmountFor(cfg, peers[0]);
    if !Qualifies(cfg, p, now, epoch, p.name in paid) then WalkWraps(cfg, peers[1..], paid, spent, now, epoch)
    else sum >= U64 || (sum <= cfg.cap && WalkWraps(cfg, peers[1..], paid, sum, now, epoch))
  }

  /** A month is paid past its cap exactly when a sum on the walk wraps. */
  lemma {:induction false} OverspendsExactlyOnWrap(cfg: Config, peers: seq<Peer>, paid: set<string>, spent: nat,
                                                   now: int, epoch: string)
    requires spent <= cfg.cap < U64 && cfg.monthly < U64
    ensures spent + Total(Choose(cfg, peers, paid, spent, now, epoch)) > cfg.cap <==>
            WalkWraps(cfg, peers, paid, spent, now, epoch)
    decreases |peers|
  {
    if peers != [] {
      var p, amount := peers[0], AmountFor(cfg, peers[0]);
      if !Qualifies(cfg, p, now, epoch, p.name in paid) {
        OverspendsExactlyOnWrap(cfg, peers[1..], paid, spent, now, epoch);
      } else {
        ChosenFirst(cfg, peers, paid, spent, now, epoch);
        if spent + amount >= U64 {
          assert Wrap(spent + amount) == spent + amount - U64;
        } else if spent + amount <= cfg.cap {
          OverspendsExactlyOnWrap(cfg, peers[1..], paid, spent + amount, now, epoch);
        }
      }
    }
  }

  lemma ChosenFirst(cfg: Config, peers: seq<Peer>, paid: set<string>, spent: nat, now: int, epoch: string)
    requires peers != [] && Qualifies(cfg, peers[0], now, epoch, peers[0].name in paid)
    ensures var sum := spent + AmountFor(cfg, peers[0]);
            Total(Choose(cfg, peers, paid, spent, now, epoch)) ==
            if Wrap(sum) > cfg.cap then 0
            else AmountFor(cfg, peers[0]) + Total(Choose(cfg, peers[1..], paid, sum, now, epoch))
  {
    var p, amount := peers[0], AmountFor(cfg, peers[0]);
    var tail := Choose(cfg, peers[1..], paid, spent + amount, now, epoch);
    var c := Candidate(p.name, cfg.approved[p.name], amount, p.verifiedUptimeMS);
    assert ([c] + tail)[1..] == tail;
  }

  /** A cap meant as none: the next activation reward wraps the month's sum, and is paid past the cap. */
  lemma UnlimitedCapOverspends()
    ensures var cfg := Config(true, U64 - 1, map["n" := "a"], 0, (s: string) => s);
            var p := Peer("n", "", "", "", 0, 1, 0, 1, FirstUptime, "x", false, "", "", "", "", 0, 0, "", 0);
            cfg.cap - 1 + Total(Choose(cfg, [p], {}, cfg.cap - 1, 1, "2026-01")) > cfg.cap
  {
    var cfg := Config(true, U64 - 1, map["n" := "a"], 0, (s: string) => s);
    var p := Peer("n", "", "", "", 0, 1, 0, 1, FirstUptime, "x", false, "", "", "", "", 0, 0, "", 0);
    StartsExactly(Lower(p.name), FleetPrefixes);
    assert |Lower(p.name)| == 1 && forall i :: 0 <= i < |FleetPrefixes| ==> |FleetPrefixes[i]| > 1;
    assert Qualifies(cfg, p, 1, "2026-01", false);
    OverspendsExactlyOnWrap(cfg, [p], {}, cfg.cap - 1, 1, "2026-01");
  }

  lemma SortedPeersListed(peers: map<string, Peer>)
    requires Filed(peers)
    ensures DistinctNames(SortedPeers(peers)) && Elements(SortedPeers(peers)) == peers.Values
    ensures forall i :: 0 <= i < |SortedPeers(peers)| ==> OnFile(peers, SortedPeers(peers)[i])
  {
    NamesStrictTotal(peers);
    ListOfLists(peers.Values);
    SortedListingUnique(NameBefore, ListOf(peers.Values), peers.Values);
    ListingNamesOnce(peers, SortedPeers(peers));
  }

  ghost predicate OnFile(peers: map<string, Peer>, p: Peer) { p.name in peers && peers[p.name] == p }

  /** Any listing of the records names every node once. */
  lemma ListingNamesOnce(peers: map<string, Peer>, ps: seq<Peer>)
    requires Filed(peers) && multiset(ps) == multiset(peers.Values)
    ensures DistinctNames(ps) && Elements(ps) == peers.Values
    ensures forall i :: 0 <= i < |ps| ==> OnFile(peers, ps[i])
  {
    forall i | 0 <= i < |ps| ensures ps[i] in peers.Values { assert ps[i] in multiset(peers.Values); }
    forall p | p in peers.Values ensures p in Elements(ps) {
      assert p in multiset(ps);
      var i :| 0 <= i < |ps| && ps[i] == p;
    }
    forall i, j | 0 <= i < j < |ps| ensures ps[i].name != ps[j].name {
      NoRepeats(ps, peers.Values, i, j);
    }
  }

  lemma NoRepeats<T>(s: seq<T>, dom: set<T>, i: nat, j: nat)
    requires multiset(s) == multiset(dom) && i < j < |s|
    ensures s[i] != s[j]
  {
    var x := s[j];
    assert s == s[..j] + s[j..] && s[j..][0] == x;
    assert multiset(s)[x] == multiset(s[..j])[x] + multiset(s[j..])[x];
    assert x in multiset(s[j..]) && multiset(dom)[x] <= 1;
    assert s[..j][i] == s[i] && s[i] in multiset(s[..j]);
  }

  lemma NamedApart(peers: map<string, Peer>)
    requires Filed(peers)
    ensures forall a <- peers.Values, b <- peers.Values :: a.name == b.name ==> a == b
  {
  }

  /** Every candidate has earned its reward, and no node is a candidate twice. */
  lemma CandidatesEarned(cfg: Config, reg: Registry, now: int, epoch: string)
    requires Filed(reg.peers)
    ensures var cs := Candidates(cfg, reg, now, epoch);
            DistinctNodes(cs) && forall k :: 0 <= k < |cs| ==> Earned(cfg, reg, cs[k], now, epoch)
  {
    var cs := Candidates(cfg, reg, now, epoch);
    var ps := SortedPeers(reg.peers);
    SortedPeersListed(reg.peers);
    forall i | 0 <= i < |ps| ensures Marked(ps, now)[i].name == ps[i].name {}
    ChosenAreDrawn(cfg, Marked(ps, now), PaidNodes(reg.ledger, epoch), Spent(reg.ledger, epoch), now, epoch);
    forall k | 0 <= k < |cs| ensures Earned(cfg, reg, cs[k], now, epoch) {
      assert Drawn(cfg, Marked(ps, now), PaidNodes(reg.ledger, epoch), now, epoch, cs[k]);
      var i :| 0 <= i < |ps| && MadeFrom(cfg, Marked(ps, now)[i], PaidNodes(reg.ledger, epoch), now, epoch, cs[k]);
      MarkedIsRight(ps, now, i);
      assert OnFile(reg.peers, ps[i]);
    }
  }

  /** One machine, one household: no two candidates of a cycle share a commitment or a household address. */
  lemma OnePerMachine(cfg: Config, reg: Registry, now: int, epoch: string, kind: Kind, i: nat, j: nat)
    requires Filed(reg.peers) && i < j < |Candidates(cfg, reg, now, epoch)|
    ensures var cs := Candidates(cfg, reg, now, epoch);
            && cs[i].nodeId in reg.peers && cs[j].nodeId in reg.peers
            && var a, b := reg.peers[cs[i].nodeId], reg.peers[cs[j].nodeId];
            a != b && !(Key(kind, now, a).Some? && Key(kind, now, a) == Key(kind, now, b))
  {
    var cs := Candidates(cfg, reg, now, epoch);
    CandidatesEarned(cfg, reg, now, epoch);
    assert Earned(cfg, reg, cs[i], now, epoch) && Earned(cfg, reg, cs[j], now, epoch);
    var a, b := reg.peers[cs[i].nodeId], reg.peers[cs[j].nodeId];
    assert a.name != b.name;
    NamedApart(reg.peers);
    OneUnmarked(reg.peers.Values, kind, now, a, b);
  }

  // ---------------------------------------------------------------- the ledger's invariant

  /** At most one line per node and month. */
  ghost predicate OneEach(ledger: seq<Payout>)
  {
    forall i, j :: 0 <= i < j < |ledger| ==>
           !(ledger[i].nodeId == ledger[j].nodeId && ledger[i].epoch == ledger[j].epoch)
  }

  ghost predicate NoncesRise(ledger: seq<Payout>)
  {
    forall i, j :: 0 <= i < j < |ledger| ==> ledger[i].nonce < ledger[j].nonce
  }

  ghost predicate WithinCap(ledger: seq<Payout>, cap: nat)
  {
    forall e :: Spent(ledger, e) <= cap
  }

  /** Two lines of a node whose record was kept are at least 27 days of verified uptime apart. */
  ghost predicate Spaced(ledger: seq<Payout>, kept: set<string>)
  {
    && (forall i :: 0 <= i < |ledger| ==> ledger[i].uptimeMS >= FirstUptime)
    && forall i, j :: 0 <= i < j < |ledger| && ledger[i].nodeId == ledger[j].nodeId && ledger[i].nodeId in kept ==>
         ledger[j].uptimeMS - ledger[i].uptimeMS >= RepeatUptime
  }

  /** Only the first line of a kept record can exceed the recurring reward, as the activation reward does. */
  ghost predicate ActivatedOnce(ledger: seq<Payout>, monthly: nat, kept: set<string>)
  {
    forall i, j :: 0 <= i < j < |ledger| && ledger[i].nodeId == ledger[j].nodeId && ledger[i].nodeId in kept ==>
      ledger[j].amount <= monthly
  }

  /** A line is confirmed exactly when the wallet was seen past its nonce. */
  ghost predicate Settled(ledger: seq<Payout>, seen: nat)
  {
    forall i :: 0 <= i < |ledger| ==> (ledger[i].status == Confirmed <==> ledger[i].nonce < seen)
  }

  /** The kept records still hold the uptime of the last confirmed line. */
  ghost predicate Remembered(ledger: seq<Payout>, peers: map<string, Peer>, kept: set<string>)
  {
    forall i :: 0 <= i < |ledger| && ledger[i].nodeId in kept ==>
      && ledger[i].nodeId in peers
      && (ledger[i].status == Confirmed ==> peers[ledger[i].nodeId].rewardUptimeAtPaidMS >= ledger[i].uptimeMS)
  }

  /** The largest monthly cap and the largest recurring reward of a run, and the nodes whose records are kept. */
  datatype Terms = Terms(cap: nat, monthly: nat, kept: set<string>)

  ghost predicate LinesOk(ledger: seq<Payout>, t: Terms)
  {
    && OneEach(ledger) && NoncesRise(ledger) && WithinCap(ledger, t.cap)
    && Spaced(ledger, t.kept) && ActivatedOnce(ledger, t.monthly, t.kept)
  }

  ghost predicate LedgerOk(reg: Registry, seen: nat, t: Terms)
  {
    Filed(reg.peers) && LinesOk(reg.ledger, t) && Settled(reg.ledger, seen) && Remembered(reg.ledger, reg.peers, t.kept)
  }

  // ---------------------------------------------------------------- confirming

  /** Confirming changes statuses only. */
  ghost predicate SameLines(a: seq<Payout>, b: seq<Payout>)
  {
    |a| == |b| && forall i :: 0 <= i < |a| ==>
      && a[i].nodeId == b[i].nodeId && a[i].epoch == b[i].epoch && a[i].nonce == b[i].nonce
      && a[i].amount == b[i].amount && a[i].uptimeMS == b[i].uptimeMS
  }

  lemma {:induction false} SameSpent(a: seq<Payout>, b: seq<Payout>, epoch: string)
    requires SameLines(a, b)
    ensures Spent(a, epoch) == Spent(b, epoch)
  {
    if a != [] { SameSpent(a[..|a| - 1], b[..|b| - 1], epoch); }
  }

  lemma SameLinesOk(a: seq<Payout>, b: seq<Payout>, t: Terms)
    requires SameLines(a, b) && LinesOk(a, t)
    ensures LinesOk(b, t)
  {
    forall e ensures Spent(b, e) <= t.cap { SameSpent(a, b, e); }
  }

  /**
   The record of a kept node, after the first `n` lines were looked at, holds the uptime of its last
   confirmed line.
   */
  ghost predicate RememberedUpTo(ledger: seq<Payout>, peers: map<string, Peer>, kept: set<string>, nonce: nat, n: nat)
  {
    forall i :: 0 <= i < |ledger| && ledger[i].nodeId in kept ==>
      && ledger[i].nodeId in peers
      && (ledger[i].status == Confirmed || (i < n && ledger[i].nonce < nonce) ==>
            peers[ledger[i].nodeId].rewardUptimeAtPaidMS >= ledger[i].uptimeMS)
  }

  lemma ConfirmPeerRemembers(ledger: seq<Payout>, peers: map<string, Peer>, kept: set<string>, seen: nat, nonce: nat,
                             now: int, n: nat)
    requires n < |ledger| && NoncesRise(ledger) && Spaced(ledger, kept) && Settled(ledger, seen)
    requires Filed(peers) && RememberedUpTo(ledger, peers, kept, nonce, n)
    ensures Filed(ConfirmPeer(peers, ledger[n], nonce, now))
    ensures RememberedUpTo(ledger, ConfirmPeer(peers, ledger[n], nonce, now), kept, nonce, n + 1)
  {
    var next := ConfirmPeer(peers, ledger[n], nonce, now);
    forall i | 0 <= i < |ledger| && ledger[i].nodeId in kept
      ensures ledger[i].nodeId in next
      ensures ledger[i].status == Confirmed || (i < n + 1 && ledger[i].nonce < nonce) ==>
                next[ledger[i].nodeId].rewardUptimeAtPaidMS >= ledger[i].uptimeMS
    {
      if i > n { assert ledger[n].nonce < ledger[i].nonce; }
    }
  }

  lemma {:induction false} ConfirmPeersRemember(ledger: seq<Payout>, peers: map<string, Peer>, kept: set<string>,
                                                seen: nat, nonce: nat, now: int, n: nat)
    requires n <= |ledger| && NoncesRise(ledger) && Spaced(ledger, kept) && Settled(ledger, seen)
    requires Filed(peers) && Remembered(ledger, peers, kept)
    ensures Filed(ConfirmPeers(peers, ledger[..n], nonce, now))
    ensures RememberedUpTo(ledger, ConfirmPeers(peers, ledger[..n], nonce, now), kept, nonce, n)
  {
    if n > 0 {
      ConfirmPeersRemember(ledger, peers, kept, seen, nonce, now, n - 1);
      assert ledger[..n][..n - 1] == ledger[..n - 1];
      ConfirmPeerRemembers(ledger, ConfirmPeers(peers, ledger[..n - 1], nonce, now), kept, seen, nonce, now, n - 1);
    }
  }

  function AfterConfirm(reg: Registry, nonce: nat, now: int): Registry
  {
    Registry(ConfirmLines(reg.ledger, nonce, now), ConfirmPeers(reg.peers, reg.ledger, nonce, now))
  }

  lemma ConfirmKeeps(reg: Registry, seen: nat, nonce: nat, now: int, t: Terms)
    requires LedgerOk(reg, seen, t) && seen <= nonce
    ensures LedgerOk(AfterConfirm(reg, nonce, now), nonce, t)
  {
    var ledger := ConfirmLines(reg.ledger, nonce, now);
    assert SameLines(reg.ledger, ledger);
    SameLinesOk(reg.ledger, ledger, t);
    ConfirmPeersRemember(reg.ledger, reg.peers, t.kept, seen, nonce, now, |reg.ledger|);
    assert reg.ledger[..|reg.ledger|] == reg.ledger;
  }

  // ---------------------------------------------------------------- submitting

  /** The candidate may be appended to the ledger now, or after other nodes' lines. */
  ghost predicate MayFollow(ledger: seq<Payout>, c: Candidate, epoch: string, t: Terms)
  {
    && c.uptimeMS >= FirstUptime
    && forall i :: 0 <= i < |ledger| && ledger[i].nodeId == c.nodeId ==>
         && ledger[i].epoch != epoch
         && (c.nodeId in t.kept ==> c.uptimeMS - ledger[i].uptimeMS >= RepeatUptime && c.amount <= t.monthly)
  }

  lemma SpentSnoc(ledger: seq<Payout>, po: Payout, epoch: string)
    ensures Spent(ledger + [po], epoch) == Spent(ledger, epoch) + if po.epoch == epoch then po.amount else 0
  {
    assert (ledger + [po])[..|ledger|] == ledger;
  }

  lemma AppendKeeps(ledger: seq<Payout>, c: Candidate, w: World, nonce: nat, txId: string, t: Terms)
    requires LinesOk(ledger, t) && MayFollow(ledger, c, w.epoch, t)
    requires Spent(ledger, w.epoch) + c.amount <= t.cap && (forall i :: 0 <= i < |ledger| ==> ledger[i].nonce < nonce)
    ensures var next := ledger + [Line(c, w, nonce, txId)];
            LinesOk(next, t) && Spent(next, w.epoch) == Spent(ledger, w.epoch) + c.amount
  {
    var line := Line(c, w, nonce, txId);
    SpentSnoc(ledger, line, w.epoch);
    AppendWithinCap(ledger, line, t.cap);
    AppendApart(ledger, line, t);
  }

  lemma AppendWithinCap(ledger: seq<Payout>, po: Payout, cap: nat)
    requires WithinCap(ledger, cap) && Spent(ledger, po.epoch) + po.amount <= cap
    ensures WithinCap(ledger + [po], cap)
  {
    forall e ensures Spent(ledger + [po], e) <= cap { SpentSnoc(ledger, po, e); }
  }

  lemma AppendApart(ledger: seq<Payout>, po: Payout, t: Terms)
    requires OneEach(ledger) && NoncesRise(ledger) && Spaced(ledger, t.kept) && ActivatedOnce(ledger, t.monthly, t.kept)
    requires po.uptimeMS >= FirstUptime
    requires forall i :: 0 <= i < |ledger| ==> ledger[i].nonce < po.nonce
    requires forall i :: 0 <= i < |ledger| && ledger[i].nodeId == po.nodeId ==>
               && ledger[i].epoch != po.epoch
               && (po.nodeId in t.kept ==> po.uptimeMS - ledger[i].uptimeMS >= RepeatUptime && po.amount <= t.monthly)
    ensures OneEach(ledger + [po]) && NoncesRise(ledger + [po])
    ensures Spaced(ledger + [po], t.kept) && ActivatedOnce(ledger + [po], t.monthly, t.kept)
  {
  }

  lemma OthersMayFollow(ledger: seq<Payout>, cs: seq<Candidate>, po: Payout, epoch: string, t: Terms)
    requires cs != [] && DistinctNodes(cs) && po.nodeId == cs[0].nodeId
    requires forall k :: 0 <= k < |cs| ==> MayFollow(ledger, cs[k], epoch, t)
    ensures forall k :: 0 <= k < |cs[1..]| ==> MayFollow(ledger + [po], cs[1..][k], epoch, t)
  {
    forall k | 0 <= k < |cs[1..]| ensures MayFollow(ledger + [po], cs[1..][k], epoch, t) {
      assert cs[1..][k] == cs[k + 1];
      assert MayFollow(ledger, cs[k + 1], epoch, t);
    }
  }

  lemma {:induction false} SubmitKeeps(ledger: seq<Payout>, cs: seq<Candidate>, w: World, nonce: nat, t: Terms)
    requires LinesOk(ledger, t) && DistinctNodes(cs)
    requires forall k :: 0 <= k < |cs| ==> MayFollow(ledger, cs[k], w.epoch, t)
    requires Spent(ledger, w.epoch) + Total(cs) <= t.cap && (forall i :: 0 <= i < |ledger| ==> ledger[i].nonce < nonce)
    ensures LinesOk(SubmitAll(ledger, cs, w, nonce), t)
    decreases |cs|
  {
    if cs != [] && w.submit(nonce).Some? {
      var txId := w.submit(nonce).value;
      AppendKeeps(ledger, cs[0], w, nonce, txId, t);
      var next := ledger + [Line(cs[0], w, nonce, txId)];
      OthersMayFollow(ledger, cs, next[|ledger|], w.epoch, t);
      SubmitKeeps(next, cs[1..], w, nonce + 1, t);
    }
  }

  /** Line `i` records the transfer for `c`, accepted under `nonce`. */
  ghost predicate Recorded(ledger: seq<Payout>, i: nat, c: Candidate, w: World, nonce: nat)
  {
    w.submit(nonce).Some? && i < |ledger| && ledger[i] == Line(c, w, nonce, w.submit(nonce).value)
  }

  /** Submitting appends one line per accepted transfer, with consecutive nonces and nothing left out. */
  lemma {:induction false} SubmitAppends(ledger: seq<Payout>, cs: seq<Candidate>, w: World, nonce: nat) returns (m: nat)
    ensures var out := SubmitAll(ledger, cs, w, nonce);
            && m <= |cs| && |out| == |ledger| + m && out[..|ledger|] == ledger
            && (m < |cs| ==> w.submit(nonce + m).None?)
            && forall k :: 0 <= k < m ==> Recorded(out, |ledger| + k, cs[k], w, nonce + k)
    decreases |cs|
  {
    m := 0;
    if cs != [] && w.submit(nonce).Some? {
      var line := Line(cs[0], w, nonce, w.submit(nonce).value);
      var rest := SubmitAppends(ledger + [line], cs[1..], w, nonce + 1);
      m := rest + 1;
      var out := SubmitAll(ledger, cs, w, nonce);
      assert out[..|ledger| + 1] == ledger + [line];
      assert out[..|ledger|] == out[..|ledger| + 1][..|ledger|];
      forall k | 0 <= k < m
        ensures Recorded(out, |ledger| + k, cs[k], w, nonce + k)
      {
        if k == 0 {
          assert out[|ledger|] == out[..|ledger| + 1][|ledger|];
        } else {
          assert cs[1..][k - 1] == cs[k];
          assert Recorded(out, |ledger + [line]| + (k - 1), cs[1..][k - 1], w, nonce + 1 + (k - 1));
        }
      }
    }
  }

  /** Nothing is submitted while any line is unconfirmed. */
  lemma SubmitsOnlyWhenSettled(cfg: Config, reg: Registry, w: World)
    ensures var next := Cycle(cfg, reg, w);
            && |reg.ledger| <= |next.ledger|
            && (|reg.ledger| < |next.ledger| ==>
                  forall i :: 0 <= i < |reg.ledger| ==>
                    next.ledger[i].status == Confirmed &&
                      (reg.ledger[i].status == Confirmed || reg.ledger[i].nonce < w.nonce.value))
  {
    if cfg.enabled && w.nonce.Some? {
      var mid, next := AfterConfirm(reg, w.nonce.value, w.now), Cycle(cfg, reg, w);
      if Waiting(mid.ledger) {
        assert next == mid;
      } else {
        var cs := Candidates(cfg, mid, w.now, w.epoch);
        var m := SubmitAppends(mid.ledger, cs, w, w.nonce.value);
        assert next.ledger[..|mid.ledger|] == mid.ledger;
        forall i | 0 <= i < |reg.ledger|
          ensures next.ledger[i].status == Confirmed &&
                  (reg.ledger[i].status == Confirmed || reg.ledger[i].nonce < w.nonce.value)
        {
          assert next.ledger[i] == next.ledger[..|mid.ledger|][i];
          assert mid.ledger[i].status == Confirmed;
        }
      }
    } else {
      assert Cycle(cfg, reg, w) == reg;
    }
  }

  lemma CandidatesMayFollow(cfg: Config, reg: Registry, seen: nat, now: int, epoch: string, t: Terms)
    requires LedgerOk(reg, seen, t) && !Waiting(reg.ledger) && cfg.monthly <= t.monthly
    ensures var cs := Candidates(cfg, reg, now, epoch);
            DistinctNodes(cs) && forall k :: 0 <= k < |cs| ==>
              MayFollow(reg.ledger, cs[k], epoch, t) && cs[k].nodeId in reg.peers
  {
    var cs := Candidates(cfg, reg, now, epoch);
    CandidatesEarned(cfg, reg, now, epoch);
    forall k | 0 <= k < |cs| ensures MayFollow(reg.ledger, cs[k], epoch, t) && cs[k].nodeId in reg.peers {
      assert Earned(cfg, reg, cs[k], now, epoch);
      forall i | 0 <= i < |reg.ledger| && reg.ledger[i].nodeId == cs[k].nodeId
        ensures reg.ledger[i].epoch != epoch
        ensures cs[k].nodeId in t.kept ==>
                cs[k].uptimeMS - reg.ledger[i].uptimeMS >= RepeatUptime && cs[k].amount <= t.monthly
      {
        assert reg.ledger[i].status == Confirmed;
      }
    }
  }

  lemma SubmissionKeeps(cfg: Config, reg: Registry, w: World, nonce: nat, t: Terms)
    requires LedgerOk(reg, nonce, t) && !Waiting(reg.ledger)
    requires cfg.monthly <= t.monthly && cfg.cap <= t.cap && t.cap + Max(ActivationSYN, cfg.monthly) < U64
    ensures LedgerOk(reg.(ledger := SubmitAll(reg.ledger, Candidates(cfg, reg, w.now, w.epoch), w, nonce)), nonce, t)
  {
    var cs := Candidates(cfg, reg, w.now, w.epoch);
    CandidatesMayFollow(cfg, reg, nonce, w.now, w.epoch, t);
    SomeRoom(cfg, reg, w.now, w.epoch, t.cap);
    forall i | 0 <= i < |reg.ledger| ensures reg.ledger[i].nonce < nonce { assert reg.ledger[i].status == Confirmed; }
    SubmitKeeps(reg.ledger, cs, w, nonce, t);
    SubmittedUnconfirmed(reg, cs, w, nonce, t.kept);
  }

  /** New lines are unconfirmed and belong to nodes still on file. */
  lemma SubmittedUnconfirmed(reg: Registry, cs: seq<Candidate>, w: World, nonce: nat, kept: set<string>)
    requires Settled(reg.ledger, nonce) && Remembered(reg.ledger, reg.peers, kept)
    requires forall k :: 0 <= k < |cs| ==> cs[k].nodeId in reg.peers
    ensures var out := SubmitAll(reg.ledger, cs, w, nonce); Settled(out, nonce) && Remembered(out, reg.peers, kept)
  {
    var out := SubmitAll(reg.ledger, cs, w, nonce);
    var m := SubmitAppends(reg.ledger, cs, w, nonce);
    forall i | 0 <= i < |out|
      ensures out[i].status == Confirmed <==> out[i].nonce < nonce
      ensures i < |reg.ledger| ==> out[i] == reg.ledger[i]
      ensures i >= |reg.ledger| ==> out[i].nodeId in reg.peers && out[i].status != Confirmed
    {
      if i < |reg.ledger| {
        assert out[i] == out[..|reg.ledger|][i];
      } else {
        var k := i - |reg.ledger|;
        assert Recorded(out, |reg.ledger| + k, cs[k], w, nonce + k);
      }
    }
  }

  /** A month already past a lowered cap gets no candidates; otherwise the cap holds for all of them together. */
  lemma SomeRoom(cfg: Config, reg: Registry, now: int, epoch: string, cap: nat)
    requires Spent(reg.ledger, epoch) <= cap && cfg.cap <= cap && cap + Max(ActivationSYN, cfg.monthly) < U64
    ensures Spent(reg.ledger, epoch) + Total(Candidates(cfg, reg, now, epoch)) <= cap
  {
    ChosenWithinCap(cfg, Marked(SortedPeers(reg.peers), now), PaidNodes(reg.ledger, epoch), Spent(reg.ledger, epoch),
      now, epoch, cap);
  }

  // ---------------------------------------------------------------- whole runs

  /** One step of the registry: a keeper cycle, or anything that rewrites the peer records. */
  datatype Event = KeeperCycle(cfg: Config, w: World) | PeersChange(peers: map<string, Peer>)

  ghost function After(reg: Registry, e: Event): Registry
  {
    match e
    case KeeperCycle(cfg, w) => Cycle(cfg, reg, w)
    case PeersChange(peers) => reg.(peers := peers)
  }

  function Seen(seen: nat, e: Event): nat
  {
    if e.KeeperCycle? && e.cfg.enabled && e.w.nonce.Some? then e.w.nonce.value else seen
  }

  /**
   The wallet's nonce never goes back and no cycle's cap or monthly reward exceeds the terms'; a peer
   change files records under their names and leaves the paid-uptime field of kept records alone.
   */
  ghost predicate Allowed(reg: Registry, seen: nat, e: Event, t: Terms)
  {
    match e
    case KeeperCycle(cfg, w) =>
      seen <= Seen(seen, e) && cfg.monthly <= t.monthly && cfg.cap <= t.cap &&
        t.cap + Max(ActivationSYN, cfg.monthly) < U64
    case PeersChange(peers) =>
      && Filed(peers)
      && forall n <- t.kept :: n in reg.peers ==>
           n in peers && peers[n].rewardUptimeAtPaidMS == reg.peers[n].rewardUptimeAtPaidMS
  }

  ghost function Run(reg: Registry, es: seq<Event>): Registry
  {
    if es == [] then reg else After(Run(reg, es[..|es| - 1]), es[|es| - 1])
  }

  ghost function SeenAfter(seen: nat, es: seq<Event>): nat
  {
    if es == [] then seen else Seen(SeenAfter(seen, es[..|es| - 1]), es[|es| - 1])
  }

  ghost predicate AllAllowed(reg: Registry, seen: nat, es: seq<Event>, t: Terms)
  {
    es != [] ==>
      var before := es[..|es| - 1];
      && AllAllowed(reg, seen, before, t)
      && Allowed(Run(reg, before), SeenAfter(seen, before), es[|es| - 1], t)
  }

  lemma StepKeeps(reg: Registry, seen: nat, e: Event, t: Terms)
    requires LedgerOk(reg, seen, t) && Allowed(reg, seen, e, t)
    ensures LedgerOk(After(reg, e), Seen(seen, e), t)
  {
    if e.KeeperCycle? && e.cfg.enabled && e.w.nonce.Some? {
      var nonce := e.w.nonce.value;
      ConfirmKeeps(reg, seen, nonce, e.w.now, t);
      var mid := AfterConfirm(reg, nonce, e.w.now);
      if !Waiting(mid.ledger) { SubmissionKeeps(e.cfg, mid, e.w, nonce, t); }
    }
  }

  /**
   From an empty ledger, whatever happens: at most one line per node and month, each month within the
   cap, nonces strictly rising, and for a record that is kept 27 days of verified uptime between two
   lines, of which only the first can exceed the monthly reward.
   */
  lemma {:induction false} RunKeepsLedger(peers: map<string, Peer>, seen: nat, es: seq<Event>, t: Terms)
    requires Filed(peers) && AllAllowed(Registry([], peers), seen, es, t)
    ensures LedgerOk(Run(Registry([], peers), es), SeenAfter(seen, es), t)
  {
    if es != [] {
      var before := es[..|es| - 1];
      RunKeepsLedger(peers, seen, before, t);
      StepKeeps(Run(Registry([], peers), before), SeenAfter(seen, before), es[|es| - 1], t);
    }
  }
}
