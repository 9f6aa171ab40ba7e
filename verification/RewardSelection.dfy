/**
 Who is paid in a cycle, exactly: the deserving nodes in name order, as many as the cap allows -- and what
 confirming a payout writes down about it.
 */
module RewardSelection {
  import opened Common
  import opened Hardware
  import opened RewardKeeper
  import opened RewardLedger

  // ---------------------------------------------------------------- the walk

  function CandidateOf(cfg: Config, p: Peer): Candidate
    requires p.name in cfg.approved
  {
    Candidate(p.name, cfg.approved[p.name], AmountFor(cfg, p), p.verifiedUptimeMS)
  }

  /** The candidates of a list of peers if there were no cap. */
  function Qualifying(cfg: Config, peers: seq<Peer>, paid: set<string>, now: int, epoch: string): seq<Candidate>
  {
    if peers == [] then [] else
    var p, rest := peers[0], Qualifying(cfg, peers[1..], paid, now, epoch);
    if Qualifies(cfg, p, now, epoch, p.name in paid) then [CandidateOf(cfg, p)] + rest else rest
  }

  /** What the first `k` together amount to. */
  function FirstTotal(q: seq<Candidate>, k: nat): nat
    requires k <= |q|
  {
    Total(q[..k])
  }

  /** The first `m` fit under the cap one by one, and the next one, if there is one, does not. */
  ghost predicate FitsUpTo(cfg: Config, q: seq<Candidate>, spent: nat, m: nat)
    requires m <= |q|
  {
    && (forall k :: 1 <= k <= m ==> Wrap(spent + FirstTotal(q, k)) <= cfg.cap)
    && (m < |q| ==> Wrap(spent + FirstTotal(q, m + 1)) > cfg.cap)
  }

  lemma FirstTotalCons(c: Candidate, q: seq<Candidate>, k: nat)
    requires k <= |q|
    ensures FirstTotal([c] + q, k + 1) == c.amount + FirstTotal(q, k)
  {
    assert ([c] + q)[..k + 1] == [c] + q[..k] && ([c] + q[..k])[1..] == q[..k];
  }

  lemma FitsCons(cfg: Config, c: Candidate, q: seq<Candidate>, spent: nat, m: nat)
    requires m <= |q| && Wrap(spent + c.amount) <= cfg.cap && FitsUpTo(cfg, q, spent + c.amount, m)
    ensures FitsUpTo(cfg, [c] + q, spent, m + 1)
  {
    forall k | 1 <= k <= m + 1 ensures Wrap(spent + FirstTotal([c] + q, k)) <= cfg.cap {
      FirstTotalCons(c, q, k - 1);
      assert q[..0] == [];
    }
    if m < |q| { FirstTotalCons(c, q, m + 1); }
  }

  lemma FitsNone(cfg: Config, c: Candidate, q: seq<Candidate>, spent: nat)
    requires Wrap(spent + c.amount) > cfg.cap
    ensures FitsUpTo(cfg, [c] + q, spent, 0)
  {
    FirstTotalCons(c, q, 0);
    assert q[..0] == [];
  }

  lemma PrefixCons(c: Candidate, q: seq<Candidate>, k: nat)
    requires k <= |q|
    ensures ([c] + q)[..k + 1] == [c] + q[..k]
  {
  }

  lemma ChooseCons(cfg: Config, peers: seq<Peer>, paid: set<string>, spent: nat, now: int, epoch: string)
    requires peers != []
    ensures var p := peers[0];
            Choose(cfg, peers, paid, spent, now, epoch) ==
            if !Qualifies(cfg, p, now, epoch, p.name in paid) then Choose(cfg, peers[1..], paid, spent, now, epoch)
            else if Wrap(spent + CandidateOf(cfg, p).amount) > cfg.cap then []
            else [CandidateOf(cfg, p)] +
                 Choose(cfg, peers[1..], paid, spent + CandidateOf(cfg, p).amount, now, epoch)
  {
  }

  /** The walk takes the qualifying peers in order, and stops at the first that does not fit. */
  lemma {:induction false} ChosenExactly(cfg: Config, peers: seq<Peer>, paid: set<string>, spent: nat, now: int,
                                         epoch: string)
    returns (m: nat)
    ensures var q := Qualifying(cfg, peers, paid, now, epoch);
            m <= |q| && FitsUpTo(cfg, q, spent, m) && Choose(cfg, peers, paid, spent, now, epoch) == q[..m]
    decreases |peers|
  {
    m := 0;
    if peers != [] {
      var p := peers[0];
      ChooseCons(cfg, peers, paid, spent, now, epoch);
      if !Qualifies(cfg, p, now, epoch, p.name in paid) {
        m := ChosenExactly(cfg, peers[1..], paid, spent, now, epoch);
      } else {
        var c, rest := CandidateOf(cfg, p), Qualifying(cfg, peers[1..], paid, now, epoch);
        if Wrap(spent + c.amount) <= cfg.cap {
          var k := ChosenExactly(cfg, peers[1..], paid, spent + c.amount, now, epoch);
          FitsCons(cfg, c, rest, spent, k);
          PrefixCons(c, rest, k);
          m := k + 1;
        } else {
          FitsNone(cfg, c, rest, spent);
        }
      }
    }
  }

  // ---------------------------------------------------------------- whom it is over

  ghost predicate Lists(q: seq<Candidate>, n: string) { exists i :: 0 <= i < |q| && q[i].nodeId == n }

  ghost predicate NamesQualified(cfg: Config, peers: seq<Peer>, paid: set<string>, now: int, epoch: string, n: string)
  {
    exists i :: 0 <= i < |peers| && peers[i].name == n && Qualifies(cfg, peers[i], now, epoch, n in paid)
  }

  lemma ListsCons(c: Candidate, q: seq<Candidate>, n: string)
    ensures Lists([c] + q, n) <==> c.nodeId == n || Lists(q, n)
  {
    var all := [c] + q;
    if c.nodeId == n { assert all[0].nodeId == n; }
    if i :| 0 <= i < |q| && q[i].nodeId == n { assert all[i + 1].nodeId == n; }
  }

  lemma QualifiedCons(cfg: Config, peers: seq<Peer>, paid: set<string>, now: int, epoch: string, n: string)
    requires peers != []
    ensures NamesQualified(cfg, peers, paid, now, epoch, n) <==>
            || (peers[0].name == n && Qualifies(cfg, peers[0], now, epoch, n in paid))
            || NamesQualified(cfg, peers[1..], paid, now, epoch, n)
  {
    if i :| 0 <= i < |peers| && peers[i].name == n && Qualifies(cfg, peers[i], now, epoch, n in paid) {
      if i > 0 { assert peers[1..][i - 1] == peers[i]; }
    }
    if i :| 0 <= i < |peers[1..]| && peers[1..][i].name == n && Qualifies(cfg, peers[1..][i], now, epoch, n in paid) {
      assert peers[i + 1] == peers[1..][i];
    }
  }

  /** A name appears among the qualifying exactly when its peer qualifies. */
  lemma {:induction false} QualifyingNames(cfg: Config, peers: seq<Peer>, paid: set<string>, now: int, epoch: string,
                                           n: string)
    ensures Lists(Qualifying(cfg, peers, paid, now, epoch), n) <==> NamesQualified(cfg, peers, paid, now, epoch, n)
    decreases |peers|
  {
    if peers != [] {
      QualifyingNames(cfg, peers[1..], paid, now, epoch, n);
      QualifiedCons(cfg, peers, paid, now, epoch, n);
      if Qualifies(cfg, peers[0], now, epoch, peers[0].name in paid) {
        ListsCons(CandidateOf(cfg, peers[0]), Qualifying(cfg, peers[1..], paid, now, epoch), n);
      }
    }
  }

  ghost predicate NamesRise(peers: seq<Peer>)
  {
    forall i, j :: 0 <= i < j < |peers| ==> StrLess(peers[i].name, peers[j].name)
  }

  lemma {:induction false} QualifyingRise(cfg: Config, peers: seq<Peer>, paid: set<string>, now: int, epoch: string)
    requires NamesRise(peers)
    ensures IdsRise(Qualifying(cfg, peers, paid, now, epoch))
    decreases |peers|
  {
    if peers != [] {
      QualifyingRise(cfg, peers[1..], paid, now, epoch);
      var rest := Qualifying(cfg, peers[1..], paid, now, epoch);
      forall i | 0 <= i < |rest| ensures StrLess(peers[0].name, rest[i].nodeId) {
        assert Lists(rest, rest[i].nodeId);
        QualifyingNames(cfg, peers[1..], paid, now, epoch, rest[i].nodeId);
        var k :| 0 <= k < |peers[1..]| && peers[1..][k].name == rest[i].nodeId;
        assert peers[k + 1] == peers[1..][k];
      }
      if Qualifies(cfg, peers[0], now, epoch, peers[0].name in paid) { RiseCons(CandidateOf(cfg, peers[0]), rest); }
    }
  }

  ghost predicate IdsRise(q: seq<Candidate>)
  {
    forall i, j :: 0 <= i < j < |q| ==> StrLess(q[i].nodeId, q[j].nodeId)
  }

  lemma RiseCons(c: Candidate, q: seq<Candidate>)
    requires IdsRise(q) && forall i :: 0 <= i < |q| ==> StrLess(c.nodeId, q[i].nodeId)
    ensures IdsRise([c] + q)
  {
  }

  lemma SortedNamesRise(peers: map<string, Peer>, now: int)
    requires Filed(peers)
    ensures NamesRise(Marked(SortedPeers(peers), now))
  {
    var ps := SortedPeers(peers);
    SortedPeersListed(peers);
    NamesStrictTotal(peers);
    ListOfLists(peers.Values);
    SortSorts(NameBefore, ListOf(peers.Values), peers.Values);
    forall i, j | 0 <= i < j < |ps| ensures StrLess(ps[i].name, ps[j].name) {
      StrTotal(ps[i].name, ps[j].name);
      assert !NameBefore(ps[j], ps[i]);
    }
  }

  /** The `i`-th marked peer is a record on file with its right marks. */
  lemma MarkedOnFile(reg: Registry, now: int, i: nat)
    requires Filed(reg.peers) && i < |SortedPeers(reg.peers)|
    ensures MarkedCopy(reg.peers, now, Marked(SortedPeers(reg.peers), now)[i])
  {
    SortedPeersListed(reg.peers);
    MarkedIsRight(SortedPeers(reg.peers), now, i);
    assert OnFile(reg.peers, SortedPeers(reg.peers)[i]);
  }

  ghost predicate MarkedCopy(peers: map<string, Peer>, now: int, q: Peer)
  {
    && q.name in peers && q == Remarked(peers[q.name], q.sharedHardwareWith, q.sharedHouseholdWith)
    && MarkedRight(peers.Values, Machine, now, peers[q.name], q.sharedHardwareWith)
    && MarkedRight(peers.Values, Household, now, peers[q.name], q.sharedHouseholdWith)
  }

  lemma EveryRecordMarked(reg: Registry, now: int, n: string) returns (i: nat)
    requires Filed(reg.peers) && n in reg.peers
    ensures i < |SortedPeers(reg.peers)| && Marked(SortedPeers(reg.peers), now)[i].name == n
  {
    SortedPeersListed(reg.peers);
    assert reg.peers[n] in Elements(SortedPeers(reg.peers));
    i :| 0 <= i < |SortedPeers(reg.peers)| && SortedPeers(reg.peers)[i] == reg.peers[n];
  }

  /** A marked copy qualifies exactly when its node deserves the reward. */
  lemma CopyQualifies(cfg: Config, reg: Registry, now: int, epoch: string, q: Peer)
    requires Filed(reg.peers) && MarkedCopy(reg.peers, now, q)
    ensures Deserves(cfg, reg, q.name, now, epoch) <==>
            Qualifies(cfg, q, now, epoch, q.name in PaidNodes(reg.ledger, epoch))
  {
    NamedApart(reg.peers);
    var ps, p := reg.peers.Values, reg.peers[q.name];
    if MarkedRight(ps, Machine, now, p, "") { MarkDetermined(ps, Machine, now, p, "", q.sharedHardwareWith); }
    if MarkedRight(ps, Household, now, p, "") { MarkDetermined(ps, Household, now, p, "", q.sharedHouseholdWith); }
  }

  lemma DeservingQualifies(cfg: Config, reg: Registry, now: int, epoch: string, n: string)
    requires Filed(reg.peers)
    ensures Deserves(cfg, reg, n, now, epoch) <==>
            NamesQualified(cfg, Marked(SortedPeers(reg.peers), now), PaidNodes(reg.ledger, epoch), now, epoch, n)
  {
    var ps, paid := Marked(SortedPeers(reg.peers), now), PaidNodes(reg.ledger, epoch);
    if Deserves(cfg, reg, n, now, epoch) {
      var i := EveryRecordMarked(reg, now, n);
      MarkedOnFile(reg, now, i);
      CopyQualifies(cfg, reg, now, epoch, ps[i]);
    }
    if i :| 0 <= i < |ps| && ps[i].name == n && Qualifies(cfg, ps[i], now, epoch, n in paid) {
      MarkedOnFile(reg, now, i);
      CopyQualifies(cfg, reg, now, epoch, ps[i]);
    }
  }

  /**
   A cycle's candidates: list the deserving nodes in name order; the candidates are its first `m`, each
   within the cap, and the next one, if there is one, would break it.
   */
  lemma SelectsExactly(cfg: Config, reg: Registry, now: int, epoch: string) returns (q: seq<Candidate>, m: nat)
    requires Filed(reg.peers)
    ensures m <= |q| && Candidates(cfg, reg, now, epoch) == q[..m] && FitsUpTo(cfg, q, Spent(reg.ledger, epoch), m)
    ensures IdsRise(q)
    ensures forall n :: Deserves(cfg, reg, n, now, epoch) <==> Lists(q, n)
  {
    var ps, paid := Marked(SortedPeers(reg.peers), now), PaidNodes(reg.ledger, epoch);
    q := Qualifying(cfg, ps, paid, now, epoch);
    m := ChosenExactly(cfg, ps, paid, Spent(reg.ledger, epoch), now, epoch);
    SortedNamesRise(reg.peers, now);
    QualifyingRise(cfg, ps, paid, now, epoch);
    forall n ensures Deserves(cfg, reg, n, now, epoch) <==> Lists(q, n) {
      DeservingQualifies(cfg, reg, now, epoch, n);
      QualifyingNames(cfg, ps, paid, now, epoch, n);
    }
  }

  // ---------------------------------------------------------------- what confirming writes down

  /** Confirming changes a line's status, and its time of confirmation, by the wallet's nonce and the hour alone. */
  lemma LinesConfirmedExactly(ledger: seq<Payout>, nonce: nat, now: int, i: nat)
    requires i < |ledger|
    ensures var was, line := ledger[i], ConfirmLines(ledger, nonce, now)[i];
            && line == was.(status := line.status, confirmedAt := line.confirmedAt)
            && (line.status == Confirmed <==> was.status == Confirmed || was.nonce < nonce)
            && (line.confirmedAt == if was.status != Confirmed && was.nonce < nonce then now else was.confirmedAt)
            && (line.status == Stuck <==>
                  was.status != Confirmed && was.nonce >= nonce
                  && (was.status == Stuck || now - was.submittedAt > 60 * 60_000))
  {
  }

  /** What the confirmed lines have brought a node. */
  function Brought(ledger: seq<Payout>, n: string): nat
  {
    if ledger == [] then 0 else
    var last := ledger[|ledger| - 1];
    Brought(ledger[..|ledger| - 1], n) + if last.nodeId == n && last.status == Confirmed then last.amount else 0
  }

  /** What confirming up to `nonce` adds. */
  function Adds(ledger: seq<Payout>, nonce: nat, n: string): nat
  {
    if ledger == [] then 0 else
    var last := ledger[|ledger| - 1];
    Adds(ledger[..|ledger| - 1], nonce, n) +
    if last.nodeId == n && last.status != Confirmed && last.nonce < nonce then last.amount else 0
  }

  lemma {:induction false} ConfirmBrings(ledger: seq<Payout>, nonce: nat, now: int, n: string)
    ensures Brought(ConfirmLines(ledger, nonce, now), n) == Brought(ledger, n) + Adds(ledger, nonce, n)
  {
    if ledger != [] {
      var k := |ledger| - 1;
      ConfirmBrings(ledger[..k], nonce, now, n);
      assert ConfirmLines(ledger, nonce, now)[..k] == ConfirmLines(ledger[..k], nonce, now);
    }
  }

  lemma {:induction false} ConfirmCredits(peers: map<string, Peer>, ledger: seq<Payout>, nonce: nat, now: int,
                                          n: string)
    requires n in peers && peers[n].totalRewardsPaidSYN < U64
    ensures var next := ConfirmPeers(peers, ledger, nonce, now);
            n in next && next[n].totalRewardsPaidSYN == Wrap(peers[n].totalRewardsPaidSYN + Adds(ledger, nonce, n))
  {
    if ledger != [] {
      var k := |ledger| - 1;
      ConfirmCredits(peers, ledger[..k], nonce, now, n);
      WrapAdd(peers[n].totalRewardsPaidSYN + Adds(ledger[..k], nonce, n), ledger[k].amount);
    }
  }

  lemma {:induction false} UnconfirmedBringNothing(ledger: seq<Payout>, cs: seq<Candidate>, w: World, nonce: nat,
                                                   n: string)
    ensures Brought(SubmitAll(ledger, cs, w, nonce), n) == Brought(ledger, n)
    decreases |cs|
  {
    if cs != [] && w.submit(nonce).Some? {
      var longer := ledger + [Line(cs[0], w, nonce, w.submit(nonce).value)];
      assert longer[..|ledger|] == ledger;
      UnconfirmedBringNothing(longer, cs[1..], w, nonce + 1, n);
    }
  }

  /** `next` books for `n` exactly what its ledger confirmed since `reg`. */
  ghost predicate Booked(reg: Registry, next: Registry, n: string)
    requires n in reg.peers
  {
    && n in next.peers && Brought(next.ledger, n) >= Brought(reg.ledger, n)
    && next.peers[n].totalRewardsPaidSYN ==
       Wrap(reg.peers[n].totalRewardsPaidSYN + (Brought(next.ledger, n) - Brought(reg.ledger, n)))
  }

  lemma SubmittedBooked(reg: Registry, next: Registry, w: World, nonce: nat, cs: seq<Candidate>, n: string)
    requires n in reg.peers && reg.peers[n].totalRewardsPaidSYN < U64
    requires next.peers == ConfirmPeers(reg.peers, reg.ledger, nonce, w.now)
    requires next.ledger == SubmitAll(ConfirmLines(reg.ledger, nonce, w.now), cs, w, nonce)
    ensures Booked(reg, next, n)
  {
    ConfirmBrings(reg.ledger, nonce, w.now, n);
    ConfirmCredits(reg.peers, reg.ledger, nonce, w.now, n);
    UnconfirmedBringNothing(ConfirmLines(reg.ledger, nonce, w.now), cs, w, nonce, n);
  }

  /** An enabled cycle confirms, and then submits for some candidates, perhaps none. */
  lemma CycleSubmits(cfg: Config, reg: Registry, w: World) returns (cs: seq<Candidate>)
    requires cfg.enabled && w.nonce.Some?
    ensures Cycle(cfg, reg, w).peers == ConfirmPeers(reg.peers, reg.ledger, w.nonce.value, w.now)
    ensures Cycle(cfg, reg, w).ledger ==
            SubmitAll(ConfirmLines(reg.ledger, w.nonce.value, w.now), cs, w, w.nonce.value)
  {
    var mid := AfterConfirm(reg, w.nonce.value, w.now);
    cs := if Waiting(mid.ledger) then [] else Candidates(cfg, mid, w.now, w.epoch);
  }

  /** A cycle adds to a node's paid total exactly what its ledger confirmed for it. */
  lemma TotalsFollowLedger(cfg: Config, reg: Registry, w: World, n: string)
    requires n in reg.peers && reg.peers[n].totalRewardsPaidSYN < U64
    ensures Booked(reg, Cycle(cfg, reg, w), n)
  {
    if cfg.enabled && w.nonce.Some? {
      var cs := CycleSubmits(cfg, reg, w);
      SubmittedBooked(reg, Cycle(cfg, reg, w), w, w.nonce.value, cs, n);
    } else {
      assert Cycle(cfg, reg, w) == reg;
    }
  }
}
