/**
 One machine, one household, one reward: among live nodes that share a hardware commitment or an
 external address, the senior one is primary and every other is marked as sharing with it.
 */
module Hardware {
  import opened Common

  const Minute: int := 60_000
  const StaleAfter: int := 5 * Minute

  datatype Peer = Peer(
    name: string, cloud: string, hardwareCommitment: string, householdIP: string,
    registeredAt: int, lastSeen: int, firstHeartbeatAt: int, validHeartbeats: nat, verifiedUptimeMS: int,
    lastNonce: string, hostedProofSession: bool,
    sharedHardwareWith: string, sharedHouseholdWith: string,
    payoutAddress: string, lastRewardPaidEpoch: string, lastRewardPaidAt: int,
    totalRewardsPaidSYN: nat, lastRewardTxHash: string, rewardUptimeAtPaidMS: int)

  /** Times are unix milliseconds. */
  predicate Stale(p: Peer, now: int) { p.lastSeen == 0 || now - p.lastSeen > StaleAfter }

  predicate Blank(c: char) { c == ' ' || c == '\t' || c == '\n' || c == '\r' }

  function TrimSpace(s: string): string
  {
    if s == "" then ""
    else if Blank(s[0]) then TrimSpace(s[1..])
    else if Blank(s[|s| - 1]) then TrimSpace(s[..|s| - 1])
    else s
  }

  predicate IsHouseholdIP(ip: string)
  {
    TrimSpace(ip) !in {"", "127.0.0.1", "::1", "localhost", "192.0.2.1"}
  }

  /** A node heard of within five minutes is live, one never heard of is not. */
  lemma LiveForFiveMinutes(p: Peer, now: int)
    ensures !Stale(p, now) <==> p.lastSeen != 0 && now <= p.lastSeen + 300_000
  {
  }

  /** Loopback, documentation and empty addresses are nobody's household; every other trimmed address is one. */
  lemma HouseholdAddresses(ip: string)
    requires ip == "" || (!Blank(ip[0]) && !Blank(ip[|ip| - 1]))
    ensures IsHouseholdIP(ip) <==>
            ip != "" && ip != "127.0.0.1" && ip != "::1" && ip != "localhost" && ip != "192.0.2.1"
  {
  }

  /** First to prove uptime, then earliest registered, then lowest name. */
  predicate RanksAbove(a: Peer, b: Peer)
  {
    if (a.firstHeartbeatAt == 0) != (b.firstHeartbeatAt == 0) then a.firstHeartbeatAt != 0
    else if a.firstHeartbeatAt != b.firstHeartbeatAt then a.firstHeartbeatAt < b.firstHeartbeatAt
    else if a.registeredAt != b.registeredAt then a.registeredAt < b.registeredAt
    else StrLess(a.name, b.name)
  }

  lemma RanksAboveTotal(a: Peer, b: Peer)
    requires a.name != b.name
    ensures RanksAbove(a, b) || RanksAbove(b, a)
  {
    StrTotal(a.name, b.name);
  }

  lemma RanksAboveTransitive(a: Peer, b: Peer, c: Peer)
    requires RanksAbove(a, b) && RanksAbove(b, c)
    ensures RanksAbove(a, c)
  {
    if StrLess(a.name, b.name) && StrLess(b.name, c.name) { StrTransitive(a.name, b.name, c.name); }
  }

  lemma RanksAboveStrictTotal(ps: set<Peer>)
    requires forall a <- ps, b <- ps :: a.name == b.name ==> a == b
    ensures StrictTotal(RanksAbove, ps)
  {
    forall a: string ensures !StrLess(a, a) { StrIrreflexive(a); }
    forall a: string, b: string ensures a == b || StrLess(a, b) || StrLess(b, a) { StrTotal(a, b); }
    forall a: string, b: string, c: string | StrLess(a, b) && StrLess(b, c) ensures StrLess(a, c) {
      StrTransitive(a, b, c);
    }
  }

  // ---------------------------------------------------------------- machines and households

  datatype Kind = Machine | Household

  /** What a live peer shares with others of its machine or household; None when it takes no part. */
  function Key(kind: Kind, now: int, p: Peer): Option<string>
  {
    if Stale(p, now) then None
    else if kind == Machine then (if p.hardwareCommitment != "" then Some(p.hardwareCommitment) else None)
    else if IsHouseholdIP(p.householdIP) then Some(p.householdIP) else None
  }

  /** `p` is the senior member of its group. */
  ghost predicate Leads(ps: set<Peer>, kind: Kind, now: int, p: Peer)
  {
    && p in ps && Key(kind, now, p).Some?
    && forall q <- ps :: q != p && Key(kind, now, q) == Key(kind, now, p) ==> RanksAbove(p, q)
  }

  /** The mark a peer must carry: empty for the senior member, the senior member's name for the rest. */
  ghost predicate MarkedRight(ps: set<Peer>, kind: Kind, now: int, p: Peer, mark: string)
  {
    if Key(kind, now, p).None? then mark == ""
    else exists leader :: Leads(ps, kind, now, leader) && Key(kind, now, leader) == Key(kind, now, p) &&
                          mark == if leader == p then "" else leader.name
  }

  ghost predicate DistinctNames(ps: seq<Peer>)
  {
    forall i, j :: 0 <= i < j < |ps| ==> ps[i].name != ps[j].name
  }

  ghost function Elements(ps: seq<Peer>): set<Peer>
  {
    set i | 0 <= i < |ps| :: ps[i]
  }

  /** `primary[k]` is the index of the senior peer with key `k` among the first `n`. */
  ghost predicate Tracks(ps: seq<Peer>, kind: Kind, now: int, n: nat, primary: map<string, nat>)
    requires n <= |ps|
  {
    && (forall k <- primary :: primary[k] < n && Key(kind, now, ps[primary[k]]) == Some(k))
    && (forall i :: 0 <= i < n && Key(kind, now, ps[i]).Some? ==>
          var k := Key(kind, now, ps[i]).value;
          k in primary && (primary[k] == i || RanksAbove(ps[primary[k]], ps[i])))
  }

  function Updated(ps: seq<Peer>, kind: Kind, now: int, i: nat, primary: map<string, nat>): map<string, nat>
    requires i < |ps| && forall k <- primary :: primary[k] < |ps|
  {
    var key := Key(kind, now, ps[i]);
    if key.Some? && (key.value !in primary || RanksAbove(ps[i], ps[primary[key.value]])) then primary[key.value := i]
      else primary
  }

  /** Keep, per key, the senior of the first `n` peers. */
  function Primaries(ps: seq<Peer>, kind: Kind, now: int, n: nat): (primary: map<string, nat>)
    requires n <= |ps|
    ensures forall k <- primary :: primary[k] < n
  {
    if n == 0 then map[] else Updated(ps, kind, now, n - 1, Primaries(ps, kind, now, n - 1))
  }

  lemma {:induction false} PrimariesTrack(ps: seq<Peer>, kind: Kind, now: int, n: nat)
    requires DistinctNames(ps) && n <= |ps|
    ensures Tracks(ps, kind, now, n, Primaries(ps, kind, now, n))
  {
    if n > 0 {
      PrimariesTrack(ps, kind, now, n - 1);
      TracksNext(ps, kind, now, n - 1);
    }
  }

  lemma TracksNext(ps: seq<Peer>, kind: Kind, now: int, i: nat)
    requires DistinctNames(ps) && i < |ps| && Tracks(ps, kind, now, i, Primaries(ps, kind, now, i))
    ensures Tracks(ps, kind, now, i + 1, Primaries(ps, kind, now, i + 1))
  {
    TracksStep(ps, kind, now, i, Primaries(ps, kind, now, i));
    assert Primaries(ps, kind, now, i + 1) == Updated(ps, kind, now, i, Primaries(ps, kind, now, i));
  }

  lemma TracksStep(ps: seq<Peer>, kind: Kind, now: int, i: nat, primary: map<string, nat>)
    requires DistinctNames(ps) && i < |ps| && Tracks(ps, kind, now, i, primary)
    ensures Tracks(ps, kind, now, i + 1, Updated(ps, kind, now, i, primary))
  {
    var key, next := Key(kind, now, ps[i]), Updated(ps, kind, now, i, primary);
    forall j | 0 <= j < i + 1 && Key(kind, now, ps[j]).Some?
      ensures var k := Key(kind, now, ps[j]).value; k in next && (next[k] == j || RanksAbove(ps[next[k]], ps[j]))
    {
      if key == Key(kind, now, ps[j]) && key.value in primary {
        var m := primary[key.value];
        assert ps[m].name != ps[i].name;
        RanksAboveTotal(ps[m], ps[i]);
        if RanksAbove(ps[i], ps[m]) && j < i && m != j { RanksAboveTransitive(ps[i], ps[m], ps[j]); }
      }
    }
  }

  lemma TracksLeads(ps: seq<Peer>, kind: Kind, now: int, primary: map<string, nat>, k: string)
    requires DistinctNames(ps) && Tracks(ps, kind, now, |ps|, primary) && k in primary
    ensures Leads(Elements(ps), kind, now, ps[primary[k]])
  {
    var p := ps[primary[k]];
    forall q | q in Elements(ps) && q != p && Key(kind, now, q) == Key(kind, now, p) ensures RanksAbove(p, q) {
      var i :| 0 <= i < |ps| && ps[i] == q;
    }
  }

  function Mark(ps: seq<Peer>, kind: Kind, now: int, primary: map<string, nat>, i: nat): string
    requires i < |ps| && forall k <- primary :: primary[k] < |ps|
  {
    var key := Key(kind, now, ps[i]);
    if key.Some? && key.value in primary && primary[key.value] != i then ps[primary[key.value]].name else ""
  }

  lemma MarkIsRight(ps: seq<Peer>, kind: Kind, now: int, primary: map<string, nat>, i: nat)
    requires DistinctNames(ps) && Tracks(ps, kind, now, |ps|, primary) && i < |ps|
    ensures MarkedRight(Elements(ps), kind, now, ps[i], Mark(ps, kind, now, primary, i))
  {
    var key := Key(kind, now, ps[i]);
    if key.Some? {
      TracksLeads(ps, kind, now, primary, key.value);
      var j := primary[key.value];
      assert j != i ==> ps[j].name != ps[i].name;
      assert Leads(Elements(ps), kind, now, ps[j]) && Key(kind, now, ps[j]) == key;
    }
  }

  function Remarked(p: Peer, machine: string, household: string): Peer
  {
    p.(sharedHardwareWith := machine, sharedHouseholdWith := household)
  }

  function Cleared(p: Peer): Peer { Remarked(p, "", "") }

  /** Every peer with its two marks. */
  function Marked(ps: seq<Peer>, now: int): (qs: seq<Peer>)
    ensures |qs| == |ps|
  {
    var hw, ip := Primaries(ps, Machine, now, |ps|), Primaries(ps, Household, now, |ps|);
    seq(|ps|, i requires 0 <= i < |ps| => Remarked(ps[i], Mark(ps, Machine, now, hw, i),
      Mark(ps, Household, now, ip, i)))
  }

  /** Only the marks are rewritten, and they name the senior live peer of the machine and household. */
  lemma MarkedIsRight(ps: seq<Peer>, now: int, i: nat)
    requires DistinctNames(ps) && i < |ps|
    ensures var q := Marked(ps, now)[i];
            && q == Remarked(ps[i], q.sharedHardwareWith, q.sharedHouseholdWith)
            && MarkedRight(Elements(ps), Machine, now, ps[i], q.sharedHardwareWith)
            && MarkedRight(Elements(ps), Household, now, ps[i], q.sharedHouseholdWith)
  {
    PrimariesTrack(ps, Machine, now, |ps|);
    PrimariesTrack(ps, Household, now, |ps|);
    MarkIsRight(ps, Machine, now, Primaries(ps, Machine, now, |ps|), i);
    MarkIsRight(ps, Household, now, Primaries(ps, Household, now, |ps|), i);
  }

  method MarkSharedHardware(peers: array<Peer>, now: int)
    modifies peers
    ensures peers[..] == Marked(old(peers[..]), now)
  {
    ghost var ps := peers[..];
    var primaryHw, primaryIP := FindPrimaries(peers, now);
    WriteMarks(peers, now, ps, primaryHw, primaryIP);
  }

  /** One pass: clear old marks and keep, per commitment and address, the senior live peer so far. */
  method FindPrimaries(peers: array<Peer>, now: int) returns (primaryHw: map<string, nat>, primaryIP: map<string, nat>)
    modifies peers
    ensures forall j :: 0 <= j < peers.Length ==> peers[j] == Cleared(old(peers[j]))
    ensures primaryHw == Primaries(old(peers[..]), Machine, now, peers.Length)
    ensures primaryIP == Primaries(old(peers[..]), Household, now, peers.Length)
  {
    ghost var ps := peers[..];
    primaryHw, primaryIP := map[], map[];
    for i := 0 to peers.Length
      invariant forall j :: 0 <= j < peers.Length ==> peers[j] == if j < i then Cleared(ps[j]) else ps[j]
      invariant primaryHw == Primaries(ps, Machine, now, i) && primaryIP == Primaries(ps, Household, now, i)
    {
      primaryHw, primaryIP := VisitPeer(peers, now, i, ps, primaryHw, primaryIP);
    }
  }

  method VisitPeer(peers: array<Peer>, now: int, i: nat, ghost ps: seq<Peer>, hw: map<string, nat>, ip: map<string,
                   nat>)
    returns (hw': map<string, nat>, ip': map<string, nat>)
    requires i < peers.Length && SameApartFromMarks(ps, peers[..]) && peers[i] == ps[i]
    requires (forall k <- hw :: hw[k] < |ps|) && (forall k <- ip :: ip[k] < |ps|)
    modifies peers
    ensures forall j :: 0 <= j < peers.Length ==> peers[j] == if j == i then Cleared(ps[i]) else old(peers[j])
    ensures hw' == Updated(ps, Machine, now, i, hw) && ip' == Updated(ps, Household, now, i, ip)
  {
    peers[i] := Cleared(peers[i]);
    MarksDoNotMatter(ps, peers[..], now, i, hw, ip);
    hw' := Updated(peers[..], Machine, now, i, hw);
    ip' := Updated(peers[..], Household, now, i, ip);
  }

  ghost predicate SameApartFromMarks(ps: seq<Peer>, qs: seq<Peer>)
  {
    |qs| == |ps| && forall j :: 0 <= j < |ps| ==> Cleared(qs[j]) == Cleared(ps[j])
  }

  /** Ranking and grouping never look at the marks being rewritten. */
  lemma MarksDoNotMatter(ps: seq<Peer>, qs: seq<Peer>, now: int, i: nat, hw: map<string, nat>, ip: map<string, nat>)
    requires SameApartFromMarks(ps, qs) && i < |ps|
    requires (forall k <- hw :: hw[k] < |ps|) && (forall k <- ip :: ip[k] < |ps|)
    ensures Updated(qs, Machine, now, i, hw) == Updated(ps, Machine, now, i, hw)
    ensures Updated(qs, Household, now, i, ip) == Updated(ps, Household, now, i, ip)
    ensures Mark(qs, Machine, now, hw, i) == Mark(ps, Machine, now, hw, i)
    ensures Mark(qs, Household, now, ip, i) == Mark(ps, Household, now, ip, i)
  {
    forall j | 0 <= j < |ps| ensures SamePeer(ps[j], qs[j]) { assert Cleared(qs[j]) == Cleared(ps[j]); }
    forall a: Peer, b: Peer, c: Peer, d: Peer | SamePeer(a, c) &&
           SamePeer(b, d) ensures RanksAbove(a, b) == RanksAbove(c, d) {}
    assert SamePeer(ps[i], qs[i]);
  }

  predicate SamePeer(a: Peer, b: Peer)
  {
    && a.name == b.name && a.registeredAt == b.registeredAt && a.firstHeartbeatAt == b.firstHeartbeatAt
    && a.lastSeen == b.lastSeen && a.hardwareCommitment == b.hardwareCommitment && a.householdIP == b.householdIP
  }

  method WriteMarks(peers: array<Peer>, now: int, ghost ps: seq<Peer>, primaryHw: map<string, nat>,
                    primaryIP: map<string, nat>)
    requires |ps| == peers.Length && forall j :: 0 <= j < peers.Length ==> peers[j] == Cleared(ps[j])
    requires (forall k <- primaryHw :: primaryHw[k] < |ps|) && (forall k <- primaryIP :: primaryIP[k] < |ps|)
    modifies peers
    ensures forall j :: 0 <= j < peers.Length ==>
      peers[j] == Remarked(ps[j], Mark(ps, Machine, now, primaryHw, j), Mark(ps, Household, now, primaryIP, j))
  {
    for i := 0 to peers.Length
      invariant forall j :: 0 <= j < i ==>
        peers[j] == Remarked(ps[j], Mark(ps, Machine, now, primaryHw, j), Mark(ps, Household, now, primaryIP, j))
      invariant forall j :: i <= j < peers.Length ==> peers[j] == Cleared(ps[j])
    {
      WriteMark(peers, now, i, ps, primaryHw, primaryIP);
    }
  }

  method WriteMark(peers: array<Peer>, now: int, i: nat, ghost ps: seq<Peer>, primaryHw: map<string, nat>,
                   primaryIP: map<string, nat>)
    requires i < peers.Length && SameApartFromMarks(ps, peers[..]) && peers[i] == Cleared(ps[i])
    requires (forall k <- primaryHw :: primaryHw[k] < |ps|) && (forall k <- primaryIP :: primaryIP[k] < |ps|)
    modifies peers
    ensures forall j :: 0 <= j < peers.Length && j != i ==> peers[j] == old(peers[j])
    ensures peers[i] == Remarked(ps[i], Mark(ps, Machine, now, primaryHw, i), Mark(ps, Household, now, primaryIP, i))
  {
    MarksDoNotMatter(ps, peers[..], now, i, primaryHw, primaryIP);
    peers[i] := Remarked(peers[i], Mark(peers[..], Machine, now, primaryHw, i),
                         Mark(peers[..], Household, now, primaryIP, i));
  }

  // ---------------------------------------------------------------- one each

  /** A group has one senior member. */
  lemma LeaderUnique(ps: set<Peer>, kind: Kind, now: int, a: Peer, b: Peer)
    requires forall p <- ps, q <- ps :: p.name == q.name ==> p == q
    requires Leads(ps, kind, now, a) && Leads(ps, kind, now, b) && Key(kind, now, a) == Key(kind, now, b)
    ensures a == b
  {
    RanksAboveStrictTotal(ps);
  }

  /** Seniority is earned by heartbeats: whoever proved uptime first leads. */
  lemma LeaderProvedFirst(ps: set<Peer>, kind: Kind, now: int, leader: Peer, q: Peer)
    requires Leads(ps, kind, now, leader) && q in ps && Key(kind, now, q) == Key(kind, now, leader)
    ensures q.firstHeartbeatAt != 0 ==> leader.firstHeartbeatAt != 0 && leader.firstHeartbeatAt <= q.firstHeartbeatAt
    ensures q.firstHeartbeatAt == leader.firstHeartbeatAt ==> leader.registeredAt <= q.registeredAt
  {
  }

  /**
   Of two live nodes on one machine or in one household both go unmarked exactly when the senior node
   of the group has an empty name.
   */
  lemma UnmarkedPair(ps: set<Peer>, kind: Kind, now: int, leader: Peer, a: Peer, b: Peer, markA: string, markB: string)
    requires forall p <- ps, q <- ps :: p.name == q.name ==> p == q
    requires a in ps && b in ps && a != b && Key(kind, now, a).Some? && Key(kind, now, a) == Key(kind, now, b)
    requires Leads(ps, kind, now, leader) && Key(kind, now, leader) == Key(kind, now, a)
    requires MarkedRight(ps, kind, now, a, markA) && MarkedRight(ps, kind, now, b, markB)
    ensures markA == "" && markB == "" <==> leader.name == ""
  {
    var la :| Leads(ps, kind, now, la) && Key(kind, now, la) == Key(kind, now, a) &&
      markA == if la == a then "" else la.name;
    var lb :| Leads(ps, kind, now, lb) && Key(kind, now, lb) == Key(kind, now, b) &&
      markB == if lb == b then "" else lb.name;
    LeaderUnique(ps, kind, now, la, leader);
    LeaderUnique(ps, kind, now, lb, leader);
  }

  /** So where every node has a name, at most one live node of a group goes unmarked. */
  lemma OneUnmarked(ps: set<Peer>, kind: Kind, now: int, a: Peer, b: Peer)
    requires forall p <- ps, q <- ps :: p.name == q.name ==> p == q
    requires forall p <- ps :: p.name != ""
    requires a in ps && b in ps && a != b
    requires MarkedRight(ps, kind, now, a, "") && MarkedRight(ps, kind, now, b, "")
    ensures !(Key(kind, now, a).Some? && Key(kind, now, a) == Key(kind, now, b))
  {
    if Key(kind, now, a).Some? && Key(kind, now, a) == Key(kind, now, b) {
      var leader :| Leads(ps, kind, now, leader) && Key(kind, now, leader) == Key(kind, now, a);
      UnmarkedPair(ps, kind, now, leader, a, b, "", "");
      assert false;
    }
  }

  /** The mark does not depend on the order peers were listed in, nor on anything but the live group. */
  lemma MarkDetermined(ps: set<Peer>, kind: Kind, now: int, p: Peer, mark: string, other: string)
    requires forall a <- ps, b <- ps :: a.name == b.name ==> a == b
    requires MarkedRight(ps, kind, now, p, mark) && MarkedRight(ps, kind, now, p, other)
    ensures mark == other
  {
    if Key(kind, now, p).Some? {
      var a :| Leads(ps, kind, now, a) && Key(kind, now, a) == Key(kind, now, p) &&
        mark == if a == p then "" else a.name;
      var b :| Leads(ps, kind, now, b) && Key(kind, now, b) == Key(kind, now, p) &&
        other == if b == p then "" else b.name;
      LeaderUnique(ps, kind, now, a, b);
    }
  }
}
