/**
 Stake-mode block authorization: the proposer must be staked and, to finalize, validators holding
 strictly more than two thirds of the staked power must have signed an approval.
 */
module StakeQuorum {
  import opened Common
  import opened Ledger

  /** `byKey`: a later entry replaces an earlier one with the same key. */
  function ByKey(members: seq<ActiveValidator>): (table: map<string, ActiveValidator>)
    ensures forall k <- table :: table[k].key == k
  {
    if members == [] then map[] else
    var last := members[|members| - 1];
    ByKey(members[..|members| - 1])[last.key := last]
  }

  function TotalPower(members: seq<ActiveValidator>): nat
  {
    if members == [] then 0 else TotalPower(members[..|members| - 1]) + members[|members| - 1].power
  }

  /** The keys for which one of `signers` sent a valid signature, under any spelling of the key. */
  ghost function Approvers(r: Rules, table: map<string, ActiveValidator>, msg: Message, sigs: map<string, string>,
                           signers: set<string>): set<string>
    requires signers <= sigs.Keys
  {
    set s | s in signers && Lower(s) in table && r.verifySig(table[Lower(s)].key, msg, sigs[s]) :: Lower(s)
  }

  ghost function Powers(table: map<string, ActiveValidator>, keys: set<string>): map<string, nat>
  {
    map k | k in keys && k in table :: table[k].power
  }

  ghost function ApproversOf(r: Rules, chainId: string, b: Block, members: seq<ActiveValidator>): set<string>
  {
    Approvers(r, ByKey(members), StakeApproval(chainId, b.header.height, b.hash), b.quorumSignatures,
      b.quorumSignatures.Keys)
  }

  /** The check as uint64 arithmetic performs it. */
  ghost predicate QuorumMet(r: Rules, chainId: string, b: Block, members: seq<ActiveValidator>)
  {
    var approved := MapSum(Powers(ByKey(members), ApproversOf(r, chainId, b, members)));
    Wrap(Wrap(approved) * 3) > Wrap(Wrap(TotalPower(members)) * 2)
  }

  ghost predicate StakeAuthorized(r: Rules, chainId: string, b: Block, members: seq<ActiveValidator>,
                                  requireQuorum: bool)
  {
    var table := ByKey(members);
    var proposer := Lower(b.header.proposerId);
    && proposer in table
    && r.verifySig(table[proposer].key, StakeProposal(chainId, b.header.height, b.hash), b.proposerSignature)
    && (requireQuorum ==> QuorumMet(r, chainId, b, members))
  }

  /**
   The signature map is walked in whatever order the runtime offers; case variants of one key count
   once. The verdict is the declarative one all the same.
   */
  method VerifyStakeAuthorization(r: Rules, chainId: string, b: Block, members: seq<ActiveValidator>,
                                  requireQuorum: bool)
    returns (ok: bool)
    ensures ok <==> StakeAuthorized(r, chainId, b, members, requireQuorum)
  {
    var byKey: map<string, ActiveValidator>, total := map[], 0;
    for i := 0 to |members|
      invariant byKey == ByKey(members[..i]) && total == Wrap(TotalPower(members[..i]))
    {
      assert members[..i + 1][..i] == members[..i];
      WrapAdd(TotalPower(members[..i]), members[i].power);
      byKey := byKey[members[i].key := members[i]];
      total := Wrap(total + members[i].power);
    }
    assert members[..|members|] == members;
    var proposer := Lower(b.header.proposerId);
    if proposer !in byKey {
      return false;
    }
    if !r.verifySig(byKey[proposer].key, StakeProposal(chainId, b.header.height, b.hash), b.proposerSignature) {
      return false;
    }
    if !requireQuorum {
      return true;
    }
    var approved, _ := ApprovedPower(r, byKey, StakeApproval(chainId, b.header.height, b.hash), b.quorumSignatures);
    return Wrap(approved * 3) > Wrap(total * 2);
  }

  /** The keys counted after one more signer: unknown keys, repeated keys and bad signatures add nothing. */
  function Counted(r: Rules, byKey: map<string, ActiveValidator>, msg: Message, sigs: map<string, string>,
                   signer: string, counted: set<string>): set<string>
    requires signer in sigs
  {
    var key := Lower(signer);
    if key !in byKey || key in counted || !r.verifySig(byKey[key].key, msg, sigs[signer]) then counted
    else counted + {key}
  }

  method ApprovedPower(r: Rules, byKey: map<string, ActiveValidator>, msg: Message, sigs: map<string, string>)
    returns (approved: nat, counted: set<string>)
    requires forall k <- byKey :: byKey[k].key == k
    ensures counted == Approvers(r, byKey, msg, sigs, sigs.Keys)
    ensures approved == Wrap(MapSum(Powers(byKey, counted)))
  {
    approved, counted := 0, {};
    var rest := sigs.Keys;
    ghost var seen := {};
    assert Powers(byKey, {}) == map[];
    while rest != {}
      invariant seen + rest == sigs.Keys && counted == Approvers(r, byKey, msg, sigs, seen)
      invariant approved == Wrap(MapSum(Powers(byKey, counted)))
      decreases rest
    {
      var signer :| signer in rest;
      ApproversGrow(r, byKey, msg, sigs, seen, signer, counted);
      approved, counted := CountSigner(r, byKey, msg, sigs, signer, approved, counted);
      rest, seen := rest - {signer}, seen + {signer};
    }
    assert seen == sigs.Keys;
  }

  /** One turn of the loop. */
  method CountSigner(r: Rules, byKey: map<string, ActiveValidator>, msg: Message, sigs: map<string, string>,
                     signer: string, approved: nat, counted: set<string>)
    returns (approved': nat, counted': set<string>)
    requires signer in sigs && approved == Wrap(MapSum(Powers(byKey, counted)))
    ensures counted' == Counted(r, byKey, msg, sigs, signer, counted)
    ensures approved' == Wrap(MapSum(Powers(byKey, counted')))
  {
    var key := Lower(signer);
    if key !in byKey || key in counted || !r.verifySig(byKey[key].key, msg, sigs[signer]) {
      return approved, counted;
    }
    PowersGrow(byKey, counted, key);
    return Wrap(approved + byKey[key].power), counted + {key};
  }

  lemma ApproversGrow(r: Rules, table: map<string, ActiveValidator>, msg: Message, sigs: map<string, string>,
                      signers: set<string>, signer: string, counted: set<string>)
    requires signers <= sigs.Keys && signer in sigs && counted == Approvers(r, table, msg, sigs, signers)
    ensures Approvers(r, table, msg, sigs, signers + {signer}) == Counted(r, table, msg, sigs, signer, counted)
  {
  }

  lemma PowersGrow(table: map<string, ActiveValidator>, keys: set<string>, key: string)
    requires key in table && key !in keys
    ensures Wrap(Wrap(MapSum(Powers(table, keys))) + table[key].power) == Wrap(MapSum(Powers(table, keys + {key})))
  {
    MapSumUpdate(Powers(table, keys), key, table[key].power);
    assert Powers(table, keys + {key}) == Powers(table, keys)[key := table[key].power];
    WrapAdd(MapSum(Powers(table, keys)), table[key].power);
  }

  // ---------------------------------------------------------------- quorum intersection

  ghost predicate DistinctKeys(members: seq<ActiveValidator>)
  {
    forall i, j :: 0 <= i < j < |members| ==> members[i].key != members[j].key
  }

  /** The power members with a key in `keys` hold together. */
  ghost function PowerOf(members: seq<ActiveValidator>, keys: set<string>): nat
  {
    if members == [] then 0 else
    var last := members[|members| - 1];
    PowerOf(members[..|members| - 1], keys) + (if last.key in keys then last.power else 0)
  }

  lemma {:induction false} ByKeyHolds(members: seq<ActiveValidator>, k: string)
    ensures k in ByKey(members) <==> exists i :: 0 <= i < |members| && members[i].key == k
  {
    if members != [] {
      var n := |members| - 1;
      ByKeyHolds(members[..n], k);
      if k in ByKey(members[..n]) {
        var i :| 0 <= i < n && members[..n][i].key == k;
        assert members[i].key == k;
      }
      if exists i :: 0 <= i < |members| && members[i].key == k {
        var i :| 0 <= i < |members| && members[i].key == k;
        assert i == n || members[..n][i].key == k;
      }
    }
  }

  /** With distinct keys, the sum the loop accumulates is the power of the approving members. */
  lemma {:induction false} ApprovedIsPowerOf(members: seq<ActiveValidator>, keys: set<string>)
    requires DistinctKeys(members)
    ensures MapSum(Powers(ByKey(members), keys)) == PowerOf(members, keys)
  {
    if members == [] {
      assert Powers(ByKey(members), keys) == map[];
    } else {
      var n := |members| - 1;
      var last := members[n];
      ApprovedIsPowerOf(members[..n], keys);
      ByKeyHolds(members[..n], last.key);
      var shorter := Powers(ByKey(members[..n]), keys);
      if last.key in keys {
        assert Powers(ByKey(members), keys) == shorter[last.key := last.power];
        MapSumUpdate(shorter, last.key, last.power);
      } else {
        assert Powers(ByKey(members), keys) == shorter;
      }
    }
  }

  lemma {:induction false} PowerInclusionExclusion(members: seq<ActiveValidator>, a: set<string>, b: set<string>)
    ensures PowerOf(members, a) + PowerOf(members, b) == PowerOf(members, a + b) + PowerOf(members, a * b)
    ensures PowerOf(members, a + b) <= TotalPower(members)
    ensures PowerOf(members, a) <= TotalPower(members)
  {
    if members != [] {
      PowerInclusionExclusion(members[..|members| - 1], a, b);
    }
  }

  /** `k` signed approvals of two hashes at one height: what validator_evidence punishes. */
  ghost predicate SignedBoth(r: Rules, chainId: string, height: nat, k: string, a: Block, b: Block)
  {
    && (exists s <- a.quorumSignatures :: r.verifySig(k, StakeApproval(chainId, height, a.hash), a.quorumSignatures[s]))
    && (exists s <- b.quorumSignatures :: r.verifySig(k, StakeApproval(chainId, height, b.hash), b.quorumSignatures[s]))
  }

  lemma ApproverSigned(r: Rules, chainId: string, b: Block, members: seq<ActiveValidator>, k: string)
    requires k in ApproversOf(r, chainId, b, members)
    ensures exists s <- b.quorumSignatures ::
              r.verifySig(k, StakeApproval(chainId, b.header.height, b.hash), b.quorumSignatures[s])
  {
    var table, msg := ByKey(members), StakeApproval(chainId, b.header.height, b.hash);
    var s :| s in b.quorumSignatures && Lower(s) in table &&
      r.verifySig(table[Lower(s)].key, msg, b.quorumSignatures[s]) && Lower(s) == k;
  }

  /** The approvers two blocks share hold more than a third of the power, and each signed both. */
  ghost predicate Intersect(r: Rules, chainId: string, a: Block, b: Block, members: seq<ActiveValidator>)
  {
    var both := ApproversOf(r, chainId, a, members) * ApproversOf(r, chainId, b, members);
    && PowerOf(members, both) * 3 > TotalPower(members)
    && forall k <- both :: SignedBoth(r, chainId, a.header.height, k, a, b)
  }

  /**
   Two blocks of one height that both pass against one set intersect. Doubling the total must not wrap;
   tripling the approved power may, which only makes the check stricter.
   */
  lemma QuorumIntersection(r: Rules, chainId: string, a: Block, b: Block, members: seq<ActiveValidator>)
    requires DistinctKeys(members) && TotalPower(members) * 2 < U64 && a.header.height == b.header.height
    requires QuorumMet(r, chainId, a, members) && QuorumMet(r, chainId, b, members)
    ensures Intersect(r, chainId, a, b, members)
  {
    var x, y := ApproversOf(r, chainId, a, members), ApproversOf(r, chainId, b, members);
    ApprovedIsPowerOf(members, x);
    ApprovedIsPowerOf(members, y);
    PowerInclusionExclusion(members, x, y);
    PowerInclusionExclusion(members, y, x);
    forall k <- x * y ensures SignedBoth(r, chainId, a.header.height, k, a, b) {
      ApproverSigned(r, chainId, a, members, k);
      ApproverSigned(r, chainId, b, members, k);
    }
  }

  /** Who approves: a member one of whose key's spellings sent a valid signature. */
  lemma ApproversExactly(r: Rules, chainId: string, b: Block, members: seq<ActiveValidator>, k: string)
    ensures k in ApproversOf(r, chainId, b, members) <==>
            && (exists i :: 0 <= i < |members| && members[i].key == k)
            && exists s <- b.quorumSignatures :: Lower(s) == k &&
                 r.verifySig(k, StakeApproval(chainId, b.header.height, b.hash), b.quorumSignatures[s])
  {
    ByKeyHolds(members, k);
    if k in ByKey(members) { assert ByKey(members)[k].key == k; }
  }

  /** Where nothing wraps, the check is the one promised: strictly more than two thirds of the power. */
  lemma QuorumExactly(r: Rules, chainId: string, b: Block, members: seq<ActiveValidator>)
    requires DistinctKeys(members) && TotalPower(members) * 3 < U64
    ensures QuorumMet(r, chainId, b, members) <==>
            PowerOf(members, ApproversOf(r, chainId, b, members)) * 3 > TotalPower(members) * 2
  {
    var x := ApproversOf(r, chainId, b, members);
    ApprovedIsPowerOf(members, x);
    PowerInclusionExclusion(members, x, x);
  }

  // ---------------------------------------------------------------- from which total on it fails

  /** Every accepted pair intersects, whatever the uint64 powers of total `total` and their signatures. */
  ghost predicate AlwaysIntersect(total: nat)
  {
    forall r: Rules, chainId: string, a: Block, b: Block, members: seq<ActiveValidator> ::
      (&& DistinctKeys(members) && TotalPower(members) == total && a.header.height == b.header.height
       && (forall i :: 0 <= i < |members| ==> members[i].power < U64)
       && QuorumMet(r, chainId, a, members) && QuorumMet(r, chainId, b, members)) ==>
        Intersect(r, chainId, a, b, members)
  }

  /** Signatures that verify when they spell the key. */
  function SpelledRules(): Rules
  {
    Rules((t: Tx) => true, (s: State, t: Tx, c: TxContext) => Applied(s, true), (s: State) => "",
          (s: State, p: Staking) => [], (s: State, a: Address) => 0, (h: Header, txs: seq<Tx>) => "",
          (txs: seq<Tx>) => "", (k: string) => "", (k: string, m: Message, sig: string) => k == sig)
  }

  function SignedBy(k: string): Block
  {
    Block(Header(1, "", None, "", "", "", ""), [], k, false, "", map[k := k])
  }

  /** A power two disjoint members can both have out of `total`, each passing the wrapped check alone. */
  function Rogue(total: nat): (x: nat)
    requires total * 2 >= U64
    ensures 2 * x <= total && x < U64 && Wrap(x * 3) > Wrap(Wrap(total) * 2)
  {
    WrapDouble(total);
    if total < 2 * (U64 / 3) then total / 2 else U64 / 3
  }

  lemma WrapDouble(n: nat)
    ensures Wrap(Wrap(n) * 2) == Wrap(n * 2) && Wrap(n * 2) < U64 - 1
  {
    assert n * 2 == Wrap(n) * 2 + U64 * (n / U64 * 2);
    var m, q := n * 2, n * 2 / U64;
    assert m == U64 * q + Wrap(m);
  }

  function Repeat(n: nat): (s: string)
    ensures |s| == n && forall i :: 0 <= i < n ==> s[i] == 'c'
  {
    seq(n, i => 'c')
  }

  /** Members named by runs of more than `n` letters that hold `power` together. */
  function Crowd(power: nat, n: nat): (members: seq<ActiveValidator>)
    ensures forall i :: 0 <= i < |members| ==> members[i].power < U64 && |members[i].key| == n + |members| - i
    decreases power
  {
    if power == 0 then [] else
    var part := Min(power, U64 - 1);
    var rest := Crowd(power - part, n);
    [ActiveValidator("", Repeat(n + |rest| + 1), part)] + rest
  }

  lemma {:induction false} TotalAppend(a: seq<ActiveValidator>, b: seq<ActiveValidator>)
    ensures TotalPower(a + b) == TotalPower(a) + TotalPower(b)
  {
    if b == [] {
      assert a + b == a;
    } else {
      assert (a + b)[..|a + b| - 1] == a + b[..|b| - 1];
      TotalAppend(a, b[..|b| - 1]);
    }
  }

  lemma SinglePower(m: ActiveValidator)
    ensures TotalPower([m]) == m.power
  {
    assert [m][..0] == [];
  }

  lemma {:induction false} CrowdTotal(power: nat, n: nat)
    ensures TotalPower(Crowd(power, n)) == power
    decreases power
  {
    if power > 0 {
      var part := Min(power, U64 - 1);
      CrowdTotal(power - part, n);
      var rest := Crowd(power - part, n);
      var first := ActiveValidator("", Repeat(n + |rest| + 1), part);
      SinglePower(first);
      TotalAppend([first], rest);
    }
  }

  /** Two members of one power, and a crowd holding the rest. */
  function Divided(total: nat): seq<ActiveValidator>
    requires total * 2 >= U64
  {
    var x := Rogue(total);
    Crowd(total - 2 * x, 1) + [ActiveValidator("", "a", x), ActiveValidator("", "b", x)]
  }

  lemma DividedTotal(total: nat)
    requires total * 2 >= U64
    ensures TotalPower(Divided(total)) == total
  {
    var x := Rogue(total);
    var crowd, a, b := Crowd(total - 2 * x, 1), ActiveValidator("", "a", x), ActiveValidator("", "b", x);
    CrowdTotal(total - 2 * x, 1);
    SinglePower(a);
    SinglePower(b);
    assert [a] + [b] == [a, b];
    TotalAppend([a], [b]);
    TotalAppend(crowd, [a, b]);
  }

  lemma DividedSet(total: nat)
    requires total * 2 >= U64
    ensures DistinctKeys(Divided(total)) && forall i :: 0 <= i < |Divided(total)| ==> Divided(total)[i].power < U64
  {
    var x := Rogue(total);
    CrowdWithPair(Crowd(total - 2 * x, 1), ActiveValidator("", "a", x), ActiveValidator("", "b", x));
  }

  lemma CrowdWithPair(crowd: seq<ActiveValidator>, a: ActiveValidator, b: ActiveValidator)
    requires forall i :: 0 <= i < |crowd| ==> crowd[i].power < U64 && |crowd[i].key| == 1 + |crowd| - i
    requires |a.key| == 1 == |b.key| && a.key != b.key && a.power < U64 && b.power < U64
    ensures DistinctKeys(crowd + [a, b]) && forall i :: 0 <= i < |crowd| + 2 ==> (crowd + [a, b])[i].power < U64
  {
    var all := crowd + [a, b];
    forall i, j | 0 <= i < j < |all| ensures all[i].key != all[j].key {
      if i < |crowd| { assert |all[i].key| > |all[j].key|; }
    }
  }

  /** A lone signer of power `x` passes when the wrapped comparison says so. */
  lemma LonePasses(members: seq<ActiveValidator>, i: nat)
    requires DistinctKeys(members) && i < |members| && Lower(members[i].key) == members[i].key
    requires Wrap(Wrap(members[i].power) * 3) > Wrap(Wrap(TotalPower(members)) * 2)
    ensures var k := members[i].key;
            ApproversOf(SpelledRules(), "", SignedBy(k), members) == {k} &&
              QuorumMet(SpelledRules(), "", SignedBy(k), members)
  {
    var r, k, x := SpelledRules(), members[i].key, SignedBy(members[i].key);
    var table := ByKey(members);
    ByKeyHolds(members, k);
    assert table[k].key == k && x.quorumSignatures[k] == k;
    assert k in ApproversOf(r, "", x, members) by {
      assert k in x.quorumSignatures && Lower(k) in table;
      assert r.verifySig(table[Lower(k)].key, StakeApproval("", x.header.height, x.hash), x.quorumSignatures[k]);
    }
    ApprovedIsPowerOf(members, {k});
    LonePower(members, i);
  }

  lemma {:induction false} LonePower(members: seq<ActiveValidator>, i: nat)
    requires DistinctKeys(members) && i < |members|
    ensures PowerOf(members, {members[i].key}) == members[i].power
  {
    var n := |members| - 1;
    if i < n {
      LonePower(members[..n], i);
    } else {
      Absent(members[..n], members[n].key);
    }
  }

  lemma {:induction false} Absent(members: seq<ActiveValidator>, k: string)
    requires forall i :: 0 <= i < |members| ==> members[i].key != k
    ensures PowerOf(members, {k}) == 0
  {
    if members != [] { Absent(members[..|members| - 1], k); }
  }

  lemma {:induction false} NobodyPower(members: seq<ActiveValidator>)
    ensures PowerOf(members, {}) == 0
  {
    if members != [] { NobodyPower(members[..|members| - 1]); }
  }

  /** From 2^63 on there is, for every total, a set in which two members without common power both pass. */
  lemma WrappedPowersLoseIntersection(total: nat)
    requires total * 2 >= U64
    ensures var r, members, x, y := SpelledRules(), Divided(total), SignedBy("a"), SignedBy("b");
            && DistinctKeys(members) && TotalPower(members) == total
            && (forall i :: 0 <= i < |members| ==> members[i].power < U64)
            && QuorumMet(r, "", x, members) && QuorumMet(r, "", y, members) && !Intersect(r, "", x, y, members)
  {
    var r, members, x, y := SpelledRules(), Divided(total), SignedBy("a"), SignedBy("b");
    var n := |members| - 2;
    DividedSet(total);
    DividedTotal(total);
    assert members[n] == ActiveValidator("", "a", Rogue(total)) &&
      members[n + 1] == ActiveValidator("", "b", Rogue(total));
    assert Lower("a") == "a" && Lower("b") == "b";
    LonePasses(members, n);
    LonePasses(members, n + 1);
    assert ApproversOf(r, "", x, members) * ApproversOf(r, "", y, members) == {};
    NobodyPower(members);
  }

  /** Quorums of total power T intersect exactly when twice T fits in uint64. */
  lemma IntersectionExactly(total: nat)
    ensures AlwaysIntersect(total) <==> total * 2 < U64
  {
    if total * 2 < U64 {
      forall r: Rules, chainId: string, a: Block, b: Block, members: seq<ActiveValidator> |
        && DistinctKeys(members) && TotalPower(members) == total && a.header.height == b.header.height
        && QuorumMet(r, chainId, a, members) && QuorumMet(r, chainId, b, members)
        ensures Intersect(r, chainId, a, b, members)
      {
        QuorumIntersection(r, chainId, a, b, members);
      }
    } else {
      WrappedPowersLoseIntersection(total);
    }
  }
}
