/**
 Incremental validator updates: the list handed to the consensus engine must turn the set it runs
 with into the set the application wants (CometBFT v0.38 ABCI, "Updating the Validator Set").
 */
module ValidatorUpdates {
  import opened Common
  import opened Ledger
  import opened StakeQuorum

  const MaxVotingPower: nat := 0x1000_0000_0000_0000

  datatype Update = Update(key: string, power: nat)

  /** A validator set as the engine holds it. */
  function SetMap(members: seq<ActiveValidator>): map<string, nat>
  {
    if members == [] then map[] else
    var last := members[|members| - 1];
    SetMap(members[..|members| - 1])[last.key := last.power]
  }

  /** The engine's rule: power zero removes, anything else adds or replaces. */
  function ApplyUpdates(m: map<string, nat>, us: seq<Update>): map<string, nat>
  {
    if us == [] then m else
    var before, u := ApplyUpdates(m, us[..|us| - 1]), us[|us| - 1];
    if u.power == 0 then before - {u.key} else before[u.key := u.power]
  }

  /** New or changed powers, in the order of `to`. */
  function Upserts(current: map<string, nat>, to: seq<ActiveValidator>): seq<Update>
  {
    if to == [] then [] else
    var v := to[|to| - 1];
    Upserts(current, to[..|to| - 1]) +
    (if v.key in current && current[v.key] == v.power then [] else [Update(v.key, v.power)])
  }

  function Keys(members: seq<ActiveValidator>): set<string>
  {
    set i | 0 <= i < |members| :: members[i].key
  }

  /** Power zero for everyone dropped, in the order of `from`. */
  function Removals(keep: set<string>, from: seq<ActiveValidator>): seq<Update>
  {
    if from == [] then [] else
    var v := from[|from| - 1];
    Removals(keep, from[..|from| - 1]) + (if v.key in keep then [] else [Update(v.key, 0)])
  }

  function Updates(from: seq<ActiveValidator>, to: seq<ActiveValidator>): seq<Update>
  {
    Upserts(SetMap(from), to) + Removals(Keys(to), from)
  }

  predicate Expressible(keyOk: string -> bool, us: seq<Update>)
  {
    forall i :: 0 <= i < |us| ==> keyOk(us[i].key) && us[i].power <= MaxVotingPower
  }

  /** Fails exactly when some update it would emit has a malformed key or an excessive power. */
  method ComputeUpdates(keyOk: string -> bool, from: seq<ActiveValidator>, to: seq<ActiveValidator>)
    returns (out: Option<seq<Update>>)
    ensures out == if Expressible(keyOk, Updates(from, to)) then Some(Updates(from, to)) else None
  {
    var current: map<string, nat> := map[];
    for i := 0 to |from|
      invariant current == SetMap(from[..i])
    {
      assert from[..i + 1][..i] == from[..i];
      current := current[from[i].key := from[i].power];
    }
    assert from[..|from|] == from;
    var us, keep := EmitUpserts(keyOk, current, to);
    if us.None? {
      ExpressibleAppend(keyOk, Upserts(current, to), Removals(Keys(to), from));
      return None;
    }
    var removals := EmitRemovals(keyOk, keep, from);
    ExpressibleAppend(keyOk, Upserts(current, to), Removals(Keys(to), from));
    return if removals.None? then None else Some(us.value + removals.value);
  }

  lemma ExpressibleAppend(keyOk: string -> bool, a: seq<Update>, b: seq<Update>)
    ensures Expressible(keyOk, a + b) <==> Expressible(keyOk, a) && Expressible(keyOk, b)
  {
    if Expressible(keyOk, a + b) {
      forall i | 0 <= i < |a| ensures keyOk(a[i].key) && a[i].power <= MaxVotingPower { assert (a + b)[i] == a[i]; }
      forall i | 0 <= i < |b| ensures keyOk(b[i].key) &&
             b[i].power <= MaxVotingPower { assert (a + b)[|a| + i] == b[i]; }
    }
  }

  method EmitUpserts(keyOk: string -> bool, current: map<string, nat>, to: seq<ActiveValidator>)
    returns (out: Option<seq<Update>>, keep: set<string>)
    ensures out == if Expressible(keyOk, Upserts(current, to)) then Some(Upserts(current, to)) else None
    ensures out.Some? ==> keep == Keys(to)
  {
    keep := {};
    var us := [];
    for i := 0 to |to|
      invariant keep == Keys(to[..i]) && us == Upserts(current, to[..i]) && Expressible(keyOk, us)
    {
      var v := to[i];
      assert to[..i + 1][..i] == to[..i];
      KeysSnoc(to[..i + 1]);
      keep := keep + {v.key};
      if v.key in current && current[v.key] == v.power {
        continue;
      }
      if !keyOk(v.key) || v.power > MaxVotingPower {
        UpsertEmitted(current, to, i);
        return None, keep;
      }
      us := us + [Update(v.key, v.power)];
    }
    assert to[..|to|] == to;
    return Some(us), keep;
  }

  /** A changed power appears among the updates. */
  lemma UpsertEmitted(current: map<string, nat>, to: seq<ActiveValidator>, i: nat)
    requires i < |to| && !(to[i].key in current && current[to[i].key] == to[i].power)
    ensures var n := |Upserts(current, to[..i])|;
            n < |Upserts(current, to)| && Upserts(current, to)[n] == Update(to[i].key, to[i].power)
  {
    UpsertsPrefix(current, to, i + 1);
    assert to[..i + 1][..i] == to[..i];
  }

  method EmitRemovals(keyOk: string -> bool, keep: set<string>, from: seq<ActiveValidator>)
    returns (out: Option<seq<Update>>)
    ensures out == if Expressible(keyOk, Removals(keep, from)) then Some(Removals(keep, from)) else None
  {
    var us := [];
    for i := 0 to |from|
      invariant us == Removals(keep, from[..i]) && Expressible(keyOk, us)
    {
      assert from[..i + 1][..i] == from[..i];
      if from[i].key in keep {
        continue;
      }
      if !keyOk(from[i].key) {
        RemovalsPrefix(keep, from, i + 1);
        assert Removals(keep, from[..i + 1])[|us|] == Update(from[i].key, 0);
        assert Removals(keep, from)[|us|] == Update(from[i].key, 0);
        return None;
      }
      us := us + [Update(from[i].key, 0)];
    }
    assert from[..|from|] == from;
    return Some(us);
  }

  lemma {:induction false} UpsertsPrefix(current: map<string, nat>, to: seq<ActiveValidator>, n: nat)
    requires n <= |to|
    ensures Upserts(current, to[..n]) <= Upserts(current, to)
  {
    if n == |to| {
      assert to[..n] == to;
    } else {
      UpsertsPrefix(current, to[..|to| - 1], n);
      assert to[..|to| - 1][..n] == to[..n];
    }
  }

  lemma {:induction false} RemovalsPrefix(keep: set<string>, from: seq<ActiveValidator>, n: nat)
    requires n <= |from|
    ensures Removals(keep, from[..n]) <= Removals(keep, from)
  {
    if n == |from| {
      assert from[..n] == from;
    } else {
      RemovalsPrefix(keep, from[..|from| - 1], n);
      assert from[..|from| - 1][..n] == from[..n];
    }
  }

  // ---------------------------------------------------------------- from into to

  /** A set the registry produces: one entry per key, every power positive. */
  ghost predicate WellFormed(members: seq<ActiveValidator>)
  {
    DistinctKeys(members) && forall i :: 0 <= i < |members| ==> members[i].power > 0
  }

  ghost predicate DistinctUpdates(us: seq<Update>)
  {
    forall i, j :: 0 <= i < j < |us| ==> us[i].key != us[j].key
  }

  function Get(m: map<string, nat>, k: string): Option<nat>
  {
    if k in m then Some(m[k]) else None
  }

  /** The last update for `k`. */
  function Find(us: seq<Update>, k: string): Option<nat>
  {
    if us == [] then None
    else if us[|us| - 1].key == k then Some(us[|us| - 1].power)
    else Find(us[..|us| - 1], k)
  }

  lemma {:induction false} ApplyAt(m: map<string, nat>, us: seq<Update>, k: string)
    ensures Get(ApplyUpdates(m, us), k) ==
            match Find(us, k) case None => Get(m, k) case Some(p) => if p == 0 then None else Some(p)
  {
    if us != [] { ApplyAt(m, us[..|us| - 1], k); }
  }

  lemma {:induction false} FindAppend(a: seq<Update>, b: seq<Update>, k: string)
    ensures Find(a + b, k) == if Find(b, k).Some? then Find(b, k) else Find(a, k)
  {
    if b == [] {
      assert a + b == a;
    } else {
      assert (a + b)[..|a + b| - 1] == a + b[..|b| - 1];
      FindAppend(a, b[..|b| - 1], k);
    }
  }

  lemma {:induction false} FindUpsert(current: map<string, nat>, to: seq<ActiveValidator>, k: string)
    requires DistinctKeys(to)
    ensures Get(SetMap(to), k).None? ==> Find(Upserts(current, to), k).None?
    ensures Get(SetMap(to), k).Some? ==>
              Find(Upserts(current, to), k) == if Get(current, k) == Get(SetMap(to), k) then None
                else Get(SetMap(to), k)
    ensures k in SetMap(to) <==> k in Keys(to)
  {
    if to != [] {
      var n := |to| - 1;
      var v, shorter := to[n], to[..n];
      FindUpsert(current, shorter, k);
      KeysSnoc(to);
      var added := if v.key in current && current[v.key] == v.power then [] else [Update(v.key, v.power)];
      FindAppend(Upserts(current, shorter), added, k);
      assert added != [] ==> added[..0] == [];
      if v.key == k {
        assert k !in Keys(shorter);
      }
    }
  }

  lemma KeysSnoc(members: seq<ActiveValidator>)
    requires members != []
    ensures Keys(members) == Keys(members[..|members| - 1]) + {members[|members| - 1].key}
  {
    var n := |members| - 1;
    forall k | k in Keys(members) ensures k in Keys(members[..n]) + {members[n].key} {
      var i :| 0 <= i < |members| && members[i].key == k;
      assert i == n || members[..n][i].key == k;
    }
    forall k | k in Keys(members[..n]) ensures k in Keys(members) {
      var i :| 0 <= i < n && members[..n][i].key == k;
      assert members[i].key == k;
    }
  }

  lemma {:induction false} FindRemoval(keep: set<string>, from: seq<ActiveValidator>, k: string)
    ensures Find(Removals(keep, from), k) == if k in SetMap(from) && k !in keep then Some(0) else None
  {
    if from != [] {
      var n := |from| - 1;
      FindRemoval(keep, from[..n], k);
      var added := if from[n].key in keep then [] else [Update(from[n].key, 0)];
      FindAppend(Removals(keep, from[..n]), added, k);
      assert added != [] ==> added[..0] == [];
    }
  }

  lemma {:induction false} SetMapPositive(members: seq<ActiveValidator>)
    requires forall i :: 0 <= i < |members| ==> members[i].power > 0
    ensures forall k <- SetMap(members) :: SetMap(members)[k] > 0
    ensures members != [] ==> SetMap(members) != map[]
  {
    if members != [] {
      SetMapPositive(members[..|members| - 1]);
      assert members[|members| - 1].key in SetMap(members);
    }
  }

  /** The emitted updates turn set `from` into set `to`, exactly. */
  lemma UpdatesConvert(from: seq<ActiveValidator>, to: seq<ActiveValidator>)
    requires WellFormed(to)
    ensures ApplyUpdates(SetMap(from), Updates(from, to)) == SetMap(to)
  {
    var got, want := ApplyUpdates(SetMap(from), Updates(from, to)), SetMap(to);
    SetMapPositive(to);
    forall k: string ensures Get(got, k) == Get(want, k) {
      ApplyAt(SetMap(from), Updates(from, to), k);
      FindAppend(Upserts(SetMap(from), to), Removals(Keys(to), from), k);
      FindUpsert(SetMap(from), to, k);
      FindRemoval(Keys(to), from, k);
    }
    assert forall k :: k in got <==> Get(got, k).Some?;
    assert forall k :: k in want <==> Get(want, k).Some?;
    assert forall k :: k in want ==> got[k] == Get(got, k).value && want[k] == Get(want, k).value;
  }

  /** Nobody whose power stays is mentioned. */
  lemma UpdatesMinimal(from: seq<ActiveValidator>, to: seq<ActiveValidator>, k: string)
    requires WellFormed(to) && Get(SetMap(from), k) == Get(SetMap(to), k)
    ensures Find(Updates(from, to), k).None?
  {
    FindAppend(Upserts(SetMap(from), to), Removals(Keys(to), from), k);
    FindUpsert(SetMap(from), to, k);
    FindRemoval(Keys(to), from, k);
  }

  /** What the engine insists on: one update per key, and removals only of validators it has. */
  lemma UpdatesAcceptable(from: seq<ActiveValidator>, to: seq<ActiveValidator>)
    requires WellFormed(from) && WellFormed(to)
    ensures DistinctUpdates(Updates(from, to))
    ensures forall i :: 0 <= i < |Updates(from, to)| && Updates(from, to)[i].power == 0 ==>
            Updates(from, to)[i].key in SetMap(from)
  {
    UpsertKeys(SetMap(from), to);
    RemovalKeys(Keys(to), from);
  }

  lemma {:induction false} UpsertKeys(current: map<string, nat>, to: seq<ActiveValidator>)
    requires WellFormed(to)
    ensures DistinctUpdates(Upserts(current, to))
    ensures forall i :: 0 <= i < |Upserts(current, to)| ==>
            Upserts(current, to)[i].key in Keys(to) && Upserts(current, to)[i].power > 0
  {
    if to != [] {
      UpsertKeys(current, to[..|to| - 1]);
      KeysSnoc(to);
    }
  }

  lemma {:induction false} RemovalKeys(keep: set<string>, from: seq<ActiveValidator>)
    requires DistinctKeys(from)
    ensures DistinctUpdates(Removals(keep, from))
    ensures forall i :: 0 <= i < |Removals(keep, from)| ==>
              var u := Removals(keep, from)[i]; u.key !in keep && u.key in Keys(from) && u.key in SetMap(from)
  {
    if from != [] {
      RemovalKeys(keep, from[..|from| - 1]);
      KeysSnoc(from);
    }
  }
}
