/**
 Serving blocks: recent heights from the hot window, older ones from a cold archive, and what that
 amounts to on the history the window and the archive together stand for.
 */
module BlockReads {
  import opened Common
  import opened Ledger
  import opened ChainMachine
  import opened HotWindow

  type Archive = nat -> Option<Block>

  /** In-window lookup; the flag says whether a cold lookup could still find the height. */
  function HotAt(v: View, height: nat): (Option<Block>, bool)
  {
    if v.blocks == [] || height > v.Height() then (None, false)
    else if height < v.hotStart || height - v.hotStart >= |v.blocks| then (None, true)
    else (Some(v.blocks[height - v.hotStart]), false)
  }

  function BlockAt(v: View, archive: Option<Archive>, height: nat): Option<Block>
  {
    var (hot, maybeCold) := HotAt(v, height);
    if hot.Some? || !maybeCold || archive.None? then hot else archive.value(height)
  }

  /** Archived blocks from `from` up to the first gap or `until`. */
  function ColdRun(archive: Archive, from: nat, until: nat): (run: seq<Block>)
    ensures |run| <= Max(until - from, 0)
    ensures forall i :: 0 <= i < |run| ==> archive(from + i) == Some(run[i])
    ensures from + |run| < until ==> archive(from + |run|).None?
    decreases until - from
  {
    if from >= until || archive(from).None? then [] else [archive(from).value] + ColdRun(archive, from + 1, until)
  }

  /** How many blocks a request from height `from` is after. */
  function Wanted(v: View, from: nat, limit: int): nat
    requires from <= v.Height()
  {
    var available := v.Height() - from + 1;
    if 0 < limit < available then limit else available
  }

  function HotPart(v: View, from: nat, limit: int): seq<Block>
    requires from <= v.Height()
  {
    var want := Wanted(v, from, limit);
    if from >= v.hotStart then
      var idx := from - v.hotStart;
      if idx >= |v.blocks| then [] else
      v.blocks[idx..idx + (if limit > 0 then Min(want, |v.blocks| - idx) else |v.blocks| - idx)]
    else
      var cold := v.hotStart - from;
      if limit > 0 && want <= cold then [] else
      v.blocks[..if limit > 0 then Min(want - cold, |v.blocks|) else |v.blocks|]
  }

  function BlocksRange(v: View, archive: Option<Archive>, from: int, limit: int): seq<Block>
  {
    var start := Max(from, 0);
    if v.blocks == [] || start > v.Height() then [] else
    var hot := HotPart(v, start, limit);
    if start >= v.hotStart || archive.None? then hot else
    var cold := ColdRun(archive.value, start, v.hotStart);
    Combined(cold, v.hotStart - start, hot, limit)
  }

  /** Cold blocks, then -- if none of the `evicted` ones was missing -- hot ones, up to the limit. */
  function Combined(cold: seq<Block>, evicted: nat, hot: seq<Block>, limit: int): seq<Block>
  {
    if limit > 0 && |cold| >= limit then cold[..limit]
    else if |cold| < evicted then cold
    else if limit > 0 && |cold| + |hot| > limit then cold + hot[..limit - |cold|]
    else cold + hot
  }

  // ---------------------------------------------------------------- against the history

  /** The archive never answers with a block other than the one finalized at that height. */
  ghost predicate Faithful(archive: Archive, history: seq<Block>)
  {
    forall h: nat :: h < |history| && archive(h).Some? ==> archive(h).value == history[h]
  }

  /** Some height the window no longer holds is missing from the archive too. */
  ghost predicate GapAt(archive: Option<Archive>, hotStart: nat, h: nat)
  {
    h < hotStart && (archive.None? || archive.value(h).None?)
  }

  /**
   `out` is the slice of the history from `start`, as long as was asked for or as far as the first
   height missing from the archive: the longest contiguous answer there is.
   */
  ghost predicate LongestRun(v: View, archive: Option<Archive>, history: seq<Block>, start: nat, want: nat,
                             out: seq<Block>)
  {
    && |out| <= want && start + want <= |history|
    && out == history[start..start + |out|]
    && (|out| < want ==> GapAt(archive, v.hotStart, start + |out|))
  }

  lemma ShapedHeight(v: View, history: seq<Block>, dropped: nat)
    requires Shaped(v, history, dropped)
    ensures v.blocks != [] && v.Height() == |history| - 1
  {
    assert v.blocks[|v.blocks| - 1] == history[|history| - 1];
  }

  lemma ColdIsHistory(archive: Archive, history: seq<Block>, from: nat, until: nat)
    requires Faithful(archive, history) && from <= until <= |history|
    ensures var run := ColdRun(archive, from, until);
            from + |run| <= |history| && run == history[from..from + |run|]
  {
    var run := ColdRun(archive, from, until);
    forall i | 0 <= i < |run| ensures run[i] == history[from + i] {
      assert archive(from + i) == Some(run[i]);
    }
  }

  /** The hot blocks of an answer are the part of the wanted slice that is still in memory. */
  ghost predicate HotSlice(history: seq<Block>, hotStart: nat, from: nat, want: nat, hot: seq<Block>)
  {
    var at := Max(from, hotStart);
    && from + want <= |history| && at + |hot| <= |history|
    && hot == history[at..at + |hot|]
    && |hot| == Max(from + want - at, 0)
  }

  lemma HotIsHistory(v: View, history: seq<Block>, from: nat, limit: int)
    requires Shaped(v, history, 0) && from <= v.Height()
    ensures HotSlice(history, v.hotStart, from, Wanted(v, from, limit), HotPart(v, from, limit))
  {
    ShapedHeight(v, history, 0);
    WindowSlice(v, history, from, limit);
  }

  lemma WindowSlice(v: View, history: seq<Block>, from: nat, limit: int)
    requires v.hotStart < |history| && v.blocks == history[v.hotStart..] && from <= v.Height() == |history| - 1
    ensures HotSlice(history, v.hotStart, from, Wanted(v, from, limit), HotPart(v, from, limit))
  {
  }

  lemma RangeIsLongest(v: View, archive: Archive, history: seq<Block>, from: int, limit: int)
    requires v.blocks != [] && v.hotStart < |history| && v.Height() == |history| - 1 && Faithful(archive, history)
    requires var start := Max(from, 0);
             start < |history| && HotSlice(history, v.hotStart, start, Wanted(v, start, limit),
               HotPart(v, start, limit))
    ensures LongestRun(v, Some(archive), history, Max(from, 0), Wanted(v, Max(from, 0), limit),
            BlocksRange(v, Some(archive), from, limit))
  {
    var start := Max(from, 0);
    var want, hot := Wanted(v, start, limit), HotPart(v, start, limit);
    if start < v.hotStart {
      ColdThenHotLongest(v, archive, history, start, limit, want, hot);
    }
  }

  lemma ColdThenHotLongest(v: View, archive: Archive, history: seq<Block>, start: nat, limit: int, want: nat,
                           hot: seq<Block>)
    requires start < v.hotStart < |history| && Faithful(archive, history) &&
             HotSlice(history, v.hotStart, start, want, hot)
    requires want == if 0 < limit < |history| - start then limit else |history| - start
    ensures LongestRun(v, Some(archive), history, start, want,
            Combined(ColdRun(archive, start, v.hotStart), v.hotStart - start, hot, limit))
  {
    var cold := ColdRun(archive, start, v.hotStart);
    ColdIsHistory(archive, history, start, v.hotStart);
    ColdThenHot(history, start, v.hotStart, cold, hot, limit, want);
  }

  /** Without a cold reader, nothing below the window can be asked for except blocks that all lie below it. */
  predicate Readable(v: View, archive: Option<Archive>, start: nat, limit: int)
  {
    archive.Some? || start >= v.hotStart || 0 < limit <= v.hotStart - start
  }

  /**
   Without a cold reader a request that starts below the window and reaches into it is answered with
   the window's blocks, as if they came first.
   */
  lemma NoArchiveRange(v: View, history: seq<Block>, from: int, limit: int)
    requires v.blocks != [] && v.hotStart < |history| && v.Height() == |history| - 1
    requires forall i :: 0 <= i < |history| ==> history[i].header.height == i
    requires var start := Max(from, 0);
             start < |history| && HotSlice(history, v.hotStart, start, Wanted(v, start, limit),
               HotPart(v, start, limit))
    ensures var start := Max(from, 0);
            LongestRun(v, None, history, start, Wanted(v, start, limit), BlocksRange(v, None, from, limit)) <==>
            Readable(v, None, start, limit)
  {
    var start := Max(from, 0);
    var out := BlocksRange(v, None, from, limit);
    if !Readable(v, None, start, limit) {
      assert out != [] && out[0] == history[v.hotStart];
      assert history[start].header.height != history[v.hotStart].header.height;
      if start + |out| <= |history| { assert history[start..start + |out|][0] == history[start]; }
    }
  }

  /**
   Read refinement: BlocksRange serves the history itself, clipped only by the limit and a gap -- exactly
   when there is a cold reader or the request does not reach from below the window into it.
   */
  lemma BlocksRangeServesHistory(v: View, archive: Option<Archive>, history: seq<Block>,
                                 from: int, limit: int)
    requires Shaped(v, history, 0)
    requires archive.Some? ==> Faithful(archive.value, history)
    ensures var start := Max(from, 0);
            if start >= |history| then BlocksRange(v, archive, from, limit) == []
            else
              && v.Height() == |history| - 1
              && (LongestRun(v, archive, history, start, Wanted(v, start, limit),
                   BlocksRange(v, archive, from, limit)) <==>
                    Readable(v, archive, start, limit))
  {
    ShapedHeight(v, history, 0);
    var start := Max(from, 0);
    if start < |history| {
      HotIsHistory(v, history, start, limit);
      if archive.Some? {
        RangeIsLongest(v, archive.value, history, from, limit);
      } else {
        NoArchiveRange(v, history, from, limit);
      }
    }
  }

  function EmptyBlock(height: nat, parentHash: string, hash: string): Block
  {
    Block(Header(height, parentHash, None, "", "", "", ""), [], hash, true, "", map[])
  }

  /** Genesis and one block, trimmed to one, no cold reader: asked for all blocks, it answers with block 1 only. */
  lemma NoArchiveSkipsGenesis(r: Rules, st: State)
    ensures var cfg := Config("c", 1, map[], 1, 0, 0, [], Staking(0, 0, 0, 0));
            var g, b := EmptyBlock(0, "", "g"), EmptyBlock(1, "g", "b");
            var v := View([b], st, 1, 1, Some(st), Some(g), Some(st));
            && Agrees(r, cfg, v, [g, b], 0) && BlocksRange(v, None, 0, 0) == [b]
            && !LongestRun(v, None, [g, b], 0, 2, BlocksRange(v, None, 0, 0))
  {
    var cfg := Config("c", 1, map[], 1, 0, 0, [], Staking(0, 0, 0, 0));
    var g, b := EmptyBlock(0, "", "g"), EmptyBlock(1, "g", "b");
    var h := [g, b];
    assert h[1..] == [b] && [b][1..] == [] && h[1..1] == [];
    assert Replay(r, cfg, st, [b]) == Some(st);
    BlocksRangeServesHistory(View([b], st, 1, 1, Some(st), Some(g), Some(st)), None, h, 0, 0);
  }

  lemma ColdThenHot(history: seq<Block>, start: nat, mid: nat, cold: seq<Block>, hot: seq<Block>, limit: int, want: nat)
    requires start < mid <= |history| && |cold| <= mid - start
    requires cold == history[start..start + |cold|] && HotSlice(history, mid, start, want, hot)
    requires limit > 0 ==> want <= limit
    requires want < mid - start ==> want == limit > 0
    ensures var out := Combined(cold, mid - start, hot, limit);
            && |out| <= want && out == history[start..start + |out|]
            && (|out| < want ==> |out| == |cold| < mid - start)
  {
    if |cold| == mid - start {
      assert history[start..mid] + hot == history[start..mid + |hot|];
    }
  }

  /** With no gap, that is the requested slice in full. */
  lemma BlocksRangeComplete(v: View, archive: Option<Archive>, history: seq<Block>,
                            from: int, limit: int)
    requires Shaped(v, history, 0)
    requires forall h: nat :: h < v.hotStart ==> archive.Some? && archive.value(h) == Some(history[h])
    requires archive.Some? ==> Faithful(archive.value, history)
    requires Max(from, 0) < |history|
    ensures v.Height() == |history| - 1
    ensures var start := Max(from, 0);
            var want := Wanted(v, start, limit);
            && BlocksRange(v, archive, from, limit) == history[start..start + want]
            && want == (if limit > 0 then Min(limit, |history| - start) else |history| - start)
  {
    assert v.hotStart > 0 ==> archive.Some? && archive.value(0) == Some(history[0]);
    BlocksRangeServesHistory(v, archive, history, from, limit);
  }

  /** Single reads agree: a height is answered with its block, or not at all across a gap. */
  lemma BlockAtServesHistory(v: View, archive: Option<Archive>, history: seq<Block>, height: nat)
    requires Shaped(v, history, 0)
    requires archive.Some? ==> Faithful(archive.value, history)
    ensures height >= |history| ==> BlockAt(v, archive, height).None?
    ensures height < |history| && !GapAt(archive, v.hotStart, height) ==>
            BlockAt(v, archive, height) == Some(history[height])
    ensures height < |history| && GapAt(archive, v.hotStart, height) ==> BlockAt(v, archive, height).None?
  {
    ShapedHeight(v, history, 0);
  }

  /** After genesis was dropped, a range read inside the window starts one block late. */
  lemma DroppedRangeIsOff(v: View, archive: Option<Archive>, history: seq<Block>, from: int, limit: int)
    requires Shaped(v, history, 1) && v.hotStart <= Max(from, 0) < |history|
    ensures v.Height() == |history| - 1
    ensures var start := Max(from, 0);
            BlocksRange(v, archive, from, limit) ==
            history[start + 1..Min(start + 1 + Wanted(v, start, limit), |history|)]
  {
    ShapedHeight(v, history, 1);
    var start := Max(from, 0);
    DroppedSlice(v, history, start, Wanted(v, start, limit), limit);
  }

  lemma DroppedSlice(v: View, history: seq<Block>, start: nat, want: nat, limit: int)
    requires Shaped(v, history, 1) && v.Height() == |history| - 1 && v.hotStart <= start < |history|
    requires want == Wanted(v, start, limit)
    ensures HotPart(v, start, limit) == history[start + 1..Min(start + 1 + want, |history|)]
  {
    var idx, left := start - v.hotStart, |history| - 1 - start;
    assert |v.blocks| == idx + left && v.blocks == history[v.hotStart + 1..];
    if left > 0 {
      var m := if limit > 0 then Min(want, left) else left;
      assert HotPart(v, start, limit) == v.blocks[idx..idx + m];
      SliceOfTail(history, v.hotStart + 1, idx, m);
    }
  }

  lemma SliceOfTail<T>(s: seq<T>, at: nat, i: nat, m: nat)
    requires at + i + m <= |s|
    ensures s[at..][i..i + m] == s[at + i..at + i + m]
  {
  }

  /**
   After the drop a range read still serves the history exactly when it ends below the window, at its
   limit or at a gap in the archive.
   */
  lemma DroppedRangeExactly(v: View, archive: Option<Archive>, history: seq<Block>, from: int, limit: int)
    requires Shaped(v, history, 1) && Max(from, 0) < |history|
    requires archive.Some? ==> Faithful(archive.value, history)
    ensures v.Height() == |history| - 1
    ensures var start := Max(from, 0);
            LongestRun(v, archive, history, start, Wanted(v, start, limit), BlocksRange(v, archive, from, limit)) <==>
            && start < v.hotStart
            && (|| 0 < limit <= v.hotStart - start
                || (archive.Some? && |ColdRun(archive.value, start, v.hotStart)| < v.hotStart - start))
  {
    ShapedHeight(v, history, 1);
    var start := Max(from, 0);
    if start >= v.hotStart {
      DroppedRangeIsOff(v, archive, history, from, limit);
      var out := BlocksRange(v, archive, from, limit);
      if out != [] {
        assert out[0].header.height == start + 1 && history[start].header.height == start;
        assert start + |out| <= |history| ==> history[start..start + |out|][0] == history[start];
      }
    } else {
      DroppedRangeBelow(v, archive, history, start, limit, BlocksRange(v, archive, from, limit));
    }
  }

  /** A read from below the window: the cold part is right, the hot part skips a block. */
  lemma DroppedRangeBelow(v: View, archive: Option<Archive>, history: seq<Block>, start: nat, limit: int,
                          out: seq<Block>)
    requires Shaped(v, history, 1) && v.Height() == |history| - 1 && start < v.hotStart
    requires archive.Some? ==> Faithful(archive.value, history)
    requires out == BlocksRange(v, archive, start, limit)
    ensures LongestRun(v, archive, history, start, Wanted(v, start, limit), out) <==>
            || 0 < limit <= v.hotStart - start
            || (archive.Some? && |ColdRun(archive.value, start, v.hotStart)| < v.hotStart - start)
  {
    if archive.Some? {
      DroppedRangeCold(v, archive.value, history, start, limit);
    } else if 0 < limit <= v.hotStart - start {
      assert out == HotPart(v, start, limit) == [];
    } else {
      LateStart(v, history, start, limit);
    }
  }

  lemma DroppedRangeCold(v: View, archive: Archive, history: seq<Block>, start: nat, limit: int)
    requires Shaped(v, history, 1) && v.Height() == |history| - 1 && start < v.hotStart && Faithful(archive, history)
    ensures var cold, run := v.hotStart - start, ColdRun(archive, start, v.hotStart);
            LongestRun(v, Some(archive), history, start, Wanted(v, start, limit),
              Combined(run, cold, HotPart(v, start, limit), limit))
            <==> 0 < limit <= cold || |run| < cold
  {
    var cold, hot, run := v.hotStart - start, HotPart(v, start, limit), ColdRun(archive, start, v.hotStart);
    ColdIsHistory(archive, history, start, v.hotStart);
    if |run| == cold && !(0 < limit <= cold) {
      SkippedBlock(v, Some(archive), history, start, limit, run, Combined(run, cold, hot, limit));
    } else {
      ColdServes(v, archive, history, start, limit, hot);
    }
  }

  lemma ColdServes(v: View, archive: Archive, history: seq<Block>, start: nat, limit: int, hot: seq<Block>)
    requires v.Height() == |history| - 1 && start < v.hotStart < |history| && Faithful(archive, history)
    requires |ColdRun(archive, start, v.hotStart)| < v.hotStart - start || 0 < limit <= v.hotStart - start
    ensures LongestRun(v, Some(archive), history, start, Wanted(v, start, limit),
                       Combined(ColdRun(archive, start, v.hotStart), v.hotStart - start, hot, limit))
  {
    ColdIsHistory(archive, history, start, v.hotStart);
    ColdOnly(history, start, v.hotStart, ColdRun(archive, start, v.hotStart), hot, limit, Wanted(v, start, limit));
  }

  /** Without a cold reader the answer begins above the window's start. */
  lemma LateStart(v: View, history: seq<Block>, start: nat, limit: int)
    requires Shaped(v, history, 1) && v.Height() == |history| - 1 && start < v.hotStart
    requires !(0 < limit <= v.hotStart - start)
    ensures !LongestRun(v, None, history, start, Wanted(v, start, limit), HotPart(v, start, limit))
  {
    var hot := HotPart(v, start, limit);
    assert hot != [] && hot[0] == history[v.hotStart + 1];
    assert history[start].header.height == start && hot[0].header.height == v.hotStart + 1;
    if start + |hot| <= |history| { assert history[start..start + |hot|][0] == history[start]; }
  }

  /** An answer that ends below the window needs nothing of it. */
  lemma ColdOnly(history: seq<Block>, start: nat, mid: nat, run: seq<Block>, hot: seq<Block>, limit: int, want: nat)
    requires start < mid < |history| && |run| <= mid - start && run == history[start..start + |run|]
    requires want == if 0 < limit < |history| - start then limit else |history| - start
    requires |run| < mid - start || 0 < limit <= mid - start
    ensures var out := Combined(run, mid - start, hot, limit);
            && |out| <= want && out == history[start..start + |out|]
            && (|out| < want ==> |out| == |run| < mid - start)
  {
  }

  lemma SkippedBlock(v: View, archive: Option<Archive>, history: seq<Block>, start: nat, limit: int, run: seq<Block>,
                     out: seq<Block>)
    requires Shaped(v, history, 1) && v.Height() == |history| - 1 && start < v.hotStart && |run| == v.hotStart - start
    requires !(0 < limit <= v.hotStart - start) && out == Combined(run, |run|, HotPart(v, start, limit), limit)
    ensures !LongestRun(v, archive, history, start, Wanted(v, start, limit), out)
  {
    var hot := HotPart(v, start, limit);
    assert hot != [] && hot[0] == history[v.hotStart + 1];
    assert out[|run|] == hot[0];
    assert history[v.hotStart].header.height == v.hotStart && hot[0].header.height == v.hotStart + 1;
    if start + |out| <= |history| { assert history[start..start + |out|][|run|] == history[v.hotStart]; }
  }

  /** After genesis was dropped from the window, every in-window height is answered with the next block. */
  lemma DroppedReadsAreOff(v: View, archive: Option<Archive>, history: seq<Block>, height: nat)
    requires Shaped(v, history, 1) && v.hotStart <= height < |history| - 1
    ensures BlockAt(v, archive, height) == Some(history[height + 1])
  {
    ShapedHeight(v, history, 1);
    assert v.blocks[height - v.hotStart] == history[height + 1];
  }
}
