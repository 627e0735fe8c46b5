/**
 * How two nodes find out which blocks one of them lacks: one sends a summary of its
 * chain that is dense near the tip, the other answers with the ids that follow.
 */
module Synopsis {
  import opened Wrappers
  import opened Blocks
  import opened Sequences

  /** A list of ids of consecutive blocks from number 1 on. */
  ghost predicate IsChain(chain: seq<BlockId>) {
    forall i :: 0 <= i < |chain| ==> chain[i].num == i + 1
  }

  predicate Includes(chain: seq<BlockId>, id: BlockId) {
    1 <= id.num <= |chain| && chain[id.num - 1] == id
  }

  function Log2(n: nat): nat
    requires n > 0
  {
    if n == 1 then 0 else 1 + Log2(n / 2)
  }

  /** `n` halved `k` times. */
  function Halved(n: nat, k: nat): nat {
    if k == 0 then n else Halved(n, k - 1) / 2
  }

  lemma {:induction false} HalvedShift(n: nat, k: nat)
    ensures Halved(n, k + 1) == Halved(n / 2, k)
  {
    if k > 0 { HalvedShift(n, k - 1); }
  }

  /** Halving reaches zero after exactly one step more than the logarithm. */
  lemma {:induction false} HalvedVanishes(n: nat, k: nat)
    requires n > 0
    ensures Halved(n, k) > 0 <==> k <= Log2(n)
    ensures Halved(n, Log2(n)) == 1
    decreases n
  {
    if n == 1 {
      if k > 0 { HalvedShift(n, k - 1); ZeroHalved(k - 1); }
    } else {
      HalvedVanishes(n / 2, if k > 0 then k - 1 else 0);
      if k > 0 { HalvedShift(n, k - 1); }
      HalvedShift(n, Log2(n / 2));
    }
  }

  lemma {:induction false} ZeroHalved(k: nat)
    ensures Halved(0, k) == 0
  {
    if k > 0 { ZeroHalved(k - 1); }
  }

  /** The number of the `k`-th block in a summary from `low` to `high`: the rest is halved each time. */
  function Position(low: nat, high: nat, k: nat): int
    requires low <= high
  {
    high + 1 - Halved(high - low + 1, k)
  }

  /** Block ids at these positions of `chain`, as far as it goes. */
  ghost predicate Summarizes(chain: seq<BlockId>, low: nat, high: nat, ids: seq<BlockId>)
    requires 1 <= low <= |chain| <= high
  {
    && |ids| > 0
    && (forall k :: 0 <= k < |ids| ==> low <= Position(low, high, k) <= |chain| && ids[k] == chain[Position(low, high, k) - 1])
    && Position(low, high, |ids|) > |chain|
  }

  lemma {:induction false} PositionGrows(low: nat, high: nat, j: nat, k: nat)
    requires low <= high && j < k && Position(low, high, j) <= high
    ensures Position(low, high, j) < Position(low, high, k)
  {
    if j + 1 < k {
      PositionGrows(low, high, j, k - 1);
    }
  }

  /**
   * A summary has strictly increasing numbers, at most one entry more than the logarithm
   * of the span, and exactly that many, ending with the last block, if nothing follows.
   */
  lemma SummaryIsShort(chain: seq<BlockId>, low: nat, high: nat, ids: seq<BlockId>)
    requires IsChain(chain) && 1 <= low <= |chain| <= high && Summarizes(chain, low, high, ids)
    ensures forall j, k :: 0 <= j < k < |ids| ==> ids[j].num < ids[k].num
    ensures |ids| <= Log2(high - low + 1) + 1
    ensures ids[0] == chain[low - 1]
    ensures |chain| == high ==> |ids| == Log2(high - low + 1) + 1 && ids[|ids| - 1] == chain[|chain| - 1]
  {
    var span := high - low + 1;
    forall j, k | 0 <= j < k < |ids| ensures ids[j].num < ids[k].num { PositionGrows(low, high, j, k); }
    assert Position(low, high, |ids| - 1) <= high;
    HalvedVanishes(span, |ids| - 1);
    HalvedVanishes(span, |ids|);
  }

  datatype Answer = Ids(ids: seq<BlockId>) | Refused

  predicate OffChain(chain: seq<BlockId>, reference: Option<BlockId>) {
    reference.Some? && !Includes(chain, reference.value)
  }

  /** The branch of a block off the chain, newest first, ending with the last common block. */
  ghost predicate IsBranch(chain: seq<BlockId>, reference: BlockId, branch: seq<BlockId>) {
    && |branch| >= 2 && branch[0] == reference
    && (forall i :: 0 <= i < |branch| ==> branch[i].num == branch[|branch| - 1].num + |branch| - 1 - i)
    && (branch[|branch| - 1] == NO_BLOCK || Includes(chain, branch[|branch| - 1]))
  }

  /** The chain up to the reference point: our own, or the branch it is on. */
  ghost function UpTo(chain: seq<BlockId>, reference: Option<BlockId>, branch: seq<BlockId>): (r: seq<BlockId>)
    requires IsChain(chain) && (OffChain(chain, reference) ==> IsBranch(chain, reference.value, branch))
    ensures IsChain(r)
  {
    if reference.None? then chain
    else if Includes(chain, reference.value) then chain[..reference.value.num]
    else
      var common := branch[|branch| - 1].num;
      chain[..common] + Reversed(branch[..|branch| - 1])
  }

  /**
   * Summarizes the chain up to the reference point, from the last block that cannot be
   * undone on, leaving room for `after` more blocks.  `onFork` is the branch that the
   * reference point is on if it is not on the chain, provided it is known.
   */
  method GetSynopsis(chain: seq<BlockId>, lastFixed: nat, reference: Option<BlockId>, onFork: Option<seq<BlockId>>, after: nat) returns (a: Answer)
    requires IsChain(chain) && lastFixed <= |chain|
    requires OffChain(chain, reference) && onFork.Some? ==> IsBranch(chain, reference.value, onFork.value)
    ensures a.Refused? <==> OffChain(chain, reference) && (onFork.None? || onFork.value[|onFork.value| - 1].num < lastFixed)
    ensures reference.None? && chain == [] ==> a == Ids([])
    ensures a.Ids? && (reference.Some? || chain != []) ==>
              var c := UpTo(chain, reference, if onFork.Some? then onFork.value else []);
              var low := if lastFixed == 0 then 1 else if lastFixed > |c| then |c| else lastFixed;
              1 <= low <= |c| && Summarizes(c, low, |c| + after, a.ids)
  {
    hide Reversed, Halved;
    var low, high, nonFork, fork := lastFixed, |chain|, |chain|, [];
    if reference.Some? {
      if Includes(chain, reference.value) {
        high := reference.value.num;
        nonFork := high;
        if high < low { low := high; }
      } else {
        if onFork.None? { return Refused; }
        var branch := onFork.value;
        nonFork := branch[|branch| - 1].num;
        fork := Reversed(branch[..|branch| - 1]);
        high := nonFork + |fork|;
        if nonFork < low { return Refused; }
      }
    } else if high == 0 {
      return Ids([]);
    }
    if low == 0 { low := 1; }
    ghost var c := UpTo(chain, reference, if onFork.Some? then onFork.value else []);
    assert |c| == high && c == chain[..nonFork] + fork;
    var ids := Summarize(chain, nonFork, fork, low, high + after, c);
    return Ids(ids);
  }

  /** The loop that picks the entries, from the chain or from the fork. */
  method Summarize(chain: seq<BlockId>, nonFork: nat, fork: seq<BlockId>, start: nat, trueHigh: nat, ghost c: seq<BlockId>) returns (ids: seq<BlockId>)
    requires nonFork <= |chain| && c == chain[..nonFork] + fork && 1 <= start <= |c| <= trueHigh
    ensures Summarizes(c, start, trueHigh, ids)
  {
    var low, high := start, nonFork + |fork|;
    ids := [];
    while true
      invariant start <= low <= high && low == Position(start, trueHigh, |ids|)
      invariant forall k :: 0 <= k < |ids| ==> start <= Position(start, trueHigh, k) <= |c| && ids[k] == c[Position(start, trueHigh, k) - 1]
      decreases high - low
    {
      ids := ids + [if low <= nonFork then chain[low - 1] else fork[low - nonFork - 1]];
      low := low + (trueHigh - low + 2) / 2;
      if low > high { break; }
    }
  }

  // The peer's answer

  predicate Recognizes(chain: seq<BlockId>, id: BlockId) {
    id == NO_BLOCK || Includes(chain, id)
  }

  /** The last entry of the summary that the peer recognizes, or no block for an empty summary. */
  ghost predicate IsLastKnown(chain: seq<BlockId>, synopsis: seq<BlockId>, known: Option<BlockId>) {
    if synopsis == [] || synopsis == [NO_BLOCK] then known == Some(NO_BLOCK)
    else if known.None? then forall k :: 0 <= k < |synopsis| ==> !Recognizes(chain, synopsis[k])
    else exists k :: 0 <= k < |synopsis| && synopsis[k] == known.value && Recognizes(chain, synopsis[k])
                     && forall j :: k < j < |synopsis| ==> !Recognizes(chain, synopsis[j])
  }

  method FindLastKnown(chain: seq<BlockId>, synopsis: seq<BlockId>) returns (known: Option<BlockId>)
    ensures IsLastKnown(chain, synopsis, known)
  {
    if synopsis == [] || synopsis == [NO_BLOCK] { return Some(NO_BLOCK); }
    var k := |synopsis|;
    while k > 0
      invariant 0 <= k <= |synopsis| && forall j :: k <= j < |synopsis| ==> !Recognizes(chain, synopsis[j])
    {
      k := k - 1;
      if Recognizes(chain, synopsis[k]) { return Some(synopsis[k]); }
    }
    return None;
  }

  /**
   * The ids from the last known block on, up to `limit` of them, and how many blocks
   * follow those; refused if nothing in the summary is on the chain.
   */
  method GetBlockIds(chain: seq<BlockId>, synopsis: seq<BlockId>, limit: nat) returns (a: Answer, remaining: nat)
    requires IsChain(chain)
    ensures chain == [] ==> a == Ids([]) && remaining == 0
    ensures chain != [] ==> exists known :: IsLastKnown(chain, synopsis, known) && IsReply(chain, known, limit, a, remaining)
  {
    remaining := 0;
    if chain == [] { return Ids([]), 0; }
    var known := FindLastKnown(chain, synopsis);
    if known.None? {
      assert IsReply(chain, known, limit, Refused, 0);
      return Refused, 0;
    }
    var num, ids := known.value.num, [];
    var from := if num == 0 then 1 else num;
    while num <= |chain| && |ids| < limit
      invariant if num == 0 then ids == [] && from == 1 else num == from + |ids|
      invariant from - 1 + |ids| <= |chain| && |ids| <= limit && ids == chain[from - 1..from - 1 + |ids|]
    {
      if num > 0 { ids := ids + [chain[num - 1]]; }
      num := num + 1;
    }
    if ids != [] && ids[|ids| - 1].num < |chain| {
      remaining := |chain| - ids[|ids| - 1].num;
    }
    a := Ids(ids);
    assert IsReply(chain, known, limit, a, remaining);
  }

  /** Consecutive ids of the chain from the known block on, as many as allowed, and the exact rest. */
  ghost predicate IsReply(chain: seq<BlockId>, known: Option<BlockId>, limit: nat, a: Answer, remaining: nat)
    requires chain != []
  {
    if known.None? then a == Refused && remaining == 0
    else
      var from := if known.value.num == 0 then 0 else known.value.num - 1;
      && a.Ids? && from < |chain| && from + |a.ids| <= |chain| && a.ids == chain[from..from + |a.ids|]
      && |a.ids| == (if limit <= |chain| - from then limit else |chain| - from)
      && remaining == (if limit > 0 then |chain| - from - |a.ids| else 0)
  }

  /** Two chains that agree up to block `common` and never after. */
  ghost predicate PartAt(mine: seq<BlockId>, other: seq<BlockId>, common: nat) {
    && common <= |mine| && common <= |other|
    && (forall i :: 0 <= i < common ==> mine[i] == other[i])
    && (forall i :: common <= i < |mine| && i < |other| ==> mine[i] != other[i])
  }

  /**
   * The answer to a summary starts at a block both chains share, and repeats no more
   * shared blocks than there are blocks left to replace.
   */
  lemma AnswerRepeatsLittle(mine: seq<BlockId>, low: nat, high: nat, ids: seq<BlockId>, other: seq<BlockId>, common: nat, known: Option<BlockId>)
    requires IsChain(mine) && IsChain(other) && 1 <= low <= common && PartAt(mine, other, common) && |mine| <= high
    requires Summarizes(mine, low, high, ids) && IsLastKnown(other, ids, known)
    ensures known.Some? && 1 <= known.value.num <= common
    ensures mine[known.value.num - 1] == other[known.value.num - 1] == known.value
    ensures common - known.value.num <= high - common
  {
    assert ids[0] == mine[Position(low, high, 0) - 1];
    assert Recognizes(other, ids[0]);
    var k :| 0 <= k < |ids| && ids[k] == known.value && Recognizes(other, ids[k])
             && forall j :: k < j < |ids| ==> !Recognizes(other, ids[j]);
    assert known.value == mine[Position(low, high, k) - 1];
    if k + 1 < |ids| {
      assert ids[k + 1] == mine[Position(low, high, k + 1) - 1];
      assert !Recognizes(other, ids[k + 1]);
    }
    assert Position(low, high, k + 1) > common;
  }
}
