/**
 * Adding a block to a node: extending the current chain, or switching to a higher fork
 * and going back if one of its blocks turns out to be invalid.
 */
module ForkSwitch {
  import opened Wrappers
  import opened Blocks
  import opened Sequences

  /** The state of the chain together with the block that led to it. */
  datatype Snapshot<S> = Snapshot(state: S, head: Block)

  /** How a push ends: the block extends the chain, makes it switch, is kept aside, or is refused for a reason. */
  datatype Outcome = Extended | Switched | Kept | TooOld | Unlinkable | Unlinked | Invalid

  /** Blocks from the top of a branch down to its oldest. */
  ghost predicate IsBranch(s: seq<Block>) {
    |s| > 0 && forall i :: 0 <= i < |s| - 1 ==> s[i].previous == s[i + 1].Id()
  }

  /** Blocks are filed under their ids, and none but `base` is as old as `base`. */
  ghost predicate IsIndex(index: map<BlockId, Block>, base: Block) {
    forall k :: k in index ==> index[k].Id() == k && (index[k].Num() > base.Num() || index[k] == base)
  }

  ghost predicate AllIn(s: seq<Block>, index: map<BlockId, Block>) {
    forall b :: b in s ==> b.Id() in index && index[b.Id()] == b
  }

  /** Known blocks lead from `x` back to `base`. */
  ghost predicate Linked(index: map<BlockId, Block>, base: Block, x: Block)
    decreases x.Num()
  {
    || x == base
    || (&& x.Num() > base.Num() && x.previous in index && index[x.previous].Num() < x.Num()
        && Linked(index, base, index[x.previous]))
  }

  /** The blocks from `base` to `x`, oldest first, without `base`. */
  ghost function PathTo(index: map<BlockId, Block>, base: Block, x: Block): seq<Block>
    requires Linked(index, base, x)
    decreases x.Num()
  {
    if x == base then [] else PathTo(index, base, index[x.previous]) + [x]
  }

  lemma {:induction false} LinkedStep(index: map<BlockId, Block>, base: Block, x: Block)
    requires IsIndex(index, base) && x.Num() > base.Num()
    ensures Linked(index, base, x) <==> x.previous in index && Linked(index, base, index[x.previous])
    ensures Linked(index, base, x) ==> PathTo(index, base, x) == PathTo(index, base, index[x.previous]) + [x]
  {
  }

  /** Two branches that end in blocks after the same block, and are apart above that. */
  ghost predicate Forked(first: seq<Block>, second: seq<Block>) {
    && IsBranch(first) && IsBranch(second)
    && first[|first| - 1].previous == second[|second| - 1].previous
    && (forall i :: 0 <= i < |first| - 1 ==> first[i] !in second)
    && (forall i :: 0 <= i < |second| - 1 ==> second[i] !in first)
  }

  /** The blocks above `x`, from `top` down. */
  ghost predicate Above(index: map<BlockId, Block>, top: Block, s: seq<Block>, x: Block) {
    && x.Id() in index && index[x.Id()] == x && AllIn(s, index)
    && (s == [] ==> x == top)
    && (s != [] ==> IsBranch(s) && s[0] == top && s[|s| - 1].previous == x.Id())
    && (forall c :: c in s ==> c.Num() > x.Num())
  }

  lemma OneLower(index: map<BlockId, Block>, base: Block, top: Block, s: seq<Block>, x: Block)
    requires IsIndex(index, base) && Above(index, top, s, x)
    ensures IsBranch(s + [x]) && (s + [x])[0] == top && AllIn(s + [x], index)
    ensures x.previous in index ==> Above(index, top, s + [x], index[x.previous]) && index[x.previous].Num() + 1 == x.Num()
  {
  }

  /** Goes down from `top` to the given height. */
  method Descend(index: map<BlockId, Block>, base: Block, top: Block, height: nat) returns (ok: bool, s: seq<Block>, x: Block)
    requires IsIndex(index, base) && top.Id() in index && index[top.Id()] == top && base.Num() <= height
    ensures ok ==> Above(index, top, s, x)
    ensures ok ==> if top.Num() <= height then s == [] && x == top else x.Num() == height
    ensures if ok then Linked(index, base, top) == Linked(index, base, x) else !Linked(index, base, top)
  {
    s, x := [], top;
    while x.Num() > height
      invariant Above(index, top, s, x)
      invariant if top.Num() <= height then s == [] else x.Num() >= height
      invariant Linked(index, base, top) == Linked(index, base, x)
      decreases x.Num()
    {
      LinkedStep(index, base, x);
      if x.previous !in index { return false, [], x; }
      OneLower(index, base, top, s, x);
      s, x := s + [x], index[x.previous];
    }
    ok := true;
  }

  /**
   * The branches from two known blocks back to where they part.  It fails only if a
   * block on the way is not known.
   */
  method FetchBranch(index: map<BlockId, Block>, base: Block, a: BlockId, b: BlockId)
    returns (ok: bool, first: seq<Block>, second: seq<Block>)
    requires IsIndex(index, base) && a in index && b in index
    ensures ok ==> Forked(first, second) && first[0] == index[a] && second[0] == index[b]
    ensures ok ==> AllIn(first, index) && AllIn(second, index)
    ensures ok ==> first[|first| - 1].Num() == second[|second| - 1].Num()
    ensures ok && first[|first| - 1] == second[|second| - 1] ==> |first| == 1 || |second| == 1
    ensures Linked(index, base, index[b]) ==> (ok <==> Linked(index, base, index[a]))
  {
    hide IsIndex, AllIn, Above, Forked, Sides, Linked;
    var y;
    NotBelow(index, base, a);
    NotBelow(index, base, b);
    var x;
    second := [];
    ok, first, x := Descend(index, base, index[a], index[b].Num());
    if !ok { return; }
    NotBelowAbove(index, base, index[a], first, x);
    ok, second, y := Descend(index, base, index[b], x.Num());
    if !ok { return; }
    SidesStart(index, index[a], first, x, index[b], second, y);
    while x.previous != y.previous
      invariant Sides(index, index[a], first, x, index[b], second, y)
      invariant Linked(index, base, index[a]) == Linked(index, base, x) && Linked(index, base, index[b]) == Linked(index, base, y)
      decreases x.Num()
    {
      SidesAreHigher(index, base, index[a], first, x, index[b], second, y);
      LinkedStep(index, base, x);
      LinkedStep(index, base, y);
      if x.previous !in index || y.previous !in index { return false, [], []; }
      SidesLower(index, base, index[a], first, x, index[b], second, y);
      first, x := first + [x], index[x.previous];
      second, y := second + [y], index[y.previous];
    }
    SidesMeet(index, base, index[a], first, x, index[b], second, y);
    MeetingIsLinked(index, base, index[a], first, x, index[b], second, y);
    return true, first + [x], second + [y];
  }

  lemma NotBelow(index: map<BlockId, Block>, base: Block, k: BlockId)
    requires IsIndex(index, base) && k in index
    ensures index[k].Id() == k && index[k].Num() >= base.Num()
  {
  }

  lemma NotBelowAbove(index: map<BlockId, Block>, base: Block, top: Block, s: seq<Block>, x: Block)
    requires IsIndex(index, base) && Above(index, top, s, x)
    ensures x.Num() >= base.Num()
  {
  }

  /** Both sides have gone down to the same height without meeting. */
  ghost predicate Sides(index: map<BlockId, Block>, a: Block, first: seq<Block>, x: Block, b: Block, second: seq<Block>, y: Block) {
    && Above(index, a, first, x) && Above(index, b, second, y) && x.Num() == y.Num()
    && (forall c :: c in first ==> c !in second)
    && (first != [] && second != [] ==> x != y)
  }

  lemma SidesStart(index: map<BlockId, Block>, a: Block, first: seq<Block>, x: Block, b: Block, second: seq<Block>, y: Block)
    requires Above(index, a, first, x) && Above(index, b, second, y) && (first == [] || second == [])
    requires x.Num() == y.Num()
    ensures Sides(index, a, first, x, b, second, y)
  {
  }

  /** Before they meet, both sides are above `base`. */
  lemma SidesAreHigher(index: map<BlockId, Block>, base: Block, a: Block, first: seq<Block>, x: Block,
                       b: Block, second: seq<Block>, y: Block)
    requires IsIndex(index, base) && Sides(index, a, first, x, b, second, y) && x.previous != y.previous
    ensures x.Num() > base.Num() && y.Num() > base.Num()
  {
  }

  /** Where they meet, one side leads back to `base` if the other one does. */
  lemma MeetingIsLinked(index: map<BlockId, Block>, base: Block, a: Block, first: seq<Block>, x: Block,
                        b: Block, second: seq<Block>, y: Block)
    requires IsIndex(index, base) && Sides(index, a, first, x, b, second, y) && x.previous == y.previous
    ensures Linked(index, base, y) ==> Linked(index, base, x)
  {
    if y.Num() > base.Num() {
      LinkedStep(index, base, x);
      LinkedStep(index, base, y);
    }
  }

  lemma SidesLower(index: map<BlockId, Block>, base: Block, a: Block, first: seq<Block>, x: Block,
                   b: Block, second: seq<Block>, y: Block)
    requires IsIndex(index, base) && Sides(index, a, first, x, b, second, y) && x.previous != y.previous
    requires x.previous in index && y.previous in index
    ensures Sides(index, a, first + [x], index[x.previous], b, second + [y], index[y.previous])
    ensures index[x.previous].Num() < x.Num()
  {
    OneLower(index, base, a, first, x);
    OneLower(index, base, b, second, y);
  }

  lemma SidesMeet(index: map<BlockId, Block>, base: Block, a: Block, first: seq<Block>, x: Block,
                  b: Block, second: seq<Block>, y: Block)
    requires IsIndex(index, base) && Sides(index, a, first, x, b, second, y) && x.previous == y.previous
    ensures Forked(first + [x], second + [y]) && (first + [x])[0] == a && (second + [y])[0] == b
    ensures AllIn(first + [x], index) && AllIn(second + [y], index)
    ensures x.Num() == y.Num() && (x == y ==> first == [] || second == [])
  {
    OneLower(index, base, a, first, x);
    OneLower(index, base, b, second, y);
  }

  /** Each block follows the one before it, and the first follows `id`. */
  ghost predicate Follows(blocks: seq<Block>, id: BlockId) {
    forall i :: 0 <= i < |blocks| ==> blocks[i].previous == if i == 0 then id else blocks[i - 1].Id()
  }

  lemma InAt(blocks: seq<Block>, index: map<BlockId, Block>, i: nat)
    requires AllIn(blocks, index) && i < |blocks|
    ensures blocks[i].Id() in index && index[blocks[i].Id()] == blocks[i]
  {
    assert blocks[i] in blocks;
  }

  lemma FollowsAt(blocks: seq<Block>, id: BlockId, i: nat)
    requires Follows(blocks, id) && i < |blocks|
    ensures blocks[i].previous == if i == 0 then id else blocks[i - 1].Id()
  {
  }

  ghost function Ids(s: seq<Block>): set<BlockId> {
    set b | b in s :: b.Id()
  }

  ghost predicate Apart(s: seq<Block>, t: seq<Block>) {
    forall b, c :: b in s && c in t ==> b.Id() != c.Id()
  }

  lemma {:induction false} BranchNum(s: seq<Block>, i: nat)
    requires IsBranch(s) && i < |s|
    ensures s[i].Num() + i == s[0].Num()
  {
    if i > 0 {
      BranchNum(s, i - 1);
      assert s[i - 1].previous == s[i].Id();
    }
  }

  lemma HigherIsApart(s: seq<Block>, t: seq<Block>, height: nat)
    requires forall i :: 0 <= i < |s| ==> s[i].Num() >= height
    requires forall i :: 0 <= i < |t| ==> t[i].Num() < height
    ensures Apart(s, t)
  {
  }

  /** No block of the new branch from the failed one on is on the previous chain. */
  lemma {:induction false} NewIsApart(index: map<BlockId, Block>, base: Block, first: seq<Block>, done: nat, second: seq<Block>, blocks: seq<Block>)
    requires Forked(first, second) && AllIn(first, index) && AllIn(blocks, index) && done < |first| && |second| <= |blocks|
    requires first[|first| - 1].Num() == second[|second| - 1].Num()
    requires done == 0 ==> first[|first| - 1] != second[|second| - 1]
    requires Reversed(second) == blocks[|blocks| - |second|..]
    requires forall i :: 0 <= i < |blocks| ==> blocks[i].Num() == base.Num() + i + 1
    ensures var order := Reversed(first);
            Apart(order[done..], [base]) && Apart(order[done..], order[..done]) && Apart(order[done..], blocks)
  {
    hide Reversed, Apart;
    var order := Reversed(first);
    OrderNums(first, second, blocks, base.Num());
    HigherIsApart(order[done..], [base], base.Num() + 1);
    HigherIsApart(order[done..], order[..done], base.Num() + |blocks| - |second| + 1 + done);
    NewIsNotOld(index, base, first, done, second, blocks);
  }

  lemma {:induction false} NewIsNotOld(index: map<BlockId, Block>, base: Block, first: seq<Block>, done: nat, second: seq<Block>, blocks: seq<Block>)
    requires Forked(first, second) && AllIn(first, index) && AllIn(blocks, index) && done < |first| && |second| <= |blocks|
    requires first[|first| - 1].Num() == second[|second| - 1].Num()
    requires done == 0 ==> first[|first| - 1] != second[|second| - 1]
    requires Reversed(second) == blocks[|blocks| - |second|..]
    requires forall i :: 0 <= i < |blocks| ==> blocks[i].Num() == base.Num() + i + 1
    ensures Apart(Reversed(first)[done..], blocks)
  {
    hide Reversed, Forked;
    var order := Reversed(first);
    forall i, j | done <= i < |first| && 0 <= j < |blocks| ensures order[i].Id() != blocks[j].Id() {
      if order[i] == blocks[j] { OnBoth(base.Num(), first, second, blocks, i, j); }
      var k := |first| - 1 - i;
      assert order[i] == first[k];
      assert first[k] in first && blocks[j] in blocks;
    }
  }

  lemma {:induction false} OrderNums(first: seq<Block>, second: seq<Block>, blocks: seq<Block>, base: nat)
    requires IsBranch(first) && |second| > 0 && |second| <= |blocks|
    requires first[|first| - 1].Num() == second[|second| - 1].Num()
    requires Reversed(second) == blocks[|blocks| - |second|..]
    requires forall i :: 0 <= i < |blocks| ==> blocks[i].Num() == base + i + 1
    ensures forall i :: 0 <= i < |first| ==> Reversed(first)[i].Num() == base + |blocks| - |second| + 1 + i
  {
    var n := |blocks| - |second|;
    assert second[|second| - 1] == Reversed(second)[0] == blocks[n];
    forall i | 0 <= i < |first| ensures Reversed(first)[i].Num() == base + n + 1 + i {
      BranchNum(first, |first| - 1);
      BranchNum(first, |first| - 1 - i);
    }
  }

  /** Only the oldest block can be on both branches. */
  lemma {:induction false} OnBoth(base: nat, first: seq<Block>, second: seq<Block>, blocks: seq<Block>, i: nat, j: nat)
    requires Forked(first, second) && i < |first| && |second| <= |blocks| && j < |blocks|
    requires first[|first| - 1].Num() == second[|second| - 1].Num()
    requires Reversed(second) == blocks[|blocks| - |second|..]
    requires forall i :: 0 <= i < |blocks| ==> blocks[i].Num() == base + i + 1
    requires Reversed(first)[i] == blocks[j]
    ensures i == 0 && first[|first| - 1] == second[|second| - 1]
  {
    OrderNums(first, second, blocks, base);
    var n := |blocks| - |second|;
    assert j == n + i;
    assert blocks[j] == Reversed(second)[i] == second[|second| - 1 - i];
    assert Reversed(first)[i] == first[|first| - 1 - i];
  }

  /** The head is among the first blocks of the new branch exactly when the new branch goes on from the head. */
  lemma {:induction false} ThroughHead(base: nat, first: seq<Block>, second: seq<Block>, blocks: seq<Block>, n: nat, done: nat)
    requires Forked(first, second) && n + |second| == |blocks| && done <= |first|
    requires first[|first| - 1].Num() == second[|second| - 1].Num() && Reversed(second) == blocks[n..]
    requires forall i :: 0 <= i < |blocks| ==> blocks[i].Num() == base + i + 1
    requires Reversed(first)[0] == blocks[n] ==> done > 0
    ensures second[0] in Reversed(first)[..done] <==> blocks <= blocks[..n] + Reversed(first)
  {
    hide Reversed;
    var order, path := Reversed(first), blocks[..n] + Reversed(first);
    var last := |blocks| - 1;
    assert second[0] == Reversed(second)[|second| - 1] == blocks[n..][|second| - 1] == blocks[last];
    if second[0] in order[..done] {
      var i :| 0 <= i < done && order[..done][i] == second[0];
      OnBoth(base, first, second, blocks, i, last);
      OrderNums(first, second, blocks, base);
      assert last == n;
      assert blocks == blocks[..n] + [blocks[n]];
    }
    if blocks <= path {
      var i := |second| - 1;
      assert path[last] == order[i];
      OnBoth(base, first, second, blocks, i, last);
      assert order[..done][0] == second[0];
    }
  }

  class Node<S> {
    /** Applying a block, which depends on nothing but the state, succeeds or fails. */
    const apply: (S, Block) -> Option<S>
    /** The oldest state that can still be undone to. */
    const base: Snapshot<S>

    var now: Snapshot<S>
    /** The states before each of the latest blocks. */
    var undo: seq<Snapshot<S>>
    /** Known blocks of all forks, and the highest. */
    var index: map<BlockId, Block>
    var forkHead: Block
    /** Blocks on disk, by number. */
    var store: map<nat, Block>
    /** The current chain since `base`. */
    ghost var chain: seq<Block>

    constructor (apply: (S, Block) -> Option<S>, base: Snapshot<S>)
      ensures Valid() && this.apply == apply && this.base == now == base && chain == []
      ensures index == map[base.head.Id() := base.head] && forkHead == base.head
    {
      this.apply, this.base, now, undo, chain := apply, base, base, [], [];
      index, forkHead, store := map[base.head.Id() := base.head], base.head, map[];
    }

    function Step(s: Snapshot<S>, b: Block): Option<Snapshot<S>> {
      if b.previous != s.head.Id() then None
      else match apply(s.state, b)
           case None => None
           case Some(t) => Some(Snapshot(t, b))
    }

    /** Applies one block after the other. */
    ghost function Fold(s: Snapshot<S>, blocks: seq<Block>): Option<Snapshot<S>>
      decreases |blocks|
    {
      if blocks == [] then Some(s)
      else
        match Fold(s, blocks[..|blocks| - 1])
        case None => None
        case Some(t) => Step(t, blocks[|blocks| - 1])
    }

    /** Block `x` follows the valid chain `s` but can not be applied to it. */
    ghost predicate Fails(s: seq<Block>, x: Block) {
      && Fold(base, s).Some?
      && x.previous == Fold(base, s).value.head.Id()
      && apply(Fold(base, s).value.state, x).None?
    }

    /** How many blocks of a path can be applied. */
    ghost function Reach(path: seq<Block>): (n: nat)
      ensures n <= |path|
      decreases |path|
    {
      if path == [] || Fold(base, path).Some? then |path| else Reach(path[..|path| - 1])
    }

    lemma {:induction false} ReachIs(path: seq<Block>, k: nat)
      requires k < |path| && Fold(base, path[..k]).Some? && Fold(base, path[..k + 1]).None?
      ensures Fold(base, path).None? && Reach(path) == k
      decreases |path|
    {
      var rest := path[..|path| - 1];
      if |path| == k + 1 {
        assert path[..k + 1] == path && path[..k] == rest;
      } else {
        assert rest[..k] == path[..k] && rest[..k + 1] == path[..k + 1];
        ReachIs(rest, k);
      }
    }

    ghost function Trail(): seq<Snapshot<S>>
      reads this`undo, this`now
    {
      undo + [now]
    }

    /** Each state is what the next block of the chain leads to from the state before. */
    ghost predicate IsHistory(trail: seq<Snapshot<S>>, blocks: seq<Block>) {
      && |trail| == |blocks| + 1 && trail[0] == base
      && (forall i :: 0 <= i < |blocks| ==> Step(trail[i], blocks[i]) == Some(trail[i + 1]))
      && (forall i :: 0 <= i < |trail| ==> trail[i].head.Num() == base.head.Num() + i)
    }

    lemma HistoryGrows(trail: seq<Snapshot<S>>, blocks: seq<Block>, b: Block)
      requires IsHistory(trail, blocks) && Step(trail[|blocks|], b).Some?
      ensures IsHistory(trail + [Step(trail[|blocks|], b).value], blocks + [b])
    {
    }

    lemma HistoryShrinks(trail: seq<Snapshot<S>>, blocks: seq<Block>, n: nat)
      requires IsHistory(trail, blocks) && n <= |blocks|
      ensures IsHistory(trail[..n + 1], blocks[..n])
    {
      forall i | 0 <= i < n ensures Step(trail[..n + 1][i], blocks[..n][i]) == Some(trail[..n + 1][i + 1]) {
        assert Step(trail[i], blocks[i]) == Some(trail[i + 1]);
      }
    }

    /** The current state and each undo state are what the blocks of the chain lead to. */
    ghost predicate History()
      reads this`undo, this`now, this`chain
    {
      IsHistory(Trail(), chain)
    }

    /** The fork database knows the current chain, and no other block as old as `base`. */
    ghost predicate Known()
      reads this`chain, this`index
    {
      && base.head.Id() in index && IsIndex(index, base.head)
      && (forall i :: 0 <= i < |chain| ==> chain[i].Id() in index && index[chain[i].Id()] == chain[i])
    }

    /** Up to the head the block store names the current chain. */
    ghost predicate Stored()
      reads this`chain, this`store
    {
      forall i :: 0 <= i < |chain| ==> chain[i].Num() in store && store[chain[i].Num()] == chain[i]
    }

    ghost predicate Core()
      reads this
    {
      History() && Known() && Stored()
    }

    ghost predicate ForkHeadKnown()
      reads this`index, this`forkHead
    {
      forkHead.Id() in index && index[forkHead.Id()] == forkHead
    }

    /** The highest fork is known, and is not waiting to extend the current chain. */
    ghost predicate ForkHeadValid()
      reads this`index, this`forkHead, this`now
    {
      ForkHeadKnown() && forkHead.previous != now.head.Id()
    }

    /** Before the first block of the chain no other block is known either. */
    ghost predicate Rooted()
      reads this`chain, this`index
    {
      chain == [] ==> index == map[base.head.Id() := base.head]
    }

    ghost predicate Valid()
      reads this
    {
      Core() && ForkHeadValid() && Rooted()
    }

    /** The state is the fold of the chain. */
    lemma {:induction false} StateIsFold(n: nat)
      requires History() && n <= |chain|
      ensures Fold(base, chain[..n]) == Some(Trail()[n])
    {
      if n > 0 {
        StateIsFold(n - 1);
        assert chain[..n][..n - 1] == chain[..n - 1];
        assert Step(Trail()[n - 1], chain[n - 1]) == Some(Trail()[n]);
      }
    }

    /** The head after each block is that block, and known. */
    lemma HeadOf(n: nat)
      requires History() && Known() && n <= |chain|
      ensures var h := Trail()[n].head;
              && h == (if n == 0 then base.head else chain[n - 1])
              && h.Id() in index && index[h.Id()] == h
              && (n > 0 ==> h.previous == Trail()[n - 1].head.Id())
    {
      if n > 0 { assert Step(Trail()[n - 1], chain[n - 1]) == Some(Trail()[n]); }
    }

    /** Known blocks lead back from every block of the chain, along the chain. */
    lemma {:induction false} ChainIsPath(n: nat)
      requires History() && Known() && n <= |chain|
      ensures Linked(index, base.head, Trail()[n].head) && PathTo(index, base.head, Trail()[n].head) == chain[..n]
    {
      HeadOf(n);
      if n > 0 {
        ChainIsPath(n - 1);
        HeadOf(n - 1);
        NumOf(n - 1);
        LinkedStep(index, base.head, Trail()[n].head);
        assert chain[..n] == chain[..n - 1] + [chain[n - 1]];
      }
    }

    /** Known blocks lead back from every block of a branch that parts from the chain, along the branch and then the chain. */
    lemma {:induction false} BranchIsPath(branch: seq<Block>, n: nat, i: nat)
      requires History() && Known() && n <= |chain| && IsBranch(branch) && AllIn(branch, index) && i < |branch|
      requires branch[|branch| - 1].previous == Trail()[n].head.Id()
      ensures var x := branch[|branch| - 1 - i];
              Linked(index, base.head, x) && PathTo(index, base.head, x) == chain[..n] + Reversed(branch)[..i + 1]
    {
      hide Reversed, Linked, PathTo;
      var k := |branch| - 1 - i;
      var x, order := branch[k], Reversed(branch);
      HeightAt(n);
      BranchNum(branch, |branch| - 1);
      BranchNum(branch, k);
      LinkedStep(index, base.head, x);
      assert order[..i + 1] == order[..i] + [x];
      if i == 0 {
        ChainIsPath(n);
        HeadOf(n);
        assert order[..0] == [];
      } else {
        BranchIsPath(branch, n, i - 1);
        InAt(branch, index, k + 1);
        assert x.previous == branch[k + 1].Id();
      }
    }

    lemma SameLength()
      requires History()
      ensures |undo| == |chain| && now.head.Num() == base.head.Num() + |chain|
    {
      assert Trail()[|undo|] == now;
    }

    lemma NumOf(i: nat)
      requires History() && i < |chain|
      ensures chain[i].Num() == base.head.Num() + i + 1
    {
      assert Step(Trail()[i], chain[i]) == Some(Trail()[i + 1]);
    }

    /** Applies a block on top of the current state and stores it, or leaves everything as it is. */
    method ApplyBlock(b: Block) returns (ok: bool)
      requires Core() && b.Id() in index && index[b.Id()] == b
      modifies this`now, this`undo, this`store, this`chain
      ensures Core() && ok == old(Step(now, b).Some?)
      ensures chain == if ok then old(chain) + [b] else old(chain)
      ensures Trail() == if ok then old(Trail() + [Step(now, b).value]) else old(Trail())
      ensures ok ==> now.head == b && old(Step(now, b)) == Some(now)
      ensures !ok ==> now == old(now) && store == old(store)
    {
      hide IsHistory;
      SameLength();
      match Step(now, b)
      case None => ok := false;
      case Some(t) =>
        HistoryGrows(Trail(), chain, b);
        ghost var grown := Trail() + [t];
        forall i | 0 <= i < |chain| ensures chain[i].Num() < b.Num() {
          NumOf(i);
        }
        undo, chain, store := undo + [now], chain + [b], store[b.Num() := b];
        now := t;
        assert Trail() == grown;
        ok := true;
    }

    /** Takes back the latest block. */
    method PopBlock()
      requires Core() && |undo| > 0 && ForkHeadKnown()
      modifies this`now, this`undo, this`chain, this`forkHead
      ensures Core() && ForkHeadKnown() && chain == old(chain)[..old(|chain| - 1)] && Trail() == old(undo)
      ensures forkHead == old(if forkHead.Id() == now.head.Id() then undo[|undo| - 1].head else forkHead)
    {
      hide IsHistory;
      SameLength();
      var n := |undo| - 1;
      if forkHead.Id() == now.head.Id() {
        HeadOf(n + 1);
        HeadOf(n);
        forkHead := index[now.head.previous];
      }
      HistoryShrinks(Trail(), chain, n);
      assert Trail()[..n + 1] == undo;
      now, undo, chain := undo[n], undo[..n], chain[..n];
      assert Trail() == old(undo);
    }

    /** Takes back blocks until the given one is the head. */
    method PopTo(point: BlockId, ghost n: nat)
      requires Core() && n <= |chain| && Trail()[n].head.Id() == point && ForkHeadKnown()
      modifies this`now, this`undo, this`chain, this`forkHead
      ensures Core() && ForkHeadKnown()
      ensures chain == old(chain)[..n] && Trail() == old(Trail())[..n + 1]
      ensures forkHead.Num() <= old(forkHead.Num())
      ensures old(forkHead.Num() > now.head.Num()) ==> forkHead == old(forkHead)
      ensures forkHead == if old(forkHead in chain[n..]) then now.head else old(forkHead)
    {
      hide IsHistory, IsIndex;
      SameLength();
      HeightAt(n);
      ghost var trail := Trail();
      while now.head.Id() != point
        invariant Core() && ForkHeadKnown() && n <= |chain| <= old(|chain|)
        invariant chain == old(chain)[..|chain|] && Trail() == trail[..|chain| + 1]
        invariant forkHead.Num() <= old(forkHead.Num()) && now.head.Num() <= old(now.head.Num())
        invariant old(forkHead.Num() > now.head.Num()) ==> forkHead == old(forkHead)
        invariant forkHead == if old(forkHead) in old(chain)[|chain|..] then now.head else old(forkHead)
        decreases |chain|
      {
        SameLength();
        assert Trail()[|chain|] == now;
        HeadOf(|chain|);
        HeightAt(|chain| - 1);
        assert old(chain)[|chain| - 1..] == [now.head] + old(chain)[|chain|..];
        PopBlock();
        SameLength();
        assert Trail()[|chain|] == now;
      }
      SameLength();
    }

    lemma HeightAt(n: nat)
      requires History() && n <= |chain|
      ensures Trail()[n].head.Num() == base.head.Num() + n
    {
    }

    /** Pushes blocks one after the other until one fails, and says how many were pushed. */
    method PushAll(blocks: seq<Block>) returns (done: nat)
      requires Core() && AllIn(blocks, index)
      requires Follows(blocks, now.head.Id())
      modifies this`now, this`undo, this`store, this`chain
      ensures Core() && done <= |blocks| && chain == old(chain) + blocks[..done]
      ensures old(Trail()) <= Trail()
      ensures done < |blocks| ==> Step(now, blocks[done]).None? && Fails(chain, blocks[done])
    {
      hide IsHistory, IsIndex, Known, Stored, Step, Fails, Follows, AllIn;
      ghost var start := now.head.Id();
      done := 0;
      while done < |blocks|
        invariant Core() && 0 <= done <= |blocks| && chain == old(chain) + blocks[..done]
        invariant old(Trail()) <= Trail()
        invariant now.head.Id() == if done == 0 then start else blocks[done - 1].Id()
      {
        FollowsAt(blocks, start, done);
        InAt(blocks, index, done);
        assert blocks[..done + 1] == blocks[..done] + [blocks[done]];
        var ok := ApplyBlock(blocks[done]);
        if !ok {
          FailsNow(blocks[done]);
          return;
        }
        done := done + 1;
      }
    }

    /** Pushes the blocks of an earlier chain again, which cannot fail, and leads to the same states. */
    method Restore(blocks: seq<Block>, ghost trail: seq<Snapshot<S>>)
      requires Core() && AllIn(blocks, index) && IsHistory(trail, chain + blocks) && Trail() <= trail
      modifies this`now, this`undo, this`store, this`chain
      ensures Core() && chain == old(chain) + blocks && Trail() == trail
    {
      hide IsHistory, IsIndex, Known, Stored, Step;
      ghost var all := chain + blocks;
      HistoryLength(trail, all);
      for done := 0 to |blocks|
        invariant Core() && chain == old(chain) + blocks[..done] && Trail() <= trail
      {
        SameLength();
        StepOf(trail, all, |chain|);
        assert Trail()[|chain|] == now;
        var ok := ApplyBlock(blocks[done]);
      }
      SameLength();
    }

    lemma HistoryLength(trail: seq<Snapshot<S>>, blocks: seq<Block>)
      requires IsHistory(trail, blocks)
      ensures |trail| == |blocks| + 1
    {
    }

    lemma LastHeight(trail: seq<Snapshot<S>>, blocks: seq<Block>)
      requires IsHistory(trail, blocks) && |blocks| > 0
      ensures |trail| == |blocks| + 1 && blocks[|blocks| - 1].Num() == base.head.Num() + |blocks|
    {
      var n := |blocks| - 1;
      assert Step(trail[n], blocks[n]) == Some(trail[n + 1]);
    }

    lemma StepOf(trail: seq<Snapshot<S>>, blocks: seq<Block>, n: nat)
      requires IsHistory(trail, blocks) && n < |blocks|
      ensures |trail| == |blocks| + 1 && Step(trail[n], blocks[n]) == Some(trail[n + 1])
    {
    }

    /** A branch back from the head runs along the current chain. */
    lemma {:induction false} BackAlongChain(branch: seq<Block>, j: nat)
      requires History() && Known() && IsBranch(branch) && AllIn(branch, index) && branch[0] == now.head && j < |branch|
      ensures j <= |chain| && branch[j] == Trail()[|chain| - j].head
    {
      SameLength();
      if j > 0 {
        BackAlongChain(branch, j - 1);
        assert branch[j] in branch && branch[j - 1].previous == branch[j].Id();
        HeightAt(|chain| - (j - 1));
        assert branch[j].Num() >= base.head.Num();
        HeadOf(|chain| - (j - 1));
        HeadOf(|chain| - j);
      }
    }

    /** Such a branch, oldest block first, is the end of the chain, and the block before it is where the rest ends. */
    lemma {:induction false} EndOfChain(branch: seq<Block>)
      requires History() && Known() && IsBranch(branch) && AllIn(branch, index) && branch[0] == now.head
      requires branch[|branch| - 1] != base.head
      ensures |branch| <= |chain|
      ensures var n := |chain| - |branch|;
              Reversed(branch) == chain[n..] && Trail()[n].head.Id() == branch[|branch| - 1].previous
    {
      BackAlongChain(branch, |branch| - 1);
      assert Trail()[0] == base;
      var n := |chain| - |branch|;
      forall j | 0 <= j < |branch| ensures branch[j] == chain[|chain| - 1 - j] {
        BackAlongChain(branch, j);
        HeadOf(|chain| - j);
      }
      HeadOf(n + 1);
    }

    /** Forgets blocks that turned out to be invalid or to follow one that did. */
    method Forget(blocks: seq<Block>)
      modifies this`index
      ensures index == old(index) - Ids(blocks)
    {
      for i := 0 to |blocks|
        invariant index == old(index) - Ids(blocks[..i])
      {
        index := index - {blocks[i].Id()};
        assert blocks[..i + 1] == blocks[..i] + [blocks[i]];
      }
    }

    /** Forgetting blocks that are not on the chain leaves the node in order. */
    method ForgetOthers(blocks: seq<Block>)
      requires Core() && Apart(blocks, [base.head]) && Apart(blocks, chain)
      modifies this`index
      ensures Core() && index == old(index) - Ids(blocks)
    {
      hide IsHistory, Stored;
      Forget(blocks);
    }

    /** Forgets the failed block and those that follow it, and looks back to the previous chain. */
    method Abandon(failed: seq<Block>, second: seq<Block>, ghost blocks: seq<Block>)
      requires Core() && failed != [] && second != [] && AllIn(second, index)
      requires Apart(failed, [base.head]) && Apart(failed, chain) && Apart(failed, second)
      modifies this`index, this`forkHead
      ensures Core() && ForkHeadKnown() && forkHead == second[|second| - 1] && AllIn(second, index)
      ensures index == old(index) - Ids(failed)
    {
      hide IsHistory, Stored, IsIndex;
      ForgetOthers(failed);
      forkHead := second[|second| - 1];
    }

    /**
     * After a block of the new branch failed: forgets it and those that follow it, and
     * goes back to the previous chain, to exactly the previous states.
     */
    method SwitchBack(first: seq<Block>, done: nat, second: seq<Block>, point: BlockId, ghost trail: seq<Snapshot<S>>, ghost blocks: seq<Block>)
      requires Core() && done < |first| && second != [] && |second| <= |blocks|
      requires IsHistory(trail, blocks) && AllIn(second, index)
      requires var n := |blocks| - |second|;
               && chain == blocks[..n] + first[..done] && trail[..n + 1] <= Trail()
               && blocks[n..] == second && trail[n].head.Id() == point
      requires Apart(first[done..], [base.head]) && Apart(first[done..], first[..done]) && Apart(first[done..], blocks)
      modifies this
      ensures Valid() && chain == blocks && Trail() == trail
      ensures index == old(index) - Ids(first[done..])
      ensures forkHead == if second[|second| - 1] in first[..done] then trail[|blocks| - |second|].head else second[|second| - 1]
    {
      hide IsHistory, IsIndex, Stored, Step, IsBranch, AllIn, Known, Apart;
      ghost var n := |blocks| - |second|;
      ApartFromParts(first[done..], first[..done], blocks, n);
      Abandon(first[done..], second, blocks);
      LastHeight(trail, blocks);
      SameLength();
      assert chain[n..] == first[..done];
      PopTo(point, n);
      SameLength();
      assert chain == blocks[..n] && Trail()[n] == now;
      assert chain + second == blocks;
      Restore(second, trail);
      SameLength();
    }

    lemma ApartFromParts(s: seq<Block>, t: seq<Block>, blocks: seq<Block>, n: nat)
      requires Apart(s, t) && Apart(s, blocks) && n <= |blocks|
      ensures Apart(s, blocks[..n] + t) && Apart(s, blocks[n..])
    {
    }

    lemma OnlyWithoutHistory(first: seq<Block>, second: seq<Block>)
      requires History() && Known() && Forked(first, second) && AllIn(first, index) && AllIn(second, index)
      requires second[0] == now.head && first[0].Num() > now.head.Num() && second[|second| - 1] == base.head
      requires first[|first| - 1].Num() == second[|second| - 1].Num()
      requires first[|first| - 1] == second[|second| - 1] ==> |first| == 1 || |second| == 1
      ensures chain == []
    {
      SameLength();
      assert first[|first| - 1] in first;
      BranchNum(second, |second| - 1);
    }

    lemma ChainNums()
      requires History() && Known()
      ensures AllIn(chain, index) && forall i :: 0 <= i < |chain| ==> chain[i].Num() == base.head.Num() + i + 1
    {
      forall i | 0 <= i < |chain| ensures chain[i].Num() == base.head.Num() + i + 1 { NumOf(i); }
    }

    /** What became of an attempt to follow `path` instead of `blocks`. */
    ghost predicate Followed(r: Outcome, success: Outcome, path: seq<Block>, blocks: seq<Block>, trail: seq<Snapshot<S>>,
                             known: map<BlockId, Block>, top: Block)
      reads this`chain, this`undo, this`now, this`index, this`forkHead
    {
      if Fold(base, path).Some? then r == success && chain == path && index == known && forkHead == top
      else
        && r == Invalid && chain == blocks && Trail() == trail
        && index == known - Ids(path[Reach(path)..])
        && (success == Switched ==> |trail| > |blocks| > 0
                                    && forkHead == if blocks <= path then trail[|blocks| - 1].head else trail[|blocks|].head)
        && (success == Extended ==> forkHead == now.head)
    }

    lemma {:induction false} FollowedPath(success: Outcome, path: seq<Block>, blocks: seq<Block>, trail: seq<Snapshot<S>>,
                                          known: map<BlockId, Block>, top: Block)
      requires History() && chain == path && index == known && forkHead == top
      ensures Followed(success, success, path, blocks, trail, known, top)
    {
      StateIsFoldNow();
    }

    lemma {:induction false} NotFollowed(path: seq<Block>, blocks: seq<Block>, trail: seq<Snapshot<S>>, known: map<BlockId, Block>, top: Block)
      requires Fold(base, path).None? && chain == blocks && Trail() == trail && |trail| > |blocks| > 0
      requires index == known - Ids(path[Reach(path)..])
      requires forkHead == if blocks <= path then trail[|blocks| - 1].head else trail[|blocks|].head
      ensures Followed(Invalid, Switched, path, blocks, trail, known, top)
    {
    }

    lemma {:induction false} EndOfAttempt(r: Outcome, success: Outcome, path: seq<Block>, blocks: seq<Block>, trail: seq<Snapshot<S>>,
                                          known: map<BlockId, Block>, top: Block)
      requires Followed(r, success, path, blocks, trail, known, top)
      ensures r == success || r == Invalid
      ensures r == Invalid && success != Invalid ==> chain == blocks && Trail() == trail
    {
    }

    /** Switches to the highest fork, or goes back to where it was. */
    method SwitchTo() returns (r: Outcome)
      requires Valid() && forkHead.Num() > now.head.Num() && chain != []
      modifies this
      ensures Valid() && (r == Switched || r == Unlinked || r == Invalid)
      ensures r == Switched ==> now.head == old(forkHead)
      ensures r == Invalid ==> chain == old(chain) && Trail() == old(Trail())
      ensures r == Unlinked <==> !old(Linked(index, base.head, forkHead))
      ensures r == Unlinked ==> chain == old(chain) && Trail() == old(Trail()) && index == old(index) && forkHead == old(forkHead)
      ensures r != Unlinked ==> Followed(r, Switched, old(PathTo(index, base.head, forkHead)), old(chain), old(Trail()), old(index), old(forkHead))
    {
      hide IsIndex, Step, Stored, IsHistory, Forked, Known, IsBranch, Fails, Linked, PathTo, Followed;
      SameLength();
      HeadOf(|chain|);
      ChainIsPath(|chain|);
      assert Trail()[|chain|] == now;
      KnownIndex();
      var ok, first, second := FetchBranch(index, base.head, forkHead.Id(), now.head.Id());
      if !ok { return Unlinked; }
      ForkedBranches(first, second);
      if second[|second| - 1] == base.head { OnlyWithoutHistory(first, second); }
      r := Replace(first, second);
    }

    lemma KnownIndex()
      requires Known()
      ensures IsIndex(index, base.head)
    {
    }

    /** Replaces the end of the chain by another branch, or leaves the chain as it was. */
    method Replace(first: seq<Block>, second: seq<Block>) returns (r: Outcome)
      requires Valid() && first != [] && second != [] && forkHead == first[0] && forkHead.Num() > now.head.Num()
      requires Forked(first, second) && AllIn(first, index) && AllIn(second, index)
      requires second[0] == now.head && second[|second| - 1] != base.head
      requires first[|first| - 1].Num() == second[|second| - 1].Num() && Linked(index, base.head, forkHead)
      modifies this
      ensures Valid() && (r == Switched || r == Invalid)
      ensures r == Switched ==> now.head == old(forkHead)
      ensures r == Invalid ==> chain == old(chain) && Trail() == old(Trail())
      ensures Followed(r, Switched, old(PathTo(index, base.head, forkHead)), old(chain), old(Trail()), old(index), old(forkHead))
    {
      hide IsIndex, Step, Stored, IsHistory, Forked, Known, IsBranch, Apart, Fails, Follows, Linked, PathTo, Fold, Reach,
           Followed, Ids;
      ghost var known, top := index, forkHead;
      ForkedBranches(first, second);
      EndOfChain(second);
      ChainNums();
      ghost var trail, blocks, n := Trail(), chain, |chain| - |second|;
      ghost var path := PathTo(index, base.head, forkHead);
      var order := Reversed(first);
      BranchIsPath(first, n, |first| - 1);
      assert order[..|order|] == order;
      assert blocks[n] == second[|second| - 1] by { assert Reversed(second)[0] == blocks[n..][0]; }
      HistoryLength(trail, blocks);
      StepOf(trail, blocks, n);
      PopTo(second[|second| - 1].previous, n);
      AllInReversed(first, index);
      AllInReversed(second, index);
      OrderLinks(first);
      SameLength();
      assert Trail()[n] == now;
      var done := PushAll(order);
      SameLength();
      assert Trail()[|chain|] == now;
      if done == |order| {
        HeadOf(|chain|);
        FollowedPath(Switched, path, blocks, trail, known, top);
        return Switched;
      }
      StopsAt(path, n + done);
      GoBack(first, second, done, trail, blocks, path, known, top);
      return Invalid;
    }

    /** Goes back after the branch `first` stopped applying. */
    method GoBack(first: seq<Block>, second: seq<Block>, done: nat, ghost trail: seq<Snapshot<S>>, ghost blocks: seq<Block>,
                  ghost path: seq<Block>, ghost known: map<BlockId, Block>, ghost top: Block)
      requires Core() && Forked(first, second) && AllIn(first, index) && AllIn(second, index) && AllIn(blocks, index) && index == known
      requires first[|first| - 1].Num() == second[|second| - 1].Num() && second[|second| - 1] != base.head
      requires done < |first| && 0 < |second| <= |blocks| && IsHistory(trail, blocks)
      requires forall i :: 0 <= i < |blocks| ==> blocks[i].Num() == base.head.Num() + i + 1
      requires var n := |blocks| - |second|;
               && Reversed(second) == blocks[n..] && path == blocks[..n] + Reversed(first)
               && chain == blocks[..n] + Reversed(first)[..done] && |trail| > n && trail[..n + 1] <= Trail()
               && trail[n].head.Id() == second[|second| - 1].previous
               && (Reversed(first)[0] == blocks[n] ==> done > 0)
               && Fold(base, path).None? && Reach(path) == n + done
      modifies this
      ensures Valid() && chain == blocks && Trail() == trail
      ensures Followed(Invalid, Switched, path, blocks, trail, known, top)
    {
      hide IsIndex, Step, Stored, IsHistory, Known, Apart, Fold, Reach, Followed, Ids;
      ghost var n := |blocks| - |second|;
      var order, back := Reversed(first), Reversed(second);
      HistoryLength(trail, blocks);
      assert first[|first| - 1] == order[0] && second[|second| - 1] == back[0] == blocks[n];
      NewIsApart(index, base.head, first, done, second, blocks);
      ThroughHead(base.head.Num(), first, second, blocks, n, done);
      assert path[n + done..] == order[done..];
      AllInReversed(second, index);
      SwitchBack(order, done, back, second[|second| - 1].previous, trail, blocks);
      LastHead(trail, blocks);
      NotFollowed(path, blocks, trail, known, top);
    }

    lemma LastHead(trail: seq<Snapshot<S>>, blocks: seq<Block>)
      requires IsHistory(trail, blocks) && |blocks| > 0
      ensures |trail| == |blocks| + 1 && trail[|blocks|].head == blocks[|blocks| - 1]
    {
      var n := |blocks| - 1;
      assert Step(trail[n], blocks[n]) == Some(trail[n + 1]);
    }

    /** Where the blocks of a path stop applying. */
    lemma {:induction false} StopsAt(path: seq<Block>, k: nat)
      requires History() && k < |path| && chain == path[..k] && Fails(chain, path[k])
      ensures Fold(base, path).None? && Reach(path) == k
    {
      StateIsFoldNow();
      assert path[..k + 1][..k] == path[..k];
      ReachIs(path, k);
    }

    lemma OrderLinks(first: seq<Block>)
      requires IsBranch(first)
      ensures Follows(Reversed(first), first[|first| - 1].previous)
    {
      hide Reversed;
      var order := Reversed(first);
      forall i | 0 < i < |first| ensures order[i].previous == order[i - 1].Id() {
        var k := |first| - 1 - i;
        assert order[i] == first[k] && order[i - 1] == first[k + 1];
        assert first[k].previous == first[k + 1].Id();
      }
    }

    lemma FailsNow(x: Block)
      requires History() && x.previous == now.head.Id() && Step(now, x).None?
      ensures Fails(chain, x)
    {
      StateIsFoldNow();
    }

    lemma AllInReversed(s: seq<Block>, ix: map<BlockId, Block>)
      requires AllIn(s, ix)
      ensures AllIn(Reversed(s), ix)
    {
    }

    lemma ForkedBranches(first: seq<Block>, second: seq<Block>)
      requires Forked(first, second)
      ensures IsBranch(first) && IsBranch(second) && |first| > 0 && |second| > 0
      ensures first[|first| - 1].previous == second[|second| - 1].previous
    {
    }

    /** The highest block, counting `b`. */
    ghost function Highest(b: Block): Block
      reads this`forkHead
    {
      if b.Num() > forkHead.Num() then b else forkHead
    }

    /** The block follows the head, and no higher block is known. */
    ghost predicate Extends(b: Block)
      reads this`now, this`forkHead
    {
      b.previous == now.head.Id() && forkHead.Num() <= now.head.Num()
    }

    /**
     * Adds a block.  Blocks that are too old or do not follow a known block are refused.
     * Any other is filed.  If then no block is higher than the head, nothing else happens.
     * Otherwise the chain becomes the one to the highest block if known blocks lead back
     * from there and all of them can be applied.  If not, the chain, the state and every state
     * that can be undone to are exactly what they were, and the blocks from the failed one on
     * are forgotten.  At all times the state is the fold of the chain.
     */
    method PushBlock(b: Block) returns (r: Outcome)
      requires Valid() && (b.Id() in index ==> index[b.Id()] == b)
      modifies this
      ensures Valid() && Fold(base, chain) == Some(now)
      ensures r == TooOld <==> b.Num() <= base.head.Num()
      ensures r == Unlinkable <==> b.Num() > base.head.Num() && b.previous !in old(index)
      ensures r == TooOld || r == Unlinkable ==> index == old(index) && forkHead == old(forkHead)
      ensures var known, top := old(index)[b.Id() := b], old(Highest(b));
              && (r != TooOld && r != Unlinkable && !old(Extends(b)) ==>
                    && (r == Kept <==> top.Num() <= old(now.head.Num()))
                    && (r == Unlinked <==> top.Num() > old(now.head.Num()) && !Linked(known, base.head, top)))
              && (r == Kept || r == Unlinked ==> !old(Extends(b)) && index == known && forkHead == top)
              && (r == Switched || r == Extended || r == Invalid ==>
                    && Linked(known, base.head, top)
                    && Followed(r, if old(Extends(b)) then Extended else Switched, PathTo(known, base.head, top),
                                old(chain), old(Trail()), known, top))
      ensures r == Extended <==> b.Num() > base.head.Num() && b.previous in old(index) && old(Extends(b)) && old(Step(now, b).Some?)
      ensures r == Extended ==> chain == old(chain) + [b] && old(Step(now, b)) == Some(now) && index == old(index)[b.Id() := b] && forkHead == b
      ensures r == Switched ==> now.head == old(Highest(b))
      ensures r != Extended && r != Switched ==> now == old(now) && undo == old(undo) && chain == old(chain)
    {
      hide IsIndex, Step, Stored, IsHistory, Known, Fold, Fails, Linked, PathTo, Reach, Followed, Rooted;
      StateIsFoldNow();
      if b.Num() <= base.head.Num() { return TooOld; }
      if b.previous !in index { return Unlinkable; }
      OnlyChild(b);
      Learn(b);
      if forkHead.previous == now.head.Id() {
        r := Extend(b);
      } else if forkHead.Num() <= now.head.Num() {
        r := Kept;
      } else {
        r := SwitchTo();
      }
      StateIsFoldNow();
      if r != Extended && r != Switched { TrailDetermines(old(undo), old(now)); }
    }

    lemma TrailDetermines(u: seq<Snapshot<S>>, n: Snapshot<S>)
      requires Trail() == u + [n]
      ensures undo == u && now == n
    {
      var k := |u|;
      assert |Trail()| == k + 1 && Trail()[k] == n;
      assert Trail()[..k] == u && Trail()[..k] == undo;
    }

    lemma StateIsFoldNow()
      requires History()
      ensures Fold(base, chain) == Some(now)
    {
      SameLength();
      StateIsFold(|chain|);
      assert chain[..|chain|] == chain;
    }

    /** A first block follows the base, and is the highest. */
    lemma {:induction false} OnlyChild(b: Block)
      requires Valid() && b.Num() > base.head.Num() && b.previous in index
      ensures chain == [] ==> Extends(b) && Highest(b) == b && b.Id() !in index && index == map[base.head.Id() := base.head]
    {
      if chain == [] {
        SameLength();
        assert Trail()[0] == now;
      }
    }

    /** Files a block in the fork database. */
    method Learn(b: Block)
      requires Valid() && (b.Id() in index ==> index[b.Id()] == b) && b.Num() > base.head.Num()
      modifies this`index, this`forkHead
      ensures Core() && ForkHeadKnown() && (chain != [] ==> Rooted()) && index == old(index)[b.Id() := b]
      ensures forkHead == old(Highest(b))
      ensures forkHead.previous == now.head.Id() <==> old(Extends(b))
    {
      hide Step, Stored, IsHistory;
      index := index[b.Id() := b];
      if b.Num() > forkHead.Num() {
        forkHead := b;
      }
    }

    /** Applies a block that extends the current chain, or forgets it. */
    method Extend(b: Block) returns (r: Outcome)
      requires Core() && b.previous == now.head.Id() && forkHead == b && ForkHeadKnown()
      requires chain == [] ==> index == map[base.head.Id() := base.head, b.Id() := b]
      modifies this
      ensures Valid() && (r == Extended || r == Invalid)
      ensures r == Extended <==> old(Step(now, b).Some?)
      ensures r == Extended ==> index == old(index) && forkHead == b
      ensures r == Extended ==> chain == old(chain) + [b] && old(Step(now, b)) == Some(now) && now.head == b
      ensures r == Invalid ==> chain == old(chain) && Trail() == old(Trail())
      ensures old(Linked(index, base.head, b))
      ensures Followed(r, Extended, old(PathTo(index, base.head, b)), old(chain), old(Trail()), old(index), b)
    {
      hide IsIndex, Step, Stored, IsHistory, Known, Fails, Linked, PathTo, Fold, Reach;
      SameLength();
      HeadOf(|chain|);
      assert Trail()[|chain|] == now;
      ExtendedPath(b);
      ghost var path := PathTo(index, base.head, b);
      var ok := ApplyBlock(b);
      SameLength();
      if ok {
        assert Trail()[|chain|] == now;
        HeadOf(|chain|);
        FollowedPath(Extended, path, old(chain), old(Trail()), old(index), b);
        return Extended;
      }
      ChainNums();
      FailsNow(b);
      assert path[..|chain|] == chain && path[|chain|..] == [b];
      StopsAt(path, |chain|);
      ForgetOthers([b]);
      HeadOf(|chain|);
      forkHead := index[b.previous];
      return Invalid;
    }

    lemma {:induction false} ExtendedPath(b: Block)
      requires History() && Known() && b.previous == now.head.Id()
      ensures Linked(index, base.head, b) && PathTo(index, base.head, b) == chain + [b]
    {
      SameLength();
      assert Trail()[|chain|] == now;
      ChainIsPath(|chain|);
      HeadOf(|chain|);
      HeightAt(|chain|);
      LinkedStep(index, base.head, b);
      assert chain[..|chain|] == chain;
    }
  }
}
