/**
 * A run of a node in which a block is kept on top of one that is then forgotten, so that
 * no known blocks lead back from it.
 */
module ForgottenBlock {
  import opened Wrappers
  import opened Blocks
  import opened ForkSwitch

  const ROOT := Block(BlockId(0, 0), 1)
  const A1 := Block(ROOT.Id(), 11)
  const A2 := Block(A1.Id(), 12)
  const A3 := Block(A2.Id(), 13)
  const A4 := Block(A3.Id(), 14)
  const BAD1 := Block(ROOT.Id(), 21)
  const BAD2 := Block(BAD1.Id(), 22)
  const BAD3 := Block(BAD2.Id(), 23)
  const OTHER2 := Block(BAD1.Id(), 32)
  const OTHER3 := Block(OTHER2.Id(), 33)

  /** All blocks but one apply. */
  function ApplyAllBut(count: nat, b: Block): Option<nat> {
    if b == BAD1 then None else Some(count + 1)
  }

  ghost predicate Started(node: Node<nat>)
    reads node
  {
    node.Valid() && node.apply == ApplyAllBut && node.base == Snapshot(0, ROOT) && node.chain == [A1, A2] && node.now == Snapshot(2, A2)
  }

  /** Two blocks are applied. */
  method Start() returns (node: Node<nat>)
    ensures fresh(node) && Started(node) && node.forkHead == A2
    ensures node.index == map[ROOT.Id() := ROOT, A1.Id() := A1, A2.Id() := A2]
  {
    hide Linked, PathTo, Node.Fold, Node.Reach, Node.Core, Node.Followed, Ids;
    node := new Node(ApplyAllBut, Snapshot(0, ROOT));
    var r := node.PushBlock(A1);
    r := node.PushBlock(A2);
  }

  /** A block that does not apply, and two on top of it, are kept without being applied. */
  method KeepOthers(node: Node<nat>)
    requires Started(node) && node.forkHead == A2 && node.index == map[ROOT.Id() := ROOT, A1.Id() := A1, A2.Id() := A2]
    modifies node
    ensures Started(node) && node.forkHead == A2
    ensures node.index == map[ROOT.Id() := ROOT, A1.Id() := A1, A2.Id() := A2, BAD1.Id() := BAD1, OTHER2.Id() := OTHER2, BAD2.Id() := BAD2]
  {
    hide Linked, PathTo, Node.Fold, Node.Reach, Node.Core, Node.Followed, Node.Step, Ids;
    var r := node.PushBlock(BAD1);
    r := node.PushBlock(OTHER2);
    r := node.PushBlock(BAD2);
  }

  lemma BadPath(index: map<BlockId, Block>)
    requires ROOT.Id() in index && index[ROOT.Id()] == ROOT && BAD1.Id() in index && index[BAD1.Id()] == BAD1
    requires BAD2.Id() in index && index[BAD2.Id()] == BAD2
    ensures Linked(index, ROOT, BAD3) && PathTo(index, ROOT, BAD3) == [BAD1, BAD2, BAD3]
  {
    assert Linked(index, ROOT, BAD1) && PathTo(index, ROOT, BAD1) == [BAD1];
    assert Linked(index, ROOT, BAD2) && PathTo(index, ROOT, BAD2) == [BAD1, BAD2];
  }

  /** A third block makes the others the higher fork, which fails; they are forgotten, but not the one on top of the first of them. */
  method FailToSwitch(node: Node<nat>) returns (r: Outcome)
    requires Started(node) && node.forkHead == A2
    requires node.index == map[ROOT.Id() := ROOT, A1.Id() := A1, A2.Id() := A2, BAD1.Id() := BAD1, OTHER2.Id() := OTHER2, BAD2.Id() := BAD2]
    modifies node
    ensures r == Invalid && Started(node) && node.forkHead == A2
    ensures node.index == map[ROOT.Id() := ROOT, A1.Id() := A1, A2.Id() := A2, OTHER2.Id() := OTHER2]
  {
    hide Linked, PathTo, Node.Fold, Node.Reach, Node.Core, Node.Step;
    BadPath(node.index[BAD3.Id() := BAD3]);
    ghost var path := [BAD1, BAD2, BAD3];
    BadFails(node);
    assert [A1, A2][0] != path[0];
    ghost var trail := node.Trail();
    TrailOf(node);
    r := node.PushBlock(BAD3);
    assert Ids(path) == {BAD1.Id(), BAD2.Id(), BAD3.Id()} by { assert forall b :: b in path <==> b == BAD1 || b == BAD2 || b == BAD3; }
    assert path[0..] == path;
  }

  lemma BadFails(node: Node<nat>)
    requires node.apply == ApplyAllBut && node.base == Snapshot(0, ROOT)
    ensures node.Fold(node.base, [BAD1, BAD2, BAD3]).None? && node.Reach([BAD1, BAD2, BAD3]) == 0
  {
    var path := [BAD1, BAD2, BAD3];
    assert path[..0] == [] && path[..1] == [BAD1] && [BAD1][..0] == [];
    assert node.Step(node.base, BAD1).None?;
    node.ReachIs(path, 0);
  }

  lemma TrailOf(node: Node<nat>)
    requires node.Valid()
    ensures |node.Trail()| == |node.chain| + 1 && node.Trail()[|node.chain|] == node.now
  {
    node.SameLength();
  }

  /**
   * A block on top of the one whose previous block is forgotten is now the highest, but no
   * known blocks lead back from it.  From then on a block that would extend the chain is
   * refused as well.
   */
  method Blocked(node: Node<nat>) returns (other: Outcome, next: Outcome)
    requires Started(node) && node.forkHead == A2
    requires node.index == map[ROOT.Id() := ROOT, A1.Id() := A1, A2.Id() := A2, OTHER2.Id() := OTHER2]
    modifies node
    ensures other == Unlinked && next == Unlinked && Started(node) && node.forkHead == OTHER3
    ensures node.index == map[ROOT.Id() := ROOT, A1.Id() := A1, A2.Id() := A2, OTHER2.Id() := OTHER2, OTHER3.Id() := OTHER3, A3.Id() := A3]
  {
    hide PathTo, Linked, Node.Fold, Node.Reach, Node.Core, Node.Step, Node.Followed, Ids;
    LeadsNowhere(node.index[OTHER3.Id() := OTHER3]);
    other := node.PushBlock(OTHER3);
    LeadsNowhere(node.index[A3.Id() := A3]);
    next := node.PushBlock(A3);
  }

  lemma LeadsNowhere(index: map<BlockId, Block>)
    requires OTHER2.Id() in index && index[OTHER2.Id()] == OTHER2 && BAD1.Id() !in index
    ensures !Linked(index, ROOT, OTHER3)
  {
    assert !Linked(index, ROOT, OTHER2);
  }

  /** A block that is higher still makes the node go on. */
  method GoOn(node: Node<nat>) returns (r: Outcome)
    requires Started(node) && node.forkHead == OTHER3
    requires node.index == map[ROOT.Id() := ROOT, A1.Id() := A1, A2.Id() := A2, OTHER2.Id() := OTHER2, OTHER3.Id() := OTHER3, A3.Id() := A3]
    modifies node
    ensures r == Switched && node.chain == [A1, A2, A3, A4]
  {
    hide PathTo, Linked, Node.Fold, Node.Reach, Node.Core, Node.Step, Ids;
    GoodPath(node.index[A4.Id() := A4]);
    GoodFold(node);
    r := node.PushBlock(A4);
  }

  lemma GoodPath(index: map<BlockId, Block>)
    requires ROOT.Id() in index && index[ROOT.Id()] == ROOT && A1.Id() in index && index[A1.Id()] == A1
    requires A2.Id() in index && index[A2.Id()] == A2 && A3.Id() in index && index[A3.Id()] == A3
    ensures Linked(index, ROOT, A4) && PathTo(index, ROOT, A4) == [A1, A2, A3, A4]
  {
    assert Linked(index, ROOT, A1) && PathTo(index, ROOT, A1) == [A1];
    assert Linked(index, ROOT, A2) && PathTo(index, ROOT, A2) == [A1, A2];
    assert Linked(index, ROOT, A3) && PathTo(index, ROOT, A3) == [A1, A2, A3];
  }

  lemma GoodFold(node: Node<nat>)
    requires node.apply == ApplyAllBut && node.base == Snapshot(0, ROOT)
    ensures node.Fold(node.base, [A1, A2, A3, A4]) == Some(Snapshot(4, A4))
  {
    assert [A1][..0] == [] && [A1, A2][..1] == [A1] && [A1, A2, A3][..2] == [A1, A2] && [A1, A2, A3, A4][..3] == [A1, A2, A3];
    assert node.Fold(node.base, [A1]) == Some(Snapshot(1, A1));
    assert node.Fold(node.base, [A1, A2]) == Some(Snapshot(2, A2));
    assert node.Fold(node.base, [A1, A2, A3]) == Some(Snapshot(3, A3));
  }

  /** The whole run: one invalid fork is enough to have a valid block on top of the head refused. */
  method ForgottenExample() returns (failed: Outcome, other: Outcome, next: Outcome, later: Outcome)
    ensures failed == Invalid && other == Unlinked && next == Unlinked && later == Switched
  {
    var node := Start();
    KeepOthers(node);
    failed := FailToSwitch(node);
    other, next := Blocked(node);
    later := GoOn(node);
  }
}
