/**
 * Blocks on disk: a log that only grows, and an index with one entry per block number
 * that says where in the log the block is.
 */
module BlockStore {
  import opened Wrappers
  import opened Blocks

  /** An entry of size zero has no block: there never was one, or it was removed. */
  datatype Entry = Entry(pos: nat, size: nat, id: BlockId)

  const EMPTY := Entry(0, 0, NO_BLOCK)

  function Blank(n: nat): (r: seq<Entry>)
    ensures |r| == n && forall i :: 0 <= i < n ==> r[i] == EMPTY
  {
    if n == 0 then [] else Blank(n - 1) + [EMPTY]
  }

  /** Writing behind the end of a file fills the gap with zeros. */
  function WriteAt(entries: seq<Entry>, n: nat, e: Entry): (r: seq<Entry>)
    ensures n < |r| && r[n] == e && |r| >= |entries|
    ensures forall i :: 0 <= i < |r| && i != n ==> r[i] == if i < |entries| then entries[i] else EMPTY
    ensures |r| == if n < |entries| then |entries| else n + 1
  {
    if n < |entries| then entries[n := e] else entries + Blank(n - |entries|) + [e]
  }

  class Store {
    /** How blocks are written, and read back. */
    const pack: Block -> seq<bv8>
    const unpack: seq<bv8> -> Option<Block>

    var entries: seq<Entry>
    var log: seq<bv8>
    /** The blocks that are stored, by number. */
    ghost var blocks: map<nat, Block>

    /** Reading inverts writing, and there is no block without bytes. */
    ghost predicate Lawful() {
      (forall b :: unpack(pack(b)) == Some(b) && |pack(b)| > 0) && unpack([]) == None
    }

    constructor (pack: Block -> seq<bv8>, unpack: seq<bv8> -> Option<Block>)
      requires (forall b :: unpack(pack(b)) == Some(b) && |pack(b)| > 0) && unpack([]) == None
      ensures Valid() && blocks == map[]
    {
      this.pack, this.unpack, entries, log, blocks := pack, unpack, [], [], map[];
    }

    /** The entry leads to the packed block. */
    ghost predicate Holds(e: Entry, b: Block)
      reads this`log
    {
      Leads(log, e, b)
    }

    ghost predicate Leads(bytes: seq<bv8>, e: Entry, b: Block) {
      e.id == b.Id() && e.size == |pack(b)| && e.pos + e.size <= |bytes| && bytes[e.pos..e.pos + e.size] == pack(b)
    }

    lemma StillLeads(bytes: seq<bv8>, more: seq<bv8>, e: Entry, b: Block)
      requires Leads(bytes, e, b)
      ensures Leads(bytes + more, e, b)
    {
      assert (bytes + more)[e.pos..e.pos + e.size] == bytes[e.pos..e.pos + e.size];
    }

    lemma NewLeads(bytes: seq<bv8>, b: Block)
      ensures Leads(bytes + pack(b), Entry(|bytes|, |pack(b)|, b.Id()), b)
    {
      assert (bytes + pack(b))[|bytes|..|bytes| + |pack(b)|] == pack(b);
    }

    ghost predicate Valid()
      reads this
    {
      && Lawful()
      && (forall n :: n in blocks <==> 0 <= n < |entries| && entries[n].size > 0)
      && (forall n :: n in blocks ==> blocks[n].Num() == n && Holds(entries[n], blocks[n]))
    }

    /** Stores a block under its number, in place of any other; the log only grows. */
    method Put(id: BlockId, b: Block)
      requires Valid() && (id == b.Id() || id == NO_BLOCK)
      modifies this
      ensures Valid() && blocks == old(blocks)[b.Num() := b]
      ensures old(log) <= log
      ensures forall n :: n in old(blocks) && n != b.Num() ==> n < |entries| && entries[n] == old(entries)[n]
    {
      hide Leads, WriteAt;
      var own := if id == NO_BLOCK then b.Id() else id;
      var bytes := pack(b);
      ghost var before := log;
      NewLeads(log, b);
      entries := WriteAt(entries, own.num, Entry(|log|, |bytes|, own));
      log := log + bytes;
      blocks := blocks[b.Num() := b];
      forall n | n in blocks && n != b.Num() ensures Holds(entries[n], blocks[n]) {
        StillLeads(before, bytes, entries[n], blocks[n]);
      }
    }

    /** Removes a block if it is the one stored under its number; fails behind the end of the index. */
    method Remove(id: BlockId) returns (ok: bool)
      requires Valid()
      modifies this`entries, this`blocks
      ensures Valid() && ok == (id.num < old(|entries|)) && |entries| == old(|entries|)
      ensures blocks == if Has(old(blocks), id) then old(blocks) - {id.num} else old(blocks)
    {
      if |entries| <= id.num { return false; }
      var e := entries[id.num];
      if e.id == id {
        entries := entries[id.num := e.(size := 0)];
        blocks := blocks - {id.num};
      }
      return true;
    }

    static predicate Has(blocks: map<nat, Block>, id: BlockId) {
      id.num in blocks && blocks[id.num].Id() == id
    }

    method Contains(id: BlockId) returns (r: bool)
      requires Valid()
      ensures r == Has(blocks, id)
    {
      if id == NO_BLOCK { return false; }
      if |entries| < id.num + 1 { return false; }
      var e := entries[id.num];
      return e.id == id && e.size > 0;
    }

    function Read(e: Entry): Option<Block>
      reads this`log
    {
      if e.pos + e.size > |log| then None
      else
        match unpack(log[e.pos..e.pos + e.size])
        case None => None
        case Some(b) => if b.Id() == e.id then Some(b) else None
    }

    method FetchByNumber(n: nat) returns (r: Option<Block>)
      requires Valid()
      ensures r == if n in blocks then Some(blocks[n]) else None
    {
      if |entries| <= n { return None; }
      EmptyReadsNothing(entries[n]);
      return Read(entries[n]);
    }

    lemma EmptyReadsNothing(e: Entry)
      requires Valid()
      ensures e.size == 0 ==> Read(e).None?
    {
      if e.size == 0 && e.pos <= |log| { assert log[e.pos..e.pos + e.size] == []; }
    }

    method FetchById(id: BlockId) returns (r: Option<Block>)
      requires Valid()
      ensures r == if Has(blocks, id) then Some(blocks[id.num]) else None
    {
      if |entries| <= id.num { return None; }
      var e := entries[id.num];
      if e.id != id { return None; }
      EmptyReadsNothing(e);
      return Read(e);
    }

    /** The id of the highest stored block; cuts off entries behind it, none of which holds a block. */
    method LastId() returns (r: Option<BlockId>)
      requires Valid()
      modifies this`entries
      ensures Valid() && entries <= old(entries)
      ensures r.None? ==> blocks == map[] && entries == []
      ensures r.Some? ==> && Has(blocks, r.value) && |entries| == r.value.num + 1
                          && forall n :: n in blocks ==> n <= r.value.num
    {
      while |entries| > 0
        invariant Valid() && entries <= old(entries)
        decreases |entries|
      {
        var n := |entries| - 1;
        var e := entries[n];
        if e.size > 0 && e.pos + e.size <= |log| {
          var b := Read(e);
          if b.Some? { return Some(e.id); }
        }
        entries := entries[..n];
      }
      return None;
    }
  }
}
