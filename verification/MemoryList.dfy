/** The allocation list: every live block is on one doubly linked list, newest last.  Blocks
    are added at the end and taken out anywhere; the counters always are the number of blocks
    and the sum of their sizes. */
module MemoryList {
  import opened Options

  class MemList {
    var prev: MemList?
    var next: MemList?
    const size: nat

    constructor (size: nat, prev: MemList?)
      ensures this.size == size && this.prev == prev && this.next == null
    {
      this.size, this.prev, this.next := size, prev, null;
    }
  }

  // The block at a place in the list, or null outside.
  ghost function At(blocks: seq<MemList>, k: int): MemList? {
    if 0 <= k < |blocks| then blocks[k] else null
  }

  ghost predicate Once(blocks: seq<MemList>) {
    forall j, k :: 0 <= j < k < |blocks| ==> blocks[j] != blocks[k]
  }

  // Each block is linked to its neighbours.
  ghost predicate Linked(blocks: seq<MemList>)
    reads set b | b in blocks
  {
    forall k :: 0 <= k < |blocks| ==> LinkedAt(blocks, k)
  }

  ghost predicate LinkedAt(blocks: seq<MemList>, k: nat)
    requires k < |blocks|
    reads blocks[k]
  {
    blocks[k].prev == At(blocks, k - 1) && blocks[k].next == At(blocks, k + 1)
  }

  ghost function TotalSize(blocks: seq<MemList>): nat {
    if blocks == [] then 0 else TotalSize(blocks[..|blocks| - 1]) + blocks[|blocks| - 1].size
  }

  lemma {:induction false} TotalWithout(blocks: seq<MemList>, k: nat)
    requires k < |blocks|
    ensures TotalSize(blocks) == TotalSize(blocks[..k] + blocks[k + 1..]) + blocks[k].size
    decreases |blocks|
  {
    var n := |blocks| - 1;
    if k < n {
      var front := blocks[..n];
      TotalWithout(front, k);
      var rest := blocks[..k] + blocks[k + 1..];
      assert front[..k] + front[k + 1..] == rest[..|rest| - 1] && rest[|rest| - 1] == blocks[n];
    } else {
      assert blocks[..k] + blocks[k + 1..] == blocks[..n];
    }
  }

  class BaseMemoryManager {
    var fCurrentBlock: MemList?
    var objectsAllocated: nat
    var totalMemoryAllocated: nat
    // The live blocks, from the oldest to the newest.
    ghost var blocks: seq<MemList>

    ghost predicate Valid()
      reads this, set b | b in blocks
    {
      && Once(blocks) && Linked(blocks) && fCurrentBlock == At(blocks, |blocks| - 1)
      && objectsAllocated == |blocks| && totalMemoryAllocated == TotalSize(blocks)
    }

    constructor ()
      ensures Valid() && blocks == []
    {
      fCurrentBlock, objectsAllocated, totalMemoryAllocated, blocks := null, 0, 0, [];
    }

    /** A new block at the end of the list; nothing changes when there is no memory. */
    method Allocate(amount: nat, available: bool) returns (block: MemList?)
      requires Valid()
      modifies this, set b | b in blocks
      ensures Valid() && (block == null <==> !available)
      ensures block == null ==> blocks == old(blocks)
      ensures block != null ==> fresh(block) && block.size == amount && blocks == old(blocks) + [block]
    {
      hide TotalSize, Once, Linked;
      if !available {
        return null;
      }
      objectsAllocated := objectsAllocated + 1;
      totalMemoryAllocated := totalMemoryAllocated + amount;
      var newMemList := new MemList(amount, fCurrentBlock);
      LinkLast(fCurrentBlock, newMemList, blocks);
      fCurrentBlock := newMemList;
      AddedLast(blocks, newMemList);
      blocks := blocks + [newMemList];
      return newMemList;
    }

    /** Takes any live block out of the list. */
    method Deallocate(block: MemList?, ghost k: nat)
      requires Valid() && (block != null ==> k < |blocks| && blocks[k] == block)
      modifies this, set b | b in blocks
      ensures Valid()
      ensures blocks == if block == null then old(blocks) else old(blocks)[..k] + old(blocks)[k + 1..]
    {
      hide Linked, Once, TotalSize;
      if block != null {
        Neighbours(blocks, k);
        Unlink(block, blocks, k);
        if block.next == null {
          fCurrentBlock := block.prev;
        }
        OnceWithout(blocks, k);
        objectsAllocated := objectsAllocated - 1;
        TotalWithout(blocks, k);
        totalMemoryAllocated := totalMemoryAllocated - block.size;
        blocks := blocks[..k] + blocks[k + 1..];
      }
    }

    /** Frees every live block once, from the newest to the oldest.  The counters are not set
        back, so the object is not used again unless nothing was live. */
    method ReleaseAll() returns (freed: seq<MemList>)
      requires Valid()
      modifies this`fCurrentBlock, this`blocks
      ensures fCurrentBlock == null && blocks == []
      ensures objectsAllocated == old(objectsAllocated) && totalMemoryAllocated == old(totalMemoryAllocated)
      ensures Valid() <==> old(blocks) == []
      ensures |freed| == |old(blocks)| && forall k :: 0 <= k < |freed| ==> freed[k] == old(blocks)[|freed| - 1 - k]
    {
      hide Linked, Once, TotalSize;
      freed := [];
      ghost var all, left := blocks, |blocks|;
      while fCurrentBlock != null
        invariant 0 <= left && left + |freed| == |all| && fCurrentBlock == At(all, left - 1)
        invariant forall k :: 0 <= k < |freed| ==> freed[k] == all[|all| - 1 - k]
        decreases left
      {
        Neighbours(all, left - 1);
        var prev := fCurrentBlock.prev;
        freed := freed + [fCurrentBlock];
        fCurrentBlock := prev;
        left := left - 1;
      }
      blocks := [];
      assert Once([]) && Linked([]) && TotalSize([]) == 0 by { NoBlocks(); }
    }
  }

  // Links the last block to a new one.
  method LinkLast(last: MemList?, block: MemList, ghost blocks: seq<MemList>)
    requires Once(blocks) && Linked(blocks) && last == At(blocks, |blocks| - 1)
    requires block !in blocks && block.prev == last && block.next == null
    modifies set b | b in blocks
    ensures Linked(blocks + [block])
  {
    if last != null {
      last.next := block;
    }
    ghost var all := blocks + [block];
    forall i | 0 <= i < |all| ensures LinkedAt(all, i) {
      if i < |blocks| {
        assert old(LinkedAt(blocks, i));
      }
    }
  }

  // Joins the neighbours of a block.
  method Unlink(block: MemList, ghost blocks: seq<MemList>, ghost k: nat)
    requires k < |blocks| && blocks[k] == block && Once(blocks) && Linked(blocks)
    modifies set b | b in blocks
    ensures Linked(blocks[..k] + blocks[k + 1..])
    ensures block.prev == old(block.prev) && block.next == old(block.next)
  {
    assert LinkedAt(blocks, k);
    if block.prev != null {
      block.prev.next := block.next;
    }
    if block.next != null {
      block.next.prev := block.prev;
    }
    ghost var rest := blocks[..k] + blocks[k + 1..];
    forall i | 0 <= i < |rest| ensures LinkedAt(rest, i) {
      ghost var o := if i < k then i else i + 1;
      assert rest[i] == blocks[o] && old(LinkedAt(blocks, o));
    }
  }

  lemma AddedLast(blocks: seq<MemList>, block: MemList)
    requires Once(blocks) && block !in blocks
    ensures Once(blocks + [block]) && TotalSize(blocks + [block]) == TotalSize(blocks) + block.size
  {
    assert (blocks + [block])[..|blocks|] == blocks;
  }

  lemma NoBlocks()
    ensures Once([]) && Linked([]) && TotalSize([]) == 0
  {
  }

  lemma Neighbours(blocks: seq<MemList>, k: nat)
    requires k < |blocks| && Once(blocks) && Linked(blocks)
    ensures blocks[k].prev == At(blocks, k - 1) && blocks[k].next == At(blocks, k + 1)
  {
    assert LinkedAt(blocks, k);
  }

  lemma OnceWithout(blocks: seq<MemList>, k: nat)
    requires k < |blocks| && Once(blocks)
    ensures Once(blocks[..k] + blocks[k + 1..])
  {
  }

  // A request to the manager; a block is named by its place in the list.
  datatype Request = Allocating(amount: nat, available: bool) | Deallocating(place: nat)

  // The sizes of the live blocks after a request.
  function SizesAfter(sizes: seq<nat>, r: Request): seq<nat> {
    match r
    case Allocating(amount, available) => if available then sizes + [amount] else sizes
    case Deallocating(place) => if place < |sizes| then sizes[..place] + sizes[place + 1..] else sizes
  }

  function SizesAfterAll(sizes: seq<nat>, requests: seq<Request>): seq<nat>
    decreases |requests|
  {
    if requests == [] then sizes else SizesAfterAll(SizesAfter(sizes, requests[0]), requests[1..])
  }

  function Sum(sizes: seq<nat>): nat {
    if sizes == [] then 0 else Sum(sizes[..|sizes| - 1]) + sizes[|sizes| - 1]
  }

  function Sizes(blocks: seq<MemList>): (r: seq<nat>)
    ensures |r| == |blocks| && forall k :: 0 <= k < |r| ==> r[k] == blocks[k].size
  {
    if blocks == [] then [] else Sizes(blocks[..|blocks| - 1]) + [blocks[|blocks| - 1].size]
  }

  lemma {:induction false} TotalIsSum(blocks: seq<MemList>)
    ensures TotalSize(blocks) == Sum(Sizes(blocks))
  {
    if blocks != [] {
      TotalIsSum(blocks[..|blocks| - 1]);
      assert Sizes(blocks)[..|blocks| - 1] == Sizes(blocks[..|blocks| - 1]);
    }
  }

  /** Over every run of requests, in any order, the counters are the number and the sum of the
      sizes of the blocks that are live, and the list holds exactly those. */
  method Run(requests: seq<Request>) returns (manager: BaseMemoryManager)
    ensures fresh(manager) && manager.Valid()
    ensures var sizes := SizesAfterAll([], requests);
            && Sizes(manager.blocks) == sizes
            && manager.objectsAllocated == |sizes| && manager.totalMemoryAllocated == Sum(sizes)
  {
    hide Linked, Once, TotalSize, Sizes, SizesAfter, BaseMemoryManager.Valid;
    manager := new BaseMemoryManager();
    var live: seq<MemList>, i := [], 0;
    assert requests[0..] == requests;
    assert Sizes([]) == [];
    while i < |requests|
      invariant i <= |requests| && fresh(manager) && manager.Valid() && live == manager.blocks
      invariant forall b :: b in manager.blocks ==> fresh(b)
      invariant SizesAfterAll(Sizes(live), requests[i..]) == SizesAfterAll([], requests)
    {
      assert requests[i..][1..] == requests[i + 1..];
      live := Serve(manager, live, requests[i]);
      i := i + 1;
    }
    assert requests[i..] == [];
    TotalIsSum(manager.blocks);
    Counters(manager);
  }

  lemma Counters(manager: BaseMemoryManager)
    requires manager.Valid()
    ensures manager.objectsAllocated == |manager.blocks| && manager.totalMemoryAllocated == TotalSize(manager.blocks)
  {
  }

  // Serves one request.
  method Serve(manager: BaseMemoryManager, live: seq<MemList>, r: Request) returns (now: seq<MemList>)
    requires manager.Valid() && live == manager.blocks
    modifies manager, set b | b in manager.blocks
    ensures manager.Valid() && now == manager.blocks && Sizes(now) == SizesAfter(Sizes(live), r)
    ensures forall b :: b in now ==> b in live || fresh(b)
  {
    hide Linked, Once, TotalSize, Sizes, BaseMemoryManager.Valid;
    now := live;
    match r {
      case Allocating(amount, available) =>
        var block := manager.Allocate(amount, available);
        if block != null {
          now := live + [block];
          SizesAdd(live, block);
        }
      case Deallocating(place) =>
        if place < |live| {
          manager.Deallocate(live[place], place);
          now := live[..place] + live[place + 1..];
          SizesWithout(live, place);
        }
    }
  }

  lemma SizesAdd(live: seq<MemList>, block: MemList)
    ensures Sizes(live + [block]) == Sizes(live) + [block.size]
  {
    hide Sizes;
  }

  lemma SizesWithout(live: seq<MemList>, place: nat)
    requires place < |live|
    ensures Sizes(live[..place] + live[place + 1..]) == Sizes(live)[..place] + Sizes(live)[place + 1..]
  {
    hide Sizes;
  }
}
