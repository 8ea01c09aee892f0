/** The chunked allocator (system/talloc.cpp:31-97).

    An arena is a list of chunks, the newest first.  A request is rounded up, taken from the end
    of the newest chunk's used part when it fits there, and from a new chunk otherwise; what an
    older chunk has left is not used again.  Sizes are size_t values of four bytes. */
module Talloc {
  // One past the largest size_t.
  const SIZE: nat := 0x1_0000_0000
  const TALLOC_ALIGN: nat := 32
  const TALLOC_CHUNK_SIZE: nat := 0x2000

  datatype Chunk = Chunk(base: nat, used: nat, total: nat)

  // A block handed out: its address and the size asked for.
  datatype Block = Block(at: nat, size: nat)

  // What malloc answers for the chunk: nothing, or the address of the memory.
  datatype Memory = Nothing | Given(base: nat)

  // (size + (ALIGN - 1)) & ~(ALIGN - 1), with the wrap of size_t
  function RoundUp(size: nat, to: nat): nat
    requires to > 0
  {
    var sum := (size + to - 1) % SIZE;
    sum - sum % to
  }

  // The comparison of the source, in size_t.
  predicate Fits(chunks: seq<Chunk>, size: nat) {
    chunks != [] && (chunks[0].total - chunks[0].used) % SIZE >= size
  }

  datatype Result = Result(chunks: seq<Chunk>, block: seq<Block>)

  // talloc: the new list, and the block unless it failed.
  function Allocated(chunks: seq<Chunk>, request: nat, m: Memory): Result {
    var size := RoundUp(request, 32);
    if Fits(chunks, size) then
      var c := chunks[0];
      Result([c.(used := (c.used + size) % SIZE)] + chunks[1..], [Block(c.base + c.used, request)])
    else if m.Nothing? then Result(chunks, [])
    else Result([Chunk(m.base, size, RoundUp(size, 0x2000))] + chunks, [Block(m.base, request)])
  }

  // ---------------------------------------------------------------- soundness

  predicate Apart(a: nat, m: nat, b: nat, n: nat) { a + m <= b || b + n <= a }

  // Whole cells are used, and no more than there are.
  predicate SoundChunk(c: Chunk) {
    c.used <= c.total <= 0xffff_e000 && c.used % 32 == 0
  }

  // The block lies in the used part of the chunk, at a cell.
  predicate Inside(b: Block, c: Chunk) {
    c.base <= b.at && b.at + b.size <= c.base + c.used && (b.at - c.base) % 32 == 0
  }

  ghost predicate SoundChunks(chunks: seq<Chunk>) {
    && (forall c :: c in chunks ==> SoundChunk(c))
    && (forall i, j :: 0 <= i < j < |chunks| ==>
          Apart(chunks[i].base, chunks[i].total, chunks[j].base, chunks[j].total))
  }

  ghost predicate SoundBlocks(chunks: seq<Chunk>, blocks: seq<Block>) {
    && (forall b :: b in blocks ==> exists c :: c in chunks && Inside(b, c))
    && (forall i, j :: 0 <= i < j < |blocks| ==>
          Apart(blocks[i].at, blocks[i].size, blocks[j].at, blocks[j].size))
  }

  ghost predicate Sound(chunks: seq<Chunk>, blocks: seq<Block>) {
    SoundChunks(chunks) && SoundBlocks(chunks, blocks)
  }

  // malloc gives memory that no chunk of the arena has.
  ghost predicate FreshMemory(chunks: seq<Chunk>, request: nat, m: Memory) {
    m.Given? ==> forall c :: c in chunks ==>
      Apart(m.base, RoundUp(RoundUp(request, 32), 0x2000), c.base, c.total)
  }

  // Up to this size the two roundings do not wrap.
  predicate Small(request: nat) { request <= 0xffff_e000 }

  lemma RoundsUp(request: nat)
    requires request < SIZE
    ensures var size := RoundUp(request, 32);
      && size % 32 == 0
      && (Small(request) ==> request <= size < request + 32 && size <= RoundUp(size, 0x2000) <= 0xffff_e000)
      && (!Small(request) ==> size == 0 || RoundUp(size, 0x2000) == 0)
  {
    var sum := request + 31;
    if sum < SIZE {
      var size := sum - sum % 32;
      assert sum % SIZE == sum;
      if Small(request) {
        assert size <= 0xffff_e000;
      } else {
        assert size >= 0xffff_e020;
        assert (size + 0x1fff) % SIZE == size + 0x1fff - SIZE;
      }
    } else {
      assert sum % SIZE == sum - SIZE < 32;
    }
  }

  // ---------------------------------------------------------------- every request

  lemma RoundedUp(x: nat, to: nat)
    requires to > 0 && x + to <= SIZE
    ensures RoundUp(x, to) == (x + to - 1) / to * to
  {
    var sum := x + to - 1;
    assert sum % SIZE == sum;
    assert sum == sum / to * to + sum % to;
  }

  // In a sound arena a small request is served exactly when the newest chunk has the bytes left,
  // rounded up to whole cells, or there is memory for a new chunk; then it gets the first of those
  // bytes, or the first of the new chunk, which is as many pages as it takes.
  lemma ServedExactlyWhen(chunks: seq<Chunk>, request: nat, m: Memory)
    requires SoundChunks(chunks) && Small(request)
    ensures var r := Allocated(chunks, request, m);
      var need := (request + 31) / 32 * 32;
      if chunks != [] && chunks[0].used + need <= chunks[0].total then
        && r.block == [Block(chunks[0].base + chunks[0].used, request)]
        && r.chunks == [chunks[0].(used := chunks[0].used + need)] + chunks[1..]
      else if m.Nothing? then r == Result(chunks, [])
      else
        && r.block == [Block(m.base, request)]
        && r.chunks == [Chunk(m.base, need, (need + 0x1fff) / 0x2000 * 0x2000)] + chunks
  {
    RoundsUp(request);
    RoundedUp(request, 32);
    RoundedUp((request + 31) / 32 * 32, 0x2000);
    if chunks != [] { assert chunks[0] in chunks; }
  }

  // A block inside a sound chunk is apart from every other chunk's memory.
  lemma InsideIsApart(b: Block, c: Chunk, at: nat, size: nat)
    requires Inside(b, c) && SoundChunk(c) && Apart(at, size, c.base, c.total)
    ensures Apart(at, size, b.at, b.size)
  {}

  // The newest chunk takes size bytes more.
  function Bumped(chunks: seq<Chunk>, size: nat): seq<Chunk>
    requires chunks != []
  {
    [chunks[0].(used := chunks[0].used + size)] + chunks[1..]
  }

  lemma BumpedChunks(chunks: seq<Chunk>, size: nat)
    requires SoundChunks(chunks) && chunks != [] && size % 32 == 0 && chunks[0].used + size <= chunks[0].total
    ensures SoundChunks(Bumped(chunks, size))
  {
    var after := Bumped(chunks, size);
    assert chunks[0] in chunks;
    assert forall c :: c in after ==> c == after[0] || c in chunks;
  }

  // The blocks there already are in the same chunks, and apart from the bytes taken.
  lemma BumpedBlock(chunks: seq<Chunk>, b: Block, size: nat)
    requires SoundChunks(chunks) && chunks != [] && chunks[0].used + size <= chunks[0].total
    requires exists c :: c in chunks && Inside(b, c)
    ensures exists c :: c in Bumped(chunks, size) && Inside(b, c)
    ensures Apart(b.at, b.size, chunks[0].base + chunks[0].used, size)
  {
    var after := Bumped(chunks, size);
    var d :| d in chunks && Inside(b, d);
    var k :| 0 <= k < |chunks| && chunks[k] == d;
    assert after[k] in after;
    if k > 0 { assert after[k] == d; }
  }

  // The request fits the newest chunk.
  lemma BumpKeepsSound(chunks: seq<Chunk>, blocks: seq<Block>, request: nat, m: Memory)
    requires Sound(chunks, blocks) && Small(request) && Fits(chunks, RoundUp(request, 32))
    ensures var r := Allocated(chunks, request, m); Sound(r.chunks, blocks + r.block)
  {
    var size := RoundUp(request, 32);
    var r := Allocated(chunks, request, m);
    var c, new_ := chunks[0], r.block[0];
    RoundsUp(request);
    assert c in chunks;
    assert r.chunks == Bumped(chunks, size) && Inside(new_, r.chunks[0]);
    BumpedChunks(chunks, size);
    hide RoundUp, Allocated, Bumped, SoundChunks;
    forall b | b in blocks
      ensures exists d :: d in r.chunks && Inside(b, d)
      ensures Apart(b.at, b.size, new_.at, new_.size)
    {
      BumpedBlock(chunks, b, size);
    }
    AppendApart(blocks, new_);
  }

  lemma AppendApart(blocks: seq<Block>, new_: Block)
    requires forall i, j :: 0 <= i < j < |blocks| ==>
      Apart(blocks[i].at, blocks[i].size, blocks[j].at, blocks[j].size)
    requires forall b :: b in blocks ==> Apart(b.at, b.size, new_.at, new_.size)
    ensures var all := blocks + [new_];
      forall i, j :: 0 <= i < j < |all| ==> Apart(all[i].at, all[i].size, all[j].at, all[j].size)
  {}

  // The request gets a chunk of its own, which the next ones go on with.
  lemma NewChunkKeepsSound(chunks: seq<Chunk>, blocks: seq<Block>, request: nat, m: Memory)
    requires Sound(chunks, blocks) && Small(request) && !Fits(chunks, RoundUp(request, 32))
    requires m.Given? && FreshMemory(chunks, request, m)
    ensures var r := Allocated(chunks, request, m); Sound(r.chunks, blocks + r.block)
  {
    RoundsUp(request);
    hide RoundUp;
    var r := Allocated(chunks, request, m);
    var c1, new_ := r.chunks[0], r.block[0];
    assert c1 in r.chunks && Inside(new_, c1);
    forall b | b in blocks
      ensures exists d :: d in r.chunks && Inside(b, d)
      ensures Apart(b.at, b.size, new_.at, new_.size)
    {
      var d :| d in chunks && Inside(b, d);
      assert d in r.chunks;
      InsideIsApart(b, d, new_.at, new_.size);
    }
    AppendApart(blocks, new_);
  }

  // A request that wraps: it would get a block larger than any chunk, or a chunk of no memory.
  lemma WrapBreaks(chunks: seq<Chunk>, blocks: seq<Block>, request: nat, m: Memory)
    requires Sound(chunks, blocks) && request < SIZE && !Small(request)
    ensures var r := Allocated(chunks, request, m); r.block == [] || !Sound(r.chunks, blocks + r.block)
  {
    RoundsUp(request);
    var r := Allocated(chunks, request, m);
    assert r.block != [] ==> r.block[0] in blocks + r.block;
  }

  // Blocks stay in bounds, aligned to cells and disjoint over every request exactly when it fails
  // or is not so large that its rounding wraps.
  lemma AllocatedKeepsSound(chunks: seq<Chunk>, blocks: seq<Block>, request: nat, m: Memory)
    requires Sound(chunks, blocks) && request < SIZE && FreshMemory(chunks, request, m)
    ensures var r := Allocated(chunks, request, m);
      Sound(r.chunks, blocks + r.block) <==> r.block == [] || Small(request)
  {
    var r := Allocated(chunks, request, m);
    if r.block == [] {
      assert r.chunks == chunks && blocks + [] == blocks;
    } else if !Small(request) {
      WrapBreaks(chunks, blocks, request, m);
    } else if Fits(chunks, RoundUp(request, 32)) {
      BumpKeepsSound(chunks, blocks, request, m);
    } else {
      NewChunkKeepsSound(chunks, blocks, request, m);
    }
  }

  datatype Request = Request(size: nat, memory: Memory)

  // The arena after some requests, with all the blocks handed out.
  function Served(chunks: seq<Chunk>, blocks: seq<Block>, rs: seq<Request>): (seq<Chunk>, seq<Block>)
    decreases rs
  {
    if rs == [] then (chunks, blocks)
    else
      var r := Allocated(chunks, rs[0].size, rs[0].memory);
      Served(r.chunks, blocks + r.block, rs[1..])
  }

  // Whenever malloc is asked, it gives memory the arena does not have; no size wraps.
  ghost predicate Proper(chunks: seq<Chunk>, rs: seq<Request>)
    decreases rs
  {
    rs == [] || (
      && Small(rs[0].size) && FreshMemory(chunks, rs[0].size, rs[0].memory)
      && Proper(Allocated(chunks, rs[0].size, rs[0].memory).chunks, rs[1..]))
  }

  lemma {:induction false} RunKeepsSound(chunks: seq<Chunk>, blocks: seq<Block>, rs: seq<Request>)
    requires Sound(chunks, blocks) && Proper(chunks, rs)
    ensures var (cs, bs) := Served(chunks, blocks, rs); Sound(cs, bs)
    decreases rs
  {
    hide Sound, Allocated, FreshMemory;
    if rs != [] {
      AllocatedKeepsSound(chunks, blocks, rs[0].size, rs[0].memory);
      var r := Allocated(chunks, rs[0].size, rs[0].memory);
      RunKeepsSound(r.chunks, blocks + r.block, rs[1..]);
    }
  }

  // ---------------------------------------------------------------- in place

  class Node {
    var next: Node?
    var base: nat
    var allocSize: nat
    var totalSize: nat

    constructor (next: Node?, base: nat, totalSize: nat)
      ensures this.next == next && View() == Chunk(base, 0, totalSize)
    {
      this.next, this.base, allocSize, this.totalSize := next, base, 0, totalSize;
    }

    ghost function View(): Chunk
      reads this
    {
      Chunk(base, allocSize, totalSize)
    }
  }

  class Context {
    var list: Node?
    ghost var nodes: seq<Node>
    ghost var repr: set<Node>

    // talloc_init
    constructor ()
      ensures Valid() && Chunks() == []
    {
      list, nodes, repr := null, [], {};
    }

    ghost predicate Valid()
      reads this, repr, nodes
    {
      && repr == (set n | n in nodes)
      && (forall i, j :: 0 <= i < j < |nodes| ==> nodes[i] != nodes[j])
      && list == (if nodes == [] then null else nodes[0])
      && (forall i {:trigger nodes[i].next} :: 0 <= i < |nodes| ==>
            nodes[i].next == if i + 1 < |nodes| then nodes[i + 1] else null)
    }

    ghost function Chunks(): seq<Chunk>
      reads this, nodes
    {
      seq(|nodes|, i requires 0 <= i < |nodes| reads this, nodes => nodes[i].View())
    }

    // A new chunk becomes the head of the list.
    method AddChunk(base: nat, asize: nat)
      requires Valid()
      modifies this
      ensures Valid() && fresh(repr - old(repr))
      ensures Chunks() == [Chunk(base, 0, asize)] + old(Chunks())
    {
      var c := new Node(list, base, asize);
      list := c;
      nodes := [c] + nodes;
      repr := repr + {c};
    }

    // The request is taken from the head of the list.
    method TakeBlock(size: nat) returns (at: nat)
      requires Valid() && list != null
      modifies list`allocSize
      ensures Valid()
      ensures var c := old(Chunks())[0];
        && at == c.base + c.used
        && Chunks() == [c.(used := (c.used + size) % 0x1_0000_0000)] + old(Chunks())[1..]
    {
      at := list.base + list.allocSize;
      list.allocSize := (list.allocSize + size) % 0x1_0000_0000;
    }

    // talloc; chunkOk is whether the record for a new chunk can be allocated.
    method Talloc(request: nat, chunkOk: bool, memory: Memory) returns (p: Memory)
      requires Valid() && request < SIZE
      modifies this, repr
      ensures Valid()
      ensures var r := Allocated(old(Chunks()), request, if chunkOk then memory else Nothing);
        && Chunks() == r.chunks
        && p == if r.block == [] then Nothing else Given(r.block[0].at)
    {
      var sum := (request + 31) % 0x1_0000_0000;
      var size := sum - sum % 32;
      assert list != null ==> Chunks()[0] == list.View();
      if list == null || (list.totalSize - list.allocSize) % 0x1_0000_0000 < size {
        var asum := (size + 0x1fff) % 0x1_0000_0000;
        var asize := asum - asum % 0x2000;
        if !chunkOk || memory.Nothing? { return Nothing; }
        AddChunk(memory.base, asize);
        assert size % 0x1_0000_0000 == size;
      }
      var at := TakeBlock(size);
      p := Given(at);
    }

    // talloc_destroy: the memory freed, every chunk's once, newest first.
    method Destroy() returns (freed: seq<nat>)
      requires Valid()
      modifies this
      ensures list == null && Valid() && Chunks() == []
      ensures freed == seq(|old(nodes)|, i requires 0 <= i < |old(nodes)| => old(nodes[i].base))
    {
      freed := [];
      ghost var all := nodes;
      while list != null
        invariant Valid() && |nodes| <= |all| && nodes == all[|all| - |nodes|..]
        invariant |freed| == |all| - |nodes| && forall i :: 0 <= i < |freed| ==> freed[i] == old(all[i].base)
        decreases |nodes|
      {
        var c := list.next;
        freed := freed + [list.base];
        list := c;
        nodes := nodes[1..];
        repr := set n | n in nodes;
      }
    }
  }
}
