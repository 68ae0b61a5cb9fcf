/** The node's memory: one flat address space with an allocator, and the simple picture a client
    has of it, a finite map from block addresses to block contents. */
module NodeHeap {
  import opened Bytes
  import opened Wire

  /** `blocks` maps the address of each allocated block to its size. */
  datatype Heap = Heap(blocks: map<Ptr, nat>, mem: map<int, Byte>)

  /** Blocks have contents, are not at address zero, and do not overlap. */
  ghost predicate Valid(h: Heap) {
    && (forall b :: b in h.blocks ==> 0 < b && 0 < h.blocks[b] && b + h.blocks[b] <= U64)
    && (forall b, c :: b in h.blocks && c in h.blocks && b != c ==>
          b + h.blocks[b] <= c || c + h.blocks[c] <= b)
    && (forall b :: b in h.blocks ==> Mapped(h, b, h.blocks[b]))
  }

  ghost predicate Mapped(h: Heap, addr: int, n: nat) {
    forall i :: addr <= i < addr + n ==> i in h.mem
  }

  /** The `n` bytes at `addr` lie inside block `b`. */
  predicate Inside(h: Heap, b: Ptr, addr: int, n: nat) {
    b in h.blocks && b <= addr && addr + n <= b + h.blocks[b]
  }

  ghost predicate Live(h: Heap, addr: int, n: nat) {
    exists b :: Inside(h, b, addr, n)
  }

  ghost function Read(h: Heap, addr: int, n: nat): (s: seq<Byte>)
    requires Mapped(h, addr, n)
    ensures |s| == n && forall i :: 0 <= i < n ==> s[i] == h.mem[addr + i]
  {
    seq(n, i requires 0 <= i < n => h.mem[addr + i])
  }

  function ByteAt(data: seq<Byte>, addr: int, i: int): Byte
    requires addr <= i < addr + |data|
  {
    data[i - addr]
  }

  function Write(h: Heap, addr: int, data: seq<Byte>): Heap {
    h.(mem := h.mem + map i | addr <= i < addr + |data| :: ByteAt(data, addr, i))
  }

  /** `malloc`: a fresh block with arbitrary contents; nothing else changes. */
  ghost predicate Room(h: Heap, b: Ptr, size: nat) {
    && 0 < b && b + size <= U64
    && forall c :: c in h.blocks ==> b + size <= c || c + h.blocks[c] <= b
  }

  ghost predicate Alloc(h: Heap, b: Ptr, size: nat, h': Heap) {
    && 0 < size && Room(h, b, size)
    && h'.blocks == h.blocks[b := size]
    && Mapped(h', b, size)
    && forall i :: i in h.mem && !(b <= i < b + size) ==> i in h'.mem && h'.mem[i] == h.mem[i]
  }

  function Release(h: Heap, b: Ptr): Heap {
    h.(blocks := h.blocks - {b})
  }

  /** `realloc` of a block to a positive size: it may move, and keeps the common prefix. */
  ghost predicate Resize(h: Heap, b: Ptr, b': Ptr, size: nat, h': Heap)
    requires Valid(h)
  {
    && b in h.blocks
    && Alloc(Release(h, b), b', size, h')
    && var keep := if size < h.blocks[b] then size else h.blocks[b];
       && Mapped(h, b, keep) && Mapped(h', b', keep)
       && Read(h', b', keep) == Read(h, b, keep)
  }

  // ----- The client's picture

  type Blocks = map<Ptr, seq<Byte>>

  ghost function Contents(h: Heap, b: Ptr): seq<Byte>
    requires Valid(h) && b in h.blocks
  {
    Read(h, b, h.blocks[b])
  }

  ghost function View(h: Heap): Blocks
    requires Valid(h)
  {
    map b | b in h.blocks :: Contents(h, b)
  }

  function Overlay(s: seq<Byte>, at: int, data: seq<Byte>): seq<Byte>
    requires 0 <= at && at + |data| <= |s|
  {
    s[..at] + data + s[at + |data|..]
  }

  /** Memory that agrees on a block gives the block the same contents. */
  lemma SameContents(h: Heap, h': Heap, b: Ptr)
    requires Valid(h) && Valid(h') && b in h.blocks && b in h'.blocks && h.blocks[b] == h'.blocks[b]
    requires forall i :: b <= i < b + h.blocks[b] ==> i in h.mem && i in h'.mem && h.mem[i] == h'.mem[i]
    ensures Contents(h, b) == Contents(h', b)
  {
    forall i | 0 <= i < h.blocks[b] ensures Contents(h, b)[i] == Contents(h', b)[i] {
      assert h.mem[b + i] == h'.mem[b + i];
    }
  }

  /** Two memories that differ in the contents of one block. */
  lemma ViewUpdate(h: Heap, h': Heap, b: Ptr, s: seq<Byte>)
    requires Valid(h) && Valid(h') && h'.blocks.Keys == h.blocks.Keys + {b} && Contents(h', b) == s
    requires forall c :: c in h.blocks && c != b ==> Contents(h', c) == Contents(h, c)
    ensures View(h') == View(h)[b := s]
  {
    hide Valid, Contents;
    assert View(h').Keys == View(h)[b := s].Keys;
  }

  lemma AllocView(h: Heap, b: Ptr, size: nat, h': Heap)
    requires Valid(h) && Alloc(h, b, size, h')
    ensures Valid(h') && b !in h.blocks && b in h'.blocks && |Contents(h', b)| == size
    ensures View(h') == View(h)[b := Contents(h', b)]
  {
    AllocValid(h, b, size, h');
    forall c | c in h.blocks ensures c in h'.blocks && Contents(h', c) == Contents(h, c) {
      AllocMisses(h, b, size, h', c);
    }
    hide Valid, Mapped;
    ViewUpdate(h, h', b, Contents(h', b));
  }

  lemma AllocMisses(h: Heap, b: Ptr, size: nat, h': Heap, c: Ptr)
    requires Valid(h) && Valid(h') && Alloc(h, b, size, h') && c in h.blocks
    ensures c in h'.blocks && Contents(h', c) == Contents(h, c)
  {
    assert Mapped(h, c, h.blocks[c]);
    SameContents(h, h', c);
  }

  lemma AllocValid(h: Heap, b: Ptr, size: nat, h': Heap)
    requires Valid(h) && Alloc(h, b, size, h')
    ensures Valid(h') && b !in h.blocks
  {
    if b in h.blocks {
      assert false;
    }
    forall c | c in h'.blocks ensures Mapped(h', c, h'.blocks[c]) {
      if c != b {
        assert Mapped(h, c, h.blocks[c]);
        assert c in h.blocks;
      }
    }
  }

  lemma WriteValid(h: Heap, addr: int, data: seq<Byte>)
    requires Valid(h)
    ensures Valid(Write(h, addr, data))
  {
    var h' := Write(h, addr, data);
    forall c | c in h'.blocks ensures Mapped(h', c, h'.blocks[c]) {
      assert Mapped(h, c, h.blocks[c]);
    }
  }

  /** A block that the written region misses keeps its contents. */
  lemma WriteMisses(h: Heap, c: Ptr, addr: int, data: seq<Byte>)
    requires Valid(h) && Valid(Write(h, addr, data)) && c in h.blocks
    requires c + h.blocks[c] <= addr || addr + |data| <= c
    ensures Contents(Write(h, addr, data), c) == Contents(h, c)
  {
    var h' := Write(h, addr, data);
    assert Mapped(h, c, h.blocks[c]);
    forall i | 0 <= i < h.blocks[c] ensures Contents(h', c)[i] == Contents(h, c)[i] {
      assert c + i in h.mem;
    }
  }

  lemma WriteHits(h: Heap, b: Ptr, addr: int, data: seq<Byte>)
    requires Valid(h) && Valid(Write(h, addr, data)) && Inside(h, b, addr, |data|)
    ensures Contents(Write(h, addr, data), b) == Overlay(Contents(h, b), addr - b, data)
  {
    var over := Overlay(Contents(h, b), addr - b, data);
    assert Mapped(h, b, h.blocks[b]);
    hide Valid, Mapped, Overlay;
    forall i | 0 <= i < h.blocks[b] ensures Contents(Write(h, addr, data), b)[i] == over[i] {
      OverlayAt(Contents(h, b), addr - b, data, i);
      WriteAt(h, addr, data, b + i);
    }
  }

  lemma OverlayAt(s: seq<Byte>, at: int, data: seq<Byte>, i: nat)
    requires 0 <= at && at + |data| <= |s| && i < |s|
    ensures |Overlay(s, at, data)| == |s|
    ensures Overlay(s, at, data)[i] == if at <= i < at + |data| then data[i - at] else s[i]
  {
  }

  lemma WriteAt(h: Heap, addr: int, data: seq<Byte>, i: int)
    requires i in h.mem
    ensures i in Write(h, addr, data).mem
    ensures Write(h, addr, data).mem[i] == if addr <= i < addr + |data| then data[i - addr] else h.mem[i]
  {
    if addr <= i < addr + |data| {
      assert Write(h, addr, data).mem[i] == ByteAt(data, addr, i);
    }
  }

  lemma WriteView(h: Heap, b: Ptr, addr: int, data: seq<Byte>)
    requires Valid(h) && data != [] && Inside(h, b, addr, |data|)
    ensures Valid(Write(h, addr, data))
    ensures View(Write(h, addr, data)) == View(h)[b := Overlay(Contents(h, b), addr - b, data)]
  {
    hide Mapped;
    WriteValid(h, addr, data);
    WriteHits(h, b, addr, data);
    forall c | c in h.blocks && c != b ensures Contents(Write(h, addr, data), c) == Contents(h, c) {
      WriteMisses(h, c, addr, data);
    }
    hide Contents, Valid, Overlay;
    assert Write(h, addr, data).blocks.Keys == h.blocks.Keys + {b};
    ViewUpdate(h, Write(h, addr, data), b, Overlay(Contents(h, b), addr - b, data));
  }

  lemma ReleaseValid(h: Heap, b: Ptr)
    requires Valid(h)
    ensures Valid(Release(h, b))
  {
    var h' := Release(h, b);
    forall c | c in h'.blocks ensures Mapped(h', c, h'.blocks[c]) {
      assert Mapped(h, c, h.blocks[c]);
    }
  }

  lemma ReleaseView(h: Heap, b: Ptr)
    requires Valid(h)
    ensures Valid(Release(h, b)) && View(Release(h, b)) == View(h) - {b}
  {
    var h' := Release(h, b);
    ReleaseValid(h, b);
    hide Valid, Mapped;
    forall c | c in h'.blocks ensures Contents(h', c) == Contents(h, c) {
    }
    hide Contents;
    assert View(h').Keys == (View(h) - {b}).Keys;
  }

  lemma ReadView(h: Heap, b: Ptr, addr: int, n: nat)
    requires Valid(h) && Inside(h, b, addr, n)
    ensures Mapped(h, addr, n)
    ensures Read(h, addr, n) == View(h)[b][addr - b..addr - b + n]
  {
    assert Mapped(h, b, h.blocks[b]);
  }

  lemma ResizeView(h: Heap, b: Ptr, b': Ptr, size: nat, h': Heap)
    requires Valid(h) && Resize(h, b, b', size, h')
    ensures Valid(h') && b' in h'.blocks && |Contents(h', b')| == size
    ensures View(h') == (View(h) - {b})[b' := Contents(h', b')]
    ensures var keep := if size < h.blocks[b] then size else h.blocks[b];
            Contents(h', b')[..keep] == Contents(h, b)[..keep]
  {
    ReleaseView(h, b);
    AllocView(Release(h, b), b', size, h');
  }
}
