/** The node behind the protocol: what each handler does to the node's memory, its uploaded files
    and its remote threads, and the block heap that clients see through it. */
module NodeModel {
  import opened Bytes
  import opened Wire
  import opened NodeHeap
  import opened Rpc
  import opened RpcProgress

  /** Remote code is a parameter. A remote thread has a local state of type `L`: `start` is the state
      in which `pthread_create` launches it, `step` is one atomic step on the node's memory, and
      `result` is its return value once it has returned. */
  datatype Code<!L> = Code(
    start: (Ptr, Ptr) -> L,
    step: (L, Heap, L, Heap) -> bool,
    result: L -> Option<Ptr>)

  datatype Node<L> = Node(heap: Heap, files: map<seq<Byte>, seq<Byte>>, threads: map<Ptr, L>)

  /** The handlers. Where C leaves the behaviour undefined (an address that is not a block, a region
      that is not live, an unknown thread) there is no transition. */
  ghost predicate Serve<L>(code: Code<L>, n: Node<L>, r: Request, n': Node<L>, p: Response) {
    match r
    case Malloc(size) =>
      && p.MallocR?
      && if size == 0 then p.addr == 0 && n' == n
         else Alloc(n.heap, p.addr, size, n'.heap) && n' == n.(heap := n'.heap)
    case Realloc(ptr, size) =>
      && p.ReallocR? && Valid(n.heap) && n' == n.(heap := n'.heap)
      && ServeRealloc(n.heap, ptr, size, p.addr, n'.heap)
    case Free(ptr) =>
      && p == FreeR(0) && (ptr == 0 || ptr in n.heap.blocks)
      && n' == n.(heap := Release(n.heap, ptr))
    case MemcpyC2N(dest, data) =>
      && p == MemcpyC2NR(0) && (data == [] || Live(n.heap, dest, |data|))
      && n' == n.(heap := Write(n.heap, dest, data))
    case MemcpyN2C(src, size) =>
      && p.MemcpyN2CR? && n' == n && RESP_HEAD + 4 + size <= INT_MAX
      && (size == 0 || Live(n.heap, src, size))
      && Mapped(n.heap, src, size) && p.data == Read(n.heap, src, size)
    case SoLoad(_) => p.SoLoadR? && n' == n
    case SoUnload(_) => p == SoUnloadR(0) && n' == n
    case SoUpload(name, file) =>
      p.SoUploadR? && p.raw < U32 && n' == n.(files := n.files[name := file])
    case FuncLoad(_, _) => p.FuncLoadR? && n' == n
    case Run(func, args) =>
      p.RunR? && p.tid !in n.threads && n' == n.(threads := n.threads[p.tid := code.start(func, args)])
    case Join(tid) =>
      && p.JoinR? && tid in n.threads && code.result(n.threads[tid]) == Some(p.ret)
      && n' == n.(threads := n.threads - {tid})
  }

  /** C's `realloc`. Size zero frees the block; a null pointer allocates. */
  ghost predicate ServeRealloc(h: Heap, ptr: Ptr, size: nat, addr: Ptr, h': Heap)
    requires Valid(h)
  {
    if ptr == 0 then
      if size == 0 then addr !in h.blocks && h' == h else Alloc(h, addr, size, h')
    else
      && ptr in h.blocks
      && if size == 0 then addr == 0 && h' == Release(h, ptr) else Resize(h, ptr, addr, size, h')
  }

  /** One step of one remote thread. */
  ghost predicate Work<L(!new)>(code: Code<L>, n: Node<L>, n': Node<L>) {
    exists tid, l :: WorkBy(code, n, tid, l, n')
  }

  ghost predicate WorkBy<L>(code: Code<L>, n: Node<L>, tid: Ptr, l: L, n': Node<L>) {
    && tid in n.threads && code.result(n.threads[tid]).None?
    && code.step(n.threads[tid], n.heap, l, n'.heap)
    && n' == n.(heap := n'.heap, threads := n.threads[tid := l])
  }

  ghost function NodeService<L(!new)>(code: Code<L>): Service<Node<L>> {
    Service((n, r, n', p) => Serve(code, n, r, n', p), (n, n') => Work(code, n, n'))
  }

  /** The handlers fit the protocol: each builds a response of the kind its request calls for. */
  lemma HandlersAnswer<L(!new)>(code: Code<L>)
    ensures Proper(NodeService(code))
  {
    hide Mapped, Live, Alloc, ServeRealloc, Valid, LE;
    forall n, r, n', p | NodeService(code).serve(n, r, n', p) ensures Answers(r, p) {
      assert Serve(code, n, r, n', p);
    }
  }

  /** `handle_malloc` rejects sizes `<= 0`, but the field is unsigned: the address is null exactly
      for size zero, and a negative `int` asks for a huge block instead. */
  lemma NullMalloc<L>(code: Code<L>, n: Node<L>, size: int, n': Node<L>, p: Response)
    requires -INT_MAX - 1 <= size <= INT_MAX && Serve(code, n, Malloc(ToU32(size)), n', p)
    ensures p.MallocR? && (p.addr == 0 <==> size == 0)
    ensures size < 0 ==> ToU32(size) > INT_MAX && p.addr in n'.heap.blocks
  {
  }

  // ----- The block heap that clients see

  ghost predicate BlockServe(v: Blocks, r: Request, v': Blocks, p: Response) {
    match r
    case Malloc(size) =>
      p.MallocR? && if size == 0 then p.addr == 0 && v' == v else NewBlock(v, p.addr, size, v')
    case Realloc(ptr, size) =>
      && p.ReallocR?
      && if ptr == 0 then (if size == 0 then v' == v else NewBlock(v, p.addr, size, v'))
         else
           && ptr in v
           && if size == 0 then p.addr == 0 && v' == v - {ptr}
              else NewBlock(v - {ptr}, p.addr, size, v') && CommonPrefix(v[ptr], v'[p.addr])
    case Free(ptr) =>
      p == FreeR(0) && (ptr == 0 || ptr in v) && v' == v - {ptr}
    case MemcpyC2N(dest, data) =>
      && p == MemcpyC2NR(0)
      && (if data == [] then v' == v
          else exists b :: InBlock(v, b, dest, |data|) && v' == v[b := Overlay(v[b], dest - b, data)])
    case MemcpyN2C(src, size) =>
      && p.MemcpyN2CR? && v' == v
      && (if size == 0 then p.data == []
          else exists b :: InBlock(v, b, src, size) && p.data == v[b][src - b..src - b + size])
    case _ => v' == v
  }

  /** A block that was not there before, at a non-null address and overlapping no other block; no
      other block changes. */
  ghost predicate NewBlock(v: Blocks, addr: Ptr, size: nat, v': Blocks) {
    && addr != 0 && addr !in v && addr in v'
    && |v'[addr]| == size
    && v' == v[addr := v'[addr]]
    && forall c :: c in v ==> addr + size <= c || c + |v[c]| <= addr
  }

  predicate CommonPrefix(s: seq<Byte>, t: seq<Byte>) {
    var keep := if |s| < |t| then |s| else |t|;
    s[..keep] == t[..keep]
  }

  predicate InBlock(v: Blocks, b: Ptr, addr: int, n: nat) {
    b in v && b <= addr && addr + n <= b + |v[b]|
  }

  /** Remote code keeps memory well-formed. */
  ghost predicate Tidy<L(!new)>(code: Code<L>) {
    forall l, h, l', h' :: code.step(l, h, l', h') && Valid(h) ==> Valid(h')
  }

  /** Each handler refines the block heap. */
  lemma ServeRefines<L>(code: Code<L>, n: Node<L>, r: Request, n': Node<L>, p: Response)
    requires Valid(n.heap) && Serve(code, n, r, n', p)
    ensures Valid(n'.heap) && BlockServe(View(n.heap), r, View(n'.heap), p)
  {
    hide Valid, Mapped, Alloc, Contents, Resize;
    var h, h' := n.heap, n'.heap;
    match r
    case Malloc(size) =>
      if size > 0 { AllocRefines(h, p.addr, size, h'); }
    case Realloc(ptr, size) =>
      ReallocRefines(h, ptr, size, p.addr, h');
    case Free(ptr) =>
      ReleaseView(h, ptr);
    case MemcpyC2N(dest, data) =>
      if data == [] {
        WriteNothing(h, dest);
      } else {
        var b :| Inside(h, b, dest, |data|);
        WriteView(h, b, dest, data);
        BlockOf(h, b);
        assert InBlock(View(h), b, dest, |data|);
      }
    case MemcpyN2C(src, size) =>
      if size > 0 {
        var b :| Inside(h, b, src, size);
        ReadView(h, b, src, size);
        BlockOf(h, b);
        assert InBlock(View(h), b, src, size);
      }
    case _ =>
  }

  lemma BlockOf(h: Heap, b: Ptr)
    requires Valid(h) && (b in h.blocks || b in View(h))
    ensures b in h.blocks && b in View(h) && View(h)[b] == Contents(h, b) && |View(h)[b]| == h.blocks[b]
  {
  }

  lemma WriteNothing(h: Heap, addr: int)
    ensures Write(h, addr, []) == h
  {
    assert Write(h, addr, []).mem == h.mem;
  }

  lemma AllocRefines(h: Heap, b: Ptr, size: nat, h': Heap)
    requires Valid(h) && Alloc(h, b, size, h')
    ensures Valid(h') && NewBlock(View(h), b, size, View(h'))
  {
    AllocView(h, b, size, h');
    hide Valid, Mapped;
    forall c | c in View(h) ensures b + size <= c || c + |View(h)[c]| <= b {
      BlockOf(h, c);
    }
    BlockOf(h', b);
  }

  lemma ReallocRefines(h: Heap, ptr: Ptr, size: nat, addr: Ptr, h': Heap)
    requires Valid(h) && ServeRealloc(h, ptr, size, addr, h')
    ensures Valid(h') && BlockServe(View(h), Realloc(ptr, size), View(h'), ReallocR(addr))
  {
    if ptr == 0 {
      if size > 0 {
        AllocRefines(h, addr, size, h');
      }
    } else if size == 0 {
      ReleaseView(h, ptr);
    } else {
      MoveRefines(h, ptr, size, addr, h');
    }
  }

  lemma MoveRefines(h: Heap, ptr: Ptr, size: nat, addr: Ptr, h': Heap)
    requires Valid(h) && Resize(h, ptr, addr, size, h')
    ensures Valid(h') && ptr in View(h) && addr != 0
    ensures NewBlock(View(h) - {ptr}, addr, size, View(h')) && CommonPrefix(View(h)[ptr], View(h')[addr])
  {
    ReleaseView(h, ptr);
    AllocRefines(Release(h, ptr), addr, size, h');
    ResizeView(h, ptr, addr, size, h');
    hide Valid, Mapped, Alloc, Resize;
    BlockOf(h, ptr);
    BlockOf(h', addr);
  }

  // ----- Remote threads terminate

  /** Remote functions do not run forever: `rank` bounds the steps a thread has left. */
  ghost predicate Terminating<L(!new)>(code: Code<L>, rank: L -> nat) {
    forall l, h, l', h' :: code.step(l, h, l', h') ==> rank(l') < rank(l)
  }

  ghost predicate CanMove<L(!new)>(code: Code<L>, l: L, h: Heap) {
    exists l', h' :: code.step(l, h, l', h')
  }

  ghost function Sum<L>(tids: set<Ptr>, threads: map<Ptr, L>, rank: L -> nat): nat
    requires tids <= threads.Keys
  {
    if tids == {} then 0
    else
      var t :| t in tids;
      rank(threads[t]) + Sum(tids - {t}, threads, rank)
  }

  lemma {:induction false} SumSplit<L>(tids: set<Ptr>, threads: map<Ptr, L>, rank: L -> nat, t: Ptr)
    requires tids <= threads.Keys && t in tids
    ensures Sum(tids, threads, rank) == rank(threads[t]) + Sum(tids - {t}, threads, rank)
  {
    var u :| u in tids && Sum(tids, threads, rank) == rank(threads[u]) + Sum(tids - {u}, threads, rank);
    if u != t {
      SumSplit(tids - {u}, threads, rank, t);
      SumSplit(tids - {t}, threads, rank, u);
      assert tids - {u} - {t} == tids - {t} - {u};
    }
  }

  lemma {:induction false} SumAgrees<L>(tids: set<Ptr>, a: map<Ptr, L>, b: map<Ptr, L>, rank: L -> nat)
    requires tids <= a.Keys && tids <= b.Keys && forall t :: t in tids ==> a[t] == b[t]
    ensures Sum(tids, a, rank) == Sum(tids, b, rank)
  {
    if tids != {} {
      var t :| t in tids;
      SumSplit(tids, a, rank, t);
      SumSplit(tids, b, rank, t);
      SumAgrees(tids - {t}, a, b, rank);
    }
  }

  ghost function NodeRank<L>(rank: L -> nat): Node<L> -> nat {
    (n: Node<L>) => Sum(n.threads.Keys, n.threads, rank)
  }

  /** Terminating remote functions make the whole node's background work finite. */
  lemma WorkIsFinite<L(!new)>(code: Code<L>, rank: L -> nat)
    requires Terminating(code, rank)
    ensures Ranked(NodeService(code), NodeRank(rank))
  {
    forall n, n' | NodeService(code).background(n, n') ensures NodeRank(rank)(n') < NodeRank(rank)(n) {
      var tid, l :| WorkBy(code, n, tid, l, n');
      assert n'.threads.Keys == n.threads.Keys;
      SumSplit(n.threads.Keys, n.threads, rank, tid);
      SumSplit(n'.threads.Keys, n'.threads, rank, tid);
      SumAgrees(n.threads.Keys - {tid}, n.threads, n'.threads, rank);
    }
  }

  /** The request respects what C and the node demand: memory is available, addresses are live,
      and the joined thread exists and is not stuck. */
  ghost predicate Sane<L(!new)>(code: Code<L>, n: Node<L>, r: Request) {
    match r
    case Malloc(size) => size == 0 || exists b :: Room(n.heap, b, size)
    case Realloc(ptr, size) =>
      && (ptr == 0 || ptr in n.heap.blocks)
      && (size == 0 || exists b :: Room(Release(n.heap, ptr), b, size))
      && (ptr == 0 && size == 0 ==> exists b: Ptr :: b !in n.heap.blocks)
    case Free(ptr) => ptr == 0 || ptr in n.heap.blocks
    case MemcpyC2N(dest, data) => data == [] || Live(n.heap, dest, |data|)
    case MemcpyN2C(src, size) =>
      RESP_HEAD + 4 + size <= INT_MAX && (size == 0 || Live(n.heap, src, size))
    case Run(_, _) => exists tid: Ptr :: tid !in n.threads
    case Join(tid) =>
      && tid in n.threads
      && (code.result(n.threads[tid]).Some? || CanMove(code, n.threads[tid], n.heap))
    case _ => true
  }

  /** Memory with a fresh block whose contents start with `init`. */
  function Fresh(h: Heap, b: Ptr, size: nat, init: seq<Byte>): Heap {
    Heap(h.blocks[b := size],
         h.mem + (map i | b <= i < b + size :: if i < b + |init| then ByteAt(init, b, i) else 0))
  }

  lemma FreshAllocates(h: Heap, b: Ptr, size: nat, init: seq<Byte>)
    requires 0 < size && Room(h, b, size)
    ensures Alloc(h, b, size, Fresh(h, b, size, init))
    ensures |init| <= size ==>
              Mapped(Fresh(h, b, size, init), b, |init|) && Read(Fresh(h, b, size, init), b, |init|) == init
  {
    var h' := Fresh(h, b, size, init);
    assert Mapped(h', b, size);
    if |init| <= size {
      forall i | 0 <= i < |init| ensures h'.mem[b + i] == init[i] {
        assert h'.mem[b + i] == ByteAt(init, b, b + i);
      }
      assert Read(h', b, |init|) == init;
    }
  }

  lemma ReallocServed(h: Heap, ptr: Ptr, size: nat) returns (addr: Ptr, h': Heap)
    requires Valid(h) && (ptr == 0 || ptr in h.blocks)
    requires size == 0 || exists b :: Room(Release(h, ptr), b, size)
    requires ptr == 0 && size == 0 ==> exists b: Ptr :: b !in h.blocks
    ensures ServeRealloc(h, ptr, size, addr, h')
  {
    if ptr == 0 && size == 0 {
      addr :| addr !in h.blocks;
      h' := h;
    } else if size == 0 {
      addr, h' := 0, Release(h, ptr);
    } else {
      addr :| Room(Release(h, ptr), addr, size);
      if ptr == 0 {
        assert 0 !in h.blocks;
        assert Release(h, 0) == h;
        FreshAllocates(h, addr, size, []);
        h' := Fresh(h, addr, size, []);
      } else {
        var keep := if size < h.blocks[ptr] then size else h.blocks[ptr];
        assert Mapped(h, ptr, h.blocks[ptr]);
        var init := Read(h, ptr, keep);
        FreshAllocates(Release(h, ptr), addr, size, init);
        h' := Fresh(Release(h, ptr), addr, size, init);
      }
    }
  }

  lemma MemoryIsLive<L(!new)>(code: Code<L>, n: Node<L>, r: Request)
    requires r.Malloc? || r.Realloc? || r.Free? || r.MemcpyC2N? || r.MemcpyN2C?
    requires Valid(n.heap) && Sane(code, n, r)
    ensures CanServe(NodeService(code), n, r)
  {
    hide Alloc, Resize, Fresh, Room;
    var svc := NodeService(code);
    match r
    case Malloc(size) =>
      if size == 0 {
        assert svc.serve(n, r, n, MallocR(0));
      } else {
        var b :| Room(n.heap, b, size);
        FreshAllocates(n.heap, b, size, []);
        assert svc.serve(n, r, n.(heap := Fresh(n.heap, b, size, [])), MallocR(b));
      }
    case Realloc(ptr, size) =>
      var addr, h' := ReallocServed(n.heap, ptr, size);
      assert svc.serve(n, r, n.(heap := h'), ReallocR(addr));
    case Free(ptr) =>
      assert svc.serve(n, r, n.(heap := Release(n.heap, ptr)), FreeR(0));
    case MemcpyC2N(dest, data) =>
      assert svc.serve(n, r, n.(heap := Write(n.heap, dest, data)), MemcpyC2NR(0));
    case MemcpyN2C(src, size) =>
      if size > 0 {
        var b :| Inside(n.heap, b, src, size);
        assert Mapped(n.heap, b, n.heap.blocks[b]);
      }
      assert Mapped(n.heap, src, size);
      assert svc.serve(n, r, n, MemcpyN2CR(Read(n.heap, src, size)));
  }

  /** The node never gets stuck on a sane request: it answers, or (for a join) the awaited thread
      can still step. */
  lemma SaneIsLive<L(!new)>(code: Code<L>, n: Node<L>, r: Request)
    requires Valid(n.heap) && Sane(code, n, r)
    ensures CanServe(NodeService(code), n, r) || CanWork(NodeService(code), n)
  {
    hide Valid;
    var svc := NodeService(code);
    match r
    case SoLoad(_) => assert svc.serve(n, r, n, SoLoadR(0));
    case SoUnload(_) => assert svc.serve(n, r, n, SoUnloadR(0));
    case SoUpload(name, file) =>
      assert svc.serve(n, r, n.(files := n.files[name := file]), SoUploadR(0));
    case FuncLoad(_, _) => assert svc.serve(n, r, n, FuncLoadR(0));
    case Run(func, args) =>
      var tid: Ptr :| tid !in n.threads;
      assert svc.serve(n, r, n.(threads := n.threads[tid := code.start(func, args)]), RunR(tid));
    case Join(tid) =>
      if code.result(n.threads[tid]).Some? {
        assert svc.serve(n, r, n.(threads := n.threads - {tid}), JoinR(code.result(n.threads[tid]).value));
      } else {
        var l, h' :| code.step(n.threads[tid], n.heap, l, h');
        var n' := n.(heap := h', threads := n.threads[tid := l]);
        assert WorkBy(code, n, tid, l, n');
        assert svc.background(n, n');
      }
    case _ => MemoryIsLive(code, n, r);
  }
}
