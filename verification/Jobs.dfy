/** One node during the distributed count: remote searches on blocks of their own next to blocks that
    the client holds, and what each of the client's calls does to them. */
module Jobs {
  import opened Bytes
  import opened Wire
  import opened NodeHeap
  import opened NodeModel
  import opened Search
  import opened Primes

  /** The block a search thread depends on. */
  function Base(l: Remote): Option<Ptr> {
    match l
    case Loading(p) => Some(p)
    case Loaded(_, _) => None
    case Scanning(_, _, p, _) => Some(p)
    case Returned(p) => Some(p)
    case Other(_) => None
  }

  /** Threads depend on live blocks, and no two on the same one. */
  ghost predicate Apart(v: Blocks, threads: map<Ptr, Remote>) {
    && (forall t :: t in threads && Base(threads[t]).Some? ==> Base(threads[t]).value in v)
    && (forall t, u :: t in threads && u in threads && t != u && Base(threads[t]).Some? ==>
          Base(threads[t]) != Base(threads[u]))
  }

  /** The client's blocks hold what it put there, and no thread depends on them. */
  ghost predicate Kept(v: Blocks, threads: map<Ptr, Remote>, held: Blocks) {
    && (forall a :: a in held ==> a in v && v[a] == held[a])
    && (forall a, t :: a in held && t in threads ==> Base(threads[t]) != Some(a))
  }

  /** Each job's thread is at some stage of computing the result of that job. */
  ghost predicate Working(v: Blocks, threads: map<Ptr, Remote>, jobs: map<Ptr, Job>) {
    forall t :: t in jobs ==> t in threads && JobAt(v, threads[t], jobs[t]) && Bounded(jobs[t])
  }

  /** No thread, whether a job or not, is in a loop that never ends. */
  ghost predicate Ending(v: Blocks, threads: map<Ptr, Remote>) {
    forall t :: t in threads ==> Ends(v, threads[t])
  }

  /** The invariant. Threads that are no job of the client's may also be running. */
  ghost predicate Inv(n: Node<Remote>, jobs: map<Ptr, Job>, held: Blocks) {
    Valid(n.heap) && Holding(View(n.heap), n.threads, jobs, held)
  }

  ghost predicate Holding(v: Blocks, threads: map<Ptr, Remote>, jobs: map<Ptr, Job>, held: Blocks) {
    Apart(v, threads) && Kept(v, threads, held) && Working(v, threads, jobs) && Ending(v, threads)
  }

  /** Nobody depends on block `b`. */
  ghost predicate Unused(threads: map<Ptr, Remote>, held: Blocks, b: Ptr) {
    b !in held && forall t :: t in threads ==> Base(threads[t]) != Some(b)
  }

  /** A job depends on the contents of its own block only. */
  lemma SameJob(v: Blocks, v': Blocks, l: Remote, j: Job)
    requires JobAt(v, l, j)
    requires Base(l).Some? && Base(l).value in v ==> Base(l).value in v' && v'[Base(l).value] == v[Base(l).value]
    ensures JobAt(v', l, j)
  {
    hide Cells, Found, PrimesIn, Args;
  }

  /** So do the threads together. */
  lemma SameEnds(v: Blocks, v': Blocks, threads: map<Ptr, Remote>)
    requires Ending(v, threads)
    requires forall t :: t in threads && Base(threads[t]).Some? && Base(threads[t]).value in v ==>
               Base(threads[t]).value in v' && v'[Base(threads[t]).value] == v[Base(threads[t]).value]
    ensures Ending(v', threads)
  {
    hide UnLE;
    forall t | t in threads ensures Ends(v', threads[t]) {
      assert Ends(v, threads[t]);
    }
  }

  /** A block that nobody depends on may appear. */
  lemma BlockAppears(v: Blocks, b: Ptr, data: seq<Byte>, threads: map<Ptr, Remote>, jobs: map<Ptr, Job>, held: Blocks)
    requires Holding(v, threads, jobs, held) && b !in v
    ensures Holding(v[b := data], threads, jobs, held) && Unused(threads, held, b)
  {
    hide JobAt, Bounded, Ends;
    SameEnds(v, v[b := data], threads);
    forall t | t in jobs ensures JobAt(v[b := data], threads[t], jobs[t]) {
      SameJob(v, v[b := data], threads[t], jobs[t]);
    }
  }

  /** A thread moves on to no block, or to one that nobody depends on. */
  lemma ThreadMoves(v: Blocks, threads: map<Ptr, Remote>, jobs: map<Ptr, Job>, held: Blocks, tid: Ptr, l: Remote)
    requires Holding(v, threads, jobs, held) && tid in threads
    requires (tid in jobs ==> JobAt(v, l, jobs[tid])) && Ends(v, l)
    requires Base(l).Some? ==> Base(l).value in v && Unused(threads - {tid}, held, Base(l).value)
    ensures Holding(v, threads[tid := l], jobs, held)
  {
    hide JobAt, Bounded, Ends;
    forall t | t in threads && t != tid && Base(l).Some? ensures Base(threads[t]) != Base(l) {
      assert t in threads - {tid};
    }
  }

  /** A thread replaces its block. */
  lemma BlockMoves(v: Blocks, base: Ptr, v': Blocks, base': Ptr, threads: map<Ptr, Remote>, jobs: map<Ptr, Job>,
                   held: Blocks, tid: Ptr, l: Remote)
    requires Holding(v, threads, jobs, held) && Moved(v, base, v', base')
    requires tid in threads && Base(threads[tid]) == Some(base) && Base(l) == Some(base')
    requires (tid in jobs ==> JobAt(v', l, jobs[tid])) && Ends(v', l)
    ensures Holding(v', threads[tid := l], jobs, held)
  {
    hide JobAt, Bounded, Ends;
    SameEnds(v, v', threads - {tid});
    forall t | t in threads && t != tid ensures Ends(v', threads[t]) {
      assert t in threads - {tid};
    }
    forall t | t in jobs && t != tid ensures JobAt(v', threads[t], jobs[t]) {
      SameJob(v, v', threads[t], jobs[t]);
    }
  }

  lemma JobOf(v: Blocks, threads: map<Ptr, Remote>, jobs: map<Ptr, Job>, held: Blocks, t: Ptr)
    requires Holding(v, threads, jobs, held) && t in jobs
    ensures t in threads && JobAt(v, threads[t], jobs[t]) && Bounded(jobs[t])
  {
  }

  lemma ThreadEnds(v: Blocks, threads: map<Ptr, Remote>, jobs: map<Ptr, Job>, held: Blocks, t: Ptr)
    requires Holding(v, threads, jobs, held) && t in threads
    ensures Ends(v, threads[t])
  {
  }

  /** Remote threads, in any interleaving, keep the invariant. */
  lemma WorkKeeps(find: Ptr, n: Node<Remote>, n': Node<Remote>, jobs: map<Ptr, Job>, held: Blocks)
    requires Inv(n, jobs, held) && Work(SearchCode(find), n, n')
    ensures Inv(n', jobs, held)
  {
    hide Valid, View, SearchStep, Holding, JobAt, Bounded, Ends;
    var tid, l' :| WorkBy(SearchCode(find), n, tid, l', n');
    var l := n.threads[tid];
    assert SearchStep(l, n.heap, l', n'.heap);
    ThreadEnds(View(n.heap), n.threads, jobs, held, tid);
    StepEnds(l, n.heap, l', n'.heap);
    if tid in jobs {
      JobOf(View(n.heap), n.threads, jobs, held, tid);
    }
    match l
    case Loading(_) => LoadKeeps(n, n', tid, l', jobs, held);
    case Loaded(_, _) => AllocateKeeps(n, n', tid, l', jobs, held);
    case Scanning(_, _, _, _) => ScanWorkKeeps(n, n', tid, l', jobs, held);
    case _ => assert false by { NoStep(l, n.heap, l', n'.heap); }
  }

  lemma NoStep(l: Remote, h: Heap, l': Remote, h': Heap)
    requires SearchStep(l, h, l', h')
    ensures !l.Returned? && !l.Other?
  {
  }

  lemma LoadKeeps(n: Node<Remote>, n': Node<Remote>, tid: Ptr, l': Remote, jobs: map<Ptr, Job>, held: Blocks)
    requires Inv(n, jobs, held) && tid in n.threads && n.threads[tid].Loading?
    requires SearchStep(n.threads[tid], n.heap, l', n'.heap) && n'.threads == n.threads[tid := l']
    requires tid in jobs ==> JobAt(View(n.heap), n.threads[tid], jobs[tid]) && Bounded(jobs[tid])
    requires Valid(n'.heap) && Ends(View(n'.heap), l')
    ensures Inv(n', jobs, held)
  {
    hide Valid, View, Holding, Growing, UnLE, Mapped, Args, Ends;
    if tid in jobs {
      LoadedArgs(n.heap, n.threads[tid].args, jobs[tid]);
    }
    ThreadMoves(View(n.heap), n.threads, jobs, held, tid, l');
  }

  lemma AllocateKeeps(n: Node<Remote>, n': Node<Remote>, tid: Ptr, l': Remote, jobs: map<Ptr, Job>, held: Blocks)
    requires Inv(n, jobs, held) && tid in n.threads && n.threads[tid].Loaded?
    requires SearchStep(n.threads[tid], n.heap, l', n'.heap) && n'.threads == n.threads[tid := l']
    requires tid in jobs ==> JobAt(View(n.heap), n.threads[tid], jobs[tid]) && Bounded(jobs[tid])
    requires Valid(n'.heap) && Ends(View(n'.heap), l')
    ensures Inv(n', jobs, held)
  {
    hide Valid, View, Holding, Alloc, Write, LE, Growing, Bounded, Ends;
    var g :| Alloc(n.heap, l'.base, 8 * (CAPACITY + 1), g) && n'.heap == Write(g, l'.base, LE(0, 8));
    LoadedAllocates(n.heap, l'.base, g, n'.heap);
    var v, v' := View(n.heap), View(n'.heap);
    BlockAppears(v, l'.base, v'[l'.base], n.threads, jobs, held);
    if tid in jobs {
      StartsScanning(v', l'.base, jobs[tid]);
    }
    ThreadMoves(v', n.threads, jobs, held, tid, l');
  }

  lemma ScanWorkKeeps(n: Node<Remote>, n': Node<Remote>, tid: Ptr, l': Remote, jobs: map<Ptr, Job>, held: Blocks)
    requires Inv(n, jobs, held) && tid in n.threads && n.threads[tid].Scanning?
    requires SearchStep(n.threads[tid], n.heap, l', n'.heap) && n'.threads == n.threads[tid := l']
    requires tid in jobs ==> JobAt(View(n.heap), n.threads[tid], jobs[tid]) && Bounded(jobs[tid])
    requires Valid(n'.heap) && Ends(View(n'.heap), l')
    ensures Inv(n', jobs, held)
  {
    hide Valid, View, JobAt, Bounded, Prime, Records, Finishes, Moved, Ends, Holding;
    var l := n.threads[tid];
    if tid in jobs {
      ScanKeeps(n.heap, l, n'.heap, l', jobs[tid]);
    }
    if l.i > l.end {
      FinishMoves(n.heap, l.base, l'.ret, n'.heap);
      BlockMoves(View(n.heap), l.base, View(n'.heap), l'.ret, n.threads, jobs, held, tid, l');
    } else if Prime(AsInt(l.i)) {
      RecordMoves(n.heap, l.base, l.cap, l.i, l'.base, l'.cap, n'.heap);
      BlockMoves(View(n.heap), l.base, View(n'.heap), l'.base, n.threads, jobs, held, tid, l');
    } else {
      OwnBlock(View(n.heap), n.threads, jobs, held, tid);
      ThreadMoves(View(n.heap), n.threads, jobs, held, tid, l');
    }
  }

  lemma OwnBlock(v: Blocks, threads: map<Ptr, Remote>, jobs: map<Ptr, Job>, held: Blocks, tid: Ptr)
    requires Holding(v, threads, jobs, held) && tid in threads && Base(threads[tid]).Some?
    ensures Base(threads[tid]).value in v && Unused(threads - {tid}, held, Base(threads[tid]).value)
  {
  }

  // ----- The client's calls, one by one

  lemma MallocKeeps(find: Ptr, n: Node<Remote>, size: nat, n': Node<Remote>, p: Response, jobs: map<Ptr, Job>, held: Blocks)
    requires Inv(n, jobs, held) && size > 0 && Serve(SearchCode(find), n, Malloc(size), n', p)
    ensures p.MallocR? && Valid(n'.heap) && p.addr in View(n'.heap) && |View(n'.heap)[p.addr]| == size
    ensures Inv(n', jobs, held[p.addr := View(n'.heap)[p.addr]])
  {
    hide Valid, View, Mapped, Holding, Alloc;
    AllocRefines(n.heap, p.addr, size, n'.heap);
    var data := View(n'.heap)[p.addr];
    BlockAppears(View(n.heap), p.addr, data, n.threads, jobs, held);
    ClientHolds(View(n'.heap), n.threads, jobs, held, p.addr, data);
  }

  lemma ClientHolds(v: Blocks, threads: map<Ptr, Remote>, jobs: map<Ptr, Job>, held: Blocks, a: Ptr, data: seq<Byte>)
    requires Holding(v, threads, jobs, held) && a in v && v[a] == data && Unused(threads, held, a)
    ensures Holding(v, threads, jobs, held[a := data])
  {
    hide JobAt, Bounded, Ends;
  }

  lemma WriteKeeps(find: Ptr, n: Node<Remote>, a: Ptr, data: seq<Byte>, n': Node<Remote>, p: Response,
                   jobs: map<Ptr, Job>, held: Blocks)
    requires Inv(n, jobs, held) && a in held && |data| == |held[a]| && data != []
    requires Serve(SearchCode(find), n, MemcpyC2N(a, data), n', p)
    ensures Inv(n', jobs, held[a := data])
  {
    hide Valid, View, Mapped, Contents, Write, Holding;
    HeldBlock(n, jobs, held, a);
    WriteView(n.heap, a, a, data);
    assert Overlay(Contents(n.heap, a), 0, data) == data;
    ClientWrites(View(n.heap), n.threads, jobs, held, a, data);
  }

  /** A block that the client holds is a block. */
  lemma HeldBlock(n: Node<Remote>, jobs: map<Ptr, Job>, held: Blocks, a: Ptr)
    requires Inv(n, jobs, held) && a in held
    ensures Valid(n.heap) && a in n.heap.blocks && n.heap.blocks[a] == |held[a]|
    ensures a in View(n.heap) && View(n.heap)[a] == held[a] == Contents(n.heap, a)
    ensures a > 0 && a + |held[a]| <= U64
  {
    hide Working, Apart;
    assert a in View(n.heap) && View(n.heap)[a] == held[a];
  }

  lemma ClientWrites(v: Blocks, threads: map<Ptr, Remote>, jobs: map<Ptr, Job>, held: Blocks, a: Ptr, data: seq<Byte>)
    requires Holding(v, threads, jobs, held) && a in held
    ensures Holding(v[a := data], threads, jobs, held[a := data])
  {
    hide JobAt, Bounded, Ends;
    SameEnds(v, v[a := data], threads);
    forall t | t in jobs ensures JobAt(v[a := data], threads[t], jobs[t]) {
      SameJob(v, v[a := data], threads[t], jobs[t]);
    }
  }

  lemma RunKeeps(find: Ptr, n: Node<Remote>, a: Ptr, n': Node<Remote>, p: Response,
                 jobs: map<Ptr, Job>, held: Blocks, j: Job)
    requires Inv(n, jobs, held) && a in held && held[a] == Args(j) && Bounded(j)
    requires Serve(SearchCode(find), n, Run(find, a), n', p)
    ensures p.RunR? && p.tid !in jobs && Inv(n', jobs[p.tid := j], held - {a})
  {
    hide Valid, View, Growing, Cells, Found, Args, Bounded, Ends;
    BoundedEnds(View(n.heap), a, j);
  }

  lemma JoinKeeps(find: Ptr, n: Node<Remote>, tid: Ptr, n': Node<Remote>, p: Response, jobs: map<Ptr, Job>, held: Blocks)
    requires Inv(n, jobs, held) && tid in jobs && Serve(SearchCode(find), n, Join(tid), n', p)
    ensures p.JoinR? && Inv(n', jobs - {tid}, held[p.ret := Cells(Counted(FoundBy(jobs[tid])))])
  {
    hide Valid, View, Growing, Cells, Found, Args, Bounded, Ends;
    assert n.threads[tid] == Returned(p.ret);
  }

  lemma ReadHeld(find: Ptr, n: Node<Remote>, a: Ptr, offset: nat, size: nat, n': Node<Remote>, p: Response,
                 jobs: map<Ptr, Job>, held: Blocks)
    requires Inv(n, jobs, held) && a in held && offset + size <= |held[a]| && a + offset < U64
    requires Serve(SearchCode(find), n, MemcpyN2C(a + offset, size), n', p)
    ensures n' == n && p == MemcpyN2CR(held[a][offset..offset + size])
  {
    hide Valid, Contents, Holding;
    HeldBlock(n, jobs, held, a);
    assert Inside(n.heap, a, a + offset, size);
    ReadView(n.heap, a, a + offset, size);
  }

  lemma FreeKeeps(find: Ptr, n: Node<Remote>, a: Ptr, n': Node<Remote>, p: Response, jobs: map<Ptr, Job>, held: Blocks)
    requires Inv(n, jobs, held) && a in held && Serve(SearchCode(find), n, Free(a), n', p)
    ensures Inv(n', jobs, held - {a})
  {
    hide Valid, View, Holding;
    ReleaseView(n.heap, a);
    ClientDrops(View(n.heap), n.threads, jobs, held, a);
  }

  lemma ClientDrops(v: Blocks, threads: map<Ptr, Remote>, jobs: map<Ptr, Job>, held: Blocks, a: Ptr)
    requires Holding(v, threads, jobs, held) && a in held
    ensures Holding(v - {a}, threads, jobs, held - {a})
  {
    hide JobAt, Bounded, Ends;
    SameEnds(v, v - {a}, threads);
    forall t | t in jobs ensures JobAt(v - {a}, threads[t], jobs[t]) {
      SameJob(v, v - {a}, threads[t], jobs[t]);
    }
  }

  // ----- What a node may lack

  /** The node has the memory, and the free thread identifier, that serving the request takes, and the
      answer fits into a message. A request can be beyond a client's power for these reasons only. */
  ghost predicate Enough(n: Node<Remote>, r: Request) {
    match r
    case Malloc(size) => HasRoom(n.heap, size)
    case MemcpyN2C(_, size) => RESP_HEAD + 4 + size <= INT_MAX
    case Run(_, _) => exists tid: Ptr :: tid !in n.threads
    case Join(tid) => tid in n.threads ==> RoomFor(n.heap, n.threads[tid])
    case _ => true
  }

  /** Joining one of the client's threads is sane at any time. */
  lemma JoinIsSane(find: Ptr, n: Node<Remote>, tid: Ptr, jobs: map<Ptr, Job>, held: Blocks)
    requires Inv(n, jobs, held) && tid in jobs && Enough(n, Join(tid))
    ensures Sane(SearchCode(find), n, Join(tid))
  {
    hide Valid, View, Holding, JobAt, Bounded, RoomFor, CanMove;
    JobOf(View(n.heap), n.threads, jobs, held, tid);
    if !n.threads[tid].Returned? {
      SearchMoves(find, n.heap, n.threads[tid], jobs[tid]);
    }
  }

  /** So is access to what the client holds. */
  lemma HeldIsLive(n: Node<Remote>, a: Ptr, offset: nat, size: nat, jobs: map<Ptr, Job>, held: Blocks)
    requires Inv(n, jobs, held) && a in held && offset + size <= |held[a]|
    ensures a in n.heap.blocks && Live(n.heap, a + offset, size)
  {
    hide Valid, View, Holding;
    HeldBlock(n, jobs, held, a);
    assert Inside(n.heap, a, a + offset, size);
  }
}
