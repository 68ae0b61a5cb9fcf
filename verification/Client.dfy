/** The client of the distributed count, as one node sees it: which request comes next depends on the
    answers so far. Whatever the remote threads do meanwhile, each request is one that the node can serve
    unless it lacks memory, and each answer is the right one. */
module Client {
  import opened Bytes
  import opened Wire
  import opened NodeHeap
  import opened NodeModel
  import opened Search
  import opened Jobs
  import opened Primes
  import Rpc

  /** A node's part of the work: the remote function there, and one range for each core. */
  datatype Part = Part(func: Ptr, ranges: seq<Job>)

  /** What the client reads back for one range. */
  datatype Result = Result(size: nat, primes: seq<nat>)

  /** How far the client is on the node: `tids` are the threads it has started, `results` those it has
      collected; `block` has the arguments of the next thread, `ret` the result of the joined one. */
  datatype Progress =
    | Assigning(tids: seq<Ptr>)
    | Copying(tids: seq<Ptr>, block: Ptr)
    | Launching(tids: seq<Ptr>, block: Ptr)
    | Joining(tids: seq<Ptr>, results: seq<Result>)
    | Sizing(tids: seq<Ptr>, results: seq<Result>, ret: Ptr)
    | Reading(tids: seq<Ptr>, results: seq<Result>, ret: Ptr, size: nat)
    | Freeing(tids: seq<Ptr>, results: seq<Result>, ret: Ptr, size: nat, primes: seq<nat>)

  predicate Sound(part: Part, c: Progress) {
    if c.Assigning? || c.Copying? || c.Launching? then |c.tids| < |part.ranges|
    else |c.tids| == |part.ranges| && |c.results| + (if c.Joining? then 0 else 1) <= |part.ranges|
  }

  /** The next call, if there is one. */
  function Ask(part: Part, c: Progress): Option<Request>
    requires Sound(part, c)
  {
    match c
    case Assigning(_) => Some(Malloc(16))
    case Copying(tids, block) => Some(MemcpyC2N(block, Args(part.ranges[|tids|])))
    case Launching(_, block) => Some(Run(part.func, block))
    case Joining(tids, results) => if |results| < |tids| then Some(Join(tids[|results|])) else None
    case Sizing(_, _, ret) => Some(MemcpyN2C(ret, 8))
    case Reading(_, _, ret, size) => Some(MemcpyN2C((ret + 8) % U64, ToU32(8 * size)))
    case Freeing(_, _, ret, _, _) => Some(Free(ret))
  }

  /** The address, or the bytes, that the client takes out of a response. */
  function PtrOf(p: Response): Ptr {
    match p
    case MallocR(addr) => addr
    case RunR(tid) => tid
    case JoinR(ret) => ret
    case _ => 0
  }

  function Data(p: Response): seq<Byte> {
    if p.MemcpyN2CR? then p.data else []
  }

  function Learn(part: Part, c: Progress, p: Response): (c': Progress)
    requires Sound(part, c)
    ensures Sound(part, c')
  {
    match c
    case Assigning(tids) => Copying(tids, PtrOf(p))
    case Copying(tids, block) => Launching(tids, block)
    case Launching(tids, _) =>
      var longer := tids + [PtrOf(p)];
      if |longer| < |part.ranges| then Assigning(longer) else Joining(longer, [])
    case Joining(tids, results) => if |results| < |tids| then Sizing(tids, results, PtrOf(p)) else c
    case Sizing(tids, results, ret) => Reading(tids, results, ret, UnLE(Data(p)))
    case Reading(tids, results, ret, size) => Freeing(tids, results, ret, size, UnCells(Data(p)))
    case Freeing(tids, results, _, size, primes) => Joining(tids, results + [Result(size, primes)])
  }

  /** Where the client stands after these answers. */
  function After(part: Part, ps: seq<Response>): (c: Progress)
    ensures Sound(part, c)
    decreases |ps|
  {
    if ps == [] then if part.ranges == [] then Joining([], []) else Assigning([])
    else Learn(part, After(part, ps[..|ps| - 1]), ps[|ps| - 1])
  }

  /** How many calls are left: seven for each range in all. */
  function CallsLeft(part: Part, c: Progress): nat
    requires Sound(part, c)
  {
    var m := |part.ranges|;
    match c
    case Assigning(tids) => 3 * (m - |tids|) + 4 * m
    case Copying(tids, _) => 3 * (m - |tids|) - 1 + 4 * m
    case Launching(tids, _) => 3 * (m - |tids|) - 2 + 4 * m
    case Joining(_, results) => 4 * (m - |results|)
    case Sizing(_, results, _) => 4 * (m - |results|) - 1
    case Reading(_, results, _, _) => 4 * (m - |results|) - 2
    case Freeing(_, results, _, _, _) => 4 * (m - |results|) - 3
  }

  lemma LearnLeft(part: Part, c: Progress, p: Response)
    requires Sound(part, c)
    ensures CallsLeft(part, Learn(part, c, p)) == if CallsLeft(part, c) > 0 then CallsLeft(part, c) - 1 else 0
  {
    hide UnLE, UnCells;
  }

  lemma {:induction false} CallsLeftAfter(part: Part, ps: seq<Response>)
    ensures CallsLeft(part, After(part, ps)) == if |ps| < 7 * |part.ranges| then 7 * |part.ranges| - |ps| else 0
    decreases |ps|
  {
    hide Learn;
    if ps != [] {
      CallsLeftAfter(part, ps[..|ps| - 1]);
      hide CallsLeft;
      LearnLeft(part, After(part, ps[..|ps| - 1]), ps[|ps| - 1]);
    }
  }

  lemma AskLeft(part: Part, c: Progress)
    requires Sound(part, c)
    ensures Ask(part, c).None? <==> CallsLeft(part, c) == 0
  {
  }

  lemma AskFits(part: Part, c: Progress)
    requires Sound(part, c) && Ask(part, c).Some?
    ensures Fits(Ask(part, c).value)
  {
    hide LE;
  }

  // ----- The calls, without the client's state

  /** Call number `k` to the node, given the answers before it: for each range a block, the two bounds copied
      into it, and the remote function run on it; then for each range a join of its thread, a read of the
      count, a read of the numbers behind it, and the release of the block. */
  function Expected(part: Part, ps: seq<Response>, k: nat): Request
    requires k <= |ps| && k < 7 * |part.ranges|
  {
    var m := |part.ranges|;
    if k < 3 * m then
      match k % 3
      case 0 => Malloc(16)
      case 1 => MemcpyC2N(PtrOf(ps[k - 1]), Args(part.ranges[k / 3]))
      case _ => Run(part.func, PtrOf(ps[k - 2]))
    else
      match (k - 3 * m) % 4
      case 0 => Join(PtrOf(ps[3 * ((k - 3 * m) / 4) + 2]))
      case 1 => MemcpyN2C(PtrOf(ps[k - 1]), 8)
      case 2 => MemcpyN2C((PtrOf(ps[k - 2]) + 8) % U64, ToU32(8 * UnLE(Data(ps[k - 1]))))
      case _ => Free(PtrOf(ps[k - 3]))
  }

  /** The threads are those that the run calls returned. */
  predicate TidsAre(tids: seq<Ptr>, ps: seq<Response>) {
    3 * |tids| <= |ps| && forall i :: 0 <= i < |tids| ==> tids[i] == PtrOf(ps[3 * i + 2])
  }

  /** Where the client stands, told from the number of answers. */
  predicate Stands(part: Part, ps: seq<Response>, c: Progress) {
    var k, m := |ps|, |part.ranges|;
    && TidsAre(c.tids, ps)
    && if k < 3 * m then
         && |c.tids| == k / 3
         && (k % 3 == 0 ==> c.Assigning?)
         && (k % 3 == 1 ==> c.Copying? && c.block == PtrOf(ps[k - 1]))
         && (k % 3 == 2 ==> c.Launching? && c.block == PtrOf(ps[k - 2]))
       else if k < 7 * m then
         var j := k - 3 * m;
         && |c.tids| == m && !c.Assigning? && !c.Copying? && !c.Launching? && |c.results| == j / 4
         && (j % 4 == 0 ==> c.Joining?)
         && (j % 4 == 1 ==> c.Sizing? && c.ret == PtrOf(ps[k - 1]))
         && (j % 4 == 2 ==> c.Reading? && c.ret == PtrOf(ps[k - 2]) && c.size == UnLE(Data(ps[k - 1])))
         && (j % 4 == 3 ==> c.Freeing? && c.ret == PtrOf(ps[k - 3]))
       else c.Joining? && |c.tids| == |c.results| == m
  }

  lemma LearnStands(part: Part, ps: seq<Response>, c: Progress, p: Response)
    requires Sound(part, c) && Stands(part, ps, c)
    ensures Stands(part, ps + [p], Learn(part, c, p))
  {
    hide UnLE, UnCells, Data, PtrOf;
  }

  lemma {:induction false} AfterStands(part: Part, ps: seq<Response>)
    ensures Stands(part, ps, After(part, ps))
    decreases |ps|
  {
    hide Learn, Stands;
    if ps == [] {
      NothingStands(part);
    } else {
      var before := ps[..|ps| - 1];
      AfterStands(part, before);
      LearnStands(part, before, After(part, before), ps[|ps| - 1]);
      assert before + [ps[|ps| - 1]] == ps;
    }
  }

  lemma NothingStands(part: Part)
    ensures Stands(part, [], After(part, []))
  {
  }

  /** The client's calls are exactly these. */
  lemma AsksExpected(part: Part, ps: seq<Response>, k: nat, r: Request)
    requires k <= |ps|
    ensures AsksAt(part, ps, k, r) <==> k < 7 * |part.ranges| && r == Expected(part, ps, k)
  {
    hide UnLE, Data, PtrOf, Args, ToU32, After;
    AfterStands(part, ps[..k]);
  }

  lemma ExpectedRun(part: Part, ps: seq<Response>, k: nat)
    requires k <= |ps| && k < 7 * |part.ranges| && Expected(part, ps, k).Run?
    ensures 2 <= k && k / 3 < |part.ranges|
    ensures Expected(part, ps, k) == Run(part.func, PtrOf(ps[k - 2]))
    ensures Expected(part, ps, k - 1) == MemcpyC2N(PtrOf(ps[k - 2]), Args(part.ranges[k / 3]))
    ensures Expected(part, ps, k - 2) == Malloc(16)
  {
    hide UnLE, Args, ToU32;
    assert (k - 1) / 3 == k / 3;
  }

  // ----- What is true of the node meanwhile

  /** The threads from `from` on are jobs, each for its own range, and no two are the same. */
  ghost predicate Outstanding(part: Part, tids: seq<Ptr>, from: nat, jobs: map<Ptr, Job>) {
    && |tids| <= |part.ranges|
    && (forall i :: from <= i < |tids| ==> tids[i] in jobs && jobs[tids[i]] == part.ranges[i])
    && (forall i, k :: from <= i < k < |tids| ==> tids[i] != tids[k])
  }

  /** The result is the one of job `j`. The primes are read with a 32-bit length. */
  ghost predicate Right(res: Result, j: Job) {
    res.size == |FoundBy(j)| && (8 * res.size < U32 ==> res.primes == FoundBy(j))
  }

  ghost predicate AllRight(part: Part, results: seq<Result>) {
    |results| <= |part.ranges| && forall i :: 0 <= i < |results| ==> Right(results[i], part.ranges[i])
  }

  ghost predicate Stage(part: Part, c: Progress, jobs: map<Ptr, Job>, held: Blocks)
    requires Sound(part, c)
  {
    match c
    case Assigning(tids) => Outstanding(part, tids, 0, jobs)
    case Copying(tids, block) => Outstanding(part, tids, 0, jobs) && block in held && |held[block]| == 16
    case Launching(tids, block) =>
      Outstanding(part, tids, 0, jobs) && block in held && held[block] == Args(part.ranges[|tids|])
    case Joining(tids, results) => Outstanding(part, tids, |results|, jobs) && AllRight(part, results)
    case Sizing(tids, results, ret) => Collecting(part, tids, results, ret, jobs, held)
    case Reading(tids, results, ret, size) =>
      Collecting(part, tids, results, ret, jobs, held) && size == |FoundBy(part.ranges[|results|])|
    case Freeing(tids, results, ret, size, primes) =>
      && Collecting(part, tids, results, ret, jobs, held)
      && Right(Result(size, primes), part.ranges[|results|])
  }

  ghost predicate Collecting(part: Part, tids: seq<Ptr>, results: seq<Result>, ret: Ptr,
                             jobs: map<Ptr, Job>, held: Blocks)
    requires |results| < |part.ranges|
  {
    && Outstanding(part, tids, |results| + 1, jobs) && AllRight(part, results)
    && ret in held && held[ret] == Cells(Counted(FoundBy(part.ranges[|results|])))
  }

  predicate AllBounded(part: Part) {
    forall j :: j in part.ranges ==> Bounded(j)
  }

  /** What a result block holds: the count, then the numbers. */
  lemma ResultBlock(j: Job)
    ensures var cells, ps := Cells(Counted(FoundBy(j))), FoundBy(j);
            && |cells| == 8 * |ps| + 8 && UnLE(cells[..8]) == |ps| && cells[8..] == Cells(ps)
            && UnCells(Cells(ps)) == ps
  {
    hide LE, UnLE, Cells, PrimesIn;
    var ps := FoundBy(j);
    PrimesInSpec(j.lo % U32, Min(j.hi % U32, U31 - 1));
    CellsCounted(ps);
    Fields(|ps|);
    UnCellsOf(ps);
    assert Cells(Counted(ps))[..8] == LE(|ps|, 8);
  }

  /** The read of the numbers that `memcpy` is asked for lies inside the result block. */
  lemma ReadInside(n: Node<Remote>, ret: Ptr, size: nat, jobs: map<Ptr, Job>, held: Blocks)
    requires Inv(n, jobs, held) && ret in held && |held[ret]| == 8 * size + 8
    ensures ToU32(8 * size) <= 8 * size
    ensures size > 0 ==> (ret + 8) % U64 == ret + 8 && Live(n.heap, ret + 8, ToU32(8 * size))
    ensures size == 0 ==> ToU32(8 * size) == 0
  {
    hide Inv, Live;
    HeldBlock(n, jobs, held, ret);
    HeldIsLive(n, ret, 8, ToU32(8 * size), jobs, held);
  }

  /** Every request is one that the node can serve, unless it lacks memory. */
  lemma StageIsSane(part: Part, c: Progress, n: Node<Remote>, jobs: map<Ptr, Job>, held: Blocks)
    requires Sound(part, c) && Ask(part, c).Some? && Stage(part, c, jobs, held) && Inv(n, jobs, held)
    requires Enough(n, Ask(part, c).value)
    ensures Sane(SearchCode(part.func), n, Ask(part, c).value)
  {
    hide Inv, Live, Cells, FoundBy, Args, AllRight, Right, CanMove, ToU32, RoomFor, Room;
    match c
    case Assigning(_) => RoomIsSane(part.func, n, 16);
    case Copying(_, block) => HeldIsLive(n, block, 0, 16, jobs, held);
    case Launching(_, _) =>
    case Joining(tids, results) => JoinIsSane(part.func, n, tids[|results|], jobs, held);
    case Freeing(_, _, ret, _, _) => HeldIsLive(n, ret, 0, 0, jobs, held);
    case _ => ReadIsSane(part, c, n, jobs, held);
  }

  lemma RoomIsSane(find: Ptr, n: Node<Remote>, size: nat)
    requires Enough(n, Malloc(size))
    ensures Sane(SearchCode(find), n, Malloc(size))
  {
    hide Room;
  }

  lemma ReadIsSane(part: Part, c: Progress, n: Node<Remote>, jobs: map<Ptr, Job>, held: Blocks)
    requires Sound(part, c) && (c.Sizing? || c.Reading?) && Stage(part, c, jobs, held) && Inv(n, jobs, held)
    requires Enough(n, Ask(part, c).value)
    ensures Sane(SearchCode(part.func), n, Ask(part, c).value)
  {
    hide Inv, Live, Cells, FoundBy, AllRight, Right, CanMove, Outstanding, ToU32;
    var ret := c.ret;
    ResultBlock(part.ranges[|c.results|]);
    if c.Sizing? {
      HeldIsLive(n, ret, 0, 8, jobs, held);
    } else {
      ReadInside(n, ret, c.size, jobs, held);
    }
  }

  /** A served request brings the client, and what is true of the node, one stage further. */
  lemma ServedStage(part: Part, c: Progress, n: Node<Remote>, n': Node<Remote>, p: Response,
                    jobs: map<Ptr, Job>, held: Blocks) returns (jobs': map<Ptr, Job>, held': Blocks)
    requires AllBounded(part) && Sound(part, c) && Ask(part, c).Some?
    requires Stage(part, c, jobs, held) && Inv(n, jobs, held)
    requires Serve(SearchCode(part.func), n, Ask(part, c).value, n', p)
    ensures Stage(part, Learn(part, c, p), jobs', held') && Inv(n', jobs', held')
  {
    hide Inv, Serve, Stage, Learn, Ask;
    if c.Assigning? || c.Copying? || c.Launching? {
      jobs', held' := AssignStage(part, c, n, n', p, jobs, held);
    } else {
      jobs', held' := CollectStage(part, c, n, n', p, jobs, held);
    }
  }

  lemma AssignStage(part: Part, c: Progress, n: Node<Remote>, n': Node<Remote>, p: Response,
                    jobs: map<Ptr, Job>, held: Blocks) returns (jobs': map<Ptr, Job>, held': Blocks)
    requires AllBounded(part) && Sound(part, c) && (c.Assigning? || c.Copying? || c.Launching?)
    requires Stage(part, c, jobs, held) && Inv(n, jobs, held)
    requires Serve(SearchCode(part.func), n, Ask(part, c).value, n', p)
    ensures Stage(part, Learn(part, c, p), jobs', held') && Inv(n', jobs', held')
  {
    hide Inv, Serve, View, Cells, Args, Bounded, UnLE, UnCells, AllRight, FoundBy;
    match c
    case Assigning(_) =>
      MallocKeeps(part.func, n, 16, n', p, jobs, held);
      jobs', held' := jobs, held[p.addr := View(n'.heap)[p.addr]];
    case Copying(tids, block) =>
      var data := Args(part.ranges[|tids|]);
      WriteKeeps(part.func, n, block, data, n', p, jobs, held);
      jobs', held' := jobs, held[block := data];
    case Launching(tids, block) =>
      var j := part.ranges[|tids|];
      RunKeeps(part.func, n, block, n', p, jobs, held, j);
      jobs', held' := jobs[p.tid := j], held - {block};
      NothingRight(part);
  }

  lemma CollectStage(part: Part, c: Progress, n: Node<Remote>, n': Node<Remote>, p: Response,
                     jobs: map<Ptr, Job>, held: Blocks) returns (jobs': map<Ptr, Job>, held': Blocks)
    requires Sound(part, c) && !(c.Assigning? || c.Copying? || c.Launching?) && Ask(part, c).Some?
    requires Stage(part, c, jobs, held) && Inv(n, jobs, held)
    requires Serve(SearchCode(part.func), n, Ask(part, c).value, n', p)
    ensures Stage(part, Learn(part, c, p), jobs', held') && Inv(n', jobs', held')
  {
    hide Inv, Serve, View, Cells, FoundBy, Bounded, Right, UnLE, UnCells, AllRight, ToU32;
    jobs', held' := jobs, held;
    match c
    case Joining(tids, results) =>
      var tid := tids[|results|];
      JoinKeeps(part.func, n, tid, n', p, jobs, held);
      jobs', held' := jobs - {tid}, held[p.ret := Cells(Counted(FoundBy(jobs[tid])))];
    case Sizing(_, results, ret) =>
      ResultBlock(part.ranges[|results|]);
      HeldBlock(n, jobs, held, ret);
      ReadHeld(part.func, n, ret, 0, 8, n', p, jobs, held);
    case Reading(_, results, ret, size) =>
      ReadPrimes(part.func, part.ranges[|results|], n, ret, n', p, jobs, held);
    case Freeing(_, results, ret, size, primes) =>
      FreeKeeps(part.func, n, ret, n', p, jobs, held);
      held' := held - {ret};
      OneMoreRight(part, results, Result(size, primes));
  }

  lemma NothingRight(part: Part)
    ensures AllRight(part, [])
  {
  }

  lemma OneMoreRight(part: Part, results: seq<Result>, res: Result)
    requires AllRight(part, results) && |results| < |part.ranges| && Right(res, part.ranges[|results|])
    ensures AllRight(part, results + [res])
  {
    hide Right;
  }

  lemma ReadPrimes(find: Ptr, j: Job, n: Node<Remote>, ret: Ptr, n': Node<Remote>, p: Response,
                   jobs: map<Ptr, Job>, held: Blocks)
    requires Inv(n, jobs, held) && ret in held && held[ret] == Cells(Counted(FoundBy(j)))
    requires Serve(SearchCode(find), n, MemcpyN2C((ret + 8) % U64, ToU32(8 * |FoundBy(j)|)), n', p)
    ensures n' == n && Right(Result(|FoundBy(j)|, UnCells(Data(p))), j)
  {
    hide Inv, Serve, Cells, FoundBy, UnCells, Live;
    var ps := FoundBy(j);
    var size := ToU32(8 * |ps|);
    ResultBlock(j);
    ReadInside(n, ret, |ps|, jobs, held);
    if ps == [] {
      ReadNothing(find, n, (ret + 8) % U64, n', p);
    } else {
      HeldBlock(n, jobs, held, ret);
      ReadHeld(find, n, ret, 8, size, n', p, jobs, held);
      assert size == 8 * |ps| ==> held[ret][8..8 + size] == held[ret][8..];
    }
  }

  lemma ReadNothing(find: Ptr, n: Node<Remote>, src: Ptr, n': Node<Remote>, p: Response)
    requires Serve(SearchCode(find), n, MemcpyN2C(src, 0), n', p)
    ensures n' == n && Data(p) == [] && UnCells([]) == []
  {
  }

  // ----- Along the history of the node

  /** The calls of the history are the client's. */
  ghost predicate Follows(part: Part, xs: seq<Rpc.Exchange>) {
    forall k :: 0 <= k < |xs| ==> AsksAt(part, Rpc.Responses(xs), k, xs[k].req)
  }

  ghost predicate AsksAt(part: Part, ps: seq<Response>, k: nat, r: Request)
    requires k <= |ps|
  {
    Ask(part, After(part, ps[..k])) == Some(r)
  }

  /** In every history in which the calls are the client's, with remote threads at work in between, the
      node is at the stage that the answers tell. */
  lemma {:induction false} Staged(part: Part, n: Node<Remote>, log: seq<Rpc.Event>, n': Node<Remote>)
    returns (jobs: map<Ptr, Job>, held: Blocks)
    requires AllBounded(part) && Inv(n, map[], map[])
    requires Rpc.AtomicRun(NodeService(SearchCode(part.func)), n, log, n') && Follows(part, Rpc.Exchanges(log))
    ensures Stage(part, After(part, Rpc.Responses(Rpc.Exchanges(log))), jobs, held) && Inv(n', jobs, held)
    decreases |log|
  {
    hide Inv, Serve, Work, After, Stage, AllBounded, Follows;
    if log == [] {
      jobs, held := map[], map[];
      NoStage(part);
      assert Rpc.Responses([]) == [];
    } else {
      var svc := NodeService(SearchCode(part.func));
      var before, last := log[..|log| - 1], log[|log| - 1];
      var mid :| Rpc.AtomicRun(svc, n, before, mid) && Rpc.AtomicStep(svc, mid, last, n');
      var xs := Rpc.Exchanges(before);
      FollowsBefore(part, xs, Rpc.Exchanges(log));
      jobs, held := Staged(part, n, before, mid);
      match last
      case Background => WorkKeeps(part.func, mid, n', jobs, held);
      case Served(r, p) => jobs, held := NextStage(part, xs, Rpc.Exchange(r, p), mid, n', jobs, held);
    }
  }

  lemma NextStage(part: Part, xs: seq<Rpc.Exchange>, x: Rpc.Exchange, n: Node<Remote>, n': Node<Remote>,
                  jobs: map<Ptr, Job>, held: Blocks) returns (jobs': map<Ptr, Job>, held': Blocks)
    requires AllBounded(part) && Follows(part, xs + [x])
    requires Stage(part, After(part, Rpc.Responses(xs)), jobs, held) && Inv(n, jobs, held)
    requires Serve(SearchCode(part.func), n, x.req, n', x.resp)
    ensures Stage(part, After(part, Rpc.Responses(xs + [x])), jobs', held') && Inv(n', jobs', held')
  {
    hide Inv, Serve, Learn, Stage, AllBounded, Ask, Sound;
    var ps := Rpc.Responses(xs + [x]);
    assert AsksAt(part, ps, |xs|, (xs + [x])[|xs|].req);
    assert ps[..|xs|] == ps[..|ps| - 1] == Rpc.Responses(xs);
    jobs', held' := ServedStage(part, After(part, Rpc.Responses(xs)), n, n', x.resp, jobs, held);
  }

  lemma NoStage(part: Part)
    ensures Stage(part, After(part, []), map[], map[])
  {
  }

  lemma FollowsBefore(part: Part, xs: seq<Rpc.Exchange>, ys: seq<Rpc.Exchange>)
    requires Follows(part, ys) && xs <= ys
    ensures Follows(part, xs)
  {
    forall k | 0 <= k < |xs| ensures AsksAt(part, Rpc.Responses(xs), k, xs[k].req) {
      assert AsksAt(part, Rpc.Responses(ys), k, ys[k].req);
      assert Rpc.Responses(ys)[..k] == Rpc.Responses(xs)[..k];
    }
  }
}
