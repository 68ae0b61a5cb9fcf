/** The client program: assign one range to each core of each node, collect the results, add up the counts.
    It runs on what the calls of a run of the whole system returned. */
module Count {
  import opened Bytes
  import opened Wire
  import opened NodeModel
  import opened Rpc
  import opened Search
  import opened Client
  import opened Cluster
  import opened Primes
  import Jobs

  // ----- The work of each node

  function SumCores(cores: seq<nat>): nat {
    if cores == [] then 0 else SumCores(cores[..|cores| - 1]) + cores[|cores| - 1]
  }

  /** How many ranges go to the nodes before `d`. */
  function Offset(cores: seq<nat>, d: nat): nat
    requires d <= |cores|
  {
    SumCores(cores[..d])
  }

  lemma NextOffset(cores: seq<nat>, d: nat)
    requires d < |cores|
    ensures Offset(cores, d + 1) == Offset(cores, d) + cores[d]
  {
    assert cores[..d + 1][..d] == cores[..d];
  }

  lemma {:induction false} Offsets(cores: seq<nat>, d: nat, e: nat)
    requires d <= e <= |cores|
    ensures Offset(cores, d) <= Offset(cores, e)
    ensures Offset(cores, 0) == 0 && Offset(cores, |cores|) == SumCores(cores)
    decreases e
  {
    assert cores[..0] == [] && cores[..|cores|] == cores;
    if d < e {
      Offsets(cores, d, e - 1);
      NextOffset(cores, e - 1);
    }
  }

  /** Range `k` of `total`. */
  function RangeJob(first: int, last: int, total: int, k: int): Job
    requires 1 <= first <= last && 0 <= k < total
  {
    Tiles(first, last, total, k);
    Job(Start(first, last, total, k), End(first, last, total, k))
  }

  /** The program's parameters: nodes with cores, the remote function on each, the closed range. */
  datatype Plan = Plan(cores: seq<nat>, funcs: seq<Ptr>, first: int, last: int) {
    predicate Valid() {
      |cores| == |funcs| && 0 < SumCores(cores) <= INT_MAX && 1 <= first <= last <= INT_MAX
    }

    function Range(k: int): Job
      requires Valid() && 0 <= k < SumCores(cores)
    {
      RangeJob(first, last, SumCores(cores), k)
    }
  }

  function PartOf(plan: Plan, d: nat): (part: Part)
    requires plan.Valid() && d < |plan.cores|
    ensures part.func == plan.funcs[d] && |part.ranges| == plan.cores[d]
    ensures forall j :: 0 <= j < plan.cores[d] ==>
              && Offset(plan.cores, d) + j < SumCores(plan.cores)
              && part.ranges[j] == plan.Range(Offset(plan.cores, d) + j)
  {
    NextOffset(plan.cores, d);
    Offsets(plan.cores, d + 1, |plan.cores|);
    Part(plan.funcs[d],
         seq(plan.cores[d], j requires 0 <= j < plan.cores[d] => plan.Range(Offset(plan.cores, d) + j)))
  }

  function PartsOf(plan: Plan): (parts: seq<Part>)
    requires plan.Valid()
    ensures |parts| == |plan.cores| && forall d :: 0 <= d < |parts| ==> parts[d] == PartOf(plan, d)
  {
    seq(|plan.cores|, d requires 0 <= d < |plan.cores| => PartOf(plan, d))
  }

  lemma RangeIsBounded(plan: Plan, k: int)
    requires plan.Valid() && 0 <= k < SumCores(plan.cores)
    ensures Bounded(plan.Range(k))
    ensures FoundBy(plan.Range(k)) == PrimesIn(Start(plan.first, plan.last, SumCores(plan.cores), k),
                                               End(plan.first, plan.last, SumCores(plan.cores), k))
  {
    hide Start, End, PrimesIn, Found;
    Tiles(plan.first, plan.last, SumCores(plan.cores), k);
    var j := plan.Range(k);
    FoundIsPrimes(j.lo, j.hi);
  }

  lemma PartsAreBounded(plan: Plan, d: nat)
    requires plan.Valid() && d < |plan.cores|
    ensures AllBounded(PartOf(plan, d))
  {
    var part := PartOf(plan, d);
    forall j | j in part.ranges ensures Bounded(j) {
      var i :| 0 <= i < |part.ranges| && part.ranges[i] == j;
      RangeIsBounded(plan, Offset(plan.cores, d) + i);
    }
  }

  // ----- The program

  /** A call: its answer, if it has returned. The request has to be the one that was sent. */
  method CallNode(ghost part: Part, answers: seq<Response>, k: nat, r: Request) returns (p: Option<Response>)
    requires k <= |answers| && AsksAt(part, answers, k, r)
    ensures p == if k < |answers| then Some(answers[k]) else None
    ensures k < |answers| ==> After(part, answers[..k + 1]) == Learn(part, After(part, answers[..k]), answers[k])
  {
    hide Learn, Ask;
    if k < |answers| {
      assert answers[..k + 1][..k] == answers[..k];
      return Some(answers[k]);
    }
    return None;
  }

  /** Copy the arguments to the node and start a remote thread on them. */
  method Assign(ghost part: Part, answers: seq<Response>, k: nat, func: Ptr, j: Job, ghost tids: seq<Ptr>)
    returns (ok: bool, tid: Ptr)
    requires k <= |answers| && After(part, answers[..k]) == Assigning(tids)
    requires part.func == func && |tids| < |part.ranges| && part.ranges[|tids|] == j
    ensures ok <==> k + 3 <= |answers|
    ensures ok ==> After(part, answers[..k + 3]) == Started(part, tids + [tid])
  {
    hide After, Args, UnLE, UnCells;
    ok, tid := false, 0;
    var p := CallNode(part, answers, k, Malloc(16));
    if p.None? { return; }
    var args := PtrOf(p.value);
    p := CallNode(part, answers, k + 1, MemcpyC2N(args, Args(j)));
    if p.None? { return; }
    p := CallNode(part, answers, k + 2, Run(func, args));
    if p.None? { return; }
    ok, tid := true, PtrOf(p.value);
  }

  /** How far the client is once it has started these threads. */
  function Started(part: Part, tids: seq<Ptr>): Progress {
    if |tids| < |part.ranges| then Assigning(tids) else Joining(tids, [])
  }

  /** Join the thread, read the count, read the primes, free the block. */
  method Collect(ghost part: Part, answers: seq<Response>, k: nat, tid: Ptr,
                 ghost tids: seq<Ptr>, ghost results: seq<Result>)
    returns (ok: bool, res: Result)
    requires k <= |answers| && After(part, answers[..k]) == Joining(tids, results)
    requires |results| < |tids| == |part.ranges| && tids[|results|] == tid
    ensures ok <==> k + 4 <= |answers|
    ensures ok ==> After(part, answers[..k + 4]) == Joining(tids, results + [res])
  {
    hide After, UnLE, UnCells, ToU32;
    ok, res := false, Result(0, []);
    var p := CallNode(part, answers, k, Join(tid));
    if p.None? { return; }
    var ret := PtrOf(p.value);
    p := CallNode(part, answers, k + 1, MemcpyN2C(ret, 8));
    if p.None? { return; }
    var arrSize := UnLE(Data(p.value));
    p := CallNode(part, answers, k + 2, MemcpyN2C((ret + 8) % U64, ToU32(8 * arrSize)));
    if p.None? { return; }
    var arr := UnCells(Data(p.value));
    p := CallNode(part, answers, k + 3, Free(ret));
    if p.None? { return; }
    ok, res := true, Result(arrSize, arr);
  }

  // ----- Results

  function Results(c: Progress): seq<Result> {
    if c.Assigning? || c.Copying? || c.Launching? then [] else c.results
  }

  lemma {:induction false} ResultsGrow(part: Part, ps: seq<Response>, k: nat)
    requires k <= |ps|
    ensures Results(After(part, ps[..k])) <= Results(After(part, ps))
    decreases |ps|
  {
    hide UnLE, UnCells;
    if k == |ps| {
      assert ps[..k] == ps;
    } else {
      ResultsGrow(part, ps[..|ps| - 1], k);
      assert ps[..|ps| - 1][..k] == ps[..k];
    }
  }

  /** Whatever the client has collected, at any time, is right. */
  lemma ResultsAreRight(part: Part, n: Node<Remote>, s: Conn, k: nat)
    requires ConnInv(part, n, s) && AllBounded(part) && Jobs.Inv(n, map[], map[]) && k <= |Got(s)|
    ensures AllRight(part, Results(After(part, Got(s)[..k])))
  {
    hide ConnInv, AllBounded, Jobs.Inv, After, Right, Exchanges, Outstanding;
    var jobs, held := ConnStage(part, n, s);
    HistoryFollows(part, n, s);
    var ps := Responses(Exchanges(s.log));
    ResultsGrow(part, ps, k);
    assert ps[..k] == Got(s)[..k];
  }

  // ----- Assigning

  datatype RThread = RThread(node: nat, tid: Ptr)

  /** Node `d` has answered for the threads `tids[d]`, and `pos[d]` calls in all. */
  ghost predicate StartedAt(plan: Plan, answers: seq<seq<Response>>, pos: seq<nat>, tids: seq<seq<Ptr>>, d: nat)
    requires plan.Valid() && d < |plan.cores| == |answers| == |pos| == |tids|
  {
    && |tids[d]| <= plan.cores[d] && pos[d] == 3 * |tids[d]| <= |answers[d]|
    && After(PartOf(plan, d), answers[d][..pos[d]]) == Started(PartOf(plan, d), tids[d])
  }

  /** The threads started so far, in the order of their ranges. */
  ghost predicate Threads(plan: Plan, tids: seq<seq<Ptr>>, rthreads: seq<RThread>)
    requires |plan.cores| == |tids|
  {
    forall d, j :: 0 <= d < |tids| && 0 <= j < |tids[d]| ==> ThreadAt(plan, tids, rthreads, d, j)
  }

  ghost predicate ThreadAt(plan: Plan, tids: seq<seq<Ptr>>, rthreads: seq<RThread>, d: nat, j: nat)
    requires d < |plan.cores| == |tids| && j < |tids[d]|
  {
    Offset(plan.cores, d) + j < |rthreads| && rthreads[Offset(plan.cores, d) + j] == RThread(d, tids[d][j])
  }

  /** Everything is started on the nodes before `i`, `core` threads on node `i`, and nothing beyond. */
  ghost predicate Assigned(plan: Plan, answers: seq<seq<Response>>, pos: seq<nat>, tids: seq<seq<Ptr>>,
                           rthreads: seq<RThread>, i: nat, core: nat)
    requires plan.Valid()
  {
    && i <= |plan.cores| == |answers| == |pos| == |tids|
    && (forall d :: 0 <= d < |tids| ==>
          && StartedAt(plan, answers, pos, tids, d)
          && |tids[d]| == if d < i then plan.cores[d] else if d == i then core else 0)
    && Threads(plan, tids, rthreads) && |rthreads| == Offset(plan.cores, i) + core
  }

  lemma NoneAssigned(plan: Plan, answers: seq<seq<Response>>)
    requires plan.Valid() && |plan.cores| == |answers|
    ensures var zeros, none := seq(|answers|, _ => 0), seq(|answers|, _ => []);
            Assigned(plan, answers, zeros, none, [], 0, 0)
  {
    assert plan.cores[..0] == [];
    forall d | 0 <= d < |answers| ensures After(PartOf(plan, d), answers[d][..0]) == Started(PartOf(plan, d), []) {
      assert answers[d][..0] == [];
    }
  }

  lemma OneMoreThread(plan: Plan, answers: seq<seq<Response>>, pos: seq<nat>, tids: seq<seq<Ptr>>,
                      rthreads: seq<RThread>, i: nat, core: nat, tid: Ptr)
    requires plan.Valid() && i < |plan.cores| && core < plan.cores[i]
    requires Assigned(plan, answers, pos, tids, rthreads, i, core) && pos[i] + 3 <= |answers[i]|
    requires After(PartOf(plan, i), answers[i][..pos[i] + 3]) == Started(PartOf(plan, i), tids[i] + [tid])
    ensures Assigned(plan, answers, pos[i := pos[i] + 3], tids[i := tids[i] + [tid]],
                     rthreads + [RThread(i, tid)], i, core + 1)
  {
    hide After, Started, PartOf, Offset, Threads;
    var pos', tids' := pos[i := pos[i] + 3], tids[i := tids[i] + [tid]];
    forall d | 0 <= d < |tids| ensures
      && StartedAt(plan, answers, pos', tids', d)
      && |tids'[d]| == if d < i then plan.cores[d] else if d == i then core + 1 else 0
    {
      assert StartedAt(plan, answers, pos, tids, d);
    }
    ThreadsMore(plan, tids, rthreads, i, tid);
  }

  lemma ThreadsMore(plan: Plan, tids: seq<seq<Ptr>>, rthreads: seq<RThread>, i: nat, tid: Ptr)
    requires i < |plan.cores| == |tids| && Threads(plan, tids, rthreads)
    requires |rthreads| == Offset(plan.cores, i) + |tids[i]|
    ensures Threads(plan, tids[i := tids[i] + [tid]], rthreads + [RThread(i, tid)])
  {
    hide Offset;
    var tids', longer := tids[i := tids[i] + [tid]], rthreads + [RThread(i, tid)];
    forall d, j | 0 <= d < |tids'| && 0 <= j < |tids'[d]| ensures ThreadAt(plan, tids', longer, d, j) {
      if j < |tids[d]| {
        assert ThreadAt(plan, tids, rthreads, d, j) && tids'[d][j] == tids[d][j];
      } else {
        assert d == i && tids'[d][j] == tid;
      }
    }
  }

  lemma NextNode(plan: Plan, answers: seq<seq<Response>>, pos: seq<nat>, tids: seq<seq<Ptr>>,
                 rthreads: seq<RThread>, i: nat)
    requires plan.Valid() && i < |plan.cores| && Assigned(plan, answers, pos, tids, rthreads, i, plan.cores[i])
    ensures Assigned(plan, answers, pos, tids, rthreads, i + 1, 0)
  {
    hide StartedAt, Threads, Offset;
    NextOffset(plan.cores, i);
  }

  method AssignAll(plan: Plan, answers: seq<seq<Response>>)
    returns (ok: bool, rthreads: seq<RThread>, pos: seq<nat>, ghost tids: seq<seq<Ptr>>, waiting: nat)
    requires plan.Valid() && |plan.cores| == |answers|
    ensures ok ==> Assigned(plan, answers, pos, tids, rthreads, |plan.cores|, 0)
    ensures ok ==> forall d :: 0 <= d < |answers| ==> !Behind(PartsOf(plan), answers, d, 3)
    ensures !ok ==> waiting < |answers| && Behind(PartsOf(plan), answers, waiting, 3)
                    && forall d :: 0 <= d < waiting ==> !Behind(PartsOf(plan), answers, d, 3)
  {
    hide Assigned, After, Started, PartOf, Offset, SumCores;
    ok, rthreads, waiting := false, [], 0;
    pos, tids := seq(|answers|, _ => 0), seq(|answers|, _ => []);
    NoneAssigned(plan, answers);
    ghost var parts := PartsOf(plan);
    var total := TotalCores(plan.cores);
    var i := 0;
    while i < |plan.cores|
      invariant 0 <= i <= |plan.cores| && |pos| == |tids| == |answers|
      invariant Assigned(plan, answers, pos, tids, rthreads, i, 0)
      invariant forall d :: 0 <= d < i ==> !Behind(parts, answers, d, 3)
    {
      var core := 0;
      while core < plan.cores[i]
        invariant 0 <= core <= plan.cores[i] && |pos| == |tids| == |answers|
        invariant Assigned(plan, answers, pos, tids, rthreads, i, core)
      {
        Facts(plan, answers, pos, tids, rthreads, i, core);
        var j := RangeJob(plan.first, plan.last, total, |rthreads|);
        var done, tid := Assign(PartOf(plan, i), answers[i], pos[i], plan.funcs[i], j, tids[i]);
        if !done {
          waiting := i;
          return;
        }
        OneMoreThread(plan, answers, pos, tids, rthreads, i, core, tid);
        pos := pos[i := pos[i] + 3];
        tids := tids[i := tids[i] + [tid]];
        rthreads := rthreads + [RThread(i, tid)];
        core := core + 1;
      }
      AllStarted(plan, answers, pos, tids, rthreads, i);
      NextNode(plan, answers, pos, tids, rthreads, i);
      i := i + 1;
    }
    ok := true;
  }

  /** What the next assignment on node `i` relies on. */
  lemma Facts(plan: Plan, answers: seq<seq<Response>>, pos: seq<nat>, tids: seq<seq<Ptr>>,
              rthreads: seq<RThread>, i: nat, core: nat)
    requires plan.Valid() && i < |plan.cores| && core < plan.cores[i]
    requires Assigned(plan, answers, pos, tids, rthreads, i, core)
    ensures |pos| == |tids| == |answers| && pos[i] == 3 * core <= |answers[i]| && |tids[i]| == core
    ensures After(PartOf(plan, i), answers[i][..pos[i]]) == Assigning(tids[i])
    ensures |rthreads| < SumCores(plan.cores) && PartOf(plan, i).ranges[core] == plan.Range(|rthreads|)
  {
    hide After, Threads, Offset;
    assert StartedAt(plan, answers, pos, tids, i);
    RangeOf(plan, i, core);
  }

  lemma RangeOf(plan: Plan, d: nat, j: nat)
    requires plan.Valid() && d < |plan.cores| && j < plan.cores[d]
    ensures Offset(plan.cores, d) + j < SumCores(plan.cores)
    ensures PartOf(plan, d).ranges[j] == plan.Range(Offset(plan.cores, d) + j)
  {
    hide Offset, SumCores, RangeJob;
    var part := PartOf(plan, d);
    assert part.ranges[j] in part.ranges;
  }

  lemma AllStarted(plan: Plan, answers: seq<seq<Response>>, pos: seq<nat>, tids: seq<seq<Ptr>>,
                   rthreads: seq<RThread>, i: nat)
    requires plan.Valid() && i < |plan.cores| && Assigned(plan, answers, pos, tids, rthreads, i, plan.cores[i])
    ensures !Behind(PartsOf(plan), answers, i, 3)
  {
    hide After, Started, Threads, Offset;
    assert StartedAt(plan, answers, pos, tids, i);
  }

  method TotalCores(cores: seq<nat>) returns (total: nat)
    ensures total == SumCores(cores)
  {
    total := 0;
    var i := 0;
    while i < |cores|
      invariant 0 <= i <= |cores| && total == SumCores(cores[..i])
    {
      assert cores[..i + 1][..i] == cores[..i];
      total := total + cores[i];
      i := i + 1;
    }
    assert cores[..i] == cores;
  }

  // ----- Collecting

  /** How many of the first `i` ranges are those of node `d`. */
  function Share(cores: seq<nat>, d: nat, i: nat): nat
    requires d < |cores|
  {
    if i <= Offset(cores, d) then 0 else if i - Offset(cores, d) < cores[d] then i - Offset(cores, d) else cores[d]
  }

  lemma ShareOf(cores: seq<nat>, d: nat, e: nat, i: nat)
    requires d < |cores| && e < |cores| && Offset(cores, d) <= i < Offset(cores, d) + cores[d]
    ensures Share(cores, e, i + 1) == Share(cores, e, i) + if e == d then 1 else 0
  {
    NextOffset(cores, d);
    NextOffset(cores, e);
    if e < d {
      Offsets(cores, e + 1, d);
    } else if d < e {
      Offsets(cores, d + 1, e);
    }
  }

  /** The node of the i-th range. */
  lemma Locate(cores: seq<nat>, i: nat) returns (d: nat)
    requires i < SumCores(cores)
    ensures d < |cores| && Offset(cores, d) <= i < Offset(cores, d) + cores[d]
  {
    hide SumCores;
    d := 0;
    Offsets(cores, 0, |cores|);
    while i >= Offset(cores, d + 1)
      invariant d < |cores| && Offset(cores, d) <= i
      decreases |cores| - d
    {
      d := d + 1;
      assert d < |cores|;
    }
    NextOffset(cores, d);
  }

  /** Of every node, its share of the first `i` results has been collected. */
  ghost predicate Collected(plan: Plan, answers: seq<seq<Response>>, pos: seq<nat>, tids: seq<seq<Ptr>>,
                            results: seq<seq<Result>>, i: nat)
    requires plan.Valid()
  {
    && |plan.cores| == |answers| == |pos| == |tids| == |results|
    && forall d :: 0 <= d < |tids| ==> CollectedAt(plan, answers, pos, tids, results, i, d)
  }

  ghost predicate CollectedAt(plan: Plan, answers: seq<seq<Response>>, pos: seq<nat>, tids: seq<seq<Ptr>>,
                              results: seq<seq<Result>>, i: nat, d: nat)
    requires plan.Valid() && d < |plan.cores| == |answers| == |pos| == |tids| == |results|
  {
    && |tids[d]| == plan.cores[d] && |results[d]| == Share(plan.cores, d, i)
    && pos[d] == 3 * plan.cores[d] + 4 * |results[d]| <= |answers[d]|
    && After(PartOf(plan, d), answers[d][..pos[d]]) == Joining(tids[d], results[d])
  }

  lemma NoneCollected(plan: Plan, answers: seq<seq<Response>>, pos: seq<nat>, tids: seq<seq<Ptr>>,
                      rthreads: seq<RThread>)
    requires plan.Valid() && Assigned(plan, answers, pos, tids, rthreads, |plan.cores|, 0)
    ensures Collected(plan, answers, pos, tids, seq(|answers|, _ => []), 0)
    ensures |rthreads| == SumCores(plan.cores) && Threads(plan, tids, rthreads)
    ensures |plan.cores| == |answers| == |pos| == |tids|
  {
    hide After, PartOf, Threads;
    Offsets(plan.cores, 0, |plan.cores|);
    var none: seq<seq<Result>> := seq(|answers|, _ => []);
    forall d | 0 <= d < |answers| ensures CollectedAt(plan, answers, pos, tids, none, 0, d) {
      assert StartedAt(plan, answers, pos, tids, d);
      assert |PartOf(plan, d).ranges| == plan.cores[d];
    }
  }

  lemma OneMoreResult(plan: Plan, answers: seq<seq<Response>>, pos: seq<nat>, tids: seq<seq<Ptr>>,
                      results: seq<seq<Result>>, i: nat, d: nat, res: Result)
    requires plan.Valid() && Collected(plan, answers, pos, tids, results, i)
    requires d < |plan.cores| && Offset(plan.cores, d) <= i < Offset(plan.cores, d) + plan.cores[d]
    requires pos[d] + 4 <= |answers[d]|
    requires After(PartOf(plan, d), answers[d][..pos[d] + 4]) == Joining(tids[d], results[d] + [res])
    ensures Collected(plan, answers, pos[d := pos[d] + 4], tids, results[d := results[d] + [res]], i + 1)
  {
    hide After, PartOf, Share, Offset;
    var pos', results', next := pos[d := pos[d] + 4], results[d := results[d] + [res]], i + 1;
    forall e | 0 <= e < |tids| ensures CollectedAt(plan, answers, pos', tids, results', next, e) {
      assert CollectedAt(plan, answers, pos, tids, results, i, e);
      ShareOf(plan.cores, d, e, i);
    }
  }

  /** What collecting the i-th result relies on. */
  lemma NextThread(plan: Plan, answers: seq<seq<Response>>, pos: seq<nat>, tids: seq<seq<Ptr>>,
                   results: seq<seq<Result>>, rthreads: seq<RThread>, i: nat)
    requires plan.Valid() && Collected(plan, answers, pos, tids, results, i)
    requires Threads(plan, tids, rthreads) && i < SumCores(plan.cores) == |rthreads|
    ensures var d := rthreads[i].node;
            && d < |plan.cores| && Offset(plan.cores, d) <= i < Offset(plan.cores, d) + plan.cores[d]
            && |results[d]| == i - Offset(plan.cores, d) < |tids[d]| == |PartOf(plan, d).ranges|
            && tids[d][|results[d]|] == rthreads[i].tid
            && PartOf(plan, d).ranges[|results[d]|] == plan.Range(i)
            && pos[d] == 3 * plan.cores[d] + 4 * |results[d]| <= |answers[d]|
            && After(PartOf(plan, d), answers[d][..pos[d]]) == Joining(tids[d], results[d])
  {
    hide After, Offset, SumCores;
    var d := Locate(plan.cores, i);
    assert CollectedAt(plan, answers, pos, tids, results, i, d);
    var j := i - Offset(plan.cores, d);
    assert ThreadAt(plan, tids, rthreads, d, j);
  }

  /** The j-th result of a node's part is right. */
  lemma ResultIsRight(plan: Plan, starts: seq<Node<Remote>>, cs: seq<Conn>, d: nat, k: nat, i: nat,
                      tids: seq<Ptr>, results: seq<Result>, res: Result)
    requires plan.Valid() && ClusterInv(PartsOf(plan), starts, cs) && Prepared(PartsOf(plan), starts)
    requires d < |cs| && k <= |Got(cs[d])| && |results| < |PartOf(plan, d).ranges| && i < SumCores(plan.cores)
    requires PartOf(plan, d).ranges[|results|] == plan.Range(i)
    requires After(PartOf(plan, d), Got(cs[d])[..k]) == Joining(tids, results + [res])
    ensures Right(res, plan.Range(i))
  {
    hide ConnInv, AllBounded, Jobs.Inv, After, Right, PartOf;
    var longer := results + [res];
    ResultsAreRight(PartsOf(plan)[d], starts[d], cs[d], k);
    assert Right(longer[|results|], PartOf(plan, d).ranges[|results|]);
  }

  method CollectAll(plan: Plan, answers: seq<seq<Response>>, rthreads: seq<RThread>, pos0: seq<nat>,
                    ghost tids: seq<seq<Ptr>>, ghost starts: seq<Node<Remote>>, ghost cs: seq<Conn>)
    returns (ok: bool, found: seq<Result>, primesTotal: int, waiting: nat)
    requires plan.Valid() && Prepared(PartsOf(plan), starts) && ClusterInv(PartsOf(plan), starts, cs)
    requires answers == Gots(cs) && Assigned(plan, answers, pos0, tids, rthreads, |plan.cores|, 0)
    ensures ok ==> |found| == SumCores(plan.cores) && forall i :: 0 <= i < |found| ==> Right(found[i], plan.Range(i))
    ensures ok ==> primesTotal == CountUpTo(plan.first, plan.last, SumCores(plan.cores), SumCores(plan.cores))
    ensures ok ==> Finished(PartsOf(plan), answers)
    ensures !ok ==> waiting < |answers| && Behind(PartsOf(plan), answers, waiting, 7)
                    && forall d :: 0 <= d < waiting ==> !Behind(PartsOf(plan), answers, d, 7)
  {
    hide Assigned, After, PartOf, Offset, SumCores, Collected, Threads, ClusterInv, Prepared, Right, PrimesIn, Start,
      End;
    ok, found, primesTotal, waiting := false, [], 0, 0;
    var pos := pos0;
    ghost var results: seq<seq<Result>> := seq(|answers|, _ => []);
    NoneCollected(plan, answers, pos, tids, rthreads);
    var total := TotalCores(plan.cores);
    var i := 0;
    while i < total
      invariant 0 <= i <= total == |rthreads| && |found| == i && |pos| == |results| == |answers|
      invariant Collected(plan, answers, pos, tids, results, i)
      invariant forall k :: 0 <= k < i ==> Right(found[k], plan.Range(k))
      invariant primesTotal == CountUpTo(plan.first, plan.last, total, i)
    {
      NextThread(plan, answers, pos, tids, results, rthreads, i);
      var d := rthreads[i].node;
      var done, res := Collect(PartOf(plan, d), answers[d], pos[d], rthreads[i].tid, tids[d], results[d]);
      if !done {
        waiting := d;
        Uncollected(plan, answers, pos, tids, results, i, d);
        return;
      }
      ResultIsRight(plan, starts, cs, d, pos[d] + 4, i, tids[d], results[d], res);
      SizeIsCount(plan, i, res);
      OneMoreResult(plan, answers, pos, tids, results, i, d, res);
      pos := pos[d := pos[d] + 4];
      results := results[d := results[d] + [res]];
      found := found + [res];
      primesTotal := primesTotal + res.size;
      i := i + 1;
    }
    ok := true;
    AllCollected(plan, answers, pos, tids, results);
  }

  lemma SizeIsCount(plan: Plan, i: nat, res: Result)
    requires plan.Valid() && i < SumCores(plan.cores) && Right(res, plan.Range(i))
    ensures res.size == |PrimesIn(Start(plan.first, plan.last, SumCores(plan.cores), i),
                                  End(plan.first, plan.last, SumCores(plan.cores), i))|
  {
    RangeIsBounded(plan, i);
  }

  /** The nodes before the one that the client waits for have answered everything. */
  lemma Uncollected(plan: Plan, answers: seq<seq<Response>>, pos: seq<nat>, tids: seq<seq<Ptr>>,
                    results: seq<seq<Result>>, i: nat, d: nat)
    requires plan.Valid() && Collected(plan, answers, pos, tids, results, i)
    requires d < |plan.cores| && Offset(plan.cores, d) <= i < Offset(plan.cores, d) + plan.cores[d]
    requires |answers[d]| < pos[d] + 4
    ensures Behind(PartsOf(plan), answers, d, 7)
    ensures forall e :: 0 <= e < d ==> !Behind(PartsOf(plan), answers, e, 7)
  {
    hide After, Offset;
    assert CollectedAt(plan, answers, pos, tids, results, i, d);
    assert |PartOf(plan, d).ranges| == plan.cores[d];
    forall e | 0 <= e < d ensures !Behind(PartsOf(plan), answers, e, 7) {
      assert CollectedAt(plan, answers, pos, tids, results, i, e);
      assert |PartOf(plan, e).ranges| == plan.cores[e];
      NextOffset(plan.cores, e);
      Offsets(plan.cores, e + 1, d);
    }
  }

  lemma AllCollected(plan: Plan, answers: seq<seq<Response>>, pos: seq<nat>, tids: seq<seq<Ptr>>,
                     results: seq<seq<Result>>)
    requires plan.Valid() && Collected(plan, answers, pos, tids, results, SumCores(plan.cores))
    ensures Finished(PartsOf(plan), answers)
  {
    hide After, Offset;
    forall e | 0 <= e < |answers| ensures !Behind(PartsOf(plan), answers, e, 7) {
      assert CollectedAt(plan, answers, pos, tids, results, SumCores(plan.cores), e);
      assert |PartOf(plan, e).ranges| == plan.cores[e];
      NextOffset(plan.cores, e);
      Offsets(plan.cores, e + 1, |plan.cores|);
    }
  }

  // ----- The whole program

  /** The count, in any state of any run of the whole system. It is finished if and only if every call has
      returned; then each result is right and the total is the number of primes of the closed range.
      Otherwise the client waits for the node whose turn it is. */
  method CountPrimes(plan: Plan, answers: seq<seq<Response>>, ghost starts: seq<Node<Remote>>, ghost cs: seq<Conn>)
    returns (ok: bool, found: seq<Result>, primesTotal: int, waiting: nat)
    requires plan.Valid() && Prepared(PartsOf(plan), starts) && ClusterInv(PartsOf(plan), starts, cs)
    requires answers == Gots(cs)
    ensures ok <==> Finished(PartsOf(plan), answers)
    ensures ok ==> primesTotal == |PrimesIn(plan.first, plan.last)| <= INT_MAX
    ensures ok ==> |found| == SumCores(plan.cores) && forall i :: 0 <= i < |found| ==> Right(found[i], plan.Range(i))
    ensures !ok ==> IsTurn(PartsOf(plan), answers, waiting)
  {
    hide Assigned, ConnInv, Prepared, Right, PrimesIn, Start, End, SumCores;
    assert |PartsOf(plan)| == |plan.cores| == |answers|;
    var rthreads, pos;
    ghost var tids;
    ok, rthreads, pos, tids, waiting := AssignAll(plan, answers);
    if !ok {
      WaitsToAssign(PartsOf(plan), answers, waiting);
      return false, [], 0, waiting;
    }
    ok, found, primesTotal, waiting := CollectAll(plan, answers, rthreads, pos, tids, starts, cs);
    if ok {
      var total := SumCores(plan.cores);
      CountsAddUp(plan.first, plan.last, total, total);
      Tiles(plan.first, plan.last, total, total - 1);
      PrimesInSpec(plan.first, plan.last);
    } else {
      WaitsToCollect(PartsOf(plan), answers, waiting);
    }
  }

  lemma WaitsToAssign(parts: seq<Part>, answers: seq<seq<Response>>, d: nat)
    requires d < |parts| == |answers| && Behind(parts, answers, d, 3)
    requires forall e :: 0 <= e < d ==> !Behind(parts, answers, e, 3)
    ensures IsTurn(parts, answers, d) && !Finished(parts, answers)
  {
    assert Behind(parts, answers, d, 7);
  }

  lemma WaitsToCollect(parts: seq<Part>, answers: seq<seq<Response>>, d: nat)
    requires d < |parts| == |answers| && Behind(parts, answers, d, 7)
    requires forall e :: 0 <= e < |parts| ==> !Behind(parts, answers, e, 3)
    requires forall e :: 0 <= e < d ==> !Behind(parts, answers, e, 7)
    ensures IsTurn(parts, answers, d) && !Finished(parts, answers)
  {
    hide Behind;
  }

  /** Under every schedule of the whole system, from the start: some state is reached in which the count is
      finished, unless a node lacks memory for a request that it has in hand or the answer does not fit. */
  lemma CountCompletes(plan: Plan, starts: seq<Node<Remote>>, run: nat -> seq<Conn>) returns (end: nat)
    requires plan.Valid() && |starts| == |plan.cores|
    requires forall d :: 0 <= d < |starts| ==> Jobs.Inv(starts[d], map[], map[])
    requires ClusterInit(PartsOf(plan), starts, run(0))
    requires forall i: nat :: ClusterAdvances(PartsOf(plan), run(i), run(i + 1)) && AllSupplied(run(i))
    ensures Prepared(PartsOf(plan), starts) && ClusterInv(PartsOf(plan), starts, run(end))
    ensures Finished(PartsOf(plan), Gots(run(end)))
  {
    hide ClusterInit, ClusterInv, ClusterAdvances, AllSupplied, Finished, Jobs.Inv, AllBounded, PartOf;
    var parts := PartsOf(plan);
    forall d | 0 <= d < |parts| ensures AllBounded(parts[d]) {
      PartsAreBounded(plan, d);
    }
    ClusterStarts(parts, starts, run(0));
    end := ProgramCompletes(parts, starts, run, 0);
  }
}
