/** The distributed prime count, end to end: one client thread with a connection to each of any number of
    nodes, byte streams, locks, handlers and remote threads in any interleaving. Under every schedule the
    client finishes unless a node lacks memory, and its total is the number of primes of the range. */
module Cluster {
  import opened Bytes
  import opened Wire
  import opened NodeHeap
  import opened NodeModel
  import opened Rpc
  import opened RpcSafety
  import opened RpcProgress
  import opened RemoteHeap
  import opened Search
  import opened Client
  import opened Primes
  import Jobs

  type Conn = State<Node<Remote>>

  /** The node's service, where `find_primes` is loaded at the address that the client has got. */
  ghost function Svc(part: Part): Service<Node<Remote>> {
    NodeService(SearchCode(part.func))
  }

  /** What the calls on a connection have returned, in order. */
  function Got<S>(s: State<S>): (ps: seq<Response>)
    ensures |ps| == |s.outcomes| && forall k :: 0 <= k < |ps| ==> ps[k] == s.outcomes[k].resp
  {
    seq(|s.outcomes|, k requires 0 <= k < |s.outcomes| => s.outcomes[k].resp)
  }

  // ----- One connection

  /** The only thread of the connection is the client's, and every call on it is the one that the client
      makes after the answers so far. */
  ghost predicate Driven(part: Part, s: Conn) {
    && |s.threads| == 1
    && (!s.threads[0].Idle? ==> AsksAt(part, Got(s), |s.outcomes|, s.threads[0].req))
    && forall k :: 0 <= k < |s.acquired| ==> k <= |s.outcomes| && AsksAt(part, Got(s), k, s.acquired[k].req)
  }

  ghost predicate ConnInv(part: Part, n: Node<Remote>, s: Conn) {
    Inv(Svc(part), n, s) && Driven(part, s)
  }

  /** With one thread there is at most one call under way. */
  lemma OneCall(part: Part, n: Node<Remote>, s: Conn)
    requires Inv(Svc(part), n, s) && |s.threads| == 1
    ensures var ph := s.threads[0];
            |s.acquired| == |s.outcomes| + (if HoldsSend(ph) || HoldsRecv(ph) then 1 else 0)
  {
    hide AtomicRun, Exchanges, Fits, EncodeRequests, EncodeResponses, Answers, UnLE, Svc;
    assert StateFlow(s);
    assert |s.acquired[|s.outcomes|..]| == |Receiving(s) + Sending(s)|;
  }

  /** The client begins only the call that comes next. */
  ghost predicate ByClient(part: Part, s: Conn, a: Action) {
    a.Begin? ==> AsksAt(part, Got(s), |s.outcomes|, a.req)
  }

  /** What a step does to the calls of a single thread. */
  lemma StepEffects(part: Part, s: Conn, a: Action, s': Conn)
    requires |s.threads| == 1 && Next(Svc(part), s, a, s')
    ensures |s'.threads| == 1
    ensures s'.acquired == s.acquired + if a.LockSend? then [Call(0, s'.threads[0].req)] else []
    ensures |s'.outcomes| == |s.outcomes| + (if a.UnlockRecv? then 1 else 0) && s.outcomes <= s'.outcomes
    ensures a.LockSend? ==> s.threads[0].WantSend?
    ensures a.UnlockRecv? ==> !s.threads[0].Idle? && s'.threads[0].Idle?
    ensures a.Begin? ==> s.threads[0].Idle? && s'.threads[0] == WantSend(a.req)
    ensures !a.Begin? && !a.UnlockRecv? ==>
              && s'.threads[0].Idle? == s.threads[0].Idle?
              && (!s.threads[0].Idle? ==> s'.threads[0].req == s.threads[0].req)
  {
    hide Svc, DecodeRequest, DecodeResponse, EncodeRequest, EncodeResponse, UnLE, Fits;
  }

  lemma DrivenKeeps(part: Part, n: Node<Remote>, s: Conn, a: Action, s': Conn)
    requires ConnInv(part, n, s) && Next(Svc(part), s, a, s') && ByClient(part, s, a)
    ensures Driven(part, s')
  {
    hide Inv, Svc, Next, Ask, After;
    OneCall(part, n, s);
    StepEffects(part, s, a, s');
    assert forall k :: 0 <= k <= |s.outcomes| ==> Got(s')[..k] == Got(s)[..k];
  }

  lemma ConnKeeps(part: Part, n: Node<Remote>, s: Conn, a: Action, s': Conn)
    requires ConnInv(part, n, s) && Next(Svc(part), s, a, s') && ByClient(part, s, a)
    ensures ConnInv(part, n, s')
  {
    hide Inv, Next, Driven, ByClient, Proper;
    HandlersAnswer(SearchCode(part.func));
    NextKeeps(Svc(part), n, s, a, s');
    DrivenKeeps(part, n, s, a, s');
  }

  /** The calls of the node's history are the client's. */
  lemma HistoryFollows(part: Part, n: Node<Remote>, s: Conn)
    requires ConnInv(part, n, s)
    ensures Follows(part, Exchanges(s.log)) && Got(s) <= Responses(Exchanges(s.log))
    ensures |Exchanges(s.log)| <= |s.acquired|
  {
    hide AtomicRun, Exchanges, Fits, EncodeRequests, EncodeResponses, Answers, UnLE, Ask, After, Svc;
    assert StateFlow(s);
    var xs := Exchanges(s.log);
    forall k | 0 <= k < |xs| ensures AsksAt(part, Responses(xs), k, xs[k].req) {
      assert AsksAt(part, Got(s), k, s.acquired[k].req);
      assert Responses(xs)[..k] == Got(s)[..k];
    }
  }

  /** The node is at the stage that its history tells. */
  lemma ConnStage(part: Part, n: Node<Remote>, s: Conn) returns (jobs: map<Ptr, Job>, held: Blocks)
    requires ConnInv(part, n, s) && AllBounded(part) && Jobs.Inv(n, map[], map[])
    ensures Stage(part, After(part, Responses(Exchanges(s.log))), jobs, held) && Jobs.Inv(s.mem, jobs, held)
  {
    HistoryFollows(part, n, s);
    hide Follows, After, Stage, Jobs.Inv, AtomicRun, Locks, Fitting, Shapes, StateFlow;
    jobs, held := Staged(part, n, s.log, s.mem);
  }

  /** Nothing that serving the request in hand takes is lacking. */
  ghost predicate Supplied(s: Conn) {
    NodeReady(s) && NodeRequest(s).Dispatched? ==> Jobs.Enough(s.mem, NodeRequest(s).req)
  }

  /** Every request that reaches a node, in every interleaving, addresses live memory, a known thread, or
      a thread that can still move: it is sane unless the node lacks memory or the answer does not fit. */
  lemma ClientIsSane(part: Part, n: Node<Remote>, s: Conn)
    requires ConnInv(part, n, s) && AllBounded(part) && Jobs.Inv(n, map[], map[]) && Supplied(s)
    ensures SaneInHand(SearchCode(part.func), s)
  {
    hide Inv, Driven, AllBounded, Jobs.Inv, Jobs.Enough, Sane, Stage, Ask, After, DecodeRequest, UnLE, Exchanges, Svc;
    if NodeReady(s) && NodeRequest(s).Dispatched? {
      var jobs, held := ConnStage(part, n, s);
      var c := InHand(part, n, s);
      StageIsSane(part, c, s.mem, jobs, held);
    }
  }

  /** The request in hand is the one the client makes after the answers of the history. */
  lemma InHand(part: Part, n: Node<Remote>, s: Conn) returns (c: Progress)
    requires ConnInv(part, n, s) && NodeReady(s) && NodeRequest(s).Dispatched?
    ensures c == After(part, Responses(Exchanges(s.log))) && Ask(part, c) == Some(NodeRequest(s).req)
  {
    hide Inv, DecodeRequest, UnLE, Exchanges, Svc, Ask, After, Follows, Body, Fits;
    HistoryFollows(part, n, s);
    OldestRequest(Svc(part), n, s);
    var xs := Exchanges(s.log);
    assert AsksAt(part, Got(s), |xs|, s.acquired[|xs|].req);
    assert Got(s)[..|xs|] == Responses(xs);
    c := After(part, Responses(xs));
  }

  lemma ConnIsLive(part: Part, n: Node<Remote>, s: Conn)
    requires ConnInv(part, n, s) && AllBounded(part) && Jobs.Inv(n, map[], map[]) && Supplied(s)
    ensures NodeLive(Svc(part), s)
  {
    ClientIsSane(part, n, s);
    hide Inv, Supplied, AllBounded, Jobs.Holding, SaneInHand, NodeLive, Tidy, Valid, Driven;
    SearchIsTame(part.func);
    SaneHandIsLive(SearchCode(part.func), n, s);
  }

  // ----- All connections together

  function Gots<S>(cs: seq<State<S>>): (answers: seq<seq<Response>>)
    ensures |answers| == |cs| && forall d :: 0 <= d < |cs| ==> answers[d] == Got(cs[d])
  {
    seq(|cs|, d requires 0 <= d < |cs| => Got(cs[d]))
  }

  /** Node `d` has answered less than `calls` calls for each of its ranges. */
  predicate Behind(parts: seq<Part>, answers: seq<seq<Response>>, d: nat, calls: nat)
    requires d < |parts| == |answers|
  {
    |answers[d]| < calls * |parts[d].ranges|
  }

  /** The client's next call goes to node `d`: it assigns the ranges node by node, three calls for each,
      then it collects the results node by node, four calls for each. */
  predicate IsTurn(parts: seq<Part>, answers: seq<seq<Response>>, d: nat)
    requires |parts| == |answers|
  {
    && d < |parts|
    && if exists e :: 0 <= e < |parts| && Behind(parts, answers, e, 3)
       then Behind(parts, answers, d, 3) && forall e :: 0 <= e < d ==> !Behind(parts, answers, e, 3)
       else Behind(parts, answers, d, 7) && forall e :: 0 <= e < d ==> !Behind(parts, answers, e, 7)
  }

  /** Every call of the program has returned. */
  predicate Finished(parts: seq<Part>, answers: seq<seq<Response>>)
    requires |parts| == |answers|
  {
    forall d :: 0 <= d < |parts| ==> !Behind(parts, answers, d, 7)
  }

  /** One step of the whole system: something happens on connection `d`. The client begins a call only
      when its previous one has returned, and then the one whose turn it is. */
  ghost predicate ClusterStep(parts: seq<Part>, cs: seq<Conn>, d: nat, a: Action, cs': seq<Conn>) {
    && d < |cs| == |parts| == |cs'|
    && Next(Svc(parts[d]), cs[d], a, cs'[d]) && cs' == cs[d := cs'[d]]
    && (a.Begin? ==>
          && ByClient(parts[d], cs[d], a) && IsTurn(parts, Gots(cs), d)
          && forall e :: 0 <= e < |cs| ==> AllIdle(cs[e]))
  }

  ghost predicate ClusterInit(parts: seq<Part>, starts: seq<Node<Remote>>, cs: seq<Conn>) {
    && |parts| == |starts| == |cs|
    && forall d :: 0 <= d < |cs| ==> Init(cs[d], starts[d]) && |cs[d].threads| == 1
  }

  ghost predicate ClusterInv(parts: seq<Part>, starts: seq<Node<Remote>>, cs: seq<Conn>) {
    && |parts| == |starts| == |cs|
    && forall d :: 0 <= d < |cs| ==> ConnInv(parts[d], starts[d], cs[d])
  }

  /** The searches end, and each node starts with its memory in order: whatever threads are left from
      before work on blocks of their own, and their loops end too. */
  ghost predicate Prepared(parts: seq<Part>, starts: seq<Node<Remote>>) {
    && |parts| == |starts|
    && forall d :: 0 <= d < |parts| ==> AllBounded(parts[d]) && Jobs.Inv(starts[d], map[], map[])
  }

  lemma ClusterStarts(parts: seq<Part>, starts: seq<Node<Remote>>, cs: seq<Conn>)
    requires ClusterInit(parts, starts, cs)
    ensures ClusterInv(parts, starts, cs)
  {
    hide Inv, Svc;
    forall d | 0 <= d < |cs| ensures ConnInv(parts[d], starts[d], cs[d]) {
      InitInv(Svc(parts[d]), cs[d], starts[d]);
    }
  }

  lemma ClusterKeeps(parts: seq<Part>, starts: seq<Node<Remote>>, cs: seq<Conn>, d: nat, a: Action, cs': seq<Conn>)
    requires ClusterInv(parts, starts, cs) && ClusterStep(parts, cs, d, a, cs')
    ensures ClusterInv(parts, starts, cs')
  {
    hide ConnInv, Next, AsksAt, IsTurn, AllIdle, Svc;
    assert ConnInv(parts[d], starts[d], cs[d]);
    ConnKeeps(parts[d], starts[d], cs[d], a, cs'[d]);
  }

  /** A run of the whole system. */
  ghost predicate IsClusterRun(parts: seq<Part>, starts: seq<Node<Remote>>, states: seq<seq<Conn>>) {
    && states != [] && ClusterInit(parts, starts, states[0])
    && forall i :: 0 <= i < |states| - 1 ==> ClusterNext(parts, states[i], states[i + 1])
  }

  ghost predicate ClusterNext(parts: seq<Part>, cs: seq<Conn>, cs': seq<Conn>) {
    exists d, a :: ClusterStep(parts, cs, d, a, cs')
  }

  lemma {:induction false} ClusterRunKeeps(parts: seq<Part>, starts: seq<Node<Remote>>, states: seq<seq<Conn>>, i: nat)
    requires IsClusterRun(parts, starts, states) && i < |states|
    ensures ClusterInv(parts, starts, states[i])
  {
    hide ClusterInit, ClusterInv, ClusterStep;
    if i == 0 {
      ClusterStarts(parts, starts, states[0]);
    } else {
      ClusterRunKeeps(parts, starts, states, i - 1);
      var k := i - 1;
      assert ClusterNext(parts, states[k], states[k + 1]);
      var d, a :| ClusterStep(parts, states[k], d, a, states[k + 1]);
      ClusterKeeps(parts, starts, states[k], d, a, states[k + 1]);
    }
  }

  /** In every state of every run of the whole system, each call that has been made on a connection is the one
      that the program makes there, as a function of the answers that the calls before it have returned. */
  lemma CallsAreExpected(parts: seq<Part>, starts: seq<Node<Remote>>, states: seq<seq<Conn>>, i: nat, d: nat, k: nat)
    requires IsClusterRun(parts, starts, states) && i < |states|
    requires d < |states[i]| && k < |states[i][d].acquired|
    ensures |states[i]| == |parts|
    ensures k <= |states[i][d].outcomes| && k < 7 * |parts[d].ranges|
    ensures states[i][d].acquired[k].req == Expected(parts[d], Got(states[i][d]), k)
  {
    hide IsClusterRun, Inv, AsksAt, Expected;
    ClusterRunKeeps(parts, starts, states, i);
    var s := states[i][d];
    assert ConnInv(parts[d], starts[d], s);
    assert AsksAt(parts[d], Got(s), k, s.acquired[k].req);
    AsksExpected(parts[d], Got(s), k, s.acquired[k].req);
  }

  /** A thread is started on the function that the client has got for the node, and on a block that the node
      has allocated for it and into which the client has copied the bounds of that thread's range. */
  lemma StartsAreRight(parts: seq<Part>, starts: seq<Node<Remote>>, states: seq<seq<Conn>>, i: nat, d: nat, k: nat)
    requires IsClusterRun(parts, starts, states) && i < |states|
    requires d < |states[i]| && k < |states[i][d].acquired| && states[i][d].acquired[k].req.Run?
    ensures |states[i]| == |parts|
    ensures var s, r := states[i][d], states[i][d].acquired[k].req;
            && 2 <= k <= |s.outcomes| && k / 3 < |parts[d].ranges| && r.func == parts[d].func
            && s.outcomes[k - 2].req == Malloc(16) && s.outcomes[k - 2].resp == MallocR(r.args)
            && s.acquired[k - 1].req == MemcpyC2N(r.args, Args(parts[d].ranges[k / 3]))
            && s.outcomes[k - 1].req == s.acquired[k - 1].req
  {
    hide IsClusterRun, ConnInv, Args, Expected;
    CallsAreExpected(parts, starts, states, i, d, k);
    var s := states[i][d];
    ExpectedRun(parts[d], Got(s), k);
    CallsAreExpected(parts, starts, states, i, d, k - 1);
    CallsAreExpected(parts, starts, states, i, d, k - 2);
    ClusterRunKeeps(parts, starts, states, i);
    assert ConnInv(parts[d], starts[d], s);
    OwnOutcome(parts[d], starts[d], s, k - 2);
    OwnOutcome(parts[d], starts[d], s, k - 1);
  }

  /** What a call returned answers it. */
  lemma OwnOutcome(part: Part, n: Node<Remote>, s: Conn, k: nat)
    requires ConnInv(part, n, s) && k < |s.outcomes|
    ensures k < |s.acquired| && s.acquired[k].tid == s.outcomes[k].tid && s.acquired[k].req == s.outcomes[k].req
    ensures Answers(s.outcomes[k].req, s.outcomes[k].resp)
  {
    hide AtomicRun, Exchanges, Fits, EncodeRequests, EncodeResponses, Answers, UnLE, Svc, AsksAt;
    assert StateFlow(s);
  }

  // ----- A measure that every step lowers

  function Sum(xs: seq<nat>): nat {
    if xs == [] then 0 else xs[0] + Sum(xs[1..])
  }

  lemma {:induction false} SumUpdate(xs: seq<nat>, d: nat, x: nat)
    requires d < |xs|
    ensures Sum(xs[d := x]) == Sum(xs) - xs[d] + x
  {
    if d == 0 {
      assert xs[0 := x][1..] == xs[1..];
    } else {
      SumUpdate(xs[1..], d - 1, x);
      assert xs[d := x][1..] == xs[1..][d - 1 := x];
    }
  }

  /** Calls that the client has not begun on the connection. */
  ghost function Left(part: Part, s: Conn): nat {
    var left := CallsLeft(part, After(part, Got(s)));
    if AllIdle(s) || left == 0 then left else left - 1
  }

  ghost function Lefts(parts: seq<Part>, cs: seq<Conn>): (xs: seq<nat>)
    requires |parts| == |cs|
    ensures |xs| == |cs| && forall d :: 0 <= d < |cs| ==> xs[d] == Left(parts[d], cs[d])
  {
    seq(|cs|, d requires 0 <= d < |cs| => Left(parts[d], cs[d]))
  }

  ghost function Owed(s: Conn): nat {
    if Undone(s) >= 0 then Undone(s) else 0
  }

  ghost function Work(s: Conn): nat {
    NodeRank(SearchRank)(s.mem)
  }

  ghost function Each(f: Conn -> nat, cs: seq<Conn>): (xs: seq<nat>)
    ensures |xs| == |cs| && forall d :: 0 <= d < |cs| ==> xs[d] == f(cs[d])
  {
    seq(|cs|, d requires 0 <= d < |cs| => f(cs[d]))
  }

  lemma EachUpdate(f: Conn -> nat, cs: seq<Conn>, d: nat, s: Conn)
    requires d < |cs|
    ensures Sum(Each(f, cs[d := s])) == Sum(Each(f, cs)) - f(cs[d]) + f(s)
  {
    assert Each(f, cs[d := s]) == Each(f, cs)[d := f(s)];
    SumUpdate(Each(f, cs), d, f(s));
  }

  lemma LeftsUpdate(parts: seq<Part>, cs: seq<Conn>, d: nat, s: Conn)
    requires d < |cs| == |parts|
    ensures Sum(Lefts(parts, cs[d := s])) == Sum(Lefts(parts, cs)) - Left(parts[d], cs[d]) + Left(parts[d], s)
  {
    hide Left;
    assert Lefts(parts, cs[d := s]) == Lefts(parts, cs)[d := Left(parts[d], s)];
    SumUpdate(Lefts(parts, cs), d, Left(parts[d], s));
  }

  /** A call that begins is one less to begin; every other step leaves that number alone. */
  lemma LeftLowers(part: Part, n: Node<Remote>, s: Conn, a: Action, s': Conn)
    requires ConnInv(part, n, s) && Next(Svc(part), s, a, s') && ByClient(part, s, a)
    ensures a.Begin? ==> Left(part, s') < Left(part, s)
    ensures !a.Begin? ==> Left(part, s') == Left(part, s)
  {
    hide Inv, Svc, Next, CallsLeft, Ask, Learn;
    StepEffects(part, s, a, s');
    var c := After(part, Got(s));
    assert Got(s)[..|s.outcomes|] == Got(s);
    AskLeft(part, c);
    if a.UnlockRecv? {
      var ps := Got(s');
      assert ps[..|ps| - 1] == Got(s);
      LearnLeft(part, c, ps[|ps| - 1]);
    } else {
      assert Got(s') == Got(s);
    }
  }

  /** (calls not begun, undispatched calls, remote work, local steps), summed over the connections, gets
      smaller lexicographically with every step. */
  lemma ClusterDecreases(parts: seq<Part>, starts: seq<Node<Remote>>, cs: seq<Conn>, d: nat, a: Action, cs': seq<Conn>)
    requires ClusterInv(parts, starts, cs) && ClusterStep(parts, cs, d, a, cs')
    ensures Sum(Lefts(parts, cs')) <= Sum(Lefts(parts, cs))
    ensures a.Begin? ==> Sum(Lefts(parts, cs')) < Sum(Lefts(parts, cs))
    ensures !a.Begin? ==>
              var owed, owed' := Sum(Each(Owed, cs)), Sum(Each(Owed, cs'));
              var work, work' := Sum(Each(Work, cs)), Sum(Each(Work, cs'));
              && owed' <= owed && (owed' == owed ==> work' <= work)
              && (owed' == owed && work' == work ==> Sum(Each(Local, cs')) < Sum(Each(Local, cs)))
  {
    hide ConnInv, Next, AsksAt, IsTurn, AllIdle, Svc, Left, Sum, Local, Work, Owed;
    var s, s' := cs[d], cs'[d];
    assert ConnInv(parts[d], starts[d], s);
    LeftLowers(parts[d], starts[d], s, a, s');
    LeftsUpdate(parts, cs, d, s');
    if !a.Begin? {
      ConnDecreases(parts[d], starts[d], s, a, s');
      EachUpdate(Owed, cs, d, s');
      EachUpdate(Work, cs, d, s');
      EachUpdate(Local, cs, d, s');
    }
  }

  lemma ConnDecreases(part: Part, n: Node<Remote>, s: Conn, a: Action, s': Conn)
    requires ConnInv(part, n, s) && Next(Svc(part), s, a, s') && !a.Begin?
    ensures Owed(s') <= Owed(s) && (Owed(s') == Owed(s) ==> Work(s') <= Work(s))
    ensures Owed(s') == Owed(s) && Work(s') == Work(s) ==> Local(s') < Local(s)
  {
    hide Inv, Next, Driven, NodeRank, Local, Undone, Terminating, Tidy, Ranked, Proper;
    SearchIsTame(part.func);
    HandlersAnswer(SearchCode(part.func));
    WorkIsFinite(SearchCode(part.func), SearchRank);
    NotNegative(Svc(part), n, s);
    StepDecreases(Svc(part), n, NodeRank(SearchRank), s, a, s');
  }

  // ----- Completion

  ghost predicate AllSupplied(cs: seq<Conn>) {
    forall d :: 0 <= d < |cs| ==> Supplied(cs[d])
  }

  ghost predicate CanAdvance(parts: seq<Part>, cs: seq<Conn>) {
    exists cs' :: ClusterNext(parts, cs, cs')
  }

  /** The scheduler takes some step, any step, as long as there is one. */
  ghost predicate ClusterAdvances(parts: seq<Part>, cs: seq<Conn>, cs': seq<Conn>) {
    ClusterNext(parts, cs, cs') || (cs' == cs && !CanAdvance(parts, cs))
  }

  lemma WhoseTurn(parts: seq<Part>, answers: seq<seq<Response>>) returns (d: nat)
    requires |parts| == |answers| && !Finished(parts, answers)
    ensures IsTurn(parts, answers, d)
  {
    hide Behind;
    if e :| 0 <= e < |parts| && Behind(parts, answers, e, 3) {
      d := FirstBehind(parts, answers, 3);
    } else {
      d := FirstBehind(parts, answers, 7);
    }
  }

  lemma FirstBehind(parts: seq<Part>, answers: seq<seq<Response>>, calls: nat) returns (d: nat)
    requires |parts| == |answers| && exists e :: 0 <= e < |parts| && Behind(parts, answers, e, calls)
    ensures d < |parts| && Behind(parts, answers, d, calls)
    ensures forall e :: 0 <= e < d ==> !Behind(parts, answers, e, calls)
  {
    hide Behind;
    d := 0;
    while !Behind(parts, answers, d, calls)
      invariant d < |parts| && forall e :: 0 <= e < d ==> !Behind(parts, answers, e, calls)
      invariant exists e :: d <= e < |parts| && Behind(parts, answers, e, calls)
      decreases |parts| - d
    {
      d := d + 1;
    }
  }

  /** When its turn comes, the client can begin its call. */
  lemma CanBegin(part: Part, n: Node<Remote>, s: Conn) returns (a: Action, s': Conn)
    requires ConnInv(part, n, s) && AllIdle(s) && |s.outcomes| < 7 * |part.ranges|
    ensures a.Begin? && ByClient(part, s, a) && Next(Svc(part), s, a, s')
  {
    hide Inv, CallsLeft, Ask, After, Svc, Fits;
    var c := After(part, Got(s));
    CallsLeftAfter(part, Got(s));
    AskLeft(part, c);
    AskFits(part, c);
    assert Got(s)[..|s.outcomes|] == Got(s);
    a := Begin(0, Ask(part, c).value);
    s' := Move(s, 0, WantSend(a.req));
  }

  /** While the program is not finished, something can happen. */
  lemma ClusterMoves(parts: seq<Part>, starts: seq<Node<Remote>>, cs: seq<Conn>)
    requires ClusterInv(parts, starts, cs) && Prepared(parts, starts) && AllSupplied(cs)
    requires !Finished(parts, Gots(cs))
    ensures CanAdvance(parts, cs)
  {
    hide ConnInv, Next, ByClient, AllIdle, Svc, AllBounded, Jobs.Inv, Supplied, IsTurn, CanStep, NodeLive;
    var d: nat, a: Action, s': Conn;
    if e :| 0 <= e < |cs| && !AllIdle(cs[e]) {
      d := e;
      ConnIsLive(parts[d], starts[d], cs[d]);
      a, s' := ConnMoves(parts[d], starts[d], cs[d]);
    } else {
      d := WhoseTurn(parts, Gots(cs));
      TurnIsBehind(parts, Gots(cs), d);
      a, s' := CanBegin(parts[d], starts[d], cs[d]);
    }
    assert ClusterStep(parts, cs, d, a, cs[d := s']);
    assert ClusterNext(parts, cs, cs[d := s']);
  }

  lemma TurnIsBehind(parts: seq<Part>, answers: seq<seq<Response>>, d: nat)
    requires |parts| == |answers| && IsTurn(parts, answers, d)
    ensures d < |parts| && |answers[d]| < 7 * |parts[d].ranges|
  {
  }

  lemma ConnMoves(part: Part, n: Node<Remote>, s: Conn) returns (a: Action, s': Conn)
    requires ConnInv(part, n, s) && NodeLive(Svc(part), s) && !AllIdle(s)
    ensures !a.Begin? && Next(Svc(part), s, a, s')
  {
    hide Inv, Driven, AllIdle, NodeLive, Next, Svc;
    NoDeadlock(Svc(part), n, s);
    a, s' :| Steps(Svc(part), s, a, s');
  }

  /** Every schedule of the whole system finishes the program, unless some node lacks memory for a request
      that it has in hand, or the answer to it would not fit into a message. */
  lemma {:induction false} ProgramCompletes(parts: seq<Part>, starts: seq<Node<Remote>>, run: nat -> seq<Conn>,
                                           from: nat)
    returns (end: nat)
    requires Prepared(parts, starts) && ClusterInv(parts, starts, run(from))
    requires forall i: nat :: i >= from ==> ClusterAdvances(parts, run(i), run(i + 1)) && AllSupplied(run(i))
    ensures end >= from && ClusterInv(parts, starts, run(end)) && Finished(parts, Gots(run(end)))
    decreases Sum(Lefts(parts, run(from))), Sum(Each(Owed, run(from))), Sum(Each(Work, run(from))),
              Sum(Each(Local, run(from)))
  {
    hide ClusterStep, Finished, AllSupplied, Prepared, Sum, Owed, Work, Local, Gots, Lefts, Each, ConnInv;
    var cs, cs' := run(from), run(from + 1);
    if Finished(parts, Gots(cs)) {
      end := from;
    } else {
      assert AllSupplied(cs) && ClusterAdvances(parts, cs, cs');
      ClusterMoves(parts, starts, cs);
      var d, a :| ClusterStep(parts, cs, d, a, cs');
      ClusterKeeps(parts, starts, cs, d, a, cs');
      ClusterDecreases(parts, starts, cs, d, a, cs');
      end := ProgramCompletes(parts, starts, run, from + 1);
    }
  }
}
