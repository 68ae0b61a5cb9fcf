/** Progress of the call protocol: no deadlock, and every set of calls completes under every
    schedule. There is no fairness assumption; a schedule only has to keep taking some step while
    one is possible. */
module RpcProgress {
  import opened Bytes
  import opened Wire
  import opened Rpc
  import opened RpcSafety

  // ----- A measure that every step lowers

  /** Steps left in a call, counting the bytes it still has to put on the wire. */
  function Weight(ph: Phase): nat {
    match ph
    case Idle => 0
    case ReadBody(_, _, _) => 1
    case ReadHead(_, _) => 2
    case HoldBoth(_) => 3
    case WantRecv(_) => 4
    case HoldSend(req) => 5 + |EncodeRequest(req)|
    case WantSend(req) => 6 + |EncodeRequest(req)|
  }

  function Total(threads: seq<Phase>): nat {
    if threads == [] then 0 else Weight(threads[0]) + Total(threads[1..])
  }

  /** Threads that have not acquired `send_mut` for their call. */
  function Waiting(threads: seq<Phase>): nat {
    if threads == [] then 0
    else (if threads[0].WantSend? then 1 else 0) + Waiting(threads[1..])
  }

  lemma {:induction false} Update(threads: seq<Phase>, t: nat, ph: Phase)
    requires t < |threads|
    ensures Total(threads[t := ph]) == Total(threads) - Weight(threads[t]) + Weight(ph)
    ensures Waiting(threads[t := ph])
         == Waiting(threads) - (if threads[t].WantSend? then 1 else 0) + (if ph.WantSend? then 1 else 0)
  {
    hide Weight;
    if t == 0 {
      assert threads[0 := ph] == [ph] + threads[1..];
    } else {
      Update(threads[1..], t - 1, ph);
      assert threads[t := ph] == [threads[0]] + threads[1..][t - 1 := ph];
    }
  }

  function NodeWeight(node: NodePhase): nat {
    match node
    case NodeBody(_, _) => 1
    case NodeHead(_) => 2
    case NodeReply(msg) => 3 + |msg|
  }

  /** Calls the node has not dispatched yet. */
  function Undone<S>(s: State<S>): int {
    Waiting(s.threads) + |s.acquired| - |Exchanges(s.log)|
  }

  /** Steps left before the node's next dispatch, at most. */
  function Local<S>(s: State<S>): nat {
    Total(s.threads) + |s.c2n| + |s.n2c| + NodeWeight(s.node)
  }

  /** Remote threads terminate: `rank` bounds the steps they can still take by themselves. */
  ghost predicate Ranked<S(!new)>(svc: Service<S>, rank: S -> nat) {
    forall m, m' :: svc.background(m, m') ==> rank(m') < rank(m)
  }

  /** (undispatched calls, remote work, local steps) gets smaller, lexicographically. */
  ghost predicate Lower<S>(rank: S -> nat, s: State<S>, s': State<S>) {
    && Undone(s') <= Undone(s)
    && (Undone(s') == Undone(s) ==> rank(s'.mem) <= rank(s.mem))
    && (Undone(s') == Undone(s) && rank(s'.mem) == rank(s.mem) ==> Local(s') < Local(s))
  }

  lemma DispatchDecreases<S(!new)>(svc: Service<S>, init: S, rank: S -> nat, s: State<S>, a: Action, s': State<S>)
    requires Inv(svc, init, s) && Next(svc, s, a, s') && a.NodeDispatch?
    ensures Lower(rank, s, s')
  {
    hide Inv, Exchanges, DecodeRequest, EncodeResponse, UnLE, Total, Waiting;
    OldestRequest(svc, init, s);
    ServedOne(s.log, s'.log[|s.log|]);
  }

  lemma WorkDecreases<S(!new)>(svc: Service<S>, rank: S -> nat, s: State<S>, a: Action, s': State<S>)
    requires Ranked(svc, rank) && Next(svc, s, a, s') && a.NodeBackground?
    ensures Lower(rank, s, s')
  {
    hide Exchanges, Total, Waiting;
    ServedOne(s.log, Event.Background);
  }

  lemma NodeDecreases<S>(svc: Service<S>, rank: S -> nat, s: State<S>, a: Action, s': State<S>)
    requires Next(svc, s, a, s') && (a.NodeRecvHead? || a.NodeHeadDone? || a.NodeRecvBody? || a.NodeSend?)
    ensures Lower(rank, s, s')
  {
    hide Exchanges, Total, Waiting, UnLE;
  }

  lemma LockDecreases<S>(svc: Service<S>, rank: S -> nat, s: State<S>, a: Action, s': State<S>)
    requires Next(svc, s, a, s') && (a.LockSend? || a.Send? || a.LockRecv? || a.UnlockSend?)
    ensures Lower(rank, s, s')
  {
    hide Exchanges, EncodeRequest, Total, Waiting;
    Update(s.threads, a.tid, s'.threads[a.tid]);
    assert s'.threads == s.threads[a.tid := s'.threads[a.tid]];
  }

  lemma ReadDecreases<S>(svc: Service<S>, rank: S -> nat, s: State<S>, a: Action, s': State<S>)
    requires Next(svc, s, a, s') && (a.RecvHead? || a.HeadDone? || a.RecvBody? || a.UnlockRecv?)
    ensures Lower(rank, s, s')
  {
    hide Exchanges, UnLE, DecodeResponse, Total, Waiting;
    Update(s.threads, a.tid, s'.threads[a.tid]);
    assert s'.threads == s.threads[a.tid := s'.threads[a.tid]];
  }

  /** Every step except the start of a new call lowers the measure, which never goes below zero. */
  lemma StepDecreases<S(!new)>(svc: Service<S>, init: S, rank: S -> nat, s: State<S>, a: Action, s': State<S>)
    requires Proper(svc) && Ranked(svc, rank)
    requires Inv(svc, init, s) && Next(svc, s, a, s') && !a.Begin?
    ensures 0 <= Undone(s') <= Undone(s)
    ensures Undone(s') == Undone(s) ==> rank(s'.mem) <= rank(s.mem)
    ensures Undone(s') == Undone(s) && rank(s'.mem) == rank(s.mem) ==> Local(s') < Local(s)
  {
    hide Inv, Next, Undone, Local, Ranked, Proper;
    NextKeeps(svc, init, s, a, s');
    NotNegative(svc, init, s');
    match a
    case NodeDispatch => DispatchDecreases(svc, init, rank, s, a, s');
    case NodeBackground => WorkDecreases(svc, rank, s, a, s');
    case NodeRecvHead(_) => NodeDecreases(svc, rank, s, a, s');
    case NodeHeadDone => NodeDecreases(svc, rank, s, a, s');
    case NodeRecvBody(_) => NodeDecreases(svc, rank, s, a, s');
    case NodeSend => NodeDecreases(svc, rank, s, a, s');
    case LockSend(_) => LockDecreases(svc, rank, s, a, s');
    case Send(_) => LockDecreases(svc, rank, s, a, s');
    case LockRecv(_) => LockDecreases(svc, rank, s, a, s');
    case UnlockSend(_) => LockDecreases(svc, rank, s, a, s');
    case RecvHead(_, _) => ReadDecreases(svc, rank, s, a, s');
    case HeadDone(_) => ReadDecreases(svc, rank, s, a, s');
    case RecvBody(_, _) => ReadDecreases(svc, rank, s, a, s');
    case UnlockRecv(_) => ReadDecreases(svc, rank, s, a, s');
  }

  lemma ServedOne(log: seq<Event>, e: Event)
    ensures Exchanges(log + [e]) == Exchanges(log) + if e.Served? then [Exchange(e.req, e.resp)] else []
  {
    assert (log + [e])[..|log|] == log;
  }

  lemma NotNegative<S(!new)>(svc: Service<S>, init: S, s: State<S>)
    requires Inv(svc, init, s)
    ensures Undone(s) >= 0
  {
    hide AtomicRun, Exchanges, Fits, EncodeRequests, EncodeResponses, Answers;
    assert StateFlow(s);
  }

  // ----- No deadlock

  /** The request the node has in hand can be served, now or after some remote step: no client
      request crashes the node or waits for a remote thread that never ends. */
  ghost predicate NodeLive<S(!new)>(svc: Service<S>, s: State<S>) {
    NodeReady(s) && NodeRequest(s).Dispatched? ==>
      || CanServe(svc, s.mem, NodeRequest(s).req)
      || CanWork(svc, s.mem)
  }

  ghost predicate CanServe<S(!new)>(svc: Service<S>, m: S, r: Request) {
    exists m', p :: svc.serve(m, r, m', p)
  }

  ghost predicate CanWork<S(!new)>(svc: Service<S>, m: S) {
    exists m' :: svc.background(m, m')
  }

  /** Some step other than the start of a new call is possible. */
  ghost predicate CanStep<S(!new)>(svc: Service<S>, s: State<S>) {
    exists a, s' :: Steps(svc, s, a, s')
  }

  ghost predicate Steps<S>(svc: Service<S>, s: State<S>, a: Action, s': State<S>) {
    !a.Begin? && Next(svc, s, a, s')
  }

  lemma NodeCanStep<S(!new)>(svc: Service<S>, init: S, s: State<S>)
    requires Inv(svc, init, s) && NodeLive(svc, s)
    requires s.node.NodeReply? || |Exchanges(s.log)| < Sent(s)
    ensures CanStep(svc, s)
  {
    hide AtomicRun, Exchanges, Fits, DecodeRequest, EncodeResponse, UnLE, Answers, Body, EncodeRequests,
      EncodeResponses, Flow, Locks;
    if s.node.NodeReply? {
      assert Steps(svc, s, NodeSend, s.(node := NodeHead([]), n2c := s.n2c + s.node.msg));
    } else if s.node.NodeHead? && |s.node.got| == REQ_HEAD {
      assert Steps(svc, s, NodeHeadDone, s.(node := NodeBody(s.node.got, [])));
    } else if NodeReady(s) {
      OldestRequest(svc, init, s);
      var r := NodeRequest(s).req;
      if CanServe(svc, s.mem, r) {
        var m, p :| svc.serve(s.mem, r, m, p);
        var s' := s.(mem := m, node := NodeReply(EncodeResponse(p)), log := s.log + [Served(r, p)]);
        assert Steps(svc, s, NodeDispatch, s');
      } else {
        var m :| svc.background(s.mem, m);
        assert Steps(svc, s, NodeBackground, s.(mem := m, log := s.log + [Event.Background]));
      }
    } else {
      MoreRequestBytes(svc, init, s);
      if s.node.NodeHead? {
        assert Steps(svc, s, NodeRecvHead(1), s.(node := NodeHead(s.node.got + s.c2n[..1]), c2n := s.c2n[1..]));
      } else {
        assert Steps(svc, s, NodeRecvBody(1),
                     s.(node := NodeBody(s.node.head, s.node.got + s.c2n[..1]), c2n := s.c2n[1..]));
      }
    }
  }

  /** While a sent request is incomplete at the node, the rest of it is on the wire. */
  lemma MoreRequestBytes<S(!new)>(svc: Service<S>, init: S, s: State<S>)
    requires Inv(svc, init, s) && |Exchanges(s.log)| < Sent(s) && !s.node.NodeReply?
    requires s.node.NodeHead? ==> |s.node.got| < REQ_HEAD
    requires s.node.NodeBody? ==> |s.node.got| < HeadSize(s.node.head)
    ensures s.c2n != []
  {
    hide AtomicRun, Exchanges, Flow, UnLE, Locks, Fitting;
    var head, got := if s.node.NodeHead? then s.node.got else s.node.head, if s.node.NodeHead? then [] else s.node.got;
    assert head + got == NodeRead(s.node);
    FlowMore(s.acquired, Exchanges(s.log), s.outcomes, Sent(s), Receiving(s) + Sending(s), head, got, s.c2n,
             ResponseBytes(s));
  }

  /** While a computed response is incomplete at its reader, the rest of it is on the wire. */
  lemma MoreResponseBytes<S(!new)>(svc: Service<S>, init: S, s: State<S>, t: nat)
    requires Inv(svc, init, s) && |s.outcomes| < |Exchanges(s.log)| && !s.node.NodeReply?
    requires t < |s.threads|
    requires || (s.threads[t].ReadHead? && |s.threads[t].got| < RESP_HEAD)
             || (s.threads[t].ReadBody? && |s.threads[t].got| < UnLE(s.threads[t].head))
    ensures s.n2c != []
  {
    hide AtomicRun, Exchanges, DecodeRequest, DecodeResponse, UnLE, Fits, EncodeRequests;
    assert StateFlow(s) && s.recvOwner == Some(t);
    var xs, n, ph := Exchanges(s.log), |s.outcomes|, s.threads[t];
    var ps := Responses(xs[n..]);
    assert s.n2c + Reply(s.node) == s.n2c;
    assert ResponseBytes(s) == ClientRead(ph) + s.n2c == EncodeResponses(ps);
    if ph.ReadBody? {
      forall p | p in ps ensures RESP_HEAD + |ResponseBody(p)| <= INT_MAX {
        var i :| 0 <= i < |ps| && ps[i] == p;
        assert Answers(xs[n + i].req, xs[n + i].resp);
      }
      Assoc(ph.head, ph.got, s.n2c);
      FirstResponseHead(ph.head, ph.got + s.n2c, ps);
    } else {
      assert |EncodeResponses(ps)| >= |EncodeResponse(ps[0])|;
    }
  }

  /** The `recv_mut` holder, or the node on its behalf, can step. */
  lemma ReceiverCanStep<S(!new)>(svc: Service<S>, init: S, s: State<S>, t: nat)
    requires Inv(svc, init, s) && NodeLive(svc, s)
    requires t < |s.threads| && HoldsRecv(s.threads[t])
    ensures CanStep(svc, s)
  {
    hide AtomicRun, Exchanges, Fits, DecodeRequest, DecodeResponse, EncodeRequest, EncodeResponse, UnLE,
      Answers, Body, ResponseBody, EncodeRequests, EncodeResponses, NodeLive;
    var ph := s.threads[t];
    assert s.recvOwner == Some(t);
    if ph.HoldBoth? {
      assert Steps(svc, s, UnlockSend(t), Move(s, t, ReadHead(ph.req, [])).(sendOwner := None));
    } else if ph.ReadHead? && |ph.got| == RESP_HEAD {
      assert Steps(svc, s, HeadDone(t), Move(s, t, ReadBody(ph.req, ph.got, [])));
    } else if ph.ReadBody? && |ph.got| == UnLE(ph.head) {
      OwnResponse(svc, init, s, t);
      assert Steps(svc, s, UnlockRecv(t), Move(s, t, Idle).(recvOwner := None,
                   outcomes := s.outcomes + [Outcome(t, ph.req, DecodeResponse(ph.req, ph.got).value)]));
    } else if s.node.NodeReply? {
      NodeCanStep(svc, init, s);
    } else if |s.outcomes| < |Exchanges(s.log)| {
      MoreResponseBytes(svc, init, s, t);
      ReadOne(svc, s, t);
    } else {
      FlowOrder(svc, init, s);
      UnansweredIsSent(svc, init, s, t);
      NodeCanStep(svc, init, s);
    }
  }

  lemma FlowOrder<S(!new)>(svc: Service<S>, init: S, s: State<S>)
    requires Inv(svc, init, s)
    ensures |s.outcomes| <= |Exchanges(s.log)|
  {
    hide AtomicRun, Exchanges, Fits, Answers, EncodeRequests, EncodeResponses, UnLE;
    assert StateFlow(s);
  }

  lemma UnansweredIsSent<S(!new)>(svc: Service<S>, init: S, s: State<S>, t: nat)
    requires Inv(svc, init, s) && t < |s.threads| && HoldsRecv(s.threads[t])
    requires |s.outcomes| == |Exchanges(s.log)|
    ensures |Exchanges(s.log)| < Sent(s)
  {
    hide AtomicRun, Exchanges, Fits, Answers, EncodeRequests, EncodeResponses, UnLE;
    assert StateFlow(s) && s.recvOwner == Some(t);
    var rest := s.acquired[|s.outcomes|..];
    assert rest == Receiving(s) + Sending(s);
    assert |rest| == 1 + |Sending(s)|;
  }

  lemma ReadOne<S(!new)>(svc: Service<S>, s: State<S>, t: nat)
    requires t < |s.threads| && s.n2c != []
    requires || (s.threads[t].ReadHead? && |s.threads[t].got| < RESP_HEAD)
             || (s.threads[t].ReadBody? && |s.threads[t].got| < UnLE(s.threads[t].head))
    ensures CanStep(svc, s)
  {
    hide UnLE;
    var ph := s.threads[t];
    if ph.ReadHead? {
      assert Steps(svc, s, RecvHead(t, 1), Move(s, t, ReadHead(ph.req, ph.got + s.n2c[..1])).(n2c := s.n2c[1..]));
    } else {
      assert Steps(svc, s, RecvBody(t, 1),
                   Move(s, t, ReadBody(ph.req, ph.head, ph.got + s.n2c[..1])).(n2c := s.n2c[1..]));
    }
  }

  /** No deadlock: while any call is unfinished, a client thread or the node can step. */
  lemma NoDeadlock<S(!new)>(svc: Service<S>, init: S, s: State<S>)
    requires Inv(svc, init, s) && NodeLive(svc, s) && !AllIdle(s)
    ensures CanStep(svc, s)
  {
    hide AtomicRun, Exchanges, Fits, DecodeRequest, DecodeResponse, EncodeRequest, EncodeResponse, UnLE,
      Answers, Body, EncodeRequests, EncodeResponses, NodeLive, Flow;
    var t :| 0 <= t < |s.threads| && !s.threads[t].Idle?;
    if s.recvOwner.Some? {
      ReceiverCanStep(svc, init, s, s.recvOwner.value);
    } else {
      var u := if s.sendOwner.Some? then s.sendOwner.value else t;
      var ph := s.threads[u];
      if ph.WantSend? {
        assert Steps(svc, s, LockSend(u), Move(s, u, HoldSend(ph.req)).(sendOwner := Some(u),
                     acquired := s.acquired + [Call(u, ph.req)]));
      } else if ph.HoldSend? {
        assert Steps(svc, s, Send(u), Move(s, u, WantRecv(ph.req)).(c2n := s.c2n + EncodeRequest(ph.req)));
      } else {
        assert ph.WantRecv?;
        assert Steps(svc, s, LockRecv(u), Move(s, u, HoldBoth(ph.req)).(recvOwner := Some(u)));
      }
    }
  }

  // ----- Completion

  /** The scheduler takes some step, any step, as long as there is one. */
  ghost predicate Advances<S(!new)>(svc: Service<S>, s: State<S>, s': State<S>) {
    || (exists a :: Steps(svc, s, a, s'))
    || (s' == s && !CanStep(svc, s))
  }

  /** Every set of calls completes under every schedule: from any state that satisfies the
      invariant, if no further call begins, then some later state has every thread idle. */
  lemma {:induction false} EveryCallCompletes<S(!new)>(svc: Service<S>, init: S, rank: S -> nat,
                                                      run: nat -> State<S>, from: nat)
    requires Proper(svc) && Ranked(svc, rank)
    requires Inv(svc, init, run(from))
    requires forall i: nat :: i >= from ==> Advances(svc, run(i), run(i + 1)) && NodeLive(svc, run(i))
    ensures exists n: nat :: n >= from && AllIdle(run(n))
    decreases Undone(run(from)), rank(run(from).mem), Local(run(from))
  {
    hide Inv, Proper, Ranked, Next, CanStep, NodeLive, Undone, Local;
    var s, s' := run(from), run(from + 1);
    if !AllIdle(s) {
      assert NodeLive(svc, s) && Advances(svc, s, s');
      NoDeadlock(svc, init, s);
      var a :| Steps(svc, s, a, s');
      StepDecreases(svc, init, rank, s, a, s');
      NextKeeps(svc, init, s, a, s');
      EveryCallCompletes(svc, init, rank, run, from + 1);
    }
  }

  ghost predicate SomeStep<S>(svc: Service<S>, s: State<S>, s': State<S>) {
    exists a :: Next(svc, s, a, s')
  }

  lemma {:induction false} ScheduleKeepsInv<S(!new)>(svc: Service<S>, mem: S, run: nat -> State<S>, i: nat)
    requires Proper(svc) && Init(run(0), mem)
    requires forall k: nat :: k < i ==> SomeStep(svc, run(k), run(k + 1))
    ensures Inv(svc, mem, run(i))
  {
    hide Inv, Proper, Next, Init;
    if i == 0 {
      InitInv(svc, run(0), mem);
    } else {
      ScheduleKeepsInv(svc, mem, run, i - 1);
      var k := i - 1;
      assert SomeStep(svc, run(k), run(k + 1));
      var a :| Next(svc, run(k), a, run(k + 1));
      NextKeeps(svc, mem, run(k), a, run(k + 1));
    }
  }

  /** From the initial state: calls begin in any order and at any time before step `from`. Whatever
      the schedule does, a state is reached in which every call that took `send_mut` has returned
      what the atomic execution in `send_mut` order answers, and no thread is in a call. */
  lemma FiniteCallsComplete<S(!new)>(svc: Service<S>, mem: S, rank: S -> nat, run: nat -> State<S>, from: nat)
    returns (n: nat)
    requires Proper(svc) && Ranked(svc, rank) && Init(run(0), mem)
    requires forall k: nat :: k < from ==> SomeStep(svc, run(k), run(k + 1))
    requires forall i: nat :: i >= from ==> Advances(svc, run(i), run(i + 1)) && NodeLive(svc, run(i))
    ensures n >= from && AllIdle(run(n))
    ensures AtomicRun(svc, mem, run(n).log, run(n).mem)
    ensures Returned(run(n).acquired, Exchanges(run(n).log), run(n).outcomes)
  {
    hide Inv, Proper, Next, Init, Ranked, Advances, NodeLive, SomeStep, Returned, AtomicRun, Exchanges;
    ScheduleKeepsInv(svc, mem, run, from);
    EveryCallCompletes(svc, mem, rank, run, from);
    n :| n >= from && AllIdle(run(n));
    LaterInv(svc, mem, run, from, n);
    IdleMeansReturned(svc, mem, run(n));
  }

  /** Every acquired call was served, in order, and returned its own response. */
  ghost predicate Returned(acquired: seq<Call>, xs: seq<Exchange>, outcomes: seq<Outcome>) {
    && |outcomes| == |xs| == |acquired|
    && forall k :: 0 <= k < |xs| ==>
         && xs[k].req == acquired[k].req
         && outcomes[k] == Outcome(acquired[k].tid, acquired[k].req, xs[k].resp)
  }

  lemma {:induction false} LaterInv<S(!new)>(svc: Service<S>, init: S, run: nat -> State<S>, from: nat, n: nat)
    requires Proper(svc) && from <= n && Inv(svc, init, run(from))
    requires forall i: nat :: i >= from ==> Advances(svc, run(i), run(i + 1))
    ensures Inv(svc, init, run(n))
    decreases n
  {
    hide Inv, Proper, Next, CanStep;
    if n > from {
      LaterInv(svc, init, run, from, n - 1);
      var k := n - 1;
      assert Advances(svc, run(k), run(k + 1));
      if run(k + 1) != run(k) {
        var a :| Steps(svc, run(k), a, run(k + 1));
        NextKeeps(svc, init, run(k), a, run(k + 1));
      }
    }
  }

  lemma IdleMeansReturned<S(!new)>(svc: Service<S>, init: S, s: State<S>)
    requires Inv(svc, init, s) && AllIdle(s)
    ensures AtomicRun(svc, init, s.log, s.mem)
    ensures Returned(s.acquired, Exchanges(s.log), s.outcomes)
  {
    hide AtomicRun, Exchanges, Fits, Answers, EncodeRequests, EncodeResponses, UnLE;
    assert StateFlow(s);
    assert Receiving(s) + Sending(s) == [];
  }
}
