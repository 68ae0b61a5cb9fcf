/** The whole stack: concurrent clients, byte streams, framing, dispatch and the node's flat memory
    together behave as a simple map from addresses to blocks. */
module RemoteHeap {
  import opened Bytes
  import opened Wire
  import opened NodeHeap
  import opened NodeModel
  import opened Rpc
  import opened RpcSafety
  import opened RpcProgress

  /** What remote threads do, seen on blocks. */
  ghost predicate BlockWork<L(!new)>(code: Code<L>, v: Blocks, v': Blocks) {
    exists l, h, l', h' :: BlockWorkBy(code, v, l, h, l', h', v')
  }

  ghost predicate BlockWorkBy<L>(code: Code<L>, v: Blocks, l: L, h: Heap, l': L, h': Heap, v': Blocks) {
    code.step(l, h, l', h') && Valid(h) && Valid(h') && v == View(h) && v' == View(h')
  }

  ghost function BlockService<L(!new)>(code: Code<L>): Service<Blocks> {
    Service((v, r, v', p) => BlockServe(v, r, v', p), (v, v') => BlockWork(code, v, v'))
  }

  lemma StepRefines<L(!new)>(code: Code<L>, n: Node<L>, e: Event, n': Node<L>)
    requires Tidy(code) && Valid(n.heap) && AtomicStep(NodeService(code), n, e, n')
    ensures Valid(n'.heap) && AtomicStep(BlockService(code), View(n.heap), e, View(n'.heap))
  {
    match e
    case Served(r, p) =>
      hide Valid, View, BlockServe, Serve;
      ServeRefines(code, n, r, n', p);
    case Background =>
      var tid, l :| WorkBy(code, n, tid, l, n');
      assert BlockWorkBy(code, View(n.heap), n.threads[tid], n.heap, l, n'.heap, View(n'.heap));
  }

  lemma {:induction false} RunRefines<L(!new)>(code: Code<L>, n: Node<L>, log: seq<Event>, n': Node<L>)
    requires Tidy(code) && Valid(n.heap) && AtomicRun(NodeService(code), n, log, n')
    ensures Valid(n'.heap) && AtomicRun(BlockService(code), View(n.heap), log, View(n'.heap))
    decreases |log|
  {
    hide Valid, View, BlockServe, Serve, Tidy;
    if log != [] {
      var before, last := log[..|log| - 1], log[|log| - 1];
      var mid :| AtomicRun(NodeService(code), n, before, mid) && AtomicStep(NodeService(code), mid, last, n');
      RunRefines(code, n, before, mid);
      StepRefines(code, mid, last, n');
      AtomicRunSnoc(BlockService(code), View(n.heap), before, View(mid.heap), last, View(n'.heap));
      assert log == before + [last];
    }
  }

  /** In every state of every run of the concurrent, byte-level protocol, the history of the node is
      a history of the block heap, and every call has returned the block heap's answer. */
  lemma RemoteHeapRefinement<L(!new)>(code: Code<L>, n: Node<L>, states: seq<State<Node<L>>>,
                                     acts: seq<Action>, i: nat)
    requires Tidy(code) && Valid(n.heap)
    requires IsRun(NodeService(code), n, states, acts) && i < |states|
    ensures var s, xs := states[i], Exchanges(states[i].log);
            && Valid(s.mem.heap)
            && AtomicRun(BlockService(code), View(n.heap), s.log, View(s.mem.heap))
            && |s.outcomes| <= |xs| <= |s.acquired|
            && (forall k :: 0 <= k < |s.outcomes| ==>
                  s.outcomes[k] == Outcome(s.acquired[k].tid, xs[k].req, xs[k].resp))
  {
    hide Valid, View, BlockServe, Serve, Tidy, IsRun, Proper, AtomicRun, Exchanges;
    HandlersAnswer(code);
    Linearizability(NodeService(code), n, states, acts, i);
    RunRefines(code, n, states[i].log, states[i].mem);
  }

  // ----- Reading back what was written

  /** Blocks do not overlap. */
  ghost predicate Separate(v: Blocks) {
    forall b, c :: b in v && c in v && b != c ==> b + |v[b]| <= c || c + |v[c]| <= b
  }

  lemma ViewSeparate(h: Heap)
    requires Valid(h)
    ensures Separate(View(h))
  {
    forall b, c | b in View(h) && c in View(h) && b != c
      ensures b + |View(h)[b]| <= c || c + |View(h)[c]| <= b
    {
      BlockOf(h, b);
      BlockOf(h, c);
    }
  }

  /** In every state of every run, the blocks do not overlap. */
  lemma RunSeparate<L(!new)>(code: Code<L>, n: Node<L>, states: seq<State<Node<L>>>, acts: seq<Action>, i: nat)
    requires Tidy(code) && Valid(n.heap)
    requires IsRun(NodeService(code), n, states, acts) && i < |states|
    ensures Valid(states[i].mem.heap) && Separate(View(states[i].mem.heap))
  {
    hide Valid, View, BlockServe, Serve, Tidy, IsRun, AtomicRun, Exchanges, Separate;
    RemoteHeapRefinement(code, n, states, acts, i);
    ViewSeparate(states[i].mem.heap);
  }

  /** Block `b` holds `data` at address `addr`. */
  predicate Holds(v: Blocks, b: Ptr, addr: int, data: seq<Byte>) {
    InBlock(v, b, addr, |data|) && v[b][addr - b..addr - b + |data|] == data
  }

  ghost predicate Stores(h: Heap, b: Ptr, addr: int, data: seq<Byte>) {
    Valid(h) && Holds(View(h), b, addr, data)
  }

  /** The request neither writes into the region nor gives up its block. */
  predicate Spares(r: Request, b: Ptr, addr: int, size: nat) {
    match r
    case Free(p) => p != b
    case Realloc(p, _) => p != b
    case MemcpyC2N(d, written) => written == [] || d + |written| <= addr || addr + size <= d
    case _ => true
  }

  /** The step of a run leaves the region alone: if it serves a request, that spares the region, and if
      it is a step of a remote thread, that keeps its contents. */
  ghost predicate SparedBy<L>(s: State<Node<L>>, a: Action, s': State<Node<L>>, b: Ptr, addr: int, data: seq<Byte>) {
    && (a.NodeDispatch? && NodeReady(s) && NodeRequest(s).Dispatched? ==>
          Spares(NodeRequest(s).req, b, addr, |data|))
    && (a.NodeBackground? && Stores(s.mem.heap, b, addr, data) ==> Stores(s'.mem.heap, b, addr, data))
  }

  lemma OverlayMisses(s: seq<Byte>, at: int, data: seq<Byte>, lo: int, n: nat)
    requires 0 <= at && at + |data| <= |s| && 0 <= lo && lo + n <= |s|
    requires at + |data| <= lo || lo + n <= at
    ensures Overlay(s, at, data)[lo..lo + n] == s[lo..lo + n]
  {
  }

  lemma SparedWrite(v: Blocks, d: Ptr, written: seq<Byte>, v': Blocks, p: Response,
                    b: Ptr, addr: int, data: seq<Byte>)
    requires BlockServe(v, MemcpyC2N(d, written), v', p) && Holds(v, b, addr, data)
    requires written == [] || d + |written| <= addr || addr + |data| <= d
    ensures Holds(v', b, addr, data)
  {
    if written != [] {
      var c: Ptr :| InBlock(v, c, d, |written|) && v' == v[c := Overlay(v[c], d - c, written)];
      if c == b {
        OverlayMisses(v[b], d - b, written, addr - b, |data|);
      }
    }
  }

  lemma SparedServe(v: Blocks, r: Request, v': Blocks, p: Response, b: Ptr, addr: int, data: seq<Byte>)
    requires BlockServe(v, r, v', p) && Holds(v, b, addr, data) && Spares(r, b, addr, |data|)
    ensures Holds(v', b, addr, data)
  {
    if r.MemcpyC2N? {
      hide BlockServe, Holds;
      SparedWrite(v, r.dest, r.data, v', p, b, addr, data);
    } else {
      assert BlockServe(v, r, v', p);
      hide InBlock, Overlay;
      assert b in v' && v'[b] == v[b];
    }
  }

  lemma SparedStep<L(!new)>(code: Code<L>, s: State<Node<L>>, a: Action, s': State<Node<L>>,
                            b: Ptr, addr: int, data: seq<Byte>)
    requires Next(NodeService(code), s, a, s') && SparedBy(s, a, s', b, addr, data)
    requires Stores(s.mem.heap, b, addr, data)
    ensures Stores(s'.mem.heap, b, addr, data)
  {
    hide Valid, View, Holds, Serve, DecodeRequest, DecodeResponse, EncodeRequest, EncodeResponse, UnLE, Fits, Spares;
    if a.NodeDispatch? {
      if NodeRequest(s).Dispatched? {
        var r, p := NodeRequest(s).req, s'.log[|s.log|].resp;
        assert Serve(code, s.mem, r, s'.mem, p);
        ServeRefines(code, s.mem, r, s'.mem, p);
        SparedServe(View(s.mem.heap), r, View(s'.mem.heap), p, b, addr, data);
      }
    } else if !a.NodeBackground? {
      assert s'.mem == s.mem;
    }
  }

  /** Over steps that spare it, the region keeps its contents. */
  lemma {:induction false} SparedRun<L(!new)>(code: Code<L>, n: Node<L>, states: seq<State<Node<L>>>,
                                             acts: seq<Action>, i: nat, j: nat, b: Ptr, addr: int, data: seq<Byte>)
    requires IsRun(NodeService(code), n, states, acts) && i <= j < |states|
    requires Stores(states[i].mem.heap, b, addr, data)
    requires forall k :: i <= k < j ==> SparedBy(states[k], acts[k], states[k + 1], b, addr, data)
    ensures Stores(states[j].mem.heap, b, addr, data)
    decreases j
  {
    hide Stores, Next, SparedBy, Init;
    if i < j {
      var k := j - 1;
      SparedRun(code, n, states, acts, i, k, b, addr, data);
      assert SparedBy(states[k], acts[k], states[k + 1], b, addr, data);
      SparedStep(code, states[k], acts[k], states[k + 1], b, addr, data);
    }
  }

  /** Step `k` of the run serves request `r`. */
  ghost predicate Dispatches<S>(states: seq<State<S>>, acts: seq<Action>, k: nat, r: Request) {
    && k < |acts| < |states| && acts[k].NodeDispatch?
    && NodeReady(states[k]) && NodeRequest(states[k]) == Dispatched(r)
  }

  /** A read returns the last write. In any run, let the node serve a write of `data` at `addr`, into block
      `b`, and later a read of that region, and let every step in between spare the region. Then the call
      that made the read, whichever thread it was, returns the data of the call that made the write. */
  lemma ReadReturnsWrite<L(!new)>(code: Code<L>, n: Node<L>, states: seq<State<Node<L>>>, acts: seq<Action>,
                                  w: nat, r: nat, i: nat, b: Ptr, addr: Ptr, data: seq<Byte>)
    requires Tidy(code) && Valid(n.heap) && IsRun(NodeService(code), n, states, acts)
    requires data != [] && w < r < i < |states|
    requires Dispatches(states, acts, w, MemcpyC2N(addr, data)) && Inside(states[w].mem.heap, b, addr, |data|)
    requires Dispatches(states, acts, r, MemcpyN2C(addr, |data|))
    requires forall k :: w < k < r ==> SparedBy(states[k], acts[k], states[k + 1], b, addr, data)
    ensures var s := states[i];
            var writing, reading := |Exchanges(states[w].log)|, |Exchanges(states[r].log)|;
            && writing < reading < |s.acquired| && s.acquired[writing].req == MemcpyC2N(addr, data)
            && (reading < |s.outcomes| ==>
                  s.outcomes[reading] == Outcome(s.acquired[reading].tid, MemcpyN2C(addr, |data|), MemcpyN2CR(data)))
  {
    hide Tidy, Valid, View, IsRun, Holds, SparedBy, Dispatches, Inside, Exchanges, BlockServe, Separate, Proper;
    var p := Dispatch(code, n, states, acts, w, MemcpyC2N(addr, data));
    InsideBlock(states[w].mem.heap, b, addr, |data|);
    WriteHolds(View(states[w].mem.heap), b, addr, data, View(states[w + 1].mem.heap), p);
    SparedRun(code, n, states, acts, w + 1, r, b, addr, data);
    var q := Dispatch(code, n, states, acts, r, MemcpyN2C(addr, |data|));
    ReadHeld(View(states[r].mem.heap), b, addr, data, View(states[r + 1].mem.heap), q);
    ReturnedBy(code, n, states, acts, w, i, MemcpyC2N(addr, data), p);
    ReturnedBy(code, n, states, acts, r, i, MemcpyN2C(addr, |data|), q);
    HandlersAnswer(code);
    RealTimeOrder(NodeService(code), n, states, acts, w + 1, r);
    ExchangesGrow(states[w + 1].log, states[r].log);
  }

  lemma InsideBlock(h: Heap, b: Ptr, addr: int, n: nat)
    requires Valid(h) && Inside(h, b, addr, n)
    ensures InBlock(View(h), b, addr, n)
  {
    BlockOf(h, b);
  }

  /** A dispatch step, seen on blocks and in the history. */
  lemma Dispatch<L(!new)>(code: Code<L>, n: Node<L>, states: seq<State<Node<L>>>, acts: seq<Action>,
                          k: nat, r: Request) returns (p: Response)
    requires Tidy(code) && Valid(n.heap) && IsRun(NodeService(code), n, states, acts)
    requires Dispatches(states, acts, k, r)
    ensures var s, s' := states[k], states[k + 1];
            && Valid(s.mem.heap) && Valid(s'.mem.heap) && Separate(View(s.mem.heap))
            && BlockServe(View(s.mem.heap), r, View(s'.mem.heap), p)
            && Exchanges(s'.log) == Exchanges(s.log) + [Exchange(r, p)]
  {
    hide Tidy, Valid, View, Exchanges, BlockServe, Separate, Serve, DecodeRequest, EncodeResponse, UnLE, Init;
    RunSeparate(code, n, states, acts, k);
    var s, s' := states[k], states[k + 1];
    assert Next(NodeService(code), s, acts[k], s');
    p := s'.log[|s.log|].resp;
    assert Serve(code, s.mem, r, s'.mem, p);
    ServeRefines(code, s.mem, r, s'.mem, p);
    ServedOne(s.log, Served(r, p));
  }

  /** What was served by then is what the call in that turn returns later. */
  lemma ReturnedBy<L(!new)>(code: Code<L>, n: Node<L>, states: seq<State<Node<L>>>, acts: seq<Action>,
                            k: nat, i: nat, r: Request, p: Response)
    requires IsRun(NodeService(code), n, states, acts) && k < i < |states|
    requires Exchanges(states[k + 1].log) == Exchanges(states[k].log) + [Exchange(r, p)]
    ensures var s, m := states[i], |Exchanges(states[k].log)|;
            && m < |s.acquired| && s.acquired[m].req == r
            && (m < |s.outcomes| ==> s.outcomes[m] == Outcome(s.acquired[m].tid, r, p))
  {
    hide IsRun, Exchanges, AtomicRun, Proper;
    HandlersAnswer(code);
    Linearizability(NodeService(code), n, states, acts, i);
    RealTimeOrder(NodeService(code), n, states, acts, k + 1, i);
    ExchangesGrow(states[k + 1].log, states[i].log);
    var m := |Exchanges(states[k].log)|;
    assert Exchanges(states[i].log)[m] == Exchanges(states[k + 1].log)[m];
  }

  lemma {:induction false} ExchangesGrow(log: seq<Event>, longer: seq<Event>)
    requires log <= longer
    ensures Exchanges(log) <= Exchanges(longer)
    decreases |longer|
  {
    if |log| < |longer| {
      ExchangesGrow(log, longer[..|longer| - 1]);
    } else {
      assert log == longer;
    }
  }

  lemma WriteHolds(v: Blocks, b: Ptr, addr: Ptr, data: seq<Byte>, v': Blocks, p: Response)
    requires Separate(v) && data != [] && InBlock(v, b, addr, |data|)
    requires BlockServe(v, MemcpyC2N(addr, data), v', p)
    ensures Holds(v', b, addr, data)
  {
    var c: Ptr :| InBlock(v, c, addr, |data|) && v' == v[c := Overlay(v[c], addr - c, data)];
    assert c == b;
    assert Overlay(v[b], addr - b, data)[addr - b..addr - b + |data|] == data;
  }

  lemma ReadHeld(v: Blocks, b: Ptr, addr: Ptr, data: seq<Byte>, v': Blocks, p: Response)
    requires Separate(v) && data != [] && Holds(v, b, addr, data)
    requires BlockServe(v, MemcpyN2C(addr, |data|), v', p)
    ensures p == MemcpyN2CR(data)
  {
    var c: Ptr :| InBlock(v, c, addr, |data|) && p.data == v[c][addr - c..addr - c + |data|];
    assert c == b;
  }

  // ----- Calls to the node complete

  /** Clients ask only for what C and the node allow, in the state in which the node gets to it. */
  ghost predicate SaneInHand<L(!new)>(code: Code<L>, s: State<Node<L>>) {
    NodeReady(s) && NodeRequest(s).Dispatched? ==> Sane(code, s.mem, NodeRequest(s).req)
  }

  lemma SaneHandIsLive<L(!new)>(code: Code<L>, n: Node<L>, s: State<Node<L>>)
    requires Tidy(code) && Valid(n.heap)
    requires Inv(NodeService(code), n, s) && SaneInHand(code, s)
    ensures NodeLive(NodeService(code), s)
  {
    hide Valid, Tidy, AtomicRun, Sane, DecodeRequest, UnLE, StateFlow, Locks, CanServe, CanWork;
    RunRefines(code, n, s.log, s.mem);
    if NodeReady(s) && NodeRequest(s).Dispatched? {
      SaneIsLive(code, s.mem, NodeRequest(s).req);
    }
  }

  /** With terminating remote functions and sane requests, every set of calls to a node completes
      under every schedule, with the atomic answers. */
  lemma NodeCallsComplete<L(!new)>(code: Code<L>, rank: L -> nat, n: Node<L>, run: nat -> State<Node<L>>, from: nat)
    returns (end: nat)
    requires Tidy(code) && Terminating(code, rank) && Valid(n.heap) && Init(run(0), n)
    requires forall k: nat :: k < from ==> SomeStep(NodeService(code), run(k), run(k + 1))
    requires forall i: nat :: i >= from ==> Advances(NodeService(code), run(i), run(i + 1)) && SaneInHand(code, run(i))
    ensures end >= from && AllIdle(run(end))
    ensures AtomicRun(NodeService(code), n, run(end).log, run(end).mem)
    ensures Returned(run(end).acquired, Exchanges(run(end).log), run(end).outcomes)
  {
    hide Valid, Tidy, Terminating, AtomicRun, Inv, Proper, Ranked, Init, SomeStep, Advances, NodeLive,
      Returned, Exchanges, SaneInHand;
    var svc := NodeService(code);
    HandlersAnswer(code);
    WorkIsFinite(code, rank);
    ScheduleKeepsInv(svc, n, run, from);
    forall i: nat | i >= from ensures Advances(svc, run(i), run(i + 1)) && NodeLive(svc, run(i)) {
      LaterInv(svc, n, run, from, i);
      SaneHandIsLive(code, n, run(i));
    }
    end := FiniteCallsComplete(svc, n, NodeRank(rank), run, from);
  }
}
