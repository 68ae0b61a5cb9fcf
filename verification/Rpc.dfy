/** The client/node call protocol as a step system.

    Any number of client threads share one connection. A call takes `send_mut`, sends, takes
    `recv_mut`, releases `send_mut`, reads a head and a body, and releases `recv_mut`. The node is
    one sequential loop. Messages carry no identifier. The two directions of the connection are
    byte queues; a `recv` may return any non-empty part of what is queued, so every segmentation
    by the transport is some run of this system.

    The node's state and its handlers are parameters: `serve` relates a state and a request to the
    next state and the response, and `background` is what remote threads do meanwhile. */
module Rpc {
  import opened Bytes
  import opened Wire

  datatype Service<!S> = Service(serve: (S, Request, S, Response) -> bool, background: (S, S) -> bool)

  /** The node answers every request with a response of the kind that request calls for. */
  ghost predicate Proper<S(!new)>(svc: Service<S>) {
    forall s, r, s', p :: svc.serve(s, r, s', p) ==> Answers(r, p)
  }

  /** Where a client thread stands in `dic_atomic_send_recv`. */
  datatype Phase =
    | Idle
    | WantSend(req: Request)
    | HoldSend(req: Request)
    | WantRecv(req: Request)
    | HoldBoth(req: Request)
    | ReadHead(req: Request, got: seq<Byte>)
    | ReadBody(req: Request, head: seq<Byte>, got: seq<Byte>)

  /** Where the node stands in `dic_node_recv_send`. */
  datatype NodePhase =
    | NodeHead(got: seq<Byte>)
    | NodeBody(head: seq<Byte>, got: seq<Byte>)
    | NodeReply(msg: seq<Byte>)

  datatype Call = Call(tid: nat, req: Request)
  datatype Exchange = Exchange(req: Request, resp: Response)
  datatype Outcome = Outcome(tid: nat, req: Request, resp: Response)
  datatype Event = Served(req: Request, resp: Response) | Background

  /** The last three fields only record history: the order in which `send_mut` was acquired, what
      happened to the node's state, and what the calls returned. No step depends on them. */
  datatype State<S> = State(
    threads: seq<Phase>,
    sendOwner: Option<nat>,
    recvOwner: Option<nat>,
    c2n: seq<Byte>,
    n2c: seq<Byte>,
    node: NodePhase,
    mem: S,
    acquired: seq<Call>,
    log: seq<Event>,
    outcomes: seq<Outcome>)

  datatype Action =
    | Begin(tid: nat, req: Request)
    | LockSend(tid: nat)
    | Send(tid: nat)
    | LockRecv(tid: nat)
    | UnlockSend(tid: nat)
    | RecvHead(tid: nat, count: nat)
    | HeadDone(tid: nat)
    | RecvBody(tid: nat, count: nat)
    | UnlockRecv(tid: nat)
    | NodeRecvHead(count: nat)
    | NodeHeadDone
    | NodeRecvBody(count: nat)
    | NodeDispatch
    | NodeSend
    | NodeBackground

  ghost predicate Init<S>(s: State<S>, mem: S) {
    && (forall t :: 0 <= t < |s.threads| ==> s.threads[t] == Idle)
    && s == State(s.threads, None, None, [], [], NodeHead([]), mem, [], [], [])
  }

  /** One step. `serve` and `background` may be non-deterministic. */
  ghost predicate Next<S>(svc: Service<S>, s: State<S>, a: Action, s': State<S>) {
    match a
    case NodeRecvHead(k) =>
      && s.node.NodeHead? && 0 < k <= |s.c2n| && |s.node.got| + k <= REQ_HEAD
      && s' == s.(node := NodeHead(s.node.got + s.c2n[..k]), c2n := s.c2n[k..])
    case NodeHeadDone =>
      && s.node.NodeHead? && |s.node.got| == REQ_HEAD
      && s' == s.(node := NodeBody(s.node.got, []))
    case NodeRecvBody(k) =>
      && s.node.NodeBody? && |s.node.head| == REQ_HEAD
      && 0 < k <= |s.c2n| && |s.node.got| + k <= HeadSize(s.node.head)
      && s' == s.(node := NodeBody(s.node.head, s.node.got + s.c2n[..k]), c2n := s.c2n[k..])
    case NodeDispatch =>
      && NodeReady(s)
      && (match NodeRequest(s)
          case Dispatched(r) => ServeStep(svc, s, r, s')
          case Undispatched => s' == s.(node := NodeHead([]))
          case Malformed => false)
    case NodeSend =>
      && s.node.NodeReply?
      && s' == s.(node := NodeHead([]), n2c := s.n2c + s.node.msg)
    case NodeBackground =>
      && svc.background(s.mem, s'.mem)
      && s' == s.(mem := s'.mem, log := s.log + [Event.Background])
    case _ => a.tid < |s.threads| && ClientStep(s, a, s')
  }

  /** The whole announced body has arrived. */
  predicate NodeReady<S>(s: State<S>) {
    && s.node.NodeBody? && |s.node.head| == REQ_HEAD
    && |s.node.got| == HeadSize(s.node.head)
  }

  function NodeRequest<S>(s: State<S>): Decoded
    requires NodeReady(s)
  {
    Interpret(s.node.head, s.node.got)
  }

  ghost predicate ServeStep<S>(svc: Service<S>, s: State<S>, r: Request, s': State<S>) {
    && |s.log| < |s'.log|
    && s'.log[|s.log|].Served?
    && var p := s'.log[|s.log|].resp;
       && svc.serve(s.mem, r, s'.mem, p)
       && s' == s.(mem := s'.mem, node := NodeReply(EncodeResponse(p)), log := s.log + [Served(r, p)])
  }

  function Move<S>(s: State<S>, t: nat, phase: Phase): (s': State<S>)
    requires t < |s.threads|
  {
    s.(threads := s.threads[t := phase])
  }

  ghost predicate ClientStep<S>(s: State<S>, a: Action, s': State<S>)
    requires !a.NodeRecvHead? && !a.NodeHeadDone? && !a.NodeRecvBody? && !a.NodeDispatch? && !a.NodeSend?
    requires !a.NodeBackground?
    requires a.tid < |s.threads|
  {
    var t := a.tid;
    var ph := s.threads[t];
    match a
    case Begin(_, req) =>
      ph.Idle? && Fits(req) && s' == Move(s, t, WantSend(req))
    case LockSend(_) =>
      && ph.WantSend? && s.sendOwner == None
      && s' == Move(s, t, HoldSend(ph.req)).(sendOwner := Some(t), acquired := s.acquired + [Call(t, ph.req)])
    case Send(_) =>
      ph.HoldSend? && s' == Move(s, t, WantRecv(ph.req)).(c2n := s.c2n + EncodeRequest(ph.req))
    case LockRecv(_) =>
      ph.WantRecv? && s.recvOwner == None && s' == Move(s, t, HoldBoth(ph.req)).(recvOwner := Some(t))
    case UnlockSend(_) =>
      ph.HoldBoth? && s' == Move(s, t, ReadHead(ph.req, [])).(sendOwner := None)
    case RecvHead(_, k) =>
      && ph.ReadHead? && 0 < k <= |s.n2c| && |ph.got| + k <= RESP_HEAD
      && s' == Move(s, t, ReadHead(ph.req, ph.got + s.n2c[..k])).(n2c := s.n2c[k..])
    case HeadDone(_) =>
      ph.ReadHead? && |ph.got| == RESP_HEAD && s' == Move(s, t, ReadBody(ph.req, ph.got, []))
    case RecvBody(_, k) =>
      && ph.ReadBody? && 0 < k <= |s.n2c| && |ph.got| + k <= UnLE(ph.head)
      && s' == Move(s, t, ReadBody(ph.req, ph.head, ph.got + s.n2c[..k])).(n2c := s.n2c[k..])
    case UnlockRecv(_) =>
      && ph.ReadBody? && |ph.got| == UnLE(ph.head)
      && DecodeResponse(ph.req, ph.got).Some?
      && s' == Move(s, t, Idle).(recvOwner := None,
              outcomes := s.outcomes + [Outcome(t, ph.req, DecodeResponse(ph.req, ph.got).value)])
  }

  // ----- The atomic specification

  /** `log` is a history of the node running alone: calls are single steps, one at a time. */
  ghost predicate AtomicRun<S(!new)>(svc: Service<S>, from: S, log: seq<Event>, to: S)
    decreases |log|
  {
    if log == [] then from == to
    else
      var last := log[|log| - 1];
      exists mid :: AtomicRun(svc, from, log[..|log| - 1], mid) && AtomicStep(svc, mid, last, to)
  }

  ghost predicate AtomicStep<S>(svc: Service<S>, s: S, e: Event, s': S) {
    match e
    case Served(r, p) => svc.serve(s, r, s', p)
    case Background => svc.background(s, s')
  }

  /** The calls of a history, in order. */
  function Exchanges(log: seq<Event>): (xs: seq<Exchange>)
    decreases |log|
  {
    if log == [] then []
    else
      var before := Exchanges(log[..|log| - 1]);
      match log[|log| - 1]
      case Served(r, p) => before + [Exchange(r, p)]
      case Background => before
  }

  lemma AtomicRunSnoc<S(!new)>(svc: Service<S>, from: S, log: seq<Event>, mid: S, e: Event, to: S)
    requires AtomicRun(svc, from, log, mid) && AtomicStep(svc, mid, e, to)
    ensures AtomicRun(svc, from, log + [e], to)
    ensures Exchanges(log + [e]) == Exchanges(log) + if e.Served? then [Exchange(e.req, e.resp)] else []
  {
    var longer := log + [e];
    assert longer[..|longer| - 1] == log;
    assert AtomicStep(svc, mid, longer[|longer| - 1], to);
  }

  // ----- The invariant

  predicate HoldsSend(ph: Phase) { ph.HoldSend? || ph.WantRecv? || ph.HoldBoth? }

  predicate HoldsRecv(ph: Phase) { ph.HoldBoth? || ph.ReadHead? || ph.ReadBody? }

  /** Each mutex is owned by exactly the thread whose program counter says so. */
  ghost predicate Locks<S>(s: State<S>) {
    && (s.sendOwner.Some? ==> s.sendOwner.value < |s.threads| && HoldsSend(s.threads[s.sendOwner.value]))
    && (s.recvOwner.Some? ==> s.recvOwner.value < |s.threads| && HoldsRecv(s.threads[s.recvOwner.value]))
    && (forall t :: 0 <= t < |s.threads| && HoldsSend(s.threads[t]) ==> s.sendOwner == Some(t))
    && (forall t :: 0 <= t < |s.threads| && HoldsRecv(s.threads[t]) ==> s.recvOwner == Some(t))
  }

  /** Every call in progress carries a request that fits the wire format. */
  ghost predicate Fitting<S>(s: State<S>) {
    forall t :: 0 <= t < |s.threads| && !s.threads[t].Idle? ==> Fits(s.threads[t].req)
  }

  /** No reader ever holds more than the head, or the body, that it asked for. */
  ghost predicate Shapes<S>(s: State<S>) {
    && (s.node.NodeHead? ==> |s.node.got| <= REQ_HEAD)
    && (s.node.NodeBody? ==> |s.node.head| == REQ_HEAD && |s.node.got| <= HeadSize(s.node.head))
    && (forall t :: 0 <= t < |s.threads| && s.threads[t].ReadHead? ==> |s.threads[t].got| <= RESP_HEAD)
    && (forall t :: 0 <= t < |s.threads| && s.threads[t].ReadBody? ==>
          |s.threads[t].head| == RESP_HEAD && |s.threads[t].got| <= UnLE(s.threads[t].head))
  }

  /** The phase of the thread that owns a mutex. */
  function OwnerPhase(threads: seq<Phase>, owner: Option<nat>): Phase {
    if owner.Some? && owner.value < |threads| then threads[owner.value] else Idle
  }

  /** The `recv_mut` holder's call. */
  function Receiving<S>(s: State<S>): seq<Call> {
    var ph := OwnerPhase(s.threads, s.recvOwner);
    if HoldsRecv(ph) then [Call(s.recvOwner.value, ph.req)] else []
  }

  /** The call of the `send_mut` holder that does not hold `recv_mut` yet. */
  function Sending<S>(s: State<S>): seq<Call> {
    var ph := OwnerPhase(s.threads, s.sendOwner);
    if ph.HoldSend? || ph.WantRecv? then [Call(s.sendOwner.value, ph.req)] else []
  }

  /** How many calls have put their request on the wire. */
  function Sent<S>(s: State<S>): int {
    |s.acquired| - if OwnerPhase(s.threads, s.sendOwner).HoldSend? then 1 else 0
  }

  /** Request bytes that the node has already taken off the wire. */
  function NodeRead(node: NodePhase): seq<Byte> {
    match node
    case NodeHead(got) => got
    case NodeBody(head, got) => head + got
    case NodeReply(_) => []
  }

  function Reply(node: NodePhase): seq<Byte> {
    if node.NodeReply? then node.msg else []
  }

  /** Response bytes that a thread has already taken off the wire. */
  function ClientRead(ph: Phase): seq<Byte> {
    match ph
    case ReadHead(_, got) => got
    case ReadBody(_, head, got) => head + got
    case _ => []
  }

  /** Request bytes that have left a client and that the node has not dispatched. */
  function RequestBytes<S>(s: State<S>): seq<Byte> {
    NodeRead(s.node) + s.c2n
  }

  /** Response bytes that the node has produced and that no call has returned. */
  function ResponseBytes<S>(s: State<S>): seq<Byte> {
    ClientRead(OwnerPhase(s.threads, s.recvOwner)) + (s.n2c + Reply(s.node))
  }

  // ----- What is in flight, without the control state

  function Requests(cs: seq<Call>): (rs: seq<Request>)
    ensures |rs| == |cs| && forall i :: 0 <= i < |cs| ==> rs[i] == cs[i].req
  {
    seq(|cs|, i requires 0 <= i < |cs| => cs[i].req)
  }

  function Responses(xs: seq<Exchange>): (ps: seq<Response>)
    ensures |ps| == |xs| && forall i :: 0 <= i < |xs| ==> ps[i] == xs[i].resp
  {
    seq(|xs|, i requires 0 <= i < |xs| => xs[i].resp)
  }

  /** The n-th answered call is the n-th in `send_mut` order, and the n-th outcome is the response
      the node computed for exactly that call. */
  ghost predicate Matching(acquired: seq<Call>, xs: seq<Exchange>, outcomes: seq<Outcome>) {
    && |outcomes| <= |xs| <= |acquired|
    && (forall i :: 0 <= i < |xs| ==> xs[i].req == acquired[i].req && Answers(xs[i].req, xs[i].resp))
    && (forall i :: 0 <= i < |outcomes| ==>
          outcomes[i] == Outcome(acquired[i].tid, acquired[i].req, xs[i].resp))
  }

  /** The unfinished calls past `send_mut` are `pipe`, and the bytes in flight are exactly the
      requests not served yet followed, in the other direction, by the responses not returned yet. */
  ghost predicate Flow(acquired: seq<Call>, xs: seq<Exchange>, outcomes: seq<Outcome>,
                       sent: int, pipe: seq<Call>, requestBytes: seq<Byte>, responseBytes: seq<Byte>) {
    && (forall c :: c in acquired ==> Fits(c.req))
    && Matching(acquired, xs, outcomes)
    && |xs| <= sent <= |acquired|
    && acquired[|outcomes|..] == pipe
    && requestBytes == EncodeRequests(Requests(acquired[|xs|..sent]))
    && responseBytes == EncodeResponses(Responses(xs[|outcomes|..]))
  }

  ghost predicate StateFlow<S>(s: State<S>) {
    Flow(s.acquired, Exchanges(s.log), s.outcomes, Sent(s), Receiving(s) + Sending(s),
         RequestBytes(s), ResponseBytes(s))
  }

  ghost predicate Inv<S(!new)>(svc: Service<S>, init: S, s: State<S>) {
    Locks(s) && Fitting(s) && Shapes(s) && StateFlow(s) && AtomicRun(svc, init, s.log, s.mem)
  }
}
