/** Every reachable state of the call protocol satisfies the invariant, hence: calls linearize in
    `send_mut` order, no response is stolen, and at most two requests are outstanding. */
module RpcSafety {
  import opened Bytes
  import opened Wire
  import opened Rpc

  // ----- Prefixes of message streams

  /** If the bytes read so far start a head and more messages follow, a complete head is the head
      of the first outstanding request. */
  lemma FirstRequestHead(head: seq<Byte>, rest: seq<Byte>, rs: seq<Request>)
    requires |head| == REQ_HEAD && head + rest == EncodeRequests(rs)
    requires forall r :: r in rs ==> Fits(r)
    ensures rs != [] && HeadOp(head) == Op(rs[0]) && HeadSize(head) == |Body(rs[0])| <= INT_MAX
    ensures rest == Body(rs[0]) + EncodeRequests(rs[1..])
  {
    assert |head + rest| >= REQ_HEAD;
    var h, b, more := RequestHead(Op(rs[0]), |Body(rs[0])|), Body(rs[0]), EncodeRequests(rs[1..]);
    assert rs[0] in rs;
    RequestHeadFields(rs[0]);
    Assoc(h, b, more);
    SplitEqual(head, rest, h, b + more);
  }

  lemma FirstResponseHead(head: seq<Byte>, rest: seq<Byte>, ps: seq<Response>)
    requires |head| == RESP_HEAD && head + rest == EncodeResponses(ps)
    requires forall p :: p in ps ==> RESP_HEAD + |ResponseBody(p)| <= INT_MAX
    ensures ps != [] && UnLE(head) == |ResponseBody(ps[0])|
    ensures rest == ResponseBody(ps[0]) + EncodeResponses(ps[1..])
  {
    assert |head + rest| >= RESP_HEAD;
    var b, more := ResponseBody(ps[0]), EncodeResponses(ps[1..]);
    var h := LE(|b|, 4);
    assert ps[0] in ps;
    ResponseHeadField(ps[0]);
    Assoc(h, b, more);
    SplitEqual(head, rest, h, b + more);
  }

  lemma SplitEqual<T>(a: seq<T>, b: seq<T>, c: seq<T>, d: seq<T>)
    requires a + b == c + d && |a| == |c|
    ensures a == c && b == d
  {
    assert a == (a + b)[..|a|];
    assert c == (c + d)[..|c|];
    assert b == (a + b)[|a|..];
    assert d == (c + d)[|c|..];
  }

  lemma TakeBytes<T>(taken: seq<T>, queue: seq<T>, k: nat, more: seq<T>)
    requires k <= |queue|
    ensures (taken + queue[..k]) + (queue[k..] + more) == taken + (queue + more)
  {
    assert queue == queue[..k] + queue[k..];
  }

  // ----- The flow of messages

  lemma FlowAcquire(acquired: seq<Call>, xs: seq<Exchange>, outcomes: seq<Outcome>, pipe: seq<Call>,
                    rq: seq<Byte>, rp: seq<Byte>, c: Call)
    requires Flow(acquired, xs, outcomes, |acquired|, pipe, rq, rp) && Fits(c.req)
    ensures Flow(acquired + [c], xs, outcomes, |acquired|, pipe + [c], rq, rp)
  {
    hide Fits, EncodeRequest, EncodeResponse, EncodeRequests, EncodeResponses, Body, ResponseBody, Answers,
      DecodeRequest, DecodeResponse, UnLE;
    var longer := acquired + [c];
    assert longer[|xs|..|acquired|] == acquired[|xs|..|acquired|];
    assert longer[|outcomes|..] == acquired[|outcomes|..] + [c];
  }

  lemma FlowSend(acquired: seq<Call>, xs: seq<Exchange>, outcomes: seq<Outcome>, pipe: seq<Call>,
                 rq: seq<Byte>, rp: seq<Byte>)
    requires pipe != [] && Flow(acquired, xs, outcomes, |acquired| - 1, pipe, rq, rp)
    ensures acquired != [] && acquired[|acquired| - 1] == pipe[|pipe| - 1]
    ensures Flow(acquired, xs, outcomes, |acquired|, pipe,
                 rq + EncodeRequest(acquired[|acquired| - 1].req), rp)
  {
    hide Fits, EncodeRequest, EncodeResponse, EncodeRequests, EncodeResponses, Body, ResponseBody, Answers,
      DecodeRequest, DecodeResponse, UnLE;
    var n, m := |acquired|, |xs|;
    var last := acquired[n - 1];
    EncodeRequestsSnoc(Requests(acquired[m..n - 1]), last.req);
    assert Requests(acquired[m..n]) == Requests(acquired[m..n - 1]) + [last.req];
  }

  /** The bytes of a complete message at the front decode to the oldest unserved request. */
  lemma FlowOldest(acquired: seq<Call>, xs: seq<Exchange>, outcomes: seq<Outcome>, sent: int,
                   pipe: seq<Call>, head: seq<Byte>, got: seq<Byte>, rest: seq<Byte>, rp: seq<Byte>)
    requires Flow(acquired, xs, outcomes, sent, pipe, head + got + rest, rp)
    requires |head| == REQ_HEAD && |got| == HeadSize(head)
    ensures |xs| < sent && Interpret(head, got) == Dispatched(acquired[|xs|].req)
    ensures rest == EncodeRequests(Requests(acquired[|xs| + 1..sent]))
  {
    hide Fits, EncodeRequest, EncodeResponse, EncodeRequests, EncodeResponses, Body, ResponseBody, Answers,
      DecodeRequest, DecodeResponse, UnLE;
    var rs := Requests(acquired[|xs|..sent]);
    forall r | r in rs ensures Fits(r) {
      var i :| 0 <= i < |rs| && rs[i] == r;
      assert acquired[|xs| + i] in acquired;
    }
    Assoc(head, got, rest);
    FirstRequestHead(head, got + rest, rs);
    SplitEqual(got, rest, Body(rs[0]), EncodeRequests(rs[1..]));
    RequestRoundTrip(rs[0]);
    assert rs[1..] == Requests(acquired[|xs| + 1..sent]);
  }

  lemma FlowServe(acquired: seq<Call>, xs: seq<Exchange>, outcomes: seq<Outcome>, sent: int,
                  pipe: seq<Call>, rq: seq<Byte>, rest: seq<Byte>, rp: seq<Byte>, p: Response)
    requires Flow(acquired, xs, outcomes, sent, pipe, rq, rp)
    requires |xs| < sent && rest == EncodeRequests(Requests(acquired[|xs| + 1..sent]))
    requires Answers(acquired[|xs|].req, p)
    ensures Flow(acquired, xs + [Exchange(acquired[|xs|].req, p)], outcomes, sent, pipe, rest,
                 rp + EncodeResponse(p))
  {
    hide Fits, EncodeRequest, EncodeResponse, EncodeRequests, EncodeResponses, Body, ResponseBody, Answers,
      DecodeRequest, DecodeResponse, UnLE;
    var longer := xs + [Exchange(acquired[|xs|].req, p)];
    EncodeResponsesSnoc(Responses(xs[|outcomes|..]), p);
    assert Responses(longer[|outcomes|..]) == Responses(xs[|outcomes|..]) + [p];
  }

  /** While a sent request is incomplete at the front, more of it follows. */
  lemma FlowMore(acquired: seq<Call>, xs: seq<Exchange>, outcomes: seq<Outcome>, sent: int,
                 pipe: seq<Call>, head: seq<Byte>, got: seq<Byte>, rest: seq<Byte>, rp: seq<Byte>)
    requires Flow(acquired, xs, outcomes, sent, pipe, head + got + rest, rp) && |xs| < sent
    requires (|head| < REQ_HEAD && got == []) || (|head| == REQ_HEAD && |got| < HeadSize(head))
    ensures rest != []
  {
    hide Fits, EncodeRequest, EncodeResponse, EncodeResponses, Body, ResponseBody, Answers, DecodeRequest,
      DecodeResponse, UnLE;
    var rs := Requests(acquired[|xs|..sent]);
    assert |head + got + rest| == |EncodeRequest(rs[0])| + |EncodeRequests(rs[1..])|;
    if |head| == REQ_HEAD {
      forall r | r in rs ensures Fits(r) {
        var i :| 0 <= i < |rs| && rs[i] == r;
        assert acquired[|xs| + i] in acquired;
      }
      Assoc(head, got, rest);
      FirstRequestHead(head, got + rest, rs);
    }
  }

  /** The bytes of a complete response at the front are the answer to the oldest unfinished call. */
  lemma FlowAnswer(acquired: seq<Call>, xs: seq<Exchange>, outcomes: seq<Outcome>, sent: int,
                   pipe: seq<Call>, rq: seq<Byte>, head: seq<Byte>, got: seq<Byte>, rest: seq<Byte>)
    requires Flow(acquired, xs, outcomes, sent, pipe, rq, head + got + rest)
    requires |head| == RESP_HEAD && |got| == UnLE(head)
    ensures var n := |outcomes|;
            && n < |xs|
            && got == ResponseBody(xs[n].resp)
            && DecodeResponse(acquired[n].req, got) == Some(xs[n].resp)
            && rest == EncodeResponses(Responses(xs[n + 1..]))
  {
    hide Fits, EncodeRequest, EncodeResponse, EncodeRequests, EncodeResponses, Body, ResponseBody,
      DecodeRequest, DecodeResponse, UnLE;
    var n := |outcomes|;
    var ps := Responses(xs[n..]);
    Assoc(head, got, rest);
    forall p | p in ps ensures RESP_HEAD + |ResponseBody(p)| <= INT_MAX {
      var i :| 0 <= i < |ps| && ps[i] == p;
      assert Answers(xs[n + i].req, xs[n + i].resp);
    }
    FirstResponseHead(head, got + rest, ps);
    SplitEqual(got, rest, ResponseBody(ps[0]), EncodeResponses(ps[1..]));
    ResponseRoundTrip(acquired[n].req, xs[n].resp);
    assert ps[1..] == Responses(xs[n + 1..]);
  }

  lemma FlowFinish(acquired: seq<Call>, xs: seq<Exchange>, outcomes: seq<Outcome>, sent: int,
                   pipe: seq<Call>, rq: seq<Byte>, rp: seq<Byte>, rest: seq<Byte>)
    requires Flow(acquired, xs, outcomes, sent, pipe, rq, rp)
    requires |outcomes| < |xs| && rest == EncodeResponses(Responses(xs[|outcomes| + 1..]))
    ensures pipe != [] && pipe[0] == acquired[|outcomes|]
    ensures Flow(acquired, xs,
                 outcomes + [Outcome(pipe[0].tid, pipe[0].req, xs[|outcomes|].resp)],
                 sent, pipe[1..], rq, rest)
  {
    hide Fits, EncodeRequest, EncodeResponse, EncodeRequests, EncodeResponses, Body, ResponseBody, Answers,
      DecodeRequest, DecodeResponse, UnLE;
  }

  // ----- Client steps

  lemma InitInv<S(!new)>(svc: Service<S>, s: State<S>, mem: S)
    requires Init(s, mem)
    ensures Inv(svc, mem, s)
  {
    assert Requests([]) == [] && Responses([]) == [];
  }

  lemma BeginKeeps<S(!new)>(svc: Service<S>, init: S, s: State<S>, a: Action, s': State<S>)
    requires Inv(svc, init, s) && a.Begin? && Next(svc, s, a, s')
    ensures Inv(svc, init, s')
  {
    hide Flow, Fits, Exchanges, AtomicRun, EncodeRequest, EncodeResponse, DecodeRequest, DecodeResponse,
      Answers, UnLE, Body;
    assert Receiving(s') == Receiving(s) && Sending(s') == Sending(s) && Sent(s') == Sent(s);
    assert RequestBytes(s') == RequestBytes(s) && ResponseBytes(s') == ResponseBytes(s);
  }

  lemma LockSendKeeps<S(!new)>(svc: Service<S>, init: S, s: State<S>, a: Action, s': State<S>)
    requires Inv(svc, init, s) && a.LockSend? && Next(svc, s, a, s')
    ensures Inv(svc, init, s')
  {
    hide Flow, Fits, Exchanges, AtomicRun, EncodeRequest, EncodeResponse, DecodeRequest, DecodeResponse,
      Answers, UnLE, Body;
    var c := Call(a.tid, s.threads[a.tid].req);
    FlowAcquire(s.acquired, Exchanges(s.log), s.outcomes, Receiving(s) + Sending(s),
                RequestBytes(s), ResponseBytes(s), c);
    assert Receiving(s') == Receiving(s) && Sending(s) == [] && Sending(s') == [c];
    assert Receiving(s) + Sending(s) + [c] == Receiving(s') + Sending(s');
    assert RequestBytes(s') == RequestBytes(s) && ResponseBytes(s') == ResponseBytes(s);
  }

  lemma SendKeeps<S(!new)>(svc: Service<S>, init: S, s: State<S>, a: Action, s': State<S>)
    requires Inv(svc, init, s) && a.Send? && Next(svc, s, a, s')
    ensures Inv(svc, init, s')
  {
    hide Flow, Fits, Exchanges, AtomicRun, EncodeRequest, EncodeResponse, DecodeRequest, DecodeResponse,
      Answers, UnLE, Body;
    var c := Call(a.tid, s.threads[a.tid].req);
    assert Receiving(s') == Receiving(s) && Sending(s') == Sending(s) == [c];
    FlowSend(s.acquired, Exchanges(s.log), s.outcomes, Receiving(s) + Sending(s),
             RequestBytes(s), ResponseBytes(s));
    assert RequestBytes(s') == RequestBytes(s) + EncodeRequest(c.req);
    assert ResponseBytes(s') == ResponseBytes(s);
  }

  lemma LockRecvKeeps<S(!new)>(svc: Service<S>, init: S, s: State<S>, a: Action, s': State<S>)
    requires Inv(svc, init, s) && a.LockRecv? && Next(svc, s, a, s')
    ensures Inv(svc, init, s')
  {
    hide Flow, Fits, Exchanges, AtomicRun, EncodeRequest, EncodeResponse, DecodeRequest, DecodeResponse,
      Answers, UnLE, Body;
    var c := Call(a.tid, s.threads[a.tid].req);
    assert Receiving(s) == [] && Sending(s) == [c] && Receiving(s') == [c] && Sending(s') == [];
    assert Receiving(s) + Sending(s) == [c] == Receiving(s') + Sending(s');
    assert Sent(s') == Sent(s);
    assert RequestBytes(s') == RequestBytes(s) && ResponseBytes(s') == ResponseBytes(s);
  }

  lemma UnlockSendKeeps<S(!new)>(svc: Service<S>, init: S, s: State<S>, a: Action, s': State<S>)
    requires Inv(svc, init, s) && a.UnlockSend? && Next(svc, s, a, s')
    ensures Inv(svc, init, s')
  {
    hide Flow, Fits, Exchanges, AtomicRun, EncodeRequest, EncodeResponse, DecodeRequest, DecodeResponse,
      Answers, UnLE, Body;
    assert Receiving(s') == Receiving(s) && Sending(s') == Sending(s) == [] && Sent(s') == Sent(s);
    assert RequestBytes(s') == RequestBytes(s) && ResponseBytes(s') == ResponseBytes(s);
  }

  lemma HeadDoneKeeps<S(!new)>(svc: Service<S>, init: S, s: State<S>, a: Action, s': State<S>)
    requires Inv(svc, init, s) && a.HeadDone? && Next(svc, s, a, s')
    ensures Inv(svc, init, s')
  {
    hide Flow, Fits, Exchanges, AtomicRun, EncodeRequest, EncodeResponse, DecodeRequest, DecodeResponse, Answers,
      UnLE, Body;
    var ph := s.threads[a.tid];
    assert s.recvOwner == Some(a.tid) && s.sendOwner != Some(a.tid);
    assert Receiving(s') == Receiving(s) && Sending(s') == Sending(s) && Sent(s') == Sent(s);
    assert RequestBytes(s') == RequestBytes(s);
    assert ph.got + [] == ph.got;
  }

  lemma RecvHeadKeeps<S(!new)>(svc: Service<S>, init: S, s: State<S>, a: Action, s': State<S>)
    requires Inv(svc, init, s) && a.RecvHead? && Next(svc, s, a, s')
    ensures Inv(svc, init, s')
  {
    hide Flow, Fits, Exchanges, AtomicRun, EncodeRequest, EncodeResponse, DecodeRequest, DecodeResponse, Answers,
      UnLE, Body;
    var ph := s.threads[a.tid];
    assert s.recvOwner == Some(a.tid) && s.sendOwner != Some(a.tid);
    assert Receiving(s') == Receiving(s) && Sending(s') == Sending(s) && Sent(s') == Sent(s);
    assert RequestBytes(s') == RequestBytes(s);
    TakeBytes(ph.got, s.n2c, a.count, Reply(s.node));
  }

  lemma RecvBodyKeeps<S(!new)>(svc: Service<S>, init: S, s: State<S>, a: Action, s': State<S>)
    requires Inv(svc, init, s) && a.RecvBody? && Next(svc, s, a, s')
    ensures Inv(svc, init, s')
  {
    hide Flow, Fits, Exchanges, AtomicRun, EncodeRequest, EncodeResponse, DecodeRequest, DecodeResponse, Answers,
      UnLE, Body;
    var ph := s.threads[a.tid];
    assert s.recvOwner == Some(a.tid) && s.sendOwner != Some(a.tid);
    assert Receiving(s') == Receiving(s) && Sending(s') == Sending(s) && Sent(s') == Sent(s);
    assert RequestBytes(s') == RequestBytes(s);
    Assoc(ph.head, ph.got, s.n2c[..a.count]);
    TakeBytes(ph.head + ph.got, s.n2c, a.count, Reply(s.node));
  }

  /** The bytes of a fully read body are the response to the reader's own request. */
  lemma OwnResponse<S(!new)>(svc: Service<S>, init: S, s: State<S>, t: nat)
    requires Inv(svc, init, s)
    requires t < |s.threads| && s.threads[t].ReadBody? && |s.threads[t].got| == UnLE(s.threads[t].head)
    ensures var xs, n := Exchanges(s.log), |s.outcomes|;
            && n < |xs|
            && s.acquired[n] == Call(t, s.threads[t].req)
            && xs[n].req == s.threads[t].req
            && s.threads[t].got == ResponseBody(xs[n].resp)
            && DecodeResponse(s.threads[t].req, s.threads[t].got) == Some(xs[n].resp)
            && s.n2c + Reply(s.node)
               == EncodeResponses(Responses(xs[n + 1..]))
  {
    var xs, n, ph := Exchanges(s.log), |s.outcomes|, s.threads[t];
    var rest := s.n2c + Reply(s.node);
    assert s.recvOwner == Some(t);
    FlowAnswer(s.acquired, xs, s.outcomes, Sent(s), Receiving(s) + Sending(s), RequestBytes(s),
               ph.head, ph.got, rest);
    assert s.acquired[n] == s.acquired[n..][0] == Call(t, ph.req);
  }

  lemma UnlockRecvKeeps<S(!new)>(svc: Service<S>, init: S, s: State<S>, a: Action, s': State<S>)
    requires Inv(svc, init, s) && a.UnlockRecv? && Next(svc, s, a, s')
    ensures Inv(svc, init, s')
  {
    hide Flow, Fits, Exchanges, AtomicRun, EncodeRequest, EncodeResponse, DecodeRequest, DecodeResponse,
      Answers, UnLE, Body,
      ResponseBody, EncodeRequests, EncodeResponses;
    var rest := s.n2c + Reply(s.node);
    assert s.recvOwner == Some(a.tid) && s.sendOwner != Some(a.tid);
    OwnResponse(svc, init, s, a.tid);
    FlowFinish(s.acquired, Exchanges(s.log), s.outcomes, Sent(s), Receiving(s) + Sending(s),
               RequestBytes(s), ResponseBytes(s), rest);
    var ph := s.threads[a.tid];
    assert Receiving(s) == [Call(a.tid, ph.req)] && Receiving(s') == [];
    assert Sending(s') == Sending(s) && Sent(s') == Sent(s);
    assert (Receiving(s) + Sending(s))[1..] == Receiving(s') + Sending(s');
    assert OwnerPhase(s'.threads, s'.recvOwner) == Idle;
    assert [] + rest == rest;
  }

  // ----- Node steps

  lemma NodeReadKeeps<S(!new)>(svc: Service<S>, init: S, s: State<S>, a: Action, s': State<S>)
    requires Inv(svc, init, s) && (a.NodeRecvHead? || a.NodeRecvBody? || a.NodeHeadDone?)
    requires Next(svc, s, a, s')
    ensures Inv(svc, init, s')
  {
    hide Flow, Fits, Exchanges, AtomicRun, EncodeRequest, EncodeResponse, DecodeRequest, DecodeResponse,
      Answers, UnLE, Body;
    assert Receiving(s') == Receiving(s) && Sending(s') == Sending(s) && Sent(s') == Sent(s);
    assert ResponseBytes(s') == ResponseBytes(s);
    if a.NodeHeadDone? {
      assert NodeRead(s'.node) == NodeRead(s.node);
    } else {
      assert NodeRead(s'.node) == NodeRead(s.node) + s.c2n[..a.count];
      TakeBytes(NodeRead(s.node), s.c2n, a.count, []);
      assert s.c2n + [] == s.c2n && s'.c2n + [] == s'.c2n;
    }
  }

  lemma NodeSendKeeps<S(!new)>(svc: Service<S>, init: S, s: State<S>, a: Action, s': State<S>)
    requires Inv(svc, init, s) && a.NodeSend? && Next(svc, s, a, s')
    ensures Inv(svc, init, s')
  {
    hide Flow, Fits, Exchanges, AtomicRun, EncodeRequest, EncodeResponse, DecodeRequest, DecodeResponse,
      Answers, UnLE, Body;
    assert Receiving(s') == Receiving(s) && Sending(s') == Sending(s) && Sent(s') == Sent(s);
    assert s'.n2c + [] == s.n2c + s.node.msg;
    assert RequestBytes(s') == RequestBytes(s) && ResponseBytes(s') == ResponseBytes(s);
  }

  lemma BackgroundKeeps<S(!new)>(svc: Service<S>, init: S, s: State<S>, a: Action, s': State<S>)
    requires Inv(svc, init, s) && a.NodeBackground? && Next(svc, s, a, s')
    ensures Inv(svc, init, s')
  {
    hide Flow, Fits, Exchanges, AtomicRun, EncodeRequest, EncodeResponse, DecodeRequest, DecodeResponse,
      Answers, UnLE, Body;
    AtomicRunSnoc(svc, init, s.log, s.mem, Event.Background, s'.mem);
    assert Exchanges(s'.log) == Exchanges(s.log);
    assert Receiving(s') == Receiving(s) && Sending(s') == Sending(s) && Sent(s') == Sent(s);
    assert RequestBytes(s') == RequestBytes(s) && ResponseBytes(s') == ResponseBytes(s);
  }

  /** What the node decodes is the oldest sent request that it has not served. */
  lemma OldestRequest<S(!new)>(svc: Service<S>, init: S, s: State<S>)
    requires Inv(svc, init, s) && NodeReady(s)
    ensures var n := |Exchanges(s.log)|;
            && n < Sent(s)
            && NodeRequest(s) == Dispatched(s.acquired[n].req)
            && s.c2n == EncodeRequests(Requests(s.acquired[n + 1..Sent(s)]))
  {
    hide Flow, Fits, Exchanges, AtomicRun, EncodeRequest, EncodeRequests, DecodeRequest, UnLE, Body;
    FlowOldest(s.acquired, Exchanges(s.log), s.outcomes, Sent(s), Receiving(s) + Sending(s),
               s.node.head, s.node.got, s.c2n, ResponseBytes(s));
  }

  lemma DispatchKeeps<S(!new)>(svc: Service<S>, init: S, s: State<S>, a: Action, s': State<S>)
    requires Proper(svc)
    requires Inv(svc, init, s) && a.NodeDispatch? && Next(svc, s, a, s')
    ensures Inv(svc, init, s')
  {
    hide Flow, Fits, Exchanges, AtomicRun, EncodeRequest, EncodeResponse, DecodeRequest, DecodeResponse,
      Answers, UnLE, Body;
    OldestRequest(svc, init, s);
    var xs := Exchanges(s.log);
    var r := s.acquired[|xs|].req;
    var p := s'.log[|s.log|].resp;
    assert svc.serve(s.mem, r, s'.mem, p);
    AtomicRunSnoc(svc, init, s.log, s.mem, Served(r, p), s'.mem);
    DispatchFlow(s, r, p, s');
  }

  lemma DispatchFlow<S>(s: State<S>, r: Request, p: Response, s': State<S>)
    requires StateFlow(s) && |Exchanges(s.log)| < Sent(s) && Sent(s) <= |s.acquired|
    requires r == s.acquired[|Exchanges(s.log)|].req && Answers(r, p) && !s.node.NodeReply?
    requires s.c2n == EncodeRequests(Requests(s.acquired[|Exchanges(s.log)| + 1..Sent(s)]))
    requires s' == s.(mem := s'.mem, node := NodeReply(EncodeResponse(p)), log := s.log + [Served(r, p)])
    requires Exchanges(s'.log) == Exchanges(s.log) + [Exchange(r, p)]
    ensures StateFlow(s')
  {
    hide Flow, Fits, Exchanges, EncodeResponse, Answers, EncodeRequests, EncodeResponses;
    FlowServe(s.acquired, Exchanges(s.log), s.outcomes, Sent(s), Receiving(s) + Sending(s), RequestBytes(s),
              s.c2n, ResponseBytes(s), p);
    assert Receiving(s') == Receiving(s) && Sending(s') == Sending(s) && Sent(s') == Sent(s);
    assert RequestBytes(s') == s.c2n;
    assert s.n2c + Reply(s.node) == s.n2c;
    Assoc(ClientRead(OwnerPhase(s.threads, s.recvOwner)), s.n2c, EncodeResponse(p));
  }

  lemma NextKeeps<S(!new)>(svc: Service<S>, init: S, s: State<S>, a: Action, s': State<S>)
    requires Proper(svc) && Inv(svc, init, s) && Next(svc, s, a, s')
    ensures Inv(svc, init, s')
  {
    match a
    case Begin(_, _) => BeginKeeps(svc, init, s, a, s');
    case LockSend(_) => LockSendKeeps(svc, init, s, a, s');
    case Send(_) => SendKeeps(svc, init, s, a, s');
    case LockRecv(_) => LockRecvKeeps(svc, init, s, a, s');
    case UnlockSend(_) => UnlockSendKeeps(svc, init, s, a, s');
    case RecvHead(_, _) => RecvHeadKeeps(svc, init, s, a, s');
    case HeadDone(_) => HeadDoneKeeps(svc, init, s, a, s');
    case RecvBody(_, _) => RecvBodyKeeps(svc, init, s, a, s');
    case UnlockRecv(_) => UnlockRecvKeeps(svc, init, s, a, s');
    case NodeRecvHead(_) => NodeReadKeeps(svc, init, s, a, s');
    case NodeHeadDone => NodeReadKeeps(svc, init, s, a, s');
    case NodeRecvBody(_) => NodeReadKeeps(svc, init, s, a, s');
    case NodeDispatch => DispatchKeeps(svc, init, s, a, s');
    case NodeSend => NodeSendKeeps(svc, init, s, a, s');
    case NodeBackground => BackgroundKeeps(svc, init, s, a, s');
  }

  // ----- Whole runs

  ghost predicate IsRun<S>(svc: Service<S>, mem: S, states: seq<State<S>>, acts: seq<Action>) {
    && |states| == |acts| + 1
    && Init(states[0], mem)
    && forall i :: 0 <= i < |acts| ==> Next(svc, states[i], acts[i], states[i + 1])
  }

  lemma {:induction false} RunKeepsInv<S(!new)>(svc: Service<S>, mem: S, states: seq<State<S>>,
                                               acts: seq<Action>, i: nat)
    requires Proper(svc) && IsRun(svc, mem, states, acts) && i < |states|
    ensures Inv(svc, mem, states[i])
  {
    hide Inv, Init, Next;
    if i == 0 {
      InitInv(svc, states[0], mem);
    } else {
      RunKeepsInv(svc, mem, states, acts, i - 1);
      NextKeeps(svc, mem, states[i - 1], acts[i - 1], states[i]);
    }
  }

  predicate AllIdle<S>(s: State<S>) {
    forall t :: 0 <= t < |s.threads| ==> s.threads[t].Idle?
  }

  /** Linearizability. In every state of every run, the node's state is what the atomic history
      `log` produces from the initial state, the calls of that history are the calls in `send_mut`
      order, and the i-th call to return got exactly the response of the i-th atomic call.
      Once all threads are idle, every call has been served and has returned. */
  lemma Linearizability<S(!new)>(svc: Service<S>, mem: S, states: seq<State<S>>, acts: seq<Action>, i: nat)
    requires Proper(svc) && IsRun(svc, mem, states, acts) && i < |states|
    ensures var s, xs := states[i], Exchanges(states[i].log);
            && AtomicRun(svc, mem, s.log, s.mem)
            && |s.outcomes| <= |xs| <= |s.acquired|
            && (forall k :: 0 <= k < |xs| ==> xs[k].req == s.acquired[k].req)
            && (forall k :: 0 <= k < |s.outcomes| ==>
                  s.outcomes[k] == Outcome(s.acquired[k].tid, s.acquired[k].req, xs[k].resp))
            && (AllIdle(s) ==> |s.outcomes| == |xs| == |s.acquired|)
  {
    RunKeepsInv(svc, mem, states, acts, i);
    var s := states[i];
    assert StateFlow(s);
    if AllIdle(s) {
      assert Receiving(s) + Sending(s) == [];
    }
  }

  /** Histories only grow, so linearization respects real time: a call that has returned by state
      `i` stands before every call that takes `send_mut` after state `i`. */
  lemma {:induction false} RealTimeOrder<S(!new)>(svc: Service<S>, mem: S, states: seq<State<S>>,
                                                 acts: seq<Action>, i: nat, j: nat)
    requires Proper(svc) && IsRun(svc, mem, states, acts) && i <= j < |states|
    ensures states[i].acquired <= states[j].acquired
    ensures states[i].outcomes <= states[j].outcomes
    ensures states[i].log <= states[j].log
    ensures |states[i].outcomes| <= |Exchanges(states[i].log)| <= |states[i].acquired|
    decreases j
  {
    hide AtomicRun, Exchanges, Fits, DecodeRequest, DecodeResponse, EncodeRequest, UnLE, Proper;
    Linearizability(svc, mem, states, acts, i);
    if i < j {
      RealTimeOrder(svc, mem, states, acts, i, j - 1);
      assert Next(svc, states[j - 1], acts[j - 1], states[j]);
      OnlyGrows(svc, states[j - 1], acts[j - 1], states[j]);
    }
  }

  lemma OnlyGrows<S>(svc: Service<S>, s: State<S>, a: Action, s': State<S>)
    requires Next(svc, s, a, s')
    ensures s.acquired <= s'.acquired && s.outcomes <= s'.outcomes && s.log <= s'.log
  {
    hide Fits, DecodeRequest, DecodeResponse, EncodeRequest, EncodeResponse, UnLE;
  }

  /** No response is ever stolen: when a thread returns from its call, what it decoded is the
      response the node computed for that thread's own request, in that thread's own turn. */
  lemma NoStolenResponse<S(!new)>(svc: Service<S>, mem: S, states: seq<State<S>>, acts: seq<Action>, i: nat)
    requires Proper(svc) && IsRun(svc, mem, states, acts) && i < |acts| && acts[i].UnlockRecv?
    ensures var s, t := states[i], acts[i].tid;
            var xs, n := Exchanges(s.log), |s.outcomes|;
            && t < |s.threads| && s.threads[t].ReadBody?
            && n < |xs| && n < |s.acquired|
            && s.acquired[n] == Call(t, s.threads[t].req)
            && xs[n].req == s.threads[t].req
            && states[i + 1].outcomes == s.outcomes + [Outcome(t, xs[n].req, xs[n].resp)]
  {
    hide AtomicRun, Exchanges, Fits, DecodeRequest, EncodeRequest, EncodeResponse, DecodeResponse, UnLE,
      ResponseBody, Body, Proper;
    var s := states[i];
    RunKeepsInv(svc, mem, states, acts, i);
    assert Next(svc, s, acts[i], states[i + 1]);
    OwnResponse(svc, mem, s, acts[i].tid);
  }

  /** At most two requests are outstanding: the `recv_mut` holder's, then that of the `send_mut`
      holder; their bytes, and no others, are in flight, in that order. */
  lemma PipelineBound<S(!new)>(svc: Service<S>, mem: S, states: seq<State<S>>, acts: seq<Action>, i: nat)
    requires Proper(svc) && IsRun(svc, mem, states, acts) && i < |states|
    ensures var s, xs := states[i], Exchanges(states[i].log);
            && |s.outcomes| <= |xs| <= Sent(s) <= |s.acquired| <= |s.outcomes| + 2
            && s.acquired[|s.outcomes|..] == Receiving(s) + Sending(s)
            && RequestBytes(s) == EncodeRequests(Requests(s.acquired[|xs|..Sent(s)]))
            && ResponseBytes(s) == EncodeResponses(Responses(xs[|s.outcomes|..]))
  {
    hide AtomicRun, Exchanges, Fits, EncodeRequests, EncodeResponses, Answers, Proper;
    RunKeepsInv(svc, mem, states, acts, i);
    assert StateFlow(states[i]);
  }

  // ----- Each thread's own calls

  /** The requests that thread `t` has begun, taken `send_mut` for, and got an answer to. */
  function Begun(acts: seq<Action>, t: nat): seq<Request> {
    if acts == [] then []
    else
      var last := acts[|acts| - 1];
      Begun(acts[..|acts| - 1], t) + if last.Begin? && last.tid == t then [last.req] else []
  }

  function AcquiredBy(calls: seq<Call>, t: nat): seq<Request> {
    if calls == [] then []
    else
      var last := calls[|calls| - 1];
      AcquiredBy(calls[..|calls| - 1], t) + if last.tid == t then [last.req] else []
  }

  function AnsweredTo(outcomes: seq<Outcome>, t: nat): seq<Request> {
    if outcomes == [] then []
    else
      var last := outcomes[|outcomes| - 1];
      AnsweredTo(outcomes[..|outcomes| - 1], t) + if last.tid == t then [last.req] else []
  }

  /** The call that the thread is in. */
  function Unanswered(ph: Phase): seq<Request> {
    if ph.Idle? then [] else [ph.req]
  }

  /** The call for which it has not got `send_mut` yet. */
  function Unsent(ph: Phase): seq<Request> {
    if ph.WantSend? then [ph.req] else []
  }

  /** What a step does to the calls and to the phase of thread `t`. */
  lemma PhaseStep<S>(svc: Service<S>, s: State<S>, a: Action, s': State<S>, t: nat)
    requires Next(svc, s, a, s') && t < |s.threads|
    ensures |s'.threads| == |s.threads|
    ensures var ph, ph' := s.threads[t], s'.threads[t];
            && s'.acquired == s.acquired + (if a.LockSend? then [Call(a.tid, s'.threads[a.tid].req)] else [])
            && |s'.outcomes| == |s.outcomes| + (if a.UnlockRecv? then 1 else 0) && s.outcomes <= s'.outcomes
            && (a.UnlockRecv? ==> s'.outcomes[|s.outcomes|].tid == a.tid)
            && (if a == LockSend(t) then ph.WantSend? && ph'.HoldSend? && ph'.req == ph.req
                else if a == UnlockRecv(t) then
                  ph.ReadBody? && ph'.Idle? && s'.outcomes[|s.outcomes|].req == ph.req
                else if a.Begin? && a.tid == t then ph.Idle? && ph' == WantSend(a.req)
                else Unsent(ph') == Unsent(ph) && Unanswered(ph') == Unanswered(ph))
  {
    hide Fits, DecodeRequest, DecodeResponse, EncodeRequest, EncodeResponse, UnLE;
  }

  lemma StepOfThread<S>(svc: Service<S>, s: State<S>, a: Action, s': State<S>, t: nat)
    requires Next(svc, s, a, s') && t < |s.threads|
    ensures |s'.threads| == |s.threads|
    ensures AcquiredBy(s'.acquired, t) + Unsent(s'.threads[t])
         == AcquiredBy(s.acquired, t) + Unsent(s.threads[t]) + (if a.Begin? && a.tid == t then [a.req] else [])
    ensures AnsweredTo(s'.outcomes, t) + Unanswered(s'.threads[t])
         == AnsweredTo(s.outcomes, t) + Unanswered(s.threads[t]) + (if a.Begin? && a.tid == t then [a.req] else [])
  {
    hide Next;
    PhaseStep(svc, s, a, s', t);
    if a.LockSend? {
      assert s'.acquired[..|s.acquired|] == s.acquired && s'.outcomes == s.outcomes;
    } else if a.UnlockRecv? {
      assert s'.outcomes[..|s.outcomes|] == s.outcomes && s'.acquired == s.acquired;
    } else {
      assert s'.acquired == s.acquired && s'.outcomes == s.outcomes;
    }
  }

  /** Every thread's calls are made and answered in its own order, each exactly once: what it has begun is what
      it has got answers to, up to the call that it is in, and what it has taken `send_mut` for, up to the
      call that waits for it. */
  lemma {:induction false} ProgramOrder<S>(svc: Service<S>, mem: S, states: seq<State<S>>, acts: seq<Action>,
                                          i: nat, t: nat)
    requires IsRun(svc, mem, states, acts) && i < |states| && t < |states[0].threads|
    ensures var s := states[i];
            && |s.threads| == |states[0].threads|
            && AcquiredBy(s.acquired, t) + Unsent(s.threads[t]) == Begun(acts[..i], t)
            && AnsweredTo(s.outcomes, t) + Unanswered(s.threads[t]) == Begun(acts[..i], t)
  {
    hide Next;
    if i > 0 {
      ProgramOrder(svc, mem, states, acts, i - 1, t);
      StepOfThread(svc, states[i - 1], acts[i - 1], states[i], t);
      assert acts[..i][..i - 1] == acts[..i - 1];
    }
  }
}
