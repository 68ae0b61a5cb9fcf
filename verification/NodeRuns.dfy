/** The node's files and remote threads over whole runs of the byte-level protocol: which calls decide what
    is stored under a name, and what a join gives back. */
module NodeRuns {
  import opened Bytes
  import opened Wire
  import opened NodeHeap
  import opened Rpc
  import opened RpcSafety
  import opened RpcProgress
  import opened NodeModel
  import opened RemoteHeap

  /** The request that the step serves. */
  ghost function Serving<S>(s: State<S>, a: Action): Option<Request> {
    if a.NodeDispatch? && NodeReady(s) && NodeRequest(s).Dispatched? then Some(NodeRequest(s).req) else None
  }

  // ----- Uploaded files

  predicate Uploads(r: Request, name: seq<Byte>) {
    r.SoUpload? && r.name == name
  }

  /** What the last upload under this name carried. */
  function LastUpload(xs: seq<Exchange>, name: seq<Byte>): Option<seq<Byte>> {
    if xs == [] then None
    else
      var last := xs[|xs| - 1].req;
      if Uploads(last, name) then Some(last.file) else LastUpload(xs[..|xs| - 1], name)
  }

  /** What is stored under a name. */
  function Stored(files: map<seq<Byte>, seq<Byte>>, name: seq<Byte>): Option<seq<Byte>> {
    if name in files then Some(files[name]) else None
  }

  lemma {:induction false} LastUploadAt(xs: seq<Exchange>, name: seq<Byte>, k: nat)
    requires k < |xs| && Uploads(xs[k].req, name) && forall j :: k < j < |xs| ==> !Uploads(xs[j].req, name)
    ensures LastUpload(xs, name) == Some(xs[k].req.file)
  {
    if k < |xs| - 1 {
      LastUploadAt(xs[..|xs| - 1], name, k);
    }
  }

  lemma {:induction false} NoUpload(xs: seq<Exchange>, name: seq<Byte>)
    requires forall j :: 0 <= j < |xs| ==> !Uploads(xs[j].req, name)
    ensures LastUpload(xs, name) == None
  {
    if xs != [] {
      NoUpload(xs[..|xs| - 1], name);
    }
  }

  /** One event of the node's history. */
  lemma EventStores<L(!new)>(code: Code<L>, n: Node<L>, e: Event, n': Node<L>, name: seq<Byte>)
    requires AtomicStep(NodeService(code), n, e, n')
    ensures Stored(n'.files, name)
         == if e.Served? && Uploads(e.req, name) then Some(e.req.file) else Stored(n.files, name)
  {
    hide Mapped, Live, Alloc, ServeRealloc, Valid, LE, Write, Release, Read;
    if e.Served? {
      assert Serve(code, n, e.req, n', e.resp);
    } else {
      assert Work(code, n, n');
    }
  }

  lemma {:induction false} HistoryStores<L(!new)>(code: Code<L>, n: Node<L>, log: seq<Event>, n': Node<L>,
                                                 name: seq<Byte>)
    requires AtomicRun(NodeService(code), n, log, n')
    ensures var last := LastUpload(Exchanges(log), name);
            Stored(n'.files, name) == if last.Some? then last else Stored(n.files, name)
    decreases |log|
  {
    hide AtomicStep, Stored, Uploads;
    if log != [] {
      var before, last := log[..|log| - 1], log[|log| - 1];
      var mid :| AtomicRun(NodeService(code), n, before, mid) && AtomicStep(NodeService(code), mid, last, n');
      HistoryStores(code, n, before, mid, name);
      EventStores(code, mid, last, n', name);
      var xs := Exchanges(before);
      if last.Served? {
        assert (xs + [Exchange(last.req, last.resp)])[..|xs|] == xs;
      }
    }
  }

  /** None of the calls `lo` to `hi`, in `send_mut` order, uploads under this name. */
  ghost predicate NoneFrom<S>(s: State<S>, lo: nat, hi: nat, name: seq<Byte>)
    requires hi <= |s.acquired|
  {
    forall j :: lo <= j < hi ==> !Uploads(s.acquired[j].req, name)
  }

  /** In every state of every run, the node stores under each name exactly the bytes of the last upload call
      under that name that it has served, in `send_mut` order; without one, what was there before. */
  lemma FilesAreUploads<L(!new)>(code: Code<L>, n: Node<L>, states: seq<State<Node<L>>>, acts: seq<Action>,
                                 i: nat, name: seq<Byte>)
    requires IsRun(NodeService(code), n, states, acts) && i < |states|
    ensures var s, served := states[i], |Exchanges(states[i].log)|;
            && served <= |s.acquired|
            && (forall k :: 0 <= k < served && Uploads(s.acquired[k].req, name) && NoneFrom(s, k + 1, served, name) ==>
                  Stored(s.mem.files, name) == Some(s.acquired[k].req.file))
            && (NoneFrom(s, 0, served, name) ==> Stored(s.mem.files, name) == Stored(n.files, name))
  {
    hide IsRun, Exchanges, AtomicRun, Proper, Stored, LastUpload;
    HandlersAnswer(code);
    Linearizability(NodeService(code), n, states, acts, i);
    var s, xs := states[i], Exchanges(states[i].log);
    HistoryStores(code, n, s.log, s.mem, name);
    forall k | 0 <= k < |xs| && Uploads(s.acquired[k].req, name) && NoneFrom(s, k + 1, |xs|, name)
      ensures Stored(s.mem.files, name) == Some(s.acquired[k].req.file)
    {
      LastUploadAt(xs, name, k);
    }
    if NoneFrom(s, 0, |xs|, name) {
      NoUpload(xs, name);
    }
  }

  /** The step of a run that serves an upload stores the file and touches no other name; no other step, and
      no step of a remote thread, changes any file. */
  lemma StepStores<L(!new)>(code: Code<L>, n: Node<L>, states: seq<State<Node<L>>>, acts: seq<Action>, i: nat)
    requires IsRun(NodeService(code), n, states, acts) && i < |acts|
    ensures var served := Serving(states[i], acts[i]);
            forall name :: Stored(states[i + 1].mem.files, name)
              == if served.Some? && Uploads(served.value, name) then Some(served.value.file)
                 else Stored(states[i].mem.files, name)
  {
    hide Stored, Serve, DecodeRequest, DecodeResponse, EncodeRequest, EncodeResponse, UnLE, Fits, Init;
    var s, a, s' := states[i], acts[i], states[i + 1];
    assert Next(NodeService(code), s, a, s');
    forall name ensures Stored(s'.mem.files, name)
                     == if Serving(s, a).Some? && Uploads(Serving(s, a).value, name) then Some(Serving(s, a).value.file)
                        else Stored(s.mem.files, name)
    {
      if Serving(s, a).Some? || a.NodeBackground? {
        EventStores(code, s.mem, s'.log[|s.log|], s'.mem, name);
      } else {
        assert s'.mem == s.mem;
      }
    }
  }

  // ----- Remote threads

  /** What one event of the node's history does to thread `tid`: a join takes it away and answers its return
      value, a run starts it under an identifier that was not in use, and only its own steps change it. */
  ghost predicate ThreadEvent<L>(code: Code<L>, n: Node<L>, e: Event, n': Node<L>, tid: Ptr) {
    if e.Served? && e.req == Join(tid) then
      && tid in n.threads && tid !in n'.threads
      && e.resp.JoinR? && code.result(n.threads[tid]) == Some(e.resp.ret)
    else if e.Served? && e.req.Run? && e.resp == RunR(tid) then
      tid !in n.threads && tid in n'.threads && n'.threads[tid] == code.start(e.req.func, e.req.args)
    else
      && (tid in n'.threads <==> tid in n.threads)
      && (tid in n.threads && n'.threads[tid] != n.threads[tid] ==>
            e.Background? && code.step(n.threads[tid], n.heap, n'.threads[tid], n'.heap))
  }

  lemma EventThreads<L(!new)>(code: Code<L>, n: Node<L>, e: Event, n': Node<L>, tid: Ptr)
    requires AtomicStep(NodeService(code), n, e, n')
    ensures ThreadEvent(code, n, e, n', tid)
  {
    hide Mapped, Live, Alloc, ServeRealloc, Valid, LE, Write, Release, Read;
    if e.Served? {
      assert Serve(code, n, e.req, n', e.resp);
    } else {
      assert Work(code, n, n');
    }
  }

  lemma StepThreads<L(!new)>(code: Code<L>, s: State<Node<L>>, a: Action, s': State<Node<L>>, tid: Ptr)
    requires Next(NodeService(code), s, a, s')
    ensures if Serving(s, a).Some? || a.NodeBackground? then
              && |s.log| < |s'.log| && ThreadEvent(code, s.mem, s'.log[|s.log|], s'.mem, tid)
              && s'.log == s.log + [s'.log[|s.log|]]
              && (if a.NodeBackground? then s'.log[|s.log|].Background?
                  else s'.log[|s.log|].Served? && s'.log[|s.log|].req == Serving(s, a).value)
            else s'.mem == s.mem
  {
    hide ThreadEvent, Serve, DecodeRequest, DecodeResponse, EncodeRequest, EncodeResponse, UnLE, Fits;
    if Serving(s, a).Some? || a.NodeBackground? {
      EventThreads(code, s.mem, s'.log[|s.log|], s'.mem, tid);
    }
  }

  /** A property of remote code that its steps keep. */
  ghost predicate Closed<L(!new)>(code: Code<L>, keeps: L -> bool) {
    forall l, h, l', h' :: code.step(l, h, l', h') && keeps(l) ==> keeps(l')
  }

  /** Until it is joined, a thread stays, and only its own steps change it. */
  lemma {:induction false} ThreadKept<L(!new)>(code: Code<L>, n: Node<L>, states: seq<State<Node<L>>>,
                                              acts: seq<Action>, i: nat, j: nat, tid: Ptr, keeps: L -> bool)
    requires IsRun(NodeService(code), n, states, acts) && i <= j < |states| && Closed(code, keeps)
    requires tid in states[i].mem.threads && keeps(states[i].mem.threads[tid])
    requires forall k :: i <= k < j ==> Serving(states[k], acts[k]) != Some(Join(tid))
    ensures tid in states[j].mem.threads && keeps(states[j].mem.threads[tid])
    decreases j
  {
    hide Next, Serving, Init;
    if i < j {
      ThreadKept(code, n, states, acts, i, j - 1, tid, keeps);
      StepThreads(code, states[j - 1], acts[j - 1], states[j], tid);
    }
  }

  /** The thread that a run call started, at the time when the node serves the call. */
  lemma RunStarts<L(!new)>(code: Code<L>, n: Node<L>, states: seq<State<Node<L>>>, acts: seq<Action>,
                           k: nat, func: Ptr, args: Ptr) returns (tid: Ptr)
    requires IsRun(NodeService(code), n, states, acts) && Dispatches(states, acts, k, Run(func, args))
    ensures Exchanges(states[k + 1].log) == Exchanges(states[k].log) + [Exchange(Run(func, args), RunR(tid))]
    ensures tid !in states[k].mem.threads && tid in states[k + 1].mem.threads
    ensures states[k + 1].mem.threads[tid] == code.start(func, args)
  {
    hide Exchanges, Serve, DecodeRequest, EncodeResponse, UnLE, Init;
    var s, s' := states[k], states[k + 1];
    assert Next(NodeService(code), s, acts[k], s');
    assert s'.log[|s.log|].resp.RunR? by {
      HandlersAnswer(code);
      assert NodeService(code).serve(s.mem, Run(func, args), s'.mem, s'.log[|s.log|].resp);
    }
    tid := s'.log[|s.log|].resp.tid;
    StepThreads(code, s, acts[k], s', tid);
    ServedOne(s.log, Served(Run(func, args), RunR(tid)));
  }

  /** A join returns the result of the thread that the run call started. In any run, let the node serve a call
      `Run(func, args)` that is answered with `tid`, and later a call `Join(tid)`, none in between. The join
      call, whichever thread made it, returns the return value of a thread state that has every property which
      holds of `func` started on `args` and which steps of remote code keep; and the thread is gone. */
  lemma JoinReturnsResult<L(!new)>(code: Code<L>, n: Node<L>, states: seq<State<Node<L>>>, acts: seq<Action>,
                                   run: nat, join: nat, i: nat, func: Ptr, args: Ptr, tid: Ptr, keeps: L -> bool)
    returns (l: L, ret: Ptr)
    requires IsRun(NodeService(code), n, states, acts) && run < join < i < |states|
    requires Dispatches(states, acts, run, Run(func, args)) && Dispatches(states, acts, join, Join(tid))
    requires Exchanges(states[run + 1].log) == Exchanges(states[run].log) + [Exchange(Run(func, args), RunR(tid))]
    requires forall k :: run < k < join ==> Serving(states[k], acts[k]) != Some(Join(tid))
    requires Closed(code, keeps) && keeps(code.start(func, args))
    ensures keeps(l) && code.result(l) == Some(ret)
    ensures tid in states[join].mem.threads && states[join].mem.threads[tid] == l
    ensures tid !in states[join + 1].mem.threads
    ensures var s, joining := states[i], |Exchanges(states[join].log)|;
            && joining < |s.acquired| && s.acquired[joining].req == Join(tid)
            && (joining < |s.outcomes| ==>
                  s.outcomes[joining] == Outcome(s.acquired[joining].tid, Join(tid), JoinR(ret)))
  {
    hide Exchanges, Next, Init, Closed, Serving;
    var same := RunStarts(code, n, states, acts, run, func, args);
    assert (Exchanges(states[run].log) + [Exchange(Run(func, args), RunR(same))])[|Exchanges(states[run].log)|]
        == Exchange(Run(func, args), RunR(tid));
    ThreadKept(code, n, states, acts, run + 1, join, tid, keeps);
    var s, s' := states[join], states[join + 1];
    assert Serving(s, acts[join]) == Some(Join(tid)) by { ServingIs(states, acts, join, Join(tid)); }
    StepThreads(code, s, acts[join], s', tid);
    l := s.mem.threads[tid];
    var p := s'.log[|s.log|].resp;
    ret := p.ret;
    ServedOne(s.log, Served(Join(tid), p));
    ReturnedBy(code, n, states, acts, join, i, Join(tid), p);
  }

  lemma ServingIs<S>(states: seq<State<S>>, acts: seq<Action>, k: nat, r: Request)
    requires Dispatches(states, acts, k, r)
    ensures Serving(states[k], acts[k]) == Some(r)
  {
  }
}
