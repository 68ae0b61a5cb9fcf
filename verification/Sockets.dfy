/** The socket layer: exact-length receives over a transport that splits bytes as it likes, request
    messages filled in place, and the node's read-dispatch-respond loop. */
module Sockets {
  import opened Bytes
  import opened Wire

  /** `memcpy` into a buffer. */
  method CopyIn(buffer: array<Byte>, offset: nat, data: seq<Byte>)
    requires offset + |data| <= buffer.Length
    modifies buffer
    ensures buffer[..] == old(buffer[..offset]) + data + old(buffer[offset + |data|..])
  {
    var i := 0;
    while i < |data|
      invariant 0 <= i <= |data|
      invariant forall k :: 0 <= k < buffer.Length ==>
        buffer[k] == if offset <= k < offset + i then data[k - offset] else old(buffer[k])
    {
      buffer[offset + i] := data[i];
      i := i + 1;
    }
  }

  /** A buffer that is filled up to `at` from `all`, after any number of further bytes. */
  lemma Advance(all: seq<Byte>, was: seq<Byte>, at: nat, now: seq<Byte>)
    requires at <= |all| && at <= |was| && now == all[..at] + was[at..]
    ensures forall k: nat :: k <= |all| - at && at + k <= |was| ==>
              && now[..at] + all[at..][..k] + now[at + k..] == all[..at + k] + was[at + k..]
              && all[at..][k..] == all[at + k..]
  {
  }

  /** One end of a TCP connection. `segments` is what the transport will hand to successive `recv`
      calls before the peer closes; `sent` is what this end has written. */
  class Conn {
    var sockfd: int
    var segments: seq<seq<Byte>>
    var sent: seq<Byte>

    constructor (fd: int, arriving: seq<seq<Byte>>)
      ensures sockfd == fd && segments == arriving && sent == []
    {
      sockfd, segments, sent := fd, arriving, [];
    }

    /** A segment is never empty: `recv` returns zero only when the peer has closed. */
    ghost predicate Valid()
      reads this
    {
      forall s :: s in segments ==> s != []
    }

    ghost function Pending(): seq<Byte>
      reads this
    {
      Flatten(segments)
    }

    /** `recv`: at most `n` bytes of the next segment, copied to `buffer` at `offset`. */
    method Recv(buffer: array<Byte>, offset: nat, n: nat) returns (bytes: nat)
      requires Valid() && 0 < n && offset + n <= buffer.Length
      modifies this`segments, buffer
      ensures Valid() && bytes <= n
      ensures bytes == 0 <==> old(Pending()) == []
      ensures bytes <= |old(Pending())|
      ensures Pending() == old(Pending())[bytes..]
      ensures buffer[..] == old(buffer[..offset]) + old(Pending())[..bytes] + old(buffer[offset + bytes..])
    {
      if segments == [] {
        return 0;
      }
      var first := segments[0];
      bytes := if |first| < n then |first| else n;
      ghost var rest := Flatten(segments[1..]);
      assert first in segments;
      CopyIn(buffer, offset, first[..bytes]);
      assert first[..bytes] == (first + rest)[..bytes];
      if bytes == |first| {
        ghost var all := segments;
        segments := segments[1..];
        assert forall s :: s in segments ==> s in all;
        assert rest == (first + rest)[bytes..];
      } else {
        ghost var all := segments;
        segments := [first[bytes..]] + segments[1..];
        assert forall s :: s in segments ==> s == first[bytes..] || s in all;
        assert first[bytes..] + rest == (first + rest)[bytes..];
      }
    }

    /** `tcp_recv_n`: exactly `n` bytes, however they were split; -1 if the peer closes first. */
    method TcpRecvN(buffer: array<Byte>, n: nat) returns (err: int)
      requires Valid() && n <= buffer.Length
      modifies this`segments, buffer
      ensures Valid()
      ensures err == if n <= |old(Pending())| then 0 else -1
      ensures err == 0 ==>
                Pending() == old(Pending())[n..] &&
                buffer[..] == old(Pending())[..n] + old(buffer[n..])
      ensures err == -1 ==> Pending() == []
    {
      hide Flatten;
      ghost var all, was := Pending(), buffer[..];
      var received := 0;
      while received < n
        invariant Valid() && received <= n && received <= |all|
        invariant Pending() == all[received..]
        invariant buffer[..] == all[..received] + was[received..]
      {
        Advance(all, was, received, buffer[..]);
        var bytes := Recv(buffer, received, n - received);
        if bytes == 0 {
          return -1;
        }
        received := received + bytes;
      }
      return 0;
    }

    /** `dic_conn_recv`: marks the connection closed when the bytes do not come. */
    method ConnRecv(buffer: array<Byte>, n: nat, nullTerminate: bool) returns (res: int)
      requires Valid() && n <= buffer.Length && (nullTerminate ==> n < buffer.Length)
      modifies this`segments, this`sockfd, buffer
      ensures Valid()
      ensures res == if n <= |old(Pending())| then 0 else 1
      ensures res == 0 ==>
                && sockfd == old(sockfd)
                && Pending() == old(Pending())[n..]
                && buffer[..] == old(Pending())[..n]
                     + if nullTerminate then [0] + old(buffer[n + 1..]) else old(buffer[n..])
      ensures res == 1 ==> sockfd == -1 && Pending() == []
    {
      var err := TcpRecvN(buffer, n);
      if err == -1 {
        sockfd := -1;
        return 1;
      }
      if nullTerminate {
        buffer[n] := 0;
      }
      return 0;
    }
  }

  // ----- Messages filled in place

  /** Assigns a field, just behind what has been filled already. */
  method Put(msg: array<Byte>, offset: nat, data: seq<Byte>) returns (next: nat)
    requires offset + |data| <= msg.Length
    modifies msg
    ensures next == offset + |data|
    ensures msg[..next] == old(msg[..offset]) + data
  {
    CopyIn(msg, offset, data);
    next := offset + |data|;
  }

  /** `sizeof` of the packed body struct. */
  function FixedSize(r: Request): nat {
    match r
    case Malloc(_) => 4
    case Realloc(_, _) => 12
    case Free(_) => 8
    case MemcpyC2N(_, _) => 12
    case MemcpyN2C(_, _) => 12
    case SoLoad(_) => 4
    case SoUnload(_) => 8
    case SoUpload(_, _) => 12
    case FuncLoad(_, _) => 12
    case Run(_, _) => 16
    case Join(_) => 8
  }

  /** Bytes behind the struct. */
  function DynamicSize(r: Request): nat {
    match r
    case MemcpyC2N(_, data) => |data|
    case SoLoad(name) => |name| + 1
    case SoUpload(name, file) => |name| + 1 + |file|
    case FuncLoad(_, symbol) => |symbol|
    case _ => 0
  }

  /** The fields that a builder assigns, in struct order, then the tail. */
  function Layout(r: Request): seq<seq<Byte>> {
    match r
    case Malloc(size) => [LE(size, 4)]
    case Realloc(ptr, size) => [LE(ptr, 8), LE(size, 4)]
    case Free(ptr) => [LE(ptr, 8)]
    case MemcpyC2N(dest, data) => [LE(dest, 8), LE(|data|, 4), data]
    case MemcpyN2C(src, size) => [LE(src, 8), LE(size, 4)]
    case SoLoad(name) => [LE(|name| + 1, 4), name, [0]]
    case SoUnload(handle) => [LE(handle, 8)]
    case SoUpload(name, file) => [LE(|file|, 8), LE(|name|, 4), name, [0], file]
    case FuncLoad(handle, symbol) => [LE(handle, 8), LE(|symbol|, 4), symbol]
    case Run(func, args) => [LE(func, 8), LE(args, 8)]
    case Join(tid) => [LE(tid, 8)]
  }

  lemma FlattenCons(a: seq<Byte>, rest: seq<seq<Byte>>)
    ensures Flatten([a] + rest) == a + Flatten(rest)
  {
    assert ([a] + rest)[1..] == rest;
  }

  lemma FlattenFew(a: seq<Byte>, b: seq<Byte>, c: seq<Byte>, d: seq<Byte>, e: seq<Byte>)
    ensures Flatten([a]) == a
    ensures Flatten([a, b]) == a + b
    ensures Flatten([a, b, c]) == a + b + c
    ensures Flatten([a, b, c, d, e]) == a + b + c + d + e
  {
    FlattenCons(e, []);
    FlattenCons(d, [e]);
    FlattenCons(c, [d, e]);
    FlattenCons(b, [c, d, e]);
    FlattenCons(a, [b, c, d, e]);
    FlattenCons(c, []);
    FlattenCons(b, [c]);
    FlattenCons(a, [b, c]);
    FlattenCons(b, []);
    FlattenCons(a, [b]);
    FlattenCons(a, []);
  }

  /** The fields laid end to end are the body, and the sizes the builders compute are its length. */
  lemma LayoutIsBody(r: Request)
    ensures Flatten(Layout(r)) == Body(r)
    ensures FixedSize(r) + DynamicSize(r) == |Body(r)|
  {
    hide LE, Flatten;
    var fs := Layout(r);
    var z := [];
    FlattenFew(fs[0], if |fs| > 1 then fs[1] else z, if |fs| > 2 then fs[2] else z,
               if |fs| > 3 then fs[3] else z, if |fs| > 4 then fs[4] else z);
  }

  /** The request builders: allocate head, struct and tail, set the head, then fill the fields. */
  method BuildRequest(r: Request) returns (msg: array<Byte>)
    requires Fits(r)
    ensures fresh(msg) && msg[..] == EncodeRequest(r)
  {
    hide LE, Fits, Body, Layout, FixedSize, DynamicSize;
    LayoutIsBody(r);
    var msgLen := REQ_HEAD + FixedSize(r) + DynamicSize(r);
    msg := new Byte[msgLen];
    var o := Put(msg, 0, LE(Op(r), 2));
    o := Put(msg, o, LE(0, 2));
    o := Put(msg, o, LE(msgLen - REQ_HEAD, 4));
    assert msg[..o] == RequestHead(Op(r), |Body(r)|);
    o := PutAll(msg, o, Layout(r));
    assert msg[..o] == msg[..];
  }

  method PutAll(msg: array<Byte>, offset: nat, fields: seq<seq<Byte>>) returns (next: nat)
    requires offset + |Flatten(fields)| <= msg.Length
    modifies msg
    ensures next == offset + |Flatten(fields)|
    ensures msg[..next] == old(msg[..offset]) + Flatten(fields)
  {
    next := offset;
    var i := 0;
    assert fields[0..] == fields;
    while i < |fields|
      invariant 0 <= i <= |fields|
      invariant next + |Flatten(fields[i..])| == offset + |Flatten(fields)|
      invariant msg[..next] + Flatten(fields[i..]) == old(msg[..offset]) + Flatten(fields)
    {
      assert Flatten(fields[i..]) == fields[i] + Flatten(fields[i + 1..]);
      ghost var done := msg[..next];
      next := Put(msg, next, fields[i]);
      Assoc(done, fields[i], Flatten(fields[i + 1..]));
      i := i + 1;
    }
  }

  // ----- The node's loop

  /** What a handler makes of a state and a request. */
  type Handler<!S> = (S, Request) -> (S, Response)

  /** The state after serving the decoded messages in order. */
  function Replay<S>(handle: Handler<S>, st: S, ds: seq<Decoded>): S
    decreases |ds|
  {
    if ds == [] then st
    else
      var before := Replay(handle, st, ds[..|ds| - 1]);
      match ds[|ds| - 1]
      case Dispatched(r) => handle(before, r).0
      case _ => before
  }

  /** The responses to them, one for each dispatched request and none for any other message. */
  function Replies<S>(handle: Handler<S>, st: S, ds: seq<Decoded>): seq<Response>
    decreases |ds|
  {
    if ds == [] then []
    else
      var front := ds[..|ds| - 1];
      match ds[|ds| - 1]
      case Dispatched(r) => Replies(handle, st, front) + [handle(Replay(handle, st, front), r).1]
      case _ => Replies(handle, st, front)
  }

  /** Less than one message is pending. */
  predicate Incomplete(s: seq<Byte>) {
    |s| < REQ_HEAD || (HeadSize(s[..REQ_HEAD]) <= INT_MAX && |s| < REQ_HEAD + HeadSize(s[..REQ_HEAD]))
  }

  /** `dic_node_recv_send`: one head, one body, one dispatch. For a malformed message, which includes one
      that announces a body longer than an `int`, C leaves open what happens, and so does this contract;
      what was sent before has been sent. */
  method NodeRecvSend<S>(conn: Conn, st: S, handle: Handler<S>)
    returns (res: int, d: Decoded, st': S)
    requires conn.Valid()
    modifies conn
    ensures conn.Valid() && old(conn.sent) <= conn.sent
    ensures res == 0 <==> !Incomplete(old(conn.Pending()))
    ensures res != 0 ==> st' == st && conn.sent == old(conn.sent)
    ensures res == 0 ==> old(conn.Pending()) != [] && [d] <= ParseStream(old(conn.Pending()))
    ensures res == 0 && !d.Malformed? ==>
              var was := old(conn.Pending());
              var end := REQ_HEAD + HeadSize(was[..REQ_HEAD]);
              && end <= |was| && conn.Pending() == was[end..]
              && d == Interpret(was[..REQ_HEAD], was[REQ_HEAD..end])
              && st' == (if d.Dispatched? then handle(st, d.req).0 else st)
              && conn.sent == old(conn.sent)
                   + (if d.Dispatched? then EncodeResponse(handle(st, d.req).1) else [])
  {
    hide DecodeRequest, UnLE, EncodeResponse;
    ghost var was := conn.Pending();
    d, st' := Undispatched, st;
    var head := new Byte[REQ_HEAD];
    res := conn.ConnRecv(head, REQ_HEAD, false);
    if res != 0 {
      return;
    }
    assert head[..] == was[..REQ_HEAD];
    var size := HeadSize(head[..]);
    if size > INT_MAX {
      d := Malformed;
      return;
    }
    var body := new Byte[size];
    res := conn.ConnRecv(body, size, false);
    if res != 0 {
      return;
    }
    assert body[..] == was[REQ_HEAD..][..size] == was[REQ_HEAD..REQ_HEAD + size];
    assert was[REQ_HEAD..][size..] == was[REQ_HEAD + size..];
    d := Interpret(head[..], body[..]);
    if d.Dispatched? {
      var (next, p) := handle(st, d.req);
      st' := next;
      conn.sent := conn.sent + EncodeResponse(p); // one send, assumed to transmit everything
    }
  }

  /** `client_handling_loop`: serve until the connection closes. For every byte stream and every way
      the transport splits it, the messages served are exactly those the stream spells, up to the first
      malformed one. From there on C leaves the behaviour open; the responses before it have been sent. */
  method ClientHandlingLoop<S>(conn: Conn, st: S, handle: Handler<S>)
    returns (ds: seq<Decoded>, st': S)
    requires conn.Valid()
    modifies conn
    ensures ds == ParseStream(old(conn.Pending()))
    ensures Malformed !in ds ==>
              && st' == Replay(handle, st, ds)
              && conn.sent == old(conn.sent) + EncodeResponses(Replies(handle, st, ds))
    ensures Malformed in ds ==>
              && ds[|ds| - 1] == Malformed && Malformed !in ds[..|ds| - 1]
              && old(conn.sent) + EncodeResponses(Replies(handle, st, ds[..|ds| - 1])) <= conn.sent
  {
    hide DecodeRequest, UnLE, EncodeResponse;
    ghost var all := conn.Pending();
    ds, st' := [], st;
    var res := 0;
    while res == 0
      invariant conn.Valid() && Malformed !in ds
      invariant ParseStream(all) == ds + if res == 0 then ParseStream(conn.Pending()) else []
      invariant st' == Replay(handle, st, ds)
      invariant conn.sent == old(conn.sent) + EncodeResponses(Replies(handle, st, ds))
      decreases res == 0, |conn.Pending()|
    {
      ghost var pending := conn.Pending();
      var d, next;
      res, d, next := NodeRecvSend(conn, st', handle);
      if res == 0 {
        var longer := ds + [d];
        assert longer[..|longer| - 1] == ds;
        if d.Malformed? {
          LastMessage(pending);
          return longer, next;
        }
        assert ParseStream(pending) == [d] + ParseStream(conn.Pending());
        Assoc(ds, [d], ParseStream(conn.Pending()));
        if d.Dispatched? {
          EncodeResponsesSnoc(Replies(handle, st, ds), handle(st', d.req).1);
          Assoc(old(conn.sent), EncodeResponses(Replies(handle, st, ds)), EncodeResponse(handle(st', d.req).1));
        }
        ds, st' := longer, next;
      } else {
        assert ParseStream(pending) == [];
      }
    }
  }

  /** Nothing is read after a malformed message. */
  lemma LastMessage(s: seq<Byte>)
    requires [Malformed] <= ParseStream(s)
    ensures ParseStream(s) == [Malformed]
  {
    hide DecodeRequest, UnLE;
    assert ParseStream(s)[0] == Malformed;
  }

  /** The same, for what clients write: the node serves exactly the requests that were sent in full,
      in order, whatever the segmentation and wherever the stream breaks off. */
  method ServeClients<S>(conn: Conn, st: S, handle: Handler<S>, rs: seq<Request>, last: Request, cut: nat)
    returns (ds: seq<Decoded>, st': S)
    requires conn.Valid()
    requires (forall r :: r in rs ==> Fits(r)) && Fits(last) && cut < |EncodeRequest(last)|
    requires conn.Pending() == EncodeRequests(rs) + EncodeRequest(last)[..cut]
    modifies conn
    ensures ds == AsDispatched(rs)
    ensures st' == Replay(handle, st, AsDispatched(rs))
    ensures conn.sent == old(conn.sent) + EncodeResponses(Replies(handle, st, AsDispatched(rs)))
    ensures |Replies(handle, st, AsDispatched(rs))| == |rs|
  {
    hide Fits, EncodeRequest, EncodeRequests, EncodeResponses, ParseStream;
    Framing(rs, last, cut);
    assert Malformed !in AsDispatched(rs);
    ds, st' := ClientHandlingLoop(conn, st, handle);
    OneResponseEach(handle, st, AsDispatched(rs));
  }

  lemma {:induction false} OneResponseEach<S>(handle: Handler<S>, st: S, ds: seq<Decoded>)
    requires forall d :: d in ds ==> d.Dispatched?
    ensures |Replies(handle, st, ds)| == |ds|
    decreases |ds|
  {
    if ds != [] {
      assert ds[|ds| - 1] in ds;
      OneResponseEach(handle, st, ds[..|ds| - 1]);
    }
  }
}
