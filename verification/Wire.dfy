/** The client/node wire format: packed request and response messages, their decoding on the
    other side, and the framing of a byte stream into messages. */
module Wire {
  import opened Bytes

  type Ptr = p: int | 0 <= p < U64

  // ----- Operation codes, in declaration order

  const OP_MALLOC := 0
  const OP_REALLOC := 1
  const OP_FREE := 2
  const OP_MEMCPY_C2N := 3
  const OP_MEMCPY_N2C := 4
  const OP_SO_VERIFY := 5
  const OP_SO_LOAD := 6
  const OP_SO_UNLOAD := 7
  const OP_SO_UPLOAD := 8
  const OP_FUNC_LOAD := 9
  const OP_RUN := 10
  const OP_JOIN := 11

  const REQ_HEAD := 8
  const RESP_HEAD := 4

  /** The requests a client really builds. */
  datatype Request =
    | Malloc(size: nat)
    | Realloc(ptr: Ptr, size: nat)
    | Free(ptr: Ptr)
    | MemcpyC2N(dest: Ptr, data: seq<Byte>)
    | MemcpyN2C(src: Ptr, size: nat)
    | SoLoad(name: seq<Byte>)
    | SoUnload(handle: Ptr)
    | SoUpload(name: seq<Byte>, file: seq<Byte>)
    | FuncLoad(handle: Ptr, symbol: seq<Byte>)
    | Run(func: Ptr, args: Ptr)
    | Join(tid: Ptr)

  datatype Response =
    | MallocR(addr: Ptr)
    | ReallocR(addr: Ptr)
    | FreeR(err: Byte)
    | MemcpyC2NR(code: nat)
    | MemcpyN2CR(data: seq<Byte>)
    | SoLoadR(handle: Ptr)
    | SoUnloadR(success: nat)
    | SoUploadR(raw: nat)  // the node never assigns this field, so any 32-bit value may arrive
    | FuncLoadR(func: Ptr)
    | RunR(tid: Ptr)
    | JoinR(ret: Ptr)

  // ----- Requests

  function Op(r: Request): (op: nat)
    ensures op <= OP_JOIN && op != OP_SO_VERIFY
  {
    match r
    case Malloc(_) => OP_MALLOC
    case Realloc(_, _) => OP_REALLOC
    case Free(_) => OP_FREE
    case MemcpyC2N(_, _) => OP_MEMCPY_C2N
    case MemcpyN2C(_, _) => OP_MEMCPY_N2C
    case SoLoad(_) => OP_SO_LOAD
    case SoUnload(_) => OP_SO_UNLOAD
    case SoUpload(_, _) => OP_SO_UPLOAD
    case FuncLoad(_, _) => OP_FUNC_LOAD
    case Run(_, _) => OP_RUN
    case Join(_) => OP_JOIN
  }

  function Body(r: Request): seq<Byte> {
    match r
    case Malloc(size) => LE(size, 4)
    case Realloc(ptr, size) => LE(ptr, 8) + LE(size, 4)
    case Free(ptr) => LE(ptr, 8)
    case MemcpyC2N(dest, data) => LE(dest, 8) + LE(|data|, 4) + data
    case MemcpyN2C(src, size) => LE(src, 8) + LE(size, 4)
    case SoLoad(name) => LE(|name| + 1, 4) + name + [0]
    case SoUnload(handle) => LE(handle, 8)
    case SoUpload(name, file) => LE(|file|, 8) + LE(|name|, 4) + name + [0] + file
    case FuncLoad(handle, symbol) => LE(handle, 8) + LE(|symbol|, 4) + symbol
    case Run(func, args) => LE(func, 8) + LE(args, 8)
    case Join(tid) => LE(tid, 8)
  }

  function RequestHead(op: nat, bodySize: nat): (h: seq<Byte>)
    ensures |h| == REQ_HEAD
  {
    LE(op, 2) + LE(0, 2) + LE(bodySize, 4)
  }

  function EncodeRequest(r: Request): (m: seq<Byte>)
    ensures |m| == REQ_HEAD + |Body(r)|
  {
    RequestHead(Op(r), |Body(r)|) + Body(r)
  }

  /** Field values fit their fields, names are C strings, and the message length is an `int`. */
  predicate Fits(r: Request) {
    && REQ_HEAD + |Body(r)| <= INT_MAX
    && (match r
        case Malloc(size) => size < U32
        case Realloc(_, size) => size < U32
        case MemcpyN2C(_, size) => size < U32
        case SoLoad(name) => 0 !in name
        case SoUpload(name, _) => 0 !in name
        case FuncLoad(_, symbol) => 0 !in symbol
        case _ => true)
  }

  /** What the node's `switch` makes of one message. */
  datatype Decoded = Dispatched(req: Request) | Undispatched | Malformed

  /** A C string read from `s`: the bytes before the first NUL. */
  function CString(s: seq<Byte>): Option<seq<Byte>> {
    if s == [] then None
    else if s[0] == 0 then Some([])
    else
      match CString(s[1..])
      case None => None
      case Some(rest) => Some([s[0]] + rest)
  }

  function DecodeRequest(op: nat, body: seq<Byte>): Decoded {
    if op == OP_MALLOC then
      if |body| < 4 then Malformed else Dispatched(Malloc(UnLE(body[..4])))
    else if op == OP_REALLOC then
      if |body| < 12 then Malformed else Dispatched(Realloc(Addr(body), UnLE(body[8..12])))
    else if op == OP_FREE then
      if |body| < 8 then Malformed else Dispatched(Free(Addr(body)))
    else if op == OP_MEMCPY_C2N then
      if |body| < 12 || |body| < 12 + UnLE(body[8..12]) then Malformed
      else Dispatched(MemcpyC2N(Addr(body), body[12..12 + UnLE(body[8..12])]))
    else if op == OP_MEMCPY_N2C then
      if |body| < 12 then Malformed else Dispatched(MemcpyN2C(Addr(body), UnLE(body[8..12])))
    else if op == OP_SO_LOAD then
      if |body| < 4 || CString(body[4..]).None? then Malformed
      else Dispatched(SoLoad(CString(body[4..]).value))
    else if op == OP_SO_UNLOAD then
      if |body| < 8 then Malformed else Dispatched(SoUnload(Addr(body)))
    else if op == OP_SO_UPLOAD then
      DecodeUpload(body)
    else if op == OP_FUNC_LOAD then
      if |body| < 12 || |body| < 12 + UnLE(body[8..12]) then Malformed
      else Dispatched(FuncLoad(Addr(body), body[12..12 + UnLE(body[8..12])]))
    else if op == OP_RUN then
      if |body| < 16 then Malformed else Dispatched(Run(Addr(body), Addr(body[8..])))
    else if op == OP_JOIN then
      if |body| < 8 then Malformed else Dispatched(Join(Addr(body)))
    else Undispatched
  }

  /** The `switch` dispatches on exactly the codes of the requests that clients build, and to the handler of
      the request that has this code. */
  lemma DecodedOp(op: nat, body: seq<Byte>)
    ensures DecodeRequest(op, body).Dispatched? ==> Op(DecodeRequest(op, body).req) == op
    ensures DecodeRequest(op, body).Undispatched? <==> forall r: Request :: Op(r) != op
  {
    hide UnLE, CString;
    var zero: seq<Byte> := [];
    if op <= OP_JOIN && op != OP_SO_VERIFY {
      var rs := [Malloc(0), Realloc(0, 0), Free(0), MemcpyC2N(0, zero), MemcpyN2C(0, 0), SoLoad(zero), SoUnload(0),
                 SoUpload(zero, zero), FuncLoad(0, zero), Run(0, 0), Join(0)];
      assert Op(rs[if op < OP_SO_VERIFY then op else op - 1]) == op;
    }
  }

  /** The name comes from a string function, the file from the length fields. */
  function DecodeUpload(body: seq<Byte>): Decoded {
    if |body| < 12 || CString(body[12..]).None? then Malformed
    else
      var fileSize, nameLen := UnLE(body[..8]), UnLE(body[8..12]);
      var start := 12 + nameLen + 1;
      if |body| < start + fileSize then Malformed
      else Dispatched(SoUpload(CString(body[12..]).value, body[start..start + fileSize]))
  }

  /** The 64-bit field at the front of `s`. */
  function Addr(s: seq<Byte>): Ptr
    requires |s| >= 8
  {
    Widths();
    UnLE(s[..8])
  }

  lemma AddrOf(p: Ptr, rest: seq<Byte>)
    ensures Addr(LE(p, 8) + rest) == p
  {
    hide LE, UnLE, Pow256;
    Fields(p);
    assert (LE(p, 8) + rest)[..8] == LE(p, 8);
  }

  lemma AddrAlone(p: Ptr)
    ensures Addr(LE(p, 8)) == p
  {
    AddrOf(p, []);
    assert LE(p, 8) == LE(p, 8) + [];
  }

  lemma WordOf(n: nat, rest: seq<Byte>)
    requires n < U32
    ensures UnLE((LE(n, 4) + rest)[..4]) == n && (LE(n, 4) + rest)[4..] == rest
  {
    hide LE, UnLE, Pow256;
    Fields(n);
    assert (LE(n, 4) + rest)[..4] == LE(n, 4);
  }

  lemma WordAlone(n: nat)
    requires n < U32
    ensures UnLE(LE(n, 4)[..4]) == n
  {
    hide LE, UnLE, Pow256;
    Fields(n);
    assert LE(n, 4)[..4] == LE(n, 4);
  }

  lemma {:induction false} CStringOf(name: seq<Byte>, rest: seq<Byte>)
    requires 0 !in name
    ensures CString(name + [0] + rest) == Some(name)
  {
    var s := name + [0] + rest;
    if name != [] {
      CStringOf(name[1..], rest);
      assert s[0] == name[0] != 0;
      assert s[1..] == name[1..] + [0] + rest;
      assert name == [name[0]] + name[1..];
    }
  }

  /** Address followed by a 32-bit field and a tail: the common shape of the larger bodies. */
  lemma AddrAndWord(p: Ptr, n: nat, tail: seq<Byte>)
    requires n < U32
    ensures var b := LE(p, 8) + LE(n, 4) + tail;
            |b| == 12 + |tail| && Addr(b) == p && UnLE(b[8..12]) == n && b[12..] == tail
  {
    hide LE, UnLE, Pow256;
    var b := LE(p, 8) + LE(n, 4) + tail;
    assert b == LE(p, 8) + (LE(n, 4) + tail);
    AddrOf(p, LE(n, 4) + tail);
    Fields(n);
    assert b[8..12] == LE(n, 4);
  }

  lemma AddrAndWordOnly(p: Ptr, n: nat)
    requires n < U32
    ensures var b := LE(p, 8) + LE(n, 4); Addr(b) == p && UnLE(b[8..12]) == n
  {
    hide LE, UnLE, Pow256;
    AddrAndWord(p, n, []);
    assert LE(p, 8) + LE(n, 4) == LE(p, 8) + LE(n, 4) + [];
  }

  lemma TwoAddrs(p: Ptr, q: Ptr)
    ensures var b := LE(p, 8) + LE(q, 8); Addr(b) == p && Addr(b[8..]) == q
  {
    hide LE, UnLE, Pow256;
    AddrOf(p, LE(q, 8));
    AddrAlone(q);
    assert (LE(p, 8) + LE(q, 8))[8..] == LE(q, 8);
  }

  /** The node recovers from an upload body exactly the name and the file, zeros included. */
  lemma UploadRoundTrip(name: seq<Byte>, file: seq<Byte>)
    requires Fits(SoUpload(name, file))
    ensures DecodeUpload(Body(SoUpload(name, file))) == Dispatched(SoUpload(name, file))
  {
    hide LE, UnLE, CString, Pow256;
    var b := Body(SoUpload(name, file));
    var tail := name + [0] + file;
    assert b == LE(|file|, 8) + LE(|name|, 4) + tail;
    AddrAndWord(|file|, |name|, tail);
    CStringOf(name, file);
    assert b[12 + |name| + 1..12 + |name| + 1 + |file|] == file;
  }

  /** Decoding what a client built gives back the request it was built from. */
  lemma RequestRoundTrip(r: Request)
    requires Fits(r)
    ensures DecodeRequest(Op(r), Body(r)) == Dispatched(r)
  {
    hide LE, UnLE, CString, Pow256, DecodeUpload;
    var b := Body(r);
    match r
    case Malloc(size) =>
      WordAlone(size);
    case Realloc(ptr, size) =>
      AddrAndWordOnly(ptr, size);
    case MemcpyC2N(dest, data) =>
      AddrAndWord(dest, |data|, data);
      assert b[12..12 + |data|] == data;
    case MemcpyN2C(src, size) =>
      AddrAndWordOnly(src, size);
    case SoLoad(name) =>
      CStringOf(name, []);
      assert b[4..] == name + [0] + [];
    case SoUpload(name, file) =>
      UploadRoundTrip(name, file);
    case FuncLoad(handle, symbol) =>
      AddrAndWord(handle, |symbol|, symbol);
      assert b[12..12 + |symbol|] == symbol;
    case Run(func, args) =>
      TwoAddrs(func, args);
    case Free(p) => AddrAlone(p);
    case SoUnload(p) => AddrAlone(p);
    case Join(p) => AddrAlone(p);
  }

  lemma {:induction false} CStringHasNoNul(s: seq<Byte>)
    ensures CString(s).Some? ==> 0 !in CString(s).value
  {
    if s != [] && s[0] != 0 {
      CStringHasNoNul(s[1..]);
    }
  }

  /** The requests that fit are those whose messages have an `int` length and come out of the decoder as they
      went in: a size beyond its field or a name with a NUL in it does not. A symbol is copied with its length,
      but the client takes that from `strlen`. */
  lemma FitsExactly(r: Request)
    ensures Fits(r) <==> REQ_HEAD + |Body(r)| <= INT_MAX && DecodeRequest(Op(r), Body(r)) == Dispatched(r)
                         && (r.FuncLoad? ==> 0 !in r.symbol)
  {
    hide LE, UnLE, Pow256, CString;
    if Fits(r) {
      RequestRoundTrip(r);
    } else if REQ_HEAD + |Body(r)| <= INT_MAX {
      var b := Body(r);
      Widths();
      match r
      case Malloc(_) => assert UnLE(b[..4]) < U32;
      case Realloc(_, _) => assert UnLE(b[8..12]) < U32;
      case MemcpyN2C(_, _) => assert UnLE(b[8..12]) < U32;
      case SoLoad(_) => CStringHasNoNul(b[4..]);
      case SoUpload(_, _) => CStringHasNoNul(b[12..]);
      case _ =>
    }
  }

  // ----- Responses

  function ResponseBody(p: Response): seq<Byte> {
    match p
    case MallocR(addr) => LE(addr, 8)
    case ReallocR(addr) => LE(addr, 8)
    case FreeR(err) => [err]
    case MemcpyC2NR(code) => LE(code, 4)
    case MemcpyN2CR(data) => LE(|data|, 4) + data
    case SoLoadR(handle) => LE(handle, 8)
    case SoUnloadR(success) => LE(success, 4)
    case SoUploadR(raw) => LE(raw, 4)
    case FuncLoadR(func) => LE(func, 8)
    case RunR(tid) => LE(tid, 8)
    case JoinR(ret) => LE(ret, 8)
  }

  function EncodeResponse(p: Response): (m: seq<Byte>)
    ensures |m| == RESP_HEAD + |ResponseBody(p)|
  {
    LE(|ResponseBody(p)|, 4) + ResponseBody(p)
  }

  /** The response has the kind its request calls for and its fields fit. */
  predicate Answers(r: Request, p: Response) {
    && RESP_HEAD + |ResponseBody(p)| <= INT_MAX
    && (match r
        case Malloc(_) => p.MallocR?
        case Realloc(_, _) => p.ReallocR?
        case Free(_) => p.FreeR?
        case MemcpyC2N(_, _) => p.MemcpyC2NR? && p.code < U32
        case MemcpyN2C(_, size) => p.MemcpyN2CR? && |p.data| == size
        case SoLoad(_) => p.SoLoadR?
        case SoUnload(_) => p.SoUnloadR? && p.success < U32
        case SoUpload(_, _) => p.SoUploadR? && p.raw < U32
        case FuncLoad(_, _) => p.FuncLoadR?
        case Run(_, _) => p.RunR?
        case Join(_) => p.JoinR?)
  }

  /** The client casts the body to the struct its own request calls for. */
  function DecodeResponse(r: Request, body: seq<Byte>): Option<Response> {
    match r
    case Malloc(_) => if |body| < 8 then None else Some(MallocR(Addr(body)))
    case Realloc(_, _) => if |body| < 8 then None else Some(ReallocR(Addr(body)))
    case Free(_) => if |body| < 1 then None else Some(FreeR(body[0]))
    case MemcpyC2N(_, _) => if |body| < 4 then None else Some(MemcpyC2NR(UnLE(body[..4])))
    case MemcpyN2C(_, _) =>
      if |body| < 4 || |body| < 4 + UnLE(body[..4]) then None
      else Some(MemcpyN2CR(body[4..4 + UnLE(body[..4])]))
    case SoLoad(_) => if |body| < 8 then None else Some(SoLoadR(Addr(body)))
    case SoUnload(_) => if |body| < 4 then None else Some(SoUnloadR(UnLE(body[..4])))
    case SoUpload(_, _) => if |body| < 4 then None else Some(SoUploadR(UnLE(body[..4])))
    case FuncLoad(_, _) => if |body| < 8 then None else Some(FuncLoadR(Addr(body)))
    case Run(_, _) => if |body| < 8 then None else Some(RunR(Addr(body)))
    case Join(_) => if |body| < 8 then None else Some(JoinR(Addr(body)))
  }

  lemma ResponseRoundTrip(r: Request, p: Response)
    requires Answers(r, p)
    ensures DecodeResponse(r, ResponseBody(p)) == Some(p)
  {
    hide LE, UnLE, Pow256;
    var b := ResponseBody(p);
    match p
    case MemcpyC2NR(n) => WordAlone(n);
    case SoUnloadR(n) => WordAlone(n);
    case SoUploadR(n) => WordAlone(n);
    case MemcpyN2CR(data) =>
      WordOf(|data|, data);
      assert b[4..4 + |data|] == data;
    case FreeR(_) =>
    case MallocR(a) => AddrAlone(a);
    case ReallocR(a) => AddrAlone(a);
    case SoLoadR(a) => AddrAlone(a);
    case FuncLoadR(a) => AddrAlone(a);
    case RunR(a) => AddrAlone(a);
    case JoinR(a) => AddrAlone(a);
  }

  // ----- What the bytes are

  /** Operation code, version, body size, then the fields of the packed struct, each at its offset in the
      message, and the tail behind them. */
  lemma RequestFormat(r: Request)
    ensures var m := EncodeRequest(r);
            && FieldAt(m, 2, 2, 0) && FieldAt(m, 4, 4, |m| - 8)
            && (match r
                case Malloc(size) =>
                  |m| == 12 && FieldAt(m, 0, 2, 0) && FieldAt(m, 8, 4, size)
                case Realloc(ptr, size) =>
                  |m| == 20 && FieldAt(m, 0, 2, 1) && FieldAt(m, 8, 8, ptr) && FieldAt(m, 16, 4, size)
                case Free(ptr) =>
                  |m| == 16 && FieldAt(m, 0, 2, 2) && FieldAt(m, 8, 8, ptr)
                case MemcpyC2N(dest, data) =>
                  FieldAt(m, 0, 2, 3) && FieldAt(m, 8, 8, dest) && FieldAt(m, 16, 4, |data|) && m[20..] == data
                case MemcpyN2C(src, size) =>
                  |m| == 20 && FieldAt(m, 0, 2, 4) && FieldAt(m, 8, 8, src) && FieldAt(m, 16, 4, size)
                case SoLoad(name) =>
                  FieldAt(m, 0, 2, 6) && FieldAt(m, 8, 4, |name| + 1) && m[12..] == name + [0]
                case SoUnload(handle) =>
                  |m| == 16 && FieldAt(m, 0, 2, 7) && FieldAt(m, 8, 8, handle)
                case SoUpload(name, file) =>
                  && FieldAt(m, 0, 2, 8) && FieldAt(m, 8, 8, |file|) && FieldAt(m, 16, 4, |name|)
                  && m[20..] == name + [0] + file
                case FuncLoad(handle, symbol) =>
                  && FieldAt(m, 0, 2, 9) && FieldAt(m, 8, 8, handle) && FieldAt(m, 16, 4, |symbol|)
                  && m[20..] == symbol
                case Run(func, args) =>
                  |m| == 24 && FieldAt(m, 0, 2, 10) && FieldAt(m, 8, 8, func) && FieldAt(m, 16, 8, args)
                case Join(tid) =>
                  |m| == 16 && FieldAt(m, 0, 2, 11) && FieldAt(m, 8, 8, tid))
  {
    hide LE, FieldAt;
    var m, b := EncodeRequest(r), Body(r);
    RequestHeadFormat(Op(r), b);
    match r
    case Malloc(size) => FieldIs(m, 8, 4, size);
    case Realloc(ptr, size) => TwoFields(m, b, ptr, size, 4, []);
    case Free(ptr) => FieldIs(m, 8, 8, ptr);
    case MemcpyC2N(dest, data) => TwoFields(m, b, dest, |data|, 4, data);
    case MemcpyN2C(src, size) => TwoFields(m, b, src, size, 4, []);
    case SoLoad(name) => FieldIs(m, 8, 4, |name| + 1);
    case SoUnload(handle) => FieldIs(m, 8, 8, handle);
    case SoUpload(name, file) => TwoFields(m, b, |file|, |name|, 4, name + [0] + file);
    case FuncLoad(handle, symbol) => TwoFields(m, b, handle, |symbol|, 4, symbol);
    case Run(func, args) => TwoFields(m, b, func, args, 8, []);
    case Join(tid) => FieldIs(m, 8, 8, tid);
  }

  lemma RequestHeadFormat(op: nat, body: seq<Byte>)
    ensures var m := RequestHead(op, |body|) + body;
            m[8..] == body && FieldAt(m, 0, 2, op) && FieldAt(m, 2, 2, 0) && FieldAt(m, 4, 4, |m| - 8)
  {
    hide LE, FieldAt;
    var m := RequestHead(op, |body|) + body;
    FieldIs(m, 0, 2, op);
    FieldIs(m, 2, 2, 0);
    FieldIs(m, 4, 4, |body|);
  }

  /** A body of an address, a second field and a tail. */
  lemma TwoFields(m: seq<Byte>, body: seq<Byte>, p: nat, n: nat, width: nat, tail: seq<Byte>)
    requires |m| >= 8 && m[8..] == body && body == LE(p, 8) + LE(n, width) + tail
    ensures FieldAt(m, 8, 8, p) && FieldAt(m, 16, width, n) && m[16 + width..] == tail
  {
    hide LE, FieldAt;
    assert m[8..16] == body[..8] == LE(p, 8);
    assert m[16..16 + width] == body[8..8 + width] == LE(n, width);
    assert m[16 + width..] == body[8 + width..];
    FieldIs(m, 8, 8, p);
    FieldIs(m, 16, width, n);
  }

  /** Body size, then the fields. */
  lemma ResponseFormat(p: Response)
    ensures var m := EncodeResponse(p);
            && FieldAt(m, 0, 4, |m| - 4)
            && (match p
                case MallocR(addr) => |m| == 12 && FieldAt(m, 4, 8, addr)
                case ReallocR(addr) => |m| == 12 && FieldAt(m, 4, 8, addr)
                case FreeR(err) => |m| == 5 && m[4] == err
                case MemcpyC2NR(code) => |m| == 8 && FieldAt(m, 4, 4, code)
                case MemcpyN2CR(data) => FieldAt(m, 4, 4, |data|) && m[8..] == data
                case SoLoadR(handle) => |m| == 12 && FieldAt(m, 4, 8, handle)
                case SoUnloadR(success) => |m| == 8 && FieldAt(m, 4, 4, success)
                case SoUploadR(raw) => |m| == 8 && FieldAt(m, 4, 4, raw)
                case FuncLoadR(func) => |m| == 12 && FieldAt(m, 4, 8, func)
                case RunR(tid) => |m| == 12 && FieldAt(m, 4, 8, tid)
                case JoinR(ret) => |m| == 12 && FieldAt(m, 4, 8, ret))
  {
    hide LE, FieldAt;
    var m := EncodeResponse(p);
    ResponseHeadFormat(ResponseBody(p));
    match p
    case MallocR(addr) => OneField(m, 8, addr, []);
    case ReallocR(addr) => OneField(m, 8, addr, []);
    case FreeR(_) =>
    case MemcpyC2NR(code) => OneField(m, 4, code, []);
    case MemcpyN2CR(data) => OneField(m, 4, |data|, data);
    case SoLoadR(handle) => OneField(m, 8, handle, []);
    case SoUnloadR(success) => OneField(m, 4, success, []);
    case SoUploadR(raw) => OneField(m, 4, raw, []);
    case FuncLoadR(func) => OneField(m, 8, func, []);
    case RunR(tid) => OneField(m, 8, tid, []);
    case JoinR(ret) => OneField(m, 8, ret, []);
  }

  lemma ResponseHeadFormat(body: seq<Byte>)
    ensures var m := LE(|body|, 4) + body;
            m[4..] == body && FieldAt(m, 0, 4, |m| - 4)
  {
    hide LE, FieldAt;
    FieldIs(LE(|body|, 4) + body, 0, 4, |body|);
  }

  /** A body of one field and a tail. */
  lemma OneField(m: seq<Byte>, width: nat, n: nat, tail: seq<Byte>)
    requires |m| >= 4 && m[4..] == LE(n, width) + tail
    ensures |m| == 4 + width + |tail| && FieldAt(m, 4, width, n) && m[4 + width..] == tail
  {
    hide LE, FieldAt;
    assert m[4..4 + width] == m[4..][..width];
    assert m[4 + width..] == m[4..][width..];
    FieldIs(m, 4, width, n);
  }

  // ----- Streams of messages

  function EncodeRequests(rs: seq<Request>): seq<Byte> {
    if rs == [] then [] else EncodeRequest(rs[0]) + EncodeRequests(rs[1..])
  }

  function EncodeResponses(ps: seq<Response>): seq<Byte> {
    if ps == [] then [] else EncodeResponse(ps[0]) + EncodeResponses(ps[1..])
  }

  lemma {:induction false} EncodeRequestsSnoc(rs: seq<Request>, r: Request)
    ensures EncodeRequests(rs + [r]) == EncodeRequests(rs) + EncodeRequest(r)
  {
    hide EncodeRequest;
    if rs == [] {
      assert rs + [r] == [r];
      assert EncodeRequests([r]) == EncodeRequest(r) + EncodeRequests([]);
    } else {
      EncodeRequestsSnoc(rs[1..], r);
      assert (rs + [r])[1..] == rs[1..] + [r];
      Assoc(EncodeRequest(rs[0]), EncodeRequests(rs[1..]), EncodeRequest(r));
    }
  }

  lemma {:induction false} EncodeResponsesSnoc(ps: seq<Response>, p: Response)
    ensures EncodeResponses(ps + [p]) == EncodeResponses(ps) + EncodeResponse(p)
  {
    hide EncodeResponse;
    if ps == [] {
      assert ps + [p] == [p];
      assert EncodeResponses([p]) == EncodeResponse(p) + EncodeResponses([]);
    } else {
      EncodeResponsesSnoc(ps[1..], p);
      assert (ps + [p])[1..] == ps[1..] + [p];
      Assoc(EncodeResponse(ps[0]), EncodeResponses(ps[1..]), EncodeResponse(p));
    }
  }

  /** The operation and the body size that the node reads out of eight head bytes. */
  function HeadOp(head: seq<Byte>): nat
    requires |head| == REQ_HEAD
  {
    UnLE(head[..2])
  }

  function HeadSize(head: seq<Byte>): nat
    requires |head| == REQ_HEAD
  {
    UnLE(head[4..])
  }

  lemma HeadFields(op: nat, size: nat)
    requires op < U16 && size < U32
    ensures HeadOp(RequestHead(op, size)) == op && HeadSize(RequestHead(op, size)) == size
  {
    hide LE, UnLE, Pow256;
    var o, v, z := LE(op, 2), LE(0, 2), LE(size, 4);
    Fields(op);
    Fields(size);
    assert RequestHead(op, size)[..2] == o;
    assert RequestHead(op, size)[4..] == z;
  }

  lemma RequestHeadFields(r: Request)
    requires Fits(r)
    ensures HeadOp(RequestHead(Op(r), |Body(r)|)) == Op(r)
    ensures HeadSize(RequestHead(Op(r), |Body(r)|)) == |Body(r)| <= INT_MAX
  {
    hide LE, UnLE, Pow256;
    HeadFields(Op(r), |Body(r)|);
  }

  lemma ResponseHeadField(p: Response)
    requires RESP_HEAD + |ResponseBody(p)| <= INT_MAX
    ensures UnLE(LE(|ResponseBody(p)|, 4)) == |ResponseBody(p)|
  {
    Fields(|ResponseBody(p)|);
  }

  /** What one message is for the node. A body size beyond `int` turns negative on its way to the read
      loop, so such a head announces no body that could be read. */
  function Interpret(head: seq<Byte>, body: seq<Byte>): Decoded
    requires |head| == REQ_HEAD
  {
    if HeadSize(head) > INT_MAX then Malformed else DecodeRequest(HeadOp(head), body)
  }

  /** The messages in a byte stream: read a head, read the announced body, dispatch, repeat, until the
      stream runs out inside a head or a body, or a message is malformed. */
  function ParseStream(s: seq<Byte>): seq<Decoded>
    decreases |s|
  {
    if |s| < REQ_HEAD then []
    else
      var head := s[..REQ_HEAD];
      var end := REQ_HEAD + HeadSize(head);
      if HeadSize(head) > INT_MAX then [Malformed]
      else if |s| < end then []
      else
        var d := Interpret(head, s[REQ_HEAD..end]);
        [d] + if d.Malformed? then [] else ParseStream(s[end..])
  }

  function AsDispatched(rs: seq<Request>): (ds: seq<Decoded>)
    ensures |ds| == |rs|
    ensures forall i :: 0 <= i < |rs| ==> ds[i] == Dispatched(rs[i])
  {
    if rs == [] then [] else [Dispatched(rs[0])] + AsDispatched(rs[1..])
  }

  /** Message boundaries survive: whatever well-formed requests were written one after another,
      and whatever incomplete message follows them, the reader recovers exactly the requests. */
  lemma Framing(rs: seq<Request>, last: Request, cut: nat)
    requires forall r :: r in rs ==> Fits(r)
    requires Fits(last) && cut < |EncodeRequest(last)|
    ensures ParseStream(EncodeRequests(rs) + EncodeRequest(last)[..cut]) == AsDispatched(rs)
  {
    FramingBefore(rs, EncodeRequest(last)[..cut]);
    PartialMessage(last, cut);
  }

  lemma {:induction false} FramingBefore(rs: seq<Request>, tail: seq<Byte>)
    requires forall r :: r in rs ==> Fits(r)
    ensures ParseStream(EncodeRequests(rs) + tail) == AsDispatched(rs) + ParseStream(tail)
  {
    hide LE, UnLE, Fits, EncodeRequest, DecodeRequest;
    if rs == [] {
      assert EncodeRequests(rs) + tail == tail;
    } else {
      var rest := EncodeRequests(rs[1..]) + tail;
      calc {
        ParseStream(EncodeRequests(rs) + tail);
        { Assoc(EncodeRequest(rs[0]), EncodeRequests(rs[1..]), tail); }
        ParseStream(EncodeRequest(rs[0]) + rest);
        { ParseOne(rs[0], rest); }
        [Dispatched(rs[0])] + ParseStream(rest);
        { FramingBefore(rs[1..], tail); }
        [Dispatched(rs[0])] + (AsDispatched(rs[1..]) + ParseStream(tail));
        AsDispatched(rs) + ParseStream(tail);
      }
    }
  }

  lemma ParseOne(r: Request, rest: seq<Byte>)
    requires Fits(r)
    ensures ParseStream(EncodeRequest(r) + rest) == [Dispatched(r)] + ParseStream(rest)
  {
    hide LE, UnLE, Pow256, DecodeRequest, Body, Fits, RequestHead;
    var s := EncodeRequest(r) + rest;
    var end := REQ_HEAD + |Body(r)|;
    RequestHeadFields(r);
    RequestRoundTrip(r);
    assert s[..REQ_HEAD] == RequestHead(Op(r), |Body(r)|);
    assert s[REQ_HEAD..end] == Body(r);
    assert s[end..] == rest;
  }

  lemma PartialMessage(r: Request, cut: nat)
    requires Fits(r) && cut < |EncodeRequest(r)|
    ensures ParseStream(EncodeRequest(r)[..cut]) == []
  {
    hide LE, UnLE, Pow256, DecodeRequest, Body, Fits, RequestHead;
    var s := EncodeRequest(r)[..cut];
    if cut >= REQ_HEAD {
      RequestHeadFields(r);
      assert s[..REQ_HEAD] == RequestHead(Op(r), |Body(r)|);
    }
  }

  /** What a client makes of a response stream: for each of its requests, read a head, read the
      announced body, and take the body for the struct that the request calls for. */
  function ReadResponses(rs: seq<Request>, s: seq<Byte>): Option<seq<Response>> {
    if rs == [] then Some([])
    else if |s| < RESP_HEAD || |s| < RESP_HEAD + UnLE(s[..RESP_HEAD]) then None
    else
      var end := RESP_HEAD + UnLE(s[..RESP_HEAD]);
      match DecodeResponse(rs[0], s[RESP_HEAD..end])
      case None => None
      case Some(p) =>
        match ReadResponses(rs[1..], s[end..])
        case None => None
        case Some(ps) => Some([p] + ps)
  }

  /** Responses that are written one after another in request order are recovered exactly, whatever
      follows them. */
  lemma {:induction false} ResponseFraming(rs: seq<Request>, ps: seq<Response>, tail: seq<Byte>)
    requires |rs| == |ps| && forall i :: 0 <= i < |rs| ==> Answers(rs[i], ps[i])
    ensures ReadResponses(rs, EncodeResponses(ps) + tail) == Some(ps)
  {
    hide Answers, DecodeResponse, ResponseBody, LE, UnLE;
    if rs != [] {
      var b, rest := ResponseBody(ps[0]), EncodeResponses(ps[1..]) + tail;
      var s := EncodeResponses(ps) + tail;
      assert Answers(rs[0], ps[0]);
      ResponseFits(rs[0], ps[0]);
      ResponseHeadField(ps[0]);
      ResponseRoundTrip(rs[0], ps[0]);
      ResponseFraming(rs[1..], ps[1..], tail);
      Assoc(EncodeResponse(ps[0]), EncodeResponses(ps[1..]), tail);
      Assoc(LE(|b|, 4), b, rest);
      SplitHead(LE(|b|, 4), b, rest);
      assert ps == [ps[0]] + ps[1..];
    }
  }

  lemma ResponseFits(r: Request, p: Response)
    requires Answers(r, p)
    ensures RESP_HEAD + |ResponseBody(p)| <= INT_MAX
  {
  }

  lemma SplitHead(head: seq<Byte>, body: seq<Byte>, rest: seq<Byte>)
    ensures var s := head + (body + rest);
            && s[..|head|] == head
            && s[|head|..|head| + |body|] == body
            && s[|head| + |body|..] == rest
  {
  }

  /** `dic_so_verify`: the request it builds, and what it makes of the body that comes back. */
  function VerifyRequest(name: seq<Byte>): Request {
    SoLoad(name)
  }

  function VerifyResult(body: seq<Byte>): Ptr
    requires |body| >= 8
  {
    Addr(body)
  }

  /** The node takes a verify call for a load, so the "checksum" it returns is the library handle; no
      request of any client reaches a verify handler. */
  lemma VerifyReturnsTheHandle(name: seq<Byte>, p: Response)
    requires Fits(VerifyRequest(name)) && Answers(VerifyRequest(name), p)
    ensures DecodeRequest(Op(VerifyRequest(name)), Body(VerifyRequest(name))) == Dispatched(SoLoad(name))
    ensures p.SoLoadR? && |ResponseBody(p)| == 8 && VerifyResult(ResponseBody(p)) == p.handle
    ensures forall r: Request :: Op(r) != OP_SO_VERIFY
  {
    RequestRoundTrip(SoLoad(name));
    AddrAlone(p.handle);
  }
}
