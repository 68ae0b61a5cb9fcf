/** The node listing on the wire: what the main server sends for a snapshot of its registry, and
    what a client reads out of it. */
module Listing {
  import opened Bytes
  import opened Registry
  import Sockets

  const INFO_SIZE := 24

  predicate FitsInfo(i: Info) {
    i.family < U32 && |i.addr| == 16 && i.cores < U32
  }

  function EncodeInfo(i: Info): seq<Byte> {
    LE(i.family, 4) + i.addr + LE(i.cores, 4)
  }

  function DecodeInfo(s: seq<Byte>): Info
    requires |s| == INFO_SIZE
  {
    Info(UnLE(s[..4]), s[4..20], UnLE(s[20..]))
  }

  function EncodeInfos(infos: seq<Info>): seq<Byte> {
    if infos == [] then [] else EncodeInfo(infos[0]) + EncodeInfos(infos[1..])
  }

  /** `dic_resp_get_info`: the count, then the records. */
  function EncodeListing(infos: seq<Info>): seq<Byte> {
    LE(|infos|, 4) + EncodeInfos(infos)
  }

  /** `nodes[i]` of the received struct. */
  function DecodeInfos(s: seq<Byte>, count: nat): seq<Info>
    requires |s| >= INFO_SIZE * count
  {
    if count == 0 then [] else [DecodeInfo(s[..INFO_SIZE])] + DecodeInfos(s[INFO_SIZE..], count - 1)
  }

  function DecodeListing(body: seq<Byte>): Option<seq<Info>> {
    if |body| < 4 || |body| < 4 + INFO_SIZE * UnLE(body[..4]) then None
    else Some(DecodeInfos(body[4..], UnLE(body[..4])))
  }

  lemma InfoRoundTrip(i: Info, rest: seq<Byte>)
    requires FitsInfo(i)
    ensures |EncodeInfo(i)| == INFO_SIZE
    ensures DecodeInfo((EncodeInfo(i) + rest)[..INFO_SIZE]) == i
  {
    hide LE, UnLE;
    var e := EncodeInfo(i);
    Fields(i.family);
    Fields(i.cores);
    assert (e + rest)[..INFO_SIZE] == e;
    assert e[..4] == LE(i.family, 4) && e[4..20] == i.addr && e[20..] == LE(i.cores, 4);
  }

  lemma {:induction false} InfosRoundTrip(infos: seq<Info>)
    requires forall i :: i in infos ==> FitsInfo(i)
    ensures |EncodeInfos(infos)| == INFO_SIZE * |infos|
    ensures DecodeInfos(EncodeInfos(infos), |infos|) == infos
  {
    hide EncodeInfo, DecodeInfo, FitsInfo;
    if infos != [] {
      var rest := EncodeInfos(infos[1..]);
      InfoRoundTrip(infos[0], rest);
      InfosRoundTrip(infos[1..]);
      assert EncodeInfos(infos)[INFO_SIZE..] == rest;
    }
  }

  lemma ListingRoundTrip(infos: seq<Info>)
    requires |infos| < U32 && forall i :: i in infos ==> FitsInfo(i)
    ensures DecodeListing(EncodeListing(infos)) == Some(infos)
  {
    hide LE, UnLE, EncodeInfos, DecodeInfos, FitsInfo;
    InfosRoundTrip(infos);
    Fields(|infos|);
    var body := EncodeListing(infos);
    assert body[..4] == LE(|infos|, 4) && body[4..] == EncodeInfos(infos);
  }

  const LISTING_HEAD := 4

  /** The message length is an `int`. */
  predicate FitsListing(count: nat) {
    4 + INFO_SIZE * count <= INT_MAX
  }

  /** Head and body, as the server sends them one after the other. */
  function ListingMessage(infos: seq<Info>): seq<Byte> {
    LE(|EncodeListing(infos)|, LISTING_HEAD) + EncodeListing(infos)
  }

  lemma ListingSize(infos: seq<Info>)
    requires FitsListing(|infos|) && forall i :: i in infos ==> FitsInfo(i)
    ensures |EncodeListing(infos)| == 4 + INFO_SIZE * |infos|
    ensures UnLE(LE(|EncodeListing(infos)|, LISTING_HEAD)) == |EncodeListing(infos)|
  {
    hide LE, UnLE, EncodeInfos, FitsInfo;
    InfosRoundTrip(infos);
    Fields(|EncodeListing(infos)|);
  }

  lemma {:induction false} RecordAt(infos: seq<Info>, i: nat)
    requires i < |infos| && forall x :: x in infos ==> FitsInfo(x)
    ensures |EncodeInfos(infos)| == 24 * |infos|
    ensures EncodeInfos(infos)[24 * i..24 * i + 24] == EncodeInfo(infos[i])
  {
    hide EncodeInfo, FitsInfo;
    InfosRoundTrip(infos);
    InfoRoundTrip(infos[0], []);
    if i > 0 {
      RecordAt(infos[1..], i - 1);
      var rest := EncodeInfos(infos[1..]);
      assert EncodeInfos(infos)[24..] == rest;
      assert EncodeInfos(infos)[24 * i..24 * i + 24] == rest[24 * (i - 1)..24 * (i - 1) + 24];
    }
  }

  /** The bytes of the message: the body size, the count, and at its offset each record with its address
      family, its sixteen address bytes and its number of cores. */
  lemma ListingFormat(infos: seq<Info>, i: nat)
    requires forall x :: x in infos ==> FitsInfo(x)
    ensures var m := ListingMessage(infos);
            && |m| == 8 + 24 * |infos| && FieldAt(m, 0, 4, 4 + 24 * |infos|) && FieldAt(m, 4, 4, |infos|)
            && (i < |infos| ==>
                  && FieldAt(m, 8 + 24 * i, 4, infos[i].family)
                  && m[12 + 24 * i..28 + 24 * i] == infos[i].addr
                  && FieldAt(m, 28 + 24 * i, 4, infos[i].cores))
  {
    hide LE, FieldAt, EncodeInfos;
    var m, records := ListingMessage(infos), EncodeInfos(infos);
    InfosRoundTrip(infos);
    assert m[8..] == records;
    FieldIs(m, 0, 4, 4 + 24 * |infos|);
    FieldIs(m, 4, 4, |infos|);
    if i < |infos| {
      RecordAt(infos, i);
      RecordFormat(m, 8 + 24 * i, infos[i]);
    }
  }

  lemma RecordFormat(m: seq<Byte>, at: nat, i: Info)
    requires FitsInfo(i) && at + 24 <= |m| && m[at..at + 24] == EncodeInfo(i)
    ensures FieldAt(m, at, 4, i.family) && m[at + 4..at + 20] == i.addr && FieldAt(m, at + 20, 4, i.cores)
  {
    hide LE, FieldAt;
    var e := m[at..at + 24];
    assert m[at..at + 4] == e[..4];
    assert m[at + 4..at + 20] == e[4..20] by {
      assert forall k :: 4 <= k < 20 ==> e[k] == m[at + k];
    }
    assert m[at + 20..at + 24] == e[20..24];
    FieldIs(m, at, 4, i.family);
    FieldIs(m, at + 20, 4, i.cores);
  }

  /** `handle_get_info`: what the server sends for the list reachable from the registry's head. */
  method ServeListing(s: Server) returns (msg: seq<Byte>)
    requires s.Valid()
    ensures msg == ListingMessage(Infos(s.listed))
  {
    hide Server.Valid, EncodeListing;
    var nodes := s.GetInfo();
    var body := EncodeListing(nodes[..]);
    msg := LE(|body|, LISTING_HEAD) + body;
  }

  /** `dic_get_nodes_info`: read the head, read the body, take the body for the struct. However the
      transport splits the bytes, that gives the infos that were sent, and not a byte of what follows. */
  method GetNodesInfo(conn: Sockets.Conn, ghost infos: seq<Info>, ghost rest: seq<Byte>)
    returns (nodes: Option<seq<Info>>)
    requires conn.Valid() && conn.Pending() == ListingMessage(infos) + rest
    requires FitsListing(|infos|) && forall i :: i in infos ==> FitsInfo(i)
    modifies conn
    ensures nodes == Some(infos) && conn.Pending() == rest
  {
    hide LE, UnLE, EncodeListing, DecodeListing, FitsInfo;
    ListingSize(infos);
    ListingRoundTrip(infos);
    ghost var body := EncodeListing(infos);
    ghost var all := LE(|body|, LISTING_HEAD) + body + rest;
    var head := new Byte[LISTING_HEAD];
    var _ := conn.ConnRecv(head, LISTING_HEAD, false);
    assert all[..LISTING_HEAD] == LE(|body|, LISTING_HEAD) && all[LISTING_HEAD..] == body + rest;
    assert head[..] == LE(|body|, LISTING_HEAD);
    var size := UnLE(head[..]);
    var buffer := new Byte[size];
    var _ := conn.ConnRecv(buffer, size, false);
    assert (body + rest)[..size] == body && (body + rest)[size..] == rest;
    assert buffer[..] == body;
    nodes := DecodeListing(buffer[..]);
  }

  /** A request for the node list, over a transport that splits the bytes by any `split`: the client gets
      the list reachable from the registry's head at one moment, complete and in order. */
  method ListNodes(s: Server, split: seq<Byte> -> seq<seq<Byte>>) returns (nodes: Option<seq<Info>>)
    requires s.Valid() && FitsListing(|s.listed|) && forall e :: e in s.listed ==> FitsInfo(e.info)
    requires forall m :: Flatten(split(m)) == m && [] !in split(m)
    ensures nodes == Some(Infos(s.listed))
  {
    hide Server.Valid, ListingMessage, FitsInfo, Flatten;
    var msg := ServeListing(s);
    var conn := new Sockets.Conn(3, split(msg));
    assert ListingMessage(Infos(s.listed)) + [] == msg;
    nodes := GetNodesInfo(conn, Infos(s.listed), []);
  }
}
