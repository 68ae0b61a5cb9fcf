/** The main server's registry of nodes: a doubly linked list on the heap, changed by one handler
    thread per connection. Every change and every listing runs under one mutex, so the handlers'
    critical sections happen one at a time, in some order. */
module Registry {
  import opened Bytes

  /** `dic_node_info_t`: address family, the 16 bytes of the address union, core count. */
  datatype Info = Info(family: nat, addr: seq<Byte>, cores: nat)

  class Entry {
    const info: Info
    var prev: Entry?
    var next: Entry?

    constructor (info: Info)
      ensures this.info == info && prev == null && next == null
    {
      this.info, prev, next := info, null, null;
    }
  }

  function Infos(es: seq<Entry>): (s: seq<Info>)
    ensures |s| == |es| && forall i :: 0 <= i < |es| ==> s[i] == es[i].info
  {
    seq(|es|, i requires 0 <= i < |es| => es[i].info)
  }

  /** `s` without its (only) occurrence of `x`. */
  function Without<T(==)>(s: seq<T>, x: T): seq<T> {
    if s == [] then [] else if s[0] == x then s[1..] else [s[0]] + Without(s[1..], x)
  }

  lemma {:induction false} WithoutAt<T>(s: seq<T>, k: nat)
    requires k < |s| && forall i :: 0 <= i < k ==> s[i] != s[k]
    ensures Without(s, s[k]) == s[..k] + s[k + 1..]
  {
    if k > 0 {
      assert s[1..][k - 1] == s[k];
      WithoutAt(s[1..], k - 1);
      assert s[..k] == [s[0]] + s[1..][..k - 1];
      assert s[k + 1..] == s[1..][k..];
    }
  }

  lemma {:induction false} WithoutAbsent<T>(s: seq<T>, x: T)
    requires x !in s
    ensures Without(s, x) == s
  {
    if s != [] {
      WithoutAbsent(s[1..], x);
    }
  }

  // ----- Link structures, as values

  datatype Link = Link(prev: Entry?, next: Entry?)
  type Links = map<Entry, Link>

  /** Links join live entries only, in both directions, and always from an earlier arrival to a
      later one: the live entries form disjoint acyclic doubly linked chains. */
  ghost predicate Chains(ls: Links, stamp: map<Entry, nat>, clock: nat) {
    && ls.Keys == stamp.Keys
    && forall e :: e in ls ==>
         && stamp[e] < clock
         && (ls[e].next != null ==> ls[e].next in ls && ls[ls[e].next].prev == e && stamp[e] < stamp[ls[e].next])
         && (ls[e].prev != null ==> ls[e].prev in ls && ls[ls[e].prev].next == e && stamp[ls[e].prev] < stamp[e])
  }

  /** `es` is one whole chain. */
  ghost predicate Linked(es: seq<Entry>, ls: Links) {
    forall i :: 0 <= i < |es| ==> LinkAt(es, ls, i)
  }

  ghost predicate LinkAt(es: seq<Entry>, ls: Links, i: nat)
    requires i < |es|
  {
    && es[i] in ls
    && ls[es[i]].next == (if i + 1 < |es| then es[i + 1] else null)
    && ls[es[i]].prev == (if i > 0 then es[i - 1] else null)
  }

  ghost predicate Distinct<T>(es: seq<T>) {
    forall i, j :: 0 <= i < j < |es| ==> es[i] != es[j]
  }

  /** The links after `e` has joined behind `last`. */
  ghost function Joined(ls: Links, last: Entry?, e: Entry): Links {
    var front := if last != null && last in ls then ls[last := ls[last].(next := e)] else ls;
    front[e := Link(last, null)]
  }

  lemma JoinedChains(ls: Links, stamp: map<Entry, nat>, clock: nat, last: Entry?, e: Entry)
    requires Chains(ls, stamp, clock) && e !in ls
    requires last != null ==> last in ls && ls[last].next == null
    ensures Chains(Joined(ls, last, e), stamp[e := clock], clock + 1)
  {
  }

  lemma JoinedLinked(ls: Links, es: seq<Entry>, e: Entry)
    requires Linked(es, ls) && Distinct(es) && e !in ls
    ensures var last := if es == [] then null else es[|es| - 1];
            Linked(es + [e], Joined(ls, last, e)) && Distinct(es + [e])
  {
    var last: Entry? := if es == [] then null else es[|es| - 1];
    var ls', longer := Joined(ls, last, e), es + [e];
    forall i | 0 <= i < |longer| ensures LinkAt(longer, ls', i) {
      if i < |es| {
        assert LinkAt(es, ls, i);
        assert i < |es| - 1 ==> es[i] != es[|es| - 1];
      }
    }
    forall i | 0 <= i < |es| ensures es[i] != e {
      assert LinkAt(es, ls, i);
    }
  }

  /** The links after the gap around `e` has been closed. */
  ghost function Unlinked(ls: Links, e: Entry): Links
    requires e in ls
  {
    map x | x in ls && x != e :: Link(if ls[x].prev == e then ls[e].prev else ls[x].prev,
                                      if ls[x].next == e then ls[e].next else ls[x].next)
  }

  lemma UnlinkedChains(ls: Links, stamp: map<Entry, nat>, clock: nat, e: Entry)
    requires Chains(ls, stamp, clock) && e in ls
    ensures Chains(Unlinked(ls, e), stamp - {e}, clock)
  {
    var ls' := Unlinked(ls, e);
    assert ls'.Keys == (stamp - {e}).Keys;
  }

  /** A chain around the removed entry closes up. */
  lemma Closes(ls: Links, es: seq<Entry>, k: nat)
    requires Linked(es, ls) && Distinct(es) && k < |es| && es[k] in ls
    ensures var rest := es[..k] + es[k + 1..];
            && Without(es, es[k]) == rest
            && Linked(rest, Unlinked(ls, es[k])) && Distinct(rest)
    ensures ls[es[k]].prev == null <==> k == 0
    ensures ls[es[k]].next == if k + 1 < |es| then es[k + 1] else null
  {
    WithoutAt(es, k);
    var rest, ls' := es[..k] + es[k + 1..], Unlinked(ls, es[k]);
    assert LinkAt(es, ls, k);
    DistinctRest(es, k);
    hide Linked, Distinct, Unlinked, Without;
    forall i | 0 <= i < |rest| ensures LinkAt(rest, ls', i) {
      ClosesAt(ls, es, k, i);
      assert rest[i] == es[Skip(i, k)];
      assert i + 1 < |rest| ==> rest[i + 1] == es[Skip(i + 1, k)];
      assert i > 0 ==> rest[i - 1] == es[Skip(i - 1, k)];
    }
    LinkedAll(rest, ls');
  }

  lemma LinkedAll(es: seq<Entry>, ls: Links)
    requires forall i :: 0 <= i < |es| ==> LinkAt(es, ls, i)
    ensures Linked(es, ls)
  {
  }

  lemma DistinctRest<T>(es: seq<T>, k: nat)
    requires Distinct(es) && k < |es|
    ensures Distinct(es[..k] + es[k + 1..])
  {
  }

  function Skip(i: nat, k: nat): nat { if i < k then i else i + 1 }

  lemma ClosesAt(ls: Links, es: seq<Entry>, k: nat, i: nat)
    requires Linked(es, ls) && Distinct(es) && k < |es| && i < |es| - 1 && es[k] in ls
    ensures var ls' := Unlinked(ls, es[k]);
            && es[Skip(i, k)] in ls'
            && ls'[es[Skip(i, k)]].next == (if i + 2 < |es| then es[Skip(i + 1, k)] else null)
            && ls'[es[Skip(i, k)]].prev == (if i > 0 then es[Skip(i - 1, k)] else null)
  {
    var j := Skip(i, k);
    assert LinkAt(es, ls, j) && LinkAt(es, ls, k);
  }

  /** Other chains do not notice. */
  lemma Untouched(ls: Links, stamp: map<Entry, nat>, clock: nat, es: seq<Entry>, e: Entry)
    requires Chains(ls, stamp, clock) && Linked(es, ls) && e in ls && e !in es
    ensures Without(es, e) == es && Linked(es, Unlinked(ls, e))
  {
    WithoutAbsent(es, e);
    var ls' := Unlinked(ls, e);
    forall i | 0 <= i < |es| ensures LinkAt(es, ls', i) {
      assert LinkAt(es, ls, i);
    }
  }

  // ----- The server's memory, as a value

  /** `NODES_INFO`, the link fields of the entries that are not freed, and the handlers' `conn_info`
      variables. Arrival times and announcing connections only record history. */
  datatype Memory = Memory(first: Entry?, links: Links, connInfo: map<nat, Entry>,
                           stamp: map<Entry, nat>, clock: nat, owner: map<Entry, nat>)

  const EMPTY := Memory(null, map[], map[], map[], 0, map[])

  /** What one comes across from `p` on by following `next`. */
  ghost function Chain(ls: Links, p: Entry?): seq<Entry>
    decreases ls.Keys
  {
    if p == null || p !in ls then []
    else
      assert (ls - {p}).Keys == ls.Keys - {p};
      [p] + Chain(ls - {p}, ls[p].next)
  }

  /** The reachable list: the chain from `NODES_INFO`. */
  ghost function Listed(m: Memory): seq<Entry> {
    Chain(m.links, m.first)
  }

  function FirstOf(es: seq<Entry>): Entry? {
    if es == [] then null else es[0]
  }

  function LastOf(es: seq<Entry>): Entry? {
    if es == [] then null else es[|es| - 1]
  }

  function Elements<T(==)>(es: seq<T>): set<T> {
    set x | x in es
  }

  /** Following `next` from the first entry of a whole chain gives that chain. */
  lemma ChainIs(ls: Links, es: seq<Entry>)
    requires Linked(es, ls) && Distinct(es)
    ensures Chain(ls, FirstOf(es)) == es
  {
    ChainFrom(ls, es, 0);
    assert ls - Elements(es[..0]) == ls;
    assert es[0..] == es;
  }

  lemma {:induction false} ChainFrom(ls: Links, es: seq<Entry>, k: nat)
    requires Linked(es, ls) && Distinct(es) && k <= |es|
    ensures Chain(ls - Elements(es[..k]), FirstOf(es[k..])) == es[k..]
    decreases |es| - k
  {
    hide Distinct;
    var rest := ls - Elements(es[..k]);
    if k < |es| {
      var e := es[k];
      assert LinkAt(es, ls, k);
      NotBefore(es, k);
      assert es[..k + 1] == es[..k] + [e];
      assert rest - {e} == ls - Elements(es[..k + 1]);
      ChainFrom(ls, es, k + 1);
      assert es[k..] == [e] + es[k + 1..];
    }
  }

  lemma NotBefore<T>(es: seq<T>, k: nat)
    requires Distinct(es) && k < |es|
    ensures es[k] !in es[..k]
  {
  }

  /** Handlers hold pointers to live entries only, each to its own. */
  ghost predicate Handlers(stamp: map<Entry, nat>, connInfo: map<nat, Entry>, owner: map<Entry, nat>) {
    && owner.Keys == stamp.Keys
    && forall c :: c in connInfo ==> connInfo[c] in stamp && owner[connInfo[c]] == c
  }

  lemma NewHandler(stamp: map<Entry, nat>, connInfo: map<nat, Entry>, owner: map<Entry, nat>, conn: nat, e: Entry)
    requires Handlers(stamp, connInfo, owner) && e in stamp && e in owner && owner[e] == conn
    ensures Handlers(stamp, connInfo[conn := e], owner)
  {
  }

  /** `first` is null or the head of one of the chains, `es`. */
  ghost predicate SoundAs(m: Memory, es: seq<Entry>) {
    && Chains(m.links, m.stamp, m.clock)
    && Linked(es, m.links) && Distinct(es) && m.first == FirstOf(es)
    && Handlers(m.stamp, m.connInfo, m.owner)
  }

  ghost predicate Sound(m: Memory) {
    SoundAs(m, Listed(m))
  }

  lemma SoundList(m: Memory, es: seq<Entry>)
    requires SoundAs(m, es)
    ensures Sound(m) && Listed(m) == es
  {
    hide Chains, Linked, Distinct, Handlers;
    ChainIs(m.links, es);
  }

  lemma EmptyIsSound()
    ensures Sound(EMPTY) && Listed(EMPTY) == [] && Complete(EMPTY) && Orphans(EMPTY) == {} && Represents(EMPTY, [])
  {
  }

  /** No live entry is off the list. */
  ghost predicate Complete(m: Memory) {
    forall e :: e in m.stamp ==> e in Listed(m)
  }

  /** The live entries that no handler will ever remove. */
  ghost function Orphans(m: Memory): set<Entry> {
    OrphansOf(m.stamp.Keys, m.owner, m.connInfo)
  }

  ghost predicate Represents(m: Memory, anns: seq<Ann>) {
    Rep(Listed(m), m.connInfo, m.stamp.Keys, anns)
  }

  /** The memory after `append_info`, if the list was `es`. */
  ghost function Longer(m: Memory, es: seq<Entry>, conn: nat, e: Entry): Memory {
    Memory(if m.first == null then e else m.first, Joined(m.links, LastOf(es), e),
           m.connInfo, m.stamp[e := m.clock], m.clock + 1, m.owner[e := conn])
  }

  lemma LongerSound(m: Memory, es: seq<Entry>, conn: nat, e: Entry)
    requires SoundAs(m, es) && e !in m.links
    ensures SoundAs(Longer(m, es, conn, e), es + [e])
    ensures Handlers(m.stamp[e := m.clock], m.connInfo[conn := e], m.owner[e := conn])
  {
    hide Chains, Linked, Distinct, Joined;
    LastInside(m, es);
    JoinedChains(m.links, m.stamp, m.clock, LastOf(es), e);
    JoinedLinked(m.links, es, e);
    SameKeys(m, es);
  }

  /** The memory after `append_info` and the assignment to `conn_info`. */
  ghost function Appended(m: Memory, conn: nat, e: Entry): Memory {
    Longer(m, Listed(m), conn, e).(connInfo := m.connInfo[conn := e])
  }

  /** The memory after `remove_info`, as written or repaired. */
  ghost function Removed(m: Memory, conn: nat, repaired: bool): Memory {
    if conn !in m.connInfo || m.connInfo[conn] !in m.links then m
    else
      var e := m.connInfo[conn];
      Memory(if m.links[e].prev != null then m.first else if repaired then m.links[e].next else null,
             Unlinked(m.links, e), m.connInfo - {conn}, m.stamp - {e}, m.clock, m.owner - {e})
  }

  /** What one critical section does to the memory. A new entry is any that is not in use. */
  ghost predicate Changes(repaired: bool, m: Memory, ev: Event, m': Memory) {
    match ev
    case Announced(conn, info) =>
      && conn in m'.connInfo && m'.connInfo[conn] !in m.links && m'.connInfo[conn].info == info
      && m' == Appended(m, conn, m'.connInfo[conn])
    case Left(conn) => m' == Removed(m, conn, repaired)
  }

  lemma AppendedSound(m: Memory, conn: nat, e: Entry)
    requires Sound(m) && e !in m.links
    ensures Sound(Appended(m, conn, e)) && Listed(Appended(m, conn, e)) == Listed(m) + [e]
    ensures Complete(m) ==> Complete(Appended(m, conn, e))
  {
    hide Chains, Linked, Distinct, Joined, Chain;
    var es := Listed(m);
    LongerSound(m, es, conn, e);
    SoundList(Appended(m, conn, e), es + [e]);
  }

  lemma SameKeys(m: Memory, es: seq<Entry>)
    requires SoundAs(m, es)
    ensures m.links.Keys == m.stamp.Keys
  {
  }

  lemma LastInside(m: Memory, es: seq<Entry>)
    requires SoundAs(m, es)
    ensures var last := LastOf(es); last != null ==> last in m.links && m.links[last].next == null
  {
    if es != [] {
      assert LinkAt(es, m.links, |es| - 1);
    }
  }

  lemma RemovedSound(m: Memory, conn: nat, repaired: bool)
    requires Sound(m) && (repaired ==> Complete(m)) && conn in m.connInfo
    ensures var e, m' := m.connInfo[conn], Removed(m, conn, repaired);
            && e in m.links && Sound(m') && (repaired ==> Complete(m'))
            && Listed(m') == if !repaired && m.links[e].prev == null then [] else Without(Listed(m), e)
  {
    hide Chains, Linked, Distinct, Unlinked, Chain, Without;
    var e, es, m' := m.connInfo[conn], Listed(m), Removed(m, conn, repaired);
    SameKeys(m, Listed(m));
    UnlinkedChains(m.links, m.stamp, m.clock, e);
    RestOfList(m, e);
    if !repaired && m.links[e].prev == null {
      Server.EmptyChain(m'.links);
      SoundList(m', []);
    } else {
      SoundList(m', Without(es, e));
    }
    if repaired {
      StillComplete(es, m.stamp.Keys, e);
    }
  }

  /** What the list becomes when `e` is unlinked. */
  lemma RestOfList(m: Memory, e: Entry)
    requires Sound(m) && e in m.links
    ensures var es, rest := Listed(m), Without(Listed(m), e);
            && Linked(rest, Unlinked(m.links, e)) && Distinct(rest)
            && (m.links[e].prev != null ==> FirstOf(rest) == FirstOf(es))
            && (e in es && m.links[e].prev == null ==> m.links[e].next == FirstOf(rest))
  {
    hide Chains, Linked, Distinct, Unlinked, Without, Chain;
    var es := Listed(m);
    if e in es {
      var k: nat :| k < |es| && es[k] == e;
      Closes(m.links, es, k);
    } else {
      Untouched(m.links, m.stamp, m.clock, es, e);
    }
  }

  // ----- The server

  class Server {
    var first: Entry?             // NODES_INFO
    var connInfo: map<nat, Entry> // the `conn_info` variable of each handler that has announced

    ghost var stamp: map<Entry, nat> // the entries not freed, with their arrival times
    ghost var clock: nat
    ghost var listed: seq<Entry>     // the chain that starts at `first`
    ghost var owner: map<Entry, nat> // the connection that announced an entry

    /** The link fields of the live entries. */
    ghost function Heap(): (ls: Links)
      reads this`stamp, stamp.Keys
      ensures ls.Keys == stamp.Keys
    {
      map e | e in stamp :: Link(e.prev, e.next)
    }

    /** All of this as a value. */
    ghost function Mem(): Memory
      reads this, stamp.Keys
    {
      Memory(first, Heap(), connInfo, stamp, clock, owner)
    }

    /** The memory is sound, and `listed` is the chain that starts at `first`. */
    ghost predicate Valid()
      reads this, stamp.Keys
    {
      SoundAs(Mem(), listed)
    }

    constructor ()
      ensures Valid() && listed == [] && stamp == map[] && connInfo == map[] && Mem() == EMPTY
      ensures Complete() && Orphans() == {} && Represents([])
    {
      hide Chains, Linked, Distinct;
      first, connInfo := null, map[];
      stamp, clock, listed, owner := map[], 0, [], map[];
      new;
      assert Heap() == map[];
      EmptyChain(Heap());
      NoChains();
    }

    /** The walk of `append_info` to the end of the chain. */
    method FindLast() returns (last: Entry)
      requires Valid() && first != null
      ensures listed != [] && last == listed[|listed| - 1]
      ensures last in stamp && last.next == null && Heap()[last].next == null
    {
      last := first;
      ghost var k := 0;
      while last.next != null
        invariant 0 <= k < |listed| && last == listed[k]
        decreases |listed| - k
      {
        assert LinkAt(listed, Heap(), k);
        last := last.next;
        k := k + 1;
      }
      assert LinkAt(listed, Heap(), k);
    }

    /** The assignments of `append_info` once the end is known. */
    method Join(last: Entry?, e: Entry, ghost conn: nat)
      requires last != null ==> last in stamp && last.next == null
      requires e !in stamp && e.prev == null && e.next == null
      modifies this`stamp, this`clock, this`owner, e, if last != null then {last} else {}
      ensures Heap() == Joined(old(Heap()), last, e)
      ensures stamp == old(stamp)[e := old(clock)] && owner == old(owner)[e := conn] && clock == old(clock) + 1
    {
      if last != null {
        last.next := e;
        e.prev := last;
      }
      stamp := stamp[e := clock];
      owner := owner[e := conn];
      clock := clock + 1;
      assert Heap().Keys == Joined(old(Heap()), last, e).Keys;
    }

    /** `append_info`. */
    method AppendInfo(info: Info, ghost conn: nat) returns (e: Entry)
      requires Valid()
      modifies this`first, this`stamp, this`clock, this`listed, this`owner, stamp.Keys
      ensures Valid() && fresh(e) && e.info == info
      ensures stamp == old(stamp)[e := old(clock)] && owner == old(owner)[e := conn]
      ensures listed == old(listed) + [e] && Heap() == Joined(old(Heap()), LastOf(old(listed)), e)
      ensures clock == old(clock) + 1 && first == if old(first) == null then e else old(first)
    {
      hide Joined, Distinct, Chains, Linked, Heap, Handlers;
      ghost var m, es := Mem(), listed;
      e := new Entry(info);
      LongerSound(m, es, conn, e);
      var last: Entry? := null;
      if first != null {
        last := FindLast();
      }
      Join(last, e, conn);
      if last == null {
        first := e;
      }
      listed := listed + [e];
      assert Mem() == Longer(m, es, conn, e);
    }

    /** The two assignments of `remove_info` that close the gap around an entry. */
    method CloseGap(e: Entry)
      requires e in stamp
      requires e.next != null ==> e.next in stamp && e.next != e && e.next.prev == e
      requires e.prev != null ==> e.prev in stamp && e.prev != e && e.prev.next == e
      requires forall x :: x in stamp ==> (x.prev == e ==> x == e.next) && (x.next == e ==> x == e.prev)
      modifies this`stamp, this`owner
      modifies if e.next != null then {e.next} else {}, if e.prev != null then {e.prev} else {}
      ensures Heap() == Unlinked(old(Heap()), e)
      ensures stamp == old(stamp) - {e} && owner == old(owner) - {e}
      ensures e.next == old(e.next) && e.prev == old(e.prev)
    {
      if e.next != null {
        e.next.prev := e.prev;
      }
      if e.prev != null {
        e.prev.next := e.next;
      }
      stamp := stamp - {e};
      owner := owner - {e};
      assert Heap().Keys == Unlinked(old(Heap()), e).Keys;
    }

    /** What `CloseGap` relies on, from the chains. */
    lemma Neighbours(e: Entry)
      requires Chains(Heap(), stamp, clock) && e in stamp
      ensures e.next != null ==> e.next in stamp && e.next != e && e.next.prev == e
      ensures e.prev != null ==> e.prev in stamp && e.prev != e && e.prev.next == e
      ensures forall x :: x in stamp ==> (x.prev == e ==> x == e.next) && (x.next == e ==> x == e.prev)
    {
      assert Heap()[e] == Link(e.prev, e.next);
      forall x | x in stamp ensures (x.prev == e ==> x == e.next) && (x.next == e ==> x == e.prev) {
        assert Heap()[x] == Link(x.prev, x.next);
      }
    }

    method Unlink(e: Entry)
      requires Chains(Heap(), stamp, clock) && e in stamp
      modifies this`stamp, this`owner, stamp.Keys
      ensures Heap() == Unlinked(old(Heap()), e) && Chains(Heap(), stamp, clock)
      ensures stamp == old(stamp) - {e} && owner == old(owner) - {e}
      ensures e.next == old(e.next) && e.prev == old(e.prev)
    {
      hide Chains, Unlinked, Heap;
      Neighbours(e);
      UnlinkedChains(Heap(), stamp, clock, e);
      CloseGap(e);
    }

    /** What the list becomes when `e` is unlinked. */
    lemma Rest(e: Entry)
      requires Valid() && e in stamp
      ensures var rest := Without(listed, e);
              && Linked(rest, Unlinked(Heap(), e)) && Distinct(rest)
              && (e.prev != null ==> FirstOf(rest) == FirstOf(listed))
              && (e in listed && e.prev == null ==> e.next == FirstOf(rest))
    {
      hide Chains, Linked, Distinct, Unlinked, Without, Chain;
      SoundList(Mem(), listed);
      RestOfList(Mem(), e);
    }

    /** `remove_info` as written: removing a chain's first entry empties the list. */
    method RemoveInfo(e: Entry)
      requires Valid() && e in stamp && (forall c :: c in connInfo ==> connInfo[c] != e)
      modifies this`first, this`stamp, this`listed, this`owner, stamp.Keys
      ensures Valid()
      ensures stamp == old(stamp) - {e} && owner == old(owner) - {e}
      ensures listed == if old(e.prev) == null then [] else Without(old(listed), e)
      ensures Heap() == Unlinked(old(Heap()), e) && first == if old(e.prev) == null then null else old(first)
    {
      hide Chains, Linked, Distinct, Unlinked, Without, Heap;
      ghost var rest := Without(listed, e);
      Rest(e);
      Unlink(e);
      if e.prev == null {
        first := null;
        rest := [];
        EmptyChain(Heap());
      }
      listed := rest;
    }

    static lemma NoChains()
      ensures Chains(map[], map[], 0)
    {
    }

    static lemma EmptyChain(ls: Links)
      ensures Linked([], ls) && Distinct<Entry>([])
    {
    }

    /** `remove_info` with its first-entry case repaired: the list goes on with the successor. */
    method RemoveInfoRepaired(e: Entry)
      requires Valid() && e in stamp && e in listed && (forall c :: c in connInfo ==> connInfo[c] != e)
      modifies this`first, this`stamp, this`listed, this`owner, stamp.Keys
      ensures Valid()
      ensures stamp == old(stamp) - {e} && owner == old(owner) - {e}
      ensures listed == Without(old(listed), e)
      ensures Heap() == Unlinked(old(Heap()), e) && first == if old(e.prev) == null then old(e.next) else old(first)
    {
      hide Chains, Linked, Distinct, Unlinked, Without, Heap;
      ghost var rest := Without(listed, e);
      Rest(e);
      Unlink(e);
      if e.prev == null {
        first := e.next;
      }
      listed := rest;
    }

    /** `handle_get_info`: count the chain, then copy it. Both passes run in one critical section. */
    method GetInfo() returns (nodes: array<Info>)
      requires Valid()
      ensures fresh(nodes) && nodes[..] == Infos(listed)
    {
      hide Chains, Distinct;
      var len := 0;
      var curr := first;
      if curr != null {
        len := len + 1;
        while curr.next != null
          invariant 1 <= len <= |listed| && curr == listed[len - 1]
          decreases |listed| - len
        {
          assert LinkAt(listed, Heap(), len - 1);
          curr := curr.next;
          len := len + 1;
        }
        assert LinkAt(listed, Heap(), len - 1);
      }
      assert len == |listed|;

      nodes := new Info[len];
      curr := first;
      var i := 0;
      while i < len
        invariant 0 <= i <= len && nodes.Length == len
        invariant curr == if i < len then listed[i] else null
        invariant forall k :: 0 <= k < i ==> nodes[k] == listed[k].info
      {
        assert LinkAt(listed, Heap(), i);
        nodes[i] := curr.info;
        curr := curr.next;
        i := i + 1;
      }
    }

    /** The announcement branch of the handler loop. */
    method Announce(conn: nat, info: Info) returns (ghost e: Entry)
      requires Valid()
      modifies this, stamp.Keys
      ensures Valid() && fresh(e) && e.info == info
      ensures stamp.Keys == old(stamp.Keys) + {e} && owner == old(owner)[e := conn]
      ensures listed == old(listed) + [e] && connInfo == old(connInfo)[conn := e]
      ensures e !in old(Heap()) && Mem() == Appended(old(Mem()), conn, e)
    {
      hide Chains, Linked, Distinct, Heap, Chain, Joined, Handlers;
      ghost var es := listed;
      SoundList(Mem(), es);
      var entry := AppendInfo(info, conn);
      NewHandler(stamp, connInfo, owner, conn, entry);
      connInfo := connInfo[conn := entry];
      e := entry;
    }

    /** The end of a handler: a connection that announced takes its entry out. */
    method Leave(conn: nat, repaired: bool)
      requires Valid() && (repaired ==> Complete())
      modifies this, stamp.Keys
      ensures Valid() && connInfo == old(connInfo) - {conn}
      ensures conn !in old(connInfo) ==> listed == old(listed) && stamp == old(stamp) && owner == old(owner)
      ensures conn in old(connInfo) ==>
                var e := old(connInfo[conn]);
                && stamp == old(stamp) - {e} && owner == old(owner) - {e}
                && listed == if !repaired && old(e.prev) == null then [] else Without(old(listed), e)
      ensures Mem() == Removed(old(Mem()), conn, repaired)
    {
      hide Chains, Linked, Distinct, Without, Chain, Unlinked;
      if conn in connInfo {
        var e := connInfo[conn];
        connInfo := connInfo - {conn};
        assert Valid();
        if repaired {
          RemoveInfoRepaired(e);
        } else {
          RemoveInfo(e);
        }
      } else {
        assert connInfo - {conn} == connInfo;
      }
    }

    /** No live entry is off the list. */
    ghost predicate Complete()
      reads this
    {
      forall e :: e in stamp ==> e in listed
    }

    /** Every live entry belongs to a handler that has not removed it yet. */
    ghost predicate Owned()
      reads this
    {
      forall e :: e in stamp ==> e in owner && owner[e] in connInfo && connInfo[owner[e]] == e
    }

    /** The live entries that no handler will ever remove. */
    ghost function Orphans(): set<Entry>
      reads this
    {
      OrphansOf(stamp.Keys, owner, connInfo)
    }

    lemma NoOrphans()
      ensures |Orphans()| == 0 <==> Owned()
    {
      if |Orphans()| == 0 {
        forall e | e in stamp ensures e in owner && owner[e] in connInfo && connInfo[owner[e]] == e {
          assert e !in Orphans();
        }
      } else {
        var e :| e in Orphans();
      }
    }

    ghost predicate Represents(anns: seq<Ann>)
      reads this
    {
      Rep(listed, connInfo, stamp.Keys, anns)
    }
  }

  // ----- Entries that have lost their handler

  ghost function OrphansOf(live: set<Entry>, owner: map<Entry, nat>, connInfo: map<nat, Entry>): set<Entry> {
    set e | e in live && !(e in owner && owner[e] in connInfo && connInfo[owner[e]] == e)
  }

  /** A second announcement on a connection orphans the first entry; every orphan stays one. */
  lemma AnnouncedOrphans(live: set<Entry>, owner: map<Entry, nat>, connInfo: map<nat, Entry>, conn: nat, e: Entry)
    requires owner.Keys == live && e !in live
    requires forall c :: c in connInfo ==> connInfo[c] in live && owner[connInfo[c]] == c
    ensures OrphansOf(live + {e}, owner[e := conn], connInfo[conn := e])
         == OrphansOf(live, owner, connInfo) + if conn in connInfo then {connInfo[conn]} else {}
    ensures conn in connInfo ==> connInfo[conn] !in OrphansOf(live, owner, connInfo)
  {
  }

  lemma LeftOrphans(live: set<Entry>, owner: map<Entry, nat>, connInfo: map<nat, Entry>, conn: nat)
    requires owner.Keys == live && conn in connInfo
    requires forall c :: c in connInfo ==> connInfo[c] in live && owner[connInfo[c]] == c
    ensures var e := connInfo[conn];
            OrphansOf(live - {e}, owner - {e}, connInfo - {conn}) == OrphansOf(live, owner, connInfo)
  {
  }

  // ----- Runs of the handlers

  datatype Ann = Ann(conn: nat, info: Info)

  /** What the critical sections of the handlers do, in the order in which they get the mutex. */
  datatype Event = Announced(conn: nat, info: Info) | Left(conn: nat)

  function Drop(anns: seq<Ann>, conn: nat): seq<Ann> {
    if anns == [] then [] else if anns[0].conn == conn then anns[1..] else [anns[0]] + Drop(anns[1..], conn)
  }

  /** The intended effect: the live announcements, in arrival order. */
  function Apply(anns: seq<Ann>, ev: Event): seq<Ann> {
    match ev
    case Announced(conn, info) => anns + [Ann(conn, info)]
    case Left(conn) => Drop(anns, conn)
  }

  function Live(events: seq<Event>): seq<Ann>
    decreases |events|
  {
    if events == [] then [] else Apply(Live(events[..|events| - 1]), events[|events| - 1])
  }

  /** The connections that have announced and not left. */
  function Connected(events: seq<Event>): set<nat>
    decreases |events|
  {
    if events == [] then {}
    else
      var before := Connected(events[..|events| - 1]);
      match events[|events| - 1]
      case Announced(conn, _) => before + {conn}
      case Left(conn) => before - {conn}
  }

  /** Connections announce at most once. */
  ghost predicate Once(events: seq<Event>) {
    forall k :: 0 <= k < |events| && events[k].Announced? ==> events[k].conn !in Connected(events[..k])
  }

  /** The announcements on connections that have announced already. */
  function Repeats(events: seq<Event>): nat
    decreases |events|
  {
    if events == [] then 0
    else
      var n := |events| - 1;
      Repeats(events[..n])
        + if events[n].Announced? && events[n].conn in Connected(events[..n]) then 1 else 0
  }

  lemma {:induction false} NoRepeats(events: seq<Event>)
    ensures Repeats(events) == 0 <==> Once(events)
    decreases |events|
  {
    hide Connected;
    if events != [] {
      var n := |events| - 1;
      NoRepeats(events[..n]);
      assert forall k :: 0 <= k <= n ==> events[..n][..k] == events[..k];
      assert Once(events) <==>
        Once(events[..n]) && (events[n].Announced? ==> events[n].conn !in Connected(events[..n]));
    }
  }

  /** The announcement is its connection's first. */
  predicate Single(anns: seq<Ann>, ev: Event) {
    ev.Announced? ==> forall a :: a in anns ==> a.conn != ev.conn
  }

  /** The event does not remove the first of several entries. */
  predicate KeepsHead(anns: seq<Ann>, ev: Event) {
    ev.Left? && |anns| > 1 ==> anns[0].conn != ev.conn
  }

  function AnnInfos(anns: seq<Ann>): (s: seq<Info>)
    ensures |s| == |anns| && forall i :: 0 <= i < |anns| ==> s[i] == anns[i].info
  {
    seq(|anns|, i requires 0 <= i < |anns| => anns[i].info)
  }

  lemma {:induction false} DropAt(anns: seq<Ann>, k: nat)
    requires k < |anns| && forall i :: 0 <= i < k ==> anns[i].conn != anns[k].conn
    ensures Drop(anns, anns[k].conn) == anns[..k] + anns[k + 1..]
  {
    if k > 0 {
      assert anns[1..][k - 1] == anns[k];
      DropAt(anns[1..], k - 1);
      assert anns[..k] == [anns[0]] + anns[1..][..k - 1];
      assert anns[k + 1..] == anns[1..][k..];
    }
  }

  lemma {:induction false} DropAbsent(anns: seq<Ann>, conn: nat)
    requires forall a :: a in anns ==> a.conn != conn
    ensures Drop(anns, conn) == anns
  {
    if anns != [] {
      assert anns[0] in anns;
      DropAbsent(anns[1..], conn);
    }
  }

  /** Every live entry is listed, and the list is exactly the announcements `anns`, in order, each
      owned by the handler of the connection that made it. */
  ghost predicate Rep(listed: seq<Entry>, connInfo: map<nat, Entry>, live: set<Entry>, anns: seq<Ann>) {
    && (forall e :: e in live ==> e in listed)
    && |listed| == |anns|
    && forall i :: 0 <= i < |anns| ==>
         && anns[i].conn in connInfo && connInfo[anns[i].conn] == listed[i]
         && anns[i].info == listed[i].info
  }

  lemma AnnouncedRep(listed: seq<Entry>, connInfo: map<nat, Entry>, live: set<Entry>, anns: seq<Ann>,
                     conn: nat, e: Entry)
    requires Rep(listed, connInfo, live, anns) && forall a :: a in anns ==> a.conn != conn
    ensures Rep(listed + [e], connInfo[conn := e], live + {e}, anns + [Ann(conn, e.info)])
  {
  }

  lemma LeftRep(listed: seq<Entry>, connInfo: map<nat, Entry>, live: set<Entry>, anns: seq<Ann>, k: nat)
    requires Rep(listed, connInfo, live, anns) && k < |anns|
    requires forall i :: 0 <= i < |anns| && i != k ==> anns[i].conn != anns[k].conn
    ensures Rep(listed[..k] + listed[k + 1..], connInfo - {anns[k].conn}, live - {listed[k]},
                anns[..k] + anns[k + 1..])
  {
    var rest, left := listed[..k] + listed[k + 1..], anns[..k] + anns[k + 1..];
    forall e | e in live - {listed[k]} ensures e in rest {
      var i :| 0 <= i < |listed| && listed[i] == e;
      assert rest[if i < k then i else i - 1] == e;
    }
    forall i | 0 <= i < |left| ensures
      && left[i].conn in connInfo - {anns[k].conn} && (connInfo - {anns[k].conn})[left[i].conn] == rest[i]
      && left[i].info == rest[i].info
    {
      assert left[i] == anns[Skip(i, k)] && rest[i] == listed[Skip(i, k)];
    }
  }

  /** Where a represented connection stands. */
  lemma Position(m: Memory, anns: seq<Ann>, conn: nat) returns (k: nat)
    requires Sound(m) && Represents(m, anns) && conn in m.connInfo
    ensures k < |anns| == |Listed(m)| && anns[k].conn == conn && Listed(m)[k] == m.connInfo[conn]
    ensures forall i :: 0 <= i < |anns| && i != k ==> anns[i].conn != anns[k].conn
    ensures Drop(anns, conn) == anns[..k] + anns[k + 1..]
    ensures Without(Listed(m), m.connInfo[conn]) == Listed(m)[..k] + Listed(m)[k + 1..]
    ensures m.connInfo[conn] in m.links && (m.links[m.connInfo[conn]].prev == null <==> k == 0)
  {
    hide Chains, Chain;
    var e, es := m.connInfo[conn], Listed(m);
    assert e in m.stamp;
    k :| 0 <= k < |es| && es[k] == e;
    assert m.owner[e] == anns[k].conn;
    assert LinkAt(es, m.links, k);
    forall i | 0 <= i < |anns| && i != k ensures anns[i].conn != anns[k].conn && es[i] != e {
      assert es[i] != es[k];
    }
    DropAt(anns, k);
    WithoutAt(es, k);
  }

  /** Removing one entry from a complete list leaves it complete. */
  lemma StillComplete(listed: seq<Entry>, live: set<Entry>, e: Entry)
    requires forall x :: x in live ==> x in listed
    ensures forall x :: x in live - {e} ==> x in Without(listed, e)
  {
    forall x | x in listed && x != e ensures x in Without(listed, e) {
      WithoutKeeps(listed, e, x);
    }
  }

  lemma {:induction false} WithoutKeeps<T>(s: seq<T>, e: T, x: T)
    requires x in s && x != e
    ensures x in Without(s, e)
  {
    if s[0] != e && s[0] != x {
      WithoutKeeps(s[1..], e, x);
    }
  }

  /** What a change does to soundness, to the entries without a handler, and to the list. As long as
      connections announce once, the repaired code always keeps the list equal to the live announcements;
      the code as written keeps it exactly when the event does not remove the first of several entries, and
      otherwise the list becomes empty. */
  lemma ChangeEffect(repaired: bool, m: Memory, ev: Event, m': Memory, anns: seq<Ann>)
    requires Sound(m) && (repaired ==> Complete(m)) && Changes(repaired, m, ev, m')
    ensures Sound(m') && (repaired ==> Complete(m'))
    ensures m'.connInfo.Keys ==
              if ev.Announced? then m.connInfo.Keys + {ev.conn} else m.connInfo.Keys - {ev.conn}
    ensures Orphans(m) <= Orphans(m')
    ensures if ev.Announced? && ev.conn in m.connInfo
            then m.connInfo[ev.conn] in Orphans(m') && |Orphans(m')| == |Orphans(m)| + 1
            else Orphans(m') == Orphans(m)
    ensures Represents(m, anns) && Single(anns, ev) && (repaired || KeepsHead(anns, ev)) ==>
              Represents(m', Apply(anns, ev))
    ensures Represents(m, anns) && Single(anns, ev) && !repaired && !KeepsHead(anns, ev) ==>
              Listed(m') == [] && Apply(anns, ev) != []
  {
    hide Sound, Listed, Complete, Chain, Unlinked, Appended, Drop, Rep, OrphansOf;
    match ev
    case Announced(conn, info) =>
      AppendedSound(m, conn, m'.connInfo[conn]);
      AnnouncedEffect(m, conn, m'.connInfo[conn], anns);
    case Left(conn) =>
      if conn in m.connInfo {
        RemovedSound(m, conn, repaired);
        LeftKeepsOrphans(m, conn, repaired);
        if Represents(m, anns) {
          LeftEffect(repaired, m, conn, m', anns);
        }
      } else if Represents(m, anns) {
        Absent(Listed(m), m.connInfo, m.stamp.Keys, anns, conn);
      }
  }

  lemma AnnouncedEffect(m: Memory, conn: nat, e: Entry, anns: seq<Ann>)
    requires Sound(m) && e !in m.links
    requires Listed(Appended(m, conn, e)) == Listed(m) + [e]
    ensures var m' := Appended(m, conn, e);
            && m'.connInfo.Keys == m.connInfo.Keys + {conn}
            && Orphans(m') == Orphans(m) + (if conn in m.connInfo then {m.connInfo[conn]} else {})
            && (conn in m.connInfo ==> m.connInfo[conn] !in Orphans(m))
            && (Represents(m, anns) && (forall a :: a in anns ==> a.conn != conn) ==>
                  Represents(m', anns + [Ann(conn, e.info)]))
  {
    hide Chains, Linked, Distinct, Chain, Joined, Rep, OrphansOf;
    SameKeys(m, Listed(m));
    assert m.stamp[e := m.clock].Keys == m.stamp.Keys + {e};
    AnnouncedOrphans(m.stamp.Keys, m.owner, m.connInfo, conn, e);
    if Represents(m, anns) && forall a :: a in anns ==> a.conn != conn {
      AnnouncedRep(Listed(m), m.connInfo, m.stamp.Keys, anns, conn, e);
    }
  }

  lemma LeftKeepsOrphans(m: Memory, conn: nat, repaired: bool)
    requires Sound(m) && conn in m.connInfo && m.connInfo[conn] in m.links
    ensures var m' := Removed(m, conn, repaired);
            m'.connInfo.Keys == m.connInfo.Keys - {conn} && Orphans(m') == Orphans(m)
  {
    hide Chains, Linked, Distinct, Chain, Unlinked, OrphansOf;
    LeftOrphans(m.stamp.Keys, m.owner, m.connInfo, conn);
  }

  lemma LeftEffect(repaired: bool, m: Memory, conn: nat, m': Memory, anns: seq<Ann>)
    requires Sound(m) && Represents(m, anns) && conn in m.connInfo && m.connInfo[conn] in m.links
    requires m' == Removed(m, conn, repaired)
    requires Listed(m') == if !repaired && m.links[m.connInfo[conn]].prev == null then []
                           else Without(Listed(m), m.connInfo[conn])
    ensures repaired || KeepsHead(anns, Left(conn)) ==> Represents(m', Drop(anns, conn))
    ensures !repaired && !KeepsHead(anns, Left(conn)) ==> Listed(m') == [] && Drop(anns, conn) != []
  {
    hide Sound, Chain, Drop, Rep, Without, Unlinked, Listed;
    var k := Position(m, anns, conn);
    LeftRep(Listed(m), m.connInfo, m.stamp.Keys, anns, k);
  }

  lemma Absent(listed: seq<Entry>, connInfo: map<nat, Entry>, live: set<Entry>, anns: seq<Ann>, conn: nat)
    requires Rep(listed, connInfo, live, anns) && conn !in connInfo
    ensures Drop(anns, conn) == anns && KeepsHead(anns, Left(conn))
  {
    DropAbsent(anns, conn);
  }

  /** One critical section on the objects: it changes the memory as `Changes` says, with everything that
      follows from that. */
  method Handle(s: Server, ev: Event, repaired: bool, ghost anns: seq<Ann>)
    requires s.Valid() && (repaired ==> s.Complete())
    modifies s, s.stamp.Keys
    ensures s.Valid() && (repaired ==> s.Complete()) && fresh(s.stamp.Keys - old(s.stamp.Keys))
    ensures Changes(repaired, old(s.Mem()), ev, s.Mem())
    ensures s.connInfo.Keys ==
              if ev.Announced? then old(s.connInfo).Keys + {ev.conn} else old(s.connInfo).Keys - {ev.conn}
    ensures old(s.Orphans()) <= s.Orphans()
    ensures if ev.Announced? && ev.conn in old(s.connInfo)
            then old(s.connInfo[ev.conn]) in s.Orphans() && |s.Orphans()| == |old(s.Orphans())| + 1
            else s.Orphans() == old(s.Orphans())
    ensures old(s.Represents(anns)) && Single(anns, ev) && (repaired || KeepsHead(anns, ev)) ==>
              s.Represents(Apply(anns, ev))
    ensures old(s.Represents(anns)) && Single(anns, ev) && !repaired && !KeepsHead(anns, ev) ==>
              s.listed == [] && Apply(anns, ev) != []
  {
    hide SoundAs, Appended, Removed, Chain, Rep, OrphansOf, Drop, Without;
    ghost var m := s.Mem();
    SoundList(m, s.listed);
    match ev {
      case Announced(conn, info) =>
        ghost var e := s.Announce(conn, info);
      case Left(conn) =>
        s.Leave(conn, repaired);
    }
    SoundList(s.Mem(), s.listed);
    ChangeEffect(repaired, m, ev, s.Mem(), anns);
  }

  // ----- Whole runs

  /** The memories between the critical sections of a run. */
  ghost predicate IsHistory(repaired: bool, mems: seq<Memory>, events: seq<Event>) {
    && |mems| == |events| + 1 && mems[0] == EMPTY
    && forall k :: 0 <= k < |events| ==> Changes(repaired, mems[k], events[k], mems[k + 1])
  }

  lemma HistoryMore(repaired: bool, mems: seq<Memory>, events: seq<Event>, ev: Event, m: Memory)
    requires IsHistory(repaired, mems, events) && Changes(repaired, mems[|events|], ev, m)
    ensures IsHistory(repaired, mems + [m], events + [ev])
  {
    hide Changes;
  }

  /** Memory stays sound in every history, repaired or not, and however often connections announce. The
      entries that have lost their handler are as many as the repeated announcements. */
  lemma {:induction false} HistoryKeeps(repaired: bool, mems: seq<Memory>, events: seq<Event>, k: nat)
    requires IsHistory(repaired, mems, events) && k <= |events|
    ensures Sound(mems[k]) && (repaired ==> Complete(mems[k]))
    ensures mems[k].connInfo.Keys == Connected(events[..k]) && |Orphans(mems[k])| == Repeats(events[..k])
  {
    hide Sound, Complete, Orphans, Changes, Connected, Repeats, Represents, Live;
    if k == 0 {
      EmptyIsSound();
      NoEvents(events);
    } else {
      HistoryKeeps(repaired, mems, events, k - 1);
      assert Changes(repaired, mems[k - 1], events[k - 1], mems[k - 1 + 1]);
      ChangeEffect(repaired, mems[k - 1], events[k - 1], mems[k], []);
      OneMoreEvent(events, k - 1);
    }
  }

  /** None of the first `n` events removes the first of several entries. */
  ghost predicate HeadsKept(events: seq<Event>, n: nat) {
    n <= |events| && forall k :: 0 <= k < n ==> KeepsHead(Live(events[..k]), events[k])
  }

  lemma {:induction false} HistoryRepresents(repaired: bool, mems: seq<Memory>, events: seq<Event>, k: nat)
    requires IsHistory(repaired, mems, events) && k <= |events| && Once(events)
    requires repaired || HeadsKept(events, k)
    ensures Represents(mems[k], Live(events[..k]))
  {
    hide Sound, Complete, Orphans, Changes, Represents, Live, Single, KeepsHead;
    if k == 0 {
      EmptyIsSound();
      NoEvents(events);
    } else {
      var n := k - 1;
      HistoryRepresents(repaired, mems, events, n);
      assert Changes(repaired, mems[n], events[n], mems[n + 1]);
      HistoryEffect(repaired, mems, events, n);
      OneMoreEvent(events, n);
    }
  }

  /** Event `n` of a history in which connections announce once. */
  lemma HistoryEffect(repaired: bool, mems: seq<Memory>, events: seq<Event>, n: nat)
    requires IsHistory(repaired, mems, events) && n < |events| && Once(events)
    requires Represents(mems[n], Live(events[..n]))
    ensures var before, kept := Live(events[..n]), repaired || KeepsHead(Live(events[..n]), events[n]);
            && (kept ==> Represents(mems[n + 1], Apply(before, events[n])))
            && (!kept ==> Listed(mems[n + 1]) == [] && Apply(before, events[n]) != [])
  {
    hide Sound, Complete, Orphans, Changes, Represents, Live, Single, KeepsHead, Apply, Connected, Repeats, Listed;
    HistoryKeeps(repaired, mems, events, n);
    FirstAnnouncement(mems[n], Live(events[..n]), events[n]);
    assert Changes(repaired, mems[n], events[n], mems[n + 1]);
    ChangeEffect(repaired, mems[n], events[n], mems[n + 1], Live(events[..n]));
  }

  /** The list shows exactly the announcements `anns`. */
  ghost predicate Shows(m: Memory, anns: seq<Ann>) {
    Infos(Listed(m)) == AnnInfos(anns)
  }

  /** If connections announce once, then with the repair the list is always the live announcements in
      arrival order; as written it always is if and only if no event removes the first of several. */
  lemma HistoryIsLive(repaired: bool, mems: seq<Memory>, events: seq<Event>)
    requires IsHistory(repaired, mems, events) && Once(events)
    ensures (forall k :: 0 <= k <= |events| ==> Shows(mems[k], Live(events[..k])))
       <==> repaired || HeadsKept(events, |events|)
  {
    hide Changes, Once, Represents, Live, KeepsHead, Apply;
    if repaired || HeadsKept(events, |events|) {
      forall k | 0 <= k <= |events| ensures Shows(mems[k], Live(events[..k])) {
        HistoryRepresents(repaired, mems, events, k);
        ListingIs(mems[k], Live(events[..k]));
      }
    } else {
      var n := LostHead(events);
      HistoryRepresents(repaired, mems, events, n);
      HistoryEffect(repaired, mems, events, n);
      OneMoreEvent(events, n);
      var k := n + 1;
      assert |Infos(Listed(mems[k]))| == 0 && !Shows(mems[k], Live(events[..k]));
    }
  }

  /** The first event that removes the first of several entries. */
  lemma LostHead(events: seq<Event>) returns (n: nat)
    requires !HeadsKept(events, |events|)
    ensures n < |events| && HeadsKept(events, n) && !KeepsHead(Live(events[..n]), events[n])
  {
    hide Live, KeepsHead;
    n := 0;
    while KeepsHead(Live(events[..n]), events[n])
      invariant n < |events| && HeadsKept(events, n)
      decreases |events| - n
    {
      n := n + 1;
    }
  }

  /** The first listings, up to the one after `n` events, are the live announcements in arrival order. */
  ghost predicate Faithful(events: seq<Event>, trace: seq<seq<Info>>, n: nat) {
    n <= |events| && n < |trace| && forall k :: 0 <= k <= n ==> trace[k] == AnnInfos(Live(events[..k]))
  }

  /** A whole run, for any order of announcements and departures, with a listing after each event.
      Memory stays sound in every run, repaired or not, and however often connections announce.
      The number of entries that have lost their handler is the number of repeated announcements, so
      there are none if and only if connections announce once. If they do, then with the repair every
      listing is exactly the live announcements in arrival order, and as written that holds for all
      listings if and only if no event removes the first of several entries. */
  method Run(events: seq<Event>, repaired: bool) returns (s: Server, trace: seq<seq<Info>>)
    ensures fresh(s) && s.Valid() && |trace| == |events| + 1
    ensures |s.Orphans()| == Repeats(events) && (s.Owned() <==> Once(events))
    ensures Once(events) ==> (Faithful(events, trace, |events|) <==> repaired || HeadsKept(events, |events|))
  {
    hide SoundAs, Server.Complete, Server.Represents, Server.Owned, Changes, Live, Connected, Repeats, Once, Chain, HeadsKept;
    s := new Server();
    var nodes := s.GetInfo();
    trace := [nodes[..]];
    ghost var mems := [EMPTY];
    EmptyIsSound();
    var n := 0;
    while n < |events|
      invariant 0 <= n <= |events| && |trace| == n + 1
      invariant fresh(s) && fresh(s.stamp.Keys) && s.Valid() && (repaired ==> s.Complete())
      invariant IsHistory(repaired, mems, events[..n]) && mems[n] == s.Mem()
      invariant forall k :: 0 <= k <= n ==> trace[k] == Infos(Listed(mems[k]))
    {
      Handle(s, events[n], repaired, []);
      HistoryMore(repaired, mems, events[..n], events[n], s.Mem());
      assert events[..n + 1] == events[..n] + [events[n]];
      mems := mems + [s.Mem()];
      nodes := s.GetInfo();
      SoundList(s.Mem(), s.listed);
      trace := trace + [nodes[..]];
      n := n + 1;
    }
    assert events[..n] == events;
    HistoryKeeps(repaired, mems, events, n);
    s.NoOrphans();
    NoRepeats(events);
    if Once(events) {
      HistoryIsLive(repaired, mems, events);
      TraceShows(events, trace, mems);
    }
  }

  lemma TraceShows(events: seq<Event>, trace: seq<seq<Info>>, mems: seq<Memory>)
    requires |trace| == |mems| == |events| + 1
    requires forall k :: 0 <= k <= |events| ==> trace[k] == Infos(Listed(mems[k]))
    ensures Faithful(events, trace, |events|)
       <==> forall k :: 0 <= k <= |events| ==> Shows(mems[k], Live(events[..k]))
  {
    hide Live, Listed;
    if Faithful(events, trace, |events|) {
      forall k | 0 <= k <= |events| ensures Shows(mems[k], Live(events[..k])) {
        assert trace[k] == AnnInfos(Live(events[..k]));
      }
    }
  }

  lemma NoEvents(events: seq<Event>)
    ensures events[..0] == [] && Live([]) == [] && Connected([]) == {} && Repeats([]) == 0
  {
  }

  lemma OneMoreEvent(events: seq<Event>, n: nat)
    requires n < |events|
    ensures Live(events[..n + 1]) == Apply(Live(events[..n]), events[n])
    ensures Connected(events[..n + 1]) ==
              if events[n].Announced? then Connected(events[..n]) + {events[n].conn}
              else Connected(events[..n]) - {events[n].conn}
    ensures Repeats(events[..n + 1]) == Repeats(events[..n])
              + if events[n].Announced? && events[n].conn in Connected(events[..n]) then 1 else 0
  {
    assert events[..n + 1][..n] == events[..n];
  }

  lemma FirstAnnouncement(m: Memory, anns: seq<Ann>, ev: Event)
    requires Represents(m, anns) && (ev.Announced? ==> ev.conn !in m.connInfo)
    ensures Single(anns, ev)
  {
    forall a | a in anns ensures a.conn in m.connInfo {
      var i :| 0 <= i < |anns| && anns[i] == a;
    }
  }

  lemma ListingIs(m: Memory, anns: seq<Ann>)
    requires Represents(m, anns)
    ensures Shows(m, anns)
  {
    hide Listed;
  }

  /** Any continuation of any run, as written or repaired: an entry that has lost its handler stays for
      ever, and with the repair it stays in every listing. */
  method Continue(s: Server, events: seq<Event>, repaired: bool)
    requires s.Valid() && (repaired ==> s.Complete())
    modifies s, s.stamp.Keys
    ensures s.Valid() && (repaired ==> s.Complete()) && fresh(s.stamp.Keys - old(s.stamp.Keys))
    ensures old(s.Orphans()) <= s.Orphans() <= s.stamp.Keys
    ensures repaired ==> forall e :: e in old(s.Orphans()) ==> e in s.listed
  {
    hide SoundAs, Server.Represents, Server.Owned, Changes;
    var n := 0;
    while n < |events|
      invariant 0 <= n <= |events| && s.Valid() && (repaired ==> s.Complete())
      invariant fresh(s.stamp.Keys - old(s.stamp.Keys)) && old(s.Orphans()) <= s.Orphans()
    {
      Handle(s, events[n], repaired, []);
      n := n + 1;
    }
  }

  /** The shortest case: a connection announces twice and leaves. Its first entry is still listed, and no
      handler knows it. */
  method AnnouncedTwice(conn: nat, a: Info, b: Info) returns (s: Server, left: seq<Info>)
    ensures fresh(s) && s.Valid() && s.connInfo == map[] && left == [a] && |s.Orphans()| == 1
  {
    hide SoundAs, Server.Complete, Server.Represents, Without, Appended, Removed, Server.Heap;
    s := new Server();
    ghost var x := s.Announce(conn, a);
    ghost var y := s.Announce(conn, b);
    ghost var es := s.listed;
    assert es == [x, y];
    Second(s, x, y);
    s.Leave(conn, false);
    assert s.connInfo == map[];
    assert s.Orphans() == {x};
    var nodes := s.GetInfo();
    left := nodes[..];
  }

  lemma Second(s: Server, x: Entry, y: Entry)
    requires s.Valid() && s.listed == [x, y]
    ensures y.prev == x && Without([x, y], y) == [x]
  {
    assert LinkAt(s.listed, s.Heap(), 1);
    assert x != y by { assert s.listed[0] != s.listed[1]; }
    WithoutAt([x, y], 1);
  }
}
