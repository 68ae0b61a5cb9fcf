/** The registry's mutex as a step system: the handler threads of any number of connections wait for
    `NODES_INFO_MUT`, and inside it they read and assign links one at a time: the walk to the end of the list
    and the appending, the unlinking and freeing, and the two passes of a listing. Steps of all handlers
    interleave freely, on the server's memory as written and as repaired. */
module RegistryLock {
  import opened Bytes
  import opened Registry

  datatype Op = Announce(info: Info) | GetInfo | Leave

  /** Where a handler is between lock and unlock. */
  datatype Pass =
    | Entered
    | Counting(curr: Entry, len: nat)
    | Copying(len: nat, here: Entry?, out: seq<Info>)
    | Seeking(e: Entry, curr: Entry)   // the walk to the end, with the new entry in hand
    | Attached(e: Entry, last: Entry?) // `curr_node->next` has been assigned, if there is one
    | Cut(e: Entry)                    // the successor has been given its new `prev`
    | Bypassed(e: Entry)               // the predecessor its new `next`, or `*first` has been assigned
    | Finished

  /** Handler `h` serves connection `h`. */
  datatype Handler = Outside | Waiting(op: Op) | Inside(op: Op, pass: Pass) | Gone

  /** A listing, the handler that sent it, and the number of changes before it. */
  datatype Sent = Sent(who: nat, infos: seq<Info>, after: nat)

  /** `events`, `mems` and `sent` only record history: the changes, the memories between them, the listings. */
  datatype State = State(handlers: seq<Handler>, owner: Option<nat>, mem: Memory,
                         events: seq<Event>, mems: seq<Memory>, sent: seq<Sent>)

  datatype Action =
    | Want(h: nat, op: Op)
    | Quit(h: nat)
    | Lock(h: nat)
    | StartCount(h: nat)
    | CountOne(h: nat)
    | CopyOne(h: nat)
    | Respond(h: nat)
    | StartAppend(h: nat, e: Entry)
    | SeekOne(h: nat)
    | Attach(h: nat)
    | Store(h: nat)
    | CutNext(h: nat)
    | Bypass(h: nat)
    | Free(h: nat)
    | Unlock(h: nat)

  ghost predicate Init(s: State) {
    && (forall h :: 0 <= h < |s.handlers| ==> s.handlers[h] == Outside)
    && s == State(s.handlers, None, EMPTY, [], [EMPTY], [])
  }

  // ----- The assignments

  function NextAssigned(ls: Links, x: Entry?, to: Entry?): Links {
    if x != null && x in ls then ls[x := ls[x].(next := to)] else ls
  }

  function PrevAssigned(ls: Links, x: Entry?, to: Entry?): Links {
    if x != null && x in ls then ls[x := ls[x].(prev := to)] else ls
  }

  /** `new_node->prev`, `*first` if the list was empty, and the handler's `conn_info`. */
  function Stored(m: Memory, h: nat, e: Entry, last: Entry?): Memory {
    Memory(if last == null then e else m.first, m.links[e := Link(last, null)],
           m.connInfo[h := e], m.stamp[e := m.clock], m.clock + 1, m.owner[e := h])
  }

  function CutFrom(m: Memory, e: Entry): Memory
    requires e in m.links
  {
    m.(links := PrevAssigned(m.links, m.links[e].next, m.links[e].prev))
  }

  function BypassedBy(m: Memory, e: Entry, repaired: bool): Memory
    requires e in m.links
  {
    var link := m.links[e];
    if link.prev != null then m.(links := NextAssigned(m.links, link.prev, link.next))
    else m.(first := if repaired then link.next else null)
  }

  /** `free`, and the handler is done with its `conn_info`. */
  function Freed(m: Memory, h: nat, e: Entry): Memory {
    m.(links := m.links - {e}, connInfo := m.connInfo - {h}, stamp := m.stamp - {e}, owner := m.owner - {e})
  }

  // ----- The steps

  function Move(s: State, h: nat, to: Handler): State
    requires h < |s.handlers|
  {
    s.(handlers := s.handlers[h := to])
  }

  function At(s: State, h: nat, to: Pass): State
    requires h < |s.handlers| && s.handlers[h].Inside?
  {
    Move(s, h, Inside(s.handlers[h].op, to))
  }

  /** A change is complete. */
  function Done(s: State, h: nat, ev: Event, m: Memory): State
    requires h < |s.handlers| && s.handlers[h].Inside?
  {
    At(s, h, Finished).(mem := m, events := s.events + [ev], mems := s.mems + [m])
  }

  /** A link is followed or assigned only in an entry that has not been freed. */
  ghost predicate Next(repaired: bool, s: State, a: Action, s': State) {
    && a.h < |s.handlers|
    && var hd := s.handlers[a.h];
       match a
       case Want(h, op) =>
         hd.Outside? && (op.Leave? ==> h in s.mem.connInfo) && s' == Move(s, h, Waiting(op))
       case Quit(h) => hd.Outside? && h !in s.mem.connInfo && s' == Move(s, h, Gone)
       case Lock(h) =>
         hd.Waiting? && s.owner == None && s' == Move(s, h, Inside(hd.op, Entered)).(owner := Some(h))
       case Unlock(h) =>
         hd.Inside? && hd.pass.Finished? && s' == Move(s, h, if hd.op.Leave? then Gone else Outside).(owner := None)
       case _ => hd.Inside? && Works(repaired, s, a, hd, s')
  }

  /** The steps inside the critical section. */
  ghost predicate Works(repaired: bool, s: State, a: Action, hd: Handler, s': State)
    requires a.h < |s.handlers| && s.handlers[a.h] == hd && hd.Inside?
  {
    var m, pass := s.mem, hd.pass;
    match a
    case StartCount(h) =>
      && pass.Entered? && hd.op.GetInfo?
      && s' == At(s, h, if m.first == null then Copying(0, null, []) else Counting(m.first, 1))
    case CountOne(h) =>
      && pass.Counting? && pass.curr in m.links
      && var next := m.links[pass.curr].next;
         s' == At(s, h, if next != null then Counting(next, pass.len + 1) else Copying(pass.len, m.first, []))
    case CopyOne(h) =>
      && pass.Copying? && |pass.out| < pass.len && pass.here != null && pass.here in m.links
      && s' == At(s, h, Copying(pass.len, m.links[pass.here].next, pass.out + [pass.here.info]))
    case Respond(h) =>
      && pass.Copying? && |pass.out| == pass.len
      && s' == At(s, h, Finished).(sent := s.sent + [Sent(h, pass.out, |s.events|)])
    case StartAppend(h, e) =>
      && pass.Entered? && hd.op.Announce? && e !in m.links && e.info == hd.op.info
      && s' == At(s, h, if m.first == null then Attached(e, null) else Seeking(e, m.first))
    case SeekOne(h) =>
      && pass.Seeking? && pass.curr in m.links && m.links[pass.curr].next != null
      && s' == At(s, h, Seeking(pass.e, m.links[pass.curr].next))
    case Attach(h) =>
      && pass.Seeking? && pass.curr in m.links && m.links[pass.curr].next == null
      && s' == At(s, h, Attached(pass.e, pass.curr)).(mem := m.(links := NextAssigned(m.links, pass.curr, pass.e)))
    case Store(h) =>
      && pass.Attached? && hd.op.Announce?
      && s' == Done(s, h, Announced(h, hd.op.info), Stored(m, h, pass.e, pass.last))
    case CutNext(h) =>
      && pass.Entered? && hd.op.Leave? && h in m.connInfo && m.connInfo[h] in m.links
      && s' == At(s, h, Cut(m.connInfo[h])).(mem := CutFrom(m, m.connInfo[h]))
    case Bypass(h) =>
      && pass.Cut? && pass.e in m.links
      && s' == At(s, h, Bypassed(pass.e)).(mem := BypassedBy(m, pass.e, repaired))
    case Free(h) =>
      && pass.Bypassed? && pass.e in m.links
      && s' == Done(s, h, Left(h), Freed(m, h, pass.e))
    case _ => false
  }

  // ----- What the assignments amount to

  lemma StoredIsAppended(m: Memory, h: nat, e: Entry)
    requires Sound(m) && e !in m.links
    ensures var last := LastOf(Listed(m));
            Stored(m.(links := NextAssigned(m.links, last, e)), h, e, last) == Appended(m, h, e)
  {
    hide Chains, Linked, Distinct, Chain;
  }

  lemma FreedIsRemoved(m: Memory, h: nat, repaired: bool)
    requires Sound(m) && h in m.connInfo
    ensures var e := m.connInfo[h];
            && e in m.links && e in CutFrom(m, e).links && e in BypassedBy(CutFrom(m, e), e, repaired).links
            && Freed(BypassedBy(CutFrom(m, e), e, repaired), h, e) == Removed(m, h, repaired)
  {
    hide Linked, Distinct, Chains, Chain, NextAssigned, PrevAssigned, Unlinked;
    var e := m.connInfo[h];
    assert e in m.links by { SameKeys(m, Listed(m)); }
    ClosedLinks(m.links, m.stamp, m.clock, e);
  }

  /** The two assignments close the gap. */
  lemma ClosedLinks(ls: Links, stamp: map<Entry, nat>, clock: nat, e: Entry)
    requires Chains(ls, stamp, clock) && e in ls
    ensures var cut := PrevAssigned(ls, ls[e].next, ls[e].prev);
            && e in cut && cut[e] == ls[e]
            && (ls[e].prev == null ==> cut - {e} == Unlinked(ls, e))
            && e in NextAssigned(cut, ls[e].prev, ls[e].next)
            && NextAssigned(cut, ls[e].prev, ls[e].next) - {e} == Unlinked(ls, e)
  {
    var cut := PrevAssigned(ls, ls[e].next, ls[e].prev);
    var closed := NextAssigned(cut, ls[e].prev, ls[e].next) - {e};
    assert closed.Keys == Unlinked(ls, e).Keys;
  }

  /** Where `next` leads along the list. */
  lemma NextInList(m: Memory, k: nat)
    requires Sound(m) && k < |Listed(m)|
    ensures Listed(m)[k] in m.links
    ensures m.links[Listed(m)[k]].next == if k + 1 < |Listed(m)| then Listed(m)[k + 1] else null
  {
    assert LinkAt(Listed(m), m.links, k);
  }

  // ----- The invariant

  /** The memory after the last change. */
  function Base(s: State): Memory
    requires |s.mems| == |s.events| + 1
  {
    s.mems[|s.events|]
  }

  /** How far a handler has got, and what it has done to the memory `base` that it found. */
  ghost predicate PassOk(repaired: bool, h: nat, op: Op, pass: Pass, base: Memory, m: Memory) {
    var es := Listed(base);
    match pass
    case Entered => m == base
    case Finished => m == base
    case Counting(curr, len) => op.GetInfo? && m == base && 0 < len <= |es| && curr == es[len - 1]
    case Copying(len, here, out) =>
      && op.GetInfo? && m == base && len == |es| && |out| <= len && out == Infos(es[..|out|]) && here == FirstOf(es[|out|..])
    case Seeking(e, curr) => m == base && NewEntry(op, e, base) && curr in es
    case Attached(e, last) =>
      NewEntry(op, e, base) && last == LastOf(es) && m == base.(links := NextAssigned(base.links, last, e))
    case Cut(e) => OwnEntry(op, h, e, base) && m == CutFrom(base, e)
    case Bypassed(e) =>
      OwnEntry(op, h, e, base) && e in CutFrom(base, e).links && m == BypassedBy(CutFrom(base, e), e, repaired)
  }

  ghost predicate NewEntry(op: Op, e: Entry, base: Memory) {
    op.Announce? && e !in base.links && e.info == op.info
  }

  ghost predicate OwnEntry(op: Op, h: nat, e: Entry, base: Memory) {
    op.Leave? && h in base.connInfo && base.connInfo[h] == e && e in base.links
  }

  ghost predicate Leaving(hd: Handler) {
    (hd.Waiting? && hd.op.Leave?) || (hd.Inside? && hd.op.Leave? && !hd.pass.Finished?)
  }

  /** A handler that has left, or is about to release the mutex for the last time. */
  ghost predicate Departed(hd: Handler) {
    hd.Gone? || (hd.Inside? && hd.op.Leave? && hd.pass.Finished?)
  }

  /** Mutual exclusion: only the owner is inside, and without an owner nothing is half done. */
  ghost predicate Exclusive(repaired: bool, s: State)
    requires |s.mems| == |s.events| + 1
  {
    && (forall h :: 0 <= h < |s.handlers| && s.handlers[h].Inside? ==>
          s.owner == Some(h) && PassOk(repaired, h, s.handlers[h].op, s.handlers[h].pass, Base(s), s.mem))
    && (if s.owner.Some? then s.owner.value < |s.handlers| && s.handlers[s.owner.value].Inside? else s.mem == Base(s))
  }

  /** Every listing is the whole list after the changes before it. */
  ghost predicate Listings(s: State) {
    forall x :: x in s.sent ==> x.after < |s.mems| && x.infos == Infos(Listed(s.mems[x.after]))
  }

  ghost predicate Inv(repaired: bool, s: State) {
    && |s.mems| == |s.events| + 1 && IsHistory(repaired, s.mems, s.events)
    && Exclusive(repaired, s) && Listings(s)
    && (forall h :: 0 <= h < |s.handlers| && Leaving(s.handlers[h]) ==> h in s.mem.connInfo)
    && (forall h :: 0 <= h < |s.handlers| && Departed(s.handlers[h]) ==> h !in s.mem.connInfo)
  }

  lemma InitInv(repaired: bool, s: State)
    requires Init(s)
    ensures Inv(repaired, s)
  {
  }

  lemma SoundBase(repaired: bool, s: State)
    requires IsHistory(repaired, s.mems, s.events)
    ensures Sound(Base(s))
  {
    hide Changes;
    HistoryKeeps(repaired, s.mems, s.events, |s.events|);
  }

  /** The owner goes on without completing a change. */
  lemma OwnerKeeps(repaired: bool, s: State, h: nat, pass: Pass, m: Memory, sent: seq<Sent>)
    requires Inv(repaired, s) && h < |s.handlers| && s.handlers[h].Inside?
    requires PassOk(repaired, h, s.handlers[h].op, pass, Base(s), m) && m.connInfo == s.mem.connInfo
    requires !s.handlers[h].pass.Finished? && (s.handlers[h].op.Leave? ==> !pass.Finished?)
    requires forall x :: x in sent ==> x in s.sent || x == Sent(h, Infos(Listed(Base(s))), |s.events|)
    ensures Inv(repaired, At(s, h, pass).(mem := m, sent := sent))
  {
    hide PassOk, IsHistory, Listed;
    var s' := At(s, h, pass).(mem := m, sent := sent);
  }

  /** The owner completes a change. */
  lemma DoneKeeps(repaired: bool, s: State, h: nat, ev: Event, m: Memory)
    requires Inv(repaired, s) && h < |s.handlers| && s.handlers[h].Inside?
    requires Changes(repaired, Base(s), ev, m)
    requires forall g :: g != h ==> (g in m.connInfo <==> g in s.mem.connInfo)
    requires s.handlers[h].op.Leave? ==> h !in m.connInfo
    ensures Inv(repaired, Done(s, h, ev, m))
  {
    hide Changes, Listed, IsHistory;
    HistoryMore(repaired, s.mems, s.events, ev, m);
  }

  lemma WalkKeeps(repaired: bool, s: State, a: Action, s': State)
    requires Inv(repaired, s) && Next(repaired, s, a, s')
    requires a.StartCount? || a.CountOne? || a.CopyOne? || a.Respond?
    ensures Inv(repaired, s')
  {
    hide IsHistory, Chain, Chains, Linked, Distinct, Changes;
    SoundBase(repaired, s);
    var hd, es := s.handlers[a.h], Listed(Base(s));
    match a
    case StartCount(h) => OwnerKeeps(repaired, s, h, s'.handlers[h].pass, s.mem, s.sent);
    case CountOne(h) =>
      NextInList(Base(s), hd.pass.len - 1);
      OwnerKeeps(repaired, s, h, s'.handlers[h].pass, s.mem, s.sent);
    case CopyOne(h) =>
      NextInList(Base(s), |hd.pass.out|);
      OwnerKeeps(repaired, s, h, s'.handlers[h].pass, s.mem, s.sent);
    case Respond(h) =>
      assert es[..|es|] == es;
      OwnerKeeps(repaired, s, h, Finished, s.mem, s'.sent);
  }

  lemma AppendKeeps(repaired: bool, s: State, a: Action, s': State)
    requires Inv(repaired, s) && Next(repaired, s, a, s')
    requires a.StartAppend? || a.SeekOne? || a.Attach? || a.Store?
    ensures Inv(repaired, s')
  {
    hide IsHistory, Chain, Chains, Linked, Distinct, Joined;
    SoundBase(repaired, s);
    var hd, es := s.handlers[a.h], Listed(Base(s));
    match a
    case StartAppend(h, e) => OwnerKeeps(repaired, s, h, s'.handlers[h].pass, s.mem, s.sent);
    case SeekOne(h) =>
      var k: nat :| k < |es| && es[k] == hd.pass.curr;
      NextInList(Base(s), k);
      OwnerKeeps(repaired, s, h, s'.handlers[h].pass, s.mem, s.sent);
    case Attach(h) =>
      var k: nat :| k < |es| && es[k] == hd.pass.curr;
      NextInList(Base(s), k);
      OwnerKeeps(repaired, s, h, s'.handlers[h].pass, s'.mem, s.sent);
    case Store(h) =>
      StoredIsAppended(Base(s), h, hd.pass.e);
      DoneKeeps(repaired, s, h, Announced(h, hd.op.info), s'.mem);
  }

  lemma RemoveKeeps(repaired: bool, s: State, a: Action, s': State)
    requires Inv(repaired, s) && Next(repaired, s, a, s')
    requires a.CutNext? || a.Bypass? || a.Free?
    ensures Inv(repaired, s')
  {
    hide IsHistory, Chain, SoundAs, Listed, Removed, NextAssigned, PrevAssigned;
    SoundBase(repaired, s);
    var hd := s.handlers[a.h];
    match a
    case CutNext(h) => OwnerKeeps(repaired, s, h, s'.handlers[h].pass, s'.mem, s.sent);
    case Bypass(h) => OwnerKeeps(repaired, s, h, s'.handlers[h].pass, s'.mem, s.sent);
    case Free(h) =>
      FreedIsRemoved(Base(s), h, repaired);
      DoneKeeps(repaired, s, h, Left(h), s'.mem);
  }

  lemma LockKeeps(repaired: bool, s: State, a: Action, s': State)
    requires Inv(repaired, s) && Next(repaired, s, a, s')
    requires a.Want? || a.Quit? || a.Lock? || a.Unlock?
    ensures Inv(repaired, s')
  {
    hide IsHistory, Listed, SoundAs;
  }

  lemma NextKeeps(repaired: bool, s: State, a: Action, s': State)
    requires Inv(repaired, s) && Next(repaired, s, a, s')
    ensures Inv(repaired, s')
  {
    hide Inv, Next;
    match a
    case StartCount(_) => WalkKeeps(repaired, s, a, s');
    case CountOne(_) => WalkKeeps(repaired, s, a, s');
    case CopyOne(_) => WalkKeeps(repaired, s, a, s');
    case Respond(_) => WalkKeeps(repaired, s, a, s');
    case StartAppend(_, _) => AppendKeeps(repaired, s, a, s');
    case SeekOne(_) => AppendKeeps(repaired, s, a, s');
    case Attach(_) => AppendKeeps(repaired, s, a, s');
    case Store(_) => AppendKeeps(repaired, s, a, s');
    case CutNext(_) => RemoveKeeps(repaired, s, a, s');
    case Bypass(_) => RemoveKeeps(repaired, s, a, s');
    case Free(_) => RemoveKeeps(repaired, s, a, s');
    case _ => LockKeeps(repaired, s, a, s');
  }

  // ----- Every interleaving

  ghost predicate IsRun(repaired: bool, states: seq<State>, acts: seq<Action>) {
    && |states| == |acts| + 1 && Init(states[0])
    && forall i :: 0 <= i < |acts| ==> Next(repaired, states[i], acts[i], states[i + 1])
  }

  lemma {:induction false} RunKeepsInv(repaired: bool, states: seq<State>, acts: seq<Action>, i: nat)
    requires IsRun(repaired, states, acts) && i < |states|
    ensures Inv(repaired, states[i])
  {
    hide Inv, Init, Next;
    if i == 0 {
      InitInv(repaired, states[0]);
    } else {
      RunKeepsInv(repaired, states, acts, i - 1);
      NextKeeps(repaired, states[i - 1], acts[i - 1], states[i]);
    }
  }

  /** Wherever the handler next follows or assigns a link, it finds an entry that has not been freed. */
  ghost predicate Ready(h: nat, op: Op, pass: Pass, m: Memory) {
    match pass
    case Entered => op.Leave? ==> h in m.connInfo && m.connInfo[h] in m.links
    case Counting(curr, _) => curr in m.links
    case Copying(len, here, out) => |out| <= len && (|out| < len ==> here != null && here in m.links)
    case Seeking(_, curr) => curr in m.links
    case Attached(_, _) => op.Announce?
    case Cut(e) => e in m.links
    case Bypassed(e) => e in m.links
    case Finished => true
  }

  lemma InsideIsReady(repaired: bool, s: State, h: nat)
    requires Inv(repaired, s) && h < |s.handlers| && s.handlers[h].Inside?
    ensures Ready(h, s.handlers[h].op, s.handlers[h].pass, s.mem)
  {
    hide IsHistory, Chain, SoundAs, Changes;
    SoundBase(repaired, s);
    var hd, es := s.handlers[h], Listed(Base(s));
    match hd.pass
    case Entered =>
      if hd.op.Leave? {
        assert Leaving(hd);
        FreedIsRemoved(Base(s), h, repaired);
      }
    case Counting(_, len) => NextInList(Base(s), len - 1);
    case Copying(len, _, out) =>
      if |out| < len {
        NextInList(Base(s), |out|);
      }
    case Seeking(_, curr) =>
      var k: nat :| k < |es| && es[k] == curr;
      NextInList(Base(s), k);
    case Bypassed(_) => FreedIsRemoved(Base(s), h, repaired);
    case _ =>
  }

  /** In every state of every interleaving, for the code as written and repaired: the memory is what the
      critical sections make of it one at a time, in the order of their completion, unless one is under way;
      and every listing ever sent is the whole chain from `NODES_INFO`, in order, after exactly the changes
      before it, whatever announcements and departures were waiting meanwhile. No handler comes across an
      entry that has been freed. */
  lemma ListingsAreAtomic(repaired: bool, states: seq<State>, acts: seq<Action>, i: nat)
    requires IsRun(repaired, states, acts) && i < |states|
    ensures var s := states[i];
            && IsHistory(repaired, s.mems, s.events) && (s.owner.None? ==> s.mem == s.mems[|s.events|])
            && (forall x :: x in s.sent ==> x.after < |s.mems| && x.infos == Infos(Listed(s.mems[x.after])))
            && (forall h :: 0 <= h < |s.handlers| && s.handlers[h].Inside? ==>
                  Ready(h, s.handlers[h].op, s.handlers[h].pass, s.mem))
            && (forall h, g :: 0 <= h < g < |s.handlers| ==> !(s.handlers[h].Inside? && s.handlers[g].Inside?))
            && (forall h :: 0 <= h < |s.handlers| && s.handlers[h].Gone? ==> h !in s.mem.connInfo)
  {
    hide IsHistory, IsRun, PassOk, Listed, Changes;
    RunKeepsInv(repaired, states, acts, i);
    var s := states[i];
    forall h | 0 <= h < |s.handlers| && s.handlers[h].Inside?
      ensures Ready(h, s.handlers[h].op, s.handlers[h].pass, s.mem)
    {
      InsideIsReady(repaired, s, h);
    }
  }

  /** If connections announce once, then with the repair the listings of every interleaving are the live
      announcements in arrival order; as written they are as long as no first of several entries has left,
      and the list itself is at all times if and only if none has. */
  lemma ListingsAreLive(repaired: bool, states: seq<State>, acts: seq<Action>, i: nat)
    requires IsRun(repaired, states, acts) && i < |states| && Once(states[i].events)
    ensures var s := states[i];
            && |s.mems| == |s.events| + 1
            && (forall x :: x in s.sent && (repaired || HeadsKept(s.events, x.after)) ==>
                  x.after <= |s.events| && x.infos == AnnInfos(Live(s.events[..x.after])))
            && ((forall k :: 0 <= k <= |s.events| ==> Shows(s.mems[k], Live(s.events[..k])))
                <==> repaired || HeadsKept(s.events, |s.events|))
  {
    hide IsRun, Listed, Changes, Once, Live, HeadsKept, Represents;
    ListingsAreAtomic(repaired, states, acts, i);
    var s := states[i];
    HistoryIsLive(repaired, s.mems, s.events);
    forall x | x in s.sent && (repaired || HeadsKept(s.events, x.after))
      ensures x.after <= |s.events| && x.infos == AnnInfos(Live(s.events[..x.after]))
    {
      HistoryRepresents(repaired, s.mems, s.events, x.after);
      ListingIs(s.mems[x.after], Live(s.events[..x.after]));
    }
  }

  lemma WalkMoves(repaired: bool, s: State, h: nat) returns (a: Action, s': State)
    requires h < |s.handlers| && s.handlers[h].Inside? && Ready(h, s.handlers[h].op, s.handlers[h].pass, s.mem)
    requires s.handlers[h].pass.Counting? || s.handlers[h].pass.Copying?
    ensures a.h == h && Next(repaired, s, a, s')
  {
    var m := s.mem;
    match s.handlers[h].pass
    case Counting(curr, len) =>
      var next := m.links[curr].next;
      a, s' := CountOne(h), At(s, h, if next != null then Counting(next, len + 1) else Copying(len, m.first, []));
    case Copying(len, here, out) =>
      if |out| == len {
        a, s' := Respond(h), At(s, h, Finished).(sent := s.sent + [Sent(h, out, |s.events|)]);
      } else {
        a, s' := CopyOne(h), At(s, h, Copying(len, m.links[here].next, out + [here.info]));
      }
  }

  lemma AppendMoves(repaired: bool, s: State, h: nat) returns (a: Action, s': State)
    requires h < |s.handlers| && s.handlers[h].Inside? && Ready(h, s.handlers[h].op, s.handlers[h].pass, s.mem)
    requires s.handlers[h].pass.Seeking? || s.handlers[h].pass.Attached?
    ensures a.h == h && Next(repaired, s, a, s')
  {
    hide Stored, NextAssigned;
    var m := s.mem;
    match s.handlers[h].pass
    case Seeking(e, curr) =>
      if m.links[curr].next != null {
        a, s' := SeekOne(h), At(s, h, Seeking(e, m.links[curr].next));
      } else {
        a, s' := Attach(h), At(s, h, Attached(e, curr)).(mem := m.(links := NextAssigned(m.links, curr, e)));
      }
    case Attached(e, last) =>
      a, s' := Store(h), Done(s, h, Announced(h, s.handlers[h].op.info), Stored(m, h, e, last));
  }

  lemma RemoveMoves(repaired: bool, s: State, h: nat) returns (a: Action, s': State)
    requires h < |s.handlers| && s.handlers[h].Inside? && Ready(h, s.handlers[h].op, s.handlers[h].pass, s.mem)
    requires s.handlers[h].pass.Cut? || s.handlers[h].pass.Bypassed?
    ensures a.h == h && Next(repaired, s, a, s')
  {
    hide BypassedBy, Freed;
    match s.handlers[h].pass
    case Cut(e) => a, s' := Bypass(h), At(s, h, Bypassed(e)).(mem := BypassedBy(s.mem, e, repaired));
    case Bypassed(e) => a, s' := Free(h), Done(s, h, Left(h), Freed(s.mem, h, e));
  }

  lemma EnteredMoves(repaired: bool, s: State, h: nat, e: Entry) returns (a: Action, s': State)
    requires h < |s.handlers| && s.handlers[h].Inside? && Ready(h, s.handlers[h].op, s.handlers[h].pass, s.mem)
    requires s.handlers[h].op.Announce? ==> e !in s.mem.links && e.info == s.handlers[h].op.info
    requires s.handlers[h].pass.Entered? || s.handlers[h].pass.Finished?
    ensures a.h == h && Next(repaired, s, a, s')
  {
    hide CutFrom;
    var hd, m := s.handlers[h], s.mem;
    if hd.pass.Finished? {
      a, s' := Unlock(h), Move(s, h, if hd.op.Leave? then Gone else Outside).(owner := None);
    } else if hd.op.GetInfo? {
      a, s' := StartCount(h), At(s, h, if m.first == null then Copying(0, null, []) else Counting(m.first, 1));
    } else if hd.op.Announce? {
      a, s' := StartAppend(h, e), At(s, h, if m.first == null then Attached(e, null) else Seeking(e, m.first));
    } else {
      a, s' := CutNext(h), At(s, h, Cut(m.connInfo[h])).(mem := CutFrom(m, m.connInfo[h]));
    }
  }

  /** So a handler inside is never stuck. An announcement takes a new entry for its info. */
  lemma InsideMoves(repaired: bool, s: State, h: nat, e: Entry) returns (a: Action, s': State)
    requires Inv(repaired, s) && h < |s.handlers| && s.handlers[h].Inside?
    requires s.handlers[h].op.Announce? ==> e !in s.mem.links && e.info == s.handlers[h].op.info
    ensures a.h == h && Next(repaired, s, a, s')
  {
    hide Inv, Next, Ready;
    InsideIsReady(repaired, s, h);
    match s.handlers[h].pass
    case Counting(_, _) => a, s' := WalkMoves(repaired, s, h);
    case Copying(_, _, _) => a, s' := WalkMoves(repaired, s, h);
    case Seeking(_, _) => a, s' := AppendMoves(repaired, s, h);
    case Attached(_, _) => a, s' := AppendMoves(repaired, s, h);
    case Cut(_) => a, s' := RemoveMoves(repaired, s, h);
    case Bypassed(_) => a, s' := RemoveMoves(repaired, s, h);
    case _ => a, s' := EnteredMoves(repaired, s, h, e);
  }
}
