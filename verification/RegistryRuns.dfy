/** What the critical sections of the registry achieve over whole runs: which step records what, that every
    request for the mutex takes effect exactly once, and that every section ends. */
module RegistryRuns {
  import opened Bytes
  import opened Registry
  import opened RegistryLock

  // ----- What each step records

  /** A listing is sent by `Respond` alone and is the chain at that moment; the changes are recorded by the
      last assignment of an announcement and by `free`, together with the memory that they leave. */
  ghost predicate Records(s: State, a: Action, s': State) {
    && a.h < |s.handlers|
    && var hd := s.handlers[a.h];
       && s'.sent == s.sent + (if a.Respond? then [Sent(a.h, Infos(Listed(s.mem)), |s.events|)] else [])
       && (a.Respond? ==> hd.Inside? && hd.op == GetInfo)
       && (if a.Store? then hd.Inside? && hd.op.Announce? && s'.events == s.events + [Announced(a.h, hd.op.info)]
           else s'.events == s.events + (if a.Free? then [Left(a.h)] else []))
       && (a.Free? ==> hd.Inside? && hd.op == Leave)
       && s'.mems == s.mems + (if a.Store? || a.Free? then [s'.mem] else [])
  }

  lemma WalkRecords(repaired: bool, s: State, a: Action, s': State)
    requires Inv(repaired, s) && Next(repaired, s, a, s')
    requires a.StartCount? || a.CountOne? || a.CopyOne? || a.Respond?
    ensures Records(s, a, s')
  {
    hide IsHistory, Listed, SoundAs;
    var es := Listed(Base(s));
    assert es[..|es|] == es;
  }

  lemma ChangeRecords(repaired: bool, s: State, a: Action, s': State)
    requires Inv(repaired, s) && Next(repaired, s, a, s')
    requires !(a.StartCount? || a.CountOne? || a.CopyOne? || a.Respond?)
    ensures Records(s, a, s')
  {
    hide IsHistory, Listed, SoundAs, Stored, Freed, CutFrom, BypassedBy, NextAssigned;
  }

  lemma StepRecords(repaired: bool, s: State, a: Action, s': State)
    requires Inv(repaired, s) && Next(repaired, s, a, s')
    ensures Records(s, a, s')
  {
    hide Inv, Next, Records;
    match a
    case StartCount(_) => WalkRecords(repaired, s, a, s');
    case CountOne(_) => WalkRecords(repaired, s, a, s');
    case CopyOne(_) => WalkRecords(repaired, s, a, s');
    case Respond(_) => WalkRecords(repaired, s, a, s');
    case _ => ChangeRecords(repaired, s, a, s');
  }

  lemma RunRecords(repaired: bool, states: seq<State>, acts: seq<Action>, i: nat)
    requires IsRun(repaired, states, acts) && i < |acts|
    ensures Records(states[i], acts[i], states[i + 1])
  {
    hide Inv, Records, Init, Next;
    RunKeepsInv(repaired, states, acts, i);
    StepRecords(repaired, states[i], acts[i], states[i + 1]);
  }

  // ----- Every request takes effect once

  function EventsBy(events: seq<Event>, h: nat): seq<Event> {
    if events == [] then []
    else
      var k := |events| - 1;
      EventsBy(events[..k], h) + if events[k].conn == h then [events[k]] else []
  }

  function SentBy(sent: seq<Sent>, h: nat): nat {
    if sent == [] then 0
    else
      var k := |sent| - 1;
      SentBy(sent[..k], h) + if sent[k].who == h then 1 else 0
  }

  /** What a section for `op` adds to the changes. */
  function Effect(h: nat, op: Op): seq<Event> {
    match op
    case Announce(info) => [Announced(h, info)]
    case Leave => [Left(h)]
    case GetInfo => []
  }

  function Asks(a: Action, h: nat): seq<Event> {
    if a.Want? && a.h == h then Effect(h, a.op) else []
  }

  function AsksListing(a: Action, h: nat): nat {
    if a == Want(h, GetInfo) then 1 else 0
  }

  function Asked(acts: seq<Action>, h: nat): seq<Event> {
    if acts == [] then [] else Asked(acts[..|acts| - 1], h) + Asks(acts[|acts| - 1], h)
  }

  function AskedListings(acts: seq<Action>, h: nat): nat {
    if acts == [] then 0 else AskedListings(acts[..|acts| - 1], h) + AsksListing(acts[|acts| - 1], h)
  }

  /** A request that has not taken effect. */
  predicate Pending(hd: Handler) {
    hd.Waiting? || (hd.Inside? && !hd.pass.Finished?)
  }

  function Owed(h: nat, hd: Handler): seq<Event> {
    if Pending(hd) then Effect(h, hd.op) else []
  }

  function OwedListing(hd: Handler): nat {
    if Pending(hd) && hd.op.GetInfo? then 1 else 0
  }

  /** A section that has taken effect and not released the mutex. */
  function Held(hd: Handler, listing: bool): nat {
    if hd.Inside? && hd.pass.Finished? && hd.op.GetInfo? == listing then 1 else 0
  }

  function Releases(s: State, a: Action, h: nat, listing: bool): nat {
    if a == Unlock(h) && h < |s.handlers| && s.handlers[h].Inside? && s.handlers[h].op.GetInfo? == listing then 1 else 0
  }

  /** The listings, or the changes, that `h` has completed in the first `i` steps. */
  function Completed(states: seq<State>, acts: seq<Action>, h: nat, listing: bool, i: nat): nat
    requires i <= |acts| && i <= |states|
  {
    if i == 0 then 0
    else Completed(states, acts, h, listing, i - 1) + Releases(states[i - 1], acts[i - 1], h, listing)
  }

  /** The handler's own part of a step. */
  lemma StepOfHandler(repaired: bool, s: State, a: Action, s': State, h: nat)
    requires Next(repaired, s, a, s') && h < |s.handlers|
    ensures |s'.handlers| == |s.handlers| && (a.h != h ==> s'.handlers[h] == s.handlers[h])
    ensures var hd, hd' := s.handlers[h], s'.handlers[h];
            a.h == h ==>
              && (a.Want? ==> hd.Outside? && hd' == Waiting(a.op))
              && (a.Unlock? ==> hd.Inside? && hd.pass.Finished? && !hd'.Inside? && !hd'.Waiting?)
              && (a.Respond? || a.Store? || a.Free? ==>
                    hd.Inside? && !hd.pass.Finished? && hd' == Inside(hd.op, Finished))
              && (!(a.Want? || a.Unlock? || a.Respond? || a.Store? || a.Free?) ==>
                    (if Pending(hd) then Pending(hd') && hd'.op == hd.op else !Pending(hd') && !hd'.Inside? && !hd.Inside?))
  {
    hide Stored, Freed, CutFrom, BypassedBy, NextAssigned;
  }

  lemma StepChanges(repaired: bool, s: State, a: Action, s': State, h: nat)
    requires Inv(repaired, s) && Next(repaired, s, a, s') && h < |s.handlers|
    ensures |s'.handlers| == |s.handlers|
    ensures EventsBy(s'.events, h) + Owed(h, s'.handlers[h])
         == EventsBy(s.events, h) + Owed(h, s.handlers[h]) + Asks(a, h)
    ensures |EventsBy(s'.events, h)| - Held(s'.handlers[h], false)
         == |EventsBy(s.events, h)| - Held(s.handlers[h], false) + Releases(s, a, h, false)
  {
    hide Inv, Next, Listed, Infos;
    StepRecords(repaired, s, a, s');
    StepOfHandler(repaired, s, a, s', h);
    if a.Store? || a.Free? {
      assert s'.events[..|s'.events| - 1] == s.events;
    } else {
      assert s'.events == s.events;
    }
  }

  lemma StepListings(repaired: bool, s: State, a: Action, s': State, h: nat)
    requires Inv(repaired, s) && Next(repaired, s, a, s') && h < |s.handlers|
    ensures |s'.handlers| == |s.handlers|
    ensures SentBy(s'.sent, h) + OwedListing(s'.handlers[h])
         == SentBy(s.sent, h) + OwedListing(s.handlers[h]) + AsksListing(a, h)
    ensures SentBy(s'.sent, h) - Held(s'.handlers[h], true)
         == SentBy(s.sent, h) - Held(s.handlers[h], true) + Releases(s, a, h, true)
  {
    hide Inv, Next, Listed, Infos;
    StepRecords(repaired, s, a, s');
    StepOfHandler(repaired, s, a, s', h);
    if a.Respond? {
      assert s'.sent[..|s'.sent| - 1] == s.sent;
    } else {
      assert s'.sent == s.sent;
    }
  }

  /** In every state of every interleaving and for every connection: the changes that its handler has made are
      exactly those that it asked for, in its order and with its infos, up to the request that is still
      pending; it has sent exactly one listing for every listing asked for, and exactly one change or one
      listing for every section that it has left, counting the one that it is about to leave. */
  lemma {:induction false} SectionsTakeEffect(repaired: bool, states: seq<State>, acts: seq<Action>, i: nat, h: nat)
    requires IsRun(repaired, states, acts) && i < |states| && h < |states[0].handlers|
    ensures var s := states[i];
            && |s.handlers| == |states[0].handlers|
            && EventsBy(s.events, h) + Owed(h, s.handlers[h]) == Asked(acts[..i], h)
            && SentBy(s.sent, h) + OwedListing(s.handlers[h]) == AskedListings(acts[..i], h)
            && SentBy(s.sent, h) == Completed(states, acts, h, true, i) + Held(s.handlers[h], true)
            && |EventsBy(s.events, h)| == Completed(states, acts, h, false, i) + Held(s.handlers[h], false)
  {
    hide Inv, Next, Asks, AsksListing, Owed, OwedListing, Held, Releases;
    if i == 0 {
      FirstOwes(states[0], h);
    } else {
      SectionsTakeEffect(repaired, states, acts, i - 1, h);
      RunKeepsInv(repaired, states, acts, i - 1);
      StepChanges(repaired, states[i - 1], acts[i - 1], states[i], h);
      StepListings(repaired, states[i - 1], acts[i - 1], states[i], h);
      assert acts[..i][..i - 1] == acts[..i - 1];
    }
  }

  lemma FirstOwes(s: State, h: nat)
    requires Init(s) && h < |s.handlers|
    ensures Owed(h, s.handlers[h]) == [] && OwedListing(s.handlers[h]) == 0
    ensures Held(s.handlers[h], true) == 0 && Held(s.handlers[h], false) == 0
  {
  }

  /** Once a connection is on its way out, its handler asks for nothing any more. */
  predicate Closing(hd: Handler) {
    hd.Gone? || ((hd.Waiting? || hd.Inside?) && hd.op.Leave?)
  }

  lemma ClosingKeeps(repaired: bool, s: State, a: Action, s': State, h: nat)
    requires Next(repaired, s, a, s') && h < |s.handlers|
    ensures |s'.handlers| == |s.handlers|
    ensures Closing(s.handlers[h]) || a == Want(h, Leave) || a == Quit(h) ==> Closing(s'.handlers[h])
    ensures Closing(s.handlers[h]) && a.h == h ==> !a.Want? && !a.Quit?
  {
    hide Stored, Freed, CutFrom, BypassedBy, NextAssigned;
  }

  lemma {:induction false} StaysClosing(repaired: bool, states: seq<State>, acts: seq<Action>, i: nat, j: nat, h: nat)
    requires IsRun(repaired, states, acts) && i < j < |states| && h < |states[i].handlers|
    requires acts[i] == Want(h, Leave) || acts[i] == Quit(h)
    ensures h < |states[j].handlers| && Closing(states[j].handlers[h])
    decreases j
  {
    hide Next, Init, Closing;
    if i < j - 1 {
      StaysClosing(repaired, states, acts, i, j - 1, h);
    }
    ClosingKeeps(repaired, states[j - 1], acts[j - 1], states[j], h);
  }

  /** A connection leaves at most once, and announces and asks for nothing afterwards. */
  lemma LeaveIsLast(repaired: bool, states: seq<State>, acts: seq<Action>, i: nat, j: nat, h: nat)
    requires IsRun(repaired, states, acts) && i < j < |acts|
    requires acts[i] == Want(h, Leave) || acts[i] == Quit(h)
    ensures acts[j].h == h ==> !acts[j].Want? && !acts[j].Quit?
  {
    hide Closing;
    assert Next(repaired, states[i], acts[i], states[i + 1]);
    hide Next, Init;
    StaysClosing(repaired, states, acts, i, j, h);
    ClosingKeeps(repaired, states[j], acts[j], states[j + 1], h);
  }

  // ----- Every section ends

  function Pos<T(==)>(es: seq<T>, x: T): nat {
    if es == [] || es[0] == x then 0 else 1 + Pos(es[1..], x)
  }

  lemma {:induction false} PosAt<T>(es: seq<T>, k: nat)
    requires Distinct(es) && k < |es|
    ensures Pos(es, es[k]) == k
  {
    if k > 0 {
      PosAt(es[1..], k - 1);
    }
  }

  /** The steps that a handler has left before it is outside again, at most. */
  function Rank(hd: Handler, es: seq<Entry>): int {
    if !hd.Inside? then 0
    else
      match hd.pass
      case Entered => 2 * |es| + 5
      case Counting(_, len) => 2 * |es| + 4 - len
      case Copying(_, _, out) => |es| + 2 - |out|
      case Seeking(_, curr) => |es| + 3 - Pos(es, curr)
      case Attached(_, _) => 2
      case Cut(_) => 3
      case Bypassed(_) => 2
      case Finished => 1
  }

  ghost function RankOf(s: State, h: nat): int
    requires h < |s.handlers| && |s.mems| == |s.events| + 1
  {
    Rank(s.handlers[h], Listed(Base(s)))
  }

  lemma SeekPos(repaired: bool, s: State, h: nat)
    requires Inv(repaired, s) && h < |s.handlers| && s.handlers[h].Inside? && s.handlers[h].pass.Seeking?
    ensures var es, curr := Listed(Base(s)), s.handlers[h].pass.curr;
            && Pos(es, curr) < |es| && curr in s.mem.links
            && s.mem.links[curr].next == (if Pos(es, curr) + 1 < |es| then es[Pos(es, curr) + 1] else null)
            && (Pos(es, curr) + 1 < |es| ==> Pos(es, es[Pos(es, curr) + 1]) == Pos(es, curr) + 1)
  {
    hide IsHistory, Chain, Chains, Changes, Linked;
    SoundBase(repaired, s);
    var es, curr := Listed(Base(s)), s.handlers[h].pass.curr;
    var k: nat :| k < |es| && es[k] == curr;
    PosAt(es, k);
    NextInList(Base(s), k);
    if k + 1 < |es| {
      PosAt(es, k + 1);
    }
  }

  lemma RankIsPositive(repaired: bool, s: State, h: nat)
    requires Inv(repaired, s) && h < |s.handlers| && s.handlers[h].Inside?
    ensures 0 < RankOf(s, h) <= 2 * |Listed(Base(s))| + 5
  {
    hide IsHistory, Listed, SoundAs, Changes;
    if s.handlers[h].pass.Seeking? {
      SeekPos(repaired, s, h);
    }
  }

  lemma OthersKeepRank(repaired: bool, s: State, a: Action, s': State, h: nat)
    requires Inv(repaired, s) && Next(repaired, s, a, s') && h < |s.handlers| && s.handlers[h].Inside? && a.h != h
    ensures |s'.handlers| == |s.handlers| && |s'.mems| == |s'.events| + 1 && RankOf(s', h) == RankOf(s, h)
  {
    hide IsHistory, Listed, PassOk, Works, Rank, Listings;
  }

  lemma OwnWalkRanks(repaired: bool, s: State, a: Action, s': State)
    requires Inv(repaired, s) && Next(repaired, s, a, s') && s.handlers[a.h].Inside?
    requires a.CountOne? || a.CopyOne? || a.SeekOne? || a.Attach?
    ensures |s'.handlers| == |s.handlers| && |s'.mems| == |s'.events| + 1 && RankOf(s', a.h) < RankOf(s, a.h)
  {
    hide IsHistory, Chain, Chains, Linked, Distinct, Changes, NextAssigned, Listings;
    SoundBase(repaired, s);
    var hd := s.handlers[a.h];
    match a
    case CountOne(_) => NextInList(Base(s), hd.pass.len - 1);
    case CopyOne(_) =>
    case _ => SeekPos(repaired, s, a.h);
  }

  lemma OwnRanks(repaired: bool, s: State, a: Action, s': State)
    requires Inv(repaired, s) && Next(repaired, s, a, s') && s.handlers[a.h].Inside?
    requires !(a.CountOne? || a.CopyOne? || a.SeekOne? || a.Attach?)
    ensures |s'.handlers| == |s.handlers| && |s'.mems| == |s'.events| + 1 && RankOf(s', a.h) < RankOf(s, a.h)
  {
    hide IsHistory, Chain, Chains, Linked, Distinct, Changes, Stored, Freed, CutFrom, BypassedBy, NextAssigned, Listings;
    SoundBase(repaired, s);
  }

  /** A handler comes closer to the end of its section with every step of its own, and no step of another
      takes it back. */
  lemma StepRanks(repaired: bool, s: State, a: Action, s': State, h: nat)
    requires Inv(repaired, s) && Next(repaired, s, a, s') && h < |s.handlers| && s.handlers[h].Inside?
    ensures |s'.handlers| == |s.handlers| && |s'.mems| == |s'.events| + 1
    ensures if a.h == h then RankOf(s', h) < RankOf(s, h) else RankOf(s', h) == RankOf(s, h)
  {
    hide Inv, Next, RankOf;
    if a.h != h {
      OthersKeepRank(repaired, s, a, s', h);
    } else if a.CountOne? || a.CopyOne? || a.SeekOne? || a.Attach? {
      OwnWalkRanks(repaired, s, a, s');
    } else {
      OwnRanks(repaired, s, a, s');
    }
  }

  function StepsBy(acts: seq<Action>, h: nat): nat {
    if acts == [] then 0
    else StepsBy(acts[..|acts| - 1], h) + if acts[|acts| - 1].h == h then 1 else 0
  }

  /** While a handler holds the mutex it takes at most twice the length of the list and four more steps: the
      walks end, and the mutex is released by the next step after them. */
  lemma SectionsEnd(repaired: bool, states: seq<State>, acts: seq<Action>, i: nat, j: nat, h: nat)
    requires IsRun(repaired, states, acts) && i <= j < |states|
    requires forall k :: i <= k <= j ==> h < |states[k].handlers| && states[k].handlers[h].Inside?
    ensures |states[i].mems| == |states[i].events| + 1
    ensures StepsBy(acts[i..j], h) < 2 * |Listed(Base(states[i]))| + 5
  {
    hide Next, Init, Listed, Rank, IsRun, IsHistory;
    RunKeepsInv(repaired, states, acts, i);
    RunKeepsInv(repaired, states, acts, j);
    SectionRanks(repaired, states, acts, i, j, h);
    RankIsPositive(repaired, states[i], h);
    RankIsPositive(repaired, states[j], h);
  }

  lemma {:induction false} SectionRanks(repaired: bool, states: seq<State>, acts: seq<Action>, i: nat, j: nat, h: nat)
    requires IsRun(repaired, states, acts) && i <= j < |states|
    requires forall k :: i <= k <= j ==> h < |states[k].handlers| && states[k].handlers[h].Inside?
    ensures |states[i].mems| == |states[i].events| + 1 && |states[j].mems| == |states[j].events| + 1
    ensures StepsBy(acts[i..j], h) <= RankOf(states[i], h) - RankOf(states[j], h)
  {
    hide Next, Init, Listed, Rank, IsHistory, Exclusive, Listings;
    if i == j {
      RunKeepsInv(repaired, states, acts, i);
    } else {
      SectionRanks(repaired, states, acts, i, j - 1, h);
      RunKeepsInv(repaired, states, acts, j - 1);
      StepRanks(repaired, states[j - 1], acts[j - 1], states[j], h);
      SliceBefore(acts, i, j);
    }
  }

  lemma SliceBefore<T>(s: seq<T>, i: nat, j: nat)
    requires i < j <= |s|
    ensures s[i..j] == s[i..j - 1] + [s[j - 1]] && s[i..j][..j - i - 1] == s[i..j - 1]
  {
  }

  /** A handler can ask for the mutex at any time, and to leave whenever it has an entry. */
  lemma OutsideMoves(repaired: bool, s: State, h: nat, op: Op) returns (s': State)
    requires h < |s.handlers| && s.handlers[h].Outside? && (op.Leave? ==> h in s.mem.connInfo)
    ensures Next(repaired, s, Want(h, op), s')
  {
    s' := Move(s, h, Waiting(op));
  }

  /** While any request is unfinished, the owner can go on, or if there is none, whoever waits can take the
      mutex. An announcement takes a new entry for its info. */
  lemma SomeoneMoves(repaired: bool, s: State, h: nat, e: Entry) returns (a: Action, s': State)
    requires Inv(repaired, s) && h < |s.handlers| && (s.handlers[h].Waiting? || s.handlers[h].Inside?)
    requires s.owner.Some? && s.owner.value < |s.handlers| && s.handlers[s.owner.value].Inside? ==>
               var op := s.handlers[s.owner.value].op; op.Announce? ==> e !in s.mem.links && e.info == op.info
    ensures Next(repaired, s, a, s') && a.h == (if s.owner.Some? then s.owner.value else h) && !a.Want? && !a.Quit?
    ensures s.owner.None? ==> a == Lock(h)
  {
    hide IsHistory, PassOk, Works, Listings;
    if s.owner.Some? {
      a, s' := InsideMoves(repaired, s, s.owner.value, e);
    } else {
      a, s' := Lock(h), Move(s, h, Inside(s.handlers[h].op, Entered)).(owner := Some(h));
    }
  }
}
