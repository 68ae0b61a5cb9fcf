/** The prime search as remote code: what one `find_primes` thread does to the node's memory, one loop
    iteration at a time, and what its block holds meanwhile. */
module Search {
  import opened Bytes
  import opened Wire
  import opened NodeHeap
  import opened NodeModel
  import opened Primes

  /** A thread has to read its arguments, to allocate its array, to test the candidates from `i` to `end`
      (the array is at `base`, with room for `cap` numbers and the count), or it has returned. Of a thread
      that was started on some other function nothing is known: it takes no step and does not return. */
  datatype Remote =
    | Loading(args: Ptr)
    | Loaded(lo: nat, hi: nat)
    | Scanning(i: nat, end: nat, base: Ptr, cap: nat)
    | Returned(ret: Ptr)
    | Other(func: Ptr)

  datatype Job = Job(lo: nat, hi: nat)

  // ----- Arrays of 64-bit numbers in memory

  function Cells(xs: seq<nat>): (s: seq<Byte>)
    ensures |s| == 8 * |xs|
  {
    if xs == [] then [] else LE(xs[0], 8) + Cells(xs[1..])
  }

  function UnCells(s: seq<Byte>): seq<nat> {
    if |s| < 8 then [] else [UnLE(s[..8])] + UnCells(s[8..])
  }

  lemma {:induction false} UnCellsOf(xs: seq<nat>)
    requires forall x :: x in xs ==> x < U64
    ensures UnCells(Cells(xs)) == xs
  {
    hide LE, UnLE;
    if xs != [] {
      assert forall x :: x in xs[1..] ==> x in xs;
      UnCellsOf(xs[1..]);
      assert xs[0] in xs;
      Fields(xs[0]);
      assert Cells(xs)[..8] == LE(xs[0], 8) && Cells(xs)[8..] == Cells(xs[1..]);
    }
  }

  lemma {:induction false} CellsAppend(xs: seq<nat>, x: nat)
    ensures Cells(xs + [x]) == Cells(xs) + LE(x, 8)
  {
    hide LE;
    if xs == [] {
      assert xs + [x] == [x];
      assert Cells([x]) == LE(x, 8) + Cells([]);
    } else {
      CellsAppend(xs[1..], x);
      assert (xs + [x])[1..] == xs[1..] + [x];
    }
  }

  lemma CellsCounted(ps: seq<nat>)
    ensures Cells(Counted(ps)) == LE(|ps|, 8) + Cells(ps)
  {
    assert Counted(ps)[1..] == ps;
  }

  function Args(j: Job): (s: seq<Byte>)
    ensures |s| == 16
  {
    LE(j.lo, 8) + LE(j.hi, 8)
  }

  lemma ArgsRoundTrip(j: Job)
    requires j.lo < U64 && j.hi < U64
    ensures UnLE(Args(j)[..8]) == j.lo && UnLE(Args(j)[8..]) == j.hi
  {
    hide LE, UnLE;
    Fields(j.lo);
    Fields(j.hi);
    assert Args(j)[..8] == LE(j.lo, 8) && Args(j)[8..] == LE(j.hi, 8);
  }

  /** The two bounds, eight bytes each. */
  lemma ArgsFormat(j: Job)
    ensures FieldAt(Args(j), 0, 8, j.lo) && FieldAt(Args(j), 8, 8, j.hi)
  {
    hide LE, FieldAt;
    FieldIs(Args(j), 0, 8, j.lo);
    FieldIs(Args(j), 8, 8, j.hi);
  }

  /** Number `i` of an array stands at its own eight bytes. */
  lemma {:induction false} CellsFormat(xs: seq<nat>, i: nat)
    requires i < |xs|
    ensures FieldAt(Cells(xs), 8 * i, 8, xs[i])
  {
    hide LE, FieldAt;
    CellAt(xs, i);
    FieldIs(Cells(xs), 8 * i, 8, xs[i]);
  }

  lemma {:induction false} CellAt(xs: seq<nat>, i: nat)
    requires i < |xs|
    ensures Cells(xs)[8 * i..8 * i + 8] == LE(xs[i], 8)
  {
    hide LE;
    if i > 0 {
      CellAt(xs[1..], i - 1);
      assert Cells(xs)[8 * i..8 * i + 8] == Cells(xs[1..])[8 * (i - 1)..8 * (i - 1) + 8];
    }
  }

  // ----- The steps

  const CAPACITY := 16

  /** One step. Where C is undefined, or the loop would never end, there is no step. */
  ghost predicate SearchStep(l: Remote, h: Heap, l': Remote, h': Heap) {
    match l
    case Loading(p) =>
      && Mapped(h, p, 16) && h' == h
      && l' == Loaded(UnLE(Read(h, p, 16)[..8]), UnLE(Read(h, p, 16)[8..]))
    case Loaded(lo, hi) =>
      && hi % U32 < U32 - 1 && l'.Scanning? && l' == Scanning(lo % U32, hi % U32, l'.base, CAPACITY)
      && exists g :: Alloc(h, l'.base, 8 * (CAPACITY + 1), g) && h' == Write(g, l'.base, LE(0, 8))
    case Scanning(i, end, base, cap) =>
      if i >= U32 || end >= U32 - 1 then false
      else if i > end then l'.Returned? && Finishes(h, base, l'.ret, h')
      else if Prime(AsInt(i)) then
        l'.Scanning? && l' == Scanning(i + 1, end, l'.base, l'.cap) && Records(h, base, cap, i, l'.base, l'.cap, h')
      else l' == l.(i := i + 1) && h' == h
    case Returned(_) => false
    case Other(_) => false
  }

  /** `*count` of the array at `base`. */
  ghost predicate CountIs(h: Heap, base: Ptr, count: nat) {
    Inside(h, base, base, 8) && Mapped(h, base, 8) && count == UnLE(Read(h, base, 8))
  }

  /** The last `realloc`, to the count and the numbers found. */
  ghost predicate Finishes(h: Heap, base: Ptr, base': Ptr, h': Heap) {
    Valid(h) && exists count: nat :: CountIs(h, base, count) && Resize(h, base, base', 8 * (count + 1), h')
  }

  /** A find: `*count += 1`, grow the array if it is full, store the number. */
  ghost predicate Records(h: Heap, base: Ptr, cap: nat, i: nat, base': Ptr, cap': nat, h': Heap) {
    exists count: nat, g :: RecordsBy(h, base, cap, i, base', cap', h', count, g)
  }

  /** `*count += 1` on a `uint64_t`. */
  function Incremented(count: nat): (n: nat)
    ensures count + 1 < U64 ==> n == count + 1
  {
    (count + 1) % U64
  }

  ghost predicate RecordsBy(h: Heap, base: Ptr, cap: nat, i: nat, base': Ptr, cap': nat, h': Heap,
                            count: nat, g: Heap) {
    && CountIs(h, base, count)
    && Grows(Write(h, base, LE(Incremented(count), 8)), base, cap, Incremented(count), base', cap', g)
    && Inside(g, base', base' + 8 * Incremented(count), 8)
    && h' == Write(g, base' + 8 * Incremented(count), LE(i, 8))
  }

  ghost predicate Grows(h: Heap, base: Ptr, cap: nat, count: nat, base': Ptr, cap': nat, h': Heap) {
    if count >= cap then cap' == cap + 16 && Valid(h) && Resize(h, base, base', 8 * (cap' + 1), h')
    else base' == base && cap' == cap && h' == h
  }

  /** `find_primes` has been loaded at address `find`. */
  ghost function SearchCode(find: Ptr): Code<Remote> {
    Code((func, args) => if func == find then Loading(args) else Other(func),
         (l, h, l', h') => SearchStep(l, h, l', h'),
         (l: Remote) => if l.Returned? then Some(l.ret) else None)
  }

  function SearchRank(l: Remote): nat {
    match l
    case Loading(_) => U32 + 4
    case Loaded(lo, hi) => 3 + Remaining(lo % U32, hi % U32)
    case Scanning(i, end, _, _) => 1 + Remaining(i, end)
    case Returned(_) => 0
    case Other(_) => 0
  }

  function Remaining(i: nat, end: nat): nat {
    if i <= end then end - i + 1 else 0
  }

  // ----- What a step does to the blocks

  /** The thread's block has been replaced by one at `base'`; every other block is as it was. */
  ghost predicate Moved(v: Blocks, base: Ptr, v': Blocks, base': Ptr) {
    && base in v && base' in v' && (base' == base || base' !in v)
    && v' == (v - {base})[base' := v'[base']]
  }

  lemma ResizeMoves(h: Heap, base: Ptr, base': Ptr, size: nat, h': Heap)
    requires Valid(h) && Resize(h, base, base', size, h')
    ensures Valid(h') && base in View(h) && base' in View(h') && Moved(View(h), base, View(h'), base')
    ensures |View(h')[base']| == size && CommonPrefix(View(h)[base], View(h')[base'])
  {
    hide Valid, Mapped, Resize, CommonPrefix;
    MoveRefines(h, base, size, base', h');
  }

  lemma WriteMoves(h: Heap, base: Ptr, addr: int, data: seq<Byte>)
    requires Valid(h) && data != [] && Inside(h, base, addr, |data|)
    ensures Valid(Write(h, addr, data)) && base in View(h) && addr - base + |data| <= |View(h)[base]|
    ensures base in View(Write(h, addr, data)) && Moved(View(h), base, View(Write(h, addr, data)), base)
    ensures View(Write(h, addr, data))[base] == Overlay(View(h)[base], addr - base, data)
    ensures |View(Write(h, addr, data))[base]| == |View(h)[base]|
  {
    hide Valid, Mapped, Overlay, Write;
    BlockOf(h, base);
    OverlayAt(View(h)[base], addr - base, data, 0);
    WriteView(h, base, addr, data);
    var v, s := View(h), Overlay(Contents(h, base), addr - base, data);
    assert v[base := s] == (v - {base})[base := s];
  }

  lemma MovedTwice(u: Blocks, a: Ptr, v: Blocks, b: Ptr, w: Blocks, c: Ptr)
    requires Moved(u, a, v, b) && Moved(v, b, w, c)
    ensures Moved(u, a, w, c)
  {
    assert v - {b} == u - {a} - {b};
    if b != a {
      assert u - {a} - {b} == u - {a};
    }
  }

  lemma GrowMoves(h: Heap, base: Ptr, cap: nat, count: nat, base': Ptr, cap': nat, h': Heap)
    requires Valid(h) && base in View(h) && Grows(h, base, cap, count, base', cap', h')
    ensures Valid(h') && base' in View(h') && Moved(View(h), base, View(h'), base')
    ensures |View(h)[base]| == 8 * (cap + 1) ==>
              |View(h')[base']| == 8 * (cap' + 1) && View(h)[base] <= View(h')[base']
  {
    hide Valid, View, Resize;
    if count >= cap {
      ResizeMoves(h, base, base', 8 * (cap' + 1), h');
    } else {
      var v: Blocks := View(h);
      assert v == (v - {base})[base := v[base]];
    }
  }

  /** A find replaces the block: the count goes up and the number stands behind the others. */
  lemma RecordMoves(h: Heap, base: Ptr, cap: nat, i: nat, base': Ptr, cap': nat, h': Heap)
    requires Valid(h) && Records(h, base, cap, i, base', cap', h')
    ensures Valid(h') && Moved(View(h), base, View(h'), base')
    ensures var s, s' := View(h)[base], View(h')[base'];
            |s| >= 8 &&
            (|s| == 8 * (cap + 1) && UnLE(s[..8]) < cap < U64 - 1 ==>
               && |s'| == 8 * (cap' + 1) && UnLE(s[..8]) + 1 < cap'
               && cap' == (if UnLE(s[..8]) + 1 == cap then cap + 16 else cap)
               && s'[..8 * (UnLE(s[..8]) + 2)]
                    == LE(UnLE(s[..8]) + 1, 8) + s[8..8 * (UnLE(s[..8]) + 1)] + LE(i, 8))
  {
    hide Valid, View, Write, Overlay, Grows, LE, UnLE, Moved, CountIs;
    var c: nat, g :| RecordsBy(h, base, cap, i, base', cap', h', c, g);
    var count := Incremented(c);
    CountOf(h, base, c);
    var h1 := Write(h, base, LE(count, 8));
    WriteMoves(h, base, base, LE(count, 8));
    GrowMoves(h1, base, cap, count, base', cap', g);
    WriteMoves(g, base', base' + 8 * count, LE(i, 8));
    MovedTwice(View(h), base, View(h1), base, View(g), base');
    MovedTwice(View(h), base, View(g), base', View(h'), base');
    var s := View(h)[base];
    if |s| == 8 * (cap + 1) && c < cap < U64 - 1 {
      GrownBy(h1, base, cap, count, base', cap', g);
      RecordedBytes(s, View(h1)[base], View(g)[base'], View(h')[base'], count, LE(i, 8));
    }
  }

  lemma GrownBy(h: Heap, base: Ptr, cap: nat, count: nat, base': Ptr, cap': nat, h': Heap)
    requires Grows(h, base, cap, count, base', cap', h') && count <= cap
    ensures count < cap' && cap' == if count == cap then cap + 16 else cap
  {
  }

  /** The three writes, on bytes. */
  lemma RecordedBytes(s: seq<Byte>, s1: seq<Byte>, s2: seq<Byte>, s3: seq<Byte>, count: nat, cell: seq<Byte>)
    requires count >= 1 && 8 * count <= |s| && |cell| == 8 && |s1| <= |s2| && 8 * count + 8 <= |s2|
    requires s1 == Overlay(s, 0, LE(count, 8)) && s1 <= s2 && s3 == Overlay(s2, 8 * count, cell)
    ensures |s3| == |s2| && s3[..8 * (count + 1)] == LE(count, 8) + s[8..8 * count] + cell
  {
    hide LE;
    assert s3[..8 * count] == s2[..8 * count] == s1[..8 * count] == LE(count, 8) + s[8..8 * count];
  }

  lemma CountOf(h: Heap, base: Ptr, count: nat)
    requires Valid(h) && CountIs(h, base, count)
    ensures base in View(h) && |View(h)[base]| >= 8 && count == UnLE(View(h)[base][..8])
    ensures Inside(h, base, base, 8)
  {
    hide UnLE;
    BlockOf(h, base);
    ReadView(h, base, base, 8);
    assert View(h)[base][..8] == View(h)[base][base - base..base - base + 8];
  }

  lemma FinishMoves(h: Heap, base: Ptr, base': Ptr, h': Heap)
    requires Valid(h) && Finishes(h, base, base', h')
    ensures Valid(h') && Moved(View(h), base, View(h'), base')
    ensures var s, s' := View(h)[base], View(h')[base'];
            |s| >= 8 && |s'| == 8 * (UnLE(s[..8]) + 1) && (|s'| <= |s| ==> s' == s[..|s'|])
  {
    hide Valid, View, Resize, UnLE, Moved, CountIs;
    var count: nat :| CountIs(h, base, count) && Resize(h, base, base', 8 * (count + 1), h');
    CountOf(h, base, count);
    ResizeMoves(h, base, base', 8 * (count + 1), h');
  }

  /** The array appears, with count zero. */
  lemma LoadedAllocates(h: Heap, base: Ptr, g: Heap, h': Heap)
    requires Valid(h) && Alloc(h, base, 8 * (CAPACITY + 1), g) && h' == Write(g, base, LE(0, 8))
    ensures Valid(h') && base !in View(h) && base in View(h') && View(h') == View(h)[base := View(h')[base]]
    ensures |View(h')[base]| == 8 * (CAPACITY + 1) && View(h')[base][..8] == LE(0, 8)
  {
    hide Valid, Mapped, LE, Contents, Write;
    AllocView(h, base, 8 * (CAPACITY + 1), g);
    BlockOf(g, base);
    WriteView(g, base, base, LE(0, 8));
  }

  /** The search is code that the progress and refinement results of the node apply to. */
  lemma SearchIsTame(find: Ptr)
    ensures Tidy(SearchCode(find)) && Terminating(SearchCode(find), SearchRank)
  {
    hide Valid, Write, Alloc, Records, Finishes, Mapped;
    forall l, h, l', h' | SearchCode(find).step(l, h, l', h') && Valid(h) ensures Valid(h') {
      StepIsTidy(l, h, l', h');
    }
  }

  lemma StepIsTidy(l: Remote, h: Heap, l': Remote, h': Heap)
    requires SearchStep(l, h, l', h') && Valid(h)
    ensures Valid(h')
  {
    hide Valid, View, Write, Alloc, Records, Finishes, Moved, Mapped;
    match l
    case Loaded(lo, hi) =>
      var g :| Alloc(h, l'.base, 8 * (CAPACITY + 1), g) && h' == Write(g, l'.base, LE(0, 8));
      LoadedAllocates(h, l'.base, g, h');
    case Scanning(i, end, base, cap) =>
      if i > end {
        FinishMoves(h, base, l'.ret, h');
      } else if Prime(AsInt(i)) {
        RecordMoves(h, base, cap, i, l'.base, l'.cap, h');
      }
    case _ =>
  }

  // ----- How far a search is

  /** The bounds fit their fields, and the loop ends. */
  predicate Bounded(j: Job) {
    j.lo < U64 && j.hi < U64 && j.hi % U32 < U32 - 1
  }

  /** The thread's loop is not the one that never ends. */
  ghost predicate Ends(v: Blocks, l: Remote) {
    match l
    case Loading(p) => p in v && |v[p]| >= 16 && UnLE(v[p][8..16]) % U32 < U32 - 1
    case Loaded(_, hi) => hi % U32 < U32 - 1
    case Scanning(_, end, _, _) => end < U32 - 1
    case Returned(_) => true
    case Other(_) => true
  }

  /** That stays so when the thread moves on. */
  lemma StepEnds(l: Remote, h: Heap, l': Remote, h': Heap)
    requires Valid(h) && Ends(View(h), l) && SearchStep(l, h, l', h')
    ensures Valid(h') && Ends(View(h'), l')
  {
    hide Valid, View, UnLE, Records, Finishes, Alloc, Write, Prime, Mapped, LE;
    StepIsTidy(l, h, l', h');
    if l.Loading? {
      ReadBound(h, l.args);
    }
  }

  lemma ReadBound(h: Heap, p: Ptr)
    requires Valid(h) && p in View(h) && |View(h)[p]| >= 16 && Mapped(h, p, 16)
    ensures Read(h, p, 16)[8..] == View(h)[p][8..16]
  {
    BlockOf(h, p);
  }

  lemma BoundedEnds(v: Blocks, p: Ptr, j: Job)
    requires p in v && v[p] == Args(j) && Bounded(j)
    ensures Ends(v, Loading(p))
  {
    hide UnLE, LE, Args;
    ArgsRoundTrip(j);
    assert v[p][8..16] == v[p][8..];
  }

  /** The array in block `base` holds `ps` so far, and has room for the next multiple of sixteen numbers. */
  ghost predicate Growing(v: Blocks, base: Ptr, cap: nat, ps: seq<nat>) {
    && base in v && |v[base]| == 8 * (cap + 1) && cap == 16 * (|ps| / 16 + 1) && cap < U64 - 1
    && v[base][..8 * (|ps| + 1)] == Cells(Counted(ps))
  }

  /** The primes among the candidates tested so far. */
  ghost function FoundSoFar(j: Job, i: nat): seq<nat> {
    PrimesIn(j.lo % U32, Min(i - 1, U31 - 1))
  }

  ghost function FoundBy(j: Job): seq<nat> {
    Found(j.lo, j.hi)
  }

  /** The thread is on its way to the result of job `j`, and its blocks hold what they should. */
  ghost predicate JobAt(v: Blocks, l: Remote, j: Job) {
    match l
    case Loading(p) => p in v && v[p] == Args(j)
    case Loaded(lo, hi) => Job(lo, hi) == j
    case Scanning(i, end, base, cap) =>
      && end == j.hi % U32 && j.lo % U32 <= i <= Max(j.lo % U32, end + 1)
      && Growing(v, base, cap, FoundSoFar(j, i))
    case Returned(p) => p in v && v[p] == Cells(Counted(FoundBy(j)))
    case Other(_) => false
  }

  lemma GrowingCount(v: Blocks, base: Ptr, cap: nat, ps: seq<nat>)
    requires Growing(v, base, cap, ps)
    ensures UnLE(v[base][..8]) == |ps|
    ensures v[base][8..8 * (|ps| + 1)] == Cells(ps)
  {
    hide LE, UnLE, Cells;
    CellsCounted(ps);
    Fields(|ps|);
    var s := v[base][..8 * (|ps| + 1)];
    assert v[base][..8] == s[..8] == LE(|ps|, 8);
    assert v[base][8..8 * (|ps| + 1)] == s[8..] == Cells(ps);
  }

  /** One more find. */
  lemma RecordGrows(h: Heap, base: Ptr, cap: nat, i: nat, base': Ptr, cap': nat, h': Heap, ps: seq<nat>)
    requires Valid(h) && Records(h, base, cap, i, base', cap', h') && Growing(View(h), base, cap, ps)
    ensures Valid(h') && Moved(View(h), base, View(h'), base')
    ensures Growing(View(h'), base', cap', ps + [i])
  {
    hide Valid, View, Records, Cells, LE, UnLE;
    RecordMoves(h, base, cap, i, base', cap', h');
    GrowingCount(View(h), base, cap, ps);
    CellsCounted(ps + [i]);
    CellsAppend(ps, i);
    BlocksFit(h', base');
    assert LE(|ps| + 1, 8) + Cells(ps) + LE(i, 8) == LE(|ps| + 1, 8) + (Cells(ps) + LE(i, 8));
    assert cap' == 16 * ((|ps| + 1) / 16 + 1);
  }

  lemma BlocksFit(h: Heap, b: Ptr)
    requires Valid(h) && b in View(h)
    ensures b > 0 && b + |View(h)[b]| <= U64
  {
  }

  /** The result has exactly the count and the numbers found. */
  lemma FinishReturns(h: Heap, base: Ptr, cap: nat, base': Ptr, h': Heap, ps: seq<nat>)
    requires Valid(h) && Finishes(h, base, base', h') && Growing(View(h), base, cap, ps)
    ensures Valid(h') && Moved(View(h), base, View(h'), base')
    ensures base' in View(h') && View(h')[base'] == Cells(Counted(ps))
  {
    hide Valid, View, Finishes, Cells, UnLE;
    FinishMoves(h, base, base', h');
    GrowingCount(View(h), base, cap, ps);
  }

  lemma LoadedArgs(h: Heap, p: Ptr, j: Job)
    requires Valid(h) && p in View(h) && View(h)[p] == Args(j) && Bounded(j)
    ensures Mapped(h, p, 16)
    ensures UnLE(Read(h, p, 16)[..8]) == j.lo && UnLE(Read(h, p, 16)[8..]) == j.hi
  {
    hide Args, UnLE;
    BlockOf(h, p);
    ArgsRoundTrip(j);
    assert Read(h, p, 16) == Args(j);
  }

  lemma StartsScanning(v: Blocks, base: Ptr, j: Job)
    requires base in v && |v[base]| == 8 * (CAPACITY + 1) && v[base][..8] == LE(0, 8) && Bounded(j)
    ensures JobAt(v, Scanning(j.lo % U32, j.hi % U32, base, CAPACITY), j)
  {
    hide LE, PrimesIn;
    NoPrimes(j.lo % U32, Min(j.lo % U32 - 1, U31 - 1));
    CellsCounted([]);
  }

  /** When the counter has passed the bound, everything has been found. */
  lemma AllFound(j: Job, i: nat)
    requires Bounded(j) && j.lo % U32 <= i <= Max(j.lo % U32, j.hi % U32 + 1) && i > j.hi % U32
    ensures FoundSoFar(j, i) == FoundBy(j)
  {
    hide PrimesIn;
    var start, end := j.lo % U32, j.hi % U32;
    if end < start {
      NoPrimes(start, Min(end, U31 - 1));
      NoPrimes(start, Min(i - 1, U31 - 1));
    } else {
      assert i - 1 == end;
    }
  }

  /** One iteration of the loop keeps the job on its way, and touches no block but its own. */
  lemma ScanKeeps(h: Heap, l: Remote, h': Heap, l': Remote, j: Job)
    requires Valid(h) && l.Scanning? && SearchStep(l, h, l', h') && JobAt(View(h), l, j) && Bounded(j)
    ensures Valid(h') && JobAt(View(h'), l', j)
  {
    hide Valid, View, Records, Finishes, Growing, Prime, PrimesIn, Cells, Found, Moved;
    var i, base := l.i, l.base;
    var ps := FoundSoFar(j, i);
    if i > l.end {
      FinishReturns(h, base, l.cap, l'.ret, h', ps);
      AllFound(j, i);
    } else {
      Extend(j.lo % U32, i, Prime(AsInt(i)));
      if Prime(AsInt(i)) {
        RecordGrows(h, base, l.cap, i, l'.base, l'.cap, h', ps);
      } else {
        assert FoundSoFar(j, i + 1) == ps;
      }
    }
  }

  // ----- A search is never stuck, but for memory

  ghost predicate HasRoom(h: Heap, size: nat) {
    exists b: Ptr :: Room(h, b, size)
  }

  /** One more find makes the array grow. */
  ghost predicate Full(h: Heap, base: Ptr, cap: nat) {
    exists count: nat :: CountIs(h, base, count) && Incremented(count) >= cap
  }

  /** There is memory for the allocation that the thread makes next, if it makes one. */
  ghost predicate RoomFor(h: Heap, l: Remote) {
    match l
    case Loaded(_, _) => HasRoom(h, 8 * (16 + 1))
    case Scanning(i, end, base, cap) =>
      i <= end && i < U32 && Prime(AsInt(i)) && Full(h, base, cap) ==> HasRoom(Release(h, base), 8 * (cap + 17))
    case _ => true
  }

  lemma SearchMoves(find: Ptr, h: Heap, l: Remote, j: Job)
    requires Valid(h) && JobAt(View(h), l, j) && Bounded(j) && !l.Returned? && RoomFor(h, l)
    ensures CanMove(SearchCode(find), l, h)
  {
    hide Valid, View, Growing, Prime, PrimesIn, Records, Finishes, Room, UnLE, LE, Mapped, Fresh, Write, Alloc, Args;
    var code := SearchCode(find);
    match l
    case Loading(p) =>
      LoadedArgs(h, p, j);
      var l' := Loaded(UnLE(Read(h, p, 16)[..8]), UnLE(Read(h, p, 16)[8..]));
      assert code.step(l, h, l', h);
    case Loaded(lo, hi) =>
      var b: Ptr :| Room(h, b, 8 * (CAPACITY + 1));
      FreshAllocates(h, b, 8 * (CAPACITY + 1), []);
      var g := Fresh(h, b, 8 * (CAPACITY + 1), []);
      assert code.step(l, h, Scanning(lo % U32, hi % U32, b, CAPACITY), Write(g, b, LE(0, 8)));
    case Scanning(i, end, base, cap) =>
      var ps := FoundSoFar(j, i);
      if i > end {
        var h' := CanFinish(h, base, cap, ps);
        assert code.step(l, h, Returned(base), h');
      } else if Prime(AsInt(i)) {
        var base', cap', h' := CanRecord(h, base, cap, i, ps);
        assert code.step(l, h, Scanning(i + 1, end, base', cap'), h');
      } else {
        assert code.step(l, h, l.(i := i + 1), h);
      }
  }

  lemma CanCount(h: Heap, base: Ptr, cap: nat, ps: seq<nat>)
    requires Valid(h) && Growing(View(h), base, cap, ps)
    ensures base in h.blocks && h.blocks[base] == 8 * (cap + 1) && |ps| < cap < U64 - 1
    ensures CountIs(h, base, |ps|)
  {
    hide Valid, UnLE, LE, Cells;
    BlockOf(h, base);
    GrowingCount(View(h), base, cap, ps);
    ReadView(h, base, base, 8);
    assert View(h)[base][base - base..base - base + 8] == View(h)[base][..8];
  }

  /** Shrinking in place always has room. */
  lemma CanFinish(h: Heap, base: Ptr, cap: nat, ps: seq<nat>) returns (h': Heap)
    requires Valid(h) && Growing(View(h), base, cap, ps)
    ensures Finishes(h, base, base, h')
  {
    CanCount(h, base, cap, ps);
    var size := 8 * (|ps| + 1);
    assert Room(Release(h, base), base, size);
    h' := CanResize(h, base, base, size);
  }

  lemma CanResize(h: Heap, base: Ptr, b: Ptr, size: nat) returns (h': Heap)
    requires Valid(h) && base in h.blocks && size > 0 && Room(Release(h, base), b, size)
    ensures Resize(h, base, b, size, h')
  {
    var keep := if size < h.blocks[base] then size else h.blocks[base];
    assert Mapped(h, base, h.blocks[base]);
    var init := Read(h, base, keep);
    FreshAllocates(Release(h, base), b, size, init);
    h' := Fresh(Release(h, base), b, size, init);
  }

  lemma CanRecord(h: Heap, base: Ptr, cap: nat, i: nat, ps: seq<nat>)
    returns (base': Ptr, cap': nat, h': Heap)
    requires Valid(h) && Growing(View(h), base, cap, ps)
    requires Full(h, base, cap) ==> HasRoom(Release(h, base), 8 * (cap + 17))
    ensures Records(h, base, cap, i, base', cap', h')
  {
    hide Growing, Valid, LE, CountIs, Write, Grows, Inside, HasRoom, View;
    CanCount(h, base, cap, ps);
    var count := |ps| + 1;
    assert Incremented(|ps|) == count;
    var g;
    base', cap', g := CanGrow(h, base, cap, count, LE(count, 8));
    h' := Write(g, base' + 8 * count, LE(i, 8));
    assert RecordsBy(h, base, cap, i, base', cap', h', |ps|, g);
  }

  lemma CanGrow(h: Heap, base: Ptr, cap: nat, count: nat, cell: seq<Byte>)
    returns (base': Ptr, cap': nat, g: Heap)
    requires Valid(h) && base in h.blocks && h.blocks[base] == 8 * (cap + 1) && count <= cap
    requires count >= cap ==> HasRoom(Release(h, base), 8 * (cap + 17))
    ensures Grows(Write(h, base, cell), base, cap, count, base', cap', g)
    ensures Inside(g, base', base' + 8 * count, 8)
  {
    hide Valid, Room;
    var h1 := Write(h, base, cell);
    WriteValid(h, base, cell);
    if count >= cap {
      base' :| Room(Release(h, base), base', 8 * (cap + 17));
      cap' := cap + 16;
      SameRoom(Release(h, base), Release(h1, base), base', 8 * (cap + 17));
      g := CanResize(h1, base, base', 8 * (cap' + 1));
    } else {
      base', cap', g := base, cap, h1;
    }
  }

  lemma SameRoom(h: Heap, g: Heap, b: Ptr, size: nat)
    requires g.blocks == h.blocks && Room(h, b, size)
    ensures Room(g, b, size)
  {
  }
}
