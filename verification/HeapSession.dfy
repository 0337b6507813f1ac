/** Whole runs: a program that calls malloc, free and realloc in any order. */
module HeapSession {
  import opened HeapTiles
  import opened HeapOps
  import opened HeapLinks
  import opened Heap
  import opened HeapRealloc

  /** What a program does with the heap; writing is to byte `i` of a block it holds. */
  datatype Call =
    | CallMalloc(nbytes: nat, grant: bool)
    | CallFree(ptr: nat)
    | CallRealloc(ptr: nat, nbytes: nat, grant: bool)
    | Write(ptr: nat, i: nat, value: int)

  predicate Acceptable(c: Call) {
    c.CallFree? || c.Write? || (c.nbytes <= SIZE_MAX && !Wraps(c.nbytes))
  }

  /** The program's own idea of its memory: each pointer it holds with as many bytes as it asked
      for. */
  type Store = map<int, seq<int>>

  /** No bytes, or more than a size can count with the header, give null, and any other request that
      the system grants does not. */
  predicate Answered(nbytes: nat, grant: bool, r: nat) {
    if nbytes > 0 && NUnits(nbytes) * UNIT <= SIZE_MAX then grant ==> r != NULL else r == NULL
  }

  /** A new block, or null and nothing changed. */
  ghost predicate Allocated(nbytes: nat, grant: bool, held: Store, r: nat, held': Store) {
    Answered(nbytes, grant, r) &&
    if r == NULL then held' == held
    else r !in held && r in held' && held' == held[r := held'[r]] && |held'[r]| == nbytes
  }

  /** The old block with a new size, in place or not, or null and nothing changed. */
  ghost predicate Reallocated(ptr: nat, nbytes: nat, grant: bool, held: Store, r: nat, held': Store)
    requires ptr in held
  {
    Answered(nbytes, grant, r) &&
    if r == NULL then held' == held
    else (r == ptr || r !in held) && r in held' && held' == (held - {ptr})[r := held'[r]]
         && |held'[r]| == nbytes && SameStart(held[ptr], held'[r])
  }

  /** What C99 sections 7.20.3.2 to 7.20.3.4 promise of one call that returned `r`; a pointer that
      is neither null nor held is no call a program may make, and nothing is done. */
  ghost predicate Promised(c: Call, held: Store, r: nat, held': Store) {
    match c
    case CallMalloc(nbytes, grant) => Allocated(nbytes, grant, held, r, held')
    case CallFree(ptr) => held' == held - {ptr}
    case CallRealloc(ptr, nbytes, grant) =>
      if ptr == NULL then Allocated(nbytes, grant, held, r, held')
      else if ptr !in held then held' == held
      else Reallocated(ptr, nbytes, grant, held, r, held')
    case Write(ptr, i, v) =>
      if ptr in held && i < |held[ptr]| then held' == held[ptr := held[ptr][i := v]] else held' == held
  }

  /** The shorter of the two is the start of the longer. */
  ghost predicate SameStart(a: seq<int>, b: seq<int>) {
    forall i :: 0 <= i < |a| && i < |b| ==> a[i] == b[i]
  }

  /** The pointers that malloc and realloc have handed out for these blocks. */
  ghost function Pointers(live: set<Tile>): set<nat> {
    set t | t in live :: t.addr + 1
  }

  lemma PointerBlock(s: seq<Tile>, p: nat)
    requires |s| > 0 && !s[0].live
    ensures p in Pointers(Live(s)) <==> p > 0 && IsBlock(s, p - 1)
  {
    if p in Pointers(Live(s)) {
      var t :| t in Live(s) && t.addr + 1 == p;
      var j := LiveIndex(s, t);
    }
    if p > 0 && IsBlock(s, p - 1) {
      var t := s[BlockIndex(s, p - 1)];
      assert t in Live(s);
    }
  }

  lemma PointersWithout(s: seq<Tile>, n: nat, ob: Tile)
    requires Whole(s, n) && ob in Live(s)
    ensures Pointers(Live(s) - {ob}) == Pointers(Live(s)) - {ob.addr + 1}
  {
    forall t | t in Live(s) && t != ob ensures t.addr != ob.addr {
      if t.addr == ob.addr {
        LiveByAddress(s, n, t, ob);
      }
    }
  }

  lemma PointersWith(live: set<Tile>, nb: Tile)
    ensures Pointers(live + {nb}) == Pointers(live) + {nb.addr + 1}
  {
  }

  /** Block `t` has the size that was asked for and shows the bytes the program put there. */
  ghost predicate Shows(m: Memory, t: Tile, held: Store) {
    t.addr + 1 in held && |held[t.addr + 1]| > 0 && t.size == NUnits(|held[t.addr + 1]|) &&
    ShowsBytes(m, t.addr, held[t.addr + 1])
  }

  ghost predicate ShowsBytes(m: Memory, a: nat, bytes: seq<int>) {
    forall i :: 0 <= i < |bytes| ==> a + 1 + i / UNIT < |m| && Byte(m, a, i) == bytes[i]
  }

  ghost predicate AllShow(m: Memory, blocks: set<Tile>, held: Store) {
    forall t :: t in blocks ==> Shows(m, t, held)
  }

  ghost predicate Tracks(m: Memory, live: set<Tile>, held: Store) {
    held.Keys == Pointers(live) && AllShow(m, live, held)
  }

  /** The heap invariant, and the program's idea of its memory is right. */
  ghost predicate Consistent(m: Memory, freep: nat, s: seq<Tile>, held: Store) {
    && Inv(m, freep, s)
    && Tracks(m, Live(s), held)
    && Units(s, true) + Units(s, false) == |m| - ORIGIN
  }

  lemma SameShows(m: Memory, a: nat, m': Memory, a': nat, bytes: seq<int>)
    requires ShowsBytes(m, a, bytes) && SameBytes(m, a, m', a', |bytes|)
    ensures ShowsBytes(m', a', bytes)
  {
    forall i | 0 <= i < |bytes| ensures a' + 1 + i / UNIT < |m'| && Byte(m', a', i) == bytes[i] {
      assert Byte(m, a, i) == bytes[i] && Byte(m', a', i) == Byte(m, a, i);
    }
  }

  lemma KeptShows(m: Memory, m': Memory, t: Tile, held: Store, held': Store)
    requires Shows(m, t, held) && Kept(m, m', t)
    requires t.addr + 1 in held' && held'[t.addr + 1] == held[t.addr + 1]
    ensures Shows(m', t, held')
  {
    var bytes := held[t.addr + 1];
    KeptBytes(m, m', t, |bytes|);
    SameShows(m, t.addr, m', t.addr, bytes);
  }

  /** The first `n` bytes of the block at `a`. */
  function Read(m: Memory, a: nat, n: nat): (bytes: seq<int>)
    requires n > 0 && a + NUnits(n) <= |m|
    ensures |bytes| == n && ShowsBytes(m, a, bytes)
  {
    seq(n, i requires 0 <= i < n => ReadInside(i, n); Byte(m, a, i))
  }

  lemma ReadInside(i: nat, n: nat)
    requires i < n
    ensures 1 + i / UNIT < NUnits(n)
  {
  }

  lemma BlockBound(s: seq<Tile>, n: nat, t: Tile)
    requires Whole(s, n) && t in Live(s)
    ensures t.addr + t.size <= n
  {
    var j := LiveIndex(s, t);
    TiledAt(s, BASE, n, j);
  }

  /** The address of a block that was not live before belongs to no other block. */
  lemma NewPointer(s: seq<Tile>, n: nat, live: set<Tile>, nb: Tile)
    requires Whole(s, n) && live <= Live(s) && nb in Live(s) && nb !in live
    ensures nb.addr + 1 !in Pointers(live)
  {
    forall t | t in live ensures t.addr != nb.addr {
      if t.addr == nb.addr {
        LiveByAddress(s, n, t, nb);
      }
    }
  }

  // ----- what each operation does to the program's idea -----

  /** A new block `nb`, all others untouched. */
  lemma TracksNew(m: Memory, live: set<Tile>, held: Store, m': Memory, nb: Tile, bytes: seq<int>)
    requires Tracks(m, live, held) && nb.addr + 1 !in Pointers(live) && AllKept(m, m', live)
    requires |bytes| > 0 && nb.size == NUnits(|bytes|) && ShowsBytes(m', nb.addr, bytes)
    ensures nb.addr + 1 !in held && Tracks(m', live + {nb}, held[nb.addr + 1 := bytes])
  {
    var held' := held[nb.addr + 1 := bytes];
    PointersWith(live, nb);
    forall t | t in live ensures Shows(m', t, held') {
      ShowsStill(m, live, held, m', nb.addr + 1, bytes, t);
    }
    ShowsThese(m', nb, bytes, held');
    ShowPlus(m', live, nb, held');
  }

  lemma ShowPlus(m: Memory, live: set<Tile>, nb: Tile, held: Store)
    requires AllShow(m, live, held) && Shows(m, nb, held)
    ensures AllShow(m, live + {nb}, held)
  {
  }

  lemma ShowsStill(m: Memory, live: set<Tile>, held: Store, m': Memory, p: nat, bytes: seq<int>, t: Tile)
    requires Tracks(m, live, held) && p !in Pointers(live) && AllKept(m, m', live) && t in live
    ensures Shows(m', t, held[p := bytes])
  {
    assert t.addr + 1 in Pointers(live);
    KeptShows(m, m', t, held, held[p := bytes]);
  }

  lemma ShowsThese(m: Memory, t: Tile, bytes: seq<int>, held: Store)
    requires t.addr + 1 in held && held[t.addr + 1] == bytes
    requires |bytes| > 0 && t.size == NUnits(|bytes|) && ShowsBytes(m, t.addr, bytes)
    ensures Shows(m, t, held)
  {
  }

  /** Block `ob` gone, all others untouched. */
  lemma TracksGone(m: Memory, s: seq<Tile>, held: Store, m': Memory, ob: Tile)
    requires Whole(s, |m|) && Tracks(m, Live(s), held) && ob in Live(s) && AllKept(m, m', Live(s) - {ob})
    ensures Tracks(m', Live(s) - {ob}, held - {ob.addr + 1})
  {
    var held' := held - {ob.addr + 1};
    PointersWithout(s, |m|, ob);
    forall t | t in Live(s) - {ob} ensures Shows(m', t, held') {
      assert t.addr + 1 in Pointers(Live(s) - {ob});
      KeptShows(m, m', t, held, held');
    }
  }

  /** Block `ob` replaced by `nb`, which may have the same address. */
  lemma TracksMoved(m: Memory, s: seq<Tile>, held: Store, m': Memory, ob: Tile, nb: Tile, bytes: seq<int>)
    requires Whole(s, |m|) && Tracks(m, Live(s), held) && ob in Live(s) && AllKept(m, m', Live(s) - {ob})
    requires nb.addr + 1 !in Pointers(Live(s) - {ob})
    requires |bytes| > 0 && nb.size == NUnits(|bytes|) && ShowsBytes(m', nb.addr, bytes)
    ensures Tracks(m', Live(s) - {ob} + {nb}, (held - {ob.addr + 1})[nb.addr + 1 := bytes])
    ensures nb.addr == ob.addr || nb.addr + 1 !in held
  {
    var rest, less := Live(s) - {ob}, held - {ob.addr + 1};
    PointersWithout(s, |m|, ob);
    TracksGone(m, s, held, m', ob);
    KeptSelf(m, m', rest);
    TracksNew(m', rest, less, m', nb, bytes);
  }

  lemma KeptSelf(m: Memory, m': Memory, blocks: set<Tile>)
    requires AllKept(m, m', blocks)
    ensures AllKept(m', m', blocks)
  {
    forall t | t in blocks ensures Kept(m', m', t) {
      assert Kept(m, m', t);
    }
  }

  /** The bytes that realloc kept are those the program had there. */
  lemma StartKept(m: Memory, a: nat, m': Memory, a': nat, old_: seq<int>, new_: seq<int>, n: nat)
    requires ShowsBytes(m, a, old_) && ShowsBytes(m', a', new_) && SameBytes(m, a, m', a', n)
    requires |old_| <= n || |new_| <= n
    ensures SameStart(old_, new_)
  {
    forall i | 0 <= i < |old_| && i < |new_| ensures old_[i] == new_[i] {
      assert Byte(m, a, i) == old_[i] && Byte(m', a', i) == new_[i] && Byte(m', a', i) == Byte(m, a, i);
    }
  }

  lemma ResizedStart(m: Memory, live: set<Tile>, held: Store, m': Memory, live': set<Tile>, ob: Tile, r: nat, bytes: seq<int>)
    requires Tracks(m, live, held) && ob in live && |bytes| > 0
    requires Resized(m, live, m', live', ob, r, |bytes|) && ShowsBytes(m', r - 1, bytes)
    ensures ob.addr + 1 in held && SameStart(held[ob.addr + 1], bytes)
  {
    assert Shows(m, ob, held);
    StartKept(m, ob.addr, m', r - 1, held[ob.addr + 1], bytes, Smaller(Payload(ob.size), |bytes|));
  }

  lemma ResizedTracks(m: Memory, s: seq<Tile>, held: Store, m': Memory, s': seq<Tile>, ob: Tile, r: nat, bytes: seq<int>)
    requires Whole(s, |m|) && Tracks(m, Live(s), held) && ob in Live(s) && Whole(s', |m'|) && |bytes| > 0
    requires Resized(m, Live(s), m', Live(s'), ob, r, |bytes|) && ShowsBytes(m', r - 1, bytes)
    ensures r == ob.addr + 1 || r !in held
    ensures Tracks(m', Live(s'), (held - {ob.addr + 1})[r := bytes])
    ensures ob.addr + 1 in held && SameStart(held[ob.addr + 1], bytes)
  {
    var nb := Tile(r - 1, NUnits(|bytes|), true);
    ResizedStart(m, Live(s), held, m', Live(s'), ob, r, bytes);
    NewPointer(s', |m'|, Live(s) - {ob}, nb);
    TracksMoved(m, s, held, m', ob, nb, bytes);
  }

  /** A call that only added block `nb`. */
  lemma NewStep(m: Memory, f: nat, s: seq<Tile>, held: Store, m': Memory, f': nat, s': seq<Tile>, nb: Tile, bytes: seq<int>, grant: bool)
    requires Consistent(m, f, s, held) && Inv(m', f', s') && Answered(|bytes|, grant, nb.addr + 1)
    requires Added(m, s, m', s', nb, bytes)
    ensures Consistent(m', f', s', held[nb.addr + 1 := bytes])
    ensures Allocated(|bytes|, grant, held, nb.addr + 1, held[nb.addr + 1 := bytes])
  {
    NewPointer(s', |m'|, Live(s), nb);
    TracksNew(m, Live(s), held, m', nb, bytes);
    MallocPromise(held, nb.addr + 1, bytes, grant);
    UnitsConserved(s', |m'|);
  }

  /** A call that put block `nb` in the place of `ob`. */
  lemma MoveStep(m: Memory, f: nat, s: seq<Tile>, held: Store, m': Memory, f': nat, s': seq<Tile>, ob: Tile, r: nat, bytes: seq<int>, grant: bool)
    requires Consistent(m, f, s, held) && Inv(m', f', s') && ob in Live(s) && Answered(|bytes|, grant, r)
    requires Resized(m, Live(s), m', Live(s'), ob, r, |bytes|) && ShowsBytes(m', r - 1, bytes)
    ensures Consistent(m', f', s', (held - {ob.addr + 1})[r := bytes])
    ensures ob.addr + 1 in held
    ensures Reallocated(ob.addr + 1, |bytes|, grant, held, r, (held - {ob.addr + 1})[r := bytes])
  {
    ResizedTracks(m, s, held, m', s', ob, r, bytes);
    ReallocPromise(held, ob.addr + 1, r, bytes, grant);
    UnitsConserved(s', |m'|);
  }

  /** A call that only took block `ob` away. */
  lemma GoneStep(m: Memory, f: nat, s: seq<Tile>, held: Store, m': Memory, f': nat, s': seq<Tile>, ob: Tile)
    requires Consistent(m, f, s, held) && Inv(m', f', s') && ob in Live(s)
    requires Live(s') == Live(s) - {ob} && AllKept(m, m', Live(s) - {ob})
    ensures Consistent(m', f', s', held - {ob.addr + 1})
  {
    TracksGone(m, s, held, m', ob);
    UnitsConserved(s', |m'|);
  }

  // ----- the calls -----

  /** Block `nb` was added with these bytes and nothing else changed. */
  ghost predicate Added(m: Memory, s: seq<Tile>, m': Memory, s': seq<Tile>, nb: Tile, bytes: seq<int>) {
    && Live(s') == Live(s) + {nb} && nb !in Live(s) && AllKept(m, m', Live(s))
    && |bytes| > 0 && nb.size == NUnits(|bytes|) && ShowsBytes(m', nb.addr, bytes)
  }

  method MallocAndRead(h: Allocator, nbytes: nat, grant: bool) returns (r: nat, bytes: seq<int>, ghost nb: Tile)
    requires h.Valid() && nbytes <= SIZE_MAX && !Wraps(nbytes)
    modifies h
    ensures h.Valid()
    ensures r == NULL ==> h.mem == old(h.mem) && h.freep == old(h.freep) && h.tiles == old(h.tiles)
    ensures Answered(nbytes, grant, r) && (r != NULL ==> |bytes| == nbytes && r == nb.addr + 1)
    ensures r != NULL ==> Added(old(h.mem), old(h.tiles), h.mem, h.tiles, nb, bytes)
  {
    ghost var core, k;
    r, core, k := h.Malloc(nbytes, grant);
    bytes, nb := [], BASE_TILE;
    if r != NULL {
      nb := Carved(core, k, NUnits(nbytes));
      BlockBound(h.tiles, |h.mem|, nb);
      bytes := Read(h.mem, r - 1, nbytes);
    }
  }

  method StepMalloc(h: Allocator, held: Store, nbytes: nat, grant: bool) returns (r: nat, held': Store)
    requires Consistent(h.mem, h.freep, h.tiles, held) && nbytes <= SIZE_MAX && !Wraps(nbytes)
    modifies h
    ensures Consistent(h.mem, h.freep, h.tiles, held')
    ensures Promised(CallMalloc(nbytes, grant), held, r, held')
  {
    ghost var m, f, s := h.mem, h.freep, h.tiles;
    var bytes; ghost var nb;
    r, bytes, nb := MallocAndRead(h, nbytes, grant);
    NewOrNot(m, f, s, held, h.mem, h.freep, h.tiles, nb, r, nbytes, bytes, grant);
    held' := Gained(held, r, bytes);
  }

  function Gained(held: Store, r: nat, bytes: seq<int>): Store {
    if r == NULL then held else held[r := bytes]
  }

  lemma NewOrNot(m: Memory, f: nat, s: seq<Tile>, held: Store, m': Memory, f': nat, s': seq<Tile>, nb: Tile,
                 r: nat, nbytes: nat, bytes: seq<int>, grant: bool)
    requires Consistent(m, f, s, held) && Answered(nbytes, grant, r)
    requires r == NULL ==> m' == m && f' == f && s' == s
    requires r != NULL ==> Inv(m', f', s') && |bytes| == nbytes && r == nb.addr + 1 && Added(m, s, m', s', nb, bytes)
    ensures Consistent(m', f', s', Gained(held, r, bytes))
    ensures Allocated(nbytes, grant, held, r, Gained(held, r, bytes))
  {
    if r != NULL {
      NewStep(m, f, s, held, m', f', s', nb, bytes, grant);
    }
  }

  method FreeHeld(h: Allocator, ptr: nat, ghost ob: Tile)
    requires h.Valid() && ob in Live(h.tiles) && ptr == ob.addr + 1
    modifies h
    ensures h.Valid() && Live(h.tiles) == old(Live(h.tiles)) - {ob}
    ensures AllKept(old(h.mem), h.mem, old(Live(h.tiles)) - {ob})
  {
    ghost var j := LiveIndex(h.tiles, ob);
    BlockIndexIs(h.tiles, |h.mem|, j);
    h.Free(ptr);
  }

  lemma HeldBlock(m: Memory, f: nat, s: seq<Tile>, held: Store, ptr: nat) returns (ob: Tile)
    requires Consistent(m, f, s, held) && ptr in held
    ensures ob in Live(s) && ptr == ob.addr + 1
  {
    ob :| ob in Live(s) && ob.addr + 1 == ptr;
  }

  method StepFree(h: Allocator, held: Store, ptr: nat) returns (held': Store)
    requires Consistent(h.mem, h.freep, h.tiles, held)
    modifies h
    ensures Consistent(h.mem, h.freep, h.tiles, held')
    ensures Promised(CallFree(ptr), held, NULL, held')
  {
    held' := held - {ptr};
    if ptr in held {
      ghost var m, f, s := h.mem, h.freep, h.tiles;
      ghost var ob := HeldBlock(m, f, s, held, ptr);
      FreeHeld(h, ptr, ob);
      GoneStep(m, f, s, held, h.mem, h.freep, h.tiles, ob);
    } else {
      assert held' == held;
    }
  }

  method ReallocAndRead(h: Allocator, ptr: nat, nbytes: nat, grant: bool, ghost ob: Tile) returns (r: nat, bytes: seq<int>)
    requires h.Valid() && nbytes <= SIZE_MAX && !Wraps(nbytes) && ob in Live(h.tiles) && ptr == ob.addr + 1
    modifies h
    ensures h.Valid()
    ensures r == NULL ==> h.mem == old(h.mem) && h.freep == old(h.freep) && h.tiles == old(h.tiles)
    ensures Answered(nbytes, grant, r) && (r != NULL ==> |bytes| == nbytes > 0 && ShowsBytes(h.mem, r - 1, bytes))
    ensures r != NULL ==> Resized(old(h.mem), old(Live(h.tiles)), h.mem, Live(h.tiles), ob, r, nbytes)
  {
    ghost var j := LiveIndex(h.tiles, ob);
    BlockIndexIs(h.tiles, |h.mem|, j);
    bytes := [];
    var err;
    r, err := Realloc(h, ptr, nbytes, grant);
    if r != NULL {
      BlockBound(h.tiles, |h.mem|, Tile(r - 1, NUnits(nbytes), true));
      bytes := Read(h.mem, r - 1, nbytes);
    }
  }

  /** realloc of a null pointer allocates. */
  method ReallocNullAndRead(h: Allocator, nbytes: nat, grant: bool) returns (r: nat, bytes: seq<int>, ghost nb: Tile)
    requires h.Valid() && nbytes <= SIZE_MAX && !Wraps(nbytes)
    modifies h
    ensures h.Valid()
    ensures r == NULL ==> h.mem == old(h.mem) && h.freep == old(h.freep) && h.tiles == old(h.tiles)
    ensures Answered(nbytes, grant, r) && (r != NULL ==> |bytes| == nbytes && r == nb.addr + 1)
    ensures r != NULL ==> Added(old(h.mem), old(h.tiles), h.mem, h.tiles, nb, bytes)
  {
    bytes, nb := [], BASE_TILE;
    var err;
    r, err := Realloc(h, NULL, nbytes, grant);
    if r != NULL {
      nb := Tile(r - 1, NUnits(nbytes), true);
      BlockBound(h.tiles, |h.mem|, nb);
      bytes := Read(h.mem, r - 1, nbytes);
    }
  }

  method StepReallocNull(h: Allocator, held: Store, nbytes: nat, grant: bool) returns (r: nat, held': Store)
    requires Consistent(h.mem, h.freep, h.tiles, held) && nbytes <= SIZE_MAX && !Wraps(nbytes)
    modifies h
    ensures Consistent(h.mem, h.freep, h.tiles, held')
    ensures Allocated(nbytes, grant, held, r, held')
  {
    ghost var m, f, s := h.mem, h.freep, h.tiles;
    var bytes; ghost var nb;
    r, bytes, nb := ReallocNullAndRead(h, nbytes, grant);
    NewOrNot(m, f, s, held, h.mem, h.freep, h.tiles, nb, r, nbytes, bytes, grant);
    held' := Gained(held, r, bytes);
  }

  function Moved(held: Store, ptr: nat, r: nat, bytes: seq<int>): Store {
    if r == NULL then held else (held - {ptr})[r := bytes]
  }

  lemma MovedOrNot(m: Memory, f: nat, s: seq<Tile>, held: Store, m': Memory, f': nat, s': seq<Tile>, ob: Tile,
                   r: nat, nbytes: nat, bytes: seq<int>, grant: bool)
    requires Consistent(m, f, s, held) && ob in Live(s) && ob.addr + 1 in held && Answered(nbytes, grant, r)
    requires r == NULL ==> m' == m && f' == f && s' == s
    requires r != NULL ==> Inv(m', f', s') && |bytes| == nbytes && ShowsBytes(m', r - 1, bytes)
    requires r != NULL ==> Resized(m, Live(s), m', Live(s'), ob, r, nbytes)
    ensures Consistent(m', f', s', Moved(held, ob.addr + 1, r, bytes))
    ensures Reallocated(ob.addr + 1, nbytes, grant, held, r, Moved(held, ob.addr + 1, r, bytes))
  {
    if r != NULL {
      MoveStep(m, f, s, held, m', f', s', ob, r, bytes, grant);
    }
  }

  method StepReallocHeld(h: Allocator, held: Store, ptr: nat, nbytes: nat, grant: bool) returns (r: nat, held': Store)
    requires Consistent(h.mem, h.freep, h.tiles, held) && nbytes <= SIZE_MAX && !Wraps(nbytes)
    requires ptr in held && ptr != NULL
    modifies h
    ensures Consistent(h.mem, h.freep, h.tiles, held')
    ensures Reallocated(ptr, nbytes, grant, held, r, held')
  {
    ghost var m, f, s := h.mem, h.freep, h.tiles;
    ghost var ob := HeldBlock(m, f, s, held, ptr);
    var bytes;
    r, bytes := ReallocAndRead(h, ptr, nbytes, grant, ob);
    MovedOrNot(m, f, s, held, h.mem, h.freep, h.tiles, ob, r, nbytes, bytes, grant);
    held' := Moved(held, ptr, r, bytes);
  }

  method StepRealloc(h: Allocator, held: Store, ptr: nat, nbytes: nat, grant: bool) returns (r: nat, held': Store)
    requires Consistent(h.mem, h.freep, h.tiles, held) && nbytes <= SIZE_MAX && !Wraps(nbytes)
    modifies h
    ensures Consistent(h.mem, h.freep, h.tiles, held')
    ensures Promised(CallRealloc(ptr, nbytes, grant), held, r, held')
  {
    if ptr == NULL {
      r, held' := StepReallocNull(h, held, nbytes, grant);
    } else if ptr in held {
      r, held' := StepReallocHeld(h, held, ptr, nbytes, grant);
    } else {
      r, held' := NULL, held;
    }
  }

  /** The program writes into a block it holds. */
  method StepWrite(h: Allocator, held: Store, ptr: nat, i: nat, v: int) returns (held': Store)
    requires Consistent(h.mem, h.freep, h.tiles, held)
    modifies h
    ensures Consistent(h.mem, h.freep, h.tiles, held')
    ensures Promised(Write(ptr, i, v), held, NULL, held')
  {
    held' := held;
    ghost var m, s := h.mem, h.tiles;
    PointerBlock(s, ptr);
    if ptr in held && i < |held[ptr]| {
      ghost var k := BlockIndex(s, ptr - 1);
      WriteInside(m, h.freep, s, held, k, i);
      h.mem := h.mem[ptr + i / UNIT := h.mem[ptr + i / UNIT][i % UNIT := v]];
      held' := held[ptr := held[ptr][i := v]];
      PayloadInv(m, h.mem, h.freep, s, k);
      WrittenTracks(m, s, held, h.mem, k, i, v);
    }
  }

  lemma WriteInside(m: Memory, f: nat, s: seq<Tile>, held: Store, k: nat, i: nat)
    requires Consistent(m, f, s, held) && 0 < k < |s| && s[k].live
    requires s[k].addr + 1 in held && i < |held[s[k].addr + 1]|
    ensures s[k] in Live(s) && s[k].addr < s[k].addr + 1 + i / UNIT < s[k].Limit() <= |m|
  {
    assert s[k] in Live(s) && Shows(m, s[k], held);
    ReadInside(i, |held[s[k].addr + 1]|);
    TiledAt(s, BASE, |m|, k);
  }

  lemma WrittenTracks(m: Memory, s: seq<Tile>, held: Store, m': Memory, k: nat, i: nat, v: int)
    requires Whole(s, |m|) && Tracks(m, Live(s), held) && 0 < k < |s| && s[k] in Live(s)
    requires s[k].addr + 1 in held && i < |held[s[k].addr + 1]| && s[k].addr + 1 + i / UNIT < |m|
    requires var u := s[k].addr + 1 + i / UNIT; m' == m[u := m[u][i % UNIT := v]]
    requires AllKept(m, m', Live(s) - {s[k]})
    ensures var p := s[k].addr + 1; Tracks(m', Live(s), held[p := held[p][i := v]])
  {
    var ob, p := s[k], s[k].addr + 1;
    var bytes := held[p][i := v];
    assert Shows(m, ob, held);
    WrittenShows(m, ob.addr, held[p], m', i, v);
    PointersWithout(s, |m|, ob);
    TracksMoved(m, s, held, m', ob, ob, bytes);
    PutBack(Live(s), ob, held, p, bytes);
  }

  lemma PutBack(live: set<Tile>, t: Tile, held: Store, p: int, bytes: seq<int>)
    requires t in live && p in held
    ensures live - {t} + {t} == live && (held - {p})[p := bytes] == held[p := bytes]
  {
  }

  lemma MallocPromise(held: Store, r: nat, bytes: seq<int>, grant: bool)
    requires r != NULL && r !in held && Answered(|bytes|, grant, r)
    ensures Allocated(|bytes|, grant, held, r, held[r := bytes])
  {
    assert held[r := bytes] == held[r := held[r := bytes][r]];
  }

  lemma ReallocPromise(held: Store, ptr: nat, r: nat, bytes: seq<int>, grant: bool)
    requires r != NULL && ptr != NULL && ptr in held && (r == ptr || r !in held) && SameStart(held[ptr], bytes)
    requires Answered(|bytes|, grant, r)
    ensures Reallocated(ptr, |bytes|, grant, held, r, (held - {ptr})[r := bytes])
  {
    var held' := (held - {ptr})[r := bytes];
    assert held' == (held - {ptr})[r := held'[r]];
  }

  lemma WrittenShows(m: Memory, a: nat, bytes: seq<int>, m': Memory, i: nat, v: int)
    requires ShowsBytes(m, a, bytes) && i < |bytes| && a + 1 + i / UNIT < |m|
    requires var u := a + 1 + i / UNIT; m' == m[u := m[u][i % UNIT := v]]
    ensures ShowsBytes(m', a, bytes[i := v])
  {
    forall j | 0 <= j < |bytes| ensures a + 1 + j / UNIT < |m'| && Byte(m', a, j) == bytes[i := v][j] {
      assert a + 1 + j / UNIT < |m| && Byte(m, a, j) == bytes[j];
      assert j == i || j / UNIT != i / UNIT || j % UNIT != i % UNIT;
    }
  }

  method Step(h: Allocator, held: Store, c: Call) returns (r: nat, held': Store)
    requires Consistent(h.mem, h.freep, h.tiles, held) && Acceptable(c)
    modifies h
    ensures Consistent(h.mem, h.freep, h.tiles, held') && Promised(c, held, r, held')
  {
    r := NULL;
    match c {
      case CallMalloc(nbytes, grant) => r, held' := StepMalloc(h, held, nbytes, grant);
      case CallFree(ptr) => held' := StepFree(h, held, ptr);
      case CallRealloc(ptr, nbytes, grant) => r, held' := StepRealloc(h, held, ptr, nbytes, grant);
      case Write(ptr, i, v) => held' := StepWrite(h, held, ptr, i, v);
    }
  }

  /** Every call of a run kept its promise. */
  ghost predicate AllPromised(calls: seq<Call>, rs: seq<nat>, stores: seq<Store>) {
    |calls| + 1 == |stores| && |rs| == |calls| &&
    forall i :: 0 <= i < |calls| ==> Promised(calls[i], stores[i], rs[i], stores[i + 1])
  }

  /** From program start, whatever is called and however the system answers: every call does what
      the standard says to the program's memory, the free list is one ordered cycle, the blocks
      held are the live ones with the bytes last written, and no unit is lost. */
  method Run(calls: seq<Call>) returns (h: Allocator, rs: seq<nat>, stores: seq<Store>)
    requires forall i :: 0 <= i < |calls| ==> Acceptable(calls[i])
    ensures fresh(h) && AllPromised(calls, rs, stores) && stores[0] == map[]
    ensures Consistent(h.mem, h.freep, h.tiles, stores[|calls|])
  {
    h := new Allocator();
    rs, stores := [], [map[]];
    UnitsConserved(h.tiles, |h.mem|);
    assert Live(h.tiles) == {};
    for i := 0 to |calls|
      invariant fresh(h) && AllPromised(calls[..i], rs, stores) && stores[0] == map[]
      invariant Consistent(h.mem, h.freep, h.tiles, stores[i])
    {
      var r, held := Step(h, stores[i], calls[i]);
      PromiseMore(calls, i, rs, stores, r, held);
      rs, stores := rs + [r], stores + [held];
    }
    assert calls[..|calls|] == calls;
  }

  lemma PromiseMore(calls: seq<Call>, n: nat, rs: seq<nat>, stores: seq<Store>, r: nat, held: Store)
    requires n < |calls| && AllPromised(calls[..n], rs, stores) && Promised(calls[n], stores[n], r, held)
    ensures AllPromised(calls[..n + 1], rs + [r], stores + [held])
  {
  }

  /** malloc that needs no new core, then free of its result: every block list is as before. */
  method MallocFree(h: Allocator, nbytes: nat, grant: bool)
    requires h.Valid() && nbytes <= SIZE_MAX && !Wraps(nbytes)
    requires nbytes > 0 && NUnits(nbytes) * UNIT <= SIZE_MAX ==> Fits(h.tiles, NUnits(nbytes))
    modifies h
    ensures h.Valid() && h.tiles == old(h.tiles)
    ensures AllKept(old(h.mem), h.mem, Live(h.tiles))
  {
    ghost var m, s, f := h.mem, h.tiles, h.freep;
    KeptSame(m, f, s);
    ghost var core, k;
    var r;
    r, core, k := h.Malloc(nbytes, grant);
    if r != NULL {
      ghost var n, m1, s1 := NUnits(nbytes), h.mem, h.tiles;
      CarveThenRelease(s, k, n);
      BlockIndexIs(s1, |m1|, k + |Pieces(s, k, n)| - 1);
      h.Free(r);
      assert Live(s) + {Carved(s, k, n)} - {Carved(s, k, n)} == Live(s);
      KeptTwice(m, m1, h.mem, Live(s));
    }
  }
}
