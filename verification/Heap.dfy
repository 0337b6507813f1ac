/** The allocator itself: `_prevchunk`, `free`, `sbrk`, `morecore` and `malloc`. */
module Heap {
  import opened HeapTiles
  import opened HeapOps
  import opened HeapLinks
  import opened HeapSteps

  const NALLOC: nat := 16
  const SIZE_MAX: nat := 0xFFFF_FFFF_FFFF_FFFF

  /** One unit for the header plus enough units for `nbytes`. */
  function NUnits(nbytes: nat): (n: nat)
    requires nbytes > 0
    ensures n >= 2 && (n - 1) * UNIT >= nbytes && (n - 2) * UNIT < nbytes
  {
    (nbytes + UNIT - 1) / UNIT + 1
  }

  /** The requests that the guard of malloc and realloc refuses outright. */
  predicate Refused(nbytes: nat) {
    nbytes == 0 || nbytes > SIZE_MAX - UNIT - 1
  }

  /** The requests the guard lets through although their size in bytes exceeds SIZE_MAX. */
  predicate Wraps(nbytes: nat) {
    SIZE_MAX - 2 * UNIT + 1 < nbytes <= SIZE_MAX - UNIT - 1
  }

  /** Exactly those requests reach sbrk with a byte count that wraps, and it wraps to zero; and no
      request whose size in bytes can be counted is refused. */
  lemma WrapExactly(nbytes: nat)
    requires 0 < nbytes <= SIZE_MAX
    ensures NUnits(nbytes) * UNIT > SIZE_MAX <==> Wraps(nbytes) || Refused(nbytes)
    ensures Refused(nbytes) <==> nbytes > SIZE_MAX - 17
    ensures Wraps(nbytes) <==> SIZE_MAX - 30 <= nbytes <= SIZE_MAX - 17
    ensures Wraps(nbytes) ==> NUnits(nbytes) * UNIT % (SIZE_MAX + 1) == 0
  {
    var q := (nbytes + UNIT - 1) / UNIT;
    assert q * UNIT <= nbytes + UNIT - 1 < q * UNIT + UNIT;
    assert NUnits(nbytes) * UNIT == q * UNIT + UNIT;
  }

  const CLEAR: Unit := [0, 0, 0, 0, 0, 0, 0, 0, 0, 0, 0, 0, 0, 0, 0, 0]

  /** A free tile of at least `n` units. */
  ghost predicate Fits(s: seq<Tile>, n: nat) {
    exists x :: 0 <= x < |s| && !s[x].live && s[x].size >= n
  }

  /** No free tile of `n` units lies strictly between tiles `f` and `k` on the cycle. */
  ghost predicate NoneBetween(s: seq<Tile>, f: nat, k: nat, n: nat) {
    if f < k then forall x :: f < x < k && x < |s| ==> s[x].live || s[x].size < n
    else forall x :: 0 <= x < |s| && (f < x || x < k) ==> s[x].live || s[x].size < n
  }

  ghost predicate Fit(s: seq<Tile>, k: nat, n: nat) {
    0 < k < |s| && !s[0].live && !s[k].live && 1 <= n <= s[k].size
  }

  /** Tile `k` is the first fit met when searching the cycle from the block at `freep`. */
  ghost predicate NextFit(s: seq<Tile>, freep: nat, k: nat, n: nat) {
    Fit(s, k, n) && exists f :: 0 <= f < |s| && s[f].addr == freep && NoneBetween(s, f, k, n)
  }

  /** The search stops at a free block that is large enough, and passed over none on the way round
      the cycle. */
  lemma FitMeans(s: seq<Tile>, freep: nat, k: nat, n: nat)
    requires 1 <= n
    ensures Fits(s, n) <==> exists x :: 0 <= x < |s| && !s[x].live && s[x].size >= n
    ensures 0 < k < |s| && !s[0].live && !s[k].live && s[k].size >= n <==> Fit(s, k, n)
    ensures NextFit(s, freep, k, n) ==>
      exists f :: 0 <= f < |s| && s[f].addr == freep &&
        forall x :: 0 <= x < |s| && x != k && x != f && (if f < k then f < x < k else x > f || x < k) ==>
          s[x].live || s[x].size < n
  {
    if NextFit(s, freep, k, n) {
      var f :| 0 <= f < |s| && s[f].addr == freep && NoneBetween(s, f, k, n);
      assert forall x :: 0 <= x < |s| && x != k && x != f && (if f < k then f < x < k else x > f || x < k) ==>
          s[x].live || s[x].size < n;
    }
  }

  ghost predicate IsBlock(s: seq<Tile>, a: nat) {
    exists k :: 0 < k < |s| && s[k].live && s[k].addr == a
  }

  ghost function BlockIndex(s: seq<Tile>, a: nat): (k: nat)
    requires IsBlock(s, a)
    ensures 0 < k < |s| && s[k].live && s[k].addr == a
  {
    var k :| 0 < k < |s| && s[k].live && s[k].addr == a;
    k
  }

  ghost function Larger(a: nat, b: nat): nat {
    if a < b then b else a
  }

  /** The heap after the break moved by `n` units: a new block, released at once. */
  ghost function Grown(s: seq<Tile>, brk: nat, n: nat): seq<Tile> {
    Release(s + [Tile(brk, n, true)], |s|)
  }

  lemma GrowInv(m: Memory, m': Memory, freep: nat, s: seq<Tile>, n: nat)
    requires Inv(m, freep, s) && n >= 1 && |m'| == |m| + n
    requires forall u :: 0 <= u < |m| ==> m'[u] == m[u]
    requires Size(m', |m|) == n
    ensures Inv(m', freep, s + [Tile(|m|, n, true)])
    ensures AllKept(m, m', Live(s))
  {
    var t := Tile(|m|, n, true);
    TiledOne(t);
    TiledConcat(s, [t], BASE, |m|, |m| + n);
    LinkedFrame(m, m', s, BASE);
    LinkedOne(m', t, BASE);
    assert [t][1..] == [];
    assert First([t], BASE) == BASE;
    LinkedConcat(m', s, [t], BASE);
    var i :| 0 <= i < |s| && !s[i].live && s[i].addr == freep;
    assert (s + [t])[i] == s[i];
    forall b | b in Live(s) ensures Kept(m, m', b) {
      var x :| 0 <= x < |s| && s[x] == b;
      TiledAt(s, BASE, |m|, x);
    }
  }

  /** After growing, the last tile is the only one that fits and it does fit. */
  lemma GrownFits(s: seq<Tile>, brk: nat, n: nat, w: nat)
    requires |s| > 0 && s[0] == BASE_TILE && !Fits(s, w) && w >= 1 && n >= w
    ensures var g := Grown(s, brk, n);
            var k := |g| - 1;
            0 < k && !g[k].live && g[k].size >= w &&
            (forall x :: 0 <= x < k ==> g[x].live || g[x].size < w) &&
            PrevFree(s + [Tile(brk, n, true)], |s|) < |g|
  {
    var e := s + [Tile(brk, n, true)];
    var g := Grown(s, brk, n);
    assert e[|s|..] == [Tile(brk, n, true)];
    assert Hi(e, |s|) == |s| + 1;
    assert forall x :: 0 <= x < |s| ==> e[x] == s[x];
    assert forall x :: 0 <= x < |g| - 1 ==> g[x] == s[x];
    assert g[|g| - 1] == Joined(e, |s|);
  }

  lemma EmptyInv(m: Memory)
    requires |m| == ORIGIN && Next(m, BASE) == BASE && Size(m, BASE) == 0
    ensures Inv(m, BASE, [BASE_TILE])
  {
    var s := [BASE_TILE];
    assert s[1..] == [];
    assert Tiled(s, BASE, ORIGIN);
    LinkedOne(m, BASE_TILE, BASE);
    assert s[0].addr == BASE;
  }

  /** The predecessor's link as `free` reads it. */
  lemma PrevReads(m: Memory, freep: nat, s: seq<Tile>, k: nat)
    requires Inv(m, freep, s) && 0 < k < |s| && s[k].live
    ensures var prev, hp := s[PrevFree(s, k)].addr, s[k].addr;
            BASE <= prev < hp < |m| && hp != Next(m, prev) && BASE <= Next(m, prev) < |m|
    ensures Next(m, s[PrevFree(s, k)].addr) == First(s[k..], BASE)
  {
    var p := PrevFree(s, k);
    BeforePrev(s, k);
    BeforeLink(m, s, p, k);
    TiledAt(s, BASE, |m|, p);
    TiledOrder(s, BASE, |m|, p, k);
    FirstAtIndex(s, k, BASE);
    var j := FirstIndex(s, k);
    if j < |s| { TiledAt(s, BASE, |m|, j); TiledOrder(s, BASE, |m|, k, j); }
  }

  /** The header fields written by the second half of free, in terms of what it reads. */
  ghost predicate Inserted(m: Memory, m': Memory, hp: nat, prev: nat)
    requires prev < |m| && hp < |m| && 0 <= Next(m, prev) < |m|
  {
    var next := Next(m, prev);
    var touch := hp + Size(m, hp) == next;
    var hsize := Size(m, hp) + if touch then Size(m, next) else 0;
    var hnext := if touch then Next(m, next) else next;
    && |m'| == |m|
    && (forall u :: 0 <= u < |m| && u != prev && u != hp ==> m'[u] == m[u])
    && (if prev + Size(m, prev) == hp then
          Size(m', prev) == Size(m, prev) + hsize && Next(m', prev) == hnext
        else
          Size(m', prev) == Size(m, prev) && Next(m', prev) == hp &&
          Size(m', hp) == hsize && Next(m', hp) == hnext)
  }

  lemma InsertedFreed(m: Memory, m': Memory, freep: nat, s: seq<Tile>, k: nat)
    requires Inv(m, freep, s) && 0 < k < |s| && s[k].live
    requires var prev, hp := s[PrevFree(s, k)].addr, s[k].addr;
             prev < |m| && hp < |m| && 0 <= Next(m, prev) < |m| && Inserted(m, m', hp, prev)
    ensures Freed(m, m', s, k)
  {
    TouchReads(m, freep, s, k);
    JoinPrevTest(s, |m|, k);
    assert Size(m, s[PrevFree(s, k)].addr) == s[PrevFree(s, k)].size;
  }

  /** Size and link of the block after looking at its right neighbour. */
  lemma TouchReads(m: Memory, freep: nat, s: seq<Tile>, k: nat)
    requires Inv(m, freep, s) && 0 < k < |s| && s[k].live
    ensures var prev, hp := s[PrevFree(s, k)].addr, s[k].addr;
            prev < |m| && hp < |m| && 0 <= Next(m, prev) < |m| &&
            var next := Next(m, prev);
            var touch := hp + Size(m, hp) == next;
            Size(m, hp) + (if touch then Size(m, next) else 0)
              == s[k].size + (if Hi(s, k) == k + 2 then s[k + 1].size else 0) &&
            (if touch then Next(m, next) else next) == First(s[Hi(s, k)..], BASE)
  {
    PrevReads(m, freep, s, k);
    JoinNextTest(s, |m|, k);
    if Hi(s, k) == k + 2 { FollowLink(m, s, k + 1); }
  }

  // ----- the search of malloc -----

  /** The search stands at `i`, having met no fit since it left `f`; `wrapped` once past base. */
  ghost predicate Searching(s: seq<Tile>, f: nat, i: nat, wrapped: bool, n: nat) {
    && f < |s| && i < |s| && !s[f].live && !s[i].live
    && (if wrapped then
          i < f && forall x :: 0 <= x < |s| && (f < x || x <= i) ==> s[x].live || s[x].size < n
        else
          f <= i && forall x :: f < x <= i ==> s[x].live || s[x].size < n)
  }

  /** What one turn of the search reads. */
  lemma SearchReads(m: Memory, freep: nat, s: seq<Tile>, f: nat, i: nat)
    requires Inv(m, freep, s) && f < |s| && i < |s| && !s[i].live && s[f].addr == freep
    ensures s[i].addr < |m|
    ensures var j := NextIndex(s, i);
            Next(m, s[i].addr) == s[j].addr && s[j].addr < |m| && Size(m, s[j].addr) == s[j].size &&
            (s[j].addr == freep <==> j == f)
  {
    var j := NextIndex(s, i);
    FollowLink(m, s, i);
    if j < f { TiledOrder(s, BASE, |m|, j, f); } else if f < j { TiledOrder(s, BASE, |m|, f, j); }
  }

  lemma SearchStep(s: seq<Tile>, f: nat, i: nat, wrapped: bool, n: nat)
    requires Searching(s, f, i, wrapped, n) && !s[0].live
    requires var j := NextIndex(s, i); s[j].size < n && j != f
    ensures var j := NextIndex(s, i); Searching(s, f, j, wrapped || j <= i, n) && (wrapped ==> j > i)
  {
  }

  lemma SearchEnd(s: seq<Tile>, f: nat, i: nat, wrapped: bool, n: nat)
    requires Searching(s, f, i, wrapped, n) && !s[0].live
    requires NextIndex(s, i) == f && s[f].size < n
    ensures !Fits(s, n)
  {
  }

  lemma SearchFound(s: seq<Tile>, f: nat, i: nat, wrapped: bool, n: nat)
    requires Searching(s, f, i, wrapped, n) && s[0] == BASE_TILE && n >= 1
    requires s[NextIndex(s, i)].size >= n
    ensures var j := NextIndex(s, i);
            0 < j && !s[j].live && NoneBetween(s, f, j, n) && PrevFree(s, j) == i
  {
  }

  /** The header fields written when `n` units are taken from free block `cur` after `prev`. */
  ghost predicate Took(m: Memory, m': Memory, prev: nat, cur: nat, n: nat)
    requires prev < |m| && cur < |m| && 1 <= n <= Size(m, cur) && cur + Size(m, cur) <= |m|
  {
    var b := cur + Size(m, cur) - n;
    && |m'| == |m|
    && (forall u :: 0 <= u < |m| && u != prev && u != cur && u != b ==> m'[u] == m[u])
    && Size(m', prev) == Size(m, prev) && Size(m', b) == n
    && (if Size(m, cur) == n then Next(m', prev) == Next(m, cur)
        else Next(m', prev) == Next(m, prev) && Size(m', cur) == Size(m, cur) - n && Next(m', cur) == Next(m, cur))
  }

  lemma TookTaken(m: Memory, m': Memory, freep: nat, s: seq<Tile>, k: nat, n: nat)
    requires Inv(m, freep, s) && 0 < k < |s| && !s[k].live && 1 <= n <= s[k].size
    requires var prev, cur := s[PrevFree(s, k)].addr, s[k].addr;
             prev < |m| && cur < |m| && n <= Size(m, cur) && cur + Size(m, cur) <= |m| &&
             Took(m, m', prev, cur, n)
    ensures Taken(m, m', s, k, n)
  {
    FollowLink(m, s, k);
  }

  lemma TakeReads(m: Memory, freep: nat, s: seq<Tile>, k: nat)
    requires Inv(m, freep, s) && 0 < k < |s| && !s[k].live
    ensures var prev, cur := s[PrevFree(s, k)].addr, s[k].addr;
            prev < cur < |m| && Size(m, cur) == s[k].size >= 1 && cur + Size(m, cur) <= |m| &&
            prev < cur + Size(m, cur)
  {
    TiledAt(s, BASE, |m|, k);
    TiledOrder(s, BASE, |m|, PrevFree(s, k), k);
  }

  class Allocator {
    var mem: Memory
    var freep: nat
    ghost var tiles: seq<Tile>

    ghost predicate Valid()
      reads this
    {
      Inv(mem, freep, tiles)
    }

    constructor ()
      ensures Valid() && tiles == [BASE_TILE] && freep == BASE && |mem| == ORIGIN
    {
      mem := [CLEAR, CLEAR[0 := BASE]];
      freep := BASE;
      tiles := [BASE_TILE];
      new;
      EmptyInv(mem);
    }

    /** Run over the free list for the nearest free block below live block `k`. */
    method PrevChunk(hp: nat, ghost k: nat) returns (p: nat)
      requires Valid() && 0 < k < |tiles| && tiles[k].live && tiles[k].addr == hp
      ensures p == tiles[PrevFree(tiles, k)].addr
    {
      p := freep;
      ghost var i: nat :| 0 <= i < |tiles| && !tiles[i].live && tiles[i].addr == freep;
      FollowLink(mem, tiles, i);
      while !(p < hp && hp < Next(mem, p)) && !(Next(mem, p) <= p && (hp < Next(mem, p) || hp > p))
        invariant i < |tiles| && !tiles[i].live && tiles[i].addr == p < |mem|
        invariant Next(mem, p) == tiles[NextIndex(tiles, i)].addr
        decreases i > PrevFree(tiles, k), |tiles| - i
      {
        WalkStep(tiles, |mem|, k, i);
        p := Next(mem, p);
        i := NextIndex(tiles, i);
        FollowLink(mem, tiles, i);
      }
      WalkStop(tiles, |mem|, k, i);
    }

    /** The second half of free: link header `hp` behind `prev`, joining where blocks touch. */
    method Insert(hp: nat, prev: nat)
      requires prev < |mem| && hp < |mem| && prev != hp
      requires 0 <= Next(mem, prev) < |mem| && Next(mem, prev) != hp
      modifies this`mem
      ensures Inserted(old(mem), mem, hp, prev)
    {
      var next := Next(mem, prev);
      if hp + Size(mem, hp) == next {
        mem := SetSize(mem, hp, Size(mem, hp) + Size(mem, next));
        mem := SetNext(mem, hp, Next(mem, next));
      } else {
        mem := SetNext(mem, hp, next);
      }
      if prev + Size(mem, prev) == hp {
        mem := SetSize(mem, prev, Size(mem, prev) + Size(mem, hp));
        mem := SetNext(mem, prev, Next(mem, hp));
      } else {
        mem := SetNext(mem, prev, hp);
      }
    }

    /** Return a block to the list and join it with its free neighbours. */
    method Free(ptr: nat)
      requires Valid()
      requires ptr != NULL ==> IsBlock(tiles, ptr - 1)
      modifies this
      ensures Valid() && |mem| == old(|mem|)
      ensures ptr == NULL ==> mem == old(mem) && freep == old(freep) && tiles == old(tiles)
      ensures ptr != NULL ==>
                var s, k := old(tiles), BlockIndex(old(tiles), ptr - 1);
                tiles == Release(s, k) && freep == s[PrevFree(s, k)].addr &&
                Live(tiles) == Live(s) - {s[k]} &&
                AllKept(old(mem), mem, Live(s) - {s[k]})
    {
      if ptr == NULL {
        return;
      }
      ghost var s, k, m, f := tiles, BlockIndex(tiles, ptr - 1), mem, freep;
      var hp := ptr - 1;
      var prev := PrevChunk(hp, k);
      PrevReads(m, f, s, k);
      Insert(hp, prev);
      freep := prev;

      tiles := Release(s, k);
      InsertedFreed(m, mem, f, s, k);
      FreedInv(m, mem, f, s, k);
      ReleaseLive(s, |m|, k);
    }

    /** Ask the system for at least `nunits` units; `grant` is its answer. */
    method MoreCore(nunits: nat, grant: bool) returns (p: nat)
      requires Valid() && nunits >= 1
      modifies this
      ensures Valid() && (p == NULL <==> !grant)
      ensures !grant ==> mem == old(mem) && freep == old(freep) && tiles == old(tiles)
      ensures grant ==>
                var s, n, b := old(tiles), Larger(nunits, NALLOC), old(|mem|);
                p == freep == s[PrevFree(s + [Tile(b, n, true)], |s|)].addr &&
                tiles == Grown(s, b, n) && |mem| == b + n && Live(tiles) == Live(s)
      ensures AllKept(old(mem), mem, old(Live(tiles)))
    {
      ghost var s, m0, f := tiles, mem, freep;
      var n := nunits;
      if n < NALLOC {
        n := NALLOC;
      }
      if !grant {
        KeptSame(m0, f, s);
        return NULL;
      }
      var hp := |mem|;
      mem := mem + seq(n, _ => CLEAR);
      mem := SetSize(mem, hp, n);
      ghost var m1, e := mem, s + [Tile(hp, n, true)];
      GrowInv(m0, m1, f, s, n);
      GrowBlock(s, Tile(hp, n, true), |m1|);
      tiles := e;
      Free(hp + 1);
      KeptTwice(m0, m1, mem, Live(s));
      p := freep;
    }

    /** The writes of malloc: unlink or split free block `cur`, which follows `prev`. */
    method Split(prev: nat, cur: nat, nunits: nat) returns (b: nat)
      requires prev < cur < |mem| && 1 <= nunits <= Size(mem, cur) && cur + Size(mem, cur) <= |mem|
      modifies this`mem
      ensures Took(old(mem), mem, prev, cur, nunits)
      ensures b == cur + old(Size(mem, cur)) - nunits
    {
      b := cur;
      if Size(mem, b) == nunits {
        mem := SetNext(mem, prev, Next(mem, b));
      } else {
        mem := SetSize(mem, b, Size(mem, b) - nunits);
        b := b + Size(mem, b);
        mem := SetSize(mem, b, nunits);
      }
      mem := SetNext(mem, b, NULL);
    }

    /** Take `nunits` units from free tile `k`. */
    method Take(prev: nat, cur: nat, nunits: nat, ghost k: nat) returns (b: nat)
      requires Valid() && 0 < k < |tiles| && !tiles[k].live && 1 <= nunits <= tiles[k].size
      requires cur == tiles[k].addr && prev == tiles[PrevFree(tiles, k)].addr
      modifies this
      ensures Valid() && |mem| == old(|mem|)
      ensures tiles == Carve(old(tiles), k, nunits) && freep == prev
      ensures b == Carved(old(tiles), k, nunits).addr
      ensures Live(tiles) == old(Live(tiles)) + {Carved(old(tiles), k, nunits)}
      ensures Carved(old(tiles), k, nunits) !in old(Live(tiles))
      ensures AllKept(old(mem), mem, old(Live(tiles)))
    {
      ghost var s, m, f := tiles, mem, freep;
      TakeReads(m, f, s, k);
      b := Split(prev, cur, nunits);
      freep := prev;
      TookTaken(m, mem, f, s, k, nunits);
      TakenInv(m, mem, f, s, k, nunits);
      tiles := Carve(s, k, nunits);
      CarveLive(s, |m|, k, nunits);
      NewBlock(s, |m|, k, nunits);
    }

    /** One lap of malloc's loop: stop before the first fit `k` after the roving pointer. */
    method Lap(nunits: nat) returns (found: bool, prev: nat, ghost k: nat)
      requires Valid() && nunits >= 1
      ensures found <==> Fits(tiles, nunits)
      ensures found ==> NextFit(tiles, freep, k, nunits) && prev == tiles[PrevFree(tiles, k)].addr
    {
      prev, k := freep, 0;
      ghost var f: nat :| 0 <= f < |tiles| && !tiles[f].live && tiles[f].addr == freep;
      ghost var i, wrapped := f, false;
      while true
        invariant Searching(tiles, f, i, wrapped, nunits)
        invariant tiles[i].addr == prev
        decreases !wrapped, |tiles| - i
      {
        SearchReads(mem, freep, tiles, f, i);
        var cur := Next(mem, prev);
        k := NextIndex(tiles, i);
        if Size(mem, cur) >= nunits {
          SearchFound(tiles, f, i, wrapped, nunits);
          return true, prev, k;
        }
        if cur == freep {
          SearchEnd(tiles, f, i, wrapped, nunits);
          return false, prev, k;
        }
        SearchStep(tiles, f, i, wrapped, nunits);
        wrapped := wrapped || k <= i;
        i, prev := k, cur;
      }
    }

    /** The loop of malloc, a lap at a time: new core is asked for at most once. */
    method Search(nunits: nat, grant: bool) returns (found: bool, prev: nat, ghost k: nat)
      requires Valid() && nunits >= 1
      modifies this
      ensures Valid()
      ensures found <==> grant || Fits(old(tiles), nunits)
      ensures !found ==> mem == old(mem) && freep == old(freep) && tiles == old(tiles)
      ensures found ==> Fit(tiles, k, nunits) && prev == tiles[PrevFree(tiles, k)].addr
      ensures Fits(old(tiles), nunits) ==> mem == old(mem) && tiles == old(tiles) &&
                                           NextFit(tiles, old(freep), k, nunits)
      ensures found && !Fits(old(tiles), nunits) ==>
                var n := Larger(nunits, NALLOC);
                tiles == Grown(old(tiles), old(|mem|), n) && k == |tiles| - 1 && |mem| == old(|mem|) + n
      ensures Live(tiles) == old(Live(tiles)) && AllKept(old(mem), mem, old(Live(tiles)))
    {
      ghost var s0, b0, grown := tiles, |mem|, false;
      KeptSame(mem, freep, tiles);
      while true
        invariant Valid()
        invariant !grown ==> tiles == s0 && mem == old(mem) && freep == old(freep)
        invariant grown ==> grant && !Fits(s0, nunits) && Fits(tiles, nunits) &&
                            tiles == Grown(s0, b0, Larger(nunits, NALLOC)) &&
                            |mem| == b0 + Larger(nunits, NALLOC)
        invariant Live(tiles) == Live(s0) && AllKept(old(mem), mem, Live(s0))
        decreases !grown
      {
        found, prev, k := Lap(nunits);
        if found {
          if grown { GrownOnly(s0, b0, Larger(nunits, NALLOC), nunits, k); }
          return;
        }
        var core := MoreCore(nunits, grant);
        if core == NULL {
          return;
        }
        ghost var _ := GrownFreep(s0, b0, Larger(nunits, NALLOC), nunits);
        grown := true;
      }
    }

    /** Allocate.  `core` is the heap that was searched last and `k` the tile that was used. */
    method Malloc(nbytes: nat, grant: bool) returns (r: nat, ghost core: seq<Tile>, ghost k: nat)
      requires Valid() && nbytes <= SIZE_MAX && !Wraps(nbytes)
      modifies this
      ensures Valid()
      ensures r == NULL <==>
                nbytes == 0 || NUnits(nbytes) * UNIT > SIZE_MAX || (!grant && !Fits(old(tiles), NUnits(nbytes)))
      ensures r == NULL ==> mem == old(mem) && freep == old(freep) && tiles == old(tiles)
      ensures r != NULL ==>
                var n := NUnits(nbytes);
                Fit(core, k, n) && tiles == Carve(core, k, n) &&
                freep == core[PrevFree(core, k)].addr && r == Carved(core, k, n).addr + 1 &&
                Live(tiles) == old(Live(tiles)) + {Carved(core, k, n)} && Carved(core, k, n) !in old(Live(tiles))
      ensures r != NULL && Fits(old(tiles), NUnits(nbytes)) ==>
                core == old(tiles) && |mem| == old(|mem|) && NextFit(core, old(freep), k, NUnits(nbytes))
      ensures r != NULL && !Fits(old(tiles), NUnits(nbytes)) ==>
                var n := Larger(NUnits(nbytes), NALLOC);
                core == Grown(old(tiles), old(|mem|), n) && k == |core| - 1 && |mem| == old(|mem|) + n
      ensures AllKept(old(mem), mem, old(Live(tiles)))
    {
      ghost var m0 := mem;
      r, core, k := NULL, tiles, 0;
      if nbytes > 0 { WrapExactly(nbytes); }
      if nbytes == 0 || nbytes > SIZE_MAX - UNIT - 1 {
        KeptSame(m0, freep, tiles);
        return;
      }
      var nunits := NUnits(nbytes);
      var found, prev;
      found, prev, k := Search(nunits, grant);
      if !found {
        return;
      }
      core := tiles;
      ghost var m1 := mem;
      BeforePrev(tiles, k);
      BeforeLink(mem, tiles, PrevFree(tiles, k), k);
      var b := Take(prev, Next(mem, prev), nunits, k);
      KeptTwice(m0, m1, mem, Live(core));
      r := b + 1;
    }
  }

  lemma KeptSame(m: Memory, freep: nat, s: seq<Tile>)
    requires Inv(m, freep, s)
    ensures AllKept(m, m, Live(s))
  {
    forall b | b in Live(s) ensures Kept(m, m, b) {
      var x :| 0 <= x < |s| && s[x] == b;
      TiledAt(s, BASE, |m|, x);
    }
  }

  /** The block got from the break is the last one, and all others are as before. */
  lemma GrowBlock(s: seq<Tile>, t: Tile, n: nat)
    requires Whole(s + [t], n) && t.live && |s| > 0 && !s[0].live
    ensures var e := s + [t];
            IsBlock(e, t.addr) && BlockIndex(e, t.addr) == |s| && e[|s|] == t &&
            Live(e) - {t} == Live(s) &&
            PrevFree(e, |s|) < |s| && e[PrevFree(e, |s|)] == s[PrevFree(e, |s|)] &&
            s[PrevFree(e, |s|)].addr >= BASE
  {
    var e := s + [t];
    assert e[|s|] == t;
    Ascending(e, BASE, n);
    assert e[..|s|] == s && e[|s| + 1..] == [];
    LiveWithout(e, n, |s|);
    TiledAt(e, BASE, n, PrevFree(e, |s|));
  }

  lemma KeptTwice(m: Memory, m1: Memory, m2: Memory, blocks: set<Tile>)
    requires AllKept(m, m1, blocks) && AllKept(m1, m2, blocks)
    ensures AllKept(m, m2, blocks)
  {
    forall t | t in blocks ensures Kept(m, m2, t) {
      assert Kept(m, m1, t) && Kept(m1, m2, t);
    }
  }

  /** A block taken from a free tile was not live before. */
  lemma NewBlock(s: seq<Tile>, n: nat, k: nat, c: nat)
    requires Whole(s, n) && 0 < k < |s| && 1 <= c <= s[k].size && !s[k].live
    ensures Carved(s, k, c) !in Live(s)
  {
    if Carved(s, k, c) in Live(s) {
      CarvedDisjoint(s, n, k, c, Carved(s, k, c));
    }
  }

  /** Where the roving pointer is after growing. */
  lemma GrownFreep(s: seq<Tile>, brk: nat, n: nat, w: nat) returns (f: nat)
    requires Whole(s, brk) && !Fits(s, w) && w >= 1 && n >= w
    ensures var g := Grown(s, brk, n);
            f < |g| && !g[f].live && g[f].addr == s[PrevFree(s + [Tile(brk, n, true)], |s|)].addr && Fits(g, w)
  {
    var e := s + [Tile(brk, n, true)];
    f := PrevFree(e, |s|);
    GrownFits(s, brk, n, w);
    var g := Grown(s, brk, n);
    assert f < |s| && e[f] == s[f];
    if Lo(e, |s|) < |s| {
      assert f == |s| - 1 && g[f] == Joined(e, |s|);
    } else {
      assert g[f] == s[f];
    }
  }

  lemma GrownOnly(s: seq<Tile>, brk: nat, n: nat, w: nat, k: nat)
    requires |s| > 0 && s[0] == BASE_TILE && !Fits(s, w) && w >= 1 && n >= w
    requires k < |Grown(s, brk, n)| && !Grown(s, brk, n)[k].live && Grown(s, brk, n)[k].size >= w
    ensures k == |Grown(s, brk, n)| - 1
  {
    GrownFits(s, brk, n, w);
  }
}
