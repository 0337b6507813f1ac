/** realloc: shrink, absorb the next block exactly or in part, or move. */
module HeapRealloc {
  import opened HeapTiles
  import opened HeapOps
  import opened HeapLinks
  import opened HeapSteps
  import opened Heap

  datatype Errno = NoError | EINVAL | ENOMEM

  /** Cell `i` of the payload of the block whose header is at `a`. */
  function Byte(m: Memory, a: nat, i: nat): int
    requires a + 1 + i / UNIT < |m|
  {
    m[a + 1 + i / UNIT][i % UNIT]
  }

  ghost function Smaller(a: nat, b: nat): nat {
    if a < b then a else b
  }

  /** Payload cells of a block of `size` units. */
  ghost function Payload(size: nat): nat
    requires size >= 1
  {
    (size - 1) * UNIT
  }

  lemma ByteInside(i: nat, size: nat)
    requires size >= 1 && i < Payload(size)
    ensures 1 + i / UNIT < size
  {
  }

  // ----- tiles -----

  /** Cut live tile `k` in two live tiles. */
  ghost function Halves(s: seq<Tile>, k: nat, n: nat): seq<Tile>
    requires k < |s| && 1 <= n < s[k].size
  {
    [Tile(s[k].addr, n, true), Tile(s[k].addr + n, s[k].size - n, true)]
  }

  /** Live tile `k` grown to `n` units at the expense of free tile `k + 1`. */
  ghost function Absorbed(s: seq<Tile>, k: nat, n: nat): seq<Tile>
    requires k + 1 < |s| && s[k].size < n <= s[k].size + s[k + 1].size
  {
    var avail := s[k].size + s[k + 1].size;
    if avail == n then [Tile(s[k].addr, n, true)]
    else [Tile(s[k].addr, n, true), Tile(s[k].addr + n, avail - n, false)]
  }

  lemma LinkedLiveTwo(m: Memory, t: Tile, u: Tile, cont: nat)
    requires t.addr < |m| && u.addr < |m| && t.live && u.live
    ensures Linked(m, [t, u], cont) && First([t, u], cont) == cont
  {
    assert [u][1..] == [] && [t, u][1..] == [u];
    assert First([u], cont) == cont;
    LinkedOne(m, u, cont);
  }

  lemma BlockIndexIs(s: seq<Tile>, n: nat, k: nat)
    requires Whole(s, n) && 0 < k < |s| && s[k].live
    ensures IsBlock(s, s[k].addr) && BlockIndex(s, s[k].addr) == k
  {
    Ascending(s, BASE, n);
  }

  // ----- shrink -----

  ghost predicate Halved(m: Memory, m': Memory, s: seq<Tile>, k: nat, n: nat)
    requires k < |s| && 1 <= n < s[k].size
  {
    var a, b := s[k].addr, s[k].addr + n;
    && b < |m| == |m'|
    && (forall u :: 0 <= u < |m| && u != a && u != b ==> m'[u] == m[u])
    && Size(m', a) == n && Size(m', b) == s[k].size - n
  }

  lemma HalvedWrites(m: Memory, m': Memory, s: seq<Tile>, k: nat, n: nat)
    requires Whole(s, |m|) && Linked(m, s, BASE) && 0 < k < |s| && s[k].live
    requires 1 <= n < s[k].size && Halved(m, m', s, k, n)
    ensures Writes(m, m', s, PrevFree(s, k), k, k + 1, Halves(s, k, n))
  {
    var p, mid := PrevFree(s, k), Halves(s, k, n);
    BeforePrev(s, k);
    BeforeLink(m, s, p, k);
    assert s[k..][1..] == s[k + 1..];
    TiledAt(s, BASE, |m|, k);
    TiledOrder(s, BASE, |m|, p, k);
    HalvesFit(m, m', s, k, n, First(s[k + 1..], BASE));
  }

  lemma HalvesFit(m: Memory, m': Memory, s: seq<Tile>, k: nat, n: nat, cont: nat)
    requires 0 < k < |s| && s[k].live && s[k].addr > BASE && s[k].Limit() <= |m|
    requires 1 <= n < s[k].size && Halved(m, m', s, k, n)
    ensures var mid := Halves(s, k, n);
      Tiled(mid, s[k].addr, s[k].Limit()) && Sized(m', mid) && Linked(m', mid, cont) && First(mid, cont) == cont
  {
    var mid := Halves(s, k, n);
    TiledTwo(mid[0], mid[1]);
    LinkedLiveTwo(m', mid[0], mid[1], cont);
    FirstAllLive(mid, cont);
  }

  lemma HalvedInv(m: Memory, m': Memory, freep: nat, s: seq<Tile>, k: nat, n: nat)
    requires Inv(m, freep, s) && 0 < k < |s| && s[k].live
    requires 1 <= n < s[k].size && Halved(m, m', s, k, n)
    ensures Inv(m', freep, s[..k] + Halves(s, k, n) + s[k + 1..])
    ensures AllKept(m, m', Live(s) - {s[k]})
    ensures Kept(m, m', Tile(s[k].addr, n, true))
  {
    HalvedWrites(m, m', s, k, n);
    BeforePrev(s, k);
    Spliced(m, m', s, PrevFree(s, k), k, k + 1, Halves(s, k, n));
    assert AllKept(m, m', Live(s) - {s[k]}) by {
      KeptBlocks(m, m', s, k, k + 1, {s[k]});
    }
    HalvedSeparate(s, k, n);
    OnListElsewhere(s, k, k + 1, Halves(s, k, n), freep);
  }

  lemma HalvedSeparate(s: seq<Tile>, k: nat, n: nat)
    requires Separate(s) && 0 < k < |s| && s[k].live && 1 <= n < s[k].size
    ensures Separate(s[..k] + Halves(s, k, n) + s[k + 1..])
  {
  }

  lemma HalvedLive(s: seq<Tile>, n: nat, k: nat, c: nat)
    requires Whole(s, n) && 0 < k < |s| && s[k].live && 1 <= c < s[k].size
    requires Whole(s[..k] + Halves(s, k, c) + s[k + 1..], n)
    ensures var h, t, u := s[..k] + Halves(s, k, c) + s[k + 1..], Halves(s, k, c)[0], Halves(s, k, c)[1];
            h[k + 1] == u && IsBlock(h, u.addr) && BlockIndex(h, u.addr) == k + 1 &&
            Live(h) - {u} == Live(s) - {s[k]} + {t}
  {
    var h, t, u := s[..k] + Halves(s, k, c) + s[k + 1..], Halves(s, k, c)[0], Halves(s, k, c)[1];
    assert h[k + 1] == u;
    BlockIndexIs(h, n, k + 1);
    LiveWithout(s, n, k);
    LiveWithout(h, n, k + 1);
    assert h[..k + 1] == s[..k] + [t] && h[k + 2..] == s[k + 1..];
    LiveConcat(s[..k], [t]);
    assert Live([t]) == {t};
  }

  // ----- absorb -----

  /** Header fields after growing block `k` in place by taking from free tile `k + 1`. */
  ghost predicate Grew(m: Memory, m': Memory, s: seq<Tile>, k: nat, n: nat)
    requires 0 < k && k + 1 < |s| && !s[0].live && s[k].size < n <= s[k].size + s[k + 1].size
  {
    var prev, a, b := s[PrevFree(s, k)].addr, s[k].addr, s[k].addr + n;
    var avail := s[k].size + s[k + 1].size;
    && |m'| == |m| && prev < |m| && a + avail <= |m|
    && (forall u :: 0 <= u < |m| && u != prev && u != a && u != b ==> m'[u] == m[u])
    && Size(m', prev) == Size(m, prev) && Size(m', a) == n
    && (if avail == n then
          Next(m', prev) == First(s[k + 2..], BASE) && (b < |m| ==> m'[b] == m[b])
        else
          Next(m', prev) == b && Next(m', b) == First(s[k + 2..], BASE) && Size(m', b) == avail - n)
  }

  lemma GrewWrites(m: Memory, m': Memory, s: seq<Tile>, k: nat, n: nat)
    requires Whole(s, |m|) && Linked(m, s, BASE) && 0 < k && k + 1 < |s| && s[k].live && !s[k + 1].live
    requires s[k].size < n <= s[k].size + s[k + 1].size && Grew(m, m', s, k, n)
    ensures Writes(m, m', s, PrevFree(s, k), k, k + 2, Absorbed(s, k, n))
  {
    var p, mid, rest := PrevFree(s, k), Absorbed(s, k, n), First(s[k + 2..], BASE);
    TiledAt(s, BASE, |m|, k);
    TiledOrder(s, BASE, |m|, k, k + 1);
    TiledAt(s, BASE, |m|, k + 1);
    TiledOrder(s, BASE, |m|, p, k);
    if s[k].size + s[k + 1].size == n {
      TiledOne(mid[0]);
      LinkedOne(m', mid[0], rest);
      assert [mid[0]][1..] == [];
    } else {
      TiledTwo(mid[0], mid[1]);
      LinkedTwo(m', mid[0], mid[1], rest);
      assert mid[1..] == [mid[1]];
    }
  }

  lemma AbsorbedSeparate(s: seq<Tile>, k: nat, n: nat)
    requires Separate(s) && 0 < k && k + 1 < |s| && s[k].live && !s[k + 1].live
    requires s[k].size < n <= s[k].size + s[k + 1].size
    ensures Separate(s[..k] + Absorbed(s, k, n) + s[k + 2..])
  {
  }

  lemma AbsorbedLive(s: seq<Tile>, n: nat, k: nat, c: nat)
    requires Whole(s, n) && 0 < k && k + 1 < |s| && s[k].live && !s[k + 1].live
    requires s[k].size < c <= s[k].size + s[k + 1].size
    ensures Live(s[..k] + Absorbed(s, k, c) + s[k + 2..]) == Live(s) - {s[k]} + {Tile(s[k].addr, c, true)}
  {
    LiveWithout(s, n, k);
    LiveSplice(s[..k], Absorbed(s, k, c), s[k + 2..]);
    assert s[k + 1..] == [s[k + 1]] + s[k + 2..];
    LiveConcat([s[k + 1]], s[k + 2..]);
    assert Absorbed(s, k, c)[0] == Tile(s[k].addr, c, true);
    assert Live(Absorbed(s, k, c)) == {Tile(s[k].addr, c, true)};
  }

  /** The roving pointer that realloc leaves behind after absorbing. */
  ghost function AbsorbedFreep(s: seq<Tile>, k: nat, n: nat): nat
    requires 0 < k && k + 1 < |s| && !s[0].live
  {
    if s[k].size + s[k + 1].size == n then s[PrevFree(s, k)].addr else s[k].addr + n
  }

  lemma GrewInv(m: Memory, m': Memory, freep: nat, s: seq<Tile>, k: nat, n: nat)
    requires Inv(m, freep, s) && 0 < k && k + 1 < |s| && s[k].live && !s[k + 1].live
    requires s[k].size < n <= s[k].size + s[k + 1].size && Grew(m, m', s, k, n)
    ensures Inv(m', AbsorbedFreep(s, k, n), s[..k] + Absorbed(s, k, n) + s[k + 2..])
    ensures AllKept(m, m', Live(s) - {s[k]}) && Kept(m, m', s[k])
  {
    var p := PrevFree(s, k);
    GrewWrites(m, m', s, k, n);
    BeforePrev(s, k);
    Spliced(m, m', s, p, k, k + 2, Absorbed(s, k, n));
    assert AllKept(m, m', Live(s) - {s[k]}) by {
      KeptBlocks(m, m', s, k, k + 2, {s[k]});
    }
    assert Kept(m, m', s[k]) by {
      TiledAt(s, BASE, |m|, k);
      TiledOrder(s, BASE, |m|, p, k);
    }
    AbsorbedSeparate(s, k, n);
    AbsorbedOnList(s, k, n);
  }

  lemma AbsorbedOnList(s: seq<Tile>, k: nat, n: nat)
    requires 0 < k && k + 1 < |s| && !s[0].live && s[k].size < n <= s[k].size + s[k + 1].size
    ensures OnList(s[..k] + Absorbed(s, k, n) + s[k + 2..], AbsorbedFreep(s, k, n))
  {
    var p, s' := PrevFree(s, k), s[..k] + Absorbed(s, k, n) + s[k + 2..];
    assert s'[p] == s[p];
    assert |Absorbed(s, k, n)| == 2 ==> s'[k + 1] == Absorbed(s, k, n)[1];
  }

  // ----- payload -----

  /** Writing inside a live block disturbs neither the list nor any other block. */
  lemma PayloadInv(m: Memory, m': Memory, freep: nat, s: seq<Tile>, k: nat)
    requires Inv(m, freep, s) && 0 < k < |s| && s[k].live && |m'| == |m|
    requires forall u :: 0 <= u < |m| && !(s[k].addr < u < s[k].Limit()) ==> m'[u] == m[u]
    ensures Inv(m', freep, s) && AllKept(m, m', Live(s) - {s[k]})
  {
    forall x | 0 <= x < |s| ensures s[x].addr < |m| && m'[s[x].addr] == m[s[x].addr] {
      if x < k { TiledOrder(s, BASE, |m|, x, k); } else if k < x { TiledOrder(s, BASE, |m|, k, x); }
    }
    LinkedFrame(m, m', s, BASE);
    forall x | 0 <= x < |s| && x != k ensures Kept(m, m', s[x]) {
      TiledAt(s, BASE, |m|, x);
      if x < k { TiledOrder(s, BASE, |m|, x, k); } else { TiledOrder(s, BASE, |m|, k, x); }
    }
    KeptBlocks(m, m', s, k, k + 1, {s[k]});
  }

  /** A free tile outside the splice is still on the list. */
  lemma OnListElsewhere(s: seq<Tile>, i: nat, j: nat, mid: seq<Tile>, a: nat)
    requires OnList(s, a) && i < j <= |s| && forall x :: i <= x < j ==> s[x].live
    ensures OnList(s[..i] + mid + s[j..], a)
  {
    var x :| 0 <= x < |s| && !s[x].live && s[x].addr == a;
    var r := s[..i] + mid + s[j..];
    if x < i {
      assert r[x] == s[x];
    } else {
      assert r[x - j + i + |mid|] == s[x];
    }
  }

  // ----- realloc -----

  /** Give back the right part of block `k`. */
  method Shrink(h: Allocator, oh: nat, nunits: nat, ghost k: nat)
    requires h.Valid() && 0 < k < |h.tiles| && h.tiles[k].live && h.tiles[k].addr == oh
    requires 1 <= nunits < h.tiles[k].size
    modifies h
    ensures h.Valid() && |h.mem| == old(|h.mem|)
    ensures Live(h.tiles) == old(Live(h.tiles)) - {old(h.tiles[k])} + {Tile(oh, nunits, true)}
    ensures Kept(old(h.mem), h.mem, Tile(oh, nunits, true))
    ensures AllKept(old(h.mem), h.mem, old(Live(h.tiles)) - {old(h.tiles[k])})
  {
    ghost var s, m := h.tiles, h.mem;
    TiledAt(s, BASE, |m|, k);
    var rest := oh + nunits;
    h.mem := SetSize(h.mem, rest, Size(h.mem, oh) - nunits);
    h.mem := SetSize(h.mem, oh, nunits);
    ghost var m1 := h.mem;
    assert Halved(m, m1, s, k, nunits);
    HalvedInv(m, m1, h.freep, s, k, nunits);
    HalvedLive(s, |m|, k, nunits);
    h.tiles := s[..k] + Halves(s, k, nunits) + s[k + 1..];
    h.Free(rest + 1);
    KeptTwice(m, m1, h.mem, Live(s) - {s[k]});
    KeptTwice(m, m1, h.mem, {Tile(oh, nunits, true)});
  }

  /** The writes of realloc when block `oh` grows into the free block that follows it. */
  method GrowInto(h: Allocator, oh: nat, prev: nat, nunits: nat)
    requires prev < oh < |h.mem| && 1 <= Size(h.mem, oh) < nunits
    requires var next := Next(h.mem, prev);
             next == oh + Size(h.mem, oh) && next < |h.mem| &&
             nunits <= Size(h.mem, oh) + Size(h.mem, next) && next + Size(h.mem, next) <= |h.mem|
    modifies h`mem, h`freep
    ensures var m, m', b := old(h.mem), h.mem, oh + nunits;
            var next := Next(m, prev);
            var avail := Size(m, oh) + Size(m, next);
            && |m'| == |m|
            && (forall u :: 0 <= u < |m| && u != prev && u != oh && u != b ==> m'[u] == m[u])
            && Size(m', prev) == Size(m, prev) && Size(m', oh) == nunits
            && (if avail == nunits then
                  h.freep == prev && Next(m', prev) == Next(m, next) && (b < |m| ==> m'[b] == m[b])
                else
                  h.freep == b && Next(m', prev) == b && Next(m', b) == Next(m, next) && Size(m', b) == avail - nunits)
  {
    var next := Next(h.mem, prev);
    var avail := Size(h.mem, oh) + Size(h.mem, next);
    var rest := oh + nunits;
    if avail == nunits {
      h.mem := SetSize(h.mem, oh, nunits);
      h.mem := SetNext(h.mem, prev, Next(h.mem, next));
      h.freep := prev;
    } else {
      h.mem := SetSize(h.mem, oh, nunits);
      h.mem := SetNext(h.mem, prev, rest);
      h.mem := SetNext(h.mem, rest, Next(h.mem, next));
      h.mem := SetSize(h.mem, rest, avail - nunits);
      h.freep := rest;
    }
  }

  /** Absorb free tile `k + 1`, wholly or in part. */
  method Absorb(h: Allocator, oh: nat, prev: nat, nunits: nat, ghost k: nat)
    requires h.Valid() && 0 < k && k + 1 < |h.tiles| && h.tiles[k].live && !h.tiles[k + 1].live
    requires h.tiles[k].addr == oh && prev == h.tiles[PrevFree(h.tiles, k)].addr
    requires h.tiles[k].size < nunits <= h.tiles[k].size + h.tiles[k + 1].size
    modifies h
    ensures h.Valid() && |h.mem| == old(|h.mem|)
    ensures Live(h.tiles) == old(Live(h.tiles)) - {old(h.tiles[k])} + {Tile(oh, nunits, true)}
    ensures Kept(old(h.mem), h.mem, old(h.tiles[k]))
    ensures AllKept(old(h.mem), h.mem, old(Live(h.tiles)) - {old(h.tiles[k])})
  {
    ghost var s, m, f := h.tiles, h.mem, h.freep;
    AbsorbReads(m, f, s, k);
    GrowInto(h, oh, prev, nunits);
    assert Grew(m, h.mem, s, k, nunits);
    GrewInv(m, h.mem, f, s, k, nunits);
    AbsorbedLive(s, |m|, k, nunits);
    h.tiles := s[..k] + Absorbed(s, k, nunits) + s[k + 2..];
  }

  lemma AbsorbReads(m: Memory, freep: nat, s: seq<Tile>, k: nat)
    requires Inv(m, freep, s) && 0 < k && k + 1 < |s| && s[k].live && !s[k + 1].live
    ensures var prev, next := s[PrevFree(s, k)].addr, s[k + 1].addr;
            prev < s[k].addr < |m| && s[k].size >= 1 && Next(m, prev) == next == s[k].addr + s[k].size && next < |m| &&
            Size(m, next) == s[k + 1].size && Size(m, s[k].addr) == s[k].size &&
            next + s[k + 1].size <= |m| && Next(m, next) == First(s[k + 2..], BASE)
  {
    PrevReads(m, freep, s, k);
    JoinNextTest(s, |m|, k);
    FollowLink(m, s, k + 1);
    TiledAt(s, BASE, |m|, k);
    TiledAt(s, BASE, |m|, k + 1);
    TiledOrder(s, BASE, |m|, k, k + 1);
  }

  /** memcpy between the payloads of two disjoint blocks of `ds` and `ss` units. */
  method CopyBytes(m: Memory, dst: nat, ghost ds: nat, src: nat, ghost ss: nat, n: nat) returns (r: Memory)
    requires ds >= 1 && ss >= 1 && dst + ds <= |m| && src + ss <= |m|
    requires dst + ds <= src || src + ss <= dst
    requires n <= Payload(ds) && n <= Payload(ss)
    ensures |r| == |m|
    ensures forall u :: 0 <= u < |m| && !(dst < u < dst + ds) ==> r[u] == m[u]
    ensures SameBytes(m, src, r, dst, n)
  {
    r := m;
    var i := 0;
    while i < n
      invariant 0 <= i <= n && |r| == |m|
      invariant forall u :: 0 <= u < |m| && !(dst < u < dst + ds) ==> r[u] == m[u]
      invariant SameBytes(m, src, r, dst, i)
    {
      ByteInside(i, ds);
      ByteInside(i, ss);
      var u := dst + 1 + i / UNIT;
      ghost var w := r;
      r := r[u := r[u][i % UNIT := Byte(m, src, i)]];
      CopyStep(m, src, w, r, dst, i);
      i := i + 1;
    }
  }

  /** The first `n` payload cells of one block equal those of another, both in bounds. */
  ghost predicate SameBytes(m: Memory, a: nat, m': Memory, a': nat, n: nat) {
    forall i :: 0 <= i < n ==>
      a + 1 + i / UNIT < |m| && a' + 1 + i / UNIT < |m'| && Byte(m', a', i) == Byte(m, a, i)
  }

  lemma CopyStep(m: Memory, a: nat, w: Memory, r: Memory, a': nat, i: nat)
    requires SameBytes(m, a, w, a', i) && a + 1 + i / UNIT < |m| && a' + 1 + i / UNIT < |w|
    requires r == w[a' + 1 + i / UNIT := w[a' + 1 + i / UNIT][i % UNIT := Byte(m, a, i)]]
    ensures SameBytes(m, a, r, a', i + 1)
  {
    forall j | 0 <= j < i + 1
      ensures a + 1 + j / UNIT < |m| && a' + 1 + j / UNIT < |r| && Byte(r, a', j) == Byte(m, a, j)
    {
      if j < i {
        assert a + 1 + j / UNIT < |m| && a' + 1 + j / UNIT < |w| && Byte(w, a', j) == Byte(m, a, j);
        assert j / UNIT != i / UNIT || j % UNIT != i % UNIT;
      }
    }
  }

  lemma KeptBytes(m: Memory, m': Memory, t: Tile, n: nat)
    requires Kept(m, m', t) && t.size >= 1 && n <= Payload(t.size)
    ensures SameBytes(m, t.addr, m', t.addr, n)
  {
    forall i | 0 <= i < n
      ensures t.addr + 1 + i / UNIT < |m| && Byte(m', t.addr, i) == Byte(m, t.addr, i)
    {
      ByteInside(i, t.size);
    }
  }

  lemma SameBytesChain(m: Memory, a: nat, m1: Memory, a1: nat, m2: Memory, a2: nat, n: nat)
    requires SameBytes(m, a, m1, a1, n) && SameBytes(m1, a1, m2, a2, n)
    ensures SameBytes(m, a, m2, a2, n)
  {
    forall i | 0 <= i < n
      ensures a + 1 + i / UNIT < |m| && a2 + 1 + i / UNIT < |m2| && Byte(m2, a2, i) == Byte(m, a, i)
    {
      assert Byte(m1, a1, i) == Byte(m, a, i);
    }
  }

  lemma LiveIndex(s: seq<Tile>, t: Tile) returns (j: nat)
    requires t in Live(s) && |s| > 0 && !s[0].live
    ensures 0 < j < |s| && s[j] == t
  {
    j :| 0 <= j < |s| && s[j] == t;
  }

  lemma BlocksApart(s: seq<Tile>, n: nat, i: nat, j: nat)
    requires Whole(s, n) && 0 < i < |s| && 0 < j < |s| && i != j
    ensures s[i].size >= 1 && s[j].size >= 1 && s[i].End() <= n && s[j].End() <= n
    ensures s[i].End() <= s[j].addr || s[j].End() <= s[i].addr
  {
    TiledAt(s, BASE, n, i);
    TiledAt(s, BASE, n, j);
    if i < j { TiledOrder(s, BASE, n, i, j); } else { TiledOrder(s, BASE, n, j, i); }
  }

  /** Through malloc, memcpy and free, the bystanders and the copied bytes survive. */
  lemma MoveKept(m0: Memory, m1: Memory, m2: Memory, m3: Memory, live: set<Tile>, ob: Tile, nb: Tile, n: nat)
    requires ob in live && nb !in live && ob.size >= 1 && nb.size >= 1
    requires n <= Payload(ob.size) && n <= Payload(nb.size)
    requires AllKept(m0, m1, live) && AllKept(m1, m2, live + {nb} - {nb}) && AllKept(m2, m3, live + {nb} - {ob})
    requires SameBytes(m1, ob.addr, m2, nb.addr, n)
    ensures AllKept(m0, m3, live - {ob})
    ensures SameBytes(m0, ob.addr, m3, nb.addr, n)
  {
    assert live + {nb} - {nb} == live;
    KeptTwice(m0, m1, m2, live);
    KeptTwice(m0, m2, m3, live - {ob});
    assert Kept(m0, m1, ob) && Kept(m2, m3, nb);
    KeptBytes(m0, m1, ob, n);
    KeptBytes(m2, m3, nb, n);
    SameBytesChain(m0, ob.addr, m1, ob.addr, m2, nb.addr, n);
    SameBytesChain(m0, ob.addr, m2, nb.addr, m3, nb.addr, n);
  }

  /** Copy the old block `ob` into the new block `nb` and free it. */
  method CopyAndFree(h: Allocator, dst: nat, ptr: nat, nbytes: nat, ghost ob: Tile, ghost nb: Tile)
    returns (ghost mid: Memory)
    requires h.Valid() && ob in Live(h.tiles) && nb in Live(h.tiles) && ob != nb
    requires ptr == ob.addr + 1 && dst == nb.addr + 1
    requires 1 <= ob.size && Payload(ob.size) <= nbytes && 1 <= nb.size && nbytes <= Payload(nb.size)
    modifies h
    ensures h.Valid() && Live(h.tiles) == old(Live(h.tiles)) - {ob} && dst != ptr
    ensures AllKept(old(h.mem), mid, old(Live(h.tiles)) - {nb})
    ensures SameBytes(old(h.mem), ob.addr, mid, nb.addr, Payload(ob.size))
    ensures AllKept(mid, h.mem, old(Live(h.tiles)) - {ob})
  {
    ghost var m1, s1, f1 := h.mem, h.tiles, h.freep;
    ghost var i := LiveIndex(s1, ob);
    ghost var j := LiveIndex(s1, nb);
    BlocksApart(s1, |m1|, i, j);
    BlockIndexIs(s1, |m1|, i);
    var n := (Size(h.mem, ptr - 1) - 1) * UNIT;
    if n > nbytes {
      n := nbytes;
    }
    h.mem := CopyBytes(h.mem, dst - 1, nb.size, ptr - 1, ob.size, n);
    mid := h.mem;
    PayloadInv(m1, mid, f1, s1, j);
    h.Free(ptr);
  }

  /** malloc of a request that can be counted, seen from the blocks. */
  method NewBlock(h: Allocator, nbytes: nat, grant: bool) returns (r: nat)
    requires h.Valid() && 0 < nbytes <= SIZE_MAX && NUnits(nbytes) * UNIT <= SIZE_MAX
    modifies h
    ensures h.Valid()
    ensures r == NULL <==> !grant && !Fits(old(h.tiles), NUnits(nbytes))
    ensures r == NULL ==> h.mem == old(h.mem) && h.freep == old(h.freep) && h.tiles == old(h.tiles)
    ensures r != NULL ==>
              var nb := Tile(r - 1, NUnits(nbytes), true);
              Live(h.tiles) == old(Live(h.tiles)) + {nb} && nb !in old(Live(h.tiles)) &&
              AllKept(old(h.mem), h.mem, old(Live(h.tiles)))
  {
    ghost var core, k;
    WrapExactly(nbytes);
    r, core, k := h.Malloc(nbytes, grant);
  }

  /** Allocate elsewhere, copy, and free the old block `ob`. */
  method Move(h: Allocator, ptr: nat, nbytes: nat, grant: bool, ghost ob: Tile) returns (r: nat)
    requires h.Valid() && 0 < nbytes <= SIZE_MAX && NUnits(nbytes) * UNIT <= SIZE_MAX
    requires ob in Live(h.tiles) && ptr == ob.addr + 1 && 1 <= ob.size < NUnits(nbytes)
    modifies h
    ensures h.Valid()
    ensures r == NULL <==> !grant && !Fits(old(h.tiles), NUnits(nbytes))
    ensures r == NULL ==> h.mem == old(h.mem) && h.freep == old(h.freep) && h.tiles == old(h.tiles)
    ensures r != ptr
    ensures r != NULL ==>
              var nb := Tile(r - 1, NUnits(nbytes), true);
              Live(h.tiles) == old(Live(h.tiles)) - {ob} + {nb} && nb !in old(Live(h.tiles)) &&
              SameBytes(old(h.mem), ob.addr, h.mem, nb.addr, Payload(ob.size)) &&
              AllKept(old(h.mem), h.mem, old(Live(h.tiles)) - {ob})
  {
    ghost var m0, live := h.mem, Live(h.tiles);
    r := NewBlock(h, nbytes, grant);
    if r == NULL {
      return;
    }
    ghost var m1, nb := h.mem, Tile(r - 1, NUnits(nbytes), true);
    ghost var m2 := CopyAndFree(h, r, ptr, nbytes, ob, nb);
    assert live + {nb} - {ob} == live - {ob} + {nb};
    MoveKept(m0, m1, m2, h.mem, live, ob, nb, Payload(ob.size));
  }

  /** Live blocks with the same address are the same block. */
  lemma LiveByAddress(s: seq<Tile>, n: nat, t: Tile, u: Tile)
    requires Whole(s, n) && t in Live(s) && u in Live(s) && t.addr == u.addr
    ensures t == u
  {
    var i := LiveIndex(s, t);
    var j := LiveIndex(s, u);
    if i != j {
      BlocksApart(s, n, i, j);
    }
  }

  /** The block can stay where it is. */
  ghost predicate InPlace(s: seq<Tile>, k: nat, n: nat)
    requires k < |s|
  {
    n <= s[k].size || (k + 1 < |s| && !s[k + 1].live && n <= s[k].size + s[k + 1].size)
  }

  /** What realloc promises when it returns `r` for the block `ob`. */
  ghost predicate Resized(m: Memory, live: set<Tile>, m': Memory, live': set<Tile>, ob: Tile, r: nat, nbytes: nat) {
    nbytes > 0 && r > 0 && ob.size >= 1 &&
    var nb := Tile(r - 1, NUnits(nbytes), true);
    live' == live - {ob} + {nb} && nb !in live - {ob} &&
    SameBytes(m, ob.addr, m', nb.addr, Smaller(Payload(ob.size), nbytes)) &&
    AllKept(m, m', live - {ob})
  }

  lemma ResizeReads(m: Memory, freep: nat, s: seq<Tile>, k: nat)
    requires Inv(m, freep, s) && 0 < k < |s| && s[k].live
    ensures s[k].addr < |m| && Size(m, s[k].addr) == s[k].size >= 1 && s[k] in Live(s)
    ensures var prev := s[PrevFree(s, k)].addr;
            prev < |m| && 0 <= Next(m, prev) < |m| &&
            (s[k].addr + s[k].size == Next(m, prev) <==> k + 1 < |s| && !s[k + 1].live) &&
            (k + 1 < |s| && !s[k + 1].live ==> Size(m, Next(m, prev)) == s[k + 1].size)
  {
    PrevReads(m, freep, s, k);
    JoinNextTest(s, |m|, k);
    TiledAt(s, BASE, |m|, k);
  }

  /** A block that stays where it is meets no other block. */
  lemma SameAddress(s: seq<Tile>, n: nat, ob: Tile, size: nat)
    requires Whole(s, n) && ob in Live(s)
    ensures Tile(ob.addr, size, true) !in Live(s) - {ob}
  {
    var nb := Tile(ob.addr, size, true);
    if nb in Live(s) {
      LiveByAddress(s, n, nb, ob);
    }
  }

  /** realloc of block `k`, once the request has been found acceptable. */
  method Resize(h: Allocator, ptr: nat, nbytes: nat, grant: bool, ghost k: nat) returns (r: nat)
    requires h.Valid() && 0 < nbytes <= SIZE_MAX && NUnits(nbytes) * UNIT <= SIZE_MAX
    requires 0 < k < |h.tiles| && h.tiles[k].live && h.tiles[k].addr + 1 == ptr
    modifies h
    ensures h.Valid()
    ensures r == NULL ==> h.mem == old(h.mem) && h.freep == old(h.freep) && h.tiles == old(h.tiles)
    ensures var s, n := old(h.tiles), NUnits(nbytes);
            (r == NULL <==> !InPlace(s, k, n) && !grant && !Fits(s, n)) &&
            (r == ptr <==> InPlace(s, k, n))
    ensures r != NULL ==> Resized(old(h.mem), old(Live(h.tiles)), h.mem, Live(h.tiles), old(h.tiles[k]), r, nbytes)
  {
    ghost var m, s, ob := h.mem, h.tiles, h.tiles[k];
    ResizeReads(m, h.freep, s, k);
    var nunits := NUnits(nbytes);
    SameAddress(s, |m|, ob, nunits);
    var oh := ptr - 1;
    if Size(h.mem, oh) == nunits {
      KeptSame(m, h.freep, s);
      KeptBytes(m, m, ob, Smaller(Payload(ob.size), nbytes));
      return ptr;
    }
    if nunits < Size(h.mem, oh) {
      Shrink(h, oh, nunits, k);
      KeptBytes(m, h.mem, Tile(oh, nunits, true), nbytes);
      return ptr;
    }
    var prev := h.PrevChunk(oh, k);
    var next := Next(h.mem, prev);
    if oh + Size(h.mem, oh) == next && nunits <= Size(h.mem, oh) + Size(h.mem, next) {
      Absorb(h, oh, prev, nunits, k);
      KeptBytes(m, h.mem, ob, Payload(ob.size));
      return ptr;
    }
    r := Move(h, ptr, nbytes, grant, ob);
  }

  /** The whole of realloc.  On every path the caller keeps the first bytes of the block, gets
      room for `nbytes`, and no other block is touched; on failure nothing changes at all. */
  method Realloc(h: Allocator, ptr: nat, nbytes: nat, grant: bool) returns (r: nat, err: Errno)
    requires h.Valid() && nbytes <= SIZE_MAX && !Wraps(nbytes)
    requires ptr != NULL ==> IsBlock(h.tiles, ptr - 1)
    modifies h
    ensures h.Valid()
    ensures err == if nbytes == 0 then EINVAL else if NUnits(nbytes) * UNIT > SIZE_MAX then ENOMEM else NoError
    ensures r == NULL ==> h.mem == old(h.mem) && h.freep == old(h.freep) && h.tiles == old(h.tiles)
    ensures err != NoError ==> r == NULL
    ensures err == NoError && ptr == NULL ==>
              (r == NULL <==> !grant && !Fits(old(h.tiles), NUnits(nbytes)))
    ensures err == NoError && ptr != NULL ==>
              var s, k, n := old(h.tiles), BlockIndex(old(h.tiles), ptr - 1), NUnits(nbytes);
              var stays := s[k].size >= n || (k + 1 < |s| && !s[k + 1].live && s[k].size + s[k + 1].size >= n);
              (r == NULL <==> !stays && !grant && !Fits(s, n)) && (r == ptr <==> stays)
    ensures r != NULL && ptr == NULL ==>
              var nb := Tile(r - 1, NUnits(nbytes), true);
              Live(h.tiles) == old(Live(h.tiles)) + {nb} && nb !in old(Live(h.tiles)) &&
              AllKept(old(h.mem), h.mem, old(Live(h.tiles)))
    ensures r != NULL && ptr != NULL ==>
              Resized(old(h.mem), old(Live(h.tiles)), h.mem, Live(h.tiles),
                      old(h.tiles)[BlockIndex(old(h.tiles), ptr - 1)], r, nbytes)
  {
    r, err := NULL, NoError;
    if nbytes == 0 {
      return NULL, EINVAL;
    }
    WrapExactly(nbytes);
    if nbytes > SIZE_MAX - UNIT - 1 {
      return NULL, ENOMEM;
    }
    if ptr == NULL {
      ghost var core, k;
      r, core, k := h.Malloc(nbytes, grant);
      return;
    }
    r := Resize(h, ptr, nbytes, grant, BlockIndex(h.tiles, ptr - 1));
  }
}
