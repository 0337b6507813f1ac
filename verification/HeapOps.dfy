/** What malloc, free and sbrk do to the tiles, with no pointers in sight. */
module HeapOps {
  import opened HeapTiles

  /** First tile swallowed when tile `k` is freed; `base` swallows nothing. */
  ghost function Lo(s: seq<Tile>, k: nat): nat
    requires k < |s|
  {
    if k > 1 && !s[k - 1].live then k - 1 else k
  }

  /** One past the last tile swallowed when tile `k` is freed. */
  ghost function Hi(s: seq<Tile>, k: nat): nat
    requires k < |s|
  {
    if k + 1 < |s| && !s[k + 1].live then k + 2 else k + 1
  }

  ghost function Joined(s: seq<Tile>, k: nat): Tile
    requires k < |s|
  {
    var size := s[k].size + if Hi(s, k) == k + 2 then s[k + 1].size else 0;
    if Lo(s, k) == k then Tile(s[k].addr, size, false)
    else Tile(s[k - 1].addr, s[k - 1].size + size, false)
  }

  /** Free tile `k` and join it with a free neighbour on either side (malloc.c, free). */
  ghost function Release(s: seq<Tile>, k: nat): seq<Tile>
    requires k < |s|
  {
    s[..Lo(s, k)] + [Joined(s, k)] + s[Hi(s, k)..]
  }

  /** The block that malloc takes: `n` units at the right end of free tile `k`. */
  ghost function Carved(s: seq<Tile>, k: nat, n: nat): Tile
    requires k < |s| && 1 <= n <= s[k].size
  {
    Tile(s[k].End() - n, n, true)
  }

  /** What becomes of free tile `k`. */
  ghost function Pieces(s: seq<Tile>, k: nat, n: nat): seq<Tile>
    requires k < |s| && 1 <= n <= s[k].size
  {
    if s[k].size == n then [Carved(s, k, n)]
    else [Tile(s[k].addr, s[k].size - n, false), Carved(s, k, n)]
  }

  ghost function Carve(s: seq<Tile>, k: nat, n: nat): seq<Tile>
    requires k < |s| && 1 <= n <= s[k].size
  {
    s[..k] + Pieces(s, k, n) + s[k + 1..]
  }

  // ----- splicing -----

  lemma TiledOne(t: Tile)
    requires t.size >= 1
    ensures Tiled([t], t.addr, t.End())
  {
    assert [t][1..] == [];
  }

  lemma TiledTwo(t: Tile, u: Tile)
    requires t.size >= 1 && u.size >= 1 && t.End() == u.addr
    ensures Tiled([t, u], t.addr, u.End())
  {
    TiledOne(u);
    assert [t, u][1..] == [u];
  }

  /** Replacing tiles `i` to `j - 1` by others that cover the same units. */
  lemma WholeSplice(s: seq<Tile>, n: nat, i: nat, j: nat, mid: seq<Tile>)
    requires Whole(s, n) && 0 < i < j <= |s|
    requires Tiled(mid, s[i].addr, s[j - 1].Limit())
    ensures Whole(s[..i] + mid + s[j..], n)
  {
    TiledAt(s, BASE, n, i);
    TiledAt(s, BASE, n, j - 1);
    TiledConcat(s[..i], mid, BASE, s[i].addr, s[j - 1].Limit());
    TiledConcat(s[..i] + mid, s[j..], BASE, s[j - 1].Limit(), n);
  }

  lemma LiveConcat(s: seq<Tile>, t: seq<Tile>)
    ensures Live(s + t) == Live(s) + Live(t)
  {
  }

  lemma LiveSplice(p: seq<Tile>, mid: seq<Tile>, q: seq<Tile>)
    ensures Live(p + mid + q) == Live(p) + Live(mid) + Live(q)
  {
    LiveConcat(p, mid);
    LiveConcat(p + mid, q);
  }

  /** A tile occurs once only, so removing its position removes it from the set. */
  lemma LiveWithout(s: seq<Tile>, n: nat, k: nat)
    requires Whole(s, n) && k < |s|
    ensures Live(s[..k]) + Live(s[k + 1..]) == Live(s) - {s[k]}
  {
    assert s == s[..k] + [s[k]] + s[k + 1..];
    LiveSplice(s[..k], [s[k]], s[k + 1..]);
    Ascending(s, BASE, n);
    assert s[k] !in s[..k] && s[k] !in s[k + 1..];
  }

  // ----- free -----

  lemma JoinedBounds(s: seq<Tile>, n: nat, k: nat)
    requires Whole(s, n) && 0 < k < |s|
    ensures Joined(s, k).addr == s[Lo(s, k)].addr && Joined(s, k).Limit() == s[Hi(s, k) - 1].Limit()
    ensures Joined(s, k).size >= s[k].size >= 1
  {
    TiledAt(s, BASE, n, k);
    TiledOrder(s, BASE, n, k - 1, k);
    TiledAt(s, BASE, n, k - 1);
    if k + 1 < |s| {
      TiledOrder(s, BASE, n, k, k + 1);
      TiledAt(s, BASE, n, k + 1);
    }
  }

  lemma ReleaseSeparate(s: seq<Tile>, k: nat)
    requires Separate(s) && 0 < k < |s| && s[k].live
    ensures Separate(Release(s, k))
  {
  }

  lemma ReleaseLive(s: seq<Tile>, n: nat, k: nat)
    requires Whole(s, n) && 0 < k < |s|
    ensures Live(Release(s, k)) == Live(s) - {s[k]}
  {
    LiveWithout(s, n, k);
    LiveOutside(s, k);
    LiveSplice(s[..Lo(s, k)], [Joined(s, k)], s[Hi(s, k)..]);
  }

  lemma LiveOutside(s: seq<Tile>, k: nat)
    requires k < |s|
    ensures Live(s[..Lo(s, k)]) == Live(s[..k]) && Live(s[Hi(s, k)..]) == Live(s[k + 1..])
  {
    if Lo(s, k) < k {
      assert s[..k] == s[..k - 1] + [s[k - 1]];
      LiveConcat(s[..k - 1], [s[k - 1]]);
    }
    if Hi(s, k) > k + 1 {
      assert s[k + 1..] == [s[k + 1]] + s[k + 2..];
      LiveConcat([s[k + 1]], s[k + 2..]);
    }
  }

  // ----- malloc -----

  lemma CarveSeparate(s: seq<Tile>, k: nat, c: nat)
    requires Separate(s) && 0 < k < |s| && 1 <= c <= s[k].size && !s[k].live
    ensures Separate(Carve(s, k, c))
  {
  }

  /** The new block joins the live blocks, all of which remain. */
  lemma CarveLive(s: seq<Tile>, n: nat, k: nat, c: nat)
    requires Whole(s, n) && k < |s| && 1 <= c <= s[k].size && !s[k].live
    ensures Live(Carve(s, k, c)) == Live(s) + {Carved(s, k, c)}
  {
    LiveWithout(s, n, k);
    LiveSplice(s[..k], Pieces(s, k, c), s[k + 1..]);
    assert Pieces(s, k, c)[|Pieces(s, k, c)| - 1] == Carved(s, k, c);
    assert Live(Pieces(s, k, c)) == {Carved(s, k, c)};
  }

  /** The new block was free space: it overlaps no block that was live before. */
  lemma CarvedDisjoint(s: seq<Tile>, n: nat, k: nat, c: nat, t: Tile)
    requires Whole(s, n) && k < |s| && 1 <= c <= s[k].size && !s[k].live && t in Live(s)
    ensures t.Limit() <= Carved(s, k, c).addr || Carved(s, k, c).End() <= t.addr
  {
    var j :| 0 <= j < |s| && s[j] == t;
    if j < k { TiledOrder(s, BASE, n, j, k); } else { TiledOrder(s, BASE, n, k, j); }
  }

  /** malloc without new core followed by free of its result restores every block. */
  lemma CarveThenRelease(s: seq<Tile>, k: nat, c: nat)
    requires Separate(s) && 0 < k < |s| && !s[k].live && 1 <= c <= s[k].size
    ensures var r := Carve(s, k, c);
            var j := k + |Pieces(s, k, c)| - 1;
            j < |r| && r[j] == Carved(s, k, c) && Release(r, j) == s
  {
    var r := Carve(s, k, c);
    if s[k].size == c {
      assert r[..k] == s[..k] && r[k + 1..] == s[k + 1..];
      assert k > 1 ==> r[k - 1] == s[k - 1];
      assert k + 1 < |r| ==> r[k + 1] == s[k + 1];
      assert Joined(r, k) == s[k];
    } else {
      assert r[..k] == s[..k] && r[k + 2..] == s[k + 1..];
      assert k + 2 < |r| ==> r[k + 2] == s[k + 1];
      assert Joined(r, k + 1) == s[k];
    }
  }

  // ----- the free list is determined by the set of free units -----

  ghost function FreeBlocks(s: seq<Tile>): seq<Tile> {
    if s == [] then []
    else if s[0].live then FreeBlocks(s[1..]) else [s[0]] + FreeBlocks(s[1..])
  }

  ghost predicate Within(t: Tile, u: nat) {
    t.addr <= u < t.End()
  }

  ghost function Range(t: Tile): set<nat> {
    set u: nat | u < t.End() && Within(t, u)
  }

  ghost function FreeUnits(s: seq<Tile>): set<nat> {
    if s == [] then {}
    else (if s[0].live then {} else Range(s[0])) + FreeUnits(s[1..])
  }

  /** Non-empty blocks from `lo` up, with at least one unit between two of them. */
  ghost predicate Gapped(f: seq<Tile>, lo: nat) {
    f == [] || (lo <= f[0].addr && f[0].size >= 1 && !f[0].live && Gapped(f[1..], f[0].End() + 1))
  }

  lemma {:induction false} UnitsOfFreeBlocks(s: seq<Tile>)
    ensures FreeUnits(FreeBlocks(s)) == FreeUnits(s)
  {
    if s != [] {
      UnitsOfFreeBlocks(s[1..]);
      if !s[0].live {
        assert ([s[0]] + FreeBlocks(s[1..]))[1..] == FreeBlocks(s[1..]);
      }
    }
  }

  lemma GappedWeaken(f: seq<Tile>, lo: nat, lo': nat)
    requires Gapped(f, lo) && lo' <= lo
    ensures Gapped(f, lo')
  {
  }

  lemma {:induction false} FreeBlocksGapped(s: seq<Tile>, a: nat, b: nat)
    requires Tiled(s, a, b) && a > BASE
    requires forall i :: 0 < i < |s| ==> s[i - 1].live || s[i].live
    ensures Gapped(FreeBlocks(s), a)
    ensures s != [] && s[0].live ==> Gapped(FreeBlocks(s), a + 1)
  {
    if s != [] {
      assert forall i :: 0 <= i < |s[1..]| ==> s[1..][i] == s[i + 1];
      FreeBlocksGapped(s[1..], s[0].Limit(), b);
      var f := FreeBlocks(s[1..]);
      if s[0].live {
        GappedWeaken(f, s[0].Limit(), a + 1);
        GappedWeaken(f, s[0].Limit(), a);
      } else {
        assert ([s[0]] + f)[1..] == f;
        assert |s| > 1 ==> s[1..][0].live;
      }
    }
  }

  lemma {:induction false} UnitsAbove(f: seq<Tile>, lo: nat)
    requires Gapped(f, lo)
    ensures forall u :: u in FreeUnits(f) ==> lo <= u
    ensures f != [] ==> f[0].addr in FreeUnits(f) && f[0].End() !in FreeUnits(f)
  {
    if f != [] {
      UnitsAbove(f[1..], f[0].End() + 1);
      assert f[0].addr in Range(f[0]);
    }
  }

  lemma {:induction false} UnitsDetermine(f: seq<Tile>, g: seq<Tile>, lo: nat)
    requires Gapped(f, lo) && Gapped(g, lo) && FreeUnits(f) == FreeUnits(g)
    ensures f == g
    decreases |f|
  {
    UnitsAbove(f, lo);
    UnitsAbove(g, lo);
    if f != [] && g != [] {
      UnitsAbove(f[1..], f[0].End() + 1);
      UnitsAbove(g[1..], g[0].End() + 1);
      assert f[0].addr in Range(g[0]) && g[0].addr in Range(f[0]);
      assert f[0].End() !in Range(g[0]) && g[0].End() !in Range(f[0]);
      assert !Within(g[0], f[0].End()) && !Within(f[0], g[0].End());
      assert f[0] == g[0];
      assert FreeUnits(f[1..]) == FreeUnits(f) - Range(f[0]);
      assert FreeUnits(g[1..]) == FreeUnits(g) - Range(g[0]);
      UnitsDetermine(f[1..], g[1..], f[0].End() + 1);
      assert f == [f[0]] + f[1..] && g == [g[0]] + g[1..];
    }
  }

  /** Coalescing is canonical: equal sets of free units give equal free lists. */
  lemma FreeListCanonical(s: seq<Tile>, n: nat, t: seq<Tile>, o: nat)
    requires Whole(s, n) && Whole(t, o) && Separate(s) && Separate(t)
    ensures FreeUnits(s) == FreeUnits(t) <==> FreeBlocks(s) == FreeBlocks(t)
  {
    var x, y := s[1..], t[1..];
    assert FreeBlocks(s) == [BASE_TILE] + FreeBlocks(x) && FreeBlocks(t) == [BASE_TILE] + FreeBlocks(y);
    assert FreeUnits(s) == FreeUnits(x) && FreeUnits(t) == FreeUnits(y);
    UnitsOfFreeBlocks(x);
    UnitsOfFreeBlocks(y);
    FreeBlocksGapped(x, ORIGIN, n);
    FreeBlocksGapped(y, ORIGIN, o);
    if FreeUnits(s) == FreeUnits(t) {
      UnitsDetermine(FreeBlocks(x), FreeBlocks(y), ORIGIN);
    } else {
      assert FreeBlocks(x) != FreeBlocks(y);
      assert FreeBlocks(s)[1..] == FreeBlocks(x) && FreeBlocks(t)[1..] == FreeBlocks(y);
    }
  }
}
