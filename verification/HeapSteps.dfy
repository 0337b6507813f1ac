/** The pointer updates of free, malloc and realloc realise the operations on tiles. */
module HeapSteps {
  import opened HeapTiles
  import opened HeapOps
  import opened HeapLinks

  lemma BeforePrev(s: seq<Tile>, k: nat)
    requires 0 < k <= |s| && !s[0].live
    ensures Before(s, PrevFree(s, k), k)
  {
  }

  /** Every live block keeps its payload, given that the untouched tiles do. */
  lemma KeptBlocks(m: Memory, m': Memory, s: seq<Tile>, i: nat, j: nat, gone: set<Tile>)
    requires forall x :: 0 <= x < |s| && !(i <= x < j) ==> Kept(m, m', s[x])
    requires forall x :: i <= x < j && x < |s| && s[x].live ==> s[x] in gone
    ensures AllKept(m, m', Live(s) - gone)
  {
    forall t | t in Live(s) - gone ensures Kept(m, m', t) {
      var x :| 0 <= x < |s| && s[x] == t;
    }
  }

  // ----- _prevchunk -----

  /** Where `_prevchunk` goes on, it moves towards the predecessor. */
  lemma WalkStep(s: seq<Tile>, n: nat, k: nat, i: nat)
    requires Whole(s, n) && 0 < k < |s| && s[k].live && i < |s| && !s[i].live
    requires var p, q, hp := s[i].addr, s[NextIndex(s, i)].addr, s[k].addr;
             !(p < hp && hp < q) && !(q <= p && (hp < q || hp > p))
    ensures var j, t := NextIndex(s, i), PrevFree(s, k);
            !s[j].live && ((i <= t && i < j <= t) || (i > t && (j <= t || j > i)))
  {
    Ascending(s, BASE, n);
  }

  /** Where `_prevchunk` stops, it is at the predecessor. */
  lemma WalkStop(s: seq<Tile>, n: nat, k: nat, i: nat)
    requires Whole(s, n) && 0 < k < |s| && s[k].live && i < |s| && !s[i].live
    requires var p, q, hp := s[i].addr, s[NextIndex(s, i)].addr, s[k].addr;
             (p < hp && hp < q) || (q <= p && (hp < q || hp > p))
    ensures i == PrevFree(s, k)
  {
    Ascending(s, BASE, n);
    assert i < k;
  }

  // ----- free -----

  /** The address test of free finds exactly a free right neighbour. */
  lemma JoinNextTest(s: seq<Tile>, n: nat, k: nat)
    requires Whole(s, n) && 0 < k < |s| && s[k].live
    ensures s[k].End() == First(s[k..], BASE) <==> Hi(s, k) == k + 2
    ensures Hi(s, k) == k + 2 ==> First(s[k..], BASE) == s[k + 1].addr
    ensures Hi(s, k) == k + 1 ==> First(s[k..], BASE) == First(s[k + 1..], BASE)
  {
    FirstAtIndex(s, k, BASE);
    TiledAt(s, BASE, n, k);
    var j := FirstIndex(s, k);
    if j < |s| {
      TiledOrder(s, BASE, n, k, j);
    }
    assert s[k..][1..] == s[k + 1..];
  }

  /** The address test of free finds exactly a free left neighbour other than `base`. */
  lemma JoinPrevTest(s: seq<Tile>, n: nat, k: nat)
    requires Whole(s, n) && 0 < k < |s|
    ensures s[PrevFree(s, k)].End() == s[k].addr <==> Lo(s, k) < k
    ensures Lo(s, k) < k ==> PrevFree(s, k) == k - 1
  {
    var p := PrevFree(s, k);
    TiledAt(s, BASE, n, p);
    TiledOrder(s, BASE, n, p, k);
  }

  /** The four header fields that free leaves behind. */
  ghost predicate Freed(m: Memory, m': Memory, s: seq<Tile>, k: nat)
    requires 0 < k < |s| && !s[0].live
  {
    var prev, hp, t := s[PrevFree(s, k)].addr, s[k].addr, Joined(s, k);
    && |m'| == |m| && prev < |m| && hp < |m|
    && (forall u :: 0 <= u < |m| && u != prev && u != hp ==> m'[u] == m[u])
    && (if Lo(s, k) < k then
          Size(m', prev) == t.size && Next(m', prev) == First(s[Hi(s, k)..], BASE)
        else
          Size(m', prev) == Size(m, prev) && Next(m', prev) == hp &&
          Size(m', hp) == t.size && Next(m', hp) == First(s[Hi(s, k)..], BASE))
  }

  lemma FreedWrites(m: Memory, m': Memory, s: seq<Tile>, k: nat)
    requires Whole(s, |m|) && Linked(m, s, BASE) && 0 < k < |s| && Freed(m, m', s, k)
    ensures Writes(m, m', s, PrevFree(s, Lo(s, k)), Lo(s, k), Hi(s, k), [Joined(s, k)])
  {
    var lo, hi, t, p := Lo(s, k), Hi(s, k), Joined(s, k), PrevFree(s, Lo(s, k));
    JoinPrevTest(s, |m|, k);
    JoinedBounds(s, |m|, k);
    BeforePrev(s, lo);
    BeforeLink(m, s, p, lo);
    LinkedOne(m', t, First(s[hi..], BASE));
    TiledOne(t);
    TiledOrder(s, BASE, |m|, p, lo);
    if hi - 1 > k { TiledOrder(s, BASE, |m|, k, hi - 1); }
    if lo < k { TiledOrder(s, BASE, |m|, lo, k); }
    TiledAt(s, BASE, |m|, k);
  }

  /** free: the list with the block joined in, every other block untouched. */
  lemma FreedInv(m: Memory, m': Memory, freep: nat, s: seq<Tile>, k: nat)
    requires Inv(m, freep, s) && 0 < k < |s| && s[k].live && Freed(m, m', s, k)
    ensures Inv(m', s[PrevFree(s, k)].addr, Release(s, k))
    ensures AllKept(m, m', Live(s) - {s[k]})
  {
    var lo, hi, p := Lo(s, k), Hi(s, k), PrevFree(s, Lo(s, k));
    FreedWrites(m, m', s, k);
    BeforePrev(s, lo);
    Spliced(m, m', s, p, lo, hi, [Joined(s, k)]);
    assert AllKept(m, m', Live(s) - {s[k]}) by {
      SwallowedOnly(s, k);
      KeptBlocks(m, m', s, lo, hi, {s[k]});
    }
    ReleaseSeparate(s, k);
    ReleaseOnList(s, |m|, k);
  }

  lemma SwallowedOnly(s: seq<Tile>, k: nat)
    requires 0 < k < |s|
    ensures forall x :: Lo(s, k) <= x < Hi(s, k) && x < |s| && s[x].live ==> s[x] in {s[k]}
  {
  }

  lemma ReleaseOnList(s: seq<Tile>, n: nat, k: nat)
    requires Whole(s, n) && 0 < k < |s|
    ensures OnList(Release(s, k), s[PrevFree(s, k)].addr)
  {
    var r, p := Release(s, k), PrevFree(s, k);
    JoinPrevTest(s, n, k);
    assert !r[p].live && r[p].addr == s[p].addr;
  }

  // ----- malloc -----

  /** The header fields that malloc leaves behind: unlinking or splitting tile `k`. */
  ghost predicate Taken(m: Memory, m': Memory, s: seq<Tile>, k: nat, n: nat)
    requires 0 < k < |s| && !s[0].live && 1 <= n <= s[k].size
  {
    var prev, cur, b := s[PrevFree(s, k)].addr, s[k].addr, s[k].End() - n;
    && |m'| == |m| && prev < |m| && s[k].End() <= |m|
    && (forall u :: 0 <= u < |m| && u != prev && u != cur && u != b ==> m'[u] == m[u])
    && Size(m', prev) == Size(m, prev)
    && Size(m', b) == n
    && (if s[k].size == n then
          Next(m', prev) == First(s[k + 1..], BASE)
        else
          Next(m', prev) == Next(m, prev) &&
          Size(m', cur) == s[k].size - n && Next(m', cur) == Next(m, cur))
  }

  lemma TakenWrites(m: Memory, m': Memory, s: seq<Tile>, k: nat, n: nat)
    requires Whole(s, |m|) && Linked(m, s, BASE) && 0 < k < |s| && !s[k].live
    requires 1 <= n <= s[k].size && Taken(m, m', s, k, n)
    ensures Writes(m, m', s, PrevFree(s, k), k, k + 1, Pieces(s, k, n))
  {
    var p := PrevFree(s, k);
    BeforePrev(s, k);
    BeforeLink(m, s, p, k);
    FollowLink(m, s, k);
    TiledOrder(s, BASE, |m|, p, k);
    TiledAt(s, BASE, |m|, k);
    PiecesLinked(m, m', s, k, n);
  }

  lemma PiecesLinked(m: Memory, m': Memory, s: seq<Tile>, k: nat, n: nat)
    requires 0 < k < |s| && !s[0].live && !s[k].live && s[k].addr < |m|
    requires 1 <= n <= s[k].size && Taken(m, m', s, k, n)
    requires Next(m, s[k].addr) == First(s[k + 1..], BASE)
    requires Next(m, s[PrevFree(s, k)].addr) == s[k].addr != s[PrevFree(s, k)].addr
    ensures var ps, rest := Pieces(s, k, n), First(s[k + 1..], BASE);
            Tiled(ps, s[k].addr, s[k].End()) && Sized(m', ps) && Linked(m', ps, rest) &&
            Next(m', s[PrevFree(s, k)].addr) == First(ps, rest)
  {
    var t, rest := Carved(s, k, n), First(s[k + 1..], BASE);
    if s[k].size == n {
      TiledOne(t);
      LinkedOne(m', t, rest);
      assert [t][1..] == [];
    } else {
      var u := Tile(s[k].addr, s[k].size - n, false);
      TiledTwo(u, t);
      LinkedTwo(m', u, t, rest);
    }
  }

  /** malloc: the list without the block, every block untouched. */
  lemma TakenInv(m: Memory, m': Memory, freep: nat, s: seq<Tile>, k: nat, n: nat)
    requires Inv(m, freep, s) && 0 < k < |s| && !s[k].live
    requires 1 <= n <= s[k].size && Taken(m, m', s, k, n)
    ensures Inv(m', s[PrevFree(s, k)].addr, Carve(s, k, n))
    ensures AllKept(m, m', Live(s))
  {
    var p := PrevFree(s, k);
    TakenWrites(m, m', s, k, n);
    BeforePrev(s, k);
    Spliced(m, m', s, p, k, k + 1, Pieces(s, k, n));
    CarveSeparate(s, k, n);
    KeptBlocks(m, m', s, k, k + 1, {});
    assert Carve(s, k, n)[p] == s[p];
    assert Live(s) - {} == Live(s);
  }
}
