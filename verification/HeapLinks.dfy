/** Raw memory and the circular free list threaded through it. */
module HeapLinks {
  import opened HeapTiles
  import opened HeapOps

  /** sizeof(Header): a unit is a header when it starts a block and plain bytes otherwise,
      so writing a header field overwrites payload.  The pointer `next` sits in the first
      cell of a unit and `size` in the ninth. */
  const UNIT: nat := 16
  const SIZE_AT: nat := 8

  type Unit = u: seq<int> | |u| == UNIT witness [0, 0, 0, 0, 0, 0, 0, 0, 0, 0, 0, 0, 0, 0, 0, 0]
  type Memory = seq<Unit>

  function Next(m: Memory, a: nat): int
    requires a < |m|
  {
    m[a][0]
  }

  function Size(m: Memory, a: nat): int
    requires a < |m|
  {
    m[a][SIZE_AT]
  }

  function SetNext(m: Memory, a: nat, v: int): (r: Memory)
    requires a < |m|
    ensures |r| == |m| && Next(r, a) == v && Size(r, a) == Size(m, a)
    ensures forall u :: 0 <= u < |m| && u != a ==> r[u] == m[u]
  {
    m[a := m[a][0 := v]]
  }

  function SetSize(m: Memory, a: nat, v: int): (r: Memory)
    requires a < |m|
    ensures |r| == |m| && Size(r, a) == v && Next(r, a) == Next(m, a)
    ensures forall u :: 0 <= u < |m| && u != a ==> r[u] == m[u]
  {
    m[a := m[a][SIZE_AT := v]]
  }

  ghost predicate Sized(m: Memory, s: seq<Tile>) {
    forall i :: 0 <= i < |s| ==> s[i].addr < |m| && Size(m, s[i].addr) == s[i].size
  }

  /** Every free tile of `s` points to the next free tile, the last one to `cont`. */
  ghost predicate Linked(m: Memory, s: seq<Tile>, cont: nat) {
    s == [] ||
    (s[0].addr < |m| && Linked(m, s[1..], cont) &&
     (s[0].live || Next(m, s[0].addr) == First(s[1..], cont)))
  }

  ghost predicate OnList(s: seq<Tile>, a: nat) {
    exists i :: 0 <= i < |s| && !s[i].live && s[i].addr == a
  }

  /** The heap invariant: one address-ordered cycle through `base`, the roving pointer on
      it, the headers agreeing with the tiles, and the tiles filling the heap. */
  ghost predicate Inv(m: Memory, freep: nat, s: seq<Tile>) {
    && Whole(s, |m|)
    && Separate(s)
    && Sized(m, s)
    && Linked(m, s, BASE)
    && OnList(s, freep)
  }

  /** The payload of block `t` is the same in both memories. */
  ghost predicate Kept(m: Memory, m': Memory, t: Tile) {
    t.Limit() <= |m| <= |m'| && forall u :: t.addr < u < t.Limit() ==> m'[u] == m[u]
  }

  ghost predicate AllKept(m: Memory, m': Memory, blocks: set<Tile>) {
    forall t :: t in blocks ==> Kept(m, m', t)
  }

  // ----- links -----

  lemma {:induction false} LinkedConcat(m: Memory, s: seq<Tile>, t: seq<Tile>, cont: nat)
    ensures Linked(m, s + t, cont) <==> Linked(m, s, First(t, cont)) && Linked(m, t, cont)
  {
    if s == [] {
      assert s + t == t;
    } else {
      assert (s + t)[1..] == s[1..] + t;
      LinkedConcat(m, s[1..], t, cont);
      FirstConcat(s[1..], t, cont);
    }
  }

  lemma {:induction false} LinkedFrame(m: Memory, m': Memory, s: seq<Tile>, cont: nat)
    requires Linked(m, s, cont) && |m| <= |m'|
    requires forall i :: 0 <= i < |s| && s[i].addr < |m| ==> m'[s[i].addr] == m[s[i].addr]
    ensures Linked(m', s, cont)
  {
    if s != [] {
      LinkedFrame(m, m', s[1..], cont);
    }
  }

  lemma {:induction false} LinkedAllLive(m: Memory, s: seq<Tile>, cont: nat, cont': nat)
    requires Linked(m, s, cont) && AllLive(s)
    ensures Linked(m, s, cont')
  {
    if s != [] {
      LinkedAllLive(m, s[1..], cont, cont');
    }
  }

  lemma LinkedOne(m: Memory, t: Tile, cont: nat)
    requires t.addr < |m|
    ensures Linked(m, [t], cont) <==> t.live || Next(m, t.addr) == cont
  {
    assert [t][1..] == [];
  }

  lemma LinkedTwo(m: Memory, t: Tile, u: Tile, cont: nat)
    requires t.addr < |m| && u.addr < |m| && t.live != u.live
    requires if t.live then Next(m, u.addr) == cont else Next(m, t.addr) == cont
    ensures Linked(m, [t, u], cont)
  {
    LinkedOne(m, u, cont);
    assert [u][1..] == [];
    assert [t, u][1..] == [u];
  }

  /** Redirecting one free node `p` past live tiles `b` replaces everything behind it. */
  lemma Relink(m: Memory, m': Memory, a: seq<Tile>, p: Tile, b: seq<Tile>, r: seq<Tile>, r': seq<Tile>)
    requires Linked(m, a + [p] + b + r, BASE) && !p.live && AllLive(b)
    requires p.addr < |m| <= |m'|
    requires forall i :: 0 <= i < |a| && a[i].addr < |m| ==> m'[a[i].addr] == m[a[i].addr]
    requires forall i :: 0 <= i < |b| && b[i].addr < |m| ==> m'[b[i].addr] == m[b[i].addr]
    requires Linked(m', r', BASE) && Next(m', p.addr) == First(r', BASE)
    ensures Linked(m', a + [p] + b + r', BASE)
  {
    LinkedConcat(m, a + [p] + b, r, BASE);
    LinkedConcat(m, a + [p], b, First(r, BASE));
    LinkedConcat(m, a, [p], First(b, First(r, BASE)));
    LinkedFrame(m, m', a, p.addr);
    LinkedFrame(m, m', b, First(r, BASE));
    LinkedAllLive(m', b, First(r, BASE), First(r', BASE));
    FirstAllLive(b, First(r', BASE));
    LinkedOne(m', p, First(r', BASE));
    LinkedConcat(m', a, [p], First(r', BASE));
    LinkedConcat(m', a + [p], b, First(r', BASE));
    LinkedConcat(m', a + [p] + b, r', BASE);
  }

  // ----- one splice of the tiles, done in memory -----

  /** Free node `p` is the list predecessor of tile `i`. */
  ghost predicate Before(s: seq<Tile>, p: nat, i: nat) {
    p < i <= |s| && !s[p].live && forall x :: p < x < i ==> s[x].live
  }

  /** Memory changed at most in the header of tile `p` and inside tiles `i` to `j - 1`. */
  ghost predicate ChangedOnly(m: Memory, m': Memory, s: seq<Tile>, p: nat, i: nat, j: nat)
    requires p < i < j <= |s|
  {
    && |m'| == |m|
    && forall u :: 0 <= u < |m| && u != s[p].addr && !(s[i].addr <= u < s[j - 1].Limit()) ==> m'[u] == m[u]
  }

  /** What the writes must achieve for `mid` to stand in the place of tiles `i` to `j - 1`. */
  ghost predicate Writes(m: Memory, m': Memory, s: seq<Tile>, p: nat, i: nat, j: nat, mid: seq<Tile>)
    requires p < i < j <= |s|
  {
    && ChangedOnly(m, m', s, p, i, j)
    && s[p].addr < |m|
    && Size(m', s[p].addr) == Size(m, s[p].addr)
    && Next(m', s[p].addr) == First(mid, First(s[j..], BASE))
    && Tiled(mid, s[i].addr, s[j - 1].Limit())
    && Sized(m', mid)
    && Linked(m', mid, First(s[j..], BASE))
  }

  lemma HeaderFrame(m: Memory, m': Memory, s: seq<Tile>, p: nat, i: nat, j: nat, x: nat)
    requires Whole(s, |m|) && p < i < j <= |s| && ChangedOnly(m, m', s, p, i, j)
    requires x < |s| && x != p && !(i <= x < j)
    ensures s[x].addr < |m| && m'[s[x].addr] == m[s[x].addr]
  {
    TiledAt(s, BASE, |m|, x);
    if x < p { TiledOrder(s, BASE, |m|, x, p); } else { TiledOrder(s, BASE, |m|, p, x); }
    if x < i { TiledOrder(s, BASE, |m|, x, i); } else { TiledOrder(s, BASE, |m|, j - 1, x); }
  }

  lemma SplicedLinked(m: Memory, m': Memory, s: seq<Tile>, p: nat, i: nat, j: nat, mid: seq<Tile>)
    requires Whole(s, |m|) && Linked(m, s, BASE) && Before(s, p, i) && i < j <= |s|
    requires Writes(m, m', s, p, i, j, mid)
    ensures Linked(m', s[..i] + mid + s[j..], BASE)
  {
    var a, b, r, z := s[..p], s[p + 1..i], s[i..], s[j..];
    assert s == a + [s[p]] + b + r;
    assert s == s[..j] + z;
    LinkedConcat(m, s[..j], z, BASE);
    forall x | 0 <= x < |s| && x != p && !(i <= x < j)
      ensures s[x].addr < |m| && m'[s[x].addr] == m[s[x].addr]
    {
      HeaderFrame(m, m', s, p, i, j, x);
    }
    LinkedFrame(m, m', z, BASE);
    LinkedConcat(m', mid, z, BASE);
    FirstConcat(mid, z, BASE);
    Relink(m, m', a, s[p], b, r, mid + z);
    assert a + [s[p]] + b + (mid + z) == s[..i] + mid + s[j..];
  }

  lemma SplicedSized(m: Memory, m': Memory, s: seq<Tile>, p: nat, i: nat, j: nat, mid: seq<Tile>)
    requires Whole(s, |m|) && Sized(m, s) && p < i < j <= |s|
    requires Writes(m, m', s, p, i, j, mid)
    ensures Sized(m', s[..i] + mid + s[j..])
  {
    forall x | 0 <= x < |s| && !(i <= x < j)
      ensures s[x].addr < |m'| && Size(m', s[x].addr) == s[x].size
    {
      if x != p {
        HeaderFrame(m, m', s, p, i, j, x);
      }
    }
    SizedSplice(m', s, i, j, mid);
  }

  lemma SizedSplice(m: Memory, s: seq<Tile>, i: nat, j: nat, mid: seq<Tile>)
    requires i < j <= |s| && Sized(m, mid)
    requires forall x :: 0 <= x < |s| && !(i <= x < j) ==> s[x].addr < |m| && Size(m, s[x].addr) == s[x].size
    ensures Sized(m, s[..i] + mid + s[j..])
  {
  }

  /** Blocks outside the splice keep their payload. */
  lemma SplicedKept(m: Memory, m': Memory, s: seq<Tile>, p: nat, i: nat, j: nat, x: nat)
    requires Whole(s, |m|) && p < i < j <= |s| && ChangedOnly(m, m', s, p, i, j)
    requires x < |s| && !(i <= x < j)
    ensures Kept(m, m', s[x])
  {
    TiledAt(s, BASE, |m|, x);
    if x < p { TiledOrder(s, BASE, |m|, x, p); } else if p < x { TiledOrder(s, BASE, |m|, p, x); }
    if x < i { TiledOrder(s, BASE, |m|, x, i); } else { TiledOrder(s, BASE, |m|, j - 1, x); }
  }

  lemma Spliced(m: Memory, m': Memory, s: seq<Tile>, p: nat, i: nat, j: nat, mid: seq<Tile>)
    requires Whole(s, |m|) && Sized(m, s) && Linked(m, s, BASE) && Before(s, p, i) && i < j <= |s|
    requires Writes(m, m', s, p, i, j, mid)
    ensures var s' := s[..i] + mid + s[j..];
            Whole(s', |m'|) && Sized(m', s') && Linked(m', s', BASE)
    ensures forall x :: 0 <= x < |s| && !(i <= x < j) ==> Kept(m, m', s[x])
  {
    WholeSplice(s, |m|, i, j, mid);
    SplicedLinked(m, m', s, p, i, j, mid);
    SplicedSized(m, m', s, p, i, j, mid);
    forall x | 0 <= x < |s| && !(i <= x < j) ensures Kept(m, m', s[x]) {
      SplicedKept(m, m', s, p, i, j, x);
    }
  }

  // ----- walking the list -----

  /** Index of the node that free node `i` points to. */
  ghost function NextIndex(s: seq<Tile>, i: nat): (j: nat)
    requires i < |s|
    ensures j < |s|
  {
    var j := FirstIndex(s, i + 1);
    if j < |s| then j else 0
  }

  lemma FollowLink(m: Memory, s: seq<Tile>, i: nat)
    requires Linked(m, s, BASE) && i < |s| && !s[i].live && s[0] == BASE_TILE
    ensures s[i].addr < |m|
    ensures Next(m, s[i].addr) == First(s[i + 1..], BASE) == s[NextIndex(s, i)].addr
  {
    assert s == s[..i] + s[i..];
    LinkedConcat(m, s[..i], s[i..], BASE);
    assert s[i..][1..] == s[i + 1..];
    FirstAtIndex(s, i + 1, BASE);
  }

  /** What the predecessor of tile `i` points to. */
  lemma BeforeLink(m: Memory, s: seq<Tile>, p: nat, i: nat)
    requires Linked(m, s, BASE) && Before(s, p, i) && s[0] == BASE_TILE
    ensures s[p].addr < |m| && Next(m, s[p].addr) == First(s[i..], BASE)
  {
    FollowLink(m, s, p);
    assert s[p + 1..] == s[p + 1..i] + s[i..];
    FirstConcat(s[p + 1..i], s[i..], BASE);
    FirstAllLive(s[p + 1..i], First(s[i..], BASE));
  }
}
