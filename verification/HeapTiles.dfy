/** The heap as a sequence of adjacent tiles, free or live, in address order.

    This is what the free list of src/libc/stdlib/malloc.c denotes.  Addresses are counted
    in units of `sizeof(Header)`: address 0 is the null pointer, address 1 the static node
    `base`, and the break starts at address 2.  The node `base` is the first tile; it has
    size zero, as in the source, but occupies the unit of its own header.  */
module HeapTiles {

  const NULL: nat := 0
  const BASE: nat := 1
  const ORIGIN: nat := 2

  datatype Tile = Tile(addr: nat, size: nat, live: bool) {
    function End(): nat {
      addr + size
    }

    /** One past the last unit the tile occupies. */
    function Limit(): nat {
      if size == 0 then addr + 1 else addr + size
    }
  }

  const BASE_TILE := Tile(BASE, 0, false)

  /** The tiles cover `[a, b)` with no gap and no overlap, and only `base` is empty. */
  ghost predicate Tiled(s: seq<Tile>, a: nat, b: nat) {
    if s == [] then a == b
    else s[0].addr == a && (s[0].size >= 1 || a == BASE) && Tiled(s[1..], s[0].Limit(), b)
  }

  /** A whole heap of `n` units, the unused address 0 included. */
  ghost predicate Whole(s: seq<Tile>, n: nat) {
    |s| > 0 && s[0] == BASE_TILE && Tiled(s, BASE, n)
  }

  /** No two neighbouring tiles of the heap proper are both free. */
  ghost predicate Separate(s: seq<Tile>) {
    forall i :: 1 < i < |s| ==> s[i - 1].live || s[i].live
  }

  /** Address of the first free tile of `s`, or `cont` when there is none. */
  ghost function First(s: seq<Tile>, cont: nat): nat {
    if s == [] then cont else if s[0].live then First(s[1..], cont) else s[0].addr
  }

  ghost predicate AllLive(s: seq<Tile>) {
    forall i :: 0 <= i < |s| ==> s[i].live
  }

  ghost function Live(s: seq<Tile>): set<Tile> {
    set t | t in s && t.live
  }

  ghost function Units(s: seq<Tile>, live: bool): nat {
    if s == [] then 0
    else (if s[0].live == live then s[0].size else 0) + Units(s[1..], live)
  }

  // ----- tiling -----

  lemma {:induction false} TiledBounds(s: seq<Tile>, a: nat, b: nat)
    requires Tiled(s, a, b)
    ensures a + |s| <= b
  {
    if s != [] {
      TiledBounds(s[1..], s[0].Limit(), b);
    }
  }

  lemma {:induction false} TiledAt(s: seq<Tile>, a: nat, b: nat, i: nat)
    requires Tiled(s, a, b) && i < |s|
    ensures Tiled(s[..i], a, s[i].addr) && Tiled(s[i + 1..], s[i].Limit(), b)
    ensures a <= s[i].addr && s[i].Limit() <= b && (s[i].size >= 1 || s[i].addr == BASE)
    ensures i > 0 ==> a < s[i].addr
  {
    if i == 0 {
      TiledBounds(s[1..], s[0].Limit(), b);
    } else {
      TiledAt(s[1..], s[0].Limit(), b, i - 1);
      assert s[..i][1..] == s[1..][..i - 1];
      assert s[i + 1..] == s[1..][i..];
    }
  }

  lemma {:induction false} TiledConcat(s: seq<Tile>, t: seq<Tile>, a: nat, b: nat, c: nat)
    requires Tiled(s, a, b) && Tiled(t, b, c)
    ensures Tiled(s + t, a, c)
  {
    if s == [] {
      assert s + t == t;
    } else {
      TiledConcat(s[1..], t, s[0].Limit(), b, c);
      assert (s + t)[1..] == s[1..] + t;
    }
  }

  /** Sequence order is address order, and neighbours in one are neighbours in the other. */
  lemma {:induction false} TiledOrder(s: seq<Tile>, a: nat, b: nat, i: nat, j: nat)
    requires Tiled(s, a, b) && i < j < |s|
    ensures s[i].addr < s[i].Limit() <= s[j].addr
    ensures s[i].Limit() == s[j].addr <==> j == i + 1
  {
    TiledAt(s, a, b, i);
    var r := s[i + 1..];
    TiledAt(r, s[i].Limit(), b, j - i - 1);
    TiledBounds(r[..j - i - 1], s[i].Limit(), r[j - i - 1].addr);
  }

  lemma Ascending(s: seq<Tile>, a: nat, b: nat)
    requires Tiled(s, a, b)
    ensures forall i, j :: 0 <= i < j < |s| ==> s[i].addr < s[j].addr
  {
    forall i, j | 0 <= i < j < |s| ensures s[i].addr < s[j].addr {
      TiledOrder(s, a, b, i, j);
    }
  }

  lemma {:induction false} UnitsSum(s: seq<Tile>, a: nat, b: nat)
    requires Tiled(s, a, b) && a > BASE
    ensures Units(s, true) + Units(s, false) == b - a
  {
    if s != [] {
      UnitsSum(s[1..], s[0].Limit(), b);
    }
  }

  /** Conservation: free units plus live units are exactly the units got from the break. */
  lemma UnitsConserved(s: seq<Tile>, n: nat)
    requires Whole(s, n)
    ensures n >= ORIGIN && Units(s, true) + Units(s, false) == n - ORIGIN
  {
    UnitsSum(s[1..], ORIGIN, n);
    TiledBounds(s, BASE, n);
  }

  // ----- first free tile -----

  lemma {:induction false} FirstConcat(s: seq<Tile>, t: seq<Tile>, cont: nat)
    ensures First(s + t, cont) == First(s, First(t, cont))
  {
    if s == [] {
      assert s + t == t;
    } else {
      assert (s + t)[1..] == s[1..] + t;
      FirstConcat(s[1..], t, cont);
    }
  }

  lemma {:induction false} FirstAllLive(s: seq<Tile>, cont: nat)
    requires AllLive(s)
    ensures First(s, cont) == cont
  {
    if s != [] {
      FirstAllLive(s[1..], cont);
    }
  }

  /** Index of the first free tile at or after `i`, or `|s|`. */
  ghost function FirstIndex(s: seq<Tile>, i: nat): (j: nat)
    requires i <= |s|
    ensures i <= j <= |s| && (j < |s| ==> !s[j].live)
    ensures forall x :: i <= x < j ==> s[x].live
    decreases |s| - i
  {
    if i == |s| || !s[i].live then i else FirstIndex(s, i + 1)
  }

  lemma {:induction false} FirstAtIndex(s: seq<Tile>, i: nat, cont: nat)
    requires i <= |s|
    ensures var j := FirstIndex(s, i);
            First(s[i..], cont) == if j < |s| then s[j].addr else cont
    decreases |s| - i
  {
    if i < |s| && s[i].live {
      FirstAtIndex(s, i + 1, cont);
      assert s[i..][1..] == s[i + 1..];
    }
  }

  /** Index of the last free tile strictly before `k`. */
  ghost function PrevFree(s: seq<Tile>, k: nat): (i: nat)
    requires 0 < k <= |s| && !s[0].live
    ensures i < k && !s[i].live
    ensures forall x :: i < x < k ==> s[x].live
    decreases k
  {
    if !s[k - 1].live then k - 1 else PrevFree(s, k - 1)
  }
}
