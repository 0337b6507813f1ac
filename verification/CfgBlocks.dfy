/** Basic blocks of a function body: markbb, mkbb and mkcfg of cc2/cfg.c. */
module CfgBlocks {
  import opened Options
  import opened CfgGraph

  /** A statement as the block builder sees it; a label is the position of its statement. */
  datatype Stmt =
    | BFun
    | EFun
    | Ret
    | Switch(targets: seq<nat>)
    | Branch(to: nat)
    | Jmp(to: nat)
    | Other

  type Body = seq<Stmt>

  ghost predicate WellFormedBody(s: Body) {
    && |s| >= 2 && s[0] == BFun && s[|s| - 1] == EFun
    && (forall i :: 0 < i < |s| - 1 ==> s[i] != BFun && s[i] != EFun)
    && (forall i, t :: 0 <= i < |s| && t in Targets(s[i]) ==> t < |s|)
  }

  /** The statements an instruction can jump to. */
  function Targets(x: Stmt): seq<nat> {
    match x
    case Switch(ts) => ts
    case Branch(t) => [t]
    case Jmp(t) => [t]
    case _ => []
  }

  /** Statements after which control never simply falls into a block in progress. */
  predicate Ends(x: Stmt) {
    x.Ret? || x.Branch? || x.Jmp?
  }

  /** Where control can go from statement `i`. */
  ghost predicate Flow(s: Body, i: nat, j: nat) {
    i < |s| && j < |s| &&
    match s[i]
    case EFun => false
    case Ret => j == |s| - 1
    case Switch(ts) => j in ts
    case Branch(t) => j == t || j == i + 1
    case Jmp(t) => j == t
    case _ => j == i + 1
  }

  // ----- markbb -----

  /** The statements that statement `k` turns into block entries, in the order of the source. */
  function Opens(s: Body, k: nat): seq<nat>
    requires k < |s|
  {
    match s[k]
    case BFun => [k]
    case Ret => [|s| - 1, k + 1]
    case Switch(ts) => ts
    case Branch(t) => [t, k + 1]
    case Jmp(t) => [t, k + 1]
    case _ => []
  }

  ghost predicate OpenedBefore(s: Body, k: nat, i: nat) {
    exists x :: 0 <= x < k && x < |s| && i in Opens(s, x)
  }

  ghost predicate Entry(s: Body, i: nat) {
    OpenedBefore(s, |s|, i)
  }

  ghost function Count(entry: seq<bool>): nat {
    if entry == [] then 0 else (if entry[0] then 1 else 0) + Count(entry[1..])
  }

  lemma {:induction false} CountUpdate(entry: seq<bool>, i: nat)
    requires i < |entry|
    ensures Count(entry[i := true]) == Count(entry) + if entry[i] then 0 else 1
  {
    if i > 0 {
      CountUpdate(entry[1..], i - 1);
      assert entry[i := true][1..] == entry[1..][i - 1 := true];
    } else {
      assert entry[0 := true][1..] == entry[1..];
    }
  }

  lemma {:induction false} CountNone(entry: seq<bool>)
    requires forall i :: 0 <= i < |entry| ==> !entry[i]
    ensures Count(entry) == 0
  {
    if entry != [] {
      CountNone(entry[1..]);
    }
  }

  /** The flags of all statements: `exit` marks switches seen and whatever precedes an entry. */
  ghost predicate Flags(s: Body, seen: nat, entry: seq<bool>, exit: seq<bool>, nr: nat) {
    && |entry| == |exit| == |s|
    && (forall i :: 0 <= i < |s| ==> (exit[i] <==> (i < seen && s[i].Switch?) || (i + 1 < |s| && entry[i + 1])))
    && nr == Count(entry)
  }

  method NewEntry(s: Body, seen: nat, entry: seq<bool>, exit: seq<bool>, nr: nat, i: nat)
    returns (entry': seq<bool>, exit': seq<bool>, nr': nat)
    requires Flags(s, seen, entry, exit, nr) && i < |s|
    ensures Flags(s, seen, entry', exit', nr') && entry' == entry[i := true]
  {
    entry', exit', nr' := entry, exit, nr;
    if entry[i] {
      return;
    }
    entry' := entry[i := true];
    if i > 0 {
      exit' := exit[i - 1 := true];
    }
    nr' := nr + 1;
    CountUpdate(entry, i);
  }

  lemma OpensInBody(s: Body, k: nat)
    requires WellFormedBody(s) && k < |s|
    ensures forall t :: t in Opens(s, k) ==> t < |s|
  {
    assert forall t :: t in Targets(s[k]) ==> t < |s|;
    match s[k]
    case Branch(t) => assert t in Targets(s[k]);
    case Jmp(t) => assert t in Targets(s[k]);
    case _ =>
  }

  /** apply(markbb): afterwards a statement is an entry exactly when something opens it. */
  method MarkAll(s: Body) returns (entry: seq<bool>, exit: seq<bool>, nr: nat)
    requires WellFormedBody(s)
    ensures Flags(s, |s|, entry, exit, nr)
    ensures forall i :: 0 <= i < |s| ==> (entry[i] <==> Entry(s, i))
  {
    entry, exit, nr := seq(|s|, _ => false), seq(|s|, _ => false), 0;
    CountNone(entry);
    var k := 0;
    while k < |s|
      invariant 0 <= k <= |s| && Flags(s, k, entry, exit, nr)
      invariant forall i :: 0 <= i < |s| ==> (entry[i] <==> OpenedBefore(s, k, i))
    {
      entry, exit, nr := MarkOne(s, k, entry, exit, nr);
      OpenedMore(s, k);
      k := k + 1;
    }
  }

  lemma OpenedMore(s: Body, k: nat)
    requires k < |s|
    ensures forall i :: OpenedBefore(s, k + 1, i) <==> OpenedBefore(s, k, i) || i in Opens(s, k)
  {
  }

  /** markbb for one statement. */
  method MarkOne(s: Body, k: nat, entry: seq<bool>, exit: seq<bool>, nr: nat)
    returns (entry': seq<bool>, exit': seq<bool>, nr': nat)
    requires WellFormedBody(s) && k < |s| && Flags(s, k, entry, exit, nr)
    ensures Flags(s, k + 1, entry', exit', nr')
    ensures forall i :: 0 <= i < |s| ==> (entry'[i] <==> entry[i] || i in Opens(s, k))
  {
    OpensInBody(s, k);
    entry', exit', nr' := entry, exit, nr;
    if s[k].Switch? {
      exit' := exit[k := true];
    }
    var m := 0;
    while m < |Opens(s, k)|
      invariant 0 <= m <= |Opens(s, k)| && Flags(s, k + 1, entry', exit', nr')
      invariant forall i :: 0 <= i < |s| ==> (entry'[i] <==> entry[i] || i in Opens(s, k)[..m])
    {
      assert Opens(s, k)[m] in Opens(s, k);
      entry', exit', nr' := NewEntry(s, k + 1, entry', exit', nr', Opens(s, k)[m]);
      m := m + 1;
    }
    assert Opens(s, k)[..m] == Opens(s, k);
  }

  /** Blocks begin at the first statement, behind a return, a branch or a jump, at the places
      these and the cases of a switch go to, and nowhere else. */
  lemma EntryExactly(s: Body, i: nat)
    requires WellFormedBody(s) && i < |s|
    ensures Entry(s, i) <==>
      || i == 0
      || s[i - 1].Ret? || s[i - 1].Branch? || s[i - 1].Jmp?
      || exists k :: 0 <= k < |s| && match s[k]
           case Ret => i == |s| - 1
           case Switch(ts) => i in ts
           case Branch(t) => i == t
           case Jmp(t) => i == t
           case _ => false
  {
    if Entry(s, i) {
      var x :| 0 <= x < |s| && i in Opens(s, x);
    }
    if i == 0 {
      assert i in Opens(s, 0);
    } else if s[i - 1].Ret? || s[i - 1].Branch? || s[i - 1].Jmp? {
      assert i in Opens(s, i - 1);
    }
    forall k | 0 <= k < |s| && (match s[k]
           case Ret => i == |s| - 1
           case Switch(ts) => i in ts
           case Branch(t) => i == t
           case Jmp(t) => i == t
           case _ => false)
      ensures Entry(s, i)
    {
      assert i in Opens(s, k);
    }
  }

  // ----- mkbb -----

  lemma FirstIsEntry(s: Body)
    requires WellFormedBody(s)
    ensures Entry(s, 0)
  {
    assert 0 in Opens(s, 0);
  }

  /** `bb` numbers the blocks of the first statements: a new number at every entry. */
  ghost predicate Numbered(s: Body, bb: seq<nat>) {
    (bb != [] ==> bb[0] == 0) &&
    forall i {:trigger Entry(s, i)} :: 0 < i < |bb| ==> bb[i] == bb[i - 1] + if Entry(s, i) then 1 else 0
  }

  lemma {:induction false} BlockMonotone(s: Body, bb: seq<nat>, i: nat, j: nat)
    requires Numbered(s, bb) && i <= j < |bb|
    ensures bb[i] <= bb[j]
    ensures bb[i] == bb[j] <==> forall x :: i < x <= j ==> !Entry(s, x)
    decreases j
  {
    if i < j {
      BlockMonotone(s, bb, i, j - 1);
      assert bb[j] == bb[j - 1] + if Entry(s, j) then 1 else 0;
    }
  }

  lemma {:induction false} CountSplit(a: seq<bool>, b: seq<bool>)
    ensures Count(a + b) == Count(a) + Count(b)
  {
    if a == [] {
      assert a + b == b;
    } else {
      assert (a + b)[1..] == a[1..] + b;
      CountSplit(a[1..], b);
    }
  }

  /** `entryp` gives the first statement of each block. */
  ghost predicate Heads(s: Body, bb: seq<nat>, entryp: seq<nat>) {
    && (bb != [] ==> |entryp| == bb[|bb| - 1] + 1)
    && forall b :: 0 <= b < |entryp| ==> entryp[b] < |bb| && Entry(s, entryp[b]) && bb[entryp[b]] == b
  }

  /** apply(mkbb): number the blocks; exactly as many as markbb counted. */
  method NumberBlocks(s: Body, entry: seq<bool>, nr: nat) returns (bb: seq<nat>, entryp: seq<nat>)
    requires WellFormedBody(s) && |entry| == |s| && nr == Count(entry)
    requires forall i :: 0 <= i < |s| ==> (entry[i] <==> Entry(s, i))
    ensures |bb| == |s| && Numbered(s, bb)
    ensures |entryp| == nr && Heads(s, bb, entryp)
  {
    bb, entryp := [], [];
    FirstIsEntry(s);
    var i := 0;
    while i < |s|
      invariant 0 <= i <= |s| && |bb| == i && |entryp| == Count(entry[..i])
      invariant Numbered(s, bb) && Heads(s, bb, entryp) && (i == 0 ==> entryp == [])
    {
      CountOne(entry, i);
      ghost var heads := entryp;
      if entry[i] {
        entryp := entryp + [i];
      }
      NextNumber(s, bb, heads, entryp);
      bb := bb + [|entryp| - 1];
      i := i + 1;
    }
    assert entry[..i] == entry;
  }

  lemma CountOne(entry: seq<bool>, i: nat)
    requires i < |entry|
    ensures Count(entry[..i + 1]) == Count(entry[..i]) + if entry[i] then 1 else 0
  {
    assert entry[..i + 1] == entry[..i] + [entry[i]];
    CountSplit(entry[..i], [entry[i]]);
    assert [entry[i]][1..] == [];
  }

  lemma NextNumber(s: Body, bb: seq<nat>, heads: seq<nat>, heads': seq<nat>)
    requires Numbered(s, bb) && Heads(s, bb, heads) && (bb == [] ==> heads == [] && Entry(s, 0))
    requires heads' == if Entry(s, |bb|) then heads + [|bb|] else heads
    ensures |heads'| > 0 && Numbered(s, bb + [|heads'| - 1]) && Heads(s, bb + [|heads'| - 1], heads')
  {
  }

  lemma BlocksBelow(s: Body, bb: seq<nat>, entryp: seq<nat>, i: nat)
    requires Numbered(s, bb) && Heads(s, bb, entryp) && i < |bb|
    ensures bb[i] < |entryp| && entryp[bb[i]] <= i
  {
    BlockMonotone(s, bb, i, |bb| - 1);
    var e := entryp[bb[i]];
    if i < e {
      BlockMonotone(s, bb, i, e);
    }
  }

  // ----- mkcfg -----

  /** `swtch` is the switch statement whose cases leave the block. */
  datatype Block = Block(exitp: Option<nat>, yes: Option<nat>, no: Option<nat>, swtch: Option<nat>)

  const EMPTY := Block(None, None, None, None)

  ghost predicate Exit(s: Body, i: nat) {
    i + 1 < |s| && (s[i].Switch? || Entry(s, i + 1))
  }

  lemma EndsIsExit(s: Body, i: nat)
    requires WellFormedBody(s) && i < |s| && Ends(s[i])
    ensures i + 1 < |s| && Entry(s, i + 1) && Exit(s, i)
  {
    assert i + 1 in Opens(s, i);
  }

  lemma TargetsInBody(s: Body, i: nat)
    requires WellFormedBody(s) && i < |s|
    ensures forall t :: t in Targets(s[i]) ==> t < |s|
  {
  }

  /** What statement `i` records in its block. */
  ghost function Record(s: Body, bb: seq<nat>, i: nat, b: Block): Block
    requires WellFormedBody(s) && |bb| == |s| && i < |s|
  {
    TargetsInBody(s, i);
    var b1 := if Exit(s, i) then b.(exitp := Some(i), yes := Some(bb[i + 1])) else b;
    match s[i]
    case Ret => b1.(yes := Some(bb[|s| - 1]))
    case Switch(_) => b1.(swtch := Some(i), yes := None)
    case Branch(t) => assert t in Targets(s[i]); b1.(no := Some(bb[i + 1]), yes := Some(bb[t]))
    case Jmp(t) => assert t in Targets(s[i]); b1.(yes := Some(bb[t]))
    case _ => b1
  }

  /** The record of block `b` after the first `n` statements. */
  ghost function Final(s: Body, bb: seq<nat>, n: nat, b: nat): Block
    requires WellFormedBody(s) && |bb| == |s| && n <= |s|
  {
    if n == 0 then EMPTY
    else if bb[n - 1] == b then Record(s, bb, n - 1, Final(s, bb, n - 1, b)) else Final(s, bb, n - 1, b)
  }

  /** The edges recorded after `n` statements. */
  ghost predicate Built(s: Body, bb: seq<nat>, n: nat, blocks: seq<Block>)
    requires WellFormedBody(s) && |bb| == |s| && n <= |s|
  {
    forall b :: 0 <= b < |blocks| ==> blocks[b] == Final(s, bb, n, b)
  }

  /** mkcfg for one statement. */
  method Connect(s: Body, entry: seq<bool>, exit: seq<bool>, bb: seq<nat>, i: nat, b0: Block) returns (b: Block)
    requires WellFormedBody(s) && |entry| == |exit| == |bb| == |s| && i < |s|
    requires exit[i] <==> Exit(s, i)
    requires entry[i] <==> Entry(s, i)
    ensures b == Record(s, bb, i, b0)
  {
    if Ends(s[i]) { EndsIsExit(s, i); }
    TargetsInBody(s, i);
    b := b0;
    if !entry[i] && !exit[i] {
      return;
    }
    if exit[i] {
      b := b.(exitp := Some(i), yes := Some(bb[i + 1]));
    }
    match s[i] {
      case Ret => b := b.(yes := Some(bb[|s| - 1]));
      case Switch(_) => b := b.(swtch := Some(i), yes := None);
      case Branch(t) =>
        assert t in Targets(s[i]);
        b := b.(no := Some(bb[i + 1]), yes := Some(bb[t]));
      case Jmp(t) =>
        assert t in Targets(s[i]);
        b := b.(yes := Some(bb[t]));
      case _ =>
    }
  }

  /** apply(mkcfg): set exits and edges, statement by statement. */
  method BuildEdges(s: Body, entry: seq<bool>, exit: seq<bool>, bb: seq<nat>, nr: nat) returns (blocks: seq<Block>)
    requires WellFormedBody(s) && Flags(s, |s|, entry, exit, nr)
    requires forall i :: 0 <= i < |s| ==> (entry[i] <==> Entry(s, i))
    requires |bb| == |s| && forall i :: 0 <= i < |s| ==> bb[i] < nr
    ensures |blocks| == nr && Built(s, bb, |s|, blocks)
  {
    blocks := seq(nr, _ => EMPTY);
    var i := 0;
    while i < |s|
      invariant 0 <= i <= |s| && |blocks| == nr && Built(s, bb, i, blocks)
    {
      assert exit[i] <==> Exit(s, i);
      var b := Connect(s, entry, exit, bb, i, blocks[bb[i]]);
      blocks := blocks[bb[i] := b];
      i := i + 1;
    }
  }
}
