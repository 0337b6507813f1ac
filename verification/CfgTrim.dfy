/** Reachable code survives: edges cover control flow, and trimming removes the rest. */
module CfgTrim {
  import opened Options
  import opened CfgGraph
  import opened CfgBlocks

  function Opt(o: Option<nat>): seq<nat> {
    match o
    case None => []
    case Some(b) => [b]
  }

  /** The blocks visit follows from a block: true edge, false edge, cases. */
  function Leaves(s: Body, bb: seq<nat>, b: Block): (r: seq<nat>)
    requires WellFormedBody(s) && |bb| == |s| && (b.swtch.Some? ==> b.swtch.value < |s|)
  {
    Opt(b.yes) + Opt(b.no) +
    match b.swtch
    case None => []
    case Some(i) =>
      TargetsInBody(s, i);
      seq(|Targets(s[i])|, k requires 0 <= k < |Targets(s[i])| =>
        assert Targets(s[i])[k] in Targets(s[i]); bb[Targets(s[i])[k]])
  }

  // ----- what the last statements of a block leave recorded -----

  lemma {:induction false} FinalLater(s: Body, bb: seq<nat>, i: nat, n: nat)
    requires WellFormedBody(s) && |bb| == |s| && Numbered(s, bb) && i < n <= |s|
    requires i + 1 == |s| || Entry(s, i + 1)
    ensures Final(s, bb, n, bb[i]) == Final(s, bb, i + 1, bb[i])
    decreases n
  {
    if n > i + 1 {
      BlockMonotone(s, bb, i, n - 1);
      FinalLater(s, bb, i, n - 1);
    }
  }

  /** The last statement of a block decides its true and false edges and its exit. */
  lemma FinalOfLast(s: Body, bb: seq<nat>, i: nat)
    requires WellFormedBody(s) && |bb| == |s| && Numbered(s, bb) && i < |s|
    requires i + 1 == |s| || Entry(s, i + 1)
    ensures Final(s, bb, |s|, bb[i]) == Record(s, bb, i, Final(s, bb, i, bb[i]))
  {
    FinalLater(s, bb, i, |s|);
  }

  ghost predicate LaterSwitch(s: Body, bb: seq<nat>, i: nat, n: nat)
    requires |bb| == |s| && i < |s| && n <= |s|
  {
    exists j :: i < j < n && bb[j] == bb[i] && s[j].Switch?
  }

  lemma {:induction false} SwitchRecordedUpTo(s: Body, bb: seq<nat>, i: nat, n: nat)
    requires WellFormedBody(s) && |bb| == |s| && i < n <= |s| && s[i].Switch?
    ensures var r := Final(s, bb, n, bb[i]).swtch;
            r.Some? && i <= r.value < n && (r.value == i <==> !LaterSwitch(s, bb, i, n))
    decreases n
  {
    if n > i + 1 {
      SwitchRecordedUpTo(s, bb, i, n - 1);
      if bb[n - 1] == bb[i] && s[n - 1].Switch? {
        assert LaterSwitch(s, bb, i, n);
      } else {
        assert LaterSwitch(s, bb, i, n) <==> LaterSwitch(s, bb, i, n - 1);
      }
    }
  }

  /** A block remembers one switch: the cases of statement `i` stay edges of its block exactly
      when no other switch statement follows in the same block. */
  lemma SwitchRecorded(s: Body, bb: seq<nat>, i: nat)
    requires WellFormedBody(s) && |bb| == |s| && i < |s| && s[i].Switch?
    ensures Final(s, bb, |s|, bb[i]).swtch == Some(i) <==> !LaterSwitch(s, bb, i, |s|)
  {
    SwitchRecordedUpTo(s, bb, i, |s|);
  }

  lemma {:induction false} SwtchInBody(s: Body, bb: seq<nat>, n: nat, b: nat)
    requires WellFormedBody(s) && |bb| == |s| && n <= |s|
    ensures var r := Final(s, bb, n, b).swtch; r.Some? ==> r.value < |s|
    decreases n
  {
    if n > 0 {
      SwtchInBody(s, bb, n - 1, b);
    }
  }

  ghost predicate OneSwitchPerBlock(s: Body, bb: seq<nat>)
    requires |bb| == |s|
  {
    forall i :: 0 <= i < |s| && s[i].Switch? ==> !LaterSwitch(s, bb, i, |s|)
  }

  /** The graph of blocks that visit walks. */
  ghost predicate BlockGraph(s: Body, bb: seq<nat>, blocks: seq<Block>, g: Graph)
    requires WellFormedBody(s) && |bb| == |s|
  {
    |g| == |blocks| && Built(s, bb, |s|, blocks) &&
    forall b :: 0 <= b < |g| ==>
      (blocks[b].swtch.Some? ==> blocks[b].swtch.value < |s|) && g[b] == Leaves(s, bb, blocks[b])
  }

  ghost predicate Bounded(bb: seq<nat>, nr: nat) {
    forall x :: 0 <= x < |bb| ==> bb[x] < nr
  }

  ghost predicate MarksReachable(g: Graph, visited: set<nat>) {
    forall x :: x in visited <==> Reachable(g, 0, x)
  }

  /** Every step of control stays in its block or follows a recorded edge. */
  lemma FlowCovered(s: Body, bb: seq<nat>, blocks: seq<Block>, g: Graph, i: nat, j: nat)
    requires WellFormedBody(s) && |bb| == |s| && Numbered(s, bb) && BlockGraph(s, bb, blocks, g)
    requires Bounded(bb, |g|)
    requires Flow(s, i, j) && (s[i].Switch? ==> !LaterSwitch(s, bb, i, |s|))
    ensures bb[j] == bb[i] || Edge(g, bb[i], bb[j])
  {
    var b := blocks[bb[i]];
    if s[i].Switch? {
      SwitchRecorded(s, bb, i);
      CaseLeaves(s, bb, b, i, j);
    } else if i + 1 < |s| {
      if !Entry(s, i + 1) {
        if Ends(s[i]) { EndsIsExit(s, i); }
        BlockMonotone(s, bb, i, i + 1);
      } else {
        ExitLeaves(s, bb, b, i, j);
      }
    }
  }

  lemma CaseLeaves(s: Body, bb: seq<nat>, b: Block, i: nat, j: nat)
    requires WellFormedBody(s) && |bb| == |s| && Flow(s, i, j) && s[i].Switch? && b.swtch == Some(i)
    ensures bb[j] in Leaves(s, bb, b)
  {
    var ts := s[i].targets;
    var k :| 0 <= k < |ts| && ts[k] == j;
    TargetsInBody(s, i);
    assert Leaves(s, bb, b)[|Opt(b.yes)| + |Opt(b.no)| + k] == bb[j];
  }

  /** The last statement of a block that is no switch. */
  lemma ExitLeaves(s: Body, bb: seq<nat>, b: Block, i: nat, j: nat)
    requires WellFormedBody(s) && |bb| == |s| && Numbered(s, bb) && (b.swtch.Some? ==> b.swtch.value < |s|)
    requires Flow(s, i, j) && !s[i].Switch? && i + 1 < |s| && Entry(s, i + 1) && b == Final(s, bb, |s|, bb[i])
    ensures bb[j] in Leaves(s, bb, b)
  {
    if Ends(s[i]) { EndsIsExit(s, i); }
    FinalOfLast(s, bb, i);
    LeavesYesNo(s, bb, b);
  }

  lemma LeavesYesNo(s: Body, bb: seq<nat>, b: Block)
    requires WellFormedBody(s) && |bb| == |s| && (b.swtch.Some? ==> b.swtch.value < |s|)
    ensures b.yes.Some? ==> b.yes.value in Leaves(s, bb, b)
    ensures b.no.Some? ==> b.no.value in Leaves(s, bb, b)
  {
    var r := Leaves(s, bb, b);
    if b.yes.Some? { assert r[0] == b.yes.value; }
    if b.no.Some? { assert r[|Opt(b.yes)|] == b.no.value; }
  }

  // ----- and every edge stands for control -----

  /** Some statement of block `a` leads to one of block `b`. */
  ghost predicate BlockStep(s: Body, bb: seq<nat>, a: nat, b: nat)
    requires |bb| == |s|
  {
    exists i: nat, j: nat :: Flow(s, i, j) && bb[i] == a && bb[j] == b
  }

  ghost predicate Steps(s: Body, bb: seq<nat>, a: nat, b: Option<nat>)
    requires |bb| == |s|
  {
    b.Some? ==> BlockStep(s, bb, a, b.value)
  }

  lemma RecordStands(s: Body, bb: seq<nat>, i: nat, b: Block)
    requires WellFormedBody(s) && |bb| == |s| && i < |s|
    requires Steps(s, bb, bb[i], b.yes) && Steps(s, bb, bb[i], b.no)
    ensures var r := Record(s, bb, i, b); Steps(s, bb, bb[i], r.yes) && Steps(s, bb, bb[i], r.no)
  {
    TargetsInBody(s, i);
    if Ends(s[i]) { EndsIsExit(s, i); }
    match s[i]
    case Ret => assert Flow(s, i, |s| - 1);
    case Switch(_) =>
    case Branch(t) =>
      assert t in Targets(s[i]);
      assert Flow(s, i, t) && Flow(s, i, i + 1);
    case Jmp(t) =>
      assert t in Targets(s[i]);
      assert Flow(s, i, t);
    case BFun => assert Flow(s, i, i + 1);
    case Other => FallsOn(s, i);
    case EFun =>
  }

  lemma FallsOn(s: Body, i: nat)
    requires WellFormedBody(s) && i < |s| && s[i].Other?
    ensures i + 1 < |s| && Flow(s, i, i + 1)
  {
  }

  lemma {:induction false} FinalStands(s: Body, bb: seq<nat>, n: nat, b: nat)
    requires WellFormedBody(s) && |bb| == |s| && n <= |s|
    ensures var r := Final(s, bb, n, b);
      && Steps(s, bb, b, r.yes) && Steps(s, bb, b, r.no)
      && (r.swtch.Some? ==> r.swtch.value < n && bb[r.swtch.value] == b && s[r.swtch.value].Switch?)
    decreases n
  {
    if n > 0 {
      FinalStands(s, bb, n - 1, b);
      if bb[n - 1] == b {
        RecordStands(s, bb, n - 1, Final(s, bb, n - 1, b));
      }
    }
  }

  /** An edge is there only where control can pass. */
  lemma EdgeStands(s: Body, bb: seq<nat>, blocks: seq<Block>, g: Graph, a: nat, b: nat)
    requires WellFormedBody(s) && |bb| == |s| && BlockGraph(s, bb, blocks, g) && Edge(g, a, b)
    ensures BlockStep(s, bb, a, b)
  {
    FinalStands(s, bb, |s|, a);
    var r := blocks[a];
    var k :| 0 <= k < |g[a]| && g[a][k] == b;
    LeavesAre(s, bb, r, k);
    if r.swtch.Some? && !(r.yes == Some(b) || r.no == Some(b)) {
      var j :| j in Targets(s[r.swtch.value]) && bb[j] == b;
      TargetsInBody(s, r.swtch.value);
      assert Flow(s, r.swtch.value, j);
    }
  }

  lemma LeavesAre(s: Body, bb: seq<nat>, r: Block, k: nat)
    requires WellFormedBody(s) && |bb| == |s| && (r.swtch.Some? ==> r.swtch.value < |s|) && k < |Leaves(s, bb, r)|
    ensures var b := Leaves(s, bb, r)[k];
      || r.yes == Some(b) || r.no == Some(b)
      || (r.swtch.Some? && exists j :: j in Targets(s[r.swtch.value]) && j < |s| && bb[j] == b)
  {
    var q := |Opt(r.yes)| + |Opt(r.no)|;
    if k < q {
      assert Leaves(s, bb, r)[k] == (Opt(r.yes) + Opt(r.no))[k];
    } else {
      var ts := Targets(s[r.swtch.value]);
      TargetsInBody(s, r.swtch.value);
      assert ts[k - q] in ts;
      assert Leaves(s, bb, r)[k] == bb[ts[k - q]];
    }
  }

  /** Blocks that steps of control lead to from the first one. */
  ghost predicate BlockPath(s: Body, bb: seq<nat>, q: seq<nat>)
    requires |bb| == |s|
  {
    q != [] && q[0] == 0 && forall k :: 0 < k < |q| ==> BlockStep(s, bb, q[k - 1], q[k])
  }

  ghost predicate BlockReached(s: Body, bb: seq<nat>, b: nat)
    requires |bb| == |s|
  {
    exists q :: BlockPath(s, bb, q) && q[|q| - 1] == b
  }

  /** Nothing is marked that steps of control between blocks do not lead to. */
  lemma MarkedIsReached(s: Body, bb: seq<nat>, blocks: seq<Block>, g: Graph, b: nat)
    requires WellFormedBody(s) && |bb| == |s| && BlockGraph(s, bb, blocks, g) && Reachable(g, 0, b)
    ensures BlockReached(s, bb, b)
  {
    var p :| Path(g, p) && p[0] == 0 && p[|p| - 1] == b;
    forall k | 0 < k < |p| ensures BlockStep(s, bb, p[k - 1], p[k]) {
      EdgeStands(s, bb, blocks, g, p[k - 1], p[k]);
    }
    assert BlockPath(s, bb, p);
  }

  /** And all of it is, when no case is overwritten. */
  lemma {:induction false} ReachedBlockMarked(s: Body, bb: seq<nat>, blocks: seq<Block>, g: Graph, q: seq<nat>)
    requires WellFormedBody(s) && |bb| == |s| && Numbered(s, bb) && BlockGraph(s, bb, blocks, g)
    requires Bounded(bb, |g|) && OneSwitchPerBlock(s, bb) && BlockPath(s, bb, q)
    ensures Reachable(g, 0, q[|q| - 1])
    decreases |q|
  {
    var b := q[|q| - 1];
    if |q| == 1 {
      assert bb[0] < |g|;
      ReachableSelf(g, 0);
    } else {
      var p := q[..|q| - 1];
      var a := q[|q| - 2];
      ReachedBlockMarked(s, bb, blocks, g, p);
      assert BlockStep(s, bb, q[|q| - 1 - 1], q[|q| - 1]);
      var i: nat, j: nat :| Flow(s, i, j) && bb[i] == a && bb[j] == b;
      FlowCovered(s, bb, blocks, g, i, j);
      if a != b {
        ReachableStep(g, 0, a, b);
      }
    }
  }

  /** Statements that control can get to from the start of the function. */
  ghost predicate Reached(s: Body, p: seq<nat>) {
    p != [] && p[0] == 0 && 0 < |s| && forall k :: 0 < k < |p| ==> Flow(s, p[k - 1], p[k])
  }

  /** The case of a reached switch that a later one of its block overwrites. */
  ghost predicate LostCase(s: Body, bb: seq<nat>, p: seq<nat>, j: nat)
    requires |bb| == |s|
  {
    Reached(s, p) && Flow(s, p[|p| - 1], j) &&
    var i := p[|p| - 1];
    i < |s| && s[i].Switch? && LaterSwitch(s, bb, i, |s|)
  }

  /** Every such case is marked all the same. */
  ghost predicate CasesMarked(s: Body, bb: seq<nat>, g: Graph)
    requires |bb| == |s|
  {
    forall p: seq<nat>, j: nat :: LostCase(s, bb, p, j) ==> j < |s| && Reachable(g, 0, bb[j])
  }

  lemma OneSwitchMarks(s: Body, bb: seq<nat>, g: Graph)
    requires |bb| == |s| && OneSwitchPerBlock(s, bb)
    ensures CasesMarked(s, bb, g)
  {
  }

  /** Then nothing that can run is trimmed: every statement control can reach lies in a block that
      visit marks. */
  lemma {:induction false} ReachedIsMarked(s: Body, bb: seq<nat>, blocks: seq<Block>, g: Graph, p: seq<nat>)
    requires WellFormedBody(s) && |bb| == |s| && Numbered(s, bb) && BlockGraph(s, bb, blocks, g)
    requires Bounded(bb, |g|)
    requires CasesMarked(s, bb, g) && Reached(s, p)
    ensures p[|p| - 1] < |s| && Reachable(g, 0, bb[p[|p| - 1]])
    decreases |p|
  {
    var j := p[|p| - 1];
    if |p| == 1 {
      ReachableSelf(g, 0);
    } else {
      var q := p[..|p| - 1];
      assert Flow(s, p[|p| - 2], j);
      ReachedIsMarked(s, bb, blocks, g, q);
      var i := q[|q| - 1];
      if s[i].Switch? && LaterSwitch(s, bb, i, |s|) {
        assert LostCase(s, bb, q, j);
      } else {
        FlowCovered(s, bb, blocks, g, i, j);
        if bb[j] != bb[i] {
          ReachableStep(g, 0, bb[i], bb[j]);
        }
      }
    }
  }

  /** A switch right behind a switch: control reaches statement 4 through the first one, but
      their block remembers the second only, and visit does not mark the block of statement 4. */
  lemma NestedSwitchLost(s: Body, bb: seq<nat>, blocks: seq<Block>, g: Graph)
    requires s == [BFun, Switch([4]), Switch([3]), Ret, Other, EFun] && bb == [0, 0, 0, 1, 2, 3]
    requires blocks == [Block(Some(2), None, None, Some(2)), Block(Some(3), Some(3), None, None),
                        Block(Some(4), Some(3), None, None), EMPTY]
    requires g == [[1], [3], [3], []]
    ensures WellFormedBody(s) && Reached(s, [0, 1, 4])
    ensures Numbered(s, bb) && BlockGraph(s, bb, blocks, g) && !Reachable(g, 0, bb[4])
  {
    NestedShape(s);
    NestedGraph(s, bb, blocks, g);
    NestedUnmarked(g);
  }

  lemma NestedGraph(s: Body, bb: seq<nat>, blocks: seq<Block>, g: Graph)
    requires s == [BFun, Switch([4]), Switch([3]), Ret, Other, EFun] && bb == [0, 0, 0, 1, 2, 3]
    requires blocks == [Block(Some(2), None, None, Some(2)), Block(Some(3), Some(3), None, None),
                        Block(Some(4), Some(3), None, None), EMPTY]
    requires g == [[1], [3], [3], []] && WellFormedBody(s)
    ensures Numbered(s, bb) && BlockGraph(s, bb, blocks, g)
  {
    NestedNumbers(s, bb);
    NestedBuilt(s, bb);
    NestedLeaves(s, bb);
  }

  lemma NestedNumbers(s: Body, bb: seq<nat>)
    requires s == [BFun, Switch([4]), Switch([3]), Ret, Other, EFun] && bb == [0, 0, 0, 1, 2, 3]
    ensures Numbered(s, bb)
  {
    NestedEntries(s);
  }

  lemma NestedShape(s: Body)
    requires s == [BFun, Switch([4]), Switch([3]), Ret, Other, EFun]
    ensures WellFormedBody(s) && Reached(s, [0, 1, 4])
  {
    assert Targets(s[1]) == [4] && Targets(s[2]) == [3];
    assert Flow(s, 0, 1) && Flow(s, 1, 4);
  }

  lemma NestedUnmarked(g: Graph)
    requires g == [[1], [3], [3], []]
    ensures !Reachable(g, 0, 2)
  {
    if Reachable(g, 0, 2) {
      ClosedContains(g, {0, 1, 3}, 0, 2);
    }
  }

  lemma NestedBuilt(s: Body, bb: seq<nat>)
    requires s == [BFun, Switch([4]), Switch([3]), Ret, Other, EFun] && bb == [0, 0, 0, 1, 2, 3]
    requires WellFormedBody(s) && Numbered(s, bb)
    ensures Final(s, bb, 6, 0) == Block(Some(2), None, None, Some(2))
    ensures Final(s, bb, 6, 1) == Block(Some(3), Some(3), None, None)
    ensures Final(s, bb, 6, 2) == Block(Some(4), Some(3), None, None)
    ensures Final(s, bb, 6, 3) == EMPTY
  {
    NestedEntries(s);
    FinalBefore(s, bb, 1, 0);
    assert Final(s, bb, 1, 0) == Record(s, bb, 0, Final(s, bb, 0, 0)) == EMPTY;
    assert Final(s, bb, 2, 0) == Record(s, bb, 1, Final(s, bb, 1, 0));
    assert Final(s, bb, 3, 0) == Record(s, bb, 2, Final(s, bb, 2, 0));
    FinalLater(s, bb, 2, 6);
    FinalBefore(s, bb, 3, 1);
    FinalLater(s, bb, 3, 6);
    FinalBefore(s, bb, 4, 2);
    FinalLater(s, bb, 4, 6);
    FinalBefore(s, bb, 5, 3);
  }

  lemma {:induction false} FinalBefore(s: Body, bb: seq<nat>, n: nat, b: nat)
    requires WellFormedBody(s) && |bb| == |s| && n <= |s|
    ensures (forall x :: 0 <= x < n ==> bb[x] != b) ==> Final(s, bb, n, b) == EMPTY
  {
    if n > 0 {
      FinalBefore(s, bb, n - 1, b);
    }
  }

  lemma NestedLeaves(s: Body, bb: seq<nat>)
    requires s == [BFun, Switch([4]), Switch([3]), Ret, Other, EFun] && bb == [0, 0, 0, 1, 2, 3]
    requires WellFormedBody(s)
    ensures Leaves(s, bb, Block(Some(2), None, None, Some(2))) == [1]
    ensures Leaves(s, bb, Block(Some(3), Some(3), None, None)) == [3]
    ensures Leaves(s, bb, Block(Some(4), Some(3), None, None)) == [3]
    ensures Leaves(s, bb, EMPTY) == []
  {
    assert Targets(s[2]) == [3];
  }

  lemma NestedEntries(s: Body)
    requires s == [BFun, Switch([4]), Switch([3]), Ret, Other, EFun]
    ensures forall i :: 0 <= i < |s| ==> (Entry(s, i) <==> i == 0 || i >= 3)
  {
    assert Opens(s, 0) == [0] && Opens(s, 1) == [4] && Opens(s, 2) == [3] && Opens(s, 3) == [5, 4];
    assert Opens(s, 4) == [] && Opens(s, 5) == [];
    assert 0 in Opens(s, 0) && 4 in Opens(s, 1) && 3 in Opens(s, 2) && 5 in Opens(s, 3);
    forall i | 0 <= i < |s| ensures Entry(s, i) <==> i == 0 || i >= 3 {
      if Entry(s, i) {
        var x :| 0 <= x < |s| && i in Opens(s, x);
      }
    }
  }

  // ----- trimcfg -----

  /** `next` leads from each statement to the one behind it, over what was deleted. */
  ghost predicate Forward(next: seq<nat>, alive: seq<bool>) {
    && |next| == |alive|
    && (forall i :: 0 <= i < |alive| && alive[i] ==>
          i < next[i] <= |alive| && (next[i] < |alive| ==> alive[next[i]]))
    && (forall i, x :: 0 <= i < |alive| && alive[i] && i < x < next[i] ==> !alive[x])
  }

  ghost predicate Backward(prev: seq<int>, alive: seq<bool>) {
    && |prev| == |alive|
    && (forall i :: 0 <= i < |alive| && alive[i] ==>
          -1 <= prev[i] < i && (prev[i] >= 0 ==> alive[prev[i]]))
    && (forall i, x :: 0 <= i < |alive| && alive[i] && prev[i] < x < i ==> !alive[x])
  }

  /** The doubly linked statement list: `next` and `prev` skip over what was deleted. */
  ghost predicate ListOf(next: seq<nat>, prev: seq<int>, alive: seq<bool>) {
    Forward(next, alive) && Backward(prev, alive)
  }

  lemma UnlinkedForward(next: seq<nat>, prev: seq<int>, alive: seq<bool>, begin: nat, end: nat,
                        next': seq<nat>, alive': seq<bool>)
    requires ListOf(next, prev, alive) && Whole(alive, begin, end) && Without(alive, begin, end, alive')
    requires next' == if prev[begin] >= 0 then next[prev[begin] := next[end]] else next
    ensures Forward(next', alive')
  {
    var l := prev[begin];
    forall i | 0 <= i < |alive'| && alive'[i]
      ensures i < next'[i] <= |alive'| && (next'[i] < |alive'| ==> alive'[next'[i]])
      ensures forall x :: i < x < next'[i] ==> !alive'[x]
    {
      if i != l {
        assert next'[i] == next[i];
        if i < begin { assert i < l; assert next[i] <= l; }
      }
    }
  }

  lemma UnlinkedBackward(next: seq<nat>, prev: seq<int>, alive: seq<bool>, begin: nat, end: nat,
                         prev': seq<int>, alive': seq<bool>)
    requires ListOf(next, prev, alive) && Whole(alive, begin, end) && Without(alive, begin, end, alive')
    requires prev' == if next[end] < |alive| then prev[next[end] := prev[begin]] else prev
    ensures Backward(prev', alive')
  {
    var r := next[end];
    forall i | 0 <= i < |alive'| && alive'[i]
      ensures -1 <= prev'[i] < i && (prev'[i] >= 0 ==> alive'[prev'[i]])
      ensures forall x :: prev'[i] < x < i ==> !alive'[x]
    {
      if i != r {
        assert prev'[i] == prev[i];
        if i > end { assert r < i; assert r <= prev[i]; }
      }
    }
  }

  /** Redirecting the two neighbours of a run of statements takes the run out of the list. */
  lemma Unlinked(next: seq<nat>, prev: seq<int>, alive: seq<bool>, begin: nat, end: nat,
                 next': seq<nat>, prev': seq<int>, alive': seq<bool>)
    requires ListOf(next, prev, alive) && Whole(alive, begin, end)
    requires next' == if prev[begin] >= 0 then next[prev[begin] := next[end]] else next
    requires prev' == if next[end] < |alive| then prev[next[end] := prev[begin]] else prev
    requires Without(alive, begin, end, alive')
    ensures ListOf(next', prev', alive')
  {
    UnlinkedForward(next, prev, alive, begin, end, next', alive');
    UnlinkedBackward(next, prev, alive, begin, end, prev', alive');
  }

  /** delrange: unlink statements `begin` to `end` and free them one by one. */
  method DelRange(next: seq<nat>, prev: seq<int>, alive: seq<bool>, begin: nat, end: nat)
    returns (next': seq<nat>, prev': seq<int>, alive': seq<bool>)
    requires ListOf(next, prev, alive) && Whole(alive, begin, end)
    ensures ListOf(next', prev', alive') && Without(alive, begin, end, alive')
  {
    next', prev' := next, prev;
    var lprev, rnext := prev[begin], next[end];
    if lprev >= 0 {
      next' := next'[lprev := rnext];
    }
    if rnext < |alive| {
      prev' := prev'[rnext := lprev];
    }
    alive' := FreeRun(next, prev, alive, begin, end);
    Unlinked(next, prev, alive, begin, end, next', prev', alive');
  }

  /** The loop of delrange that frees the run, following the links. */
  method FreeRun(next: seq<nat>, ghost prev: seq<int>, alive: seq<bool>, begin: nat, end: nat) returns (r: seq<bool>)
    requires ListOf(next, prev, alive) && Whole(alive, begin, end)
    ensures Without(alive, begin, end, r)
  {
    r := alive;
    var np, rnext := begin, next[end];
    while np != rnext
      invariant begin <= np && (np <= end || np == rnext) && |r| == |alive|
      invariant forall x :: 0 <= x < |alive| ==> r[x] == (alive[x] && !(begin <= x <= end && x < np))
      decreases |alive| - np
    {
      r := r[np := false];
      np := next[np];
    }
  }

  // ----- the whole pass -----

  /** Block `b` consists of the statements `lo` to `hi`. */
  ghost predicate BlockIs(bb: seq<nat>, b: nat, lo: nat, hi: nat) {
    forall i :: 0 <= i < |bb| ==> (bb[i] == b <==> lo <= i <= hi)
  }

  /** Statements `lo` to `hi` are all in the list. */
  ghost predicate Whole(alive: seq<bool>, lo: nat, hi: nat) {
    lo <= hi < |alive| && forall x :: lo <= x <= hi ==> alive[x]
  }

  /** `alive'` is `alive` without the statements `lo` to `hi`. */
  ghost predicate Without(alive: seq<bool>, lo: nat, hi: nat, alive': seq<bool>) {
    |alive'| == |alive| && forall x :: 0 <= x < |alive| ==> alive'[x] == (alive[x] && !(lo <= x <= hi))
  }

  /** A block other than that of the last statement ends at its recorded exit. */
  lemma ExitIsLast(s: Body, bb: seq<nat>, entryp: seq<nat>, b: nat) returns (e: nat)
    requires WellFormedBody(s) && |bb| == |s| && Numbered(s, bb) && Heads(s, bb, entryp)
    requires b < bb[|s| - 1]
    ensures b < |entryp| && entryp[b] <= e < |s| && Final(s, bb, |s|, b).exitp == Some(e)
    ensures BlockIs(bb, b, entryp[b], e)
  {
    e := entryp[b + 1] - 1;
    var f := entryp[b + 1];
    BlockMonotone(s, bb, entryp[b], |s| - 1);
    if f <= entryp[b] { BlockMonotone(s, bb, f, entryp[b]); }
    assert Entry(s, f) && bb[f] == bb[f - 1] + 1;
    FinalOfLast(s, bb, e);
    forall i | 0 <= i < |s| ensures bb[i] == b <==> entryp[b] <= i <= e {
      if i < entryp[b] {
        BlockMonotone(s, bb, i, entryp[b]);
      } else if i <= e {
        BlockMonotone(s, bb, entryp[b], i);
        BlockMonotone(s, bb, i, e);
      } else {
        BlockMonotone(s, bb, f, i);
      }
    }
  }

  /** The blocks below `b` have been dealt with. */
  ghost predicate TrimmedTo(bb: seq<nat>, visited: set<nat>, b: nat, alive: seq<bool>) {
    |alive| == |bb| && forall i :: 0 <= i < |bb| ==> (alive[i] <==> bb[i] in visited || bb[i] >= b)
  }

  lemma TrimmedStep(bb: seq<nat>, visited: set<nat>, b: nat, alive: seq<bool>, alive': seq<bool>, lo: nat, hi: nat)
    requires TrimmedTo(bb, visited, b, alive) && b !in visited
    requires BlockIs(bb, b, lo, hi) && Without(alive, lo, hi, alive')
    ensures TrimmedTo(bb, visited, b + 1, alive')
  {
  }

  lemma BlockAlive(bb: seq<nat>, visited: set<nat>, b: nat, alive: seq<bool>, lo: nat, hi: nat)
    requires TrimmedTo(bb, visited, b, alive) && lo <= hi < |bb|
    requires BlockIs(bb, b, lo, hi)
    ensures Whole(alive, lo, hi)
  {
  }

  lemma TrimmedSkip(bb: seq<nat>, visited: set<nat>, b: nat, alive: seq<bool>)
    requires TrimmedTo(bb, visited, b, alive) && b in visited
    ensures TrimmedTo(bb, visited, b + 1, alive)
  {
  }

  /** The loop of trimcfg up to the block of the last statement: delete the statements of every
      block that was not marked. */
  method Trim(s: Body, bb: seq<nat>, entryp: seq<nat>, blocks: seq<Block>, visited: set<nat>,
              next: seq<nat>, prev: seq<int>, alive: seq<bool>)
    returns (next': seq<nat>, prev': seq<int>, alive': seq<bool>)
    requires WellFormedBody(s) && |bb| == |s| && Numbered(s, bb) && Heads(s, bb, entryp)
    requires |blocks| == |entryp| && Built(s, bb, |s|, blocks)
    requires ListOf(next, prev, alive) && TrimmedTo(bb, visited, 0, alive)
    ensures ListOf(next', prev', alive') && TrimmedTo(bb, visited, bb[|s| - 1], alive')
  {
    next', prev', alive' := next, prev, alive;
    var b := 0;
    while b < bb[|s| - 1]
      invariant 0 <= b <= bb[|s| - 1] && ListOf(next', prev', alive') && TrimmedTo(bb, visited, b, alive')
    {
      if b !in visited {
        next', prev', alive' := TrimBlock(s, bb, entryp, blocks, visited, b, next', prev', alive');
      } else {
        TrimmedSkip(bb, visited, b, alive');
      }
      b := b + 1;
    }
  }

  method TrimBlock(s: Body, ghost bb: seq<nat>, entryp: seq<nat>, blocks: seq<Block>, ghost visited: set<nat>, b: nat,
                   next: seq<nat>, prev: seq<int>, alive: seq<bool>)
    returns (next': seq<nat>, prev': seq<int>, alive': seq<bool>)
    requires WellFormedBody(s) && |bb| == |s| && Numbered(s, bb) && Heads(s, bb, entryp)
    requires |blocks| == |entryp| && Built(s, bb, |s|, blocks) && b < bb[|s| - 1] && b !in visited
    requires ListOf(next, prev, alive) && TrimmedTo(bb, visited, b, alive)
    ensures ListOf(next', prev', alive') && TrimmedTo(bb, visited, b + 1, alive')
  {
    ghost var e := ExitIsLast(s, bb, entryp, b);
    assert blocks[b] == Final(s, bb, |s|, b);
    BlockAlive(bb, visited, b, alive, entryp[b], e);
    next', prev', alive' := DelRange(next, prev, alive, entryp[b], blocks[b].exitp.value);
    TrimmedStep(bb, visited, b, alive, alive', entryp[b], e);
  }

  // ----- the block of the last statement -----

  ghost predicate SwitchInLast(s: Body, bb: seq<nat>)
    requires |bb| == |s| > 0
  {
    exists x :: 0 <= x < |s| && bb[x] == bb[|s| - 1] && s[x].Switch?
  }

  /** Statement `i` stands in the last block behind every switch of it, and there is one. */
  ghost predicate BehindSwitch(s: Body, bb: seq<nat>, i: nat)
    requires |bb| == |s| > 0
  {
    i < |s| && bb[i] == bb[|s| - 1] && SwitchInLast(s, bb) &&
    forall x :: 0 <= x < |s| && bb[x] == bb[|s| - 1] && s[x].Switch? ==> x < i
  }

  /** The block of the last statement gets an exit only from a switch inside it: without one,
      deleting that block would start from a null pointer. */
  lemma {:induction false} LastBlockExit(s: Body, bb: seq<nat>, n: nat)
    requires WellFormedBody(s) && |bb| == |s| && Numbered(s, bb) && n <= |s|
    ensures Final(s, bb, n, bb[|s| - 1]).exitp == None <==>
            forall x :: 0 <= x < n && bb[x] == bb[|s| - 1] ==> !s[x].Switch?
  {
    if n > 0 {
      LastBlockExit(s, bb, n - 1);
      if bb[n - 1] == bb[|s| - 1] {
        BlockMonotone(s, bb, n - 1, |s| - 1);
      }
    }
  }

  /** And then its exit is the last switch. */
  lemma {:induction false} LastExitIs(s: Body, bb: seq<nat>, n: nat, e: nat)
    requires WellFormedBody(s) && |bb| == |s| && Numbered(s, bb) && n <= |s|
    requires Final(s, bb, n, bb[|s| - 1]).exitp == Some(e)
    ensures e < n && bb[e] == bb[|s| - 1] && s[e].Switch?
    ensures forall x :: e < x < n && bb[x] == bb[|s| - 1] ==> !s[x].Switch?
  {
    if bb[n - 1] == bb[|s| - 1] {
      BlockMonotone(s, bb, n - 1, |s| - 1);
    }
    if !(bb[n - 1] == bb[|s| - 1] && s[n - 1].Switch?) {
      LastExitIs(s, bb, n - 1, e);
    }
  }

  /** What trimming leaves: the marked blocks, and of an unmarked last block what stands behind its
      last switch. */
  ghost predicate Kept(s: Body, bb: seq<nat>, visited: set<nat>, alive: seq<bool>)
    requires |bb| == |s| > 0
  {
    |alive| == |s| && forall i :: 0 <= i < |s| ==>
      (alive[i] <==> bb[i] in visited || (bb[|s| - 1] !in visited && BehindSwitch(s, bb, i)))
  }

  /** The turn of trimcfg for the last block, when it was not marked and has an exit. */
  method TrimLast(s: Body, ghost bb: seq<nat>, entryp: seq<nat>, ghost visited: set<nat>, b: nat, e: nat,
                  next: seq<nat>, prev: seq<int>, alive: seq<bool>)
    returns (next': seq<nat>, prev': seq<int>, alive': seq<bool>)
    requires WellFormedBody(s) && |bb| == |s| && Numbered(s, bb) && Heads(s, bb, entryp)
    requires b == bb[|s| - 1] < |entryp| && b !in visited && Final(s, bb, |s|, b).exitp == Some(e)
    requires ListOf(next, prev, alive) && TrimmedTo(bb, visited, b, alive)
    ensures ListOf(next', prev', alive') && Kept(s, bb, visited, alive')
  {
    LastExitIs(s, bb, |s|, e);
    BlocksBelow(s, bb, entryp, e);
    LastBlockFrom(s, bb, entryp[b]);
    next', prev', alive' := DelRange(next, prev, alive, entryp[b], e);
    KeptLast(s, bb, visited, b, e, entryp[b], alive, alive');
  }

  lemma KeptLast(s: Body, bb: seq<nat>, visited: set<nat>, b: nat, e: nat, lo: nat, alive: seq<bool>, alive': seq<bool>)
    requires |bb| == |s| > 0 && b == bb[|s| - 1] && b !in visited && lo <= e < |s|
    requires TrimmedTo(bb, visited, b, alive) && Without(alive, lo, e, alive')
    requires forall i :: 0 <= i < |s| ==> (bb[i] >= b <==> lo <= i) && bb[i] <= b
    requires s[e].Switch? && forall x :: e < x < |s| && bb[x] == b ==> !s[x].Switch?
    ensures Kept(s, bb, visited, alive')
  {
    assert bb[e] == b;
    forall i | 0 <= i < |s| ensures alive'[i] <==> bb[i] in visited || BehindSwitch(s, bb, i) {
      if lo <= i && i <= e {
        assert bb[i] == b && !BehindSwitch(s, bb, i);
      }
    }
  }

  /** The last block is everything from its first statement on. */
  lemma LastBlockFrom(s: Body, bb: seq<nat>, lo: nat)
    requires |bb| == |s| > 0 && Numbered(s, bb) && lo < |s| && Entry(s, lo) && bb[lo] == bb[|s| - 1]
    ensures forall i :: 0 <= i < |s| ==> (bb[i] >= bb[|s| - 1] <==> lo <= i) && bb[i] <= bb[|s| - 1]
  {
    forall i | 0 <= i < |s| ensures (bb[i] >= bb[|s| - 1] <==> lo <= i) && bb[i] <= bb[|s| - 1] {
      BlockMonotone(s, bb, i, |s| - 1);
      if i < lo {
        BlockMonotone(s, bb, i, lo);
      } else {
        BlockMonotone(s, bb, lo, i);
      }
    }
  }

  ghost predicate MarkedAlive(bb: seq<nat>, visited: set<nat>, alive: seq<bool>) {
    |alive| == |bb| && forall i :: 0 <= i < |bb| && bb[i] in visited ==> alive[i]
  }

  /** What can run stays, and what follows it by falling through is still its neighbour. */
  lemma TrimKeepsControlFlow(s: Body, bb: seq<nat>, blocks: seq<Block>, g: Graph, visited: set<nat>,
                             next: seq<nat>, prev: seq<int>, alive: seq<bool>, p: seq<nat>, j: nat)
    requires WellFormedBody(s) && |bb| == |s| && Numbered(s, bb) && BlockGraph(s, bb, blocks, g)
    requires Bounded(bb, |g|)
    requires MarksReachable(g, visited)
    requires CasesMarked(s, bb, g) && Reached(s, p) && Flow(s, p[|p| - 1], j)
    requires ListOf(next, prev, alive) && MarkedAlive(bb, visited, alive)
    ensures StepKept(s, next, alive, p, j)
  {
    var i := p[|p| - 1];
    ReachedIsMarked(s, bb, blocks, g, p);
    ReachedOn(s, p, j);
    ReachedIsMarked(s, bb, blocks, g, p + [j]);
    assert alive[i] && alive[j];
    if j == i + 1 {
      NextNeighbour(next, prev, alive, i);
    }
  }

  lemma ReachedOn(s: Body, p: seq<nat>, j: nat)
    requires Reached(s, p) && Flow(s, p[|p| - 1], j)
    ensures Reached(s, p + [j]) && (p + [j])[|p + [j]| - 1] == j
  {
    var q := p + [j];
    forall k | 0 < k < |q| ensures Flow(s, q[k - 1], q[k]) {
      if k < |p| {
        assert Flow(s, p[k - 1], p[k]);
      }
    }
  }

  lemma NextNeighbour(next: seq<nat>, prev: seq<int>, alive: seq<bool>, i: nat)
    requires ListOf(next, prev, alive) && i + 1 < |alive| && alive[i] && alive[i + 1]
    ensures next[i] == i + 1
  {
  }

  method BuildGraph(s: Body, bb: seq<nat>, blocks: seq<Block>) returns (g: Graph)
    requires WellFormedBody(s) && |bb| == |s| && Built(s, bb, |s|, blocks)
    requires forall i :: 0 <= i < |s| ==> bb[i] < |blocks|
    ensures BlockGraph(s, bb, blocks, g) && WellFormed(g)
  {
    g := [];
    var b := 0;
    while b < |blocks|
      invariant 0 <= b <= |blocks| && |g| == b
      invariant forall c :: 0 <= c < b ==>
                  (blocks[c].swtch.Some? ==> blocks[c].swtch.value < |s|) && g[c] == Leaves(s, bb, blocks[c])
      invariant forall c, k :: 0 <= c < b && 0 <= k < |g[c]| ==> g[c][k] < |blocks|
    {
      SwtchInBody(s, bb, |s|, b);
      assert blocks[b] == Final(s, bb, |s|, b);
      FinalBelow(s, bb, |s|, b, |blocks|);
      LeavesBelow(s, bb, blocks[b], |blocks|);
      g := g + [Leaves(s, bb, blocks[b])];
      b := b + 1;
    }
  }

  ghost predicate EdgesBelow(b: Block, nr: nat) {
    (b.yes.Some? ==> b.yes.value < nr) && (b.no.Some? ==> b.no.value < nr)
  }

  lemma RecordBelow(s: Body, bb: seq<nat>, i: nat, b: Block, nr: nat)
    requires WellFormedBody(s) && |bb| == |s| && i < |s| && EdgesBelow(b, nr)
    requires forall x :: 0 <= x < |s| ==> bb[x] < nr
    ensures EdgesBelow(Record(s, bb, i, b), nr)
  {
    if Ends(s[i]) { EndsIsExit(s, i); }
    TargetsInBody(s, i);
    if s[i].Branch? || s[i].Jmp? { assert s[i].to in Targets(s[i]); }
  }

  lemma {:induction false} FinalBelow(s: Body, bb: seq<nat>, n: nat, b: nat, nr: nat)
    requires WellFormedBody(s) && |bb| == |s| && n <= |s| && forall i :: 0 <= i < |s| ==> bb[i] < nr
    ensures EdgesBelow(Final(s, bb, n, b), nr)
  {
    if n > 0 {
      FinalBelow(s, bb, n - 1, b, nr);
      RecordBelow(s, bb, n - 1, Final(s, bb, n - 1, b), nr);
    }
  }

  lemma LeavesBelow(s: Body, bb: seq<nat>, b: Block, nr: nat)
    requires WellFormedBody(s) && |bb| == |s| && (b.swtch.Some? ==> b.swtch.value < |s|) && EdgesBelow(b, nr)
    requires forall x :: 0 <= x < |s| ==> bb[x] < nr
    ensures forall k :: 0 <= k < |Leaves(s, bb, b)| ==> Leaves(s, bb, b)[k] < nr
  {
    var r, q := Leaves(s, bb, b), |Opt(b.yes)| + |Opt(b.no)|;
    forall k | 0 <= k < |r| ensures r[k] < nr {
      if k < q {
        assert r[k] == (Opt(b.yes) + Opt(b.no))[k];
      } else {
        var ts := Targets(s[b.swtch.value]);
        TargetsInBody(s, b.swtch.value);
        assert ts[k - q] in ts;
        assert r[k] == bb[ts[k - q]];
      }
    }
  }

  /** If control gets along `p` and then to `j`, both ends are still there, and if it simply
      falls into `j`, that is still the next statement. */
  ghost predicate StepKept(s: Body, next: seq<nat>, alive: seq<bool>, p: seq<nat>, j: nat)
    requires |next| == |alive| == |s|
  {
    Reached(s, p) && Flow(s, p[|p| - 1], j) ==>
      var i := p[|p| - 1];
      alive[i] && alive[j] && (j == i + 1 ==> next[i] == j)
  }

  ghost predicate ControlFlowKept(s: Body, next: seq<nat>, alive: seq<bool>) {
    |next| == |alive| == |s| && forall p: seq<nat>, j: nat :: StepKept(s, next, alive, p, j)
  }

  lemma AllControlFlowKept(s: Body, bb: seq<nat>, blocks: seq<Block>, g: Graph, visited: set<nat>,
                           next: seq<nat>, prev: seq<int>, alive: seq<bool>)
    requires WellFormedBody(s) && |bb| == |s| && Numbered(s, bb) && BlockGraph(s, bb, blocks, g)
    requires Bounded(bb, |g|)
    requires MarksReachable(g, visited)
    requires ListOf(next, prev, alive) && Kept(s, bb, visited, alive)
    ensures ControlFlowKept(s, next, alive) <==> CasesMarked(s, bb, g)
  {
    if CasesMarked(s, bb, g) {
      forall p: seq<nat>, j: nat ensures StepKept(s, next, alive, p, j) {
        if Reached(s, p) && Flow(s, p[|p| - 1], j) {
          TrimKeepsControlFlow(s, bb, blocks, g, visited, next, prev, alive, p, j);
        }
      }
    }
    if ControlFlowKept(s, next, alive) {
      forall p: seq<nat>, j: nat | LostCase(s, bb, p, j) ensures j < |s| && Reachable(g, 0, bb[j]) {
        assert StepKept(s, next, alive, p, j);
        CaseNotBehind(s, bb, p[|p| - 1], j);
      }
    }
  }

  /** A case opens a block, so it does not stand behind a switch of its own block. */
  lemma CaseNotBehind(s: Body, bb: seq<nat>, i: nat, j: nat)
    requires WellFormedBody(s) && |bb| == |s| && Numbered(s, bb) && i < |s| && s[i].Switch? && Flow(s, i, j)
    ensures j < |s| && !BehindSwitch(s, bb, j)
  {
    TargetsInBody(s, i);
    assert j in Opens(s, i);
    assert Entry(s, j);
    forall x | 0 <= x < j ensures bb[x] < bb[j] {
      BlockMonotone(s, bb, x, j);
    }
  }

  lemma ReachedExactly(s: Body, bb: seq<nat>, blocks: seq<Block>, g: Graph)
    requires WellFormedBody(s) && |bb| == |s| && Numbered(s, bb) && BlockGraph(s, bb, blocks, g) && Bounded(bb, |g|)
    ensures forall i :: 0 <= i < |s| && Reachable(g, 0, bb[i]) ==> BlockReached(s, bb, bb[i])
    ensures OneSwitchPerBlock(s, bb) ==> forall i :: 0 <= i < |s| && BlockReached(s, bb, bb[i]) ==> Reachable(g, 0, bb[i])
  {
    forall i | 0 <= i < |s| && Reachable(g, 0, bb[i]) ensures BlockReached(s, bb, bb[i]) {
      MarkedIsReached(s, bb, blocks, g, bb[i]);
    }
    if OneSwitchPerBlock(s, bb) {
      forall i | 0 <= i < |s| && BlockReached(s, bb, bb[i]) ensures Reachable(g, 0, bb[i]) {
        var q :| BlockPath(s, bb, q) && q[|q| - 1] == bb[i];
        ReachedBlockMarked(s, bb, blocks, g, q);
      }
    }
  }

  datatype Trimmed = NullExit | Trimmed(next: seq<nat>, prev: seq<int>, alive: seq<bool>)

  /** gencfg without the jump optimiser: build the blocks, mark from the entry, trim.  The
      result is `NullExit` where the source would dereference the missing exit of the last block. */
  method GenCfg(s: Body) returns (r: Trimmed, bb: seq<nat>, blocks: seq<Block>, g: Graph)
    requires WellFormedBody(s)
    ensures |bb| == |s| && Numbered(s, bb) && Built(s, bb, |s|, blocks) && BlockGraph(s, bb, blocks, g)
    ensures r.NullExit? <==> !Reachable(g, 0, bb[|s| - 1]) && !SwitchInLast(s, bb)
    ensures r.Trimmed? ==> ListOf(r.next, r.prev, r.alive) && |r.alive| == |s|
    ensures r.Trimmed? ==> forall i :: 0 <= i < |s| ==>
              (r.alive[i] <==> Reachable(g, 0, bb[i]) || (!Reachable(g, 0, bb[|s| - 1]) && BehindSwitch(s, bb, i)))
    ensures r.Trimmed? ==> forall i :: 0 <= i < |s| && r.alive[i] ==>
              BlockReached(s, bb, bb[i]) || (!Reachable(g, 0, bb[|s| - 1]) && BehindSwitch(s, bb, i))
    ensures OneSwitchPerBlock(s, bb) ==> forall i :: 0 <= i < |s| ==> (Reachable(g, 0, bb[i]) <==> BlockReached(s, bb, bb[i]))
    ensures r.Trimmed? ==> (ControlFlowKept(s, r.next, r.alive) <==> CasesMarked(s, bb, g))
    ensures r.Trimmed? && OneSwitchPerBlock(s, bb) ==> ControlFlowKept(s, r.next, r.alive)
  {
    var entry, exit, nr := MarkAll(s);
    var entryp;
    bb, entryp := NumberBlocks(s, entry, nr);
    forall i | 0 <= i < |s| ensures bb[i] < nr {
      BlocksBelow(s, bb, entryp, i);
    }
    blocks := BuildEdges(s, entry, exit, bb, nr);
    g := BuildGraph(s, bb, blocks);
    ReachedExactly(s, bb, blocks, g);
    var visited := Mark(g, 0);
    var next, prev, alive := Linear(|s|);
    next, prev, alive := Trim(s, bb, entryp, blocks, visited, next, prev, alive);
    var b := bb[|s| - 1];
    if b !in visited {
      LastBlockExit(s, bb, |s|);
      if blocks[b].exitp.None? {
        return NullExit, bb, blocks, g;
      }
      next, prev, alive := TrimLast(s, bb, entryp, visited, b, blocks[b].exitp.value, next, prev, alive);
    } else {
      BlocksUpTo(s, bb);
    }
    r := Trimmed(next, prev, alive);
    AllControlFlowKept(s, bb, blocks, g, visited, next, prev, alive);
    if OneSwitchPerBlock(s, bb) {
      OneSwitchMarks(s, bb, g);
    }
  }

  lemma BlocksUpTo(s: Body, bb: seq<nat>)
    requires |bb| == |s| > 0 && Numbered(s, bb)
    ensures forall i :: 0 <= i < |s| ==> bb[i] <= bb[|s| - 1]
  {
    forall i | 0 <= i < |s| ensures bb[i] <= bb[|s| - 1] {
      BlockMonotone(s, bb, i, |s| - 1);
    }
  }

  lemma LoopEntries(s: Body)
    requires s == [BFun, Jmp(1), EFun]
    ensures WellFormedBody(s) && Entry(s, 0) && Entry(s, 1) && Entry(s, 2)
  {
    assert Targets(s[1]) == [1];
    assert Opens(s, 0) == [0] && Opens(s, 1) == [1, 2];
    assert 0 in Opens(s, 0) && 1 in Opens(s, 1) && 2 in Opens(s, 1);
  }

  lemma LoopBlocks(s: Body, bb: seq<nat>)
    requires s == [BFun, Jmp(1), EFun] && |bb| == |s| && WellFormedBody(s) && Numbered(s, bb)
    ensures bb == [0, 1, 2]
    ensures Final(s, bb, 3, 0) == Block(Some(0), Some(1), None, None)
    ensures Final(s, bb, 3, 1) == Block(Some(1), Some(1), None, None)
  {
    LoopEntries(s);
    assert bb[0] == 0 && bb[1] == 1 && bb[2] == 2;
    assert Final(s, bb, 1, 0) == Record(s, bb, 0, EMPTY);
    FinalLater(s, bb, 0, 3);
    FinalBefore(s, bb, 1, 1);
    assert Final(s, bb, 2, 1) == Record(s, bb, 1, EMPTY);
    FinalLater(s, bb, 1, 3);
  }

  /** `for (;;);` in a function: however its blocks are built, the last one is neither marked nor
      holds a switch, so trimming it starts from the null exit. */
  lemma EndlessLoop(s: Body, bb: seq<nat>, blocks: seq<Block>, g: Graph)
    requires s == [BFun, Jmp(1), EFun] && |bb| == |s| && WellFormedBody(s)
    requires Numbered(s, bb) && BlockGraph(s, bb, blocks, g)
    ensures !Reachable(g, 0, bb[|s| - 1]) && !SwitchInLast(s, bb)
    ensures Final(s, bb, |s|, bb[|s| - 1]).exitp == None
  {
    LoopBlocks(s, bb);
    LastBlockExit(s, bb, |s|);
    if Reachable(g, 0, 2) {
      forall x, y | x in {0, 1} && Edge(g, x, y) ensures y in {0, 1} {
        assert blocks[x] == Final(s, bb, 3, x);
        assert Leaves(s, bb, blocks[x]) == [1];
      }
      ClosedContains(g, {0, 1}, 0, 2);
    }
  }

  /** The list as parsed: every statement, in order. */
  method Linear(n: nat) returns (next: seq<nat>, prev: seq<int>, alive: seq<bool>)
    ensures ListOf(next, prev, alive) && |alive| == n && forall i :: 0 <= i < n ==> alive[i]
  {
    next := seq(n, i => i + 1);
    prev := seq(n, i => i - 1);
    alive := seq(n, _ => true);
  }
}
