/** Switch statements: cases as the parser collects them, the chain of comparisons and the
    jump table (swtch.c, and addcase/bswitch/eswitch of cc2/parser.c). */
module Switch {
  import opened Options
  import opened LowerSpec
  import opened LowerGen
  import opened LowerProof

  const TINT_MAX: int := 0x7FFF_FFFF_FFFF_FFFF
  const TINT_MIN: int := -0x8000_0000_0000_0000

  datatype Case = Case(value: int, to: nat)

  /** What C99 section 6.8.4.2 prescribes: the case with that value, else `otherwise`. */
  function Select(cases: seq<Case>, otherwise: nat, v: int): nat {
    if cases == [] then otherwise
    else if cases[0].value == v then cases[0].to else Select(cases[1..], otherwise, v)
  }

  ghost predicate DistinctValues(cases: seq<Case>) {
    forall i, j :: 0 <= i < j < |cases| ==> cases[i].value != cases[j].value
  }

  ghost predicate Sorted(cases: seq<Case>) {
    forall i, j :: 0 <= i < j < |cases| ==> cases[i].value < cases[j].value
  }

  lemma {:induction false} SelectAt(cases: seq<Case>, otherwise: nat, i: nat)
    requires DistinctValues(cases) && i < |cases|
    ensures Select(cases, otherwise, cases[i].value) == cases[i].to
  {
    if i > 0 {
      SelectAt(cases[1..], otherwise, i - 1);
    }
  }

  lemma {:induction false} SelectNone(cases: seq<Case>, otherwise: nat, v: int)
    requires forall i :: 0 <= i < |cases| ==> cases[i].value != v
    ensures Select(cases, otherwise, v) == otherwise
  {
    if cases != [] {
      SelectNone(cases[1..], otherwise, v);
    }
  }

  /** With distinct values the order of the cases does not matter, so sorting them is safe. */
  lemma SelectOrder(a: seq<Case>, b: seq<Case>, otherwise: nat, v: int)
    requires DistinctValues(a) && DistinctValues(b)
    requires forall c :: c in a <==> c in b
    ensures Select(a, otherwise, v) == Select(b, otherwise, v)
  {
    if i :| 0 <= i < |a| && a[i].value == v {
      SelectAt(a, otherwise, i);
      assert a[i] in b;
      var j :| 0 <= j < |b| && b[j] == a[i];
      SelectAt(b, otherwise, j);
    } else {
      forall j | 0 <= j < |b| ensures b[j].value != v {
        assert b[j] in a;
      }
      SelectNone(a, otherwise, v);
      SelectNone(b, otherwise, v);
    }
  }

  // ----- collecting the cases -----

  /** One entry of the parser's switch stack. */
  class Frame {
    var cases: seq<Case>
    var min: int
    var max: int
    var defnode: Option<nat>

    /** `min` and `max` are the least and greatest case value, or the start values. */
    ghost predicate Valid()
      reads this
    {
      && TINT_MIN <= min <= TINT_MAX && TINT_MIN <= max <= TINT_MAX
      && (forall i :: 0 <= i < |cases| ==> min <= cases[i].value <= max)
      && (if cases == [] then min == TINT_MAX && max == TINT_MIN
          else (exists i :: 0 <= i < |cases| && cases[i].value == min) &&
               (exists i :: 0 <= i < |cases| && cases[i].value == max))
    }

    constructor ()
      ensures Valid() && cases == [] && defnode == None
    {
      cases, min, max, defnode := [], TINT_MAX, TINT_MIN, None;
    }

    method AddDefault(to: nat)
      requires Valid()
      modifies this`defnode
      ensures Valid() && defnode == Some(to)
    {
      defnode := Some(to);
    }

    method AddCase(c: Case)
      requires Valid() && TINT_MIN <= c.value <= TINT_MAX
      modifies this`cases, this`min, this`max
      ensures Valid() && cases == old(cases) + [c]
    {
      ghost var before := cases;
      cases := cases + [c];
      assert cases[|before|] == c;
      if c.value < min {
        min := c.value;
      } else if before != [] {
        ghost var i :| 0 <= i < |before| && before[i].value == min;
        assert cases[i].value == min;
      }
      if c.value > max {
        max := c.value;
      } else if before != [] {
        ghost var i :| 0 <= i < |before| && before[i].value == max;
        assert cases[i].value == max;
      }
    }
  }

  /** swtchdefault: the default label, or the end of the switch. */
  function Otherwise(defnode: Option<nat>, eswtch: nat): nat {
    match defnode
    case Some(l) => l
    case None => eswtch
  }

  // ----- the chain of comparisons -----

  function Chain(cases: seq<Case>, x: nat, otherwise: nat): Program {
    if cases == [] then [Do(Jump(otherwise))]
    else [Do(Branch(Leaf(Same(cases[0].value, x)), cases[0].to))] + Chain(cases[1..], x, otherwise)
  }

  method SwtchIf(disc: Expr, x: nat, cases: seq<Case>, otherwise: nat) returns (code: Program)
    ensures code == [Do(Assign(x, disc))] + Chain(cases, x, otherwise)
  {
    code := [Do(Assign(x, disc))];
    ghost var done: Program := [];
    var i := 0;
    while i < |cases|
      invariant 0 <= i <= |cases| && code == [Do(Assign(x, disc))] + done
      invariant done + Chain(cases[i..], x, otherwise) == Chain(cases, x, otherwise)
    {
      var s := Do(Branch(Leaf(Same(cases[i].value, x)), cases[i].to));
      code := code + [s];
      assert cases[i..][1..] == cases[i + 1..];
      assert done + ([s] + Chain(cases[i + 1..], x, otherwise)) == done + [s] + Chain(cases[i + 1..], x, otherwise);
      done := done + [s];
      i := i + 1;
    }
    code := code + [Do(Jump(otherwise))];
    assert cases[i..] == [];
  }

  /** Wherever the chain stands, it jumps to the label of the case that holds. */
  lemma {:induction false} ChainCorrect(p: Program, o: Oracle, cases: seq<Case>, x: nat, otherwise: nat, a: Config, b: Config)
    returns (d: Config)
    requires Reaches(p, o, a, b) && Embedded(p, b.pc, Chain(cases, x, otherwise))
    ensures Reaches(p, o, a, d) && d == b.(pc := Find(p, Select(cases, otherwise, Value(b.temps, x))))
    decreases |cases|
  {
    var code := Chain(cases, x, otherwise);
    EmbeddedAt(p, b.pc, code, 0);
    if cases == [] {
      d := RunJump(p, o, a, b, otherwise);
    } else {
      var c := RunCompare(p, o, a, b, cases[0].value, x, cases[0].to);
      if Value(b.temps, x) == cases[0].value {
        d := c;
      } else {
        EmbeddedConcat(p, b.pc, [code[0]], Chain(cases[1..], x, otherwise));
        d := ChainCorrect(p, o, cases[1..], x, otherwise, a, c);
      }
    }
  }

  lemma RunCompare(p: Program, o: Oracle, a: Config, b: Config, k: int, x: nat, l: nat) returns (c: Config)
    requires Reaches(p, o, a, b) && b.pc < |p| && p[b.pc].stmt == Branch(Leaf(Same(k, x)), l)
    ensures c == b.(pc := if Value(b.temps, x) == k then Find(p, l) else b.pc + 1) && Reaches(p, o, a, c)
  {
    c := Step(p, o, b);
    ReachesStep(p, o, b);
    ReachesTrans(p, o, a, b, c);
  }

  /** The discriminant is evaluated once and control goes where the source switch sends it. */
  lemma SwitchCorrect(p: Program, o: Oracle, disc: Expr, x: nat, cases: seq<Case>, otherwise: nat, c: Config)
    returns (d: Config)
    requires Embedded(p, c.pc, [Do(Assign(x, disc))] + Chain(cases, x, otherwise))
    ensures var (h, v) := Eval(o, disc, c.h, c.temps);
            Reaches(p, o, c, d) && d.h == h && d.pc == Find(p, Select(cases, otherwise, v)) && Agree(c.temps, d.temps, x)
  {
    EmbeddedConcat(p, c.pc, [Do(Assign(x, disc))], Chain(cases, x, otherwise));
    EmbeddedAt(p, c.pc, [Do(Assign(x, disc))], 0);
    ReachesSelf(p, o, c);
    var b := RunAssign(p, o, c, c, x, disc, x, x + 1, c.temps);
    d := ChainCorrect(p, o, cases, x, otherwise, c, b);
  }

  // ----- the jump table -----

  /** The loop of swtch_dir over the value range, taking the next case when none is pending.  None
      when the loop counter would have to leave TINT. */
  method SwtchDir(cases: seq<Case>, otherwise: nat, min: int, max: int) returns (table: Option<seq<nat>>)
    requires Sorted(cases) && min <= TINT_MAX && max <= TINT_MAX
    requires if cases == [] then max < min else min == cases[0].value && max == cases[|cases| - 1].value
    ensures table.None? <==> max == TINT_MAX
    ensures table.Some? ==> TableFor(cases, otherwise, min, max, table.value)
  {
    var tbl: seq<nat> := [];
    var i, pending := 0, None;
    var cur := min;
    while cur <= max
      invariant Filled(cases, otherwise, min, cur, tbl) && (max < min ==> cur == min)
      invariant min <= max ==> cur <= max + 1 && (cur == max + 1 ==> max < TINT_MAX)
      invariant 0 <= i <= |cases| && (pending.Some? ==> i > 0 && pending.value == cases[i - 1])
      invariant Passed(cases, if pending.Some? then i - 1 else i, cur)
      decreases max - cur
    {
      if pending == None && i < |cases| {
        pending := Some(cases[i]);
        i := i + 1;
      }
      TableEntry(cases, otherwise, if pending.Some? then i - 1 else i, cur);
      var to := otherwise;
      if pending.Some? && pending.value.value == cur {
        to := pending.value.to;
        pending := None;
      }
      FilledMore(cases, otherwise, min, cur, tbl, to);
      tbl := tbl + [to];
      if cur == TINT_MAX {
        return None;
      }
      cur := cur + 1;
    }
    return Some(tbl);
  }

  /** The table up to `cur`. */
  ghost predicate Filled(cases: seq<Case>, otherwise: nat, min: int, cur: int, tbl: seq<nat>) {
    |tbl| == cur - min && forall v :: min <= v < cur ==> tbl[v - min] == Select(cases, otherwise, v)
  }

  lemma FilledMore(cases: seq<Case>, otherwise: nat, min: int, cur: int, tbl: seq<nat>, to: nat)
    requires Filled(cases, otherwise, min, cur, tbl) && to == Select(cases, otherwise, cur)
    ensures Filled(cases, otherwise, min, cur + 1, tbl + [to])
  {
  }

  /** One entry for each value of the range, the label the switch selects for it. */
  ghost predicate TableFor(cases: seq<Case>, otherwise: nat, min: int, max: int, table: seq<nat>) {
    && |table| == (if min <= max then max - min + 1 else 0)
    && forall v :: min <= v <= max ==> table[v - min] == Select(cases, otherwise, v)
  }

  /** The first `i` cases lie below `cur` and the others do not. */
  ghost predicate Passed(cases: seq<Case>, i: nat, cur: int) {
    i <= |cases| &&
    (forall j :: 0 <= j < i ==> cases[j].value < cur) &&
    (forall j :: i <= j < |cases| ==> cur <= cases[j].value)
  }

  lemma TableEntry(cases: seq<Case>, otherwise: nat, i: nat, cur: int)
    requires Sorted(cases) && Passed(cases, i, cur)
    ensures Select(cases, otherwise, cur) ==
            if i < |cases| && cases[i].value == cur then cases[i].to else otherwise
    ensures Passed(cases, if i < |cases| && cases[i].value == cur then i + 1 else i, cur + 1)
  {
    if i < |cases| && cases[i].value == cur {
      SelectAt(cases, otherwise, i);
    } else {
      SelectNone(cases, otherwise, cur);
    }
  }

  /** What a jump through the table does with discriminant `v`; the back end does not emit it yet. */
  function Dispatch(table: seq<nat>, min: int, otherwise: nat, v: int): nat {
    if min <= v < min + |table| then table[v - min] else otherwise
  }

  /** Chain and table agree on every discriminant, in or out of range. */
  lemma TableAgreesWithChain(cases: seq<Case>, otherwise: nat, min: int, max: int, table: seq<nat>, v: int)
    requires forall i :: 0 <= i < |cases| ==> min <= cases[i].value <= max
    requires TableFor(cases, otherwise, min, max, table)
    ensures Dispatch(table, min, otherwise, v) == Select(cases, otherwise, v)
  {
    if !(min <= v <= max) {
      SelectNone(cases, otherwise, v);
    }
  }

  // ----- the comparison given to qsort -----

  /** A difference as a two's complement TINT shows it. */
  function Wrapped(d: int): int {
    if d > TINT_MAX then d - 0x1_0000_0000_0000_0000
    else if d < TINT_MIN then d + 0x1_0000_0000_0000_0000
    else d
  }

  function Sign(d: int): int {
    if d < 0 then -1 else if d > 0 then 1 else 0
  }

  function CmpCase(a: Case, b: Case): int {
    Sign(Wrapped(a.value - b.value))
  }

  ghost predicate ComparesRight(cases: seq<Case>) {
    forall i, j :: 0 <= i < |cases| && 0 <= j < |cases| ==>
      CmpCase(cases[i], cases[j]) == Sign(cases[i].value - cases[j].value)
  }

  /** cmpcase orders all cases of a switch if and only if their spread is a TINT. */
  lemma CompareExactly(cases: seq<Case>, min: int, max: int)
    requires cases != [] && TINT_MIN <= min && max <= TINT_MAX
    requires forall i :: 0 <= i < |cases| ==> min <= cases[i].value <= max
    requires exists i :: 0 <= i < |cases| && cases[i].value == min
    requires exists i :: 0 <= i < |cases| && cases[i].value == max
    ensures ComparesRight(cases) <==> max - min <= TINT_MAX
  {
    var a :| 0 <= a < |cases| && cases[a].value == min;
    var b :| 0 <= b < |cases| && cases[b].value == max;
    if max - min > TINT_MAX {
      assert CmpCase(cases[b], cases[a]) != Sign(cases[b].value - cases[a].value);
    }
  }

  // ----- a whole switch -----

  /** The case and default labels of a switch in source order. */
  datatype Entry = OfCase(c: Case) | OfDefault(to: nat)

  function CasesOf(labels: seq<Entry>): seq<Case> {
    if labels == [] then []
    else
      var before := CasesOf(labels[..|labels| - 1]);
      match labels[|labels| - 1]
      case OfCase(c) => before + [c]
      case OfDefault(_) => before
  }

  function DefaultOf(labels: seq<Entry>): Option<nat> {
    if labels == [] then None
    else match labels[|labels| - 1]
      case OfCase(_) => DefaultOf(labels[..|labels| - 1])
      case OfDefault(to) => Some(to)
  }

  /** Where the source switch goes with `v`; `eswtch` is behind its body. */
  function Destination(labels: seq<Entry>, eswtch: nat, v: int): nat {
    Select(CasesOf(labels), Otherwise(DefaultOf(labels), eswtch), v)
  }

  /** Section 6.8.4.2 of C99 on the labels themselves: `v` goes to the case with that value; without
      one to the default label, the last one met; without either to behind the body. */
  ghost predicate GoesTo(labels: seq<Entry>, eswtch: nat, v: int, l: nat) {
    if exists i :: HasCase(labels, i, v) then exists i :: HasCase(labels, i, v) && l == labels[i].c.to
    else if exists i :: IsDefault(labels, i) then exists i :: LastDefault(labels, i) && l == labels[i].to
    else l == eswtch
  }

  ghost predicate HasCase(labels: seq<Entry>, i: int, v: int) {
    0 <= i < |labels| && labels[i].OfCase? && labels[i].c.value == v
  }

  ghost predicate IsDefault(labels: seq<Entry>, i: int) {
    0 <= i < |labels| && labels[i].OfDefault?
  }

  ghost predicate LastDefault(labels: seq<Entry>, i: int) {
    IsDefault(labels, i) && forall j :: IsDefault(labels, j) ==> j <= i
  }

  lemma {:induction false} CasesAre(labels: seq<Entry>, c: Case)
    ensures c in CasesOf(labels) <==> exists i :: HasCase(labels, i, c.value) && labels[i].c == c
  {
    if labels != [] {
      var n := |labels| - 1;
      CasesAre(labels[..n], c);
      if i :| HasCase(labels[..n], i, c.value) && labels[..n][i].c == c {
        assert HasCase(labels, i, c.value) && labels[i].c == c;
      }
      if i :| HasCase(labels, i, c.value) && labels[i].c == c {
        if i < n {
          assert HasCase(labels[..n], i, c.value) && labels[..n][i].c == c;
        }
      }
    }
  }

  lemma {:induction false} DefaultIs(labels: seq<Entry>)
    ensures DefaultOf(labels).None? <==> forall i :: !IsDefault(labels, i)
    ensures DefaultOf(labels).Some? ==> exists i :: LastDefault(labels, i) && DefaultOf(labels).value == labels[i].to
  {
    if labels != [] {
      var n := |labels| - 1;
      DefaultIs(labels[..n]);
      assert forall i :: IsDefault(labels, i) <==> IsDefault(labels[..n], i) || (i == n && labels[n].OfDefault?);
      if labels[n].OfDefault? {
        assert LastDefault(labels, n);
      } else if i :| LastDefault(labels[..n], i) && DefaultOf(labels[..n]).value == labels[..n][i].to {
        assert LastDefault(labels, i);
      }
    }
  }

  /** The destination is the one of C99. */
  lemma DestinationGoes(labels: seq<Entry>, eswtch: nat, v: int)
    requires DistinctValues(CasesOf(labels))
    ensures GoesTo(labels, eswtch, v, Destination(labels, eswtch, v))
  {
    var cases := CasesOf(labels);
    DefaultIs(labels);
    if i :| HasCase(labels, i, v) {
      CasesAre(labels, labels[i].c);
      var k :| 0 <= k < |cases| && cases[k] == labels[i].c;
      SelectAt(cases, Otherwise(DefaultOf(labels), eswtch), k);
    } else {
      forall k | 0 <= k < |cases| ensures cases[k].value != v {
        CasesAre(labels, cases[k]);
      }
      SelectNone(cases, Otherwise(DefaultOf(labels), eswtch), v);
    }
  }

  predicate InTint(labels: seq<Entry>) {
    forall i :: 0 <= i < |labels| && labels[i].OfCase? ==> TINT_MIN <= labels[i].c.value <= TINT_MAX
  }

  /** The parser meets the labels one after the other. */
  method Collect(labels: seq<Entry>) returns (f: Frame)
    requires InTint(labels)
    ensures fresh(f) && f.Valid() && f.cases == CasesOf(labels) && f.defnode == DefaultOf(labels)
  {
    f := new Frame();
    for i := 0 to |labels|
      invariant fresh(f) && f.Valid() && f.cases == CasesOf(labels[..i]) && f.defnode == DefaultOf(labels[..i])
    {
      assert labels[..i + 1][..i] == labels[..i];
      match labels[i] {
        case OfCase(c) => f.AddCase(c);
        case OfDefault(to) => f.AddDefault(to);
      }
    }
    assert labels[..|labels|] == labels;
  }

  /** What qsort delivers: the same cases in ascending order of their values. */
  ghost predicate SortedFrom(s: seq<Case>, cases: seq<Case>) {
    multiset(s) == multiset(cases) && Sorted(s)
  }

  lemma SameCases(s: seq<Case>, cases: seq<Case>)
    requires multiset(s) == multiset(cases)
    ensures |s| == |cases| && forall c :: c in s <==> c in cases
  {
    assert |multiset(s)| == |s| && |multiset(cases)| == |cases|;
    forall c ensures c in s <==> c in cases {
      assert c in s <==> multiset(s)[c] > 0;
      assert c in cases <==> multiset(cases)[c] > 0;
    }
  }

  /** The bounds tracked while parsing are those of the sorted cases. */
  lemma BoundsOfSorted(s: seq<Case>, cases: seq<Case>, min: int, max: int)
    requires SortedFrom(s, cases) && cases != []
    requires forall i :: 0 <= i < |cases| ==> min <= cases[i].value <= max
    requires exists i :: 0 <= i < |cases| && cases[i].value == min
    requires exists i :: 0 <= i < |cases| && cases[i].value == max
    ensures s != [] && min == s[0].value && max == s[|s| - 1].value
  {
    SameCases(s, cases);
    var a :| 0 <= a < |cases| && cases[a].value == min;
    var b :| 0 <= b < |cases| && cases[b].value == max;
    assert cases[a] in s && cases[b] in s;
    var i :| 0 <= i < |s| && s[i] == cases[a];
    var j :| 0 <= j < |s| && s[j] == cases[b];
    assert s[0] in cases && s[|s| - 1] in cases;
    var x :| 0 <= x < |cases| && cases[x] == s[0];
    var y :| 0 <= y < |cases| && cases[y] == s[|s| - 1];
  }

  /** Running the chain anywhere ends at the destination, the discriminant evaluated once. */
  ghost predicate Lands(p: Program, o: Oracle, disc: Expr, c: Config, labels: seq<Entry>, eswtch: nat) {
    exists d :: var (h, v) := Eval(o, disc, c.h, c.temps);
      Reaches(p, o, c, d) && d.h == h && d.pc == Find(p, Destination(labels, eswtch, v))
  }

  /** A switch from its labels to its code: with distinct case values the comparison chain, the jump
      table and the source switch send every discriminant to the same label, default or end
      included.  There is no table exactly when the greatest case is TINT_MAX. */
  method CompileSwitch(labels: seq<Entry>, eswtch: nat, disc: Expr, x: nat, sorted: seq<Case>)
    returns (code: Program, table: Option<seq<nat>>, min: int, otherwise: nat)
    requires InTint(labels) && DistinctValues(CasesOf(labels)) && SortedFrom(sorted, CasesOf(labels))
    ensures otherwise == Otherwise(DefaultOf(labels), eswtch)
    ensures forall v :: GoesTo(labels, eswtch, v, Destination(labels, eswtch, v))
    ensures forall p: Program, o: Oracle, c: Config :: Embedded(p, c.pc, code) ==> Lands(p, o, disc, c, labels, eswtch)
    ensures table.None? <==> exists i :: 0 <= i < |sorted| && sorted[i].value == TINT_MAX
    ensures table.Some? ==> forall v :: Dispatch(table.value, min, otherwise, v) == Destination(labels, eswtch, v)
  {
    forall v ensures GoesTo(labels, eswtch, v, Destination(labels, eswtch, v)) {
      DestinationGoes(labels, eswtch, v);
    }
    var f := Collect(labels);
    otherwise := Otherwise(f.defnode, eswtch);
    SameCases(sorted, f.cases);
    if f.cases != [] {
      BoundsOfSorted(sorted, f.cases, f.min, f.max);
    }
    code := SwtchIf(disc, x, sorted, otherwise);
    table := SwtchDir(sorted, otherwise, f.min, f.max);
    min := f.min;
    SortedDestination(labels, eswtch, sorted, otherwise);
    if table.Some? {
      forall v ensures Dispatch(table.value, min, otherwise, v) == Destination(labels, eswtch, v) {
        TableAgreesWithChain(sorted, otherwise, f.min, f.max, table.value, v);
      }
    }
    ChainLands(labels, eswtch, disc, x, sorted, otherwise, code);
  }

  lemma SortedDestination(labels: seq<Entry>, eswtch: nat, sorted: seq<Case>, otherwise: nat)
    requires DistinctValues(CasesOf(labels)) && SortedFrom(sorted, CasesOf(labels))
    requires otherwise == Otherwise(DefaultOf(labels), eswtch)
    ensures forall v :: Select(sorted, otherwise, v) == Destination(labels, eswtch, v)
  {
    SameCases(sorted, CasesOf(labels));
    forall v ensures Select(sorted, otherwise, v) == Destination(labels, eswtch, v) {
      SelectOrder(sorted, CasesOf(labels), otherwise, v);
    }
  }

  lemma ChainLands(labels: seq<Entry>, eswtch: nat, disc: Expr, x: nat, sorted: seq<Case>, otherwise: nat, code: Program)
    requires forall v :: Select(sorted, otherwise, v) == Destination(labels, eswtch, v)
    requires code == [Do(Assign(x, disc))] + Chain(sorted, x, otherwise)
    ensures forall p: Program, o: Oracle, c: Config :: Embedded(p, c.pc, code) ==> Lands(p, o, disc, c, labels, eswtch)
  {
    forall p: Program, o: Oracle, c: Config | Embedded(p, c.pc, code) ensures Lands(p, o, disc, c, labels, eswtch) {
      var d := SwitchCorrect(p, o, disc, x, sorted, otherwise, c);
    }
  }
}
