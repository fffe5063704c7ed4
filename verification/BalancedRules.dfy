/** The rules generator that folds one long conjunction into a balanced tree of functions. */
module BalancedRules {
  import opened Options
  import opened Text
  import opened Powers

  const LEAF_SIZE: nat := 10

  /** `n >= from && ... && n >= to - 1`, or two calls. */
  datatype Body = Comparisons(from: nat, to: nat) | Both(left: string, right: string)

  datatype Declaration = Declaration(name: string, body: Body)

  function LeafName(i: nat): string { "leaf" + NatText(i) }

  function BranchName(level: nat, i: nat): string { "branch" + (NatText(level) + (['_'] + NatText(i))) }

  // ---------------------------------------------------------------- what declarations mean

  /** The declaration a name refers to among the first `k`. */
  function Find(ds: seq<Declaration>, k: nat, name: string): (r: Option<nat>)
    requires k <= |ds|
    ensures r.Some? ==> r.value < k && ds[r.value].name == name
    ensures r.None? ==> forall i :: 0 <= i < k ==> ds[i].name != name
  {
    if k == 0 then None
    else if ds[k - 1].name == name then Some(k - 1)
    else Find(ds, k - 1, name)
  }

  function Range(a: nat, b: nat): (r: seq<nat>)
    requires a <= b
    ensures |r| == b - a && forall i :: 0 <= i < |r| ==> r[i] == a + i
  {
    seq(b - a, i => a + i)
  }

  /** The comparisons a declaration evaluates, in order, when every call goes to an earlier declaration. */
  function Terms(ds: seq<Declaration>, k: nat): seq<nat>
    requires k < |ds|
    decreases k, 1
  {
    match ds[k].body
    case Comparisons(from, to) => if from <= to then Range(from, to) else []
    case Both(left, right) => Called(ds, k, left) + Called(ds, k, right)
  }

  function Called(ds: seq<Declaration>, k: nat, name: string): seq<nat>
    requires k <= |ds|
    decreases k, 0
  {
    match Find(ds, k, name) case None => [] case Some(i) => Terms(ds, i)
  }

  /** Its value, for any truth value of each comparison; a call that finds no function gives false. */
  predicate Value(ds: seq<Declaration>, k: nat, truth: nat -> bool)
    requires k < |ds|
    decreases k, 1
  {
    match ds[k].body
    case Comparisons(from, to) => forall i :: from <= i < to ==> truth(i)
    case Both(left, right) => CallValue(ds, k, left, truth) && CallValue(ds, k, right, truth)
  }

  predicate CallValue(ds: seq<Declaration>, k: nat, name: string, truth: nat -> bool)
    requires k <= |ds|
    decreases k, 0
  {
    match Find(ds, k, name) case None => false case Some(i) => Value(ds, i, truth)
  }

  /** How deeply calls nest. */
  function Depth(ds: seq<Declaration>, k: nat): nat
    requires k < |ds|
    decreases k, 1
  {
    match ds[k].body
    case Comparisons(_, _) => 1
    case Both(left, right) =>
      var l, r := CallDepth(ds, k, left), CallDepth(ds, k, right);
      1 + if l > r then l else r
  }

  function CallDepth(ds: seq<Declaration>, k: nat, name: string): nat
    requires k <= |ds|
    decreases k, 0
  {
    match Find(ds, k, name) case None => 0 case Some(i) => Depth(ds, i)
  }

  /** Every call goes to an earlier declaration, and no name is declared twice. */
  ghost predicate Closed(ds: seq<Declaration>) {
    && (forall i, j :: 0 <= i < j < |ds| ==> ds[i].name != ds[j].name)
    && (forall k :: 0 <= k < |ds| && ds[k].body.Both? ==>
          Find(ds, k, ds[k].body.left).Some? && Find(ds, k, ds[k].body.right).Some?)
  }

  lemma RangeHas(a: nat, b: nat, t: int)
    requires a <= b
    ensures t in Range(a, b) <==> a <= t < b
  {
    if a <= t < b { assert Range(a, b)[t - a] == t; }
  }

  /** A conjunction of calls has the value of the conjunction of all the comparisons it expands to. */
  lemma {:induction false} ValueIsConjunction(ds: seq<Declaration>, k: nat, truth: nat -> bool)
    requires Closed(ds) && k < |ds|
    ensures Value(ds, k, truth) <==> forall t :: t in Terms(ds, k) ==> truth(t)
  {
    match ds[k].body {
      case Comparisons(from, to) =>
        if from <= to {
          forall t ensures t in Range(from, to) <==> from <= t < to { RangeHas(from, to, t); }
        }
      case Both(left, right) =>
        ValueIsConjunction(ds, Find(ds, k, left).value, truth);
        ValueIsConjunction(ds, Find(ds, k, right).value, truth);
    }
  }

  // ---------------------------------------------------------------- adding a declaration

  lemma {:induction false} FindPrefix(ds: seq<Declaration>, d: Declaration, k: nat, name: string)
    requires k <= |ds|
    ensures Find(ds + [d], k, name) == Find(ds, k, name)
  {
    if k > 0 { FindPrefix(ds, d, k - 1, name); }
  }

  lemma {:induction false} TermsPrefix(ds: seq<Declaration>, d: Declaration, k: nat)
    requires k < |ds|
    ensures Terms(ds + [d], k) == Terms(ds, k) && Depth(ds + [d], k) == Depth(ds, k)
    decreases k, 1
  {
    hide Find;
    if ds[k].body.Both? {
      CalledPrefix(ds, d, k, ds[k].body.left);
      CalledPrefix(ds, d, k, ds[k].body.right);
    }
  }

  lemma {:induction false} CalledPrefix(ds: seq<Declaration>, d: Declaration, k: nat, name: string)
    requires k <= |ds|
    ensures Called(ds + [d], k, name) == Called(ds, k, name) && CallDepth(ds + [d], k, name) == CallDepth(ds, k, name)
    decreases k, 0
  {
    hide Find;
    FindPrefix(ds, d, k, name);
    if Find(ds, k, name).Some? { TermsPrefix(ds, d, Find(ds, k, name).value); }
  }

  /** A function that is declared, with what it expands to and how deep it goes. */
  ghost predicate Declares(ds: seq<Declaration>, name: string, from: nat, to: nat, depth: nat) {
    from <= to && Find(ds, |ds|, name).Some? && Called(ds, |ds|, name) == Range(from, to)
      && CallDepth(ds, |ds|, name) == depth
  }

  predicate Fresh(ds: seq<Declaration>, name: string) { forall i :: 0 <= i < |ds| ==> ds[i].name != name }

  /** What is declared stays declared. */
  lemma DeclaresKept(ds: seq<Declaration>, d: Declaration, name: string, from: nat, to: nat, depth: nat)
    requires Declares(ds, name, from, to, depth) && Fresh(ds, d.name)
    ensures Declares(ds + [d], name, from, to, depth)
  {
    hide Called, CallDepth;
    var all := ds + [d];
    FindPrefix(ds, d, |ds|, name);
    assert d.name != name;
    assert Find(all, |all|, name) == Find(ds, |ds|, name);
    TopCall(all, name);
    TopCall(ds, name);
    TermsPrefix(ds, d, Find(ds, |ds|, name).value);
  }

  lemma TopCall(ds: seq<Declaration>, name: string)
    requires Find(ds, |ds|, name).Some?
    ensures Called(ds, |ds|, name) == Terms(ds, Find(ds, |ds|, name).value)
    ensures CallDepth(ds, |ds|, name) == Depth(ds, Find(ds, |ds|, name).value)
  {}

  lemma RangesJoin(a: nat, b: nat, c: nat)
    requires a <= b <= c
    ensures Range(a, b) + Range(b, c) == Range(a, c)
  {}

  /** A branch over two declared neighbours declares both together, one call deeper. */
  lemma BranchDeclares(ds: seq<Declaration>, name: string, left: string, right: string,
                       from: nat, middle: nat, to: nat, l: nat, r: nat)
    requires Closed(ds) && Fresh(ds, name) && Declares(ds, left, from, middle, l) && Declares(ds, right, middle, to, r)
    ensures var all := ds + [Declaration(name, Both(left, right))];
      Closed(all) && Declares(all, name, from, to, 1 + if l > r then l else r)
  {
    hide Terms, Depth;
    var d := Declaration(name, Both(left, right));
    var all := ds + [d];
    CalledPrefix(ds, d, |ds|, left);
    CalledPrefix(ds, d, |ds|, right);
    assert Find(all, |all|, name) == Some(|ds|);
    RangesJoin(from, middle, to);
    TopCall(all, name);
    BranchTerms(all, |ds|);
    forall k | 0 <= k < |all| && all[k].body.Both?
      ensures Find(all, k, all[k].body.left).Some? && Find(all, k, all[k].body.right).Some?
    {
      FindPrefix(ds, d, k, all[k].body.left);
      FindPrefix(ds, d, k, all[k].body.right);
    }
  }

  lemma BranchTerms(ds: seq<Declaration>, k: nat)
    requires k < |ds| && ds[k].body.Both?
    ensures Terms(ds, k) == Called(ds, k, ds[k].body.left) + Called(ds, k, ds[k].body.right)
    ensures var l, r := CallDepth(ds, k, ds[k].body.left), CallDepth(ds, k, ds[k].body.right);
      Depth(ds, k) == 1 + if l > r then l else r
  {}

  lemma LeafDeclares(ds: seq<Declaration>, name: string, from: nat, to: nat)
    requires Closed(ds) && Fresh(ds, name) && from <= to
    ensures var all := ds + [Declaration(name, Comparisons(from, to))];
      Closed(all) && Declares(all, name, from, to, 1)
  {
    var d := Declaration(name, Comparisons(from, to));
    var all := ds + [d];
    assert Find(all, |all|, name) == Some(|ds|);
    TopCall(all, name);
    forall k | 0 <= k < |all| && all[k].body.Both?
      ensures Find(all, k, all[k].body.left).Some? && Find(all, k, all[k].body.right).Some?
    {
      FindPrefix(ds, d, k, all[k].body.left);
      FindPrefix(ds, d, k, all[k].body.right);
    }
  }

  // ---------------------------------------------------------------- names

  lemma LeafNameInjective(i: nat, j: nat)
    requires LeafName(i) == LeafName(j)
    ensures i == j
  {
    SplitFirst("leaf", "leaf", NatText(i), NatText(j));
    NatTextInjective(i, j);
  }

  lemma BranchNameInjective(level: nat, i: nat, level': nat, i': nat)
    requires BranchName(level, i) == BranchName(level', i')
    ensures level == level' && i == i'
  {
    SplitFirst("branch", "branch", NatText(level) + (['_'] + NatText(i)), NatText(level') + (['_'] + NatText(i')));
    NoUnderscore(level);
    NoUnderscore(level');
    CutAtFirst(NatText(level), NatText(level'), NatText(i), NatText(i'), '_');
    NatTextInjective(level, level');
    NatTextInjective(i, i');
  }

  lemma {:induction false} NoUnderscore(n: nat)
    ensures Free(NatText(n), '_')
  {
    var t := NatText(n);
    forall c | c in t ensures c != '_' { assert IsDigit(c); }
  }

  lemma LeafIsNoBranch(i: nat, level: nat, j: nat)
    ensures LeafName(i) != BranchName(level, j)
  {
    assert LeafName(i)[0] == 'l' && BranchName(level, j)[0] == 'b';
  }

  /** A name that has been used for a leaf below `leaves`, or for a branch before branch `i` of `level`. */
  ghost predicate Used(name: string, leaves: nat, level: nat, i: nat) {
    (exists l: nat :: l < leaves && name == LeafName(l))
    || (exists v: nat, j: nat :: (v < level || (v == level && j < i)) && name == BranchName(v, j))
  }

  ghost predicate AllUsed(ds: seq<Declaration>, leaves: nat, level: nat, i: nat) {
    forall k :: 0 <= k < |ds| ==> Used(ds[k].name, leaves, level, i)
  }

  lemma LeafIsFresh(ds: seq<Declaration>, leaves: nat)
    requires AllUsed(ds, leaves, 0, 0)
    ensures Fresh(ds, LeafName(leaves))
  {
    hide LeafName, BranchName;
    forall k | 0 <= k < |ds| ensures ds[k].name != LeafName(leaves) {
      if l: nat :| l < leaves && ds[k].name == LeafName(l) {
        if LeafName(l) == LeafName(leaves) { LeafNameInjective(l, leaves); }
      }
    }
  }

  lemma BranchIsFresh(ds: seq<Declaration>, leaves: nat, level: nat, i: nat)
    requires AllUsed(ds, leaves, level, i)
    ensures Fresh(ds, BranchName(level, i))
  {
    hide LeafName, BranchName;
    forall k | 0 <= k < |ds| ensures ds[k].name != BranchName(level, i) {
      if l: nat :| l < leaves && ds[k].name == LeafName(l) {
        LeafIsNoBranch(l, level, i);
      } else {
        var v: nat, j: nat :| (v < level || (v == level && j < i)) && ds[k].name == BranchName(v, j);
        if BranchName(v, j) == BranchName(level, i) { BranchNameInjective(v, j, level, i); }
      }
    }
  }

  // ---------------------------------------------------------------- rows of neighbours

  datatype Entry = Entry(name: string, from: nat, to: nat, depth: nat)

  ghost predicate Holds(ds: seq<Declaration>, e: Entry) { Declares(ds, e.name, e.from, e.to, e.depth) }

  /** The entries are declared and cover `a`, ..., `b - 1` one after the other, none deeper than `depth`. */
  ghost predicate Row(ds: seq<Declaration>, es: seq<Entry>, a: nat, b: nat, depth: nat)
    decreases |es|
  {
    if es == [] then a == b
    else es[0].from == a && es[0].depth <= depth && Holds(ds, es[0]) && Row(ds, es[1..], es[0].to, b, depth)
  }

  lemma {:induction false} RowKept(ds: seq<Declaration>, d: Declaration, es: seq<Entry>, a: nat, b: nat, depth: nat)
    requires Row(ds, es, a, b, depth) && Fresh(ds, d.name)
    ensures Row(ds + [d], es, a, b, depth)
    decreases |es|
  {
    hide Declares;
    if es != [] {
      DeclaresKept(ds, d, es[0].name, es[0].from, es[0].to, es[0].depth);
      RowKept(ds, d, es[1..], es[0].to, b, depth);
    }
  }

  lemma {:induction false} RowSnoc(ds: seq<Declaration>, es: seq<Entry>, a: nat, e: Entry, depth: nat)
    requires Row(ds, es, a, e.from, depth) && Holds(ds, e) && e.depth <= depth
    ensures Row(ds, es + [e], a, e.to, depth)
    decreases |es|
  {
    hide Holds;
    if es != [] {
      assert (es + [e])[1..] == es[1..] + [e];
      RowSnoc(ds, es[1..], es[0].to, e, depth);
    } else {
      assert (es + [e])[1..] == [];
    }
  }

  lemma RowHead(ds: seq<Declaration>, es: seq<Entry>, a: nat, b: nat, depth: nat)
    requires Row(ds, es, a, b, depth)
    ensures es == [] ==> a == b
    ensures es != [] ==> es[0].from == a && es[0].depth <= depth && Holds(ds, es[0])
    ensures es != [] ==> Row(ds, es[1..], es[0].to, b, depth)
  {}

  lemma RowNone(ds: seq<Declaration>, a: nat, depth: nat)
    ensures Row(ds, [], a, a, depth)
  {}

  predicate NamesOf(es: seq<Entry>, level: seq<string>) {
    |es| == |level| && forall i :: 0 <= i < |level| ==> es[i].name == level[i]
  }

  // ---------------------------------------------------------------- the generator

  method BuildLeaves(terms: nat) returns (ds: seq<Declaration>, level: seq<string>, ghost es: seq<Entry>)
    ensures |ds| == |level| == (terms + LEAF_SIZE - 1) / LEAF_SIZE && NamesOf(es, level)
    ensures Closed(ds) && AllUsed(ds, |level|, 0, 0) && Row(ds, es, 0, terms, 1)
    ensures es != [] ==> es[0].depth == 1
  {
    hide Declares, Closed, Used, LeafName, BranchName;
    ds, level, es := [], [], [];
    var count := (terms + LEAF_SIZE - 1) / LEAF_SIZE;
    assert Closed(ds) by { NothingClosed(); }
    for leaf := 0 to count
      invariant |ds| == |level| == leaf && NamesOf(es, level)
      invariant Closed(ds) && AllUsed(ds, leaf, 0, 0)
      invariant Row(ds, es, 0, if leaf * LEAF_SIZE < terms then leaf * LEAF_SIZE else terms, 1)
      invariant es != [] ==> es[0].depth == 1
    {
      var start := leaf * LEAF_SIZE;
      var end := if start + LEAF_SIZE < terms then start + LEAF_SIZE else terms;
      var d := Declaration(LeafName(leaf), Comparisons(start, end));
      LeafIsFresh(ds, leaf);
      LeafDeclares(ds, d.name, start, end);
      RowKept(ds, d, es, 0, start, 1);
      ghost var e := Entry(d.name, start, end, 1);
      RowSnoc(ds + [d], es, 0, e, 1);
      LeafUsed(ds, leaf, d);
      ds, level, es := ds + [d], level + [d.name], es + [e];
    }
  }

  lemma NothingClosed()
    ensures Closed([])
  {}

  lemma {:induction false} LeafUsed(ds: seq<Declaration>, leaves: nat, d: Declaration)
    requires AllUsed(ds, leaves, 0, 0) && d.name == LeafName(leaves)
    ensures AllUsed(ds + [d], leaves + 1, 0, 0)
  {
    hide LeafName, BranchName;
    var all := ds + [d];
    forall k | 0 <= k < |all| ensures Used(all[k].name, leaves + 1, 0, 0) {
      if k < |ds| {
        assert Used(ds[k].name, leaves, 0, 0);
        var l: nat :| l < leaves && ds[k].name == LeafName(l);
      }
    }
  }

  lemma {:induction false} BranchUsed(ds: seq<Declaration>, leaves: nat, level: nat, i: nat, d: Declaration)
    requires AllUsed(ds, leaves, level, i) && d.name == BranchName(level, i)
    ensures AllUsed(ds + [d], leaves, level, i + 1)
  {
    hide LeafName, BranchName;
    var all := ds + [d];
    forall k | 0 <= k < |all| ensures Used(all[k].name, leaves, level, i + 1) {
      if k < |ds| { UsedLater(ds[k].name, leaves, level, i, level, i + 1); }
    }
  }

  lemma {:induction false} UsedLater(name: string, leaves: nat, level: nat, i: nat, level': nat, i': nat)
    requires Used(name, leaves, level, i) && (level < level' || (level == level' && i <= i'))
    ensures Used(name, leaves, level', i')
  {
    hide LeafName, BranchName;
  }

  /** One level: neighbours are paired, a last one without a partner goes up as it is. */
  method PairUp(before: seq<Declaration>, level: seq<string>, levelIndex: nat,
                ghost es: seq<Entry>, ghost leaves: nat, ghost terms: nat)
    returns (ds: seq<Declaration>, next: seq<string>, ghost ns: seq<Entry>)
    requires |level| >= 2 && NamesOf(es, level) && Closed(before) && AllUsed(before, leaves, levelIndex, 0)
    requires Row(before, es, 0, terms, 1 + levelIndex) && es[0].depth == 1 + levelIndex
    ensures |next| == (|level| + 1) / 2 && NamesOf(ns, next) && |ds| + |next| == |before| + |level|
    ensures Closed(ds) && AllUsed(ds, leaves, levelIndex + 1, 0)
    ensures Row(ds, ns, 0, terms, 2 + levelIndex) && ns[0].depth == 2 + levelIndex
  {
    hide Declares, Closed, Used, LeafName, BranchName, Row;
    ds, next, ns := before, [], [];
    ghost var m := 0;
    var index := 0;
    assert es[0..] == es;
    RowNone(ds, 0, 2 + levelIndex);
    while index < |level|
      invariant index % 2 == 0 && |next| == index / 2 && NamesOf(ns, next)
      invariant index <= |level| && |ds| + |next| == |before| + index
      invariant Closed(ds) && AllUsed(ds, leaves, levelIndex, index / 2)
      invariant Row(ds, ns, 0, m, 2 + levelIndex) && Row(ds, es[index..], m, terms, 1 + levelIndex)
      invariant ns != [] ==> ns[0].depth == 2 + levelIndex
      decreases |level| - index
    {
      ghost var l := es[index];
      RowHead(ds, es[index..], m, terms, 1 + levelIndex);
      assert es[index..][1..] == es[index + 1..];
      RowHead(ds, es[index + 1..], l.to, terms, 1 + levelIndex);
      if index + 1 >= |level| {
        RowSnoc(ds, ns, 0, l, 2 + levelIndex);
        UsedAtNext(ds, leaves, levelIndex, index / 2);
        next, ns := next + [level[index]], ns + [l];
        return;
      }
      ghost var r := es[index + 1];
      assert es[index + 1..][1..] == es[index + 2..];
      var d := Declaration(BranchName(levelIndex, index / 2), Both(level[index], level[index + 1]));
      BranchIsFresh(ds, leaves, levelIndex, index / 2);
      BranchDeclares(ds, d.name, l.name, r.name, l.from, l.to, r.to, l.depth, r.depth);
      BranchUsed(ds, leaves, levelIndex, index / 2, d);
      ghost var e := Entry(d.name, l.from, r.to, 1 + if l.depth > r.depth then l.depth else r.depth);
      RowKept(ds, d, ns, 0, m, 2 + levelIndex);
      RowKept(ds, d, es[index + 2..], r.to, terms, 1 + levelIndex);
      RowSnoc(ds + [d], ns, 0, e, 2 + levelIndex);
      ds, next, ns, m := ds + [d], next + [d.name], ns + [e], r.to;
      index := index + 2;
    }
    RowHead(ds, es[index..], m, terms, 1 + levelIndex);
    UsedAtNext(ds, leaves, levelIndex, index / 2);
  }

  lemma {:induction false} UsedAtNext(ds: seq<Declaration>, leaves: nat, level: nat, i: nat)
    requires AllUsed(ds, leaves, level, i)
    ensures AllUsed(ds, leaves, level + 1, 0)
  {
    hide Used;
    forall k | 0 <= k < |ds| ensures Used(ds[k].name, leaves, level + 1, 0) {
      UsedLater(ds[k].name, leaves, level, i, level + 1, 0);
    }
  }

  /** How often a level of `n` names is paired up before one is left. */
  function Rounds(n: nat): nat { if n <= 1 then 0 else 1 + Rounds((n + 1) / 2) }

  /** The least number of levels whose power of two covers all leaves. */
  lemma {:induction false} RoundsIsLogarithm(n: nat)
    requires n > 0
    ensures n <= Power(Rounds(n)) && (Rounds(n) > 0 ==> Power(Rounds(n) - 1) < n)
  {
    if n > 1 { RoundsIsLogarithm((n + 1) / 2); }
  }

  /**
   * For at least one term: 2L - 1 functions for L leaves, each calling only earlier ones, whose root evaluates
   * the comparisons 0, ..., terms - 1 once each and in order, at a call depth of exactly 1 + ceil(log2 L).
   * Without terms there is no root.
   */
  method BalancedExpression(terms: nat) returns (ds: seq<Declaration>, root: Option<string>)
    ensures root.None? <==> terms == 0
    ensures terms > 0 ==>
      var leaves := (terms + LEAF_SIZE - 1) / LEAF_SIZE;
      Closed(ds) && |ds| == 2 * leaves - 1 && Declares(ds, root.value, 0, terms, 1 + Rounds(leaves))
  {
    hide Declares, Closed, AllUsed;
    ghost var es;
    var level;
    ds, level, es := BuildLeaves(terms);
    if level == [] { return ds, None; }
    ghost var leaves := |level|;
    var levelIndex := 0;
    while |level| > 1
      invariant level != [] && NamesOf(es, level) && |ds| + |level| == 2 * leaves
      invariant Closed(ds) && AllUsed(ds, leaves, levelIndex, 0)
      invariant Row(ds, es, 0, terms, 1 + levelIndex) && es[0].depth == 1 + levelIndex
      invariant levelIndex + Rounds(|level|) == Rounds(leaves)
      decreases |level|
    {
      var next;
      ghost var ns;
      ds, next, ns := PairUp(ds, level, levelIndex, es, leaves, terms);
      level, es := next, ns;
      levelIndex := levelIndex + 1;
    }
    assert es[1..] == [];
    return ds, Some(level[0]);
  }

  /** So the balanced source and the linear one have the same value, whatever each comparison gives. */
  lemma SameMeaning(ds: seq<Declaration>, root: string, terms: nat, depth: nat, truth: nat -> bool)
    requires Closed(ds) && Declares(ds, root, 0, terms, depth)
    ensures CallValue(ds, |ds|, root, truth) <==> forall i :: 0 <= i < terms ==> truth(i)
  {
    hide Terms, Value, Closed;
    var k := Find(ds, |ds|, root).value;
    ValueIsConjunction(ds, k, truth);
    forall t ensures t in Terms(ds, k) <==> 0 <= t < terms { RangeHas(0, terms, t); }
  }
}
