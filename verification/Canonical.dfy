/** The canonicalisers: what is sorted away, and that nothing else is. */
module Canonical {
  import opened Options
  import opened Sorting
  import opened Text
  import opened JsonTree

  /** Arrays of the Auth recordings whose element order depends on random identifiers. */
  const UNORDERED_ARRAYS: set<string> := {"users", "userInfo", "oobCodes", "verificationCodes", "tenants"}

  predicate IsUnordered(unordered: set<string>, key: Option<string>) {
    key.Some? && key.value in unordered
  }

  predicate FieldLe(a: Field, b: Field) { StrLe(a.key, b.key) }

  predicate PrintedLe(a: Json, b: Json) { StrLe(Stringify(a), Stringify(b)) }

  /**
   * Auth's `canonicalize` with `unordered == UNORDERED_ARRAYS`, Pub/Sub's with the empty set.
   * Sorting properties by key and mapping their values commute, so the model maps first.
   */
  function Canonicalize(unordered: set<string>, v: Json, key: Option<string>): Json
    decreases v
  {
    match v
    case Arr(items) =>
      var canonical := seq(|items|, i requires 0 <= i < |items| => Canonicalize(unordered, items[i], None));
      Arr(if IsUnordered(unordered, key) then Sort(canonical, PrintedLe) else canonical)
    case Obj(fields) =>
      Obj(Sort(seq(|fields|, i requires 0 <= i < |fields| =>
        Field(fields[i].key, Canonicalize(unordered, fields[i].value, Some(fields[i].key)))), FieldLe))
    case _ => v
  }

  predicate IsPermutation(p: seq<nat>, n: nat) {
    && |p| == n
    && (forall i :: 0 <= i < n ==> p[i] < n)
    && (forall i, j :: 0 <= i < j < n ==> p[i] != p[j])
  }

  /** Equal up to key order, and up to the order of arrays held under an unordered key. */
  ghost predicate Same(unordered: set<string>, v: Json, w: Json, key: Option<string>)
    decreases v
  {
    match (v, w)
    case (Arr(xs), Arr(ys)) =>
      && |xs| == |ys|
      && if IsUnordered(unordered, key) then
           exists p :: IsPermutation(p, |xs|)
             && forall i :: 0 <= i < |xs| ==> Same(unordered, xs[i], ys[p[i]], None)
         else
           forall i :: 0 <= i < |xs| ==> Same(unordered, xs[i], ys[i], None)
    case (Obj(fs), Obj(gs)) =>
      && Keys(fs) == Keys(gs)
      && forall i, j :: 0 <= i < |fs| && 0 <= j < |gs| && fs[i].key == gs[j].key ==>
           Same(unordered, fs[i].value, gs[j].value, Some(fs[i].key))
    case _ => v == w
  }

  // ---------------------------------------------------------------- permutations and multisets

  lemma {:induction false} PermutationOfMultiset<T>(xs: seq<T>, ys: seq<T>) returns (p: seq<nat>)
    requires multiset(xs) == multiset(ys)
    ensures |xs| == |ys| && IsPermutation(p, |xs|)
    ensures forall i :: 0 <= i < |xs| ==> xs[i] == ys[p[i]]
  {
    SameMultisetSameSize(xs, ys);
    if xs == [] {
      p := [];
    } else {
      assert xs[0] in ys;
      var k: nat :| k < |ys| && ys[k] == xs[0];
      DropMatched(xs, ys, k);
      var q := PermutationOfMultiset(xs[1..], Without(ys, k));
      p := AddFirst(k, q);
      forall i | 0 <= i < |xs| ensures xs[i] == ys[p[i]] {
        if i > 0 { assert xs[i] == xs[1..][i - 1] == Without(ys, k)[q[i - 1]]; }
      }
    }
  }

  lemma {:induction false} MultisetOfPermutation<T>(xs: seq<T>, ys: seq<T>, p: seq<nat>)
    requires |xs| == |ys| && IsPermutation(p, |xs|)
    requires forall i :: 0 <= i < |xs| ==> xs[i] == ys[p[i]]
    ensures multiset(xs) == multiset(ys)
  {
    if xs != [] {
      var q := DropFirst(p);
      forall i | 0 <= i < |xs| - 1 ensures xs[1..][i] == Without(ys, p[0])[q[i]] {
        assert xs[1..][i] == ys[p[i + 1]];
      }
      MultisetOfPermutation(xs[1..], Without(ys, p[0]), q);
      DropMatched(xs, ys, p[0]);
    }
  }

  /** The permutation that sends the first index to `k` and the others around it. */
  function AddFirst(k: nat, q: seq<nat>): (p: seq<nat>)
    requires IsPermutation(q, |q|) && k <= |q|
    ensures IsPermutation(p, |q| + 1) && p[0] == k
    ensures forall i :: 0 <= i < |q| ==> p[i + 1] == if q[i] < k then q[i] else q[i] + 1
  {
    [k] + seq(|q|, i requires 0 <= i < |q| => if q[i] < k then q[i] else q[i] + 1)
  }

  /** The permutation left when the first index and its target are taken out. */
  function DropFirst(p: seq<nat>): (q: seq<nat>)
    requires p != [] && IsPermutation(p, |p|)
    ensures IsPermutation(q, |p| - 1)
    ensures forall i :: 0 <= i < |q| ==> p[i + 1] == if q[i] < p[0] then q[i] else q[i] + 1
  {
    seq(|p| - 1, i requires 0 <= i < |p| - 1 => if p[i + 1] < p[0] then p[i + 1] else (p[i + 1] - 1) as nat)
  }

  lemma {:induction false} DistinctCount(fs: seq<Field>, f: Field)
    requires DistinctKeys(fs)
    ensures multiset(fs)[f] == if f in fs then 1 else 0
  {
    if fs != [] {
      DistinctCount(fs[1..], f);
      assert fs == [fs[0]] + fs[1..];
      assert forall i :: 0 <= i < |fs[1..]| ==> fs[1..][i].key != fs[0].key;
    }
  }

  lemma SameFieldsMultiset(fs: seq<Field>, gs: seq<Field>)
    requires DistinctKeys(fs) && DistinctKeys(gs)
    requires forall f :: f in fs <==> f in gs
    ensures multiset(fs) == multiset(gs)
  {
    forall f ensures multiset(fs)[f] == multiset(gs)[f] {
      DistinctCount(fs, f);
      DistinctCount(gs, f);
    }
  }

  // ---------------------------------------------------------------- the orders

  lemma FieldLeOrder(fs: seq<Field>)
    requires DistinctKeys(fs)
    ensures TotalPreorder(FieldLe) && Separates(FieldLe, fs)
  {
    StrLePreorder();
    assert TotalPreorder(FieldLe);
    forall a, b | a in fs && b in fs && FieldLe(a, b) && FieldLe(b, a) ensures a == b {
      StrLeAntisymmetric(a.key, b.key);
      var i :| 0 <= i < |fs| && fs[i] == a;
      var j :| 0 <= j < |fs| && fs[j] == b;
    }
  }

  lemma {:induction false} PrintedLeOrder(xs: seq<Json>)
    ensures TotalPreorder(PrintedLe) && Separates(PrintedLe, xs)
  {
    StrLePreorder();
    assert TotalPreorder(PrintedLe);
    forall a, b | a in xs && b in xs && PrintedLe(a, b) && PrintedLe(b, a) ensures a == b {
      StrLeAntisymmetric(Stringify(a), Stringify(b));
      StringifyInjective(a, b);
    }
  }

  lemma {:induction false} SortedItemsEqual(xs: seq<Json>, ys: seq<Json>)
    ensures Sort(xs, PrintedLe) == Sort(ys, PrintedLe) <==> multiset(xs) == multiset(ys)
  {
    PrintedLeOrder(xs);
    SortPermutes(xs, PrintedLe);
    SortPermutes(ys, PrintedLe);
    if multiset(xs) == multiset(ys) { SortCanonical(xs, ys, PrintedLe); }
  }

  lemma SortedFieldsEqual(fs: seq<Field>, gs: seq<Field>)
    requires DistinctKeys(fs) && DistinctKeys(gs)
    ensures Sort(fs, FieldLe) == Sort(gs, FieldLe) <==> (forall f :: f in fs <==> f in gs)
  {
    FieldLeOrder(fs);
    SortPermutes(fs, FieldLe);
    SortPermutes(gs, FieldLe);
    if forall f :: f in fs <==> f in gs {
      SameFieldsMultiset(fs, gs);
      SortCanonical(fs, gs, FieldLe);
    }
  }

  // ---------------------------------------------------------------- normal form

  function CanonicalItems(unordered: set<string>, items: seq<Json>): seq<Json> {
    seq(|items|, i requires 0 <= i < |items| => Canonicalize(unordered, items[i], None))
  }

  function CanonicalFields(unordered: set<string>, fields: seq<Field>): seq<Field> {
    seq(|fields|, i requires 0 <= i < |fields| =>
      Field(fields[i].key, Canonicalize(unordered, fields[i].value, Some(fields[i].key))))
  }

  lemma {:induction false} CanonicalizeUnfolds(unordered: set<string>, v: Json, key: Option<string>)
    ensures v.Arr? ==>
      Canonicalize(unordered, v, key).Arr? && Canonicalize(unordered, v, key).items ==
        (if IsUnordered(unordered, key) then Sort(CanonicalItems(unordered, v.items), PrintedLe)
         else CanonicalItems(unordered, v.items))
    ensures v.Obj? ==> Canonicalize(unordered, v, key) == Obj(Sort(CanonicalFields(unordered, v.fields), FieldLe))
  {
    match v
    case Arr(items) =>
      assert CanonicalItems(unordered, items)
          == seq(|items|, i requires 0 <= i < |items| => Canonicalize(unordered, items[i], None));
    case Obj(fields) =>
      assert CanonicalFields(unordered, fields) == seq(|fields|, i requires 0 <= i < |fields| =>
        Field(fields[i].key, Canonicalize(unordered, fields[i].value, Some(fields[i].key))));
    case _ =>
  }

  /** Two values canonicalise alike exactly when they are the same up to what order cannot carry. */
  lemma {:induction false} CanonicalNormalForm(unordered: set<string>, v: Json, w: Json, key: Option<string>)
    requires Proper(v) && Proper(w)
    ensures Canonicalize(unordered, v, key) == Canonicalize(unordered, w, key) <==> Same(unordered, v, w, key)
    decreases v
  {
    hide Sort, PrintedLe, FieldLe, Stringify, IsPermutation, Keys;
    CanonicalizeUnfolds(unordered, v, key);
    CanonicalizeUnfolds(unordered, w, key);
    match (v, w) {
      case (Arr(xs), Arr(ys)) =>
        forall i, j | 0 <= i < |xs| && 0 <= j < |ys|
          ensures CanonicalItems(unordered, xs)[i] == CanonicalItems(unordered, ys)[j]
                  <==> Same(unordered, xs[i], ys[j], None)
        {
          CanonicalNormalForm(unordered, xs[i], ys[j], None);
        }
        if IsUnordered(unordered, key) {
          UnorderedNormalForm(unordered, xs, ys);
          SortedItemsEqual(CanonicalItems(unordered, xs), CanonicalItems(unordered, ys));
        } else {
          OrderedNormalForm(unordered, xs, ys);
        }
      case (Obj(fs), Obj(gs)) =>
        forall i, j | 0 <= i < |fs| && 0 <= j < |gs| && fs[i].key == gs[j].key
          ensures CanonicalFields(unordered, fs)[i] == CanonicalFields(unordered, gs)[j]
                  <==> Same(unordered, fs[i].value, gs[j].value, Some(fs[i].key))
        {
          CanonicalNormalForm(unordered, fs[i].value, gs[j].value, Some(fs[i].key));
        }
        FieldsNormalForm(unordered, fs, gs);
        SortedFieldsEqual(CanonicalFields(unordered, fs), CanonicalFields(unordered, gs));
      case _ =>
    }
  }

  lemma {:induction false} OrderedNormalForm(unordered: set<string>, xs: seq<Json>, ys: seq<Json>)
    requires forall i, j :: 0 <= i < |xs| && 0 <= j < |ys| ==>
      (CanonicalItems(unordered, xs)[i] == CanonicalItems(unordered, ys)[j] <==> Same(unordered, xs[i], ys[j], None))
    ensures CanonicalItems(unordered, xs) == CanonicalItems(unordered, ys) <==>
      |xs| == |ys| && forall i :: 0 <= i < |xs| ==> Same(unordered, xs[i], ys[i], None)
  {
    var cx, cy := CanonicalItems(unordered, xs), CanonicalItems(unordered, ys);
    if cx == cy {
      assert |cx| == |cy|;
      forall i | 0 <= i < |xs| ensures Same(unordered, xs[i], ys[i], None) { assert cx[i] == cy[i]; }
    }
  }

  lemma UnorderedNormalForm(unordered: set<string>, xs: seq<Json>, ys: seq<Json>)
    requires forall i, j :: 0 <= i < |xs| && 0 <= j < |ys| ==>
      (CanonicalItems(unordered, xs)[i] == CanonicalItems(unordered, ys)[j] <==> Same(unordered, xs[i], ys[j], None))
    ensures multiset(CanonicalItems(unordered, xs)) == multiset(CanonicalItems(unordered, ys)) <==>
      |xs| == |ys| &&
      (exists p :: IsPermutation(p, |xs|) &&
         (forall i :: 0 <= i < |xs| ==> Same(unordered, xs[i], ys[p[i]], None)))
  {
    var cx, cy := CanonicalItems(unordered, xs), CanonicalItems(unordered, ys);
    if multiset(cx) == multiset(cy) {
      var p := PermutationOfMultiset(cx, cy);
      assert forall i :: 0 <= i < |xs| ==> Same(unordered, xs[i], ys[p[i]], None);
    }
    if |xs| == |ys| &&
       (exists p :: IsPermutation(p, |xs|) &&
          (forall i :: 0 <= i < |xs| ==> Same(unordered, xs[i], ys[p[i]], None))) {
      var p :| IsPermutation(p, |xs|) && forall i :: 0 <= i < |xs| ==> Same(unordered, xs[i], ys[p[i]], None);
      MultisetOfPermutation(cx, cy, p);
    }
  }

  lemma FieldsNormalForm(unordered: set<string>, fs: seq<Field>, gs: seq<Field>)
    requires DistinctKeys(fs) && DistinctKeys(gs)
    requires forall i, j :: 0 <= i < |fs| && 0 <= j < |gs| && fs[i].key == gs[j].key ==>
      (CanonicalFields(unordered, fs)[i] == CanonicalFields(unordered, gs)[j]
       <==> Same(unordered, fs[i].value, gs[j].value, Some(fs[i].key)))
    ensures (forall f :: f in CanonicalFields(unordered, fs) <==> f in CanonicalFields(unordered, gs)) <==>
      Keys(fs) == Keys(gs) && forall i, j :: 0 <= i < |fs| && 0 <= j < |gs| && fs[i].key == gs[j].key ==>
        Same(unordered, fs[i].value, gs[j].value, Some(fs[i].key))
  {
    var cf, cg := CanonicalFields(unordered, fs), CanonicalFields(unordered, gs);
    if forall f :: f in cf <==> f in cg {
      MembersGiveMatches(unordered, fs, gs);
      MembersGiveMatches(unordered, gs, fs);
      forall i, j | 0 <= i < |fs| && 0 <= j < |gs| && fs[i].key == gs[j].key
        ensures Same(unordered, fs[i].value, gs[j].value, Some(fs[i].key))
      {
        assert cf[i] in cg;
        var k :| 0 <= k < |gs| && cg[k] == cf[i];
        assert gs[k].key == gs[j].key && !(k < j) && !(j < k);
      }
    }
    if Keys(fs) == Keys(gs) && forall i, j :: 0 <= i < |fs| && 0 <= j < |gs| && fs[i].key == gs[j].key ==>
         Same(unordered, fs[i].value, gs[j].value, Some(fs[i].key)) {
      forall f | f in cf ensures f in cg {
        var i :| 0 <= i < |fs| && cf[i] == f;
        assert fs[i].key in Keys(gs);
        var j :| 0 <= j < |gs| && gs[j].key == fs[i].key;
        assert cg[j] == f;
      }
      forall f | f in cg ensures f in cf {
        var j :| 0 <= j < |gs| && cg[j] == f;
        assert gs[j].key in Keys(fs);
        var i :| 0 <= i < |fs| && fs[i].key == gs[j].key;
        assert cf[i] == f;
      }
    }
  }

  lemma MembersGiveMatches(unordered: set<string>, fs: seq<Field>, gs: seq<Field>)
    requires forall f :: f in CanonicalFields(unordered, fs) ==> f in CanonicalFields(unordered, gs)
    ensures Keys(fs) <= Keys(gs)
  {
    forall k | k in Keys(fs) ensures k in Keys(gs) {
      var i :| 0 <= i < |fs| && fs[i].key == k;
      var f := CanonicalFields(unordered, fs)[i];
      assert f in CanonicalFields(unordered, fs);
      var j :| 0 <= j < |gs| && CanonicalFields(unordered, gs)[j] == f;
      assert gs[j].key == k;
    }
  }

  // ---------------------------------------------------------------- idempotence

  lemma {:induction false} SortedItemsStay(unordered: set<string>, items: seq<Json>)
    requires forall i :: 0 <= i < |items| ==> Canonicalize(unordered, items[i], None) == items[i]
    ensures CanonicalItems(unordered, items) == items
    ensures var sorted := Sort(items, PrintedLe);
      CanonicalItems(unordered, sorted) == sorted && Sort(sorted, PrintedLe) == sorted
  {
    hide PrintedLe, Canonicalize;
    var sorted := Sort(items, PrintedLe);
    SortPermutes(items, PrintedLe);
    forall i | 0 <= i < |sorted| ensures Canonicalize(unordered, sorted[i], None) == sorted[i] {
      assert sorted[i] in multiset(sorted);
    }
    PrintedLeOrder(items);
    SortSorted(items, PrintedLe);
    SortOfSorted(sorted, PrintedLe);
  }

  lemma {:induction false} SortedFieldsStay(unordered: set<string>, fields: seq<Field>)
    requires forall i :: 0 <= i < |fields| ==>
      Canonicalize(unordered, fields[i].value, Some(fields[i].key)) == fields[i].value
    ensures var sorted := Sort(fields, FieldLe);
      CanonicalFields(unordered, sorted) == sorted && Sort(sorted, FieldLe) == sorted
  {
    hide Canonicalize;
    var sorted := Sort(fields, FieldLe);
    SortPermutes(fields, FieldLe);
    forall i | 0 <= i < |sorted|
      ensures Canonicalize(unordered, sorted[i].value, Some(sorted[i].key)) == sorted[i].value
    {
      assert sorted[i] in multiset(sorted);
    }
    StrLePreorder();
    assert TotalPreorder(FieldLe);
    SortSorted(fields, FieldLe);
    SortOfSorted(sorted, FieldLe);
  }

  lemma {:induction false} CanonicalIdempotent(unordered: set<string>, v: Json, key: Option<string>)
    ensures Canonicalize(unordered, Canonicalize(unordered, v, key), key) == Canonicalize(unordered, v, key)
    decreases v
  {
    hide Sort, PrintedLe, FieldLe;
    CanonicalizeUnfolds(unordered, v, key);
    CanonicalizeUnfolds(unordered, Canonicalize(unordered, v, key), key);
    match v {
      case Arr(items) =>
        forall i | 0 <= i < |items| { CanonicalIdempotent(unordered, items[i], None); }
        SortedItemsStay(unordered, CanonicalItems(unordered, items));
      case Obj(fields) =>
        forall i | 0 <= i < |fields| { CanonicalIdempotent(unordered, fields[i].value, Some(fields[i].key)); }
        SortedFieldsStay(unordered, CanonicalFields(unordered, fields));
      case _ =>
    }
  }

  // ---------------------------------------------------------------- sortUnordered

  function CanonicalItem(v: Json): Json { Canonicalize(UNORDERED_ARRAYS, v, None) }

  predicate CanonicalLe(a: Json, b: Json) { PrintedLe(CanonicalItem(a), CanonicalItem(b)) }

  /** Sorts only the identifier-ordered arrays, keeping every object's key order. */
  function SortUnordered(v: Json, key: Option<string>): Json
    decreases v
  {
    match v
    case Arr(items) =>
      var inner := seq(|items|, i requires 0 <= i < |items| => SortUnordered(items[i], None));
      Arr(if IsUnordered(UNORDERED_ARRAYS, key) then Sort(inner, CanonicalLe) else inner)
    case Obj(fields) =>
      Obj(seq(|fields|, i requires 0 <= i < |fields| =>
        Field(fields[i].key, SortUnordered(fields[i].value, Some(fields[i].key)))))
    case _ => v
  }

  function InnerItems(items: seq<Json>): seq<Json> {
    seq(|items|, i requires 0 <= i < |items| => SortUnordered(items[i], None))
  }

  lemma {:induction false} SortUnorderedUnfolds(items: seq<Json>, key: Option<string>)
    ensures SortUnordered(Arr(items), key) ==
      Arr(if IsUnordered(UNORDERED_ARRAYS, key) then Sort(InnerItems(items), CanonicalLe) else InnerItems(items))
  {
    assert InnerItems(items) == seq(|items|, i requires 0 <= i < |items| => SortUnordered(items[i], None));
  }

  lemma ItemsCanonicalizeAlike(items: seq<Json>)
    requires forall i :: 0 <= i < |items| ==> CanonicalItem(SortUnordered(items[i], None)) == CanonicalItem(items[i])
    ensures CanonicalItems(UNORDERED_ARRAYS, InnerItems(items)) == CanonicalItems(UNORDERED_ARRAYS, items)
  {}

  /** Recording with `sortUnordered` loses nothing the comparison looks at. */
  lemma {:induction false} CanonicalOfSorted(v: Json, key: Option<string>)
    ensures Canonicalize(UNORDERED_ARRAYS, SortUnordered(v, key), key) == Canonicalize(UNORDERED_ARRAYS, v, key)
    decreases v
  {
    var s := SortUnordered(v, key);
    CanonicalizeUnfolds(UNORDERED_ARRAYS, v, key);
    CanonicalizeUnfolds(UNORDERED_ARRAYS, s, key);
    match v {
      case Arr(items) =>
        forall i | 0 <= i < |items| { CanonicalOfSorted(items[i], None); }
        ItemsCanonicalizeAlike(items);
        SortUnorderedUnfolds(items, key);
        var inner := InnerItems(items);
        if IsUnordered(UNORDERED_ARRAYS, key) {
          SortMap(inner, CanonicalItem, CanonicalLe, PrintedLe);
          var canonical := CanonicalItems(UNORDERED_ARRAYS, items);
          assert Map(CanonicalItem, inner) == canonical;
          assert Map(CanonicalItem, s.items) == CanonicalItems(UNORDERED_ARRAYS, s.items);
          PrintedLeOrder(canonical);
          SortSorted(canonical, PrintedLe);
          SortOfSorted(Sort(canonical, PrintedLe), PrintedLe);
        }
      case Obj(fields) =>
        forall i | 0 <= i < |fields| { CanonicalOfSorted(fields[i].value, Some(fields[i].key)); }
        assert CanonicalFields(UNORDERED_ARRAYS, s.fields) == CanonicalFields(UNORDERED_ARRAYS, fields);
      case _ =>
    }
  }

  lemma {:induction false} SortedInnerStay(items: seq<Json>)
    requires forall i :: 0 <= i < |items| ==> SortUnordered(items[i], None) == items[i]
    ensures InnerItems(items) == items
    ensures var sorted := Sort(items, CanonicalLe);
      InnerItems(sorted) == sorted && Sort(sorted, CanonicalLe) == sorted
  {
    hide SortUnordered;
    var sorted := Sort(items, CanonicalLe);
    SortPermutes(items, CanonicalLe);
    forall i | 0 <= i < |sorted| ensures SortUnordered(sorted[i], None) == sorted[i] {
      assert sorted[i] in multiset(sorted);
    }
    StrLePreorder();
    assert TotalPreorder(CanonicalLe);
    SortSorted(items, CanonicalLe);
    SortOfSorted(sorted, CanonicalLe);
  }

  lemma {:induction false} SortUnorderedIdempotent(v: Json, key: Option<string>)
    ensures SortUnordered(SortUnordered(v, key), key) == SortUnordered(v, key)
    decreases v
  {
    hide Sort, CanonicalLe;
    match v {
      case Arr(items) =>
        forall i | 0 <= i < |items| { SortUnorderedIdempotent(items[i], None); }
        SortUnorderedUnfolds(items, key);
        SortUnorderedUnfolds(SortUnordered(v, key).items, key);
        SortedInnerStay(InnerItems(items));
      case Obj(fields) =>
        forall i | 0 <= i < |fields| { SortUnorderedIdempotent(fields[i].value, Some(fields[i].key)); }
        var s := SortUnordered(v, key);
        assert SortUnordered(s, key).fields == s.fields;
      case _ =>
    }
  }

  // ---------------------------------------------------------------- canonicalJson

  /** A property already printed, as `canonicalJson` joins them. */
  datatype Entry = Entry(key: string, text: string)

  predicate EntryLe(a: Entry, b: Entry) { StrLe(a.key, b.key) }

  function Join(parts: seq<string>): string {
    if parts == [] then ""
    else if |parts| == 1 then parts[0]
    else parts[0] + "," + Join(parts[1..])
  }

  function EntryText(e: Entry): string { Quote(e.key, []) + ":" + e.text }

  /** The printer the Functions comparison is built on. */
  function CanonicalJson(v: Json): string
    decreases v
  {
    match v
    case Arr(items) =>
      "[" + Join(seq(|items|, i requires 0 <= i < |items| => CanonicalJson(items[i]))) + "]"
    case Obj(fields) =>
      var entries := seq(|fields|, i requires 0 <= i < |fields| =>
        Entry(fields[i].key, CanonicalJson(fields[i].value)));
      "{" + Join(Map(EntryText, Sort(entries, EntryLe))) + "}"
    case _ => Stringify(v)
  }

  lemma EmptyLeft(a: string)
    ensures [] + a == a
  {}

  lemma {:induction false} EscapeAppend(s: string, a: string, b: string)
    ensures Escape(s, a) + b == Escape(s, a + b)
  {
    if s != [] {
      EscapeAppend(s[1..], a, b);
      AppendAssoc(EscapeChar(s[0]), Escape(s[1..], a), b);
    }
  }

  lemma QuoteAppend(s: string, a: string, b: string)
    ensures Quote(s, a) + b == Quote(s, a + b)
  {
    EscapeAppend(s, ['"'] + a, b);
    AppendAssoc(['"'], a, b);
    AppendAssoc(['"'], Escape(s, ['"'] + a), b);
  }

  lemma {:induction false} PrintAppend(v: Json, a: string, b: string)
    ensures Print(v, a) + b == Print(v, a + b)
    decreases v, 1
  {
    match v
    case Null => AppendAssoc("null", a, b);
    case Bool(t) => AppendAssoc(if t then "true" else "false", a, b);
    case Num(n) => AppendAssoc(n, a, b);
    case Str(s) => QuoteAppend(s, a, b);
    case Arr(items) =>
      PrintItemsAppend(items, [']'] + a, b);
      AppendAssoc([']'], a, b);
      AppendAssoc(['['], PrintItems(items, [']'] + a), b);
    case Obj(fields) =>
      PrintFieldsAppend(fields, ['}'] + a, b);
      AppendAssoc(['}'], a, b);
      AppendAssoc(['{'], PrintFields(fields, ['}'] + a), b);
  }

  lemma {:induction false} PrintItemsAppend(items: seq<Json>, a: string, b: string)
    ensures PrintItems(items, a) + b == PrintItems(items, a + b)
    decreases items, 0
  {
    if items != [] {
      if |items| > 1 {
        PrintItemsAppend(items[1..], a, b);
        AppendAssoc([','], PrintItems(items[1..], a), b);
      }
      PrintAppend(items[0], NextItem(items, a), b);
    }
  }

  lemma {:induction false} PrintFieldsAppend(fs: seq<Field>, a: string, b: string)
    ensures PrintFields(fs, a) + b == PrintFields(fs, a + b)
    decreases fs, 0
  {
    if fs != [] {
      if |fs| > 1 {
        PrintFieldsAppend(fs[1..], a, b);
        AppendAssoc([','], PrintFields(fs[1..], a), b);
      }
      PrintAppend(fs[0].value, NextField(fs, a), b);
      QuoteAppend(fs[0].key, [':'] + Print(fs[0].value, NextField(fs, a)), b);
      AppendAssoc([':'], Print(fs[0].value, NextField(fs, a)), b);
    }
  }

  /** Joined parts are the first part, and behind it nothing or a comma and the rest. */
  lemma {:induction false} JoinUnfolds(parts: seq<string>, rest: string)
    requires parts != []
    ensures Join(parts) + rest
         == parts[0] + (if |parts| == 1 then rest else [','] + (Join(parts[1..]) + rest))
  {
    if |parts| > 1 {
      AppendAssoc(parts[0] + ",", Join(parts[1..]), rest);
      AppendAssoc(parts[0], ",", Join(parts[1..]) + rest);
    }
  }

  lemma {:induction false} JoinPrintsItems(items: seq<Json>, rest: string)
    ensures Join(Map(Stringify, items)) + rest == PrintItems(items, rest)
  {
    var parts := Map(Stringify, items);
    if items == [] {
      EmptyLeft(rest);
    } else {
      JoinUnfolds(parts, rest);
      PrintAppend(items[0], [], NextItem(items, rest));
      EmptyLeft(NextItem(items, rest));
      if |items| > 1 {
        JoinPrintsItems(items[1..], rest);
        assert parts[1..] == Map(Stringify, items[1..]);
      }
    }
  }

  function FieldEntry(f: Field): Entry { Entry(f.key, Stringify(f.value)) }

  lemma EntryPrints(f: Field, rest: string)
    ensures EntryText(FieldEntry(f)) + rest == Quote(f.key, [':'] + Print(f.value, rest))
  {
    var quoted, text := Quote(f.key, []), Stringify(f.value);
    AppendAssoc(quoted + ":", text, rest);
    AppendAssoc(quoted, ":", text + rest);
    PrintAppend(f.value, [], rest);
    EmptyLeft(rest);
    QuoteAppend(f.key, [], [':'] + Print(f.value, rest));
    EmptyLeft([':'] + Print(f.value, rest));
  }

  lemma {:induction false} JoinPrintsFields(fs: seq<Field>, rest: string)
    ensures Join(Map(EntryText, Map(FieldEntry, fs))) + rest == PrintFields(fs, rest)
  {
    var parts := Map(EntryText, Map(FieldEntry, fs));
    if fs == [] {
      EmptyLeft(rest);
    } else {
      JoinUnfolds(parts, rest);
      EntryPrints(fs[0], NextField(fs, rest));
      if |fs| > 1 {
        JoinPrintsFields(fs[1..], rest);
        assert parts[1..] == Map(EntryText, Map(FieldEntry, fs[1..]));
      }
    }
  }

  lemma {:induction false} ItemsPrint(items: seq<Json>, parts: seq<string>)
    requires parts == Map(Stringify, items)
    ensures Stringify(Arr(items)) == "[" + (Join(parts) + "]")
  {
    JoinPrintsItems(items, [']']);
    assert [']'] + [] == [']'];
  }

  lemma {:induction false} FieldsPrint(fields: seq<Field>, entries: seq<Entry>)
    requires entries == Map(FieldEntry, fields)
    ensures Stringify(Obj(Sort(fields, FieldLe))) == "{" + (Join(Map(EntryText, Sort(entries, EntryLe))) + "}")
  {
    SortMap(fields, FieldEntry, FieldLe, EntryLe);
    JoinPrintsFields(Sort(fields, FieldLe), ['}']);
    assert ['}'] + [] == ['}'];
  }

  /** `canonicalJson` prints the tree whose every object is sorted by key. */
  lemma {:induction false} CanonicalJsonPrints(v: Json, key: Option<string>)
    ensures CanonicalJson(v) == Stringify(Canonicalize({}, v, key))
    decreases v
  {
    hide Sort, Join;
    CanonicalizeUnfolds({}, v, key);
    match v {
      case Arr(items) =>
        forall i | 0 <= i < |items| { CanonicalJsonPrints(items[i], None); }
        var parts := seq(|items|, i requires 0 <= i < |items| => CanonicalJson(items[i]));
        assert parts == Map(Stringify, CanonicalItems({}, items));
        ItemsPrint(CanonicalItems({}, items), parts);
        assert CanonicalJson(v) == "[" + (Join(parts) + "]");
      case Obj(fields) =>
        forall i | 0 <= i < |fields| { CanonicalJsonPrints(fields[i].value, Some(fields[i].key)); }
        var entries := seq(|fields|, i requires 0 <= i < |fields| =>
          Entry(fields[i].key, CanonicalJson(fields[i].value)));
        assert entries == Map(FieldEntry, CanonicalFields({}, fields));
        FieldsPrint(CanonicalFields({}, fields), entries);
        assert CanonicalJson(v) == "{" + (Join(Map(EntryText, Sort(entries, EntryLe))) + "}");
      case _ =>
    }
  }

  /** Canonical texts are equal exactly when the trees are equal up to key order. */
  lemma CanonicalJsonInjective(v: Json, w: Json)
    requires Proper(v) && Proper(w)
    ensures CanonicalJson(v) == CanonicalJson(w) <==> Same({}, v, w, None)
  {
    CanonicalJsonPrints(v, None);
    CanonicalJsonPrints(w, None);
    StringifyInjective(Canonicalize({}, v, None), Canonicalize({}, w, None));
    CanonicalNormalForm({}, v, w, None);
  }
}
