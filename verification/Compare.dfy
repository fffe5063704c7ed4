/** The recursive comparers of the Auth, Pub/Sub and Functions replays. */
module Compare {
  import opened Options
  import opened Text
  import opened JsonTree
  import opened Canonical

  /** One step of a path into a JSON tree. */
  datatype Part = Key(key: string) | Index(index: nat) | Length

  datatype Difference = Difference(at: seq<Part>, expected: Option<Json>, actual: Option<Json>)

  function Nat(n: nat): Json {
    assert forall c :: c in NatText(n) ==> IsNumeralChar(c);
    Num(NatText(n))
  }

  /** What a path leads to; `None` is `undefined`. */
  function ValueAt(v: Option<Json>, at: seq<Part>): Option<Json>
    decreases |at|
  {
    if at == [] then v
    else ValueAt(Child(v, at[0]), at[1..])
  }

  function Child(v: Option<Json>, part: Part): Option<Json> {
    if v.None? then None
    else match (v.value, part)
      case (Obj(fields), Key(k)) => Get(fields, k)
      case (Arr(items), Index(i)) => if i < |items| then Some(items[i]) else None
      case (Arr(items), Length) => Some(Nat(|items|))
      case _ => None
  }

  ghost predicate SameValue(e: Option<Json>, a: Option<Json>) {
    match (e, a)
    case (Some(v), Some(w)) => Same({}, v, w, None)
    case _ => e == a
  }

  function FieldKeys(fs: seq<Field>): (ks: seq<string>)
    ensures |ks| == |fs| && forall i :: 0 <= i < |fs| ==> ks[i] == fs[i].key
  {
    seq(|fs|, i requires 0 <= i < |fs| => fs[i].key)
  }

  /** `new Set([...expected, ...actual])`, in insertion order. */
  function UnionKeys(ks: seq<string>, ls: seq<string>): (r: seq<string>)
    ensures forall k :: k in r <==> k in ks || k in ls
  {
    if ls == [] then ks
    else
      var rest := UnionKeys(ks, ls[..|ls| - 1]);
      assert ls == ls[..|ls| - 1] + [ls[|ls| - 1]];
      if ls[|ls| - 1] in rest then rest else rest + [ls[|ls| - 1]]
  }

  function ObjectKeys(v: Json, w: Json): seq<string>
    requires v.Obj? && w.Obj?
  {
    UnionKeys(FieldKeys(v.fields), FieldKeys(w.fields))
  }

  function Max(m: nat, n: nat): nat { if m < n then n else m }

  function At(items: seq<Json>, i: nat): Option<Json> { if i < |items| then Some(items[i]) else None }

  function Printed(v: Option<Json>): Option<string> { if v.None? then None else Some(Stringify(v.value)) }

  // ---------------------------------------------------------------- Auth and Pub/Sub `diff`

  /** What one comparison adds: leaves compared, and differences in the order they are recorded. */
  datatype Findings = Findings(compared: nat, differences: seq<Difference>)

  function Plus(a: Findings, b: Findings): Findings {
    Findings(a.compared + b.compared, a.differences + b.differences)
  }

  const NOTHING := Findings(0, [])

  function Leaf(at: seq<Part>, e: Option<Json>, a: Option<Json>): Findings {
    Findings(1, if Printed(e) != Printed(a) then [Difference(at, e, a)] else [])
  }

  function DiffLengths(at: seq<Part>, xs: seq<Json>, ys: seq<Json>): Findings {
    if |xs| != |ys| then Findings(0, [Difference(at + [Length], Some(Nat(|xs|)), Some(Nat(|ys|)))]) else NOTHING
  }

  function Total(parts: seq<Findings>): Findings {
    if parts == [] then NOTHING else Plus(Total(parts[..|parts| - 1]), parts[|parts| - 1])
  }

  /** The specification of `diff`: everything it visits, before divergences are sorted out. */
  function DiffValues(at: seq<Part>, e: Option<Json>, a: Option<Json>): Findings
    decreases if e.Some? then 1 else 0, if e.Some? then e.value else Null, 1
  {
    if e.Some? && a.Some? && e.value.Obj? && a.value.Obj? then
      Total(DiffKeys(at, e.value, a.value, ObjectKeys(e.value, a.value)))
    else if e.Some? && a.Some? && e.value.Arr? && a.value.Arr? then
      Plus(DiffLengths(at, e.value.items, a.value.items), Total(DiffIndexes(at, e.value, a.value)))
    else
      Leaf(at, e, a)
  }

  function DiffKeys(at: seq<Part>, v: Json, w: Json, keys: seq<string>): (parts: seq<Findings>)
    requires v.Obj? && w.Obj?
    ensures |parts| == |keys|
    decreases 1, v, 0
  {
    seq(|keys|, i requires 0 <= i < |keys| =>
      DiffValues(at + [Key(keys[i])], Get(v.fields, keys[i]), Get(w.fields, keys[i])))
  }

  function DiffIndexes(at: seq<Part>, v: Json, w: Json): (parts: seq<Findings>)
    requires v.Arr? && w.Arr?
    ensures |parts| == Max(|v.items|, |w.items|)
    decreases 1, v, 0
  {
    seq(Max(|v.items|, |w.items|), i requires 0 <= i < Max(|v.items|, |w.items|) =>
      DiffValues(at + [Index(i)], At(v.items, i), At(w.items, i)))
  }

  ghost predicate AllEmpty(parts: seq<Findings>) {
    forall i :: 0 <= i < |parts| ==> parts[i].differences == []
  }

  lemma {:induction false} TotalEmpty(parts: seq<Findings>)
    ensures Total(parts).differences == [] <==> AllEmpty(parts)
  {
    if parts != [] {
      TotalEmpty(parts[..|parts| - 1]);
      assert |Total(parts).differences|
          == |Total(parts[..|parts| - 1]).differences| + |parts[|parts| - 1].differences|;
    }
  }

  lemma {:induction false} TotalMember(parts: seq<Findings>, d: Difference) returns (i: nat)
    requires d in Total(parts).differences
    ensures i < |parts| && d in parts[i].differences
  {
    if d in parts[|parts| - 1].differences {
      i := |parts| - 1;
    } else {
      i := TotalMember(parts[..|parts| - 1], d);
    }
  }

  // ---------------------------------------------------------------- what an empty comparison means

  ghost predicate ProperValue(v: Option<Json>) { v.Some? ==> Proper(v.value) }

  lemma GetProper(v: Json, k: string)
    requires v.Obj? && Proper(v)
    ensures ProperValue(Get(v.fields, k))
  {}

  /** Without unordered arrays the key a value hangs under does not matter. */
  lemma SameIgnoresKey(v: Json, w: Json, key: Option<string>)
    ensures Same({}, v, w, key) <==> Same({}, v, w, None)
  {}

  ghost predicate KeysSame(v: Json, w: Json, keys: seq<string>)
    requires v.Obj? && w.Obj?
  {
    forall k :: k in keys ==> SameValue(Get(v.fields, k), Get(w.fields, k))
  }

  lemma {:induction false} ObjectKeysAre(v: Json, w: Json)
    requires v.Obj? && w.Obj?
    ensures forall k :: k in ObjectKeys(v, w) <==> k in Keys(v.fields) || k in Keys(w.fields)
  {
    KeysOf(v.fields);
    KeysOf(w.fields);
  }

  lemma {:induction false} ObjectsSame(v: Json, w: Json)
    requires v.Obj? && w.Obj? && Proper(v) && Proper(w)
    ensures KeysSame(v, w, ObjectKeys(v, w)) <==> Same({}, v, w, None)
  {
    if KeysSame(v, w, ObjectKeys(v, w)) { ObjectsSameIf(v, w); }
    if Same({}, v, w, None) { ObjectsSameOnlyIf(v, w); }
  }

  lemma {:induction false} ObjectsSameIf(v: Json, w: Json)
    requires v.Obj? && w.Obj? && Proper(v) && Proper(w) && KeysSame(v, w, ObjectKeys(v, w))
    ensures Same({}, v, w, None)
  {
    var fs, gs := v.fields, w.fields;
    ObjectKeysAre(v, w);
    forall k ensures k in Keys(fs) <==> k in Keys(gs) {
      if k in ObjectKeys(v, w) { assert SameValue(Get(fs, k), Get(gs, k)); }
    }
    forall i, j | 0 <= i < |fs| && 0 <= j < |gs| && fs[i].key == gs[j].key
      ensures Same({}, fs[i].value, gs[j].value, Some(fs[i].key))
    {
      GetAt(fs, i);
      GetAt(gs, j);
      SameIgnoresKey(fs[i].value, gs[j].value, Some(fs[i].key));
    }
  }

  lemma {:induction false} ObjectsSameOnlyIf(v: Json, w: Json)
    requires v.Obj? && w.Obj? && Same({}, v, w, None)
    ensures KeysSame(v, w, ObjectKeys(v, w))
  {
    var fs, gs := v.fields, w.fields;
    ObjectKeysAre(v, w);
    forall k | k in ObjectKeys(v, w) ensures SameValue(Get(fs, k), Get(gs, k)) {
      var i :| 0 <= i < |fs| && fs[i] == Field(k, Get(fs, k).value);
      var j :| 0 <= j < |gs| && gs[j] == Field(k, Get(gs, k).value);
      SameIgnoresKey(fs[i].value, gs[j].value, Some(k));
    }
  }

  lemma {:induction false} KeysOf(fs: seq<Field>)
    ensures forall k :: k in FieldKeys(fs) <==> k in Keys(fs)
  {
    forall k | k in FieldKeys(fs) ensures k in Keys(fs) {
      var i :| 0 <= i < |fs| && FieldKeys(fs)[i] == k;
      assert fs[i].key == k;
    }
    forall k | k in Keys(fs) ensures k in FieldKeys(fs) {
      var i :| 0 <= i < |fs| && fs[i].key == k;
      assert FieldKeys(fs)[i] == k;
    }
  }

  lemma NatInjective(m: nat, n: nat)
    ensures SameValue(Some(Nat(m)), Some(Nat(n))) <==> m == n
  {
    if NatText(m) == NatText(n) { NatTextInjective(m, n); }
  }

  lemma LeafSame(e: Option<Json>, a: Option<Json>)
    requires !(e.Some? && a.Some? && e.value.Obj? && a.value.Obj?)
    requires !(e.Some? && a.Some? && e.value.Arr? && a.value.Arr?)
    ensures Printed(e) == Printed(a) <==> SameValue(e, a)
  {
    if e.Some? && a.Some? { StringifyInjective(e.value, a.value); }
  }

  ghost predicate ItemsSame(v: Json, w: Json, n: nat)
    requires v.Arr? && w.Arr?
  {
    forall i: nat :: i < n ==> SameValue(At(v.items, i), At(w.items, i))
  }

  lemma AtProper(v: Json, i: nat)
    requires v.Arr? && Proper(v)
    ensures ProperValue(At(v.items, i))
  {}

  lemma ArraysSame(v: Json, w: Json)
    requires v.Arr? && w.Arr?
    ensures |v.items| == |w.items| && ItemsSame(v, w, Max(|v.items|, |w.items|)) <==> Same({}, v, w, None)
  {
    var xs, ys := v.items, w.items;
    if |xs| == |ys| {
      forall i | 0 <= i < |xs|
        ensures SameValue(At(xs, i), At(ys, i)) <==> Same({}, xs[i], ys[i], None)
      {
        assert At(xs, i) == Some(xs[i]) && At(ys, i) == Some(ys[i]);
      }
    }
  }

  /** Nothing is recorded exactly when the two values are equal up to key order. */
  lemma {:induction false} NoDifferences(at: seq<Part>, e: Option<Json>, a: Option<Json>)
    requires ProperValue(e) && ProperValue(a)
    ensures DiffValues(at, e, a).differences == [] <==> SameValue(e, a)
    decreases if e.Some? then 1 else 0, if e.Some? then e.value else Null, 1
  {
    if e.Some? && a.Some? && e.value.Obj? && a.value.Obj? {
      var keys := ObjectKeys(e.value, a.value);
      NoKeyDifferences(at, e.value, a.value, keys);
      TotalEmpty(DiffKeys(at, e.value, a.value, keys));
      ObjectsSame(e.value, a.value);
    } else if e.Some? && a.Some? && e.value.Arr? && a.value.Arr? {
      NoIndexDifferences(at, e.value, a.value);
      TotalEmpty(DiffIndexes(at, e.value, a.value));
      ArraysSame(e.value, a.value);
    } else {
      LeafSame(e, a);
    }
  }

  lemma {:induction false} NoKeyDifferences(at: seq<Part>, v: Json, w: Json, keys: seq<string>)
    requires v.Obj? && w.Obj? && Proper(v) && Proper(w)
    ensures AllEmpty(DiffKeys(at, v, w, keys)) <==> KeysSame(v, w, keys)
    decreases 1, v, 0
  {
    var parts := DiffKeys(at, v, w, keys);
    forall i | 0 <= i < |keys|
      ensures parts[i].differences == [] <==> SameValue(Get(v.fields, keys[i]), Get(w.fields, keys[i]))
    {
      GetProper(v, keys[i]);
      GetProper(w, keys[i]);
      NoDifferences(at + [Key(keys[i])], Get(v.fields, keys[i]), Get(w.fields, keys[i]));
    }
    if AllEmpty(parts) {
      forall k | k in keys ensures SameValue(Get(v.fields, k), Get(w.fields, k)) {
        var i :| 0 <= i < |keys| && keys[i] == k;
        assert parts[i].differences == [];
      }
    }
    if KeysSame(v, w, keys) {
      forall i | 0 <= i < |parts| ensures parts[i].differences == [] { assert keys[i] in keys; }
    }
  }

  lemma {:induction false} NoIndexDifferences(at: seq<Part>, v: Json, w: Json)
    requires v.Arr? && w.Arr? && Proper(v) && Proper(w)
    ensures AllEmpty(DiffIndexes(at, v, w)) <==> ItemsSame(v, w, Max(|v.items|, |w.items|))
    decreases 1, v, 0
  {
    var parts := DiffIndexes(at, v, w);
    forall i: nat | i < |parts|
      ensures parts[i].differences == [] <==> SameValue(At(v.items, i), At(w.items, i))
    {
      AtProper(v, i);
      AtProper(w, i);
      NoDifferences(at + [Index(i)], At(v.items, i), At(w.items, i));
    }
    if AllEmpty(parts) {
      forall i: nat | i < |parts| ensures SameValue(At(v.items, i), At(w.items, i)) {
        assert parts[i].differences == [];
      }
    }
    if ItemsSame(v, w, |parts|) {
      forall i: nat | i < |parts| ensures parts[i].differences == [] {
        assert SameValue(At(v.items, i), At(w.items, i));
      }
    }
  }

  // ---------------------------------------------------------------- every difference is a real one

  /** The path leads, in either tree, to the two values reported, and those are not the same. */
  ghost predicate Locates(at: seq<Part>, e: Option<Json>, a: Option<Json>, d: Difference) {
    && at <= d.at
    && ValueAt(e, d.at[|at|..]) == d.expected
    && ValueAt(a, d.at[|at|..]) == d.actual
    && !SameValue(d.expected, d.actual)
  }

  lemma {:induction false} LocatesChild(at: seq<Part>, part: Part, e: Option<Json>, a: Option<Json>, d: Difference)
    requires Locates(at + [part], Child(e, part), Child(a, part), d)
    ensures Locates(at, e, a, d)
  {
    var rest := d.at[|at|..];
    assert d.at[|at|] == (at + [part])[|at|];
    assert rest[0] == part && rest[1..] == d.at[|at| + 1..];
    assert at <= at + [part];
  }

  lemma {:induction false} LocatesHere(at: seq<Part>, e: Option<Json>, a: Option<Json>)
    requires !SameValue(e, a)
    ensures Locates(at, e, a, Difference(at, e, a))
  {
    assert at[|at|..] == [];
  }

  lemma LengthDiffers(at: seq<Part>, v: Json, w: Json)
    requires v.Arr? && w.Arr? && |v.items| != |w.items|
    ensures Locates(at, Some(v), Some(w), Difference(at + [Length], Some(Nat(|v.items|)), Some(Nat(|w.items|))))
  {
    NatInjective(|v.items|, |w.items|);
    LocatesHere(at + [Length], Some(Nat(|v.items|)), Some(Nat(|w.items|)));
    LocatesChild(at, Length, Some(v), Some(w), Difference(at + [Length], Some(Nat(|v.items|)), Some(Nat(|w.items|))));
  }

  /** Whatever is recorded can be followed from the roots to two values that are not the same. */
  lemma {:induction false} DifferencesLocated(at: seq<Part>, e: Option<Json>, a: Option<Json>, d: Difference)
    requires d in DiffValues(at, e, a).differences
    ensures Locates(at, e, a, d)
    decreases if e.Some? then 1 else 0, if e.Some? then e.value else Null, 1
  {
    hide Locates, ObjectKeys, Total, SameValue;
    if e.Some? && a.Some? && e.value.Obj? && a.value.Obj? {
      var v, w, keys := e.value, a.value, ObjectKeys(e.value, a.value);
      var i := TotalMember(DiffKeys(at, v, w, keys), d);
      DifferencesLocated(at + [Key(keys[i])], Get(v.fields, keys[i]), Get(w.fields, keys[i]), d);
      LocatesChild(at, Key(keys[i]), e, a, d);
    } else if e.Some? && a.Some? && e.value.Arr? && a.value.Arr? {
      var v, w := e.value, a.value;
      if d in Total(DiffIndexes(at, v, w)).differences {
        var i := TotalMember(DiffIndexes(at, v, w), d);
        DifferencesLocated(at + [Index(i)], At(v.items, i), At(w.items, i), d);
        LocatesChild(at, Index(i), e, a, d);
      } else {
        LengthDiffers(at, v, w);
      }
    } else {
      LeafSame(e, a);
      LocatesHere(at, e, a);
    }
  }
}
