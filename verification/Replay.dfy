/** The replay reports: differences split between named divergences and mismatches. */
module Replay {
  import opened Options
  import opened Text
  import opened JsonTree
  import opened Canonical
  import opened Compare

  /** A named divergence; the patterns are arbitrary tests, and no `accept` means one that is always false. */
  datatype Divergence = Divergence(
    program: string -> bool,
    step: string -> bool,
    path: string -> bool,
    reason: string,
    anyValue: bool,
    accept: (Option<Json>, Option<Json>) -> bool)

  datatype Mismatch = Mismatch(program: string, step: string, path: string, expected: Option<Json>,
                               actual: Option<Json>)

  datatype Observed = Observed(program: string, step: string, path: string, reason: string)

  /** The dotted path the reports print. */
  function PathText(at: seq<Part>): string {
    if at == [] then ""
    else
      var prefix := PathText(at[..|at| - 1]);
      match at[|at| - 1]
      case Key(k) => if prefix == "" then k else prefix + "." + k
      case Index(i) => prefix + "." + NatText(i)
      case Length => prefix + ".length"
  }

  /** Only the first divergence whose patterns match is asked. */
  function FirstMatch(divergences: seq<Divergence>, program: string, step: string,
                      path: string): (r: Option<Divergence>)
  {
    if divergences == [] then None
    else if divergences[0].program(program) && divergences[0].step(step) && divergences[0].path(path) then
      Some(divergences[0])
    else FirstMatch(divergences[1..], program, step, path)
  }

  predicate Accepted(divergences: seq<Divergence>, program: string, step: string, d: Difference) {
    var m := FirstMatch(divergences, program, step, PathText(d.at));
    m.Some? && (m.value.anyValue || m.value.accept(d.expected, d.actual))
  }

  /** The two lists of a report. */
  datatype Lists = Lists(mismatches: seq<Mismatch>, observed: seq<Observed>)

  function MismatchOf(program: string, step: string, d: Difference): Mismatch {
    Mismatch(program, step, PathText(d.at), d.expected, d.actual)
  }

  function ObservedOf(divergences: seq<Divergence>, program: string, step: string, d: Difference): Observed
    requires Accepted(divergences, program, step, d)
  {
    Observed(program, step, PathText(d.at), FirstMatch(divergences, program, step, PathText(d.at)).value.reason)
  }

  function FileOne(lists: Lists, divergences: seq<Divergence>, program: string, step: string, d: Difference): Lists {
    if Accepted(divergences, program, step, d) then
      lists.(observed := lists.observed + [ObservedOf(divergences, program, step, d)])
    else
      lists.(mismatches := lists.mismatches + [MismatchOf(program, step, d)])
  }

  function File(lists: Lists, divergences: seq<Divergence>, program: string, step: string, ds: seq<Difference>): Lists {
    if ds == [] then lists
    else FileOne(File(lists, divergences, program, step, ds[..|ds| - 1]), divergences, program, step, ds[|ds| - 1])
  }

  lemma {:induction false} FileAppend(lists: Lists, divergences: seq<Divergence>, program: string, step: string,
                                      ds: seq<Difference>, es: seq<Difference>)
    ensures File(lists, divergences, program, step, ds + es)
         == File(File(lists, divergences, program, step, ds), divergences, program, step, es)
  {
    if es == [] {
      assert ds + es == ds;
    } else {
      FileAppend(lists, divergences, program, step, ds, es[..|es| - 1]);
      assert (ds + es)[..|ds + es| - 1] == ds + es[..|es| - 1];
    }
  }

  /** The places that hold `wanted`, in order. */
  function Places(flags: seq<bool>, wanted: bool): (places: seq<nat>)
    ensures forall k :: 0 <= k < |places| ==> places[k] < |flags| && flags[places[k]] == wanted
    ensures forall k, l :: 0 <= k < l < |places| ==> places[k] < places[l]
    ensures forall i :: 0 <= i < |flags| && flags[i] == wanted ==> i in places
  {
    if flags == [] then []
    else
      var last := |flags| - 1;
      Places(flags[..last], wanted) + if flags[last] == wanted then [last] else []
  }

  /** For each difference, whether it is an accepted divergence. */
  function Verdicts(divergences: seq<Divergence>, program: string, step: string,
                    ds: seq<Difference>): (flags: seq<bool>)
    ensures |flags| == |ds| && forall i :: 0 <= i < |ds| ==> flags[i] == Accepted(divergences, program, step, ds[i])
  {
    seq(|ds|, i requires 0 <= i < |ds| => Accepted(divergences, program, step, ds[i]))
  }

  lemma PlacesLast(flags: seq<bool>, flag: bool, wanted: bool)
    ensures Places(flags + [flag], wanted) == Places(flags, wanted) + if flag == wanted then [|flags|] else []
  {
    assert (flags + [flag])[..|flags|] == flags;
  }

  lemma NoPlaces(wanted: bool)
    ensures Places([], wanted) == []
  {}

  lemma VerdictsLast(divergences: seq<Divergence>, program: string, step: string, ds: seq<Difference>)
    requires ds != []
    ensures Verdicts(divergences, program, step, ds) ==
      Verdicts(divergences, program, step, ds[..|ds| - 1]) + [Accepted(divergences, program, step, ds[|ds| - 1])]
  {
    hide Accepted;
  }

  lemma FileLast(lists: Lists, divergences: seq<Divergence>, program: string, step: string, ds: seq<Difference>)
    requires ds != []
    ensures var d, before := ds[|ds| - 1], File(lists, divergences, program, step, ds[..|ds| - 1]);
      File(lists, divergences, program, step, ds) ==
        if Accepted(divergences, program, step, d) then
          Lists(before.mismatches, before.observed + [ObservedOf(divergences, program, step, d)])
        else
          Lists(before.mismatches + [MismatchOf(program, step, d)], before.observed)
  {
    hide Accepted, MismatchOf, ObservedOf;
  }

  /** The mismatches gain exactly the differences that are not accepted, in order, behind what was there. */
  lemma {:induction false} MismatchesFiled(lists: Lists, divergences: seq<Divergence>, program: string, step: string,
                                           ds: seq<Difference>)
    ensures var filed := File(lists, divergences, program, step, ds).mismatches;
      var no := Places(Verdicts(divergences, program, step, ds), false);
      && lists.mismatches <= filed && |filed| == |lists.mismatches| + |no|
      && forall k :: 0 <= k < |no| ==> filed[|lists.mismatches| + k] == MismatchOf(program, step, ds[no[k]])
  {
    hide Accepted, MismatchOf, ObservedOf, Verdicts, Places, FileOne;
    if ds == [] {
      NoPlaces(false);
    } else {
      var init, base := ds[..|ds| - 1], |lists.mismatches|;
      var flags, last := Verdicts(divergences, program, step, init), Accepted(divergences, program, step, ds[|ds| - 1]);
      MismatchesFiled(lists, divergences, program, step, init);
      FileLast(lists, divergences, program, step, ds);
      VerdictsLast(divergences, program, step, ds);
      PlacesLast(flags, last, false);
      var before, after := Places(flags, false), Places(flags + [last], false);
      var filed := File(lists, divergences, program, step, ds).mismatches;
      forall k | 0 <= k < |after| ensures filed[base + k] == MismatchOf(program, step, ds[after[k]]) {
        if k < |before| { assert filed[base + k] == MismatchOf(program, step, init[before[k]]); }
      }
    }
  }

  /** The observed divergences gain exactly the accepted ones, in order, behind what was there. */
  lemma {:induction false} DivergencesFiled(lists: Lists, divergences: seq<Divergence>, program: string, step: string,
                                            ds: seq<Difference>)
    ensures var filed := File(lists, divergences, program, step, ds).observed;
      var yes := Places(Verdicts(divergences, program, step, ds), true);
      && lists.observed <= filed && |filed| == |lists.observed| + |yes|
      && forall k :: 0 <= k < |yes| ==>
           filed[|lists.observed| + k] == ObservedOf(divergences, program, step, ds[yes[k]])
  {
    hide Accepted, MismatchOf, ObservedOf, Verdicts, Places;
    if ds == [] {
      NoPlaces(true);
    } else {
      var init := ds[..|ds| - 1];
      DivergencesFiled(lists, divergences, program, step, init);
      VerdictsLast(divergences, program, step, ds);
      PlacesLast(Verdicts(divergences, program, step, init), Accepted(divergences, program, step, ds[|ds| - 1]), true);
    }
  }

  /** No mismatch is added exactly when the first divergence that matches accepts each difference. */
  lemma {:induction false} NoMismatchAdded(lists: Lists, divergences: seq<Divergence>, program: string, step: string,
                                           ds: seq<Difference>)
    ensures |File(lists, divergences, program, step, ds).mismatches| >= |lists.mismatches|
    ensures |File(lists, divergences, program, step, ds).mismatches| == |lists.mismatches| <==>
      forall i :: 0 <= i < |ds| ==> Accepted(divergences, program, step, ds[i])
  {
    if ds != [] {
      NoMismatchAdded(lists, divergences, program, step, ds[..|ds| - 1]);
      assert forall i :: 0 <= i < |ds| - 1 ==> ds[..|ds| - 1][i] == ds[i];
    }
  }

  /** The counters and lists a replay run shares across its steps. */
  class Report {
    const divergences: seq<Divergence>
    var compared: nat
    var mismatches: seq<Mismatch>
    var observed: seq<Observed>

    constructor (divergences: seq<Divergence>)
      ensures this.divergences == divergences && compared == 0 && mismatches == [] && observed == []
    {
      this.divergences := divergences;
      compared, mismatches, observed := 0, [], [];
    }

    function Filed(): Lists
      reads this
    {
      Lists(mismatches, observed)
    }

    /** The report is the earlier one with `found` added. */
    ghost predicate Reported(program: string, step: string, found: Findings, compared0: nat, lists0: Lists)
      reads this
    {
      && compared == compared0 + found.compared
      && Filed() == File(lists0, divergences, program, step, found.differences)
    }

    method Record(program: string, step: string, d: Difference)
      modifies this
      ensures compared == old(compared)
      ensures Filed() == FileOne(old(Filed()), divergences, program, step, d)
    {
      var divergence := FirstMatch(divergences, program, step, PathText(d.at));
      if divergence.Some? && (divergence.value.anyValue || divergence.value.accept(d.expected, d.actual)) {
        observed := observed + [Observed(program, step, PathText(d.at), divergence.value.reason)];
      } else {
        mismatches := mismatches + [Mismatch(program, step, PathText(d.at), d.expected, d.actual)];
      }
    }

    method Diff(program: string, step: string, at: seq<Part>, expected: Option<Json>, actual: Option<Json>)
      modifies this
      ensures Reported(program, step, DiffValues(at, expected, actual), old(compared), old(Filed()))
      decreases if expected.Some? then 1 else 0, if expected.Some? then expected.value else Null, 2
    {
      if expected.Some? && actual.Some? && expected.value.Obj? && actual.value.Obj? {
        DiffObjects(program, step, at, expected.value, actual.value);
      } else if expected.Some? && actual.Some? && expected.value.Arr? && actual.value.Arr? {
        DiffArrays(program, step, at, expected.value, actual.value);
      } else {
        compared := compared + 1;
        if Printed(expected) != Printed(actual) {
          Record(program, step, Difference(at, expected, actual));
        }
      }
    }

    /** The object branch of `diff`. */
    method DiffObjects(program: string, step: string, at: seq<Part>, v: Json, w: Json)
      requires v.Obj? && w.Obj?
      modifies this
      ensures Reported(program, step, Total(DiffKeys(at, v, w, ObjectKeys(v, w))), old(compared), old(Filed()))
      decreases 1, v, 0
    {
      var keys := ObjectKeys(v, w);
      ghost var parts := DiffKeys(at, v, w, keys);
      var i := 0;
      while i < |keys|
        invariant 0 <= i <= |keys|
        invariant Reported(program, step, Total(parts[..i]), old(compared), old(Filed()))
      {
        Diff(program, step, at + [Key(keys[i])], Get(v.fields, keys[i]), Get(w.fields, keys[i]));
        TotalStep(parts, i);
        FileAppend(old(Filed()), divergences, program, step, Total(parts[..i]).differences, parts[i].differences);
        i := i + 1;
      }
      assert parts[..|keys|] == parts;
    }

    /** The array branch of `diff`: unequal lengths are a difference of their own. */
    method DiffArrays(program: string, step: string, at: seq<Part>, v: Json, w: Json)
      requires v.Arr? && w.Arr?
      modifies this
      ensures Reported(program, step, Plus(DiffLengths(at, v.items, w.items), Total(DiffIndexes(at, v, w))),
                       old(compared), old(Filed()))
      decreases 1, v, 1
    {
      RecordLengths(program, step, at, v.items, w.items);
      DiffItems(program, step, at, v, w);
      FileAppend(old(Filed()), divergences, program, step, DiffLengths(at, v.items, w.items).differences,
        Total(DiffIndexes(at, v, w)).differences);
    }

    method RecordLengths(program: string, step: string, at: seq<Part>, xs: seq<Json>, ys: seq<Json>)
      modifies this
      ensures Reported(program, step, DiffLengths(at, xs, ys), old(compared), old(Filed()))
    {
      if |xs| != |ys| {
        var lengths := Difference(at + [Length], Some(Nat(|xs|)), Some(Nat(|ys|)));
        Record(program, step, lengths);
        assert [lengths][..0] == [];
      }
    }

    method DiffItems(program: string, step: string, at: seq<Part>, v: Json, w: Json)
      requires v.Arr? && w.Arr?
      modifies this
      ensures Reported(program, step, Total(DiffIndexes(at, v, w)), old(compared), old(Filed()))
      decreases 1, v, 0
    {
      var length := Max(|v.items|, |w.items|);
      ghost var parts := DiffIndexes(at, v, w);
      var index := 0;
      while index < length
        invariant 0 <= index <= length
        invariant Reported(program, step, Total(parts[..index]), old(compared), old(Filed()))
      {
        Diff(program, step, at + [Index(index)], At(v.items, index), At(w.items, index));
        TotalStep(parts, index);
        FileAppend(old(Filed()), divergences, program, step,
                   Total(parts[..index]).differences, parts[index].differences);
        index := index + 1;
      }
      assert parts[..length] == parts;
    }
  }

  lemma TotalStep(parts: seq<Findings>, i: nat)
    requires i < |parts|
    ensures Total(parts[..i + 1]) == Plus(Total(parts[..i]), parts[i])
  {
    assert parts[..i + 1][..i] == parts[..i];
  }

  /** With no divergence named, a step reports no mismatch exactly when its two views agree up to key order. */
  lemma StrictComparison(program: string, step: string, expected: Json, actual: Json)
    requires Proper(expected) && Proper(actual)
    ensures var ds := DiffValues([], Some(expected), Some(actual)).differences;
      File(Lists([], []), [], program, step, ds).mismatches == [] <==> Same({}, expected, actual, None)
  {
    var ds := DiffValues([], Some(expected), Some(actual)).differences;
    NoDifferences([], Some(expected), Some(actual));
    NoMismatchAdded(Lists([], []), [], program, step, ds);
    if ds != [] { assert !Accepted([], program, step, ds[0]); }
  }

  // ---------------------------------------------------------------- the Functions replay

  function CanonicalText(v: Option<Json>): Option<string> {
    if v.None? then None else Some(CanonicalJson(v.value))
  }

  function Flat(parts: seq<seq<Difference>>): seq<Difference> {
    if parts == [] then [] else Flat(parts[..|parts| - 1]) + parts[|parts| - 1]
  }

  /** The specification of the Functions `diff`: subtrees with the same canonical text are skipped. */
  function FunctionsDiff(at: seq<Part>, e: Option<Json>, a: Option<Json>): seq<Difference>
    decreases if e.Some? then 1 else 0, if e.Some? then e.value else Null, 1
  {
    if CanonicalText(e) == CanonicalText(a) then []
    else if e.Some? && a.Some? && e.value.Obj? && a.value.Obj? then
      Flat(FunctionsKeys(at, e.value, a.value, ObjectKeys(e.value, a.value)))
    else if e.Some? && a.Some? && e.value.Arr? && a.value.Arr? && |e.value.items| == |a.value.items| then
      Flat(FunctionsIndexes(at, e.value, a.value))
    else [Difference(at, e, a)]
  }

  function FunctionsKeys(at: seq<Part>, v: Json, w: Json, keys: seq<string>): (parts: seq<seq<Difference>>)
    requires v.Obj? && w.Obj?
    ensures |parts| == |keys|
    decreases 1, v, 0
  {
    seq(|keys|, i requires 0 <= i < |keys| =>
      FunctionsDiff(at + [Key(keys[i])], Get(v.fields, keys[i]), Get(w.fields, keys[i])))
  }

  function FunctionsIndexes(at: seq<Part>, v: Json, w: Json): (parts: seq<seq<Difference>>)
    requires v.Arr? && w.Arr?
    ensures |parts| == |v.items|
    decreases 1, v, 0
  {
    seq(|v.items|, i requires 0 <= i < |v.items| =>
      FunctionsDiff(at + [Index(i)], At(v.items, i), At(w.items, i)))
  }

  ghost predicate NoneFound(parts: seq<seq<Difference>>) {
    forall i :: 0 <= i < |parts| ==> parts[i] == []
  }

  lemma {:induction false} FlatEmpty(parts: seq<seq<Difference>>)
    ensures Flat(parts) == [] <==> NoneFound(parts)
  {
    if parts != [] {
      FlatEmpty(parts[..|parts| - 1]);
      assert |Flat(parts)| == |Flat(parts[..|parts| - 1])| + |parts[|parts| - 1]|;
    }
  }

  lemma {:induction false} FlatMember(parts: seq<seq<Difference>>, d: Difference) returns (i: nat)
    requires d in Flat(parts)
    ensures i < |parts| && d in parts[i]
  {
    if d in parts[|parts| - 1] {
      i := |parts| - 1;
    } else {
      i := FlatMember(parts[..|parts| - 1], d);
    }
  }

  lemma FlatStep(parts: seq<seq<Difference>>, i: nat)
    requires i < |parts|
    ensures Flat(parts[..i + 1]) == Flat(parts[..i]) + parts[i]
  {
    assert parts[..i + 1][..i] == parts[..i];
  }

  method DiffFunctions(at: seq<Part>, expected: Option<Json>, actual: Option<Json>) returns (out: seq<Difference>)
    ensures out == FunctionsDiff(at, expected, actual)
    decreases if expected.Some? then 1 else 0, if expected.Some? then expected.value else Null, 1
  {
    if CanonicalText(expected) == CanonicalText(actual) { return []; }
    if expected.Some? && actual.Some? && expected.value.Obj? && actual.value.Obj? {
      out := DiffFunctionsKeys(at, expected.value, actual.value);
    } else if expected.Some? && actual.Some? && expected.value.Arr? && actual.value.Arr?
              && |expected.value.items| == |actual.value.items| {
      out := DiffFunctionsIndexes(at, expected.value, actual.value);
    } else {
      out := [Difference(at, expected, actual)];
    }
  }

  /** The object loop of the Functions `diff`. */
  method DiffFunctionsKeys(at: seq<Part>, v: Json, w: Json) returns (out: seq<Difference>)
    requires v.Obj? && w.Obj?
    ensures out == Flat(FunctionsKeys(at, v, w, ObjectKeys(v, w)))
    decreases 1, v, 0
  {
    var keys := ObjectKeys(v, w);
    ghost var parts := FunctionsKeys(at, v, w, keys);
    out := [];
    for i := 0 to |keys|
      invariant out == Flat(parts[..i])
    {
      var found := DiffFunctions(at + [Key(keys[i])], Get(v.fields, keys[i]), Get(w.fields, keys[i]));
      FlatStep(parts, i);
      out := out + found;
    }
    assert parts[..|keys|] == parts;
  }

  /** The array loop of the Functions `diff`. */
  method DiffFunctionsIndexes(at: seq<Part>, v: Json, w: Json) returns (out: seq<Difference>)
    requires v.Arr? && w.Arr?
    ensures out == Flat(FunctionsIndexes(at, v, w))
    decreases 1, v, 0
  {
    ghost var parts := FunctionsIndexes(at, v, w);
    out := [];
    for index := 0 to |v.items|
      invariant out == Flat(parts[..index])
    {
      var found := DiffFunctions(at + [Index(index)], At(v.items, index), At(w.items, index));
      FlatStep(parts, index);
      out := out + found;
    }
    assert parts[..|v.items|] == parts;
  }

  lemma CanonicalTextSame(e: Option<Json>, a: Option<Json>)
    requires ProperValue(e) && ProperValue(a)
    ensures CanonicalText(e) == CanonicalText(a) <==> SameValue(e, a)
  {
    if e.Some? && a.Some? { CanonicalJsonInjective(e.value, a.value); }
  }

  /** The Functions comparison is empty exactly when the values are equal up to key order. */
  lemma {:induction false} FunctionsDiffEmpty(at: seq<Part>, e: Option<Json>, a: Option<Json>)
    requires ProperValue(e) && ProperValue(a)
    ensures FunctionsDiff(at, e, a) == [] <==> SameValue(e, a)
    decreases if e.Some? then 1 else 0, if e.Some? then e.value else Null, 1
  {
    CanonicalTextSame(e, a);
    if CanonicalText(e) != CanonicalText(a) && e.Some? && a.Some? {
      if e.value.Obj? && a.value.Obj? {
        FunctionsKeysEmpty(at, e.value, a.value, ObjectKeys(e.value, a.value));
        FlatEmpty(FunctionsKeys(at, e.value, a.value, ObjectKeys(e.value, a.value)));
        ObjectsSame(e.value, a.value);
      } else if e.value.Arr? && a.value.Arr? && |e.value.items| == |a.value.items| {
        FunctionsIndexesEmpty(at, e.value, a.value);
        FlatEmpty(FunctionsIndexes(at, e.value, a.value));
        ArraysSame(e.value, a.value);
      }
    }
  }

  lemma {:induction false} FunctionsKeysEmpty(at: seq<Part>, v: Json, w: Json, keys: seq<string>)
    requires v.Obj? && w.Obj? && Proper(v) && Proper(w)
    ensures NoneFound(FunctionsKeys(at, v, w, keys)) <==> KeysSame(v, w, keys)
    decreases 1, v, 0
  {
    var parts := FunctionsKeys(at, v, w, keys);
    forall i | 0 <= i < |keys|
      ensures parts[i] == [] <==> SameValue(Get(v.fields, keys[i]), Get(w.fields, keys[i]))
    {
      GetProper(v, keys[i]);
      GetProper(w, keys[i]);
      FunctionsDiffEmpty(at + [Key(keys[i])], Get(v.fields, keys[i]), Get(w.fields, keys[i]));
    }
    if NoneFound(parts) {
      forall k | k in keys ensures SameValue(Get(v.fields, k), Get(w.fields, k)) {
        var i :| 0 <= i < |keys| && keys[i] == k;
        assert parts[i] == [];
      }
    }
    if KeysSame(v, w, keys) {
      forall i | 0 <= i < |parts| ensures parts[i] == [] { assert keys[i] in keys; }
    }
  }

  lemma {:induction false} FunctionsIndexesEmpty(at: seq<Part>, v: Json, w: Json)
    requires v.Arr? && w.Arr? && Proper(v) && Proper(w)
    ensures NoneFound(FunctionsIndexes(at, v, w)) <==> ItemsSame(v, w, |v.items|)
    decreases 1, v, 0
  {
    var parts := FunctionsIndexes(at, v, w);
    forall i: nat | i < |parts|
      ensures parts[i] == [] <==> SameValue(At(v.items, i), At(w.items, i))
    {
      AtProper(v, i);
      AtProper(w, i);
      FunctionsDiffEmpty(at + [Index(i)], At(v.items, i), At(w.items, i));
    }
    if NoneFound(parts) {
      forall i: nat | i < |parts| ensures SameValue(At(v.items, i), At(w.items, i)) { assert parts[i] == []; }
    }
    if ItemsSame(v, w, |parts|) {
      forall i: nat | i < |parts| ensures parts[i] == [] { assert SameValue(At(v.items, i), At(w.items, i)); }
    }
  }

  /** Every entry of the Functions comparison names a place where the two values really differ. */
  lemma {:induction false} FunctionsDiffLocated(at: seq<Part>, e: Option<Json>, a: Option<Json>, d: Difference)
    requires ProperValue(e) && ProperValue(a) && d in FunctionsDiff(at, e, a)
    ensures Locates(at, e, a, d)
    decreases if e.Some? then 1 else 0, if e.Some? then e.value else Null, 1
  {
    if e.Some? && a.Some? && e.value.Obj? && a.value.Obj? {
      var v, w, keys := e.value, a.value, ObjectKeys(e.value, a.value);
      var i := FlatMember(FunctionsKeys(at, v, w, keys), d);
      GetProper(v, keys[i]);
      GetProper(w, keys[i]);
      FunctionsDiffLocated(at + [Key(keys[i])], Get(v.fields, keys[i]), Get(w.fields, keys[i]), d);
      LocatesChild(at, Key(keys[i]), e, a, d);
    } else if e.Some? && a.Some? && e.value.Arr? && a.value.Arr? && |e.value.items| == |a.value.items| {
      var v, w := e.value, a.value;
      var i := FlatMember(FunctionsIndexes(at, v, w), d);
      AtProper(v, i);
      AtProper(w, i);
      FunctionsDiffLocated(at + [Index(i)], At(v.items, i), At(w.items, i), d);
      LocatesChild(at, Index(i), e, a, d);
    } else {
      CanonicalTextSame(e, a);
      LocatesHere(at, e, a);
    }
  }
}
