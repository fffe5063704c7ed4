/** Runs of registrations: which name a value gets, in closed form, and when two runs give the same names. */
module NamingRuns {
  import opened Text
  import opened Naming

  /** One forced registration, as the Pub/Sub recorder makes them. */
  datatype Event = Event(kind: string, step: string, raw: string)

  function Step(s: State, e: Event): Registered { RegisterState({}, s, e.kind, e.step, e.raw, true) }

  /** The table after the first `n` events. */
  function At(s: State, es: seq<Event>, n: nat): State
    requires n <= |es|
  {
    if n == 0 then s else Step(At(s, es, n - 1), es[n - 1]).state
  }

  function After(s: State, es: seq<Event>): State { At(s, es, |es|) }

  function NameAt(s: State, es: seq<Event>, i: nat): string
    requires i < |es|
  {
    Step(At(s, es, i), es[i]).template
  }

  /** The names handed out, in order. */
  function Names(s: State, es: seq<Event>): (names: seq<string>)
    ensures |names| == |es| && forall i :: 0 <= i < |es| ==> names[i] == NameAt(s, es, i)
  {
    seq(|es|, i requires 0 <= i < |es| => NameAt(s, es, i))
  }

  lemma {:induction false} AtPrefix(s: State, a: seq<Event>, b: seq<Event>, n: nat)
    requires n <= |a|
    ensures At(s, a + b, n) == At(s, a, n)
  {
    hide Step;
    if n > 0 { AtPrefix(s, a, b, n - 1); }
  }

  lemma {:induction false} AtSuffix(s: State, a: seq<Event>, b: seq<Event>, n: nat)
    requires n <= |b|
    ensures At(s, a + b, |a| + n) == At(After(s, a), b, n)
  {
    hide Step;
    if n == 0 {
      AtPrefix(s, a, b, |a|);
    } else {
      AtSuffix(s, a, b, n - 1);
      assert (a + b)[|a| + n - 1] == b[n - 1];
    }
  }

  /** A run can be cut anywhere. */
  lemma {:induction false} NamesAppend(s: State, a: seq<Event>, b: seq<Event>)
    ensures After(s, a + b) == After(After(s, a), b)
    ensures Names(s, a + b) == Names(s, a) + Names(After(s, a), b)
  {
    hide Step;
    AtSuffix(s, a, b, |b|);
    forall i | 0 <= i < |a| + |b| ensures Names(s, a + b)[i] == (Names(s, a) + Names(After(s, a), b))[i] {
      if i < |a| {
        AtPrefix(s, a, b, i);
      } else {
        AtSuffix(s, a, b, i - |a|);
      }
    }
  }

  // ---------------------------------------------------------------- names in closed form

  function Key(e: Event): string { CounterKey(e.kind, e.step) }

  /** How many of the first `n` events count under `key`. */
  function Calls(es: seq<Event>, n: nat, key: string): nat
    requires n <= |es|
  {
    if n == 0 then 0 else Calls(es, n - 1, key) + if Key(es[n - 1]) == key then 1 else 0
  }

  function EarliestFrom<T(==)>(xs: seq<T>, i: nat, from: nat): (k: nat)
    requires from <= i < |xs|
    ensures from <= k <= i && xs[k] == xs[i] && forall j :: from <= j < k ==> xs[j] != xs[i]
    decreases i - from
  {
    if xs[from] == xs[i] then from else EarliestFrom(xs, i, from + 1)
  }

  /** The first place that holds what place `i` holds. */
  function Earliest<T(==)>(xs: seq<T>, i: nat): (k: nat)
    requires i < |xs|
    ensures k <= i && xs[k] == xs[i] && forall j :: 0 <= j < k ==> xs[j] != xs[i]
  {
    EarliestFrom(xs, i, 0)
  }

  function Raws(es: seq<Event>): (rs: seq<string>)
    ensures |rs| == |es| && forall i :: 0 <= i < |es| ==> rs[i] == es[i].raw
  {
    seq(|es|, i requires 0 <= i < |es| => es[i].raw)
  }

  /** The event that first mentions the value of event `i`. */
  function First(es: seq<Event>, i: nat): (f: nat)
    requires i < |es|
    ensures f <= i && es[f].raw == es[i].raw && forall k :: 0 <= k < f ==> es[k].raw != es[i].raw
  {
    Earliest(Raws(es), i)
  }

  /** The value that a run binds before its first event, and the name it binds it to. */
  datatype Origin = Origin(template: string, raw: string)

  function Bound(o: Origin): State { BindState(EMPTY, o.template, o.raw) }

  predicate CleanOrigin(o: Origin) { o.template != "" && Free(o.template, ':') }

  /** The name that event `j` generates, numbered by the calls counted under its key so far. */
  function Generated(es: seq<Event>, j: nat): (name: string)
    requires j < |es|
    ensures ':' in name && name != ""
  {
    NamesHaveColons(es[j].kind, es[j].step, Calls(es, j + 1, Key(es[j])));
    TemplateName(es[j].kind, es[j].step, Calls(es, j + 1, Key(es[j])))
  }

  /** The bound value has its own name; any other is named by the event that first mentions it. */
  function NameOf(o: Origin, es: seq<Event>, i: nat): string
    requires i < |es|
  {
    if es[i].raw == o.raw then o.template else Generated(es, First(es, i))
  }

  function Generations(es: seq<Event>): (gs: seq<string>)
    ensures |gs| == |es| && forall j :: 0 <= j < |es| ==> gs[j] == Generated(es, j)
  {
    seq(|es|, j requires 0 <= j < |es| => Generated(es, j))
  }

  /** The first event that generates the name event `j` generates: the one whose value the name resolves to. */
  function Owner(es: seq<Event>, j: nat): (k: nat)
    requires j < |es|
  {
    Earliest(Generations(es), j)
  }

  /** `step` is literally `base` with the number of a later value appended. */
  ghost predicate IsNumbered(step: string, base: string) { exists n: nat :: step == base + ['#'] + NatText(n) }

  /** Kinds have no colon, and no step is another one with a number appended; steps without `#` never are. */
  ghost predicate CleanEvents(es: seq<Event>) {
    && (forall i :: 0 <= i < |es| ==> Free(es[i].kind, ':'))
    && forall i, j :: 0 <= i < |es| && 0 <= j < |es| ==> !IsNumbered(es[i].step, es[j].step)
  }

  lemma HashFreeIsNotNumbered(step: string, base: string)
    requires Free(step, '#')
    ensures !IsNumbered(step, base)
  {
    forall n: nat ensures step != base + ['#'] + NatText(n) { assert '#' in base + ['#'] + NatText(n); }
  }

  /** The names in the table of a run, whatever the kinds and steps are. */
  ghost predicate NamesTabled(s: State, o: Origin, es: seq<Event>, n: nat)
    requires n <= |es|
  {
    && o.raw in s.templates && s.templates[o.raw] == o.template
    && (forall i :: 0 <= i < n ==> es[i].raw in s.templates && s.templates[es[i].raw] == NameOf(o, es, i))
    && (forall raw :: raw in s.templates ==> raw == o.raw || exists i :: 0 <= i < n && es[i].raw == raw)
  }

  ghost predicate Counted(s: State, es: seq<Event>, n: nat)
    requires n <= |es|
  {
    forall key :: Count(s, key) == Calls(es, n, key)
  }

  ghost predicate Tabled(s: State, o: Origin, es: seq<Event>, n: nat)
    requires n <= |es|
  {
    Counted(s, es, n) && NamesTabled(s, o, es, n)
  }

  /** The name at place `j` is set to the value beside its first occurrence. */
  predicate SetAt(values: map<string, string>, gs: seq<string>, raws: seq<string>, j: nat)
    requires j < |gs| == |raws|
  {
    gs[j] in values && values[gs[j]] == raws[Earliest(gs, j)]
  }

  /** Each of the first `n` names of `gs` was set to the value beside it, unless it was set already. */
  ghost predicate FirstSet(values: map<string, string>, o: Origin, gs: seq<string>, raws: seq<string>, n: nat)
    requires n <= |gs| == |raws|
  {
    && o.template in values && values[o.template] == o.raw
    && (forall j :: 0 <= j < n ==> SetAt(values, gs, raws, j))
    && (forall t :: t in values ==> t == o.template || t in gs[..n])
  }

  lemma {:induction false} FirstSetStep(values: map<string, string>, o: Origin, gs: seq<string>, raws: seq<string>,
                                        n: nat)
    requires n < |gs| == |raws| && FirstSet(values, o, gs, raws, n) && gs[n] != o.template
    ensures FirstSet(if gs[n] in values then values else values[gs[n] := raws[n]], o, gs, raws, n + 1)
  {
    var after := if gs[n] in values then values else values[gs[n] := raws[n]];
    assert gs[..n + 1] == gs[..n] + [gs[n]];
    forall j | 0 <= j < n ensures SetAt(after, gs, raws, j) { assert SetAt(values, gs, raws, j); }
    SetLast(values, o, gs, raws, n);
  }

  lemma {:induction false} SetLast(values: map<string, string>, o: Origin, gs: seq<string>, raws: seq<string>, n: nat)
    requires n < |gs| == |raws| && FirstSet(values, o, gs, raws, n) && gs[n] != o.template
    ensures SetAt(if gs[n] in values then values else values[gs[n] := raws[n]], gs, raws, n)
  {
    var k := Earliest(gs, n);
    if k < n {
      assert SetAt(values, gs, raws, k);
      EarliestOfEarliest(gs, n);
    } else {
      assert gs[n] !in gs[..n];
    }
  }

  lemma {:induction false} EarliestOfEarliest<T>(xs: seq<T>, i: nat)
    requires i < |xs|
    ensures Earliest(xs, Earliest(xs, i)) == Earliest(xs, i)
  {}

  /** What the names of a run resolve to. */
  ghost predicate Valued(s: State, o: Origin, es: seq<Event>, n: nat)
    requires n <= |es|
  {
    FirstSet(s.values, o, Generations(es), Raws(es), n)
  }

  lemma FirstOfNew(es: seq<Event>, n: nat)
    requires n < |es| && forall k :: 0 <= k < n ==> es[k].raw != es[n].raw
    ensures First(es, n) == n
  {}

  lemma FirstUnique(es: seq<Event>, i: nat, f: nat)
    requires f <= i < |es| && es[f].raw == es[i].raw && forall k :: 0 <= k < f ==> es[k].raw != es[i].raw
    ensures First(es, i) == f
  {}

  lemma {:induction false} NamesNotEmpty(s: State, o: Origin, es: seq<Event>, n: nat)
    requires n <= |es| && CleanOrigin(o) && NamesTabled(s, o, es, n)
    ensures forall raw :: raw in s.templates ==> s.templates[raw] != ""
  {
    hide Generated, First;
    forall raw | raw in s.templates ensures s.templates[raw] != "" {
      if raw != o.raw {
        var i :| 0 <= i < n && es[i].raw == raw;
        assert s.templates[es[i].raw] == NameOf(o, es, i);
      }
    }
  }

  /** What one event does to the table. */
  lemma {:induction false} StepShape(s: State, o: Origin, es: seq<Event>, n: nat)
    requires n < |es| && CleanOrigin(o) && Tabled(s, o, es, n)
    ensures var e, r := es[n], Step(s, es[n]);
      && r.template == (if e.raw in s.templates then s.templates[e.raw] else Generated(es, n))
      && r.state.counters == s.counters[Key(e) := Count(s, Key(e)) + 1]
      && r.state.templates == (if e.raw in s.templates then s.templates else s.templates[e.raw := Generated(es, n)])
      && r.state.values == (if Generated(es, n) in s.values then s.values else s.values[Generated(es, n) := e.raw])
  {
    hide TemplateName, CounterKey, NamesTabled, RegisterState;
    var e := es[n];
    NamesNotEmpty(s, o, es, n);
    assert Count(s, Key(e)) + 1 == Calls(es, n + 1, Key(e));
    RegisterEffect({}, s, e.kind, e.step, e.raw, true);
  }

  lemma {:induction false} CountedStep(s: State, o: Origin, es: seq<Event>, n: nat)
    requires n < |es| && CleanOrigin(o) && Tabled(s, o, es, n)
    ensures Counted(Step(s, es[n]).state, es, n + 1)
  {
    hide NamesTabled, Step, Generated;
    StepShape(s, o, es, n);
    var s' := Step(s, es[n]).state;
    forall key ensures Count(s', key) == Calls(es, n + 1, key) { assert Count(s, key) == Calls(es, n, key); }
  }

  /** The name that stands for a value after event `n`, which is also the name handed out. */
  lemma {:induction false} NextName(s: State, o: Origin, es: seq<Event>, n: nat)
    requires n < |es| && CleanOrigin(o) && Tabled(s, o, es, n)
    ensures Step(s, es[n]).template == NameOf(o, es, n)
    ensures Step(s, es[n]).state.templates == s.templates[es[n].raw := NameOf(o, es, n)]
  {
    hide Step, Generated, First, Counted;
    var e := es[n];
    StepShape(s, o, es, n);
    if e.raw in s.templates {
      if e.raw != o.raw {
        var i :| 0 <= i < n && es[i].raw == e.raw;
        FirstUnique(es, n, First(es, i));
        assert s.templates[es[i].raw] == NameOf(o, es, i);
      }
      assert s.templates == s.templates[e.raw := s.templates[e.raw]];
    } else {
      FirstOfNew(es, n);
    }
  }

  lemma {:induction false} TabledStep(s: State, o: Origin, es: seq<Event>, n: nat)
    requires n < |es| && CleanOrigin(o) && Tabled(s, o, es, n)
    ensures Tabled(Step(s, es[n]).state, o, es, n + 1)
  {
    hide Step, Generated, First, Counted;
    CountedStep(s, o, es, n);
    NextName(s, o, es, n);
    NamesStep(s, o, es, n, Step(s, es[n]).state);
  }

  lemma {:induction false} NamesStep(s: State, o: Origin, es: seq<Event>, n: nat, s': State)
    requires n < |es| && NamesTabled(s, o, es, n) && s'.templates == s.templates[es[n].raw := NameOf(o, es, n)]
    ensures NamesTabled(s', o, es, n + 1)
  {
    hide Generated, First;
    forall i | 0 <= i < n + 1 ensures es[i].raw in s'.templates && s'.templates[es[i].raw] == NameOf(o, es, i) {
      if es[i].raw == es[n].raw { SameFirst(es, i, n); }
    }
    forall raw | raw in s'.templates ensures raw == o.raw || exists i :: 0 <= i < n + 1 && es[i].raw == raw {
      if raw in s.templates && raw != o.raw {
        var i :| 0 <= i < n && es[i].raw == raw;
      } else if raw != o.raw {
        assert es[n].raw == raw;
      }
    }
  }

  lemma {:induction false} ValuedStep(s: State, o: Origin, es: seq<Event>, n: nat)
    requires n < |es| && CleanOrigin(o) && Tabled(s, o, es, n) && Valued(s, o, es, n)
    ensures Valued(Step(s, es[n]).state, o, es, n + 1)
  {
    hide Step, Generated, Tabled, FirstSet;
    StepShape(s, o, es, n);
    assert Generations(es)[n] != o.template;
    FirstSetStep(s.values, o, Generations(es), Raws(es), n);
  }

  lemma {:induction false} RunTabled(o: Origin, es: seq<Event>, n: nat)
    requires n <= |es| && CleanOrigin(o)
    ensures Tabled(At(Bound(o), es, n), o, es, n) && Valued(At(Bound(o), es, n), o, es, n)
  {
    hide Step, Tabled, Bound, Valued;
    if n == 0 {
      BoundTabled(o, es);
    } else {
      RunTabled(o, es, n - 1);
      TabledStep(At(Bound(o), es, n - 1), o, es, n - 1);
      ValuedStep(At(Bound(o), es, n - 1), o, es, n - 1);
    }
  }

  lemma {:induction false} BoundTabled(o: Origin, es: seq<Event>)
    ensures Tabled(Bound(o), o, es, 0) && Valued(Bound(o), o, es, 0)
  {
    hide Generated, NameOf, Earliest;
  }

  /** Every name of a run, without running it, for all kinds and steps. */
  lemma {:induction false} NamesClosedForm(o: Origin, es: seq<Event>, i: nat)
    requires i < |es| && CleanOrigin(o)
    ensures NameAt(Bound(o), es, i) == NameOf(o, es, i)
  {
    hide Step, Tabled, NameOf, Bound, Valued;
    RunTabled(o, es, i);
    NextName(At(Bound(o), es, i), o, es, i);
  }

  /** What a name resolves to at the end of a run: the value of the first event that generated it. */
  lemma {:induction false} NameResolves(o: Origin, es: seq<Event>, i: nat)
    requires i < |es| && CleanOrigin(o)
    ensures var s := After(Bound(o), es);
      var f := First(es, i);
      && NameOf(o, es, i) in s.values
      && s.values[NameOf(o, es, i)] == (if es[i].raw == o.raw then o.raw else es[Owner(es, f)].raw)
  {
    hide Step, Bound, Generated, Earliest, First, Counted, NamesTabled;
    RunTabled(o, es, |es|);
    assert Generations(es)[First(es, i)] == Generated(es, First(es, i));
    assert SetAt(After(Bound(o), es).values, Generations(es), Raws(es), First(es, i));
  }

  /** Two events generate the same name. */
  predicate Clash(es: seq<Event>, j: nat, f: nat)
    requires j < |es| && f < |es|
  {
    && es[j].kind == es[f].kind
    && Ambiguous(es[j].step, Calls(es, j + 1, Key(es[j])), es[f].step, Calls(es, f + 1, Key(es[f])))
  }

  lemma {:induction false} ClashIsSameName(es: seq<Event>, j: nat, f: nat)
    requires j < |es| && f < |es| && Free(es[j].kind, ':') && Free(es[f].kind, ':')
    ensures Clash(es, j, f) <==> Generated(es, j) == Generated(es, f)
  {
    hide TemplateName, Ambiguous, Calls;
    NamesCollide(es[j].kind, es[j].step, Calls(es, j + 1, Key(es[j])),
                 es[f].kind, es[f].step, Calls(es, f + 1, Key(es[f])));
  }

  /**
   * In every run, with any steps: the name given to a value resolves to that value if and only if no event before the
   * value's first mention generated the same name, that is, one of the two steps is literally the other with the
   * number of a later value appended.
   */
  lemma {:induction false} ResolvesExactly(o: Origin, es: seq<Event>, i: nat)
    requires i < |es| && CleanOrigin(o) && es[i].raw != o.raw && forall k :: 0 <= k < |es| ==> Free(es[k].kind, ':')
    ensures var name := NameAt(Bound(o), es, i);
      && name in After(Bound(o), es).values
      && (After(Bound(o), es).values[name] == es[i].raw <==>
            forall j :: 0 <= j < First(es, i) ==> !Clash(es, j, First(es, i)))
  {
    hide Generated, Earliest, First, Bound, NameAt, After, Clash;
    var f := First(es, i);
    NamesClosedForm(o, es, i);
    NameResolves(o, es, i);
    var gs, k := Generations(es), Owner(es, f);
    assert gs[k] == Generated(es, k) && gs[f] == Generated(es, f);
    assert forall j :: 0 <= j < k ==> gs[j] != gs[f] && gs[j] == Generated(es, j);
    ClashIsSameName(es, k, f);
    forall j | 0 <= j < k ensures !Clash(es, j, f) { ClashIsSameName(es, j, f); }
  }

  // ---------------------------------------------------------------- what the names reveal

  lemma {:induction false} CallsGrow(es: seq<Event>, f: nat, g: nat)
    requires f <= g < |es|
    ensures Calls(es, f, Key(es[g])) < Calls(es, g + 1, Key(es[g]))
    decreases g - f
  {
    CallsMonotone(es, f, g, Key(es[g]));
  }

  lemma {:induction false} CallsMonotone(es: seq<Event>, f: nat, g: nat, key: string)
    requires f <= g <= |es|
    ensures Calls(es, f, key) <= Calls(es, g, key)
    decreases g - f
  {
    if f < g { CallsMonotone(es, f, g - 1, key); }
  }

  /** Two values of a run share a name exactly when they are the same value. */
  lemma {:induction false} NamesSameRaw(o: Origin, es: seq<Event>, i: nat, j: nat)
    requires i < |es| && j < |es| && CleanEvents(es) && CleanOrigin(o)
    ensures NameOf(o, es, i) == NameOf(o, es, j) <==> es[i].raw == es[j].raw
    ensures NameOf(o, es, i) == o.template <==> es[i].raw == o.raw
  {
    hide TemplateName, First, Clash, CleanEvents;
    var f, g := First(es, i), First(es, j);
    if es[i].raw == es[j].raw {
      SameFirst(es, i, j);
    } else {
      if f < g { NoClash(es, f, g); }
      if g < f { NoClash(es, g, f); }
    }
  }

  lemma {:induction false} NoClash(es: seq<Event>, f: nat, g: nat)
    requires f < g < |es| && CleanEvents(es)
    ensures Generated(es, f) != Generated(es, g)
  {
    hide TemplateName, Calls;
    ClashIsSameName(es, f, g);
    assert !IsNumbered(es[f].step, es[g].step) && !IsNumbered(es[g].step, es[f].step);
    CallsGrow(es, f + 1, g);
  }

  lemma {:induction false} SameFirst(es: seq<Event>, i: nat, j: nat)
    requires i < |es| && j < |es| && es[i].raw == es[j].raw
    ensures First(es, i) == First(es, j)
  {
    var f, g := First(es, i), First(es, j);
    assert !(f < g) && !(g < f);
  }

  predicate SameLabels(es: seq<Event>, fs: seq<Event>) {
    |es| == |fs| && forall i :: 0 <= i < |es| ==> es[i].kind == fs[i].kind && es[i].step == fs[i].step
  }

  /**
   * The same positions hold equal values: one run is the other with its values renamed one to one, origin to origin.
   */
  predicate SamePattern(o: Origin, es: seq<Event>, p: Origin, fs: seq<Event>) {
    && |es| == |fs|
    && (forall i :: 0 <= i < |es| ==> (es[i].raw == o.raw <==> fs[i].raw == p.raw))
    && (forall i, j :: 0 <= i < |es| && 0 <= j < |es| ==> (es[i].raw == es[j].raw <==> fs[i].raw == fs[j].raw))
  }

  lemma {:induction false} CallsAgree(es: seq<Event>, fs: seq<Event>, n: nat, key: string)
    requires SameLabels(es, fs) && n <= |es|
    ensures Calls(es, n, key) == Calls(fs, n, key)
  {
    if n > 0 { CallsAgree(es, fs, n - 1, key); }
  }

  lemma {:induction false} NamesAgree(o: Origin, es: seq<Event>, p: Origin, fs: seq<Event>, i: nat)
    requires o.template == p.template && SameLabels(es, fs) && SamePattern(o, es, p, fs) && i < |es|
    ensures NameOf(o, es, i) == NameOf(p, fs, i)
  {
    hide TemplateName, First, Calls;
    var f := First(es, i);
    assert fs[f].raw == fs[i].raw;
    FirstUnique(fs, i, f);
    CallsAgree(es, fs, f + 1, Key(es[f]));
  }

  /**
   * Two runs that register the same kinds at the same steps hand out the same names exactly when their values match
   * up.
   */
  lemma {:induction false} SameNamesIff(o: Origin, es: seq<Event>, p: Origin, fs: seq<Event>)
    requires o.template == p.template && CleanOrigin(o) && SameLabels(es, fs) && CleanEvents(es)
    ensures Names(Bound(o), es) == Names(Bound(p), fs) <==> SamePattern(o, es, p, fs)
  {
    hide NameAt, NameOf, Step, Bound;
    assert CleanEvents(fs);
    var ns, ms := Names(Bound(o), es), Names(Bound(p), fs);
    forall i | 0 <= i < |es| ensures ns[i] == NameOf(o, es, i) && ms[i] == NameOf(p, fs, i) {
      NamesClosedForm(o, es, i);
      NamesClosedForm(p, fs, i);
    }
    if ns == ms {
      forall i, j | 0 <= i < |es| && 0 <= j < |es|
        ensures (es[i].raw == es[j].raw <==> fs[i].raw == fs[j].raw) && (es[i].raw == o.raw <==> fs[i].raw == p.raw)
      {
        NamesSameRaw(o, es, i, j);
        NamesSameRaw(p, fs, i, j);
      }
    }
    if SamePattern(o, es, p, fs) {
      forall i | 0 <= i < |es| ensures ns[i] == ms[i] { NamesAgree(o, es, p, fs, i); }
      assert ns == ms;
    }
  }

  /** And then their tables still correspond: equal counters, and the same name for the values at each place. */
  lemma {:induction false} TablesCorrespond(o: Origin, es: seq<Event>, p: Origin, fs: seq<Event>)
    requires o.template == p.template && CleanOrigin(o) && CleanEvents(es)
    requires SameLabels(es, fs) && SamePattern(o, es, p, fs)
    ensures var s, t := After(Bound(o), es), After(Bound(p), fs);
      && (forall key :: Count(s, key) == Count(t, key))
      && (forall i :: 0 <= i < |es| ==> es[i].raw in s.templates && fs[i].raw in t.templates
                                        && s.templates[es[i].raw] == t.templates[fs[i].raw])
  {
    hide Step, NameOf, Consistent, At, Calls, First, Bound;
    RunTabled(o, es, |es|);
    RunTabled(p, fs, |fs|);
    var s, t := After(Bound(o), es), After(Bound(p), fs);
    forall key ensures Count(s, key) == Count(t, key) { CallsAgree(es, fs, |es|, key); }
    forall i | 0 <= i < |es|
      ensures es[i].raw in s.templates && fs[i].raw in t.templates && s.templates[es[i].raw] == t.templates[fs[i].raw]
    {
      NamesAgree(o, es, p, fs, i);
    }
  }
}
