/** The two-way naming table shared by the recorders: raw value to template and back. */
module Naming {
  import opened Options
  import opened Sorting
  import opened Text
  import opened JsonTree
  import opened Rewriting

  /** `order` lists the keys of `templates` as a Map iterates them. */
  datatype State = State(
    order: seq<string>,
    templates: map<string, string>,
    values: map<string, string>,
    counters: map<string, nat>)

  const EMPTY := State([], map[], map[], map[])

  function CounterKey(kind: string, step: string): string { kind + ([':'] + step) }

  function Suffix(n: nat): string { if n == 1 then [] else ['#'] + NatText(n) }

  function TemplateName(kind: string, step: string, n: nat): string {
    ['{', '{'] + (kind + ([':'] + (step + (Suffix(n) + ['}', '}']))))
  }

  function Count(s: State, key: string): nat { if key in s.counters then s.counters[key] else 0 }

  datatype Registered = Registered(state: State, template: string)

  function RegisterState(constants: set<string>, s: State, kind: string, step: string, raw: string,
                         force: bool): Registered
  {
    if !force && raw in constants then Registered(s, raw)
    else
      var key := CounterKey(kind, step);
      var count := Count(s, key) + 1;
      var template := TemplateName(kind, step, count);
      var values := if template in s.values then s.values else s.values[template := raw];
      var counted := s.(counters := s.counters[key := count], values := values);
      if raw in s.templates && s.templates[raw] != "" then Registered(counted, s.templates[raw])
      else Registered(SetTemplate(counted, raw, template), template)
  }

  /** `templates.set(raw, template)`: a key that is set again keeps its place. */
  function SetTemplate(s: State, raw: string, template: string): State {
    s.(templates := s.templates[raw := template], order := if raw in s.templates then s.order else s.order + [raw])
  }

  function BindState(s: State, template: string, raw: string): State {
    SetTemplate(s, raw, template).(values := s.values[template := raw])
  }

  // ---------------------------------------------------------------- when are template names ambiguous?

  lemma {:induction false} SuffixFree(n: nat)
    ensures Free(NatText(n), '#')
  {
    var t := NatText(n);
    forall c | c in t ensures c != '#' { assert IsDigit(c); }
  }

  lemma DropEnds(a: string, b: string, e: string)
    requires a + e == b + e
    ensures a == b
  {
    assert |a| == |b|;
    assert a == (a + e)[..|a|] && b == (b + e)[..|b|];
  }

  /** What follows the kind: the step, its number, the closing braces. */
  lemma TailsEqual(s: string, n: nat, s': string, n': nat)
    requires s + (Suffix(n) + ['}', '}']) == s' + (Suffix(n') + ['}', '}'])
    ensures s + Suffix(n) == s' + Suffix(n')
  {
    assert s + (Suffix(n) + ['}', '}']) == (s + Suffix(n)) + ['}', '}'];
    assert s' + (Suffix(n') + ['}', '}']) == (s' + Suffix(n')) + ['}', '}'];
    DropEnds(s + Suffix(n), s' + Suffix(n'), ['}', '}']);
  }

  lemma StepsAmbiguous(s: string, n: nat, s': string, n': nat)
    requires s + Suffix(n) == s' + Suffix(n')
    ensures Ambiguous(s, n, s', n')
  {
    SuffixFree(n);
    SuffixFree(n');
    if n != 1 && n' != 1 {
      CutAtLast(s, s', NatText(n), NatText(n'), '#');
      NatTextInjective(n, n');
    } else if n != 1 {
      assert s' == s + (['#'] + NatText(n));
      assert s + (['#'] + NatText(n)) == s + ['#'] + NatText(n);
    } else if n' != 1 {
      assert s == s' + (['#'] + NatText(n'));
      assert s' + (['#'] + NatText(n')) == s' + ['#'] + NatText(n');
    } else {
      assert s + [] == s && s' + [] == s';
    }
  }

  /** One step literally ends in the number of another step's later value. */
  predicate Ambiguous(step: string, n: nat, step': string, n': nat) {
    (step == step' && n == n')
    || (n == 1 && n' != 1 && step == step' + ['#'] + NatText(n'))
    || (n' == 1 && n != 1 && step' == step + ['#'] + NatText(n))
  }

  lemma CollidingNames(kind: string, step: string, n: nat, kind': string, step': string, n': nat)
    requires Free(kind, ':') && Free(kind', ':')
    requires TemplateName(kind, step, n) == TemplateName(kind', step', n')
    ensures kind == kind' && Ambiguous(step, n, step', n')
  {
    var tail, tail' := step + (Suffix(n) + ['}', '}']), step' + (Suffix(n') + ['}', '}']);
    SplitFirst(['{', '{'], ['{', '{'], kind + ([':'] + tail), kind' + ([':'] + tail'));
    CutAtFirst(kind, kind', tail, tail', ':');
    TailsEqual(step, n, step', n');
    StepsAmbiguous(step, n, step', n');
  }

  lemma {:induction false} AmbiguousNames(kind: string, step: string, n: nat, step': string, n': nat)
    requires Ambiguous(step, n, step', n')
    ensures TemplateName(kind, step, n) == TemplateName(kind, step', n')
  {
    if n == 1 && n' != 1 {
      Assoc4(step', n');
    } else if n' == 1 && n != 1 {
      Assoc4(step, n);
    }
  }

  /**
   * For kinds without a colon, two names coincide exactly when they are the same registration, or when
   * one step is literally the other with the `#n` of a later value appended.
   */
  lemma NamesCollide(kind: string, step: string, n: nat, kind': string, step': string, n': nat)
    requires Free(kind, ':') && Free(kind', ':')
    ensures TemplateName(kind, step, n) == TemplateName(kind', step', n') <==>
      kind == kind' && Ambiguous(step, n, step', n')
  {
    hide TemplateName, Ambiguous;
    if TemplateName(kind, step, n) == TemplateName(kind', step', n') {
      CollidingNames(kind, step, n, kind', step', n');
    }
    if kind == kind' && Ambiguous(step, n, step', n') {
      AmbiguousNames(kind, step, n, step', n');
    }
  }

  lemma Assoc4(step: string, n: nat)
    requires n != 1
    ensures step + (Suffix(n) + ['}', '}']) == (step + ['#'] + NatText(n)) + (Suffix(1) + ['}', '}'])
  {}

  /** A step that already carries a number takes the name of another step's later value, which then resolves to it. */
  lemma {:induction false} NumberedStepCollides(kind: string, step: string, x: string, y: string, z: string)
    requires Free(kind, ':') && x != y && y != z && x != z
    ensures var r1 := RegisterState({}, EMPTY, kind, step + ['#'] + NatText(2), x, false);
      var r2 := RegisterState({}, r1.state, kind, step, y, false);
      var r3 := RegisterState({}, r2.state, kind, step, z, false);
      r1.template == r3.template && r3.state.values[r3.template] == x
  {
    hide TemplateName, CounterKey, NatText;
    var other := step + ['#'] + NatText(2);
    NamesCollide(kind, other, 1, kind, step, 2);
    NamesCollide(kind, step, 1, kind, other, 1);
    if CounterKey(kind, step) == CounterKey(kind, other) { CounterKeyInjective(kind, step, kind, other); }
    assert |other| > |step|;
  }

  // ---------------------------------------------------------------- what every run keeps

  /** `order` is the key list of `templates`, without repetitions. */
  ghost predicate Listed(s: State) {
    && (forall raw :: raw in s.order <==> raw in s.templates)
    && (forall i, j :: 0 <= i < j < |s.order| ==> s.order[i] != s.order[j])
  }

  /** Every name resolves to the value it was given to. */
  ghost predicate Inverse(s: State) {
    forall raw :: raw in s.templates ==>
      s.templates[raw] != "" && s.templates[raw] in s.values && s.values[s.templates[raw]] == raw
  }

  /** No name runs ahead of its counter. */
  ghost predicate Numbered(s: State) {
    forall kind, step, n: nat :: Free(kind, ':') && Free(step, '#') && TemplateName(kind, step, n) in s.values ==>
      n <= Count(s, CounterKey(kind, step))
  }

  ghost predicate Consistent(s: State) { Listed(s) && Inverse(s) && Numbered(s) }

  datatype Op = Register(kind: string, step: string, raw: string, force: bool) | Bind(template: string, raw: string)

  function Apply(constants: set<string>, s: State, op: Op): State {
    match op
    case Register(kind, step, raw, force) => RegisterState(constants, s, kind, step, raw, force).state
    case Bind(template, raw) => BindState(s, template, raw)
  }

  /** Steps do not look like numbered names; bindings are for new values under new names without a kind. */
  predicate Clean(s: State, op: Op) {
    match op
    case Register(kind, step, _, _) => Free(kind, ':') && Free(step, '#')
    case Bind(template, raw) => template != "" && Free(template, ':') && template !in s.values && raw !in s.templates
  }

  ghost predicate Extends(s: State, s': State) {
    && (forall raw :: raw in s.templates ==> raw in s'.templates && s'.templates[raw] == s.templates[raw])
    && (forall t :: t in s.values ==> t in s'.values && s'.values[t] == s.values[t])
    && s.order <= s'.order
  }

  /** The next name is new, so the guard that protects existing names never skips one. */
  lemma {:induction false} NextNameIsNew(s: State, kind: string, step: string)
    requires Numbered(s) && Free(kind, ':') && Free(step, '#')
    ensures TemplateName(kind, step, Count(s, CounterKey(kind, step)) + 1) !in s.values
  {
    hide TemplateName;
  }

  lemma HashFreeNames(kind: string, step: string, n: nat, kind': string, step': string, n': nat)
    requires Free(kind, ':') && Free(kind', ':') && Free(step, '#') && Free(step', '#')
    requires TemplateName(kind, step, n) == TemplateName(kind', step', n')
    ensures kind == kind' && step == step' && n == n'
  {
    CollidingNames(kind, step, n, kind', step', n');
    assert '#' in step + ['#'] + NatText(n) && '#' in step' + ['#'] + NatText(n');
  }

  lemma {:induction false} NamesHaveColons(kind: string, step: string, n: nat)
    ensures ':' in TemplateName(kind, step, n) && TemplateName(kind, step, n) != ""
  {
    assert TemplateName(kind, step, n)[2 + |kind|] == ':';
  }

  lemma CounterKeyInjective(kind: string, step: string, kind': string, step': string)
    requires Free(kind, ':') && Free(kind', ':') && CounterKey(kind, step) == CounterKey(kind', step')
    ensures kind == kind' && step == step'
  {
    CutAtFirst(kind, kind', step, step', ':');
  }

  /** What the state is after a registration that is not skipped. */
  lemma {:induction false} RegisterShape(constants: set<string>, s: State, kind: string, step: string, raw: string,
                                         force: bool)
    requires Consistent(s) && Free(kind, ':') && Free(step, '#') && (force || raw !in constants)
    ensures var r := RegisterState(constants, s, kind, step, raw, force);
      var key := CounterKey(kind, step);
      var name := TemplateName(kind, step, Count(s, key) + 1);
      && name !in s.values
      && r.state.values == s.values[name := raw]
      && r.state.counters == s.counters[key := Count(s, key) + 1]
      && r.template == (if raw in s.templates then s.templates[raw] else name)
      && r.state.templates == (if raw in s.templates then s.templates else s.templates[raw := name])
      && r.state.order == (if raw in s.templates then s.order else s.order + [raw])
  {
    hide TemplateName, CounterKey;
    NextNameIsNew(s, kind, step);
  }

  /** What a registration that is not skipped does, with any kind and step. */
  lemma {:induction false} RegisterEffect(constants: set<string>, s: State, kind: string, step: string, raw: string,
                                          force: bool)
    requires (force || raw !in constants) && (raw in s.templates ==> s.templates[raw] != "")
    ensures var r := RegisterState(constants, s, kind, step, raw, force);
      var key := CounterKey(kind, step);
      var name := TemplateName(kind, step, Count(s, key) + 1);
      && r.state.values == (if name in s.values then s.values else s.values[name := raw])
      && r.state.counters == s.counters[key := Count(s, key) + 1]
      && r.template == (if raw in s.templates then s.templates[raw] else name)
      && r.state.templates == (if raw in s.templates then s.templates else s.templates[raw := name])
  {
    hide TemplateName, CounterKey;
  }

  /**
   * With any kind and step: what a registration returns resolves to the value if and only if the value has a name
   * already, or the next name is free or belongs to the value.
   */
  lemma {:induction false} RegisterResolves(constants: set<string>, s: State, kind: string, step: string, raw: string,
                                            force: bool)
    requires Inverse(s) && (force || raw !in constants)
    ensures var r := RegisterState(constants, s, kind, step, raw, force);
      var name := TemplateName(kind, step, Count(s, CounterKey(kind, step)) + 1);
      && r.template in r.state.values
      && (r.state.values[r.template] == raw <==> raw in s.templates || name !in s.values || s.values[name] == raw)
  {
    hide TemplateName, CounterKey;
  }

  lemma {:induction false} RegisterKeepsInverse(constants: set<string>, s: State, kind: string, step: string,
                                                raw: string, force: bool)
    requires Consistent(s) && Free(kind, ':') && Free(step, '#') && (force || raw !in constants)
    ensures var s' := RegisterState(constants, s, kind, step, raw, force).state;
      Inverse(s') && Extends(s, s')
  {
    hide TemplateName, CounterKey, RegisterState, Numbered, Listed;
    RegisterShape(constants, s, kind, step, raw, force);
    NamesHaveColons(kind, step, Count(s, CounterKey(kind, step)) + 1);
  }

  lemma SetTemplateKeepsList(s: State, raw: string, template: string)
    requires Listed(s)
    ensures Listed(SetTemplate(s, raw, template))
  {}

  lemma SameListed(s: State, s': State)
    requires Listed(s) && s'.order == s.order && s'.templates == s.templates
    ensures Listed(s')
  {}

  lemma {:induction false} RegisterKeepsList(constants: set<string>, s: State, kind: string, step: string, raw: string,
                                             force: bool)
    requires Listed(s)
    ensures Listed(RegisterState(constants, s, kind, step, raw, force).state)
  {
    hide TemplateName, CounterKey, Listed, SetTemplate;
    var key := CounterKey(kind, step);
    var template := TemplateName(kind, step, Count(s, key) + 1);
    var values := if template in s.values then s.values else s.values[template := raw];
    var counted := s.(counters := s.counters[key := Count(s, key) + 1], values := values);
    SameListed(s, counted);
    SetTemplateKeepsList(counted, raw, template);
  }

  lemma RegisterKeepsNumbers(constants: set<string>, s: State, kind: string, step: string, raw: string, force: bool)
    requires Consistent(s) && Free(kind, ':') && Free(step, '#') && (force || raw !in constants)
    ensures Numbered(RegisterState(constants, s, kind, step, raw, force).state)
  {
    hide TemplateName, CounterKey, RegisterState, Listed, Inverse;
    RegisterShape(constants, s, kind, step, raw, force);
    var s' := RegisterState(constants, s, kind, step, raw, force).state;
    var key := CounterKey(kind, step);
    forall kind', step', n: nat | Free(kind', ':') && Free(step', '#') && TemplateName(kind', step', n) in s'.values
      ensures n <= Count(s', CounterKey(kind', step'))
    {
      if TemplateName(kind', step', n) == TemplateName(kind, step, Count(s, key) + 1) {
        HashFreeNames(kind', step', n, kind, step, Count(s, key) + 1);
      }
    }
  }

  lemma BindKeepsList(s: State, template: string, raw: string)
    requires Listed(s) && raw !in s.templates
    ensures Listed(BindState(s, template, raw))
  {}

  lemma BindKeepsInverse(s: State, template: string, raw: string)
    requires Inverse(s) && Clean(s, Bind(template, raw))
    ensures Inverse(BindState(s, template, raw))
  {}

  lemma BindKeepsNumbers(s: State, template: string, raw: string)
    requires Numbered(s) && Free(template, ':')
    ensures Numbered(BindState(s, template, raw))
  {
    hide TemplateName, CounterKey;
    var s' := BindState(s, template, raw);
    forall kind, step, n: nat | Free(kind, ':') && Free(step, '#') && TemplateName(kind, step, n) in s'.values
      ensures n <= Count(s', CounterKey(kind, step))
    {
      NamesHaveColons(kind, step, n);
    }
  }

  lemma {:induction false} BindKeeps(s: State, template: string, raw: string)
    requires Consistent(s) && Clean(s, Bind(template, raw))
    ensures Consistent(BindState(s, template, raw)) && Extends(s, BindState(s, template, raw))
  {
    hide Listed, Inverse, Numbered;
    BindKeepsList(s, template, raw);
    BindKeepsInverse(s, template, raw);
    BindKeepsNumbers(s, template, raw);
  }

  lemma ApplyKeeps(constants: set<string>, s: State, op: Op)
    requires Consistent(s) && Clean(s, op)
    ensures Consistent(Apply(constants, s, op)) && Extends(s, Apply(constants, s, op))
  {
    hide Listed, Inverse, Numbered, TemplateName;
    match op {
      case Register(kind, step, raw, force) =>
        if force || raw !in constants {
          RegisterKeepsInverse(constants, s, kind, step, raw, force);
          RegisterKeepsList(constants, s, kind, step, raw, force);
          RegisterKeepsNumbers(constants, s, kind, step, raw, force);
        }
      case Bind(template, raw) => BindKeeps(s, template, raw);
    }
  }

  function Run(constants: set<string>, s: State, ops: seq<Op>): State
    decreases |ops|
  {
    if ops == [] then s else Run(constants, Apply(constants, s, ops[0]), ops[1..])
  }

  predicate CleanRun(constants: set<string>, s: State, ops: seq<Op>)
    decreases |ops|
  {
    ops == [] || (Clean(s, ops[0]) && CleanRun(constants, Apply(constants, s, ops[0]), ops[1..]))
  }

  /** Every run keeps the table consistent and never changes an entry that exists. */
  lemma {:induction false} RunKeeps(constants: set<string>, s: State, ops: seq<Op>)
    requires Consistent(s) && CleanRun(constants, s, ops)
    ensures Consistent(Run(constants, s, ops)) && Extends(s, Run(constants, s, ops))
    decreases |ops|
  {
    hide Consistent, Apply, Clean;
    if ops != [] {
      ApplyKeeps(constants, s, ops[0]);
      RunKeeps(constants, Apply(constants, s, ops[0]), ops[1..]);
    }
  }

  lemma EmptyConsistent()
    ensures Consistent(EMPTY)
  {}

  /**
   * In every run from the empty table: two raw values never share a name, and whatever is registered next
   * is named by a template that resolves to it then and after every continuation of the run.
   */
  lemma NamesArePermanent(constants: set<string>, before: seq<Op>, kind: string, step: string, raw: string, force: bool,
                          after: seq<Op>)
    requires force || raw !in constants
    requires CleanRun(constants, EMPTY, before) && Free(kind, ':') && Free(step, '#')
    requires
      CleanRun(constants, Apply(constants, Run(constants, EMPTY, before), Register(kind, step, raw, force)), after)
    ensures var s := Run(constants, EMPTY, before);
      var r := RegisterState(constants, s, kind, step, raw, force);
      var final := Run(constants, r.state, after);
      && raw in final.templates && final.templates[raw] == r.template
      && r.template in final.values && final.values[r.template] == raw
      && TemplateName(kind, step, Count(s, CounterKey(kind, step)) + 1) in final.values
      && final.values[TemplateName(kind, step, Count(s, CounterKey(kind, step)) + 1)] == raw
      && forall x, y :: x in final.templates && y in final.templates && final.templates[x] == final.templates[y] ==>
        x == y
  {
    hide TemplateName, CounterKey, RegisterState, Listed, Numbered, Run, CleanRun;
    EmptyConsistent();
    RunKeeps(constants, EMPTY, before);
    var s := Run(constants, EMPTY, before);
    RegisterShape(constants, s, kind, step, raw, force);
    ApplyKeeps(constants, s, Register(kind, step, raw, force));
    RunKeeps(constants, RegisterState(constants, s, kind, step, raw, force).state, after);
  }

  // ---------------------------------------------------------------- replacing and resolving

  /** `(a, b) => b.length - a.length` */
  predicate LongerFirst(a: string, b: string) { Length16(a) >= Length16(b) }

  function Entries(s: State): seq<string> { Sort(s.order, LongerFirst) }

  /** One round of the loop. */
  function ReplaceOne(text: string, raw: string, template: string): string {
    if Length16(raw) < 4 || !Includes(text, raw) then text
    else Rewrite(text, raw, template, AllDigits(raw), false)
  }

  function ReplaceEntries(templates: map<string, string>, entries: seq<string>, text: string): string
    requires forall raw :: raw in entries ==> raw in templates
    decreases |entries|
  {
    if entries == [] then text
    else
      var raw := entries[|entries| - 1];
      ReplaceOne(ReplaceEntries(templates, entries[..|entries| - 1], text), raw, templates[raw])
  }

  lemma EntriesListed(s: State)
    requires Listed(s)
    ensures forall raw :: raw in Entries(s) <==> raw in s.templates
  {
    SortPermutes(s.order, LongerFirst);
    assert forall raw :: raw in s.order <==> raw in multiset(s.order);
    assert forall raw :: raw in Entries(s) <==> raw in multiset(Entries(s));
  }

  ghost function Replaced(s: State, text: string): string
    requires Listed(s)
  {
    EntriesListed(s);
    ReplaceEntries(s.templates, Entries(s), text)
  }

  /** No two characters open a template. */
  predicate Plain(text: string) { forall i :: 0 <= i < |text| - 1 ==> !(text[i] == '{' && text[i + 1] == '{') }

  /** Names have the shape `resolve` looks for, and no value that is replaced contains a brace. */
  ghost predicate Bracketed(s: State) {
    && (forall raw :: raw in s.templates ==> IsTemplate(s.templates[raw]))
    && (forall raw :: raw in s.templates && Length16(raw) >= 4 ==> BraceFree(raw))
  }

  /**
   * Neither of two rounds is skipped for length, and the later one would replace text inside the earlier one's name.
   */
  predicate Mangles(name: string, first: string, second: string) {
    Length16(first) >= 4 && Length16(second) >= 4 && Hits(name, second, AllDigits(second))
  }

  /** No round rewrites a name that an earlier round has put into the text. */
  ghost predicate Separable(s: State)
    requires Listed(s)
  {
    EntriesListed(s);
    var es := Entries(s);
    forall i, j :: 0 <= i < j < |es| ==> !Mangles(s.templates[es[i]], es[i], es[j])
  }

  /** The rewritten text as tokens: its references are the names of replaced entries, and it still stands for `text`. */
  ghost predicate Stands(s: State, entries: seq<string>, ts: seq<Token>, output: string, text: string) {
    && WellFormed(s.values, ts) && Render(ts) == output && Expand(s.values, ts) == text
    && (forall k :: k in ts && k.Ref? ==> Named(s, entries, k.t))
  }

  ghost predicate Named(s: State, entries: seq<string>, t: string) {
    exists raw :: raw in entries && raw in s.templates && Length16(raw) >= 4 && s.templates[raw] == t
  }

  lemma {:induction false} ReplaceOneStands(s: State, before: seq<string>, ts: seq<Token>, output: string,
                                            text: string, raw: string)
    returns (us: seq<Token>)
    requires Inverse(s) && Bracketed(s) && raw in s.templates && Stands(s, before, ts, output, text)
    requires Length16(raw) >= 4 ==> Outside(ts, raw, AllDigits(raw))
    ensures Stands(s, before + [raw], us, ReplaceOne(output, raw, s.templates[raw]), text)
  {
    hide WellFormed, IsTemplate, Includes, BraceFree, Render, Expand, Outside;
    var t := s.templates[raw];
    assert forall k :: Named(s, before, k) ==> Named(s, before + [raw], k);
    if Length16(raw) < 4 || !Includes(output, raw) {
      us := ts;
    } else {
      us := RewriteTokens(ts, raw, t, AllDigits(raw), false);
      RewriteRendered(ts, raw, t, AllDigits(raw), false);
      RewriteMeaning(s.values, ts, raw, t, AllDigits(raw), false);
      RewriteKeeps(s.values, ts, raw, t, AllDigits(raw), false);
      assert raw in before + [raw] && Named(s, before + [raw], t);
    }
  }

  lemma {:induction false} ReferencesOutside(s: State, ts: seq<Token>, output: string, text: string, n: nat)
    requires Listed(s) && Bracketed(s) && Separable(s) && n < |Entries(s)|
    requires Stands(s, Entries(s)[..n], ts, output, text)
    ensures Length16(Entries(s)[n]) >= 4 ==> Outside(ts, Entries(s)[n], AllDigits(Entries(s)[n]))
  {
    hide IsTemplate, Hits, Render, Expand, Entries, WellFormed, Listed;
    EntriesListed(s);
    var es := Entries(s);
    var raw := es[n];
    if Length16(raw) >= 4 {
      forall i | 0 <= i < |ts| && ts[i].Ref? ensures IsTemplate(ts[i].t) && !Hits(ts[i].t, raw, AllDigits(raw)) {
        assert ts[i] in ts;
        var other :| other in es[..n] && other in s.templates && Length16(other) >= 4 && s.templates[other] == ts[i].t;
        var m :| 0 <= m < n && es[m] == other;
        assert !Mangles(s.templates[es[m]], es[m], es[n]);
      }
    }
  }

  lemma {:induction false} EntriesStand(s: State, n: nat, text: string) returns (ts: seq<Token>)
    requires Consistent(s) && Bracketed(s) && Separable(s) && Plain(text) && n <= |Entries(s)|
    requires forall raw :: raw in Entries(s)[..n] ==> raw in s.templates
    ensures Stands(s, Entries(s)[..n], ts, ReplaceEntries(s.templates, Entries(s)[..n], text), text)
  {
    hide Inverse, Separable, ReplaceOne, IsTemplate, Entries, Bracketed, Listed, Numbered;
    var es := Entries(s);
    if n == 0 {
      ts := Literal(text);
      LiteralRenders(s.values, text);
    } else {
      var before := es[..n - 1];
      assert es[..n][..n - 1] == before && es[..n] == before + [es[n - 1]];
      var us := EntriesStand(s, n - 1, text);
      var output := ReplaceEntries(s.templates, before, text);
      ReferencesOutside(s, us, output, text, n - 1);
      ts := ReplaceOneStands(s, before, us, output, text, es[n - 1]);
    }
  }

  /** Replacing the registered values and resolving the templates again gives the text back. */
  lemma ResolveUndoesReplace(s: State, text: string)
    requires Consistent(s) && Bracketed(s) && Separable(s) && Plain(text)
    ensures Resolve(s.values, Replaced(s, text)) == Ok(text)
  {
    hide Separable, Numbered, Resolve, Bracketed, Entries, Inverse;
    EntriesListed(s);
    var es := Entries(s);
    assert es[..|es|] == es;
    var ts := EntriesStand(s, |es|, text);
    ResolveRendered(s.values, ts);
  }

  // ---------------------------------------------------------------- why longest first, and when it is not enough

  lemma IncludesLength(s: string, raw: string)
    requires Includes(s, raw)
    ensures Length16(raw) <= Length16(s)
    ensures Length16(raw) == Length16(s) ==> raw == s
  {
    var i :| 0 <= i <= |s| && OccursAt(s, raw, i);
    var a, b := s[..i], s[i + |raw|..];
    assert s == a + (raw + b);
    Length16Append(a, raw + b);
    Length16Append(raw, b);
    Length16AtLeast(a);
    Length16AtLeast(b);
    if Length16(raw) == Length16(s) { assert a == [] && b == []; }
  }

  lemma LongerFirstPreorder()
    ensures TotalPreorder(LongerFirst)
  {}

  /** The entries are distinct and in order of length. */
  lemma EntriesSorted(s: State, i: nat, j: nat)
    requires Listed(s) && i < j < |Entries(s)|
    ensures Length16(Entries(s)[i]) >= Length16(Entries(s)[j]) && Entries(s)[i] != Entries(s)[j]
  {
    LongerFirstPreorder();
    SortSorted(s.order, LongerFirst);
    SortPermutes(s.order, LongerFirst);
    DistinctPermutes(s.order, Entries(s), i, j);
  }

  lemma {:induction false} DistinctPermutes(xs: seq<string>, ys: seq<string>, i: nat, j: nat)
    requires multiset(xs) == multiset(ys) && i < j < |ys|
    requires forall a, b :: 0 <= a < b < |xs| ==> xs[a] != xs[b]
    ensures ys[i] != ys[j]
  {
    AtMostOnce(xs, ys[i]);
    if ys[i] == ys[j] { AtLeastTwice(ys, i, j); }
  }

  lemma {:induction false} AtMostOnce(xs: seq<string>, y: string)
    requires forall a, b :: 0 <= a < b < |xs| ==> xs[a] != xs[b]
    ensures multiset(xs)[y] <= 1
  {
    if xs != [] {
      AtMostOnce(xs[1..], y);
      assert xs == [xs[0]] + xs[1..];
      assert xs[0] !in xs[1..];
    }
  }

  lemma {:induction false} AtLeastTwice(ys: seq<string>, i: nat, j: nat)
    requires i < j < |ys| && ys[i] == ys[j]
    ensures multiset(ys)[ys[i]] >= 2
  {
    assert ys == ys[..j] + ys[j..];
    assert ys[..j][i] == ys[i] && ys[j..][0] == ys[j];
    assert ys[i] in multiset(ys[..j]) && ys[i] in multiset(ys[j..]);
  }

  /** A value on its own is not touched before its own round. */
  lemma {:induction false} UntouchedBefore(s: State, i: nat, n: nat)
    requires Listed(s) && n <= i < |Entries(s)|
    requires forall raw :: raw in Entries(s)[..n] ==> raw in s.templates
    ensures ReplaceEntries(s.templates, Entries(s)[..n], Entries(s)[i]) == Entries(s)[i]
  {
    hide Entries, Includes, Listed;
    var es := Entries(s);
    if n > 0 {
      assert es[..n][..n - 1] == es[..n - 1];
      UntouchedBefore(s, i, n - 1);
      EntriesSorted(s, n - 1, i);
      if Includes(es[i], es[n - 1]) { IncludesLength(es[i], es[n - 1]); }
    }
  }

  lemma RewriteSelf(raw: string, t: string, whole: bool)
    requires raw != []
    ensures Rewrite(raw, raw, t, whole, false) == t && Includes(raw, raw)
  {
    assert OccursAt(raw, raw, 0);
    assert t + [] == t;
  }

  /** In its own round it becomes its name. */
  lemma NamedAfter(s: State, i: nat)
    requires Listed(s) && i < |Entries(s)| && Length16(Entries(s)[i]) >= 4
    requires forall raw :: raw in Entries(s)[..i + 1] ==> raw in s.templates
    ensures ReplaceEntries(s.templates, Entries(s)[..i + 1], Entries(s)[i]) == s.templates[Entries(s)[i]]
  {
    hide Entries, Includes, Listed, Rewrite;
    var es := Entries(s);
    assert es[..i + 1][..i] == es[..i];
    UntouchedBefore(s, i, i);
    RewriteSelf(es[i], s.templates[es[i]], AllDigits(es[i]));
  }

  lemma HitsIncludes(s: string, raw: string, whole: bool)
    requires Hits(s, raw, whole)
    ensures Includes(s, raw)
  {}

  /** A later round leaves a name alone, or breaks it for good. */
  lemma {:induction false} RoundAfter(output: string, name: string, raw: string, t: string)
    requires IsTemplate(name) && IsTemplate(t) && (Length16(raw) >= 4 ==> BraceFree(raw))
    requires output == name || Broken(output, name)
    ensures var next := ReplaceOne(output, raw, t);
      && (next == name || Broken(next, name))
      && (Broken(output, name) ==> Broken(next, name))
      && (Length16(raw) >= 4 && Hits(name, raw, AllDigits(raw)) ==> Broken(next, name))
      && (output == name && !(Length16(raw) >= 4 && Hits(name, raw, AllDigits(raw))) ==> next == name)
  {
    hide IsTemplate, Hits, Broken, Includes, Rewrite, BraceFree;
    TemplateBraces(t);
    var whole := AllDigits(raw);
    if Hits(name, raw, whole) { HitsIncludes(name, raw, whole); }
    if Length16(raw) >= 4 {
      if Broken(output, name) { BrokenStays(output, name, raw, t, whole); }
      if Hits(name, raw, whole) {
        HitBreaks(name, raw, t, whole);
      } else {
        assert name[0..] == name;
        RewriteUntouched(name, 0, raw, t, whole);
      }
    }
  }

  /** One of the rounds after `i` and before `n` mangles the name that round `i` puts in. */
  ghost predicate MangledBy(s: State, i: nat, n: nat)
    requires i < |Entries(s)| && n <= |Entries(s)| && Entries(s)[i] in s.templates
  {
    exists j :: i < j < n && Mangles(s.templates[Entries(s)[i]], Entries(s)[i], Entries(s)[j])
  }

  /** After its own round the text is the name, or a broken name as soon as a round has mangled it. */
  lemma {:induction false} AfterOwnRound(s: State, i: nat, n: nat)
    requires Listed(s) && Bracketed(s) && i < n <= |Entries(s)| && Length16(Entries(s)[i]) >= 4
    requires forall raw :: raw in Entries(s) ==> raw in s.templates
    ensures var name := s.templates[Entries(s)[i]];
      var output := ReplaceEntries(s.templates, Entries(s)[..n], Entries(s)[i]);
      if MangledBy(s, i, n) then Broken(output, name) else output == name
    decreases n
  {
    hide Entries, Listed, IsTemplate, Broken, Hits, ReplaceOne, BraceFree;
    var es := Entries(s);
    if n == i + 1 {
      NamedAfter(s, i);
    } else {
      AfterOwnRound(s, i, n - 1);
      var raw := es[n - 1];
      assert raw in es && es[i] in es;
      assert es[..n][..n - 1] == es[..n - 1];
      RoundAfter(ReplaceEntries(s.templates, es[..n - 1], es[i]), s.templates[es[i]], raw, s.templates[raw]);
      assert MangledBy(s, i, n) <==> MangledBy(s, i, n - 1) || Mangles(s.templates[es[i]], es[i], raw);
    }
  }

  /** A registered value on its own becomes its name, thanks to the order of the rounds. */
  lemma WholeValue(s: State, raw: string)
    requires Listed(s) && Bracketed(s) && Separable(s) && raw in s.templates && Length16(raw) >= 4
    ensures Replaced(s, raw) == s.templates[raw]
  {
    hide Entries, Listed, Mangles, Bracketed, ReplaceEntries;
    EntriesListed(s);
    var es := Entries(s);
    var i :| 0 <= i < |es| && es[i] == raw;
    assert es[..|es|] == es;
    AfterOwnRound(s, i, |es|);
  }

  lemma BrokenDoesNotResolve(values: map<string, string>, output: string, name: string, raw: string)
    requires IsTemplate(name) && Broken(output, name) && BraceFree(raw) && raw != []
    ensures Resolve(values, output) != Ok(raw)
  {
    hide MatchEnd, Broken, IsTemplate;
    BrokenIsNoMatch(output, name);
    assert raw[0] in raw;
  }

  lemma {:induction false} MangledDoesNotResolve(s: State, i: nat, j: nat)
    requires Listed(s) && Bracketed(s) && i < j < |Entries(s)|
    requires forall raw :: raw in Entries(s) ==> raw in s.templates
    requires Mangles(s.templates[Entries(s)[i]], Entries(s)[i], Entries(s)[j])
    ensures Plain(Entries(s)[i]) && Resolve(s.values, Replaced(s, Entries(s)[i])) != Ok(Entries(s)[i])
  {
    hide Entries, Listed, Hits, ReplaceEntries, Resolve, Broken, IsTemplate;
    EntriesListed(s);
    var es := Entries(s);
    var raw, name := es[i], s.templates[es[i]];
    assert es[..|es|] == es && raw in es;
    AfterOwnRound(s, i, |es|);
    BrokenDoesNotResolve(s.values, Replaced(s, raw), name, raw);
    forall k | 0 <= k < |raw| ensures raw[k] != '{' { assert raw[k] in raw; }
  }

  /**
   * Resolving undoes replacing on every text without `{{` if and only if no round can rewrite a name that an
   * earlier round has put into the text.
   */
  lemma RoundTripExactly(s: State)
    requires Consistent(s) && Bracketed(s)
    ensures Separable(s) <==> forall text :: Plain(text) ==> Resolve(s.values, Replaced(s, text)) == Ok(text)
  {
    hide Entries, Inverse, Numbered, Bracketed, Resolve, Plain, Replaced, Mangles;
    EntriesListed(s);
    if Separable(s) {
      forall text | Plain(text) ensures Resolve(s.values, Replaced(s, text)) == Ok(text) {
        ResolveUndoesReplace(s, text);
      }
    } else {
      var es := Entries(s);
      var i, j :| 0 <= i < j < |es| && Mangles(s.templates[es[i]], es[i], es[j]);
      MangledDoesNotResolve(s, i, j);
    }
  }

  // ---------------------------------------------------------------- names have the right shape

  predicate Letters(s: string) { s != [] && forall c :: c in s ==> IsLetter(c) }

  predicate Words(s: string) { s != [] && forall c :: c in s ==> IsWord(c) }

  lemma {:induction false} RunOver(pre: string, run: string, rest: string, p: char -> bool)
    requires (forall c :: c in run ==> p(c)) && rest != [] && !p(rest[0])
    ensures RunEnd(pre + (run + rest), |pre|, p) == |pre| + |run|
    ensures (pre + (run + rest))[|pre| + |run|..] == rest
  {
    var s := pre + (run + rest);
    assert forall k :: |pre| <= k < |pre| + |run| ==> s[k] == run[k - |pre|] && s[k] in run;
    assert s[|pre| + |run|] == rest[0];
    RunEndIs(s, |pre|, p, |pre| + |run|);
  }

  /** The number and the closing braces end a match. */
  lemma CloseAfter(pre: string, n: nat)
    ensures var t := pre + (Suffix(n) + ['}', '}']);
      && |pre| < |t| && !IsWord(t[|pre|])
      && (if n == 1 then t[|pre|] != '#' && Close(t, |pre|) == Some(|t|)
          else t[|pre|] == '#' && RunEnd(t, |pre| + 1, IsDigit) > |pre| + 1
               && Close(t, RunEnd(t, |pre| + 1, IsDigit)) == Some(|t|))
  {
    if n == 1 {
      assert Suffix(n) + ['}', '}'] == ['}', '}'];
    } else {
      CloseAfterDigits(pre, NatText(n));
    }
  }

  lemma CloseAfterDigits(pre: string, digits: string)
    requires AllDigits(digits) && digits != []
    ensures var t := pre + (['#'] + digits + ['}', '}']);
      && t[|pre|] == '#' && RunEnd(t, |pre| + 1, IsDigit) > |pre| + 1
      && Close(t, RunEnd(t, |pre| + 1, IsDigit)) == Some(|t|)
  {
    hide RunEnd;
    var t := pre + (['#'] + digits + ['}', '}']);
    assert t == (pre + ['#']) + (digits + ['}', '}']);
    RunOver(pre + ['#'], digits, ['}', '}'], IsDigit);
    assert t[|pre| + 1 + |digits|..] == ['}', '}'];
  }

  lemma NameSplits(kind: string, step: string, n: nat)
    ensures var t, before, tail := TemplateName(kind, step, n), ['{', '{'] + kind + [':'], Suffix(n) + ['}', '}'];
      && t == before + (step + tail) && t == (before + step) + tail
      && t[0] == '{' && t[1] == '{' && t[2 + |kind|] == ':'
  {}

  /** The runs of letters and of word characters end where the kind and the step do. */
  lemma NameRuns(kind: string, step: string, n: nat)
    requires Letters(kind) && Words(step)
    ensures var t := TemplateName(kind, step, n);
      var k := 3 + |kind| + |step|;
      && |t| > k && t[0] == '{' && t[1] == '{' && t[2 + |kind|] == ':'
      && RunEnd(t, 2, IsLetter) == 2 + |kind| && RunEnd(t, 3 + |kind|, IsWord) == k
      && t == t[..k] + (Suffix(n) + ['}', '}'])
  {
    hide RunEnd, Close, IsWord, Suffix, IsLetter;
    var t := TemplateName(kind, step, n);
    var before, tail := ['{', '{'] + kind + [':'], Suffix(n) + ['}', '}'];
    NameSplits(kind, step, n);
    hide TemplateName;
    CloseAfter(before + step, n);
    assert tail[0] == t[|before + step|];
    RunOver(before, step, tail, IsWord);
    ColonIsNoLetter();
    assert t == ['{', '{'] + (kind + ([':'] + (step + tail)));
    RunOver(['{', '{'], kind, [':'] + (step + tail), IsLetter);
    assert t[..3 + |kind| + |step|] == before + step;
  }

  /** Kinds of letters and steps of word characters give names that `resolve` recognises. */
  lemma NameIsTemplate(kind: string, step: string, n: nat)
    requires Letters(kind) && Words(step)
    ensures IsTemplate(TemplateName(kind, step, n))
    ensures Free(kind, ':') && Free(step, '#')
  {
    hide RunEnd, Close, IsWord, Suffix, IsLetter, TemplateName;
    NameRuns(kind, step, n);
    CloseAfter(TemplateName(kind, step, n)[..3 + |kind| + |step|], n);
    NoSpecial(kind, step);
  }

  lemma ColonIsNoLetter()
    ensures !IsLetter(':')
  {}

  lemma {:induction false} NoSpecial(kind: string, step: string)
    requires Letters(kind) && Words(step)
    ensures Free(kind, ':') && Free(step, '#')
  {
    forall c | c in kind ensures c != ':' { assert IsLetter(c); }
    forall c | c in step ensures c != '#' { assert IsWord(c); }
  }

  // ---------------------------------------------------------------- runs whose texts can be resolved

  /**
   * Kinds of letters, steps of word characters, bindings to templates, and values without braces if they are
   * replaced.
   */
  predicate Tidy(op: Op) {
    && (Length16(op.raw) >= 4 ==> BraceFree(op.raw))
    && match op
       case Register(kind, step, _, _) => Letters(kind) && Words(step)
       case Bind(template, _) => IsTemplate(template)
  }

  lemma {:induction false} ApplyBracketed(constants: set<string>, s: State, op: Op)
    requires Consistent(s) && Bracketed(s) && Clean(s, op) && Tidy(op)
    ensures Bracketed(Apply(constants, s, op))
  {
    hide IsTemplate, BraceFree, TemplateName, CounterKey, Listed, Inverse, Numbered, RegisterState;
    match op {
      case Register(kind, step, raw, force) =>
        NameIsTemplate(kind, step, Count(s, CounterKey(kind, step)) + 1);
        if force || raw !in constants {
          RegisterShape(constants, s, kind, step, raw, force);
        } else {
          RegisterSkips(constants, s, kind, step, raw, force);
        }
      case Bind(template, raw) =>
    }
  }

  lemma {:induction false} RegisterSkips(constants: set<string>, s: State, kind: string, step: string, raw: string,
                                         force: bool)
    requires !force && raw in constants
    ensures RegisterState(constants, s, kind, step, raw, force).state == s
  {}

  /** Every clean and tidy run from the empty table gives a table that the round trip is about. */
  lemma {:induction false} RunBracketed(constants: set<string>, s: State, ops: seq<Op>)
    requires Consistent(s) && Bracketed(s) && CleanRun(constants, s, ops)
    requires forall i :: 0 <= i < |ops| ==> Tidy(ops[i])
    ensures Consistent(Run(constants, s, ops)) && Bracketed(Run(constants, s, ops))
    decreases |ops|
  {
    hide Consistent, Bracketed, Apply, Clean, Tidy;
    if ops != [] {
      ApplyKeeps(constants, s, ops[0]);
      ApplyBracketed(constants, s, ops[0]);
      RunBracketed(constants, Apply(constants, s, ops[0]), ops[1..]);
    }
  }

  /** For the table of any such run, resolving undoes replacing on all texts exactly when no round mangles a name. */
  lemma {:induction false} RunsRoundTrip(constants: set<string>, ops: seq<Op>)
    requires CleanRun(constants, EMPTY, ops) && forall i :: 0 <= i < |ops| ==> Tidy(ops[i])
    ensures var s := Run(constants, EMPTY, ops);
      && Consistent(s)
      && (Separable(s) <==> forall text :: Plain(text) ==> Resolve(s.values, Replaced(s, text)) == Ok(text))
  {
    hide Run, CleanRun, Tidy, Separable, Plain, Resolve, Replaced, Numbered, Inverse;
    EmptyConsistent();
    RunBracketed(constants, EMPTY, ops);
    RoundTripExactly(Run(constants, EMPTY, ops));
  }

  // ---------------------------------------------------------------- whole JSON values

  ghost function Finish(s: State, v: Json): Json
    requires Listed(s)
  {
    match v
    case Str(text) => Str(Replaced(s, text))
    case Arr(items) => Arr(seq(|items|, i requires 0 <= i < |items| => Finish(s, items[i])))
    case Obj(fields) =>
      Obj(seq(|fields|, i requires 0 <= i < |fields| => Field(fields[i].key, Finish(s, fields[i].value))))
    case _ => v
  }

  datatype Outcome<T> = Done(value: T) | Failed(template: string)

  /** `resolveJson`; the first unresolved template is thrown. */
  function ResolveJson(values: map<string, string>, v: Json): Outcome<Json> {
    match v
    case Str(text) =>
      (match Resolve(values, text) case Ok(t) => Done(Str(t)) case Unresolved(t) => Failed(t))
    case Arr(items) =>
      (match ResolveItems(values, items) case Done(r) => Done(Arr(r)) case Failed(t) => Failed(t))
    case Obj(fields) =>
      (match ResolveFields(values, fields) case Done(r) => Done(Obj(r)) case Failed(t) => Failed(t))
    case _ => Done(v)
  }

  function ResolveItems(values: map<string, string>, items: seq<Json>): Outcome<seq<Json>> {
    if items == [] then Done([])
    else match ResolveJson(values, items[0])
      case Failed(t) => Failed(t)
      case Done(first) =>
        match ResolveItems(values, items[1..])
        case Failed(t) => Failed(t)
        case Done(rest) => Done([first] + rest)
  }

  function ResolveFields(values: map<string, string>, fields: seq<Field>): Outcome<seq<Field>> {
    if fields == [] then Done([])
    else match ResolveJson(values, fields[0].value)
      case Failed(t) => Failed(t)
      case Done(first) =>
        match ResolveFields(values, fields[1..])
        case Failed(t) => Failed(t)
        case Done(rest) => Done([Field(fields[0].key, first)] + rest)
  }

  ghost predicate PlainJson(v: Json) {
    match v
    case Str(text) => Plain(text)
    case Arr(items) => forall i :: 0 <= i < |items| ==> PlainJson(items[i])
    case Obj(fields) => forall i :: 0 <= i < |fields| ==> PlainJson(fields[i].value)
    case _ => true
  }

  lemma {:induction false} ItemsBack(values: map<string, string>, from: seq<Json>, items: seq<Json>)
    requires |from| == |items| && forall i :: 0 <= i < |items| ==> ResolveJson(values, from[i]) == Done(items[i])
    ensures ResolveItems(values, from) == Done(items)
  {
    hide ResolveJson;
    if items != [] {
      ItemsBack(values, from[1..], items[1..]);
      assert items == [items[0]] + items[1..];
    }
  }

  lemma {:induction false} FieldsBack(values: map<string, string>, from: seq<Field>, fields: seq<Field>)
    requires |from| == |fields|
    requires forall i :: 0 <= i < |fields| ==>
      from[i].key == fields[i].key && ResolveJson(values, from[i].value) == Done(fields[i].value)
    ensures ResolveFields(values, from) == Done(fields)
  {
    hide ResolveJson;
    if fields != [] {
      FieldsBack(values, from[1..], fields[1..]);
      assert fields == [fields[0]] + fields[1..];
    }
  }

  /** A finished JSON value resolves back to what was recorded. */
  lemma {:induction false} ResolveUndoesFinish(s: State, v: Json)
    requires Consistent(s) && Bracketed(s) && Separable(s) && PlainJson(v)
    ensures ResolveJson(s.values, Finish(s, v)) == Done(v)
    decreases v
  {
    hide Separable, Bracketed, Inverse, Numbered, Replaced, Resolve, Plain, ResolveItems, ResolveFields;
    match v {
      case Str(text) => ResolveUndoesReplace(s, text);
      case Arr(items) =>
        forall i | 0 <= i < |items| ensures ResolveJson(s.values, Finish(s, items[i])) == Done(items[i]) {
          ResolveUndoesFinish(s, items[i]);
        }
        ItemsBack(s.values, Finish(s, v).items, items);
      case Obj(fields) =>
        forall i | 0 <= i < |fields|
          ensures ResolveJson(s.values, Finish(s, fields[i].value)) == Done(fields[i].value)
        {
          ResolveUndoesFinish(s, fields[i].value);
        }
        FieldsBack(s.values, Finish(s, v).fields, fields);
      case _ =>
    }
  }

  // ---------------------------------------------------------------- the object

  class Registry {
    var order: seq<string>
    var templates: map<string, string>
    var values: map<string, string>
    var counters: map<string, nat>
    const constants: set<string>

    function Contents(): State
      reads this
    {
      State(order, templates, values, counters)
    }

    constructor (constants: set<string>)
      ensures Contents() == EMPTY && this.constants == constants && Listed(Contents())
    {
      this.constants := constants;
      order, templates, values, counters := [], map[], map[], map[];
    }

    method Register(kind: string, step: string, raw: string, force: bool) returns (name: string)
      modifies this
      ensures Registered(Contents(), name) == RegisterState(constants, old(Contents()), kind, step, raw, force)
      ensures old(Listed(Contents())) ==> Listed(Contents())
    {
      hide Listed;
      if Listed(Contents()) { RegisterKeepsList(constants, Contents(), kind, step, raw, force); }
      if !force && raw in constants { return raw; }
      var key := CounterKey(kind, step);
      var count := (if key in counters then counters[key] else 0) + 1;
      counters := counters[key := count];
      var template := TemplateName(kind, step, count);
      if template !in values { values := values[template := raw]; }
      if raw in templates && templates[raw] != "" { return templates[raw]; }
      if raw !in templates { order := order + [raw]; }
      templates := templates[raw := template];
      return template;
    }

    method Bind(template: string, raw: string)
      modifies this
      ensures Contents() == BindState(old(Contents()), template, raw)
      ensures old(Listed(Contents())) ==> Listed(Contents())
    {
      if raw !in templates { order := order + [raw]; }
      templates := templates[raw := template];
      values := values[template := raw];
    }

    method ReplaceAll(text: string) returns (output: string)
      requires Listed(Contents())
      ensures output == Replaced(Contents(), text)
    {
      hide Rewrite, Includes, Split, JoinWith, Listed, AllDigits;
      EntriesListed(Contents());
      output := text;
      if order == [] { return; }
      var entries := Sort(order, LongerFirst);
      var i := 0;
      while i < |entries|
        invariant 0 <= i <= |entries|
        invariant output == ReplaceEntries(templates, entries[..i], text)
      {
        var raw := entries[i];
        assert entries[..i + 1][..i] == entries[..i];
        if Length16(raw) >= 4 && Includes(output, raw) {
          if AllDigits(raw) {
            output := Rewrite(output, raw, templates[raw], true, false);
          } else {
            SplitJoin(output, raw, templates[raw], false);
            output := JoinWith(Split(output, raw), templates[raw]);
          }
        }
        i := i + 1;
      }
      assert entries[..i] == entries;
    }
  }
}
