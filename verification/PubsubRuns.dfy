/** Two runs of a Pub/Sub program: exactly when do they leave the same recording? */
module PubsubRuns {
  import opened Options
  import opened Sorting
  import opened Text
  import opened JsonTree
  import opened Rewriting
  import opened Canonical
  import opened Naming
  import opened NamingRuns
  import opened PubsubNormalize

  // ---------------------------------------------------------------- finish leaves names alone

  /** An origin has a slash, which no name has, and no at-sign, which separates a schema name from its revision. */
  predicate GoodOrigin(o: string) { '/' in o && Free(o, '@') }

  /** What names look like. */
  predicate NameLike(name: string) { name != [] && name[0] == '{' && Free(name, '/') }

  predicate NamesLike(names: seq<string>) { forall i :: 0 <= i < |names| ==> NameLike(names[i]) }

  lemma {:induction false} FinishSlashFree(o: string, s: string)
    requires GoodOrigin(o) && Free(s, '/')
    ensures FinishText(o, s) == s
  {
    assert s[0..] == s;
    NoHits(s, o, false, '/');
    RewriteUntouched(s, 0, o, PUSH_ORIGIN, false);
  }

  lemma {:induction false} FinishTime(o: string)
    requires GoodOrigin(o)
    ensures FinishText(o, TIME) == TIME
  {
    FinishSlashFree(o, TIME);
  }

  /** Only the time template itself is finished to the time template. */
  lemma {:induction false} FinishedTime(o: string, s: string)
    requires GoodOrigin(o) && FinishText(o, s) == TIME
    ensures s == TIME
  {
    assert |TIME| < |PUSH_ORIGIN|;
    RewriteShort(s, o, PUSH_ORIGIN);
  }

  lemma {:induction false} FinishAtSign(o: string, base: string, rest: string)
    requires GoodOrigin(o)
    ensures FinishText(o, base + (['@'] + rest)) == FinishText(o, base) + (['@'] + FinishText(o, rest))
  {
    RewriteAtChar(base, '@', rest, o, PUSH_ORIGIN, false);
  }

  lemma {:induction false} FinishFree(o: string, s: string)
    requires GoodOrigin(o) && Free(s, '@')
    ensures Free(FinishText(o, s), '@')
  {
    RewriteFree(s, o, PUSH_ORIGIN, false, '@');
  }

  // ---------------------------------------------------------------- parts of strings

  /** Nothing, or text that ends with its only at-sign. */
  predicate FrontShape(front: string) {
    front == [] || (front[|front| - 1] == '@' && Free(front[..|front| - 1], '@'))
  }

  /** A schema name with an at-sign: what is in front of the first one, and what follows. */
  lemma {:induction false} NameShape(s: string) returns (base: string, rest: string)
    requires '@' in s
    ensures s == base + (['@'] + rest) && Free(base, '@')
    ensures Split(s, ['@']) == [base] + Split(rest, ['@'])
    ensures Split(rest, ['@'])[0] == [] <==> rest == [] || rest[0] == '@'
    decreases |s|
  {
    if s[0] == '@' {
      base, rest := [], s[1..];
      assert ['@'] <= s;
    } else {
      assert s == [s[0]] + s[1..];
      var b;
      b, rest := NameShape(s[1..]);
      base := [s[0]] + b;
      AppendAssoc([s[0]], b, ['@'] + rest);
      assert !(['@'] <= s);
      assert ([b] + Split(rest, ['@']))[1..] == Split(rest, ['@']);
    }
    RevisionEmpty(rest);
  }

  lemma {:induction false} RevisionEmpty(rest: string)
    ensures Split(rest, ['@'])[0] == [] <==> rest == [] || rest[0] == '@'
  {
    if rest != [] { assert ['@'] <= rest <==> rest[0] == '@'; }
  }

  /** The part of a schema name. */
  lemma {:induction false} NamePart(s: string) returns (base: string, rest: string)
    requires '@' in s
    ensures s == base + (['@'] + rest) && Free(base, '@')
    ensures RegisteredPart(s, Some("name")).None? <==> rest == [] || rest[0] == '@'
    ensures RegisteredPart(s, Some("name")).Some? ==> RegisteredPart(s, Some("name")).value.front == base + ['@']
  {
    base, rest := NameShape(s);
    hide Split;
    assert Lookup(REGISTERED_KEYS, Some("name")).None?;
    assert ([base] + Split(rest, ['@']))[1] == Split(rest, ['@'])[0];
  }

  lemma {:induction false} PartShape(s: string, key: Option<string>)
    requires RegisteredPart(s, key).Some?
    ensures FrontShape(RegisteredPart(s, key).value.front)
    ensures key != Some("name") ==> RegisteredPart(s, key).value.front == []
  {
    hide Split;
    if key == Some("name") {
      assert Lookup(REGISTERED_KEYS, key).None?;
      var base, rest := NamePart(s);
      assert (base + ['@'])[..|base|] == base;
    }
  }

  /** A name that was put in stays as it is when the text is finished. */
  lemma {:induction false} FinishFront(o: string, front: string, name: string)
    requires GoodOrigin(o) && FrontShape(front) && NameLike(name)
    ensures FinishText(o, front + name) == FinishText(o, front) + name
  {
    hide FinishText, Rewrite;
    FinishSlashFree(o, name);
    FinishSlashFree(o, []);
    if front == [] {
      assert front + name == name && [] + name == name;
    } else {
      var base := front[..|front| - 1];
      assert front == base + (['@'] + []) && front + name == base + (['@'] + name);
      FinishAtSign(o, base, name);
      FinishAtSign(o, base, []);
      AppendAssoc(FinishText(o, base), ['@'], name);
      assert ['@'] + [] == ['@'];
    }
  }

  // ---------------------------------------------------------------- alike up to run-dependent values

  /** Equal once finished, or both registered: under the same kind and behind the same finished text. */
  predicate AlikePart(o: string, a: Option<Part>, v: Json, p: string, b: Option<Part>, w: Json) {
    match (a, b)
    case (None, None) => FinishJson(o, v) == FinishJson(p, w)
    case (Some(x), Some(y)) => FinishText(o, x.front) == FinishText(p, y.front) && x.kind == y.kind
    case _ => false
  }

  predicate IsTimeKey(key: Option<string>) {
    key.Some? && (key.value in TIME_KEYS || key.value == "nextPageToken")
  }

  /** Recorded as the time template: a time, or a string at its place that is literally the template. */
  predicate Timed(v: Json, key: Option<string>) { Blanked(v, key) || (IsTimeKey(key) && v == Str(TIME)) }

  lemma {:induction false} TimeKeysRegisterNothing(s: string, key: Option<string>)
    requires IsTimeKey(key)
    ensures RegisteredPart(s, key).None?
  {
    hide Split;
  }

  lemma {:induction false} TimedFills(o: string, v: Json, key: Option<string>)
    requires GoodOrigin(o) && Timed(v, key)
    ensures Holes(v, key) == [] && FinishJson(o, Fill(v, key, [])) == Str(TIME)
  {
    hide FinishText, GoodOrigin, IsTimeKey, RegisteredPart;
    if !Blanked(v, key) { TimeKeysRegisterNothing(TIME, key); }
    FinishTime(o);
  }

  /** Equal but for the values that are registered, the times that are blanked and the two runs' origins. */
  predicate Alike(o: string, v: Json, p: string, w: Json, key: Option<string>)
    decreases v, 1
  {
    if Timed(v, key) || Timed(w, key) then Timed(v, key) && Timed(w, key)
    else match (v, w)
      case (Arr(xs), Arr(ys)) =>
        var kind := Lookup(REGISTERED_ARRAYS, key);
        if kind.Some? then AlikeListed(o, xs, p, ys, kind.value) else AlikeItems(o, xs, p, ys)
      case (Obj(fs), Obj(gs)) => AlikeFields(o, fs, p, gs)
      case (Str(s), Str(t)) => AlikePart(o, RegisteredPart(s, key), v, p, RegisteredPart(t, key), w)
      case _ => v == w
  }

  predicate AlikeListed(o: string, xs: seq<Json>, p: string, ys: seq<Json>, kind: string) {
    if xs == [] || ys == [] then xs == ys
    else
      && AlikePart(o, ListedPart(xs[0], kind), xs[0], p, ListedPart(ys[0], kind), ys[0])
      && AlikeListed(o, xs[1..], p, ys[1..], kind)
  }

  predicate AlikeItems(o: string, xs: seq<Json>, p: string, ys: seq<Json>)
    decreases xs, 0
  {
    if xs == [] || ys == [] then xs == ys
    else Alike(o, xs[0], p, ys[0], None) && AlikeItems(o, xs[1..], p, ys[1..])
  }

  predicate AlikeFields(o: string, fs: seq<Field>, p: string, gs: seq<Field>)
    decreases fs, 0
  {
    if fs == [] || gs == [] then fs == gs
    else
      && fs[0].key == gs[0].key && Alike(o, fs[0].value, p, gs[0].value, Some(fs[0].key))
      && AlikeFields(o, fs[1..], p, gs[1..])
  }

  predicate SameKinds(hs: seq<Hole>, gs: seq<Hole>) {
    |hs| == |gs| && forall i :: 0 <= i < |hs| ==> hs[i].kind == gs[i].kind
  }

  lemma KindsAppend(a: seq<Hole>, b: seq<Hole>, c: seq<Hole>, d: seq<Hole>)
    requires SameKinds(a, c) && SameKinds(b, d)
    ensures SameKinds(a + b, c + d)
  {}

  lemma NamesLikeCut(names: seq<string>, k: nat)
    requires NamesLike(names) && k <= |names|
    ensures NamesLike(names[..k]) && NamesLike(names[k..])
  {}

  lemma {:induction false} PartAgrees(o: string, a: Option<Part>, v: Json, p: string, b: Option<Part>, w: Json,
                                      names: seq<string>)
    requires GoodOrigin(o) && GoodOrigin(p) && AlikePart(o, a, v, p, b, w) && |names| == |HoleOf(a)| && NamesLike(names)
    requires a.Some? ==> FrontShape(a.value.front)
    requires b.Some? ==> FrontShape(b.value.front)
    ensures SameKinds(HoleOf(a), HoleOf(b))
    ensures FinishJson(o, FillPart(a, names, v)) == FinishJson(p, FillPart(b, names, w))
  {
    hide FinishText, GoodOrigin;
    if a.Some? {
      FinishFront(o, a.value.front, names[0]);
      FinishFront(p, b.value.front, names[0]);
    }
  }

  /** Alike values register the same kinds, and with the same names they look the same once finished. */
  lemma {:induction false} FillAgrees(o: string, v: Json, p: string, w: Json, key: Option<string>, names: seq<string>)
    requires GoodOrigin(o) && GoodOrigin(p) && Alike(o, v, p, w, key) && |names| == |Holes(v, key)| && NamesLike(names)
    ensures SameKinds(Holes(v, key), Holes(w, key))
    ensures FinishJson(o, Fill(v, key, names)) == FinishJson(p, Fill(w, key, names))
    decreases v, 1
  {
    hide IsTimeKey, RegisteredPart, Lookup, ListedPart, FinishText, GoodOrigin, AlikePart, FillPart, NamesLike;
    hide FillItems, FillFields, FillListed, ItemHoles, FieldHoles, ListedHoles, AlikeItems, AlikeFields, AlikeListed;
    hide FinishItems, FinishFields, HoleOf;
    if Timed(v, key) {
      TimedFills(o, v, key);
      TimedFills(p, w, key);
    } else {
      match v {
        case Arr(xs) =>
          var kind := Lookup(REGISTERED_ARRAYS, key);
          if kind.Some? {
            ListedAgree(o, xs, p, w.items, kind.value, names);
          } else {
            ItemsAgree(o, xs, p, w.items, names);
          }
        case Obj(fs) => FieldsAgree(o, fs, p, w.fields, names);
        case Str(s) => StringsAgree(o, s, p, w.s, key, names);
        case _ =>
      }
    }
  }

  lemma {:induction false} StringsAgree(o: string, s: string, p: string, t: string, key: Option<string>,
                                        names: seq<string>)
    requires GoodOrigin(o) && GoodOrigin(p) && NamesLike(names) && |names| == |HoleOf(RegisteredPart(s, key))|
    requires AlikePart(o, RegisteredPart(s, key), Str(s), p, RegisteredPart(t, key), Str(t))
    ensures SameKinds(HoleOf(RegisteredPart(s, key)), HoleOf(RegisteredPart(t, key)))
    ensures FinishJson(o, FillPart(RegisteredPart(s, key), names, Str(s)))
         == FinishJson(p, FillPart(RegisteredPart(t, key), names, Str(t)))
  {
    hide RegisteredPart, FinishText, GoodOrigin;
    var a, b := RegisteredPart(s, key), RegisteredPart(t, key);
    if a.Some? {
      PartShape(s, key);
      PartShape(t, key);
    }
    PartAgrees(o, a, Str(s), p, b, Str(t), names);
  }

  lemma {:induction false} ListedAgree(o: string, xs: seq<Json>, p: string, ys: seq<Json>, kind: string,
                                       names: seq<string>)
    requires GoodOrigin(o) && GoodOrigin(p) && NamesLike(names)
    requires AlikeListed(o, xs, p, ys, kind) && |names| == |ListedHoles(xs, kind)|
    ensures SameKinds(ListedHoles(xs, kind), ListedHoles(ys, kind))
    ensures FinishItems(o, FillListed(xs, kind, names)) == FinishItems(p, FillListed(ys, kind, names))
  {
    hide FinishText, GoodOrigin, AlikePart, FillPart, NamesLike, FinishJson;
    if xs != [] {
      var a, b := ListedPart(xs[0], kind), ListedPart(ys[0], kind);
      var k := |HoleOf(a)|;
      NamesLikeCut(names, k);
      PartAgrees(o, a, xs[0], p, b, ys[0], names[..k]);
      ListedAgree(o, xs[1..], p, ys[1..], kind, names[k..]);
      KindsAppend(HoleOf(a), ListedHoles(xs[1..], kind), HoleOf(b), ListedHoles(ys[1..], kind));
      FinishCons(o, FillPart(a, names[..k], xs[0]), FillListed(xs[1..], kind, names[k..]));
      FinishCons(p, FillPart(b, names[..k], ys[0]), FillListed(ys[1..], kind, names[k..]));
    }
  }

  lemma {:induction false} FinishCons(o: string, v: Json, rest: seq<Json>)
    ensures FinishItems(o, [v] + rest) == [FinishJson(o, v)] + FinishItems(o, rest)
  {
    assert ([v] + rest)[1..] == rest;
  }

  lemma {:induction false} FinishFieldsCons(o: string, f: Field, rest: seq<Field>)
    ensures FinishFields(o, [f] + rest) == [Field(f.key, FinishJson(o, f.value))] + FinishFields(o, rest)
  {
    assert ([f] + rest)[1..] == rest;
  }

  lemma {:induction false} ItemsAgree(o: string, xs: seq<Json>, p: string, ys: seq<Json>, names: seq<string>)
    requires GoodOrigin(o) && GoodOrigin(p) && NamesLike(names) && AlikeItems(o, xs, p, ys)
    requires |names| == |ItemHoles(xs)|
    ensures SameKinds(ItemHoles(xs), ItemHoles(ys))
    ensures FinishItems(o, FillItems(xs, names)) == FinishItems(p, FillItems(ys, names))
    decreases xs, 0
  {
    hide Holes, Fill, Alike, FinishJson, GoodOrigin, NamesLike;
    if xs != [] {
      var k := |Holes(xs[0], None)|;
      NamesLikeCut(names, k);
      FillAgrees(o, xs[0], p, ys[0], None, names[..k]);
      ItemsAgree(o, xs[1..], p, ys[1..], names[k..]);
      KindsAppend(Holes(xs[0], None), ItemHoles(xs[1..]), Holes(ys[0], None), ItemHoles(ys[1..]));
      FinishCons(o, Fill(xs[0], None, names[..k]), FillItems(xs[1..], names[k..]));
      FinishCons(p, Fill(ys[0], None, names[..k]), FillItems(ys[1..], names[k..]));
    }
  }

  lemma {:induction false} FieldsAgree(o: string, fs: seq<Field>, p: string, gs: seq<Field>, names: seq<string>)
    requires GoodOrigin(o) && GoodOrigin(p) && NamesLike(names) && AlikeFields(o, fs, p, gs)
    requires |names| == |FieldHoles(fs)|
    ensures SameKinds(FieldHoles(fs), FieldHoles(gs))
    ensures FinishFields(o, FillFields(fs, names)) == FinishFields(p, FillFields(gs, names))
    decreases fs, 0
  {
    hide Holes, Fill, Alike, FinishJson, GoodOrigin, NamesLike;
    if fs != [] {
      var f, g, key := fs[0], gs[0], Some(fs[0].key);
      var k := |Holes(f.value, key)|;
      NamesLikeCut(names, k);
      FillAgrees(o, f.value, p, g.value, key, names[..k]);
      FieldsAgree(o, fs[1..], p, gs[1..], names[k..]);
      KindsAppend(Holes(f.value, key), FieldHoles(fs[1..]), Holes(g.value, key), FieldHoles(gs[1..]));
      FinishFieldsCons(o, Field(f.key, Fill(f.value, key, names[..k])), FillFields(fs[1..], names[k..]));
      FinishFieldsCons(p, Field(g.key, Fill(g.value, key, names[..k])), FillFields(gs[1..], names[k..]));
    }
  }

  // ---------------------------------------------------------------- what a recording reveals

  lemma {:induction false} CutsEqual(ns: seq<string>, ms: seq<string>, k: nat, l: nat)
    requires k <= |ns| && l <= |ms| && ns[..k] == ms[..l] && ns[k..] == ms[l..]
    ensures ns == ms
  {
    assert ns == ns[..k] + ns[k..] && ms == ms[..l] + ms[l..];
  }

  lemma {:induction false} HeadsAndTails<T>(x: T, xs: seq<T>, y: T, ys: seq<T>)
    requires [x] + xs == [y] + ys
    ensures x == y && xs == ys
  {
    assert ([x] + xs)[0] == x && ([y] + ys)[0] == y;
    assert xs == ([x] + xs)[1..] && ys == ([y] + ys)[1..];
  }

  /** Schema names: the finished text in front of the at-sign and the name behind it can be told apart. */
  lemma {:induction false} NamesReveal(o: string, s: string, p: string, t: string, n: string, m: string)
    requires GoodOrigin(o) && GoodOrigin(p) && NameLike(n) && NameLike(m)
    requires RegisteredPart(s, Some("name")).Some? && RegisteredPart(t, Some("name")).Some?
    requires FinishText(o, RegisteredPart(s, Some("name")).value.front + n)
          == FinishText(p, RegisteredPart(t, Some("name")).value.front + m)
    ensures FinishText(o, RegisteredPart(s, Some("name")).value.front)
         == FinishText(p, RegisteredPart(t, Some("name")).value.front) && n == m
  {
    hide FinishText, Split;
    var key := Some("name");
    assert Lookup(REGISTERED_KEYS, key).None?;
    var base, rest := NamePart(s);
    var base', rest' := NamePart(t);
    hide RegisteredPart;
    FinishFree(o, base);
    FinishFree(p, base');
    FinishBase(o, base, n);
    FinishBase(p, base', m);
    CutAtFirst(FinishText(o, base), FinishText(p, base'), n, m, '@');
  }

  lemma {:induction false} FinishBase(o: string, base: string, n: string)
    requires GoodOrigin(o) && NameLike(n)
    ensures FinishText(o, base + ['@'] + n) == FinishText(o, base) + (['@'] + n)
    ensures FinishText(o, base + ['@']) == FinishText(o, base) + ['@']
  {
    hide FinishText;
    FinishSlashFree(o, n);
    FinishSlashFree(o, []);
    assert base + ['@'] + n == base + (['@'] + n) && base + ['@'] == base + (['@'] + []);
    FinishAtSign(o, base, n);
    FinishAtSign(o, base, []);
    assert ['@'] + [] == ['@'];
  }

  /** A schema name with a revision is never mistaken for one without. */
  lemma {:induction false} NameIsNotPlain(o: string, s: string, p: string, t: string, n: string)
    requires GoodOrigin(o) && GoodOrigin(p) && NameLike(n)
    requires RegisteredPart(s, Some("name")).Some? && RegisteredPart(t, Some("name")).None?
    ensures FinishText(o, RegisteredPart(s, Some("name")).value.front + n) != FinishText(p, t)
  {
    hide FinishText, Split;
    var key := Some("name");
    assert Lookup(REGISTERED_KEYS, key).None?;
    var base, rest := NamePart(s);
    FinishFree(o, base);
    FinishBase(o, base, n);
    var left, right := FinishText(o, base) + (['@'] + n), FinishText(p, t);
    assert left[|FinishText(o, base)|] == '@';
    if '@' in t {
      var base', rest' := NamePart(t);
      FinishFree(p, base');
      FinishAtSign(p, base', rest');
      FinishSlashFree(p, []);
      if rest' != [] {
        assert rest' == [] + (['@'] + rest'[1..]);
        FinishAtSign(p, [], rest'[1..]);
      }
      if left == right { CutAtFirst(FinishText(o, base), FinishText(p, base'), n, FinishText(p, rest'), '@'); }
    } else {
      FinishFree(p, t);
    }
  }

  lemma {:induction false} StringsReveal(o: string, s: string, p: string, t: string, key: Option<string>,
                                         ns: seq<string>, ms: seq<string>)
    requires GoodOrigin(o) && GoodOrigin(p) && NamesLike(ns) && NamesLike(ms)
    requires |ns| == |HoleOf(RegisteredPart(s, key))| && |ms| == |HoleOf(RegisteredPart(t, key))|
    requires FinishJson(o, FillPart(RegisteredPart(s, key), ns, Str(s)))
          == FinishJson(p, FillPart(RegisteredPart(t, key), ms, Str(t)))
    ensures AlikePart(o, RegisteredPart(s, key), Str(s), p, RegisteredPart(t, key), Str(t)) && ns == ms
  {
    hide FinishText, GoodOrigin, NameLike;
    KindOfKey(s, t, key);
    if key == Some("name") {
      SchemaNamesReveal(o, s, p, t, ns, ms);
    } else {
      OtherStringsReveal(o, s, p, t, key, ns, ms);
    }
  }

  lemma {:induction false} SchemaNamesReveal(o: string, s: string, p: string, t: string, ns: seq<string>,
                                             ms: seq<string>)
    requires GoodOrigin(o) && GoodOrigin(p) && NamesLike(ns) && NamesLike(ms)
    requires |ns| == |HoleOf(RegisteredPart(s, Some("name")))| && |ms| == |HoleOf(RegisteredPart(t, Some("name")))|
    requires FinishJson(o, FillPart(RegisteredPart(s, Some("name")), ns, Str(s)))
          == FinishJson(p, FillPart(RegisteredPart(t, Some("name")), ms, Str(t)))
    ensures AlikePart(o, RegisteredPart(s, Some("name")), Str(s), p, RegisteredPart(t, Some("name")), Str(t))
    ensures ns == ms
  {
    hide FinishText, RegisteredPart, GoodOrigin, NameLike;
    KindOfKey(s, t, Some("name"));
    var a, b := RegisteredPart(s, Some("name")), RegisteredPart(t, Some("name"));
    if a.Some? && b.Some? {
      NamesReveal(o, s, p, t, ns[0], ms[0]);
    } else if a.Some? {
      NameIsNotPlain(o, s, p, t, ns[0]);
    } else if b.Some? {
      NameIsNotPlain(p, t, o, s, ms[0]);
    }
  }

  lemma {:induction false} OtherStringsReveal(o: string, s: string, p: string, t: string, key: Option<string>,
                                              ns: seq<string>, ms: seq<string>)
    requires GoodOrigin(o) && GoodOrigin(p) && NamesLike(ns) && NamesLike(ms) && key != Some("name")
    requires |ns| == |HoleOf(RegisteredPart(s, key))| && |ms| == |HoleOf(RegisteredPart(t, key))|
    requires FinishJson(o, FillPart(RegisteredPart(s, key), ns, Str(s)))
          == FinishJson(p, FillPart(RegisteredPart(t, key), ms, Str(t)))
    ensures AlikePart(o, RegisteredPart(s, key), Str(s), p, RegisteredPart(t, key), Str(t)) && ns == ms
  {
    hide FinishText, Split;
    KindOfKey(s, t, key);
    FinishSlashFree(o, []);
    FinishSlashFree(p, []);
    var a, b := RegisteredPart(s, key), RegisteredPart(t, key);
    if a.Some? { BareName(o, ns[0]); }
    if b.Some? { BareName(p, ms[0]); }
  }

  lemma {:induction false} BareName(o: string, n: string)
    requires GoodOrigin(o) && NameLike(n)
    ensures FinishText(o, [] + n) == n
  {
    assert [] + n == n;
    FinishSlashFree(o, n);
  }

  lemma {:induction false} KindOfKey(s: string, t: string, key: Option<string>)
    ensures RegisteredPart(s, key).Some? && RegisteredPart(t, key).Some? ==>
      RegisteredPart(s, key).value.kind == RegisteredPart(t, key).value.kind
  {
    hide Split;
    assert Lookup(REGISTERED_KEYS, Some("name")).None?;
  }

  /** What is not recorded as the time template keeps its constructor. */
  lemma {:induction false} UntimedFills(o: string, v: Json, key: Option<string>, ns: seq<string>)
    requires GoodOrigin(o) && |ns| == |Holes(v, key)| && !Timed(v, key)
    ensures var f := FinishJson(o, Fill(v, key, ns));
      && (IsTimeKey(key) ==> f != Str(TIME))
      && f.Arr? == v.Arr? && f.Obj? == v.Obj? && f.Str? == v.Str? && (!v.Arr? && !v.Obj? && !v.Str? ==> f == v)
  {
    hide RegisteredPart, Lookup, ListedPart, FillListed, FillItems, FillFields, ItemHoles, FieldHoles, ListedHoles,
      FinishItems, FinishFields, FinishText, IsTimeLike, GoodOrigin;
    if IsTimeKey(key) && v.Str? { TimeKeyString(o, v.s, key); }
  }

  /** Only a timed value gives the time template, and others keep their constructor. */
  lemma {:induction false} TimedReveals(o: string, v: Json, p: string, w: Json, key: Option<string>,
                                        ns: seq<string>, ms: seq<string>)
    requires GoodOrigin(o) && GoodOrigin(p) && |ns| == |Holes(v, key)| && |ms| == |Holes(w, key)|
    requires FinishJson(o, Fill(v, key, ns)) == FinishJson(p, Fill(w, key, ms))
    ensures Timed(v, key) <==> Timed(w, key)
    ensures !Timed(v, key) ==> (v.Arr? <==> w.Arr?) && (v.Obj? <==> w.Obj?) && (v.Str? <==> w.Str?)
    ensures !Timed(v, key) && !v.Arr? && !v.Obj? && !v.Str? ==> v == w
    ensures Timed(v, key) ==> ns == ms
  {
    hide FinishJson, Fill, Holes, Timed, GoodOrigin, IsTimeKey;
    if Timed(v, key) { TimedFills(o, v, key); } else { UntimedFills(o, v, key, ns); }
    if Timed(w, key) { TimedFills(p, w, key); } else { UntimedFills(p, w, key, ms); }
    if Timed(v, key) { TimedAtTimeKey(v, key); }
    if Timed(w, key) { TimedAtTimeKey(w, key); }
  }

  lemma TimedAtTimeKey(v: Json, key: Option<string>)
    requires Timed(v, key)
    ensures IsTimeKey(key)
  {}

  lemma {:induction false} TimeKeyString(o: string, s: string, key: Option<string>)
    requires GoodOrigin(o) && IsTimeKey(key) && s != TIME
    ensures RegisteredPart(s, key).None? && FinishText(o, s) != TIME
  {
    hide FinishText;
    TimeKeysRegisterNothing(s, key);
    if FinishText(o, s) == TIME { FinishedTime(o, s); }
  }

  /** Equal results come from alike values, filled with the same names. */
  lemma {:induction false} FillReveals(o: string, v: Json, p: string, w: Json, key: Option<string>,
                                       ns: seq<string>, ms: seq<string>)
    requires GoodOrigin(o) && GoodOrigin(p)
    requires |ns| == |Holes(v, key)| && |ms| == |Holes(w, key)| && NamesLike(ns) && NamesLike(ms)
    requires FinishJson(o, Fill(v, key, ns)) == FinishJson(p, Fill(w, key, ms))
    ensures Alike(o, v, p, w, key) && ns == ms
    decreases v, 1
  {
    hide IsTimeKey, RegisteredPart, Lookup, ListedPart, NamesLike, GoodOrigin, FinishText, FillPart, AlikePart;
    TimedReveals(o, v, p, w, key, ns, ms);
    if !Timed(v, key) {
      match v {
        case Arr(xs) =>
          var kind := Lookup(REGISTERED_ARRAYS, key);
          if kind.Some? {
            ListedReveal(o, xs, p, w.items, kind.value, ns, ms);
          } else {
            ItemsReveal(o, xs, p, w.items, ns, ms);
          }
        case Obj(fs) => FieldsReveal(o, fs, p, w.fields, ns, ms);
        case Str(s) => StringsReveal(o, s, p, w.s, key, ns, ms);
        case _ =>
      }
    }
  }

  lemma {:induction false} IdReveals(o: string, v: Json, p: string, w: Json, kind: string, ns: seq<string>,
                                     ms: seq<string>)
    requires GoodOrigin(o) && GoodOrigin(p) && NamesLike(ns) && NamesLike(ms)
    requires |ns| == |HoleOf(ListedPart(v, kind))| && |ms| == |HoleOf(ListedPart(w, kind))|
    requires FinishJson(o, FillPart(ListedPart(v, kind), ns, v)) == FinishJson(p, FillPart(ListedPart(w, kind), ms, w))
    ensures AlikePart(o, ListedPart(v, kind), v, p, ListedPart(w, kind), w) && ns == ms
  {
    hide FinishText, FinishItems, FinishFields;
    FinishSlashFree(o, []);
    FinishSlashFree(p, []);
    if ListedPart(v, kind).Some? { BareName(o, ns[0]); }
    if ListedPart(w, kind).Some? { BareName(p, ms[0]); }
  }

  lemma {:induction false} ListedReveal(o: string, xs: seq<Json>, p: string, ys: seq<Json>, kind: string,
                                        ns: seq<string>, ms: seq<string>)
    requires GoodOrigin(o) && GoodOrigin(p) && NamesLike(ns) && NamesLike(ms)
    requires |ns| == |ListedHoles(xs, kind)| && |ms| == |ListedHoles(ys, kind)|
    requires FinishItems(o, FillListed(xs, kind, ns)) == FinishItems(p, FillListed(ys, kind, ms))
    ensures AlikeListed(o, xs, p, ys, kind) && ns == ms
  {
    hide NamesLike, GoodOrigin, FinishJson, FillPart, AlikePart, ListedPart;
    if xs != [] && ys != [] {
      var a, b := ListedPart(xs[0], kind), ListedPart(ys[0], kind);
      var k, l := |HoleOf(a)|, |HoleOf(b)|;
      var x, y := FillPart(a, ns[..k], xs[0]), FillPart(b, ms[..l], ys[0]);
      var xr, yr := FillListed(xs[1..], kind, ns[k..]), FillListed(ys[1..], kind, ms[l..]);
      NamesLikeCut(ns, k);
      NamesLikeCut(ms, l);
      FinishCons(o, x, xr);
      FinishCons(p, y, yr);
      HeadsAndTails(FinishJson(o, x), FinishItems(o, xr), FinishJson(p, y), FinishItems(p, yr));
      IdReveals(o, xs[0], p, ys[0], kind, ns[..k], ms[..l]);
      ListedReveal(o, xs[1..], p, ys[1..], kind, ns[k..], ms[l..]);
      CutsEqual(ns, ms, k, l);
    }
  }

  lemma {:induction false} ItemsReveal(o: string, xs: seq<Json>, p: string, ys: seq<Json>, ns: seq<string>,
                                       ms: seq<string>)
    requires GoodOrigin(o) && GoodOrigin(p) && NamesLike(ns) && NamesLike(ms)
    requires |ns| == |ItemHoles(xs)| && |ms| == |ItemHoles(ys)|
    requires FinishItems(o, FillItems(xs, ns)) == FinishItems(p, FillItems(ys, ms))
    ensures AlikeItems(o, xs, p, ys) && ns == ms
    decreases xs, 0
  {
    hide NamesLike, GoodOrigin, Holes, Fill, Alike, FinishJson;
    if xs != [] && ys != [] {
      var k, l := |Holes(xs[0], None)|, |Holes(ys[0], None)|;
      var x, y := Fill(xs[0], None, ns[..k]), Fill(ys[0], None, ms[..l]);
      var xr, yr := FillItems(xs[1..], ns[k..]), FillItems(ys[1..], ms[l..]);
      NamesLikeCut(ns, k);
      NamesLikeCut(ms, l);
      FinishCons(o, x, xr);
      FinishCons(p, y, yr);
      HeadsAndTails(FinishJson(o, x), FinishItems(o, xr), FinishJson(p, y), FinishItems(p, yr));
      FillReveals(o, xs[0], p, ys[0], None, ns[..k], ms[..l]);
      ItemsReveal(o, xs[1..], p, ys[1..], ns[k..], ms[l..]);
      CutsEqual(ns, ms, k, l);
    }
  }

  lemma {:induction false} FieldsReveal(o: string, fs: seq<Field>, p: string, gs: seq<Field>, ns: seq<string>,
                                        ms: seq<string>)
    requires GoodOrigin(o) && GoodOrigin(p) && NamesLike(ns) && NamesLike(ms)
    requires |ns| == |FieldHoles(fs)| && |ms| == |FieldHoles(gs)|
    requires FinishFields(o, FillFields(fs, ns)) == FinishFields(p, FillFields(gs, ms))
    ensures AlikeFields(o, fs, p, gs) && ns == ms
    decreases fs, 0
  {
    hide NamesLike, GoodOrigin, Holes, Fill, Alike, FinishJson;
    if fs != [] && gs != [] {
      var f, g := fs[0], gs[0];
      var k, l := |Holes(f.value, Some(f.key))|, |Holes(g.value, Some(g.key))|;
      var x, y := Fill(f.value, Some(f.key), ns[..k]), Fill(g.value, Some(g.key), ms[..l]);
      var xr, yr := FillFields(fs[1..], ns[k..]), FillFields(gs[1..], ms[l..]);
      NamesLikeCut(ns, k);
      NamesLikeCut(ms, l);
      FinishFieldsCons(o, Field(f.key, x), xr);
      FinishFieldsCons(p, Field(g.key, y), yr);
      HeadsAndTails(Field(f.key, FinishJson(o, x)), FinishFields(o, xr),
                    Field(g.key, FinishJson(p, y)), FinishFields(p, yr));
      FillReveals(o, f.value, p, g.value, Some(f.key), ns[..k], ms[..l]);
      FieldsReveal(o, fs[1..], p, gs[1..], ns[k..], ms[l..]);
      CutsEqual(ns, ms, k, l);
    }
  }

  // ---------------------------------------------------------------- whole runs

  /** Everything a program registers, step by step. */
  function RunEvents(steps: seq<string>, vs: seq<Json>): (es: seq<Event>)
    requires |steps| == |vs|
    ensures |es| == |ItemHoles(vs)|
  {
    if vs == [] then [] else Tag(steps[0], Holes(vs[0], None)) + RunEvents(steps[1..], vs[1..])
  }

  /** What a program records: each step's value, normalised with the names that are known by then. */
  function Recorded(s: State, steps: seq<string>, vs: seq<Json>): seq<Json>
    requires |steps| == |vs|
    decreases |vs|
  {
    if vs == [] then []
    else
      var es := Tag(steps[0], Holes(vs[0], None));
      [Fill(vs[0], None, Names(s, es))] + Recorded(After(s, es), steps[1..], vs[1..])
  }

  lemma {:induction false} RecordedIsFilled(s: State, steps: seq<string>, vs: seq<Json>)
    requires |steps| == |vs|
    ensures Recorded(s, steps, vs) == FillItems(vs, Names(s, RunEvents(steps, vs)))
    decreases |vs|
  {
    hide Holes, Fill, After, NameAt;
    if vs != [] {
      var es, rest := Tag(steps[0], Holes(vs[0], None)), RunEvents(steps[1..], vs[1..]);
      NamesAppend(s, es, rest);
      RecordedIsFilled(After(s, es), steps[1..], vs[1..]);
      var names := Names(s, es + rest);
      assert names[..|es|] == Names(s, es) && names[|es|..] == Names(After(s, es), rest);
    }
  }

  predicate CleanHoles(hs: seq<Hole>) {
    forall i :: 0 <= i < |hs| ==> Free(hs[i].kind, ':') && Free(hs[i].kind, '/')
  }

  lemma {:induction false} KindsClean(v: Json, key: Option<string>)
    ensures CleanHoles(Holes(v, key))
    decreases v, 1
  {
    hide RegisteredPart;
    if !Blanked(v, key) {
      match v {
        case Arr(items) => if Lookup(REGISTERED_ARRAYS, key).Some? { ListedClean(items); } else { ItemsClean(items); }
        case Obj(fields) => FieldsClean(fields);
        case Str(s) => StringClean(s, key);
        case _ =>
      }
    }
  }

  const KINDS: set<string> := {"messageId", "ackId", "revisionId"}

  lemma {:induction false} KnownKinds(kind: string)
    requires kind in KINDS
    ensures Free(kind, ':') && Free(kind, '/')
  {}

  lemma {:induction false} StringClean(s: string, key: Option<string>)
    ensures CleanHoles(HoleOf(RegisteredPart(s, key)))
  {
    hide Split, Free;
    var part := RegisteredPart(s, key);
    if part.Some? {
      assert part.value.kind in KINDS;
      KnownKinds(part.value.kind);
    }
  }

  lemma {:induction false} ListedClean(items: seq<Json>)
    ensures CleanHoles(ListedHoles(items, "messageId"))
  {
    if items != [] { ListedClean(items[1..]); }
  }

  lemma {:induction false} ItemsClean(items: seq<Json>)
    ensures CleanHoles(ItemHoles(items))
    decreases items, 0
  {
    hide Holes, Free;
    if items != [] {
      KindsClean(items[0], None);
      ItemsClean(items[1..]);
    }
  }

  lemma {:induction false} FieldsClean(fields: seq<Field>)
    ensures CleanHoles(FieldHoles(fields))
    decreases fields, 0
  {
    hide Holes, Free;
    if fields != [] {
      KindsClean(fields[0].value, Some(fields[0].key));
      FieldsClean(fields[1..]);
    }
  }

  /** Step ids have no slash, which an origin is known by, and none is another one with a number appended. */
  ghost predicate CleanSteps(steps: seq<string>) {
    && (forall s :: s in steps ==> Free(s, '/'))
    && forall s, t :: s in steps && t in steps ==> !IsNumbered(s, t)
  }

  predicate SlashFree(es: seq<Event>) {
    forall i :: 0 <= i < |es| ==> Free(es[i].kind, '/') && Free(es[i].step, '/')
  }

  lemma {:induction false} EventsOf(steps: seq<string>, vs: seq<Json>)
    requires |steps| == |vs|
    ensures forall e :: e in RunEvents(steps, vs) ==> e.step in steps && Free(e.kind, ':') && Free(e.kind, '/')
  {
    hide Holes, Free;
    if vs != [] {
      KindsClean(vs[0], None);
      EventsOf(steps[1..], vs[1..]);
    }
  }

  lemma {:induction false} EventsClean(steps: seq<string>, vs: seq<Json>)
    requires |steps| == |vs| && CleanSteps(steps)
    ensures CleanEvents(RunEvents(steps, vs)) && SlashFree(RunEvents(steps, vs))
  {
    hide RunEvents, Free, IsNumbered;
    EventsOf(steps, vs);
  }

  lemma {:induction false} PushOriginClean(origin: string)
    ensures CleanOrigin(PushOrigin(origin)) && NameLike(PUSH_ORIGIN)
  {
    assert forall i :: 0 <= i < |PUSH_ORIGIN| ==> PUSH_ORIGIN[i] != '/' && PUSH_ORIGIN[i] != ':';
  }

  lemma {:induction false} NameIsNameLike(kind: string, step: string, n: nat)
    requires Free(kind, '/') && Free(step, '/')
    ensures NameLike(TemplateName(kind, step, n))
  {
    var digits := NatText(n);
    forall c | c in digits ensures c != '/' { assert IsDigit(c); }
    assert Free(Suffix(n), '/');
  }

  lemma {:induction false} NamesAreNameLike(origin: string, es: seq<Event>)
    requires CleanEvents(es) && SlashFree(es)
    ensures NamesLike(Names(Bound(PushOrigin(origin)), es))
  {
    hide NameAt, Bound, PushOrigin, NameLike, First;
    var o := PushOrigin(origin);
    PushOriginClean(origin);
    forall i | 0 <= i < |es| ensures NameLike(Names(Bound(o), es)[i]) {
      NamesClosedForm(o, es, i);
      var f := First(es, i);
      NameIsNameLike(es[f].kind, es[f].step, Calls(es, f + 1, Key(es[f])));
      var name := TemplateName(es[f].kind, es[f].step, Calls(es, f + 1, Key(es[f])));
      assert NameOf(o, es, i) == o.template || NameOf(o, es, i) == name;
      assert o.template == PUSH_ORIGIN by { OriginTemplate(origin); }
    }
  }

  lemma OriginTemplate(origin: string)
    ensures PushOrigin(origin).template == PUSH_ORIGIN
  {}

  function Placeholders(n: nat): (names: seq<string>)
    ensures |names| == n && NamesLike(names)
  {
    seq(n, i => "{")
  }

  lemma {:induction false} LabelsAgree(steps: seq<string>, o: string, vs: seq<Json>, p: string, ws: seq<Json>)
    requires |steps| == |vs| == |ws| && GoodOrigin(o) && GoodOrigin(p) && AlikeItems(o, vs, p, ws)
    ensures SameLabels(RunEvents(steps, vs), RunEvents(steps, ws))
  {
    hide Holes, Alike, Fill, GoodOrigin, FinishJson;
    if vs != [] {
      FillAgrees(o, vs[0], p, ws[0], None, Placeholders(|Holes(vs[0], None)|));
      LabelsAgree(steps[1..], o, vs[1..], p, ws[1..]);
    }
  }

  /** What a program leaves: its values walked, normalised and finished. */
  function Recording(steps: seq<string>, origin: string, values: seq<Json>): seq<Json>
    requires |steps| == |values|
  {
    FinishItems(origin, Recorded(Bound(PushOrigin(origin)), steps, WalkedItems(values)))
  }

  /** Walked values that are alike and register matching ids give the same recording. */
  lemma {:induction false} WalkedAgree(steps: seq<string>, o: string, vs: seq<Json>, p: string, ws: seq<Json>)
    requires |steps| == |vs| == |ws| && CleanSteps(steps) && GoodOrigin(o) && GoodOrigin(p)
    requires AlikeItems(o, vs, p, ws)
    requires SamePattern(PushOrigin(o), RunEvents(steps, vs), PushOrigin(p), RunEvents(steps, ws))
    ensures FinishItems(o, Recorded(Bound(PushOrigin(o)), steps, vs))
         == FinishItems(p, Recorded(Bound(PushOrigin(p)), steps, ws))
  {
    hide Recorded, AlikeItems, RunEvents, FillItems, CleanSteps, CleanEvents, SamePattern, SameLabels, ItemHoles, Bound,
      SlashFree, GoodOrigin, FinishItems, NamesLike, CleanOrigin;
    var es, fs := RunEvents(steps, vs), RunEvents(steps, ws);
    PushOriginClean(o);
    EventsClean(steps, vs);
    RecordedIsFilled(Bound(PushOrigin(o)), steps, vs);
    RecordedIsFilled(Bound(PushOrigin(p)), steps, ws);
    LabelsAgree(steps, o, vs, p, ws);
    SameNamesIff(PushOrigin(o), es, PushOrigin(p), fs);
    NamesAreNameLike(o, es);
    ItemsAgree(o, vs, p, ws, Names(Bound(PushOrigin(o)), es));
  }

  /** And only they do. */
  lemma {:induction false} WalkedReveal(steps: seq<string>, o: string, vs: seq<Json>, p: string, ws: seq<Json>)
    requires |steps| == |vs| == |ws| && CleanSteps(steps) && GoodOrigin(o) && GoodOrigin(p)
    requires FinishItems(o, Recorded(Bound(PushOrigin(o)), steps, vs))
          == FinishItems(p, Recorded(Bound(PushOrigin(p)), steps, ws))
    ensures AlikeItems(o, vs, p, ws)
    ensures SamePattern(PushOrigin(o), RunEvents(steps, vs), PushOrigin(p), RunEvents(steps, ws))
  {
    hide Recorded, AlikeItems, RunEvents, FillItems, CleanSteps, CleanEvents, SamePattern, SameLabels, ItemHoles, Bound,
      SlashFree, GoodOrigin, FinishItems, NamesLike, CleanOrigin;
    var es, fs := RunEvents(steps, vs), RunEvents(steps, ws);
    PushOriginClean(o);
    EventsClean(steps, vs);
    EventsClean(steps, ws);
    RecordedIsFilled(Bound(PushOrigin(o)), steps, vs);
    RecordedIsFilled(Bound(PushOrigin(p)), steps, ws);
    NamesAreNameLike(o, es);
    NamesAreNameLike(p, fs);
    ItemsReveal(o, vs, p, ws, Names(Bound(PushOrigin(o)), es), Names(Bound(PushOrigin(p)), fs));
    LabelsAgree(steps, o, vs, p, ws);
    SameNamesIff(PushOrigin(o), es, PushOrigin(p), fs);
  }

  // ---------------------------------------------------------------- key order

  /** As `Alike`, with objects compared key by key instead of in the order of the walk. */
  ghost predicate SameRun(o: string, v: Json, p: string, w: Json, key: Option<string>)
    decreases v
  {
    if Timed(v, key) || Timed(w, key) then Timed(v, key) && Timed(w, key)
    else match (v, w)
      case (Arr(xs), Arr(ys)) =>
        var kind := Lookup(REGISTERED_ARRAYS, key);
        if kind.Some? then AlikeListed(o, xs, p, ys, kind.value)
        else |xs| == |ys| && forall i :: 0 <= i < |xs| ==> SameRun(o, xs[i], p, ys[i], None)
      case (Obj(fs), Obj(gs)) =>
        && Keys(fs) == Keys(gs)
        && forall i, j :: 0 <= i < |fs| && 0 <= j < |gs| && fs[i].key == gs[j].key ==>
             SameRun(o, fs[i].value, p, gs[j].value, Some(fs[i].key))
      case (Str(s), Str(t)) => AlikePart(o, RegisteredPart(s, key), v, p, RegisteredPart(t, key), w)
      case _ => v == w
  }

  function KeyOf(f: Field): string { f.key }

  /** The keys of sorted fields are the sorted keys. */
  lemma {:induction false} SortedKeys(fs: seq<Field>)
    ensures Map(KeyOf, Sort(fs, FieldLe)) == Sort(Map(KeyOf, fs), StrLe)
  {
    SortMap(fs, KeyOf, FieldLe, StrLe);
  }

  lemma {:induction false} DistinctKeyCount(fs: seq<Field>, k: string)
    requires DistinctKeys(fs)
    ensures multiset(Map(KeyOf, fs))[k] == if k in Keys(fs) then 1 else 0
  {
    if fs != [] {
      var rest := fs[1..];
      DistinctKeyCount(rest, k);
      var ks := Map(KeyOf, fs);
      assert ks == [fs[0].key] + Map(KeyOf, rest);
      assert Keys(fs) == {fs[0].key} + Keys(rest) by { KeysCons(fs); }
      assert fs[0].key !in Keys(rest);
    }
  }

  lemma {:induction false} KeysCons(fs: seq<Field>)
    requires fs != []
    ensures Keys(fs) == {fs[0].key} + Keys(fs[1..])
  {
    forall k ensures k in Keys(fs) <==> k in {fs[0].key} + Keys(fs[1..]) {
      if k in Keys(fs) {
        var i :| 0 <= i < |fs| && fs[i].key == k;
        if i > 0 { assert fs[1..][i - 1].key == k; }
      }
      if k in Keys(fs[1..]) {
        var i :| 0 <= i < |fs[1..]| && fs[1..][i].key == k;
        assert fs[i + 1].key == k;
      }
    }
  }

  /** Objects with the same keys are walked in the same order. */
  lemma {:induction false} SameKeysSameOrder(fs: seq<Field>, gs: seq<Field>)
    requires DistinctKeys(fs) && DistinctKeys(gs)
    ensures Map(KeyOf, Sort(fs, FieldLe)) == Map(KeyOf, Sort(gs, FieldLe)) <==> Keys(fs) == Keys(gs)
  {
    hide Sort, Map, FieldLe, StrLe, Keys;
    SortedKeys(fs);
    SortedKeys(gs);
    var ks, ls := Map(KeyOf, fs), Map(KeyOf, gs);
    forall k ensures multiset(ks)[k] == (if k in Keys(fs) then 1 else 0)
                  && multiset(ls)[k] == (if k in Keys(gs) then 1 else 0)
    {
      DistinctKeyCount(fs, k);
      DistinctKeyCount(gs, k);
    }
    if Keys(fs) == Keys(gs) {
      assert multiset(ks) == multiset(ls);
      SortedStrings(ks, ls);
    }
    if Sort(ks, StrLe) == Sort(ls, StrLe) {
      SortPermutes(ks, StrLe);
      SortPermutes(ls, StrLe);
      forall k ensures k in Keys(fs) <==> k in Keys(gs) { assert multiset(ks)[k] == multiset(ls)[k]; }
    }
  }

  lemma {:induction false} SortedStrings(ks: seq<string>, ls: seq<string>)
    requires multiset(ks) == multiset(ls)
    ensures Sort(ks, StrLe) == Sort(ls, StrLe)
  {
    hide Sort, StrLe;
    StrLePreorder();
    forall a, b | a in ks && b in ks && StrLe(a, b) && StrLe(b, a) ensures a == b { StrLeAntisymmetric(a, b); }
    SortCanonical(ks, ls, StrLe);
  }

  /** Where a field lies among the sorted ones. */
  lemma {:induction false} SortedPosition(fs: seq<Field>, i: nat) returns (k: nat)
    requires i < |fs|
    ensures |Sort(fs, FieldLe)| == |fs| && k < |fs| && Sort(fs, FieldLe)[k] == fs[i]
  {
    SortPermutes(fs, FieldLe);
    var sorted := Sort(fs, FieldLe);
    SameMultisetSameSize(sorted, fs);
    assert fs[i] in multiset(fs) && fs[i] in sorted;
    k :| 0 <= k < |sorted| && sorted[k] == fs[i];
  }

  lemma {:induction false} OriginalPosition(fs: seq<Field>, k: nat) returns (i: nat)
    requires k < |Sort(fs, FieldLe)|
    ensures i < |fs| && Sort(fs, FieldLe)[k] == fs[i]
  {
    SortPermutes(fs, FieldLe);
    var sorted := Sort(fs, FieldLe);
    assert sorted[k] in multiset(sorted) && sorted[k] in fs;
    i :| 0 <= i < |fs| && fs[i] == sorted[k];
  }

  /** Position by position in key order, or key by key. */
  lemma {:induction false} FieldsByKey(fs: seq<Field>, gs: seq<Field>, rel: (Field, Field) -> bool)
    requires DistinctKeys(fs) && DistinctKeys(gs)
    ensures var f, g := Sort(fs, FieldLe), Sort(gs, FieldLe);
      (|f| == |g| && forall k :: 0 <= k < |f| && k < |g| ==> f[k].key == g[k].key && rel(f[k], g[k])) <==>
      (Keys(fs) == Keys(gs)
       && forall i, j :: 0 <= i < |fs| && 0 <= j < |gs| && fs[i].key == gs[j].key ==> rel(fs[i], gs[j]))
  {
    var f, g := Sort(fs, FieldLe), Sort(gs, FieldLe);
    if |f| == |g| && forall k :: 0 <= k < |f| ==> f[k].key == g[k].key && rel(f[k], g[k]) {
      PositionsToKeys(fs, gs, rel);
    }
    if Keys(fs) == Keys(gs) && forall i, j :: 0 <= i < |fs| && 0 <= j < |gs| && fs[i].key == gs[j].key ==>
      rel(fs[i], gs[j]) {
      KeysToPositions(fs, gs, rel);
    }
  }

  lemma {:induction false} PositionsToKeys(fs: seq<Field>, gs: seq<Field>, rel: (Field, Field) -> bool)
    requires DistinctKeys(fs) && DistinctKeys(gs)
    requires var f, g := Sort(fs, FieldLe), Sort(gs, FieldLe);
      |f| == |g| && forall k :: 0 <= k < |f| ==> f[k].key == g[k].key && rel(f[k], g[k])
    ensures Keys(fs) == Keys(gs)
    ensures forall i, j :: 0 <= i < |fs| && 0 <= j < |gs| && fs[i].key == gs[j].key ==> rel(fs[i], gs[j])
  {
    hide Sort, Keys, FieldLe;
    var f, g := Sort(fs, FieldLe), Sort(gs, FieldLe);
    assert Map(KeyOf, f) == Map(KeyOf, g);
    SameKeysSameOrder(fs, gs);
    forall i, j | 0 <= i < |fs| && 0 <= j < |gs| && fs[i].key == gs[j].key ensures rel(fs[i], gs[j]) {
      var k := SortedPosition(fs, i);
      var m := OriginalPosition(gs, k);
      assert g[k].key == fs[i].key;
      assert m == j;
    }
  }

  lemma {:induction false} KeysToPositions(fs: seq<Field>, gs: seq<Field>, rel: (Field, Field) -> bool)
    requires DistinctKeys(fs) && DistinctKeys(gs) && Keys(fs) == Keys(gs)
    requires forall i, j :: 0 <= i < |fs| && 0 <= j < |gs| && fs[i].key == gs[j].key ==> rel(fs[i], gs[j])
    ensures var f, g := Sort(fs, FieldLe), Sort(gs, FieldLe);
      |f| == |g| && forall k :: 0 <= k < |f| ==> f[k].key == g[k].key && rel(f[k], g[k])
  {
    hide Sort, Keys, FieldLe;
    var f, g := Sort(fs, FieldLe), Sort(gs, FieldLe);
    SameKeysSameOrder(fs, gs);
    assert |Map(KeyOf, f)| == |Map(KeyOf, g)|;
    forall k | 0 <= k < |f| ensures f[k].key == g[k].key && rel(f[k], g[k]) {
      assert Map(KeyOf, f)[k] == Map(KeyOf, g)[k];
      var i := OriginalPosition(fs, k);
      var j := OriginalPosition(gs, k);
    }
  }

  lemma {:induction false} AlikeFieldsAt(o: string, fs: seq<Field>, p: string, gs: seq<Field>)
    ensures AlikeFields(o, fs, p, gs) <==> |fs| == |gs| && forall k :: 0 <= k < |fs| && k < |gs| ==>
      fs[k].key == gs[k].key && Alike(o, fs[k].value, p, gs[k].value, Some(fs[k].key))
    decreases |fs|
  {
    hide Alike;
    if fs != [] && gs != [] {
      AlikeFieldsAt(o, fs[1..], p, gs[1..]);
      assert forall k :: 0 < k < |fs| ==> fs[k] == fs[1..][k - 1];
      assert forall k :: 0 < k < |gs| ==> gs[k] == gs[1..][k - 1];
    }
  }

  lemma {:induction false} AlikeItemsAt(o: string, xs: seq<Json>, p: string, ys: seq<Json>)
    ensures AlikeItems(o, xs, p, ys) <==>
      |xs| == |ys| && forall k :: 0 <= k < |xs| && k < |ys| ==> Alike(o, xs[k], p, ys[k], None)
    decreases |xs|
  {
    hide Alike;
    if xs != [] && ys != [] {
      AlikeItemsAt(o, xs[1..], p, ys[1..]);
      assert forall k :: 0 < k < |xs| ==> xs[k] == xs[1..][k - 1];
      assert forall k :: 0 < k < |ys| ==> ys[k] == ys[1..][k - 1];
    }
  }

  predicate AlikeWalked(o: string, f: Field, p: string, g: Field) {
    Alike(o, Walked(f.value, Some(f.key)), p, Walked(g.value, Some(g.key)), Some(f.key))
  }

  lemma {:induction false} ObjectsAlike(o: string, fs: seq<Field>, p: string, gs: seq<Field>)
    requires DistinctKeys(fs) && DistinctKeys(gs)
    ensures AlikeFields(o, Map(WalkedField, Sort(fs, FieldLe)), p, Map(WalkedField, Sort(gs, FieldLe))) <==>
      Keys(fs) == Keys(gs)
      && forall i, j :: 0 <= i < |fs| && 0 <= j < |gs| && fs[i].key == gs[j].key ==> AlikeWalked(o, fs[i], p, gs[j])
  {
    hide Alike, Walked, Sort, Keys, Map, FieldLe;
    var f, g := Sort(fs, FieldLe), Sort(gs, FieldLe);
    var rel := (x: Field, y: Field) => AlikeWalked(o, x, p, y);
    FieldsByKey(fs, gs, rel);
    AlikeFieldsAt(o, Map(WalkedField, f), p, Map(WalkedField, g));
  }

  /** Key order does not matter: comparing the walked values is comparing the values key by key. */
  lemma {:induction false} KeyOrderIrrelevant(o: string, v: Json, p: string, w: Json, key: Option<string>)
    requires Proper(v) && Proper(w)
    ensures SameRun(o, v, p, w, key) <==> Alike(o, Walked(v, key), p, Walked(w, key), key)
    decreases v
  {
    hide Timed, RegisteredPart, Lookup, AlikePart, AlikeListed, AlikeItems, AlikeFields, Sort, Map, Keys, FieldLe;
    TimedWalked(v, key);
    TimedWalked(w, key);
    if !Timed(v, key) && !Timed(w, key) {
      match (v, w) {
        case (Arr(xs), Arr(ys)) =>
          if Lookup(REGISTERED_ARRAYS, key).None? {
            ArraysByKey(o, xs, p, ys, key);
            forall i | 0 <= i < |xs| && i < |ys|
              ensures SameRun(o, xs[i], p, ys[i], None) <==> Alike(o, Walked(xs[i], None), p, Walked(ys[i], None), None)
            {
              KeyOrderIrrelevant(o, xs[i], p, ys[i], None);
            }
          }
        case (Obj(fs), Obj(gs)) =>
          WalkedFields(fs, key);
          WalkedFields(gs, key);
          ObjectsAlike(o, fs, p, gs);
          forall i, j | 0 <= i < |fs| && 0 <= j < |gs| && fs[i].key == gs[j].key
            ensures SameRun(o, fs[i].value, p, gs[j].value, Some(fs[i].key)) <==> AlikeWalked(o, fs[i], p, gs[j])
          {
            KeyOrderIrrelevant(o, fs[i].value, p, gs[j].value, Some(fs[i].key));
          }
        case _ => WalkedShape(v, key); WalkedShape(w, key);
      }
    }
  }

  lemma {:induction false} ArraysByKey(o: string, xs: seq<Json>, p: string, ys: seq<Json>, key: Option<string>)
    requires Lookup(REGISTERED_ARRAYS, key).None?
    ensures Walked(Arr(xs), key).Arr? && Walked(Arr(ys), key).Arr?
    ensures AlikeItems(o, Walked(Arr(xs), key).items, p, Walked(Arr(ys), key).items) <==>
      |xs| == |ys|
      && forall i :: 0 <= i < |xs| && i < |ys| ==> Alike(o, Walked(xs[i], None), p, Walked(ys[i], None), None)
  {
    hide Alike, AlikeItems;
    var a, b := Walked(Arr(xs), key).items, Walked(Arr(ys), key).items;
    assert |a| == |xs| && forall i :: 0 <= i < |xs| ==> a[i] == Walked(xs[i], None);
    assert |b| == |ys| && forall i :: 0 <= i < |ys| ==> b[i] == Walked(ys[i], None);
    AlikeItemsAt(o, a, p, b);
    hide Walked;
    if AlikeItems(o, a, p, b) {
      forall i | 0 <= i < |xs| && i < |ys| ensures Alike(o, Walked(xs[i], None), p, Walked(ys[i], None), None) {
        assert Alike(o, a[i], p, b[i], None);
      }
    }
  }

  lemma {:induction false} WalkedShape(v: Json, key: Option<string>)
    ensures v.Arr? == Walked(v, key).Arr? && v.Obj? == Walked(v, key).Obj?
    ensures !v.Arr? && !v.Obj? ==> Walked(v, key) == v
  {}

  lemma {:induction false} TimedWalked(v: Json, key: Option<string>)
    ensures Timed(Walked(v, key), key) <==> Timed(v, key)
  {
    hide Blanked, Walked;
    BlankedWalked(v, key);
    WalkedShape(v, key);
  }

  // ---------------------------------------------------------------- the theorem

  /** What may differ between two runs that leave the same recording. */
  ghost predicate SameRuns(steps: seq<string>, o: string, vs: seq<Json>, p: string, ws: seq<Json>)
    requires |steps| == |vs| == |ws|
  {
    && (forall i :: 0 <= i < |vs| ==> SameRun(o, vs[i], p, ws[i], None))
    && SamePattern(PushOrigin(o), RunEvents(steps, WalkedItems(vs)), PushOrigin(p), RunEvents(steps, WalkedItems(ws)))
  }

  lemma {:induction false} WalkedRunsAlike(o: string, vs: seq<Json>, p: string, ws: seq<Json>)
    requires |vs| == |ws| && (forall i :: 0 <= i < |vs| ==> Proper(vs[i]) && Proper(ws[i]))
    ensures AlikeItems(o, WalkedItems(vs), p, WalkedItems(ws)) <==>
      forall i :: 0 <= i < |vs| ==> SameRun(o, vs[i], p, ws[i], None)
  {
    hide Alike, AlikeItems, SameRun, Walked, Proper;
    AlikeItemsAt(o, WalkedItems(vs), p, WalkedItems(ws));
    forall i | 0 <= i < |vs|
      ensures SameRun(o, vs[i], p, ws[i], None) <==> Alike(o, Walked(vs[i], None), p, Walked(ws[i], None), None)
    {
      KeyOrderIrrelevant(o, vs[i], p, ws[i], None);
    }
  }

  /**
   * Two runs leave the same recording if and only if their values differ only in key order, registered ids, times and
   * the push origin, and the same ids come back at the same places.
   */
  lemma {:induction false} RecordingsAgree(steps: seq<string>, o: string, vs: seq<Json>, p: string, ws: seq<Json>)
    requires |steps| == |vs| == |ws| && CleanSteps(steps) && GoodOrigin(o) && GoodOrigin(p)
    requires forall i :: 0 <= i < |vs| ==> Proper(vs[i]) && Proper(ws[i])
    ensures Recording(steps, o, vs) == Recording(steps, p, ws) <==> SameRuns(steps, o, vs, p, ws)
  {
    hide AlikeItems, SameRun, Recorded, FinishItems, RunEvents, SamePattern, CleanSteps, GoodOrigin, Proper;
    hide WalkedItems;
    var xs, ys := WalkedItems(vs), WalkedItems(ws);
    WalkedRunsAlike(o, vs, p, ws);
    if SameRuns(steps, o, vs, p, ws) { WalkedAgree(steps, o, xs, p, ys); }
    if Recording(steps, o, vs) == Recording(steps, p, ws) { WalkedReveal(steps, o, xs, p, ys); }
  }

  /** A string that is literally the time template is recorded like a time, although it is none. */
  lemma {:induction false} TimeLiteralIsConfused(o: string, s: string)
    requires GoodOrigin(o) && IsTimestamp(s)
    ensures var key := Some("publishTime");
      && Holes(Str(TIME), key) == Holes(Str(s), key) == []
      && FinishJson(o, Fill(Str(TIME), key, [])) == FinishJson(o, Fill(Str(s), key, []))
      && Blanked(Str(s), key) && !Blanked(Str(TIME), key)
  {
    hide Split, IsTimestamp, FinishJson, Fill, Holes;
    var key := Some("publishTime");
    assert !IsTimestamp(TIME) by { TimeIsNoTimestamp(); }
    assert IsTimeLike(Str(s)) && !IsTimeLike(Str(TIME));
    TimedFills(o, Str(s), key);
    TimedFills(o, Str(TIME), key);
  }

  lemma {:induction false} TimeIsNoTimestamp()
    ensures !IsTimestamp(TIME)
  {
    assert |TIME| == 8;
  }

  /** A program's values, one per step, recorded with one registry that starts with the push origin bound. */
  method RecordSteps(steps: seq<string>, values: seq<Json>, constants: set<string>, origin: string)
    returns (output: seq<Json>)
    requires |steps| == |values|
    ensures output == Recording(steps, origin, values)
  {
    hide After, NameAt, Walked, Holes, Fill, FinishJson;
    var registry := new Registry(constants);
    registry.Bind(PUSH_ORIGIN, origin);
    ghost var vs := WalkedItems(values);
    ghost var all := Recorded(Bound(PushOrigin(origin)), steps, vs);
    output := [];
    var i := 0;
    assert vs[0..] == vs && steps[0..] == steps;
    while i < |values|
      invariant 0 <= i <= |values|
      invariant output + FinishItems(origin, Recorded(registry.Contents(), steps[i..], vs[i..])) ==
        FinishItems(origin, all)
    {
      assert steps[i..][1..] == steps[i + 1..] && vs[i..][1..] == vs[i + 1..];
      var value := NormalizeValue(values[i], steps[i], registry, None);
      FinishCons(origin, value, Recorded(registry.Contents(), steps[i + 1..], vs[i + 1..]));
      output := output + [FinishJson(origin, value)];
      i := i + 1;
    }
  }
}
