/** The Pub/Sub recorder: the walk that registers ids, blanks times and puts names in, and `finish`. */
module PubsubNormalize {
  import opened Options
  import opened Sorting
  import opened Text
  import opened JsonTree
  import opened Rewriting
  import opened Canonical
  import opened Naming
  import opened NamingRuns

  const TIME_KEYS: set<string> := {"publishTime", "publish_time", "expireTime", "revisionCreateTime", "createTime",
                                   "updateTime", "CloudPubSubDeadLetterSourceTopicPublishTime"}
  const REGISTERED_KEYS: map<string, string> := map[
    "messageId" := "messageId", "message_id" := "messageId", "ackId" := "ackId", "revisionId" := "revisionId",
    "firstRevisionId" := "revisionId", "lastRevisionId" := "revisionId",
    "googclient_schemarevisionid" := "revisionId"]
  const REGISTERED_ARRAYS: map<string, string> := map["messageIds" := "messageId"]
  const TIME := "{{time}}"

  function Lookup(table: map<string, string>, key: Option<string>): Option<string> {
    if key.Some? && key.value in table then Some(table[key.value]) else None
  }

  /** `/^\d{4}-\d{2}-\d{2}T/` */
  predicate IsTimestamp(s: string) {
    |s| >= 11 && AllDigits(s[..4]) && s[4] == '-' && AllDigits(s[5..7]) && s[7] == '-' && AllDigits(s[8..10])
      && s[10] == 'T'
  }

  predicate IsTimeLike(v: Json) {
    match v
    case Str(s) => IsTimestamp(s)
    case Obj(fields) => fields != [] && forall i :: 0 <= i < |fields| ==> fields[i].key in {"seconds", "nanos"}
    case _ => false
  }

  /** The value is replaced by the time template. */
  predicate Blanked(v: Json, key: Option<string>) {
    && key.Some?
    && ((key.value in TIME_KEYS && IsTimeLike(v)) || (key.value == "nextPageToken" && v.Str? && IsTimestamp(v.s)))
  }

  /** The part of a string that is registered, and the text kept in front of it. */
  datatype Part = Part(front: string, kind: string, raw: string)

  function RegisteredPart(s: string, key: Option<string>): Option<Part> {
    var kind := Lookup(REGISTERED_KEYS, key);
    if kind.Some? && s != [] then Some(Part([], kind.value, s))
    else if key == Some("name") && '@' in s then
      var parts := Split(s, ['@']);
      if |parts| > 1 && parts[1] != [] then Some(Part(parts[0] + ['@'], "revisionId", parts[1])) else None
    else None
  }

  /** An element of an array of ids. */
  function ListedPart(v: Json, kind: string): Option<Part> {
    if v.Str? && v.s != [] then Some(Part([], kind, v.s)) else None
  }

  datatype Hole = Hole(kind: string, raw: string)

  function HoleOf(part: Option<Part>): seq<Hole> {
    match part case None => [] case Some(p) => [Hole(p.kind, p.raw)]
  }

  /** The values that are registered, in the order of the walk. */
  function Holes(v: Json, key: Option<string>): seq<Hole>
    decreases v, 1
  {
    if Blanked(v, key) then []
    else match v
      case Arr(items) =>
        var kind := Lookup(REGISTERED_ARRAYS, key);
        if kind.Some? then ListedHoles(items, kind.value) else ItemHoles(items)
      case Obj(fields) => FieldHoles(fields)
      case Str(s) => HoleOf(RegisteredPart(s, key))
      case _ => []
  }

  function ListedHoles(items: seq<Json>, kind: string): seq<Hole> {
    if items == [] then [] else HoleOf(ListedPart(items[0], kind)) + ListedHoles(items[1..], kind)
  }

  function ItemHoles(items: seq<Json>): seq<Hole>
    decreases items, 0
  {
    if items == [] then [] else Holes(items[0], None) + ItemHoles(items[1..])
  }

  function FieldHoles(fields: seq<Field>): seq<Hole>
    decreases fields, 0
  {
    if fields == [] then [] else Holes(fields[0].value, Some(fields[0].key)) + FieldHoles(fields[1..])
  }

  // ---------------------------------------------------------------- putting the names in

  function FillPart(part: Option<Part>, names: seq<string>, v: Json): Json
    requires |names| == |HoleOf(part)|
  {
    match part case None => v case Some(p) => Str(p.front + names[0])
  }

  function Fill(v: Json, key: Option<string>, names: seq<string>): Json
    requires |names| == |Holes(v, key)|
    decreases v, 1
  {
    if Blanked(v, key) then Str(TIME)
    else match v
      case Arr(items) =>
        var kind := Lookup(REGISTERED_ARRAYS, key);
        Arr(if kind.Some? then FillListed(items, kind.value, names) else FillItems(items, names))
      case Obj(fields) => Obj(FillFields(fields, names))
      case Str(s) => FillPart(RegisteredPart(s, key), names, v)
      case _ => v
  }

  function FillListed(items: seq<Json>, kind: string, names: seq<string>): seq<Json>
    requires |names| == |ListedHoles(items, kind)|
  {
    if items == [] then []
    else
      var k := |HoleOf(ListedPart(items[0], kind))|;
      [FillPart(ListedPart(items[0], kind), names[..k], items[0])] + FillListed(items[1..], kind, names[k..])
  }

  function FillItems(items: seq<Json>, names: seq<string>): seq<Json>
    requires |names| == |ItemHoles(items)|
    decreases items, 0
  {
    if items == [] then []
    else
      var k := |Holes(items[0], None)|;
      [Fill(items[0], None, names[..k])] + FillItems(items[1..], names[k..])
  }

  function FillFields(fields: seq<Field>, names: seq<string>): seq<Field>
    requires |names| == |FieldHoles(fields)|
    decreases fields, 0
  {
    if fields == [] then []
    else
      var f := fields[0];
      var k := |Holes(f.value, Some(f.key))|;
      [Field(f.key, Fill(f.value, Some(f.key), names[..k]))] + FillFields(fields[1..], names[k..])
  }

  // ---------------------------------------------------------------- finish

  const PUSH_ORIGIN := "{{pushOrigin}}"

  /** The push endpoint's origin: bound before the first step, and replaced inside every recorded string. */
  function PushOrigin(origin: string): Origin { Origin(PUSH_ORIGIN, origin) }

  function ReplacePair(o: Origin, text: string): string {
    if o.raw == [] then text else Rewrite(text, o.raw, o.template, false, false)
  }

  function ReplaceEach(os: seq<Origin>, text: string): string
    decreases |os|
  {
    if os == [] then text else ReplaceEach(os[1..], ReplacePair(os[0], text))
  }

  /** The loop of `finish` over its replacements. */
  method ReplaceOrigins(os: seq<Origin>, text: string) returns (output: string)
    ensures output == ReplaceEach(os, text)
  {
    hide Rewrite, Includes, Split, JoinWith;
    output := text;
    var i := 0;
    assert os[0..] == os;
    while i < |os|
      invariant 0 <= i <= |os| && ReplaceEach(os[i..], output) == ReplaceEach(os, text)
    {
      var o := os[i];
      assert os[i..][1..] == os[i + 1..];
      if o.raw != [] && Includes(output, o.raw) {
        SplitJoin(output, o.raw, o.template, false);
        output := JoinWith(Split(output, o.raw), o.template);
      } else if o.raw != [] {
        NothingToReplace(output, o);
      }
      i := i + 1;
    }
  }

  lemma {:induction false} NothingToReplace(text: string, o: Origin)
    requires o.raw != [] && !Includes(text, o.raw)
    ensures ReplacePair(o, text) == text
  {
    assert text[0..] == text;
    RewriteUntouched(text, 0, o.raw, o.template, false);
  }

  /** What a recorded string becomes. */
  function FinishText(origin: string, text: string): string { ReplacePair(PushOrigin(origin), text) }

  lemma {:induction false} FinishIsOnePair(origin: string, text: string)
    ensures ReplaceEach([PushOrigin(origin)], text) == FinishText(origin, text)
  {
    assert [PushOrigin(origin)][1..] == [];
  }

  function FinishJson(origin: string, v: Json): Json
    decreases v, 1
  {
    match v
    case Str(text) => Str(FinishText(origin, text))
    case Arr(items) => Arr(FinishItems(origin, items))
    case Obj(fields) => Obj(FinishFields(origin, fields))
    case _ => v
  }

  function FinishItems(origin: string, items: seq<Json>): seq<Json>
    decreases items, 0
  {
    if items == [] then [] else [FinishJson(origin, items[0])] + FinishItems(origin, items[1..])
  }

  function FinishFields(origin: string, fields: seq<Field>): seq<Field>
    decreases fields, 0
  {
    if fields == [] then []
    else [Field(fields[0].key, FinishJson(origin, fields[0].value))] + FinishFields(origin, fields[1..])
  }

  // ---------------------------------------------------------------- schema names

  /** A schema name is cut at its first `@`; what is registered is the next part. */
  lemma PartOfName(base: string, rest: string)
    requires Free(base, '@') && Split(rest, ['@'])[0] != []
    ensures RegisteredPart(base + (['@'] + rest), Some("name")) ==
      Some(Part(base + ['@'], "revisionId", Split(rest, ['@'])[0]))
  {
    var s := base + (['@'] + rest);
    SplitFree(base, ['@'] + rest);
    SplitAtSign(rest);
    hide Split;
    assert base + [] == base;
    assert s[|base|] == '@';
    assert Lookup(REGISTERED_KEYS, Some("name")).None?;
  }

  /** Whatever follows a second `@` in a schema name is lost: both names give the same recording. */
  lemma TrailingTextIsLost(base: string, revision: string, rest: string)
    requires Free(base, '@') && Free(revision, '@') && revision != []
    ensures RegisteredPart(base + (['@'] + (revision + (['@'] + rest))), Some("name"))
         == RegisteredPart(base + (['@'] + revision), Some("name"))
         == Some(Part(base + ['@'], "revisionId", revision))
  {
    SplitFree(revision, []);
    SplitFree(revision, ['@'] + rest);
    SplitAtSign(rest);
    assert revision + [] == revision;
    hide Split, RegisteredPart;
    PartOfName(base, revision);
    PartOfName(base, revision + (['@'] + rest));
  }

  lemma {:induction false} SplitAtSign(rest: string)
    ensures Split(['@'] + rest, ['@']) == [[]] + Split(rest, ['@'])
  {
    assert (['@'] + rest)[1..] == rest;
  }

  /** Text without an `@` goes to the first part. */
  lemma {:induction false} SplitFree(a: string, rest: string)
    requires Free(a, '@')
    ensures Split(a + rest, ['@']) == [a + Split(rest, ['@'])[0]] + Split(rest, ['@'])[1..]
    decreases |a|
  {
    var tail := Split(rest, ['@']);
    if a == [] {
      assert a + rest == rest && [] + tail[0] == tail[0];
    } else {
      assert a[0] in a && (a + rest)[0] == a[0];
      assert (a + rest)[1..] == a[1..] + rest;
      assert forall c :: c in a[1..] ==> c in a;
      SplitFree(a[1..], rest);
      assert [a[0]] + (a[1..] + tail[0]) == a + tail[0];
    }
  }

  // ---------------------------------------------------------------- the walk itself

  /** The value as it is walked: objects in key order, except inside arrays of ids, which are not descended into. */
  function Walked(v: Json, key: Option<string>): Json {
    match v
    case Arr(items) =>
      if Lookup(REGISTERED_ARRAYS, key).Some? then v
      else Arr(seq(|items|, i requires 0 <= i < |items| => Walked(items[i], None)))
    case Obj(fields) =>
      Obj(Sort(seq(|fields|, i requires 0 <= i < |fields| =>
        Field(fields[i].key, Walked(fields[i].value, Some(fields[i].key)))), FieldLe))
    case _ => v
  }

  function WalkedField(f: Field): Field { Field(f.key, Walked(f.value, Some(f.key))) }

  /** Sorting the keys first and normalising the values in that order is walking the sorted value. */
  lemma WalkedFields(fields: seq<Field>, key: Option<string>)
    ensures Walked(Obj(fields), key) == Obj(Map(WalkedField, Sort(fields, FieldLe)))
  {
    hide Walked;
    SortMap(fields, WalkedField, FieldLe, FieldLe);
    WalkedObject(fields, Map(WalkedField, fields), key);
  }

  lemma WalkedObject(fields: seq<Field>, mapped: seq<Field>, key: Option<string>)
    requires |mapped| == |fields| && forall i :: 0 <= i < |fields| ==> mapped[i] == WalkedField(fields[i])
    ensures Walked(Obj(fields), key) == Obj(Sort(mapped, FieldLe))
  {
    hide Sort;
    assert seq(|fields|, i requires 0 <= i < |fields| =>
        Field(fields[i].key, Walked(fields[i].value, Some(fields[i].key)))) == mapped;
  }

  lemma BlankedWalked(v: Json, key: Option<string>)
    ensures Blanked(Walked(v, key), key) <==> Blanked(v, key)
  {
    if v.Obj? {
      hide Walked, IsTimeLike, Sort, Map;
      WalkedFields(v.fields, key);
      var sorted := Sort(v.fields, FieldLe);
      SortPermutes(v.fields, FieldLe);
      TimeKeysPermuted(v.fields, sorted);
      TimeKeysMapped(sorted);
    }
  }

  lemma TimeKeysKept(fs: seq<Field>, gs: seq<Field>)
    requires multiset(fs) == multiset(gs) && IsTimeLike(Obj(fs))
    ensures IsTimeLike(Obj(gs))
  {
    assert fs[0] in multiset(fs) && fs[0] in gs;
    forall i | 0 <= i < |gs| ensures gs[i].key in {"seconds", "nanos"} {
      assert gs[i] in multiset(gs) && gs[i] in fs;
    }
  }

  lemma TimeKeysPermuted(fs: seq<Field>, gs: seq<Field>)
    requires multiset(fs) == multiset(gs)
    ensures IsTimeLike(Obj(fs)) <==> IsTimeLike(Obj(gs))
  {
    if IsTimeLike(Obj(fs)) { TimeKeysKept(fs, gs); }
    if IsTimeLike(Obj(gs)) { TimeKeysKept(gs, fs); }
  }

  lemma {:induction false} TimeKeysMapped(fs: seq<Field>)
    ensures IsTimeLike(Obj(Map(WalkedField, fs))) <==> IsTimeLike(Obj(fs))
  {
    var gs := Map(WalkedField, fs);
    assert forall i :: 0 <= i < |fs| ==> gs[i].key == fs[i].key;
  }

  function Tag(step: string, holes: seq<Hole>): (es: seq<Event>)
    ensures |es| == |holes|
    ensures forall i :: 0 <= i < |es| ==> es[i] == Event(holes[i].kind, step, holes[i].raw)
  {
    seq(|holes|, i requires 0 <= i < |holes| => Event(holes[i].kind, step, holes[i].raw))
  }

  lemma TagAppend(step: string, a: seq<Hole>, b: seq<Hole>)
    ensures Tag(step, a + b) == Tag(step, a) + Tag(step, b)
  {}

  // ---- one child at a time

  lemma {:induction false} ItemsStep(s: State, step: string, cs: seq<Json>)
    requires cs != []
    ensures var first, rest := Tag(step, Holes(cs[0], None)), Tag(step, ItemHoles(cs[1..]));
      && After(s, Tag(step, ItemHoles(cs))) == After(After(s, first), rest)
      && FillItems(cs, Names(s, Tag(step, ItemHoles(cs))))
         == [Fill(cs[0], None, Names(s, first))] + FillItems(cs[1..], Names(After(s, first), rest))
  {
    hide Holes, Fill, After, NameAt;
    var first, rest := Tag(step, Holes(cs[0], None)), Tag(step, ItemHoles(cs[1..]));
    TagAppend(step, Holes(cs[0], None), ItemHoles(cs[1..]));
    NamesAppend(s, first, rest);
    var names := Names(s, first + rest);
    assert names[..|first|] == Names(s, first) && names[|first|..] == Names(After(s, first), rest);
  }

  lemma {:induction false} ListedStep(s: State, step: string, cs: seq<Json>, kind: string)
    requires cs != []
    ensures var first, rest := Tag(step, HoleOf(ListedPart(cs[0], kind))), Tag(step, ListedHoles(cs[1..], kind));
      && After(s, Tag(step, ListedHoles(cs, kind))) == After(After(s, first), rest)
      && FillListed(cs, kind, Names(s, Tag(step, ListedHoles(cs, kind))))
         == [FillPart(ListedPart(cs[0], kind), Names(s, first), cs[0])]
            + FillListed(cs[1..], kind, Names(After(s, first), rest))
  {
    hide ListedPart, FillPart, HoleOf, After, NameAt;
    var first, rest := Tag(step, HoleOf(ListedPart(cs[0], kind))), Tag(step, ListedHoles(cs[1..], kind));
    TagAppend(step, HoleOf(ListedPart(cs[0], kind)), ListedHoles(cs[1..], kind));
    NamesAppend(s, first, rest);
    var names := Names(s, first + rest);
    assert names[..|first|] == Names(s, first) && names[|first|..] == Names(After(s, first), rest);
  }

  lemma {:induction false} FieldsStep(s: State, step: string, fs: seq<Field>)
    requires fs != []
    ensures var first, rest := Tag(step, Holes(fs[0].value, Some(fs[0].key))), Tag(step, FieldHoles(fs[1..]));
      && After(s, Tag(step, FieldHoles(fs))) == After(After(s, first), rest)
      && FillFields(fs, Names(s, Tag(step, FieldHoles(fs))))
         == [Field(fs[0].key, Fill(fs[0].value, Some(fs[0].key), Names(s, first)))]
            + FillFields(fs[1..], Names(After(s, first), rest))
  {
    hide Holes, Fill, After, NameAt;
    var first, rest := Tag(step, Holes(fs[0].value, Some(fs[0].key))), Tag(step, FieldHoles(fs[1..]));
    TagAppend(step, Holes(fs[0].value, Some(fs[0].key)), FieldHoles(fs[1..]));
    NamesAppend(s, first, rest);
    var names := Names(s, first + rest);
    assert names[..|first|] == Names(s, first) && names[|first|..] == Names(After(s, first), rest);
  }

  lemma {:induction false} OneEvent(constants: set<string>, s: State, e: Event)
    ensures RegisterState(constants, s, e.kind, e.step, e.raw, true) == Registered(After(s, [e]), Names(s, [e])[0])
  {
    assert At(s, [e], 1) == Step(At(s, [e], 0), e).state;
  }

  method RegisterPart(part: Part, step: string, registry: Registry) returns (output: Json)
    modifies registry
    ensures registry.Contents() == After(old(registry.Contents()), Tag(step, HoleOf(Some(part))))
    ensures output == FillPart(Some(part), Names(old(registry.Contents()), Tag(step, HoleOf(Some(part)))), Null)
  {
    ghost var s := registry.Contents();
    var name := registry.Register(part.kind, step, part.raw, true);
    OneEvent(registry.constants, s, Event(part.kind, step, part.raw));
    assert Tag(step, HoleOf(Some(part))) == [Event(part.kind, step, part.raw)];
    return Str(part.front + name);
  }

  method NormalizeId(item: Json, kind: string, step: string, registry: Registry) returns (output: Json)
    modifies registry
    ensures registry.Contents() == After(old(registry.Contents()), Tag(step, HoleOf(ListedPart(item, kind))))
    ensures output ==
      FillPart(ListedPart(item, kind), Names(old(registry.Contents()), Tag(step, HoleOf(ListedPart(item, kind)))), item)
  {
    if item.Str? && item.s != [] {
      output := RegisterPart(Part([], kind, item.s), step, registry);
    } else {
      NothingRegistered(registry.Contents(), step);
      output := item;
    }
  }

  method NormalizeListed(items: seq<Json>, kind: string, step: string, registry: Registry) returns (output: seq<Json>)
    modifies registry
    ensures registry.Contents() == After(old(registry.Contents()), Tag(step, ListedHoles(items, kind)))
    ensures output == FillListed(items, kind, Names(old(registry.Contents()), Tag(step, ListedHoles(items, kind))))
  {
    hide After, NameAt, ListedPart, FillPart, HoleOf;
    ghost var s := registry.Contents();
    ghost var holes := Tag(step, ListedHoles(items, kind));
    output := [];
    var i := 0;
    assert items[0..] == items;
    while i < |items|
      invariant 0 <= i <= |items|
      invariant After(registry.Contents(), Tag(step, ListedHoles(items[i..], kind))) == After(s, holes)
      invariant
        output + FillListed(items[i..], kind, Names(registry.Contents(), Tag(step, ListedHoles(items[i..], kind))))
             == FillListed(items, kind, Names(s, holes))
    {
      ListedStep(registry.Contents(), step, items[i..], kind);
      assert items[i..][1..] == items[i + 1..];
      var value := NormalizeId(items[i], kind, step, registry);
      output := output + [value];
      i := i + 1;
    }
    NothingRegistered(registry.Contents(), step);
  }

  lemma NothingRegistered(s: State, step: string)
    ensures After(s, Tag(step, [])) == s && Names(s, Tag(step, [])) == []
  {}

  function WalkedItems(items: seq<Json>): (cs: seq<Json>)
    ensures |cs| == |items| && forall i :: 0 <= i < |items| ==> cs[i] == Walked(items[i], None)
  {
    seq(|items|, i requires 0 <= i < |items| => Walked(items[i], None))
  }

  method NormalizeItems(items: seq<Json>, step: string, registry: Registry) returns (output: seq<Json>)
    modifies registry
    ensures registry.Contents() == After(old(registry.Contents()), Tag(step, ItemHoles(WalkedItems(items))))
    ensures output ==
      FillItems(WalkedItems(items), Names(old(registry.Contents()), Tag(step, ItemHoles(WalkedItems(items)))))
    decreases items, 0
  {
    hide After, NameAt, Walked, Holes, Fill;
    ghost var s := registry.Contents();
    ghost var cs := WalkedItems(items);
    ghost var holes := Tag(step, ItemHoles(cs));
    output := [];
    var i := 0;
    assert cs[0..] == cs;
    while i < |items|
      invariant 0 <= i <= |items|
      invariant After(registry.Contents(), Tag(step, ItemHoles(cs[i..]))) == After(s, holes)
      invariant output + FillItems(cs[i..], Names(registry.Contents(), Tag(step, ItemHoles(cs[i..]))))
             == FillItems(cs, Names(s, holes))
    {
      ItemsStep(registry.Contents(), step, cs[i..]);
      assert cs[i..][1..] == cs[i + 1..];
      var value := NormalizeValue(items[i], step, registry, None);
      output := output + [value];
      i := i + 1;
    }
    NothingRegistered(registry.Contents(), step);
  }

  method NormalizeFields(fields: seq<Field>, step: string, registry: Registry, ghost all: seq<Field>)
    returns (output: seq<Field>)
    requires forall i :: 0 <= i < |fields| ==> fields[i] in all
    modifies registry
    ensures registry.Contents() ==
      After(old(registry.Contents()), Tag(step, FieldHoles(Map(WalkedField, fields))))
    ensures output == FillFields(Map(WalkedField, fields),
      Names(old(registry.Contents()), Tag(step, FieldHoles(Map(WalkedField, fields)))))
    decreases all, 0
  {
    hide After, NameAt, Walked, Holes, Fill, Map;
    ghost var s := registry.Contents();
    ghost var cs := Map(WalkedField, fields);
    ghost var holes := Tag(step, FieldHoles(cs));
    output := [];
    var i := 0;
    assert cs[0..] == cs;
    while i < |fields|
      invariant 0 <= i <= |fields|
      invariant After(registry.Contents(), Tag(step, FieldHoles(cs[i..]))) == After(s, holes)
      invariant output + FillFields(cs[i..], Names(registry.Contents(), Tag(step, FieldHoles(cs[i..]))))
             == FillFields(cs, Names(s, holes))
    {
      FieldsStep(registry.Contents(), step, cs[i..]);
      assert cs[i..][1..] == cs[i + 1..];
      ghost var k :| 0 <= k < |all| && all[k] == fields[i];
      var value := NormalizeValue(fields[i].value, step, registry, Some(fields[i].key));
      output := output + [Field(fields[i].key, value)];
      i := i + 1;
    }
    NothingRegistered(registry.Contents(), step);
  }

  /** The walk registers and fills exactly what the sorted value calls for. */
  method NormalizeValue(value: Json, step: string, registry: Registry, key: Option<string>) returns (output: Json)
    modifies registry
    ensures var c := Walked(value, key);
      && registry.Contents() == After(old(registry.Contents()), Tag(step, Holes(c, key)))
      && output == Fill(c, key, Names(old(registry.Contents()), Tag(step, Holes(c, key))))
    decreases value, 1
  {
    hide After, NameAt, Blanked, RegisteredPart, ItemHoles, FieldHoles, ListedHoles, FillItems, FillFields, FillListed,
      Sort, Map;
    ghost var c := Walked(value, key);
    BlankedWalked(value, key);
    NothingRegistered(registry.Contents(), step);
    if Blanked(value, key) {
      return Str(TIME);
    }
    match value {
      case Arr(items) =>
        var kind := Lookup(REGISTERED_ARRAYS, key);
        if kind.Some? {
          var values := NormalizeListed(items, kind.value, step, registry);
          return Arr(values);
        }
        var values := NormalizeItems(items, step, registry);
        return Arr(values);
      case Obj(fields) =>
        var sorted := Sort(fields, FieldLe);
        SortPermutes(fields, FieldLe);
        WalkedFields(fields, key);
        assert forall i :: 0 <= i < |sorted| ==> sorted[i] in multiset(sorted) && sorted[i] in fields;
        var values := NormalizeFields(sorted, step, registry, fields);
        return Obj(values);
      case Str(s) =>
        var part := RegisteredPart(s, key);
        if part.Some? {
          output := RegisterPart(part.value, step, registry);
          return;
        }
        return value;
      case _ =>
        return value;
    }
  }
}
