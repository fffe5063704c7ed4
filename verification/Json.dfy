/** JSON trees with their key order, and the injective printer that every comparison rests on. */
module JsonTree {
  import opened Options
  import opened Text

  /** A finite number, identified by the numeral JSON.stringify prints for it. */
  type Numeral = s: string | IsNumeral(s) witness "0"

  predicate IsNumeral(s: string) {
    s != [] && forall c :: c in s ==> IsNumeralChar(c)
  }

  predicate IsNumeralChar(c: char) {
    IsDigit(c) || c == '-' || c == '+' || c == '.' || c == 'e'
  }

  datatype Json =
    | Null
    | Bool(b: bool)
    | Num(n: Numeral)
    | Str(s: string)
    | Arr(items: seq<Json>)
    | Obj(fields: seq<Field>)

  /** One own property; an object lists its properties in insertion order. */
  datatype Field = Field(key: string, value: Json)

  predicate DistinctKeys(fs: seq<Field>) {
    forall i, j :: 0 <= i < j < |fs| ==> fs[i].key != fs[j].key
  }

  /** What every value that came out of JSON.parse satisfies: no object repeats a key. */
  ghost predicate Proper(v: Json) {
    match v
    case Arr(items) => forall i :: 0 <= i < |items| ==> Proper(items[i])
    case Obj(fields) => DistinctKeys(fields) && forall i :: 0 <= i < |fields| ==> Proper(fields[i].value)
    case _ => true
  }

  function Keys(fs: seq<Field>): set<string> {
    set i | 0 <= i < |fs| :: fs[i].key
  }

  /** Property lookup; an absent property is `undefined`. */
  function Get(fs: seq<Field>, key: string): (r: Option<Json>)
    ensures r.None? <==> key !in Keys(fs)
    ensures r.Some? ==> exists i :: 0 <= i < |fs| && fs[i] == Field(key, r.value)
  {
    if fs == [] then None
    else if fs[0].key == key then Some(fs[0].value)
    else
      var r := Get(fs[1..], key);
      assert fs == [fs[0]] + fs[1..];
      assert forall k :: k in Keys(fs) <==> k == fs[0].key || k in Keys(fs[1..]) by {
        forall k | k in Keys(fs) ensures k == fs[0].key || k in Keys(fs[1..]) {
          var i :| 0 <= i < |fs| && fs[i].key == k;
          if i > 0 { assert fs[1..][i - 1].key == k; }
        }
        forall k | k in Keys(fs[1..]) ensures k in Keys(fs) {
          var i :| 0 <= i < |fs[1..]| && fs[1..][i].key == k;
          assert fs[i + 1].key == k;
        }
      }
      assert r.Some? ==> exists i :: 0 <= i < |fs| && fs[i] == Field(key, r.value) by {
        if r.Some? {
          var i :| 0 <= i < |fs[1..]| && fs[1..][i] == Field(key, r.value);
          assert fs[i + 1] == Field(key, r.value);
        }
      }
      r
  }

  lemma {:induction false} GetAt(fs: seq<Field>, i: nat)
    requires DistinctKeys(fs) && i < |fs|
    ensures Get(fs, fs[i].key) == Some(fs[i].value)
  {
    assert fs[i].key in Keys(fs);
    var j :| 0 <= j < |fs| && fs[j] == Field(fs[i].key, Get(fs, fs[i].key).value);
    assert !(i < j) && !(j < i);
  }

  // ---------------------------------------------------------------- JSON.stringify

  function Hex(n: nat): (c: char)
    requires n < 16
    ensures c as int == (if n < 10 then 48 + n else 87 + n)
  {
    if n < 10 then (48 + n) as char else (87 + n) as char
  }

  function EscapeChar(c: char): (s: string)
    ensures s != [] && s[0] != '"'
  {
    if c == '"' then ['\\', '"']
    else if c == '\\' then ['\\', '\\']
    else if c as int == 8 then ['\\', 'b']
    else if c as int == 9 then ['\\', 't']
    else if c as int == 10 then ['\\', 'n']
    else if c as int == 12 then ['\\', 'f']
    else if c as int == 13 then ['\\', 'r']
    else if (c as int) < 32 then ['\\', 'u', '0', '0', Hex(c as int / 16), Hex(c as int % 16)]
    else [c]
  }

  /** The escaped text of `s` followed by `rest`. */
  function Escape(s: string, rest: string): string {
    if s == [] then rest else EscapeChar(s[0]) + Escape(s[1..], rest)
  }

  /** `JSON.stringify(s)` followed by `rest`. */
  function Quote(s: string, rest: string): string { ['"'] + Escape(s, ['"'] + rest) }

  /** `JSON.stringify(value)`: properties in their own order. */
  function Stringify(v: Json): string { Print(v, []) }

  /** Writes `v` in front of `rest`. */
  function Print(v: Json, rest: string): (s: string)
    decreases v, 1
    ensures s != [] && s[0] == Lead(v)
  {
    match v
    case Null => "null" + rest
    case Bool(b) => (if b then "true" else "false") + rest
    case Num(n) => n + rest
    case Str(s) => Quote(s, rest)
    case Arr(items) => ['['] + PrintItems(items, [']'] + rest)
    case Obj(fields) => ['{'] + PrintFields(fields, ['}'] + rest)
  }

  function Lead(v: Json): char {
    match v
    case Null => 'n'
    case Bool(b) => if b then 't' else 'f'
    case Num(n) => n[0]
    case Str(_) => '"'
    case Arr(_) => '['
    case Obj(_) => '{'
  }

  function PrintItems(items: seq<Json>, rest: string): (s: string)
    decreases items, 0
    ensures items != [] ==> s != [] && s[0] == Lead(items[0])
  {
    if items == [] then rest else Print(items[0], NextItem(items, rest))
  }

  function NextItem(items: seq<Json>, rest: string): string
    requires items != []
    decreases items[1..], 1
  {
    if |items| == 1 then rest else [','] + PrintItems(items[1..], rest)
  }

  function PrintFields(fs: seq<Field>, rest: string): (s: string)
    decreases fs, 0
    ensures fs != [] ==> s != [] && s[0] == '"'
  {
    if fs == [] then rest else Quote(fs[0].key, [':'] + Print(fs[0].value, NextField(fs, rest)))
  }

  function NextField(fs: seq<Field>, rest: string): string
    requires fs != []
    decreases fs[1..], 1
  {
    if |fs| == 1 then rest else [','] + PrintFields(fs[1..], rest)
  }

  /** What may follow a printed value: nothing, or one of the characters that close it. */
  predicate Ends(s: string) {
    s == [] || s[0] == ',' || s[0] == ']' || s[0] == '}'
  }

  lemma EscapeCharUnique(c: char, d: char, a: string, b: string)
    requires EscapeChar(c) + a == EscapeChar(d) + b
    ensures c == d && a == b
  {
    var l, r := EscapeChar(c) + a, EscapeChar(d) + b;
    assert l[0] == r[0];
    if l[0] == '\\' {
      assert l[1] == r[1];
      if l[1] == 'u' { assert l[4] == r[4] && l[5] == r[5]; }
    }
    assert c == d;
    SplitFirst(EscapeChar(c), EscapeChar(d), a, b);
  }

  lemma {:induction false} EscapeUnique(s: string, t: string, a: string, b: string)
    requires Escape(s, ['"'] + a) == Escape(t, ['"'] + b)
    ensures s == t && a == b
  {
    var l, r := Escape(s, ['"'] + a), Escape(t, ['"'] + b);
    assert s != [] ==> l[0] == EscapeChar(s[0])[0];
    assert t != [] ==> r[0] == EscapeChar(t[0])[0];
    if s == [] && t == [] {
      SplitFirst(['"'], ['"'], a, b);
    } else if s != [] && t != [] {
      EscapeCharUnique(s[0], t[0], Escape(s[1..], ['"'] + a), Escape(t[1..], ['"'] + b));
      EscapeUnique(s[1..], t[1..], a, b);
      assert s == [s[0]] + s[1..] && t == [t[0]] + t[1..];
    } else {
      assert false;
    }
  }

  lemma QuoteUnique(s: string, t: string, a: string, b: string)
    requires Quote(s, a) == Quote(t, b)
    ensures s == t && a == b
  {
    SplitFirst(['"'], ['"'], Escape(s, ['"'] + a), Escape(t, ['"'] + b));
    EscapeUnique(s, t, a, b);
  }

  lemma {:induction false} NumeralUnique(m: string, n: string, a: string, b: string)
    requires forall c :: c in m ==> IsNumeralChar(c)
    requires forall c :: c in n ==> IsNumeralChar(c)
    requires m + a == n + b && Ends(a) && Ends(b)
    ensures m == n && a == b
  {
    assert m != [] ==> (m + a)[0] == m[0] && m[0] in m;
    assert n != [] ==> (n + b)[0] == n[0] && n[0] in n;
    if m == [] && n == [] {
      assert m + a == a && n + b == b;
    } else if m != [] && n != [] {
      assert (m + a)[0] == (n + b)[0];
      assert (m + a)[1..] == m[1..] + a && (n + b)[1..] == n[1..] + b;
      NumeralUnique(m[1..], n[1..], a, b);
      assert m == [m[0]] + m[1..] && n == [n[0]] + n[1..];
    } else {
      assert false;
    }
  }

  lemma {:induction false} LeadIsNotNumeral(v: Json)
    ensures IsNumeralChar(Lead(v)) <==> v.Num?
    ensures Lead(v) != ']' && Lead(v) != '}'
  {
    if v.Num? { assert v.n[0] in v.n; }
  }

  lemma SameKind(v: Json, w: Json)
    requires Lead(v) == Lead(w)
    ensures v.Null? == w.Null? && v.Bool? == w.Bool? && v.Num? == w.Num?
    ensures v.Str? == w.Str? && v.Arr? == w.Arr? && v.Obj? == w.Obj?
    ensures v.Bool? ==> v == w
  {
    LeadIsNotNumeral(v);
    LeadIsNotNumeral(w);
  }

  /** A printed value followed by a closing character can be read in only one way. */
  lemma {:induction false} PrintUnique(v: Json, w: Json, a: string, b: string)
    requires Print(v, a) == Print(w, b) && Ends(a) && Ends(b)
    ensures v == w && a == b
    decreases v, 1
  {
    SameKind(v, w);
    match v {
      case Null => SplitFirst("null", "null", a, b);
      case Bool(t) => SplitFirst(if t then "true" else "false", if t then "true" else "false", a, b);
      case Num(n) => NumeralUnique(n, w.n, a, b);
      case Str(s) => QuoteUnique(s, w.s, a, b);
      case Arr(items) =>
        SplitFirst(['['], ['['], PrintItems(items, [']'] + a), PrintItems(w.items, [']'] + b));
        ItemsUnique(items, w.items, a, b);
      case Obj(fields) =>
        SplitFirst(['{'], ['{'], PrintFields(fields, ['}'] + a), PrintFields(w.fields, ['}'] + b));
        FieldsUnique(fields, w.fields, a, b);
    }
  }

  lemma {:induction false} ItemsUnique(xs: seq<Json>, ys: seq<Json>, a: string, b: string)
    requires PrintItems(xs, [']'] + a) == PrintItems(ys, [']'] + b)
    ensures xs == ys && a == b
    decreases xs, 0
  {
    if xs == [] && ys == [] {
      SplitFirst([']'], [']'], a, b);
    } else if xs != [] && ys != [] {
      PrintUnique(xs[0], ys[0], NextItem(xs, [']'] + a), NextItem(ys, [']'] + b));
      if |xs| == 1 || |ys| == 1 {
        SplitFirst([']'], [']'], a, b);
      } else {
        SplitFirst([','], [','], PrintItems(xs[1..], [']'] + a), PrintItems(ys[1..], [']'] + b));
        ItemsUnique(xs[1..], ys[1..], a, b);
      }
      assert xs == [xs[0]] + xs[1..] && ys == [ys[0]] + ys[1..];
    } else {
      LeadIsNotNumeral(if xs == [] then ys[0] else xs[0]);
      assert false;
    }
  }

  lemma {:induction false} FieldsUnique(xs: seq<Field>, ys: seq<Field>, a: string, b: string)
    requires PrintFields(xs, ['}'] + a) == PrintFields(ys, ['}'] + b)
    ensures xs == ys && a == b
    decreases xs, 0
  {
    if xs == [] && ys == [] {
      SplitFirst(['}'], ['}'], a, b);
    } else if xs != [] && ys != [] {
      var nextX, nextY := NextField(xs, ['}'] + a), NextField(ys, ['}'] + b);
      var valueX, valueY := Print(xs[0].value, nextX), Print(ys[0].value, nextY);
      QuoteUnique(xs[0].key, ys[0].key, [':'] + valueX, [':'] + valueY);
      SplitFirst([':'], [':'], valueX, valueY);
      PrintUnique(xs[0].value, ys[0].value, nextX, nextY);
      FieldsTail(xs, ys, a, b);
      assert xs == [xs[0]] + xs[1..] && ys == [ys[0]] + ys[1..];
    } else {
      assert false;
    }
  }

  lemma {:induction false} FieldsTail(xs: seq<Field>, ys: seq<Field>, a: string, b: string)
    requires xs != [] && ys != [] && NextField(xs, ['}'] + a) == NextField(ys, ['}'] + b)
    ensures xs[1..] == ys[1..] && a == b
    decreases xs[1..], 1
  {
    assert NextField(xs, ['}'] + a)[0] == NextField(ys, ['}'] + b)[0];
    if |xs| == 1 {
      SplitFirst(['}'], ['}'], a, b);
    } else {
      SplitFirst([','], [','], PrintFields(xs[1..], ['}'] + a), PrintFields(ys[1..], ['}'] + b));
      FieldsUnique(xs[1..], ys[1..], a, b);
    }
  }

  /** JSON.stringify never prints two different trees (key order included) alike. */
  lemma StringifyInjective(v: Json, w: Json)
    ensures Stringify(v) == Stringify(w) <==> v == w
  {
    if Stringify(v) == Stringify(w) { PrintUnique(v, w, [], []); }
  }
}
