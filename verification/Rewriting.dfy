/** The string rewriting under `replaceAll` and `resolve`, and why the second undoes the first. */
module Rewriting {
  import opened Options
  import opened Sorting
  import opened Text

  // ---------------------------------------------------------------- replacing a raw value

  /**
   * Left to right, without overlaps: every occurrence of `raw`, or with `whole` only those with no digit
   * on either side (`prevDigit`: the character in front of `s` is one).
   */
  function Rewrite(s: string, raw: string, t: string, whole: bool, prevDigit: bool): string
    requires raw != []
    decreases |s|
  {
    if s == [] then []
    else if Found(s, raw, whole, prevDigit) then
      t + Rewrite(s[|raw|..], raw, t, whole, IsDigit(raw[|raw| - 1]))
    else [s[0]] + Rewrite(s[1..], raw, t, whole, IsDigit(s[0]))
  }

  predicate Found(s: string, raw: string, whole: bool, prevDigit: bool) {
    raw <= s && (whole ==> !prevDigit && !(|raw| < |s| && IsDigit(s[|raw|])))
  }

  /** `s.split(sep)` */
  function Split(s: string, sep: string): (parts: seq<string>)
    requires sep != []
    ensures parts != []
    decreases |s|
  {
    if s == [] then [[]]
    else if sep <= s then [[]] + Split(s[|sep|..], sep)
    else
      var rest := Split(s[1..], sep);
      [[s[0]] + rest[0]] + rest[1..]
  }

  /** `parts.join(t)` */
  function JoinWith(parts: seq<string>, t: string): string {
    if parts == [] then []
    else if |parts| == 1 then parts[0]
    else parts[0] + (t + JoinWith(parts[1..], t))
  }

  /** `s.split(raw).join(t)` replaces the occurrences one after the other. */
  lemma {:induction false} SplitJoin(s: string, raw: string, t: string, prevDigit: bool)
    requires raw != []
    ensures JoinWith(Split(s, raw), t) == Rewrite(s, raw, t, false, prevDigit)
    decreases |s|
  {
    if s != [] {
      if raw <= s {
        var rest := Split(s[|raw|..], raw);
        SplitJoin(s[|raw|..], raw, t, IsDigit(raw[|raw| - 1]));
        assert ([[]] + rest)[1..] == rest;
      } else {
        var rest := Split(s[1..], raw);
        SplitJoin(s[1..], raw, t, IsDigit(s[0]));
        var parts := [[s[0]] + rest[0]] + rest[1..];
        assert parts[1..] == rest[1..];
        if |rest| > 1 {
          assert ([s[0]] + rest[0]) + (t + JoinWith(rest[1..], t)) == [s[0]] + (rest[0] + (t + JoinWith(rest[1..], t)));
        }
      }
    }
  }

  predicate OccursAt(s: string, raw: string, i: nat) { i + |raw| <= |s| && s[i..i + |raw|] == raw }

  predicate Includes(s: string, raw: string) { exists i :: 0 <= i <= |s| && OccursAt(s, raw, i) }

  /** An occurrence that is replaced: with `whole`, one that is not part of a longer number. */
  predicate Hit(s: string, raw: string, whole: bool, i: nat) {
    OccursAt(s, raw, i) &&
    (whole ==> !(i > 0 && IsDigit(s[i - 1])) && !(i + |raw| < |s| && IsDigit(s[i + |raw|])))
  }

  predicate Hits(s: string, raw: string, whole: bool) { exists i :: 0 <= i <= |s| && Hit(s, raw, whole, i) }

  predicate BraceFree(s: string) { forall c :: c in s ==> c != '{' && c != '}' }

  /** The scan stops exactly at the hits. */
  lemma {:induction false} FoundIsHit(s: string, k: nat, raw: string, whole: bool)
    requires k <= |s| && raw != []
    ensures Found(s[k..], raw, whole, k > 0 && IsDigit(s[k - 1])) <==> Hit(s, raw, whole, k)
  {
    var rest := s[k..];
    if raw <= rest { assert s[k..k + |raw|] == rest[..|raw|]; }
    if OccursAt(s, raw, k) { assert rest[..|raw|] == raw; }
    if k + |raw| < |s| { assert rest[|raw|] == s[k + |raw|]; }
  }

  /** Where there is no hit there is nothing to rewrite. */
  lemma {:induction false} RewriteUntouched(s: string, k: nat, raw: string, t: string, whole: bool)
    requires k <= |s| && raw != [] && !Hits(s, raw, whole)
    ensures Rewrite(s[k..], raw, t, whole, k > 0 && IsDigit(s[k - 1])) == s[k..]
    decreases |s| - k
  {
    hide Found, Hit;
    if k < |s| {
      FoundIsHit(s, k, raw, whole);
      assert s[k..][1..] == s[k + 1..] && s[k..] == [s[k]] + s[k + 1..];
      RewriteUntouched(s, k + 1, raw, t, whole);
    }
  }

  /** The first hit is replaced, and everything in front of it stays. */
  lemma {:induction false} FirstHit(s: string, k: nat, raw: string, t: string, whole: bool, h: nat)
    returns (p: nat, tail: string)
    requires k <= h <= |s| && raw != [] && Hit(s, raw, whole, h)
    ensures k <= p <= h && Hit(s, raw, whole, p)
    ensures Rewrite(s[k..], raw, t, whole, k > 0 && IsDigit(s[k - 1])) == s[k..p] + (t + tail)
    decreases h - k
  {
    FoundIsHit(s, k, raw, whole);
    if Hit(s, raw, whole, k) {
      p, tail := k, Rewrite(s[k..][|raw|..], raw, t, whole, IsDigit(raw[|raw| - 1]));
      assert s[k..p] == [] && [] + (t + tail) == t + tail;
    } else {
      hide Found, Hit;
      assert s[k..][1..] == s[k + 1..];
      p, tail := FirstHit(s, k + 1, raw, t, whole, h);
      ConsSlice(s, k, p, t + tail);
    }
  }

  lemma ConsSlice(s: string, k: nat, p: nat, x: string)
    requires k < p <= |s|
    ensures s[k..p] + x == [s[k]] + (s[k + 1..p] + x)
  {}

  /** An opening brace behind `u` is still there after a rewriting, perhaps earlier. */
  lemma {:induction false} RewriteOpens(u: string, rest: string, raw: string, t: string, whole: bool, prevDigit: bool)
    returns (p: nat, tail: string)
    requires raw != [] && BraceFree(raw) && t != [] && t[0] == '{'
    ensures p <= |u|
    ensures Rewrite(u + (['{'] + rest), raw, t, whole, prevDigit) == u[..p] + (['{'] + tail)
    ensures u != [] && u[0] == '{' ==> p > 0
    ensures |u| > 1 && u[0] == '{' && u[1] == '{' ==> p > 1
    decreases |u|
  {
    var s := u + (['{'] + rest);
    assert raw[0] in raw;
    if u == [] {
      assert s == ['{'] + rest && s[0] == '{';
      p, tail := 0, Rewrite(rest, raw, t, whole, false);
      assert s[1..] == rest && u[..0] == [];
    } else if Found(s, raw, whole, prevDigit) {
      var next := Rewrite(s[|raw|..], raw, t, whole, IsDigit(raw[|raw| - 1]));
      p, tail := 0, t[1..] + next;
      assert t == ['{'] + t[1..];
      assert t + next == ['{'] + tail && u[..0] == [];
      assert s[0] == u[0];
    } else {
      assert s[0] == u[0] && s[1..] == u[1..] + (['{'] + rest);
      var q;
      q, tail := RewriteOpens(u[1..], rest, raw, t, whole, IsDigit(u[0]));
      p := q + 1;
      assert u[..p] == [u[0]] + u[1..][..q];
      AppendAssoc([u[0]], u[1..][..q], ['{'] + tail);
    }
  }

  // ---------------------------------------------------------------- every occurrence, without the digit rule

  lemma {:induction false} RewriteIgnoresDigit(s: string, raw: string, t: string, p: bool, q: bool)
    requires raw != []
    ensures Rewrite(s, raw, t, false, p) == Rewrite(s, raw, t, false, q)
  {}

  /** A character that does not occur in `raw` separates what is in front of it from what follows. */
  lemma {:induction false} RewriteAtChar(a: string, c: char, b: string, raw: string, t: string, p: bool)
    requires raw != [] && Free(raw, c)
    ensures Rewrite(a + ([c] + b), raw, t, false, p)
         == Rewrite(a, raw, t, false, p) + ([c] + Rewrite(b, raw, t, false, false))
    decreases |a|
  {
    var s := a + ([c] + b);
    PrefixBeforeChar(a, c, b, raw);
    if a == [] {
      assert s == [c] + b && s[0] == c && s[1..] == b;
      RewriteIgnoresDigit(b, raw, t, IsDigit(c), false);
      assert [] + ([c] + Rewrite(b, raw, t, false, false)) == [c] + Rewrite(b, raw, t, false, false);
    } else if raw <= a {
      assert s[|raw|..] == a[|raw|..] + ([c] + b);
      RewriteAtChar(a[|raw|..], c, b, raw, t, IsDigit(raw[|raw| - 1]));
      AppendAssoc(t, Rewrite(a[|raw|..], raw, t, false, IsDigit(raw[|raw| - 1])),
                  [c] + Rewrite(b, raw, t, false, false));
    } else {
      assert s[0] == a[0] && s[1..] == a[1..] + ([c] + b);
      RewriteAtChar(a[1..], c, b, raw, t, IsDigit(a[0]));
      AppendAssoc([a[0]], Rewrite(a[1..], raw, t, false, IsDigit(a[0])), [c] + Rewrite(b, raw, t, false, false));
    }
  }

  lemma {:induction false} PrefixBeforeChar(a: string, c: char, b: string, raw: string)
    requires Free(raw, c)
    ensures raw <= a + ([c] + b) <==> raw <= a
  {
    var s := a + ([c] + b);
    assert s[|a|] == c;
    if raw <= s {
      forall i | 0 <= i < |raw| ensures s[i] != c { assert s[i] == raw[i]; }
      assert raw == s[..|raw|] == a[..|raw|];
    }
    if raw <= a { assert raw == a[..|raw|] == s[..|raw|]; }
  }

  /** No character appears that was neither in the text nor in the template. */
  lemma {:induction false} RewriteFree(s: string, raw: string, t: string, p: bool, c: char)
    requires raw != [] && Free(s, c) && Free(t, c)
    ensures Free(Rewrite(s, raw, t, false, p), c)
    decreases |s|
  {
    if s != [] {
      if raw <= s {
        assert forall x :: x in s[|raw|..] ==> x in s;
        RewriteFree(s[|raw|..], raw, t, IsDigit(raw[|raw| - 1]), c);
      } else {
        assert s[0] in s && forall x :: x in s[1..] ==> x in s;
        RewriteFree(s[1..], raw, t, IsDigit(s[0]), c);
      }
    }
  }

  lemma {:induction false} NoHits(s: string, raw: string, whole: bool, c: char)
    requires c in raw && Free(s, c)
    ensures !Hits(s, raw, whole)
  {
    forall i | 0 <= i <= |s| ensures !Hit(s, raw, whole, i) {
      if OccursAt(s, raw, i) { OccurrenceHas(s, raw, i, c); }
    }
  }

  lemma {:induction false} OccurrenceHas(s: string, raw: string, i: nat, c: char)
    requires OccursAt(s, raw, i) && c in raw
    ensures c in s
  {
    var k :| 0 <= k < |raw| && raw[k] == c;
    assert s[i + k] == s[i..i + |raw|][k];
  }

  /** A text that is rewritten is at least as long as the template. */
  lemma {:induction false} RewriteShort(s: string, raw: string, t: string)
    requires raw != [] && |Rewrite(s, raw, t, false, false)| < |t|
    ensures Rewrite(s, raw, t, false, false) == s
  {
    assert s[0..] == s;
    if Hits(s, raw, false) {
      var h :| 0 <= h <= |s| && Hit(s, raw, false, h);
      var p, tail := FirstHit(s, 0, raw, t, false, h);
    } else {
      RewriteUntouched(s, 0, raw, t, false);
    }
  }

  // ---------------------------------------------------------------- recognising a template

  predicate IsWord(c: char) { IsLetter(c) || IsDigit(c) || c == '_' || c == '-' }

  /** The end of the run of characters satisfying `p` that starts at `i`. */
  function RunEnd(s: string, i: nat, p: char -> bool): (e: nat)
    requires i <= |s|
    ensures i <= e <= |s|
    ensures forall k :: i <= k < e ==> p(s[k])
    ensures e < |s| ==> !p(s[e])
    decreases |s| - i
  {
    if i < |s| && p(s[i]) then RunEnd(s, i + 1, p) else i
  }

  function Close(s: string, i: nat): Option<nat> {
    if i + 1 < |s| && s[i] == '}' && s[i + 1] == '}' then Some(i + 2) else None
  }

  /**
   * The end of a match of `\{\{[a-zA-Z]+(?::[a-zA-Z0-9_-]+(?:#\d+)?)?\}\}` at the start of `s`. What follows
   * each run is outside its character class, so the expression never has a second way to match.
   */
  function MatchEnd(s: string): (r: Option<nat>)
    ensures r.Some? ==> 0 < r.value <= |s|
  {
    if |s| < 2 || s[0] != '{' || s[1] != '{' then None
    else
      var j := RunEnd(s, 2, IsLetter);
      if j == 2 then None
      else if j < |s| && s[j] == ':' then
        var k := RunEnd(s, j + 1, IsWord);
        if k == j + 1 then None
        else if k < |s| && s[k] == '#' then
          var m := RunEnd(s, k + 1, IsDigit);
          if m == k + 1 then None else Close(s, m)
        else Close(s, k)
      else Close(s, j)
  }

  predicate IsTemplate(t: string) { MatchEnd(t) == Some(|t|) }

  lemma RunEndIs(s: string, i: nat, p: char -> bool, e: nat)
    requires i <= e < |s| && !p(s[e]) && forall k :: i <= k < e ==> p(s[k])
    ensures RunEnd(s, i, p) == e
  {}

  lemma RunEndExtends(t: string, rest: string, i: nat, p: char -> bool)
    requires i <= |t| && RunEnd(t, i, p) < |t|
    ensures RunEnd(t + rest, i, p) == RunEnd(t, i, p)
  {
    RunEndIs(t + rest, i, p, RunEnd(t, i, p));
  }

  /** A template is recognised whatever follows it. */
  lemma {:induction false} TemplateMatches(t: string, rest: string)
    requires IsTemplate(t)
    ensures MatchEnd(t + rest) == Some(|t|)
  {
    hide RunEnd, IsLetter, IsWord, IsDigit;
    var j := RunEnd(t, 2, IsLetter);
    RunEndExtends(t, rest, 2, IsLetter);
    if t[j] == ':' {
      var k := RunEnd(t, j + 1, IsWord);
      RunEndExtends(t, rest, j + 1, IsWord);
      if t[k] == '#' {
        var m := RunEnd(t, k + 1, IsDigit);
        RunEndExtends(t, rest, k + 1, IsDigit);
        CloseExtends(t, rest, m);
      } else {
        CloseExtends(t, rest, k);
      }
    } else {
      CloseExtends(t, rest, j);
    }
  }

  lemma CloseExtends(t: string, rest: string, i: nat)
    requires i + 2 <= |t|
    ensures Close(t + rest, i) == Close(t, i) && (t + rest)[i] == t[i]
  {}

  /** Between the double braces a match has no brace. */
  lemma {:induction false} MatchShape(s: string)
    requires MatchEnd(s).Some?
    ensures var e := MatchEnd(s).value;
      && 4 <= e && s[0] == '{' && s[1] == '{' && s[e - 2] == '}' && s[e - 1] == '}'
      && forall k :: 2 <= k < e - 2 ==> s[k] != '{' && s[k] != '}'
  {
    hide RunEnd;
  }

  /** A template whose inside has been cut short by another opening brace. */
  ghost predicate Broken(s: string, name: string) {
    exists m: nat, rest: string :: CutAt(s, name, m, rest)
  }

  predicate CutAt(s: string, name: string, m: nat, rest: string) {
    2 <= m <= |name| - 2 && s == name[..m] + (['{'] + rest)
  }

  lemma BrokenIsNoMatch(s: string, name: string)
    requires IsTemplate(name) && Broken(s, name)
    ensures MatchEnd(s).None? && s != [] && s[0] == '{'
  {
    hide MatchEnd;
    MatchShape(name);
    var m: nat, rest: string :| CutAt(s, name, m, rest);
    assert s[m] == '{' && forall k :: 0 <= k < m ==> s[k] == name[k];
    if MatchEnd(s).Some? { MatchShape(s); }
  }

  /** What a rewriting does up to its first hit. */
  lemma {:induction false} RewriteToHit(s: string, raw: string, t: string, whole: bool) returns (p: nat, tail: string)
    requires raw != [] && Hits(s, raw, whole)
    ensures p < |s| && s[p] == raw[0] && Rewrite(s, raw, t, whole, false) == s[..p] + (t + tail)
  {
    hide Rewrite;
    var h :| 0 <= h <= |s| && Hit(s, raw, whole, h);
    assert s[0..] == s;
    p, tail := FirstHit(s, 0, raw, t, whole, h);
    assert s[0..p] == s[..p];
  }

  /** A template that is hit by a rewriting breaks. */
  lemma {:induction false} HitBreaks(name: string, raw: string, t: string, whole: bool)
    requires IsTemplate(name) && raw != [] && BraceFree(raw) && t != [] && t[0] == '{' && Hits(name, raw, whole)
    ensures Broken(Rewrite(name, raw, t, whole, false), name)
  {
    hide MatchEnd, Rewrite, Hits;
    MatchShape(name);
    var p, tail := RewriteToHit(name, raw, t, whole);
    assert raw[0] in raw;
    assert t + tail == ['{'] + (t[1..] + tail);
    assert CutAt(Rewrite(name, raw, t, whole, false), name, p, t[1..] + tail);
  }

  /** A broken template stays broken. */
  lemma BrokenStays(s: string, name: string, raw: string, t: string, whole: bool)
    requires IsTemplate(name) && raw != [] && BraceFree(raw) && t != [] && t[0] == '{' && Broken(s, name)
    ensures Broken(Rewrite(s, raw, t, whole, false), name)
  {
    hide MatchEnd;
    MatchShape(name);
    var m: nat, rest: string :| CutAt(s, name, m, rest);
    var p, tail := RewriteOpens(name[..m], rest, raw, t, whole, false);
    assert name[..m][..p] == name[..p];
    assert CutAt(Rewrite(s, raw, t, whole, false), name, p, tail);
  }

  lemma {:induction false} TemplateBraces(t: string)
    requires IsTemplate(t)
    ensures |t| >= 4 && t[0] == '{' && t[1] == '{' && t[|t| - 1] == '}'
  {
    hide RunEnd;
  }

  datatype Resolved = Ok(text: string) | Unresolved(template: string)

  function Prepend(s: string, r: Resolved): Resolved {
    match r case Ok(text) => Ok(s + text) case Unresolved(_) => r
  }

  /** `text.replace(pattern, value)`, throwing at the first template without a value. */
  function Resolve(values: map<string, string>, s: string): Resolved
    decreases |s|
  {
    if s == [] then Ok([])
    else match MatchEnd(s)
      case Some(e) =>
        if s[..e] in values then Prepend(values[s[..e]], Resolve(values, s[e..])) else Unresolved(s[..e])
      case None => Prepend([s[0]], Resolve(values, s[1..]))
  }

  // ---------------------------------------------------------------- the text as tokens

  /** A character that is still itself, or a template that stands for a raw value. */
  datatype Token = Lit(c: char) | Ref(t: string)

  function Rendered(k: Token): string { match k case Lit(c) => [c] case Ref(t) => t }

  function Render(ts: seq<Token>): string {
    if ts == [] then [] else Rendered(ts[0]) + Render(ts[1..])
  }

  function Meaning(values: map<string, string>, k: Token): string {
    match k case Lit(c) => [c] case Ref(t) => if t in values then values[t] else []
  }

  /** What the tokens stand for. */
  function Expand(values: map<string, string>, ts: seq<Token>): string {
    if ts == [] then [] else Meaning(values, ts[0]) + Expand(values, ts[1..])
  }

  /** References are known templates, and no two literal characters spell `{{`. */
  ghost predicate WellFormed(values: map<string, string>, ts: seq<Token>) {
    && (forall i :: 0 <= i < |ts| && ts[i].Ref? ==> IsTemplate(ts[i].t) && ts[i].t in values)
    && (forall i :: 0 <= i < |ts| - 1 ==> !(ts[i] == Lit('{') && ts[i + 1] == Lit('{')))
  }

  function Literal(s: string): (ts: seq<Token>)
    ensures |ts| == |s| && forall i :: 0 <= i < |s| ==> ts[i] == Lit(s[i])
  {
    seq(|s|, i requires 0 <= i < |s| => Lit(s[i]))
  }

  lemma {:induction false} LiteralRenders(values: map<string, string>, s: string)
    ensures Render(Literal(s)) == s && Expand(values, Literal(s)) == s
  {
    if s != [] {
      assert Literal(s)[1..] == Literal(s[1..]);
      LiteralRenders(values, s[1..]);
    }
  }

  /** A literal character never starts a template: what follows it is not `{`, or is a template itself. */
  lemma {:induction false} LiteralIsNoMatch(values: map<string, string>, ts: seq<Token>)
    requires WellFormed(values, ts) && ts != [] && ts[0].Lit?
    ensures MatchEnd(Render(ts)).None?
  {
    hide RunEnd;
    var s := Render(ts);
    if ts[0].c == '{' && |ts| > 1 {
      if ts[1].Ref? {
        TemplateBraces(ts[1].t);
        assert ts[1..][0] == ts[1];
        assert s[1] == '{' && s[2] == '{';
        assert RunEnd(s, 2, IsLetter) == 2;
      } else {
        assert s[1] == ts[1].c;
      }
    }
  }

  /** Resolving a rendered token list gives what the tokens stand for. */
  lemma {:induction false} ResolveRendered(values: map<string, string>, ts: seq<Token>)
    requires WellFormed(values, ts)
    ensures Resolve(values, Render(ts)) == Ok(Expand(values, ts))
  {
    hide MatchEnd;
    if ts != [] {
      ResolveRendered(values, ts[1..]);
      var s, rest := Render(ts), Render(ts[1..]);
      match ts[0] {
        case Ref(t) =>
          TemplateBraces(t);
          TemplateMatches(t, rest);
          assert s[..|t|] == t && s[|t|..] == rest;
        case Lit(c) =>
          LiteralIsNoMatch(values, ts);
          assert s[0] == c && s[1..] == rest;
      }
    }
  }

  // ---------------------------------------------------------------- rewriting the tokens

  /** The first tokens are the literal characters of `raw`. */
  predicate Spells(ts: seq<Token>, raw: string) {
    |raw| <= |ts| && forall i :: 0 <= i < |raw| ==> ts[i] == Lit(raw[i])
  }

  predicate DigitNext(ts: seq<Token>) { ts != [] && ts[0].Lit? && IsDigit(ts[0].c) }

  function RewriteTokens(ts: seq<Token>, raw: string, t: string, whole: bool, prevDigit: bool): seq<Token>
    requires raw != []
    decreases |ts|
  {
    if ts == [] then []
    else if Spells(ts, raw) && (whole ==> !prevDigit && !DigitNext(ts[|raw|..])) then
      [Ref(t)] + RewriteTokens(ts[|raw|..], raw, t, whole, IsDigit(raw[|raw| - 1]))
    else [ts[0]] + RewriteTokens(ts[1..], raw, t, whole, ts[0].Lit? && IsDigit(ts[0].c))
  }

  /** No reference in the list contains an occurrence of `raw` that would be replaced. */
  ghost predicate Outside(ts: seq<Token>, raw: string, whole: bool) {
    forall i :: 0 <= i < |ts| && ts[i].Ref? ==> IsTemplate(ts[i].t) && !Hits(ts[i].t, raw, whole)
  }

  lemma {:induction false} RenderSpelled(ts: seq<Token>, raw: string)
    requires Spells(ts, raw)
    ensures Render(ts) == raw + Render(ts[|raw|..])
  {
    if raw == [] {
      assert ts[0..] == ts;
    } else {
      RenderSpelled(ts[1..], raw[1..]);
      assert ts[1..][|raw[1..]|..] == ts[|raw|..];
      assert raw == [raw[0]] + raw[1..];
    }
  }

  lemma {:induction false} ExpandSpelled(values: map<string, string>, ts: seq<Token>, raw: string)
    requires Spells(ts, raw)
    ensures Expand(values, ts) == raw + Expand(values, ts[|raw|..])
  {
    if raw == [] {
      assert ts[0..] == ts;
    } else {
      ExpandSpelled(values, ts[1..], raw[1..]);
      assert ts[1..][|raw[1..]|..] == ts[|raw|..];
      assert raw == [raw[0]] + raw[1..];
      AppendAssoc([raw[0]], raw[1..], Expand(values, ts[|raw|..]));
    }
  }

  /** A brace-free value at the front of a rendered list is spelled by literals. */
  lemma {:induction false} PrefixIsSpelled(ts: seq<Token>, raw: string)
    requires forall i :: 0 <= i < |ts| && ts[i].Ref? ==> IsTemplate(ts[i].t)
    requires BraceFree(raw) && raw <= Render(ts)
    ensures Spells(ts, raw)
  {
    if raw != [] {
      var s := Render(ts);
      assert raw[0] in raw && s[0] == raw[0];
      assert ts != [];
      if ts[0].Ref? { TemplateBraces(ts[0].t); }
      assert s[1..] == Render(ts[1..]);
      assert raw[1..] <= s[1..] by { assert raw == s[..|raw|]; assert raw[1..] == s[1..][..|raw| - 1]; }
      assert forall c :: c in raw[1..] ==> c in raw;
      PrefixIsSpelled(ts[1..], raw[1..]);
      forall i | 0 <= i < |raw| ensures ts[i] == Lit(raw[i]) {
        if i > 0 { assert ts[1..][i - 1] == Lit(raw[1..][i - 1]); }
      }
    }
  }

  /** A brace-free value that starts inside a template ends inside it: it cannot run over the closing brace. */
  lemma StaysInside(t: string, rest: string, j: nat, raw: string)
    requires IsTemplate(t) && BraceFree(raw) && j < |t| && raw <= t[j..] + rest
    ensures OccursAt(t, raw, j)
  {
    var s := t[j..] + rest;
    TemplateBraces(t);
    assert forall k :: 0 <= k < |raw| ==> s[k] == raw[k] && raw[k] in raw;
    assert s[|t| - 1 - j] == '}';
    assert t[j..j + |raw|] == s[..|raw|];
  }

  lemma FoundInside(t: string, rest: string, j: nat, raw: string, whole: bool, prevDigit: bool)
    requires IsTemplate(t) && BraceFree(raw) && raw != [] && j < |t| && (j > 0 ==> prevDigit == IsDigit(t[j - 1]))
    requires Found(t[j..] + rest, raw, whole, prevDigit)
    ensures Hit(t, raw, whole, j)
  {
    hide IsTemplate;
    StaysInside(t, rest, j, raw);
    TemplateBraces(t);
    assert raw[|raw| - 1] in raw && raw[0] in raw;
    assert t[j] == raw[0] && t[j + |raw| - 1] == raw[|raw| - 1];
    assert (t[j..] + rest)[|raw|] == t[j + |raw|];
  }

  lemma NotFoundInside(t: string, rest: string, j: nat, raw: string, whole: bool, prevDigit: bool)
    requires IsTemplate(t) && BraceFree(raw) && raw != [] && j < |t| && (j > 0 ==> prevDigit == IsDigit(t[j - 1]))
    requires !Hits(t, raw, whole)
    ensures !Found(t[j..] + rest, raw, whole, prevDigit)
  {
    hide IsTemplate, Found;
    if Found(t[j..] + rest, raw, whole, prevDigit) { FoundInside(t, rest, j, raw, whole, prevDigit); }
  }

  /** A reference passes through the rewriting unchanged. */
  lemma {:induction false} SkipReference(t: string, rest: string, j: nat, raw: string, u: string, whole: bool,
                                         prevDigit: bool)
    requires IsTemplate(t) && BraceFree(raw) && raw != [] && j < |t| && (j > 0 ==> prevDigit == IsDigit(t[j - 1]))
    requires !Hits(t, raw, whole)
    ensures Rewrite(t[j..] + rest, raw, u, whole, prevDigit) == t[j..] + Rewrite(rest, raw, u, whole, false)
    decreases |t| - j
  {
    hide IsTemplate, Hits, Found;
    NotFoundInside(t, rest, j, raw, whole, prevDigit);
    var s := t[j..] + rest;
    assert s[0] == t[j] && s[1..] == t[j + 1..] + rest && t[j..] == [t[j]] + t[j + 1..];
    if j + 1 < |t| {
      SkipReference(t, rest, j + 1, raw, u, whole, IsDigit(t[j]));
    } else {
      TemplateBraces(t);
      assert t[j + 1..] == [] && [] + rest == rest;
    }
  }

  /** The digit test looks at the same character in the text and in the tokens. */
  lemma {:induction false} NextDigit(ts: seq<Token>)
    requires forall i :: 0 <= i < |ts| && ts[i].Ref? ==> IsTemplate(ts[i].t)
    ensures DigitNext(ts) <==> Render(ts) != [] && IsDigit(Render(ts)[0])
  {
    if ts != [] && ts[0].Ref? { TemplateBraces(ts[0].t); }
  }

  lemma OutsideTail(ts: seq<Token>, raw: string, whole: bool, k: nat)
    requires Outside(ts, raw, whole) && k <= |ts|
    ensures Outside(ts[k..], raw, whole)
  {}

  lemma FoundSpelled(ts: seq<Token>, raw: string, whole: bool, prevDigit: bool)
    requires BraceFree(raw) && raw != [] && Outside(ts, raw, whole)
    ensures Found(Render(ts), raw, whole, prevDigit) <==>
      Spells(ts, raw) && (whole ==> !prevDigit && !DigitNext(ts[|raw|..]))
  {
    hide IsTemplate, Hits;
    if raw <= Render(ts) { PrefixIsSpelled(ts, raw); }
    if Spells(ts, raw) {
      RenderSpelled(ts, raw);
      OutsideTail(ts, raw, whole, |raw|);
      NextDigit(ts[|raw|..]);
      assert Render(ts)[|raw|..] == Render(ts[|raw|..]);
    }
  }

  /** Rewriting the rendered text is rendering the rewritten tokens. */
  lemma {:induction false} RewriteRendered(ts: seq<Token>, raw: string, t: string, whole: bool, prevDigit: bool)
    requires BraceFree(raw) && raw != [] && Outside(ts, raw, whole)
    ensures Rewrite(Render(ts), raw, t, whole, prevDigit) == Render(RewriteTokens(ts, raw, t, whole, prevDigit))
    decreases |ts|
  {
    hide IsTemplate, Hits, Found, DigitNext, Spells;
    if ts != [] {
      FoundSpelled(ts, raw, whole, prevDigit);
      if Found(Render(ts), raw, whole, prevDigit) {
        RewriteFound(ts, raw, t, whole, prevDigit);
        OutsideTail(ts, raw, whole, |raw|);
        RewriteRendered(ts[|raw|..], raw, t, whole, IsDigit(raw[|raw| - 1]));
      } else {
        OutsideTail(ts, raw, whole, 1);
        RewriteRendered(ts[1..], raw, t, whole, ts[0].Lit? && IsDigit(ts[0].c));
        RewriteSkips(ts, raw, t, whole, prevDigit);
      }
    }
  }

  lemma RewriteFound(ts: seq<Token>, raw: string, t: string, whole: bool, prevDigit: bool)
    requires BraceFree(raw) && raw != [] && Outside(ts, raw, whole) && ts != []
    requires Spells(ts, raw) && (whole ==> !prevDigit && !DigitNext(ts[|raw|..]))
    requires Found(Render(ts), raw, whole, prevDigit)
    ensures |raw| <= |ts|
    ensures Rewrite(Render(ts), raw, t, whole, prevDigit)
         == t + Rewrite(Render(ts[|raw|..]), raw, t, whole, IsDigit(raw[|raw| - 1]))
    ensures Render(RewriteTokens(ts, raw, t, whole, prevDigit))
         == t + Render(RewriteTokens(ts[|raw|..], raw, t, whole, IsDigit(raw[|raw| - 1])))
  {
    RenderSpelled(ts, raw);
    assert Render(ts)[|raw|..] == Render(ts[|raw|..]);
    var rest := RewriteTokens(ts[|raw|..], raw, t, whole, IsDigit(raw[|raw| - 1]));
    assert ([Ref(t)] + rest)[1..] == rest;
  }

  lemma RewriteSkips(ts: seq<Token>, raw: string, t: string, whole: bool, prevDigit: bool)
    requires BraceFree(raw) && raw != [] && Outside(ts, raw, whole) && ts != []
    requires !Found(Render(ts), raw, whole, prevDigit)
    requires !(Spells(ts, raw) && (whole ==> !prevDigit && !DigitNext(ts[|raw|..])))
    ensures var next := ts[0].Lit? && IsDigit(ts[0].c);
      && Rewrite(Render(ts), raw, t, whole, prevDigit) ==
        Rendered(ts[0]) + Rewrite(Render(ts[1..]), raw, t, whole, next)
      && Render(RewriteTokens(ts, raw, t, whole, prevDigit))
         == Rendered(ts[0]) + Render(RewriteTokens(ts[1..], raw, t, whole, next))
  {
    hide Found, IsTemplate, Hits;
    var s, rest := Render(ts), Render(ts[1..]);
    var tokens := RewriteTokens(ts[1..], raw, t, whole, ts[0].Lit? && IsDigit(ts[0].c));
    assert ([ts[0]] + tokens)[1..] == tokens;
    match ts[0] {
      case Lit(c) => assert s[0] == c && s[1..] == rest;
      case Ref(u) =>
        TemplateBraces(u);
        assert u[0..] == u;
        SkipReference(u, rest, 0, raw, t, whole, prevDigit);
    }
  }

  /** Rewriting the tokens does not change what they stand for. */
  lemma {:induction false} RewriteMeaning(values: map<string, string>, ts: seq<Token>, raw: string, t: string,
                                          whole: bool, prevDigit: bool)
    requires raw != [] && t in values && values[t] == raw
    ensures Expand(values, RewriteTokens(ts, raw, t, whole, prevDigit)) == Expand(values, ts)
    decreases |ts|
  {
    if ts != [] {
      var tokens := RewriteTokens(ts, raw, t, whole, prevDigit);
      if Spells(ts, raw) && (whole ==> !prevDigit && !DigitNext(ts[|raw|..])) {
        var rest := RewriteTokens(ts[|raw|..], raw, t, whole, IsDigit(raw[|raw| - 1]));
        RewriteMeaning(values, ts[|raw|..], raw, t, whole, IsDigit(raw[|raw| - 1]));
        ExpandSpelled(values, ts, raw);
        assert tokens[1..] == rest;
      } else {
        var rest := RewriteTokens(ts[1..], raw, t, whole, ts[0].Lit? && IsDigit(ts[0].c));
        RewriteMeaning(values, ts[1..], raw, t, whole, ts[0].Lit? && IsDigit(ts[0].c));
        assert tokens[1..] == rest;
      }
    }
  }

  /** Rewriting keeps the list well formed, and its references among the old ones and the new template. */
  lemma {:induction false} RewriteKeeps(values: map<string, string>, ts: seq<Token>, raw: string, t: string,
                                        whole: bool, prevDigit: bool)
    requires raw != [] && t in values && IsTemplate(t) && WellFormed(values, ts)
    ensures var tokens := RewriteTokens(ts, raw, t, whole, prevDigit);
      && WellFormed(values, tokens)
      && (forall k :: k in tokens && k.Ref? ==> k == Ref(t) || k in ts)
      && (tokens != [] && tokens[0].Lit? ==> ts != [] && tokens[0] == ts[0])
    decreases |ts|
  {
    hide IsTemplate;
    if ts != [] {
      var tokens := RewriteTokens(ts, raw, t, whole, prevDigit);
      if Spells(ts, raw) && (whole ==> !prevDigit && !DigitNext(ts[|raw|..])) {
        var rest := RewriteTokens(ts[|raw|..], raw, t, whole, IsDigit(raw[|raw| - 1]));
        assert WellFormed(values, ts[|raw|..]);
        RewriteKeeps(values, ts[|raw|..], raw, t, whole, IsDigit(raw[|raw| - 1]));
        ConsWellFormed(values, Ref(t), rest);
        assert forall k :: k in ts[|raw|..] ==> k in ts;
      } else {
        var rest := RewriteTokens(ts[1..], raw, t, whole, ts[0].Lit? && IsDigit(ts[0].c));
        assert WellFormed(values, ts[1..]);
        RewriteKeeps(values, ts[1..], raw, t, whole, ts[0].Lit? && IsDigit(ts[0].c));
        ConsWellFormed(values, ts[0], rest);
        assert forall k :: k in ts[1..] ==> k in ts;
      }
    }
  }

  lemma {:induction false} ConsWellFormed(values: map<string, string>, k: Token, ts: seq<Token>)
    requires WellFormed(values, ts)
    requires k.Ref? ==> IsTemplate(k.t) && k.t in values
    requires ts != [] ==> !(k == Lit('{') && ts[0] == Lit('{'))
    ensures WellFormed(values, [k] + ts)
  {
    hide IsTemplate;
    var all := [k] + ts;
    forall i | 0 <= i < |all| && all[i].Ref? ensures IsTemplate(all[i].t) && all[i].t in values {
      if i > 0 { assert all[i] == ts[i - 1]; }
    }
    forall i | 0 <= i < |all| - 1 ensures !(all[i] == Lit('{') && all[i + 1] == Lit('{')) {
      if i > 0 { assert all[i] == ts[i - 1] && all[i + 1] == ts[i]; }
    }
  }
}
