/** The Functions runner's observation log: an append-only file, read from a byte cursor. */
module Observations {
  import opened Options
  import opened Sorting
  import opened Rewriting
  import opened Utf8

  /** `lastIndexOf` of a single element */
  function LastIndex<T(==)>(s: seq<T>, x: T): (r: Option<nat>)
    ensures r.None? <==> x !in s
    ensures r.Some? ==> r.value < |s| && s[r.value] == x && x !in s[r.value + 1..]
  {
    if s == [] then None
    else
      var last := |s| - 1;
      if s[last] == x then Some(last)
      else
        var r := LastIndex(s[..last], x);
        DropLast(s, x, r);
        r
  }

  lemma {:induction false} DropLast<T>(s: seq<T>, x: T, r: Option<nat>)
    requires s != [] && s[|s| - 1] != x && (r.None? <==> x !in s[..|s| - 1])
    requires r.Some? ==> r.value < |s| - 1 && x !in s[..|s| - 1][r.value + 1..]
    ensures x in s <==> x in s[..|s| - 1]
    ensures r.Some? ==> x !in s[r.value + 1..]
  {
    assert s == s[..|s| - 1] + [s[|s| - 1]];
    if r.Some? { assert s[r.value + 1..] == s[..|s| - 1][r.value + 1..] + [s[|s| - 1]]; }
  }

  function NonEmpty(parts: seq<string>): seq<string> {
    if parts == [] then [] else (if parts[0] == [] then [] else [parts[0]]) + NonEmpty(parts[1..])
  }

  /** `text.split("\n").filter((line) => line.length > 0)` */
  function Lines(text: string): seq<string> { NonEmpty(Split(text, ['\n'])) }

  datatype Read = Read(items: seq<string>, end: nat)

  /** `readNewObservations`; a file that does not exist reads as nothing new. */
  function ReadNew(content: Option<seq<Byte>>, from: nat): Read {
    if content.None? || from > |content.value| then Read([], from)
    else
      var slice := Decode(content.value[from..]);
      match LastIndex(slice, '\n')
      case None => Read([], from)
      case Some(k) => Read(Lines(slice[..k]), from + |Encode(slice[..k])| + 1)
  }

  // ---------------------------------------------------------------- lines

  lemma {:induction false} NonEmptyAppend(a: seq<string>, b: seq<string>)
    ensures NonEmpty(a + b) == NonEmpty(a) + NonEmpty(b)
  {
    if a == [] {
      assert a + b == b;
    } else {
      assert (a + b)[1..] == a[1..] + b;
      NonEmptyAppend(a[1..], b);
    }
  }

  lemma {:induction false} SplitAppend(x: string, y: string)
    ensures Split(x + (['\n'] + y), ['\n']) == Split(x, ['\n']) + Split(y, ['\n'])
    decreases |x|
  {
    var s := x + (['\n'] + y);
    if x == [] {
      assert s == ['\n'] + y && s[1..] == y;
      assert ['\n'] <= s;
    } else {
      assert s[0] == x[0] && s[1..] == x[1..] + (['\n'] + y);
      SplitAppend(x[1..], y);
      var rest, later := Split(x[1..], ['\n']), Split(y, ['\n']);
      assert ['\n'] <= s <==> ['\n'] <= x;
      if ['\n'] <= x {
        AppendAssoc([[]], rest, later);
      } else {
        AppendAssoc([[x[0]] + rest[0]], rest[1..], later);
        assert (rest + later)[1..] == rest[1..] + later;
      }
    }
  }

  /** The lines in front of a newline and those behind it. */
  lemma LinesAppend(x: string, y: string)
    ensures Lines(x + (['\n'] + y)) == Lines(x) + Lines(y)
  {
    SplitAppend(x, y);
    NonEmptyAppend(Split(x, ['\n']), Split(y, ['\n']));
  }

  // ---------------------------------------------------------------- one read

  lemma LastNewlineIs(s: string, x: string, y: string)
    requires s == x + (['\n'] + y) && '\n' !in y
    ensures LastIndex(s, '\n') == Some(|x|)
  {
    assert s[|x|] == '\n' && '\n' in s;
    var k := LastIndex(s, '\n').value;
    forall i | |x| < i < |s| ensures s[i] != '\n' { assert s[i] == y[i - |x| - 1]; }
    forall i | k < i < |s| ensures s[i] != '\n' { assert s[i] == s[k + 1..][i - k - 1]; }
  }

  /** A read takes the lines up to the last newline byte, for all bytes; the cursor moves by their measured length. */
  lemma {:induction false} ReadsUpToNewline(content: seq<Byte>, from: nat, a: seq<Byte>, b: seq<Byte>)
    requires from <= |content| && content[from..] == a + ([LF] + b) && LF !in b
    ensures ReadNew(Some(content), from) == Read(Lines(Decode(a)), from + |a| + 1 + Overshoot(a))
  {
    hide Decode, Encode, Lines, Overshoot;
    DecodeAtNewline(a, b);
    DecodeNoNewline(b);
    MeasuredLength(a);
    var slice := Decode(content[from..]);
    LastNewlineIs(slice, Decode(a), Decode(b));
    assert slice[..|Decode(a)|] == Decode(a);
  }

  lemma ReadsNothing(content: seq<Byte>, from: nat)
    requires from <= |content| && LF !in content[from..]
    ensures ReadNew(Some(content), from) == Read([], from)
  {
    DecodeNoNewline(content[from..]);
  }

  // ---------------------------------------------------------------- when the cursor is right

  /** The start of the file, or just behind a newline. */
  predicate Boundary(file: seq<Byte>, at: nat) { at <= |file| && (at == 0 || file[at - 1] == LF) }

  lemma {:induction false} DecodeLine(a: seq<Byte>)
    ensures Decode(a + [LF]) == Decode(a) + ['\n'] && Lines(Decode(a + [LF])) == Lines(Decode(a))
  {
    hide Decode;
    DecodeAtNewline(a, []);
    assert a + ([LF] + []) == a + [LF];
    assert Decode([]) == [] by { DecodeNothing(); }
    assert Decode(a) + (['\n'] + []) == Decode(a) + ['\n'];
    LinesAppend(Decode(a), []);
    assert Lines([]) == [];
  }

  lemma DecodeNothing()
    ensures Decode([]) == []
  {}

  /** The cursor is on a boundary, the items are the complete lines up to it and no complete line is left. */
  ghost predicate GoodRead(file: seq<Byte>, n: nat, from: nat, r: Read)
    requires n <= |file|
  {
    && from <= r.end && Boundary(file, r.end) && r.items == Lines(Decode(file[from..r.end]))
    && (from <= n ==> r.end <= n && LF !in file[r.end..n])
  }

  /** What a read of the first `n` bytes takes: the bytes from the cursor up to the last newline. */
  function Taken(file: seq<Byte>, n: nat, from: nat): seq<Byte>
    requires n <= |file|
  {
    if from <= n && LF in file[from..n] then file[from..n][..LastIndex(file[from..n], LF).value] else []
  }

  lemma {:induction false} ReadWithoutNewline(file: seq<Byte>, n: nat, from: nat)
    requires n <= |file| && Boundary(file, from) && (from <= n ==> LF !in file[from..n])
    ensures GoodRead(file, n, from, ReadNew(Some(file[..n]), from))
  {
    hide Decode, Lines;
    NoLines(file, from);
    if from <= n {
      assert file[..n][from..] == file[from..n];
      ReadsNothing(file[..n], from);
    }
  }

  lemma {:induction false} ReadWithNewline(file: seq<Byte>, n: nat, from: nat, k: nat)
    requires n <= |file| && from + k < n && file[from + k] == LF && LF !in file[from + k + 1..n]
    ensures GoodRead(file, n, from, ReadNew(Some(file[..n]), from)) <==> Overshoot(file[from..n][..k]) == 0
  {
    hide Decode, Lines, ReadNew, LastIndex, Overshoot;
    var a, b := file[from..n][..k], file[from..n][k + 1..];
    CutInside(file, n, from, k);
    ReadsUpToNewline(file[..n], from, a, b);
    var r := ReadNew(Some(file[..n]), from);
    DecodeLine(a);
    if Overshoot(a) > 0 && r.end <= n { assert file[r.end - 1] == file[from + k + 1..n][r.end - 1 - from - k - 1]; }
  }

  /**
   * For all bytes, wherever the file is cut, even inside a character: the read is good if and only if nothing of what
   * it takes is measured longer than it is.
   */
  lemma {:induction false} ReadExactly(file: seq<Byte>, n: nat, from: nat)
    requires n <= |file| && Boundary(file, from)
    ensures GoodRead(file, n, from, ReadNew(Some(file[..n]), from)) <==> Overshoot(Taken(file, n, from)) == 0
  {
    hide GoodRead, ReadNew;
    if from <= n && LF in file[from..n] {
      var k := LastIndex(file[from..n], LF).value;
      assert file[from..n][k] == file[from + k] && file[from..n][k + 1..] == file[from + k + 1..n];
      ReadWithNewline(file, n, from, k);
    } else {
      ReadWithoutNewline(file, n, from);
    }
  }

  /** Where the pieces of a read lie in the file. */
  lemma {:induction false} CutInside(file: seq<Byte>, n: nat, from: nat, k: nat)
    requires from + k < n <= |file|
    ensures var seg := file[from..n];
      var a, b := seg[..k], seg[k + 1..];
      && file[..n][from..] == a + ([file[from + k]] + b)
      && file[from..from + k + 1] == a + [file[from + k]] && file[from + k + 1..n] == b
  {
    assert file[..n][from..] == file[from..n];
  }

  lemma {:induction false} NoLines(file: seq<Byte>, from: nat)
    requires from <= |file|
    ensures Lines(Decode(file[from..from])) == []
  {
    assert file[from..from] == [];
  }

  /** No complete line of the file is measured longer than it is. */
  ghost predicate Measured(file: seq<Byte>) {
    forall k :: 0 <= k < |file| && file[k] == LF ==> Overshoot(file[..k]) == 0
  }

  lemma {:induction false} MeasuredPart(file: seq<Byte>, from: nat, k: nat)
    requires Measured(file) && Boundary(file, from) && from <= k < |file| && file[k] == LF
    ensures Overshoot(file[from..k]) == 0
  {
    hide Overshoot;
    if from == 0 {
      assert file[0..k] == file[..k];
    } else {
      assert file[..k] == file[..from - 1] + ([LF] + file[from..k]);
      OvershootAtNewline(file[..from - 1], file[from..k]);
    }
  }

  lemma {:induction false} MeasuredRead(file: seq<Byte>, n: nat, from: nat)
    requires Measured(file) && n <= |file| && Boundary(file, from)
    ensures GoodRead(file, n, from, ReadNew(Some(file[..n]), from))
  {
    hide GoodRead, ReadNew, Overshoot;
    ReadExactly(file, n, from);
    if from <= n && LF in file[from..n] {
      var k := LastIndex(file[from..n], LF).value;
      assert file[from..n][..k] == file[from..from + k] && file[from + k] == file[from..n][k];
      MeasuredPart(file, from, from + k);
    } else {
      assert Overshoot([]) == 0 by { NoOvershoot(); }
    }
  }

  lemma NoOvershoot()
    ensures Overshoot([]) == 0
  {}

  /** Every read of every part of a file, from any boundary, is good if and only if the file is measured right. */
  lemma {:induction false} AllReadsGood(file: seq<Byte>)
    ensures Measured(file) <==> forall n: nat, from: nat :: n <= |file| && Boundary(file, from) ==>
      GoodRead(file, n, from, ReadNew(Some(file[..n]), from))
  {
    hide GoodRead, ReadNew, Overshoot;
    if Measured(file) {
      forall n: nat, from: nat | n <= |file| && Boundary(file, from)
        ensures GoodRead(file, n, from, ReadNew(Some(file[..n]), from))
      {
        MeasuredRead(file, n, from);
      }
    } else {
      var k :| 0 <= k < |file| && file[k] == LF && Overshoot(file[..k]) != 0;
      ReadExactly(file, k + 1, 0);
      UpToNewline(file, k);
    }
  }

  lemma {:induction false} UpToNewline(file: seq<Byte>, k: nat)
    requires k < |file| && file[k] == LF
    ensures Taken(file, k + 1, 0) == file[..k]
  {
    var seg := file[0..k + 1];
    assert seg[k] == LF && seg[..k] == file[..k];
  }

  /** Encoded text is measured right. */
  lemma {:induction false} EncodedMeasured(text: string)
    ensures Measured(Encode(text))
  {
    hide Encode, Decode, Overshoot;
    var file := Encode(text);
    forall k | 0 <= k < |file| && file[k] == LF ensures Overshoot(file[..k]) == 0 {
      assert file == file[..k] + ([LF] + file[k + 1..]);
      var u, v := EncodeCut(text, file[..k], file[k + 1..]);
      DecodeEncode(u);
      MeasuredLength(file[..k]);
    }
  }

  /** A single stray byte sends the cursor past the newline. */
  lemma {:induction false} StrayByteMovesCursor()
    ensures ReadNew(Some([0xFF, LF]), 0).end == 4
  {
    hide ReadNew, Lines, Decode;
    var one: seq<Byte> := [0xFF];
    assert [0xFF, LF][0..] == one + ([LF] + []);
    ReadsUpToNewline([0xFF, LF], 0, one, []);
    assert Extent(one, 1) == 1 && one[1..] == [];
  }

  /** A sequence broken off after three bytes does not, although it is no UTF-8 either. */
  lemma {:induction false} ThreeBytesMeasureRight()
    ensures ReadNew(Some([0xF0, 0x9F, 0x98, LF]), 0).end == 4
    ensures Encode(Decode([0xF0, 0x9F, 0x98])) != [0xF0, 0x9F, 0x98]
  {
    hide ReadNew, Lines;
    var three: seq<Byte> := [0xF0, 0x9F, 0x98];
    assert [0xF0, 0x9F, 0x98, LF][0..] == three + ([LF] + []);
    ReadsUpToNewline([0xF0, 0x9F, 0x98, LF], 0, three, []);
    assert Extent(three, 3) == 3 && Extent(three, 2) == 3 && Extent(three, 1) == 3 && three[3..] == [];
    assert Decode(three) == [REPLACEMENT] && [REPLACEMENT][1..] == [];
    assert Encode([REPLACEMENT]) == EncodeChar(REPLACEMENT) + [];
    assert EncodeChar(REPLACEMENT)[0] == 0xEF;
  }

  // ---------------------------------------------------------------- whole programs

  /** The committed cursor after reads of the first `cuts[0]`, `cuts[1]`, ... bytes. */
  function Cursor(file: seq<Byte>, start: nat, cuts: seq<nat>): nat
    requires forall i :: 0 <= i < |cuts| ==> cuts[i] <= |file|
    decreases |cuts|
  {
    if cuts == [] then start
    else ReadNew(Some(file[..cuts[|cuts| - 1]]), Cursor(file, start, cuts[..|cuts| - 1])).end
  }

  function Collected(file: seq<Byte>, start: nat, cuts: seq<nat>): seq<string>
    requires forall i :: 0 <= i < |cuts| ==> cuts[i] <= |file|
    decreases |cuts|
  {
    if cuts == [] then []
    else
      Collected(file, start, cuts[..|cuts| - 1])
      + ReadNew(Some(file[..cuts[|cuts| - 1]]), Cursor(file, start, cuts[..|cuts| - 1])).items
  }

  lemma LinesOfParts(file: seq<Byte>, start: nat, from: nat, end: nat)
    requires start <= from <= end <= |file| && (from == start || file[from - 1] == LF)
    ensures Lines(Decode(file[start..end])) == Lines(Decode(file[start..from])) + Lines(Decode(file[from..end]))
  {
    hide Decode, Lines;
    if from == start {
      NoLines(file, from);
    } else {
      var a, b := file[start..from - 1], file[from..end];
      assert file[start..from] == a + [LF];
      assert file[start..end] == a + ([LF] + b);
      DecodeAtNewline(a, b);
      LinesAppend(Decode(a), Decode(b));
      DecodeLine(a);
    }
  }

  /**
   * Over any sequence of reads, every complete non-empty line up to the cursor is collected exactly once and in order,
   * and behind the cursor there is no complete line in any part that was read.
   */
  lemma {:induction false} EachLineOnce(file: seq<Byte>, start: nat, cuts: seq<nat>)
    requires Measured(file) && Boundary(file, start)
    requires forall i :: 0 <= i < |cuts| ==> cuts[i] <= |file|
    ensures var end := Cursor(file, start, cuts);
      && start <= end && Boundary(file, end)
      && Collected(file, start, cuts) == Lines(Decode(file[start..end]))
      && forall i :: 0 <= i < |cuts| && end <= cuts[i] ==> LF !in file[end..cuts[i]]
    decreases |cuts|
  {
    hide Decode, Lines, ReadNew, Measured;
    if cuts == [] {
      NoLines(file, start);
    } else {
      var before, n := cuts[..|cuts| - 1], cuts[|cuts| - 1];
      EachLineOnce(file, start, before);
      var from, end := Cursor(file, start, before), Cursor(file, start, cuts);
      MeasuredRead(file, n, from);
      LinesOfParts(file, start, from, end);
      forall i | 0 <= i < |cuts| && end <= cuts[i] ensures LF !in file[end..cuts[i]] {
        if i < |before| { LaterPart(file, from, end, before[i]); }
      }
    }
  }

  lemma {:induction false} LaterPart(file: seq<Byte>, from: nat, end: nat, n: nat)
    requires from <= end <= n <= |file| && LF !in file[from..n]
    ensures LF !in file[end..n]
  {
    assert file[end..n] == file[from..n][end - from..];
  }

  // ---------------------------------------------------------------- what a step waits for

  /** No expectation, a number of items, or a list of handler names. */
  datatype Expectation = Nothing | Number(n: nat) | Handlers(names: seq<string>)

  /** A list of names is satisfied as a multiset; an item without a handler has the empty name. */
  predicate Satisfied(awaited: Expectation, items: seq<string>, handler: string -> string) {
    match awaited
    case Nothing => true
    case Number(n) => |items| >= n
    case Handlers(names) => multiset(names) <= multiset(Map(handler, items))
  }

  /** `remaining.indexOf(name)`, then `splice` */
  method Remove(remaining: seq<string>, name: string) returns (rest: seq<string>)
    ensures multiset(rest) == multiset(remaining) - multiset{name}
  {
    var i := 0;
    while i < |remaining| && remaining[i] != name
      invariant 0 <= i <= |remaining| && name !in remaining[..i]
    {
      i := i + 1;
    }
    if i == |remaining| {
      assert remaining[..i] == remaining;
      return remaining;
    }
    rest := remaining[..i] + remaining[i + 1..];
    assert remaining == remaining[..i] + [name] + remaining[i + 1..];
  }

  method CheckSatisfied(awaited: Expectation, items: seq<string>, handler: string -> string) returns (ok: bool)
    ensures ok <==> Satisfied(awaited, items, handler)
  {
    match awaited {
      case Nothing => return true;
      case Number(n) => return |items| >= n;
      case Handlers(names) =>
        var remaining := names;
        ghost var handlers := Map(handler, items);
        var i := 0;
        while i < |items|
          invariant 0 <= i <= |items|
          invariant multiset(remaining) == Minus(names, handlers[..i])
        {
          remaining := Remove(remaining, handler(items[i]));
          MinusOne(names, handlers, i);
          i := i + 1;
        }
        assert handlers[..i] == handlers;
        NothingLeft(remaining, names, handlers);
        return remaining == [];
    }
  }

  ghost function Minus(names: seq<string>, handlers: seq<string>): multiset<string> {
    multiset(names) - multiset(handlers)
  }

  lemma MinusOne(names: seq<string>, handlers: seq<string>, i: nat)
    requires i < |handlers|
    ensures Minus(names, handlers[..i + 1]) == Minus(names, handlers[..i]) - multiset{handlers[i]}
  {
    assert handlers[..i + 1] == handlers[..i] + [handlers[i]];
  }

  lemma NothingLeft(remaining: seq<string>, names: seq<string>, handlers: seq<string>)
    requires multiset(remaining) == Minus(names, handlers)
    ensures remaining == [] <==> multiset(names) <= multiset(handlers)
  {
    if remaining == [] {
      forall x ensures multiset(names)[x] <= multiset(handlers)[x] {
        assert Minus(names, handlers)[x] == 0;
      }
    } else {
      assert remaining[0] in multiset(remaining);
    }
  }

  /** Later reads only add lines. */
  lemma ReadsGrow(content: seq<Byte>, more: seq<Byte>, from: nat)
    ensures ReadNew(Some(content), from).items <= ReadNew(Some(content + more), from).items
  {
    hide Decode, Encode, Lines;
    if from <= |content| && LF in content[from..] {
      var seg := content[from..];
      var k := LastIndex(seg, LF).value;
      AppendInside(content, more, from, k);
      ReadsUpToNewline(content, from, seg[..k], seg[k + 1..]);
      hide ReadNew;
      GrownRead(content + more, from, seg[..k], seg[k + 1..] + more);
    } else if from <= |content| {
      ReadsNothing(content, from);
    }
  }

  lemma AppendInside(content: seq<Byte>, more: seq<Byte>, from: nat, k: nat)
    requires from + k < |content|
    ensures var seg := content[from..];
      && seg == seg[..k] + ([seg[k]] + seg[k + 1..])
      && (content + more)[from..] == seg[..k] + ([seg[k]] + (seg[k + 1..] + more))
  {}

  /** A read takes at least the lines in front of any newline it sees. */
  lemma GrownRead(content: seq<Byte>, from: nat, a: seq<Byte>, b: seq<Byte>)
    requires from <= |content| && content[from..] == a + ([LF] + b)
    ensures Lines(Decode(a)) <= ReadNew(Some(content), from).items
  {
    hide Decode, Encode, Lines, ReadNew;
    if LF !in b {
      ReadsUpToNewline(content, from, a, b);
    } else {
      var l := LastIndex(b, LF).value;
      var c, d := b[..l], b[l + 1..];
      assert b == c + ([LF] + d);
      Rebracket(a, c, d);
      ReadsUpToNewline(content, from, a + ([LF] + c), d);
      DecodeAtNewline(a, c);
      LinesAppend(Decode(a), Decode(c));
    }
  }

  lemma Rebracket(a: seq<Byte>, c: seq<Byte>, d: seq<Byte>)
    ensures a + ([LF] + (c + ([LF] + d))) == (a + ([LF] + c)) + ([LF] + d)
  {}

  lemma SatisfiedGrows(awaited: Expectation, items: seq<string>, more: seq<string>, handler: string -> string)
    requires items <= more && Satisfied(awaited, items, handler)
    ensures Satisfied(awaited, more, handler)
  {
    var h, g := Map(handler, items), Map(handler, more);
    assert g == h + g[|h|..];
  }

  datatype Poll = Poll(content: seq<Byte>, expired: bool)

  /** The polls of one step, each seeing at least what the one before saw; the last is past the deadline. */
  ghost predicate Growing(polls: seq<Poll>, last: seq<Byte>) {
    && polls != [] && polls[|polls| - 1].expired && polls[|polls| - 1].content <= last
    && (forall i, j :: 0 <= i < j < |polls| ==> polls[i].content <= polls[j].content)
  }

  /** The first poll past the deadline. */
  function FirstExpired(polls: seq<Poll>, i: nat): (e: nat)
    requires i < |polls| && polls[|polls| - 1].expired
    ensures i <= e < |polls| && polls[e].expired && forall k :: i <= k < e ==> !polls[k].expired
    decreases |polls| - i
  {
    if polls[i].expired then i else FirstExpired(polls, i + 1)
  }

  predicate PollSatisfied(awaited: Expectation, from: nat, poll: Poll, handler: string -> string) {
    Satisfied(awaited, ReadNew(Some(poll.content), from).items, handler)
  }

  /**
   * A step times out exactly when no poll up to the first one past the deadline sees what it waits for; otherwise
   * what it records satisfies it.
   */
  method CollectObservations(awaited: Expectation, from: nat, polls: seq<Poll>, last: seq<Byte>,
                             handler: string -> string)
    returns (observations: seq<string>, cursor: nat, timedOut: bool)
    requires Growing(polls, last)
    ensures Read(observations, cursor) == ReadNew(Some(last), from)
    ensures !timedOut ==> Satisfied(awaited, observations, handler)
    ensures timedOut <==> forall i :: 0 <= i <= FirstExpired(polls, 0) ==>
      !PollSatisfied(awaited, from, polls[i], handler)
  {
    hide ReadNew, Satisfied;
    timedOut := false;
    var i := 0;
    while true
      invariant 0 <= i <= FirstExpired(polls, 0) && !timedOut
      invariant forall j :: 0 <= j < i ==> !PollSatisfied(awaited, from, polls[j], handler)
      decreases |polls| - i
    {
      var items := ReadNew(Some(polls[i].content), from).items;
      var ok := CheckSatisfied(awaited, items, handler);
      if ok {
        assert PollSatisfied(awaited, from, polls[i], handler);
        PollGrows(awaited, from, polls, i, last, handler);
        break;
      }
      if polls[i].expired {
        timedOut := awaited != Nothing && !(awaited == Number(0) && items == []);
        assert timedOut by { AlwaysSatisfied(items, handler); }
        break;
      }
      i := i + 1;
    }
    var read := ReadNew(Some(last), from);
    return read.items, read.end, timedOut;
  }

  lemma {:induction false} PollGrows(awaited: Expectation, from: nat, polls: seq<Poll>, i: nat, last: seq<Byte>,
                                     handler: string -> string)
    requires Growing(polls, last) && i < |polls| && PollSatisfied(awaited, from, polls[i], handler)
    ensures Satisfied(awaited, ReadNew(Some(last), from).items, handler)
  {
    hide ReadNew, Satisfied;
    var content := polls[i].content;
    assert content <= polls[|polls| - 1].content <= last;
    assert last == content + last[|content|..];
    ReadsGrow(content, last[|content|..], from);
    SatisfiedGrows(awaited, ReadNew(Some(content), from).items, ReadNew(Some(last), from).items, handler);
  }

  /** The two expectations the time-out makes exceptions for never get that far. */
  lemma AlwaysSatisfied(items: seq<string>, handler: string -> string)
    ensures Satisfied(Nothing, items, handler) && Satisfied(Number(0), items, handler)
  {}
}
