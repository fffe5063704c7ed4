/** The SIGKILL recovery gate: what its checks count, and what a passed run says about the store. */
module Recovery {
  import opened Text
  import opened Rewriting

  const DOCUMENTS := "projects/demo-firenook-endurance-recovery/databases/(default)/documents/phase1_recovery/"

  function SeedId(round: nat, commit: nat): string {
    "round-" + (Padded(round, 3) + ("-seed-" + Padded(commit, 3)))
  }

  function LiveId(round: nat, live: nat): string {
    "round-" + (Padded(round, 3) + ("-live-" + Padded(live, 4)))
  }

  datatype Side = Left | Right

  function SideText(side: Side): string { match side case Left => "-left" case Right => "-right" }

  function DocumentName(id: string, side: Side): string { DOCUMENTS + (id + SideText(side)) }

  // ---------------------------------------------------------------- names and ids

  /** A document belongs to one side of one commit. */
  lemma DocumentNameInjective(id: string, side: Side, id': string, side': Side)
    requires DocumentName(id, side) == DocumentName(id', side')
    ensures id == id' && side == side'
  {
    var l, r := id + SideText(side), id' + SideText(side');
    SplitFirst(DOCUMENTS, DOCUMENTS, l, r);
    assert l[|l| - 4] == (if side.Left? then 'l' else 'i') && r[|r| - 4] == (if side'.Left? then 'l' else 'i');
    SplitFirst(id, id', SideText(side), SideText(side'));
  }

  /** Digits are told apart from what follows them. */
  lemma DigitsEnd(a: string, x: string, b: string, y: string)
    requires AllDigits(a) && AllDigits(b) && x != [] && y != [] && !IsDigit(x[0]) && !IsDigit(y[0])
    requires a + x == b + y
    ensures a == b && x == y
  {
    var l, r := a + x, b + y;
    assert l[|a|] == x[0] && r[|b|] == y[0];
    forall k | 0 <= k < |a| ensures IsDigit(l[k]) { assert l[k] == a[k] && a[k] in a; }
    forall k | 0 <= k < |b| ensures IsDigit(r[k]) { assert r[k] == b[k] && b[k] in b; }
    assert |a| == |b|;
    SplitFirst(a, b, x, y);
  }

  lemma PaddedInjective(m: nat, n: nat, width: nat)
    requires Padded(m, width) == Padded(n, width)
    ensures m == n
  {
    PaddedValue(m, width);
    PaddedValue(n, width);
  }

  lemma IdParts(round: nat, rest: string, round': nat, rest': string)
    requires rest != [] && rest' != [] && !IsDigit(rest[0]) && !IsDigit(rest'[0])
    requires "round-" + (Padded(round, 3) + rest) == "round-" + (Padded(round', 3) + rest')
    ensures round == round' && rest == rest'
  {
    SplitFirst("round-", "round-", Padded(round, 3) + rest, Padded(round', 3) + rest');
    DigitsEnd(Padded(round, 3), rest, Padded(round', 3), rest');
    PaddedInjective(round, round', 3);
  }

  lemma SeedIdInjective(round: nat, commit: nat, round': nat, commit': nat)
    requires SeedId(round, commit) == SeedId(round', commit')
    ensures round == round' && commit == commit'
  {
    hide Padded;
    IdParts(round, "-seed-" + Padded(commit, 3), round', "-seed-" + Padded(commit', 3));
    SplitFirst("-seed-", "-seed-", Padded(commit, 3), Padded(commit', 3));
    PaddedInjective(commit, commit', 3);
  }

  lemma LiveIdInjective(round: nat, live: nat, round': nat, live': nat)
    requires LiveId(round, live) == LiveId(round', live')
    ensures round == round' && live == live'
  {
    hide Padded;
    IdParts(round, "-live-" + Padded(live, 4), round', "-live-" + Padded(live', 4));
    SplitFirst("-live-", "-live-", Padded(live, 4), Padded(live', 4));
    PaddedInjective(live, live', 4);
  }

  lemma SeedIsNotLive(round: nat, commit: nat, round': nat, live: nat)
    ensures SeedId(round, commit) != LiveId(round', live)
  {
    hide Padded;
    var rest, rest' := "-seed-" + Padded(commit, 3), "-live-" + Padded(live, 4);
    assert rest[1] == 's' && rest'[1] == 'l';
    if SeedId(round, commit) == LiveId(round', live) { IdParts(round, rest, round', rest'); }
  }

  const MARKER := "-seed-000"

  lemma MarkerAt(round: nat, word: string, digits: string, i: nat)
    requires |word| == 6 && word[0] == '-' && word[5] == '-' && '-' !in word[1..5] && AllDigits(digits) && |digits| >= 3
    requires OccursAt("round-" + (Padded(round, 3) + (word + digits)), MARKER, i)
    ensures word == "-seed-" && digits[..3] == "000"
  {
    hide Padded;
    var p := Padded(round, 3);
    var id := "round-" + (p + (word + digits));
    var k := 6 + |p|;
    assert id[i..i + 9][0] == '-' && id[i..i + 9][1] == 's';
    assert id[i] == '-' && id[i + 1] == 's';
    forall j | 6 <= j < k ensures IsDigit(id[j]) { assert id[j] == p[j - 6] && p[j - 6] in p; }
    forall j | k + 6 <= j < |id| ensures IsDigit(id[j]) {
      assert id[j] == digits[j - k - 6] && digits[j - k - 6] in digits;
    }
    forall j | k < j < k + 5 ensures id[j] != '-' { assert id[j] == word[1..5][j - k - 1]; }
    assert i == k;
    IdSlice("round-", p, word, digits);
    assert MARKER == "-seed-" + "000";
    SplitFirst(word, "-seed-", digits[..3], "000");
  }

  lemma IdSlice(a: string, b: string, word: string, digits: string)
    requires |word| == 6 && |digits| >= 3
    ensures var k := |a| + |b|; (a + (b + (word + digits)))[k..k + 9] == word + digits[..3]
  {}

  lemma ThreeZeros(n: nat)
    ensures Padded(n, 3)[..3] == "000" <==> n == 0
  {
    var t := NatText(n);
    if n == 0 {
      assert t == ['0'];
      assert Padded(n, 3) == "000";
    } else if |t| >= 3 {
      assert t[..3][0] != '0';
    } else {
      var i := 3 - |t|;
      assert Padded(n, 3)[..3][i] == t[0] != '0';
    }
  }

  /** An id counts for its round exactly when it is the round's first seed. */
  lemma CountedIds(round: nat, n: nat)
    ensures Includes(SeedId(round, n), MARKER) <==> n == 0
    ensures !Includes(LiveId(round, n), MARKER)
  {
    hide Padded;
    ThreeZeros(n);
    if Includes(SeedId(round, n), MARKER) {
      var i :| 0 <= i <= |SeedId(round, n)| && OccursAt(SeedId(round, n), MARKER, i);
      MarkerAt(round, "-seed-", Padded(n, 3), i);
    }
    if n == 0 {
      var k := 6 + |Padded(round, 3)|;
      assert SeedId(round, n)[k..] == "-seed-" + Padded(n, 3);
      assert ("-seed-" + Padded(n, 3))[..9] == "-seed-" + Padded(n, 3)[..3];
      assert SeedId(round, n)[k..k + 9] == SeedId(round, n)[k..][..9];
      assert OccursAt(SeedId(round, n), MARKER, k);
    }
    NoMarker(round, n);
  }

  lemma NoMarker(round: nat, n: nat)
    ensures !Includes(LiveId(round, n), MARKER)
  {
    hide Padded;
    assert "-live-" != "-seed-" by { assert "-live-"[1] != "-seed-"[1]; }
    forall i | 0 <= i <= |LiveId(round, n)| ensures !OccursAt(LiveId(round, n), MARKER, i) {
      if OccursAt(LiveId(round, n), MARKER, i) { MarkerAt(round, "-live-", Padded(n, 4), i); }
    }
  }

  // ---------------------------------------------------------------- one check

  /** Acknowledged commits that are not there in full, and commits of which one document is there without the other. */
  function Lost(names: set<string>, acknowledged: set<string>): set<string> {
    set id | id in acknowledged && !(DocumentName(id, Left) in names && DocumentName(id, Right) in names)
  }

  function Partial(names: set<string>, attempted: set<string>): set<string> {
    set id | id in attempted && (DocumentName(id, Left) in names) != (DocumentName(id, Right) in names)
  }

  method VerifyRecovered(names: set<string>, attempted: set<string>, acknowledged: set<string>)
    returns (lost: nat, partial: nat)
    ensures lost == |Lost(names, acknowledged)| && partial == |Partial(names, attempted)|
  {
    partial, lost := 0, 0;
    var rest := attempted;
    while rest != {}
      invariant rest <= attempted && partial == |Partial(names, attempted - rest)|
      decreases |rest|
    {
      var id :| id in rest;
      assert rest == (rest - {id}) + {id};
      rest := rest - {id};
      PartialGrows(names, attempted, rest, id);
      var left := DocumentName(id, Left) in names;
      var right := DocumentName(id, Right) in names;
      if left != right { partial := partial + 1; }
    }
    assert attempted - rest == attempted;
    rest := acknowledged;
    while rest != {}
      invariant rest <= acknowledged && lost == |Lost(names, acknowledged - rest)|
      decreases |rest|
    {
      var id :| id in rest;
      assert rest == (rest - {id}) + {id};
      rest := rest - {id};
      LostGrows(names, acknowledged, rest, id);
      if DocumentName(id, Left) !in names || DocumentName(id, Right) !in names { lost := lost + 1; }
    }
    assert acknowledged - rest == acknowledged;
  }

  lemma PartialGrows(names: set<string>, all: set<string>, rest: set<string>, id: string)
    requires rest <= all && id in all && id !in rest
    ensures var before, after := Partial(names, all - (rest + {id})), Partial(names, all - rest);
      |after| == |before| + if (DocumentName(id, Left) in names) != (DocumentName(id, Right) in names) then 1 else 0
  {
    hide DocumentName;
    var before, after := Partial(names, all - (rest + {id})), Partial(names, all - rest);
    if (DocumentName(id, Left) in names) != (DocumentName(id, Right) in names) {
      assert after == before + {id};
    } else {
      assert after == before;
    }
  }

  lemma LostGrows(names: set<string>, all: set<string>, rest: set<string>, id: string)
    requires rest <= all && id in all && id !in rest
    ensures var before, after := Lost(names, all - (rest + {id})), Lost(names, all - rest);
      |after| == |before| + if DocumentName(id, Left) in names && DocumentName(id, Right) in names then 0 else 1
  {
    hide DocumentName;
    var before, after := Lost(names, all - (rest + {id})), Lost(names, all - rest);
    if DocumentName(id, Left) in names && DocumentName(id, Right) in names {
      assert after == before;
    } else {
      assert after == before + {id};
    }
  }

  /** The documents of a set of commits. */
  function Documents(ids: set<string>): set<string> {
    set id, side | id in ids && side in {Left, Right} :: DocumentName(id, side)
  }

  /** Every attempted commit is there in full or not at all, and the acknowledged ones are. */
  ghost predicate Recoverable(names: set<string>, attempted: set<string>, acknowledged: set<string>,
                              applied: set<string>)
  {
    acknowledged <= applied <= attempted && names * Documents(attempted) == Documents(applied)
  }

  lemma DocumentOf(ids: set<string>, id: string, side: Side)
    ensures DocumentName(id, side) in Documents(ids) <==> id in ids
  {
    if DocumentName(id, side) in Documents(ids) {
      var id', side' :| id' in ids && side' in {Left, Right} && DocumentName(id', side') == DocumentName(id, side);
      DocumentNameInjective(id', side', id, side);
    }
  }

  /** Both counts are zero exactly when an atomic store that kept the acknowledged commits could have answered so. */
  lemma CheckIsExact(names: set<string>, attempted: set<string>, acknowledged: set<string>)
    requires acknowledged <= attempted
    ensures |Lost(names, acknowledged)| == 0 && |Partial(names, attempted)| == 0 <==>
      exists applied :: Recoverable(names, attempted, acknowledged, applied)
  {
    hide DocumentName;
    if exists applied :: Recoverable(names, attempted, acknowledged, applied) {
      var applied :| Recoverable(names, attempted, acknowledged, applied);
      Recovered(names, attempted, acknowledged, applied);
    }
    if Lost(names, acknowledged) == {} && Partial(names, attempted) == {} {
      var applied := set id | id in attempted && DocumentName(id, Left) in names;
      Rebuilt(names, attempted, acknowledged, applied);
    }
  }

  lemma Recovered(names: set<string>, attempted: set<string>, acknowledged: set<string>, applied: set<string>)
    requires Recoverable(names, attempted, acknowledged, applied)
    ensures Lost(names, acknowledged) == {} && Partial(names, attempted) == {}
  {
    hide DocumentName, Documents;
    forall id, side | id in attempted ensures DocumentName(id, side) in names <==> id in applied {
      DocumentOf(attempted, id, side);
      DocumentOf(applied, id, side);
      assert DocumentName(id, side) in names * Documents(attempted) <==> DocumentName(id, side) in Documents(applied);
    }
  }

  lemma Rebuilt(names: set<string>, attempted: set<string>, acknowledged: set<string>, applied: set<string>)
    requires acknowledged <= attempted && Lost(names, acknowledged) == {} && Partial(names, attempted) == {}
    requires forall id :: id in applied <==> id in attempted && DocumentName(id, Left) in names
    ensures Recoverable(names, attempted, acknowledged, applied)
  {
    hide DocumentName;
    forall id | id in attempted ensures DocumentName(id, Left) in names <==> DocumentName(id, Right) in names {
      assert id !in Partial(names, attempted);
    }
    forall id | id in acknowledged ensures id in applied { assert id !in Lost(names, acknowledged); }
    forall name ensures name in names * Documents(attempted) <==> name in Documents(applied) {
      if name in Documents(attempted) {
        var id, side :| id in attempted && side in {Left, Right} && DocumentName(id, side) == name;
        DocumentOf(applied, id, side);
        assert side == Left || side == Right;
      }
    }
  }

  // ---------------------------------------------------------------- the whole gate

  const LIVE_COMMITS := 1000

  datatype Config = Config(rounds: nat, seeds: nat, minimum: nat, lostAllowed: nat, partialAllowed: nat)

  /**
   * What the server does in one round: whether it starts and `answers` the query, the documents it returns, how many
   * seed commits it acknowledges before one fails, how many live commits, and whether the commit after those is
   * `interrupted` by the kill or fails otherwise.
   */
  datatype Round = Round(answers: bool, names: set<string>, seeds: nat, live: nat, interrupted: bool)

  /** A commit that ends the run without a summary. */
  predicate Throws(c: Config, r: Round) { r.seeds < c.seeds || (r.live < LIVE_COMMITS && !r.interrupted) }

  function SeedIds(round: nat, n: nat): set<string> { set k | 0 <= k < n :: SeedId(round, k) }

  function LiveIds(round: nat, n: nat): set<string> { set k | 0 <= k < n :: LiveId(round, k) }

  function LiveAcked(r: Round): nat { if r.live < LIVE_COMMITS then r.live else LIVE_COMMITS }

  function LiveAttempted(r: Round): nat { if r.live < LIVE_COMMITS then r.live + 1 else LIVE_COMMITS }

  /** The commits acknowledged, and attempted, in the first `n` rounds. */
  function Acked(c: Config, script: seq<Round>, n: nat): set<string>
    requires n <= |script|
  {
    if n == 0 then {}
    else Acked(c, script, n - 1) + SeedIds(n - 1, c.seeds) + LiveIds(n - 1, LiveAcked(script[n - 1]))
  }

  function Attempted(c: Config, script: seq<Round>, n: nat): set<string>
    requires n <= |script|
  {
    if n == 0 then {}
    else Attempted(c, script, n - 1) + SeedIds(n - 1, c.seeds) + LiveIds(n - 1, LiveAttempted(script[n - 1]))
  }

  predicate Clean(c: Config, script: seq<Round>, n: nat)
    requires n < |script|
  {
    |Lost(script[n].names, Acked(c, script, n))| == 0 && |Partial(script[n].names, Attempted(c, script, n))| == 0
  }

  /** `countCompletedRounds` */
  function Completed(acknowledged: set<string>): set<string> { set id | id in acknowledged && Includes(id, MARKER) }

  function AckedCount(c: Config, script: seq<Round>, n: nat): nat
    requires n <= |script|
  {
    if n == 0 then 0 else AckedCount(c, script, n - 1) + c.seeds + LiveAcked(script[n - 1])
  }

  lemma {:induction false} SeedIdsSize(round: nat, n: nat)
    ensures |SeedIds(round, n)| == n
  {
    hide SeedId;
    if n > 0 {
      SeedIdsSize(round, n - 1);
      forall k | 0 <= k < n - 1 ensures SeedId(round, k) != SeedId(round, n - 1) {
        if SeedId(round, k) == SeedId(round, n - 1) { SeedIdInjective(round, k, round, n - 1); }
      }
      assert SeedIds(round, n) == SeedIds(round, n - 1) + {SeedId(round, n - 1)};
    }
  }

  lemma {:induction false} LiveIdsSize(round: nat, n: nat)
    ensures |LiveIds(round, n)| == n
  {
    hide LiveId;
    if n > 0 {
      LiveIdsSize(round, n - 1);
      forall k | 0 <= k < n - 1 ensures LiveId(round, k) != LiveId(round, n - 1) {
        if LiveId(round, k) == LiveId(round, n - 1) { LiveIdInjective(round, k, round, n - 1); }
      }
      assert LiveIds(round, n) == LiveIds(round, n - 1) + {LiveId(round, n - 1)};
    }
  }

  /** An id of some round before `n`. */
  ghost predicate Earlier(id: string, n: nat) {
    exists round: nat, k: nat :: round < n && (id == SeedId(round, k) || id == LiveId(round, k))
  }

  lemma {:induction false} AckedEarlier(c: Config, script: seq<Round>, n: nat)
    requires n <= |script|
    ensures forall id :: id in Acked(c, script, n) ==> Earlier(id, n)
  {
    hide SeedId, LiveId;
    if n > 0 {
      AckedEarlier(c, script, n - 1);
      forall id | id in Acked(c, script, n) ensures Earlier(id, n) {
        if id in Acked(c, script, n - 1) {
          var round: nat, k: nat :| round < n - 1 && (id == SeedId(round, k) || id == LiveId(round, k));
        } else if id in SeedIds(n - 1, c.seeds) {
          var k :| 0 <= k < c.seeds && id == SeedId(n - 1, k);
        } else {
          var k :| 0 <= k < LiveAcked(script[n - 1]) && id == LiveId(n - 1, k);
        }
      }
    }
  }

  lemma NotEarlier(n: nat, k: nat)
    ensures !Earlier(SeedId(n, k), n) && !Earlier(LiveId(n, k), n)
  {
    hide SeedId, LiveId;
    forall round: nat, j: nat | round < n
      ensures SeedId(n, k) != SeedId(round, j) && SeedId(n, k) != LiveId(round, j)
      ensures LiveId(n, k) != SeedId(round, j) && LiveId(n, k) != LiveId(round, j)
    {
      if SeedId(n, k) == SeedId(round, j) { SeedIdInjective(n, k, round, j); }
      if LiveId(n, k) == LiveId(round, j) { LiveIdInjective(n, k, round, j); }
      SeedIsNotLive(n, k, round, j);
      SeedIsNotLive(round, j, n, k);
    }
  }

  lemma SeedsAreNotLive(round: nat, m: nat, n: nat)
    ensures SeedIds(round, m) !! LiveIds(round, n)
  {
    hide SeedId, LiveId;
    forall id | id in SeedIds(round, m) && id in LiveIds(round, n) ensures false {
      var k :| 0 <= k < m && id == SeedId(round, k);
      var j :| 0 <= j < n && id == LiveId(round, j);
      SeedIsNotLive(round, k, round, j);
    }
  }

  lemma {:induction false} RoundIsNew(c: Config, script: seq<Round>, n: nat, m: nat, k: nat)
    requires n <= |script|
    ensures Acked(c, script, n) !! SeedIds(n, m) && Acked(c, script, n) !! LiveIds(n, k)
  {
    hide SeedId, LiveId, Earlier, Acked;
    AckedEarlier(c, script, n);
    forall id | id in SeedIds(n, m) ensures !Earlier(id, n) {
      var j :| 0 <= j < m && id == SeedId(n, j);
      NotEarlier(n, j);
    }
    forall id | id in LiveIds(n, k) ensures !Earlier(id, n) {
      var j :| 0 <= j < k && id == LiveId(n, j);
      NotEarlier(n, j);
    }
  }

  lemma {:induction false} RoundAdds(c: Config, script: seq<Round>, n: nat)
    requires n < |script|
    ensures |Acked(c, script, n + 1)| == |Acked(c, script, n)| + c.seeds + LiveAcked(script[n])
  {
    var live := LiveAcked(script[n]);
    assert Acked(c, script, n + 1) == Acked(c, script, n) + SeedIds(n, c.seeds) + LiveIds(n, live);
    hide Acked, SeedIds, LiveIds, LiveAcked;
    SeedIdsSize(n, c.seeds);
    LiveIdsSize(n, live);
    SeedsAreNotLive(n, c.seeds, live);
    RoundIsNew(c, script, n, c.seeds, live);
    DisjointSizes(Acked(c, script, n), SeedIds(n, c.seeds), LiveIds(n, live));
  }

  /** No id is used twice, so the set of acknowledged commits has as many elements as there were acknowledgements. */
  lemma {:induction false} AckedSize(c: Config, script: seq<Round>, n: nat)
    requires n <= |script|
    ensures |Acked(c, script, n)| == AckedCount(c, script, n)
  {
    hide SeedIds, LiveIds, LiveAcked;
    if n > 0 {
      AckedSize(c, script, n - 1);
      RoundAdds(c, script, n - 1);
    }
  }

  lemma {:induction false} DisjointSizes(a: set<string>, b: set<string>, c: set<string>)
    requires a !! b && a !! c && b !! c
    ensures |a + b + c| == |a| + |b| + |c|
  {
    assert |a + b| == |a| + |b|;
    assert (a + b) !! c;
  }

  function FirstSeeds(n: nat): set<string> { set round | 0 <= round < n :: SeedId(round, 0) }

  lemma {:induction false} FirstSeedsSize(n: nat)
    ensures |FirstSeeds(n)| == n
  {
    hide SeedId;
    if n > 0 {
      FirstSeedsSize(n - 1);
      forall k | 0 <= k < n - 1 ensures SeedId(k, 0) != SeedId(n - 1, 0) {
        if SeedId(k, 0) == SeedId(n - 1, 0) { SeedIdInjective(k, 0, n - 1, 0); }
      }
      assert FirstSeeds(n) == FirstSeeds(n - 1) + {SeedId(n - 1, 0)};
    }
  }

  lemma {:induction false} CompletedAre(c: Config, script: seq<Round>, n: nat)
    requires n <= |script|
    ensures Completed(Acked(c, script, n)) == if c.seeds > 0 then FirstSeeds(n) else {}
  {
    hide SeedId, LiveId, Includes;
    if n > 0 {
      CompletedAre(c, script, n - 1);
      var seeds, live := SeedIds(n - 1, c.seeds), LiveIds(n - 1, LiveAcked(script[n - 1]));
      forall id | id in seeds ensures Includes(id, MARKER) <==> id == SeedId(n - 1, 0) {
        var k :| 0 <= k < c.seeds && id == SeedId(n - 1, k);
        CountedIds(n - 1, k);
        if id == SeedId(n - 1, 0) { SeedIdInjective(n - 1, k, n - 1, 0); }
      }
      forall id | id in live ensures !Includes(id, MARKER) {
        var k :| 0 <= k < LiveAcked(script[n - 1]) && id == LiveId(n - 1, k);
        CountedIds(n - 1, k);
      }
      if c.seeds > 0 {
        assert SeedId(n - 1, 0) in seeds;
        assert FirstSeeds(n) == FirstSeeds(n - 1) + {SeedId(n - 1, 0)};
      }
      assert Completed(Acked(c, script, n)) ==
        Completed(Acked(c, script, n - 1)) + if c.seeds > 0 then {SeedId(n - 1, 0)} else {};
    }
  }

  /** The rounds the summary counts. */
  lemma CompletedRounds(c: Config, script: seq<Round>, n: nat)
    requires n <= |script|
    ensures |Completed(Acked(c, script, n))| == if c.seeds > 0 then n else 0
  {
    CompletedAre(c, script, n);
    FirstSeedsSize(n);
  }

  datatype Verdict = Threw | Summary(passed: bool, completedRounds: nat, acknowledged: nat, lost: nat, partial: nat)

  method SeedCommits(c: Config, round: nat, r: Round, attempted: set<string>, acknowledged: set<string>)
    returns (ok: bool, attempted': set<string>, acknowledged': set<string>)
    ensures ok <==> r.seeds >= c.seeds
    ensures ok ==> attempted' == attempted + SeedIds(round, c.seeds)
    ensures ok ==> acknowledged' == acknowledged + SeedIds(round, c.seeds)
  {
    hide SeedId;
    attempted', acknowledged' := attempted, acknowledged;
    for commit := 0 to c.seeds
      invariant commit <= r.seeds
      invariant attempted' == attempted + SeedIds(round, commit)
      invariant acknowledged' == acknowledged + SeedIds(round, commit)
    {
      var id := SeedId(round, commit);
      assert SeedIds(round, commit + 1) == SeedIds(round, commit) + {id};
      attempted' := attempted' + {id};
      if commit == r.seeds { return false, attempted', acknowledged'; }
      acknowledged' := acknowledged' + {id};
    }
    ok := true;
  }

  method WriteUntilKilled(round: nat, r: Round, attempted: set<string>, acknowledged: set<string>)
    returns (ok: bool, attempted': set<string>, acknowledged': set<string>)
    ensures ok <==> r.live >= LIVE_COMMITS || r.interrupted
    ensures ok ==> attempted' == attempted + LiveIds(round, LiveAttempted(r))
    ensures ok ==> acknowledged' == acknowledged + LiveIds(round, LiveAcked(r))
  {
    hide LiveId;
    attempted', acknowledged' := attempted, acknowledged;
    for live := 0 to LIVE_COMMITS
      invariant live <= r.live
      invariant attempted' == attempted + LiveIds(round, live) && acknowledged' == acknowledged + LiveIds(round, live)
    {
      var id := LiveId(round, live);
      assert LiveIds(round, live + 1) == LiveIds(round, live) + {id};
      attempted' := attempted' + {id};
      if live == r.live { return r.interrupted, attempted', acknowledged'; }
      acknowledged' := acknowledged' + {id};
    }
    ok := true;
  }

  /** The rounds, up to the first check that is not clean. */
  method RunRounds(c: Config, script: seq<Round>)
    returns (threw: bool, done: nat, attempted: set<string>, acknowledged: set<string>)
    requires |script| == c.rounds
    ensures done <= c.rounds && forall r :: 0 <= r < done ==> Clean(c, script, r)
    ensures threw ==> done < c.rounds && BreaksOff(c, script, done)
    ensures !threw ==> attempted == Attempted(c, script, done) && acknowledged == Acked(c, script, done)
    ensures !threw && done < c.rounds ==> script[done].answers && !Clean(c, script, done)
    ensures forall r :: 0 <= r < done ==> !BreaksOff(c, script, r)
  {
    hide Lost, Partial, SeedIds, LiveIds;
    attempted, acknowledged, done, threw := {}, {}, 0, false;
    while done < c.rounds
      invariant done <= c.rounds && !threw
      invariant attempted == Attempted(c, script, done) && acknowledged == Acked(c, script, done)
      invariant forall r :: 0 <= r < done ==> Clean(c, script, r)
      invariant forall r :: 0 <= r < done ==> !BreaksOff(c, script, r)
    {
      if !script[done].answers { threw := true; return; }
      var lost, partial := VerifyRecovered(script[done].names, attempted, acknowledged);
      if lost > 0 || partial > 0 { return; }
      var ok, attempted1, acknowledged1 := SeedCommits(c, done, script[done], attempted, acknowledged);
      if !ok { threw := true; return; }
      ok, attempted, acknowledged := WriteUntilKilled(done, script[done], attempted1, acknowledged1);
      if !ok { threw := true; return; }
      done := done + 1;
    }
  }

  /** The server does not start or answer, or the check is clean and then a commit throws. */
  predicate BreaksOff(c: Config, script: seq<Round>, n: nat)
    requires n < |script|
  {
    !script[n].answers || (Clean(c, script, n) && Throws(c, script[n]))
  }

  /** What a run must look like to pass. */
  ghost predicate Passes(c: Config, script: seq<Round>, final: set<string>)
    requires |script| == c.rounds
  {
    && (forall r :: 0 <= r < c.rounds ==> Clean(c, script, r))
    && |Lost(final, Acked(c, script, c.rounds))| <= c.lostAllowed
    && |Partial(final, Attempted(c, script, c.rounds))| <= c.partialAllowed
    && AckedCount(c, script, c.rounds) >= c.minimum
    && (c.rounds == 0 || c.seeds > 0)
  }

  /** Some round breaks the run off, and every check before it was clean. */
  ghost predicate Aborts(c: Config, script: seq<Round>)
    requires |script| == c.rounds
  {
    exists n :: 0 <= n < c.rounds && BreaksOff(c, script, n) && forall r :: 0 <= r < n ==> Clean(c, script, r)
  }

  /** The rounds stop at `n`: every check before it was clean, and its own, if there is one, is not. */
  ghost predicate StopsAt(c: Config, script: seq<Round>, n: nat) {
    n <= |script| && (n < |script| ==> !Clean(c, script, n)) && forall r :: 0 <= r < n ==> Clean(c, script, r)
  }

  /** The summary counts what was acknowledged, lost and left in part when the rounds stopped. */
  ghost predicate Summarises(c: Config, script: seq<Round>, final: set<string>, n: nat, v: Verdict) {
    && StopsAt(c, script, n) && v.Summary?
    && v.completedRounds == (if c.seeds > 0 then n else 0) && v.acknowledged == AckedCount(c, script, n)
    && v.lost == |Lost(final, Acked(c, script, n))| && v.partial == |Partial(final, Attempted(c, script, n))|
  }

  /** `answers`: the server starts once more after the rounds and returns the documents `final`. */
  method RunRecoveryGate(c: Config, script: seq<Round>, answers: bool, final: set<string>) returns (verdict: Verdict)
    requires |script| == c.rounds
    ensures verdict.Threw? <==> Aborts(c, script) || !answers
    ensures verdict.Summary? ==> (verdict.passed <==> Passes(c, script, final))
    ensures verdict.Summary? ==> exists n: nat :: Summarises(c, script, final, n, verdict)
  {
    hide Lost, Partial, Completed, Clean, BreaksOff, Acked, Attempted, AckedCount;
    var threw, done, attempted, acknowledged := RunRounds(c, script);
    if threw || !answers { return Threw; }
    var lost, partial := VerifyRecovered(final, attempted, acknowledged);
    CompletedRounds(c, script, done);
    AckedSize(c, script, done);
    var completed := |Completed(acknowledged)|;
    var enough := |acknowledged| >= c.minimum;
    var passed := completed == c.rounds && enough && lost <= c.lostAllowed && partial <= c.partialAllowed;
    verdict := Summary(passed, completed, |acknowledged|, lost, partial);
    assert Summarises(c, script, final, done, verdict);
    NoAbort(c, script, done);
  }

  lemma {:induction false} NoAbort(c: Config, script: seq<Round>, done: nat)
    requires |script| == c.rounds && done <= c.rounds && forall r :: 0 <= r < done ==> !BreaksOff(c, script, r)
    requires done < c.rounds ==> script[done].answers && !Clean(c, script, done)
    ensures !Aborts(c, script)
  {
    hide Clean;
  }

  lemma {:induction false} AckedAttempted(c: Config, script: seq<Round>, n: nat)
    requires n <= |script|
    ensures Acked(c, script, n) <= Attempted(c, script, n)
  {
    hide SeedId, LiveId;
    if n > 0 { AckedAttempted(c, script, n - 1); }
  }

  /** Every answer, after each restart and at the end, is one an atomic and durable store could give. */
  ghost predicate Faithful(c: Config, script: seq<Round>, n: nat, names: set<string>)
    requires n <= |script|
  {
    exists applied :: Recoverable(names, Attempted(c, script, n), Acked(c, script, n), applied)
  }

  lemma CleanIsFaithful(c: Config, script: seq<Round>, n: nat)
    requires n < |script|
    ensures Clean(c, script, n) <==> Faithful(c, script, n, script[n].names)
  {
    hide Lost, Partial, Acked, Attempted, Recoverable;
    AckedAttempted(c, script, n);
    CheckIsExact(script[n].names, Attempted(c, script, n), Acked(c, script, n));
  }

  /** With no allowance, a run passes exactly when the store was faithful throughout and enough was acknowledged. */
  lemma PassedMeansFaithful(c: Config, script: seq<Round>, final: set<string>)
    requires |script| == c.rounds && c.lostAllowed == 0 && c.partialAllowed == 0
    ensures Passes(c, script, final) <==>
      && (forall r :: 0 <= r < c.rounds ==> Faithful(c, script, r, script[r].names))
      && Faithful(c, script, c.rounds, final)
      && AckedCount(c, script, c.rounds) >= c.minimum && (c.rounds == 0 || c.seeds > 0)
  {
    hide Lost, Partial, Acked, Attempted, Recoverable, Clean, AckedCount;
    forall r | 0 <= r < c.rounds ensures Clean(c, script, r) <==> Faithful(c, script, r, script[r].names) {
      CleanIsFaithful(c, script, r);
    }
    AckedAttempted(c, script, c.rounds);
    CheckIsExact(final, Attempted(c, script, c.rounds), Acked(c, script, c.rounds));
  }
}
