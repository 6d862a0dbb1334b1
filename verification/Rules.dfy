/** The header rules shared by every validation path (internal/chain/chain.go). */
module Rules {
  import opened Base
  import opened Protocol
  import opened Retarget

  // ---- median-time-past ----------------------------------------------------

  function Timestamps(ch: seq<Block>): seq<int> {
    seq(|ch|, i requires 0 <= i < |ch| => ch[i].header.timestamp)
  }

  predicate Ascending(xs: seq<int>) {
    forall i, j :: 0 <= i < j < |xs| ==> xs[i] <= xs[j]
  }

  function Insert(x: int, xs: seq<int>): (r: seq<int>)
    ensures |r| == |xs| + 1
  {
    if |xs| == 0 || x >= xs[|xs| - 1] then xs + [x] else Insert(x, xs[..|xs| - 1]) + [xs[|xs| - 1]]
  }

  /** What `sort.Slice` leaves behind. */
  function Sorted(xs: seq<int>): (r: seq<int>)
    ensures |r| == |xs|
  {
    if |xs| == 0 then [] else Insert(xs[|xs| - 1], Sorted(xs[..|xs| - 1]))
  }

  predicate AtMost(xs: seq<int>, m: int) {
    forall i :: 0 <= i < |xs| ==> xs[i] <= m
  }

  lemma {:induction false} InsertAtMost(x: int, xs: seq<int>, m: int)
    requires x <= m && AtMost(xs, m)
    ensures AtMost(Insert(x, xs), m)
  {
    if |xs| > 0 && x < xs[|xs| - 1] { InsertAtMost(x, xs[..|xs| - 1], m); }
  }

  lemma AscendingSnoc(xs: seq<int>, m: int)
    requires Ascending(xs) && AtMost(xs, m)
    ensures Ascending(xs + [m])
  {
  }

  lemma {:induction false} InsertAscending(x: int, xs: seq<int>)
    requires Ascending(xs)
    ensures Ascending(Insert(x, xs))
  {
    if |xs| > 0 && x < xs[|xs| - 1] {
      var init, last := xs[..|xs| - 1], xs[|xs| - 1];
      InitAscending(xs, init, last);
      LastIsMost(xs);
      assert AtMost(init, last);
      InsertAscending(x, init);
      InsertAtMost(x, init, last);
      AscendingSnoc(Insert(x, init), last);
    } else if |xs| > 0 {
      LastIsMost(xs);
      AtMostMore(xs, xs[|xs| - 1], x);
      AscendingSnoc(xs, x);
    }
  }

  lemma AtMostMore(xs: seq<int>, m: int, n: int)
    requires AtMost(xs, m) && m <= n
    ensures AtMost(xs, n)
  {
  }

  lemma LastIsMost(xs: seq<int>)
    requires Ascending(xs) && |xs| > 0
    ensures AtMost(xs, xs[|xs| - 1])
  {
  }

  lemma {:induction false} InsertKeeps(x: int, xs: seq<int>)
    ensures multiset(Insert(x, xs)) == multiset(xs) + multiset{x}
  {
    if |xs| > 0 && x < xs[|xs| - 1] {
      var init, last := xs[..|xs| - 1], xs[|xs| - 1];
      assert xs == init + [last];
      InsertKeeps(x, init);
    }
  }

  lemma {:induction false} SortedSorts(xs: seq<int>)
    ensures Ascending(Sorted(xs)) && multiset(Sorted(xs)) == multiset(xs)
  {
    if |xs| > 0 {
      assert xs == xs[..|xs| - 1] + [xs[|xs| - 1]];
      SortedSorts(xs[..|xs| - 1]);
      InsertAscending(xs[|xs| - 1], Sorted(xs[..|xs| - 1]));
      InsertKeeps(xs[|xs| - 1], Sorted(xs[..|xs| - 1]));
    }
  }

  lemma InitAscending(xs: seq<int>, init: seq<int>, x: int)
    requires Ascending(xs) && |xs| > 0 && init == xs[..|xs| - 1] && x == xs[|xs| - 1]
    ensures Ascending(init) && (|init| == 0 || x >= init[|init| - 1]) && xs == init + [x]
  {
  }

  lemma SortedSnoc(init: seq<int>, x: int)
    requires Sorted(init) == init && Ascending(init) && (|init| == 0 || x >= init[|init| - 1])
    ensures Sorted(init + [x]) == init + [x]
  {
    var xs := init + [x];
    assert xs[..|xs| - 1] == init && xs[|xs| - 1] == x;
  }

  lemma {:induction false} SortedAscending(xs: seq<int>)
    requires Ascending(xs)
    ensures Sorted(xs) == xs
  {
    if |xs| > 0 {
      var init, x := xs[..|xs| - 1], xs[|xs| - 1];
      InitAscending(xs, init, x);
      SortedAscending(init);
      SortedSnoc(init, x);
    }
  }

  function Recent(ch: seq<Block>): seq<Block> {
    if |ch| > MTP_WINDOW then ch[|ch| - MTP_WINDOW..] else ch
  }

  function MedianTimePast(ch: seq<Block>): int
    requires |ch| > 0
  {
    Sorted(Timestamps(Recent(ch)))[|Recent(ch)| / 2]
  }

  method ComputeMedianTimePast(prefix: seq<Block>) returns (r: Option<int>)
    ensures r == if |prefix| == 0 then None else Some(MedianTimePast(prefix))
  {
    if |prefix| == 0 { return None; }
    var start := |prefix| - MTP_WINDOW;
    if start < 0 { start := 0; }
    var vals := [];
    for i := start to |prefix|
      invariant vals == Timestamps(prefix[start..i])
    {
      assert prefix[start..i + 1] == prefix[start..i] + [prefix[i]];
      vals := vals + [prefix[i].header.timestamp];
    }
    assert prefix[start..|prefix|] == Recent(prefix);
    r := Some(Sorted(vals)[|vals| / 2]);
  }

  // ---- timestamps and difficulty -------------------------------------------

  predicate TimestampOk(version: nat, t: int, prefix: seq<Block>)
    requires |prefix| > 0
  {
    var parent := prefix[|prefix| - 1].header.timestamp;
    && 0 <= t < TIME_LIMIT
    && t > MedianTimePast(prefix)
    && t > parent
    && (version < 3 ==> t <= parent + FUTURE_STEP)
  }

  method CheckTimestamp(version: nat, t: int, prefix: seq<Block>) returns (ok: bool)
    requires |prefix| > 0
    ensures ok == TimestampOk(version, t, prefix)
  {
    if t < 0 || t >= TIME_LIMIT { return false; }
    var parent := prefix[|prefix| - 1].header.timestamp;
    var mtp := ComputeMedianTimePast(prefix);
    if t <= mtp.value { return false; }
    if t <= parent { return false; }
    if version < 3 && t > parent + FUTURE_STEP { return false; }
    ok := true;
  }

  function RequiredDifficulty(prefix: seq<Block>): int {
    if |prefix| == 0 then 4
    else
      var base := if prefix[|prefix| - 1].header.index > 0 then prefix[|prefix| - 1].header.difficulty else 4;
      if |prefix| < DIFFICULTY_INTERVAL || |prefix| % DIFFICULTY_INTERVAL != 0 then base
      else
        var window := prefix[|prefix| - DIFFICULTY_INTERVAL..];
        NextAfter(DIFFICULTY_INTERVAL - 1, Span(window), BaseLevel(window), DEFAULT_CONFIG, 4)
  }

  method ComputeRequiredDifficulty(prefix: seq<Block>) returns (d: int)
    ensures d == RequiredDifficulty(prefix)
  {
    if |prefix| == 0 { return 4; }
    var base := 4;
    if prefix[|prefix| - 1].header.index > 0 { base := prefix[|prefix| - 1].header.difficulty; }
    if |prefix| < DIFFICULTY_INTERVAL || |prefix| % DIFFICULTY_INTERVAL != 0 { return base; }
    d := ComputeNextDifficulty(prefix[|prefix| - DIFFICULTY_INTERVAL..], DEFAULT_CONFIG, 4);
  }

  /** `MeetsDifficulty`: the hash starts with `d` zero characters. */
  predicate MeetsDifficulty(hash: Text, d: int) {
    0 <= d <= |hash| && forall i :: 0 <= i < d ==> hash[i] == 48
  }

  /** `ValidatePoW`; the difficulty was required to be exact before. */
  predicate ProofOfWork(c: Crypto, b: Block, required: int) {
    && b.hash != []
    && c.headerHash(b.header) == b.hash
    && b.header.difficulty >= required
    && MeetsDifficulty(b.hash, b.header.difficulty)
  }

  /** A block's place on a parent: index, link, time, difficulty and proof of work. */
  predicate HeaderOk(env: Env, b: Block, prefix: seq<Block>)
    requires |prefix| > 0
  {
    var p := prefix[|prefix| - 1];
    && b.header.index == p.header.index + 1
    && b.header.previousHash == p.hash
    && TimestampOk(env.version, b.header.timestamp, prefix)
    && b.header.difficulty == RequiredDifficulty(prefix)
    && ProofOfWork(env.crypto, b, RequiredDifficulty(prefix))
  }
}
