/** What the header rules give along a whole chain: time and difficulty. (internal/chain/chain.go, internal/consensus/difficulty.go) */
module ChainHeaders {
  import opened Base
  import opened Protocol
  import opened Retarget
  import opened Rules
  import opened Ledger
  import opened Equivalence

  // ---- every block follows from those before it -----------------------------

  lemma {:induction false} BlockFacts(env: Env, ch: seq<Block>, i: nat)
    requires ValidChain(env, ch) && 0 < i < |ch|
    ensures HeaderOk(env, ch[i], ch[..i]) && ch[i].header.index == i && ch[0].header.index == 0
    decreases |ch|
  {
    var init := ch[..|ch| - 1];
    Unextend(env, ch);
    if i < |ch| - 1 {
      BlockFacts(env, init, i);
      SliceOfSlice(ch, i);
    } else {
      FirstIndex(env, init);
      if i > 1 { BlockFacts(env, init, i - 1); }
    }
  }

  lemma {:induction false} FirstIndex(env: Env, ch: seq<Block>)
    requires ValidChain(env, ch)
    ensures ch[0].header.index == 0
    decreases |ch|
  {
    if |ch| > 1 {
      Unextend(env, ch);
      FirstIndex(env, ch[..|ch| - 1]);
    }
  }

  // ---- time ----------------------------------------------------------------

  function Time(ch: seq<Block>, i: nat): int
    requires i < |ch|
  { ch[i].header.timestamp }

  predicate GapOk(version: nat, ch: seq<Block>, k: nat)
    requires 0 < k < |ch|
  {
    Time(ch, k - 1) < Time(ch, k) && (version < 3 ==> Time(ch, k) <= Time(ch, k - 1) + 120)
  }

  ghost predicate Gaps(version: nat, ch: seq<Block>) {
    forall k {:trigger GapOk(version, ch, k)} :: 0 < k < |ch| ==> GapOk(version, ch, k)
  }

  lemma GapOfHeader(env: Env, ch: seq<Block>, k: nat)
    requires 0 < k < |ch| && HeaderOk(env, ch[k], ch[..k])
    ensures GapOk(env.version, ch, k)
  {
  }

  lemma ChainGaps(env: Env, ch: seq<Block>)
    requires ValidChain(env, ch)
    ensures Gaps(env.version, ch)
  {
    forall k | 0 < k < |ch|
      ensures GapOk(env.version, ch, k)
    {
      BlockFacts(env, ch, k);
      GapOfHeader(env, ch, k);
    }
  }

  lemma {:induction false} GapsAddUp(version: nat, ch: seq<Block>, i: nat, j: nat)
    requires Gaps(version, ch) && i < j < |ch|
    ensures Time(ch, i) + (j - i) <= Time(ch, j)
    ensures version < 3 ==> Time(ch, j) <= Time(ch, i) + 120 * (j - i)
    decreases j - i
  {
    assert GapOk(version, ch, j);
    if i < j - 1 { GapsAddUp(version, ch, i, j - 1); }
  }

  /** Timestamps strictly increase; under version 1 and 2 by at most 120 seconds a block. */
  lemma TimesIncrease(env: Env, ch: seq<Block>, i: nat, j: nat)
    requires ValidChain(env, ch) && i < j < |ch|
    ensures Time(ch, i) + (j - i) <= Time(ch, j)
    ensures env.version < 3 ==> Time(ch, j) <= Time(ch, i) + 120 * (j - i)
  {
    ChainGaps(env, ch);
    GapsAddUp(env.version, ch, i, j);
  }

  lemma RecentAscending(version: nat, ch: seq<Block>)
    requires Gaps(version, ch)
    ensures Ascending(Timestamps(Recent(ch)))
  {
    var start := |ch| - |Recent(ch)|;
    forall i, j | 0 <= i < j < |Recent(ch)|
      ensures Timestamps(Recent(ch))[i] <= Timestamps(Recent(ch))[j]
    {
      GapsAddUp(version, ch, start + i, start + j);
    }
  }

  lemma SortedRecent(version: nat, ch: seq<Block>)
    requires Gaps(version, ch)
    ensures Sorted(Timestamps(Recent(ch))) == Timestamps(Recent(ch))
  {
    RecentAscending(version, ch);
    SortedAscending(Timestamps(Recent(ch)));
  }

  lemma RecentTime(ch: seq<Block>, m: nat)
    requires m < |Recent(ch)|
    ensures Timestamps(Recent(ch))[m] == Time(ch, |ch| - |Recent(ch)| + m)
  {
  }

  lemma MedianOfGaps(version: nat, ch: seq<Block>, m: nat)
    requires |ch| > 0 && Gaps(version, ch) && m == |Recent(ch)| / 2
    ensures MedianTimePast(ch) == Time(ch, |ch| - |Recent(ch)| + m) <= Time(ch, |ch| - 1)
  {
    SortedRecent(version, ch);
    RecentTime(ch, m);
    AtMostLast(version, ch, |ch| - |Recent(ch)| + m);
  }

  lemma AtMostLast(version: nat, ch: seq<Block>, k: nat)
    requires k < |ch| && Gaps(version, ch)
    ensures Time(ch, k) <= Time(ch, |ch| - 1)
  {
    if k < |ch| - 1 { GapsAddUp(version, ch, k, |ch| - 1); }
  }

  /** The median is the middle one of the last eleven times, so "later than the parent" is the binding rule. */
  lemma MedianAtMostParent(env: Env, ch: seq<Block>)
    requires ValidChain(env, ch)
    ensures MedianTimePast(ch) == Time(ch, |ch| - (|Recent(ch)| - |Recent(ch)| / 2))
    ensures MedianTimePast(ch) <= Time(ch, |ch| - 1)
  {
    ChainGaps(env, ch);
    MedianOfGaps(env.version, ch, |Recent(ch)| / 2);
  }

  // ---- difficulty ----------------------------------------------------------

  function Difficulty(ch: seq<Block>, i: nat): int
    requires i < |ch|
  { ch[i].header.difficulty }

  /** Seconds from the first to the last of the ten blocks before `i`. */
  function EpochSpan(ch: seq<Block>, i: nat): int
    requires 10 <= i <= |ch|
  { Time(ch, i - 1) - Time(ch, i - 10) }

  /** The default retarget on a ten-block window. */
  lemma DefaultRetarget(window: seq<Block>)
    requires |window| == 10 && 1 <= window[9].header.difficulty <= 32
    ensures var d := window[9].header.difficulty;
            NextDifficulty(window, DEFAULT_CONFIG, 4) ==
            if Span(window) <= 67 && d < 32 then d + 1 else if Span(window) >= 1080 && d > 1 then d - 1 else d
  {
    assert Expected(window, DEFAULT_CONFIG) == 270;
    var act := ClampSpan(Span(window), 270, 4);
    assert act == if Span(window) < 67 then 67 else if Span(window) > 1080 then 1080 else Span(window);
    StepOfAtMostOne(BaseLevel(window), 270, act, DEFAULT_CONFIG);
  }

  predicate LevelOk(ch: seq<Block>, i: nat)
    requires 0 < i < |ch|
  {
    ch[i].header.index == i && Difficulty(ch, i) == RequiredDifficulty(ch[..i])
  }

  lemma LevelOfBlock(env: Env, ch: seq<Block>, i: nat)
    requires ValidChain(env, ch) && 0 < i < |ch|
    ensures LevelOk(ch, i) && ch[0].header.index == 0
  {
    BlockFacts(env, ch, i);
  }

  /** One retarget decision over the blocks before `i`. */
  lemma LevelStep(ch: seq<Block>, i: nat)
    requires 1 < i < |ch| && LevelOk(ch, i) && LevelOk(ch, i - 1) && 1 <= Difficulty(ch, i - 1) <= 32
    ensures i % 10 != 0 ==> Difficulty(ch, i) == Difficulty(ch, i - 1)
    ensures i % 10 == 0 ==>
              var d := Difficulty(ch, i - 1);
              Difficulty(ch, i) == if EpochSpan(ch, i) <= 67 && d < 32 then d + 1
                                   else if EpochSpan(ch, i) >= 1080 && d > 1 then d - 1 else d
  {
    if i % 10 == 0 { DefaultRetarget(ch[..i][i - 10..]); }
  }

  lemma {:induction false} FirstLevel(env: Env, ch: seq<Block>)
    requires ValidChain(env, ch) && |ch| > 1
    ensures Difficulty(ch, 1) == 4
  {
    LevelOfBlock(env, ch, 1);
  }

  lemma {:induction false} NextLevel(env: Env, ch: seq<Block>, i: nat)
    requires ValidChain(env, ch) && 1 < i < |ch| && 1 <= Difficulty(ch, i - 1) <= 32
    ensures i % 10 != 0 ==> Difficulty(ch, i) == Difficulty(ch, i - 1)
    ensures i % 10 == 0 ==>
              var d := Difficulty(ch, i - 1);
              Difficulty(ch, i) == if EpochSpan(ch, i) <= 67 && d < 32 then d + 1
                                   else if EpochSpan(ch, i) >= 1080 && d > 1 then d - 1 else d
  {
    LevelOfBlock(env, ch, i);
    LevelOfBlock(env, ch, i - 1);
    LevelStep(ch, i);
  }

  /**
   * The difficulty of every block: 4 at first, kept for ten blocks at a time, then one up when the
   * last ten took at most 67 seconds, one down when they took at least 1080, always within 1 to 32.
   */
  lemma {:induction false} DifficultyRule(env: Env, ch: seq<Block>, i: nat)
    requires ValidChain(env, ch) && 0 < i < |ch|
    ensures 1 <= Difficulty(ch, i) <= 32
    ensures i == 1 ==> Difficulty(ch, i) == 4
    ensures i > 1 && i % 10 != 0 ==> Difficulty(ch, i) == Difficulty(ch, i - 1)
    ensures i > 1 && i % 10 == 0 ==>
              var d := Difficulty(ch, i - 1);
              Difficulty(ch, i) == if EpochSpan(ch, i) <= 67 && d < 32 then d + 1
                                   else if EpochSpan(ch, i) >= 1080 && d > 1 then d - 1 else d
    decreases i
  {
    if i == 1 {
      FirstLevel(env, ch);
    } else {
      DifficultyRule(env, ch, i - 1);
      NextLevel(env, ch, i);
    }
  }

  predicate Slowest(ch: seq<Block>, k: nat)
    requires 0 < k < |ch|
  { Time(ch, k) == Time(ch, k - 1) + 120 }

  lemma {:induction false} SlowEpoch(version: nat, ch: seq<Block>, lo: nat, hi: nat)
    requires Gaps(version, ch) && version < 3 && lo <= hi < |ch|
    ensures Time(ch, hi) <= Time(ch, lo) + 120 * (hi - lo)
    ensures Time(ch, hi) == Time(ch, lo) + 120 * (hi - lo) <==> forall k {:trigger Slowest(ch, k)} :: lo < k <= hi ==> Slowest(ch, k)
    decreases hi - lo
  {
    if lo < hi {
      SlowEpoch(version, ch, lo, hi - 1);
      assert GapOk(version, ch, hi);
      if Slowest(ch, hi) {
        if forall k {:trigger Slowest(ch, k)} :: lo < k <= hi - 1 ==> Slowest(ch, k) {
          assert forall k {:trigger Slowest(ch, k)} :: lo < k <= hi ==> k == hi || Slowest(ch, k);
        }
      }
    }
  }

  /** Every gap before `i` within its epoch is the longest one. */
  ghost predicate SlowestEpoch(ch: seq<Block>, i: nat)
    requires 10 <= i <= |ch|
  {
    forall k {:trigger Slowest(ch, k)} :: i - 10 < k <= i - 1 ==> Slowest(ch, k)
  }

  lemma FallOfGaps(version: nat, ch: seq<Block>, i: nat)
    requires Gaps(version, ch) && version < 3 && 10 <= i <= |ch|
    ensures EpochSpan(ch, i) <= 1080 && (EpochSpan(ch, i) == 1080 <==> SlowestEpoch(ch, i))
  {
    SlowEpoch(version, ch, i - 10, i - 1);
  }

  /** Under version 1 and 2 the difficulty can only fall when all nine gaps of an epoch are exactly 120 seconds. */
  lemma FallNeedsSlowestEpoch(env: Env, ch: seq<Block>, i: nat)
    requires ValidChain(env, ch) && env.version < 3 && 10 <= i <= |ch|
    ensures EpochSpan(ch, i) <= 1080 && (EpochSpan(ch, i) == 1080 <==> SlowestEpoch(ch, i))
  {
    ChainGaps(env, ch);
    FallOfGaps(env.version, ch, i);
  }
}
