/** Proof-of-work accounting and the difficulty retarget, in its Go and its Python form. */
module Retarget {
  import opened Base
  import opened Protocol

  // ---- work (internal/consensus/work.go) -----------------------------------

  function Pow16(n: nat): (p: nat)
    ensures p > 0
  {
    if n == 0 then 1 else 16 * Pow16(n - 1)
  }

  /** `WorkForDifficulty`: 1 << 4*difficulty, a negative difficulty counting as zero. */
  function Work(d: int): (w: nat)
    ensures w > 0
  {
    Pow16(if d < 0 then 0 else d)
  }

  function ChainWork(ch: seq<Block>): nat {
    if ch == [] then 0 else ChainWork(ch[..|ch| - 1]) + Work(ch[|ch| - 1].header.difficulty)
  }

  method ComputeChainWork(ch: seq<Block>) returns (total: nat)
    ensures total == ChainWork(ch)
  {
    total := 0;
    for i := 0 to |ch|
      invariant total == ChainWork(ch[..i])
    {
      assert ch[..i + 1][..i] == ch[..i];
      total := total + Work(ch[i].header.difficulty);
    }
    assert ch[..|ch|] == ch;
  }

  // ---- the Go retarget (internal/consensus/difficulty.go) ------------------

  datatype Config = Config(target: int, minDifficulty: int, maxDifficulty: int, factor: int)

  const DEFAULT_CONFIG: Config := Config(TARGET_BLOCK_TIME, 1, 32, 4)

  function Expected(window: seq<Block>, cfg: Config): int { (|window| - 1) * cfg.target }

  /** A window that yields a measurement; otherwise the configured difficulty is returned. */
  predicate Measurable(window: seq<Block>, cfg: Config) {
    |window| >= 2 && cfg.target > 0
  }

  function Span(window: seq<Block>): int
    requires |window| > 0
  {
    window[|window| - 1].header.timestamp - window[0].header.timestamp
  }

  function ClampSpan(span: int, expected: int, factor: int): (act: int)
    requires expected > 0
    ensures act > 0
  {
    var actual := if span <= 0 then 1 else span;
    var f := if factor < 1 then 1 else factor;
    var lo := if expected / f < 1 then 1 else expected / f;
    var hi := expected * f;
    var raised := if actual < lo then lo else actual;
    HighBound(expected, f);
    if raised > hi then hi else raised
  }

  lemma HighBound(expected: int, f: int)
    requires expected > 0 && f >= 1
    ensures 0 < expected <= expected * f
  {
  }

  function BaseLevel(window: seq<Block>): nat
    requires |window| > 0
  {
    var d := window[|window| - 1].header.difficulty;
    if d < 0 then 0 else d
  }

  /** The increase loop, against the integer target `num / act`. */
  function StepUp(d: nat, maxD: int, num: nat, act: nat): nat
    decreases maxD - d
  {
    if d < maxD && num >= 4 * Work(d) * act then StepUp(d + 1, maxD, num, act) else d
  }

  /** The decrease loop. */
  function StepDown(d: int, minD: int, num: nat, act: nat): int
    decreases d - minD
  {
    if d > minD && num <= Work(d) / 4 * act then StepDown(d - 1, minD, num, act) else d
  }

  function Limit(d: int, cfg: Config): int {
    var raised := if d < cfg.minDifficulty then cfg.minDifficulty else d;
    if raised > cfg.maxDifficulty then cfg.maxDifficulty else raised
  }

  /** The new difficulty for a base difficulty and a clamped span. */
  function Retargeted(base: nat, expected: nat, act: nat, cfg: Config): int {
    var num := Work(base) * expected;
    Limit(
      if num > Work(base) * act then StepUp(base, cfg.maxDifficulty, num, act)
      else if num < Work(base) * act then StepDown(base, cfg.minDifficulty, num, act)
      else base, cfg)
  }

  /** The difficulty after a number of gaps between blocks that took `span` seconds in all. */
  function NextAfter(gaps: int, span: int, base: nat, cfg: Config, configured: int): int {
    if gaps < 1 || cfg.target <= 0 then configured
    else
      ExpectedPositive(gaps, cfg.target);
      Retargeted(base, gaps * cfg.target, ClampSpan(span, gaps * cfg.target, cfg.factor), cfg)
  }

  function NextDifficulty(window: seq<Block>, cfg: Config, configured: int): int {
    if |window| < 2 then configured else NextAfter(|window| - 1, Span(window), BaseLevel(window), cfg, configured)
  }

  lemma ExpectedPositive(n: int, target: int)
    requires n > 0 && target > 0
    ensures n * target > 0
  {
  }

  method ComputeNextDifficulty(window: seq<Block>, cfg: Config, configured: int) returns (next: int)
    ensures next == NextDifficulty(window, cfg, configured)
  {
    if |window| < 2 { return configured; }
    var expected := (|window| - 1) * cfg.target;
    if expected <= 0 || cfg.target <= 0 { return configured; }
    var act := window[|window| - 1].header.timestamp - window[0].header.timestamp;
    if act <= 0 { act := 1; }
    var factor := cfg.factor;
    if factor < 1 { factor := 1; }
    var lo := expected / factor;
    if lo < 1 { lo := 1; }
    var hi := expected * factor;
    if act < lo { act := lo; }
    if act > hi { act := hi; }
    var base := window[|window| - 1].header.difficulty;
    if base < 0 { base := 0; }
    next := SearchLevel(base, expected, act, cfg);
    if next < cfg.minDifficulty { next := cfg.minDifficulty; }
    if next > cfg.maxDifficulty { next := cfg.maxDifficulty; }
  }

  /** The two stepping loops; both end because the level approaches a bound. */
  method SearchLevel(base: nat, expected: nat, act: nat, cfg: Config) returns (level: int)
    ensures Limit(level, cfg) == Retargeted(base, expected, act, cfg)
  {
    var left := Work(base) * expected;
    var right := Work(base) * act;
    level := base;
    if left > right {
      while level < cfg.maxDifficulty
        invariant level >= 0
        invariant StepUp(level, cfg.maxDifficulty, left, act) == StepUp(base, cfg.maxDifficulty, left, act)
      {
        var threshold := 4 * Work(level);
        if left < threshold * act { break; }
        level := level + 1;
      }
    } else if left < right {
      while level > cfg.minDifficulty
        invariant StepDown(level, cfg.minDifficulty, left, act) == StepDown(base, cfg.minDifficulty, left, act)
      {
        var threshold := Work(level) / 4;
        if left > threshold * act { break; }
        level := level - 1;
      }
    }
  }

  // ---- the Python reference (blockchain/consensus.py) ----------------------

  /** `fractions.Fraction` comparisons are exact, so a rational is a real. */
  function ReferenceUp(d: nat, maxD: int, target: real): nat
    decreases maxD - d
  {
    if d < maxD && target >= Pow16(d) as real * 4.0 then ReferenceUp(d + 1, maxD, target) else d
  }

  function ReferenceDown(d: nat, minD: nat, target: real): nat
    decreases d - minD
  {
    if d > minD && target <= Pow16(d) as real / 4.0 then ReferenceDown(d - 1, minD, target) else d
  }

  function Min(a: int, b: int): int { if a <= b then a else b }
  function Max(a: int, b: int): int { if a >= b then a else b }

  function ReferenceClamp(span: int, expected: int, factor: int): (act: int)
    requires expected > 0
    ensures act >= 1
  {
    var actual := if span <= 0 then 1 else span;
    var f := if factor < 1 then 1 else factor;
    Max(Max(1, expected / f), Min(actual, expected * f))
  }

  function ReferenceRetargeted(base: nat, expected: nat, act: nat, cfg: Config): int
    requires act > 0 && 0 <= cfg.minDifficulty
  {
    var current := Pow16(base) as real;
    var target := (Pow16(base) * expected) as real / act as real;
    var level :=
      if target > current then ReferenceUp(base, cfg.maxDifficulty, target)
      else if target < current then ReferenceDown(base, cfg.minDifficulty, target)
      else base;
    Max(cfg.minDifficulty, Min(level, cfg.maxDifficulty))
  }

  function ReferenceDifficulty(window: seq<Block>, cfg: Config, configured: int): int
    requires 0 <= cfg.minDifficulty
  {
    if !Measurable(window, cfg) then configured
    else
      ExpectedPositive(|window| - 1, cfg.target);
      var act := ReferenceClamp(Span(window), Expected(window, cfg), cfg.factor);
      ReferenceRetargeted(BaseLevel(window), Expected(window, cfg), act, cfg)
  }

  /** The two while loops of the reference. */
  method SearchReference(base: nat, target: real, cfg: Config) returns (level: nat)
    requires 0 <= cfg.minDifficulty
    ensures level == if target > Pow16(base) as real then ReferenceUp(base, cfg.maxDifficulty, target)
                     else if target < Pow16(base) as real then ReferenceDown(base, cfg.minDifficulty, target)
                     else base
  {
    level := base;
    if target > Pow16(base) as real {
      while level < cfg.maxDifficulty && target >= Pow16(level) as real * 4.0
        invariant level >= 0
        invariant ReferenceUp(level, cfg.maxDifficulty, target) == ReferenceUp(base, cfg.maxDifficulty, target)
      {
        level := level + 1;
      }
    } else if target < Pow16(base) as real {
      while level > cfg.minDifficulty && target <= Pow16(level) as real / 4.0
        invariant level >= 0
        invariant ReferenceDown(level, cfg.minDifficulty, target) == ReferenceDown(base, cfg.minDifficulty, target)
      {
        level := level - 1;
      }
    }
  }

  method ComputeReferenceDifficulty(window: seq<Block>, cfg: Config, configured: int) returns (next: int)
    requires 0 <= cfg.minDifficulty
    ensures next == ReferenceDifficulty(window, cfg, configured)
  {
    if |window| < 2 { return configured; }
    var expected := (|window| - 1) * cfg.target;
    if expected <= 0 || cfg.target <= 0 { return configured; }
    var span := window[|window| - 1].header.timestamp - window[0].header.timestamp;
    if span <= 0 { span := 1; }
    var factor := cfg.factor;
    if factor < 1 { factor := 1; }
    var act := Max(Max(1, expected / factor), Min(span, expected * factor));
    var base := Max(window[|window| - 1].header.difficulty, 0);
    var target := (Pow16(base) * expected) as real / act as real;
    var level := SearchReference(base, target, cfg);
    next := Max(cfg.minDifficulty, Min(level, cfg.maxDifficulty));
  }

  // ---- the two forms agree -------------------------------------------------

  /** Cross-multiplication decides comparisons with a fraction. */
  lemma FractionCompare(num: int, den: int, x: real)
    requires den > 0
    ensures (num as real / den as real >= x) == (num as real >= x * den as real)
    ensures (num as real / den as real <= x) == (num as real <= x * den as real)
    ensures (num as real / den as real > x) == (num as real > x * den as real)
    ensures (num as real / den as real < x) == (num as real < x * den as real)
  {
    var q := num as real / den as real;
    assert q * den as real == num as real;
    if q >= x { assert (q - x) * den as real >= 0.0; }
    if q <= x { assert (x - q) * den as real >= 0.0; }
    if q > x { assert (q - x) * den as real > 0.0; }
    if q < x { assert (x - q) * den as real > 0.0; }
  }

  lemma ProductReal(a: int, b: int)
    ensures (a * b) as real == a as real * b as real
  {
  }

  lemma {:induction false} UpAgrees(d: nat, maxD: int, num: nat, act: nat)
    requires act > 0
    ensures StepUp(d, maxD, num, act) == ReferenceUp(d, maxD, num as real / act as real)
    decreases maxD - d
  {
    var w := Pow16(d);
    FractionCompare(num, act, w as real * 4.0);
    ProductReal(4 * w, act);
    assert (4 * w) as real == w as real * 4.0;
    if d < maxD && num >= 4 * w * act {
      UpAgrees(d + 1, maxD, num, act);
    }
  }

  /** Above difficulty zero a work level is divisible by four, so the integer division loses nothing. */
  lemma QuarterExact(d: nat)
    requires d > 0
    ensures Pow16(d) / 4 == 4 * Pow16(d - 1)
    ensures (Pow16(d) / 4) as real == Pow16(d) as real / 4.0
  {
    var p := Pow16(d - 1);
    assert Pow16(d) == 16 * p;
  }

  lemma {:induction false} DownAgrees(d: nat, minD: nat, num: nat, act: nat)
    requires act > 0
    ensures StepDown(d, minD, num, act) == ReferenceDown(d, minD, num as real / act as real)
    decreases d - minD
  {
    if d > minD {
      QuarterExact(d);
      var q := Pow16(d) / 4;
      FractionCompare(num, act, q as real);
      ProductReal(q, act);
      if num <= q * act {
        DownAgrees(d - 1, minD, num, act);
      }
    }
  }

  lemma ClampsAgree(span: int, expected: int, factor: int)
    requires expected > 0
    ensures ClampSpan(span, expected, factor) == ReferenceClamp(span, expected, factor)
  {
    var f := if factor < 1 then 1 else factor;
    HighBound(expected, f);
    assert expected / f <= expected;
  }

  lemma TargetCompare(base: nat, num: nat, act: nat)
    requires act > 0
    ensures num > Pow16(base) * act <==> num as real / act as real > Pow16(base) as real
    ensures num < Pow16(base) * act <==> num as real / act as real < Pow16(base) as real
  {
    FractionCompare(num, act, Pow16(base) as real);
    ProductReal(Pow16(base), act);
  }

  lemma RetargetsAgree(base: nat, expected: nat, act: nat, cfg: Config)
    requires act > 0 && 0 <= cfg.minDifficulty <= cfg.maxDifficulty
    ensures Retargeted(base, expected, act, cfg) == ReferenceRetargeted(base, expected, act, cfg)
  {
    var num := Pow16(base) * expected;
    TargetCompare(base, num, act);
    UpAgrees(base, cfg.maxDifficulty, num, act);
    DownAgrees(base, cfg.minDifficulty, num, act);
  }

  lemma GoEqualsPython(window: seq<Block>, cfg: Config, configured: int)
    requires 0 <= cfg.minDifficulty
    requires Measurable(window, cfg) ==> cfg.minDifficulty <= cfg.maxDifficulty
    ensures NextDifficulty(window, cfg, configured) == ReferenceDifficulty(window, cfg, configured)
  {
    if Measurable(window, cfg) {
      var expected := Expected(window, cfg);
      ExpectedPositive(|window| - 1, cfg.target);
      ClampsAgree(Span(window), expected, cfg.factor);
      RetargetsAgree(BaseLevel(window), expected, ClampSpan(Span(window), expected, cfg.factor), cfg);
    }
  }

  /** Under crossed limits Go answers with the maximum and Python with the minimum. */
  lemma CrossedLimitsDiverge(window: seq<Block>, cfg: Config, configured: int)
    requires Measurable(window, cfg) && 0 <= cfg.minDifficulty && cfg.minDifficulty > cfg.maxDifficulty
    ensures NextDifficulty(window, cfg, configured) == cfg.maxDifficulty
    ensures ReferenceDifficulty(window, cfg, configured) == cfg.minDifficulty
  {
    ExpectedPositive(|window| - 1, cfg.target);
  }

  /**
   * The Go node and the Python reference compute the same difficulty on a window exactly when it
   * cannot be measured or the configured limits are in order.
   */
  lemma GoMatchesPython(window: seq<Block>, cfg: Config, configured: int)
    requires 0 <= cfg.minDifficulty
    ensures NextDifficulty(window, cfg, configured) == ReferenceDifficulty(window, cfg, configured)
       <==> (Measurable(window, cfg) ==> cfg.minDifficulty <= cfg.maxDifficulty)
  {
    if Measurable(window, cfg) ==> cfg.minDifficulty <= cfg.maxDifficulty {
      GoEqualsPython(window, cfg, configured);
    } else {
      CrossedLimitsDiverge(window, cfg, configured);
    }
  }

  // ---- what the retarget guarantees ----------------------------------------

  lemma {:induction false} UpAtLeast(d: nat, maxD: int, num: nat, act: nat)
    ensures StepUp(d, maxD, num, act) >= d
    decreases maxD - d
  {
    if d < maxD && num >= 4 * Work(d) * act { UpAtLeast(d + 1, maxD, num, act); }
  }

  lemma {:induction false} DownAtMost(d: int, minD: int, num: nat, act: nat)
    ensures StepDown(d, minD, num, act) <= d
    decreases d - minD
  {
    if d > minD && num <= Work(d) / 4 * act { DownAtMost(d - 1, minD, num, act); }
  }

  lemma MulMonotone(k: nat, a: nat, b: nat)
    requires a <= b
    ensures k * a <= k * b
  {
  }

  lemma {:induction false} UpAntitone(d: nat, maxD: int, num: nat, act: nat, act': nat)
    requires act <= act'
    ensures StepUp(d, maxD, num, act') <= StepUp(d, maxD, num, act)
    decreases maxD - d
  {
    if d < maxD && num >= 4 * Work(d) * act' {
      MulMonotone(4 * Work(d), act, act');
      UpAntitone(d + 1, maxD, num, act, act');
    } else {
      UpAtLeast(d, maxD, num, act);
    }
  }

  lemma {:induction false} DownAntitone(d: int, minD: int, num: nat, act: nat, act': nat)
    requires act <= act'
    ensures StepDown(d, minD, num, act') <= StepDown(d, minD, num, act)
    decreases d - minD
  {
    if d > minD && num <= Work(d) / 4 * act {
      MulMonotone(Work(d) / 4, act, act');
      DownAntitone(d - 1, minD, num, act, act');
    } else {
      DownAtMost(d, minD, num, act');
    }
  }

  lemma ClampMonotone(span: int, span': int, expected: int, factor: int)
    requires expected > 0 && span <= span'
    ensures ClampSpan(span, expected, factor) <= ClampSpan(span', expected, factor)
  {
  }

  lemma RetargetedAntitone(base: nat, expected: nat, act: nat, act': nat, cfg: Config)
    requires act <= act' && cfg.minDifficulty <= cfg.maxDifficulty
    ensures Retargeted(base, expected, act', cfg) <= Retargeted(base, expected, act, cfg)
  {
    var num := Work(base) * expected;
    MulMonotone(Work(base), act, act');
    UpAtLeast(base, cfg.maxDifficulty, num, act);
    UpAntitone(base, cfg.maxDifficulty, num, act, act');
    DownAtMost(base, cfg.minDifficulty, num, act');
    DownAntitone(base, cfg.minDifficulty, num, act, act');
  }

  /** A slower window never raises the difficulty, and a measured result respects the limits. */
  lemma SlowerNeverHarder(window: seq<Block>, window': seq<Block>, cfg: Config, configured: int)
    requires cfg.minDifficulty <= cfg.maxDifficulty
    requires Measurable(window, cfg) && |window| == |window'|
    requires BaseLevel(window) == BaseLevel(window') && Span(window) <= Span(window')
    ensures cfg.minDifficulty <= NextDifficulty(window', cfg, configured)
         <= NextDifficulty(window, cfg, configured) <= cfg.maxDifficulty
  {
    var expected := Expected(window, cfg);
    ExpectedPositive(|window| - 1, cfg.target);
    ClampMonotone(Span(window), Span(window'), expected, cfg.factor);
    RetargetedAntitone(BaseLevel(window), expected, ClampSpan(Span(window), expected, cfg.factor),
                       ClampSpan(Span(window'), expected, cfg.factor), cfg);
  }

  /** 16^b * e against 4 * 16^b * a. */
  lemma RiseTest(b: nat, e: nat, a: nat)
    ensures (Work(b) * e >= 4 * Work(b) * a) == (e >= 4 * a)
    ensures (Work(b) * e > Work(b) * a) == (e > a)
    ensures (Work(b) * e < Work(b) * a) == (e < a)
  {
    var w := Work(b);
    assert 4 * w * a == w * (4 * a);
    Cancel(w, e, 4 * a);
    Cancel(w, e, a);
    Cancel(w, a, e);
  }

  lemma Cancel(w: nat, x: nat, y: nat)
    requires w > 0
    ensures (w * x >= w * y) == (x >= y)
  {
    if x >= y { MulMonotone(w, y, x); } else { MulMonotone(w, x + 1, y); assert w * (x + 1) == w * x + w; }
  }

  lemma FallTest(b: nat, e: nat, a: nat)
    requires b > 0
    ensures (Work(b) * e <= Work(b) / 4 * a) == (4 * e <= a)
  {
    QuarterExact(b);
    var p := Pow16(b - 1);
    assert Work(b) == 16 * p && 16 * p * e == 4 * p * (4 * e);
    Cancel(4 * p, a, 4 * e);
  }

  /** A second step up or down would need a 64-fold deviation. */
  lemma NoSecondStep(b: nat, e: nat, a: nat)
    requires e > 0 && a > 0 && e < 5 * a + 4 && a <= 4 * e
    ensures Work(b) * e < 4 * Work(b + 1) * a
    ensures b >= 1 ==> Work(b) * e > Work(b - 1) / 4 * a
  {
    var w := Work(b);
    assert Work(b + 1) == 16 * w;
    assert 4 * (16 * w) * a == w * (64 * a);
    Cancel(w, e, 64 * a);
    if b >= 1 {
      var v := Work(b - 1);
      assert w == 16 * v;
      MulMonotone(a, v / 4, v);
      assert v / 4 * a <= v * a;
      assert 16 * v * e == v * (16 * e);
      Cancel(v, a, 16 * e);
    }
  }

  /** With the default factor four and an in-range base, the step is decided by two thresholds and is at most one. */
  lemma StepOfAtMostOne(base: nat, expected: nat, act: nat, cfg: Config)
    requires expected > 0 && act > 0 && expected < 5 * act + 4 && act <= 4 * expected
    requires 0 <= cfg.minDifficulty <= base <= cfg.maxDifficulty
    ensures Retargeted(base, expected, act, cfg) ==
            if expected >= 4 * act && base < cfg.maxDifficulty then base + 1
            else if 4 * expected <= act && base > cfg.minDifficulty then base - 1
            else base
  {
    RiseTest(base, expected, act);
    NoSecondStep(base, expected, act);
    OneUp(base, expected, act, cfg);
    if base > cfg.minDifficulty {
      FallTest(base, expected, act);
      OneDown(base, expected, act, cfg);
    }
  }

  lemma OneUp(base: nat, expected: nat, act: nat, cfg: Config)
    requires Work(base) * expected < 4 * Work(base + 1) * act
    ensures var num := Work(base) * expected;
            StepUp(base, cfg.maxDifficulty, num, act) ==
            if base < cfg.maxDifficulty && num >= 4 * Work(base) * act then base + 1 else base
  {
  }

  lemma OneDown(base: nat, expected: nat, act: nat, cfg: Config)
    requires base > cfg.minDifficulty && base >= 1 && Work(base) * expected > Work(base - 1) / 4 * act
    ensures var num := Work(base) * expected;
            StepDown(base, cfg.minDifficulty, num, act) == if num <= Work(base) / 4 * act then base - 1 else base
  {
    assert StepDown(base - 1, cfg.minDifficulty, Work(base) * expected, act) == base - 1;
  }

  /** With factor four the next difficulty is the in-range base, one above it or one below it. */
  lemma NextWithinOne(window: seq<Block>, cfg: Config, configured: int)
    requires Measurable(window, cfg) && cfg.factor == 4
    requires 0 <= cfg.minDifficulty <= BaseLevel(window) <= cfg.maxDifficulty
    ensures -1 <= NextDifficulty(window, cfg, configured) - BaseLevel(window) <= 1
  {
    var expected := Expected(window, cfg);
    ExpectedPositive(|window| - 1, cfg.target);
    var act := ClampSpan(Span(window), expected, 4);
    StepOfAtMostOne(BaseLevel(window), expected, act, cfg);
  }

  /**
   * With factor four both retargets are the same rule on the seconds from the first block of the window to the
   * last: one up when four times them is at most the expected time, one down when they are at least four times it.
   */
  lemma RetargetLaw(window: seq<Block>, cfg: Config, configured: int)
    requires |window| >= 2 && cfg.target > 0 && cfg.factor == 4 && window[|window| - 1].header.difficulty >= 0
    requires 0 <= cfg.minDifficulty <= window[|window| - 1].header.difficulty <= cfg.maxDifficulty
    ensures var expected := (|window| - 1) * cfg.target;
            var seconds := window[|window| - 1].header.timestamp - window[0].header.timestamp;
            var d := window[|window| - 1].header.difficulty;
            NextDifficulty(window, cfg, configured) == ReferenceDifficulty(window, cfg, configured) ==
            if 4 <= expected && 4 * seconds <= expected && d < cfg.maxDifficulty then d + 1
            else if seconds >= 4 * expected && d > cfg.minDifficulty then d - 1
            else d
  {
    var expected := Expected(window, cfg);
    ExpectedPositive(|window| - 1, cfg.target);
    var act := ClampSpan(Span(window), expected, 4);
    StepOfAtMostOne(BaseLevel(window), expected, act, cfg);
    GoEqualsPython(window, cfg, configured);
  }
}
