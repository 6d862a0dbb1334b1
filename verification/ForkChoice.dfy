/** What the work of a chain is, and how fork choice weighs branches. (internal/consensus/work.go, internal/chain/chain.go) */
module ForkChoice {
  import opened Base
  import opened Protocol
  import opened Retarget
  import opened Rules
  import opened Ledger
  import opened Equivalence
  import opened ChainHeaders
  import opened Tree
  import opened NextBlock

  // ---- work as a sum of powers ---------------------------------------------

  function Power(base: nat, n: nat): nat { if n == 0 then 1 else base * Power(base, n - 1) }

  function Sum(xs: seq<nat>): nat
    decreases |xs|
  {
    if xs == [] then 0 else xs[0] + Sum(xs[1..])
  }

  /** 2^(4 d) for each block, a negative difficulty d counting as zero. */
  function Weights(ch: seq<Block>): seq<nat> {
    seq(|ch|, i requires 0 <= i < |ch| => Power(2, if ch[i].header.difficulty < 0 then 0 else 4 * ch[i].header.difficulty))
  }

  lemma {:induction false} PowerOfTwo(n: nat)
    ensures Pow16(n) == Power(2, 4 * n)
  {
    if n > 0 {
      PowerOfTwo(n - 1);
      assert Power(2, 4 * n) == 2 * Power(2, 4 * n - 1) && Power(2, 4 * n - 1) == 2 * Power(2, 4 * n - 2);
      assert Power(2, 4 * n - 2) == 2 * Power(2, 4 * n - 3) && Power(2, 4 * n - 3) == 2 * Power(2, 4 * n - 4);
    }
  }

  lemma {:induction false} SumSnoc(xs: seq<nat>, x: nat)
    ensures Sum(xs + [x]) == Sum(xs) + x
    decreases |xs|
  {
    if xs == [] {
      assert [x][1..] == [];
    } else {
      assert (xs + [x])[1..] == xs[1..] + [x];
      SumSnoc(xs[1..], x);
    }
  }

  /** The work of a chain is the sum of two to the power of four times the difficulty. */
  lemma {:induction false} WorkIsSum(ch: seq<Block>)
    ensures ChainWork(ch) == Sum(Weights(ch))
    decreases |ch|
  {
    if ch != [] {
      var init, d := ch[..|ch| - 1], ch[|ch| - 1].header.difficulty;
      WorkIsSum(init);
      PowerOfTwo(if d < 0 then 0 else d);
      assert Weights(ch) == Weights(init) + [Weights(ch)[|ch| - 1]];
      SumSnoc(Weights(init), Weights(ch)[|ch| - 1]);
    }
  }

  /** Fork choice: a block that passed is adopted exactly when its chain has more work, ties going to the active chain. */
  lemma AdoptsHeavier(env: Env, lim: Limits, n: Node, now: int, b: Block)
    requires TreeOk(env.crypto, n.blocks) && Screen(env, n.blocks, now, b) == Fork && lim.blockFits(b)
    ensures b.header.previousHash in n.blocks
    ensures var candidate := PrefixOf(env, n.blocks, b) + [b];
            var (reason, m) := Accept(env, lim, n, now, b);
            && m.blocks == n.blocks[b.hash := b]
            && (Sum(Weights(candidate)) <= Sum(Weights(n.active)) ==> reason == Fork && m.active == n.active)
            && (Sum(Weights(candidate)) > Sum(Weights(n.active)) && CheckpointFits(env, lim, candidate) ==> reason == Best && m.active == candidate)
  {
    WorkIsSum(PrefixOf(env, n.blocks, b) + [b]);
    WorkIsSum(n.active);
  }

  // ---- one block against sixteen -------------------------------------------

  lemma {:induction false} WorkJoin(p: seq<Block>, ys: seq<Block>)
    ensures ChainWork(p + ys) == ChainWork(p) + ChainWork(ys)
    decreases |ys|
  {
    if ys == [] {
      assert p + ys == p;
    } else {
      var init := ys[..|ys| - 1];
      WorkJoin(p, init);
      assert (p + ys)[..|p + ys| - 1] == p + init && (p + ys)[|p + ys| - 1] == ys[|ys| - 1];
    }
  }

  lemma {:induction false} PowGrows(m: nat, n: nat)
    requires m <= n
    ensures Pow16(m) <= Pow16(n)
    decreases n
  {
    if m < n { PowGrows(m, n - 1); }
  }

  predicate AtMost(ys: seq<Block>, d: nat) { forall i :: 0 <= i < |ys| ==> ys[i].header.difficulty <= d }

  predicate Exactly(ys: seq<Block>, d: nat) { forall i :: 0 <= i < |ys| ==> ys[i].header.difficulty == d }

  lemma {:induction false} BranchWork(ys: seq<Block>, d: nat)
    requires AtMost(ys, d)
    ensures ChainWork(ys) <= |ys| * Pow16(d)
    ensures Exactly(ys, d) ==> ChainWork(ys) == |ys| * Pow16(d)
    decreases |ys|
  {
    if ys != [] {
      var init, e := ys[..|ys| - 1], ys[|ys| - 1].header.difficulty;
      BranchWork(init, d);
      PowGrows(if e < 0 then 0 else e, d);
      assert |ys| * Pow16(d) == |init| * Pow16(d) + Pow16(d);
    }
  }

  lemma SingleWork(p: seq<Block>, x: Block, d: nat)
    requires x.header.difficulty == d + 1
    ensures ChainWork(p + [x]) == ChainWork(p) + 16 * Pow16(d)
  {
    LastOf(p, x);
  }

  /** Over one prefix a block of difficulty `d + 1` outweighs any fifteen of at most `d`, and ties with sixteen of `d`. */
  lemma OneAgainstSixteen(p: seq<Block>, x: Block, ys: seq<Block>, d: nat)
    requires x.header.difficulty == d + 1
    ensures |ys| <= 15 && AtMost(ys, d) ==> ChainWork(p + [x]) > ChainWork(p + ys)
    ensures |ys| == 16 && AtMost(ys, d) ==> ChainWork(p + [x]) >= ChainWork(p + ys)
    ensures |ys| == 16 && Exactly(ys, d) ==> ChainWork(p + [x]) == ChainWork(p + ys)
    ensures |ys| > 16 && Exactly(ys, d) ==> ChainWork(p + [x]) < ChainWork(p + ys)
  {
    SingleWork(p, x, d);
    WorkJoin(p, ys);
    if AtMost(ys, d) {
      BranchWork(ys, d);
      Scaled(|ys|, 15, Pow16(d));
      Scaled(17, |ys|, Pow16(d));
    }
  }

  /** The harder block arrives: it is taken over up to fifteen easier ones, and stays a fork against sixteen. */
  lemma HarderArrives(env: Env, lim: Limits, n: Node, now: int, p: seq<Block>, x: Block, ys: seq<Block>, d: nat)
    requires TreeOk(env.crypto, n.blocks) && Screen(env, n.blocks, now, x) == Fork && lim.blockFits(x)
    requires PrefixOf(env, n.blocks, x) == p && n.active == p + ys && CheckpointFits(env, lim, p + [x])
    requires x.header.difficulty == d + 1
    ensures var (reason, m) := Accept(env, lim, n, now, x);
            && (|ys| <= 15 && AtMost(ys, d) ==> reason == Best && m.active == p + [x])
            && (|ys| >= 16 && Exactly(ys, d) ==> reason == Fork && m.active == p + ys)
  {
    OneAgainstSixteen(p, x, ys, d);
  }

  /** The easier branch grows: only its seventeenth block displaces the harder one. */
  lemma EasierGrows(env: Env, lim: Limits, n: Node, now: int, p: seq<Block>, x: Block, ys: seq<Block>, y: Block, d: nat)
    requires TreeOk(env.crypto, n.blocks) && Screen(env, n.blocks, now, y) == Fork && lim.blockFits(y)
    requires PrefixOf(env, n.blocks, y) == p + ys && n.active == p + [x] && CheckpointFits(env, lim, p + (ys + [y]))
    requires x.header.difficulty == d + 1
    ensures var (reason, m) := Accept(env, lim, n, now, y);
            && (|ys| < 16 && AtMost(ys + [y], d) ==> reason == Fork && m.active == p + [x])
            && (|ys| >= 16 && Exactly(ys + [y], d) ==> reason == Best && m.active == p + (ys + [y]))
  {
    Associative(p, ys, [y]);
    OneAgainstSixteen(p, x, ys + [y], d);
  }

  // ---- the whole decision ----------------------------------------------------

  /** Version 3 asks of an arriving block that it is later than its parent and at most 300 seconds ahead of the clock. */
  predicate InTime(env: Env, now: int, prefix: seq<Block>, b: Block)
    requires |prefix| > 0
  {
    env.version >= 3 ==>
      prefix[|prefix| - 1].header.timestamp < b.header.timestamp <= now + 300 && 0 <= b.header.timestamp < TIME_LIMIT
  }

  lemma InTimeIsIngress(env: Env, now: int, prefix: seq<Block>, b: Block)
    requires ValidChain(env, prefix)
    ensures InTime(env, now, prefix, b) <==> IngressOk(env, now, b, prefix)
  {
    MedianAtMostParent(env, prefix);
  }

  lemma ParentChain(env: Env, n: Node, b: Block)
    requires ValidEnv(env) && ValidNode(env, n) && b.header.previousHash in n.blocks
    ensures ValidChain(env, PrefixOf(env, n.blocks, b))
  {
    StoredChainIsValid(env, n.blocks, b.header.previousHash);
  }

  /** What the tests before storing answer, in order. */
  ghost predicate Screened(env: Env, n: Node, now: int, b: Block, reason: Reason)
    requires ValidNode(env, n)
  {
    if b.hash in n.blocks then reason == Duplicate
    else if b.header.index == 0 then reason == GenesisExists
    else if b.header.previousHash !in n.blocks then reason == UnknownAncestor
    else
      var prefix := PrefixOf(env, n.blocks, b);
      if !InTime(env, now, prefix, b) then reason == InvalidIngressTime
      else if !LawfulBlock(env, prefix, b) then reason == Invalid
      else reason == Fork
  }

  lemma ScreenLaw(env: Env, n: Node, now: int, b: Block)
    requires ValidEnv(env) && ValidNode(env, n)
    ensures Screened(env, n, now, b, Screen(env, n.blocks, now, b))
  {
    if b.hash !in n.blocks && b.header.index != 0 && b.header.previousHash in n.blocks {
      var prefix := PrefixOf(env, n.blocks, b);
      ParentChain(env, n, b);
      InTimeIsIngress(env, now, prefix, b);
      NextIsLawful(env, prefix, b);
      ValidStep(env, prefix, b);
    }
  }

  /**
   * `Accept` in one statement: a block is refused for the first of the listed reasons that applies, stored if it is
   * lawful and fits a record, and its chain becomes active exactly when its work is more and the checkpoint it owes fits.
   */
  lemma AcceptLaw(env: Env, lim: Limits, n: Node, now: int, b: Block)
    requires ValidEnv(env) && ValidNode(env, n)
    ensures var (reason, m) := Accept(env, lim, n, now, b);
            if Screened(env, n, now, b, Fork) then
              b.header.previousHash in n.blocks &&
              var candidate := PrefixOf(env, n.blocks, b) + [b];
              if !lim.blockFits(b) then reason == StorageFailed && m == n
              else
                && m.blocks == n.blocks[b.hash := b]
                && if Sum(Weights(candidate)) <= Sum(Weights(n.active)) then reason == Fork && m.active == n.active
                   else if b.header.index % 16 == 0 && !(LedgerOf(env, candidate).Some? && lim.checkpointFits(LedgerOf(env, candidate).value))
                   then reason == StorageFailed && m.active == n.active
                   else reason == Best && m.active == candidate
            else reason != Fork && m == n && Screened(env, n, now, b, reason)
  {
    ScreenLaw(env, n, now, b);
    if Screen(env, n.blocks, now, b) != Fork {
      AcceptRefuses(env, lim, n, now, b);
    } else if lim.blockFits(b) {
      AdoptLaw(env, lim, n, now, b);
    } else {
      AcceptCannotStore(env, lim, n, now, b);
    }
  }

  lemma AdoptLaw(env: Env, lim: Limits, n: Node, now: int, b: Block)
    requires TreeOk(env.crypto, n.blocks) && Screen(env, n.blocks, now, b) == Fork && lim.blockFits(b)
    ensures b.header.previousHash in n.blocks
    ensures var (reason, m) := Accept(env, lim, n, now, b);
            var candidate := PrefixOf(env, n.blocks, b) + [b];
            && m.blocks == n.blocks[b.hash := b]
            && if Sum(Weights(candidate)) <= Sum(Weights(n.active)) then reason == Fork && m.active == n.active
               else if b.header.index % 16 == 0 && !(LedgerOf(env, candidate).Some? && lim.checkpointFits(LedgerOf(env, candidate).value))
               then reason == StorageFailed && m.active == n.active
               else reason == Best && m.active == candidate
  {
    AdoptsHeavier(env, lim, n, now, b);
    AcceptAdopts(env, lim, n, now, b);
    LastOf(PrefixOf(env, n.blocks, b), b);
    WorkIsSum(PrefixOf(env, n.blocks, b) + [b]);
    WorkIsSum(n.active);
  }
}
