/**
 * Which journals can be opened, and how a node gets one that cannot. (internal/chain/chain.go,
 * internal/storage/storage.go)
 */
module Reopening {
  import opened Base
  import opened Protocol
  import opened Retarget
  import opened Ledger
  import opened Equivalence
  import opened Tree
  import opened Wallets
  import opened Persist
  import opened ChainMemory
  import Journal

  /** The state after block `i` is small enough for the checkpoint it owes, if it owes one. */
  ghost predicate Small(env: Env, ch: seq<Block>, i: nat)
    requires i < |ch| && LedgerOf(env, ch).Some?
  {
    AccountsGrow(env, ch, i + 1);
    CheckpointDue(ch[i]) ==> |LedgerOf(env, ch[..i + 1]).value.accounts| <= MAX_CHECKPOINT_ACCOUNTS
  }

  ghost predicate AllSmall(env: Env, ch: seq<Block>)
    requires LedgerOf(env, ch).Some?
  {
    forall i {:trigger Small(env, ch, i)} :: 1 <= i < |ch| ==> Small(env, ch, i)
  }

  lemma {:induction false} CoveredEnd(ch: seq<Block>, cps: map<Text, Bytes>)
    requires FirstUncovered(ch, cps) > 1
    ensures FirstUncovered(ch, cps) <= |ch| && ch[FirstUncovered(ch, cps) - 1].hash in cps
    decreases |ch|
  {
    if ch != [] && ch[|ch| - 1].hash !in cps { CoveredEnd(ch[..|ch| - 1], cps); }
  }

  /** Below the newest checkpoint every state is small: accounts never vanish, and that checkpoint fitted. */
  lemma {:induction false} CoveredIsSmall(env: Env, t: Blocks, cps: map<Text, Bytes>, h: Text, i: nat)
    requires TreeOk(env.crypto, t) && CheckpointsOk(env, t, cps) && h in t && LedgerOf(env, ChainOf(env.crypto, t, h)).Some?
    requires i < FirstUncovered(ChainOf(env.crypto, t, h), cps) && 1 < FirstUncovered(ChainOf(env.crypto, t, h), cps)
    ensures i < |ChainOf(env.crypto, t, h)| && Small(env, ChainOf(env.crypto, t, h), i)
  {
    var ch := ChainOf(env.crypto, t, h);
    var start := FirstUncovered(ch, cps);
    CoveredEnd(ch, cps);
    StartsStored(env.crypto, t, h, start);
    assert CheckpointOk(env, t, cps, ch[start - 1].hash);
    AccountsGrow(env, ch, start);
    AccountsGrow(env, ch, i + 1);
    AccountsGrow(env, ch[..start], i + 1);
    assert ch[..start][..i + 1] == ch[..i + 1];
    SubsetSize(LedgerOf(env, ch[..i + 1]).value.accounts.Keys, LedgerOf(env, ch[..start]).value.accounts.Keys);
  }

  /**
   * A journal can be opened exactly when the state at every height divisible by 16 on its active chain
   * fits a record, whichever checkpoints it holds.
   */
  lemma {:induction false} OpensIffSmall(env: Env, codec: Journal.Codec, d: Journal.Disk)
    requires ValidEnv(env) && DiskOk(env, codec, d) && d != Journal.EMPTY
    ensures LedgerOf(env, NodeOf(env, codec, d).active).Some?
    ensures Openable(env, codec, d) <==> AllSmall(env, NodeOf(env, codec, d).active)
  {
    var t, h := Stored(codec, d), TipOf(env, d.tip);
    NodeOfValid(env, codec, d);
    assert Sound(env, t, h);
    var ch := ChainOf(env.crypto, t, h);
    var start := FirstUncovered(ch, d.checkpoints);
    if OwedFit(env, ch, start) {
      forall i | 1 <= i < |ch|
        ensures Small(env, ch, i)
      {
        if i >= start { assert OwedFits(env, ch, i); } else { CoveredIsSmall(env, t, d.checkpoints, h, i); }
      }
    }
    if AllSmall(env, ch) { SmallIsOwed(env, ch, start); }
  }

  lemma {:induction false} SmallIsOwed(env: Env, ch: seq<Block>, start: nat)
    requires LedgerOf(env, ch).Some? && AllSmall(env, ch) && 1 <= start
    ensures OwedFit(env, ch, start)
  {
    forall i | start <= i < |ch|
      ensures OwedFits(env, ch, i)
    {
      AccountsGrow(env, ch, i + 1);
      assert Small(env, ch, i);
    }
  }

  // ---- how it happens ------------------------------------------------------

  /** The limits of the store. */
  ghost predicate RecordLimits(lim: Limits) {
    forall s :: lim.checkpointFits(s) == FitsRecord(s)
  }

  /** A heavier block whose checkpoint does not fit is stored, but not adopted. */
  lemma {:induction false} StoredNotAdopted(env: Env, lim: Limits, n: Node, now: int, b: Block)
    requires ValidEnv(env) && ValidNode(env, n) && RecordLimits(lim) && lim.blockFits(b)
    requires Accept(env, lim, n, now, b).0 == StorageFailed
    ensures b.hash !in n.blocks && b.header.previousHash in n.blocks
    ensures var p := PrefixOf(env, n.blocks, b);
            && Accept(env, lim, n, now, b).1 == Node(n.blocks[b.hash := b], n.active)
            && ChainWork(p + [b]) > ChainWork(n.active) && CheckpointDue(b) && LedgerOf(env, p + [b]).Some?
            && !FitsRecord(LedgerOf(env, p + [b]).value)
  {
    Judged(env, lim, n.blocks, now, b);
    AcceptAdopts(env, lim, n, now, b);
    var p := PrefixOf(env, n.blocks, b);
    LastOf(p, b);
    ValidIffLedger(env, p + [b]);
  }

  /** Its child owes no checkpoint, and becomes the tip. */
  lemma {:induction false} ChildAdopted(env: Env, lim: Limits, n: Node, t: Blocks, p: seq<Block>, b: Block, now: int, child: Block)
    requires ValidEnv(env) && TreeOk(env.crypto, t) && b.hash in t && t[b.hash] == b && CheckpointDue(b)
    requires ChainOf(env.crypto, t, b.hash) == p + [b] && n.blocks == t && ChainWork(p + [b]) > ChainWork(n.active)
    requires child.header.previousHash == b.hash && Screen(env, t, now, child) == Fork && lim.blockFits(child)
    ensures Accept(env, lim, n, now, child) == (Best, Node(t[child.hash := child], p + [b] + [child]))
    ensures LedgerOf(env, p + [b] + [child]).Some?
  {
    Judged(env, lim, t, now, child);
    AcceptAdopts(env, lim, n, now, child);
    AcceptedShape(env, child, p + [b]);
    LastOf(p + [b], child);
    LastOf(p, b);
    ValidIffLedger(env, p + [b] + [child]);
  }

  /** A chain that passes through a large state at a height divisible by 16. */
  lemma {:induction false} LargeStays(env: Env, p: seq<Block>, b: Block, child: Block)
    requires p != [] && CheckpointDue(b) && LedgerOf(env, p + [b]).Some? && !FitsRecord(LedgerOf(env, p + [b]).value)
    requires LedgerOf(env, p + [b] + [child]).Some?
    ensures !AllSmall(env, p + [b] + [child])
  {
    var ch := p + [b] + [child];
    assert ch[..|p| + 1] == p + [b] && ch[|p|] == b;
    assert !Small(env, ch, |p|);
  }

  /**
   * Two steps of `Accept` to a node that cannot be restarted: a heavier block at a height divisible by 16
   * whose state is too large for its checkpoint, refused after it was stored, and any valid child of
   * it, adopted. No journal that stands for the node then can be opened.
   */
  lemma {:induction false} UnopenableReached(env: Env, lim: Limits, n: Node, now: int, b: Block, later: int, child: Block)
    requires ValidEnv(env) && ValidNode(env, n) && RecordLimits(lim) && lim.blockFits(b) && lim.blockFits(child)
    requires Accept(env, lim, n, now, b).0 == StorageFailed && child.header.previousHash == b.hash
    requires b.hash !in n.blocks && TreeOk(env.crypto, n.blocks[b.hash := b])
    requires Screen(env, n.blocks[b.hash := b], later, child) == Fork
    ensures var m := Accept(env, lim, n, now, b).1;
            && m.blocks == n.blocks[b.hash := b]
            && Accept(env, lim, m, later, child).0 == Best
            && forall codec, d :: DiskOk(env, codec, d) && d != Journal.EMPTY && NodeOf(env, codec, d) == Accept(env, lim, m, later, child).1 ==>
                 !Openable(env, codec, d)
  {
    StoredNotAdopted(env, lim, n, now, b);
    var t, p := n.blocks[b.hash := b], PrefixOf(env, n.blocks, b);
    var m := Node(t, n.active);
    Judged(env, lim, n.blocks, now, b);
    StoreKeepsValid(env, n.blocks, b);
    ChildAdopted(env, lim, m, t, p, b, later, child);
    LargeStays(env, p, b, child);
    forall codec, d | DiskOk(env, codec, d) && d != Journal.EMPTY && NodeOf(env, codec, d) == Accept(env, lim, m, later, child).1
      ensures !Openable(env, codec, d)
    {
      OpensIffSmall(env, codec, d);
    }
  }
}
