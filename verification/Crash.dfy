/**
 * What a crash can do to a node: the journal is cut at any byte, and reopening brings back exactly
 * the node of the last tip whose record survived. (internal/chain/chain.go, internal/storage/storage.go)
 */
module Crash {
  import opened Base
  import opened Protocol
  import opened Ledger
  import opened Tree
  import opened Persist
  import J = Journal

  // ---- the tips of a log ---------------------------------------------------

  function LastTip(tips: seq<Text>): Text { if tips == [] then [] else tips[|tips| - 1] }

  lemma InitWellFormed(codec: J.Codec, log: seq<J.Record>)
    requires J.AllWellFormed(codec, log) && log != []
    ensures J.AllWellFormed(codec, log[..|log| - 1])
  {
  }

  /** The tip a replay ends with is the last one recorded. */
  lemma {:induction false} TipIsLast(codec: J.Codec, log: seq<J.Record>)
    requires J.AllWellFormed(codec, log)
    ensures J.Fold(codec, J.EMPTY, log).Some? && J.Fold(codec, J.EMPTY, log).value.tip == LastTip(J.TipsIn(log))
    decreases |log|
  {
    J.FoldTotal(codec, J.EMPTY, log);
    if log != [] {
      InitWellFormed(codec, log);
      TipIsLast(codec, log[..|log| - 1]);
      SplitLast(log);
      J.FoldSnoc(codec, J.EMPTY, log[..|log| - 1], log[|log| - 1]);
    }
  }

  lemma {:induction false} TipsOfPrefix(log: seq<J.Record>, k: nat)
    requires k <= |log|
    ensures J.TipsIn(log[..k]) <= J.TipsIn(log)
    decreases |log|
  {
    if k == |log| {
      WholeSlice(log);
    } else {
      TipsOfPrefix(log[..|log| - 1], k);
      SliceOfSlice(log, k);
    }
  }

  /** The image a whole log leaves. */
  ghost function Final(env: Env, codec: J.Codec, log: seq<J.Record>): (d: J.Disk)
    requires LogOk(env, codec, log)
    ensures J.Fold(codec, J.EMPTY, log) == Some(d) && DiskOk(env, codec, d)
    ensures d.tip == LastTip(J.TipsIn(log))
  {
    LogEnd(env, codec, log);
    TipIsLast(codec, log);
    J.Fold(codec, J.EMPTY, log).value
  }

  /** Every block of a shorter log is in the longer one, unchanged. */
  lemma {:induction false} ImagesGrow(env: Env, codec: J.Codec, log: seq<J.Record>, k: nat)
    requires LogOk(env, codec, log) && k <= |log|
    ensures LogOk(env, codec, log[..k])
    ensures Extends(Stored(codec, Final(env, codec, log[..k])), Stored(codec, Final(env, codec, log)))
    decreases |log|
  {
    LogPrefix(env, codec, log, k);
    if k == |log| {
      WholeSlice(log);
    } else {
      LogPrefix(env, codec, log, |log| - 1);
      SliceOfSlice(log, k);
      ImagesGrow(env, codec, log[..|log| - 1], k);
      LastGrows(env, codec, log);
    }
  }

  lemma LastGrows(env: Env, codec: J.Codec, log: seq<J.Record>)
    requires LogOk(env, codec, log) && |log| > 0 && LogOk(env, codec, log[..|log| - 1])
    ensures Extends(Stored(codec, Final(env, codec, log[..|log| - 1])), Stored(codec, Final(env, codec, log)))
  {
    assert ImageAt(env, codec, log, |log|).Some?;
    WholeSlice(log);
  }

  /** Every recorded tip names a stored block. */
  lemma {:induction false} TipsStored(env: Env, codec: J.Codec, log: seq<J.Record>, t: Text)
    requires LogOk(env, codec, log) && t in J.TipsIn(log) && t != []
    ensures t in Stored(codec, Final(env, codec, log))
    decreases |log|
  {
    var init := log[..|log| - 1];
    LogPrefix(env, codec, log, |log| - 1);
    LastGrows(env, codec, log);
    if t in J.TipsIn(init) {
      TipsStored(env, codec, init, t);
    } else {
      assert Final(env, codec, log).tip == t;
    }
  }

  // ---- one cut -------------------------------------------------------------

  /** The chain a recorded tip stands for; no record stands for genesis. */
  ghost function ChainOfTip(env: Env, t: Blocks, tip: Text): seq<Block>
    requires TreeOk(env.crypto, t) && TipOf(env, tip) in t
  {
    ChainOf(env.crypto, t, TipOf(env, tip))
  }

  /**
   * Cut the journal at any byte: it opens again as a good journal, and its node is that of the last
   * tip whose record is complete, with the chain this tip has in the uncut journal.
   */
  lemma CutRecovers(env: Env, codec: J.Codec, log: seq<J.Record>, cut: nat)
    requires ValidEnv(env) && LogOk(env, codec, log) && cut <= |J.EncodeAll(codec, log)|
    ensures var k := J.WholeRecords(log, cut);
            && k <= |log| && LogOk(env, codec, log[..k])
            && J.Replay(codec, J.EMPTY, J.EncodeAll(codec, log)[..cut]) ==
               J.Recovered(Final(env, codec, log[..k]), |J.EncodeAll(codec, log[..k])|)
            && J.TipsIn(log[..k]) <= J.TipsIn(log)
    ensures var d := Final(env, codec, log[..J.WholeRecords(log, cut)]);
            var whole := Stored(codec, Final(env, codec, log));
            && ValidNode(env, NodeOf(env, codec, d))
            && (d != J.EMPTY ==>
                  && TreeOk(env.crypto, whole) && TipOf(env, LastTip(J.TipsIn(log[..J.WholeRecords(log, cut)]))) in whole
                  && NodeOf(env, codec, d).active == ChainOfTip(env, whole, LastTip(J.TipsIn(log[..J.WholeRecords(log, cut)])))
                  && Extends(NodeOf(env, codec, d).blocks, whole))
  {
    J.ReplayAfterCut(codec, J.EMPTY, log, cut);
    var k := J.WholeRecords(log, cut);
    ImagesGrow(env, codec, log, k);
    TipsOfPrefix(log, k);
    PrefixNode(env, codec, log, k);
  }

  lemma PrefixNode(env: Env, codec: J.Codec, log: seq<J.Record>, k: nat)
    requires ValidEnv(env) && LogOk(env, codec, log) && k <= |log| && LogOk(env, codec, log[..k])
    ensures var d := Final(env, codec, log[..k]);
            var whole := Stored(codec, Final(env, codec, log));
            && ValidNode(env, NodeOf(env, codec, d))
            && (d != J.EMPTY ==>
                  && TreeOk(env.crypto, whole) && TipOf(env, LastTip(J.TipsIn(log[..k]))) in whole
                  && NodeOf(env, codec, d).active == ChainOfTip(env, whole, LastTip(J.TipsIn(log[..k])))
                  && Extends(NodeOf(env, codec, d).blocks, whole))
  {
    var d := Final(env, codec, log[..k]);
    ImagesGrow(env, codec, log, k);
    NodeOfValid(env, codec, d);
    if d != J.EMPTY {
      NotEmptied(env, codec, log, k);
      ChainMonotone(env.crypto, Stored(codec, d), Stored(codec, Final(env, codec, log)), TipOf(env, d.tip));
    }
  }

  /** A journal that held blocks holds them still. */
  lemma NotEmptied(env: Env, codec: J.Codec, log: seq<J.Record>, k: nat)
    requires LogOk(env, codec, log) && k <= |log| && LogOk(env, codec, log[..k]) && Final(env, codec, log[..k]) != J.EMPTY
    ensures Final(env, codec, log) != J.EMPTY
  {
    ImagesGrow(env, codec, log, k);
    assert Genesis(env.crypto).hash in Stored(codec, Final(env, codec, log[..k]));
  }
}
