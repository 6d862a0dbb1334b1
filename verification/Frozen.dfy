/**
 * Snapshots as the chain keeps them: never written again, hence values. Every use thaws a copy,
 * works on it in place and freezes the result.
 */
module Frozen {
  import opened Base
  import opened Protocol
  import opened Ledger
  import opened LedgerOps
  import opened Conservation
  import opened Checkpoint

  method Genesis(env: Env) returns (s: State)
    requires ValidEnv(env)
    ensures s == InitialState(env)
  {
    var work := GenesisSnapshot(env);
    s := work.Freeze();
  }

  /** `validateIncrementalBlock` on a copy of the parent snapshot. */
  method Next(env: Env, b: Block, prefix: seq<Block>, parent: State) returns (next: Option<State>)
    ensures next == Incremental(env, b, prefix, parent)
  {
    var work := new Snapshot.Thaw(parent);
    var n := ValidateIncremental(env, b, prefix, work);
    if n == null { return None; }
    var s := n.Freeze();
    next := Some(s);
  }

  method Root(c: Crypto, s: State) returns (root: Text)
    ensures root == RootOf(c, s)
  {
    var work := new Snapshot.Thaw(s);
    root := ComputeRoot(c, work);
  }

  method Write(c: Crypto, s: State) returns (payload: Bytes)
    ensures payload == Encode(c, s)
  {
    var work := new Snapshot.Thaw(s);
    payload := EncodeSnapshot(c, work);
  }

  method Read(c: Crypto, payload: Bytes) returns (s: Option<State>)
    ensures s == Decode(c, payload)
  {
    var work := DecodeSnapshot(c, payload);
    if work == null { return None; }
    var f := work.Freeze();
    s := Some(f);
  }

  /** Copies of the two maps for publication. */
  method Maps(s: State) returns (balances: map<Text, u64>, nonces: map<Text, u64>)
    ensures View(balances, nonces) == s.accounts
  {
    var work := new Snapshot.Thaw(s);
    balances, nonces := work.balances, work.nonces;
  }

  /** `replayState`: the maps and totals of a full replay. */
  method Replayed(env: Env, ch: seq<Block>) returns (s: Option<State>)
    requires ValidEnv(env)
    ensures s == match Ledger.Replay(env, ch)
                 case None => None
                 case Some(r) => Some(State(r.accounts, GenesisSupply(env), r.mined, r.supply))
  {
    var work;
    if env.version >= 2 { work := ReplayV2(env, ch); } else { work := ReplayV1(env, ch); }
    if work == null { return None; }
    var f := work.Freeze();
    s := Some(f);
  }
}
