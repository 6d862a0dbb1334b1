/** Whole lives of a node: blocks arrive, the process crashes anywhere, and it is opened again. */
module Life {
  import opened Base
  import opened Protocol
  import opened Ledger
  import opened Equivalence
  import opened Wallets
  import opened Tree
  import opened Persist
  import opened Crash
  import opened ChainMemory
  import opened ChainNode
  import J = Journal

  /** A running node and the journal under it. */
  datatype World = World(log: seq<J.Record>, node: Node)

  /** Running: the journal stands for the node. */
  ghost predicate Running(env: Env, codec: J.Codec, w: World) {
    LogOk(env, codec, w.log) && Final(env, codec, w.log) != J.EMPTY && w.node == NodeOf(env, codec, Final(env, codec, w.log))
  }

  datatype Event = Arrive(now: int, block: Block) | Crash(cut: nat)

  /** What `Chain.Accept` ensures about node and journal. */
  ghost predicate Arrives(env: Env, codec: J.Codec, lim: Limits, w: World, now: int, b: Block, v: World)
    requires TreeOk(env.crypto, w.node.blocks)
  {
    var (reason, n) := Accept(env, lim, w.node, now, b);
    && v.node == n && w.log <= v.log
    && J.TipsIn(v.log) == J.TipsIn(w.log) + (if reason == Best then [b.hash] else [])
  }

  /** What `Journal.Open` and `Chain.Load` ensure about a journal cut after `cut` bytes. */
  ghost predicate Reopens(env: Env, codec: J.Codec, log: seq<J.Record>, cut: nat, v: World) {
    && cut <= |J.EncodeAll(codec, log)| && J.WholeRecords(log, cut) <= |log|
    && var kept := log[..J.WholeRecords(log, cut)];
       && LogOk(env, codec, kept) && kept <= v.log
       && v.node == NodeOf(env, codec, Final(env, codec, kept))
       && J.TipsIn(v.log) == J.TipsIn(kept) + (if Final(env, codec, kept) == J.EMPTY then [Genesis(env.crypto).hash] else [])
  }

  ghost predicate Happens(env: Env, codec: J.Codec, lim: Limits, w: World, e: Event, v: World)
    requires TreeOk(env.crypto, w.node.blocks)
  {
    Running(env, codec, v) &&
    match e
    case Arrive(now, b) => Arrives(env, codec, lim, w, now, b, v)
    case Crash(cut) => Reopens(env, codec, w.log, cut, v)
  }

  lemma RunningIsValid(env: Env, codec: J.Codec, w: World)
    requires ValidEnv(env) && Running(env, codec, w)
    ensures ValidNode(env, w.node) && w.node.blocks == Stored(codec, Final(env, codec, w.log))
    ensures TipHash(w.node) == TipOf(env, LastTip(J.TipsIn(w.log)))
  {
    NodeOfValid(env, codec, Final(env, codec, w.log));
  }

  /** A first opening on an empty journal. */
  ghost predicate Born(env: Env, codec: J.Codec, w: World) {
    Running(env, codec, w) && J.TipsIn(w.log) == [Genesis(env.crypto).hash] && w.node == InitialNode(env)
  }

  /** A life: worlds and the events between them. */
  ghost predicate Lives(env: Env, codec: J.Codec, lim: Limits, ws: seq<World>, es: seq<Event>) {
    && |ws| == |es| + 1 && Born(env, codec, ws[0])
    && (forall i {:trigger es[i]} :: 0 <= i < |es| ==>
          TreeOk(env.crypto, ws[i].node.blocks) && Happens(env, codec, lim, ws[i], es[i], ws[i + 1]))
  }

  /** The tip was published by world `j` with the chain it has in `t`. */
  ghost predicate PublishedAt(env: Env, ws: seq<World>, t: Blocks, tip: Text, j: nat)
    requires TreeOk(env.crypto, t)
  {
    j < |ws| && tip in t && |ws[j].node.active| > 0 && TipHash(ws[j].node) == tip && ws[j].node.active == ChainOf(env.crypto, t, tip)
  }

  ghost predicate Published(env: Env, ws: seq<World>, t: Blocks, tip: Text)
    requires TreeOk(env.crypto, t)
  {
    exists j {:trigger PublishedAt(env, ws, t, tip, j)} :: 0 <= j && PublishedAt(env, ws, t, tip, j)
  }

  /** Every tip in the journal, and genesis, was published by one of the worlds. */
  ghost predicate AllPublished(env: Env, codec: J.Codec, ws: seq<World>, w: World)
    requires TreeOk(env.crypto, w.node.blocks)
  {
    forall tip {:trigger Published(env, ws, w.node.blocks, tip)} ::
      tip in J.TipsIn(w.log) || tip == Genesis(env.crypto).hash ==> Published(env, ws, w.node.blocks, tip)
  }

  lemma StillPublished(env: Env, ws: seq<World>, t: Blocks, u: Blocks, tip: Text, more: seq<World>)
    requires TreeOk(env.crypto, t) && TreeOk(env.crypto, u) && Published(env, ws, t, tip) && tip in u
    requires (Extends(t, u) || Extends(u, t)) && ws <= more
    ensures Published(env, more, u, tip)
  {
    var j: nat :| PublishedAt(env, ws, t, tip, j);
    if Extends(t, u) { ChainMonotone(env.crypto, t, u, tip); } else { ChainMonotone(env.crypto, u, t, tip); }
    assert more[j] == ws[j];
    assert PublishedAt(env, more, u, tip, j);
  }

  // ---- one event -----------------------------------------------------------

  lemma BestStores(env: Env, lim: Limits, n: Node, now: int, b: Block)
    requires ValidEnv(env) && ValidNode(env, n) && Accept(env, lim, n, now, b).0 == Best
    ensures b.hash in Accept(env, lim, n, now, b).1.blocks && |b.hash| == 64
  {
    AcceptKeepsValid(env, lim, n, now, b);
    var m := Accept(env, lim, n, now, b).1;
    assert b.hash in m.blocks;
    assert NodeOk(env.crypto, m.blocks, b.hash);
  }

  lemma ArriveKeeps(env: Env, codec: J.Codec, lim: Limits, ws: seq<World>, now: int, b: Block, v: World)
    requires ValidEnv(env) && |ws| > 0 && Running(env, codec, ws[|ws| - 1]) && Running(env, codec, v)
    requires ValidNode(env, ws[|ws| - 1].node) && AllPublished(env, codec, ws, ws[|ws| - 1])
    requires Arrives(env, codec, lim, ws[|ws| - 1], now, b, v)
    ensures ValidNode(env, v.node) && AllPublished(env, codec, ws + [v], v)
  {
    var w := ws[|ws| - 1];
    var more := ws + [v];
    AcceptKeepsValid(env, lim, w.node, now, b);
    RunningIsValid(env, codec, v);
    forall tip | tip in J.TipsIn(v.log) || tip == Genesis(env.crypto).hash
      ensures Published(env, more, v.node.blocks, tip)
    {
      if tip in J.TipsIn(w.log) || tip == Genesis(env.crypto).hash {
        assert Published(env, ws, w.node.blocks, tip);
        StillPublished(env, ws, w.node.blocks, v.node.blocks, tip, more);
      } else {
        BestStores(env, lim, w.node, now, b);
        assert more[|ws|] == v;
        assert PublishedAt(env, more, v.node.blocks, tip, |ws|);
      }
    }
  }

  /** No recorded tip is empty, so an empty image has no recorded tip. */
  lemma EmptyHasNoTip(env: Env, codec: J.Codec, ws: seq<World>, w: World, k: nat)
    requires Running(env, codec, w) && ValidNode(env, w.node) && AllPublished(env, codec, ws, w)
    requires k <= |w.log| && LogOk(env, codec, w.log[..k])
    ensures J.TipsIn(w.log[..k]) <= J.TipsIn(w.log)
    ensures forall tip :: tip in J.TipsIn(w.log[..k]) ==> tip in w.node.blocks && tip != []
    ensures Final(env, codec, w.log[..k]) == J.EMPTY ==> J.TipsIn(w.log[..k]) == []
  {
    TipsOfPrefix(w.log, k);
    var tips := J.TipsIn(w.log[..k]);
    forall tip | tip in tips
      ensures tip in w.node.blocks && tip != []
    {
      assert Published(env, ws, w.node.blocks, tip);
      assert NodeOk(env.crypto, w.node.blocks, tip);
    }
    if tips != [] { assert LastTip(tips) in tips; }
  }

  /** Genesis was published at birth. */
  lemma GenesisPublished(env: Env, ws: seq<World>, t: Blocks)
    requires ValidEnv(env) && |ws| > 0 && ws[0].node == InitialNode(env) && TreeOk(env.crypto, t)
    ensures Published(env, ws, t, Genesis(env.crypto).hash)
  {
    assert PublishedAt(env, ws, t, Genesis(env.crypto).hash, 0);
  }

  lemma KeptTipsPublished(env: Env, codec: J.Codec, ws: seq<World>, w: World, k: nat, u: Blocks)
    requires ValidEnv(env) && Running(env, codec, w) && ValidNode(env, w.node) && AllPublished(env, codec, ws, w)
    requires k <= |w.log| && LogOk(env, codec, w.log[..k])
    requires u == NodeOf(env, codec, Final(env, codec, w.log[..k])).blocks && TreeOk(env.crypto, u)
    ensures forall tip :: tip in J.TipsIn(w.log[..k]) ==> Published(env, ws, u, tip)
  {
    EmptyHasNoTip(env, codec, ws, w, k);
    RunningIsValid(env, codec, w);
    forall tip | tip in J.TipsIn(w.log[..k])
      ensures Published(env, ws, u, tip)
    {
      TipsStored(env, codec, w.log[..k], tip);
      ImagesGrow(env, codec, w.log, k);
      assert Published(env, ws, w.node.blocks, tip);
      StillPublished(env, ws, w.node.blocks, u, tip, ws);
    }
  }

  lemma CrashKeeps(env: Env, codec: J.Codec, ws: seq<World>, cut: nat, v: World)
    requires ValidEnv(env) && |ws| > 0 && ws[0].node == InitialNode(env)
    requires Running(env, codec, ws[|ws| - 1]) && Running(env, codec, v)
    requires ValidNode(env, ws[|ws| - 1].node) && AllPublished(env, codec, ws, ws[|ws| - 1])
    requires Reopens(env, codec, ws[|ws| - 1].log, cut, v)
    ensures ValidNode(env, v.node) && AllPublished(env, codec, ws, v)
  {
    var w := ws[|ws| - 1];
    var k := J.WholeRecords(w.log, cut);
    RunningIsValid(env, codec, v);
    EmptyHasNoTip(env, codec, ws, w, k);
    KeptTipsPublished(env, codec, ws, w, k, v.node.blocks);
    GenesisPublished(env, ws, v.node.blocks);
    forall tip | tip in J.TipsIn(v.log) || tip == Genesis(env.crypto).hash
      ensures Published(env, ws, v.node.blocks, tip)
    {
    }
  }

  lemma PublishedMore(env: Env, codec: J.Codec, ws: seq<World>, v: World)
    requires ValidEnv(env) && ValidNode(env, v.node) && AllPublished(env, codec, ws, v)
    ensures AllPublished(env, codec, ws + [v], v)
  {
    forall tip | tip in J.TipsIn(v.log) || tip == Genesis(env.crypto).hash
      ensures Published(env, ws + [v], v.node.blocks, tip)
    {
      assert Published(env, ws, v.node.blocks, tip);
      StillPublished(env, ws, v.node.blocks, v.node.blocks, tip, ws + [v]);
    }
  }

  /** The active chain of a reopened node is one that was published before. */
  lemma ActiveWasPublished(env: Env, codec: J.Codec, ws: seq<World>, v: World) returns (j: nat)
    requires ValidEnv(env) && Running(env, codec, v) && ValidNode(env, v.node) && AllPublished(env, codec, ws, v)
    ensures j < |ws| && ws[j].node.active == v.node.active
  {
    RunningIsValid(env, codec, v);
    var tips := J.TipsIn(v.log);
    if tips != [] { assert LastTip(tips) in tips; }
    if LastTip(tips) != [] { assert Published(env, ws, v.node.blocks, LastTip(tips)); }
    assert Published(env, ws, v.node.blocks, Genesis(env.crypto).hash);
    j :| PublishedAt(env, ws, v.node.blocks, TipHash(v.node), j);
  }

  // ---- whole lives ---------------------------------------------------------

  lemma BornPublishes(env: Env, codec: J.Codec, ws: seq<World>)
    requires ValidEnv(env) && |ws| == 1 && Born(env, codec, ws[0])
    ensures ValidNode(env, ws[0].node) && AllPublished(env, codec, ws, ws[0])
  {
    RunningIsValid(env, codec, ws[0]);
    GenesisPublished(env, ws, ws[0].node.blocks);
    forall tip | tip in J.TipsIn(ws[0].log) || tip == Genesis(env.crypto).hash
      ensures Published(env, ws, ws[0].node.blocks, tip)
    {
    }
  }

  /** A running node that is valid and whose tips were all published in the past given. */
  ghost function Settled(env: Env, codec: J.Codec, past: seq<World>, w: World): Option<World> {
    if Running(env, codec, w) && ValidNode(env, w.node) && AllPublished(env, codec, past, w) then Some(w) else None
  }

  /** Moment `i` is settled, right after a crash even without counting itself. */
  ghost function Moment(env: Env, codec: J.Codec, ws: seq<World>, es: seq<Event>, i: nat): Option<World>
    requires |ws| == |es| + 1 && i <= |es|
  {
    if Settled(env, codec, ws[..i + 1], ws[i]).Some? && (i > 0 && es[i - 1].Crash? ==> Settled(env, codec, ws[..i], ws[i]).Some?)
    then Some(ws[i]) else None
  }

  lemma FirstMoment(env: Env, codec: J.Codec, lim: Limits, ws: seq<World>, es: seq<Event>)
    requires ValidEnv(env) && Lives(env, codec, lim, ws, es)
    ensures Moment(env, codec, ws, es, 0).Some?
  {
    BornPublishes(env, codec, ws[..1]);
  }

  lemma NextMoment(env: Env, codec: J.Codec, lim: Limits, ws: seq<World>, es: seq<Event>, i: nat)
    requires ValidEnv(env) && |ws| == |es| + 1 && i < |es| && ws[0].node == InitialNode(env)
    requires Moment(env, codec, ws, es, i).Some? && Happens(env, codec, lim, ws[i], es[i], ws[i + 1])
    ensures Moment(env, codec, ws, es, i + 1).Some?
  {
    Prefixes(ws, i + 1);
    EventKeeps(env, codec, lim, ws[..i + 1], ws[i], es[i], ws[i + 1]);
  }

  lemma {:induction false} LifeInvariant(env: Env, codec: J.Codec, lim: Limits, ws: seq<World>, es: seq<Event>, i: nat)
    requires ValidEnv(env) && Lives(env, codec, lim, ws, es) && i <= |es|
    ensures Moment(env, codec, ws, es, i).Some?
  {
    if i == 0 {
      FirstMoment(env, codec, lim, ws, es);
    } else {
      LifeInvariant(env, codec, lim, ws, es, i - 1);
      NextMoment(env, codec, lim, ws, es, i - 1);
    }
  }

  lemma EventKeeps(env: Env, codec: J.Codec, lim: Limits, past: seq<World>, w: World, e: Event, v: World)
    requires ValidEnv(env) && |past| > 0 && past[0].node == InitialNode(env) && w == past[|past| - 1]
    requires Settled(env, codec, past, w).Some? && Happens(env, codec, lim, w, e, v)
    ensures Settled(env, codec, past + [v], v).Some?
    ensures e.Crash? ==> Settled(env, codec, past, v).Some?
  {
    match e
    case Arrive(now, b) =>
      ArriveKeeps(env, codec, lim, past, now, b, v);
    case Crash(cut) =>
      CrashKeeps(env, codec, past, cut, v);
      PublishedMore(env, codec, past, v);
  }

  lemma Prefixes<T>(s: seq<T>, i: nat)
    requires 0 < i < |s|
    ensures s[..i - 1 + 1] == s[..i] && s[..i + 1] == s[..i] + [s[i]] && s[..i][|s[..i]| - 1] == s[i - 1] && s[..i][0] == s[0]
  {
  }

  /**
   * Over any life with crashes at any byte: the node is always valid, and after every crash its
   * active chain, hence its whole published state, is one that an earlier moment had published.
   */
  lemma LifeSafety(env: Env, codec: J.Codec, lim: Limits, ws: seq<World>, es: seq<Event>, i: nat) returns (j: nat)
    requires ValidEnv(env) && Lives(env, codec, lim, ws, es) && i <= |es|
    ensures ValidNode(env, ws[i].node)
    ensures j <= i && ws[j].node.active == ws[i].node.active
    ensures i > 0 && es[i - 1].Crash? ==> j < i
  {
    LifeInvariant(env, codec, lim, ws, es, i);
    j := i;
    if i > 0 && es[i - 1].Crash? {
      j := ActiveWasPublished(env, codec, ws[..i], ws[i]);
    }
  }

  // ---- the chain object lives such a life ----------------------------------

  ghost function WorldOf(c: Chain): World
    requires c.Abs().Some?
    reads c, c.store
  { World(c.store.log, c.Abs().value) }

  /** A chain object whose invariant holds stands on a journal that stands for it. */
  lemma ChainRuns(c: Chain)
    requires c.Abs().Some?
    ensures Running(c.env, c.store.codec, WorldOf(c)) && J.TipsIn(c.store.log) == c.store.tips
  {
    c.Durability();
  }

  /** An arriving block is an event of the life. */
  method Deliver(c: Chain, now: int, b: Block)
    requires c.Abs().Some? && J.Normal(b)
    modifies c, c.store
    ensures c.Abs().Some? && TreeOk(c.env.crypto, old(WorldOf(c)).node.blocks)
    ensures Happens(c.env, c.store.codec, c.Lim(), old(WorldOf(c)), Arrive(now, b), WorldOf(c))
  {
    ChainRuns(c);
    var accepted, reason := c.Accept(now, b);
    ChainRuns(c);
  }

  /** So is opening the store and the chain on what a crash left of the file. */
  method Restart(env: Env, codec: J.Codec, file: Bytes, ghost log: seq<J.Record>) returns (ok: bool, c: Chain)
    requires ValidEnv(env) && J.Lawful(codec) && LogOk(env, codec, log) && |file| <= |J.EncodeAll(codec, log)|
    requires file == J.EncodeAll(codec, log)[..|file|]
    ensures J.WholeRecords(log, |file|) <= |log| && LogOk(env, codec, log[..J.WholeRecords(log, |file|)])
    ensures ok == Openable(env, codec, Final(env, codec, log[..J.WholeRecords(log, |file|)]))
    ensures ok ==> c.Abs().Some? && c.env == env && c.store.codec == codec
    ensures ok ==> Running(env, codec, WorldOf(c)) && Reopens(env, codec, log, |file|, WorldOf(c))
  {
    var readable, store := J.Open(codec, file, log);
    LogPrefix(env, codec, log, J.WholeRecords(log, |file|));
    c := new Chain(env, store);
    ok := c.Load();
    if ok { ChainRuns(c); }
  }
}
