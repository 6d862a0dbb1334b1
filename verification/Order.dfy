/** The order of `sort.Strings` and the sorted listing of a finite set of keys. */
module Order {
  import opened Base

  /** Bytewise lexicographic order. */
  predicate LexLess(a: Text, b: Text) {
    if b == [] then false
    else if a == [] then true
    else a[0] < b[0] || (a[0] == b[0] && LexLess(a[1..], b[1..]))
  }

  /** The first `i` bytes agree and there the order is decided. */
  predicate DecidedAt(a: Text, b: Text, i: nat) {
    i <= |a| && i < |b| && a[..i] == b[..i] && (i == |a| || a[i] < b[i])
  }

  lemma {:induction false} LexDecided(a: Text, b: Text) returns (i: nat)
    requires LexLess(a, b)
    ensures DecidedAt(a, b, i)
  {
    i := 0;
    if a != [] && a[0] == b[0] {
      var k := LexDecided(a[1..], b[1..]);
      i := k + 1;
      HeadTake(b, k);
      if k < |a| { assert a[..i] == [a[0]] + a[1..][..k]; }
    }
  }

  lemma {:induction false} DecidedLess(a: Text, b: Text, i: nat)
    requires DecidedAt(a, b, i)
    ensures LexLess(a, b)
    decreases i
  {
    if i > 0 {
      assert a[0] == a[..i][0] && b[0] == b[..i][0];
      assert a[1..][..i - 1] == a[..i][1..] && b[1..][..i - 1] == b[..i][1..];
      DecidedLess(a[1..], b[1..], i - 1);
    }
  }

  /** Less is: smaller at the first difference, or a proper prefix. */
  lemma LexMeans(a: Text, b: Text)
    ensures LexLess(a, b) <==> exists i :: DecidedAt(a, b, i)
  {
    if LexLess(a, b) { var i := LexDecided(a, b); }
    if i :| DecidedAt(a, b, i) { DecidedLess(a, b, i); }
  }

  lemma {:induction false} LexTotal(a: Text, b: Text)
    ensures LexLess(a, b) || a == b || LexLess(b, a)
  {
    if a != [] && b != [] && a[0] == b[0] {
      LexTotal(a[1..], b[1..]);
      assert a == [a[0]] + a[1..] && b == [b[0]] + b[1..];
    }
  }

  lemma {:induction false} LexAsymmetric(a: Text, b: Text)
    ensures !(LexLess(a, b) && LexLess(b, a)) && !LexLess(a, a)
  {
    if a != [] {
      LexAsymmetric(a[1..], a[1..]);
      if b != [] { LexAsymmetric(a[1..], b[1..]); }
    }
  }

  lemma {:induction false} LexTransitive(a: Text, b: Text, c: Text)
    requires LexLess(a, b) && LexLess(b, c)
    ensures LexLess(a, c)
  {
    if a != [] && a[0] == b[0] == c[0] { LexTransitive(a[1..], b[1..], c[1..]); }
  }

  predicate IsLeast(k: Text, s: set<Text>) {
    k in s && forall j :: j in s && j != k ==> LexLess(k, j)
  }

  lemma {:induction false} LeastExists(s: set<Text>)
    requires s != {}
    ensures exists k :: IsLeast(k, s)
    decreases |s|
  {
    var x :| x in s;
    var rest := s - {x};
    assert forall j :: j in s && j != x ==> j in rest;
    if rest == {} {
      assert IsLeast(x, s);
    } else {
      LeastExists(rest);
      var k :| IsLeast(k, rest);
      LexTotal(k, x);
      if LexLess(k, x) {
        assert IsLeast(k, s);
      } else {
        forall j | j in s && j != x
          ensures LexLess(x, j)
        {
          if j != k { LexTransitive(x, k, j); }
        }
        assert IsLeast(x, s);
      }
    }
  }

  lemma LeastUnique(j: Text, k: Text, s: set<Text>)
    requires IsLeast(j, s) && IsLeast(k, s)
    ensures j == k
  {
    LexAsymmetric(j, k);
  }

  /** The keys of a set in ascending order, whatever order the set is walked in. */
  ghost function Ascending(s: set<Text>): (keys: seq<Text>)
    ensures |keys| == |s|
    ensures forall k :: k in keys <==> k in s
    decreases |s|
  {
    if s == {} then []
    else
      LeastExists(s);
      var k :| IsLeast(k, s);
      [k] + Ascending(s - {k})
  }

  lemma AscendingHead(s: set<Text>) returns (k: Text)
    requires s != {}
    ensures IsLeast(k, s) && Ascending(s) == [k] + Ascending(s - {k})
  {
    LeastExists(s);
    k :| IsLeast(k, s) && Ascending(s) == [k] + Ascending(s - {k});
  }

  lemma AscendingFirst(s: set<Text>, k: Text, j: nat)
    requires IsLeast(k, s) && Ascending(s) == [k] + Ascending(s - {k}) && 0 < j < |s|
    ensures LexLess(k, Ascending(s)[j])
  {
    var x := Ascending(s)[j];
    assert x == Ascending(s - {k})[j - 1];
    assert x in s - {k};
  }

  /** The listing is in ascending order. */
  lemma {:induction false} AscendingInOrder(s: set<Text>, i: nat, j: nat)
    requires i < j < |s|
    ensures LexLess(Ascending(s)[i], Ascending(s)[j])
    decreases |s|
  {
    var k := AscendingHead(s);
    if i == 0 {
      AscendingFirst(s, k, j);
    } else {
      AscendingInOrder(s - {k}, i - 1, j - 1);
    }
  }

  lemma AscendingIsDistinct(s: set<Text>)
    ensures Distinct(Ascending(s))
  {
    forall i, j | 0 <= i < j < |s|
      ensures Ascending(s)[i] != Ascending(s)[j]
    {
      AscendingInOrder(s, i, j);
      LexAsymmetric(Ascending(s)[i], Ascending(s)[j]);
    }
  }

  /** One selection step. */
  method FindLeast(s: set<Text>) returns (k: Text)
    requires s != {}
    ensures IsLeast(k, s)
  {
    k :| k in s;
    var rest := s - {k};
    while rest != {}
      invariant rest <= s && k in s
      invariant forall j :: j in s - rest && j != k ==> LexLess(k, j)
      decreases |rest|
    {
      var x :| x in rest;
      LexTotal(k, x);
      if LexLess(x, k) {
        forall j | j in s - rest && j != x
          ensures LexLess(x, j)
        {
          if j != k { LexTransitive(x, k, j); }
        }
        k := x;
      }
      rest := rest - {x};
    }
  }

  /** `sort.Strings` on the keys of a map: the walk order of the map does not matter. */
  method SortKeys(s: set<Text>) returns (keys: seq<Text>)
    ensures keys == Ascending(s)
  {
    keys := [];
    var rest := s;
    while rest != {}
      invariant Ascending(s) == keys + Ascending(rest)
      decreases |rest|
    {
      var k := FindLeast(rest);
      ghost var least := AscendingHead(rest);
      LeastUnique(k, least, rest);
      Associative(keys, [k], Ascending(rest - {k}));
      keys := keys + [k];
      rest := rest - {k};
    }
    assert Ascending(rest) == [];
  }
}
