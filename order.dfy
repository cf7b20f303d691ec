/**
 * The order in which a `std::map<std::string, _>` hands out its keys: strict
 * lexicographic comparison of strings, character by character, a proper
 * prefix coming first.
 */
module Order {

  /** `a` sorts strictly before `b`. */
  predicate Below(a: string, b: string)
  {
    if |a| == 0 then |b| > 0
    else |b| > 0 && (a[0] < b[0] || (a[0] == b[0] && Below(a[1..], b[1..])))
  }

  lemma {:induction false} BelowIrreflexive(a: string)
    ensures !Below(a, a)
  {
    if |a| > 0 {
      BelowIrreflexive(a[1..]);
    }
  }

  lemma {:induction false} BelowTransitive(a: string, b: string, c: string)
    requires Below(a, b) && Below(b, c)
    ensures Below(a, c)
  {
    if |a| > 0 && a[0] == b[0] && b[0] == c[0] {
      BelowTransitive(a[1..], b[1..], c[1..]);
    }
  }

  lemma {:induction false} BelowTotal(a: string, b: string)
    requires a != b
    ensures Below(a, b) || Below(b, a)
  {
    if |a| > 0 && |b| > 0 && a[0] == b[0] {
      assert a == [a[0]] + a[1..] && b == [b[0]] + b[1..];
      BelowTotal(a[1..], b[1..]);
    }
  }

  /** Every key comes strictly before every later one (so no key repeats). */
  predicate StrictlySorted(ks: seq<string>)
  {
    forall i, j :: 0 <= i < j < |ks| ==> Below(ks[i], ks[j])
  }

  /** `k` is the first key of `s` in map order. */
  predicate IsLeast(k: string, s: set<string>)
  {
    k in s && forall j {:trigger Below(k, j)} :: j in s && j != k ==> Below(k, j)
  }

  lemma {:induction false} LeastExists(s: set<string>)
    requires s != {}
    ensures exists k :: IsLeast(k, s)
    decreases |s|
  {
    var x :| x in s;
    var rest := s - {x};
    if rest == {} {
      assert s == {x};
      assert IsLeast(x, s);
    } else {
      LeastExists(rest);
      var y :| IsLeast(y, rest);
      BelowTotal(x, y);
      if Below(x, y) {
        forall j | j in s && j != x
          ensures Below(x, j)
        {
          if j != y {
            BelowTransitive(x, y, j);
          }
        }
        assert IsLeast(x, s);
      } else {
        assert IsLeast(y, s);
      }
    }
  }

  /** The first key of a non-empty `s` in map order. */
  ghost function Least(s: set<string>): (k: string)
    requires s != {}
    ensures IsLeast(k, s)
  {
    LeastExists(s);
    var k :| IsLeast(k, s);
    k
  }

  /** The keys of `s` in the order a `std::map` iterates over them. */
  ghost function Ordered(s: set<string>): (ks: seq<string>)
    ensures |ks| == |s|
    decreases |s|
  {
    if s == {} then [] else [Least(s)] + Ordered(s - {Least(s)})
  }

  /** Map order visits exactly the keys of the map. */
  lemma {:induction false} OrderedKeys(s: set<string>)
    ensures forall k :: k in Ordered(s) <==> k in s
    decreases |s|
  {
    if s != {} {
      OrderedKeys(s - {Least(s)});
    }
  }

  /** Map order never repeats a key and never goes backwards. */
  lemma {:induction false} OrderedSorted(s: set<string>)
    ensures StrictlySorted(Ordered(s))
    decreases |s|
  {
    if s != {} {
      var k := Least(s);
      var tail := Ordered(s - {k});
      OrderedSorted(s - {k});
      OrderedKeys(s - {k});
      forall j | 0 <= j < |tail|
        ensures Below(k, tail[j])
      {
        assert tail[j] in tail;
      }
    }
  }

  /** Two sorted key sequences with the same keys are the same sequence. */
  lemma {:induction false} SortedUnique(a: seq<string>, b: seq<string>)
    requires StrictlySorted(a) && StrictlySorted(b)
    requires forall k :: k in a <==> k in b
    ensures a == b
    decreases |a|
  {
    if a == [] {
      assert forall i :: 0 <= i < |b| ==> b[i] in b;
    } else {
      assert a[0] in a;
      assert a[0] in b;
      assert b != [];
      assert b[0] in b;
      if a[0] != b[0] {
        var i :| 0 <= i < |a| && a[i] == b[0];
        var j :| 0 <= j < |b| && b[j] == a[0];
        assert Below(b[0], a[0]);
        assert Below(a[0], b[0]);
        BelowTransitive(a[0], b[0], a[0]);
        BelowIrreflexive(a[0]);
        assert false;
      }
      forall k
        ensures k in a[1..] <==> k in b[1..]
      {
        if k in a[1..] {
          var i :| 1 <= i < |a| && a[i] == k;
          if k == a[0] { BelowIrreflexive(k); }
          assert k in b && k != b[0];
        }
        if k in b[1..] {
          var i :| 1 <= i < |b| && b[i] == k;
          if k == b[0] { BelowIrreflexive(k); }
          assert k in a && k != a[0];
        }
      }
      SortedUnique(a[1..], b[1..]);
      assert a == [a[0]] + a[1..] && b == [b[0]] + b[1..];
    }
  }

  /** The keys of `m` in iteration order, taking the least remaining key at each step. */
  method KeysInOrder<V>(m: map<string, V>) returns (ks: seq<string>)
    ensures ks == Ordered(m.Keys)
  {
    ks := [];
    var rest := m.Keys;
    while rest != {}
      invariant rest <= m.Keys
      invariant StrictlySorted(ks)
      invariant forall k :: k in ks <==> k in m.Keys && k !in rest
      invariant forall i, r :: 0 <= i < |ks| && r in rest ==> Below(ks[i], r)
      decreases |rest|
    {
      LeastExists(rest);
      var k :| IsLeast(k, rest);
      ks := ks + [k];
      rest := rest - {k};
    }
    OrderedSorted(m.Keys);
    OrderedKeys(m.Keys);
    SortedUnique(ks, Ordered(m.Keys));
  }
}
