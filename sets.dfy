/** Facts about finite sets and maps shared by several puzzle modules. */
module Sets {

  /** A non-empty set of integers has a member one can pick. */
  lemma NonEmptyHasMember(s: set<int>)
    requires s != {}
    ensures exists v :: v in s
  {
    if forall v :: v !in s {
      assert false;
    }
  }

  /** The smallest member of a non-empty set of integers. */
  ghost function Least(s: set<int>): (m: int)
    requires s != {}
    ensures m in s && forall v :: v in s ==> m <= v
  {
    NonEmptyHasMember(s);
    var v :| v in s;
    if s == {v} then v
    else
      var rest := Least(s - {v});
      assert forall u :: u in s ==> u == v || u in s - {v};
      if v < rest then v else rest
  }

  /** The largest member of a non-empty set of integers. */
  ghost function Greatest(s: set<int>): (m: int)
    requires s != {}
    ensures m in s && forall v :: v in s ==> v <= m
  {
    NonEmptyHasMember(s);
    var v :| v in s;
    if s == {v} then v
    else
      var rest := Greatest(s - {v});
      assert forall u :: u in s ==> u == v || u in s - {v};
      if v > rest then v else rest
  }

  lemma {:induction false} SubsetCard<T>(a: set<T>, b: set<T>)
    requires a <= b
    ensures |a| <= |b|
    decreases |b|
  {
    if a != {} {
      var x :| x in a;
      SubsetCard(a - {x}, b - {x});
    }
  }

  predicate Injective<K, V(==)>(m: map<K, V>)
  {
    forall j, k :: j in m && k in m && j != k ==> m[j] != m[k]
  }

  /** An injective map has as many distinct values as keys. */
  lemma {:induction false} InjectiveValues<K, V>(m: map<K, V>)
    requires Injective(m)
    ensures |m.Values| == |m.Keys|
    decreases |m.Keys|
  {
    if m.Keys != {} {
      var k :| k in m.Keys;
      var m' := m - {k};
      InjectiveValues(m');
      assert m'.Keys == m.Keys - {k};
      forall v | v in m.Values
        ensures v in m'.Values + {m[k]}
      {
        var j :| j in m && m[j] == v;
        if j != k {
          assert j in m' && m'[j] == v;
        }
      }
      forall v | v in m'.Values
        ensures v in m.Values
      {
        var j :| j in m' && m'[j] == v;
        assert j in m && m[j] == v;
      }
      assert m.Values == m'.Values + {m[k]};
      assert m[k] !in m'.Values;
    } else {
      assert m.Values == {};
    }
  }

  /** Moving the keys of an injective map onto fresh cells keeps the number of cells. */
  lemma MovedCard<T>(cells: set<T>, moves: map<T, T>)
    requires moves.Keys <= cells && Injective(moves)
    requires forall k :: k in moves ==> moves[k] !in cells
    ensures |(cells - moves.Keys) + moves.Values| == |cells|
  {
    InjectiveValues(moves);
    var stay := cells - moves.Keys;
    assert cells == stay + moves.Keys && stay * moves.Keys == {};
    assert stay * moves.Values == {};
  }

  // ---------------------------------------------------------------------
  // Sums over finite sets, in no particular order.

  /** The value stored for `k`, or 0 when `m` has no entry for it. */
  function Get<K>(m: map<K, nat>, k: K): nat
  {
    if k in m then m[k] else 0
  }

  /** The sum of the values `m` stores for the members of `s`, adding them in any order. */
  ghost function SetSum<K>(s: set<K>, m: map<K, nat>): nat
    decreases |s|
  {
    if s == {} then 0 else var k :| k in s; Get(m, k) + SetSum(s - {k}, m)
  }

  /** Any member can be taken out of the sum first. */
  lemma {:induction false} SetSumRemove<K>(s: set<K>, m: map<K, nat>, k: K)
    requires k in s
    ensures SetSum(s, m) == Get(m, k) + SetSum(s - {k}, m)
    decreases |s|
  {
    var j :| j in s && SetSum(s, m) == Get(m, j) + SetSum(s - {j}, m);
    if j != k {
      SetSumRemove(s - {j}, m, k);
      SetSumRemove(s - {k}, m, j);
      assert s - {j} - {k} == s - {k} - {j};
    }
  }

  /** Adding a new member adds its value. */
  lemma SetSumAdd<K>(s: set<K>, m: map<K, nat>, k: K)
    requires k !in s
    ensures SetSum(s + {k}, m) == SetSum(s, m) + Get(m, k)
  {
    SetSumRemove(s + {k}, m, k);
    assert s + {k} - {k} == s;
  }

  /** The sum only depends on the values stored for the members of the set. */
  lemma {:induction false} SetSumAgree<K>(s: set<K>, m: map<K, nat>, n: map<K, nat>)
    requires forall k :: k in s ==> Get(m, k) == Get(n, k)
    ensures SetSum(s, m) == SetSum(s, n)
    decreases |s|
  {
    if s != {} {
      var k :| k in s;
      SetSumRemove(s, m, k);
      SetSumRemove(s, n, k);
      SetSumAgree(s - {k}, m, n);
    }
  }

  /** Raising the value of one member raises the sum by as much. */
  lemma SetSumBump<K>(s: set<K>, m: map<K, nat>, k: K, v: nat)
    requires k in s
    ensures SetSum(s, m[k := Get(m, k) + v]) == SetSum(s, m) + v
  {
    var n := m[k := Get(m, k) + v];
    SetSumRemove(s, m, k);
    SetSumRemove(s, n, k);
    SetSumAgree(s - {k}, m, n);
  }

  /** A sum over a subset is at most the sum over the whole set. */
  lemma {:induction false} SetSumSubset<K>(a: set<K>, b: set<K>, m: map<K, nat>)
    requires a <= b
    ensures SetSum(a, m) <= SetSum(b, m)
    decreases |b|
  {
    if b != {} {
      var k :| k in b;
      SetSumRemove(b, m, k);
      if k in a {
        SetSumRemove(a, m, k);
        SetSumSubset(a - {k}, b - {k}, m);
      } else {
        SetSumSubset(a, b - {k}, m);
      }
    }
  }
}
