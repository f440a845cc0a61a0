/** The byte-wise lexicographic order of std::string keys, and the order in which a
    std::map is walked. */
module Order {
  import opened Bytes

  predicate LexLe(a: bytes, b: bytes) {
    || a == []
    || (b != [] && (a[0] < b[0] || (a[0] == b[0] && LexLe(a[1..], b[1..]))))
  }

  /** a comes before b: it is a shorter beginning of it, or smaller at the first difference. */
  ghost predicate Before(a: bytes, b: bytes) {
    a != b && (a <= b || exists k: nat :: k < |a| && k < |b| && a[..k] == b[..k] && a[k] < b[k])
  }

  ghost predicate Ascending(l: seq<bytes>) {
    forall i, j | 0 <= i < j < |l| :: Before(l[i], l[j])
  }

  lemma BeforeTail(a: bytes, b: bytes)
    requires a != [] && b != [] && a[0] == b[0]
    ensures Before(a, b) <==> Before(a[1..], b[1..])
  {
    assert a == [a[0]] + a[1..] && b == [b[0]] + b[1..];
    assert a <= b <==> a[1..] <= b[1..];
    forall k: nat | 0 < k < |a| && k < |b|
      ensures a[..k] == b[..k] <==> a[1..][..k - 1] == b[1..][..k - 1]
      ensures a[k] == a[1..][k - 1] && b[k] == b[1..][k - 1]
    {
      assert a[..k] == [a[0]] + a[1..][..k - 1] && b[..k] == [b[0]] + b[1..][..k - 1];
    }
    if k: nat :| k < |a| && k < |b| && a[..k] == b[..k] && a[k] < b[k] {
      assert a[1..][..k - 1] == b[1..][..k - 1];
    }
    if k: nat :| k < |a[1..]| && k < |b[1..]| && a[1..][..k] == b[1..][..k] && a[1..][k] < b[1..][k] {
      assert a[..k + 1] == b[..k + 1] && a[k + 1] < b[k + 1];
    }
  }

  lemma BeforeHead(a: bytes, b: bytes)
    requires a != [] && b != [] && a[0] != b[0]
    ensures Before(a, b) <==> a[0] < b[0]
  {
    assert forall k: nat | 0 < k < |a| && k < |b| :: a[..k][0] == a[0] && b[..k][0] == b[0];
    if a[0] < b[0] {
      assert a[..0] == b[..0];
    }
  }

  /** The order, in bytes. */
  lemma {:induction false} LexBytes(a: bytes, b: bytes)
    ensures LexLe(a, b) <==> a == b || Before(a, b)
  {
    hide Before;
    if a == [] || b == [] {
      BeforeNothing(a, b);
    } else if a[0] == b[0] {
      LexBytes(a[1..], b[1..]);
      BeforeTail(a, b);
      assert a == [a[0]] + a[1..] && b == [b[0]] + b[1..];
    } else {
      BeforeHead(a, b);
    }
  }

  lemma BeforeNothing(a: bytes, b: bytes)
    requires a == [] || b == []
    ensures a == b || Before(a, b) <==> a == []
  {
  }

  lemma {:induction false} LexTotal(a: bytes, b: bytes)
    ensures LexLe(a, b) || LexLe(b, a)
  {
    if a != [] && b != [] {
      LexTotal(a[1..], b[1..]);
    }
  }

  lemma {:induction false} LexAntisymmetric(a: bytes, b: bytes)
    requires LexLe(a, b) && LexLe(b, a)
    ensures a == b
  {
    if a != [] && b != [] {
      LexAntisymmetric(a[1..], b[1..]);
      assert a == [a[0]] + a[1..] && b == [b[0]] + b[1..];
    }
  }

  lemma {:induction false} LexTransitive(a: bytes, b: bytes, c: bytes)
    requires LexLe(a, b) && LexLe(b, c)
    ensures LexLe(a, c)
  {
    if a != [] && b[0] == a[0] == c[0] {
      LexTransitive(a[1..], b[1..], c[1..]);
    }
  }

  ghost predicate IsLeast(m: bytes, s: set<bytes>) {
    m in s && forall k | k in s :: LexLe(m, k)
  }

  lemma {:induction false} LeastExists(s: set<bytes>)
    requires s != {}
    ensures exists m :: IsLeast(m, s)
  {
    var x :| x in s;
    if s == {x} {
      LexTotal(x, x);
      assert IsLeast(x, s);
    } else {
      var rest := s - {x};
      LeastExists(rest);
      var m :| IsLeast(m, rest);
      LexTotal(x, m);
      LexTotal(x, x);
      LexTotal(m, m);
      if LexLe(m, x) {
        assert IsLeast(m, s);
      } else {
        forall k | k in s
          ensures LexLe(x, k)
        {
          if k != x {
            LexTransitive(x, m, k);
          }
        }
        assert IsLeast(x, s);
      }
    }
  }

  lemma LeastUnique(s: set<bytes>)
    ensures forall a, b | IsLeast(a, s) && IsLeast(b, s) :: a == b
  {
    forall a, b | IsLeast(a, s) && IsLeast(b, s)
      ensures a == b
    {
      LexAntisymmetric(a, b);
    }
  }

  function Least(s: set<bytes>): (m: bytes)
    requires s != {}
    ensures IsLeast(m, s)
  {
    LeastExists(s);
    LeastUnique(s);
    assert forall m :: IsLeast(m, s) <==> m in s && forall k | k in s :: LexLe(m, k) by { hide LexLe; }
    var m :| m in s && forall k | k in s :: LexLe(m, k);
    m
  }

  /** The keys of a std::map, in iteration order. */
  function SortedKeys(s: set<bytes>): (r: seq<bytes>)
    ensures |r| == |s|
    ensures forall k :: k in r <==> k in s
    ensures forall i, j | 0 <= i < j < |r| :: r[i] != r[j]
    ensures forall i, j | 0 <= i < j < |r| :: LexLe(r[i], r[j])
  {
    if s == {} then []
    else
      var m := Least(s);
      var rest := SortedKeys(s - {m});
      LeastFirst(m, s, rest);
      [m] + rest
  }

  /** The keys in their order, in bytes. */
  lemma KeysAscend(s: set<bytes>)
    ensures Ascending(SortedKeys(s))
  {
    hide LexLe, SortedKeys, Before;
    var r := SortedKeys(s);
    forall i, j | 0 <= i < j < |r|
      ensures Before(r[i], r[j])
    {
      LexBytes(r[i], r[j]);
    }
  }

  lemma LeastFirst(m: bytes, s: set<bytes>, rest: seq<bytes>)
    requires IsLeast(m, s) && forall k :: k in rest <==> k in s - {m}
    requires forall i, j | 0 <= i < j < |rest| :: rest[i] != rest[j] && LexLe(rest[i], rest[j])
    ensures var r := [m] + rest;
            && (forall k :: k in r <==> k in s)
            && (forall i, j | 0 <= i < j < |r| :: r[i] != r[j] && LexLe(r[i], r[j]))
  {
    hide LexLe;
    assert forall i | 0 <= i < |rest| :: rest[i] in s - {m};
  }

  /** A sorted list of the elements of s, each once. */
  ghost predicate Lists(a: seq<bytes>, s: set<bytes>) {
    && (forall k :: k in a <==> k in s)
    && forall i, j | 0 <= i < j < |a| :: a[i] != a[j] && LexLe(a[i], a[j])
  }

  lemma ListsFirst(a: seq<bytes>, s: set<bytes>)
    requires Lists(a, s) && a != []
    ensures IsLeast(a[0], s) && Lists(a[1..], s - {a[0]})
  {
    hide LexLe;
    assert a[0] in s;
    forall k | k in s
      ensures LexLe(a[0], k)
    {
      assert k in a;
      var i :| 0 <= i < |a| && a[i] == k;
      if i == 0 {
        LexTotal(k, k);
      }
    }
    forall k
      ensures k in a[1..] <==> k in s - {a[0]}
    {
      assert a == [a[0]] + a[1..];
      assert k in a <==> k == a[0] || k in a[1..];
      assert a[0] !in a[1..];
    }
  }

  /** A set has one sorted enumeration. */
  lemma {:induction false} SortedUnique(a: seq<bytes>, s: set<bytes>)
    requires Lists(a, s)
    ensures a == SortedKeys(s)
    decreases |a|
  {
    hide LexLe, Lists, IsLeast;
    if a == [] {
      assert s == {} by { ListsNothing(a, s); }
    } else {
      ListsFirst(a, s);
      LeastUnique(s);
      assert a[0] in s by { LeastIn(a[0], s); }
      SortedUnique(a[1..], s - {a[0]});
    }
  }

  lemma ListsNothing(a: seq<bytes>, s: set<bytes>)
    requires Lists(a, s) && a == []
    ensures s == {}
  {
    hide LexLe;
  }

  lemma LeastIn(m: bytes, s: set<bytes>)
    requires IsLeast(m, s)
    ensures m in s
  {
    hide LexLe;
  }

  /** The keys of a sorted walk that belong to t. */
  function Filter(keys: seq<bytes>, t: set<bytes>): seq<bytes> {
    if keys == [] then []
    else
      var init := Filter(keys[..|keys| - 1], t);
      if keys[|keys| - 1] in t then init + [keys[|keys| - 1]] else init
  }

  lemma {:induction false} FilterSorted(keys: seq<bytes>, t: set<bytes>)
    requires forall i, j | 0 <= i < j < |keys| :: keys[i] != keys[j] && LexLe(keys[i], keys[j])
    ensures forall k :: k in Filter(keys, t) <==> k in keys && k in t
    ensures forall i, j | 0 <= i < j < |Filter(keys, t)| ::
              Filter(keys, t)[i] != Filter(keys, t)[j] && LexLe(Filter(keys, t)[i], Filter(keys, t)[j])
  {
    hide LexLe;
    if keys != [] {
      var n := |keys| - 1;
      FilterSorted(keys[..n], t);
      assert keys == keys[..n] + [keys[n]];
      var init := Filter(keys[..n], t);
      forall i | 0 <= i < |init|
        ensures init[i] != keys[n] && LexLe(init[i], keys[n])
      {
        assert init[i] in keys[..n];
        var j :| 0 <= j < n && keys[j] == init[i];
      }
    }
  }

  lemma FilterAll(s: set<bytes>, t: set<bytes>)
    requires t <= s
    ensures Filter(SortedKeys(s), t) == SortedKeys(t)
  {
    hide LexLe, SortedKeys, Filter;
    FilterSorted(SortedKeys(s), t);
    SortedUnique(Filter(SortedKeys(s), t), t);
  }
}
