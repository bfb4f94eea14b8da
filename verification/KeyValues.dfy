/** Key-value leaves in key order, and the map they stand for. */
module KeyValues {
  import opened Trees

  datatype KV<+V> = KV(key: int, val: V)

  ghost function Lookup<K, V>(m: map<K, V>, k: K): Option<V> {
    if k in m then Some(m[k]) else Option.None
  }

  ghost predicate Sorted<V>(s: seq<KV<V>>) {
    forall i, j :: 0 <= i < j < |s| ==> s[i].key < s[j].key
  }

  ghost predicate Below<V>(s: seq<KV<V>>, k: int) {
    forall l :: l in s ==> l.key < k
  }

  ghost predicate Above<V>(k: int, s: seq<KV<V>>) {
    forall l :: l in s ==> k < l.key
  }

  ghost function MapOf<V>(s: seq<KV<V>>): map<int, V> {
    if s == [] then map[] else MapOf(s[1..])[s[0].key := s[0].val]
  }

  /** `s` with `kv` in its place by key, replacing a leaf with the same key. */
  ghost function Put<V>(s: seq<KV<V>>, kv: KV<V>): seq<KV<V>> {
    if s == [] then [kv]
    else if s[0].key < kv.key then [s[0]] + Put(s[1..], kv)
    else if s[0].key == kv.key then [kv] + s[1..]
    else [kv] + s
  }

  ghost function Del<V>(s: seq<KV<V>>, k: int): seq<KV<V>> {
    if s == [] then []
    else if s[0].key == k then Del(s[1..], k)
    else [s[0]] + Del(s[1..], k)
  }

  lemma SortedConcat<V>(a: seq<KV<V>>, b: seq<KV<V>>)
    requires Sorted(a + b)
    ensures Sorted(a) && Sorted(b)
    ensures forall x, y :: x in a && y in b ==> x.key < y.key
  {
    forall i, j | 0 <= i < j < |a|
      ensures a[i].key < a[j].key
    {
      assert (a + b)[i] == a[i] && (a + b)[j] == a[j];
    }
    forall i, j | 0 <= i < j < |b|
      ensures b[i].key < b[j].key
    {
      assert (a + b)[|a| + i] == b[i] && (a + b)[|a| + j] == b[j];
    }
    forall x, y | x in a && y in b
      ensures x.key < y.key
    {
      var i :| 0 <= i < |a| && a[i] == x;
      var j :| 0 <= j < |b| && b[j] == y;
      assert (a + b)[i] == x && (a + b)[|a| + j] == y;
    }
  }

  lemma SortedHead<V>(s: seq<KV<V>>)
    requires Sorted(s) && s != []
    ensures Sorted(s[1..]) && Above(s[0].key, s[1..])
  {
  }

  lemma SortedCons<V>(x: KV<V>, s: seq<KV<V>>)
    requires Sorted(s) && Above(x.key, s)
    ensures Sorted([x] + s)
  {
    forall i, j | 0 <= i < j < |[x] + s|
      ensures ([x] + s)[i].key < ([x] + s)[j].key
    {
      assert ([x] + s)[j] == s[j - 1] && s[j - 1] in s;
    }
  }

  lemma {:induction false} PutAfter<V>(a: seq<KV<V>>, b: seq<KV<V>>, kv: KV<V>)
    requires Below(a, kv.key)
    ensures Put(a + b, kv) == a + Put(b, kv)
  {
    if a == [] {
      assert a + b == b;
    } else {
      assert a[0] in a && forall l :: l in a[1..] ==> l in a;
      PutAfter(a[1..], b, kv);
      assert (a + b)[0] == a[0] && (a + b)[1..] == a[1..] + b;
    }
  }

  lemma {:induction false} PutBefore<V>(b: seq<KV<V>>, c: seq<KV<V>>, kv: KV<V>)
    requires b != [] && kv.key <= b[|b| - 1].key
    ensures Put(b + c, kv) == Put(b, kv) + c
  {
    assert (b + c)[0] == b[0] && (b + c)[1..] == b[1..] + c;
    if b[0].key < kv.key {
      PutBefore(b[1..], c, kv);
    }
  }

  ghost predicate Absent<V>(s: seq<KV<V>>, k: int) {
    forall l :: l in s ==> l.key != k
  }

  function Last<T>(s: seq<T>): T
    requires s != []
  {
    s[|s| - 1]
  }

  lemma PutBetween<V>(a: seq<KV<V>>, b: seq<KV<V>>, kv: KV<V>)
    requires Below(a, kv.key) && Above(kv.key, b)
    ensures Put(a + b, kv) == a + [kv] + b
    ensures Absent(a + b, kv.key)
  {
    PutAfter(a, b, kv);
    assert b != [] ==> b[0] in b;
    assert a + ([kv] + b) == a + [kv] + b;
  }

  lemma PutMiddle<V>(a: seq<KV<V>>, b: seq<KV<V>>, c: seq<KV<V>>, kv: KV<V>)
    requires Below(a, kv.key) && b != [] && (kv.key <= Last(b).key || c == [])
    ensures Put(a + b + c, kv) == a + Put(b, kv) + c
  {
    assert a + b + c == a + (b + c);
    PutAfter(a, b + c, kv);
    if kv.key <= Last(b).key {
      PutBefore(b, c, kv);
    } else {
      assert b + c == b;
    }
    assert a + (Put(b, kv) + c) == a + Put(b, kv) + c;
  }

  lemma AbsentMiddle<V>(a: seq<KV<V>>, b: seq<KV<V>>, c: seq<KV<V>>, k: int)
    requires Sorted(a + b + c)
    requires Below(a, k) && b != [] && (k <= Last(b).key || c == [])
    requires Absent(b, k)
    ensures Absent(a + b + c, k)
  {
    SortedConcat(a + b, c);
    assert Last(b) in a + b;
  }

  lemma {:induction false} PutSorted<V>(s: seq<KV<V>>, kv: KV<V>)
    requires Sorted(s)
    ensures Sorted(Put(s, kv))
    ensures forall l :: l in Put(s, kv) ==> l in s || l == kv
    ensures kv in Put(s, kv)
  {
    if s != [] {
      SortedHead(s);
      if s[0].key < kv.key {
        PutSorted(s[1..], kv);
        SortedCons(s[0], Put(s[1..], kv));
      } else if s[0].key == kv.key {
        SortedCons(kv, s[1..]);
      } else {
        assert s[0] in s;
        SortedCons(kv, s);
      }
    }
  }

  lemma {:induction false} PutIsUpdate<V>(s: seq<KV<V>>, kv: KV<V>)
    requires Sorted(s)
    ensures MapOf(Put(s, kv)) == MapOf(s)[kv.key := kv.val]
  {
    if s != [] && s[0].key < kv.key {
      SortedHead(s);
      PutIsUpdate(s[1..], kv);
    }
  }

  lemma {:induction false} DelConcat<V>(a: seq<KV<V>>, b: seq<KV<V>>, k: int)
    ensures Del(a + b, k) == Del(a, k) + Del(b, k)
  {
    if a == [] {
      assert a + b == b;
    } else {
      DelConcat(a[1..], b, k);
      assert (a + b)[0] == a[0] && (a + b)[1..] == a[1..] + b;
    }
  }

  lemma {:induction false} DelAbsent<V>(s: seq<KV<V>>, k: int)
    requires Absent(s, k)
    ensures Del(s, k) == s
  {
    if s != [] {
      assert s[0] in s && forall l :: l in s[1..] ==> l in s;
      DelAbsent(s[1..], k);
    }
  }

  lemma DelMiddle<V>(a: seq<KV<V>>, b: seq<KV<V>>, c: seq<KV<V>>, k: int)
    requires Absent(a, k) && Absent(c, k)
    ensures Del(a + b + c, k) == a + Del(b, k) + c
  {
    DelConcat(a + b, c, k);
    DelConcat(a, b, k);
    DelAbsent(a, k);
    DelAbsent(c, k);
  }

  lemma {:induction false} DelMember<V>(s: seq<KV<V>>, k: int, l: KV<V>)
    ensures l in Del(s, k) <==> l in s && l.key != k
  {
    if s != [] {
      DelMember(s[1..], k, l);
      assert l in s <==> l == s[0] || l in s[1..];
    }
  }

  lemma {:induction false} DelSorted<V>(s: seq<KV<V>>, k: int)
    requires Sorted(s)
    ensures Sorted(Del(s, k))
  {
    if s != [] {
      SortedHead(s);
      DelSorted(s[1..], k);
      forall l | l in Del(s[1..], k)
        ensures s[0].key < l.key
      {
        DelMember(s[1..], k, l);
      }
      SortedCons(s[0], Del(s[1..], k));
    }
  }

  lemma {:induction false} DelIsRemoval<V>(s: seq<KV<V>>, k: int)
    requires Sorted(s)
    ensures MapOf(Del(s, k)) == MapOf(s) - {k}
  {
    if s != [] {
      SortedHead(s);
      DelIsRemoval(s[1..], k);
      if s[0].key == k {
        assert MapOf(s) - {k} == MapOf(s[1..]) - {k};
      } else {
        var d := Del(s[1..], k);
        assert ([s[0]] + d)[1..] == d;
        assert MapOf(s) - {k} == (MapOf(s[1..]) - {k})[s[0].key := s[0].val];
      }
    }
  }

  lemma {:induction false} MapOfMembers<V>(s: seq<KV<V>>)
    requires Sorted(s)
    ensures forall l :: l in s <==> l.key in MapOf(s) && MapOf(s)[l.key] == l.val
    ensures forall k :: k in MapOf(s) <==> exists l :: l in s && l.key == k
  {
    if s != [] {
      SortedHead(s);
      MapOfMembers(s[1..]);
      forall l: KV<V>
        ensures l in s <==> l.key in MapOf(s) && MapOf(s)[l.key] == l.val
      {
        assert l in s <==> l == s[0] || l in s[1..];
      }
      forall k
        ensures k in MapOf(s) <==> exists l :: l in s && l.key == k
      {
        if k in MapOf(s) {
          assert KV(k, MapOf(s)[k]) in s;
        }
      }
    }
  }

  ghost predicate Distinct<V>(s: seq<KV<V>>) {
    forall i, j :: 0 <= i < j < |s| ==> s[i].key != s[j].key
  }

  /** `ls` holds every pair of `m`, each once. */
  ghost predicate Lists<V(!new)>(ls: seq<KV<V>>, m: map<int, V>) {
    && |ls| == |m|
    && Distinct(ls)
    && (forall l :: l in ls ==> l.key in m && m[l.key] == l.val)
    && (forall k :: k in m ==> KV(k, m[k]) in ls)
  }

  lemma ListsConcat<V(!new)>(a: seq<KV<V>>, b: seq<KV<V>>, m: map<int, V>, n: map<int, V>, mn: map<int, V>)
    requires Lists(a, m) && Lists(b, n)
    requires m.Keys !! n.Keys && mn == m + n
    ensures Lists(a + b, mn)
  {
    assert mn.Keys == m.Keys + n.Keys;
    assert |mn| == |m.Keys + n.Keys| && |m| == |m.Keys| && |n| == |n.Keys|;
    var ab := a + b;
    forall i, j | 0 <= i < j < |ab|
      ensures ab[i].key != ab[j].key
    {
      assert ab[i] in if i < |a| then a else b;
      assert ab[j] in if j < |a| then a else b;
    }
  }

  lemma {:induction false} DistinctLists<V(!new)>(s: seq<KV<V>>)
    requires Distinct(s)
    ensures Lists(s, MapOf(s))
  {
    if s != [] {
      DistinctLists(s[1..]);
      var m, rest := MapOf(s), MapOf(s[1..]);
      assert forall l :: l in s[1..] ==> l.key != s[0].key;
      assert s[0].key !in rest;
      assert m.Keys == rest.Keys + {s[0].key};
      assert |m| == |m.Keys| && |rest| == |rest.Keys|;
      forall l | l in s
        ensures l.key in m && m[l.key] == l.val
      {
        assert l == s[0] || l in s[1..];
      }
    }
  }

  /** A listing determines the map. */
  lemma ListsUnique<V(!new)>(ls: seq<KV<V>>, m: map<int, V>, n: map<int, V>)
    requires Lists(ls, m) && Lists(ls, n)
    ensures m == n
  {
    forall k
      ensures k in m <==> k in n
      ensures k in m ==> m[k] == n[k]
    {
      if k in m {
        assert KV(k, m[k]) in ls;
      }
      if k in n {
        assert KV(k, n[k]) in ls;
      }
    }
  }

  lemma {:induction false} OnceEach<V>(ls: seq<KV<V>>, l: KV<V>)
    requires Distinct(ls)
    ensures multiset(ls)[l] == if l in ls then 1 else 0
  {
    if ls != [] {
      OnceEach(ls[1..], l);
      assert ls == [ls[0]] + ls[1..];
      assert l == ls[0] ==> l !in ls[1..];
    }
  }

  /** Two listings of a map differ in order only. */
  lemma ListsAlike<V(!new)>(ls: seq<KV<V>>, ks: seq<KV<V>>, m: map<int, V>)
    requires Lists(ls, m) && Lists(ks, m)
    ensures multiset(ls) == multiset(ks)
  {
    forall l: KV<V>
      ensures multiset(ls)[l] == multiset(ks)[l]
    {
      OnceEach(ls, l);
      OnceEach(ks, l);
    }
  }
}
