/** Facts about sets, maps and sequences that several parts of the model use. */
module Collections {

  lemma SetSize<T>(s: set<T>, x: T)
    ensures |s| == |s - {x}| + if x in s then 1 else 0
  {
    if x in s {
      assert s == (s - {x}) + {x};
    } else {
      assert s == s - {x};
    }
  }

  lemma {:induction false} Subset<T>(s: set<T>, u: set<T>)
    requires s <= u
    ensures |s| <= |u|
    decreases |s|
  {
    if s != {} {
      var x :| x in s;
      SetSize(s, x);
      SetSize(u, x);
      Subset(s - {x}, u - {x});
    }
  }

  lemma One<T>(s: set<T>)
    requires |s| == 1
    ensures exists x :: x in s
    ensures forall x, y :: x in s && y in s ==> x == y
  {
    var x :| x in s;
    SetSize(s, x);
    assert s == {x};
  }

  lemma Associate<T>(a: seq<T>, b: seq<T>, c: seq<T>)
    ensures (a + b) + c == a + (b + c)
  {
  }

  lemma SameSize<K, V>(m: map<K, V>, k: K, v: V)
    requires k in m
    ensures |m[k := v]| == |m|
  {
    assert m[k := v].Keys == m.Keys;
  }

  lemma SmallerMap<K, V>(m: map<K, V>, k: K)
    requires k in m
    ensures |m - {k}| < |m|
  {
    assert m.Keys == (m - {k}).Keys + {k};
  }

  lemma PutSame<K, V>(m: map<K, V>, k: K)
    requires k in m
    ensures m[k := m[k]] == m
  {
  }

  lemma PutTwice<K, V>(m: map<K, V>, k: K, v: V, w: V)
    ensures m[k := v][k := w] == m[k := w]
  {
  }

  lemma SomeMember<T>(q: seq<T>)
    ensures q == [] || exists x :: x in q
  {
    if q != [] {
      assert q[0] in q;
    }
  }

  // A queue that is drained at the front (`out`) and fed at the back (`into`) while it goes from `rest` to `rest1`.
  lemma DrainMore<T>(before: seq<T>, into: seq<T>, out: seq<T>, rest: seq<T>, out1: seq<T>, into1: seq<T>,
      rest1: seq<T>)
    requires out + rest == before + into && out1 + rest1 == rest + into1
    ensures (out + out1) + rest1 == before + (into + into1)
  {
    calc {
      (out + out1) + rest1;
      out + (out1 + rest1);
      out + (rest + into1);
      (out + rest) + into1;
      (before + into) + into1;
      before + (into + into1);
    }
  }

  // ---------- sequences without repetition ----------

  ghost predicate NoDup<T>(q: seq<T>) {
    forall i, j :: 0 <= i < j < |q| ==> q[i] != q[j]
  }

  // q without x.
  function Drop<T(==)>(q: seq<T>, x: T): seq<T> {
    if q == [] then [] else if q[0] == x then q[1..] else [q[0]] + Drop(q[1..], x)
  }

  lemma {:induction false} DropWithin<T>(q: seq<T>, x: T)
    ensures forall y :: y in Drop(q, x) ==> y in q
    ensures forall y :: y in q && y != x ==> y in Drop(q, x)
  {
    if q != [] {
      assert q == [q[0]] + q[1..];
      DropWithin(q[1..], x);
    }
  }

  lemma {:induction false} DropMembers<T>(q: seq<T>, x: T)
    requires NoDup(q)
    ensures NoDup(Drop(q, x))
    ensures forall y :: y in Drop(q, x) <==> y in q && y != x
    ensures |Drop(q, x)| == |q| - if x in q then 1 else 0
  {
    if q != [] {
      assert q == [q[0]] + q[1..];
      assert q[0] !in q[1..];
      DropMembers(q[1..], x);
    }
  }

  lemma MoveHead<T>(out: seq<T>, q: seq<T>)
    ensures q != [] ==> out + q == (out + [q[0]]) + q[1..]
    ensures [] + q == q
  {
  }

  lemma Pick<T>(s: set<T>) returns (x: T)
    requires s != {}
    ensures x in s
  {
    x :| x in s;
  }

  lemma NoDupAppend<T>(q: seq<T>, r: seq<T>)
    requires NoDup(q) && NoDup(r) && forall t :: t in r ==> t !in q
    ensures NoDup(q + r)
  {
    var all := q + r;
    assert forall i :: 0 <= i < |q| ==> all[i] == q[i] && q[i] in q;
    assert forall i :: |q| <= i < |all| ==> all[i] == r[i - |q|] && r[i - |q|] in r;
  }

  lemma NoDupTail<T>(q: seq<T>)
    requires NoDup(q) && q != []
    ensures NoDup(q[1..]) && q[0] !in q[1..] && forall x :: x in q <==> x in q[1..] || x == q[0]
  {
    assert q == [q[0]] + q[1..];
  }

  ghost function Inserted<T>(elems: seq<T>, k: nat, x: T): seq<T>
    requires k <= |elems|
  {
    elems[..k] + [x] + elems[k..]
  }

  ghost function Removed<T>(elems: seq<T>, k: nat): seq<T>
    requires k < |elems|
  {
    elems[..k] + elems[k + 1..]
  }

  lemma InsertedIs<T>(e: seq<T>, k: nat, x: T)
    requires k <= |e| && NoDup(e) && x !in e
    ensures var e1 := Inserted(e, k, x);
      && |e1| == |e| + 1 && NoDup(e1)
      && (forall i :: 0 <= i < k ==> e1[i] == e[i]) && e1[k] == x && (forall i :: k < i < |e1| ==> e1[i] == e[i - 1])
  {
  }

  lemma RemovedIs<T>(e: seq<T>, k: nat)
    requires k < |e| && NoDup(e)
    ensures var e1 := Removed(e, k);
      && |e1| == |e| - 1 && NoDup(e1) && e[k] !in e1
      && (forall i :: 0 <= i < k ==> e1[i] == e[i]) && (forall i :: k <= i < |e1| ==> e1[i] == e[i + 1])
  {
  }

  lemma OnlyAt<T>(e: seq<T>, k: nat)
    requires k < |e| && NoDup(e)
    ensures forall i :: 0 <= i < |e| ==> (e[i] == e[k] <==> i == k)
  {
  }

  function UpTo(n: nat): seq<nat> { if n == 0 then [] else UpTo(n - 1) + [n - 1] }

  lemma {:induction false} UpToIs(n: nat)
    ensures NoDup(UpTo(n)) && |UpTo(n)| == n && forall x: nat :: x in UpTo(n) <==> x < n
  {
    if n > 0 {
      UpToIs(n - 1);
      NoDupAppend(UpTo(n - 1), [n - 1]);
      var shorter, longer := UpTo(n - 1), UpTo(n - 1) + [n - 1];
      forall x: nat
        ensures x in UpTo(n) <==> x < n
      {
        assert x in longer <==> x in shorter || x == n - 1;
      }
    }
  }

  // ---------- sequences sorted by a key ----------

  function KeyOf(key: map<nat, int>, x: nat): int { if x in key then key[x] else 0 }

  ghost predicate SortedBy(q: seq<nat>, key: map<nat, int>) {
    q != [] ==> (forall x :: x in q[1..] ==> KeyOf(key, q[0]) <= KeyOf(key, x)) && SortedBy(q[1..], key)
  }

  // Of two elements the earlier one does not have the greater key.
  lemma {:induction false} SortedMeans(q: seq<nat>, key: map<nat, int>, i: nat, j: nat)
    requires SortedBy(q, key) && i <= j < |q|
    ensures KeyOf(key, q[i]) <= KeyOf(key, q[j])
  {
    if i > 0 {
      SortedMeans(q[1..], key, i - 1, j - 1);
    } else if j > 0 {
      assert q[1..][j - 1] == q[j];
    }
  }

  lemma {:induction false} SortedSame(q: seq<nat>, key: map<nat, int>, key1: map<nat, int>)
    requires SortedBy(q, key) && forall x :: x in q ==> KeyOf(key1, x) == KeyOf(key, x)
    ensures SortedBy(q, key1)
  {
    if q != [] {
      SortedSame(q[1..], key, key1);
    }
  }

  lemma {:induction false} SortedAppend(q: seq<nat>, key: map<nat, int>, x: nat)
    requires SortedBy(q, key) && forall y :: y in q ==> KeyOf(key, y) <= KeyOf(key, x)
    ensures SortedBy(q + [x], key)
  {
    var q1 := q + [x];
    if q == [] {
      assert q1[1..] == [];
    } else {
      SortedAppend(q[1..], key, x);
      assert q1[0] == q[0] && q1[1..] == q[1..] + [x];
    }
  }

  lemma {:induction false} SortedDrop(q: seq<nat>, x: nat, key: map<nat, int>)
    requires SortedBy(q, key)
    ensures SortedBy(Drop(q, x), key)
  {
    if q != [] && q[0] != x {
      SortedDrop(q[1..], x, key);
      DropWithin(q[1..], x);
      var d := [q[0]] + Drop(q[1..], x);
      assert d[1..] == Drop(q[1..], x);
    }
  }

  lemma InsertTail<T>(q: seq<T>, x: T, i: nat)
    requires 0 < i <= |q|
    ensures var q1 := q[..i] + [x] + q[i..];
      q1[0] == q[0] && q1[1..] == q[1..][..i - 1] + [x] + q[1..][i - 1..] && forall y :: y in q1[1..] ==>
        y in q[1..] || y == x
  {
  }

  lemma {:induction false} SortedInsert(q: seq<nat>, key: map<nat, int>, x: nat, i: nat)
    requires SortedBy(q, key) && i <= |q|
    requires forall j :: 0 <= j < i ==> KeyOf(key, q[j]) <= KeyOf(key, x)
    requires forall j :: i <= j < |q| ==> KeyOf(key, x) <= KeyOf(key, q[j])
    ensures SortedBy(q[..i] + [x] + q[i..], key)
  {
    if i == 0 {
      assert (q[..i] + [x] + q[i..])[1..] == q;
    } else {
      var rest := q[1..];
      assert forall j :: 0 <= j < |rest| ==> rest[j] == q[j + 1];
      SortedInsert(rest, key, x, i - 1);
      InsertTail(q, x, i);
    }
  }

  lemma {:induction false} SortedParts(q: seq<nat>, r: seq<nat>, key: map<nat, int>)
    requires SortedBy(q + r, key)
    ensures SortedBy(q, key) && SortedBy(r, key)
  {
    if q == [] {
      assert q + r == r;
    } else {
      assert (q + r)[1..] == q[1..] + r && (q + r)[0] == q[0];
      SortedParts(q[1..], r, key);
      assert forall x :: x in q[1..] ==> x in (q + r)[1..];
    }
  }
}
