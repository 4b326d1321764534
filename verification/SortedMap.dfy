/**
 The order of std::string and the containers keyed by it.

 A std::string is modelled as a Dafny string with one char per byte.  A
 std::map<std::string, V> is modelled as the strictly ascending sequence of its
 entries, which is exactly what iterating over it yields.
 */
module SortedMap {

  datatype Option<+T> = None | Some(value: T)

  /** operator< of std::string: byte-wise lexicographic order. */
  predicate Less(a: string, b: string)
  {
    b != [] &&
    (a == [] || a[0] < b[0] || (a[0] == b[0] && Less(a[1..], b[1..])))
  }

  lemma {:induction false} LessIrreflexive(a: string)
    ensures !Less(a, a)
  {
    if a != [] {
      LessIrreflexive(a[1..]);
    }
  }

  lemma {:induction false} LessTransitive(a: string, b: string, c: string)
    requires Less(a, b) && Less(b, c)
    ensures Less(a, c)
  {
    if a != [] && a[0] == b[0] && b[0] == c[0] {
      LessTransitive(a[1..], b[1..], c[1..]);
    }
  }

  lemma {:induction false} LessTotal(a: string, b: string)
    ensures Less(a, b) || a == b || Less(b, a)
  {
    if a != [] && b != [] && a[0] == b[0] {
      LessTotal(a[1..], b[1..]);
      assert a == [a[0]] + a[1..];
      assert b == [b[0]] + b[1..];
    }
  }

  /** Two strings are ordered by the first position at which they differ. */
  lemma {:induction false} LessAt(a: string, b: string, i: nat)
    requires i <= |a| && i < |b| && a[..i] == b[..i]
    requires i == |a| || a[i] < b[i]
    ensures Less(a, b)
  {
    if i > 0 {
      assert a[0] == a[..i][0] == b[..i][0] == b[0];
      assert a[1..][..i - 1] == a[..i][1..] == b[..i][1..] == b[1..][..i - 1];
      LessAt(a[1..], b[1..], i - 1);
    }
  }

  datatype Entry<+V> = Entry(key: string, value: V)

  ghost predicate Sorted<V>(m: seq<Entry<V>>)
  {
    forall i, j :: 0 <= i < j < |m| ==> Less(m[i].key, m[j].key)
  }

  /** std::map::lower_bound: the position of the first key that is not below `key`. */
  function LowerBound<V>(m: seq<Entry<V>>, key: string): (i: nat)
    ensures i <= |m|
    ensures forall j :: 0 <= j < i ==> Less(m[j].key, key)
    ensures i < |m| ==> !Less(m[i].key, key)
  {
    if m == [] || !Less(m[0].key, key) then 0 else 1 + LowerBound(m[1..], key)
  }

  /** std::map::find */
  function Find<V>(m: seq<Entry<V>>, key: string): Option<V>
  {
    var i := LowerBound(m, key);
    if i < |m| && m[i].key == key then Some(m[i].value) else None
  }

  /** The map after std::map::emplace, which leaves an existing entry alone. */
  function Emplace<V>(m: seq<Entry<V>>, key: string, value: V): seq<Entry<V>>
  {
    var i := LowerBound(m, key);
    if i < |m| && m[i].key == key then m else m[..i] + [Entry(key, value)] + m[i..]
  }

  /** In a sorted map, `find` sees a key exactly when some entry carries it. */
  lemma FindIndex<V>(m: seq<Entry<V>>, i: nat)
    requires Sorted(m) && i < |m|
    ensures LowerBound(m, m[i].key) == i
    ensures Find(m, m[i].key) == Some(m[i].value)
  {
    hide Less;
    LessIrreflexive(m[i].key);
  }

  lemma FindSound<V>(m: seq<Entry<V>>, key: string)
    requires Sorted(m)
    ensures Find(m, key).Some? <==> exists i :: 0 <= i < |m| && m[i].key == key
  {
    hide Less, LowerBound;
    if i :| 0 <= i < |m| && m[i].key == key {
      FindIndex(m, i);
    }
  }

  lemma EmplaceSorted<V>(m: seq<Entry<V>>, key: string, value: V)
    requires Sorted(m)
    ensures Sorted(Emplace(m, key, value))
  {
    hide Less, LowerBound;
    var b := LowerBound(m, key);
    if b < |m| && m[b].key != key {
      LessTotal(m[b].key, key);
      forall j | b <= j < |m|
        ensures Less(key, m[j].key)
      {
        if b < j { LessTransitive(key, m[b].key, m[j].key); }
      }
    }
  }

  /** `emplace` adds the entry it is given and no other, unless the key is taken. */
  lemma EmplaceFind<V>(m: seq<Entry<V>>, key: string, value: V, other: string)
    requires Sorted(m) && Find(m, key).None?
    ensures Find(Emplace(m, key, value), other) ==
            if other == key then Some(value) else Find(m, other)
  {
    hide Less, LowerBound;
    var e := Emplace(m, key, value);
    var b := LowerBound(m, key);
    EmplaceSorted(m, key, value);
    if other == key {
      assert e[b] == Entry(key, value);
      FindIndex(e, b);
    } else if Find(m, other).Some? {
      var i := LowerBound(m, other);
      var j := if i < b then i else i + 1;
      assert e[j] == m[i];
      FindIndex(e, j);
    } else if Find(e, other).Some? {
      var j := LowerBound(e, other);
      FindIndex(m, if j < b then j else j - 1);
    }
  }

  /** A key above every present key is appended. */
  lemma EmplaceLast<V>(m: seq<Entry<V>>, key: string, value: V)
    requires forall i :: 0 <= i < |m| ==> Less(m[i].key, key)
    ensures Find(m, key).None?
    ensures Emplace(m, key, value) == m + [Entry(key, value)]
  {
    hide Less;
  }

  /** Sorted maps that answer every `find` alike are the same map. */
  lemma {:induction false} Extensional<V>(m: seq<Entry<V>>, n: seq<Entry<V>>)
    requires Sorted(m) && Sorted(n)
    requires forall k :: Find(m, k) == Find(n, k)
    ensures m == n
    decreases |m|
  {
    hide Less, LowerBound;
    if m == [] {
      if n != [] { FindIndex(n, 0); }
    } else {
      FindIndex(m, 0);
      FindSound(n, m[0].key);
      var i :| 0 <= i < |n| && n[i].key == m[0].key;
      FindIndex(n, 0);
      FindSound(m, n[0].key);
      var j :| 0 <= j < |m| && m[j].key == n[0].key;
      HeadsAgree(m, n, i, j);
      forall k
        ensures Find(m[1..], k) == Find(n[1..], k)
      {
        FindTail(m, k);
        FindTail(n, k);
      }
      Extensional(m[1..], n[1..]);
      assert m == [m[0]] + m[1..] && n == [n[0]] + n[1..];
    }
  }

  lemma HeadsAgree<V>(m: seq<Entry<V>>, n: seq<Entry<V>>, i: nat, j: nat)
    requires Sorted(m) && Sorted(n) && i < |n| && j < |m|
    requires n[i].key == m[0].key && m[j].key == n[0].key
    requires Find(m, m[0].key) == Find(n, m[0].key)
    ensures m[0] == n[0]
  {
    hide Less, LowerBound;
    if i > 0 && j > 0 {
      LessTransitive(n[0].key, n[i].key, m[j].key);
      LessIrreflexive(n[0].key);
    } else if i > 0 {
      assert Less(n[0].key, n[i].key);
      LessIrreflexive(n[0].key);
    }
    FindIndex(m, 0);
    FindIndex(n, 0);
  }

  lemma FindTail<V>(m: seq<Entry<V>>, key: string)
    requires Sorted(m) && m != []
    ensures Find(m[1..], key) == if key == m[0].key then None else Find(m, key)
  {
    hide Less, LowerBound;
    FindSound(m[1..], key);
    FindSound(m, key);
    if i :| 0 <= i < |m[1..]| && m[1..][i].key == key {
      assert m[i + 1].key == key && Less(m[0].key, m[i + 1].key);
      LessIrreflexive(key);
      FindIndex(m[1..], i);
      FindIndex(m, i + 1);
    } else {
      assert forall i :: 0 < i < |m| ==> m[i] == m[1..][i - 1];
    }
  }
}
