/** List operations shared by the recommendation, search and autocomplete code. */
module Lists {

  ghost predicate Distinct<T>(s: seq<T>) {
    forall i, j :: 0 <= i < j < |s| ==> s[i] != s[j]
  }

  function Min(a: int, b: int): int { if a <= b then a else b }

  /** The first n elements, or all of them: Python's `s[:n]`. */
  function Take<T>(s: seq<T>, n: nat): seq<T> {
    if |s| <= n then s else s[..n]
  }

  function Reverse<T>(s: seq<T>): (r: seq<T>)
    ensures |r| == |s|
    ensures forall i :: 0 <= i < |s| ==> r[i] == s[|s| - 1 - i]
  {
    if s == [] then [] else Reverse(s[1..]) + [s[0]]
  }

  lemma ReverseSnoc<T>(s: seq<T>, x: T)
    ensures Reverse(s + [x]) == [x] + Reverse(s)
  {}

  lemma TakePrefix<T>(s: seq<T>, t: seq<T>, n: nat)
    requires s <= t
    ensures Take(s, n) <= Take(t, n) && Take(s, n) <= s
  {}

  // ----- removing and deduplicating -----

  /** All occurrences of x removed: Redis LREM with count 0. */
  function Remove<T(==)>(x: T, s: seq<T>): seq<T> {
    if s == [] then []
    else if s[0] == x then Remove(x, s[1..])
    else [s[0]] + Remove(x, s[1..])
  }

  lemma {:induction false} RemoveMembers<T>(x: T, s: seq<T>, y: T)
    ensures y in Remove(x, s) <==> y in s && y != x
  {
    if s != [] {
      RemoveMembers(x, s[1..], y);
      assert y in s <==> y == s[0] || y in s[1..];
    }
  }

  lemma {:induction false} RemoveAppend<T>(x: T, s: seq<T>, t: seq<T>)
    ensures Remove(x, s + t) == Remove(x, s) + Remove(x, t)
  {
    if s == [] {
      assert s + t == t;
    } else {
      RemoveAppend(x, s[1..], t);
      assert (s + t)[0] == s[0] && (s + t)[1..] == s[1..] + t;
    }
  }

  lemma RemovePrefix<T>(x: T, s: seq<T>, t: seq<T>)
    requires s <= t
    ensures Remove(x, s) <= Remove(x, t)
  {
    RemoveAppend(x, s, t[|s|..]);
    assert t == s + t[|s|..];
  }

  lemma {:induction false} RemoveAbsent<T>(x: T, s: seq<T>)
    requires x !in s
    ensures Remove(x, s) == s
  {
    if s != [] { RemoveAbsent(x, s[1..]); }
  }

  lemma {:induction false} RemoveDistinct<T>(x: T, s: seq<T>)
    requires Distinct(s)
    ensures Distinct(Remove(x, s))
  {
    if s != [] {
      RemoveDistinct(x, s[1..]);
      RemoveMembers(x, s[1..], s[0]);
      assert s[0] !in s[1..];
    }
  }

  lemma {:induction false} RemoveOne<T>(x: T, s: seq<T>)
    requires Distinct(s) && x in s
    ensures |Remove(x, s)| == |s| - 1
  {
    if s[0] == x {
      RemoveAbsent(x, s[1..]);
    } else {
      RemoveOne(x, s[1..]);
    }
  }

  /** The first occurrence of every element, in order: `list(dict.fromkeys(s))`. */
  function Dedup<T(==)>(s: seq<T>): seq<T> {
    if s == [] then [] else [s[0]] + Remove(s[0], Dedup(s[1..]))
  }

  lemma {:induction false} DedupMembers<T>(s: seq<T>, y: T)
    ensures y in Dedup(s) <==> y in s
  {
    if s != [] {
      DedupMembers(s[1..], y);
      RemoveMembers(s[0], Dedup(s[1..]), y);
      assert y in s <==> y == s[0] || y in s[1..];
    }
  }

  lemma {:induction false} DedupDistinct<T>(s: seq<T>)
    ensures Distinct(Dedup(s))
  {
    if s != [] {
      var t := Dedup(s[1..]);
      DedupDistinct(s[1..]);
      RemoveDistinct(s[0], t);
      RemoveMembers(s[0], t, s[0]);
      assert Dedup(s) == [s[0]] + Remove(s[0], t);
    }
  }

  /** Deduplicating a longer history only appends: what was found first stays first. */
  lemma {:induction false} DedupSnoc<T>(s: seq<T>, x: T)
    ensures Dedup(s + [x]) == if x in s then Dedup(s) else Dedup(s) + [x]
  {
    if s == [] {
      assert s + [x] == [x];
      assert Dedup([x]) == [x];
    } else {
      var t := Dedup(s[1..]);
      DedupSnoc(s[1..], x);
      assert (s + [x])[0] == s[0] && (s + [x])[1..] == s[1..] + [x];
      assert x in s <==> x == s[0] || x in s[1..];
      if x !in s[1..] {
        RemoveAppend(s[0], t, [x]);
        assert Remove(s[0], [x]) == if s[0] == x then [] else [x];
      }
    }
  }

  lemma {:induction false} DedupPrefix<T>(s: seq<T>, n: nat)
    requires n <= |s|
    ensures Dedup(s[..n]) <= Dedup(s)
  {
    if n == |s| {
      assert s[..n] == s;
    } else {
      var t := s[..|s| - 1];
      DedupPrefix(t, n);
      assert t[..n] == s[..n];
      DedupSnoc(t, s[|s| - 1]);
      assert s == t + [s[|s| - 1]];
    }
  }

  // ----- stable sort, largest key first -----

  function InsertDescending<T>(x: T, key: T -> int, s: seq<T>): seq<T> {
    if s == [] || key(x) >= key(s[0]) then [x] + s
    else [s[0]] + InsertDescending(x, key, s[1..])
  }

  /** `sorted(s, key=key, reverse=True)`: descending, equal keys in their original order. */
  function SortDescending<T>(s: seq<T>, key: T -> int): seq<T> {
    if s == [] then [] else InsertDescending(s[0], key, SortDescending(s[1..], key))
  }

  ghost predicate Descending<T>(s: seq<T>, key: T -> int) {
    forall i, j :: 0 <= i < j < |s| ==> key(s[i]) >= key(s[j])
  }

  /** The elements whose key is v, in order. */
  function WithKey<T>(s: seq<T>, key: T -> int, v: int): seq<T> {
    if s == [] then [] else (if key(s[0]) == v then [s[0]] else []) + WithKey(s[1..], key, v)
  }

  lemma {:induction false} InsertElements<T>(x: T, key: T -> int, s: seq<T>)
    ensures multiset(InsertDescending(x, key, s)) == multiset{x} + multiset(s)
  {
    if !(s == [] || key(x) >= key(s[0])) {
      InsertElements(x, key, s[1..]);
      assert s == [s[0]] + s[1..];
    }
  }

  lemma {:induction false} InsertSorts<T>(x: T, key: T -> int, s: seq<T>)
    requires Descending(s, key)
    ensures Descending(InsertDescending(x, key, s), key)
  {
    if !(s == [] || key(x) >= key(s[0])) {
      var t := InsertDescending(x, key, s[1..]);
      InsertSorts(x, key, s[1..]);
      forall i | 0 <= i < |t| ensures key(s[0]) >= key(t[i]) {
        InsertElements(x, key, s[1..]);
        assert t[i] in multiset(t);
        assert t[i] == x || t[i] in s[1..];
      }
    }
  }

  lemma {:induction false} InsertStable<T>(x: T, key: T -> int, s: seq<T>, v: int)
    requires Descending(s, key)
    ensures WithKey(InsertDescending(x, key, s), key, v) == WithKey([x] + s, key, v)
  {
    if s == [] || key(x) >= key(s[0]) {
    } else {
      InsertStable(x, key, s[1..], v);
      assert ([x] + s)[1..] == s && ([x] + s[1..])[1..] == s[1..];
    }
  }

  lemma {:induction false} SortDescendingSorts<T>(s: seq<T>, key: T -> int)
    ensures Descending(SortDescending(s, key), key)
    ensures multiset(SortDescending(s, key)) == multiset(s)
    ensures |SortDescending(s, key)| == |s|
  {
    if s != [] {
      SortDescendingSorts(s[1..], key);
      InsertSorts(s[0], key, SortDescending(s[1..], key));
      InsertElements(s[0], key, SortDescending(s[1..], key));
      assert s == [s[0]] + s[1..];
    }
    assert |multiset(SortDescending(s, key))| == |multiset(s)|;
  }

  lemma {:induction false} SortDescendingStable<T>(s: seq<T>, key: T -> int, v: int)
    ensures WithKey(SortDescending(s, key), key, v) == WithKey(s, key, v)
  {
    if s != [] {
      SortDescendingStable(s[1..], key, v);
      SortDescendingSorts(s[1..], key);
      var t := SortDescending(s[1..], key);
      InsertStable(s[0], key, t, v);
      assert ([s[0]] + t)[1..] == t;
    }
  }

  /** Same elements, same multiplicities: membership carries over. */
  lemma SameElements<T>(s: seq<T>, t: seq<T>)
    requires multiset(s) == multiset(t)
    ensures forall x :: x in s <==> x in t
  {
    forall x ensures x in s <==> x in t {
      assert x in s <==> x in multiset(s);
      assert x in t <==> x in multiset(t);
    }
  }

  // ----- picking an element, sizes of sets -----

  lemma NoElements<T>(s: set<T>)
    ensures (forall x :: x !in s) ==> s == {}
  {}

  lemma Element<T>(s: set<T>) returns (x: T)
    requires s != {}
    ensures x in s
  {
    NoElements(s);
    x :| x in s;
  }

  lemma Missing<T>(a: set<T>, b: set<T>) returns (x: T)
    requires !(a <= b)
    ensures x in a && x !in b
  {
    assert a - b != {} by { assert a - b == {} ==> forall y :: y in a ==> y in b || y in a - b; }
    x := Element(a - b);
  }

  lemma {:induction false} SubsetSize<T>(a: set<T>, b: set<T>)
    requires a <= b
    ensures |a| <= |b|
    ensures |a| == |b| ==> a == b
  {
    assert b == a + (b - a);
    assert |b| == |a| + |b - a|;
    if |a| == |b| { assert b - a == {}; }
  }

  function Elements<T>(s: seq<T>): set<T> {
    set x | x in s
  }

  lemma ElementsSnoc<T>(s: seq<T>)
    requires s != []
    ensures Elements(s) == Elements(s[..|s| - 1]) + {s[|s| - 1]}
  {
    assert s == s[..|s| - 1] + [s[|s| - 1]];
  }

  /** A duplicate-free list has as many elements as its set of elements. */
  lemma {:induction false} DistinctSize<T>(s: seq<T>)
    requires Distinct(s)
    ensures |Elements(s)| == |s|
  {
    if s != [] {
      DistinctSize(s[..|s| - 1]);
      ElementsSnoc(s);
      assert s[|s| - 1] !in s[..|s| - 1];
    } else {
      assert Elements(s) == {};
    }
  }

  lemma {:induction false} ElementsSize<T>(s: seq<T>)
    ensures |Elements(s)| <= |s|
  {
    if s != [] {
      ElementsSize(s[..|s| - 1]);
      ElementsSnoc(s);
    } else {
      assert Elements(s) == {};
    }
  }
}
