/** Stable sorting by a byte-string key, and what a sorted list of keys determines. */
module SortedKeys {
  import opened OrderTokens

  function Keys<T, K>(xs: seq<T>, key: T -> K): seq<K> {
    seq(|xs|, i requires 0 <= i < |xs| => key(xs[i]))
  }

  function Insert<T>(xs: seq<T>, x: T, key: T -> Token): seq<T> {
    if xs == [] then [x]
    else if Less(key(x), key(xs[0])) then [x] + xs
    else [xs[0]] + Insert(xs[1..], x, key)
  }

  /** A stable sort: elements with equal keys keep their order. */
  function Sort<T>(xs: seq<T>, key: T -> Token): seq<T> {
    if xs == [] then [] else Insert(Sort(xs[..|xs| - 1], key), xs[|xs| - 1], key)
  }

  ghost predicate Sorted(keys: seq<Token>) {
    forall i, j | 0 <= i < j < |keys| :: !Less(keys[j], keys[i])
  }

  lemma {:induction false} InsertPermutes<T>(xs: seq<T>, x: T, key: T -> Token)
    ensures multiset(Insert(xs, x, key)) == multiset(xs) + multiset{x}
  {
    if xs != [] && !Less(key(x), key(xs[0])) {
      InsertPermutes(xs[1..], x, key);
      assert xs == [xs[0]] + xs[1..];
    }
  }

  lemma {:induction false} SortPermutes<T>(xs: seq<T>, key: T -> Token)
    ensures multiset(Sort(xs, key)) == multiset(xs)
  {
    if xs != [] {
      var n := |xs| - 1;
      SortPermutes(xs[..n], key);
      InsertPermutes(Sort(xs[..n], key), xs[n], key);
      assert xs == xs[..n] + [xs[n]];
    }
  }

  function Self(t: Token): Token {
    t
  }

  lemma {:induction false} InsertKeys<T>(xs: seq<T>, x: T, key: T -> Token)
    ensures Keys(Insert(xs, x, key), key) == Insert(Keys(xs, key), key(x), Self)
  {
    if xs != [] {
      assert Keys(xs, key)[1..] == Keys(xs[1..], key);
      InsertKeys(xs[1..], x, key);
    }
  }

  /** Sorting by a key and then taking the keys is taking the keys and then sorting them. */
  lemma {:induction false} SortKeys<T>(xs: seq<T>, key: T -> Token)
    ensures Keys(Sort(xs, key), key) == Sort(Keys(xs, key), Self)
  {
    if xs != [] {
      var n := |xs| - 1;
      SortKeys(xs[..n], key);
      InsertKeys(Sort(xs[..n], key), xs[n], key);
      assert Keys(xs, key)[..n] == Keys(xs[..n], key);
    }
  }

  lemma {:induction false} InsertSorts(keys: seq<Token>, k: Token)
    requires Sorted(keys)
    ensures Sorted(Insert(keys, k, Self))
  {
    if keys != [] {
      if Less(k, keys[0]) {
        Asymmetric(k, keys[0]);
        forall i | 0 <= i < |keys| ensures !Less(keys[i], k) {
          if i > 0 { NotLessTransitive(k, keys[0], keys[i]); }
        }
      } else {
        var rest := Insert(keys[1..], k, Self);
        InsertSorts(keys[1..], k);
        InsertPermutes(keys[1..], k, Self);
        forall i | 0 <= i < |rest| ensures !Less(rest[i], keys[0]) {
          assert rest[i] in multiset(keys[1..]) + multiset{k};
        }
      }
    }
  }

  lemma NotLessTransitive(a: Token, b: Token, c: Token)
    requires !Less(b, a) && !Less(c, b)
    ensures !Less(c, a)
  {
    Trichotomy(b, c);
    if Less(c, a) && Less(b, c) { Transitive(b, c, a); }
  }

  lemma {:induction false} SortSorts(keys: seq<Token>)
    ensures Sorted(Sort(keys, Self))
  {
    if keys != [] {
      SortSorts(keys[..|keys| - 1]);
      InsertSorts(Sort(keys[..|keys| - 1], Self), keys[|keys| - 1]);
    }
  }

  lemma LeastFirst(a: seq<Token>, b: seq<Token>)
    requires Sorted(a) && Sorted(b) && multiset(a) == multiset(b) && a != []
    ensures b != [] && a[0] == b[0]
  {
    assert a[0] in multiset(b) && |multiset(a)| == |multiset(b)|;
    assert b[0] in multiset(a);
    Trichotomy(a[0], b[0]);
  }

  /** A sorted list is determined by its multiset of keys. */
  lemma {:induction false} SortedUnique(a: seq<Token>, b: seq<Token>)
    requires Sorted(a) && Sorted(b) && multiset(a) == multiset(b)
    ensures a == b
  {
    assert |multiset(a)| == |a| && |multiset(b)| == |b|;
    if a != [] {
      LeastFirst(a, b);
      assert a == [a[0]] + a[1..] && b == [b[0]] + b[1..];
      assert multiset(a[1..]) == multiset(a) - multiset{a[0]} && multiset(b[1..]) == multiset(b) - multiset{b[0]};
      SortedUnique(a[1..], b[1..]);
    }
  }

  /** Two lists of keys sort to the same list if and only if they are equal as multisets. */
  lemma SortedExactly(a: seq<Token>, b: seq<Token>)
    ensures Sort(a, Self) == Sort(b, Self) <==> multiset(a) == multiset(b)
  {
    SortPermutes(a, Self);
    SortPermutes(b, Self);
    if multiset(a) == multiset(b) {
      SortSorts(a);
      SortSorts(b);
      SortedUnique(Sort(a, Self), Sort(b, Self));
    }
  }

  // ---- two keys that tell the same elements apart ----

  ghost predicate SameSense<T(!new), K, L>(xs: seq<T>, f: T -> K, g: T -> L) {
    forall x, y | x in xs && y in xs :: f(x) == f(y) <==> g(x) == g(y)
  }

  lemma {:induction false} SameCount<T(!new), K, L>(xs: seq<T>, all: seq<T>, x: T, f: T -> K, g: T -> L)
    requires SameSense(all, f, g) && x in all && forall i | 0 <= i < |xs| :: xs[i] in all
    ensures multiset(Keys(xs, f))[f(x)] == multiset(Keys(xs, g))[g(x)]
  {
    if xs != [] {
      SameCount(xs[1..], all, x, f, g);
      assert Keys(xs, f) == [f(xs[0])] + Keys(xs[1..], f) && Keys(xs, g) == [g(xs[0])] + Keys(xs[1..], g);
    }
  }

  lemma Occurs<T, K>(xs: seq<T>, f: T -> K, k: K) returns (x: T)
    requires k in multiset(Keys(xs, f))
    ensures x in xs && f(x) == k
  {
    var i :| 0 <= i < |Keys(xs, f)| && Keys(xs, f)[i] == k;
    x := xs[i];
  }

  lemma SameMultiset<T(!new), K, L(!new)>(a: seq<T>, b: seq<T>, f: T -> K, g: T -> L)
    requires SameSense(a + b, f, g) && multiset(Keys(a, f)) == multiset(Keys(b, f))
    ensures multiset(Keys(a, g)) == multiset(Keys(b, g))
  {
    forall l ensures multiset(Keys(a, g))[l] == multiset(Keys(b, g))[l] {
      if l in multiset(Keys(a, g)) {
        var x := Occurs(a, g, l);
        SameCount(a, a + b, x, f, g);
        SameCount(b, a + b, x, f, g);
      } else if l in multiset(Keys(b, g)) {
        var x := Occurs(b, g, l);
        SameCount(a, a + b, x, f, g);
        SameCount(b, a + b, x, f, g);
      }
    }
  }

  /** Lists have the same keys of one kind, as multisets, exactly when they have the same keys of the other. */
  lemma SameMultisets<T(!new), K(!new), L(!new)>(a: seq<T>, b: seq<T>, f: T -> K, g: T -> L)
    requires SameSense(a + b, f, g)
    ensures multiset(Keys(a, f)) == multiset(Keys(b, f)) <==> multiset(Keys(a, g)) == multiset(Keys(b, g))
  {
    if multiset(Keys(a, f)) == multiset(Keys(b, f)) { SameMultiset(a, b, f, g); }
    if multiset(Keys(a, g)) == multiset(Keys(b, g)) { SameMultiset(a, b, g, f); }
  }
}
