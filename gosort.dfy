/** Go's library sorts as the program uses them. sort.SliceStable and
    sort.Strings are modelled by a stable insertion sort on a sequence; ranging
    over a Go map (whose order is unspecified) is a loop that picks the keys in
    an arbitrary order. */
module GoSort {
  import opened GoStrings

  predicate Distinct<T(==)>(s: seq<T>)
  {
    forall i, j :: 0 <= i < j < |s| ==> s[i] != s[j]
  }

  /** No later element is `lt` an earlier one. */
  predicate SortedWith<T>(s: seq<T>, lt: (T, T) -> bool)
  {
    forall i, j :: 0 <= i < j < |s| ==> !lt(s[j], s[i])
  }

  /** `lt` is a strict weak order: asymmetric, and "not less" is transitive. */
  ghost predicate StrictWeak<T(!new)>(lt: (T, T) -> bool)
  {
    && (forall a, b :: lt(a, b) ==> !lt(b, a))
    && (forall a, b, c :: !lt(a, b) && !lt(b, c) ==> !lt(a, c))
  }

  /** One step of insertion sort: `x` enters from the right and moves left
      past every element it is less than, so equal elements keep their order. */
  function InsertRight<T>(x: T, s: seq<T>, lt: (T, T) -> bool): (r: seq<T>)
    ensures multiset(r) == multiset(s) + multiset{x}
    ensures |r| == |s| + 1
  {
    if |s| == 0 then [x]
    else if lt(x, s[|s| - 1]) then
      assert s == s[..|s| - 1] + [s[|s| - 1]];
      InsertRight(x, s[..|s| - 1], lt) + [s[|s| - 1]]
    else s + [x]
  }

  /** sort.SliceStable(s, lt): a stable sort of `s` by `lt`. */
  function SortWith<T>(s: seq<T>, lt: (T, T) -> bool): (r: seq<T>)
    ensures multiset(r) == multiset(s)
    ensures |r| == |s|
  {
    if |s| == 0 then []
    else
      assert s == s[..|s| - 1] + [s[|s| - 1]];
      InsertRight(s[|s| - 1], SortWith(s[..|s| - 1], lt), lt)
  }

  lemma {:induction false} InsertRightSorted<T(!new)>(x: T, s: seq<T>, lt: (T, T) -> bool)
    requires StrictWeak(lt)
    requires SortedWith(s, lt)
    ensures SortedWith(InsertRight(x, s, lt), lt)
    decreases |s|
  {
    if |s| > 0 {
      var last := s[|s| - 1];
      var init := s[..|s| - 1];
      if lt(x, last) {
        InsertRightSorted(x, init, lt);
        var r0 := InsertRight(x, init, lt);
        var r := r0 + [last];
        forall i | 0 <= i < |r0| ensures !lt(last, r0[i]) {
          assert r0[i] in multiset(r0);
          if r0[i] != x {
            assert r0[i] in multiset(init);
            var k :| 0 <= k < |init| && init[k] == r0[i];
            assert s[k] == init[k];
          }
        }
      } else {
        forall i | 0 <= i < |s| ensures !lt(x, s[i]) {
          if i < |s| - 1 {
            assert !lt(s[|s| - 1], s[i]);
          }
        }
      }
    }
  }

  /** The stable sort's result is sorted whenever `lt` is a strict weak order. */
  lemma {:induction false} SortWithSorted<T(!new)>(s: seq<T>, lt: (T, T) -> bool)
    requires StrictWeak(lt)
    ensures SortedWith(SortWith(s, lt), lt)
    decreases |s|
  {
    if |s| > 0 {
      SortWithSorted(s[..|s| - 1], lt);
      InsertRightSorted(s[|s| - 1], SortWith(s[..|s| - 1], lt), lt);
    }
  }

  /** The sort only ever compares two different elements of a duplicate-free
      input, so two comparators that agree on such pairs sort alike. */
  lemma {:induction false} InsertRightAgree<T>(x: T, s: seq<T>, lt1: (T, T) -> bool, lt2: (T, T) -> bool)
    requires x !in s
    requires forall i :: 0 <= i < |s| ==> lt1(x, s[i]) == lt2(x, s[i])
    ensures InsertRight(x, s, lt1) == InsertRight(x, s, lt2)
    decreases |s|
  {
    if |s| > 0 {
      var init := s[..|s| - 1];
      assert forall i :: 0 <= i < |init| ==> init[i] == s[i];
      InsertRightAgree(x, init, lt1, lt2);
    }
  }

  lemma {:induction false} SortWithAgree<T>(s: seq<T>, lt1: (T, T) -> bool, lt2: (T, T) -> bool)
    requires Distinct(s)
    requires forall a, b :: a in s && b in s && a != b ==> lt1(a, b) == lt2(a, b)
    ensures SortWith(s, lt1) == SortWith(s, lt2)
    decreases |s|
  {
    if |s| > 0 {
      var init := s[..|s| - 1];
      var x := s[|s| - 1];
      assert forall e :: e in init ==> e in s;
      SortWithAgree(init, lt1, lt2);
      var r := SortWith(init, lt1);
      forall i | 0 <= i < |r| ensures lt1(x, r[i]) == lt2(x, r[i]) && r[i] != x {
        assert r[i] in multiset(init);
        var k :| 0 <= k < |init| && init[k] == r[i];
        assert s[k] == r[i];
      }
      InsertRightAgree(x, r, lt1, lt2);
    }
  }

  /** A permutation of a duplicate-free sequence is duplicate-free. */
  lemma DistinctPermutation<T>(s: seq<T>, r: seq<T>)
    requires Distinct(s)
    requires multiset(r) == multiset(s)
    ensures Distinct(r)
  {
    forall x ensures multiset(s)[x] <= 1 {
      DistinctCount(s, x);
    }
    forall i, j | 0 <= i < j < |r| ensures r[i] != r[j] {
      assert r == r[..j] + [r[j]] + r[j + 1..];
      assert r[i] in multiset(r[..j]);
      assert multiset(r)[r[j]] >= multiset(r[..j])[r[j]] + 1;
      assert multiset(r)[r[j]] <= 1;
    }
  }

  lemma {:induction false} DistinctCount<T>(s: seq<T>, x: T)
    requires Distinct(s)
    ensures multiset(s)[x] <= 1
    decreases |s|
  {
    if |s| > 0 {
      var init := s[..|s| - 1];
      assert s == init + [s[|s| - 1]];
      assert Distinct(init);
      DistinctCount(init, x);
      if s[|s| - 1] == x {
        assert x !in init;
      }
    }
  }

  /** sort.SliceStable with `key(a) < key(b)`. */
  function SortBy<T>(s: seq<T>, key: T -> string): (r: seq<T>)
    ensures multiset(r) == multiset(s)
  {
    SortWith(s, (a, b) => LexLess(key(a), key(b)))
  }

  lemma SortByKeysAscend<T(!new)>(s: seq<T>, key: T -> string)
    ensures forall i, j :: 0 <= i < j < |SortBy(s, key)| ==> !LexLess(key(SortBy(s, key)[j]), key(SortBy(s, key)[i]))
  {
    LexLessStrictTotalOrder();
    var lt := (a, b) => LexLess(key(a), key(b));
    SortWithSorted(s, lt);
  }

  /** sort.Strings. */
  function SortStrings(s: seq<string>): (r: seq<string>)
    ensures multiset(r) == multiset(s)
  {
    SortBy(s, x => x)
  }

  /** Sorting duplicate-free strings yields them in strictly ascending order. */
  lemma SortStringsAscending(s: seq<string>)
    requires Distinct(s)
    ensures Distinct(SortStrings(s))
    ensures forall i, j :: 0 <= i < j < |SortStrings(s)| ==> LexLess(SortStrings(s)[i], SortStrings(s)[j])
  {
    var r := SortStrings(s);
    SortByKeysAscend(s, x => x);
    DistinctPermutation(s, r);
    forall i, j | 0 <= i < j < |r| ensures LexLess(r[i], r[j]) {
      LexLessTotal(r[i], r[j]);
    }
  }

  /** `for key := range m { keys = append(keys, key) }`: every key once, in
      an order the language leaves open. */
  method MapKeys<K, V>(m: map<K, V>) returns (keys: seq<K>)
    ensures Distinct(keys)
    ensures forall k :: k in keys <==> k in m
  {
    keys := [];
    var left := m.Keys;
    while left != {}
      invariant left <= m.Keys
      invariant forall k :: k in keys ==> k in m && k !in left
      invariant forall k :: k in m ==> k in left || k in keys
      invariant Distinct(keys)
      decreases |left|
    {
      var k :| k in left;
      keys := keys + [k];
      left := left - {k};
    }
  }

  /** Collecting a map's keys and sorting them with sort.Strings gives the
      keys in ascending order, whatever order the map was ranged over in
      (AscendingSorted and AscendingDistinct say what that order is). */
  method SortedKeys<V>(m: map<string, V>) returns (keys: seq<string>)
    ensures keys == Ascending(m.Keys)
  {
    var collected := MapKeys(m);
    keys := SortStrings(collected);
    SortStringsAscending(collected);
    assert forall k :: k in keys <==> k in multiset(collected);
    AscendingUnique(keys, m.Keys);
  }

  /** A set of strings has a least element under Go's `<`. */
  lemma {:induction false} LeastExists(s: set<string>)
    requires s != {}
    ensures exists m :: m in s && IsLeast(m, s)
    decreases |s|
  {
    var y :| y in s;
    if s - {y} == {} {
      assert s == {y};
      LexLessIrreflexive(y);
      assert IsLeast(y, s);
    } else {
      LeastExists(s - {y});
      var m :| m in s - {y} && IsLeast(m, s - {y});
      if LexLess(y, m) {
        forall x | x in s ensures !LexLess(x, y) {
          if x == y {
            LexLessIrreflexive(y);
          } else {
            assert !LexLess(x, m);
            if LexLess(x, y) {
              LexLessTransitive(x, y, m);
            }
          }
        }
        assert IsLeast(y, s);
      } else {
        assert IsLeast(m, s);
      }
    }
  }

  /** The strings of `s` in ascending order: the order the sorted keys of a
      map with key set `s` come in. */
  ghost function Ascending(s: set<string>): seq<string>
    decreases |s|
  {
    if s == {} then []
    else
      LeastExists(s);
      var m :| m in s && IsLeast(m, s);
      [m] + Ascending(s - {m})
  }

  /** Ascending(s) holds exactly the strings of `s`, each less than the next. */
  lemma {:induction false} AscendingSorted(s: set<string>)
    ensures |Ascending(s)| == |s|
    ensures forall k :: k in Ascending(s) <==> k in s
    ensures StrictlyAscending(Ascending(s))
    decreases |s|
  {
    if s != {} {
      LeastExists(s);
      var m := Ascending(s)[0];
      assert m in s && IsLeast(m, s) && Ascending(s) == [m] + Ascending(s - {m});
      AscendingSorted(s - {m});
      LeastFirst(m, s, Ascending(s - {m}));
    }
  }

  /** Ascending(s) holds exactly the strings of `s`, once each. */
  lemma AscendingMembers(s: set<string>)
    ensures |Ascending(s)| == |s|
    ensures forall k :: k in Ascending(s) <==> k in s
  {
    AscendingSorted(s);
  }

  /** Ascending(s) holds each string once. */
  lemma AscendingDistinct(s: set<string>)
    ensures Distinct(Ascending(s))
  {
    AscendingSorted(s);
    var ks := Ascending(s);
    forall i, j | 0 <= i < j < |ks| ensures ks[i] != ks[j] {
      LexLessIrreflexive(ks[i]);
    }
  }

  /** No string of `s` is less than `m`. */
  ghost predicate IsLeast(m: string, s: set<string>)
  {
    forall x | x in s :: !LexLess(x, m)
  }

  /** Every string of `ks` is less than every later one. */
  predicate StrictlyAscending(ks: seq<string>)
  {
    forall i, j :: 0 <= i < j < |ks| ==> LexLess(ks[i], ks[j])
  }

  /** The least string of `s` goes in front of the others in ascending order. */
  lemma LeastFirst(m: string, s: set<string>, rest: seq<string>)
    requires m in s && IsLeast(m, s)
    requires forall k :: k in rest <==> k in s - {m}
    requires StrictlyAscending(rest)
    ensures StrictlyAscending([m] + rest)
  {
    var r := [m] + rest;
    forall i, j | 0 <= i < j < |r| ensures LexLess(r[i], r[j]) {
      if i == 0 {
        assert r[j] == rest[j - 1];
        assert rest[j - 1] in rest;
        assert r[j] in s - {m};
        LexLessTotal(m, r[j]);
      } else {
        assert r[i] == rest[i - 1] && r[j] == rest[j - 1];
      }
    }
  }

  /** There is one strictly ascending sequence of the strings of `s`. */
  lemma AscendingUnique(ks: seq<string>, s: set<string>)
    requires forall k :: k in ks <==> k in s
    requires StrictlyAscending(ks)
    ensures ks == Ascending(s)
  {
    AscendingSorted(s);
    SameAscending(ks, Ascending(s));
  }

  /** Two strictly ascending sequences of the same strings are equal. */
  lemma {:induction false} SameAscending(a: seq<string>, b: seq<string>)
    requires forall k :: k in a <==> k in b
    requires StrictlyAscending(a) && StrictlyAscending(b)
    ensures a == b
    decreases |a|
  {
    if |a| > 0 {
      assert a[0] in b;
      assert b[0] in b;
      assert b[0] in a;
      if a[0] != b[0] {
        var i :| 0 <= i < |b| && b[i] == a[0];
        var j :| 0 <= j < |a| && a[j] == b[0];
        assert i > 0 && j > 0;
        assert LexLess(b[0], a[0]) && LexLess(a[0], b[0]);
        LexLessAsymmetric(a[0], b[0]);
        assert false;
      }
      AscendingTail(a);
      AscendingTail(b);
      forall k ensures k in a[1..] <==> k in b[1..] {
        if k in a[1..] {
          var i :| 0 <= i < |a[1..]| && a[1..][i] == k;
          assert LexLess(a[0], a[i + 1]);
          LexLessIrreflexive(k);
          assert k in b;
          var j :| 0 <= j < |b| && b[j] == k;
          assert j != 0;
          assert b[1..][j - 1] == k;
        }
        if k in b[1..] {
          var i :| 0 <= i < |b[1..]| && b[1..][i] == k;
          assert LexLess(b[0], b[i + 1]);
          LexLessIrreflexive(k);
          assert k in a;
          var j :| 0 <= j < |a| && a[j] == k;
          assert j != 0;
          assert a[1..][j - 1] == k;
        }
      }
      SameAscending(a[1..], b[1..]);
      assert a == [a[0]] + a[1..] && b == [b[0]] + b[1..];
    } else {
      HasFirst(b);
    }
  }

  /** A non-empty sequence holds its first element. */
  lemma HasFirst<T>(s: seq<T>)
    ensures |s| > 0 ==> s[0] in s
  {
  }

  lemma AscendingTail(ks: seq<string>)
    requires StrictlyAscending(ks)
    requires |ks| > 0
    ensures StrictlyAscending(ks[1..])
  {
    var rest := ks[1..];
    forall i, j | 0 <= i < j < |rest| ensures LexLess(rest[i], rest[j]) {
      assert rest[i] == ks[i + 1] && rest[j] == ks[j + 1];
    }
  }
}
