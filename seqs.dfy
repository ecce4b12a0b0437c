/** Sequence helpers shared by both widgets: the `Array.prototype.filter`
    that the source uses to rebuild its lists, subsequences, duplicate-freedom,
    and the stable sort that `Array.prototype.sort` performs. */
module Seqs {

  /** `s.filter(p)`: the elements of `s` that satisfy `p`, in their order. */
  function Filter<T>(s: seq<T>, p: T -> bool): (r: seq<T>)
    ensures |r| <= |s|
    ensures forall x :: x in r ==> x in s && p(x)
  {
    if s == [] then []
    else if p(s[0]) then [s[0]] + Filter(s[1..], p)
    else Filter(s[1..], p)
  }

  /** `sub` can be obtained from `s` by deleting elements, keeping the order. */
  predicate IsSubsequence<T(==)>(sub: seq<T>, s: seq<T>)
    decreases |s|
  {
    if sub == [] then true
    else if s == [] then false
    else if sub[0] == s[0] then IsSubsequence(sub[1..], s[1..])
    else IsSubsequence(sub, s[1..])
  }

  /** No element occurs twice. */
  predicate NoDuplicates<T(==)>(s: seq<T>)
  {
    forall i, j :: 0 <= i < j < |s| ==> s[i] != s[j]
  }

  /** `s.slice(0, n)`. */
  function Take<T>(s: seq<T>, n: nat): (r: seq<T>)
    ensures |r| == if |s| <= n then |s| else n
    ensures r == s[..|r|]
  {
    if |s| <= n then s else s[..n]
  }

  lemma {:induction false} FilterAppend<T>(a: seq<T>, b: seq<T>, p: T -> bool)
    ensures Filter(a + b, p) == Filter(a, p) + Filter(b, p)
    decreases |a|
  {
    if a == [] {
      assert a + b == b;
    } else {
      assert (a + b)[1..] == a[1..] + b;
      FilterAppend(a[1..], b, p);
    }
  }

  /** A filter is a subsequence of what it filters. */
  lemma {:induction false} FilterIsSubsequence<T>(s: seq<T>, p: T -> bool)
    ensures IsSubsequence(Filter(s, p), s)
    decreases |s|
  {
    if s != [] {
      FilterIsSubsequence(s[1..], p);
      if !p(s[0]) {
        SubsequenceOfTail(Filter(s[1..], p), s);
      }
    }
  }

  lemma {:induction false} SubsequenceOfTail<T>(sub: seq<T>, s: seq<T>)
    requires s != []
    requires IsSubsequence(sub, s[1..])
    ensures IsSubsequence(sub, s)
    decreases |s|, |sub|
  {
    if sub != [] && sub[0] == s[0] {
      // sub[1..] is a subsequence of s[1..] because sub is one of s[1..]
      SubsequenceDropHead(sub, s[1..]);
    }
  }

  lemma {:induction false} SubsequenceDropHead<T>(sub: seq<T>, s: seq<T>)
    requires sub != []
    requires IsSubsequence(sub, s)
    ensures IsSubsequence(sub[1..], s)
    decreases |s|, |sub|
  {
    assert s != [];
    if sub[0] == s[0] {
      if sub[1..] != [] {
        SubsequenceOfTail(sub[1..], s);
      }
    } else {
      SubsequenceDropHead(sub, s[1..]);
      if sub[1..] != [] {
        SubsequenceOfTail(sub[1..], s);
      }
    }
  }

  /** The filter keeps exactly the copies of the elements that satisfy `p`:
      together with FilterIsSubsequence this pins the result down. */
  lemma {:induction false} FilterMultiplicity<T>(s: seq<T>, p: T -> bool, x: T)
    ensures multiset(Filter(s, p))[x] == if p(x) then multiset(s)[x] else 0
    decreases |s|
  {
    if s != [] {
      FilterMultiplicity(s[1..], p, x);
      assert s == [s[0]] + s[1..];
    }
  }

  /** Every sequence is a subsequence of itself followed by anything. */
  lemma {:induction false} PrefixIsSubsequence<T>(a: seq<T>, b: seq<T>)
    ensures IsSubsequence(a, a + b)
    decreases |a|
  {
    if a == [] {
      // the empty sequence is a subsequence of anything
    } else {
      assert (a + b)[1..] == a[1..] + b;
      PrefixIsSubsequence(a[1..], b);
    }
  }

  /** A filter that keeps everything changes nothing. */
  lemma {:induction false} FilterAll<T>(s: seq<T>, p: T -> bool)
    requires forall i :: 0 <= i < |s| ==> p(s[i])
    ensures Filter(s, p) == s
    decreases |s|
  {
    if s != [] {
      FilterAll(s[1..], p);
    }
  }

  /** A filter that keeps nothing gives the empty sequence. */
  lemma {:induction false} FilterNone<T>(s: seq<T>, p: T -> bool)
    requires forall x :: x in s ==> !p(x)
    ensures Filter(s, p) == []
    decreases |s|
  {
    if s != [] {
      FilterNone(s[1..], p);
    }
  }

  /** A filter of a duplicate-free sequence is duplicate-free. */
  lemma {:induction false} FilterNoDuplicates<T>(s: seq<T>, p: T -> bool)
    requires NoDuplicates(s)
    ensures NoDuplicates(Filter(s, p))
    decreases |s|
  {
    if s != [] {
      var rest := Filter(s[1..], p);
      FilterNoDuplicates(s[1..], p);
      if p(s[0]) {
        assert s[0] !in s[1..] by {
          forall k | 0 <= k < |s| - 1 ensures s[1..][k] != s[0] {
            assert s[1..][k] == s[k + 1];
          }
        }
        var r := [s[0]] + rest;
        forall i, j | 0 <= i < j < |r| ensures r[i] != r[j] {
          if i == 0 {
            assert r[j] in rest;
          } else {
            assert r[i] == rest[i - 1] && r[j] == rest[j - 1];
          }
        }
      }
    }
  }

  // ---------------------------------------------------------------------
  // Stable sort by a key, in non-increasing key order. This is what
  // `xs.sort((a, b) => key(b) - key(a))` computes: ECMAScript requires
  // Array.prototype.sort to be stable, so the result is determined.

  /** `s` is ordered by non-increasing key. */
  predicate SortedDesc<T>(s: seq<T>, key: T -> int)
  {
    forall i, j :: 0 <= i < j < |s| ==> key(s[i]) >= key(s[j])
  }

  /** Inserts `x` into a key-descending `s`, after every element whose key is
      at least `key(x)`: an element arriving later never overtakes an equal one. */
  function Insert<T>(x: T, s: seq<T>, key: T -> int): (r: seq<T>)
  {
    if s == [] || key(s[0]) < key(x) then [x] + s
    else [s[0]] + Insert(x, s[1..], key)
  }

  /** The stable sort by non-increasing key, by insertion from the left. */
  function SortDesc<T>(s: seq<T>, key: T -> int): (r: seq<T>)
  {
    if s == [] then [] else Insert(s[|s| - 1], SortDesc(s[..|s| - 1], key), key)
  }

  /** The elements of `s` whose key is `c`, in order. */
  function KeyClass<T>(s: seq<T>, key: T -> int, c: int): (r: seq<T>)
    ensures forall x :: x in r ==> x in s && key(x) == c
  {
    Filter(s, y => key(y) == c)
  }

  lemma KeyClassAppend<T>(a: seq<T>, b: seq<T>, key: T -> int, c: int)
    ensures KeyClass(a + b, key, c) == KeyClass(a, key, c) + KeyClass(b, key, c)
  {
    FilterAppend(a, b, y => key(y) == c);
  }

  /** Putting `y` in front of a key-descending `t` whose keys are all at
      most `key(y)` keeps it key-descending. */
  lemma ConsSorted<T>(y: T, t: seq<T>, key: T -> int)
    requires SortedDesc(t, key)
    requires forall i :: 0 <= i < |t| ==> key(t[i]) <= key(y)
    ensures SortedDesc([y] + t, key)
  {
    var r := [y] + t;
    forall i, j | 0 <= i < j < |r| ensures key(r[i]) >= key(r[j]) {
      assert r[j] == t[j - 1];
      if i > 0 {
        assert r[i] == t[i - 1];
      }
    }
  }

  /** Inserting never raises the largest key beyond a common bound. */
  lemma {:induction false} InsertBelow<T>(x: T, s: seq<T>, key: T -> int, b: int)
    requires key(x) <= b
    requires forall i :: 0 <= i < |s| ==> key(s[i]) <= b
    ensures forall i :: 0 <= i < |Insert(x, s, key)| ==> key(Insert(x, s, key)[i]) <= b
    decreases |s|
  {
    var r := Insert(x, s, key);
    if s == [] || key(s[0]) < key(x) {
      assert r == [x] + s;
      forall i | 0 < i < |r| ensures key(r[i]) <= b {
        assert r[i] == s[i - 1];
      }
    } else {
      var t := Insert(x, s[1..], key);
      InsertBelow(x, s[1..], key, b);
      assert r == [s[0]] + t;
      forall i | 0 < i < |r| ensures key(r[i]) <= b {
        assert r[i] == t[i - 1];
      }
    }
  }

  /** Insertion keeps a key-descending sequence key-descending. */
  lemma {:induction false} InsertSorted<T>(x: T, s: seq<T>, key: T -> int)
    requires SortedDesc(s, key)
    ensures SortedDesc(Insert(x, s, key), key)
    decreases |s|
  {
    if s == [] || key(s[0]) < key(x) {
      forall i | 0 <= i < |s| ensures key(s[i]) <= key(x) {
        assert key(s[i]) <= key(s[0]);
      }
      ConsSorted(x, s, key);
    } else {
      var t := Insert(x, s[1..], key);
      assert SortedDesc(s[1..], key) by {
        forall i, j | 0 <= i < j < |s[1..]| ensures key(s[1..][i]) >= key(s[1..][j]) {
          assert s[1..][i] == s[i + 1] && s[1..][j] == s[j + 1];
        }
      }
      InsertSorted(x, s[1..], key);
      forall i | 0 <= i < |s[1..]| ensures key(s[1..][i]) <= key(s[0]) {
        assert s[1..][i] == s[i + 1];
      }
      InsertBelow(x, s[1..], key, key(s[0]));
      ConsSorted(s[0], t, key);
    }
  }

  /** Insertion adds exactly one copy of `x`. */
  lemma {:induction false} InsertPermutes<T>(x: T, s: seq<T>, key: T -> int)
    ensures multiset(Insert(x, s, key)) == multiset(s) + multiset{x}
    decreases |s|
  {
    if s != [] && key(s[0]) >= key(x) {
      InsertPermutes(x, s[1..], key);
      assert s == [s[0]] + s[1..];
    }
  }

  lemma {:induction false} InsertStable<T>(x: T, s: seq<T>, key: T -> int, c: int)
    requires SortedDesc(s, key)
    ensures KeyClass(Insert(x, s, key), key, c)
            == KeyClass(s, key, c) + (if key(x) == c then [x] else [])
    decreases |s|
  {
    var r := Insert(x, s, key);
    if s == [] || key(s[0]) < key(x) {
      if key(x) == c {
        // every element of s has a smaller key than x
        forall i | 0 <= i < |s| ensures key(s[i]) != c {
          assert key(s[i]) <= key(s[0]);
        }
        NoneKept(s, c, key);
      }
      assert r[1..] == s;
    } else {
      InsertStable(x, s[1..], key, c);
      assert r[1..] == Insert(x, s[1..], key);
    }
  }

  lemma {:induction false} NoneKept<T>(s: seq<T>, c: int, key: T -> int)
    requires forall i :: 0 <= i < |s| ==> key(s[i]) != c
    ensures KeyClass(s, key, c) == []
    decreases |s|
  {
    if s != [] {
      NoneKept(s[1..], c, key);
    }
  }

  lemma {:induction false} SortDescSorted<T>(s: seq<T>, key: T -> int)
    ensures SortedDesc(SortDesc(s, key), key)
    decreases |s|
  {
    if s != [] {
      SortDescSorted(s[..|s| - 1], key);
      InsertSorted(s[|s| - 1], SortDesc(s[..|s| - 1], key), key);
    }
  }

  lemma {:induction false} SortDescPermutes<T>(s: seq<T>, key: T -> int)
    ensures multiset(SortDesc(s, key)) == multiset(s)
    decreases |s|
  {
    if s != [] {
      var init, last := s[..|s| - 1], s[|s| - 1];
      SortDescPermutes(init, key);
      InsertPermutes(last, SortDesc(init, key), key);
      assert s == init + [last];
    }
  }

  lemma {:induction false} SortDescStable<T>(s: seq<T>, key: T -> int, c: int)
    ensures KeyClass(SortDesc(s, key), key, c) == KeyClass(s, key, c)
    decreases |s|
  {
    if s != [] {
      var init, last := s[..|s| - 1], s[|s| - 1];
      SortDescStable(init, key, c);
      SortDescSorted(init, key);
      InsertStable(last, SortDesc(init, key), key, c);
      assert s == init + [last];
      KeyClassAppend(init, [last], key, c);
    }
  }

  /** The sort yields a key-descending permutation of its input that keeps
      the input order among elements with equal keys (stability). */
  lemma SortDescCorrect<T>(s: seq<T>, key: T -> int)
    ensures SortedDesc(SortDesc(s, key), key)
    ensures multiset(SortDesc(s, key)) == multiset(s)
    ensures forall c :: KeyClass(SortDesc(s, key), key, c) == KeyClass(s, key, c)
  {
    SortDescSorted(s, key);
    SortDescPermutes(s, key);
    forall c ensures KeyClass(SortDesc(s, key), key, c) == KeyClass(s, key, c) {
      SortDescStable(s, key, c);
    }
  }
}
