/** Option and failure datatypes, and the order-preserving array operations
    (`filter`, `slice`, first-seen de-duplication) the site's code uses. */
module Seqs {

  datatype Option<+T> = None | Some(value: T)

  /** The outcome of a call that may throw: `Ok(v)` when it returns v, `Thrown` otherwise. */
  datatype Attempt<+T> = Ok(value: T) | Thrown

  /** r is obtained from s by deleting elements: it keeps s's order. */
  predicate Subsequence<T(==)>(r: seq<T>, s: seq<T>)
    decreases |s|
  {
    if r == [] then true
    else if s == [] then false
    else if r[0] == s[0] then Subsequence(r[1..], s[1..])
    else Subsequence(r, s[1..])
  }

  /** No element of s occurs twice. */
  predicate NoRepeats<T(==)>(s: seq<T>) {
    forall i, j :: 0 <= i < j < |s| ==> s[i] != s[j]
  }

  /** `s.filter(p)`: keeps, in order, exactly the elements that satisfy p. */
  function Filter<T>(s: seq<T>, p: T -> bool): (r: seq<T>)
    ensures |r| <= |s|
    ensures forall i :: 0 <= i < |r| ==> p(r[i]) && r[i] in s
    ensures forall i :: 0 <= i < |s| && p(s[i]) ==> s[i] in r
    ensures Subsequence(r, s)
  {
    if s == [] then []
    else if p(s[0]) then [s[0]] + Filter(s[1..], p)
    else
      var tail := Filter(s[1..], p);
      assert tail != [] ==> tail[0] != s[0];
      tail
  }

  /** `s.slice(0, n)`. */
  function Take<T>(s: seq<T>, n: nat): (r: seq<T>)
    ensures |r| == if |s| < n then |s| else n
    ensures r == s[..|r|]
  {
    if |s| <= n then s else s[..n]
  }

  /** s without repeated elements, each kept at its first position. */
  function Dedup<T(==,!new)>(s: seq<T>): (r: seq<T>)
    ensures forall x :: x in r <==> x in s
    ensures forall i, j :: 0 <= i < j < |r| ==> r[i] != r[j]
    ensures Subsequence(r, s)
    decreases |s|
  {
    if s == [] then []
    else
      var prefix := Dedup(s[..|s| - 1]);
      var last := s[|s| - 1];
      assert s == s[..|s| - 1] + [last];
      if last in prefix then
        SubsequenceExtend(prefix, s[..|s| - 1], last);
        prefix
      else
        SubsequenceAppend(prefix, s[..|s| - 1], last);
        prefix + [last]
  }

  /** `new Set(s).size`: the number of distinct elements of s. */
  function DistinctCount<T(==,!new)>(s: seq<T>): (n: nat)
    ensures n == |set x | x in s|
    ensures n <= |s|
  {
    var r := Dedup(s);
    assert (set x | x in r) == (set x | x in s);
    DistinctSize(r);
    SubsequenceLength(r, s);
    |r|
  }

  /** A list without repeats has as many elements as its set. */
  lemma {:induction false} DistinctSize<T>(r: seq<T>)
    requires forall i, j :: 0 <= i < j < |r| ==> r[i] != r[j]
    ensures |set x | x in r| == |r|
    decreases |r|
  {
    if r != [] {
      var init := r[..|r| - 1];
      DistinctSize(init);
      assert (set x | x in r) == (set x | x in init) + {r[|r| - 1]};
      assert r[|r| - 1] !in init;
    }
  }

  lemma {:induction false} SubsequenceLength<T>(r: seq<T>, s: seq<T>)
    requires Subsequence(r, s)
    ensures |r| <= |s|
    decreases |s|
  {
    if r != [] && s != [] {
      if r[0] == s[0] {
        SubsequenceLength(r[1..], s[1..]);
      } else {
        SubsequenceLength(r, s[1..]);
      }
    }
  }

  /** Appending an element: it joins the de-duplicated list unless already present. */
  lemma DedupSnoc<T(!new)>(s: seq<T>, x: T)
    ensures Dedup(s + [x]) == if x in s then Dedup(s) else Dedup(s) + [x]
  {
    assert (s + [x])[..|s|] == s;
  }

  lemma {:induction false} SubsequenceExtend<T>(r: seq<T>, s: seq<T>, x: T)
    requires Subsequence(r, s)
    ensures Subsequence(r, s + [x])
    decreases |s|
  {
    if r != [] && s != [] {
      assert (s + [x])[1..] == s[1..] + [x];
      if r[0] == s[0] {
        SubsequenceExtend(r[1..], s[1..], x);
      } else {
        SubsequenceExtend(r, s[1..], x);
      }
    }
  }

  lemma {:induction false} SubsequenceAppend<T>(r: seq<T>, s: seq<T>, x: T)
    requires Subsequence(r, s)
    ensures Subsequence(r + [x], s + [x])
    decreases |s|
  {
    if r == [] {
      SingletonAtEnd(s, x);
      assert r + [x] == [x];
    } else {
      assert (s + [x])[1..] == s[1..] + [x];
      assert (r + [x])[1..] == r[1..] + [x];
      if r[0] == s[0] {
        SubsequenceAppend(r[1..], s[1..], x);
      } else {
        SubsequenceAppend(r, s[1..], x);
      }
    }
  }

  lemma {:induction false} SingletonAtEnd<T>(s: seq<T>, x: T)
    ensures Subsequence([x], s + [x])
    decreases |s|
  {
    if s == [] {
      assert [x][1..] == [];
    } else {
      assert (s + [x])[1..] == s[1..] + [x];
      if s[0] != x {
        SingletonAtEnd(s[1..], x);
      }
    }
  }

  /** Dropping r's first element keeps a subsequence a subsequence. */
  lemma {:induction false} SubsequenceDropFirst<T>(r: seq<T>, s: seq<T>)
    requires r != [] && Subsequence(r, s)
    ensures Subsequence(r[1..], s)
    decreases |s|, 1
  {
    if r[0] == s[0] {
      SubsequencePrepend(r[1..], s);
    } else {
      SubsequenceDropFirst(r, s[1..]);
      SubsequencePrepend(r[1..], s);
    }
  }

  /** A subsequence of s's tail is a subsequence of s. */
  lemma {:induction false} SubsequencePrepend<T>(r: seq<T>, s: seq<T>)
    requires s != [] && Subsequence(r, s[1..])
    ensures Subsequence(r, s)
    decreases |s|, 0
  {
    if r != [] && r[0] == s[0] {
      SubsequenceDropFirst(r, s[1..]);
    }
  }

  lemma {:induction false} SubsequenceTransitive<T>(a: seq<T>, b: seq<T>, c: seq<T>)
    requires Subsequence(a, b) && Subsequence(b, c)
    ensures Subsequence(a, c)
    decreases |c|
  {
    if a != [] {
      if b[0] == c[0] {
        if a[0] == b[0] {
          SubsequenceTransitive(a[1..], b[1..], c[1..]);
        } else {
          SubsequenceTransitive(a, b[1..], c[1..]);
        }
      } else {
        SubsequenceTransitive(a, b, c[1..]);
        SubsequencePrepend(a, c);
      }
    }
  }

  /** `s.map(f)` where f may throw: None as soon as one element throws. */
  function MapAll<A, B>(s: seq<A>, f: A -> Option<B>): (r: Option<seq<B>>)
    ensures r.Some? <==> forall i :: 0 <= i < |s| ==> f(s[i]).Some?
    ensures r.Some? ==> |r.value| == |s|
    ensures r.Some? ==> forall i :: 0 <= i < |s| ==> r.value[i] == f(s[i]).value
  {
    if s == [] then Some([])
    else
      var head := f(s[0]);
      var tail := MapAll(s[1..], f);
      if head.None? || tail.None? then
        assert tail.None? ==> exists i :: 1 <= i < |s| && f(s[i]).None? by {
          if tail.None? {
            var j :| 0 <= j < |s[1..]| && f(s[1..][j]).None?;
            assert f(s[j + 1]).None?;
          }
        }
        None
      else
        assert forall i :: 1 <= i < |s| ==> s[i] == s[1..][i - 1];
        Some([head.value] + tail.value)
  }

  /** Filtering distributes over appending one element. */
  lemma {:induction false} FilterSnoc<T>(s: seq<T>, x: T, p: T -> bool)
    ensures Filter(s + [x], p) == Filter(s, p) + (if p(x) then [x] else [])
    decreases |s|
  {
    if s == [] {
      assert [x][1..] == [];
    } else {
      assert (s + [x])[1..] == s[1..] + [x];
      FilterSnoc(s[1..], x, p);
    }
  }

  lemma ConcatAssoc<T>(a: seq<T>, b: seq<T>, c: seq<T>)
    ensures a + (b + c) == (a + b) + c
  {
  }

  /** A member that satisfies the filter survives it. */
  lemma FilterKeeps<T>(s: seq<T>, p: T -> bool, x: T)
    requires x in s && p(x)
    ensures x in Filter(s, p)
  {
    var k :| 0 <= k < |s| && s[k] == x;
  }

  /** Filter, read from the left end. */
  lemma FilterCons<T>(s: seq<T>, p: T -> bool)
    requires s != []
    ensures Filter(s, p) == (if p(s[0]) then [s[0]] else []) + Filter(s[1..], p)
  {
  }

  lemma FilterPrepend<T>(x: T, s: seq<T>, p: T -> bool)
    ensures Filter([x] + s, p) == (if p(x) then [x] else []) + Filter(s, p)
  {
    assert ([x] + s)[1..] == s;
  }

  /** Filter, read from the right end. */
  lemma FilterLast<T>(s: seq<T>, p: T -> bool)
    requires s != []
    ensures Filter(s, p) == Filter(s[..|s| - 1], p) + (if p(s[|s| - 1]) then [s[|s| - 1]] else [])
  {
    var init, last := s[..|s| - 1], s[|s| - 1];
    FilterSnoc(init, last, p);
    assert init + [last] == s;
  }

  /** Nothing survives a filter that no element satisfies. */
  lemma FilterNone<T>(s: seq<T>, p: T -> bool)
    requires forall i :: 0 <= i < |s| ==> !p(s[i])
    ensures Filter(s, p) == []
  {
  }

  /** A filter that every element satisfies keeps the whole list. */
  lemma {:induction false} FilterAll<T>(s: seq<T>, p: T -> bool)
    requires forall i :: 0 <= i < |s| ==> p(s[i])
    ensures Filter(s, p) == s
    decreases |s|
  {
    if s != [] {
      FilterAll(s[1..], p);
    }
  }

  /** Filtering distributes over concatenation. */
  lemma {:induction false} FilterAppend<T>(a: seq<T>, b: seq<T>, p: T -> bool)
    ensures Filter(a + b, p) == Filter(a, p) + Filter(b, p)
    decreases |a|
  {
    if a == [] {
      assert a + b == b;
    } else {
      assert (a + b)[0] == a[0] && (a + b)[1..] == a[1..] + b;
      FilterAppend(a[1..], b, p);
    }
  }

  /** Filtering twice by the same test is filtering once. */
  lemma {:induction false} FilterIdempotent<T>(s: seq<T>, p: T -> bool)
    ensures Filter(Filter(s, p), p) == Filter(s, p)
  {
    FilterAll(Filter(s, p), p);
  }

  /** When exactly one value passes the test, a list without repeats keeps that value
      alone when present and nothing otherwise. */
  lemma {:induction false} FilterSingle<T>(s: seq<T>, p: T -> bool, y: T)
    requires forall i, j :: 0 <= i < j < |s| ==> s[i] != s[j]
    requires forall x :: p(x) <==> x == y
    ensures Filter(s, p) == if y in s then [y] else []
    decreases |s|
  {
    if s != [] {
      FilterSingle(s[1..], p, y);
      if s[0] == y {
        assert y !in s[1..];
      }
    }
  }

  /** A prefix keeps the order of the list it is cut from. */
  lemma {:induction false} PrefixSubsequence<T>(s: seq<T>, n: nat)
    requires n <= |s|
    ensures Subsequence(s[..n], s)
    decreases |s|
  {
    if n > 0 {
      PrefixSubsequence(s[1..], n - 1);
      assert s[..n][1..] == s[1..][..n - 1];
    }
  }

  /** The number of elements of s that satisfy p. */
  function CountIf<T>(s: seq<T>, p: T -> bool): (n: nat)
    ensures n <= |s|
    ensures n == 0 <==> forall i :: 0 <= i < |s| ==> !p(s[i])
  {
    if s == [] then 0 else CountIf(s[..|s| - 1], p) + (if p(s[|s| - 1]) then 1 else 0)
  }
}
