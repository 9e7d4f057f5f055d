/** The list membership flip shared by the submit form's category toggle
    (src/app/submit/page.tsx) and the newsletter form's interest toggle
    (src/app/register/page.tsx): `includes(x) ? filter(y => y !== x) : [...list, x]`. */
module Toggles {
  import opened Seqs

  function IsNot<T(==)>(x: T): T -> bool {
    (y: T) => y != x
  }

  /** Removes every occurrence of x when present, appends x otherwise. */
  function Toggle<T(==,!new)>(s: seq<T>, x: T): (r: seq<T>)
    // membership flips
    ensures x in r <==> x !in s
    // other values keep their membership
    ensures forall y :: y != x ==> (y in r <==> y in s)
  {
    if x in s then Filter(s, IsNot(x)) else s + [x]
  }

  /** An absent value is appended at the end. */
  lemma ToggleAbsent<T(!new)>(s: seq<T>, x: T)
    requires x !in s
    ensures Toggle(s, x) == s + [x]
  {
  }

  /** A present value loses every occurrence, and nothing else is removed. */
  lemma TogglePresent<T(!new)>(s: seq<T>, x: T)
    requires x in s
    ensures forall i :: 0 <= i < |Toggle(s, x)| ==> Toggle(s, x)[i] != x
    ensures |Toggle(s, x)| < |s|
    ensures Subsequence(Toggle(s, x), s)
  {
    var i :| 0 <= i < |s| && s[i] == x;
    FilterDropsOne(s, IsNot(x), i);
  }

  lemma {:induction false} FilterDropsOne<T>(s: seq<T>, p: T -> bool, i: int)
    requires 0 <= i < |s| && !p(s[i])
    ensures |Filter(s, p)| < |s|
    decreases |s|
  {
    if i > 0 {
      FilterDropsOne(s[1..], p, i - 1);
    }
  }

  /** The other values keep their relative order, whichever way the toggle goes. */
  lemma {:induction false} ToggleKeepsOthers<T(!new)>(s: seq<T>, x: T)
    ensures Filter(Toggle(s, x), IsNot(x)) == Filter(s, IsNot(x))
  {
    if x in s {
      FilterIdempotent(s, IsNot(x));
    } else {
      FilterSnoc(s, x, IsNot(x));
    }
  }

  /** Toggling an absent value twice restores the list. */
  lemma {:induction false} ToggleTwiceRestores<T(!new)>(s: seq<T>, x: T)
    requires x !in s
    ensures Toggle(Toggle(s, x), x) == s
  {
    assert x in s + [x];
    FilterSnoc(s, x, IsNot(x));
    FilterAll(s, IsNot(x));
  }
}
