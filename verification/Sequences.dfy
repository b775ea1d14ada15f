/** Sequence operations shared by the message store, the mesh and the client view. */
module Sequences {

  /** The elements of s that satisfy p, in order. */
  function Filter<T>(s: seq<T>, p: T -> bool): (r: seq<T>)
    ensures |r| <= |s|
  {
    if |s| == 0 then [] else (if p(s[0]) then [s[0]] else []) + Filter(s[1..], p)
  }

  function Map<T, U>(s: seq<T>, f: T -> U): (r: seq<U>)
    ensures |r| == |s|
    ensures forall i :: 0 <= i < |s| ==> r[i] == f(s[i])
  {
    seq(|s|, i requires 0 <= i < |s| => f(s[i]))
  }

  /** The first position of x, or the length of the sequence. */
  function Position<T(==)>(s: seq<T>, x: T): (i: nat)
    ensures i <= |s|
    ensures i < |s| ==> s[i] == x
    ensures forall j | 0 <= j < i :: s[j] != x
  {
    if |s| == 0 || s[0] == x then 0 else 1 + Position(s[1..], x)
  }

  /** a is the end of b. */
  predicate IsSuffix<T(==)>(a: seq<T>, b: seq<T>) {
    |a| <= |b| && a == b[|b| - |a|..]
  }

  /** The newest n elements. */
  function LastN<T>(s: seq<T>, n: nat): seq<T> {
    if |s| <= n then s else s[|s| - n..]
  }

  /** Append x and, when that exceeds the capacity, drop the oldest element. */
  function Push<T>(s: seq<T>, x: T, cap: nat): seq<T> {
    if |s| + 1 > cap then (s + [x])[1..] else s + [x]
  }

  predicate Distinct<T(==)>(s: seq<T>) {
    forall i, j :: 0 <= i < j < |s| ==> s[i] != s[j]
  }

  /** a can be obtained from b by deleting elements. */
  predicate Subsequence<T(==)>(a: seq<T>, b: seq<T>) {
    |a| == 0 ||
    (|b| > 0 &&
     ((a[|a| - 1] == b[|b| - 1] && Subsequence(a[..|a| - 1], b[..|b| - 1])) ||
      Subsequence(a, b[..|b| - 1])))
  }

  lemma {:induction false} FilterMembers<T>(s: seq<T>, p: T -> bool)
    ensures forall x | x in Filter(s, p) :: x in s && p(x)
    ensures forall x | x in s :: p(x) ==> x in Filter(s, p)
  {
    if |s| > 0 { FilterMembers(s[1..], p); }
  }

  lemma FilterFirst<T>(x: T, s: seq<T>, p: T -> bool)
    ensures Filter([x] + s, p) == (if p(x) then [x] else []) + Filter(s, p)
  {
    assert ([x] + s)[1..] == s;
  }

  lemma FirstAndRest<T>(a: seq<T>, b: seq<T>)
    requires |a| > 0
    ensures a + b == [a[0]] + (a[1..] + b)
  {
  }

  lemma Associative<T>(a: seq<T>, b: seq<T>, c: seq<T>)
    ensures a + (b + c) == (a + b) + c
  {
  }

  lemma {:induction false} FilterConcat<T>(a: seq<T>, b: seq<T>, p: T -> bool)
    ensures Filter(a + b, p) == Filter(a, p) + Filter(b, p)
  {
    if |a| == 0 {
      assert a + b == b;
      assert Filter(a, p) + Filter(b, p) == Filter(b, p);
    } else {
      FilterConcat(a[1..], b, p);
      FirstAndRest(a, b);
      FilterFirst(a[0], a[1..] + b, p);
      Associative(if p(a[0]) then [a[0]] else [], Filter(a[1..], p), Filter(b, p));
    }
  }

  lemma FilterOne<T>(x: T, p: T -> bool)
    ensures Filter([x], p) == if p(x) then [x] else []
  {
  }

  lemma FilterLast<T>(s: seq<T>, p: T -> bool)
    requires |s| > 0
    ensures Filter(s, p) == Filter(s[..|s| - 1], p) + if p(s[|s| - 1]) then [s[|s| - 1]] else []
  {
    Rejoined(s);
    FilterAppend(s[..|s| - 1], s[|s| - 1], p);
  }

  lemma Rejoined<T>(s: seq<T>)
    requires |s| > 0
    ensures s[..|s| - 1] + [s[|s| - 1]] == s
  {
  }

  lemma FilterAppend<T>(s: seq<T>, x: T, p: T -> bool)
    ensures Filter(s + [x], p) == Filter(s, p) + if p(x) then [x] else []
  {
    FilterConcat(s, [x], p);
    FilterOne(x, p);
  }

  lemma FilterThree<T>(a: seq<T>, x: T, b: seq<T>, p: T -> bool)
    ensures Filter(a + [x] + b, p) == Filter(a, p) + (if p(x) then [x] else []) + Filter(b, p)
  {
    FilterConcat(a + [x], b, p);
    FilterAppend(a, x, p);
  }

  lemma SplitAt<T>(s: seq<T>, i: nat)
    requires i < |s|
    ensures s[..i] + [s[i]] + s[i + 1..] == s
  {
  }

  lemma FilterAround<T>(s: seq<T>, i: nat, p: T -> bool)
    requires i < |s|
    ensures Filter(s, p) == Filter(s[..i], p) + (if p(s[i]) then [s[i]] else []) + Filter(s[i + 1..], p)
  {
    SplitAt(s, i);
    FilterThree(s[..i], s[i], s[i + 1..], p);
  }

  lemma {:induction false} FilterSame<T>(s: seq<T>, p: T -> bool, q: T -> bool)
    requires forall x | x in s :: p(x) == q(x)
    ensures Filter(s, p) == Filter(s, q)
  {
    if |s| > 0 { FilterSame(s[1..], p, q); }
  }

  lemma FilterSuffix<T>(a: seq<T>, b: seq<T>, p: T -> bool)
    requires IsSuffix(a, b)
    ensures IsSuffix(Filter(a, p), Filter(b, p))
  {
    var front := b[..|b| - |a|];
    assert b == front + a;
    FilterConcat(front, a, p);
  }

  lemma {:induction false} FilterCommutes<T>(s: seq<T>, p: T -> bool, q: T -> bool)
    ensures Filter(Filter(s, p), q) == Filter(Filter(s, q), p)
  {
    if |s| > 0 {
      FilterCommutes(s[1..], p, q);
      var x, rest := s[..1], s[1..];
      FilterConcat(Filter(x, p), Filter(rest, p), q);
      FilterConcat(Filter(x, q), Filter(rest, q), p);
      assert s == x + rest;
      FilterConcat(x, rest, p);
      FilterConcat(x, rest, q);
    }
  }

  lemma {:induction false} FilterAll<T>(s: seq<T>, p: T -> bool)
    requires forall x :: x in s ==> p(x)
    ensures Filter(s, p) == s
  {
    if |s| > 0 {
      FilterAll(s[1..], p);
      assert s == [s[0]] + s[1..];
    }
  }

  lemma {:induction false} FilterMap<T>(s: seq<T>, p: T -> bool, f: T -> T)
    requires forall x :: x in s ==> p(f(x)) == p(x)
    ensures Filter(Map(s, f), p) == Map(Filter(s, p), f)
  {
    if |s| > 0 {
      FilterMap(s[1..], p, f);
      assert Map(s, f)[1..] == Map(s[1..], f);
      assert Map(s, f)[0] == f(s[0]);
    }
  }

  lemma MapSuffix<T, U>(a: seq<T>, b: seq<T>, f: T -> U)
    requires IsSuffix(a, b)
    ensures IsSuffix(Map(a, f), Map(b, f))
  {
  }

  lemma SuffixTransitive<T>(a: seq<T>, b: seq<T>, c: seq<T>)
    requires IsSuffix(a, b) && IsSuffix(b, c)
    ensures IsSuffix(a, c)
  {
  }

  lemma LastNSuffix<T>(s: seq<T>, n: nat)
    ensures IsSuffix(LastN(s, n), s) && |LastN(s, n)| == (if |s| < n then |s| else n)
  {
  }

  lemma SuffixesOfOne<T>(a: seq<T>, b: seq<T>, c: seq<T>)
    requires IsSuffix(a, c) && IsSuffix(b, c) && |a| <= |b|
    ensures IsSuffix(a, b)
  {
  }

  lemma PushSuffix<T>(s: seq<T>, x: T, cap: nat)
    ensures IsSuffix(Push(s, x, cap), s + [x])
    ensures |s| <= cap ==> |Push(s, x, cap)| <= cap
  {
  }

  lemma SuffixMembers<T>(a: seq<T>, b: seq<T>)
    requires IsSuffix(a, b)
    ensures forall y | y in a :: y in b
  {
  }

  /** Pushing onto a list and onto the end it agrees with, evicting from either, keeps the agreement. */
  lemma PushOwn<T>(flat: seq<T>, list: seq<T>, x: T, cap: nat, p: T -> bool)
    requires |flat| <= cap && |list| <= cap && p(x)
    requires IsSuffix(Filter(flat, p), list)
    ensures IsSuffix(Filter(Push(flat, x, cap), p), Push(list, x, cap))
  {
    var flat' := Push(flat, x, cap);
    PushSuffix(flat, x, cap);
    PushSuffix(list, x, cap);
    FilterSuffix(flat', flat + [x], p);
    FilterConcat(flat, [x], p);
    assert Filter([x], p) == [x];
    SuffixAppend(Filter(flat, p), list, x);
    SuffixTransitive(Filter(flat', p), Filter(flat, p) + [x], list + [x]);
    SuffixesOfOne(Filter(flat', p), Push(list, x, cap), list + [x]);
  }

  /** Pushing an element that the filter rejects can only shorten the filtered list. */
  lemma PushOther<T>(flat: seq<T>, list: seq<T>, x: T, cap: nat, p: T -> bool)
    requires |flat| <= cap && !p(x)
    requires IsSuffix(Filter(flat, p), list)
    ensures IsSuffix(Filter(Push(flat, x, cap), p), list)
  {
    var flat' := Push(flat, x, cap);
    PushSuffix(flat, x, cap);
    FilterSuffix(flat', flat + [x], p);
    FilterConcat(flat, [x], p);
    assert Filter(flat + [x], p) == Filter(flat, p);
    SuffixTransitive(Filter(flat', p), Filter(flat, p), list);
  }

  lemma SuffixAppend<T>(a: seq<T>, b: seq<T>, x: T)
    requires IsSuffix(a, b)
    ensures IsSuffix(a + [x], b + [x])
  {
  }

  /** Pushing onto the newest n is taking the newest n after an append. */
  lemma PushLastN<T>(s: seq<T>, x: T, n: nat)
    ensures Push(LastN(s, n), x, n) == LastN(s + [x], n)
  {
  }

  lemma {:induction false} SubsequenceRefl<T>(s: seq<T>)
    ensures Subsequence(s, s)
  {
    if |s| > 0 { SubsequenceRefl(s[..|s| - 1]); }
  }

  lemma {:induction false} SubsequenceTrans<T>(a: seq<T>, b: seq<T>, c: seq<T>)
    requires Subsequence(a, b) && Subsequence(b, c)
    ensures Subsequence(a, c)
    decreases |c|
  {
    if |a| == 0 {
    } else {
      var b', c' := b[..|b| - 1], c[..|c| - 1];
      if b[|b| - 1] == c[|c| - 1] && Subsequence(b', c') {
        if a[|a| - 1] == b[|b| - 1] && Subsequence(a[..|a| - 1], b') {
          SubsequenceTrans(a[..|a| - 1], b', c');
        } else {
          SubsequenceTrans(a, b', c');
        }
      } else {
        SubsequenceTrans(a, b, c');
      }
    }
  }

  /** Dropping one element leaves a subsequence. */
  lemma {:induction false} SubsequenceDrop<T>(s: seq<T>, i: nat)
    requires i < |s|
    ensures Subsequence(s[..i] + s[i + 1..], s)
  {
    var r := s[..i] + s[i + 1..];
    if i == |s| - 1 {
      assert r == s[..|s| - 1];
      SubsequenceRefl(r);
    } else {
      var s' := s[..|s| - 1];
      SubsequenceDrop(s', i);
      assert r[..|r| - 1] == s'[..i] + s'[i + 1..];
    }
  }

  lemma {:induction false} SubsequenceSuffix<T>(a: seq<T>, b: seq<T>)
    requires IsSuffix(a, b)
    ensures Subsequence(a, b)
  {
    if |a| > 0 {
      SubsequenceSuffix(a[..|a| - 1], b[..|b| - 1]);
    }
  }

  lemma {:induction false} SubsequencePrefix<T>(a: seq<T>, b: seq<T>)
    requires a <= b
    ensures Subsequence(a, b)
    decreases |b|
  {
    if a == b {
      SubsequenceRefl(a);
    } else {
      SubsequencePrefix(a, b[..|b| - 1]);
    }
  }

  lemma {:induction false} SubsequenceLength<T>(a: seq<T>, b: seq<T>)
    requires Subsequence(a, b)
    ensures |a| <= |b|
    ensures |a| == |b| ==> a == b
    decreases |b|
  {
    if |a| > 0 {
      var a', b' := a[..|a| - 1], b[..|b| - 1];
      if a[|a| - 1] == b[|b| - 1] && Subsequence(a', b') {
        SubsequenceLength(a', b');
        assert a == a' + [a[|a| - 1]];
        assert b == b' + [b[|b| - 1]];
      } else {
        SubsequenceLength(a, b');
      }
    }
  }

  lemma {:induction false} SubsequenceMembers<T>(a: seq<T>, b: seq<T>, x: T)
    requires Subsequence(a, b) && x in a
    ensures x in b
    decreases |b|
  {
    var a', b' := a[..|a| - 1], b[..|b| - 1];
    assert a == a' + [a[|a| - 1]];
    if a[|a| - 1] == b[|b| - 1] && Subsequence(a', b') {
      if x in a' { SubsequenceMembers(a', b', x); }
    } else {
      SubsequenceMembers(a, b', x);
    }
  }
}
