/**
  Tables as sequences of rows, and the row-selection primitive that a boolean
  mask `df[mask]` performs on them: keep the rows that satisfy a predicate, in
  their original order.
 */
module Tables {

  /** `a` can be obtained from `b` by deleting elements, keeping the order of the rest. */
  predicate IsSubsequence<T(==)>(a: seq<T>, b: seq<T>)
    decreases |b|
  {
    if a == [] then true
    else if b == [] then false
    else (a[0] == b[0] && IsSubsequence(a[1..], b[1..])) || IsSubsequence(a, b[1..])
  }

  lemma {:induction false} SubsequenceReflexive<T>(a: seq<T>)
    ensures IsSubsequence(a, a)
    decreases |a|
  {
    if a != [] {
      SubsequenceReflexive(a[1..]);
    }
  }

  lemma {:induction false} SubsequenceMembers<T>(a: seq<T>, b: seq<T>)
    requires IsSubsequence(a, b)
    ensures |a| <= |b|
    ensures forall x :: x in a ==> x in b
    decreases |b|
  {
    if a != [] {
      if a[0] == b[0] && IsSubsequence(a[1..], b[1..]) {
        SubsequenceMembers(a[1..], b[1..]);
        assert forall x :: x in a ==> x == a[0] || x in a[1..];
      } else {
        SubsequenceMembers(a, b[1..]);
      }
    }
  }

  lemma {:induction false} SubsequenceTransitive<T>(a: seq<T>, b: seq<T>, c: seq<T>)
    requires IsSubsequence(a, b) && IsSubsequence(b, c)
    ensures IsSubsequence(a, c)
    decreases |c|
  {
    if a != [] {
      assert b != [] && c != [];
      if b[0] == c[0] && IsSubsequence(b[1..], c[1..]) {
        if a[0] == b[0] && IsSubsequence(a[1..], b[1..]) {
          SubsequenceTransitive(a[1..], b[1..], c[1..]);
        } else {
          SubsequenceTransitive(a, b[1..], c[1..]);
        }
      } else {
        SubsequenceTransitive(a, b, c[1..]);
      }
    }
  }

  /** The rows of `t` satisfying `p`, in order (`t[t.apply(p, axis=1)]`). */
  function Where<T(==)>(t: seq<T>, p: T -> bool): (r: seq<T>)
    ensures IsSubsequence(r, t)
    ensures forall x :: x in r ==> p(x)
    ensures forall x :: x in t && p(x) ==> x in r
    decreases |t|
  {
    if t == [] then []
    else
      var rest := Where(t[1..], p);
      if p(t[0]) then [t[0]] + rest else rest
  }

  /** Each row satisfying `p` is kept as often as it occurs; every other row is dropped. */
  lemma {:induction false} WhereCounts<T>(t: seq<T>, p: T -> bool)
    ensures forall x :: x in t ==> multiset(Where(t, p))[x] == if p(x) then multiset(t)[x] else 0
    decreases |t|
  {
    if t != [] {
      WhereCounts(t[1..], p);
      assert t == [t[0]] + t[1..];
      var rest := Where(t[1..], p);
      SubsequenceMembers(rest, t[1..]);
      forall x | x in t
        ensures multiset(Where(t, p))[x] == if p(x) then multiset(t)[x] else 0
      {
        if x !in t[1..] {
          assert multiset(t[1..])[x] == 0;
          assert multiset(rest)[x] == 0;
        }
      }
    }
  }

  lemma {:induction false} WhereKeepsAll<T>(t: seq<T>, p: T -> bool)
    requires forall x :: x in t ==> p(x)
    ensures Where(t, p) == t
    decreases |t|
  {
    if t != [] {
      WhereKeepsAll(t[1..], p);
    }
  }

  lemma {:induction false} WhereKeepsNone<T>(t: seq<T>, p: T -> bool)
    requires forall x :: x in t ==> !p(x)
    ensures Where(t, p) == []
    decreases |t|
  {
    if t != [] {
      assert forall x :: x in t[1..] ==> x in t;
      WhereKeepsNone(t[1..], p);
    }
  }

  /** Predicates that agree on the rows of `t` select the same rows. */
  lemma {:induction false} WhereCongruent<T>(t: seq<T>, p: T -> bool, q: T -> bool)
    requires forall x :: x in t ==> p(x) == q(x)
    ensures Where(t, p) == Where(t, q)
    decreases |t|
  {
    if t != [] {
      assert forall x :: x in t[1..] ==> x in t;
      WhereCongruent(t[1..], p, q);
    }
  }

  /** The conjunction of two row predicates. */
  function And<T>(p: T -> bool, q: T -> bool): T -> bool
  {
    x => p(x) && q(x)
  }

  /** Narrowing by `p` and then by `q` is narrowing once by their conjunction. */
  lemma {:induction false} WhereWhere<T>(t: seq<T>, p: T -> bool, q: T -> bool)
    ensures Where(Where(t, p), q) == Where(t, And(p, q))
    decreases |t|
  {
    if t != [] {
      WhereWhere(t[1..], p, q);
      var w := Where(t, p);
      if p(t[0]) {
        assert w[0] == t[0] && w[1..] == Where(t[1..], p);
      }
    }
  }

  /** The values `f` takes on the elements of `t`. */
  function ImageOfSeq<T(==), U>(t: seq<T>, f: T -> U): set<U>
  {
    set x | x in t :: f(x)
  }

  /** Mapping a sequence into a set never yields more distinct values than it has elements. */
  lemma {:induction false} ImageOfSeqCard<T, U>(t: seq<T>, f: T -> U)
    ensures |ImageOfSeq(t, f)| <= |t|
    decreases |t|
  {
    if t != [] {
      ImageOfSeqCard(t[1..], f);
      var whole := ImageOfSeq(t, f);
      var tail := ImageOfSeq(t[1..], f);
      assert whole <= tail + {f(t[0])} by {
        forall y | y in whole ensures y in tail + {f(t[0])} {
          var x :| x in t && f(x) == y;
          if x != t[0] {
            assert x in t[1..];
          }
        }
      }
      SetCardMonotone(whole, tail + {f(t[0])});
    }
  }

  lemma ImageOfSeqCons<T, U>(x: T, t: seq<T>, f: T -> U)
    ensures ImageOfSeq([x] + t, f) == {f(x)} + ImageOfSeq(t, f)
  {
    assert forall y :: y in [x] + t <==> y == x || y in t;
  }

  /** When `f` tells the elements of `t` apart, it takes exactly `|t|` values on them. */
  lemma {:induction false} InjectiveImageOfSeqCard<T, U>(t: seq<T>, f: T -> U)
    requires forall i, j :: 0 <= i < j < |t| ==> f(t[i]) != f(t[j])
    ensures |ImageOfSeq(t, f)| == |t|
    decreases |t|
  {
    if t != [] {
      var tail := t[1..];
      forall i, j | 0 <= i < j < |tail| ensures f(tail[i]) != f(tail[j]) {
        assert tail[i] == t[i + 1] && tail[j] == t[j + 1];
      }
      InjectiveImageOfSeqCard(tail, f);
      assert t == [t[0]] + tail;
      ImageOfSeqCons(t[0], tail, f);
      forall y | y in tail ensures f(y) != f(t[0]) {
        var k :| 0 <= k < |tail| && tail[k] == y;
        assert t[k + 1] == y;
      }
      assert f(t[0]) !in ImageOfSeq(tail, f);
    }
  }

  /** Appending a row selects it after the rows already selected, when it passes. */
  lemma {:induction false} WhereAppend<T>(t: seq<T>, x: T, p: T -> bool)
    ensures Where(t + [x], p) == Where(t, p) + (if p(x) then [x] else [])
    decreases |t|
  {
    if t == [] {
      assert [] + [x] == [x];
    } else {
      assert (t + [x])[1..] == t[1..] + [x];
      WhereAppend(t[1..], x, p);
    }
  }

  /** A set is no larger than a superset of it. */
  lemma {:induction false} SetCardMonotone<T>(a: set<T>, b: set<T>)
    requires a <= b
    ensures |a| <= |b|
  {
    assert b == a + (b - a);
  }

  /** The values `f` takes on `s`. */
  function Image<T, U>(s: set<T>, f: T -> U): set<U>
  {
    set x | x in s :: f(x)
  }

  /** Mapping a set through a function never enlarges it. */
  lemma {:induction false} ImageOfSetCard<T, U>(s: set<T>, f: T -> U)
    ensures |Image(s, f)| <= |s|
    decreases |s|
  {
    if s != {} {
      var e :| e in s;
      var rest := s - {e};
      ImageOfSetCard(rest, f);
      var whole := Image(s, f);
      var tail := Image(rest, f);
      assert whole <= tail + {f(e)} by {
        forall y | y in whole ensures y in tail + {f(e)} {
          var x :| x in s && f(x) == y;
          if x != e {
            assert x in rest;
          }
        }
      }
      SetCardMonotone(whole, tail + {f(e)});
    }
  }

  /** Element `i` of `t` is the first with its key under `key`. */
  predicate IsFirstBy<T, K(==)>(key: T -> K, t: seq<T>, i: int)
  {
    0 <= i < |t| && forall j :: 0 <= j < i ==> key(t[j]) != key(t[i])
  }

  /**
    The keep-first mask by row index (pandas' `~duplicated(keep="first")`):
    the elements among the first `n` of `t` that are the first with their key,
    in order, leaving out those whose key is in `seen`.
   */
  ghost function FirstOccurrencesBy<T, K>(key: T -> K, t: seq<T>, seen: set<K>, n: nat): seq<T>
    requires n <= |t|
    decreases n
  {
    if n == 0 then []
    else FirstOccurrencesBy(key, t, seen, n - 1)
         + (if IsFirstBy(key, t, n - 1) && key(t[n - 1]) !in seen then [t[n - 1]] else [])
  }

  /** Element `n` is first with its key exactly when it is so in the tail and its key is not the head's. */
  lemma IsFirstByShift<T, K>(key: T -> K, t: seq<T>, n: nat)
    requires 0 < n < |t|
    ensures IsFirstBy(key, t, n) <==> key(t[n]) != key(t[0]) && IsFirstBy(key, t[1..], n - 1)
  {
    assert t[1..][n - 1] == t[n];
    assert forall j :: 0 <= j < n - 1 ==> t[1..][j] == t[j + 1];
    if key(t[n]) != key(t[0]) && IsFirstBy(key, t[1..], n - 1) {
      forall j | 0 <= j < n ensures key(t[j]) != key(t[n]) {
        if j > 0 {
          assert t[j] == t[1..][j - 1];
        }
      }
    }
  }

  /** The mask of a sequence is the head's verdict followed by the tail's mask, the head's key now seen. */
  lemma {:induction false} FirstOccurrencesByCons<T, K>(key: T -> K, t: seq<T>, seen: set<K>, n: nat)
    requires n < |t|
    ensures FirstOccurrencesBy(key, t, seen, n + 1)
            == (if key(t[0]) in seen then [] else [t[0]])
               + FirstOccurrencesBy(key, t[1..], seen + {key(t[0])}, n)
    decreases n
  {
    var head := if key(t[0]) in seen then [] else [t[0]];
    var seen' := seen + {key(t[0])};
    if n == 0 {
      assert IsFirstBy(key, t, 0);
    } else {
      FirstOccurrencesByCons(key, t, seen, n - 1);
      IsFirstByShift(key, t, n);
      var tail := t[1..];
      var last := if IsFirstBy(key, t, n) && key(t[n]) !in seen then [t[n]] else [];
      assert tail[n - 1] == t[n];
      var prefix := FirstOccurrencesBy(key, tail, seen', n - 1);
      assert FirstOccurrencesBy(key, t, seen, n + 1) == FirstOccurrencesBy(key, t, seen, n) + last;
      assert FirstOccurrencesBy(key, tail, seen', n) == prefix + last;
      assert (head + prefix) + last == head + (prefix + last);
    }
  }
}
