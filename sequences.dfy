/** The few string and list operations of the JDK that the core relies on. */
module Sequences {

  /** String.lastIndexOf(char): the index of the last occurrence of `c`, or -1. */
  function LastIndexOf<T(==)>(s: seq<T>, c: T): (r: int)
    ensures -1 <= r < |s|
    ensures r == -1 <==> c !in s
    ensures r != -1 ==> s[r] == c && c !in s[r + 1..]
  {
    if |s| == 0 then -1
    else if s[|s| - 1] == c then |s| - 1
    else LastIndexOf(s[..|s| - 1], c)
  }

  /** The last occurrence of `c` is at `k` when `s[k]` is `c` and no `c` follows it. */
  lemma {:induction false} LastIndexOfAt<T>(s: seq<T>, c: T, k: nat)
    requires k < |s| && s[k] == c && c !in s[k + 1..]
    ensures LastIndexOf(s, c) == k
    decreases |s|
  {
    if k < |s| - 1 {
      var t := s[..|s| - 1];
      assert s[k + 1..][|s| - k - 2] == s[|s| - 1];
      assert t[k + 1..] == s[k + 1..][..|s| - k - 2];
      LastIndexOfAt(t, c, k);
    }
  }

  /** String.replace(char, char): every occurrence of `a` becomes `b`. */
  function Replace<T(==)>(s: seq<T>, a: T, b: T): (r: seq<T>)
    ensures |r| == |s|
    ensures forall i :: 0 <= i < |s| ==> r[i] == (if s[i] == a then b else s[i])
  {
    if |s| == 0 then [] else [if s[0] == a then b else s[0]] + Replace(s[1..], a, b)
  }

  /** The number of occurrences of `c` in `s`. */
  function Count<T(==)>(s: seq<T>, c: T): nat
  {
    if |s| == 0 then 0 else (if s[|s| - 1] == c then 1 else 0) + Count(s[..|s| - 1], c)
  }

  /** Cutting a sequence at the last occurrence of `c` leaves one occurrence fewer before the cut. */
  lemma {:induction false} CountBeforeLast<T>(s: seq<T>, c: T)
    requires c in s
    ensures Count(s[..LastIndexOf(s, c)], c) + 1 == Count(s, c)
  {
    var r := LastIndexOf(s, c);
    if s[|s| - 1] != c {
      var t := s[..|s| - 1];
      assert c in t by {
        var i :| 0 <= i < |s| && s[i] == c;
        assert t[i] == c;
      }
      CountBeforeLast(t, c);
      assert t[..LastIndexOf(t, c)] == s[..r];
    }
  }

  /** The reverse of a sequence. */
  function Reverse<T>(s: seq<T>): seq<T>
  {
    if |s| == 0 then [] else Reverse(s[1..]) + [s[0]]
  }

  lemma {:induction false} ReverseLength<T>(s: seq<T>)
    ensures |Reverse(s)| == |s|
  {
    if |s| > 0 { ReverseLength(s[1..]); }
  }

  /** Reversal keeps the elements. */
  lemma {:induction false} ReverseMembers<T>(s: seq<T>, x: T)
    ensures x in Reverse(s) <==> x in s
  {
    if |s| > 0 {
      ReverseMembers(s[1..], x);
      assert s == [s[0]] + s[1..];
    }
  }

  /** Reversal sends index `k` to index |s| - 1 - k. */
  lemma {:induction false} ReverseAt<T>(s: seq<T>, k: nat)
    requires k < |s|
    ensures |Reverse(s)| == |s| && Reverse(s)[k] == s[|s| - 1 - k]
  {
    ReverseLength(s);
    if k < |s| - 1 {
      ReverseAt(s[1..], k);
    }
  }

  /** List.remove(Object): drops the first element equal to `x`, if any. */
  function RemoveFirst<T(==)>(s: seq<T>, x: T): (r: seq<T>)
  {
    if |s| == 0 then []
    else if s[0] == x then s[1..]
    else [s[0]] + RemoveFirst(s[1..], x)
  }

  /** What RemoveFirst does: everything before the first `x` stays, the first `x` goes, the rest stays. */
  lemma {:induction false} RemoveFirstSplits<T>(a: seq<T>, x: T, b: seq<T>)
    requires x !in a
    ensures RemoveFirst(a + [x] + b, x) == a + b
  {
    if |a| > 0 {
      assert (a + [x] + b)[1..] == a[1..] + [x] + b;
      RemoveFirstSplits(a[1..], x, b);
    } else {
      assert a + [x] + b == [x] + b;
    }
  }

  /** Removing an element that is absent changes nothing. */
  lemma {:induction false} RemoveFirstAbsent<T>(s: seq<T>, x: T)
    requires x !in s
    ensures RemoveFirst(s, x) == s
  {
    if |s| > 0 { RemoveFirstAbsent(s[1..], x); }
  }

  /** RemoveFirst shortens a sequence by exactly one when the element occurs in it. */
  lemma {:induction false} RemoveFirstLength<T>(s: seq<T>, x: T)
    ensures |RemoveFirst(s, x)| == if x in s then |s| - 1 else |s|
  {
    if |s| > 0 && s[0] != x {
      RemoveFirstLength(s[1..], x);
    }
  }

  /** RemoveFirst removes one occurrence and keeps the rest of the multiset. */
  lemma {:induction false} RemoveFirstMultiset<T>(s: seq<T>, x: T)
    ensures multiset(RemoveFirst(s, x)) == multiset(s) - multiset{x}
  {
    if |s| > 0 {
      assert s == [s[0]] + s[1..];
      if s[0] != x {
        RemoveFirstMultiset(s[1..], x);
      }
    }
  }

  /** RemoveFirst applied once for each element of `xs`, front to back. */
  function RemoveAll<T(==)>(s: seq<T>, xs: seq<T>): seq<T>
    decreases |xs|
  {
    if |xs| == 0 then s else RemoveFirst(RemoveAll(s, xs[..|xs| - 1]), xs[|xs| - 1])
  }

  /** Removing the elements of `xs` one occurrence each takes away the multiset of `xs`. */
  lemma {:induction false} RemoveAllMultiset<T>(s: seq<T>, xs: seq<T>)
    ensures multiset(RemoveAll(s, xs)) == multiset(s) - multiset(xs)
    decreases |xs|
  {
    if |xs| > 0 {
      var init, x := xs[..|xs| - 1], xs[|xs| - 1];
      RemoveAllMultiset(s, init);
      RemoveFirstMultiset(RemoveAll(s, init), x);
      assert multiset(xs) == multiset(init) + multiset{x} by {
        assert xs == init + [x];
      }
      MinusStep(multiset(s), multiset(init), x);
    }
  }

  /** Taking away one more element after a multiset difference. */
  lemma MinusStep<T>(a: multiset<T>, b: multiset<T>, x: T)
    ensures a - b - multiset{x} == a - (b + multiset{x})
  {
    assert forall y :: (a - b - multiset{x})[y] == (a - (b + multiset{x}))[y];
  }
}
