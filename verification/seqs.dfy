/** Order-preserving selection over sequences: the model of JavaScript's
    `Array.prototype.filter` and of the Java streams that filter a list. */
module Seqs {

  /** The elements of `s` that satisfy `p`, in their original order. Each
      kept element occurs as often as in `s`; every other occurs not at all. */
  function Filter<T(==,!new)>(p: T -> bool, s: seq<T>): (r: seq<T>)
    ensures |r| <= |s|
    ensures forall x :: multiset(r)[x] == if p(x) then multiset(s)[x] else 0
    ensures forall x :: x in r <==> x in s && p(x)
  {
    if |s| == 0 then []
    else
      assert s == [s[0]] + s[1..];
      if p(s[0]) then [s[0]] + Filter(p, s[1..]) else Filter(p, s[1..])
  }

  /** Selection distributes over concatenation: the relative order of the
      kept elements is the order they had in the input. */
  lemma {:induction false} FilterConcat<T(!new)>(p: T -> bool, a: seq<T>, b: seq<T>)
    ensures Filter(p, a + b) == Filter(p, a) + Filter(p, b)
  {
    if |a| == 0 {
      assert a + b == b;
    } else {
      assert (a + b)[1..] == a[1..] + b;
      FilterConcat(p, a[1..], b);
    }
  }

  /** Two complementary selections split the input: together they hold every
      element exactly as often as the input does. */
  lemma {:induction false} FilterPartition<T(!new)>(p: T -> bool, q: T -> bool, s: seq<T>)
    requires forall x :: q(x) == !p(x)
    ensures multiset(Filter(p, s)) + multiset(Filter(q, s)) == multiset(s)
    ensures |Filter(p, s)| + |Filter(q, s)| == |s|
  {
    if |s| > 0 {
      var h, t := s[0], s[1..];
      FilterPartition(p, q, t);
      assert s == [h] + t;
      if p(h) {
        assert Filter(p, s) == [h] + Filter(p, t);
        assert Filter(q, s) == Filter(q, t);
      } else {
        assert Filter(p, s) == Filter(p, t);
        assert Filter(q, s) == [h] + Filter(q, t);
      }
      assert multiset(s) == multiset([h]) + multiset(t);
    }
  }

  /** Selecting an already selected sequence again changes nothing. */
  lemma {:induction false} FilterIdempotent<T(!new)>(p: T -> bool, s: seq<T>)
    ensures Filter(p, Filter(p, s)) == Filter(p, s)
  {
    if |s| > 0 {
      FilterIdempotent(p, s[1..]);
    }
  }

  /** A sequence whose elements all satisfy `p` is kept whole. */
  lemma {:induction false} FilterAll<T(!new)>(p: T -> bool, s: seq<T>)
    requires forall i :: 0 <= i < |s| ==> p(s[i])
    ensures Filter(p, s) == s
  {
    if |s| > 0 {
      FilterAll(p, s[1..]);
    }
  }
}
