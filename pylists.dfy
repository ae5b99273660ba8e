/** The Python list rules the Icepak code relies on: indexing with negative
    indices, `list.remove`, and order-preserving filtering. */
module PyLists {
  import opened Wrappers

  /** `s[i]` in Python: a negative `i` counts from the end; an index outside
      `-len(s) .. len(s) - 1` raises IndexError (here `None`). */
  function PyIndex<T>(s: seq<T>, i: int): (r: Option<T>)
    ensures r.Some? <==> -|s| <= i < |s|
    ensures r.Some? && 0 <= i ==> r.value == s[i]
    ensures r.Some? && i < 0 ==> r.value == s[|s| + i]
  {
    if 0 <= i < |s| then Some(s[i])
    else if -|s| <= i < 0 then Some(s[|s| + i])
    else None
  }

  /** `s.remove(x)`: drops the first occurrence of `x`; ValueError (here
      `None`) when there is none. */
  function RemoveFirst<T(==)>(s: seq<T>, x: T): Option<seq<T>>
  {
    if |s| == 0 then None
    else if s[0] == x then Some(s[1..])
    else match RemoveFirst(s[1..], x)
      case None => None
      case Some(rest) => Some([s[0]] + rest)
  }

  /** The first index of `x` in `s`. */
  function IndexOf<T(==)>(s: seq<T>, x: T): (i: nat)
    requires x in s
    ensures i < |s| && s[i] == x && x !in s[..i]
  {
    if s[0] == x then 0
    else
      var j := IndexOf(s[1..], x);
      assert s[..j + 1] == [s[0]] + s[1..][..j];
      j + 1
  }

  /** `list.remove` fails exactly on an absent element, and otherwise cuts
      out the element at its first index. */
  lemma {:induction false} RemoveFirstSpec<T>(s: seq<T>, x: T)
    ensures RemoveFirst(s, x).Some? <==> x in s
    ensures x in s ==> RemoveFirst(s, x).value == s[..IndexOf(s, x)] + s[IndexOf(s, x) + 1..]
  {
    if |s| > 0 {
      RemoveFirstSpec(s[1..], x);
      if s[0] == x {
        assert IndexOf(s, x) == 0;
        assert s[..0] + s[1..] == s[1..];
      } else {
        assert x in s <==> x in s[1..] by {
          assert s == [s[0]] + s[1..];
        }
        if x in s[1..] {
          var j := IndexOf(s[1..], x);
          assert IndexOf(s, x) == j + 1;
          var rest := RemoveFirst(s[1..], x).value;
          assert rest == s[1..][..j] + s[1..][j + 1..];
          assert s[..j + 1] == [s[0]] + s[1..][..j];
          assert s[j + 2..] == s[1..][j + 1..];
          assert RemoveFirst(s, x).value == [s[0]] + rest;
        }
      }
    }
  }

  /** `sub` is `s` with some elements dropped and the rest in their order. */
  predicate Subsequence<T(==)>(sub: seq<T>, s: seq<T>)
    decreases |s|
  {
    if |sub| == 0 then true
    else if |s| == 0 then false
    else if sub[0] == s[0] then Subsequence(sub[1..], s[1..])
    else Subsequence(sub, s[1..])
  }

  lemma {:induction false} SubsequenceOfTail<T>(sub: seq<T>, s: seq<T>)
    requires |s| > 0 && Subsequence(sub, s[1..])
    ensures Subsequence(sub, s)
    decreases |s|, |sub|
  {
    if |sub| > 0 && sub[0] == s[0] {
      SubsequenceTail(sub, s[1..]);
    }
  }

  /** Dropping the head of a subsequence keeps it a subsequence. */
  lemma {:induction false} SubsequenceTail<T>(sub: seq<T>, s: seq<T>)
    requires |sub| > 0 && Subsequence(sub, s)
    ensures Subsequence(sub[1..], s)
    decreases |s|, |sub|
  {
    if sub[0] == s[0] {
      SubsequenceOfTail(sub[1..], s);
    } else {
      SubsequenceTail(sub, s[1..]);
      SubsequenceOfTail(sub[1..], s);
    }
  }

  lemma {:induction false} SubsequenceRefl<T>(s: seq<T>)
    ensures Subsequence(s, s)
  {
    if |s| > 0 {
      SubsequenceRefl(s[1..]);
    }
  }

  /** Being a subsequence is transitive. */
  lemma {:induction false} SubsequenceTrans<T>(a: seq<T>, b: seq<T>, c: seq<T>)
    requires Subsequence(a, b) && Subsequence(b, c)
    ensures Subsequence(a, c)
    decreases |c|
  {
    if |a| > 0 {
      if b[0] == c[0] {
        if a[0] == b[0] {
          SubsequenceTrans(a[1..], b[1..], c[1..]);
        } else {
          SubsequenceTrans(a, b[1..], c[1..]);
        }
      } else {
        SubsequenceTrans(a, b, c[1..]);
        SubsequenceOfTail(a, c);
      }
    }
  }

  /** Subsequences of two parts make a subsequence of the whole. */
  lemma {:induction false} SubsequenceAppend<T>(a: seq<T>, b: seq<T>, c: seq<T>, d: seq<T>)
    requires Subsequence(a, b) && Subsequence(c, d)
    ensures Subsequence(a + c, b + d)
    decreases |b|
  {
    if |b| == 0 {
      assert a == [];
      assert a + c == c && b + d == d;
    } else if |a| > 0 && a[0] == b[0] {
      SubsequenceAppend(a[1..], b[1..], c, d);
      assert (a + c)[1..] == a[1..] + c;
      assert (b + d)[1..] == b[1..] + d;
    } else {
      SubsequenceAppend(a, b[1..], c, d);
      assert (b + d)[1..] == b[1..] + d;
      SubsequenceOfTail(a + c, b + d);
    }
  }

  /** Appending one element to the whole keeps a subsequence, with or
      without appending it to the part. */
  lemma SubsequenceSnoc<T>(a: seq<T>, b: seq<T>, x: T)
    requires Subsequence(a, b)
    ensures Subsequence(a + [x], b + [x]) && Subsequence(a, b + [x])
  {
    SubsequenceRefl([x]);
    SubsequenceAppend(a, b, [x], [x]);
    SubsequenceAppend(a, b, [], [x]);
    assert a + [] == a;
  }

  /** `list.remove` keeps the order of what remains. */
  lemma {:induction false} RemoveFirstSubsequence<T>(s: seq<T>, x: T)
    requires RemoveFirst(s, x).Some?
    ensures Subsequence(RemoveFirst(s, x).value, s)
  {
    if s[0] == x {
      SubsequenceRefl(s[1..]);
      SubsequenceOfTail(s[1..], s);
    } else {
      RemoveFirstSubsequence(s[1..], x);
      var rest := RemoveFirst(s[1..], x).value;
      assert ([s[0]] + rest)[1..] == rest;
    }
  }

  /** `list.remove` takes away one copy of the element and nothing else. */
  lemma {:induction false} RemoveFirstMultiset<T>(s: seq<T>, x: T)
    requires RemoveFirst(s, x).Some?
    ensures multiset(RemoveFirst(s, x).value) == multiset(s) - multiset{x}
  {
    assert s == [s[0]] + s[1..];
    if s[0] != x {
      RemoveFirstMultiset(s[1..], x);
      var rest := RemoveFirst(s[1..], x).value;
      assert multiset([s[0]] + rest) == multiset{s[0]} + multiset(rest);
    }
  }

  /** Taking one copy of `x` and then `a` out of `b` is taking `{x} + a`. */
  lemma TakeOne<T>(x: T, a: multiset<T>, b: multiset<T>)
    ensures multiset{x} + a <= b <==> x in b && a <= b - multiset{x}
    ensures multiset{x} + a <= b ==> b - (multiset{x} + a) == (b - multiset{x}) - a
  {
    if multiset{x} + a <= b {
      assert x in b;
    }
  }

  /** A list that grows by at most the next element of `s` stays a
      subsequence of the prefix of `s` read so far. */
  lemma SubsequenceGrow<T>(before: seq<T>, after: seq<T>, s: seq<T>, n: nat)
    requires 0 < n <= |s| && Subsequence(before, s[..n - 1])
    requires after == before || after == before + [s[n - 1]]
    ensures Subsequence(after, s[..n])
  {
    assert s[..n] == s[..n - 1] + [s[n - 1]];
    SubsequenceSnoc(before, s[..n - 1], s[n - 1]);
  }
}
