/** Sizes of finite sets. */
module Sets {
  lemma {:induction false} SubsetSize<T>(a: set<T>, b: set<T>)
    requires a <= b && |a| == |b|
    ensures a == b
  {
    if x :| x in b && x !in a {
      SubsetSmaller(a, b - {x});
    }
  }

  lemma {:induction false} SubsetSmaller<T>(a: set<T>, b: set<T>)
    requires a <= b
    ensures |a| <= |b|
  {
    if x :| x in a {
      SubsetSmaller(a - {x}, b - {x});
    }
  }

  lemma {:induction false} Enlarged(a: set<nat>, b: set<nat>)
    ensures |a + b| > |a| <==> !(b <= a)
  {
    if b <= a {
      assert a + b == a;
    } else {
      SubsetSmaller(a, a + b);
      if |a + b| == |a| {
        SubsetSize(a, a + b);
      }
    }
  }

  lemma {:induction false} FirstNumbers(n: nat) returns (s: set<nat>)
    ensures |s| == n && forall i: nat :: i in s <==> i < n
  {
    s := {};
    for k := 0 to n
      invariant |s| == k && forall i: nat :: i in s <==> i < k
    {
      s := s + {k};
    }
  }

  lemma {:induction false} AddOne<T>(a: set<T>, b: set<T>, x: T)
    ensures a + (b + {x}) == a + b + {x} && a + b + {} == a + b
  {
  }
}
