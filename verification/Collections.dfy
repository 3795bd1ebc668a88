/**
  Optional values and sequences without repetitions, as the other modules use them.
 */
module Collections {

  datatype Option<+T> = None | Some(value: T)

  ghost predicate Distinct<T>(s: seq<T>) {
    forall i, j | 0 <= i < j < |s| :: s[i] != s[j]
  }

  lemma DistinctTail<T>(s: seq<T>)
    requires s != []
    ensures Distinct(s) <==> s[0] !in s[1..] && Distinct(s[1..])
  {
    var rest := s[1..];
    assert forall i | 0 <= i < |rest| :: rest[i] == s[i + 1];
    if s[0] !in rest && Distinct(rest) {
      forall i, j | 0 <= i < j < |s| ensures s[i] != s[j] {
        assert s[j] == rest[j - 1];
        assert i > 0 ==> s[i] == rest[i - 1];
      }
    }
  }

  lemma DistinctCons<T>(x: T, s: seq<T>)
    ensures Distinct([x] + s) <==> x !in s && Distinct(s)
  {
    DistinctTail([x] + s);
    assert ([x] + s)[1..] == s;
  }

  lemma DistinctConcat<T>(a: seq<T>, b: seq<T>)
    requires Distinct(a) && Distinct(b) && forall x | x in a :: x !in b
    ensures Distinct(a + b)
  {
    forall i, j | 0 <= i < j < |a + b| ensures (a + b)[i] != (a + b)[j] {
      if i < |a| <= j {
        assert a[i] in a && b[j - |a|] in b;
      }
    }
  }

  /** 's' without the first occurrence of 'x': unlinking a list node. */
  function Without<T(==)>(s: seq<T>, x: T): seq<T> {
    if s == [] then [] else if s[0] == x then s[1..] else [s[0]] + Without(s[1..], x)
  }

  lemma {:induction false} WithoutContents<T>(s: seq<T>, x: T)
    requires Distinct(s)
    ensures Distinct(Without(s, x))
    ensures forall y :: y in Without(s, x) <==> y in s && y != x
  {
    if s != [] {
      DistinctTail(s);
      assert s == [s[0]] + s[1..];
      if s[0] != x {
        WithoutContents(s[1..], x);
        DistinctCons(s[0], Without(s[1..], x));
      }
    }
  }

  lemma {:induction false} WithoutAt<T>(a: seq<T>, x: T, b: seq<T>)
    requires x !in a
    ensures Without(a + [x] + b, x) == a + b
  {
    var whole := a + [x] + b;
    if a == [] {
      assert whole[0] == x && whole[1..] == b && a + b == b;
    } else {
      assert whole[0] == a[0] && whole[1..] == a[1..] + [x] + b;
      WithoutAt(a[1..], x, b);
      assert [a[0]] + (a[1..] + b) == a + b;
    }
  }
}
