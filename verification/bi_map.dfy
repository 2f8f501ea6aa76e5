/** `BiMap`: two hash maps kept as each other's inverse. */
module BiMaps {
  import opened Options

  /** Two maps that are inverse to each other. */
  ghost predicate Inverse<A, B>(one: map<A, B>, two: map<B, A>) {
    && (forall a :: a in one ==> one[a] in two && two[one[a]] == a)
    && (forall b :: b in two ==> two[b] in one && one[two[b]] == b)
  }

  /** Inverse maps have each other's domain as range, and neither repeats a value. */
  lemma InverseIsBijection<A, B>(one: map<A, B>, two: map<B, A>)
    requires Inverse(one, two)
    ensures one.Values == two.Keys && two.Values == one.Keys
    ensures forall a, a' :: a in one && a' in one && one[a] == one[a'] ==> a == a'
    ensures |one| == |two|
  {
    assert forall b :: b in two ==> b in one.Values by {
      forall b | b in two ensures b in one.Values {
        assert one[two[b]] == b;
      }
    }
    assert forall a :: a in one ==> a in two.Values by {
      forall a | a in one ensures a in two.Values {
        assert two[one[a]] == a;
      }
    }
    SameSize(one, two);
  }

  lemma {:induction false} SameSize<A, B>(one: map<A, B>, two: map<B, A>)
    requires Inverse(one, two)
    ensures |one| == |two|
    decreases |one|
  {
    assert one.Keys == {} ==> two.Keys == {};
    if one != map[] {
      var a :| a in one;
      var b := one[a];
      var one', two' := one - {a}, two - {b};
      assert one'.Keys == one.Keys - {a} && two'.Keys == two.Keys - {b};
      SameSize(one', two');
    }
  }

  class BiMap<A(==), B(==)> {
    var one: map<A, B>
    var two: map<B, A>

    constructor ()
      ensures one == map[] && two == map[] && Valid()
    {
      one, two := map[], map[];
    }

    ghost predicate Valid()
      reads this
    {
      Inverse(one, two)
    }

    /** Inserts a pair of which neither side is taken; otherwise changes nothing. */
    method Insert(a: A, b: B) returns (ok: bool)
      requires Valid()
      modifies this
      ensures Valid()
      ensures ok <==> a !in old(one) && b !in old(two)
      ensures one == if ok then old(one)[a := b] else old(one)
      ensures two == if ok then old(two)[b := a] else old(two)
    {
      if a in one || b in two {
        return false;
      }
      one, two := one[a := b], two[b := a];
      return true;
    }

    method Find1(a: A) returns (r: Option<B>)
      ensures r == if a in one then Some(one[a]) else None
    {
      return if a in one then Some(one[a]) else None;
    }

    method Find2(b: B) returns (r: Option<A>)
      ensures r == if b in two then Some(two[b]) else None
    {
      return if b in two then Some(two[b]) else None;
    }

    /** Removes the pair of `a` from both sides. */
    method Remove1(a: A) returns (ok: bool)
      requires Valid()
      modifies this
      ensures Valid()
      ensures ok <==> a in old(one)
      ensures one == old(one) - {a}
      ensures two == if ok then old(two) - {old(one)[a]} else old(two)
    {
      if a !in one {
        assert one.Keys - {a} == one.Keys;
        return false;
      }
      var b := one[a];
      one, two := one - {a}, two - {b};
      return true;
    }

    /** Removes the pair of `b` from both sides. */
    method Remove2(b: B) returns (ok: bool)
      requires Valid()
      modifies this
      ensures Valid()
      ensures ok <==> b in old(two)
      ensures two == old(two) - {b}
      ensures one == if ok then old(one) - {old(two)[b]} else old(one)
    {
      if b !in two {
        assert two.Keys - {b} == two.Keys;
        return false;
      }
      var a := two[b];
      two, one := two - {b}, one - {a};
      return true;
    }
  }
}
