/** Concatenating maps over sequences, shared by the codecs, the queues and the logs. */
module Sequences {

  /** The concatenation of `f` over the elements of `s`. */
  function FlatMap<A, B>(f: A -> seq<B>, s: seq<A>): seq<B> {
    if s == [] then [] else f(s[0]) + FlatMap(f, s[1..])
  }

  lemma {:induction false} FlatMapConcat<A, B>(f: A -> seq<B>, s: seq<A>, t: seq<A>)
    ensures FlatMap(f, s + t) == FlatMap(f, s) + FlatMap(f, t)
    decreases |s|
  {
    if s == [] {
      assert s + t == t;
    } else {
      assert (s + t)[0] == s[0] && (s + t)[1..] == s[1..] + t;
      FlatMapConcat(f, s[1..], t);
    }
  }

  lemma FlatMapOne<A, B>(f: A -> seq<B>, x: A)
    ensures FlatMap(f, [x]) == f(x)
  {
    assert [x][1..] == [];
  }

  lemma FlatMapAppend<A, B>(f: A -> seq<B>, s: seq<A>, x: A)
    ensures FlatMap(f, s + [x]) == FlatMap(f, s) + f(x)
  {
    FlatMapConcat(f, s, [x]);
    FlatMapOne(f, x);
  }

  /** What remains after the first `k` elements starts with the image of element `k`. */
  lemma FlatMapSplit<A, B>(f: A -> seq<B>, s: seq<A>, k: nat)
    requires k < |s|
    ensures FlatMap(f, s) == FlatMap(f, s[..k]) + f(s[k]) + FlatMap(f, s[k + 1..])
    ensures FlatMap(f, s[..k + 1]) == FlatMap(f, s[..k]) + f(s[k])
  {
    assert s[..k + 1] == s[..k] + [s[k]];
    FlatMapAppend(f, s[..k], s[k]);
    assert s == s[..k + 1] + s[k + 1..];
    FlatMapConcat(f, s[..k + 1], s[k + 1..]);
  }

  lemma FlatMapPrefix<A, B>(f: A -> seq<B>, s: seq<A>, k: nat)
    requires k <= |s|
    ensures FlatMap(f, s[..k]) <= FlatMap(f, s)
  {
    assert s == s[..k] + s[k..];
    FlatMapConcat(f, s[..k], s[k..]);
  }

  lemma SliceOfSlice<A>(s: seq<A>, at: nat, len: nat, i: nat, j: nat)
    requires at + len <= |s| && i <= j <= len
    ensures s[at..at + len][i..j] == s[at + i..at + j]
  {
    var a, b := s[at..at + len][i..j], s[at + i..at + j];
    forall k | 0 <= k < j - i ensures a[k] == b[k] {
    }
  }

  lemma PrefixSplits<A>(b: seq<A>, x: seq<A>, more: seq<A>)
    requires b <= x + more && |x| <= |b|
    ensures b == x + b[|x|..] && b[|x|..] <= more
  {
  }

  function Identity<A>(s: seq<A>): seq<A> {
    s
  }

  /** The concatenation of a list of chunks. */
  function Flatten<A>(ss: seq<seq<A>>): seq<A> {
    FlatMap(Identity, ss)
  }
}
