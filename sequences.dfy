/**
  The two list shapes of the `fetchPage` loop: dropping the elements a test
  rejects (the `continue` on screenshots) and building one output element per
  input element (the `append` of a record), both in input order.
 */
module Sequences {

  /** The elements of `s` that `drop` does not reject, in order. */
  function Without<T>(s: seq<T>, drop: T -> bool): (r: seq<T>)
    ensures |r| <= |s|
    ensures forall i :: 0 <= i < |r| ==> !drop(r[i])
  {
    if s == [] then [] else Without(s[..|s| - 1], drop) + (if drop(s[|s| - 1]) then [] else [s[|s| - 1]])
  }

  /** Dropping distributes over concatenation, so the kept elements keep their relative order. */
  lemma {:induction false} WithoutAppend<T>(a: seq<T>, b: seq<T>, drop: T -> bool)
    ensures Without(a + b, drop) == Without(a, drop) + Without(b, drop)
    decreases |b|
  {
    if b == [] {
      assert a + b == a;
    } else {
      var b', last := b[..|b| - 1], b[|b| - 1];
      var extra := if drop(last) then [] else [last];
      assert (a + b)[..|a + b| - 1] == a + b';
      assert (a + b)[|a + b| - 1] == last;
      WithoutAppend(a, b', drop);
      assert Without(a, drop) + Without(b', drop) + extra == Without(a, drop) + (Without(b', drop) + extra);
    }
  }

  /** One element is kept exactly when `drop` does not reject it. */
  lemma WithoutSingle<T>(x: T, drop: T -> bool)
    ensures Without([x], drop) == if drop(x) then [] else [x]
  {
  }

  /** Every kept element comes from the input. */
  lemma {:induction false} WithoutSound<T>(s: seq<T>, drop: T -> bool, j: nat)
    requires j < |Without(s, drop)|
    ensures Without(s, drop)[j] in s
  {
    var init := s[..|s| - 1];
    if j < |Without(init, drop)| {
      WithoutSound(init, drop, j);
      assert Without(init, drop)[j] in init;
    } else {
      assert Without(s, drop)[j] == s[|s| - 1];
    }
  }

  /** Every element `drop` does not reject is kept. */
  lemma WithoutComplete<T>(s: seq<T>, drop: T -> bool, i: nat)
    requires i < |s| && !drop(s[i])
    ensures s[i] in Without(s, drop)
  {
  }

  /** When nothing is rejected, everything is kept in place. */
  lemma {:induction false} WithoutNothingDropped<T>(s: seq<T>, drop: T -> bool)
    requires forall i :: 0 <= i < |s| ==> !drop(s[i])
    ensures Without(s, drop) == s
  {
    if s != [] {
      WithoutNothingDropped(s[..|s| - 1], drop);
      assert s[..|s| - 1] + [s[|s| - 1]] == s;
    }
  }

  /** When everything is rejected, nothing is kept. */
  lemma {:induction false} WithoutAllDropped<T>(s: seq<T>, drop: T -> bool)
    requires forall i :: 0 <= i < |s| ==> drop(s[i])
    ensures Without(s, drop) == []
  {
    if s != [] {
      WithoutAllDropped(s[..|s| - 1], drop);
    }
  }

  /** `f` applied to each element, in order. */
  function MapSeq<T, U>(s: seq<T>, f: T -> U): (r: seq<U>)
    ensures |r| == |s|
  {
    if s == [] then [] else MapSeq(s[..|s| - 1], f) + [f(s[|s| - 1])]
  }

  /** Each output element is `f` of the input element at the same position. */
  lemma {:induction false} MapSeqAt<T, U>(s: seq<T>, f: T -> U, i: nat)
    requires i < |s|
    ensures MapSeq(s, f)[i] == f(s[i])
  {
    if i < |s| - 1 {
      MapSeqAt(s[..|s| - 1], f, i);
    }
  }

  /** Appending an input element appends its image. */
  lemma MapSeqSnoc<T, U>(s: seq<T>, x: T, f: T -> U)
    ensures MapSeq(s + [x], f) == MapSeq(s, f) + [f(x)]
  {
  }
}
