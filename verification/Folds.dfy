/** Folding a sequence with a commutative and associative operation. */
module Folds {

  ghost predicate Commutative<R(!new)>(op: (R, R) -> R)
  {
    forall a, b :: op(a, b) == op(b, a)
  }

  ghost predicate Associative<R(!new)>(op: (R, R) -> R)
  {
    forall a, b, c :: op(op(a, b), c) == op(a, op(b, c))
  }

  function Fold<T, R>(f: T -> R, op: (R, R) -> R, unit: R, xs: seq<T>): (r: R)
  {
    if xs == [] then unit else op(f(xs[0]), Fold(f, op, unit, xs[1..]))
  }

  lemma Exchange<R(!new)>(op: (R, R) -> R, a: R, b: R, c: R)
    requires Commutative(op) && Associative(op)
    ensures op(a, op(b, c)) == op(b, op(a, c))
  {
  }

  /** One item may be moved to the front. */
  lemma {:induction false} FoldFront<T, R(!new)>(f: T -> R, op: (R, R) -> R, unit: R, us: seq<T>, x: T, vs: seq<T>)
    requires Commutative(op) && Associative(op)
    ensures Fold(f, op, unit, us + [x] + vs) == op(f(x), Fold(f, op, unit, us + vs))
    decreases |us|
  {
    if us == [] {
      assert us + [x] + vs == [x] + vs && us + vs == vs && ([x] + vs)[1..] == vs;
    } else {
      var a, more := us[0], us[1..];
      FoldFront(f, op, unit, more, x, vs);
      assert (us + [x] + vs)[1..] == more + [x] + vs && (us + vs)[1..] == more + vs;
      Exchange(op, f(a), f(x), Fold(f, op, unit, more + vs));
    }
  }

  lemma Around<T>(ys: seq<T>, i: nat)
    requires i < |ys|
    ensures ys == ys[..i] + [ys[i]] + ys[i + 1..]
    ensures multiset(ys[..i] + ys[i + 1..]) == multiset(ys) - multiset{ys[i]}
  {
  }

  lemma Behind<T>(xs: seq<T>)
    requires xs != []
    ensures multiset(xs[1..]) == multiset(xs) - multiset{xs[0]}
  {
    assert xs == [xs[0]] + xs[1..];
  }

  /** The order of the items does not matter. */
  lemma {:induction false} FoldPermutes<T, R(!new)>(f: T -> R, op: (R, R) -> R, unit: R, xs: seq<T>, ys: seq<T>)
    requires Commutative(op) && Associative(op)
    requires multiset(xs) == multiset(ys)
    ensures Fold(f, op, unit, xs) == Fold(f, op, unit, ys)
    decreases |xs|
  {
    if xs == [] {
      assert |multiset(ys)| == 0;
    } else {
      assert xs[0] in multiset(xs);
      assert xs[0] in multiset(ys);
      var i :| 0 <= i < |ys| && ys[i] == xs[0];
      Around(ys, i);
      Behind(xs);
      FoldPermutes(f, op, unit, xs[1..], ys[..i] + ys[i + 1..]);
      FoldFront(f, op, unit, ys[..i], xs[0], ys[i + 1..]);
    }
  }
}
