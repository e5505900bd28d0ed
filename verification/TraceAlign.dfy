/** Aligning two dialogues with one moving cursor. */
module TraceAlign {
  import opened Wire

  datatype Pair<M> = Matched(ours: M, theirs: M) | OursOnly(ours: M) | TheirsOnly(theirs: M)

  /** Our side of an alignment, and theirs. */
  function Ours<M>(ps: seq<Pair<M>>): (ms: seq<M>)
  {
    if ps == [] then []
    else Ours(ps[..|ps| - 1]) + (if ps[|ps| - 1].TheirsOnly? then [] else [ps[|ps| - 1].ours])
  }

  function Theirs<M>(ps: seq<Pair<M>>): (ms: seq<M>)
  {
    if ps == [] then []
    else Theirs(ps[..|ps| - 1]) + (if ps[|ps| - 1].OursOnly? then [] else [ps[|ps| - 1].theirs])
  }

  predicate KeysAgree<M, K(==)>(key: M -> K, ps: seq<Pair<M>>)
  {
    forall i :: 0 <= i < |ps| && ps[i].Matched? ==> key(ps[i].ours) == key(ps[i].theirs)
  }

  /** A message of ours left alone has no counterpart among those of theirs that are still
      to come. */
  predicate LeftAlone<M, K(==)>(key: M -> K, theirs: seq<M>, ps: seq<Pair<M>>)
  {
    forall i :: 0 <= i < |ps| && ps[i].OursOnly? ==> NoneAhead(key, ps[i].ours, theirs, |Theirs(ps[..i])|)
  }

  predicate NoneAhead<M, K(==)>(key: M -> K, a: M, theirs: seq<M>, j: nat)
  {
    forall k :: j <= k < |theirs| ==> key(theirs[k]) != key(a)
  }

  /** The counterpart taken is the first ahead: none of theirs skipped just before a pair
      has its key. */
  predicate FirstAhead<M, K(==)>(key: M -> K, ps: seq<Pair<M>>)
  {
    forall i :: 0 <= i < |ps| && ps[i].Matched? ==> NoneSkipped(key, ps[i].ours, ps, i)
  }

  predicate NoneSkipped<M, K(==)>(key: M -> K, a: M, ps: seq<Pair<M>>, i: nat)
    requires i <= |ps|
  {
    forall k: nat :: k < i && TheirsAlone(ps, k, i) ==> key(ps[k].theirs) != key(a)
  }

  /** From `k` up to `i` every message is theirs alone. */
  predicate TheirsAlone<M>(ps: seq<Pair<M>>, k: nat, i: nat)
    requires i <= |ps|
  {
    forall m :: k <= m < i ==> ps[m].TheirsOnly?
  }

  /** What an alignment promises besides keeping both dialogues. */
  predicate Aligned<M, K(==)>(key: M -> K, theirs: seq<M>, ps: seq<Pair<M>>)
  {
    KeysAgree(key, ps) && LeftAlone(key, theirs, ps) && FirstAhead(key, ps)
  }

  lemma PushLeftAlone<M, K>(key: M -> K, theirs: seq<M>, ps: seq<Pair<M>>, p: Pair<M>)
    requires LeftAlone(key, theirs, ps)
    requires p.OursOnly? ==> NoneAhead(key, p.ours, theirs, |Theirs(ps)|)
    ensures LeftAlone(key, theirs, ps + [p])
  {
    var qs := ps + [p];
    forall i | 0 <= i < |qs| && qs[i].OursOnly? ensures NoneAhead(key, qs[i].ours, theirs, |Theirs(qs[..i])|) {
      assert qs[..i] == ps[..i];
      assert ps[..|ps|] == ps;
    }
  }

  lemma NoneSkippedExtends<M, K>(key: M -> K, a: M, ps: seq<Pair<M>>, p: Pair<M>, i: nat)
    requires i <= |ps| && NoneSkipped(key, a, ps, i)
    ensures NoneSkipped(key, a, ps + [p], i)
  {
    forall k: nat | k < i && TheirsAlone(ps + [p], k, i) ensures key((ps + [p])[k].theirs) != key(a) {
      assert forall m :: k <= m < i ==> ps[m] == (ps + [p])[m];
      assert TheirsAlone(ps, k, i);
    }
  }

  lemma PushFirstAhead<M, K>(key: M -> K, ps: seq<Pair<M>>, p: Pair<M>)
    requires FirstAhead(key, ps) && (p.Matched? ==> NoneSkipped(key, p.ours, ps, |ps|))
    ensures FirstAhead(key, ps + [p])
  {
    var qs := ps + [p];
    forall i | 0 <= i < |qs| && qs[i].Matched? ensures NoneSkipped(key, qs[i].ours, qs, i) {
      NoneSkippedExtends(key, qs[i].ours, ps, p, i);
    }
  }

  /** One more message keeps all of it. */
  lemma PushAligned<M, K>(key: M -> K, theirs: seq<M>, ps: seq<Pair<M>>, p: Pair<M>)
    requires Aligned(key, theirs, ps)
    requires p.Matched? ==> key(p.ours) == key(p.theirs) && NoneSkipped(key, p.ours, ps, |ps|)
    requires p.OursOnly? ==> NoneAhead(key, p.ours, theirs, |Theirs(ps)|)
    ensures Aligned(key, theirs, ps + [p])
  {
    PushLeftAlone(key, theirs, ps, p);
    PushFirstAhead(key, ps, p);
  }

  /** The first message at or after `j` with the key of `a`. */
  method LookAhead<M, K(==)>(key: M -> K, a: M, theirs: seq<M>, j: nat) returns (found: nat)
    requires j <= |theirs|
    ensures j <= found <= |theirs|
    ensures forall k :: j <= k < found ==> key(theirs[k]) != key(a)
    ensures found < |theirs| ==> key(theirs[found]) == key(a)
  {
    found := j;
    while found < |theirs| && key(theirs[found]) != key(a)
      invariant j <= found <= |theirs|
      invariant forall k :: j <= k < found ==> key(theirs[k]) != key(a)
    {
      found := found + 1;
    }
  }

  lemma Push<M>(ps: seq<Pair<M>>, p: Pair<M>)
    ensures Ours(ps + [p]) == Ours(ps) + (if p.TheirsOnly? then [] else [p.ours])
    ensures Theirs(ps + [p]) == Theirs(ps) + (if p.OursOnly? then [] else [p.theirs])
  {
  }

  function Alone<M>(ms: seq<M>): (ps: seq<Pair<M>>)
    ensures |ps| == |ms| && forall i :: 0 <= i < |ms| ==> ps[i] == TheirsOnly(ms[i])
  {
    seq(|ms|, i requires 0 <= i < |ms| => TheirsOnly(ms[i]))
  }

  /** Skipping messages without the key of `a`, after one that was not skipped. */
  lemma SkippingMisses<M, K>(key: M -> K, a: M, ps: seq<Pair<M>>, ms: seq<M>)
    requires ps != [] ==> !ps[|ps| - 1].TheirsOnly?
    requires forall k :: 0 <= k < |ms| ==> key(ms[k]) != key(a)
    ensures NoneSkipped(key, a, ps + Alone(ms), |ps + Alone(ms)|)
  {
    var qs := ps + Alone(ms);
    forall k: nat | k < |qs| && TheirsAlone(qs, k, |qs|) ensures key(qs[k].theirs) != key(a) {
      assert |ps| <= k by {
        assert ps == [] || !qs[|ps| - 1].TheirsOnly?;
      }
      assert qs[k] == Alone(ms)[k - |ps|];
    }
  }

  /** Messages that only they have, up to `end`. */
  method SkipTo<M, K(==)>(key: M -> K, theirs: seq<M>, j: nat, end: nat, ps: seq<Pair<M>>) returns (out: seq<Pair<M>>)
    requires j <= end <= |theirs| && Theirs(ps) == theirs[..j] && Aligned(key, theirs, ps)
    ensures Ours(out) == Ours(ps) && Theirs(out) == theirs[..end] && Aligned(key, theirs, out)
    ensures out == ps + Alone(theirs[j..end])
  {
    out := ps;
    for k := j to end
      invariant Ours(out) == Ours(ps) && Theirs(out) == theirs[..k] && Aligned(key, theirs, out)
      invariant out == ps + Alone(theirs[j..k])
    {
      Push(out, TheirsOnly(theirs[k]));
      PushAligned(key, theirs, out, TheirsOnly(theirs[k]));
      assert theirs[..k + 1] == theirs[..k] + [theirs[k]];
      assert Alone(theirs[j..k + 1]) == Alone(theirs[j..k]) + [TheirsOnly(theirs[k])];
      out := out + [TheirsOnly(theirs[k])];
    }
  }

  /** `ps` has gone through `ours` and through theirs up to `j`, and ends with one of ours. */
  ghost predicate Placed<M, K>(key: M -> K, ours: seq<M>, theirs: seq<M>, j: nat, ps: seq<Pair<M>>)
  {
    && j <= |theirs| && Ours(ps) == ours && Theirs(ps) == theirs[..j] && Aligned(key, theirs, ps)
    && (ps != [] ==> !ps[|ps| - 1].TheirsOnly?)
  }

  lemma PlaceAlone<M, K>(key: M -> K, ours: seq<M>, theirs: seq<M>, j: nat, ps: seq<Pair<M>>, a: M)
    requires Placed(key, ours, theirs, j, ps) && NoneAhead(key, a, theirs, j)
    ensures Placed(key, ours + [a], theirs, j, ps + [OursOnly(a)])
  {
    Push(ps, OursOnly(a));
    PushAligned(key, theirs, ps, OursOnly(a));
  }

  lemma PairKeepsBoth<M>(ps: seq<Pair<M>>, ours: seq<M>, theirs: seq<M>, j: nat, a: M)
    requires j < |theirs| && Ours(ps) == ours && Theirs(ps) == theirs[..j]
    ensures var qs := ps + [Matched(a, theirs[j])]; Ours(qs) == ours + [a] && Theirs(qs) == theirs[..j + 1]
  {
    Push(ps, Matched(a, theirs[j]));
    assert theirs[..j + 1] == theirs[..j] + [theirs[j]];
  }

  lemma PlacePair<M, K>(key: M -> K, ours: seq<M>, theirs: seq<M>, j: nat, ps: seq<Pair<M>>, a: M)
    requires j < |theirs| && Ours(ps) == ours && Theirs(ps) == theirs[..j] && Aligned(key, theirs, ps)
    requires key(a) == key(theirs[j]) && NoneSkipped(key, a, ps, |ps|)
    ensures Placed(key, ours + [a], theirs, j + 1, ps + [Matched(a, theirs[j])])
  {
    PairKeepsBoth(ps, ours, theirs, j, a);
    PushAligned(key, theirs, ps, Matched(a, theirs[j]));
  }

  /** The alignment keeps both dialogues whole and in order, pairs only messages with the
      same key, pairs each of ours with the first of theirs ahead that has its key, and
      leaves one of ours alone only when none of theirs ahead has it. */
  method Align<M, K(==)>(key: M -> K, ours: seq<M>, theirs: seq<M>) returns (out: seq<Pair<M>>)
    ensures Ours(out) == ours && Theirs(out) == theirs
    ensures KeysAgree(key, out) && LeftAlone(key, theirs, out) && FirstAhead(key, out)
  {
    out := [];
    var j: nat := 0;
    for i := 0 to |ours|
      invariant Placed(key, ours[..i], theirs, j, out)
    {
      var a := ours[i];
      assert ours[..i + 1] == ours[..i] + [a];
      var found := LookAhead(key, a, theirs, j);
      if found < |theirs| {
        SkippingMisses(key, a, out, theirs[j..found]);
        out := SkipTo(key, theirs, j, found, out);
        PlacePair(key, ours[..i], theirs, found, out, a);
        out := out + [Matched(a, theirs[found])];
        j := found + 1;
      } else {
        PlaceAlone(key, ours[..i], theirs, j, out, a);
        out := out + [OursOnly(a)];
      }
    }
    out := SkipTo(key, theirs, j, |theirs|, out);
    assert ours[..|ours|] == ours && theirs[..|theirs|] == theirs;
  }
}
