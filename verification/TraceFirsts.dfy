/** What a match means for every pair of payloads, repeated tags included: the comparison
    takes the first of their fields with a tag, so later ones of theirs are never looked at
    and later ones of ours are compared with that same field. */
module TraceFirsts {
  import opened Wire
  import opened Tlv
  import opened TraceTree
  import opened TraceCompare

  // ---- The first field of each tag ----

  /** The first tree of each tag, in order. */
  function KeepFirst(ts: seq<Tree>): (r: seq<Tree>)
  {
    if ts == [] then []
    else
      var before, last := ts[..|ts| - 1], ts[|ts| - 1];
      if Find(before, last.tag).Some? then KeepFirst(before) else KeepFirst(before) + [last]
  }

  /** The tree without repeated tags, at every depth: the first field of each is kept. */
  function FirstsOf(t: Tree): (r: Tree)
    ensures r.tag == t.tag && r.Leaf? == t.Leaf?
    decreases t, 1
  {
    if t.Leaf? then t
    else
      var children := FirstsEach(t.children);
      t.(children := if t.kind == Structure then KeepFirst(children) else children)
  }

  function FirstsEach(ts: seq<Tree>): (r: seq<Tree>)
    ensures |r| == |ts|
    ensures forall i :: 0 <= i < |ts| ==> r[i] == FirstsOf(ts[i])
    decreases ts, 0
  {
    seq(|ts|, i requires 0 <= i < |ts| => FirstsOf(ts[i]))
  }

  /** In every structure each field is the same as the first with its tag. */
  ghost predicate RepeatsAgree(t: Tree)
    decreases t, 1
  {
    t.Branch? ==> EachAgrees(t.children) && (t.kind == Structure ==> FieldsAgree(t.children))
  }

  ghost predicate EachAgrees(ts: seq<Tree>)
    decreases ts, 0
  {
    forall i :: 0 <= i < |ts| ==> RepeatsAgree(ts[i])
  }

  ghost predicate FieldsAgree(ts: seq<Tree>)
  {
    forall i :: 0 <= i < |ts| ==> AgreesWithFirst(ts, i)
  }

  ghost predicate AgreesWithFirst(ts: seq<Tree>, i: nat)
    requires i < |ts|
  {
    Find(ts, ts[i].tag).Some? && Same(FirstsOf(ts[i]), FirstsOf(Find(ts, ts[i].tag).value))
  }

  lemma {:induction false} FindAppend(ts: seq<Tree>, t: Tree, tag: Tag)
    ensures Find(ts + [t], tag)
         == if Find(ts, tag).Some? then Find(ts, tag) else if t.tag == tag then Some(t) else None
  {
    if ts != [] {
      FindAppend(ts[1..], t, tag);
      assert (ts + [t])[1..] == ts[1..] + [t];
    }
  }

  lemma {:induction false} KeepFirstFinds(ts: seq<Tree>, tag: Tag)
    ensures Find(KeepFirst(ts), tag) == Find(ts, tag)
  {
    if ts != [] {
      var before, last := ts[..|ts| - 1], ts[|ts| - 1];
      KeepFirstFinds(before, tag);
      FindAppend(before, last, tag);
      FindAppend(KeepFirst(before), last, tag);
      assert ts == before + [last];
    }
  }

  lemma {:induction false} KeepFirstDistinct(ts: seq<Tree>)
    ensures DistinctTags(KeepFirst(ts))
  {
    if ts != [] {
      var before, last := ts[..|ts| - 1], ts[|ts| - 1];
      KeepFirstDistinct(before);
      KeepFirstFinds(before, last.tag);
      if Find(before, last.tag).None? {
        NewTagIsDistinct(KeepFirst(before), last);
      }
    }
  }

  lemma NewTagIsDistinct(ts: seq<Tree>, t: Tree)
    requires DistinctTags(ts) && Find(ts, t.tag).None?
    ensures DistinctTags(ts + [t])
  {
  }

  lemma {:induction false} KeepFirstKeeps(ts: seq<Tree>, k: nat)
    requires k < |KeepFirst(ts)|
    ensures KeepFirst(ts)[k] in ts
  {
    var before, last := ts[..|ts| - 1], ts[|ts| - 1];
    if k < |KeepFirst(before)| {
      KeepFirstKeeps(before, k);
      assert KeepFirst(ts)[k] == KeepFirst(before)[k];
    }
  }

  /** Where a tree that is found stands. */
  lemma Position(ts: seq<Tree>, tag: Tag) returns (i: nat)
    requires Find(ts, tag).Some?
    ensures i < |ts| && ts[i] == Find(ts, tag).value && ts[i].tag == tag
  {
    assert Find(ts, tag).value in ts;
    i :| 0 <= i < |ts| && ts[i] == Find(ts, tag).value;
  }

  lemma {:induction false} FindsFirsts(ts: seq<Tree>, tag: Tag)
    ensures Find(FirstsEach(ts), tag)
         == match Find(ts, tag) case None => None case Some(t) => Some(FirstsOf(t))
  {
    if ts != [] {
      FindsFirsts(ts[1..], tag);
      assert FirstsEach(ts)[1..] == FirstsEach(ts[1..]);
    }
  }

  /** Looking up a tag among the kept fields. */
  lemma FindsKept(ts: seq<Tree>, tag: Tag)
    ensures Find(KeepFirst(FirstsEach(ts)), tag)
         == match Find(ts, tag) case None => None case Some(t) => Some(FirstsOf(t))
  {
    KeepFirstFinds(FirstsEach(ts), tag);
    FindsFirsts(ts, tag);
  }

  lemma {:induction false} FirstsAreDistinct(t: Tree)
    ensures DistinctFields(FirstsOf(t))
    decreases t, 1
  {
    if t.Branch? {
      EachFirstsDistinct(t.children);
      if t.kind == Structure {
        KeptAreDistinct(t.children);
      }
    }
  }

  lemma {:induction false} EachFirstsDistinct(ts: seq<Tree>)
    ensures AllDistinct(FirstsEach(ts))
    decreases ts, 0
  {
    forall i | 0 <= i < |ts| ensures DistinctFields(FirstsOf(ts[i])) {
      FirstsAreDistinct(ts[i]);
    }
  }

  lemma {:induction false} KeptAreDistinct(ts: seq<Tree>)
    ensures var kept := KeepFirst(FirstsEach(ts)); AllDistinct(kept) && DistinctTags(kept)
    decreases ts, 1
  {
    var kept := KeepFirst(FirstsEach(ts));
    EachFirstsDistinct(ts);
    KeepFirstDistinct(FirstsEach(ts));
    forall k | 0 <= k < |kept| ensures DistinctFields(kept[k]) {
      KeepFirstKeeps(FirstsEach(ts), k);
    }
  }

  // ---- Sameness of trees without repeated tags is an equivalence ----

  /** Each field of ours is the same as the one of theirs with its tag, and they have no other. */
  ghost predicate ByTag(xs: seq<Tree>, ys: seq<Tree>)
  {
    && (forall i :: 0 <= i < |xs| ==> SameByTag(xs[i], ys))
    && (forall j :: 0 <= j < |ys| ==> Find(xs, ys[j].tag).Some?)
  }

  ghost predicate SameByTag(x: Tree, ys: seq<Tree>)
  {
    Find(ys, x.tag).Some? && Same(x, Find(ys, x.tag).value)
  }

  lemma ReorderedIsByTag(xs: seq<Tree>, ys: seq<Tree>)
    requires AllDistinct(xs) && AllDistinct(ys) && DistinctTags(xs) && DistinctTags(ys)
    ensures SameReordered(xs, ys) <==> ByTag(xs, ys)
  {
    var rules: Rules := _ => None;
    FieldsMatch(rules, [], xs, ys);
    OursIff(rules, [], xs, ys);
    TheirsIff(rules, [], xs, ys);
    forall i | 0 <= i < |xs| ensures FieldMatches(rules, [], xs[i], ys) <==> SameByTag(xs[i], ys) {
      FieldIsByTag(rules, xs[i], ys);
    }
  }

  lemma FieldIsByTag(rules: Rules, x: Tree, ys: seq<Tree>)
    requires DistinctFields(x) && AllDistinct(ys)
    ensures FieldMatches(rules, [], x, ys) <==> SameByTag(x, ys)
  {
    if Find(ys, x.tag).Some? {
      PairMatches(rules, [], x, Find(ys, x.tag).value);
    }
  }

  lemma {:induction false} SameIsReflexive(a: Tree)
    requires DistinctFields(a)
    ensures Same(a, a)
    decreases a
  {
    if a.Branch? {
      forall i | 0 <= i < |a.children| ensures Same(a.children[i], a.children[i]) {
        SameIsReflexive(a.children[i]);
      }
      assert SameAfter(a.children, a.children, a.children);
    }
  }

  lemma {:induction false} SameIsSymmetric(a: Tree, b: Tree)
    requires DistinctFields(a) && DistinctFields(b) && Same(a, b)
    ensures Same(b, a)
    decreases a
  {
    if a.Branch? {
      var xs, ys := a.children, b.children;
      if a.kind == Structure {
        ReorderedIsByTag(xs, ys);
        ReorderedIsByTag(ys, xs);
        forall j | 0 <= j < |ys| ensures SameByTag(ys[j], xs) {
          var i := Position(xs, ys[j].tag);
          assert SameByTag(xs[i], ys);
          FindsByTag(ys, j);
          SameIsSymmetric(xs[i], ys[j]);
        }
        forall i | 0 <= i < |xs| ensures Find(ys, xs[i].tag).Some? {
          assert SameByTag(xs[i], ys);
        }
      } else {
        forall i | 0 <= i < |xs| ensures Same(ys[i], xs[i]) {
          SameIsSymmetric(xs[i], ys[i]);
        }
      }
    }
  }

  lemma TagsReachBack(xs: seq<Tree>, ys: seq<Tree>, zs: seq<Tree>, j: nat)
    requires ByTag(xs, ys) && ByTag(ys, zs) && j < |zs|
    ensures Find(xs, zs[j].tag).Some?
  {
    assert Find(ys, zs[j].tag).Some?;
    var k := Position(ys, zs[j].tag);
    assert Find(xs, ys[k].tag).Some?;
  }

  lemma {:induction false} SameIsTransitive(a: Tree, b: Tree, c: Tree)
    requires DistinctFields(a) && DistinctFields(b) && DistinctFields(c) && Same(a, b) && Same(b, c)
    ensures Same(a, c)
    decreases a
  {
    if a.Branch? {
      var xs, ys, zs := a.children, b.children, c.children;
      if a.kind == Structure {
        ReorderedIsByTag(xs, ys);
        ReorderedIsByTag(ys, zs);
        ReorderedIsByTag(xs, zs);
        forall i | 0 <= i < |xs| ensures SameByTag(xs[i], zs) {
          assert SameByTag(xs[i], ys);
          var k := Position(ys, xs[i].tag);
          assert SameByTag(ys[k], zs);
          SameIsTransitive(xs[i], ys[k], Find(zs, ys[k].tag).value);
        }
        forall j | 0 <= j < |zs| ensures Find(xs, zs[j].tag).Some? {
          TagsReachBack(xs, ys, zs, j);
        }
      } else {
        forall i | 0 <= i < |xs| ensures Same(xs[i], zs[i]) {
          SameIsTransitive(xs[i], ys[i], zs[i]);
        }
      }
    }
  }

  /** Two trees that are both the same as a third. */
  lemma SameAsThird(a: Tree, b: Tree, c: Tree)
    requires DistinctFields(a) && DistinctFields(b) && DistinctFields(c) && Same(b, c)
    ensures Same(a, c) <==> Same(a, b)
  {
    if Same(a, b) {
      SameIsTransitive(a, b, c);
    }
    if Same(a, c) {
      SameIsSymmetric(b, c);
      SameIsTransitive(a, c, b);
    }
  }

  // ---- What a match means ----

  /** The first of ours with the tag of the `i`-th is the same as the first of theirs. */
  ghost predicate FirstSame(xs: seq<Tree>, ys: seq<Tree>, i: nat)
    requires i < |xs|
  {
    && Find(xs, xs[i].tag).Some? && Find(ys, xs[i].tag).Some?
    && Same(FirstsOf(Find(xs, xs[i].tag).value), FirstsOf(Find(ys, xs[i].tag).value))
  }

  lemma {:induction false} FindsItself(ts: seq<Tree>, i: nat)
    requires i < |ts|
    ensures Find(ts, ts[i].tag).Some?
  {
  }

  lemma KeptByTag(xs: seq<Tree>, ys: seq<Tree>, i: nat)
    requires i < |xs| && ByTag(KeepFirst(FirstsEach(xs)), KeepFirst(FirstsEach(ys)))
    ensures FirstSame(xs, ys, i)
  {
    var kept, theirs := KeepFirst(FirstsEach(xs)), KeepFirst(FirstsEach(ys));
    var tag := xs[i].tag;
    FindsItself(xs, i);
    FindsKept(xs, tag);
    FindsKept(ys, tag);
    var k := Position(kept, tag);
    assert SameByTag(kept[k], theirs);
  }

  lemma KeptTags(xs: seq<Tree>, ys: seq<Tree>, j: nat)
    requires j < |ys| && ByTag(KeepFirst(FirstsEach(xs)), KeepFirst(FirstsEach(ys)))
    ensures Find(xs, ys[j].tag).Some?
  {
    var kept, theirs := KeepFirst(FirstsEach(xs)), KeepFirst(FirstsEach(ys));
    var tag := ys[j].tag;
    FindsItself(ys, j);
    FindsKept(xs, tag);
    FindsKept(ys, tag);
    var k := Position(theirs, tag);
    assert Find(kept, theirs[k].tag).Some?;
  }

  lemma FirstsByTag(xs: seq<Tree>, ys: seq<Tree>)
    requires forall i :: 0 <= i < |xs| ==> FirstSame(xs, ys, i)
    requires forall j :: 0 <= j < |ys| ==> Find(xs, ys[j].tag).Some?
    ensures ByTag(KeepFirst(FirstsEach(xs)), KeepFirst(FirstsEach(ys)))
  {
    var kept, theirs := KeepFirst(FirstsEach(xs)), KeepFirst(FirstsEach(ys));
    KeepFirstDistinct(FirstsEach(xs));
    forall k | 0 <= k < |kept| ensures SameByTag(kept[k], theirs) {
      KeepFirstKeeps(FirstsEach(xs), k);
      var i :| 0 <= i < |xs| && FirstsEach(xs)[i] == kept[k];
      assert FirstSame(xs, ys, i);
      FindsByTag(kept, k);
      FindsKept(xs, xs[i].tag);
      FindsKept(ys, xs[i].tag);
    }
    forall k | 0 <= k < |theirs| ensures Find(kept, theirs[k].tag).Some? {
      KeepFirstKeeps(FirstsEach(ys), k);
      var j :| 0 <= j < |ys| && FirstsEach(ys)[j] == theirs[k];
      FindsKept(xs, ys[j].tag);
    }
  }

  /** The kept fields are the same up to order exactly when each first of ours is the same as
      the first of theirs, and they have no tag that we have not. */
  lemma KeptReordered(xs: seq<Tree>, ys: seq<Tree>)
    ensures SameReordered(KeepFirst(FirstsEach(xs)), KeepFirst(FirstsEach(ys))) <==>
      && (forall i :: 0 <= i < |xs| ==> FirstSame(xs, ys, i))
      && (forall j :: 0 <= j < |ys| ==> Find(xs, ys[j].tag).Some?)
  {
    KeptAreDistinct(xs);
    KeptAreDistinct(ys);
    ReorderedIsByTag(KeepFirst(FirstsEach(xs)), KeepFirst(FirstsEach(ys)));
    if ByTag(KeepFirst(FirstsEach(xs)), KeepFirst(FirstsEach(ys))) {
      forall i | 0 <= i < |xs| ensures FirstSame(xs, ys, i) {
        KeptByTag(xs, ys, i);
      }
      forall j | 0 <= j < |ys| ensures Find(xs, ys[j].tag).Some? {
        KeptTags(xs, ys, j);
      }
    }
    if (forall i :: 0 <= i < |xs| ==> FirstSame(xs, ys, i)) && (forall j :: 0 <= j < |ys| ==> Find(xs, ys[j].tag).Some?) {
      FirstsByTag(xs, ys);
    }
  }

  /** One of our fields is the same as their first, exactly when it is the same as our first
      and the firsts are the same. */
  lemma FieldMeans(xs: seq<Tree>, ys: seq<Tree>, i: nat)
    requires i < |xs| && FirstSame(xs, ys, i)
    ensures AgreesWithFirst(xs, i) <==> Same(FirstsOf(xs[i]), FirstsOf(Find(ys, xs[i].tag).value))
  {
    var x, y := Find(xs, xs[i].tag).value, Find(ys, xs[i].tag).value;
    FirstsAreDistinct(xs[i]);
    FirstsAreDistinct(x);
    FirstsAreDistinct(y);
    SameAsThird(FirstsOf(xs[i]), FirstsOf(x), FirstsOf(y));
  }

  /** Every field of ours against the first of theirs. */
  ghost predicate FieldsFit(xs: seq<Tree>, ys: seq<Tree>)
  {
    forall i :: 0 <= i < |xs| ==> FieldFits(xs[i], ys)
  }

  ghost predicate FieldFits(x: Tree, ys: seq<Tree>)
  {
    Find(ys, x.tag).Some? && Same(FirstsOf(x), FirstsOf(Find(ys, x.tag).value))
  }

  lemma FieldsFitIff(xs: seq<Tree>, ys: seq<Tree>)
    ensures FieldsFit(xs, ys) <==> FieldsAgree(xs) && forall i :: 0 <= i < |xs| ==> FirstSame(xs, ys, i)
  {
    if FieldsFit(xs, ys) {
      forall i | 0 <= i < |xs| ensures FirstSame(xs, ys, i) {
        FindsItself(xs, i);
        var k := Position(xs, xs[i].tag);
        assert FieldFits(xs[k], ys);
      }
      forall i | 0 <= i < |xs| ensures AgreesWithFirst(xs, i) {
        assert FieldFits(xs[i], ys);
        FieldMeans(xs, ys, i);
      }
    }
    if FieldsAgree(xs) && forall i :: 0 <= i < |xs| ==> FirstSame(xs, ys, i) {
      forall i | 0 <= i < |xs| ensures FieldFits(xs[i], ys) {
        assert AgreesWithFirst(xs, i) && FirstSame(xs, ys, i);
        FieldMeans(xs, ys, i);
      }
    }
  }

  lemma {:induction false} PairMeans(rules: Rules, path: Path, a: Tree, b: Tree)
    ensures ComparePair(rules, path, a, b) == NOTHING <==> Same(FirstsOf(a), FirstsOf(b)) && RepeatsAgree(a)
    decreases a, 1
  {
    if a.Branch? && b.Branch? && a.tag == b.tag && a.kind == b.kind {
      if a.kind == Structure {
        FieldsMean(rules, path + [a.tag], a.children, b.children);
      } else {
        ItemsMean(rules, path + [a.tag], a.children, b.children);
      }
    }
  }

  lemma {:induction false} ItemsMean(rules: Rules, path: Path, xs: seq<Tree>, ys: seq<Tree>)
    ensures CompareItems(rules, path, xs, ys) == NOTHING <==>
      SameInOrder(FirstsEach(xs), FirstsEach(ys)) && EachAgrees(xs)
    decreases xs, 0
  {
    if |xs| == |ys| {
      ZipIff(rules, path, xs, ys);
      forall i | 0 <= i < |xs|
        ensures ComparePair(rules, path, xs[i], ys[i]) == NOTHING <==>
          Same(FirstsOf(xs[i]), FirstsOf(ys[i])) && RepeatsAgree(xs[i])
      {
        PairMeans(rules, path, xs[i], ys[i]);
      }
      ItemsTogether(rules, path, xs, ys);
    }
  }

  lemma ItemsTogether(rules: Rules, path: Path, xs: seq<Tree>, ys: seq<Tree>)
    requires |xs| == |ys|
    requires forall i :: 0 <= i < |xs| ==>
      (ComparePair(rules, path, xs[i], ys[i]) == NOTHING <==> Same(FirstsOf(xs[i]), FirstsOf(ys[i])) && RepeatsAgree(xs[i]))
    ensures (forall i :: 0 <= i < |xs| ==> ComparePair(rules, path, xs[i], ys[i]) == NOTHING) <==>
      SameInOrder(FirstsEach(xs), FirstsEach(ys)) && EachAgrees(xs)
  {
    if SameInOrder(FirstsEach(xs), FirstsEach(ys)) && EachAgrees(xs) {
      forall i | 0 <= i < |xs| ensures ComparePair(rules, path, xs[i], ys[i]) == NOTHING {
        assert Same(FirstsEach(xs)[i], FirstsEach(ys)[i]);
      }
    }
  }

  lemma {:induction false} FieldsMean(rules: Rules, path: Path, xs: seq<Tree>, ys: seq<Tree>)
    ensures CompareFields(rules, path, xs, ys) == NOTHING <==>
      && SameReordered(KeepFirst(FirstsEach(xs)), KeepFirst(FirstsEach(ys)))
      && EachAgrees(xs) && FieldsAgree(xs)
    decreases xs, 0
  {
    OursIff(rules, path, xs, ys);
    TheirsIff(rules, path, xs, ys);
    forall i | 0 <= i < |xs|
      ensures FieldMatches(rules, path, xs[i], ys) <==> FieldFits(xs[i], ys) && RepeatsAgree(xs[i])
    {
      if Find(ys, xs[i].tag).Some? {
        PairMeans(rules, path, xs[i], Find(ys, xs[i].tag).value);
      }
    }
    FieldsTogether(rules, path, xs, ys);
    FieldsFitIff(xs, ys);
    KeptReordered(xs, ys);
  }

  lemma FieldsTogether(rules: Rules, path: Path, xs: seq<Tree>, ys: seq<Tree>)
    requires forall i :: 0 <= i < |xs| ==>
      (FieldMatches(rules, path, xs[i], ys) <==> FieldFits(xs[i], ys) && RepeatsAgree(xs[i]))
    ensures (forall i :: 0 <= i < |xs| ==> FieldMatches(rules, path, xs[i], ys)) <==> FieldsFit(xs, ys) && EachAgrees(xs)
  {
  }

  /** Two payloads match, under any rules, exactly when they are the same once only the first
      field of each tag is kept, and every repeat of ours is the same as our first. */
  lemma MatchMeans(rules: Rules, ours: seq<Tree>, theirs: seq<Tree>)
    ensures Compare(rules, ours, theirs) == Match <==>
      SameInOrder(FirstsEach(ours), FirstsEach(theirs)) && EachAgrees(ours)
  {
    ItemsMean(rules, [], ours, theirs);
  }

  // ---- Without repeated tags ----

  lemma {:induction false} KeepsDistinct(ts: seq<Tree>)
    requires DistinctTags(ts)
    ensures KeepFirst(ts) == ts
  {
    if ts != [] {
      var before, last := ts[..|ts| - 1], ts[|ts| - 1];
      KeepsDistinct(before);
      assert Find(before, last.tag).None?;
      assert ts == before + [last];
    }
  }

  lemma {:induction false} DistinctIsFirsts(t: Tree)
    requires DistinctFields(t)
    ensures FirstsOf(t) == t && RepeatsAgree(t)
    decreases t, 1
  {
    if t.Branch? {
      EachIsFirsts(t.children);
      if t.kind == Structure {
        KeepsDistinct(t.children);
        forall i | 0 <= i < |t.children| ensures AgreesWithFirst(t.children, i) {
          FindsByTag(t.children, i);
          SameIsReflexive(t.children[i]);
        }
      }
    }
  }

  lemma {:induction false} EachIsFirsts(ts: seq<Tree>)
    requires AllDistinct(ts)
    ensures FirstsEach(ts) == ts && EachAgrees(ts)
    decreases ts, 0
  {
    forall i | 0 <= i < |ts| ensures FirstsOf(ts[i]) == ts[i] && RepeatsAgree(ts[i]) {
      DistinctIsFirsts(ts[i]);
    }
  }

  /** Without repeated tags a match means equality up to the order of fields. */
  lemma MatchIff(rules: Rules, ours: seq<Tree>, theirs: seq<Tree>)
    requires AllDistinct(ours) && AllDistinct(theirs)
    ensures Compare(rules, ours, theirs) == Match <==> SameInOrder(ours, theirs)
  {
    MatchMeans(rules, ours, theirs);
    EachIsFirsts(ours);
    EachIsFirsts(theirs);
  }

  /** With a repeated tag it means less: two equal fields match one. */
  lemma RepeatedTagMatches(rules: Rules, v: Tlv.Value)
    ensures var x := Leaf(Context(1), v);
            var ours, theirs := Branch(Anonymous, Structure, [x, x]), Branch(Anonymous, Structure, [x]);
            Compare(rules, [ours], [theirs]) == Match && !SameInOrder([ours], [theirs])
  {
    var x := Leaf(Context(1), v);
    var ours, theirs := Branch(Anonymous, Structure, [x, x]), Branch(Anonymous, Structure, [x]);
    var path: Path := [Anonymous];
    assert [] + [Anonymous] == path;
    assert FieldMatches(rules, path, x, [x]) && Find([x, x], x.tag).Some?;
    OursIff(rules, path, [x, x], [x]);
    TheirsIff(rules, path, [x, x], [x]);
    assert ComparePair(rules, [], ours, theirs) == NOTHING;
    ZipIff(rules, [], [ours], [theirs]);
    SameCountsFields(ours, theirs);
    assert [ours][0] == ours && [theirs][0] == theirs;
  }
}
