/** What the verdict says: every difference between two payloads that their rule does not
    excuse is listed and makes them divergent, every excused one is listed as such, and nothing
    else is listed. */
module TraceVerdict {
  import opened Wire
  import opened Tlv
  import opened TraceTree
  import opened TraceCompare

  // ---- Differences ----

  predicate SameType(v: Value, w: Value)
  {
    && v.Bool? == w.Bool? && v.Uint? == w.Uint? && v.Int? == w.Int? && v.Float? == w.Float? && v.Double? == w.Double?
    && v.Utf8? == w.Utf8? && v.Bytes? == w.Bytes? && v.Null? == w.Null?
  }

  predicate SameLength(v: Value, w: Value)
  {
    (v.Utf8? && w.Utf8? ==> |v.text| == |w.text|) && (v.Bytes? && w.Bytes? ==> |v.raw| == |w.raw|)
  }

  /** The rule lets these two values differ: any rule keeps the type, and random values keep
      their length. */
  predicate Excused(rule: Option<VarianceClass>, v: Value, w: Value)
  {
    rule.Some? && SameType(v, w) && (rule.value == Random ==> SameLength(v, w))
  }

  /** The first tree with a tag. */
  predicate FirstWith(ts: seq<Tree>, tag: Tag, k: nat)
  {
    k < |ts| && ts[k].tag == tag && forall m :: 0 <= m < k ==> ts[m].tag != tag
  }

  predicate Lacks(ts: seq<Tree>, tag: Tag)
  {
    forall k :: 0 <= k < |ts| ==> ts[k].tag != tag
  }

  /** A field that one side lacks; only an optional one is excused. */
  predicate Missing(rules: Rules, here: Path, tag: Tag, at: Path, excused: bool)
  {
    at == here + [tag] && (excused <==> rules(at) == Some(OptionalField))
  }

  /** Below the pair of `a` and `b`, reached at `path`, there is a difference at `at`, excused by
      its rule or not. */
  ghost predicate Differ(rules: Rules, path: Path, a: Tree, b: Tree, at: Path, excused: bool)
    decreases a, 2
  {
    if a.Leaf? && b.Leaf? then
      && at == path + [a.tag]
      && if a.tag != b.tag then !excused
         else a.value != b.value && (excused <==> Excused(rules(at), a.value, b.value))
    else if a.Branch? && b.Branch? then
      if a.tag != b.tag || a.kind != b.kind then at == path + [a.tag] && !excused
      else if a.kind == Structure then FieldsDiffer(rules, path + [a.tag], a.children, b.children, at, excused)
      else ItemsDiffer(rules, path + [a.tag], a.children, b.children, at, excused)
    else at == path && !excused
  }

  /** A field of ours against the first of theirs with its tag. */
  ghost predicate FieldDiffers(rules: Rules, here: Path, x: Tree, ys: seq<Tree>, at: Path, excused: bool)
    decreases x, 3
  {
    || (exists k: nat :: FirstWith(ys, x.tag, k) && Differ(rules, here, x, ys[k], at, excused))
    || (Lacks(ys, x.tag) && Missing(rules, here, x.tag, at, excused))
  }

  ghost predicate FieldsDiffer(rules: Rules, here: Path, xs: seq<Tree>, ys: seq<Tree>, at: Path, excused: bool)
    decreases xs, 0
  {
    || (exists i :: 0 <= i < |xs| && FieldDiffers(rules, here, xs[i], ys, at, excused))
    || (exists j :: 0 <= j < |ys| && Lacks(xs, ys[j].tag) && Missing(rules, here, ys[j].tag, at, excused))
  }

  /** Items stand against those at the same position, and there must be as many. */
  ghost predicate ItemsDiffer(rules: Rules, here: Path, xs: seq<Tree>, ys: seq<Tree>, at: Path, excused: bool)
    decreases xs, 0
  {
    if |xs| != |ys| then at == here && !excused
    else exists i :: 0 <= i < |xs| && Differ(rules, here, xs[i], ys[i], at, excused)
  }

  // ---- What is listed ----

  predicate Listed(r: Report, at: Path, excused: bool)
  {
    if excused then at in r.classified else at in r.diffs
  }

  lemma JoinLists(r: Report, s: Report, at: Path, excused: bool)
    ensures Listed(Join(r, s), at, excused) <==> Listed(r, at, excused) || Listed(s, at, excused)
  {
  }

  lemma {:induction false} FirstIsFound(ts: seq<Tree>, tag: Tag, k: nat)
    requires FirstWith(ts, tag, k)
    ensures Find(ts, tag) == Some(ts[k])
  {
    if k > 0 {
      forall m | 0 <= m < k - 1 ensures ts[1..][m].tag != tag {
        assert ts[1..][m] == ts[m + 1];
      }
      FirstIsFound(ts[1..], tag, k - 1);
    }
  }

  lemma {:induction false} FoundIsFirst(ts: seq<Tree>, tag: Tag) returns (k: nat)
    requires Find(ts, tag).Some?
    ensures FirstWith(ts, tag, k)
  {
    if ts[0].tag == tag {
      k := 0;
    } else {
      k := FoundIsFirst(ts[1..], tag);
      forall m | 0 < m < k + 1 ensures ts[m].tag != tag {
        assert ts[1..][m - 1] == ts[m];
      }
      k := k + 1;
    }
  }

  lemma LacksIff(ts: seq<Tree>, tag: Tag)
    ensures Find(ts, tag).None? <==> Lacks(ts, tag)
  {
    if Find(ts, tag).Some? {
      var k := FoundIsFirst(ts, tag);
    }
  }

  lemma ValuesListed(rules: Rules, path: Path, v: Value, w: Value, at: Path, excused: bool)
    ensures Listed(CompareValues(rules, path, v, w), at, excused) <==>
      at == path && (excused <==> Excused(rules(path), v, w))
  {
  }

  lemma OneSidedListed(rules: Rules, path: Path, tag: Tag, at: Path, excused: bool)
    ensures Listed(OneSided(rules, path, tag), at, excused) <==> Missing(rules, path, tag, at, excused)
  {
  }

  lemma {:induction false} PairListed(rules: Rules, path: Path, a: Tree, b: Tree, at: Path, excused: bool)
    ensures Listed(ComparePair(rules, path, a, b), at, excused) <==> Differ(rules, path, a, b, at, excused)
    decreases a, 2
  {
    if a.Leaf? && b.Leaf? {
      ValuesListed(rules, path + [a.tag], a.value, b.value, at, excused);
    } else if a.Branch? && b.Branch? && a.tag == b.tag && a.kind == b.kind {
      if a.kind == Structure {
        FieldsListed(rules, path + [a.tag], a.children, b.children, at, excused);
      } else {
        ItemsListed(rules, path + [a.tag], a.children, b.children, at, excused);
      }
    }
  }

  /** What is found for one field of ours. */
  function OneOfOurs(rules: Rules, path: Path, x: Tree, ys: seq<Tree>): (r: Report)
  {
    match Find(ys, x.tag)
    case Some(y) => ComparePair(rules, path, x, y)
    case None => OneSided(rules, path, x.tag)
  }

  lemma {:induction false} FieldListed(rules: Rules, path: Path, x: Tree, ys: seq<Tree>, at: Path, excused: bool)
    ensures Listed(OneOfOurs(rules, path, x, ys), at, excused) <==> FieldDiffers(rules, path, x, ys, at, excused)
    decreases x, 3
  {
    LacksIff(ys, x.tag);
    if Find(ys, x.tag).Some? {
      var k := FoundIsFirst(ys, x.tag);
      forall m: nat | FirstWith(ys, x.tag, m) ensures ys[m] == Find(ys, x.tag).value {
        FirstIsFound(ys, x.tag, m);
      }
      PairListed(rules, path, x, Find(ys, x.tag).value, at, excused);
    } else {
      OneSidedListed(rules, path, x.tag, at, excused);
    }
  }

  lemma {:induction false} OursListed(rules: Rules, path: Path, xs: seq<Tree>, ys: seq<Tree>, at: Path, excused: bool)
    ensures Listed(CompareOurs(rules, path, xs, ys), at, excused) <==>
      exists i :: 0 <= i < |xs| && FieldDiffers(rules, path, xs[i], ys, at, excused)
    decreases xs, 0
  {
    if xs != [] {
      FieldListed(rules, path, xs[0], ys, at, excused);
      OursListed(rules, path, xs[1..], ys, at, excused);
      JoinLists(OneOfOurs(rules, path, xs[0], ys), CompareOurs(rules, path, xs[1..], ys), at, excused);
      ShiftOurs(rules, path, xs, ys, at, excused);
    }
  }

  lemma ShiftOurs(rules: Rules, path: Path, xs: seq<Tree>, ys: seq<Tree>, at: Path, excused: bool)
    requires xs != []
    ensures (exists i :: 0 <= i < |xs| && FieldDiffers(rules, path, xs[i], ys, at, excused)) <==>
      || FieldDiffers(rules, path, xs[0], ys, at, excused)
      || exists i :: 0 <= i < |xs[1..]| && FieldDiffers(rules, path, xs[1..][i], ys, at, excused)
  {
    if i :| 0 <= i < |xs| && FieldDiffers(rules, path, xs[i], ys, at, excused) {
      assert i == 0 || xs[1..][i - 1] == xs[i];
    }
    if i :| 0 <= i < |xs[1..]| && FieldDiffers(rules, path, xs[1..][i], ys, at, excused) {
      assert xs[i + 1] == xs[1..][i];
    }
  }

  /** A field of theirs that we lack. */
  predicate OnlyTheirs(rules: Rules, path: Path, xs: seq<Tree>, y: Tree, at: Path, excused: bool)
  {
    Lacks(xs, y.tag) && Missing(rules, path, y.tag, at, excused)
  }

  lemma {:induction false} TheirsListed(rules: Rules, path: Path, xs: seq<Tree>, ys: seq<Tree>, at: Path, excused: bool)
    ensures Listed(CompareTheirs(rules, path, xs, ys), at, excused) <==>
      exists j :: 0 <= j < |ys| && OnlyTheirs(rules, path, xs, ys[j], at, excused)
    decreases |ys|
  {
    if ys != [] {
      LacksIff(xs, ys[0].tag);
      OneSidedListed(rules, path, ys[0].tag, at, excused);
      TheirsListed(rules, path, xs, ys[1..], at, excused);
      var first := if Find(xs, ys[0].tag).None? then OneSided(rules, path, ys[0].tag) else NOTHING;
      JoinLists(first, CompareTheirs(rules, path, xs, ys[1..]), at, excused);
      ShiftTheirs(rules, path, xs, ys, at, excused);
    }
  }

  lemma ShiftTheirs(rules: Rules, path: Path, xs: seq<Tree>, ys: seq<Tree>, at: Path, excused: bool)
    requires ys != []
    ensures (exists j :: 0 <= j < |ys| && OnlyTheirs(rules, path, xs, ys[j], at, excused)) <==>
      || OnlyTheirs(rules, path, xs, ys[0], at, excused)
      || exists j :: 0 <= j < |ys[1..]| && OnlyTheirs(rules, path, xs, ys[1..][j], at, excused)
  {
    if j :| 0 <= j < |ys| && OnlyTheirs(rules, path, xs, ys[j], at, excused) {
      assert j == 0 || ys[1..][j - 1] == ys[j];
    }
    if j :| 0 <= j < |ys[1..]| && OnlyTheirs(rules, path, xs, ys[1..][j], at, excused) {
      assert ys[j + 1] == ys[1..][j];
    }
  }

  lemma {:induction false} FieldsListed(rules: Rules, path: Path, xs: seq<Tree>, ys: seq<Tree>, at: Path, excused: bool)
    ensures Listed(CompareFields(rules, path, xs, ys), at, excused) <==> FieldsDiffer(rules, path, xs, ys, at, excused)
    decreases xs, 1
  {
    OursListed(rules, path, xs, ys, at, excused);
    TheirsListed(rules, path, xs, ys, at, excused);
    JoinLists(CompareOurs(rules, path, xs, ys), CompareTheirs(rules, path, xs, ys), at, excused);
    assert (exists j :: 0 <= j < |ys| && OnlyTheirs(rules, path, xs, ys[j], at, excused)) <==>
           exists j :: 0 <= j < |ys| && Lacks(xs, ys[j].tag) && Missing(rules, path, ys[j].tag, at, excused);
  }

  lemma {:induction false} ZipListed(rules: Rules, path: Path, xs: seq<Tree>, ys: seq<Tree>, at: Path, excused: bool)
    requires |xs| == |ys|
    ensures Listed(CompareZip(rules, path, xs, ys), at, excused) <==>
      exists i :: 0 <= i < |xs| && Differ(rules, path, xs[i], ys[i], at, excused)
    decreases xs, 0
  {
    if xs != [] {
      PairListed(rules, path, xs[0], ys[0], at, excused);
      ZipListed(rules, path, xs[1..], ys[1..], at, excused);
      JoinLists(ComparePair(rules, path, xs[0], ys[0]), CompareZip(rules, path, xs[1..], ys[1..]), at, excused);
      ShiftZip(rules, path, xs, ys, at, excused);
    }
  }

  lemma ShiftZip(rules: Rules, path: Path, xs: seq<Tree>, ys: seq<Tree>, at: Path, excused: bool)
    requires |xs| == |ys| > 0
    ensures (exists i :: 0 <= i < |xs| && Differ(rules, path, xs[i], ys[i], at, excused)) <==>
      || Differ(rules, path, xs[0], ys[0], at, excused)
      || exists i :: 0 <= i < |xs[1..]| && Differ(rules, path, xs[1..][i], ys[1..][i], at, excused)
  {
    if i :| 0 <= i < |xs| && Differ(rules, path, xs[i], ys[i], at, excused) {
      assert i == 0 || (xs[1..][i - 1] == xs[i] && ys[1..][i - 1] == ys[i]);
    }
    if i :| 0 <= i < |xs[1..]| && Differ(rules, path, xs[1..][i], ys[1..][i], at, excused) {
      assert xs[i + 1] == xs[1..][i] && ys[i + 1] == ys[1..][i];
    }
  }

  lemma {:induction false} ItemsListed(rules: Rules, path: Path, xs: seq<Tree>, ys: seq<Tree>, at: Path, excused: bool)
    ensures Listed(CompareItems(rules, path, xs, ys), at, excused) <==> ItemsDiffer(rules, path, xs, ys, at, excused)
    decreases xs, 1
  {
    if |xs| == |ys| {
      ZipListed(rules, path, xs, ys, at, excused);
    }
  }

  // ---- The verdict ----

  /** Two payloads have a difference at `at`. */
  ghost predicate PayloadsDiffer(rules: Rules, ours: seq<Tree>, theirs: seq<Tree>, at: Path, excused: bool)
  {
    ItemsDiffer(rules, [], ours, theirs, at, excused)
  }

  lemma SomeIff(rules: Rules, ours: seq<Tree>, theirs: seq<Tree>, ps: seq<Path>, excused: bool)
    requires forall at :: at in ps <==> PayloadsDiffer(rules, ours, theirs, at, excused)
    ensures ps != [] <==> exists at :: PayloadsDiffer(rules, ours, theirs, at, excused)
  {
    if ps != [] {
      assert ps[0] in ps;
    }
  }

  lemma ListsAre(rules: Rules, ours: seq<Tree>, theirs: seq<Tree>)
    ensures var r := CompareItems(rules, [], ours, theirs);
            && (forall at :: at in r.diffs <==> PayloadsDiffer(rules, ours, theirs, at, false))
            && (forall at :: at in r.classified <==> PayloadsDiffer(rules, ours, theirs, at, true))
  {
    var r := CompareItems(rules, [], ours, theirs);
    forall at ensures at in r.diffs <==> PayloadsDiffer(rules, ours, theirs, at, false) {
      ItemsListed(rules, [], ours, theirs, at, false);
    }
    forall at ensures at in r.classified <==> PayloadsDiffer(rules, ours, theirs, at, true) {
      ItemsListed(rules, [], ours, theirs, at, true);
    }
  }

  /** Divergent exactly when some difference is not excused, and then all of those are listed and
      nothing else; a starred match exactly when there are differences and all are excused, and
      then they are listed; a match otherwise. */
  lemma VerdictIs(rules: Rules, ours: seq<Tree>, theirs: seq<Tree>)
    ensures var v := Compare(rules, ours, theirs);
            && (v.Divergent? <==> exists at :: PayloadsDiffer(rules, ours, theirs, at, false))
            && (v.Divergent? ==> forall at :: at in v.diffs <==> PayloadsDiffer(rules, ours, theirs, at, false))
            && (v.MatchStar? <==> !v.Divergent? && exists at :: PayloadsDiffer(rules, ours, theirs, at, true))
            && (v.MatchStar? ==> forall at :: at in v.classified <==> PayloadsDiffer(rules, ours, theirs, at, true))
  {
    var r := CompareItems(rules, [], ours, theirs);
    ListsAre(rules, ours, theirs);
    SomeIff(rules, ours, theirs, r.diffs, false);
    SomeIff(rules, ours, theirs, r.classified, true);
  }
}
