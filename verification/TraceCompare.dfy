/** Comparing two payload trees field by field, with the order of fields inside structures
    left free, and aligning two dialogues. */
module TraceCompare {
  import opened Wire
  import opened Tlv
  import opened TraceTree

  datatype VarianceClass = Random | RunSpecific | OptionalField

  type Path = seq<Tag>

  /** The rule for a path, which this model leaves open. */
  type Rules = Path -> Option<VarianceClass>

  /** What was found, by path: differences that a rule explains, and others. */
  datatype Report = Report(classified: seq<Path>, diffs: seq<Path>)

  const NOTHING: Report := Report([], [])

  function Join(r: Report, s: Report): (t: Report)
    ensures t == NOTHING <==> r == NOTHING && s == NOTHING
  {
    Report(r.classified + s.classified, r.diffs + s.diffs)
  }

  function Explained(path: Path): (r: Report)
  {
    Report([path], [])
  }

  function Difference(path: Path): (r: Report)
  {
    Report([], [path])
  }

  predicate SameVariant(v: Tlv.Value, w: Tlv.Value)
  {
    match v
    case Bool(_) => w.Bool?
    case Uint(_) => w.Uint?
    case Int(_) => w.Int?
    case Float(_) => w.Float?
    case Double(_) => w.Double?
    case Utf8(_) => w.Utf8?
    case Bytes(_) => w.Bytes?
    case Null => w.Null?
  }

  function ValueLen(v: Tlv.Value): (n: Option<nat>)
  {
    match v
    case Utf8(s) => Some(|s|)
    case Bytes(b) => Some(|b|)
    case _ => None
  }

  /** Two values that differ, under the rule for their path. */
  function CompareValues(rules: Rules, path: Path, v: Tlv.Value, w: Tlv.Value): (r: Report)
  {
    match rules(path)
    case None => Difference(path)
    case Some(Random) =>
      if !SameVariant(v, w) then Difference(path)
      else if ValueLen(v).Some? && ValueLen(w).Some? && ValueLen(v) != ValueLen(w) then Difference(path)
      else Explained(path)
    case Some(_) => if SameVariant(v, w) then Explained(path) else Difference(path)
  }

  function OneSided(rules: Rules, path: Path, tag: Tag): (r: Report)
  {
    if rules(path + [tag]) == Some(OptionalField) then Explained(path + [tag]) else Difference(path + [tag])
  }

  /** The first tree with a given tag. */
  function Find(ts: seq<Tree>, tag: Tag): (r: Option<Tree>)
    ensures r.Some? ==> r.value in ts && r.value.tag == tag
    ensures r.None? ==> forall i :: 0 <= i < |ts| ==> ts[i].tag != tag
  {
    if ts == [] then None else if ts[0].tag == tag then Some(ts[0]) else Find(ts[1..], tag)
  }

  function ComparePair(rules: Rules, path: Path, a: Tree, b: Tree): (r: Report)
    decreases a
  {
    if a.Leaf? && b.Leaf? then
      if a.tag != b.tag then Difference(path + [a.tag])
      else if a.value == b.value then NOTHING
      else CompareValues(rules, path + [a.tag], a.value, b.value)
    else if a.Branch? && b.Branch? then
      if a.tag != b.tag || a.kind != b.kind then Difference(path + [a.tag])
      else if a.kind == Structure then CompareFields(rules, path + [a.tag], a.children, b.children)
      else CompareItems(rules, path + [a.tag], a.children, b.children)
    else Difference(path)
  }

  /** Our fields, each against the field of the same tag. */
  function CompareOurs(rules: Rules, path: Path, xs: seq<Tree>, ys: seq<Tree>): (r: Report)
    decreases xs, 0
  {
    if xs == [] then NOTHING
    else
      var first := match Find(ys, xs[0].tag)
                   case Some(y) => ComparePair(rules, path, xs[0], y)
                   case None => OneSided(rules, path, xs[0].tag);
      Join(first, CompareOurs(rules, path, xs[1..], ys))
  }

  /** Their fields that we do not have. */
  function CompareTheirs(rules: Rules, path: Path, xs: seq<Tree>, ys: seq<Tree>): (r: Report)
    decreases ys
  {
    if ys == [] then NOTHING
    else
      Join(if Find(xs, ys[0].tag).None? then OneSided(rules, path, ys[0].tag) else NOTHING,
           CompareTheirs(rules, path, xs, ys[1..]))
  }

  function CompareFields(rules: Rules, path: Path, xs: seq<Tree>, ys: seq<Tree>): (r: Report)
    decreases xs, 1
  {
    Join(CompareOurs(rules, path, xs, ys), CompareTheirs(rules, path, xs, ys))
  }

  function CompareZip(rules: Rules, path: Path, xs: seq<Tree>, ys: seq<Tree>): (r: Report)
    requires |xs| == |ys|
    decreases xs, 0
  {
    if xs == [] then NOTHING
    else Join(ComparePair(rules, path, xs[0], ys[0]), CompareZip(rules, path, xs[1..], ys[1..]))
  }

  function CompareItems(rules: Rules, path: Path, xs: seq<Tree>, ys: seq<Tree>): (r: Report)
    decreases xs, 1
  {
    if |xs| != |ys| then Difference(path) else CompareZip(rules, path, xs, ys)
  }

  datatype Verdict = Match | MatchStar(classified: seq<Path>) | Divergent(diffs: seq<Path>)

  /** The verdict on two payloads. */
  function Compare(rules: Rules, ours: seq<Tree>, theirs: seq<Tree>): (v: Verdict)
  {
    var r := CompareItems(rules, [], ours, theirs);
    if r.diffs != [] then Divergent(r.diffs) else if r.classified != [] then MatchStar(r.classified) else Match
  }

  // ---- Equality up to the order of fields ----

  /** Equal, or equal after reordering the fields of structures, at every depth. */
  ghost predicate Same(a: Tree, b: Tree)
    decreases a, 3
  {
    || (a.Leaf? && a == b)
    || (a.Branch? && b.Branch? && a.tag == b.tag && a.kind == b.kind
        && if a.kind == Structure then SameReordered(a.children, b.children) else SameInOrder(a.children, b.children))
  }

  ghost predicate SameInOrder(xs: seq<Tree>, ys: seq<Tree>)
    decreases xs, 0
  {
    |xs| == |ys| && forall i :: 0 <= i < |xs| ==> Same(xs[i], ys[i])
  }

  ghost predicate SameReordered(xs: seq<Tree>, ys: seq<Tree>)
    decreases xs, 2
  {
    exists zs: seq<Tree> :: SameAfter(xs, ys, zs)
  }

  /** `zs` is a reordering of `ys` that is item by item the same as `xs`. */
  ghost predicate SameAfter(xs: seq<Tree>, ys: seq<Tree>, zs: seq<Tree>)
    decreases xs, 1
  {
    multiset(zs) == multiset(ys) && SameInOrder(xs, zs)
  }

  /** No structure has two fields with the same tag. */
  predicate DistinctFields(t: Tree)
    decreases t
  {
    t.Branch? ==>
      && (t.kind == Structure ==> DistinctTags(t.children))
      && forall i :: 0 <= i < |t.children| ==> DistinctFields(t.children[i])
  }

  predicate DistinctTags(ts: seq<Tree>)
  {
    forall i, j :: 0 <= i < j < |ts| ==> ts[i].tag != ts[j].tag
  }

  predicate AllDistinct(ts: seq<Tree>)
  {
    forall i :: 0 <= i < |ts| ==> DistinctFields(ts[i])
  }

  // ---- When nothing is found ----

  lemma {:induction false} ZipIff(rules: Rules, path: Path, xs: seq<Tree>, ys: seq<Tree>)
    requires |xs| == |ys|
    ensures CompareZip(rules, path, xs, ys) == NOTHING <==>
      forall i :: 0 <= i < |xs| ==> ComparePair(rules, path, xs[i], ys[i]) == NOTHING
    decreases |xs|
  {
    if xs != [] {
      ZipIff(rules, path, xs[1..], ys[1..]);
      ShiftPairs(rules, path, xs, ys);
    }
  }

  lemma ShiftPairs(rules: Rules, path: Path, xs: seq<Tree>, ys: seq<Tree>)
    requires |xs| == |ys| > 0
    ensures (forall i :: 0 <= i < |xs| ==> ComparePair(rules, path, xs[i], ys[i]) == NOTHING) <==>
      && ComparePair(rules, path, xs[0], ys[0]) == NOTHING
      && forall i :: 0 <= i < |xs[1..]| ==> ComparePair(rules, path, xs[1..][i], ys[1..][i]) == NOTHING
  {
    if forall i :: 0 <= i < |xs[1..]| ==> ComparePair(rules, path, xs[1..][i], ys[1..][i]) == NOTHING {
      forall i | 1 <= i < |xs| ensures ComparePair(rules, path, xs[i], ys[i]) == NOTHING {
        assert xs[1..][i - 1] == xs[i] && ys[1..][i - 1] == ys[i];
      }
    }
  }

  predicate FieldMatches(rules: Rules, path: Path, x: Tree, ys: seq<Tree>)
  {
    Find(ys, x.tag).Some? && ComparePair(rules, path, x, Find(ys, x.tag).value) == NOTHING
  }

  lemma ShiftFields(rules: Rules, path: Path, xs: seq<Tree>, ys: seq<Tree>)
    requires |xs| > 0
    ensures (forall i :: 0 <= i < |xs| ==> FieldMatches(rules, path, xs[i], ys)) <==>
      FieldMatches(rules, path, xs[0], ys) && forall i :: 0 <= i < |xs[1..]| ==> FieldMatches(rules, path, xs[1..][i], ys)
  {
    if forall i :: 0 <= i < |xs[1..]| ==> FieldMatches(rules, path, xs[1..][i], ys) {
      forall i | 1 <= i < |xs| ensures FieldMatches(rules, path, xs[i], ys) {
        assert xs[1..][i - 1] == xs[i];
      }
    }
  }

  lemma {:induction false} OursIff(rules: Rules, path: Path, xs: seq<Tree>, ys: seq<Tree>)
    ensures CompareOurs(rules, path, xs, ys) == NOTHING <==>
      forall i :: 0 <= i < |xs| ==> FieldMatches(rules, path, xs[i], ys)
    decreases |xs|
  {
    if xs != [] {
      OursIff(rules, path, xs[1..], ys);
      ShiftFields(rules, path, xs, ys);
    }
  }

  lemma ShiftTags(xs: seq<Tree>, ys: seq<Tree>)
    requires |ys| > 0
    ensures (forall j :: 0 <= j < |ys| ==> Find(xs, ys[j].tag).Some?) <==>
      Find(xs, ys[0].tag).Some? && forall j :: 0 <= j < |ys[1..]| ==> Find(xs, ys[1..][j].tag).Some?
  {
  }

  lemma {:induction false} TheirsIff(rules: Rules, path: Path, xs: seq<Tree>, ys: seq<Tree>)
    ensures CompareTheirs(rules, path, xs, ys) == NOTHING <==>
      forall j :: 0 <= j < |ys| ==> Find(xs, ys[j].tag).Some?
    decreases |ys|
  {
    if ys != [] {
      TheirsIff(rules, path, xs, ys[1..]);
      ShiftTags(xs, ys);
    }
  }

  // ---- Distinct tags ----

  lemma {:induction false} FindsByTag(ts: seq<Tree>, i: nat)
    requires DistinctTags(ts) && i < |ts|
    ensures Find(ts, ts[i].tag) == Some(ts[i])
  {
  }

  lemma {:induction false} Once(ts: seq<Tree>, t: Tree)
    requires DistinctTags(ts)
    ensures multiset(ts)[t] == if t in ts then 1 else 0
  {
    if ts != [] {
      Once(ts[1..], t);
      HeadIsNew(ts);
      assert ts == [ts[0]] + ts[1..];
    }
  }

  lemma HeadIsNew(ts: seq<Tree>)
    requires DistinctTags(ts) && ts != []
    ensures ts[0] !in ts[1..]
  {
  }

  lemma SameElements(xs: seq<Tree>, ys: seq<Tree>)
    requires DistinctTags(xs) && DistinctTags(ys) && forall t :: t in xs <==> t in ys
    ensures multiset(xs) == multiset(ys)
  {
    forall t ensures multiset(xs)[t] == multiset(ys)[t] {
      Once(xs, t);
      Once(ys, t);
    }
  }

  /** Their fields, in the order of ours. */
  function Picked(xs: seq<Tree>, ys: seq<Tree>): (zs: seq<Tree>)
    requires forall i :: 0 <= i < |xs| ==> Find(ys, xs[i].tag).Some?
    ensures |zs| == |xs| && forall i :: 0 <= i < |xs| ==> zs[i] == Find(ys, xs[i].tag).value
  {
    seq(|xs|, i requires 0 <= i < |xs| => Find(ys, xs[i].tag).value)
  }

  lemma PickedPermutes(xs: seq<Tree>, ys: seq<Tree>)
    requires DistinctTags(xs) && DistinctTags(ys)
    requires forall i :: 0 <= i < |xs| ==> Find(ys, xs[i].tag).Some?
    requires forall j :: 0 <= j < |ys| ==> Find(xs, ys[j].tag).Some?
    ensures multiset(Picked(xs, ys)) == multiset(ys)
  {
    var zs := Picked(xs, ys);
    assert forall i :: 0 <= i < |zs| ==> zs[i].tag == xs[i].tag;
    forall t | t in ys ensures t in zs {
      var j :| 0 <= j < |ys| && ys[j] == t;
      var x := Find(xs, t.tag).value;
      var i :| 0 <= i < |xs| && xs[i] == x;
      FindsByTag(ys, j);
      assert zs[i] == t;
    }
    SameElements(zs, ys);
  }

  // ---- The comparison decides sameness ----

  lemma Reordering(xs: seq<Tree>, ys: seq<Tree>) returns (zs: seq<Tree>)
    requires SameReordered(xs, ys)
    ensures SameAfter(xs, ys, zs)
  {
    zs :| SameAfter(xs, ys, zs);
  }

  lemma ReorderedHaveSameLength(xs: seq<Tree>, ys: seq<Tree>)
    requires SameReordered(xs, ys)
    ensures |xs| == |ys|
  {
    var zs := Reordering(xs, ys);
    assert |multiset(zs)| == |multiset(ys)|;
  }

  lemma SameCountsFields(a: Tree, b: Tree)
    requires a.Branch? && b.Branch? && a.kind == Structure && |a.children| != |b.children|
    ensures !Same(a, b)
  {
    if Same(a, b) {
      ReorderedHaveSameLength(a.children, b.children);
    }
  }

  lemma SameHasTag(a: Tree, b: Tree)
    requires Same(a, b)
    ensures a.tag == b.tag
  {
  }

  lemma {:induction false} PairMatches(rules: Rules, path: Path, a: Tree, b: Tree)
    requires DistinctFields(a) && DistinctFields(b)
    ensures ComparePair(rules, path, a, b) == NOTHING <==> Same(a, b)
    decreases a, 1
  {
    if a.Branch? && b.Branch? && a.tag == b.tag && a.kind == b.kind {
      if a.kind == Structure {
        FieldsMatch(rules, path + [a.tag], a.children, b.children);
      } else {
        ItemsMatch(rules, path + [a.tag], a.children, b.children);
      }
    }
  }

  lemma {:induction false} ItemsMatch(rules: Rules, path: Path, xs: seq<Tree>, ys: seq<Tree>)
    requires AllDistinct(xs) && AllDistinct(ys)
    ensures CompareItems(rules, path, xs, ys) == NOTHING <==> SameInOrder(xs, ys)
    decreases xs, 0
  {
    if |xs| == |ys| {
      ZipIff(rules, path, xs, ys);
      forall i | 0 <= i < |xs| ensures ComparePair(rules, path, xs[i], ys[i]) == NOTHING <==> Same(xs[i], ys[i]) {
        PairMatches(rules, path, xs[i], ys[i]);
      }
    }
  }

  lemma {:induction false} FieldsMatch(rules: Rules, path: Path, xs: seq<Tree>, ys: seq<Tree>)
    requires AllDistinct(xs) && AllDistinct(ys) && DistinctTags(xs) && DistinctTags(ys)
    ensures CompareFields(rules, path, xs, ys) == NOTHING <==> SameReordered(xs, ys)
    decreases xs, 2
  {
    OursIff(rules, path, xs, ys);
    TheirsIff(rules, path, xs, ys);
    if CompareFields(rules, path, xs, ys) == NOTHING {
      FieldsMatchReordered(rules, path, xs, ys);
    }
    if SameReordered(xs, ys) {
      var zs := Reordering(xs, ys);
      ReorderedFieldsMatch(rules, path, xs, ys, zs);
    }
  }

  lemma {:induction false} FieldsMatchReordered(rules: Rules, path: Path, xs: seq<Tree>, ys: seq<Tree>)
    requires AllDistinct(xs) && AllDistinct(ys) && DistinctTags(xs) && DistinctTags(ys)
    requires forall i :: 0 <= i < |xs| ==> FieldMatches(rules, path, xs[i], ys)
    requires forall j :: 0 <= j < |ys| ==> Find(xs, ys[j].tag).Some?
    ensures SameReordered(xs, ys)
    decreases xs, 1
  {
    assert forall i :: 0 <= i < |xs| ==> FieldMatches(rules, path, xs[i], ys) ==> Find(ys, xs[i].tag).Some?;
    var zs := Picked(xs, ys);
    PickedPermutes(xs, ys);
    forall i | 0 <= i < |xs| ensures Same(xs[i], zs[i]) {
      assert FieldMatches(rules, path, xs[i], ys);
      PairMatches(rules, path, xs[i], zs[i]);
    }
    assert SameAfter(xs, ys, zs);
  }

  lemma {:induction false} ReorderedFieldsMatch(rules: Rules, path: Path, xs: seq<Tree>, ys: seq<Tree>, zs: seq<Tree>)
    requires AllDistinct(xs) && AllDistinct(ys) && DistinctTags(ys)
    requires SameAfter(xs, ys, zs)
    ensures forall i :: 0 <= i < |xs| ==> FieldMatches(rules, path, xs[i], ys)
    ensures forall j :: 0 <= j < |ys| ==> Find(xs, ys[j].tag).Some?
    decreases xs, 1
  {
    forall i | 0 <= i < |xs| ensures FieldMatches(rules, path, xs[i], ys) {
      assert zs[i] in multiset(zs);
      assert zs[i] in multiset(ys);
      var j :| 0 <= j < |ys| && ys[j] == zs[i];
      SameHasTag(xs[i], zs[i]);
      FindsByTag(ys, j);
      PairMatches(rules, path, xs[i], zs[i]);
    }
    forall j | 0 <= j < |ys| ensures Find(xs, ys[j].tag).Some? {
      assert ys[j] in multiset(ys);
      assert ys[j] in multiset(zs);
      var i :| 0 <= i < |zs| && zs[i] == ys[j];
      SameHasTag(xs[i], zs[i]);
    }
  }

  // ---- The comparison as it runs ----

  /** The two lists that the comparison appends to. */
  class Findings {
    var classified: seq<Path>
    var diffs: seq<Path>

    ghost function View(): (r: Report)
      reads this
    {
      Report(classified, diffs)
    }

    constructor ()
      ensures View() == NOTHING
    {
      classified, diffs := [], [];
    }

    method Explain(path: Path)
      modifies this
      ensures View() == Join(old(View()), Explained(path))
    {
      classified := classified + [path];
    }

    method Differ(path: Path)
      modifies this
      ensures View() == Join(old(View()), Difference(path))
    {
      diffs := diffs + [path];
    }
  }

  lemma JoinLaws(r: Report, s: Report, t: Report)
    ensures Join(Join(r, s), t) == Join(r, Join(s, t)) && Join(r, NOTHING) == r && Join(NOTHING, r) == r
  {
  }

  method ReportOneSided(rules: Rules, path: Path, tag: Tag, out: Findings)
    modifies out
    ensures out.View() == Join(old(out.View()), OneSided(rules, path, tag))
  {
    if rules(path + [tag]) == Some(OptionalField) {
      out.Explain(path + [tag]);
    } else {
      out.Differ(path + [tag]);
    }
  }

  method ReportValues(rules: Rules, path: Path, v: Tlv.Value, w: Tlv.Value, out: Findings)
    modifies out
    ensures out.View() == Join(old(out.View()), CompareValues(rules, path, v, w))
  {
    var variance := rules(path);
    if variance.None? || !SameVariant(v, w) {
      out.Differ(path);
    } else if variance.value == Random && ValueLen(v).Some? && ValueLen(v) != ValueLen(w) {
      out.Differ(path);
    } else {
      out.Explain(path);
    }
  }

  method ReportPair(rules: Rules, path: Path, a: Tree, b: Tree, out: Findings)
    modifies out
    ensures out.View() == Join(old(out.View()), ComparePair(rules, path, a, b))
    decreases a
  {
    JoinLaws(out.View(), NOTHING, NOTHING);
    if a.Leaf? && b.Leaf? {
      if a.tag != b.tag {
        out.Differ(path + [a.tag]);
      } else if a.value != b.value {
        ReportValues(rules, path + [a.tag], a.value, b.value, out);
      }
    } else if a.Branch? && b.Branch? {
      if a.tag != b.tag || a.kind != b.kind {
        out.Differ(path + [a.tag]);
      } else {
        ReportChildren(rules, path + [a.tag], a.kind == Structure, a.children, b.children, out);
      }
    } else {
      out.Differ(path);
    }
  }

  method ReportChildren(rules: Rules, path: Path, fields: bool, xs: seq<Tree>, ys: seq<Tree>, out: Findings)
    modifies out
    ensures out.View() == Join(old(out.View()),
                               if fields then CompareFields(rules, path, xs, ys) else CompareItems(rules, path, xs, ys))
    decreases xs
  {
    ghost var before := out.View();
    if fields {
      ReportOurs(rules, path, xs, ys, out);
      ReportTheirs(rules, path, xs, ys, out);
      JoinLaws(before, CompareOurs(rules, path, xs, ys), CompareTheirs(rules, path, xs, ys));
    } else if |xs| != |ys| {
      out.Differ(path);
    } else {
      ReportZip(rules, path, xs, ys, out);
    }
  }

  method ReportOurs(rules: Rules, path: Path, xs: seq<Tree>, ys: seq<Tree>, out: Findings)
    modifies out
    ensures out.View() == Join(old(out.View()), CompareOurs(rules, path, xs, ys))
    decreases xs, 0
  {
    ghost var before := out.View();
    ghost var all := CompareOurs(rules, path, xs, ys);
    JoinLaws(before, all, all);
    assert xs[0..] == xs;
    for i := 0 to |xs|
      invariant Join(before, all) == Join(out.View(), CompareOurs(rules, path, xs[i..], ys))
    {
      assert xs[i..][0] == xs[i] && xs[i..][1..] == xs[i + 1..];
      ghost var sofar := out.View();
      var found := Find(ys, xs[i].tag);
      if found.Some? {
        ReportPair(rules, path, xs[i], found.value, out);
        JoinLaws(sofar, ComparePair(rules, path, xs[i], found.value), CompareOurs(rules, path, xs[i + 1..], ys));
      } else {
        ReportOneSided(rules, path, xs[i].tag, out);
        JoinLaws(sofar, OneSided(rules, path, xs[i].tag), CompareOurs(rules, path, xs[i + 1..], ys));
      }
    }
    JoinLaws(out.View(), all, all);
  }

  method ReportTheirs(rules: Rules, path: Path, xs: seq<Tree>, ys: seq<Tree>, out: Findings)
    modifies out
    ensures out.View() == Join(old(out.View()), CompareTheirs(rules, path, xs, ys))
  {
    ghost var before := out.View();
    ghost var all := CompareTheirs(rules, path, xs, ys);
    assert ys[0..] == ys;
    for j := 0 to |ys|
      invariant Join(before, all) == Join(out.View(), CompareTheirs(rules, path, xs, ys[j..]))
    {
      assert ys[j..][0] == ys[j] && ys[j..][1..] == ys[j + 1..];
      ghost var sofar := out.View();
      if Find(xs, ys[j].tag).None? {
        ReportOneSided(rules, path, ys[j].tag, out);
        JoinLaws(sofar, OneSided(rules, path, ys[j].tag), CompareTheirs(rules, path, xs, ys[j + 1..]));
      } else {
        JoinLaws(CompareTheirs(rules, path, xs, ys[j + 1..]), NOTHING, NOTHING);
      }
    }
    JoinLaws(out.View(), all, all);
  }

  method ReportZip(rules: Rules, path: Path, xs: seq<Tree>, ys: seq<Tree>, out: Findings)
    requires |xs| == |ys|
    modifies out
    ensures out.View() == Join(old(out.View()), CompareZip(rules, path, xs, ys))
    decreases xs, 0
  {
    ghost var before := out.View();
    ghost var all := CompareZip(rules, path, xs, ys);
    assert xs[0..] == xs && ys[0..] == ys;
    for i := 0 to |xs|
      invariant Join(before, all) == Join(out.View(), CompareZip(rules, path, xs[i..], ys[i..]))
    {
      assert xs[i..][0] == xs[i] && xs[i..][1..] == xs[i + 1..];
      assert ys[i..][0] == ys[i] && ys[i..][1..] == ys[i + 1..];
      ghost var sofar := out.View();
      ReportPair(rules, path, xs[i], ys[i], out);
      JoinLaws(sofar, ComparePair(rules, path, xs[i], ys[i]), CompareZip(rules, path, xs[i + 1..], ys[i + 1..]));
    }
    JoinLaws(out.View(), all, all);
  }

  /** The comparison of two payloads, and its verdict. */
  method ComparePayloads(rules: Rules, ours: seq<Tree>, theirs: seq<Tree>) returns (v: Verdict)
    ensures v == Compare(rules, ours, theirs)
  {
    var out := new Findings();
    ReportChildren(rules, [], false, ours, theirs, out);
    JoinLaws(CompareItems(rules, [], ours, theirs), NOTHING, NOTHING);
    if out.diffs != [] {
      return Divergent(out.diffs);
    }
    if out.classified != [] {
      return MatchStar(out.classified);
    }
    return Match;
  }
}
