/** The to-be-signed bytes determine the certificate: two certificates have the same bytes
    exactly when they have the same canonical form, and the signature is not part of it. */
module X509Theorems {
  import opened Wire
  import opened Der
  import opened Certificate
  import opened X509
  import opened X509Fields
  import opened X509KeyUsage

  // ---- Canonical form ----

  function CanonicalConstraints(bc: BasicConstraints): (r: BasicConstraints)
  {
    if bc.isCa then bc else BasicConstraints(false, None)
  }

  /** The purposes that have an identifier. */
  function KnownPurposes(eku: seq<u32>): (r: seq<u32>)
  {
    if eku == [] then [] else (if PurposeArc(eku[0]).Some? then [eku[0]] else []) + KnownPurposes(eku[1..])
  }

  function CanonicalExtensions(x: Extensions): (r: Extensions)
  {
    x.(basicConstraints := if x.basicConstraints.Some? then Some(CanonicalConstraints(x.basicConstraints.value)) else None,
       extendedKeyUsage := if x.extendedKeyUsage.Some? then Some(KnownPurposes(x.extendedKeyUsage.value)) else None)
  }

  const UNSIGNED: Signature := Zeros(64)

  function Canonical(c: Certificate): (r: Certificate)
    requires c.serial != []
  {
    c.(serial := CanonicalSerial(c.serial), extensions := CanonicalExtensions(c.extensions), signature := UNSIGNED)
  }

  // ---- Extensions ----

  lemma ConstraintsDetermine(a: BasicConstraints, b: BasicConstraints)
    ensures BasicConstraintsValue(a) == BasicConstraintsValue(b) <==> CanonicalConstraints(a) == CanonicalConstraints(b)
  {
    var s, t := BasicConstraintsValue(a).children, BasicConstraintsValue(b).children;
    if s == t && a.isCa && a.pathLen.Some? {
      assert s[1] == t[1];
    }
  }

  /** A path length is read back as itself exactly below 128; above, its INTEGER is negative. */
  lemma PathLengthDenotes(p: byte)
    ensures IntegerValue([p]) == p <==> p < 0x80
  {
    assert [p][..0] == [] && FromBe([p]) == p;
  }

  function PurposeOid(v: u32): (n: Node)
    requires PurposeArc(v).Some?
  {
    Oid([0x2B, 0x06, 0x01, 0x05, 0x05, 0x07, 0x03, PurposeArc(v).value])
  }

  lemma PurposeDetermines(v: u32, w: u32)
    requires PurposeArc(v).Some? && PurposeArc(w).Some? && PurposeOid(v) == PurposeOid(w)
    ensures v == w
  {
  }

  lemma {:induction false} PurposesOfKnown(eku: seq<u32>)
    ensures PurposeOids(KnownPurposes(eku)) == PurposeOids(eku)
    ensures forall v :: v in KnownPurposes(eku) ==> PurposeArc(v).Some?
  {
    if eku != [] {
      PurposesOfKnown(eku[1..]);
      if PurposeArc(eku[0]).Some? {
        assert KnownPurposes(eku)[1..] == KnownPurposes(eku[1..]);
      } else {
        assert KnownPurposes(eku) == KnownPurposes(eku[1..]);
      }
    }
  }

  lemma {:induction false} KnownPurposesDetermine(a: seq<u32>, b: seq<u32>)
    requires forall v :: v in a ==> PurposeArc(v).Some?
    requires forall v :: v in b ==> PurposeArc(v).Some?
    requires PurposeOids(a) == PurposeOids(b)
    ensures a == b
  {
    if a != [] && b != [] {
      var s, t := PurposeOids(a), PurposeOids(b);
      assert s[0] == PurposeOid(a[0]) && t[0] == PurposeOid(b[0]);
      PurposeDetermines(a[0], b[0]);
      assert s[1..] == PurposeOids(a[1..]) && t[1..] == PurposeOids(b[1..]);
      KnownPurposesDetermine(a[1..], b[1..]);
      assert a == [a[0]] + a[1..] && b == [b[0]] + b[1..];
    }
  }

  lemma PurposesDetermine(a: seq<u32>, b: seq<u32>)
    ensures PurposeOids(a) == PurposeOids(b) <==> KnownPurposes(a) == KnownPurposes(b)
  {
    PurposesOfKnown(a);
    PurposesOfKnown(b);
    if PurposeOids(a) == PurposeOids(b) {
      KnownPurposesDetermine(KnownPurposes(a), KnownPurposes(b));
    }
  }

  /** The extension's identifier is 2.5.29.`arc`. */
  predicate HasArc(n: Node, arc: byte)
  {
    n.Cons? && |n.children| > 0 && n.children[0] == Oid([0x55, 0x1D, arc])
  }

  predicate AllHaveArc(ns: seq<Node>, arc: byte)
  {
    |ns| <= 1 && forall i :: 0 <= i < |ns| ==> HasArc(ns[i], arc)
  }

  predicate NoneHasArc(ns: seq<Node>, arc: byte)
  {
    forall i :: 0 <= i < |ns| ==> !HasArc(ns[i], arc)
  }

  lemma FrontHasArc(a: seq<Node>, u: seq<Node>, arc: byte)
    requires AllHaveArc(a, arc) && NoneHasArc(u, arc)
    ensures a != [] <==> |a + u| > 0 && HasArc((a + u)[0], arc)
  {
  }

  /** An optional element in front is recognised by its identifier. */
  lemma Peel(a: seq<Node>, b: seq<Node>, u: seq<Node>, v: seq<Node>, arc: byte)
    requires AllHaveArc(a, arc) && AllHaveArc(b, arc) && NoneHasArc(u, arc) && NoneHasArc(v, arc)
    requires a + u == b + v
    ensures a == b && u == v
  {
    FrontHasArc(a, u, arc);
    FrontHasArc(b, v, arc);
    assert |a| == |b|;
    assert a == (a + u)[..|a|] && b == (b + v)[..|a|];
    assert u == (a + u)[|a|..] && v == (b + v)[|a|..];
  }

  /** The values of one extension, when both certificates have it or both lack it. */
  lemma ValueDetermines(arc: byte, critical: bool, v: Node, w: Node)
    requires ExtensionTree(arc, critical, v) == ExtensionTree(arc, critical, w)
    requires WellTagged(v) && WellTagged(w) && |Encode(v)| < WORD
    ensures v == w
  {
    var s, t := ExtensionTree(arc, critical, v).children, ExtensionTree(arc, critical, w).children;
    assert s[|s| - 1] == t[|t| - 1];
    assert Encode(v) + [] == Encode(v) && Encode(w) + [] == Encode(w);
    EncodingDetermines(v, w, [], []);
  }

  // ---- Sizes ----

  lemma {:induction false} MemberIsNoLonger(ns: seq<Node>, i: nat)
    requires i < |ns|
    ensures |Encode(ns[i])| <= |EncodeAll(ns)|
  {
    if i > 0 {
      MemberIsNoLonger(ns[1..], i - 1);
    }
  }

  lemma ContentIsShorter(n: Node)
    ensures |Content(n)| < |Encode(n)|
  {
  }

  lemma ValueIsShorter(arc: byte, critical: bool, value: Node)
    ensures |Encode(value)| < |Encode(ExtensionTree(arc, critical, value))|
  {
    var kids := ExtensionTree(arc, critical, value).children;
    MemberIsNoLonger(kids, |kids| - 1);
    ContentIsShorter(kids[|kids| - 1]);
    ContentIsShorter(ExtensionTree(arc, critical, value));
  }

  // ---- Well-tagged trees ----

  lemma {:induction false} PurposesAreWellTagged(eku: seq<u32>)
    ensures AllWellTagged(PurposeOids(eku))
  {
    if eku != [] {
      PurposesAreWellTagged(eku[1..]);
    }
  }

  lemma ExtensionIsWellTagged(arc: byte, critical: bool, value: Node)
    ensures WellTagged(ExtensionTree(arc, critical, value))
  {
  }

  predicate AllWellTagged(ns: seq<Node>)
  {
    forall i :: 0 <= i < |ns| ==> WellTagged(ns[i])
  }

  lemma EachIsWellTagged(x: Extensions)
    ensures AllWellTagged(BasicConstraintsTrees(x)) && AllWellTagged(KeyUsageTrees(x))
    ensures AllWellTagged(ExtendedKeyUsageTrees(x)) && AllWellTagged(SubjectKeyIdTrees(x))
    ensures AllWellTagged(AuthorityKeyIdTrees(x))
  {
    if x.basicConstraints.Some? {
      ExtensionIsWellTagged(ARC_BASIC_CONSTRAINTS, true, BasicConstraintsValue(x.basicConstraints.value));
    }
    if x.keyUsage.Some? {
      ExtensionIsWellTagged(ARC_KEY_USAGE, true, Prim(0x03, KeyUsageBits(x.keyUsage.value)));
    }
    if x.extendedKeyUsage.Some? {
      ExtensionIsWellTagged(ARC_EXTENDED_KEY_USAGE, true, Cons(SEQUENCE, PurposeOids(x.extendedKeyUsage.value)));
    }
    if x.subjectKeyId.Some? {
      ExtensionIsWellTagged(ARC_SUBJECT_KEY_ID, false, Prim(0x04, x.subjectKeyId.value));
    }
    if x.authorityKeyId.Some? {
      ExtensionIsWellTagged(ARC_AUTHORITY_KEY_ID, false, Cons(SEQUENCE, [Prim(0x80, x.authorityKeyId.value)]));
    }
  }

  lemma WellTaggedJoin(a: seq<Node>, b: seq<Node>)
    requires AllWellTagged(a) && AllWellTagged(b)
    ensures AllWellTagged(a + b)
  {
  }

  lemma ExtensionsAreWellTagged(x: Extensions)
    ensures WellTagged(ExtensionsTree(x))
  {
    EachIsWellTagged(x);
    var one := BasicConstraintsTrees(x) + KeyUsageTrees(x);
    WellTaggedJoin(BasicConstraintsTrees(x), KeyUsageTrees(x));
    var two := one + ExtendedKeyUsageTrees(x);
    WellTaggedJoin(one, ExtendedKeyUsageTrees(x));
    WellTaggedJoin(two, SubjectKeyIdTrees(x));
    WellTaggedJoin(two + SubjectKeyIdTrees(x), AuthorityKeyIdTrees(x));
    WrapIsWellTagged(SEQUENCE, ExtensionTrees(x));
    WrapIsWellTagged(0xA3, [Cons(SEQUENCE, ExtensionTrees(x))]);
  }

  lemma WrapIsWellTagged(tag: byte, ns: seq<Node>)
    requires AllWellTagged(ns) && IsConstructed(tag)
    ensures WellTagged(Cons(tag, ns))
  {
  }

  lemma EntryIsWellTagged(a: DnAttribute)
    requires AttributeEntry(a).Ok?
    ensures WellTagged(Cons(SET, [EntryTree(AttributeEntry(a).value)]))
  {
  }

  lemma {:induction false} NameIsWellTagged(dn: DistinguishedName)
    requires NameSets(dn).Ok?
    ensures AllWellTagged(NameSets(dn).value)
  {
    if dn != [] {
      EntryIsWellTagged(dn[0]);
      NameIsWellTagged(dn[1..]);
    }
  }

  // ---- One extension at a time ----

  lemma BasicConstraintsDetermine(x: Extensions, y: Extensions)
    requires BasicConstraintsTrees(x) == BasicConstraintsTrees(y)
    requires |EncodeAll(BasicConstraintsTrees(x))| < WORD
    ensures CanonicalExtensions(x).basicConstraints == CanonicalExtensions(y).basicConstraints
  {
    if x.basicConstraints.Some? {
      var a, b := x.basicConstraints.value, y.basicConstraints.value;
      SizeOfValue(BasicConstraintsTrees(x), ARC_BASIC_CONSTRAINTS, true, BasicConstraintsValue(a));
      assert BasicConstraintsTrees(x)[0] == BasicConstraintsTrees(y)[0];
      ValueDetermines(ARC_BASIC_CONSTRAINTS, true, BasicConstraintsValue(a), BasicConstraintsValue(b));
      ConstraintsDetermine(a, b);
    }
  }

  lemma SizeOfValue(ns: seq<Node>, arc: byte, critical: bool, value: Node)
    requires ns == [ExtensionTree(arc, critical, value)] && |EncodeAll(ns)| < WORD
    ensures |Encode(value)| < WORD
  {
    ValueIsShorter(arc, critical, value);
    MemberIsNoLonger(ns, 0);
  }

  lemma KeyUsageTreesDetermine(x: Extensions, y: Extensions)
    requires KeyUsageTrees(x) == KeyUsageTrees(y)
    requires |EncodeAll(KeyUsageTrees(x))| < WORD
    ensures x.keyUsage == y.keyUsage
  {
    if x.keyUsage.Some? {
      var v, w := Prim(0x03, KeyUsageBits(x.keyUsage.value)), Prim(0x03, KeyUsageBits(y.keyUsage.value));
      SizeOfValue(KeyUsageTrees(x), ARC_KEY_USAGE, true, v);
      assert KeyUsageTrees(x)[0] == KeyUsageTrees(y)[0];
      ValueDetermines(ARC_KEY_USAGE, true, v, w);
      KeyUsageDetermines(x.keyUsage.value, y.keyUsage.value);
    }
  }

  lemma ExtendedKeyUsageDetermines(x: Extensions, y: Extensions)
    requires ExtendedKeyUsageTrees(x) == ExtendedKeyUsageTrees(y)
    requires |EncodeAll(ExtendedKeyUsageTrees(x))| < WORD
    ensures CanonicalExtensions(x).extendedKeyUsage == CanonicalExtensions(y).extendedKeyUsage
  {
    if x.extendedKeyUsage.Some? {
      var a, b := x.extendedKeyUsage.value, y.extendedKeyUsage.value;
      var v, w := Cons(SEQUENCE, PurposeOids(a)), Cons(SEQUENCE, PurposeOids(b));
      PurposesAreWellTagged(a);
      PurposesAreWellTagged(b);
      SizeOfValue(ExtendedKeyUsageTrees(x), ARC_EXTENDED_KEY_USAGE, true, v);
      assert ExtendedKeyUsageTrees(x)[0] == ExtendedKeyUsageTrees(y)[0];
      ValueDetermines(ARC_EXTENDED_KEY_USAGE, true, v, w);
      PurposesDetermine(a, b);
    }
  }

  lemma SubjectKeyIdDetermines(x: Extensions, y: Extensions)
    requires SubjectKeyIdTrees(x) == SubjectKeyIdTrees(y)
    requires |EncodeAll(SubjectKeyIdTrees(x))| < WORD
    ensures x.subjectKeyId == y.subjectKeyId
  {
    if x.subjectKeyId.Some? {
      var v, w := Prim(0x04, x.subjectKeyId.value), Prim(0x04, y.subjectKeyId.value);
      SizeOfValue(SubjectKeyIdTrees(x), ARC_SUBJECT_KEY_ID, false, v);
      assert SubjectKeyIdTrees(x)[0] == SubjectKeyIdTrees(y)[0];
      ValueDetermines(ARC_SUBJECT_KEY_ID, false, v, w);
    }
  }

  lemma AuthorityKeyIdDetermines(x: Extensions, y: Extensions)
    requires AuthorityKeyIdTrees(x) == AuthorityKeyIdTrees(y)
    requires |EncodeAll(AuthorityKeyIdTrees(x))| < WORD
    ensures x.authorityKeyId == y.authorityKeyId
  {
    if x.authorityKeyId.Some? {
      var v, w := Prim(0x80, x.authorityKeyId.value), Prim(0x80, y.authorityKeyId.value);
      SizeOfValue(AuthorityKeyIdTrees(x), ARC_AUTHORITY_KEY_ID, false, Cons(SEQUENCE, [v]));
      assert AuthorityKeyIdTrees(x)[0] == AuthorityKeyIdTrees(y)[0];
      ValueDetermines(ARC_AUTHORITY_KEY_ID, false, Cons(SEQUENCE, [v]), Cons(SEQUENCE, [w]));
      assert [v][0] == [w][0];
    }
  }

  // ---- All extensions ----

  /** The extensions after the first one, two, three and four. */
  function AfterOne(x: Extensions): (ns: seq<Node>)
  {
    KeyUsageTrees(x) + AfterTwo(x)
  }

  function AfterTwo(x: Extensions): (ns: seq<Node>)
  {
    ExtendedKeyUsageTrees(x) + AfterThree(x)
  }

  function AfterThree(x: Extensions): (ns: seq<Node>)
  {
    SubjectKeyIdTrees(x) + AuthorityKeyIdTrees(x)
  }

  lemma Regroup(x: Extensions)
    ensures ExtensionTrees(x) == BasicConstraintsTrees(x) + AfterOne(x)
  {
    var a, b, c := BasicConstraintsTrees(x), KeyUsageTrees(x), ExtendedKeyUsageTrees(x);
    var d, e := SubjectKeyIdTrees(x), AuthorityKeyIdTrees(x);
    Associate(a + b + c, d, e);
    Associate(a + b, c, d + e);
    Associate(a, b, c + (d + e));
  }

  /** Each extension carries its own identifier and no other. */
  lemma Arcs(x: Extensions)
    ensures AllHaveArc(BasicConstraintsTrees(x), ARC_BASIC_CONSTRAINTS) && AllHaveArc(KeyUsageTrees(x), ARC_KEY_USAGE)
    ensures AllHaveArc(ExtendedKeyUsageTrees(x), ARC_EXTENDED_KEY_USAGE)
    ensures AllHaveArc(SubjectKeyIdTrees(x), ARC_SUBJECT_KEY_ID)
    ensures AllHaveArc(AuthorityKeyIdTrees(x), ARC_AUTHORITY_KEY_ID)
  {
  }

  lemma LaterArcs(x: Extensions)
    ensures NoneHasArc(AfterOne(x), ARC_BASIC_CONSTRAINTS) && NoneHasArc(AfterTwo(x), ARC_KEY_USAGE)
    ensures NoneHasArc(AfterThree(x), ARC_EXTENDED_KEY_USAGE)
    ensures NoneHasArc(AuthorityKeyIdTrees(x), ARC_SUBJECT_KEY_ID)
  {
    Arcs(x);
    LaterArc(x, ARC_BASIC_CONSTRAINTS);
    LaterArc(x, ARC_KEY_USAGE);
    LaterArc(x, ARC_EXTENDED_KEY_USAGE);
    LaterArc(x, ARC_SUBJECT_KEY_ID);
  }

  lemma LaterArc(x: Extensions, arc: byte)
    ensures arc != ARC_AUTHORITY_KEY_ID ==> NoneHasArc(AuthorityKeyIdTrees(x), arc)
    ensures arc != ARC_AUTHORITY_KEY_ID && arc != ARC_SUBJECT_KEY_ID ==> NoneHasArc(AfterThree(x), arc)
    ensures arc != ARC_AUTHORITY_KEY_ID && arc != ARC_SUBJECT_KEY_ID && arc != ARC_EXTENDED_KEY_USAGE
      ==> NoneHasArc(AfterTwo(x), arc)
    ensures arc == ARC_BASIC_CONSTRAINTS ==> NoneHasArc(AfterOne(x), arc)
  {
  }

  lemma EachExtensionAgrees(x: Extensions, y: Extensions)
    requires ExtensionTrees(x) == ExtensionTrees(y)
    ensures BasicConstraintsTrees(x) == BasicConstraintsTrees(y) && KeyUsageTrees(x) == KeyUsageTrees(y)
    ensures ExtendedKeyUsageTrees(x) == ExtendedKeyUsageTrees(y) && SubjectKeyIdTrees(x) == SubjectKeyIdTrees(y)
    ensures AuthorityKeyIdTrees(x) == AuthorityKeyIdTrees(y)
  {
    Arcs(x);
    Arcs(y);
    LaterArcs(x);
    LaterArcs(y);
    Regroup(x);
    Regroup(y);
    Peel(BasicConstraintsTrees(x), BasicConstraintsTrees(y), AfterOne(x), AfterOne(y), ARC_BASIC_CONSTRAINTS);
    Peel(KeyUsageTrees(x), KeyUsageTrees(y), AfterTwo(x), AfterTwo(y), ARC_KEY_USAGE);
    Peel(ExtendedKeyUsageTrees(x), ExtendedKeyUsageTrees(y), AfterThree(x), AfterThree(y), ARC_EXTENDED_KEY_USAGE);
    Peel(SubjectKeyIdTrees(x), SubjectKeyIdTrees(y), AuthorityKeyIdTrees(x), AuthorityKeyIdTrees(y), ARC_SUBJECT_KEY_ID);
  }

  lemma EachIsShort(x: Extensions)
    requires |EncodeAll(ExtensionTrees(x))| < WORD
    ensures |EncodeAll(BasicConstraintsTrees(x))| < WORD && |EncodeAll(KeyUsageTrees(x))| < WORD
    ensures |EncodeAll(ExtendedKeyUsageTrees(x))| < WORD && |EncodeAll(SubjectKeyIdTrees(x))| < WORD
    ensures |EncodeAll(AuthorityKeyIdTrees(x))| < WORD
  {
    Regroup(x);
    EncodeAllAppend(BasicConstraintsTrees(x), AfterOne(x));
    EncodeAllAppend(KeyUsageTrees(x), AfterTwo(x));
    EncodeAllAppend(ExtendedKeyUsageTrees(x), AfterThree(x));
    EncodeAllAppend(SubjectKeyIdTrees(x), AuthorityKeyIdTrees(x));
  }

  lemma ExtensionsDetermine(x: Extensions, y: Extensions)
    requires ExtensionTrees(x) == ExtensionTrees(y) && |EncodeAll(ExtensionTrees(x))| < WORD
    ensures CanonicalExtensions(x) == CanonicalExtensions(y)
  {
    EachExtensionAgrees(x, y);
    EachIsShort(x);
    BasicConstraintsDetermine(x, y);
    KeyUsageTreesDetermine(x, y);
    ExtendedKeyUsageDetermines(x, y);
    SubjectKeyIdDetermines(x, y);
    AuthorityKeyIdDetermines(x, y);
  }

  lemma ExtensionsOfCanonical(x: Extensions)
    ensures ExtensionTrees(CanonicalExtensions(x)) == ExtensionTrees(x)
  {
    if x.basicConstraints.Some? {
      var bc := x.basicConstraints.value;
      ConstraintsDetermine(bc, CanonicalConstraints(bc));
    }
    if x.extendedKeyUsage.Some? {
      PurposesOfKnown(x.extendedKeyUsage.value);
    }
  }

  // ---- The certificate ----

  lemma ValidityIsWellTagged(notBefore: u32, notAfter: u32)
    ensures WellTagged(ValidityTree(notBefore, notAfter))
  {
  }

  lemma KeyIsWellTagged(key: PublicKey)
    ensures WellTagged(KeyTree(key))
  {
  }

  lemma NameTreeIsWellTagged(dn: DistinguishedName)
    requires NameTree(dn).Ok?
    ensures WellTagged(NameTree(dn).value)
  {
    NameIsWellTagged(dn);
    WrapIsWellTagged(SEQUENCE, NameSets(dn).value);
  }

  lemma FieldsAreWellTagged(serial: Node, issuer: Node, validity: Node, subject: Node, key: Node, extensions: Node)
    requires WellTagged(serial) && WellTagged(issuer) && WellTagged(validity) && WellTagged(subject)
    requires WellTagged(key) && WellTagged(extensions)
    ensures WellTagged(Cons(SEQUENCE, HeadTrees(serial, issuer) + TailTrees(validity, subject, key, extensions)))
  {
  }

  lemma TbsIsWellTagged(c: Certificate)
    requires TbsTree(c).Ok?
    ensures WellTagged(TbsTree(c).value)
  {
    NameTreeIsWellTagged(c.issuer);
    NameTreeIsWellTagged(c.subject);
    ValidityIsWellTagged(c.notBefore, c.notAfter);
    KeyIsWellTagged(c.publicKey);
    ExtensionsAreWellTagged(c.extensions);
    FieldsAreWellTagged(SerialTree(c.serial), NameTree(c.issuer).value, ValidityTree(c.notBefore, c.notAfter),
                        NameTree(c.subject).value, KeyTree(c.publicKey), ExtensionsTree(c.extensions));
  }

  lemma KeyDetermines(a: PublicKey, b: PublicKey)
    requires KeyTree(a) == KeyTree(b)
    ensures a == b
  {
    assert KeyTree(a).children[1].content[1..] == a && KeyTree(b).children[1].content[1..] == b;
  }

  lemma ValidityDetermines(c: Certificate, d: Certificate)
    requires ValidityTree(c.notBefore, c.notAfter) == ValidityTree(d.notBefore, d.notAfter)
    ensures c.notBefore == d.notBefore && c.notAfter == d.notAfter
  {
    var s, t := ValidityTree(c.notBefore, c.notAfter).children, ValidityTree(d.notBefore, d.notAfter).children;
    assert s[0] == t[0] && s[1] == t[1];
    TimeDetermines(c.notBefore, d.notBefore, false);
    TimeDetermines(c.notAfter, d.notAfter, true);
  }

  lemma FieldsAgree(s: Node, i: Node, v: Node, u: Node, k: Node, x: Node,
                    s': Node, i': Node, v': Node, u': Node, k': Node, x': Node)
    requires HeadTrees(s, i) + TailTrees(v, u, k, x) == HeadTrees(s', i') + TailTrees(v', u', k', x')
    ensures s == s' && i == i' && v == v' && u == u' && k == k' && x == x'
  {
    var a, b := HeadTrees(s, i) + TailTrees(v, u, k, x), HeadTrees(s', i') + TailTrees(v', u', k', x');
    assert a[1] == b[1] && a[3] == b[3] && a[4] == b[4] && a[5] == b[5] && a[6] == b[6] && a[7] == b[7];
  }

  /** Equal trees have equal fields. */
  lemma TreesAgree(c: Certificate, d: Certificate)
    requires TbsTree(c).Ok? && TbsTree(c) == TbsTree(d)
    ensures c.serial != [] && d.serial != [] && SerialTree(c.serial) == SerialTree(d.serial)
    ensures NameTree(c.issuer).Ok? && NameTree(c.issuer) == NameTree(d.issuer)
    ensures NameTree(c.subject).Ok? && NameTree(c.subject) == NameTree(d.subject)
    ensures ValidityTree(c.notBefore, c.notAfter) == ValidityTree(d.notBefore, d.notAfter)
    ensures KeyTree(c.publicKey) == KeyTree(d.publicKey)
    ensures ExtensionsTree(c.extensions) == ExtensionsTree(d.extensions)
  {
    FieldsAgree(SerialTree(c.serial), NameTree(c.issuer).value, ValidityTree(c.notBefore, c.notAfter),
                NameTree(c.subject).value, KeyTree(c.publicKey), ExtensionsTree(c.extensions),
                SerialTree(d.serial), NameTree(d.issuer).value, ValidityTree(d.notBefore, d.notAfter),
                NameTree(d.subject).value, KeyTree(d.publicKey), ExtensionsTree(d.extensions));
  }

  lemma LastFieldIsShorter(s: Node, i: Node, v: Node, u: Node, k: Node, x: Node)
    ensures |Encode(x)| < |Encode(Cons(SEQUENCE, HeadTrees(s, i) + TailTrees(v, u, k, x)))|
  {
    var kids := HeadTrees(s, i) + TailTrees(v, u, k, x);
    ContentIsShorter(Cons(SEQUENCE, kids));
    MemberIsNoLonger(kids, 7);
  }

  lemma ExtensionsAreShort(c: Certificate)
    requires TbsTree(c).Ok? && |Encode(TbsTree(c).value)| < WORD
    ensures |EncodeAll(ExtensionTrees(c.extensions))| < WORD
  {
    LastFieldIsShorter(SerialTree(c.serial), NameTree(c.issuer).value, ValidityTree(c.notBefore, c.notAfter),
                       NameTree(c.subject).value, KeyTree(c.publicKey), ExtensionsTree(c.extensions));
    var block := Cons(SEQUENCE, ExtensionTrees(c.extensions));
    ContentIsShorter(ExtensionsTree(c.extensions));
    MemberIsNoLonger([block], 0);
    ContentIsShorter(block);
  }

  lemma EqualBytesGiveEqualTrees(c: Certificate, d: Certificate)
    requires TbsDer(c).Ok? && TbsDer(c) == TbsDer(d) && |TbsDer(c).value| < WORD
    ensures TbsTree(c).Ok? && TbsTree(c) == TbsTree(d)
  {
    var t, u := TbsTree(c).value, TbsTree(d).value;
    TbsIsWellTagged(c);
    TbsIsWellTagged(d);
    assert Encode(t) + [] == Encode(t) && Encode(u) + [] == Encode(u);
    EncodingDetermines(t, u, [], []);
  }

  lemma TbsOfCanonical(c: Certificate)
    requires c.serial != []
    ensures TbsTree(Canonical(c)) == TbsTree(c)
  {
    SerialOfCanonical(c.serial);
    ExtensionsOfCanonical(c.extensions);
  }

  /** Two certificates have the same to-be-signed bytes exactly when they have the same
      canonical form. */
  lemma TbsDetermines(c: Certificate, d: Certificate)
    requires TbsDer(c).Ok? && TbsDer(d).Ok? && |TbsDer(c).value| < WORD
    ensures TbsDer(c) == TbsDer(d) <==> Canonical(c) == Canonical(d)
  {
    if TbsDer(c) == TbsDer(d) {
      EqualBytesGiveEqualTrees(c, d);
      TreesAgree(c, d);
      ExtensionsAreShort(c);
      SerialDetermines(c.serial, d.serial);
      NameDetermines(c.issuer, d.issuer);
      NameDetermines(c.subject, d.subject);
      assert ExtensionsTree(c.extensions).children[0] == ExtensionsTree(d.extensions).children[0];
      ValidityDetermines(c, d);
      KeyDetermines(c.publicKey, d.publicKey);
      ExtensionsDetermine(c.extensions, d.extensions);
    }
    if Canonical(c) == Canonical(d) {
      TbsOfCanonical(c);
      TbsOfCanonical(d);
    }
  }

  /** A certificate in canonical form is determined by its bytes, up to the signature. */
  lemma CanonicalTbsDetermines(c: Certificate, d: Certificate)
    requires TbsDer(c).Ok? && TbsDer(c) == TbsDer(d) && |TbsDer(c).value| < WORD
    requires Canonical(c) == c.(signature := UNSIGNED) && Canonical(d) == d.(signature := UNSIGNED)
    ensures c == d.(signature := c.signature)
  {
    TbsDetermines(c, d);
    assert c == c.(signature := UNSIGNED).(signature := c.signature);
    assert d.(signature := c.signature) == d.(signature := UNSIGNED).(signature := c.signature);
  }

  /** Which certificates are in canonical form. */
  lemma CanonicalForm(c: Certificate)
    requires c.serial != []
    ensures Canonical(c) == c.(signature := UNSIGNED) <==>
      && !(|c.serial| >= 2 && c.serial[0] == 0x00 && c.serial[1] >= 0x80)
      && (c.extensions.basicConstraints.Some? && c.extensions.basicConstraints.value.pathLen.Some?
          ==> c.extensions.basicConstraints.value.isCa)
      && (c.extensions.extendedKeyUsage.Some?
          ==> var eku := c.extensions.extendedKeyUsage.value; forall i :: 0 <= i < |eku| ==> 1 <= eku[i] <= 6)
  {
    if c.extensions.extendedKeyUsage.Some? {
      KnownIff(c.extensions.extendedKeyUsage.value);
    }
  }

  lemma {:induction false} KnownIff(eku: seq<u32>)
    ensures |KnownPurposes(eku)| <= |eku|
    ensures KnownPurposes(eku) == eku <==> forall i :: 0 <= i < |eku| ==> 1 <= eku[i] <= 6
  {
    if eku != [] {
      KnownIff(eku[1..]);
      if PurposeArc(eku[0]).Some? {
        assert KnownPurposes(eku)[1..] == KnownPurposes(eku[1..]);
        assert eku == [eku[0]] + eku[1..];
        assert forall i :: 0 <= i < |eku[1..]| ==> eku[1..][i] == eku[i + 1];
      } else {
        assert KnownPurposes(eku) == KnownPurposes(eku[1..]);
      }
    }
  }

  /** The bytes do not depend on the signature. */
  lemma TbsIgnoresSignature(c: Certificate, s: Signature)
    ensures TbsDer(c.(signature := s)) == TbsDer(c)
  {
  }
}
