/** What the to-be-signed bytes say: the reader of RFC 5280 finds in them exactly the fields of
    the certificate. */
module X509Meaning {
  import opened Wire
  import opened Der
  import opened DerParser
  import opened Certificate
  import opened CivilTime
  import opened X509
  import opened X509Fields
  import opened X509KeyUsage
  import opened X509Theorems
  import R = X509Reader

  // ---- Names ----

  lemma {:induction false} HexIsHex(v: nat, k: nat)
    ensures R.IsHex(Hex(v, k))
  {
    if k > 0 {
      HexIsHex(v / 16, k - 1);
    }
  }

  lemma MatterOid(x: nat, y: nat, oid: seq<nat>)
    requires oid == [1, 3, 6, 1, 4, 1, 37244, x, y]
    ensures |oid| == 9 && oid[..7] == [1, 3, 6, 1, 4, 1, 37244] && oid[7] == x && oid[8] == y
  {
  }

  lemma MatterIsRead(a: DnAttribute)
    requires AttributeEntry(a).Ok? && !a.Text?
    ensures var e := AttributeEntry(a).value;
            R.ReadMatter(LastArcs(a).0, LastArcs(a).1, e.tag, e.value) == Some(a)
  {
    MatterEntryIs(a);
    HexIsReadBack(IdOf(a), IdWidth(a));
    HexIsHex(IdOf(a), IdWidth(a));
  }

  lemma X520IsRead(kind: TextKind, value: bytes)
    requires kind != DomainComponent
    ensures R.ReadX520(X520Arc(kind), StringTag(kind), value) == Some(Text(kind, value))
  {
  }

  lemma AttributeIsRead(a: DnAttribute)
    requires AttributeEntry(a).Ok?
    ensures var e := AttributeEntry(a).value; R.ReadAttribute(Components(e.oid), e.tag, e.value) == Some(a)
  {
    AttributeOidIs(a);
    if !a.Text? {
      MatterDotted(a, LastArcs(a).0, LastArcs(a).1);
      MatterOid(LastArcs(a).0, LastArcs(a).1, DottedOid(a));
      MatterIsRead(a);
    } else if a.kind != DomainComponent {
      X520IsRead(a.kind, a.text);
      assert DottedOid(a)[..3] == [2, 5, 4];
    }
  }

  lemma RdnOf(e: Entry, a: DnAttribute)
    requires R.ReadAttribute(Components(e.oid), e.tag, e.value) == Some(a)
    ensures R.ReadRdn(Cons(SET, [EntryTree(e)])) == Some(a)
  {
  }

  lemma RdnIsRead(a: DnAttribute)
    requires AttributeEntry(a).Ok?
    ensures R.ReadRdn(Cons(SET, [EntryTree(AttributeEntry(a).value)])) == Some(a)
  {
    AttributeIsRead(a);
    RdnOf(AttributeEntry(a).value, a);
  }

  lemma {:induction false} NameIsRead(dn: DistinguishedName)
    requires NameSets(dn).Ok?
    ensures R.ReadRdns(NameSets(dn).value) == Some(dn)
  {
    if dn != [] {
      RdnIsRead(dn[0]);
      NameIsRead(dn[1..]);
      assert NameSets(dn).value[1..] == NameSets(dn[1..]).value;
      assert [dn[0]] + dn[1..] == dn;
    }
  }

  lemma NameTreeIsRead(dn: DistinguishedName)
    requires NameTree(dn).Ok?
    ensures R.ReadName(NameTree(dn).value) == Some(dn)
  {
    NameIsRead(dn);
  }

  // ---- Validity and key ----

  lemma InstantIsRead(t: u32, isNotAfter: bool)
    requires t != NO_EXPIRY || !isNotAfter
    ensures R.ReadInstant(TimeTree(t, isNotAfter)) == Some(t)
  {
    TimeIsReadBack(t, isNotAfter);
    CivilIsExact(UnixSeconds(t));
  }

  /** No Matter time is the sentinel's date. */
  lemma EndIsRead(t: u32)
    ensures R.ReadEnd(TimeTree(t, true)) == Some(if t == 0 then None else Some(t))
  {
    TimeIsReadBack(t, true);
    if t != NO_EXPIRY {
      InstantIsRead(t, true);
      MatterYears(t);
    }
  }

  lemma ValidityIsRead(notBefore: u32, notAfter: u32)
    ensures R.ReadValidity(ValidityTree(notBefore, notAfter))
         == Some((notBefore as int, if notAfter == 0 then None else Some(notAfter as int)))
  {
    InstantIsRead(notBefore, false);
    EndIsRead(notAfter);
  }

  lemma KeyIsRead(key: PublicKey)
    ensures R.ReadKey(KeyTree(key)) == Some(([1, 2, 840, 10045, 2, 1], [1, 2, 840, 10045, 3, 1, 7], key))
  {
    CurveOidsAre();
    assert ([0x00] + key)[1..] == key;
  }

  lemma SerialIsRead(serial: bytes)
    requires serial != []
    ensures R.ReadInteger(SerialTree(serial)) == Some(FromBe(serial))
  {
    SerialIsNonNegative(serial);
  }

  // ---- Key usage ----

  lemma {:induction false} BitsMakeTheNumber(n: nat, bits: seq<nat>, k: nat)
    requires |bits| == k && n < Pow2(k) && forall i :: 0 <= i < k ==> bits[i] == Bit(n, i)
    ensures R.FromBits(bits) == n
    decreases k
  {
    if k > 0 {
      forall i | 0 <= i < k - 1 ensures bits[1..][i] == Bit(n / 2, i) {
        assert bits[1..][i] == bits[i + 1];
      }
      BitsMakeTheNumber(n / 2, bits[1..], k - 1);
      assert bits[0] == n % 2;
    }
  }

  lemma {:induction false} TrailingAreZero(b: nat, k: nat, j: nat)
    requires j < TrailingZeros(b, k)
    ensures Bit(b, j) == 0
  {
    if j > 0 {
      TrailingAreZero(b / 2, k - 1, j - 1);
    }
  }

  /** The bits that are called unused are zero. */
  lemma UnusedAreZero(raw: u16, i: nat)
    requires i < 16
    ensures var s := KeyUsageBits(raw);
            s != [] && (i + s[0] >= 8 * (|s| - 1) ==> BitStringBit(s, i) == 0)
  {
    var s := KeyUsageBits(raw);
    var last := s[|s| - 1];
    if i + s[0] >= 8 * (|s| - 1) && 1 + i / 8 < |s| && last != 0 {
      TrailingAreZero(last, 8, 7 - i % 8);
    } else if last == 0 {
      BitOfZero(7 - i % 8);
    }
  }

  lemma UsageIsRead(raw: u16)
    ensures R.ReadUsage(Prim(0x03, KeyUsageBits(raw))) == Some(R.Usage(raw))
  {
    var s := KeyUsageBits(raw);
    assert s != [];
    var bits := seq(16, i requires 0 <= i => R.UsedBit(s, i));
    forall i | 0 <= i < 16 ensures bits[i] == Bit(raw, i) {
      UnusedAreZero(raw, i);
      KeyUsageMeans(raw, i);
    }
    PowersOfTwo();
    BitsMakeTheNumber(raw, bits, 16);
  }

  // ---- Extensions ----

  /** The path length as an INTEGER of one byte: negative from 128 on. */
  function SignedByte(p: byte): (n: int)
  {
    if p < 0x80 then p else p - 0x100
  }

  lemma OneByteIsRead(p: byte)
    ensures R.ReadInteger(Prim(0x02, [p])) == Some(SignedByte(p))
  {
    assert [p][..0] == [] && FromBe([p]) == p;
    assert Pow256(1) == 256 * Pow256(0);
  }

  /** What the constraints say: a limit is only given to a CA. */
  function ConstraintsMean(bc: BasicConstraints): (v: R.ExtensionValue)
  {
    R.Constraints(bc.isCa, if bc.isCa && bc.pathLen.Some? then Some(SignedByte(bc.pathLen.value)) else None)
  }

  lemma ConstraintsAreRead(bc: BasicConstraints)
    ensures R.ReadConstraints(BasicConstraintsValue(bc)) == Some(ConstraintsMean(bc))
  {
    if bc.isCa && bc.pathLen.Some? {
      OneByteIsRead(bc.pathLen.value);
      var kids := BasicConstraintsValue(bc).children;
      assert kids == [Prim(0x01, [0xFF]), Prim(0x02, [bc.pathLen.value])];
    }
  }

  /** The purposes that have an identifier: Matter's 1 to 6. */
  function PurposesMean(eku: seq<u32>): (ps: seq<nat>)
  {
    if eku == [] then [] else (if 1 <= eku[0] <= 6 then [eku[0] as nat] else []) + PurposesMean(eku[1..])
  }

  lemma PurposeIsRead(v: u32, arc: byte)
    requires PurposeArc(v) == Some(arc)
    ensures R.ReadPurpose(Oid([0x2B, 0x06, 0x01, 0x05, 0x05, 0x07, 0x03, arc])) == Some(v)
  {
    PurposeArcIs(arc);
    var oid: seq<nat> := [1, 3, 6, 1, 5, 5, 7, 3, arc];
    assert oid[..8] == [1, 3, 6, 1, 5, 5, 7, 3];
  }

  lemma FirstPurposeIsRead(n: Node, p: nat, more: seq<Node>, ps: seq<nat>)
    requires R.ReadPurpose(n) == Some(p) && R.ReadEach(more) == Some(ps)
    ensures R.ReadEach([n] + more) == Some([p] + ps)
  {
  }

  lemma {:induction false} PurposesAreRead(eku: seq<u32>)
    ensures R.ReadEach(PurposeOids(eku)) == Some(PurposesMean(eku))
  {
    if eku != [] {
      PurposesAreRead(eku[1..]);
      match PurposeArc(eku[0])
      case Some(arc) =>
        PurposeIsRead(eku[0], arc);
        FirstPurposeIsRead(Oid([0x2B, 0x06, 0x01, 0x05, 0x05, 0x07, 0x03, arc]), eku[0], PurposeOids(eku[1..]),
                           PurposesMean(eku[1..]));
      case None =>
        assert [] + PurposeOids(eku[1..]) == PurposeOids(eku[1..]);
        assert [] + PurposesMean(eku[1..]) == PurposesMean(eku[1..]);
    }
  }

  lemma WrappedIsRead(arc: byte, critical: bool, value: Node, v: R.ExtensionValue)
    requires arc < 0x80 && WellTagged(value) && |Encode(value)| < WORD && R.ReadValue(arc, value) == Some(v)
    ensures R.ReadWrapped(Oid([0x55, 0x1D, arc]), critical, Prim(0x04, Encode(value))) == Some(R.Extension(critical, v))
  {
    JointArcIs(0x1D, arc);
    var ns: seq<nat> := [2, 5, 29, arc];
    assert ns[..3] == [2, 5, 29];
    WholeIsReadBack(value);
  }

  lemma ExtensionKids(arc: byte, critical: bool, value: Node)
    ensures var kids := ExtensionTree(arc, critical, value).children;
            if critical then kids == [Oid([0x55, 0x1D, arc]), Prim(0x01, [0xFF]), Prim(0x04, Encode(value))]
            else kids == [Oid([0x55, 0x1D, arc]), Prim(0x04, Encode(value))]
  {
  }

  lemma ExtensionIsRead(arc: byte, critical: bool, value: Node, v: R.ExtensionValue)
    requires arc < 0x80 && WellTagged(value) && |Encode(value)| < WORD && R.ReadValue(arc, value) == Some(v)
    ensures R.ReadExtension(ExtensionTree(arc, critical, value)) == Some(R.Extension(critical, v))
  {
    ExtensionKids(arc, critical, value);
    WrappedIsRead(arc, critical, value, v);
  }

  /** What each extension says, in the order in which they stand. */
  function ConstraintsPart(x: Extensions): (xs: seq<R.Extension>)
  {
    if x.basicConstraints.None? then [] else [R.Extension(true, ConstraintsMean(x.basicConstraints.value))]
  }

  function UsagePart(x: Extensions): (xs: seq<R.Extension>)
  {
    if x.keyUsage.None? then [] else [R.Extension(true, R.Usage(x.keyUsage.value))]
  }

  function PurposesPart(x: Extensions): (xs: seq<R.Extension>)
  {
    if x.extendedKeyUsage.None? then [] else [R.Extension(true, R.Purposes(PurposesMean(x.extendedKeyUsage.value)))]
  }

  function SubjectKeyPart(x: Extensions): (xs: seq<R.Extension>)
  {
    if x.subjectKeyId.None? then [] else [R.Extension(false, R.SubjectKey(x.subjectKeyId.value))]
  }

  function AuthorityKeyPart(x: Extensions): (xs: seq<R.Extension>)
  {
    if x.authorityKeyId.None? then [] else [R.Extension(false, R.AuthorityKey(x.authorityKeyId.value))]
  }

  function ExtensionsMean(x: Extensions): (xs: seq<R.Extension>)
  {
    ConstraintsPart(x) + (UsagePart(x) + (PurposesPart(x) + (SubjectKeyPart(x) + AuthorityKeyPart(x))))
  }

  /** At most one extension in front of others. */
  lemma OneThenRest(n: Node, x: R.Extension, more: seq<Node>, ys: seq<R.Extension>)
    requires R.ReadExtension(n) == Some(x) && R.ReadExtensions(more) == Some(ys)
    ensures R.ReadExtensions([n] + more) == Some([x] + ys)
  {
    assert ([n] + more)[0] == n && ([n] + more)[1..] == more;
  }

  lemma PartThenRest(ns: seq<Node>, xs: seq<R.Extension>, more: seq<Node>, ys: seq<R.Extension>)
    requires |ns| == |xs| <= 1 && (ns != [] ==> R.ReadExtension(ns[0]) == Some(xs[0]))
    requires R.ReadExtensions(more) == Some(ys)
    ensures R.ReadExtensions(ns + more) == Some(xs + ys)
  {
    if ns == [] {
      assert ns + more == more && xs + ys == ys;
    } else {
      OneThenRest(ns[0], xs[0], more, ys);
      assert ns == [ns[0]] && xs == [xs[0]];
    }
  }

  lemma ConstraintsPartIsRead(x: Extensions)
    requires |EncodeAll(BasicConstraintsTrees(x))| < WORD && x.basicConstraints.Some?
    ensures R.ReadExtension(BasicConstraintsTrees(x)[0]) == Some(ConstraintsPart(x)[0])
  {
    var value := BasicConstraintsValue(x.basicConstraints.value);
    SizeOfValue(BasicConstraintsTrees(x), 19, true, value);
    ConstraintsAreRead(x.basicConstraints.value);
    ExtensionIsRead(19, true, value, ConstraintsMean(x.basicConstraints.value));
  }

  lemma UsagePartIsRead(x: Extensions)
    requires |EncodeAll(KeyUsageTrees(x))| < WORD && x.keyUsage.Some?
    ensures R.ReadExtension(KeyUsageTrees(x)[0]) == Some(UsagePart(x)[0])
  {
    var value := Prim(0x03, KeyUsageBits(x.keyUsage.value));
    SizeOfValue(KeyUsageTrees(x), 15, true, value);
    UsageIsRead(x.keyUsage.value);
    ExtensionIsRead(15, true, value, R.Usage(x.keyUsage.value));
  }

  lemma PurposesPartIsRead(x: Extensions)
    requires |EncodeAll(ExtendedKeyUsageTrees(x))| < WORD && x.extendedKeyUsage.Some?
    ensures R.ReadExtension(ExtendedKeyUsageTrees(x)[0]) == Some(PurposesPart(x)[0])
  {
    var eku := x.extendedKeyUsage.value;
    var value := Cons(SEQUENCE, PurposeOids(eku));
    SizeOfValue(ExtendedKeyUsageTrees(x), 37, true, value);
    PurposesAreWellTagged(eku);
    PurposesAreRead(eku);
    ExtensionIsRead(37, true, value, R.Purposes(PurposesMean(eku)));
  }

  lemma SubjectKeyPartIsRead(x: Extensions)
    requires |EncodeAll(SubjectKeyIdTrees(x))| < WORD && x.subjectKeyId.Some?
    ensures R.ReadExtension(SubjectKeyIdTrees(x)[0]) == Some(SubjectKeyPart(x)[0])
  {
    var value := Prim(0x04, x.subjectKeyId.value);
    SizeOfValue(SubjectKeyIdTrees(x), 14, false, value);
    ExtensionIsRead(14, false, value, R.SubjectKey(x.subjectKeyId.value));
  }

  lemma AuthorityKeyPartIsRead(x: Extensions)
    requires |EncodeAll(AuthorityKeyIdTrees(x))| < WORD && x.authorityKeyId.Some?
    ensures R.ReadExtension(AuthorityKeyIdTrees(x)[0]) == Some(AuthorityKeyPart(x)[0])
  {
    var value := Cons(SEQUENCE, [Prim(0x80, x.authorityKeyId.value)]);
    SizeOfValue(AuthorityKeyIdTrees(x), 35, false, value);
    ExtensionIsRead(35, false, value, R.AuthorityKey(x.authorityKeyId.value));
  }

  lemma LastPartsAreRead(x: Extensions)
    requires |EncodeAll(SubjectKeyIdTrees(x))| < WORD && |EncodeAll(AuthorityKeyIdTrees(x))| < WORD
    ensures R.ReadExtensions(AfterThree(x)) == Some(SubjectKeyPart(x) + AuthorityKeyPart(x))
  {
    if x.authorityKeyId.Some? { AuthorityKeyPartIsRead(x); }
    if x.subjectKeyId.Some? { SubjectKeyPartIsRead(x); }
    PartThenRest(AuthorityKeyIdTrees(x), AuthorityKeyPart(x), [], []);
    assert AuthorityKeyIdTrees(x) + [] == AuthorityKeyIdTrees(x) && AuthorityKeyPart(x) + [] == AuthorityKeyPart(x);
    PartThenRest(SubjectKeyIdTrees(x), SubjectKeyPart(x), AuthorityKeyIdTrees(x), AuthorityKeyPart(x));
  }

  lemma ExtensionsAreRead(x: Extensions)
    requires |EncodeAll(ExtensionTrees(x))| < WORD
    ensures R.ReadExtensions(ExtensionTrees(x)) == Some(ExtensionsMean(x))
  {
    EachIsShort(x);
    Regroup(x);
    LastPartsAreRead(x);
    var three := SubjectKeyPart(x) + AuthorityKeyPart(x);
    if x.extendedKeyUsage.Some? { PurposesPartIsRead(x); }
    PartThenRest(ExtendedKeyUsageTrees(x), PurposesPart(x), AfterThree(x), three);
    if x.keyUsage.Some? { UsagePartIsRead(x); }
    PartThenRest(KeyUsageTrees(x), UsagePart(x), AfterTwo(x), PurposesPart(x) + three);
    if x.basicConstraints.Some? { ConstraintsPartIsRead(x); }
    PartThenRest(BasicConstraintsTrees(x), ConstraintsPart(x), AfterOne(x), UsagePart(x) + (PurposesPart(x) + three));
  }

  // ---- The certificate ----

  /** What a certificate says. */
  function Meaning(c: Certificate): (t: R.TbsCertificate)
  {
    R.TbsCertificate(2, FromBe(c.serial), [1, 2, 840, 10045, 4, 3, 2], c.issuer,
                     c.notBefore, if c.notAfter == 0 then None else Some(c.notAfter as int), c.subject,
                     [1, 2, 840, 10045, 2, 1], [1, 2, 840, 10045, 3, 1, 7], c.publicKey, ExtensionsMean(c.extensions))
  }

  lemma HeadIsRead(serial: bytes, issuer: Node, dn: DistinguishedName)
    requires serial != [] && R.ReadName(issuer) == Some(dn)
    ensures var ns := HeadTrees(SerialTree(serial), issuer);
            && R.ReadVersion(ns[0]) == Some(2) && R.ReadInteger(ns[1]) == Some(FromBe(serial))
            && R.ReadAlgorithm(ns[2]) == Some([1, 2, 840, 10045, 4, 3, 2]) && R.ReadName(ns[3]) == Some(dn)
  {
    OneByteIsRead(2);
    SerialIsRead(serial);
    CurveOidsAre();
  }

  lemma BlockIsRead(x: Extensions)
    requires |EncodeAll(ExtensionTrees(x))| < WORD
    ensures R.ReadBlock(ExtensionsTree(x)) == Some(ExtensionsMean(x))
  {
    ExtensionsAreRead(x);
  }

  lemma EightFields(a: seq<Node>, b: seq<Node>)
    requires |a| == 4 && |b| == 4
    ensures var ns := a + b;
            |ns| == 8 && ns[0] == a[0] && ns[1] == a[1] && ns[2] == a[2] && ns[3] == a[3]
            && ns[4] == b[0] && ns[5] == b[1] && ns[6] == b[2] && ns[7] == b[3]
  {
  }

  lemma FieldsTogether(ns: seq<Node>, c: Certificate)
    requires |ns| == 8
    requires R.ReadVersion(ns[0]) == Some(2) && R.ReadInteger(ns[1]) == Some(FromBe(c.serial))
    requires R.ReadAlgorithm(ns[2]) == Some([1, 2, 840, 10045, 4, 3, 2]) && R.ReadName(ns[3]) == Some(c.issuer)
    requires R.ReadValidity(ns[4]) == Some((c.notBefore as int, if c.notAfter == 0 then None else Some(c.notAfter as int)))
    requires R.ReadName(ns[5]) == Some(c.subject)
    requires R.ReadKey(ns[6]) == Some(([1, 2, 840, 10045, 2, 1], [1, 2, 840, 10045, 3, 1, 7], c.publicKey))
    requires R.ReadBlock(ns[7]) == Some(ExtensionsMean(c.extensions))
    ensures R.ReadFields(ns) == Some(Meaning(c))
  {
  }

  lemma FieldsAreRead(c: Certificate, issuer: Node, subject: Node)
    requires c.serial != [] && NameTree(c.issuer) == Ok(issuer) && NameTree(c.subject) == Ok(subject)
    requires |EncodeAll(ExtensionTrees(c.extensions))| < WORD
    ensures var ns := HeadTrees(SerialTree(c.serial), issuer)
                      + TailTrees(ValidityTree(c.notBefore, c.notAfter), subject, KeyTree(c.publicKey),
                                  ExtensionsTree(c.extensions));
            |ns| == 8 && R.ReadFields(ns) == Some(Meaning(c))
  {
    var head := HeadTrees(SerialTree(c.serial), issuer);
    var tail := TailTrees(ValidityTree(c.notBefore, c.notAfter), subject, KeyTree(c.publicKey), ExtensionsTree(c.extensions));
    NameTreeIsRead(c.issuer);
    NameTreeIsRead(c.subject);
    HeadIsRead(c.serial, issuer, c.issuer);
    ValidityIsRead(c.notBefore, c.notAfter);
    KeyIsRead(c.publicKey);
    BlockIsRead(c.extensions);
    EightFields(head, tail);
    FieldsTogether(head + tail, c);
  }

  /** The to-be-signed bytes are read as exactly the certificate's fields, each in its place. */
  lemma TbsMeans(c: Certificate)
    requires TbsDer(c).Ok? && |TbsDer(c).value| < WORD
    ensures R.ReadTbs(TbsDer(c).value) == Some(Meaning(c))
  {
    TbsIsWellTagged(c);
    WholeIsReadBack(TbsTree(c).value);
    ExtensionsAreShort(c);
    FieldsAreRead(c, NameTree(c.issuer).value, NameTree(c.subject).value);
  }

  lemma {:induction false} KnownPurposesMean(eku: seq<u32>)
    ensures PurposesMean(KnownPurposes(eku)) == PurposesMean(eku)
  {
    if eku != [] {
      KnownPurposesMean(eku[1..]);
      if PurposeArc(eku[0]).Some? {
        assert KnownPurposes(eku)[1..] == KnownPurposes(eku[1..]);
      } else {
        assert KnownPurposes(eku) == KnownPurposes(eku[1..]);
        assert PurposesMean(eku) == PurposesMean(eku[1..]);
      }
    }
  }

  /** A certificate says what its canonical form says. */
  lemma CanonicalMeansTheSame(c: Certificate)
    requires c.serial != []
    ensures Meaning(Canonical(c)) == Meaning(c)
  {
    if CanonicalSerial(c.serial) != c.serial {
      LeadingZeroIsNothing(c.serial[1..]);
      assert [0x00] + c.serial[1..] == c.serial;
    }
    if c.extensions.extendedKeyUsage.Some? {
      KnownPurposesMean(c.extensions.extendedKeyUsage.value);
    }
  }
}
