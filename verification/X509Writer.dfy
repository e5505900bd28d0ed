/** The X.509 encoders as they run: every field is appended to one buffer, wrappers are
    closed by splicing, and the first field without an X.509 form stops the work. */
module X509Writer {
  import opened Wire
  import opened Der
  import opened DerWriter
  import opened Certificate
  import opened CivilTime
  import opened X509
  import X509Fields

  /** Closes an element whose children's encodings were appended since `start`. */
  method Close(out: Buffer, tag: byte, start: nat, ghost before: bytes, ghost children: seq<Node>)
    requires start == |before| && out.data == before + EncodeAll(children)
    modifies out
    ensures out.data == before + Encode(Cons(tag, children))
  {
    assert out.data[..start] == before && out.data[start..] == EncodeAll(children);
    out.WrapTagged(tag, start);
  }

  /** Appending one more child. */
  lemma OneMore(before: bytes, children: seq<Node>, n: Node)
    ensures (before + EncodeAll(children)) + Encode(n) == before + EncodeAll(children + [n])
  {
    EncodeAllAppend(children, [n]);
    EncodeAllOne(n);
    Associate(before, EncodeAll(children), Encode(n));
  }

  lemma NoneYet(before: bytes)
    ensures before == before + EncodeAll([])
  {
  }

  method PutOid(out: Buffer, oid: bytes, ghost before: bytes, ghost children: seq<Node>)
    requires out.data == before + EncodeAll(children)
    modifies out
    ensures out.data == before + EncodeAll(children + [Oid(oid)])
  {
    out.WrapPrimitive(0x06, oid);
    OneMore(before, children, Oid(oid));
  }

  method EncodeSerialNumber(out: Buffer, serial: bytes) returns (r: Result<(), Error>)
    modifies out
    ensures serial == [] ==> r == Err(FieldValueOutOfRange(1)) && out.data == old(out.data)
    ensures serial != [] ==> r == Ok(()) && out.data == old(out.data) + Encode(SerialTree(serial))
  {
    if serial == [] {
      return Err(FieldValueOutOfRange(1));
    }
    var needsLeadingZero := serial[0] >= 0x80;
    ghost var content := SerialTree(serial).content;
    out.Push(0x02);
    var contentLen := |serial| + (if needsLeadingZero then 1 else 0);
    out.EncodeDefiniteLength(Usize(contentLen));
    if needsLeadingZero {
      out.Push(0x00);
    }
    out.Extend(serial);
    assert out.data == old(out.data) + ([0x02] + Length(Usize(|content|)) + content);
    return Ok(());
  }

  method EncodeAlgorithmIdentifier(out: Buffer)
    modifies out
    ensures out.data == old(out.data) + Encode(AlgorithmTree())
  {
    var start := |out.data|;
    ghost var before := out.data;
    NoneYet(before);
    PutOid(out, ECDSA_WITH_SHA256, before, []);
    Close(out, SEQUENCE, start, before, [Oid(ECDSA_WITH_SHA256)]);
  }

  /** A short element with a one-byte length. */
  method PutShort(out: Buffer, tag: byte, s: bytes)
    requires |s| < 0x80
    modifies out
    ensures out.data == old(out.data) + Tlv(tag, s)
  {
    out.Push(tag);
    out.Push(|s|);
    out.Extend(s);
    assert out.data == old(out.data) + ([tag] + [|s|] + s);
  }

  /** The characters of 99991231235959Z. */
  const FOREVER: bytes := [0x39, 0x39, 0x39, 0x39, 0x31, 0x32, 0x33, 0x31, 0x32, 0x33, 0x35, 0x39, 0x35, 0x39, 0x5A]

  lemma ForeverDigits(t: DateTime)
    requires t == DateTime(9999, 12, 31, 23, 59, 59)
    ensures DateDigits(t) == [0x31, 0x32, 0x33, 0x31, 0x32, 0x33, 0x35, 0x39, 0x35, 0x39]
  {
    X509Fields.TwoDigits(t.month);
    X509Fields.TwoDigits(t.day);
    X509Fields.TwoDigits(t.hour);
    X509Fields.TwoDigits(t.minute);
    X509Fields.TwoDigits(t.second);
  }

  lemma ForeverText(t: DateTime)
    requires t == DateTime(9999, 12, 31, 23, 59, 59)
    ensures Decimal(t.year, 4) + DateDigits(t) + [0x5A] == FOREVER
  {
    X509Fields.FourDigits(t.year, 999, 99);
    ForeverDigits(t);
  }

  lemma ForeverIsSentinel()
    ensures TimeTree(NO_EXPIRY, true) == Prim(GENERALIZED_TIME, FOREVER)
  {
    ForeverText(DateTime(9999, 12, 31, 23, 59, 59));
  }

  method EncodeOneTime(out: Buffer, t: u32, isNotAfter: bool)
    modifies out
    ensures out.data == old(out.data) + Encode(TimeTree(t, isNotAfter))
  {
    if t == NO_EXPIRY && isNotAfter {
      ForeverIsSentinel();
      PutShort(out, GENERALIZED_TIME, FOREVER);
      return;
    }
    var unix := UnixSeconds(t);
    var c := UnixToYmdhms(unix);
    if unix < 2_524_608_000 {
      PutShort(out, UTC_TIME, Decimal(c.year % 100, 2) + DateDigits(c) + [0x5A]);
    } else {
      PutShort(out, GENERALIZED_TIME, Decimal(c.year, 4) + DateDigits(c) + [0x5A]);
    }
  }

  method EncodeValidity(out: Buffer, notBefore: u32, notAfter: u32)
    modifies out
    ensures out.data == old(out.data) + Encode(ValidityTree(notBefore, notAfter))
  {
    var start := |out.data|;
    ghost var before := out.data;
    ghost var a, b := TimeTree(notBefore, false), TimeTree(notAfter, true);
    NoneYet(before);
    EncodeOneTime(out, notBefore, false);
    OneMore(before, [], a);
    EncodeOneTime(out, notAfter, true);
    OneMore(before, [a], b);
    assert [a] + [b] == [a, b];
    Close(out, SEQUENCE, start, before, [a, b]);
  }

  method EncodeSubjectPublicKeyInfo(out: Buffer, key: PublicKey)
    modifies out
    ensures out.data == old(out.data) + Encode(KeyTree(key))
  {
    var start := |out.data|;
    ghost var before := out.data;
    NoneYet(before);
    PutOid(out, EC_PUBLIC_KEY, before, []);
    PutOid(out, EC_CURVE_P256, before, [Oid(EC_PUBLIC_KEY)]);
    ghost var ids := [Oid(EC_PUBLIC_KEY), Oid(EC_CURVE_P256)];
    assert [Oid(EC_PUBLIC_KEY)] + [Oid(EC_CURVE_P256)] == ids;
    Close(out, SEQUENCE, start, before, ids);
    ghost var alg, point := Cons(SEQUENCE, ids), Prim(0x03, [0x00] + key);
    OneMore(before, [], alg);
    ghost var middle := out.data;
    out.Push(0x03);
    out.EncodeDefiniteLength(Usize(|key| + 1));
    out.Push(0x00);
    out.Extend(key);
    assert out.data == middle + ([0x03] + Length(Usize(|[0x00] + key|)) + ([0x00] + key));
    OneMore(before, [alg], point);
    assert [alg] + [point] == [alg, point];
    Close(out, SEQUENCE, start, before, [alg, point]);
  }

  // ---- Names ----

  method VerifyPrintable(s: bytes) returns (ok: bool)
    ensures ok <==> AllPrintable(s)
  {
    for i := 0 to |s|
      invariant AllPrintable(s[..i])
    {
      if !IsPrintable(s[i]) {
        return false;
      }
    }
    return true;
  }

  method VerifyIa5(s: bytes) returns (ok: bool)
    ensures ok <==> AllAscii(s)
  {
    for i := 0 to |s|
      invariant AllAscii(s[..i])
    {
      if s[i] > 0x7F {
        return false;
      }
    }
    return true;
  }

  /** The fault of a string, looked for in the order of the checks. */
  method VerifyText(kind: TextKind, s: bytes) returns (f: Option<Unprintable>)
    ensures f == TextFault(kind, s)
  {
    if kind == SerialNumber || kind == CountryName || kind == DnQualifier {
      var ok := VerifyPrintable(s);
      if !ok {
        return Some(NotPrintable);
      }
      if kind == CountryName && |s| != 2 {
        return Some(NotTwoCharacters);
      }
    }
    if kind == DomainComponent {
      var ok := VerifyIa5(s);
      if !ok {
        return Some(NotAscii);
      }
    }
    return None;
  }

  method ChooseEntry(a: DnAttribute) returns (r: Result<Entry, Error>)
    ensures r == AttributeEntry(a)
  {
    match a {
      case NodeId(v) => r := Ok(Entry(MatterArc(1, 1), UTF8_STRING, Hex(v, 16)));
      case FabricId(v) => r := Ok(Entry(MatterArc(1, 5), UTF8_STRING, Hex(v, 16)));
      case RcacId(v) => r := Ok(Entry(MatterArc(1, 4), UTF8_STRING, Hex(v, 16)));
      case IcacId(v) => r := Ok(Entry(MatterArc(1, 3), UTF8_STRING, Hex(v, 16)));
      case CaseAuthenticatedTag(v) => r := Ok(Entry(MatterArc(1, 6), UTF8_STRING, Hex(v, 8)));
      case VendorId(v) => r := Ok(Entry(MatterArc(2, 1), PRINTABLE_STRING, Hex(v, 4)));
      case ProductId(v) => r := Ok(Entry(MatterArc(2, 2), PRINTABLE_STRING, Hex(v, 4)));
      case Text(kind, s) =>
        var fault := VerifyText(kind, s);
        if fault.Some? {
          return Err(InvalidDnAttributeForX509(kind, fault.value));
        }
        r := Ok(Entry(TextOid(kind), StringTag(kind), s));
      case Other(tag, _) => r := Err(DnAttributeHasNoX509Oid(tag));
    }
  }

  method EncodeDnAttribute(out: Buffer, a: DnAttribute) returns (r: Result<(), Error>)
    modifies out
    ensures AttributeEntry(a).Err? ==> r == Err(AttributeEntry(a).error) && out.data == old(out.data)
    ensures AttributeEntry(a).Ok? ==> r == Ok(()) && out.data == old(out.data) + Encode(EntryTree(AttributeEntry(a).value))
  {
    var entry := ChooseEntry(a);
    if entry.Err? {
      return Err(entry.error);
    }
    var e := entry.value;
    var start := |out.data|;
    ghost var before := out.data;
    NoneYet(before);
    PutOid(out, e.oid, before, []);
    out.WrapPrimitive(e.tag, e.value);
    OneMore(before, [Oid(e.oid)], Prim(e.tag, e.value));
    assert [Oid(e.oid)] + [Prim(e.tag, e.value)] == [Oid(e.oid), Prim(e.tag, e.value)];
    Close(out, SEQUENCE, start, before, [Oid(e.oid), Prim(e.tag, e.value)]);
    return Ok(());
  }

  /** One set around one attribute; the wrapper is closed whether or not the attribute
      could be written. */
  method EncodeRdn(out: Buffer, a: DnAttribute) returns (r: Result<(), Error>)
    modifies out
    ensures AttributeEntry(a).Err? ==> r == Err(AttributeEntry(a).error) && old(out.data) <= out.data
    ensures AttributeEntry(a).Ok? ==>
      r == Ok(()) && out.data == old(out.data) + Encode(Cons(SET, [EntryTree(AttributeEntry(a).value)]))
  {
    var start := |out.data|;
    ghost var before := out.data;
    r := EncodeDnAttribute(out, a);
    if r.Ok? {
      EncodeAllOne(EntryTree(AttributeEntry(a).value));
      Close(out, SET, start, before, [EntryTree(AttributeEntry(a).value)]);
    } else {
      out.WrapTagged(SET, start);
    }
  }

  lemma NameSetsStep(dn: DistinguishedName, i: nat, done: seq<Node>)
    requires i < |dn|
    ensures AttributeEntry(dn[i]).Err? ==> NameSets(dn[i..]) == Err(AttributeEntry(dn[i]).error)
    ensures AttributeEntry(dn[i]).Ok? ==>
      Prefixed(done, NameSets(dn[i..]))
      == Prefixed(done + [Cons(SET, [EntryTree(AttributeEntry(dn[i]).value)])], NameSets(dn[i + 1..]))
  {
    assert dn[i..][0] == dn[i] && dn[i..][1..] == dn[i + 1..];
    if AttributeEntry(dn[i]).Ok? && NameSets(dn[i + 1..]).Ok? {
      var n := Cons(SET, [EntryTree(AttributeEntry(dn[i]).value)]);
      assert done + ([n] + NameSets(dn[i + 1..]).value) == (done + [n]) + NameSets(dn[i + 1..]).value;
    }
  }

  method EncodeDn(out: Buffer, dn: DistinguishedName) returns (r: Result<(), Error>)
    modifies out
    ensures NameTree(dn).Err? ==> r == Err(NameTree(dn).error) && old(out.data) <= out.data
    ensures NameTree(dn).Ok? ==> r == Ok(()) && out.data == old(out.data) + Encode(NameTree(dn).value)
  {
    var start := |out.data|;
    ghost var before := out.data;
    ghost var done: seq<Node> := [];
    NoneYet(before);
    PrefixedEnds(done, NameSets(dn));
    assert dn[0..] == dn;
    for i := 0 to |dn|
      invariant out.data == before + EncodeAll(done)
      invariant NameSets(dn) == Prefixed(done, NameSets(dn[i..]))
    {
      NameSetsStep(dn, i, done);
      r := EncodeRdn(out, dn[i]);
      if r.Err? {
        out.WrapTagged(SEQUENCE, start);
        return;
      }
      ghost var n := Cons(SET, [EntryTree(AttributeEntry(dn[i]).value)]);
      OneMore(before, done, n);
      done := done + [n];
    }
    PrefixedEnds(done, NameSets(dn));
    Close(out, SEQUENCE, start, before, done);
    return Ok(());
  }

  // ---- Extensions ----

  method EncodeExtension(out: Buffer, arc: byte, critical: bool, extnValue: bytes, ghost value: Node)
    requires extnValue == Encode(value)
    modifies out
    ensures out.data == old(out.data) + Encode(ExtensionTree(arc, critical, value))
  {
    var start := |out.data|;
    ghost var before := out.data;
    ghost var parts := [Oid([0x55, 0x1D, arc])];
    NoneYet(before);
    PutOid(out, [0x55, 0x1D, arc], before, []);
    assert [] + parts == parts;
    if critical {
      PutShort(out, 0x01, [0xFF]);
      OneMore(before, parts, Prim(0x01, [0xFF]));
      parts := parts + [Prim(0x01, [0xFF])];
    }
    out.WrapPrimitive(0x04, extnValue);
    OneMore(before, parts, Prim(0x04, extnValue));
    ghost var all := parts + [Prim(0x04, extnValue)];
    assert Cons(SEQUENCE, all) == ExtensionTree(arc, critical, value) by {
      assert !critical ==> parts + [] == parts;
    }
    Close(out, SEQUENCE, start, before, all);
  }

  method EncodeBasicConstraints(out: Buffer, bc: BasicConstraints)
    modifies out
    ensures out.data == old(out.data) + Encode(ExtensionTree(ARC_BASIC_CONSTRAINTS, true, BasicConstraintsValue(bc)))
  {
    var value := new Buffer();
    ghost var parts: seq<Node> := [];
    NoneYet([]);
    if bc.isCa {
      PutShort(value, 0x01, [0xFF]);
      OneMore([], parts, Prim(0x01, [0xFF]));
      parts := [Prim(0x01, [0xFF])];
      if bc.pathLen.Some? {
        PutShort(value, 0x02, [bc.pathLen.value]);
        OneMore([], parts, Prim(0x02, [bc.pathLen.value]));
        parts := parts + [Prim(0x02, [bc.pathLen.value])];
      }
    }
    assert Cons(SEQUENCE, parts) == BasicConstraintsValue(bc);
    Close(value, SEQUENCE, 0, [], parts);
    EncodeExtension(out, ARC_BASIC_CONSTRAINTS, true, value.data, BasicConstraintsValue(bc));
  }

  method EncodeKeyUsage(out: Buffer, raw: u16)
    modifies out
    ensures out.data == old(out.data) + Encode(ExtensionTree(ARC_KEY_USAGE, true, Prim(0x03, KeyUsageBits(raw))))
  {
    var low, high := ReverseByte(raw % 256), ReverseByte(raw / 256);
    var content: bytes;
    if high != 0 {
      content := [TrailingZeros(high, 8), low, high];
    } else if low != 0 {
      content := [TrailingZeros(low, 8), low];
    } else {
      content := [0x00, 0x00];
    }
    var bitString := new Buffer();
    bitString.WrapPrimitive(0x03, content);
    EncodeExtension(out, ARC_KEY_USAGE, true, bitString.data, Prim(0x03, KeyUsageBits(raw)));
  }

  lemma PurposeOidsStep(eku: seq<u32>, i: nat, done: seq<Node>)
    requires i < |eku|
    ensures PurposeArc(eku[i]).None? ==> PurposeOids(eku[i..]) == PurposeOids(eku[i + 1..])
    ensures PurposeArc(eku[i]).Some? ==>
      done + PurposeOids(eku[i..])
      == done + [Oid([0x2B, 0x06, 0x01, 0x05, 0x05, 0x07, 0x03, PurposeArc(eku[i]).value])] + PurposeOids(eku[i + 1..])
  {
  }

  method EncodeExtendedKeyUsage(out: Buffer, eku: seq<u32>, critical: bool)
    modifies out
    ensures out.data == old(out.data)
      + Encode(ExtensionTree(ARC_EXTENDED_KEY_USAGE, critical, Cons(SEQUENCE, PurposeOids(eku))))
  {
    var value := new Buffer();
    ghost var done: seq<Node> := [];
    NoneYet([]);
    assert eku[0..] == eku && [] + PurposeOids(eku) == PurposeOids(eku);
    for i := 0 to |eku|
      invariant fresh(value) && value.data == [] + EncodeAll(done)
      invariant out.data == old(out.data)
      invariant PurposeOids(eku) == done + PurposeOids(eku[i..])
    {
      PurposeOidsStep(eku, i, done);
      var arc := PurposeArc(eku[i]);
      if arc.None? {
        continue;
      }
      PutOid(value, [0x2B, 0x06, 0x01, 0x05, 0x05, 0x07, 0x03, arc.value], [], done);
      done := done + [Oid([0x2B, 0x06, 0x01, 0x05, 0x05, 0x07, 0x03, arc.value])];
    }
    assert done + [] == done;
    Close(value, SEQUENCE, 0, [], done);
    EncodeExtension(out, ARC_EXTENDED_KEY_USAGE, critical, value.data, Cons(SEQUENCE, PurposeOids(eku)));
  }

  method EncodeSubjectKeyIdentifier(out: Buffer, ski: KeyId)
    modifies out
    ensures out.data == old(out.data) + Encode(ExtensionTree(ARC_SUBJECT_KEY_ID, false, Prim(0x04, ski)))
  {
    var inner := new Buffer();
    inner.WrapPrimitive(0x04, ski);
    EncodeExtension(out, ARC_SUBJECT_KEY_ID, false, inner.data, Prim(0x04, ski));
  }

  method EncodeAuthorityKeyIdentifier(out: Buffer, aki: KeyId)
    modifies out
    ensures out.data == old(out.data)
      + Encode(ExtensionTree(ARC_AUTHORITY_KEY_ID, false, Cons(SEQUENCE, [Prim(0x80, aki)])))
  {
    var value := new Buffer();
    value.Push(0x80);
    value.EncodeDefiniteLength(20);
    value.Extend(aki);
    assert value.data == [0x80] + Length(20) + aki;
    EncodeAllOne(Prim(0x80, aki));
    Close(value, SEQUENCE, 0, [], [Prim(0x80, aki)]);
    EncodeExtension(out, ARC_AUTHORITY_KEY_ID, false, value.data, Cons(SEQUENCE, [Prim(0x80, aki)]));
  }

  lemma Unchanged(done: seq<Node>)
    ensures done + [] == done
  {
  }

  method PutBasicConstraints(out: Buffer, x: Extensions, ghost before: bytes, ghost done: seq<Node>)
    requires out.data == before + EncodeAll(done)
    modifies out
    ensures out.data == before + EncodeAll(done + BasicConstraintsTrees(x))
  {
    Unchanged(done);
    if x.basicConstraints.Some? {
      EncodeBasicConstraints(out, x.basicConstraints.value);
      OneMore(before, done, BasicConstraintsTrees(x)[0]);
    }
  }

  method PutKeyUsage(out: Buffer, x: Extensions, ghost before: bytes, ghost done: seq<Node>)
    requires out.data == before + EncodeAll(done)
    modifies out
    ensures out.data == before + EncodeAll(done + KeyUsageTrees(x))
  {
    Unchanged(done);
    if x.keyUsage.Some? {
      EncodeKeyUsage(out, x.keyUsage.value);
      OneMore(before, done, KeyUsageTrees(x)[0]);
    }
  }

  method PutExtendedKeyUsage(out: Buffer, x: Extensions, ghost before: bytes, ghost done: seq<Node>)
    requires out.data == before + EncodeAll(done)
    modifies out
    ensures out.data == before + EncodeAll(done + ExtendedKeyUsageTrees(x))
  {
    Unchanged(done);
    if x.extendedKeyUsage.Some? {
      EncodeExtendedKeyUsage(out, x.extendedKeyUsage.value, true);
      OneMore(before, done, ExtendedKeyUsageTrees(x)[0]);
    }
  }

  method PutSubjectKeyId(out: Buffer, x: Extensions, ghost before: bytes, ghost done: seq<Node>)
    requires out.data == before + EncodeAll(done)
    modifies out
    ensures out.data == before + EncodeAll(done + SubjectKeyIdTrees(x))
  {
    Unchanged(done);
    if x.subjectKeyId.Some? {
      EncodeSubjectKeyIdentifier(out, x.subjectKeyId.value);
      OneMore(before, done, SubjectKeyIdTrees(x)[0]);
    }
  }

  method PutAuthorityKeyId(out: Buffer, x: Extensions, ghost before: bytes, ghost done: seq<Node>)
    requires out.data == before + EncodeAll(done)
    modifies out
    ensures out.data == before + EncodeAll(done + AuthorityKeyIdTrees(x))
  {
    Unchanged(done);
    if x.authorityKeyId.Some? {
      EncodeAuthorityKeyIdentifier(out, x.authorityKeyId.value);
      OneMore(before, done, AuthorityKeyIdTrees(x)[0]);
    }
  }

  /** The five extensions in their fixed order, each only when present. */
  method EncodeEachExtension(out: Buffer, x: Extensions)
    modifies out
    ensures out.data == old(out.data) + EncodeAll(ExtensionTrees(x))
  {
    ghost var before := out.data;
    NoneYet(before);
    PutBasicConstraints(out, x, before, []);
    ghost var one := [] + BasicConstraintsTrees(x);
    PutKeyUsage(out, x, before, one);
    ghost var two := one + KeyUsageTrees(x);
    PutExtendedKeyUsage(out, x, before, two);
    ghost var three := two + ExtendedKeyUsageTrees(x);
    PutSubjectKeyId(out, x, before, three);
    ghost var four := three + SubjectKeyIdTrees(x);
    PutAuthorityKeyId(out, x, before, four);
    assert one == BasicConstraintsTrees(x);
  }

  method EncodeExtensionsBlock(out: Buffer, x: Extensions)
    modifies out
    ensures out.data == old(out.data) + Encode(ExtensionsTree(x))
  {
    var start := |out.data|;
    ghost var before := out.data;
    EncodeEachExtension(out, x);
    Close(out, SEQUENCE, start, before, ExtensionTrees(x));
    EncodeAllOne(Cons(SEQUENCE, ExtensionTrees(x)));
    Close(out, 0xA3, start, before, [Cons(SEQUENCE, ExtensionTrees(x))]);
  }

  // ---- The certificate ----

  /** The version, serial number, algorithm and issuer. */
  method EncodeHead(out: Buffer, c: Certificate) returns (r: Result<(), Error>)
    modifies out
    ensures c.serial == [] ==> r == Err(FieldValueOutOfRange(1)) && old(out.data) <= out.data
    ensures c.serial != [] && NameTree(c.issuer).Err? ==> r == Err(NameTree(c.issuer).error) && old(out.data) <= out.data
    ensures c.serial != [] && NameTree(c.issuer).Ok? ==>
      r == Ok(()) && out.data == old(out.data) + EncodeAll(HeadTrees(SerialTree(c.serial), NameTree(c.issuer).value))
  {
    ghost var before := out.data;
    NoneYet(before);
    out.Extend([0xA0, 0x03, 0x02, 0x01, 0x02]);
    VersionBytes();
    ghost var version := Cons(0xA0, [Prim(0x02, [0x02])]);
    OneMore(before, [], version);
    r := EncodeSerialNumber(out, c.serial);
    if r.Err? {
      return;
    }
    OneMore(before, [version], SerialTree(c.serial));
    EncodeAlgorithmIdentifier(out);
    ghost var done := [version] + [SerialTree(c.serial)];
    OneMore(before, done, AlgorithmTree());
    done := done + [AlgorithmTree()];
    r := EncodeDn(out, c.issuer);
    if r.Err? {
      return;
    }
    OneMore(before, done, NameTree(c.issuer).value);
    assert done + [NameTree(c.issuer).value] == HeadTrees(SerialTree(c.serial), NameTree(c.issuer).value);
  }

  ghost function TailOf(c: Certificate, subject: Node): (ns: seq<Node>)
  {
    TailTrees(ValidityTree(c.notBefore, c.notAfter), subject, KeyTree(c.publicKey), ExtensionsTree(c.extensions))
  }

  /** The validity, subject, key and extensions. */
  method EncodeTail(out: Buffer, c: Certificate) returns (r: Result<(), Error>)
    modifies out
    ensures NameTree(c.subject).Err? ==> r == Err(NameTree(c.subject).error) && old(out.data) <= out.data
    ensures NameTree(c.subject).Ok? ==>
      r == Ok(()) && out.data == old(out.data) + EncodeAll(TailOf(c, NameTree(c.subject).value))
  {
    ghost var before := out.data;
    NoneYet(before);
    ghost var validity := ValidityTree(c.notBefore, c.notAfter);
    EncodeValidity(out, c.notBefore, c.notAfter);
    OneMore(before, [], validity);
    r := EncodeDn(out, c.subject);
    if r.Err? {
      return;
    }
    OneMore(before, [validity], NameTree(c.subject).value);
    ghost var done := [validity] + [NameTree(c.subject).value];
    EncodeSubjectPublicKeyInfo(out, c.publicKey);
    OneMore(before, done, KeyTree(c.publicKey));
    done := done + [KeyTree(c.publicKey)];
    EncodeExtensionsBlock(out, c.extensions);
    OneMore(before, done, ExtensionsTree(c.extensions));
    assert done + [ExtensionsTree(c.extensions)] == TailOf(c, NameTree(c.subject).value);
  }

  lemma VersionBytes()
    ensures Encode(Cons(0xA0, [Prim(0x02, [0x02])])) == [0xA0, 0x03, 0x02, 0x01, 0x02]
  {
  }

  lemma Joined(before: bytes, a: seq<Node>, b: seq<Node>)
    ensures (before + EncodeAll(a)) + EncodeAll(b) == before + EncodeAll(a + b)
  {
    EncodeAllAppend(a, b);
  }

  /** Every field, up to the first that fails. */
  method EncodeFields(out: Buffer, c: Certificate) returns (r: Result<(), Error>, ghost fields: seq<Node>)
    modifies out
    ensures r.Err? ==> TbsDer(c) == Err(r.error)
    ensures r.Ok? ==> TbsDer(c) == Ok(Encode(Cons(SEQUENCE, fields))) && out.data == old(out.data) + EncodeAll(fields)
  {
    fields := [];
    r := EncodeHead(out, c);
    if r.Ok? {
      r := EncodeTail(out, c);
      if r.Ok? {
        ghost var a, b := HeadTrees(SerialTree(c.serial), NameTree(c.issuer).value), TailOf(c, NameTree(c.subject).value);
        Joined(old(out.data), a, b);
        fields := a + b;
      }
    }
  }

  lemma Alone(s: bytes)
    ensures [] + s == s
  {
  }

  /** The in-place encoder produces exactly the encoding of the certificate's tree. */
  method MatterCertToX509TbsDer(c: Certificate) returns (r: Result<bytes, Error>)
    ensures r == TbsDer(c)
  {
    var out := new Buffer();
    ghost var fields;
    var outcome;
    outcome, fields := EncodeFields(out, c);
    if outcome.Err? {
      out.WrapTagged(SEQUENCE, 0);
      return Err(outcome.error);
    }
    Close(out, SEQUENCE, 0, [], fields);
    Alone(Encode(Cons(SEQUENCE, fields)));
    return Ok(out.data);
  }
}
