/** What a certificate's events say, written from the certificate encoding of section 6.5 of the
    Matter Core Specification: a stream is accepted as a certificate exactly when its fields say
    that certificate, each tag once. */
module CertificateTlvMeaning {
  import opened Wire
  import opened Certificate
  import opened Tlv
  import opened CertificateTlv
  import opened CertificateTlvTheorems

  // ---- Names ----

  /** The kinds of text, by tag from 1 to 16. */
  const KINDS: seq<TextKind> :=
    [CommonName, Surname, SerialNumber, CountryName, LocalityName, StateOrProvinceName, OrganizationName,
     OrganizationalUnitName, Title, Name, GivenName, Initials, GenerationQualifier, DnQualifier, Pseudonym, DomainComponent]

  predicate Tagged(e: Element, tag: byte, value: Value)
  {
    e == Scalar(Context(tag), value)
  }

  /** The event is this attribute. */
  predicate AttributeSays(e: Element, a: DnAttribute)
  {
    match a
    case Text(kind, s) =>
      && e.Scalar? && e.tag.Context? && 1 <= e.tag.number <= 16 && KINDS[e.tag.number - 1] == kind
      && e.value == Tlv.Utf8(s)
    case NodeId(v) => Tagged(e, 17, Tlv.Uint(v))
    case IcacId(v) => Tagged(e, 19, Tlv.Uint(v))
    case RcacId(v) => Tagged(e, 20, Tlv.Uint(v))
    case FabricId(v) => Tagged(e, 21, Tlv.Uint(v))
    case CaseAuthenticatedTag(v) => Tagged(e, 22, Tlv.Uint(v))
    case VendorId(_) => false
    case ProductId(_) => false
    case Other(tag, v) =>
      && (tag == 18 || 23 <= tag <= 26)
      && (match v
          case Utf8(s) => Tagged(e, tag, Tlv.Utf8(s))
          case Uint(n) => Tagged(e, tag, Tlv.Uint(n))
          case Bytes(b) => Tagged(e, tag, Tlv.Bytes(b)))
  }

  /** One event per attribute, and the end. */
  predicate NameSays(es: seq<Element>, dn: DistinguishedName)
  {
    |es| == |dn| + 1 && es[|dn|] == End && forall i :: 0 <= i < |dn| ==> AttributeSays(es[i], dn[i])
  }

  lemma KindsAre(tag: byte)
    requires 1 <= tag <= 16
    ensures KindOfTag(tag) == KINDS[tag - 1]
  {
  }

  lemma AttributeIff(tag: byte, value: Value, a: DnAttribute)
    ensures DecodeAttribute(tag, value) == Ok(a) <==> AttributeSays(Scalar(Context(tag), value), a)
  {
    if 1 <= tag <= 16 {
      KindsAre(tag);
    }
  }

  lemma FirstAttributeIff(e: Element, a: DnAttribute)
    ensures AttributeSays(e, a) <==> e.Scalar? && e.tag.Context? && DecodeAttribute(e.tag.number, e.value) == Ok(a)
  {
    if e.Scalar? && e.tag.Context? {
      AttributeIff(e.tag.number, e.value, a);
    }
  }

  lemma NameShift(es: seq<Element>, dn: DistinguishedName)
    requires es != [] && dn != []
    ensures NameSays(es, dn) <==> AttributeSays(es[0], dn[0]) && NameSays(es[1..], dn[1..])
  {
    if AttributeSays(es[0], dn[0]) && NameSays(es[1..], dn[1..]) {
      forall i | 0 <= i < |dn| ensures AttributeSays(es[i], dn[i]) {
        if i > 0 {
          assert es[1..][i - 1] == es[i] && dn[1..][i - 1] == dn[i];
        }
      }
    }
    if NameSays(es, dn) {
      forall i | 0 <= i < |dn[1..]| ensures AttributeSays(es[1..][i], dn[1..][i]) {
        assert es[1..][i] == es[i + 1] && dn[1..][i] == dn[i + 1];
      }
    }
  }

  lemma {:induction false} NameIff(es: seq<Element>, dn: DistinguishedName)
    ensures ReadName(es) == Ok((dn, [])) <==> NameSays(es, dn)
  {
    if es != [] && dn != [] {
      FirstAttributeIff(es[0], dn[0]);
      NameShift(es, dn);
      NameIff(es[1..], dn[1..]);
      assert [dn[0]] + dn[1..] == dn;
      if ReadName(es) == Ok((dn, [])) {
        var a := DecodeAttribute(es[0].tag.number, es[0].value).value;
        assert ([a] + ReadName(es[1..]).value.0)[1..] == ReadName(es[1..]).value.0;
      }
    }
  }

  // ---- Constraints and purposes ----

  predicate IsFlag(e: Element)
  {
    e.Scalar? && e.tag == Context(1) && e.value.Bool?
  }

  predicate IsLimit(e: Element)
  {
    e.Scalar? && e.tag == Context(2) && e.value.Uint? && e.value.number < 256
  }

  /** The last event of a kind. */
  function LastOf(es: seq<Element>, kind: Element -> bool): (e: Option<Element>)
    ensures e.Some? ==> kind(e.value)
  {
    if es == [] then None
    else if kind(es[|es| - 1]) then Some(es[|es| - 1])
    else LastOf(es[..|es| - 1], kind)
  }

  lemma {:induction false} LastOfCons(e: Element, es: seq<Element>, kind: Element -> bool)
    ensures LastOf([e] + es, kind)
         == if LastOf(es, kind).Some? then LastOf(es, kind) else if kind(e) then Some(e) else None
  {
    if es == [] {
      assert [e] + es == [e] && [e][..0] == [];
    } else {
      LastOfCons(e, es[..|es| - 1], kind);
      assert ([e] + es)[..|es|] == [e] + es[..|es| - 1];
    }
  }

  predicate AllItems(es: seq<Element>)
  {
    forall i :: 0 <= i < |es| ==> IsFlag(es[i]) || IsLimit(es[i])
  }

  /** The last CA flag and the last path length count; without one, it is as before. */
  function Constrained(es: seq<Element>, before: BasicConstraints): (bc: BasicConstraints)
  {
    var flag, limit := LastOf(es, IsFlag), LastOf(es, IsLimit);
    BasicConstraints(if flag.Some? then flag.value.value.flag else before.isCa,
                     if limit.Some? then Some(limit.value.value.number) else before.pathLen)
  }

  /** Flags and limits up to the end. */
  predicate ConstraintsSay(es: seq<Element>, before: BasicConstraints, bc: BasicConstraints)
  {
    es != [] && es[|es| - 1] == End && AllItems(es[..|es| - 1]) && bc == Constrained(es[..|es| - 1], before)
  }

  lemma ConstrainedCons(e: Element, es: seq<Element>, before: BasicConstraints)
    requires IsFlag(e) || IsLimit(e)
    ensures Constrained([e] + es, before)
         == Constrained(es, if IsFlag(e) then before.(isCa := e.value.flag) else before.(pathLen := Some(e.value.number)))
  {
    LastOfCons(e, es, IsFlag);
    LastOfCons(e, es, IsLimit);
  }

  lemma ConstraintsShift(es: seq<Element>, before: BasicConstraints, bc: BasicConstraints)
    requires |es| > 1
    ensures ConstraintsSay(es, before, bc) <==>
      && (IsFlag(es[0]) || IsLimit(es[0]))
      && ConstraintsSay(es[1..], if IsFlag(es[0]) then before.(isCa := es[0].value.flag)
                                 else before.(pathLen := Some(es[0].value.number)), bc)
  {
    var items := es[..|es| - 1];
    assert items == [es[0]] + items[1..] && items[1..] == es[1..][..|es| - 2];
    assert AllItems(items) <==> (IsFlag(es[0]) || IsLimit(es[0])) && AllItems(items[1..]) by {
      assert forall i :: 0 < i < |items| ==> items[i] == items[1..][i - 1];
    }
    if IsFlag(es[0]) || IsLimit(es[0]) {
      ConstrainedCons(es[0], items[1..], before);
    }
  }

  lemma {:induction false} ConstraintsIff(es: seq<Element>, before: BasicConstraints, bc: BasicConstraints)
    ensures ReadConstraints(es, before) == Ok((bc, [])) <==> ConstraintsSay(es, before, bc)
    decreases |es|
  {
    if |es| > 1 {
      ConstraintsShift(es, before, bc);
      if IsFlag(es[0]) {
        ConstraintsIff(es[1..], before.(isCa := es[0].value.flag), bc);
      } else if IsLimit(es[0]) {
        ConstraintsIff(es[1..], before.(pathLen := Some(es[0].value.number)), bc);
      }
    } else if |es| == 1 {
      assert es[..0] == [] && es[1..] == [];
    }
  }

  /** One number per purpose, whatever its tag, and the end. */
  predicate UintsSay(es: seq<Element>, eku: seq<u32>)
  {
    && |es| == |eku| + 1 && es[|eku|] == End
    && forall i :: 0 <= i < |eku| ==> es[i].Scalar? && es[i].value == Tlv.Uint(eku[i])
  }

  lemma UintsShift(es: seq<Element>, eku: seq<u32>)
    requires es != [] && eku != []
    ensures UintsSay(es, eku) <==> es[0].Scalar? && es[0].value == Tlv.Uint(eku[0]) && UintsSay(es[1..], eku[1..])
  {
    if es[0].Scalar? && es[0].value == Tlv.Uint(eku[0]) && UintsSay(es[1..], eku[1..]) {
      forall i | 0 <= i < |eku| ensures es[i].Scalar? && es[i].value == Tlv.Uint(eku[i]) {
        if i > 0 {
          assert es[1..][i - 1] == es[i] && eku[1..][i - 1] == eku[i];
        }
      }
    }
    if UintsSay(es, eku) {
      forall i | 0 <= i < |eku[1..]| ensures es[1..][i].Scalar? && es[1..][i].value == Tlv.Uint(eku[1..][i]) {
        assert es[1..][i] == es[i + 1] && eku[1..][i] == eku[i + 1];
      }
    }
  }

  lemma {:induction false} UintsIff(es: seq<Element>, eku: seq<u32>)
    ensures ReadUints(es) == Ok((eku, [])) <==> UintsSay(es, eku)
  {
    if es != [] && eku != [] {
      UintsShift(es, eku);
      UintsIff(es[1..], eku[1..]);
      assert [eku[0]] + eku[1..] == eku;
      if ReadUints(es) == Ok((eku, [])) {
        assert ([es[0].value.number] + ReadUints(es[1..]).value.0)[1..] == ReadUints(es[1..]).value.0;
      }
    }
  }

  // ---- Extensions ----

  predicate Present(x: Extensions, k: byte)
  {
    match k
    case 1 => x.basicConstraints.Some?
    case 2 => x.keyUsage.Some?
    case 3 => x.extendedKeyUsage.Some?
    case 4 => x.subjectKeyId.Some?
    case 5 => x.authorityKeyId.Some?
    case _ => false
  }

  predicate SameSlot(x: Extensions, y: Extensions, k: byte)
  {
    match k
    case 1 => x.basicConstraints == y.basicConstraints
    case 2 => x.keyUsage == y.keyUsage
    case 3 => x.extendedKeyUsage == y.extendedKeyUsage
    case 4 => x.subjectKeyId == y.subjectKeyId
    case 5 => x.authorityKeyId == y.authorityKeyId
    case _ => true
  }

  /** The events are extension `k` of `x`; of the key usage only nine bits are kept. */
  predicate ExtensionSays(f: seq<Element>, k: byte, x: Extensions)
  {
    f != [] && Present(x, k) &&
    match k
    case 1 =>
      f[0] == Start(Context(1), Structure) && ConstraintsSay(f[1..], BasicConstraints(false, None), x.basicConstraints.value)
    case 2 =>
      |f| == 1 && f[0].Scalar? && f[0].tag == Context(2) && f[0].value.Uint? && f[0].value.number < 65536
      && x.keyUsage.value == f[0].value.number % 512
    case 3 => f[0] == Start(Context(3), Array) && UintsSay(f[1..], x.extendedKeyUsage.value)
    case 4 => f == [Scalar(Context(4), Tlv.Bytes(x.subjectKeyId.value))]
    case _ => f == [Scalar(Context(5), Tlv.Bytes(x.authorityKeyId.value))]
  }

  /** `x0` with part `k` of `x`. */
  function Put(x0: Extensions, x: Extensions, k: byte): (y: Extensions)
  {
    match k
    case 1 => x0.(basicConstraints := x.basicConstraints)
    case 2 => x0.(keyUsage := x.keyUsage)
    case 3 => x0.(extendedKeyUsage := x.extendedKeyUsage)
    case 4 => x0.(subjectKeyId := x.subjectKeyId)
    case 5 => x0.(authorityKeyId := x.authorityKeyId)
    case _ => x0
  }

  /** What says an extension depends on that extension alone. */
  lemma SaysBySlot(f: seq<Element>, k: byte, x: Extensions, y: Extensions)
    requires SameSlot(x, y, k)
    ensures ExtensionSays(f, k, x) <==> ExtensionSays(f, k, y)
  {
  }

  /** Which extension an accepted one is. */
  function ExtensionTag(e: Element): (k: byte)
  {
    if (e.Scalar? || e.Start?) && e.tag.Context? then e.tag.number else 0
  }

  lemma ConstraintsChunk(f: seq<Element>, x0: Extensions, x: Extensions)
    requires f != [] && f[0] == Start(Context(1), Structure) && x0.basicConstraints.None?
    ensures ExtensionSays(f, 1, x) <==>
      ReadExtension(f, x0) == Ok((Put(x0, x, 1), [])) && x.basicConstraints.Some?
  {
    if x.basicConstraints.Some? {
      ConstraintsIff(f[1..], BasicConstraints(false, None), x.basicConstraints.value);
    }
  }

  lemma UintsChunk(f: seq<Element>, x0: Extensions, x: Extensions)
    requires f != [] && f[0] == Start(Context(3), Array) && x0.extendedKeyUsage.None?
    ensures ExtensionSays(f, 3, x) <==>
      ReadExtension(f, x0) == Ok((Put(x0, x, 3), [])) && x.extendedKeyUsage.Some?
  {
    if x.extendedKeyUsage.Some? {
      UintsIff(f[1..], x.extendedKeyUsage.value);
    }
  }

  lemma ScalarChunk(f: seq<Element>, k: byte, x0: Extensions, x: Extensions)
    requires f != [] && f[0].Scalar? && f[0].tag == Context(k) && !Present(x0, k) && (k == 2 || k == 4 || k == 5)
    ensures ExtensionSays(f, k, x) <==> ReadExtension(f, x0) == Ok((Put(x0, x, k), [])) && Present(x, k)
  {
    assert |f| == 1 <==> f[1..] == [];
  }

  /** Events that say an extension are read as it. */
  lemma ChunkIsRead(f: seq<Element>, k: byte, x0: Extensions, x: Extensions)
    requires ExtensionSays(f, k, x) && !Present(x0, k)
    ensures ReadExtension(f, x0) == Ok((Put(x0, x, k), []))
  {
    if k == 1 {
      ConstraintsChunk(f, x0, x);
    } else if k == 3 {
      UintsChunk(f, x0, x);
    } else {
      ScalarChunk(f, k, x0, x);
    }
  }

  /** Events that are read as an extension say it. */
  lemma ReadChunkSays(f: seq<Element>, x0: Extensions, x: Extensions)
    requires f != [] && ReadExtension(f, x0) == Ok((x, []))
    ensures var k := ExtensionTag(f[0]); !Present(x0, k) && ExtensionSays(f, k, x) && x == Put(x0, x, k)
  {
    var k := ExtensionTag(f[0]);
    if k == 1 {
      ConstraintsChunk(f, x0, x);
    } else if k == 3 {
      UintsChunk(f, x0, x);
    } else {
      ScalarChunk(f, k, x0, x);
    }
  }

  /** The extensions named are each said once, and are what `x` has besides `x0`. */
  predicate SayAfter(fs: seq<seq<Element>>, ks: seq<byte>, x0: Extensions, x: Extensions)
  {
    && |fs| == |ks|
    && (forall i :: 0 <= i < |fs| ==> ExtensionSays(fs[i], ks[i], x))
    && (forall i, j :: 0 <= i < j < |ks| ==> ks[i] != ks[j])
    && (forall i :: 0 <= i < |ks| ==> !Present(x0, ks[i]))
    && (forall k :: k !in ks ==> SameSlot(x0, x, k))
  }

  lemma SayNone(x0: Extensions, x: Extensions)
    requires SayAfter([], [], x0, x)
    ensures x0 == x
  {
    assert SameSlot(x0, x, 1) && SameSlot(x0, x, 2) && SameSlot(x0, x, 3) && SameSlot(x0, x, 4) && SameSlot(x0, x, 5);
  }

  lemma SayOneMore(fs: seq<seq<Element>>, ks: seq<byte>, x0: Extensions, x: Extensions)
    requires fs != [] && SayAfter(fs, ks, x0, x)
    ensures SayAfter(fs[1..], ks[1..], Put(x0, x, ks[0]), x)
  {
    var x1, k0 := Put(x0, x, ks[0]), ks[0];
    forall i | 0 <= i < |ks[1..]| ensures !Present(x1, ks[1..][i]) {
      assert ks[1..][i] == ks[i + 1] && ks[i + 1] != k0;
    }
    forall k | k !in ks[1..] ensures SameSlot(x1, x, k) {
      if k != k0 {
        assert k !in ks;
        assert SameSlot(x0, x, k);
      }
    }
  }

  lemma SayFirst(f: seq<Element>, k0: byte, fs: seq<seq<Element>>, ks: seq<byte>, x0: Extensions, x1: Extensions, x: Extensions)
    requires SayAfter(fs, ks, x1, x) && !Present(x0, k0) && ExtensionSays(f, k0, x1) && x1 == Put(x0, x1, k0)
    ensures SayAfter([f] + fs, [k0] + ks, x0, x)
  {
    assert k0 !in ks;
    assert SameSlot(x1, x, k0);
    SaysBySlot(f, k0, x1, x);
    var gs, js := [f] + fs, [k0] + ks;
    forall i | 0 <= i < |js| ensures ExtensionSays(gs[i], js[i], x) && !Present(x0, js[i]) {
      if i > 0 {
        assert gs[i] == fs[i - 1] && js[i] == ks[i - 1];
        assert !Present(x1, ks[i - 1]) && ks[i - 1] != k0;
      }
    }
    forall k | k !in js ensures SameSlot(x0, x, k) {
      assert js[0] == k0 && k !in ks;
      assert SameSlot(x1, x, k);
    }
  }

  lemma {:induction false} ExtensionsAreSaid(es: seq<Element>, x0: Extensions) returns (fs: seq<seq<Element>>, ks: seq<byte>)
    requires ReadExtensions(es, x0).Ok?
    ensures var (x, rest) := ReadExtensions(es, x0).value;
            es == Concat(fs) + [End] + rest && SayAfter(fs, ks, x0, x)
    decreases |es|
  {
    var (x, rest) := ReadExtensions(es, x0).value;
    if es[0].End? {
      fs, ks := [], [];
      assert es == [End] + rest && [] + [End] + rest == [End] + rest;
    } else {
      var (x1, after) := ReadExtension(es, x0).value;
      var f := ExtensionPrefix(es, x0);
      ReadChunkSays(f, x0, x1);
      var gs, js := ExtensionsAreSaid(after, x1);
      SayFirst(f, ExtensionTag(f[0]), gs, js, x0, x1, x);
      fs, ks := [f] + gs, [ExtensionTag(f[0])] + js;
      assert fs[1..] == gs;
      assert f + (Concat(gs) + [End] + rest) == (f + Concat(gs)) + [End] + rest;
    }
  }

  lemma {:induction false} SaidExtensionsAreRead(fs: seq<seq<Element>>, ks: seq<byte>, x0: Extensions, x: Extensions,
                                                 rest: seq<Element>)
    requires SayAfter(fs, ks, x0, x)
    ensures ReadExtensions(Concat(fs) + [End] + rest, x0) == Ok((x, rest))
    decreases |fs|
  {
    if fs == [] {
      SayNone(x0, x);
      assert [] + [End] + rest == [End] + rest && ([End] + rest)[1..] == rest;
    } else {
      var f, more := fs[0], Concat(fs[1..]) + [End] + rest;
      assert Concat(fs) + [End] + rest == f + more;
      ChunkIsRead(f, ks[0], x0, x);
      ExtensionReadExtends(f, x0, more);
      assert [] + more == more;
      SayOneMore(fs, ks, x0, x);
      SaidExtensionsAreRead(fs[1..], ks[1..], Put(x0, x, ks[0]), x, rest);
      assert (f + more)[0] == f[0];
    }
  }

  predicate AreExtensions(es: seq<Element>, x: Extensions, fs: seq<seq<Element>>, ks: seq<byte>)
  {
    es == Concat(fs) + [End] && SayAfter(fs, ks, NO_EXTENSIONS, x)
  }

  /** The extensions of `x`, each once and in some order, and the end. */
  ghost predicate ExtensionsSay(es: seq<Element>, x: Extensions)
  {
    exists fs, ks :: AreExtensions(es, x, fs, ks)
  }

  lemma ExtensionsIff(es: seq<Element>, x: Extensions)
    ensures ReadExtensions(es, NO_EXTENSIONS) == Ok((x, [])) <==> ExtensionsSay(es, x)
  {
    if ReadExtensions(es, NO_EXTENSIONS) == Ok((x, [])) {
      var fs, ks := ExtensionsAreSaid(es, NO_EXTENSIONS);
      assert es == Concat(fs) + [End];
      assert AreExtensions(es, x, fs, ks);
    }
    if ExtensionsSay(es, x) {
      var fs, ks :| AreExtensions(es, x, fs, ks);
      SaidExtensionsAreRead(fs, ks, NO_EXTENSIONS, x, []);
      assert es + [] == es;
    }
  }

  // ---- Fields ----

  /** The events are field `k` of the certificate. */
  ghost predicate FieldSays(f: seq<Element>, k: nat, c: Certificate)
  {
    f != [] &&
    match k
    case 1 => f == [Scalar(Context(1), Tlv.Bytes(c.serial))] && 1 <= |c.serial| <= 20
    case 2 => f == [Scalar(Context(2), Tlv.Uint(1))]
    case 3 => f[0] == Start(Context(3), List) && NameSays(f[1..], c.issuer)
    case 4 => f == [Scalar(Context(4), Tlv.Uint(c.notBefore))]
    case 5 => f == [Scalar(Context(5), Tlv.Uint(c.notAfter))]
    case 6 => f[0] == Start(Context(6), List) && NameSays(f[1..], c.subject)
    case 7 => f == [Scalar(Context(7), Tlv.Uint(1))]
    case 8 => f == [Scalar(Context(8), Tlv.Uint(1))]
    case 9 => f == [Scalar(Context(9), Tlv.Bytes(c.publicKey))]
    case 10 => f[0] == Start(Context(10), List) && ExtensionsSay(f[1..], c.extensions)
    case 11 => f == [Scalar(Context(11), Tlv.Bytes(c.signature))]
    case _ => false
  }

  /** One of the fields is field `k` of the certificate. */
  ghost predicate OneSays(fs: seq<seq<Element>>, k: nat, c: Certificate)
  {
    exists i :: 0 <= i < |fs| && FieldSays(fs[i], k, c)
  }

  /** Eleven fields, in any order, of which one is each field of the certificate. */
  ghost predicate FieldsSay(fs: seq<seq<Element>>, c: Certificate)
  {
    |fs| == 11 && forall k: nat :: 1 <= k <= 11 ==> OneSays(fs, k, c)
  }

  lemma BytesFieldIff(f: seq<Element>, k: nat, c: Certificate)
    requires k == 1 || k == 9 || k == 11
    ensures FieldSays(f, k, c) <==> IsField(f) && SlotOf(f) == EachSlot(c)[k - 1]
  {
    assert f != [] && f[1..] == [] ==> f == [f[0]];
  }

  lemma UintFieldIff(f: seq<Element>, k: nat, c: Certificate)
    requires k == 2 || k == 4 || k == 5 || k == 7 || k == 8
    ensures FieldSays(f, k, c) <==> IsField(f) && SlotOf(f) == EachSlot(c)[k - 1]
  {
    assert f != [] && f[1..] == [] ==> f == [f[0]];
  }

  lemma NameFieldIff(f: seq<Element>, k: nat, c: Certificate)
    requires k == 3 || k == 6
    ensures FieldSays(f, k, c) <==> IsField(f) && SlotOf(f) == EachSlot(c)[k - 1]
  {
    if f != [] {
      NameIff(f[1..], if k == 3 then c.issuer else c.subject);
    }
  }

  lemma ExtensionsFieldIff(f: seq<Element>, c: Certificate)
    ensures FieldSays(f, 10, c) <==> IsField(f) && SlotOf(f) == EachSlot(c)[9]
  {
    if f != [] {
      ExtensionsIff(f[1..], c.extensions);
    }
  }

  lemma FieldIff(f: seq<Element>, k: nat, c: Certificate)
    requires 1 <= k <= 11
    ensures FieldSays(f, k, c) <==> IsField(f) && SlotOf(f) == EachSlot(c)[k - 1]
  {
    if k == 1 || k == 9 || k == 11 {
      BytesFieldIff(f, k, c);
    } else if k == 3 || k == 6 {
      NameFieldIff(f, k, c);
    } else if k == 10 {
      ExtensionsFieldIff(f, c);
    } else {
      UintFieldIff(f, k, c);
    }
  }

  // ---- Certificates ----

  predicate Filled(s: Slots, k: nat)
  {
    match k
    case 1 => s.serial.Some?
    case 2 => s.signatureAlgorithm
    case 3 => s.issuer.Some?
    case 4 => s.notBefore.Some?
    case 5 => s.notAfter.Some?
    case 6 => s.subject.Some?
    case 7 => s.keyAlgorithm
    case 8 => s.curve
    case 9 => s.publicKey.Some?
    case 10 => s.extensions.Some?
    case 11 => s.signature.Some?
    case _ => false
  }

  /** Slot `k` alone. */
  function Only(s: Slots, k: nat): (r: Slots)
  {
    match k
    case 1 => EMPTY.(serial := s.serial)
    case 2 => EMPTY.(signatureAlgorithm := s.signatureAlgorithm)
    case 3 => EMPTY.(issuer := s.issuer)
    case 4 => EMPTY.(notBefore := s.notBefore)
    case 5 => EMPTY.(notAfter := s.notAfter)
    case 6 => EMPTY.(subject := s.subject)
    case 7 => EMPTY.(keyAlgorithm := s.keyAlgorithm)
    case 8 => EMPTY.(curve := s.curve)
    case 9 => EMPTY.(publicKey := s.publicKey)
    case 10 => EMPTY.(extensions := s.extensions)
    case 11 => EMPTY.(signature := s.signature)
    case _ => EMPTY
  }

  function One(b: bool): (n: nat)
  {
    if b then 1 else 0
  }

  /** How many slots are filled. */
  function Count(s: Slots): (n: nat)
  {
    One(s.serial.Some?) + One(s.signatureAlgorithm) + One(s.issuer.Some?) + One(s.notBefore.Some?) + One(s.notAfter.Some?)
    + One(s.subject.Some?) + One(s.keyAlgorithm) + One(s.curve) + One(s.publicKey.Some?) + One(s.extensions.Some?)
    + One(s.signature.Some?)
  }

  lemma FieldFillsOne(f: seq<Element>) returns (k: nat)
    requires IsField(f)
    ensures Filled(SlotOf(f), k) && SlotOf(f) == Only(SlotOf(f), k)
  {
    k := f[0].tag.number;
  }

  /** `t` with slot `k` of `s`. */
  function With(t: Slots, s: Slots, k: nat): (r: Slots)
  {
    match k
    case 1 => t.(serial := s.serial)
    case 2 => t.(signatureAlgorithm := s.signatureAlgorithm)
    case 3 => t.(issuer := s.issuer)
    case 4 => t.(notBefore := s.notBefore)
    case 5 => t.(notAfter := s.notAfter)
    case 6 => t.(subject := s.subject)
    case 7 => t.(keyAlgorithm := s.keyAlgorithm)
    case 8 => t.(curve := s.curve)
    case 9 => t.(publicKey := s.publicKey)
    case 10 => t.(extensions := s.extensions)
    case 11 => t.(signature := s.signature)
    case _ => t
  }

  lemma UnionOfOne(s: Slots, k: nat, t: Slots)
    requires Filled(s, k)
    ensures Union(Only(s, k), t) == With(t, s, k)
  {
  }

  lemma OneOfTwo(s: Slots, k: nat, t: Slots)
    requires Filled(s, k) && Disjoint(s, t)
    ensures !Filled(t, k)
  {
  }

  lemma WithCounts(t: Slots, s: Slots, k: nat)
    requires Filled(s, k) && !Filled(t, k)
    ensures Count(With(t, s, k)) == 1 + Count(t)
  {
  }

  lemma WithFills(t: Slots, s: Slots, k: nat, j: nat)
    requires Filled(s, k)
    ensures j == k ==> Only(With(t, s, k), j) == Only(s, k)
    ensures j != k ==> Only(With(t, s, k), j) == Only(t, j) && (Filled(With(t, s, k), j) <==> Filled(t, j))
  {
  }

  predicate Among(fs: seq<seq<Element>>, s: Slots)
  {
    exists i :: 0 <= i < |fs| && SlotOf(fs[i]) == s
  }

  lemma AmongMore(fs: seq<seq<Element>>, s: Slots)
    requires fs != [] && Among(fs[1..], s)
    ensures Among(fs, s)
  {
    var i :| 0 <= i < |fs[1..]| && SlotOf(fs[1..][i]) == s;
    assert fs[i + 1] == fs[1..][i];
  }

  lemma {:induction false} GatheredSlots(fs: seq<seq<Element>>, t: Slots)
    requires AllFields(fs) && Gather(fs) == Some(t)
    ensures |fs| == Count(t)
    ensures forall k :: Filled(t, k) ==> Among(fs, Only(t, k))
  {
    if fs != [] {
      var s, u := SlotOf(fs[0]), Gather(fs[1..]).value;
      GatheredSlots(fs[1..], u);
      var j := FieldFillsOne(fs[0]);
      UnionOfOne(s, j, u);
      OneOfTwo(s, j, u);
      WithCounts(u, s, j);
      forall k | Filled(t, k) ensures Among(fs, Only(t, k)) {
        WithFills(u, s, j, k);
        if k == j {
          assert SlotOf(fs[0]) == Only(t, k);
        } else {
          AmongMore(fs, Only(t, k));
        }
      }
    }
  }

  lemma AllSlotsAre(c: Certificate, k: nat)
    requires 1 <= k <= 11
    ensures Filled(AllSlots(c), k) && Only(AllSlots(c), k) == EachSlot(c)[k - 1]
  {
  }

  lemma CompleteIff(s: Slots, c: Certificate)
    ensures Complete(s) == Ok(c) <==> s == AllSlots(c)
  {
  }

  /** What is accepted says the certificate it is accepted as. */
  lemma AcceptedSays(es: seq<Element>, c: Certificate) returns (fs: seq<seq<Element>>, rest: seq<Element>)
    requires FromTlv(es) == Ok(c)
    ensures es == Stream(fs) + rest && FieldsSay(fs, c)
  {
    fs, rest := AcceptedIsFields(es);
    FromTlvOfFields(fs, rest);
    var t := Gather(fs).value;
    CompleteIff(t, c);
    GatheredSlots(fs, t);
    forall k: nat | 1 <= k <= 11 ensures OneSays(fs, k, c) {
      AllSlotsAre(c, k);
      assert Among(fs, Only(t, k));
      var i :| 0 <= i < |fs| && SlotOf(fs[i]) == EachSlot(c)[k - 1];
      FieldIff(fs[i], k, c);
      assert FieldSays(fs[i], k, c);
    }
  }

  /** As many members, of which one is each of some different ones: these are all. */
  lemma {:induction false} SameMultiset<T>(fs: seq<T>, gs: seq<T>)
    requires |fs| == |gs| && (forall i :: 0 <= i < |gs| ==> gs[i] in fs)
    requires forall i, j :: 0 <= i < j < |gs| ==> gs[i] != gs[j]
    ensures multiset(fs) == multiset(gs)
  {
    if gs != [] {
      var i :| 0 <= i < |fs| && fs[i] == gs[0];
      var rest := fs[..i] + fs[i + 1..];
      assert fs == fs[..i] + [fs[i]] + fs[i + 1..];
      forall j | 0 <= j < |gs[1..]| ensures gs[1..][j] in rest {
        assert gs[j + 1] in fs && gs[j + 1] != fs[i];
      }
      SameMultiset(rest, gs[1..]);
      assert gs == [gs[0]] + gs[1..];
    }
  }

  lemma FieldTag(f: seq<Element>, k: nat, c: Certificate)
    requires FieldSays(f, k, c)
    ensures 1 <= k <= 11 && (f[0].Scalar? || f[0].Start?) && f[0].tag == Context(k as byte)
  {
  }

  /** The fields in the order of their tags. */
  lemma InTagOrder(fs: seq<seq<Element>>, c: Certificate) returns (gs: seq<seq<Element>>)
    requires FieldsSay(fs, c)
    ensures |gs| == 11 && multiset(fs) == multiset(gs) && forall i :: 0 <= i < 11 ==> FieldSays(gs[i], i + 1, c)
  {
    gs := [];
    while |gs| < 11
      invariant |gs| <= 11
      invariant forall k :: 0 <= k < |gs| ==> gs[k] in fs && FieldSays(gs[k], k + 1, c)
    {
      assert OneSays(fs, |gs| + 1, c);
      var i :| 0 <= i < |fs| && FieldSays(fs[i], |gs| + 1, c);
      gs := gs + [fs[i]];
    }
    forall i, j | 0 <= i < j < |gs| ensures gs[i] != gs[j] {
      FieldTag(gs[i], i + 1, c);
      FieldTag(gs[j], j + 1, c);
    }
    SameMultiset(fs, gs);
  }

  lemma SaidIsAccepted(fs: seq<seq<Element>>, c: Certificate, rest: seq<Element>)
    requires FieldsSay(fs, c)
    ensures FromTlv(Stream(fs) + rest) == Ok(c)
  {
    var gs := InTagOrder(fs, c);
    forall i | 0 <= i < 11 ensures IsField(gs[i]) && SlotOf(gs[i]) == EachSlot(c)[i] {
      FieldIff(gs[i], i + 1, c);
    }
    GatherOfSlots(gs, EachSlot(c));
    EachSlotGathers(c);
    SameMembers(gs, fs);
    GatherPermutes(fs, gs);
    FromTlvOfFields(fs, rest);
    CompleteIff(AllSlots(c), c);
  }

  ghost predicate Says(es: seq<Element>, c: Certificate, fs: seq<seq<Element>>, rest: seq<Element>)
  {
    es == Stream(fs) + rest && FieldsSay(fs, c)
  }

  /** A stream is accepted as a certificate exactly when it is a structure of eleven fields, in
      any order, that say the parts of that certificate, with anything after the structure. */
  lemma AcceptedIff(es: seq<Element>, c: Certificate)
    ensures FromTlv(es) == Ok(c) <==> exists fs, rest :: Says(es, c, fs, rest)
  {
    if FromTlv(es) == Ok(c) {
      var fs, rest := AcceptedSays(es, c);
      assert Says(es, c, fs, rest);
    }
    if fs, rest :| Says(es, c, fs, rest) {
      SaidIsAccepted(fs, c, rest);
    }
  }
}
