/** The certificate builder and the role constructors, and what they promise together: the
    chains they issue validate. */
module Issuer {
  import opened Wire
  import opened Der
  import opened Certificate
  import opened X509
  import opened Chain
  import opened X509Errors
  import R = X509Reader
  import X509Meaning

  // ---- The builder ----

  datatype BuilderField = SerialUnset | IssuerUnset | NotBeforeUnset | NotAfterUnset | SubjectUnset | KeyUnset | ExtensionsUnset

  datatype IssueError = MissingBuilderField(field: BuilderField) | Rejected(error: Error) | SigningFailed

  datatype Builder = Builder(
    serial: Option<bytes>,
    issuer: Option<DistinguishedName>,
    notBefore: Option<u32>,
    notAfter: Option<u32>,
    subject: Option<DistinguishedName>,
    publicKey: Option<PublicKey>,
    extensions: Option<Extensions>)

  datatype Unsigned = Unsigned(
    serial: bytes,
    issuer: DistinguishedName,
    notBefore: u32,
    notAfter: u32,
    subject: DistinguishedName,
    publicKey: PublicKey,
    extensions: Extensions)

  function BuildUnsigned(b: Builder): (r: Result<Unsigned, IssueError>)
  {
    if b.serial.None? then Err(MissingBuilderField(SerialUnset))
    else if |b.serial.value| == 0 || |b.serial.value| > 20 then Err(Rejected(FieldValueOutOfRange(1)))
    else if b.issuer.None? then Err(MissingBuilderField(IssuerUnset))
    else if b.notBefore.None? then Err(MissingBuilderField(NotBeforeUnset))
    else if b.notAfter.None? then Err(MissingBuilderField(NotAfterUnset))
    else if b.subject.None? then Err(MissingBuilderField(SubjectUnset))
    else if b.publicKey.None? then Err(MissingBuilderField(KeyUnset))
    else if b.extensions.None? then Err(MissingBuilderField(ExtensionsUnset))
    else Ok(Unsigned(b.serial.value, b.issuer.value, b.notBefore.value, b.notAfter.value, b.subject.value,
                     b.publicKey.value, b.extensions.value))
  }

  /** The field is missing, and everything that is looked at before it is in order. */
  predicate FirstMissing(b: Builder, f: BuilderField)
  {
    var serial := b.serial.Some? && 1 <= |b.serial.value| <= 20;
    match f
    case SerialUnset => b.serial.None?
    case IssuerUnset => serial && b.issuer.None?
    case NotBeforeUnset => serial && b.issuer.Some? && b.notBefore.None?
    case NotAfterUnset => serial && b.issuer.Some? && b.notBefore.Some? && b.notAfter.None?
    case SubjectUnset => serial && b.issuer.Some? && b.notBefore.Some? && b.notAfter.Some? && b.subject.None?
    case KeyUnset =>
      serial && b.issuer.Some? && b.notBefore.Some? && b.notAfter.Some? && b.subject.Some? && b.publicKey.None?
    case ExtensionsUnset =>
      serial && b.issuer.Some? && b.notBefore.Some? && b.notAfter.Some? && b.subject.Some? && b.publicKey.Some?
      && b.extensions.None?
  }

  /** Exactly what the builder answers. */
  lemma BuildIff(b: Builder)
    ensures BuildUnsigned(b).Ok? <==>
      && b.serial.Some? && 1 <= |b.serial.value| <= 20 && b.issuer.Some? && b.notBefore.Some? && b.notAfter.Some?
      && b.subject.Some? && b.publicKey.Some? && b.extensions.Some?
    ensures BuildUnsigned(b) == Err(Rejected(FieldValueOutOfRange(1))) <==>
      b.serial.Some? && (|b.serial.value| == 0 || |b.serial.value| > 20)
    ensures forall f :: BuildUnsigned(b) == Err(MissingBuilderField(f)) <==> FirstMissing(b, f)
    ensures BuildUnsigned(b).Ok? ==> var u := BuildUnsigned(b).value;
      && u.serial == b.serial.value && u.issuer == b.issuer.value && u.notBefore == b.notBefore.value
      && u.notAfter == b.notAfter.value && u.subject == b.subject.value && u.publicKey == b.publicKey.value
      && u.extensions == b.extensions.value
  {
  }

  function Assemble(u: Unsigned, signature: Signature): (c: Certificate)
  {
    Certificate(u.serial, u.issuer, u.notBefore, u.notAfter, u.subject, u.publicKey, u.extensions, signature)
  }

  const PLACEHOLDER: Signature := Zeros(64)

  /** The bytes to sign, taken with a placeholder signature. */
  function UnsignedTbs(u: Unsigned): (r: Result<bytes, Error>)
  {
    TbsDer(Assemble(u, PLACEHOLDER))
  }

  // ---- Roles ----

  /** SHA-1, which this model leaves open. */
  type Hash = bytes -> KeyId

  function KeyIdOf(hash: Hash, key: PublicKey): (k: KeyId)
  {
    hash(key[1..])
  }

  const CA_USAGE: u16 := 0x60
  const NODE_USAGE: u16 := 0x01

  datatype RcacParams = RcacParams(id: u64, publicKey: PublicKey, serial: bytes, notBefore: u32, notAfter: u32,
                                   pathLen: Option<byte>)

  datatype IcacParams = IcacParams(id: u64, issuer: DistinguishedName, issuerKeyId: KeyId, publicKey: PublicKey,
                                   serial: bytes, notBefore: u32, notAfter: u32)

  datatype NocParams = NocParams(fabricId: u64, nodeId: u64, cats: seq<u32>, issuer: DistinguishedName,
                                 issuerKeyId: KeyId, publicKey: PublicKey, serial: bytes, notBefore: u32, notAfter: u32)

  function Rcac(hash: Hash, p: RcacParams): (r: Result<Unsigned, IssueError>)
  {
    var name := [RcacId(p.id)];
    var key := KeyIdOf(hash, p.publicKey);
    BuildUnsigned(Builder(Some(p.serial), Some(name), Some(p.notBefore), Some(p.notAfter), Some(name), Some(p.publicKey),
                          Some(Extensions(Some(BasicConstraints(true, p.pathLen)), Some(CA_USAGE), None, Some(key), Some(key)))))
  }

  function Icac(hash: Hash, p: IcacParams): (r: Result<Unsigned, IssueError>)
  {
    BuildUnsigned(Builder(Some(p.serial), Some(p.issuer), Some(p.notBefore), Some(p.notAfter), Some([IcacId(p.id)]),
                          Some(p.publicKey),
                          Some(Extensions(Some(BasicConstraints(true, Some(0))), Some(CA_USAGE), None,
                                          Some(KeyIdOf(hash, p.publicKey)), Some(p.issuerKeyId)))))
  }

  function CatAttributes(cats: seq<u32>): (dn: DistinguishedName)
  {
    if cats == [] then [] else [CaseAuthenticatedTag(cats[0])] + CatAttributes(cats[1..])
  }

  function Noc(hash: Hash, p: NocParams): (r: Result<Unsigned, IssueError>)
  {
    BuildUnsigned(Builder(Some(p.serial), Some(p.issuer), Some(p.notBefore), Some(p.notAfter),
                          Some([FabricId(p.fabricId), NodeId(p.nodeId)] + CatAttributes(p.cats)), Some(p.publicKey),
                          Some(Extensions(Some(BasicConstraints(false, None)), Some(NODE_USAGE), Some([2, 1]),
                                          Some(KeyIdOf(hash, p.publicKey)), Some(p.issuerKeyId)))))
  }

  /** `Noc` as it runs, pushing one attribute after another. */
  method BuildNoc(hash: Hash, p: NocParams) returns (r: Result<Unsigned, IssueError>)
    ensures r == Noc(hash, p)
  {
    var subject: DistinguishedName := [FabricId(p.fabricId), NodeId(p.nodeId)];
    ghost var all := subject + CatAttributes(p.cats);
    assert p.cats[0..] == p.cats;
    for i := 0 to |p.cats|
      invariant all == subject + CatAttributes(p.cats[i..])
    {
      assert p.cats[i..][0] == p.cats[i] && p.cats[i..][1..] == p.cats[i + 1..];
      subject := subject + [CaseAuthenticatedTag(p.cats[i])];
    }
    assert subject + [] == subject;
    var extensions := Extensions(Some(BasicConstraints(false, None)), Some(NODE_USAGE), Some([2, 1]),
                                 Some(KeyIdOf(hash, p.publicKey)), Some(p.issuerKeyId));
    r := BuildUnsigned(Builder(Some(p.serial), Some(p.issuer), Some(p.notBefore), Some(p.notAfter), Some(subject),
                               Some(p.publicKey), Some(extensions)));
  }

  // ---- Signing ----

  /** Key loading, public keys and signing, which this model leaves open; what is assumed of
      them is that a signature verifies under its own key. */
  datatype Signer<!K> = Signer(load: bytes -> Option<K>, publicKey: K -> PublicKey, sign: (K, bytes) -> Signature)

  ghost predicate Sound<K(!new)>(s: Signer<K>, verify: Verifier)
  {
    forall k: K, m: bytes {:trigger s.sign(k, m)} :: verify(s.publicKey(k), m, s.sign(k, m))
  }

  function SignWith<K>(s: Signer<K>, u: Unsigned, pkcs8: bytes): (r: Result<Certificate, IssueError>)
  {
    match UnsignedTbs(u)
    case Err(e) => Err(Rejected(e))
    case Ok(tbs) =>
      match s.load(pkcs8)
      case None => Err(SigningFailed)
      case Some(k) => Ok(Assemble(u, s.sign(k, tbs)))
  }

  // ---- Signed certificates ----

  lemma TbsIgnoresPlaceholder(u: Unsigned, s: Signature)
    ensures TbsDer(Assemble(u, s)) == UnsignedTbs(u)
  {
  }

  /** A signed certificate verifies under the key that signed it. */
  lemma SignedVerifies<K(!new)>(s: Signer<K>, verify: Verifier, u: Unsigned, pkcs8: bytes)
    requires Sound(s, verify) && SignWith(s, u, pkcs8).Ok?
    ensures var c := SignWith(s, u, pkcs8).value;
            && c == Assemble(u, c.signature)
            && SignedBy(verify, c, s.publicKey(s.load(pkcs8).value))
  {
    var k, m := s.load(pkcs8).value, UnsignedTbs(u).value;
    TbsIgnoresPlaceholder(u, s.sign(k, m));
  }

  lemma NameConverts(a: DnAttribute, dn: DistinguishedName)
    requires AttributeEntry(a).Ok? && NameSets(dn).Ok?
    ensures NameSets([a] + dn).Ok?
  {
  }

  lemma {:induction false} CatsConvert(cats: seq<u32>)
    ensures NameSets(CatAttributes(cats)).Ok?
  {
    if cats != [] {
      CatsConvert(cats[1..]);
      NameConverts(CaseAuthenticatedTag(cats[0]), CatAttributes(cats[1..]));
    }
  }

  lemma NocSubjectConverts(fabricId: u64, nodeId: u64, cats: seq<u32>)
    ensures NameTree([FabricId(fabricId), NodeId(nodeId)] + CatAttributes(cats)).Ok?
  {
    CatsConvert(cats);
    NameConverts(NodeId(nodeId), CatAttributes(cats));
    NameConverts(FabricId(fabricId), [NodeId(nodeId)] + CatAttributes(cats));
    assert [FabricId(fabricId), NodeId(nodeId)] + CatAttributes(cats)
        == [FabricId(fabricId)] + ([NodeId(nodeId)] + CatAttributes(cats));
  }

  lemma CaNameConverts(a: DnAttribute)
    requires a.RcacId? || a.IcacId?
    ensures NameTree([a]).Ok?
  {
    NameConverts(a, []);
    assert [a] + [] == [a];
  }

  /** What a signed role certificate is: built by its constructor and signed with a key whose
      public half is the issuer's. */
  ghost predicate Issued<K>(s: Signer<K>, u: Result<Unsigned, IssueError>, pkcs8: bytes, issuerKey: PublicKey, c: Certificate)
  {
    && u.Ok? && SignWith(s, u.value, pkcs8) == Ok(c)
    && s.load(pkcs8).Some? && s.publicKey(s.load(pkcs8).value) == issuerKey
  }

  /** Issuing succeeds unless the serial's length, the issuer's name or the key is refused. */
  lemma RootIssuingSucceeds<K>(s: Signer<K>, hash: Hash, p: RcacParams, pkcs8: bytes)
    ensures Rcac(hash, p).Ok? && SignWith(s, Rcac(hash, p).value, pkcs8).Ok?
            <==> 1 <= |p.serial| <= 20 && s.load(pkcs8).Some?
  {
    CaNameConverts(RcacId(p.id));
    if 1 <= |p.serial| <= 20 { SigningSucceeds(s, Rcac(hash, p).value, pkcs8); }
  }

  lemma IntermediateIssuingSucceeds<K>(s: Signer<K>, hash: Hash, p: IcacParams, pkcs8: bytes)
    ensures Icac(hash, p).Ok? && SignWith(s, Icac(hash, p).value, pkcs8).Ok?
            <==> 1 <= |p.serial| <= 20 && AllFit(p.issuer) && s.load(pkcs8).Some?
  {
    CaNameConverts(IcacId(p.id));
    NameIff(p.issuer, SignatureVerificationFailed);
    if 1 <= |p.serial| <= 20 { SigningSucceeds(s, Icac(hash, p).value, pkcs8); }
  }

  lemma NodeIssuingSucceeds<K>(s: Signer<K>, hash: Hash, p: NocParams, pkcs8: bytes)
    ensures Noc(hash, p).Ok? && SignWith(s, Noc(hash, p).value, pkcs8).Ok?
            <==> 1 <= |p.serial| <= 20 && AllFit(p.issuer) && s.load(pkcs8).Some?
  {
    NocSubjectConverts(p.fabricId, p.nodeId, p.cats);
    NameIff(p.issuer, SignatureVerificationFailed);
    if 1 <= |p.serial| <= 20 { SigningSucceeds(s, Noc(hash, p).value, pkcs8); }
  }

  /** Signing is refused for a field without X.509 form before the key is looked at. */
  lemma SignIff<K>(s: Signer<K>, u: Unsigned, pkcs8: bytes, e: Error)
    ensures SignWith(s, u, pkcs8) == Err(Rejected(e)) <==>
      || (u.serial == [] && e == FieldValueOutOfRange(1))
      || (u.serial != [] && FirstUnfit(u.issuer, e))
      || (u.serial != [] && AllFit(u.issuer) && FirstUnfit(u.subject, e))
    ensures SignWith(s, u, pkcs8) == Err(SigningFailed) <==>
      u.serial != [] && AllFit(u.issuer) && AllFit(u.subject) && s.load(pkcs8).None?
  {
    TbsIff(Assemble(u, PLACEHOLDER), e);
  }

  lemma SigningSucceeds<K>(s: Signer<K>, u: Unsigned, pkcs8: bytes)
    requires u.serial != [] && NameTree(u.subject).Ok?
    ensures SignWith(s, u, pkcs8).Ok? <==> NameTree(u.issuer).Ok? && s.load(pkcs8).Some?
  {
  }

  // ---- What is issued ----

  /** The fields common to the three roles. */
  predicate Certifies(t: R.TbsCertificate, serial: bytes, issuer: DistinguishedName, notBefore: u32, notAfter: u32,
                      key: PublicKey)
  {
    && t.version == 2 && t.serial == FromBe(serial) && t.issuer == issuer && t.publicKey == key
    && t.notBefore == notBefore && t.notAfter == (if notAfter == 0 then None else Some(notAfter as int))
  }

  /** The node and its fabric, then the tags in order; no CA, digitalSignature alone, clientAuth
      and serverAuth; the key identifiers of its own key and of the issuer's. */
  predicate NodeCertificate(t: R.TbsCertificate, hash: Hash, p: NocParams)
  {
    && Certifies(t, p.serial, p.issuer, p.notBefore, p.notAfter, p.publicKey)
    && |t.subject| == 2 + |p.cats|
    && t.subject[0] == FabricId(p.fabricId) && t.subject[1] == NodeId(p.nodeId)
    && (forall i :: 0 <= i < |p.cats| ==> t.subject[2 + i] == CaseAuthenticatedTag(p.cats[i]))
    && t.extensions == [R.Extension(true, R.Constraints(false, None)), R.Extension(true, R.Usage(0x01)),
                        R.Extension(true, R.Purposes([2, 1])), R.Extension(false, R.SubjectKey(hash(p.publicKey[1..]))),
                        R.Extension(false, R.AuthorityKey(p.issuerKeyId))]
  }

  /** A CA with no CA below it: keyCertSign and cRLSign. */
  predicate IntermediateCertificate(t: R.TbsCertificate, hash: Hash, p: IcacParams)
  {
    && Certifies(t, p.serial, p.issuer, p.notBefore, p.notAfter, p.publicKey)
    && t.subject == [IcacId(p.id)]
    && t.extensions == [R.Extension(true, R.Constraints(true, Some(0))), R.Extension(true, R.Usage(0x60)),
                        R.Extension(false, R.SubjectKey(hash(p.publicKey[1..]))),
                        R.Extension(false, R.AuthorityKey(p.issuerKeyId))]
  }

  /** A CA that issued itself; its path length, if any, is a one-byte INTEGER. */
  predicate RootCertificate(t: R.TbsCertificate, hash: Hash, p: RcacParams)
  {
    && Certifies(t, p.serial, [RcacId(p.id)], p.notBefore, p.notAfter, p.publicKey)
    && t.subject == [RcacId(p.id)]
    && t.extensions == [R.Extension(true, R.Constraints(true, match p.pathLen
                                                              case None => None
                                                              case Some(n) => Some(if n < 0x80 then n else n - 0x100))),
                        R.Extension(true, R.Usage(0x60)), R.Extension(false, R.SubjectKey(hash(p.publicKey[1..]))),
                        R.Extension(false, R.AuthorityKey(hash(p.publicKey[1..])))]
  }

  lemma SignedIsAssembled<K>(s: Signer<K>, u: Unsigned, pkcs8: bytes)
    requires SignWith(s, u, pkcs8).Ok?
    ensures var c := SignWith(s, u, pkcs8).value;
            c == Assemble(u, c.signature) && TbsDer(c).Ok? && TbsDer(c) == UnsignedTbs(u)
  {
    var c := SignWith(s, u, pkcs8).value;
    TbsIgnoresPlaceholder(u, c.signature);
  }

  lemma {:induction false} CatAt(cats: seq<u32>, i: nat)
    requires i < |cats|
    ensures |CatAttributes(cats)| == |cats| && CatAttributes(cats)[i] == CaseAuthenticatedTag(cats[i])
  {
    if |cats| > 1 {
      CatAt(cats[1..], if i > 0 then i - 1 else 0);
    }
  }

  lemma NodeMeans(hash: Hash, p: NocParams, c: Certificate)
    requires Noc(hash, p).Ok? && c == Assemble(Noc(hash, p).value, c.signature)
    ensures NodeCertificate(X509Meaning.Meaning(c), hash, p)
  {
    forall i | 0 <= i < |p.cats| ensures |c.subject| == 2 + |p.cats| && c.subject[2 + i] == CaseAuthenticatedTag(p.cats[i]) {
      CatAt(p.cats, i);
    }
    assert X509Meaning.PurposesMean([2, 1]) == [2, 1] by {
      assert X509Meaning.PurposesMean([2, 1][1..]) == [1] + X509Meaning.PurposesMean([2, 1][1..][1..]);
    }
  }

  lemma IntermediateMeans(hash: Hash, p: IcacParams, c: Certificate)
    requires Icac(hash, p).Ok? && c == Assemble(Icac(hash, p).value, c.signature)
    ensures IntermediateCertificate(X509Meaning.Meaning(c), hash, p)
  {
  }

  lemma RootMeans(hash: Hash, p: RcacParams, c: Certificate)
    requires Rcac(hash, p).Ok? && c == Assemble(Rcac(hash, p).value, c.signature)
    ensures RootCertificate(X509Meaning.Meaning(c), hash, p)
  {
  }

  /** What a reader finds in the bytes that were signed for a node, an intermediate and a root. */
  lemma IssuedNodeIs<K>(s: Signer<K>, hash: Hash, p: NocParams, pkcs8: bytes, c: Certificate)
    requires Noc(hash, p).Ok? && SignWith(s, Noc(hash, p).value, pkcs8) == Ok(c)
    requires TbsDer(c).Ok? ==> |TbsDer(c).value| < WORD
    ensures TbsDer(c).Ok?
    ensures var t := R.ReadTbs(TbsDer(c).value); t.Some? && NodeCertificate(t.value, hash, p)
  {
    SignedIsAssembled(s, Noc(hash, p).value, pkcs8);
    X509Meaning.TbsMeans(c);
    NodeMeans(hash, p, c);
  }

  lemma IssuedIntermediateIs<K>(s: Signer<K>, hash: Hash, p: IcacParams, pkcs8: bytes, c: Certificate)
    requires Icac(hash, p).Ok? && SignWith(s, Icac(hash, p).value, pkcs8) == Ok(c)
    requires TbsDer(c).Ok? ==> |TbsDer(c).value| < WORD
    ensures TbsDer(c).Ok?
    ensures var t := R.ReadTbs(TbsDer(c).value); t.Some? && IntermediateCertificate(t.value, hash, p)
  {
    SignedIsAssembled(s, Icac(hash, p).value, pkcs8);
    X509Meaning.TbsMeans(c);
    IntermediateMeans(hash, p, c);
  }

  lemma IssuedRootIs<K>(s: Signer<K>, hash: Hash, p: RcacParams, pkcs8: bytes, c: Certificate)
    requires Rcac(hash, p).Ok? && SignWith(s, Rcac(hash, p).value, pkcs8) == Ok(c)
    requires TbsDer(c).Ok? ==> |TbsDer(c).value| < WORD
    ensures TbsDer(c).Ok?
    ensures var t := R.ReadTbs(TbsDer(c).value); t.Some? && RootCertificate(t.value, hash, p)
  {
    SignedIsAssembled(s, Rcac(hash, p).value, pkcs8);
    X509Meaning.TbsMeans(c);
    RootMeans(hash, p, c);
  }

  // ---- Issued chains ----

  lemma IssuedVerifies<K(!new)>(s: Signer<K>, verify: Verifier, u: Result<Unsigned, IssueError>, pkcs8: bytes,
                                issuerKey: PublicKey, c: Certificate)
    requires Sound(s, verify) && Issued(s, u, pkcs8, issuerKey, c)
    ensures c == Assemble(u.value, c.signature) && SignedBy(verify, c, issuerKey)
  {
    SignedVerifies(s, verify, u.value, pkcs8);
  }

  /** What a certificate's own fields say of its place in a path. */
  predicate NodeRole(c: Certificate)
  {
    !IsCa(c)
  }

  predicate IntermediateRole(c: Certificate)
  {
    IsCa(c) && HasKeyCertSign(c) && PathLen(c) == Some(0)
  }

  lemma AnchoredBy(verify: Verifier, top: Certificate, a: TrustAnchor, roots: seq<TrustAnchor>)
    requires a in roots && top.issuer == a.subject && SignedBy(verify, top, a.publicKey)
    requires a.subjectKeyId.Some? ==> top.extensions.authorityKeyId == a.subjectKeyId
    ensures Anchored(verify, top, roots)
  {
    var i :| 0 <= i < |roots| && roots[i] == a;
    assert Anchors(verify, top, TbsDer(top).value, roots[i]);
  }

  lemma PathOfOne(verify: Verifier, noc: Certificate, roots: seq<TrustAnchor>, at: u32)
    requires NodeRole(noc) && Anchored(verify, noc, roots)
    ensures Verdict(verify, [noc], roots, at).Ok? <==> InTime(noc, at)
  {
    AcceptedIff(verify, [noc], roots, at);
    assert PathStep(verify, [noc], 0);
    assert AllInTime([noc], at) <==> InTime(noc, at) by {
      assert [noc][0] == noc;
    }
  }

  lemma PathOfTwo(verify: Verifier, noc: Certificate, icac: Certificate, roots: seq<TrustAnchor>, at: u32)
    requires NodeRole(noc) && IntermediateRole(icac) && Anchored(verify, icac, roots)
    requires noc.issuer == icac.subject && SignedBy(verify, noc, icac.publicKey)
    ensures Verdict(verify, [noc, icac], roots, at).Ok? <==> InTime(noc, at) && InTime(icac, at)
  {
    TwoSteps(verify, noc, icac);
    TwoInTime(noc, icac, at);
    AcceptedIff(verify, [noc, icac], roots, at);
  }

  lemma TwoSteps(verify: Verifier, noc: Certificate, icac: Certificate)
    requires NodeRole(noc) && IntermediateRole(icac)
    requires noc.issuer == icac.subject && SignedBy(verify, noc, icac.publicKey)
    ensures forall i :: 0 <= i < 2 ==> PathStep(verify, [noc, icac], i)
  {
    assert PathStep(verify, [noc, icac], 0) && PathStep(verify, [noc, icac], 1);
  }

  lemma TwoInTime(a: Certificate, b: Certificate, at: u32)
    ensures AllInTime([a, b], at) <==> InTime(a, at) && InTime(b, at)
  {
    assert [a, b][0] == a && [a, b][1] == b;
  }

  lemma NodeHasRole(hash: Hash, p: NocParams, c: Certificate)
    requires Noc(hash, p).Ok? && c == Assemble(Noc(hash, p).value, c.signature)
    ensures NodeRole(c) && c.issuer == p.issuer && c.extensions.authorityKeyId == Some(p.issuerKeyId)
  {
  }

  lemma IntermediateHasRole(hash: Hash, p: IcacParams, c: Certificate)
    requires Icac(hash, p).Ok? && c == Assemble(Icac(hash, p).value, c.signature)
    ensures IntermediateRole(c) && c.issuer == p.issuer && c.extensions.authorityKeyId == Some(p.issuerKeyId)
    ensures c.publicKey == p.publicKey
  {
  }

  lemma RootHasRole(hash: Hash, p: RcacParams, c: Certificate)
    requires Rcac(hash, p).Ok? && c == Assemble(Rcac(hash, p).value, c.signature)
    ensures AnchorOf(c) == TrustAnchor([RcacId(p.id)], p.publicKey, Some(KeyIdOf(hash, p.publicKey)))
  {
  }

  /** A node certificate under an intermediate one under a trusted root: accepted exactly
      while both are in time. */
  lemma IssuedChainValidates<K(!new)>(s: Signer<K>, verify: Verifier, hash: Hash,
                                      rp: RcacParams, ip: IcacParams, np: NocParams, rootKey: bytes, icacKey: bytes,
                                      rcac: Certificate, icac: Certificate, noc: Certificate,
                                      roots: seq<TrustAnchor>, at: u32)
    requires Sound(s, verify)
    requires Issued(s, Rcac(hash, rp), rootKey, rp.publicKey, rcac)
    requires ip.issuer == rcac.subject && ip.issuerKeyId == KeyIdOf(hash, rp.publicKey)
    requires Issued(s, Icac(hash, ip), rootKey, rp.publicKey, icac)
    requires np.issuer == icac.subject
    requires Issued(s, Noc(hash, np), icacKey, ip.publicKey, noc)
    requires AnchorOf(rcac) in roots
    ensures Verdict(verify, [noc, icac], roots, at).Ok? <==> InTime(noc, at) && InTime(icac, at)
  {
    IssuedVerifies(s, verify, Rcac(hash, rp), rootKey, rp.publicKey, rcac);
    IssuedVerifies(s, verify, Icac(hash, ip), rootKey, rp.publicKey, icac);
    IssuedVerifies(s, verify, Noc(hash, np), icacKey, ip.publicKey, noc);
    RootHasRole(hash, rp, rcac);
    IntermediateHasRole(hash, ip, icac);
    NodeHasRole(hash, np, noc);
    AnchoredBy(verify, icac, AnchorOf(rcac), roots);
    PathOfTwo(verify, noc, icac, roots, at);
  }

  /** A node certificate directly under a trusted root. */
  lemma IssuedNodeValidates<K(!new)>(s: Signer<K>, verify: Verifier, hash: Hash, rp: RcacParams, np: NocParams,
                                     rootKey: bytes, rcac: Certificate, noc: Certificate,
                                     roots: seq<TrustAnchor>, at: u32)
    requires Sound(s, verify)
    requires Issued(s, Rcac(hash, rp), rootKey, rp.publicKey, rcac)
    requires np.issuer == rcac.subject && np.issuerKeyId == KeyIdOf(hash, rp.publicKey)
    requires Issued(s, Noc(hash, np), rootKey, rp.publicKey, noc)
    requires AnchorOf(rcac) in roots
    ensures Verdict(verify, [noc], roots, at).Ok? <==> InTime(noc, at)
  {
    IssuedVerifies(s, verify, Rcac(hash, rp), rootKey, rp.publicKey, rcac);
    IssuedVerifies(s, verify, Noc(hash, np), rootKey, rp.publicKey, noc);
    RootHasRole(hash, rp, rcac);
    NodeHasRole(hash, np, noc);
    AnchoredBy(verify, noc, AnchorOf(rcac), roots);
    PathOfOne(verify, noc, roots, at);
  }
}
