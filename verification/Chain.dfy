/** Chain validation: two loops with early exits, and the path they accept. */
module Chain {
  import opened Wire
  import opened Certificate
  import opened X509

  /** ECDSA verification, which this model leaves open. */
  type Verifier = (PublicKey, bytes, Signature) -> bool

  datatype TrustAnchor = TrustAnchor(subject: DistinguishedName, publicKey: PublicKey, subjectKeyId: Option<KeyId>)

  datatype ChainError =
    | NotYetValid(index: byte, notBefore: u32, at: u32)
    | Expired(index: byte, notAfter: u32, at: u32)
    | NotACa(index: byte)
    | MissingKeyCertSign(index: byte)
    | LeafIsCa
    | PathLengthExceeded(index: byte)
    | IssuerSubjectMismatch(index: byte)
    | BadCertificate(error: Error)
    | UntrustedRoot

  function AnchorOf(root: Certificate): (a: TrustAnchor)
  {
    TrustAnchor(root.subject, root.publicKey, root.extensions.subjectKeyId)
  }

  class TrustedRoots {
    var anchors: seq<TrustAnchor>

    constructor ()
      ensures anchors == []
    {
      anchors := [];
    }

    method Add(anchor: TrustAnchor)
      modifies this
      ensures anchors == old(anchors) + [anchor]
    {
      anchors := anchors + [anchor];
    }
  }

  // ---- What the loops compute ----

  function SaturateToByte(n: nat): (b: byte)
  {
    if n < 256 then n else 255
  }

  predicate IsCa(c: Certificate)
  {
    c.extensions.basicConstraints.Some? && c.extensions.basicConstraints.value.isCa
  }

  /** Usage bit 5. */
  predicate HasKeyCertSign(c: Certificate)
  {
    c.extensions.keyUsage.Some? && HasFlag(c.extensions.keyUsage.value, 0x20)
  }

  function PathLen(c: Certificate): (p: Option<byte>)
  {
    if c.extensions.basicConstraints.Some? then c.extensions.basicConstraints.value.pathLen else None
  }

  function VerifySignedBy(verify: Verifier, c: Certificate, key: PublicKey): (e: Option<Error>)
  {
    match TbsDer(c)
    case Err(e) => Some(e)
    case Ok(tbs) => if verify(key, tbs, c.signature) then None else Some(SignatureVerificationFailed)
  }

  function TimeFault(c: Certificate, i: nat, at: u32): (f: Option<ChainError>)
  {
    if c.notBefore > at then Some(NotYetValid(SaturateToByte(i), c.notBefore, at))
    else if c.notAfter != NO_EXPIRY && c.notAfter < at then Some(Expired(SaturateToByte(i), c.notAfter, at))
    else None
  }

  function RoleFault(c: Certificate, i: nat): (f: Option<ChainError>)
  {
    if i == 0 then
      if IsCa(c) then Some(LeafIsCa) else None
    else if !IsCa(c) then Some(NotACa(SaturateToByte(i)))
    else if !HasKeyCertSign(c) then Some(MissingKeyCertSign(SaturateToByte(i)))
    else if PathLen(c).Some? && SaturateToByte(i - 1) > PathLen(c).value then Some(PathLengthExceeded(SaturateToByte(i)))
    else None
  }

  function LinkFault(verify: Verifier, certs: seq<Certificate>, i: nat): (f: Option<ChainError>)
    requires i < |certs|
  {
    if i + 1 == |certs| then None
    else if certs[i].issuer != certs[i + 1].subject then Some(IssuerSubjectMismatch(SaturateToByte(i)))
    else
      match VerifySignedBy(verify, certs[i], certs[i + 1].publicKey)
      case Some(e) => Some(BadCertificate(e))
      case None => None
  }

  /** The first fault of one certificate. */
  function CertFault(verify: Verifier, certs: seq<Certificate>, i: nat, at: u32): (f: Option<ChainError>)
    requires i < |certs|
  {
    if TimeFault(certs[i], i, at).Some? then TimeFault(certs[i], i, at)
    else if RoleFault(certs[i], i).Some? then RoleFault(certs[i], i)
    else LinkFault(verify, certs, i)
  }

  /** The first fault from certificate `i` on. */
  function FirstFault(verify: Verifier, certs: seq<Certificate>, i: nat, at: u32): (f: Option<ChainError>)
    requires i <= |certs|
    decreases |certs| - i
  {
    if i == |certs| then None
    else if CertFault(verify, certs, i, at).Some? then CertFault(verify, certs, i, at)
    else FirstFault(verify, certs, i + 1, at)
  }

  predicate Anchors(verify: Verifier, top: Certificate, tbs: bytes, a: TrustAnchor)
  {
    && top.issuer == a.subject
    && (a.subjectKeyId.Some? ==> top.extensions.authorityKeyId == a.subjectKeyId)
    && verify(a.publicKey, tbs, top.signature)
  }

  function Verdict(verify: Verifier, certs: seq<Certificate>, roots: seq<TrustAnchor>, at: u32): (r: Result<(), ChainError>)
  {
    if certs == [] then Err(UntrustedRoot)
    else
      match FirstFault(verify, certs, 0, at)
      case Some(e) => Err(e)
      case None =>
        var top := certs[|certs| - 1];
        match TbsDer(top)
        case Err(e) => Err(BadCertificate(e))
        case Ok(tbs) =>
          if exists i :: 0 <= i < |roots| && Anchors(verify, top, tbs, roots[i]) then Ok(()) else Err(UntrustedRoot)
  }

  // ---- The loops ----

  /** The checks above the leaf, and the leaf's own. */
  method CheckRole(c: Certificate, i: nat) returns (f: Option<ChainError>)
    ensures f == RoleFault(c, i)
  {
    if i > 0 {
      if !IsCa(c) {
        return Some(NotACa(SaturateToByte(i)));
      }
      if !HasKeyCertSign(c) {
        return Some(MissingKeyCertSign(SaturateToByte(i)));
      }
      if PathLen(c).Some? {
        var intermediatesBelow := SaturateToByte(i - 1);
        if intermediatesBelow > PathLen(c).value {
          return Some(PathLengthExceeded(SaturateToByte(i)));
        }
      }
    } else if IsCa(c) {
      return Some(LeafIsCa);
    }
    return None;
  }

  /** One turn of the first loop. */
  method CheckCert(verify: Verifier, certs: seq<Certificate>, i: nat, at: u32) returns (f: Option<ChainError>)
    requires i < |certs|
    ensures f == CertFault(verify, certs, i, at)
  {
    var cert := certs[i];
    if cert.notBefore > at {
      return Some(NotYetValid(SaturateToByte(i), cert.notBefore, at));
    }
    if cert.notAfter != NO_EXPIRY && cert.notAfter < at {
      return Some(Expired(SaturateToByte(i), cert.notAfter, at));
    }
    f := CheckRole(cert, i);
    if f.Some? {
      return;
    }
    if i + 1 < |certs| {
      var next := certs[i + 1];
      if cert.issuer != next.subject {
        return Some(IssuerSubjectMismatch(SaturateToByte(i)));
      }
      var fault := VerifySignedBy(verify, cert, next.publicKey);
      if fault.Some? {
        return Some(BadCertificate(fault.value));
      }
    }
    return None;
  }

  /** The second loop. */
  method FindAnchor(verify: Verifier, top: Certificate, tbs: bytes, anchors: seq<TrustAnchor>) returns (found: bool)
    ensures found <==> exists i :: 0 <= i < |anchors| && Anchors(verify, top, tbs, anchors[i])
  {
    for i := 0 to |anchors|
      invariant forall j :: 0 <= j < i ==> !Anchors(verify, top, tbs, anchors[j])
    {
      var anchor := anchors[i];
      if top.issuer != anchor.subject {
        continue;
      }
      if anchor.subjectKeyId.Some? && top.extensions.authorityKeyId != anchor.subjectKeyId {
        continue;
      }
      if verify(anchor.publicKey, tbs, top.signature) {
        assert Anchors(verify, top, tbs, anchors[i]);
        return true;
      }
    }
    return false;
  }

  method Validate(verify: Verifier, certs: seq<Certificate>, roots: TrustedRoots, at: u32)
    returns (r: Result<(), ChainError>)
    ensures r == Verdict(verify, certs, roots.anchors, at)
  {
    if certs == [] {
      return Err(UntrustedRoot);
    }
    for i := 0 to |certs|
      invariant FirstFault(verify, certs, 0, at) == FirstFault(verify, certs, i, at)
    {
      var fault := CheckCert(verify, certs, i, at);
      if fault.Some? {
        return Err(fault.value);
      }
    }
    var top := certs[|certs| - 1];
    var tbs := TbsDer(top);
    if tbs.Err? {
      return Err(BadCertificate(tbs.error));
    }
    var found := FindAnchor(verify, top, tbs.value, roots.anchors);
    return if found then Ok(()) else Err(UntrustedRoot);
  }

  // ---- The accepted paths ----

  predicate Begun(c: Certificate, at: u32)
  {
    c.notBefore <= at
  }

  predicate Over(c: Certificate, at: u32)
  {
    c.notAfter != 0 && c.notAfter < at
  }

  predicate InTime(c: Certificate, at: u32)
  {
    Begun(c, at) && !Over(c, at)
  }

  /** The basic constraints carry the CA flag. */
  predicate MarkedCa(c: Certificate)
  {
    match c.extensions.basicConstraints
    case Some(BasicConstraints(ca, _)) => ca
    case None => false
  }

  /** Usage bit 5, keyCertSign. */
  predicate SignsKeys(c: Certificate)
  {
    match c.extensions.keyUsage
    case Some(bits) => (bits / 32) % 2 == 1
    case None => false
  }

  /** The path length leaves room for the intermediates below certificate `i`; their count is
      kept in a byte. */
  predicate LeavesRoom(c: Certificate, i: nat)
    requires i > 0
  {
    match c.extensions.basicConstraints
    case Some(BasicConstraints(_, Some(limit))) => (if i - 1 < 255 then i - 1 else 255) <= limit
    case _ => true
  }

  /** Only the leaf is not a CA, and a CA signs keys and has room below it. */
  predicate InRole(c: Certificate, i: nat)
  {
    if i == 0 then !MarkedCa(c) else MarkedCa(c) && SignsKeys(c) && LeavesRoom(c, i)
  }

  predicate SignedBy(verify: Verifier, c: Certificate, key: PublicKey)
  {
    TbsDer(c).Ok? && verify(key, TbsDer(c).value, c.signature)
  }

  /** What certificate `i` must be, whatever the time. */
  predicate PathStep(verify: Verifier, certs: seq<Certificate>, i: nat)
    requires i < |certs|
  {
    && InRole(certs[i], i)
    && (i + 1 < |certs| ==>
          certs[i].issuer == certs[i + 1].subject && SignedBy(verify, certs[i], certs[i + 1].publicKey))
  }

  /** The anchor has issued and signed the certificate; an anchor with a key identifier is only
      taken for a certificate that names it. */
  predicate Vouches(verify: Verifier, a: TrustAnchor, top: Certificate)
  {
    && a.subject == top.issuer
    && (a.subjectKeyId.None? || top.extensions.authorityKeyId == a.subjectKeyId)
    && SignedBy(verify, top, a.publicKey)
  }

  predicate Anchored(verify: Verifier, top: Certificate, roots: seq<TrustAnchor>)
  {
    exists i :: 0 <= i < |roots| && Vouches(verify, roots[i], top)
  }

  /** A path that is acceptable at some time. */
  predicate Path(verify: Verifier, certs: seq<Certificate>, roots: seq<TrustAnchor>)
  {
    && certs != []
    && (forall i :: 0 <= i < |certs| ==> PathStep(verify, certs, i))
    && Anchored(verify, certs[|certs| - 1], roots)
  }

  predicate AllInTime(certs: seq<Certificate>, at: u32)
  {
    forall i :: 0 <= i < |certs| ==> InTime(certs[i], at)
  }

  predicate Passes(verify: Verifier, certs: seq<Certificate>, i: nat, at: u32)
    requires i < |certs|
  {
    InTime(certs[i], at) && PathStep(verify, certs, i)
  }

  /** Every certificate before `i` passes. */
  predicate PassUpTo(verify: Verifier, certs: seq<Certificate>, i: nat, at: u32)
    requires i <= |certs|
  {
    forall j :: 0 <= j < i ==> Passes(verify, certs, j, at)
  }

  // ---- The errors ----

  /** An index as it is reported. */
  predicate Reports(x: byte, i: nat)
  {
    x == if i < 255 then i else 255
  }

  /** The certificate is not signed by the key, for this reason. */
  predicate NotSignedBy(verify: Verifier, c: Certificate, key: PublicKey, e: Error)
  {
    match TbsDer(c)
    case Err(f) => e == f
    case Ok(tbs) => !verify(key, tbs, c.signature) && e == SignatureVerificationFailed
  }

  /** `e` is what is wrong with certificate `i`: the checks named before it pass. */
  predicate Wrong(verify: Verifier, certs: seq<Certificate>, i: nat, at: u32, e: ChainError)
    requires i < |certs|
  {
    var c := certs[i];
    match e
    case NotYetValid(x, t, u) => !Begun(c, at) && Reports(x, i) && t == c.notBefore && u == at
    case Expired(x, t, u) => Begun(c, at) && Over(c, at) && Reports(x, i) && t == c.notAfter && u == at
    case LeafIsCa => InTime(c, at) && i == 0 && MarkedCa(c)
    case NotACa(x) => InTime(c, at) && i > 0 && !MarkedCa(c) && Reports(x, i)
    case MissingKeyCertSign(x) => InTime(c, at) && i > 0 && MarkedCa(c) && !SignsKeys(c) && Reports(x, i)
    case PathLengthExceeded(x) =>
      InTime(c, at) && i > 0 && MarkedCa(c) && SignsKeys(c) && !LeavesRoom(c, i) && Reports(x, i)
    case IssuerSubjectMismatch(x) =>
      InTime(c, at) && InRole(c, i) && i + 1 < |certs| && c.issuer != certs[i + 1].subject && Reports(x, i)
    case BadCertificate(f) =>
      InTime(c, at) && InRole(c, i) && i + 1 < |certs| && c.issuer == certs[i + 1].subject
      && NotSignedBy(verify, c, certs[i + 1].publicKey, f)
    case UntrustedRoot => false
  }

  /** `e` is what is wrong with a chain whose certificates all pass: its top has no X.509 form,
      or nobody vouches for it. */
  predicate WrongAtTop(verify: Verifier, top: Certificate, roots: seq<TrustAnchor>, e: ChainError)
  {
    match TbsDer(top)
    case Err(f) => e == BadCertificate(f)
    case Ok(_) => e == UntrustedRoot && !Anchored(verify, top, roots)
  }

  /** `e` is the first thing wrong with the chain. */
  predicate FirstWrong(verify: Verifier, certs: seq<Certificate>, roots: seq<TrustAnchor>, at: u32, e: ChainError)
  {
    || (certs == [] && e == UntrustedRoot)
    || (exists i :: 0 <= i < |certs| && PassUpTo(verify, certs, i, at) && Wrong(verify, certs, i, at, e))
    || (certs != [] && PassUpTo(verify, certs, |certs|, at) && WrongAtTop(verify, certs[|certs| - 1], roots, e))
  }

  lemma TimeFaultMeans(c: Certificate, i: nat, at: u32)
    ensures TimeFault(c, i, at) == if !Begun(c, at) then Some(NotYetValid(SaturateToByte(i), c.notBefore, at))
                                   else if Over(c, at) then Some(Expired(SaturateToByte(i), c.notAfter, at)) else None
  {
  }

  lemma RoleFaultMeans(c: Certificate, i: nat, e: ChainError)
    ensures RoleFault(c, i).None? <==> InRole(c, i)
    ensures RoleFault(c, i) == Some(e) <==>
      match e
      case LeafIsCa => i == 0 && MarkedCa(c)
      case NotACa(x) => i > 0 && !MarkedCa(c) && Reports(x, i)
      case MissingKeyCertSign(x) => i > 0 && MarkedCa(c) && !SignsKeys(c) && Reports(x, i)
      case PathLengthExceeded(x) => i > 0 && MarkedCa(c) && SignsKeys(c) && !LeavesRoom(c, i) && Reports(x, i)
      case _ => false
  {
  }

  lemma LinkFaultMeans(verify: Verifier, certs: seq<Certificate>, i: nat, e: ChainError)
    requires i < |certs|
    ensures LinkFault(verify, certs, i).None? <==>
      (i + 1 < |certs| ==> certs[i].issuer == certs[i + 1].subject && SignedBy(verify, certs[i], certs[i + 1].publicKey))
    ensures LinkFault(verify, certs, i) == Some(e) <==>
      match e
      case IssuerSubjectMismatch(x) => i + 1 < |certs| && certs[i].issuer != certs[i + 1].subject && Reports(x, i)
      case BadCertificate(f) =>
        i + 1 < |certs| && certs[i].issuer == certs[i + 1].subject
        && NotSignedBy(verify, certs[i], certs[i + 1].publicKey, f)
      case _ => false
  {
  }

  lemma CertFaultMeans(verify: Verifier, certs: seq<Certificate>, i: nat, at: u32, e: ChainError)
    requires i < |certs|
    ensures CertFault(verify, certs, i, at).None? <==> Passes(verify, certs, i, at)
    ensures CertFault(verify, certs, i, at) == Some(e) <==> Wrong(verify, certs, i, at, e)
  {
    TimeFaultMeans(certs[i], i, at);
    RoleFaultMeans(certs[i], i, e);
    LinkFaultMeans(verify, certs, i, e);
  }

  lemma CertFaultIff(verify: Verifier, certs: seq<Certificate>, i: nat, at: u32)
    requires i < |certs|
    ensures CertFault(verify, certs, i, at).None? <==> Passes(verify, certs, i, at)
  {
    CertFaultMeans(verify, certs, i, at, UntrustedRoot);
  }

  /** Wherever the certificates before `i` pass, the first fault is the first from `i` on. */
  lemma {:induction false} FirstFaultSkips(verify: Verifier, certs: seq<Certificate>, j: nat, i: nat, at: u32)
    requires j <= i <= |certs| && forall k :: j <= k < i ==> Passes(verify, certs, k, at)
    ensures FirstFault(verify, certs, j, at) == FirstFault(verify, certs, i, at)
    decreases i - j
  {
    if j < i {
      PassIsNoFault(verify, certs, j, at);
      FirstFaultSkips(verify, certs, j + 1, i, at);
    }
  }

  lemma FirstFaultFrom(verify: Verifier, certs: seq<Certificate>, i: nat, at: u32)
    requires i <= |certs| && PassUpTo(verify, certs, i, at)
    ensures FirstFault(verify, certs, 0, at) == FirstFault(verify, certs, i, at)
  {
    FirstFaultSkips(verify, certs, 0, i, at);
  }

  lemma PassIsNoFault(verify: Verifier, certs: seq<Certificate>, i: nat, at: u32)
    requires i < |certs| && Passes(verify, certs, i, at)
    ensures FirstFault(verify, certs, i, at) == FirstFault(verify, certs, i + 1, at)
  {
    CertFaultIff(verify, certs, i, at);
  }

  /** Where the first fault is. */
  lemma {:induction false} FaultIsSomewhere(verify: Verifier, certs: seq<Certificate>, i: nat, at: u32) returns (k: nat)
    requires i <= |certs| && PassUpTo(verify, certs, i, at)
    ensures i <= k <= |certs| && PassUpTo(verify, certs, k, at) && (k < |certs| ==> !Passes(verify, certs, k, at))
    decreases |certs| - i
  {
    if i < |certs| && Passes(verify, certs, i, at) {
      k := FaultIsSomewhere(verify, certs, i + 1, at);
    } else {
      k := i;
    }
  }

  lemma FirstFaultAt(verify: Verifier, certs: seq<Certificate>, k: nat, at: u32)
    requires k < |certs| && PassUpTo(verify, certs, k, at) && !Passes(verify, certs, k, at)
    ensures FirstFault(verify, certs, 0, at) == CertFault(verify, certs, k, at)
    ensures CertFault(verify, certs, k, at).Some?
  {
    FirstFaultFrom(verify, certs, k, at);
    CertFaultIff(verify, certs, k, at);
  }

  lemma OnlyOneFirst(verify: Verifier, certs: seq<Certificate>, i: nat, k: nat, at: u32, e: ChainError)
    requires i < |certs| && PassUpTo(verify, certs, i, at) && Wrong(verify, certs, i, at, e)
    requires k <= |certs| && PassUpTo(verify, certs, k, at) && (k < |certs| ==> !Passes(verify, certs, k, at))
    ensures i == k
  {
    CertFaultMeans(verify, certs, i, at, e);
    assert !Passes(verify, certs, i, at);
  }

  lemma AnchorsMeans(verify: Verifier, top: Certificate, roots: seq<TrustAnchor>)
    requires TbsDer(top).Ok?
    ensures (exists i :: 0 <= i < |roots| && Anchors(verify, top, TbsDer(top).value, roots[i])) <==> Anchored(verify, top, roots)
  {
    forall i | 0 <= i < |roots|
      ensures Anchors(verify, top, TbsDer(top).value, roots[i]) <==> Vouches(verify, roots[i], top)
    {
    }
  }

  lemma ErrorWithin(verify: Verifier, certs: seq<Certificate>, roots: seq<TrustAnchor>, at: u32, e: ChainError, k: nat)
    requires k < |certs| && PassUpTo(verify, certs, k, at) && !Passes(verify, certs, k, at)
    ensures Verdict(verify, certs, roots, at) == Err(e) <==> Wrong(verify, certs, k, at, e)
  {
    FirstFaultAt(verify, certs, k, at);
    CertFaultMeans(verify, certs, k, at, e);
  }

  lemma WrongOnlyThere(verify: Verifier, certs: seq<Certificate>, roots: seq<TrustAnchor>, at: u32, e: ChainError, k: nat)
    requires k < |certs| && PassUpTo(verify, certs, k, at) && !Passes(verify, certs, k, at)
    ensures FirstWrong(verify, certs, roots, at, e) <==> Wrong(verify, certs, k, at, e)
  {
    forall i | 0 <= i < |certs| && PassUpTo(verify, certs, i, at) && Wrong(verify, certs, i, at, e)
      ensures i == k
    {
      OnlyOneFirst(verify, certs, i, k, at, e);
    }
  }

  lemma ErrorAtTop(verify: Verifier, certs: seq<Certificate>, roots: seq<TrustAnchor>, at: u32, e: ChainError)
    requires certs != [] && PassUpTo(verify, certs, |certs|, at)
    ensures Verdict(verify, certs, roots, at) == Err(e) <==> WrongAtTop(verify, certs[|certs| - 1], roots, e)
  {
    FirstFaultFrom(verify, certs, |certs|, at);
    if TbsDer(certs[|certs| - 1]).Ok? { AnchorsMeans(verify, certs[|certs| - 1], roots); }
  }

  lemma WrongOnlyAtTop(verify: Verifier, certs: seq<Certificate>, roots: seq<TrustAnchor>, at: u32, e: ChainError)
    requires certs != [] && PassUpTo(verify, certs, |certs|, at)
    ensures FirstWrong(verify, certs, roots, at, e) <==> WrongAtTop(verify, certs[|certs| - 1], roots, e)
  {
    forall i | 0 <= i < |certs| && PassUpTo(verify, certs, i, at)
      ensures !Wrong(verify, certs, i, at, e)
    {
      if Wrong(verify, certs, i, at, e) {
        OnlyOneFirst(verify, certs, i, |certs|, at, e);
      }
    }
  }

  /** Every error is the first thing wrong with the chain, and the first thing wrong is the
      error. */
  lemma ErrorIff(verify: Verifier, certs: seq<Certificate>, roots: seq<TrustAnchor>, at: u32, e: ChainError)
    ensures Verdict(verify, certs, roots, at) == Err(e) <==> FirstWrong(verify, certs, roots, at, e)
  {
    if certs != [] {
      var k := FaultIsSomewhere(verify, certs, 0, at);
      if k < |certs| {
        ErrorWithin(verify, certs, roots, at, e, k);
        WrongOnlyThere(verify, certs, roots, at, e, k);
      } else {
        ErrorAtTop(verify, certs, roots, at, e);
        WrongOnlyAtTop(verify, certs, roots, at, e);
      }
    }
  }

  /** A chain is accepted exactly when it is a path and every certificate is in time. */
  lemma AcceptedIff(verify: Verifier, certs: seq<Certificate>, roots: seq<TrustAnchor>, at: u32)
    ensures Verdict(verify, certs, roots, at).Ok? <==> Path(verify, certs, roots) && AllInTime(certs, at)
  {
    if certs != [] {
      var top := certs[|certs| - 1];
      var k := FaultIsSomewhere(verify, certs, 0, at);
      if TbsDer(top).Ok? { AnchorsMeans(verify, top, roots); }
      if k < |certs| {
        FirstFaultAt(verify, certs, k, at);
        assert !(InTime(certs[k], at) && PathStep(verify, certs, k));
      } else {
        FirstFaultFrom(verify, certs, k, at);
        forall i | 0 <= i < |certs| ensures InTime(certs[i], at) && PathStep(verify, certs, i) {
          assert Passes(verify, certs, i, at);
        }
      }
    }
  }

  // ---- Times ----

  /** The latest beginning. */
  function Latest(certs: seq<Certificate>): (t: nat)
  {
    if certs == [] then 0
    else
      var rest := Latest(certs[1..]);
      if certs[0].notBefore > rest then certs[0].notBefore else rest
  }

  /** The earliest end, if there is one. */
  function Earliest(certs: seq<Certificate>): (t: Option<u32>)
  {
    if certs == [] then None
    else
      var rest := Earliest(certs[1..]);
      if certs[0].notAfter == NO_EXPIRY then rest
      else if rest.Some? && rest.value < certs[0].notAfter then rest
      else Some(certs[0].notAfter)
  }

  lemma {:induction false} TimesFormInterval(certs: seq<Certificate>, at: u32)
    ensures AllInTime(certs, at) <==> Latest(certs) <= at && (Earliest(certs).Some? ==> at <= Earliest(certs).value)
  {
    if certs != [] {
      TimesFormInterval(certs[1..], at);
      assert forall i :: 0 < i < |certs| ==> certs[i] == certs[1..][i - 1];
      assert AllInTime(certs, at) <==> InTime(certs[0], at) && AllInTime(certs[1..], at);
    }
  }

  /** The times at which a chain is accepted are all of one interval, or none. */
  lemma AcceptedTimes(verify: Verifier, certs: seq<Certificate>, roots: seq<TrustAnchor>, at: u32)
    ensures Verdict(verify, certs, roots, at).Ok? <==>
      && Path(verify, certs, roots) && Latest(certs) <= at
      && (Earliest(certs).Some? ==> at <= Earliest(certs).value)
  {
    AcceptedIff(verify, certs, roots, at);
    TimesFormInterval(certs, at);
  }

  // ---- Anchors ----

  /** More trust anchors never turn an acceptance into an error, and leave every other error
      as it is. */
  lemma MoreAnchors(verify: Verifier, certs: seq<Certificate>, few: seq<TrustAnchor>, many: seq<TrustAnchor>, at: u32)
    requires forall i :: 0 <= i < |few| ==> few[i] in many
    ensures Verdict(verify, certs, few, at).Ok? ==> Verdict(verify, certs, many, at).Ok?
    ensures Verdict(verify, certs, few, at).Err? && Verdict(verify, certs, few, at).error != UntrustedRoot
      ==> Verdict(verify, certs, many, at) == Verdict(verify, certs, few, at)
  {
  }
}
