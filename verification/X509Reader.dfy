/** A reader of the to-be-signed part of a certificate, written from section 4.1 of RFC 5280
    and the attribute and purpose tables of the Matter specification.  It knows nothing of the
    encoder. */
module X509Reader {
  import opened Wire
  import opened Der
  import opened DerParser
  import opened Certificate
  import opened CivilTime
  import X509Fields
  import X509KeyUsage

  /** The value of an extension, by its identifier. */
  datatype ExtensionValue =
    | Constraints(ca: bool, pathLen: Option<int>)
    | Usage(bits: nat)
    | Purposes(purposes: seq<nat>)
    | SubjectKey(id: bytes)
    | AuthorityKey(id: bytes)

  datatype Extension = Extension(critical: bool, value: ExtensionValue)

  /** Times are in seconds from the beginning of 2000; no end means no well-defined one. */
  datatype TbsCertificate = TbsCertificate(
    version: int,
    serial: int,
    algorithm: seq<nat>,
    issuer: DistinguishedName,
    notBefore: int,
    notAfter: Option<int>,
    subject: DistinguishedName,
    keyAlgorithm: seq<nat>,
    curve: seq<nat>,
    publicKey: bytes,
    extensions: seq<Extension>)

  // ---- Elements ----

  predicate IsSequence(n: Node, k: nat)
  {
    n.Cons? && n.tag == 0x30 && |n.children| == k
  }

  function ReadInteger(n: Node): (r: Option<int>)
  {
    if n.Prim? && n.tag == 0x02 && n.content != [] then Some(X509Fields.IntegerValue(n.content)) else None
  }

  function ReadBoolean(n: Node): (r: Option<bool>)
  {
    if n == Prim(0x01, [0xFF]) then Some(true) else if n == Prim(0x01, [0x00]) then Some(false) else None
  }

  function ReadOid(n: Node): (r: Option<seq<nat>>)
  {
    if n.Prim? && n.tag == 0x06 then Some(X509Fields.Components(n.content)) else None
  }

  // ---- Names ----

  /** The attribute types under 2.5.4. */
  function X520Kind(arc: nat): (r: Option<TextKind>)
  {
    match arc
    case 3 => Some(CommonName)
    case 4 => Some(Surname)
    case 5 => Some(SerialNumber)
    case 6 => Some(CountryName)
    case 7 => Some(LocalityName)
    case 8 => Some(StateOrProvinceName)
    case 10 => Some(OrganizationName)
    case 11 => Some(OrganizationalUnitName)
    case 12 => Some(Title)
    case 41 => Some(Name)
    case 42 => Some(GivenName)
    case 43 => Some(Initials)
    case 44 => Some(GenerationQualifier)
    case 46 => Some(DnQualifier)
    case 65 => Some(Pseudonym)
    case _ => None
  }

  /** PrintableString for serial numbers, countries and qualifiers, UTF8String otherwise. */
  function ReadX520(arc: nat, tag: byte, value: bytes): (r: Option<DnAttribute>)
  {
    if tag != (if arc == 5 || arc == 6 || arc == 46 then 0x13 else 0x0C) then None
    else
      match X520Kind(arc)
      case None => None
      case Some(kind) => Some(Text(kind, value))
  }

  predicate IsHex(s: bytes)
  {
    forall i :: 0 <= i < |s| ==> 0x30 <= s[i] <= 0x39 || 0x41 <= s[i] <= 0x46
  }

  /** The attributes under 1.3.6.1.4.1.37244: upper-case hexadecimal of a fixed width. */
  function ReadMatter(a: nat, b: nat, tag: byte, value: bytes): (r: Option<DnAttribute>)
  {
    var v := X509Fields.ReadHex(value);
    if !IsHex(value) then None
    else if a == 1 && tag == 0x0C && |value| == 16 && v < 0x1_0000_0000_0000_0000 then
      if b == 1 then Some(NodeId(v))
      else if b == 3 then Some(IcacId(v))
      else if b == 4 then Some(RcacId(v))
      else if b == 5 then Some(FabricId(v))
      else None
    else if a == 1 && b == 6 && tag == 0x0C && |value| == 8 && v < 0x1_0000_0000 then Some(CaseAuthenticatedTag(v))
    else if a == 2 && tag == 0x13 && |value| == 4 && v < 0x1_0000 then
      if b == 1 then Some(VendorId(v)) else if b == 2 then Some(ProductId(v)) else None
    else None
  }

  function ReadAttribute(oid: seq<nat>, tag: byte, value: bytes): (r: Option<DnAttribute>)
  {
    if |oid| == 9 && oid[..7] == [1, 3, 6, 1, 4, 1, 37244] then ReadMatter(oid[7], oid[8], tag, value)
    else if |oid| == 4 && oid[..3] == [2, 5, 4] then ReadX520(oid[3], tag, value)
    else if oid == [0, 9, 2342, 19200300, 100, 1, 25] && tag == 0x16 then Some(Text(DomainComponent, value))
    else None
  }

  /** A set of one attribute. */
  function ReadRdn(n: Node): (r: Option<DnAttribute>)
  {
    if !(n.Cons? && n.tag == 0x31 && |n.children| == 1 && IsSequence(n.children[0], 2)) then None
    else
      var kids := n.children[0].children;
      match ReadOid(kids[0])
      case None => None
      case Some(oid) => if kids[1].Prim? then ReadAttribute(oid, kids[1].tag, kids[1].content) else None
  }

  function ReadRdns(ns: seq<Node>): (r: Option<DistinguishedName>)
  {
    if ns == [] then Some([])
    else
      match ReadRdn(ns[0])
      case None => None
      case Some(a) =>
        match ReadRdns(ns[1..])
        case None => None
        case Some(dn) => Some([a] + dn)
  }

  function ReadName(n: Node): (r: Option<DistinguishedName>)
  {
    if n.Cons? && n.tag == 0x30 then ReadRdns(n.children) else None
  }

  // ---- Validity and key ----

  /** Seconds from the beginning of 2000, by the calendar. */
  function ReadInstant(n: Node): (r: Option<int>)
  {
    match X509Fields.ReadTime(n)
    case None => None
    case Some(t) => if ValidDateTime(t) then Some(SecondsOf(t) - 946_684_800) else None
  }

  /** The end of validity; 99991231235959Z stands for none (section 4.1.2.5 of RFC 5280). */
  function ReadEnd(n: Node): (r: Option<Option<int>>)
  {
    if X509Fields.ReadTime(n) == Some(DateTime(9999, 12, 31, 23, 59, 59)) then Some(None)
    else
      match ReadInstant(n)
      case None => None
      case Some(t) => Some(Some(t))
  }

  /** The content of a bit string without unused bits. */
  function ReadOctets(n: Node): (r: Option<bytes>)
  {
    if n.Prim? && n.tag == 0x03 && |n.content| > 0 && n.content[0] == 0 then Some(n.content[1..]) else None
  }

  // ---- Extensions ----

  /** Bit `i` of a bit string, if it is used. */
  function UsedBit(s: bytes, i: nat): (b: nat)
    requires s != []
  {
    if i + s[0] < 8 * (|s| - 1) then X509KeyUsage.BitStringBit(s, i) else 0
  }

  /** The number whose bit `i` is `bits[i]`. */
  function FromBits(bits: seq<nat>): (n: nat)
  {
    if bits == [] then 0 else bits[0] + 2 * FromBits(bits[1..])
  }

  function ReadUsage(n: Node): (r: Option<ExtensionValue>)
  {
    if n.Prim? && n.tag == 0x03 && n.content != [] then
      Some(Usage(FromBits(seq(16, i requires 0 <= i => UsedBit(n.content, i)))))
    else None
  }

  /** The CA flag is false unless given, the path length is optional. */
  function ReadConstraints(n: Node): (r: Option<ExtensionValue>)
  {
    if IsSequence(n, 0) then Some(Constraints(false, None))
    else if IsSequence(n, 1) then
      match ReadBoolean(n.children[0])
      case Some(ca) => Some(Constraints(ca, None))
      case None => None
    else if IsSequence(n, 2) then
      match ReadBoolean(n.children[0])
      case None => None
      case Some(ca) =>
        match ReadInteger(n.children[1])
        case None => None
        case Some(limit) => Some(Constraints(ca, Some(limit)))
    else None
  }

  /** The purposes of section 4.2.1.12 of RFC 5280, in Matter's numbering. */
  function ReadPurpose(n: Node): (r: Option<nat>)
  {
    match ReadOid(n)
    case None => None
    case Some(oid) =>
      if |oid| != 9 || oid[..8] != [1, 3, 6, 1, 5, 5, 7, 3] then None
      else if 1 <= oid[8] <= 4 then Some(oid[8])
      else if oid[8] == 8 then Some(5)
      else if oid[8] == 9 then Some(6)
      else None
  }

  function ReadEach(ns: seq<Node>): (r: Option<seq<nat>>)
  {
    if ns == [] then Some([])
    else
      match ReadPurpose(ns[0])
      case None => None
      case Some(p) =>
        match ReadEach(ns[1..])
        case None => None
        case Some(ps) => Some([p] + ps)
  }

  function ReadPurposes(n: Node): (r: Option<ExtensionValue>)
  {
    if !(n.Cons? && n.tag == 0x30) then None
    else
      match ReadEach(n.children)
      case None => None
      case Some(ps) => Some(Purposes(ps))
  }

  function ReadSubjectKey(n: Node): (r: Option<ExtensionValue>)
  {
    if n.Prim? && n.tag == 0x04 then Some(SubjectKey(n.content)) else None
  }

  function ReadAuthorityKey(n: Node): (r: Option<ExtensionValue>)
  {
    if IsSequence(n, 1) && n.children[0].Prim? && n.children[0].tag == 0x80 then
      Some(AuthorityKey(n.children[0].content))
    else None
  }

  /** The value of the extension 2.5.29.`arc`. */
  function ReadValue(arc: nat, n: Node): (r: Option<ExtensionValue>)
  {
    if arc == 19 then ReadConstraints(n)
    else if arc == 15 then ReadUsage(n)
    else if arc == 37 then ReadPurposes(n)
    else if arc == 14 then ReadSubjectKey(n)
    else if arc == 35 then ReadAuthorityKey(n)
    else None
  }

  function ReadWrapped(oid: Node, critical: bool, wrapped: Node): (r: Option<Extension>)
  {
    match ReadOid(oid)
    case None => None
    case Some(ns) =>
      if !(|ns| == 4 && ns[..3] == [2, 5, 29] && wrapped.Prim? && wrapped.tag == 0x04) then None
      else
        match ReadWhole(wrapped.content)
        case None => None
        case Some(n) =>
          match ReadValue(ns[3], n)
          case None => None
          case Some(v) => Some(Extension(critical, v))
  }

  /** An extension is not critical unless it says so. */
  function ReadExtension(n: Node): (r: Option<Extension>)
  {
    if IsSequence(n, 2) then ReadWrapped(n.children[0], false, n.children[1])
    else if IsSequence(n, 3) then
      match ReadBoolean(n.children[1])
      case None => None
      case Some(critical) => ReadWrapped(n.children[0], critical, n.children[2])
    else None
  }

  function ReadExtensions(ns: seq<Node>): (r: Option<seq<Extension>>)
  {
    if ns == [] then Some([])
    else
      match ReadExtension(ns[0])
      case None => None
      case Some(x) =>
        match ReadExtensions(ns[1..])
        case None => None
        case Some(xs) => Some([x] + xs)
  }

  // ---- The certificate ----

  function ReadVersion(n: Node): (r: Option<int>)
  {
    if n.Cons? && n.tag == 0xA0 && |n.children| == 1 then ReadInteger(n.children[0]) else None
  }

  function ReadAlgorithm(n: Node): (r: Option<seq<nat>>)
  {
    if IsSequence(n, 1) then ReadOid(n.children[0]) else None
  }

  function ReadValidity(n: Node): (r: Option<(int, Option<int>)>)
  {
    if !IsSequence(n, 2) then None
    else
      match (ReadInstant(n.children[0]), ReadEnd(n.children[1]))
      case (Some(from), Some(to)) => Some((from, to))
      case _ => None
  }

  /** Algorithm, curve and key. */
  function ReadKey(n: Node): (r: Option<(seq<nat>, seq<nat>, bytes)>)
  {
    if !(IsSequence(n, 2) && IsSequence(n.children[0], 2)) then None
    else
      match (ReadOid(n.children[0].children[0]), ReadOid(n.children[0].children[1]), ReadOctets(n.children[1]))
      case (Some(algorithm), Some(curve), Some(key)) => Some((algorithm, curve, key))
      case _ => None
  }

  function ReadBlock(n: Node): (r: Option<seq<Extension>>)
  {
    if n.Cons? && n.tag == 0xA3 && |n.children| == 1 && n.children[0].Cons? && n.children[0].tag == 0x30 then
      ReadExtensions(n.children[0].children)
    else None
  }

  /** version, serialNumber, signature, issuer, validity, subject, subjectPublicKeyInfo,
      extensions. */
  function ReadFields(ns: seq<Node>): (r: Option<TbsCertificate>)
    requires |ns| == 8
  {
    match (ReadVersion(ns[0]), ReadInteger(ns[1]), ReadAlgorithm(ns[2]), ReadName(ns[3]))
    case (Some(version), Some(serial), Some(algorithm), Some(issuer)) =>
      (match (ReadValidity(ns[4]), ReadName(ns[5]), ReadKey(ns[6]), ReadBlock(ns[7]))
       case (Some(validity), Some(subject), Some(key), Some(extensions)) =>
         Some(TbsCertificate(version, serial, algorithm, issuer, validity.0, validity.1, subject,
                             key.0, key.1, key.2, extensions))
       case _ => None)
    case _ => None
  }

  function ReadTbs(s: bytes): (r: Option<TbsCertificate>)
  {
    match ReadWhole(s)
    case None => None
    case Some(n) => if IsSequence(n, 8) then ReadFields(n.children) else None
  }
}
