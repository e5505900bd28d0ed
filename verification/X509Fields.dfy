/** What the fields of the X.509 form mean: each is read back by the rules of its own type,
    so each determines the value it came from. */
module X509Fields {
  import opened Wire
  import opened Der
  import opened Certificate
  import opened CivilTime
  import opened X509

  // ---- Numbers as text ----

  function HexValue(c: byte): (d: nat)
  {
    if 0x30 <= c <= 0x39 then c - 0x30 else if 0x41 <= c <= 0x46 then c - 0x41 + 10 else 0
  }

  function ReadHex(s: bytes): (n: nat)
  {
    if s == [] then 0 else ReadHex(s[..|s| - 1]) * 16 + HexValue(s[|s| - 1])
  }

  function Power(base: nat, k: nat): (n: nat)
  {
    if k == 0 then 1 else base * Power(base, k - 1)
  }

  lemma {:induction false} HexIsReadBack(v: nat, k: nat)
    requires v < Power(16, k)
    ensures ReadHex(Hex(v, k)) == v
  {
    if k > 0 {
      HexIsReadBack(v / 16, k - 1);
      assert Hex(v, k)[..k - 1] == Hex(v / 16, k - 1);
    }
  }

  lemma HexWidths()
    ensures Power(16, 16) == 0x1_0000_0000_0000_0000 && Power(16, 8) == 0x1_0000_0000 && Power(16, 4) == 0x1_0000
  {
  }

  // ---- Times ----

  function Digit(c: byte): (d: nat)
  {
    if 0x30 <= c <= 0x39 then c - 0x30 else 0
  }

  /** The two digits at `i`. */
  function TwoAt(s: bytes, i: nat): (n: nat)
    requires i + 1 < |s|
  {
    10 * Digit(s[i]) + Digit(s[i + 1])
  }

  /** Month to second, from `i`. */
  function ReadDate(year: nat, s: bytes, i: nat): (t: DateTime)
    requires i + 9 < |s|
  {
    DateTime(year, TwoAt(s, i), TwoAt(s, i + 2), TwoAt(s, i + 4), TwoAt(s, i + 6), TwoAt(s, i + 8))
  }

  /** Nothing but `k` digits and a Z. */
  predicate IsZulu(s: bytes, k: nat)
  {
    |s| == k + 1 && s[k] == 0x5A && forall i :: 0 <= i < k ==> 0x30 <= s[i] <= 0x39
  }

  /** A time read by the rules of section 4.1.2.5 of RFC 5280: a UTCTime (tag 23) has a
      two-digit year in 1950 to 2049, a GeneralizedTime (tag 24) a four-digit one. */
  function ReadTime(n: Node): (t: Option<DateTime>)
  {
    if n.Prim? && n.tag == 0x17 && IsZulu(n.content, 12) then
      var yy := TwoAt(n.content, 0);
      Some(ReadDate(if yy < 50 then 2000 + yy else 1900 + yy, n.content, 2))
    else if n.Prim? && n.tag == 0x18 && IsZulu(n.content, 14) then
      Some(ReadDate(100 * TwoAt(n.content, 0) + TwoAt(n.content, 2), n.content, 4))
    else None
  }

  predicate IsDigits(s: bytes)
  {
    forall i :: 0 <= i < |s| ==> 0x30 <= s[i] <= 0x39
  }

  lemma {:induction false} DecimalIsDigits(v: nat, k: nat)
    ensures IsDigits(Decimal(v, k))
  {
    if k > 0 {
      DecimalIsDigits(v / 10, k - 1);
    }
  }

  lemma DigitsJoin(a: bytes, b: bytes)
    requires IsDigits(a) && IsDigits(b)
    ensures IsDigits(a + b)
  {
  }

  lemma DateIsDigits(t: DateTime)
    ensures IsDigits(DateDigits(t)) && |DateDigits(t)| == 10
  {
    var a, b, c, d, e := Decimal(t.month, 2), Decimal(t.day, 2), Decimal(t.hour, 2), Decimal(t.minute, 2), Decimal(t.second, 2);
    DecimalIsDigits(t.month, 2);
    DecimalIsDigits(t.day, 2);
    DecimalIsDigits(t.hour, 2);
    DecimalIsDigits(t.minute, 2);
    DecimalIsDigits(t.second, 2);
    DigitsJoin(a, b);
    DigitsJoin(a + b, c);
    DigitsJoin(a + b + c, d);
    DigitsJoin(a + b + c + d, e);
  }

  lemma ZuluOf(y: bytes, t: DateTime)
    requires IsDigits(y)
    ensures IsZulu(y + DateDigits(t) + [0x5A], |y| + 10)
  {
    DateIsDigits(t);
    DigitsJoin(y, DateDigits(t));
    assert forall i :: 0 <= i < |y| + 10 ==> (y + DateDigits(t) + [0x5A])[i] == (y + DateDigits(t))[i];
  }

  lemma TwoDigits(v: nat)
    requires v < 100
    ensures Decimal(v, 2) == [0x30 + v / 10, 0x30 + v % 10]
  {
  }

  lemma FourDigits(v: nat, a: nat, b: nat)
    requires a == v / 10 && b == a / 10 && b < 100
    ensures Decimal(v, 4) == [0x30 + b / 10, 0x30 + b % 10, 0x30 + a % 10, 0x30 + v % 10]
  {
    TwoDigits(b);
    assert Decimal(a, 3) == Decimal(b, 2) + [0x30 + a % 10];
    assert Decimal(v, 4) == Decimal(a, 3) + [0x30 + v % 10];
  }

  predicate InRange(t: DateTime)
  {
    t.month < 100 && t.day < 100 && t.hour < 100 && t.minute < 100 && t.second < 100
  }

  lemma DateIsReadBack(front: bytes, year: nat, t: DateTime)
    requires InRange(t)
    ensures ReadDate(year, front + DateDigits(t) + [0x5A], |front|) == t.(year := year)
  {
    TwoDigits(t.month);
    TwoDigits(t.day);
    TwoDigits(t.hour);
    TwoDigits(t.minute);
    TwoDigits(t.second);
  }

  lemma ShortYearIsReadBack(yy: nat, rest: bytes)
    requires yy < 100
    ensures TwoAt(Decimal(yy, 2) + rest, 0) == yy
  {
  }

  lemma LongYearIsReadBack(y: nat, rest: bytes)
    requires y < 10000
    ensures var s := Decimal(y, 4) + rest; 100 * TwoAt(s, 0) + TwoAt(s, 2) == y
  {
    var a := y / 10;
    var b := a / 10;
    FourDigits(y, a, b);
    assert 100 * (10 * (b / 10) + b % 10) + 10 * (a % 10) + y % 10 == y;
  }

  lemma ReadUtc(s: bytes, t: DateTime)
    requires IsZulu(s, 12) && 2000 <= t.year <= 2049 && TwoAt(s, 0) == t.year - 2000 && ReadDate(t.year, s, 2) == t
    ensures ReadTime(Prim(0x17, s)) == Some(t)
  {
  }

  lemma UtcTimeIsReadBack(t: DateTime, yy: nat)
    requires 2000 <= t.year <= 2049 && yy == t.year - 2000 && InRange(t)
    ensures ReadTime(Prim(0x17, Decimal(yy, 2) + DateDigits(t) + [0x5A])) == Some(t)
  {
    var y, d := Decimal(yy, 2), DateDigits(t);
    ShortYearIsReadBack(yy, d + [0x5A]);
    DateIsReadBack(y, t.year, t);
    Associate(y, d, [0x5A]);
    DecimalIsDigits(yy, 2);
    ZuluOf(y, t);
    ReadUtc(y + d + [0x5A], t);
  }

  lemma GeneralizedTimeIsReadBack(t: DateTime)
    requires t.year < 10000 && InRange(t)
    ensures ReadTime(Prim(0x18, Decimal(t.year, 4) + DateDigits(t) + [0x5A])) == Some(t)
  {
    var y, d := Decimal(t.year, 4), DateDigits(t);
    LongYearIsReadBack(t.year, d + [0x5A]);
    DateIsReadBack(y, t.year, t);
    Associate(y, d, [0x5A]);
    DecimalIsDigits(t.year, 4);
    ZuluOf(y, t);
  }

  const FOREVER: DateTime := DateTime(9999, 12, 31, 23, 59, 59)

  lemma MatterYears(t: u32)
    ensures 2000 <= CivilOf(UnixSeconds(t)).year <= 2136
  {
    YearBeginsAtSecond(UnixSeconds(t), 2000, 946_684_800);
    YearBeginsAtSecond(UnixSeconds(t), 2137, 5_270_054_400);
  }

  /** The text comes from the exact date: storing the year in 32 bits loses nothing. */
  lemma TimeTreeIs(t: u32, isNotAfter: bool)
    requires t != NO_EXPIRY || !isNotAfter
    ensures var c := CivilOf(UnixSeconds(t));
            TimeTree(t, isNotAfter)
            == if UnixSeconds(t) < 2_524_608_000
               then Prim(0x17, Decimal(c.year % 100, 2) + DateDigits(c) + [0x5A])
               else Prim(0x18, Decimal(c.year, 4) + DateDigits(c) + [0x5A])
  {
    MatterYears(t);
    TruncatesIff(CivilOf(UnixSeconds(t)));
  }

  lemma CenturyOf(y: nat)
    requires 2000 <= y <= 2099
    ensures y % 100 == y - 2000
  {
  }

  lemma DatedTimeIsReadBack(n: Node, c: DateTime)
    requires 2000 <= c.year <= 2136 && InRange(c)
    requires n == if c.year <= 2049 then Prim(0x17, Decimal(c.year % 100, 2) + DateDigits(c) + [0x5A])
                  else Prim(0x18, Decimal(c.year, 4) + DateDigits(c) + [0x5A])
    ensures ReadTime(n) == Some(c)
  {
    if c.year <= 2049 {
      CenturyOf(c.year);
      UtcTimeIsReadBack(c, c.year - 2000);
    } else {
      GeneralizedTimeIsReadBack(c);
    }
  }

  lemma BoundedTimeIsReadBack(t: u32, isNotAfter: bool, c: DateTime)
    requires (t != NO_EXPIRY || !isNotAfter) && c == CivilOf(UnixSeconds(t))
    ensures ReadTime(TimeTree(t, isNotAfter)) == Some(c)
  {
    TimeTreeIs(t, isNotAfter);
    CivilIsExact(UnixSeconds(t));
    MatterYears(t);
    CutoffIsEndOf2049(UnixSeconds(t));
    DatedTimeIsReadBack(TimeTree(t, isNotAfter), c);
  }

  lemma ForeverIsReadBack(forever: DateTime)
    requires forever == FOREVER
    ensures ReadTime(TimeTree(NO_EXPIRY, true)) == Some(forever)
  {
    GeneralizedTimeIsReadBack(forever);
  }

  /** Every time is read back as the instant it stands for. */
  lemma TimeIsReadBack(t: u32, isNotAfter: bool)
    ensures ReadTime(TimeTree(t, isNotAfter))
         == Some(if t == NO_EXPIRY && isNotAfter then FOREVER else CivilOf(UnixSeconds(t)))
  {
    if t == NO_EXPIRY && isNotAfter {
      ForeverIsReadBack(FOREVER);
    } else {
      BoundedTimeIsReadBack(t, isNotAfter, CivilOf(UnixSeconds(t)));
    }
  }

  lemma TimeDetermines(a: u32, b: u32, isNotAfter: bool)
    requires TimeTree(a, isNotAfter) == TimeTree(b, isNotAfter)
    ensures a == b
  {
    TimeIsReadBack(a, isNotAfter);
    TimeIsReadBack(b, isNotAfter);
    MatterYears(a);
    MatterYears(b);
    CivilIsExact(UnixSeconds(a));
    CivilIsExact(UnixSeconds(b));
  }

  // ---- Serial numbers ----

  /** An INTEGER's content, in two's complement. */
  function IntegerValue(content: bytes): (n: int)
    requires content != []
  {
    FromBe(content) - (if content[0] >= 0x80 then Pow256(|content|) else 0)
  }

  lemma {:induction false} LeadingZeroIsNothing(s: bytes)
    ensures FromBe([0x00] + s) == FromBe(s)
  {
    if s == [] {
      assert [0x00][..0] == [];
    } else {
      LeadingZeroIsNothing(s[..|s| - 1]);
      assert ([0x00] + s)[..|s|] == [0x00] + s[..|s| - 1];
    }
  }

  /** The serial INTEGER is the serial read as a non-negative big-endian number. */
  lemma SerialIsNonNegative(serial: bytes)
    requires serial != []
    ensures IntegerValue(SerialTree(serial).content) == FromBe(serial)
  {
    LeadingZeroIsNothing(serial);
  }

  /** The serial without a zero that the encoder would have put there itself. */
  function CanonicalSerial(serial: bytes): (s: bytes)
    requires serial != []
    ensures s != []
  {
    if |serial| >= 2 && serial[0] == 0x00 && serial[1] >= 0x80 then serial[1..] else serial
  }

  lemma SerialDetermines(a: bytes, b: bytes)
    requires a != [] && b != []
    ensures SerialTree(a) == SerialTree(b) <==> CanonicalSerial(a) == CanonicalSerial(b)
  {
    SerialOfCanonical(a);
    SerialOfCanonical(b);
    var x, y := CanonicalSerial(a), CanonicalSerial(b);
    if SerialTree(x) == SerialTree(y) {
      var s, t := SerialTree(x).content, SerialTree(y).content;
      assert x[0] >= 0x80 ==> s[1..] == x;
      assert y[0] >= 0x80 ==> t[1..] == y;
    }
  }

  lemma SerialOfCanonical(a: bytes)
    requires a != []
    ensures SerialTree(CanonicalSerial(a)) == SerialTree(a)
  {
  }

  // ---- Names ----

  lemma TextOidDetermines(j: TextKind, k: TextKind)
    requires TextOid(j) == TextOid(k)
    ensures j == k
  {
  }

  /** Identifiers under the Matter arc begin differently from those of the other attributes. */
  lemma EntryIsTextOrMatter(a: DnAttribute)
    requires AttributeEntry(a).Ok?
    ensures a.Text? <==> AttributeEntry(a).value.oid[0] != 0x2B
  {
  }

  /** The last two arcs of the identifier of an attribute that Matter defines. */
  function LastArcs(a: DnAttribute): (r: (byte, byte))
    requires !a.Text? && !a.Other?
    ensures r.0 < 0x80 && r.1 < 0x80
  {
    match a
    case NodeId(_) => (1, 1)
    case IcacId(_) => (1, 3)
    case RcacId(_) => (1, 4)
    case FabricId(_) => (1, 5)
    case CaseAuthenticatedTag(_) => (1, 6)
    case VendorId(_) => (2, 1)
    case ProductId(_) => (2, 2)
  }

  lemma MatterEntryIs(a: DnAttribute)
    requires AttributeEntry(a).Ok? && !a.Text?
    ensures AttributeEntry(a).value.oid == MatterArc(LastArcs(a).0, LastArcs(a).1)
    ensures AttributeEntry(a).value.value == Hex(IdOf(a), IdWidth(a)) && IdOf(a) < Power(16, IdWidth(a))
  {
    HexWidths();
  }

  lemma ArcsDetermine(a: byte, b: byte, c: byte, d: byte)
    requires MatterArc(a, b) == MatterArc(c, d)
    ensures a == c && b == d
  {
    assert MatterArc(a, b)[8] == a && MatterArc(a, b)[9] == b;
    assert MatterArc(c, d)[8] == c && MatterArc(c, d)[9] == d;
  }

  lemma LastArcsDetermine(a: DnAttribute, b: DnAttribute)
    requires !a.Text? && !a.Other? && !b.Text? && !b.Other? && LastArcs(a) == LastArcs(b) && IdOf(a) == IdOf(b)
    ensures a == b
  {
  }

  lemma MatterEntryDetermines(a: DnAttribute, b: DnAttribute)
    requires AttributeEntry(a).Ok? && AttributeEntry(a) == AttributeEntry(b) && !a.Text? && !b.Text?
    ensures a == b
  {
    MatterEntryIs(a);
    MatterEntryIs(b);
    ArcsDetermine(LastArcs(a).0, LastArcs(a).1, LastArcs(b).0, LastArcs(b).1);
    HexIsReadBack(IdOf(a), IdWidth(a));
    HexIsReadBack(IdOf(b), IdWidth(b));
    LastArcsDetermine(a, b);
  }

  function IdOf(a: DnAttribute): (v: nat)
    requires !a.Text? && !a.Other?
  {
    match a
    case NodeId(v) => v
    case IcacId(v) => v
    case RcacId(v) => v
    case FabricId(v) => v
    case CaseAuthenticatedTag(v) => v
    case VendorId(v) => v
    case ProductId(v) => v
  }

  function IdWidth(a: DnAttribute): (k: nat)
  {
    if a.CaseAuthenticatedTag? then 8 else if a.VendorId? || a.ProductId? then 4 else 16
  }

  lemma EntryDetermines(a: DnAttribute, b: DnAttribute)
    requires AttributeEntry(a).Ok? && AttributeEntry(a) == AttributeEntry(b)
    ensures a == b
  {
    EntryIsTextOrMatter(a);
    EntryIsTextOrMatter(b);
    if a.Text? {
      TextOidDetermines(a.kind, b.kind);
    } else {
      MatterEntryDetermines(a, b);
    }
  }

  lemma {:induction false} NameDetermines(a: DistinguishedName, b: DistinguishedName)
    requires NameSets(a).Ok? && NameSets(a) == NameSets(b)
    ensures a == b
  {
    var s, t := NameSets(a).value, NameSets(b).value;
    if a != [] && b != [] {
      assert s[0] == t[0] && s[1..] == t[1..];
      var e, f := AttributeEntry(a[0]).value, AttributeEntry(b[0]).value;
      assert EntryTree(e) == EntryTree(f);
      assert EntryTree(e).children[0] == EntryTree(f).children[0];
      assert EntryTree(e).children[1] == EntryTree(f).children[1];
      EntryDetermines(a[0], b[0]);
      assert s[1..] == NameSets(a[1..]).value && t[1..] == NameSets(b[1..]).value;
      NameDetermines(a[1..], b[1..]);
      assert a == [a[0]] + a[1..] && b == [b[0]] + b[1..];
    }
  }

  // ---- Object identifiers ----

  /** Base-128 numbers, the high bit marking all bytes of a number but its last; `sofar` is
      what has been read of the first (section 8.19 of ITU-T X.690). */
  function Numbers(s: bytes, sofar: nat): (ns: seq<nat>)
  {
    if s == [] then []
    else if s[0] >= 0x80 then Numbers(s[1..], sofar * 128 + s[0] - 0x80)
    else [sofar * 128 + s[0]] + Numbers(s[1..], 0)
  }

  /** The components of an object identifier; the first number holds the first two. */
  function Components(oid: bytes): (ns: seq<nat>)
  {
    var ns := Numbers(oid, 0);
    if ns == [] then []
    else
      var first := if ns[0] < 40 then 0 else if ns[0] < 80 then 1 else 2;
      [first, ns[0] - 40 * first] + ns[1..]
  }

  /** Bytes below 128 are numbers of their own. */
  lemma {:induction false} SmallThen(s: bytes, ns: seq<nat>, rest: bytes)
    requires |ns| == |s| && forall i :: 0 <= i < |s| ==> s[i] < 0x80 && ns[i] == s[i]
    ensures Numbers(s + rest, 0) == ns + Numbers(rest, 0)
  {
    if s == [] {
      assert s + rest == rest && ns + Numbers(rest, 0) == Numbers(rest, 0);
    } else {
      assert (s + rest)[0] == s[0] && (s + rest)[1..] == s[1..] + rest;
      SmallThen(s[1..], ns[1..], rest);
      assert ns == [ns[0]] + ns[1..];
    }
  }

  lemma SmallAlone(s: bytes, ns: seq<nat>)
    requires |ns| == |s| && forall i :: 0 <= i < |s| ==> s[i] < 0x80 && ns[i] == s[i]
    ensures Numbers(s, 0) == ns
  {
    SmallThen(s, ns, []);
    assert s + [] == s && ns + [] == ns;
  }

  lemma TwoBytes(a: byte, b: byte, s: bytes, n: nat)
    requires a >= 0x80 > b && n == (a - 0x80) * 128 + b
    ensures Numbers([a, b] + s, 0) == [n] + Numbers(s, 0)
  {
    assert ([a, b] + s)[1..] == [b] + s && ([b] + s)[1..] == s;
  }

  lemma ThreeBytes(a: byte, b: byte, c: byte, s: bytes, n: nat)
    requires a >= 0x80 && b >= 0x80 > c && n == ((a - 0x80) * 128 + b - 0x80) * 128 + c
    ensures Numbers([a, b, c] + s, 0) == [n] + Numbers(s, 0)
  {
    assert ([a, b, c] + s)[1..] == [b, c] + s && ([b, c] + s)[1..] == [c] + s && ([c] + s)[1..] == s;
    assert Numbers([a, b, c] + s, 0) == Numbers([b, c] + s, a - 0x80);
    assert Numbers([b, c] + s, a - 0x80) == Numbers([c] + s, (a - 0x80) * 128 + b - 0x80);
  }

  lemma FourBytes(a: byte, b: byte, c: byte, d: byte, s: bytes, n: nat)
    requires a >= 0x80 && b >= 0x80 && c >= 0x80 > d
    requires n == (((a - 0x80) * 128 + b - 0x80) * 128 + c - 0x80) * 128 + d
    ensures Numbers([a, b, c, d] + s, 0) == [n] + Numbers(s, 0)
  {
    assert ([a, b, c, d] + s)[1..] == [b, c, d] + s && ([b, c, d] + s)[1..] == [c, d] + s;
    assert ([c, d] + s)[1..] == [d] + s && ([d] + s)[1..] == s;
    assert Numbers([a, b, c, d] + s, 0) == Numbers([b, c, d] + s, a - 0x80);
    assert Numbers([b, c, d] + s, a - 0x80) == Numbers([c, d] + s, (a - 0x80) * 128 + b - 0x80);
  }

  /** The components, once the numbers are known. */
  lemma ComponentsAre(oid: bytes, n: nat, more: seq<nat>)
    requires Numbers(oid, 0) == [n] + more
    ensures Components(oid) == (if n < 40 then [0, n] else if n < 80 then [1, n - 40] else [2, n - 80]) + more
  {
  }

  /** A Matter attribute is 1.3.6.1.4.1.37244.a.b. */
  lemma MatterArcIs(a: nat, b: nat)
    requires a < 0x80 && b < 0x80
    ensures Components(MatterArc(a, b)) == [1, 3, 6, 1, 4, 1, 37244, a, b]
  {
    var front: bytes, mid: bytes, tail: bytes := [0x2B, 0x06, 0x01, 0x04, 0x01], [0x82, 0xA2, 0x7C], [a, b];
    SmallAlone(tail, [a, b]);
    ThreeBytes(0x82, 0xA2, 0x7C, tail, 37244);
    SmallThen(front, [43, 6, 1, 4, 1], mid + tail);
    assert MatterArc(a, b) == front + (mid + tail);
    ComponentsAre(MatterArc(a, b), 43, [6, 1, 4, 1, 37244, a, b]);
  }

  /** An X.520 attribute is 2.5.4.n, and an extension 2.5.29.n. */
  lemma JointArcIs(branch: nat, n: nat)
    requires branch < 0x80 && n < 0x80
    ensures Components([0x55, branch, n]) == [2, 5, branch, n]
  {
    SmallAlone([0x55, branch, n], [0x55, branch, n]);
    ComponentsAre([0x55, branch, n], 0x55, [branch, n]);
  }

  lemma DomainTailIs(x: bytes, y: bytes, z: bytes)
    requires x == [0x92, 0x26] && y == [0x89, 0x93, 0xF2, 0x2C] && z == [0x64, 0x01, 0x19]
    ensures Numbers(x + (y + z), 0) == [2342, 19200300, 100, 1, 25]
  {
    SmallAlone(z, [100, 1, 25]);
    FourBytes(y[0], y[1], y[2], y[3], z, 19200300);
    assert y == [y[0], y[1], y[2], y[3]];
    TwoBytes(x[0], x[1], y + z, 2342);
    assert x == [x[0], x[1]];
  }

  lemma DomainComponentIs()
    ensures Components(DOMAIN_COMPONENT) == [0, 9, 2342, 19200300, 100, 1, 25]
  {
    var w: bytes, x: bytes, y: bytes, z: bytes := [0x09], [0x92, 0x26], [0x89, 0x93, 0xF2, 0x2C], [0x64, 0x01, 0x19];
    DomainTailIs(x, y, z);
    SmallThen(w, [9], x + (y + z));
    assert DOMAIN_COMPONENT == w + (x + (y + z));
    ComponentsAre(DOMAIN_COMPONENT, 9, [2342, 19200300, 100, 1, 25]);
  }

  /** A purpose is 1.3.6.1.5.5.7.3.n. */
  lemma SmallComponents(s: bytes, ns: seq<nat>)
    requires |ns| == |s| > 0 && forall i :: 0 <= i < |s| ==> s[i] < 0x80 && ns[i] == s[i]
    requires ns[0] == 43
    ensures Components(s) == [1, 3] + ns[1..]
  {
    SmallAlone(s, ns);
    ComponentsAre(s, 43, ns[1..]);
  }

  lemma PurposeArcIs(n: nat)
    requires n < 0x80
    ensures Components([0x2B, 0x06, 0x01, 0x05, 0x05, 0x07, 0x03, n]) == [1, 3, 6, 1, 5, 5, 7, 3, n]
  {
    SmallComponents([0x2B, 0x06, 0x01, 0x05, 0x05, 0x07, 0x03, n], [43, 6, 1, 5, 5, 7, 3, n]);
  }

  /** An elliptic-curve identifier is 1.2.840.10045.a.b.c, or without the last. */
  lemma CurveArcIs(a: nat, b: nat, c: nat)
    requires a < 0x80 && b < 0x80 && c < 0x80
    ensures Components([0x2A, 0x86, 0x48, 0xCE, 0x3D, a, b, c]) == [1, 2, 840, 10045, a, b, c]
  {
    var x: bytes, y: bytes, z: bytes, t: bytes := [0x2A], [0x86, 0x48], [0xCE, 0x3D], [a, b, c];
    SmallAlone(t, [a, b, c]);
    TwoBytes(0xCE, 0x3D, t, 10045);
    TwoBytes(0x86, 0x48, z + t, 840);
    SmallThen(x, [42], y + (z + t));
    CurveBytes(a, b, c);
    ComponentsAre(x + (y + (z + t)), 42, [840, 10045, a, b, c]);
  }

  lemma CurveBytes(a: nat, b: nat, c: nat)
    ensures [0x2A] + ([0x86, 0x48] + ([0xCE, 0x3D] + [a, b, c])) == [0x2A, 0x86, 0x48, 0xCE, 0x3D, a, b, c]
    ensures [840] + ([10045] + [a, b, c]) == [840, 10045, a, b, c]
  {
  }

  lemma ShortCurveArcIs(a: nat, b: nat)
    requires a < 0x80 && b < 0x80
    ensures Components([0x2A, 0x86, 0x48, 0xCE, 0x3D, a, b]) == [1, 2, 840, 10045, a, b]
  {
    var x: bytes, y: bytes, z: bytes, t: bytes := [0x2A], [0x86, 0x48], [0xCE, 0x3D], [a, b];
    SmallAlone(t, [a, b]);
    TwoBytes(0xCE, 0x3D, t, 10045);
    TwoBytes(0x86, 0x48, z + t, 840);
    SmallThen(x, [42], y + (z + t));
    assert [0x2A, 0x86, 0x48, 0xCE, 0x3D, a, b] == x + (y + (z + t));
    ComponentsAre(x + (y + (z + t)), 42, [840, 10045, a, b]);
  }

  lemma CurveOidsAre()
    ensures Components(EC_PUBLIC_KEY) == [1, 2, 840, 10045, 2, 1]
    ensures Components(EC_CURVE_P256) == [1, 2, 840, 10045, 3, 1, 7]
    ensures Components(ECDSA_WITH_SHA256) == [1, 2, 840, 10045, 4, 3, 2]
  {
    ShortCurveArcIs(2, 1);
    CurveArcIs(3, 1, 7);
    CurveArcIs(4, 3, 2);
  }

  /** The identifier of each attribute, component by component. */
  function DottedOid(a: DnAttribute): (ns: seq<nat>)
    requires !a.Other?
  {
    match a
    case NodeId(_) => [1, 3, 6, 1, 4, 1, 37244, 1, 1]
    case IcacId(_) => [1, 3, 6, 1, 4, 1, 37244, 1, 3]
    case RcacId(_) => [1, 3, 6, 1, 4, 1, 37244, 1, 4]
    case FabricId(_) => [1, 3, 6, 1, 4, 1, 37244, 1, 5]
    case CaseAuthenticatedTag(_) => [1, 3, 6, 1, 4, 1, 37244, 1, 6]
    case VendorId(_) => [1, 3, 6, 1, 4, 1, 37244, 2, 1]
    case ProductId(_) => [1, 3, 6, 1, 4, 1, 37244, 2, 2]
    case Text(kind, _) =>
      if kind == DomainComponent then [0, 9, 2342, 19200300, 100, 1, 25] else [2, 5, 4, X520Arc(kind) as nat]
  }

  lemma TextOidIs(kind: TextKind)
    ensures Components(TextOid(kind))
         == if kind == DomainComponent then [0, 9, 2342, 19200300, 100, 1, 25] else [2, 5, 4, X520Arc(kind) as nat]
  {
    if kind == DomainComponent {
      DomainComponentIs();
    } else {
      JointArcIs(0x04, X520Arc(kind));
    }
  }

  /** Every attribute is written under its own identifier. */
  lemma MatterDotted(a: DnAttribute, x: nat, y: nat)
    requires !a.Text? && !a.Other? && LastArcs(a) == (x, y)
    ensures DottedOid(a) == [1, 3, 6, 1, 4, 1, 37244, x, y]
  {
  }

  lemma MatterOidIs(a: DnAttribute, x: byte, y: byte)
    requires AttributeEntry(a).Ok? && !a.Text? && LastArcs(a) == (x, y)
    ensures Components(AttributeEntry(a).value.oid) == DottedOid(a)
  {
    MatterEntryIs(a);
    MatterArcIs(x, y);
    MatterDotted(a, x, y);
  }

  lemma AttributeOidIs(a: DnAttribute)
    requires AttributeEntry(a).Ok?
    ensures Components(AttributeEntry(a).value.oid) == DottedOid(a)
  {
    if a.Text? {
      TextOidIs(a.kind);
    } else {
      MatterOidIs(a, LastArcs(a).0, LastArcs(a).1);
    }
  }
}
