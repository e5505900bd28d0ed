/** Which certificates have an X.509 form, and why the others have none. */
module X509Errors {
  import opened Wire
  import opened Der
  import opened Certificate
  import opened X509

  /** The alphabet of PrintableString (section 41.4 of ITU-T X.680). */
  predicate InAlphabet(b: byte)
  {
    var c := b as char;
    'A' <= c <= 'Z' || 'a' <= c <= 'z' || '0' <= c <= '9' || c in " '()+,-./:=?"
  }

  predicate Printable(s: bytes)
  {
    forall i :: 0 <= i < |s| ==> InAlphabet(s[i])
  }

  predicate Ascii(s: bytes)
  {
    forall i :: 0 <= i < |s| ==> s[i] < 128
  }

  /** Serial numbers, countries and qualifiers must be printable. */
  predicate MustPrint(kind: TextKind)
  {
    kind == SerialNumber || kind == CountryName || kind == DnQualifier
  }

  /** `e` is why the attribute has no X.509 form. */
  predicate Unfit(a: DnAttribute, e: Error)
  {
    match a
    case Other(tag, _) => e == DnAttributeHasNoX509Oid(tag)
    case Text(kind, s) =>
      || (MustPrint(kind) && !Printable(s) && e == InvalidDnAttributeForX509(kind, NotPrintable))
      || (kind == CountryName && Printable(s) && |s| != 2 && e == InvalidDnAttributeForX509(kind, NotTwoCharacters))
      || (kind == DomainComponent && !Ascii(s) && e == InvalidDnAttributeForX509(kind, NotAscii))
    case _ => false
  }

  /** The attribute has an X.509 form. */
  predicate Fit(a: DnAttribute)
  {
    match a
    case Other(_, _) => false
    case Text(kind, s) =>
      (MustPrint(kind) ==> Printable(s)) && (kind == CountryName ==> |s| == 2) && (kind == DomainComponent ==> Ascii(s))
    case _ => true
  }

  predicate AllFit(dn: DistinguishedName)
  {
    forall i :: 0 <= i < |dn| ==> Fit(dn[i])
  }

  /** `e` is what the first attribute without an X.509 form fails for. */
  predicate FirstUnfit(dn: DistinguishedName, e: Error)
  {
    exists i :: 0 <= i < |dn| && AllFit(dn[..i]) && Unfit(dn[i], e)
  }

  lemma AlphabetIs(b: byte)
    ensures IsPrintable(b) <==> InAlphabet(b)
  {
  }

  lemma PrintableIs(s: bytes)
    ensures AllPrintable(s) <==> Printable(s)
  {
    forall i | 0 <= i < |s| ensures IsPrintable(s[i]) <==> InAlphabet(s[i]) {
      AlphabetIs(s[i]);
    }
  }

  lemma EntryIff(a: DnAttribute, e: Error)
    ensures AttributeEntry(a).Ok? <==> Fit(a)
    ensures AttributeEntry(a) == Err(e) <==> Unfit(a, e)
  {
    if a.Text? {
      PrintableIs(a.text);
    }
  }

  lemma ShiftUnfit(dn: DistinguishedName, e: Error)
    requires dn != []
    ensures AllFit(dn) <==> Fit(dn[0]) && AllFit(dn[1..])
    ensures FirstUnfit(dn, e) <==> Unfit(dn[0], e) || (Fit(dn[0]) && FirstUnfit(dn[1..], e))
  {
    EntryIff(dn[0], e);
    if i :| 0 <= i < |dn| && AllFit(dn[..i]) && Unfit(dn[i], e) {
      if i > 0 {
        assert Fit(dn[..i][0]);
        assert dn[1..][i - 1] == dn[i];
        FitTail(dn, i);
      }
    }
    if Unfit(dn[0], e) {
      assert AllFit(dn[..0]);
    }
    if Fit(dn[0]) && FirstUnfit(dn[1..], e) {
      var i :| 0 <= i < |dn[1..]| && AllFit(dn[1..][..i]) && Unfit(dn[1..][i], e);
      FitCons(dn, i);
      assert dn[i + 1] == dn[1..][i];
    }
  }

  lemma FitTail(dn: DistinguishedName, i: nat)
    requires 0 < i <= |dn| && AllFit(dn[..i])
    ensures AllFit(dn[1..][..i - 1])
  {
    var tail := dn[1..][..i - 1];
    forall j | 0 <= j < |tail| ensures Fit(tail[j]) {
      assert tail[j] == dn[..i][j + 1];
    }
  }

  lemma FitCons(dn: DistinguishedName, i: nat)
    requires i < |dn| && Fit(dn[0]) && AllFit(dn[1..][..i])
    ensures AllFit(dn[..i + 1])
  {
    var more := dn[..i + 1];
    forall j | 0 <= j < |more| ensures Fit(more[j]) {
      assert j > 0 ==> more[j] == dn[1..][..i][j - 1];
    }
  }

  lemma {:induction false} NameIff(dn: DistinguishedName, e: Error)
    ensures NameTree(dn).Ok? <==> AllFit(dn)
    ensures NameTree(dn) == Err(e) <==> FirstUnfit(dn, e)
  {
    if dn != [] {
      EntryIff(dn[0], e);
      NameIff(dn[1..], e);
      ShiftUnfit(dn, e);
    }
  }

  /** A certificate has an X.509 form exactly when it has a serial and both its names have one;
      otherwise the error is that of the serial, the issuer or the subject, in this order. */
  lemma TbsIff(c: Certificate, e: Error)
    ensures TbsDer(c).Ok? <==> c.serial != [] && AllFit(c.issuer) && AllFit(c.subject)
    ensures TbsDer(c) == Err(e) <==>
      || (c.serial == [] && e == FieldValueOutOfRange(1))
      || (c.serial != [] && FirstUnfit(c.issuer, e))
      || (c.serial != [] && AllFit(c.issuer) && FirstUnfit(c.subject, e))
  {
    NameIff(c.issuer, e);
    NameIff(c.subject, e);
  }
}
