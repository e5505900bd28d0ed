/** Writing a certificate as the code does, one event after another. */
module CertificateWriter {
  import opened Wire
  import opened Certificate
  import opened CertificateTlv
  import opened Tlv

  lemma AttributesStep(done: seq<Element>, dn: DistinguishedName, i: nat)
    requires i < |dn|
    ensures EncodeAttribute(dn[i]).Err? ==> WriteAttributes(dn[i..]) == Err(EncodeAttribute(dn[i]).error)
    ensures EncodeAttribute(dn[i]).Ok? ==>
      Prefixed(done, WriteAttributes(dn[i..])) == Prefixed(done + [EncodeAttribute(dn[i]).value], WriteAttributes(dn[i + 1..]))
  {
    assert dn[i..][0] == dn[i] && dn[i..][1..] == dn[i + 1..];
    if EncodeAttribute(dn[i]).Ok? && WriteAttributes(dn[i + 1..]).Ok? {
      var a, more := EncodeAttribute(dn[i]).value, WriteAttributes(dn[i + 1..]).value;
      assert done + ([a] + more) == (done + [a]) + more;
    }
  }

  lemma Wrapped(before: seq<Element>, a: Element, body: seq<Element>, b: Element)
    ensures ((before + [a]) + body) + [b] == before + ([a] + body + [b])
  {
  }

  method PutAttributes(w: Writer, dn: DistinguishedName) returns (r: Result<(), Error>)
    modifies w
    ensures WriteAttributes(dn).Err? ==> r == Err(WriteAttributes(dn).error)
    ensures WriteAttributes(dn).Ok? ==> r == Ok(()) && w.events == old(w.events) + WriteAttributes(dn).value
  {
    ghost var done: seq<Element> := [];
    assert dn[0..] == dn;
    assert WriteAttributes(dn).Ok? ==> [] + WriteAttributes(dn).value == WriteAttributes(dn).value;
    for i := 0 to |dn|
      invariant w.events == old(w.events) + done
      invariant WriteAttributes(dn) == Prefixed(done, WriteAttributes(dn[i..]))
    {
      AttributesStep(done, dn, i);
      var e := EncodeAttribute(dn[i]);
      if e.Err? {
        return Err(e.error);
      }
      w.Put(e.value);
      done := done + [e.value];
    }
    assert done + [] == done;
    return Ok(());
  }

  method WriteName(w: Writer, dn: DistinguishedName, tag: byte) returns (r: Result<(), Error>)
    modifies w
    ensures WriteAttributes(dn).Err? ==> r == Err(WriteAttributes(dn).error)
    ensures WriteAttributes(dn).Ok? ==>
      r == Ok(()) && w.events == old(w.events) + ([Start(Context(tag), List)] + WriteAttributes(dn).value + [End])
  {
    w.Put(Start(Context(tag), List));
    r := PutAttributes(w, dn);
    if r.Err? {
      return;
    }
    w.Put(End);
    Wrapped(old(w.events), Start(Context(tag), List), WriteAttributes(dn).value, End);
  }

  lemma UintsStep(done: seq<Element>, eku: seq<u32>, i: nat)
    requires i < |eku|
    ensures done + WriteUints(eku[i..]) == (done + [Scalar(Anonymous, Tlv.Uint(eku[i]))]) + WriteUints(eku[i + 1..])
  {
  }

  method PutUints(w: Writer, eku: seq<u32>)
    modifies w
    ensures w.events == old(w.events) + WriteUints(eku)
  {
    ghost var done: seq<Element> := [];
    assert eku[0..] == eku && [] + WriteUints(eku) == WriteUints(eku);
    for i := 0 to |eku|
      invariant w.events == old(w.events) + done
      invariant WriteUints(eku) == done + WriteUints(eku[i..])
    {
      UintsStep(done, eku, i);
      w.Put(Scalar(Anonymous, Tlv.Uint(eku[i])));
      done := done + [Scalar(Anonymous, Tlv.Uint(eku[i]))];
    }
    assert done + [] == done;
  }

  method WriteUintArray(w: Writer, eku: seq<u32>)
    modifies w
    ensures w.events == old(w.events) + ([Start(Context(3), Array)] + WriteUints(eku) + [End])
  {
    w.Put(Start(Context(3), Array));
    PutUints(w, eku);
    w.Put(End);
    Wrapped(old(w.events), Start(Context(3), Array), WriteUints(eku), End);
  }

  method WriteConstraintsBody(w: Writer, x: Extensions)
    modifies w
    ensures w.events == old(w.events) + WriteConstraints(x)
  {
    if x.basicConstraints.Some? {
      var bc := x.basicConstraints.value;
      w.Put(Start(Context(1), Structure));
      w.Put(Scalar(Context(1), Tlv.Bool(bc.isCa)));
      if bc.pathLen.Some? {
        w.Put(Scalar(Context(2), Tlv.Uint(bc.pathLen.value)));
      }
      w.Put(End);
    }
  }

  method WriteEachExtension(w: Writer, x: Extensions)
    modifies w
    ensures w.events == old(w.events) + WriteExtensions(x)
  {
    ghost var before, done := w.events, WriteConstraints(x);
    WriteConstraintsBody(w, x);
    if x.keyUsage.Some? {
      w.Put(Scalar(Context(2), Tlv.Uint(x.keyUsage.value)));
    }
    Associate(before, done, WriteKeyUsage(x));
    assert w.events == before + (done + WriteKeyUsage(x));
    done := done + WriteKeyUsage(x);
    if x.extendedKeyUsage.Some? {
      WriteUintArray(w, x.extendedKeyUsage.value);
    }
    Associate(before, done, WriteExtendedKeyUsage(x));
    done := done + WriteExtendedKeyUsage(x);
    assert w.events == before + done;
    if x.subjectKeyId.Some? {
      w.Put(Scalar(Context(4), Tlv.Bytes(x.subjectKeyId.value)));
    }
    Associate(before, done, WriteSubjectKeyId(x));
    done := done + WriteSubjectKeyId(x);
    assert w.events == before + done;
    if x.authorityKeyId.Some? {
      w.Put(Scalar(Context(5), Tlv.Bytes(x.authorityKeyId.value)));
    }
    Associate(before, done, WriteAuthorityKeyId(x));
  }

  method WriteExtensionsField(w: Writer, x: Extensions)
    modifies w
    ensures w.events == old(w.events) + ([Start(Context(10), List)] + WriteExtensions(x) + [End])
  {
    w.Put(Start(Context(10), List));
    WriteEachExtension(w, x);
    w.Put(End);
    Wrapped(old(w.events), Start(Context(10), List), WriteExtensions(x), End);
  }

  lemma {:induction false} ConcatAppend(fs: seq<seq<Element>>, f: seq<Element>)
    ensures Concat(fs + [f]) == Concat(fs) + f
  {
    if fs == [] {
      assert fs + [f] == [f] && [f][1..] == [];
    } else {
      ConcatAppend(fs[1..], f);
      assert (fs + [f])[0] == fs[0] && (fs + [f])[1..] == fs[1..] + [f];
    }
  }

  ghost predicate Wrote(events: seq<Element>, fs: seq<seq<Element>>)
  {
    events == [Start(Anonymous, Structure)] + Concat(fs)
  }

  lemma WroteOne(events: seq<Element>, fs: seq<seq<Element>>, f: seq<Element>)
    requires Wrote(events, fs)
    ensures Wrote(events + f, fs + [f])
  {
    ConcatAppend(fs, f);
    Associate([Start(Anonymous, Structure)], Concat(fs), f);
  }

  /** The serial number, the signature algorithm and the issuer. */
  method WriteHead(w: Writer, c: Certificate) returns (r: Result<(), Error>)
    requires Wrote(w.events, [])
    modifies w
    ensures WriteAttributes(c.issuer).Err? ==> r == Err(WriteAttributes(c.issuer).error)
    ensures WriteAttributes(c.issuer).Ok? ==>
      r == Ok(()) && Wrote(w.events, [[Scalar(Context(1), Tlv.Bytes(c.serial))], [Scalar(Context(2), Tlv.Uint(1))],
                                      [Start(Context(3), List)] + WriteAttributes(c.issuer).value + [End]])
  {
    ghost var fs: seq<seq<Element>> := [];
    WroteOne(w.events, fs, [Scalar(Context(1), Tlv.Bytes(c.serial))]);
    w.Put(Scalar(Context(1), Tlv.Bytes(c.serial)));
    fs := fs + [[Scalar(Context(1), Tlv.Bytes(c.serial))]];
    WroteOne(w.events, fs, [Scalar(Context(2), Tlv.Uint(1))]);
    w.Put(Scalar(Context(2), Tlv.Uint(1)));
    fs := fs + [[Scalar(Context(2), Tlv.Uint(1))]];
    ghost var before := w.events;
    r := WriteName(w, c.issuer, 3);
    if r.Ok? {
      ghost var name := [Start(Context(3), List)] + WriteAttributes(c.issuer).value + [End];
      WroteOne(before, fs, name);
      assert fs + [name] == [[Scalar(Context(1), Tlv.Bytes(c.serial))], [Scalar(Context(2), Tlv.Uint(1))], name];
    }
  }

  /** The validity and the subject, after other fields. */
  method WriteMiddle(w: Writer, c: Certificate, ghost done: seq<seq<Element>>) returns (r: Result<(), Error>)
    requires Wrote(w.events, done)
    modifies w
    ensures WriteAttributes(c.subject).Err? ==> r == Err(WriteAttributes(c.subject).error)
    ensures WriteAttributes(c.subject).Ok? ==>
      r == Ok(()) && Wrote(w.events, done + [[Scalar(Context(4), Tlv.Uint(c.notBefore))]]
                                          + [[Scalar(Context(5), Tlv.Uint(c.notAfter))]]
                                          + [[Start(Context(6), List)] + WriteAttributes(c.subject).value + [End]])
  {
    WroteOne(w.events, done, [Scalar(Context(4), Tlv.Uint(c.notBefore))]);
    w.Put(Scalar(Context(4), Tlv.Uint(c.notBefore)));
    ghost var fs := done + [[Scalar(Context(4), Tlv.Uint(c.notBefore))]];
    WroteOne(w.events, fs, [Scalar(Context(5), Tlv.Uint(c.notAfter))]);
    w.Put(Scalar(Context(5), Tlv.Uint(c.notAfter)));
    fs := fs + [[Scalar(Context(5), Tlv.Uint(c.notAfter))]];
    ghost var before := w.events;
    r := WriteName(w, c.subject, 6);
    if r.Ok? {
      WroteOne(before, fs, [Start(Context(6), List)] + WriteAttributes(c.subject).value + [End]);
    }
  }

  /** The key, the extensions and the signature, after other fields. */
  method WriteTail(w: Writer, c: Certificate, ghost done: seq<seq<Element>>)
    requires Wrote(w.events, done)
    modifies w
    ensures Wrote(w.events, done + [[Scalar(Context(7), Tlv.Uint(1))]] + [[Scalar(Context(8), Tlv.Uint(1))]]
                                 + [[Scalar(Context(9), Tlv.Bytes(c.publicKey))]]
                                 + [[Start(Context(10), List)] + WriteExtensions(c.extensions) + [End]]
                                 + [[Scalar(Context(11), Tlv.Bytes(c.signature))]])
  {
    WroteOne(w.events, done, [Scalar(Context(7), Tlv.Uint(1))]);
    w.Put(Scalar(Context(7), Tlv.Uint(1)));
    ghost var fs := done + [[Scalar(Context(7), Tlv.Uint(1))]];
    WroteOne(w.events, fs, [Scalar(Context(8), Tlv.Uint(1))]);
    w.Put(Scalar(Context(8), Tlv.Uint(1)));
    fs := fs + [[Scalar(Context(8), Tlv.Uint(1))]];
    WroteOne(w.events, fs, [Scalar(Context(9), Tlv.Bytes(c.publicKey))]);
    w.Put(Scalar(Context(9), Tlv.Bytes(c.publicKey)));
    fs := fs + [[Scalar(Context(9), Tlv.Bytes(c.publicKey))]];
    WroteOne(w.events, fs, [Start(Context(10), List)] + WriteExtensions(c.extensions) + [End]);
    WriteExtensionsField(w, c.extensions);
    fs := fs + [[Start(Context(10), List)] + WriteExtensions(c.extensions) + [End]];
    WroteOne(w.events, fs, [Scalar(Context(11), Tlv.Bytes(c.signature))]);
    w.Put(Scalar(Context(11), Tlv.Bytes(c.signature)));
  }

  method SerializeCertificate(c: Certificate) returns (r: Result<seq<Element>, Error>)
    ensures r == ToTlv(c)
  {
    var w := new Writer();
    w.Put(Start(Anonymous, Structure));
    var outcome := WriteHead(w, c);
    if outcome.Err? {
      return Err(outcome.error);
    }
    ghost var issuer := WriteAttributes(c.issuer).value;
    ghost var head := [[Scalar(Context(1), Tlv.Bytes(c.serial))], [Scalar(Context(2), Tlv.Uint(1))],
                       [Start(Context(3), List)] + issuer + [End]];
    outcome := WriteMiddle(w, c, head);
    if outcome.Err? {
      return Err(outcome.error);
    }
    ghost var subject := WriteAttributes(c.subject).value;
    ghost var middle := head + [[Scalar(Context(4), Tlv.Uint(c.notBefore))]] + [[Scalar(Context(5), Tlv.Uint(c.notAfter))]]
      + [[Start(Context(6), List)] + subject + [End]];
    WriteTail(w, c, middle);
    assert middle + [[Scalar(Context(7), Tlv.Uint(1))]] + [[Scalar(Context(8), Tlv.Uint(1))]]
      + [[Scalar(Context(9), Tlv.Bytes(c.publicKey))]]
      + [[Start(Context(10), List)] + WriteExtensions(c.extensions) + [End]]
      + [[Scalar(Context(11), Tlv.Bytes(c.signature))]] == WriteFields(c, issuer, subject);
    w.Put(End);
    return Ok(w.events);
  }
}
