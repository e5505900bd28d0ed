/** The form in which certificates are written, as a check on the events alone, and the
    theorem that writing what was read gives the same events exactly in that form. */
module CertificateTlvForm {
  import opened Wire
  import opened Certificate
  import opened Tlv
  import opened CertificateTlv
  import opened CertificateTlvTheorems

  // ---- The form ----

  /** The events after the end of an open container of scalars. */
  function AfterEnd(es: seq<Element>): (r: Option<seq<Element>>)
    ensures r.Some? ==> |r.value| < |es|
  {
    if es == [] then None else if es[0].End? then Some(es[1..]) else AfterEnd(es[1..])
  }

  /** The same, every scalar being anonymous. */
  function AfterAnonymous(es: seq<Element>): (r: Option<seq<Element>>)
    ensures r.Some? ==> |r.value| < |es|
  {
    if es == [] then None
    else if es[0].End? then Some(es[1..])
    else if es[0].Scalar? && es[0].tag == Anonymous then AfterAnonymous(es[1..])
    else None
  }

  predicate IsScalar(e: Element, tag: byte)
  {
    e.Scalar? && e.tag == Context(tag)
  }

  /** The body of the basic constraints: the CA flag, then possibly the path length. */
  function AfterConstraints(es: seq<Element>): (r: Option<seq<Element>>)
    ensures r.Some? ==> |r.value| < |es|
  {
    if |es| >= 2 && IsScalar(es[0], 1) && es[1].End? then Some(es[2..])
    else if |es| >= 3 && IsScalar(es[0], 1) && IsScalar(es[1], 2) && es[2].End? then Some(es[3..])
    else None
  }

  /** One extension in the written form: its tag, and the events after it. */
  function AfterExtension(es: seq<Element>): (r: Option<(nat, seq<Element>)>)
    requires es != []
    ensures r.Some? ==> 1 <= r.value.0 <= 5 && |r.value.1| < |es|
  {
    match es[0]
    case Start(Context(1), Structure) =>
      (match AfterConstraints(es[1..])
       case None => None
       case Some(after) => Some((1, after)))
    case Scalar(Context(2), Uint(bits)) => if bits < 0x200 then Some((2, es[1..])) else None
    case Start(Context(3), Array) =>
      (match AfterAnonymous(es[1..])
       case None => None
       case Some(after) => Some((3, after)))
    case Scalar(Context(4), _) => Some((4, es[1..]))
    case Scalar(Context(5), _) => Some((5, es[1..]))
    case _ => None
  }

  /** Extensions with ascending tags, none below `from`, up to the end of their list. */
  function AfterExtensions(es: seq<Element>, from: nat): (r: Option<seq<Element>>)
    ensures r.Some? ==> |r.value| < |es|
    decreases |es|
  {
    if es == [] then None
    else if es[0].End? then Some(es[1..])
    else
      match AfterExtension(es)
      case None => None
      case Some((tag, after)) => if tag < from then None else AfterExtensions(after, tag + 1)
  }

  /** The fields from tag `next` to tag 11, each once and in order, and then the end. */
  predicate FieldsInForm(es: seq<Element>, next: nat)
    decreases |es|
  {
    if next > 11 then es == [End]
    else if es == [] then false
    else
      match es[0]
      case Scalar(Context(tag), _) => tag == next && FieldsInForm(es[1..], next + 1)
      case Start(Context(tag), List) =>
        var after := if next == 10 then AfterExtensions(es[1..], 1) else AfterEnd(es[1..]);
        tag == next && after.Some? && FieldsInForm(after.value, next + 1)
      case _ => false
  }

  /** The written form.  Nothing in it depends on the values, except that the key usage has
      only defined bits. */
  predicate InWrittenForm(es: seq<Element>)
  {
    es != [] && es[0] == Start(Anonymous, Structure) && FieldsInForm(es[1..], 1)
  }

  // ---- What is in the form is written back ----

  lemma AttributeRewrites(tag: byte, value: Value)
    requires DecodeAttribute(tag, value).Ok?
    ensures EncodeAttribute(DecodeAttribute(tag, value).value) == Ok(Scalar(Context(tag), value))
  {
  }

  /** A name is always written back as it was read. */
  lemma {:induction false} NameRewrites(es: seq<Element>)
    requires ReadName(es).Ok?
    ensures var (dn, after) := ReadName(es).value;
            && WriteAttributes(dn).Ok? && es == WriteAttributes(dn).value + [End] + after
            && AfterEnd(es) == Some(after)
  {
    var (dn, after) := ReadName(es).value;
    if es[0].End? {
      assert [] + [End] + after == [End] + after;
    } else {
      AttributeRewrites(es[0].tag.number, es[0].value);
      NameRewrites(es[1..]);
      var more := ReadName(es[1..]).value.0;
      assert dn[1..] == more;
      assert [es[0]] + (WriteAttributes(more).value + [End] + after) == WriteAttributes(dn).value + [End] + after;
    }
  }

  lemma {:induction false} UintsRewrite(es: seq<Element>)
    requires ReadUints(es).Ok? && AfterAnonymous(es).Some?
    ensures var (eku, after) := ReadUints(es).value;
            es == WriteUints(eku) + [End] + after && AfterAnonymous(es) == Some(after)
  {
    var (eku, after) := ReadUints(es).value;
    if es[0].End? {
      assert [] + [End] + after == [End] + after;
    } else {
      UintsRewrite(es[1..]);
      var more := ReadUints(es[1..]).value.0;
      assert eku[1..] == more;
      assert [es[0]] + (WriteUints(more) + [End] + after) == WriteUints(eku) + [End] + after;
    }
  }

  /** The body of written basic constraints. */
  function ConstraintsBody(bc: BasicConstraints): (es: seq<Element>)
  {
    [Scalar(Context(1), Bool(bc.isCa))] + (if bc.pathLen.Some? then [Scalar(Context(2), Tlv.Uint(bc.pathLen.value))] else [])
  }

  lemma ConstraintsRewrite(es: seq<Element>)
    requires ReadConstraints(es, BasicConstraints(false, None)).Ok? && AfterConstraints(es).Some?
    ensures var (bc, after) := ReadConstraints(es, BasicConstraints(false, None)).value;
            es == ConstraintsBody(bc) + [End] + after && AfterConstraints(es) == Some(after)
  {
    var none := BasicConstraints(false, None);
    var one := BasicConstraints(es[0].value.flag, None);
    assert ReadConstraints(es, none) == ReadConstraints(es[1..], one);
    if es[1].End? {
      assert ReadConstraints(es[1..], one) == Ok((one, es[1..][1..]));
      assert es[1..][1..] == es[2..];
      assert es == [es[0]] + [] + [End] + es[2..];
    } else {
      var two := one.(pathLen := Some(es[1].value.number));
      assert es[1..][1..] == es[2..] && es[2..][1..] == es[3..];
      assert ReadConstraints(es[1..], one) == ReadConstraints(es[2..], two) == Ok((two, es[3..]));
      assert es == [es[0]] + [es[1]] + [End] + es[3..];
    }
  }

  /** The `k`-th extension, as written. */
  function Part(x: Extensions, k: nat): (es: seq<Element>)
    requires 1 <= k <= 5
  {
    match k
    case 1 => WriteConstraints(x)
    case 2 => WriteKeyUsage(x)
    case 3 => WriteExtendedKeyUsage(x)
    case 4 => WriteSubjectKeyId(x)
    case _ => WriteAuthorityKeyId(x)
  }

  predicate Present(x: Extensions, k: nat)
    requires 1 <= k <= 5
  {
    match k
    case 1 => x.basicConstraints.Some?
    case 2 => x.keyUsage.Some?
    case 3 => x.extendedKeyUsage.Some?
    case 4 => x.subjectKeyId.Some?
    case _ => x.authorityKeyId.Some?
  }

  /** The extensions from the `k`-th on, as written. */
  function PartsFrom(x: Extensions, k: nat): (es: seq<Element>)
    requires 1 <= k <= 6
    decreases 6 - k
  {
    if k > 5 then [] else Part(x, k) + PartsFrom(x, k + 1)
  }

  predicate SamePart(x: Extensions, y: Extensions, k: nat)
    requires 1 <= k <= 5
  {
    Part(x, k) == Part(y, k) && (Present(x, k) <==> Present(y, k))
  }

  lemma PartsAre(x: Extensions)
    ensures PartsFrom(x, 1) == WriteExtensions(x)
  {
    LastParts(x);
    var a, b, c, d, e :=
      WriteConstraints(x), WriteKeyUsage(x), WriteExtendedKeyUsage(x), WriteSubjectKeyId(x), WriteAuthorityKeyId(x);
    Nested(a, b, c, d, e, []);
    assert e + [] == e;
    assert WriteExtensions(x) + [] == WriteExtensions(x);
  }

  lemma LastParts(x: Extensions)
    ensures PartsFrom(x, 1)
         == WriteConstraints(x) + (WriteKeyUsage(x) + (WriteExtendedKeyUsage(x) + (WriteSubjectKeyId(x)
            + (WriteAuthorityKeyId(x) + []))))
  {
    assert PartsFrom(x, 5) == WriteAuthorityKeyId(x) + PartsFrom(x, 6);
    assert PartsFrom(x, 4) == WriteSubjectKeyId(x) + PartsFrom(x, 5);
    assert PartsFrom(x, 3) == WriteExtendedKeyUsage(x) + PartsFrom(x, 4);
    assert PartsFrom(x, 2) == WriteKeyUsage(x) + PartsFrom(x, 3);
    assert PartsFrom(x, 1) == WriteConstraints(x) + PartsFrom(x, 2);
  }

  lemma AbsentPart(x: Extensions, k: nat)
    requires 1 <= k <= 5 && !Present(x, k)
    ensures Part(x, k) == []
  {
  }

  lemma Brackets(start: Element, body: seq<Element>, after: seq<Element>)
    ensures [start] + (body + [End] + after) == ([start] + body + [End]) + after
  {
  }

  /** `next` is `x` with part `tag` filled by the events in front of `after`. */
  predicate Fills(es: seq<Element>, x: Extensions, next: Extensions, after: seq<Element>, tag: nat)
    requires 1 <= tag <= 5
  {
    es == Part(next, tag) + after && Present(next, tag) && forall k :: 1 <= k <= 5 && k != tag ==> SamePart(x, next, k)
  }

  lemma ConstraintsFill(es: seq<Element>, x: Extensions)
    requires es != [] && es[0] == Start(Context(1), Structure) && ReadExtension(es, x).Ok? && AfterExtension(es).Some?
    ensures var (next, after) := ReadExtension(es, x).value;
            AfterExtension(es).value == (1, after) && Fills(es, x, next, after, 1)
  {
    var (next, after) := ReadExtension(es, x).value;
    ConstraintsRewrite(es[1..]);
    var body := ConstraintsBody(next.basicConstraints.value);
    assert es == [es[0]] + es[1..];
    Brackets(es[0], body, after);
    assert [es[0]] + body + [End] == WriteConstraints(next);
  }

  lemma UintsFill(es: seq<Element>, x: Extensions)
    requires es != [] && es[0] == Start(Context(3), Array) && ReadExtension(es, x).Ok? && AfterExtension(es).Some?
    ensures var (next, after) := ReadExtension(es, x).value;
            AfterExtension(es).value == (3, after) && Fills(es, x, next, after, 3)
  {
    var (next, after) := ReadExtension(es, x).value;
    UintsRewrite(es[1..]);
    assert es == [es[0]] + es[1..];
    Brackets(es[0], WriteUints(next.extendedKeyUsage.value), after);
  }

  lemma ScalarFills(es: seq<Element>, x: Extensions)
    requires es != [] && es[0].Scalar? && ReadExtension(es, x).Ok? && AfterExtension(es).Some?
    ensures var (next, after) := ReadExtension(es, x).value;
            AfterExtension(es).value.1 == after && Fills(es, x, next, after, AfterExtension(es).value.0)
  {
    assert es == [es[0]] + es[1..];
  }

  /** One extension in the form: it fills its own part, with what was there. */
  lemma ExtensionRewrites(es: seq<Element>, x: Extensions)
    requires es != [] && !es[0].End? && ReadExtension(es, x).Ok? && AfterExtension(es).Some?
    ensures var (next, after) := ReadExtension(es, x).value;
            AfterExtension(es).value.1 == after && Fills(es, x, next, after, AfterExtension(es).value.0)
  {
    if es[0].Scalar? {
      ScalarFills(es, x);
    } else if es[0].tag == Context(1) {
      ConstraintsFill(es, x);
    } else {
      UintsFill(es, x);
    }
  }

  /** Later extensions in the form leave the parts below `from` alone. */
  lemma {:induction false} ExtensionsKeep(es: seq<Element>, x: Extensions, from: nat, k: nat)
    requires ReadExtensions(es, x).Ok? && AfterExtensions(es, from).Some? && 1 <= k <= 5 && k < from
    ensures SamePart(x, ReadExtensions(es, x).value.0, k)
    decreases |es|
  {
    if !es[0].End? {
      ExtensionRewrites(es, x);
      var (next, after) := ReadExtension(es, x).value;
      ExtensionsKeep(after, next, AfterExtension(es).value.0 + 1, k);
    }
  }

  lemma {:induction false} SkipAbsent(x: Extensions, from: nat, k: nat)
    requires 1 <= from <= k <= 6 && forall i :: from <= i < k ==> !Present(x, i)
    ensures PartsFrom(x, from) == PartsFrom(x, k)
    decreases k - from
  {
    if from < k {
      SkipOne(x, from);
      SkipAbsent(x, from + 1, k);
    }
  }

  lemma SkipOne(x: Extensions, k: nat)
    requires 1 <= k <= 5 && !Present(x, k)
    ensures PartsFrom(x, k) == PartsFrom(x, k + 1)
  {
    AbsentPart(x, k);
    assert [] + PartsFrom(x, k + 1) == PartsFrom(x, k + 1);
  }

  lemma {:induction false} ExtensionsRewrite(es: seq<Element>, x: Extensions, from: nat)
    requires ReadExtensions(es, x).Ok? && AfterExtensions(es, from).Some? && 1 <= from <= 6
    requires forall k :: from <= k <= 5 ==> !Present(x, k)
    ensures var (y, after) := ReadExtensions(es, x).value;
            es == PartsFrom(y, from) + [End] + after && AfterExtensions(es, from) == Some(after)
    decreases |es|
  {
    var (y, rest) := ReadExtensions(es, x).value;
    if es[0].End? {
      SkipAbsent(x, from, 6);
      assert es == [End] + rest == [] + [End] + rest;
    } else {
      ExtensionRewrites(es, x);
      var (next, after) := ReadExtension(es, x).value;
      var tag := AfterExtension(es).value.0;
      forall k | from <= k <= 5 && k != tag ensures !Present(next, k) {
        assert SamePart(x, next, k);
      }
      ExtensionsRewrite(after, next, tag + 1);
      ExtensionsKeep(after, next, tag + 1, tag);
      forall k | from <= k < tag ensures !Present(y, k) {
        ExtensionsKeep(after, next, tag + 1, k);
      }
      SkipAbsent(y, from, tag);
      Regroup(Part(y, tag), PartsFrom(y, tag + 1), [End], rest);
    }
  }

  lemma Regroup(a: seq<Element>, b: seq<Element>, c: seq<Element>, d: seq<Element>)
    ensures a + (b + c + d) == (a + b) + c + d
  {
  }

  /** The slots of `s` hold what the certificate has. */
  predicate Within(s: Slots, c: Certificate)
  {
    Union(s, AllSlots(c)) == AllSlots(c)
  }

  lemma StepWithin(es: seq<Element>, s: Slots)
    requires es != [] && !es[0].End? && ReadField(es, s).Ok?
    ensures Union(s, ReadField(es, s).value.0) == ReadField(es, s).value.0
  {
    ReadFieldSplits(es, s);
  }

  lemma UnionWithin(s: Slots, t: Slots, u: Slots)
    requires Union(s, t) == t && Union(t, u) == u
    ensures Union(s, u) == u
  {
  }

  /** A slot once filled keeps its value. */
  lemma {:induction false} FieldsKeep(es: seq<Element>, s: Slots, c: Certificate)
    requires ReadFields(es, s).Ok? && Complete(ReadFields(es, s).value) == Ok(c)
    ensures Within(s, c)
    decreases |es|
  {
    if !es[0].End? {
      var (next, after) := ReadField(es, s).value;
      FieldsKeep(after, next, c);
      StepWithin(es, s);
      UnionWithin(s, next, AllSlots(c));
    }
  }

  lemma BytesRewrite(tag: byte, b: bytes, s: Slots, c: Certificate, issuer: seq<Element>, subject: seq<Element>)
    requires ReadBytes(tag, b, s).Ok? && Within(ReadBytes(tag, b, s).value, c) && 1 <= tag <= 11
    ensures [Scalar(Context(tag), Tlv.Bytes(b))] == WriteFields(c, issuer, subject)[tag - 1]
  {
  }

  lemma UintRewrites(tag: byte, v: u64, s: Slots, c: Certificate, issuer: seq<Element>, subject: seq<Element>)
    requires ReadUint(tag, v, s).Ok? && Within(ReadUint(tag, v, s).value, c) && 1 <= tag <= 11
    ensures [Scalar(Context(tag), Tlv.Uint(v))] == WriteFields(c, issuer, subject)[tag - 1]
  {
  }

  /** What the events of a container look like once written. */
  lemma ContainerRewrites(tag: byte, es: seq<Element>, s: Slots, c: Certificate)
    requires ReadContainer(tag, List, es, s).Ok? && Within(ReadContainer(tag, List, es, s).value.0, c)
    requires WriteAttributes(c.issuer).Ok? && WriteAttributes(c.subject).Ok? && 1 <= tag <= 11
    requires tag == 10 ==> AfterExtensions(es, 1).Some?
    ensures var after := ReadContainer(tag, List, es, s).value.1;
            && [Start(Context(tag), List)] + es
               == WriteFields(c, WriteAttributes(c.issuer).value, WriteAttributes(c.subject).value)[tag - 1] + after
            && (if tag == 10 then AfterExtensions(es, 1) else AfterEnd(es)) == Some(after)
  {
    var after := ReadContainer(tag, List, es, s).value.1;
    if tag == 10 {
      ExtensionsRewrite(es, NO_EXTENSIONS, 1);
      PartsAre(c.extensions);
      Brackets(Start(Context(tag), List), WriteExtensions(c.extensions), after);
    } else {
      NameRewrites(es);
      Brackets(Start(Context(tag), List), WriteAttributes(ReadName(es).value.0).value, after);
    }
  }

  /** The next field in the form is the field that is written. */
  lemma FieldRewrites(es: seq<Element>, s: Slots, c: Certificate, next: nat)
    requires 1 <= next <= 11 && FieldsInForm(es, next) && ReadField(es, s).Ok? && Within(ReadField(es, s).value.0, c)
    requires WriteAttributes(c.issuer).Ok? && WriteAttributes(c.subject).Ok?
    ensures var after := ReadField(es, s).value.1;
            && es == WriteFields(c, WriteAttributes(c.issuer).value, WriteAttributes(c.subject).value)[next - 1] + after
            && FieldsInForm(after, next + 1)
  {
    var issuer, subject := WriteAttributes(c.issuer).value, WriteAttributes(c.subject).value;
    assert es == [es[0]] + es[1..];
    if es[0].Start? {
      ContainerRewrites(es[0].tag.number, es[1..], s, c);
    } else if es[0].value.Bytes? {
      BytesRewrite(es[0].tag.number, es[0].value.raw, s, c, issuer, subject);
    } else {
      UintRewrites(es[0].tag.number, es[0].value.number, s, c, issuer, subject);
    }
  }

  lemma {:induction false} FieldsRewrite(es: seq<Element>, s: Slots, c: Certificate, fs: seq<seq<Element>>, next: nat)
    requires 1 <= next <= 12 && FieldsInForm(es, next)
    requires ReadFields(es, s).Ok? && Complete(ReadFields(es, s).value) == Ok(c)
    requires WriteAttributes(c.issuer).Ok? && WriteAttributes(c.subject).Ok?
    requires fs == WriteFields(c, WriteAttributes(c.issuer).value, WriteAttributes(c.subject).value)
    ensures es == Concat(fs[next - 1..]) + [End]
    decreases |es|
  {
    if next == 12 {
      assert fs[11..] == [];
    } else {
      var (t, after) := ReadField(es, s).value;
      FieldsKeep(after, t, c);
      FieldRewrites(es, s, c, next);
      FieldsRewrite(after, t, c, fs, next + 1);
      assert fs[next - 1..][0] == fs[next - 1] && fs[next - 1..][1..] == fs[next..];
      Associate(fs[next - 1], Concat(fs[next..]), [End]);
    }
  }

  // ---- What is written is in the form ----

  lemma {:induction false} AttributesEnd(dn: DistinguishedName, rest: seq<Element>)
    requires WriteAttributes(dn).Ok?
    ensures AfterEnd(WriteAttributes(dn).value + [End] + rest) == Some(rest)
  {
    var es := WriteAttributes(dn).value + [End] + rest;
    if dn == [] {
      assert es == [End] + rest;
    } else {
      AttributesEnd(dn[1..], rest);
      assert es[0] == EncodeAttribute(dn[0]).value;
      assert es[1..] == WriteAttributes(dn[1..]).value + [End] + rest;
    }
  }

  lemma {:induction false} UintsEnd(eku: seq<u32>, rest: seq<Element>)
    ensures AfterAnonymous(WriteUints(eku) + [End] + rest) == Some(rest)
  {
    var es := WriteUints(eku) + [End] + rest;
    if eku == [] {
      assert es == [End] + rest;
    } else {
      UintsEnd(eku[1..], rest);
      assert es[0] == Scalar(Anonymous, Tlv.Uint(eku[0]));
      assert es[1..] == WriteUints(eku[1..]) + [End] + rest;
    }
  }

  lemma ConstraintsEnd(bc: BasicConstraints, rest: seq<Element>)
    ensures AfterConstraints(ConstraintsBody(bc) + [End] + rest) == Some(rest)
  {
    var es := ConstraintsBody(bc) + [End] + rest;
    if bc.pathLen.Some? {
      assert es[3..] == rest;
    } else {
      assert es[2..] == rest;
    }
  }

  /** A written extension is in the form, unless its key usage has undefined bits. */
  lemma PartEnds(x: Extensions, k: nat, rest: seq<Element>)
    requires 1 <= k <= 5 && Present(x, k)
    ensures Part(x, k) != [] && !Part(x, k)[0].End?
    ensures AfterExtension(Part(x, k) + rest) == if k != 2 || KnownUsage(x) then Some((k, rest)) else None
  {
    var es := Part(x, k) + rest;
    if k == 1 {
      var bc := x.basicConstraints.value;
      assert Part(x, k) == [Start(Context(1), Structure)] + ConstraintsBody(bc) + [End];
      Brackets(Start(Context(1), Structure), ConstraintsBody(bc), rest);
      assert es[1..] == ConstraintsBody(bc) + [End] + rest;
      ConstraintsEnd(bc, rest);
    } else if k == 3 {
      Brackets(Start(Context(3), Array), WriteUints(x.extendedKeyUsage.value), rest);
      assert es[1..] == WriteUints(x.extendedKeyUsage.value) + [End] + rest;
      UintsEnd(x.extendedKeyUsage.value, rest);
    } else {
      assert es[1..] == rest;
    }
  }

  lemma {:induction false} PartsEnd(x: Extensions, k: nat, from: nat, rest: seq<Element>)
    requires 1 <= from <= k <= 6
    ensures AfterExtensions(PartsFrom(x, k) + [End] + rest, from) == if k > 2 || KnownUsage(x) then Some(rest) else None
    decreases 6 - k
  {
    if k == 6 {
      assert [] + [End] + rest == [End] + rest;
    } else if !Present(x, k) {
      AbsentPart(x, k);
      assert PartsFrom(x, k) == PartsFrom(x, k + 1);
      PartsEnd(x, k + 1, from, rest);
    } else {
      var more := PartsFrom(x, k + 1) + [End] + rest;
      Regroup(Part(x, k), PartsFrom(x, k + 1), [End], rest);
      PartEnds(x, k, more);
      assert (Part(x, k) + more)[0] == Part(x, k)[0];
      if k != 2 || KnownUsage(x) {
        PartsEnd(x, k + 1, k + 1, rest);
      }
    }
  }

  lemma ContainerInForm(tag: byte, body: seq<Element>, more: seq<Element>)
    requires 1 <= tag <= 11
    ensures FieldsInForm([Start(Context(tag), List)] + body + [End] + more, tag)
        <==> var after := if tag == 10 then AfterExtensions(body + [End] + more, 1) else AfterEnd(body + [End] + more);
             after.Some? && FieldsInForm(after.value, tag + 1)
  {
    var es := [Start(Context(tag), List)] + body + [End] + more;
    assert es[1..] == body + [End] + more;
  }

  lemma ExtensionsInForm(x: Extensions, more: seq<Element>)
    ensures FieldsInForm([Start(Context(10), List)] + WriteExtensions(x) + [End] + more, 10)
        <==> KnownUsage(x) && FieldsInForm(more, 11)
  {
    PartsAre(x);
    PartsEnd(x, 1, 1, more);
    ContainerInForm(10, WriteExtensions(x), more);
  }

  lemma NameInForm(tag: byte, dn: DistinguishedName, more: seq<Element>)
    requires (tag == 3 || tag == 6) && WriteAttributes(dn).Ok?
    ensures FieldsInForm([Start(Context(tag), List)] + WriteAttributes(dn).value + [End] + more, tag)
        <==> FieldsInForm(more, tag + 1)
  {
    AttributesEnd(dn, more);
    ContainerInForm(tag, WriteAttributes(dn).value, more);
  }

  lemma ScalarInForm(e: Element, tag: byte, more: seq<Element>)
    requires 1 <= tag <= 11 && IsScalar(e, tag)
    ensures FieldsInForm([e] + more, tag) <==> FieldsInForm(more, tag + 1)
  {
    assert ([e] + more)[0] == e && ([e] + more)[1..] == more;
  }

  /** A written field is passed over in the form; the extensions field is not when its key
      usage has undefined bits. */
  lemma FieldInForm(c: Certificate, issuer: seq<Element>, subject: seq<Element>, i: nat, more: seq<Element>)
    requires i < 11 && WriteAttributes(c.issuer) == Ok(issuer) && WriteAttributes(c.subject) == Ok(subject)
    ensures FieldsInForm(WriteFields(c, issuer, subject)[i] + more, i + 1)
        <==> (i == 9 ==> KnownUsage(c.extensions)) && FieldsInForm(more, i + 2)
  {
    var f := WriteFields(c, issuer, subject)[i];
    if i == 2 {
      NameInForm(3, c.issuer, more);
    } else if i == 5 {
      NameInForm(6, c.subject, more);
    } else if i == 9 {
      ExtensionsInForm(c.extensions, more);
    } else {
      assert f == [f[0]];
      ScalarInForm(f[0], i + 1, more);
    }
  }

  lemma {:induction false} FieldsFromInForm(c: Certificate, fs: seq<seq<Element>>, i: nat)
    requires i <= 11 && WriteAttributes(c.issuer).Ok? && WriteAttributes(c.subject).Ok?
    requires fs == WriteFields(c, WriteAttributes(c.issuer).value, WriteAttributes(c.subject).value)
    ensures FieldsInForm(Concat(fs[i..]) + [End], i + 1) <==> (i <= 9 ==> KnownUsage(c.extensions))
    decreases 11 - i
  {
    if i == 11 {
      assert fs[i..] == [];
      assert Concat(fs[i..]) + [End] == [End];
    } else {
      var more := Concat(fs[i + 1..]) + [End];
      FieldsFromInForm(c, fs, i + 1);
      assert fs[i..][0] == fs[i] && fs[i..][1..] == fs[i + 1..];
      Associate(fs[i], Concat(fs[i + 1..]), [End]);
      FieldInForm(c, WriteAttributes(c.issuer).value, WriteAttributes(c.subject).value, i, more);
    }
  }

  /** A certificate is written in the form exactly when its key usage has only defined bits. */
  lemma WrittenIsInForm(c: Certificate)
    requires ToTlv(c).Ok?
    ensures InWrittenForm(ToTlv(c).value) <==> KnownUsage(c.extensions)
  {
    var fs := WriteFields(c, WriteAttributes(c.issuer).value, WriteAttributes(c.subject).value);
    FieldsFromInForm(c, fs, 0);
    assert fs[0..] == fs;
    assert Stream(fs)[1..] == Concat(fs) + [End];
  }

  // ---- The theorem ----

  lemma InFormIsWrittenBack(es: seq<Element>)
    requires FromTlv(es).Ok? && InWrittenForm(es)
    ensures ToTlv(FromTlv(es).value) == Ok(es)
  {
    var c := FromTlv(es).value;
    CanonicalStream(es);
    var fs := WriteFields(c, WriteAttributes(c.issuer).value, WriteAttributes(c.subject).value);
    FieldsRewrite(es[1..], EMPTY, c, fs, 1);
    assert fs[0..] == fs;
    assert es == [Start(Anonymous, Structure)] + (Concat(fs) + [End]);
    Associate([Start(Anonymous, Structure)], Concat(fs), [End]);
    assert es == Stream(fs);
  }

  /** Writing what was read gives the same events exactly when they were in the written form. */
  lemma IdentityIff(es: seq<Element>)
    requires FromTlv(es).Ok?
    ensures ToTlv(FromTlv(es).value) == Ok(es) <==> InWrittenForm(es)
  {
    var c := FromTlv(es).value;
    ReadIsWellFormed(es);
    CanonicalStream(es);
    WrittenIsInForm(c);
    assert InWrittenForm(ToTlv(c).value);
    if InWrittenForm(es) {
      InFormIsWrittenBack(es);
    }
  }

  // ---- Accepted streams that are not written back ----

  /** The written fields with the two validity fields exchanged. */
  function Exchanged(fs: seq<seq<Element>>): (gs: seq<seq<Element>>)
    requires |fs| == 11
  {
    fs[3 := fs[4]][4 := fs[3]]
  }

  lemma ConcatFrom(fs: seq<seq<Element>>, i: nat)
    requires i < |fs|
    ensures Concat(fs[i..]) == fs[i] + Concat(fs[i + 1..])
  {
    assert fs[i..][0] == fs[i] && fs[i..][1..] == fs[i + 1..];
  }

  lemma FirstThree(fs: seq<seq<Element>>)
    requires |fs| > 3
    ensures Stream(fs)[1..] == fs[0] + (fs[1] + (fs[2] + (fs[3] + (Concat(fs[4..]) + [End]))))
  {
    assert fs[0..] == fs;
    ConcatFrom(fs, 0);
    ConcatFrom(fs, 1);
    ConcatFrom(fs, 2);
    ConcatFrom(fs, 3);
    assert Stream(fs)[1..] == Concat(fs) + [End];
  }

  lemma OutOfOrder(c: Certificate, issuer: seq<Element>, subject: seq<Element>, gs: seq<seq<Element>>)
    requires WriteAttributes(c.issuer) == Ok(issuer) && WriteAttributes(c.subject) == Ok(subject) && |gs| > 3
    requires forall i :: 0 <= i < 3 ==> gs[i] == WriteFields(c, issuer, subject)[i]
    requires gs[3] != [] && IsScalar(gs[3][0], 5)
    ensures !InWrittenForm(Stream(gs))
  {
    var last := gs[3] + (Concat(gs[4..]) + [End]);
    assert last[0] == gs[3][0];
    assert !FieldsInForm(last, 4);
    FieldInForm(c, issuer, subject, 2, last);
    FieldInForm(c, issuer, subject, 1, gs[2] + last);
    FieldInForm(c, issuer, subject, 0, gs[1] + (gs[2] + last));
    FirstThree(gs);
  }

  lemma ExchangedIsAccepted(c: Certificate, issuer: seq<Element>, subject: seq<Element>)
    requires WellFormed(c) && WriteAttributes(c.issuer) == Ok(issuer) && WriteAttributes(c.subject) == Ok(subject)
    ensures FromTlv(Stream(Exchanged(WriteFields(c, issuer, subject)))) == Ok(c)
  {
    var fs := WriteFields(c, issuer, subject);
    WellFormedRoundTrip(c);
    WrittenFieldsGather(c, issuer, subject);
    SameUpToOrder(fs);
  }

  lemma SameUpToOrder(fs: seq<seq<Element>>)
    requires |fs| == 11 && AllFields(fs) && FromTlv(Stream(fs)).Ok?
    ensures FromTlv(Stream(Exchanged(fs))) == FromTlv(Stream(fs))
  {
    assert multiset(fs) == multiset(Exchanged(fs));
    OrderDoesNotMatter(fs, Exchanged(fs), [], []);
    assert Stream(fs) + [] == Stream(fs) && Stream(Exchanged(fs)) + [] == Stream(Exchanged(fs));
  }

  /** Every certificate is also accepted with two fields exchanged, and then not written back. */
  lemma ReorderedIsNotWrittenBack(c: Certificate)
    requires WellFormed(c)
    ensures WriteAttributes(c.issuer).Ok? && WriteAttributes(c.subject).Ok?
    ensures var fs := WriteFields(c, WriteAttributes(c.issuer).value, WriteAttributes(c.subject).value);
            var es := Stream(Exchanged(fs));
            FromTlv(es) == Ok(c) && !InWrittenForm(es) && ToTlv(c) != Ok(es)
  {
    NameRoundTrip(c.issuer, []);
    NameRoundTrip(c.subject, []);
    var issuer, subject := WriteAttributes(c.issuer).value, WriteAttributes(c.subject).value;
    ExchangedIsAccepted(c, issuer, subject);
    OutOfOrder(c, issuer, subject, Exchanged(WriteFields(c, issuer, subject)));
    IdentityIff(Stream(Exchanged(WriteFields(c, issuer, subject))));
  }

  /** Undefined key-usage bits are accepted, dropped, and so not written back, with nothing
      out of order and nothing trailing. */
  lemma UndefinedBitsAreNotWrittenBack(c: Certificate)
    requires Encodable(c) && !KnownUsage(c.extensions)
    ensures ToTlv(c).Ok?
    ensures var es := ToTlv(c).value;
            && FromTlv(es) == Ok(c.(extensions := c.extensions.(keyUsage := Some(c.extensions.keyUsage.value % 0x200))))
            && !InWrittenForm(es) && ToTlv(FromTlv(es).value) != Ok(es)
  {
    ReadsBackStored(c);
    WrittenIsInForm(c);
    IdentityIff(ToTlv(c).value);
  }

  /** Anything after the structure is accepted and not written back. */
  lemma TrailingIsNotWrittenBack(c: Certificate, x: seq<Element>)
    requires WellFormed(c) && x != []
    ensures ToTlv(c).Ok? && FromTlv(ToTlv(c).value + x) == Ok(c) && !InWrittenForm(ToTlv(c).value + x)
  {
    WellFormedRoundTrip(c);
    TrailingIsIgnored(ToTlv(c).value, x);
    IdentityIff(ToTlv(c).value + x);
  }

  /** A concrete certificate with the given key usage. */
  function Sample(bits: u16): (c: Certificate)
  {
    Certificate([1], [RcacId(1)], 0, 0, [RcacId(1)], [0x04] + seq(64, _ => 0),
                Extensions(None, Some(bits), None, None, None), seq(64, _ => 0))
  }

  /** Key usage 0x260, for instance, comes back as 0x60. */
  lemma SampleIsNotWrittenBack(bits: u16)
    requires bits >= 0x200
    ensures var r := ToTlv(Sample(bits));
            r.Ok? && FromTlv(r.value) == Ok(Sample(bits % 0x200)) && ToTlv(Sample(bits % 0x200)) != r
  {
    var c := Sample(bits);
    assert Encodable(c);
    UndefinedBitsAreNotWrittenBack(c);
    assert c.(extensions := c.extensions.(keyUsage := Some(bits % 0x200))) == Sample(bits % 0x200);
  }
}
