/** TLV as the events its reader hands out. */
module Tlv {
  import opened Wire
  import opened Certificate

  datatype Tag =
    | Anonymous
    | Context(number: byte)
    | CommonProfile(profileTag: u32)
    | ImplicitProfile(profileTag: u32)
    | FullyQualified(vendor: u16, profile: u16, profileTag: u32)

  /** A scalar; floating-point numbers by their bits. */
  datatype Value =
    | Bool(flag: bool)
    | Uint(number: u64)
    | Int(integer: int)
    | Float(bits: u32)
    | Double(wideBits: u64)
    | Utf8(text: bytes)
    | Bytes(raw: bytes)
    | Null

  datatype Kind = Structure | Array | List

  /** What one step of the reader gives; `Broken` stands for bytes it cannot decode. */
  datatype Element =
    | Scalar(tag: Tag, value: Value)
    | Start(tag: Tag, kind: Kind)
    | End
    | Broken(code: nat)

  class Reader {
    const events: seq<Element>
    var pos: nat

    ghost predicate Valid()
      reads this
    {
      pos <= |events|
    }

    /** The events not yet handed out. */
    ghost function Rest(): (r: seq<Element>)
      requires Valid()
      reads this
    {
      events[pos..]
    }

    constructor (events: seq<Element>)
      ensures Valid() && Rest() == events
    {
      this.events := events;
      pos := 0;
    }

    /** The next event, if there is one. */
    method Next() returns (e: Option<Element>)
      requires Valid()
      modifies this
      ensures Valid()
      ensures old(Rest()) == [] ==> e == None && Rest() == []
      ensures old(Rest()) != [] ==> e == Some(old(Rest())[0]) && Rest() == old(Rest())[1..]
    {
      if pos == |events| {
        return None;
      }
      e := Some(events[pos]);
      pos := pos + 1;
    }
  }

  class Writer {
    var events: seq<Element>

    constructor ()
      ensures events == []
    {
      events := [];
    }

    method Put(e: Element)
      modifies this
      ensures events == old(events) + [e]
    {
      events := events + [e];
    }
  }
}
