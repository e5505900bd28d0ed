/** Bytes, fixed-width little-endian integers and the two wrapper datatypes that
    every other module uses. */
module Wire {

  type byte = x: int | 0 <= x < 256

  type bytes = seq<byte>

  datatype Option<+T> = None | Some(value: T)

  datatype Result<+T, +E> = Ok(value: T) | Err(error: E)

  function Min(a: int, b: int): (r: int)
  {
    if a <= b then a else b
  }

  /** True when the bit of weight `bit` is set. */
  predicate HasFlag(flags: nat, bit: nat)
    requires bit > 0
  {
    (flags / bit) % 2 == 1
  }

  lemma Associate<T>(a: seq<T>, b: seq<T>, c: seq<T>)
    ensures (a + b) + c == a + (b + c)
  {
  }

  /** Items already done, in front of the outcome for the rest. */
  function Prefixed<T, E>(done: seq<T>, rest: Result<seq<T>, E>): (r: Result<seq<T>, E>)
  {
    match rest
    case Err(e) => Err(e)
    case Ok(more) => Ok(done + more)
  }

  lemma PrefixedEnds<T, E>(done: seq<T>, rest: Result<seq<T>, E>)
    ensures Prefixed([], rest) == rest
    ensures Prefixed<T, E>(done, Ok([])) == Ok(done)
  {
    assert rest.Ok? ==> [] + rest.value == rest.value;
    assert done + [] == done;
  }

  /** `n` as `width` little-endian bytes; bits above the width are dropped. */
  function ToLe(n: nat, width: nat): (r: bytes)
    ensures |r| == width
  {
    if width == 0 then [] else [n % 256] + ToLe(n / 256, width - 1)
  }

  function FromLe(b: bytes): (r: nat)
  {
    if b == [] then 0 else b[0] + 256 * FromLe(b[1..])
  }

  function Pow2(k: nat): (r: nat)
    ensures r >= 1
  {
    if k == 0 then 1 else 2 * Pow2(k - 1)
  }

  lemma FourDoublings(k: nat)
    ensures Pow2(k + 4) == 16 * Pow2(k)
  {
    assert Pow2(k + 4) == 2 * Pow2(k + 3);
    assert Pow2(k + 3) == 2 * Pow2(k + 2);
    assert Pow2(k + 2) == 2 * Pow2(k + 1);
  }

  lemma PowersOfTwo()
    ensures Pow2(8) == 256 && Pow2(16) == 0x1_0000
  {
    FourDoublings(0);
    FourDoublings(4);
    FourDoublings(8);
    FourDoublings(12);
  }

  function Pow256(k: nat): (r: nat)
    ensures r >= 1
  {
    if k == 0 then 1 else 256 * Pow256(k - 1)
  }

  /** Reading back `width` little-endian bytes gives the value reduced to that width. */
  lemma {:induction false} LeRoundTrip(n: nat, width: nat)
    requires n < Pow256(width)
    ensures FromLe(ToLe(n, width)) == n
  {
    if width > 0 {
      assert n / 256 < Pow256(width - 1);
      LeRoundTrip(n / 256, width - 1);
      assert ToLe(n, width)[1..] == ToLe(n / 256, width - 1);
    }
  }
}
