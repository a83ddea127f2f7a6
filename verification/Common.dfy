/** Values shared by every component: optional and failing results, bytes and
    the big-endian integers of the wire formats. */
module Common {

  datatype Option<+T> = None | Some(value: T)

  datatype Result<+T, +E> = Ok(value: T) | Err(error: E)

  newtype byte = b: int | 0 <= b < 256

  const U16 := 0x1_0000
  const U32 := 0x1_0000_0000

  /** `n as u16` written big-endian: the cast keeps the low 16 bits. */
  function Be16(n: nat): (bs: seq<byte>)
    ensures |bs| == 2
    ensures WordAt(bs, 0) == n % U16
  {
    var m := n % U16;
    [(m / 256) as byte, (m % 256) as byte]
  }

  /** The big-endian 16 bits at `at`. */
  function WordAt(bs: seq<byte>, at: nat): (n: nat)
    requires at + 2 <= |bs|
    ensures n < U16
  {
    (bs[at] as nat) * 256 + bs[at + 1] as nat
  }

  /** `n as u32` written big-endian. */
  function Be32(n: nat): (bs: seq<byte>)
    ensures |bs| == 4
    ensures FromBe32(bs) == n % U32
  {
    var m := n % U32;
    var bs: seq<byte> := [(m / 256 / 256 / 256) as byte, (m / 256 / 256 % 256) as byte, (m / 256 % 256) as byte, (m % 256) as byte];
    FourBytes(bs);
    bs
  }

  function FromBe32(bs: seq<byte>): (n: nat)
    requires |bs| == 4
    ensures n < U32
  {
    FourBytes(bs);
    BigEndian(bs)
  }

  function BigEndian(bs: seq<byte>): nat {
    if bs == [] then 0 else BigEndian(bs[..|bs| - 1]) * 256 + bs[|bs| - 1] as nat
  }

  lemma FourBytes(bs: seq<byte>)
    requires |bs| == 4
    ensures BigEndian(bs) == (bs[0] as nat) * 0x100_0000 + (bs[1] as nat) * 0x1_0000 + (bs[2] as nat) * 256 + bs[3] as nat
  {
    assert bs[..3][..2] == bs[..2] && bs[..2][..1] == bs[..1] && bs[..1][..0] == [];
    assert BigEndian(bs[..1]) == bs[0] as nat;
    assert BigEndian(bs[..2]) == BigEndian(bs[..1]) * 256 + bs[1] as nat;
    assert BigEndian(bs[..3]) == BigEndian(bs[..2]) * 256 + bs[2] as nat;
  }

  type i32 = i: int | -0x8000_0000 <= i < 0x8000_0000

  /** `u as i32`: the two's complement reading of 32 bits. */
  function ToI32(u: nat): (i: i32)
    requires u < U32
  {
    if u < 0x8000_0000 then u else u - U32
  }

  /** `i as u32`. */
  function ToU32(i: i32): (u: nat)
    ensures u < U32 && ToI32(u) == i
  {
    if i >= 0 then i else i + U32
  }

  /** The ASCII bytes of a string literal. */
  function Ascii(s: string): (bs: seq<byte>)
    ensures |bs| == |s|
  {
    seq(|s|, i requires 0 <= i < |s| => ((s[i] as int) % 128) as byte)
  }

  lemma Associative<T>(a: seq<T>, b: seq<T>, c: seq<T>)
    ensures (a + b) + c == a + (b + c)
  {
  }

  lemma Middle<T>(a: seq<T>, b: seq<T>, c: seq<T>)
    ensures (a + b + c)[|a|..|a| + |b|] == b
  {
  }

  lemma DropDrop<T>(s: seq<T>, i: nat, j: nat)
    requires i + j <= |s|
    ensures s[i..][j..] == s[i + j..]
  {
  }

  /** How many elements of `s` satisfy `p`. */
  function Count<T>(s: seq<T>, p: T -> bool): (n: nat)
    ensures n <= |s|
    ensures n == 0 <==> forall i :: 0 <= i < |s| ==> !p(s[i])
  {
    if s == [] then 0 else Count(s[..|s| - 1], p) + if p(s[|s| - 1]) then 1 else 0
  }

  lemma {:induction false} CountAppend<T>(a: seq<T>, b: seq<T>, p: T -> bool)
    ensures Count(a + b, p) == Count(a, p) + Count(b, p)
    decreases |b|
  {
    if b == [] {
      assert a + b == a;
    } else {
      var init := b[..|b| - 1];
      assert (a + b)[..|a + b| - 1] == a + init;
      CountAppend(a, init, p);
    }
  }
}
