/** Address prefixes, bit by bit. */
module Cidrs {

  type Bits = seq<bool>

  /** The lowest `width` bits of a number, highest first. */
  function BitsOf(value: nat, width: nat): (b: Bits)
    ensures |b| == width
  {
    if width == 0 then [] else BitsOf(value / 2, width - 1) + [value % 2 == 1]
  }

  function Zeros(width: nat): Bits {
    seq(width, i => false)
  }

  /** An address of 32 or 128 bits of which the leading `bits` matter. */
  datatype Prefix = Prefix(addr: Bits, bits: nat)

  predicate ValidPrefix(p: Prefix) {
    (|p.addr| == 32 || |p.addr| == 128) && p.bits <= |p.addr|
  }

  function Masked(p: Prefix): (m: Prefix)
    requires ValidPrefix(p)
    ensures ValidPrefix(m)
  {
    Prefix(p.addr[..p.bits] + Zeros(|p.addr| - p.bits), p.bits)
  }

  /** An address of ::ffff:0:0/96. */
  predicate Is4In6(p: Prefix) {
    |p.addr| == 128 && p.addr[..96] == BitsOf(0xFFFF, 96)
  }

  function V4(a: nat, b: nat, c: nat, d: nat, bits: nat): Prefix {
    Prefix(BitsOf(a, 8) + BitsOf(b, 8) + BitsOf(c, 8) + BitsOf(d, 8), bits)
  }

  function V6(first: nat, last: nat, bits: nat): Prefix {
    Prefix(BitsOf(first, 16) + Zeros(96) + BitsOf(last, 16), bits)
  }

  /** Unspecified, metadata, loopback, link-local and multicast ranges. */
  const FORBIDDEN: seq<Prefix> := [
    V4(0, 0, 0, 0, 32),
    V4(100, 100, 100, 200, 32),
    V4(127, 0, 0, 0, 8),
    V4(169, 254, 0, 0, 16),
    V4(192, 0, 0, 192, 32),
    V4(224, 0, 0, 0, 4),
    V6(0, 0, 128),
    V6(0, 1, 128),
    V6(0xFE80, 0, 10),
    V6(0xFF00, 0, 8)
  ]

  /** `p` lies inside `f`. */
  predicate Inside(p: Prefix, f: Prefix) {
    && |p.addr| == |f.addr| && p.bits >= f.bits && f.bits <= |f.addr|
    && p.addr[..f.bits] == f.addr[..f.bits]
  }

  predicate InsideSome(p: Prefix, ranges: seq<Prefix>) {
    exists f | f in ranges :: Inside(p, f)
  }

  predicate Forbidden(p: Prefix) {
    InsideSome(p, FORBIDDEN)
  }

  method FindInside(p: Prefix, ranges: seq<Prefix>) returns (found: bool)
    ensures found <==> InsideSome(p, ranges)
  {
    for i := 0 to |ranges|
      invariant forall f | f in ranges[..i] :: !Inside(p, f)
    {
      if Inside(p, ranges[i]) {
        return true;
      }
    }
    return false;
  }

  lemma MaskedIdempotent(p: Prefix)
    requires ValidPrefix(p)
    ensures Masked(Masked(p)) == Masked(p)
  {
    assert Masked(p).addr[..p.bits] == p.addr[..p.bits];
  }

  /** Masking makes no mapped address out of one that was not mapped. */
  lemma MaskedNotMapped(p: Prefix)
    requires ValidPrefix(p) && !Is4In6(p)
    ensures !Is4In6(Masked(p))
  {
    var m := Masked(p);
    if |p.addr| == 128 {
      if p.bits >= 96 {
        assert m.addr[..96] == p.addr[..96];
      } else {
        assert !m.addr[..96][95];
        assert BitsOf(0xFFFF, 96)[95];
      }
    }
  }
}
