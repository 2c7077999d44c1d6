/** Octets and the fixed-width unsigned integers of the access layer, and the
    octet orders in which they travel. Section 3.1.1.1 of the Mesh Profile
    puts multi-octet fields of access messages least significant octet first;
    opcodes are kept most significant octet first inside a uint32. */
module Wire {

  type uint8 = x: int | 0 <= x < 0x100
  type uint16 = x: int | 0 <= x < 0x1_0000
  type uint32 = x: int | 0 <= x < 0x1_0000_0000

  /** The number of values that n octets can hold. */
  function Pow256(n: nat): (p: nat)
    ensures p >= 1
  {
    if n == 0 then 1 else 256 * Pow256(n - 1)
  }

  /** The value of octets stored least significant first. */
  function LittleEndian(s: seq<uint8>): (v: nat)
    ensures v < Pow256(|s|)
  {
    if s == [] then 0 else s[0] + 256 * LittleEndian(s[1..])
  }

  /** The value of octets stored most significant first. */
  function BigEndian(s: seq<uint8>): (v: nat)
    ensures v < Pow256(|s|)
  {
    if s == [] then 0 else BigEndian(s[..|s| - 1]) * 256 + s[|s| - 1]
  }

  /** The n low octets of v, least significant first; octets of v above the
      n-th are dropped, as a C store into n octets drops them. */
  function ToLittleEndian(v: nat, n: nat): (s: seq<uint8>)
    ensures |s| == n
  {
    if n == 0 then [] else [v % 256] + ToLittleEndian(v / 256, n - 1)
  }

  function Reversed(s: seq<uint8>): (r: seq<uint8>)
    ensures |r| == |s|
  {
    if s == [] then [] else Reversed(s[1..]) + [s[0]]
  }

  /** Octet k of a reversed sequence is octet k from the end of the original. */
  lemma {:induction false} ReversedAt(s: seq<uint8>, k: nat)
    requires k < |s|
    ensures Reversed(s)[k] == s[|s| - 1 - k]
  {
    if k < |s| - 1 {
      ReversedAt(s[1..], k);
    }
  }

  /** A positive multiple of d is at least d. */
  lemma {:induction false} MulAtLeast(d: int, k: int)
    requires d > 0 && k >= 1
    ensures d * k >= d
  {
    if k > 1 {
      MulAtLeast(d, k - 1);
      assert d * k == d * (k - 1) + d;
    }
  }

  /** Division by d has one quotient and one remainder. */
  lemma DivModUnique(v: int, d: int, q: int, r: int)
    requires d > 0 && v == d * q + r && 0 <= r < d
    ensures v / d == q && v % d == r
  {
    var q', r' := v / d, v % d;
    assert v == d * q' + r';
    assert d * (q - q') == r' - r;
    if q > q' {
      MulAtLeast(d, q - q');
    } else if q < q' {
      MulAtLeast(d, q' - q);
    }
  }

  /** Taking the low octet and then n more octets of the rest is taking n + 1
      octets. */
  lemma ModStep(v: nat, p: nat)
    requires p >= 1
    ensures v % (256 * p) == v % 256 + 256 * ((v / 256) % p)
  {
    var q, r := v / 256, v % 256;
    var a, b := q / p, q % p;
    assert q == p * a + b;
    calc {
      v;
      256 * q + r;
      256 * (p * a + b) + r;
      { assert 256 * (p * a) == (256 * p) * a; }
      (256 * p) * a + (256 * b + r);
    }
    DivModUnique(v, 256 * p, a, 256 * b + r);
  }

  /** Storing v into n octets and reading them back yields v modulo 256^n. */
  lemma {:induction false} LittleEndianOfStore(v: nat, n: nat)
    ensures LittleEndian(ToLittleEndian(v, n)) == v % Pow256(n)
  {
    if n > 0 {
      var s := ToLittleEndian(v, n);
      assert s[1..] == ToLittleEndian(v / 256, n - 1);
      LittleEndianOfStore(v / 256, n - 1);
      ModStep(v, Pow256(n - 1));
    }
  }

  /** A value that fits in n octets survives a store and a read. */
  lemma LittleEndianRoundTrip(v: nat, n: nat)
    requires v < Pow256(n)
    ensures LittleEndian(ToLittleEndian(v, n)) == v
  {
    LittleEndianOfStore(v, n);
  }

  /** Reading octets and storing the value back into as many octets gives the
      same octets. */
  lemma {:induction false} StoreOfLittleEndian(s: seq<uint8>)
    ensures ToLittleEndian(LittleEndian(s), |s|) == s
  {
    if s != [] {
      var v := LittleEndian(s);
      DivModUnique(v, 256, LittleEndian(s[1..]), s[0]);
      StoreOfLittleEndian(s[1..]);
    }
  }

  /** A little-endian integer and its octets reversed denote the same value
      read most significant first. */
  lemma {:induction false} BigEndianOfReversed(s: seq<uint8>)
    ensures BigEndian(Reversed(s)) == LittleEndian(s)
  {
    if s != [] {
      var r := Reversed(s);
      assert r[..|r| - 1] == Reversed(s[1..]);
      BigEndianOfReversed(s[1..]);
    }
  }

  /** The octets of a little-endian field, in the form the C extractors
      compute them. */
  lemma LittleEndian2(s: seq<uint8>)
    requires |s| == 2
    ensures LittleEndian(s) == s[0] as int + 0x100 * s[1] as int
  {
    assert s[1..][1..] == [];
  }

  lemma LittleEndian3(s: seq<uint8>)
    requires |s| == 3
    ensures LittleEndian(s) == s[0] as int + 0x100 * s[1] as int + 0x1_0000 * s[2] as int
  {
    LittleEndian2(s[1..]);
  }

  lemma LittleEndian4(s: seq<uint8>)
    requires |s| == 4
    ensures LittleEndian(s) == s[0] as int + 0x100 * s[1] as int + 0x1_0000 * s[2] as int + 0x100_0000 * s[3] as int
  {
    LittleEndian3(s[1..]);
  }

  /** The value of one to three octets read most significant first, as the
      opcode is packed into a uint32. */
  lemma BigEndian2(s: seq<uint8>)
    requires |s| == 2
    ensures BigEndian(s) == s[0] as int * 0x100 + s[1] as int
  {
    assert s[..1][..0] == [];
  }

  lemma BigEndian3(s: seq<uint8>)
    requires |s| == 3
    ensures BigEndian(s) == s[0] as int * 0x1_0000 + s[1] as int * 0x100 + s[2] as int
  {
    BigEndian2(s[..2]);
  }
}
