/** The UTF-8 bytes of a text, section 3 of RFC 3629: what is hashed, and how strings are sorted. */
module Utf8 {
  import opened Text
  import opened Wrappers

  type Byte = n: nat | n < 0x100

  type Bytes = seq<Byte>

  function CharBytes(c: char): (b: Bytes)
    ensures 1 <= |b| <= 4
  {
    var n := c as int;
    if n < 0x80 then [n]
    else if n < 0x800 then [0xC0 + n / 0x40, 0x80 + n % 0x40]
    else if n < 0x1_0000 then [0xE0 + n / 0x1000, 0x80 + n / 0x40 % 0x40, 0x80 + n % 0x40]
    else [0xF0 + n / 0x4_0000, 0x80 + n / 0x1000 % 0x40, 0x80 + n / 0x40 % 0x40, 0x80 + n % 0x40]
  }

  /** `str::as_bytes`. */
  function Encode(s: string): Bytes {
    if s == [] then [] else CharBytes(s[0]) + Encode(s[1..])
  }

  lemma {:induction false} EncodeConcat(a: string, b: string)
    ensures Encode(a + b) == Encode(a) + Encode(b)
  {
    hide CharBytes;
    if a == [] {
      assert a + b == b;
    } else {
      assert (a + b)[1..] == a[1..] + b;
      EncodeConcat(a[1..], b);
    }
  }

  // --- decoding ----------------------------------------------------------------------------------------------------

  /** The six bits of a byte that continues a character. */
  function Continued(b: Byte): Option<nat> {
    if 0x80 <= b < 0xC0 then Some(b - 0x80) else None
  }

  /** The bits of the bytes that follow the first, behind those of the first. */
  function Gathered(bits: nat, rest: Bytes): Option<nat>
    decreases |rest|
  {
    if rest == [] then Some(bits)
    else
      match Continued(rest[0])
      case None => None
      case Some(six) => Gathered(bits * 0x40 + six, rest[1..])
  }

  /** How long the character is and which bits the first byte has of it. */
  function FirstByte(b: Byte): Option<(nat, nat)> {
    if b < 0x80 then Some((1, b))
    else if 0xC0 <= b < 0xE0 then Some((2, b - 0xC0))
    else if 0xE0 <= b < 0xF0 then Some((3, b - 0xE0))
    else if 0xF0 <= b < 0xF8 then Some((4, b - 0xF0))
    else None
  }

  /** The first character, and the bytes behind it. */
  function DecodeChar(b: Bytes): (r: Option<(char, Bytes)>)
    ensures r.Some? ==> |r.value.1| < |b|
  {
    if b == [] then None
    else
      match FirstByte(b[0])
      case None => None
      case Some((n, bits)) =>
        if |b| < n then None
        else
          match Gathered(bits, b[1..n])
          case None => None
          case Some(v) => if v < 0xD800 || 0xE000 <= v < 0x11_0000 then Some((v as char, b[n..])) else None
  }

  function Decode(b: Bytes): Option<string>
    decreases |b|
  {
    if b == [] then Some("")
    else
      match DecodeChar(b)
      case None => None
      case Some((c, rest)) =>
        match Decode(rest)
        case None => None
        case Some(s) => Some([c] + s)
  }

  lemma GatheredTwo(bits: nat, x: nat, y: nat)
    requires x < 0x40 && y < 0x40
    ensures Gathered(bits, [0x80 + x]) == Some(bits * 0x40 + x)
    ensures Gathered(bits, [0x80 + x, 0x80 + y]) == Some((bits * 0x40 + x) * 0x40 + y)
  {
    assert [0x80 + x][1..] == [] && [0x80 + x, 0x80 + y][1..] == [0x80 + y] && [0x80 + y][1..] == [];
    assert Gathered(bits * 0x40 + x, [0x80 + y]) == Some((bits * 0x40 + x) * 0x40 + y);
  }

  lemma GatheredThree(bits: nat, x: nat, y: nat, z: nat)
    requires x < 0x40 && y < 0x40 && z < 0x40
    ensures Gathered(bits, [0x80 + x, 0x80 + y, 0x80 + z]) == Some(((bits * 0x40 + x) * 0x40 + y) * 0x40 + z)
  {
    assert [0x80 + x, 0x80 + y, 0x80 + z][1..] == [0x80 + y, 0x80 + z];
    GatheredTwo(bits * 0x40 + x, y, z);
  }

  lemma CharBits(c: char)
    ensures var b := CharBytes(c);
            && FirstByte(b[0]).Some? && FirstByte(b[0]).value.0 == |b|
            && Gathered(FirstByte(b[0]).value.1, b[1..]) == Some(c as int)
  {
    var n := c as int;
    Six(n);
    Six(n / 0x40);
    Six(n / 0x1000);
    var x, y, z := n / 0x1000 % 0x40, n / 0x40 % 0x40, n % 0x40;
    var b := CharBytes(c);
    if n < 0x80 {
      assert b[1..] == [];
    } else if n < 0x800 {
      assert b[1..] == [0x80 + z];
      GatheredTwo(n / 0x40, z, z);
    } else if n < 0x1_0000 {
      assert b[1..] == [0x80 + y, 0x80 + z];
      GatheredTwo(n / 0x1000, y, z);
    } else {
      assert b[1..] == [0x80 + x, 0x80 + y, 0x80 + z];
      GatheredThree(n / 0x4_0000, x, y, z);
    }
  }

  lemma CharDecodes(c: char, x: Bytes)
    ensures DecodeChar(CharBytes(c) + x) == Some((c, x))
  {
    CharBits(c);
    hide CharBytes, FirstByte, Gathered;
    var b := CharBytes(c);
    assert (b + x)[0] == b[0] && (b + x)[1..|b|] == b[1..] && (b + x)[|b|..] == x;
  }

  /** The bytes of a text decode to the text. */
  lemma {:induction false} TextDecodes(s: string)
    ensures Decode(Encode(s)) == Some(s)
  {
    hide CharBytes, DecodeChar;
    if s != [] {
      TextDecodes(s[1..]);
      CharDecodes(s[0], Encode(s[1..]));
      assert s == [s[0]] + s[1..];
    }
  }

  // --- the order of bytes ------------------------------------------------------------------------------------------

  /** Byte strings in the order of their first different byte, a prefix first. */
  predicate BytesLe(a: Bytes, b: Bytes) {
    a == [] || (b != [] && (a[0] < b[0] || (a[0] == b[0] && BytesLe(a[1..], b[1..]))))
  }

  /** The place where the bytes of two characters part. */
  predicate PartsAt(p: Bytes, q: Bytes, k: nat) {
    k < |p| && k < |q| && p[..k] == q[..k] && p[k] < q[k]
  }

  /** How many bytes a character takes shows in the first. */
  lemma LeadByte(c: char)
    ensures var b := CharBytes(c);
            |b| == (if b[0] < 0x80 then 1 else if b[0] < 0xE0 then 2 else if b[0] < 0xF0 then 3 else 4)
  {
  }

  lemma Six(n: nat)
    ensures n == 0x40 * (n / 0x40) + n % 0x40 && n / 0x1000 == n / 0x40 / 0x40 && n / 0x4_0000 == n / 0x1000 / 0x40
  {
  }

  /** A smaller character of the same length has a smaller byte where the two first differ. */
  lemma CharsPart(c: char, d: char) returns (k: nat)
    requires c < d
    ensures PartsAt(CharBytes(c), CharBytes(d), k)
  {
    var m, n := c as int, d as int;
    var p, q := CharBytes(c), CharBytes(d);
    LeadByte(c);
    LeadByte(d);
    Digits(m, n);
    k := if p[0] != q[0] then 0 else if p[1] != q[1] then 1 else if p[2] != q[2] then 2 else 3;
  }

  /** Numbers compare as their base-64 digits do. */
  lemma Digits(m: nat, n: nat)
    requires m < n
    ensures m / 0x4_0000 <= n / 0x4_0000 && m / 0x1000 <= n / 0x1000 && m / 0x40 <= n / 0x40
    ensures m / 0x4_0000 == n / 0x4_0000 && m / 0x1000 % 0x40 == n / 0x1000 % 0x40 ==> m / 0x1000 == n / 0x1000
    ensures m / 0x4_0000 == n / 0x4_0000 ==> m / 0x1000 % 0x40 <= n / 0x1000 % 0x40
    ensures m / 0x1000 == n / 0x1000 ==> m / 0x40 % 0x40 <= n / 0x40 % 0x40
    ensures m / 0x1000 == n / 0x1000 && m / 0x40 % 0x40 == n / 0x40 % 0x40 ==> m / 0x40 == n / 0x40
    ensures m / 0x40 == n / 0x40 ==> m % 0x40 < n % 0x40
  {
    Six(m);
    Six(n);
    Six(m / 0x40);
    Six(n / 0x40);
    Six(m / 0x1000);
    Six(n / 0x1000);
  }

  lemma {:induction false} PartsDecides(p: Bytes, q: Bytes, k: nat, x: Bytes, y: Bytes)
    requires PartsAt(p, q, k)
    ensures BytesLe(p + x, q + y) && !BytesLe(q + y, p + x) && p + x != q + y
    decreases k
  {
    assert (p + x)[0] == p[0] && (q + y)[0] == q[0];
    if k > 0 {
      assert p[0] == p[..k][0] == q[..k][0] == q[0];
      assert (p + x)[1..] == p[1..] + x && (q + y)[1..] == q[1..] + y;
      assert p[1..][..k - 1] == p[..k][1..] == q[..k][1..] == q[1..][..k - 1];
      PartsDecides(p[1..], q[1..], k - 1, x, y);
    }
  }

  lemma SameHead(p: Bytes, x: Bytes, y: Bytes)
    ensures BytesLe(p + x, p + y) <==> BytesLe(x, y)
    ensures p + x == p + y <==> x == y
  {
    if p == [] {
      assert p + x == x && p + y == y;
    } else {
      assert (p + x)[1..] == p[1..] + x && (p + y)[1..] == p[1..] + y;
      SameHead(p[1..], x, y);
      if p + x == p + y {
        assert (p + x)[|p|..] == x && (p + y)[|p|..] == y;
      }
    }
  }

  /** Sorting strings by code point is sorting them by their bytes, and different strings have different bytes. */
  lemma {:induction false} BytesOrderStrings(a: string, b: string)
    ensures LexLe(a, b) <==> BytesLe(Encode(a), Encode(b))
    ensures Encode(a) == Encode(b) <==> a == b
  {
    hide CharBytes;
    if a != [] && b != [] {
      var x, y := Encode(a[1..]), Encode(b[1..]);
      if a[0] == b[0] {
        BytesOrderStrings(a[1..], b[1..]);
        SameHead(CharBytes(a[0]), x, y);
        assert a == [a[0]] + a[1..] && b == [b[0]] + b[1..];
      } else if a[0] < b[0] {
        var k := CharsPart(a[0], b[0]);
        PartsDecides(CharBytes(a[0]), CharBytes(b[0]), k, x, y);
      } else {
        var k := CharsPart(b[0], a[0]);
        PartsDecides(CharBytes(b[0]), CharBytes(a[0]), k, y, x);
      }
    }
  }
}
