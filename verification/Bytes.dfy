/** Bytes, 64-bit limits and the option type every other module uses. */
module Bytes {
  type byte = b: int | 0 <= b < 256

  /** Largest value of a `std::uint64_t`, and of a `std::size_t` on the required 64-bit hosts. */
  const MAX_U64: nat := 0xFFFF_FFFF_FFFF_FFFF

  const LINE_FEED: byte := 0x0A

  datatype Option<+T> = None | Some(value: T)

  /** The number a byte string denotes in big-endian order. */
  function BigEndian(bytes: seq<byte>): (value: nat)
  {
    if bytes == [] then 0 else BigEndian(bytes[..|bytes| - 1]) * 256 + bytes[|bytes| - 1]
  }

  function Power256(n: nat): (p: nat)
    ensures p > 0
  {
    if n == 0 then 1 else 256 * Power256(n - 1)
  }

  lemma {:induction false} BigEndianBound(bytes: seq<byte>)
    ensures BigEndian(bytes) < Power256(|bytes|)
  {
    if bytes != [] {
      BigEndianBound(bytes[..|bytes| - 1]);
    }
  }

  /** Two byte strings of one length that denote the same number are the same bytes. */
  lemma {:induction false} BigEndianInjective(a: seq<byte>, b: seq<byte>)
    requires |a| == |b|
    ensures BigEndian(a) == BigEndian(b) <==> a == b
  {
    if a != [] && BigEndian(a) == BigEndian(b) {
      BigEndianInjective(a[..|a| - 1], b[..|b| - 1]);
      assert a == a[..|a| - 1] + [a[|a| - 1]];
      assert b == b[..|b| - 1] + [b[|b| - 1]];
    }
  }

  lemma Associative<T>(a: seq<T>, b: seq<T>, c: seq<T>)
    ensures (a + b) + c == a + (b + c)
  {
  }

  lemma Split<T>(s: seq<T>, k: nat)
    requires k <= |s|
    ensures s == s[..k] + s[k..]
  {
  }

  function Joined<T>(parts: seq<seq<T>>): seq<T>
  {
    if parts == [] then [] else parts[0] + Joined(parts[1..])
  }

  lemma {:induction false} JoinedAppend<T>(parts: seq<seq<T>>, last: seq<T>)
    ensures Joined(parts + [last]) == Joined(parts) + last
  {
    if parts == [] {
      assert [last][1..] == [];
    } else {
      assert (parts + [last])[1..] == parts[1..] + [last];
      JoinedAppend(parts[1..], last);
      Associative(parts[0], Joined(parts[1..]), last);
    }
  }

  // ---- Digits.

  predicate IsDigit(c: char) { '0' <= c <= '9' }

  function HexDigit(d: nat): (c: char)
    requires d < 16
    ensures '0' <= c <= '9' || 'a' <= c <= 'f'
  {
    if d < 10 then ('0' as int + d) as char else ('a' as int + d - 10) as char
  }

  lemma MultiplyMonotonic(d: nat, a: nat, b: nat)
    requires a <= b
    ensures d * a <= d * b
  {
  }

  lemma DivUnique(n: nat, d: nat, q: nat, r: nat)
    requires d > 0 && n == d * q + r && r < d
    ensures n / d == q && n % d == r
  {
    var q', r' := n / d, n % d;
    assert n == d * q' + r';
    if q' < q {
      MultiplyMonotonic(d, q' + 1, q);
    } else if q < q' {
      MultiplyMonotonic(d, q + 1, q');
    }
  }

  /** Dividing by 256 first, or last, or splitting off the low digit: one division with remainder. */
  lemma SplitDigit(n: nat, p: nat)
    requires p > 0
    ensures n % (256 * p) == (n / 256 % p) * 256 + n % 256
    ensures n / (256 * p) == n / 256 / p
  {
    var h, l := n / 256, n % 256;
    var a, b := h / p, h % p;
    assert h == p * a + b;
    assert n == (256 * p) * a + (b * 256 + l) by {
      assert 256 * (p * a) == (256 * p) * a;
    }
    MultiplyMonotonic(256, b + 1, p);
    DivUnique(n, 256 * p, a, b * 256 + l);
  }
}
