/** Byte strings: fixed-width big-endian numbers, bytewise order, and a growable buffer. */
module Bytes {
  import opened Common

  type Data = seq<Byte>

  function Pow256(width: nat): (r: nat)
    ensures r > 0
  {
    if width == 0 then 1 else 256 * Pow256(width - 1)
  }

  /** The low `width` bytes of `n`, most significant first. */
  function BigEndian(n: nat, width: nat): (r: Data)
    ensures |r| == width
  {
    if width == 0 then [] else BigEndian(n / 256, width - 1) + [n % 256]
  }

  function FromBigEndian(b: Data): (r: nat)
    ensures r < Pow256(|b|)
  {
    if b == [] then 0 else FromBigEndian(b[..|b| - 1]) * 256 + b[|b| - 1]
  }

  lemma {:induction false} BigEndianRoundTrip(n: nat, width: nat)
    requires n < Pow256(width)
    ensures FromBigEndian(BigEndian(n, width)) == n
  {
    if width > 0 {
      BigEndianRoundTrip(n / 256, width - 1);
      assert BigEndian(n, width)[..width - 1] == BigEndian(n / 256, width - 1);
    }
  }

  lemma {:induction false} FromBigEndianRoundTrip(b: Data)
    ensures BigEndian(FromBigEndian(b), |b|) == b
  {
    if b != [] {
      FromBigEndianRoundTrip(b[..|b| - 1]);
      BigEndianMore(FromBigEndian(b[..|b| - 1]), |b| - 1, b[|b| - 1]);
    }
  }

  lemma BigEndianMore(high: nat, width: nat, low: Byte)
    ensures BigEndian(high * 256 + low, width + 1) == BigEndian(high, width) + [low]
  {
  }

  /** The widths the formats use. */
  lemma Widths()
    ensures Pow256(1) == 0x100 && Pow256(2) == 0x1_0000 && Pow256(4) == 0x1_0000_0000
    ensures Pow256(8) == 0x1_0000_0000_0000_0000
  {
    assert Pow256(3) == 0x100_0000;
    assert Pow256(6) == 256 * 256 * Pow256(4);
  }

  // ----- bytewise order -----

  /** Strict lexicographic order on bytes; a proper prefix comes first. */
  predicate Below(a: Data, b: Data) {
    if b == [] then false
    else if a == [] then true
    else a[0] < b[0] || (a[0] == b[0] && Below(a[1..], b[1..]))
  }

  lemma {:induction false} BelowTotal(a: Data, b: Data)
    ensures Below(a, b) || a == b || Below(b, a)
    ensures !(Below(a, b) && Below(b, a)) && !Below(a, a)
  {
    if a != [] && b != [] {
      BelowTotal(a[1..], b[1..]);
      BelowTotal(a[1..], a[1..]);
      assert a == [a[0]] + a[1..] && b == [b[0]] + b[1..];
    } else if a != [] {
      BelowTotal(a[1..], a[1..]);
    }
  }

  lemma {:induction false} BelowTransitive(a: Data, b: Data, c: Data)
    requires Below(a, b) && Below(b, c)
    ensures Below(a, c)
  {
    if a != [] && a[0] == b[0] && b[0] == c[0] {
      BelowTransitive(a[1..], b[1..], c[1..]);
    }
  }

  lemma {:induction false} BelowSharedPrefix(p: Data, a: Data, b: Data)
    ensures Below(p + a, p + b) <==> Below(a, b)
  {
    if p == [] {
      assert p + a == a && p + b == b;
    } else {
      assert (p + a)[1..] == p[1..] + a && (p + b)[1..] == p[1..] + b;
      BelowSharedPrefix(p[1..], a, b);
    }
  }

  /** Between strings of one length, what follows them does not matter unless they are equal. */
  lemma {:induction false} BelowDecidedEarly(a: Data, b: Data, x: Data, y: Data)
    requires |a| == |b| && a != b
    ensures Below(a + x, b + y) <==> Below(a, b)
  {
    assert (a + x)[1..] == a[1..] + x && (b + y)[1..] == b[1..] + y;
    if a[0] == b[0] {
      assert a == [a[0]] + a[1..] && b == [b[0]] + b[1..];
      BelowDecidedEarly(a[1..], b[1..], x, y);
    }
  }

  /** Fixed-width big-endian numbers sort as bytes the way they sort as numbers. */
  lemma {:induction false} BigEndianOrder(m: nat, n: nat, width: nat)
    requires m < n < Pow256(width)
    ensures Below(BigEndian(m, width), BigEndian(n, width))
  {
    var a, b := BigEndian(m / 256, width - 1), BigEndian(n / 256, width - 1);
    if m / 256 == n / 256 {
      BelowSharedPrefix(a, [m % 256], [n % 256]);
    } else {
      BigEndianOrder(m / 256, n / 256, width - 1);
      BelowTotal(a, a);
      BelowDecidedEarly(a, b, [m % 256], [n % 256]);
    }
  }

  // ----- a growable buffer -----

  class Buffer {
    var bytes: Data

    constructor ()
      ensures bytes == []
    {
      bytes := [];
    }

    method Push(b: Byte)
      modifies this
      ensures bytes == old(bytes) + [b]
    {
      bytes := bytes + [b];
    }

    method Extend(more: Data)
      modifies this
      ensures bytes == old(bytes) + more
    {
      bytes := bytes + more;
    }
  }
}
