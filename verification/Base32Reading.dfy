/** What base32 text means, told without the bit strings: digits of one number, in a fixed alphabet. */
module Base32Reading {
  import opened Common
  import opened Bytes
  import opened Base32

  // ----- digits -----

  /** The number whose digits in base `2^width` these are, the first being the most significant. */
  function Value(digits: seq<nat>, width: nat): nat {
    if digits == [] then 0 else Value(digits[..|digits| - 1], width) * Pow2(width) + digits[|digits| - 1]
  }

  lemma {:induction false} Pow2Sum(a: nat, b: nat)
    ensures Pow2(a + b) == Pow2(a) * Pow2(b)
  {
    if b > 0 {
      Pow2Sum(a, b - 1);
      Reassociate(Pow2(a), Pow2(b - 1));
    }
  }

  lemma Reassociate(a: nat, b: nat)
    ensures 2 * (a * b) == a * (2 * b)
  {
  }

  lemma {:induction false} NumberOfBoth(a: Bits, b: Bits)
    ensures NumberOf(a + b) == NumberOf(a) * Pow2(|b|) + NumberOf(b)
  {
    if b == [] {
      assert a + b == a;
    } else {
      var most, last := b[..|b| - 1], b[|b| - 1];
      assert (a + b)[..|a + b| - 1] == a + most && (a + b)[|a + b| - 1] == last;
      NumberOfBoth(a, most);
      Doubled(NumberOf(a), Pow2(|b| - 1), NumberOf(most));
    }
  }

  lemma Doubled(x: nat, p: nat, y: nat)
    ensures (x * p + y) * 2 == x * (2 * p) + y * 2
  {
  }

  lemma {:induction false} SpreadBoth(a: seq<nat>, b: seq<nat>, width: nat)
    ensures Spread(a + b, width) == Spread(a, width) + Spread(b, width)
  {
    if a == [] {
      assert a + b == b;
    } else {
      assert (a + b)[1..] == a[1..] + b;
      SpreadBoth(a[1..], b, width);
      Regroup(BitsOf(a[0], width), Spread(a[1..], width), Spread(b, width));
    }
  }

  lemma Regroup(a: Bits, b: Bits, c: Bits)
    ensures a + (b + c) == (a + b) + c
  {
  }

  lemma SpreadOne(n: nat, width: nat)
    ensures Spread([n], width) == BitsOf(n, width)
  {
    SpreadStep(n, [], width);
    assert [n] + [] == [n] && BitsOf(n, width) + [] == BitsOf(n, width);
  }

  lemma {:induction false} SpreadSpellsValue(digits: seq<nat>, width: nat)
    requires forall i :: 0 <= i < |digits| ==> digits[i] < Pow2(width)
    ensures NumberOf(Spread(digits, width)) == Value(digits, width)
  {
    if digits != [] {
      var most, last := digits[..|digits| - 1], digits[|digits| - 1];
      assert digits == most + [last];
      SpreadSpellsValue(most, width);
      SpreadBoth(most, [last], width);
      SpreadOne(last, width);
      NumberOfBoth(Spread(most, width), BitsOf(last, width));
      NumberRoundTrip(last, width);
    }
  }

  lemma {:induction false} ZerosAreZero(n: nat)
    ensures NumberOf(Zeros(n)) == 0
  {
    if n > 0 {
      ZerosAreZero(n - 1);
      assert Zeros(n)[..n - 1] == Zeros(n - 1);
    }
  }

  lemma {:induction false} BytesSpellValue(data: Data)
    ensures Value(Numbers(data), 8) == FromBigEndian(data)
  {
    assert Pow2(8) == 256 by { assert Pow2(4) == 16; }
    if data != [] {
      BytesSpellValue(data[..|data| - 1]);
      assert Numbers(data)[..|data| - 1] == Numbers(data[..|data| - 1]);
    }
  }

  /**
   * The symbols of some bytes are the base-32 digits of the number the bytes spell, most
   * significant first, with as many zero bits after it as complete the last digit.
   */
  lemma SymbolsSpellTheNumber(data: Data)
    ensures Value(Symbols(data), 5) == FromBigEndian(data) * Pow2(Spare(|data|))
    ensures |Symbols(data)| == (8 * |data| + 4) / 5
  {
    SymbolBits(data);
    BytesAreSmall(data);
    assert Pow2(5) == 32 by { assert Pow2(3) == 8; }
    SpreadSpellsValue(Symbols(data), 5);
    SpreadSpellsValue(Numbers(data), 8);
    NumberOfBoth(Spread(Numbers(data), 8), Zeros(Spare(|data|)));
    ZerosAreZero(Spare(|data|));
    BytesSpellValue(data);
    HowMany(|Symbols(data)|, |data|, Spare(|data|));
  }

  lemma HowMany(symbols: nat, bytes: nat, spare: nat)
    requires symbols * 5 == 8 * bytes + spare && spare < 5
    ensures symbols == (8 * bytes + 4) / 5
  {
  }

  // ----- the alphabet -----

  /** Digits, then capital letters without I, L, O and U. */
  const ALPHABET: string := "0123456789ABCDEFGHJKMNPQRSTVWXYZ"

  lemma AlphabetIsShown(v: nat)
    requires v < 32
    ensures SymbolChar(v) == ALPHABET[v]
  {
  }

  /** A character is read as the symbol it is, in either case, O as zero, and I and L as one. */
  lemma ReadExactly(c: char, v: nat)
    requires v < 32
    ensures var u := if 'a' <= c <= 'z' then c - 'a' + 'A' else c;
            CharValue(c) == Some(v) <==>
            u == ALPHABET[v] || (v == 0 && u == 'O') || (v == 1 && (u == 'I' || u == 'L'))
  {
    CaseDoesNotMatter(c);
    CapitalRead(Upper(c), v);
    AlphabetIsShown(v);
  }

  lemma CapitalRead(u: char, v: nat)
    requires v < 32 && Upper(u) == u
    ensures CharValue(u) == Some(v) <==>
            u == SymbolChar(v) || (v == 0 && u == 'O') || (v == 1 && (u == 'I' || u == 'L'))
  {
  }

  lemma {:induction false} SpellingIsInjective(a: seq<nat>, b: seq<nat>)
    requires (forall i :: 0 <= i < |a| ==> a[i] < 32) && forall i :: 0 <= i < |b| ==> b[i] < 32
    ensures Spell(a) == Spell(b) <==> a == b
  {
    SpellRoundTrip(a);
    SpellRoundTrip(b);
  }

  /** Text decodes to some bytes exactly when it is shown as the text those bytes encode to. */
  lemma DecodesExactly(text: string, data: Data)
    ensures Decode(text) == Some(data) <==> Shown(text) == Some(Encode(data))
  {
    SymbolBits(data);
    if ReadSymbols(text).Some? {
      var symbols := ReadSymbols(text).value;
      OnlyOneSpelling(symbols, data);
      SpellingIsInjective(symbols, Symbols(data));
    }
  }
}
