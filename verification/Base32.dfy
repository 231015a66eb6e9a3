/**
 * Crockford base32 as the ticket uses it: most significant bit first, no padding, readers
 * tolerate case and the confusable letters, and spare bits must be zero.
 */
module Base32 {
  import opened Common
  import opened Bytes

  type Bits = seq<bool>

  // ----- numbers as bits -----

  function BitsOf(n: nat, width: nat): (r: Bits)
    ensures |r| == width
  {
    if width == 0 then [] else BitsOf(n / 2, width - 1) + [n % 2 == 1]
  }

  function Pow2(width: nat): nat {
    if width == 0 then 1 else 2 * Pow2(width - 1)
  }

  function NumberOf(bits: Bits): (r: nat)
    ensures r < Pow2(|bits|)
  {
    if bits == [] then 0
    else NumberOf(bits[..|bits| - 1]) * 2 + (if bits[|bits| - 1] then 1 else 0)
  }

  lemma {:induction false} NumberRoundTrip(n: nat, width: nat)
    requires n < Pow2(width)
    ensures NumberOf(BitsOf(n, width)) == n
  {
    if width > 0 {
      NumberRoundTrip(n / 2, width - 1);
      assert BitsOf(n, width)[..width - 1] == BitsOf(n / 2, width - 1);
    }
  }

  lemma {:induction false} BitsRoundTrip(bits: Bits)
    ensures BitsOf(NumberOf(bits), |bits|) == bits
  {
    if bits != [] {
      BitsRoundTrip(bits[..|bits| - 1]);
      assert bits == bits[..|bits| - 1] + [bits[|bits| - 1]];
    }
  }

  // ----- strings of fixed-width numbers -----

  /** The bits of every number in turn. */
  function Spread(numbers: seq<nat>, width: nat): (r: Bits)
    ensures |r| == |numbers| * width
  {
    if numbers == [] then [] else BitsOf(numbers[0], width) + Spread(numbers[1..], width)
  }

  /** The numbers spelled by consecutive groups of bits; a short last group is left off. */
  function Gather(bits: Bits, width: nat): (r: seq<nat>)
    requires width > 0
    ensures forall i :: 0 <= i < |r| ==> r[i] < Pow2(width)
    decreases |bits|
  {
    if |bits| < width then [] else [NumberOf(bits[..width])] + Gather(bits[width..], width)
  }

  lemma GatherStep(group: Bits, rest: Bits, width: nat)
    requires |group| == width > 0
    ensures Gather(group + rest, width) == [NumberOf(group)] + Gather(rest, width)
  {
    assert (group + rest)[..width] == group && (group + rest)[width..] == rest;
  }

  lemma {:induction false} GatherOfSpread(numbers: seq<nat>, width: nat, spare: Bits)
    requires width > 0 && |spare| < width
    requires forall i :: 0 <= i < |numbers| ==> numbers[i] < Pow2(width)
    ensures Gather(Spread(numbers, width) + spare, width) == numbers
  {
    if numbers == [] {
      assert Spread(numbers, width) + spare == spare;
    } else {
      var first, rest := BitsOf(numbers[0], width), Spread(numbers[1..], width);
      assert Spread(numbers, width) + spare == first + (rest + spare);
      NumberRoundTrip(numbers[0], width);
      GatherStep(first, rest + spare, width);
      GatherOfSpread(numbers[1..], width, spare);
    }
  }

  lemma {:induction false} SpreadOfGather(bits: Bits, width: nat, groups: nat)
    requires width > 0 && |bits| == groups * width
    ensures |Gather(bits, width)| == groups
    ensures Spread(Gather(bits, width), width) == bits
    decreases groups
  {
    if groups > 0 {
      assert groups * width == width + (groups - 1) * width;
      SpreadOfGather(bits[width..], width, groups - 1);
      BitsRoundTrip(bits[..width]);
      SpreadStep(NumberOf(bits[..width]), Gather(bits[width..], width), width);
      Rejoined(bits, width);
    }
  }

  lemma SpreadStep(number: nat, rest: seq<nat>, width: nat)
    ensures Spread([number] + rest, width) == BitsOf(number, width) + Spread(rest, width)
  {
    assert ([number] + rest)[1..] == rest;
  }

  lemma Rejoined(bits: Bits, n: nat)
    requires n <= |bits|
    ensures bits[..n] + bits[n..] == bits
  {
  }

  lemma {:induction false} SpreadPrefix(numbers: seq<nat>, width: nat, k: nat)
    requires k <= |numbers|
    ensures k * width <= |numbers| * width
    ensures Spread(numbers[..k], width) == Spread(numbers, width)[..k * width]
  {
    if k > 0 {
      SpreadPrefix(numbers[1..], width, k - 1);
      SpreadStep(numbers[0], numbers[1..][..k - 1], width);
      assert numbers[..k] == [numbers[0]] + numbers[1..][..k - 1];
      assert k * width == width + (k - 1) * width;
      PrefixPast(BitsOf(numbers[0], width), Spread(numbers[1..], width), (k - 1) * width);
    }
  }

  lemma PrefixPast(a: Bits, b: Bits, n: nat)
    requires n <= |b|
    ensures (a + b)[..|a| + n] == a + b[..n]
  {
  }

  lemma {:induction false} GatherPrefix(bits: Bits, width: nat, k: nat)
    requires width > 0 && k * width <= |bits|
    ensures k <= |Gather(bits, width)| && Gather(bits[..k * width], width) == Gather(bits, width)[..k]
    decreases k
  {
    if k > 0 {
      assert k * width == width + (k - 1) * width;
      GatherPrefix(bits[width..], width, k - 1);
      PrefixApart(bits, width, k * width);
    }
  }

  lemma PrefixApart(bits: Bits, n: nat, m: nat)
    requires n <= m <= |bits|
    ensures bits[..m][..n] == bits[..n] && bits[..m][n..] == bits[n..][..m - n]
  {
  }

  // ----- bytes to symbols and back -----

  function Numbers(data: Data): (r: seq<nat>)
    ensures |r| == |data| && forall i :: 0 <= i < |r| ==> r[i] == data[i]
  {
    if data == [] then [] else [data[0]] + Numbers(data[1..])
  }

  function ToBytes(numbers: seq<nat>): (r: Data)
    requires forall i :: 0 <= i < |numbers| ==> numbers[i] < 256
    ensures |r| == |numbers| && forall i :: 0 <= i < |r| ==> r[i] == numbers[i]
  {
    if numbers == [] then [] else [numbers[0]] + ToBytes(numbers[1..])
  }

  function Zeros(n: nat): (r: Bits)
    ensures |r| == n && forall i :: 0 <= i < n ==> !r[i]
  {
    if n == 0 then [] else [false] + Zeros(n - 1)
  }

  /** How many zero bits complete the last symbol. */
  function Spare(n: nat): nat {
    (5 - 8 * n % 5) % 5
  }

  /** Five bits a symbol, the last one completed with zeros. */
  function Symbols(data: Data): seq<nat> {
    Gather(Spread(Numbers(data), 8) + Zeros(Spare(|data|)), 5)
  }

  /** Whole bytes back; an impossible number of symbols or a spare bit set is refused. */
  function FromSymbols(symbols: seq<nat>): Option<Data> {
    FromBits(Spread(symbols, 5))
  }

  function FromBits(bits: Bits): Option<Data> {
    WholeBytes(bits, |bits| / 8)
  }

  function WholeBytes(bits: Bits, n: nat): Option<Data>
    requires n * 8 <= |bits|
  {
    if |bits| - n * 8 >= 5 || true in bits[n * 8..] then None
    else Some(AsBytes(Gather(bits[..n * 8], 8)))
  }

  function AsBytes(numbers: seq<nat>): Data
    requires forall i :: 0 <= i < |numbers| ==> numbers[i] < Pow2(8)
  {
    assert Pow2(8) == 256 by { assert Pow2(4) == 16; }
    ToBytes(numbers)
  }

  lemma SpareCompletes(n: nat)
    ensures Spare(n) < 5 && (8 * n + Spare(n)) / 5 * 5 == 8 * n + Spare(n)
  {
  }

  lemma SymbolBits(data: Data)
    ensures Spread(Symbols(data), 5) == Spread(Numbers(data), 8) + Zeros(Spare(|data|))
    ensures |Symbols(data)| * 5 == 8 * |data| + Spare(|data|) && Spare(|data|) < 5
    ensures forall i :: 0 <= i < |Symbols(data)| ==> Symbols(data)[i] < 32
  {
    SpareCompletes(|data|);
    var bits := Spread(Numbers(data), 8) + Zeros(Spare(|data|));
    SpreadOfGather(bits, 5, |bits| / 5);
    SymbolsAreSmall(bits);
  }

  lemma SymbolsAreSmall(bits: Bits)
    ensures forall i :: 0 <= i < |Gather(bits, 5)| ==> Gather(bits, 5)[i] < 32
  {
    assert Pow2(5) == 32 by { assert Pow2(3) == 8; }
  }

  lemma BytesAreSmall(data: Data)
    ensures forall i :: 0 <= i < |data| ==> Numbers(data)[i] < Pow2(8)
  {
    assert Pow2(8) == 256 by { assert Pow2(4) == 16; }
  }

  lemma FromBitsReadsWhole(bits: Bits, n: nat)
    requires n * 8 <= |bits| < n * 8 + 8
    ensures FromBits(bits) == WholeBytes(bits, n)
  {
  }

  lemma NumbersRoundTrip(data: Data)
    ensures forall i :: 0 <= i < |data| ==> Numbers(data)[i] < Pow2(8)
    ensures AsBytes(Numbers(data)) == data
  {
    BytesAreSmall(data);
  }

  lemma SpareIsIgnored(data: Data, spare: Bits)
    requires |spare| < 5 && true !in spare
    ensures WholeBytes(Spread(Numbers(data), 8) + spare, |data|) == Some(data)
  {
    var all := Spread(Numbers(data), 8);
    assert (all + spare)[..|data| * 8] == all && (all + spare)[|data| * 8..] == spare;
    NumbersRoundTrip(data);
    GatherOfSpread(Numbers(data), 8, []);
    assert all + [] == all;
  }

  lemma SymbolsRoundTrip(data: Data)
    ensures FromSymbols(Symbols(data)) == Some(data)
  {
    SymbolBits(data);
    var spare := Zeros(Spare(|data|));
    FromBitsReadsWhole(Spread(Numbers(data), 8) + spare, |data|);
    SpareIsIgnored(data, spare);
  }

  /** Since spare bits must be zero and lengths possible, bytes have only one spelling in symbols. */
  lemma OnlyOneSpelling(symbols: seq<nat>, data: Data)
    requires forall i :: 0 <= i < |symbols| ==> symbols[i] < 32
    ensures FromSymbols(symbols) == Some(data) <==> symbols == Symbols(data)
  {
    if FromSymbols(symbols) == Some(data) {
      var bits := Spread(symbols, 5);
      var n := |bits| / 8;
      SpellsBack(bits, n);
      SpareIsUnique(|symbols|, n, |bits| - n * 8);
      assert bits == bits[..n * 8] + bits[n * 8..];
      assert bits[n * 8..] == Zeros(Spare(n));
      assert Pow2(5) == 32 by { assert Pow2(3) == 8; }
      GatherOfSpread(symbols, 5, []);
      assert bits + [] == bits;
    } else {
      SymbolsRoundTrip(data);
    }
  }

  lemma SpareIsUnique(count: nat, n: nat, spare: nat)
    requires count * 5 == 8 * n + spare && spare < 5
    ensures spare == Spare(n)
  {
  }

  lemma SpellsBack(bits: Bits, n: nat)
    requires n * 8 <= |bits| && WholeBytes(bits, n).Some?
    ensures Spread(Numbers(WholeBytes(bits, n).value), 8) == bits[..n * 8]
    ensures |WholeBytes(bits, n).value| == n
    ensures |bits| - n * 8 < 5 && forall i :: n * 8 <= i < |bits| ==> !bits[i]
  {
    var gathered := Gather(bits[..n * 8], 8);
    SpreadOfGather(bits[..n * 8], 8, n);
    assert Numbers(AsBytes(gathered)) == gathered;
    forall i | n * 8 <= i < |bits|
      ensures !bits[i]
    {
      assert bits[i] == bits[n * 8..][i - n * 8];
    }
  }

  /** Cutting the symbols short never yields all the bytes, and yields some unless it is refused. */
  lemma TruncatedSymbols(data: Data, k: nat)
    requires 0 < k < |Symbols(data)|
    ensures match FromSymbols(Symbols(data)[..k])
            case None => true
            case Some(short) => 0 < |short| < |data| && short == data[..|short|]
  {
    SymbolBits(data);
    BytesAreSmall(data);
    SpreadPrefix(Symbols(data), 5, k);
    var all, bits := Spread(Numbers(data), 8), Spread(Symbols(data), 5)[..k * 5];
    var n := |bits| / 8;
    if WholeBytes(bits, n).Some? {
      assert n * 8 <= |all| && bits[..n * 8] == all[..n * 8];
      GatherPrefix(all, 8, n);
      GatherOfSpread(Numbers(data), 8, []);
      assert all + [] == all;
    }
  }

  // ----- characters -----

  /** `0`-`9`, then the letters without I, L, O and U. */
  function SymbolChar(v: nat): char
    requires v < 32
  {
    if v < 10 then '0' + v as char
    else if v < 18 then 'A' + (v - 10) as char
    else if v < 20 then 'J' + (v - 18) as char
    else if v < 22 then 'M' + (v - 20) as char
    else if v < 27 then 'P' + (v - 22) as char
    else 'V' + (v - 27) as char
  }

  function Upper(c: char): char {
    if 'a' <= c <= 'z' then c - 'a' + 'A' else c
  }

  /** The value of a character, reading O as zero and I and L as one, in either case. */
  function CharValue(c: char): (r: Option<nat>)
    ensures r.Some? ==> r.value < 32 && c < 128 as char
  {
    var u := Upper(c);
    if '0' <= u <= '9' then Some((u - '0') as nat)
    else if u == 'O' then Some(0)
    else if u == 'I' || u == 'L' then Some(1)
    else if 'A' <= u <= 'H' then Some((u - 'A') as nat + 10)
    else if 'J' <= u <= 'K' then Some((u - 'J') as nat + 18)
    else if 'M' <= u <= 'N' then Some((u - 'M') as nat + 20)
    else if 'P' <= u <= 'T' then Some((u - 'P') as nat + 22)
    else if 'V' <= u <= 'Z' then Some((u - 'V') as nat + 27)
    else None
  }

  lemma CharRoundTrip(v: nat)
    requires v < 32
    ensures CharValue(SymbolChar(v)) == Some(v)
  {
  }

  function Spell(symbols: seq<nat>): (r: string)
    requires forall i :: 0 <= i < |symbols| ==> symbols[i] < 32
    ensures |r| == |symbols| && forall i :: 0 <= i < |r| ==> r[i] == SymbolChar(symbols[i])
  {
    if symbols == [] then [] else [SymbolChar(symbols[0])] + Spell(symbols[1..])
  }

  /** The character a readable character is shown as. */
  function Canonical(c: char): char
    requires CharValue(c).Some?
  {
    SymbolChar(CharValue(c).value)
  }

  function ReadSymbols(text: string): (r: Option<seq<nat>>)
    ensures r.Some? ==> |r.value| == |text| && forall i :: 0 <= i < |text| ==> r.value[i] < 32
  {
    if text == [] then Some([])
    else
      match (CharValue(text[0]), ReadSymbols(text[1..]))
      case (Some(v), Some(rest)) => Some([v] + rest)
      case _ => None
  }

  /** The text as this alphabet shows it, when every character is readable. */
  function Shown(text: string): (r: Option<string>)
    ensures r.Some? ==> |r.value| == |text|
  {
    match ReadSymbols(text)
    case None => None
    case Some(symbols) => Some(Spell(symbols))
  }

  /** What is shown for a character followed by text that is shown as `rest`. */
  function Prepend(c: char, rest: Option<string>): Option<string> {
    if CharValue(c).Some? && rest.Some? then Some([Canonical(c)] + rest.value) else None
  }

  function Joined(a: Option<string>, b: Option<string>): Option<string> {
    if a.Some? && b.Some? then Some(a.value + b.value) else None
  }

  lemma ShownStep(c: char, rest: string)
    ensures Shown([c] + rest) == Prepend(c, Shown(rest))
  {
    assert ([c] + rest)[1..] == rest;
    if CharValue(c).Some? && ReadSymbols(rest).Some? {
      SpellStep(CharValue(c).value, ReadSymbols(rest).value);
    }
  }

  lemma PrependJoined(c: char, a: Option<string>, b: Option<string>)
    ensures Prepend(c, Joined(a, b)) == Joined(Prepend(c, a), b)
  {
    if CharValue(c).Some? && a.Some? && b.Some? {
      assert [Canonical(c)] + (a.value + b.value) == ([Canonical(c)] + a.value) + b.value;
    }
  }

  lemma ShownOfNothing(b: Option<string>)
    ensures Joined(Shown([]), b) == b
  {
    if b.Some? {
      assert [] + b.value == b.value;
    }
  }

  /** Text is shown character by character. */
  lemma {:induction false} ShownInParts(a: string, b: string)
    ensures Shown(a + b) == Joined(Shown(a), Shown(b))
  {
    if a == [] {
      assert a + b == b;
      ShownOfNothing(Shown(b));
    } else {
      var first, rest := a[0], a[1..];
      assert a == [first] + rest && a + b == [first] + (rest + b);
      calc {
        Shown(a + b);
        { ShownStep(first, rest + b); }
        Prepend(first, Shown(rest + b));
        { ShownInParts(rest, b); }
        Prepend(first, Joined(Shown(rest), Shown(b)));
        { PrependJoined(first, Shown(rest), Shown(b)); }
        Joined(Prepend(first, Shown(rest)), Shown(b));
        { ShownStep(first, rest); }
        Joined(Shown(a), Shown(b));
      }
    }
  }

  lemma SpellStep(v: nat, rest: seq<nat>)
    requires v < 32 && forall i :: 0 <= i < |rest| ==> rest[i] < 32
    ensures Spell([v] + rest) == [SymbolChar(v)] + Spell(rest)
  {
    assert ([v] + rest)[1..] == rest;
  }

  lemma CaseDoesNotMatter(c: char)
    ensures CharValue(Upper(c)) == CharValue(c)
  {
  }

  lemma {:induction false} SpellRoundTrip(symbols: seq<nat>)
    requires forall i :: 0 <= i < |symbols| ==> symbols[i] < 32
    ensures ReadSymbols(Spell(symbols)) == Some(symbols)
  {
    if symbols != [] {
      CharRoundTrip(symbols[0]);
      SpellRoundTrip(symbols[1..]);
      assert Spell(symbols)[1..] == Spell(symbols[1..]);
      assert [symbols[0]] + symbols[1..] == symbols;
    }
  }

  function Encode(data: Data): string {
    SymbolBits(data);
    Spell(Symbols(data))
  }

  function Decode(text: string): Option<Data> {
    match ReadSymbols(text)
    case None => None
    case Some(symbols) => FromSymbols(symbols)
  }

  /** Five whole bytes fill eight symbols, so decoding and encoding eight only normalises them. */
  lemma EightSymbols(text: string)
    requires |text| == 8 && ReadSymbols(text).Some?
    ensures Decode(text).Some? && Some(Encode(Decode(text).value)) == Shown(text)
  {
    var symbols := ReadSymbols(text).value;
    FiveBytes(symbols);
    OnlyOneSpelling(symbols, FromSymbols(symbols).value);
  }

  lemma FiveBytes(symbols: seq<nat>)
    requires |symbols| == 8
    ensures FromSymbols(symbols).Some?
  {
    assert |Spread(symbols, 5)| == 40;
  }

  lemma RoundTrip(data: Data)
    ensures Decode(Encode(data)) == Some(data)
  {
    SymbolBits(data);
    SpellRoundTrip(Symbols(data));
    SymbolsRoundTrip(data);
  }

  lemma NothingDecodesToNothing()
    ensures Decode("") == Some([])
  {
    SymbolsRoundTrip([]);
    assert Spread(Numbers([]), 8) + Zeros(Spare(0)) == [];
  }

  /** A text cut short decodes to a strictly shorter, nonempty beginning of the bytes, or not at all. */
  lemma Truncated(data: Data, k: nat)
    requires 0 < k < |Encode(data)|
    ensures match Decode(Encode(data)[..k])
            case None => true
            case Some(short) => 0 < |short| < |data| && short == data[..|short|]
  {
    SymbolBits(data);
    var symbols := Symbols(data);
    assert Encode(data)[..k] == Spell(symbols[..k]);
    SpellRoundTrip(symbols[..k]);
    TruncatedSymbols(data, k);
  }
}
