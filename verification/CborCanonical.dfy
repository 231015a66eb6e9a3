/** Why the audit hash means something: the encoding can be read back, and depends on nothing but the fields. */
module CborCanonical {
  import opened Common
  import opened Bytes
  import opened Cbor

  // ----- heads -----

  /** Reads any argument head of RFC 8949, shortest or not: major type, argument, what follows. */
  function ReadHead(b: Data): Option<(nat, nat, Data)> {
    if b == [] then None
    else
      var major, ai, rest := b[0] / 32, b[0] % 32, b[1..];
      if ai < 0x18 then Some((major, ai, rest))
      else if ai > 0x1b then None
      else ReadArgument(major, WidthOf(ai), rest)
  }

  function WidthOf(ai: nat): nat {
    if ai == 0x18 then 1 else if ai == 0x19 then 2 else if ai == 0x1a then 4 else 8
  }

  function ReadArgument(major: nat, width: nat, rest: Data): Option<(nat, nat, Data)> {
    if |rest| < width then None else Some((major, FromBigEndian(rest[..width]), rest[width..]))
  }

  function HeadWidth(arg: U64): nat {
    if arg < 0x18 then 0
    else if arg < 0x100 then 1
    else if arg < 0x1_0000 then 2
    else if arg < 0x1_0000_0000 then 4
    else 8
  }

  /** The low five bits that announce an argument of this many bytes. */
  function Announced(width: nat): nat {
    if width == 1 then 0x18 else if width == 2 then 0x19 else if width == 4 then 0x1a else 0x1b
  }

  function Lead(arg: U64): (r: nat)
    ensures r < 32
  {
    if arg < 0x18 then arg else Announced(HeadWidth(arg))
  }

  lemma HeadShape(major: nat, arg: U64)
    requires major < 8
    ensures Head(major, arg) == [major * 32 + Lead(arg)] + BigEndian(arg, HeadWidth(arg))
    ensures HeadWidth(arg) > 0 ==> arg < Pow256(HeadWidth(arg))
  {
    Widths();
    if HeadWidth(arg) == 1 {
      assert BigEndian(arg, 1) == BigEndian(arg / 256, 0) + [arg % 256] == [arg];
    }
  }

  lemma ReadWide(major: nat, arg: nat, width: nat, rest: Data)
    requires major < 8 && width in {1, 2, 4, 8} && arg < Pow256(width)
    ensures ReadHead([major * 32 + Announced(width)] + (BigEndian(arg, width) + rest)) == Some((major, arg, rest))
  {
    ReadAnnounced(major, Announced(width), BigEndian(arg, width) + rest);
    ArgumentRoundTrip(major, arg, width, rest);
  }

  lemma ReadAnnounced(major: nat, ai: nat, body: Data)
    requires major < 8 && 0x18 <= ai <= 0x1b
    ensures ReadHead([major * 32 + ai] + body) == ReadArgument(major, WidthOf(ai), body)
  {
    assert ([major * 32 + ai] + body)[1..] == body;
  }

  lemma ArgumentRoundTrip(major: nat, arg: nat, width: nat, rest: Data)
    requires arg < Pow256(width)
    ensures ReadArgument(major, width, BigEndian(arg, width) + rest) == Some((major, arg, rest))
  {
    var tail := BigEndian(arg, width) + rest;
    assert tail[..width] == BigEndian(arg, width) && tail[width..] == rest;
    BigEndianRoundTrip(arg, width);
  }

  lemma ReadNarrow(major: nat, arg: nat, rest: Data)
    requires major < 8 && arg < 0x18
    ensures ReadHead([major * 32 + arg] + rest) == Some((major, arg, rest))
  {
    assert ([major * 32 + arg] + rest)[1..] == rest;
  }

  lemma ReadHeadOfHead(major: nat, arg: U64, rest: Data)
    requires major < 8
    ensures ReadHead(Head(major, arg) + rest) == Some((major, arg, rest))
  {
    var first, tail := [major * 32 + Lead(arg)], BigEndian(arg, HeadWidth(arg));
    HeadShape(major, arg);
    assert first + tail + rest == first + (tail + rest);
    if HeadWidth(arg) > 0 {
      ReadWide(major, arg, HeadWidth(arg), rest);
    } else {
      assert tail + rest == rest;
      ReadNarrow(major, arg, rest);
    }
  }

  /** No other head, of any legal form, says the same thing in fewer bytes. */
  lemma HeadIsShortest(major: nat, arg: U64, other: Data)
    requires major < 8 && ReadHead(other) == Some((major, arg, []))
    ensures |Head(major, arg)| <= |other|
    ensures |Head(major, arg)| == |other| ==> Head(major, arg) == other
  {
    HeadShape(major, arg);
    LegalHeadShape(major, arg, other);
    assert other == [other[0]] + other[1..];
  }

  lemma ReadHeadCases(major: nat, arg: nat, other: Data)
    requires ReadHead(other) == Some((major, arg, []))
    ensures other != [] && other[0] == major * 32 + other[0] % 32
    ensures other[0] % 32 < 0x18 ==> other[1..] == [] && arg == other[0] % 32
    ensures other[0] % 32 >= 0x18 ==>
              && other[0] % 32 <= 0x1b && |other[1..]| == WidthOf(other[0] % 32)
              && arg == FromBigEndian(other[1..])
  {
    if other[0] % 32 >= 0x18 {
      WholeTail(other[1..], WidthOf(other[0] % 32));
    }
  }

  lemma LegalHeadShape(major: nat, arg: U64, other: Data)
    requires major < 8 && ReadHead(other) == Some((major, arg, []))
    ensures |other| >= 1 + HeadWidth(arg) && other[1..] == BigEndian(arg, |other| - 1)
    ensures other[0] == major * 32 + (if |other| == 1 then arg else Announced(|other| - 1))
  {
    ReadHeadCases(major, arg, other);
    if other[0] % 32 >= 0x18 {
      FromBigEndianRoundTrip(other[1..]);
      WidthSuffices(arg, |other[1..]|);
    }
  }

  lemma WholeTail(rest: Data, width: nat)
    requires |rest| >= width && rest[width..] == []
    ensures |rest| == width && rest[..width] == rest
  {
  }

  lemma WidthSuffices(arg: U64, width: nat)
    requires width in {1, 2, 4, 8} && arg < Pow256(width)
    ensures HeadWidth(arg) <= width
  {
    Widths();
  }

  lemma LeadsGrow(m: U64, n: U64)
    requires m < n
    ensures HeadWidth(m) <= HeadWidth(n)
    ensures Lead(m) < Lead(n) || (Lead(m) == Lead(n) && HeadWidth(m) == HeadWidth(n) > 0)
  {
  }

  lemma SameLead(first: Byte, m: nat, n: nat, width: nat, x: Data, y: Data)
    requires m < n < Pow256(width) && width > 0
    ensures Below([first] + BigEndian(m, width) + x, [first] + BigEndian(n, width) + y)
  {
    var a, b := BigEndian(m, width), BigEndian(n, width);
    BigEndianOrder(m, n, width);
    BelowTotal(a, a);
    BelowDecidedEarly(a, b, x, y);
    BelowSharedPrefix([first], a + x, b + y);
    assert [first] + a + x == [first] + (a + x) && [first] + b + y == [first] + (b + y);
  }

  /** Larger arguments have longer or bytewise larger heads. */
  lemma HeadsKeepOrder(major: nat, m: U64, n: U64, x: Data, y: Data)
    requires major < 8 && m < n
    ensures |Head(major, m)| <= |Head(major, n)|
    ensures Below(Head(major, m) + x, Head(major, n) + y)
  {
    HeadShape(major, m);
    HeadShape(major, n);
    LeadsGrow(m, n);
    if Lead(m) == Lead(n) {
      SameLead(major * 32 + Lead(m), m, n, HeadWidth(n), x, y);
    } else {
      assert (Head(major, m) + x)[0] < (Head(major, n) + y)[0];
    }
  }

  /** Bytewise order of encoded text keys is length first, then bytes. */
  lemma TextKeysSortByLengthThenBytes(s: Data, t: Data)
    requires |s| <= U64_MAX && |t| <= U64_MAX
    ensures Below(Encode(Text(s)), Encode(Text(t))) <==> |s| < |t| || (|s| == |t| && Below(s, t))
  {
    if |s| < |t| {
      HeadsKeepOrder(TEXT, |s|, |t|, s, t);
    } else if |t| < |s| {
      HeadsKeepOrder(TEXT, |t|, |s|, t, s);
      BelowTotal(Encode(Text(s)), Encode(Text(t)));
    } else {
      BelowSharedPrefix(Head(TEXT, |s|), s, t);
    }
  }

  // ----- items -----

  /** A string whose length a 64-bit machine can hold. */
  predicate Sized(item: Item) {
    match item
    case ByteString(b) => |b| <= U64_MAX
    case Text(t) => |t| <= U64_MAX
    case _ => true
  }

  /** Signed and unsigned non-negative integers are the same item on the wire. */
  function Canonical(item: Item): Item {
    if item.Int? && item.i >= 0 then Uint(item.i) else item
  }

  /** The item an argument head announces, taking a string's bytes from what follows. */
  function Interpret(major: nat, arg: nat, rest: Data): Option<(Item, Data)> {
    if major == 0 && arg <= U64_MAX then Some((Uint(arg), rest))
    else if major == 1 && arg < 0x8000_0000_0000_0000 then Some((Int(-1 - arg), rest))
    else if major == 2 && |rest| >= arg then Some((ByteString(rest[..arg]), rest[arg..]))
    else if major == 3 && |rest| >= arg then Some((Text(rest[..arg]), rest[arg..]))
    else None
  }

  function ReadItem(b: Data): Option<(Item, Data)> {
    if b != [] && b[0] == 0xf6 then Some((Null, b[1..]))
    else
      match ReadHead(b)
      case None => None
      case Some((major, arg, rest)) => Interpret(major, arg, rest)
  }

  lemma ReadItemOfHead(major: nat, arg: U64, rest: Data)
    requires major <= 3
    ensures ReadItem(Head(major, arg) + rest) == Interpret(major, arg, rest)
  {
    HeadShape(major, arg);
    ReadHeadOfHead(major, arg, rest);
  }

  /** Reading an encoded item gives the item back and leaves exactly what followed it. */
  lemma ItemRoundTrip(item: Item, rest: Data)
    requires Sized(item)
    ensures ReadItem(Encode(item) + rest) == Some((Canonical(item), rest))
  {
    match item
    case Uint(n) =>
      ReadItemOfHead(0, n, rest);
    case Int(i) =>
      if i < 0 {
        ReadItemOfHead(1, -(i + 1), rest);
      } else {
        ReadItemOfHead(0, i, rest);
      }
    case ByteString(b) =>
      StringRoundTrip(2, b, rest);
    case Text(t) =>
      StringRoundTrip(3, t, rest);
    case Null =>
  }

  lemma StringRoundTrip(major: nat, b: Data, rest: Data)
    requires |b| <= U64_MAX && major <= 3
    ensures ReadItem((Head(major, |b|) + b) + rest) == Interpret(major, |b|, b + rest)
    ensures (b + rest)[..|b|] == b && (b + rest)[|b|..] == rest
  {
    ReadItemOfHead(major, |b|, b + rest);
    assert (Head(major, |b|) + b) + rest == Head(major, |b|) + (b + rest);
  }

  lemma CanonicalEncodesAlike(item: Item)
    ensures Encode(Canonical(item)) == Encode(item)
  {
  }

  /** Two items are encoded alike exactly when they are the same item on the wire. */
  lemma EncodeIsInjective(x: Item, y: Item)
    requires Sized(x) && Sized(y)
    ensures Encode(x) == Encode(y) <==> Canonical(x) == Canonical(y)
  {
    CanonicalEncodesAlike(x);
    CanonicalEncodesAlike(y);
    if Encode(x) == Encode(y) {
      ItemRoundTrip(x, []);
      ItemRoundTrip(y, []);
    }
  }

  // ----- maps -----

  predicate SizedFields(fields: seq<Field>) {
    && |fields| <= U64_MAX
    && forall f :: f in fields ==> |f.key| <= U64_MAX && Sized(f.value)
  }

  predicate DistinctKeys(fields: seq<Field>) {
    forall i, j :: 0 <= i < j < |fields| ==> fields[i].key != fields[j].key
  }

  function CanonicalFields(fields: seq<Field>): seq<Field> {
    if fields == [] then []
    else [Field(fields[0].key, Canonical(fields[0].value))] + CanonicalFields(fields[1..])
  }

  predicate KeyBelow(f: Field, g: Field) {
    Below(Encode(Text(f.key)), Encode(Text(g.key)))
  }

  function InsertField(f: Field, sorted: seq<Field>): (r: seq<Field>)
    ensures |r| == |sorted| + 1
  {
    if sorted == [] || !KeyBelow(sorted[0], f) then [f] + sorted
    else [sorted[0]] + InsertField(f, sorted[1..])
  }

  function SortFields(fields: seq<Field>): (r: seq<Field>)
    ensures |r| == |fields|
  {
    if fields == [] then [] else InsertField(fields[0], SortFields(fields[1..]))
  }

  function ReadFields(n: nat, b: Data): Option<(seq<Field>, Data)> {
    if n == 0 then Some(([], b))
    else
      match ReadItem(b)
      case Some((Text(key), afterKey)) =>
        (match ReadItem(afterKey)
         case None => None
         case Some((value, afterValue)) =>
           match ReadFields(n - 1, afterValue)
           case None => None
           case Some((fields, rest)) => Some(([Field(key, value)] + fields, rest)))
      case _ => None
  }

  function ReadMap(b: Data): Option<(seq<Field>, Data)> {
    match ReadHead(b)
    case None => None
    case Some((major, n, rest)) => if major == 5 then ReadFields(n, rest) else None
  }

  lemma {:induction false} InsertMatches(f: Field, sorted: seq<Field>)
    ensures EncodeFields(InsertField(f, sorted)) == Insert(EncodeField(f), EncodeFields(sorted))
  {
    if sorted == [] || !KeyBelow(sorted[0], f) {
      assert ([f] + sorted)[1..] == sorted;
    } else {
      InsertMatches(f, sorted[1..]);
      assert EncodeFields(sorted)[1..] == EncodeFields(sorted[1..]);
      assert ([sorted[0]] + InsertField(f, sorted[1..]))[1..] == InsertField(f, sorted[1..]);
    }
  }

  /** Sorting what was encoded is encoding what was sorted. */
  lemma {:induction false} SortMatches(fields: seq<Field>)
    ensures EncodeFields(SortFields(fields)) == Sort(EncodeFields(fields))
  {
    if fields != [] {
      SortMatches(fields[1..]);
      InsertMatches(fields[0], SortFields(fields[1..]));
      assert EncodeFields(fields)[1..] == EncodeFields(fields[1..]);
    }
  }

  lemma InsertCases(f: Field, sorted: seq<Field>)
    ensures || InsertField(f, sorted) == [f] + sorted
            || (sorted != [] && InsertField(f, sorted) == [sorted[0]] + InsertField(f, sorted[1..]))
  {
  }

  lemma {:induction false} InsertPermutes(f: Field, sorted: seq<Field>)
    ensures multiset(InsertField(f, sorted)) == multiset{f} + multiset(sorted)
  {
    InsertCases(f, sorted);
    if InsertField(f, sorted) == [f] + sorted {
      CountCons(f, sorted);
    } else {
      var first, rest := sorted[0], sorted[1..];
      InsertPermutes(f, rest);
      CountCons(first, InsertField(f, rest));
      CountCons(first, rest);
      assert sorted == [first] + rest;
      Swapped(multiset{first}, multiset{f}, multiset(rest));
    }
  }

  lemma Swapped(a: multiset<Field>, b: multiset<Field>, c: multiset<Field>)
    ensures a + (b + c) == b + (a + c)
  {
  }

  lemma CountCons(f: Field, fields: seq<Field>)
    ensures multiset([f] + fields) == multiset{f} + multiset(fields)
  {
  }

  lemma {:induction false} SortPermutes(fields: seq<Field>)
    ensures multiset(SortFields(fields)) == multiset(fields)
  {
    if fields != [] {
      SortPermutes(fields[1..]);
      InsertPermutes(fields[0], SortFields(fields[1..]));
      CountCons(fields[0], fields[1..]);
      assert fields == [fields[0]] + fields[1..];
    }
  }

  lemma {:induction false} InsertCanonical(f: Field, sorted: seq<Field>)
    ensures CanonicalFields(InsertField(f, sorted)) ==
              InsertField(Field(f.key, Canonical(f.value)), CanonicalFields(sorted))
  {
    var f' := Field(f.key, Canonical(f.value));
    if sorted == [] || !KeyBelow(sorted[0], f) {
      assert ([f] + sorted)[1..] == sorted;
    } else {
      InsertCanonical(f, sorted[1..]);
      assert CanonicalFields(sorted)[1..] == CanonicalFields(sorted[1..]);
      assert ([sorted[0]] + InsertField(f, sorted[1..]))[1..] == InsertField(f, sorted[1..]);
    }
  }

  lemma {:induction false} SortCanonical(fields: seq<Field>)
    ensures CanonicalFields(SortFields(fields)) == SortFields(CanonicalFields(fields))
  {
    if fields != [] {
      SortCanonical(fields[1..]);
      InsertCanonical(fields[0], SortFields(fields[1..]));
      assert CanonicalFields(fields)[1..] == CanonicalFields(fields[1..]);
    }
  }

  lemma {:induction false} FieldsRoundTrip(fields: seq<Field>, rest: Data)
    requires forall f :: f in fields ==> |f.key| <= U64_MAX && Sized(f.value)
    ensures ReadFields(|fields|, Concat(EncodeFields(fields)) + rest) == Some((CanonicalFields(fields), rest))
  {
    if fields == [] {
      assert Concat(EncodeFields(fields)) + rest == rest;
    } else {
      FieldsRoundTrip(fields[1..], rest);
      FieldRoundTrip(fields[0], |fields|, Concat(EncodeFields(fields[1..])) + rest);
      FirstFieldApart(fields, rest);
    }
  }

  lemma FirstFieldApart(fields: seq<Field>, rest: Data)
    requires fields != []
    ensures Concat(EncodeFields(fields)) + rest ==
            Encode(Text(fields[0].key)) + (Encode(fields[0].value) + (Concat(EncodeFields(fields[1..])) + rest))
  {
    ConcatCons(EncodeField(fields[0]), EncodeFields(fields[1..]), rest);
  }

  lemma ConcatCons(e: Entry, entries: seq<Entry>, rest: Data)
    ensures Concat([e] + entries) + rest == e.key + (e.value + (Concat(entries) + rest))
  {
    assert ([e] + entries)[1..] == entries;
    AppendAssociates(e.key + e.value, Concat(entries), rest);
    AppendAssociates(e.key, e.value, Concat(entries) + rest);
  }

  lemma FieldRoundTrip(f: Field, n: nat, body: Data)
    requires |f.key| <= U64_MAX && Sized(f.value) && n > 0
    ensures ReadFields(n, Encode(Text(f.key)) + (Encode(f.value) + body))
         == match ReadFields(n - 1, body)
            case None => None
            case Some((fields, rest)) => Some(([Field(f.key, Canonical(f.value))] + fields, rest))
  {
    ItemRoundTrip(Text(f.key), Encode(f.value) + body);
    ItemRoundTrip(f.value, body);
  }

  lemma EncodedSorted(fields: seq<Field>, rest: Data)
    requires |fields| <= U64_MAX
    ensures EncodeMap(fields) + rest == Head(MAP, |fields|) + (Concat(EncodeFields(SortFields(fields))) + rest)
  {
    SortMatches(fields);
    AppendAssociates(Head(MAP, |fields|), Concat(EncodeFields(SortFields(fields))), rest);
  }

  lemma AppendAssociates(a: Data, b: Data, c: Data)
    ensures (a + b) + c == a + (b + c)
  {
  }

  lemma SortKeepsSized(fields: seq<Field>)
    requires SizedFields(fields)
    ensures SizedFields(SortFields(fields)) && |SortFields(fields)| == |fields|
  {
    SortPermutes(fields);
    forall f | f in SortFields(fields)
      ensures |f.key| <= U64_MAX && Sized(f.value)
    {
      assert f in multiset(SortFields(fields));
    }
  }

  /** A map can be read back, field by field, up to order and the sign of its integers' types. */
  lemma MapRoundTrip(fields: seq<Field>, rest: Data)
    requires SizedFields(fields)
    ensures ReadMap(EncodeMap(fields) + rest) == Some((SortFields(CanonicalFields(fields)), rest))
  {
    var sorted := SortFields(fields);
    EncodedSorted(fields, rest);
    ReadHeadOfHead(MAP, |fields|, Concat(EncodeFields(sorted)) + rest);
    SortKeepsSized(fields);
    FieldsRoundTrip(sorted, rest);
    SortCanonical(fields);
  }

  /** A map is written under major type 5 and the number of its fields; its fields follow, sorted. */
  lemma MapIsMajorFive(fields: seq<Field>, rest: Data)
    requires SizedFields(fields)
    ensures var head := ReadHead(EncodeMap(fields) + rest);
            && head.Some? && head.value.0 == 5 && head.value.1 == |fields|
            && ReadFields(|fields|, head.value.2) == Some((SortFields(CanonicalFields(fields)), rest))
    ensures EncodeMap(fields) != [] && EncodeMap(fields)[0] / 32 == 5
  {
    MapRoundTrip(fields, rest);
    MapHead(fields, rest);
    MapHead(fields, []);
    assert EncodeMap(fields) + [] == EncodeMap(fields);
    LeadNamesType(EncodeMap(fields));
  }

  lemma MapHead(fields: seq<Field>, rest: Data)
    requires SizedFields(fields)
    ensures var head := ReadHead(EncodeMap(fields) + rest);
            head.Some? && head.value.0 == 5 && head.value.1 == |fields|
  {
    EncodedSorted(fields, rest);
    ReadHeadOfHead(5, |fields|, Concat(EncodeFields(SortFields(fields))) + rest);
  }

  lemma LeadNamesType(b: Data)
    requires ReadHead(b).Some?
    ensures b != [] && b[0] / 32 == ReadHead(b).value.0
  {
  }

  /** The map of no fields, as section 3 of RFC 8949 has it. */
  lemma EmptyMap()
    ensures EncodeMap([]) == [0xa0]
  {
    assert EncodeFields([]) == [] && Sort([]) == [] && Concat([]) == [];
  }

  /** Equal encodings hold the same fields, duplicates and all. */
  lemma MapIsInjective(f: seq<Field>, g: seq<Field>)
    requires SizedFields(f) && SizedFields(g) && EncodeMap(f) == EncodeMap(g)
    ensures multiset(CanonicalFields(f)) == multiset(CanonicalFields(g))
  {
    MapRoundTrip(f, []);
    MapRoundTrip(g, []);
    SortPermutes(CanonicalFields(f));
    SortPermutes(CanonicalFields(g));
  }

  // ----- order independence -----

  predicate StrictlySorted(fields: seq<Field>) {
    forall i, j :: 0 <= i < j < |fields| ==> KeyBelow(fields[i], fields[j])
  }

  lemma KeysCompare(f: Field, g: Field)
    requires |f.key| <= U64_MAX && |g.key| <= U64_MAX && f.key != g.key
    ensures KeyBelow(f, g) <==> !KeyBelow(g, f)
  {
    TextKeysSortByLengthThenBytes(f.key, g.key);
    TextKeysSortByLengthThenBytes(g.key, f.key);
    BelowTotal(f.key, g.key);
  }

  lemma {:induction false} InsertSorts(f: Field, sorted: seq<Field>)
    requires StrictlySorted(sorted)
    requires forall g :: g in sorted ==> g.key != f.key && |g.key| <= U64_MAX
    requires |f.key| <= U64_MAX
    ensures StrictlySorted(InsertField(f, sorted))
    ensures forall g :: g in InsertField(f, sorted) ==> g == f || g in sorted
  {
    if sorted != [] {
      KeysCompare(sorted[0], f);
      if KeyBelow(sorted[0], f) {
        InsertSorts(f, sorted[1..]);
        forall g | g in InsertField(f, sorted[1..]) ensures KeyBelow(sorted[0], g) {
        }
      } else {
        forall g | g in sorted ensures KeyBelow(f, g) {
          if g != sorted[0] {
            BelowTransitive(Encode(Text(f.key)), Encode(Text(sorted[0].key)), Encode(Text(g.key)));
          }
        }
      }
    }
  }

  lemma {:induction false} SortSorts(fields: seq<Field>)
    requires SizedFields(fields) && DistinctKeys(fields)
    ensures StrictlySorted(SortFields(fields))
  {
    if fields != [] {
      SortSorts(fields[1..]);
      SortPermutes(fields[1..]);
      forall g | g in SortFields(fields[1..]) ensures g in fields[1..] {
        assert g in multiset(fields[1..]);
      }
      InsertSorts(fields[0], SortFields(fields[1..]));
    }
  }

  /** There is only one strictly sorted arrangement of given fields. */
  lemma {:induction false} SortedIsUnique(a: seq<Field>, b: seq<Field>)
    requires StrictlySorted(a) && StrictlySorted(b) && multiset(a) == multiset(b)
    ensures a == b
  {
    SameLength(a, b);
    if a != [] {
      SameLeast(a, b);
      SortedTail(a);
      SortedTail(b);
      SortedIsUnique(a[1..], b[1..]);
      assert a == [a[0]] + a[1..] && b == [b[0]] + b[1..];
    }
  }

  lemma SameLength(a: seq<Field>, b: seq<Field>)
    requires multiset(a) == multiset(b)
    ensures |a| == |b|
  {
    assert |multiset(a)| == |multiset(b)|;
  }

  lemma SortedTail(fields: seq<Field>)
    requires StrictlySorted(fields) && fields != []
    ensures StrictlySorted(fields[1..]) && multiset(fields[1..]) == multiset(fields) - multiset{fields[0]}
  {
    CountTail(fields);
    var rest := fields[1..];
    forall i, j | 0 <= i < j < |rest|
      ensures KeyBelow(rest[i], rest[j])
    {
      assert KeyBelow(fields[i + 1], fields[j + 1]);
    }
  }

  lemma CountTail(fields: seq<Field>)
    requires fields != []
    ensures multiset(fields[1..]) == multiset(fields) - multiset{fields[0]}
  {
    var first, counted := fields[0], multiset(fields[1..]);
    CountCons(first, fields[1..]);
    assert fields == [first] + fields[1..];
    assert (multiset{first} + counted) - multiset{first} == counted;
  }

  lemma SameLeast(a: seq<Field>, b: seq<Field>)
    requires StrictlySorted(a) && StrictlySorted(b) && multiset(a) == multiset(b) && a != [] && b != []
    ensures a[0] == b[0]
  {
    assert a[0] in multiset(b) && b[0] in multiset(a);
    FirstIsLeast(a, b[0]);
    FirstIsLeast(b, a[0]);
    BelowTotal(Encode(Text(a[0].key)), Encode(Text(b[0].key)));
  }

  lemma FirstIsLeast(fields: seq<Field>, f: Field)
    requires StrictlySorted(fields) && f in fields
    ensures f == fields[0] || KeyBelow(fields[0], f)
  {
  }

  lemma {:induction false} CanonicalFieldsKeep(fields: seq<Field>)
    ensures |CanonicalFields(fields)| == |fields|
    ensures forall i :: 0 <= i < |fields| ==>
              CanonicalFields(fields)[i] == Field(fields[i].key, Canonical(fields[i].value))
    ensures EncodeFields(CanonicalFields(fields)) == EncodeFields(fields)
  {
    if fields != [] {
      CanonicalFieldsKeep(fields[1..]);
      CanonicalEncodesAlike(fields[0].value);
      assert CanonicalFields(fields)[1..] == CanonicalFields(fields[1..]);
    }
  }

  /** With distinct keys the bytes depend only on which fields there are, not on their order. */
  lemma MapIgnoresOrder(f: seq<Field>, g: seq<Field>)
    requires SizedFields(f) && SizedFields(g) && DistinctKeys(f) && DistinctKeys(g)
    requires multiset(CanonicalFields(f)) == multiset(CanonicalFields(g))
    ensures EncodeMap(f) == EncodeMap(g)
  {
    var f', g' := CanonicalFields(f), CanonicalFields(g);
    CanonicalFieldsKeep(f);
    CanonicalFieldsKeep(g);
    SizedDistinctCanonical(f);
    SizedDistinctCanonical(g);
    SortSorts(f');
    SortSorts(g');
    SortPermutes(f');
    SortPermutes(g');
    SortedIsUnique(SortFields(f'), SortFields(g'));
    SortMatches(f');
    SortMatches(g');
    assert |f| == |multiset(f')| == |multiset(g')| == |g|;
  }

  lemma SizedDistinctCanonical(f: seq<Field>)
    requires SizedFields(f) && DistinctKeys(f)
    ensures SizedFields(CanonicalFields(f)) && DistinctKeys(CanonicalFields(f))
  {
    CanonicalFieldsKeep(f);
    forall x | x in CanonicalFields(f) ensures |x.key| <= U64_MAX && Sized(x.value) {
      var i :| 0 <= i < |f| && CanonicalFields(f)[i] == x;
      assert f[i] in f;
    }
  }

  /** The audit hash input: two duplicate-free field lists are encoded alike exactly when they hold the same fields. */
  lemma EncodingIsCanonical(f: seq<Field>, g: seq<Field>)
    requires SizedFields(f) && SizedFields(g) && DistinctKeys(f) && DistinctKeys(g)
    ensures EncodeMap(f) == EncodeMap(g) <==> multiset(CanonicalFields(f)) == multiset(CanonicalFields(g))
  {
    if EncodeMap(f) == EncodeMap(g) {
      MapIsInjective(f, g);
    } else if multiset(CanonicalFields(f)) == multiset(CanonicalFields(g)) {
      MapIgnoresOrder(f, g);
    }
  }
}
