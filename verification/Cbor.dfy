/**
 * The canonical CBOR encoder behind the audit hash: section 4.2.1 of RFC 8949, restricted to
 * integers, byte and text strings, null, and maps with text keys sorted by their encoded bytes.
 */
module Cbor {
  import opened Common
  import opened Bytes

  type I64 = x: int | -0x8000_0000_0000_0000 <= x < 0x8000_0000_0000_0000

  /** A text string is its UTF-8 bytes. */
  datatype Item = Uint(n: U64) | Int(i: I64) | ByteString(b: Data) | Text(t: Data) | Null

  datatype Field = Field(key: Data, value: Item)

  /** An encoded key and its encoded value. */
  datatype Entry = Entry(key: Data, value: Data)

  const TEXT: nat := 3
  const MAP: nat := 5

  // ----- what is written -----

  /** The major type and the shortest form of the argument. */
  function Head(major: nat, arg: U64): Data
    requires major < 8
  {
    var mt := major * 32;
    if arg < 0x18 then [mt + arg]
    else if arg < 0x100 then [mt + 0x18] + [arg]
    else if arg < 0x1_0000 then [mt + 0x19] + BigEndian(arg, 2)
    else if arg < 0x1_0000_0000 then [mt + 0x1a] + BigEndian(arg, 4)
    else [mt + 0x1b] + BigEndian(arg, 8)
  }

  function Length(len: nat): U64 {
    Min(len, U64_MAX)
  }

  function Encode(item: Item): Data {
    match item
    case Uint(n) => Head(0, n)
    case Int(i) => if i < 0 then Head(1, -(i + 1)) else Head(0, i)
    case ByteString(b) => Head(2, Length(|b|)) + b
    case Text(t) => Head(TEXT, Length(|t|)) + t
    case Null => [0xf6]
  }

  function EncodeField(f: Field): Entry {
    Entry(Encode(Text(f.key)), Encode(f.value))
  }

  function EncodeFields(fields: seq<Field>): seq<Entry> {
    if fields == [] then [] else [EncodeField(fields[0])] + EncodeFields(fields[1..])
  }

  /** Places an entry before the first whose key is not smaller, so equal keys keep their order. */
  function Insert(e: Entry, sorted: seq<Entry>): seq<Entry> {
    if sorted == [] || !Below(sorted[0].key, e.key) then [e] + sorted
    else [sorted[0]] + Insert(e, sorted[1..])
  }

  function Sort(entries: seq<Entry>): seq<Entry> {
    if entries == [] then [] else Insert(entries[0], Sort(entries[1..]))
  }

  function Concat(entries: seq<Entry>): Data {
    if entries == [] then [] else entries[0].key + entries[0].value + Concat(entries[1..])
  }

  function EncodeMap(fields: seq<Field>): Data {
    Head(MAP, Length(|fields|)) + Concat(Sort(EncodeFields(fields)))
  }

  // ----- the writer -----

  method WriteHead(out: Buffer, major: nat, arg: U64)
    requires major < 8
    modifies out
    ensures out.bytes == old(out.bytes) + Head(major, arg)
  {
    var mt := major * 32;
    if arg < 0x100 {
      if arg < 0x18 {
        out.Push(mt + arg);
      } else {
        out.Push(mt + 0x18);
        out.Push(arg);
      }
    } else if arg < 0x1_0000 {
      out.Push(mt + 0x19);
      out.Extend(BigEndian(arg, 2));
    } else if arg < 0x1_0000_0000 {
      out.Push(mt + 0x1a);
      out.Extend(BigEndian(arg, 4));
    } else {
      out.Push(mt + 0x1b);
      out.Extend(BigEndian(arg, 8));
    }
  }

  method WriteItem(out: Buffer, item: Item)
    modifies out
    ensures out.bytes == old(out.bytes) + Encode(item)
  {
    match item
    case Uint(n) =>
      WriteHead(out, 0, n);
    case Int(i) =>
      if i < 0 {
        // negating after the increment stays in range down to the least integer
        var above: I64 := i + 1;
        var n: I64 := -above;
        WriteHead(out, 1, n);
      } else {
        WriteHead(out, 0, i);
      }
    case ByteString(b) =>
      WriteString(out, 2, b);
    case Text(t) =>
      WriteString(out, TEXT, t);
    case Null =>
      out.Push(0xf6);
  }

  method WriteString(out: Buffer, major: nat, b: Data)
    requires major < 8
    modifies out
    ensures out.bytes == old(out.bytes) + (Head(major, Length(|b|)) + b)
  {
    WriteHead(out, major, Length(|b|));
    out.Extend(b);
  }

  method SortEntries(entries: seq<Entry>) returns (sorted: seq<Entry>)
    ensures sorted == Sort(entries)
  {
    sorted := [];
    for i := |entries| downto 0
      invariant sorted == Sort(entries[i..])
    {
      assert entries[i..][1..] == entries[i + 1..];
      sorted := Insert(entries[i], sorted);
    }
  }

  method WriteEntry(f: Field) returns (e: Entry)
    ensures e == EncodeField(f)
  {
    var k := new Buffer();
    WriteItem(k, Text(f.key));
    var v := new Buffer();
    WriteItem(v, f.value);
    assert k.bytes == Encode(Text(f.key)) && v.bytes == Encode(f.value);
    e := Entry(k.bytes, v.bytes);
  }

  method WriteEntries(out: Buffer, entries: seq<Entry>)
    modifies out
    ensures out.bytes == old(out.bytes) + Concat(entries)
  {
    for i := 0 to |entries|
      invariant out.bytes + Concat(entries[i..]) == old(out.bytes) + Concat(entries)
    {
      assert entries[i..][1..] == entries[i + 1..];
      out.Extend(entries[i].key);
      out.Extend(entries[i].value);
    }
  }

  method EncodeAll(fields: seq<Field>) returns (encoded: seq<Entry>)
    ensures encoded == EncodeFields(fields)
  {
    encoded := [];
    for i := 0 to |fields|
      invariant encoded + EncodeFields(fields[i..]) == EncodeFields(fields)
    {
      assert fields[i..][1..] == fields[i + 1..];
      var entry := WriteEntry(fields[i]);
      encoded := encoded + [entry];
    }
  }

  method WriteMap(fields: seq<Field>) returns (bytes: Data)
    ensures bytes == EncodeMap(fields)
  {
    var encoded := EncodeAll(fields);
    EncodeFieldsLength(fields);
    var sorted := SortEntries(encoded);
    var out := new Buffer();
    var count := Length(|encoded|);
    WriteHead(out, MAP, count);
    StartsEmpty(Head(MAP, count));
    WriteEntries(out, sorted);
    bytes := out.bytes;
  }

  lemma StartsEmpty(b: Data)
    ensures [] + b == b
  {
  }

  lemma {:induction false} EncodeFieldsLength(fields: seq<Field>)
    ensures |EncodeFields(fields)| == |fields|
  {
    if fields != [] {
      EncodeFieldsLength(fields[1..]);
    }
  }
}
