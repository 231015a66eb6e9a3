/** What the bytes of a map determine when keys repeat: for each key its values, in their order. */
module CborDuplicates {
  import opened Common
  import opened Bytes
  import opened Cbor
  import opened CborCanonical

  function Own(f: Field, key: Data): seq<Item> {
    if f.key == key then [f.value] else []
  }

  /** The values under one key, in order. */
  function ValuesOf(fields: seq<Field>, key: Data): seq<Item> {
    if fields == [] then [] else Own(fields[0], key) + ValuesOf(fields[1..], key)
  }

  lemma ValuesOfMore(f: Field, rest: seq<Field>, key: Data)
    ensures ValuesOf([f] + rest, key) == Own(f, key) + ValuesOf(rest, key)
  {
    assert ([f] + rest)[1..] == rest;
  }

  /** What is inserted goes before the values its key already has. */
  lemma {:induction false} InsertIsStable(f: Field, sorted: seq<Field>, key: Data)
    ensures ValuesOf(InsertField(f, sorted), key) == Own(f, key) + ValuesOf(sorted, key)
  {
    if sorted == [] || !KeyBelow(sorted[0], f) {
      ValuesOfMore(f, sorted, key);
    } else {
      var first, rest := sorted[0], sorted[1..];
      InsertIsStable(f, rest, key);
      ValuesOfMore(first, InsertField(f, rest), key);
      BelowDiffers(first, f);
      PassesBy(Own(first, key), Own(f, key), ValuesOf(rest, key));
    }
  }

  lemma BelowDiffers(f: Field, g: Field)
    requires KeyBelow(f, g)
    ensures f.key != g.key
  {
    BelowTotal(Encode(Text(f.key)), Encode(Text(g.key)));
  }

  lemma PassesBy(a: seq<Item>, b: seq<Item>, c: seq<Item>)
    requires a == [] || b == []
    ensures a + (b + c) == b + (a + c)
  {
  }

  lemma {:induction false} SortIsStable(fields: seq<Field>, key: Data)
    ensures ValuesOf(SortFields(fields), key) == ValuesOf(fields, key)
  {
    if fields != [] {
      SortIsStable(fields[1..], key);
      InsertIsStable(fields[0], SortFields(fields[1..]), key);
    }
  }

  // ----- one arrangement -----

  /** No key is smaller than one before it. */
  predicate NeverFalls(fields: seq<Field>) {
    forall i, j :: 0 <= i < j < |fields| ==> !KeyBelow(fields[j], fields[i])
  }

  lemma NotBelowTransitive(f: Field, g: Field, h: Field)
    requires !KeyBelow(g, f) && !KeyBelow(h, g)
    ensures !KeyBelow(h, f)
  {
    var a, b, c := Encode(Text(f.key)), Encode(Text(g.key)), Encode(Text(h.key));
    BelowTotal(a, b);
    if Below(c, a) && Below(a, b) {
      BelowTransitive(c, a, b);
    }
  }

  lemma InFront(f: Field, rest: seq<Field>)
    requires NeverFalls(rest) && forall g :: g in rest ==> !KeyBelow(g, f)
    ensures NeverFalls([f] + rest)
  {
    var all := [f] + rest;
    assert all[0] == f && forall k :: 0 < k < |all| ==> all[k] == rest[k - 1] && all[k] in rest;
  }

  lemma {:induction false} InsertNeverFalls(f: Field, sorted: seq<Field>)
    requires NeverFalls(sorted)
    ensures NeverFalls(InsertField(f, sorted))
    ensures forall g :: g in InsertField(f, sorted) ==> g == f || g in sorted
  {
    if sorted == [] || !KeyBelow(sorted[0], f) {
      forall g | g in sorted ensures !KeyBelow(g, f) {
        if g != sorted[0] {
          NotBelowTransitive(f, sorted[0], g);
        }
      }
      InFront(f, sorted);
    } else {
      InsertNeverFalls(f, sorted[1..]);
      BelowTotal(Encode(Text(sorted[0].key)), Encode(Text(f.key)));
      InFront(sorted[0], InsertField(f, sorted[1..]));
    }
  }

  lemma {:induction false} SortNeverFalls(fields: seq<Field>)
    ensures NeverFalls(SortFields(fields))
  {
    if fields != [] {
      SortNeverFalls(fields[1..]);
      InsertNeverFalls(fields[0], SortFields(fields[1..]));
    }
  }

  lemma {:induction false} KeyIsHeld(fields: seq<Field>, key: Data)
    ensures ValuesOf(fields, key) != [] <==> exists i :: 0 <= i < |fields| && fields[i].key == key
  {
    if fields != [] {
      KeyIsHeld(fields[1..], key);
      assert forall i :: 1 <= i < |fields| ==> fields[i] == fields[1..][i - 1];
    }
  }

  /** In a sorted list no key that has a value is below the first. */
  lemma FirstIsLowest(fields: seq<Field>, g: Field)
    requires NeverFalls(fields) && fields != [] && ValuesOf(fields, g.key) != []
    ensures !KeyBelow(g, fields[0])
  {
    KeyIsHeld(fields, g.key);
    var i :| 0 <= i < |fields| && fields[i].key == g.key;
    BelowTotal(Encode(Text(g.key)), Encode(Text(g.key)));
    assert i > 0 ==> !KeyBelow(fields[i], fields[0]);
  }

  ghost predicate SameValues(f: seq<Field>, g: seq<Field>) {
    forall key :: ValuesOf(f, key) == ValuesOf(g, key)
  }

  predicate SizedKeys(fields: seq<Field>) {
    forall f :: f in fields ==> |f.key| <= U64_MAX
  }

  lemma SameFirst(a: seq<Field>, b: seq<Field>)
    requires NeverFalls(a) && NeverFalls(b) && SizedKeys(a) && SizedKeys(b)
    requires a != [] && b != [] && SameValues(a, b)
    ensures a[0] == b[0]
  {
    KeyIsHeld(a, a[0].key);
    KeyIsHeld(b, b[0].key);
    FirstIsLowest(b, a[0]);
    FirstIsLowest(a, b[0]);
    if a[0].key != b[0].key {
      KeysCompare(a[0], b[0]);
    }
    assert ValuesOf(a, a[0].key)[0] == a[0].value && ValuesOf(b, b[0].key)[0] == b[0].value;
  }

  /** A sorted list is determined by the values of each key. */
  lemma {:induction false} OneArrangement(a: seq<Field>, b: seq<Field>)
    requires NeverFalls(a) && NeverFalls(b) && SizedKeys(a) && SizedKeys(b) && SameValues(a, b)
    ensures a == b
  {
    BothOrNeither(a, b);
    if a != [] {
      SameFirst(a, b);
      SameRest(a, b);
      SameTails(a, b);
      OneArrangement(a[1..], b[1..]);
    }
  }

  lemma SameTails(a: seq<Field>, b: seq<Field>)
    requires a != [] && b != [] && a[0] == b[0]
    ensures NeverFalls(a) ==> NeverFalls(a[1..])
    ensures SizedKeys(a) ==> SizedKeys(a[1..])
    ensures NeverFalls(b) ==> NeverFalls(b[1..])
    ensures SizedKeys(b) ==> SizedKeys(b[1..])
    ensures a[1..] == b[1..] ==> a == b
  {
    assert a == [a[0]] + a[1..] && b == [b[0]] + b[1..];
  }

  lemma BothOrNeither(a: seq<Field>, b: seq<Field>)
    requires SameValues(a, b)
    ensures a == [] <==> b == []
  {
    var key := if a != [] then a[0].key else if b != [] then b[0].key else [];
    assert ValuesOf(a, key) == ValuesOf(b, key);
  }

  lemma SameRest(a: seq<Field>, b: seq<Field>)
    requires a != [] && b != [] && a[0] == b[0] && SameValues(a, b)
    ensures SameValues(a[1..], b[1..])
  {
    forall key ensures ValuesOf(a[1..], key) == ValuesOf(b[1..], key) {
      assert ValuesOf(a, key) == ValuesOf(b, key);
      Cancel(Own(a[0], key), ValuesOf(a[1..], key), ValuesOf(b[1..], key));
    }
  }

  lemma Cancel(first: seq<Item>, a: seq<Item>, b: seq<Item>)
    requires first + a == first + b
    ensures a == b
  {
    assert (first + a)[|first|..] == a && (first + b)[|first|..] == b;
  }

  /** Keys in the order of a canonical map: the shorter first, then bytewise, equal keys side by side. */
  predicate KeysInOrder(s: Data, t: Data) {
    |s| < |t| || (|s| == |t| && (s == t || Below(s, t)))
  }

  lemma NotAfterIsInOrder(f: Field, g: Field)
    requires |f.key| <= U64_MAX && |g.key| <= U64_MAX
    ensures !KeyBelow(g, f) <==> KeysInOrder(f.key, g.key)
  {
    TextKeysSortByLengthThenBytes(g.key, f.key);
    BelowTotal(f.key, g.key);
  }

  // ----- the bytes -----

  lemma SortedBytes(fields: seq<Field>)
    ensures EncodeMap(fields) ==
            Head(MAP, Length(|fields|)) + Concat(EncodeFields(SortFields(CanonicalFields(fields))))
  {
    CanonicalFieldsKeep(fields);
    SortMatches(CanonicalFields(fields));
  }

  lemma SortedSized(fields: seq<Field>)
    requires SizedFields(fields)
    ensures NeverFalls(SortFields(CanonicalFields(fields))) && SizedKeys(SortFields(CanonicalFields(fields)))
  {
    var sorted := SortFields(CanonicalFields(fields));
    CanonicalFieldsKeep(fields);
    SortNeverFalls(CanonicalFields(fields));
    SortPermutes(CanonicalFields(fields));
    forall f | f in sorted ensures |f.key| <= U64_MAX {
      assert f in multiset(CanonicalFields(fields));
      var i :| 0 <= i < |fields| && CanonicalFields(fields)[i] == f;
      assert fields[i] in fields;
    }
  }

  /** The keys of an encoded map ascend: each is shorter than the next, or as long and not above it. */
  lemma KeysAscend(fields: seq<Field>, rest: Data, i: nat, j: nat)
    requires SizedFields(fields) && i < j < |fields|
    ensures var read := ReadMap(EncodeMap(fields) + rest);
            && read.Some? && |read.value.0| == |fields|
            && KeysInOrder(read.value.0[i].key, read.value.0[j].key)
  {
    var sorted := SortFields(CanonicalFields(fields));
    MapRoundTrip(fields, rest);
    CanonicalFieldsKeep(fields);
    SortedSized(fields);
    assert sorted[i] in sorted && sorted[j] in sorted;
    NotAfterIsInOrder(sorted[i], sorted[j]);
  }

  /** Under each key an encoded map holds its values in the order they were given. */
  lemma ValuesKeepOrder(fields: seq<Field>, rest: Data, key: Data)
    requires SizedFields(fields)
    ensures var read := ReadMap(EncodeMap(fields) + rest);
            read.Some? && ValuesOf(read.value.0, key) == ValuesOf(CanonicalFields(fields), key)
  {
    MapRoundTrip(fields, rest);
    SortIsStable(CanonicalFields(fields), key);
  }

  /**
   * Two field lists, with keys repeated or not, are encoded alike exactly when every key has the
   * same values in the same order in both, up to the type of a non-negative integer.
   */
  lemma EncodedAlikeExactly(f: seq<Field>, g: seq<Field>)
    requires SizedFields(f) && SizedFields(g)
    ensures EncodeMap(f) == EncodeMap(g) <==> SameValues(CanonicalFields(f), CanonicalFields(g))
  {
    var f', g' := CanonicalFields(f), CanonicalFields(g);
    forall key
      ensures ValuesOf(SortFields(f'), key) == ValuesOf(f', key)
      ensures ValuesOf(SortFields(g'), key) == ValuesOf(g', key)
    {
      SortIsStable(f', key);
      SortIsStable(g', key);
    }
    if EncodeMap(f) == EncodeMap(g) {
      MapRoundTrip(f, []);
      MapRoundTrip(g, []);
    } else if SameValues(f', g') {
      SortedSized(f);
      SortedSized(g);
      OneArrangement(SortFields(f'), SortFields(g'));
      CanonicalFieldsKeep(f);
      CanonicalFieldsKeep(g);
      SortedBytes(f);
      SortedBytes(g);
    }
  }

  /** Two different values under one key are told apart by their order. */
  lemma DuplicateKeysKeepOrder(key: Data, x: Item, y: Item)
    requires |key| <= U64_MAX && Sized(x) && Sized(y) && Canonical(x) != Canonical(y)
    ensures EncodeMap([Field(key, x), Field(key, y)]) != EncodeMap([Field(key, y), Field(key, x)])
  {
    var f, g := [Field(key, x), Field(key, y)], [Field(key, y), Field(key, x)];
    EncodedAlikeExactly(f, g);
    CanonicalFieldsKeep(f);
    CanonicalFieldsKeep(g);
    assert ValuesOf(CanonicalFields(f), key)[0] == Canonical(x);
    assert ValuesOf(CanonicalFields(g), key)[0] == Canonical(y);
  }
}
