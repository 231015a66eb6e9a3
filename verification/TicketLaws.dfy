/**
 * What survives a trip through a pairing ticket, exactly; that damaged tickets are refused;
 * and that records of a kind not known here are skipped.
 */
module TicketLaws {
  import opened Common
  import opened Bytes
  import opened Ticket
  import Base32

  // ----- what survives -----

  /** An IPv6 address with a zone that renders to itself: it is packed without its zone. */
  predicate Zoned(os: Platform, hint: Data) {
    var address := os.parse(hint);
    address.V6? && address.zone != 0 && os.show6(address.raw, address.zone) == hint
  }

  /** Short enough for a record, and packed without loss. */
  predicate Faithful(os: Platform, hint: Data) {
    |hint| <= 255 && !Zoned(os, hint)
  }

  /** The hint a scanner sees: the same one, except that a zone is gone. */
  function Seen(os: Platform, hint: Data): Data {
    if Zoned(os, hint) then os.show6(os.parse(hint).raw, 0) else hint
  }

  /** The hints that fit a record, as a scanner sees them, in order. */
  function Kept(os: Platform, hints: seq<Data>): (r: seq<Data>)
    ensures |r| <= |hints|
  {
    if hints == [] then []
    else (if |hints[0]| <= 255 then [Seen(os, hints[0])] else []) + Kept(os, hints[1..])
  }

  function KeptRelay(relay: Option<Data>): Option<Data> {
    if relay.Some? && |relay.value| <= 255 then relay else None
  }

  function Survivor(os: Platform, t: PairingTicket): PairingTicket {
    if |Blob(os, t)| <= U16_MAX then
      t.(addrHints := Kept(os, t.addrHints), relayHint := KeptRelay(t.relayHint))
    else
      t.(addrHints := [], relayHint := None)
  }

  // ----- records -----

  /** Whole records, then more: the two halves are read independently. */
  lemma {:induction false} RecordsThenMore(os: Platform, a: Data, b: Data)
    requires DecodeHints(os, a).Ok?
    ensures DecodeHints(os, a + b) == Onward(os, DecodeHints(os, a).value, b)
    decreases |a|
  {
    if a == [] {
      assert a + b == b;
      OnwardFromNothing(os, b);
    } else {
      var end := HEADER_LEN + a[1];
      var first := Meaning(os, a[0], a[HEADER_LEN..end]);
      assert (a + b)[end..] == a[end..] + b && (a + b)[HEADER_LEN..end] == a[HEADER_LEN..end];
      RecordsThenMore(os, a[end..], b);
      if DecodeHints(os, b).Ok? {
        MergeAssociates(first, DecodeHints(os, a[end..]).value, DecodeHints(os, b).value);
      }
    }
  }

  lemma OneRecord(os: Platform, kind: Byte, payload: Data)
    requires |payload| <= 255
    ensures DecodeHints(os, Record(kind, payload)) == Ok(Meaning(os, kind, payload))
  {
    var record := Record(kind, payload);
    var end := HEADER_LEN + |payload|;
    assert record[HEADER_LEN..end] == payload && record[end..] == [];
    OnwardToNothing(os, Meaning(os, kind, payload));
  }

  lemma HintSeen(os: Platform, hint: Data)
    requires os.Sane() && os.isText(hint)
    ensures DecodeHints(os, HintRecord(os, hint)) ==
            Ok(Hints(if |hint| <= 255 then [Seen(os, hint)] else [], None))
  {
    match os.parse(hint)
    case V4(raw) =>
      if os.show4(raw) == hint { OneRecord(os, IPV4, raw); } else { TextSeen(os, hint); }
    case V6(raw, zone) =>
      if os.show6(raw, zone) == hint { OneRecord(os, IPV6, raw); } else { TextSeen(os, hint); }
    case NotAnAddress =>
      TextSeen(os, hint);
  }

  lemma TextSeen(os: Platform, hint: Data)
    requires os.isText(hint)
    ensures DecodeHints(os, Record(TEXT, hint)) == Ok(Hints(if |hint| <= 255 then [hint] else [], None))
  {
    if |hint| <= 255 {
      OneRecord(os, TEXT, hint);
    }
  }

  lemma {:induction false} HintsSeen(os: Platform, hints: seq<Data>)
    requires os.Sane() && forall i :: 0 <= i < |hints| ==> os.isText(hints[i])
    ensures DecodeHints(os, HintRecords(os, hints)) == Ok(Hints(Kept(os, hints), None))
  {
    if hints != [] {
      HintSeen(os, hints[0]);
      HintsSeen(os, hints[1..]);
      RecordsThenMore(os, HintRecord(os, hints[0]), HintRecords(os, hints[1..]));
    }
  }

  lemma BlobSeen(os: Platform, t: PairingTicket)
    requires os.Sane() && t.IsText(os)
    ensures DecodeHints(os, Blob(os, t)) == Ok(Hints(Kept(os, t.addrHints), KeptRelay(t.relayHint)))
  {
    HintsSeen(os, t.addrHints);
    RecordsThenMore(os, HintRecords(os, t.addrHints), RelayRecord(t.relayHint));
    if t.relayHint.Some? && |t.relayHint.value| <= 255 {
      OneRecord(os, RELAY, t.relayHint.value);
    } else {
      assert RelayRecord(t.relayHint) == [];
    }
    assert Kept(os, t.addrHints) + [] == Kept(os, t.addrHints);
  }

  // ----- the layout -----

  lemma Front(x: Data, y: Data, lo: nat, hi: nat)
    requires lo <= hi <= |x|
    ensures (x + y)[lo..hi] == x[lo..hi]
  {
  }

  lemma Back(x: Data, y: Data)
    ensures (x + y)[|x|..] == y && (x + y)[|x|..|x| + |y|] == y
  {
  }

  lemma LayoutFields(t: PairingTicket, secret: Key32, blob: Data)
    requires |blob| <= U16_MAX
    ensures var body := Layout(t, secret, blob);
            && |body| == FIXED_LEN + |blob|
            && body[0] == VERSION
            && body[1..NODE_ID_AT] == t.daemonKey
            && body[NODE_ID_AT..SECRET_AT] == t.nodeId
            && body[SECRET_AT..SECRET_AT + 32] == secret
            && FromBigEndian(body[FIXED_LEN - 2..FIXED_LEN]) == |blob|
            && body[FIXED_LEN..] == blob
  {
    var length := BigEndian(|blob|, 2);
    var keyed := [VERSION] + t.daemonKey;
    var named := keyed + t.nodeId;
    var sealed := named + secret;
    var framed := sealed + length;
    Widths();
    BigEndianRoundTrip(|blob|, 2);
    Back(framed, blob);
    Front(framed, blob, FIXED_LEN - 2, FIXED_LEN);
    Back(sealed, length);
    Front(framed, blob, SECRET_AT, SECRET_AT + 32);
    Front(sealed, length, SECRET_AT, SECRET_AT + 32);
    Back(named, secret);
    Front(framed, blob, NODE_ID_AT, SECRET_AT);
    Front(sealed, length, NODE_ID_AT, SECRET_AT);
    Front(named, secret, NODE_ID_AT, SECRET_AT);
    Back(keyed, t.nodeId);
    Front(framed, blob, 1, NODE_ID_AT);
    Front(sealed, length, 1, NODE_ID_AT);
    Front(named, secret, 1, NODE_ID_AT);
    Front(keyed, t.nodeId, 1, NODE_ID_AT);
    Back([VERSION], t.daemonKey);
  }

  lemma Peeled(prefix: string, text: string)
    ensures prefix <= prefix + text && (prefix + text)[|prefix|..] == text
  {
  }

  /**
   * A scanned ticket gives back both keys, the secret, the hints in order and the relay, short
   * of the hints over 255 bytes and of zones, or no hints at all if together they are too long.
   */
  lemma RoundTrip(os: Platform, t: PairingTicket, secret: Key32)
    requires os.Sane() && t.IsText(os)
    ensures Decode(os, Encode(os, t, secret)) == Ok(Scanned(Survivor(os, t), secret))
  {
    var body := Body(os, t, secret);
    Peeled(PREFIX, Base32.Encode(body));
    Base32.RoundTrip(body);
    LayoutFields(t, secret, Fitting(Blob(os, t)));
    BlobSeen(os, t);
  }

  /** The ticket comes back unchanged exactly when nothing in it is too long and no address has a zone. */
  lemma UnchangedExactly(os: Platform, t: PairingTicket, secret: Key32)
    requires os.Sane() && t.IsText(os)
    ensures Decode(os, Encode(os, t, secret)) == Ok(Scanned(t, secret)) <==>
            && (|Blob(os, t)| <= U16_MAX || (t.addrHints == [] && t.relayHint == None))
            && (forall hint :: hint in t.addrHints ==> Faithful(os, hint))
            && (t.relayHint.Some? ==> |t.relayHint.value| <= 255)
  {
    RoundTrip(os, t, secret);
    KeptExactly(os, t.addrHints);
  }

  lemma {:induction false} KeptExactly(os: Platform, hints: seq<Data>)
    requires os.Sane()
    ensures Kept(os, hints) == hints <==> forall hint :: hint in hints ==> Faithful(os, hint)
  {
    if hints != [] {
      var first, rest := hints[0], hints[1..];
      assert first in hints;
      ZoneIsLost(os, first);
      KeptExactly(os, rest);
      if Faithful(os, first) {
        assert Kept(os, hints) == [first] + Kept(os, rest) && hints == [first] + rest;
        if Kept(os, rest) != rest {
          var lost :| lost in rest && !Faithful(os, lost);
          assert Kept(os, hints)[1..] == Kept(os, rest) && lost in hints;
        }
      } else if |first| <= 255 {
        assert Kept(os, hints)[0] == Seen(os, first);
      }
    }
  }

  /** A zone is never recovered: the packed address renders differently. */
  lemma ZoneIsLost(os: Platform, hint: Data)
    requires os.Sane()
    ensures Seen(os, hint) != hint <==> Zoned(os, hint)
  {
    if Zoned(os, hint) {
      var raw := os.parse(hint).raw;
      assert os.parse(os.show6(raw, 0)) == V6(raw, 0);
    }
  }

  /** The text `[fe80::1%5]:80`, and its octets and port. */
  const LINK_LOCAL: Data := [91, 102, 101, 56, 48, 58, 58, 49, 37, 53, 93, 58, 56, 48]
  const LINK_LOCAL_RAW: Data := [0xfe, 0x80, 0, 0, 0, 0, 0, 0, 0, 0, 0, 0, 0, 0, 0, 1, 0, 80]

  /** The platform reads and writes this one address as the standard library does. */
  ghost predicate KnowsLinkLocal(os: Platform) {
    && os.Sane() && os.isText(LINK_LOCAL)
    && os.parse(LINK_LOCAL) == V6(LINK_LOCAL_RAW, 5) && os.show6(LINK_LOCAL_RAW, 5) == LINK_LOCAL
  }

  /** A link-local address on interface 5 comes back without its interface. */
  lemma LinkLocalHintChanges(os: Platform, secret: Key32, daemon: Key32, node: Key32)
    requires KnowsLinkLocal(os)
    ensures var t := PairingTicket(daemon, node, [LINK_LOCAL], None);
            Decode(os, Encode(os, t, secret)) ==
            Ok(Scanned(t.(addrHints := [os.show6(LINK_LOCAL_RAW, 0)]), secret))
    ensures os.show6(LINK_LOCAL_RAW, 0) != LINK_LOCAL
  {
    var t := PairingTicket(daemon, node, [LINK_LOCAL], None);
    ZoneIsLost(os, LINK_LOCAL);
    ZonedAlone(os, LINK_LOCAL);
    RoundTrip(os, t, secret);
  }

  lemma ZonedAlone(os: Platform, hint: Data)
    requires os.Sane() && Zoned(os, hint)
    ensures Kept(os, [hint]) == [os.show6(os.parse(hint).raw, 0)]
    ensures |HintRecords(os, [hint])| == 20
  {
    var hints := [hint];
    assert hints[1..] == [];
  }

  /** There are such platforms. */
  lemma SomePlatformKnowsLinkLocal() returns (os: Platform)
    ensures KnowsLinkLocal(os)
  {
    os := Platform(
      (h: Data) => if h == LINK_LOCAL then V6(LINK_LOCAL_RAW, 5) else if |h| == 18 then V6(h, 0) else NotAnAddress,
      (raw: Data) => [],
      (raw: Data, zone: nat) =>
        if raw == LINK_LOCAL_RAW && zone == 5 then LINK_LOCAL else if |raw| == 18 then raw else [],
      (h: Data) => true);
    assert |LINK_LOCAL| == 14 && |LINK_LOCAL_RAW| == 18;
  }

  // ----- damaged and foreign tickets -----

  lemma ShortBody(os: Platform, t: PairingTicket, secret: Key32, n: nat)
    requires 0 < n < |Body(os, t, secret)|
    ensures DecodeBody(os, Body(os, t, secret)[..n]) == Err(BadLength)
  {
    var body, blob := Body(os, t, secret), Fitting(Blob(os, t));
    LayoutFields(t, secret, blob);
    if n >= FIXED_LEN {
      assert body[..n][FIXED_LEN - 2..FIXED_LEN] == body[FIXED_LEN - 2..FIXED_LEN];
    }
  }

  lemma ShortText(os: Platform, t: PairingTicket, secret: Key32, k: nat)
    requires k < |Base32.Encode(Body(os, t, secret))|
    ensures match Base32.Decode(Base32.Encode(Body(os, t, secret))[..k])
            case None => true
            case Some(short) => DecodeBody(os, short) == Err(BadLength)
  {
    var body := Body(os, t, secret);
    if k == 0 {
      Base32.NothingDecodesToNothing();
      assert Base32.Encode(body)[..k] == [];
    } else {
      Base32.Truncated(body, k);
      match Base32.Decode(Base32.Encode(body)[..k])
      case None =>
      case Some(short) => ShortBody(os, t, secret, |short|);
    }
  }

  lemma CutBehind(prefix: string, text: string, n: nat)
    requires n <= |prefix + text| && prefix <= (prefix + text)[..n]
    ensures |prefix| <= n && (prefix + text)[..n][|prefix|..] == text[..n - |prefix|]
  {
  }

  lemma RefusedBehindPrefix(os: Platform, payload: string, text: string)
    requires PREFIX <= payload ==> payload[|PREFIX|..] == text
    requires match Base32.Decode(text)
             case None => true
             case Some(body) => DecodeBody(os, body).Err?
    ensures Decode(os, payload).Err?
  {
  }

  /** Every strict beginning of a ticket's text is refused, the empty text included. */
  lemma TruncationIsCaught(os: Platform, t: PairingTicket, secret: Key32, n: nat)
    requires n < |Encode(os, t, secret)|
    ensures Decode(os, Encode(os, t, secret)[..n]).Err?
  {
    var text := Base32.Encode(Body(os, t, secret));
    var k := if n < |PREFIX| then 0 else n - |PREFIX|;
    if PREFIX <= (PREFIX + text)[..n] {
      CutBehind(PREFIX, text, n);
    }
    ShortText(os, t, secret, k);
    RefusedBehindPrefix(os, (PREFIX + text)[..n], text[..k]);
  }

  /** A ticket of another version is named as such whatever its length, even the shorter version 1. */
  lemma OtherVersionsAreNamed(os: Platform, body: Data)
    requires body != [] && body[0] != VERSION
    ensures Decode(os, PREFIX + Base32.Encode(body)) == Err(UnsupportedVersion(body[0]))
  {
    Peeled(PREFIX, Base32.Encode(body));
    Base32.RoundTrip(body);
  }

  /** A record of an unknown kind between whole records changes nothing. */
  lemma UnknownKindsAreSkipped(os: Platform, before: Data, kind: Byte, payload: Data, after: Data)
    requires DecodeHints(os, before).Ok?
    requires kind !in {IPV4, IPV6, TEXT, RELAY}
    ensures DecodeHints(os, before + (Record(kind, payload) + after)) == DecodeHints(os, before + after)
  {
    RecordsThenMore(os, before, Record(kind, payload) + after);
    RecordsThenMore(os, before, after);
    if |payload| <= 255 {
      OneRecord(os, kind, payload);
      RecordsThenMore(os, Record(kind, payload), after);
      OnwardFromNothing(os, after);
    } else {
      assert Record(kind, payload) + after == after;
    }
  }

  /** A last record that claims more bytes than remain, or has no length at all, spoils the whole list. */
  lemma OverrunIsRefused(os: Platform, before: Data, kind: Byte, claimed: Byte, left: Data)
    requires DecodeHints(os, before).Ok? && |left| < claimed
    ensures DecodeHints(os, before + ([kind, claimed] + left)) == Err(BadLength)
    ensures DecodeHints(os, before + [kind]) == Err(BadLength)
  {
    RecordsThenMore(os, before, [kind, claimed] + left);
    RecordsThenMore(os, before, [kind]);
  }
}
