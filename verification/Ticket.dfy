/**
 * The pairing ticket carried in a QR code: a fixed header and a list of kind/length/payload
 * hint records, spelled in base32 behind a scheme prefix. Strings are their UTF-8 bytes.
 */
module Ticket {
  import opened Common
  import opened Bytes
  import Base32

  const PREFIX: string := "gonomad1:"
  const VERSION: Byte := 2
  const FIXED_LEN: nat := 1 + 32 + 32 + 32 + 2
  const NODE_ID_AT: nat := 1 + 32
  const SECRET_AT: nat := NODE_ID_AT + 32

  const IPV4: Byte := 1
  const IPV6: Byte := 2
  const TEXT: Byte := 3
  const RELAY: Byte := 4
  const HEADER_LEN: nat := 2

  datatype PairingError =
    | WrongScheme
    | NotBase32
    | BadLength
    | UnsupportedVersion(version: Byte)
    | BadCodeLength
    | Expired

  /** What a hint parses to: octets and port of an address, for IPv6 with its zone (zero for none). */
  datatype Address = V4(raw: Data) | V6(raw: Data, zone: nat) | NotAnAddress

  /** The platform's address parser and printer, and its UTF-8 check. */
  datatype Platform = Platform(
    parse: Data -> Address,
    show4: Data -> Data,
    show6: (Data, nat) -> Data,
    isText: Data -> bool)
  {
    /** Addresses have their sizes, render shortly, and a rendered zone-free IPv6 address parses back. */
    ghost predicate Sane() {
      && (forall h :: parse(h).V4? ==> |parse(h).raw| == 6)
      && (forall h :: parse(h).V6? ==> |parse(h).raw| == 18)
      && (forall raw :: |show4(raw)| <= 255)
      && (forall raw, zone :: |show6(raw, zone)| <= 255)
      && (forall raw :: |raw| == 18 ==> parse(show6(raw, 0)) == V6(raw, 0))
    }
  }

  datatype PairingTicket = PairingTicket(
    daemonKey: Key32,
    nodeId: Key32,
    addrHints: seq<Data>,
    relayHint: Option<Data>)
  {
    /** Every hint is a string. */
    predicate IsText(os: Platform) {
      && (forall i :: 0 <= i < |addrHints| ==> os.isText(addrHints[i]))
      && (relayHint.Some? ==> os.isText(relayHint.value))
    }
  }

  // ----- encoding -----

  /** One record; a payload whose length does not fit a byte leaves nothing. */
  function Record(kind: Byte, payload: Data): Data {
    if |payload| > 255 then [] else [kind, |payload|] + payload
  }

  function HintRecord(os: Platform, hint: Data): Data {
    match os.parse(hint)
    case V4(raw) => if os.show4(raw) == hint then Record(IPV4, raw) else Record(TEXT, hint)
    case V6(raw, zone) => if os.show6(raw, zone) == hint then Record(IPV6, raw) else Record(TEXT, hint)
    case NotAnAddress => Record(TEXT, hint)
  }

  function HintRecords(os: Platform, hints: seq<Data>): Data {
    if hints == [] then [] else HintRecord(os, hints[0]) + HintRecords(os, hints[1..])
  }

  function RelayRecord(relay: Option<Data>): Data {
    match relay
    case None => []
    case Some(url) => Record(RELAY, url)
  }

  function Blob(os: Platform, t: PairingTicket): Data {
    HintRecords(os, t.addrHints) + RelayRecord(t.relayHint)
  }

  /** A blob whose length does not fit sixteen bits is dropped whole. */
  function Fitting(blob: Data): Data {
    if |blob| <= U16_MAX then blob else []
  }

  function Layout(t: PairingTicket, secret: Key32, blob: Data): Data {
    [VERSION] + t.daemonKey + t.nodeId + secret + BigEndian(|blob|, 2) + blob
  }

  function Body(os: Platform, t: PairingTicket, secret: Key32): Data {
    Layout(t, secret, Fitting(Blob(os, t)))
  }

  function Encode(os: Platform, t: PairingTicket, secret: Key32): string {
    PREFIX + Base32.Encode(Body(os, t, secret))
  }

  // ----- decoding -----

  datatype Hints = Hints(addresses: seq<Data>, relay: Option<Data>)

  /** What one record contributes: unknown kinds, wrong sizes and text that is not UTF-8 give nothing. */
  function Meaning(os: Platform, kind: Byte, payload: Data): Hints {
    if kind == IPV4 then
      if |payload| == 6 then Hints([os.show4(payload)], None) else Hints([], None)
    else if kind == IPV6 then
      if |payload| == 18 then Hints([os.show6(payload, 0)], None) else Hints([], None)
    else if kind == TEXT then
      if os.isText(payload) then Hints([payload], None) else Hints([], None)
    else if kind == RELAY then
      if os.isText(payload) then Hints([], Some(payload)) else Hints([], None)
    else Hints([], None)
  }

  /** Addresses in order; the later relay wins. */
  function Merge(a: Hints, b: Hints): Hints {
    Hints(a.addresses + b.addresses, if b.relay.Some? then b.relay else a.relay)
  }

  function DecodeHints(os: Platform, blob: Data): Result<Hints, PairingError>
    decreases |blob|
  {
    if blob == [] then Ok(Hints([], None))
    else if |blob| < HEADER_LEN || |blob| < HEADER_LEN + blob[1] then Err(BadLength)
    else
      var end := HEADER_LEN + blob[1];
      match DecodeHints(os, blob[end..])
      case Err(e) => Err(e)
      case Ok(rest) => Ok(Merge(Meaning(os, blob[0], blob[HEADER_LEN..end]), rest))
  }

  datatype Scanned = Scanned(ticket: PairingTicket, secret: Key32)

  function DecodeBody(os: Platform, body: Data): Result<Scanned, PairingError> {
    if body == [] then Err(BadLength)
    else if body[0] != VERSION then Err(UnsupportedVersion(body[0]))
    else if |body| < FIXED_LEN then Err(BadLength)
    else if |body| != FIXED_LEN + FromBigEndian(body[FIXED_LEN - 2..FIXED_LEN]) then Err(BadLength)
    else
      match DecodeHints(os, body[FIXED_LEN..])
      case Err(e) => Err(e)
      case Ok(hints) =>
        var ticket := PairingTicket(body[1..NODE_ID_AT], body[NODE_ID_AT..SECRET_AT], hints.addresses, hints.relay);
        Ok(Scanned(ticket, body[SECRET_AT..SECRET_AT + 32]))
  }

  function Decode(os: Platform, payload: string): Result<Scanned, PairingError> {
    if !(PREFIX <= payload) then Err(WrongScheme)
    else
      match Base32.Decode(payload[|PREFIX|..])
      case None => Err(NotBase32)
      case Some(body) => DecodeBody(os, body)
  }

  // ----- the loops -----

  method PushHint(out: Buffer, kind: Byte, payload: Data)
    modifies out
    ensures out.bytes == old(out.bytes) + Record(kind, payload)
  {
    if |payload| > 255 {
      return;
    }
    out.Push(kind);
    out.Push(|payload|);
    out.Extend(payload);
  }

  method PushAddress(out: Buffer, os: Platform, hint: Data)
    modifies out
    ensures out.bytes == old(out.bytes) + HintRecord(os, hint)
  {
    match os.parse(hint)
    case V4(raw) =>
      if os.show4(raw) == hint {
        PushHint(out, IPV4, raw);
      } else {
        PushHint(out, TEXT, hint);
      }
    case V6(raw, zone) =>
      if os.show6(raw, zone) == hint {
        PushHint(out, IPV6, raw);
      } else {
        PushHint(out, TEXT, hint);
      }
    case NotAnAddress =>
      PushHint(out, TEXT, hint);
  }

  method WriteHints(os: Platform, t: PairingTicket) returns (out: Buffer)
    ensures fresh(out) && out.bytes == Blob(os, t)
  {
    out := new Buffer();
    for i := 0 to |t.addrHints|
      invariant fresh(out)
      invariant out.bytes + HintRecords(os, t.addrHints[i..]) == HintRecords(os, t.addrHints)
    {
      HintRecordsStep(os, t.addrHints, i, out.bytes);
      PushAddress(out, os, t.addrHints[i]);
    }
    if t.relayHint.Some? {
      PushHint(out, RELAY, t.relayHint.value);
    }
  }

  lemma HintRecordsStep(os: Platform, hints: seq<Data>, i: nat, written: Data)
    requires i < |hints|
    ensures written + HintRecords(os, hints[i..]) ==
            (written + HintRecord(os, hints[i])) + HintRecords(os, hints[i + 1..])
  {
    assert hints[i..][1..] == hints[i + 1..];
  }

  method WriteTicket(os: Platform, t: PairingTicket, secret: Key32) returns (text: string)
    ensures text == Encode(os, t, secret)
  {
    var body := new Buffer();
    body.Push(VERSION);
    body.Extend(t.daemonKey);
    body.Extend(t.nodeId);
    body.Extend(secret);
    assert body.bytes == [VERSION] + t.daemonKey + t.nodeId + secret;
    var hints := WriteHints(os, t);
    var len := if |hints.bytes| <= U16_MAX then |hints.bytes| else 0;
    var kept := hints.bytes[..len];
    assert kept == Fitting(Blob(os, t));
    body.Extend(BigEndian(len, 2));
    body.Extend(kept);
    text := PREFIX + Base32.Encode(body.bytes);
  }

  /** What a reader holding `before` ends with once the remaining records are read. */
  function Onward(os: Platform, before: Hints, rest: Data): Result<Hints, PairingError> {
    match DecodeHints(os, rest)
    case Err(e) => Err(e)
    case Ok(more) => Ok(Merge(before, more))
  }

  method ReadHints(os: Platform, blob: Data) returns (r: Result<Hints, PairingError>)
    ensures r == DecodeHints(os, blob)
  {
    var rest, addresses, relay := blob, [], None;
    OnwardFromNothing(os, blob);
    while rest != []
      invariant DecodeHints(os, blob) == Onward(os, Hints(addresses, relay), rest)
      decreases |rest|
    {
      if |rest| < HEADER_LEN {
        return Err(BadLength);
      }
      var kind, end := rest[0], HEADER_LEN + rest[1];
      if |rest| < end {
        return Err(BadLength);
      }
      var payload := rest[HEADER_LEN..end];
      OnwardStep(os, Hints(addresses, relay), rest);
      addresses, relay := ReadRecord(os, kind, payload, addresses, relay);
      rest := rest[end..];
    }
    OnwardToNothing(os, Hints(addresses, relay));
    r := Ok(Hints(addresses, relay));
  }

  method ReadRecord(os: Platform, kind: Byte, payload: Data, before: seq<Data>, last: Option<Data>)
    returns (addresses: seq<Data>, relay: Option<Data>)
    ensures Hints(addresses, relay) == Merge(Hints(before, last), Meaning(os, kind, payload))
  {
    addresses, relay := before, last;
    if kind == IPV4 {
      if |payload| == 6 {
        addresses := addresses + [os.show4(payload)];
      }
    } else if kind == IPV6 {
      if |payload| == 18 {
        addresses := addresses + [os.show6(payload, 0)];
      }
    } else if kind == TEXT {
      if os.isText(payload) {
        addresses := addresses + [payload];
      }
    } else if kind == RELAY {
      if os.isText(payload) {
        relay := Some(payload);
      }
    }
  }

  lemma OnwardStep(os: Platform, before: Hints, rest: Data)
    requires |rest| >= HEADER_LEN && |rest| >= HEADER_LEN + rest[1]
    ensures var end := HEADER_LEN + rest[1];
            var meaning := Meaning(os, rest[0], rest[HEADER_LEN..end]);
            Onward(os, before, rest) == Onward(os, Merge(before, meaning), rest[end..])
  {
    var end := HEADER_LEN + rest[1];
    if DecodeHints(os, rest[end..]).Ok? {
      MergeAssociates(before, Meaning(os, rest[0], rest[HEADER_LEN..end]), DecodeHints(os, rest[end..]).value);
    }
  }

  lemma MergeAssociates(a: Hints, b: Hints, c: Hints)
    ensures Merge(a, Merge(b, c)) == Merge(Merge(a, b), c)
  {
    assert a.addresses + (b.addresses + c.addresses) == (a.addresses + b.addresses) + c.addresses;
  }

  lemma OnwardFromNothing(os: Platform, rest: Data)
    ensures Onward(os, Hints([], None), rest) == DecodeHints(os, rest)
  {
    if DecodeHints(os, rest).Ok? {
      var h := DecodeHints(os, rest).value;
      assert [] + h.addresses == h.addresses;
    }
  }

  lemma OnwardToNothing(os: Platform, before: Hints)
    ensures Onward(os, before, []) == Ok(before)
  {
    assert before.addresses + [] == before.addresses;
  }
}
