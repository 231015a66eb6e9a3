/** The ticket on the wire, byte by byte, and which texts are tickets at all. */
module TicketWire {
  import opened Common
  import opened Bytes
  import opened Ticket
  import opened TicketLaws
  import Base32

  // ----- the layout -----

  lemma TwoBytes(b: Data)
    requires |b| == 2
    ensures FromBigEndian(b) == Number16(b[0], b[1])
  {
    assert FromBigEndian(b[..1][..0]) == 0;
    assert FromBigEndian(b[..1]) == b[0];
  }

  function Number16(high: nat, low: nat): nat {
    high * 256 + low
  }

  /** A version, two keys, the secret, a length, and that many bytes of hints. */
  predicate LaidOut(body: Data, t: PairingTicket, secret: Key32, hints: Data) {
    && |body| >= 99 && body[0] == 2
    && body[1..33] == t.daemonKey && body[33..65] == t.nodeId && body[65..97] == secret
    && Number16(body[97], body[98]) == |hints| && body[99..] == hints
  }

  /** The text is the scheme and the body; hints that are too long together are left out. */
  lemma WireLayout(os: Platform, t: PairingTicket, secret: Key32)
    ensures var body := Body(os, t, secret);
            && Encode(os, t, secret) == "gonomad1:" + Base32.Encode(body)
            && LaidOut(body, t, secret, if |Blob(os, t)| <= 65535 then Blob(os, t) else [])
  {
    var body, blob := Body(os, t, secret), Fitting(Blob(os, t));
    LayoutFields(t, secret, blob);
    TwoBytes(body[97..99]);
  }

  /** A hint is packed as an address when that loses none of its text, a zone apart, and else kept as text. */
  lemma HintOnTheWire(os: Platform, hint: Data)
    requires os.Sane()
    ensures HintRecord(os, hint) ==
            match os.parse(hint)
            case V4(raw) => if os.show4(raw) == hint then [1, 6] + raw else AsText(hint)
            case V6(raw, zone) => if os.show6(raw, zone) == hint then [2, 18] + raw else AsText(hint)
            case NotAnAddress => AsText(hint)
  {
  }

  function AsText(hint: Data): Data {
    if |hint| <= 255 then [3, |hint|] + hint else []
  }

  /** The relay comes last, under its own kind. */
  lemma BlobOnTheWire(os: Platform, t: PairingTicket)
    ensures t.relayHint == None ==> Blob(os, t) == HintRecords(os, t.addrHints)
    ensures t.relayHint.Some? ==>
              Blob(os, t) == HintRecords(os, t.addrHints) +
                (if |t.relayHint.value| <= 255 then [4, |t.relayHint.value|] + t.relayHint.value else [])
  {
    assert HintRecords(os, t.addrHints) + [] == HintRecords(os, t.addrHints);
  }

  // ----- reading -----

  /** Records of the right kind but the wrong size, or that are not text, are skipped; the later relay wins. */
  lemma OddRecords(os: Platform, kind: Byte, payload: Data, relay: Data, later: Data)
    requires |payload| <= 255 && |relay| <= 255 && |later| <= 255 && os.isText(relay) && os.isText(later)
    ensures kind == 1 && |payload| != 6 ==> DecodeHints(os, Record(kind, payload)) == Ok(Hints([], None))
    ensures kind == 2 && |payload| != 18 ==> DecodeHints(os, Record(kind, payload)) == Ok(Hints([], None))
    ensures kind in {3, 4} && !os.isText(payload) ==> DecodeHints(os, Record(kind, payload)) == Ok(Hints([], None))
    ensures kind !in {1, 2, 3, 4} ==> DecodeHints(os, Record(kind, payload)) == Ok(Hints([], None))
    ensures DecodeHints(os, Record(4, relay) + Record(4, later)) == Ok(Hints([], Some(later)))
  {
    OneRecord(os, kind, payload);
    OneRecord(os, 4, relay);
    OneRecord(os, 4, later);
    RecordsThenMore(os, Record(4, relay), Record(4, later));
  }

  lemma {:induction false} HintErrors(os: Platform, blob: Data)
    ensures DecodeHints(os, blob).Err? ==> DecodeHints(os, blob) == Err(BadLength)
    decreases |blob|
  {
    if |blob| >= HEADER_LEN && |blob| >= HEADER_LEN + blob[1] {
      HintErrors(os, blob[HEADER_LEN + blob[1]..]);
    }
  }

  lemma Reassembled(body: Data)
    requires |body| >= 99
    ensures body == [body[0]] + body[1..33] + body[33..65] + body[65..97] + body[97..99] + body[99..]
  {
  }

  /** A body is a ticket exactly when it is the layout of its keys, its secret and hints that can be read. */
  lemma BodyExactly(os: Platform, body: Data, t: PairingTicket, secret: Key32)
    ensures DecodeBody(os, body) == Ok(Scanned(t, secret)) <==>
            exists blob: Data :: Lays(os, body, t, secret, blob)
  {
    if DecodeBody(os, body) == Ok(Scanned(t, secret)) {
      FromBigEndianRoundTrip(body[97..99]);
      Widths();
      Reassembled(body);
      assert Lays(os, body, t, secret, body[99..]);
    } else if blob: Data :| Lays(os, body, t, secret, blob) {
      LayoutFields(t, secret, blob);
    }
  }

  predicate Lays(os: Platform, body: Data, t: PairingTicket, secret: Key32, blob: Data) {
    |blob| <= 65535 && body == Layout(t, secret, blob) && DecodeHints(os, blob) == Ok(Hints(t.addrHints, t.relayHint))
  }

  /** Why a text is no ticket, first reason first: the scheme, the symbols, the version, some length. */
  lemma RefusedExactly(os: Platform, payload: string)
    ensures var r := Decode(os, payload);
            if !("gonomad1:" <= payload) then r == Err(WrongScheme)
            else match Base32.Decode(payload[9..])
              case None => r == Err(NotBase32)
              case Some(body) =>
                if body == [] then r == Err(BadLength)
                else if body[0] != 2 then r == Err(UnsupportedVersion(body[0]))
                else r == Err(BadLength) || (r.Ok? && r == DecodeBody(os, body))
  {
    if "gonomad1:" <= payload && Base32.Decode(payload[9..]).Some? {
      var body := Base32.Decode(payload[9..]).value;
      if |body| >= 99 {
        HintErrors(os, body[99..]);
      }
    }
  }
}
