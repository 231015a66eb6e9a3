/**
 * The typed pairing code, read back from whatever a person types, and the window that limits
 * how often and how long anyone may try it.
 */
module PairingCode {
  import opened Common
  import opened Ticket
  import Base32

  const CODE_CHARS: nat := 8
  const WINDOW_MS: nat := 120_000
  const MAX_ATTEMPTS: nat := 3

  // ----- the code -----

  /** The platform's character tables: upper case, white space, and length in UTF-8. */
  datatype Script = Script(upper: char -> string, isSpace: char -> bool, width: char -> nat)
  {
    /** On ASCII the tables are the usual ones, and the alphabet is not white space. */
    ghost predicate Sane() {
      && (forall c: char :: c < 128 as char ==> upper(c) == [Base32.Upper(c)] && width(c) == 1)
      && (forall c: char :: Base32.CharValue(c).Some? ==> !isSpace(c))
    }
  }

  predicate Separates(script: Script, c: char) {
    script.isSpace(c) || c == '-' || c == '_'
  }

  function Clean(script: Script, input: string): string {
    if input == [] then []
    else if Separates(script, input[0]) then Clean(script, input[1..])
    else script.upper(input[0]) + Clean(script, input[1..])
  }

  function Width(script: Script, text: string): nat {
    if text == [] then 0 else script.width(text[0]) + Width(script, text[1..])
  }

  /** Every character is one the alphabet shows. */
  predicate Shows(text: string) {
    forall i :: 0 <= i < |text| ==> Base32.CharValue(text[i]).Some? && Base32.Canonical(text[i]) == text[i]
  }

  /** A code as shown: eight characters of the alphabet itself. */
  predicate Canonical(code: string) {
    |code| == CODE_CHARS && Shows(code)
  }

  function Parse(script: Script, input: string): Result<string, PairingError>
    requires script.Sane()
  {
    ParseCleaned(script, Clean(script, input))
  }

  function ParseCleaned(script: Script, cleaned: string): Result<string, PairingError>
    requires script.Sane()
  {
    if Width(script, cleaned) != CODE_CHARS then Err(BadCodeLength)
    else
      match Base32.Decode(cleaned)
      case None => Err(NotBase32)
      case Some(bytes) =>
        ReadableIsNarrow(script, cleaned);
        Base32.EightSymbols(cleaned);
        Ok(Base32.Encode(bytes)[..CODE_CHARS])
  }

  /** The code shown for a secret, from the secret's digest. */
  function FromDigest(digest: Digest): string {
    Base32.SymbolBits(digest[..5]);
    Base32.Encode(digest[..5])[..CODE_CHARS]
  }

  function Grouped(code: string): string
    requires Canonical(code)
  {
    code[..4] + "-" + code[4..]
  }

  lemma {:induction false} ReadableIsNarrow(script: Script, text: string)
    requires script.Sane() && Base32.ReadSymbols(text).Some?
    ensures Width(script, text) == |text|
  {
    if text != [] {
      ReadableIsNarrow(script, text[1..]);
    }
  }

  /** Cleaned input is accepted exactly when it is eight readable symbols; the code is how they are shown. */
  lemma ParseExactly(script: Script, cleaned: string, code: string)
    requires script.Sane()
    ensures ParseCleaned(script, cleaned) == Ok(code) <==>
            |cleaned| == CODE_CHARS && Base32.Shown(cleaned) == Some(code)
  {
    if Base32.ReadSymbols(cleaned).Some? {
      ReadableIsNarrow(script, cleaned);
      if |cleaned| == CODE_CHARS {
        Base32.EightSymbols(cleaned);
        assert Base32.Encode(Base32.Decode(cleaned).value)[..CODE_CHARS] == Base32.Shown(cleaned).value;
      }
    }
  }

  /**
   * What a person may type for a code: separators anywhere, and otherwise characters whose upper
   * case shows as the next characters of the code.
   */
  predicate Typed(script: Script, input: string, code: string) {
    if input == [] then code == []
    else if Separates(script, input[0]) then Typed(script, input[1..], code)
    else
      var u := script.upper(input[0]);
      |u| <= |code| && Base32.Shown(u) == Some(code[..|u|]) && Typed(script, input[1..], code[|u|..])
  }

  /**
   * For an ASCII character that means nothing at all if it is a dash, an underscore or white space,
   * and otherwise either case, or a confusable letter, of the next character.
   */
  lemma AsciiTyped(script: Script, c: char, rest: string, code: string)
    requires script.Sane() && c < 128 as char
    ensures Typed(script, [c] + rest, code) <==>
            if c == '-' || c == '_' || script.isSpace(c) then Typed(script, rest, code)
            else
              && code != [] && Base32.CharValue(c).Some? && Base32.Canonical(c) == code[0]
              && Typed(script, rest, code[1..])
  {
    var u := Base32.Upper(c);
    assert ([c] + rest)[1..] == rest;
    Base32.CaseDoesNotMatter(c);
    Base32.ShownStep(u, []);
    assert [u] + [] == [u] && Base32.Shown([]) == Some([]);
    if Base32.CharValue(u).Some? {
      assert [Base32.Canonical(u)] + [] == [Base32.Canonical(u)];
    }
    if code != [] {
      assert code[..1] == [code[0]];
    }
  }

  lemma {:induction false} TypedReads(script: Script, input: string, code: string)
    ensures Typed(script, input, code) <==> Base32.Shown(Clean(script, input)) == Some(code)
  {
    if input != [] {
      var c, rest := input[0], input[1..];
      if Separates(script, c) {
        TypedReads(script, rest, code);
      } else {
        var u := script.upper(c);
        Base32.ShownInParts(u, Clean(script, rest));
        if |u| <= |code| {
          TypedReads(script, rest, code[|u|..]);
          assert code == code[..|u|] + code[|u|..];
        }
      }
    }
  }

  /** Whatever is typed pairs under a code exactly when it is one of the ways to type that code. */
  lemma TypingTolerance(script: Script, input: string, code: string)
    requires script.Sane()
    ensures Parse(script, input) == Ok(code) <==> |code| == CODE_CHARS && Typed(script, input, code)
  {
    ParseExactly(script, Clean(script, input), code);
    TypedReads(script, input, code);
  }

  lemma SpelledIsCanonical(symbols: seq<nat>)
    requires |symbols| == CODE_CHARS && forall i :: 0 <= i < |symbols| ==> symbols[i] < 32
    ensures Canonical(Base32.Spell(symbols))
  {
    forall i | 0 <= i < CODE_CHARS
      ensures Base32.CharValue(Base32.Spell(symbols)[i]) == Some(symbols[i])
    {
      Base32.CharRoundTrip(symbols[i]);
    }
  }

  /** Whatever is accepted, and whatever is derived from a secret, is a code as shown. */
  lemma CodesAreCanonical(script: Script, input: string, digest: Digest)
    requires script.Sane()
    ensures Parse(script, input).Ok? ==> Canonical(Parse(script, input).value)
    ensures Canonical(FromDigest(digest))
  {
    var cleaned := Clean(script, input);
    if Parse(script, input).Ok? {
      ParseExactly(script, cleaned, Parse(script, input).value);
      SpelledIsCanonical(Base32.ReadSymbols(cleaned).value);
    }
    Base32.SymbolBits(digest[..5]);
    var symbols := Base32.Symbols(digest[..5]);
    assert |symbols| == CODE_CHARS;
    SpelledIsCanonical(symbols);
    assert Base32.Encode(digest[..5])[..CODE_CHARS] == Base32.Encode(digest[..5]);
  }

  lemma {:induction false} CodeTypesItself(script: Script, code: string)
    requires script.Sane() && Shows(code)
    ensures Typed(script, code, code)
  {
    if code != [] {
      CodeTypesItself(script, code[1..]);
      assert code == [code[0]] + code[1..];
      AsciiTyped(script, code[0], code[1..], code);
    }
  }

  lemma {:induction false} CleanInParts(script: Script, a: string, b: string)
    ensures Clean(script, a + b) == Clean(script, a) + Clean(script, b)
  {
    if a == [] {
      assert a + b == b;
    } else {
      assert (a + b)[0] == a[0] && (a + b)[1..] == a[1..] + b;
      CleanInParts(script, a[1..], b);
      if !Separates(script, a[0]) {
        var u := script.upper(a[0]);
        assert u + (Clean(script, a[1..]) + Clean(script, b)) == (u + Clean(script, a[1..])) + Clean(script, b);
      }
    }
  }

  lemma TypedInParts(script: Script, a: string, code: string, b: string, more: string)
    requires Typed(script, a, code) && Typed(script, b, more)
    ensures Typed(script, a + b, code + more)
  {
    TypedReads(script, a, code);
    TypedReads(script, b, more);
    CleanInParts(script, a, b);
    Base32.ShownInParts(Clean(script, a), Clean(script, b));
    TypedReads(script, a + b, code + more);
  }

  /** What is not a code is refused for its length first, and then for its characters. */
  lemma RefusedExactly(script: Script, input: string)
    requires script.Sane() && Parse(script, input).Err?
    ensures Parse(script, input) == Err(if Width(script, Clean(script, input)) != 8 then BadCodeLength else NotBase32)
  {
  }

  /** The code of a secret is the first five bytes of its digest, so it tells two secrets apart by them. */
  lemma CodeSpellsDigest(digest: Digest, other: Digest)
    ensures Base32.Decode(FromDigest(digest)) == Some(digest[..5])
    ensures FromDigest(digest) == FromDigest(other) <==> digest[..5] == other[..5]
  {
    WholeCode(digest);
    WholeCode(other);
    Base32.RoundTrip(digest[..5]);
    Base32.RoundTrip(other[..5]);
  }

  lemma WholeCode(digest: Digest)
    ensures FromDigest(digest) == Base32.Encode(digest[..5])
  {
    Base32.SymbolBits(digest[..5]);
    assert |Base32.Encode(digest[..5])| == CODE_CHARS;
  }

  lemma DashTypesNothing(script: Script, rest: string, code: string)
    requires Typed(script, rest, code)
    ensures Typed(script, "-" + rest, code)
  {
    assert ("-" + rest)[1..] == rest;
  }

  lemma HyphenatedTypes(script: Script, left: string, right: string)
    requires script.Sane() && Shows(left) && Shows(right)
    ensures Typed(script, left + ("-" + right), left + right)
  {
    CodeTypesItself(script, left);
    CodeTypesItself(script, right);
    DashTypesNothing(script, right, right);
    TypedInParts(script, left, left, "-" + right, right);
  }

  lemma ShownHalves(code: string)
    requires Canonical(code)
    ensures Shows(code[..4]) && Shows(code[4..])
    ensures code[..4] + code[4..] == code && Grouped(code) == code[..4] + ("-" + code[4..])
  {
    assert forall i :: 0 <= i < |code[4..]| ==> code[4..][i] == code[i + 4];
  }

  /** A code typed the way it is displayed is that code. */
  lemma DisplayedCodeParses(script: Script, code: string)
    requires script.Sane() && Canonical(code)
    ensures Parse(script, Grouped(code)) == Ok(code)
    ensures |Grouped(code)| == 9 && Grouped(code)[4] == '-'
  {
    ShownHalves(code);
    HyphenatedTypes(script, code[..4], code[4..]);
    TypingTolerance(script, Grouped(code), code);
  }

  // ----- the window -----

  datatype Window = Window(openedAt: U64, attempts: nat, consumed: bool)

  datatype Event = Attempt(now: U64) | Consume

  function Opened(now: U64): Window {
    Window(now, 0, false)
  }

  /** Whether an attempt at this time may proceed; a clock behind the opening reads as no time passed. */
  predicate IsOpen(w: Window, now: U64) {
    !w.consumed && w.attempts < MAX_ATTEMPTS && SatSub(now, w.openedAt) <= WINDOW_MS
  }

  function Next(w: Window, e: Event): Window {
    match e
    case Attempt(now) => if IsOpen(w, now) then w.(attempts := w.attempts + 1) else w
    case Consume => w.(consumed := true)
  }

  function AfterEvents(w: Window, events: seq<Event>): Window {
    if events == [] then w else Next(AfterEvents(w, events[..|events| - 1]), events[|events| - 1])
  }

  predicate AcceptedAt(openedAt: U64, events: seq<Event>, i: nat)
    requires i < |events|
  {
    events[i].Attempt? && IsOpen(AfterEvents(Opened(openedAt), events[..i]), events[i].now)
  }

  /** The positions of the attempts that were allowed. */
  function Accepted(openedAt: U64, events: seq<Event>): set<nat> {
    set i: nat | i < |events| && AcceptedAt(openedAt, events, i)
  }

  class PairingWindow {
    var openedAt: U64
    var attempts: nat
    var consumed: bool

    function State(): Window
      reads this
    {
      Window(openedAt, attempts, consumed)
    }

    constructor (now: U64)
      ensures State() == Opened(now)
    {
      openedAt, attempts, consumed := now, 0, false;
    }

    method TryAttempt(now: U64) returns (r: Result<(), PairingError>)
      modifies this
      ensures State() == Next(old(State()), Attempt(now))
      ensures r == if old(IsOpen(State(), now)) then Ok(()) else Err(Expired)
    {
      var elapsed := SatSub(now, openedAt);
      if consumed || attempts >= MAX_ATTEMPTS || elapsed > WINDOW_MS {
        return Err(Expired);
      }
      attempts := attempts + 1;
      r := Ok(());
    }

    method Use()
      modifies this
      ensures State() == Next(old(State()), Consume)
    {
      consumed := true;
    }
  }

  lemma {:induction false} WindowState(openedAt: U64, events: seq<Event>)
    ensures var w := AfterEvents(Opened(openedAt), events);
            && w.openedAt == openedAt
            && w.attempts == |Accepted(openedAt, events)| <= MAX_ATTEMPTS
            && (w.consumed <==> Consume in events)
  {
    if events == [] {
      assert Accepted(openedAt, events) == {};
    } else {
      var n := |events| - 1;
      var earlier := events[..n];
      WindowState(openedAt, earlier);
      assert events == earlier + [events[n]];
      AcceptedBefore(openedAt, events);
    }
  }

  lemma AcceptedBefore(openedAt: U64, events: seq<Event>)
    requires events != []
    ensures var n := |events| - 1;
            Accepted(openedAt, events) ==
            Accepted(openedAt, events[..n]) + (if AcceptedAt(openedAt, events, n) then {n} else {})
  {
    var n := |events| - 1;
    forall i: nat | i < n
      ensures AcceptedAt(openedAt, events, i) == AcceptedAt(openedAt, events[..n], i)
    {
      assert events[..n][..i] == events[..i];
    }
  }

  /**
   * Over any run at most three attempts are allowed; one is allowed exactly when fewer than
   * three were before it, the ticket was not used before it, and 120 s have not passed.
   */
  lemma WindowLimits(openedAt: U64, events: seq<Event>, i: nat)
    requires i < |events| && events[i].Attempt?
    ensures |Accepted(openedAt, events)| <= 3
    ensures AcceptedAt(openedAt, events, i) <==>
            && |Accepted(openedAt, events[..i])| < 3
            && Consume !in events[..i]
            && events[i].now <= openedAt + 120_000
  {
    WindowState(openedAt, events);
    WindowState(openedAt, events[..i]);
  }
}
