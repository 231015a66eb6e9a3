# GoNomad, modelled and proved

GoNomad lets a phone work on a developer's machine. Its daemon decides, for every request of a
paired device, whether it may run; its client keeps many requests in flight over one stream. This
project models that decision logic in Dafny and proves what it promises, over all inputs, all runs
and all interleavings. `dafny verify dfyconfig.toml` checks it.

Each component has a file that says what the code does (specification functions, and the source's
loops and mutating objects as methods and classes proved against them) and files that prove what
follows.

| files | component |
|---|---|
| `RateLimit`, `RateBounds`, `RateBursts`, `RateLedger`, `RateAnswers`, `RateCeilings`, `RateIsolation` | the token-bucket limiter: one call, at most what is admitted over windows, at least what is, what is held, what each call is answered, which ceilings bind, devices apart |
| `FileTree`, `PathGuard`, `PathSyntax`, `PathSafety` | an operating system resolving paths with symbolic links; the path guard; what it refuses and why; what its approval is worth |
| `Bytes`, `Cbor`, `CborCanonical`, `CborDuplicates` | byte strings; the canonical CBOR encoder of the audit log; a reader, and canonicity (section 4.2.1 of RFC 8949); repeated keys |
| `Base32`, `Base32Reading`, `Ticket`, `TicketLaws`, `TicketWire`, `PairingCode` | Crockford base32 as bits, and as digits of a number; the QR ticket; what survives it; its bytes; the typed code and the attempt window |
| `Frame` | the length-prefixed frame codec |
| `Correlation`, `CorrelationOutcomes`, `Pollers` | the client's pending requests, what each returns and when, and screen pollers, as interleaved steps |
| `Engine`, `EngineRefusals` | the composed authorization decision and the listing filter; which refusal is given and what a signature covers |
| `Router`, `RouterAnswers`, `PairingGate`, `PairingRun` | request routing and the connection loop; what each request is answered; the pairing gate; one pairing window over many connections |
| `Revocation` | accepting, registering, serving and sweeping connections against revocation |
| `Common` | options, results, numbers |

Time, randomness, digests, the platform's address, UTF-8 and character tables, CBOR of parameters
and results, glob matching and the services behind a method are parameters: the results hold for
any of them, under the stated sanity conditions. Clock readings are an input of each call.

## Where the code does something else than it says

Each is proved with a case, and with the exact condition under which the stated intent holds.

- An IPv6 hint with a zone is packed without it, so a ticket does not give it back
  (`TicketLaws.LinkLocalHintChanges`, `TicketLaws.UnchangedExactly`).
- A listing is said to drop entries outside every root because a link can point anywhere, but it
  judges an entry by its own path, not by where a link leads: a link out of a root is listed though
  it may not be read (`Engine.LinksOutAreListed`, `Engine.ListedIsReadable`).
- `hidden_count` is not how many entries `filter_listing` hides: entries outside the roots are
  dropped but not counted (`Engine.HiddenCountMissesOutsiders`, `Engine.HiddenCountExactly`).
- Not every request in flight is woken when the stream ends: one that registers afterwards waits
  for its own deadline (`Correlation.LateRequestsWait`, `Correlation.TheEndWakesAllBefore`).
- Forgetting a device lifts the ceiling on the slots it still holds, for every class with a budget
  per device (`RateCeilings.ForgettingLiftsTheCeiling`, `RateCeilings.CeilingBindsExactly`,
  `RateLedger.SlotsExactExactly`).
- `resolve_in_root` may answer from another root, unless every root lies below the one it is given
  (`PathSafety.AnotherRootMayAnswer`, `PathSafety.NamedRootBoundsExactly`).
- A pairing window is not single-use. A connection that fails after it recorded its peer reports
  only the failure, so the window stays open: a second device may be recorded, or the window may be
  said to have expired before any registered (`PairingRun.TwoInOneWindow`,
  `PairingGate.LostReplyHidesTheDevice`). More than one is recorded exactly when such a failure is
  followed by another recording, and the caller is told of all exactly when there is no such failure
  (`PairingRun.SingleUseExactly`, `PairingRun.ToldOfAllExactly`); which connections those are can be
  read off their messages (`PairingGate.RecordedExactly`).
- A sweep may close a device that was paired after it read the list, and miss a handshake not yet
  registered when it acts (`Revocation.FreshDeviceMayBeSwept`, `Revocation.UnregisteredSlipsPast`,
  `Revocation.SweepClosesExactly`, `Revocation.SweptClear`).
- A poller that saw its terminal exit may remove its successor from the map. Closing no longer
  reaches the successor, which ends by itself once it sees the exit
  (`Pollers.SuccessorMayBeForgotten`, `Pollers.TrackedExactly`, `Pollers.EvictedEndsByItself`).

Two more results are about inputs the code as it stands cannot meet, and bound what a change could
bring. For a rate that does not divide its period the advertised wait would be short, by less than
a nanosecond (`RateBounds.WaitCanBeShort`, `RateBounds.AdvertisedWaitIsAlmostExact`), but every rate
in the table divides its period (`RateBounds.RatesDividePeriods`). And were the answer to a
registration not to encode, the peer would hold a grant recorded nowhere
(`PairingGate.UnencodedGrantIsNotRecorded`, `PairingGate.GrantedExactlyWhenRecorded`).

## Model

| member | source | states |
|---|---|---|
| RateLimit.RateLimiter.Track | crates/gonomad-policy/src/rate_limit.rs:634-642 | a bucket is opened full at the first reading that needs it and otherwise kept |
| RateLimit.RateLimiter.TryAcquire | crates/gonomad-policy/src/rate_limit.rs:652-675 | the new buckets and the answer are those of the specification step |
| RateLimit.RateLimiter.TryAcquireSlot | crates/gonomad-policy/src/rate_limit.rs:686-706 | as above: ceiling checked, then a token taken, then the slot counted |
| RateLimit.RateLimiter.ReleaseSlot | crates/gonomad-policy/src/rate_limit.rs:711-716 | as above, saturating at zero, nothing for a forgotten bucket |
| RateLimit.RateLimiter.ReserveBytes | crates/gonomad-policy/src/rate_limit.rs:759-784 | as above, in saturating 64-bit arithmetic |
| RateLimit.RateLimiter.ReturnBytes | crates/gonomad-policy/src/rate_limit.rs:787-792 | as above |
| RateLimit.RateLimiter.ResetBudget | crates/gonomad-policy/src/rate_limit.rs:807-813 | as above |
| RateLimit.RateLimiter.ForgetDevice | crates/gonomad-policy/src/rate_limit.rs:821-824 | as above: every bucket of the device goes, no other |
| RateBounds.CreditBounds | crates/gonomad-policy/src/rate_limit.rs:535-558 | truncating, saturating 128-bit arithmetic restores no unit too many and, short of a whole token, loses less than one |
| RateBounds.RefillHasEffect | crates/gonomad-policy/src/rate_limit.rs:535-558 | a refill invents no credit, leaves under one unit unaccounted, and keeps more than half of what its moved mark was worth |
| RateBounds.AccountCharged | crates/gonomad-policy/src/rate_limit.rs:535-567 | refilling creates no credit and a token taken is paid for in full |
| RateBounds.StepSpares | crates/gonomad-policy/src/rate_limit.rs:634-792 | a call charged to another bucket leaves this one's tokens and mark alone |
| RateBounds.StepMoves | crates/gonomad-policy/src/rate_limit.rs:634-792 | everything one call can do to one bucket's account, opened during the call or not |
| RateBounds.BalanceRun | crates/gonomad-policy/src/rate_limit.rs:535-675 | over any run, admissions are paid for by the starting balance and the rate |
| RateBounds.WindowBound | crates/gonomad-policy/src/rate_limit.rs:535-675 | after any history, admissions in a window stay within burst, rate times length and less than one fixed-point unit |
| RateBounds.BoundFromCreation | crates/gonomad-policy/src/rate_limit.rs:535-675 | counted from the bucket's creation there is no slack at all |
| RateBounds.ProgressRun | crates/gonomad-policy/src/rate_limit.rs:535-558 | over any run without admission a bucket gains more than half of what time was worth, though refills discard fractions |
| RateBounds.PollingCostsAtMostDouble | crates/gonomad-policy/src/rate_limit.rs:535-582 | after twice the deficit's time an attempt is admitted, whatever the polling in between |
| RateBounds.Refused | crates/gonomad-policy/src/rate_limit.rs:571-582 | a refusal means less than one token, under one unit unaccounted, and reports the wait of that deficit |
| RateBounds.AdvertisedWaitSuffices | crates/gonomad-policy/src/rate_limit.rs:354-582 | for every class of the table, waiting as long as the refusal says is enough |
| RateBounds.AdvertisedWaitIsAlmostExact | crates/gonomad-policy/src/rate_limit.rs:571-582 | for any rate, one nanosecond more is enough |
| RateBounds.WaitCanBeShort | crates/gonomad-policy/src/rate_limit.rs:571-582 | that nanosecond is needed for a rate, in no class of the table, that does not divide its period |
| RateBounds.RatesDividePeriods | crates/gonomad-policy/src/rate_limit.rs:354-443 | each row's units divide its period, and no wait saturates |
| RateBursts.RefillExactly | crates/gonomad-policy/src/rate_limit.rs:535-558 | a refill restores exactly what the time is worth, rounded down to a unit, up to a full bucket |
| RateBursts.BurstFromCreation | crates/gonomad-policy/src/rate_limit.rs:522-567 | a bucket not yet opened admits, at one reading, exactly its burst, and refuses the next call |
| RateBursts.BurstAfterReset | crates/gonomad-policy/src/rate_limit.rs:807-813 | so does one reset and not charged since |
| RateBursts.BurstAfterForgetting | crates/gonomad-policy/src/rate_limit.rs:821-824 | so does one whose device was forgotten |
| RateBursts.BurstAfterRest | crates/gonomad-policy/src/rate_limit.rs:535-567 | so does one left alone for the time a burst takes to restore |
| RateBursts.SteadyUseIsAdmitted | crates/gonomad-policy/src/rate_limit.rs:535-675 | calls spaced a token's time apart are all admitted, after any history |
| RateBursts.AdvertisedWaitIsNotTooLong | crates/gonomad-policy/src/rate_limit.rs:571-582 | the reported wait is at most a millisecond and a unit's time longer than needed |
| RateAnswers.TokenAnswersExactly | crates/gonomad-policy/src/rate_limit.rs:652-675 | a token is had exactly when a whole one is there; a refusal is to wait where there is a rate, and exhaustion where not |
| RateAnswers.SlotAnswersExactly | crates/gonomad-policy/src/rate_limit.rs:686-706 | a slot is refused at the ceiling exactly when that many are held, at no cost; else its answer is a token's |
| RateAnswers.ReservationsAnsweredExactly | crates/gonomad-policy/src/rate_limit.rs:759-784 | a reservation is granted whole exactly when it fits beside what is lent |
| RateAnswers.RatesAsDocumented | crates/gonomad-policy/src/rate_limit.rs:342-443 | over n periods at most n + 1 times the number section 3.8 of ARCHITECTURE.md gives |
| RateAnswers.BurstsAsDocumented | ARCHITECTURE.md:364-383 | that number is admitted at once, and no more |
| RateAnswers.UnratedAsDocumented | ARCHITECTURE.md:364-383 | a class without a documented rate or cap has none |
| RateAnswers.CapsAsDocumented | ARCHITECTURE.md:364-383 | the documented caps hold where no holder is forgotten, and 64 MiB of buffer always |
| RateAnswers.CapsAreReached | ARCHITECTURE.md:364-383 | up to the documented caps slots and bytes are given |
| RateAnswers.SharedBudgets | crates/gonomad-policy/src/rate_limit.rs:340-349 | two devices share a budget exactly for pairing and the send buffer |
| RateLedger.BytesConserved | crates/gonomad-policy/src/rate_limit.rs:759-792 | bytes in flight are the sum of outstanding reservations, within the ceiling, through every run |
| RateLedger.SlotsNeverOvercounted | crates/gonomad-policy/src/rate_limit.rs:686-716 | a counter is at most the slots outstanding and at most its ceiling, through every run |
| RateLedger.SlotsExactExactly | crates/gonomad-policy/src/rate_limit.rs:686-824 | a counter stays exact through a run exactly when no device is forgotten while it holds that slot |
| RateLedger.SlotsConserved | crates/gonomad-policy/src/rate_limit.rs:686-824 | all counters stay exact exactly when no device is forgotten while it holds any |
| RateLedger.CeilingHolds | crates/gonomad-policy/src/rate_limit.rs:686-824 | then the ceiling bounds the real holders |
| RateLedger.LedgerBalances | crates/gonomad-policy/src/rate_limit.rs:686-824 | the three from an empty limiter |
| RateCeilings.ForgettingLiftsTheCeiling | crates/gonomad-policy/src/rate_limit.rs:821-824 | for every class with a budget per device and a ceiling, a timely run holds one slot more than it |
| RateCeilings.CeilingBindsExactly | crates/gonomad-policy/src/rate_limit.rs:342-443 | a ceiling binds in every run exactly when its class is shared by all devices |
| RateIsolation.DevicesAreIsolated | crates/gonomad-policy/src/rate_limit.rs:627-824 | erasing all other devices' calls changes no answer a device gets |
| FileTree.WalkLandsOnReal | crates/gonomad-policy/src/path_guard.rs:858-894 | canonicalisation ends on an entry that is no link, below directories |
| FileTree.RealIsCanonical | crates/gonomad-policy/src/path_guard.rs:858-894 | such an entry resolves to itself without following a link |
| FileTree.WalkIntoMissing | crates/gonomad-policy/src/path_guard.rs:858-894 | a name missing below an existing directory is missing however the rest continues |
| FileTree.WalkHere | crates/gonomad-policy/src/path_guard.rs:858-894 | a trailing slash or dot changes the answer exactly where there is something other than a directory |
| PathGuard.IsWithin | crates/gonomad-policy/src/path_guard.rs:747-764 | containment is component-wise prefix |
| PathGuard.CheckSyntaxLoop | crates/gonomad-policy/src/path_guard.rs:767-835 | the loop reports the first refusal in the source's order, counting the root as a component |
| PathGuard.CanonicaliseDeepestAncestor | crates/gonomad-policy/src/path_guard.rs:858-905 | the bounded search equals the unbounded one and never runs into its bound |
| PathGuard.ResolvePath | crates/gonomad-policy/src/path_guard.rs:646-683 | the loops together compute the specified decision |
| PathSyntax.PieceRead | crates/gonomad-policy/src/path_guard.rs:767-835 | how each piece of a path between slashes is read |
| PathSyntax.SyntaxExactly | crates/gonomad-policy/src/path_guard.rs:767-835 | a text passes exactly when it is UTF-8, has no zero, at most 4096 bytes, a leading slash, at most 256 components and good names; else the first reason in order is given |
| PathSyntax.ApprovedIsWellSpelled | crates/gonomad-policy/src/path_guard.rs:646-683 | an approved request is well spelled, and is answered with the first root that contains it |
| PathSyntax.RefusedExactly | crates/gonomad-policy/src/path_guard.rs:646-702 | every refusal exactly: a well-spelled request is never refused for its spelling, nor the reverse |
| PathSafety.DeepestExactly | crates/gonomad-policy/src/path_guard.rs:858-905 | the search succeeds with an ancestor and tail exactly when they split the path where existence ends and the tail has no link and no `..` |
| PathSafety.ApprovedPathsAreLinkFree | crates/gonomad-policy/src/path_guard.rs:646-683 | an approved path is in a root and means itself to a system following no links; a missing one can be created there and nothing else changes |
| PathSafety.ExistingPathsResolve | crates/gonomad-policy/src/path_guard.rs:646-702 | a path that exists as it is spelled is approved, as its canonical form, exactly when a root contains that form |
| PathSafety.TrailingSlash | crates/gonomad-policy/src/path_guard.rs:858-894 | a trailing slash changes nothing after a directory and is refused after anything else |
| PathSafety.MissingPathsResolve | crates/gonomad-policy/src/path_guard.rs:646-702 | a missing path is approved exactly when a root contains where it would be created |
| PathSafety.ResolvingAgainChangesNothing | crates/gonomad-policy/src/path_guard.rs:646-683 | resolving a result again gives the same path, root and existence |
| PathSafety.TraversalNeverSurvives | crates/gonomad-policy/src/path_guard.rs:858-894 | `..` out of something missing is refused |
| PathSafety.RelativeRequests | crates/gonomad-policy/src/path_guard.rs:718-737 | a relative request is the root's components then its own; an absolute one is refused |
| PathSafety.AnotherRootMayAnswer | crates/gonomad-policy/src/path_guard.rs:718-737 | any configured root outside the named one can be made to answer |
| PathSafety.NamedRootBoundsExactly | crates/gonomad-policy/src/path_guard.rs:718-737 | the named root bounds every answer exactly when every configured root lies below it, as soon as one name passes the syntax check below it |
| Cbor.WriteHead | crates/gonomad-store/src/canonical.rs:56-88 | the branches append exactly the specified head |
| Cbor.WriteItem | crates/gonomad-store/src/canonical.rs:100-124 | an item is appended as specified, without overflow down to the least 64-bit integer |
| Cbor.WriteMap | crates/gonomad-store/src/canonical.rs:132-155 | fields are encoded apart, sorted stably by encoded key, and concatenated behind their count |
| CborCanonical.HeadIsShortest | crates/gonomad-store/src/canonical.rs:56-88 | any legal head saying the same is longer or identical |
| CborCanonical.HeadsKeepOrder | crates/gonomad-store/src/canonical.rs:56-88 | a larger argument has a longer or bytewise larger head |
| CborCanonical.TextKeysSortByLengthThenBytes | crates/gonomad-store/src/canonical.rs:132-155 | bytewise order of encoded text keys is length, then bytes |
| CborCanonical.ItemRoundTrip | crates/gonomad-store/src/canonical.rs:100-124 | reading an encoded item gives it back and leaves what followed |
| CborCanonical.EncodeIsInjective | crates/gonomad-store/src/canonical.rs:100-124 | items encode alike exactly when equal up to the type of a non-negative integer |
| CborCanonical.MapRoundTrip | crates/gonomad-store/src/canonical.rs:132-155 | a map reads back as its sorted fields |
| CborCanonical.MapIsMajorFive | crates/gonomad-store/src/canonical.rs:149-155 | a map has major type 5 and the number of its fields, which follow |
| CborCanonical.EmptyMap | crates/gonomad-store/src/canonical.rs:149-155 | the empty map is the one byte of RFC 8949 |
| CborCanonical.MapIsInjective | crates/gonomad-store/src/canonical.rs:132-155 | equal bytes hold the same fields, duplicates included |
| CborCanonical.MapIgnoresOrder | crates/gonomad-store/src/canonical.rs:132-155 | with distinct keys any permutation gives the same bytes |
| CborCanonical.EncodingIsCanonical | crates/gonomad-store/src/canonical.rs:132-155 | both directions: equal bytes exactly for the same fields |
| CborDuplicates.EncodedAlikeExactly | crates/gonomad-store/src/canonical.rs:132-155 | any two field lists, keys repeated or not, give the same bytes exactly when every key has the same values in the same order |
| CborDuplicates.ValuesKeepOrder | crates/gonomad-store/src/canonical.rs:141 | the values under one key keep their order, so with the next row the bytes are determined |
| CborDuplicates.KeysAscend | crates/gonomad-store/src/canonical.rs:141 | the keys on the wire ascend by length and then bytes |
| CborDuplicates.DuplicateKeysKeepOrder | crates/gonomad-store/src/canonical.rs:132-155 | two different values under one key are told apart by their order |
| Base32.RoundTrip | crates/gonomad-core/src/pairing.rs:66-73 | decoding an encoding gives the bytes back |
| Base32.OnlyOneSpelling | crates/gonomad-core/src/pairing.rs:66-73 | symbols decode to given bytes exactly when they are their encoding |
| Base32Reading.SymbolsSpellTheNumber | crates/gonomad-core/src/pairing.rs:66-73 | the symbols are the base-32 digits, most significant first, of the number the bytes spell |
| Base32Reading.AlphabetIsShown | crates/gonomad-core/src/pairing.rs:66-69 | the symbols are shown in Crockford's alphabet |
| Base32Reading.ReadExactly | crates/gonomad-core/src/pairing.rs:66-73 | which characters are read as which symbol |
| Base32Reading.DecodesExactly | crates/gonomad-core/src/pairing.rs:66-73 | text decodes to bytes exactly when it is shown as their encoding |
| Base32.Truncated | crates/gonomad-core/src/pairing.rs:66-73 | a text cut short is refused or gives a strictly shorter, nonempty beginning |
| Ticket.PushHint | crates/gonomad-core/src/pairing.rs:350-358 | one record, or nothing if too long |
| Ticket.WriteHints | crates/gonomad-core/src/pairing.rs:246-273 | the loop writes the specified records |
| Ticket.WriteTicket | crates/gonomad-core/src/pairing.rs:227-243 | the text is the specified layout in base32 behind the prefix |
| Ticket.ReadHints | crates/gonomad-core/src/pairing.rs:365-418 | the loop reads what the recursive reader reads, errors included |
| TicketLaws.RecordsThenMore | crates/gonomad-core/src/pairing.rs:365-418 | whole records and what follows are read independently |
| TicketLaws.RoundTrip | crates/gonomad-core/src/pairing.rs:227-418 | both keys, the secret, hints in order and relay come back, minus hints over 255 bytes and zones, or with no hints if the blob is over 65535 bytes |
| TicketWire.WireLayout | crates/gonomad-core/src/pairing.rs:227-251 | the scheme, then in base32 the version, both keys, the secret, a length and the hints, at their offsets |
| TicketWire.HintOnTheWire | crates/gonomad-core/src/pairing.rs:253-273 | a hint is packed as six or eighteen octets exactly when that renders back to it, and else kept as text |
| TicketWire.BlobOnTheWire | crates/gonomad-core/src/pairing.rs:253-282 | the relay comes last under its own kind |
| TicketWire.BodyExactly | crates/gonomad-core/src/pairing.rs:284-323 | a body is a ticket exactly when it is such a layout with hints that can be read |
| TicketWire.RefusedExactly | crates/gonomad-core/src/pairing.rs:284-323 | why a text is refused: scheme, symbols, version, lengths, in that order |
| TicketWire.OddRecords | crates/gonomad-core/src/pairing.rs:376-421 | records of the wrong size, not text or of unknown kind give nothing; the later relay wins |
| TicketLaws.UnchangedExactly | crates/gonomad-core/src/pairing.rs:227-418 | a ticket comes back unchanged exactly when nothing is too long and no hint has a packed zone |
| TicketLaws.ZoneIsLost | crates/gonomad-core/src/pairing.rs:260-265 | a scanner sees another hint exactly when it has a packed zone |
| TicketLaws.LinkLocalHintChanges | crates/gonomad-core/src/pairing.rs:246-400 | `[fe80::1%5]:80` comes back without its zone, on any platform that reads and writes it so |
| TicketLaws.TruncationIsCaught | crates/gonomad-core/src/pairing.rs:284-323 | every strict beginning of a ticket is refused |
| TicketLaws.OtherVersionsAreNamed | crates/gonomad-core/src/pairing.rs:293-304 | another version is reported as such at any length |
| TicketLaws.UnknownKindsAreSkipped | crates/gonomad-core/src/pairing.rs:384-416 | a record of unknown kind between whole records changes nothing |
| TicketLaws.OverrunIsRefused | crates/gonomad-core/src/pairing.rs:369-381 | a record claiming more than remains refuses the list |
| PairingCode.ParseExactly | crates/gonomad-core/src/pairing.rs:455-475 | cleaned input is a code exactly when it is eight readable symbols, and is normalised |
| PairingCode.TypingTolerance | crates/gonomad-core/src/pairing.rs:455-475 | any input parses to a code exactly when it types that code: separators anywhere, the rest shown alike in upper case |
| PairingCode.AsciiTyped | crates/gonomad-core/src/pairing.rs:455-475 | for ASCII that is either case, or a confusable letter, of each character |
| PairingCode.RefusedExactly | crates/gonomad-core/src/pairing.rs:455-478 | a wrong length is reported before wrong characters |
| PairingCode.CodeSpellsDigest | crates/gonomad-core/src/pairing.rs:438-443 | the code is the first five bytes of the digest, so codes coincide exactly when those do |
| PairingCode.CodesAreCanonical | crates/gonomad-core/src/pairing.rs:438-475 | accepted and derived codes are eight characters of the alphabet as shown |
| PairingCode.DisplayedCodeParses | crates/gonomad-core/src/pairing.rs:455-482 | the grouped display parses back |
| PairingCode.PairingWindow.TryAttempt | crates/gonomad-core/src/pairing.rs:542-551 | accepted exactly when open, and then counted |
| PairingCode.PairingWindow.Use | crates/gonomad-core/src/pairing.rs:554-556 | the ticket is spent |
| PairingCode.WindowLimits | crates/gonomad-core/src/pairing.rs:542-564 | over any run at most three attempts are allowed; exactly those unspent, early and among the first three |
| Frame.EncodeTo | crates/gonomad-proto/src/frame.rs:296-308 | appends length, flags and payload to what the buffer held |
| Frame.WireLayout | crates/gonomad-proto/src/frame.rs:296-308 | four bytes of length, most significant first, the flags, the payload |
| Frame.BuildableExactly | crates/gonomad-proto/src/frame.rs:200-308 | a frame can be built up to 32 MiB and from three flag bits |
| Frame.HeaderDecides | crates/gonomad-proto/src/frame.rs:334-391 | a header over the limit is refused by both questions at once; otherwise exactly the announced bytes are waited for and taken |
| Frame.DecodeIsStable | crates/gonomad-proto/src/frame.rs:334-365 | an answer does not change when bytes are appended |
| Frame.DecodeOfEncode | crates/gonomad-proto/src/frame.rs:296-365 | a built frame decodes to itself and its length, whatever follows |
| Frame.EncodeOfDecode | crates/gonomad-proto/src/frame.rs:296-365 | what is decoded is what an encoder would have written |
| Frame.PartialFrame | crates/gonomad-proto/src/frame.rs:334-391 | a partial frame is waited for, and reads stop at its header or its end |
| Frame.CompleteFrame | crates/gonomad-proto/src/frame.rs:377-391 | nothing more is asked for a complete frame |
| Frame.NeedsAgree | crates/gonomad-proto/src/frame.rs:334-391 | the two functions agree, except that only decoding looks at flags |
| Frame.ChunksDoNotMatter | crates/gonomad-proto/src/frame.rs:334-365 | any chunking of a stream yields the frames and failure of the whole |
| Frame.FramesSurviveChunking | crates/gonomad-proto/src/frame.rs:296-365 | any chunking of encoded frames yields exactly them |
| Correlation.PendingMap.Register | crates/gonomad-ffi/src/client.rs:293-297 | inserts the sender, dropping one already there |
| Correlation.PendingMap.Take | crates/gonomad-ffi/src/client.rs:300-302 | removes and returns the sender |
| Correlation.PendingMap.Deliver | crates/gonomad-ffi/src/client.rs:305-325 | only a terminal response takes a slot, the one with its id |
| Correlation.Live.RegisterBeforeSending | crates/gonomad-ffi/src/client.rs:416-420 | the system's step: slot inserted before anything is sent |
| Correlation.Live.Withdraw | crates/gonomad-ffi/src/client.rs:421-437 | the system's step: a caller that cannot send, or waited too long, takes its slot away |
| Correlation.Live.TakeIn | crates/gonomad-ffi/src/client.rs:998-1020 | the system's step: a terminal response takes its slot, progress leaves it |
| Correlation.Live.EndStream | crates/gonomad-ffi/src/client.rs:1033-1036 | the system's step: every caller with a slot loses it and is to be woken |
| Correlation.StepKeeps | crates/gonomad-ffi/src/client.rs:287-438 | the coherence of slots, held replies, channels and phases survives every step |
| Correlation.IdsRepeatExactly | crates/gonomad-ffi/src/client.rs:415 | ids coincide exactly at distances of 2^64 requests |
| Correlation.RepliesBelong | crates/gonomad-ffi/src/client.rs:405-438 | a reply is the first terminal response with the request's id since it registered |
| CorrelationOutcomes.ReturnedExactly | crates/gonomad-ffi/src/client.rs:405-438 | each outcome is returned exactly by its own step: not sent only by failing to encode or send, timed out only by giving up |
| CorrelationOutcomes.SentIsNeverNotSent | crates/gonomad-ffi/src/client.rs:419-437 | a request that was sent is never reported as not sent |
| CorrelationOutcomes.TimeoutsWereSent | crates/gonomad-ffi/src/client.rs:426-437 | a timeout means it was sent and its deadline passed with no reply in hand |
| CorrelationOutcomes.CompletesExactly | crates/gonomad-ffi/src/client.rs:426-431 | a waiting request completes with the first terminal response since it registered, or as lost once the stream ended, or not yet |
| CorrelationOutcomes.ResponsesGetThrough | crates/gonomad-ffi/src/client.rs:998-1020 | from any state a response to a waiting request is taken in, handed over and completes it |
| CorrelationOutcomes.TheEndGetsThrough | crates/gonomad-ffi/src/client.rs:1033-1036 | from any state the end of the stream tells a waiting request so |
| CorrelationOutcomes.FirstRequestIsAnswered | crates/gonomad-ffi/src/client.rs:405-438 | a first request gets id 1, is sent, and gets its reply |
| CorrelationOutcomes.HandedReplyCompletes | crates/gonomad-ffi/src/client.rs:305-325 | a reply in the reader's hands reaches the caller that waits for it |
| Correlation.ResponsesCompleteOne | crates/gonomad-ffi/src/client.rs:305-325 | no response completes two requests |
| Correlation.ReturnsLeaveNoSlot | crates/gonomad-ffi/src/client.rs:405-438 | a slot belongs to a request under way or dropped, never to one that returned |
| Correlation.LossMeansTheStreamEnded | crates/gonomad-ffi/src/client.rs:426-437 | only the end of the stream is reported as a lost connection |
| Correlation.TheEndWakesAllBefore | crates/gonomad-ffi/src/client.rs:993-1036 | after the end a waiting request completes at once exactly when it registered before it |
| Correlation.LateRequestsWait | crates/gonomad-ffi/src/client.rs:327-343 | a later one is not woken |
| Pollers.Client.Attach | crates/gonomad-ffi/src/client.rs:845-885 | the system's step: the new task replaces the old one, which alone is aborted |
| Pollers.Client.CloseTerminal | crates/gonomad-ffi/src/client.rs:889-895 | the system's step: the terminal's task is aborted and its entry goes |
| Pollers.Client.Disconnect | crates/gonomad-ffi/src/client.rs:676-680 | the system's step: the drain aborts every task in the map, in any order |
| Pollers.Client.Finish | crates/gonomad-ffi/src/client.rs:1070-1073 | the system's step: whatever entry the terminal has goes |
| Pollers.TrackedExactly | crates/gonomad-ffi/src/client.rs:834-1075 | the map holds a polling task exactly when no other task's exit removed its entry |
| Pollers.EndsExactly | crates/gonomad-ffi/src/client.rs:1044-1075 | a task is over exactly when it fails, waits while aborted, or has left after the exit |
| Pollers.GoesOnUnlessStopped | crates/gonomad-ffi/src/client.rs:834-1075 | an attached task polls until it is replaced, closed, torn down, or ends itself; nothing done to another terminal stops it |
| Pollers.EvictedHasExited | crates/gonomad-ffi/src/client.rs:1044-1075 | that happens only once the terminal has exited |
| Pollers.EvictedEndsByItself | crates/gonomad-ffi/src/client.rs:1044-1075 | a task so evicted still ends when it sees the exit |
| Pollers.OnePollerEach | crates/gonomad-ffi/src/client.rs:834-886 | of two tasks polling one terminal one was evicted, so the terminal has exited |
| Pollers.StoppingReachesPollers | crates/gonomad-ffi/src/client.rs:676-895 | closing the terminal or the connection stops a polling task exactly when it was not evicted |
| Pollers.SuccessorMayBeForgotten | crates/gonomad-ffi/src/client.rs:1070-1073 | after an exit a successor may be left polling out of reach |
| Engine.ChallengesAreDistinct | crates/gonomad-policy/src/engine.rs:140-151 | the hashed bytes determine device, method and arguments, and conversely, at any length |
| Engine.AuthorizedExactly | crates/gonomad-policy/src/engine.rs:166-306 | authorized exactly when entitled, in a root, and entitled to secrets if it is one |
| EngineRefusals.RefusedExactly | crates/gonomad-policy/src/engine.rs:166-306 | which refusal is given, in order, and what a device is asked to sign |
| EngineRefusals.ChallengeLayout | crates/gonomad-policy/src/engine.rs:140-151 | the hashed bytes, part by part |
| EngineRefusals.NewDeviceReads | crates/gonomad-policy/src/engine.rs:281-306 | a device that just paired reads exactly what exists in a root and is no secret |
| Engine.SecretsStayShut | crates/gonomad-policy/src/engine.rs:281-306 | without the secret entitlement no spelling opens a secret: what was checked is what a link-free open reaches |
| Engine.SignaturesDoNotTransfer | crates/gonomad-policy/src/engine.rs:186-203 | for every capability, a signature over another operation is worth no more than none, so it opens nothing that needs presence, unless the two digests collide |
| Engine.NotEntitledNotTold | crates/gonomad-policy/src/engine.rs:281-298 | to a device not entitled the answer is the same for every filesystem |
| Engine.OutsideLooksMissing | crates/gonomad-policy/src/path_guard.rs:210-238 | a well-spelled path that is refused for its place is answered as missing |
| Engine.ListingSelects | crates/gonomad-policy/src/engine.rs:315-331 | a listing is exactly the visible entries in their order |
| Engine.OutsidersAreDropped | crates/gonomad-policy/src/engine.rs:315-331 | a relative entry, or one in no root, is never listed |
| Engine.SecretsLeaveNoTrace | crates/gonomad-policy/src/denylist.rs:238-249 | without `fs:secrets`, secret entries make no difference to a listing |
| Engine.ReadableExactly | crates/gonomad-policy/src/engine.rs:281-306 | without `fs:secrets`, a path however spelled may be read exactly when what it leads to would be listed |
| Engine.ListedIsReadable | crates/gonomad-policy/src/engine.rs:281-331 | an entry, link or not, is listed by its own path and read by where it leads; the two agree for all that is no link |
| Engine.LinksOutAreListed | crates/gonomad-policy/src/engine.rs:315-331 | a link to a file outside every root is listed and may not be read |
| Engine.HiddenCountExactly | crates/gonomad-policy/src/engine.rs:334-338 | the count is at most what was dropped, and equal exactly when all outsiders are counted secrets |
| Engine.HiddenCountMissesOutsiders | crates/gonomad-policy/src/denylist.rs:252-262 | the concrete shortfall |
| Router.Router.Answer | crates/gonomad-server/src/router.rs:144-156 | the response, effect and new state are the specified ones |
| Router.Router.DispatchCall | crates/gonomad-server/src/router.rs:158-203 | unknown methods, the pairing gate, late registration and capability, in that order |
| Router.Router.Register | crates/gonomad-server/src/router.rs:217-253 | digits compared, then grant and state set, then the result encoded |
| Router.ServeConnection | crates/gonomad-server/src/serve.rs:604-672 | the loop computes the specified log, and returns the registered device, nothing, or after a failure only the failure |
| RouterAnswers.EstablishedAnswers | crates/gonomad-server/src/router.rs:158-203 | a paired device gets its service's own answer, or why not, and nothing changes |
| RouterAnswers.PairingAnswers | crates/gonomad-server/src/router.rs:158-253 | what each request is answered while pairing |
| RouterAnswers.SendsWhatIsDue | crates/gonomad-server/src/serve.rs:604-672 | every connection sends exactly the answers and pongs due, in order, until it fails |
| RouterAnswers.PairedConnectionsAreAnswered | crates/gonomad-server/src/serve.rs:604-672 | on a paired connection those are the services' answers to its requests in turn |
| RouterAnswers.ServedUntilBroken | crates/gonomad-server/src/serve.rs:604-672 | it lasts to the first malformed message, lost stream or failed send, with everything due before that sent |
| RouterAnswers.SentStaysSent | crates/gonomad-server/src/serve.rs:604-672 | a later failure takes nothing back |
| RouterAnswers.DigitsInParts | crates/gonomad-server/src/router.rs:226 | whatever stands between the digits of a code does not matter |
| RouterAnswers.DigitOrNot | crates/gonomad-server/src/router.rs:226 | which characters are digits |
| RouterAnswers.PairingGrants | crates/gonomad-proto/src/capability.rs:124-198 | a new device holds exactly the capabilities that need no finger on each use |
| PairingGate.NothingBeforeTheCode | crates/gonomad-server/src/router.rs:158-253 | until the digits are presented: no grant, nothing recorded, only errors answered |
| PairingGate.TheCodeOpens | crates/gonomad-server/src/router.rs:217-253 | a pairing connection is granted exactly by a registration with the digits, and what |
| PairingGate.RecordBeforeReply | crates/gonomad-server/src/serve.rs:604-672 | at most one recording, of the peer itself, and no success for a registration before it; the caller is told of it exactly when the connection did not fail |
| PairingGate.LostReplyHidesTheDevice | crates/gonomad-server/src/serve.rs:630-649 | a registration whose reply cannot be sent is recorded and not told |
| PairingGate.RecordedExactly | crates/gonomad-server/src/serve.rs:604-672 | from the messages alone: when a connection records its peer, which device, and when it does so unknown to the caller |
| PairingRun.RunPairing | crates/gonomad-server/src/serve.rs:455-521 | the loop computes the specified verdict and recorded devices over any connections |
| PairingRun.ToldOfAllExactly | crates/gonomad-server/src/serve.rs:250-309 | what was recorded is what the caller is told, one device or none, exactly when no served connection recorded and then failed |
| PairingRun.SingleUseExactly | crates/gonomad-server/src/serve.rs:250-309 | a window records more than one device exactly when one that recorded failed and a later one recorded |
| PairingRun.TwoInOneWindow | crates/gonomad-server/src/serve.rs:304-308 | the concrete two devices, and the window said to have expired without any |
| PairingRun.NothingPastTheDeadline | crates/gonomad-server/src/serve.rs:256-262 | nothing accepted at or past the deadline is recorded, and the window has closed |
| PairingRun.FailedHandshakesCostNothing | crates/gonomad-server/src/serve.rs:264-275 | a failed handshake leaves the window as it was |
| PairingGate.PairedConnectionsRegisterNobody | crates/gonomad-server/src/router.rs:177-184 | an established connection records nobody and keeps its grant |
| PairingGate.AnswersFollowRequests | crates/gonomad-server/src/router.rs:144-156 | requests are answered once each, in order, under their ids, until failure |
| PairingGate.GrantedExactlyWhenRecorded | crates/gonomad-server/src/serve.rs:604-672 | while open, a pairing peer holds a grant exactly when it was recorded |
| PairingGate.UnencodedGrantIsNotRecorded | crates/gonomad-server/src/router.rs:236-246 | unless the result does not encode |
| PairingGate.TerminalsNeedTheCapability | crates/gonomad-server/src/router.rs:275-375 | a terminal method succeeds only with `pty:spawn` on a live grant |
| Revocation.Authorize | crates/gonomad-server/src/serve.rs:51-75 | a peer is admitted exactly when the list is readable and names it |
| Revocation.Listener.AcceptPeer | crates/gonomad-server/src/serve.rs:356-363 | the system's step: a connection exactly from an active device |
| Revocation.Listener.Enlist | crates/gonomad-server/src/serve.rs:386-400 | the system's two steps: registered, then served, so never served unregistered |
| Revocation.Listener.ReadActive | crates/gonomad-server/src/serve.rs:119-142 | the system's step, or nothing if the list cannot be read |
| Revocation.Listener.Sweep | crates/gonomad-server/src/serve.rs:144-157 | the system's step: the retain loop closes and drops as specified |
| Revocation.Listener.Forget | crates/gonomad-server/src/serve.rs:406-411 | the system's step: that handle removed, no other |
| Revocation.ServedIsRegistered | crates/gonomad-server/src/serve.rs:351-413 | every open connection being served is in the registry |
| Revocation.SweepClosesExactly | crates/gonomad-server/src/serve.rs:119-158 | of the open connections a sweep closes exactly the registered ones whose device was not active when it read |
| Revocation.ClosedExactly | crates/gonomad-server/src/serve.rs:119-413 | over any run a connection is closed exactly by its peer's end or by a sweep that met it registered and not active |
| Revocation.ConnectionMoves | crates/gonomad-server/src/serve.rs:351-413 | a connection's stages, and that nothing else changes it |
| Revocation.StandingMoves | crates/gonomad-store/src/devices.rs:78-260 | a device is active from its first pairing until it is revoked, and revoked ever after |
| Revocation.SweepKeepsExactly | crates/gonomad-server/src/serve.rs:144-157 | after it the registry holds just the open connections of active devices it held |
| Revocation.SweptClear | crates/gonomad-server/src/serve.rs:119-158 | a sweep that read after the revocation leaves the device nothing exactly when no handshake of its is pending |
| Revocation.RevocationReachesOpenSessions | crates/gonomad-server/src/serve.rs:119-158 | and then it has no connection for ever after |
| Revocation.UnregisteredSlipsPast | crates/gonomad-server/src/serve.rs:351-394 | a pending handshake slips past one sweep |
| Revocation.FreshDeviceMayBeSwept | crates/gonomad-server/src/serve.rs:119-158 | a device paired between read and act is closed |

## Left out

- Windows and macOS path handling: prefixes, UNC, case folding; the reserved-name table is a parameter.
- Permission errors, changes of the filesystem while a path is resolved, and the file-identity check that guards against them.
- Glob matching of the denylist: any predicate on path text.
- The 32-bit counter of slots in flight: the model's counters are unbounded. Every class is counted; a ceiling keeps its class far below 2^32, but a class without one is bounded only by its rate.
- `check_payload_size`, `max_items`, `deadline`: table lookups.
- Signatures, key agreement, the short authentication string's derivation, transports, the mux and the runtime: a decrypted message is the input.
- `Hello` and `HelloOk`: the daemon's connection loop ignores the former and the client waits for the latter; the two sides are modelled apart.
- CBOR of requests and results, and the bodies of the services behind `fs.*` and `pty.*`: a request carries the answer its service would give.
- The cancel message a client sends after a timeout: best effort, and no answer depends on it.
- The content of `sys.info`, and the model name a device registers with.
- The store that records a device: whether it takes one is an input of the connection, so the runs include ones where it takes a key it would refuse as known.
- How long a pairing connection lasts: as in the source, the window's deadline is read only between connections.
- Closing a client connection by dropping it: no request is in flight then.
- Terminal ids that a daemon reuses after exit.
- Correlation.RepliesBelong: for runs of at most 2^64 requests, after which ids repeat; so also ResponsesCompleteOne, ReturnsLeaveNoSlot, LossMeansTheStreamEnded and TheEndWakesAllBefore.
- Poisoned locks.
- The TCP listener, whose allowlist is fixed when it starts, and loading grants from the store.
