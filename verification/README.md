# Verified model of the cellular connectivity UI library

This project models, in Dafny, the two parts of the library and its settings
applet with the most logic in them, and proves what they are for.

**The SMS and SIM codec** (`home-item/util.c`): packing septets into octets and
back at any bit offset, with the carriage-return padding rule of section
6.1.2.3.1 of 3GPP TS 23.038; conversion between UTF-8 or UCS2 and the GSM
alphabet in all sixteen pairs of a locking and a single-shift table (section
6.2.1 and Annex A of the same standard); SIM alpha fields in the formats of Annex
A of ETSI TS 102 221; and the hexadecimal pair.

**The service-call protocol** (`lib/service-call.c`, `lib/sups.c`,
`lib/context.c`, the caller-identity requests of `lib/net.c`, and their client in
`cpa/`): calls are parked until a modem has a proxy, submitted then, answered or
cancelled; the client counts what it waits for and starts one call from inside
the callback of another.

## How it is built

Each C function that works by changing buffers or records is a method with the
same loops and branches, proved against a specification function; what the C
function promises is then proved about those functions as lemmas.

| files | content |
|---|---|
| `Bits`, `Buffers`, `Options` | shifts, masks and little-endian numerals (`Val`, `Digits`); resolving a C length |
| `Septets`, `Packing`, `Unpacking`, `SeptetRoundTrips` | the packers: specification, loops, round trips |
| `GsmTableData`, `GsmTableChecks`, `GsmTables` | the conversion tables, entry by entry; that they are sorted and inverse; lookups |
| `GsmAlphabet` | the alphabets as the standard prints them, and that the tables are these |
| `Utf8`, `GsmText`, `GsmConversions`, `GsmConverters` | text in the GSM alphabet on code points, on bytes, and as the two-pass converters |
| `SimText`, `SimFields`, `SimFormats` | SIM alpha fields: the coding, the two passes, and the formats octet by octet |
| `Hex` | the hexadecimal pair |
| `EndToEnd` | whole ways through all of these |
| `ServiceCalls`, `ServiceCallSafety`, `ServiceCallRuns` | the library's state, what every step keeps, runs under any clients |
| `SettingsProtocol`, `SettingsSafety`, `SettingsRuns` | the settings dialog as a client, and runs of both together |
| `SettingsEffects`, `SettingsExample` | what the dialog sends and remembers; one whole run, event by event |
| `CellContext`, `CellularSettings` | both as objects updated in place, tied to the functions above |

Conventions. An octet is an integer below 256 and a septet one below 128; shifts
and masks are functions on unbounded integers with the C meaning. A C buffer that
is only read is a sequence, one that is written is an array. A negative length
means "up to the terminator", as in the C. NULL is `None`. GLib's allocators
return NULL for a size of zero, and the converters and `decode_hex` follow that.
A record of the service-call protocol is known by an address that is never used
again, so that a freed record and a new one with the same call id are different
things; `delivered` counts how often the callback of each record was called.

What the code does where its documentation or the standard would suggest
otherwise, all of it kept and stated by a lemma:

- An unknown escape in a 0x81 or 0x82 field is looked up as 0xFFFF and tested
  against 0 (home-item/util.c:1177-1180), so it is accepted and reads as U+FFFF
  (`SimText.UnknownEscapeReads`).
- With fill bits the receiver of a USSD text counts septets where the padding rule
  counts octets (home-item/util.c:958), so a text can lose its final CR
  (`SeptetRoundTrips.UssdOffsetLosesCr`); `UssdRoundTripIff` says exactly when a
  text survives.
- Two escapes in a row decode to a space, which is encoded as one septet, so a
  septet string with that pair does not come back (`GsmText.DefaultSeptetRoundTrip`).
- Cancelling a parked call from inside its own cancellation callback calls it a
  second time, and cancelling a caller-identity request frees a record that is
  still in use; `ServiceCallRuns.CancelSafeIff` says exactly when cancelling is
  safe, and the settings dialog always is (`SettingsSafety.CancelKeeps`).

## Model

| member | source | states |
|---|---|---|
| Buffers.FindTerminator | home-item/util.c:995-1002 | a negative length resolves to the index of the first terminator |
| SeptetRoundTrips.PackedIsBaseConversion | home-item/util.c:1004-1046 | packed octets spell, in base 256, the septets' base-128 number shifted past the fill bits, plus 13 above the last septet in exactly the two USSD cases; size and range exact |
| SeptetRoundTrips.UnpackedIsBaseConversion | home-item/util.c:898-943 | for any octets, the output is the low base-128 digits of their number behind the fill bits; it never exceeds the count asked for or the bits there are, and stops only at one of the two |
| SeptetRoundTrips.FillAligns | home-item/util.c:900-926 | the fill bits reach exactly to the next septet boundary |
| SeptetRoundTrips.UssdUnpacked | home-item/util.c:906-959 | in USSD mode, for any octets, every whole septet is taken and one CR dropped exactly if it is last in a group of eight |
| SeptetRoundTrips.RoundTrip | home-item/util.c:892-1052 | unpacking packed septets at the same offset with the original count gives exactly them, for every string and offset |
| SeptetRoundTrips.UssdRoundTrip | home-item/util.c:945-1046 | a USSD text arrives with the padding CR if there was one, less a final CR of a group of eight |
| SeptetRoundTrips.UssdRoundTripIff | home-item/util.c:945-1046 | at any offset, a USSD text survives if and only if the CR that is added is the one that is dropped |
| SeptetRoundTrips.UssdRoundTripAligned | home-item/util.c:945-1046 | on a septet boundary only a multiple of eight septets ending in CR changes, by one CR more |
| SeptetRoundTrips.UssdOffsetLosesCr | home-item/util.c:955-959 | with two or more fill bits the same family loses its CR instead |
| Packing.PutSeptet | home-item/util.c:1012-1027 | one turn of the loop adds one septet above the bits already used |
| Packing.PutPadding | home-item/util.c:1037-1046 | CR goes into seven spare bits or an octet of its own, exactly when the rule asks for it |
| Packing.PackSeptets | home-item/util.c:1004-1046 | the loop writes exactly the packed octets and nothing behind them |
| Packing.Pack7BitOwnBuf | home-item/util.c:981-1052 | the same for the whole function, with the count reported and the rest of the buffer untouched |
| Packing.PackAllocationExact | home-item/util.c:1075-1084 | the size that is computed for the allocation is exactly what packing writes |
| Packing.Pack7Bit | home-item/util.c:1054-1088 | the fresh buffer is exactly filled with the packed octets |
| Unpacking.UnpackOctet | home-item/util.c:910-943 | one octet completes one septet or two, and keeps the bits left over |
| Unpacking.UnpackSeptets | home-item/util.c:898-943 | the loop stops exactly at the count asked for or when no whole septet is left, stated in bits |
| Unpacking.Unpack7BitOwnBuf | home-item/util.c:892-968 | the whole function, with the CR rule in USSD mode and the terminator |
| Unpacking.Unpack7Bit | home-item/util.c:970-979 | every write lands in a buffer of len * 8 / 7 octets and one for a terminator |
| GsmTables.LookupCorrect | home-item/util.c:463-481 | binary search over a sorted table finds the one entry with the key, or reports 0xFFFF when there is none |
| GsmTables.AlphabetConsistent | home-item/util.c:86-461 | the four dialects' tables are sorted, in range and mutually inverse up to U+00A0; which alphabets they are is said by the rows of `GsmAlphabet` |
| GsmTables.NbspIsSpace | home-item/util.c:284-445 | U+00A0 is encoded as the space, in every locking table |
| GsmAlphabet.LockingIsStandard | home-item/util.c:284-461 | every locking table is the standard's alphabet, septet by septet |
| GsmAlphabet.ExtensionIsStandard | home-item/util.c:86-240 | every single-shift table is the standard's, and holds nothing else |
| GsmAlphabet.PlainIsItself | home-item/util.c:284-445 | digits, letters and common marks are their own septets, both ways, in every dialect |
| GsmAlphabet.PlainTextUnchanged | home-item/util.c:540-734 | so a text of them is encoded as itself and decoded as itself |
| GsmAlphabet.StandardEncodes | home-item/util.c:678-689 | every character of the standard's alphabet is encoded as its septet |
| GsmAlphabet.ExtensionEncodes | home-item/util.c:678-689 | every character behind the escape is encoded with its code, unless the locking table has it |
| GsmAlphabet.LockingDifferences | home-item/util.c:284-461 | the Spanish locking table is the default one, the Turkish differs in exactly eight septets and the Portuguese in exactly thirty |
| GsmAlphabet.ExtensionShared | home-item/util.c:86-240 | all four single-shift tables share ten characters at the same codes |
| GsmTables.UnicodeLockingSound | home-item/util.c:502-512 | what the locking table encodes a character as decodes to it, with U+00A0 as a space |
| GsmTables.UnicodeLockingComplete | home-item/util.c:483-512 | every septet but 0x1B is what its character is encoded as |
| GsmTables.UnicodeSingleSound | home-item/util.c:514-525 | the same for the single-shift table, behind 0x1B |
| GsmTables.GsmSingleComplete | home-item/util.c:489-525 | every escape pair but the double escape is what its character is encoded as |
| GsmTables.DefaultSinglesDisjoint | home-item/util.c:86-336 | the default, Turkish and Spanish single-shift characters are not in the default locking table |
| Utf8.DecodeEncode | home-item/util.c:669-691 | a written character is read back with its length, whatever follows |
| Utf8.EncodeDecode | home-item/util.c:669-691 | a character is read only from its one shortest form |
| Utf8.EncodeLayout | home-item/util.c:607 | the bytes carry 7, 11 or 16 bits of the code point, behind their markers, high bits first |
| GsmText.EncodeCharSound | home-item/util.c:678-689 | a character is encoded as one septet that is not 0x1B or as 0x1B and one septet, and reads back |
| GsmText.TextRoundTrip | home-item/util.c:540-734 | decoding the encoding of a text gives it with U+00A0 turned into a space, for all consistent tables |
| GsmText.DialectTextRoundTrip | home-item/util.c:540-734 | the same for all sixteen dialect pairs |
| GsmText.SeptetRoundTrip | home-item/util.c:540-734 | encoding the decoding of septets gives them back if and only if no escape pair stands for a character that the locking table has |
| GsmText.DefaultSeptetRoundTrip | home-item/util.c:540-734 | with the default locking table and any single-shift table but the Portuguese, if and only if there is no double escape |
| GsmText.StopsAtFirst | home-item/util.c:678-684 | encoding stops at the first character that neither table has, and only there |
| GsmText.DecodeStopsAt | home-item/util.c:569-586 | decoding stops at the first octet above 0x7F, or behind the first escape that ends the input or has no entry |
| GsmText.DecodedIsText | home-item/util.c:569-610 | what is decoded is text that UTF-8 can carry, without U+0000 |
| GsmText.EncodeAppend | home-item/util.c:702-721 | texts are encoded piece by piece |
| GsmText.EncodedEndsClean | home-item/util.c:712-718 | no encoding ends in 0x1B |
| GsmText.EncodedIsSeptets | home-item/util.c:702-721 | every octet of an encoding is a septet, at least one a character |
| GsmConversions.FromUtf8OfText | home-item/util.c:664-693 | converting a text's UTF-8 form is converting the text; a failure is at the byte offset of the first unencodable character |
| GsmConversions.FromUcs2OfText | home-item/util.c:1282-1367 | the same for UCS2, two bytes a unit, for any units |
| GsmConversions.Ucs2Units | home-item/util.c:1308-1310 | any even number of bytes is UCS2 of some units, high byte first |
| GsmConversions.FromUtf8Reads | home-item/util.c:664-693 | for any bytes: characters in shortest form are read up to a NUL, the end, or the first that is malformed or unencodable, and exactly those are converted |
| GsmConversions.EncodersAgree | home-item/util.c:645-1367 | on every text both encoders give identical septets or fail at the same character |
| GsmConverters.MeasureUtf8 | home-item/util.c:664-693 | the measuring pass reads what the conversion reads and measures the exact size |
| GsmConverters.WriteUtf8 | home-item/util.c:700-721 | the writing pass reads as much, writes exactly that size and never reads past the input |
| GsmConverters.ConvertUtf8ToGsmWithLang | home-item/util.c:645-734 | result, bytes read and written of the whole converter, including invalid dialects, failures and the empty result |
| GsmConverters.MeasureUcs2 | home-item/util.c:1308-1336 | measuring pass over 16-bit units |
| GsmConverters.WriteUcs2 | home-item/util.c:1338-1360 | writing pass over the same units, exactly the measured size |
| GsmConverters.ConvertUcs2ToGsmWithLang | home-item/util.c:1282-1367 | the whole converter, including the length checks |
| GsmConverters.MeasureGsm | home-item/util.c:569-589 | measuring pass over septets: where it stops, and the exact UTF-8 size |
| GsmConverters.WriteGsm | home-item/util.c:598-612 | the writing pass ends exactly at the measured size and at the end of the input |
| GsmConverters.ConvertGsmToUtf8WithLang | home-item/util.c:540-622 | the whole decoder: text, items read and written, and where a failure is reported |
| SimText.FieldAcceptance | home-item/util.c:1154-1223 | a 0x81 or 0x82 field is accepted if and only if it is a series of pieces that count exactly as many septets as announced, then 0xFF to the end; and then it reads as those pieces |
| SimFormats.Format81 | home-item/util.c:1132-1223 | a 0x81 field is text if and only if count, base and as many octets of pieces follow and nothing but 0xFF; offsets count from 128 times the base |
| SimFormats.Format82 | home-item/util.c:1141-1223 | the same for 0x82 with a 16-bit base, high octet first |
| SimFormats.OffsetOctet81 | home-item/util.c:1161-1170 | an octet with the top bit set reads as its seven bits above 128 times the base, or is refused as a surrogate |
| SimFormats.OffsetOctet82 | home-item/util.c:1161-1170 | the same above a 16-bit base, starting again at 0 past U+FFFF |
| SimFormats.PlainOctet | home-item/util.c:1183-1186 | an octet without it reads as its character of the default alphabet |
| SimFormats.EscapedOctets | home-item/util.c:1172-1182 | an escape and its code read as the default extension has it |
| SimFormats.FormatGsm | home-item/util.c:1104-1114 | a field below 0x80 is the septets before the first 0xFF, text exactly when they decode |
| SimFormats.Format80 | home-item/util.c:1117-1131 | a 0x80 field hands over the units before the first 0xFFFF; a stray last octet must be 0xFF |
| SimFormats.OtherFormats | home-item/util.c:1101-1152 | nothing else is a field |
| SimText.ScannedIsPieces | home-item/util.c:1158-1192 | what the first pass accepts is such a series |
| SimText.ScanPieces | home-item/util.c:1158-1192 | and such a series is accepted, whatever follows it |
| SimText.UnknownEscapeReads | home-item/util.c:1172-1183 | an unknown escape is accepted and reads as U+FFFF |
| SimText.TruncationKeepsLongestFit | home-item/util.c:1236-1240 | cutting keeps exactly the longest run of whole characters that fits |
| SimText.FindLongestFit | home-item/util.c:1236-1240 | there is one, for every text and size |
| SimText.StoredTextReadsBack | home-item/util.c:1104-1114 | what was stored and padded reads back as those characters, and never ends in 0x1B |
| SimFields.MeasureSim | home-item/util.c:1154-1189 | the first pass of 0x81 and 0x82: acceptance, where it stops, and the exact UTF-8 size |
| SimFields.WriteSim | home-item/util.c:1204-1221 | the second pass replays the same characters inside the bytes the first one read and writes exactly the measured size |
| SimFields.DecodeSimField | home-item/util.c:1154-1223 | both passes and the padding check together |
| SimFields.SimStringToUtf8 | home-item/util.c:1090-1224 | every format and every refusal, for any buffer and length |
| SimFields.Utf8ToSimString | home-item/util.c:1226-1244 | the buffer holds the whole encoding and the length says how much of it is stored |
| SimFields.StripEscapesLoop | home-item/util.c:1238-1239 | the loop drops exactly the 0x1B at the end |
| Hex.DecodeEncode | home-item/util.c:757-871 | decoding an encoding is the identity |
| Hex.EncodeDecode | home-item/util.c:757-871 | decoding succeeds if and only if all characters are digits, and encoding the result is the input in upper case |
| Hex.EncodedDigits | home-item/util.c:850-866 | every octet is two of "0123456789ABCDEF", the high one first |
| Hex.DigitsOnly | home-item/util.c:770-787 | a digit is one of these or a lower-case letter among them, with its place as its value |
| Hex.DecodeHexOwnBuf | home-item/util.c:757-801 | all pairs of digits, or NULL at the first character that is not one |
| Hex.DecodeHex | home-item/util.c:803-827 | validating first, it never fails inside; the buffer is exactly filled |
| Hex.EncodeHexOwnBuf | home-item/util.c:835-871 | two upper-case digits an octet, and a NUL |
| Hex.EncodeHex | home-item/util.c:873-890 | the buffer is exactly filled |
| EndToEnd.TextArrives | home-item/util.c:540-1052 | UTF-8 to septets to octets to septets to text, in every dialect pair and from every offset: the text arrives, with U+00A0 as a space, or is refused at its first unencodable character |
| EndToEnd.FieldReadsBack | home-item/util.c:1090-1244 | a text stored in a SIM field of any size reads back as the longest run of characters that fits |
| EndToEnd.PlainUtf8 | home-item/util.c:645-734 | plain text is its own UTF-8 and its own septets, in every dialect pair |
| ServiceCallSafety.GetKeeps | lib/context.c:154-182 | taking the context keeps the invariant, and changes nothing while a call is live |
| ServiceCallSafety.ContextMade | lib/context.c:107-182 | a context that is made has exactly the modems the bus names, each with a proxy, a table for waiting calls, or neither |
| ServiceCallSafety.DestroyKeeps | lib/context.c:184-208 | giving it back keeps the invariant, and tears it down exactly when no callback is registered and no call lives |
| ServiceCallSafety.StartKeeps | lib/sups.c:235-269 | a call is refused exactly when there is no such modem or no context; an accepted one gets an id that no live call has, is parked exactly when its modem has no proxy and in flight with its command otherwise, and moves no other call |
| ServiceCallSafety.StartPlaces | lib/sups.c:146-177 | where an accepted call is put, as the whole new tables of parked calls and requests |
| ServiceCallSafety.CommandIsMmi | lib/sups.c:154-174 | setting sends the activation or deactivation, getting the interrogation, of services 43 and 004 as section 6.5.2 of 3GPP TS 22.030 codes them |
| ServiceCallSafety.StartClirKeeps | lib/net.c:1264-1289 | the same for a caller-identity request |
| ServiceCallSafety.AnswerKeeps | lib/sups.c:291-327 | an answer moves its call from in flight into its callback |
| ServiceCallSafety.UnparkKeeps | lib/sups.c:229-289 | cancelling a parked call takes it out of its modem's table and into its callback |
| ServiceCallSafety.FinishKeeps | lib/sups.c:179-188 | after the callback the id leaves the table and the record is freed, no other |
| ServiceCallSafety.TakeKeeps | lib/service-call.c:86-112 | the last call to go takes the table with it and resets the counter |
| ServiceCallSafety.ProxyKeeps | lib/sups.c:101-138 | a new proxy keeps the invariant and touches only its modem's calls |
| ServiceCallSafety.ProxySubmits | lib/sups.c:112-131 | exactly the modem's parked calls are submitted then, each with its own command |
| ServiceCallSafety.ProxyCancellables | lib/sups.c:154-174 | what is submitted then can be cancelled at the bus and has not been |
| ServiceCallSafety.ProxyOutcome | lib/sups.c:101-138 | the modem has the proxy from then on; if none can be made, nothing moves |
| ServiceCallRuns.CancelSafeIff | lib/service-call.c:114-136 | cancelling keeps the invariant if and only if the call is at the bus already, or parked and not inside its own callback, and no caller-identity request |
| ServiceCallRuns.RemovalSafeIff | lib/sups.c:57-71 | removing a modem's data is safe if and only if none of its calls is outstanding |
| ServiceCallRuns.ElsewhereEffects | lib/context.c:47-105 | modems and their data come and go as the events say |
| ServiceCallRuns.UseEffects | lib/context.c:184-208 | a context that others use stays while they are registered |
| ServiceCallRuns.StepKeeps | lib/sups.c:101-289 | no step touches a freed record, and every step keeps the invariant |
| ServiceCallRuns.LibraryIsSafe | lib/service-call.c:25-136 | over every run, under any clients and inside callbacks too: exactly-once delivery, each live call in exactly one place and in the table under its own id, nothing in flight without its proxy and nothing parked beside one, the table NULL or not empty, the context alive |
| SettingsSafety.WaitingKeeps | cpa/cellular-settings-call.c:249-278 | the call-waiting callback hands its place in `pending` to the next request or gives it up, whatever the answer |
| SettingsSafety.CallbackKeeps | cpa/cellular-settings-call.c:162-278 | every callback gives up or hands on exactly one place |
| SettingsSafety.ShowKeeps | cpa/cellular-settings-call.c:280-299 | showing the page counts exactly the requests that were accepted |
| SettingsSafety.ApplyKeeps | cpa/cellular-settings-call.c:352-366 | changing call waiting keeps `pending` equal to what is outstanding; what is sent is said by `SettingsEffects.ApplySends` |
| SettingsEffects.ApplySends | cpa/cellular-settings-call.c:352-366 | an unchanged setting sends nothing; a changed one sends exactly one request with the new value, unless modem or context are missing |
| SettingsEffects.AppliedAfterAnswer | cpa/cellular-settings-call.c:249-366 | after a call-waiting answer, applying what it said sends nothing and applying the opposite exactly that |
| SettingsEffects.AnonymitySends | cpa/cellular-settings-call.c:309-341 | caller identity is sent exactly when it was changed |
| SettingsEffects.AnonymityAfterAnswer | cpa/cellular-settings-call.c:162-341 | after an answer, exactly what it said is not sent |
| SettingsEffects.ShowSends | cpa/cellular-settings-call.c:280-299 | a page clears both flags and sends the requests that its modem can take, and counts exactly these |
| SettingsEffects.AnswerStores | cpa/cellular-settings-call.c:162-278 | of an answer the value of what was asked is kept, off after a failure, nothing after a cancellation |
| SettingsEffects.NothingToCancel | cpa/cellular-settings-call.c:375-380 | without a call it knows, the dialog cancels nothing |
| SettingsExample.PageCompletes | cpa/cellular-settings-call.c:249-299 | a whole run: parked, submitted when the proxy appears, chained, finished, both flags known |
| SettingsExample.PageGivenUp | cpa/cellular-settings-call.c:375-380 | the parked request of a page that is given up is called back at once |
| SettingsSafety.CancelOutcome | lib/service-call.c:114-136 | the call the dialog knows is called back at once exactly if it was parked |
| SettingsSafety.CancelKeeps | cpa/cellular-settings-call.c:375-380 | the dialog only ever cancels what is safe to cancel, and stays consistent |
| SettingsSafety.StepKeeps | cpa/cellular-settings-call.c:162-380 | every event keeps `pending` equal to the number of requests whose last callback has not run |
| SettingsRuns.PendingIsConserved | cpa/cellular-settings-call.c:162-366 | in every reachable state that holds; zero means nothing is in a table, parked or in flight; the id to be cancelled is live |
| SettingsRuns.AnswerEndsCall | lib/sups.c:291-327 | an answer ends its call and touches no other; the chained request always takes over the place, at the same modem |
| SettingsRuns.CancelEndsOrMarks | lib/service-call.c:114-136 | cancelling ends a parked call at once and only marks one in flight |
| SettingsRuns.TrackedKept | cpa/cellular-settings-modem.c:196-215 | if pages are shown when nothing is pending, the dialog knows every call it can cancel |
| SettingsRuns.CancelReachesAll | cpa/cellular-settings.c:30-38 | then cancelling leaves none parked and marks every one in flight |
| SettingsRuns.CancelAlwaysReachesAll | cpa/cellular-settings.c:30-38 | the same after every run in which pages are shown when nothing is pending |
| SettingsRuns.AnswersDrain | cpa/cellular-settings.c:36-37 | every answer lowers what is still owed, although it may start another request |
| SettingsRuns.DrainBound | cpa/cellular-settings.c:36-37 | the wait sees at most that many answers, and nothing is owed exactly when `pending` is zero |
| CellContext.Context.NextId | lib/service-call.c:25-31 | the next number after the counter |
| CellContext.Context.AddCall | lib/service-call.c:33-49 | a zeroed record under its id, in a table made when there is none |
| CellContext.Context.TakeCall | lib/service-call.c:86-112 | the record leaves the table; an empty table goes and the counter with it |
| CellContext.Context.RemoveCall | lib/service-call.c:77-84 | and is freed |
| CellContext.Context.Get | lib/context.c:154-182 | the context is made on first use, or not if the bus is down |
| CellContext.Context.Release | lib/context.c:184-208 | it is torn down unless callbacks or calls remain |
| CellContext.Context.SupsDataGet | lib/sups.c:72-99 | a modem's data is made when first asked for |
| CellContext.Context.DoCall | lib/sups.c:146-177 | with a proxy exactly this call is submitted; without one it is parked under its id and nothing is sent |
| CellContext.Context.SupsServiceCall | lib/sups.c:235-269 | the whole start of a call, as `Start` |
| CellContext.Context.FlushParked | lib/sups.c:120-126 | in whatever order the table gives them, all parked calls are submitted |
| CellContext.Context.AddSupplementaryServices | lib/sups.c:101-138 | the whole arrival of a proxy, as `ProxyAppears` |
| CellContext.Context.GetCallerIdAnonymity | lib/net.c:1264-1289 | the whole start of a caller-identity request |
| CellularSettings.Dialog.StopProgressIndicator | cpa/cellular-settings.c:61-73 | one place is given up, and nothing below zero |
| CellularSettings.Dialog.GetClirCb | cpa/cellular-settings-call.c:162-196 | the value is kept, one place given up |
| CellularSettings.Dialog.GetCallForwardCb | cpa/cellular-settings-call.c:198-247 | the id is cleared, one place given up, cancelled or not |
| CellularSettings.Dialog.GetCallWaitingCb | cpa/cellular-settings-call.c:249-278 | cancelled: one place given up; otherwise the next request is started and takes it |
| CellularSettings.Dialog.Complete | lib/sups.c:291-340 | an answer: callback, then removal, as `CompleteCall` |
| CellularSettings.Dialog.CancelServiceCall | lib/service-call.c:114-136 | the three ways of cancelling, and the early return that keeps the context |
| CellularSettings.Dialog.CallShow | cpa/cellular-settings-call.c:280-299 | the two requests of a page |
| CellularSettings.Dialog.CallApplyAnonymity | cpa/cellular-settings-call.c:309-341 | a changed value is sent and waited for, an unchanged one is not |
| CellularSettings.Dialog.CallApplyWaiting | cpa/cellular-settings-call.c:352-366 | nothing for an unchanged setting; exactly one new request and one more pending for a changed one, if modem and context are there |
| CellularSettings.Dialog.CallCancel | cpa/cellular-settings-call.c:375-380 | the call it knows, if any, is cancelled |
| CellularSettings.Dialog.CancelServiceCalls | cpa/cellular-settings.c:30-38 | after cancelling, the wait handles at most as many answers as are owed, and ends with nothing outstanding |

## Left out

- UCS2 coding of SIM fields (home-item/util.c:1117-1131 and 1246-1269): done by `g_convert` with transliteration, whose results cannot be seen. `SimStringToUtf8` hands over the units that reach it.
- Code points above U+FFFF: `Utf8.Decode` refuses a four-byte sequence where the C reads it and then refuses the code point; the offset reported is the same.
- Allocation failure, ownership and freeing of buffers, other than NULL for a size of zero.
- NULL out-pointers: every out-parameter is returned; `pack_7bit` without `items_written` returns NULL at once.
- Packing.Pack7BitOwnBuf: requires a non-empty text after resolving the length; with a terminator as first octet the C function reads in front of its input in USSD mode.
- Unpacking.Unpack7BitOwnBuf: requires a whole septet in USSD mode, without which the C function reads in front of its buffer.
- SimFields.Utf8ToSimString: requires a size that is not negative, as the loop at home-item/util.c:1238 does.
- The default-dialect wrappers (home-item/util.c:624-633, 736-745, 1369-1378): they only fill in two arguments.
- CellContext.Context.NextId: does not model the wrap-around of a 32-bit counter, which needs four thousand million calls without the table ever emptying.
- CellContext.Context.AddCall: records are values under an address instead of shared objects; the tables and the bus refer to a record by that address, and its cancellable is kept in a table of its own.
- Removal of a modem's data while calls are outstanding: lib/sups.c:62 marks it as unfinished. `ServiceCallRuns.RemovalSafeIff` shows that the invariant needs this; runs do not contain it.
- The older call-forwarding requests of lib/net.c:600-760, which put records of another shape into the same table.
- Contents of answers beyond what the callbacks store: the parsing of D-Bus dictionaries, telephone numbers and error texts. Any answer may come to any request, cancelled or not, in any order.
- Whether an answer comes at all: lib/net.c:1312-1345 sends none when there is no account. The waiting loop is stated for the answers that do come.
- Other clients in the same process: `SettingsRuns` has the dialog as the only one; `ServiceCallRuns` has any.
- GTK widgets, the PIN dialog, `lib/sim.c`, `lib/modem.c`, `lib/connmgr.c`, `lib/datacounter.c` and the rest of `lib/net.c`: property copying and string tables.
- `cpa/cellularsettings.c` is not part of the build.
