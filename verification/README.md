# FreeRADIUS: raw attributes, bios, radsniff and radclient

A Dafny 4.11 model of six pieces of FreeRADIUS and proofs about them. `dafny verify
dfyconfig.toml` checks the whole project. Nothing of the original program was executed.

* **Raw attribute encoder** (`src/bin/unit_test_attribute.c`). A recursive-descent parser turns
  text such as `26.9.1 "abc"` or `245.1 { 1 01 }{ 2 02 }` into wire octets, patches length octets
  behind itself and breaks long extended attributes into fragments in place. `RawText` holds the
  abstract syntax, the parse (which text is accepted, and as what) and a printer; `RawGrammar` a
  grammar, and the proof that the parse accepts exactly its texts; `RawWire` the wire form of section
  5 of RFC 2865 and section 2 of RFC 6929 and a strict decoder written from those sections;
  `RawPrinting` and `RawRoundTrip` prove that both directions cancel. `RawParts` takes the encoder
  apart into its functions, `RawRoom` adds the limited output; `RawLayout`, `RawVerdict` and
  `RawSizes` say, from a layout of the text that does not depend on the room, exactly when the output
  is large enough. `HexMeaning` says what hexadecimal texts stand for, `RawExamples` takes texts and
  octets from the repository's test files. `Hex`, `RawFragments` and `RawEncoder` are the C functions
  on arrays, proved against all of this.
* **Bio buffer** (`src/lib/bio/buf.c`, `buf.h`): `BioBuffer`, a sliding window that is a queue.
* **Bio chains** (`src/lib/bio/base.c`, `bio_priv.h`): `BioChain`, linked objects with the free,
  end-of-file and shutdown walks.
* **Dedup bio** (`src/lib/bio/dedup.c`): `DedupMachine` is the machine over values, `DedupRuns` its
  invariants over all runs, `DedupFlush` the order in which replies go out, `DedupOutcome` what the
  return values say and where every entry is afterwards, `DedupBio` the object whose methods refine
  it, `DedupBuffer` its local buffer in memory, `DedupAsWritten` the lines that contradict the
  documentation, each with the exact condition under which it does harm, `DedupStep` all of them
  together, `DedupWitness` runs that get there.
* **radsniff's request tracker and latency average** (`src/bin/radsniff.c`): `Sniffer`,
  `SnifferAccounts`, `SnifferClosings`, `SnifferRetries`, `SnifferHistory`, `SnifferLaws`,
  `SnifferTracker`, `Smoothing`. `SnifferLaws` defines the tracker a second time, as notes that follow
  from the packets, and proves that the one with tree, timers and counters agrees with it.
* **radclient's reply check** (`src/bin/radclient.c`): `ReplyCheck`.

`Octets` holds octets, C strings and `memmove()`, `Wrappers` the option type. Callbacks, the next
bio's answers, packet filters and clocks are parameters, so every theorem holds for all of their
choices.

## Where the code and its documentation disagree

* Attribute number 256 and vendor 2^24 are let through (`unit_test_attribute.c:679`, `707`) and go
  out as 0. `TextToWireRoundTrip` says a printed attribute decodes to itself exactly when all
  numbers fit their fields.
* Data is checked against the room left in the output, headers and the copies made by fragmentation
  are not (`unit_test_attribute.c:730-731`, `863-864`), and the caller looks at the length only
  afterwards (`2112`). `RoomVerdict` says for every text and every room exactly when the code writes
  outside of its output, `SimpleVerdict` says it in numbers, and `SpillsAt1024` gives the texts for
  which it happens with the output the program starts with (`162`, `3480`). The methods demand that
  it does not happen, `EncodeRaw` through the layout of the text and `EncodeSimple` through sizes.
* A dangling last hex digit is accepted: the digit table is searched together with its NUL
  (`unit_test_attribute.c:593-603`). `OddDigit` gives the octet.
* A backslash in a string is copied until the output is full, and the string is then refused
  (`unit_test_attribute.c:518-541`).
* A refused buffer write returns minus the room there is (`buf.c:90`), not what is missing, so it
  returns 0 when the buffer is full (`RoomAfterRun`).
* `rs_tv_add_ms()` carries on `>` instead of `>=` (`radsniff.c:187`). `AddMsExact` says when the
  result is not a normal time value; the instant is always right.
* The comments on the two cases of a reused id stand at each other's case (`radsniff.c:1701`, `1709`):
  the counter goes up if no response was seen.
* The comment at `radclient.c:1361` asks for an exact match of the Proxy-States; the code accepts
  every prefix, as the rest of the comment explains.
* The dedup bio's header comment (`dedup.c:52-59`), its state names (`87-94`, `117`) and its
  assertions describe a machine that several lines do not implement. `DedupMachine` follows the
  documentation at these places, and `DedupAsWritten` takes the lines as they are:
  line 693 stores PENDING for the partly written entry, asserted to be PARTIAL at 580-581
  (`SendReplyAsWrittenIff`, `NeverReleasedAsWritten`, `FreedTwiceAsWritten`);
  line 403 unlinks a pending entry through the active list, which `fr_dlist_remove()` does not do if
  that list is empty (`UnlinkAsWrittenIff`, `CancelledTwiceListed`);
  lines 376-428 never store FREE (`ReleaseAsWrittenIff`);
  lines 462-483 take the pending entry off its list before the write and lose it if nothing is
  written, and line 678 expects it still to be the head (`FlushHeadAsWrittenIff`);
  line 600 releases an entry marked PARTIAL after line 586 cleared the slot, and line 607 stores
  ACTIVE for an entry put into the expiry tree (`SettleMarkedAsWrittenIff`);
  lines 630 and 722 return before lines 640 and 727 reset the write function, which leaves the
  function that insists on an unfinished message when there is none (`UnblockAsWrittenIff`,
  `StuckAsWritten`);
  the tree compares expiry times only (`919-928`), so that the second of two entries with the same
  time is not inserted by lines 197 and 484 (`MarkRepliedAsWrittenIff`, `SendReplyAsWrittenIff`,
  `FlushHeadAsWrittenIff`). The machine keeps entries with equal times in the order of insertion.
  `StepAsWrittenIff` takes all these lines together and says for every state and event exactly when
  the code does what the machine does; `RunAsWritten` carries this to runs.
* `dedup.c:304-306` queues a first reply without an expiry time, unlike line 235. The model keeps
  this; `FirstReplyNeverSent` shows that the reply is dropped when its turn comes. A first reply that
  is partly written has no expiry time either (`652-701`): `FirstReplyReleasedAtOnce`.
* Line 273 asserts of a pending entry that some entry is partly written. `PendingBehindPartialIff`:
  this is so exactly while the write function is the one that finishes it, so not for a reply of which
  nothing was taken, nor for one queued behind raw data.

## Model

| member | source | states |
|---|---|---|
| Hex.HexPrint | src/bin/unit_test_attribute.c:394-417 | two digits per octet with single spaces and a terminator; returns 0 exactly when 3n+1 octets do not fit (or n = 0) |
| Hex.HexToBin | src/bin/unit_test_attribute.c:575-607 | the octets, or minus the position of the error, for any text, with a NUL inside or not, and any room; the output may lie on top of the input and the result is that of a separate buffer; nothing outside the output changes |
| Hex.HexRoundTrip | src/bin/unit_test_attribute.c:394-417 | decoding printed octets followed by any white space gives them back if and only if they fit, one octet more being needed when white space trails |
| Hex.OddDigit | src/bin/unit_test_attribute.c:593-603 | a dangling digit d is accepted and means the octet (16d+16) mod 256 |
| HexMeaning.DecodeIff | src/bin/unit_test_attribute.c:575-607 | with enough room hex_to_bin() gives octets b exactly for the texts that stand for b: digits in either case, any white space before each pair and at the end, a dangling last digit |
| HexMeaning.SpelledIff | src/bin/unit_test_attribute.c:575-607 | the same for every room: the text stands for b and b fits, with one octet more if anything is left behind the last pair |
| HexMeaning.LeftIff | src/bin/unit_test_attribute.c:581-591 | without a NUL something is left exactly if white space trails |
| HexMeaning.WrittenRoundTrip | src/bin/unit_test_attribute.c:575-607 | octets written with any white space before each pair and any mix of cases are given back exactly when they fit |
| HexMeaning.CaseIsIgnored | src/bin/unit_test_attribute.c:593-600 | writing some of A to F as a to f changes neither the octets nor the position of an error, at any room |
| HexMeaning.ErrorAt | src/bin/unit_test_attribute.c:594-603 | with enough room the position of an error is that of the first character that is no digit where one is expected; only digits, white space and NULs come before it |
| HexMeaning.FullAt | src/bin/unit_test_attribute.c:581-586 | with too little room it is behind the text of as many octets as there was room for |
| HexMeaning.DigitTable | src/bin/unit_test_attribute.c:392-417 | hex_print() uses the digits 0 to 9 and a to f |
| RawEncoder.DecodeAttr | src/bin/unit_test_attribute.c:664-685 | the number 1..256 and the text after it, or 0 exactly when there is no number, nothing follows, or it is out of range |
| RawEncoder.DecodeVendorNum | src/bin/unit_test_attribute.c:687-719 | the vendor between dots and the text after it, or 0 exactly on the error cases |
| RawEncoder.EncodeDataString | src/bin/unit_test_attribute.c:499-542 | the characters up to the closing quote, or 0 if there is none, if an escape comes first, or if they fill the room |
| RawEncoder.ScanBraces | src/bin/unit_test_attribute.c:550-556 | the position of the brace that closes the first one, or the end of the text |
| RawEncoder.EncodeDataTlv | src/bin/unit_test_attribute.c:544-573 | encodes what is between the braces, changes the text only up to the closing brace, and returns the position after it; 0 without a closing brace or on any error inside |
| RawEncoder.EncodeGroup | src/bin/unit_test_attribute.c:621-648 | all groups of "{...}{...}" concatenated, each in the room the ones before it leave, or 0 if any fails |
| RawEncoder.EncodeData | src/bin/unit_test_attribute.c:610-662 | groups, quoted string or hex digits, with the return value of the failing part on error, for any room; writes only inside its output and its text |
| RawEncoder.EncodeTlv | src/bin/unit_test_attribute.c:721-750 | number, length that counts itself and the value, value; dotted and data forms; 0 above 253 octets |
| RawEncoder.EncodeVsa | src/bin/unit_test_attribute.c:752-774 | four vendor octets and one TLV of at most 249 octets |
| RawEncoder.EncodeEvs | src/bin/unit_test_attribute.c:776-799 | four vendor octets, the vendor type and the data |
| RawEncoder.EncodeExtended | src/bin/unit_test_attribute.c:801-824 | extended type and at most 252 octets of data or vendor data |
| RawFragments.FragmentInPlace | src/bin/unit_test_attribute.c:851-874 | for every payload length the memmove loop ends and turns header and payload in place into exactly the fragments of the payload, returns their total size and touches nothing else |
| RawEncoder.EncodeLongExtended | src/bin/unit_test_attribute.c:826-875 | the fragments of the data, or of the vendor header and data |
| RawParts.EncodeCases | src/bin/unit_test_attribute.c:877-919 | parsing to a tree, testing that it fits and laying it out is what encode_rfc() composes from its parts, for every text, return values included |
| RawEncoder.EncodeRfc | src/bin/unit_test_attribute.c:877-919 | for every text and room but those where the layout of the text overruns the room, the return value and the octets are those of the parts composed; only the text and the output window change |
| RawRoom.RoomDecides | src/bin/unit_test_attribute.c:499-919 | for every text and room: what is written is the wire form of the parsed attribute; every attribute that takes less than the room is written; with room for the text and its fragment headers nothing spills and the error values are those of an unlimited output |
| Hex.HexNeedExact | src/bin/unit_test_attribute.c:581-604 | a text that can be decoded is decoded exactly from the room of its octets on, one more if anything is left after them |
| RawVerdict.RoomVerdict | src/bin/unit_test_attribute.c:499-919 | for every text and every room: writing outside of the output happens if and only if a header starts where all before it is written and ends past the room, or all is written and only the fragments are longer than the room; the attribute is written if and only if the layout completes in the room |
| RawVerdict.PartsVerdict | src/bin/unit_test_attribute.c:610-824 | the same equivalence for each of the functions encode_rfc() calls |
| RawVerdict.LayoutEncodes | src/bin/unit_test_attribute.c:499-919 | the layout alone says which texts are encoded and how long they are on the wire |
| RawVerdict.PrintedVerdict | src/bin/unit_test_attribute.c:499-919 | for every printable attribute, groups included, the layout read off the attribute decides, and what is written is its wire form |
| RawSizes.SimpleVerdict | src/bin/unit_test_attribute.c:499-919 | for all six forms with hex or string data and every room: outside if the headers do not fit, or all but the fragments does; an error if the data does not fit; written otherwise |
| RawSizes.SpillsAt1024 | src/bin/unit_test_attribute.c:851-872 | with 1024 octets of output, 245.1 with a string goes outside if and only if the string has 1005 to 1019 characters |
| RawEncoder.EncodeRaw | src/bin/unit_test_attribute.c:2101-2118 | a length is returned if and only if the layout completes in the output; what is returned is the wire form of what the text means; every attribute the caller would accept is returned |
| RawEncoder.EncodeSimple | src/bin/unit_test_attribute.c:2101-2118 | the same call with its demands on the output in numbers |
| RawRoundTrip.JoinOfFragments | src/bin/unit_test_attribute.c:851-872 | reassembly by section 2.2 of RFC 6929 undoes fragmentation for payloads of every length |
| RawRoundTrip.FragmentAt | src/bin/unit_test_attribute.c:851-872 | fragment k starts at octet 255k, has the same type and extended type, length 255 and More unless last, and carries octets 251k onwards |
| RawRoundTrip.FragmentsSize | src/bin/unit_test_attribute.c:851-872 | the total is the payload plus four octets per fragment, of which there are ceil(n/251), at least one |
| RawRoundTrip.WireRoundTrip | src/bin/unit_test_attribute.c:721-919 | the strict decoder reads every accepted attribute back, with numbers reduced to the width of their fields |
| RawPrinting.ParseOfPrint | src/bin/unit_test_attribute.c:499-919 | printing any printable attribute and parsing the text gives it back, strings inside braces included if their own braces match |
| RawGrammar.StrtolIff | src/bin/unit_test_attribute.c:664-719 | a number n and the text behind it are found exactly if the text before that is white space, a sign or none, and digits whose decimal value is n, and no digit follows |
| RawGrammar.QuotedIff | src/bin/unit_test_attribute.c:499-542 | a string is b exactly if b has neither quote nor backslash and a quote follows it |
| RawGrammar.FindCloseIff | src/bin/unit_test_attribute.c:550-556 | the closing brace found is the first that brings opening less closing braces back to none |
| RawGrammar.ParseAttrIff | src/bin/unit_test_attribute.c:499-919 | a text is accepted as the attribute a if and only if it spells a in the grammar: numbers, dots, vendors, white space, strings, digits of either case, and braces with any white space in and between them |
| RawGrammar.EncodeIff | src/bin/unit_test_attribute.c:877-919 | octets w come out if and only if the text spells an attribute that fits and w is its wire form |
| RawGrammar.BracesRead | src/bin/unit_test_attribute.c:621-648 | groups with any white space inside and between their braces are read as the TLVs between them |
| RawGrammar.EncodeError | src/bin/unit_test_attribute.c:499-919 | an error is 0, or minus the position of a character that is no digit, counted from the start of the digits |
| RawExamples.ExtendedString | src/tests/unit/protocols/radius/extended.txt:15-16 | the text of the test becomes the octets of the test |
| RawExamples.ExtendedGroups | src/tests/unit/protocols/radius/extended.txt:21-22 | the same, for groups spaced unlike the printer's |
| RawExamples.ExtendedVendors | src/tests/unit/protocols/radius/extended.txt:33-59 | the same for lines 33 and 58: extended and long extended vendor attributes |
| RawExamples.UpperCase | src/bin/unit_test_attribute.c:593-600 | mixed case and double spaces |
| RawRoundTrip.OnWireIffNarrow | src/bin/unit_test_attribute.c:679-719 | no number is lost on the wire if and only if all are below 256 and all vendors below 2^24 |
| RawRoundTrip.LengthSoundness | src/bin/unit_test_attribute.c:721-919 | for any text, whatever is encoded is one attribute or one chain of fragments whose length octets at every level count exactly what they cover |
| RawRoundTrip.TextToWireRoundTrip | src/bin/unit_test_attribute.c:499-919 | a printed attribute is encoded if and only if it fits, fails with 0 otherwise, and then decodes to itself if and only if its numbers fit their fields |
| RawRoundTrip.Number256IsLost | src/bin/unit_test_attribute.c:679 | number 256 is encoded as type 0 |
| BioBuffer.Buffer.MakeRoom | src/lib/bio/buf.c:28-43 | the overlapping move leaves the contents alone, the window starts at 0 unless it is empty, and the room is returned |
| BioBuffer.Buffer.Read | src/lib/bio/buf.c:45-79 | takes the first n octets, or all if there are fewer, and leaves the others; resets an emptied buffer, compacts when past the middle |
| BioBuffer.TakeExact | src/lib/bio/buf.c:57-78 | how much is taken, what is left, and where the window stands afterwards |
| BioBuffer.ReadAfterRun | src/lib/bio/buf.c:45-79 | after every run a read of n returns the next n octets accepted, or all that are left; a read of at least the contents returns all of them and leaves an empty buffer at its start |
| BioBuffer.ReadsAddUp | src/lib/bio/buf.c:45-79 | any row of reads takes as many octets as the sizes asked for add up to, as far as there are any |
| BioBuffer.Buffer.Write | src/lib/bio/buf.c:81-112 | appends octets from elsewhere, or those that already stand at the write position, and returns their number, or changes nothing and returns minus the room |
| BioBuffer.Buffer.WriteUndo | src/lib/bio/buf.h:111-123 | drops the last n octets and resets an emptied buffer |
| BioBuffer.RunKeepsFifo | src/lib/bio/buf.c:28-112 | after every run of reads, writes, compactions and undos, octets read followed by the contents are those accepted and not undone, and the read offset is at most half the size |
| BioBuffer.RoomAfterRun | src/lib/bio/buf.c:61-91 | after every run a write is accepted if contents and data fit in half the size, or, after compaction, exactly if they fit at all; a refusal is negative exactly if there is room |
| BioBuffer.WriteAfterRun | src/lib/bio/buf.c:28-112 | after every run a write is accepted whole if and only if it fits behind the window, an undo takes back the last n octets accepted, and compaction moves the window to the start and changes no octet |
| BioChain.Chain | src/lib/bio/bio_priv.h:69-78 | a lone bio on top of a chain makes a chain |
| BioChain.Unchain | src/lib/bio/bio_priv.h:86-93 | a bio taken out of the middle leaves a chain and stands alone |
| BioChain.TallocFree | src/lib/bio/base.c:34-43 | a destructor runs only on a bio without neighbours |
| BioChain.Free | src/lib/bio/base.c:105-134 | refuses in mid-chain; otherwise frees from the bottom up to the lowest refusal, leaving a linked prefix, failing reads and writes above the refusing bio and the refusing bio as it was; 0 exactly when nothing refuses |
| BioChain.FreeThenRetry | src/lib/bio/base.c:92-104 | a retry that meets no refusal frees all that was left |
| BioChain.BioEof | src/lib/bio/base.c:256-296 | the walk upwards on the linked bios makes the calls and changes of the walk over positions, and changes no link |
| BioChain.EofAboveCalls | src/lib/bio/base.c:265-295 | one walk calls only handlers that are set, each at most once, and unsets those that must not be called again |
| BioChain.EofRunOnceEach | src/lib/bio/base.c:256-296 | over any number of calls from any positions with any answers, the application hears of EOF at most once and a handler that said "at EOF" is never asked again |
| BioChain.AppHearsIff | src/lib/bio/base.c:265-295 | the application hears if and only if it still wants to and every private handler above the caller that is still set says "at EOF" |
| BioChain.EofExact | src/lib/bio/base.c:256-296 | which handlers are asked, with which answer, upwards and in order, when the application hears, and what every bio is afterwards: the caller reads nothing any more, those who said "at EOF" and the application once called are unset, all else is as before |
| BioChain.BioShutdown | src/lib/bio/base.c:151-203 | from any position the outcome is that of starting at the top: all handlers that are set, then the application, and every bio gets the shutdown functions and loses its destructor |
| BioChain.ShutdownOnce | src/lib/bio/base.c:167-188 | a second shutdown calls nobody and changes nothing |
| BioChain.ToShutExact | src/lib/bio/base.c:167-178 | private handlers run from top to bottom, exactly those that are set, each once |
| BioChain.ShutdownExact | src/lib/bio/base.c:151-189 | private handlers that were set run once each from the top, the application runs if and only if its handler was set, and what every bio is afterwards |
| DedupBio.Bio.Release | src/lib/bio/dedup.c:373-428 | one callback; the entry leaves the place its state names for the free list, or is only marked if partly written |
| DedupBio.Bio.MarkReplied | src/lib/bio/dedup.c:176-199 | active becomes replied with the default expiry, in the expiry tree; replied stays |
| DedupBio.Bio.Respond | src/lib/bio/dedup.c:214-328 | first and duplicate replies: sent, queued, partly written or released on error, with the return value, in every state and write mode; keeps all invariants |
| DedupBio.Bio.FlushPending | src/lib/bio/dedup.c:433-505 | pending replies go out in order until one is not taken whole, expired ones are released; keeps all invariants |
| DedupBio.Bio.BufferWrite | src/lib/bio/dedup.c:531-564 | moves what the next bio takes from the buffer to the wire |
| DedupBio.Bio.Settle | src/lib/bio/dedup.c:586-624 | an entry whose reply is out waits for expiry, is released if that is past, or becomes free if it was cancelled |
| DedupBio.Bio.Blocked | src/lib/bio/dedup.c:652-701 | the rest of the reply is buffered, the entry takes the partial slot, and later writes finish it first |
| DedupBio.Bio.Write | src/lib/bio/dedup.c:571-729 | whichever write function is set: finish the unfinished message, settle its entry, flush, then write; keeps all invariants |
| DedupBio.Bio.DirectWrite | src/lib/bio/dedup.c:800-851 | whole, partial and refused writes with and without an entry |
| DedupBio.Bio.Read | src/lib/bio/dedup.c:853-908 | nothing changes if the next bio gives nothing; otherwise the head of the free list is shown to the receive callback |
| DedupBio.Bio.Receive | src/lib/bio/dedup.c:908-917 | an accepted entry joins the active list, another returns to the free list |
| DedupBio.Bio.Cancel | src/lib/bio/dedup.c:935-942 | cancelling is possible in every held state and keeps all invariants |
| DedupBio.Bio.Timer | src/lib/bio/dedup.c:764-790 | releases from the front of the tree while it is due |
| DedupMachine.MovePlaced | src/lib/bio/dedup.c:52-59 | taking an entry from the place its state names to the place its new state names keeps every entry in exactly one place |
| DedupRuns.StepInv | src/lib/bio/dedup.c:52-118 | every step keeps the pool partition, the order of the tree, the callback order and the stream, for any answers of the next bio |
| DedupRuns.ExpireInv | src/lib/bio/dedup.c:764-790 | the timer frees exactly the replied entries due within 10 ms and touches no other |
| DedupRuns.FlushInv | src/lib/bio/dedup.c:433-505 | flushing keeps all invariants, touches only pending entries and goes on only while nothing is unfinished |
| DedupFlush.FlushOrder | src/lib/bio/dedup.c:459-493 | what goes out are the replies of the unexpired entries of a prefix of the queue, in order; the rest of the queue stays; each entry of the prefix is free if expired, with its callback, else replied, the last one possibly partly written with the rest of it in the buffer; the return value and the answers used up |
| DedupFlush.DroppedIffExpired | src/lib/bio/dedup.c:465-471 | a queued reply is dropped without being offered if and only if its turn comes and its expiry time has passed |
| DedupOutcome.RespondOutcome | src/lib/bio/dedup.c:214-328 | what the return value says: 0 iff there is no reply; "would block" iff the entry is already queued or partly written; the next bio's error iff it fails, and then the application is told and the entry is free; less than the reply iff that much is on the wire and the entry is partly written; its size iff all of it is on the wire or this call queued it |
| DedupOutcome.RespondEntry | src/lib/bio/dedup.c:214-328 | nothing else changes, and a lifetime starts when a first reply is sent or queued behind another message |
| DedupOutcome.BufferWriteOutcome | src/lib/bio/dedup.c:531-564 | the value is positive iff all of the unfinished message is out; otherwise nothing but the octets taken has moved |
| DedupOutcome.SettleOutcome | src/lib/bio/dedup.c:586-624 | the entry ends in the tree iff it was not cancelled and its time has not come; it is free otherwise, and the application is told iff it was not cancelled |
| DedupOutcome.DirectWriteOutcome | src/lib/bio/dedup.c:800-851 | the value is what the next bio took; the packet's entry is replied to iff all was taken and partly written iff a part was |
| DedupOutcome.WriteOutcome | src/lib/bio/dedup.c:571-851 | in each mode: the unfinished message first and nothing else unless all of it is out; then its entry, the queue in order, and the packet unless the flush stopped; with every entry, callback and the return value |
| DedupOutcome.WriteCodeMeans | src/lib/bio/dedup.c:571-851 | a positive value is the number of octets of the packet on the wire, behind those of the queue, the others being in the buffer; otherwise nothing of it is on the wire and its entry is as before |
| DedupOutcome.ReleaseOutcome | src/lib/bio/dedup.c:373-428 | one callback with the reason; the entry is the first free one, or keeps its slot if partly written; the queue keeps its order |
| DedupOutcome.CancelOutcome | src/lib/bio/dedup.c:935-942 | the reason is that it was cancelled |
| DedupOutcome.TimerOutcome | src/lib/bio/dedup.c:764-790 | the entries released are those of the tree due within 10 ms, in order, with one callback each |
| DedupOutcome.ReceiveOutcome | src/lib/bio/dedup.c:853-917 | a packet takes the first free entry, clean; accepted, it is last in the active list; refused, the lists are as before |
| DedupBuffer.BufferSave | src/lib/bio/dedup.c:510-526 | what is left of a message is in the buffer: the write nobody checks is never refused |
| DedupBuffer.BufferWrite | src/lib/bio/dedup.c:531-564 | the buffer in memory holds what the machine's buffer holds, and is ready for the next message once it is empty |
| DedupRuns.EveryRunReaches | src/lib/bio/dedup.c:1036-1096 | every run of enabled events from a fresh bio is one of the runs the theorems speak of |
| DedupRuns.StreamIntegrity | src/lib/bio/dedup.c:507-754 | in every reachable state the wire holds all messages begun but the last whole and in order, then the last one up to what the buffer still holds; nothing is interleaved |
| DedupRuns.PoolPartition | src/lib/bio/dedup.c:87-118 | in every reachable state each of the n entries is in exactly one place, its state names it, and the places together list each entry once |
| DedupRuns.OneReleaseEach | src/lib/bio/dedup.c:376-428 | in every run each entry is released once per acceptance, or once less while held, never out of order, also if cancelled while partly written |
| DedupStep.StepAsWrittenIff | src/lib/bio/dedup.c:176-942 | with all lines as written, for every state of the documented machine and every event: the code does what the machine does if and only if the event is clean, a condition on the state, the event and the next bio's answers; otherwise some entry ends up where its state does not say |
| DedupStep.RunAsWritten | src/lib/bio/dedup.c:176-942 | as long as every entry is where its state says, a run of the code as written is a run of the machine |
| DedupStep.WriteAsWrittenIff | src/lib/bio/dedup.c:571-851 | the same for a write in any mode: nothing partly written but cancelled, every queued reply valid, taken whole and with an expiry time of its own, and the packet itself |
| DedupStep.FlushAsWrittenIff | src/lib/bio/dedup.c:433-505 | the same for a whole flush |
| DedupAsWritten.UnlinkAsWrittenIff | src/lib/bio/dedup.c:399-404 | with line 403 by itself as written, a release keeps the pool law if and only if the entry is not pending or some entry is active; otherwise the entry is in the pending list and in the free list |
| DedupWitness.CancelledTwiceListed | src/lib/bio/dedup.c:399-427 | a run from a fresh bio to a state where a cancel does that |
| DedupAsWritten.ReleaseAsWrittenIff | src/lib/bio/dedup.c:376-428 | as written, a release keeps the pool law if and only if the entry is partly written |
| DedupAsWritten.SendReplyAsWrittenIff | src/lib/bio/dedup.c:294-327 | as written, sending a reply keeps the pool law if and only if the next bio takes nothing without an error, or all of it and the entry was replied to before or no other reply expires at the same time |
| DedupAsWritten.FlushHeadAsWrittenIff | src/lib/bio/dedup.c:462-493 | as written, a round of the flush keeps the pool law if and only if the head has not expired, is taken whole, and no other reply expires at the same time |
| DedupAsWritten.PendingBehindPartialIff | src/lib/bio/dedup.c:269-274 | what line 273 asserts of a queued reply holds if and only if the write function is the one that finishes a partly written entry |
| DedupAsWritten.NeverReleasedAsWritten | src/lib/bio/dedup.c:593-624 | as written, from any state: a reply that is partly taken, and then its rest, puts the entry into the free list without a release |
| DedupAsWritten.FreedTwiceAsWritten | src/lib/bio/dedup.c:399-427 | as written, with a cancel in between the entry is put into the free list twice, after one release |
| DedupAsWritten.FirstReplyNeverSent | src/lib/bio/dedup.c:303-311 | a first reply of which nothing is taken is queued with no message unfinished; whatever else is queued and whatever the next bio answers, the next flush sends what it would send without it, and frees the entry if its turn comes |
| DedupAsWritten.FirstReplyReleasedAtOnce | src/lib/bio/dedup.c:652-701 | a first reply that is partly taken, from fr_bio_dedup_respond() or from fr_bio_dedup_write(), is released as soon as the rest is out |
| DedupAsWritten.UnblockAsWrittenIff | src/lib/bio/dedup.c:586-640 | as written, the write function is right after a blocked message is out if and only if the first unexpired pending reply that is not taken whole is not answered by an error |
| DedupWitness.StuckAsWritten | src/lib/bio/dedup.c:626-640 | a run from a fresh bio to a state where it is wrong |
| DedupAsWritten.SettleMarkedAsWrittenIff | src/lib/bio/dedup.c:593-624 | as written, settling a correctly marked entry keeps the pool law if and only if it was cancelled |
| DedupAsWritten.MarkRepliedAsWrittenIff | src/lib/bio/dedup.c:194-198 | as written, a sent reply is kept if and only if no other one expires at the same time |
| Sniffer.AddMsExact | src/bin/radsniff.c:183-191 | the sum is always the right instant, and a normal time value if and only if the microseconds do not add up to exactly a second |
| Sniffer.StepConsistent | src/bin/radsniff.c:1030-1128 | every packet, timer and interval keeps the tree holding exactly the live requests, one per key, marked as in the tree, and a repeated response implies a first one |
| SnifferTracker.RequestTracker.RequestFree | src/bin/radsniff.c:1030-1057 | a request to be freed is always found in the tree under its key |
| SnifferTracker.RequestTracker.PacketCleanup | src/bin/radsniff.c:1059-1128 | counts the request lost exactly if cleanup is not silent and no response is linked, counts its retransmissions and those of its response, and frees it; at exit it only frees it |
| SnifferTracker.RequestTracker.MatchResponse | src/bin/radsniff.c:1431-1581 | filtered, failed, first and repeated responses, and responses without a request |
| SnifferTracker.RequestTracker.RetireReused | src/bin/radsniff.c:1697-1721 | a request with the same key and another authenticator is closed, and counted as reused if it was unanswered |
| SnifferTracker.RequestTracker.SendRequest | src/bin/radsniff.c:1731-1825 | a retransmission clears the linked response and rearms the timeout; a new request is inserted without conflict |
| SnifferTracker.RequestTracker.ProcessResponse | src/bin/radsniff.c:1431-1581 | one response packet is a step of the tracker and keeps all invariants |
| SnifferTracker.RequestTracker.ProcessRequest | src/bin/radsniff.c:1583-1833 | one request packet is a step of the tracker and keeps all invariants |
| SnifferTracker.RequestTracker.TimerFires | src/bin/radsniff.c:1130-1135 | a timer closes its request and keeps all invariants |
| SnifferTracker.RequestTracker.ClearInterval | src/bin/radsniff.c:897-904 | the counters of the interval start again |
| SnifferAccounts.StepAccounted | src/bin/radsniff.c:1059-1128 | every step keeps each request live or closed, never both, and the counters exact |
| SnifferAccounts.StepTimed | src/bin/radsniff.c:1086-1101 | every step keeps the linked flag and the timer of each live request in agreement with what was sent and linked |
| SnifferAccounts.RunSound | src/bin/radsniff.c:1431-1833 | all of this holds at every point of every run |
| SnifferAccounts.Conservation | src/bin/radsniff.c:1059-1128 | at every point of every run, requests opened = live + lost + reused + answered + silently closed, and the lost and reused counters summed over intervals count their kinds per packet code |
| SnifferClosings.LostCounted | src/bin/radsniff.c:1086-1101 | at every point of every run, the lost counters summed over intervals count, per packet code, requests that were closed exactly once, with no response linked since their last transmission and not before their timeout |
| SnifferRetries.RetriesCounted | src/bin/radsniff.c:1108-1125 | at every point of every run, the histogram summed over intervals counts the closed requests by how often they were sent again, and by the repetitions recorded for their response; the unlinked counter counts the responses without a request |
| SnifferAccounts.EveryRunReaches | src/bin/radsniff.c:1431-1833 | every run of enabled events from the start is one of the runs the theorems speak of |
| SnifferAccounts.LostMeansUnanswered | src/bin/radsniff.c:1086-1101 | in every run a request is counted lost only when its last transmission is at least the timeout ago and no response was linked since |
| SnifferHistory.StepTraced | src/bin/radsniff.c:1431-1833 | every event keeps tree, requests and closings in agreement with the notes of what was sent, answered and closed, and every closing has the fate its cause and the notes before it demand |
| SnifferLaws.StepNotes | src/bin/radsniff.c:1431-1833 | what an event adds to the notes follows from the event and the notes before: a transmission, a link, a closing and its fate, or nothing |
| SnifferLaws.StepCounts | src/bin/radsniff.c:1086-1125 | an event counts a request as lost, as reused, or a response as unlinked exactly if the notes demand it, under the code they say |
| SnifferLaws.StateIsHistory | src/bin/radsniff.c:1431-1833 | at every point of every run the notes follow from the events, and the tree and every field of every live and closed request follow from the notes |
| SnifferLaws.TimerCountsLost | src/bin/radsniff.c:1086-1101 | in every reachable state a timer adds one to the lost counter of the request's code iff responses are not filtered and none was linked since it was last sent |
| SnifferLaws.LostExactly | src/bin/radsniff.c:1086-1101 | in every run the requests counted lost are exactly those whose timer closed them unanswered, and none if responses are filtered |
| SnifferLaws.SameIdentity | src/bin/radsniff.c:1697-1721 | in every run all transmissions of one request have the same key and authenticator |
| SnifferLaws.RetransmitOrReuse | src/bin/radsniff.c:1697-1800 | in every reachable state an accepted request under the key of a live one is a retransmission of it iff the authenticators agree, and otherwise opens a new request and closes the old one as reused or answered |
| SnifferLaws.ReuseOnly | src/bin/radsniff.c:1697-1721 | a request is closed by reuse only by a request packet with its key and another authenticator |
| Smoothing.LatencyStats.ProcessLatency | src/bin/radsniff.c:583-618 | one interval is one step of the average |
| Smoothing.SmoothedIsMean | src/bin/radsniff.c:580-618 | for the first 100 averages that count, the smoothed latency is exactly their mean |
| Smoothing.SmoothedDecays | src/bin/radsniff.c:613-617 | from then on it is that mean with every later average mixed in with weight 1/100 |
| Smoothing.AveragesGrow | src/bin/radsniff.c:593-612 | the averages that count are totals divided by the number of linked packets, of intervals where both are positive |
| Smoothing.SmoothedNone | src/bin/radsniff.c:593-606 | there is no value exactly after an interval without linked packets while nothing counts yet |
| Smoothing.SmoothedIsBetween | src/bin/radsniff.c:613-617 | at all times it lies between the smallest and largest average seen |
| Smoothing.EmptyIntervalKeeps | src/bin/radsniff.c:593-606 | an interval without linked packets leaves a value that exists untouched |
| ReplyCheck.BlastRadiusCheck | src/bin/radclient.c:1282-1397 | a well-formed reply is accepted if and only if its code and identifier answer the request, its Proxy-States in order are a prefix of those sent, and it has a Message-Authenticator if that is demanded |
| ReplyCheck.AttributesOfPacked | src/bin/radclient.c:1320-1397 | the attributes the check sees are those the reply was made of |

## Left out

- RawEncoder.EncodeRaw: what happens to the memory behind an output the text overruns; `RoomVerdict` says when that is.
- RawEncoder.EncodeRfc: the same.
- RawEncoder.EncodeDataTlv: the same; `PartsVerdict` says when that is.
- RawEncoder.EncodeGroup: the same; `PartsVerdict` says when that is.
- RawEncoder.EncodeData: the same; `PartsVerdict` says when that is.
- RawEncoder.EncodeTlv: the same; `PartsVerdict` says when that is.
- RawEncoder.EncodeVsa: the same; `PartsVerdict` says when that is.
- RawEncoder.EncodeEvs: the same; `PartsVerdict` says when that is.
- RawEncoder.EncodeExtended: the same; `PartsVerdict` says when that is.
- RawEncoder.EncodeLongExtended: the same; `RoomVerdict` says when that is.
- RawFragments.FragmentInPlace: fragments longer than the output.
- Hex.HexToBin: inputs without a terminator behind them.
- strtol() saturation at LONG_MAX: both callers refuse every value above 2^24.
- BioBuffer: fr_bio_buf_write_reserve() and fr_bio_buf_write_alloc().
- BioChain: fr_bio_write_blocked(), fr_bio_next_read() and fr_bio_next_write(), and the callbacks' own effects on the chain.
- DedupBio.Bio.Respond: follows the documented machine where the section above says the lines differ.
- DedupBio.Bio.Read: a pool without a free entry, which line 876 asserts there is.
- DedupBio.Bio.Write: a packet for an entry, other than its reply, when the next bio takes a part of that length, as lines 846-848 assert.
- DedupBio.Bio.DirectWrite: the same.
- DedupBio: the local buffer is a value here and an object in DedupBuffer; no allocation failure and no limit of 65536 entries; timer arming, fr_bio_dedup_entry_extend() and the destructor; callbacks that call back into the bio, except while the receive callback runs.
- DedupAsWritten: that list and tree nodes share memory (lines 107-112).
- DedupStep: what the code does after a step that is not clean.
- SnifferTracker: attribute links (-L), timers that cannot be inserted, and the received and linked counters.
- Sniffer: which packets pass the filters, verify and decode is a parameter of each event.
- Smoothing: floating-point rounding; averages are reals.
- ReplyCheck.BlastRadiusCheck: replies that are not well-formed, because they are refused before the check.
- The rest of the repository: dictionaries, protocol libraries, modules, the server, the other programs and the build scripts.
