# Verified core of RecurseX

RecurseX is a recursive DNS resolver whose cores do no I/O. This project models five of them in Dafny 4.11
and proves what they promise:

* the wire codec: a printer that compresses names with an offset table and patches lengths and counts in
  place, against a parser that chases pointers, and the single-pass UDP truncation built on them;
* the fake-IP allocator with its two inverse maps, wrapping cursor and amortised sweeps;
* answer provenance: a capped dependency set that must agree with the uncapped minimum;
* the safety side: a forgetting posterior, the risk of a stale answer, the ledger that bounds its sum, and
  the planner that charges it;
* two indexes that must agree with what they summarise: the alias graph and the latency digest.

`dafny verify dfyconfig.toml` checks the whole project.

## How it is organised

Each operation that updates state in the program is a method with the same loops and the same updates, on a
class with the same fields where the program has one. Its contract equates the new state with a function of
the old one. What the program promises is proved about those functions, over every input, every history or
every run, where a run is a sequence of states in which each follows from the one before by one operation.

| file | source |
|---|---|
| Octets, Items, Powers, Sets | src/wire.rs, src/error.rs: results, bounded reads, growing buffers, item lists |
| Names, NameParsing, Presentation, Suffix | src/name.rs; src/engine.rs for DNAME substitution |
| Compressor, Compression | the name compressor of src/name.rs |
| TypeBitmap, RData, Records | src/rdata.rs |
| Edns | src/edns.rs |
| HeaderFlags, Message, MessageRoundTrip, Codec, Accepted, WireFormat, Serializer, Deserializer, Truncation | src/message.rs |
| Bounded, FakeIp, Recency | src/bounded.rs, src/fakeip.rs |
| Provenance, Severity, Refresh | src/provenance.rs |
| Risk, Planner, EntryPlans, TrimmedPlans, Hazard, Evidence | src/risk.rs, src/planner.rs, src/hazard.rs |
| Alias, AliasAges, AliasOrder, Digest | src/alias.rs, src/calibration.rs |

A name is its list of labels; `Names.WireInjective` ties it to the stored octets. RDATA is the list of its
fields in wire order, and `RData.Layout` gives the fields of each of the 25 record types the program parses
structurally. `Compressor.Spells` says what the octets at an offset mean without mentioning the parser: it
is the middle term between printer and parser, and it carries the set of positions that may be patched later
and must therefore never be read. `WireFormat` says which octets each part of an accepted message is taken from, in
the terms of the standards, so that parser and printer cannot agree on a layout of their own.

Keys of the ordered maps in Bounded, Alias and Provenance are naturals standing for their rank in key order.
`f64` is modelled as `real`. The exponential and the logarithm are parameters of which `Hazard.ExpFacts` and
`Hazard.LnFacts` list the facts used; `Hazard.FactsAreConsistent` exhibits functions that satisfy them.
Resource-heavy proofs use Dafny's `hide` statement to keep definitions they do not need out of sight, and
recursive lemmas carry `{:induction false}`, so that their bodies are the induction.

## Where code and documentation differ

The code is followed; the exact condition is proved.

* 127 labels pass the test inside the loop of `from_wire` and fail the one after it (src/name.rs:231-233 and
  271-273): the parser accepts at most 126 labels.
* The hop limit is justified by "every hop adds two octets" (src/name.rs:25-30). That needs pointers to lead
  to labels: `NameParsing.LandingIsAccepted` proves the limit harmless under that condition, and
  `NameParsing.ChainIsCutOff` gives the family of chains it cuts off.
* `from_ascii` does not count the root octet, so it builds names of 256 octets (`Presentation.OneOctetTooLong`).
* A double quote is printed as decimal 042, which reads back as an asterisk (`Presentation.PresentationRoundTrip`).
* `is_subdomain_of` compares octets; `Suffix.SuffixTests` gives the exact relation to label suffixes and
  `Suffix.LookalikeSuffix` a pair it misjudges. A DNAME record therefore answers questions outside its
  subtree (src/engine.rs:284-312): `Suffix.AnsweredOutside` says exactly when, and
  `Suffix.LookalikeAnswered` gives such a question for every target.
* DNAME targets are written with compression as permitted by "RFC 1035 / RFC 6672" (src/rdata.rs:567-587);
  section 2.5 of RFC 6672 forbids it. `WireFormat.CompressedTypes` lists the types that are compressed.
* Padding of any amount is written empty, so only `Padding(0)` survives (`Edns.PayloadRoundTrip`).
  `Accepted.AcceptedIsWellFormed` shows that nothing else of an accepted message gets lost.
* "A minimal message always fits" (src/message.rs:343): truncation drops no EDNS options, so a message whose
  one option is an identifier of 600 octets stays over 512 (`Truncation.MinimalMessageOver`). A truncated
  message fits exactly if its header, questions and OPT record do (`Truncation.FitsAfterTruncation`).
* The evidence ceiling is w * (tau + H) (`Hazard.EvidenceCeiling`). It is w * tau only if w or H is zero
  (`Hazard.TauIsCeilingWhen`); `Hazard.PastTau` gives a history past it otherwise.
* The eviction sweep is not always paid for by what it frees: it is exactly if nothing is stale or at least
  one entry in 4 * stride is (`Bounded.SweepIsPaid`). When one entry turns stale per insertion, every
  insertion visits the whole table (`Bounded.TrickleCost`).
* A full pool of fresh fake-IP mappings loses every eighth in address order, not the least recently used
  (`FakeIp.LastUsedGoes`); `FakeIp.ReclaimRespectsRecency` says when the two agree. Restoring ignores the
  cap (`FakeIp.RestoreIgnoresCap`, `FakeIp.RestorePassesCap`).
* Trimming a dependency set preserves its bound and whether stale service is permitted, but not always its
  worst consequence class (`Severity.TrimmingHidesSeverity`). It does exactly when a dependency of that
  class survives (`Severity.SeverityAfterBuild`, `Severity.SeverityAfterPushes`). The loss reaches the
  decision: `TrimmedPlans.TrimmedDelegationIsServed` serves a delegation past its horizon and below its
  floor, and `TrimmedPlans.SamePlanWhen` and `TrimmedPlans.AlwaysSameWhen` say when trimming makes no
  difference.
* A refresh plan lists the keys of the weakest dependencies without removing repetitions, and an answer and
  its proof share a key: the plan can spend its budget on one key twice (`Refresh.SharedKeyIsMissed`). It is
  optimal whenever its keys differ (`Refresh.DistinctPlanIsOptimal`); `Refresh.PlanIsOptimalWhen` is exact.
* A closure of the alias graph can exceed its limit (`Alias.ThreeTargets`): exactly when a key whose turn
  comes has more unknown targets than there is room for (`Alias.ClosureOverrun`).

## Model

| member | source | states |
|---|---|---|
| Codec.RoundTrip | src/message.rs:197-329 | for every well-formed message, parsing the serialized octets gives the message with names in lower case and type bitmaps ascending; it gives back exactly the message if and only if they already were; a message whose RDATA is at most 65535 octets each, with names in full, is never refused |
| Codec.TableInvariant | src/name.rs:514-574 | after the header, the questions and any number of records, every recorded suffix is spelled at its offset within as many pointers as it has labels, and no octet that spells it is a count or a length that gets patched |
| Codec.TableDecodes | src/message.rs:276-329 | each table entry decodes to its suffix in every later buffer, whatever was appended and however the patched positions were filled; its offset fits 14 bits and the hop limit is not reached |
| Codec.LayoutIsPrefixFree | src/rdata.rs:200-560 | in the layout of every record type only the last field reads to the end of the RDATA |
| Codec.OptIsRecord | src/message.rs:302-310 | the OPT record written by hand is what the record printer would write |
| Message.CountsAreDirect | src/message.rs:281-329 | serializing with zero counts and patching them in afterwards is serializing with the counts in place |
| Records.PatchIsDirect | src/rdata.rs:963-987 | patching RDLENGTH in afterwards is writing it first, and the record is refused exactly when its RDATA exceeds 65535 octets |
| Records.RecordKeeps | src/rdata.rs:963-987 | writing a record keeps every recorded suffix readable and none of them reads the patched length |
| Records.RecordReads | src/rdata.rs:905-960 | a record parses back from the octets written for it, whatever is appended later, and the parser stops where the printer did |
| RData.FieldReads | src/rdata.rs:200-560 | each field of RDATA parses back from what was written for it, up to letter case and bitmap order |
| RData.ParseFieldBounds | src/rdata.rs:200-560 | parsing a field never moves backwards or past the end of the RDATA |
| Items.ReadWritten | src/edns.rs:420-485 | reading item after item gives back the list written item after item and stops at the same octet |
| Accepted.AcceptedIsWellFormed | src/message.rs:197-265 | on arbitrary octets, an accepted message is well-formed if and only if it has no padding of a positive amount |
| Accepted.AcceptedComesBack | src/message.rs:197-329 | an accepted message without such padding, serialized again, parses back to itself with type bitmaps ascending, unless an RDATA is over 65535 octets with its names in full |
| Accepted.FieldAccepted | src/rdata.rs:200-560 | on arbitrary octets, every field the parser accepts fits its kind: names of at most 255 octets and 126 labels, strings of at most 255 octets, parameters of at most 65535 |
| Accepted.OptionsAccepted | src/edns.rs:420-485 | on arbitrary octets, accepted EDNS options survive being written again, padding aside, and take no more octets than were read |
| WireFormat.HeaderFormat | src/message.rs:197-213 | in every accepted message the identifier, each flag at its bit and the four counts stand in the first twelve octets, and the counts are those of the sections, at most 16 and 4096 |
| WireFormat.SectionOrder | src/message.rs:217-262 | questions, answers, authorities and additional records follow one another without a gap; the EDNS field is that of the record of type 41 among the last |
| WireFormat.QuestionFormat | src/message.rs:217-235 | a question is a name, its type and its class |
| WireFormat.RecordFormat | src/rdata.rs:905-950 | a record is a name, type, class, 32-bit TTL, 16-bit length and RDATA of that length, more significant octets first |
| WireFormat.RDataFormat | src/rdata.rs:200-560 | for every type, RDATA is accepted if and only if its parts stand there as the standards draw them, for MX two octets and a name that ends it |
| WireFormat.FieldFormat | src/rdata.rs:200-560 | each field holds exactly what stands in its octets, a type bitmap exactly the types marked |
| WireFormat.BitmapFormat | src/rdata.rs:816-848 | type t is in an accepted bitmap if and only if bit 7 - t % 8 of octet t % 256 / 8 of a window numbered t / 256 is set |
| WireFormat.CompressedTypes | src/rdata.rs:567-640 | only NS, CNAME, SOA, PTR, MX and DNAME have names written with compression |
| WireFormat.ElementFormat | src/name.rs:200-270 | an octet from 1 to 63 starts a label of that length, one from 192 a pointer to the 14-bit number, zero is the root, and anything else or incomplete is unreadable |
| WireFormat.FoldFormat | src/name.rs:451-457 | folding turns A to Z into a to z and changes nothing else |
| WireFormat.OptFormat | src/edns.rs:346-367 | the payload size is the class of the OPT record; extended rcode, version and DO bit are the first octet, the second and the top bit of the third of its TTL |
| WireFormat.OptionFormat | src/edns.rs:420-485 | an option is its code, the length of its data and its data |
| WireFormat.PayloadFormat | src/edns.rs:420-485 | which option each code stands for, and how its data is laid out |
| MessageRoundTrip.ManyRead | src/message.rs:217-262 | sections that stand one after another are parsed one after another |
| Compressor.Survives | src/name.rs:488-574 | what an offset spells survives growth of the buffer and changes at unread positions |
| Compressor.WalkReadsSpelling | src/name.rs:196-300 | the parser reads what the octets spell, within the hop, octet and label limits |
| Compressor.WriteNameKeeps | src/name.rs:514-574 | writing a name keeps the table invariant, and the new octets spell the name within one pointer more than it has labels |
| Compressor.WrittenNameReads | src/name.rs:514-574 | a written name parses back, folded to lower case, whatever is appended or patched later, and parsing stops where writing did |
| Compressor.RecordsNameTable | src/name.rs:565-574 | the recording loop fills exactly the table the invariant speaks of |
| Compressor.PrefixNameBytes | src/name.rs:514-563 | the octets before the longest recorded suffix and a pointer to it are the octets of the compressed name |
| Compression.WrittenIsKnown | src/name.rs:501-574 | of a name written at an offset, each suffix whose labels are written out is remembered where it stands if and only if that is at most 0x3fff |
| Compression.SuffixIsKnown | src/name.rs:501-574 | once a name has been written, every suffix of it that starts at or below 0x3fff is known, up to and including the first one known before |
| Compression.KnownIsUsed | src/name.rs:514-563 | a name takes exactly the labels before its longest known suffix and two octets |
| Compression.UnknownIsWritten | src/name.rs:514-563 | a name of which no suffix is known is written in full |
| Compression.QuestionAgain | src/message.rs:276-329 | the name of a question, or a suffix of it written out there at or below 0x3fff, takes two octets wherever it comes again in the records of the message |
| Compression.OwnerAgain | src/rdata.rs:963-987 | so does the owner of a record, or a suffix of it, in every later record |
| Compressor.NameCompressor.Write | src/name.rs:514-563 | appends the compressed name and leaves the table with its new suffixes; a name that starts at or below 0x3fff is in it |
| Compressor.NameCompressor.RecordPrefix | src/name.rs:565-574 | records each suffix that starts at or below 0x3fff, keeping earlier entries |
| Compressor.Enumerate | src/name.rs:514-535 | the suffixes of a name, longest first, with their offsets |
| Names.FromWire | src/name.rs:196-291 | the loop over pointers, labels and limits computes the parsed name and the position past its encoding |
| Names.ReadLabels | src/name.rs:200-270 | the walk terminates by hops and octets left, and finds the labels and the end position |
| Names.WireInjective | src/name.rs:33-40 | the stored octets determine the name |
| Names.FoldWire | src/name.rs:451-457 | folding all stored octets folds exactly the labels |
| Names.WalkBounds | src/name.rs:228-268 | an accepted walk keeps the octet and label limits and ends inside the message |
| NameParsing.AcceptedName | src/name.rs:196-300 | on arbitrary octets an accepted name is in lower case, has at most 255 octets and 126 labels, ends after its start and inside the message, and its uncompressed form parses to itself |
| NameParsing.AcceptedIff | src/name.rs:196-300 | exactly the names spelled within 128 pointers, 255 octets and 126 labels are accepted, wherever pointers lead |
| NameParsing.LandingIsAccepted | src/name.rs:23-31 | if no pointer leads to a pointer, the hop limit rejects no name the octets spell |
| NameParsing.ChainIsCutOff | src/name.rs:23-31 | a chain of k pointers, for every k up to the 8191 that 14-bit offsets can reach, spells the root name and is accepted if and only if k is at most 128 |
| NameParsing.PlainDecides | src/name.rs:196-300 | an uncompressed name is accepted if and only if it has at most 255 octets and 126 labels, and is then read back in lower case |
| Presentation.PrintThenRead | src/name.rs:306-431 | printing and reading gives the name in lower case with quotes turned into asterisks if it has at most 256 octets, and an error otherwise |
| Presentation.PresentationRoundTrip | src/name.rs:306-431 | the round trip is exact if and only if the name is in lower case, has no double quote and at most 256 octets |
| Presentation.OneOctetTooLong | src/name.rs:311-326 | a name of 256 octets is built from its presentation and refused by the wire parser |
| Presentation.AcceptedText | src/name.rs:306-396 | whatever the string, a name built from it is in lower case and has at most 256 octets |
| Presentation.PrintedIsPrintable | src/name.rs:400-431 | whatever a name holds, its printed form is printable ASCII without a space |
| Presentation.EscapedInDecimal | src/name.rs:410-424 | an octet that is not printable is printed as a backslash and its three decimal digits |
| Presentation.Parse | src/name.rs:306-396 | the character loop computes the reading function |
| Presentation.Print | src/name.rs:400-431 | the label loop computes the printing function |
| Suffix.SuffixTests | src/name.rs:147-152 | a label suffix is a byte suffix cut on a label boundary, and nothing else is |
| Suffix.ByteTestIsLabelTest | src/name.rs:147-157 | the byte test is the label test whenever no label octet looks like the length of the owner's first label |
| Suffix.LookalikeSuffix | src/name.rs:147-152 | a pair of names the byte test takes for a subdomain and its parent although no label suffix is shared |
| Suffix.SubstitutionIsExact | src/engine.rs:290-312 | for every name under the owner by labels exactly the owner's labels are replaced by the target's; the answer is missing exactly when the name is not strictly below by the byte test or the result is too long |
| Suffix.AnsweredOutside | src/engine.rs:290-312 | a name that is not below the owner by labels is answered if and only if it passes the byte test off a label boundary and the substituted name is not too long |
| Suffix.LookalikeAnswered | src/engine.rs:290-312 | for every target that is a name, a question outside the owner's subtree and an owner for which the answer is that target |
| Suffix.SynthesizeCname | src/engine.rs:290-312 | copying labels into a buffer and parsing it computes the substitution |
| TypeBitmap.BitmapRoundTrip | src/rdata.rs:816-885 | parsing the written bitmap of any list of types gives the ascending duplicate-free list and consumes exactly the written octets |
| TypeBitmap.BitmapWindows | src/rdata.rs:850-885 | the written windows ascend, each number once, with 1 to 32 octets of which the last is not zero |
| TypeBitmap.WriteBitmap | src/rdata.rs:850-885 | marking types in windows in place and writing the windows appends the bitmap |
| TypeBitmap.ReadBitmap | src/rdata.rs:816-848 | the loops over windows, octets and bits compute the parse of the bitmap |
| TypeBitmap.SortDedupSorts | src/rdata.rs:851-858 | sorting and deduplicating keeps the same types in ascending order |
| Edns.OptionsRoundTrip | src/edns.rs:370-485 | every list of faithful options parses back from its octets |
| Edns.PayloadRoundTrip | src/edns.rs:370-485 | the payload of an option parses back to it if and only if the subnet is canonical, the client cookie has eight octets, padding is zero and no known code hides as unknown |
| Edns.EcsRoundTrip | src/edns.rs:231-278 | exactly the canonical client subnets survive the wire |
| Edns.ConstructedIsCanonical | src/edns.rs:154-182 | the constructors accept exactly the prefixes that fit, and what they build is canonical and survives the wire |
| Edns.MaskKeepsPrefix | src/edns.rs:281-296 | a bit of the masked address is set if and only if it stands within the prefix and is set in the address |
| Edns.Mask | src/edns.rs:281-296 | copying and trimming in place computes the masked address |
| WireFormat.ConstructedSubnet | src/edns.rs:154-182 | a constructed subnet has the family of its address, the prefix asked for, no scope and the masked address, and is refused only for a prefix longer than the address |
| Edns.TtlRoundTrip | src/edns.rs:346-366 | extended rcode, version and DO bit survive the TTL field |
| HeaderFlags.FlagsRoundTrip | src/message.rs:67-108 | the flags survive the wire if and only if opcode and rcode fit four bits |
| HeaderFlags.WordRoundTrip | src/message.rs:67-108 | every flags word survives except its reserved bit, which is cleared |
| Serializer.Serialize | src/message.rs:276-329 | the passes with placeholder counts and patches produce the serialized message or the error of the record that does not fit |
| Serializer.WriteRecord | src/rdata.rs:963-987 | owner, header, placeholder, RDATA and patch append exactly the record and update the table |
| Serializer.WriteFields | src/rdata.rs:569-752 | the fields are appended in order with their names compressed where the type allows it |
| Serializer.SectionsJoin | src/message.rs:293-301 | writing the three sections one after the other is writing their concatenation |
| Deserializer.Deserialize | src/message.rs:197-272 | the loops with an advancing position compute the parsed message |
| Deserializer.ReadExtras | src/message.rs:239-259 | the additional section loop sets the OPT record apart and refuses a second one |
| Deserializer.ReadFields | src/rdata.rs:200-560 | the fields of the layout are read one after another within the RDATA |
| Deserializer.ReadOptions | src/edns.rs:420-485 | the option loop computes the parsed options |
| Truncation.TruncationIsExact | src/message.rs:350-409 | a message over the limit, or over 512 if that is more, gets the TC bit and keeps a prefix of each section, in all the longest prefix of its records that fits, and the rest of its fields; any longer prefix would exceed the limit; the result is within it if and only if header, questions and OPT record are |
| Truncation.FitsAfterTruncation | src/message.rs:343-363 | whatever the message and the limit, truncation leaves it within the limit if and only if header, questions and OPT record are; a message within the limit is not changed |
| Truncation.MinimalMessageOver | src/message.rs:343-363 | a message with no question and no record that takes 627 octets and is still over 512 after truncation |
| Truncation.CutBytes | src/message.rs:340-349 | the octets of a cut message behind the header are those the fitting pass produced, followed by the OPT record |
| Truncation.NoLongerFit | src/message.rs:386-408 | beyond the record that went over, no longer prefix fits either |
| Truncation.TcKeepsFit | src/message.rs:350-360 | setting the TC bit before the fitting pass does not change what fits |
| Truncation.Response.TruncateForUdp | src/message.rs:350-360 | editing the sections in place leaves the truncated message |
| Truncation.Response.FitSections | src/message.rs:365-409 | one pass that undoes the record that went over counts how many records of each section fit |
| Truncation.FitSection | src/message.rs:391-407 | the pass over one section continues the count of the sections before it |
| Bounded.StalePass | src/bounded.rs:45-52 | if anything is stale, exactly the stale entries go |
| Bounded.StridePass | src/bounded.rs:53-60 | otherwise every stride-th entry in key order goes, floor(n / stride) of them |
| Bounded.OldestPass | src/bounded.rs:61-74 | with fewer entries than the stride, one with the oldest stamp goes |
| Bounded.EvictionContract | src/bounded.rs:23-74 | what is kept is unchanged, and exactly the non-empty tables lose something |
| Bounded.EvictForCapacity | src/bounded.rs:36-74 | the retain passes and the minimum search leave the evicted table, count what went, and visit as many entries as the cost results say |
| Bounded.SweepIsPaid | src/bounded.rs:13-22 | a sweep visits at most 4 * stride entries for each one it frees if and only if nothing is stale or at least one entry in 4 * stride is |
| Bounded.AmortisedCost | src/bounded.rs:13-22 | by a potential argument, a stream of arrivals whose sweeps are paid for visits at most 4 * stride entries for each new key it brought, whatever the capacity and however often known keys are hit in between |
| Bounded.FreshStreamPays | src/bounded.rs:13-22 | in a stream whose sweeps never find anything stale every one of them is paid for |
| Bounded.OldestGoWhen | src/bounded.rs:45-74 | a sweep drops nothing stamped later than what it keeps if and only if something is stale, fewer than stride entries are held, or the entries at multiples of the stride are the oldest |
| Bounded.TrickleCost | src/bounded.rs:13-22 | a stream in which one entry turns stale per insertion visits the whole table at every insertion; its sweeps are paid for exactly if the table holds at most 4 * stride entries |
| FakeIp.RunNeverFails | src/fakeip.rs:481-505 | in every run of all operations an allocation succeeds with an address of the range that then looks up to its name |
| FakeIp.RunIsValid | src/fakeip.rs:481-598 | in every run the two maps stay inverse and every address in range |
| FakeIp.RunIsStable | src/fakeip.rs:36-44 | while a name keeps a mapping it keeps its address, and the address looks up to it |
| FakeIp.AllocateIsSafe | src/fakeip.rs:481-505 | allocation never fails, is stable for a known name, and takes the size no further than the cap or where it was |
| FakeIp.ScanFinds | src/fakeip.rs:595-610 | among one candidate more than there are mappings one is free, if the space is not full |
| FakeIp.HandOut | src/fakeip.rs:601-610 | a new name gets the last address visited for it, and every other one visited was owned by a mapping that is still there |
| FakeIp.ReuseDistance | src/fakeip.rs:601-624 | between two visits of the cursor to an address it went through the whole range, so every other address was visited in between |
| FakeIp.StepKeeps | src/fakeip.rs:481-598 | every operation keeps the maps inverse and changes the address of no name that keeps a mapping |
| FakeIp.IndexIsInverse | src/fakeip.rs:584-593 | rebuilding the name index after a sweep restores the inverse and moves no name |
| FakeIp.ReclaimRespectsRecency | src/fakeip.rs:575-582 | the mappings reclaimed are the least recently used if and only if some are stale, fewer than eight are held, or every eighth in address order was used no later than the others |
| FakeIp.ReclaimCounts | src/fakeip.rs:575-582 | the eviction counter grows by exactly what a reclaim drops |
| FakeIp.ReclaimIgnoresRecency | src/fakeip.rs:575-582 | in a pool of at least eight fresh mappings those reclaimed are every eighth in address order |
| FakeIp.LastUsedGoes | src/fakeip.rs:46-48 | for every n from eight on, a full valid pool of n mappings in which the one used last is reclaimed with every eighth, and all others stay |
| FakeIp.RestoreAccepts | src/fakeip.rs:523-547 | a mapping is accepted if and only if its address is in the range, belongs to nobody else and its name has no other address; then it alone is added or renewed |
| FakeIp.RestorePassesCap | src/fakeip.rs:523-547 | the size is past the cap after a restore if and only if it was before, or a new address was accepted in a space that was just full |
| FakeIp.RestoreIgnoresCap | src/fakeip.rs:523-547 | a full valid space that takes one more mapping |
| FakeIp.Allocator.Allocate | src/fakeip.rs:481-505 | lookup, reclaim, scan and insertion in both maps leave the allocated space, and a valid space never yields the internal error |
| FakeIp.Allocator.TakeKey | src/fakeip.rs:601-610 | the bounded scan finds the first free candidate and leaves the cursor past it |
| FakeIp.Allocator.Advance | src/fakeip.rs:613-624 | the cursor moves to the next candidate and wraps at the end of the range |
| FakeIp.Allocator.Reclaim | src/fakeip.rs:575-582 | a sweep, its count and a rebuilt index |
| FakeIp.Allocator.RebuildNameIndex | src/fakeip.rs:588-593 | the loop over the addresses rebuilds the index |
| FakeIp.Allocator.Restore | src/fakeip.rs:523-547 | a mapping that disagrees with the range or an owner is refused and changes nothing |
| FakeIp.Allocator.CleanupExpired | src/fakeip.rs:550-558 | exactly the expired mappings go, and their number is returned |
| FakeIp.Allocator.Release | src/fakeip.rs:561-565 | one mapping is dropped from both maps |
| FakeIp.Allocator.Lookup | src/fakeip.rs:507-511 | the owner is returned, its entry is stamped with the time, and nothing else changes |
| Recency.CleanupKeepsTheUsed | src/fakeip.rs:481-558 | in every run from an empty space whose times do not go back, a cleanup keeps a mapping if and only if it was allocated, looked up or restored within the time to live before it |
| Recency.UsedMappingStays | src/fakeip.rs:481-582 | a mapping that was used keeps its address through any operations, cleanups up to the time to live later included, until it is released, cleared or a full space makes room |
| Recency.EndsWhen | src/fakeip.rs:481-572 | a step that makes no room ends a mapping if and only if it clears the space, releases it, or is a cleanup more than the time to live after its last use |
| Recency.UsedIsMapped | src/fakeip.rs:481-547 | whatever is used is mapped afterwards |
| Provenance.PushRefinesBuild | src/provenance.rs:216-277 | for every sequence of dependencies, pushing one by one and building at once keep the same freshness values and the same residual floor |
| Provenance.TrimmingIsSound | src/provenance.rs:311-318 | however a set was trimmed, its bound is the weakest of everything ever added, capped at one, and stale service is permitted exactly when nothing ever added was a proof |
| Provenance.PushAllSummarises | src/provenance.rs:257-277 | after every push the set holds all proofs, the weakest others, and the floor of everything discarded |
| Provenance.FromDependenciesSummarises | src/provenance.rs:216-253 | building from a list holds all proofs, the weakest others, and the floor of everything discarded |
| Provenance.SummaryIsUnique | src/provenance.rs:54-63 | two such summaries of the same dependencies have the same freshness values and residual |
| Provenance.PlanIsOptimal | src/provenance.rs:384-398 | by position: for every k, refreshing the first k dependencies of the sorted order, each by itself, gives a bound at least as high as refreshing any k dependencies |
| Refresh.OptimalWhen | src/provenance.rs:384-398 | carried out by cache key, a choice of keys is as good as any m keys if and only if it reaches the residual floor or the dependencies no fresher than the bound it gives live at more than m keys |
| Refresh.PlanIsOptimalWhen | src/provenance.rs:384-398 | the keys the plan returns are optimal among as many keys exactly under that condition |
| Refresh.PlanIsOptimalBySort | src/provenance.rs:384-398 | in terms of the sorted list: they are if and only if the first dependency whose key is not planned is missing or not below the residual floor, or the dependencies no fresher than it live at more keys than were asked for |
| Refresh.PlanIsDeterministic | src/provenance.rs:380-398 | the plan does not depend on the order in which dependencies were added, and names as many keys as were asked for, at least one, if there are as many |
| Refresh.PlanOrder | src/provenance.rs:380-398 | the weakest dependencies come first, equally fresh ones by role from answers to proofs, and those of one role by key |
| Refresh.BuildIsDeterministic | src/provenance.rs:216-253 | nor does the set built from a list over the cap |
| Refresh.HoldsAllItMay | src/provenance.rs:216-277 | however it was built, a set holds all proofs, and others up to the cap, which is at least one |
| Refresh.DistinctPlanIsOptimal | src/provenance.rs:384-398 | the keys the plan returns are optimal whenever they differ from one another |
| Refresh.DistinctIsOptimal | src/provenance.rs:384-398 | in particular when no two dependencies share a key |
| Refresh.SharedKeyIsMissed | src/provenance.rs:487-503 | with an alias, an answer and a proof at the answer's key, the plan for two keys names that key twice and leaves the bound at the alias, where two keys would lift it to one |
| Provenance.RiskReductionIsExact | src/provenance.rs:354-369 | the reported gain is exactly what refreshing that dependency alone gains, and is positive exactly for the unique weakest one below the residual |
| Provenance.SortedIs | src/provenance.rs:220-227 | the sort orders by freshness, role and key and permutes the list |
| Severity.TrimmingHidesSeverity | src/provenance.rs:406-408 | a set of two whose worst consequence class is lost by trimming |
| Severity.SeverityAfterBuild | src/provenance.rs:216-253 | built from a list over the cap, a set reports the worst class of the list if and only if a dependency of that class is a proof or stands in sorted order before the other non-proofs fill the room |
| Severity.SeverityAfterPushes | src/provenance.rs:257-277 | built by pushes, a set reports the worst class of everything pushed if and only if a dependency of that class is a proof or has fewer non-proofs ahead of it, by freshness and then order of arrival, than there is room |
| Severity.PushSurvival | src/provenance.rs:257-277 | the positions still held after any number of pushes are exactly the proofs and the non-proofs with fewer others ahead than there is room |
| Severity.ProofIsWorst | src/provenance.rs:401-408 | a set reports the absolute class if and only if it has a proof |
| Provenance.Dependencies.Push | src/provenance.rs:257-277 | append, and over the cap remove the strongest non-proof and lower the floor |
| Provenance.Dependencies.FromList | src/provenance.rs:216-253 | draining the sorted list builds the trimmed set |
| Provenance.Dependencies.WeakestLink | src/provenance.rs:311-318 | the fold computes the bound |
| Risk.CostIsBounded | src/risk.rs:348-431 | an answer that passes its class's floor costs at most value * (1 - base) * trust penalty, whatever the class |
| Risk.AllowedIsSafe | src/risk.rs:397-431 | stale service is allowed exactly when the class permits it, the horizon is kept and the floor is met |
| Risk.GrantIsExact | src/risk.rs:565-583 | a request is granted in full, or as far as there are whole tokens after the refill, and that many are taken |
| Risk.RefreshIsBounded | src/risk.rs:565-583 | over any run of requests at any times, refreshes granted are at most the capacity plus what the clock refilled |
| Risk.DrainedBound | src/risk.rs:476-483 | draining takes off no more than the rate allows for the advance of the clock, which never goes back |
| Risk.RiskLedger.TryCharge | src/risk.rs:504-520 | a risk is admitted and charged exactly when the debt stays within the capacity; otherwise only the drain and the refusal count show |
| Risk.RiskLedger.Drain | src/risk.rs:476-483 | the debt falls with time and never below zero |
| Risk.RefreshBudget.TakeUp | src/risk.rs:565-583 | refill, partial grant and counters |
| Planner.WindowBound | src/planner.rs:249-291 | over any slice of any run, with any timestamps, the risk of the stale answers is at most capacity + rate * the advance of the ledger clock |
| Planner.BoundUpToStale | src/risk.rs:433-441 | up to any stale answer the bound holds for every configuration, even of negative rate |
| Planner.StaleIsPaidFor | src/planner.rs:249-291 | a stale answer is never of the absolute class, meets horizon, floor and evidence gate, and is charged its risk; any other outcome is charged nothing |
| Planner.StaleCost | src/planner.rs:249-291 | each stale answer adds at most value * (1 - base) * trust penalty to the total |
| EntryPlans.ChargedWhen | src/risk.rs:476-520 | a charge is admitted if and only if what is left of the debt after draining, and the charge, stay within the capacity; debt, clock and counters follow |
| EntryPlans.PlanByEntry | src/planner.rs:100-112 | without a context, an expired entry is served stale if and only if there is enough evidence, its type has terms, it expired no longer ago than their horizon, its model is certain enough of it that long past its expiry, and the harm can be afforded |
| EntryPlans.PlanByContext | src/planner.rs:249-291 | with a context, the same in terms of its class, staleness, freshness, value and trust, with the documented horizons and coefficients; the harm is then charged to the drained debt |
| EntryPlans.EveryDependencyAllows | src/planner.rs:113-121 | an answer is served stale only if each of its dependencies has a role with terms, is fresh enough for them, and the answer is no staler than they allow |
| TrimmedPlans.ServedAboveKeptFloor | src/planner.rs:113-121 | an answer served stale has no proof among all dependencies ever added, trimmed or not, and all of them are above the floor of the class that trimming left |
| TrimmedPlans.SamePlanWhen | src/planner.rs:249-291 | a trimmed set never refuses what the whole set allows, and the plans are the same if and only if whatever the trimmed set serves passes horizon, floor and budget of the whole set's class |
| TrimmedPlans.AlwaysSameWhen | src/planner.rs:113-121 | trimming changes no plan under any configuration, entry, ledger and context of a class if and only if that class with the worst dependency is the same before and after, or the bound is below every floor of the class that is left |
| TrimmedPlans.TrimmedDelegationIsServed | src/planner.rs:113-121 | a delegation past its horizon and below the floor of its class that is served when the cap is one and refused when it is two |
| TrimmedPlans.BothTrim | src/provenance.rs:216-277 | both ways of building a set are trimmings in the sense of these results |
| Planner.PlanQuery | src/planner.rs:249-291 | the decision and the ledger it leaves |
| Evidence.EvidenceIs | src/hazard.rs:507-605 | after every history the evidence for changes is the sum of the weights of the changes seen, and the exposure evidence that of the seconds seen by their weights, each times the forgetting factors of everything after it |
| Evidence.NoChangeNoEvidence | src/hazard.rs:589-594 | without a change seen there is no evidence for changes |
| Evidence.ChangesCount | src/hazard.rs:589-594 | right after a change of weight w the evidence for changes is at least w, and an event that saw none never raises it |
| Evidence.PosteriorIs | src/hazard.rs:379-389 | the posterior of a history is the configured prior around the anchor TTL and that evidence |
| Evidence.AnchorMoves | src/hazard.rs:570-587 | the first observed TTL replaces the anchor, each later one moves it a fifth of the way and the volatility likewise, and nothing else moves them |
| Evidence.CountersAre | src/hazard.rs:523-605 | the counters hold the observations, the changes, the failures and the failures since the last observation |
| Evidence.LifetimeIs | src/hazard.rs:589-603 | the lifetime exposure is everything ever seen, without forgetting, and the last change is when a change was last seen |
| Evidence.FreshnessIs | src/hazard.rs:406-422 | the conservative freshness is the chance of no change at a rate above the posterior mean at which the Chernoff bound on the Gamma tail has fallen to one minus the confidence |
| Evidence.FreshnessFalls | src/hazard.rs:406-422 | further past its expiry an answer is never fresher |
| Hazard.EvidenceCeiling | src/hazard.rs:507-605 | over every history with intervals up to H and weights up to w, failures and decays included, the exposure evidence stays within w * (tau + H) |
| Hazard.TauIsCeilingWhen | src/hazard.rs:80-96 | every history with intervals up to H and weights up to w keeps the exposure evidence within w * tau if and only if w or H is zero |
| Hazard.PastTau | src/hazard.rs:80-96 | otherwise some number of equal observations is a history that goes past it |
| Hazard.MeanHasFloor | src/hazard.rs:384-389 | the posterior mean has a positive floor that no evidence within the ceiling lowers |
| Hazard.BoundIsSafe | src/hazard.rs:261-304 | the bisection returns a rate above the mean where the Chernoff bound has fallen to the tail probability, 96 halvings of the bracket away from one where it has not |
| Hazard.LcbStaysBelowOne | src/hazard.rs:412-422 | for any positive horizon the decision bound is below 1 by an explicit margin |
| Hazard.HistoriesStayBelowOne | src/hazard.rs:412-605 | so it is after every history within the limits, with the evidence ceiling in place of the evidence |
| Hazard.FactsAreConsistent | src/float.rs:130-140 | the facts assumed of the exponential and the logarithm do not contradict each other |
| Hazard.Sanitised | src/hazard.rs:232-245 | a sanitised configuration forgets with a constant of at least one second, from a positive prior |
| Evidence.SanitisedIsNearest | src/hazard.rs:232-245 | sanitising keeps a value in range and brings any other to the nearer end |
| Hazard.RateIsFinite | src/hazard.rs:261-304 | with a sanitised configuration the bracket is found within the 64 doublings, so the bound is finite in every state a history can reach |
| Hazard.GammaUpperBound | src/hazard.rs:261-304 | doubling and 96 bisections compute the bound |
| Hazard.HazardModel.Observe | src/hazard.rs:556-605 | TTL folding and evidence update leave the observed state |
| Hazard.HazardModel.DecayTo | src/hazard.rs:507-517 | the evidence fades by the elapsed time and the clock moves |
| Hazard.HazardModel.ObserveFailure | src/hazard.rs:523-527 | a failure ages the evidence and teaches nothing |
| Alias.RunIsValid | src/alias.rs:85-186 | after every run of links and prunes the two sides are converse, the counter is the number of pairs and within the cap |
| Alias.LinkKeeps | src/alias.rs:85-108 | a link adds its pair unless the graph is full, and keeps the invariant |
| Alias.PruneKeeps | src/alias.rs:151-186 | pruning keeps the invariant, with a fresh count |
| Alias.PruneRestricts | src/alias.rs:151-186 | what is left is exactly the relation between live keys |
| Alias.EdgeCountIs | src/alias.rs:182-185 | the recount finds exactly the pairs |
| AliasAges.PruneKeepsTheSeen | src/alias.rs:85-186 | in every run that starts empty and whose times do not go back, a prune keeps an edge if and only if both ends were linked within the age it is given, or the configured one |
| Alias.ClosureIsSound | src/alias.rs:128-144 | the closure has only reachable keys, and all of them if fewer than the limit came up |
| AliasOrder.ClosureIsNearest | src/alias.rs:128-144 | for some d it has every key that at most d links lead to and none that more than d + 1 are needed for |
| Alias.ClosureOverrun | src/alias.rs:128-144 | it exceeds its limit if and only if the limit is zero or a key, when its turn comes with the limit not reached, has more unknown targets than there is room for; the excess is less than the out-degree of a key in the closure |
| Alias.ChainsStayWithin | src/alias.rs:128-144 | it stays within a positive limit where every reachable key has at most one target |
| Alias.ThreeTargets | src/alias.rs:128-144 | a graph whose closure with limit two has four keys |
| Alias.LastStageStops | src/alias.rs:128-144 | the queue is empty or enough is known after at most as many expansions as there are keys to meet |
| Alias.AliasGraph.Closure | src/alias.rs:128-144 | the queue loop computes the closure in key order |
| Alias.AliasGraph.Link | src/alias.rs:85-108 | both maps, the last-seen times and the counter are updated |
| Alias.AliasGraph.Prune | src/alias.rs:151-186 | dead keys leave both maps and the counter is recounted |
| Digest.QuantileIsTwoSided | src/calibration.rs:329-344 | the quantile is the edge of the bucket of the sample of that rank: never below it, at most twice it exactly for samples from 1 up to 2^23 or from 2^63, and the fallback is never reached |
| Digest.QuantileCovers | src/calibration.rs:329-344 | at least the share q of the samples is at most the quantile, which is the edge of the bucket of a sample with less than that share, or nothing, strictly below it |
| Digest.QuantileGrows | src/calibration.rs:329-344 | a higher quantile is never smaller |
| Digest.RankExists | src/calibration.rs:329-344 | every rank from 1 to n has its sample |
| Digest.RankIs | src/calibration.rs:333-334 | the rank sought for any q is between 1 and the number of samples |
| Digest.RankIsLeast | src/calibration.rs:333-334 | it is the least rank, from one on, that is not below q times the number of samples |
| Digest.RecordSpans | src/calibration.rs:284-293 | the extremes are those of the samples and the sum is theirs, capped at 64 bits |
| Digest.RecordKeeps | src/calibration.rs:284-293 | recording keeps each counter equal to the number of samples in its bucket |
| Digest.EdgeApproximates | src/calibration.rs:346-362 | the edge of a latency's bucket is not below it, and at most twice it exactly in the stated ranges |
| Digest.LatencyDigest.Record | src/calibration.rs:284-293 | the counters, the total, the sum and the extremes are updated in place, saturating |
| Digest.LatencyDigest.QuantileUs | src/calibration.rs:329-344 | accumulating the counters finds the bucket of the rank |

## Left out

- Sockets, threads, transports, forwarder pools and the server loops (src/server.rs, src/forward.rs, src/transport.rs): I/O.
- The resolver loop, the tiered cache and its entries, the upstream selector, DNSSEC validation: other subsystems. The planner's view of a cache entry is reduced to the four values it reads.
- Configuration parsing, statistics, synchronisation and error texts: an error is one of two classes, and messages are not modelled.
- Random letter case, entropy and the hash and cipher internals: not functional properties.
- Floating point: rounding, infinities other than an unbounded risk or rate, and NaN handling are not modelled; `exp_nonpos` keeps its cut-off at -745.
- Saturation of `i128` timestamps and of diagnostic `u64` counters: timestamps are integers and counters are naturals, except in the latency digest, where saturation is explicit.
- Digest.QuantileIsTwoSided: the running sum of the counters is not saturated, because with fewer than 2^64 samples it cannot be.
- The estimator's demand profile, calibration scores and the adaptive observation interval: they decide value, not safety.
- `freshness_predictive` and `independent_bound`: reported, never used to decide.
- The value-level variants of RDATA (`RData::A`, `RData::Mx` and so on): RDATA is the field list that `RData::parse` and `to_wire` run through, in the same order.
- Codec.RoundTrip: asks each record's RDATA to have the fields of its type, because the printer goes by the variant and the parser by the type.
- Suffix.ByteTestIsLabelTest: one direction of the condition only; a name can contain the length octet of the owner's first label and still be judged correctly.
