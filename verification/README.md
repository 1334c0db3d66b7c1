# Copper Golem Launcher: verified models

Dafny 4.11 models of the parts of the launcher where a mistake is silent: the PE
import injection, the helper protocol with its event push, resumable downloads and
the modules' private storage. `dafny verify dfyconfig.toml` checks everything.

## What is modelled

**PE import injection.** `Bytes`, `Checksum`, `Parse`, `Import` and `Rebuild` follow
`src-tauri/src/pe/` step by step: loops and buffer writes are methods over a
`ByteBuffer`, each proved equal to a function of its input. Files are byte
sequences; 32-bit sums wrap as they do without overflow checks, saturating sums
saturate, and slices that would abort the program are preconditions
(`SlotReadable`, `SlotWritable`, `Rebuildable`). The `Patched*` modules then prove what the written
file *is*, by reading it with the same parser:

- `PatchedBytes.WellFormed` lists the facts that the code uses and only partly checks;
  `FitsIn32` says that no 32-bit sum overflows; `Ready` adds a plan made for the image;
  `PatchedContents.Patches` names the file made from it. `Fixture` gives a concrete
  image that meets all of them, with headers that grow and an overlay.
- `Iat` models the hook's scanner of mapped modules, which reads the same tables by
  its own code; `HookAgreement` proves that it finds what the rewriter has written.
- `ParseRules`, `PlanRules`, `RewrittenFields` and `IatHits` say what parser, plan, rewriter and
  scanner answer in terms of the bytes and their offsets alone, without the functions that the
  methods are proved against: each error and its order, and every byte of the new file.

**Host/helper session.** Several threads interleave here, so the session is a transition system
(`Session`): the caller, the publishers, the reading thread, the helper's main loop and the
plugin take atomic steps over two FIFO pipes, with histories of what was computed, returned and
handled. A plugin may finish at any point with any result, of which the length matters too;
`Plugin` says in which jobs it may ask for capabilities (requests, events read by the main loop,
drained events), and `SessionPlugins` compares plugins, so that each protocol property is stated
as an if-and-only-if over all of them. `HelperLoop` holds the receive loop and the deferred
queue as they are programmed and ties the loop to the session's steps. `EventBridge` has one
method per critical section of the push bridge, `EventPump` interleaves those of one channel and
`EventRegistry` those of the table. `Ipc` is the framing underneath; JSON is a codec parameter
without raw line breaks (section 7 of RFC 8259).

**Downloads and storage.** `Download` has the attempt, the retry loop, the checksum
rounds and the final move as methods, and proves them against an honest server
(sections 14.2 and 15.3.7 of RFC 9110). `Storage` has the cache and the files as one
object; every fault of a write is an argument, and the disk keeps a ghost history of every
state that its files have been in.

## Where code and comments differ

The code is what is modelled. Each of these is stated as a theorem.

- `rebuild.rs:80` takes the overlay from `raw_end + delta` in the unshifted data. The
  overlay survives exactly when the headers do not grow or there is none, and one that is not
  longer than `delta` is dropped whole (`PatchedOffsets.OverlayKept`, `CertificateInOverlay`,
  `CertificateKept`; `Fixture.OverlayIsLost`).
- `rebuild.rs:155-158` promises 0 for a zero pointer; the two pointers of the new section
  header hold `delta` (`PatchedImage.SlotWritten`).
- `rebuild.rs:10-12` says that no file offset can be forgotten. The relocation and line number
  pointers of the old section headers are (`PatchedOffsets.SectionPointersStay`). A COFF symbol
  table inside the overlay is not relocated with it, nor is debug data, of which
  `rebuild.rs:210-212` says that it is never there (`PatchedOffsets.SymbolsInOverlay`,
  `DebugInOverlay`).
- `checksum.rs:3-4` describes a folded sum plus the length; the code folds that total
  again, which agrees exactly for totals below 0x10000
  (`Checksum.PlainSumExactlyWhenShort`). The field is skipped only on a word boundary
  (`Checksum.OwnFieldIgnoredExactlyWhenEven`).
- A file with 4096 descriptors is planned and written, but then exceeds the reader's own
  cap (`PatchedImports.ImportsAppended`).
- `helper_runtime.rs:182-194`: an event handler that asks for a capability can read, and
  lose, the host's next request, and the stray response then ends the helper
  (`SessionProtocol.ConversationHoldsExactly`, `Session.ReadByCallIsLost`). A drained handler
  that does so lets a later event overtake (`SessionEvents.SendOrderExactly`).
- A plugin's output may have as many bytes as a frame (`plugin_abi.rs:8`, `ipc.rs:7`), and the
  response wraps it. One that does not fit is not reported as an error of its request: the
  helper ends on it (`copper_module_helper.rs:135-138`), and the host's reading thread on a
  capability's answer that does not fit (`helper_client.rs:515-529`). From then on no request is
  answered (`Session.UnsendableIsLost`, `SessionProtocol.StillAnswersExactly`).
- `ipc.rs:75-98`: a response whose top-level result is JSON null is encoded but refused on decoding
  (`Ipc.DecodeEncoded`), so that `write_ndjson_frame` never sends it (`Ipc.SentExactly`). The
  helper's results are objects, with a plugin's null inside, and so are the answers of the
  launcher's own capabilities; only another implementation of `CapabilityDispatcher` could answer null.
- `manager.rs:849-853` says that the checksum rounds are bounded by `retry_count`; line 807
  can lower it, so that with two or more retries no bound exists
  (`Download.RoundsBoundedExactly`).
- `error.rs:49-52` says that file errors are never retried; the code retries those that are not in
  its list of fatal kinds (`Download.FileErrorRetriedExactly`).
- The downloader keeps a whole partial file when the hash or the move fails, but a resumed request
  for what follows its end is refused by the server, and no later run can finish
  (`Download.CanCompleteExactly`).
- `addon_events.rs:326-329` says that the table entry is removed last, so that no further event
  gets out. The code removes it first and then shuts the channel down; in between events can still
  be accepted and pushed (`EventPump.PushedAfterRemovalExactly`, `EventPump.LatePush`).
- `addon_events.rs:296-299` promises that registering an id again leaves no old channel behind. Two
  registrations of one id that overlap can leave one (`EventRegistry.SafeToBeginExactly`).

## Model

| member | source | states |
|---|---|---|
| Bytes.CeilDiv | src-tauri/src/pe/parse.rs:78-83 | dividing, rounding up and multiplying gives the least multiple that reaches the value |
| Bytes.ComputeAlignUp | src-tauri/src/pe/parse.rs:78-83 | the 32-bit rounding is that least multiple, wrapped when it does not fit |
| Checksum.PeChecksumWith | src-tauri/src/pe/checksum.rs:12-39 | the folding loop equals a closed form: the sum of the counted words reduced to 1..65535 (0 only for 0), plus the length, folded once more |
| Checksum.ValueExactly | src-tauri/src/pe/checksum.rs:12-39 | said of the bytes: their sum, each weighted by its place and none of the field, cut to 16 bits with end-around carry, plus the length, and what is beyond 16 bits added once more |
| Checksum.PeChecksum | src-tauri/src/pe/checksum.rs:42-57 | uses the field 88 bytes behind e_lfanew; 0 for files too short to have one |
| Checksum.FoldStep | src-tauri/src/pe/checksum.rs:22-24 | folding after each word keeps the canonical residue of the whole sum |
| Checksum.PermutationInvariant | src-tauri/src/pe/checksum.rs:12-39 | the value depends on the counted words only as a multiset, and on the length |
| Checksum.OwnFieldIgnoredExactlyWhenEven | src-tauri/src/pe/checksum.rs:10-20 | files that differ in the field only have equal checksums, whatever they hold, exactly when the field offset is even |
| Checksum.PlainSumExactlyWhenShort | src-tauri/src/pe/checksum.rs:33-38 | for files of every length, "folded sum plus length" holds exactly while that total is below 0x10000 |
| Checksum.StampedMatches | src-tauri/src/pe/parse.rs:200-212 | clearing, summing and storing gives a file that passes the checksum test, for an even offset |
| Checksum.StampedMatchesExactlyWhenEven | src-tauri/src/pe/parse.rs:200-212 | storing the checksum makes every file of n bytes pass the test exactly when the field offset is even |
| Parse.Parse | src-tauri/src/pe/parse.rs:107-183 | returns the specified image or the first failing check's error |
| Parse.ParseMeaning | src-tauri/src/pe/parse.rs:107-183 | parsing succeeds with an image exactly when the headers pass, the section table is inside the file and the image decodes both |
| ParseRules.ParseExactly | src-tauri/src/pe/parse.rs:107-183 | said of the file: its problems are numbered, the answer is that of the first, and without one each field of the image is the number that stands at its offset |
| ParseRules.MappedExactly | src-tauri/src/pe/parse.rs:233-252 | an address maps to an offset exactly when the first section that reaches over it gives that offset |
| Parse.SectionsFromMeaning | src-tauri/src/pe/parse.rs:143-161 | the section loop succeeds exactly when the table is inside the file, and returns the headers in order |
| Parse.StringFromMeaning | src-tauri/src/pe/parse.rs:258-274 | a NUL-terminated string below the cap is read back exactly |
| Parse.ReadAnsiString | src-tauri/src/pe/parse.rs:258-274 | reads the bytes up to NUL, end of file or the cap of 4097 |
| Parse.DescriptorsFromMeaning | src-tauri/src/pe/parse.rs:353-378 | reading returns a list exactly when it is the whole table up to the null entry and has at most 4096 entries |
| ParseRules.ImportsExactly | src-tauri/src/pe/parse.rs:342-379 | said of the file: the entries 20 bytes apart from where the directory maps, up to the first whose three fields are 0, at most 4096; and when each of the refusals is given |
| Parse.ImportDescriptors | src-tauri/src/pe/parse.rs:342-379 | the import list, or why it cannot be read |
| Import.PlanAddImport | src-tauri/src/pe/import.rs:89-267 | the plan, or the refusal of the first check that fails, with every check in the order of the source |
| PlanRules.PlanExactly | src-tauri/src/pe/import.rs:58-201 | a plan is refused exactly for a name that is not 1 to 255 bytes of ASCII without 0, for an unreadable list, or by the first of eight numbered objections to the image, with its error |
| PlanRules.PlanSays | src-tauri/src/pe/import.rs:114-267 | every number and every byte of a plan: where the section goes, its table, thunks, hint and names, and the least multiples that the sizes are rounded to |
| Import.SameLettersExactly | src-tauri/src/pe/import.rs:93-98 | two names count as equal exactly when they are as long and at each place the bytes are equal or a letter A to Z and that letter plus 32 |
| Import.PlanMeaning | src-tauri/src/pe/import.rs:89-98 | a plan exists only for accepted names and a readable import list, and is made of them |
| Import.RawCheckMeaning | src-tauri/src/pe/import.rs:184-201 | the scan with its list of ranges accepts exactly the images whose raw data is in the file body and pairwise disjoint |
| Import.CheckRawRanges | src-tauri/src/pe/import.rs:184-201 | the loop is that scan |
| Import.AcceptedChecks | src-tauri/src/pe/import.rs:93-201 | what an image that passes every check is known to satisfy |
| Import.BuildBlob | src-tauri/src/pe/import.rs:203-246 | writing field by field into zeros gives descriptors, new descriptor, null descriptor, two thunk arrays, hint and name, dll name |
| Rebuild.ShiftSectionsInPlace | src-tauri/src/pe/rebuild.rs:143-153 | the loop is the recursive pointer shift |
| Rebuild.ShiftPointerInPlace | src-tauri/src/pe/rebuild.rs:165-172 | shifts a non-zero COFF symbol pointer |
| Rebuild.ShiftDebugInPlace | src-tauri/src/pe/rebuild.rs:179-206 | shifts the non-zero pointers of all debug entries that are in the buffer |
| Rebuild.ShiftCertificateInPlace | src-tauri/src/pe/rebuild.rs:231-240 | shifts a non-empty certificate entry |
| Rebuild.RelocateOverlayInPlace | src-tauri/src/pe/rebuild.rs:216-225 | moves a certificate entry that points behind the old data |
| Rebuild.AppendSection | src-tauri/src/pe/rebuild.rs:73-82 | cuts the buffer, appends the section and what the code takes for the overlay |
| Rebuild.WriteSlot | src-tauri/src/pe/rebuild.rs:84-104 | writes the 40 bytes of the new section header, its two pointers read from the slot |
| Rebuild.WriteSizes | src-tauri/src/pe/rebuild.rs:112-118 | section count, header size, image size, initialized size |
| Rebuild.WriteDirectories | src-tauri/src/pe/rebuild.rs:119-129 | import entry to the new section, bound import cleared |
| Rebuild.Apply | src-tauri/src/pe/rebuild.rs:43-137 | the whole rewrite, or its refusal, on every input on which no slice leaves its buffer |
| Rebuild.IntoData | src-tauri/src/pe/parse.rs:200-206 | the data with its checksum stored, and no other byte changed |
| Rebuild.ChecksumMatches | src-tauri/src/pe/parse.rs:209-212 | compares the stored value with the closed form |
| PatchedBytes.ReadyIsRebuildable | src-tauri/src/pe/rebuild.rs:43-137 | on a well-formed image with its plan no slice or write leaves the buffer, and the rewrite succeeds |
| PatchedBytes.ShiftSectionsAt | src-tauri/src/pe/rebuild.rs:143-153 | each PointerToRawData is its old value plus delta, or 0 for a section without data |
| PatchedBytes.ShiftDebugAt | src-tauri/src/pe/rebuild.rs:191-203 | each debug pointer in the buffer is shifted once, unless 0 |
| PatchedBytes.SectionByte | src-tauri/src/pe/rebuild.rs:73-77 | the new section holds the blob, then zeros |
| PatchedBytes.TailBytes | src-tauri/src/pe/rebuild.rs:78-82 | what follows the new section is the old file from raw_end + delta on |
| PatchedImage.SlotWritten | src-tauri/src/pe/rebuild.rs:84-104 | the slot decodes to the new section; its relocation and line number pointers hold delta |
| PatchedImage.PatchedParses | src-tauri/src/pe/rebuild.rs:43-137 | for every ready image the result parses, to the old image with its data moved and the new section added |
| PatchedContents.AddressSpace | src-tauri/src/pe/parse.rs:233-252 | every address mapped to o before is mapped to o + delta, with the same byte unless it is a rewritten debug pointer; otherwise exactly the new section maps |
| PatchedContents.ApplyPatches | src-tauri/src/pe/rebuild.rs:43-137 | applying the plan of a ready image returns the file that these results are about |
| RewrittenFields.ApplyExactly | src-tauri/src/pe/rebuild.rs:43-71 | the rewrite is refused exactly for another machine, a section named `copperh`, or low alignment when the raw and the virtual address would differ, in that order |
| RewrittenFields.FieldsSay | src-tauri/src/pe/rebuild.rs:112-129 | the number in the new file at each header field that is rewritten |
| RewrittenFields.OffsetsSay | src-tauri/src/pe/rebuild.rs:165-240 | the symbol table pointer and the certificate entry of the new file, as numbers, for every old value |
| RewrittenFields.ChecksumSays | src-tauri/src/pe/rebuild.rs:131-135 | the stored checksum is that of the new file with the field cleared |
| RewrittenFields.HeadersStay | src-tauri/src/pe/rebuild.rs:53-129 | every other byte of the headers in front of the section table is unchanged |
| RewrittenFields.RowsMove | src-tauri/src/pe/rebuild.rs:143-153 | in each old row of the section table PointerToRawData grows by delta or becomes 0 without raw data; its other 36 bytes are unchanged |
| RewrittenFields.NewRowSays | src-tauri/src/pe/rebuild.rs:84-104 | the forty bytes of the added row |
| RewrittenFields.GrownHeadersSay | src-tauri/src/pe/rebuild.rs:53-57 | behind that row the headers are the old ones, then zeros |
| RewrittenFields.NewSectionSays | src-tauri/src/pe/rebuild.rs:63-82 | where the new section starts, the length of the file, and every byte of the section |
| RewrittenFields.GapSays | src-tauri/src/pe/rebuild.rs:63-77 | the bytes between the old data and the new section: what followed the old data, then zeros |
| PatchedOffsets.SymbolsFollow | src-tauri/src/pe/rebuild.rs:160-172 | a symbol table pointer into the section data follows it; NumberOfSymbols is untouched |
| PatchedOffsets.DebugFollows | src-tauri/src/pe/rebuild.rs:174-206 | for each of the size / 28 debug entries and wherever its offset field stands in the section data: 0 stays 0, any other offset grows by delta, so that one into the section data follows it |
| PatchedOffsets.DataFollows | src-tauri/src/pe/rebuild.rs:51-61 | every byte of the section data that is in no such field is delta further and unchanged |
| PatchedOffsets.DebugInOverlay | src-tauri/src/pe/rebuild.rs:174-206 | a debug pointer into the overlay is left behind like a symbol pointer; an entry that lies in the overlay is copied unshifted, as far as it is kept |
| PatchedOffsets.SectionPointersStay | src-tauri/src/pe/rebuild.rs:143-158 | PointerToRelocations and PointerToLinenumbers of the old sections are not shifted; one that points into the section data still denotes the same exactly when delta is 0 |
| PatchedOffsets.CertificateFollows | src-tauri/src/pe/rebuild.rs:227-240 | a certificate entry into the section data follows it, its size unchanged |
| PatchedOffsets.OverlayKept | src-tauri/src/pe/rebuild.rs:63-82 | the overlay is moved byte for byte exactly when delta is 0 or there is no overlay |
| PatchedOffsets.CertificateInOverlay | src-tauri/src/pe/rebuild.rs:63-82 | for a certificate entry into the overlay: if the overlay is longer than delta, the entry's new offset, the bytes that stand there, and exactly when its end is in the file; otherwise the overlay is dropped whole and the entry is delta further on |
| PatchedOffsets.CertificateKept | src-tauri/src/pe/rebuild.rs:208-225 | a certificate at the end of the file is copied behind the new section and still denoted by its entry exactly when delta is 0; and exactly when its entry still ends in the file at all |
| PatchedOffsets.UnshiftedOverlay | src-tauri/src/pe/rebuild.rs:78-82 | with test and slice at raw_end the entry of any certificate in the overlay would denote the same bytes for every delta |
| PatchedOffsets.SymbolsInOverlay | src-tauri/src/pe/rebuild.rs:160-172 | a symbol pointer into the overlay is shifted by delta, while the byte it denotes, if kept, moves behind the new section; exactly when the two meet, never with delta 0 |
| PatchedImports.BlobParts | src-tauri/src/pe/import.rs:209-246 | where table, descriptor, thunks and names are in the blob |
| PatchedImports.ImportsAppended | src-tauri/src/pe/import.rs:203-246 | for every rewritten file, reading its imports gives the old list with the same thunk addresses, then the new DLL; an entry's name is what the new file holds where its address is mapped now, and the old name wherever that moves with the section data or was unreadable; with 4096 old entries, and only then, reading is refused |
| PatchedImports.NamesAppended | src-tauri/src/pe/parse.rs:342-379 | when all names are kept, the list is exactly the old one at its new place and the new DLL |
| PatchedImports.InjectionIdempotent | src-tauri/src/pe/import.rs:93-98 | on every rewritten image, planning the DLL again under any name of the same letters, A to Z counted as a to z, is AlreadyImported exactly below 4096 old entries and TooManyDescriptors otherwise, and applying any plan is AlreadyImported |
| PatchedLayout.PatchedLayoutSound | src-tauri/src/pe/import.rs:129-201 | the result is well-formed, its raw ranges are disjoint and in the file, headers end before all data and addresses, new addresses lie behind old ones, sections are disjoint in memory exactly when the old ones were, SizeOfImage covers all |
| PatchedLayout.AlignmentKept | src-tauri/src/pe/import.rs:248-253 | aligned raw pointers stay file-aligned and the new one is |
| PatchedLayout.PatchedChecksum | src-tauri/src/pe/rebuild.rs:131-134 | with an even e_lfanew the result passes the checksum test |
| Fixture.IsReady | src-tauri/src/pe/import.rs:89-267 | a concrete image meets every condition, with delta 128 and 204 bytes of overlay |
| Fixture.OverlayIsLost | src-tauri/src/pe/rebuild.rs:78-82 | on that image the overlay behind the new section is not the old one |
| Iat.ReadAsciiString | native/hook/src/iat.rs:399-421 | the byte loop is its specification |
| Iat.ReadAsciiOf | native/hook/src/iat.rs:399-421 | a NUL-terminated name is read exactly when all its bytes are printable |
| IatHits.NameReadExactly | native/hook/src/iat.rs:399-421 | a name is read exactly when it stands there: inside the image, printable, shorter than 512 bytes and ended by a 0 or by the image |
| Iat.FindThunkSlot | native/hook/src/iat.rs:319-391 | search by name table, or by resolved address without one |
| IatHits.SlotFoundExactly | native/hook/src/iat.rs:319-391 | for tables of any length: the slot is number k of the slot table, k the first index up to 512 whose thunk names the entry, or whose slot holds its address, with no 0 before it and all of it in the image |
| Iat.ScanModuleImports | native/hook/src/iat.rs:213-299 | the scan as specified; it asks only for the first page and the image up to its limit |
| Iat.OnlyMappedMemoryCounts | native/hook/src/iat.rs:213-299 | on any bytes, memory behind the first page and the limit has no influence |
| Iat.ScanVisits | native/hook/src/iat.rs:265-297 | the scan collects exactly what the descriptors in front of the end mark contribute, in order |
| IatHits.HitsExactly | native/hook/src/iat.rs:213-299 | a request has a slot among its hits exactly when a descriptor in front of the end mark names its module and that slot is the one of its entry there |
| IatHits.ModulesExactly | native/hook/src/iat.rs:265-284 | the reported names are those of the descriptors in front of the end mark, different from them only in A to Z, each replaced by that plus 32 |
| IatHits.TableFoundExactly | native/hook/src/iat.rs:213-262 | which headers the scanner accepts, and the table that it takes from them |
| HookAgreement.ScannerFindsAddedSlot | native/hook/src/iat.rs:213-391 | on the loaded view of any rewritten file and for every size hint, the hits are those of the old descriptors, then those of the added one, among them the slot at new section + IAT offset exactly when both names are printable and the hint reaches their end; nothing is seen exactly when the headers do not meet the scanner's demands or the hint ends in front of the table's end |
| Session.AnswerIsOwnResult | copper-module-abi/src/helper_client.rs:333-399 | in every run, time-outs and crashes included, an Ok or Remote answer is the result or the error code computed for that id |
| Session.AnsweredOnce | copper-module-abi/src/helper_client.rs:333-399 | in every step of every run requests return one by one in the order of their numbers; a consumed reply is returned as the result or the code that it carries exactly when it bears the number of the request, and as a mismatch with its number otherwise; and when a request returns timed out, gone or unsent |
| Session.ThreadsEndExactly | copper-module-abi/src/helper_client.rs:477-549 | what ends the helper and what ends the reading thread, and that nothing else does |
| Session.CallsNumbered | copper-module-abi/src/helper_runtime.rs:136-180 | each capability call takes the next number, sent or not, and waits for that number |
| Session.ReadByCallIsLost | copper-module-abi/src/helper_runtime.rs:181-212 | a request read by a capability call is lost: in every continuation it never gets a result, and its caller never an Ok |
| Session.UnsendableIsLost | copper-module-abi/src/bin/copper_module_helper.rs:123-139 | so is one whose response is too long for a frame |
| SessionTimeouts.LagNeverDecreases | copper-module-abi/src/helper_client.rs:356-383 | sent minus consumed never falls; each time-out raises it |
| SessionTimeouts.NoAnswerAfterTimeOut | copper-module-abi/src/helper_client.rs:356-399 | if no event handler can come to call a capability, no request after a time-out gets its own answer, calls inside requests included |
| SessionTimeouts.CallsCanRecover | copper-module-abi/src/helper_runtime.rs:191-194 | for every other plugin a run exists that recovers |
| SessionTimeouts.TimeOutsAreFinalExactly | copper-module-abi/src/helper_client.rs:356-399 | both together, as an if-and-only-if over all plugins |
| SessionProtocol.OneResponsePerRequest | copper-module-abi/src/helper_runtime.rs:353-366 | in every run as many responses have left the helper as it has handled requests, but for one that cannot be sent, which ends it; events make none |
| SessionProtocol.ConversationHolds | copper-module-abi/src/helper_client.rs:481-549 | without time-outs, crashes, failing writes and responses that cannot be sent, and if no event handler can come to call: every request returns what was computed for it, a value as Ok and a failure as Remote with its code, every call gets its response, nothing stray is left |
| SessionProtocol.InternalStepsEnd | copper-module-abi/src/bin/copper_module_helper.rs:83-100 | every step of the session itself, one with a response that cannot be sent included, lowers a measure of the work left |
| SessionProtocol.SomeStepEnabled | copper-module-abi/src/helper_client.rs:477-549 | no deadlock: while a request is waited for some step is enabled |
| SessionProtocol.EveryScheduleAnswers | copper-module-abi/src/helper_client.rs:477-549 | in those runs every schedule of the session's own steps whose responses can be sent is bounded, and can go on until the request being waited for has returned its own result |
| SessionProtocol.EventCallLosesRequest | copper-module-abi/src/helper_runtime.rs:191-194 | for every other plugin a run in which an event handler's call loses a request and ends the helper |
| SessionProtocol.ConversationHoldsExactly | copper-module-abi/src/helper_client.rs:477-590 | both together, as an if-and-only-if over all plugins |
| SessionProtocol.StillAnswersExactly | copper-module-abi/src/helper_client.rs:513-528 | when nothing else goes wrong, some continuation brings the caller an answer exactly when every response so far could be sent |
| SessionProtocol.DeadSession | copper-module-abi/src/helper_client.rs:356-389 | once one of the two answering threads has ended and no response is on its way, the caller never gets an answer again |
| SessionEvents.NoReentry | copper-module-abi/src/helper_runtime.rs:109-129 | in every run, between any two moments of a capability call, and in the step that ends it, the plugin is given no event and no other job |
| SessionEvents.EventsAccounted | copper-module-abi/src/helper_runtime.rs:115-129 | the deferred queue stays at most 256; every event is handled, waiting or dropped |
| SessionEvents.EventPutOffExactly | copper-module-abi/src/helper_runtime.rs:115-129 | in every step of every run an event read by a capability call is put behind those put off before, and dropped exactly when 256 are; one that the main loop reads is handled at once |
| SessionEvents.EventsInSendOrder | copper-module-abi/src/bin/copper_module_helper.rs:83-100 | if handlers of drained events cannot come to call, events are handled in send order, in every run; handlers of directly read events may call |
| SessionEvents.LaterEventOvertakes | copper-module-abi/src/bin/copper_module_helper.rs:83-100 | for every other plugin a run in which a drained handler's call lets a later event overtake |
| SessionEvents.SendOrderExactly | copper-module-abi/src/bin/copper_module_helper.rs:83-100 | both together, as an if-and-only-if over all plugins |
| HelperLoop.HelperRuntime.DeferHostNotification | copper-module-abi/src/helper_runtime.rs:115-129 | appends, or drops at 256 |
| HelperLoop.HelperRuntime.DrainDeferred | copper-module-abi/src/helper_runtime.rs:381-387 | returns all deferred events in order and empties the queue |
| HelperLoop.HelperRuntime.AwaitResponse | copper-module-abi/src/helper_runtime.rs:181-212 | the receive loop is one CapabilityRead step per frame, and ends with the awaited response exactly when that is the last frame read |
| HelperLoop.HelperRuntime.PluginCapability | copper-module-abi/src/helper_runtime.rs:136-212 | a whole capability call, with its fresh number, is the session's call action and the reads behind it |
| HelperLoop.ReadsAreActions | copper-module-abi/src/helper_runtime.rs:181-205 | those reads are a run of the session |
| EventBridge.ModuleChannel.Enqueue | src-tauri/src/registry/addon_events.rs:124-141 | the event is appended exactly when the channel is alive, not stopped and has fewer than 256 events; it is full exactly when it has 256 or more, and closed otherwise; refused, nothing changes |
| EventBridge.ModuleChannel.Stop | src-tauri/src/registry/addon_events.rs:149-155 | sets the flag and empties the queue |
| EventBridge.ModuleChannel.Take | src-tauri/src/registry/addon_events.rs:189-199 | takes everything, or sleeps exactly when the queue is empty and not stopped |
| EventBridge.Route | src-tauri/src/registry/addon_events.rs:247-265 | every channel of the snapshot takes, drops or ignores the event by itself; the result is the number of those that wanted it, were running and had 256 events |
| EventBridge.Bridge.Register | src-tauri/src/registry/addon_events.rs:300-324 | undisturbed, the old channel of the id is stopped and replaced, others are untouched, every channel outside the table is stopped |
| EventBridge.Bridge.Unregister | src-tauri/src/registry/addon_events.rs:330-336 | undisturbed, removes and stops one channel |
| EventRegistry.ValidExactly | src-tauri/src/registry/addon_events.rs:300-336 | in every interleaving of registrations and removals, no channel is left running outside the table exactly when no insertion finds its id taken |
| EventRegistry.SerialNeverOverwrites | src-tauri/src/registry/addon_events.rs:300-336 | that is so when no registration begins while another one of its id is under way |
| EventRegistry.OverlapLoses | src-tauri/src/registry/addon_events.rs:317-320 | two overlapping registrations of one id, after which a channel runs on for good |
| EventRegistry.SerialLosesNothing | src-tauri/src/registry/addon_events.rs:300-336 | corollary: with serial registrations no run loses a channel |
| EventRegistry.OverlapCanLose | src-tauri/src/registry/addon_events.rs:317-320 | from every run in which a registration begins beside another one of its id, both can be finished so that a channel is lost |
| EventRegistry.SafeToBeginExactly | src-tauri/src/registry/addon_events.rs:300-336 | after serial registrations, one more can be begun and finished in every order without losing a channel exactly when none of its id is under way |
| EventPump.PushedIsPrefix | src-tauri/src/registry/addon_events.rs:186-218 | in every interleaving the pushed events are a prefix of the accepted ones, and none is lost before a stop or a failed push |
| EventPump.EveryPublishCounted | src-tauri/src/registry/addon_events.rs:124-141 | at most 256 pending, none once stopped; accepted, full, closed and entering add up to the publishes |
| EventPump.PublishDecided | src-tauri/src/registry/addon_events.rs:124-141 | in every step of every run a publisher that has found the channel alive has its event accepted exactly when the channel is not stopped and fewer than 256 events wait, and dropped as full exactly at 256 |
| EventPump.AtMostOnePushAfterStop | src-tauri/src/registry/addon_events.rs:149-218 | after the stop at most one more push, none after a joined shutdown |
| EventPump.StoppedPusherEnds | src-tauri/src/registry/addon_events.rs:186-218 | a stopped pusher always has a step that brings it nearer to its end |
| EventPump.RunInv | src-tauri/src/registry/addon_events.rs:124-218 | all of it as one invariant, and that no wake-up is lost |
| EventPump.AcceptedIsPushed | src-tauri/src/registry/addon_events.rs:186-218 | without a stop and a failed push every accepted event is pushed at its place: in every schedule the pusher takes a bounded number of steps until then, and can always take the next one |
| EventPump.OnePushAfterStop | src-tauri/src/registry/addon_events.rs:201-206 | the one push does occur |
| EventPump.PushedAfterRemovalExactly | src-tauri/src/registry/addon_events.rs:330-336 | once the entry is gone and until the stop, more events can be pushed exactly when one is in the pusher's hand, in the queue, or with a publisher that had found the channel |
| EventPump.LateEventsBounded | src-tauri/src/registry/addon_events.rs:247-251 | events accepted after the removal are from publishers that had found the channel before |
| EventPump.LatePush | src-tauri/src/registry/addon_events.rs:247-265 | a run in which one is accepted and pushed |
| Ipc.DecodeEncoded | copper-module-abi/src/ipc.rs:75-98 | a frame that can be encoded decodes to itself, exactly when it is not a response with a null result |
| Ipc.EncodedExactly | copper-module-abi/src/ipc.rs:75-83 | which frames are encoded, as which line, and what is wrong with the others, for each kind of frame and the limit of 8 MiB |
| Ipc.DecodedExactly | copper-module-abi/src/ipc.rs:85-98 | which bytes are a line, with or without LF and CR LF, and which lines are decoded |
| Ipc.Writer.WriteFrame | copper-module-abi/src/ipc.rs:145-150 | a line is decoded and encoded again before it is written; one that its reader would refuse is not written |
| Ipc.SentExactly | copper-module-abi/src/ipc.rs:75-150 | encoded and written, a valid frame reaches the stream byte for byte exactly when its payload fits into a frame and it is no response with a null result; otherwise which error |
| Ipc.ReadFrame | copper-module-abi/src/ipc.rs:125-143 | for every splitting into chunks the outcome is that of the stream as a whole, whether it ends or fails; the size in a too-large error lies beyond the limit and within the line |
| Ipc.ReadsExactly | copper-module-abi/src/ipc.rs:125-143 | that outcome: a line of at most 8 MiB before its LF is decoded and the rest left, a shorter stream without one is cut off or has failed, a longer one is too large |
| Ipc.FramesReadBack | copper-module-abi/src/ipc.rs:75-143 | reading a concatenation of encoded frames returns exactly them, in order |
| Download.Task.DownloadOnce | copper-downloader/src/manager.rs:930-1062 | one attempt: which bytes are kept, none when the old file is removed and the new one cannot be created, and the error |
| Download.Task.Transfer | copper-downloader/src/manager.rs:792-836 | the retry loop, with at most maxRetries + 1 attempts |
| Download.Task.RunRound | copper-downloader/src/manager.rs:731-915 | one round, from the checks before the start to the final move |
| Download.Task.RunTask | copper-downloader/src/manager.rs:731-915 | rounds follow each other while a checksum mismatch asks for one |
| Download.Task.Finalize | copper-downloader/src/manager.rs:1153-1165 | the partial file becomes the final one; a failed rename has removed the old one |
| Download.AttemptKeepsPrefix | copper-downloader/src/manager.rs:930-1062 | against an honest server the partial file stays a prefix, and is whole without an error |
| Download.StreamExactly | copper-downloader/src/manager.rs:1008-1062 | an attempt adds the chunks in front of the first failure, and what a failing write leaves of its chunk |
| Download.RetriedExactly | copper-downloader/src/manager.rs:792-836 | an attempt is repeated exactly after a connection error, status 500 to 599 or a file error that is not fatal, while retries are left |
| Download.RoundExactly | copper-downloader/src/manager.rs:731-915 | how each round ends: stopped, already there, as its transfer, or by the checksum and the final move |
| Download.ResumeIsCorrect | copper-downloader/src/manager.rs:731-1062 | so it does over a whole run, and a run done by moving leaves exactly the content with the digest asked for |
| Download.PrefixOverRuns | copper-downloader/src/manager.rs:731-1062 | and over any sequence of runs |
| Download.CanCompleteExactly | copper-downloader/src/manager.rs:930-1008 | against a server that honours every range, some round ends with the content in place exactly when it has the digest and the partial file, if resumed, is not whole already |
| Download.FailedEndLeavesWhole | copper-downloader/src/manager.rs:838-897 | a failed hash or move leaves such a whole file behind |
| Download.ChecksumRoundsEnd | copper-downloader/src/manager.rs:849-874 | without transfer errors a task ends within maxRetries + 1 rounds |
| Download.FileErrorRetriedExactly | copper-downloader/src/error.rs:49-62 | a file error is retried exactly when its kind is not fatal and retries are left |
| Download.FewRetriesAlwaysEnd | copper-downloader/src/manager.rs:792-874 | with at most one retry every schedule ends within two rounds |
| Download.MixedSchedulesNeedNotEnd | copper-downloader/src/manager.rs:805-808 | with two or more and a checksum that can fail, for every n some schedule of n rounds still goes on |
| Download.RoundsBoundedExactly | copper-downloader/src/manager.rs:792-874 | a bound on the rounds of all schedules exists exactly when at most one retry is allowed or no checksum can fail |
| Storage.ModuleStorage.Get | src-tauri/src/registry/module_storage.rs:70-75 | what the module's file holds, through the cache |
| Storage.ModuleStorage.Set | src-tauri/src/registry/module_storage.rs:78-96 | refines the update of one map; refused or failed it changes nothing readable; other modules are unaffected; and exactly which states the files pass |
| Storage.ModuleStorage.Remove | src-tauri/src/registry/module_storage.rs:99-113 | likewise, and tells whether the key was there |
| Storage.PassedKeepsOrReplaces | src-tauri/src/registry/module_storage.rs:152-161 | in every one of those states the files hold the map of before or after, and at the end that of after exactly when nothing went wrong |
| Storage.CrashDuringSet | src-tauri/src/registry/module_storage.rs:78-96 | reopened on any state the files have been in since the call began, the storage shows the map of before or after, and the other modules unchanged |
| Storage.CrashDuringRemove | src-tauri/src/registry/module_storage.rs:99-113 | likewise for remove |
| Storage.ModuleStorage.List | src-tauri/src/registry/module_storage.rs:116-124 | the keys with the prefix, in order |
| Storage.LessExactly | src-tauri/src/registry/module_storage.rs:116-124 | that order is decided by the first byte in which two keys differ, and a key comes before those that it begins |
| Storage.ModuleStorage.NamespaceOf | src-tauri/src/registry/module_storage.rs:126-150 | fills the cache once; corrupt files are reported |
| Storage.ModuleStorage.Persist | src-tauri/src/registry/module_storage.rs:152-161 | temporary file, byte by byte, then rename: exactly the states that the files pass, for every fault |
| Storage.SortedKeys | src-tauri/src/registry/module_storage.rs:116-124 | exactly the keys with the prefix, strictly increasing |

## Left out

- Rebuild.Apply: what a slice or index that leaves its buffer does; the program aborts there. `PatchedBytes.ReadyIsRebuildable` shows that it does not happen on well-formed images.
- HookAgreement.ScannerFindsAddedSlot: what the old descriptors contribute depends on memory that the loader fills, of which nothing is assumed.
- Ipc.ReadFrame: the exact size reported in a too-large error depends on the chunks; only its bounds are stated.
- Download.Task.RunTask: one run per task at a time, as many rounds as the script has; a cancel or retry that races with a running task is not part of this model.
- Storage.ModuleStorage.Set: a rename is atomic, and no one else writes the files.
- Image names are the raw bytes before the NUL; the lossy conversion to text, subsystem editing and wide strings are not part of this model.
- Session.DoSend: a request that is written only in part; a failing write is `SendFails`, for a capability request `CallFails`, and sends nothing.
- The hello exchange, process start and shutdown, unknown methods and version errors of single requests: they add easy cases to the session.
- The five-second limit of a channel's shutdown is the freedom not to join; event name patterns are a predicate of the channel.
- JSON, SHA-256, HTTP, clocks and the file system are parameters; numbers are assumed to survive the JSON codec.
- Phase reporting, progress, speed averages, concurrency limits and existing-file checks beyond SkipIfValid.
- Replacing the slot in memory, export resolution, page protection, the plugin ABI tables, the frontend and the command layer.
