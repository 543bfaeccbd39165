# Mailwoman verification models

Dafny models of nine parts of the Mailwoman repository, with proofs of what each part is
for. `dafny verify dfyconfig.toml` checks the whole project.

1. **MIME crypto structures.** Header blocks and entities, `Content-Type` quoting and
   splitting, cutting multiparts on exact bytes, CRLF canonicalisation, quoted-printable,
   base64 lines, header folding, the builders of signed and encrypted mail and the search
   that finds them again, inline armor, and RFC 9788 header protection. Builders and
   readers undo each other byte for byte (`MimeEntity`, `ContentType`, `Multipart`,
   `MultipartLines`, `QuotedPrintable`, `QuotedPrintableLines`, `Base64`, `HeaderFolding`,
   `CryptoParts`, `InlineArmor`, `SignedRoundTrip`, `EncryptedRoundTrip`,
   `HeaderProtection`, `HeaderProtectionRoundTrip`, `DisplayRoundTrip`,
   `OpenContentType`, `OtherProtection`), and the analysis of whole messages, nested in any
   way, finds what was put into them (`MailTree`, `NestedAnalysis`).
2. **Streaming text machines.** The proposal filter of the assistant and the decoder of
   server-sent events give the same result however their input is cut (`ProposalFilter`,
   `SseDecoder`).
3. **The autoconfig XML reader.** A cursor with a depth cap reads every document as what it
   means, prolog, comments, instructions and CDATA sections included, and five replacements
   in a row invert one-pass escaping (`XmlEscape`, `XmlReader`, `XmlMarkup`,
   `XmlRoundTrip`).
4. **The layered cache.** Coherence with the authoritative values over every sequential
   run, a tight staleness bound where nothing is written through, no trace of zero-access
   values, and recall of what was read or written (`LayeredCache`, `CacheCoherence`,
   `CacheStaleness`, `CacheRecall`).
5. **The Assist gateway.** Scope clamping, redaction, the pruned rate limiter and
   audit-before-dispatch over every run (`AssistCapability`, `DataScopes`, `RateLimit`,
   `AssistGateway`).
6. **Backup sets.** Publishing, pruning and fetching as single file operations, in every
   interleaving and with a crash anywhere, with the exact condition for crash safety; exact
   retention (`BackupNames`, `RetentionRule`, `BackupProtocol`, `BackupDirectory`,
   `BackupChecks`, `BackupSafety`).
7. **The service worker.** Routing, the bounded sweep, the closure of stored keys, the purge
   at logout, and the integrity and origin of what is served from a cache that other scripts
   may rewrite, over assets the server adapts to a deploy prefix (`SwRouting`, `SwRoutes`,
   `SwCanonical`, `SwSweep`, `SwWorker`, `SwHistory`).
8. **The login monitor and ban list.** Pruned counters agree with the full history, who is
   banned after any run of logins, bans and unbans, and the log line gives back the address
   (`LoginMonitor`, `AuthLog`).
9. **The WebAssembly module reader.** LEB128 and section parsing invert the encoding, and
   exactly which modules are misread (`WasmReader`, `WasmModule`, `WasmRoundTrip`,
   `WasmMisread`).

`Text`, `Utf8`, `Sorting` and `Wrappers` hold what the parts share.

## How the models are written

- Code that loops or updates fields is a method or a class whose contract ties it to a
  function of the same inputs; the theorems are about those functions and about runs of
  them.
- A byte string is a string whose characters stand for bytes, so ASCII literals are their
  own encoding; `Utf8.Encode` and `Utf8.Lossy` are `str::as_bytes` and
  `String::from_utf8_lossy`. Where it matters that characters are below 256, `IsBytes` is
  required.
- Random boundaries are parameters with the freshness they are drawn for: no line of a part
  starts with the delimiter.
- Digests, JSON, address notation and value serialization are function parameters with
  their laws (injective, inverse) as preconditions. Clocks are time parameters; the network
  and the success of storage calls are parameters of each operation.
- Rust and Python exceptions are `None`, `Refused` or a `false` result, never a
  precondition.

## What the proofs found

- Header protection: a payload whose `Content-Type` ends inside a quoted string swallows
  the marking, and reading the protected entity finds no protection at all
  (`OpenContentType.UnprotectsIffClosed` says exactly when); a body prefix without any
  displayed field does not come off again (`DisplayRoundTrip.UndoneWithPrefix`).
- Clamping is the meet of two scopes except for non-empty, disjoint folder lists on a shared
  account, where the empty intersection reads as "all folders"
  (`DataScopes.ClampIsMeetIff`).
- The rate-limit key separates account lists that name an account twice, although the
  comment speaks of account sets (`RateLimit.RateKeyIsNotPerSet`;
  `RateLimit.RateKeyIffSameAccounts` says exactly what shares a budget).
- A kept backup set can lose its release file: exactly when that file was listed and a
  snapshot with the same stem is removed (`RetentionRule.KeptSetLosesIff`).
- Crash safety of a backup destination needs a condition (`BackupSafety.SafeIff`): at most
  one archive that retention could remove, or no overlap of publishing and pruning one
  archive and no two such archives with one stem. `BackupSafety.OverlapRun` and
  `BackupSafety.SharedStemRun` are the runs that end with a manifest whose archive or release
  file is gone. A complete set whose files are above the fetch limits cannot be fetched
  (`BackupDirectory.CompleteSetIsFetchedIff`).
- A chunk that cuts a character corrupts it (`SseDecoder.CutCharacterIsLost`;
  `SseDecoder.SeenExactlyIffWholeCharacters` says exactly when the text arrives).
- A folded field gains a leading space when its first word does not fit beside its name, and
  a word that is cut comes back with spaces inside; otherwise it comes back normalized
  (`HeaderFolding.FoldedReadsBack`).
- The shape check of public API answers converts to text first: numbers, truth values and
  lists of one element pass, and the rebuilt answer holds texts exactly when the stored one
  does (`SwRouting.FieldPassesIff`, `SwRouting.RebuiltHoldsTextsIff`).
- The worker does not restore an adapted page or stylesheet that already looks adapted, is
  not UTF-8, or keeps a byte order mark in front (its decoder drops the mark), and never a
  nested `index.html` (`SwCanonical.AssetRestoredIff`).
- When a storage call fails during the sweep of an activation, keys of an older worker stay,
  until a later sweep gets through (`SwWorker.ActivationClosesIff`,
  `SwWorker.OnlyAllowedKeys`).
- The module reader does not step over an exception tag, nor over a global whose reference
  type takes more than one byte, nor over most such tables (`WasmModule.ExactIff`): unless
  such an import is the last of its section, the next one is misread
  (`WasmMisread.InterfaceIsRightIff`, `WasmMisread.GlobalImportIsMisread`,
  `WasmMisread.TagImportIsMisread`).
- A failed Redis delete leaves a stale value that is served
  (`CacheCoherence.FailedDeleteServesStale`; `CacheCoherence.WriteThroughIff` and
  `CacheCoherence.InvalidateIff` say exactly when coherence is kept).

## Model

| member | source | states |
|---|---|---|
| `MimeEntity.ParseHeaderBlock` | crates/mw-crypto/src/mime.rs:189-208 | the line loop (unfolding, skipping lines without a colon) computes the specified field list |
| `MimeEntity.HeaderBlockWritable` | crates/mw-crypto/src/mime.rs:189-208 | every field any block yields can be written back in a header line |
| `MimeEntity.HeaderEndAfterBlock` | crates/mw-crypto/src/mime.rs:154-176 | the first empty line found after written header lines is the one that ends them, whatever the body holds |
| `MimeEntity.ParseSerialized` | crates/mw-crypto/src/mime.rs:37-59 | serializing and parsing an entity returns its body byte for byte and its fields in order with trimmed values |
| `MimeEntity.ParseHeadersOnly` | crates/mw-crypto/src/mime.rs:179-186 | header lines with no blank line behind them parse to those fields and an empty body |
| `MimeEntity.FirstEmptyLineCuts` | crates/mw-crypto/src/mime.rs:154-186 | any message, with either line break, is cut at its first empty line, of either kind |
| `MimeEntity.LeadingBreak` | crates/mw-crypto/src/mime.rs:154-161 | a message that starts with a line break has no fields and the rest as its body |
| `ContentType.UnquoteOfQuote` | crates/mw-crypto/src/mime.rs:128-151 | unquoting undoes quoting for every string |
| `ContentType.UnquoteIs` | crates/mw-crypto/src/mime.rs:128-147 | a quoted string gives its characters, whichever of them are escaped; a value that is not in quotes stays as it is |
| `ContentType.TwoReplacementsEscape` | crates/mw-crypto/src/mime.rs:149-151 | the two replacements in order are one pass of escaping |
| `ContentType.SplitParams` | crates/mw-crypto/src/mime.rs:98-126 | the character loop cuts exactly at the semicolons outside quotes |
| `ContentType.ParseAppend` | crates/mw-crypto/src/mime.rs:79-126 | appending a plain or quoted parameter to a value that ends outside quotes adds that one parameter, unquoted, and changes nothing else |
| `Multipart.ReadMark` | crates/mw-crypto/src/mime.rs:239-259 | one delimiter line: where its own break starts, where content starts, whether it closes |
| `Multipart.ClosingIff` | crates/mw-crypto/src/mime.rs:239-259 | a delimiter line closes exactly when two dashes follow it |
| `Multipart.SplitMultipart` | crates/mw-crypto/src/mime.rs:229-280 | the scan returns the bytes between consecutive delimiter lines, or nothing without a closing one |
| `Multipart.SplitOfJoin` | crates/mw-crypto/src/mime.rs:229-280 | for every preamble, list of parts and boundary whose delimiter starts none of their lines, splitting the joined body gives back exactly the parts |
| `MultipartLines.SplitOfLines` | crates/mw-crypto/src/mime.rs:229-280 | so does a body as other programs write it: either line break at either end of each part, padding behind the delimiters, any preamble and any epilogue |
| `MultipartLines.SplitIff` | crates/mw-crypto/src/mime.rs:229-280 | any body at all splits exactly when a closing delimiter starts one of its lines |
| `MultipartLines.NoBreakNoSkip` | crates/mw-crypto/src/mime.rs:243-255 | where no line break ends a delimiter's padding, content starts right behind it |
| `QuotedPrintable.Canonicalize` | crates/mw-crypto/src/mime.rs:284-301 | the loop equals the canonical form |
| `QuotedPrintable.CanonFixpoints` | crates/mw-crypto/src/mime.rs:282-301 | the texts left alone are exactly those without bare CR or LF; canonicalisation is idempotent |
| `QuotedPrintable.CanonHasNoBareBreak` | crates/mw-crypto/src/mime.rs:282-301 | the result holds no bare CR or LF |
| `QuotedPrintable.CanonOfEncode` | crates/mw-crypto/src/mime.rs:284-301 | canonicalising a text's bytes is canonicalising the text |
| `QuotedPrintable.EncodeText` | crates/mw-crypto/src/mime.rs:306-341 | the encoder's loops produce the specified lines |
| `QuotedPrintable.DecodeQp` | crates/mw-crypto/src/mime.rs:362-388 | the decoder's loop equals the specified decoding, malformed escapes included |
| `QuotedPrintable.DecodeUndoesEncode` | crates/mw-crypto/src/mime.rs:306-388 | decoding the encoding of any text gives its bytes with canonical line breaks |
| `QuotedPrintable.SoftBreaksGo` | crates/mw-crypto/src/mime.rs:367-374 | a soft break goes, with either line break, wherever it stands |
| `QuotedPrintable.EscapesAre` | crates/mw-crypto/src/mime.rs:375-386 | behind an equals sign two digits give their byte; any other equals sign stays, and reading goes on behind it |
| `QuotedPrintable.HexPairIff` | crates/mw-crypto/src/mime.rs:375-382 | two hexadecimal digits of either case, or a plus sign with one, are such a pair; nothing else is |
| `QuotedPrintableLines.OutputLinesAreGood` | crates/mw-crypto/src/mime.rs:306-341 | every output line has at most 76 characters, ends in no space or tab, and cuts no `=XX` |
| `QuotedPrintableLines.LineStartIsSafe` | crates/mw-crypto/src/mime.rs:306-341 | what a text line is encoded as never starts with `-`, `.` or `From ` |
| `Base64.EncodeBytes` | crates/mw-assist/src/adapters.rs:421-447 | the chunk loop equals the specified encoding |
| `Base64.DecodeOfEncode` | crates/mw-assist/src/adapters.rs:421-447 | decoding an encoding gives the bytes back, for every length |
| `Base64.DecodeIff` | crates/mw-crypto/src/mime.rs:349-358 | decoding is strict: a text decodes to bytes exactly when it is their encoding, padding included |
| `Base64.DecodeBodyOfLines` | crates/mw-crypto/src/mime.rs:390-398 | a body in lines of 76 decodes to the original bytes |
| `InlineArmor.InlineSegments` | crates/mw-crypto/src/mime.rs:751-818 | the loop over armor blocks computes the specified segments |
| `InlineArmor.SegmentsCover` | crates/mw-crypto/src/mime.rs:750-818 | the segments are the text in order and whole, but for one line break after each block; every block runs from its BEGIN line to its first END marker |
| `InlineArmor.BlockIsCut` | crates/mw-crypto/src/mime.rs:765-816 | behind text in which no BEGIN line starts, a block from its BEGIN line to its first END marker is one segment of its kind, the break behind it goes, and the cutting goes on there |
| `InlineArmor.RestIsPlain` | crates/mw-crypto/src/mime.rs:784-798 | text without a BEGIN line is one plain piece, and so is text whose first BEGIN line has no END marker behind it |
| `HeaderFolding.Fold` | crates/mw-crypto/src/mime.rs:1060-1081 | the word and chunk loops compute the specified folded field |
| `HeaderFolding.FoldingKeepsText` | crates/mw-crypto/src/mime.rs:1056-1081 | folding changes white space only, for every field |
| `HeaderFolding.FoldedLinesAreShort` | crates/mw-crypto/src/mime.rs:1056-1081 | every line of a folded ASCII field has at most 78 characters, however long its words |
| `HeaderFolding.FoldedReadsBack` | crates/mw-crypto/src/mime.rs:1060-1081 | every folded field reads back as one field: the pieces of a cut word come back as words, and the white space is the value's own, normalized, exactly when no word is cut and the first fits beside the name |
| `SignedRoundTrip.PgpSignedReadsBack` | crates/mw-crypto/src/mime.rs:447-465 | for every canonical part, armored signature and fresh boundary, the analysis of the serialized entity returns the part's exact bytes, the signature and the digest name |
| `SignedRoundTrip.SmimeSignedReadsBack` | crates/mw-crypto/src/mime.rs:469-514 | the same for a detached CMS signature of any bytes |
| `SignedRoundTrip.FindSigned` | crates/mw-crypto/src/mime.rs:661-708 | the search reaches exactly the two parts of a signed entity, for every boundary string without line breaks |
| `EncryptedRoundTrip.PgpEncryptedReadsBack` | crates/mw-crypto/src/mime.rs:413-445 | PGP/MIME encrypted mail reads back as the armored message |
| `EncryptedRoundTrip.SmimeOpaqueReadsBack` | crates/mw-crypto/src/mime.rs:518-535 | opaque S/MIME reads back as the same bytes and type |
| `NestedAnalysis.AnalysisOfMail` | crates/mw-crypto/src/mime.rs:638-748 | every message composed of signed, encrypted and opaque parts, texts in three transfer encodings and files, nested in multiparts in any way: the analysis returns the first structure in reach with its path, and is partial exactly when some multipart on the path has two parts with content, or text stands beside inline armor |
| `NestedAnalysis.NothingFound` | crates/mw-crypto/src/mime.rs:661-748 | without a structure within 17 levels the analysis finds nothing |
| `NestedAnalysis.AnalysisOfPart` | crates/mw-crypto/src/mime.rs:715-732 | a signed or encrypted part behind parts that hold nothing: found at its index, partial exactly when two parts have content |
| `NestedAnalysis.FooterIsPartial` | crates/mw-crypto/src/mime.rs:715-732 | a list's footer below a signed message makes the analysis partial exactly when the footer is not blank |
| `NestedAnalysis.HoldsIff` | crates/mw-crypto/src/mime.rs:661-748 | a path from multipart to multipart leads to a structure exactly when there is one in reach |
| `MailTree.SignedIs` | crates/mw-crypto/src/mime.rs:685-714 | what the search makes of any signed multipart of two parts or more, by its protocol, the older name of S/MIME signatures included |
| `MailTree.OpaqueIs` | crates/mw-crypto/src/mime.rs:709-713 | opaque S/MIME under either of its names |
| `MailTree.ForeignIsNothing` | crates/mw-crypto/src/mime.rs:669-708 | a signed or encrypted multipart of a foreign protocol, without a boundary, or of fewer than two parts holds no structure |
| `HeaderProtectionRoundTrip.UnprotectProtected` | crates/mw-crypto/src/mime.rs:872-1004 | reading a protected entity returns the protected fields in order, the chosen scheme and the outer list |
| `DisplayRoundTrip.UndoneWithoutDisplay` | crates/mw-crypto/src/mime.rs:872-1004 | without a display element, removal undoes protection and keeps the body |
| `DisplayRoundTrip.UndoneWithPrefix` | crates/mw-crypto/src/mime.rs:900-911 | with the text/plain prefix it does so exactly when at least one field is displayed |
| `DisplayRoundTrip.UndoneWithDisplayPart` | crates/mw-crypto/src/mime.rs:911-937 | with the display part it returns the payload as it was parsed |
| `DisplayRoundTrip.BodyComesBack` | crates/mw-crypto/src/mime.rs:974-1004 | for a UTF-8 payload the restored entity has the payload's body, byte for byte |
| `DisplayRoundTrip.BodyComesBackFromPrefix` | crates/mw-crypto/src/mime.rs:1009-1025 | the same through the text/plain prefix |
| `DisplayRoundTrip.BodyComesBackFromPart` | crates/mw-crypto/src/mime.rs:1026-1054 | the same through the multipart wrap |
| `OtherProtection.OlderMarkingIsRead` | crates/mw-crypto/src/mime.rs:974-1004 | the older marking is read as the scheme, with the protected fields and the outer list |
| `OtherProtection.NewerSchemeWins` | crates/mw-crypto/src/mime.rs:977-981 | the newer marking is read whatever the older one says |
| `OtherProtection.DisplayLinesGo` | crates/mw-crypto/src/mime.rs:1013-1021 | of a marked text body the lines up to the first empty one go, with either line break |
| `OtherProtection.ManyPartsStay` | crates/mw-crypto/src/mime.rs:1022-1053 | behind a display part, several parts or none: only the display part goes, and splitting what is left gives the others as they were |
| `OtherProtection.UnmarkedStays` | crates/mw-crypto/src/mime.rs:1009-1054 | what is neither a marked text nor a mixed multipart with a marked first part stays as it is |
| `OtherProtection.FieldsAre` | crates/mw-crypto/src/mime.rs:821-893 | which fields are protected, and which of them are shown |
| `OtherProtection.ShownLines` | crates/mw-crypto/src/mime.rs:886-904 | a text body shows the lines of exactly the subject, sender and recipients, then an empty line, then itself |
| `OtherProtection.PrefixOrPart` | crates/mw-crypto/src/mime.rs:894-930 | exactly which payloads get the display as a prefix and which as a part |
| `OtherProtection.SetFieldIs` | crates/mw-crypto/src/mime.rs:961-970 | setting a field changes the first one of that name, or adds one at the end; all others stay |
| `OtherProtection.PayloadFieldsStay` | crates/mw-crypto/src/mime.rs:932-959 | protection leaves every other field of the payload as it was, its transfer encoding above all |
| `OpenContentType.SchemeReadIffClosed` | crates/mw-crypto/src/mime.rs:939-953 | the added marking is readable exactly when the payload's content type does not end inside a quoted string |
| `OpenContentType.UnprotectsIffClosed` | crates/mw-crypto/src/mime.rs:974-1004 | reading the protected entity returns the scheme, fields and outer list exactly when it does not; otherwise no protection is found |
| `OpenContentType.OpenTypeIsOpen` | crates/mw-crypto/src/mime.rs:98-126 | `text/plain; name="x` is such a value |
| `ProposalFilter.Filter.Push` | crates/mw-assist/src/assistant.rs:198-219 | each push releases text so that everything released so far is a prefix of the text before the first marker, and what is held back is tracked |
| `ProposalFilter.Filter.Finish` | crates/mw-assist/src/assistant.rs:236-245 | the end releases exactly the rest of the text before the marker and reads the block after it |
| `ProposalFilter.StreamingEqualsBatch` | crates/mw-assist/src/assistant.rs:198-245 | for every text and every way of cutting it, the shown text is the text before the first marker and the block is the text after it |
| `ProposalFilter.HeldBackIsLongestSuffix` | crates/mw-assist/src/assistant.rs:222-233 | exactly the longest suffix that is a proper prefix of the marker is held back |
| `ProposalFilter.SmallerHoldbackLeaks` | crates/mw-assist/src/assistant.rs:222-233 | holding back less would show marker text for some continuation |
| `SseDecoder.Decoder.Push` | crates/mw-assist/src/adapters.rs:538-549 | a push returns the items of the newline-terminated lines of buffer plus chunk and keeps the unterminated tail |
| `SseDecoder.ItemsOfStream` | crates/mw-assist/src/adapters.rs:551-561 | the items of a stream of payloads, end markers and other lines, with either line break: what each payload decodes to, a final chunk for each end marker, in order |
| `SseDecoder.PushesDecodeText` | crates/mw-assist/src/adapters.rs:538-549 | for all chunks whatever, all pushes together give the items of the text the chunks decode to one by one |
| `SseDecoder.ChunkingDoesNotMatter` | crates/mw-assist/src/adapters.rs:538-582 | cut between characters, a stream gives exactly the items of its whole text and leaves its tail buffered |
| `SseDecoder.SeenExactlyIffWholeCharacters` | crates/mw-assist/src/adapters.rs:538-540 | the decoder sees the stream's text if and only if no chunk cuts a character |
| `SseDecoder.CutCharacterIsLost` | crates/mw-assist/src/adapters.rs:538-540 | a frame cut inside a character comes out with replacement characters |
| `XmlEscape.XmlEscapeText` | crates/mw-carddav/src/request.rs:20-33 | the character loop is one-pass escaping |
| `XmlEscape.UnescapeOfEscape` | crates/mw-autoconfig/src/xml.rs:313-322 | the five global replacements in their order undo one-pass escaping on all strings |
| `XmlReader.Parser.TakeTag` | crates/mw-autoconfig/src/xml.rs:174-214 | the attribute loop, with the cursor inside the document throughout |
| `XmlReader.Parser.TakeContent` | crates/mw-autoconfig/src/xml.rs:215-266 | the content loop: comments, CDATA, instructions, children and text runs |
| `XmlReader.Parser.SkipProlog` | crates/mw-autoconfig/src/xml.rs:134-157 | declarations, comments and the document type are skipped; the loop ends on every input |
| `XmlReader.Parse` | crates/mw-autoconfig/src/xml.rs:97-106 | the cursor form terminates on every input and equals the specification over the unread bytes |
| `XmlRoundTrip.ParseOfPrint` | crates/mw-autoconfig/src/xml.rs:95-266 | in particular a tree with legal names, printed with escaped texts, is read back exactly when it has at most `MAX_DEPTH + 1` levels, and refused otherwise |
| `XmlRoundTrip.ParseOfDocument` | crates/mw-autoconfig/src/xml.rs:97-281 | any prolog of blanks, declarations, comments and document types, a root with comments, instructions, CDATA sections, self-closed elements, bare and quoted attributes anywhere, and anything behind it: the reader gives exactly the tree it means, or refuses it for its depth |
| `XmlMarkup.EveryTreeIsMeant` | crates/mw-autoconfig/src/xml.rs:28-34 | every tree with legal names is what some such document means |
| `XmlRoundTrip.ParseOfUnclosed` | crates/mw-autoconfig/src/xml.rs:215-221 | a root that the document leaves open is read as closed by its end |
| `XmlRoundTrip.NoRootIsRefused` | crates/mw-autoconfig/src/xml.rs:162-173 | a document with text, nothing, or a tag without a name where the root should be is refused |
| `XmlRoundTrip.BrokenTagIsRefused` | crates/mw-autoconfig/src/xml.rs:174-213 | so is one whose first tag ends with the document, holds a lone slash, or has a value without quotes |
| `XmlRoundTrip.OpenMarkupEnds` | crates/mw-autoconfig/src/xml.rs:229-248 | a comment, an instruction or a CDATA section that is never closed runs to the end of the document; what was read before it stays |
| `XmlRoundTrip.DepthIsCapped` | crates/mw-autoconfig/src/xml.rs:162-165 | no document at all gives a deeper tree |
| `LayeredCache.Cache.Lookup` | crates/mw-cache/src/lib.rs:529-571 | memory, Redis and store in order; a hit in a lower tier warms memory |
| `LayeredCache.Cache.Read` | crates/mw-cache/src/lib.rs:529-577 | a read asks the loader only on a full miss, then back-fills |
| `LayeredCache.Cache.Write` | crates/mw-cache/src/lib.rs:578-640 | a write goes to the class's tiers and no other; failed tier calls change nothing but the connection flag |
| `LayeredCache.Cache.Set` | crates/mw-cache/src/lib.rs:448-454 | a write of a value stores its serialized text |
| `LayeredCache.Cache.Drop` | crates/mw-cache/src/lib.rs:457-476 | an invalidation removes memory and Redis entries and writes a tombstone to the store |
| `LayeredCache.Cache.ReadDerived` | crates/mw-cache/src/lib.rs:480-502 | a zero-access read asks the loader and touches no tier |
| `LayeredCache.Cache.SetDerived` | crates/mw-cache/src/lib.rs:508-525 | a zero-access write touches no tier; any other is a write |
| `CacheCoherence.NamespacedInjective` | crates/mw-cache/src/lib.rs:692-698 | different classes or keys never share a cache key |
| `CacheCoherence.EmptyIsCoherent` | crates/mw-cache/src/lib.rs:362-384 | a cache built with empty tiers is coherent with any authoritative values |
| `CacheCoherence.EveryReadIsAuthoritative` | crates/mw-cache/src/lib.rs:438-648 | in every sequential run that writes through, every read returns the authoritative value, whatever expires, is evicted or cannot be read |
| `CacheCoherence.WriteThroughIff` | crates/mw-cache/src/lib.rs:448-454 | a write keeps coherence exactly when each tier call succeeds or the old entry happens to be right |
| `CacheCoherence.InvalidateIff` | crates/mw-cache/src/lib.rs:457-476 | the same for an invalidation |
| `CacheCoherence.FailedDeleteServesStale` | crates/mw-cache/src/lib.rs:461-466 | after a failed Redis delete the old value is served |
| `CacheStaleness.ServedValuesAreRecent` | crates/mw-cache/src/lib.rs:529-640 | in every run, a value served for a memory and Redis class was brought in less than twice its time to live earlier, and less than once without Redis |
| `CacheStaleness.EveryAgeOccurs` | crates/mw-cache/src/lib.rs:550-558 | every age below that bound occurs in some run, so the factor two is needed |
| `CacheStaleness.ZeroAccessLeavesNoTrace` | crates/mw-cache/src/lib.rs:480-525 | in every run the tiers end as if the zero-access steps had not happened |
| `CacheRecall.ReadIsRemembered` | crates/mw-cache/src/lib.rs:529-576 | a value that a read loaded into a tier, or found below memory, is the answer of every later read of the key with the loader failing, as long as the tier can be read, its time has not passed, and nothing writes, changes or forgets the key |
| `CacheRecall.WriteIsRemembered` | crates/mw-cache/src/lib.rs:581-614 | a written value likewise |
| `CacheRecall.OnlyOwnTiers` | crates/mw-cache/src/lib.rs:529-614 | in every run from empty tiers nothing is ever in a tier that its class does not use |
| `CacheRecall.TiersOf` | crates/mw-cache/src/lib.rs:529-614 | which tiers a class uses, with and without a policy of its own |
| `CacheRecall.UnreadableRedis` | crates/mw-cache/src/lib.rs:615-640 | Redis that cannot be read answers nothing, and the failure is noted |
| `CacheRecall.UnreadableStore` | crates/mw-cache/src/lib.rs:642-660 | a store that cannot be read answers as an empty one |
| `CacheRecall.UnwritableRedis` | crates/mw-cache/src/lib.rs:461-640 | Redis that cannot be written or deleted from is noted as gone |
| `DataScopes.RedactChat` | crates/mw-assist/src/redact.rs:38-77 | the payload is the prompt and the admitted texts in order; the counters tell the reasons and add up to the number of items |
| `DataScopes.ClampIsMeetIff` | crates/mw-assist/src/lib.rs:151-193 | clamping admits what both scopes admit, for all items, unless the folder lists clash on a shared account; the exception is exact |
| `DataScopes.ForwardedTexts` | crates/mw-assist/src/redact.rs:38-91 | what is forwarded under the clamped scope is what both scopes admit |
| `DataScopes.SealedNeedsBoth` | crates/mw-assist/src/lib.rs:151-160 | sealed content and attachments need both switches, and every item a shared account |
| `DataScopes.PayloadHoldsTexts` | crates/mw-assist/src/redact.rs:38-70 | a chat is handed the prompt and behind it every admitted text, whole, in order, each after an empty line, and nothing else |
| `RateLimit.Limiter.Check` | crates/mw-assist/src/lib.rs:509-530 | one call on the pruned map |
| `RateLimit.SharedAnswersAsPrivate` | crates/mw-assist/src/lib.rs:509-530 | the shared pruned map answers every call as a private limiter that is never pruned |
| `RateLimit.WindowGrantsItsCount` | crates/mw-assist/src/lib.rs:509-530 | a window counts exactly the calls granted in its minute, hence at most the limit |
| `RateLimit.AtMostTwiceLess` | crates/mw-assist/src/lib.rs:509-530 | in any half-open minute a key is granted at most `2 * limit - 1` calls |
| `RateLimit.BurstReachesBound` | crates/mw-assist/src/lib.rs:509-530 | a burst across a window's end reaches that bound |
| `RateLimit.RateKeyIffSameAccounts` | crates/mw-assist/src/lib.rs:364-372 | two calls share a budget exactly when they name the same accounts equally often, in any order |
| `RateLimit.RateKeyIsNotPerSet` | crates/mw-assist/src/lib.rs:364-372 | naming an account twice gives another budget; the empty list and the empty id collide |
| `AssistGateway.Gateway.InvokeVia` | crates/mw-assist/src/lib.rs:581-597 | the checks in their order, then the audit row and the dispatch in one log |
| `AssistGateway.Gateway.EmbedFor` | crates/mw-assist/src/lib.rs:608-628 | the same, refusing when no account is shared with the ceiling |
| `AssistGateway.Gateway.TranscribeVia` | crates/mw-assist/src/lib.rs:637-650 | the same for speech |
| `AssistGateway.RowBeforeDispatch` | crates/mw-assist/src/lib.rs:581-650 | in every run the log is, for each accepted request in order, its audit row and right behind it its dispatch; a refused request leaves neither |
| `AssistGateway.SentOnlyIfAllowed` | crates/mw-assist/src/lib.rs:461-497 | nothing is sent in any run while the gateway is off or for a capability that is not granted, and the entry before a dispatch is the row with its host and capability |
| `AssistGateway.ChatPayloads` | crates/mw-assist/src/lib.rs:581-597 | every chat payload is the prompt and exactly the texts both scopes admit |
| `AssistGateway.SentAsAsked` | crates/mw-assist/src/lib.rs:463-660 | every dispatch goes to the endpoint of the call or else the configured one, with the audio or the text to embed as it came; its row names that host and counts the shared accounts |
| `AssistGateway.RefusedIff` | crates/mw-assist/src/lib.rs:463-530 | exactly when and why a request is refused, and that without a limit none is refused for its rate |
| `AssistGateway.OutsideTheCeiling` | crates/mw-assist/src/lib.rs:608-628 | without a shared account nothing is embedded and a chat carries the prompt alone |
| `AssistGateway.DispatchRateIsBounded` | crates/mw-assist/src/lib.rs:509-650 | in any half-open minute of any run fewer than twice the limit is dispatched on one budget |
| `BackupNames.NamesApart` | scripts/backup-destinations.py:259-286 | files of two sets share a name exactly when they are one file of one set or the release files of one stem |
| `BackupNames.NameOrderIsTimeOrder` | scripts/backup-destinations.py:268-276 | the order of snapshot names is the order of their times |
| `BackupChecks.ArchiveNameIff` | scripts/backup-destinations.py:31-34 | which names are archives, spelled out |
| `BackupChecks.SnapshotIff` | scripts/backup-destinations.py:33-34 | a snapshot's name is a date, a time, two numbers and an archive's ending |
| `BackupProtocol.ActionKeepsInv` | scripts/backup-destinations.py:381-429 | under the exact condition every single file operation, start, listing, prune or crash keeps every set sound |
| `BackupProtocol.ReachedMarkersAreShort` | scripts/backup-destinations.py:381-429 | in every run a manifest stands only for an archive to be published, with at most 146 characters in its name |
| `BackupProtocol.ManifestMeansComplete` | scripts/backup-destinations.py:381-429 | under the exact condition, in every reachable state a manifest that is there means its archive and release file are there with the recorded content |
| `BackupSafety.SafeIff` | scripts/backup-destinations.py:259-429 | every state of every run is sound if and only if at most one archive can be removed, or nothing is published while it is pruned and no two such archives share a stem |
| `BackupSafety.OverlapRun` | scripts/backup-destinations.py:276-429 | a run from an empty directory: an archive is published, listed and pruned while it is published again, and ends with its manifest and without the archive |
| `BackupSafety.SharedStemRun` | scripts/backup-destinations.py:276-286 | a run from an empty directory: the retention of the second encryption removes the first and their release file |
| `BackupSafety.PublishRuns` | scripts/backup-destinations.py:381-429 | a publication taken alone is a run and ends as the publication does |
| `BackupDirectory.Directory.CopyFile` | scripts/backup-destinations.py:381-400 | a copy never replaces a file; an equal file is accepted |
| `BackupDirectory.Directory.Publish` | scripts/backup-destinations.py:413-429 | the three files in order, stopping at the first that cannot be copied |
| `BackupDirectory.Directory.Fetch` | scripts/backup-destinations.py:448-474 | the manifest, then both files against their sizes and digests |
| `BackupDirectory.Directory.FetchInto` | scripts/backup-destinations.py:448-475 | what was fetched is published in the output directory, which may be the same one |
| `BackupDirectory.PublishedIsComplete` | scripts/backup-destinations.py:413-429 | a publication that succeeds leaves a complete set in any directory |
| `BackupChecks.PublishIff` | scripts/backup-destinations.py:381-431 | a publication succeeds exactly when the name is an archive's and each of the three files is missing or equal; then the missing ones are there and nothing else changed |
| `BackupDirectory.FetchIsExact` | scripts/backup-destinations.py:432-475 | a fetch that succeeds returns exactly the bytes of one publication, whatever happens between its reads |
| `BackupChecks.FetchIff` | scripts/backup-destinations.py:432-477 | a fetch succeeds exactly when the manifest lists archive and release file, in either order, and both are there with the listed size and digest; it returns them |
| `BackupDirectory.CompleteSetIsFetchedIff` | scripts/backup-destinations.py:448-475 | in every run a complete set is fetched exactly when its three files are within the fetch limits |
| `BackupDirectory.PublishAlone` | scripts/backup-destinations.py:381-429 | the single steps of a publication, taken alone, end as the publication does |
| `BackupDirectory.Directory.Retention` | scripts/backup-destinations.py:259-286 | removes exactly the complete snapshots ranked after the newest `keep`, older than the cutoff, and not the current one, with their files |
| `BackupDirectory.RankIsNewer` | scripts/backup-destinations.py:268-275 | the position in the sorted list is the number of newer complete snapshots |
| `BackupDirectory.NewestSurvive` | scripts/backup-destinations.py:272-275 | after retention the first `keep` of the ranking and the current snapshot have their archive and manifest unchanged, and their release file unless a snapshot with the same stem went |
| `RetentionRule.RecentSurvive` | scripts/backup-destinations.py:269-275 | everything made at or after the cutoff time survives |
| `RetentionRule.RemovedIff` | scripts/backup-destinations.py:259-286 | exactly which snapshots a run removes, from the configured limits and the listed names |
| `RetentionRule.KeptSetLosesIff` | scripts/backup-destinations.py:276-285 | a kept complete set loses a file exactly when its release file was listed and a snapshot with the same stem is removed; it loses the release file only |
| `RetentionRule.KeptSetsStayWhole` | scripts/backup-destinations.py:276-285 | with distinct stems a kept complete set keeps all three files |
| `RetentionRule.OnlyRemovedSetsLose` | scripts/backup-destinations.py:259-286 | every file that goes belongs to a removed snapshot |
| `RetentionRule.SharedStemLosesRelease` | scripts/backup-destinations.py:277-285 | two encryptions of one snapshot: keeping one set takes the kept one's release file |
| `SwRouting.ReadProviders` | apps/web/public/sw.js:353-361 | the provider loop rebuilds every provider or none |
| `SwRouting.RebuiltIsPublic` | apps/web/public/sw.js:343-363 | whatever was stored, a rebuilt answer has the public shape |
| `SwRouting.RebuiltIs` | apps/web/public/sw.js:348-363 | which stored answers are rebuilt, and that every field the app reads is passed on as it was stored, provider by provider |
| `SwRouting.PatternsAre` | apps/web/public/sw.js:348-360 | the forms of keys, ids and kinds, spelled out |
| `SwRouting.GoodProviderIff` | apps/web/public/sw.js:349-360 | which providers are accepted, with the name's length in UTF-16 units |
| `SwRoutes.RouteIff` | apps/web/public/sw.js:231-246 | by full paths, prefix included: exactly which requests go to the network first, to the cache first, or fall back to the shell |
| `SwRoutes.LogoutIff` | apps/web/public/sw.js:185-189 | exactly which requests log out |
| `SwRoutes.ShellClientIff` | apps/web/public/sw.js:98-123 | exactly which clients may be answered from the cache |
| `SwRoutes.ScriptIff` | apps/web/public/sw.js:98-123 | which paths are scripts of the app's workers |
| `SwRoutes.ExtensionIff` | apps/web/public/sw.js:86-88 | a path's extension is the word of letters and digits behind a dot that ends it |
| `SwRoutes.TypeIs` | apps/web/public/sw.js:79-93 | the type every path is served with |
| `SwRoutes.LimitsAre` | apps/web/public/sw.js:253-279 | how many entries of each strategy may stay and for how long; a stamp from the future counts as none |
| `SwRouting.FieldPassesIff` | apps/web/public/sw.js:348-360 | a field passes exactly when it is a text, number or truth value of the right form, alone or inside lists of one element |
| `SwRouting.RebuiltHoldsTextsIff` | apps/web/public/sw.js:348-363 | the rebuilt answer's key, ids and kinds are texts exactly when the stored ones are |
| `SwRouting.ListPassesForText` | apps/web/public/sw.js:348-352 | a list holding one text passes for the text |
| `SwCanonical.AssetRestoredIff` | apps/web/public/sw.js:56-66 | for every file of the build, whatever its bytes, and every accepted prefix: the worker checks the build's bytes exactly when the page is UTF-8, keeps no byte order mark in front and holds no tag before the head, the stylesheet is as in the next row, and a nested page was not adapted |
| `SwCanonical.StylesheetRestoredIff` | crates/mw-server/src/lib.rs:5803-5820 | prefixing font references in three quoting forms, then undoing them in the same order, gives the stylesheet's bytes back exactly when it is UTF-8 without a byte order mark and no reference looked prefixed before |
| `SwCanonical.ShimUndone` | crates/mw-server/src/lib.rs:5786-5798 | removing the first shim tag undoes its insertion exactly when the page holds none before that place |
| `SwSweep.Storage.Sweep` | apps/web/public/sw.js:313-333 | the two passes delete the listed keys in order, up to the storage call that throws |
| `SwSweep.CompleteSweep` | apps/web/public/sw.js:313-333 | when none throws, the result is the swept cache that the rows on freshness, the shell and the caps are about |
| `SwSweep.Storage.Store` | apps/web/public/sw.js:286-304 | a stored copy is stamped, and a sweep follows at most once a minute |
| `SwSweep.SweptIsFresh` | apps/web/public/sw.js:313-324 | every entry left is the shell or a fresh one the worker would store today |
| `SwSweep.ShellSurvives` | apps/web/public/sw.js:306-318 | the shell is never swept away |
| `SwSweep.SweptWithinCap` | apps/web/public/sw.js:325-333 | each strategy holds its cap or all its fresh entries, whichever is less |
| `SwSweep.NewestAreKept` | apps/web/public/sw.js:325-333 | no discarded fresh entry is newer than a kept one |
| `SwWorker.Worker.OnFetch` | apps/web/public/sw.js:510-525 | the fetch handler over the three strategies |
| `SwWorker.Worker.OnInstall` | apps/web/public/sw.js:466-487 | the installation: stores the shell, or removes it for a gated answer |
| `SwWorker.Worker.OnActivate` | apps/web/public/sw.js:488-508 | the activation: a sweep of the cache, if it can be opened |
| `SwWorker.Worker.AnswerCacheFirst` | apps/web/public/sw.js:397-415 | cache first, deleting what does not match the manifest |
| `SwWorker.Worker.AnswerNetworkFirst` | apps/web/public/sw.js:365-385 | network first, else a fresh stored answer rebuilt |
| `SwWorker.Worker.AnswerShell` | apps/web/public/sw.js:417-455 | the shell from the network, else the verified stored shell |
| `SwWorker.RunServesTrustworthy` | apps/web/public/sw.js:343-455 | in every run, with the cache rewritten arbitrarily at any point, what is not from the network matches the build's manifest, is a font with a font type, or has the rebuilt public shape, and goes to shell clients only |
| `SwHistory.PostIs` | apps/web/public/sw.js:510-519 | a logout that can purge empties the cache; no other POST touches it |
| `SwHistory.EntriesAreAnswers` | apps/web/public/sw.js:286-455 | in every run without other writers every entry was there at the start or is the network's answer to an event after the last purge |
| `SwHistory.ServedSinceLogout` | apps/web/public/sw.js:336-455 | after a logout whatever is served from the cache is the network's answer to an event since the last logout |
| `SwHistory.StoredAssetIsServed` | apps/web/public/sw.js:397-415 | an asset or font that was stored is served as it came when the network is gone, as long as nothing touches its entry |
| `SwHistory.StoredAnswerIsServed` | apps/web/public/sw.js:365-385 | a public answer likewise, for a day, rebuilt |
| `SwHistory.StoredShellIsServed` | apps/web/public/sw.js:417-455 | the shell likewise, to every navigation to it |
| `SwHistory.AssetAnswerIs` | apps/web/public/sw.js:397-415 | exactly when an asset or font is served from the cache, and that a stored file that fails the check is deleted |
| `SwHistory.PublicAnswerIs` | apps/web/public/sw.js:365-385 | exactly what a public route answers, with and without the network |
| `SwHistory.ShellAnswerIs` | apps/web/public/sw.js:432-455 | exactly what a navigation to the shell answers |
| `SwHistory.GatedShellIsGone` | apps/web/public/sw.js:417-424 | a gated answer removes the stored shell, and nothing else |
| `SwHistory.InstallStores` | apps/web/public/sw.js:466-487 | an installation stores exactly the build's own page, neither tagged nor gated |
| `SwHistory.ClosedCacheServesNothing` | apps/web/public/sw.js:365-455 | where the cache cannot be opened, nothing is served from it |
| `SwWorker.FontType` | apps/web/public/sw.js:77-93 | a font path is always served with a font type |
| `SwWorker.AllowedKeyShape` | apps/web/public/sw.js:215-246 | an allowed key is the shell, an asset outside analytics, a font, or one of the two public answers without a query |
| `SwWorker.ActivationClosesIff` | apps/web/public/sw.js:488-508 | after an activation only allowed keys are stored exactly when its sweep reaches the last key that is not allowed |
| `SwWorker.OnlyAllowedAdded` | apps/web/public/sw.js:229-246 | whatever fails, while only the worker writes, every key is the shell, an asset, a font, one of the two public answers, or was there at the start |
| `SwWorker.OnlyAllowedKeys` | apps/web/public/sw.js:229-246 | from the first sweep that gets through on, while only the worker writes, no other key is ever stored |
| `LoginMonitor.Monitor.RecordFailure` | crates/mw-admin/src/banlist.rs:140-154 | prunes, adds and judges under the canonical address |
| `LoginMonitor.Admin.RecordLoginSuccess` | crates/mw-admin/src/lib.rs:778-790 | a success forgets the failures counted for the address, in either notation |
| `LoginMonitor.CanonicalIff` | crates/mw-admin/src/banlist.rs:140-161 | two addresses are taken for one host exactly when they are equal or one is the other mapped into IPv6 |
| `LoginMonitor.VerdictAgreesWithHistory` | crates/mw-admin/src/banlist.rs:140-161 | the pruned counter equals the host's failures, in either notation, since its last success that lie in the window, over the full history |
| `LoginMonitor.Admin.RecordLoginFailure` | crates/mw-admin/src/lib.rs:827-866 | one failure: counter, verdict, log line, and the ban when the threshold is crossed; nothing without an address |
| `LoginMonitor.LineNamesTheJudged` | crates/mw-admin/src/lib.rs:827-866 | the address read back from the line is the one that was judged and that the ban names, whatever the account is called |
| `LoginMonitor.OutcomeIs` | crates/mw-admin/src/lib.rs:827-866 | a failure reports a ban exactly when it crosses the threshold, with the number of failures |
| `LoginMonitor.BanAcceptedIff` | crates/mw-admin/src/lib.rs:893-918 | exactly which bans by hand are accepted |
| `LoginMonitor.GoodBanNameIff` | crates/mw-admin/src/lib.rs:940-943 | exactly which names an unban takes |
| `LoginMonitor.Admin.BanIp` | crates/mw-admin/src/lib.rs:893-938 | a ban under the canonical text, or a refusal for a text that is no address, a reason that is too long or holds control characters, or an expiry that is past |
| `LoginMonitor.BannedIffOnceCrossed` | crates/mw-admin/src/lib.rs:827-866 | in every run of login events an address is banned, in any notation and at any time, exactly when it once reached the threshold |
| `LoginMonitor.BannedIffStands` | crates/mw-admin/src/lib.rs:827-961 | in every run of logins, bans and unbans in any order an address is banned at a time exactly when some event banned it, by crossing the threshold or by hand, no later one banned it anew or lifted the ban, and that event's expiry is ahead |
| `LoginMonitor.Admin.UnbanIp` | crates/mw-admin/src/lib.rs:940-961 | every ban of the address goes, or the name is refused: empty, too long, or holding control characters |
| `LoginMonitor.CrossesIff` | crates/mw-admin/src/banlist.rs:146-153 | up to 2 to the 32nd events the 32-bit cast of the counter changes nothing |
| `LoginMonitor.UnbanIsExact` | crates/mw-admin/src/store.rs:284-306 | unbanning lifts every ban of that address, however written, and no other |
| `LoginMonitor.BanIsExact` | crates/mw-admin/src/store.rs:284-306 | banning bans that address in every notation until the expiry, and no other |
| `AuthLog.SanitizeLogname` | crates/mw-admin/src/banlist.rs:69-83 | at most 128 characters of the allowlist, never empty |
| `AuthLog.SanitizedKeeps` | crates/mw-admin/src/banlist.rs:69-83 | the first 128 characters are kept one for one, with an underscore for each that is not allowed |
| `AuthLog.HostReadsBack` | crates/mw-admin/src/banlist.rs:32-92 | the address is read back from the line, whatever login name was supplied |
| `AuthLog.LineIsOneRecord` | crates/mw-admin/src/banlist.rs:41-68 | the line holds no line break and `rhost=` exactly once |
| `WasmReader.TakeUleb` | plugins/verify-artifacts.py:107-119 | the shift loop, reading at most ten bytes |
| `WasmReader.CoreInterface` | plugins/verify-artifacts.py:129-171 | the section loop computes the specified lists, truncation and overrun included |
| `WasmReader.KindsAreNamed` | plugins/verify-artifacts.py:102-169 | which kind is reported for an export |
| `WasmModule.UlebInvertsEncoding` | plugins/verify-artifacts.py:107-119 | every number below 2 to the 70th is read back; every other is refused |
| `WasmModule.DigitsBack` | plugins/verify-artifacts.py:107-119 | a number is read back from each of its encodings, padded ones included |
| `WasmModule.EveryNumber` | plugins/verify-artifacts.py:107-119 | these are all: from whatever bytes a number is read, the bytes read are an encoding of it |
| `WasmModule.UlebReadsAtMost` | plugins/verify-artifacts.py:107-119 | on any bytes at most ten are read |
| `WasmModule.ExactIff` | plugins/verify-artifacts.py:140-157 | exactly which descriptions are stepped over exactly: functions, memories, tables and globals of a one-byte type, and some tables of a two-byte type by luck |
| `WasmRoundTrip.TypeBack` | plugins/verify-artifacts.py:140-157 | for every import description of the core specification: what of it the reader leaves unread |
| `WasmRoundTrip.InterfaceOfModule` | plugins/verify-artifacts.py:129-171 | for every well-formed module in which each import that is not stepped over exactly stands last in its section, the reader reports exactly the sorted imports and exports and skips every other section |
| `WasmRoundTrip.InterfaceIsSorted` | plugins/verify-artifacts.py:171 | the lists are sorted and lose nothing |
| `WasmMisread.InterfaceIsRightIff` | plugins/verify-artifacts.py:129-171 | with plain module names, and where the first import that is not stepped over and not last leaves the number 0 or is a mutable global before a module name of fewer than 32 bytes, the report is right exactly when no such import stands before another |
| `WasmMisread.TagsAreBlank` | plugins/verify-artifacts.py:140-157 | tags and immutable globals of a two-byte type are not stepped over and leave the number 0 |
| `WasmMisread.DecidedIf` | plugins/verify-artifacts.py:140-157 | so the premise of `InterfaceIsRightIff` holds wherever nothing else that is not stepped over stands before another import |
| `WasmMisread.AfterTag` | plugins/verify-artifacts.py:140-157 | what is read behind a tag, for every type index and whatever follows: an empty module name and as many of the following bytes as the index says |
| `WasmMisread.TagImportIsMisread` | plugins/verify-artifacts.py:140-157 | a tag of type 0 hides the names of the next import |
| `WasmMisread.AfterGlobal` | plugins/verify-artifacts.py:140-157 | behind an immutable global of a two-byte type the next import's module name is reported as a field of an empty module |
| `WasmMisread.GlobalImportIsMisread` | plugins/verify-artifacts.py:140-157 | the global `m.g` of such a type before the function `a.b`: the report is `m.g` and `.a` |

## Left out

- Cryptography, SHA-256, the random boundary, HTTP, DNS, TLS, rclone and database calls.
- Concurrency inside one cache, one gateway or one worker event: operations are atomic and
  in call order. Only the backup protocol interleaves.
- Matrix overrides of the cache, the inspection helpers and the doctor's output; a class's
  layers are fixed in a run, and cached values are kept as their JSON text.
- Remote backup destinations: only the local and NFS branch of copying and reading is
  modelled, with the source files unchanged during a publication.
- BackupProtocol.ManifestMeansComplete: requires the condition that `BackupSafety.SafeIff`
  shows to be exact. A listing may report any names that are or were in the directory, which
  covers a directory that changes while it is read.
- CacheCoherence.EveryReadIsAuthoritative: requires that the tier writes of writes and
  invalidations succeed; `WriteThroughIff` and `InvalidateIff` give the exact condition.
- HeaderFolding.FoldedLinesAreShort: is about ASCII fields; a longer non-ASCII word stays on
  one line of its own.
- QuotedPrintableLines.LineStartIsSafe: is about the start of a text line; a line after a
  soft break may start with `.`, `-` or `From `.
- AuthLog.HostReadsBack: reads the token after the last `rhost=` behind the first marker,
  which is what the expression matches on a line of this shape; a general engine for
  regular expressions is not part of this model.
- LoginMonitor.BannedIffStands: is about runs that start from an empty ban list; rows of
  another origin are covered by `BanIsExact` and `UnbanIsExact`. The admin store's own
  failures are left out.
- WasmRoundTrip.InterfaceOfModule: is about core modules; the component reader and the
  capability checks on top of it are left out.
- WasmMisread.InterfaceIsRightIff: where a table, or a mutable global before a longer module
  name, leaves another number unread before the next import, names read by mistake could
  agree with the right ones by coincidence; only "aligned modules are read right"
  (`WasmRoundTrip.InterfaceOfModule`) covers those.
- CacheStaleness.ServedValuesAreRecent: requires a clock that does not run back. An expired
  memory entry counts as gone when it is overwritten.
- Audit rows carry a scope summary as counts and flags instead of its text, and chat
  payloads name the capability instead of its system prompt.
- The service worker's push and notification handlers, and other caches than the current
  one.
- RFC 9788 protection of messages whose fields are not trimmed, or hold line breaks.
- The admin settings, presets, Sieve, IMAP, search, CardDAV transport and the web interface.
