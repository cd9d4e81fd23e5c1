# Storage archives, reader pages and reader synchronisation

A Dafny model of four parts of the reader application, and proofs about them.

- **Storage backup.** The ustar writer and strict reader of the volume backup helper, the manifest that
  must agree with the stream, and capture, verification and restore of a volume
  (`Tar`, `StorageKeys`, `KeyForms`, `StreamReader`, `Archive`, `ArchiveLayout`, `Manifest`, `Volume`,
  `Backup`, `CaptureRestore`).
  Main results: an archive that was written is accepted and carries exactly its files, cut into any
  non-empty chunks; the verifying and the extracting pass accept the same streams; a restore is all or
  nothing, and its final re-scan never refuses a correct restore; what is captured is what is restored.
- **Pagination and reading positions.** The greedy page filler with paragraph splitting, and the two
  mappings between positions and pages (`Publication`, `PageLayout`, `Pagination`, `PageFilling`,
  `PageTheorems`, `PageCount`, `PageContents`, `Locations`, `LocationTheorems`, and clamping in
  `Persistence`). Main results: nothing is lost, repeated or restyled; no grouping of a section's blocks into single blocks
  and groups within the budget takes fewer pages, an over-budget paragraph counting with its chunks;
  page and position are inverse; the page of a position follows document order.
- **Synchronisation.** The progress synchronizer, the versioned store and the preference queue
  (`ProgressSync`, `ProgressClient`, `ProgressSystem`, `ProgressSolo`, `Persistence`, `PreferenceQueue`,
  `PreferenceClient`). Main results, over every run: no client has two unanswered saves, clients know
  only values the store held, replies raise versions, no accepted write replaces a value its client had
  not seen, a client alone on its store that is synced and at rest has its last position stored, whatever
  failed or was lost before, and an idle queue has stored all updates.
- **Two strict recognisers.** The canonical inventory parser (`Inventory`) and the quote-aware scanner
  for one CHECK constraint (`ConstraintScanner`), each equal to a declarative specification.

Code that updates variables step by step is a method or a class proved against a predicate or function;
the theorems are lemmas about those. `Wrappers` and `Text` hold what the source takes from its runtime.

## How the model reads the source

- A text is a sequence of characters, and a character a Unicode scalar value. The source counts, cuts and
  orders UTF-16 code units instead: the two agree on text of the basic plane, and differ beyond it, where
  the source has surrogate pairs and can cut between their halves.
- A byte is an integer from 0 to 255. Decoding as `ascii` drops the top bit of a byte, as the runtime
  does, so the octal fields and the version field are compared modulo 128 while the text fields are
  checked raw.
- SHA-256 is a pair of arbitrary functions into 64 hexadecimal digits; no property of it is used.
- A volume is a map from keys to contents and a set of directories. A stream is a sequence of chunks.
  The passes take streams that yield no empty chunk; the reader itself takes any.
- A key names a file by itself. The source joins its segments into a path, so that a key with an empty
  segment, `.` or `..` names the same file as a shorter one; statements about arbitrary encodable keys
  take such keys as different names. No legal key has such a segment.
- An anchored path pattern is read segment by segment. The readiness sentinel is the key
  `health/publication/readiness-v1` and the value `pale-orbit-publication-ready-v1`.
- A page box is given in whole columns (at least 16) and rows (at least 6). Costs are counted in
  hundredths, so 0.65, 2.5, 1.2, 1.5 and 0.48 are exact integers.
- Theorems about positions assume that block ids are distinct in a document, and comic page ids likewise.
- One event of a synchronizer or queue is a call, a timer callback or a reply together with all
  continuations it wakes. The calls of `send` and the mutations that are running are kept in a map, so
  that two could run at once, with a save unanswered each; that they never do is proved.
- In the system of many clients a request travels separately from its reply: it may be processed late or
  after its sender gave up, and its reply may never arrive.
- A desired preference value carries a stamp, since the source compares objects by identity.

## Where the code does less than one might expect

- A key of 101 to 156 bytes that ends in a slash is written with an empty name field, and the parser
  refuses that header (`Tar.HeaderRoundTrip`, `Archive.ArchiveAccepted`, with an instance in
  `Archive.NamelessArchive`). No legal key has that form (`StorageKeys.LegalKeyEncodable`).
- An empty chunk at the end of a stream makes the end check fail although no byte is left
  (`StreamReader.ExactStreamReader.AssertEnd`, with an instance in `StreamReader.EmptyChunkRefused`).
- Clamping bounds an offset from above only: a negative offset of a known block is kept and falls on no
  page (`Persistence.ClampedPositionFalls`, with an instance in `Persistence.NegativeOffsetKept`). The
  schema of a location (src/lib/types/library.ts:5) admits no negative offset, so only a caller that
  passes by the schema reaches this.
- The last chunk of a split paragraph keeps its page to itself even where the next block would fit
  (`PageCount.LastChunkStandsAlone`).
- A capture does not itself enforce the limits that validation puts on a manifest, so a volume over them
  is captured and cannot be restored (`Backup.CapturedManifestValid`, `CaptureRestore.CaptureThenRestore`,
  with an instance in `CaptureRestore.TooManyUploads`).
- The store compares versions only while it holds a value; a first write is accepted at any expected
  version (`Persistence.LocalPersistence.SaveProgress`).

## Model

| member | source | states |
|---|---|---|
| Tar.TarPathFields | src/storage-volume-backup-helper.ts:245-258 | Splitting succeeds exactly when the key is printable, relative and free of backslashes and either fits the name field or has a slash leaving a prefix of at most 155 and a name of at most 100 bytes; the cut is at the last such slash, and the two failures are told apart. |
| Tar.PathFieldsFit | src/storage-volume-backup-helper.ts:250-256 | The two fields rejoin to the key and fit; the name is empty exactly for a key of 101 to 156 bytes that ends in a slash. |
| Tar.WriteOctal | src/storage-volume-backup-helper.ts:260-267 | Fails exactly when the value needs more digits than the field has, and then writes nothing; otherwise the field holds the digits and a NUL and no other byte changes. |
| Tar.TarHeader | src/storage-volume-backup-helper.ts:269-288 | Succeeds exactly for an encodable key and a size below 8^11; the fresh block then has every ustar field at its offset and a checksum over the block with its own field read as spaces. |
| Tar.SealHeader | src/storage-volume-backup-helper.ts:283-286 | Sealing changes the checksum field alone and stores there the sum of the block as it was. |
| Tar.ChecksumFits | src/storage-volume-backup-helper.ts:283-284 | The checksum of any block of 512 bytes prints in exactly six octal digits. |
| Tar.OctalTextDigits | src/storage-volume-backup-helper.ts:260-261 | A padded octal text reads back as its value, and has exactly the field width when the value is below 8 to that width. |
| Tar.HeaderRoundTrip | src/storage-volume-backup-helper.ts:544-560 | Parsing any header written for a key and size gives back that key and size, except for a key of 101 to 156 bytes that ends in a slash, which is refused for its empty name. |
| Tar.AcceptedHeaderHolds | src/storage-volume-backup-helper.ts:544-560 | Whatever block the parser accepts really holds the key in its two text fields, the true checksum, the format marks and an octal size below 8^12. |
| Tar.CorruptionDetected | src/storage-volume-backup-helper.ts:544-550 | Changing any one byte outside the checksum field of an accepted block makes the parser report a checksum mismatch. |
| Tar.ZeroBlockRejected | src/storage-volume-backup-helper.ts:532-537 | A block of zeros is never a header: the empty checksum field is refused first. |
| Tar.OctalFieldParses | src/storage-volume-backup-helper.ts:532-542 | A field of octal digits padded with NULs or spaces parses to its value. |
| Tar.ParsedTextHeld | src/storage-volume-backup-helper.ts:522-530 | A text the parser returns is printable and stands in the field up to its NUL. |
| Tar.OctalBound | src/storage-volume-backup-helper.ts:532-542 | A parsed number is below 8 to the width of its field. |
| Tar.TextExactly | src/storage-volume-backup-helper.ts:522-530 | A field parses to a text exactly when the text is printable and stands in the field, followed by a NUL unless it fills it. |
| Tar.OctalExactly | src/storage-volume-backup-helper.ts:532-542 | A field parses to a number exactly when it holds octal digits of that value and then only NULs and spaces, and the number is a safe integer. |
| Tar.HeaderExactly | src/storage-volume-backup-helper.ts:544-560 | A block is the header of a key and size exactly when it holds its true checksum, the marks of the format, the key in its two text fields and the size. |
| StorageKeys.AncestorAllowed | src/storage-volume-backup-helper.ts:69-98 | Every directory above a file that may stand in a volume of a class is one the scan of that class allows, with a bounded generation. |
| StorageKeys.DirectoryIsNotFile | src/storage-volume-migration-helper.ts:29-43 | No allowed directory of a class is itself the path of a file of that class. |
| StorageKeys.SplitAncestor | src/storage-volume-backup-helper.ts:166-167 | Cutting a key at one of its slashes gives a proper prefix of its segments. |
| StorageKeys.KeyAncestorsAllowed | src/storage-volume-backup-helper.ts:87-98 | Every directory a restore creates for a legal key passes the scan of that class. |
| StorageKeys.KeysDoNotNest | src/storage-volume-migration-helper.ts:81-101 | No legal key of a class is a directory above another legal key of that class. |
| StorageKeys.DirectoryLength | src/storage-volume-migration-helper.ts:22-37 | A directory above a publication file is no longer than the bound for its depth, 142 bytes at the deepest. |
| StorageKeys.DirectoryLengthReached | src/storage-volume-migration-helper.ts:22-37 | At every depth some allowed directory with a bounded generation is as long as that bound. |
| StorageKeys.LegalKeyEncodable | src/storage-volume-migration-helper.ts:81-101 | Every key the classifier admits as staging, publication or covers fits the header fields and never has an empty name. |
| KeyForms.UuidForm | src/storage-volume-migration-helper.ts:22 | An identifier is five groups of 8, 4, 4, 4 and 12 hexadecimal digits, small letters, with dashes between. |
| KeyForms.GenerationForm | src/storage-volume-migration-helper.ts:23 | A generation is the decimal form of a number of at most ten digits. |
| KeyForms.StagingForm | src/storage-volume-migration-helper.ts:25 | A key is of the staging class exactly when it is staging/uploads/ and an identifier. |
| KeyForms.HealthForm | src/storage-volume-migration-helper.ts:27 | A key is a health probe exactly when it is health/probes/ and an identifier. |
| KeyForms.ScratchForm | src/storage-volume-migration-helper.ts:28 | A key is scratch exactly when it is .verified-downloads/ and an identifier. |
| KeyForms.CoversForm | src/storage-volume-migration-helper.ts:33 | A key is a cover exactly when it is titles, an identifier, covers, and an identifier with .webp. |
| KeyForms.PublicationForm | src/storage-volume-migration-helper.ts:29-43 | A key is of the publication class exactly when it is the sentinel, an original, a derived image of one of the three kinds, or one of a generation from 0 to 2,147,483,647. |
| KeyForms.AncestorsAreBeginnings | src/storage-volume-backup-helper.ts:567-568 | The directories above a key are exactly the proper beginnings of its segments. |
| KeyForms.DirectoryHasFile | src/storage-volume-backup-helper.ts:69-98 | Every directory a class allows has room for a file of that class. |
| StreamReader.ExactStreamReader.constructor | src/storage-volume-backup-helper.ts:491-497 | A new reader has the whole stream before it. |
| StreamReader.ExactStreamReader.ReadExact | src/storage-volume-backup-helper.ts:499-511 | However the stream is cut into chunks, a read returns the next bytes exactly and leaves the rest; when there are too few it fails and loses none. |
| StreamReader.ExactStreamReader.AssertEnd | src/storage-volume-backup-helper.ts:513-519 | Succeeds exactly when nothing is buffered and no chunk is left; for streams without empty chunks, exactly when no byte is left. |
| StreamReader.EmptyChunkRefused | src/storage-volume-backup-helper.ts:513-519 | A stream of one empty chunk has no byte left and is refused. |
| Archive.ReadContent | src/storage-volume-backup-helper.ts:574-580 | Reading in pieces of at most 64 KiB delivers exactly the next bytes of the stream. |
| Archive.VerifyArchivedEntry | src/storage-volume-backup-helper.ts:599-617 | Succeeds exactly when the stream continues with content of the listed length and digest and zero padding, and then takes off exactly the least multiple of 512 bytes that holds the content. |
| Archive.VerifyNextEntry | src/storage-volume-backup-helper.ts:678-684 | Succeeds exactly when the stream continues with a header of the listed key and size and an accepted body. |
| Archive.CheckTerminator | src/storage-volume-backup-helper.ts:686-690 | Succeeds exactly when all that is left is two blocks of zeros. |
| Archive.VerifyArchiveContents | src/storage-volume-backup-helper.ts:666-695 | Accepts a stream exactly when it is the listed entries in order, the terminator and nothing else. |
| Archive.TarEntry | src/storage-volume-backup-helper.ts:291-313 | For any chunking of the file, succeeds exactly when the key and size are storable and the content still has the inventoried length and digest; what was yielded is a header block, the content and zeros up to the least multiple of 512 bytes. |
| Archive.TarContents | src/storage-volume-backup-helper.ts:290-315 | Succeeds exactly when every entry does; the chunks together are the archive of the entries in order. |
| Archive.ArchiveAccepted | src/storage-volume-backup-helper.ts:666-695 | An archive the writer yields is accepted for its entries exactly when no key is split with an empty name. |
| Archive.NamelessKeyExists | src/storage-volume-backup-helper.ts:245-258 | A hundred characters and a slash are storable and split with an empty name. |
| Archive.NamelessArchive | src/storage-volume-backup-helper.ts:290-315 | The writer yields an archive of such an entry, and no pass accepts it. |
| Archive.ArchiveCarriesFiles | src/storage-volume-backup-helper.ts:290-315 | What is read out of a written archive under its entries is exactly the source files. |
| Archive.AcceptedListUnique | src/storage-volume-backup-helper.ts:666-695 | A stream is accepted for at most one entry list, so nothing can be omitted, added or reordered. |
| Archive.WrittenEntryAccepted | src/storage-volume-backup-helper.ts:599-617 | A written entry is accepted exactly when its name field is not empty, and carries its source content. |
| ArchiveLayout.WrittenLayout | src/storage-volume-backup-helper.ts:290-315 | Whatever the keys, an archive has a header block at the start of each entry, the content behind it and zeros up to the next multiple of 512; every entry starts at such a multiple, and two blocks of zeros end it. |
| ArchiveLayout.AcceptedLayout | src/storage-volume-backup-helper.ts:631-695 | A stream the passes accept has that picture, with headers that read as the listed keys and sizes and contents of the listed digests. |
| ArchiveLayout.LayoutAccepted | src/storage-volume-backup-helper.ts:631-695 | Every stream with that picture is accepted. |
| ArchiveLayout.AcceptedIsBlocks | src/storage-volume-backup-helper.ts:631-695 | The length of an accepted stream is a multiple of 512. |
| Manifest.Aggregate | src/storage-volume-backup-helper.ts:217-229 | The loop yields the count, the total and the digest of the concatenated lines. |
| Manifest.LineUnambiguous | src/storage-volume-backup-helper.ts:226 | Digest, size and key of a line, and the text after it, can be read off the whole text. |
| Manifest.AggregateTextUnambiguous | src/storage-volume-backup-helper.ts:217-229 | Two entry lists with 64-character digests and newline-free keys and the same aggregate text are the same list. |
| Manifest.AggregatePinsEntries | src/storage-volume-backup-helper.ts:410-467 | Two valid manifests of a class with the same aggregate digest list the same entries, or their own two texts collide. |
| Manifest.AggregateIsLines | src/storage-volume-backup-helper.ts:224-227 | The hashed text, split at line breaks, is one line an entry: digest, decimal size and key with blanks between; and an empty rest. |
| Manifest.TotalsAdd | src/storage-volume-backup-helper.ts:222-225 | The total of a list is the sum of its parts, and of one entry its size. |
| Manifest.FixedFigures | src/storage-volume-backup-helper.ts:64-80 | The sentinel is health/publication/readiness-v1, 31 bytes with the digest of its text; safe integers are those below 2^53, generations end at 2^31 - 1, entries at a million. |
| Manifest.AssertPublicationSentinel | src/storage-volume-backup-helper.ts:200-215 | Passes exactly when the class is not publication or the sentinel is listed once with its size and digest. |
| Manifest.ValidateEntries | src/storage-volume-backup-helper.ts:424-443 | Accepts exactly entry lists of safe sizes, well-formed digests and keys of the class, each key less than the next at the first character in which they differ, and returns them unchanged. |
| Manifest.ValidateManifest | src/storage-volume-backup-helper.ts:410-467 | Accepts exactly the manifests with the right version and class, valid entries and sentinel, matching recomputed evidence and admissible ignored counts. |
| Volume.StorageVolume.constructor | src/storage-volume-backup-helper.ts:619-623 | A new volume is empty. |
| Volume.StorageVolume.MakeDirectories | src/storage-volume-backup-helper.ts:567-568 | Creates exactly the directories above the key, or fails and creates none when a file stands in the way. |
| Volume.StorageVolume.Rename | src/storage-volume-backup-helper.ts:587 | Replaces the file under the key, or fails and changes nothing when a directory stands there. |
| Volume.StorageVolume.Clear | src/storage-volume-backup-helper.ts:625-629 | Leaves the volume empty. |
| Volume.WriteRestoredEntry | src/storage-volume-backup-helper.ts:562-597 | Succeeds exactly when nothing obstructs the key and the stream continues with an accepted body, and then takes off the least multiple of 512 bytes that holds the content; the file has the content read, and all other files are untouched. |
| Volume.ExtractNextEntry | src/storage-volume-backup-helper.ts:644-653 | Accepts the same entries as the verifying pass although it recognises an all-zero header first, and then stores the content. |
| Volume.ExtractArchive | src/storage-volume-backup-helper.ts:631-664 | From an empty volume, succeeds exactly when the verifying pass accepts the stream and no entry key lies below another; the volume then holds exactly the files of the stream and the directories above them. |
| Volume.NestingFound | src/storage-volume-backup-helper.ts:567-568 | One entry is obstructed by those before it exactly when some key lies below another. |
| Text.IsLess | src/storage-volume-backup-helper.ts:83-85 | A text is less than another exactly when they agree up to some place at which it ends or has the smaller character. |
| Backup.SortedPaths | src/storage-volume-backup-helper.ts:162-164 | Every path once, in ascending order: each is less than the next at the first character in which they differ. |
| Backup.ScanFile | src/storage-volume-backup-helper.ts:181-192 | A file is accepted exactly when it belongs to the class or is a probe in a staging volume, and is then listed or counted. |
| Backup.ScanVolume | src/storage-volume-backup-helper.ts:159-198 | Succeeds exactly when all directories and files are allowed for the class and the sentinel is in place; the entries are then exactly the files of the class in key order, and the probe count and bytes those of the health files. |
| Backup.SentinelInInventory | src/storage-volume-backup-helper.ts:200-215 | The check on the listed entries is the same as the sentinel being stored in the volume. |
| Backup.AcceptedFiles | src/storage-volume-backup-helper.ts:631-664 | The files of an accepted stream have exactly the listed keys, sizes and digests. |
| Backup.RestoredVolumeScans | src/storage-volume-backup-helper.ts:716-724 | Extracting a stream accepted for legal entries leaves a volume whose scan succeeds and whose inventory is the listed entries. |
| Backup.InventoryUnique | src/storage-volume-backup-helper.ts:194-197 | The inventory of a volume is determined by the volume. |
| Backup.ExtractAndCheck | src/storage-volume-backup-helper.ts:709-727 | For a validated manifest, extraction with re-scan succeeds exactly when the stream is accepted: the re-scan never refuses a correct restore. |
| Backup.RestoreStorageVolume | src/storage-volume-backup-helper.ts:697-731 | All or nothing: from an empty destination, success exactly for a valid manifest and an accepted stream, with exactly the archived files and their directories; after any failure the destination is empty again; one that was not empty is refused unchanged. |
| Backup.VerifyStorageRestoreInput | src/storage-volume-backup-helper.ts:733-751 | The rehearsal succeeds exactly when the restore of the same input into the same destination would, and changes nothing. |
| Backup.WriteArchive | src/storage-volume-backup-helper.ts:326-349 | Writing and verifying the archive of an inventory succeeds exactly when every file of the class is below 8^11 bytes; the archive carries exactly those files. |
| Backup.CaptureStorageVolume | src/storage-volume-backup-helper.ts:366-390 | Succeeds exactly when the volume scans and its files are below 8^11 bytes; manifest and archive then describe exactly the files of the class. |
| Backup.CapturedManifestValid | src/storage-volume-backup-helper.ts:410-467 | A captured manifest passes validation exactly when it has at most a million entries and its probe count and bytes are safe integers. |
| CaptureRestore.LimitsAreTheVolumes | src/storage-volume-backup-helper.ts:410-467 | The manifest of a capture is within the limits of validation exactly when the volume has at most a million files of the class and safe numbers of probes and probe bytes. |
| CaptureRestore.CaptureThenRestore | src/storage-volume-backup-helper.ts:366-390 | Capturing a volume, cutting the archive into any non-empty chunks and restoring it into an empty volume succeeds exactly when the volume scans, its files are below 8^11 bytes, and it has at most a million files of the class and safe numbers of probes and probe bytes; the destination then holds exactly the files of the class, and otherwise nothing. |
| CaptureRestore.TooManyUploads | src/storage-volume-backup-helper.ts:416-427 | A staging volume of 1,000,001 empty uploads scans and is captured, and is over those limits. |
| Backup.NoProbes | src/storage-volume-backup-helper.ts:183-190 | Outside staging a scanned volume has no probe, so its ignored counts are zero. |
| Backup.TotalBytesBounded | src/storage-volume-backup-helper.ts:222-227 | A million entries below 8^11 bytes each keep the total a safe integer. |
| Inventory.AcceptedRowIsCanonical | scripts/deployment-checkpoint.ts:88-112 | An accepted line is the printed row of a valid reference. |
| Inventory.CanonicalRowIsAccepted | scripts/deployment-checkpoint.ts:88-112 | The printed row of a valid reference is accepted and parses to that reference. |
| Inventory.LegalKeyIsPlain | scripts/deployment-checkpoint.ts:103-107 | A key the classifier admits passes the remaining tests on a key, and contains no comma or line break. |
| Inventory.RowInjective | scripts/deployment-checkpoint.ts:118-124 | Valid references with the same row are the same. |
| Inventory.ParseRows | scripts/deployment-checkpoint.ts:85-126 | Accepts exactly the lines that are rows of valid references with distinct keys, each line less than the next at the first character in which they differ; on refusal no such references exist. |
| Inventory.KindsAndClasses | scripts/deployment-checkpoint.ts:55-62 | The six kinds of reference, the class each is in, and the name of each class. |
| Inventory.RowText | scripts/deployment-checkpoint.ts:90-91 | A row is class, kind, key, digest and decimal size with commas between. |
| Inventory.RenderGrows | scripts/deployment-checkpoint.ts:79-85 | The text of an empty inventory is the header line, and each further reference adds its row as a line. |
| Inventory.ParseStorageReferenceInventory | scripts/deployment-checkpoint.ts:79-127 | Accepts a text exactly when it is the canonical form of a valid inventory, and returns an inventory that prints to that text. |
| Inventory.RenderInjective | scripts/deployment-checkpoint.ts:79-127 | A text is the canonical form of at most one inventory. |
| ConstraintScanner.SkipPair | scripts/execute-financial-restore-verifier.ts:294-302 | Skipping a doubled quote leaves the toggle state and the depth as they were. |
| ConstraintScanner.ClosingParenthesis | scripts/execute-financial-restore-verifier.ts:287-320 | The one pass finds the first point at which the depth of the masked text is back to zero, and reports failure exactly when there is none. |
| ConstraintScanner.NoOverlap | scripts/execute-financial-restore-verifier.ts:280-284 | Occurrences of the prefix cannot overlap, so searching again from the end of the first one is enough. |
| ConstraintScanner.FindOnly | scripts/execute-financial-restore-verifier.ts:280-286 | Finds the prefix exactly when it occurs once. |
| ConstraintScanner.RequiredInlineCheckConstraint | scripts/execute-financial-restore-verifier.ts:267-329 | Succeeds exactly for safe names and one closed clause without a semicolon or an arrow, and returns the statement adding that clause. |
| ConstraintScanner.SafeNameForm | scripts/execute-financial-restore-verifier.ts:273-276 | A name is a small letter and then small letters, digits and underscores. |
| ConstraintScanner.PlainClauseLifted | scripts/execute-financial-restore-verifier.ts:279-328 | For every name: a clause CONSTRAINT "name" CHECK (body) whose body quotes and parenthesizes nothing, in a text without other parentheses, is the one that is lifted, from its first character to its closing parenthesis. |
| PageLayout.BoxFacts | src/lib/reader/publication-pagination.ts:88-91 | On every page box a full chunk of a split paragraph fits the budget, and the capacity is at least one character. |
| PageLayout.OnlyTextExceeds | src/lib/reader/publication-pagination.ts:42-49 | Of the blocks that are not split only a heading, a quote or a list can cost more than a page. |
| PageLayout.LayoutConcat | src/lib/reader/publication-pagination.ts:95-159 | Paginating section by section covers the blocks of the whole document in order. |
| Pagination.CutFragment | src/lib/reader/publication-pagination.ts:60-81 | The inner loop distributes the styled characters of one fragment over full chunks and one open chunk. |
| Pagination.SplitFragments | src/lib/reader/publication-pagination.ts:51-85 | The chunks are the same styled characters in order; all chunks are full except perhaps the last, none is empty, and none carries an empty link. |
| Pagination.SplitKeepsLinks | src/lib/reader/publication-pagination.ts:69-73 | Character by character a chunk carries the character and marks of the paragraph and the link h exactly where the paragraph has the link h and h is not empty. |
| Pagination.ChunkRange | src/lib/reader/publication-pagination.ts:122-134 | Chunk by chunk the offsets tile the paragraph from zero to its length. |
| PageFilling.PushPage | src/lib/reader/publication-pagination.ts:100-115 | Pushing turns the open page into a page of the pieces since the last cut, and does nothing when no page is open. |
| PageFilling.PlaceBlock | src/lib/reader/publication-pagination.ts:141-156 | A block joins the open page if it fits and otherwise opens the next one; no page is closed early. |
| PageFilling.PlaceParagraph | src/lib/reader/publication-pagination.ts:120-139 | An over-budget paragraph is placed chunk by chunk on pages of its own. |
| PageFilling.SectionPages | src/lib/reader/publication-pagination.ts:95-158 | The pages of a section show every block once and in order, every page of two or more blocks keeps the budget, each chunk of a split paragraph has a page of its own, and a page is closed only before a chunk, after one, or before a block that would exceed the budget. |
| PageFilling.ProsePages | src/lib/reader/publication-pagination.ts:87-161 | The pages of a document are those of its sections one after the other, and together show all of its blocks in order. |
| PageFilling.ComicPages | src/lib/reader/publication-pagination.ts:163-176 | One page per source page, in order, under its id, with its place, picture and panels. |
| PageFilling.PaginatePublication | src/lib/reader/publication-pagination.ts:178-180 | Either format yields pages with the layout proved for it. |
| PageTheorems.GreedyStaysAhead | src/lib/reader/publication-pagination.ts:117-157 | After equally many pages the greedy filler is at least as far as any other admissible grouping. |
| PageTheorems.GreedyFewest | src/lib/reader/publication-pagination.ts:117-157 | Among groupings of the pieces in which every chunk of a split paragraph stands alone and every other group is one piece or keeps the budget, the pages are the fewest. |
| PageCount.PieceIndex | src/lib/reader/publication-pagination.ts:120-136 | Piece by piece the place in the layout tells the block and the offset: an over-budget paragraph has its length divided by the capacity, rounded up, pieces, and every other block one. |
| PageCount.FewestPages | src/lib/reader/publication-pagination.ts:87-161 | For every section, by the cost of its blocks: the pages are exactly what some contiguous grouping into single blocks and groups within the budget takes, and no such grouping takes fewer, where an over-budget paragraph counts with its chunks. |
| PageCount.FewestChunks | src/lib/reader/publication-pagination.ts:91-134 | An over-budget paragraph cannot be shown in fewer parts each of which fits a page. |
| PageCount.LastChunkStandsAlone | src/lib/reader/publication-pagination.ts:120-136 | The filler is not optimal beyond that: a last chunk of one character and a break fit a page together by cost, and still take two. |
| PageTheorems.GreedyIsOptimal | src/lib/reader/publication-pagination.ts:87-161 | For a section without an over-budget paragraph, no contiguous grouping of its blocks whose groups are single blocks or keep the budget has fewer groups than there are pages. |
| PageTheorems.PageKeepsBudget | src/lib/reader/publication-pagination.ts:117-157 | A page of two or more blocks costs at most the budget; one that costs more shows a single heading, quote or list. |
| PageTheorems.PlacesOfPages | src/lib/reader/publication-pagination.ts:106-145 | The place number of a page is the total length of the blocks before its first one plus the offset it starts at, and never decreases in a section. |
| PageTheorems.PagesShowPieces | src/lib/reader/publication-pagination.ts:95-159 | The blocks of the first pages are the pieces up to their last cut, in order. |
| PageTheorems.PaginationKeepsCharacters | src/lib/reader/publication-pagination.ts:87-161 | Across all pages exactly the styled characters of the document are shown, once each and in order. |
| PageTheorems.PaginationKeepsLinks | src/lib/reader/publication-pagination.ts:87-161 | Across all pages, character k has the character and marks of character k of the document, and the same links, leaving empty ones aside, no matter where paragraphs were split. |
| PageTheorems.PagesShowAddresses | src/lib/reader/publication-pagination.ts:146-154 | A block on a page has an address exactly when it is an image whose id is registered last with that address and it is not empty. |
| PageContents.PageSays | src/lib/reader/publication-pagination.ts:100-115 | A page has the text of its first heading block as heading, or none if it has no such block; a paragraph for each block that has text, in order; and as folio the decimal number of its place among all pages. |
| PageContents.PlainTextIs | src/lib/reader/publication-pagination.ts:30-40 | The plain text of a heading, paragraph or quote is its characters; an image or a break has none. |
| PageContents.ListText | src/lib/reader/publication-pagination.ts:34-38 | A list reads as one line an item: its number and a point, or a bullet, then a blank and its text. |
| PageContents.CostsAreExact | src/lib/reader/publication-pagination.ts:20-49 | Costs and budget are exactly those of the source, in characters with its decimal factors, a hundredfold; and a paragraph is split exactly when its cost is over the budget. |
| PageContents.CapacityIsExact | src/lib/reader/publication-pagination.ts:91 | The capacity is the larger of the columns and the whole characters left of the budget after 0.65 times the columns. |
| Locations.DocumentBlock | src/lib/reader/locations.ts:23-32 | Searching section by section finds the first block with the id in document order, or none. |
| Locations.PageIndexForLocation | src/lib/reader/locations.ts:45-90 | Returns the first page the position can fall on, and none exactly when there is no such page. |
| Locations.LocationForPage | src/lib/reader/locations.ts:92-131 | Returns the position a page stands for: the start of its first valid piece, or the comic page and, in guided mode, its least panel. |
| Locations.LeastOrdinal | src/lib/reader/locations.ts:125-130 | The panel that sorting by ordinal puts first has the least ordinal. |
| Locations.ShowsExactly | src/lib/reader/locations.ts:34-71 | Whatever the page: a piece shows a target exactly when it names the block, lies within it, starts at or before the target and ends beyond it, or at the end of the block when that is the target. |
| Locations.FirstComicPage | src/lib/reader/locations.ts:78-79 | The page found is the first with the id, and none is found exactly when there is none. |
| LocationTheorems.TargetSpanned | src/lib/reader/locations.ts:54-73 | Every offset of every block is shown by some piece. |
| LocationTheorems.OneSpan | src/lib/reader/locations.ts:59-71 | Only one piece shows it. |
| LocationTheorems.EveryPositionFalls | src/lib/reader/locations.ts:45-75 | Every block and every non-negative offset falls on a page: the one holding the piece that shows it. |
| LocationTheorems.PagesFollowPositions | src/lib/reader/locations.ts:45-75 | A position further on in document order never falls on an earlier page. |
| LocationTheorems.LocationRoundTrip | src/lib/reader/locations.ts:92-116 | Every page of a prose document has a position, and that position falls on that page. |
| LocationTheorems.PositionIsEarliest | src/lib/reader/locations.ts:92-116 | The position of a page is the earliest that falls on it: any other is of a later block, or of the same block at no smaller an offset. |
| LocationTheorems.GuidedPositionIsFirst | src/lib/reader/locations.ts:124-130 | In guided mode the position of a comic page is a panel of it with the least ordinal. |
| LocationTheorems.ComicRoundTrip | src/lib/reader/locations.ts:118-130 | A comic page has a position in page mode always, and in guided mode exactly when guided view is on and it has a panel; the position falls on that page. |
| LocationTheorems.PageRoundTrip | src/lib/reader/locations.ts:45-131 | The same for either format on anything the paginator returns. |
| Persistence.ClampIdempotent | src/lib/reader/persistence.ts:253-278 | Clamping a clamped position changes nothing. |
| Persistence.ClampDoes | src/lib/reader/persistence.ts:244-278 | A known block keeps the smaller of the offset and its length, a known page keeps a panel it has in a guided comic and otherwise none, and everything else goes to the first block at zero or the first page; nothing only in an empty document. |
| Persistence.PositionFalls | src/lib/reader/locations.ts:45-90 | On any pagination a position falls on a page exactly when it names a block of the document at a non-negative offset, or a comic page at no panel or one it has. |
| Persistence.ClampedPositionFalls | src/lib/reader/persistence.ts:253-278 | What clamping returns falls on a page of every pagination, except exactly when the position names a known block at a negative offset. |
| Persistence.NegativeOffsetKept | src/lib/reader/persistence.ts:253-263 | A document and a position at a negative offset that clamping keeps and that falls on no page. |
| Persistence.ClampKeepsPage | src/lib/reader/persistence.ts:253-278 | Clamping does not move a position that already falls on a page. |
| Persistence.LocalPersistence.constructor | src/lib/reader/persistence.ts:280-291 | The store starts with the given progress. |
| Persistence.LocalPersistence.SaveProgress | src/lib/reader/persistence.ts:296-322 | A save is accepted at the version held, or at any version while nothing is held, and then stores the clamped position one version up; otherwise the held value is reported and kept. |
| Persistence.LocalPersistence.SaveProgressKeepalive | src/lib/reader/persistence.ts:323-329 | The same effect on the store, with the outcome dropped. |
| Persistence.StoreDoes | src/lib/reader/persistence.ts:296-316 | A save is refused without a position exactly in an empty document, conflicts exactly when a value of another version is held, and otherwise leaves the clamped position of this revision, stamped now, one version up from what was held or at version one. |
| ProgressSync.SingleFlight | src/lib/reader/progress-sync.ts:103-117 | A consistent client has at most one unanswered save, of the send in flight, tried at most four times. |
| ProgressSync.SettleFacts | src/lib/reader/progress-sync.ts:103-117 | However many callers wait when a send lands, at most one new send begins: exactly when a position is pending and no timer runs or someone waited, and with that position. |
| ProgressSync.NavigateConsistent | src/lib/reader/progress-sync.ts:120-129 | Navigating keeps a client consistent: one send at most, bounded retries, waiters only for a running send, and a timer or a flight for a pending position. |
| ProgressSync.DebounceConsistent | src/lib/reader/progress-sync.ts:125-128 | So does the timer, which asks for at most one save, never beside another. |
| ProgressSync.FlushConsistent | src/lib/reader/progress-sync.ts:130-135 | So does a flush. |
| ProgressSync.RetryConsistent | src/lib/reader/progress-sync.ts:60-66 | So does a retry, which repeats the one send there is. |
| ProgressSync.DisposeConsistent | src/lib/reader/progress-sync.ts:140-145 | So does disposal, which interrupts the send that waits for a retry. |
| ProgressSync.SuccessConsistent | src/lib/reader/progress-sync.ts:70-73 | So does a success, whose value the client then knows. |
| ProgressSync.ConflictConsistent | src/lib/reader/progress-sync.ts:75-83 | So does a conflict, whose value the client then knows. |
| ProgressSync.FailureConsistent | src/lib/reader/progress-sync.ts:84-98 | So does a failure, which leaves what the client knows as it was. |
| ProgressSync.NavigateDoes | src/lib/reader/progress-sync.ts:120-129 | The location becomes the pending one, the status pending and the timer runs; nothing is sent; after disposal nothing changes. |
| ProgressSync.DebounceDoes | src/lib/reader/progress-sync.ts:125-128 | With nothing in flight the timer sends what is pending, with the version known then; otherwise it waits behind those who already do. |
| ProgressSync.FlushDoes | src/lib/reader/progress-sync.ts:130-135 | So does a flush. |
| ProgressSync.SuccessDoes | src/lib/reader/progress-sync.ts:70-73 | The value is adopted and the status synced; what is pending goes at once if no timer runs or someone waited, and otherwise is left to its timer. |
| ProgressSync.ConflictDoes | src/lib/reader/progress-sync.ts:75-83 | The value is adopted, what is pending is dropped, nothing is sent and nothing runs. |
| ProgressSync.FailureDoes | src/lib/reader/progress-sync.ts:84-98 | A retryable failure of a live client before the fourth try leaves that send waiting with its location and try, retrying; in every other case that send is over and failed. |
| ProgressSync.RetryDoes | src/lib/reader/progress-sync.ts:60-71 | The same location is sent as the next try, with the version known by then. |
| ProgressSync.DisposeDoes | src/lib/reader/progress-sync.ts:140-145 | What is pending goes to the keepalive with the version known, and nothing if nothing is; both timers are gone and a waiting send is interrupted. |
| ProgressClient.ProgressSynchronizer.constructor | src/lib/reader/progress-sync.ts:29-44 | A new synchronizer is idle, knows the initial progress and has sent nothing. |
| ProgressClient.ProgressSynchronizer.RunPending | src/lib/reader/progress-sync.ts:103-117 | Waits while a send is in flight; otherwise begins one with what is pending, unless disposed. |
| ProgressClient.ProgressSynchronizer.Settle | src/lib/reader/progress-sync.ts:112-116 | Resuming the owner and then every waiter in turn gives the settled state. |
| ProgressClient.ProgressSynchronizer.Navigate | src/lib/reader/progress-sync.ts:120-129 | Replaces the pending position and restarts the timer; ignored after disposal; sends nothing. |
| ProgressClient.ProgressSynchronizer.DebounceFires | src/lib/reader/progress-sync.ts:125-128 | Sends the pending position, or waits for the send in flight. |
| ProgressClient.ProgressSynchronizer.Flush | src/lib/reader/progress-sync.ts:130-135 | Cancels the timer, then sends or waits. |
| ProgressClient.ProgressSynchronizer.SaveSucceeded | src/lib/reader/progress-sync.ts:71-73 | Adopts the saved value, then settles that send. |
| ProgressClient.ProgressSynchronizer.SaveConflicted | src/lib/reader/progress-sync.ts:75-83 | Adopts the conflicting value, drops what is pending, then settles that send. |
| ProgressClient.ProgressSynchronizer.SaveFailed | src/lib/reader/progress-sync.ts:84-98 | Gives up exactly when the failure is final, the retries are spent or it is disposed, and otherwise waits, as `ProgressSync.FailureDoes` spells out. |
| ProgressClient.ProgressSynchronizer.RetryFires | src/lib/reader/progress-sync.ts:60-66 | Sends the same location again with the version known by then. |
| ProgressClient.ProgressSynchronizer.Dispose | src/lib/reader/progress-sync.ts:140-145 | Clears the timers and hands exactly what is pending to the keepalive, once. |
| ProgressSystem.NextInv | src/lib/reader/progress-sync.ts:56-145 | Every step of any number of clients on one store, with lost replies, late requests, retries and keepalives, keeps the invariant. |
| ProgressSystem.RunInv | src/lib/reader/progress-sync.ts:56-145 | So does every run. |
| ProgressSystem.AcceptedWasSeen | src/lib/reader/persistence.ts:303-316 | A write the store accepts replaces exactly the value its client knew when it sent it. |
| ProgressSystem.OutcomeAbove | src/lib/reader/persistence.ts:302-315 | A reply carries a version above the one the request was sent with. |
| ProgressSystem.OneSaveOutstanding | src/lib/reader/progress-sync.ts:68-117 | In every run no client has two unanswered saves: the one there may be belongs to the send in flight and has been tried at most four times. |
| ProgressSystem.OneRequestAwaited | src/lib/reader/progress-sync.ts:68-117 | In every run at most one of the requests travelling from a client is one it still awaits. |
| ProgressSystem.KnownProgressWasStored | src/lib/reader/progress-sync.ts:71-83 | In every run each client knows only a value the store really held at that version, never above what it holds now. |
| ProgressSystem.RepliesRaiseVersion | src/lib/reader/progress-sync.ts:71-83 | In every run each success or conflict reply a client processes strictly raises its version. |
| ProgressSystem.NoBlindOverwrite | src/lib/reader/persistence.ts:296-316 | In every run an accepted write replaces only what its client had seen, adds one version, and loses nothing of the history. |
| ProgressSystem.PendingHasATurn | src/lib/reader/progress-sync.ts:103-135 | In every run a pending position of a live client has a timer, or a send in flight that has not been interrupted. |
| ProgressSystem.FailureIsRetried | src/lib/reader/progress-sync.ts:84-101 | In every run a retryable failure of a live client before the fourth try leaves its retry enabled, and the retry asks the store for the same location at the version known then. |
| ProgressSystem.FinalFailureEnds | src/lib/reader/progress-sync.ts:84-91 | In every run any other failure ends that send, with status failed. |
| ProgressSystem.DisposedStaysSilent | src/lib/reader/progress-sync.ts:103-145 | From its disposal on a client sends nothing in any run. |
| ProgressSolo.EverySaveOfARunSucceeds | src/lib/reader/persistence.ts:303-306 | In every run of one client alone on its store, no save is refused. |
| ProgressSolo.SoloNext | src/lib/reader/progress-sync.ts:103-135 | Every step of it keeps the last position navigated to: pending, in flight, or stored and synced. |
| ProgressSolo.QuiescentIsSynced | src/lib/reader/progress-sync.ts:103-135 | In every such run, when no timer runs and nothing is in flight after a navigation, nothing travels, the store holds the last position navigated to and the status is synced. |
| ProgressSolo.PendingIsSent | src/lib/reader/progress-sync.ts:103-135 | A pending position is sent by its timer when nothing is in flight, and otherwise when the save in flight succeeds. |
| ProgressSolo.SyncedIsStored | src/lib/reader/progress-sync.ts:68-135 | In every run of one client alone on its store and not disposed, with saves failing, retries, replies lost and requests late: when nothing is pending or in flight and the status is synced, the store holds the last position navigated to, the client knows it, and the store will refuse every request still on its way. |
| PreferenceQueue.NextConsistent | src/lib/reader/preference-mutation.ts:24-58 | Every event asks for at most one save and keeps: at most one mutation, running exactly while the queue is; its unanswered save the last one asked for and expecting the adopted version; what is desired being saved unless aborted. |
| PreferenceQueue.OneSaveOutstanding | src/lib/reader/mutation-status.ts:46-84 | In every run no two saves are unanswered: the one there may be is the last one asked for, expects the last adopted version and has been tried at most four times. |
| PreferenceQueue.DesiredIsServed | src/lib/reader/preference-mutation.ts:34-58 | In every run what is desired is being saved, or waits to be tried again, unless the signal aborted. |
| PreferenceQueue.StoreKeeps | src/lib/reader/persistence.ts:355-366 | The store accepts every save that reaches it in a run of updates and returning saves, and its version goes up by one. |
| PreferenceQueue.TakeInv | src/lib/reader/preference-mutation.ts:39-47 | In such a run what is wanted is always the fold of all updates. |
| PreferenceQueue.NoSaveIsRefused | src/lib/reader/persistence.ts:293-295 | No save of such a run is refused, in whatever order saves and answers arrive. |
| PreferenceQueue.IdleStoresFold | src/lib/reader/preference-mutation.ts:24-58 | In every such run the values stored at idle are all updates folded over the initial values, and nothing travels. |
| PreferenceQueue.IdleStoresLastWord | src/lib/reader/preference-mutation.ts:28-34 | That is: each stored field is what the last update that names it says, or its initial value if none does. |
| PreferenceQueue.UpdateDoes | src/lib/reader/preference-mutation.ts:27-41 | An update at rest asks for one save, which carries every field the update names, the adopted value of every other, and the adopted version; during a mutation or after an abort it is laid over what is desired. |
| PreferenceQueue.SuccessDoes | src/lib/reader/preference-mutation.ts:40-46 | The saved value is adopted; anything newer is saved next at its version, and with nothing newer the queue is at rest. |
| PreferenceQueue.ConflictDoes | src/lib/reader/mutation-status.ts:61-66 | The given value is adopted and what is desired dropped, unless aborted; the mutation ends without a save. |
| PreferenceQueue.FailureDoes | src/lib/reader/mutation-status.ts:67-81 | A retryable failure before the fourth try waits with what is desired kept, unless aborted; any other ends the mutation and drops it. |
| PreferenceQueue.WaitDoes | src/lib/reader/mutation-status.ts:73-77 | After the wait what is desired by then is saved at the version adopted by then, as the next try. |
| PreferenceQueue.AbortDoes | src/lib/reader/mutation-status.ts:30-44 | Aborting ends a waiting mutation without a save, and leaves an unanswered save to be answered. |
| PreferenceClient.PreferenceMutationQueue.constructor | src/lib/reader/preference-mutation.ts:21-25 | A new queue is idle and has saved nothing. |
| PreferenceClient.PreferenceMutationQueue.Work | src/lib/reader/preference-mutation.ts:39-47 | Saves what is desired with the adopted version, or finishes when nothing is. |
| PreferenceClient.PreferenceMutationQueue.Update | src/lib/reader/preference-mutation.ts:27-58 | Merges over what is desired, or over what is adopted; starts a mutation unless one runs or the signal has aborted. |
| PreferenceClient.PreferenceMutationQueue.SaveSucceeded | src/lib/reader/preference-mutation.ts:40-46 | Adopts the saved value and goes on with anything newer than the value saved. |
| PreferenceClient.PreferenceMutationQueue.SaveConflicted | src/lib/reader/mutation-status.ts:61-66 | Adopts the conflicting value and drops what is desired, unless aborted. |
| PreferenceClient.PreferenceMutationQueue.SaveFailed | src/lib/reader/mutation-status.ts:67-81 | Waits for a retry while tries are left; otherwise drops what is desired, unless aborted. |
| PreferenceClient.PreferenceMutationQueue.WaitEnds | src/lib/reader/mutation-status.ts:73-77 | Works again after the wait, or stops when aborted. |
| PreferenceClient.PreferenceMutationQueue.Abort | src/lib/reader/mutation-status.ts:30-44 | Aborting wakes every mutation that waits, and each stops without a save. |

## Left out

- Surrogate pairs: offsets, chunk lengths and the order of texts beyond the basic plane.
- Compression, SHA-256 itself, the stability checks on files, symbolic links and special files, temporary
  names, synchronising and permissions. An archive file is its byte stream, and renaming is one map update.
- The checks on root directories, overlap of paths and existing artifacts, and the environment entry point.
- Manifest.ValidateManifest: takes a record whose fields have the right kind; JSON text, the kinds and exact
  key sets of its objects, and the 64 MiB limit on a manifest file are not modelled.
- Which of several errors a scan reports first: it is proved when a scan succeeds and what it returns.
  Directories are checked before files, and paths are visited in sorted order.
- A file that changes between the scan of a capture and its archiving; `Archive.TarEntry` says that it is noticed.
- Classification of directories by the migration helper, and the migration itself.
- The page box in floating point, and panel geometry.
- PageFilling.ComicPages: says nothing of the folio and the caption, which are formatted numbers; the constant
  layout cell and chapter number of a comic page are not modelled.
- The order of panels with equal ordinals, which the source breaks by locale.
- Bookmarks, title preferences, migration notices, the server persistence with its schemas, and saving the
  local state to browser storage.
- Wording of errors and status messages, snapshots and notifications.
- Real-time delays, progress in real time, delivery of a keepalive, and the fate of a location that is being
  retried when its synchronizer is disposed, which the keepalive does not receive.
- The other parts of the deployment checkpoint and of the restore verifier, which drive tools and databases.
