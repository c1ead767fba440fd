# Verification of the repository engine

deb-s3 keeps an APT repository as plain objects in a bucket. Readers never lock, and a
writer can stop between any two object writes. This project models the engine in Dafny
and proves what its design relies on:

- **Publication.** Every mutating command reads, decides, and then issues an ordered plan
  of store writes: pool bodies, immutable by-hash indices, canonical indices, Release and
  signatures. The commands are methods over a mutable store. Whatever happens, a method
  leaves the store after some prefix of its plan. Two machines run these plans: with any
  interleaving of commands that crash anywhere, every Release ever stored stays fetchable
  through by-hash; with one command at a time and crashes anywhere, no index entry dangles.
- **Garbage collection.** Mark and sweep over all codenames deletes exactly what no index
  refers to, because listings, key joining and logical keys agree.
- **Locking and conditional writes.** Clients with program counters over an atomic bucket:
  mutual exclusion, and safety of a release against outsiders. The two-request put of the
  S3 store behaves as one atomic put of the in-memory store.
- **Text formats.** Paragraph folding, packages, indices and Release files: parsing undoes
  printing, republishing is a fixed point, and the exact conditions where that fails.
- **Commands.** What each command leaves in the pool and in every index, stated by names,
  versions, locations and bytes, and when it succeeds without faults.
- **Reading packages.** The streaming ar reader finds the next member whatever was read of
  the last, and a package's size and digests cover all of its bytes.

## Layout

| files | contents |
|---|---|
| `Text`, `Numbers`, `Paths` | splitting and joining, 64-bit decimal numbers, slash-separated paths |
| `Keys`, `Documents`, `Stores`, `S3` | key algebra, store contents, the in-memory store, the S3 put and listing |
| `Control`, `Versions`, `Dependencies`, `DependencyStability`, `RelationLists`, `DependencyForms` | control paragraphs, versions, relations, Depends lines |
| `Packages`, `PackageText`, `PackageCodec`, `EntryCodec`, `RecordStability`, `RecordTexts`, `RecordLookups` | package records as text, what they say and read back as, when they are stable |
| `IndexText`, `ManifestCodec`, `ReleaseCodec`, `ReleaseTables` | indices and Release files as text |
| `Manifests`, `Publication`, `Publishing`, `Metadata`, `Retrieval` | manifests, plans, and the methods that carry them out |
| `Layout`, `Agreement`, `Currency`, `Survival`, `Signatures`, `IndexContents` | index and Release keys, the closure over missing manifests, agreement of Release and store, what a publication leaves of every index and of the signatures |
| `Uploading`, `FanOut`, `Managing`, `Maintaining`, `Cleaning` | the commands |
| `Bodies`, `Uploads`, `Copies`, `Deletions`, `Repairs`, `Progress` | what each command makes of the pool and the indices, and when it succeeds |
| `ByHashSafety`, `ByHashPlans`, `ByHashHistory`, `CommandPlans`, `CommandHistory` | the concurrent machine, and runs of commands on it |
| `StoredReleases`, `ReleaseRuns` | Releases that read back from their text, in both machines |
| `NoDangling`, `CommandRuns`, `RepositoryRuns`, `GarbageCollection`, `Shadowing` | the sequential machine, exactness of cleaning |
| `LockMachine`, `Locks` | the lock protocol, acquiring and releasing |
| `Archives`, `ArchiveText` | ar archives and Debian packages, read and written |

## Reading the model

- A store holds the bytes of indices and package bodies: what a command reads of an index
  is what its text parses to, and what it writes is the rendered text. A Release is held as
  its fields, and Releases that a store holds as plain text are parsed. In every run of
  either machine these fields are what the Release's text reads as
  (`ReleaseRuns.StoredTextReadsBack`, `ReleaseRuns.SequenceReadsBack`). Digests are a
  parameter, a function from documents to sizes and digests of which only the SHA-256 is
  assumed to tell documents apart; the lemmas on texts ask besides that the digests of the
  indices written in the run have their usual lengths.
- A store with `reliable` set has no faults of its own; without it any request may fail,
  before or after its effect. A crash is a plan that stops; so is a fault.
- `Whole`, the invariant of the sequential machine, asks of the first state that indices
  parse, that their entries do not dangle and are `Lasting`, that keys are normal and that
  Releases have usable names. `Sensible` asks the same of a command's arguments; the
  concurrent machine only asks that the names among them are usable (`WellNamed`). `Lasting`
  is a condition on one record: valid extra names that are neither known nor strippable, a
  version that parses, no carriage returns, and a location that folding leaves alone.
  Commands keep it: an entry that was read back lasts again (`EntryCodec.EntryLasts`).
- In the concurrent machine each key a command reads holds what some earlier moment left
  there; a key is taken to be read once.

## Where the code does not keep the naive claim

Each of these is a theorem, with the exact condition:

- An extra field with a known name replaces that field when the index is read:
  `XB-Filename` makes the entry name another key, so that the next cleaning removes the
  real body, and an empty `XB-Version` makes the whole index unreadable
  (`EntryCodec.FilenameShadowed`, `Shadowing.ShadowedBodyRemoved`,
  `EntryCodec.VersionShadowed`; the condition is `EntryCodec.EntryReadsBack`).
- A publication writes an empty index for a listed pair that the Release has no file for,
  over whatever an interrupted command stored there (`Deletions.InterruptedThenEmptied`).
  Entries outside the published indices are kept, and a deletion removes just what it
  selected, exactly when no such index holds entries (`Survival.OthersSurvive`,
  `Deletions.DeletionKeepsOthers`).
- A key starting with two slashes names different objects with and without a prefix
  (`Keys.DoubleSlashKeyDisagrees`); the key algebra holds exactly for normalised keys that
  are neither `.` nor rooted (`Keys.JoinKeyFactors`, `Keys.LogicalKeyUndoesJoin`).
- A value that folding changes, such as a literal `.` line, does not survive
  (`Control.ReadBackFixed` gives the condition).
- A version whose only hyphen comes first gains one, once
  (`Versions.VersionRoundTrip`, `Versions.VersionStableAfterOnePass`).
- `(~> 1)` prints an empty interval, and so does a base whose raised component is the
  largest 64-bit number (`Dependencies.PessimisticNonEmpty`).
- `(~> Foo 1)` prints relations that change on the next pass
  (`DependencyStability.LeadingParenthesisUnsettled`; the condition for all dependencies is
  `DependencyStability.PrintedRelationsSettle`, and for a whole Depends line
  `RelationLists.DependsLineFixed`).
- An empty Depends line vanishes on the next pass (`RecordStability.EmptyDependsVanishes`,
  with `RecordStability.InequalityVanishes` as its input).
- A put may answer a conflict for the very same bytes, exactly when they appeared between
  its two requests (`S3.SpuriousConflict`, in the history `S3.SpuriousHistory`).
- A backoff can wrap to a negative delay, exactly when one below the maximum overflows as it
  is doubled (`Locks.DelaysExact`, `Locks.DelayOverflows`).

## Model

| member | source | states |
|---|---|---|
| CommandHistory.CommandsKeepGenerations | internal/apt/metadata_publish.go:16-56 | In every interleaved run of uploads, copies, deletions, verifications and cleanings of any codenames, uploads that skip their bodies included, each reading every object as some earlier moment had it, stopping before or after any single write, and none turning by-hash off: whatever Release of the codename is stored at one moment, at every later moment each file it lists has a by-hash object with exactly the listed size and digests. Of a command only the names it is given are assumed usable, and nothing of what it read: by-hash on follows from the Releases stored so far |
| CommandHistory.CommandsRefine | internal/manage/manage.go:59-174 | Every such run of commands is a run of the by-hash machine, and all its states are safe and orderly |
| CommandHistory.ReadGeneration | internal/apt/release_retrieve.go:11-46 | A Release read in a safe state, with by-hash not turned off and turned on for a new one, has by-hash on, usable names, and the files of a Release that was stored |
| CommandHistory.ReadMayBegin | internal/apt/release_retrieve.go:11-46 | The same for a Release of any codename, read at any earlier moment |
| ReleaseRuns.StoredTextReadsBack | internal/apt/release.go:78-157 | In every such run, whatever Release is stored for any codename at any moment: parsing its text yields that Release, if those stored at first read back or are plain text, dates are on one line and the indices that the run writes have digests of the usual lengths |
| ReleaseRuns.SequenceReadsBack | internal/apt/release.go:78-157 | The same for every state of a run of one command at a time |
| ReleaseRuns.HappensPlanned | internal/manage/manage.go:59-174 | Whatever the method of a command leaves of a whole store is a prefix of what the concurrent machine has that command plan there, so both machines run the same commands |
| ByHashHistory.OldGenerationsFetchable | internal/apt/metadata_publish.go:16-56 | The same over every run of the by-hash machine, whose operations are publications of any manifests on top of any generation that was ever stored, republications, bodies and sweeps |
| ByHashHistory.RunSafe | internal/apt/metadata_publish.go:16-56 | Every state of every run keeps the invariant: by-hash objects are named by their own SHA-256, every Release ever stored has by-hash on, usable names and by-hash objects for all it lists, every writer's remaining plan is still good, and the stored Release is one of the history |
| ByHashHistory.HashesForever | internal/apt/manifest_publish.go:108-129 | Over any stretch of any run no by-hash object is changed or removed |
| ByHashHistory.StepKeeps | internal/apt/metadata_publish.go:16-56 | One step of any writer, crash included, keeps the invariant and every by-hash object, and the history of stored Releases only grows |
| ByHashSafety.HarmlessKeeps | internal/apt/manifest_publish.go:108-129 | A write of the kind publications issue leaves all by-hash objects as they are and content-addressed |
| ByHashSafety.GoodPlanAdvances | internal/apt/metadata_publish.go:34-55 | A plan in which every Release write is preceded by what covers it stays such a plan after its first write took effect |
| ByHashPlans.PublicationGood | internal/upload/upload.go:175-195 | A publication's plan (pool bodies, by-hash, canonical, Release) issues every Release only behind the by-hash objects of all it lists, whatever stored generation was read |
| ByHashPlans.RepublicationGood | internal/apt/release_publish.go:13-114 | The same for publishing a Release again with empty manifests for what it misses |
| ByHashPlans.BeginsGood | internal/apt/metadata_publish.go:16-56 | Every operation a command may begin, on by-hash or on other codenames, has a good plan |
| CommandPlans.PlansMayBegin | internal/manage/manage.go:59-174 | What Upload, Copy, Delete, Verify and Clean decide to write, from what they read, is an operation of the concurrent machine with exactly that plan, upon the Release that was read; what they read of the Release is settled by `CommandHistory.ReadMayBegin` |
| CommandPlans.UploadOperation | internal/upload/upload.go:49-196 | The plan of an upload, of any packages, bodies skipped or not, is an operation of the concurrent machine |
| CommandPlans.CleanOperation | internal/maintenance/maintenance.go:122-188 | The plan of a cleaning touches pool keys only and is an operation of the concurrent machine |
| RepositoryRuns.NothingDangles | internal/maintenance/maintenance.go:122-188 | In every run of Upload, Copy, Delete, Verify and Clean, one at a time, each ending or crashing after any store write: the text of every stored Packages index of any codename parses, and every entry it parses to names an object that is present |
| RepositoryRuns.WholeRun | internal/upload/upload.go:49-196 | Every state of such a run keeps the repository whole: index texts parse, their entries are located in the pool and go on naming their location when they are printed again, Releases have usable names |
| RepositoryRuns.CommandKeepsWhole | internal/manage/manage.go:59-174 | Whatever single command ran, and wherever it stopped, a whole repository is whole afterwards |
| RepositoryRuns.WholeTidy | internal/maintenance/maintenance.go:122-170 | In a whole repository keys are clean, every index parses and every entry resolves, so cleaning never refuses |
| CommandRuns.BuiltLocated | internal/apt/manifest_publish.go:37-70 | The index text built from packages whose locations are in the pool and whose records last parses to entries that name those locations and last |
| RepositoryRuns.UploadKeeps | internal/upload/upload.go:131-195 | Any prefix of an upload's writes keeps the repository whole, including architecture-all entries whose body is pending in the `all` manifest only |
| RepositoryRuns.CleanKeeps | internal/maintenance/maintenance.go:122-188 | Any prefix of a cleaning's deletes keeps the repository whole |
| CommandRuns.CopyKeeps | internal/manage/manage.go:59-113 | Any prefix of a copy's writes keeps the repository whole, though it copies entries across codenames without their bodies |
| CommandRuns.DeleteKeeps | internal/manage/manage.go:115-174 | Any prefix of a deletion's writes keeps the repository whole |
| CommandRuns.VerifyKeeps | internal/maintenance/maintenance.go:55-120 | Any prefix of a repairing verification's writes keeps the repository whole |
| CommandRuns.PublicationKeeps | internal/apt/metadata_publish.go:16-56 | Publishing manifests whose entries are located keeps the repository whole after any write, as the written index texts are parsed |
| NoDangling.PlanKeepsWhole | internal/upload/upload.go:175-195 | Bodies first, indices after: any prefix of such a plan keeps the repository whole |
| RepositoryRuns.UploadSourced | internal/upload/upload.go:78-147 | Every entry of every manifest of an upload is either located already or pending upload in one of its manifests |
| Currency.PublicationCurrent | internal/apt/metadata_publish.go:20-55 | After an uninterrupted publication no listed component and architecture pair misses its Packages entry, the stored Release is the closed one, and if listed entries agreed with the store before, all listed sizes and digests describe the objects stored now, even for a path prepared twice |
| Signatures.PublicationSigned | internal/apt/release_publish.go:55-114 | A finished publication leaves beside its Release the detached and the clear signature of that Release, or without a signer neither |
| Signatures.NeverStale | internal/apt/release_publish.go:68-87 | Without a signer, wherever a publication stops, the stored Release is the old one or there is no signature: an old signature never stands beside a new Release |
| Agreement.OnePassSuffices | internal/apt/release_publish.go:32-53 | One closure pass over the missing manifests leaves none missing |
| Agreement.ClosureShape | internal/apt/metadata_publish.go:20-41 | The closure lists exactly the artifacts of the prepared manifests on top of the old entries, keeps the header, belongs to the Release's codename and by-hash flag, and misses nothing |
| Agreement.NothingLeft | internal/apt/release_publish.go:55-60 | The second look for missing manifests, inside Release.Publish, writes nothing after a closure |
| Agreement.MissingFromMembers | internal/apt/release_publish.go:32-53 | Exactly the component and architecture pairs without a Packages entry are missing |
| Survival.PublicationIndices | internal/apt/release_publish.go:13-53 | What a finished publication leaves of every canonical index of every codename: the text built for it if it is published, an empty one if its component and architecture are listed without a file for it, and what was there in all other cases |
| Survival.OthersSurvive | internal/apt/release_publish.go:32-53 | A publication keeps the entries of all indices that it does not publish if and only if no index that it creates for a listed pair without a file holds entries already |
| Deletions.DeletionKeepsOthers | internal/manage/manage.go:115-174 | A deletion that succeeds in a whole repository leaves every index of every codename with the locations of its entries, in order, without those of the name, and of a listed version, version-iteration or full version if there is a list, in the given architecture or for `all` in every one of the Release, if and only if no index that it creates for a listed pair without a file holds entries |
| Deletions.InterruptedThenEmptied | internal/apt/metadata_publish.go:34-55 | A history in which entries are lost: a publication to a component new to the Release stops before its Release, and the next one, to another architecture of that component, empties the index that the first one stored |
| Metadata.PublishMetadata | internal/apt/metadata_publish.go:16-56 | Writes a prefix of: all by-hash objects, all canonical indices, Release and signatures, the whole of it when it succeeds; writes nothing when an entry cannot be resolved |
| Metadata.PrepareAll | internal/apt/metadata_publish.go:20-33 | The loop over manifests updates the Release and prepares artifacts as the fold over the manifests does, and stops at the first failure |
| Metadata.PrepareClosure | internal/apt/metadata_publish.go:20-33 | Prepares the changed manifests and then the empty ones for what the Release misses by then |
| Metadata.PrepareEmpties | internal/apt/release_publish.go:13-30 | Preparing missing manifests amounts to listing their empty indices |
| Metadata.PublishPhases | internal/apt/metadata_publish.go:34-55 | The phases are issued in order, each only after the one before it succeeded |
| Publishing.Release.UpdateManifest | internal/apt/release.go:159-171 | Adds the manifest's files over the listed ones, and its component and architecture if they are new |
| Publishing.Release.MissingManifests | internal/apt/release_publish.go:32-53 | The nested loops create one empty manifest per pair without an entry, in order |
| Publishing.Release.ValidateOtherManifests | internal/apt/release_publish.go:13-30 | Publishes every missing manifest and then lists it |
| Publishing.Release.Publish | internal/apt/release_publish.go:55-114 | Empty manifests, then removal of stale signatures or none, Release, then signatures: any outcome is a prefix of that plan |
| Publishing.BuildArtifacts | internal/apt/manifest_publish.go:37-70 | The index text holds the record of each package with its location for the codename, or the first failure is returned |
| Publishing.RecordArtifacts | internal/apt/manifest_publish.go:149-155 | Records size and digests of the plain and the compressed index under their listed names, over what was recorded |
| Publishing.PublishByHash | internal/apt/manifest_publish.go:108-129 | Stores both indices create-only under their SHA-256, if by-hash is on |
| Publishing.PublishCanonical | internal/apt/manifest_publish.go:131-147 | Replaces the plain and then the compressed index at the canonical path |
| Publishing.PublishEmpties | internal/apt/manifest_publish.go:72-91 | Publishing created manifests one by one writes by-hash before canonical for each |
| Retrieval.RetrieveRelease | internal/apt/release_retrieve.go:11-46 | The Release read from the store, parsed if it is plain text, or a new and empty one if there is none; origin, suite and by-hash flag are the caller's where given and otherwise the stored ones; the codename is the caller's |
| Retrieval.RetrieveManifest | internal/apt/manifest_retrieve.go:11-28 | The packages the stored text parses to, an empty manifest when there is no index, and a failure when it does not parse |
| Layout.IndexKeys | internal/apt/manifest.go:181-187 | For single clean segments the index paths have these segments and are their own normal form |
| Layout.ByHashKeys | internal/apt/manifest_publish.go:28-30 | The by-hash path of plain and compressed index lies beside them under the digest |
| Uploading.Upload | internal/upload/upload.go:49-196 | Reads, fans out, prepares and writes bodies, by-hash, canonical and Release in this order; whatever happens the store holds a prefix of that plan, all of it on success, and nothing is written when reading, placing or preparing fails. What the plan amounts to is in `Bodies.BodiesStored`, `Uploads.UploadedEntries` and `Progress.UploadSucceeds` |
| Uploading.FanOut | internal/upload/upload.go:78-147 | The manifests an upload leaves to publish, as a function of store, options and packages, whatever the order in which open manifests are visited |
| Uploading.PlaceEvery | internal/upload/upload.go:92-137 | Opens the Release's architectures and places each package in turn, seeding architectures for the first architecture-all package of an empty repository |
| Uploading.PropagateEvery | internal/upload/upload.go:138-147 | Visiting the manifests in any order yields the same manifests: each but `all` gets every architecture-all package, or the whole fails |
| Uploading.PublishPool | internal/upload/upload.go:175-179 | Bodies are stored manifest by manifest, up to the first that cannot be resolved, opened or stored; which bytes go where is in `Bodies.PoolOfUpload` |
| Bodies.BodiesStored | internal/apt/manifest_publish.go:161-195 | After any outcome of an upload each pool key holds what it held, or, if it is the location of a package that is sent, the bytes of such a package's file; with existing objects protected, what was there stays. After success each location holds the bytes of the file of the last package sent there. Sent are the packages of each needed architecture in turn, or none when bodies are skipped |
| Bodies.PoolOfUpload | internal/apt/manifest_publish.go:161-195 | The puts into the pool are those of the sent packages in order, each of its file's bytes at its location with the upload's protection; all of them unless one cannot be put |
| Bodies.PoolLocation | internal/apt/package.go:148-172 | An inspected package has a location exactly if it has a name, a file and names of one clean segment each to make it from; and then it is `pool`, the codename, the first letter, the first two letters and the file's base name |
| Uploads.UploadedEntries | internal/upload/upload.go:78-147 | After an upload that succeeded, the index of each needed architecture reads as what was stored there and not replaced and then the packages placed there, and the architecture-all ones, that no later one replaced; its entries name the locations of their packages |
| Progress.UploadSucceeds | internal/upload/upload.go:49-196 | Without faults and protection, an upload to a whole repository succeeds if and only if every file was inspected, every package suits the architecture it is placed in, and each has a location that the store accepts and a file |
| Progress.PublicationAccepted | internal/apt/metadata_publish.go:34-55 | A store whose by-hash objects are named by their digests accepts every write of every publication |
| FanOutProperties.FanOutComplete | internal/upload/upload.go:78-147 | After a successful fan-out each manifest holds exactly the packages of its batch that no later one of it displaces and the stored ones that none displaces: a package is in its own architecture's manifest and an architecture-all one in every manifest, ones opened late included; each manifest has pending exactly the packages placed in it, in order, so bodies of architecture-all packages are pending in `all` only; architectures are distinct |
| FanOutProperties.FanOutOpens | internal/upload/upload.go:78-131 | There is exactly one manifest for each architecture the upload needs, in order: those of the Release, then those packages are placed in, and before the first of these amd64, i386, armhf and arm64 if it is architecture-all and there are none yet |
| FanOutProperties.FanOutSucceeds | internal/upload/upload.go:92-147 | Without protection of existing entries, and with readable indices, the fan-out succeeds if and only if every file was inspected, every package has an architecture to go to, and none of a concrete architecture goes to another |
| FanOutProperties.FanOutProtects | internal/upload/upload.go:92-147 | With protection it succeeds only if every stored entry, in every architecture, has the file name of the first package of its name that goes there, if that has its version |
| FanOutProperties.AddCommonMembers | internal/apt/manifest.go:139-152 | A package is in a manifest after a batch of additions exactly when it is the batch's and not displaced later in it, or was there and displaced by none |
| Managing.Copy | internal/manage/manage.go:59-113 | Copies the wanted entries into the destination manifest and publishes it; any outcome is a prefix of that plan, nothing when reading or adding fails |
| Copies.CopiedEntries | internal/manage/manage.go:59-113 | After a copy that succeeded, the destination's index reads as its entries that were not replaced, and then the source's entries of the asked name, and of the asked full versions if any are given, that no later one replaced; there were some |
| Copies.CopyProtects | internal/manage/manage.go:103-107 | With protection a copy goes ahead only if every entry of the destination has the file name of the first asked entry of its name, if that has its version |
| Progress.CopySucceeds | internal/manage/manage.go:59-113 | Without faults and protection, a copy in a whole repository succeeds if and only if some source entry is asked for |
| Managing.Delete | internal/manage/manage.go:115-174 | Removes the selected entries from one architecture or all, and publishes the changed manifests; which entries these are is in `Manifests.DeletionExact`, and what remains everywhere in `Deletions.DeletionKeepsOthers` |
| Progress.DeleteSucceeds | internal/manage/manage.go:115-174 | Without faults, a deletion in a whole repository succeeds if and only if an index it looks into holds an entry it is to delete |
| Managing.SelectWanted | internal/manage/manage.go:90-102 | Exactly the named packages of the wanted versions, in order |
| Managing.AddWanted | internal/manage/manage.go:103-107 | The destination ends as the fold of the additions, or the first conflict stops it |
| Maintaining.Verify | internal/maintenance/maintenance.go:55-120 | Checks every entry of every listed architecture, counts missing ones, and with repair publishes manifests without them; without changes only a signed Release is published. What is counted and left is in `Repairs.VerificationRepairs` |
| Repairs.VerificationRepairs | internal/maintenance/maintenance.go:55-120 | A verification that succeeds counts the entries of all listed architectures and those whose object is missing. Those with missing entries, and only they and only with repair, are published; and each index has the locations it had, or with repair those of them whose object is stored, in order, if and only if nothing is published or no index that is created for a listed pair without a file holds entries |
| Repairs.VerifyExact | internal/maintenance/maintenance.go:70-107 | What the pass over architectures finds: one mended manifest for each damaged architecture, in order, and the counts |
| Progress.VerifySucceeds | internal/maintenance/maintenance.go:55-120 | Without faults a verification of a whole repository succeeds |
| Maintaining.CheckEntries | internal/maintenance/maintenance.go:78-100 | Retains exactly the entries whose location names a stored object, in order, and without repair all; counts the others; stops at one whose location cannot be resolved |
| Maintaining.CheckExact | internal/maintenance/maintenance.go:78-100 | A check goes through if and only if every entry has a location that the store accepts, and then its result is that |
| Cleaning.Clean | internal/maintenance/maintenance.go:122-188 | Deletes the keys beneath the codename's pool that no index of any codename refers to, in ascending order, all of them when it succeeds and the reported first ones when a delete fails; nothing if a codename is unsafe, or any listing fails, or any index cannot be read, parsed or resolved |
| Cleaning.ReferencedNames | internal/maintenance/maintenance.go:135-170 | The mark phase finds exactly the keys some stored index refers to, and fails exactly when an index is unreadable, apart from faults |
| Cleaning.Sweep | internal/maintenance/maintenance.go:177-187 | Deletes the listed keys that are not marked, in order, up to the first failure, and reports the deleted ones; a failed delete may have had its effect |
| Cleaning.MarkedExactly | internal/maintenance/maintenance.go:146-170 | Marking over all indices is neither missing a reference nor inventing one |
| GarbageCollection.CleanExact | internal/maintenance/maintenance.go:122-188 | After a successful cleaning of a store of normalised keys, the store is the old one minus precisely the unreferenced keys beneath the codename's pool directory |
| Shadowing.CleaningExact | internal/maintenance/maintenance.go:122-188 | After any outcome of a cleaning of a whole repository nothing is changed, and what is gone lay beneath `pool/codename/` and no entry of any stored index of any codename named it; if it finished, all of that is gone |
| GarbageCollection.SweepExact | internal/maintenance/maintenance.go:177-187 | A sweep removes exactly the keys it lists if and only if each of them is its own normal form |
| GarbageCollection.ReferencedSurvives | internal/maintenance/maintenance.go:122-188 | No referenced object is gone after any prefix of a sweep |
| Cleaning.ScopePlain | internal/maintenance/maintenance.go:190-196 | An accepted codename's directory lies in the pool and is its own normal form |
| Manifests.Manifest.Add | internal/apt/manifest.go:111-154 | Rejects a conflict under fail-if-exists and leaves the manifest unchanged, else replaces what the package displaces, appends it and queues its body on request |
| Manifests.Manifest.DeletePackage | internal/apt/manifest.go:156-179 | The in-place filter reports exactly the entries of the name, and if versions are listed only those of which the version, the version and iteration, or the full version is listed; all others stay, and both keep their order |
| Manifests.DeletionExact | internal/apt/manifest.go:156-179 | The same of the lists that a deletion retains and reports: other names are never touched |
| Manifests.Manifest.FindConflict | internal/apt/manifest.go:115-137 | The first entry of the same name and version whose file name differs or whose location cannot be resolved |
| Manifests.EditsKeepUnique | internal/apt/manifest.go:111-179 | Over any sequence of additions and deletions, a manifest with unique names and versions keeps them unique |
| Manifests.DeletionPartitions | internal/apt/manifest.go:156-179 | Retained and deleted packages are subsequences of the old list that together make up all of it |
| Manifests.DeletionExtremes | internal/apt/manifest.go:156-179 | No version list deletes every package of the name, an empty one deletes none |
| Manifests.AddMembers | internal/apt/manifest.go:139-152 | The members are the added package and the others that have another name, or, with versions preserved, another full version |
| Manifests.ConflictExact | internal/apt/manifest.go:111-137 | With protection an addition goes through if and only if it has a location and every entry of its name and full version has one ending in the same file name; a reported conflict is with such an entry |
| Manifests.FilterPartition | internal/apt/manifest.go:156-179 | Filtering by a condition and by its opposite splits a list without loss or duplication |
| Stores.Store.Put | internal/storage/memory.go:76-119 | One atomic write, for every key: at the joined key, refused for a different object under fail-if-exists or create-only, a success without effect for the same bytes; on the logical view it is the planned write |
| Stores.Store.Remove | internal/storage/memory.go:121-133 | For every key, removes the object at the joined key, or has no effect if there is none |
| Stores.Store.Get | internal/storage/memory.go:39-54 | For every key, the object at the joined key, not-found exactly if there is none |
| Stores.Store.List | internal/storage/memory.go:195-231 | Exactly the logical keys of the objects beneath the physical prefix, each once, in ascending order |
| Stores.ListedExactly | internal/storage/store.go:86-133 | Listing a clean directory ending in a slash yields exactly the objects whose logical key starts with it |
| Stores.ListingsAgree | internal/storage/s3.go:283-332 | Both stores' listings accept the same prefixes and yield the same keys |
| Stores.NamedPlacement | internal/storage/store.go:86-106 | A key that is accepted without a prefix is placed beneath the prefix under its normal form |
| Stores.ViewUpdate | internal/storage/memory.go:76-133 | Writing and removing physical objects is writing and removing logical ones |
| Stores.RunConcat | internal/apt/metadata_publish.go:34-55 | Plans compose: running two after each other is running their concatenation |
| S3.Put | internal/storage/s3.go:145-199 | With other clients acting before and between its Head and its conditional PutObject, a put changes the bucket at no more than one of its moments, where it does what an atomic put does; it touches no other key, replaces nothing under create-only or fail-if-exists whatever it answers, and after a success the key held the bytes at one of its moments; without faults its answer and its moments follow from what its two requests saw |
| S3.SpuriousConflict | internal/storage/s3.go:145-199 | A conflict is answered where the atomic put would succeed exactly when the key was absent at the Head and held the same bytes at the PutObject, under create-only or fail-if-exists |
| S3.SpuriousHistory | internal/storage/s3.go:145-199 | A history in which it happens: the same bytes are stored between the two requests of a create-only put |
| S3.ListAll | internal/storage/s3.go:300-331 | Following continuation tokens yields the whole listing; a truncated page without one is an error |
| Keys.JoinKeyFactors | internal/storage/store.go:86-121 | Under any prefix not normalising to nothing or `.`, an accepted key becomes normalised prefix, slash and normalised key exactly when the normalised key is neither `.` nor rooted |
| Keys.LogicalKeyUndoesJoin | internal/storage/store.go:86-133 | The logical key of a joined key is the normalised key under exactly that condition |
| Keys.JoinKeyIdempotent | internal/storage/store.go:86-106 | Normalising a key twice is normalising it once exactly when the result is neither `.` nor rooted |
| Keys.NormalizedPrefixShape | internal/storage/store.go:108-121 | A normalised prefix is empty, `.` or made of clean segments |
| Keys.NormalizedPrefixFixed | internal/storage/store.go:108-121 | Normalising a prefix again changes nothing |
| Keys.DoubleSlashKeyDisagrees | internal/storage/store.go:91-105 | A key that starts with two slashes names different objects with and without a prefix |
| Paths.CleanParent | internal/storage/store.go:91-105 | In a key a directory followed by its parent is as if neither were there |
| Paths.CleanLeadingParent | internal/storage/store.go:91-105 | There is nothing above the root, but a relative path keeps the parents it starts with, and so is told to escape |
| LockMachine.MutualExclusion | internal/lock/lock.go:74-165 | With any number of clients, requests that fail with or without effect and clients that stop anywhere, as long as nobody else touches the key at most one client is between its create and its delete |
| LockMachine.ReleaseRemovesOwn | internal/lock/lock.go:197-231 | Whatever outsiders do to the lock and whenever, a client's step that changes a stored lock removes that client's own body |
| LockMachine.RunIsSafe | internal/lock/lock.go:110-231 | Every state of every run keeps: a recorded ETag is the client's own or its body is gone for good |
| LockMachine.RunIsExclusive | internal/lock/lock.go:74-231 | Without outsiders, every state of every run keeps the exclusion invariant |
| LockMachine.AcquiredOwns | internal/lock/lock.go:110-123 | Without outsiders, an acquisition that completes holds the stored lock with its own ETag |
| LockMachine.LockHandedOn | internal/lock/lock.go:74-231 | Undisturbed and answered, a waiting client holds a free lock after three requests while another waits on, and has given it back after two more, free for that one |
| Locks.Acquire | internal/lock/lock.go:74-165 | Terminates with at most the allowed attempts, and without faults gives up, or reaches the end of its wait, only after another's lock was met in each; reports after each failed one its number and its exponential delay, and waits exactly the reported delays of the attempts that found a lock, but for the last; if no backoff overflows that is at most (n-1) times the maximal one; hands the lock out only after putting its body where none was; apart from faults fails only when the lock it created vanished or the stored one has no readable owner |
| Locks.Attempt | internal/lock/lock.go:92-135 | One attempt: the handle of the lock just created, or a failure, or what lock is there |
| Locks.Handle.Release | internal/lock/lock.go:197-231 | Removes nothing but its owner's body; succeeds only if it left or found no lock; apart from faults fails only when it met another's body; a second release does nothing |
| Locks.CreateLock | internal/storage/s3.go:145-199 | The create-only put of a lock stores the client's body only where there was none, and without faults answers conflict only over another's body |
| Locks.Confirm | internal/lock/lock.go:118-122 | Reading back the ETag may find a foreign one, but then the own body is gone |
| Locks.RetryDelay | internal/lock/lock.go:265-271 | The doubling loop computes the delay with 64-bit wrap-around |
| Locks.DelaysExact | internal/lock/lock.go:265-271 | All delays are min(initial * 2^(attempt-1), maximum) if and only if no such product below the maximum overflows 64 bits when doubled |
| Locks.DelayExponential | internal/lock/lock.go:265-271 | Then delays are positive, at most the maximum and never decrease |
| Locks.DelayWraps | internal/lock/lock.go:265-271 | After a product below the maximum whose double overflows, the next delay is negative |
| Locks.DelayOverflows | internal/lock/lock.go:265-271 | From 2^62 nanoseconds with the largest maximum the second delay is the smallest negative number |
| Locks.SmallDoubles | internal/lock/lock.go:265-271 | A maximum of at most 2^62 nanoseconds rules every overflow out |
| Locks.WithDefaults | internal/lock/lock.go:245-263 | Backoffs become positive and ordered, 100 milliseconds and 10 seconds if none is given; an unlimited wait gets 60 attempts; sensible options stay as they are |
| Control.ParseParagraph | internal/apt/control.go:25-65 | The line loop over an index-backed paragraph reads the fields the specification reads |
| Control.FieldLineRead | internal/apt/control.go:25-71 | A line of a name of letters, digits, hyphens and underscores, a colon and a text is a field with that text, trimmed |
| Control.OtherLineSkipped | internal/apt/control.go:25-71 | A line with anything else in front of its first colon, or without a colon, says nothing |
| Control.Paragraph.Set | internal/apt/control.go:92-99 | Replaces a field in place or appends it, keeping list and index consistent |
| Control.Paragraph.Get | internal/apt/control.go:73-79 | The value of the named field |
| Control.Paragraph.Take | internal/apt/control.go:81-90 | Returns and removes the named field, reindexing the rest |
| Control.WriteField | internal/apt/package_render.go:70-88 | The folded lines of a field |
| Control.ReadBackOfText | internal/apt/control.go:25-116 | For any distinct valid names and any values without carriage returns, parsing what was written yields the same names in order with each value as folding leaves it |
| Control.ReadBackOfAnyText | internal/apt/control.go:25-99 | For any valid names, repeated ones included, parsing what was written sets the fields one after the other, so that a later one replaces an earlier one of its name |
| Control.ReadBackFixed | internal/apt/package_render.go:70-113 | A value survives folding and unfolding if and only if it is in normal form |
| Control.ParseUndoesWrite | internal/apt/control.go:25-116 | Parsing undoes writing for a list of fields if and only if all values are in normal form (section 5.1 of the Debian Policy Manual) |
| Versions.VersionRoundTrip | internal/apt/package.go:134-146 | Printing a parsed version restores it, but for one whose post-epoch part starts with its only hyphen: that gains a hyphen |
| Versions.VersionStableAfterOnePass | internal/apt/package.go:134-146 | After one pass a version is stable |
| Versions.VersionParts | internal/apt/package.go:80-94 | Digits before a colon are the epoch, what is before the first hyphen is the version and what is after it the iteration |
| Numbers.ItoaDecimal | internal/apt/dependency.go:108-114 | Printed numbers are decimal, the most significant digit first, without leading zeros |
| Dependencies.PessimisticInterval | internal/apt/dependency.go:39-68 | Of the versions of any length, base and the `~>` bound admit exactly those that share all of the base's components but the last and are not below it, and besides them only the bound without its final zero |
| Dependencies.PessimisticNonEmpty | internal/apt/dependency.go:48-60 | The interval is inhabited, by its base, exactly when the base has two components or more and the one that is raised does not overflow 64 bits; so `(~> n)` is always empty |
| Dependencies.ExtensionInterval | internal/apt/dependency.go:70-83 | The ignore-iteration bounds admit exactly the versions that extend the exact one |
| Dependencies.VersionTextRoundTrip | internal/apt/dependency.go:99-114 | Numeric versions survive printing and parsing |
| DependencyStability.PrintedRelationsSettle | internal/apt/dependency.go:39-83 | For every dependency, every relation it prints normalises to itself, iterations ignored or not in either printing, if and only if the guard of the branch it took holds: no upper case in a pessimistic name, no second `(~>` in an expanded name, no constraint left once blanks are cut off |
| DependencyStability.LeadingParenthesisUnsettled | internal/apt/dependency.go:39-68 | `(~> Foo 1)` is a family that does not settle: its printed lower bound prints lower-cased, and differently, on the next pass |
| RelationLists.ParsedGood | internal/apt/dependency.go:17-37 | A value parses to relations that read back from a list as they are exactly when it does not start with a blank |
| RelationLists.ParseJoined | internal/apt/dependency.go:17-37 | Joined relations of that kind split into the same relations |
| RelationLists.DependsLineFixed | internal/apt/package_render.go:13-36 | A Depends line that is not empty prints again as the same text exactly when each dependency it was printed from settles and reads back |
| RelationLists.EmptyLine | internal/apt/package_render.go:13-36 | The printed list is empty exactly when all dependencies are inequalities but for at most one that is blank |
| RelationLists.InequalityText | internal/apt/dependency.go:13 | `name (!= version)` is such an inequality |
| DependencyForms.RelationPrints | internal/apt/dependency.go:39-83 | `name (op version)` prints with its name in lower case and hyphens for underscores, operator and version as they are; `!=` becomes a conflict with that version; and `=`, if iterations are ignored, the interval of its extensions |
| DependencyForms.BareRelationPrints | internal/apt/dependency.go:39-94 | `name op version` prints as `name (op version)`, with `<<` for `<` and `>>` for `>` |
| DependencyForms.NamePrints | internal/apt/dependency.go:39-47 | A name alone prints in lower case with hyphens for underscores |
| DependencyStability.PessimisticText | internal/apt/dependency.go:39-68 | `name (~> v)` prints exactly the two bounds of the interval, as texts that read back as the numbers |
| DependencyStability.PrepareIdempotent | internal/apt/dependency.go:39-47 | Rewriting operator, case and underscores twice is rewriting once |
| EntryCodec.EntryReadsBack | internal/apt/package.go:74-132 | For every record with any extra fields: it reads back exactly when the version, or the extra field that stands in for it, parses; its entry then names the written location exactly when no extra field stands in for it or that one says the same, and folding leaves it alone |
| EntryCodec.FilenameShadowed | internal/apt/package.go:127-130 | A control file with `XB-Filename: v`, for any v on which carriage returns do not show, makes a record that parses to an entry that names v instead of its body's key |
| EntryCodec.VersionShadowed | internal/apt/package.go:127-130 | A control file with an empty `XB-Version` makes a record that can be written and does not parse |
| RecordLookups.PackagePrinted | internal/apt/package_render.go:33-65 | In a package's printed record each of name, version, license, vendor, architecture, maintainer, size when installed, section, origin, priority, homepage and description stands under its field name, with the defaults of the absent ones |
| RecordLookups.RelationsPrinted | internal/apt/package_render.go:41-54 | So do its relations to other packages |
| RecordLookups.FilePrinted | internal/apt/package_render.go:60-64 | And the location, size and each digest of its file |
| RecordLookups.NameFirst | internal/apt/package_render.go:34 | A record starts with the package's name |
| RecordLookups.NeedsPrinted | internal/apt/package_render.go:13-47 | For any list of plain dependencies, the Depends line holds all but the inequalities in order, the Conflicts line the package's own conflicts and then the versions that inequalities rule out; without dependencies, or rendered without them, there is no Depends line, but the conflicts stay |
| RecordLookups.PackageParsed | internal/apt/package.go:74-132 | A paragraph is a package if and only if its version parses; each member is what its text has under the field name, with the defaults of absent ones |
| RecordLookups.ExtraName | internal/apt/package.go:179-194 | An extra field loses an X, at most three of the letters B, C and S, and a hyphen in front |
| RecordLookups.OtherName | internal/apt/package.go:179-194 | Any other extra name stays as it is |
| Shadowing.ShadowedBodyRemoved | internal/maintenance/maintenance.go:122-188 | The index written for a package with `XB-Filename: v` alone does not refer to its body unless v names it, so that the next cleaning of a store without faults removes the body, if no other index refers to it |
| Shadowing.UnreferencedRemoved | internal/maintenance/maintenance.go:122-188 | In a readable store without faults a cleaning succeeds and removes any object of the codename that no index refers to |
| EntryCodec.EntryLasts | internal/apt/package_render.go:7-65 | An entry of a lasting package reads back with its location, and what it reads back as lasts again, over any number of generations |
| RecordStability.RecordFixed | internal/apt/package_render.go:7-65 | A record of values that folding leaves alone reads back as a package that prints exactly the same fields if and only if its extra names are neither known nor strippable, its version's only hyphen does not lead, and its Depends line is not empty and each dependency lasts |
| RecordTexts.RenderFixed | internal/apt/package_render.go:7-65 | A stable package, rendered, parsed and rendered again under any codename, gives the same text; one that gives the same text has stable extra fields and no version whose only hyphen leads, and if its relations are on one line each, it is stable: so the text is the same if and only if the package is stable |
| RecordTexts.SameText | internal/apt/package_render.go:70-113 | Two lists of fields with valid names that are written as the same text have the same names and folded values, in order |
| RecordStability.ParseUndoesRender | internal/apt/package_render.go:7-65 | Parsing a rendered package yields the package as rendering leaves it, extra fields included |
| RecordStability.ExtrasFixed | internal/apt/package.go:127-130 | Extra fields come back as they were exactly when none has a known name or a prefix left to strip |
| RecordStability.ParsedRelationsGood | internal/apt/package.go:115-117 | The relations of any package parsed from any text are of the kind that reads back from a list |
| RecordStability.EmptyDependsVanishes | internal/apt/package_render.go:34-36 | A package prints an empty Depends line exactly when it has dependencies that are all inequalities, but for at most one blank one, and is not rendered without them; that line is gone on the next pass |
| RecordStability.InequalityVanishes | internal/apt/package_render.go:34-36 | `Depends: name (!= version)` is such a line |
| PackageText.ReadPackageRecord | internal/apt/package.go:74-132 | Taking fields from the paragraph one by one and collecting the rest as extras parses the package |
| PackageText.WritePackageRecord | internal/apt/package_render.go:7-65 | Gathering and writing the present fields in order renders the package, or fails to resolve its location |
| PackageText.SetExtra | internal/apt/package.go:196-204 | Replaces an extra field of that name or appends it |
| PackageText.CollectExtras | internal/apt/package.go:127-130 | Remaining fields become extras under their normalised names, in order |
| PackageText.NormalizeAll | internal/apt/package_render.go:13-24 | The loop over dependencies prints relations and inequality conflicts in order |
| ManifestCodec.RepublishingFixed | internal/apt/manifest.go:77-109 | The entries of a rendered and parsed index print the fields they were read from if and only if all packages are stable; rendering the index again under any codename then gives identical bytes, and for packages whose relations are on one line each it does so only then |
| ManifestCodec.IndexRoundTrip | internal/apt/manifest.go:77-109 | Parsing a rendered index of lasting packages yields each package as it reads back alone, in order |
| ManifestCodec.SplitAfterRecord | internal/apt/manifest.go:15 | The separator pattern never matches inside a record |
| ManifestCodec.SplitAtBlankLine | internal/apt/manifest.go:15 | A record ends at any line of nothing but blanks and tabs, with either line end |
| IndexText.ReadIndex | internal/apt/manifest.go:77-94 | Splits, skips blank paragraphs and parses the others, up to the first failure |
| IndexText.WriteIndex | internal/apt/manifest.go:96-109 | Renders the records one by one and joins them |
| ReleaseCodec.ReleaseRoundTrip | internal/apt/release.go:78-157 | Parsing a rendered Release restores codename, origin, architectures, components, by-hash flag and the whole file table, files with some digests only included, in whatever order files are printed; an absent suite reads back as an empty one |
| ReleaseCodec.ReleaseStable | internal/apt/release.go:78-157 | Whatever text without bare carriage returns was read as a Release, printing it and reading it again gives the same Release |
| ReleaseCodec.PublishedReleaseReadsBack | internal/apt/metadata_publish.go:20-55 | The text of a Release published over a readable one reads as the Release the machines store, if the indices it publishes have digests of the usual lengths |
| ReleaseCodec.SectionsMerge | internal/apt/release.go:97-123 | The three hash sections merge back into one record per file by the length of the digest |
| ReleaseCodec.ReadTable | internal/apt/release.go:97-123 | One section adds its digest and size to exactly the files it names |
| ReleaseCodec.ReadRelease | internal/apt/release.go:78-125 | Header fields and file lines are found anywhere in the text |
| ReleaseCodec.WriteTable | internal/apt/release.go:183-190 | Writes one section with sizes padded to sixteen columns; which digest stands under which heading is in `ReleaseTables.TablesPrinted` |
| ReleaseTables.TablesPrinted | internal/apt/release.go:147-156 | In a printed Release the lines under `MD5Sum:`, `SHA1:` and `SHA256:`, each up to the next that is not indented, are one for each listed file, with its MD5, SHA-1 and SHA-256 respectively, its size right-aligned in sixteen columns and its name |
| ReleaseTables.HeadersPrinted | internal/apt/release.go:131-144 | Origin, codename, date, architectures, components, suite and by-hash flag stand behind their names |
| ReleaseTables.FileLineRead | internal/apt/release.go:97-123 | Any indented line of a digest, a decimal size and a name, with any blanks between, records the size, and the digest as MD5, SHA-1 or SHA-256 by its length of 32, 40 or 64; other lengths are passed over |
| ReleaseTables.OtherLineSkipped | internal/apt/release.go:97-123 | A line that is not indented, has other than three words, no size in the second or no digest's length in the first says nothing; and no line touches another file's record |
| ReleaseTables.ByHashRead | internal/apt/release.go:88-90 | By-hash is on if and only if the field, trimmed, is `yes` in any case |
| Archives.ListMembers | internal/deb/ar.go:33-115 | Reading any amount of each body in any chunks, the reader yields the names and sizes of a direct parse of the bytes |
| Archives.ArReader.Next | internal/deb/ar.go:33-89 | The header where the last member ends, whatever was read of it; malformed if the stream ends before |
| Archives.ArReader.ReadBody | internal/deb/ar.go:102-115 | Never reads past its member, and tells a truncated one |
| Archives.PackageShape | internal/deb/reader.go:43-133 | A file is accepted with a control file exactly when it is a whole archive of a supported version member, a control archive that unpacks to it and a data archive, in order, with only `_` members in between |
| Archives.ContentsMembers | internal/deb/ar.go:33-89 | The members with their bodies are those of the direct parse, and there are some exactly when the archive is whole |
| Archives.ReadPackage | internal/deb/reader.go:43-133 | The streaming reader's outcome is that of a direct parse; size and digests cover every byte of the input, and nothing of an index entry is taken from the control file |
| Archives.WalkMembers | internal/deb/reader.go:58-112 | The state loop accepts exactly the files a direct scan accepts, and then has read to the end |
| Archives.ValidVersion | internal/deb/reader.go:157-174 | Accepts exactly a version member of at most 32 bytes and major version 2 |
| ArchiveText.HeaderReads | internal/deb/ar.go:64-84 | Where a header of a padded name, 32 columns of anything and a padded decimal size of at most ten digits stands, the reader finds that name and size |
| ArchiveText.ArchiveReads | internal/deb/ar.go:33-89 | An archive written of any such members, each padded to even length, is read as exactly these names and bodies |
| ArchiveText.PackageReads | internal/deb/reader.go:43-133 | A written package, of a version member, a control archive and a data archive, is read as the package its control file parses to, without an index entry's fields, with the size and digests of all its bytes |
| ArchiveText.SupportedExact | internal/deb/reader.go:157-174 | A version member is accepted if and only if it has at most 32 bytes, the first of which that are not blanks are `2.` |
| Archives.SizeLimitedReader.Read | internal/deb/reader.go:311-328 | Delivers at most the limit, and reports an excess only if a further byte exists |
| Archives.ReadLimited | internal/deb/reader.go:311-328 | Reading on in any chunks yields all bytes if they are within the limit and fails exactly if they are not |

## Left out

- Maintaining.Verify: its effect is stated when no entry's location means different objects with and without a prefix (rooted keys and ones normalising to `.`), which every whole repository meets (`CommandRuns.WholeVerifiable`); the requests themselves are exact for every key.
- Cleaning.Clean: its exact effect is stated when stored keys are not such keys and index keys are normal, which every whole repository meets (`RepositoryRuns.WholeTidy`).
- Locks.Acquire: time is a bound on the number of rounds; timers and cancellation within a request are not modelled.
- Archives.ReadPackage: decompression and the tar format are one function from a member's name and body to a control file, which may refuse; the two size limits inside it and faults of the underlying stream are not modelled there.
- Archives.WalkMembers: the same function stands for unpacking the control archive.
- RecordStability.RecordFixed: stated for fields, and for values that folding leaves alone; folding itself is exact in `Control.ParseUndoesWrite`, and the text in `RecordTexts.RenderFixed`.
- RecordTexts.RenderFixed: for relations folded in their middle, the equivalence lacks the direction from equal text to Depends lines that last; every other part is exact for them too.
- ReleaseCodec.ReleaseRoundTrip: header values are single lines, names are words and digests have their lengths, which holds of every Release that was read (`ReleaseCodec.ReleaseStable`); the file order is any, the code sorts.
- Retrieval.RetrieveRelease: a compressed index or a signature found at the Release key reads as a Release without fields.
- RepositoryRuns.NothingDangles: commands whose packages have extra fields that stand in for known ones are not `Sensible`; what happens then is `Shadowing.ShadowedBodyRemoved`.
- Uploading.Upload and Metadata.PublishMetadata treat manifests as values: files recorded in a manifest object are folded into the Release at once. Aliasing of one manifest object between callers is not captured; `Manifests.Manifest` is the object that copying, deleting and verifying update in place.
- Turning by-hash on for a codename that already has a Release, or off again: runs of the concurrent machine start before the first publication, and commands leave by-hash on.
- A command that reads the same key twice and finds it changed in between.
- Uploads that skip the package bodies: only the sequential machine excludes them, since they publish entries whose bodies may be absent.
- Copying without a lock on the source codename while it is cleaned: the sequential machine runs one command at a time.
- Store.Copy: no command uses it.
- Owners of locks as JSON or as legacy text: a body belongs to one client or to somebody else, and a parameter says whether its owner can be told.
- The command line, configuration, progress callbacks, file patterns, queries, ACLs, headers, encryption and metadata of objects: plumbing.
- Signing: a signer is a flag, and its failure is a fault before the Release is written.
- Clocks: a Release's date is a parameter.
- Compression of indices: the compressed index is a document of its own, made from the plain one.
- Non-ASCII blanks and case folding.
