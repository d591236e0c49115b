# A verified model of the NICo mock server

The mock server answers the Forge gRPC API from memory, writes its state to a file, provisions
virtual machines through libvirt, and hands out signed machine identities. This project models the
four parts of it whose correctness spans many calls, and proves what holds over every run, every
interleaving or every input.

Code that changes things step by step is modelled as classes and loops (`IdentityServer`,
`Handlers`, `Store`, `Persist`, `Durability.StartUp`, `ImageCacheServer`, and the scanning loops of
the domain XML modules). Each such method is tied by its `ensures` to a function of the old state;
the properties of whole runs are lemmas about those functions. `dafny verify dfyconfig.toml` checks
the project.

## The four parts

**Tenant identity keys** (`IdentityModel`, `IdentityServer`, `IdentityRuns`, `IdentityWindows`,
`IdentityTokens`, `IdentityRequests`). An organisation has two key slots, the number of the current
one and an expiry of the retired key. Time is an integer number of nanoseconds, `exp` a number of
whole seconds. The slots are proved to refine the history of generated keys over every run, the
three read handlers to agree, and every token to stay verifiable until its `exp` (section 4.1.4 of
RFC 7519) on every run that respects three rules: the lifetime is not lowered, no rotation starts
while the previous overlap window is open, the identity is not deleted. That is sufficient;
`ContinuityExactly` is the exact condition on every run: no live token ever loses its key if and
only if each rotation finds no live token of the retired key and, unless its key generation fails, a
window that outlasts every live token of the active one, and each deletion finds no live token at
all.

- Which requests are accepted is stated apart from the checks (`ChecksExactly`), and what was set is
  what is read back and signed by, over every run of other events (`SetThenGet`, `SetThenSign`).
- `SetTenantIdentityConfiguration` compares the overlap with the lifetime in the *request*. A
  request that lowers the lifetime and rotates at once is accepted and loses live tokens
  (`LoweredLifetimeLosesToken` gives the run). Comparing with the *stored* lifetime would not be
  enough either: the lifetime can be lowered first and the key rotated afterwards
  (`LoweredFirstLosesToken`).
- A rotation clears the retired key before it generates the new one. When generation fails, the
  retired key is gone although its window may be open (`AfterRotation`, `RotationKeepsTokens`).
- When the very first generation fails, the organisation stays behind without keys and without a
  configuration. Reading its configuration panics, from then on until a request for it succeeds
  (`GetPanicsExactly`); after a rotation `rotate_key` is reported with a single key listed.
  `FirstFailureShows` is a run with both. `RotateKeyReported`: over every run the flag is set
  exactly while the window asked for by the last rotation is open, which agrees with two keys being
  listed unless there is only one key, and that takes a failed first generation.

**Image cache** (`ImageDigest`, `ImageCacheProtocol`, `ImageCacheSafety`, `ImageCacheClean`,
`ImageCacheProgress`, `ImageCacheExact`, `ImageCacheServer`). The protocol has one step per file
system call, critical section, download or wake-up, any number of callers, paths and digests, and
call objects with identity. SHA-256 is an arbitrary function. `ImageCacheServer` holds the code as
one caller runs it, and proves that each call is a run of the protocol.

- If a path starts with a stale file, a caller that saw it can remove the good file another caller
  has installed since: that other caller, whose flight returned nil, reports its image missing
  (`StaleFileGoesMissing`). `MissingImpossibleExactly` shows that "missing after download" is
  impossible exactly when the path starts absent or correct, or has a single caller, or its digest
  is the digest of no content.
- The size handed to the reader comes from an earlier `stat`; over a stale file it can be the size
  of the old content (`StaleSizeReported`). `SizesTrueExactly`: every size is true exactly when the
  path starts absent or correct, or has a single caller, or all content with the digest is as long
  as the stale file.
- `normalizeImageDigest` is applied twice on the way to the cache path and is not idempotent, for
  example on a doubled `sha256:` prefix (`DoubledPrefix`). `NormalizeIdempotent` gives the exact
  condition.

**Domain XML** (`Xml*`, `DiskBlock`, `OsBoot`, `Boot*`, `StripDisks`, `PlainTag`, `Drive*`,
`ConfigDrive`, `DomainExamples`). The fixed regular expressions are hand-written matchers on text:
leftmost, non-greedy for elements, with the word boundaries and the `$` expansion of replacement
templates. Each matcher is proved to find exactly the match of its expression, and scanning to cut a
text at its leftmost matches (`XmlRegex`). *Tag-balanced* text (`Clean`) is text in which every `<`
opens a tag that ends at the next `>`. No property is stated on a parsed document: everything is
about the bytes.

- `patchDomainBootDiskXML` changes nothing but the selected disk block and the boot entries of
  `<os>`, on every tag-balanced domain with closed disks and `<os>` elements between them
  (`PatchFrames`). It is not idempotent on all of them: the patch can make a cdrom of the disk it
  selects, and a second run then points another disk at the same volume (`BootsFromTwoDisks`).
  `PatchTwice` is the exact condition for names that make no reference: the patched disk still
  counts as a boot disk and its type settles (its tag closes a quoted `type=`, or opens no
  single-quoted one), or it counts no more and the next disk to boot is patched for this volume
  already. For a plain opening tag with `device='disk'` it holds (`PlainPatchTwice`). Names are
  inserted as replacement templates: a name is stable exactly when it makes no reference in the
  sense of Go's `Expand`, whether a source is there or not, so a malformed `$` is harmless, `$$`
  loses a dollar and `$name` vanishes (`SourceStaysExactly`, `SourceReplacedExactly`,
  `DollarIsLost`, `NameDropped`).
- The disk it selects is the first candidate with the smallest boot number, numbers being read as
  decimal text, or the first candidate when none has one (`PatchesTheEarliest`).
- `stripConfigDriveDisks` removes exactly the cdrom disks of any text whatsoever. A second run finds
  nothing more when no text in front of a removed disk ends in the first characters of `<disk`
  (`StripTwice`); for the text in front of a disk that is the exact condition to be skipped whatever
  follows (`PassExactly`). `OpenTagNeedsSecondRun` is a text on which a second run finds another
  disk.
- `patchDomainConfigDriveXML` edits one drive or adds one, and keeps the target names different,
  ignoring case, whenever a candidate name is free. The drive ends up on ide exactly when the
  machine is not q35 and the other disks use ide and neither virtio nor sata, and on sata otherwise
  (`DriveEndsOn`). Adding is idempotent. Editing is idempotent if and only if the preferred bus and
  the tag written for the drive stay (`EditTwice`): the bus does unless the other disks use `ide`
  alone and the edit decides whether the domain has a `q35` marker, as when its only one sits in the
  drive; the tag does whenever it was a plain list of attributes. `DriveMovesTwice` is a domain
  whose drive moves on the first call and again on the second. All of this is about tag-balanced
  text with closed disks, for non-empty pool and volume names that make no reference, the volume's
  without markup characters; editing also asks that the drive still reads as a cdrom when its tag is
  written, and for self-closing targets in it, named without references, markup characters and `=`.

**State, snapshot and restart** (`Tables`, `Handlers`, `TableRuns`, `InstanceRuns`, `TableEffects`,
`StateMethods`, `Store`, `Persist`, `Durability`, `Interceptor`, `HostAddress`). Requests, the two
steps of a save, failing saves, kills and restarts form one state machine over memory and the file
system.

- Durability has an exact condition: a kill falls back to the tables after the last saved request
  (or, between the steps of a save, those before the request being saved) exactly when some instance
  type is left and no instance and no machine sits under the empty id. Deleting the last instance
  type cannot be made durable, because the defaults come back.
- `AllocateInstance` panics exactly when it allocates a free id without a network configuration or
  without a machine, or draws from a prefix the address generator panics on.
- `generateIPAddressInCIDR` panics on /31 prefixes and on IPv4-mapped IPv6 prefixes. For lengths 1
  to 30 it reaches exactly the hosts between network and broadcast address; for length 0 it misses
  the last of them.
- A request as the server runs it, its handler and the save behind it with whatever faults, is a run
  of that state machine (`Intercept`): a successful request that is no read is followed by a save.
- Over every run without its release an instance is known field by field (`InstanceOverRuns`): the
  configuration is the last one given with the allocated network, the state is given by the reads.
- Once an instance with a non-empty id has been saved, its state is given by the reads since, over
  any run with failing saves, kills and restarts that does not release it; a restart forgets the
  reads that no completed save has recorded (`DurableLifeCycle`).
- The classification by method name saves after every request that changes a table, and the
  exception for `FindInstancesByIds` is needed for that.

Inputs of the model that the code takes from elsewhere: the time of each call, generated keys
(distinct key ids, or a failure), generated UUIDs (not empty), random words, which file system calls
fail, what a download yields, and a codec for single messages whose decoding inverts its encoding.

## Model

| member | source | states |
|---|---|---|
| IdentityServer.IdentityOrgState.SetSlot | internal/server/forge_server.go:147-153 | only number 1 writes slot 1; the other slot, the number, the expiry and the configuration stay |
| IdentityServer.IdentityOrgState.ClearInactiveSlot | internal/server/forge_server.go:155-162 | the inactive key and the expiry go, the active key stays |
| IdentityServer.IdentityOrgState.InstallKey | internal/server/forge_server.go:2334-2354 | first key, rotation or neither, including what a failing generation leaves behind |
| IdentityServer.IdentityOrgState.StoreConfig | internal/server/forge_server.go:2363-2383 | the stored response keeps the creation time of an update, sets it otherwise, and lists the keys |
| IdentityServer.IdentityOrgState.Settle | internal/server/forge_server.go:2334-2383 | key change and stored configuration together, for the organisation's own object |
| IdentityServer.IdentityOrgState.SigningKeysResponse | internal/server/forge_server.go:174-201 | active key marked current without expiry, inactive key with its expiry, in ascending order of kid |
| IdentityServer.Server.GcExpiredNonActiveSigningKey | internal/server/forge_server.go:164-172 | only the named organisation changes: its retired key goes exactly when the expiry is not in the future |
| IdentityServer.Server.CheckSetRequest | internal/server/forge_server.go:2298-2323 | refused with InvalidArgument if and only if the request is not acceptable, which is stated field by field; and the audiences of the others |
| IdentityServer.Server.NormalizeAllowedAudiences | internal/server/forge_server.go:2282-2294 | refused exactly when a non-empty list misses the default audience; an empty list becomes the default |
| IdentityServer.Server.StateFor | internal/server/forge_server.go:2325-2332 | expire the retired key, then find the object or enter a blank one |
| IdentityServer.Server.Store | internal/server/forge_server.go:2325-2383 | an accepted request changes its organisation's entry only |
| IdentityServer.Server.SetTenantIdentityConfiguration | internal/server/forge_server.go:2297-2384 | new state and answer of the whole handler; InvalidArgument exactly for requests that are not acceptable |
| IdentityServer.Server.GetTenantIdentityConfiguration | internal/server/forge_server.go:2387-2403 | expiry, then the stored configuration with the keys as they are now; a panic on an organisation without configuration |
| IdentityServer.Server.DeleteTenantIdentityConfiguration | internal/server/forge_server.go:2430-2441 | exactly that organisation goes |
| IdentityServer.Server.GetJWKS | internal/server/forge_server.go:2517-2547 | expiry, then the identifiers of both slots in ascending order, with the use of the requested kind |
| IdentityServer.Server.ResolveSigningOrg | internal/server/forge_server.go:2580-2587 | the only organisation, or none when there are several |
| IdentityServer.Server.SignMachineIdentity | internal/server/forge_server.go:2590-2659 | the token carries the active kid, the audiences and a lifetime in whole seconds; nothing changes |
| IdentityServer.Server.constructor | internal/server/forge_server.go:2662-2691 | the seeded organisation with its first key |
| IdentityModel.ListedKeys | internal/server/forge_server.go:174-201 | listing is the active key and, if there is one, the inactive one, sorted, for both read handlers |
| IdentityModel.SignIsForTheOnlyOrg | internal/server/forge_server.go:2580-2599 | with one organisation configured, signing is about that organisation |
| IdentityModel.ChecksExactly | internal/server/forge_server.go:2298-2323 | the checks pass exactly for a named organisation with a configuration: issuer and default audience not blank, positive lifetime, audiences that contain the default one, overlap with a rotation only and not below the lifetime |
| IdentityRequests.SetAnswers | internal/server/forge_server.go:2334-2384 | an acceptable request is answered if and only if no key is needed or one was generated; other organisations stay |
| IdentityRequests.RefusedChangesNothing | internal/server/forge_server.go:2298-2323 | other requests change nothing |
| IdentityRequests.SetMeans | internal/server/forge_server.go:2363-2384 | the answer carries the enabled flag, issuer, audiences and lifetime asked for; created now for a new organisation, when it was before otherwise |
| IdentityRequests.SetThenGet | internal/server/forge_server.go:2297-2403 | after any run of other events GetTenantIdentityConfiguration answers the configuration last set, with its times |
| IdentityRequests.SetAnswersWhatGetReads | internal/server/forge_server.go:2363-2403 | until a retired key expires, reading gives exactly the answer to the request that set it |
| IdentityRequests.CreatedStays | internal/server/forge_server.go:2363-2383 | the creation time survives an update |
| IdentityRequests.SignMeans | internal/server/forge_server.go:2590-2659 | signed exactly when there is a key and every audience is allowed; organisation, key, audiences, whole second and lifetime of the token |
| IdentityRequests.SetThenSign | internal/server/forge_server.go:2297-2659 | after any run of other events a token lives for the lifetime last set, and audiences outside the list last set are refused |
| IdentityRequests.JwksMeans | internal/server/forge_server.go:2517-2547 | not found exactly without the organisation; lists exactly the unexpired keys, under the use of the requested kind |
| IdentityRuns.StartConsistent | internal/server/forge_server.go:2662-2691 | a fresh server refines the history of its one key |
| IdentityRuns.CollectedRefines | internal/server/forge_server.go:164-172 | dropping an expired key keeps the refinement |
| IdentityRuns.RotatedRefines | internal/server/forge_server.go:2344-2354 | a rotation extends the history by its new key, in the other slot, and keeps the refinement |
| IdentityRuns.SettledRefines | internal/server/forge_server.go:2326-2383 | an accepted request leaves slots that refine the history it extends |
| IdentityRuns.StepConsistent | internal/server/forge_server.go:2297-2659 | every handler keeps the refinement |
| IdentityRuns.SlotsRefineHistory | internal/server/forge_server.go:126-172 | over every run: active key is the newest of n, slot number is the parity of n, from the second key on the inactive slot holds the one before exactly while an expiry is recorded |
| IdentityRuns.ListingIsSound | internal/server/forge_server.go:174-201 | one or two keys in ascending order, exactly one current signer and it is the newest, every expiry in the future |
| IdentityRuns.ReadsAgree | internal/server/forge_server.go:2387-2547 | at any instant JWKS and configuration list the same sound keys, and signing uses the one marked current |
| IdentityRuns.GetPanicsExactly | internal/server/forge_server.go:2387-2396 | over every reachable world: reading a configuration panics if and only if the first generation for the organisation failed and no request for it has been accepted since |
| IdentityRuns.FirstFailureShows | internal/server/forge_server.go:2334-2402 | a run on which the read panics and, after a rotation, rotate_key is reported with one key |
| IdentityWindows.StepWindowed | internal/server/forge_server.go:2297-2547 | every handler keeps: a recorded expiry is the end of the window asked for by the last rotation, and one that is not recorded has passed |
| IdentityWindows.RotateKeyReported | internal/server/forge_server.go:2396-2402 | over every run and at every later instant, rotate_key is true if and only if the window of the last rotation is open; that agrees with two keys being listed unless the window is open with a single key, which takes a failed first generation |
| IdentityTokens.StepCovered | internal/server/forge_server.go:2316-2354 | a careful step keeps every live token's key in a slot until the token expires |
| IdentityTokens.RunCovered | internal/server/forge_server.go:2316-2354 | so does every careful run |
| IdentityTokens.TokenContinuity | internal/server/forge_server.go:2316-2659 | over every careful run, at every instant before a signed token's exp, GetJWKS lists its key |
| IdentityTokens.RotationKeepsTokens | internal/server/forge_server.go:2316-2354 | after a rotation every live token stays verifiable until it expires if and only if none was signed by another key than the active one and, unless generation fails, the window outlasts them all |
| IdentityTokens.StepKeepsExactly | internal/server/forge_server.go:2297-2659 | one request keeps all live tokens verifiable if and only if it spares them: rotations as above, a deletion when there are none, all others always |
| IdentityTokens.ContinuityExactly | internal/server/forge_server.go:2297-2659 | over every run, every live token is verifiable at every instant if and only if every rotation and deletion spares the live tokens |
| IdentityTokens.StartPublished | internal/server/forge_server.go:2662-2691 | a fresh server meets the hypothesis |
| IdentityTokens.AfterRotation | internal/server/forge_server.go:2344-2354 | which old keys are listed after a rotation request, at every later instant, also when generation fails |
| IdentityTokens.RotationUnpublishes | internal/server/forge_server.go:2351-2354 | behind the window the replaced key is not published any more |
| IdentityTokens.LoweredLifetimeLosesToken | internal/server/forge_server.go:2321-2323 | a run of accepted requests after which a live token's key is gone: the comparison uses the requested lifetime |
| IdentityTokens.LoweredFirstLosesToken | internal/server/forge_server.go:2316-2354 | the same with a window that spans the stored lifetime, after the lifetime has been lowered in a request of its own |
| ImageDigest.NormalizeIdempotent | internal/libvirt/imagecache.go:58-62 | a second normalisation changes nothing if and only if the trimmed text has no prefix, is the prefix alone, or has neither white space nor another prefix behind it |
| ImageDigest.DoubledPrefix | internal/libvirt/imagecache.go:58-62 | a doubled prefix in front of any hexadecimal digest takes two passes |
| ImageDigest.PlainHexNormal | internal/libvirt/imagecache.go:58-62 | plain hexadecimal digests are already normal |
| ImageDigest.SameDigest | internal/libvirt/imagecache.go:58-62 | letter case, white space around a digest and one prefix do not matter |
| ImageDigest.ExtExactly | internal/libvirt/imagecache.go:64-70 | the extension is what follows the last dot behind the last slash, and none without one |
| ImageDigest.CacheFileName | internal/libvirt/imagecache.go:64-70 | a cache file is the digest with the lower-case extension, or .img |
| ImageDigest.Ext | internal/libvirt/imagecache.go:64-70 | empty, or a dot and what follows it without a slash |
| ImageDigest.PathDeterminesDigest | internal/libvirt/imagecache.go:64-70 | plain hexadecimal digests that share a cache file are equal, whatever the URLs |
| ImageCacheProtocol.InitCoherent | internal/libvirt/imagecache.go:19-32 | the flight group starts coherent |
| ImageCacheProtocol.StepCoherent | internal/libvirt/imagecache.go:34-56 | every step keeps entries, leaders, waiters and call objects in agreement |
| ImageCacheProtocol.RunCoherent | internal/libvirt/imagecache.go:34-56 | so does every interleaving |
| ImageCacheProtocol.FlightGroupExclusive | internal/libvirt/imagecache.go:34-56 | per path at most one caller between inserting and deleting the entry, and the entry exists exactly while there is one |
| ImageCacheProtocol.FlightsReturnTheirCall | internal/libvirt/imagecache.go:34-56 | a returned flight carries the error of the finished call object of its own path that it joined or led |
| ImageCacheSafety.StepVerified | internal/libvirt/imagecache.go:121-212 | content is verified at every point where it is about to be used or installed |
| ImageCacheSafety.ReadersMatchTheirDigest | internal/libvirt/imagecache.go:86-212 | over every interleaving and any initial directory, a returned reader has content with the caller's digest |
| ImageCacheSafety.CachePathsAgree | internal/libvirt/imagecache.go:58-70 | the hypothesis on paths follows from how paths are built |
| ImageCacheClean.CleanPathsStayClean | internal/libvirt/imagecache.go:98-202 | a path that starts absent or correct: at most one download is installed, the removal is never taken, no caller misses its image, sizes are true |
| ImageCacheProgress.StepRank | internal/libvirt/imagecache.go:34-119 | every step decreases the total of the callers' remaining steps |
| ImageCacheProgress.BoundedRuns | internal/libvirt/imagecache.go:34-119 | n callers take at most 15 n steps |
| ImageCacheProgress.NoDeadlock | internal/libvirt/imagecache.go:34-119 | no step is enabled if and only if every caller has finished |
| ImageCacheProgress.StaleFileGoesMissing | internal/libvirt/imagecache.go:98-145 | from a stale file there is a run in which a caller with a nil flight finds its image missing |
| ImageCacheProgress.StaleSizeReported | internal/libvirt/imagecache.go:121-159 | a reader of new content can be given the size of the stale file, which is wrong where the lengths differ |
| ImageCacheExact.MissingImpossibleExactly | internal/libvirt/imagecache.go:98-145 | that error is impossible if and only if the path starts absent or correct, or has one caller, or no content has the digest |
| ImageCacheExact.SizesTrueExactly | internal/libvirt/imagecache.go:86-159 | every reader of the path gets the true size if and only if the path starts absent or correct, or has one caller, or all content with the digest has the length of the file that is there |
| ImageCacheServer.ImageCache.TryOpenCachedImage | internal/libvirt/imagecache.go:121-159 | a run of the protocol: opened with the right digest, missed, or an I/O error; at most its own file is removed |
| ImageCacheServer.ImageCache.OpenIfRight | internal/libvirt/imagecache.go:130-159 | the same for a file that is there |
| ImageCacheServer.ImageCache.DownloadImageToCache | internal/libvirt/imagecache.go:161-212 | the file appears exactly when the whole download has the digest; else the directory is as before |
| ImageCacheServer.ImageCache.RunLeader | internal/libvirt/imagecache.go:98-110 | second look, then download, with its result in the call object |
| ImageCacheServer.ImageCache.LeadFlight | internal/libvirt/imagecache.go:34-56 | the map is as before, the call's error is returned |
| ImageCacheServer.ImageCache.OpenAfterFlight | internal/libvirt/imagecache.go:111-119 | a right file is opened with its size |
| ImageCacheServer.ImageCache.OpenCachedOrDownloadImage | internal/libvirt/imagecache.go:86-119 | an undisturbed call is a run of the protocol: the cached file if it is right, else what the download allows |
| Text.SortBySorts | internal/server/forge_server.go:174-201 | sorting yields an ascending permutation |
| Text.LessExactly | internal/server/forge_server.go:174-201 | the order of the identifiers: the first difference decides, a proper prefix comes first |
| XmlScan.JoinScan | internal/libvirt/domain_xml.go:316-316 | cutting a text at its matches loses nothing |
| XmlRegex.MatchExactly | internal/libvirt/domain_xml.go:316-523 | a match at the start of a text is found if and only if the expression has it, and it is the same one |
| XmlRegex.ScanExactly | internal/libvirt/domain_xml.go:316-523 | a text is cut at its leftmost matches, one after the other, and there is only one such cut |
| XmlScan.Find | internal/libvirt/domain_xml.go:316-316 | where the non-greedy part of a match ends is an occurrence of the closing tag |
| XmlScan.FindFirst | internal/libvirt/domain_xml.go:316-316 | and it is the first one |
| XmlScan.MatchExtends | internal/libvirt/domain_xml.go:316-316 | text appended does not change a match |
| XmlScan.ScanConcat | internal/libvirt/domain_xml.go:316-316 | settled text and what follows it are cut independently |
| XmlClean.CleanSettled | internal/libvirt/domain_xml.go:482-523 | in tag-balanced text no one-tag pattern reaches past its end |
| XmlClean.ScanClean | internal/libvirt/domain_xml.go:316-316 | matches and gaps of tag-balanced text are tag-balanced |
| XmlPairs.FindClose | internal/libvirt/domain_xml.go:316-316 | the closing tag found is the one behind an inside without one |
| XmlPairs.CutWell | internal/libvirt/domain_xml.go:316-316 | when every opened element is closed, cutting leaves none open |
| XmlPairs.ScanOf | internal/libvirt/domain_xml.go:316-316 | gaps and blocks put together are cut again at the same places |
| XmlAttributes.XmlAttrPlain | internal/libvirt/domain_xml.go:558-560 | an escaped value has no quote and no angle bracket, and `$` only if the value had one |
| XmlAttributes.EscapeRoundTrip | internal/libvirt/domain_xml.go:558-560 | reading the predefined entities of an escaped value gives the value back |
| XmlAttributes.ExpandPlain | internal/libvirt/domain_xml.go:486-510 | a replacement template without `$` is inserted as it is |
| XmlAttributes.ExpandSame | internal/libvirt/domain_xml.go:486-510 | so is one whose every `$` is malformed |
| XmlAttributes.TagExpandsToItself | internal/libvirt/domain_xml.go:486-510 | a new element replacing any old one comes out as it is if and only if it makes no reference |
| XmlAttributes.ValueConcat | internal/libvirt/domain_xml.go:525-532 | a value found in the first part of a text is the value of the whole |
| XmlAttributes.ValueBehind | internal/libvirt/domain_xml.go:525-532 | a tag in which the attribute does not start leaves the value to what follows |
| XmlAttributes.ValueAcross | internal/libvirt/domain_xml.go:525-532 | a value left open in a tag runs across its end |
| XmlSetAttribute.RewriteAgain | internal/libvirt/domain_xml.go:534-545 | replacing the quoted values twice is replacing them once, and the attribute stays found |
| XmlSetAttribute.RewriteKeepsAbsence | internal/libvirt/domain_xml.go:534-545 | replacing values in one kind of quote creates none in the other |
| XmlSetAttribute.SetAttributeTwice | internal/libvirt/domain_xml.go:534-556 | setAttribute is idempotent if and only if there is a value to replace, nothing left open, or no name to add to |
| PlainTag.SetOnPlain | internal/libvirt/domain_xml.go:534-556 | on a plain attribute list setAttribute sets exactly the attribute of that name, adding it at the end if missing |
| PlainTag.ReadPlain | internal/libvirt/domain_xml.go:525-532 | on a plain attribute list attributeValue reads exactly the attribute of that name |
| PlainTag.ReadBack | internal/libvirt/domain_xml.go:525-556 | what was set is read back, other attributes are as before |
| XmlRewrite.RewriteInBlock | internal/libvirt/domain_xml.go:296-523 | replace-or-insert on a block happens between its two tags |
| XmlRewrite.MatchesAreTags | internal/libvirt/domain_xml.go:482-523 | on tag-balanced text the matches of an element pattern are the tags that fit it |
| XmlRewrite.ReplaceTags | internal/libvirt/domain_xml.go:482-523 | replacing works tag by tag and keeps the text tag-balanced |
| XmlRewrite.EffectOnItself | internal/libvirt/domain_xml.go:482-523 | afterwards there is at least one element of the kind and all are the new one |
| XmlRewrite.EffectOnOthers | internal/libvirt/domain_xml.go:482-523 | elements of another kind stay, in order |
| XmlRewrite.NothingToDo | internal/libvirt/domain_xml.go:482-523 | where all elements of the kind are the new one already, nothing changes |
| DiskBlock.SetKeepsTag | internal/libvirt/domain_xml.go:405-405 | setting an attribute of an opening disk tag gives an opening disk tag |
| DiskBlock.PatchForm | internal/libvirt/domain_xml.go:398-410 | patching a block sets the type on its tag and works between the tags otherwise |
| DiskBlock.PatchedElements | internal/libvirt/domain_xml.go:398-435 | the patched block has only the new driver, source and boot elements, and its old targets |
| DiskBlock.PatchBlockTwice | internal/libvirt/domain_xml.go:398-435 | for names that make no reference, patching a block twice is patching it once if and only if its type settles |
| DiskBlock.DollarIsLost | internal/libvirt/domain_xml.go:496-523 | an element with `$$` is inserted intact where there is none, and loses a dollar when a second run replaces it |
| DiskBlock.SourceReferences | internal/libvirt/domain_xml.go:496-523 | the source element makes no reference if and only if the names written into it make none |
| DiskBlock.SourceStaysExactly | internal/libvirt/domain_xml.go:496-523 | where no source was, a second run keeps the new one if and only if the names make no reference |
| DiskBlock.SourceReplacedExactly | internal/libvirt/domain_xml.go:496-523 | where a source is replaced, whatever the old one, the new one arrives intact if and only if the names make no reference |
| DiskBlock.NameDropped | internal/libvirt/domain_xml.go:496-510 | a reference by an unknown name vanishes from what is written |
| OsBoot.StripOSBootElements | internal/libvirt/domain_xml.go:440-459 | the loop computes: each `<os>` element without its boot entries, all other text in order |
| OsBoot.RemoveTags | internal/libvirt/domain_xml.go:440-459 | on tag-balanced text exactly the tags of the given kind go, here the self-closing boot tags |
| OsBoot.StripBlock | internal/libvirt/domain_xml.go:440-459 | an `<os>` element stays one, without boot entries, and a second removal finds nothing |
| OsBoot.StripTwice | internal/libvirt/domain_xml.go:440-459 | stripping twice is stripping once |
| BootOrder.SelectBootDiskIndex | internal/libvirt/domain_xml.go:339-371 | the loop with its early returns yields the first candidate of least order, missing order last; -1 exactly when no disk is a candidate |
| BootOrder.OneFirstMinimum | internal/libvirt/domain_xml.go:339-371 | that definition determines the index |
| BootOrder.OrderOfTags | internal/libvirt/domain_xml.go:388-396 | on tag-balanced text the order is read from the first boot tag that has one |
| BootOrder.CandidateExactly | internal/libvirt/domain_xml.go:373-386 | a candidate names no device, or disk in letters of either case |
| BootNumbers.NumberOfDecimal | internal/libvirt/domain_xml.go:388-396 | reading the decimal text of a number gives the number, with any leading zeros |
| BootNumbers.OrderedNumber | internal/libvirt/domain_xml.go:388-396 | a disk whose first boot element carries the decimal text of n has order n, or none when n does not fit 64 bits |
| BootOrder.PatchedOrder | internal/libvirt/domain_xml.go:388-435 | a patched block has order 1 or the order it had |
| BootDisk.PatchDomainBootDiskXML | internal/libvirt/domain_xml.go:318-337 | the whole operation; it fails only when no disk is a candidate |
| BootDisk.PatchFrames | internal/libvirt/domain_xml.go:318-337 | only the selected block and the boot entries of `<os>` in the text around disks change; all else stays in order |
| BootNumbers.PatchesTheEarliest | internal/libvirt/domain_xml.go:318-396 | the disk that is patched is the first candidate with the smallest boot number, or the first candidate when none has one; every other disk stays |
| BootDisk.SelectionStable | internal/libvirt/domain_xml.go:339-371 | giving the selected disk order 1 keeps it selected |
| BootTwice.StaysExactly | internal/libvirt/domain_xml.go:373-410 | a patched disk counts as a boot disk if and only if its typed tag names the device disk or an empty one, or leaves none open and what the patch leaves or writes inside names none or disk first |
| BootTwice.AlreadyPatchedExactly | internal/libvirt/domain_xml.go:398-435 | patching leaves a disk alone if and only if it is typed and has the new driver, source and boot elements and no others |
| BootTwice.SelectedWithout | internal/libvirt/domain_xml.go:339-371 | a disk that is no candidate does not take part in the selection |
| BootTwice.RunAgain | internal/libvirt/domain_xml.go:318-337 | a domain without boot entries is left as it is if and only if its selected disk is |
| BootTwice.PatchTwice | internal/libvirt/domain_xml.go:318-386 | patching a domain twice is patching it once if and only if the patched disk stays a candidate and its type settles, or is none any more and the best other disk is patched already |
| BootExample.BootsFromTwoDisks | internal/libvirt/domain_xml.go:318-386 | a domain on which the second run points the other disk at the same volume, for every volume with plain names |
| BootTwice.OwnDeviceStays | internal/libvirt/domain_xml.go:373-386 | a block whose own tag names the device disk stays a candidate |
| DomainExamples.PlainPatchTwice | internal/libvirt/domain_xml.go:318-337 | idempotence on every tag-balanced domain whose selected disk has a plain tag with device disk |
| DomainExamples.OpenTagNeedsSecondRun | internal/libvirt/domain_xml.go:71-94 | a text with a tag left open on which a second strip removes another drive |
| StripDisks.StripConfigDriveDisks | internal/libvirt/domain_xml.go:71-94 | on any text exactly the cdrom disks go, the rest stays in order, changed exactly when one was there |
| StripDisks.CdromExactly | internal/libvirt/domain_xml.go:133-135 | a cdrom is a disk whose first device value is cdrom in letters of either case |
| StripDisks.ScanIsLocal | internal/libvirt/domain_xml.go:316-316 | every block found is a match on its own and no gap starts one |
| StripDisks.StripTwice | internal/libvirt/domain_xml.go:71-94 | when no text in front of a removed disk ends in the first characters of `<disk`, the remaining disks are exactly the others and a second run changes nothing |
| StripDisks.PassExactly | internal/libvirt/domain_xml.go:316-316 | text that starts no disk is skipped whatever follows it if and only if it does not end in those characters |
| StripDisks.OthersStayExactly | internal/libvirt/domain_xml.go:71-94 | on any text: the disks of the result are exactly the others if and only if each of them is cut at the same place |
| DriveTarget.PreferredCDROMBus | internal/libvirt/domain_xml.go:222-252 | ide if and only if the machine is not q35 and the other disks use ide and neither virtio nor sata, else sata |
| DriveTarget.Q35Exactly | internal/libvirt/domain_xml.go:222-225 | a q35 machine is one whose text contains the attribute in either kind of quotes |
| DriveTarget.CollectUsedTargetDevs | internal/libvirt/domain_xml.go:254-262 | the lower-case target names of all disks |
| DriveTarget.NextTargetDev | internal/libvirt/domain_xml.go:264-278 | a candidate of the bus, and an unused one whenever there is one |
| DriveTarget.FreeIsFirst | internal/libvirt/domain_xml.go:264-278 | the name taken is the first free one, or the default when none is free |
| DriveTarget.FindConfigDriveDiskIndex | internal/libvirt/domain_xml.go:113-131 | both loops compute the specified index |
| DriveTarget.DriveIndex | internal/libvirt/domain_xml.go:113-131 | the first cdrom that names the volume, else the first cdrom, else -1 |
| DriveTarget.OneDrive | internal/libvirt/domain_xml.go:113-122 | the first cdrom naming the volume is that index |
| DriveTarget.DriveFound | internal/libvirt/domain_xml.go:190-205 | the other search for the drive agrees with it, also for an empty volume name |
| DriveTarget.ResolveConfigDriveTarget | internal/libvirt/domain_xml.go:190-220 | the current target if it is on the preferred bus, else the next name there |
| DriveBlock.DriveTagPlain | internal/libvirt/domain_xml.go:144-146 | a plain tag becomes a plain cdrom tag, once and for all |
| DriveBlock.DriveInsideElements | internal/libvirt/domain_xml.go:147-170 | the edited inside has only the new driver, source and target, and a readonly element |
| DriveBlock.PatchedIsDrive | internal/libvirt/domain_xml.go:137-152 | editing any disk block finishes its inside, and makes a finished drive of it if and only if the tag written stays and reads as a cdrom |
| DriveBlock.DriveStays | internal/libvirt/domain_xml.go:137-170 | editing a finished drive for the same volume and target changes nothing |
| DriveRead.DriveReads | internal/libvirt/domain_xml.go:280-294 | a finished drive reads back the target and bus it was given |
| DriveRead.TargetRead | internal/libvirt/domain_xml.go:280-294 | the target of any disk is read from its first target tag: the values of dev and bus in it, in either kind of quotes |
| DriveRead.DriveNames | internal/libvirt/domain_xml.go:119-121 | a finished drive mentions its volume |
| ConfigDrive.PatchDomainConfigDriveXML | internal/libvirt/domain_xml.go:96-111 | the whole operation; it fails only without a closing devices tag |
| ConfigDrive.LastFindIsLast | internal/libvirt/domain_xml.go:172-179 | the place of insertion is the last closing devices tag |
| DriveBus.DriveEndsOn | internal/libvirt/domain_xml.go:96-278 | after the operation the drive is on ide if and only if the machine is not q35 and the other disks use ide and neither virtio nor sata; else on sata, so on every q35 machine |
| DriveBus.InsertedName | internal/libvirt/domain_xml.go:172-278 | a new drive takes the first free name of hda to hdd on ide and of sda to sdf on sata |
| ConfigDrive.TargetIsPlain | internal/libvirt/domain_xml.go:190-278 | the resolved target is a plain name on the preferred bus |
| DriveTwice.Edited | internal/libvirt/domain_xml.go:96-108 | an edit exchanges exactly one disk, for a drive with the resolved target, and leaves all other text |
| DriveTwice.EditableAgain | internal/libvirt/domain_xml.go:96-108 | an edit keeps all hypotheses when the tag it writes stays |
| DriveTwice.PrefersAgain | internal/libvirt/domain_xml.go:222-252 | the preferred bus is the same after an edit if and only if the other disks do not use ide alone or the q35 marker does not hang on the drive |
| DriveTwice.ResolvesAgain | internal/libvirt/domain_xml.go:190-252 | after an edit that keeps the preferred bus the same target is resolved again |
| DriveTwice.EditTwice | internal/libvirt/domain_xml.go:96-152 | editing twice is editing once if and only if the preferred bus and the tag written stay; the number of drives always stays |
| DriveTwice.MovesAgain | internal/libvirt/domain_xml.go:96-252 | when the bus does not stay, a second call moves the drive again |
| DriveTwice.TagsAgain | internal/libvirt/domain_xml.go:96-152 | when the tag does not stay, a second call writes another one |
| DriveExample.DriveMovesTwice | internal/libvirt/domain_xml.go:96-252 | a domain of two disks on which it does, for every pool and volume name |
| DriveInsert.NewDriveFacts | internal/libvirt/domain_xml.go:172-188 | the inserted block is a drive that editing leaves alone |
| DriveInsert.DriveInserted | internal/libvirt/domain_xml.go:172-179 | an insertion adds one disk in front of the last closing devices tag and keeps all text around it |
| DriveInsert.InsertTwice | internal/libvirt/domain_xml.go:96-188 | inserting adds exactly one drive, and a second call changes nothing |
| DriveInsert.TargetsStayDistinct | internal/libvirt/domain_xml.go:190-278 | target names stay pairwise different, ignoring case, for an edit and for an insertion, when a name is free |
| HostAddress.GenerateIPAddressInCIDR | internal/server/utils.go:44-70 | the answer for every prefix and word with 32-bit arithmetic; below /31 it is base + 1 + word mod hosts without wrap-around |
| HostAddress.PutUint32 | internal/server/utils.go:67-69 | the four octets, most significant first |
| HostAddress.OctetsRoundTrip | internal/server/utils.go:57-69 | reading the written octets gives the word back |
| HostAddress.PrefixFits | internal/server/utils.go:44-70 | a masked prefix does not reach past the last address |
| HostAddress.InsidePrefix | internal/server/utils.go:44-70 | for lengths 0 to 30 the address lies strictly between network and broadcast address |
| HostAddress.ReachableHosts | internal/server/utils.go:44-70 | for lengths 1 to 30 the reachable hosts are exactly those (section 3.1 of RFC 4632) |
| HostAddress.ReachableHostsOfEverything | internal/server/utils.go:44-70 | for length 0 all of them but the last |
| Handlers.Server.DrawInterfaces | internal/server/forge_server.go:583-656 | one status entry per interface, or a panic |
| Handlers.Server.AllocateInstance | internal/server/forge_server.go:583-656 | new tables and answer: existing ids refused, status and machine recorded |
| InstanceRuns.AllocateMeans | internal/server/forge_server.go:583-656 | answered exactly for a free id with network, machine and addresses that can be drawn; the instance as asked for, and its machine entered when unknown |
| Handlers.Server.ReleaseInstance | internal/server/forge_server.go:659-673 | exactly the named instance goes |
| InstanceRuns.ReleaseMeans | internal/server/forge_server.go:659-673 | answered exactly for an id that is there; it is gone and all others stay |
| InstanceRuns.AllocateThenRelease | internal/server/forge_server.go:583-673 | a release undoes an allocation, but for the machine |
| Handlers.Server.UpdateInstanceConfig | internal/server/forge_server.go:683-708 | the network configuration is carried over into the new configuration |
| InstanceRuns.UpdateMeans | internal/server/forge_server.go:683-708 | answered exactly for an id that is there; security group and other settings are the ones given, network, machine and status stay, metadata only when given, new version |
| InstanceRuns.InstanceOverRuns | internal/server/forge_server.go:583-748 | over every run without its release each field of an instance: configuration, metadata and version by its last updates, state by its reads, the rest unchanged |
| InstanceRuns.AllocatedConfig | internal/server/forge_server.go:583-708 | after allocation and any such run the configuration is the allocated one, or the last one given with the allocated network |
| Handlers.Server.FindInstancesByIds | internal/server/forge_server.go:729-748 | each occurrence of an id advances its instance; the answer lists them as they are afterwards |
| InstanceRuns.FoundInOrder | internal/server/forge_server.go:729-748 | the answer follows the order of the ids asked for |
| Handlers.Server.CreateVpcPeering | internal/server/forge_server.go:1059-1094 | an id in use, or a pair already peered in either direction, is refused; else one peering is added under the requested, default or generated id |
| TableEffects.CreatePeeringMeans | internal/server/forge_server.go:1059-1094 | created exactly for two named VPCs that are not peered in either direction, under a free id; VPC and peer stored as asked for |
| Handlers.Server.DeleteVpcPeering | internal/server/forge_server.go:1097-1106 | exactly that peering goes |
| TableEffects.DeletePeeringMeans | internal/server/forge_server.go:1097-1106 | answered exactly for an id that is there; it is gone and all others stay |
| TableEffects.PeeringUndone | internal/server/forge_server.go:1059-1106 | deleting a new peering undoes its creation |
| Handlers.Server.FindVpcPeeringIds | internal/server/forge_server.go:1113-1126 | exactly the peerings with the filter VPC on either side, each once, ascending |
| Handlers.Server.CreateOsImage | internal/server/forge_server.go:1443-1464 | image and operating system entry under one id |
| TableEffects.CreateImageMeans | internal/server/forge_server.go:1443-1464 | created exactly under a free id, stored as asked for, with an operating system entry that has its tenant, name and description |
| Handlers.Server.UpdateOsImage | internal/server/forge_server.go:1467-1478 | new attributes for an image that exists, and its stub refreshed |
| TableEffects.UpdateImageMeans | internal/server/forge_server.go:1467-1478 | answered exactly for an image that is there; attributes replaced, entry refreshed, everything else stays |
| Handlers.Server.DeleteOsImage | internal/server/forge_server.go:1481-1491 | image and operating system go together |
| TableEffects.DeleteImageMeans | internal/server/forge_server.go:1481-1491 | answered exactly for an image that is there; both entries gone and all others stay |
| TableEffects.ImageUndone | internal/server/forge_server.go:1443-1491 | deleting a new image undoes its creation if and only if no operating system was under its id before |
| Handlers.Server.EnsureOperatingSystemStub | internal/server/operating_system.go:47-77 | the entry is created or updated under that id, no other changes |
| Handlers.Server.CreateOperatingSystem | internal/server/operating_system.go:92-184 | stored under the requested or generated id |
| TableEffects.CreateOsMeans | internal/server/operating_system.go:79-184 | created exactly under a free id, with the fields asked for and trimmed user data |
| Handlers.Server.UpdateOperatingSystem | internal/server/operating_system.go:128-209 | only the fields the request carries change |
| TableEffects.UpdateOsMeans | internal/server/operating_system.go:128-209 | answered exactly for an id that is there; each field given is stored and each other one stays |
| TableEffects.UpdatesCompose | internal/server/operating_system.go:128-209 | two updates leave what the two together would have left |
| TableEffects.CreateVpcMeans | internal/server/forge_server.go:384-420 | created exactly with a name and under a free id, the requested one, else the default one while free, else a generated one; all else stays |
| TableEffects.UpdateVpcMeans | internal/server/forge_server.go:423-437 | answered exactly for a VPC that is there, which is renamed unless the name is empty |
| TableEffects.DeleteVpcMeans | internal/server/forge_server.go:440-452 | answered exactly for a VPC that is there; it is gone and all else stays |
| TableEffects.SegmentsMean | internal/server/forge_server.go:515-554 | a segment is created exactly with a name and deleted exactly when it is there; all else stays |
| TableEffects.CreateVpcPrefixMeans | internal/server/forge_server.go:1358-1389 | created exactly under a free id, with the default range and the default VPC where none is given |
| TableEffects.UpdateVpcPrefixMeans | internal/server/forge_server.go:1392-1418 | answered exactly for a prefix that is there; the fields given change and the others stay |
| TableEffects.DeleteVpcPrefixMeans | internal/server/forge_server.go:1421-1430 | answered exactly for a prefix that is there; it is gone and all else stays |
| TableEffects.InstanceTypesMean | internal/server/instance_type.go:38-79 | a type is created exactly under a free id and deleted exactly when it is there; all else stays |
| TableEffects.AssociationsMean | internal/server/forge_server.go:817-861 | all named machines get the type or none, exactly when the type and the machines are there and no machine has another type; a removal clears one machine |
| Tables.StatusesFor | internal/server/forge_server.go:583-656 | as many interface statuses as interfaces |
| StateMethods.LastIndex | internal/statestore/methods.go:33-38 | the last occurrence, or none |
| StateMethods.MethodBaseName | internal/statestore/methods.go:33-38 | no slash is left |
| StateMethods.BaseNameAfterSlash | internal/statestore/methods.go:33-38 | only what follows the last slash decides |
| StateMethods.ReadsExactly | internal/statestore/methods.go:5-31 | a request is taken for a read if and only if its name starts with one of the six words and is not FindInstancesByIds |
| StateMethods.WritersAreMutating | internal/statestore/methods.go:5-31 | every modelled writer is classified as mutating |
| StateMethods.UnsavedRequestsChangeNothing | internal/statestore/methods.go:5-31 | a request that is not followed by a save leaves all nine tables alone |
| StateMethods.FindInstancesByIdsNeedsTheException | internal/statestore/methods.go:14-24 | by its prefix it would count as a read, and it changes state |
| TableRuns.StepSound | internal/server/forge_server.go:583-1491 | every request keeps: each object under its own id, no two peerings for a pair, images matched by operating systems, equal interface lists |
| TableRuns.RunSound | internal/server/forge_server.go:583-1491 | so does every run |
| TableRuns.MatchingPair | internal/server/forge_server.go:1108-1111 | the comparison means the same unordered pair |
| TableRuns.CreatePeeringSound | internal/server/forge_server.go:1059-1094 | no second peering for a pair, in either direction |
| TableRuns.RefusalsChangeNothing | internal/server/forge_server.go:583-1491 | a request that does not succeed leaves the tables as they are |
| TableRuns.DiesExactly | internal/server/forge_server.go:583-656 | a modelled request panics if and only if it allocates a free id without network configuration or machine, or from a prefix that cannot be drawn from |
| TableRuns.AddressFails | internal/server/forge_server.go:583-656 | drawing one address panics if and only if the prefix of the interface cannot be drawn from |
| TableRuns.AllocatedAddresses | internal/server/forge_server.go:583-656 | after an allocation every interface has the address it names, else one strictly inside its VPC prefix (the only one of a /32), else any; its drawn hardware address, and a function id exactly when it is virtual |
| TableRuns.LifeCycle | internal/server/forge_server.go:683-748 | over every run without its release an instance advances by its number of reads, repeats counted, and keeps network, machine and interface status |
| TableRuns.AllocatedLifeCycle | internal/server/forge_server.go:583-748 | after allocation the state is PROVISIONING, CONFIGURING or READY by 0, 1 or more reads; interface lists keep equal length |
| Store.Through | internal/statestore/store.go:56-84 | all items converted, or some item fails |
| Store.MapSlice | internal/statestore/store.go:56-84 | the loops convert element by element and stop at a failure |
| Store.SliceRoundTrip | internal/statestore/store.go:56-84 | decoding an encoded slice gives it back |
| Store.WireRoundTrip | internal/statestore/store.go:86-188 | decoding an encoded snapshot gives it back, all nine lists |
| Store.EncodeRoundTrip | internal/statestore/store.go:86-256 | the same through the file's bytes |
| Store.WrittenThenRenamed | internal/statestore/store.go:240-256 | writing the temporary file and renaming replaces the target and nothing else |
| Store.FileSystem.Load | internal/statestore/store.go:191-217 | a missing file is an empty snapshot, an unreadable one an error |
| Store.FileSystem.Save | internal/statestore/store.go:220-256 | when it succeeds, and the files it leaves: the encoded snapshot, or after each kind of failure the old file and what is left of the temporary one |
| Persist.MapValues | internal/server/persist.go:102-108 | each value of the map once, in some order |
| Persist.PutAllListing | internal/server/persist.go:7-66 | rebuilding from a listing in any order, values under their own ids |
| Persist.RebuiltExactly | internal/server/persist.go:7-66 | a map comes back if and only if it has no empty id and covers what was there before |
| Persist.ImportOfExport | internal/server/persist.go:7-81 | applying an export, listed in any order, to a fresh server rebuilds all nine maps |
| Persist.Restore | internal/server/persist.go:7-66 | the loop skips empty ids and lets later items win |
| Persist.ApplySnapshot | internal/server/persist.go:7-66 | the nine loops together |
| Persist.ExportSnapshot | internal/server/persist.go:68-81 | a listing of each of the nine maps |
| Persist.PersistState | internal/server/persist.go:83-88 | a save of an export of memory: when it succeeds, and the files it leaves |
| Persist.LoadPersistedState | internal/server/persist.go:90-100 | memory with the file's snapshot applied, or unchanged on error |
| Persist.AfterHandler | internal/server/server.go:44-54 | a save after exactly the successful mutating requests when there is a state file; saved if and only if none of its steps fails; otherwise no file changes |
| Interceptor.SaveRun | internal/statestore/store.go:220-256 | the steps of a save, with any fault, leave the files the save leaves, and record the tables exactly when it succeeds |
| Interceptor.Dispatch | internal/server/forge_server.go:583-1491 | the handler of each modelled request takes the transition of that request |
| Interceptor.FinishRequest | internal/server/server.go:44-54 | behind any handler that has taken its transition: memory, files and what counts as saved end as on the run that serves the request and takes the steps of its save |
| Interceptor.Intercept | internal/server/server.go:44-68 | handler and save of one request are a run of the state machine: memory, files and what counts as saved end alike |
| Durability.LoadDefaultInstanceTypes | internal/server/instance_type.go:19-26 | the default types are added, existing ones stay |
| Durability.AddTypes | internal/server/instance_type.go:19-36 | exactly the missing ids are added |
| Durability.StartUp | internal/server/server.go:26-33 | inventory, then state file, then defaults if there is no type |
| Durability.RunKeeps | internal/server/server.go:26-68 | every run of requests, save steps, failures, kills and restarts keeps: the file holds the last completed save |
| Durability.RestartRecovers | internal/server/server.go:26-33 | a restart never fails on the state file and rebuilds what the last completed save recorded |
| Durability.RecoveredExactly | internal/server/persist.go:7-100 | saved tables come back if and only if a type is left and no instance or machine has the empty id |
| Durability.KilledAnywhere | internal/server/server.go:26-68 | killed at any point of any run and restarted, memory is the value before the interrupted save, if and only if that value is restorable |
| Durability.ServedTablesSound | internal/server/server.go:26-68 | over every run, restarts included, the served tables keep the invariant: no double peering, matched images |
| Durability.DurableLifeCycle | internal/server/server.go:26-68 | over every run without its release, saves failing, kills and restarts included, a saved instance is there; its state is given by the reads, less those a restart forgot, and machine, network and interface status stay |
| Durability.LastTypeComesBack | internal/server/server.go:31-33 | deleting the last instance type is undone by a restart |

## Left out

- gRPC transport, protobuf JSON and the YAML inventory: encoding and decoding of one message is assumed to be a round trip.
- libvirt itself (storage volumes, domain definition, seeds, temporary directories) and the background goroutines that provision and release.
- The inside of an HTTP download: it yields any bytes or an error. The path without a digest or cache directory streams directly and is not part of the model.
- Requests that are nil: gRPC does not pass them to a handler.
- Cryptography: keys are their identifiers, signatures are abstract, claims other than kid, aud, iat and exp are dropped, and so is the derivation of the subject prefix.
- Token delegations and the OpenID configuration document.
- Power loss: only the process is killed, what was written before a kill stays written.
- Stored messages are values in `Handlers`: a handler replaces a map entry where the source updates the stored object through a pointer, so a message that a caller keeps and changes later is not captured.
- Handlers of tenants, keysets, InfiniBand and NVLink partitions, security groups, power shelves, switches, racks, SKUs and DPU services: they only add easy members.
- The create, update and delete handlers of VPCs, segments, VPC prefixes and instance types are transitions on values in `Tables.Apply`; they have no method of their own.
- `mockdata.EnsureMachineDiscoveryInfo` is not part of this model; it is taken to leave the modelled fields alone. Lookup of user data for an instance is left out.
- The root check behind a patched domain (`requireDomainXMLRoot`) and the libvirt calls around the patches.
- Letters beyond ASCII in the group names of replacement templates, and lower-casing of characters whose lower case is not ASCII beyond what comparisons with ASCII text can see.
- The MAC address buffer and the unconstrained `generateIPAddress`: any four octets.
- Handlers.Server.AllocateInstance: the tables left in memory by a panic are not described, because the panic ends the process.
- Interceptor.Intercept: covers the requests whose handlers are methods of `Handlers.Server`; `FinishRequest` covers the others, their handlers taken to make the transition in `Tables.Apply`.
- TableRuns.DiesExactly: requests outside the nine tables stand in the model as `Other`, which never panics; what such a handler does on incomplete requests, for example InvokeInstancePower without a machine id, is not described.
- ImageCacheServer.ImageCache.OpenCachedOrDownloadImage: states the result for a caller that finds no flight for its path; several callers are the subject of the protocol lemmas.
- ImageCacheProgress.NoDeadlock: a download is one step, so it is taken to terminate.
- Durability.KilledAnywhere: is about runs in which the first save has completed and no save has failed since; after a failed save the file holds an older value, which `RestartRecovers` describes.
- BootTwice.PatchTwice: names that make a reference; what they do to an element is the subject of `SourceStaysExactly` and `SourceReplacedExactly`.
- DriveTwice.EditTwice: asks that the drive still reads as a cdrom when its tag is written, and for self-closing targets in it whose names make no reference and hold no markup character or `=`.
- DriveInsert.TargetsStayDistinct: under the same conditions on the text as `EditTwice` and `InsertTwice`.
