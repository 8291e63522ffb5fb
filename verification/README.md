# acidns in Dafny

A model of the state-carrying core of acidns, a DNS library in Go, with proofs of what that core is
relied on for.  Four parts are covered.

**The authoritative zone store.**  A zone is an index from owner names to records, with the set of
existing names and the apex SOA at hand.  UPDATE (RFC 2136) changes it by checking under a read lock,
checking again under the write lock, cloning, editing slices in place, bumping the serial and
swapping the published index.  `Zones` gives the zone and an update as values, `ZoneLaws` and
`ZoneRuns` the invariants over loading and any run of updates, `ApplyLaws` and `PackLaws` what an
update section does to the record sets, `ZoneStore` the mutable index with its arrays, `Prereqs`,
`UpdateService` and `Authoritative` the request, and `UpdateProtocol` all interleavings.  `Lookup` is the query algorithm; `LookupLaws` and `AnswerLaws` state what it answers
in terms of the flat record list.

**Transfers and signatures.**  `TransferStream`, `Axfr`, `Ixfr` and `IxfrLaws` hold the record
reader, the server's chunking and both client iterators, and prove that they undo each other;
`TransferExact` says what the clients make of any other stream;
`Secondary` and `SecondaryAgreement` carry that through to the answers of the zone a client loads.
`WireDecode`, `SectionWalk`, `Tsig`, `TsigBuffers` and `TsigLaws` work on message bytes: signing
appends a record, verifying finds it and strips it, and the two are inverse; `TsigSound` says, octet by
octet (`Octets`), what an accepted signature covers.

**The resolvers.**  `Nsec3`, `Nsec3Index`, `Nsec3Laws`, `Nsec3Chain` and `Nsec3Order` are the cached
NSEC3 records and the negative answers built from them (RFC 8198).  `Bailiwick` holds both record
filters, `CnameChase` and `ChaseLaws` the alias loop, `RecursiveCache` the sharded TTL cache,
`ForwardCache` the LRU cache, `SingleFlight` the sharing of upstream exchanges, `Keys` the strings all
of them use as map keys, `Shards` the division of a cap among 64 shards.

**Rate limits.**  `TokenBucket` holds the limiter of upstream queries and one shard of the limiter of
clients; `TokenBucketLaws` states what they hold over whole runs, `LimiterClocks`, `AdmissionBound` and
`AdmissionExact` what they hold and admit with clock readings in any order.

Names are the root or a label in front of a parent; stored names are lower case, so equality is
structural.  Times and durations are integers in nanoseconds, tokens are real numbers.  The keyed
hash, the NSEC3 hash, the shard hash and the upstream are parameters.  Clocks are arguments.  Each
lock section is one step of a protocol; maps are iterated in an arbitrary order.

## What the code does not do

Some properties one would expect are false of the code.  The model follows the code, and a lemma says
exactly when the property holds.

- The serial bump does nothing, silently, when the apex SOA carries a timer of 2^31 seconds or more,
  or has no SOA value (`ZoneRuns.SerialCountsChanges`, `ZoneRuns.SerialStuck`).
- Loading takes the first SOA of the file, whoever owns it (`ZoneRuns.LoadEstablishesZoneOK`,
  `ZoneRuns.ForeignSoaLoaded`).
- The comment on the name-in-use test says that empty non-terminals count; the code looks at record
  owners only, and so does `Prereqs.NameInUse`.
- A signature is lost when the verifier's walk over the records, with the identifier rewritten and the
  additional count raised, does not end where the signature starts (`TsigLaws.SignVerifyExactly`).
  A name compressed into the changed octets can do that (`TsigLaws.HeaderPointerLost`), and so can octets
  after the last record; an additional count of 65535 always does (`TsigLaws.FullCountLost`).
- SOA records below the apex do not survive a transfer, so a secondary can answer otherwise
  (`Secondary.SetArrives`, `SecondaryAgreement.SecondaryAnswersAlike`, `Secondary.VisibleSoaLost`,
  `Secondary.StraySoaLost`).
- An NSEC3 insertion into a full index uses a position computed before the sweep.  The entry can be
  dropped, the slice insertion can panic, and the bucket can end up out of order
  (`Nsec3Laws.InsertsExactly`, `Nsec3Laws.FirstEntryLost`, `Nsec3Order.InsertsSorted`,
  `Nsec3Order.StaleInsertBreaks`, `Nsec3Order.FullIndexPanics`, `Nsec3Order.FullIndexUnsorts`).
  Soundness of the answers does not depend on the order.
- A negative answer whose SOA has a MINIMUM of zero is cached for longer than that
  (`RecursiveCacheLaws.NegativeLifetimeExactly`, `RecursiveCacheLaws.ZeroMinimumCached`).
- The client limiter takes tokens away when its clock runs backwards
  (`LimiterClocks.RangeExactly`, `LimiterClocks.DefaultRateDrained`).
- Both limiters read the clock before they take the lock, so the readings can come in another order than
  the requests.  A key dropped as idle can then come back before its bucket would have been full and get
  more than burst and rate allow (`AdmissionExact.BoundExactly`, `AdmissionExact.UnsafeExceeds`,
  `AdmissionExact.StaleReadingExceeds`).

## Model

| member | source | states |
|---|---|---|
| Names.InBailiwick | authoritative/update.go:342-355 | the climb from a name to the root answers exactly whether the name is at or below the origin |
| Names.WirePrefixFree | wire/wirebb/name.go:130-135 | the wire form of a name determines the name and where it ends, so it can start a longer key |
| Zones.PathUpInZone | authoritative/update.go:487-500 | the names marked for a record are exactly the names between it and the origin |
| Zones.RebuiltExact | authoritative/update.go:509-533 | recomputing the existing names gives exactly the names between the origin and some owner |
| ZoneStore.Append | authoritative/update.go:474-480 | appending to a slice gives the old content and the record, in the same array or a fresh one |
| ZoneStore.Compact | authoritative/update.go:405-422 | the in-place compaction of a slice leaves, in the same array, exactly the kept records in order |
| ZoneStore.Copy | authoritative/update.go:167-183 | a copied bucket has the same content in a fresh array |
| ZoneStore.Climb | authoritative/update.go:487-500 | the marking loop adds, in place, exactly the path from a name up to the origin |
| ZoneStore.ReplaceSoa | authoritative/update.go:538-570 | the scan replaces the first SOA of a bucket and keeps everything else in place |
| ZoneStore.ZoneIndex.MarkExists | authoritative/update.go:487-500 | an added record makes its whole path to the origin exist |
| ZoneStore.ZoneIndex.CompactAt | authoritative/update.go:405-422 | compacting one bucket in place changes that bucket only, reports whether anything went, and drops an emptied bucket |
| ZoneStore.ZoneIndex.DeleteRRset | authoritative/update.go:367-422 | a class-ANY delete does what the deletion function says, apex SOA and NS protected |
| ZoneStore.ZoneIndex.DeleteRecord | authoritative/update.go:423-451 | a class-NONE delete removes exactly the records of equal type and data, apex SOA and NS protected |
| ZoneStore.ZoneIndex.HasDuplicate | authoritative/update.go:457-461 | the duplicate scan finds a record of equal type, TTL and data exactly when there is one |
| ZoneStore.ZoneIndex.ReplaceApexSoa | authoritative/update.go:465-479 | an added apex SOA takes the place of the old one |
| ZoneStore.ZoneIndex.AddRecord | authoritative/update.go:452-483 | an add stores the record with class IN, unless a duplicate is there |
| ZoneStore.ZoneIndex.ApplyUpdate | authoritative/update.go:362-485 | one update record turns the view of the index into the specified zone, reports a change exactly when there is one, and otherwise leaves the view as it was; arrays it did not own stay untouched |
| ZoneStore.ZoneIndex.Clone | authoritative/update.go:167-183 | the clone has the same view, and its array of every bucket, its map of buckets and its set of existing names are all new |
| ZoneStore.ZoneIndex.ApplyUpdates | authoritative/update.go:128-133 | the loop over the update section folds the records in order |
| ZoneStore.ZoneIndex.BumpSerial | authoritative/update.go:538-570 | the bump advances the apex SOA, or does nothing when the SOA cannot be written back |
| ZoneStore.ZoneIndex.RebuildNamesExist | authoritative/update.go:509-533 | the rebuild recomputes the existing names, in a new set, and changes nothing else |
| ZoneStore.ZoneIndex.Advance | authoritative/update.go:128-152 | a whole update section, bump and rebuild included, turns the view into the updated zone and reports the serial step |
| PackLaws.PackInjective | authoritative/update.go:573-578 | data of one type as read from a message packs alike exactly when it is equal, name compression inside an SOA included |
| PackLaws.RDataEqualExactly | authoritative/update.go:573-578 | so the comparison updates make is equality of type and value |
| ApplyLaws.DeleteExactly | authoritative/update.go:367-451 | a delete leaves, in order, exactly the records that are not of its type (class ANY) or not of its type and packed data (class NONE), and always the SOA and NS records of the apex; no other bucket changes |
| ApplyLaws.AddExactly | authoritative/update.go:452-483 | an add changes nothing if a record of equal type, TTL and packed data is there, and otherwise puts its record, with class IN, at the end of its bucket, in place of the old SOA at the apex; no other bucket changes |
| ApplyLaws.AddMakesExist | authoritative/update.go:487-500 | an in-zone add makes exactly the names between its owner and the origin exist |
| ApplyLaws.ChangesExactly | authoritative/update.go:362-485 | a record counts as a change exactly when its bucket changes |
| ApplyLaws.SectionMeaning | authoritative/update.go:128-133 | after a whole section a record is there exactly when it was there or was added, and no later record deletes it |
| ApplyLaws.UpdateMeaning | authoritative/update.go:127-153 | the same of the zone an accepted UPDATE publishes |
| ApplyLaws.ApexSoaMeaning | authoritative/update.go:465-479 | the apex SOA is the last one added, or the old one |
| ApplyLaws.BumpMeaning | authoritative/update.go:538-570 | publishing a change gives that SOA the next serial and leaves every other field alone, unless it cannot be written back |
| ZoneLaws.ApplyAllSound | authoritative/update.go:362-485 | any run of accepted update records keeps buckets keyed, the apex SOA unique and equal to the cached one, and all apex NS records; without a change the zone is identical |
| ZoneLaws.UpdateKeepsZoneOK | authoritative/update.go:127-153 | an accepted UPDATE keeps every zone invariant: exact existing names, single-owner non-empty buckets, one apex SOA, no apex CNAME or DNAME, apex NS records still there |
| ZoneRuns.LoadEstablishesZoneOK | authoritative/authoritative.go:110-156 | a loaded file satisfies the zone invariants if and only if its records lie in the zone and its first SOA is the only apex one |
| ZoneRuns.LoadExactly | authoritative/authoritative.go:110-156 | a file loads exactly when it holds an SOA value and no alias at the apex; the zone has the first SOA and all records in file order |
| ZoneRuns.ForeignSoaLoaded | authoritative/authoritative.go:110-156 | a concrete file, all of it in the zone, that loads with the SOA of another name and breaks the invariants |
| ZoneRuns.ReachableZoneOK | authoritative/update.go:362-570 | every zone reachable by loading and then any run of accepted UPDATEs satisfies the invariants and keeps the loaded apex NS records |
| ZoneRuns.SerialCountsChanges | authoritative/update.go:127-153 | over any run without apex SOA adds the serial advances by the number of change-effecting UPDATEs modulo 2^32, exactly when the SOA can be bumped; otherwise it never moves; no change leaves everything identical |
| ZoneRuns.RunLooksNewer | ixfr/ixfr.go:447-450 | after 1 to 2^31 - 1 change-effecting UPDATEs the old serial is older by serial-number arithmetic |
| ZoneRuns.SerialStuck | authoritative/update.go:538-570 | a concrete zone whose update succeeds and changes it while its serial stays the same |
| Serials.AdvancedIsNewer | ixfr/ixfr.go:447-450 | advancing a serial by k makes the old one older exactly for the k modulo 2^32 in 1 to 2^31 - 1 |
| Prereqs.PrereqsOrderFree | authoritative/update.go:193-271 | the verdict on a prerequisite section depends on which records it holds, not on their order or repetition |
| Prereqs.PrereqCodeMeaning | authoritative/update.go:193-271 | the code is NoError exactly when every existence prerequisite holds and every value-dependent RRset is equal as a set |
| Prereqs.FailureMeaning | authoritative/update.go:193-271 | every other code names a prerequisite, of a kind that can give that code, which fails in exactly that way |
| Prereqs.SaysMeansUnmet | authoritative/update.go:193-271 | what a code says of the section is never said of a section that holds |
| Prereqs.CodeExactly | authoritative/update.go:193-271 | each code is returned exactly when the first failing prerequisite fails that way, NXRRSet also when all hold but the values of an RRset differ |
| Prereqs.ValuesExactly | authoritative/update.go:249-269 | value-dependent prerequisites hold exactly when section and zone have the same packed values for each owner and type named |
| Prereqs.SameValues | authoritative/update.go:249-269 | the length and membership comparison of packed data is set equality |
| Prereqs.EvaluatePrereqs | authoritative/update.go:193-271 | the scan that gathers value-dependent records computes the specified code |
| Prereqs.ValidateUpdates | authoritative/update.go:277-308 | the structural check accepts exactly the well-shaped update sections |
| UpdateService.CommitKeepsZonesOK | authoritative/update.go:19-161 | serving any UPDATE keeps the invariants of every published zone |
| UpdateService.ServeMeaning | authoritative/update.go:19-161 | an UPDATE is accepted exactly when it has one SOA question, is not too large, is allowed, lies in a published zone, and its prerequisites and shape hold there; it then replaces exactly that zone by the updated one; a refused one publishes nothing |
| UpdateService.RefusalExactly | authoritative/update.go:27-87 | REFUSED, NOTZONE and NOTAUTH each exactly when: not allowed, a record out of the zone, no such zone; a request the policy does not allow never publishes anything |
| UpdateService.FormErrExactly | authoritative/update.go:27-98 | FORMERR exactly when the request is malformed or too large, or its first failing prerequisite is malformed, or its prerequisites hold and an update record is malformed |
| UpdateService.PrereqRefusalExactly | authoritative/update.go:80-98 | the other codes exactly by the first failing prerequisite |
| UpdateService.NoticeIsConsecutive | authoritative/update.go:135-152 | the two serials handed to the update hook are consecutive if and only if the SOA could be bumped |
| Authoritative.Authoritative.FindZone | authoritative/authoritative.go:519-533 | the zone found is the deepest published origin at or above the name, and none only if there is none |
| Authoritative.Authoritative.AddZone | authoritative/authoritative.go:110-156 | loading publishes the specified zone, or nothing on an error |
| Authoritative.Authoritative.CommitUpdate | authoritative/update.go:101-154 | the write-lock section checks again and publishes the committed zone, and every index published before, snapshots included, still reads the same |
| Authoritative.Authoritative.ServeUpdate | authoritative/update.go:19-161 | the two-lock UPDATE without interference is the atomic one |
| Authoritative.BuildIndex | authoritative/authoritative.go:110-156 | the loading loop buckets the records by owner in file order and marks their paths |
| UpdateProtocol.Serialisable | authoritative/update.go:80-154 | every interleaving of read-lock checks, write-lock commits, reloads and query snapshots equals the sequential run of its lock sections: same zones, same replies, same snapshots |
| UpdateProtocol.ServedOnce | authoritative/update.go:80-154 | each request takes effect exactly once, at its reply |
| UpdateProtocol.RepliesStay | authoritative/update.go:80-154 | a reply never changes |
| UpdateProtocol.WriteMeaning | authoritative/update.go:101-154 | a commit happens only for a well-formed, allowed, in-zone request with prerequisites and shape checks true in the very zone it replaces; every other step publishes nothing |
| UpdateProtocol.SnapMeaning | authoritative/authoritative.go:519-533 | a query reads the zone of the deepest published origin at or above its name as published at that moment, and none exactly if there is none |
| UpdateProtocol.ReloadMeaning | authoritative/authoritative.go:110-156 | a reload publishes exactly the loaded zone, or nothing |
| UpdateProtocol.RunKeepsZonesOK | authoritative/update.go:80-154 | in every interleaving all published zones and all snapshots satisfy the invariants |
| Lookup.MatchRRSet | authoritative/authoritative.go:646-664 | the bucket scan returns the matching RRset or the CNAME as specified |
| Lookup.FindDelegation | authoritative/authoritative.go:719-742 | the climb returns the first NS set below the origin |
| Lookup.ClosestEncloser | authoritative/authoritative.go:668-683 | the climb returns the nearest existing name |
| Lookup.FindDnameAncestor | authoritative/authoritative.go:782-806 | the climb returns the first DNAME above the name whose substitution is representable |
| Lookup.CollectGlue | authoritative/authoritative.go:747-765 | the glue loop collects the addresses of the listed servers |
| Lookup.LookupAuthoritative | authoritative/authoritative.go:561-640 | the chasing loop computes the specified response |
| Lookup.LookupZone | authoritative/authoritative.go:547-559 | referral or authoritative answer, as specified |
| LookupLaws.DelegationIsNearestCut | authoritative/authoritative.go:719-742 | over the flat record list: the delegation is the NS set of the deepest cut on the path, and absent exactly when there is no cut |
| LookupLaws.ExistsIsIndexed | authoritative/authoritative.go:668-683 | a name is in the index exactly when some record is owned at or below it |
| LookupLaws.AtIsFlat | authoritative/authoritative.go:561-640 | one step of the index lookup is the step defined on the flat record list, for exact match, DNAME, wildcard and denial |
| LookupLaws.FlatOutcomeUnique | authoritative/authoritative.go:561-640 | the flat definition allows one outcome only |
| LookupLaws.LookupDependsOnRecords | authoritative/authoritative.go:547-640 | two indexes of the same record list answer every query alike |
| LookupLaws.DeniedExactlyWhen | authoritative/authoritative.go:561-742 | NXDOMAIN exactly when no cut lies on the path, no owner at or below the name, no representable DNAME substitution by the deepest DNAME above, and no records at the wildcard of the longest existing ancestor |
| LookupLaws.ReferralExactly | authoritative/authoritative.go:547-559 | a response is a referral exactly when a cut lies on the path; then it holds the nearest NS set and exactly its in-zone addresses; otherwise the SOA is there exactly when the first name has no answer |
| LookupLaws.GlueExactly | authoritative/authoritative.go:747-765 | glue is exactly the A and AAAA records the zone holds for the named servers |
| LookupLaws.FirstCnameExactly | authoritative/authoritative.go:646-664 | the alias followed is the first CNAME of the bucket |
| LookupLaws.FirstDnameExactly | authoritative/authoritative.go:782-806 | the redirection used is the first DNAME of the bucket |
| AnswerLaws.GraftReplaces | authoritative/authoritative.go:813-838 | DNAME substitution replaces exactly the owner suffix by the target |
| AnswerLaws.AnswerIsLinkedChain | authoritative/authoritative.go:561-664 | every authoritative answer is a chain from the query name whose links are the CNAME at the name, the nearest DNAME above with its synthesised CNAME, or the CNAME at the wildcard of the longest existing ancestor, rewritten; closed by all records of the type at the last name or at that wildcard; at most eight links, and SERVFAIL exactly when eight are used |
| AnswerLaws.ChainUnique | authoritative/authoritative.go:561-664 | the record list allows one such chain only, so it determines the answer section and whether it is SERVFAIL |
| AnswerLaws.ResponseExactly | authoritative/authoritative.go:547-640 | off a cut the record list determines the whole response: the records of the chain, the SOA exactly when there are none, SERVFAIL exactly at eight links, NXDOMAIN exactly when the first name is denied, NOERROR otherwise |
| TransferStream.ChunkingInvisible | axfr/axfr.go:213-259 | a clean stream reads as its records in order, however it is cut into messages, empty ones included |
| TransferStream.DeliveryExactly | axfr/axfr.go:236-255 | a message gives its records exactly when its identifier and first question, if any, are those of the request, its code is NOERROR and it verifies; otherwise the error of the first test that fails |
| TransferStream.RecReader.Read | axfr/axfr.go:213-259 | one read takes exactly the next pending item, pushed-back records first, over any number of messages |
| TransferStream.RecReader.Push | axfr/axfr.go:261-263 | a pushed-back record is read next |
| Axfr.StreamAXFR | authoritative/authoritative.go:283-329 | the envelopes are non-empty, each within the size estimate or a single record, and together carry SOA, the non-SOA body in order, SOA |
| Axfr.Transfer.Init | axfr/axfr.go:161-176 | the client starts exactly on a leading SOA value |
| Axfr.Transfer.Next | axfr/axfr.go:178-194 | one call of the iterator is one step of the specified iterator |
| Axfr.TransferRoundTrip | axfr/axfr.go:161-194 | the client yields exactly what the server sent, then the end, if and only if the SOA record holds an SOA value |
| Axfr.ServerClientRoundTrip | authoritative/authoritative.go:283-329 | for any chunking of the transferred records into envelopes the client gets them back |
| TransferExact.ClientRefuses | axfr/axfr.go:161-176 | the client starts exactly on a leading SOA value, and each refusal has its exact cause |
| TransferExact.ClientExactly | axfr/axfr.go:178-194 | on any stream it yields the SOA and all records up to the next SOA of that serial and ends there; it fails on an error before that, and ends where the stream ends |
| ZoneExport.AllRecords | authoritative/authoritative.go:871-877 | the exported list is a flat listing of the zone, bucket by bucket, in any map order |
| Secondary.AlikeLookup | authoritative/authoritative.go:547-640 | two zones whose buckets differ only in the place of the SOA answer every query alike |
| Secondary.LoadedAlike | authoritative/authoritative.go:110-156 | for every well-formed zone: loading a complete transfer gives a well-formed zone that differs from the exported one, less its SOA records below the apex, at most in the place of its SOA |
| Secondary.SecondaryAnswers | authoritative/authoritative.go:283-329 | export, any chunking, the client iterator and loading compose: the secondary answers every query as the primary would without its SOA records below the apex |
| Secondary.SetArrives | authoritative/authoritative.go:309-321 | a record set survives export, transfer and loading if and only if it is not an SOA set below the apex |
| SecondaryAgreement.SecondaryAnswersAlike | authoritative/authoritative.go:283-329 | the secondary answers every query as the primary does if and only if no name to which a query without referral is led, by up to seven aliases, has an SOA below the apex, of its own or by wildcard, when SOA is asked for, or lies where only SOA records are while a DNAME or wildcard above would answer; that holds if no SOA lies below the apex |
| Secondary.VisibleSoaLost | authoritative/authoritative.go:309-321 | every SOA set below the apex that no delegation hides gives a query that the secondary answers otherwise |
| Secondary.StraySoaLost | authoritative/authoritative.go:309-321 | a concrete zone with an SOA below the apex and the query answered otherwise |
| Ixfr.Transfer.Init | ixfr/ixfr.go:237-285 | classification into up to date, full or incremental, with both records pushed back, is the specified one |
| Ixfr.Transfer.NextAXFR | ixfr/ixfr.go:301-317 | one step of the full-transfer branch |
| Ixfr.Transfer.NextIncremental | ixfr/ixfr.go:319-382 | one step of the incremental branch: a whole difference or the closing SOA |
| Ixfr.Transfer.Collect | ixfr/ixfr.go:346-381 | the collecting loops take records up to the next SOA or error |
| Ixfr.Transfer.Pull | ixfr/ixfr.go:289-299 | one call of the iterator is one step of the specified iterator |
| Ixfr.DiffDecodes | ixfr/ixfr.go:319-382 | one encoded difference is read back as that difference |
| IxfrLaws.IncrementalRoundTrip | ixfr/ixfr.go:237-382 | an encoded difference list in any chunking is read back as exactly those differences and then the end, if and only if the first old serial is older than the new one and no old serial equals it |
| TransferExact.ClassifyExactly | ixfr/ixfr.go:237-285 | on any stream: up to date, incremental, full or refused, each exactly by the first two records |
| TransferExact.RefusesExactly | ixfr/ixfr.go:237-285 | without a leading SOA value the response is refused, and why |
| TransferExact.IncrementalExactly | ixfr/ixfr.go:319-382 | any stream is read to a clean end exactly when it encodes the differences read, closed by an SOA of the new serial, with no old serial equal to it |
| IxfrLaws.FallbackRoundTrip | ixfr/ixfr.go:237-317 | a full-transfer stream is taken as fallback, with the same records, if and only if the body has a non-SOA record or the serial differs from the client's |
| WireDecode.DecodeWire | wire/wirebb/name.go:340-401 | the decoding loop writes the folded wire form of the name it reads and stops behind its inline encoding |
| WireDecode.DecodeWritten | wire/wirebb/name.go:340-401 | a written name is read back, anywhere in a message |
| WireDecode.DecodeStable | wire/wirebb/name.go:340-401 | appending bytes and changing the identifier or the additional count does not change a name that takes no length or jump from those fields |
| WireDecode.NameFits | wire/wirebb/name.go:340-401 | every name that is read has proper folded labels and at most 255 octets |
| WireDecode.PointerExactly | wire/wirebb/name.go:340-401 | a pointer is followed exactly when it goes backwards, is one of at most 32, and a name can be read there |
| SectionWalk.FindLastRROffset | tsig/tsig.go:594-636 | the walk finds the start of the last record, in the additional section only |
| SectionWalk.AppendedIsLast | tsig/tsig.go:594-636 | a record appended to a well-formed message, with its count raised, is the one the walk finds |
| TsigBuffers.StripTsig | tsig/tsig.go:492-536 | stripping finds the last record, parses it and lowers the count, or fails as specified |
| TsigBuffers.VerifyMessage | tsig/tsig.go:331-384 | the verifier computes the specified result, checks in the same order |
| TsigLaws.ParseWritten | tsig/tsig.go:448-460 | written signature data is parsed back field by field |
| TsigLaws.StripWritten | tsig/tsig.go:492-536 | stripping at a written signature record gives back its owner, its data and the message before it |
| TsigLaws.RestoresMessage | tsig/tsig.go:331-384 | lowering the count and restoring the identifier gives the unsigned bytes back, even when the count wraps |
| TsigLaws.SignVerifyExactly | tsig/tsig.go:231-384 | for every message, key, prior code, mode and rewritten identifier: verification returns the original bytes and the same code if and only if the record walk ends on the signature and the clock is within the window |
| TsigLaws.SignVerifyRoundTrip | tsig/tsig.go:231-384 | for a well-formed message with an additional count below 65535 that is every time |
| TsigLaws.StreamRoundTrip | tsig/tsig.go:220-225 | a chain of envelopes, each signed over the code of the one before, verifies envelope by envelope to the bytes that were signed |
| TsigLaws.HeaderPointerLost | tsig/tsig.go:594-636 | a concrete message, its question name compressed into the identifier, whose signature no verifier accepts once the identifier is rewritten |
| TsigLaws.FullCountLost | tsig/tsig.go:492-536 | every message whose additional count is 65535 is signed, and the verifier then reports the signature missing |
| TsigSound.ParseExactly | tsig/tsig.go:538-576 | signature data is read exactly as its fields lie in the message |
| TsigSound.InputExactly | tsig/tsig.go:265-280 | the hashed bytes are length and prior code, the message, and owner, class, TTL, algorithm, time, fudge, error and other data, or only the timers, octet by octet |
| TsigSound.VerifiedExactly | tsig/tsig.go:331-384 | a message verifies exactly when its last record is a signature record of the key's name and algorithm, its code is a prefix, at least half, of the keyed hash of those bytes, and its time is within the window; what is returned is the message with identifier and count restored |
| TsigSound.VerifyStripped | tsig/tsig.go:331-384 | each refusal of a signature record, in order |
| TsigSound.UnsignedExactly | tsig/tsig.go:492-536 | without one: too short, missing or malformed, and exactly when |
| TsigSound.SignedExactly | tsig/tsig.go:231-260 | signing fails exactly for its three reasons, and otherwise appends the record octet by octet and counts one more |
| Nsec3.Less | dnssec/validator/validatorbb/bytes.go:7-15 | the octet loop is lexicographic order |
| Nsec3.ComputeHash | recursive/aggressive_nsec3.go:334-348 | the hashing loop is the iterated salted hash, refused for other algorithms and high counts |
| Nsec3.BinarySearch | recursive/aggressive_nsec3.go:192-197 | the search loop computes the specified position and reports whether the hash is there |
| Nsec3.SearchFinds | recursive/aggressive_nsec3.go:192-197 | on sorted entries the binary search finds a hash exactly when some entry has it |
| Nsec3.MatchHash | recursive/aggressive_nsec3.go:247-262 | the live entry of a name, as specified |
| Nsec3.CoverHash | recursive/aggressive_nsec3.go:268-285 | the first live entry whose interval holds the hash, opt-out skipped on request |
| Nsec3.NextCloser | recursive/aggressive_nsec3.go:353-367 | the climb gives the ancestor one label longer than the encloser |
| Nsec3.ClosestEncloserProof | recursive/aggressive_nsec3.go:293-327 | the climb gives the proof at the first matched ancestor |
| Nsec3Index.Index.CountEntries | recursive/aggressive_nsec3.go:116-122 | the sum over all zones, in any map order |
| Nsec3Index.Index.SweepExpired | recursive/aggressive_nsec3.go:127-146 | exactly the live entries stay, and only zones that have some |
| Nsec3Index.Index.EvictSoonest | recursive/aggressive_nsec3.go:151-172 | one entry that expires no later than any other goes |
| Nsec3Index.Index.Insert | recursive/aggressive_nsec3.go:180-213 | an insertion is the specified one, the stale position after a sweep included |
| Nsec3Index.Index.Lookup | recursive/aggressive_nsec3.go:224-243 | the verdict is the specified one |
| Nsec3Index.Index.DeepestZone | recursive/aggressive_nsec3.go:459-478 | the zone used is the deepest indexed one at or above the name |
| Nsec3Laws.LookupSound | recursive/aggressive_nsec3.go:224-327 | over true entries in any order and a hash without collisions under the parameters of the zone: NXDOMAIN means the name does not exist, the matched entry is the one of its real closest encloser, the next closer name and the wildcard there are covered and do not exist; NoData means the entry is the name's own, which exists without the type and without a CNAME |
| Nsec3Laws.InsertsTrue | recursive/aggressive_nsec3.go:180-213 | inserting a true entry keeps every entry true, whatever was reset, swept or evicted for it |
| Nsec3Laws.ReachableVerdictsTrue | recursive/aggressive_nsec3.go:133-327 | after any run of insertions of true entries and sweeps every verdict is true in that sense |
| Nsec3Laws.ProofExactly | recursive/aggressive_nsec3.go:293-327 | on a sorted bucket a proof is found if and only if the first live match on the way up has live covers without opt-out for the next closer name and the wildcard |
| Nsec3Laws.VerdictExactly | recursive/aggressive_nsec3.go:224-243 | on a sorted bucket NoData exactly by a live entry of the name without the type and CNAME; otherwise NXDOMAIN exactly when the proof exists; otherwise nothing |
| Nsec3Chain.RingCovers | dnssec/validator/validatorbb/nsec.go:3-12 | on the complete chain of a zone every hash is an owner or lies in exactly one interval |
| Nsec3Chain.HashExactly | recursive/aggressive_nsec3.go:334-348 | the salted hash is iterated as often as the parameters say; refused exactly for another algorithm or over 100 rounds |
| Nsec3Chain.NextCloserExactly | recursive/aggressive_nsec3.go:353-367 | the next closer name is the ancestor one label longer than the encloser |
| Nsec3Laws.VerdictLive | recursive/aggressive_nsec3.go:224-327 | a verdict rests only on unexpired entries of that zone |
| Nsec3Laws.ReachableCapped | recursive/aggressive_nsec3.go:180-213 | over any run the number of entries stays within the cap |
| Nsec3Laws.InsertsExactly | recursive/aggressive_nsec3.go:180-213 | exactly when the slice insertion panics (the sweep left fewer entries than the position found before it needs), exactly when the entry is dropped (the sweep removed the bucket in which it was to come first); otherwise the entry is stored |
| Nsec3Laws.FirstEntryLost | recursive/aggressive_nsec3.go:180-213 | the first entry of a zone is always dropped when it finds the index full and the sweep makes room |
| Nsec3Chain.InsertConserves | recursive/aggressive_nsec3.go:180-213 | an insertion brings in only its own entry, and what it takes out had other parameters or the same owner, was expired, or expires no later than all that stays |
| Nsec3Order.InsertedSorted | recursive/aggressive_nsec3.go:192-212 | a new entry keeps a bucket sorted exactly at the searched position |
| Nsec3Order.InsertsSorted | recursive/aggressive_nsec3.go:180-213 | an insertion leaves some bucket out of order if and only if a new entry finds the index full, the sweep makes room and drops an expired entry below its place, and the place found before the sweep still lies within the bucket |
| Nsec3Order.StaleInsertBreaks | recursive/aggressive_nsec3.go:198-212 | at any cap: a new entry for a full sorted index whose bucket holds an expired smaller hash panics or leaves the bucket out of order, and which of the two |
| Nsec3Order.FullIndexPanics | recursive/aggressive_nsec3.go:198-212 | for every cap, a run from the empty index whose next insertion panics |
| Nsec3Order.FullIndexUnsorts | recursive/aggressive_nsec3.go:198-212 | for every cap above one, a run from the empty index whose next insertion leaves the bucket out of order |
| Bailiwick.GrowChain | forward/bailiwick.go:50-76 | the growing loop ends, with the smallest set that holds the query name and is closed under the answer's CNAMEs |
| Bailiwick.ChainIsLeast | recursive/recursive.go:1325-1349 | the closure is least among all closed sets |
| Bailiwick.FilterForward | forward/bailiwick.go:49-146 | the forwarder's loops compute the specified filter |
| Bailiwick.FindDenialZone | recursive/recursive.go:1366-1397 | the zone whose denial records are believed |
| Bailiwick.FindDeepest | recursive/recursive.go:1451-1462 | the scan computes the specified zone cut |
| Bailiwick.FilterRecursive | recursive/recursive.go:1324-1445 | the recursive resolver's loops compute the specified filter |
| BailiwickLaws.ChainIsReachable | recursive/recursive.go:1325-1349 | a name is in the chain exactly when a path of CNAME records of the answer leads to it |
| BailiwickLaws.AnswersExactly | forward/bailiwick.go:78-83 | both filters keep exactly the answers whose owner the query name leads to |
| BailiwickLaws.AuthorityExactly | recursive/recursive.go:1366-1414 | authority records are kept exactly by owner above the query, root only for the root, and by the recursive resolver also NSEC, NSEC3 and RRSIG inside the zone of the first SOA above the query |
| BailiwickLaws.AdditionalExactly | recursive/recursive.go:1416-1443 | additional records are kept exactly if OPT, or pointed at by a kept CNAME or NS record and, in the recursive resolver, below every kept owner above the query |
| BailiwickLaws.SectionsInOrder | recursive/recursive.go:1324-1445 | kept records stay in order |
| BailiwickLaws.ForwardIdempotent | forward/bailiwick.go:49-146 | filtering twice is filtering once |
| BailiwickLaws.RecursiveIdempotent | recursive/recursive.go:1324-1445 | filtering twice is filtering once, the choice of the denial zone included |
| BailiwickLaws.AuthorityCompared | recursive/recursive.go:1398-1414 | the forwarder's authority is the recursive one restricted to owners above the query |
| BailiwickLaws.AdditionalCompared | recursive/recursive.go:1416-1443 | the recursive additional section is the forwarder's restricted to the zone cut |
| BailiwickLaws.FiltersCompared | recursive/recursive.go:1324-1445 | same answers, authority contains the forwarder's, additional contained in the forwarder's |
| BailiwickLaws.DeepestAncestorIsDeepest | recursive/recursive.go:1451-1462 | the cut owns an authority record above the query and lies below every other such owner |
| CnameChase.CollectOwn | recursive/recursive.go:692-700 | the records of exactly one owner, in order |
| CnameChase.FindTarget | recursive/recursive.go:1212-1227 | the target of the first CNAME at the owner |
| CnameChase.FindType | recursive/recursive.go:1229-1236 | whether the owner has a record of the type |
| CnameChase.Follow | recursive/recursive.go:623-685 | the chasing loop returns the aggregate of the specified walk, or its error |
| CnameChase.ChaseOK | recursive/recursive.go:623-685 | against any oracle: at most the budget of resolutions, of distinct unvisited owners each the CNAME target of the one before, and the reason for stopping is the true one |
| CnameChase.ChaseMeaning | recursive/recursive.go:623-685 | on success the answer is exactly what each visited owner answered about itself, and the expiry is the earliest of all legs |
| ChaseLaws.ChaseExactly | recursive/recursive.go:623-685 | a chase that ends returns leg by leg what each owner answered about itself, the code of the last leg that failed, and everything else from the first leg |
| ChaseLaws.LastLegExactly | recursive/recursive.go:664-678 | a leg is the last exactly when CNAME was asked for, or its owner has no alias, or has the type |
| ChaseLaws.TargetExactly | recursive/recursive.go:1212-1227 | the alias followed is the first CNAME of the owner |
| RecursiveCache.MinOver | recursive/cache.go:444-457 | the smallest TTL of a section |
| RecursiveCache.FindNegativeTTL | recursive/recursive.go:1469-1485 | the smaller of TTL and MINIMUM of the first SOA |
| RecursiveCache.BuildEntry | recursive/recursive.go:1250-1288 | the entry and its expiry are the specified ones |
| RecursiveCache.MemoryCache.Put | recursive/cache.go:304-317 | a store touches its own shard only, evicting as specified when a new key finds it full |
| RecursiveCache.MemoryCache.Peek | recursive/cache.go:275-285 | a hit is an unexpired entry with the time left on every record |
| RecursiveCache.MemoryCache.Get | recursive/cache.go:275-299 | an uninterrupted lookup serves an unexpired entry or removes an expired one, and touches nothing else |
| RecursiveCache.MemoryCache.Reap | recursive/cache.go:286-297 | the second lock section deletes only what is expired by then |
| RecursiveCache.MemoryCache.Evict | recursive/cache.go:403-423 | expired entries go first, then one that expires soonest |
| RecursiveCacheLaws.LifetimeBounds | recursive/recursive.go:1250-1288 | no entry outlives an answer or authority record it was built from, nor the configured cap |
| RecursiveCacheLaws.PositiveLifetimeExactly | recursive/recursive.go:1250-1266 | an answer lives for the smallest answer or authority TTL, cut off at the cap |
| RecursiveCacheLaws.NegativeLifetimeMeaning | recursive/recursive.go:1250-1266 | a negative answer lives for the smallest authority TTL, a minute without any, or the bound of the first SOA if that is positive and less, cut off at the cap |
| RecursiveCacheLaws.NegativeLifetimeExactly | recursive/recursive.go:1469-1485 | a negative entry obeys min(SOA TTL, MINIMUM) if and only if MINIMUM is positive or some authority TTL is zero |
| RecursiveCacheLaws.ZeroMinimumCached | recursive/recursive.go:1250-1288 | a concrete negative answer with MINIMUM zero that is kept for an hour |
| RecursiveCacheLaws.CapKeeps | recursive/cache.go:374-397 | trimming keeps prefixes, sums to the limit, and touches authority only after all additional records and answers only after all authority records are gone |
| RecursiveCacheLaws.HitIsAged | recursive/cache.go:337-367 | built, stored and hit: every answer and authority record is served with a TTL at most its original one minus the elapsed time, before expiry, with the original code and no unvalidated AD bit |
| RecursiveCacheLaws.EntryExactly | recursive/recursive.go:1250-1288 | an entry holds exactly the answers the query name leads to, in order, exactly the believed authority and additional records, the code, the flags and the expiry |
| RecursiveCacheLaws.HitExactly | recursive/cache.go:337-367 | a hit serves every stored record, in order, with only the TTL changed, and all of the entry if the record limit does not trim it |
| RecursiveCacheLaws.AnswersServed | recursive/cache.go:337-367 | built, put and hit: every answer the query name leads to is served |
| RecursiveCacheLaws.PutThenHit | recursive/cache.go:275-317 | in any run what was just put is hit until it expires, and missed from then on |
| RecursiveCacheLaws.DropsExactly | recursive/cache.go:304-423 | a store drops nothing unless a new key finds its shard full; then all that is expired, and if need be one more that expires no later than any that stays |
| RecursiveCacheLaws.ReachableShards | recursive/cache.go:304-423 | over any run of stores of any entries and lookups each shard holds at most ceil(n/64) entries, each under its own key the last one stored there |
| RecursiveCacheLaws.ReachableTotal | recursive/cache.go:249-251 | over any run the cache holds at most n + 63 entries |
| Shards.ShardedTotal | recursive/cache.go:249-251 | shards within their rounded-up share of the cap hold at most 63 more than the cap together |
| RecursiveCacheLaws.HitMeaning | recursive/cache.go:275-299 | a hit in any run is the last entry stored under its key, unexpired; if that was built from a response, every record is served aged |
| Keys.CacheKeyInjective | recursive/cache.go:438-440 | the key string determines name, class and type |
| ForwardCache.Cache.constructor | forward/cache.go:47-56 | a new cache is empty |
| ForwardCache.Cache.Get | forward/cache.go:63-89 | a lookup does to the list of items what the specified lookup does: drop if expired, else move to the front |
| ForwardCache.Cache.Put | forward/cache.go:91-116 | a store does to the list what the specified store does, in place for an existing key |
| ForwardCache.Cache.DropBack | forward/cache.go:107-115 | the item at the back leaves list and map together |
| ForwardCache.Cache.Clear | forward/cache.go:127-137 | list and map are emptied together |
| ForwardCacheLaws.GetRefines | forward/cache.go:63-89 | a lookup on the list is a lookup on an LRU map kept by time stamps |
| ForwardCacheLaws.PutRefines | forward/cache.go:91-116 | a store on the list is a store on that LRU map, and what falls off is a least recently used key |
| ForwardCacheLaws.RunRefines | forward/cache.go:47-146 | every run of the cache is a run of the LRU map with the same hits and contents, never above capacity |
| ForwardCacheLaws.HitIsLast | forward/cache.go:63-89 | a hit in any run is the last value stored under the same name, type, class and DNSSEC-OK bit since the last clear, and unexpired |
| Keys.ForwardKeyInjective | forward/forward.go:392-398 | the key string determines name, type, class and DNSSEC-OK bit |
| Keys.ResolveKeyInjective | recursive/recursive.go:732-732 | the key string determines name and type |
| SingleFlight.InvStep | forward/forward.go:312-384 | every step of callers and goroutines keeps the invariant of map, semaphore and waiters |
| SingleFlightLaws.OneExchange | forward/forward.go:312-342 | in every interleaving at most one exchange per key is outstanding |
| SingleFlightLaws.EnterExactly | forward/forward.go:312-342 | a caller joins the call in flight for its key; without one it is turned away exactly when all slots are held, and otherwise starts an exchange |
| SingleFlightLaws.SlotsExact | forward/forward.go:351-361 | the slots held are exactly the goroutines that have not given theirs back, never above the cap, and giving back never finds none |
| SingleFlightLaws.DeletesOwn | forward/forward.go:353-356 | the deletion by key removes the goroutine's own call |
| SingleFlightLaws.ClosedOnce | forward/forward.go:353-361 | `done` is closed at most once per call |
| SingleFlightLaws.ClosedAfterResult | forward/forward.go:351-384 | `done` is closed only after the exchange set the result |
| SingleFlightLaws.WaiterGotOwn | forward/forward.go:336-341 | whatever a waiter returns was set by an exchange for its own question |
| SingleFlightLaws.SameCallSameResult | forward/forward.go:336-341 | all waiters of one call that return its result return the same one |
| SingleFlightLaws.ForwarderInjective | forward/forward.go:392-398 | the forwarder's keys tell questions apart, DNSSEC-OK bit included |
| SingleFlightLaws.ResolverInjective | recursive/recursive.go:732-760 | the recursive resolver's keys tell name and type apart |
| SingleFlightLaws.CancelInvisible | recursive/recursive.go:755-808 | without a waiter's cancellation the rest of the run is still possible and ends in the same state, that waiter aside |
| TokenBucket.Limiter.Take | recursive/upstream_ratelimit.go:64-101 | admission to an upstream server is the specified request with the cut-off refill; a rate of zero or less admits everything |
| TokenBucket.Limiter.Allow | middleware_ratelimit.go:155-181 | admission of a client is the specified request with the plain refill |
| TokenBucket.Limiter.Evict | recursive/upstream_ratelimit.go:108-132 | idle buckets go, and if the map is still full one refilled longest ago |
| TokenBucketLaws.CutIsExact | recursive/upstream_ratelimit.go:85-95 | cutting the elapsed time at burst/qps changes no refill |
| TokenBucketLaws.TokensInRange | middleware_ratelimit.go:155-181 | over any run with a clock that does not run back every bucket holds between zero and burst tokens |
| LimiterClocks.CutRunInRange | recursive/upstream_ratelimit.go:64-101 | over any run of the upstream limiter, whatever its clock does, every bucket holds between zero and burst tokens |
| LimiterClocks.RangeExactly | middleware_ratelimit.go:155-181 | a sequence of client requests leaves every bucket in range at every rate if and only if the time never runs back between requests of one key |
| LimiterClocks.DefaultRateDrained | middleware_ratelimit.go:170-175 | at ten per second and burst twenty, requests at three seconds and at zero leave minus eleven tokens |
| AdmissionBound.WindowBound | middleware_ratelimit.go:155-181 | for both limiters, with a clock that does not run back: in any window in which a key is not thrown out as oldest at most burst + qps * length of its requests are admitted |
| AdmissionBound.AnyClockBound | middleware_ratelimit.go:155-181 | for both limiters and clock readings in any order: at most burst + qps * (latest - earliest) requests of a key are admitted if a bucket it lost would always have been full again when the key comes back |
| AdmissionExact.BoundExactly | middleware_ratelimit.go:155-229 | for both limiters, given the keys that ask, the cap and how far readings can be out of order: that bound holds in every window of every run at every rate, for keys not thrown out as oldest, if and only if there is no cap, or room for all keys, or the readings are out of order by at most a second, half a second for clients |
| AdmissionExact.UnsafeExceeds | middleware_ratelimit.go:205-229 | for every other such setting a run from the empty map in which a key dropped as idle comes back too soon and is admitted once too often |
| AdmissionExact.StaleReadingExceeds | middleware_ratelimit.go:205-229 | a concrete run at one per second in which a key dropped as idle comes back with an old reading and gets five requests admitted where four are allowed |
| TokenBucketLaws.StepAgrees | middleware_ratelimit.go:205-229 | dropping idle buckets changes no decision: each equals that of a limiter that never drops them |
| TokenBucketLaws.MapCapped | recursive/upstream_ratelimit.go:108-132 | over any run, whatever its clock does, the map stays within its cap |
| TokenBucketLaws.DropsExactly | middleware_ratelimit.go:205-229 | a bucket is dropped only for a new key in a full map, and only if idle for its filling time and a second or refilled no later than all that stay |
| TokenBucketLaws.PoolCapped | internal/shardbucket/shardbucket.go:77-82 | the 64 shards of the client limiter, each anywhere in any run, hold at most n + 63 buckets |
| TokenBucketLaws.CutRunIsRun | recursive/upstream_ratelimit.go:64-132 | with a clock that does not run back every run of the upstream limiter is a run of the plain one, so all of this holds of it |

## Left out

- Sockets, TLS, QUIC, HTTP, dialers, timeouts, logging, option parsing, command line and web pages.
- Message packing and unpacking as a whole: only names, counters, the section walk and the signature record are read from bytes; elsewhere a message is its sections.
- Record data other than SOA, CNAME, NS and DNAME is a type and opaque bytes.
- The rebuild of a filtered forwarder message, and its fallback to the unfiltered message when rebuilding fails.
- The text form of names: the wildcard of a closest encloser is built through it, and the model states when that fails without modelling the text.
- Extraction of NSEC3 records from a validated response, and the response synthesised from a verdict.
- The NSEC index, whose key order is not the canonical one.
- The iterative walk from the roots, delegation glue, name minimisation and DNSSEC validation: resolution of one name is a parameter of the chase.
- The forwarder's TTL adjustment and entry construction.
- The response-rate limiter, whose eviction uses the largest class rate.
- Verification of signed envelopes inside the transfer reader: each envelope carries the outcome of that check.
- Policies, hooks and signing keys of UPDATE and transfers, beyond the order of checks.
- Floating-point rounding in the limiters: tokens are real numbers.
- The tables of type and class mnemonics: their injectivity is assumed where keys are told apart.
- Go's container/list: the recency list is a sequence of elements, updated in place by the cache.
- AXFR over an unfinished stream: an end of stream before the closing SOA is passed on as the code does, and nothing is claimed about completeness then.
- AdmissionBound.WindowBound: says nothing of a key thrown out as the oldest one, which starts again with a full bucket.
- AdmissionBound.AnyClockBound: goes one way, under a condition on the run; AdmissionExact.BoundExactly is the statement over what is known before a run.
- TokenBucketLaws.CutRunIsRun: assumes that the clock readings do not run backwards, because the two refills differ when they do.
- Nsec3Laws.LookupSound: assumes a zone without delegations and DNAMEs, because names below a cut exist in another zone.
