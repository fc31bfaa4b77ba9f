# CoreDNS-NetBox: from NetBox records to DNS answers

A Dafny model of the publication pipeline of a NetBox sidecar for CoreDNS, with proofs about it. Run
`dafny verify dfyconfig.toml` to check all of it.

The pipeline, and where each part is modelled:

- **Generator.** Records are sanitised, CNAME conflicts resolved, the set fingerprinted, and the zone either skipped or
  given a new serial and printed; a restarted process reads serial and fingerprint back from its own file.
  `Serial`, `Records`, `RecordOrder`, `Collisions`, `ZoneText`, `Stamps`, `ZoneFile`, `Fingerprint`, `Generator`,
  `ZoneHistory`. `ZoneReader` reads master files by section 5.1 of RFC 1035 and is the inverse the printer is proved against.
- **Merge and mirror.** NetBox zones are overlaid with dynamic records and their PTRs and mirrored to a directory.
  `ReverseNames`, `StripLabel`, `ZoneDir`, `ZoneManager`, `Mirror`, `Merge`. `Readback` reads the directory back, in terms of
  the settings, the zone names and the records given.
- **Poll loop.** An event loop with a shrink guard, operator consent, a gate on the first fetch, and readiness.
  `ShrinkGuard`, `PollLoop`.
- **Webhook.** Deliveries applied to a last-writer-wins store with manual pins, and the signal to the loop.
  `DynamicStore`, `Webhook`, `MergeSignal`.
- **Reload.** A dirty set, conditional fetches by content hash, a cache of parsed zones, and notification by serial.
  `DnsZone`, `ZoneUrl`, `Plugin`, `Reloader`, `ReloadProtocol`. `Replica` joins the ends: what a replica answers from the files the
  generator publishes.

`Wrappers`, `Strings`, `Decimal` and `Sorting` hold the text and map primitives.

How things are represented. Text is a sequence of characters. The hash is any function with 64 lower-case hex digits as
results; where a proof needs two texts told apart, it says which (`Separates` over a finite set of texts), since no such
function is injective on all texts. Clock readings, network outcomes, the order a Go map is iterated in and what the
network delivers are inputs. Concurrency is a state machine over its steps. Drop fractions are exact. Every object the
program updates in place is a class whose methods are proved against functions on its old state, and the lemmas are
about those functions.

What the proofs found about the program, each with the exact condition:

- `NextSerial` is not an advance when its guard carries a serial over 2^32 (`Serial.GuardLostAcrossTheWrap`), and a zone
  removed and recreated within one second reuses its serial (`ZoneHistory.RecreatedSerial`,
  `Replica.RecreatedReusesSerial`).
- The fingerprint is committed before the file is written, so a failed write is not tried again until the records change
  (`Generator.RepeatIsUnchanged`). A newline in an address defeats the fingerprint (`Fingerprint.NewlineDefeatsFingerprint`).
- The address line of the name server can stand beside a CNAME that spells the name in another letter case
  (`ZoneText.NSAddressExclusiveExactlyWhen`, `ZoneText.OtherLetterCaseBreaks`).
- A zone is written through a temporary file that may be the file of another zone, named like it with `.tmp` behind. If that
  other zone is then skipped as unchanged, it has no file until its records change (`Mirror.MissedExactlyWhen`,
  `Mirror.TmpPairLoses`); an update that only forgets such a zone counts a change where there is none
  (`Mirror.ChangedExactlyWhen`).
- A zone name with a slash puts its file below a directory, which no listing looks into: once no generator knows it the
  file stays for good, the replicas never see it, and the gate on the first fetch does not count it
  (`Mirror.MirrorExact`, `Mirror.SlashFileStays`, `Mirror.LooksEmptyExactlyWhen`). Zone names created over gRPC are not
  checked at all (internal/grpcserver/zone_service.go:28-34).
- On a fresh install the first merge without NetBox data publishes the dynamic zones and thereby closes the gate on every
  later merge until a fetch succeeds (`PollLoop.FilesFrozenUntilFetch`).
- Consent can publish a set with no zone records, over a published one and over the zones found at the start
  (`PollLoop.EmptiedExactlyWhen`, `PollLoop.ConsentEmpties`, `PollLoop.ConsentWipesCachedZones`);
  internal/shrinkguard/shrinkguard.go:129-134 says an empty set is deliberately not overridable and that the zones found
  must not be wiped either. The code is followed.
- A forced or webhook poll can push to the replicas before readiness (`PollLoop.UnreadyPushOverRun`), the order that
  cmd/sidecar/main.go:401-404 warns against.
- Webhook deletes look at no time (`Webhook.DeleteIgnoresTime`), ties go to the first delivery
  (`Webhook.TwoCommuteExactlyWhen`), and deletes, renames and unpublished statuses can add an empty zone
  (`Webhook.EmptyZoneExactlyWhen`). A store write that is not persisted stays in memory (`Webhook.FailedWriteIsInMemory`).
- A merge signal taken while the gate on the merges is closed is lost, as for the first delivery after a restart with NetBox
  down (`MergeSignal.GatedTakeLosesExactlyWhen`, `MergeSignal.CachedZonesLose`, `MergeSignal.FreshInstallLoses`); once a fetch
  has been accepted none is (`MergeSignal.StaleMeansCalledOnceFetched`). A merge that fails after reading, or a handler that
  errors after its first write, loses one too (`MergeSignal.FailedMergeLosesExactlyWhen`, `MergeSignal.FirstMergeFailsLoses`,
  `MergeSignal.ErrorLosesExactlyWhen`, `MergeSignal.ErrorWhileReadingLoses`).
- A configured IPv6 zone of more than 32 labels makes every IPv6 lookup panic (`ReverseNames.PanicsExactlyWhen`,
  `ReverseNames.OneLabelTooMany`).
- A zone name with an empty label gives a file that is listed and never served, and no reload succeeds while it is there
  (`Plugin.UnservableFileBlocksReload`, `Replica.EmptyLabelUnservable`). A zone name with a question mark or a hash is
  fetched under the name before it, and served from that zone's file or blocking every reload
  (`Plugin.ListingServableExactlyWhen`, `Plugin.CutNameServesAnother`). A zone name with upper-case letters is loaded
  and never found (`Replica.ReachableExactlyWhenLower`).
- A restarted sidecar forgets which replicas still owed a reload (`ReloadProtocol.RestartKeepsExactlyWhen`,
  `ReloadProtocol.RestartForgets`), and an update that fails half-way tells no replica of what it wrote
  (`ReloadProtocol.FailedWriteKeepsExactlyWhen`, `ReloadProtocol.FailedWriteUntold`).
- docs/dc-label-stripping.md:60-61 says that names are stripped before zone discovery; the code strips afterwards, which is
  the same thing exactly for zone depths up to the label count of the domain suffix (`StripLabel.CommutesExactlyWhen`).
- The examples `172.16.in-addr.arpa` (cmd/analyzer/main.go:43) and `b.8.0.d.0.1.2.0.ip6.arpa` (docs/configuration.md:118,
  internal/config/config.go:83) match other addresses than intended, and only those (`ReverseNames.ExampleCovers`,
  `ReverseNames.ExampleCoversV6`); the code's matching is what is modelled.

## Model

| member | source | states |
|---|---|---|
| Serial.NeverReused | internal/zonegen/serial.go:45-61 | one write never republishes the serial the zone holds |
| Serial.AdvancesExactlyWhen | internal/zonegen/serial.go:45-61 | the new serial is newer in the arithmetic of section 3.2 of RFC 1982 iff the clock is less than half the number space ahead, and a reset steps back more than half of it |
| Serial.RunFollowsCounter | internal/zonegen/serial.go:45-61 | over a run the 32-bit register equals an unbounded counter modulo 2^32, wraps of the number space included |
| Serial.RunAdvances | internal/zonegen/serial.go:45-61 | every published serial is newer than the one before it, across the 2106 wrap too, while gaps stay below 2^31 and no drift is carried over a wrap |
| Serial.RunBeforeTheWrap | internal/zonegen/serial.go:45-61 | with a non-decreasing clock a run is strictly increasing, ahead of the clock by at most the number of writes, and never resets |
| Serial.LegacySerialResetsOnce | internal/zonegen/serial.go:45-61 | a serial of the old scheme takes the clock at the first write and no later write of the run resets |
| Serial.GuardLostAcrossTheWrap | internal/zonegen/serial.go:45-61 | three writes in the last second before the wrap publish 2^32-1, 0 and 2^32-1: the last is not newer |
| Collisions.ResolveCNAMECollisions | internal/zonegen/collisions.go:25-77 | the two passes with their tables compute the filter the lemmas below are about |
| Collisions.ResolveIsExclusive | internal/zonegen/collisions.go:25-77 | at most one CNAME per owner, none beside data, none at the apex, none without a target (section 3.6.2 of RFC 1034) |
| Collisions.DataSurvives | internal/zonegen/collisions.go:25-77 | every record that is no CNAME survives, in order |
| Collisions.ResolveIsMaximal | internal/zonegen/collisions.go:25-77 | an owner holds a CNAME afterwards iff some claim there was eligible, and it is the first eligible one |
| Collisions.AliasKeptExactlyWhen | internal/zonegen/collisions.go:25-77 | a CNAME is published iff it is the first given for its owner that has a target, at an owner off the apex, without data, whose claims all name one target |
| Collisions.ResolveIsIdempotent | internal/zonegen/collisions.go:25-77 | filtering twice is filtering once |
| Collisions.ResolveIgnoresAddressOrder | internal/zonegen/collisions.go:25-77 | reordering the input, CNAMEs keeping their relative order, keeps the same records |
| Collisions.FirstSpellingWins | internal/zonegen/collisions.go:25-77 | of two spellings of one alias the first given is published: the order of CNAMEs does matter |
| RecordOrder.OrderIsTotal | internal/zonegen/generator.go:365-391 | only records alike in every field the generator sees are unordered |
| RecordOrder.OrderIsTransitive | internal/zonegen/generator.go:365-391 | the order is transitive |
| RecordOrder.SortIgnoresInputOrder | internal/zonegen/generator.go:365-391 | any two sortings of permuted records look alike position by position |
| RecordOrder.SortedByName | internal/zonegen/generator.go:365-391 | a sorted zone goes by name, and within a name by address |
| ZoneText.DropUnsafeNames | internal/zonegen/generator.go:137-159 | the copy-on-first-drop loop keeps exactly the records whose names are safe, in order |
| ZoneReader.SafeNameExactlyWhen | internal/zonegen/generator.go:107-129 | which names are safe, letter by letter: word characters at both ends and beside every dot, nothing but those, hyphens and dots, no label over 63 characters, and 253 in all |
| ZoneText.Render | internal/zonegen/generator.go:184-251 | the text written step by step is the header, the name server address, and the sorted records line by line |
| ZoneText.PlainIgnoresOrder | internal/zonegen/generator.go:207-251 | the file does not depend on input order nor on which sort is used |
| ZoneText.NSAddressExclusiveExactlyWhen | internal/zonegen/generator.go:323-339 | the address line written for the name server keeps CNAME exclusivity iff no CNAME owns that name in any letter case |
| ZoneText.NSAddressSafeWhenCaseMatches | internal/zonegen/generator.go:323-339 | it does when names that are equal up to case are spelled alike |
| ZoneText.OtherLetterCaseBreaks | internal/zonegen/generator.go:323-339 | and it does not for a CNAME at NS1.x in the zone x of the name server ns1.x |
| Stamps.HashBody | internal/zonegen/generator.go:288-298 | the loop hashes exactly the text without its fingerprint comments |
| Stamps.WithFingerprints | internal/zonegen/generator.go:271-284 | the two comments go in after the $TTL line and nothing else changes |
| Stamps.ReadVerifiedContentHash | internal/zonegen/generator.go:451-479 | the scan with its early exit returns the fingerprint only if the body still hashes to its own |
| Stamps.StampKeepsBody | internal/zonegen/generator.go:271-298 | stamping leaves the hashed body as it was |
| Stamps.StampRoundTrip | internal/zonegen/generator.go:271-479 | reading a stamped file gives back the fingerprint it was stamped with |
| Stamps.TrustedExactlyWhenBodyIntact | internal/zonegen/generator.go:451-479 | with both comments intact a file is trusted iff its body is the one they were computed from |
| ZoneFile.RenderedIsStampable | internal/zonegen/generator.go:184-204 | every rendered zone has a newline-terminated $TTL line as its second line and no fingerprint before it |
| ZoneFile.CommentsLook | internal/zonegen/generator.go:271-297 | the third and fourth lines of a file are the two comments, with the fingerprint given and the hash of the text without them |
| ZoneFile.SerialRoundTrip | internal/zonegen/generator.go:484-522 | a restarted process reads back the rendered serial iff it has ten digits, that is from 1000000000 to 2^32-1 |
| ZoneReader.ShortNameExpands | internal/zonegen/generator.go:343-361 | on a safe name, expanding the short name against the origin gives the name back, dot-terminated |
| ZoneReader.RecordReadsBack | internal/zonegen/generator.go:213-251 | each rendered record line is read as that record: absolute owner, TTL, type, value |
| ZoneReader.PrintedZoneReadsBack | internal/zonegen/generator.go:184-256 | reading a published file by section 5.1 of RFC 1035 gives exactly the SOA, NS, name server address and the record multiset |
| Fingerprint.HashRecords | internal/zonegen/generator.go:425-437 | sorting and hashing in a loop hashes the same text whatever the sort |
| Fingerprint.RecTextInjective | internal/zonegen/generator.go:434-436 | the hashed line of a record determines every printed field, even when the address holds the separator |
| Fingerprint.EqualFingerprintEqualFile | internal/zonegen/generator.go:409-437 | equal fingerprints mean equal configuration and, at every serial, equal files |
| Fingerprint.FingerprintIgnoresOrder | internal/zonegen/generator.go:425-437 | the fingerprint does not depend on record order |
| Fingerprint.NewlineDefeatsFingerprint | internal/zonegen/generator.go:434-436 | an address holding a newline gives one record the fingerprint of two |
| Generator.Generator.constructor | internal/zonegen/generator.go:77-99 | a new generator knows the serial and the verified fingerprint of the file it finds, and default timers for zero ones |
| Generator.Generator.Generate | internal/zonegen/generator.go:164-256 | sanitise, resolve, fingerprint, then skip, or bump, render and stamp: the whole new state and result |
| Generator.SkipSoundness | internal/zonegen/generator.go:164-176 | unchanged is answered only when the file already is, byte for byte, the rendering of the given records under the present configuration |
| Generator.RestartRemembers | internal/zonegen/generator.go:77-99 | a restarted process recovers fingerprint and serial of the version on disk |
| Generator.AlteredBodyRewritten | internal/zonegen/generator.go:77-99 | a file whose body was altered with its comments intact is rewritten whatever the records |
| Generator.RepeatIsUnchanged | internal/zonegen/generator.go:164-256 | generating the same records again never writes, even if the first write was lost: the hash is committed before the write |
| Generator.GenerateIgnoresOrder | internal/zonegen/generator.go:164-256 | record order, CNAMEs aside, changes neither state nor file |
| ZoneHistory.RunKeeps | internal/zonegen/generator.go:77-256 | over any run of updates and restarts the file on disk is the last version and a running generator remembers exactly it |
| ZoneHistory.SerialIdentifiesVersion | internal/zonegen/generator.go:77-256 | two versions published over a whole run with one serial are the same file |
| ZoneHistory.UpdateShowsRecords | internal/zonegen/generator.go:77-256 | after any update of any run, written or skipped, the file is the rendering of the records just given |
| ZoneHistory.RecreatedSerial | internal/zonemanager/manager.go:154-199 | a zone removed and recreated restarts at the clock: its serial exceeds its predecessor iff the clock does |
| ZoneManager.Manager.Update | internal/zonemanager/manager.go:53-122 | the new memories, the new directory and the three counters, from sorted iteration, files written through their temporary names, and two orphan passes; a zone met after its file was overwritten as the temporary file of another finds none |
| ZoneManager.OutcomesAre | internal/zonemanager/manager.go:64-94 | each zone is generated from what was known of it before the update and from what is left of its file when its turn comes |
| ZoneDir.WriteFile | internal/zonegen/generator.go:300-319 | a file is written beside its path and renamed, so that whatever had the temporary name is gone |
| ZoneManager.Manager.RemoveOrphans | internal/zonemanager/manager.go:154-199 | exactly the inactive zones go that a generator still knows or a listing shows, each counted once; a file below a directory, of a zone with a slash in its name, is no listing entry |
| ZoneManager.Manager.HasExistingZones | internal/zonemanager/manager.go:127-138 | true iff a listing shows some zone file |
| ZoneManager.UpdateIsUnique | internal/zonemanager/manager.go:53-122 | the update relation has one result |
| ZoneManager.CountersMean | internal/zonemanager/manager.go:83-122 | created and updated together are the zones written, the one only where there was no generator and the other only where there was; deleted are the zones gone that had a generator or a listed file |
| Readback.UpdateReadsBack | internal/zonemanager/manager.go:53-122 | after an update the file of every zone of the map that is not missed reads as its records: PTRs in a zone named in in-addr.arpa or ip6.arpa, in any other addresses, the aliases that do not collide, and the address of the name server where no record has its name; with SOA, NS and TTL of the settings |
| Mirror.MirrorExact | internal/zonemanager/manager.go:53-199 | after an update a zone of the map has its file, the rendering of its sanitised records, or, exactly when it is missed, none; a listing shows the flat ones that have theirs and no other; no other zone has a file at all iff none had one out of sight, slashed and not of a running generator |
| Mirror.MissedExactlyWhen | internal/zonemanager/manager.go:90-105 | a zone is missed iff its generator runs, its records have the fingerprint of the last time, and its file had gone before or goes as the temporary file of a zone that is written |
| Mirror.TmpPairLoses | internal/zonegen/generator.go:300-319 | it is reachable from an empty directory: a zone and the one named after its temporary file, the first changed and the other not, and the file of the other is gone for good |
| Mirror.SlashFileStays | internal/zonemanager/manager.go:154-199 | and the other failure: the file of a zone with a slash stays after a restart without the zone, and no listing shows it |
| Mirror.ChangedExactlyWhen | internal/zonemanager/manager.go:53-199 | something is counted created, updated or deleted iff the directory is not what it was or a zone was forgotten whose file had gone before |
| Mirror.RepeatChangesNothing | internal/zonemanager/manager.go:53-199 | updating again with the same map changes no file, no memory and counts nothing |
| Mirror.UpdateIgnoresOrder | internal/zonemanager/manager.go:53-122 | record order, CNAMEs aside, does not show in directory or memory |
| Mirror.RunShows | internal/zonemanager/manager.go:53-199 | over any run of updates and restarts, from files untrusted or rendered here, after every update a file of a zone of the map shows the records given and a listing shows no other zone |
| Mirror.RunMirrors | internal/zonemanager/manager.go:53-199 | where every zone remembered has its file, every update of a run leaves its map mirrored iff none skips a zone whose file is the temporary file of one it writes |
| Mirror.FlatRunMirrorsExactly | internal/zonemanager/manager.go:53-199 | where no zone name has a slash and no map holds a zone with the one named after its temporary file, over any run the zone files are exactly one per zone of the map |
| Mirror.LooksEmptyExactlyWhen | internal/zonemanager/manager.go:127-138 | the directory looks empty to the gate iff every zone file in it has a slash in its name |
| Merge.Merged | internal/merge/merge.go:29-87 | the two loops over Go maps compute the overlay of dynamic records and PTRs in any iteration order, or panic iff a dynamic record makes the discoverer panic |
| Merge.MergedMeans | internal/merge/merge.go:29-80 | which zones a merge gives and how often each holds a record: the PTRs of the dynamic records placed there, and, where none of those has its label, the dynamic records of the zone and the NetBox records whose name none of those has |
| Merge.Write | internal/merge/merge.go:20-105 | merge, mirror, and report a change iff the manager counted one; a panic writes nothing |
| Merge.MergeIgnoresOrder | internal/merge/merge.go:29-87 | two listing orders of the store give maps equal up to the order of non-CNAME records |
| Merge.WriteIgnoresOrder | internal/merge/merge.go:20-105 | so the directory and the memory are the same for every iteration order |
| Merge.MergeMirrors | internal/merge/merge.go:20-105 | a merge leaves its zones mirrored iff it misses none, and reports a change iff the directory changed or a zone was forgotten whose file had gone; merging again under any other listing order changes and counts nothing |
| Merge.PanicsIgnoresOrder | internal/merge/merge.go:63-67 | whether it panics does not depend on the listing order |
| Merge.DynamicShadowsNames | internal/merge/merge.go:46-60 | a dynamic name belongs to the dynamic store alone, other names are untouched |
| Merge.PtrShadowedExactlyWhen | internal/merge/merge.go:63-80 | a NetBox PTR is removed iff a dynamic record placed in the zone has the same address |
| ReverseNames.ReverseIPv4 | internal/zonediscovery/reverse.go:91-151 | the loop finds the deepest configured zone and the label there |
| ReverseNames.ReverseIPv6 | internal/zonediscovery/reverse.go:155-221 | the same over nibbles, or the index panic |
| ReverseNames.ReverseInPlace | internal/zonediscovery/reverse.go:176-178 | the swapping loop reverses the nibbles in place |
| ReverseNames.Discover | internal/zonediscovery/reverse.go:33-82 | it panics iff some record does; otherwise the result groups, for each zone, exactly the PTRs of the records placed there, in order |
| ReverseNames.ReverseNameReadsBack | internal/zonediscovery/reverse.go:91-221 | the reverse name of an address, read from the right by section 3.5 of RFC 1035 and section 2.5 of RFC 3596, is that address |
| ReverseNames.NetworkMatches | internal/zonediscovery/reverse.go:107-139 | the zone named after the first k octets or nibbles of one address matches another iff they agree on those |
| ReverseNames.PlacedByNumbers | internal/zonediscovery/reverse.go:91-221 | of the configured zones named after its first numbers an address falls in the one named after the most, under the remaining numbers written backwards; in none iff none is so named |
| ReverseNames.PtrExactlyWhen | internal/zonediscovery/reverse.go:33-82 | which records have a PTR in a zone, and that PTR field by field |
| ReverseNames.PlacedInDeepestZone | internal/zonediscovery/reverse.go:91-221 | an address is placed iff a configured zone is a suffix of its reverse name, in the deepest such zone, and its label expands to the full reverse name (section 2.5 of RFC 3596, section 3.5 of RFC 1035) |
| ReverseNames.LabelIdentifiesAddress | internal/zonediscovery/reverse.go:91-221 | within a zone labels are equal iff addresses are |
| ReverseNames.PanicsExactlyWhen | internal/zonediscovery/reverse.go:198-203 | the IPv6 loop indexes out of range iff a configured zone has more than 32 labels |
| ReverseNames.OneLabelTooMany | internal/zonediscovery/reverse.go:198-203 | a configured zone of 33 labels makes every IPv6 address panic |
| ReverseNames.ExampleCovers | cmd/analyzer/main.go:43 | the default zone 172.16.in-addr.arpa matches exactly 16.172.0.0/16 |
| ReverseNames.ExampleCoversV6 | docs/configuration.md:118 | the example b.8.0.d.0.1.2.0.ip6.arpa matches exactly 210:d08b::/32 |
| StripLabel.StripDCLabel | internal/zonediscovery/strip_dc.go:14-28 | the loop strips name and target of every record |
| StripLabel.StrippingMeans | internal/zonediscovery/strip_dc.go:14-48 | of every record the name and the target lose the label before the domain suffix, if they have one to spare, and nothing else changes |
| StripLabel.DiscoverByDepth | internal/zonediscovery/zone_depth.go:17-33 | the loop groups records by the last labels of their names, and a depth below two is an error |
| StripLabel.ZoneOfExactlyWhen | internal/zonediscovery/zone_depth.go:17-33 | the zone of a name is what it is or ends in after a dot, with as many labels as the depth |
| StripLabel.CommutesExactlyWhen | internal/zonediscovery/strip_dc.go:14-48 | stripping after discovery equals stripping before it for every record set iff the zone depth is at most the label count of the domain suffix |
| StripLabel.PtrZonesCommute | cmd/sidecar/main.go:337-341 | PTR zones commute with stripping unconditionally |
| ShrinkGuard.FromZoneCounts | internal/shrinkguard/shrinkguard.go:80-87 | the total is the sum of the zones in whatever order they come |
| ShrinkGuard.Evaluate | internal/shrinkguard/shrinkguard.go:157-199 | the verdict refuses iff one of the rules does and names the largest tripping drop, least name among equals |
| ShrinkGuard.RefusedExactlyWhen | internal/shrinkguard/shrinkguard.go:135-219 | a set is refused iff it is empty over something, or the guard is on and the total or some zone fell by more than the floor and more than the share allowed |
| ShrinkGuard.VerdictQuotes | internal/shrinkguard/shrinkguard.go:157-199 | a refusal quotes the counts before and after of what was refused, and their difference |
| ShrinkGuard.NamedZoneFellMost | internal/shrinkguard/shrinkguard.go:176-199 | no other zone beyond floor and share fell further than the one named, or as far with a lesser name |
| ShrinkGuard.VerdictIsUnique | internal/shrinkguard/shrinkguard.go:157-199 | the verdict does not depend on map order |
| ShrinkGuard.RefusalIsAntiMonotone | internal/shrinkguard/shrinkguard.go:135-219 | a candidate pointwise below a refused one is refused |
| ShrinkGuard.RunNeverEmpties | internal/shrinkguard/shrinkguard.go:135-199 | without consent a set that was not empty never becomes empty |
| ShrinkGuard.RunBound | internal/shrinkguard/shrinkguard.go:157-219 | k accepted polls leave at least (1-f)^k of the total while it stays at or above minRecords/f |
| PollLoop.PollLoop.FetchNetbox | cmd/sidecar/main.go:566-646 | when a fetch is accepted, what it yields, and when consent is spent |
| PollLoop.PollLoop.DoFetchNetbox | cmd/sidecar/main.go:328-351 | an accepted fetch replaces the baseline, a refused one nothing |
| PollLoop.AcceptedZones | cmd/sidecar/main.go:328-351 | after an accepted fetch every record found is merged as it is, or, when stripping is on, without the label before the domain suffix in name and target |
| PollLoop.AcceptedCounts | cmd/sidecar/main.go:615-624 | and the baseline counts the records of every zone found, and their sum |
| PollLoop.PollLoop.OnTick | cmd/sidecar/main.go:453-491 | one tick: fetch, guarded merge, readiness before push, and the push: a reload after a change, else a reconcile |
| PollLoop.PollLoop.OnWebhookPollSignal | cmd/sidecar/main.go:504-519 | one webhook poll behind its cooldown |
| PollLoop.PushesExactlyWhen | cmd/sidecar/main.go:359-519 | one event: a merge runs iff a fetch has been accepted or no zone file is there; a change without error is followed by a reload with the files it left, no change by a reconcile after a tick and by nothing after any other event |
| PollLoop.FirstPollPushes | cmd/sidecar/main.go:387-412 | the first poll reloads after a change and pushes nothing else |
| PollLoop.ChangeIsPushed | cmd/sidecar/main.go:359-519 | over any run a successful merge that changes something is what the replicas are told of next, with exactly its files |
| PollLoop.ReplicasAreTold | cmd/sidecar/main.go:387-519 | over a whole run whose merges do not fail, the replicas were last told of exactly the files that are there |
| PollLoop.GuardedPublication | cmd/sidecar/main.go:324-365 | over any run, with consent given before, during or after the first fetch, every accepted fetch passed the guard against the one before or spent a consent, consents honoured never exceed those given, raw-empty is never accepted over a baseline or zones found at start, and the baseline counts the published zones |
| PollLoop.CachedZonesUntouched | cmd/sidecar/main.go:359-365 | zone files found at the start are untouched until the first accepted fetch |
| PollLoop.FilesFrozenUntilFetch | cmd/sidecar/main.go:562-564 | the same holds of files a first merge without NetBox data published: it closes the gate on every later one |
| PollLoop.EmptiedExactlyWhen | cmd/sidecar/main.go:588-635 | a set with no zone records replaces a non-empty one, or the zones found at the start, iff NetBox returned records, none reached a zone, and consent was armed |
| PollLoop.ConsentEmpties | cmd/sidecar/main.go:588-635 | and it is reachable: a first set, consent, then a poll whose records reach no zone |
| PollLoop.ConsentWipesCachedZones | cmd/sidecar/main.go:588-635 | for the zones of a previous run too: consent after a failed first fetch, or before the first, and their files are gone |
| PollLoop.UnarmedRunBound | cmd/sidecar/main.go:566-646 | over a run without consent, from a first set with records or over zones found at the start, the published total never becomes zero and shrinks no faster than the guard lets it |
| PollLoop.WebhookPollsSpacedFromBoot | cmd/sidecar/main.go:504-519 | over any run from the start webhook-triggered polls keep the configured distance |
| PollLoop.UnreadyPushExactlyWhen | cmd/sidecar/main.go:404-501 | one event: when readiness comes and when a push precedes it |
| PollLoop.UnreadyPushOverRun | cmd/sidecar/main.go:387-501 | over a whole run a push finds the process unready iff no zone file was there at the start, the first merge failed, and an event other than a tick merges with a change before any tick merges |
| PollLoop.ForcedPollPushesUnready | cmd/sidecar/main.go:433-446 | and it is reachable: a failed first merge, then a forced poll |
| DynamicStore.UpsertInto | internal/dynamicstore/file_store.go:158-174 | the index-by-name loop replaces the last record of a name or appends |
| DynamicStore.FileStore.BatchUpsert | internal/dynamicstore/file_store.go:114-121 | every zone upserted once in any order |
| DynamicStore.FileStore.ReconcileWebhookSourced | internal/dynamicstore/file_store.go:134-155 | exactly the webhook records older than the cutoff go, and an error needs something to have gone |
| DynamicStore.ReconciledMeans | internal/dynamicstore/file_store.go:134-155 | exactly the webhook records applied before the cutoff are gone, every other is there as often as it was |
| DynamicStore.UpsertMeans | internal/dynamicstore/file_store.go:158-174 | after an upsert the name holds the record, every other name what it held, names stay distinct |
| DynamicStore.UpsertKeepsPlaces | internal/dynamicstore/file_store.go:158-174 | an upsert keeps every record of another name in its place and adds one only if the name is new |
| DynamicStore.DeleteMeans | internal/dynamicstore/file_store.go:177-190 | after a delete the names are gone, others hold what they held |
| Webhook.Handler.Serve | internal/netboxwebhook/handler.go:108-162 | one delivery: the new store, the outcome, and the two signals, also when one of its writes is not persisted |
| Webhook.PublishedMeans | internal/netboxwebhook/handler.go:233-307 | a published create or update, renames included, whose writes persist: the name holds the later of what it held and the payload, the name it had before is gone from its zone unless pinned, every other name of every zone holds what it held |
| Webhook.PublishedOutcome | internal/netboxwebhook/handler.go:253-307 | it ends in applied iff an old name was removed or a later record put |
| Webhook.UnpublishedMeans | internal/netboxwebhook/handler.go:309-332 | an unpublished status: its names are gone from their zones unless pinned, others hold what they held, and it ends in applied iff one of them has a zone and is not pinned |
| Webhook.DeletedMeans | internal/netboxwebhook/handler.go:189-215 | a delete takes its name out of its zone unless pinned and touches no other |
| Webhook.NamelessMeans | internal/netboxwebhook/handler.go:152-196 | a delivery without a name asks for a poll, one that does not parse fails, and neither writes |
| Webhook.ManualPinsSurvive | internal/netboxwebhook/handler.go:189-357 | any sequence of deliveries and reconciliations leaves the manual records of every zone as they were, in order, and names distinct |
| Webhook.DeliveriesHold | internal/netboxwebhook/handler.go:233-357 | after any sequence of plain deliveries a name holds the fold of the later-wins rule over the deliveries of that name |
| Webhook.DeliveriesConfluent | internal/netboxwebhook/handler.go:338-357 | every delivery order leaves per name the same record, one delivered or the one held, with the greatest time, when times of a name differ |
| Webhook.TwoCommuteExactlyWhen | internal/netboxwebhook/handler.go:338-357 | two deliveries of a name commute iff their times differ or their records are the same: on a tie the first wins |
| Webhook.DeleteIgnoresTime | internal/netboxwebhook/handler.go:189-215 | a delete removes a later record, and an older upsert after it puts its record back |
| Webhook.EmptyZoneExactlyWhen | internal/netboxwebhook/handler.go:189-332 | a delivery, persisted or not, leaves an empty entry for a zone the store did not have iff a name it removes belongs there and the name it puts does not: deletes, renames and unpublished statuses |
| Webhook.FailedDeliveryAddsNoMore | internal/netboxwebhook/handler.go:189-332 | a delivery that fails on a write adds no other zones |
| Webhook.FailedWriteIsInMemory | internal/netboxwebhook/handler.go:189-357 | whatever the delivery, a write that is not persisted ends it in an error with the store as it is after the writes up to that one; without one all its writes are made |
| MergeSignal.StaleMeansCalled | internal/netboxwebhook/handler.go:111-128 | in every interleaving, of deliveries that write once or more and signal once, no wakeup is ever lost iff no token is taken in vain while the gate is closed; then a store not yet merged means a pending token, a handler before its send, or a loop still reading |
| MergeSignal.StaleMeansCalledOnceFetched | cmd/sidecar/main.go:359-365 | once a fetch is accepted, whatever was lost before, nothing is lost in any continuation |
| MergeSignal.StaleMeansCalledFromStart | cmd/sidecar/main.go:387-412 | from a start without zone files, where the first merge goes ahead though its fetch fails: again nothing is lost iff no token is taken in vain |
| MergeSignal.GatedTakeLosesExactlyWhen | cmd/sidecar/main.go:359-365 | a token taken while the gate is closed loses its wakeup iff no other handler will call and the store is not published |
| MergeSignal.FrozenUntilFetched | cmd/sidecar/main.go:359-365 | while the gate is closed nothing is published until a fetch is accepted |
| MergeSignal.CachedZonesLose | cmd/sidecar/main.go:387-412 | it is reachable: a restart beside zone files with NetBox down, and one delivery |
| MergeSignal.FreshInstallLoses | cmd/sidecar/main.go:387-412 | and on a fresh install with NetBox down, once the first merge has published a dynamic zone |
| MergeSignal.LoopFinishes | cmd/sidecar/main.go:496-502 | undisturbed, the loop publishes what it has read and the rest of the store as it is |
| MergeSignal.AcceptedPollPublishes | cmd/sidecar/main.go:328-365 | an accepted poll, left alone, publishes the store as it reconciled it |
| MergeSignal.NoWakeupLostMeans | cmd/sidecar/main.go:496-502 | the invariant says: a merge is still called for, or the loop is on its way to publish the store |
| MergeSignal.QuietMeansPublished | cmd/sidecar/main.go:496-502 | at rest after an accepted fetch the last merge has seen exactly the store |
| MergeSignal.FailedMergeLosesExactlyWhen | cmd/sidecar/main.go:496-502 | a merge that fails after reading loses its wakeup iff nothing else is pending and what it read was not published |
| MergeSignal.FirstMergeFailsLoses | cmd/sidecar/main.go:387-412 | as the first merge of a program that starts with a dynamic zone |
| MergeSignal.ErrorLosesExactlyWhen | internal/netboxwebhook/handler.go:111-118 | after any run, whatever the loop is doing, a handler that errors after a write loses the change iff no token and no other handler is left and the loop is not on its way to publish the store |
| MergeSignal.ErrorWhileReadingLoses | internal/netboxwebhook/handler.go:111-118 | and it is reachable while the loop reads |
| DnsZone.Answer | coredns/plugins/netboxreload/zones.go:29-51 | the loop ends on every zone and computes the chase |
| DnsZone.ChaseFollowsPath | coredns/plugins/netboxreload/zones.go:29-51 | the answer is the CNAMEs along one path of owners, none visited twice, then the matching records at its end |
| DnsZone.AnswersTheQuestion | coredns/plugins/netboxreload/zones.go:29-51 | an answer holds records of the type asked for, all for ANY, and CNAMEs; where the owner has records of the type, exactly those as often as it has them |
| DnsZone.FollowsExactlyWhen | coredns/plugins/netboxreload/zones.go:29-51 | a CNAME is followed, to its target in lower case, iff the owner has one and no record of the type asked for |
| DnsZone.AliasEquationExactlyWhen | coredns/plugins/netboxreload/zones.go:29-51 | the answer at an alias is its CNAME and then the answer at its target iff the alias is not on the path from its target |
| DnsZone.AcyclicAnswers | coredns/plugins/netboxreload/zones.go:29-51 | so the equation of section 4.3.2 of RFC 1034 holds at every alias of a zone iff no alias leads back to itself |
| Plugin.ParseZoneContent | coredns/plugins/netboxreload/zones.go:55-70 | the loop groups the records read by lower-case owner |
| ZoneUrl.AsksForItselfExactlyWhen | coredns/plugins/netboxreload/fetch.go:36-46 | a name put into the URL as it is asks for its own file iff it has no question mark, hash, percent sign or control character |
| Plugin.FetchZoneFile | coredns/plugins/netboxreload/fetch.go:63-91 | a conditional fetch succeeds iff an unconditional one would, gives the zone parsed from what the server answers for the path requested, and reuses the zone it had iff the content is the same |
| Plugin.FetchZones | coredns/plugins/netboxreload/fetch.go:19-48 | the loop fills zones and cache from every listed file, or fails |
| Plugin.Plugin.ReloadZones | coredns/plugins/netboxreload/plugin.go:139-187 | success iff every listed file can be fetched and parsed; then the zones served are those an empty cache would give of the files as the server answers for them, and a change is reported iff the listing or the hash of some content is not that of the cache; failure touches nothing |
| Plugin.Differs | coredns/plugins/netboxreload/plugin.go:154-162 | comparing sizes and identities over one cache decides equality of both |
| Plugin.NotModifiedMeansSame | internal/zoneserver/server.go:74-81 | a not-modified answer means the cached zone is the parse of the present content |
| Plugin.ServableExactlyWhen | internal/zoneserver/server.go:41-45 | the server answers for a zone file iff the zone name has no slash, no two dots together and no leading dot |
| Plugin.ListingServableExactlyWhen | internal/zoneserver/server.go:24-45 | every listed file is asked for by its own name and answered iff no listed zone name begins with a dot, has two together, or holds a character with a meaning in a URL; then a replica sees the directory itself |
| Plugin.CutNameServesAnother | coredns/plugins/netboxreload/fetch.go:36-46 | a zone named a?b or a#b is parsed from the file of the zone a, or, without one, no reload succeeds |
| Plugin.UnservableFileBlocksReload | coredns/plugins/netboxreload/fetch.go:36-46 | one listed file with a leading dot or two together makes every reload of every replica fail |
| Plugin.FindZone | coredns/plugins/netboxreload/plugin.go:96-108 | the walk up the labels computes the specification below |
| Plugin.FindsDeepest | coredns/plugins/netboxreload/plugin.go:96-108 | a query in some zone is answered from the deepest such zone |
| Plugin.Transfer | coredns/plugins/netboxreload/plugin.go:207-240 | SOA, every other record exactly as often as the zone holds it, SOA; only the SOA to a current client; nothing without one |
| Plugin.Plugin.TransferZone | coredns/plugins/netboxreload/plugin.go:193-242 | the same for a served zone by its name, and an error for any other |
| Plugin.CollectedAreKeyed | coredns/plugins/netboxreload/zones.go:55-70 | every served zone keeps its records under their owners, which the transfer relies on |
| Plugin.SerialChangedZones | coredns/plugins/netboxreload/notify.go:51-70 | sorted, exactly the zones with a serial that are new or whose serial differs |
| Replica.PublishedIsHeld | coredns/plugins/netboxreload/zones.go:55-70 | a replica loading a published file holds exactly the published records by owner |
| Replica.GeneratedIsHeld | internal/zonegen/generator.go:164-256 | what is held of a zone the generator wrote is exactly the sanitised records it was given |
| Replica.HeldSerial | coredns/plugins/netboxreload/notify.go:34-41 | the serial a replica compares is the serial published, for a zone name in lower case |
| Replica.NotifiedExactlyWhenRewritten | coredns/plugins/netboxreload/notify.go:51-70 | between two versions of one run secondaries are notified iff the versions differ |
| Replica.NotifiedExactlyWhenNew | coredns/plugins/netboxreload/notify.go:51-70 | of a published zone in lower case secondaries are notified iff it was not served with this serial before |
| Replica.DirectAnswer | coredns/plugins/netboxreload/zones.go:29-51 | where something answers itself the answer is every record of the file of that owner and type |
| Replica.RecordIsAnswered | coredns/plugins/netboxreload/zones.go:29-51 | every published record is in the answer to its own name and type |
| Replica.AliasIsFollowed | coredns/plugins/netboxreload/zones.go:29-51 | an alias is answered by a CNAME of the file and then as its target is, iff the alias does not come up again on the way from its target |
| Replica.ReachableExactlyWhenLower | coredns/plugins/netboxreload/plugin.go:46-108 | a loaded zone answers some query iff its name is in lower case |
| Replica.CleanReplicaServes | internal/reloader/reloader.go:58-105 | from the start of the sidecar, once a change is written, a replica that is not dirty serves of every published zone exactly the published records, where every listed file is answered as itself |
| Replica.EmptyLabelUnservable | internal/zonediscovery/zone_depth.go:17-33 | the record host..org gives at depth two the zone .org, whose file is listed and not served |
| Replica.RecreatedReusesSerial | internal/zonemanager/manager.go:154-199 | a zone written, removed and written again within one second: one serial, two different files |
| Reloader.Reloader.ReloadOne | internal/reloader/reloader.go:117-135 | success iff some attempt within the allowance succeeds before cancellation; it stops at the first success, at a cancellation, or after one attempt more than there are delays |
| Reloader.Reloader.Reload | internal/reloader/reloader.go:58-65 | all addresses owe a reload, and exactly those reached are cleared |
| Reloader.Reloader.Reconcile | internal/reloader/reloader.go:71-105 | only what is owed is pushed, and exactly what is reached is cleared |
| ReloadProtocol.RunConsistent | coredns/plugins/netboxreload/plugin.go:139-187 | the protocol invariant over every interleaving of writes, pushes, polls, failures and acknowledgements |
| ReloadProtocol.ReplicasAgree | internal/reloader/reloader.go:58-105 | from any state of the invariant, in every interleaving, every address that is not dirty serves the files on disk outside a write |
| ReloadProtocol.AgreementFromBoot | internal/reloader/reloader.go:45-105 | from the start of the sidecar over replicas that serve anything: after the first change is written, in every continuation every address that is not dirty serves the disk outside a write |
| ReloadProtocol.BootedConsistentExactlyWhen | internal/reloader/reloader.go:45-52 | at the start agreement holds iff every replica happens to be good |
| ReloadProtocol.FirstChangeEstablishes | cmd/sidecar/main.go:440-446 | in any numbered state the end of a change establishes the invariant |
| ReloadProtocol.PushCanConverge | internal/reloader/reloader.go:75-105 | from any quiet state a dirty, idle replica can be pushed to, and then is clean and serves the disk |
| ReloadProtocol.RestartKeepsExactlyWhen | internal/reloader/reloader.go:45-52 | a sidecar restart keeps agreement iff every replica is good already: the dirty set is not kept |
| ReloadProtocol.RestartForgets | internal/reloader/reloader.go:45-52 | it is reachable after one change: the replica serves the old files and no address is dirty |
| ReloadProtocol.FailedWriteKeepsExactlyWhen | cmd/sidecar/main.go:359-365 | a write that fails half-way marks nothing and keeps agreement iff every clean replica already serves what was written |
| ReloadProtocol.FailedWriteUntold | cmd/sidecar/main.go:359-365 | it is reachable in the first change |

## Left out

- Failing file writes inside an update: the directory is the one an error-free update leaves. What a lost write means is stated
  by Generator.RepeatIsUnchanged, PollLoop (a merge may fail) and ReloadProtocol.FailedWriteKeepsExactlyWhen.
- Mirror.MirrorExact: zone names whose path is not used as written, with an empty, `.` or `..` part after a slash (`PlainPath` rules them out), and a zone whose file is the directory of another's, where the write fails.
- PollLoop.GuardedPublication: the files, as a listing shows them, that a merge leaves are an input of the event; that they mirror the map is Merge.MergeMirrors.
- ZoneHistory.RunKeeps: for a zone whose file nothing but its own updates touches; a file lost as the temporary file of another zone is in Mirror.
- ReloadProtocol.ReplicasAgree: for directories whose listed files are answered as themselves (Plugin.ListingServableExactlyWhen); for others a reload fails or reads another file.
- ReloadProtocol.AgreementFromBoot: what a replica serves is the set of listed files it read, which Plugin.ReloadZones turns into zones (joined in Replica.CleanReplicaServes); replica restarts, after which a replica loads zones on its own, are not steps of the protocol.
- MergeSignal.StaleMeansCalled: how long a fetch takes (an accepted one reconciles the store in one step); which events lead to a write is left to Webhook; signals for a full poll, dropped inside the cooldown, are not covered.
- Plugin.Plugin.ReloadZones: the directory source with its modification-time validator (loadZoneDir) is not modelled, only the HTTP source.
- ZoneUrl.AsksForItselfExactlyWhen: redirects and limits on the length of a request are not modelled.
- ZoneReader.PrintedZoneReadsBack: the reader knows the syntax the printer uses, without quoted strings, escapes or classes other than IN; the DNS library's own parser is not part of this model.
- ZoneFile.SerialRoundTrip: bufio.Scanner's limit on line length is not modelled.
- ReverseNames.Discover: net.ParseIP is an input.
- StripLabel.CommutesExactlyWhen: for a domain suffix without a trailing dot; letter-case folding is ASCII only.
- Webhook.Handler.Serve: signature checks and payload parsing are not modelled, and of persistence only whether it fails; the file the store is read from at a start is not.
- Writes by the gRPC service inside a webhook delivery, which the handler's mutex does not cover.
- Verdict texts, metrics, logs, HTTP, gRPC and JSON plumbing, configuration loading, and the analyzer.
- Zone discovery by common suffix, device-derived names, name templates and address categories: heuristics without a strong invariant.
- ServeDNS beyond the zone choice and the answer section: response codes and the authority section.
- Floating-point rounding of drop fractions.
- The run-once (zone-init) mode of the sidecar, which polls once and exits.
