# Verified model of trust-dns

A Dafny model of the logic of trust-dns, a DNS client and server written in Rust, with proofs of what
its hardest parts promise.  `dafny verify dfyconfig.toml` checks the whole project.  Nothing was
executed: every statement below is a theorem about the model.

What is modelled, by module:

- **Names**, **Records**: names of byte labels, the canonical name order and the order of the zone
  map's keys; records whose equality leaves the TTL out.
- **RrSets**: the record set, as a class that inserts and removes in place with index loops, and the
  functions it is proved against.
- **Zones**, **PerKey**, **Authority**: the zone map, the dynamic update of RFC 2136 (prerequisites,
  prescan, update section), the SOA serial, the journal, and the class that carries them.  PerKey
  describes the same update section one key at a time.
- **Journal**, **Recovery**, **SoaRecovery**, **Apex**, **Freshness**, **Catalog**: what holds over whole
  runs of updates: recovery from the journal, survival of the apex, no stale signature or NSEC record in the
  live zone, one authority touched.  A recovered zone is signed anew but its NSEC chain is not rebuilt;
  Recovery says exactly when that chain is still current, and SoaRecovery when the SOA is still the live one
  but for its serial.
- **Lookups**: answering from the map, against a scan of all records.
- **Nsec**, **Denial**: the NSEC chain a server builds, the denial check a client runs, and which
  record the server picks for a denial.
- **SignedData**, **SignedOctets**, **SignedOrder**, **Signing**, **Signatures**: the octets an RRSIG signs,
  what a reader finds in them, when the order of the records shows in them, the signing of a zone, and
  which signatures it leaves.
- **NameCodec**, **Messages**, **PointerWalks**: names on the wire with compression pointers, record data
  encoded apart at a shifted offset, whole messages read back item by item, and when reading a name answers
  at all.
- **TypeBitmaps**: the type bit maps of NSEC and NSEC3.
- **TcpFraming**: messages behind their two-octet length, under partial writes and reads.
- **Multiplexer**: the client's requests, from the channel to their resolution.
- **Validator**, **TrustChains**: the depth-bounded recursive DNSSEC validation of responses, and the chain
  of signatures and delegations that every record it returns rests on.
- **Builders**: the client's `create` and `compare_and_swap` requests against the server's update.
- **Departures**: prerequisites, CNAMEs, TTLs and serials as the server handles them, against RFC 2136
  and RFC 1982.

What the outside world decides is a parameter: the server's answers, random draws, clocks, the
sockets' partial reads and writes, the order in which checks finish, how many records the journal
accepts, and the cryptography (signing, verifying, digests and the encodings of record data are
function-valued fields).  `authorize` is one boolean of the message.

Places where the code departs from its comments or from the RFCs are modelled as written, each with
a lemma that says exactly when the two agree:

- delete-all at a name (`Apex.DeleteNameFollowsRfc`, `Apex.ApexCanBeDeleted`);
- serials that wrap when they are raised (`Apex.UpdateKeepsApex`) or offered
  (`Departures.SerialOrderExactly`);
- prerequisites that name only a part of a set (`Departures.ValuePrerequisitesExactly`);
- a CNAME beside other data (`Departures.CnameExactly`);
- an addition that changes only a TTL (`Departures.TtlTakenExactly`);
- the NSEC record picked for a denial (`Denial.ServerDenialExactly`, `Denial.DenialFailsHere`);
- the NSEC chain of a recovered zone (`Recovery.RecoveredChainExactly`, `Recovery.DeniesHere`);
- the SOA of a recovered zone (`SoaRecovery.UpdateSoaExactly`, `SoaRecovery.SoaParts`);
- keys that are kept in a message though preserve left them out of their set
  (`Validator.ReturnsKeptExactly`, `Validator.ForeignKeyReturned`);
- the order in which records are signed, by sort keys that some records share
  (`SignedOrder.PermutationExactly`);
- compression pointers in a circle (`PointerWalks.EndlessExactly`);
- labels over 63 octets in canonical form (`NameCodec.RoundTripExactly`);
- type lists that are not ascending, and IXFR (`TypeBitmaps.EncodesExactly`,
  `TypeBitmaps.RoundTripExactly`);
- empty messages and messages over 65535 octets (`TcpFraming.FramesParse`);
- a root zone in the catalog (`Catalog.RootZoneIsNotFound`);
- NSEC sets that a client creates or swaps in a signed zone (`Builders.CreateNsecExactly`,
  `Builders.SwapNsecExactly`).

## Model

| member | source | states |
|---|---|---|
| `Names.CmpWithCase` | client/src/rr/domain.rs:383-411 | the label-by-label comparison from the right, with or without case, answers Less exactly when the first (folded) name ends the other and is shorter, or, past the last labels they share, has the label that ends first or has the lesser octet at the first difference; Equal exactly on equal names |
| `Names.CanonicalExactly` | client/src/rr/domain.rs:383-411 | the order by which keys, chain and denials go is that of section 6.1 of RFC 4034, said by the place of the first difference |
| `Names.LowersLetters` | client/src/rr/domain.rs:383-411 | lowering takes each of the letters A to Z to its small one and changes nothing else |
| `Names.CaseInsensitiveTotalOrder` | client/src/rr/domain.rs:383-411 | ignoring case it is a total order: Equal exactly on label-wise lowercase equality, antisymmetric, transitive |
| `Names.ZoneOfLoop` | client/src/rr/domain.rs:174-188 | the loop answers exactly whether the zone's labels end the name up to case, also for a name shorter than the zone |
| `Names.ZoneLeqMembers` | client/src/rr/domain.rs:174-188 | a zone comes at or before every name in it |
| `Names.ZoneContiguous` | client/src/rr/domain.rs:174-188 | the names of a zone are one contiguous interval of the order |
| `Names.TrimTo` | client/src/rr/domain.rs:164-171 | the rightmost labels, or the root when there are fewer |
| `Names.BaseName` | client/src/rr/domain.rs:143-150 | a name without its first label; the root stays the root |
| `Records.KeyOrder` | client/src/rr/rr_key.rs:38-47 | keys are totally ordered by name, then type, so the keys of one name stand together |
| `Records.AscendingUnique` | client/src/rr/rr_key.rs:38-47 | a set of keys has one ascending sequence, so iterating over the map is determined |
| `Records.DataEqExactly` | client/src/rr/record_data.rs:51-635 | record data is equal when it is of one variant and agrees in every field, its names up to case |
| `RrSets.RecordSet.Updated` | client/src/rr/rr_set.rs:205-208 | a change sets the serial and drops the signatures |
| `RrSets.RecordSet.Insert` | client/src/rr/rr_set.rs:254-334 | the in-place insert with its index loops computes InsertInto on the whole set |
| `RrSets.RecordSet.Remove` | client/src/rr/rr_set.rs:349-386 | the in-place remove with its ascending-index loop computes RemoveFrom on the whole set |
| `RrSets.InsertCases` | client/src/rr/rr_set.rs:254-334 | insert refuses an SOA that is not newer, replaces a single record, leaves an equal record, replaces the one record of equal data, or appends |
| `RrSets.InsertReports` | client/src/rr/rr_set.rs:254-334 | a reported insert leaves the record in the set, gives the set the record's TTL and the serial, and drops the signatures; an unreported one changes nothing |
| `RrSets.RemoveReports` | client/src/rr/rr_set.rs:349-386 | a removal is reported exactly when it is of no SOA, not of the last NS and some record has its data; it then takes out those records, sets the serial and drops the signatures, and otherwise changes nothing |
| `RrSets.InsertKeepsCoherent` | client/src/rr/rr_set.rs:254-334 | insert keeps data pairwise distinct, at most one SOA or CNAME, and every record under the set's name and type; false means unchanged |
| `RrSets.RemoveKeepsCoherent` | client/src/rr/rr_set.rs:349-386 | remove keeps the same, reports exactly whether a record of equal data went, and never takes the last NS |
| `RrSets.OneMatch` | client/src/rr/rr_set.rs:372-384 | at most one index matches, so removing by ascending index deletes exactly the matching record |
| `RrSets.RunKeepsCoherent` | client/src/rr/rr_set.rs:254-386 | the invariant over every run of inserts and removes |
| `Zones.PreScanMeans` | server/src/authority/authority.rs:565-631 | the prescan passes exactly the sections all of whose records are in the zone and of one of the four forms; otherwise NotZone or FormErr |
| `Zones.PreScanFirst` | server/src/authority/authority.rs:565-631 | the first inadmissible record stops the prescan, with NotZone when it lies outside the zone and FormErr otherwise |
| `Zones.VerifyFirst` | server/src/authority/authority.rs:326-438 | the first prerequisite that does not pass gives the code |
| `Zones.UpsertKeeps` | server/src/authority/authority.rs:825-834 | an insertion keeps the map well formed, adds at most its own key, changes no other set, and false means unchanged |
| `Zones.UpsertFresh` | server/src/authority/authority.rs:825-834 | under a new key the set is that one record, of its name, type and TTL |
| `Zones.ApplyKeeps` | server/src/authority/authority.rs:709-794 | an admissible record is applied with no error and no failed assertion; the map stays well formed; no report means no change |
| `Zones.ApplyAllKeeps` | server/src/authority/authority.rs:709-794 | the same for a whole update section |
| `Zones.IncrementKeeps` | server/src/authority/authority.rs:248-265 | the bump touches the apex SOA alone; its serial is the next one, or stays when the 32-bit successor wraps and is refused, and everything else of it, TTL included, stays as it was |
| `PerKey.ApplyAllEffects` | server/src/authority/authority.rs:709-794 | an update section changes the records under each key by the effects of its records on that key alone |
| `Authority.Authority.Upsert` | server/src/authority/authority.rs:825-834 | the map and result after an upsert in place |
| `Authority.Authority.IncrementSoaSerial` | server/src/authority/authority.rs:248-265 | the map after the bump in place, and the serial returned |
| `Authority.Authority.DeleteAtName` | server/src/authority/authority.rs:747-760 | collecting and removing keys deletes exactly the sets the filter names, and reports whether there were any |
| `Authority.Authority.Apply` | server/src/authority/authority.rs:709-794 | one update record applied in place: new map, report or error |
| `Authority.Authority.ApplyEach` | server/src/authority/authority.rs:709-794 | the loop over the update section |
| `Authority.Authority.UpdateRecords` | server/src/authority/authority.rs:654-811 | journal first, then apply, then re-sign or raise the serial: new map, journal and result |
| `Authority.Authority.Update` | server/src/authority/authority.rs:893-900 | authorization, prerequisites, prescan and only then the records: new map, journal and result |
| `Authority.Authority.NsecZone` | server/src/authority/authority.rs:1042-1098 | the chain rebuilt in place |
| `Authority.Authority.SignZone` | server/src/authority/authority.rs:1101-1186 | every set but the DNSKEY ones signed in place, stopping where a key has no tag |
| `Authority.Authority.SecureZone` | server/src/authority/authority.rs:1028-1039 | chain, serial, signatures, in this order |
| `Authority.Authority.PersistToJournal` | server/src/authority/authority.rs:143-163 | the journal gains the dump mark and every record of every set |
| `Authority.Authority.RecoverWithJournal` | server/src/authority/authority.rs:110-137 | the zone is the replay of the journal, signed if it is to be |
| `Authority.ReplayIsQuiet` | server/src/authority/authority.rs:118-127 | replaying a record is update_records of it without a journal and without raising the serial |
| `Authority.UpdateCodes` | server/src/authority/authority.rs:893-900 | an update that does not get through answers Refused, else the code of its prerequisites, else that of its prescan, and changes nothing |
| `Authority.FailedAppend` | server/src/authority/authority.rs:654-680 | an append that fails leaves the records before the failure in the journal and the zone as it was, and answers ServFail |
| `Authority.UpdateOutcome` | server/src/authority/authority.rs:654-811 | an update leaves the zone and reports no change, or was scanned, applied to the end and finished, and reports one |
| `Authority.UpdateAllOrNothing` | server/src/authority/authority.rs:893-900 | any error but ServFail leaves zone and journal untouched; no change reported means no change; without journal and signing there is no ServFail |
| `Journal.PersistThenRecover` | server/src/authority/authority.rs:110-163 | persist then recover gives back the same records under every key, whatever the journal held before |
| `Journal.SectionFollows` | server/src/authority/authority.rs:654-811 | replaying a section record by record keeps the recovered zone in step with the live one |
| `Journal.FinishFollows` | server/src/authority/authority.rs:797-808 | so does finishing an update, signed or not and whether or not signing succeeds |
| `Journal.RunInStep` | server/src/authority/authority.rs:654-811 | in step over every run of updates whose appends succeed |
| `Journal.ReplayRefinesLive` | server/src/authority/authority.rs:110-163 | persist, run any updates, replay: the replay succeeds with the live records under every key but the SOA's and, in a signed zone, the NSEC ones, an SOA exactly when the live zone has one, and a serial not ahead |
| `Journal.SigningKeepsStep` | server/src/authority/authority.rs:131-136 | signing the recovered zone, as recovery of a signed zone ends, keeps it in step |
| `Recovery.RecoversExactly` | server/src/authority/authority.rs:110-137 | recovery succeeds exactly when the journal replays and, in a signed zone, every key has a tag or only DNSKEY sets are there |
| `Recovery.RecoveryRefinesLive` | server/src/authority/authority.rs:110-163 | persist, run any updates, recover: the zone is in step with the live one whether or not its signing succeeds, and recovery succeeds in an unsigned zone or with tags on all keys |
| `Recovery.KeysFromChain` | server/src/authority/authority.rs:1042-1098 | the keys of a chained zone can be read off its NSEC records |
| `Recovery.ChainSurvivesExactly` | server/src/authority/authority.rs:131-133 | an NSEC chain left as it was is current exactly when the zone's other keys are what they were |
| `Recovery.RecoveredChainExactly` | server/src/authority/authority.rs:110-137 | a chained zone, persisted, updated by any run that adds or deletes no NSEC set itself, and recovered is chained exactly when it has the keys that were persisted, since recovery signs and does not rebuild the chain |
| `Recovery.DeniesWhatIsThere` | server/src/authority/authority.rs:110-137 | persist a signed zone, add a record of a new key before its last owner, recover: the live zone is chained, but the recovered one holds the record beside a signed NSEC record that proves it absent |
| `Recovery.DeniesHere` | server/src/authority/authority.rs:110-137 | so in the zone z with addresses at a.z and c.z, given one at b.z |
| `SoaRecovery.SectionSoaExactly` | server/src/authority/authority.rs:110-163 | of two SOAs that differ in the serial alone, a section without a delete-all at the origin leaves two such exactly when the newest SOA it adds does not fall between their serials with other data |
| `SoaRecovery.UpdateSoaExactly` | server/src/authority/authority.rs:110-163 | an update that goes through keeps the journal's SOA like the live one but for the serial exactly when it does not part them so |
| `SoaRecovery.RecoveredSoa` | server/src/authority/authority.rs:110-163 | persist, run any updates that add no SOA at the origin, recover: the recovered SOA differs from the live one in the serial alone |
| `SoaRecovery.SoaParts` | server/src/authority/authority.rs:110-163 | while the live serial is ahead, an SOA sent with that serial and other data is recovered and not live |
| `SoaRecovery.LiveSerialAhead` | server/src/authority/authority.rs:797-808 | the live serial is ahead after any update that reports a change and leaves the SOA alone |
| `Apex.SoaSurvives` | server/src/authority/authority.rs:729-788 | a section leaves an SOA at the apex exactly when no delete-all at the origin removed it or an SOA is added after the last one |
| `Apex.UpdateKeepsApex` | server/src/authority/authority.rs:654-811 | without a delete-all at the origin: one SOA, NS never emptied, serial never falls, and on a reported change it rises exactly if it was not at 2^32 - 1 |
| `Apex.RunKeepsApex` | server/src/authority/authority.rs:654-811 | the same over every run |
| `Apex.NewestStands` | client/src/rr/rr_set.rs:254-334 | a section without a delete-all at the origin leaves the newest of the SOA it found and those it adds, the earliest of equals, as it was found or sent |
| `Apex.UpdateLeavesSoa` | server/src/authority/authority.rs:654-811 | an update that neither adds an SOA at the origin nor deletes the apex leaves an SOA that differs in the serial alone |
| `Apex.RunLeavesSoa` | server/src/authority/authority.rs:654-811 | the same over every run |
| `Apex.DeleteNameFollowsRfc` | server/src/authority/authority.rs:739-760 | delete-all does what section 3.4.2.3 of RFC 2136 says exactly when the name has no SOA and no NS set |
| `Apex.ApexCanBeDeleted` | server/src/authority/authority.rs:747-760 | one scanned record that deletes the apex SOA and NS sets |
| `Lookups.LookupIsFilter` | server/src/authority/authority.rs:967-1003 | for every name and type a lookup is the scan of all records filtered by the question, in the same order |
| `Lookups.PrerequisiteMeans` | server/src/authority/authority.rs:326-438 | a prerequisite passes exactly when it is well formed, in the zone, and true of the zone's records |
| `Lookups.PrerequisiteCodes` | server/src/authority/authority.rs:326-438 | the code of one that does not pass: NotZone, NXDomain, YXDomain, NXRRSet, YXRRSet and FormErr, each exactly in its case |
| `Lookups.ScanExactly` | server/src/authority/authority.rs:977-991 | the scan holds each record of each set and no record twice |
| `Lookups.TransferExactly` | server/src/authority/authority.rs:913-951 | a transfer of a master or slave with an SOA is the SOA, every other record once, the SOA; any other is empty |
| `Catalog.FindsLongest` | server/src/authority/catalog.rs:325-337 | the authority found for a name is that of its longest suffix other than the root, and none exactly when there is no such suffix |
| `Catalog.RootZoneIsNotFound` | server/src/authority/catalog.rs:325-337 | a catalog with only the root zone answers for the root alone |
| `Catalog.UpdateTouchesOne` | server/src/authority/catalog.rs:199-248 | an update changes at most the state of the one master found for its zone, and nothing when the code is neither NoError nor ServFail |
| `Catalog.UpdateOutcomes` | server/src/authority/catalog.rs:199-248 | the whole outcome: FormErr unless one SOA is named, NXDomain when no suffix is hosted, NotImp for a slave, NotAuth for a hint or forward, and for a master the state and the code that the message leaves, every other host unchanged |
| `Nsec.BuildChain` | server/src/authority/authority.rs:1063-1092 | the loop over the keys builds one NSEC record a name, each naming the next and the last the origin |
| `Nsec.GroupsOfAscending` | server/src/authority/authority.rs:1063-1092 | owners in strict canonical order, types in strict order of code, together exactly the keys |
| `Nsec.DenialSound` | client/src/client/secure_client_handle.rs:767-795 | whatever part of the chain a response carries, a denial it proves is true |
| `Nsec.DenialComplete` | client/src/client/secure_client_handle.rs:767-795 | the whole chain proves a pair absent exactly when it is and its name lies from the origin up to the greatest owner |
| `Denial.AlwaysTheFirst` | server/src/authority/authority.rs:1012-1025 | for every name at or after the origin the server answers with the origin's NSEC record |
| `Denial.SearchExactly` | server/src/authority/authority.rs:1012-1025 | the search takes the first NSEC set in key order whose owner is not after the name, and none exactly when there is none |
| `Denial.ServerDenialExactly` | server/src/authority/authority.rs:1012-1025 | exactly which absent pairs the server's own denial convinces the client of |
| `Denial.DenialFails` | server/src/authority/authority.rs:1012-1025 | it fails for every absent pair at or after an owner past the origin |
| `Denial.DenialFailsHere` | server/src/authority/authority.rs:1012-1025 | a zone with an SOA and two addresses, chained and asked for a name between them: the whole chain proves it absent, the record the server picks does not |
| `SignedData.CollectRrset` | client/src/rr/dnssec/signer.rs:476-569 | the loop collects the records of the name, class and type |
| `SignedData.BuildHash` | client/src/rr/dnssec/signer.rs:476-569 | collecting, sorting and writing record by record computes HashRrset, with the same errors |
| `SignedOctets.HashFields` | client/src/rr/dnssec/signer.rs:476-569 | whatever is signed begins with type, algorithm, label count of the owner, original TTL, expiration, inception and key tag, big-endian, and the signer's name when its labels have 1 to 63 octets |
| `SignedOctets.HashReads` | client/src/rr/dnssec/signer.rs:476-569 | what the octets are, by reading them: type, algorithm, label count of the owner, original TTL, expiration, inception and key tag big-endian, the signer's name, then one record after the other to the end, each with the lowered owner, type, class, original TTL, length and canonical data, of exactly the set's records in ascending order of TTL and plain encoding |
| `SignedOctets.HashOutcome` | client/src/rr/dnssec/signer.rs:476-569 | no owner exactly when the RRSIG counts more labels than the name has; otherwise an encoding error exactly when the encoder cannot write the signer's name, or the owner's with records to write |
| `SignedOctets.SortStable` | client/src/rr/dnssec/signer.rs:500-502 | records that sort alike keep the order they came in |
| `SignedOctets.CanonicalAtom` | client/src/rr/domain.rs:323-371 | a canonical name is written out octet by octet, whatever the encoder remembers |
| `SignedData.PermutationInvariant` | client/src/rr/dnssec/signer.rs:476-569 | the signed octets do not depend on the order of the records, when records of equal TTL and equal plain encoding have equal canonical octets |
| `SignedData.UnrelatedIgnored` | client/src/rr/dnssec/signer.rs:476-569 | nor, always, on records of another name, type or class, wherever they stand |
| `SignedData.UnrelatedInAnyOrder` | client/src/rr/dnssec/signer.rs:476-569 | both at once: other records mixed in and the whole reordered |
| `SignedOrder.OrderShows` | client/src/rr/dnssec/signer.rs:476-569 | two records of a set with equal sort keys and different canonical octets: swapping them changes the signed octets |
| `SignedOrder.PermutationExactly` | client/src/rr/dnssec/signer.rs:476-569 | where the octets can be built, with data of at most 65535 octets, every order of the records signs the same exactly when records of equal TTL and equal plain encoding have equal canonical octets |
| `SignedOrder.LongLabelsSortAlike` | client/src/rr/record_data.rs:670-680 | such records exist: a label of 64 to 253 octets fails to encode plainly, so data with it sorts as empty, and is written out in canonical form |
| `SignedData.OwnerCaseIgnored` | client/src/rr/dnssec/signer.rs:476-569 | nor on the case of the owner name |
| `SignedData.WildcardExpansion` | client/src/rr/dnssec/signer.rs:625-659 | a wildcard's records under any expansion, with the label count kept, sign the same octets |
| `SignedData.CommonTtlIgnored` | client/src/rr/dnssec/signer.rs:476-569 | nor on the TTL when all records share it |
| `Signing.NsecZoneChains` | server/src/authority/authority.rs:1042-1098 | after nsec_zone the NSEC sets are exactly the chain for the other keys, and no other set changed |
| `Signing.NsecTtl` | server/src/authority/authority.rs:1058-1092 | the NSEC records made carry the minimum of the apex SOA as their TTL |
| `Signing.SecureZoneFresh` | server/src/authority/authority.rs:1028-1039 | after secure_zone every RRSIG is over its set's current records as a validator rebuilds them, and the chain is current |
| `Signatures.ZoneFullySigned` | server/src/authority/authority.rs:1101-1186 | after sign_zone every set but the DNSKEY ones has the signature of every key that can sign it, with the fields of the set, the key and the time, over the octets a validator builds, under the minimum of the apex SOA as TTL, and no other |
| `Freshness.UpdateKeepsChained` | server/src/authority/authority.rs:797-808 | every update of a signed zone, whatever it answers, keeps the NSEC chain current |
| `Freshness.UpdateKeepsSecured` | server/src/authority/authority.rs:797-808 | every update of a signed zone, whatever it answers, leaves no stale signature and no stale NSEC |
| `Freshness.UpdateSignsFully` | server/src/authority/authority.rs:797-808 | an update that reports a change leaves every set but the DNSKEY ones fully signed over the records it then holds |
| `Freshness.SignsExactly` | server/src/authority/authority.rs:1101-1186 | sign_zone succeeds exactly when every key has a tag or only DNSKEY sets are there |
| `Freshness.ServFailExactly` | server/src/authority/authority.rs:654-811 | an update answers ServFail exactly when it was let through and the journal does not take it, or it changes a signed zone that a key without a tag cannot sign again |
| `Freshness.RunKeepsSecured` | server/src/authority/authority.rs:797-808 | no stale signature and no stale NSEC after every run of updates, whatever their answers |
| `Freshness.ServedDenialSound` | client/src/client/secure_client_handle.rs:767-795 | end to end: after every run of updates on a chained zone, what a client takes as absent from any NSEC records the zone then serves is absent |
| `NameCodec.ReadLoop` | client/src/rr/domain.rs:451-521 | the state machine with its recursive call reads what ReadName says |
| `NameCodec.ReadsOnlyGood` | client/src/rr/domain.rs:451-521 | every name read from any buffer has labels of 1 to 63 octets |
| `NameCodec.ReadStable` | client/src/rr/domain.rs:451-521 | a name that reads, reads the same as the buffer grows |
| `NameCodec.FollowsPointer` | client/src/rr/domain.rs:500-512 | two octets that read big-endian as 0xC000 and a target make the name go on at the target |
| `PointerWalks.EndlessExactly` | client/src/rr/domain.rs:451-521 | reading never answers, however many pointers it may follow, exactly when the walk of its pointers through the buffer revisits a place |
| `PointerWalks.EnoughPointers` | client/src/rr/domain.rs:500-512 | 0x4000 pointers decide: what they do not answer, no number of pointers does |
| `PointerWalks.SelfPointerIsEndless` | client/src/rr/domain.rs:500-512 | a run of labels that ends in a pointer to its own start is one that never answers |
| `NameCodec.BinEncoder.StoreLabelPointer` | client/src/serialize/binary/encoder.rs:90-94 | a list of labels is remembered at the current offset while a pointer can reach it |
| `NameCodec.PointerWritten` | client/src/rr/domain.rs:334-342 | a pointer is written as 0xC000 and its target, big-endian |
| `NameCodec.BinEncoder.EmitAsCanonical` | client/src/rr/domain.rs:323-371 | the loop writes the name canonical or compressed, or fails, as specified |
| `NameCodec.BinEncoder.EmitRdata` | client/src/rr/resource.rs:273-300 | record data encoded apart from where it will stand and spliced in after its length |
| `NameCodec.EmitReads` | client/src/rr/domain.rs:323-371 | a name written canonical or compressed after anything reads back, and everything remembered still reads back |
| `NameCodec.MessageReads` | client/src/rr/resource.rs:273-300 | however names, octets and spliced data follow each other, every name reads back from its place, through no more pointers than octets before it |
| `NameCodec.CompressionRoundTrip` | client/src/rr/domain.rs:323-371 | the round trip for a whole message: all its names, in order |
| `Messages.DataLength` | client/src/rr/resource.rs:285-298 | the two octets before record data, read big-endian, count the octets from there to where the item ends |
| `Messages.MessageRoundTrip` | client/src/rr/resource.rs:273-300 | a reader that knows only the shape of a message gets every item back, octets, names and record data behind its length, and ends where the message does |
| `Messages.TwiceIsShort` | client/src/rr/domain.rs:323-371 | a name written once within reach of a pointer takes two octets each time it is written again |
| `NameCodec.GoodNamesAreWritten` | client/src/rr/domain.rs:323-371 | good names of at most 255 octets are always written |
| `NameCodec.RoundTripExactly` | client/src/rr/domain.rs:323-371 | a single written name reads back exactly when every label has 1 to 63 octets |
| `TypeBitmaps.EncodeBitMaps` | client/src/rr/rdata/nsec3.rs:393-425 | the loops over types, windows and octets write the specified octets, or hit the index underflow |
| `TypeBitmaps.DecodeTypeBitMaps` | client/src/rr/rdata/nsec3.rs:315-368 | the state machine over octets and bits decodes as specified, wrap-around flagged |
| `TypeBitmaps.EncodesExactly` | client/src/rr/rdata/nsec3.rs:393-425 | no index underflow exactly when no type's octet lies before that of the type before it; 1 to 32 octets, the last not zero |
| `TypeBitmaps.EncodedBits` | client/src/rr/rdata/nsec3.rs:393-425 | behind window and length, bit code % 8 of octet code / 8 is set exactly for the types listed |
| `TypeBitmaps.OctetIs` | client/src/rr/rdata/nsec3.rs:393-425 | where bits are counted from the most significant one: an octet is the sum of 128, 64, ... 1 over its bits |
| `TypeBitmaps.ReadBack` | client/src/rr/rdata/nsec3.rs:315-425 | decoding what was encoded gives the types, each once, in order of code, with no wrap; with IXFR it fails on its code |
| `TypeBitmaps.RoundTripExactly` | client/src/rr/rdata/nsec3.rs:315-425 | the list comes back exactly when it is strictly ascending without IXFR |
| `TypeBitmaps.ChainReadsBack` | server/src/authority/authority.rs:1065-1092 | every record of a zone's NSEC chain has types that encode and read back |
| `TcpFraming.TcpStream.PollSend` | client/src/tcp/tcp_stream.rs:128-213 | the write loop in place is a run of write turns; it reports drained only with nothing pending or queued |
| `TcpFraming.TcpStream.PollReceive` | client/src/tcp/tcp_stream.rs:219-298 | the read loop in place is a run of read turns; each result matches what was delivered and how the stream ended |
| `TcpFraming.WritesConserve` | client/src/tcp/tcp_stream.rs:128-213 | under every pattern of partial writes what was sent, is pending and is queued are the frames of everything submitted, in order |
| `TcpFraming.WireIsFrames` | client/src/tcp/tcp_stream.rs:128-213 | after every run the socket holds a prefix of the frames of what was submitted, also on a connection given up, and all of them once nothing is pending on one that was not |
| `TcpFraming.DrainsOut` | client/src/tcp/tcp_stream.rs:128-213 | given as many turns as there is work, in each of which the socket takes at least one octet, everything queued is on the wire |
| `TcpFraming.DiesExactly` | client/src/tcp/tcp_stream.rs:188-206 | while every message is for the peer the connection is never ended by the writer |
| `TcpFraming.FrameIs` | client/src/tcp/tcp_stream.rs:199-206 | a frame is the length, high octet first, and the message |
| `TcpFraming.FirstFrame` | client/src/tcp/tcp_stream.rs:219-298 | the first message read is what follows the first two octets of the stream, as long as they say big-endian |
| `TcpFraming.FramesParse` | client/src/tcp/tcp_stream.rs:219-298 | frames hold exactly their messages if and only if each has 1 to 65535 octets |
| `TcpFraming.ParseIsFrames` | client/src/tcp/tcp_stream.rs:219-298 | of any stream the messages read are whole frames at its start, and it ends cleanly exactly when it is those frames and nothing more |
| `TcpFraming.CutParses` | client/src/tcp/tcp_stream.rs:219-298 | a stream of frames cut anywhere holds the first of their messages |
| `TcpFraming.ReadsAnyChunking` | client/src/tcp/tcp_stream.rs:219-298 | under every chunking a reader delivers, in order, the messages of the stream, and ends as the stream does |
| `TcpFraming.CutConnection` | client/src/tcp/tcp_stream.rs:128-298 | end to end: for every run of the writer, every place its wire is cut and every chunking, the reader delivers the first of the messages submitted, in order, and its end is clean exactly when the cut is on the boundary of a frame |
| `TcpFraming.WriterToReader` | client/src/tcp/tcp_stream.rs:128-298 | a writer with nothing left to send and a reader that reads to the end: exactly the messages submitted, and a clean end |
| `Multiplexer.ClientFuture.DropCancelled` | client/src/client/client_future.rs:128-161 | the requests whose ids are cancelled or out of time leave the map and fail with a timeout, no other |
| `Multiplexer.ClientFuture.NextRandomQueryId` | client/src/client/client_future.rs:164-178 | the id is the first of at most a hundred draws that no request in flight has |
| `Multiplexer.ClientFuture.SendWaiting` | client/src/client/client_future.rs:189-262 | the send loop in place: what is sent, refused, delayed or failed |
| `Multiplexer.ClientFuture.Receive` | client/src/client/client_future.rs:264-290 | at most a hundred messages are taken; the counter never reaches the hundred that would wake the future |
| `Multiplexer.ClientFuture.Poll` | client/src/client/client_future.rs:185-312 | one poll in place, conserving requests and never asking to be woken |
| `Multiplexer.PickFree` | client/src/client/client_future.rs:164-178 | the id picked is the first of a hundred draws that no request in flight has; none exactly when all are taken |
| `Multiplexer.PollConserves` | client/src/client/client_future.rs:185-312 | one poll loses and doubles no request, resolves none again, and finishes exactly when the channel is closed and empty and nothing is in flight |
| `Multiplexer.RunConserves` | client/src/client/client_future.rs:185-312 | the same over every run of submissions, polls and a close; once finished every request is resolved |
| `Multiplexer.ExactlyOnePlace` | client/src/client/client_future.rs:185-312 | in every reachable state each request is in exactly one of queue, flight and resolved, and no id is shared |
| `Multiplexer.FirstReplyAnswers` | client/src/client/client_future.rs:268-290 | of the messages received the first with a request's id answers it, and no other touches it |
| `Multiplexer.DrainDecides` | client/src/client/client_future.rs:189-262 | once the channel is emptied a request that could be sent is in flight and any other is refused |
| `Multiplexer.DrainStops` | client/src/client/client_future.rs:189-262 | requests are taken in order until the channel is empty, one finds no free id or a send fails; each taken one is in flight under one of its draws, refused, or cancelled by the failed send |
| `Multiplexer.PollFails` | client/src/client/client_future.rs:185-312 | a poll fails exactly when a send fails, and then receives nothing, or the stream fails before the hundredth message |
| `Multiplexer.PollDecides` | client/src/client/client_future.rs:185-312 | what a poll does to a request in flight: timed out exactly when its id expired, else answered by the first message with its id, else still in flight |
| `Validator.BoundedNesting` | client/src/client/secure_client_handle.rs:81-100 | for every server each nested query is at least two deeper, so nothing that two worlds do differently below the tenth nested query can change a validation |
| `Validator.NothingValidates` | client/src/client/secure_client_handle.rs:402-481 | for every server, order of completion and signature scheme: unless some answer holds an anchored key, validation fails at every depth |
| `Validator.SendExactly` | client/src/client/secure_client_handle.rs:95-169 | for every answer, what a validated query returns and exactly when it fails: the answer cut down to the sets that check out, unless none is to be checked, the last to finish does not, or an empty answer is not denied |
| `Validator.ValidatedExactly` | client/src/client/secure_client_handle.rs:181-270 | a record of the answer is in the result exactly when it was to be checked and its set checks out |
| `TrustChains.ReturnedExactly` | client/src/client/secure_client_handle.rs:181-270 | which records but keys are returned: exactly those to be checked for whose set some RRSIG of the three sections that covers its type is verified, over exactly the answer's records of that key, by a DNSKEY record of the validated answer for the signer's keys |
| `TrustChains.KeysReturnedExactly` | client/src/client/secure_client_handle.rs:402-481 | which keys are returned: exactly those whose set holds a key that is anchored, or covered by a DS record of the validated answer for its name, and, where the answer has signatures over keys, one of these is verified |
| `TrustChains.Trustworthy` | client/src/client/secure_client_handle.rs:95-481 | every record returned, at every depth, has a chain of verified signatures and covered delegations down to an anchored key |
| `TrustChains.NothingVerifies` | client/src/client/secure_client_handle.rs:630-640 | where no signature verifies, nothing but keys is ever returned |
| `Validator.KeysReturnedWhole` | client/src/client/secure_client_handle.rs:292-324 | the records of one name and type, keys among them, are returned together or not at all |
| `Validator.KeptExactly` | client/src/client/secure_client_handle.rs:402-506 | preserve leaves in a valid key set exactly the anchored keys of the answer, when some key of the set is anchored, and exactly the keys the validated DS answer delegates to otherwise |
| `Validator.ReturnsKeptExactly` | client/src/client/secure_client_handle.rs:292-324 | every key returned of a valid set is one that preserve left in it exactly when every key of that set in the answer is anchored or delegated to as above |
| `Validator.ForeignKeyReturned` | client/src/client/secure_client_handle.rs:292-324 | an answer of two root keys, one anchored and one not: both are returned, and preserve keeps the anchored one alone |
| `Validator.ValidatedHolds` | client/src/client/secure_client_handle.rs:181-270 | a validated message holds only records of the answer, no RRSIG, and below the first level only DNSKEY and DS |
| `Validator.VerifyRrsetsExactly` | client/src/client/secure_client_handle.rs:181-351 | verify_rrsets fails exactly when there is nothing to check or the last check to finish fails, and otherwise keeps exactly the keys whose check passes |
| `Validator.OrderDoesNotMatter` | client/src/client/secure_client_handle.rs:276-351 | for two worlds that differ in the order in which the checks of a message finish the same keys pass, and where both succeed they return the same message |
| `Validator.KeptInOrder` | client/src/client/secure_client_handle.rs:317-341 | each section is the in-order subsequence of exactly the verified (name, type) pairs |
| `Validator.VerifyRrsetsFuture.Poll` | client/src/client/secure_client_handle.rs:276-351 | the poll loop in place returns what the completions so far settle, and only when none is left |
| `Validator.Preserve` | client/src/client/secure_client_handle.rs:489-506 | the backward loop keeps exactly the elements at the given indexes, in order |
| `Validator.AnchoredArePreserved` | client/src/client/secure_client_handle.rs:415-441 | the keys kept by the trust anchor are those whose indexes are preserved |
| `Builders.CreateAgainstServer` | client/src/client/client_future.rs:535-570 | for every type but SOA, NS, CNAME, and NSEC in a signed zone: create succeeds exactly when the set has no records, and then leaves exactly the given ones |
| `Builders.SwapAgainstServer` | client/src/client/client_future.rs:688-738 | for the same types: compare_and_swap finds all of the current data and leaves old minus current plus new, or answers NXRRSet and changes nothing |
| `Builders.NsecSetsRestored` | server/src/authority/authority.rs:1042-1098 | in a chained zone that is signed, a request of NSEC records alone leaves the data of every NSEC set as it was |
| `Builders.CreateNsecExactly` | client/src/client/client_future.rs:535-570 | so create of an NSEC set there leaves the given data exactly when none is given |
| `Builders.SwapNsecExactly` | client/src/client/client_future.rs:688-738 | and compare_and_swap of one leaves what it asks for exactly when that was there before |
| `Departures.ValuePrerequisitesExactly` | server/src/authority/authority.rs:418-431 | for sections of prerequisites that name records: the code asks that each be held, section 3.2.3 of RFC 2136 that the sets be equal, and they agree exactly when some record named is not held or no set is named only in part |
| `Departures.OneKeyExactly` | server/src/authority/authority.rs:418-431 | for a section of one key, exactly when the data named is not a proper part of the data held |
| `Departures.PartPasses` | server/src/authority/authority.rs:418-431 | of two addresses at a name, naming one passes |
| `Departures.CnameExactly` | server/src/authority/authority.rs:825-834 | section 3.4.2.2 of RFC 2136 ignores a CNAME beside other data and other data beside a CNAME: the code leaves the same records exactly when there is no such conflict or the addition would change nothing |
| `Departures.TtlTakenExactly` | client/src/rr/rr_set.rs:254-334 | an added record is held afterwards, TTL included, exactly when it was held before, its data was not, it is a CNAME, or it is the first SOA or a newer one |
| `Departures.AdditionsDepart` | client/src/rr/rr_set.rs:254-334 | a CNAME is added beside an address, and a new TTL on that address is not taken |
| `Departures.SerialOrderExactly` | client/src/rr/rr_set.rs:254-334 | an SOA offered to a set that holds one replaces it as section 3.2 of RFC 1982 orders serials exactly when the plain difference lies in [-2^31, 2^31) |
| `Departures.WrappedSerialRefused` | client/src/rr/rr_set.rs:254-334 | the serial 0 after 0xFFFFFFFF is refused |

## Left out

- Lowercasing is that of ASCII on byte labels; UTF-8 checks and Unicode lowercasing are not modelled.
- Keys of the zone map are held lowered; the case under which a key was first inserted is kept in its set only.
- Builds are modelled in release mode where arithmetic wraps (`zone_of`, label counts, bit map decoding); debug builds stop there.  The index underflow of `encode_bit_maps` is an outcome of its own, since neither build gets past it.
- A set whose names cannot be encoded is left unsigned in the model where `sign_zone` would stop the program.
- A DNSKEY or NSEC record without data of its type stops the program in some branches of the validator and of `verify_nsec`; the model passes over such records.
- Validation of messages that are not queries: they are passed through, and the model starts at queries.
- The choice among several RRSIGs by algorithm when signatures are asked for; lookups are modelled without signatures.
- The cryptographic strength of a validated chain: verification and digests are arbitrary functions.
- Record data is modelled by the names and fixed octets it holds; the text and wire formats of single types are not.
- Storage of the journal: an append-only sequence; a failed append keeps the records before it, and transactions and schema are not modelled.
- Requests that arrive on the channel in the middle of a poll are modelled as arriving before or after it.
- Sockets, timers, TLS, UDP, threads and locks, configuration and logging.
- The master-file parser, the header and EDNS tables, and the memoizing and retrying client handles.
- The client's update builders other than `create` and `compare_and_swap`: `append`, `delete_by_rdata`, `delete_rrset` and `delete_all`.
