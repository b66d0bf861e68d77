# Meta partition health check

This project models the meta-partition health check of the cluster command-line
tool, found in `cli/cmd/metapartition.go`. A meta partition is replicated on several
meta nodes. The master keeps a record of each partition: its hosts, its replica
number, its missing nodes, its status, and the replica addresses. Each meta node
can also be asked for the peer list it holds for the partition. The check compares
these two views.

- `Diagnosis` models `checkMetaPartition`. It gives the healthy/unhealthy verdict
  and the report rows: a summary row, an optional "unhealthy according to master"
  banner, then one row per replica. The replica address is queried with its port
  stripped.
- `Sweep` models `checkAllMetaPartitions`, run sequentially. It lists the volumes
  and fetches each volume's view. A volume that cannot be fetched gets a notice.
  Each view's partitions are sorted by ID and diagnosed, and only the reports of
  unhealthy partitions are kept.
- `Listing` models the `check` command without `--all`. The corrupt and
  lack-replica ID lists from the master's diagnosis are sorted ascending and then
  fetched. The first failed fetch ends the command.
- `Sorting` models the Go library sorts the code relies on:
  - `sort.Strings` on hosts and peer addresses, in byte-wise string order;
  - `sort.SliceStable` on partition IDs.

  Both are sort functions whose sortedness and permutation are proved, along with
  the uniqueness of a sorted permutation.
- `Proto` holds the records. `Report` holds the rows and lines the output is made of.
- `Scenarios` works through concrete clusters.

Every remote call the model makes is a field of the `Client` value passed in; the master's diagnosis is a parameter. These fields are:

- `getMetaPartition`: the master's record lookup;
- `metaNodeGetPartition`: a meta node's peer list;
- `listVols`: the volume listing;
- `getVolume`: a volume view.

Each returns `Ok(value)` or `Err(message)`. Report rows and listing lines are
structured values, not formatted text. The imperative code is modelled as methods:

- `CheckMetaPartition`;
- `CheckVolumePartitions`;
- `CheckAllMetaPartitions`;
- `ListReplicas`;
- `ListDiagnosedPartitions`.

Each method has loops with invariants, and each is proved equal to a reference
function (`Diagnose`, `PartitionLines`, `SweepLines`/`SweepError`, `ListingRows`,
`DefaultListing`). The lemmas state the properties of those reference functions.

Two behaviours of the code are modelled as written:

- When the master lookup fails, `checkMetaPartition` writes its "not found" text to
  a builder that is never copied out. So the report is empty, and the flag keeps
  its initial value `true`.
- `checkAllMetaPartitions` assigns its named `err` result on every volume fetch.
  What it returns is the outcome of the last volume's fetch: that volume's error,
  or nothing.

## Model

| member | source | states |
|---|---|---|
| Diagnosis.StripPort | cli/cmd/metapartition.go:235 | the queried address is a prefix of the replica address, contains no `':'`, and is either the whole address or stops right before its first `':'` |
| Diagnosis.StripPortNoColon | cli/cmd/metapartition.go:235 | an address without a colon is queried unchanged |
| Diagnosis.CheckMetaPartition | cli/cmd/metapartition.go:216-257 | the method's report, flag and error are those of the reference verdict `Diagnose` |
| Diagnosis.HealthyIffViewsAgree | cli/cmd/metapartition.go:219-253 | healthy exactly when one of two things holds: (1) the lookup failed; or (2) there are no missing nodes, the status is not -1, the host count equals the replica number, and every replica answered with as many peers as the replica number and with peer addresses that are the hosts as a multiset (so in any order) |
| Diagnosis.HealthyStaysCleared | cli/cmd/metapartition.go:227-252 | once the flag is false after some replicas, it stays false after any further replicas |
| Diagnosis.HealthyUpToStep | cli/cmd/metapartition.go:236-252 | after one more replica, the flag is the old flag, conjoined with that replica's answer being a success, with sorted peers equal to the sorted hosts and a peer count equal to the replica number |
| Diagnosis.ReportLayout | cli/cmd/metapartition.go:225-253 | the report is the summary row, then the banner exactly when a master-side condition fails, then one row per replica in the record's order, built from that replica's own reply |
| Diagnosis.ReplicaRowsAt | cli/cmd/metapartition.go:232-253 | the first k replicas give exactly k rows, and the j-th row is replica j's row |
| Diagnosis.BannerIffMasterUnhealthy | cli/cmd/metapartition.go:227-231 | the banner row appears in the report if and only if a master-side condition fails |
| Diagnosis.FailedQueryIsReported | cli/cmd/metapartition.go:236-240 | a replica whose query fails makes the verdict unhealthy and gets a "nil/replicaNum" row with the error text, and the report still holds a row for every replica |
| Diagnosis.ReportExplainsVerdict | cli/cmd/metapartition.go:225-253 | for a partition whose record was found, the verdict is unhealthy if and only if the report carries the master-unhealthy banner or a replica row that shows a fault: a failed query, peers that differ from the sorted hosts, or a peer count that differs from the replica number |
| Diagnosis.FaultShowsInReport | cli/cmd/metapartition.go:227-252 | an unhealthy verdict for a found partition leaves the banner or a faulty replica row in the report |
| Diagnosis.ReportedFaultIsReal | cli/cmd/metapartition.go:236-252 | a faulty replica row in the report means the verdict is unhealthy |
| Diagnosis.ReplicaRowShowsFault | cli/cmd/metapartition.go:236-252 | a replica's row shows a fault if and only if that replica's check fails |
| Diagnosis.LookupFailureKeepsDefaults | cli/cmd/metapartition.go:219-222 | a failed master lookup gives an empty report, the flag `true`, and the lookup's error |
| Sweep.CheckVolumePartitions | cli/cmd/metapartition.go:194-212 | one volume's lines are the reports of the unhealthy partitions, which the model diagnoses in ascending ID order |
| Sweep.CheckAllMetaPartitions | cli/cmd/metapartition.go:179-215 | the sweep's lines and returned error are those of `SweepLines` and `SweepError` |
| Sweep.SweepReportsEachUnhealthyPartition | cli/cmd/metapartition.go:181-212 | if `ListVols` fails, the output is that error alone and the error is returned; otherwise a partition is reported exactly as often as it occurs in the fetched views if it is unhealthy, and never if it is healthy |
| Sweep.SweepReportsOnlyUnhealthy | cli/cmd/metapartition.go:204-208 | every partition report in the sweep's output is for an unhealthy partition and carries that partition's report |
| Sweep.InvalidVolumeIsSkipped | cli/cmd/metapartition.go:190-193 | a volume whose view cannot be fetched contributes only its notice, and the volumes after it are still swept |
| Sweep.VolumeReportsSortedAndComplete | cli/cmd/metapartition.go:194-212 | within a fetched volume, the model diagnoses, and so reports, in ascending ID order, and an unhealthy partition is reported once per occurrence in the view |
| Sweep.PartitionLinesOnlyUnhealthy | cli/cmd/metapartition.go:198-208 | each line of a volume pass is a report for one of that volume's partitions whose verdict is unhealthy |
| Sweep.PartitionLinesCount | cli/cmd/metapartition.go:198-208 | the number of reports for a partition is its number of occurrences if it is unhealthy, and zero if it is healthy |
| Sweep.PartitionLinesInOrder | cli/cmd/metapartition.go:194-211 | the model diagnoses, and so reports, in the order of the IDs, so reports are ascending when the IDs are |
| Sweep.ReportedIdsFromPids | cli/cmd/metapartition.go:198-208 | the reported IDs are a sub-multiset of the IDs diagnosed |
| Sweep.VolumesLinesCount | cli/cmd/metapartition.go:188-213 | over the volumes, reports of a partition number its occurrences in the fetched views if it is unhealthy, and zero otherwise |
| Sweep.VolumesLinesOnlyUnhealthy | cli/cmd/metapartition.go:188-213 | over the volumes, every report is for an unhealthy partition |
| Sweep.MissingPartitionNeverReported | cli/cmd/metapartition.go:204-208 | a partition the master cannot find is never reported by the sweep, because its flag keeps the value `true` |
| Sweep.VolumesLinesSplit | cli/cmd/metapartition.go:188-213 | the volume loop's output over a list is its output over a prefix followed by its output over the rest |
| Listing.ListDiagnosedPartitions | cli/cmd/metapartition.go:123-173 | the listing written is `DefaultListing`: the corrupt header and the rows of the sorted corrupt IDs; then, only if all of those were fetched, the lack-replica header and the blocks of the sorted lack-replica IDs |
| Listing.ListReplicas | cli/cmd/metapartition.go:153-169 | one partition's replica rows are those of `ListingRows` over all its replicas |
| Listing.LeadingFound | cli/cmd/metapartition.go:129-134 | the count of leading IDs whose fetch succeeds: every fetch before it succeeds, and the fetch at it fails when it is within the list |
| Listing.CorruptLinesShape | cli/cmd/metapartition.go:129-136 | the corrupt section is a summary row for each ID before the first failed fetch, then that failure's notice, then nothing |
| Listing.FailedCorruptFetchEndsListing | cli/cmd/metapartition.go:129-134 | a failed corrupt fetch makes that failure's notice the listing's last line, and no lack-replica header is written |
| Listing.CorruptListingAscending | cli/cmd/metapartition.go:126-136 | when every corrupt fetch succeeds, the corrupt IDs are taken in ascending order as a permutation of the given list, the k-th corrupt row is the record of the k-th smallest ID, and the lack-replica header comes right after them |
| Listing.LackLinesStopAtFailure | cli/cmd/metapartition.go:144-149 | in the lack-replica list, the blocks of the IDs before the first failed fetch come first, then that failure's notice ends the section |
| Listing.LackListingAscending | cli/cmd/metapartition.go:138-172 | when every corrupt fetch succeeds, the listing is the corrupt section, the lack-replica header, then the lack-replica section over IDs that are an ascending permutation of the given list; the section's summary rows are the records of the leading fetched IDs, in that order |
| Listing.LackSummaries | cli/cmd/metapartition.go:144-151 | the lack-replica section holds one summary row per leading fetched ID, holding that ID's record, in the order of the IDs |
| Listing.LackBlockSummary | cli/cmd/metapartition.go:150-171 | a fetched partition's block holds exactly one summary row, its own |
| Listing.ListingRowsAt | cli/cmd/metapartition.go:153-169 | the first k replicas give k listing rows, and the j-th is replica j's |
| Listing.LackBlockLayout | cli/cmd/metapartition.go:150-171 | a fetched lack-replica partition gets its summary row, then one row per replica in the record's order ("0/replicaNum, no data" on a failed query; the peer count and sorted peers otherwise), then a separator |
| Sorting.SortStringsSpec | cli/cmd/metapartition.go:226 | sorting strings gives a sorted permutation of its input |
| Sorting.SortedUnique | cli/cmd/metapartition.go:244-247 | two sorted sequences with the same multiset are equal |
| Sorting.SortedEqualIffSameMultiset | cli/cmd/metapartition.go:226-249 | two string lists compare equal after sorting if and only if they hold the same multiset of strings |
| Sorting.LexLeTotal | cli/cmd/metapartition.go:244 | byte-wise string order is total |
| Sorting.LexLeTransitive | cli/cmd/metapartition.go:244 | byte-wise string order is transitive |
| Sorting.LexLeAntisymmetric | cli/cmd/metapartition.go:244 | byte-wise string order is antisymmetric |
| Sorting.InsertStringSorted | cli/cmd/metapartition.go:244 | inserting into a sorted string list keeps it sorted |
| Sorting.InsertStringPermutes | cli/cmd/metapartition.go:244 | inserting adds exactly that one string to the multiset |
| Sorting.SortIdsSpec | cli/cmd/metapartition.go:194-196 | sorting IDs gives an ascending permutation of its input |
| Sorting.IdsSortedUnique | cli/cmd/metapartition.go:126-128 | two ascending ID sequences with the same multiset are equal |
| Sorting.InsertIdSorted | cli/cmd/metapartition.go:141-143 | inserting into an ascending ID list keeps it ascending |
| Sorting.InsertIdPermutes | cli/cmd/metapartition.go:141-143 | inserting adds exactly that one ID to the multiset |
| Scenarios.PeerOrderIsIrrelevant | cli/cmd/metapartition.go:226-249 | the peer lists `[b,a,c]` and `[c,b,a]` compare equal after sorting |
| Scenarios.StripPortOfReplicas | cli/cmd/metapartition.go:235 | `h1:17210` is queried as `h1`, and the same holds for h2 and h3 |
| Scenarios.AllReplicasAgree | cli/cmd/metapartition.go:219-253 | a partition whose three replicas all report h1, h2, h3 is healthy, and a sweep over it reports nothing |
| Scenarios.OneReplicaUnreachable | cli/cmd/metapartition.go:232-253 | with h3 unreachable, the partition is unhealthy; the report is the summary, then "3/3" rows with h1, h2, h3 for the first two replicas, then a "nil/3" row with the error for h3 |
| Scenarios.OneReplicaMissesAPeer | cli/cmd/metapartition.go:243-252 | a replica that sees only h1 and h2 fails both the host comparison and the peer count, so the partition is unhealthy |
| Scenarios.CorruptIdsListedAscending | cli/cmd/metapartition.go:123-143 | corrupt IDs given as 30, 10, 20 are listed as 10, 20, 30, followed by the lack-replica header |
| Scenarios.HostsSorted | cli/cmd/metapartition.go:226 | sorting the hosts h1, h2, h3 leaves them as they are |

## Left out

- Cobra command construction, flags, argument checks and `strconv.ParseUint`. These are command-line plumbing.
- The master and meta-node RPC clients. Their answers are the fields of the `Client` input. Each field is a deterministic function of its arguments.
- `calcAuthKey`. The volume owner is passed to `getVolume` as it stands, and the key derivation is folded into that field.
- Goroutines, `sync.WaitGroup` and the 10 ms sleep in the sweep.
  - The model diagnoses a volume's partitions one after another in ascending ID order.
  - The real program writes each unhealthy report when its goroutine finishes, so the order within a volume is not fixed there.
- Terminal colours and row formatting. The output is modelled as structured values, and the text of each row is left out, including:
  - the `(peers)` suffix;
  - the `nil`/`0` counts;
  - the joined peer strings;
  - the separator rows.
- Printing the sweep's returned error at line 99. The model returns the error; it does not model the print.
- `isEqualStrings` and `convertPeersToArray` are not part of this model. The first is taken as element-wise equality of two sequences, lengths included. The second is taken as the list of the peers' addresses.
- The `proto` package is not part of this model. The field types are assumed as follows:
  - `ReplicaNum` as a natural number;
  - `Status` as an integer;
  - `MissNodes` as a map;
  - IDs as 64-bit unsigned integers.
- The inactive meta node listing (lines 106-121) is out of scope:
  - When every `GetMetaNode` succeeds, it prints a header and then the nodes sorted by ID.
  - It ignores each `GetMetaNode` error (line 113), appends the resulting nil node, and then dereferences that node in the sort (line 117) or the format (line 120).
- The nil `diagnosis` dereference after a failed `DiagnoseMetaPartition` (lines 103-108) is not modelled. It crashes outright. The master's diagnosis is a parameter of `ListDiagnosedPartitions`.
- A `nil` result returned without an error. The model's `Ok` always carries a value. This covers:
  - a `nil` partition in `checkMetaPartition` and in the lack-replica listing, which both skip it;
  - a `nil` partition in the corrupt listing, which has no nil check before it formats the row;
  - a `nil` volume view from `GetVolume`, which the sweep would sort without a check.
- The sweep prints each report with `fmt.Printf(outPut)`, so the report text is used as a format string. A `%` inside an error text or address is rewritten in the real output. The model's reports are structured rows, so this rewriting is not modelled.
- In-place sorting of slices. `sort.Strings` and `sort.SliceStable` are modelled as functions on values.
  - The sort of `partition.Hosts` at line 152 changes nothing the listing prints, so it is not modelled.
  - Stability of `sort.SliceStable` is not modelled. Equal IDs are indistinguishable here.
- `strings.Split(r.Addr, ":")[0]` is modelled as the prefix before the first colon. No other splitting behaviour is modelled.
