# myago, modelled in Dafny

This project models the self-contained logic of `go.pitz.tech/lib` (myago), a
Go utility library, and of its Python dependency-audit script. Each source file
becomes one Dafny module. Code that changes state step by step becomes classes
and methods with loop invariants, and each method is proved against a reference
function. Pure code becomes functions and lemmas. The parts covered are:

- **Dependency audit** (`scripts/nogoogle.py`, module `NoGoogle`). Module keys
  are derived from manifest paths. Candidate lines are scanned. `go mod why`
  output is parsed into import chains by a line-driven state machine. Each
  finding is classified against the allow-table, and that decides the exit
  status.
- **Cluster membership** (`Cluster`, `Discovery`). The sorted active and left
  lists support add, leave, remove, snapshot and majority. DNS discovery
  computes each round's add, leave and remove lists.
- **Single-decree Paxos**:
  - the acceptor (`PaxosAcceptor`);
  - the multi-acceptor vote tally (`PaxosClient`), with concurrent responses
    given as a sequence;
  - the proposer's attempt loop (`PaxosProposer`);
  - the observer's tally and watch set (`PaxosObserver`);
  - the server-ID generator (`PaxosIds`) and configuration validation
    (`PaxosConfig`);
  - the in-memory logs (`PaxosMemory`, `PaxosMemoryLog`, `PaxosStore`);
  - the Badger-backed logs over an ordered map (`PaxosBadger`, `BadgerDbLog`);
  - the wire records (`PaxosWire`).
- **Binary formats**:
  - the write-ahead log's `[uvarint length][record][CRC-32]` framing
    (`Wal`, `WalWriter`, `WalReader`), with Go's unsigned varint and the IEEE
    CRC-32 (`Crc`) written out;
  - variable-length ULIDs (`Ulid`) and 256-bit ULIDs (`Ulid256`);
  - the base32 and base64 codecs of RFC 4648 (`Radix`).
- **Password derivation** (`Pass`): the Master Password template tables,
  template choice, per-character class selection and seed construction.
  scrypt and HMAC-SHA256 are parameters.
- **Parsers, encoders and validators**:
  - the phone-keypad encoders (`Phone`, `EncodeCommand`);
  - the case-insensitive header map (`Headers`);
  - Authorization scheme parsing (`Auth`);
  - the Basic and Bearer handlers and credential stores (`BasicAuth`,
    `BasicStore`, `BasicCsv`);
  - build-info flags (`BuildInfo`);
  - flag slices, names and filtering (`FlagSlice`, `FlagExtract`,
    `FlagFilter`);
  - configuration loading (`ConfigLoader`);
  - OS directory layouts (`DirSet`);
  - the HashiCorp log-line adapter (`HashiLog`);
  - scaffold feature resolution and rendering (`Scaffold`);
  - the single-page-application file fallback (`VueFs`).
- **Small stateful objects**: the LIFO life cycle (`Lifecycle`), and the byte
  pipe and blocking buffer (`Plugin`).

Shared modules hold Go's `sort.Search` (`GoSort`), string helpers with the
semantics of Go's `strings` package (`Text`), byte-level helpers (`Bytes`,
`ByteText`) and the `Option`/`Result` wrappers (`Outcomes`). Sizes from the
source are modelled explicitly where they matter:

- the 64-bit positions and IDs;
- the 48-bit and 24-bit timestamp fields;
- the 32-bit length fields.

Foreign primitives are parameters of the functions that use them: SHA-256,
HMAC, scrypt, msgpack, JSON, the CSV reader, clocks, randomness, DNS lookups
and the file system.

## Model

| member | source | states |
|---|---|---|
| `NoGoogle.RStrip` | scripts/nogoogle.py:28-29 | stripping characters from the right leaves a prefix that does not end in one of them, and everything removed is one of them |
| `NoGoogle.Strip` | scripts/nogoogle.py:35 | a stripped line is empty or neither starts nor ends with white space |
| `NoGoogle.Key` | scripts/nogoogle.py:28-29 | a manifest's key is a prefix of its path that does not end in '/' |
| `NoGoogle.KeyOfManifest` | scripts/nogoogle.py:28-29 | a manifest under a directory is keyed by the directory, and the root manifest by "": the '/' stops the first strip even when the directory name ends in one of the stripped letters |
| `NoGoogle.StripAll` | scripts/nogoogle.py:54 | stripping removes a tail made only of stripped characters and stops at the first character that is not one |
| `NoGoogle.FirstField` | scripts/nogoogle.py:37-38 | the module name is the text of the line before its first space |
| `NoGoogle.Candidates` | scripts/nogoogle.py:34-38 | a manifest names at most one dependency per line |
| `NoGoogle.NoMarkerNoCandidates` | scripts/nogoogle.py:36 | a manifest none of whose lines mentions "google" names no dependency |
| `NoGoogle.CandidatesFromLines` | scripts/nogoogle.py:34-38 | every dependency named is the first field of a stripped line that mentions "google" |
| `NoGoogle.CandidatesStep` | scripts/nogoogle.py:34-38 | one more line adds its dependency, if it names one, after the earlier ones |
| `NoGoogle.ScanManifest` | scripts/nogoogle.py:34-38 | the loop over a manifest's lines collects the reference list of named dependencies |
| `NoGoogle.Chain` | scripts/nogoogle.py:54 | a usage chain is empty or does not end in one of the characters of " => " |
| `NoGoogle.ParseUsages` | scripts/nogoogle.py:46-60 | the parser loop, with its break, gives the reference list of usage chains |
| `NoGoogle.NothingAfterNotNeeded` | scripts/nogoogle.py:50-51 | nothing after the "module does not need package" line is read: whatever follows it, the chains are the same |
| `NoGoogle.NotNeededBeforeChains` | scripts/nogoogle.py:49-60 | output whose lines before that phrase are all headers or empty yields no chain |
| `NoGoogle.NonEmpty` | scripts/nogoogle.py:56-57 | only non-empty lines are buffered |
| `NoGoogle.WithoutHeaders` | scripts/nogoogle.py:49-60 | output with neither headers nor the phrase becomes one chain of all its non-empty lines |
| `NoGoogle.ChainCount` | scripts/nogoogle.py:49-60 | there are at most one chain per header, plus one |
| `NoGoogle.TwoChains` | scripts/nogoogle.py:49-60 | two headers, each followed by its path lines, give the two chains in order |
| `NoGoogle.SecondChain` | scripts/nogoogle.py:52-60 | a header flushes the pending chain, and the lines after it form the next chain at the end |
| `NoGoogle.ParseStep` | scripts/nogoogle.py:50-57 | a header line flushes the buffer, a non-empty other line is buffered and an empty one is skipped |
| `NoGoogle.ParseHeader` | scripts/nogoogle.py:52-55 | a header line flushes the buffer into a chain, if it holds any lines, and empties it |
| `NoGoogle.ParseLine` | scripts/nogoogle.py:56-57 | a non-empty line without '#' is buffered |
| `NoGoogle.ParseEnd` | scripts/nogoogle.py:59-60 | the final empty line ends the input and the buffer is flushed |
| `NoGoogle.ChainExample` | scripts/nogoogle.py:54 | the lines of a chain are joined with " => " |
| `NoGoogle.ChainStripsCharacters` | scripts/nogoogle.py:54 | the right strip removes characters, not the suffix, so a last segment ending in '>' or '=' loses those too |
| `NoGoogle.ManifestFindingsFacts` | scripts/nogoogle.py:62-75 | every finding of a manifest has chains, carries the manifest's key, names one of its dependencies, and is documented exactly when the allow entry lists the dependency |
| `NoGoogle.ManifestSound` | scripts/nogoogle.py:62-75 | the findings of a manifest whose key the table has are sound for the table |
| `NoGoogle.Findings` | scripts/nogoogle.py:27-75 | the findings of all manifests, when no key is missing from the table, are sound for the table |
| `NoGoogle.UndocumentedMembers` | scripts/nogoogle.py:63-68 | the undocumented dependencies are exactly the findings not marked documented |
| `NoGoogle.ExitStatus` | scripts/nogoogle.py:91-102 | the run exits with 1 exactly when some used dependency is missing from its module's allow entry |
| `NoGoogle.MissingKeyAborts` | scripts/nogoogle.py:31 | a manifest whose key the table lacks aborts the run, whatever the manifest holds |
| `NoGoogle.FindingsAbort` | scripts/nogoogle.py:31 | such a manifest makes the findings an error |
| `NoGoogle.RunAudit` | scripts/nogoogle.py:27-102 | the outer loop over the manifests gives the reference result of the run |
| `NoGoogle.Probe` | scripts/nogoogle.py:34-75 | the inner loop gives the reference findings of one manifest and the undocumented ones among them |
| `NoGoogle.ModuleDir` | scripts/nogoogle.py:40-42 | the dependency query runs in the module's directory, or in the root for the root module |
| `NoGoogle.Check` | scripts/nogoogle.py:44-75 | one dependency becomes a finding exactly when its query output has chains, documented when the allow entry lists it, and is undocumented otherwise |
| `NoGoogle.FindingsStep` | scripts/nogoogle.py:36-75 | one more dependency adds its finding, if it has chains, after the earlier ones |
| `NoGoogle.FindingsPrefixAbort` | scripts/nogoogle.py:27-31 | when the loop reaches a manifest with an unknown key, the whole run aborts with that key |
| `NoGoogle.FindingsExtend` | scripts/nogoogle.py:27-31 | once some manifests abort the run, later manifests do not change the error |
| `NoGoogle.OneChainOutput` | scripts/nogoogle.py:44-60 | the query output for a direct use, one header and one path line, gives the single chain of that line |
| `NoGoogle.OneChainLines` | scripts/nogoogle.py:49 | that output splits into its two lines and a final empty line |
| `NoGoogle.OneChainParse` | scripts/nogoogle.py:49-60 | a header, one path line and the final empty line give one chain |
| `NoGoogle.SingleRootFinding` | scripts/nogoogle.py:27-102 | a single root manifest with one used dependency gives one finding, and the run exits with 1 exactly when the root allow entry does not list it |
| `NoGoogle.OneManifest` | scripts/nogoogle.py:27-75 | the findings of one manifest with a known key are those of its named dependencies, queried in its directory |
| `Cluster.SearchStrings` | cluster/membership.go:36 | the search index lies within the list or just past it |
| `Cluster.SearchStringsSorted` | cluster/membership.go:36 | on a sorted list the index splits the elements below the peer from the others |
| `Cluster.FoundIffIn` | cluster/membership.go:36-42 | on a sorted list the check at the search index finds the peer exactly when it is in the list |
| `Cluster.InsertSorted` | cluster/membership.go:45-55 | inserting a peer keeps a list sorted |
| `Cluster.InsertCount` | cluster/membership.go:45-55 | insertion adds one copy of the peer, except that a peer already present and not first is left alone; a peer equal to the first element is added again |
| `Cluster.DeleteSorted` | cluster/membership.go:36-42 | deleting a peer keeps a list sorted |
| `Cluster.DeleteCount` | cluster/membership.go:36-42 | deleting from a sorted list removes exactly one copy of the peer when there is one |
| `Cluster.DeleteFound` | cluster/membership.go:36-42 | whenever the search finds the peer exactly if it is there, deleting removes one copy of it |
| `Cluster.DeleteStrict` | cluster/membership.go:36-42 | deleting from a sorted list without duplicates removes the peer entirely |
| `Cluster.AddPeerValid` | cluster/membership.go:34-56 | adding one peer keeps both lists sorted |
| `Cluster.LeavePeerValid` | cluster/membership.go:68-92 | marking one peer as left keeps both lists sorted |
| `Cluster.RemovePeerValid` | cluster/membership.go:104-122 | removing one peer keeps both lists sorted |
| `Cluster.OperationsKeepOrder` | cluster/membership.go:27-123 | adding, leaving and removing any list of peers keep both lists in non-decreasing order |
| `Cluster.AddAllActive` | cluster/membership.go:27-57 | after adding peers, every one of them is active |
| `Cluster.InsertKeeps` | cluster/membership.go:45-55 | inserting keeps every element and the new peer is present |
| `Cluster.AddAllNotLeft` | cluster/membership.go:34-42 | after adding peers none of them is listed as left, provided the left list held no duplicates |
| `Cluster.LeavePeerMoves` | cluster/membership.go:68-92 | marking an active peer as left removes one copy from the active list and lists it as left; a peer that is not active is skipped |
| `Cluster.RemovePeerDeletes` | cluster/membership.go:104-122 | removing a peer deletes one copy from each list and nothing else |
| `Cluster.AddTwiceLeaveOnce` | cluster/membership.go:49-50 | as written, a peer equal to the first active element is inserted again: adding "h" twice makes it active twice, and one leave keeps it active while also listing it as left |
| `Cluster.InsertUniqueStrict` | cluster/membership.go:45-55 | the corrected insertion, which skips a peer already present at any index, keeps a duplicate-free sorted list duplicate-free and adds exactly the peer |
| `Cluster.CorrectedAddTwiceLeaveOnce` | cluster/membership.go:45-55 | with the corrected insertion, adding a peer twice and leaving once makes it inactive |
| `Cluster.EvenMembershipDisjointQuorums` | cluster/membership.go:125-129 | as written, with an even number of members the quorum is exactly half, so the two halves of the cluster are disjoint quorums |
| `Cluster.QuorumSize` | cluster/membership.go:125-129 | the corrected quorum size is more than half of the members, and at most one above half |
| `Cluster.QuorumsIntersect` | cluster/membership.go:125-129 | any two quorums of the corrected size drawn from the same members share a member |
| `Cluster.Membership.Add` | cluster/membership.go:27-57 | the loop over the peers gives the reference state after adding them, and keeps both lists sorted |
| `Cluster.Membership.Left` | cluster/membership.go:61-93 | the loop over the peers gives the reference state after they leave, and keeps both lists sorted |
| `Cluster.Membership.Remove` | cluster/membership.go:97-123 | the loop over the peers gives the reference state after removing them, and keeps both lists sorted |
| `Cluster.Membership.Snapshot` | cluster/membership.go:158-171 | the snapshot is the active list followed by the left list, and the split index is where the left list begins |
| `Cluster.Membership.Majority` | cluster/membership.go:125-129 | the quorum size is half of all members, rounded up |
| `Discovery.Joined` | cluster/discovery_dns.go:60-67 | the peers that join are exactly the resolved peers not seen in the previous round |
| `Discovery.Next` | cluster/discovery_dns.go:59-84 | after a successful lookup the last set is the resolved set, the left set is the previous round's peers missing now, and the removed peers are those that had left and are still missing |
| `Discovery.RemovedAfterTwoAbsentRounds` | cluster/discovery_dns.go:69-84 | a peer is removed exactly when it was present two rounds ago and missing in both of the last two rounds |
| `Discovery.Enumerate` | cluster/discovery_dns.go:77 | iterating a set visits each element once, in some order |
| `Discovery.Missing` | cluster/discovery_dns.go:69-82 | the loop collects each peer of the set that is not resolved now, once each |
| `Discovery.Resolve` | cluster/discovery_dns.go:59-67 | the first loop builds the resolved set and the list of joining peers |
| `Discovery.ResolvedStep` | cluster/discovery_dns.go:60-67 | one more resolved peer enters the resolved set, and joins if it was not resolved last round |
| `Discovery.DnsDiscovery.Tick` | cluster/discovery_dns.go:46-96 | a failed lookup changes nothing; otherwise the sets move on as the next-round function says and membership receives the joining, leaving and removed peers in that order, each only when non-empty |
| `PaxosAcceptor.PrepareOutcomes` | paxos/acceptor.go:58-81 | a request at or below the promised ID gets the zero promise and changes nothing; a granted one returns a promise with the request's ID that raises the promised ID and carries the last accepted proposal exactly when the attempt is above 1; a failed log write changes nothing and returns the error |
| `PaxosAcceptor.AcceptOutcomes` | paxos/acceptor.go:83-103 | a proposal below the promised ID gets the zero proposal and changes nothing; one at or above it becomes the last accepted proposal and is echoed back; a failed log write returns the error and changes nothing |
| `PaxosAcceptor.PromiseNeverDecreases` | paxos/acceptor.go:58-103 | over any sequence of prepare and accept calls the promised ID never decreases |
| `PaxosAcceptor.GrantedPromiseBlocksLowerAccepts` | paxos/acceptor.go:58-103 | once a prepare with ID n is granted, every later accept with an ID below n is refused with the zero proposal and leaves the acceptor unchanged |
| `PaxosAcceptor.RunAppend` | paxos/acceptor.go:58-103 | running two batches of calls is running the first, then the second from the state it left |
| `PaxosAcceptor.Acceptor.Prepare` | paxos/acceptor.go:58-81 | the new promised and accepted values and the reply are those of the prepare step; the promise is appended to the promise log only when granted and recorded; the accepted log is unchanged |
| `PaxosAcceptor.Acceptor.Accept` | paxos/acceptor.go:83-103 | the new state and reply are those of the accept step; the proposal is appended to the accepted log only when accepted and recorded; the promise log is unchanged |
| `PaxosAcceptor.NewAcceptor` | paxos/acceptor.go:30-47 | a failed read of the promise log's last entry, then of the accepted log's, fails construction with that error; otherwise the acceptor starts from the last entries, or the zero values when a log is empty |
| `PaxosClient.UpperBound` | paxos/acceptor_client.go:54-56 | the insertion index found by the search is within the list |
| `PaxosClient.UpperBoundSorted` | paxos/acceptor_client.go:54-56 | on sorted IDs the index lands after every ID not above the new one and before every ID above it |
| `PaxosClient.InsertKeepsOrder` | paxos/acceptor_client.go:54-62 | inserting at the search index keeps the IDs sorted |
| `PaxosClient.CountInsert` | paxos/acceptor_client.go:54-62 | inserting one ID anywhere adds one to its own count and leaves every other count alone |
| `PaxosClient.GreatestIsGreatest` | paxos/acceptor_client.go:69-82 | the accepted proposal the tally loop keeps is one of the promises' accepted proposals with the highest ID, or none when no promise carries one |
| `PaxosClient.PromiseInserted` | paxos/acceptor_client.go:54-62 | inserting a promise at the search index keeps the list sorted by ID, grows it by one, adds that promise and nothing else, and counts its ID once more |
| `PaxosClient.ProposalInserted` | paxos/acceptor_client.go:131-139 | the same for an accepted proposal |
| `PaxosClient.PromisesCollectedStep` | paxos/acceptor_client.go:47-63 | one more response keeps the collected promises sorted, equal in number and membership to the non-nil responses so far, with the same count of the request's ID |
| `PaxosClient.CollectPromises` | paxos/acceptor_client.go:45-63 | the collected promises are sorted by ID and hold exactly the non-nil responses, as many of them and with the same count of the request's ID |
| `PaxosClient.CollectProposals` | paxos/acceptor_client.go:122-140 | the collected proposals are sorted by ID and as many as the non-nil responses, with the same count of the proposal's ID |
| `PaxosClient.Prepare` | paxos/acceptor_client.go:26-94 | with no acceptors or fewer than a majority the reply is the zero promise; otherwise the reply carries the request's ID and the highest-ID accepted proposal exactly when a majority of non-nil promises arrived and a majority carry the request's ID, and is the zero promise otherwise |
| `PaxosClient.Accept` | paxos/acceptor_client.go:101-158 | with no acceptors the reply is the zero proposal; otherwise the proposal is echoed exactly when a majority of non-nil responses arrived and a majority of them carry its ID |
| `PaxosClient.MultiAcceptorClient.Add` | paxos/acceptor_client.go:160-178 | after a successful dial the member is cached and the size goes up by one only if it was not cached before; a failed dial changes nothing |
| `PaxosClient.MultiAcceptorClient.Remove` | paxos/acceptor_client.go:180-185 | the member leaves the cache and the size goes down by one only if it was cached |
| `PaxosClient.FailedAcceptorPanics` | paxos/acceptor_client.go:21-24 | as written, a single acceptor whose call failed makes Prepare panic: the nil promise is wrapped in a non-nil interface, so it is not skipped and its ID is read |
| `PaxosClient.FailedAcceptorPanicsOnAccept` | paxos/acceptor_client.go:96-148 | as written, a single acceptor whose call failed makes Accept panic: `sendAccept` sends the nil proposal in a non-nil interface, the nil check keeps it and the tally reads its ID |
| `PaxosProposer.PrepareStep` | paxos/proposer.go:34-51 | one turn of the loop: an ID error ends it; otherwise the request carries the new ID and the attempt number, and the loop goes on only when the acceptor promised another ID |
| `PaxosProposer.PrepareRequest` | paxos/proposer.go:34-51 | the j-th request is numbered from 1 and carries the ID generated for it; every attempt before the last was answered with a promise for another ID |
| `PaxosProposer.PrepareResult` | paxos/proposer.go:33-52 | a promise is returned only when it is for the ID generated on the last attempt, and it is that attempt's reply |
| `PaxosProposer.Prepare` | paxos/proposer.go:33-52 | the loop computes the reference `PrepareFrom`: the outcome and the requests sent |
| `PaxosProposer.ChooseValue` | paxos/proposer.go:61-64 | the promised proposal's value is proposed when it is present and non-empty, our own value otherwise |
| `PaxosProposer.Propose` | paxos/proposer.go:54-84 | one try of `Propose`: prepare, choose the value, ask the acceptor to accept it, and return the value the acceptor answered with |
| `PaxosProposer.CooperativeAcceptor` | paxos/proposer.go:54-84 | with an acceptor that promises the first ID with nothing accepted and echoes the proposal, our own value is returned |
| `PaxosProposer.AcceptedValueWins` | paxos/proposer.go:61-74 | a non-empty value the acceptor already accepted replaces ours and is what `Propose` returns |
| `PaxosObserver.Tally` | paxos/observer.go:112-117 | after a vote the ID's tally holds the voter together with its earlier voters, and every other ID's tally is unchanged |
| `PaxosObserver.TallyIdempotent` | paxos/observer.go:113-117 | a second vote by the same member for the same ID changes nothing |
| `PaxosObserver.TallyCountsDistinctVoters` | paxos/observer.go:113-119 | starting from no tallies, an ID's tally is the set of members who voted for it, never more than the votes |
| `PaxosObserver.Observer.constructor` | paxos/observer.go:90-104 | the loop starts with no tallies and no watched members, the last recorded proposal or the zero proposal when the log is empty, and the membership's majority |
| `PaxosObserver.Observer.OnVote` | paxos/observer.go:110-129 | the vote is tallied; once the distinct voters for the ID reach the majority the proposal is recorded, and a successful record moves the last accepted proposal to it only if its ID is larger, so that ID never decreases |
| `PaxosObserver.Observer.OnChange` | paxos/observer.go:130-155 | each active member not yet watched starts being watched, left and removed members stop being watched, and the majority is taken again; tallies and the last accepted proposal are unchanged |
| `PaxosObserver.Start` | paxos/observer.go:90-104 | a failure to read the last recorded proposal is returned before anything else; otherwise the loop starts from that proposal, or the zero proposal, with nothing watched or tallied |
| `Headers.Find` | headers/headers.go:41-43 | the values read are those stored under the lower-cased key, or none |
| `Headers.FindIgnoresCase` | headers/headers.go:31-53 | keys that differ only in letter case read the same values and the same first value |
| `Headers.FindAfterAssign` | headers/headers.go:31-43 | after setting a key's values, every spelling of the key reads the new values and every other key keeps its values |
| `Headers.FirstEmpty` | headers/headers.go:46-53 | the first value is "" exactly when the key has no values or its first value is "", and is otherwise the first stored value |
| `Headers.FirstAfterSet` | headers/headers.go:36-53 | after setting one value, reading the first value under any spelling of the key returns it |
| `Headers.Header.constructor` | headers/headers.go:23-25 | a new header map is empty |
| `Headers.Header.SetAll` | headers/headers.go:31-33 | the values are stored under the lower-cased key, replacing what was there |
| `Headers.Header.Set` | headers/headers.go:36-38 | the one value is stored as the key's only value under the lower-cased key |
| `PaxosIds.Next` | paxos/id_generator.go:60-65 | the low byte of an ID is the server ID and the rest is the clock's milliseconds, truncated toward zero and wrapped to 56 bits; it never fails |
| `PaxosIds.Pack` | paxos/id_generator.go:62 | shifting a value below 2^56 left 8 bits and or-ing a byte keeps both parts and fits 64 bits |
| `PaxosIds.DistinctServersDistinctIds` | paxos/id_generator.go:60-65 | two servers with different IDs never produce the same ID, in the same millisecond or any other |
| `PaxosIds.LaterMillisecondLargerId` | paxos/id_generator.go:60-65 | within one server, a later millisecond (before 2^56 ms) gives a larger ID |
| `PaxosConfig.ValidationErrorMeaning` | paxos/paxos.go:46-61 | validation succeeds exactly when every required field is set; otherwise the error is the message of the first missing field in declaration order |
| `PaxosConfig.Config.Validate` | paxos/paxos.go:41-62 | a missing clock is filled in with a real clock, and the result is the validation error of the completed configuration |
| `PaxosConfig.New` | paxos/paxos.go:66-86 | construction fails or panics only in building the acceptor from the two logs; the acceptor starts from the logs' last promise and acceptance, and no other field is checked |
| `PaxosConfig.MissingAcceptedLogMisreported` | paxos/paxos.go:49-52 | a configuration lacking only the accepted log is told "missing promise log", the same text as one lacking the promise log |
| `PaxosConfig.IntendedMessagesDistinct` | paxos/paxos.go:47-58 | with each field's own message, different missing fields give different errors |
| `PaxosStore.SearchIdsAscending` | paxos/memory.go:81-83 | on ascending IDs the search for the first ID not below `x` splits the IDs below `x` from the rest |
| `PaxosStore.RecordedEndBounds` | paxos/memory.go:81-87 | when `end` is recorded, the start and end searches bound exactly the IDs in [start, end] |
| `PaxosStore.Visit` | paxos/memory.go:93-104 | the loop over an empty index range visits nothing and succeeds |
| `PaxosStore.VisitBracketed` | paxos/memory.go:93-104 | when the index range holds exactly the IDs in [start, end] and nothing fails, the loop visits exactly those messages and succeeds |
| `PaxosStore.VisitClean` | paxos/memory.go:93-104 | without errors the loop hands the callback every message of the index range, in order |
| `PaxosStore.VisitIgnoresCallback` | paxos/log.go:61-69 | a loop that drops the callback's error ends with an error only on a decoding failure |
| `PaxosStore.Within` | paxos/memory.go:77 | the messages whose IDs lie in [start, end] are a sub-list of the log |
| `PaxosStore.WithinSlice` | paxos/memory.go:93 | when the IDs in [start, end] sit at consecutive indices, the range query's answer is that slice of the log |
| `PaxosMemory.Recorded` | paxos/memory.go:46-61 | recording keeps the ID and message lists the same length |
| `PaxosMemory.RecordedEntries` | paxos/memory.go:46-61 | recording keeps the IDs strictly ascending; the first write of an ID wins, and the log gains the pair (id, message) exactly when the ID was new, losing nothing |
| `PaxosMemory.SpliceAscending` | paxos/memory.go:59 | inserting an ID at the index the search found keeps the IDs strictly ascending |
| `PaxosMemory.Latest` | paxos/memory.go:66-75 | `Last` yields nothing on an empty log, otherwise the last message or its decoding error |
| `PaxosMemory.LatestIsGreatest` | paxos/memory.go:66-75 | on the sorted log, `Last` yields nothing exactly when the log is empty, and otherwise the message of the greatest ID |
| `PaxosMemory.VisitedNothingAboveAll` | paxos/memory.go:89-91 | when `start` exceeds every recorded ID, `Range` visits nothing and succeeds |
| `PaxosMemory.VisitedRecordedEnd` | paxos/memory.go:77-107 | when `end` is a recorded ID and nothing fails, `Range` visits exactly the messages whose IDs lie in [start, end], in ID order |
| `PaxosMemory.VisitedBracketed` | paxos/memory.go:81-104 | when the two searches bracket exactly the IDs in [start, end], `Range` visits those messages |
| `PaxosMemory.RangePastEnd` | paxos/memory.go:85-93 | over IDs 1 and 5, `Range(1, 3)` also visits the message of ID 5, and `Range(1, 9)` reads past the end of the log |
| `PaxosMemory.Above` | paxos/memory.go:85-87 | the search predicate for the first ID past `end`, one answer per ID |
| `PaxosMemory.VisitedWithinExact` | paxos/memory.go:77-107 | the corrected `Range` never reads past the log and, when nothing fails, visits exactly the messages with IDs in [start, end] |
| `PaxosMemory.VisitedWithinBracketed` | paxos/memory.go:81-104 | when the corrected searches bracket [start, end], the corrected `Range` visits exactly those messages |
| `PaxosMemory.WithinBounds` | paxos/memory.go:81-87 | on ascending IDs, the first ID not below `start` and the first ID above `end` bracket exactly the IDs in [start, end] |
| `PaxosMemory.Memory.constructor` | paxos/memory.go:26-30 | a new log is empty |
| `PaxosMemory.Memory.WithPrefix` | paxos/memory.go:32-35 | the prefix is ignored and a new, empty log is returned |
| `PaxosMemory.Memory.Record` | paxos/memory.go:37-64 | a marshalling error is returned and changes nothing; otherwise the entry is inserted in ID order unless the ID is present, and the log stays sorted |
| `PaxosMemory.Memory.Last` | paxos/memory.go:66-75 | `Last` is `Latest` of the stored messages: nothing, the last message, or its decoding error |
| `PaxosMemory.Memory.Range` | paxos/memory.go:77-107 | the two searches and the visiting loop, ending at the first decoding or callback error, compute the reference `Visited` |
| `PaxosMemoryLog.VisitedIgnoresCallback` | paxos/log.go:61-71 | only a decoding error ends `Range` with an error; a failing callback is ignored |
| `PaxosMemoryLog.VisitedAscending` | paxos/log.go:49-72 | on a log recorded in ascending ID order, with `end` recorded and everything decoding, `Range` visits exactly the messages in [start, end], whatever the callback answers |
| `PaxosMemoryLog.VisitedSlice` | paxos/log.go:53-69 | when the two searches bracket exactly [start, end] and everything decodes, `Range` visits those messages |
| `PaxosMemoryLog.EmptyRangePanics` | paxos/log.go:53-63 | on an empty log `Range` reads index 0 and panics, where the sorted log succeeds |
| `PaxosMemoryLog.UnsortedRangeMisses` | paxos/log.go:33-34 | the log is not sorted, so after recording ID 5 and then ID 1, `Range(1, 1)` visits the message of ID 5 and never that of ID 1 |
| `PaxosMemoryLog.MemoryLog.constructor` | paxos/log.go:18-22 | a new log is empty |
| `PaxosMemoryLog.MemoryLog.Record` | paxos/log.go:24-36 | a marshalling error changes nothing; otherwise the entry is appended with no ordering or duplicate check |
| `PaxosMemoryLog.MemoryLog.Last` | paxos/log.go:38-47 | `Last` yields the most recently recorded message, whatever its ID |
| `PaxosMemoryLog.MemoryLog.Range` | paxos/log.go:49-72 | the searches and the visiting loop compute the reference `Visited`, which ignores callback errors |
| `PaxosMemoryLog.MemoryLog.Close` | paxos/log.go:74-76 | closing always succeeds |
| `PaxosMemoryLog.LastAfterRecord` | paxos/log.go:33-46 | the message just recorded is what `Last` returns next |
| `KvStore.Lookup` | paxos/badger.go:47 | a value found is stored under the key; nothing found means no entry has the key |
| `KvStore.PutOrdered` | paxos/badger.go:46-53 | a write keeps the keys in ascending bytewise order |
| `KvStore.PutLookup` | paxos/badger.go:46-53 | after a write the written key holds the new value and every other key keeps its own |
| `KvStore.Seek` | paxos/badger.go:94 | a forward seek lands within the entries or just past them |
| `KvStore.SeekBounds` | paxos/badger.go:94 | on ordered entries a forward seek lands on the first key not below the sought one |
| `KvStore.ReverseSeek` | paxos/badger.go:71 | a reverse seek lands within the entries or just before them |
| `KvStore.ReverseSeekBounds` | paxos/badger.go:71 | on ordered entries a reverse seek lands on the last key not above the sought one |
| `KvStore.Db.Set` | paxos/badgerdb/log.go:34-36 | a write inside an update replaces or adds the key's value and keeps the store ordered |
| `PaxosBadger.Key` | paxos/badger.go:18-26 | a key is the prefix followed by 8 more bytes, and the ID can be read back from them |
| `PaxosBadger.KeyOrder` | paxos/badger.go:18-26 | within one prefix, bytewise key order is numeric ID order |
| `PaxosBadger.KeyInjective` | paxos/badger.go:18-26 | two IDs have the same key exactly when they are equal |
| `PaxosBadger.KeyCompare` | paxos/badger.go:18-26 | a key of the prefix's shape is the key of the ID it encodes, and compares with any other key of the prefix as the IDs compare |
| `PaxosBadger.KeyNotPrefix` | paxos/badger.go:110 | the key of one ID never begins with the key of another, so the stop test matches only the stop ID's own key |
| `PaxosBadger.BetweenSharesPrefix` | paxos/badger.go:94-95 | any key between two keys with a common prefix has that prefix too |
| `PaxosBadger.LastSeekKey` | paxos/badger.go:68-69 | the key the backward seek starts from is the prefix and eight 0xFF bytes, the key of the largest 64-bit ID |
| `PaxosBadger.LastFound` | paxos/badger.go:56-79 | with no entry under the prefix the result is nil, with nothing decoded |
| `PaxosBadger.LastIsGreatest` | paxos/badger.go:56-79 | when the prefix has entries, the backward seek lands on an entry of the prefix whose ID is the greatest recorded under it |
| `PaxosBadger.SelectedSlice` | paxos/badger.go:81-117 | when a block of positions holds exactly the keys of the prefix with IDs in [start, stop], the values selected are those of that block, in order |
| `PaxosBadger.ScanClean` | paxos/badger.go:95-114 | with no decode or callback error, a scan over prefixed entries that meets the stop key at a position hands over the values up to and including it and returns nil |
| `PaxosBadger.RangeBlock` | paxos/badger.go:94-114 | between the start key's seek position and the stop key's position lie exactly the prefix's entries with IDs in [start, stop], and only the last one matches the stop key |
| `PaxosBadger.RangeAt` | paxos/badger.go:94-114 | one position of that block: it lies in the block exactly when its ID is in [start, stop] |
| `PaxosBadger.RangeInside` | paxos/badger.go:94-114 | a position from the seek to the stop key holds an ID in [start, stop] under the prefix, and only the last one matches the stop key |
| `PaxosBadger.RangeOutside` | paxos/badger.go:94-114 | a position before the seek or after the stop key holds no ID in [start, stop] |
| `PaxosBadger.RangedRecordedStop` | paxos/badger.go:81-117 | with a recorded stop ID and no errors, the callback receives exactly the values of the prefix's IDs in [start, stop], in ascending ID order, and the result is nil |
| `PaxosBadger.RangeRunsPastUnrecordedStop` | paxos/badger.go:110-113 | the stop test only matches a recorded stop key: with IDs a and b recorded and a < stop < b, the range from a to stop also hands over b's value |
| `PaxosBadger.RangeScan` | paxos/badger.go:94-116 | the loop hands over the values and returns the error that the reference scan of the ordered entries gives |
| `PaxosBadger.FirstWriteWins` | paxos/badger.go:46-53 | recording a key that already has a value changes nothing; recording an absent key adds it; other keys are unchanged |
| `PaxosBadger.Badger.WithPrefix` | paxos/badger.go:28-37 | the new log shares the database and its prefix is the old prefix followed by the given one |
| `PaxosBadger.Badger.Record` | paxos/badger.go:39-54 | a marshalling error is returned and the database is unchanged; a failed update transaction returns its error and leaves the database unchanged; otherwise the value is written under the ID's key only if the key is absent, and the result is nil |
| `PaxosBadger.Badger.Range` | paxos/badger.go:81-117 | the callback receives the values, and the call returns the error, of the reference scan from the start key |
| `BadgerDbLog.Log.Record` | paxos/badgerdb/log.go:27-37 | a marshalling error is returned and the database is unchanged; a failed update transaction returns its error and leaves the database unchanged; otherwise the value is written under the ID's key whether or not one was there, and the result is nil |
| `BadgerDbLog.Log.Range` | paxos/badgerdb/log.go:60-96 | the callback receives the values, and the call returns the error, of the reference scan shared with the first Badger log |
| `BadgerDbLog.LastWriteWins` | paxos/badgerdb/log.go:34-36 | recording an ID again replaces its message, and the messages of other IDs are unchanged |
| `Wal.UvarintLength` | wal/wal.go:9-10 | a number below 2^(7k) takes at most k varint bytes, and a number below 128 exactly one |
| `Wal.Uint64Uvarint` | wal/wal.go:9-10 | a 64-bit length takes at most ten bytes, so the ten-byte scratch buffer suffices |
| `Wal.ReadUvarintFrom` | wal/reader.go:63-64 | a successful varint read ends after the start, within the input and within ten bytes |
| `Wal.UvarintRoundTrip` | wal/reader.go:63-64 | reading back a varint written at any of the first ten positions gives the number and the index after it, whatever follows |
| `Wal.UvarintDecodes` | wal/writer.go:55 | writing a 64-bit number as a varint and reading it back gives the number and the varint's length |
| `Wal.RecordLength` | wal/wal.go:8-12 | `RecordLength` is the size of the record's frame |
| `Wal.RecordLengthBounds` | wal/wal.go:8-12 | a frame costs at least five bytes beyond the record, exactly five when the length is below 128 |
| `Crc.RegisterBound` | wal/writer.go:52 | the checksum register stays a 32-bit value whatever the data |
| `Crc.StepInjective` | wal/writer.go:52 | one shift round of the register is invertible on 32-bit values |
| `Crc.ByteInjective` | wal/writer.go:52 | after one byte, equal registers came from equal registers exactly when the bytes were equal |
| `Crc.RegisterInjective` | wal/writer.go:52 | different registers stay different over the same data |
| `Crc.FirstByteDetected` | wal/reader.go:81 | from any register value, data differing only in its first byte end in different registers |
| `Crc.RegisterDetects` | wal/reader.go:81 | the register tells apart data that differ in one byte, after any common prefix |
| `Crc.DetectsByteChange` | wal/reader.go:81 | the checksum the reader compares changes whenever a single byte of the record changes |
| `Bytes.FromToBigEndian` | paxos/badger.go:23 | decoding the big-endian encoding of a number that fits the width gives the number back |
| `Bytes.ToFromBigEndian` | ulid/ulid.go:74-78 | encoding a decoded byte string at its own width gives the byte string back |
| `Bytes.BigEndianOrder` | paxos/badger.go:23 | big-endian encodings of one width compare bytewise exactly as the numbers compare |
| `Bytes.CopyInto` | ulid/generator.go:57-59 | Go's `copy`: the first bytes of the destination replaced by the source, as many as both hold; also used for ulid256/ulid.go:21-22 |
| `Bytes.StringBytes` | auth/basic/static.go:45 | the bytes of a string are one per character, each the character's value when it is below 256 |
| `WalWriter.PutUvarint` | wal/writer.go:55 | the varint of the length is written at the front of the buffer and its length returned |
| `WalWriter.PutUint32` | wal/writer.go:57 | four big-endian bytes are written at the offset and nothing else changes |
| `WalWriter.CopyAt` | wal/writer.go:56 | the record is copied after the varint and nothing else changes |
| `WalWriter.EncodeFrame` | wal/writer.go:51-59 | the scratch array, cut to the frame, holds the varint length, the record and its big-endian CRC-32 |
| `WalWriter.Writer.constructor` | wal/writer.go:32-41 | writes go after the file's existing contents, with an empty buffer |
| `WalWriter.Writer.Write` | wal/writer.go:50-65 | the frame of the record is buffered and the record's own length reported; on a buffer error nothing is written and 0 is reported |
| `WalWriter.Writer.Flush` | wal/writer.go:67-69 | the buffered bytes reach the file unless the file write fails |
| `WalWriter.Writer.Sync` | wal/writer.go:71-73 | `Sync` is `Flush` |
| `WalWriter.Writer.Close` | wal/writer.go:75-79 | the buffer is flushed, a flush error dropped, and only the handle's close error reported; after a failed flush the file and the buffer are as they were |
| `WalReader.CheckedFrame` | wal/reader.go:69-85 | once its varint is read, a frame yields its record when the stored checksum is the record's CRC-32 and a corrupted block otherwise; either way the reader moves past the whole frame |
| `WalReader.DecodeWithFrame` | wal/reader.go:63-85 | a peeked header holding a frame's varint decodes the frame that follows |
| `WalReader.DecodeFrame` | wal/reader.go:57-86 | a frame followed by anything, ten bytes in all, reads back as its record and advances past the frame |
| `WalReader.ShortLastRecordUnreadable` | wal/reader.go:58-61 | a last record of fewer than five bytes cannot be read: its frame is shorter than the ten-byte peek, so `Read` reports EOF |
| `WalReader.DecodeIntendedFrame` | wal/reader.go:57-86 | with a peek of whatever is left, every frame reads back, however short and whatever follows |
| `WalReader.FramesReadBack` | wal/reader.go:57-86 | reading a log of frames, the k-th read returns the k-th record and leaves the frames after it, unless it is a last record shorter than five bytes |
| `WalReader.ElevenByteRecord` | wal/wal_test.go:29-64 | an eleven-byte record such as "hello world" reads back and moves the position to 16 |
| `WalReader.CorruptedFrameSkipped` | wal/reader.go:72-83 | a frame whose checksum does not match is a corrupted block, yet the position and the buffer have moved past it |
| `WalReader.CopyPrefix` | wal/reader.go:85 | Go's `copy`: as many bytes as both hold, the rest of the destination unchanged |
| `WalReader.NextFrame` | wal/reader.go:58-83 | peeking, reading the varint and checking the frame compute the reference `Decode`, which panics on a frame size above the runtime's 2^48-byte allocation limit or one that wraps past 2^64 |
| `WalReader.Reader.constructor` | wal/reader.go:33-42 | a new reader starts at the start of the file, at position 0 |
| `WalReader.Reader.Read` | wal/reader.go:57-86 | one frame is consumed as `Decode` describes; the position moves, wrapping at 2^64, before the checksum is checked; on success the record, cut to the size of `p`, is copied into `p` |
| `WalReader.Reader.Seek` | wal/reader.go:88-97 | on a failed seek nothing changes; on success the buffer is dropped and reading and the position resume at the new offset |
| `Ulid.Layout` | ulid/ulid.go:27-83 | a ULID's skew byte, payload and timestamp (its low 48 bits) read back the fields it was laid out from |
| `Ulid.Parse` | ulid/ulid.go:48-63 | a parsed ULID has at least eight bytes |
| `Ulid.SymbolCase` | ulid/ulid.go:43-49 | the Crockford symbols are digits and capital letters, unchanged by upper-casing |
| `Ulid.UpperString` | ulid/ulid.go:91-93 | the text form is already upper case, so lower- then upper-casing it changes nothing |
| `Ulid.ParseString` | ulid/ulid.go:48-93 | the text form parses back to the same bytes when there are at least eight of them, and to `ErrNotEnoughBits` otherwise, whatever the case of its letters |
| `Ulid.ParseCanonical` | ulid/ulid.go:48-63 | every ULID `Parse` returns renders to a string that parses back to it |
| `Ulid.GenerationMeaning` | ulid/generator.go:41-67 | a generated ULID has bits/8 bytes, the generator's skew, the low 48 bits of the clock's milliseconds and the fill's payload; fewer than 64 bits, then a bit count that is not whole bytes, then a fill error, then a short fill are the failures, in that order |
| `Ulid.GeneratedParses` | ulid/generator.go:41-67 | a generated ULID survives `String` and `Parse` |
| `Ulid.Generator.constructor` | ulid/generator.go:26-31 | the generator keeps the skew and the fill |
| `Ulid.Generator.Generate` | ulid/generator.go:41-67 | the bytes allocated and written in place are the reference generation, and nil comes exactly with an error |
| `Ulid.CopyPayload` | ulid/generator.go:59 | the fill writes over the payload bytes only; the skew and timestamp bytes are kept |
| `Ulid.TimestampBytes` | ulid/generator.go:51-57 | bytes 2 to 7 of the 64-bit big-endian clock reading are its low 48 bits |
| `Ulid.ValueScanned` | ulid/ulid.go:96-128 | `Value` then `Scan` restores a ULID of at least eight bytes, from a string or a string pointer |
| `Ulid.Scan` | ulid/ulid.go:101-128 | a nil source is stored before the destination is checked, so a nil destination with a nil source panics; otherwise the destination takes the parsed value, or the error is returned and it is kept |
| `Ulid.ScanChecked` | ulid/ulid.go:101-128 | with the destination checked first, `Scan` never panics and otherwise behaves as written |
| `Ulid256.Validate` | ulid256/ulid.go:66-78 | validation succeeds exactly when the stored checksum is the CRC-32 of the first 28 bytes; the only error is the mismatch |
| `Ulid256.Parse` | ulid256/ulid.go:15-29 | a parsed ULID has 32 bytes |
| `Ulid256.ParseValid` | ulid256/ulid.go:15-29 | only ULIDs whose checksum matches are parsed; every failure is a decoding error or a checksum mismatch |
| `Ulid256.ParseString` | ulid256/ulid.go:15-83 | a ULID's text form parses back to it when its checksum matches, and gives the mismatch otherwise |
| `Ulid256.ByteChangeInvalidates` | ulid256/ulid.go:66-78 | changing any one byte of a valid ULID makes it invalid |
| `Ulid256.ByteChangeRejected` | ulid256/ulid.go:15-83 | a valid ULID with one byte changed renders to text that `Parse` rejects |
| `Ulid256.Seal` | ulid256/generator.go:78-84 | the first 28 bytes followed by their big-endian CRC-32 form a valid ULID |
| `Ulid256.FieldsOfSeal` | ulid256/ulid.go:39-58 | the accessors read back what `New` wrote: skew 0, the low 48 bits of the seconds, the low 24 bits of the nanoseconds, the version and the payload |
| `Ulid256.FrontFields` | ulid256/generator.go:59-70 | where `New` puts each field in the first 28 bytes |
| `Ulid256.Made` | ulid256/generator.go:56-87 | a ULID made by `New` has 32 bytes |
| `Ulid256.MadeValid` | ulid256/generator.go:56-87 | every ULID `New` makes passes `Validate`, carries the generator's version, and parses back from its text form |
| `Ulid256.MadeFails` | ulid256/generator.go:70-76 | `New` fails exactly on a fill error or a fill count other than 16, the fill error first |
| `Ulid256.Generator.constructor` | ulid256/generator.go:40-44 | the generator keeps its version, clock and fill |
| `Ulid256.Generator.WithClock` | ulid256/generator.go:47-53 | a new generator with this one's version and fill and the given clock |
| `Ulid256.Generator.New` | ulid256/generator.go:56-87 | the array filled field by field and sealed is the reference `Made`, and `Empty` comes with every error |
| `Ulid256.FieldBytes` | ulid256/generator.go:59-67 | the kept bytes of the 64-bit seconds and the 32-bit nanoseconds are their low 48 and 24 bits |
| `Ulid256.Registry.constructor` | ulid256/generator.go:14-15 | the registry starts empty |
| `Ulid256.Registry.NewGenerator` | ulid256/generator.go:22-37 | a registered version returns the existing generator with an error and leaves the registry unchanged; otherwise a new generator on the real clock is registered and returned |
| `Ulid256.CopyPayload` | ulid256/generator.go:70 | the fill writes bytes 12 to 27 only; the rest of the array is kept |
| `Ulid256.WriteChecksum` | ulid256/generator.go:78-84 | the big-endian CRC-32 of bytes 0 to 27 is stored in bytes 28 to 31 and nothing else changes |
| `Ulid256.Must` | ulid256/generator.go:90-95 | `Must` returns the ULID exactly when there is no error, and panics otherwise |
| `Ulid256.ServerIdFill` | ulid256/fills.go:22-28 | the server ID is written big-endian into the first two bytes and the inner fill writes the rest; the count is the inner count plus two and the error the inner error |
| `Ulid256.ServerIdReadBack` | ulid256/fills.go:24 | the server ID reads back from the first two payload bytes |
| `Radix.SymbolIsLetter` | ulid/ulid.go:43-45 | the character of each value is the one at that position in the written-out alphabet |
| `Radix.SymbolValueInverse` | ulid/ulid.go:43-45 | decoding a character inverts the alphabet, in both directions |
| `Radix.SymbolNotSpecial` | auth/basic/basic.go:36 | no alphabet character is '=', '\r' or '\n' |
| `Radix.BytesBitsRoundTrip` | auth/basic/config.go:65 | the bytes of a byte string's bits, with fewer than eight extra bits, are the byte string |
| `Radix.Pad` | auth/basic/config.go:65 | the padding is shorter than a block and completes the characters to whole blocks |
| `Radix.Groups` | auth/basic/config.go:65 | every group of `k` bits is a value below 2^k |
| `Radix.GroupsRoundTrip` | auth/basic/config.go:65 | grouping loses nothing: the groups' bits are the input followed by fewer than `k` zero bits |
| `Radix.ValuesOfSymbols` | auth/basic/basic.go:36 | decoding the characters of values gives the values back |
| `Radix.SymbolsPlain` | auth/basic/config.go:65 | no character of an encoding is padding or a line break |
| `Radix.PaddedBody` | auth/basic/basic.go:36 | after plain characters, line-break stripping changes nothing and the padding check removes exactly the padding |
| `Radix.EncodedBody` | auth/basic/basic.go:36 | the decoder finds the encoder's characters again, and a padded encoding's length is a whole number of blocks with exactly the padding the encoder added |
| `Radix.LengthValid` | auth/basic/basic.go:36 | an encoder's output length passes the decoder's length check |
| `Radix.RoundTrip` | auth/basic/config.go:65 | decoding an encoding gives the bytes back, for every alphabet, with or without padding, and every byte string |
| `Radix.ValuesPrefix` | ulid/ulid.go:43-52 | a text whose characters are all in the alphabet has one value per character, and a prefix of it has the prefix of those values |
| `Radix.UnpaddedWholeBlocks` | ulid/ulid.go:43-52 | unpadded base32 text of whole blocks decodes to the bytes of its values, or fails on a character outside the alphabet |
| `Radix.UnpaddedPartialBlock` | ulid/ulid.go:43-52 | unpadded base32 text ending in one, three or six extra characters decodes to the bytes of its whole blocks' values |
| `Radix.UnpaddedBase32DropsPartialBlock` | ulid/ulid.go:43-52 | without padding, a last base32 block of one, three or six characters is checked against the alphabet and then dropped: the text decodes as its whole blocks do |
| `Pass.LongTemplatesWellFormed` | pass/constants.go:97-109 | the "long" class has 21 templates, each of 14 letters that all name a character class |
| `Pass.TablesConsistent` | pass/constants.go:77-118 | every character class is non-empty, every password class has templates, every template letter names a character class, and the template lengths are 20, 14, 8, 4, 8, 4 and 6 |
| `Pass.ClassHasTemplates` | pass/constants.go:91-118 | each password class has at least one template |
| `Pass.TemplateWellFormed` | pass/constants.go:91-118 | each template of each password class names only known character classes |
| `Pass.ClassNonEmpty` | pass/constants.go:77-87 | each character class has at least one character |
| `Pass.NumericDigits` | pass/constants.go:69 | the numeric class is the digits 1 to 9, without '0' |
| `Pass.Template` | pass/derivation.go:67-69 | the template chosen by the first site-key byte is one of the class's templates |
| `Pass.Render` | pass/derivation.go:66-78 | a password is rendered exactly when the class is known and the site key is longer than the chosen template; otherwise the function panics |
| `Pass.Rendering` | pass/derivation.go:71-75 | the password has one character per template letter |
| `Pass.WellFormedCovers` | pass/constants.go:77-87 | the character classes cover every letter of a well-formed template |
| `Pass.RenderedInClasses` | pass/derivation.go:66-78 | a rendered password has the chosen template's length, and each character belongs to the class its template letter names |
| `Pass.RenderingInClasses` | pass/derivation.go:71-75 | each character of a template's rendering is in the class its letter names |
| `Pass.PinDigits` | pass/derivation.go:66-78 | PIN passwords are 4 and verification codes 6 digits, each from 1 to 9 |
| `Pass.SiteKeyRenders` | pass/derivation.go:50-78 | a 32-byte HMAC-SHA256 site key is long enough for every template, so rendering it never panics |
| `Pass.SitePassword` | pass/derivation.go:66-78 | picking the template and filling the password array gives the reference rendering |
| `Pass.Fill` | pass/derivation.go:71-75 | the fill loop picks character i with site-key byte i + 1, and panics when the site key is too short for the template |
| `Pass.TemplateOfKindWellFormed` | pass/derivation.go:67-69 | the chosen template names only known character classes |
| `Pass.PickedAll` | pass/derivation.go:72-75 | a password picked character by character from the template is its rendering |
| `Pass.PickChar` | pass/derivation.go:73-74 | one character is the class's character at the byte modulo the class size, and belongs to the class |
| `Pass.U32` | pass/derivation.go:41 | a length is written as 4 bytes, truncated to 32 bits |
| `Pass.U32Reads` | pass/derivation.go:41 | a length below 2^32 can be read back from its 4 bytes |
| `Pass.IdentitySeedInjective` | pass/derivation.go:37-45 | within one scope, different names below 2^32 bytes give different identity seeds |
| `Pass.SiteSeedInjective` | pass/derivation.go:50-62 | within one scope, the site seed determines both the site and the counter |
| `Phone.KeypadIsLayout` | cmd/em/internal/phone/encoder.go:22-42 | the table holds exactly the ASCII letters, each mapped to the digit of its telephone key (ABC on 2 up to WXYZ on 9) |
| `Phone.KeypadIgnoresCase` | cmd/em/internal/phone/encoder.go:22-42 | an upper-case letter and its lower-case form share a key |
| `Phone.KeypadDigits` | cmd/em/internal/phone/encoder.go:22-42 | every entry of the table is a digit from 2 to 9 |
| `Phone.Encode` | cmd/em/internal/phone/encoder.go:56-63 | the encoding is no longer than the input and consists of digits from 2 to 9 |
| `Phone.EncodeAppend` | cmd/em/internal/phone/encoder.go:58-63 | encoding distributes over concatenation, so split writes encode like one |
| `Phone.NonLetterDropped` | cmd/em/internal/phone/encoder.go:59-62 | a byte that is not a letter contributes nothing |
| `Phone.LettersOnly` | cmd/em/internal/phone/encoder.go:58-63 | input made only of letters gives one key digit per letter, in order |
| `Phone.Encoder.constructor` | cmd/em/internal/phone/encoder.go:45-49 | the encoder writes to the given writer |
| `Phone.Encoder.Write` | cmd/em/internal/phone/encoder.go:55-67 | the encoding of `p` is written on, `len(p)` is reported whatever the writer did, and the writer's error is returned |
| `EncodeCommand.CodeMapIsKeypad` | cmd/myago/internal/encode.go:25-34 | the code table's keys are exactly the one-letter strings 'a' to 'z', each mapped to the digit of its telephone key |
| `EncodeCommand.Digit` | cmd/myago/internal/encode.go:25-34 | every letter's code is a digit from '2' to '9' |
| `EncodeCommand.CipherSucceeds` | cmd/myago/internal/encode.go:44-51 | the encoding succeeds exactly on all-lower-case input, and then gives one digit per character, each the digit of that character's key |
| `EncodeCommand.CipherRejects` | cmd/myago/internal/encode.go:44-48 | otherwise the error is "unrecognized char: " followed by the first character that is not a lower-case letter |
| `EncodeCommand.AgreesWithPhoneEncoder` | cmd/myago/internal/encode.go:40-55 | on lower-case text the command writes the same bytes as the phone-keypad writer of `em` |
| `EncodeCommand.Action` | cmd/myago/internal/encode.go:40-55 | an unencodable argument returns its error and writes nothing; otherwise the cipher text is written once, and the writer's failure is returned with nothing written |
| `EncodeCommand.EncodeText` | cmd/myago/internal/encode.go:42-51 | the loop gives the reference encoding: the concatenated codes, or the error for the first character without one |
| `EncodeCommand.Prefixed` | cmd/myago/internal/encode.go:50 | text already encoded in front of the rest keeps the rest's success or its error |
| `Auth.WithUser` | auth/context.go:27-29 | the new context keeps the request's headers and carries the given user information |
| `Auth.Get` | auth/header.go:27-43 | every failure is the unauthorized error |
| `Auth.SplitTwo` | auth/header.go:33-36 | splitting at most once on a space gives the whole value when it has no space, and otherwise the text before the first space and the text after it |
| `Auth.GetSound` | auth/header.go:27-43 | an accepted header value is a space-free scheme equal to the expected one up to case, one space, and the returned credential |
| `Auth.GetComplete` | auth/header.go:27-43 | every value made of a space-free scheme equal to the expected one up to case, a space and a credential is accepted with that credential |
| `Auth.GetNeedsSpace` | auth/header.go:28-36 | a value without a space, including an absent header, is unauthorized |
| `Auth.ChainAppend` | auth/handler.go:26-38 | running two lists of handlers in sequence is running the first and then, if it succeeded, the second on its context |
| `Auth.FirstErrorStops` | auth/handler.go:29-33 | the first handler that fails decides the error; the handlers after it do not matter |
| `Auth.Composite` | auth/handler.go:26-38 | the loop's result is the chained run of the handlers, and an empty list passes the context through |
| `Auth.Required` | auth/handler.go:41-50 | the handler fails exactly when the context has no user information, with the unauthorized error, and otherwise returns the context unchanged |
| `BasicStore.IndexLookup` | auth/basic/store.go:51-82 | a request with neither token nor user name is a bad request; a non-empty token is looked up first and answers with the entry's user ID, user, groups and the token; otherwise the user name is looked up and answers with the entry's user ID, password, groups and the name; a missing key is not found |
| `BasicStore.StaticLookup` | auth/basic/static.go:41-60 | only the configured user is found, else not found; the answer carries the name, password, groups, the hash-derived user ID, and the name as email exactly when it holds '@' |
| `BasicStore.TokenWins` | auth/basic/store.go:53-64 | a request with a token is answered from the token's entry whatever user name it carries |
| `BasicStore.LazyStore.Lookup` | auth/basic/store.go:100-120 | a loaded store answers directly and is not loaded again; otherwise the provider is called once, and its error is returned with nothing kept, or its store is kept and answers |
| `BasicCsv.GroupsOf` | auth/basic/store_csv.go:50-56 | an empty groups column gives no groups; otherwise one group per comma-separated element, each trimmed of surrounding space |
| `BasicCsv.LastWith` | auth/basic/store_csv.go:58-63 | the position found holds the key in its second column and no later record does, or it is -1 |
| `BasicCsv.LastRecordWins` | auth/basic/store_csv.go:42-64 | the index holds a key exactly when some record has it in its second column, and maps it to the entry built from the last such record |
| `BasicCsv.KeysAreSecondColumns` | auth/basic/store_csv.go:58-63 | a key is in the index exactly when some record carries it in its second column |
| `BasicCsv.PasswordFileLookup` | auth/basic/store_csv.go:42-64 | looking a user up in a loaded password file succeeds exactly when some record names the user, and returns the password and user ID of the last such record |
| `BasicCsv.IndexStep` | auth/basic/store_csv.go:58-63 | one more record of at least four columns sets its second column's key to the entry built from it |
| `BasicCsv.OpenCsv` | auth/basic/store_csv.go:29-67 | the read loop gives the reference result: the open error; a panic for a record of fewer than four columns; the read error; or the index of all records |
| `BasicCsv.TrimmedGroups` | auth/basic/store_csv.go:50-56 | the in-place trimming loop leaves exactly the groups of the column |
| `BasicAuth.Basic` | auth/basic/basic.go:28-70 | the handler never fails: it either returns the context unchanged or the same request with user information attached |
| `BasicAuth.Bearer` | auth/basic/bearer.go:26-53 | the handler never fails: it either returns the context unchanged or the same request with user information attached |
| `BasicAuth.BearerAccepts` | auth/basic/bearer.go:30-51 | a token the store knows attaches the stored user, with the stored user ID as subject and the stored profile, email and groups |
| `BasicAuth.Presented` | auth/header.go:27-43 | a header presenting the scheme and a credential passes the scheme check for any spelling of the scheme that matches up to case |
| `BasicAuth.BearerUnknownToken` | auth/basic/bearer.go:30-41 | a request without a bearer credential, or with a token the store does not know, passes through unchanged |
| `BasicAuth.ClientToken` | auth/basic/config.go:56-74 | a non-empty access token gives a bearer token with it; otherwise a non-empty user name gives a basic token whose base64 decodes to `username:password`; otherwise there is no token |
| `BasicAuth.Received` | auth/basic/config.go:63-70 | the credential a server reads from a client's basic token decodes to the text `username:password` |
| `BasicAuth.TextOfBytes` | auth/basic/basic.go:41 | reading back the bytes of a string of one-byte characters gives the string |
| `BasicAuth.ClientTokenAccepted` | auth/basic/basic.go:28-70 | a client with a user name and a colon-free password is authenticated by a store holding that password, as the stored user |
| `BasicAuth.StaticAccepts` | auth/basic/static.go:27-60 | a client with the static user's name and a colon-free password is authenticated as that user, with the hash-derived user ID as subject and the name as email when it holds '@' |
| `BasicAuth.ColonSplit` | auth/basic/basic.go:41-47 | splitting `user:password` at ':' gives the two back when neither holds a ':' |
| `BasicAuth.ColonSplitCut` | auth/basic/basic.go:41-47 | when the password holds a ':', the split keeps only the password's text before its first ':' |
| `BasicAuth.ColonPasswordRejected` | auth/basic/basic.go:41-58 | as written, a client whose password contains ':' is never authenticated, even by a store holding that password |
| `BasicAuth.BasicIntended` | auth/basic/basic.go:28-70 | the corrected handler, which splits at the first ':' only, never fails and either passes the context through or attaches user information |
| `BasicAuth.IntendedAcceptsEveryPassword` | auth/basic/basic.go:28-70 | with the split at the first ':', every password, colons included, authenticates its client as the stored user |
| `BasicAuth.IntendedAgrees` | auth/basic/basic.go:28-70 | the corrected handler agrees with the written one on every request from a client whose password holds no ':' |
| `BasicAuth.SelectHandler` | auth/basic/config.go:77-97 | a ".csv" password file selects Basic over that file; failing that, a ".csv" token file selects Bearer; failing that, a static user needs both name and password; the "invalid file" error is returned exactly when none applies |
| `BuildInfo.Assignment` | build/info.go:173-181 | a value yields an entry exactly when it holds '='; the key has no '=' and key, '=' and value give the original text back |
| `BuildInfo.AssignmentKeepsEquals` | build/info.go:173-181 | everything after the first '=' is the value, further '=' included |
| `BuildInfo.RenderEmpty` | build/info.go:186-200 | the rendering is empty exactly when there are no entries |
| `BuildInfo.RenderAppend` | build/info.go:190-196 | one more entry appends ", key=value" to the rendering, or is the whole rendering of a list that was empty |
| `BuildInfo.KVSlice.Set` | build/info.go:168-184 | an empty value is ignored; a value without '=' is an error and changes nothing; any other value appends the entry it splits into |
| `BuildInfo.KVSlice.String` | build/info.go:186-200 | the loop builds the reference rendering of the entries |
| `BuildInfo.SetRenders` | build/info.go:168-200 | after a successful set, the rendering ends with the value that was set, after the earlier entries and a comma |
| `BuildInfo.Collect` | build/info.go:84-138 | the flag parser keeps at most one entry per value, and no entry's key holds '=' |
| `BuildInfo.CollectKeepsAssignable` | build/info.go:84-136 | the entries render back exactly the values that hold '=', in order: the parser passes over a rejected value and keeps the ones after it |
| `BuildInfo.RejectedValueSkipped` | build/info.go:84-143 | a value without '=' before `main.version=v` does not stop `v` from filling an empty version |
| `BuildInfo.CollectSkips` | build/info.go:84-136 | a value without '=' leaves the entries of the values after it |
| `BuildInfo.CollectSingle` | build/info.go:168-184 | a single `key=value` with no '=' in the key gives exactly that entry |
| `BuildInfo.Fill` | build/info.go:138-153 | the linker assignments change only version, revision and build time |
| `BuildInfo.FirstValue` | build/info.go:138-153 | a non-empty value found for a key was assigned to that key |
| `BuildInfo.FillOnlyEmpty` | build/info.go:138-153 | a field the settings already filled is kept; an empty one takes the first non-empty assignment to its key |
| `BuildInfo.Settle` | build/info.go:71-155 | applying the settings never changes the operating system, architecture or Go version |
| `BuildInfo.SettleSnoc` | build/info.go:71-155 | the settings are applied one after another in order |
| `BuildInfo.LastVcsWins` | build/info.go:75-76 | the last "vcs" setting decides the version control system's name |
| `BuildInfo.ParseInfo` | build/info.go:59-159 | the loops give the reference build information, with the platform strings and the Go version without its "go" prefix |
| `BuildInfo.ApplySetting` | build/info.go:72-154 | the switch on one setting's key gives the reference update for that setting |
| `BuildInfo.LinkerAssignments` | build/info.go:84-136 | the values handed in order to a fresh list keep the entries the flag parser would, passing over each rejected value |
| `BuildInfo.CollectStep` | build/info.go:136 | one set in that loop consumes the first remaining value as the reference does |
| `BuildInfo.FillEmpty` | build/info.go:138-153 | the loop over the linker assignments gives the reference filling |
| `BuildInfo.Metadata` | build/info.go:45-56 | the map has exactly the eight keys, and "cgo" and "mod" are "true" or "false" as the flags say |
| `FlagSlice.DigitRun` | flagset/slice.go:103 | the leading run of decimal digits is maximal |
| `FlagSlice.ParseUint` | flagset/slice.go:103 | an accepted unsigned value fits 64 bits |
| `FlagSlice.ParseInt` | flagset/slice.go:84 | an accepted signed value fits 64 signed bits |
| `FlagSlice.EscapeChar` | flagset/slice.go:78-86 | in the error text `strconv` builds, a plain character is kept; '"', '\\' and every unprintable character become a backslash escape, and no escape holds an unprintable character |
| `FlagSlice.EscapeAppend` | flagset/slice.go:78-86 | quoting works character by character: the escape of a concatenation is the concatenation of the escapes |
| `FlagSlice.EscapePlain` | flagset/slice.go:78-86 | text of plain characters appears in the error text unchanged |
| `FlagSlice.EscapePrintable` | flagset/slice.go:78-86 | the quoted input in an error text holds no unprintable character, whatever the input held |
| `FlagSlice.QuoteInInput` | flagset/slice.go:78-86 | a '"' or '\\' in the input is written with a backslash before it |
| `FlagSlice.ToSigned` | flagset/slice.go:89-100 | the conversion to a narrower signed type gives a value within that type's range |
| `FlagSlice.ToUnsigned` | flagset/slice.go:108-119 | the conversion to a narrower unsigned type gives a value within that type's range |
| `FlagSlice.ToSignedKeeps` | flagset/slice.go:89-100 | a value that fits the narrower signed type is kept as it is |
| `FlagSlice.ToUnsignedKeeps` | flagset/slice.go:108-119 | a value that fits the narrower unsigned type is kept as it is |
| `FlagSlice.Parse` | flagset/slice.go:73-119 | a string element is the value itself; an accepted signed or unsigned element is the parsed 64-bit value converted to the element's width |
| `FlagSlice.Decimal` | flagset/slice.go:84 | a decimal rendering is a non-empty digit string whose value is the number |
| `FlagSlice.ParseUintDecimal` | flagset/slice.go:103 | every decimal rendering of a 64-bit unsigned value parses back to it |
| `FlagSlice.ParseIntDecimal` | flagset/slice.go:84 | every decimal rendering of a 64-bit signed value parses back to it |
| `FlagSlice.ParseIntNegative` | flagset/slice.go:84 | a minus sign before the digits of a magnitude up to 2^63 parses to the negative value |
| `FlagSlice.ParseIntUnsigned` | flagset/slice.go:84 | the digits of a value below 2^63 parse to that value as a signed integer |
| `FlagSlice.Appended` | flagset/slice.go:34-58 | an empty value changes nothing; a value that fails to parse or decode is an error; otherwise its elements are appended after the existing ones |
| `FlagSlice.SetOrder` | flagset/slice.go:34-58 | successive sets keep the elements in the order they were given |
| `FlagSlice.Slice.Set` | flagset/slice.go:34-58 | on success the elements are the reference appended list; on an error the error is returned and the elements are left unchanged |
| `FlagSlice.Slice.String` | flagset/slice.go:61-68 | no elements render as ""; otherwise the rendering is the JSON encoding of the elements |
| `FlagExtract.Format` | flagset/extract.go:28-35 | the loop that prepends the prefix elements from the last to the first gives the underscore-joined prefix and name |
| `FlagExtract.Clone` | flagset/extract.go:55-61 | the copy equals the original extractor |
| `FlagExtract.Child` | flagset/extract.go:64-70 | the child's flag and environment prefixes are the parent's, each followed by the name |
| `FlagExtract.ChildFormat` | flagset/extract.go:64-70 | a name under a child extractor is the parent's name for `child_name` |
| `FlagExtract.CommonOf` | flagset/extract.go:73-105 | a field named "-" gives no flag; otherwise the flag name is the prefixed JSON name, the first environment variable the upper-cased name under the environment prefix, followed by the "env" tag's entries, and the aliases come from the "aliases" tag, or else the "alias" tag |
| `FlagExtract.NameIgnoresOptions` | flagset/extract.go:74 | options after the JSON name do not change the name |
| `FlagExtract.NestedNames` | flagset/extract.go:339-343 | a field `name` inside a struct field `group`, extracted under an environment prefix, is the flag `group_name` with the variable `PREFIX_GROUP_NAME` |
| `FlagFilter.Kept` | flagset/flagset.go:26-36 | the new set is no longer than the old one and every flag in it is allowed |
| `FlagFilter.Filter` | flagset/flagset.go:26-36 | the loop builds the reference selection, a new set, leaving its receiver alone |
| `FlagFilter.KeptMembers` | flagset/flagset.go:29-33 | a flag is kept exactly when it is in the set and allowed |
| `FlagFilter.KeptInOrder` | flagset/flagset.go:29-33 | the kept flags come from increasing positions of the set, so their order is kept |
| `FlagFilter.KeptIdempotent` | flagset/flagset.go:26-36 | filtering twice with the same test gives what filtering once does |
| `FlagFilter.KeptAll` | flagset/flagset.go:26-36 | a test that accepts every flag keeps the set as it is |
| `ConfigLoader.DefaultLoaderTable` | config/loader.go:29-38 | the default loader knows exactly the seven extensions, with ".ptxt" an alias of ".prototxt" and ".yml" of ".yaml" |
| `ConfigLoader.Ext` | config/loader.go:46 | an extension is empty, or a suffix of the path that starts with '.', holds no '/' and no further '.' |
| `ConfigLoader.ExtOf` | config/loader.go:46 | a file name ending in such a suffix has it as its extension |
| `ConfigLoader.LoadOne` | config/loader.go:43-69 | an error from the existence check is wrapped; a missing file, a missing extension and an unknown extension are reported in that order, leaving the target unchanged; the target changes only by decoding with the extension's format |
| `ConfigLoader.LoadAll` | config/loader.go:72-89 | loading no paths changes nothing and succeeds |
| `ConfigLoader.SkipContinues` | config/loader.go:76-82 | a missing file or a missing or unknown extension leaves the target as it was, and loading goes on with the next path |
| `ConfigLoader.AllSkipped` | config/loader.go:72-89 | when every path is missing or has an unknown extension, loading changes nothing and succeeds |
| `ConfigLoader.FirstFailureStops` | config/loader.go:83-84 | the first path whose check, open or decoding fails stops loading, with its error wrapped by "failed to load" and the path |
| `ConfigLoader.Load` | config/loader.go:72-89 | the loop over the paths gives the reference target and error |
| `DirSet.Local` | dirset/local.go:34-53 | Windows and macOS take their directories from the current user's home directory and fail with the lookup's error when it fails; every other system uses the /var layout and cannot fail |
| `DirSet.VarPathPart` | dirset/local.go:59-61 | the part between "/var/" and the next '/' of a /var path can be read back |
| `DirSet.UnderDiffers` | dirset/local.go:74-78 | paths under one base that differ in their last element differ |
| `DirSet.LinuxPaths` | dirset/local.go:55-70 | on Linux the cache and log directories are /var/cache and /var/logs followed by the lower-cased application name |
| `DirSet.VarPathShape` | dirset/local.go:59-61 | a /var path is "/var/", the part, a slash and the application name |
| `DirSet.VarPathsDiffer` | dirset/local.go:59-61 | different parts of /var give different directories for the same application |
| `DirSet.LinuxDistinct` | dirset/local.go:55-70 | the five Linux directories are pairwise different |
| `DirSet.BeneathDistinct` | dirset/local.go:72-104 | the five macOS or Windows directories under the application's base are pairwise different |
| `DirSet.LocalDistinct` | dirset/local.go:34-104 | on every system the five directories returned are pairwise different paths |
| `ByteText.BytesText` | zaputil/hashistdlogger.go:33 | `string(p)` keeps one character per byte, each with the byte's value |
| `ByteText.Utf8` | zaputil/hashistdlogger.go:42 | the UTF-8 encoding of a code point above ASCII is a lead byte followed by continuation bytes, two below 0x800 and three above |
| `ByteText.WideSpaceShape` | zaputil/hashistdlogger.go:42 | every encoded wide white space is two or three bytes: a lead byte and continuation bytes |
| `ByteText.LeadingSpace` | zaputil/hashistdlogger.go:42 | the white space decoded at the start is one ASCII space byte or the whole encoding of a wide space |
| `ByteText.TrailingSpace` | zaputil/hashistdlogger.go:42 | the white space decoded at the end is one ASCII space byte or a suffix that is the whole encoding of a wide space |
| `ByteText.TrimLeftUtf8` | zaputil/hashistdlogger.go:42 | trimming the left leaves a suffix of the text that does not start with white space |
| `ByteText.TrimRightUtf8` | zaputil/hashistdlogger.go:42 | trimming the right leaves a prefix of the text that does not end with white space |
| `ByteText.TrimSpaceUtf8Trimmed` | zaputil/hashistdlogger.go:42 | trimming leaves a trimmed text alone, and the result of trimming is empty or trimmed at both ends |
| `ByteText.RightKeepsLead` | zaputil/hashistdlogger.go:42 | trimming the right of a text that does not start with white space leaves its start alone |
| `ByteText.PrefixLead` | zaputil/hashistdlogger.go:42 | a non-empty prefix of a text that does not start with white space does not either |
| `ByteText.NotWideLead` | zaputil/hashistdlogger.go:42 | bytes that start below 0xC2 are not a wide space |
| `ByteText.NotWideAt` | zaputil/hashistdlogger.go:42 | bytes with a non-continuation byte after the first are not a wide space |
| `ByteText.NoBreakSpaceTrimmed` | zaputil/hashistdlogger.go:42 | a trimmed message followed by the no-break space C2 A0 loses both bytes |
| `ByteText.LoneNextLineKept` | zaputil/hashistdlogger.go:42 | a lone byte 0x85 after ASCII text is invalid UTF-8, not white space, and is kept |
| `ByteText.LeadAfter` | zaputil/hashistdlogger.go:42 | appending text that does not start with a continuation byte leaves the start of a text alone |
| `GoSort.SearchInBoundary` | paxos/acceptor_client.go:54-56 | whatever the predicate's answers, the halving search stops at a boundary: the answer before the result is false and the answer at it is true |
| `GoSort.SearchBoundary` | paxos/acceptor_client.go:54-56 | the search over all indices stops at such a boundary |
| `GoSort.SearchFirstTrue` | paxos/acceptor_client.go:54-56 | for a monotone predicate the search returns the first index where it holds, or the length when it holds nowhere |
| `HashiLog.LevelOf` | zaputil/hashistdlogger.go:48-57 | exactly the level names DEBUG, INFO, WARN and ERROR, in upper or lower case, are recognised |
| `HashiLog.Padded` | zaputil/hashistdlogger.go:36-38 | the parts are padded with empty strings to three, keeping the parts there were |
| `HashiLog.Pad` | zaputil/hashistdlogger.go:36-38 | the padding loop gives the reference padded parts |
| `HashiLog.Emitted` | zaputil/hashistdlogger.go:32-60 | a line yields an entry exactly when its first part, without brackets, is a recognised level; the entry has that level, the third part, with the white space UTF-8 decoding finds at either end trimmed, as message and the second part without its colon as name |
| `HashiLog.TrimNewline` | zaputil/hashistdlogger.go:42 | trimming removes the newline the Go logger ends a line with, and nothing of an already trimmed message |
| `HashiLog.SplitLine` | zaputil/hashistdlogger.go:35 | a line `[LEVEL] name: rest` whose level and name hold no space splits into the bracketed level, the name with its colon, and the rest |
| `HashiLog.Unwrapped` | zaputil/hashistdlogger.go:40-41 | the brackets around a level and the colon after a name are removed again |
| `HashiLog.FormatRecognised` | zaputil/hashistdlogger.go:32-60 | a line in the HashiCorp format with a recognised level becomes an entry with that level, the system as its name and the message without the newline |
| `HashiLog.UnknownLevelDropped` | zaputil/hashistdlogger.go:48-57 | a line whose level is not one of the recognised spellings, such as "Info", produces no entry |
| `HashiLog.LevelOnly` | zaputil/hashistdlogger.go:36-38 | a line holding only a bracketed level still produces an entry, with empty message and name |
| `HashiLog.HashiWriter.Write` | zaputil/hashistdlogger.go:32-60 | the whole input is reported written without error, and the logger receives the line's entry when there is one and nothing otherwise |
| `Lifecycle.ReversedAt` | lifecycle/lifecycle.go:54-56 | the k-th function run is the k-th from the end of the snapshot |
| `Lifecycle.ReversedSnoc` | lifecycle/lifecycle.go:54-56 | the function deferred last runs first |
| `Lifecycle.ReversedInvolutive` | lifecycle/lifecycle.go:54-56 | reversing the run order again gives the queue back, so nothing is lost, duplicated or reordered |
| `Lifecycle.ReversedAppend` | lifecycle/lifecycle.go:35-56 | of two batches deferred one after the other, the second batch runs first |
| `Lifecycle.ReversedMultiset` | lifecycle/lifecycle.go:54-56 | every deferred function runs exactly as often as it was deferred |
| `Lifecycle.LifeCycle.constructor` | lifecycle/lifecycle.go:26-32 | the zero life cycle has no queued functions, no cancel functions and has not been set up |
| `Lifecycle.LifeCycle.Defer` | lifecycle/lifecycle.go:35-40 | the function is appended to the queue and nothing else changes |
| `Lifecycle.LifeCycle.Resolve` | lifecycle/lifecycle.go:43-57 | exactly the snapshot is dropped from the queue and run from its last function to its first; nothing else changes |
| `Lifecycle.LifeCycle.Setup` | lifecycle/lifecycle.go:60-70 | the first call since the last shutdown derives a cancellable context and from it one cancelled by SIGINT or SIGTERM, keeps both cancel functions and returns the second; later calls return the context given |
| `Lifecycle.LifeCycle.Shutdown` | lifecycle/lifecycle.go:72-84 | after a setup both contexts are cancelled, the cancel functions forgotten and setup allowed again; otherwise nothing happens |
| `Lifecycle.TwoRounds` | lifecycle/lifecycle_test.go:11-46 | two rounds of deferring three functions and resolving run each round's own three, last first, and none twice |
| `Lifecycle.SetupAgain` | lifecycle/lifecycle.go:60-84 | a shutdown makes the next setup derive fresh contexts again, while a second setup before it returns its context unchanged |
| `Scaffold.FeaturesAreNotAliases` | cmd/em/internal/scaffold/template.go:41-82 | no feature name is itself an alias |
| `Scaffold.StepLowers` | cmd/em/internal/scaffold/template.go:155-166 | each name an alias expands to is a feature name or one step closer to one |
| `Scaffold.ExpandLowers` | cmd/em/internal/scaffold/template.go:150-170 | a pass that expands an alias lowers the greatest alias depth of the list, so resolution terminates |
| `Scaffold.ExpandNoAlias` | cmd/em/internal/scaffold/template.go:154-167 | a pass over a list without aliases keeps exactly its feature names and drops unknown names |
| `Scaffold.ResolveValid` | cmd/em/internal/scaffold/template.go:146-173 | resolution yields only feature names, each of which renders files and none of which is an alias |
| `Scaffold.ExpandAppend` | cmd/em/internal/scaffold/template.go:154-167 | a pass works name by name: each name's expansion stays where the name was |
| `Scaffold.ExpandFeatures` | cmd/em/internal/scaffold/template.go:164-165 | a list of feature names passes through a pass unchanged |
| `Scaffold.ResolveIdempotent` | cmd/em/internal/scaffold/template.go:146-173 | resolving resolved features changes nothing |
| `Scaffold.ExpandInitNames` | cmd/em/internal/scaffold/template.go:132-137 | the lower-case names "make", "git", "legal" and "authors" expand to their features |
| `Scaffold.LowerNameSteps` | cmd/em/internal/scaffold/template.go:132-137 | each lower-case name of a feature is an alias for that feature alone |
| `Scaffold.ResolveStep` | cmd/em/internal/scaffold/template.go:150-170 | when a pass expands an alias, resolution goes on with the expanded list |
| `Scaffold.ResolveFeatureNames` | cmd/em/internal/scaffold/template.go:146-173 | resolution of feature names alone gives those names |
| `Scaffold.ResolveInit` | cmd/em/internal/scaffold/template.go:42-45 | "init" resolves to Make, Git, Legal and Authors |
| `Scaffold.Pass` | cmd/em/internal/scaffold/template.go:151-169 | one pass builds the reference expansion and notes exactly whether an alias was expanded |
| `Scaffold.ResolveFeatures` | cmd/em/internal/scaffold/template.go:146-173 | the passes on a copy of the list, until one expands no alias, compute the reference resolution |
| `Scaffold.Includes` | cmd/em/internal/scaffold/template.go:86-93 | `includes` is true exactly when some feature equals the name, ignoring case |
| `Scaffold.IncludesLowerCase` | cmd/em/internal/scaffold/template.go:86-93 | a template may name a resolved feature in lower case and `includes` still finds it |
| `Scaffold.Dedup` | cmd/em/internal/scaffold/template.go:214-222 | skipping names already rendered keeps exactly the names of the list |
| `Scaffold.DedupDistinct` | cmd/em/internal/scaffold/template.go:214-222 | after skipping repetitions no name is rendered twice |
| `Scaffold.DedupDistinctNames` | cmd/em/internal/scaffold/template.go:214-222 | a list without repetitions is rendered name by name |
| `Scaffold.OutputsSnoc` | cmd/em/internal/scaffold/template.go:216-278 | one more name adds its files to the output at its first occurrence only |
| `Scaffold.GitFilesFixed` | cmd/em/internal/scaffold/template.go:224-241 | the two git files have fixed contents, whatever the templates |
| `Scaffold.TemplateSuffixTrimmed` | cmd/em/internal/scaffold/template.go:244-277 | a template whose name renders to a stem plus ".tmpl" is written under the stem, with its rendered contents |
| `Scaffold.MissingTemplateSkipped` | cmd/em/internal/scaffold/template.go:244-248 | a template that cannot be opened is skipped |
| `Scaffold.Template` | cmd/em/internal/scaffold/template.go:176-190 | the renderer keeps the name and license and holds the resolved features, all of which are feature names |
| `Scaffold.CollectFiles` | cmd/em/internal/scaffold/template.go:208-211 | the template names of the features, in feature order |
| `Scaffold.RenderOne` | cmd/em/internal/scaffold/template.go:216-278 | a name already rendered is skipped; otherwise its file, if any, is appended and the name recorded |
| `Scaffold.RenderedStep` | cmd/em/internal/scaffold/template.go:216-278 | one iteration of the rendering loop keeps the invariant that the output is what the de-duplicated names so far produce |
| `Scaffold.Render` | cmd/em/internal/scaffold/template.go:205-281 | each template name is rendered at its first occurrence only, so the output is what the de-duplicated list of names produces, in order |
| `Scaffold.RenderNames` | cmd/em/internal/scaffold/template.go:213-280 | the loop over the collected names produces the outputs of the de-duplicated list |
| `Plugin.Taken` | plugin/pipe.go:61 | a read moves as many bytes as fit and are buffered |
| `Plugin.ReadsInOrder` | plugin/pipe.go:52-68 | successive reads return the buffered bytes in order, never more than asked for |
| `Plugin.WritesReadBack` | plugin/pipe.go:52-86 | bytes written in several writes and read back with enough room come out as written, in order |
| `Plugin.Pipe.constructor` | plugin/pipe.go:27-38 | a new pipe is open and empty |
| `Plugin.Pipe.Len` | plugin/pipe.go:45-50 | the number of buffered bytes, changing nothing |
| `Plugin.Pipe.Read` | plugin/pipe.go:52-68 | the first buffered bytes are moved into `p`; EOF exactly when the pipe is closed and nothing is left afterwards |
| `Plugin.Pipe.Write` | plugin/pipe.go:70-86 | a closed pipe refuses the write with `ErrClosedPipe` and keeps its buffer; an open one appends all of `p` |
| `Plugin.Pipe.Close` | plugin/pipe.go:88-104 | the pipe is marked done with its buffer kept; closing twice reports that it already was closed |
| `Plugin.Copy` | plugin/blocking.go:47 | the first bytes of the buffer are copied into the front of `p`, the rest of `p` unchanged |
| `Plugin.BlockingReadWriteCloser.constructor` | plugin/blocking.go:26-36 | a new stream is open and empty |
| `Plugin.BlockingReadWriteCloser.Read` | plugin/blocking.go:44-57 | the first buffered bytes are moved into `p`; once closed, EOF when nothing is left and the context error while bytes remain; no error while open |
| `Plugin.BlockingReadWriteCloser.Write` | plugin/blocking.go:59-78 | a cancelled stream refuses the write with `ErrClosedPipe`; an open one appends all of `p` |
| `Plugin.BlockingReadWriteCloser.Close` | plugin/blocking.go:80-83 | closing cancels the context, keeps the buffer and never fails, however often it is called |
| `Plugin.BlockingRoundTrip` | plugin/blocking_test.go:32-63 | a message written is read back whole; after `Close`, an empty read reports EOF and a write is refused |
| `Plugin.PipeDrainsAfterClose` | plugin/pipe.go:52-68 | bytes left in a closed pipe are still read, and EOF comes with the last of them |
| `VueFs.Open` | vue/fs.go:46-56 | a path the delegate has a file for is served as is; any other path but the favicon is served as "/index.html"; the favicon is always passed through |
| `VueFs.EveryPathServed` | vue/fs.go:46-56 | while the index exists, every path but the favicon opens a file |
| `VueFs.MissingServesIndex` | vue/fs.go:51-53 | a missing path is served exactly as the index itself, and the delegate's first error is dropped |
| `VueFs.WrapIdempotent` | vue/fs.go:38-56 | wrapping a wrapped file system changes nothing |

## Left out

- `FlagSlice.EscapeChar`: `strconv.Quote` escapes every character `unicode.IsPrint` rejects. The model escapes the C0 and C1 controls, DEL and the soft hyphen, the unprintable characters below 256. Unprintable characters above that (unassigned code points, format and separator characters) are kept as they are, and invalid UTF-8 does not arise in a model string.
- Goroutines, channels and mutexes are not modelled; each call or event is one atomic step. This covers `Membership.Watch` and its broadcast, `acceptor.Observe`, `Observer.observe` and the fan-out of `Observer.Start`, `MultiAcceptorClient.Start` and its membership handling, and `Paxos.Start`. The concurrent sends of the multi-acceptor client become a sequence of responses in arrival order.
- `PaxosProposer.Propose` models one try: the exponential backoff retry around it is left out, because it only repeats the try after a delay.
- Cryptographic primitives are parameters: scrypt, HMAC-SHA256 and SHA-256. So the published password vectors (such as the PIN "3783") are not reproduced; only what is built from their outputs is modelled.
- Serialisation libraries are parameters: msgpack, JSON, YAML/TOML/XML/prototext decoders and the CSV reader. Only whether they succeed, and what they return, enters the model. The RFC 4648 codecs are modelled in full (`Radix`).
- Clocks, randomness (`RandomFill` in ulid and ulid256), DNS lookups, the file system and afero handles are inputs. This includes the existence check, `open`, `Seek`'s arithmetic and errors from reads and closes.
- `WalReader.Decode`: the allocation limit `MaxAlloc` is the Go runtime's on 64-bit Linux (2^48 bytes); other platforms have other limits. A frame below it that the machine cannot allocate ends the Go program with an out-of-memory error, which the model does not capture: it reads such a frame.
- `bufio` is modelled as a byte buffer. Left out: short reads when a frame is larger than the reader's 4096-byte window, partial writes by the buffered writer, and the writer's automatic flush when its buffer fills.
- `Crc`: the CRC-32 check value of "123456789" (0xCBF43926) is not stated. The proof over a literal input is too large for the solver. The algorithm is written out and proved to detect any one-byte change instead.
- `BadgerDbLog`: `Last` and `Close` of paxos/badgerdb/log.go are not modelled. `Last` reads a reverse iterator that is never rewound or seeked, so its answer depends on Badger's iterator internals. `Close` only closes the database.
- Logging is left out: zap's level filtering and encoding, and the log calls of `Renderer.Render`.
- From scaffolding, template execution, the embedded template file system and the sprig functions are left out. These are parameters of `Render`. The `gitignore`, `license` and `license_header` template functions are also left out.
- `Scaffold`: the alias table is written out as it stands once `init` has added each feature's lower-case name. The `init` loop itself is not modelled.
- Reflection is left out: `Extractor.extract`, `extractField` and the `format*Flag` helpers of flagset/extract.go, and `reflect.New` in the logs' `Range`.
- The floating-point and complex branches of `parse` in flagset/slice.go are left out.
- `HashiLog.HashiWriter.Write`, `ByteText.BytesText`, `Bytes.StringBytes`: a Go string is a string of bytes. Where the source turns bytes into a string or back (the HashiCorp log adapter, basic authentication), a model string holds one character per byte, below 256. `StringBytes` keeps the low eight bits of each character, so the UTF-8 encoding of a character above 0xFF is not modelled. `HashiWriter.Write` trims its message by decoding UTF-8 over those bytes (`TrimSpaceUtf8`). Elsewhere a string is read as its code points, which agrees with Go on valid UTF-8; invalid UTF-8 in those strings is not modelled.
- `Lifecycle.LifeCycle.Resolve`: a hook is one step that does not call back into the life cycle. In Go a hook that calls `Defer` while `Resolve` runs leaves that function queued, since the lock is released before the hooks run; the model's `ensures funcs == []` does not cover that case.
- Case mapping (`strings.ToLower`, `ToUpper` and `EqualFold`) is ASCII-only. Non-ASCII letters are left as they are.
- `NoGoogle`: the printing of the final report is left out; only the findings and the exit status are modelled.
- `Lifecycle`: the package-level default life cycle and its wrappers in lifecycle/globals.go are left out. They only forward to one shared instance.
- `Must`-style panics are modelled as an outcome, not as control transfer. Go's recover is left out.
- The transport layers are outside this model: yarpc, the plugin client and listener, the gossip discovery, TLS reloading, OIDC and the CLI wiring.

## Findings

| source | as written | input that shows it | evidently intended | confidence | as-written member | corrected member |
|---|---|---|---|---|---|---|
| paxos/paxos.go:51-52 | a missing accepted log is reported as "missing promise log" | a configuration with every field set except `AcceptedLog` | "missing accepted log", so each missing field has its own message | not executed | `PaxosConfig.MissingAcceptedLogMisreported` | `PaxosConfig.IntendedMessagesDistinct` |
| wal/reader.go:58-61 | `Read` peeks ten bytes before decoding, so a last frame shorter than ten bytes cannot be read | a log whose last record is the 4 bytes "abcd" (a 9-byte frame) | peek at most what remains, so every frame the writer wrote reads back | not executed | `WalReader.ShortLastRecordUnreadable` | `WalReader.DecodeIntendedFrame` |
| auth/basic/basic.go:41-58 | the decoded credential is split on every ':', and only the text between the first and second ':' is compared with the password | user "u" with password "a:b", presenting base64("u:a:b") | split at the first ':' only (section 2 of RFC 7617), so a password may contain ':' | not executed | `BasicAuth.ColonPasswordRejected` | `BasicAuth.IntendedAcceptsEveryPassword` |
| paxos/acceptor_client.go:21-24 | a failed acceptor's nil promise is stored in an interface, which is never nil, so the nil check does not skip it and the tally dereferences it | one acceptor whose `Prepare` returns an error | skip the failed acceptor, as the nil check intends | not executed | `PaxosClient.FailedAcceptorPanics` | `PaxosClient.CollectPromises` |
| paxos/acceptor_client.go:96-148 | `sendAccept` stores a failed acceptor's nil proposal in the vote's interface, which is then not nil, so the nil check keeps it and the tally dereferences it | one acceptor whose `Accept` returns an error | skip the failed acceptor, as the nil check intends | not executed | `PaxosClient.FailedAcceptorPanicsOnAccept` | `PaxosClient.Accept` |
| cluster/membership.go:49-50 | a peer equal to the first active element takes the `idx == 0` branch and is prepended again | `Add(["h"])` twice, then `Left(["h"])`: "h" is both active and left | an already-present peer leaves the list unchanged at any index | not executed | `Cluster.AddTwiceLeaveOnce` | `Cluster.CorrectedAddTwiceLeaveOnce` |
| cluster/membership.go:125-129 | the majority is (n+1)/2, exactly half of an even membership | 4 members split into two groups of 2: both reach a "majority" | n/2+1, so any two majorities share a member | not executed | `Cluster.EvenMembershipDisjointQuorums` | `Cluster.QuorumsIntersect` |
| paxos/memory.go:85-93 | the end search finds the first ID not below `end`, and the loop includes that index | IDs 1 and 5: `Range(1, 3)` also visits ID 5, and `Range(1, 9)` reads past the log | stop before the first ID above `end` | not executed | `PaxosMemory.RangePastEnd` | `PaxosMemory.VisitedWithinExact` |
| ulid/ulid.go:101-109 | a nil source is stored through the receiver before the receiver is checked for nil | `Scan(nil)` on a nil `*ULID` panics | check the receiver first and return "destination pointer is nil" | not executed | `Ulid.Scan` | `Ulid.ScanChecked` |
