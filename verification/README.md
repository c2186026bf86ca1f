# Verification of the Forge and KLIQ core

A Dafny model of the parts of this repository where correctness spans several functions or whole runs, with proofs.
Check it from this directory with `dafny verify dfyconfig.toml`.

One module per component:

| module | component |
|---|---|
| `Protocol` | the managed assignment protocol between Forge and a KLIQ, as a step system with a history of published envelopes |
| `ManagedSource`, `Assignment` | what the KLIQ verifies about a delivered assignment and its artifacts |
| `RuntimeBundles` | verifying and recording the signed runtime bundle |
| `Signing` | signed envelopes |
| `ForgeStores` | Forge's newest-only memory store and all-versions Postgres store, and their refinement |
| `Activation` | the atomic activation of an assignment in the KLIQ's tables |
| `Leases` | runtime-action leases under their unique indexes |
| `TimeText`, `AuditChain`, `AuditFlush` | stored time texts, the audit hash chain and its retrying upload |
| `Resp` | the Redis protocol codec |
| `Schema` | the registry's JSON-schema checker |
| `Baseline`, `LocalRisk` | the baseline estimator, the deviation test, tiers and the risk cache |
| `Promotion` | baseline versions and promotion decisions |
| `Tokens`, `TrustBundles` | enrollment tokens and trust bundles in Forge's memory store |
| `Jwks` | the refreshing key set |
| `Compiler`, `Gates` | the compiler's build manifest and the gates Forge applies to it |
| `Basics` | strings, instants, digests and the text order they share |

Objects whose methods update fields or tables are classes; each method is proved against a pure function of the old
state, and the lemmas about runs are about those functions. SQL tables are maps or sequences of rows whose declared
unique constraints decide which writes are refused. Each mutex-guarded method or transaction is one step. Strings are
byte strings. SHA-256, signatures, JSON texts, regular expressions, the clock and the network are parameters. Where a
result rests on SHA-256 it names the exception: two inputs that the statement itself is about, such as a delivered and a
signed payload, that are different and have one digest.

Where the code and its comments or intent part ways, the model follows the code:

- The spread that the estimator reports as a median absolute deviation is not one: the deviations are not sorted again
  before their middle is taken (`Baseline.SpreadExact` gives its value, `Baseline.SpreadIsMadIff` says exactly when the
  two agree, `Baseline.NotMedianAbsoluteDeviation` is an input where they do not).
- Stored times drop trailing zeros of the fraction, so their text order is not the order of time, and an audit record
  can be skipped by the hash chain (`TimeText.TextOrderIff`, `AuditChain.Fork`).
- The audit record hash covers the status, which an upload changes, so an uploaded row no longer hashes to its record
  hash (`AuditFlush.RecomputesOnlyWhilePending`, `AuditFlush.UploadChangesHash`).
- The pair check asks for one adapter manifest per used adapter, while the KLIQ can store one artifact of each type: a
  compiled build can be activated with its runtime bundle exactly when all its actions use one adapter, unless the signed
  manifests of two adapters collide (`Gates.CompiledActivatableIff`; `Gates.TwoAdapterBuild` is one that cannot).
- The daemon gives the source and the manager one verifier, and the runtime bundle must verify under both the carried
  artifact key and that verifier: an assignment with an artifact key of another identifier can never become active
  (`Protocol.CarriedKeyIsOwn`).
- Promotion decisions are listed by approval time, not in the order they took effect, so the listing can tell another
  active version (`Promotion.ListedReplayIff`, `Promotion.ListingMisleads`).
- An update of a trust bundle may leave out issuer or expiry and so open the way for another one
  (`TrustBundles.IssuerConstantIff`, `TrustBundles.IssuerReplaceable`).
- Dropping `properties` from a schema can refuse a value that was accepted (`Schema.DroppingPropertiesIff`).
- A revocation at the zero time counts in Postgres and not in memory (`ForgeStores.RevokeServedAgreesIff`).
- Saving a promoted baseline version again takes its promotion away without a decision (`Promotion.SaveAgreesIff`,
  `Promotion.ResaveUnpromotes`).
- A source that cannot be read still passes the federated-digest gate, under the digest text `sha256:unavailable`
  (`Gates.CompiledFederates`, `Gates.UnavailableIff`).
- A first answer of 304 builds a key provider without keys (`Jwks.ProviderHasKeysIff`).
- The five-minute cap on audit retries is never reached (`AuditFlush.BackoffValue`).

## Model

| member | source | states |
|---|---|---|
| `Protocol.LoadManagedBundle` | internal/kliq/runtime/manager.go:101-158 | One poll on the real objects (read the stored state, hand it to the source, load, verify the bundle and build its record, stage the artifacts, save the activation, each with its own clock reading) reports and leaves exactly what the protocol's poll step says, for any delivered envelope |
| `Protocol.RecordsOf` | internal/kliq/runtime/manager.go:160-178 | One record per artifact of the assignment, of the same type and owned by the assignment's KLIQ, so that type clashes in an assignment are type clashes in the tables |
| `Protocol.AcceptedIsPublished` | internal/kliq/bundle/managed_source.go:122-162 | An accepted envelope carries a published assignment: no build manifest or artifact that the same key signed is ever accepted as one, unless the payload collides with a signed one |
| `Protocol.PollActivates` | internal/kliq/bundle/managed_source.go:122-162 | A poll that changes the local tables activates exactly one assignment Forge published, unexpired, and newer than the active one, the same again, or of a lower version and an approved rollback, unless the polled payload collides with one signed under the same header |
| `Protocol.PollActivatesIff` | internal/kliq/runtime/manager.go:101-158 | Exactly when a poll activates what was delivered: the envelope's signature holds, its assignment suits the KLIQ and may follow the active one, every artifact has a type and names the digest of its own envelope, the artifacts are acceptable, its first runtime bundle verifies under the manager's key, the artifact checks pass, and the artifacts can be stored and have pairwise distinct types |
| `Protocol.CarriedKeyIsOwn` | cmd/kliq/run.go:388-399 | Where source and manager share their verifier, as in the daemon, an assignment becomes active only if the artifact key it carries has that verifier's identifier and the runtime bundle's one signature checks under both public keys |
| `Protocol.RunKeepsInv` | internal/forge/api/kliq_management.go:1095-1129 | In every interleaving of publish, revoke and poll steps and of other uses of Forge's key, with envelopes late, repeated, reordered, altered or signed for another purpose, the history stays genuine with one digest per version and the local tables describe one published assignment, unless some poll delivered a payload that collides with a signed one |
| `Protocol.ActiveWasPublished` | internal/core/domain/assignment.go:273-333 | Whatever the KLIQ has active was published by Forge for that KLIQ, at that version and with that digest; the artifact tables hold exactly its artifacts and the cached bundle is its first runtime bundle; with the same exception |
| `Protocol.DescribedTables` | internal/kliq/actionstate/sqlite.go:452-538 | Spells out what the active tables hold: the management row has the assignment's id, version, source, expiry and digest, the cached bundle is the envelope of its first runtime bundle with that envelope's key and digest, every artifact has its row with its own id and payload and with the digest of that payload, and there is no other row of the KLIQ |
| `Protocol.OneDigestPerVersion` | internal/forge/management/store.go:471-498 | Whenever in a run one version is active twice, the same digest is active, with the same exception |
| `Protocol.DownOnlyByRollback` | internal/core/domain/assignment.go:320-332 | The active version goes down only by a poll, onto an unexpired assignment that was published with ApprovedRollback, with the same exception |
| `Protocol.ServesNewest` | internal/forge/management/store.go:500-520 | What Forge serves to a KLIQ is always the newest assignment ever published for it, whatever is polled and without exception |
| `Protocol.PublishesIff` | internal/forge/api/kliq_management.go:1095-1129 | A publication takes place exactly when the key signs and the store accepts the version; the history then gains exactly the signed envelope with the assignment's commit and expiry, and otherwise nothing changes |
| `Protocol.RecordsMean` | internal/kliq/runtime/manager.go:160-178 | Each artifact record carries the identity, reference, digest and envelope of its own artifact under the assignment's id and version, and is activated exactly for the eight known types |
| `RuntimeBundles.RecordMeans` | internal/kliq/runtime/manager.go:498-521 | A bundle record is built only from data holding an unexpired envelope signed under the manager's key, and describes that envelope: its key, digest, expiry and bundle, with no contradicting policy or commit |
| `RuntimeBundles.BundleVerifiedIff` | internal/kliq/bundle/verifier.go:30-68 | Data is a verified runtime bundle exactly when it is a signed envelope with an expiry, valid under the verifier's key now, around a runtime bundle whose policy and commit do not contradict the envelope's |
| `ManagedSource.VerifyAssignedArtifacts` | internal/kliq/bundle/managed_source.go:164-204 | The two loops over the artifacts accept exactly the lists that pass: at most one bundle carries the artifact key, and every artifact verifies under the key in force for it |
| `ManagedSource.PassesIffAcceptable` | internal/kliq/bundle/managed_source.go:164-258 | Acceptance equals an order-free condition on the multiset of artifacts: trust bundles verify under the assignment verifier, all others under one key, that of the single artifact_verification bundle if there is one and the assignment verifier's otherwise |
| `ManagedSource.OrderIrrelevant` | internal/kliq/bundle/managed_source.go:164-204 | At a fixed clock, acceptance is the same for every order of the artifacts |
| `ManagedSource.CarriedKeyVerifies` | internal/kliq/bundle/managed_source.go:164-204 | In an acceptable list that carries an artifact key, the runtime bundle verifies under that key |
| `ManagedSource.CarriedKeyUsable` | internal/kliq/bundle/managed_source.go:233-258 | A carried artifact key comes from an unexpired artifact_verification bundle, active or previous, inside an envelope the assignment verifier accepts, and is the 32-byte key its text decodes to |
| `ManagedSource.VerifiedArtifactIff` | internal/kliq/bundle/managed_source.go:206-231 | An artifact verifies under a key exactly when its type is supported, its text is an envelope the key verifies, the envelope names no other commit than the assignment's, and the payload names no other kind or type than the artifact's |
| `ManagedSource.VerifiedMeans` | internal/kliq/bundle/managed_source.go:122-162 | What a verified assignment guarantees: a valid signature over its digest, the KLIQ's own assignment, unexpired and unrevoked, allowed to follow the active one, with acceptable artifacts each of which names the digest of its own envelope |
| `ManagedSource.VerifiedIff` | internal/core/domain/assignment.go:273-333 | Exactly when an envelope is verified: signature, identity, trust key and local trust bundle, expiry, revocation, succession to the active version, every artifact's digest equal to that of its envelope, and artifact acceptance, with no order between the checks left visible |
| `Assignment.ActivatableIff` | internal/core/domain/assignment.go:273-333 | An assignment may be activated exactly when it meets each of the fifteen demands, and an error always names a demand that it fails |
| `ManagedSource.Source.VerifyAssignment` | internal/kliq/bundle/managed_source.go:122-162 | The method with its loops returns exactly the verified assignment of the specification |
| `ManagedSource.Source.Load` | internal/kliq/bundle/managed_source.go:74-120 | A response that does not verify leaves the source unchanged; one that verifies is remembered even when it lacks a runtime bundle, and the first runtime bundle is returned |
| `Signing.SameHeader` | internal/core/signing/signing.go:189-201 | Envelopes with one signing input have one digest and carry the same payload, or their two payloads collide |
| `Signing.AcceptedWasIssued` | internal/core/signing/signing.go:133-201 | If signatures check only on signed headers, every envelope Verify accepts agrees in each of the nine protected fields with one that Sign produced, and in the payload unless those two payloads collide |
| `Signing.AcceptedIff` | internal/core/signing/signing.go:133-187 | An envelope is accepted exactly when it is an Ed25519 envelope under the verifier's own identifier and 32-byte key, unexpired, names the digest of its payload, and its signature holds of all nine protected fields |
| `Signing.SignIff` | internal/core/signing/signing.go:94-131 | Sign succeeds exactly with a 64-byte key, an identifier and metadata that names no other, and its envelope has the given payload, its digest and metadata, and a signature over exactly these |
| `Signing.AcceptedUntilExpiry` | internal/core/signing/signing.go:94-187 | An envelope made by Sign is accepted by the matching verifier strictly before its expiry and refused from then on, and for ever if it has none |
| `ForgeStores.MemoryStore.SaveAssignment` | internal/forge/management/store.go:471-498 | New state and outcome are those of the newest-only specification: bad identity or version refused, equal version accepted only with the equal digest, older version refused |
| `ForgeStores.MemoryNextIsLeast` | internal/forge/management/store.go:461-520 | NextAssignmentVersion is the least version at which a save changes the memory store: saving there is accepted, LatestAssignment then returns exactly the saved envelope, other KLIQs are unaffected, and a save below it changes nothing |
| `ForgeStores.MemorySaveIff` | internal/forge/management/store.go:471-498 | A save replaces the record exactly for a named KLIQ and a positive version above the stored one; without a change it is accepted exactly for the stored version with the equal digest |
| `ForgeStores.MemoryStore.RevokeAssignment` | internal/forge/management/store.go:522-550 | Marks the stored record only when it has the named version |
| `ForgeStores.PostgresStore.SaveAssignment` | internal/forge/management/postgres.go:666-723 | New rows and outcome are those of the all-versions specification, including the refusals by the foreign key, the payload decoding and the artifact primary key |
| `ForgeStores.TableNextIsLeast` | internal/forge/management/postgres.go:655-744 | The same of the Postgres store, for a save whose rows can be inserted |
| `ForgeStores.TableSaveIff` | internal/forge/management/postgres.go:666-723 | A save adds its one row exactly for a named KLIQ, a positive version above all of its rows and insertable rows; without a row it is accepted exactly when the row of that version has the equal digest |
| `ForgeStores.PostgresStore.LatestAssignment` | internal/forge/management/postgres.go:725-744 | An envelope is returned only from an unrevoked row whose version no other row of the KLIQ exceeds, and none only when the KLIQ has no row or such a row is revoked |
| `ForgeStores.PostgresStore.NextAssignmentVersion` | internal/forge/management/postgres.go:655-664 | Greater than every stored version of the KLIQ, by one than the newest, and 1 when there is none |
| `ForgeStores.PostgresStore.RevokeAssignment` | internal/forge/management/postgres.go:746-756 | Marks the row of the named version, newest or not |
| `ForgeStores.NewestIsGreatest` | internal/forge/management/postgres.go:725-744 | In a table with growing versions the selected newest row dominates every row of its KLIQ |
| `ForgeStores.SaveRefines` | internal/forge/management/postgres.go:666-723 | A save that both stores can carry out keeps the memory record of every KLIQ equal to its newest row |
| `ForgeStores.RevokeRefines` | internal/forge/management/postgres.go:746-756 | A revocation at a real instant keeps that correspondence, whichever version it names |
| `ForgeStores.RunRefines` | internal/forge/management/store.go:461-550 | The correspondence holds after every prefix of every common sequence of saves and revocations |
| `ForgeStores.SameAnswers` | internal/forge/management/store.go:461-520 | After every common sequence both stores give the same NextAssignmentVersion and the same LatestAssignment for every KLIQ |
| `ForgeStores.SaveOutcomesDifferIff` | internal/forge/management/postgres.go:666-723 | The stores report different outcomes of a save exactly for an older version repeated with its own digest |
| `ForgeStores.RevokeOutcomesDifferIff` | internal/forge/management/postgres.go:746-756 | They report different outcomes of a revocation exactly for a stored version that is not the newest |
| `ForgeStores.RevokeServedAgreesIff` | internal/forge/management/store.go:522-550 | Revoking the served assignment leaves both stores with the same answer exactly when the instant is not the zero time, which memory reads as not revoked |
| `Activation.StateStore.SaveManagedBundleActivation` | internal/kliq/actionstate/sqlite.go:452-538 | Either all tables are those of the committed transaction or nothing has changed |
| `Activation.InsertAllHolds` | internal/kliq/actionstate/sqlite.go:497-536 | The loop of INSERTs succeeds exactly when types are pairwise distinct and every artifact can be stored, and then the KLIQ's rows are exactly the artifacts |
| `Activation.CommitIff` | internal/kliq/actionstate/sqlite.go:452-538 | For artifacts of the activated KLIQ the call commits exactly when state and artifacts are complete, every artifact can be stored and the artifact types are pairwise distinct |
| `Activation.CommitDescribes` | internal/kliq/actionstate/sqlite.go:452-538 | After a commit the bundle, the management state and both artifact tables describe the given activation with nothing left from earlier ones, and rows of other KLIQs are untouched |
| `Activation.CommitStores` | internal/kliq/actionstate/sqlite.go:553-583 | A commit keeps the bundle record and the management state it was given, whatever the artifacts are |
| `Activation.CommitKeepsTrust` | internal/kliq/actionstate/sqlite.go:531-583 | A commit keeps an active assignment_verification bundle among the artifacts under its key identifier with the activation time, and leaves the local trust bundles alone when there is none |
| `Activation.SaveTrustIff` | internal/kliq/actionstate/sqlite.go:553-583 | A trust bundle is refused exactly when it does not decode or is an active assignment_verification bundle without identifier or key; its time is that of the activation, of the verification or of the clock, the first that is set |
| `Activation.IncompleteRefused` | internal/kliq/actionstate/sqlite.go:585-808 | Any missing field of the state or of one artifact refuses the whole activation |
| `Leases.LeaseStore.UpsertLease` | internal/kliq/actionstate/sqlite.go:912-953 | The new table is the specified upsert, or the old one when the lease is incomplete or a unique index refuses it |
| `Leases.LeaseStore.ExpireLease` | internal/kliq/actionstate/sqlite.go:988-993 | Only status and last_reconciled_at of the named lease change, and an unknown id changes nothing |
| `Leases.LeaseStore.LeaseByDedupKey` | internal/kliq/actionstate/sqlite.go:955-961 | Returns some live lease with the key, and none only if there is none |
| `Leases.FitsIff` | internal/kliq/actionstate/sqlite.go:123-165 | The declared indexes refuse exactly the rows that would break a constraint |
| `Leases.RunKeepsConstraints` | internal/kliq/actionstate/sqlite.go:912-993 | In every run of upserts and expiries there is at most one live lease per (adapter, capability, action, scope, key), and idempotency keys are unique |
| `Leases.OnlyStatusChanges` | internal/kliq/actionstate/sqlite.go:912-993 | A stored lease stays for ever, and only its status and last_reconciled_at ever change |
| `Leases.UpsertStores` | internal/kliq/actionstate/sqlite.go:912-953 | An accepted upsert stores a new lease as given, gives a stored one the new status and reconciliation time, and touches no other row |
| `Leases.UpsertRefusedIff` | internal/kliq/actionstate/sqlite.go:912-953 | An upsert is refused exactly for a missing field, a taken idempotency key, or a live row under the dedup key of another live lease |
| `Leases.ExpireEnds` | internal/kliq/actionstate/sqlite.go:988-993 | Expiring a stored lease ends it at the given time, so that it is no longer live, and touches no other row |
| `Leases.ExpireFrees` | internal/kliq/actionstate/sqlite.go:161-163 | Expiring a live lease frees its dedup key: any complete lease for that target with new identifiers is then accepted |
| `Leases.ActiveLeasesIsScan` | internal/kliq/actionstate/sqlite.go:968-986 | Every answer of ActiveLeases holds the same leases as the live ones of every answer of AllLeases, each once |
| `Leases.DedupLookupIsScan` | internal/kliq/actionstate/sqlite.go:955-986 | With the constraints in force, the lookup by key returns the one live lease with that key in a scan of AllLeases, and nothing exactly when there is none |
| `TimeText.TextOrderIff` | internal/kliq/actionstate/sqlite.go:1672-1674 | Stored times sort as text in time order, except exactly when two instants share the second and the digits of the earlier fraction begin those of the later one |
| `TimeText.LaterSortsFirst` | internal/kliq/actionstate/sqlite.go:1672-1674 | A concrete pair of instants whose stored texts sort the wrong way round |
| `AuditChain.JoinInjective` | internal/kliq/actionstate/sqlite.go:1131-1145 | Lists of NUL-free fields of one length are recovered from their NUL-joined text |
| `AuditChain.SameHash` | internal/kliq/actionstate/sqlite.go:1131-1145 | Two records with NUL-free fields have one record hash exactly when they agree in the previous hash, id, action id, binding id, binding, manifest and action digests, status, payload digest and creation time, or their two hash inputs collide |
| `AuditChain.TipPinsHistory` | internal/kliq/actionstate/sqlite.go:1033-1145 | Two linear histories with equal final record hashes are equal in length and in those ten fields of every record exactly unless the hash inputs of two of their records, equally far from the ends, collide |
| `AuditChain.TipPinsPayload` | internal/kliq/actionstate/sqlite.go:1033-1145 | The same tip also pins every payload whose digest the store computed, unless the two payloads or the hash inputs of two records collide |
| `AuditChain.LatestIndexIsGreatest` | internal/kliq/actionstate/sqlite.go:1122-1129 | The record chosen as latest is the greatest in (created_at text, id) order among the hashed ones |
| `AuditChain.LatestIsLastIff` | internal/kliq/actionstate/sqlite.go:1122-1129 | It is the last inserted record exactly when that record sorts after all others |
| `AuditChain.AppendKeepsWellformed` | internal/kliq/actionstate/sqlite.go:1033-1082 | Every append keeps identifiers unique, hashes present and equal to the recomputed hash, and fields NUL-free |
| `AuditChain.CompletedMeans` | internal/kliq/actionstate/sqlite.go:1033-1082 | What the store fills in where nothing was given: payload digest, time, the latest record's hash and the record's own hash; all that was given stays |
| `AuditChain.LinkIff` | internal/kliq/actionstate/sqlite.go:1033-1082 | One more record links to the newest exactly when the newest sorts last, or when its hash input collides with that of the record that does |
| `AuditChain.LinearIff` | internal/kliq/actionstate/sqlite.go:1033-1129 | Records that sort last on arrival always form one unbroken line; and a run of appends forms a line exactly when every record but the newest sorted last on arrival or collides, in its hash input, with the record that did |
| `AuditChain.Fork` | internal/kliq/actionstate/sqlite.go:1033-1129 | A record that sorts before its predecessor is skipped: the next one links to the predecessor as well, for all such records |
| `AuditChain.ForkExample` | internal/kliq/actionstate/sqlite.go:1672-1674 | Two instants of one second whose stored texts cause such a fork |
| `AuditFlush.AuditSpool.AppendAudit` | internal/kliq/actionstate/sqlite.go:1033-1082 | The table gains the completed record exactly when its id is new; a repeated id is accepted with the same payload digest and refused with another |
| `AuditFlush.FlushAuditSpool` | cmd/kliq/run.go:566-621 | The daemon's loop over the pending records leaves the spool as the fold of its per-record steps; outside managed mode it leaves it alone |
| `AuditFlush.BackoffValue` | cmd/kliq/run.go:623-632 | The wait after n failures is min(2^(n-1), 256) seconds: the five-minute cap is never reached |
| `AuditFlush.FlushAttemptsIff` | cmd/kliq/run.go:566-632 | A flush attempts each pending record once exactly when it was never attempted or min(2^(n-1), 256) seconds have passed since the last of its n attempts, and no other record |
| `AuditFlush.AttemptKeepsDelivery` | cmd/kliq/run.go:580-617 | One due attempt on a pending row keeps its columns in step with its attempts |
| `AuditFlush.RunKeepsInv` | cmd/kliq/run.go:566-632 | In every run of appends and flushes each row is uploaded exactly when its last attempt was acknowledged, counts one retry per refused attempt, and its attempts are at least min(2^(retry-1), 256) seconds apart |
| `AuditFlush.NothingLost` | internal/kliq/actionstate/sqlite.go:1033-1159 | No record is ever lost, moved or rewritten apart from its delivery columns |
| `AuditFlush.RunLog` | internal/kliq/actionstate/sqlite.go:1033-1082 | The insertions of a run are exactly those of its appends: uploads never disturb the chain |
| `AuditFlush.RunLinearIff` | cmd/kliq/run.go:566-632 | Whatever was uploaded in between, records that sort last on arrival form one line, and the links form a line exactly when every record but the newest sorted last or its hash input, as inserted, collides with that of the record that did |
| `AuditFlush.UploadedIffAcknowledged` | cmd/kliq/run.go:600-617 | A row reads uploaded exactly when the last answer met for it was an acknowledgement with status accepted, the row's id and an acknowledgement id |
| `AuditFlush.RecomputesOnlyWhilePending` | internal/kliq/actionstate/sqlite.go:1131-1145 | A stored row still hashes to its record hash exactly while it is pending, or when its hash inputs before and after the upload collide, because the hash covers the status that an upload changes |
| `AuditFlush.UploadChangesHash` | cmd/kliq/run.go:566-621 | The run of one append and one accepted flush, for any new record: the row is uploaded and hashes to its record hash only if its hash inputs before and after collide |
| `Resp.Reader.ReadLine` | internal/storage/redis/client.go:151-159 | Consumes up to and with the first line feed and strips one carriage return, or fails at the end of the stream |
| `Resp.Reader.ReadBulkString` | internal/storage/redis/client.go:106-126 | Reply and new position are those of the specification for every stream, nil, short and unterminated bodies included |
| `Resp.Reader.ReadArray` | internal/storage/redis/client.go:128-149 | Reply and new position are those of the recursive specification |
| `Resp.Reader.ReadItems` | internal/storage/redis/client.go:138-148 | The loop returns the items of the specification and stops with the first failing one |
| `Resp.Reader.ReadValue` | internal/storage/redis/client.go:72-104 | Reply and new position are those of the specification for every prefix byte |
| `Resp.EncodeCommand` | internal/storage/redis/client.go:63-70 | Prints exactly the array of bulk strings, whatever bytes the arguments hold |
| `Resp.ParsePrintInt` | internal/storage/redis/client.go:63-70 | Every 64-bit integer is read back from its decimal text |
| `Resp.LineEndIff` | internal/storage/redis/client.go:151-159 | A line ends at a position exactly when a line feed is there and none between the start and it |
| `Resp.ReadPrinted` | internal/storage/redis/client.go:72-149 | Every value tree, nested arrays and nil elements included, is read back from its printed form at any place of any stream, and exactly the printed bytes are consumed |
| `Resp.CommandRoundTrip` | internal/storage/redis/client.go:63-149 | For all argument lists and any trailing bytes, reading an encoded command gives exactly those bulk strings and leaves exactly the trailing bytes |
| `Resp.ItemsLocal` | internal/storage/redis/client.go:128-149 | Reading the items of an array depends only on the bytes consumed |
| `Resp.ValueLocal` | internal/storage/redis/client.go:72-149 | Every successful read depends only on the bytes it consumed: any other continuation of the stream gives the same value at the same position |
| `Resp.ReadIff` | internal/storage/redis/client.go:72-149 | Exactly which bytes a value is read from: a string only from a plus line, an integer only from a colon line that holds it, a bulk string only from its announced length with CR LF after it, nil only from a length of -1, an array only from its announced number of items read in turn |
| `Resp.ErrorLine` | internal/storage/redis/client.go:81-86 | An error reply is never a value: it fails after its line is consumed |
| `Resp.UnknownPrefix` | internal/storage/redis/client.go:102-103 | A reply that starts with any other byte fails at once |
| `Resp.LengthPanics` | internal/storage/redis/client.go:106-149 | An array length below -1 panics, and a bulk length exactly when it is below -2 or too large for its terminator |
| `Schema.ValidateSchemaValue` | internal/core/registry/schema_validator.go:194-245 | Accepts exactly the values that satisfy the schema, keyword by keyword (sections 6.1 to 6.5 of JSON Schema Validation 2020-12, lengths in bytes), whatever order maps are iterated in |
| `Schema.ValidateScalars` | internal/core/registry/schema_validator.go:194-245 | The keywords about the value itself: type, enum, pattern, string and number bounds |
| `Schema.ValidateSchemaType` | internal/core/registry/schema_validator.go:247-302 | Accepts exactly when the type keyword is a name or a list of names and the value has one of them |
| `Schema.ValidateObjectSchema` | internal/core/registry/schema_validator.go:304-369 | Accepts exactly the objects that have the required members and whose declared and additional members satisfy their schemas |
| `Schema.ValidateRequired` | internal/core/registry/schema_validator.go:309-322 | Accepts exactly when every required name is a string and present |
| `Schema.ValidateProperties` | internal/core/registry/schema_validator.go:323-344 | Accepts exactly when every declared member that is present satisfies its schema |
| `Schema.ValidateAdditional` | internal/core/registry/schema_validator.go:345-368 | Accepts exactly when the undeclared members are allowed or satisfy the additional schema |
| `Schema.ValidateArraySchema` | internal/core/registry/schema_validator.go:371-400 | Accepts exactly the arrays within their bounds all of whose items satisfy the item schema |
| `Schema.ValidateSupported` | internal/core/registry/schema_validator.go:148-192 | Accepts exactly the schemas that use known keywords only, here and in every subschema, with subschemas where the structure needs them |
| `Schema.ScalarsMean` | internal/core/registry/schema_validator.go:194-245 | What the value keywords demand, spelled out in the keywords' own names and values |
| `Schema.TypeMeans` | internal/core/registry/schema_validator.go:247-302 | The type keyword is met exactly by a name of a kind the value belongs to, or a list of names with one such among them; an integer is also a number |
| `Schema.ObjectMeans` | internal/core/registry/schema_validator.go:304-369 | What an object must have to satisfy a schema: required names, declared members and additional members, spelled out |
| `Schema.ArrayMeans` | internal/core/registry/schema_validator.go:371-400 | What an array must have, spelled out, and that other values are free of array and object keywords |
| `Schema.SupportedIff` | internal/core/registry/schema_validator.go:148-192 | Supported exactly with the seventeen known keywords and supported subschemas |
| `Schema.DroppingWeakens` | internal/core/registry/schema_validator.go:194-400 | Dropping any keyword but properties never refuses an accepted value |
| `Schema.DroppingPropertiesIff` | internal/core/registry/schema_validator.go:304-369 | Dropping properties keeps an accepted value accepted exactly when it is no object, or additionalProperties is absent or true, or is false and the object is empty, or is a schema that every member satisfies |
| `Schema.DroppingPropertiesMayRefuse` | internal/core/registry/schema_validator.go:345-368 | Beside a closed schema, dropping properties refuses a value that was accepted |
| `Schema.OnlyConsultedMatter` | internal/core/registry/schema_validator.go:194-400 | Schemas that agree on the thirteen consulted keywords accept the same values: annotations and unknown keywords change no verdict |
| `Baseline.ComputeEstimate` | internal/kliq/baseline/baseline.go:281-301 | The method with its sort and loop returns exactly the specified center and spread, or none below the minimal count |
| `Baseline.EstimateOfBag` | internal/kliq/baseline/baseline.go:281-301 | The estimate depends only on the multiset of the samples |
| `Baseline.SpreadExact` | internal/kliq/baseline/baseline.go:281-312 | The spread the code gives: 1 for an odd count, half the gap between the two middle samples for an even one, and 1 if that gap is zero |
| `Baseline.SpreadPositive` | internal/kliq/baseline/baseline.go:296-300 | The spread is always positive |
| `Baseline.CenterSplitsSamples` | internal/kliq/baseline/baseline.go:303-312 | At least half of the samples lie on each side of the center |
| `Baseline.ShiftMovesCenter` | internal/kliq/baseline/baseline.go:281-312 | Shifting all samples shifts the center and keeps the spread |
| `Baseline.NotMedianAbsoluteDeviation` | internal/kliq/baseline/baseline.go:292-296 | A concrete sample set whose spread is not its median absolute deviation, because the deviations are not sorted again |
| `Baseline.SpreadIsMadIff` | internal/kliq/baseline/baseline.go:281-312 | The spread is the median absolute deviation (with 1 for 0) exactly when, for an even count, more than half of the samples lie at the least distance from the center or the middle gap is zero and the two middle distances sum to 2, and for an odd count, more than half of the samples lie at the center or the middle distance is 1 |
| `Baseline.OddBaselineIgnoresScale` | internal/kliq/baseline/baseline.go:233-259 | Against a baseline of an odd number of samples a value deviates exactly when it is at least 3 away from the median, however spread out the samples were |
| `Baseline.DeviatesIff` | internal/kliq/baseline/baseline.go:233-259 | Against every estimate a value deviates exactly at three spreads from the center, and score times spread is its distance; a spread that is not positive counts as 1 |
| `LocalRisk.TierForScore` | internal/kliq/localrisk/localrisk.go:95-129 | In whatever order the map is met, the tier is that of a highest reached threshold, or unknown when none is reached |
| `LocalRisk.LocalBounds` | cmd/kliq/run.go:789-813 | The four threshold expressions of the local recipe are read as 0, 30, 70 and 90 |
| `LocalRisk.MatchStates` | internal/kliq/localrisk/localrisk.go:117-129 | A number is read only where the text states it: the word score, the sign for at least, then that number, with or without blanks between |
| `LocalRisk.LowerBoundIs` | internal/kliq/localrisk/localrisk.go:117-129 | For every expression the leftmost stated bound is read; without one, an expression with score below has the bound 0 and no other has any |
| `LocalRisk.LocalTierUnique` | cmd/kliq/run.go:789-813 | Under the local recipe the tier is fixed by the score |
| `LocalRisk.EmittedTier` | internal/kliq/localrisk/localrisk.go:84-115 | Every deviation the baseline emits scores from 75 to 100 and is critical from 3.6 spreads on and high below |
| `LocalRisk.RiskCache.SaveRiskContext` | internal/kliq/actionstate/sqlite.go:1531-1564 | The row under the normalised key is replaced, or nothing changes when the context is invalid |
| `LocalRisk.RiskCache.ReadRiskContext` | internal/kliq/actionstate/sqlite.go:1566-1587 | A tier other than unknown is only ever read from a stored context that is still valid at the time of reading |
| `LocalRisk.SaveAcceptedIff` | internal/kliq/actionstate/sqlite.go:1531-1564 | A context is saved exactly when its tier is unknown or it is complete, of a known tier and still valid, and under which key |
| `LocalRisk.ReadRiskIs` | internal/kliq/actionstate/sqlite.go:1566-1587 | A read returns the row of the normalised key while it is valid, and otherwise an unknown context of that key that says why |
| `LocalRisk.EvaluateDeviation` | internal/kliq/localrisk/localrisk.go:31-75 | Builds the context of the scaled score with its tier and validity and saves it in the cache |
| `LocalRisk.CachedUntilStale` | internal/core/risk/risk.go:112-135 | A deviation is saved exactly when still fresh, is read back with its tier until valid_until whatever is written under other keys, and as unknown afterwards |
| `Promotion.BaselineStore.SaveBaselineVersion` | internal/kliq/actionstate/sqlite.go:1264-1341 | The upsert keeps the key columns, replaces the stored version and clears the promotion, or leaves everything when an argument is refused |
| `Promotion.BaselineStore.ActiveBaselineVersion` | internal/kliq/actionstate/sqlite.go:1429-1449 | Returns the version of the promoted row of the key, and none exactly when no row of it is promoted |
| `Promotion.BaselineStore.PromoteBaselineVersion` | internal/kliq/actionstate/sqlite.go:1343-1387 | Moves the promotion of the version's key and records the decision with the version it replaces, or changes nothing; the unique index holds afterwards |
| `Promotion.BaselineStore.RejectBaselineVersion` | internal/kliq/actionstate/sqlite.go:1389-1406 | Records the rejection and touches no version, or changes nothing |
| `Promotion.RunKeepsUnique` | internal/kliq/actionstate/sqlite.go:309-311 | In every run, whatever ids are saved, at most one version of each (view, entity) is promoted |
| `Promotion.PromoteAcceptedIff` | internal/kliq/actionstate/sqlite.go:1343-1387 | With the invariant, a promotion is accepted exactly when the decision is complete, the version known and the decision id new: the unique index never refuses one |
| `Promotion.PromoteStores` | internal/kliq/actionstate/sqlite.go:1343-1387 | An accepted promotion stamps the version with the approval and records the decision, with promote and the active version filled in where nothing was given |
| `Promotion.RejectAcceptedIff` | internal/kliq/actionstate/sqlite.go:1389-1406 | A rejection is accepted exactly for a complete decision with a new id about a known version, and only adds the decision, as a rejection |
| `Promotion.SaveAcceptedIff` | internal/kliq/actionstate/sqlite.go:1264-1341 | A version is saved exactly when it is named, unpromoted and all its metrics are named; what is stored is that version, not promoted |
| `Promotion.SaveAgreesIff` | internal/kliq/actionstate/sqlite.go:1264-1300 | A save leaves the promoted rows as the decisions tell them exactly when it does not hit a promoted row: saving the active version again silently unpromotes it |
| `Promotion.ResaveUnpromotes` | internal/kliq/actionstate/sqlite.go:1264-1387 | The run save, promote, save of any version: it was active after the promotion, is not afterwards, and the recorded decision says it is |
| `Promotion.SaveKeepsInvIff` | internal/kliq/actionstate/sqlite.go:1264-1300 | A save keeps the whole invariant exactly when its id is new or it repeats the key of a version that is not promoted |
| `Promotion.RunKeepsInv` | internal/kliq/actionstate/sqlite.go:1264-1406 | The invariant holds after every run of harmless saves, promotions, rollbacks and rejections |
| `Promotion.ReplayGivesActive` | internal/kliq/actionstate/sqlite.go:1264-1406 | In every run with fresh saved ids, replaying the promote and rollback decisions in insertion order gives the active version of every (view, entity), and no other version is promoted |
| `Promotion.TrailUnbroken` | internal/kliq/actionstate/sqlite.go:1358-1368 | When callers leave the previous version open, every recorded decision names the version that the decisions before it left active |
| `Promotion.ReplayIsLast` | internal/kliq/actionstate/sqlite.go:1343-1406 | Replaying a list of decisions gives each key the version of the last decision that moves its promotion, and nothing to a key that none moves |
| `Promotion.ListedReplayIff` | internal/kliq/actionstate/sqlite.go:1408-1427 | In every run with fresh saved ids, replaying the decisions in the order BaselinePromotionDecisions lists them gives the active version of every key exactly when, for each key, the decision inserted last and the one listed last name the same version |
| `Promotion.ListingMisleads` | internal/kliq/actionstate/sqlite.go:1408-1427 | Two versions of one key promoted in turn, the second with an approval that is listed first: the listing replays to the first version while the second is active |
| `Tokens.TokenStore.CreateEnrollmentToken` | internal/forge/management/store.go:135-158 | Both tables gain the stamped token, or nothing changes without id or secret |
| `Tokens.TokenStore.UseEnrollmentToken` | internal/forge/management/store.go:170-209 | A usable token is marked used in both tables and returned; every refusal leaves both tables alone |
| `Tokens.TokenStore.RevokeEnrollmentToken` | internal/forge/management/store.go:211-239 | The token is marked revoked in both tables, or nothing changes for an unknown id |
| `Tokens.PutAgreesIff` | internal/forge/management/store.go:144-145 | Writing a token to both tables keeps them in agreement exactly when it is new in both or one token of both |
| `Tokens.CreateAgreesIff` | internal/forge/management/store.go:135-158 | Creating keeps the by-hash and by-id tables in agreement exactly when id and digest are both new or both belong to one stored token |
| `Tokens.RunKeepsInv` | internal/forge/management/store.go:135-239 | In every run with new ids and digests and real instants, the tables agree, and a token reads as used or revoked exactly when the history says so |
| `Tokens.UseAcceptedIff` | internal/forge/management/store.go:170-209 | A use succeeds exactly when some stored token has the secret's digest, expires later than now or never, leaves open or equals each of environment, stage and scope, and was neither used nor revoked before in the run |
| `Tokens.UsedOnceInTime` | internal/forge/management/store.go:170-209 | Each token is used at most once, never after its revocation and only before its expiry, if it has one |
| `Tokens.RevokedIsRefused` | internal/forge/management/store.go:211-239 | In every run a token can be revoked exactly when it is stored, and its secret is refused ever after, in any place and at any time |
| `Tokens.UseStamps` | internal/forge/management/store.go:170-209 | An accepted use stamps the secret's token with its time in both tables and changes nothing else of it |
| `Tokens.CreateAcceptedIff` | internal/forge/management/store.go:135-158 | A token is created exactly with an id and a secret, and stored as given with the secret's digest and a creation time |
| `Tokens.FreshSecretFreshDigest` | internal/forge/management/store.go:130-133 | A secret no earlier token had gives a new digest, unless it collides with the secret of an earlier token |
| `TrustBundles.TrustStore.SaveTrustBundle` | internal/forge/management/store.go:351-367 | Stores the bundle with its defaulted status, or changes nothing when a new bundle or an update is refused |
| `TrustBundles.TrustStore.RotateTrustBundle` | internal/forge/management/store.go:379-431 | Turns the current bundle to previous and adds the next, or changes nothing |
| `TrustBundles.TrustStore.RevokeTrustBundle` | internal/forge/management/store.go:433-459 | Only the status of the named bundle changes |
| `TrustBundles.KeysNeverChange` | internal/forge/management/store.go:663-698 | In every run a stored bundle stays, its public key and purpose never change, and its status only moves from active to previous to revoked |
| `TrustBundles.RotationKeepsCount` | internal/forge/management/store.go:379-431 | An accepted rotation keeps the number of active bundles of every purpose |
| `TrustBundles.RevocationCount` | internal/forge/management/store.go:433-459 | A revocation takes one from the count of a purpose exactly when it hits an active bundle of it |
| `TrustBundles.NewAcceptedIff` | internal/forge/management/store.go:663-698 | A new bundle is accepted exactly with identifier, key, known purpose and known status, and is active if it names none |
| `TrustBundles.UpdateAcceptedIff` | internal/forge/management/store.go:663-698 | An update is accepted exactly with the stored key and purpose, no other issuer, no later expiry and a status not earlier in life |
| `TrustBundles.RotateAcceptedIff` | internal/forge/management/store.go:379-431 | A rotation is accepted exactly from an active bundle to an unknown, complete, active one of the same purpose, and then changes these two alone |
| `TrustBundles.IssuerConstantIff` | internal/forge/management/store.go:673-675 | The issuer of a stored bundle is constant along a run exactly when no accepted save of that bundle leaves the issuer out, whatever happens to other bundles |
| `TrustBundles.ExpiryNeverExtendedIff` | internal/forge/management/store.go:676-678 | The expiry of a stored bundle is never removed or extended along a run exactly when no accepted save of that bundle leaves the expiry out |
| `TrustBundles.IssuerReplaceable` | internal/forge/management/store.go:673-678 | Two accepted updates, the first without an issuer, replace any issuer by any other |
| `Jwks.ParseJWKS` | internal/api/authn/jwks.go:271-304 | A document is accepted exactly when it has a relevant key, all relevant keys decode and their identifiers differ; the result is exactly its relevant keys |
| `Jwks.RefreshingJwks.Refresh` | internal/api/authn/jwks.go:153-217 | The cache after each answer: new keys and validators on success, only times on 304, only the error on failure |
| `Jwks.RefreshingJwks.Key` | internal/api/authn/jwks.go:140-151 | Fetches only on a miss the throttle allows, and every key it returns is in the cache afterwards |
| `Jwks.CachedKey` | internal/api/authn/jwks.go:219-244 | The key under the trimmed identifier; without an identifier the only key, exactly when there is one |
| `Jwks.NewRefreshingJwks` | internal/api/authn/jwks.go:87-120 | A provider exists exactly when there is a URL and the first fetch succeeded |
| `Jwks.RunKeepsInv` | internal/api/authn/jwks.go:140-269 | Every sequential run keeps the keys, times and throttle in step with the history of fetches |
| `Jwks.KeysAreLastLoaded` | internal/api/authn/jwks.go:153-217 | The cache always holds the keys of the last answer that brought any, whatever failed or was not modified since, and is empty exactly while no answer has |
| `Jwks.NeverEmpty` | internal/api/authn/jwks.go:153-217 | After a first fetch that brought keys the cache is never empty, in every orderly run |
| `Jwks.MissesThrottled` | internal/api/authn/jwks.go:246-253 | Then a fetch for an unknown kid comes at least minRefreshInterval after every earlier fetch |
| `Jwks.FetchesIff` | internal/api/authn/jwks.go:140-151 | A call fetches exactly when it is a refresh, or a lookup that misses while the cache is empty or the minimal interval since the last fetch is over |
| `Jwks.RotatedKeyFound` | internal/api/authn/jwks.go:140-151 | A key that the server has rotated in is found by the first lookup after the minimal interval |
| `Jwks.RefreshedMeans` | internal/api/authn/jwks.go:153-217 | What a fetch does to the cache for every answer, by its status code |
| `Jwks.RelevantIff` | internal/api/authn/jwks.go:271-304 | A key counts exactly when its type reads RSA in any case and its use and algorithm are open or sig and RS256 |
| `Jwks.ProviderHasKeysIff` | internal/api/authn/jwks.go:87-120 | A returned provider has keys exactly when the first answer was not a 304 |
| `Jwks.ConditionalOnlyAfterLoad` | internal/api/authn/jwks.go:160-174 | Requests are conditional only after an answer brought keys, so a server that sends 304 to conditional requests alone (section 15.4.5 of RFC 9110) never causes an empty cache |
| `Compiler.LoadAdapterBindings` | internal/core/registry/registry.go:527-554 | Accepts exactly the lists whose bindings name capability, adapter and a known status; every loaded binding has an identifier and a digest and is otherwise as given |
| `Compiler.BindingFor` | internal/core/registry/registry.go:292-307 | The first binding that serves the capability in the stage, and none only if there is none |
| `Compiler.RuntimeBundleGrants` | internal/forge/compiler/compiler.go:570-610 | One grant per runtime action in order, or failure if one action has none |
| `Compiler.GrantForIff` | internal/forge/compiler/compiler.go:612-656 | An action has a grant exactly when its first rule names one capability that the catalog knows and does not merely plan, a binding serves it in the stage, and the bound adapter's manifest implements it for the action |
| `Compiler.ImplementsIff` | internal/forge/compiler/compiler.go:747-764 | A manifest implements a capability for an action exactly when its first claim about the capability is marked implemented and lists the action |
| `Compiler.AdapterManifestsForRuntimeBundle` | internal/forge/compiler/compiler.go:975-990 | Exactly the manifests of the adapters that some grant names |
| `Compiler.EmitAdapterManifestArtifacts` | internal/forge/compiler/compiler.go:992-1025 | One emitted artifact per used adapter; fails exactly when there is one and the signer cannot sign |
| `Compiler.AdapterManifestRefs` | internal/forge/compiler/compiler.go:955-973 | One reference per used adapter, with its digest, protocol and signed manifest |
| `Compiler.ReferencesFromRuntimeBundle` | internal/forge/compiler/compiler.go:1066-1102 | Bindings and runtime actions by identifier, the last grant of an identifier describing it |
| `Compiler.FederatedSourceDigests` | internal/forge/compiler/compiler.go:1104-1124 | Exactly the six source digests under their names and every used manifest's digest under its own |
| `Compiler.MergedOutputs` | internal/forge/compiler/compiler.go:1044-1064 | The adapters' outputs stand beside the plain ones without hiding any |
| `Compiler.SignedOutputs` | internal/forge/compiler/compiler.go:1257-1269 | Exactly the outputs that were signed |
| `Compiler.EmitIff` | internal/forge/compiler/compiler.go:1216-1255 | Emission fails for every artifact or for none, depending on the signer alone |
| `Compiler.CreatedBy` | internal/forge/compiler/compiler.go:1168-1182 | The trimmed first name that is not blank, local-compiler if all are, so never blank |
| `Compiler.CompileOne` | internal/forge/compiler/compiler.go:233-380 | A manifest is built exactly when every action has a grant and the signer can sign, and it has all the parts described above |
| `Gates.ValidateRuntimeBundleAdapterManifestPair` | internal/forge/api/kliq_management.go:822-855 | The two passes over maps accept exactly when a requested runtime bundle travels with the signed manifest of every adapter its actions use |
| `Gates.FederationPinsProvenance` | internal/forge/api/kliq_management.go:699-731 | Two manifests that pass with the same federated digests agree, blanks aside, in every provenance digest and every common adapter digest |
| `Gates.CompiledFederates` | internal/forge/api/kliq_management.go:699-731 | Every compiled manifest passes the federated-digest gate, even when a source could not be read |
| `Gates.CompiledSources` | internal/forge/compiler/compiler.go:1104-1124 | Each provenance field and each federated digest of a compiled manifest is that of its own source, so no two are swapped |
| `Gates.CompiledAdapters` | internal/forge/compiler/compiler.go:955-990 | A compiled manifest lists exactly the adapters that some grant names and that have a manifest, each with its own manifest's version, digest and protocol and its own signed artifact |
| `Gates.CompiledOutputs` | internal/forge/compiler/compiler.go:1044-1064 | Each output a compiled manifest lists is that of its own artifact, plain and signed |
| `Gates.EmissionMeans` | internal/forge/compiler/compiler.go:1216-1255 | A signed output has the digest of its envelope's text and of its payload and the signer's key, and the envelope carries that payload, the policy and the commit |
| `Gates.FederatedIff` | internal/forge/api/kliq_management.go:699-731 | The gate passes exactly when all six sources and every listed adapter have a federated digest equal to their own |
| `Gates.UnavailableIff` | internal/forge/compiler/compiler.go:1404-1445 | A source digest reads sha256:unavailable exactly when the source could not be read |
| `Gates.CompiledAdaptersSignedIff` | internal/forge/api/kliq_management.go:650-668 | A compiled manifest passes the signed-adapter gate exactly when it uses no adapter or was signed under a named key |
| `Gates.CompiledReadyIff` | internal/forge/api/kliq_management.go:236-273 | A compiled manifest is ready for approval exactly when signing was on under a named key and the policy repository has a commit |
| `Gates.ReadyMeans` | internal/forge/api/kliq_management.go:236-273 | Ready for approval exactly when named, attributed, committed, with every digest, the other gates passed, and at least one signed output and only complete ones |
| `Gates.RuntimeProvenanceIff` | internal/forge/api/kliq_management.go:670-697 | The gate passes exactly when every binding and action is listed under its own identifier with nothing missing and every action's binding is listed |
| `Gates.SignedAdaptersIff` | internal/forge/api/kliq_management.go:650-668 | The gate passes exactly when every listed adapter has a digest, a protocol and a complete signed manifest, the same as the signed output of that name if there is one |
| `Gates.InApprovedBuildIff` | internal/forge/api/kliq_management.go:790-820 | Which artifacts are in an approved build, for every manifest: signed adapter manifests, the signed output of the type, and a plain output only where that type is not signed |
| `Gates.GrantsAreSound` | internal/forge/compiler/compiler.go:612-656 | Every grant names everything, belongs to a catalog binding that serves its capability in the stage, carries the digest of a manifest that implements the capability for its action, and has the identifier and action digest of exactly these parts |
| `Gates.CompiledProvenanceIff` | internal/forge/api/kliq_management.go:670-697 | A compiled manifest passes the runtime-provenance gate exactly when every action has a name whose grant is the last with its identifier, so always when all actions have names |
| `Gates.CompiledCoherent` | internal/forge/compiler/compiler.go:955-1102 | The parts of a compiled manifest agree: each action's adapter is listed with the digest the action names, and its binding is the catalog's one for its adapter and capability |
| `Gates.ApprovedIff` | internal/forge/api/kliq_management.go:790-820 | With signing on, an artifact is found in the approved build of a compiled manifest exactly when it names a used adapter's signed manifest or the signed output of its type: an unsigned copy is never approved |
| `Gates.ActionDigestPins` | internal/forge/compiler/compiler.go:658-674 | For an encoding that loses nothing, two grants of a policy with one action digest agree in adapter, capability, action, binding digest and manifest digest, or their two texts collide |
| `Gates.CompiledPairPasses` | internal/forge/api/kliq_management.go:822-855 | Requesting the runtime bundle with all used adapters' signed manifests passes the pair check |
| `Gates.RequestCommitsIff` | internal/kliq/actionstate/sqlite.go:452-538 | Complete and storable artifacts of a request are activated exactly when the request names no artifact type twice |
| `Gates.ActivatableIff` | internal/forge/api/kliq_management.go:639-645 | Some request for the runtime bundle passes the approved-build and pair checks and can be activated exactly when the bundle can be requested at all and one reference stands for the signed manifests of all adapters the actions use, if any |
| `Gates.CompiledActivatableIff` | internal/kliq/actionstate/sqlite.go:253-261 | A compiled and signed build whose actions all use one adapter can be activated by such a request, and no other can, unless the signed manifests of two used adapters have different texts and one digest; whatever addresses the artifact store gives |
| `Gates.TwoAdapterBuild` | internal/forge/compiler/compiler.go:570-656 | A catalog, policy and manifests that compile, whenever their two grant identifiers differ, to a build that no request Forge lets through can activate with its runtime bundle, with the same exception |

## Left out

- HTTP handlers, gRPC, TLS, authorisation, flags, logging, status views and heartbeats: plumbing around one-branch checks.
- SHA-256, Ed25519, base64, PEM, JSON, YAML and CEL: functions given to the model. The JSON text of a signing header is taken to determine the header.
- The SQL engine: migrations, I/O failures and rows written by older schema versions (pending audit rows with blank digests) do not occur; a statement succeeds or is refused by a declared constraint.
- Real concurrency: methods and transactions are atomic steps in some order.
- Protocol.RunKeepsInv: the checks of each artifact payload by the KLIQ's manager (internal/kliq/runtime/manager.go:212-485) are one verdict that may refuse but not alter; an envelope that Forge's store refuses is taken not to leave Forge; one clock reading serves the verification of an assignment; what Forge's key signs beside assignments decodes to no assignment with an identifier, as approved build manifests and artifacts do.
- Protocol.LoadManagedBundle: the source starts with nothing active while the store has no state for its KLIQ, as a new source does.
- ManagedSource.VerifyAssignedArtifacts: the clock stands still during one call.
- ForgeStores.SameAnswers: registered KLIQs, payloads that decode, distinct (type, id) artifacts and real revocation instants, outside which the two stores differ; the lemmas beside it say where.
- AuditChain.LinearIff: callers leave previous_hash and record_hash to the store and use fields without NUL bytes, as the daemon does.
- AuditFlush.FlushAuditSpool: the early return when marking a row as uploaded fails, which needs a failing database.
- AuditFlush.RunKeepsInv: new records arrive pending and without attempts, and the clock does not go back between the due test and the upload of one record.
- Resp.CommandRoundTrip: argument counts and lengths fit a 64-bit int; the limits of memory allocation are not modelled.
- Schema.ValidateSchemaValue: numbers are reals, and enum values are equal when their trees are, whatever number types the decoder used.
- Baseline.ComputeEstimate: reals instead of floating point, so no rounding and no NaN.
- LocalRisk.EvaluateDeviation: for the local recipe only; the durations and numbers in its text fields are constants here.
- LocalRisk.TierForScore: the threshold pattern is modelled for ASCII digits and white space.
- Promotion.BaselineStore.SaveBaselineVersion: of the statistics saved beside a version only the refusal of an unnamed metric is modelled.
- Tokens.UsedOnceInTime: for runs with new identifiers and digests and real instants; `Tokens.CreateAgreesIff` says exactly when a creation breaks the agreement of the tables. The Postgres token table, registrations and their revocation are not modelled: re-registering overwrites a revoked KLIQ in memory and fails in Postgres.
- Jwks.RefreshingJwks.Refresh: the periodic refresh and its interval from Cache-Control; decoding a modulus and an exponent is one given outcome per key.
- Compiler.CompileOne: parsing, resolution, coverage, simulation and validation reports, and file output; the manifest fields that no gate reads.
- Gates.ApprovedIff: the artifact store gives addresses without blanks around them, as both stores do.
- Gates.CompiledActivatableIff: fetching a requested reference from the store and verifying what it holds (internal/forge/api/kliq_management.go:928-970) is not modelled; texts of envelopes and artifacts are taken to lose nothing.
- Baseline learning windows, the journal and runtime decisions, credentials, the job queue, the artifact stores, bindings lookup and CI validation: flat checks or plain map updates that would only add easy members.
- The audit events that Forge's stores append beside each change: one more row per call, with no effect on later calls.
