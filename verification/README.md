# A verified model of the keyobject aws-kms provider

The provider lets OpenSSL, and Node.js through it, use private keys that never leave AWS KMS.  This project
models the parts of it where mistakes would be hard to see: code that several threads or isolates run at
once, text scanners with quoting rules, objects that are shared by reference counts, and the decision
whether a request may go out to KMS at all.  `dafny verify dfyconfig.toml` checks the whole project.

| file | what it models |
|---|---|
| `Rendezvous.dfy`, `RendezvousOutcome.dfy`, `PrivateFile.dfy`, `PrivateFileOutcome.dfy`, `Runtime.dfy` | Worker isolates agree on one private directory and publish one file in it, one system call a step; any call may fail, any isolate may stop anywhere |
| `ClientKey.dfy`, `LruCache.dfy`, `ClientCache.dfy`, `Holders.dfy`, `ClientSharing.dfy` | the process-wide cache of KMS clients: how settings become a key, the list and map on the heap, their meaning as a sequence, and many threads using it |
| `PropertyQuery.dfy`, `PropertyGrammar.dfy`, `PropertyScanner.dfy`, `Registration.dfy` | OpenSSL property queries: the two quote-aware scanners, the laws they obey, the grammars they recognise, and the registration that changes the default query and rolls back |
| `Uri.dfy`, `UriParser.dfy` | the attribute layer of aws-kms URIs |
| `KeySpec.dfy`, `PublicKey.dfy` | the table of key specs, the checks on a public key, the ML-DSA framing |
| `Signature.dfy`, `SignatureParams.dfy`, `SignatureRuns.dfy`, `SignatureStream.dfy`, `SignatureSettings.dfy`, `SignatureContext.dfy` | signature contexts: what each operation means, what holds over every run, that requests are what the caller asked for, and the code on the heap |
| `KeyManagement.dfy`, `KeyLifetime.dfy`, `KeyStore.dfy` | keys shared by store loaders, key handles and signature contexts: reference counts, duplicates, FIPS provenance |
| `Provider.dfy` | keys and signatures in one machine: an operation binds the key of a live handle, holds a reference to it and reads it anew each time |
| `NodeOptions.dfy`, `NodeOptionsGrammar.dfy` | reading and rewriting NODE_OPTIONS |
| `WorkerPool.dfy`, `Teardown.dfy`, `TeardownOutcome.dfy` | the bounded pool of asynchronous workers and the cleanup of real KMS keys built on it |

Concurrency is modelled by machines: a state, events, a function `Step`, and lemmas by induction over runs.
Code that updates objects or arrays in place is a class or a method with loops, proved against functions on
values; the properties are then proved of those functions.  Answers from outside (system calls, libcrypto,
the AWS SDK, KMS, clocks) are parameters that may take any value the interface allows.

## Assumptions

- `mkdtemp` never makes a name twice, a mask leaves the owner's permission bits alone, nobody outside the
  package writes into its private directory, and time only goes forward.  A wait of 5 ms takes at least that and
  blocks only the isolate that waits.
- A comparison of SHA-256 digests together with lengths is taken as a comparison of the contents.
- The atomic addition in `awskms_key_free` succeeds (src/key.c:29).
- A call that fails has changed nothing.  A finalised digest context refuses further updates and
  finalisations, which is libcrypto's own rule.
- The hash functions are any functions with outputs of the right size.

## What the proofs found

- A wait for another isolate's file may begin after the deadline, because the clock is read before the file is
  inspected; that wait is the last one (`PrivateFile.OneWaitMayBeginLate`; exactly when in
  `PrivateFile.DeadlineStopsWaiting`).
- A provider profile that is present but empty shares a cache key with no provider profile at all, although the
  two build different credential chains (`ClientKey.EmptyProfileCollides`; exactly when in
  `ClientKey.SameKeySamePlan`).
- The comment at src/napi.c:133 calls a leading `-` a conflict; the code accepts `?-keyobject.aws_kms!=yes` as the
  guard (`PropertyQuery.DashedGuardIsAccepted`).  The model follows the code.
- Behind a quote left open, as in `fips='yes`, the appended guard is swallowed by the last clause, which then asks
  for nothing (`PropertyQuery.OpenQuoteAsks`; exactly when in `PropertyQuery.GuardTakesHold` and
  `PropertyQuery.GuardKeepsFips`).  The FIPS scanner reads the text of a caller (src/provider.c:114-117), where a quote
  can be open; the guard is appended to the text `EVP_get1_default_properties` prints (src/napi.c:262), and whether
  that ever has an open quote is libcrypto's matter and not part of this model.
- Between initialisation and finalisation the digest parameter can be changed.  The length check catches it for
  every digest KMS knows, but a digest KMS does not know of the same length is then sent under the wrong name
  (`SignatureStream.ChangedDigestSlipsIn`; exactly when in `SignatureStream.StreamingRefinesOneShot`).
- Store parameters that ask for FIPS after the key was loaded leave every context that is bound to that key, before the
  demand or at any time after it, with a public view that was not parsed under FIPS
  (`KeyLifetime.LateDemandIsReachable`, `KeyLifetime.LateDemandIsForever`; exactly when, over all runs, in
  `KeyLifetime.ViewsFailExactly` and `Provider.OperationsSeeFipsViews`).
- A re-initialisation that fails at the name of the digest has bound the new key but kept the old running digest, so
  finalising signs the old data under the new key (`SignatureStream.OldStreamUnderNewKey`).
- Control characters and empty arguments do not survive the JSON printing of NODE_OPTIONS
  (`NodeOptions.ParseUndoesPrint`).

## Model

| member | source | states |
|---|---|---|
| PrivateFile.ReturnsAgree | npm/core/index.js:439-508 | in every interleaving, with failures and stops anywhere, all `writePrivateFile` calls that return for one path have seen one and the same inode, with the final mode, one link and exactly the bytes each asked for |
| PrivateFile.PublishedForever | npm/core/index.js:489-506 | once a file has its final mode, no later step of any isolate removes, replaces or changes it |
| PrivateFile.UnlinkHitsOwnFile | npm/core/index.js:501-503 | the unlink of a failed creator only ever removes the file that creator made and has not published |
| PrivateFile.SnapshotIsComplete | npm/core/index.js:416-434 | whatever a validating reader accepts is a complete published file; partly written bytes are never accepted |
| PrivateFile.WaitingIsBounded | npm/core/index.js:436-492 | one call polls at most 1000 times over all its create and await rounds, because they share one deadline |
| PrivateFile.DeadlineStopsWaiting | npm/core/index.js:444-485 | after its deadline a call goes through no further wait over any create and await rounds, and through one exactly if it is waiting already, or its deadline passed between check and lstat and that lstat finds the file in progress |
| PrivateFile.WaitsOverlap | npm/core/index.js:458 | two isolates that begin to wait together are both through after one interval |
| PrivateFile.OneWaitMayBeginLate | npm/core/index.js:444-458 | a concrete run in which a wait begins after the deadline |
| PrivateFileOutcome.ThrowsExactly | npm/core/index.js:436-526 | a call whose own system calls do not fail throws exactly if one of its checks comes at its deadline or later, or the file published under its path has other bytes or another mode; if it returns, that file has what it asked for |
| PrivateFileOutcome.UnfailingIsolateReturns | npm/core/index.js:436-507 | it returns after a bounded number of its own calls: once it has created the file; or, while its checks are in time, from anywhere if the path names a published file with what it asks for, or is free and nobody else creates it |
| PrivateFileOutcome.OwnershipEndsCleanly | npm/core/index.js:489-505 | a creator publishes its file or frees the name again, unless the unlink itself fails |
| PrivateFileOutcome.FailedCreatorThrows | npm/core/index.js:496-506 | a failed creation is over after two more calls, whether they fail or not |
| PrivateFile.StepKeepsInv | npm/core/index.js:416-526 | every system call of every isolate keeps the invariant of files, owners, readers, clocks and receipts |
| Rendezvous.ReturnsAgree | npm/core/index.js:299-414 | every isolate that returns from `privateTempDirectory` holds the same directory |
| Rendezvous.OneLink | npm/core/index.js:355-358 | over all interleavings at most one link succeeds |
| Rendezvous.MarkerForever | npm/core/index.js:299-377 | a marker that exists never changes and is never replaced |
| Rendezvous.LinkPublishesWholeMarker | npm/core/index.js:345-358 | the marker is complete and read-only from the moment it is visible, and names an existing directory |
| Rendezvous.LosersRemoveOwnCandidate | npm/core/index.js:362-372 | cleanup removes only the isolate's own candidate, never the marked directory |
| Rendezvous.StaleMarkerFails | npm/core/index.js:299-333 | a marker whose directory is missing lets nobody return and is never replaced by a new one |
| Rendezvous.UnfailingIsolateReturns | npm/core/index.js:335-414 | unless the marker is stale, an isolate whose own calls do not fail returns after a bounded number of them |
| RendezvousOutcome.CandidatesAreCleanedUp | npm/core/index.js:335-377 | an isolate that stops having a candidate has linked it or removed it, unless the rmdir failed or its `.publish` file could not be unlinked |
| RendezvousOutcome.FailureIsCaught | npm/core/index.js:360-377 | any call of the publisher that fails leads into the cleanup, which remembers exactly whether the name was taken |
| RendezvousOutcome.FailedPublisherThrows | npm/core/index.js:360-377 | a publisher that failed for another reason throws within three more calls |
| RendezvousOutcome.StaleIsolateThrows | npm/core/index.js:379-401 | with a stale marker an isolate whose own calls do not fail publishes once, loses, and throws within a bounded number of calls |
| RendezvousOutcome.KnownDirectoryIsKept | npm/core/index.js:403-414 | an isolate that has found a directory keeps to it: it never makes another candidate and never takes another directory |
| RendezvousOutcome.ReturnedIsOnRecord | npm/core/index.js:403-414 | whoever returns holds a directory that was handed out, so agreement holds of all returns |
| Rendezvous.StepKeepsInv | npm/core/index.js:241-414 | every step keeps the invariant of file system, candidates, readers and remembered directories |
| Runtime.OneFilePerName | npm/core/index.js:403-508 | the two protocols together: all isolates of the process that publish under one name return the same file in the same directory |
| ClientKey.ResolveSettings | src/kms_aws.cc:241-301 | the settings resolved by overwriting locals are the first ones set in the documented order, or the FIPS refusal |
| ClientKey.SettingsInOrder | src/kms_aws.cc:247-301 | the profile, region and endpoint are those of the first source that has one, in the documented order: URI, environment, profile section, provider, SDK; under FIPS any endpoint is refused, then any China region |
| ClientKey.CredentialsInOrder | src/kms_aws.cc:91-119 | credentials are tried in the order URI profile, ordinary chain, provider profile unless it is a repeat; the rest of the client is its key |
| ClientKey.SameKeySamePlan | src/kms_aws.cc:69-123 | of two calls with one cache key, both would build the same client exactly unless a missing and an empty provider profile meet |
| ClientKey.HitEqualsFreshBuild | src/kms_aws.cc:306-326 | with a provider profile that is NULL or not empty, a cache hit equals a fresh build: region, endpoint, FIPS flag and ordered credential chain |
| ClientKey.EmptyProfileCollides | src/kms_aws.cc:113-121 | a concrete pair of calls that share an entry and would build different chains |
| ClientKey.FipsKeysAreRouted | src/kms_aws.cc:288-301 | a FIPS request is refused exactly for an endpoint override or a China region, so no FIPS key has either |
| LruCache.OperationsKeepWellFormed | src/kms_aws.cc:193-239 | lookup and publish keep the cache at most 64 long without repeated keys; every other key keeps its client, except the least recent one of a full cache |
| LruCache.PublishReturnsResident | src/kms_aws.cc:209-239 | publish returns the client that is resident afterwards; a second publisher gets the first one's |
| LruCache.CacheHoldsMostRecent | src/kms_aws.cc:193-239 | after any history the cache holds exactly the 64 most recently used keys, in order of use |
| ClientCache.LruList.PushFront | src/kms_aws.cc:232-233 | pushing in front on doubly linked nodes |
| ClientCache.LruList.PopBack | src/kms_aws.cc:229 | the last node goes, all other links stay right |
| ClientCache.LruList.SpliceFront | src/kms_aws.cc:193-198 | splicing a node to the front keeps the order of the rest |
| ClientCache.ProcessState.FindAndTouch | src/kms_aws.cc:200-207 | a hit moves the key's own node to the front and refines the sequence lookup; stored iterators stay right |
| ClientCache.ProcessState.CachedClient | src/kms_aws.cc:200-207 | the map with the list refines lookup on the sequence |
| ClientCache.ProcessState.PublishClient | src/kms_aws.cc:209-239 | the map with the list refines publish on the sequence |
| ClientCache.ProcessState.EvictOldest | src/kms_aws.cc:223-230 | the lookup of the oldest key never misses, so list and map shrink together |
| ClientCache.SizesAgree | src/kms_aws.cc:223 | the size of the map is the length of the list |
| ClientSharing.ClientsOutliveCallers | src/kms_aws.cc:209-239 | in every interleaving a client is destroyed only when neither the cache nor any caller holds it |
| ClientSharing.CallersGetWhatTheyAskedFor | src/kms_aws.cc:306-326 | whatever client a caller ends up with was built from settings with the caller's key |
| ClientSharing.HitsBuildNothing | src/kms_aws.cc:200-207 | a call uses the resident client of its key without building another, has to build if there is none, or is refused and changes nothing |
| ClientSharing.CallersGoOn | src/kms_aws.cc:209-327 | a built client is its caller's own, an evicted one and at last one's own are given up, a failed construction leaves nothing |
| ClientSharing.FirstPublisherWins | src/kms_aws.cc:209-239 | the first to publish makes its client resident; a later one uses the resident client and gives up its own |
| ClientSharing.CacheStaysBoundedAndRouted | src/kms_aws.cc:209-327 | in every interleaving the cache is bounded, the LRU of its history, and no FIPS entry has an override or a China region |
| ClientSharing.StepKeepsInv | src/kms_aws.cc:193-327 | every action of every thread keeps use counts equal to the holders |
| PropertyQuery.QueriesCompose | src/napi.c:116-182 | behind closed quotes the marker state of a joined query is the combination of both, and so is the FIPS answer |
| PropertyQuery.GuardTakesHold | src/napi.c:184-198 | appending the guard to a query without the marker gives exactly the guard, if and only if every quote is closed |
| PropertyQuery.GuardKeepsFips | src/provider.c:52-112 | appending the guard changes the FIPS answer exactly if only a last clause left open by a quote asks for FIPS |
| PropertyQuery.OpenQuoteAsks | src/provider.c:83-101 | a concrete query that asks for FIPS with its quote left open, stops asking once the guard is appended, and is not guarded then |
| PropertyQuery.GuardGrammar | src/napi.c:111-153 | the clauses taken for the guard are exactly `?`, an optional dash, the name, `!=`, `yes`, letters in either case, blanks anywhere between |
| PropertyGrammar.NamedGrammar | src/napi.c:116-153 | the clauses that name the reserved property, as the guard or in conflict, are exactly an optional `?`, an optional dash and the whole name in either case |
| PropertyGrammar.FipsGrammar | src/provider.c:62-101 | the clauses that ask for FIPS are exactly an optional `?`, `fips`, `=` and `yes`, bare or in one kind of quote whose closing one may be missing, letters in either case, blanks anywhere between |
| PropertyGrammar.ClausesExactly | src/provider.c:52-112 | any query is cut at the commas outside quotes, a quote ending at the next of its kind |
| PropertyQuery.DashedGuardIsAccepted | src/napi.c:133-134 | a guard with a dash is accepted, contrary to its comment |
| PropertyScanner.MarkerClause | src/napi.c:116-153 | the pointer loops compute the clause state |
| PropertyScanner.ComputeMarkerState | src/napi.c:159-182 | the quote-aware loop computes the folded state, the early return included |
| PropertyScanner.FipsClause | src/provider.c:62-99 | the pointer loops decide one clause, quoted values included |
| PropertyScanner.PropqRequestsFips | src/provider.c:52-112 | the loop answers whether some clause outside quotes asks for FIPS |
| PropertyScanner.AppendDefaultProperty | src/napi.c:184-198 | the buffer holds the old query, a comma if needed, the guard and a terminator; the size test cannot overflow |
| Registration.MergedIsGuardedOnce | src/napi.c:268-287 | the merged query has exactly one guard clause, no conflict, and the FIPS answer of the original |
| Registration.MergeIsIdempotent | src/napi.c:268-287 | merging twice is merging once, exactly when the guard is there or no quote is open |
| Registration.FailureIsFirst | src/napi.c:245-325 | the error is that of the first step that goes wrong, in the order getter, conflict, memory, provider, query, load; with its own if the query cannot be put back |
| Registration.NoFailureOtherwise | src/napi.c:245-325 | without such a step there is no error |
| Registration.Process.Register | src/napi.c:245-325 | every path ends with success and the merged query, or the original query and the first failure, or the report that it could not be restored; the provider is added only if it is not active, and becomes active only by loading |
| Registration.Process.RegisterModule | src/napi.c:327-339 | registration runs once; later calls change nothing and report the first result |
| Uri.DecodesSpellings | src/uri.c:38-63 | decoding accepts exactly the percent spellings of a text, in either case, without NUL |
| Uri.HexExactly | src/uri.c:27-32 | the hexadecimal digits in either case have their values, and nothing else has one |
| Uri.DecodedIsCString | src/uri.c:34-63 | a decoded value has no NUL and is no longer than its encoding |
| Uri.AcceptedExactly | src/uri.c:215-289 | a URI is accepted exactly if its segments, query, key id and region are as documented |
| Uri.ConflictExactly | src/uri.c:263-281 | the reason of its own for a region that contradicts the key ARN is given exactly if nothing else is wrong with the URI |
| Uri.FieldsAreGiven | src/uri.c:255-280 | on success the fields are the decoded values, with the region of a key ARN filled in |
| Uri.ParseUndoesPrint | src/uri.c:66-118 | percent-encode at least `%` and `;`, join in either order with stray semicolons, and the same key id and region come back |
| Uri.RegionOfArn | src/uri.c:137-159 | the region is found in every KMS ARN of colon-free fields |
| Uri.OnlyArnsHaveRegions | src/uri.c:144-159 | and in nothing else |
| UriParser.DecodeRange | src/uri.c:38-63 | the write index never leaves the buffer, and the result is the decoding |
| UriParser.RegionOf | src/uri.c:144-159 | the four field starts give the region |
| UriParser.AwskmsUri.ParseItem | src/uri.c:80-116 | one item fills its slot or reports the first error |
| UriParser.AwskmsUri.ParsePathAttributes | src/uri.c:66-118 | the pointer loop over the path |
| UriParser.CheckQueryKeys | src/uri.c:223-248 | unknown and repeated query names are refused |
| UriParser.AwskmsUri.ParseUri | src/uri.c:161-290 | all four fields on success, all four null on any failure |
| KeySpec.ByName | src/keyspec.c:54-59 | the row with the name, or none has it |
| KeySpec.AlgorithmMatches | src/keyspec.c:99-138 | the algorithm is the one KMS documents for family, message type, digest and padding, and there is one exactly if KMS can sign |
| KeySpec.RowsByName | src/keyspec.c:17-52 | the family, the digest and the signature length of each key spec AWS documents |
| KeySpec.TableFacts | src/keyspec.c:17-52 | message type, curve, digest and fixed lengths of every row are consistent |
| PublicKey.AcceptsExactly | src/spki.c:103-188 | what is taken for a key of a spec: all of the DER decodes to the kind of key, of the size, on the curve or with the length AWS documents for that spec |
| PublicKey.ParsedKeeps | src/spki.c:150-188 | the DER, the spec and the provenance are kept; Ed25519 and ML-DSA keep the raw public value, and tr is its hash |
| PublicKey.PublicView.FromSpki | src/spki.c:103-188 | succeeds exactly for a known spec and an input that matches it; the view has the provenance asked for; any failure leaves it empty |
| PublicKey.PublicView.Dup | src/spki.c:190-216 | copies the whole view or nothing |
| PublicKey.ReparseIsSameKey | src/signature.c:463-473 | reparsing the retained bytes under FIPS gives a view of the same key |
| PublicKey.Mu | src/spki.c:218-264 | the pieces fed one by one are hashed as tr, then M' of FIPS 204, refused for contexts over 255 bytes |
| PublicKey.FramedLayout | src/spki.c:239-251 | where tr, the separator, the length, the context and the message stand in what is hashed |
| PublicKey.FramingIsInjective | src/spki.c:239-251 | no two pairs of context and message are hashed as the same string |
| SignatureParams.DecimalRoundTrip | src/signature.c:211-228 | every integer reads back if it fits an int, and is refused if not |
| SignatureParams.SaltPolicy | src/signature.c:158-181 | a salt length can be honoured exactly if it demands nothing or names the digest length |
| SignatureParams.ParamsTakeEffect | src/signature.c:274-407 | accepted parameters all take effect and change nothing else |
| SignatureParams.FailureAppliesFront | src/signature.c:274-407 | a call succeeds exactly if every parameter given can be taken; a failed one leaves the context as a successful call with only the parameters in front of the first refused one would |
| SignatureParams.BindTakesEffect | src/signature.c:456-486 | binding sets the key and, if its policy is laxer than the context's, the view parsed again, nothing else; and exactly when it succeeds |
| SignatureParams.InitsExactly | src/signature.c:654-758 | exactly when an initialisation succeeds: key, parameters, and a digest with fixed length at the end, or none named |
| SignatureParams.SizesExactly | src/signature.c:488-511 | the size of a signature is fixed for Ed25519 and ML-DSA, else that of the view of the operation |
| SignatureParams.InitsTakeEffect | src/signature.c:654-758 | a successful initialisation has the key asked for, an empty running digest of the named kind, or no digest at all for one-shot keys |
| SignatureParams.SignsExactly | src/signature.c:531-597 | exactly when a digest is sent to KMS, with which bytes, and how the answer is used |
| SignatureParams.OneshotSignsExactly | src/signature.c:835-917 | the same for Ed25519 (1 to 4096 bytes, as they are) and ML-DSA (the 64 bytes of mu) |
| SignatureRuns.ProbesAreFree | src/signature.c:500-511 | size probes and short buffers make no request, leave the context alone and report the size |
| SignatureRuns.ApplyKeepsOk | src/signature.c:456-917 | every operation keeps the context sound and any request it makes is valid |
| SignatureRuns.EveryRequestIsValid | src/signature.c:531-917 | in every run of operations on any contexts, with keys whose spec is in the table and whose tr is 64 bytes, each logged request has the right type, algorithm, length, buffer, salt, context and instance |
| SignatureRuns.OperationsSeeFipsView | src/signature.c:187-196 | in every reachable context with a key an operation has a public view; one that requires FIPS has it under FIPS exactly if it was parsed again for this context or the key's own view was parsed so |
| SignatureStream.StreamingRefinesOneShot | src/signature.c:654-703 | finalising asks for exactly what signing the hash of all fed data would, also after a re-initialisation that failed and left the running digest alone; the digest named is the one chosen at the start, exactly unless KMS does not know that one |
| SignatureStream.FailedInitKeepsStream | src/signature.c:654-674 | a failed initialisation leaves the old stream in place exactly if it fails before the digest context is made anew |
| SignatureStream.OldStreamUnderNewKey | src/signature.c:654-703 | one that fails at the name of the digest has bound the new key: finalising signs the old data under it |
| SignatureStream.ChunksAddUp | src/signature.c:676-682 | feeding chunks is feeding their concatenation, however it is cut |
| SignatureStream.StreamIsSignedOnce | src/signature.c:684-703 | over any run in which a context is not initialised again, finalising it makes at most one request, and none if its stream was finalised before |
| SignatureStream.VerifiedSignsNoMore | src/signature.c:684-735 | a verification finalises the stream too: the context makes no request by finalising until it is initialised again |
| SignatureStream.CopySignsOnceMore | src/signature.c:142-148 | a duplicate holds the stream too: finalising original and copy makes the same request twice |
| SignatureStream.ChangedDigestSlipsIn | src/signature.c:552-580 | the run in which a changed digest parameter is not noticed |
| SignatureSettings.DecimalGrammar | src/signature.c:211-228 | the texts that name a salt length are exactly its decimal spellings: a sign or none, zeros in front, the digits |
| SignatureSettings.RequestsAreAsAsked | src/signature.c:274-407 | over every run: PSS goes out exactly if RSA_PKCS1_PSS_PADDING or "pss" was accepted last, with a salt left open or of the digest's length; else PKCS#1; the digest is the one chosen last; no context or instance KMS cannot take |
| SignatureSettings.SignsWhatIsAsked | src/signature.c:531-597 | over every run, exactly when signing a digest makes a request, in terms of the values asked for |
| SignatureContext.AwskmsKey.UpRef | src/key.c:18-23 | one more reference, or none |
| SignatureContext.AwskmsKey.Free | src/key.c:25-36 | one less; the contents go with the last one and only then |
| SignatureContext.ParseDecimalInt | src/signature.c:211-228 | the digit loop and the range test |
| SignatureContext.SigCtx.Bind | src/signature.c:456-486 | takes before it gives up, so rebinding never drops the key; a failure changes nothing |
| SignatureContext.SigCtx.SetCtxParams | src/signature.c:274-407 | the parameters applied in order, stopping at the first failure |
| SignatureContext.SigCtx.InitDigestSign | src/signature.c:654-674 | the running digest starts anew only at the end; the key is bound, with its counts, exactly if binding goes well, whatever fails after it |
| SignatureContext.SigCtx.InitOneshot | src/signature.c:737-758 | refuses a digest, an unsupported instance or context; the key is bound, with its counts, exactly if binding goes well |
| SignatureContext.SigCtx.ProduceSignature | src/signature.c:531-597 | the one place that signs a digest, with its log of requests |
| SignatureContext.SigCtx.Update | src/signature.c:676-682 | appends to the running digest |
| SignatureContext.SigCtx.Final | src/signature.c:684-703 | sizes are answered before the digest is finalised |
| SignatureContext.SigCtx.SignOneshot | src/signature.c:835-917 | message or mu, with its log of requests |
| SignatureContext.SigCtx.Duplicate | src/signature.c:114-154 | a copy with its own reference, the running digest included, or none |
| SignatureContext.SigCtx.Release | src/signature.c:103-112 | gives back the reference |
| KeyManagement.DuplicatesExactly | src/keymgmt.c:177-245 | which duplicate there is for which selection: the key itself, a copy of the public view, domain parameters, the spec alone, or none |
| KeyManagement.DuplicatesAreFaithful | src/keymgmt.c:177-245 | a duplicate that can sign is the same key; policy, spec and provenance carry over; the parts asked for are there |
| KeyLifetime.ReferencesAreConserved | src/key.c:5-36 | over every run the count of a key is the number of its holders and it is released exactly when there are none |
| KeyLifetime.NoReleasedKeyIsTouched | src/signature.c:103-154 | no operation works on a released key |
| KeyLifetime.HoldersExactly | src/store.c:44-85 | who holds a key after opening, freeing, duplicating a context and setting store parameters, and that a policy only becomes stricter |
| KeyLifetime.LoadExactly | src/store.c:137-169 | a store gives out its key once, exactly to a caller that expects a key, when the public half is there or can be had |
| KeyLifetime.DupGivesHandle | src/keymgmt.c:227-245 | a duplicate is a handle of the same key, of a new key, or none, as the duplication rules say |
| KeyLifetime.BindExactly | src/signature.c:456-486 | a context holds the new key exactly if the reference is had and the view, where it is needed, can be parsed again |
| KeyLifetime.RebindKeepsKey | src/signature.c:475-478 | rebinding to the key already held changes no count |
| KeyLifetime.FailedBindChangesNothing | src/signature.c:482-485 | a failed binding changes nothing |
| KeyLifetime.StepConserves | src/store.c:44-108 | every event keeps counts equal to holders |
| KeyLifetime.FipsProvenance | src/store.c:50-108 | if FIPS is asked for before the load, every operation that requires FIPS has a view parsed under FIPS, across loads, duplicates and bindings |
| KeyLifetime.StepKeepsLate | src/store.c:50-64 | after every event, the keys whose view is laxer than their policy are exactly those hit by a late demand and the whole copies of such keys |
| KeyLifetime.ViewsFailExactly | src/store.c:50-64 | over every run, the view of a context is right exactly unless the context is bound, whenever that was, to a key hit by a demand for FIPS after its load or to a whole copy of one |
| KeyLifetime.LateDemandIsForever | src/store.c:60-61 | after one late demand, whatever follows, any context then bound to that key has a wrong view |
| KeyLifetime.LateDemandIsReachable | src/store.c:60-61 | from the empty world: open, load, bind, and one late demand leaves a context with a view that was not parsed under FIPS |
| KeyStore.FipsRequested | src/provider.c:114-117 | the process default or the local query |
| KeyStore.Open | src/store.c:66-85 | a key with one reference, seeded with the default policy, or nothing |
| KeyStore.StoreCtx.SetCtxParams | src/store.c:123-135 | no array changes nothing; otherwise the policy of the key only becomes stricter, by the default or the local query |
| KeyStore.StoreCtx.LoadKey | src/store.c:87-108 | the public half is fetched and checked once |
| KeyStore.StoreCtx.Load | src/store.c:137-169 | the key is emitted at most once, only to a caller that expects a key, and the handle has its own reference |
| KeyStore.StoreCtx.Close | src/store.c:44-48 | the loader gives back its own reference |
| KeyStore.LoadReference | src/keymgmt.c:49-56 | the handle is the key itself with one more reference |
| KeyStore.Dup | src/keymgmt.c:227-245 | the duplication rules, with all counts; a duplicate of a sound key is sound |
| Provider.HandlesAreSound | src/store.c:137-169 | after every run the key of every live handle is alive, has a spec of the table and a tr of 64 bytes, if any |
| Provider.RequestsAreValid | src/signature.c:456-917 | over every run of stores, handles, duplicates and signature contexts, with nothing assumed of the keys, each request that reaches KMS is one it can honour as asked |
| Provider.OperationsUseLiveKeys | src/signature.c:456-597 | in every reachable state a request names a key that is alive, counts the reference of its context, and has the FIPS flag that key and context have by now |
| Provider.OperationsSeeFipsViews | src/signature.c:187-196 | over every such run an operation that requires FIPS has a view parsed under FIPS, exactly unless its key was hit by a demand for FIPS after its load or is a whole copy of such a key |
| NodeOptions.ParseNodeOptions | npm/core/bin/awskms.js:79-109 | the character loop computes the parse |
| NodeOptionsGrammar.ParseExactly | npm/core/bin/awskms.js:79-109 | the arguments are exactly those a text can be read as, token by token: white space, bare, escaped, single and double quoted; there are none exactly if a quote stays open |
| NodeOptions.PrintedAlwaysParses | npm/core/bin/awskms.js:123-127 | whatever is printed parses; empty arguments vanish, control characters come back as their names |
| NodeOptionsGrammar.PrintedIsJson | npm/core/bin/awskms.js:123-127 | each printed argument is a JSON string for that argument, control characters included |
| NodeOptions.ParseUndoesPrint | npm/core/bin/awskms.js:79-127 | parsing undoes printing exactly for arguments that are not empty and hold no control character |
| NodeOptions.WithoutOpenSSLConfig | npm/core/bin/awskms.js:111-121 | the index loop removes each option with its value |
| NodeOptions.WithoutKeepsTheRest | npm/core/bin/awskms.js:111-121 | what is kept is every argument that is neither the option, nor the value behind a bare one, nor joined, in order and with repetitions |
| NodeOptions.WithoutHasNone | npm/core/bin/awskms.js:51-54 | nothing of the option is left, nothing else changes |
| NodeOptions.NodeOptionsWithConfig | npm/core/bin/awskms.js:123-127 | the rewritten value, or the unmatched quote |
| NodeOptions.RewriteParses | npm/core/bin/awskms.js:111-127 | the rewritten value parses to the old arguments not taken by the option plus exactly one at the end, exactly without control characters |
| NodeOptions.RewriteIsStable | npm/core/bin/awskms.js:111-127 | rewriting again retains the same arguments |
| WorkerPool.MapLimitIsSound | scripts/real-kms-keys.mjs:122-137 | items are claimed in order, each once; at most min(limit, n) calls in flight; results keep their positions; all are there at the end |
| Teardown.CollectTargets | scripts/real-kms-keys.mjs:470-497 | the loop over manifest and sweep |
| Teardown.CollectKeepsFirst | scripts/real-kms-keys.mjs:470-497 | every id once, none missing, the first candidate wins |
| Teardown.VerifyOwnedTarget | scripts/real-kms-keys.mjs:418-454 | a key counts as ours exactly in the right account and region with all expected tags and the recorded spec |
| TeardownOutcome.OwnershipExactly | scripts/real-kms-keys.mjs:418-454 | ours means found, in the account and region, every expected tag with its value, the recorded spec; gone means not found |
| TeardownOutcome.EveryTargetIsAttempted | scripts/real-kms-keys.mjs:523-587 | at the end each target was gone in preflight, or its key went through the key phase, and its alias, if it pointed to the key, through the alias phase |
| Teardown.FailedPreflightDestroysNothing | scripts/real-kms-keys.mjs:523-542 | if any preflight check fails, the run makes no destructive call |
| Teardown.DestructionIsVerified | scripts/real-kms-keys.mjs:546-587 | every deletion and scheduling directly follows successful checks in the same task |
| Teardown.PhasesDoNotOverlap | scripts/real-kms-keys.mjs:524-587 | all alias work ends before key scheduling starts |
| Teardown.EveryVerifiedKeyIsAttempted | scripts/real-kms-keys.mjs:577-587 | at the end, every target that passed preflight is verified again and scheduled if still ours, whatever failed elsewhere |
| Teardown.SuccessMeansDone | scripts/real-kms-keys.mjs:575-595 | if no failure is counted, every key is gone or scheduled, and every alias is gone, deleted, or left as it is because its key is gone |
| Teardown.NothingStopsThePools | scripts/real-kms-keys.mjs:546-587 | behind preflight a worker that is not through can always take its next step |
| Teardown.CleanupEnds | scripts/real-kms-keys.mjs:499-596 | no run has more than 15 events for each target and three; one that cannot go on has been through all phases, exactly unless a preflight check failed |

## Left out

- WHATWG URL parsing: the pathname and the decoded query list are inputs; the scheme and fragment checks are single branches.
- Cryptography, DER decoding, SHAKE and the EVP interface: uninterpreted functions and answers.
- The AWS SDK, HTTP, credentials, retries and logging: a KMS call is one entry in a log with an answer.
- Dispatch tables, error texts, gettable and settable lists, `get_ctx_params`: no branching of their own.
- Local verification (`awskms_sig_verify`, `awskms_sig_oneshot_verify`) beyond the finalisation of its digest: it delegates to another provider.
- `awskms_keymgmt_match`, `validate`, `export`, `get_params`: predicates and delegation without state.
- `mkdir` and `chmod` of the rendezvous root: one step that may fail.
- The permission, owner and file-type tests on directories and files of other users: nobody outside the package writes there.
- Package resolution, runtime probes, rendering of openssl.cnf, process spawning, manifest validation, key setup: I/O or single checks.
- `withRetry` in the cleanup script: it only repeats a call.
- Allocation failures inside the URI parser: they end in the same cleanup as any other failure.
- A KMS signing request for a public-only duplicate, which has no key id: the request is logged with none, what the SDK then does is not part of this model.
- Lone surrogates in NODE_OPTIONS: characters are Unicode scalar values.
- Failing allocations and copies in `awskms_sig_dupctx` are one answer, not told apart.
