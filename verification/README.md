# kmp-issuer, verified

A Dafny model of the parts of kmp-issuer that decide what is issued, when, and what ends
up in a Secret: the search of schema-less Key Manager Plus (KMP) responses, the building of
certificate chains, the order of calls to KMP, the classification of errors, and the
reconcile loop of `KMPCertificate` resources over whole runs.

What the program takes from libraries is a parameter, never an assumption built in: Unicode
tables and the IP parser (`Text.Text`), certificates, signatures, PEM and key codecs
(`Certificates.Pki`), the JSON decoder, the server with its clock (`Client.Server`, one
arbitrary reply and latency per call), and the failures around one pass
(`Reconciler.Env`). The order in which Go ranges over a map is an explicit parameter
(`Documents.Ordering`): any permutation, chosen per search and per position in the document.

The few facts relied on are the `Valid` predicates of `Text` and `Pki` and
`Runs.SplitsWell`. `Model.ContractsCanBeMet` exhibits a library that has them all, and the
rest of `Model` exhibits runs in it: a whole Sign and a whole Provision, an issue followed by
rest, runs of any length that issue every time, and a lost update.

The main operations are also described in plain terms, by positions in a document, names and
signatures of certificates, field names on the wire, and entries and fields of the resource,
without the definitions the other results share: see the members named `...InPlainTerms`,
`Signer.CallOfSign` and `Signer.CallOfProvision`.

Loops and mutation in the source are methods and classes here, each proved equal to a
specification function or against its postcondition; the results over all inputs and all
runs are lemmas about those functions.

## Findings

- `findString` and `succeeded` do depend on Go's map order when one object holds several
  wanted scalars, against the comment on `sortedKeys` that repeated calls return the same
  value. `Response.FindStringOrderIndependence` and `Response.SucceededOrderIndependence`
  say exactly when they do not; `Response.TwoStatusFieldsAreAmbiguous` is the witness.
- `BuildBundle` depends on the order of the response in two ways. It takes the first
  certificate with the request's key, so two of them, as a request signed twice has, give
  two bundles (`Chain.TwoLeavesAreAmbiguous`); and it does not backtrack, so with a
  cross-signed intermediate it can miss a root that was returned
  (`Chain.GreedyChoiceCanMissTheRoot`). Over all orders the bundles are exactly the maximal
  chains of the certificates with the key (`Chain.BundlesAreTheMaximalChains`). The bundle is
  the same for every order exactly when at most one certificate can be the leaf and no
  certificate on its chain has a second issuer to choose from
  (`Chain.BundleOrderIndependence`), and ends at a root in every order exactly when no chain
  of any of those leaves comes to a dead end (`Chain.BundleEndsAtRootIffNoDeadEnd`).
- The check on issuing and the check on every later pass agree on names exactly for
  well-formed specs (`NameChecks.ChecksAgreeIffWellFormed`): DNS names trimmed, not blank
  and not IP addresses, IP addresses that parse. For every other spec some certificate is
  accepted and then replaced at the next pass.
- Organization and organizational unit are checked only on later passes. Passes that can
  do all they need issue every single time exactly when each look refuses what the pass
  before got or cannot read it (`Convergence.EveryPassIssuesIffNeverAccepted`): so with an
  authority that strips the organization (`Convergence.StrippedOrganizationNeverRests`) and
  with a `renewBefore` that reaches the lifetime (`Convergence.OverlongLeadNeverRests`).
- Entries `ca.crt` and `keystore-password` of an earlier issue survive one that has none
  (`Runs.StaleEntriesSurviveIff`, `Runs.SuppliedPasswordLeavesTheOldOne`).
- A lost status update is not repaired while the Secret stays good
  (`Convergence.StatusAfterALostUpdate`). After any run the status describes the Secret
  exactly when others wrote it last or the last issue says the same as the last one whose
  update went through (`Runs.StatusDescribesIffLastIssueRecorded`).
- Rendering the builder's error with `%v` loses its class exactly when it is permanent
  (`IssuerController.BuilderClassIsKeptIffNotPermanent`), and every failure of the builder
  the program uses is: a misconfigured issuer stops certificate requests but not the passes
  of a `KMPCertificate` (`IssuerController.MisconfigurationStopsOnlyRequests`).
- A permanent failure is given up only if it loses no status update: the error of a
  lost one takes its place and is returned (`IssuerController.FailedPassIsRetriedIff`).
- The client's refusal to look up an empty name is met, by an import that reports neither
  id nor name of a request without common name and DNS name
  (`Signer.NamelessLookupIsMetIff`). Its refusals to sign or export an empty id and to fetch
  without a name or serial number are never met (`Signer.Signer.Sign`,
  `Signer.Signer.Provision`).

## Files

| file | subject |
|---|---|
| Basics, Text | options, results, int64; trimming, folding, decimal integers |
| Documents, Response, Identifiers | JSON documents, field search, the choice of a request id |
| Certificates, Chain, Extraction, KeyExport | certificates and codecs, chains, reading responses and exports |
| Errors, Signing, Api, NameChecks | error trees, sign requests, the resource, name checks |
| Client, Protocol, Signer | single calls, the state machine of a flow, Sign and Provision |
| Renewal, Conditions, Reconciler | renewal times, status conditions, one pass |
| Runs, Passes, Convergence | runs of passes and edits, one pass in plain terms, rest and unrest |
| IssuerController | one signing attempt, retrying |
| Model | a library meeting the contracts, and runs in it |

`dafny verify dfyconfig.toml` checks everything.

## Model

| member | source | states |
|---|---|---|
| Text.TrimSpaceTrims | internal/kmp/response.go:185-192 | trimming leaves no space at either end and changes a text exactly when it has some there |
| Text.TrimSpaceCutsOut | internal/kmp/response.go:185-192 | what is left is a part of the text, with nothing but spaces before and after it and none at its ends |
| Text.ContainsFinds | internal/kmp/response.go:95-112 | one text contains another if and only if it is found at some position |
| Text.ParseFormat | internal/kmp/response.go:194-198 | a formatted int64 parses back to itself, and non-negative ones are canonical identifiers |
| Documents.NormalizedKey | internal/kmp/response.go:206-217 | the buffer loop computes the normalised key: lower case without `_`, `-`, space and `.` |
| Documents.WithoutSeparatorsKeepsTheRest | internal/kmp/response.go:206-217 | what is left of a key is every character that is no separator, each once, in its order |
| Documents.PlacesByPosition | internal/kmp/response.go:129-155 | the walk meets the object at every position of the document, members by key and items by index, each once, in depth-first order |
| Documents.FindAtGivesAnOutcome | internal/kmp/response.go:129-155 | under every map order the answer is one of the offers of the first object with any, and there is none only if no object has one |
| Documents.EveryOutcomeIsReached | internal/kmp/response.go:134-141 | every one of those offers is the answer under some map order |
| Documents.IndependentIffOneOutcome | internal/kmp/response.go:129-155 | the answer is the same for all map orders if and only if there is at most one such offer |
| Response.FindScalarIsFindAt | internal/kmp/response.go:129-155 | the recursive walk answers like a scan of all objects, parents first and children by sorted key |
| Response.FindStringOrderIndependence | internal/kmp/response.go:114-155 | findString is independent of map order if and only if the first object offering a wanted scalar offers one value |
| Response.FindStringInPlainTerms | internal/kmp/response.go:114-155 | findString answers a scalar under one of the keys of the first object, in a depth-first walk, that has any, and nothing if and only if no object has one |
| Response.OwnLevelWins | internal/kmp/response.go:132-141 | a wanted scalar at an object's own level, wherever the object sits, beats anything nested below it |
| Response.ScalarsAreRendered | internal/kmp/response.go:185-204 | strings are trimmed and blank ones do not count; whole numbers read back as themselves; booleans are words; nothing else counts |
| Response.CollectsWhatIsOffered | internal/kmp/response.go:309-341 | collectStringsFor collects exactly the scalars offered by some object of the document |
| Response.CollectForByPath | internal/kmp/response.go:309-341 | the scalars collected are those at exactly the positions under a wanted key, each once, in depth-first order |
| Response.WalkersAgree | internal/kmp/response.go:114-155 | findString finds a value if and only if collectStringsFor collects any, and the value is among those |
| Response.AllStringsByPath | internal/kmp/response.go:157-181 | the strings collected are the values at exactly the positions of the document that hold one, each once, in depth-first order |
| Response.EveryStringIsCollected | internal/kmp/response.go:157-181 | a string is collected if and only if some member or item, however deep, is that string |
| Response.Collector.WalkStrings | internal/kmp/response.go:157-181 | the closure appends every string value of the document, depth first |
| Response.Collector.WalkFor | internal/kmp/response.go:318-341 | the closure appends, per member, its own scalar before what it contains |
| Response.FoundIsNotBlank | internal/kmp/response.go:185-204 | nothing findString returns is empty or starts with space |
| Response.SucceededOrderIndependence | internal/kmp/response.go:82-112 | the verdict is independent of map order if and only if all statuses, or without any all messages, that may be read are judged alike |
| Response.TwoStatusFieldsAreAmbiguous | internal/kmp/response.go:65-95 | `{"result": "x", "status": "Success"}` succeeds or fails depending on map order |
| Identifiers.BestSnoc | internal/kmp/response.go:265-276 | one more id wins exactly when it is strictly stronger than all before |
| Identifiers.IdSearch.Consider | internal/kmp/response.go:262-276 | one update of best, bestValue and found keeps them describing the earliest strongest id seen |
| Identifiers.IdSearch.Walk | internal/kmp/response.go:253-287 | the walk sees exactly the ids of objects naming the common name, in visiting order |
| Identifiers.FindIDForCommonName | internal/kmp/response.go:230-290 | the captured variables end up as the earliest strongest id of those objects, if any |
| Identifiers.FindIDOrderIndependence | internal/kmp/response.go:253-290 | the id chosen is independent of map order if and only if the first matching object with a strongest id spells it one way |
| Identifiers.CanonicalIdsAreOrderIndependent | internal/kmp/response.go:230-290 | it is, when all ids are canonical non-negative decimals, however many an object holds |
| Identifiers.FindIDIsStrongestNamed | internal/kmp/response.go:230-290 | the id sits in an object naming the common name and no such object holds a larger one; there is none only if no such object holds a usable id |
| Identifiers.ChosenIdInPlainTerms | internal/kmp/response.go:230-306 | the id sits in one object with a name that folds to the common name, and no such object holds a larger non-negative int64; when none is chosen every id beside the name is a negative number |
| Identifiers.NeverAForeignRequest | internal/kmp/client.go:394-412 | the id selected is the strongest next to the common name, or the only id of a response with no name at all, and nothing else is ever selected |
| Identifiers.SelectedIdInPlainTerms | internal/kmp/client.go:394-412 | an id is selected beside the common name or as the only id of a document without any name; a document whose names all differ from the common name is refused |
| Identifiers.OnlyForeignNamesAreRefused | internal/kmp/client.go:397-412 | a response naming only other requests is refused |
| Identifiers.SelectedIdIsNotEmpty | internal/kmp/response.go:289 | no empty id is ever selected |
| Chain.PopIssuer | internal/kmp/chain.go:204-218 | the loop takes out the first candidate whose subject is the issuer and whose key signed the child |
| Chain.FindLeaf | internal/kmp/chain.go:186-200 | the first certificate with the request's key, or the first of all when the key cannot be compared |
| Chain.ClimbFrom | internal/kmp/chain.go:160-180 | the loop computes the greedy ascent from the leaf, cut after a self-signed issuer |
| Chain.BuildBundle | internal/kmp/chain.go:150-183 | leaf, chain and encoding as specified, with both error cases |
| Chain.ChainIsSound | internal/kmp/chain.go:150-222 | the chain starts with the leaf, each certificate is issued by the next, all are given ones, none repeats, and a self-signed one is only first or last |
| Chain.BundleInPlainTerms | internal/kmp/chain.go:150-222 | a bundle begins with a certificate of the request's key; each certificate names the next as issuer and is signed with its key; none repeats; and the last signed itself or no other given certificate is its issuer by name and signature |
| Chain.ChainIsComplete | internal/kmp/chain.go:168-180 | when each certificate has at most one issuer among the others, the chains of the leaf are exactly the non-empty prefixes of the one built |
| Chain.BuiltChainsAreTheMaximalOnes | internal/kmp/chain.go:150-222 | over all orders of distinct certificates the chains built are exactly the maximal ones: ended by a self-signed issuer, or with no issuer of the last certificate left |
| Chain.RootIsReachedIffNoDeadEnd | internal/kmp/chain.go:168-180 | the chain ends at a root in every order if and only if no chain of the leaf ends at another certificate with no issuer left |
| Chain.RootIsMissedIffDeadEnd | internal/kmp/chain.go:204-218 | a root some chain leads to is reached in some order, and missed in another if and only if another chain comes to a dead end |
| Chain.ChainOrderIndependence | internal/kmp/chain.go:160-218 | the chain is the same for every order if and only if no certificate on it has, among those not yet used, an issuer other than the next |
| Chain.OrderIndependentIffOneMaximal | internal/kmp/chain.go:160-218 | which is when there is one maximal chain |
| Chain.BundleTakesTheFirst | internal/kmp/chain.go:150-218 | nothing given before the leaf has the key, and nothing given before a certificate of the chain, unless it is in the chain already, names and signs the one below |
| Chain.BundlesAreTheMaximalChains | internal/kmp/chain.go:150-218 | over all orders the bundles returned are exactly the maximal chains of the certificates that can be the leaf |
| Chain.BundleOrderIndependence | internal/kmp/chain.go:150-218 | the bundle, or the error, is the same for every order if and only if at most one certificate can be the leaf and no certificate on its chain leaves a choice of issuer |
| Chain.BundleEndsAtRootIffNoDeadEnd | internal/kmp/chain.go:150-218 | every bundle ends at a root in every order if and only if no chain of any certificate that can be the leaf comes to a dead end |
| Chain.BundleEndsAtRootInSomeOrderIff | internal/kmp/chain.go:150-218 | one does in some order if and only if a maximal chain of such a certificate does |
| Chain.TwoLeavesAreAmbiguous | internal/kmp/chain.go:186-200 | two certificates of the request's key, each with no choice along its chain, give different bundles in the two orders |
| Chain.ChainIgnoresOrderAndUnrelated | internal/kmp/chain.go:146-183 | the chain is the same for any order of the certificates and with any further ones that issued nothing on it |
| Chain.BundleIgnoresOrderAndUnrelated | internal/kmp/chain.go:146-200 | so is the whole bundle when one certificate carries the request's key |
| Chain.GreedyChoiceCanMissTheRoot | internal/kmp/chain.go:204-218 | below a cross-signed intermediate the chain built can end early although a chain to a returned root exists |
| Chain.DuplicatesCanRepeat | internal/kmp/chain.go:60-67 | without the removal of duplicates a chain could repeat a certificate |
| Extraction.ParsePEMCertificates | internal/kmp/chain.go:94-113 | the loop yields what the certificate blocks parse to, one each and in order, up to the first that does not parse, and fails if and only if there is one |
| Extraction.Gatherer.AddValue | internal/kmp/chain.go:60-83 | one string adds its certificates not seen before and remembers a failure |
| Extraction.CertificatesFromStrings | internal/kmp/chain.go:53-89 | first occurrences in order, or the error |
| Extraction.HeldInPlainTerms | internal/kmp/chain.go:60-139 | the certificates of a PEM document are those its CERTIFICATE blocks hold up to the first that does not parse, and of any other string the one its base64 of at least 128 characters holds |
| Extraction.ExtractionIsDistinctAndComplete | internal/kmp/chain.go:49-89 | no two extracted certificates share their bytes, none held by any string is missing, none is invented, they come in the order first met, each the first with its bytes, and it fails exactly when nothing was found and some document failed |
| Extraction.ScanKeepsEarlierCertificates | internal/kmp/chain.go:91-113 | whatever follows encoded certificates, none of them is lost |
| Extraction.RoundTrip | internal/kmp/chain.go:224-231 | extracting from an encoded duplicate-free chain returns exactly the chain |
| KeyExport.ParsePEMPrivateKey | internal/kmp/privatekey.go:123-159 | the result is that of the first block that is a private key, none before it being one, or no key if there is none |
| KeyExport.FirstPrivateKeyDecides | internal/kmp/privatekey.go:123-159 | the same of the recursive reading, over the blocks of the document in order |
| KeyExport.FirstKeyAmong | internal/kmp/privatekey.go:62-88 | the first candidate that reads as a key is returned however many before it could not be read; otherwise an unreadable key is reported in preference to none |
| KeyExport.ParseExportedPrivateKey | internal/kmp/privatekey.go:51-89 | over the export and all strings of its JSON envelope: the key returned is the first held by any, decrypted with the password given where encrypted; there is an error only if there is no export, no key, or one that cannot be encoded, and without a key the error tells whether a private key block was there that could not be read |
| KeyExport.FirstKeyInPlainTerms | internal/kmp/privatekey.go:91-159 | the key is that of the first text that holds one: in its first private key block, decrypted with the export password when encrypted, or as base64 |
| Errors.WrappingPreservesPermanence | internal/kmp/errors.go:73-82 | any depth of `%w` wrapping leaves sentinels, first API error and permanence unchanged |
| Errors.JoiningContextPreservesPermanence | internal/kmp/signer.go:295-297 | joining the context's error leaves the class of a failure unchanged |
| Errors.PermanenceInPlainTerms | internal/kmp/errors.go:73-82 | an error is permanent if and only if some path through causes, wrapped and joined errors leads to one of the two sentinels, or the first API error on a depth-first walk says so |
| Signing.SignRequestFor | internal/kmp/signer.go:243-272 | patching in place yields the merged request |
| Signing.Details | internal/kmp/client.go:452-486 | the map carries exactly the mandatory keys of the sign type and the optional ones that are set, each with its value, and on the wire exactly the fields of the sign type, each option under its own name |
| Signing.FieldNamesDiffer | internal/kmp/client.go:452-486 | no two keys of the details share a field name |
| Signing.ValidatedMeansComplete | internal/kmp/signer.go:74-112 | options pass if and only if the sign type is known and every mandatory value is non-empty; otherwise the error is permanent |
| Signing.ValidationInPlainTerms | internal/kmp/signer.go:74-112 | which options each of the three sign types needs |
| Signing.RequestsAskForWhatIsAsked | internal/kmp/signer.go:243-272 | every option is in its own field; for root signing the validity is the duration asked for in days rounded up, and the CA flag the one asked for, unless pinned |
| Signing.PinnedValuesAreNeverOverridden | internal/kmp/signer.go:257-271 | pinned values are kept; a derived validity is the duration in days rounded up, at least one, within int32 |
| NameChecks.VerifyRequestedNames | internal/kmp/verify.go:35-87 | accepts exactly when every requested identity is issued, and otherwise fails permanently |
| NameChecks.AddedNamesStayAcceptable | internal/kmp/verify.go:28-34 | a certificate that carries further names, in whatever order, stays acceptable |
| NameChecks.VerifyProvisionedNames | internal/kmp/provision.go:168-205 | accepts exactly when the common name and every alternative name that is not blank is issued as IP address or DNS name |
| NameChecks.MatchesSpecMeansMatching | internal/controllers/kmpcertificate_controller.go:344-376 | no mismatch is reported if and only if names match and the subject was kept |
| NameChecks.ChecksAgreeOnWellFormed | internal/controllers/kmpcertificate_controller.go:314-368 | for a well-formed spec the check on issuing and the names part of matchesSpec accept the same certificates |
| NameChecks.ChecksAgreeIffWellFormed | internal/kmp/provision.go:168-205 | whatever is accepted on issuing keeps matching if and only if the spec is well-formed |
| Client.CallErrorsAreClassified | internal/kmp/client.go:175-252 | the error of a call is permanent if and only if the call did not go unserved (no reply, 408, 429, other non-4xx) and did not merely find nothing listed, published or exported yet |
| Client.RepliesInPlainTerms | internal/kmp/client.go:175-252 | a reply is used if and only if it arrived, its status is 2xx, it is JSON, and neither its status word nor, without one, its message reports a failure; a file likewise |
| Client.ErrorsInPlainTerms | internal/kmp/client.go:175-252 | the error of a call is permanent if and only if a reply came and it is 4xx other than 408 and 429, or 2xx and not merely nothing listed, published or exported yet |
| Client.OutcomesInPlainTerms | internal/kmp/client.go:394-561 | whether a call ends in an error: a reply not used, no id selected, no certificate extracted, or nothing signCSR reports |
| Client.Client.FindCSRID | internal/kmp/client.go:372-413 | one lookup is sent and its outcome read off the reply, or nothing is sent without operation or name |
| Client.Client.Get | internal/kmp/client.go:524-561 | one getCertificate is sent and its outcome read off the reply, or nothing is sent without identifiers |
| Protocol.AcceptedTracesAreOrdered | internal/kmp/signer.go:162-210 | an accepted trace stores the request, looks it up at most once and only when no id was reported, signs the resolved non-empty id once, then only fetches the one certificate the reply to signing leads to, then exports at most once, last, the request signed; a phase tells how far it got |
| Signer.Signer.FetchCertificate | internal/kmp/signer.go:276-301 | terminates; the interval is 2 s and the timeout 60 s unless positive ones are set; at most timeout/interval + 1 calls; every sleep starts early enough to end by the deadline; no call follows a success or a permanent error; it gives up on another error only when there is no time for a sleep or the context ended; the class of the last error is kept |
| Signer.Signer.ResolveCSRID | internal/kmp/signer.go:218-240 | yields a non-empty id reported or looked up, or stops with an error of the right class |
| Signer.Signer.Sign | internal/kmp/signer.go:164-210 | whatever the server does, an unreadable request sends nothing and any other makes an accepted trace of the server's replies, ended where a flow may end; the bundle is returned if and only if the trace yields one that passed all checks; an error is permanent if and only if the last call did not fail transiently; fetching is given up only when out of time; every call is the one the request, the issuer and the replies before it call for, with the duration and CA flag this request asks for in signCSR; the client's refusals of an empty id and of empty fetch identifiers are never met, and a flow that stops before its lookup fails with the reason it has for that |
| Signer.SignReturnsWhatItsCallsYield | internal/kmp/signer.go:197-210 | the calls decide the answer: a bundle is returned if and only if it is the one they yield |
| Signer.NamelessLookupIsMetIff | internal/kmp/signer.go:218-240 | the refusal of an empty name is met if and only if an operation is configured, the import reported neither id nor name, and the request has no common name and no first DNS name |
| Signer.SignedTraceIsComplete | internal/kmp/signer.go:164-210 | success implies the complete trace: stored, looked up if need be, signed once, fetched at least once, the bundle built of the certificates last fetched |
| Signer.Signer.Provision | internal/kmp/provision.go:85-163 | the same for the escrowed-key flow, which makes calls if and only if common name and password are given; what is returned is key and certificate of the one request that was signed and exported, belonging together and covering the names |
| Signer.ProvisionReturnsWhatItsCallsYield | internal/kmp/provision.go:133-162 | here too key and certificate are returned if and only if the calls yield them |
| Signer.ProvisionedTraceIsComplete | internal/kmp/provision.go:85-163 | the same for the escrowed-key flow, whose last call exports the id that was signed and yields the key, the bundle being built of the certificates fetched just before |
| Signer.SignMakesItsCalls | internal/kmp/signer.go:164-240 | the calls of Sign one by one: import; a lookup by the first name reported or requested, unless an id was reported; signCSR of that id with options, duration and CA flag; fetches by what signCSR and import reported |
| Signer.ProvisionMakesItsCalls | internal/kmp/provision.go:93-131 | the calls of Provision likewise, without duration or CA flag, and the export of the id that was signed |
| Signer.ProvisionedPairIsSound | internal/kmp/provision.go:133-205 | the key handed back is the one the leaf carries; each certificate of the chain, all of one response, is signed by the next; and the leaf bears every name asked for |
| Signer.SignedChainIsSound | internal/kmp/signer.go:197-209 | the same for an imported request, its key and all its names |
| Renewal.DefaultRenewalFallsWithinLifetime | internal/controllers/kmpcertificate_controller.go:379-385 | by default renewal starts after the beginning and no later than the end of any positive lifetime, leaving a third of it, also when the lifetime saturates a duration |
| Renewal.ConfiguredRenewalFallsWithinLifetime | internal/controllers/kmpcertificate_controller.go:379-385 | a configured lead leaves a new certificate any time if and only if it is shorter than the lifetime |
| Renewal.WakesForRenewal | internal/controllers/kmpcertificate_controller.go:416-425 | the next check is not before renewal, if and only if the wait fits a duration, and at most a second after it |
| Conditions.ConditionList.Set | internal/controllers/kmpcertificate_controller.go:438-468 | the loop edits the first condition of the type or appends one, and reports whether anything changed |
| Conditions.SetConditionSetsOne | internal/controllers/kmpcertificate_controller.go:438-468 | other types are untouched; the type set shows the report and its transition time moves exactly on a status change |
| Conditions.SetConditionIsIdempotent | internal/controllers/kmpcertificate_controller.go:445-448 | the same report again changes nothing at any later time |
| Conditions.SetAllShowsTheLastReports | internal/controllers/kmpcertificate_controller.go:438-468 | any sequence of reports keeps one condition per type, each showing the last report about it |
| Reconciler.Controller.Reconcile | internal/controllers/kmpcertificate_controller.go:92-140 | one pass, with its deferred status update and a live provisioner, leaves exactly the state, result and writes of the step function, for the outcome of the calls it makes: those of one Provision when issuing is needed and can be asked for, and otherwise none |
| Reconciler.Controller.Check | internal/controllers/kmpcertificate_controller.go:144-173 | issuing is needed unless the Secret is readable, complete, matches the spec and is not due |
| Reconciler.Controller.IssueCertificate | internal/controllers/kmpcertificate_controller.go:176-219 | a failure anywhere changes nothing; success writes the Secret and fills in serial number, id, validity and renewal time of the leaf |
| Reconciler.Controller.WriteSecret | internal/controllers/kmpcertificate_controller.go:279-308 | the entries are set in whatever the Secret already holds |
| Runs.PassWritesWhatItPublishes | internal/controllers/kmpcertificate_controller.go:92-140 | a pass writes the Secret if and only if it found issuing needed and everything went well; otherwise the Secret stays |
| Runs.WritingKeepsOtherEntries | internal/controllers/kmpcertificate_controller.go:292-301 | certificate and key are replaced together; CA and password are replaced only when there are new ones; other entries stay |
| Runs.PairInvariantHolds | internal/controllers/kmpcertificate_controller.go:176-219 | over every run, with any answers, failures and edits, a Secret last written by the controller holds certificate, key, and if generated password, of one single Provision |
| Runs.PairIsUsable | internal/kmp/privatekey.go:196-208 | the first certificate in such a Secret carries the public half of its key and covers the names requested |
| Runs.RecordedPasswordOpensTheKey | internal/controllers/kmpcertificate_controller.go:249-275 | while no password is ever supplied, the recorded one is the one that Provision used |
| Runs.SuppliedPasswordLeavesTheOldOne | internal/controllers/kmpcertificate_controller.go:297-301 | once one is supplied, the next issue leaves the recorded one as it was |
| Runs.StaleEntriesSurviveIff | internal/controllers/kmpcertificate_controller.go:292-301 | after an issue the CA entry is that of the issue if and only if its chain has one or there was none; the password entry, if and only if it was generated or already the same |
| Runs.StatusShowsTheLastRecorded | internal/controllers/kmpcertificate_controller.go:103-119 | after any run the status shows serial number, id, validity and renewal time of the last issue whose update went through |
| Runs.StatusDescribesIffLastIssueRecorded | internal/controllers/kmpcertificate_controller.go:103-119 | after any run it describes the certificate in the Secret if and only if others wrote that last or the last issue agrees with the last one recorded |
| Runs.StatusDescribesTheSecret | internal/controllers/kmpcertificate_controller.go:212-218 | in particular while no pass that issues loses its update |
| Runs.RecordingRepairs | internal/controllers/kmpcertificate_controller.go:103-112 | after an issue it does if and only if its update went through or the record already said the same |
| Passes.LookInPlainTerms | internal/controllers/kmpcertificate_controller.go:144-171 | a look is content if and only if it can read the Secret, both entries are there, the certificate bears all that is specified, and its end is further off than the configured lead or a third of its lifetime |
| Passes.PreparedInPlainTerms | internal/controllers/kmpcertificate_controller.go:176-276 | what a pass needs before it calls Key Manager Plus, and the password it asks with: generated, or the trimmed entry of the Secret named |
| Passes.RequestInPlainTerms | internal/controllers/kmpcertificate_controller.go:314-340 | the first call of a pass creates a request that carries the spec field by field |
| Passes.PublishingInPlainTerms | internal/controllers/kmpcertificate_controller.go:92-140 | a pass issues if and only if that is needed, all it needs is there, the calls succeed, the chain splits, and the Secret can be written |
| Passes.SecretInPlainTerms | internal/controllers/kmpcertificate_controller.go:279-308 | each entry of the Secret after an issue, by name |
| Passes.StatusInPlainTerms | internal/controllers/kmpcertificate_controller.go:212-218 | each field of the status after any run: that of the leaf last recorded, or what it was |
| Passes.LastRecordedIsOfAPass | internal/controllers/kmpcertificate_controller.go:103-119 | and that is what the last pass that issued and updated its status got |
| Passes.RetryInPlainTerms | internal/controllers/kmpcertificate_controller.go:416-425 | a failure is tried again after a minute, and a wait for an instant is never shorter than a second |
| Passes.ReadyInPlainTerms | internal/controllers/kmpcertificate_controller.go:114-138 | the Ready condition a pass leaves: its status, reason, message, generation and transition time |
| Convergence.NextLookAfterIssue | internal/controllers/kmpcertificate_controller.go:144-173 | after a successful issue the next look is content exactly when the leaf matches the spec and is not due |
| Convergence.IssueSettlesIffSubjectKept | internal/controllers/kmpcertificate_controller.go:342-376 | for a well-formed spec that is exactly when the authority kept organization and unit, before the renewal instant |
| Convergence.QuietRun | internal/controllers/kmpcertificate_controller.go:103-119 | from a good Secret on, any number of passes before renewal, whatever updates fail, writes the status at most once and nothing else, and nothing more is left to write once an update went through |
| Convergence.IssueThenQuiet | internal/controllers/kmpcertificate_controller.go:92-173 | a successful issue of a kept subject for a well-formed spec is followed by such a run, the Secret unchanged |
| Convergence.AtMostOneIssue | internal/controllers/kmpcertificate_controller.go:92-173 | from any cluster, for a well-formed spec and a kept subject, all passes that can read the Secret and come before renewal write it at most once, whatever calls, writes and updates fail |
| Convergence.EveryPassIssuesIffNeverAccepted | internal/controllers/kmpcertificate_controller.go:144-173 | of passes that can do all they need to, every single one writes the Secret if and only if each look refuses the certificate of the pass before, or cannot read the Secret |
| Convergence.StrippedOrganizationNeverRests | internal/controllers/kmpcertificate_controller.go:369-371 | so with an authority that strips the organization asked for |
| Convergence.OverlongLeadNeverRests | internal/controllers/kmpcertificate_controller.go:168-171 | so with a renewal lead as long as each lifetime, once the validity has begun by the next look |
| Convergence.StrippedOrganizationIsRefused | internal/controllers/kmpcertificate_controller.go:369-371 | a certificate without the organization asked for is refused whatever its names |
| Convergence.IllFormedSpecIsNeverSettled | internal/kmp/provision.go:175-196 | for every ill-formed spec some certificate is accepted on issuing and refused at any time after |
| Convergence.OverlongLeadIsRefused | internal/controllers/kmpcertificate_controller.go:168-171 | a renewal lead as long as the lifetime makes every certificate due from its beginning |
| Convergence.UnreadableSecretIsReplaced | internal/controllers/kmpcertificate_controller.go:147-152 | a failure to read the Secret replaces it, good as it may be |
| Convergence.NoMissedOrEarlyRenewal | internal/controllers/kmpcertificate_controller.go:114-139 | after any pass that ends without error and with a delay, whether it issued or was content, looks are content if and only if the certificate matches and is not yet due, and the look asked for finds it due, at most a second late, unless the wait exceeds a duration |
| Convergence.ContentPassEnds | internal/controllers/kmpcertificate_controller.go:103-119 | a content pass ends so if and only if its status update goes through or it has none to make; otherwise it returns that error and changes nothing |
| Convergence.CapablePassEndsWell | internal/controllers/kmpcertificate_controller.go:92-140 | so does every pass that can do all it needs to, status update included |
| Convergence.PromptRunsAreInTime | internal/controllers/kmpcertificate_controller.go:92-140 | over any run of passes and edits, if each pass after one that ended well comes when asked for, it comes at most a second after the renewal instant of the certificate it finds, or after the pass before if that was later |
| Convergence.StatusAfterALostUpdate | internal/controllers/kmpcertificate_controller.go:104-112 | after a lost update the record of the certificate before stays through any number of content passes, describing the Secret if and only if it happens to say the same |
| IssuerController.SignFor | internal/controllers/signer.go:164-205 | an attempt sends nothing when it fails before signing, and otherwise turns the outcome of one run of the signer into a chain or a verdict, which gives up if and only if the attempt is hopeless |
| IssuerController.AttemptStopsIffHopeless | internal/controllers/signer.go:133-217 | a failed attempt is given up if and only if the issuer's type is unknown, its health check fails permanently, or its calls to Key Manager Plus did not end in a transient failure; the issuer is failed with it if and only if its type, its health or its signer is what failed |
| IssuerController.IssuedChainIsHandedOn | internal/controllers/signer.go:193-205 | what cert-manager is handed begins with the certificate issued, of the request's key and with its names |
| IssuerController.FailedPassIsRetriedIff | internal/controllers/kmpcertificate_controller.go:104-133 | a failed pass that loses a status update returns that error; any other returns its error with a minute's delay if and only if it failed before any call for another reason than an unknown issuer kind or a blank password, its calls ended in a transient failure, or the Secret could not be written, and otherwise returns neither; the Secret stays |
| IssuerController.BuilderClassIsKeptIffNotPermanent | internal/controllers/kmpcertificate_controller.go:193-196 | a failure to build the provisioner or signer is never given up, so its class is respected if and only if it is not permanent |
| IssuerController.MisconfigurationStopsOnlyRequests | internal/signer/kmp.go:74-101 | with the program's builder, which fails only permanently, a misconfigured issuer gives up certificate requests at the health check while a pass over a KMPCertificate returns an error |
| Model.ProvisionSucceeds | internal/kmp/provision.go:85-163 | in the small library a server that gives one response to every call makes Provision return its certificate and key |
| Model.SignSucceeds | internal/kmp/signer.go:164-210 | and Sign its certificate |
| Model.QuietRunExists | internal/controllers/kmpcertificate_controller.go:92-173 | there an issue is followed by any number of passes that leave the Secret alone |
| Model.StrippedRunExists | internal/controllers/kmpcertificate_controller.go:369-371 | there, asked for an organization the authority strips, any number of passes issues as often |
| Model.OverlongRunExists | internal/controllers/kmpcertificate_controller.go:379-385 | and so it does with a renewal lead as long as the lifetime |
| Model.LostUpdateExists | internal/controllers/kmpcertificate_controller.go:103-112 | there a lost update leaves a status that never describes the Secret while the passes are quiet |

## Left out

- HTTP, multipart and URL plumbing, the response size limit, `Ping`: the server is an arbitrary source of replies.
- The Kubernetes client and manager: reads, writes and status updates are atomic and fail without effect.
- `createCSR` and `exportCSR` parameter rendering: plain field copies; the request itself is part of the trace.
- Cryptography, DER, base64, PEM and `ParseSingleCertificateChainPEM`: parameters with the contracts named above.
- JSON numbers: whole numbers and decimal fractions are exact; float64 rounding is not modelled.
- `math.Ceil(Hours()/24)` uses exact integers instead of float64.
- Status times: stored with full precision; the API server keeps whole seconds.
- Error and condition texts: arbitrary; `Error()` and `truncate` are not modelled.
- Key store detection after a failed export (`isKeyStore`): it only chooses between two texts.
- `IsAuthFailure` and the health check behind it: the health checker's answer is arbitrary.
- `NewClient`: whether a client can be made of the address and certificates is one flag.
- Identifiers.NeverAForeignRequest: says nothing about which of several equally strong spellings is returned; Identifiers.FindIDOrderIndependence does.
