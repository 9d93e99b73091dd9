# MatchVet evidence handling: models and proofs

MatchVet decides and witnesses research selections for football matches. What this project
models is the part of it that must not be wrong: byte encodings that have to be unique,
append-only stores that have to survive crashes, chains of authority that must not fork or
roll back, one ranking rule, and exact time and counting.

Run `dafny verify dfyconfig.toml` to check the project; it is written for Dafny 4.11.

| module | what it models |
|---|---|
| `Der`, `Oid`, `TimestampRequest`, `LaxDer`, `Bytes`, `WireForms` | DER, INTEGER and OBJECT IDENTIFIER, the RFC 3161 request, a second, laxer reader, and the forms octet by octet |
| `TufJson`, `TufRoles`, `TufMeaning`, `Utf8`, `Order`, `Decimal` | the signed canonical JSON and its UTF-8 octets, role thresholds and root rotation of TUF metadata |
| `OwnerHistory`, `OwnerMeaning` | the hash-chained owner history, its checkpoint and lineage |
| `Finalists`, `ComparisonLaws`, `ComparisonMeaning`, `Decision`, `DecisionMeaning` | joint finalist comparison and the decision built from it |
| `Filesystem`, `ArtifactStore`, `StoreRuns` | the content-addressed store, step by step, under crashes and power losses |
| `Seal`, `SealRuns` | the one-shot selection, witness and receipt protocol |
| `Enrollment`, `OutcomeChain` | batch enrolment and retry, outcome corrections |
| `Retention`, `RootConflicts`, `RetainedTrust` | rollback-resistant metadata, where its roots can conflict, and loading it back |
| `EventInterval`, `ExactUtc` | the witnessed interval and exact UTC comparison |
| `Denominator`, `DenominatorMeaning`, `ScopeCounts` | the evaluation denominator and its counts, scope by scope |

Objects whose methods update their fields are classes, and loops are methods proved against a
specification function or relation; what is then claimed over whole runs is proved about that
relation. The modules whose names end in `Meaning`, `SealRuns` and `WireForms` then state the results on the
data itself, without those functions. An exception is the value `None` or an outcome such as `Raised` or
`Refused`. A crash is a budget of durable steps that may run out before any step; a run is a
sequence of states related by what the methods' contracts allow, a crash included.

Assumptions, each a parameter or a `requires` where it is used:

- SHA-256 is a function; where two contents must not share a digest, it has no collisions.
  Signature verification, certificate checks and the parsers of Python's JSON library are
  functions given from outside; a printed manifest reads back as itself.
- Encoded artifacts are stored under the digest of their content and raw bytes under one that no
  artifact has (used where enrolment says exactly what it sends and publishes).
- No content names its own digest as a predecessor, however far back: digests can be ranked so that
  whatever names a predecessor has a higher rank (used where a verifier follows predecessors).
- A database transaction is atomic and durable once committed, and snapshot identities are
  unique in the index. Names of partial files are fresh.
- Flushing a file makes its content durable and flushing a folder makes the names in it
  durable; nothing else promises durability. Renaming without replacement is atomic.
- Floating-point numbers are reals, and `math.isclose` is its defining inequality.
- The calendar gives whole seconds; the network, the clock, approvals and admission checks are
  inputs of each run.
- The frozen memberships of a denominator, the preferences of a profile and the scopes of a
  freeze have distinct identities. A joint support and its regions are as their constructors
  leave them.

What the proofs turned up:

- `ROBUST_COMPARISON_CYCLE` can never be returned.
- An ordinary publication that finds its object already installed does not flush it again, so a
  row can outlive its object after a power loss; the private path has no such gap.
- Signatures cover a root's signed tree, not its bytes, and intermediate rotations are retained
  unchecked. An earlier root served again with its signature records reordered is authentic,
  accepted and retained once; from then on every refresh is refused and no attempt's trust loads.
- The lax identifier decoder is one-to-one exactly on clean octets: no group starting with 0x80 and
  no group left open. It accepts others, and each of those has a clean twin.
- A sealing operation spends its insertion authority before the last refusals, so its flag does not
  tell a refused insertion from a landed one; the one-shot chain rests on its caller reporting only
  insertions that landed.
- The request writer accepts nonces over 519 bits that the parser then refuses.

## Model

| member | source | states |
|---|---|---|
| Der.ReadDer | src/matchvet/causal_witness.py:82-99 | reading what `_der` wrote, at any offset and before any further bytes, gives back the tag, the content and the position after it, for every single-byte tag and content under 2^32 bytes |
| Der.ReadIsDer | src/matchvet/causal_witness.py:82-99 | whatever is accepted is exactly the encoding of the tag and content returned: the definite length form is unique (sections 8.1.3 and 10.1 of ITU-T X.690) |
| Der.SingleIff | src/matchvet/causal_witness.py:102-106 | a whole string is one node exactly when it is that node's encoding and nothing more |
| Der.Node.Children | src/matchvet/causal_witness.py:67-79 | the offset loop over a node's content computes the recursive split, or fails on the first bad element |
| Der.ElementsConcatenate | src/matchvet/causal_witness.py:73-79 | the raw pieces of a split concatenate to the content, and each is the encoding of its own tag and content |
| Der.ChildrenIff | src/matchvet/causal_witness.py:73-79 | a content splits into given nodes if and only if it is their encodings side by side |
| Der.IntegerIff | src/matchvet/causal_witness.py:109-118 | INTEGER contents are accepted exactly in the minimal two's-complement form of their value (section 8.3 of ITU-T X.690) |
| Bytes.SignedToSigned | src/matchvet/causal_witness.py:109-118 | the minimal signed form of every integer reads back as that integer |
| Bytes.ToSignedSigned | src/matchvet/causal_witness.py:109-118 | and every minimal signed form is the form of its value |
| Bytes.ByteCountShortest | src/matchvet/causal_witness.py:144-148 | written in as many octets as its bit length takes, a number is in its shortest form, which the length octets and the nonce rest on |
| Oid.Write | src/matchvet/causal_witness.py:151-162 | the encoder's reversed base-128 accumulation is the encoding of the folded arcs |
| Oid.Decode | src/matchvet/causal_witness.py:121-141 | the decoder's accumulator loop computes the parse, with its leading-0x80 and 2^64 refusals |
| Oid.ScanIff | src/matchvet/causal_witness.py:121-141 | base-128 groups decode to given arcs exactly when they are those arcs' shortest groups and each is below 2^64 (section 8.19 of ITU-T X.690) |
| Oid.ParseIff | src/matchvet/causal_witness.py:121-162 | an OBJECT IDENTIFIER is accepted with a given value if and only if the value is in range and the content is its one encoding: inverse in both directions |
| TimestampRequest.QueryIff | src/matchvet/causal_witness.py:204-216 | a request parses to a digest and nonce if and only if it is one of the two written forms of them (with or without NULL parameters), the digest has 32 bytes and the nonce is positive with at most 65 bytes |
| TimestampRequest.RequestIff | src/matchvet/causal_witness.py:192-201 | the writer emits exactly the canonical form, and refuses a nonce that is not positive or has under 256 bits |
| TimestampRequest.RequestRoundTrip | src/matchvet/causal_witness.py:192-216 | writing then parsing returns the digest and nonce if and only if the nonce has 256 to 519 bits (section 2.4.1 of RFC 3161) |
| WireForms.HeaderOctets | src/matchvet/causal_witness.py:144-148 | octet by octet: an element is its tag, a length of one to five octets with 0x81 to 0x84 in front of a counted one, and its content |
| WireForms.IdentifierOctets | src/matchvet/causal_witness.py:151-162 | the octets of the policy and SHA-256 identifiers as they stand on the wire |
| WireForms.IdentifierRead | src/matchvet/causal_witness.py:121-141 | an identifier is read exactly with a root of 0 to 2, a second arc below 40 under the first two, and no subidentifier of 18446744073709551616 or more |
| WireForms.QueryOctets | src/matchvet/causal_witness.py:204-216 | a request is read exactly from its two layouts, given octet by octet around the digest and the nonce |
| WireForms.RequestOctets | src/matchvet/causal_witness.py:192-201 | and written in the one with NULL parameters, exactly for a nonce of at least 2^255 |
| LaxDer.ReadIff | src/matchvet/cb01_trust.py:1173-1202 | the strict reader accepts at an offset exactly where this one does with the same tag, content, end and raw bytes, less high tag numbers and padded lengths |
| LaxDer.Children | src/matchvet/cb01_trust.py:1205-1217 | the cursor loop computes the recursive split |
| LaxDer.StrictSplitIsSplit | src/matchvet/cb01_trust.py:1205-1217 | every split the strict reader makes, this one makes piece by piece |
| LaxDer.Decode | src/matchvet/cb01_trust.py:1231-1246 | the lax identifier loop computes the lax parse |
| LaxDer.ParseAgrees | src/matchvet/cb01_trust.py:1231-1246 | both identifier decoders agree on everything the strict one accepts |
| LaxDer.CleanIff | src/matchvet/cb01_trust.py:1231-1246 | for values of any size: octets decode to given values and are clean (no group starts with 0x80, the last octet ends its group) if and only if they are those values' shortest groups |
| LaxDer.CleanDecides | src/matchvet/cb01_trust.py:1231-1246 | two clean contents with one identifier are equal, and an accepted content is clean exactly when it is the encoding of what it decodes to: every unclean one has that as a different twin |
| LaxDer.ParseDiffers | src/matchvet/cb01_trust.py:1231-1246 | where the lax decoder accepts, the strict one does too exactly when the octets are clean and every subidentifier is below 2^64 |
| LaxDer.PaddingIgnored | src/matchvet/cb01_trust.py:1231-1246 | cleanness fails by one octet: every accepted content has a padded twin with the same identifier, unclean and refused by the strict decoder |
| LaxDer.TruncationIgnored | src/matchvet/cb01_trust.py:1231-1246 | nor is an identifier cut off inside a group that is zero so far noticed |
| TufJson.TextUnique | src/matchvet/causal_trust.py:389-410 | a printed tree followed by anything but a digit determines both the tree and the untouched rest |
| TufJson.CanonicalInjective | src/matchvet/causal_trust.py:389-410 | two different signed values never share canonical octets, the UTF-8 encoding included (section 4.1 of the TUF specification) |
| Utf8.EncodeInjective | src/matchvet/causal_trust.py:410 | different strings of Unicode scalar values have different UTF-8 octets (section 3 of RFC 3629) |
| TufJson.QuoteEscapes | src/matchvet/causal_trust.py:389-410 | the two successive replacements escape each character exactly once |
| WireForms.WordText | src/matchvet/causal_trust.py:389-410 | the three JSON words and the empty array and object are printed as themselves |
| WireForms.NumberText | src/matchvet/causal_trust.py:389-410 | an integer is its decimal digits without leading zeros, behind a minus sign where it is negative |
| WireForms.StringText | src/matchvet/causal_trust.py:389-410 | a string is quoted with a backslash before each quotation mark and backslash and nothing else changed |
| WireForms.ListText | src/matchvet/causal_trust.py:389-410 | an array is its elements in order between brackets, a comma between any two |
| WireForms.ObjectText | src/matchvet/causal_trust.py:389-410 | an object prints its entries in ascending order of their keys, however it was built |
| WireForms.Utf8Octets | src/matchvet/causal_trust.py:410 | a character is written in one to four octets by its range, bit group by bit group |
| TufRoles.CheckSignatures | src/matchvet/causal_trust.py:306-349 | the signature loop accepts exactly when no key identifier repeats and enough distinct authorised keys verify |
| TufRoles.VerifyRole | src/matchvet/causal_trust.py:283-349 | a document is accepted for a role exactly when the root's policy is well formed and its signatures suffice |
| TufRoles.SignatureOrderIrrelevant | src/matchvet/causal_trust.py:306-349 | reordering the signatures never changes the verdict |
| TufRoles.DocumentOrderIrrelevant | src/matchvet/causal_trust.py:283-349 | and so for whole documents |
| TufRoles.VerifiedBy | src/matchvet/causal_trust.py:283-349 | an accepted document carries at least the threshold of verifying signatures by distinct authorised keys, exhibited |
| TufRoles.AuthenticateRoots | src/matchvet/causal_trust.py:113-128 | the rotation loop accepts exactly the unbroken chains from bootstrap version 10, five to sixty-four rotations |
| TufRoles.RotationSigned | src/matchvet/causal_trust.py:113-128 | each accepted rotation carries its predecessor's threshold and its own of verifying signatures from distinct authorised keys (section 5.3 of the TUF specification) |
| TufRoles.OneSuccessor | src/matchvet/causal_trust.py:113-128 | two roots a root both accepts have the same canonical signed text when most of any threshold of its keys sign one text a version |
| TufRoles.ChainsAgree | src/matchvet/causal_trust.py:113-128 | under that condition two accepted chains never fork: they agree on every common rotation |
| TufRoles.Authenticate | src/matchvet/causal_trust.py:113-145 | the role loop, the references between documents and the target entry accept exactly the authentic bundles and return their versions; TufMeaning.AuthenticIff says which these are |
| TufRoles.AuthenticFloors | src/matchvet/causal_trust.py:129-145 | accepted versions lie at or above the reviewed floors, and the root's version is its place in the chain |
| TufMeaning.RoleVerifiedIff | src/matchvet/causal_trust.py:283-349 | read off the JSON trees: a role's document is accepted exactly with a signed part that has a canonical form, a policy of 1 to 16 distinct keys and a threshold among them, at most 64 records none of which is malformed or repeats a key, and the threshold met by the role's own ECDSA keys |
| TufMeaning.RotationsIff | src/matchvet/causal_trust.py:113-128 | a chain is accepted exactly from the pinned bootstrap root over 5 to 64 roots numbered 11 and up, each signed under its predecessor and under itself |
| TufMeaning.AuthenticIff | src/matchvet/causal_trust.py:113-145 | a bundle is accepted with given versions exactly when each document states its own, none is below the reviewed floor 15, 799, 165 or 14 or shares it with another digest, timestamp, snapshot and targets are signed under the last root, the timestamp names the snapshot's version and the snapshot that of the targets, with length and hash where given, and the targets name the TrustedRoot's length and hash |
| TufMeaning.AuthenticHolds | src/matchvet/causal_trust.py:113-145 | and whatever is accepted has such versions, which come back with the digests of its documents |
| TufMeaning.OneUnderParent | src/matchvet/causal_trust.py:136-145 | two accepted bundles with one timestamp tree have one snapshot version, with one snapshot tree one targets version, and where the parent gives a hash that does not collide the same document; with one targets tree the same TrustedRoot |
| TufRoles.ChainReordered | src/matchvet/causal_trust.py:113-128 | an authentic chain stays authentic when a root is replaced by other bytes for the same signed tree with its signature records in any order: chains do not determine the bytes of their roots |
| TufRoles.BundleReordered | src/matchvet/causal_trust.py:113-145 | and a whole bundle with an earlier root so replaced is accepted with the same versions and digests |
| OwnerHistory.History | src/matchvet/causal_activation.py:148-230 | the record loop accepts exactly the histories in which every step is allowed, and returns the last record's approval and bundle |
| OwnerMeaning.AcceptedIff | src/matchvet/causal_activation.py:148-230 | a history is accepted exactly when it has 1 to 1024 records and each shows its place, its predecessor's digest, the fixed terms, an action its predecessor allows, and the versions of its own accepted bundle with the pinned TrustedRoot |
| OwnerMeaning.NothingTakenBack | src/matchvet/causal_activation.py:154-230 | between any two places no version falls, one named again keeps its digest, roots are only extended, terms agree, and a withdrawal stands with the metadata it found |
| OwnerMeaning.ApprovalMeans | src/matchvet/causal_activation.py:217-230 | the approval has the first record's terms and the last one's floors, and is withdrawn exactly when some record withdrew, from the moment that record states |
| OwnerHistory.HistoryStrengthens | src/matchvet/causal_activation.py:154-230 | between any two positions floors never fall and equal versions keep their digests, roots are extended, terms agree, and after withdrawal bundle, floors and adverse evidence are fixed |
| OwnerHistory.WithdrawnOnce | src/matchvet/causal_activation.py:181-214 | after a withdrawal only reconciliations follow, so it happens at most once |
| OwnerHistory.FloorsAuthentic | src/matchvet/causal_activation.py:195-221 | every record's floors are the versions of its own authenticated bundle |
| OwnerHistory.TailDetermines | src/matchvet/causal_activation.py:154-180 | two accepted histories that share a record at a position share everything before it |
| OwnerHistory.HeadDetermines | src/matchvet/causal_activation.py:258-291 | two accepted histories that pass the same checkpoint are equal record by record |
| OwnerMeaning.HeadIff | src/matchvet/causal_activation.py:258-291 | a checkpoint passes exactly when it is reconciled, answers the nonce asked, which has 32 octets, and names this history's identities, length, last digest and floors |
| OwnerHistory.LineageNarrows | src/matchvet/causal_activation.py:371-378 | an approval in the retained one's lineage never loses a withdrawal or lowers a floor |
| OwnerHistory.OwnBundleMeetsRequirement | src/matchvet/causal_trust.py:496-541 | an accepted history's approval meets its own requirement, leaving validity and withdrawal as the only grounds for refusal |
| OwnerMeaning.RequireIff | src/matchvet/causal_trust.py:496-541 | an approval allows a use exactly for the packaged profile and the TrustedRoot used, with all four roles' floors at or above what was reviewed and at or below what is retained, inside its validity and, to qualify, before any withdrawal |
| Finalists.StrengthTable | src/matchvet/candidate_support.py:894-921 | the nested draw loop yields every strength, or the first reason in order |
| Finalists.JudgePairs | src/matchvet/candidate_support.py:934-967 | the pair loop, growing the outranked set and the results, judges each pair by its own region |
| Finalists.OrderMaximalSet | src/matchvet/candidate_support.py:1003-1042 | the narrowing loop and the final sort pick the primary, or name the first missing criterion |
| Finalists.Compare | src/matchvet/candidate_support.py:858-1000 | the whole comparison computes the result, refusals in their order and the result's own checks included; ComparisonMeaning says what that result is |
| ComparisonLaws.StrongestNeverOutranked | src/matchvet/candidate_support.py:934-970 | a finalist with greatest strength on any one common draw is outranked by nobody |
| ComparisonLaws.MaximalNonempty | src/matchvet/candidate_support.py:968-970 | so the maximal set is never empty |
| ComparisonLaws.ResultIff | src/matchvet/candidate_support.py:732-776 | a result comes back exactly for distinct finalists, it passes its constructor's checks, and its reason is never the dominance cycle: that branch is dead code |
| ComparisonMeaning.RefusalMeans | src/matchvet/candidate_support.py:858-967 | finalists are compared exactly when all pass, their common draws are complete and known, there is one region for each two of them, and every region is supported and contains its draws; otherwise the reason is that of the first check failed, by the first finalist or region |
| ComparisonMeaning.ResultSays | src/matchvet/candidate_support.py:858-1000 | the result has the strengths drawn, one pair for each region with its differences and winner, and as the maximal set exactly the finalists no region puts strictly below another |
| ComparisonMeaning.TieBreakMeans | src/matchvet/candidate_support.py:1003-1042 | of the maximal set those within 1e-9 relative or 1e-12 absolute of the least uncertainty stay, then of the greatest data quality, then of the least failure risk or else adversarial materiality, then of the greatest historical reliability; supported exactly when no value was missing while two remained, and the missing field is named; the primary is the one left that the user places first, then the least identity |
| ComparisonLaws.OutrankedIff | src/matchvet/candidate_support.py:934-970 | a finalist is outranked exactly when some region puts it strictly below the other of its pair |
| ComparisonLaws.ResultMeans | src/matchvet/candidate_support.py:858-1042 | the maximal set is exactly the unbeaten finalists; the order is that set, the primary first and the rest ascending; the primary survives every criterion and no survivor precedes it in the user's order |
| ComparisonLaws.NarrowSurvivors | src/matchvet/candidate_support.py:1016-1034 | the narrowing loop keeps exactly the finalists within tolerance of the best on each criterion in turn |
| ComparisonLaws.InputOrderIrrelevant | src/matchvet/candidate_support.py:866-867 | the input order of the finalists never changes the result |
| Decision.Resolve | src/matchvet/candidate_support.py:2545-2733 | the preference loop and the row rewriting build the decision, or nothing where the code raises |
| Decision.DecideIff | src/matchvet/candidate_support.py:2219-2290 | a decision comes out exactly for a nonempty list of distinct preferences with all their predecessor rows: nothing else the loop builds is refused by the result's validator |
| Decision.BuiltAccepted | src/matchvet/candidate_support.py:2238-2290 | what the loop concludes for distinct preferences passes the validator |
| Decision.DecisionMeans | src/matchvet/candidate_support.py:2684-2733 | one row per preference in order; an unresolved decision lists every unsettled or surviving preference; no recommendation and nothing unresolved exactly when all were rejected |
| DecisionMeaning.RowsSay | src/matchvet/candidate_support.py:2545-2690 | a row is rejected exactly where the first gate fails or, the first passing, another fails; it survives exactly where all pass and the tie-break values form a finalist |
| DecisionMeaning.DecisionSays | src/matchvet/candidate_support.py:2665-2733 | a preference is recommended exactly when none is undecided, some pass, the joint source is there and the comparison of the passing ones is supported, and it is that comparison's primary; otherwise the reason and the list say who was left |
| ArtifactStore.ArtifactStore.EnsureDirectory | src/matchvet/artifacts.py:1216-1252 | stopped anywhere, folders are only added; run through, each missing one is there and durable, and only names beside a new one were flushed in passing |
| ArtifactStore.ArtifactStore.StageContent | src/matchvet/artifacts.py:951-968 | the short-write loop stages exactly the content, and at every point a prefix of it |
| ArtifactStore.ArtifactStore.Install | src/matchvet/artifacts.py:974-998 | an absent object is installed whole, a present one must match, and nothing is replaced |
| ArtifactStore.ArtifactStore.PublishObject | src/matchvet/artifacts.py:951-1005 | stopped anywhere, nothing that existed changes and an object is there whole or not at all; refused only for content of another digest or a different object in place |
| ArtifactStore.ArtifactStore.PublishArtifact | src/matchvet/artifacts.py:542-598 | stopped anywhere, nothing existing changes; completed, every guard and check passed, the one row is there over an object with its digest and length, and no other file is left; refused only where one of them fails |
| ArtifactStore.ArtifactStore.SyncGraph | src/matchvet/artifacts.py:929-949 | afterwards every object of the graph is secure against power loss |
| ArtifactStore.ArtifactStore.PublishManifest | src/matchvet/artifacts.py:600-784 | all rows of a manifest or none; completed, every guard passed and every member was catalogued over an object with its digest and length; into a free slot go exactly the manifest, its row and its slot, and an occupied one is left alone where it holds the same manifest, verified; under private authority only into a free slot and after the whole graph is secure |
| ArtifactStore.ArtifactStore.DiscardStaging | src/matchvet/artifacts.py:524-540 | only partial files go |
| ArtifactStore.ArtifactStore.Inspect | src/matchvet/artifacts.py:422-514 | the loops report exactly the missing, corrupt and malformed rows, orphans, unreferenced rows and staging files; a row whose path is not all folders is corrupt and its manifest is not judged |
| ArtifactStore.InspectionMeans | src/matchvet/artifacts.py:422-514 | each of the six lists, in terms of the rows, folders, files and bytes that put a digest or a name on it |
| StoreRuns.HealthyIff | src/matchvet/artifacts.py:411-419 | inspection is healthy exactly when every row has its object at the end of a path of folders and no manifest row is malformed |
| StoreRuns.RunSound | src/matchvet/artifacts.py:524-784 | over every run of publications and discards, killed between any two steps: every catalogued digest has an object with its bytes, and objects, rows and slots never change |
| StoreRuns.RunHealthy | src/matchvet/artifacts.py:422-514 | so inspection reports nothing missing, corrupt or malformed in any such run |
| StoreRuns.Leftovers | src/matchvet/artifacts.py:498-514 | in a sound store every file is the object of a healthy row, a reported orphan whose bytes have its digest, or a reported partial file: interrupted work leaves nothing else |
| StoreRuns.PrivateSurvives | src/matchvet/artifacts.py:706-781 | a manifest committed under private authority keeps its row, its exact bytes and every member's row and object after any further operations, crashes and power losses |
| StoreRuns.PlainSurvivesIff | src/matchvet/artifacts.py:974-998 | after an ordinary publication the object survives every power loss if and only if each name on its path that already existed was durable, or was flushed when staging was first made |
| StoreRuns.PlainCanBeLost | src/matchvet/artifacts.py:974-998 | the condition fails in a run given step by step: a first publication's folders, writes and rename up to but without the flush of the object's folder, the same bytes published to completion, a power loss; the row stays and its object is gone |
| Filesystem.SurvivesIff | src/matchvet/artifacts.py:929-949 | a flushed file survives every power loss exactly when its name and every folder above it were flushed |
| Seal.OneShot | src/matchvet/store.py:4803-5057 | over any calls on one operation, in any order and with any repetition, whatever each finds outside: at most one selection insertion, one transmission and one receipt insertion, in this order |
| Seal.EffectsChain | src/matchvet/store.py:4803-5057 | when a commit is only reported for an insertion that landed, the effects are a beginning of the full chain, and all of it once finished: the selection over the admitted graph, the request bound to it, the receipt referring to it; without a graph no request |
| Seal.CommitHonestIff | src/matchvet/store.py:4907-4961 | call by call that condition is exact: an admitted commit reports a landed insertion if and only if nothing honest that may follow breaks the chain or finishes with less than all of it |
| Seal.RefusalIsNotTold | src/matchvet/store.py:4907-4961 | and it can fail from a fresh operation: a refused insertion spends the authority like a landed one, so reporting it as committed lets a request be sent with no selection inserted |
| SealRuns.Obtain | src/matchvet/causal_selection.py:297-359 | one call consumes a live, unsent attempt before anything is sent, transmits its request at most once, and reports exactly the reply that answers it |
| SealRuns.DriveCausal | src/matchvet/causal_selection.py:447-498 | one causal run adds nothing, or a selection, then its transmission, then the receipt; it receives exactly what an unhindered exchange yields |
| SealRuns.SealCausal | src/matchvet/causal_selection.py:425-504 | the whole call, input by input: which of the three it adds, that a receipt's event answers the request sent with its bounds in order and before the cutoff, and that a free Matchweek comes back qualified exactly when every check passed; an occupied one is returned exactly when its own selection replays, and nothing is added to it |
| SealRuns.SealUncausal | src/matchvet/matchweek_research.py:463-513 | the acknowledged path the same: it transmits nothing, and a receipt means it was acknowledged before the cutoff |
| SealRuns.HistorySettles | src/matchvet/causal_selection.py:425-504 | over all runs: a Matchweek has at most one selection and one transmission, each transmission belongs to its indexed selection, a receipt stands only with its selection, answers the request sent and was witnessed or acknowledged before its cutoff, slots never change, and a selection left without a receipt never gets one |
| Enrollment.Repository.Put | src/matchvet/cb01.py:1235-1268 | publication is append-only: same digest, same artifact, or a conflict |
| Enrollment.Repository.AttemptsFor | src/matchvet/cb01.py:1290-1308 | the retained attempts of a batch in order, refused only where they are not a chain |
| Enrollment.Repository.SendAttempt | src/matchvet/cb01.py:703-771 | the request leaves exactly when it binds the batch and trust loads; the answer is retained with its own transport, reasons and body, and the batch is published exactly when it was received and its response passes over replayed sources |
| Enrollment.Repository.DriveAttempt | src/matchvet/cb01.py:773-840 | what taking a retained attempt further comes to, input by input: without a response it is recorded unavailable and never sent; a response is verified, must verify as before, and a success is published |
| Enrollment.Repository.FinishResult | src/matchvet/cb01.py:842-1003 | publishes exactly when the received response verifies and its sources replay; never sends |
| Enrollment.Repository.PublishRecords | src/matchvet/cb01.py:1005-1093 | one record per row, then the receipt over exactly those records, unless another receipt stands |
| Enrollment.Repository.Enroll | src/matchvet/cb01.py:183-276 | sends exactly where the batch has neither publication nor attempt, its request binds and trust loads, and either one retained request can be taken up or none is retained and a fresh one can be made; the request that leaves is that of the first attempt, its answer is retained as it came, and the batch is published exactly when that answer was received and verifies; a publication or attempt found is replayed or driven instead |
| Enrollment.Repository.Resume | src/matchvet/cb01.py:278-343 | sends exactly on an explicit retry of a sole first attempt that failed, with replayed sources, fresh trust and a request that can be made; what leaves is the second attempt's request, with the answer retained and published as for the first |
| Enrollment.PublishKeeps | src/matchvet/cb01.py:1235-1247 | every admissible publication keeps the store's invariant and changes nothing retained |
| Enrollment.BatchBounds | src/matchvet/cb01.py:1290-1308 | in a valid store a batch has at most two attempts, one publication at most, and that rests on a response to an attempt of the batch that was sent |
| Enrollment.RunSettles | src/matchvet/cb01.py:183-343 | over all runs with crashes anywhere the invariant holds, each attempt is sent at most once, and one retained unsent when its run ended is never sent |
| OutcomeChain.Verifier.VerifyAttachment | src/matchvet/cb01.py:1838-1906 | on every catalog stored by content digest the memoised recursive verifier terminates and agrees with plain verification |
| OutcomeChain.Verifier.VerifyFact | src/matchvet/cb01.py:1908-1966 | and so for facts |
| OutcomeChain.AllVerify | src/matchvet/cb01.py:1838-1906 | every attachment of a valid store verifies |
| OutcomeChain.VerifiedChain | src/matchvet/cb01.py:1838-1966 | on any catalog, behind a verified attachment stands the whole chain from the first settlement: at each place its settlement and outcome, facts projected from exactly its evidence and available supplements, each naming its predecessor, and no rival |
| OutcomeChain.ChainVerifies | src/matchvet/cb01.py:1838-1966 | and whatever ends such a chain verifies |
| OutcomeChain.Repository.Attach | src/matchvet/cb01.py:523-610 | refused exactly when the request is not accepted; otherwise the fact stored has the settlement's own evidence and all that was named, and the attachment names it; a crash leaves at most the fact |
| OutcomeChain.AcceptedIff | src/matchvet/cb01.py:523-646 | a request is accepted exactly for a live published enrollment and a matching settlement that comes next, naming all of the settlement's evidence or none and otherwise only what is available, while the place holds no other fact or attachment |
| OutcomeChain.SupplementsDiffer | src/matchvet/cb01.py:612-646 | requests that name different supplements for a settlement make different facts |
| OutcomeChain.HalfAttached | src/matchvet/cb01.py:581-610 | facts left by a crash are completed only by a request selecting the same evidence, and then to the same state |
| OutcomeChain.RunChains | src/matchvet/cb01.py:523-610 | over all runs the attachments of an enrollment form one unforked chain that only gets longer; each verifies and takes its place in it |
| Retention.Repository.NotRolledBack | src/matchvet/cb01.py:1445-1525 | the floor and catalog loops accept exactly the refreshes that roll nothing back |
| Retention.AcceptableIff | src/matchvet/cb01.py:1445-1525 | these are the faithful refreshes whose four current documents stand at or above the reviewed floors 15, 799, 165 and 14 and all that is retained, agreeing where they meet either |
| Retention.Repository.Retain | src/matchvet/cb01.py:1433-1443 | retains nothing unless accepted; stopped anywhere, what it retained is a prefix of the refresh's documents and target in publication order, all of them when it completes; an accepted refresh is refused only for a digest taken by something else or, after everything is retained, for identities that do not match |
| Retention.RunRises | src/matchvet/cb01.py:1433-1525 | over all refreshes, crashes anywhere: for timestamp, snapshot and targets no version has two digests, none lies below its floor, and each document retained later is strictly above all before |
| RootConflicts.RootConsistentIff | src/matchvet/cb01.py:1433-1525 | only the last rotation is checked: an accepted refresh that published its first n documents, wherever it stopped, leaves root with one digest a version if and only if each earlier root among them agrees with what was known of its version |
| RootConflicts.RunConsistentIff | src/matchvet/cb01.py:1433-1525 | over all runs, every refresh (rotations numbered onward, as chain authentication requires) completed, refused or stopped after any document: root has one digest a version exactly when every refresh so far published such an agreeing beginning |
| RootConflicts.ReorderedRootConflicts | src/matchvet/cb01.py:1433-1525 | the condition fails with no dishonest signer: after any accepted refresh is retained completely and consistently, sending one earlier root again as other bytes for the same signed tree is authentic, accepted and retained, and root then has two digests for that version |
| RootConflicts.RootCanConflict | src/matchvet/cb01.py:1450-1455 | a run in which another root 11 on the way to the same root 15 is accepted and conflicts, wherever the second refresh stops after its first two documents |
| RootConflicts.ConflictWedges | src/matchvet/cb01.py:1489-1512 | over all runs nothing is ever retained again once root is inconsistent |
| RetainedTrust.LoadTrust | src/matchvet/cb01.py:1541-1588 | the scan for roots by version and the loop that follows the rotations find the trust of an identity exactly when it is loadable and its one selection of roots replays |
| RetainedTrust.RetainedLoads | src/matchvet/cb01.py:1541-1579 | a completely retained refresh is found again by its own identities, with exactly its own rotations, if and only if no two retained roots share a version |
| RetainedTrust.AgreeingRunLoads | src/matchvet/cb01.py:1433-1588 | so over runs of agreeing beginnings every completed refresh stays loadable whatever is retained later |
| RetainedTrust.ConflictStopsAttempts | src/matchvet/cb01.py:1546-1561 | and once two roots share a version no identity is ever loadable again: attempts already made can no longer be sent, verified or published |
| EventInterval.IntervalTightest | src/matchvet/causal_witness.py:37-64 | the interval holds every instant within the signed accuracy, and any whole-microsecond interval that does contains it (section 2.4.2 of RFC 3161) |
| EventInterval.IntervalWidth | src/matchvet/causal_witness.py:37-64 | its width is 2r or 2r+1 with 0 < r <= 10^6, 2r exactly for at most six fraction digits, within one UTC day |
| ExactUtc.CompareIsSign | src/matchvet/cb01_schema.py:402-416 | the comparison is the sign of the difference of the exact instants, whatever the fractions' lengths |
| ExactUtc.CompareOrders | src/matchvet/cb01_schema.py:402-416 | antisymmetric, and transitive across differing widths |
| ExactUtc.EqualIff | src/matchvet/cb01_schema.py:402-422 | two spellings compare equal exactly when they differ in trailing zeros at most |
| Denominator.ProductIs | src/matchvet/cb01_evaluation.py:267-297 | the denominator is the full product of memberships and preferences, in order |
| Denominator.InspectCohort | src/matchvet/cb01_evaluation.py:501-538 | the receipt loops enrol each pair at most once, or refuse a repeated or an added one |
| Denominator.EnrolIff | src/matchvet/cb01_evaluation.py:525-538 | enrolment succeeds exactly when every claimed pair is in the denominator and none is claimed twice |
| DenominatorMeaning.InspectedIff | src/matchvet/cb01_evaluation.py:501-538 | a cohort is shown exactly when no publication is selected twice and every record of a selected receipt names a pair of the denominator that no other record names |
| DenominatorMeaning.InspectedSays | src/matchvet/cb01_evaluation.py:501-641 | the row of each membership and preference is their own: it shows the record that names them, whole, and otherwise exclusion, or incompleteness with the membership's failures and reasons |
| Denominator.DenominatorConserved | src/matchvet/cb01_evaluation.py:611-641 | after receipts and failures are overlaid the units and their order and membership states are unchanged, and claims and rows carrying them correspond one to one |
| ScopeCounts.InspectScopes | src/matchvet/cb01_evaluation.py:219-241 | the subgroup loops report for each scope its included and excluded memberships, its audit pairs and its statistical pairs |
| ScopeCounts.InspectedCounts | src/matchvet/cb01_evaluation.py:217-257 | of the rows an inspection returns every scope counts its memberships once for each preference; summed over distinct scopes the counts never exceed the totals, which for all pairs is the number of memberships times that of preferences, and equal them exactly when every counted membership lies in one of the scopes |
| ScopeCounts.ScopesAddUp | src/matchvet/cb01_evaluation.py:217-257 | with distinct scopes the subgroups' membership counts never exceed the total, and equal it exactly when every counted membership lies in one of the scopes |
| ScopeCounts.CountsConserved | src/matchvet/cb01_evaluation.py:611-641 | the overlay changes no count |

## Left out

- Retention.RunRises: does not cover root, because only the last rotation is checked; RootConflicts.RunConsistentIff says over all runs exactly when root keeps one digest a version.
- StoreRuns.RunSound: does not include power losses, because an ordinary publication can lose its object; see PrivateSurvives and PlainSurvivesIff.
- TufJson.CanonicalInjective: strings are of Unicode scalar values; a lone surrogate, which the encoder raises on, has no form here.
- Oid.ParseIff: works on sequences of arcs, not on their dotted text.
- ArtifactStore.ArtifactStore.PublishObject: does not model foreign entries planted in the store's folders, symbolic links, the link-then-unlink fallback of the rename, or input and output errors other than a crash.
- ArtifactStore.ArtifactStore.DiscardStaging: does not model sub-folders of staging.
- Seal.OneShot: does not model threads, process identity, callbacks that borrow the operation, or a witness attempt whose construction fails.
- Enrollment.Repository.Enroll: does not model failure artifacts; the source replay is an input, and so is whether trust loads (see RetainedTrust).
- TufRoles.Authenticate: leaves out expiry and the clock; the TrustedRoot's own content, its endpoint and certificates, is an input.
- RetainedTrust.LoadTrust: the checks of the request's own metadata come first and are not modelled; verifying the bytes found and comparing the replayed identity are an input.
- OwnerHistory.History: leaves out the signature over each record and its JSON form, which are inputs.
- Finalists.Compare: the strength of one finalist on one draw is an input, as is whether the identities agree.
- Decision.Resolve: the gate outcomes G0 to G8 are inputs, and rows keep only their identity and terminal result.
- Denominator.InspectCohort: the admission of receipts and the classification of failures are inputs; outcome attachments are not laid on rows.
- The certificate, CMS and response parsing, the HTTP transport, OpenSSL and curl calls, commands, doctor and report printing.
- The field validators of each CB01 artifact kind and the dictionary conversions of the data classes, each settled by one branch.
- The admission of research graphs, sources and candidates, which are equality checks against repositories.
