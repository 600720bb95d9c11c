# Verified model of ETLantic's evidence tools

This project models the parts of the ETLantic repository that decide whether release evidence is
believed, and proves what those decisions guarantee. The code modelled is Python under `scripts/`, one
example under `examples/` and one producer under `src/`; each Dafny module below follows one component of it. Code that works by
changing things step by step (hook methods, accumulating loops, byte-offset parsers, the
crash-and-retry consumer) is imperative Dafny proved against a specification function, and what the
repository promises is then proved about that function.

| module | component |
|---|---|
| `TreeDigest` | the byte-level reader of `git ls-tree -z` and `git cat-file --batch`, and the generator's digest it has to equal |
| `TreePreimage` | what the hashed pre-image of a tree tells about it, and when the two digests are equal |
| `VersionPattern`, `VersionRewriter`, `VersionOrder` | the release script's boundary-guarded version rewriter, and the ordering guard and choice of files in front of it |
| `VersionMentions`, `VersionIdempotence` | what the rewriter's literal replacements leave behind, and when a second run changes nothing |
| `VersionUntouched` | which texts the rewriter leaves alone, character by character |
| `ManagedConsumer` | the managed consumer's register/checkpoint/validate/plan/review/submit protocol, over runs of crashes and retries |
| `ConsumerArguments` | what the consumer sends, read off the spec file and the answers, and when it gets as far as a submission |
| `SchemaFields`, `SchemaDerivations` | the recursive schema walk over a possibly cyclic component graph |
| `SchemaMeaning` | what the walk emits for each part of a schema, read off the JSON document |
| `SchemaReferences` | collection and resolution of JSON Pointers (sections 3 and 4 of RFC 6901) |
| `PyrightBaseline` | the text hashed for the strict type-checking baseline |
| `LoweringBinding`, `Placement`, `Pushdown` | the portable 0.50 checker's group-by, node-by-target matrix, selection, and pushdown matrix |
| `PushdownProducer` | the compilers and the generator loop that produce what the pushdown check reads |
| `AdaptiveEvidence`, `AdaptiveIndex`, `AdaptiveOutcomes` | the adaptive 0.54 evidence: pytest plugin, observation, category records, aggregated index, verifier |
| `InferenceCollector`, `InferenceCampaign`, `InferenceVerifier`, `InferenceQualification` | the inference 0.55 gate campaign: pytest plugin, gate processes and records, verifier, and what links them |
| `Sorting`, `PyText`, `Json` | shared vocabulary: `sorted`, string operations, JSON objects |

Modelling conventions. SHA-256 is injective: a digest is its pre-image, or a constructor around it.
Bytes are strings of characters with codes below 256. JSON objects are member lists in document order
(in key order for the consumer's spec, the order it writes), or typed records where a checker closes the
key set. A Python exception or `SystemExit` is `None`, `Raised` or `false`. Git, the file system, HTTP, subprocesses and clocks are parameters: their bytes,
results and readings are inputs, adversarial unless a lemma says they are honest. A pytest run is an
arbitrary sequence of hook calls.

Results worth knowing before reading further:

- The index verifier's test that all nine cells are present can never fire: nine accepted references
  already have nine distinct cells out of nine (`AdaptiveIndex.VerifyIndex`, where it is a dead branch).
- A campaign that passes on a clean tree is not always accepted by the verifier of the same script. The
  exact conditions are `InferenceQualification.PassingCampaignAcceptedExactly`; among them: a readable
  lockfile, distinct finding ids within each gate that runs pytest, and no finding on the gate that runs
  none, unless it prints a marker line itself.
  `UnreadableLockIsRefused` gives a campaign that passes and is refused.
- An accepted campaign covers every ledger finding if and only if no two findings of one gate share an
  id and differ in their test (`AcceptedFindingsCoveredExactly`, with the witness
  `SharedIdHidesAFinding`, a whole accepted campaign): a later finding overwrites the earlier one's expectation.
- The consumer checkpoints any non-empty revision but refuses a blank one when it loads the file again,
  so a service that returns a blank revision ends every later attempt (`ManagedConsumer.ResumesUnlessBlank`,
  `BlankRevisionEndsTheRun`, with the witness `BlankRevisionArises`).
- The schema walk does not unescape component names, so it agrees with the JSON Pointer of a one-name
  reference exactly when the name holds neither `~0` nor `~1` (`WalkAgreesWithPointerExactly`).
- From a non-negative offset the batch parser advances exactly when the declared size is at least -1, so
  on adversarial output a frame can move it backwards (`TreeDigest.AcceptedFrameAdvances`).
  `OffsetCanMoveBack` is a whole accepted run that goes back from 19 to 9, and `AcceptedUnframed` the
  smallest accepted output that is not its frames. The loop still terminates.
- The release rewrite between two minor lines is idempotent if and only if the old version is a `.0` or the
  text holds no two quoted old minors that share a quote (`VersionIdempotence.RewriteTwiceExactly`, with
  the witness `SharedQuoteIsNotIdempotent`).
- The argument check of the release script admits digits outside ASCII, and the rewrite then can leave the
  old version standing. It never does if and only if the new version does not begin with the old one, or
  with its end, followed by such a digit (`VersionPattern.VersionGoneExactly`, `ForeignDigitKeepsTheOldVersion`).
- The hashed pre-image separates paths and contents by NULs and writes no lengths, so a content with NULs
  can look like a separator. Over given paths it determines the contents if and only if no content holds
  the look-alike of a separator beside it (`TreePreimage.TellsApartExactly`, with the witness
  `NulContentsAreAmbiguous`). That is also the exact condition, on the commit alone, for the two digests
  to agree only on matching checkouts (`DigestsAgreeExactly`).
- A document passes the reference check and still lets the walk fall to its empty default exactly for
  names with an escape sequence (`SchemaReferences.ReferencesHaveComponentsExactly`).
- The pushdown check accepts what the compilers and the generator produce if and only if every compiler
  fits the contract and every native run left its digests, and accepts a finding only if it is alike to a
  produced one (`PushdownProducer.GeneratedFindingsAcceptedExactly`, `AcceptedFindingIsProduced`).
- The two evidence verifiers accept exactly what a run can write: an observation if and only if some
  passing session leaves it (`AdaptiveOutcomes.AcceptedExactlyRuns`), and a gate record if and only if
  some run does, up to a duration and two byte counts that nothing checks
  (`InferenceQualification.AcceptedRecordIsARun`).

## Model

| member | source | states |
|---|---|---|
| TreeDigest.QualifiedSourceTreeDigest | scripts/check_portable_0_50.py:279-322 | the imperative parser, over any listing and any batch output, returns exactly the specified digest or the specified failure |
| TreeDigest.HashBlobs | scripts/check_portable_0_50.py:301-322 | the offset loop hashes the frames it recovers in order, and fails on any bad header, size, framing or trailing data |
| TreeDigest.HonestFrame | scripts/check_portable_0_50.py:302-319 | one frame is read back exactly wherever it stands and whatever newlines, NULs or header look-alikes its content holds |
| TreeDigest.RecordParsesExactly | scripts/check_portable_0_50.py:286-290 | a record parses to an entry if and only if it is the entry's three fields, a tab and its path |
| TreeDigest.ListingAcceptedExactly | scripts/check_portable_0_50.py:285-293 | a listing is accepted if and only if each record is empty or parses, and exactly the blobs outside the evidence are kept |
| TreeDigest.GitIsHonest | scripts/check_portable_0_50.py:296-302 | for every store there is a git that answers each list of stored ids with their objects, in order |
| TreeDigest.BatchIsAnswered | scripts/check_portable_0_50.py:296-302 | what the checker sends makes such a git answer with one frame for each entry, in the entries' order |
| TreeDigest.ParserRecoversEveryBlob | scripts/check_portable_0_50.py:279-322 | with such a git, every set of tracked entries and contents is parsed into exactly each path with its content |
| TreeDigest.AcceptedFrameAdvances | scripts/check_portable_0_50.py:303-319 | on any output and from any offset, negative ones included, an accepted frame moves the offset forward if and only if its declared size is at least -1, less the length of the output when the offset counts from the end |
| TreeDigest.OffsetCanMoveBack | scripts/check_portable_0_50.py:302-321 | a whole run from offset 0 that is accepted although a frame moves the offset from 19 back to 9 |
| TreeDigest.AcceptedOutputIsFramedExactly | scripts/check_portable_0_50.py:302-321 | accepted output is exactly its frames back to back, each size that of its content, if and only if no declared size is negative |
| TreeDigest.AcceptedUnframed | scripts/check_portable_0_50.py:302-321 | an accepted output that is not its frames back to back |
| TreeDigest.SourceTreeDigest | scripts/generate_portable_0_50_evidence.py:1101-1114 | the generator's loop returns exactly the digest specified for the listing and the files |
| TreeDigest.SamePaths | scripts/check_portable_0_50.py:285-296 | on a checkout, sorting pairs and filtering yields the same paths in the same order as the generator's sorted, filtered names |
| TreeDigest.CheckerAgreesWithGenerator | scripts/generate_portable_0_50_evidence.py:1101-1114 | on a checkout whose files hold their blobs' bytes, checker and generator hash the same pre-image |
| TreePreimage.PreimageInjective | scripts/check_portable_0_50.py:315-318 | for NUL-free paths and contents the pre-image determines the list of blobs |
| TreePreimage.CountTellsApartExactly | scripts/check_portable_0_50.py:315-318 | among all lists of as many blobs, whatever their NUL-free paths, the pre-image determines the list if and only if its contents are NUL-free or there is at most one |
| TreePreimage.SeparatedTellsApart | scripts/check_portable_0_50.py:315-318 | over the same NUL-free paths, two lists with one pre-image are equal if one of them holds no look-alike separator |
| TreePreimage.LookAlikeReadsOtherwise | scripts/check_portable_0_50.py:315-318 | every look-alike separator gives other contents over the same paths with the same pre-image |
| TreePreimage.TellsApartExactly | scripts/check_portable_0_50.py:315-318 | so over its NUL-free paths a list is determined by its pre-image if and only if no content holds the look-alike of a separator beside it |
| TreePreimage.NulFreeIsSeparated | scripts/check_portable_0_50.py:315-318 | NUL-free contents hold no look-alike |
| TreePreimage.NulContentsAreAmbiguous | scripts/check_portable_0_50.py:315-318 | two trees over the same paths, with NULs in their contents, that have one pre-image |
| TreePreimage.DigestsAgreeExactly | scripts/check_portable_0_50.py:279-322 | on every checkout the two digests are equal exactly when every qualified file holds its blob's bytes, if and only if no tracked content holds a look-alike separator |
| VersionPattern.HitCleans | scripts/bump_version.py:92-96 | replacing the first match leaves no match that begins in front of or inside the replacement, across either edge |
| VersionPattern.NoOldVersionSurvives | scripts/bump_version.py:92-96 | for every new version the argument check admits that does not bring the old one back, no bounded occurrence of the old version is left anywhere in any text |
| VersionPattern.VersionGoneExactly | scripts/bump_version.py:92-96 | and that condition, on the two versions alone, is exact |
| VersionPattern.ForeignDigitKeepsTheOldVersion | scripts/bump_version.py:151-152 | an admitted new version, with an Arabic-Indic digit, after which the text `0.5.1` still holds 0.5.1 |
| VersionPattern.SubstituteTwiceExactly | scripts/bump_version.py:92-96 | a second substitution changes no text if and only if the new version does not bring the old one back |
| VersionPattern.OnlyHitsChange | scripts/bump_version.py:92-96 | one list of kept characters and hits renders to the input with the old version and to the output with the new one |
| VersionRewriter.ReplaceVersion | scripts/bump_version.py:89-102 | the whole rewrite equals its specification, and unless the new version brings the old one back no bounded occurrence of the old one is left after all of its steps |
| VersionRewriter.MinorSwapClean | scripts/bump_version.py:97-101 | exchanging one minor for another between the marks the script requires creates no bounded old version |
| VersionRewriter.ReplaceStaysClean | scripts/bump_version.py:99-100 | a whole pass of literal replacements between such marks keeps a text free of the old version |
| VersionRewriter.MarkersStayClean | scripts/bump_version.py:77-86 | and so do the marker rewrites |
| VersionMentions.PassLeavesNone | scripts/bump_version.py:99-100 | a pass of literal replacements leaves no mention of the old minor when no two mentions overlap |
| VersionMentions.PinsAreApartExactly | scripts/bump_version.py:100 | quoted minors overlap if and only if two of them share a quote |
| VersionIdempotence.PinsAfterPass | scripts/bump_version.py:100 | the pass over quoted minors leaves one if and only if two of them shared a quote |
| VersionIdempotence.MarkerPassLeavesNone | scripts/bump_version.py:80-84 | the marker rewrite leaves no line-start marker of the old minor, in any text and for any white space in the marker |
| VersionIdempotence.FirstRun | scripts/bump_version.py:89-102 | what one run leaves: no old version, floor, boundary or marker, and a quoted old minor if and only if the input held two that share a quote and the old patch is not 0 |
| VersionIdempotence.RewriteTwiceExactly | scripts/bump_version.py:89-102 | between two minor lines a second run changes nothing if and only if the old patch is 0 or the input holds no two quoted old minors that share a quote |
| VersionIdempotence.PatchRewriteTwice | scripts/bump_version.py:89-102 | within a minor line a second run never changes anything |
| VersionIdempotence.SharedQuoteIsNotIdempotent | scripts/bump_version.py:100 | a text that a second run from 0.5.1 to 0.6.0 changes again |
| VersionUntouched.CleanExactly | scripts/bump_version.py:92-95 | a text holds no match if and only if every occurrence of the version stands behind a letter or digit other than a bounded `v`, or in front of a letter, digit, `_`, `+`, `-`, or a dot and a digit |
| VersionUntouched.SubstituteUntouchedExactly | scripts/bump_version.py:92-96 | the substitution leaves a text as it is if and only if that holds |
| VersionUntouched.HitsExactly | scripts/bump_version.py:92-96 | the positions that are replaced are exactly the occurrences that are not refused |
| VersionUntouched.WheelNamesAreLeftAlone | scripts/bump_version.py:94 | an occurrence in front of a hyphen is refused |
| VersionUntouched.RewriteUntouchedExactly | scripts/bump_version.py:89-102 | between two minor lines the whole rewrite leaves a text as it is if and only if also no floor, quoted pin, line-start marker or boundary of the old minor is in it |
| VersionUntouched.PatchUntouchedExactly | scripts/bump_version.py:89-102 | within a minor line only the occurrences of the version decide |
| VersionOrder.VersionsAreOrdered | scripts/bump_version.py:155-160 | of two canonical versions exactly one precedes the other, unless they are the same text |
| VersionOrder.ReleasesNeverReturn | scripts/bump_version.py:155-160 | along any sequence of releases that passed the guard, in whatever digits, no earlier version comes back |
| VersionOrder.ForeignDigitPassesTheGuard | scripts/bump_version.py:151-160 | the admitted version that leaves 0.5.1 standing also passes the guard |
| VersionOrder.Bump | scripts/bump_version.py:154-190 | nothing happens unless the new version is greater; then a version surface is free of the old version unless the new one brings it back, neither it nor a page below `docs` keeps a marker of an old minor, and any other file is unchanged |
| ManagedConsumer.Consumer.DriveRevision | examples/managed_consumer_0_56.py:198-230 | dying after any number of effects, driving a revision leaves exactly that prefix of its specified effects and the file untouched |
| ManagedConsumer.Consumer.RegisterAndDrive | examples/managed_consumer_0_56.py:179-196 | registration is followed by the checkpoint of the returned revision before anything is driven, for every crash point |
| ManagedConsumer.Consumer.Consume | examples/managed_consumer_0_56.py:252-322 | one attempt, for every crash point: the effects and the file it leaves |
| ManagedConsumer.Retry | examples/managed_consumer_0_56.py:252-322 | a run of attempts over one file leaves exactly the specified trace |
| ManagedConsumer.SubmissionsArePrepared | examples/managed_consumer_0_56.py:198-227 | every submission follows an ok validation, an ok plan and any configured review of its revision in the same attempt |
| ManagedConsumer.CheckpointPins | examples/managed_consumer_0_56.py:307-311 | a checkpoint puts exactly the registered revision into the file and keeps definition, key and request |
| ManagedConsumer.EveryRunIsSafe | examples/managed_consumer_0_56.py:174-227 | over every run against any server: no registration follows a checkpoint, at most one revision is checkpointed, and every submission carries the file's definition, key and request with the pinned or checkpointed revision |
| ManagedConsumer.SubmissionsAgree | examples/managed_consumer_0_56.py:222-227 | any two submissions of a run carry the same definition, revision, key and request |
| ManagedConsumer.AtMostOneRun | examples/managed_consumer_0_56.py:222-227 | so a key-deduplicating server starts at most one run, however often the consumer crashes and retries |
| ManagedConsumer.ResumesUnlessBlank | examples/managed_consumer_0_56.py:174-196 | a checkpointed file can still lead to a submission if and only if the revision is not blank |
| ManagedConsumer.BlankRevisionEndsTheRun | examples/managed_consumer_0_56.py:174-196 | if the registration answers with a blank revision it is checkpointed, and no later attempt does anything |
| ManagedConsumer.BlankRevisionArises | examples/managed_consumer_0_56.py:187-193 | a spec and a service with which that happens |
| ManagedConsumer.CheckpointsAreInKeyOrder | examples/managed_consumer_0_56.py:307-311 | over any run every checkpoint is written in key order, so what is read back is the mapping held |
| ConsumerArguments.AttemptArguments | examples/managed_consumer_0_56.py:160-230 | every effect of an attempt carries the file's `definition_id`, `idempotency_key` and `request`, the registered document is the spec's or the definition file's, and answers are the service's |
| ConsumerArguments.RunArguments | examples/managed_consumer_0_56.py:160-227 | over every run every effect carries the values of the file the run started from |
| ConsumerArguments.RunRegistersTheDocument | examples/managed_consumer_0_56.py:174-187 | over every run every registration carries that file's document, or a definition file read in one of the attempts |
| ConsumerArguments.CheckpointIsTheAnswer | examples/managed_consumer_0_56.py:187-196 | a checkpoint follows the registration and holds the revision its answer named |
| ConsumerArguments.SubmitsExactly | examples/managed_consumer_0_56.py:160-227 | an attempt submits a revision if and only if the spec is well formed, the revision is the file's or freshly registered and checkpointed, and validation, plan and any review go through for it |
| SchemaFields.ActionsBelow | scripts/check_phase_0_56_control_coverage.py:302-348 | every schema the walk descends into is strictly smaller, the second half of its termination measure |
| SchemaFields.RefShrinks | scripts/check_phase_0_56_control_coverage.py:289-300 | following a component reference uses up a component name not yet seen, the first half of the measure |
| SchemaFields.CollectVariants | scripts/check_phase_0_56_control_coverage.py:302-313 | the variant loop collects exactly the specified fields |
| SchemaFields.CollectProperties | scripts/check_phase_0_56_control_coverage.py:317-328 | the property loop emits each field in front of the fields of its schema |
| SchemaFields.CollectBody | scripts/check_phase_0_56_control_coverage.py:315-337 | properties if there are any, otherwise the item schema |
| SchemaFields.CollectAdditional | scripts/check_phase_0_56_control_coverage.py:338-348 | the dynamic-map field and the fields of its schema |
| SchemaFields.Collect | scripts/check_phase_0_56_control_coverage.py:281-349 | the recursion with a local list terminates on every component graph, cyclic ones included, and returns the walk's fields in order, or raises where the walk faults |
| SchemaMeaning.WalkSpelledOut | scripts/check_phase_0_56_control_coverage.py:302-348 | a schema's walk is its three variant lists, then its properties, or else items, and its additional properties, in document order, with path, required flag and type read off the JSON members |
| SchemaMeaning.PropertyIsEmitted | scripts/check_phase_0_56_control_coverage.py:318-327 | every property yields a field at its name below the prefix, required if and only if `required` lists it, with its `type`, else `ref`, else `object` |
| SchemaMeaning.FollowsExactly | scripts/check_phase_0_56_control_coverage.py:287-289 | a schema stands for a component if and only if its `$ref` is a text below `#/components/schemas/`, and then for the last part's |
| SchemaMeaning.ReferenceSpelledOut | scripts/check_phase_0_56_control_coverage.py:286-300 | the walk of such a schema is that of the component under the same prefix, nothing when it is missing or being followed |
| SchemaMeaning.NoObjectFails | scripts/check_phase_0_56_control_coverage.py:287 | what is no object makes the walk fail |
| SchemaMeaning.OutcomeExactly | scripts/check_phase_0_56_control_coverage.py:281-349 | the result is the list of the walk's fields, in order, or an exception if and only if one of its items is a fault |
| SchemaDerivations.WalkIsDerived | scripts/check_phase_0_56_control_coverage.py:281-349 | every emitted field has a derivation that follows no component twice, and its path is the left fold of the derivation's segments from the prefix |
| SchemaDerivations.DerivedIsWalked | scripts/check_phase_0_56_control_coverage.py:281-349 | and every such derivation's field is emitted |
| SchemaDerivations.EmittedExactlyWhenDerived | scripts/check_phase_0_56_control_coverage.py:281-349 | a field is emitted if and only if it has such a derivation |
| SchemaDerivations.EachDerivationOnce | scripts/check_phase_0_56_control_coverage.py:281-349 | each derivation contributes exactly one position of the walk, in the order of the derivations' steps, so equal fields of different derivations are counted too |
| SchemaDerivations.SeenOnlyDrops | scripts/check_phase_0_56_control_coverage.py:286-300 | enlarging `seen` only drops fields and keeps the order of the rest |
| SchemaDerivations.AcyclicWalkUnfolds | scripts/check_phase_0_56_control_coverage.py:289-300 | on an acyclic component graph the `seen` cut never fires: the walk equals plain unfolding of all references |
| SchemaReferences.VisitInto | scripts/qualify_phase056_packages.py:134-145 | the nested visitor appends exactly the references of its value |
| SchemaReferences.VisitCollectsEachOnce | scripts/qualify_phase056_packages.py:134-147 | the references are collected at every position that has one, each position once, in document order |
| SchemaReferences.UnescapeEscape | scripts/qualify_phase056_packages.py:153 | `~1` before `~0` undoes the escape of section 3 of RFC 6901 on every key |
| SchemaReferences.PointerResolves | scripts/qualify_phase056_packages.py:148-157 | any non-empty list of keys is reached by the pointer that names it |
| SchemaReferences.Resolves | scripts/qualify_phase056_packages.py:148-157 | the navigation loop succeeds if and only if the reference leads to an existing subtree |
| SchemaReferences.ValidateSchemaReferences | scripts/qualify_phase056_packages.py:131-158 | acceptance if and only if every reference resolves, with the number of references as result |
| SchemaReferences.PlainRefsHaveComponents | scripts/check_phase_0_56_control_coverage.py:289-297 | in an accepted document no plain one-name component reference falls to the walk's empty default |
| SchemaReferences.ReferencesHaveComponentsExactly | scripts/check_phase_0_56_control_coverage.py:289-297 | no accepted document lets a one-name reference fall to the walk's empty default if and only if the name holds no escape sequence |
| SchemaReferences.WalkAgreesWithPointerExactly | scripts/check_phase_0_56_control_coverage.py:291-297 | walk and pointer agree on a one-name reference in every document if and only if the name holds no escape sequence |
| PyrightBaseline.EscapeTextDecodes | scripts/check_pyright_strict.py:209-216 | an ASCII-escaped JSON string is uniquely decodable up to its closing quote, whatever follows it |
| PyrightBaseline.FingerprintInjective | scripts/check_pyright_strict.py:203-219 | different (path, rule, message) have different fingerprints |
| PyrightBaseline.DiagnosticFingerprints | scripts/check_pyright_strict.py:203-219 | the loop returns the sorted fingerprints of the reported identities |
| PyrightBaseline.JoinInjective | scripts/check_pyright_strict.py:268-269 | the newline join of fingerprints is uniquely splittable |
| PyrightBaseline.BaselineIsTheMultiset | scripts/check_pyright_strict.py:268-269 | the hashed text of two reports is equal if and only if their multisets of (path, rule, message) are, whatever order and coordinates |
| LoweringBinding.ValidateLoweringBinding | scripts/check_portable_0_50.py:825-884 | acceptance if and only if the evidence is complete and the declared list is the group-by of the lowered requirements in some order; a singular lowering forces exactly one group |
| LoweringBinding.GroupByUnique | scripts/check_portable_0_50.py:845-866 | two group-bys of the same requirements are permutations of each other |
| LoweringBinding.GroupByPermutes | scripts/check_portable_0_50.py:867-884 | every permutation of a group-by is one |
| LoweringBinding.ExactlyOneRecord | scripts/check_portable_0_50.py:845-866 | each lowered requirement lies in exactly one record |
| LoweringBinding.VerdictIgnoresOrder | scripts/check_portable_0_50.py:832-844 | the verdict is the same for every order of the requirements |
| LoweringBinding.AcceptedExactly | scripts/check_portable_0_50.py:825-884 | acceptance, record by record: each lists, sorted, exactly the lowered requirements whose complete finding it quotes field by field, all of them are listed, and a singular lowering is the only record |
| Placement.BindTarget | scripts/check_portable_0_50.py:887-910 | binds exactly the evidence-backed targets that are new for their node, and records them |
| Placement.CheckMatrix | scripts/check_portable_0_50.py:1384-1472 | candidate loop, node count and matrix check together accept if and only if two nodes are listed and the candidates fill the grid of all nodes and one common target set, once each |
| Placement.MatrixCovered | scripts/check_portable_0_50.py:913-924 | the matrix check, given the loop's table, decides exactly that |
| Placement.AcceptedCandidatesAreTheGrid | scripts/check_portable_0_50.py:913-924 | accepted candidates number nodes times targets and each cell has exactly one |
| Placement.ByIdentity | scripts/check_portable_0_50.py:943-955 | the dictionary exists if and only if no (node, id) repeats, and then maps each to its candidate |
| Placement.ValidateSelection | scripts/check_portable_0_50.py:927-983 | acceptance if and only if nodes and identities are distinct and every node's choice is absent, or names a candidate of that node, as the graph's validity demands |
| Placement.ValidGraphSelectsEveryNode | scripts/check_portable_0_50.py:968-983 | on a valid graph the selection is a total map from the nodes to unique eligible candidates of those nodes |
| Placement.ScalarMeansSingleton | scripts/check_portable_0_50.py:957-966 | for one node the scalar and the one-entry dictionary get the same verdict |
| Placement.SelectionStaysOnTheGrid | scripts/check_portable_0_50.py:1472-1498 | with all checks accepting, every choice is a scored cell of the grid in its node's row |
| Placement.SeveralNodesNeedADictionary | scripts/check_portable_0_50.py:1467-1498 | behind the node count only dictionaries are accepted as selections, over exactly nodes times targets candidates |
| Pushdown.ScanFindings | scripts/check_portable_0_50.py:618-702 | the loop accepts if and only if every finding agrees with the frozen contract and no key repeats, and gathers keys, required proofs and fingerprints |
| Pushdown.CheckFindings | scripts/check_portable_0_50.py:587-713 | the findings half accepts if and only if the findings fill the matrix and one fingerprint per engine makes up the recorded evidence |
| Pushdown.PrintsExactly | scripts/check_portable_0_50.py:703-713 | the three set tests hold if and only if the fingerprints form such a function on the engines |
| Pushdown.MatrixIsBijective | scripts/check_portable_0_50.py:607-616 | there is exactly one finding for each engine, boundary and action, with outcome and obligation fixed by that key |
| Pushdown.FingerprintsTellEnginesApart | scripts/check_portable_0_50.py:703-706 | seven singletons whose union has seven elements: no two engines share a fingerprint |
| Pushdown.CheckProofs | scripts/check_portable_0_50.py:715-798 | the proof loop accepts exactly complete native proofs and none for host engines, and gathers their keys |
| Pushdown.ProofsMatchRequired | scripts/check_portable_0_50.py:799-803 | accepted proofs correspond one to one with the required findings |
| Pushdown.DigestsAreHex | scripts/check_portable_0_50.py:630-634 | the digests accepted are exactly the hexadecimal texts of 32 bytes |
| Pushdown.ValidatePushdownFindings | scripts/check_portable_0_50.py:575-822 | the whole verdict, for every contract: boundary inventory, findings, native proofs, attestations and the SQLite execution record |
| PushdownProducer.HostPushdownFindings | src/etlantic/transform/compiler.py:792-821 | the loop reports three findings for each action, none of them claiming anything |
| PushdownProducer.RelationalPushdownFindings | src/etlantic/transform/compiler.py:824-886 | the loop reports two boundaries outside the plan and one required finding for each action, supported or not |
| PushdownProducer.RecordPushdown | scripts/generate_portable_0_50_evidence.py:1376-1394 | the generator records each finding under its engine, and for each required one a proof entry and the reference to it |
| PushdownProducer.AcceptedFindingIsProduced | scripts/check_portable_0_50.py:618-702 | the checker accepts a finding if and only if it is alike to one the fitting compiler of its engine produces |
| PushdownProducer.GeneratedFindingsAcceptedExactly | scripts/check_portable_0_50.py:587-713 | the findings half accepts what the compilers of all engines produce if and only if each fits the contract and their fingerprints are distinct digests |
| PushdownProducer.ProofsAcceptedExactly | scripts/check_portable_0_50.py:722-798 | the recorded proofs of a fitting compiler are accepted if and only if its native run stayed native and left a digest of everything |
| PushdownProducer.SqliteAcceptedExactly | scripts/check_portable_0_50.py:804-822 | the SQLite record is accepted if and only if it holds both digests, no host fallback, and one digest of each kind for each action |
| PushdownProducer.FrozenContractFitsTheCompilers | scripts/generate_portable_0_50_evidence.py:673-870 | the frozen contract names the actions of the generator's plan in its order, and the first-party compilers fit it |
| AdaptiveEvidence.CategoryRecords | scripts/adaptive_0_54_evidence.py:417-438 | one record for each category, holding the statuses of its cases |
| AdaptiveEvidence.CategoryAcceptedExactly | scripts/adaptive_0_54_evidence.py:82-104 | for a valid observation the validator accepts a category record if and only if it is the record the producer writes |
| AdaptiveEvidence.CategoryPassesExactly | scripts/adaptive_0_54_evidence.py:420-436 | over any cases, a category record passes if and only if the last case of each of its ids passed, and it lists exactly those ids |
| AdaptiveEvidence.CategoryStatuses | scripts/adaptive_0_54_evidence.py:417-438 | it holds the status of the last case of each id, `missing` where there is none, and says pass or fail |
| AdaptiveEvidence.IdentityExactly | scripts/adaptive_0_54_evidence.py:38-45 | an identity is a text of 1 to 4096 characters without control characters |
| AdaptiveEvidence.AcIdReadsBack | scripts/adaptive_0_54_evidence.py:130-133 | an acceptance-criterion id is `AC-` and three digits that say its number |
| AdaptiveEvidence.ValidateCatalogue | scripts/adaptive_0_54_evidence.py:107-159 | the catalogue's checks, in their order, accept exactly the valid catalogues |
| AdaptiveEvidence.ValidateObservation | scripts/adaptive_0_54_evidence.py:162-272 | the observation's checks, in their order, accept exactly the valid observations and return the cell |
| AdaptiveEvidence.ValidateCategory | scripts/adaptive_0_54_evidence.py:82-104 | so do the checks on a category record |
| AdaptiveEvidence.ValidateReference | scripts/adaptive_0_54_evidence.py:309-345 | and those on one reference of the index, its file, its observation, the category files beside it and its CI provenance |
| AdaptiveEvidence.RelativeExactly | scripts/adaptive_0_54_evidence.py:275-288 | a location is refused if and only if it is no identity, absolute, holds a backslash or colon, or has a `..` part |
| AdaptiveEvidence.PathNamesAFile | scripts/adaptive_0_54_evidence.py:275-288 | empty and dot parts do not change the file a location names |
| AdaptiveEvidence.SiblingIsBeside | scripts/adaptive_0_54_evidence.py:325-328 | a category file stands beside its observation |
| AdaptiveIndex.VerifyIndex | scripts/adaptive_0_54_evidence.py:291-356 | acceptance if and only if header, references, distinct files, distinct cells and one provenance hold; the test for missing cells is dead |
| AdaptiveIndex.AcceptedCellsAreExact | scripts/adaptive_0_54_evidence.py:342-355 | each of the nine cells has exactly one accepted observation |
| AdaptiveIndex.AcceptedObservationsAgree | scripts/adaptive_0_54_evidence.py:345-355 | all accepted observations share commit, tree and CI run, and each has every frozen case passing |
| AdaptiveIndex.VerdictIgnoresOrder | scripts/adaptive_0_54_evidence.py:309-356 | the verdict is the same for every order of the references |
| AdaptiveIndex.VerifyQualification | scripts/adaptive_0_54_evidence.py:365-384 | succeeds exactly on accepted indexes; a row's evidence is then exactly the references' digests and the artifacts, in any observation, of the categories that list every case of the row |
| AdaptiveIndex.UncoveredRowHasExactlyNine | scripts/adaptive_0_54_evidence.py:373-379 | a row that no category covers has exactly the nine references' digests |
| AdaptiveIndex.RowHasNine | scripts/adaptive_0_54_evidence.py:373-379 | nine observations of nine cells are nine different files, so a row's set has at least nine elements |
| AdaptiveIndex.AggregateIsAccepted | scripts/adaptive_0_54_evidence.py:387-414 | the index built over nine honest observations, found in any order, is accepted |
| AdaptiveOutcomes.Outcomes.CollectionFinish | scripts/check_adaptive_0_54.py:168-169 | the collected ids become the sorted listing, and nothing else changes |
| AdaptiveOutcomes.Outcomes.CollectReport | scripts/check_adaptive_0_54.py:171-173 | a failed collection is remembered for good, and nothing else changes |
| AdaptiveOutcomes.Outcomes.RuntestLogReport | scripts/check_adaptive_0_54.py:175-179 | exactly one (test, phase) entry gets the outcome, or xpass or xfail |
| AdaptiveOutcomes.Outcomes.Records | scripts/check_adaptive_0_54.py:181-191 | one case for each collected id, in order |
| AdaptiveOutcomes.Outcomes.Session | scripts/check_adaptive_0_54.py:160-191 | any sequence of hook calls leaves the state its fold specifies |
| AdaptiveOutcomes.RunRemembersTheLast | scripts/check_adaptive_0_54.py:160-179 | the state is the last listing, the last status of each (test, phase), and whether any collection failed |
| AdaptiveOutcomes.ReportsAreRemembered | scripts/check_adaptive_0_54.py:175-179 | a report with `wasxfail` is remembered as xpass or xfail, any other as its own outcome |
| AdaptiveOutcomes.OrderIsImmaterialExactly | scripts/check_adaptive_0_54.py:160-179 | every reordering of a run leaves the same state if and only if no (test, phase) is reported with two statuses and no two listings differ |
| AdaptiveOutcomes.RecordsIgnoreInterleaving | scripts/check_adaptive_0_54.py:181-191 | a run that reports each (test, phase) at most once writes the same records in every interleaving |
| AdaptiveOutcomes.PassesExactly | scripts/check_adaptive_0_54.py:181-191 | a test passes if and only if its setup, call and teardown were each last reported passed, without xfail, and no other phase was reported |
| AdaptiveOutcomes.PassedMeansFrozenCases | scripts/check_adaptive_0_54.py:206-216 | the pass decision holds if and only if pytest and collection succeeded, the source did not change, and the cases are every frozen case, in order, passing |
| AdaptiveOutcomes.Execute | scripts/check_adaptive_0_54.py:194-267 | exits 0 exactly when also the surroundings are supported; the record then passes validation and each category record is accepted, otherwise it says fail; it always holds the surroundings, return code and source revisions of the run |
| AdaptiveOutcomes.AcceptedExactlyRuns | scripts/adaptive_0_54_evidence.py:162-272 | the validator accepts a record if and only if some session over the frozen cases that passes the decision, in supported surroundings, writes it |
| AdaptiveOutcomes.ExecutedRunIsHonest | scripts/check_adaptive_0_54.py:260-267 | a passing run in a clean checkout whose CI run says all about itself, written to a directory, is one of the honest observations the aggregate theorem speaks of |
| InferenceCollector.OutcomeCollector.RuntestLogReport | scripts/check_inference_0_55.py:561-567 | a report adds its test to exactly one of failed, skipped and ended, or to none |
| InferenceCollector.OutcomeCollector.FindingResults | scripts/check_inference_0_55.py:569-584 | one case for each finding of the gate, in order, with its outcome; an error exactly when a finding has no valid test |
| InferenceCollector.OutcomeCollector.OutcomeCounts | scripts/check_inference_0_55.py:586-598 | passed, failed and skipped sum to the reported tests, not-run is the collected rest, and the counts reconcile if and only if no more was reported than collected or nothing was collected |
| InferenceCollector.NodeIdExactly | scripts/check_inference_0_55.py:252-266 | a finding's test is valid if and only if the text in front of its first `::` names a test file and the rest begins with `test_` |
| InferenceCollector.RunTallies | scripts/check_inference_0_55.py:558-567 | the tally is the last listing and three sets: which tests ever failed, were ever skipped, ever ended otherwise |
| InferenceCollector.ReportsCommute | scripts/check_inference_0_55.py:558-567 | sessions with the same events and last listing tally alike: order and repetition of reports do not matter |
| InferenceCollector.PassesExactly | scripts/check_inference_0_55.py:569-584 | a finding's test passes if and only if it was collected, ended, and never failed or was skipped |
| InferenceCollector.OutcomeExactly | scripts/check_inference_0_55.py:569-584 | what is said about a test is failed, skipped, passed or not-run, the first that some report of it calls for, and not-collected when the last listing lacks it |
| InferenceCollector.OnceFailedNeverPassed | scripts/check_inference_0_55.py:561-577 | a test that failed is never later counted or reported as passed |
| InferenceCollector.CountsPartition | scripts/check_inference_0_55.py:586-598 | passed, failed and skipped partition the reported tests, and not-run is what is left of the collected ones |
| InferenceCollector.CountsNameTheTests | scripts/check_inference_0_55.py:586-598 | failed counts the tests that ever failed, skipped those skipped but never failed, passed those that ended without either |
| InferenceCollector.ReconcilesExactly | scripts/check_inference_0_55.py:795-796 | the verifier's sum check holds if and only if no more tests were reported than collected, or none was collected |
| InferenceCollector.CollectedReportsReconcile | scripts/check_inference_0_55.py:780-796 | a session that reports only collected tests passes the check, and not-run counts the collected tests nobody reported |
| InferenceCampaign.RunGateAction | scripts/check_inference_0_55.py:601-629 | what one gate's process prints and returns, for every session and every failure of its own checks |
| InferenceCampaign.GateOutputMetadata | scripts/check_inference_0_55.py:632-640 | the last marker line speaks for the gate, and no marker line is kept |
| InferenceCampaign.LastMarkerSpeaks | scripts/check_inference_0_55.py:632-640 | whatever comes before it, the last marker line's metadata are the ones read |
| InferenceCampaign.MarkerVanishes | scripts/check_inference_0_55.py:632-640 | a marker line is dropped wherever it stands and the lines around it are kept as they are |
| InferenceCampaign.GateRecordOf | scripts/check_inference_0_55.py:643-693 | the record says pass if and only if the process returned 0, holds a lock digest if and only if the lockfile was readable, hashes exactly the lines around a marker, and takes its counts and cases from it |
| InferenceCampaign.RunGates | scripts/check_inference_0_55.py:838-854 | the loop records every gate and passes exactly when every process ended well and every reported case passed |
| InferenceCampaign.RunCampaign | scripts/check_inference_0_55.py:829-868 | the directory then holds the campaign and every gate's record, none overwritten; campaign result and exit code are the verdict, and revision and times those of the run |
| InferenceVerifier.CheckFindingCases | scripts/check_inference_0_55.py:926-951 | the cases of a gate are accepted if and only if they name exactly the expected findings, each once, with its test, passing |
| InferenceVerifier.LoadDocument | scripts/check_inference_0_55.py:173-200 | loads a document if and only if no string of it names a refused directory |
| InferenceVerifier.CommitsAreHex | scripts/check_inference_0_55.py:215-220 | git identities are exactly the hexadecimal texts of 20 bytes |
| InferenceVerifier.ValidateGateRecord | scripts/check_inference_0_55.py:696-819 | the record's checks, in their order, accept exactly the valid records |
| InferenceVerifier.ValidateManifest | scripts/check_inference_0_55.py:380-488 | so do the manifest's on findings, entries and required findings |
| InferenceVerifier.ExpectedByGate | scripts/check_inference_0_55.py:923-925 | the table of expectations, the last test of each id; an error exactly for unknown gates and invalid tests |
| InferenceVerifier.GateRecords | scripts/check_inference_0_55.py:906-913 | loads the records if and only if every gate's artifact is in place and valid |
| InferenceVerifier.VerifyCampaign | scripts/check_inference_0_55.py:871-952 | acceptance if and only if header, gate records, capability entries, finding cases and manifest all hold |
| InferenceQualification.AcceptedFindingsCoveredExactly | scripts/check_inference_0_55.py:923-951 | after acceptance every ledger finding has exactly one case in its own gate's record, a passing run of its own test, if and only if no two findings of a gate share an id and differ in their test |
| InferenceQualification.SharedIdHidesAFinding | scripts/check_inference_0_55.py:923-951 | a campaign and a ledger that are accepted although no case covers one of the ledger's findings |
| InferenceQualification.AcceptedCasesAreFindings | scripts/check_inference_0_55.py:926-951 | every case of an accepted campaign is a passing run of the test of a finding of that gate |
| InferenceQualification.OwnCasesMatchExactly | scripts/check_inference_0_55.py:569-584 | the passing cases a gate reports match the ledger if and only if the gate's findings have distinct ids |
| InferenceQualification.GateSucceedsExactly | scripts/check_inference_0_55.py:601-629 | a gate's process ends with code 1 when its checks fail or a finding has no valid test that was collected, reported at its end and never as failed or skipped; otherwise with pytest's code, or 0 where it runs none |
| InferenceQualification.AcceptedRecordIsARun | scripts/check_inference_0_55.py:643-819 | the verifier accepts a record if and only if a run that ended well leaves it, except for its duration and byte counts, which only have to be non-negative |
| InferenceQualification.GateAcceptedExactly | scripts/check_inference_0_55.py:696-819 | the record of a gate that passed is accepted if and only if clock, lockfile, counts, finding ids, environment and pytest arguments were in order; for the gate without pytest, what its marker lines say |
| InferenceQualification.SilentGateHasNoFinding | scripts/check_inference_0_55.py:923-941 | where that gate prints no marker line, this means it has no finding |
| InferenceQualification.PassingCampaignAcceptedExactly | scripts/check_inference_0_55.py:829-952 | a campaign that passed on a clean tree is accepted if and only if it is verified at the same clean revision and the listed conditions hold for manifest, machine and every gate |
| InferenceQualification.UnreadableLockIsRefused | scripts/check_inference_0_55.py:654-657 | a campaign that passes on a clean tree whether or not the lockfile can be read, and is accepted if and only if it can |
| InferenceQualification.RunAndVerify | scripts/check_inference_0_55.py:829-952 | running that campaign and verifying what it wrote: exit code 0, and accepted, also for the grown ledger, if and only if the lockfile was readable |
| Sorting.SortCanonical | scripts/check_portable_0_50.py:867-884 | sorted lists are equal if and only if the multisets are |
| Json.GetPut | examples/managed_consumer_0_56.py:307-308 | assigning a key changes that key and no other |
| Json.PutKeepsOrder | examples/managed_consumer_0_56.py:307-311 | assignment keeps a mapping in key order |
| Json.OrderedMappingsAreEqual | examples/managed_consumer_0_56.py:307-311 | in key order, equal mappings are equal lists |
| PyText.HexadecimalExactly | scripts/check_inference_0_55.py:283-289 | lower-case hexadecimal texts of even length are exactly those that some bytes are written as |

## Left out

- VersionPattern.NoOldVersionSurvives: the old version is canonical in ASCII digits; only the new one, which comes from the argument check, may hold others. This carries over to all rewriter and `VersionOrder.Bump` results.
- VersionOrder.Bump: the values of digits outside ASCII are a parameter.
- VersionIdempotence.RewriteTwiceExactly: `\s` and `\d` are parameters; white space is taken to be no ASCII digit, no quote and no `c`.
- VersionRewriter.ReplaceVersion: the release-facts rewrite, the changelog section and the tests on a file's path are not part of this model; whether a file is a page below `docs` or a version surface is an input of `VersionOrder.Bump`.
- TreeDigest.CheckerAgreesWithGenerator: a checkout with line-ending conversion or symbolic links holds other bytes than its blobs; that is the condition `WorktreeMatches`. Whether the digests then differ is `TreePreimage.DigestsAgreeExactly`.
- ManagedConsumer.SubmissionsAgree: mappings are listed in key order at every level, as `sort_keys=True` writes them, so equality is that of Python's mappings; the order inside the file a run starts from is not modelled.
- SchemaFields.Collect: Python's recursion limit. For additional properties at the top the field's path is `*` but nested paths start with `.*`; the model follows the code.
- SchemaReferences.PlainRefsHaveComponents: needs a component name without `~0` and `~1`, since the walk does not unescape; `ReferencesHaveComponentsExactly` shows the condition is exact.
- Placement.CheckMatrix: the support vector, its requirement checks and the lowering of each candidate are one flag here; the lowering is `LoweringBinding`. Scenario-specific fixture tests of the same loop are not modelled.
- LoweringBinding.AcceptedExactly: requirement names are the keys of a dictionary, so they do not repeat.
- PushdownProducer.GeneratedFindingsAcceptedExactly: for the three boundaries the producer knows. Compilers are their set of supported actions and their effects; how a plan is compiled and run natively is not part of this model.
- InferenceQualification.AcceptedRecordIsARun: pytest arguments have to be non-empty, as the verifier asks.
- LoweringBinding.ValidateLoweringBinding: the intermediate sort of the groups by key is immaterial to the verdict, because the compared lists are sorted again.
- AdaptiveIndex.VerifyIndex: observations, indexes and category records are typed; wrong keys or types are one malformed document. The 16 MB read bound and symbolic links are not modelled.
- AdaptiveOutcomes.Execute: an invalid catalogue is refused before the session starts, so the method asks for a valid one. A package that is not installed is absent from the dependency map.
- InferenceCampaign.RunCampaign: durations are integers, without the rounding to milliseconds; marker lines that are not JSON objects of the expected shape are not modelled.
- InferenceVerifier.VerifyCampaign: `Manifest.rest` stands for the manifest checks that read neither the campaign nor the findings' gate, id and test: status agreement, scope, artifact names, implementation commits. The scan for forbidden keys is left out because the keys of the typed documents are fixed; the scan for absolute paths is modelled on the strings that no other check compares with fixed texts: cases, command and environment.
- InferenceQualification.PassingCampaignAcceptedExactly: `GATE_TESTS` is a parameter; that its arguments are non-empty and name no path below a refused directory is one of the theorem's conditions. Output is text whose encoded length is its number of characters.
- SHA-256, `json`, `re`, `datetime` and `tokenize` as libraries; git, uv, PyPI, HTTP and the file system.
- `_operation_fields` and `validate_inventory`: inventory comparison over fixed key lists.
- `_without_suppressions`: removal of comments at given token positions.
- `validate_cross_engine_digests`, `validate_requirement_campaign`, `validate_installed_compiler_evidence`: comparisons of recorded digests, one after the other.
- Concurrent consumers of one spec file: the code offers no exclusion there. The checkpoint write is atomic in the model.
- Planner, solver, durable stores and leases of the runtime are not part of this model.
- Documentation phrase and navigation checks, example pipelines, microbenchmarks and command-line parsing.
