# OptiCloud: five components, modelled and proved

The project models five parts of the repository in Dafny and proves what they promise. Functions say what an operation
computes, methods are the loops and updates of the source proved against those functions, and lemmas state the
properties over all inputs, all states or all runs.

**AIGC filter** (`Runes`, `Utf8`, `Base64Url`, `ZeroWidth`, `Json`, `JsonPrinting`, `BlockPatterns`, `PatternMeaning`,
`AigcFilter`, `FilterLaws`, `FilterTexts`, `FilterExamples`). Texts are sequences of code points, lone surrogates
included, as in Python. A watermark is a JSON object printed, encoded as UTF-8 (RFC 3629, section 3), as unpadded
base64url (RFC 4648, sections 5 and 3.2), as bits, and as zero-width characters in a frame. The detector is a full
JSON parser (RFC 8259) behind a base64 decoder that skips foreign characters the way the standard library does, behind
a scan that moves left over the text. SHA-256 is a parameter of which only the length and the printability of the
digest are used.

**Auth service** (`AuthState`, `Risk`, `AccountMerge`, `AccountDeletion`, `DataExport`, `IncidentFanout`, `Accounts`,
`AuthStore`, `AuthRuns`, `AuthFrames`, `MergeForest`, `AuditReplay`, `ProposalLaws`, `DeletionLaws`, `ExportLaws`,
`FanoutLaws`, `AccountOutcomes`, `MergeOutcomes`, `DeletionOutcomes`, `ExportOutcomes`, `FanoutOutcomes`,
`AuditTrail`, `AuthExamples`). `AuthStore.Store` holds the tables as fields, and its methods update them in place;
each is tied to the function that specifies it, which maps a state to the next state and an answer. A rejected call
leaves the state as it was. A run is any interleaving of sixteen kinds of transaction, starting from empty tables;
rows that a query returned and ids that the database generated are part of the step, constrained to what the query can
return.

**Critic calibration** (`Rates`, `CalibrationDataset`, `DatasetMeaning`, `Calibration`, `CalibrationMeaning`,
`AnnotationBatch`). Confidences are reals, one of the special floats, or an integer too large for a float; thresholds
are hundredths, rates millionths rounded half to even.

**Chat load harness** (`Utf8Replace`, `Trimming`, `ChatLoad`, `TokenLaws`). The reader of a server-sent event stream
that arrives in chunks of text or bytes, and the metrics over its payloads.

**Error dictionaries** (`TextLines`, `Quoting`, `DictionaryLines`, `LineMeaning`, `ErrorDictionary`,
`DictionaryPaths`, `AuditDictionary`, `DictionaryWriter`, `DictionaryRoundTrip`, `LineBreakLaws`, `BraceMatcher`). Two
parsers of one indentation format, from the decoded text of a file with every character that ends a line in Python, a
writer for that format, and the matcher of braces that looks past quoted strings.

The functions that specify operations follow the source step by step. What they amount to is said a second time
without them: the `Outcomes` modules give every answer and every change of a call in terms of the tables alone, and
the `Meaning`, `Paths`, `Texts` and `TokenLaws` modules define results by positions, index sets and characters.

Assumptions about the surroundings: operations are transactions; the merge request schema is enforced before the
service function is reached (`Create` checks it itself); nothing else writes the modelled columns; the clock does not
go back where a statement says so (`AuthRuns.ClockOrdered`).

## What the proofs found

Properties that do not hold as one would wish, with the exact condition on the input under which they do, and an input
for which they fail:

- A filtered text can name a module version that its own watermark does not: `FilterLaws.WatermarkFieldsMatch`,
  failing in `FilterExamples.OtherVersionMisreported`.
- The filter cannot answer some texts that have a UTF-8 encoding: `FilterLaws.FilterDefined`, failing in
  `FilterExamples.EncodableTextRefused` with a trace id whose JSON escape is a lone surrogate.
- Adding a watermark twice is adding it once exactly when the given trace id is empty or has the prefix, or a
  watermark was there: `AigcFilter.AddWatermarkIdempotent`, failing in `FilterExamples.AddedTwice`.
- The answer to an added risk flag reports a frozen account as not frozen when the flag leaves it with fewer than two
  distinct enabled triggers: `Risk.FlagResponseAccurate`, failing for every such account that a merge froze
  (`AuthExamples.MergedAccountMisreported`) and at the end of the run in `AuthExamples.FrozenReportedAsNotFrozen`.
- An export request can be overtaken by one made at the same time with a smaller id; `ExportLaws.QueueProgress` counts
  the overtakers, and `ExportLaws.OvertakersCoincide` shows that there are no others while the clock is ordered. It
  happens in the run of `AuthExamples.RequestOvertaken`: a request with none ahead of it is still queued after a
  worker run.
- Six-place rounding can let a rate pass a gate that it misses: `Rates.RecallGate` and `Rates.FalsePositiveGate` say
  exactly when. It happens with 100019 samples for the 95 and 5 percent gates and with 40049 for the 98 percent gate
  (`Rates.RoundingCanDecide`); with a valid dataset it never does (`Calibration.ValidGatesExact`).
- A confidence of a valid dataset is a number in [0, 1], as the message of validation demands, exactly when it is not
  `NaN`: `CalibrationDataset.ConfidenceInRange`, failing for the dataset in `CalibrationDataset.NanAccepted`.
- Validation ends in an unforeseen exception exactly when, in a sample that has all its fields, a list or an object
  stands where a hashable value is expected or the confidence is an integer beyond the range of a float:
  `CalibrationDataset.ValidateDataset`, both reached in `CalibrationDataset.CrashReached`.
- For the first calibration stage an annotation batch can end in a `KeyError`, because excerpts are only demanded for
  the later stages: `AnnotationBatch.CreateBatch`, reached in `AnnotationBatch.FirstStageBatchFails`. An empty batch
  is never accepted by the monthly report, because the slice of the last zero samples is the whole dataset:
  `AnnotationBatch.IdsPassExactly`.
- Cutting a byte stream inside a character changes its text, and only that does: `ChatLoad.CutsKeepText`, failing for
  the two bytes in `ChatLoad.CutChangesText`.
- The two dictionary parsers can differ on a line at an odd indentation, which only one of them skips:
  `AuditDictionary.ParsersAgree`, failing in `DictionaryRoundTrip.OddIndentDiffers`.
- Two messages of an error dictionary can share a joined key when a scope holds a dot; the later one then replaces the
  earlier one and nothing is reported: `DictionaryRoundTrip.WrittenComesBack`, failing in
  `DictionaryRoundTrip.DottedKeysCollide`.
- A key or text with a line break in it comes back from no file at all (`LineBreakLaws.BrokenNeverComesBack`): all
  messages of a written dictionary come back exactly when there is no line break and no conflict of joined keys
  (`LineBreakLaws.ComesBackExactly`).

## Model

| member | source | states |
|---|---|---|
| Utf8.DecodeEncode | packages/shared-py/aigc_filter/__init__.py:210 | Decoding undoes encoding on every text that can be encoded. |
| Utf8.EncodeDecode | packages/shared-py/aigc_filter/__init__.py:268 | No two byte strings decode to the same text: encoding undoes strict decoding. |
| Base64Url.DecodeEncode | packages/shared-py/aigc_filter/__init__.py:210 | The lenient decoder, after the padding has been added back, undoes the unpadded encoder on every byte string. |
| Base64Url.PaddingRestored | packages/shared-py/aigc_filter/__init__.py:267-268 | The padding computed from the length is exactly the padding that was stripped. |
| Base64Url.ForeignSkipped | packages/shared-py/aigc_filter/__init__.py:267-268 | A character outside the alphabet changes nothing of what the automaton decodes, wherever it stands. |
| Base64Url.AlphabetsAgree | packages/shared-py/aigc_filter/__init__.py:268 | Both alphabets are read alike. |
| Base64Url.PaddingEnds | packages/shared-py/aigc_filter/__init__.py:268 | What comes behind a complete padding is not looked at. |
| ZeroWidth.DecodeEncodeBits | packages/shared-py/aigc_filter/__init__.py:211-213 | Reading a zero-width payload in groups of eight undoes writing a text of one-byte characters. |
| ZeroWidth.DecodeBitsFails | packages/shared-py/aigc_filter/__init__.py:264-265 | Reading fails exactly when the length is not a multiple of eight. |
| Json.LoadsInvertsPrint | packages/shared-py/aigc_filter/__init__.py:209 | Parsing undoes printing on every list of string members, with all escapes. |
| Json.PrintObjectEncodable | packages/shared-py/aigc_filter/__init__.py:209-210 | The printed object has a UTF-8 encoding exactly when every key and value has one. |
| JsonPrinting.LoadsInvertsValues | packages/shared-py/aigc_filter/__init__.py:237 | Every value without floats, at any depth and with any blanks between its tokens, is read back from its text. |
| JsonPrinting.PairRead | packages/shared-py/aigc_filter/__init__.py:237 | Two escapes with the halves of a character beyond the first plane are read as that character. |
| JsonPrinting.ShortEscapes | packages/shared-py/aigc_filter/__init__.py:237 | What the eight short escapes stand for. |
| ZeroWidth.IterPayloadsReverse | packages/shared-py/aigc_filter/__init__.py:216-231 | The loop over the cursor terminates and returns the payloads of the specified scan. |
| ZeroWidth.SpansAreTheFrames | packages/shared-py/aigc_filter/__init__.py:216-231 | The scan finds exactly the frames START, bits, END with no further END before the next START or the end of the text, each once, rightmost first, without overlaps. |
| ZeroWidth.AppendPlain | packages/shared-py/aigc_filter/__init__.py:216-231 | Text without an END appended to a text changes no payload found. |
| ZeroWidth.AppendFrame | packages/shared-py/aigc_filter/__init__.py:216-231 | A frame appended to any text, stray characters included, is found first, in front of what was found before. |
| AigcFilter.PayloadRoundTrip | packages/shared-py/aigc_filter/__init__.py:208-213 | A payload exists exactly when all fields can be encoded, and it decodes through bits, base64url and UTF-8 to the printed metadata. |
| AigcFilter.DetectEncodedPayload | packages/shared-py/aigc_filter/__init__.py:234-268 | An encoded payload is reported present, with its own fields, exactly when the trace id has the prefix, the version is not empty and the provider is the module's; otherwise absent. |
| AigcFilter.DetectedFields | packages/shared-py/aigc_filter/__init__.py:138-145 | Whatever is reported present has a prefixed trace id, a version and the provider's mark. |
| AigcFilter.FrameDetected | packages/shared-py/aigc_filter/__init__.py:138-145 | A frame at the end decides the detection when its payload is valid and is ignored otherwise. |
| AigcFilter.AddWatermarkDefined | packages/shared-py/aigc_filter/__init__.py:119-135 | Adding a watermark fails exactly when there is none yet and the trace id, or the text it is derived from, cannot be encoded. |
| AigcFilter.AddWatermarkDetected | packages/shared-py/aigc_filter/__init__.py:119-135 | The text is kept as a prefix; an old watermark stays the detected one, otherwise the new one is detected exactly when its id has the prefix; FilterTexts.AddWatermarkText says the whole of it without naming its helpers. |
| AigcFilter.AddWatermarkIdempotent | packages/shared-py/aigc_filter/__init__.py:119-135 | Watermarking twice gives the same text as once exactly when a watermark was there, no id was given, or the id has the prefix. |
| BlockPatterns.ReasonCodes | packages/shared-py/aigc_filter/__init__.py:189-200 | The loop over the patterns collects each code of a matching rule once, in order, and `blocked_content` behind them if there is any. |
| BlockPatterns.CodesMean | packages/shared-py/aigc_filter/__init__.py:195-197 | A code is collected exactly when some alternative of a rule with that code occurs in the lowered text. |
| BlockPatterns.NoReasonsIffClean | packages/shared-py/aigc_filter/__init__.py:189-200 | There are no reasons exactly when no alternative of the tier occurs. |
| BlockPatterns.StrictExtendsLoose | packages/shared-py/aigc_filter/__init__.py:191-193 | What the loose tier blocks the strict tier blocks too, for the same codes. |
| BlockPatterns.WordOccurs | packages/shared-py/aigc_filter/__init__.py:36-44 | Searching a literal alternative is searching a substring. |
| PatternMeaning.ReasonsMean | packages/shared-py/aigc_filter/__init__.py:36-44 | Which code a text gets, by the words that occur in it when it is lowered, and by `api` and `key` with nothing but blanks between; the last list counts in the strict tier only. |
| PatternMeaning.CaseDecidesNothing | packages/shared-py/aigc_filter/__init__.py:189-197 | Texts that differ in the case of their letters get the same codes. |
| PatternMeaning.DottedLowers | packages/shared-py/aigc_filter/__init__.py:190 | The dotted capital letter lowers to a letter and its dot. |
| FilterLaws.MarkedStaysClean | packages/shared-py/aigc_filter/__init__.py:127-135 | No match can lie in, or straddle, the visible marker and the zero-width frame that are put behind a clean text. |
| FilterLaws.AddWatermarkClean | packages/shared-py/aigc_filter/__init__.py:119-135 | Watermarking a clean text gives a clean text. |
| FilterLaws.FilterDefined | packages/shared-py/aigc_filter/__init__.py:83-100 | The call is refused exactly for an unknown tier, or when a trace id is needed that cannot be made or encoded. |
| FilterLaws.FilterOutput | packages/shared-py/aigc_filter/__init__.py:83-116 | The returned text matches no block pattern of the tier and carries the trace id of the result; a text let through is kept as a prefix, a blocked one is replaced; FilterTexts.FilterText says the whole of it without naming its helpers. |
| FilterLaws.FilterKeeps | packages/shared-py/aigc_filter/__init__.py:94-96 | A clean text with a watermark is returned as it is. |
| FilterLaws.FilterFixedPoint | packages/shared-py/aigc_filter/__init__.py:83-116 | Filtering a filtered text gives the same text and trace id and blocks nothing. |
| FilterLaws.StrictFixedUnderLoose | packages/shared-py/aigc_filter/__init__.py:83-116 | The loose tier leaves a strictly filtered text alone. |
| FilterLaws.WatermarkFieldsMatch | packages/shared-py/aigc_filter/__init__.py:102-106 | The watermark fields of the result are those detected in its text, except exactly when the text given is not clean and carries another version. |
| FilterTexts.AddWatermarkText | packages/shared-py/aigc_filter/__init__.py:119-135 | A watermarked text is left alone; to any other the visible marker is added behind an empty line, unless it is there, and then the frame of the given trace id or of the one derived from the text. |
| FilterTexts.FilterText | packages/shared-py/aigc_filter/__init__.py:83-116 | The text of every result, character by character: the text given, or the text or its replacement with marker and frame; and its trace id, the one detected or the prefix with sixteen digits of the digest. |
| FilterTexts.ResultShowsMarker | packages/shared-py/aigc_filter/__init__.py:127-129 | The visible marker stands in every result but a clean watermarked text that came without it. |
| FilterExamples.OtherVersionMisreported | packages/shared-py/aigc_filter/__init__.py:94-106 | For every other version there is such a text, and the result names the version that the returned text does not carry. |
| FilterExamples.RefusedWhenBlocked | packages/shared-py/aigc_filter/__init__.py:94-96 | A blocked text is refused whenever the trace id of its watermark cannot be encoded. |
| FilterExamples.EncodableTextRefused | packages/shared-py/aigc_filter/__init__.py:94-96 | Such a text exists among those that can themselves be encoded, for either tier. |
| FilterExamples.AddedTwice | packages/shared-py/aigc_filter/__init__.py:119-135 | For a trace id without the prefix, a second call adds a second watermark to the empty text. |
| Risk.FlagFreezes | apps/auth-service/src/auth_service/admin_routes.py:142-212 | After a flag the account is frozen exactly when it was before or the flag brings it to two distinct enabled triggers; no other account changes. |
| Risk.FlagResponseAccurate | apps/auth-service/src/auth_service/admin_routes.py:181-212 | The reported freeze is the real one exactly unless the account was frozen already and the flag leaves it with fewer than two distinct enabled triggers. |
| AuthExamples.MergedAccountMisreported | apps/auth-service/src/auth_service/admin_routes.py:181-212 | Every account that an accepted merge froze and that has too few triggers is reported as not frozen when it is flagged. |
| AuthExamples.FrozenReportedAsNotFrozen | apps/auth-service/src/auth_service/admin_routes.py:181-212 | A run of the service ends in a state in which that happens. |
| Risk.DisabledRuleCountsNothing | apps/auth-service/src/auth_service/risk.py:118-128 | Flags for disabled rules leave the triggers as they were. |
| AccountOutcomes.ApplyFlagsOutcome | apps/auth-service/src/auth_service/risk.py:131-196 | Flags are recorded exactly when account and rules exist; the account is frozen, logged and reported exactly when it was not frozen and two enabled rules are triggered then. |
| AccountOutcomes.AddRiskFlagOutcome | apps/auth-service/src/auth_service/admin_routes.py:142-212 | The same for the endpoint, with its answers to an unknown rule and an unknown account, and the number of triggers. |
| AccountOutcomes.UnfreezeOutcome | apps/auth-service/src/auth_service/admin_routes.py:224-249 | Exactly the known accounts are unfrozen, with one audit row and no other change. |
| AccountOutcomes.SignupOutcome | apps/auth-service/src/auth_service/routes.py:319-396 | A signup succeeds exactly when address and number are free and the triggered rules exist; the account, its flags, its freeze and its audit rows are given, and a refusal changes nothing. |
| AccountOutcomes.CreateKeyOutcome | apps/auth-service/src/auth_service/routes.py:986-1020 | Exactly the accounts that are neither deleted, merged nor frozen get a key. |
| AccountOutcomes.SetPreferenceOutcome | apps/auth-service/src/auth_service/routes.py:1168-1230 | Exactly those set their preferences, with one audit row and one event. |
| AccountOutcomes.RequestOtpOutcome | apps/auth-service/src/auth_service/routes.py:458-515 | Two codes are made exactly for the accounts that are neither deleted nor frozen. |
| AuthStore.Store.ApplyFlagsAndMaybeFreeze | apps/auth-service/src/auth_service/risk.py:131-196 | The loop that adds the flags, the check of their foreign keys and the freeze give exactly the specified state and answer; AccountOutcomes.ApplyFlagsOutcome says the whole of it without naming its helpers. |
| AuthStore.Store.AddRiskFlag | apps/auth-service/src/auth_service/admin_routes.py:142-212 | The endpoint, with its nested call of the freeze path, gives exactly the specified state and answer; AccountOutcomes.AddRiskFlagOutcome says the whole of it without naming its helpers. |
| AuthStore.Store.Signup | apps/auth-service/src/auth_service/routes.py:319-396 | A signup inserts the account, its audit row and its automatic flags, and a flag that breaks a foreign key undoes all of it; AccountOutcomes.SignupOutcome says the whole of it without naming its helpers. |
| AuthStore.Store.UnfreezeUser | apps/auth-service/src/auth_service/admin_routes.py:224-249 | The new state and the answer of the call; AuditReplay.ReplayAlways says what they keep. |
| AccountMerge.AutoApprovalExact | apps/auth-service/src/auth_service/account_merge.py:159-171 | A proposal is approved on creation exactly in automatic mode when all duplicates share the domain or requester and duplicates are all flagged. |
| AccountMerge.CapNeverBinds | apps/auth-service/src/auth_service/account_merge.py:102-117 | The score is the plain sum of its contributions; the cap never changes it. |
| AccountMerge.CreatedProposalSound | apps/auth-service/src/auth_service/account_merge.py:120-186 | A created proposal names the live requester as primary and only live, unmerged, distinct other accounts with a merge signal. |
| MergeOutcomes.DomainIs | apps/auth-service/src/auth_service/account_merge.py:24-25 | The domain that is compared is what stands behind the last `@`, in lower case. |
| MergeOutcomes.CreateOutcome | apps/auth-service/src/auth_service/account_merge.py:120-214 | A proposal is created exactly for a live, frozen requester that is its own primary and live, distinct others with a signal; every field of the row and the audit rows are given, and a refusal changes nothing. |
| MergeOutcomes.RequesterRefused | apps/auth-service/src/auth_service/account_merge.py:126-137 | The answer to each requester that is refused. |
| MergeOutcomes.DuplicateRefused | apps/auth-service/src/auth_service/account_merge.py:139-157 | The first unsuitable duplicate decides the answer. |
| MergeOutcomes.ReviewOutcome | apps/auth-service/src/auth_service/account_merge.py:316-359 | Exactly the pending proposals are reviewed; only `approve` approves, and the row and its audit row follow. |
| MergeOutcomes.AcceptAnswer | apps/auth-service/src/auth_service/account_merge.py:229-262 | A proposal is accepted exactly by its requester, when approved and while all its accounts are live; for anybody else it does not exist, and a refusal changes nothing. |
| MergeOutcomes.AcceptRefused | apps/auth-service/src/auth_service/account_merge.py:250-262 | The first of its accounts that is not live decides the answer to an approved proposal. |
| MergeOutcomes.AcceptEffect | apps/auth-service/src/auth_service/account_merge.py:264-300 | What an acceptance does to every account, key, proposal and to the log. |
| AuthStore.Store.CheckProposed | apps/auth-service/src/auth_service/account_merge.py:139-157 | The loop over the duplicates reports the first problem, in the order of the checks. |
| AuthStore.Store.CreateMergeProposal | apps/auth-service/src/auth_service/account_merge.py:120-214 | The new state and the answer of the call; AccountMerge.CreatedProposalSound says what is created; MergeOutcomes.CreateOutcome says the whole of it without naming its helpers. |
| AuthStore.Store.ReviewMergeProposal | apps/auth-service/src/auth_service/account_merge.py:316-359 | The new state and the answer of the call; ProposalLaws.StepEvolves says what they keep; MergeOutcomes.ReviewOutcome says the whole of it without naming its helpers. |
| AuthStore.Store.CheckDuplicates | apps/auth-service/src/auth_service/account_merge.py:254-262 | The loop of the acceptance reports the first duplicate that is gone. |
| AuthStore.Store.MergeUsers | apps/auth-service/src/auth_service/account_merge.py:264-275 | The two bulk updates release the primary and freeze and link exactly the duplicates. |
| AuthStore.Store.AcceptMergeProposal | apps/auth-service/src/auth_service/account_merge.py:229-300 | Acceptance rejects without a change or merges, revokes keys, closes the proposal and logs, as specified; MergeOutcomes.AcceptAnswer and AcceptEffect say the whole of it without naming its helpers. |
| MergeForest.ForestAlways | apps/auth-service/src/auth_service/account_merge.py:229-300 | In every state of every run each link leads to an account that was merged, if at all, by a later acceptance: the links form a forest. |
| MergeForest.LinksWrittenOnce | apps/auth-service/src/auth_service/account_merge.py:264-275 | Later states of a run keep every account and every link. |
| MergeForest.Root | apps/auth-service/src/auth_service/account_merge.py:264-275 | Following the links from any account reaches, after some number of them, an account that is not merged. |
| MergeForest.RootIsTheEnd | apps/auth-service/src/auth_service/account_merge.py:264-275 | That account is the only one on the chain that is not merged. |
| MergeForest.ChainOrdered | apps/auth-service/src/auth_service/account_merge.py:264-298 | Along a chain the acceptances come strictly later in the audit log. |
| MergeForest.NoCycle | apps/auth-service/src/auth_service/account_merge.py:264-275 | No account is reached by following its own links. |
| MergeForest.RootAfterAccept | apps/auth-service/src/auth_service/account_merge.py:264-275 | An acceptance gives the root of the primary to every account whose root is a duplicate, and leaves the other roots. |
| ProposalLaws.StepEvolves | apps/auth-service/src/auth_service/account_merge.py:229-359 | In one step a proposal keeps its parties and moves only along the edges of its life cycle. |
| ProposalLaws.FinalForever | apps/auth-service/src/auth_service/account_merge.py:244-247 | An accepted or rejected proposal never changes again, in any run. |
| ProposalLaws.PartiesFixed | apps/auth-service/src/auth_service/account_merge.py:229-359 | A proposal keeps its primary and its duplicates in every later state of a run. |
| ProposalLaws.ConflictRefused | apps/auth-service/src/auth_service/account_merge.py:254-262 | Of two approved proposals that share a duplicate, the second is refused without a change once the first is accepted. |
| AuditReplay.ReplayAlways | apps/auth-service/src/auth_service/account_merge.py:188-212 | In every state of every run, folding the audit log alone gives every freeze, every merge link, every proposal's status and decisions and every deletion request's status. |
| AuditReplay.AcceptedWasApprovedOnce | apps/auth-service/src/auth_service/account_merge.py:244-247 | The log holds exactly one approval, one acceptance and no rejection for an accepted proposal. |
| AuditReplay.AcceptReplays | apps/auth-service/src/auth_service/account_merge.py:283-298 | The audit row of an acceptance says all that the acceptance did to freezes and links. |
| AuditTrail.StepLogs | apps/auth-service/src/auth_service/account_merge.py:283-298 | Every step only appends to the audit log, and only rows of the kinds that belong to it. |
| AuditTrail.AcceptancesAlways | apps/auth-service/src/auth_service/account_merge.py:235-243 | In every state of every run each acceptance in the log names an accepted proposal, its parties, and as its user the requester of that proposal. |
| AuditTrail.MergedByOwner | apps/auth-service/src/auth_service/account_merge.py:229-300 | In every run an account is merged only into the account that accepted it. |
| AuthStore.Store.RequestAccountDeletion | apps/auth-service/src/auth_service/account_deletion.py:39-89 | The new state and the answer of the call; DeletionLaws.RetirementAlways says what they keep; DeletionOutcomes.RequestOutcome says the whole of it without naming its helpers. |
| AuthStore.Store.CompleteDeletion | apps/auth-service/src/auth_service/account_deletion.py:106-142 | The new state after one turn of the worker; AccountDeletion.CompleteEffect adds the turns up. |
| AuthStore.Store.CompleteDueDeletionRequests | apps/auth-service/src/auth_service/account_deletion.py:92-145 | The loop treats every selected request and returns their accounts in order; DeletionOutcomes.WorkerOutcome says the whole of it without naming its helpers. |
| AccountDeletion.CompleteEffect | apps/auth-service/src/auth_service/account_deletion.py:105-142 | A worker run erases exactly the selected accounts, completes their requests, drops all their keys and codes and logs each once; nothing else changes. |
| AccountDeletion.ErasureForgets | apps/auth-service/src/auth_service/account_deletion.py:114-126 | A worker run leads to the same state whatever personal data the erased accounts had. |
| DeletionLaws.RetirementAlways | apps/auth-service/src/auth_service/account_deletion.py:39-142 | In every state of every run an account is deleted exactly when it has a request, no request was completed before its seven days, retired accounts hold no live key and erased ones no key and no code. |
| DeletionLaws.ActiveHasNoRequest | apps/auth-service/src/auth_service/account_deletion.py:52-54 | The branch for an active account that already has a request is never taken. |
| DeletionLaws.RequestAgain | apps/auth-service/src/auth_service/account_deletion.py:46-54 | A repeated request changes nothing and gives the same request. |
| DeletionLaws.WorkerCompletesDue | apps/auth-service/src/auth_service/account_deletion.py:97-109 | A run completes exactly the requests that were due and keeps the others. |
| DeletionLaws.WorkerTwice | apps/auth-service/src/auth_service/account_deletion.py:92-145 | A second run at the same time finds nothing and changes nothing. |
| DeletionLaws.WorkerSplit | apps/auth-service/src/auth_service/account_deletion.py:92-145 | Runs at two times complete together, none twice, the accounts that one run at the later time completes. |
| DeletionLaws.WorkerOrderFree | apps/auth-service/src/auth_service/account_deletion.py:105-142 | The order of the selected rows decides nothing but the order of the audit rows. |
| DeletionOutcomes.RequestOutcome | apps/auth-service/src/auth_service/account_deletion.py:39-89 | A live account without a request is marked, its live keys are revoked and its deletion is due seven days later; an existing request is returned, and nothing else is known. |
| DeletionOutcomes.AliasIs | apps/auth-service/src/auth_service/account_deletion.py:119-120 | The name of an erased account is the prefix and the first twelve hexadecimal digits of its id. |
| DeletionOutcomes.WorkerOutcome | apps/auth-service/src/auth_service/account_deletion.py:92-145 | Exactly the due requests are completed, and the effect of that on every account, key, code and on the log. |
| AuthStore.Store.RequestDataExport | apps/auth-service/src/auth_service/data_export.py:167-231 | The new state and the answer of the call; ExportLaws.OneActiveAlways says what they keep; ExportOutcomes.RequestOutcome says the whole of it without naming its helpers. |
| AuthStore.Store.CompleteExport | apps/auth-service/src/auth_service/data_export.py:273-347 | One turn of the worker leaves its request completed or failed, never processing, with one audit row. |
| AuthStore.Store.CompletePendingDataExportRequests | apps/auth-service/src/auth_service/data_export.py:255-349 | The loop finishes every selected request and returns the ids of those that succeeded, in order; ExportOutcomes.WorkerOutcome says the whole of it without naming its helpers. |
| DataExport.FinishEffect | apps/auth-service/src/auth_service/data_export.py:273-347 | A worker run finishes exactly the selected requests, logs each once and sends one event for each success; nothing else changes. |
| ExportLaws.OneActiveAlways | apps/auth-service/src/auth_service/data_export.py:167-252 | In every run with an ordered clock there is at most one active request per user and format, at any time from the last step on. |
| ExportLaws.ActiveExportUnique | apps/auth-service/src/auth_service/data_export.py:234-252 | The query for the active request has one possible answer. |
| ExportLaws.RequestAgainSame | apps/auth-service/src/auth_service/data_export.py:180-187 | A repeated request finds the one just made and changes nothing. |
| ExportLaws.TerminalForever | apps/auth-service/src/auth_service/data_export.py:262-269 | A completed or failed request is never touched again. |
| ExportLaws.NeverReactivated | apps/auth-service/src/auth_service/data_export.py:243-244 | A request that has failed or expired never becomes active again. |
| ExportLaws.RunSize | apps/auth-service/src/auth_service/data_export.py:262-269 | A run takes as many requests as the limit and the queue allow. |
| ExportLaws.TakenIff | apps/auth-service/src/auth_service/data_export.py:262-269 | It takes a queued request exactly when fewer than the limit are ahead of it by request time and id. |
| ExportLaws.RunAdvances | apps/auth-service/src/auth_service/data_export.py:255-349 | A run finishes a request or moves it forward by the whole limit. |
| ExportLaws.StepAdvances | apps/auth-service/src/auth_service/data_export.py:167-349 | Each step of any kind adds the requests that overtake and takes off the limit of the run, until the request is finished. |
| ExportLaws.QueueProgress | apps/auth-service/src/auth_service/data_export.py:255-349 | Over any stretch of any run a queued request is finished exactly when at some point the limits of the worker runs added up to more than the requests ahead at first and those that overtook since; until then the number ahead is that sum less those limits. |
| ExportLaws.FinishedWithinRuns | apps/auth-service/src/auth_service/data_export.py:255-349 | With k requests to be taken before it, overtakers included, k divided by the limit plus one runs finish it. |
| ExportLaws.NobodyOvertakes | apps/auth-service/src/auth_service/data_export.py:262-269 | The overtakers number zero exactly when no step overtakes. |
| ExportLaws.OvertakersCoincide | apps/auth-service/src/auth_service/data_export.py:189-201 | With an ordered clock only a request made at the very same time, with a smaller id, overtakes. |
| ExportOutcomes.RequestOutcome | apps/auth-service/src/auth_service/data_export.py:167-252 | A request for `json` or `csv` finds the latest usable export, or queues a new one with every field, audit row and event given. |
| ExportOutcomes.WorkerOutcome | apps/auth-service/src/auth_service/data_export.py:255-349 | A run completes the exports whose package can be built and fails the others; expiry, audit rows and events are given, in order. |
| AuditTrail.ExportsTold | apps/auth-service/src/auth_service/data_export.py:167-349 | In every state of every run the log and the outbox hold for each export exactly what its status says: one request, then at most one completion or failure, an event only for a completion. |
| AuthExamples.RequestOvertaken | apps/auth-service/src/auth_service/data_export.py:262-269 | A run with an ordered clock in which a request with none ahead of it is overtaken, and still queued after a worker run that takes one. |
| AuthStore.Store.NotifyAccount | apps/auth-service/src/auth_service/admin_routes.py:349-396 | The new state and the count of one turn; IncidentFanout.FanoutEffect adds the turns up. |
| AuthStore.Store.FanoutStatusIncident | apps/auth-service/src/auth_service/admin_routes.py:314-411 | The loop gives the specified state and counts the requests it created; FanoutOutcomes.FanoutOutcome says the whole of it without naming its helpers. |
| IncidentFanout.FanoutEffect | apps/auth-service/src/auth_service/admin_routes.py:348-396 | A fanout adds one request and one event for each selected account that has none, counts exactly those and leaves the others. |
| FanoutLaws.FanoutKeys | apps/auth-service/src/auth_service/admin_routes.py:348-373 | Afterwards exactly the earlier pairs and those of the selected accounts have a request, and the earlier requests are as they were. |
| FanoutLaws.NotifiedExactlyOnce | apps/auth-service/src/auth_service/admin_routes.py:314-411 | In every run there is one request and one event for every pair of incident and account ever reached and none for another, and the reported numbers add up to their number. |
| FanoutOutcomes.FanoutOutcome | apps/auth-service/src/auth_service/admin_routes.py:314-411 | Exactly the live, unfrozen accounts with a channel on that have no request get one, with their channels in order and one event with its contents; the answer is their number. |
| Rates.RoundedNearest | tools/critic_calibration/calibrate.py:196-197 | The rounded rate is the nearest millionth, and the even one of two equally near ones. |
| Rates.RecallGate | tools/critic_calibration/calibrate.py:269-272 | A rounded rate reaches a gate of whole hundredths exactly when the exact one misses it by at most half a millionth. |
| Rates.FalsePositiveGate | tools/critic_calibration/calibrate.py:269-272 | A rounded rate stays within a gate exactly when the exact one exceeds it by at most half a millionth. |
| Rates.RoundingHarmless | tools/critic_calibration/calibrate.py:269-272 | Below twenty thousand samples rounding decides no comparison with a gate of whole hundredths. |
| Rates.PolicyRoundingHarmless | tools/critic_calibration/calibrate.py:24-33 | For the gates of the policy the bounds are a hundred thousand and, for 98 percent, forty thousand samples. |
| Rates.RoundingCanDecide | tools/critic_calibration/calibrate.py:196-197 | Close above those bounds there are rates that pass a gate they miss. |
| CalibrationDataset.CheckSample | tools/critic_calibration/calibrate.py:130-175 | The checks of one sample find no problem exactly when it is what a sample must be and its id is new. |
| CalibrationDataset.CheckSamples | tools/critic_calibration/calibrate.py:120-175 | The loop over the samples collects the categories and both counts, and no problem exactly when every sample is valid at its position. |
| CalibrationDataset.NotSeen | tools/critic_calibration/calibrate.py:138-142 | The check for duplicate ids refuses nothing that the check for contiguous ids accepts. |
| CalibrationDataset.ValidateDataset | tools/critic_calibration/calibrate.py:101-186 | Validation accepts exactly the datasets that are what a dataset must be, and ends in an unforeseen exception exactly on unhashable values and on integers beyond the range of a float that the checks reach. |
| CalibrationDataset.ConfidenceInRange | tools/critic_calibration/calibrate.py:73-79 | In a valid dataset a confidence is a number in [0, 1] exactly when it is not `NaN`. |
| CalibrationDataset.ConfidenceReplaced | tools/critic_calibration/calibrate.py:158-160 | Any confidence of a valid dataset can be replaced by an accepted value and by no other. |
| CalibrationDataset.NanAccepted | tools/critic_calibration/calibrate.py:73-79 | There is a valid dataset with a confidence of `NaN`. |
| CalibrationDataset.UnhashableIdCrashes | tools/critic_calibration/calibrate.py:140-142 | A list or an object for one id makes validation of any valid dataset end in an exception. |
| CalibrationDataset.TooLargeCrashes | tools/critic_calibration/calibrate.py:73-79 | So does an integer beyond the range of a float for one confidence. |
| CalibrationDataset.CrashReached | tools/critic_calibration/calibrate.py:140-158 | Datasets that end in either exception exist. |
| CalibrationDataset.ExampleValid | tools/critic_calibration/calibrate.py:101-186 | There is a dataset that is what a dataset must be. |
| DatasetMeaning.ValidMeans | tools/critic_calibration/calibrate.py:101-186 | What a dataset must be, field by field and digit by digit, is what validation accepts. |
| Calibration.ConfusionMatrix | tools/critic_calibration/calibrate.py:200-213 | The counting loop gives the four counts; CalibrationMeaning.MatrixIsCells says the whole of it without naming its helpers. |
| Calibration.MatrixRows | tools/critic_calibration/calibrate.py:216-224 | The rows add up to the numbers of samples of either kind, whatever the threshold. |
| Calibration.RatesMonotone | tools/critic_calibration/calibrate.py:69-70 | A higher threshold lowers neither the rounded recall nor the rounded false-positive rate. |
| Calibration.PassingIsConvex | tools/critic_calibration/calibrate.py:264-273 | Between two thresholds that pass both gates every threshold passes. |
| Calibration.RecommendThreshold | tools/critic_calibration/calibrate.py:258-287 | The search returns a passing candidate nearest to the target, the lower of two, and fails exactly when none passes. |
| Calibration.PassingIsAnInterval | tools/critic_calibration/calibrate.py:239-242 | The passing candidates of a range of hundredths form an interval, possibly empty. |
| Calibration.RecommendationIsClamp | tools/critic_calibration/calibrate.py:258-287 | The search returns the target clamped into that interval, and fails exactly when it is empty. |
| Calibration.TieBreakNeverDecides | tools/critic_calibration/calibrate.py:287 | No other passing candidate is as near to the target as the one returned. |
| Calibration.ValidSizes | tools/critic_calibration/calibrate.py:115-118 | A valid dataset has samples of both kinds, at most 200 in all. |
| Calibration.ValidGatesExact | tools/critic_calibration/calibrate.py:269-272 | On a valid dataset the rounded gates decide as exact cross-multiplication. |
| Calibration.CalibrationUnique | tools/critic_calibration/calibrate.py:298-330 | No two outcomes of a calibration qualify for a valid dataset. |
| Calibration.CalibrateDataset | tools/critic_calibration/calibrate.py:298-330 | The result is the threshold nearest to the target among those of the range that meet the policy exactly, with its matrix, or an error exactly when there is none; CalibrationMeaning.CalibrationMeans says the whole of it without naming its helpers. |
| CalibrationMeaning.MatrixIsCells | tools/critic_calibration/calibrate.py:200-213 | The four counts are the numbers of samples of either kind whose confidence is, or is not, lower than the threshold. |
| CalibrationMeaning.AtTheThreshold | tools/critic_calibration/calibrate.py:69-70 | A confidence exactly at the threshold does not escalate, and does one hundredth higher. |
| CalibrationMeaning.CalibrationMeans | tools/critic_calibration/calibrate.py:298-330 | The outcome for every valid dataset and range: the threshold nearest to 0.60 at which 95 percent, 98 in stage M5, of the ones do escalate and at most 5 percent of the others, with the sizes of its cells. |
| AnnotationBatch.SortedInOrder | tools/critic_calibration/create_annotation_batch.py:63 | Sorting by sample number leaves samples that are in order as they are. |
| AnnotationBatch.SeriesInOrder | tools/critic_calibration/create_annotation_batch.py:51-53 | The samples of a valid dataset are in the order of their numbers already. |
| AnnotationBatch.CreateBatch | tools/critic_calibration/create_annotation_batch.py:56-100 | A batch holds the newest samples in order, with their ids; each way to fail is given exactly, the missing excerpt included. |
| AnnotationBatch.FirstStageBatchFails | tools/critic_calibration/create_annotation_batch.py:74-89 | There is a valid dataset of the first stage for which batches of every size end in the missing excerpt. |
| AnnotationBatch.IdsPassExactly | tools/critic_calibration/create_annotation_batch.py:136-155 | The checks on the ids of a batch pass exactly when they are the newest ids in order, at least one, all of the target stage. |
| AnnotationBatch.CountMeans | tools/critic_calibration/create_annotation_batch.py:128-130 | A count is a number, or a boolean for one or zero. |
| AnnotationBatch.MonthlyReport | tools/critic_calibration/create_annotation_batch.py:112-177 | The report is made exactly for a valid dataset, the configuration that calibrating it gives, and a batch of its newest samples in order. |
| AnnotationBatch.CreatedBatchAccepted | tools/critic_calibration/create_annotation_batch.py:56-155 | Every batch that can be created is acceptable to the report on the same dataset. |
| Utf8Replace.NothingReplaced | tools/chat_load/locustfile.py:111 | Decoding with replacement agrees with strict decoding on well-formed input. |
| Utf8Replace.SkipIsMaximal | tools/chat_load/locustfile.py:111 | A replacement character stands for the longest beginning of a character that the bytes hold, or for one byte. |
| Utf8Replace.CutInside | tools/chat_load/locustfile.py:111 | A well-formed text cut where its first part is not well formed is cut inside a character. |
| ChatLoad.TakeLines | tools/chat_load/locustfile.py:113-119 | The inner loop takes every finished line off the buffer and loses no payload, whatever follows. |
| ChatLoad.IterSseDataLines | tools/chat_load/locustfile.py:108-124 | For every way of cutting a stream into chunks the payloads are those of the text as a whole. |
| ChatLoad.CutsKeepText | tools/chat_load/locustfile.py:110-112 | A well-formed byte stream keeps its text exactly when no chunk ends inside a character. |
| ChatLoad.CutChangesText | tools/chat_load/locustfile.py:110-112 | The two bytes of one character sent in two chunks are well formed as a whole and give another text. |
| ChatLoad.CutsAgree | tools/chat_load/locustfile.py:108-124 | Two ways of cutting the same bytes between characters give the same payloads. |
| ChatLoad.EmittedComeBack | tools/chat_load/locustfile.py:108-124 | Payloads sent as `data:` lines come back, in order and nothing else. |
| ChatLoad.EmittedComeBackInParts | tools/chat_load/locustfile.py:108-124 | They do so when the stream is sent as UTF-8 and cut anywhere between characters. |
| TokenLaws.PayloadMeans | tools/chat_load/locustfile.py:113-119 | A line gives a payload exactly when it is `data:` and that payload with blanks around. |
| ChatLoad.TextUnitsAreWords | tools/chat_load/locustfile.py:157 | The units of a text are its words; the lower bound of one never binds. |
| TokenLaws.OtherPayload | tools/chat_load/locustfile.py:137-139 | A payload that is no JSON object counts one, unless it is blank or the end marker. |
| TokenLaws.UsageWins | tools/chat_load/locustfile.py:141-146 | The first of the three usage fields with a positive number wins over all texts. |
| TokenLaws.WordsOtherwise | tools/chat_load/locustfile.py:148-158 | Without one the words of the three fields and of the content of the delta are counted. |
| TokenLaws.DoneChangesNothing | tools/chat_load/locustfile.py:137-139 | A stream that ends in the end marker measures like the payloads before it, and a stream of nothing else is not completed. |
| ChatLoad.CalculateStreamMetrics | tools/chat_load/locustfile.py:161-198 | The metrics are the sums and rates over the events that have units, with the time of the first of them; TokenLaws.OtherPayload, UsageWins and WordsOtherwise say the whole of it without naming its helpers. |
| ChatLoad.NoUnits | tools/chat_load/locustfile.py:179-187 | No event has units exactly when their sum is zero, and then none counts as provider usage. |
| ChatLoad.MeasureStream | tools/chat_load/locustfile.py:244-247 | Token units, counting method and completion depend on the text of the stream alone, not on its chunks nor on the times; the latencies and the rate come from the time of the first payload that counts; TokenLaws.DoneChangesNothing says what the end marker does. |
| TextLines.SplitInvertsJoin | scripts/error_message_i18n_single_source.py:74 | Lines that hold no line break of any kind, each ended by a line feed, are the lines of the text. |
| Quoting.UnescapeIsOnePass | scripts/error_message_i18n_single_source.py:252-253 | The three replacements in a row mean the same as taking the escapes out in one pass from the left, on every text. |
| Quoting.UnquoteInvertsQuote | scripts/error_message_i18n_single_source.py:246-253 | Every text can be written as a quoted value that reads back as itself. |
| DictionaryLines.PopLevels | scripts/error_message_i18n_single_source.py:89-90 | The loop leaves exactly the levels that a line is not nested in. |
| DictionaryLines.NestingIncreases | scripts/error_message_i18n_single_source.py:89-98 | The indentations on the stack stay strictly increasing. |
| LineMeaning.OtherLineMeans | scripts/error_message_i18n_single_source.py:75-84 | A line is skipped exactly when it is blank or a comment, and is no mapping exactly when it has no colon. |
| LineMeaning.MappingMeans | scripts/error_message_i18n_single_source.py:77-88 | Any other line is its key and its value at the first colon, without the blanks around them, at the number of spaces in front. |
| LineMeaning.UnquoteMeans | scripts/error_message_i18n_single_source.py:246-253 | Only a value between two quotes of one kind loses them and its escapes. |
| ErrorDictionary.TakeLine | scripts/error_message_i18n_single_source.py:74-108 | One turn of the strict parser gives the specified progress; DictionaryPaths.ProblemsMean says the whole of it without naming its helpers. |
| ErrorDictionary.ParseErrorDictionary | scripts/error_message_i18n_single_source.py:65-121 | The strict parser gives the entries, the problems of the lines and the incomplete messages of the specified fold; DictionaryPaths.ParserMeans and AcceptedExactly say the whole of it without naming its helpers. |
| DictionaryPaths.ParserMeans | scripts/error_message_i18n_single_source.py:65-108 | The problems of any lines are those of each line in order, and each field has the value of the last line that gives it, where the path of a line is read off the lines above it. |
| DictionaryPaths.ProblemsMean | scripts/error_message_i18n_single_source.py:79-106 | Each kind of problem is reported exactly for the lines that have it; a repeated key exactly for a line with the path of an earlier one. |
| DictionaryPaths.IncompleteMeans | scripts/error_message_i18n_single_source.py:113-119 | A required field is reported exactly when its message is there and the field is missing or blank. |
| DictionaryPaths.AcceptedExactly | scripts/error_message_i18n_single_source.py:65-121 | A file is accepted exactly when no line has a problem, some message is there and every message has all three fields with a text. |
| DictionaryPaths.AcceptedDistinct | scripts/error_message_i18n_single_source.py:91-94 | The paths of an accepted file are pairwise distinct. |
| DictionaryPaths.WrittenTwiceIsReported | scripts/error_message_i18n_single_source.py:91-94 | A scope, message or field that is written twice where it stands is reported. |
| AuditDictionary.ParseDictionary | scripts/validate_error_i18n_audit.py:237-259 | The lenient parser gives the entries of its specified fold. |
| AuditDictionary.StepKeepsLockstep | scripts/validate_error_i18n_audit.py:240-258 | On every line at an even indentation both parsers keep the same stack, and the strict entries the supported part of the lenient ones. |
| AuditDictionary.LockstepThroughout | scripts/validate_error_i18n_audit.py:240-258 | Over any lines the strict parser keeps step with the lenient one on the lines at even indentations. |
| AuditDictionary.ParsersAgree | scripts/validate_error_i18n_audit.py:237-259 | The strict parser always reads the supported fields of what the audit would read from the lines at even indentations; so the two agree exactly when dropping the odd lines and the unsupported fields changes nothing for the audit, and with no odd line exactly when no unsupported field is reported. |
| AuditDictionary.CleanDictionariesAgree | scripts/error_message_i18n_single_source.py:110-121 | They agree on every accepted dictionary, and every message there has exactly the three fields, none blank. |
| DictionaryWriter.ReadMapping | scripts/error_message_i18n_single_source.py:75-88 | A key with a colon and a value, at any indentation, is read as that key and value. |
| DictionaryRoundTrip.WrittenIsRead | scripts/error_message_i18n_single_source.py:74-108 | Every dictionary written to a file, with no line break in a key or text, is read from it without a problem, message after message. |
| DictionaryRoundTrip.WrittenComesBack | scripts/error_message_i18n_single_source.py:65-121 | With a message and no blank text it is accepted, both parsers read the same from the file, and all messages come back exactly when no two with one joined key differ. |
| DictionaryRoundTrip.DotFreeComesBack | scripts/error_message_i18n_single_source.py:107-108 | With no dot in a scope no two messages share a joined key. |
| DictionaryRoundTrip.DottedKeysCollide | scripts/error_message_i18n_single_source.py:107-108 | With one it can happen, in a dictionary that is read without a problem. |
| DictionaryRoundTrip.OddIndentDiffers | scripts/error_message_i18n_single_source.py:79-81 | In a file with a field indented by one space too many, the audit reads it and the strict parser reads nothing. |
| LineBreakLaws.ReadHasNoBreaks | scripts/error_message_i18n_single_source.py:74-108 | No key and no text that is read from any file holds a line break. |
| LineBreakLaws.BrokenNeverComesBack | scripts/error_message_i18n_single_source.py:65-121 | A message with a line break in its joined key or in a text comes back from no file whatsoever. |
| LineBreakLaws.ComesBackExactly | scripts/error_message_i18n_single_source.py:65-121 | With a message in every scope and no blank text, all messages of a written dictionary come back exactly when no key or text holds a line break and no two with one joined key differ. |
| BraceMatcher.FindMatchingBrace | scripts/error_message_i18n_single_source.py:220-243 | The index returned is the first at which the depth outside quotes returns to zero, and nothing is returned exactly when there is none. |
| BraceMatcher.SpansNest | scripts/error_message_i18n_single_source.py:220-243 | Every opening brace outside quotes inside a matched span has its own match strictly inside that span. |
| BraceMatcher.MatchEnclosesBlock | scripts/error_message_i18n_single_source.py:220-243 | A closing brace is the match exactly when what lies between is a text in which braces and quoted strings pair up. |
| BraceMatcher.IsProblemDetailContext | scripts/error_message_i18n_single_source.py:193-217 | The backward search finds a block exactly when one that qualifies encloses the position. |

## Left out

- SQL, sessions, HTTP and logging: tables are maps and sequences, an HTTP error is a rejected step, and rows that a
  query returned are inputs constrained to what it can return.
- UUIDs are numbers, in the order in which the database compares them. Two ids with the same first twelve digits,
  whose deletion aliases would collide in a unique column, are not refused.
- Login, signup consent, revoking a key, marking a code as used, preference rows of other events and the routes that
  only read. The routes that create accounts, keys, codes and preferences are functions (`Accounts`), not methods of
  the store.
- The evaluation of the automatic signup rules: which of them were triggered is an argument.
- Frozen-account appeals, which reach merge proposals by another route.
- The contents of an export package, and an event that cannot be inserted after the audit row of a success was added:
  a package either can be built or cannot.
- Lowering of letters outside ASCII in e-mail domains.
- `str.lower` is modelled as far as the block patterns can see it; the regular expressions are lists of literals with
  one run of blanks.
- Confidences and times are reals: the rounding of decimal literals to floats is not modelled.
- The digit test of sample ids accepts other scripts' digits; such an id is wrong for another reason, and both reasons
  are one problem here. The order of the final messages of the strict dictionary parser, and a dictionary file that is
  missing or not UTF-8.
- Secret markers of prompts and excerpts, and the regular expressions that qualify a block as a problem detail, are
  arguments.
- Due dates, ticket prefixes and file names of annotation batches and reports; whether the week starts on a Monday is
  an argument.
- The checks of evidence files, the command lines, the user interface, the Locust user classes and the CI checks:
  single branches or plumbing.
- FilterLaws.FilterOutput: the `self_loop_bypass` metadata and the aria label, which the text does not depend on, are
  not part of the result.
- AigcFilter.AddWatermarkDefined: nesting deeper than the interpreter's stack in a hand-made payload, which ends in a
  `RecursionError`, is not an outcome; the parser of the model has no bound on nesting.
- FilterLaws.FilterDefined: nor is it among the refusals.
- ChatLoad.MeasureStream: nor is it modelled for a payload of the stream, and an integer of more than 4300 digits
  there, on which the harness ends in a `ValueError`, counts as text that is not JSON.
