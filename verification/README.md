# A verified model of AssuranceOS

AssuranceOS audits by collecting evidence and reading it with rules that must
not bend. This project models the algorithms of that reading in Dafny and
proves what they promise. Each module follows one component.

- **Signed releases** (`Release`, on `JsonText`, `Json`, `JsonLaws`,
  `JsonBytes`, `Utf8`): a package directory is hashed into a map, printed in
  canonical JSON, signed, written and verified again. A printer and a parser
  for JSON are modelled in full, and the guarantees are carried from single
  characters up to the verdict on a directory: what is published verifies
  under the signing key and no other, and a change to any covered file is
  refused.
- **Keys and tokens** (`Base64`, `Jwk`): base64 with and without padding, the
  big-endian integers of a JSON Web Key, and the payload of a bearer token.
- **The access-code throttle** (`Throttle`): a class for the table and, over
  whole interleavings of locked steps, a refinement to a log of windows from
  which the admission bounds follow.
- **Delegation** (`Delegation`, `DelegationRows`): the engagement shown, the
  row of each agent, the handoff and the totals; what they conserve and why the
  order of the database rows never shows.
- **Economics** (`Economics`, `Rounding`): usage, caveats, prices, projections
  and the comparison, in exact numbers.
- **Populations and classifiers** (`Scm01`, `Timestamps`, `Scm02`, `ResponseTargets`,
  `AccessReview`, `Sarif`, `Extractor`): joins, scanners and buckets.
- **Ledger and renumbering** (`Ledger`, `Dates`, `Backfill`): money that adds
  up to the cent, dates that compare as texts, numbers without gaps.

`Texts`, `Sorting` and `Counting` hold the shared vocabulary. A Python string
is a sequence of code points that may include lone surrogates. A stable
insertion sort stands for Python's stable sort, and a dict is a sequence of
members where its order can be seen and a map where it cannot. Money is in
cents or in fractions of a dollar scaled to integers, time is a real or an
integer, and exceptions are values. Code that loops is a method proved against
a specification function; the laws are proved about that function, and lemmas
named `...Means` say what it comes to on the input's own fields, with literals
for the constants.

Where the code falls short of what it is meant to do, the model keeps the code,
shows an input, and states the exact condition under which it does meet it:

- `_b64url_uint(0)` is the empty text, not the one zero octet of section 2 of
  RFC 7518 (`Jwk.StandardForm`).
- The written files escape non-ASCII text, which does not tell a character
  beyond the basic plane from its two surrogates (`JsonText.SplitPairCollides`,
  `JsonText.JoinIdentity`).
- The throttle reads the clock before it takes the lock. Its bound holds if and
  only if stamps come in lock order (`Throttle.OrderedBoundExact`); the lag
  between them gives the bound that does hold (`Throttle.IntervalBound`), and
  any lag breaks the ordered one (`Throttle.LateStampsExceedBound`).
- A decision by one agent on another agent's task is on both rows
  (`DelegationRows.CrossFiledDecision`, `DelegationRows.DecisionsConserved`).
- The projected output falls when a measurement first rounds to something
  (`Economics.OutputFallsBelowDefault`, `Economics.OutputMonotone`).
- The pull request chosen depends on the order of the list when two with the
  lowest number differ (`Scm02.OrderShows`, `Scm02.ChoiceOrderFree`).
- The scanner counts braces inside strings, too (`Extractor.ClosedThenOpened`,
  `Extractor.ScanReturnsObject`).
- A file name that is not UTF-8 makes publishing raise
  (`Release.SurrogatePathFails`, `Release.PublishDefined`).
- The comment on `_payment_run_for` promises a run that closes after the date;
  the code accepts one that closes on it, and falls back to one long closed
  (`Ledger.ClosesTooEarly`, `Ledger.ClosesAfterExactly`).

## Model

| member | source | states |
|---|---|---|
| `JsonText.StringRoundTrip` | src/assuranceos/agent_release.py:17-20 | Reading back an escaped string literal gives the string and stops behind the closing quote: exactly, with non-ASCII characters written out; with adjacent surrogates joined, when they are escaped. For every sequence of code points, lone surrogates included (RFC 8259, section 7). |
| `JsonText.JoinIdentity` | scripts/release_agent_packages.py:61-64 | Joining surrogates alters a text if and only if the text holds a high surrogate directly before a low one, so that is the exact set of strings the ASCII form of the written files does not preserve. |
| `JsonText.SplitPairCollides` | scripts/release_agent_packages.py:61-64 | A concrete pair of distinct strings that the ASCII form prints alike and the UTF-8 form does not. |
| `JsonText.StandsForItself` | src/assuranceos/agent_release.py:17-20 | A code point is written as itself if and only if it is no control character, no quote and no backslash and, in the ASCII form, not beyond `~`. |
| `JsonText.ControlRefused` | src/assuranceos/agent_release.py:75-76 | A raw control character inside a string makes it unreadable, whatever stands before and behind it. |
| `JsonLaws.ValueRoundTrip` | src/assuranceos/agent_release.py:17-20 | For every nested document (null, booleans, integers, strings, arrays, objects), print style and indentation depth, the parser reads the print back as the same document and stops where the print ends, whatever follows. |
| `JsonLaws.DumpRoundTrip` | scripts/release_agent_packages.py:61-70 | Printing with sorted keys, in any style and with blanks after it, and parsing yields the document with its keys sorted at every level. |
| `JsonLaws.SameIffCanon` | src/assuranceos/agent_release.py:87-90 | Equality that ignores member order, with booleans kept apart from integers, coincides with having one sorted form. |
| `JsonLaws.DumpIdentifies` | src/assuranceos/agent_release.py:17-20 | Two documents have the same sorted print if and only if they are equal up to member order: the print is injective and depends on contents alone. |
| `JsonLaws.CanonIdempotent` | scripts/release_agent_packages.py:61-64 | Sorting the keys of a document already written and read changes nothing, so its canonical bytes are stable. |
| `JsonLaws.CanonAscends` | src/assuranceos/agent_release.py:17-20 | The sorted form has the keys of every object, at every level, in ascending order: each begins the next ones or is smaller at the first code point in which they differ. A document whose keys are so ordered keeps its form. |
| `Texts.LexMeans` | src/assuranceos/agent_release.py:17-20 | The order of texts: a beginning comes first, and otherwise the first code point in which they differ decides. |
| `Json.CompactObject` | src/assuranceos/agent_release.py:17-20 | The canonical layout, character by character: braces, commas and colons, and nothing else between keys and values, at every depth. |
| `Json.IndentedObject` | scripts/release_agent_packages.py:61-70 | The layout of the written files: a line for each member, two spaces in, and a space behind the colon. |
| `JsonLaws.DumpJoins` | scripts/release_agent_packages.py:61-70 | Printed in ASCII with sorted keys and parsed, any document whose keys hold no split pair comes back sorted with the surrogate pairs of its string values joined, and nothing else changed. |
| `JsonLaws.JoinedIdentity` | scripts/release_agent_packages.py:61-64 | That joining leaves the document as it was if and only if no string in it holds a split pair. |
| `JsonLaws.ValueMore` | src/assuranceos/agent_audit_demo.py:231-240 | A value that parses from a text parses from any longer text the same, and leaves that much more behind; only a number must not be the end of the text. |
| `JsonLaws.ParseWellFormed` | src/assuranceos/agent_release.py:75-76 | Whatever text is read, the parsed document has no object with a repeated key. |
| `JsonLaws.DictOfMeans` | src/assuranceos/agent_release.py:75-76 | Of a key that is repeated in the text the parsed object keeps the last value. |
| `JsonLaws.TrailingText` | src/assuranceos/agent_release.py:75-76 | A printed document followed by more text is read if and only if all of that is spaces, tabs and line ends. |
| `JsonBytes.CanonicalDefined` | src/assuranceos/agent_release.py:17-20 | Canonical bytes exist if and only if no key or string anywhere in the document holds a surrogate; otherwise the encoding raises. |
| `JsonBytes.CanonicalIdentifies` | src/assuranceos/agent_release.py:17-20 | Canonical byte strings are equal if and only if the documents are equal up to member order. |
| `JsonBytes.PrintPlain` | scripts/release_agent_packages.py:61-70 | The ASCII form consists of line feeds and printable ASCII only, whatever the strings in the document. |
| `Utf8.DecodeEncode` | src/assuranceos/agent_release.py:18-20 | Strict decoding inverts UTF-8 encoding on every text that has one. |
| `Utf8.EncodeInjective` | src/assuranceos/agent_release.py:18-20 | Two texts have the same UTF-8 bytes only if they are the same text. |
| `Utf8.DecodeMeans` | src/assuranceos/agent_release.py:75-76 | Bytes decode strictly to a text if and only if they are its encoding, so no overlong form and no surrogate passes (RFC 3629, section 3). |
| `Release.PackageFiles` | src/assuranceos/agent_release.py:23-30 | The loop over a directory listing fills the map with path and digest of every file except the two release files and anything under the top-level `__pycache__/`. |
| `Release.FilesOfGet` | src/assuranceos/agent_release.py:23-30 | Looking up any path in that map gives the digest of the file's bytes if the file exists and is covered, and nothing otherwise. |
| `Release.FilesListed` | src/assuranceos/agent_release.py:23-30 | Every file of a directory is listed with the digest of its own bytes, but for `release.json`, `release.signature.json` and whatever starts with `__pycache__/`. |
| `Release.DocumentMeans` | src/assuranceos/agent_release.py:37-50 | The release document holds exactly six entries: the schema, the agent, the version and the time it was given, the file map, and the digest of the canonical bytes of that map. |
| `Release.SignatureMeans` | src/assuranceos/agent_release.py:53-67 | The signature document holds exactly the schema, the algorithm, the key identifier, the fingerprint of the public key and the signature of the message in standard base64. |
| `Release.FilesIdentifyPackage` | src/assuranceos/agent_release.py:87-88 | With a collision-free hash, two directories have equal file maps if and only if they agree on every covered file. |
| `Release.DigestOrderFree` | src/assuranceos/agent_release.py:33-34 | The package digest is the same for two listings if and only if they agree on every covered file, so listing order never reaches it. |
| `Release.FileRoundTrip` | scripts/release_agent_packages.py:61-70 | A document written to disk as indented ASCII JSON, encoded, read with newline translation and parsed comes back in canonical order. |
| `Release.SignatureReads` | scripts/release_agent_packages.py:66-70 | The written signature file reads back whole for every key identifier, whose surrogate pairs come back joined. |
| `Release.CanonGet` | src/assuranceos/agent_release.py:77-90 | Sorting an object's keys leaves every `get` as it was, up to sorting inside the value. |
| `Release.PublishDefined` | scripts/release_agent_packages.py:54-70 | Build, sign and write succeed if and only if every covered path and the three named texts have a UTF-8 encoding, whatever the key identifier. |
| `Release.SurrogatePathFails` | src/assuranceos/agent_release.py:33-34 | A concrete directory, of one file whose name is not UTF-8, that is listed and cannot be published. |
| `Release.VerifyCarried` | src/assuranceos/agent_release.py:70-102 | The verdict on any directory that carries the files published for another: accepted with the published document exactly when the two file maps are equal, otherwise refused as a file manifest mismatch. |
| `Release.PublishedVerifies` | src/assuranceos/agent_release.py:37-102 | Every directory that can be published verifies under the signing key, and verification returns the published document. |
| `Release.TamperingDetected` | src/assuranceos/agent_release.py:87-90 | With an ideal hash and signature, once published, adding, removing or editing any covered file is refused as a manifest mismatch, and any other change outside the two release files is accepted. |
| `Release.SignatureBindsDocument` | src/assuranceos/agent_release.py:91-101 | Whatever replaces the written release document, verification under the signing key beside the written signature accepts nothing but the signed document up to member order. |
| `Release.AcceptedMeans` | src/assuranceos/agent_release.py:70-102 | For every directory and every key, verification returns a document if and only if: the key is Ed25519; both files are there and read as objects, the first as that document; both schemas and the algorithm are the expected ones; the file map equals that of the directory and the digest that of its canonical bytes; the recorded fingerprint is the key's; and the recorded signature decodes strictly and checks under that key for the document's canonical bytes. |
| `Release.RefusedFor` | src/assuranceos/agent_release.py:77-101 | Of two documents that read, when exactly each refusal is given: the schemas and the algorithm, the file manifest, a key of another kind, a fingerprint that is not the key's, a signature that is not text. |
| `Release.DigestRefused` | src/assuranceos/agent_release.py:87-90 | With the file map right, the digest is refused if and only if it is not that of the map's canonical bytes, and a name without an encoding raises instead. |
| `Release.UnreadRefused` | src/assuranceos/agent_release.py:70-76 | When exactly a directory is refused before any document is looked into: a file is missing, one does not read as JSON, or one holds no object. |
| `Release.OneKeyOnly` | src/assuranceos/agent_release.py:91-101 | What verifies under one key is refused under every other Ed25519 key for its fingerprint, and under a key of another kind for that. |
| `Release.OnlySigningKey` | src/assuranceos/agent_release.py:37-102 | A published directory verifies under the key that signed it and under no other: any other Ed25519 key is refused for its fingerprint, any other kind of key as such. |
| `Base64.RoundTrip` | src/assuranceos/agent_release.py:98 | Decoding inverts encoding for every byte string, in both alphabets, validating or not (RFC 4648, sections 4 and 5). |
| `Base64.StrictMeans` | src/assuranceos/agent_release.py:98 | Validating decoding accepts a text if and only if it is digits of the standard alphabet, their number not one more than a multiple of four, followed by exactly the pads the last group lacks; behind whole groups any number of pads passes. |
| `Base64.EncodeShape` | scripts/make_evaluator_token.py:51 | An encoding is its data digits followed by exactly the pads that fill the last group of four, and no pad before. |
| `Base64.Vectors` | scripts/make_evaluator_token.py:51 | The test vectors of section 10 of RFC 4648, and the two digits in which the URL alphabet differs. |
| `Base64.RepadStrip` | src/assuranceos/api.py:3243-3244 | Stripping the pads and re-padding by `-len % 4` restores the encoding; the stripped length is never 1 modulo 4 and no pad is left in it (RFC 4648, section 3.2). |
| `Jwk.ToBytesRoundTrip` | scripts/make_evaluator_token.py:50 | For every natural number the minimal big-endian bytes exist, read back as the number, have the computed length and no leading zero octet. |
| `Jwk.ToBytesUnique` | scripts/make_evaluator_token.py:50 | Any byte string without a leading zero octet is the one printed for the number it denotes. |
| `Jwk.UintRoundTrip` | scripts/make_evaluator_token.py:49-51 | Every natural number is recovered by re-padding, decoding and reading its printed form, which holds no pad and is never 1 modulo 4 long. |
| `Jwk.StandardForm` | scripts/make_evaluator_token.py:49-51 | The printed form is the Base64urlUInt of section 2 of RFC 7518 if and only if the number is positive; zero prints as the empty text where the standard wants one octet. |
| `Jwk.PublicExponent` | scripts/make_evaluator_token.py:49-51 | The exponent 65537 prints as `AQAB` (RFC 7517, appendix A.1). |
| `Jwk.ClaimsRoundTrip` | src/assuranceos/api.py:3243-3245 | Claims printed in any style, encoded and stripped into the middle segment of a token are read back whole by splitting, re-padding, decoding and parsing. |
| `Throttle.EvaluatorThrottle.Throttle` | src/assuranceos/api.py:3174-3185 | One locked step of the throttle: the table after it and whether it admits, for every table, client and time read. |
| `Throttle.EvaluatorThrottle.ThrottleClear` | src/assuranceos/api.py:3188-3190 | Clearing removes the client's entry and no other. |
| `Throttle.EvaluatorThrottle.Exchange` | src/assuranceos/api.py:3203-3219 | The session exchange on the settings and the submitted code: refused without configuration and with the table untouched; refused when throttled; a code without an encoding raises and a wrong one is refused, both with the attempt on record; exactly the configured code, blanks around it aside, clears the entry. |
| `Throttle.RejectionChangesNothing` | src/assuranceos/api.py:3174-3185 | An attempt is refused if and only if the client's window is at most 300 s old and holds ten attempts already, and a refusal leaves the table as it was. |
| `Throttle.ClearMeans` | src/assuranceos/api.py:3188-3190 | After a clear the client's next attempt is admitted as the first of a new window, and no other client notices. |
| `Throttle.Isolation` | src/assuranceos/api.py:3174-3190 | Over every interleaving, a client's entry and admissions are those of the run reduced to its own steps. |
| `Throttle.TableRefinesLog` | src/assuranceos/api.py:3174-3185 | Over every interleaving without a clear of the client, the table is the last window of a log that never forgets, and the log's stamps are exactly the admissions. |
| `Throttle.RunWindows` | src/assuranceos/api.py:3168-3185 | A client's windows start more than 300 s apart and admit one to ten attempts each, all near their window, for stamps at most `lag` seconds out of lock order. |
| `Throttle.IntervalBound` | src/assuranceos/api.py:3168-3185 | Any interval of a given length admits at most 10 * (ceil((length + lag) / 300) + 1) attempts of a client never cleared; with stamps in lock order, `lag` is zero. |
| `Throttle.LateStampsExceedBound` | src/assuranceos/api.py:3175-3176 | For every lag above zero, however small, a run with stamps at most that far out of lock order admits 28 attempts in less than 300 s, where ordered stamps allow 20. |
| `Throttle.OrderedBoundExact` | src/assuranceos/api.py:3174-3185 | The bound of 10 * (ceil(length / 300) + 1) holds of all runs whose stamps are at most `lag` seconds out of lock order if and only if `lag` is zero. |
| `Delegation.MapTasks` | src/assuranceos/delegation.py:192 | The dict comprehension maps each task identifier to the engagement of its last row. |
| `Delegation.CountDecisions` | src/assuranceos/delegation.py:193-197 | The counter of every engagement is the number of decisions it owns, directly or through their task. |
| `Delegation.CountTasks` | src/assuranceos/delegation.py:198-201 | The two counters hold each engagement's tasks and its tasks already started. |
| `Delegation.CollectRoles` | src/assuranceos/delegation.py:202-207 | Each engagement's set holds exactly the agent roles of its tasks. |
| `Delegation.SelectEngagement` | src/assuranceos/delegation.py:186-217 | Without a request, the result is a listed engagement no listed one outranks, and none only for an empty list; with one, the engagement of that identifier if listed. |
| `Delegation.RankPermuted` | src/assuranceos/delegation.py:192-216 | An engagement's rank is the same for every order of the task and decision rows. |
| `Delegation.RankMeans` | src/assuranceos/delegation.py:192-216 | What an engagement is ranked by, on the rows themselves: whether some decision names it or, naming no engagement, a task whose last row is in it; the agent roles on its tasks; its tasks neither pending, ready nor blocked; its tasks. |
| `Delegation.TopUniqueAndOrderFree` | src/assuranceos/delegation.py:208-217 | The top engagement is unique and the same for every order of the engagement, task and decision rows. |
| `Delegation.AuthorityFirst` | src/assuranceos/delegation.py:208-216 | If some listed engagement has an attributed decision, the selected one has one. |
| `Delegation.TopMeans` | src/assuranceos/delegation.py:208-216 | Against every listed engagement the selected one has a decision if the other has; alike in that, at least as many roles; alike in those, as many started tasks; then as many tasks; then an identifier at least as great. |
| `DelegationRows.OrderedRoles` | src/assuranceos/delegation.py:228-234 | The roles come in order of first appearance, without repeats and without the roles that carry no agent. |
| `DelegationRows.Agents` | src/assuranceos/delegation.py:235-303 | The rows built from each role's own task identifiers, decisions, denials and findings through the map from trace to task are those the conservation laws are about. |
| `DelegationRows.MapTraces` | src/assuranceos/delegation.py:128-130 | The dict comprehension leads each trace to the task of its last row that names one. |
| `DelegationRows.RowPerSpecialist` | src/assuranceos/delegation.py:228-234 | There are as many rows as the totals count specialist agents. |
| `DelegationRows.TasksConserved` | src/assuranceos/delegation.py:242-270 | Row task counts and the tasks of no agent add up to all the tasks. |
| `DelegationRows.FindingsConserved` | src/assuranceos/delegation.py:290-300 | Every finding whose trace leads to an agent's task falls into exactly one row and every other into none; the row sums are the count of the former. |
| `DelegationRows.DecisionsCounted` | src/assuranceos/delegation.py:243-248 | The row sums of allow (or deny) are the decisions filed under some row plus, once more, those filed under two. |
| `DelegationRows.DecisionsConserved` | src/assuranceos/delegation.py:243-248 | The row sums equal the filed decisions if and only if no decision names one listed agent on the task of another. |
| `DelegationRows.ConsistentDecisionsConserved` | src/assuranceos/delegation.py:243-248 | When every decision names its own task's role, the row sums equal the decisions of the listed roles. |
| `DelegationRows.CrossFiledDecision` | src/assuranceos/delegation.py:243-248 | A concrete decision by one agent on another agent's task is counted on both rows. |
| `DelegationRows.HandoffLists` | src/assuranceos/delegation.py:306-322 | The handoff is the engagement's tasks, each once, sorted by priority, creation and key, numbered from one. |
| `DelegationRows.ScopedOrderFree` | src/assuranceos/delegation.py:108-115 | With task keys unique in an engagement, the sorted tasks and the handoff do not depend on the order of the rows. |
| `DelegationRows.EngagementDelegation` | src/assuranceos/delegation.py:99-159 | The whole view is that of the selected engagement, scoped to it, or the empty view when there is none to show. |
| `DelegationRows.ViewConserves` | src/assuranceos/delegation.py:108-159 | In the view, rows match the specialists, row tasks and unassigned tasks make up the total and the handoff, and every scoped finding is in one row or on a task of no agent. |
| `DelegationRows.TotalsMean` | src/assuranceos/delegation.py:108-135 | The view's totals, counted over the raw rows: allowed and denied are the decisions of that verdict which name the engagement or the identifier of one of its tasks, blocks the blocked findings whose trace, in its last row that names a task, names one of its tasks; and its agent roles, tasks and human gates. |
| `DelegationRows.RowMeans` | src/assuranceos/delegation.py:220-303 | Each row, counted over the raw rows: the role is an agent's on some task of the engagement; allowed and denied are the decisions of the engagement that name the role or one of its tasks; findings are those traced to one of its tasks; executed its started tasks. |
| `DelegationRows.HandoffInOrder` | src/assuranceos/delegation.py:108-116 | Of two tasks in the handoff the earlier has the smaller priority or, alike in that, was created earlier or, alike in both, has the smaller key. |
| `DelegationRows.HandoffRoles` | src/assuranceos/delegation.py:306-322 | A step shows its task's role, and `orchestrator` where the task has none. |
| `DelegationRows.ViewOrderFree` | src/assuranceos/delegation.py:65-159 | The view, counts and all, is the same for every order of the engagement, task and decision rows, which the queries leave open. |
| `Rounding.RoundingUnique` | src/assuranceos/economics.py:322-331 | Being within half a unit and even when exactly half off determines the rounded number. |
| `Rounding.RoundingMonotone` | src/assuranceos/economics.py:322-331 | Half-even rounding never reverses an order. |
| `Economics.Usage` | src/assuranceos/economics.py:234-249 | The loop and the final sort return the usage specification that the laws below are about. |
| `Economics.UsageConserved` | src/assuranceos/economics.py:234-261 | Calls, input and output tokens per model add up to the measured totals; the entries are strictly sorted and there is one for each model that served a span and for no other. |
| `Economics.UsagePerModel` | src/assuranceos/economics.py:237-249 | Each entry holds the number of spans its own model served and the sums of their input and output tokens. |
| `Economics.UsageMeans` | src/assuranceos/economics.py:234-249 | Each entry, on the spans' own fields: how many model spans name that model, those naming none counting as `unknown`, and the sums of their recorded tokens. |
| `Economics.BasisMeans` | src/assuranceos/economics.py:97-112 | The basis on the spans' own fields. A model call names a real model when the name is neither empty, `scripted` nor `unknown`. The basis is none if and only if there is no call, metered if and only if there are calls and all name a real model, scripted if and only if there are and none does, and mixed if and only if some do and some do not. |
| `Economics.CaveatMeans` | src/assuranceos/economics.py:350-375 | The caveat is absent if and only if there are model calls and each names the priced model, a real one; otherwise it says there were none, that all or some were scripted, or who served them, by the basis. |
| `Economics.IntroductoryIsHalf` | src/assuranceos/economics.py:313-331 | For all token counts, twice the introductory figure and the list figure differ by at most one millionth of a dollar. |
| `Economics.CostMeans` | src/assuranceos/economics.py:305-330 | The prices on the spans' own tokens: 1.5 and 7.5 dollars a million input and output tokens for `gemini-3.7-flash`, half of each introductory, nothing for any other model, rounded to a millionth. |
| `Economics.Projection` | src/assuranceos/economics.py:422-454 | The three points, for 50, 500 and 5000 documents, computed in dollars and rounded to four places, are the specified ones; their input tokens are twice the documents' tokens plus 6000, and no larger size is cheaper at either price. |
| `Economics.MeasuresMean` | src/assuranceos/economics.py:422-435 | What the projection measures: the mean of the sizes above zero, and the mean output of the model calls when all of them were metered. |
| `Economics.EstimatesMean` | src/assuranceos/economics.py:422-435 | The estimates that follow: tokens a document are the mean size over 3.5, rounded, and output is twice the mean output, rounded, or 1500 where that is nothing. |
| `Economics.ProjectionMonotone` | src/assuranceos/economics.py:437-454 | Projected prices, list and introductory, never fall when documents, tokens per document or output tokens grow. |
| `Economics.OutputMonotone` | src/assuranceos/economics.py:426-432 | The output estimate respects the order of two measurements if and only if it is not the case that the smaller rounds to nothing and the larger to less than the default of 1500. |
| `Economics.OutputFallsBelowDefault` | src/assuranceos/economics.py:432 | A concrete larger measurement whose estimate is smaller than that of a measurement rounding to zero. |
| `Economics.RunsFitBudget` | src/assuranceos/economics.py:524-525 | The equivalent runs are the number r with r * price <= budget < (r + 1) * price. |
| `Economics.RunsAntitone` | src/assuranceos/economics.py:516-525 | Larger documents never raise the number of runs a budget buys, and never make the comparison disappear. |
| `Economics.ComparisonDrawn` | src/assuranceos/economics.py:525 | Equivalent runs are present if and only if the run has a price, some span is a model call, and every such span names a model that is neither empty, `scripted` nor `unknown`. |
| `Scm02.ReviewRecordFor` | src/assuranceos/collection_projection.py:224-257 | The two loops compute the review record: states in order, and the specified choice of pull request. |
| `Scm02.Project` | src/assuranceos/collection_projection.py:144-210 | One commit record and one review record per commit, at the same index and with the commit's identifier, each with its own evidence; a commit without a review row stays undetermined; the first commit without a date, or an empty population, is the error; the undetermined are counted. |
| `Scm02.ChoiceIsFirstLowest` | src/assuranceos/collection_projection.py:236-248 | The scan chooses the first lowest-numbered merged pull request with its own approvals, and nothing exactly when none is merged and numbered. |
| `Scm02.ChoiceMeans` | src/assuranceos/collection_projection.py:236-248 | On the list's own fields: no choice where none merged under a number; otherwise number and approvals of a merged one that no merged one undercuts and none before it equals. |
| `Scm02.ReviewMeans` | src/assuranceos/collection_projection.py:149-176 | A commit joins the last review row collected under its identifier, and none if there is no such row. |
| `Scm02.NamesMean` | src/assuranceos/collection_projection.py:156-161 | Identifier and repository of the payload, or those collected with it where the payload has none. |
| `Scm02.StatesMean` | src/assuranceos/collection_projection.py:228 | The states recorded are those of the pull requests that have one, in order. |
| `Scm02.ChoiceOrderFree` | src/assuranceos/collection_projection.py:236-248 | The choice is the same for every order of the list if and only if the lowest-numbered merged pull requests agree in number and approvals. |
| `Scm02.DistinctNumbersOrderFree` | src/assuranceos/collection_projection.py:243-248 | Distinct merged numbers make the choice independent of the order. |
| `Scm02.OrderShows` | src/assuranceos/collection_projection.py:236-248 | Two concrete pull requests merged under one number: listed in either order, each gives its own approvals. |
| `ResponseTargets.ResponseTargetsOf` | src/assuranceos/corpus.py:395-414 | The flagged loop over the lines returns the targets of the line-by-line specification. |
| `ResponseTargets.AddedMeans` | src/assuranceos/corpus.py:403-413 | A line adds a target if and only if it is inside the section, no heading, and a row of two cells or more of which the first is a priority and the second states hours; the target is those two. |
| `ResponseTargets.HoursMean` | src/assuranceos/corpus.py:408-412 | Digits, blanks or none, and a word that starts with `hour` or `business day` in any case state the number, or 24 times it; any other word states nothing. |
| `ResponseTargets.PriorityMeans` | src/assuranceos/corpus.py:406 | The priorities are `P1` to `P4` and nothing else. |
| `ResponseTargets.HeadingMeans` | src/assuranceos/corpus.py:400-402 | A stripped line that starts with `## ` opens the section if it goes on as the commitments heading, in any case, and closes it otherwise; any other leaves it. |
| `ResponseTargets.LineMeans` | src/assuranceos/corpus.py:398 | A line ends at the first of the ten line breaks, a carriage return taking a line feed behind it along. |
| `ResponseTargets.ParseAppend` | src/assuranceos/corpus.py:397-414 | Parsing two lists of lines joined is parsing the first and then the second under the flag the first leaves. |
| `ResponseTargets.ParseJoined` | src/assuranceos/corpus.py:397-414 | A page that ends in a line break joined with a page that opens with a level-two heading yields the targets of the one followed by those of the other. |
| `ResponseTargets.NothingOutsideSection` | src/assuranceos/corpus.py:399-403 | Without the commitments heading nothing is read, whatever tables the page holds. |
| `ResponseTargets.ClosedSection` | src/assuranceos/corpus.py:399-403 | After another level-two heading no line adds a target until the commitments heading returns, whatever came before it. |
| `ResponseTargets.DeeperHeadingKeepsSection` | src/assuranceos/corpus.py:399-403 | A `### ` line neither closes the section nor adds a target. |
| `ResponseTargets.PageRoundTrip` | src/assuranceos/corpus.py:396-414 | A printed section reads back as its commitments, in order, with business days turned into 24 hours each, whatever prose precedes the rows. |
| `ResponseTargets.PageTextRoundTrip` | src/assuranceos/corpus.py:387-414 | The same for the section as one text, split into lines. |
| `AccessReview.LatestListed` | src/assuranceos/corpus.py:339-344 | The campaign whose closing date is the greatest text is a completed one, and no completed one closed later. |
| `AccessReview.WithinInterval` | src/assuranceos/corpus.py:339-361 | The interval is met if and only if some completed campaign closed within the last 92 days or after the date asked about. |
| `AccessReview.StatusMeans` | src/assuranceos/corpus.py:339-361 | The status names a completed campaign that no completed one closed later than, the days since, and whether those are at most 92; without a completed campaign it names none and the interval is not met. |
| `Sarif.Outcome.File` | scripts/check_codeql_sarif.py:159-167 | Filing an entry appends it to its own bucket, changes no other and raises the total by one. |
| `Sarif.Outcome.Total` | scripts/check_codeql_sarif.py:63-70 | The total is the number of entries over all buckets. |
| `Sarif.Classify` | scripts/check_codeql_sarif.py:134-168 | Every bucket lists exactly the results that belong to it, in reading order, and the total is the number of results. |
| `Sarif.Report` | scripts/check_codeql_sarif.py:171-208 | The status returned is the specified exit status of the findings classified. |
| `Sarif.PassMeans` | scripts/check_codeql_sarif.py:193-208 | The status is 0 if and only if no finding blocks and every exclusion is the first match of some unsuppressed finding. |
| `Sarif.GateMeans` | scripts/check_codeql_sarif.py:134-208 | The gate on the reports' own fields: status 0 if and only if no run holds an unsuppressed result that no exclusion covers and whose rule, the last of its identifier in that run, has a severity at or above the threshold, and every exclusion is the first to cover some unsuppressed result. |
| `Sarif.SeverityMeans` | scripts/check_codeql_sarif.py:96-114 | The severity looked up for an identifier is that of the last rule of the run which carries it, and none without such a rule. |
| `Sarif.BucketMeans` | scripts/check_codeql_sarif.py:144-167 | The bucket of each result on its own fields: suppressed, excused by the first exclusion that names its rule and first named file, blocking, or reported under its severity to the nearest tenth. |
| `Sarif.EntryMeans` | scripts/check_codeql_sarif.py:117-149 | The entry shows the result's own rule, message and first location that names a file. |
| `Sarif.DuplicateExclusionFails` | scripts/check_codeql_sarif.py:151-158 | An exclusion declared twice for one rule and path makes the status 1, whatever the results. |
| `Sarif.ThresholdMoves` | scripts/check_codeql_sarif.py:159-167 | Raising the threshold moves exactly the blocking findings below the new one, and moves them to reported. |
| `Sarif.ThresholdMonotone` | scripts/check_codeql_sarif.py:193-208 | Raising the threshold never turns a pass into a failure. |
| `Sarif.DocumentOrderFree` | scripts/check_codeql_sarif.py:142-168 | Permuting the reports leaves the exit status as it was. |
| `Dates.PadOrder` | scripts/build_demo_corpus.py:160-165 | Numbers padded to one width compare as texts as they do as numbers, before anything that follows. |
| `Dates.BeforeMeansEarlier` | scripts/build_demo_corpus.py:163 | Of two valid dates the one with smaller year, month and day has the smaller ordinal, through leap years. |
| `Dates.Consecutive` | scripts/build_demo_corpus.py:163 | The day after any valid date, through ends of months, leap days and ends of years, has the next ordinal, counted from 1 on 1 January of year 1. |
| `Dates.IsoOrder` | scripts/build_demo_corpus.py:160-165 | For valid dates, `YYYY-MM-DD` texts compare as strings exactly as the dates do in time, and identify them (RFC 3339, section 5.1). |
| `Ledger.PaymentRunFor` | scripts/build_demo_corpus.py:160-165 | The run is the earliest that closes on or after the date, or the last-named one when all have closed. |
| `Ledger.RunMonotone` | scripts/build_demo_corpus.py:160-165 | A later date never gets an earlier run, for tables whose last name closes last. |
| `Ledger.ClosesAfterExactly` | scripts/build_demo_corpus.py:160-165 | The chosen run closes after the date if and only if some run does and none closes on the very day. |
| `Ledger.ClosesTooEarly` | scripts/build_demo_corpus.py:160-165 | With the table in use, 30 July 2026 gets the run that closes that day and 1 September 2026 one that has already closed. |
| `Ledger.PaymentRunsFacts` | scripts/build_demo_corpus.py:56-64 | The table in use has valid dates, distinct names, and its last name closes last. |
| `Ledger.TableMeans` | scripts/build_demo_corpus.py:56-64 | The table in use, run by run: seven names and their closing dates. |
| `Ledger.LastNamedMeans` | scripts/build_demo_corpus.py:165 | The run fallen back to has the greatest name of the table. |
| `Ledger.DrawDown` | scripts/build_demo_corpus.py:1368-1384 | For any order and any non-negative fractions, every draw takes the specified share, none is negative, they add up to the order to the cent, each row is in the run of its date, and the invoices are numbered on from the first. |
| `Ledger.ShareMeans` | scripts/build_demo_corpus.py:1368-1373 | The last draw takes what is left; any other takes its part of the order, or what is left where that is less; what is drawn grows by exactly that. |
| `Ledger.PartMeans` | scripts/build_demo_corpus.py:1371 | A part is the order's cents times the fraction, to the nearest cent, and to the even one of two. |
| `Ledger.AppendLines` | scripts/build_demo_corpus.py:1389-1420 | Orphan and credit lines are appended with their own amounts, dates and consecutive numbers, each in the run of its date. |
| `Ledger.DrawAll` | scripts/build_demo_corpus.py:1350-1384 | All orders drawn: one row per draw, none negative, summing to the orders, and numbered `INV-9100` onward. |
| `Ledger.InvoiceRows` | scripts/build_demo_corpus.py:1350-1426 | For any ledger of more than 118 lines: draws and orphans are entered as `INV-9100` onward and credits as `CN-` with the numbers that follow; the finished rows are those and the 119th of them once more, sorted by date and number, and sum to orders, orphans, credits and that line. |
| `Ledger.RowOrder` | scripts/build_demo_corpus.py:1420 | The rows are ordered by the day they are dated and, on one day, by number. |
| `Ledger.RunTotals` | scripts/build_demo_corpus.py:1436-1439 | The dict of totals holds, for every run name, the number and the sum of its own rows. |
| `Ledger.SheetConserves` | scripts/build_demo_corpus.py:1446-1453 | For any rows placed in a table of distinctly named runs, the sheet's counts add up to the number of rows and its totals to their sum. |
| `Ledger.PaymentRunSheet` | scripts/build_demo_corpus.py:1350-1453 | The whole generation: the sheet accounts for every row and for every cent of orders, orphans, credits and the duplicate. |
| `Extractor.Scan` | src/assuranceos/agent_audit_demo.py:231-242 | The character loop stops at the first non-empty prefix whose braces balance, and nowhere if there is none. |
| `Extractor.ExtractRun` | src/assuranceos/agent_audit_demo.py:216-242 | The result is the parsed prefix of the block after the marker and `result:`, and the empty object when a step finds nothing or the prefix does not parse. |
| `Extractor.FindIsFirst` | src/assuranceos/agent_audit_demo.py:219-229 | The search returns the first place the needle stands at, and none exactly when it stands nowhere. |
| `Extractor.PrintBraces` | src/assuranceos/agent_audit_demo.py:231-237 | The braces of a print are those of its keys and strings and a pair for every object, in order, whatever the style: escaping and layout move none. |
| `Extractor.ObjectClosesExactly` | src/assuranceos/agent_audit_demo.py:230-237 | The print of an object, in any style and at any depth, closes at its end and not before if and only if the braces of its keys, strings and nested objects balance in print order. |
| `Extractor.ScanEndsExactly` | src/assuranceos/agent_audit_demo.py:230-237 | The scan stops right behind a printed object if and only if those braces balance, whatever follows. |
| `Extractor.ScanReturnsObject` | src/assuranceos/agent_audit_demo.py:231-240 | What is read back is the printed object if and only if those braces balance: cut short it does not parse, and with anything else behind it neither does it. |
| `Extractor.PromptRoundTrip` | src/assuranceos/agent_audit_demo.py:216-242 | The same equivalence from the prompt on, when the first brace after the first `result:` after the first marker opens the object. |
| `Extractor.BraceFreeTexts` | src/assuranceos/agent_audit_demo.py:231-237 | Strings without braces balance one by one. |
| `Extractor.TextsBalance` | src/assuranceos/agent_audit_demo.py:231-237 | Strings that balance one by one balance together. |
| `Extractor.OpenedThenClosed` | src/assuranceos/agent_audit_demo.py:231-237 | `{"a": "{", "b": "}"}`: strings that balance only together. |
| `Extractor.ClosedThenOpened` | src/assuranceos/agent_audit_demo.py:231-242 | `{"a": "}", "b": "{"}` is lost in every style and whatever follows it. |
| `Scm01.RunPopulationTest` | src/assuranceos/deterministic.py:28-84 | One result per change, each judged on the records' own fields: out of period if and only if the instant is not in July 2026 UTC; else an approved exception if and only if an active exception carries its key, which is not empty; else effective if and only if it has an approval and the last ticket of its identifier is `Approved`; else a control exception. The exceptions are the control exceptions in order; population and out-of-period changes make up all; effective if and only if there is no control exception; a time without offset is the error. |
| `Scm01.ClassesPartition` | src/assuranceos/deterministic.py:45-56 | The four classes add up to the population. |
| `Scm01.OffsetInvariant` | src/assuranceos/deterministic.py:22-25 | Rewriting merge times with other offsets for the same instants changes no class. |
| `Timestamps.ReadWritten` | src/assuranceos/deterministic.py:22-25 | A timestamp written to the second, with an offset, a `Z` or neither, is read for the moment and the offset it means. |
| `Timestamps.ReadMeans` | src/assuranceos/deterministic.py:22 | A text is read for a moment and an offset if and only if it spells a valid date, time and zone of that meaning, digit by digit. |
| `Timestamps.Sample` | src/assuranceos/deterministic.py:22 | `2026-07-01T10:30:15-05:30`, letter by letter, and the moment it means. |
| `Scm01.RewrittenOffset` | src/assuranceos/deterministic.py:22-25 | A merge time written with another offset for the same moment is read into the same class. |
| `Scm01.OffsetRequired` | src/assuranceos/deterministic.py:22-25 | A written timestamp is refused if and only if it carries neither an offset nor a `Z`. |
| `Scm01.OffsetMatters` | src/assuranceos/deterministic.py:14-25 | The text `2026-07-01T00:30:00+02:00` starts like July and is read as out of period. |
| `Scm01.ExceptionsShrink` | src/assuranceos/deterministic.py:45-56 | More approvals and more active exceptions only remove entries from the sequence of control exceptions. |
| `Backfill.AuditEvents.Update` | migrations/versions/0002_durable_orchestration.py:36-46 | The statement sets the two columns of the row of an identifier and touches no other row. |
| `Backfill.AuditEvents.Upgrade` | migrations/versions/0002_durable_orchestration.py:23-46 | After the loop every row carries its stream and one plus the number of earlier events of its tenant and stream, and nothing else changed. |
| `Backfill.StreamMeans` | migrations/versions/0002_durable_orchestration.py:32 | The stream is the task; without one the engagement; without either `tenant:` and the tenant. |
| `Backfill.SequenceMeans` | migrations/versions/0002_durable_orchestration.py:24-35 | The number is one plus the rows of the same tenant and stream that are earlier in time or, at one time, smaller by identifier. |
| `Backfill.StreamNumbers` | migrations/versions/0002_durable_orchestration.py:30-35 | The n-th event of a stream in order carries number n. |
| `Backfill.StreamGapless` | migrations/versions/0002_durable_orchestration.py:30-35 | Every number from one to the size of the stream is taken. |
| `Backfill.StreamBounded` | migrations/versions/0002_durable_orchestration.py:30-35 | No number exceeds the size of the stream. |
| `Backfill.NumbersFollowOrder` | migrations/versions/0002_durable_orchestration.py:24-35 | Within a stream a smaller number means an earlier (time, identifier), and conversely. |
| `Backfill.UniqueConstraintHolds` | migrations/versions/0002_durable_orchestration.py:52-54 | Two rows with equal tenant, stream and number are one row, so the constraint added afterwards holds. |

## Left out

- SHA-256 and Ed25519: parameters of the model. Publishing relies on digests
  being plain text and on signatures verifying for their own message; detection
  also on no two inputs sharing a digest and no signature serving two messages.
- Release.PackageFiles: the directory walk is a listing in any order; the sort
  by path components before the loop and reading the files are not modelled.
- The rest of the release script: the manifest's release fields, loading PEM
  keys, checking the number of packages.
- JsonLaws.SameIffCanon: Python counts `True` equal to 1 and prints them apart;
  here they differ. No file map holds either.
- JsonLaws.DumpJoins: keys with split pairs, which could collide once joined.
- JSON numbers with a fraction or exponent and the non-standard constants:
  the parser refuses them; integers are unbounded, without Python's limit on
  digits.
- Jwk.ClaimsRoundTrip: the payload is decoded as UTF-8 without detecting other
  encodings, and turning the claims into role, tenants and expiry is left out.
- Base64.StrictMeans: which texts the validating mode accepts is exact, but not
  which bytes a text with unused bits in its last digit decodes to; of the
  lenient mode nothing is claimed beyond encodings.
- Throttle.EvaluatorThrottle.Exchange: one request at a time; the run laws
  interleave its two locked steps with those of others.
- Throttle.IntervalBound: runs in which the client's entry is cleared; a
  successful exchange clears it on purpose, and then no such bound holds.
- Delegation and its rows: package manifests, permitted and called tools, the
  reasons of denials and the finding titles. Roles are lowered in ASCII only.
- Economics: IEEE rounding (exact numbers instead), wall clock and agent
  seconds, the sums over tasks and tests that do not enter a price.
- ResponseTargets.ResponseTargetsOf: case folding and digits beyond ASCII.
- AccessReview.WithinInterval: reading the workbook; dates are values.
- Scm02.Project: evidence identifier lists, the wording of notes and the
  fallback that cuts a repository out of a locator, which is a parameter.
- Sarif.Classify: severities that are not finite numbers, the formatting of
  entries and of the report.
- Scm01.RunPopulationTest: reading the files. Merge times arrive as read;
  Timestamps.ReadWritten covers the extended form to the second, not the other
  forms `fromisoformat` accepts.
- Ledger.DrawDown: random draws are inputs and arithmetic is in cents, so the
  re-rounding of float sums is not visible; vendors, currencies, approvals and
  payment status are left out.
- Extractor.ExtractRun: a result with a fraction or an exponent parses in the
  code and is the empty object here, as the reader modelled has no floats.
- Extractor.PromptRoundTrip: nesting depth limits of the JSON reader.
- Backfill.AuditEvents.Upgrade: the schema changes around the loop; all rows
  are read before the first is written.
- HTTP, the database, files and configuration; the orchestrator, the vault, the
  gateway and the adjudication engine.
