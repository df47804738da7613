# Verification of nauro's deterministic kernel

This project models, in Dafny, the parts of nauro that decide what a decision store means
and what may be written to it, and proves what those parts promise. nauro keeps decisions
as numbered Markdown files that may supersede one another, a file of open questions, a
state file, and a hosted ledger of title and content claims; a command-line client refreshes
its credentials from several threads and processes.

How the project is laid out:

- **Supersession integrity.** `Reachability`, `Tarjan`, `Doctor`: the iterative
  strongly-connected-components walk with its explicit work stack and the diagnosis of a store.
  `Repair`, `RepairPlan`, `RepairProof`: the planner of the one machine rewrite, exactly when it
  refuses and when it plans, and the proof that applying its plan heals the store and creates no
  defect. `Components`, `ComponentFacts`: the undirected components of the same graph.
- **Judgment commits.** `Claims`, `Commit`, `Slugs`, `CommitRuns`, `Ledger`: claim probes and
  intents, planning against a committed generation, finalization, and a state machine in which
  any number of commits enter, publish and give up.
- **Token refresh.** `Refresh`: a transition system of threads in processes, with logins and
  logouts at any moment; each section under the configuration lock is one step.
- **Open questions.** `Decimal` (ids), `QuestionLines`, `HeadForms` (entry heads), `Questions`,
  `BlockForms` (blocks, the parser and the printer), `QuestionFormat` (what printing does),
  `QuestionOps` (entries as a function of lines), `QuestionEdits`, `QuestionRequests`,
  `QuestionMigrate`, `QuestionEntries`, `QuestionNormalize`, `QuestionPlaces`, `QuestionReparse`,
  `QuestionAnchors`, `QuestionHistory`, `QuestionResolution` (the edits, one by one, through text
  and over histories), `Bounded`, `BoundedEntries` (the bounded rendering).
- **Fast forms and codecs.** `TailWalk`, `TailScan` (the newest-first read and its parse memo
  against the full scan), `Fisher`, `FisherSums`, `Binomial` (the exact enumeration behind the
  homogeneity test), `DecisionBody`, `BodyTexts` (writing and splitting a decision body),
  `StateUpdate`, `StateTexts` (plan against local operation).
- `Common`, `Sorting`, `Picking`, `Text`, `Identifiers`, `NumberForms`: shared vocabulary.

Loops that the code writes as loops are methods proved against a specification function;
what the code promises is then proved about that function, and what the function computes is
stated apart from its body, by positions, counts or texts. The reader's entry point in each
file is the last section.

Text is ASCII. A document is the list of its lines, none of which holds a newline. A text of
several lines that is handed to an operation (a question, a rationale, a reason, a delta) is the
list of its lines too.

## Where the code falls short of its own promise

- Printing a parsed questions file is described as a projection. It is one exactly when the
  file header is not a `# ` followed by nothing but blanks: that header prints as `#`, which is
  prose to the next read, and a second header appears (`QuestionFormat.FormatIsProjection`,
  `QuestionFormat.BareHeaderExample`). The same condition decides whether resolving questions
  twice gives the same bytes (`QuestionResolution.ResolveDocumentTwice`).
- The bounded rendering keeps or lists every discovery pointer, except one whose own
  continuation line reads `## Resolved` and is the first such line: it is in no piece
  (`Bounded.PointerPlaced`, `Bounded.CrossingExample`).
- A question is appended as it is given (packages/nauro-core/src/nauro_core/operations/flag_question.py:73-81).
  When its second or a later line reads as an entry head, the file gains that entry: a number may
  be carried twice, or a skipped one appear (`QuestionHistory.RepeatedNumberExample`,
  `QuestionHistory.SecondLineAdds`). Numbers stay distinct exactly when what a question brings
  does not clash, which a caller can check (`QuestionHistory.NumbersStayDistinct`). Two other
  writers refuse a newline: packages/nauro-core/src/nauro_core/operations/share_context.py:153 and
  packages/nauro/src/nauro/store/question_contract.py:97.
- A `## ` line with nothing behind it prints as `##`, which is prose to the next read. Text below
  a resolved entry may then come to stand under another one (`QuestionAnchors.BareSectionExample`);
  without such lines it does not (`QuestionAnchors.NormalizeKeepsLineAnchors`).
- Two different decisions may be one content claim when a title holds a bar: the hashed text does
  not show where the title ends (`Claims.BarExample`; `Claims.HashEqualIff` for all others).
- The name of a rejected alternative may hold a newline, and then does not read back
  (`DecisionBody.LongNameExample`).
- A rejected reason that leaves a fence open turns the fences of the next reason inside out, and
  an anchor fenced there becomes the last unfenced one (`DecisionBody.OpenFenceExample`). The
  exact condition is over the section as written (`DecisionBody.SectionRoundTrip`); reasons that
  each close their own fences are enough (`DecisionBody.PartsRoundTrip`).

By design, and worth knowing: the local state operation leaves the length limit on a delta to
its callers (packages/nauro/src/nauro/mcp/tools.py:909-914 checks it), while the plan checks it
itself. The two agree exactly up to the limit (`StateUpdate.Store.UpdateState`,
`StateUpdate.LongDeltaExample`); one caller, packages/nauro/src/nauro/cli/commands/import_cmd.py:136,
reaches the operation without a check.

## Model

| member | source | states |
|---|---|---|
| `Tarjan.StronglyConnectedComponents` | packages/nauro-core/src/nauro_core/doctor.py:304-352 | the iterative walk ends and returns the classes of mutual reachability: every node in exactly one, two nodes together iff each reaches the other |
| `Tarjan.StepRoot` | packages/nauro-core/src/nauro_core/doctor.py:319-326 | opening the frame of a root seen for the first time keeps the walk invariant |
| `Tarjan.LookAlong` | packages/nauro-core/src/nauro_core/doctor.py:326-337 | one edge of the top frame: a new node is opened, a stacked one may lower the low link; the invariant is kept and the walk progresses |
| `Tarjan.CloseFrame` | packages/nauro-core/src/nauro_core/doctor.py:338-351 | an exhausted frame is dropped: its component is popped iff its node heads one, and its low link is handed down; the invariant is kept |
| `Tarjan.PopThrough` | packages/nauro-core/src/nauro_core/doctor.py:340-347 | the inner pop loop takes exactly the stack from the head node up, as one component |
| `Tarjan.StepDetach` | packages/nauro-core/src/nauro_core/doctor.py:339-351 | a node whose low link is its own index heads a component: the detached stack segment is one whole reachability class |
| `Tarjan.StepClose` | packages/nauro-core/src/nauro_core/doctor.py:348-351 | a node whose low link is smaller reaches something older and stays stacked |
| `Tarjan.StepNew` | packages/nauro-core/src/nauro_core/doctor.py:330-335 | opening a neighbour seen for the first time keeps the invariant |
| `Tarjan.StepSeen` | packages/nauro-core/src/nauro_core/doctor.py:336-337 | a neighbour seen before changes at most the low link, soundly and completely |
| `Tarjan.AllVisited` | packages/nauro-core/src/nauro_core/doctor.py:304-352 | once every root is visited and nothing is open, the emitted components partition the nodes |
| `Reachability.OnCycleIff` | packages/nauro-core/src/nauro_core/doctor.py:281-301 | a node is on a non-empty directed cycle iff it has a self-loop or shares its component with another node |
| `Doctor.Cycles` | packages/nauro-core/src/nauro_core/doctor.py:281-301 | the report holds, once each and sorted, exactly the members of every non-empty directed cycle, self-loops included |
| `Doctor.InReportIff` | packages/nauro-core/src/nauro_core/doctor.py:281-301 | a number is named by the report iff it lies on a directed cycle |
| `Doctor.BuildAdjacency` | packages/nauro-core/src/nauro_core/doctor.py:281-301 | the adjacency built from both reference directions is the supersession graph |
| `Doctor.EdgeIff` | packages/nauro-core/src/nauro_core/doctor.py:281-301 | an edge is there iff some decision records it, as its own forward or its own back reference |
| `Doctor.IndexByNum` | packages/nauro-core/src/nauro_core/doctor.py:256-264 | the index holds, for each number, the first decision in scan order that carries it |
| `Doctor.DanglingRefs` | packages/nauro-core/src/nauro_core/doctor.py:267-278 | the loop over both fields returns the sorted dangling rows |
| `Doctor.DanglingExactly` | packages/nauro-core/src/nauro_core/doctor.py:267-278 | a row is reported iff some decision references a number no file carries, once for each decision and field that does, in key order |
| `Doctor.DanglingOrder` | packages/nauro-core/src/nauro_core/doctor.py:267-278 | the rows stand in the order of the decision, the field (back reference first) and the missing number |
| `Doctor.Contradictions` | packages/nauro-core/src/nauro_core/doctor.py:355-390 | the loop returns the sorted contradiction rows |
| `Doctor.ContradictionsExactly` | packages/nauro-core/src/nauro_core/doctor.py:355-390 | a contradiction is reported iff some decision is active though superseded, or claims one whose back reference names a third present decision, once for each that shows it, in key order |
| `Doctor.ContradictionOrder` | packages/nauro-core/src/nauro_core/doctor.py:355-390 | active though superseded stands before conflicting claims, each kind by its numbers in turn |
| `Doctor.SupersedeOrphans` | packages/nauro-core/src/nauro_core/doctor.py:393-421 | the guard chain returns the sorted half-written supersessions |
| `Doctor.OrphansExactly` | packages/nauro-core/src/nauro_core/doctor.py:393-421 | an orphan is reported iff an active child supersedes an active, unreferenced target, both numbers unique and off every cycle, once for each such child, in key order |
| `Doctor.Diagnose` | packages/nauro-core/src/nauro_core/doctor.py:171-208 | the diagnosis assembles the four reports over one scan |
| `Repair.Candidates` | packages/nauro-core/src/nauro_core/operations/repair.py:150-170 | the candidates are exactly the forward edges that still need a back reference |
| `Repair.CompetingReferences` | packages/nauro-core/src/nauro_core/operations/repair.py:232-260 | the loop and the look at the child give the competing numbers of the specification; which numbers those are is RepairPlan.CompetingIff |
| `RepairPlan.CompetingIff` | packages/nauro-core/src/nauro_core/operations/repair.py:232-260 | a number competes iff a decision of that number, not the child, says that the target supersedes it, or one that is not the target claims to supersede the child, or it is the child itself, retired or claimed |
| `Repair.RefusalsFor` | packages/nauro-core/src/nauro_core/operations/repair.py:197-215 | one candidate yields exactly its refusals, kind by kind |
| `Repair.Refusals` | packages/nauro-core/src/nauro_core/operations/repair.py:173-229 | a refusal is returned iff some candidate gives it or an unread file blocks every candidate |
| `Repair.PlanSupersedeRepair` | packages/nauro-core/src/nauro_core/operations/repair.py:113-147 | a plan is returned iff there is one lone orphan that no refusal blocks, and it names that child, target and file; when that is so is RepairPlan.PlanIff |
| `RepairPlan.RefusalsExactly` | packages/nauro-core/src/nauro_core/operations/repair.py:173-229 | a refusal of each kind is reported iff a pending supersession shows it over files and decisions: a number of two files, the class of a cycle, an unparseable only target file, all claimants of a target, all who refer to the pair from outside, or the unparseable files nothing accounts for |
| `RepairPlan.PlanIff` | packages/nauro-core/src/nauro_core/operations/repair.py:113-147 | a plan is returned iff the store has one half-written child, its pair takes no part in a pending supersession with an unreadable target, a second claimant or a reference from outside, and every unparseable file is the only file of a pending target |
| `RepairPlan.PlanIsolated` | packages/nauro-core/src/nauro_core/operations/repair.py:232-260 | with a plan, nobody but the child claims the target or says that the target supersedes it, none but the target supersedes the child, and the child is active and unclaimed |
| `RepairPlan.PlanWhenAlone` | packages/nauro-core/src/nauro_core/operations/repair.py:232-260 | when every file parses and the pair is the only pending supersession, a plan is returned iff nothing refers to the pair from outside |
| `RepairPlan.ChainExample` | packages/nauro-core/src/nauro_core/operations/repair.py:242-248 | in a chain of three decisions whose newest step is half-written no plan is returned, since the oldest names the middle one |
| `RepairPlan.PlanRewrites` | packages/nauro-core/src/nauro_core/operations/repair.py:263-290 | carrying the plan out rewrites the only file of the target: title and forward reference stay, status and back reference change |
| `RepairPlan.OneRowIff` | packages/nauro-core/src/nauro_core/doctor.py:393-421 | the orphan report is one row long iff the store has one half-written child |
| `RepairProof.PlanTarget` | packages/nauro-core/src/nauro_core/operations/repair.py:263-290 | a returned plan names a half-written supersession whose child is the only claimant of the target |
| `RepairProof.FlipConflictsIff` | packages/nauro-core/src/nauro_core/operations/repair.py:209-211 | writing the back reference leaves the contradictions as they were iff no other decision claims the target: the multiple-children refusal is exactly strong enough |
| `RepairProof.FlipGraph` | packages/nauro-core/src/nauro_core/operations/repair.py:263-290 | the back reference records an edge the child already records, so the supersession graph and its cycles are unchanged |
| `RepairProof.RepairHeals` | packages/nauro-core/src/nauro_core/operations/repair.py:113-147 | applying a plan and diagnosing again gives no orphan; cycles, contradictions, dangling references, stems per number and unparsed files are unchanged, and the list of active carriers of a title stays or loses one entry |
| `RepairProof.NoFurtherPlan` | packages/nauro-core/src/nauro_core/operations/repair.py:113-147 | whatever assessment the planner gives of the repaired store, it holds no orphan and no plan |
| `Claims.FinalizeJudgmentCommit` | packages/nauro-core/src/nauro_core/operations/_commit_finalize.py:26-63 | the two loops and the checks return the observations in probe order, or the error the specification names |
| `Claims.FinalizeOrderIndependent` | packages/nauro-core/src/nauro_core/operations/_commit_finalize.py:26-63 | every ordering of the same observations finalizes to the same plan or the same error |
| `Claims.FinalizedVerifies` | packages/nauro-core/src/nauro_core/operations/_commit_contract.py:685-698 | every plan that is finalized passes its own check: supplied observations in probe order, each settling its probe |
| `Claims.AnswerExactly` | packages/nauro-core/src/nauro_core/operations/_commit_contract.py:977-1003 | an observation of a claim held in flight is unavailable, a title or content found where none should be is a conflict, the hoped-for answer settles the probe, and everything else is a mismatch |
| `Claims.FinalizeErrors` | packages/nauro-core/src/nauro_core/operations/_commit_finalize.py:26-63 | over the raw observations: malformed, duplicate, unexpected and missing are given in this order, each iff it is the case and none before it is |
| `Claims.FinalizeAnswers` | packages/nauro-core/src/nauro_core/operations/_commit_finalize.py:26-63 | past those checks the first probe that the observation with its key does not settle gives its error; otherwise each observation stands in the place of its probe |
| `Ledger.ContractKeysDistinct` | packages/nauro-core/src/nauro_core/operations/_commit_contract.py:826-955 | no operation probes one claim key twice |
| `Ledger.ProbesSettle` | packages/nauro-core/src/nauro_core/operations/_commit_contract.py:826-955 | for each operation, the probes it builds are all answered as hoped iff its content is new, its target owned and its new title free or its own |
| `Ledger.ObserveSettles` | packages/nauro-core/src/nauro_core/operations/_commit_contract.py:977-1003 | an observation read from the ledger validates iff the committed claims answer the probe and no other commit reserves it |
| `Ledger.FinalizesIff` | packages/nauro-core/src/nauro_core/operations/_commit_finalize.py:26-63 | with the ledger's own observations in any order, finalization succeeds iff all probes are settled and none is reserved |
| `Ledger.AdmittedIff` | packages/nauro-core/src/nauro_core/operations/_commit_contract.py:826-1003 | when a commit is admitted, in terms of decisions alone: content new, target active, new title free |
| `Claims.HashEqualIff` | packages/nauro-core/src/nauro_core/validation.py:89-92 | two contents are one claim iff their stripped, lower-cased titles and rationales, joined by a bar, are the same text: with one title iff the rationales agree, without bars in titles iff both do |
| `Claims.BarExample` | packages/nauro-core/src/nauro_core/validation.py:89-92 | a bar in a title lets two different decisions be one claim |
| `Ledger.UpdateIsNew` | packages/nauro-core/src/nauro_core/operations/_commit_contract.py:826-955 | an update never has the content of the decision it updates |
| `Ledger.UpdateAdmittedIff` | packages/nauro-core/src/nauro_core/operations/_commit_contract.py:826-1003 | an update is admitted iff its target is active and no other content ever published equals it |
| `Ledger.ContentsAlong` | packages/nauro-core/src/nauro_core/operations/_commit_contract.py:826-1003 | over every run the claimed contents are the initial ones and exactly those published |
| `Ledger.PublicationEffect` | packages/nauro-core/src/nauro_core/operations/_commit_contract.py:826-955 | what the publication intents of each operation do to the committed titles and contents |
| `Ledger.PublishConsistent` | packages/nauro-core/src/nauro_core/operations/_commit_contract.py:826-955 | publishing an admitted commit keeps the ledger a mirror of the active decisions and adds exactly its content hash |
| `Ledger.ActiveTitlesUnique` | packages/nauro-core/src/nauro_core/operations/_commit_contract.py:826-955 | under the mirror no two active decisions share a normalized title |
| `Ledger.RunsKeepClaims` | packages/nauro-core/src/nauro_core/operations/_commit_contract.py:826-1003 | over every run of entering, publishing and abandoning commits: committed titles are exactly those of the active decisions, published numbers strictly increase, content hashes never repeat |
| `Ledger.PublishedTargetsActive` | packages/nauro-core/src/nauro_core/operations/_commit_contract.py:826-1003 | over every run, a published update or supersede targets a decision that is active at that moment, though no code checks it directly |
| `Ledger.PublishedIntentsFit` | packages/nauro-core/src/nauro_core/operations/_commit_contract.py:826-955 | over every run, each published intent finds the ledger as it supposes: titles retained, released or handed over belong to the decision named, and titles and contents committed are free |
| `Commit.ParseCommittedGeneration` | packages/nauro-core/src/nauro_core/operations/_commit_prepare.py:62-101 | reading every artifact succeeds iff every decision file parses, numbers are positive, unique and within the counter, and then lists exactly those decisions and stems |
| `Commit.FindTarget` | packages/nauro-core/src/nauro_core/operations/_commit_prepare.py:120-139 | the lookup by stem finds the named target iff the generation holds it |
| `Commit.BuildArtifacts` | packages/nauro-core/src/nauro_core/operations/_commit_prepare.py:142-250 | the step-by-step dictionary is the planned artifact map, with stem, primary, touched paths and counter; what those files hold is CommitRuns.NewDecisionWritten, CommitRuns.SupersededWritten and CommitRuns.UpdateWritten |
| `CommitRuns.NewDecisionWritten` | packages/nauro-core/src/nauro_core/operations/_commit_prepare.py:187-206 | an added or superseding decision is written to a new file under the next number: title, rationale and remaining fields of the payload, version 1, active, and naming the decision it supersedes |
| `CommitRuns.SupersededWritten` | packages/nauro-core/src/nauro_core/operations/_decision_transitions.py:131-139 | after a supersede the old file is inactive and names the new number; title, rationale, version, forward reference and the remaining fields stay |
| `CommitRuns.UpdateWritten` | packages/nauro-core/src/nauro_core/operations/_decision_transitions.py:109-124 | after an update the file is one version higher, its rationale begins with the old one and ends with the addition, both stripped, with a label between them; everything else stays |
| `CommitRuns.OthersKept` | packages/nauro-core/src/nauro_core/operations/_commit_prepare.py:142-250 | no other artifact is written or removed |
| `CommitRuns.PlannableIff` | packages/nauro-core/src/nauro_core/operations/_commit_prepare.py:253-352 | a payload is planned iff it is against this very, valid generation, names no decision or a file of it as its operation demands, brings a title or none, and has a rationale of twenty characters, and the checks outside the model pass |
| `Slugs.SlugExactly` | packages/nauro-core/src/nauro_core/operations/_decision_transitions.py:41-57 | the slug is the words of letters and digits of the lower-cased title with single dashes between them, whole when that fits in 60 characters, and otherwise cut at the last dash within them that leaves at least 30, or at 60 |
| `Commit.PrepareJudgmentCommit` | packages/nauro-core/src/nauro_core/operations/_commit_prepare.py:253-352 | a plan is prepared iff payload, base, generation, target and screening allow it, and it is the one value the specification gives |
| `CommitRuns.PlanTouches` | packages/nauro-core/src/nauro_core/operations/_commit_prepare.py:142-250 | only the primary, the superseded target and the questions file change; every other artifact stays |
| `CommitRuns.PlanIsValid` | packages/nauro-core/src/nauro_core/operations/_commit_prepare.py:62-250 | from a valid generation every plan is a valid generation under the new counter, and a new decision never overwrites a path |
| `CommitRuns.PreparedCrossValidates` | packages/nauro-core/src/nauro_core/operations/_commit_contract.py:584-667 | every value the planner builds, for all three operations, passes its own cross-check |
| `CommitRuns.PrimaryNumber` | packages/nauro-core/src/nauro_core/operations/_commit_prepare.py:142-250 | the written file name carries the decision's number: one past the counter when it is new |
| `Text.NormalizeTwice` | packages/nauro-core/src/nauro_core/operations/_commit_contract.py:427-430 | a normalized title is its own normal form |
| `Text.NormalTitlesEqualIff` | packages/nauro-core/src/nauro_core/validation.py:95-97 | two titles have one normal form iff their lower-cased words are the same |
| `Text.NormalShape` | packages/nauro-core/src/nauro_core/validation.py:95-97 | a normal form has the words of the lower-cased title, with single spaces between them |
| `Text.WordsIff` | packages/nauro-core/src/nauro_core/validation.py:95-97 | the words of a text are the one list of blank-free words that it spells with blanks between and around them |
| `Text.StripExactly` | packages/nauro-core/src/nauro_core/validation.py:89-92 | stripping takes the blanks off both ends and nothing else |
| `Text.LowerLetters` | packages/nauro-core/src/nauro_core/validation.py:95-97 | folding takes each capital to its small letter and leaves every other character alone |
| `Identifiers.FilenameNumber` | packages/nauro-core/src/nauro_core/parsing.py:101-120 | the file name rendered for a number and any slug reads back as that number |
| `NumberForms.NumberRead` | packages/nauro-core/src/nauro_core/parsing.py:101-121 | a number is read behind no prefix, a d or the word decision with its dash, in any letter case and with or without the file suffix: the run of digits there, whatever follows |
| `NumberForms.NumberForm` | packages/nauro-core/src/nauro_core/parsing.py:101-121 | every identifier that carries a number has that form |
| `NumberForms.PrefixExactly` | packages/nauro-core/src/nauro_core/parsing.py:101-121 | the prefix of a file name is three digits, or all of a longer number, and a dash |
| `Refresh.SingleFlight` | packages/nauro/src/nauro/auth.py:315-392 | in every reachable state at most one thread per process is between election and commit, and a thread outside, however it left, holds no lock |
| `Refresh.CommitNeverCrossesLogin` | packages/nauro/src/nauro/auth.py:370-388 | no commit writes over a refresh token that was read before a login or a logout |
| `Refresh.LogoutNeverUndone` | packages/nauro/src/nauro/auth.py:370-388 | after a logout the auth section stays cleared until somebody logs in, whatever refreshes were under way |
| `Refresh.ReplacedAtMostOnce` | packages/nauro/src/nauro/auth.py:370-388 | under rotation a stored refresh token is replaced by at most one refresh over all processes |
| `Refresh.LosersDoNotExchange` | packages/nauro/src/nauro/auth.py:330-350 | a caller with the same stale token that elects after a commit replaced it does no exchange and gets the stored token |
| `Refresh.ReturnedIsStored` | packages/nauro/src/nauro/auth.py:315-392 | every token a refresh returns is the stored access token at the end of its last locked section |
| `Refresh.OnlyWritersWrite` | packages/nauro/src/nauro/auth.py:315-392 | the stored section changes only at a login, a logout, or a commit that finds the token it exchanged; failed exchanges and timeouts leave it intact; what a commit leaves is Refresh.CommitOutcome |
| `Refresh.CommitOutcome` | packages/nauro/src/nauro/auth.py:370-390 | a commit that finds the refresh token it exchanged stores the minted access token, keeps the refresh token unless the provider rotated it, and returns what it stored; any other stores nothing and answers with the stored access token, or fails |
| `Refresh.ElectOutcome` | packages/nauro/src/nauro/auth.py:330-350 | an election returns the stored access token iff it differs from the stale one, fails iff it does not and no refresh token is stored, and otherwise goes on with the stored refresh token |
| `Refresh.RequestOutcome` | packages/nauro/src/nauro/auth.py:394-411 | a call goes out with the stored access token and fails without one; a refused call refreshes for the token it was refused with |
| `Refresh.RefreshTokenKept` | packages/nauro/src/nauro/auth.py:370-390 | over every run a stored refresh token is lost to a login or a logout only |
| `Refresh.CommitFrom` | packages/nauro/src/nauro/auth.py:315-392 | over every run, what a thread commits came out of one exchange of its own, made with the refresh token stored at its election |
| `Refresh.RaceExample` | packages/nauro/src/nauro/auth.py:315-392 | a run in which two processes exchange one stored refresh token at once: the first commit wins, the second stores nothing and returns what the first stored |
| `Refresh.InvAlong` | packages/nauro/src/nauro/auth.py:315-411 | the lock, known-token and minted-token invariants hold in every state of every run |
| `Decimal.FormatPositiveAsciiDecimal` | packages/nauro-core/src/nauro_core/questions.py:90-96 | the loop over chunks of nine digits with zero-padded tails prints the ordinary decimal numeral |
| `Decimal.FormatQuestionId` | packages/nauro-core/src/nauro_core/questions.py:63-69 | accepts exactly 1 to 10^18-1 and prints Q and the numeral |
| `Decimal.ParseQuestionId` | packages/nauro-core/src/nauro_core/questions.py:72-87 | accepts exactly the Q-forms within the width bound and returns their number, leading zeros aside |
| `Decimal.ValidateQuestionId` | packages/nauro-core/src/nauro_core/questions.py:99-105 | accepts a string iff it is the formatted form of some number within the bound |
| `Decimal.QuestionIdRoundTrip` | packages/nauro-core/src/nauro_core/questions.py:63-87 | parsing a formatted id gives the number back, for every number within the bound |
| `Decimal.CanonicalIff` | packages/nauro-core/src/nauro_core/questions.py:99-105 | an id is canonical iff formatting the number it parses to returns it |
| `QuestionLines.HeadRoundTrip` | packages/nauro-core/src/nauro_core/questions.py:196-207 | an entry head, open or resolved, reads back from its rendering unchanged |
| `QuestionLines.ParseHeadGood` | packages/nauro-core/src/nauro_core/questions.py:718-755 | every head the parser accepts is one the renderer can print faithfully |
| `QuestionLines.RefRoundTrip` | packages/nauro-core/src/nauro_core/questions.py:794-809 | the resolution prefix reads back from its rendering |
| `HeadForms.HeadReads` | packages/nauro-core/src/nauro_core/questions.py:718-768 | a line with an id in its first brackets is an open entry, one with a resolution there and the id in brackets behind it a resolved one, whatever blanks stand between |
| `HeadForms.HeadForm` | packages/nauro-core/src/nauro_core/questions.py:718-768 | no other line reads as an entry |
| `HeadForms.RefReads` | packages/nauro-core/src/nauro_core/questions.py:794-809 | a resolution is a decision number and, behind the separator, a date with blanks around it |
| `HeadForms.DateIff` | packages/nauro-core/src/nauro_core/questions.py:794-809 | a date is four digits, two and two, joined by dashes, that name a day of the calendar |
| `HeadForms.StampIff` | packages/nauro-core/src/nauro_core/questions.py:718-755 | a legacy id is such a date from the year 1000 on, a time of day in hours and minutes, and UTC |
| `Questions.Parse` | packages/nauro-core/src/nauro_core/questions.py:352-423 | the index loop with its pending prose builds the blocks of the recursive reading |
| `Questions.ParseBlock` | packages/nauro-core/src/nauro_core/questions.py:369-416 | a structured block is read with exactly the lines it covers |
| `Questions.ParseHeader` | packages/nauro-core/src/nauro_core/questions.py:704-715 | skips leading blanks and takes the `# ` header, never a `## ` line |
| `Questions.Format` | packages/nauro-core/src/nauro_core/questions.py:425-430 | prints the header and every block in order |
| `BlockForms.BlocksTile` | packages/nauro-core/src/nauro_core/questions.py:352-423 | the blocks cover the lines one after the other: sections and unreadable entry lines alone, a topic with the text up to a blank, an entry with all its indented lines, and everything between as one block |
| `BlockForms.HeaderExactly` | packages/nauro-core/src/nauro_core/questions.py:704-715 | the file header is the first line that is not blank, when it starts with one hash and a blank |
| `QuestionFormat.RenderOfBlocks` | packages/nauro-core/src/nauro_core/questions.py:352-430 | the blocks tile the lines they were parsed from: printing normalizes the body line by line and keeps the number of lines |
| `QuestionFormat.FormatOfParse` | packages/nauro-core/src/nauro_core/questions.py:352-430 | printing a parsed file gives its header and each body line in its own printed form |
| `QuestionFormat.FormatIsProjection` | packages/nauro-core/src/nauro_core/questions.py:352-430 | parsing and printing twice equals once iff the header is not a bare `# ` |
| `QuestionFormat.FormatFixes` | packages/nauro-core/src/nauro_core/questions.py:352-430 | printing leaves a text alone iff it is in printed form already |
| `QuestionFormat.BareHeaderExample` | packages/nauro-core/src/nauro_core/questions.py:704-715 | the one-line file `# ` prints as `#`, which prints differently the second time |
| `QuestionOps.HeadsOfParsed` | packages/nauro-core/src/nauro_core/questions.py:352-423 | the entries of a file are exactly the lines that read as entry heads, in order: no block swallows one |
| `QuestionOps.HeadsOfFormatted` | packages/nauro-core/src/nauro_core/questions.py:425-430 | printing well-formed blocks shows exactly their entries, in order |
| `QuestionOps.BlocksWellFormed` | packages/nauro-core/src/nauro_core/questions.py:352-423 | parsing yields blocks that print lines of their own kind and do not run into each other |
| `QuestionEdits.Resolve` | packages/nauro-core/src/nauro_core/questions.py:531-585 | requests are canonicalized and deduplicated, an ambiguous one stops everything, and otherwise exactly the requested open entries are flipped, with a divider minted when one is flipped and none is there; what a request means is QuestionRequests.ResolvedExactly |
| `QuestionRequests.MeansIff` | packages/nauro-core/src/nauro_core/questions.py:787-791 | a reference is compared by what it means: the number it spells, in any accepted way, or the very time stamp |
| `QuestionRequests.DedupedPicks` | packages/nauro-core/src/nauro_core/questions.py:544 | each reference stays in the place of its first occurrence |
| `QuestionRequests.ResolvedExactly` | packages/nauro-core/src/nauro_core/questions.py:557-579 | the open entries that some reference names by number or stamp get the resolution; every other block stays, and a divider is added iff there was none and an entry was resolved |
| `QuestionRequests.ReportsExactly` | packages/nauro-core/src/nauro_core/questions.py:544-560 | the ambiguous, resolved and unknown reports hold, each once, the references that name two entries, one at least, and none |
| `QuestionRequests.AcceptedIff` | packages/nauro-core/src/nauro_core/question_resolution.py:45-100 | the resolving decision is accepted iff the identifier carries its number, one artifact alone does, and that one parses as it and is active |
| `QuestionRequests.DoneIff` | packages/nauro-core/src/nauro_core/question_resolution.py:45-147 | a resolution goes through iff the decision is accepted, something is asked for, no reference names two entries, every one names an entry, and number and date can be written; it reports the references that name an open entry |
| `QuestionRequests.DoneWrites` | packages/nauro-core/src/nauro_core/question_resolution.py:120-147 | what is written is the printed form of the normalized resolution |
| `QuestionRequests.ResolvedFileIs` | packages/nauro-core/src/nauro_core/questions.py:531-556 | a resolution leaves the file alone iff nothing is asked for or a reference names two entries |
| `QuestionEdits.FlipEntries` | packages/nauro-core/src/nauro_core/questions.py:561-579 | the flipping loop, with its pre-divider flag, gives the resolved blocks |
| `QuestionEdits.ResolveKeepsEntries` | packages/nauro-core/src/nauro_core/questions.py:531-585 | only the resolution of requested open entries changes; ids, bodies and order stay |
| `QuestionEdits.ResolveTwice` | packages/nauro-core/src/nauro_core/questions.py:531-585 | resolving the same questions again changes nothing |
| `QuestionMigrate.Migrate` | packages/nauro-core/src/nauro_core/questions.py:587-619 | migrates iff every minted number has a canonical id, and then gives the migrated file |
| `QuestionMigrate.MigrateNumbers` | packages/nauro-core/src/nauro_core/questions.py:587-619 | the legacy entries get exactly the numbers after the highest one, each once, and no other number changes its entries |
| `QuestionMigrate.MigrateTwice` | packages/nauro-core/src/nauro_core/questions.py:587-619 | a migrated file has no legacy entry left and migrating it again changes nothing |
| `QuestionEntries.MigratedAt` | packages/nauro-core/src/nauro_core/questions.py:587-619 | every block but a legacy entry stays; a legacy entry gets the highest number plus one for itself and each legacy entry before it, and its stamp is logged behind its body |
| `QuestionNormalize.Normalize` | packages/nauro-core/src/nauro_core/questions.py:621-701 | the index loops over entries and trailing blanks give the normalized file, the moved and the skipped entries; where they stand is QuestionPlaces.NormalizePlaces |
| `QuestionPlaces.NormalizePlaces` | packages/nauro-core/src/nauro_core/questions.py:655-695 | nothing changes iff no entry moves; otherwise the resolved entries above the divider that nothing hangs on stand in file order, each behind one blank line, in front of the first header after the divider or at the end, and every other block keeps its order; a divider is minted at the end iff there was none |
| `QuestionPlaces.SkippedLists` | packages/nauro-core/src/nauro_core/questions.py:655-663 | the entries reported as skipped are, in file order, the resolved ones above the divider that something hangs on |
| `QuestionNormalize.LookAhead` | packages/nauro-core/src/nauro_core/questions.py:641-653 | looking past the blank prose behind an entry decides whether it is prose-safe and which blanks trail it |
| `QuestionNormalize.InsertPosition` | packages/nauro-core/src/nauro_core/questions.py:684-695 | the insertion point is the end of the divider's own section |
| `QuestionNormalize.NormalizeConserves` | packages/nauro-core/src/nauro_core/questions.py:621-701 | no entry, header or non-blank block of any kind is lost or doubled, and at most one header is minted |
| `QuestionNormalize.NormalizeKeepsAnchors` | packages/nauro-core/src/nauro_core/questions.py:621-701 | every non-blank prose, `###` and unparsable block keeps its order and the entry or header it stands under |
| `QuestionNormalize.NormalizeSettles` | packages/nauro-core/src/nauro_core/questions.py:621-701 | afterwards the only resolved entries above the divider are prose-trailed, and normalizing again changes nothing |
| `QuestionReparse.MovedOfBlocks` | packages/nauro-core/src/nauro_core/questions.py:621-701 | which entries of a parsed file move is a fact about its lines |
| `QuestionReparse.NormalizeAfterReparse` | packages/nauro-core/src/nauro_core/questions.py:621-701 | normalizing the re-parsed text of a normalized file changes nothing |
| `QuestionAnchors.AnchorsOfRender` | packages/nauro-core/src/nauro_core/questions.py:425-430 | in a printed file every line that belongs to no entry or header stands under the printed entry or header its block stands under |
| `QuestionAnchors.NormalizeKeepsLineAnchors` | packages/nauro-core/src/nauro_core/questions.py:621-701 | in the text printed after normalizing, every such line stands under what it stands under in the text printed without it, if no `## ` line of the file is bare |
| `QuestionAnchors.BareSectionExample` | packages/nauro-core/src/nauro_core/questions.py:621-701 | a bare `## ` below a resolved entry prints as a line of prose, and normalizing moves the entry away from it |
| `QuestionHistory.InsertEntry` | packages/nauro-core/src/nauro_core/question_append.py:29-47 | the two scans place the entry after the first `# ` line and the blanks and comments below it |
| `QuestionEntries.InsertedExactly` | packages/nauro-core/src/nauro_core/question_append.py:29-47 | the entry stands below the first `# ` line, or below line one, and the blanks and comments there; every other line stays |
| `QuestionEntries.ComposedExactly` | packages/nauro-core/src/nauro_core/question_append.py:24-26 | a composed entry is the id in brackets and the body |
| `QuestionHistory.ComposedHead` | packages/nauro-core/src/nauro_core/question_append.py:24-26 | the first line of a composed entry reads back as an open entry with that number |
| `QuestionHistory.AppendNumbers` | packages/nauro-core/src/nauro_core/question_append.py:16-47 | appending gives the number after the highest to one entry, and every number to the entries that the later lines of the question read as; it touches no other number |
| `QuestionHistory.EditNumbers` | packages/nauro-core/src/nauro_core/question_append.py:16-47 | every edit keeps every number on its entries and gives each minted number, above all present ones, to one entry; only the later lines of an appended question add other carriers |
| `QuestionHistory.EditKeepsDistinct` | packages/nauro-core/src/nauro_core/question_append.py:16-47 | numbers are distinct after an edit iff they were before and no number that an appended question brings along clashes |
| `QuestionHistory.NumbersStayDistinct` | packages/nauro-core/src/nauro_core/questions.py:531-701 | over any history of append, resolve, normalize and migrate, numbers are distinct at the end iff they were at the start and no append brought a clashing one |
| `QuestionHistory.NumbersSettle` | packages/nauro-core/src/nauro_core/questions.py:531-701 | over any history a number up to the highest keeps its carriers and gains exactly those that appended questions brought along: none disappears, and none is given out again |
| `QuestionHistory.MintedAboveThePast` | packages/nauro-core/src/nauro_core/question_append.py:16-21 | a number minted at any step is above every number of every earlier file |
| `QuestionHistory.OneLineHistory` | packages/nauro-core/src/nauro_core/question_append.py:16-47 | when every appended question is one line, distinct numbers stay distinct and a number up to the highest keeps exactly its carriers |
| `QuestionHistory.SecondLineAdds` | packages/nauro-core/src/nauro_core/operations/flag_question.py:73-81 | a question whose second line reads as an entry head adds a carrier of that number, be it one the file has or one it skipped |
| `QuestionHistory.RepeatedNumberExample` | packages/nauro-core/src/nauro_core/operations/flag_question.py:73-81 | appending `x` with the second line `- [Q1] y` to a file that holds Q1 gives two entries of that number |
| `QuestionResolution.ResolveDocumentTwice` | packages/nauro-core/src/nauro_core/question_resolution.py:45-147 | resolving the same targets again on its own output resolves nothing new, and gives the same bytes iff the header is not bare |
| `QuestionResolution.ReadBack` | packages/nauro-core/src/nauro_core/question_resolution.py:125-135 | read back from text, every requested question is resolved, every id is as frequent as before, and nothing is left to normalize |
| `Bounded.RenderOpenQuestions` | packages/nauro-core/src/nauro_core/bounded_read.py:174-252 | the pieces are exactly the windows of the two open regions with the markers between them: every character is accounted for in order, the text kept is within 40,000 and reaches every free newline of the windows, each eligible pointer is kept whole or listed with a marker and not both, unless its entry goes on over the first `## Resolved` line, which loses it; the first twenty listed are surfaced in file order and the others counted |
| `Bounded.BoundedOpenQuestions` | packages/nauro-core/src/nauro_core/bounded_read.py:174-252 | over any layout that tiles: the pieces are the rendering of its regions, tile, keep the budget, and hold each pointer of an open region exactly once |
| `Bounded.PreamblePieces` | packages/nauro-core/src/nauro_core/bounded_read.py:188-212 | the preamble is kept whole within the budget, and otherwise cut to exactly its head window, a marker and its tail window |
| `Bounded.PostPieces` | packages/nauro-core/src/nauro_core/bounded_read.py:221-250 | what follows the resolved region is a marker alone, whole, or exactly the head window that the rest of the budget allows |
| `Bounded.HeadWindow` | packages/nauro-core/src/nauro_core/bounded_read.py:346-361 | the head ends at the last newline of its window, or at the full budget when there is none, moved back only in front of the one pointer it would split |
| `Bounded.HeadLongest` | packages/nauro-core/src/nauro_core/bounded_read.py:346-361 | no newline of the window that lies in no pointer comes after the end of the head |
| `Bounded.TailWindow` | packages/nauro-core/src/nauro_core/bounded_read.py:364-380 | the tail starts right after the first newline of its window, or at the full budget when there is none, moved on only past the one pointer it would split |
| `Bounded.TailLongest` | packages/nauro-core/src/nauro_core/bounded_read.py:364-380 | no place right after a newline of the window that lies in no pointer comes before the start of the tail |
| `Bounded.RenderingKeepsEnough` | packages/nauro-core/src/nauro_core/bounded_read.py:188-250 | a lower bound on the text kept: all of it when it fits, and otherwise up to and from every free newline of the windows |
| `Bounded.Assemble` | packages/nauro-core/src/nauro_core/bounded_read.py:383-406 | the first twenty of the listed pointers are surfaced over all markers, and the overflow counts the others exactly |
| `Bounded.ListedInOrder` | packages/nauro-core/src/nauro_core/bounded_read.py:383-406 | the listed pointers of a rendering stand in file order, so the surfaced ones are the first twenty of the file |
| `Bounded.LayoutTiles` | packages/nauro-core/src/nauro_core/bounded_read.py:289-318 | preamble, resolved and post regions follow one another over the whole source |
| `BoundedEntries.RegionLines` | packages/nauro-core/src/nauro_core/bounded_read.py:289-318 | the resolved region begins at the first line that is exactly the resolved header, blanks aside, and the part after it at the next line that starts a section |
| `BoundedEntries.EntriesExactly` | packages/nauro-core/src/nauro_core/bounded_read.py:254-292 | the located entries are those of the entry lines below the file header, once each and in order, with all the indented lines behind them |
| `BoundedEntries.PointersExactly` | packages/nauro-core/src/nauro_core/bounded_read.py:320-331 | the pointers are, in file order, the open entries that start with one of the three words and whose line stands outside the resolved region |
| `BoundedEntries.SpanText` | packages/nauro-core/src/nauro_core/bounded_read.py:280-282 | the span of an entry is the text of its lines |
| `Bounded.CursorReachesEnd` | packages/nauro-core/src/nauro_core/bounded_read.py:260-276 | every block covers as many lines as it prints, so the layout is never given up |
| `Bounded.PointerPlaced` | packages/nauro-core/src/nauro_core/bounded_read.py:320-331 | a pointer lies wholly in an open region iff its entry does not go on over the first `## Resolved` line |
| `Bounded.CrossingExample` | packages/nauro-core/src/nauro_core/bounded_read.py:320-331 | a file over the budget whose entry `- [Q1] BRIEF: x` goes on with `  ## Resolved`: the entry is an eligible pointer, and is neither kept nor listed |
| `Bounded.PointersStandApart` | packages/nauro-core/src/nauro_core/bounded_read.py:280-282 | pointer spans are disjoint, with a newline between them and one before each |
| `Bounded.TilesAddUp` | packages/nauro-core/src/nauro_core/bounded_read.py:188-250 | retained and omitted counts add up to the length of what is tiled |
| `TailWalk.Reader.ParseMemoized` | packages/nauro-core/src/nauro_core/operations/decision_lookup.py:88-97 | whatever the memo holds, the result is that of a fresh parse; a failure is never stored |
| `TailWalk.Reader.ParseStems` | packages/nauro-core/src/nauro_core/operations/decision_lookup.py:68-85 | records and failures are those of parsing each readable stem in order |
| `TailWalk.Reader.ForgetUnlisted` | packages/nauro-core/src/nauro_core/operations/decision_lookup.py:100-105 | exactly the listed stems stay in the memo |
| `TailWalk.Reader.ScanDecisionRecords` | packages/nauro-core/src/nauro_core/operations/decision_lookup.py:55-65 | the full scan in number order, leaving only listed stems in the memo |
| `TailWalk.Reader.BatchStart` | packages/nauro-core/src/nauro_core/operations/decision_lookup.py:151-162 | a batch has 32 stems, and more rather than split the carriers of one number |
| `TailWalk.Reader.ParseRecentActive` | packages/nauro-core/src/nauro_core/operations/decision_lookup.py:131-148 | with every stem numbered, a suffix of the full active list, cut at a number boundary, all of it or at least as many as asked for, and without the last batch read fewer than that were in hand; with an unnumbered stem, the full scan |
| `TailWalk.Reader.ListDecisions` | packages/nauro-core/src/nauro_core/operations/list_decisions.py:26-53 | the listing gives the rows of the full scan |
| `TailWalk.TailRowsSame` | packages/nauro-core/src/nauro_core/operations/list_decisions.py:26-53 | sorting and slicing the walk gives the same rows as sorting and slicing the full scan |
| `TailWalk.TailProjection` | packages/nauro-core/src/nauro_core/operations/decision_lookup.py:131-148 | any projection that keeps only the last k of the active decisions is unchanged |
| `TailWalk.SuffixIrrelevant` | packages/nauro-core/src/nauro_core/parsing.py:101-120 | a stem and its file name read as the same number, whatever the stem ends in |
| `TailScan.RecordsExactly` | packages/nauro-core/src/nauro_core/operations/decision_lookup.py:68-85 | each readable file that parses gives one record, in order: its stem, and the fields of its text under the number of the stem |
| `TailScan.FailuresExactly` | packages/nauro-core/src/nauro_core/operations/decision_lookup.py:68-85 | the failures are the files that are there and do not parse, in order |
| `TailScan.ActivesExactly` | packages/nauro-core/src/nauro_core/operations/decision_lookup.py:131-148 | the active decisions are those of the active records, in order |
| `TailScan.InOrderExactly` | packages/nauro-core/src/nauro_core/parsing.py:124-140 | the stems are read in the order of their numbers and then of their text, the unnumbered last |
| `TailScan.RowsExactly` | packages/nauro-core/src/nauro_core/operations/list_decisions.py:40-53 | the rows are the first ones, as many as asked for and there, of the decisions by falling number, where those of one number keep their order |
| `Fisher.FisherFreemanHalton` | benchmarks/_stats.py:240-293 | the accumulated weight is that of the tables at most as heavy as the observed one, each counted once; it is positive, at most the whole, and the whole iff the observed table is a heaviest one |
| `Fisher.Enumeration.Walk` | benchmarks/_stats.py:277-290 | under a prefix the recursion visits exactly the tables that extend it, in order, and reaches no other leaf |
| `Fisher.SuffixSums` | benchmarks/_stats.py:270-273 | the suffix array holds the sums of the remaining columns |
| `Fisher.TablesComplete` | benchmarks/_stats.py:285-290 | the bounds on each cell drop no table with the given margins and admit no other |
| `Fisher.TablesDistinct` | benchmarks/_stats.py:285-290 | no table is visited twice |
| `Fisher.WeightsAddUp` | benchmarks/_stats.py:240-293 | the weights of all tables with the margins add up to the number of ways to choose the successes among all trials |
| `Fisher.TableProbability` | benchmarks/_stats.py:247-265 | the weight of a table over the total weight is the quotient of factorials whose logarithm the code adds up |
| `FisherSums.WithinExactly` | benchmarks/_stats.py:277-284 | the accumulated weight is the sum of the weights of exactly the tables that are at most as heavy as the limit |
| `Binomial.Vandermonde` | benchmarks/_stats.py:240-293 | the Vandermonde convolution |
| `Binomial.ChooseFactorial` | benchmarks/_stats.py:254-265 | the weight of a cell is the factorial quotient the log-gamma terms add up to |
| `DecisionBody.SplitDecisionBody` | packages/nauro-core/src/nauro_core/decision_model.py:431-473 | the fence-tracking loop splits at the first unfenced decision anchor and the last unfenced rejected anchor after it |
| `BodyTexts.FenceRule` | packages/nauro-core/src/nauro_core/decision_model.py:420-428 | outside a fence a line that starts with three backquotes or tildes opens one; inside, only a line of nothing but the opening character closes it |
| `BodyTexts.SplitNothing` | packages/nauro-core/src/nauro_core/decision_model.py:431-473 | the split finds something iff a decision anchor stands outside every fence |
| `BodyTexts.SplitWithout` | packages/nauro-core/src/nauro_core/decision_model.py:431-473 | without an unfenced rejected anchor below it, all text below the first decision anchor is the rationale, stripped |
| `BodyTexts.SplitExactly` | packages/nauro-core/src/nauro_core/decision_model.py:431-473 | with one, the rationale is the text between the first decision anchor and the last rejected anchor below it, and the rejected part the text below that, each stripped |
| `BodyTexts.AlternativesFirst` | packages/nauro-core/src/nauro_core/decision_model.py:476-492 | the first alternative is the first heading, its name on the same line or the next that is not blank, with the stripped text up to the next heading, or no reason when that is blank; the others are read from there on |
| `BodyTexts.AlternativesNone` | packages/nauro-core/src/nauro_core/decision_model.py:476-492 | without a heading there is no alternative |
| `BodyTexts.WrittenText` | packages/nauro-core/src/nauro_core/decision_model.py:495-542 | the written text, character for character: title, rationale and the section of the rejected, with single blank lines between the parts |
| `BodyTexts.StripText` | packages/nauro-core/src/nauro_core/decision_model.py:466-473 | stripping the list of lines is stripping the text they make |
| `DecisionBody.PlainRoundTrip` | packages/nauro-core/src/nauro_core/decision_model.py:431-542 | with nothing rejected, the rationale comes back iff it shows no unfenced rejected anchor |
| `DecisionBody.SectionRoundTrip` | packages/nauro-core/src/nauro_core/decision_model.py:431-542 | with rejected alternatives, rationale and section come back iff the rationale leaves no fence open and the section shows no unfenced anchor |
| `DecisionBody.SectionRead` | packages/nauro-core/src/nauro_core/decision_model.py:476-492 | the subsections of a written section read back as the alternatives, given trimmed names and reasons without a `###` line |
| `DecisionBody.BodyRoundTrip` | packages/nauro-core/src/nauro_core/decision_model.py:431-542 | splitting a written body recovers the rationale and every rejected alternative, under the exact condition on the section as written |
| `DecisionBody.PartsRoundTrip` | packages/nauro-core/src/nauro_core/decision_model.py:431-542 | the same under a condition on the parts alone: the rationale closes its fences, and each reason closes its own and shows no unfenced anchor |
| `DecisionBody.OpenFenceExample` | packages/nauro-core/src/nauro_core/decision_model.py:431-542 | two reasons, neither of which shows an unfenced anchor alone, whose file does not read back because the first leaves a fence open |
| `DecisionBody.LongNameExample` | packages/nauro-core/src/nauro_core/decision_model.py:534-539 | a name holding a newline is written as the same text as another alternative, so it cannot be read back |
| `Components.BuildComponents` | packages/nauro-core/src/nauro_core/graph.py:235-296 | the components cover exactly the ends of edges, two nodes share one iff an undirected path joins them, branch points are the nodes with two or more edges in one direction, and the list is sorted by size and smallest member |
| `Components.Flood` | packages/nauro-core/src/nauro_core/graph.py:264-275 | the frontier loop ends and collects exactly the nodes reachable from the seed |
| `Components.FindClasses` | packages/nauro-core/src/nauro_core/graph.py:254-275 | seeding in ascending order assigns every incident node to one class |
| `Components.BuildAdjacency` | packages/nauro-core/src/nauro_core/graph.py:242-248 | the adjacency joins two numbers iff an edge does, either way |
| `Components.Degrees` | packages/nauro-core/src/nauro_core/graph.py:243-250 | the degree maps count the edges out of and into each number |
| `Components.EdgesByComponent` | packages/nauro-core/src/nauro_core/graph.py:277-279 | each bucket holds, in order, the edges that start in its component |
| `Components.EdgesLandOnce` | packages/nauro-core/src/nauro_core/graph.py:277-279 | every edge lands in exactly one component, which holds both its ends |
| `ComponentFacts.BranchesIff` | packages/nauro-core/src/nauro_core/graph.py:243-250 | a node is a branch point iff two edges leave it or two edges enter it |
| `ComponentFacts.EdgesOfComponent` | packages/nauro-core/src/nauro_core/graph.py:277-292 | a component lists each edge that starts in it as often as it was given, in ascending order |
| `ComponentFacts.ComponentOrder` | packages/nauro-core/src/nauro_core/graph.py:294-294 | larger components come first, and of two equally large ones that with the smaller number |
| `ComponentFacts.BranchPointsTotal` | packages/nauro-core/src/nauro_core/graph.py:295-296 | the count is the number of branching nodes, each once |
| `StateUpdate.Store.UpdateState` | packages/nauro-core/src/nauro_core/operations/update_state.py:315-340 | reading and writing file by file ends with the files and the status of the executed plan iff the delta is not over the length limit, which the operation leaves to its callers |
| `StateUpdate.LongDeltaExample` | packages/nauro-core/src/nauro_core/operations/update_state.py:198-212 | a delta one character over the limit is refused by the plan and written by the operation |
| `StateUpdate.StripHeaderFooter` | packages/nauro-core/src/nauro_core/state.py:51-62 | the loop drops exactly the header- and footer-shaped lines and strips the rest |
| `StateUpdate.WrittenBody` | packages/nauro-core/src/nauro_core/state.py:51-82 | archiving what was written gives back the delta, trimmed, iff no line of it looks like the header or the footer |
| `StateUpdate.HistoryOfRun` | packages/nauro-core/src/nauro_core/state.py:51-82 | over any run of such deltas the history only grows at its end and holds every replaced non-blank body, trimmed, once and in order |
| `StateTexts.PlanExactly` | packages/nauro-core/src/nauro_core/operations/update_state.py:198-312 | an over-long delta is rejected, a stale revision is a conflict, and without a state file nothing is done; otherwise the current file is rewritten and the history grows by the replaced body iff that is not blank |
| `StateTexts.CurrentText` | packages/nauro-core/src/nauro_core/state.py:65-76 | the text of the current file: header, delta and the footer with the time |
| `StateTexts.BodyText` | packages/nauro-core/src/nauro_core/state.py:51-62 | the body read back is the lines that are neither header nor footer, in order, stripped as one text |
| `StateTexts.ArchivedAt` | packages/nauro-core/src/nauro_core/state.py:78-82 | over a run each replaced body that is not blank stands in the history under the time of the update that replaced it, behind those of the earlier ones |

## Left out

- Network and process input and output: HTTP calls, backoff, token decoding, subprocesses and
  the file system. In the refresh model the exchange is one step that fails or mints fresh
  tokens, a configuration-lock section is atomic, and a timeout may happen at any wait.
- A token endpoint that hands out a token it has handed out before: the refresh theorems assume
  every token is new.
- YAML, JSON, schema validation and digests: decision files are kept parsed in the commit model,
  which assumes that a decision file reads back as what was written; digests do not collide.
- The hosted service itself: that publication intents act as their names say, and that a commit
  is published only over the generation it was prepared against, are assumptions of the ledger
  model. Screening of proposals, attestations, provenance, snapshots and the plan record's
  digest are left out; screening is one boolean input.
- Doctor.Diagnose: does not model the duplicate-number, duplicate-title and unknown-key reports,
  which are groupings of the scan; that repair leaves their inputs unchanged, or only shrinks
  them, is stated by RepairProof.RepairHeals over stems and active carriers.
- Repair.PlanSupersedeRepair: does not model the wording and order of refusals, nor the rendered
  file, digest, versions and dates of a plan, and takes a listed file to stay readable during
  the call.
- Repair.Candidates: gives the candidates without the order they are listed in.
- Repair.RefusalsFor: gives each refusal by kind, numbers and stems; its guidance is left out.
- Repair.Refusals: gives the refusals as a set, without their order and guidance.
- Repair.CompetingReferences: gives the competing numbers as a set, without their order.
- Claims.FinalizeJudgmentCommit: gives the validated observations; the claim plan is the prepared
  intents unchanged, and the record's bytes are left out.
- Commit.ParseCommittedGeneration: takes paths that are valid and contents that decode.
- Commit.BuildArtifacts: takes the rewritten questions text as an input, and leaves out the
  snapshot and the result message.
- Commit.PrepareJudgmentCommit: folds screening, attestation and digest checks into one input.
- CommitRuns.PreparedCrossValidates: leaves out the checks of the payload digest, the snapshot,
  the provenance and the artifact digests.
- Questions.ParseBlock: does not model the id embedded in a `###` line.
- QuestionEdits.Resolve: does not model the non-canonical aliases of ambiguous ids, which no
  canonicalized request equals.
- QuestionMigrate.Migrate: does not model the list of renames, only the file they leave.
- Questions.Parse: does not model the id embedded in a `###` line, nor the forms of a resolution
  date that newer interpreters accept beyond YYYY-MM-DD.
- Bounded.RenderOpenQuestions: models the over-budget path only; below the budget the content is
  returned as it is. Marker wording and entry truncation are left out.
- Fisher.FisherFreemanHalton: weights are exact naturals, so the tolerance of the comparison and
  the rounding of the log-gamma sums are left out; the p-value is the quotient of its two results.
- StateUpdate.Store.UpdateState: does not model what the overlap warning says, nor the format of
  an expected revision, which the plan checks first.
- TailWalk.Reader.ParseRecentActive: the parser is any function of file name and text; concurrent
  use of the memo is left out.
- DecisionBody.BodyRoundTrip: front matter is left out, and so is the reading of the title line;
  titles and names are taken to be one line each.
- QuestionAnchors.NormalizeKeepsLineAnchors: the condition on bare `## ` lines is sufficient, not
  necessary.
- Citation edges, search ranking, context payloads, tool schemas, the demo project and the
  command-line wiring.
