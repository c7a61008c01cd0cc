# Hecks, modelled and proved

Hecks runs business domains that are written down as bluebooks: aggregates with fields, lifecycles, commands with
`given`, `sets` and `ensures`, invariants, policies and process managers. This project models the parts of it whose
correctness is hard to see from any one method and proves what they are for. Each `.dfy` file is one module.

- **Dispatch and expressions.** `Expressions` is the expression engine, and `Meanings` what it says in the arithmetic of
  the reals, the order of texts and the logic of two values. `Dispatch` is one command against one record; `Rulings`
  says, verdict by verdict, exactly when a dispatch comes to it.
- **Bulk runs.** `SetTransform` is the compiler from a command over a query to one `UPDATE`, with SQL's three-valued
  logic and two dialects. `SetTransformSoundness` proves it against the dispatch and the expression engine;
  `CompiledForms` says which commands it compiles and exactly which rows the statement updates. `SweepRows`,
  `BulkSweep` and `BulkRepository` prove the run as one statement, with its fallbacks and the rows it leaves to be sent
  by hand, against the loop that sends every row, and `BulkAnswers` what that loop answers and leaves;
  `BulkSweepApart` holds two small tables on which the two part.
- **Settlement.** `Settlement` is the process manager that moves a transfer's money, as steps interleaved with
  everything else that happens at a bank, `SettlementEnds` how a transfer that is not wronged ends, and
  `SettlementLosses` three runs that lose count of the money. `Account` is the deposit account with its minted ledger.
- **Expressions as text.** `ExpressionText` is the parser with two printers, one that sets every bracket the parser
  needs and one that sets those precedence asks for; `Precedence` says in characters which operator binds tighter.
  `CanonicalForm` is the spelling every predicate is brought to (over `LiteralRuns`, the code between string literals),
  `CanonicalMeaning` what is read of it again, `DurationFolding` what it does to durations called on one another.
- **Build-time checks.** `ReferenceCycles` (bluebooks and job tables), `AdditiveShape` (three rules for whether a
  change of storage shape only adds), `StoredRecords` (what that means for the records stored before it).
- **State machines and stores beside them.** `Jobs` (the composer's background jobs), `Change` (plan, confirm by
  digest, carry out) and `ChangeAnswers` (what its script port reads), `Evolve` (the rows of the keyword tables),
  `TableText` (the text surgery that edits them) and `TableEdits` (where an edit goes and when it is refused), `Heki`
  (the journalled file store and its compaction), `ShardPlanner` and `DealOrder` (the order it deals in), `Scalars`,
  `Differences`.

`Wrappers`, `Lists` and `Sums` hold what several modules share. Where the source updates an object in place the model
is a class whose methods are proved against functions, and the theorems are about those functions.

## Where the code departs from what is said of it

In each case the model follows the code, an exact condition is proved, and a concrete input or a family of them is
given.

- A bulk run as one statement is said to be the run row by row (`spec/bulk_set_transform_spec.rb`). Its answers are.
  But a fault is no refusal: it ends the sweep at its row, and by then the statement has changed rows beyond it
  (`RecordsAgreeUnlessACrashComesFirst`, `GuardedRunsEnd`, `CrashHidesARow`). And rows the statement skipped announce
  themselves last (`EventsInOrderUnlessHandFirst`, `EventsComeInAnotherOrder`).
- A refused mark on a transfer unwinds the saga although the money already moved, or is about to: the destination is
  credited and the source refunded (`RestingPlace`, `RefusedMarkPaysTwice`, `RefusedDebitMarkPaysTwice`, `PaysTwice`).
  A refused refund is not tried again (`RefusedRefundStrands`, `Strands`). Marks are refused because a transfer's own
  copies of its accounts' standing are read, and every save of the transfer takes those copies anew, as a sweep does:
  an account frozen for a moment is enough (`PaysTwiceWithoutASweep`, `NeverBothWhileTakenOpen`).
- An account's ledger is said to explain its balance. Fees and interest move the balance alone and an amendment moves
  the entry alone (`BalanceExplained`, `BalanceIsLedgerSum`, `FeesAreInNoEntry`, `AmendmentsLeaveTheBalance`).
- The reference check reads the references of pieces an aggregate owns directly; a ring through a piece nested in a
  piece is admitted (`NestedRingIsAdmitted`, `SeenUnlessHidden`).
- A change is called breaking that breaks no stored record: a value object renamed, its members kept
  (`RenamedTypeIsCalledBreaking`, `AdditiveUnlessRespelled`).
- Additive changes to a whole bluebook do not compose over an aggregate that was dropped in between
  (`SharedComposes`, `SharedMayNotCompose`).
- A canonical form is not always canonical: `days(hours(1))` folds once more (`CanonicalAgain`, `SettlesAtOnce`,
  `HoursInDaysAreNotSettled`).
- The canonical spelling is said to keep what a predicate means. It writes `.length` as `.size` on the way to another
  member too, and `a.length.b` is then looked up through another member (`MeaningIsKept`, `LengthOnTheWay`).
- Precedence alone does not say where brackets are needed: a text that opens and closes with a quote is read as one
  literal, and a `-` behind `?` as no operator (`PlainRoundTrip`, `QuotedEndsMisread`, `QuestionMinusMisread`).
- A float that prints with an exponent is stored unquoted and comes back as a string (`ReadsBack`,
  `LargeFloatIsMistaken`).
- A confirmed change that is then marked faulted still has its script carried out (`RunsExactlyWhenUnmoved`,
  `FaultDoesNotStopIt`), and one completed by hand is applied whether it ran or not (`OnlyHandsUndoIt`,
  `AppliedWithoutRunning`).
- An edit of a table's rows is said to leave the rest of the file alone. The block is put back by a substitution that
  reads backslashes, in the first place its text is found (`RewriteLeavesTheRest`, `BackslashIsLost`,
  `CommentTakesTheEdit`).
- An argument may be proposed for a keyword no table declares, after which a rename can make two rows of one identity
  (`EditKeeps`, `RenameMayCollide`, `StrayArgumentCollides`).

## Model

| member | source | states |
|---|---|---|
| SetTransformSoundness.OperandMeansTheSame | lib/hecks/adapters/driven/set_transform/expressions.rb:85-130 | wherever the guards collected for an operand hold and the store evaluates it, the expression engine evaluates the source text to the same value; it never faults there |
| SetTransformSoundness.PredicateMeansTheSame | lib/hecks/adapters/driven/set_transform/expressions.rb:34-82 | with its guards met, a compiled predicate is never unknown and answers what the predicate answers, negation, conjunction and disjunction included |
| SetTransformSoundness.GivensPass | lib/hecks/adapters/driven/set_transform.rb:56-60 | with the guards met, compiled givens that all answer true are givens a dispatch passes, and when the WHERE list rejects them a dispatch refuses one of them |
| SetTransformSoundness.WriteMeansTheSame | lib/hecks/adapters/driven/set_transform/assignments.rb:31-65 | what an assignment writes is what the command's own effect puts into the field, coerced by its value object |
| SetTransformSoundness.StepMeansTheSame | lib/hecks/adapters/driven/set_transform/assignments.rb:67-76 | a compiled increment or decrement writes what the mutation writes, overflow included |
| SetTransformSoundness.WritesMeanTheSame | lib/hecks/adapters/driven/set_transform/assignments.rb:12-17 | the SET list as a whole gives the record the update set gives |
| SetTransformSoundness.MovesMeanTheSame | lib/hecks/adapters/driven/set_transform/assignments.rb:86-98 | the CASE over a transition's states moves to the target of the first declared move that admits the state, and the filter is true exactly when some move does |
| SetTransformSoundness.ConditionsMeanAdmissible | lib/hecks/bulk/set_planner.rb:90-97 | the lifecycle conditions hold exactly when the command's `from:` and its transitions admit the row's state |
| SetTransformSoundness.UpdatedRowIsSaved | lib/hecks/adapters/driven/set_transform.rb:27-50 | for every row, command and dialect: a row the statement updates is one a dispatch saves, as the same record |
| SetTransformSoundness.SkippedRowIsNotSaved | lib/hecks/bulk/set_sweep.rb:7-11 | with every guard met, a row the query answers and the statement skips is not one a dispatch saves; on SQLite the dispatch refuses it and does not crash |
| SetTransformSoundness.GivensNeverFault | lib/hecks/adapters/driven/sqlite/set_dialect.rb:22-27 | on SQLite, with the guards met, no given of a compiled command faults |
| SetTransformSoundness.GuardsKeepFromCrashing | lib/hecks/adapters/driven/sqlite/set_dialect.rb:22-27 | on SQLite, a row that meets every guard of the statement is saved or refused by its own dispatch, whether it is selected or not: it never crashes |
| CompiledForms.CompilesExactly | lib/hecks/bulk/set_eligibility.rb:16-46 | a command is said as one statement exactly when the caller holds its role, nothing is checked on the settled record, every given is made of operands that have a column type and compare with one another, and every effect sets a plain field to a value given alike for every row, to a field of its kind or to an expression of its type, or steps a whole-number field by a whole number given alike |
| CompiledForms.LeafCompiles | lib/hecks/adapters/driven/set_transform/expressions.rb:85-130 | an operand compiles exactly when it has a column type, and not as nothing where a number or an order is asked of it; its compiled type is that one |
| CompiledForms.PredGuards | lib/hecks/adapters/driven/set_transform/expressions.rb:21-25 | on SQLite a row meets the guards of a compiled predicate exactly when every operand that is ordered, reckoned with or sign-tested answers something in the expression engine |
| CompiledForms.EffectGuards | lib/hecks/adapters/driven/set_transform/assignments.rb:58-76 | on SQLite a row meets the guards of a compiled write exactly when the expression written answers something, or the field stepped holds a value and the step is one a dispatch puts |
| CompiledForms.UpdatedExactly | lib/hecks/adapters/driven/set_transform.rb:27-50 | on SQLite the statement updates exactly the rows of its query that a dispatch saves and whose operands all answer something; it skips no other row |
| BulkSweep.ByHandIsJudged | lib/hecks/runtime/row_sweep.rb:91-101 | each row of a sweep gets the verdict it would have got at the start, whatever the sweep has already done: outcomes, records, journal and events are those of the rows saved before the first crash |
| BulkSweep.UpdatedAreSaved | lib/hecks/bulk/set_sweep.rb:47-53 | every row the store returns from the statement is a row of the query that a dispatch saves, as the record the statement wrote |
| BulkSweep.OutcomesAgree | lib/hecks/bulk/sweep.rb:26-35 | for every table, command and query that compile, the run as one statement answers exactly what the run row by row answers: every outcome with its refusal, or the crash at the same row; what the outcomes say of the verdicts is OutcomesAreVerdicts |
| BulkAnswers.OutcomesAreVerdicts | lib/hecks/runtime/row_sweep.rb:91-101 | the run row by row answers one outcome for each row of the query, in its order: delivered exactly when that row's dispatch saves, refused with a reason exactly when it refuses with that reason; or else the first row whose dispatch crashes |
| BulkAnswers.SavedRowsAreLeft | lib/hecks/runtime/command_interpreter/persisting.rb:18-60 | without a crash it leaves each row of the query that its dispatch saves as that dispatch says and every other row as it was, and journals and announces those rows once each in query order |
| BulkSweep.RecordsAgreeUnlessACrashHidARow | lib/hecks/bulk/set_sweep.rb:36-43 | the two leave the same records exactly when the statement changed no row that the row-by-row run never reached |
| BulkSweep.RecordsAgreeUnlessACrashComesFirst | lib/hecks/bulk/set_sweep.rb:36-43 | put as a caller could ask it before the run: the records agree exactly when no row whose dispatch crashes comes, in query order, before a row the statement gives another record |
| BulkSweep.GuardedRunsEnd | lib/hecks/bulk/set_sweep.rb:7-11 | when every row the query answers meets the statement's guards, the row-by-row run on SQLite ends without a crash, so the two runs agree in everything but the order of events |
| BulkSweep.SweepsAgree | spec/bulk_set_transform_spec.rb:52-69 | when the row-by-row run ends without a crash, both leave the same records, the same journal entries and the same events |
| BulkSweep.EventsInOrderUnlessHandFirst | lib/hecks/bulk/set_sweep.rb:41-43 | their event logs are equal in order exactly when no row sent by hand comes before a row the statement updated |
| BulkSweepApart.CrashHidesARow | lib/hecks/bulk/set_sweep.rb:47-56 | a two-row table on which the row-by-row run crashes at the first row with nothing changed, while the statement has changed the second |
| BulkSweepApart.EventsComeInAnotherOrder | lib/hecks/bulk/set_sweep.rb:36-43 | a two-row table on which nothing crashes and the two runs log the same events in another order |
| BulkRepository.Repository.Dispatch | lib/hecks/runtime/command_interpreter/persisting.rb:18-60 | one dispatch stores, journals and announces a saved record and otherwise changes nothing; it answers a delivery exactly when the verdict saves, the reason exactly when the verdict refuses with that reason, and nothing when it crashes |
| BulkRepository.Repository.SendRows | lib/hecks/bulk/sweep.rb:49-62 | the loop that sends rows by their own dispatches leaves and answers what the by-hand form says |
| BulkRepository.Repository.ApplySetTransform | lib/hecks/adapters/driven/set_transform.rb:36-50 | the statement either is refused with nothing written, exactly when some row's evaluation is refused or the connection is lost, or rewrites and journals exactly the rows it selects |
| BulkRepository.Repository.Sweep | lib/hecks/bulk/sweep.rb:26-58 | the whole run, as one statement with its fallbacks or row by row: it answers a row of the query as delivered exactly when its own dispatch saves and as refused with a reason exactly when its dispatch refuses with that reason, or crashes at the first row whose dispatch crashes; it leaves the same records and the same entries and events as row by row unless a row crashed, and exactly what row by row leaves when the statement is declined, refused or lost, and always for a command whose `ensures` or invariants read the settled record |
| SweepRows.TablesAgreeUnlessHidden | lib/hecks/bulk/set_sweep.rb:36-43 | over verdicts alone: rewriting some rows at once and sending the rest agrees with sending all of them exactly when no rewritten row lies past a crash unchanged |
| SweepRows.SentUnlessACrashComesFirst | lib/hecks/runtime/row_sweep.rb:91-101 | a row that would be saved is sent exactly when no crashing row comes before it |
| SweepRows.SentByPart | lib/hecks/bulk/set_sweep.rb:58-61 | without a crash the rows saved one by one split into those updated and those sent by hand, each part in query order |
| SweepRows.LogsFollowTheRows | lib/hecks/adapters/driven/set_transform.rb:72-78 | rearranging the rows rearranges their journal entries and events and loses none |
| SweepRows.EventOrderAgrees | lib/hecks/bulk/set_sweep.rb:63-75 | updated rows first and the rest after gives the events of query order exactly when no other row comes before an updated one |
| Expressions.IntegerArithmeticIsExact | lib/hecks/bluebook/expression/resolver/operations.rb:10-79 | an expression over whole numbers answers its mathematical value, division rounded toward negative infinity, exactly when no divisor is zero and every intermediate fits signed 64 bits; otherwise it faults |
| Expressions.FloorDivIsFloor | lib/hecks/bluebook/expression/resolver/operations.rb:59-64 | integer division is the real quotient rounded down, for either sign of the divisor |
| Expressions.OperatorsAreOneOrder | lib/hecks/bluebook/expression/evaluator.rb:134-159 | over two numbers or two strings the six operators, reduced to two primitives and a negation, are one total order and its equality |
| Expressions.StrLessTotal | lib/hecks/bluebook/expression/evaluator.rb:141-150 | text comparison is a strict total order |
| Meanings.StrLessIsBefore | lib/hecks/bluebook/expression/evaluator.rb:142-150 | one text is less than another exactly when it has the lower character at the first place where they part, or ends there |
| Meanings.OperatorsCompare | lib/hecks/bluebook/expression/evaluator.rb:135-159 | on any two values each of the six operators compares as it reads: equality across whole and decimal numbers and otherwise only of like with like, order over two numbers or two texts, a fault on any other pair |
| Meanings.ModuloLeaves | lib/hecks/bluebook/expression/resolver/operations.rb:89-95 | a modulo of whole numbers leaves the one remainder that differs from the number by a multiple of the divisor, has the divisor's sign and is smaller than it |
| Meanings.DecimalsCompute | lib/hecks/bluebook/expression/resolver/operations.rb:68-75 | with a decimal on either side a difference added back gives the number, a quotient multiplied back gives the number, and a zero divisor faults |
| Meanings.HoldsIsMeant | lib/hecks/bluebook/expression/evaluator.rb:104-128 | where every part of a predicate answers, evaluation answers its meaning in two-valued logic over the order and sameness of values, anything but false and nil counting as true |
| Meanings.FaultsAreRead | lib/hecks/bluebook/expression/evaluator.rb:104-128 | a predicate faults exactly when a part that evaluation comes to read does not answer: the right side of a disjunction is read when the left is false, of a conjunction when it is true |
| ExpressionText.RoundTrip | lib/hecks/bluebook/expression/resolver/parsing.rb:45-98 | printing any printable tree with brackets where they are needed and parsing the text gives the tree back; which operator binds tighter is stated in `Precedence`, in characters |
| Precedence.ProductsFirst | lib/hecks/bluebook/expression/resolver/parsing.rb:43-45 | for all paths, numbers and keywords p, q, r, a of `+ -` and m of `* /`: `p a q m r` parses as p a (q m r), and `p m q a r` as (p m q) a r |
| Precedence.SameLevelFromTheLeft | lib/hecks/bluebook/expression/resolver/parsing.rb:87-99 | `p c q d r` with two operators of one level parses as (p c q) d r |
| Precedence.BracketsFirst | lib/hecks/bluebook/expression/resolver/parsing.rb:93-94 | brackets around a sum have it read before a product on either side |
| Precedence.BracketsOnTheRight | lib/hecks/bluebook/expression/resolver/parsing.rb:93-94 | brackets on the right of an operator of the same level group to the right |
| Precedence.NotSplitInside | lib/hecks/bluebook/expression/resolver/scanning.rb:78-96 | no text is split at an operator between round, square or curly brackets, nor at one between quotes |
| Precedence.MinusBehind | lib/hecks/bluebook/expression/resolver/scanning.rb:91-96 | a minus is an operator exactly right behind a letter, a digit, an underscore, a closing round or square bracket or a quote |
| Precedence.CallsByName | lib/hecks/bluebook/expression/resolver/parsing.rb:10-18 | each sign test and suffix, written out, is read as that call on the name before it, and a name alone as a path |
| Precedence.DecimalsByDigits | lib/hecks/bluebook/expression/resolver/parsing.rb:25-26 | digits behind a point make a decimal, with or without digits before it and with or without a sign |
| Precedence.NumbersInTens | lib/hecks/bluebook/expression/resolver/parsing.rb:22-23 | a digit more makes a number ten times as large and adds its own value |
| ExpressionText.PlainRoundTrip | lib/hecks/bluebook/expression/resolver/scanning.rb:13-14 | printed with only the brackets precedence asks for, a tree parses back as itself exactly when no operation in it subtracts from a text that ends in `?` or joins a text that opens with a quote to one that closes with it |
| ExpressionText.SlipReadsOtherwise | lib/hecks/bluebook/expression/resolver/parsing.rb:86-99 | such an operation, whatever its operands, reads as another tree: one literal, or a tree with an operation fewer |
| ExpressionText.ParseJoints | lib/hecks/bluebook/expression/resolver/scanning.rb:70-96 | no text parses to more operations than it has operators outside quotes, a `-` counted only behind an operand |
| ExpressionText.SplitLastBinary | lib/hecks/bluebook/expression/resolver/scanning.rb:70-96 | the scanning loop finds the last operator outside quotes and brackets, a `-` only behind an operand |
| ExpressionText.JoinedSplits | lib/hecks/bluebook/expression/resolver/scanning.rb:78-96 | two operand texts joined by an operator split at that operator and nowhere else |
| ExpressionText.PrintReads | lib/hecks/bluebook/expression/resolver/scanning.rb:29-39 | a printed tree leaves the scanner outside every quote and bracket, with no operator looser than its own at the top level |
| ExpressionText.ParseInfix | lib/hecks/bluebook/expression/resolver/parsing.rb:86-99 | a printed operation parses as that operation over what its operands parse as |
| ExpressionText.ParseCall | lib/hecks/bluebook/expression/resolver/parsing.rb:101-112 | a printed suffix call parses as that call on what its receiver parses as |
| ExpressionText.ParseGroup | lib/hecks/bluebook/expression/resolver/parsing.rb:94-94 | brackets around a text parse as the text |
| ExpressionText.NatOfNumeral | lib/hecks/bluebook/expression/resolver/parsing.rb:22-26 | a number's decimal spelling reads back as the number |
| ExpressionText.QuotedEndsMisread | lib/hecks/bluebook/expression/resolver/scanning.rb:103-104 | any two operand texts, the first opening and the second closing with a quote, joined by an operator parse as a single literal |
| ExpressionText.QuestionMinusMisread | lib/hecks/bluebook/expression/resolver/scanning.rb:13-14 | `a.present? - b`, and the same of every path, every suffix that ends in `?` and every right side, never parses as the subtraction |
| CanonicalForm.ApplyIsCanonical | lib/hecks/bluebook/expression/canonical_form.rb:40-43 | applying the rules in order over the whole text is rewriting each run of code between literals once |
| LiteralRuns.MapTwice | lib/hecks/bluebook/expression/canonical_form.rb:77-86 | two rewrites outside literals one after the other are one |
| CanonicalForm.ApplyIsTidy | lib/hecks/bluebook/expression/canonical_form.rb:40-57 | every canonical form has single spaces, no `.length` at a word's end and bare ends |
| LiteralRuns.MapKeepsLiterals | lib/hecks/bluebook/expression/canonical_form.rb:77-86 | any rewrite of the code between literals leaves every closed literal as it was, in order |
| CanonicalForm.LiteralsKept | lib/hecks/bluebook/expression/canonical_form.rb:77-86 | every closed string literal is in the canonical form as it was written, in its place among the others |
| CanonicalForm.CollapseKeepsInk | lib/hecks/bluebook/expression/canonical_form.rb:45-47 | collapsing whitespace keeps every other character, a non-breaking space among them |
| CanonicalForm.SizesLeavesNoLength | lib/hecks/bluebook/expression/canonical_form.rb:53-61 | after the rule no `.length` at a word's end is left, and what it writes makes none |
| CanonicalForm.ScaleKeepsNoLength | lib/hecks/bluebook/expression/canonical_form.rb:68-73 | folding a duration brings no `.length` about |
| CanonicalForm.CanonicalAgain | lib/hecks/bluebook/expression/canonical_form.rb:40-43 | for every text, the canonical form is its own canonical form exactly when it calls no duration on a whole number |
| CanonicalForm.HoursInDaysAreNotSettled | lib/hecks/bluebook/expression/canonical_form.rb:63-73 | `days(hours(n))` becomes a text that canonicalises once more, for every n |
| CanonicalMeaning.MeaningIsKept | lib/hecks/bluebook/expression/canonical_form.rb:40-61 | for every printable tree, its text brought to the canonical spelling and parsed is the tree with `.length` renamed in its paths, and so the same tree exactly when no path has a `.length` with a dot right behind it |
| CanonicalMeaning.CanonicalIsPrinted | lib/hecks/bluebook/expression/canonical_form.rb:40-86 | the canonical spelling of a printed tree is the print of the renamed tree, brackets, literals, numbers and operators as they were |
| CanonicalMeaning.LengthOnTheWay | lib/hecks/bluebook/expression/canonical_form.rb:53-61 | `a.length.b` becomes `a.size.b`, another path, which is looked up through another member |
| CanonicalMeaning.SizesInOnePass | lib/hecks/bluebook/expression/canonical_form.rb:53-86 | the length rule over runs of code between literals is one pass over the text |
| CanonicalMeaning.CalmStays | lib/hecks/bluebook/expression/canonical_form.rb:45-73 | the whitespace rule and the three duration rules leave alone every text with single spaces and no bracket right behind a word |
| DurationFolding.SettlesAtOnce | lib/hecks/bluebook/expression/canonical_form.rb:40-43 | a text is settled by one application exactly when it calls no duration directly on a duration whose rule runs no sooner: days on any, hours on hours or minutes, minutes on minutes |
| DurationFolding.RunSettles | lib/hecks/bluebook/expression/canonical_form.rb:63-73 | in a run of code without such a call the canonical form is the text with every duration said in seconds |
| DurationFolding.TextKeepsSeconds | lib/hecks/bluebook/expression/canonical_form.rb:63-73 | folding leaves what a whole text says in seconds as it was |
| DurationFolding.SecondsKept | lib/hecks/bluebook/expression/canonical_form.rb:63-73 | one pass of one duration rule changes no nested duration's number of seconds |
| DurationFolding.PassLate | lib/hecks/bluebook/expression/canonical_form.rb:63-73 | one pass leaves unfolded exactly the nestings it comes too late for |
| Dispatch.UpdateSetSettles | lib/hecks/runtime/command_interpreter.rb:159-169 | the update set saves a record exactly when every effect puts a value, and the record holds what each effect puts, read from the old record, and is the old record elsewhere |
| Dispatch.EffectsInAnyOrder | spec/dsl_spec.rb:701-706 | any rearrangement of effects with distinct targets saves the same record, and saves one exactly when the declared order does |
| Dispatch.DoubleWriteNeedsAnOrder | lib/hecks/bluebook/dsl/command_builder/mutations.rb:108-127 | two effects that put different values into one field save different records in the two orders |
| Dispatch.RefuseDuplicateTargets | lib/hecks/bluebook/dsl/command_builder/mutations.rb:108-127 | the build's loop refuses exactly the commands that write a field twice, naming a field written twice |
| Dispatch.SavedIsLawful | README.md:190-196 | a saved record owes everything: role held, every given before the writes, the lifecycle guard, a declared move, every effect read from the old record and nothing else changed, every ensures and invariant on the record saved; the converse is Rulings.DispatchedExactly |
| Rulings.DispatchedExactly | lib/hecks/runtime/command_interpreter/enforcement.rb:9-36 | for every verdict: a dispatch comes to it exactly when the rules, role, givens, `from:` and moves, effects, ensures, invariants in their order, determine it: a saved record when all of them hold, being the one record they determine; else the first rule that fails, with its index, or a crash where one faults first |
| Rulings.JudgeIsFirst | lib/hecks/runtime/command_rules/admissibility.rb:158-174 | a list of rules fails with the index of the first that is false when all before it hold, and faults where one does not answer first |
| Rulings.AssignmentsLand | lib/hecks/runtime/command_interpreter/mutation_applier.rb:49-66 | an assignment puts the argument given, the field as it was, or what the expression answers over the old record, as the value object admits it |
| Rulings.StepsLand | lib/hecks/runtime/command_interpreter/mutation_applier.rb:40-47 | an increment, decrement or multiplication of a whole number puts the sum, difference or product and crashes exactly where that leaves 64 bits |
| Rulings.ClampsLand | lib/hecks/runtime/command_interpreter/mutation_applier.rb:40-47 | a clamp puts the nearest number within its bounds |
| Rulings.ApplyIsFirst | lib/hecks/runtime/command_interpreter.rb:164-169 | the update set refuses or crashes as the first effect that puts nothing does |
| Rulings.MoveIsFirst | lib/hecks/bluebook/behaviour/lifecycle.rb:28-61 | the move taken is the first declared one whose `from:` holds the state or is missing |
| Dispatch.SavedIsTyped | lib/hecks/runtime/command_interpreter/mutation_applier.rb:40-66 | a saved record is as well typed as the one it replaces |
| Dispatch.FirstAdmittingMove | lib/hecks/bluebook/behaviour/lifecycle.rb:28-61 | a transition is found exactly when a declared one admits the state, and the one found does |
| Dispatch.JudgePasses | lib/hecks/runtime/command_rules/admissibility.rb:158-174 | a list of rules passes exactly when each of them holds |
| Account.StaysReachable | examples/banking/bluebook/deposit_accounts.bluebook:125-146 | every command keeps a reachable account reachable: balance not negative, ledger sequences 1 to n, fees and interest not negative; a command not carried out changes nothing; a status changes only along a declared transition |
| Account.BalanceExplained | examples/banking/bluebook/deposit_accounts.bluebook:165-287 | in every run the balance is the signed sum of the ledger with interest added and fees taken, less what amendments changed after the fact |
| Account.BalanceIsLedgerSum | examples/banking/bluebook/deposit_accounts.bluebook:88-103 | from its opening on, an account's balance equals the signed sum of its ledger exactly when interest makes up for fees and amendments |
| Account.FeesAreInNoEntry | examples/banking/bluebook/deposit_accounts.bluebook:234-247 | a credit and then a fee, for every amount and fee it covers, leave the balance short of the ledger's sum by the fee |
| Account.AmendmentsLeaveTheBalance | examples/banking/bluebook/deposit_accounts.bluebook:88-103 | a credit and then an amendment of its entry leave the ledger's sum apart from the balance by the amendment |
| Account.PlainBalanceIsLedgerSum | examples/banking/bluebook/deposit_accounts.bluebook:165-198 | with credits, debits, reversals, freezing and closing alone the balance always equals the signed sum of the ledger |
| Account.ReversingMovesNoMoney | examples/banking/bluebook/deposit_accounts.bluebook:105-115 | reversing an entry marks that entry, once, and leaves the balance and the sum as they were |
| Account.ClosedForGood | examples/banking/bluebook/deposit_accounts.bluebook:141-146 | nothing but a sweep of the customer's standing changes a closed account again |
| Account.DebitEnsures | examples/banking/bluebook/deposit_accounts.bluebook:179-198 | a debit carried out takes exactly the amount and posts exactly one entry, its sequence one past the last; its own `ensures` hold |
| Account.MovementsDone | examples/banking/bluebook/deposit_accounts.bluebook:165-198 | a credit or a debit of a reachable account is carried out exactly when it is of positive three-letter money, the account is open, its copy of the customer active and nothing overflows, for a debit with the amount no more than the balance and no more than the daily limit; and the whole account it leaves |
| Account.FeesDone | examples/banking/bluebook/deposit_accounts.bluebook:234-261 | the same of a fee, which the balance covers, and its correction, which the collected fees cover |
| Account.InterestDone | examples/banking/bluebook/deposit_accounts.bluebook:263-287 | the same of interest and its correction, which both the accrued interest and the balance cover |
| Account.LifecycleDone | examples/banking/bluebook/deposit_accounts.bluebook:200-232 | an account is frozen exactly from open, opened again exactly from frozen with an active copy, and closed exactly when empty and not closed, the customer not ended for the first and last |
| Account.EntryCommandsDone | examples/banking/bluebook/deposit_accounts.bluebook:88-115 | an entry is reversed or amended exactly when it is there, not reversed, and the account open with an active copy, an amended amount neither negative nor past 64 bits; that entry alone changes |
| Account.RefusedInOrder | lib/hecks/runtime/command_interpreter/enforcement.rb:9-36 | which refusal comes back: the argument, the missing entry, the missing fee, the given, the status, in this order, or a crash where a sum does not fit |
| Account.DebitsWithinLimit | examples/banking/bluebook/deposit_accounts.bluebook:179-198 | in every run from its opening, each entry was posted at a positive amount, and every debited one at no more than the daily limit |
| Account.InvariantNeverBreaks | examples/banking/bluebook/deposit_accounts.bluebook:123-125 | from a reachable account no command gets as far as the invariant's refusal, and a correction the collected fees cover always has a fee to correct |
| Account.ReplayAgrees | examples/banking/bluebook/deposit_accounts.bluebook:165-287 | leaving out the commands that were not carried out replays to the same account |
| Account.HighestIsLength | lib/hecks/runtime/command_interpreter/list_mutations.rb:82-97 | with sequences 1 to n the next minted one is n + 1 |
| Account.SumReplaced | examples/banking/bluebook/deposit_accounts.bluebook:88-103 | replacing one entry moves the signed sum by the difference of the two |
| Account.Record.MintSequence | lib/hecks/runtime/command_interpreter/list_mutations.rb:92-97 | the loop over the ledger mints one past the highest sequence held |
| Account.Record.Dispatch | lib/hecks/runtime/command_interpreter/enforcement.rb:9-36 | one dispatch, updating the record's fields in place, answers and leaves what the rules in their order say, the copy of the customer's standing taken anew when it is saved; which commands those rules carry out is stated command by command in MovementsDone, FeesDone, InterestDone, LifecycleDone and EntryCommandsDone |
| Settlement.Legs | lib/hecks/bluebook/behaviour/process_manager.rb:20-25 | the leg taken for an event and a stage is the first declared one that answers both, and there is none otherwise |
| Settlement.KnownMoves | lib/hecks/runtime/saga_interpreter/transitions.rb:39-83 | every dispatch takes a transfer's saga from one known standing to another |
| Settlement.StepKeeps | lib/hecks/runtime/saga_interpreter/delivery.rb:70-98 | every step of every run keeps every transfer known and every account solvent, and moves money only as a teller does |
| Settlement.MoneyIsConserved | spec/diagrams_spec.rb:427-455 | in every interleaving of requests, saga dispatches, sweeps, account changes and teller movements, balances plus what was debited and has reached neither account change only by what tellers paid in or out |
| Settlement.LivesAStory | examples/banking/bluebook/transfers_and_payments.bluebook:399-431 | what a transfer has done is always a beginning of one of the stories its six possible answers tell, and all of it once it rests |
| Settlement.AtMostOnce | lib/hecks/runtime/saga_interpreter/compensation.rb:16-62 | money leaves a source at most once, reaches each end at most once and neither before it left; six dispatches are all a transfer makes |
| Settlement.SixDispatchesSettle | lib/hecks/runtime/saga_interpreter/transitions.rb:58-83 | whatever happens in between, six dispatches bring a transfer to rest for good |
| Settlement.RestingPlace | examples/banking/bluebook/transfers_and_payments.bluebook:419-431 | a transfer at rest has its money in one place, except exactly when the credit and its refund were both declined, or both happened; both happen only after a mark on the transfer was declined |
| Settlement.MarksReadTheCopies | examples/banking/bluebook/transfers_and_payments.bluebook:80-118 | every mark of a saga under way, the settling of the transfer among them, is declined exactly when the transfer's own copy of that account is not open and active, a reversal also when the debit was never recorded |
| Settlement.MovementsReadTheAccounts | examples/banking/bluebook/deposit_accounts.bluebook:165-198 | a debit of a saga under way is taken exactly when its source is there, open, active in its copy, holds the amount and lets it go in a day, and a credit or refund exactly when its account is there, open, active and has room |
| Settlement.RequestsTaken | examples/banking/bluebook/transfers_and_payments.bluebook:57-81 | a request is taken exactly when its reference is new, its amount positive, its accounts two, its source there and open and the customer active; the transfer it makes |
| Settlement.AccountsAround | lib/hecks/runtime/command_interpreter/persisting.rb:91-101 | what tellers, rulings, a customer's standing and a sweep do to an account, every save of it taking its copy anew |
| Settlement.RefundsNewestFirst | lib/hecks/runtime/saga_interpreter/compensation.rb:16-62 | an unwinding saga gives back what it owes newest first, one refund a dispatch, taken or declined, until nothing is owed |
| SettlementEnds.SettledOncePaid | examples/banking/bluebook/transfers_and_payments.bluebook:399-431 | in every run in which saves and sweeps take its copies of open and active accounts, no mark of a transfer is declined, and at rest it is settled, its saga ended, exactly when its credit was taken, and reversed exactly when that was declined |
| SettlementEnds.StandingTransfersEnd | examples/banking/bluebook/transfers_and_payments.bluebook:392-432 | a transfer taken between two standing accounts that are left standing comes, six dispatches on and whatever else happens, to one of three ends: settled with its money arrived, reversed with its money back unless the refund was declined, or as requested with nothing moved |
| SettlementEnds.EndsAsItWent | examples/banking/bluebook/transfers_and_payments.bluebook:43-51 | a transfer at rest none of whose marks was declined is settled exactly when its credit was taken, reversed exactly when it was declined, and as requested exactly when its debit was; money is out only where a refund was declined too |
| SettlementEnds.SettleNext | examples/banking/bluebook/transfers_and_payments.bluebook:91-98 | a transfer about to settle is settled, and its saga ended, exactly when its copy of the destination is open and active; else it rests credited |
| SettlementEnds.ReverseNext | examples/banking/bluebook/transfers_and_payments.bluebook:110-118 | a transfer about to be reversed is reversed exactly when its debit was recorded and its copy of the source is open and active |
| Settlement.NeverBothWhileTakenOpen | examples/banking/bluebook/transfers_and_payments.bluebook:392-432 | while every save of a transfer and every sweep takes its copies of open and active accounts, it is never both credited and refunded, and its money is accounted for unless its refund is declined |
| Settlement.StandingAccountsArePaidOnce | lib/hecks/runtime/command_interpreter/persisting.rb:29-32 | so a transfer between two standing accounts, neither of which any step closes, freezes or leaves with a suspended customer, is never paid twice and at rest has its money in one place unless its refund was declined |
| Settlement.RefusedMarkPaysTwice | lib/hecks/runtime/saga_interpreter/transitions.rb:123-139 | a credited transfer about to be marked has been paid twice two dispatches on exactly when its copy of the destination is closed and the source may be credited |
| Settlement.RefusedDebitMarkPaysTwice | lib/hecks/runtime/saga_interpreter/transitions.rb:123-139 | a debited transfer about to be marked so has been paid twice four dispatches on, nothing in between, exactly when its copy of the source is not open and active and both accounts may be credited |
| Settlement.RefusedRefundStrands | lib/hecks/runtime/saga_interpreter/compensation.rb:64-79 | a transfer about to be credited has its money nowhere two dispatches on exactly when neither account may be credited |
| Settlement.RefundNext | lib/hecks/runtime/saga_interpreter/compensation.rb:37-62 | a saga about to refund does so exactly when its source may be credited |
| SettlementLosses.PaysTwice | examples/banking/bluebook/transfers_and_payments.bluebook:411-431 | a run of one transfer of fifty after which a hundred has been paid out for it |
| SettlementLosses.PaysTwiceWithoutASweep | lib/hecks/runtime/command_interpreter/persisting.rb:91-101 | the same loss in a run with no sweep: the destination is frozen while the debit is marked and open again before the credit |
| SettlementLosses.Strands | examples/banking/bluebook/transfers_and_payments.bluebook:411-431 | a run of one transfer of fifty after which fifty is at neither account |
| ReferenceCycles.ValidateReferences | lib/hecks/bluebook/dsl/bluebook_builder/validation/references.rb:47-58 | a bluebook is refused exactly when its references, those of directly owned pieces included, lead through two or more aggregates back to where they started; the path named is such a ring without repeats |
| ReferenceCycles.FindCycle | lib/hecks/bluebook/dsl/bluebook_builder/validation/references.rb:70-79 | the check over every name answers a real ring, or there is none |
| ReferenceCycles.CycleSearch.From | lib/hecks/bluebook/dsl/bluebook_builder/validation/references.rb:81-94 | one step of the depth-first search, updating marks and path: it answers a real ring, or finishes the name with nothing it passed leading back to the path |
| ReferenceCycles.CycleSearch.FirstThrough | lib/hecks/bluebook/dsl/bluebook_builder/validation/references.rb:96-106 | the loop over a name's targets answers a ring or finishes every target |
| ReferenceCycles.CycleSearch.FromEach | lib/hecks/bluebook/dsl/bluebook_builder/validation/references.rb:70-79 | the loop over the names answers a ring or leaves every name pointing only at names finished before it |
| ReferenceCycles.SettledHasNoRing | lib/hecks/bluebook/dsl/bluebook_builder/validation/references.rb:70-79 | a graph whose names all finished in such an order has no ring |
| ReferenceCycles.DropStandingStill | spec/dsl_spec.rb:1138-1209 | a ring with self-references taken out is still a ring of real edges |
| ReferenceCycles.SelfFreeJoins | spec/dsl_spec.rb:1138-1209 | a ring without self-references passes through two or more names |
| ReferenceCycles.SeenUnlessHidden | lib/hecks/bluebook/dsl/aggregate_builder/sealing.rb:30-45 | the check reads exactly the references a bluebook makes, however deep in its pieces, self-references aside, exactly when every declared aggregate that a nested piece references is already referenced from higher up or is the aggregate itself |
| ReferenceCycles.VerdictUnlessHidden | lib/hecks/bluebook/dsl/bluebook_builder/validation/references.rb:47-58 | where that holds a ring the check looks for is there exactly when one of all references is |
| ReferenceCycles.ShallowIsSeen | lib/hecks/bluebook/dsl/aggregate_builder/sealing.rb:30-45 | with no references in pieces nested in pieces, the check sees every reference a bluebook makes |
| ReferenceCycles.NestedRingIsAdmitted | lib/hecks/bluebook/dsl/aggregate_builder/sealing.rb:37-40 | a bluebook of two aggregates with a ring through a piece nested in a piece, which the check admits |
| ReferenceCycles.JobCycles | lib/hecks/projections/ci_pipeline/table/checks.rb:102-130 | a job is reported exactly when its needs lead back to it, its own need included |
| ReferenceCycles.FoundIsRing | lib/hecks/projections/ci_pipeline/table/checks.rb:121-130 | the path named is a ring of needs from that job |
| ReferenceCycles.RingIsFound | lib/hecks/projections/ci_pipeline/table/checks.rb:121-130 | a ring that extends the path tried is not missed |
| ReferenceCycles.RingWithin | spec/ci_pipeline_projection_spec.rb:286-296 | any walk of needs that returns holds a ring from its start |
| StoredRecords.AdditiveRecordsCarryOver | lib/hecks/ports/persistence/plugins/era/translation/additive_shape.rb:29-79 | a change to an aggregate that is called additive keeps the identity and leaves every stored record, of scalars, objects and lists, a record of the new declaration, whatever the primitive types admit |
| StoredRecords.AdditiveUnlessRespelled | lib/hecks/ports/persistence/plugins/era/translation/additive_shape.rb:29-79 | and it is called additive exactly when the identity is kept, every stored record carries over and no attribute was declared in another form that takes all its old values |
| StoredRecords.CarriesOverIsServes | lib/hecks/ports/persistence/plugins/era/storage_shape.rb:104-114 | every stored record carries over exactly when each old attribute is there in a form that takes its values member by member, what is required was required, and the lifecycle field and every state are kept |
| StoredRecords.HoldingTakes | lib/hecks/ports/persistence/plugins/era/storage_shape.rb:104-114 | one type signature holds every value of another exactly when, type names apart, it has the same members and each holds the other's values |
| StoredRecords.RenamedTypeIsCalledBreaking | lib/hecks/ports/persistence/plugins/era/translation/additive_shape.rb:29-37 | a value object renamed with its members kept: every record carries over, the change is called breaking and the scaffold has a rule to name |
| AdditiveShape.ImplicitIsShared | lib/hecks/ports/persistence/plugins/era/translation/implicit_edge.rb:61-64 | the implicit edge, decided over a scaffold diff with its renames and claims, qualifies exactly when the shared rule holds and no aggregate is gone |
| AdditiveShape.LedgerIsShared | lib/hecks/adapters/driven/postgres_era/lineage_manager/ledger_change.rb:20-50 | the ledger's verdict is the shared rule's with no aggregate gone, but for what a projection does not record: an optional attribute made required, a lifecycle state dropped |
| AdditiveShape.WidenedNeedsNoRule | lib/hecks/ports/persistence/plugins/era/translation/scaffold/differ.rb:97-139 | a change that only adds leaves the scaffold no rule to name |
| AdditiveShape.NothingToSayWhen | lib/hecks/ports/persistence/plugins/era/translation/scaffold/differ.rb:97-139 | a scaffold diff is empty exactly when no aggregate is gone, each identifies its records as before, and each attribute it had is there unchanged, or was primitive, or keeps every member's type without being the same piece under another name |
| AdditiveShape.RenamedToTheOnlyMatch | lib/hecks/ports/persistence/plugins/era/translation/scaffold/differ.rb:75-88 | where no two vanished aggregates share a shape, one counts as renamed to another exactly when that is the only appeared aggregate of its shape, and as unclaimed exactly when there is no such one |
| AdditiveShape.RenamesKeepShape | lib/hecks/ports/persistence/plugins/era/translation/scaffold/differ.rb:75-88 | every rename leads from a vanished aggregate to an appeared one of its whole shape, to each at most once, and every vanished aggregate is renamed or unclaimed |
| AdditiveShape.OnlyAddsComposes | lib/hecks/ports/persistence/plugins/era/translation/additive_shape.rb:64-79 | additive changes to an aggregate compose |
| AdditiveShape.SharedComposes | lib/hecks/ports/persistence/plugins/era/translation/additive_shape.rb:56-62 | additive changes to a bluebook compose exactly when every aggregate that both ends have and the middle lacks only adds to what it was |
| AdditiveShape.SharedMayNotCompose | lib/hecks/ports/persistence/plugins/era/translation/additive_shape.rb:56-62 | an aggregate dropped and declared anew is compared with nothing at either step, whatever became of it |
| Jobs.FirstEndingWins | lib/hecks/composer/jobs.rb:78-131 | whatever races it, a running job ends by the first step that ends it: starts before are refused and no later result, cancel or wake changes how it ended |
| Jobs.RunsUntilEnded | lib/hecks/composer/jobs.rb:78-131 | a job no step ends is still running |
| Jobs.QuietOnceEnded | lib/hecks/composer/jobs.rb:57-68 | an ended job's state stays as it is until another starts |
| Jobs.SupersededIsIgnored | lib/hecks/composer/jobs.rb:78-124 | the worker and the watchdog of a superseded job change nothing, after any run |
| Jobs.AtMostOneRuns | lib/hecks/composer/jobs.rb:38-49 | of the jobs started all but at most one have ended, jobs are numbered as they start, and an ended job has an answer within the limit |
| Jobs.KeptIsTheEnd | lib/hecks/composer/jobs.rb:18-18 | what is kept of an output is its last 20,000 characters |
| Jobs.Runner.StartJob | lib/hecks/composer/jobs.rb:38-49 | a start is refused exactly when a job runs, and then changes nothing; otherwise the state is that of a new running job under the next number |
| Jobs.Runner.CancelJob | lib/hecks/composer/jobs.rb:57-68 | a cancel ends the running job as cancelled, without output, and is refused when there is none |
| Jobs.Runner.ConcludeJob | lib/hecks/composer/jobs.rb:102-106 | a worker's result counts only while its own job is the one running: done or failed as it says, with the last 20,000 characters of its output |
| Jobs.Runner.WakeWatch | lib/hecks/composer/jobs.rb:108-124 | a watchdog waits on while its job runs within the deadline, ends it as timed out past the deadline, and leaves any other job alone |
| Jobs.Runner.Take | lib/hecks/composer/jobs.rb:38-124 | whichever entry point is called, the runner's state becomes what one step of the runs says |
| Change.AppliedAtMostOnce | lib/hecks/framework/bluebook/change.bluebook:41-56 | in every run a change's script runs at most once, never before its confirm, and only as the plan whose digest was confirmed |
| Change.AppliedRanUnlessByHand | lib/hecks/framework/bluebook/change.bluebook:95-104 | in every run in which nobody completes it by hand, an applied change ran, once and to its end |
| Change.OnlyHandsUndoIt | lib/hecks/framework/bluebook/change.bluebook:95-104 | a step makes a change applied without its having run exactly when it is a completion by hand of a change that is confirmed |
| Change.AppliedWithoutRunning | lib/hecks/framework/bluebook/change.bluebook:95-104 | a run of five steps after which a change is applied, nothing ran and nothing is still asked of the port |
| Change.StepKeeps | lib/hecks/framework/bluebook/change.bluebook:131-154 | every command and every answer of the port keeps that |
| Change.RunsExactlyWhenUnmoved | lib/hecks/adapters/driven/script_runner.rb:56-67 | a script runs for a change exactly when the port is asked and its plan still has the planned digest; a change not yet applied ends applied exactly when it also was still confirmed and did not raise |
| Change.FaultDoesNotStopIt | lib/hecks/framework/bluebook/change.bluebook:106-115 | a fault recorded after the confirm does not stop the script: the change ends faulted and its script runs all the same unless the plan moved |
| Change.EndedForGood | lib/hecks/framework/bluebook/change.bluebook:49-56 | once ended and with nothing asked of the port, a change stays as it is |
| ChangeAnswers.PlannedByItsScript | lib/hecks/adapters/driven/script_runner.rb:44-54 | a requested change is planned by what its script, as registered last, plans for its arguments, and faulted where it plans nothing or is forgotten |
| ChangeAnswers.PerformedByItsScript | lib/hecks/adapters/driven/script_runner.rb:56-67 | a confirmed change runs its script as registered last exactly when that plans what was confirmed, and ends applied with the report of its apply step or faulted where that raises |
| Change.Changes.RequestChange | lib/hecks/framework/bluebook/change.bluebook:58-68 | a request is accepted exactly when its run is new and its names are given; then the change is requested and the port asked to examine it, and nothing else is touched |
| Change.Changes.AnswerExamine | lib/hecks/adapters/driven/script_runner.rb:44-54 | the plan and its digest are recorded, or the refusal |
| Change.Changes.ConfirmDigest | lib/hecks/framework/bluebook/change.bluebook:83-93 | a confirm is accepted exactly when the change is planned and the digest is the planned one; then it is confirmed and the port asked to carry it out |
| Change.Changes.CompleteChange | lib/hecks/framework/bluebook/change.bluebook:95-104 | a completion is accepted exactly while the change is confirmed, whoever sends it, and records its report |
| Change.Changes.AnswerPerform | lib/hecks/adapters/driven/script_runner.rb:56-67 | the port plans again and runs the script only when the plan has not moved |
| Evolve.EditKeeps | lib/hecks/grammar/evolve/arguments.rb:28-35 | every edit keeps one row per keyword and one per argument identity, and keeps every argument with a declared keyword exactly when it is refused or proposes no argument for an undeclared one |
| Evolve.RunKeeps | spec/evolve_spec.rb:142-239 | over every sequence of edits that propose arguments only for declared keywords, rows stay unique and arguments keep naming declared keywords |
| Evolve.RenameShifts | lib/hecks/grammar/evolve/keywords.rb:49-60 | a rename moves the one row of the word, and its arguments in every file, to the new spelling and changes no other count |
| Evolve.RenameMayCollide | lib/hecks/grammar/evolve/arguments.rb:65-75 | a rename keeps argument identities unique exactly when no argument of the old word shares its place and name with one left over for the new |
| Evolve.StrayArgumentCollides | lib/hecks/grammar/evolve/arguments.rb:20-26 | a table on which an argument proposed for an undeclared word is taken and a rename to that word then makes two rows of one identity |
| Evolve.OneHop | lib/hecks/grammar/evolve/keywords.rb:62-71 | a word renamed is renamed once: in every run of edits after it the row keeps the spelling it was renamed from, and every further rename of the new spelling is refused |
| Evolve.SetStatusSets | lib/hecks/grammar/evolve/keywords.rb:40-47 | where rows are unique, an accepted status leaves the one row of that word and context at the station asked for, and every other row, argument and file as it was |
| Evolve.RenameRespells | lib/hecks/grammar/evolve/keywords.rb:49-60 | where rows are unique, an accepted rename respells the one row of that word, recording the old spelling and keeping its station, has its arguments follow in every file, and leaves every other row as it was |
| Evolve.ProposeAdds | lib/hecks/grammar/evolve/keywords.rb:18-27 | a proposal is refused exactly when the word is declared in its context or no file mentions that; else one row, proposed, is added at the end of the first file that mentions it and nothing else changes |
| Evolve.SetArgumentStatusSets | lib/hecks/grammar/evolve/arguments.rb:51-63 | where rows are unique, an accepted argument status leaves the argument of that identity at the station asked for, and everything else as it was |
| Evolve.ProposeArgumentAdds | lib/hecks/grammar/evolve/arguments.rb:19-26 | an accepted argument is added, proposed, to the first file that mentions its context; it is refused exactly when its identity is taken or no file mentions the context |
| Evolve.EditsRefused | lib/hecks/grammar/evolve/keywords.rb:29-74 | where rows are unique, a status is refused exactly when no file has a row of the word, and a rename exactly when none has, when the row was renamed before, or when the new spelling is taken |
| TableText.RewriteLeavesTheRest | lib/hecks/grammar/evolve/seeds.rb:145-152 | the text surgery that spells rows of a block anew, when it changes one, writes the file with those rows changed and every other line as it was exactly when no earlier line begins a copy of the block and no backslash of the block written stands for anything else |
| TableText.AppendLeavesTheRest | lib/hecks/grammar/evolve/seeds.rb:129-136 | adding a row at the end of the block that owns a context, or else of the first block, adds it and leaves every other line as it was exactly under the same two conditions |
| TableText.CascadeLeavesTheRest | lib/hecks/grammar/evolve/arguments.rb:65-86 | a rename that follows a word through every block changes the picked rows of all of them and no other line, when each block it changes meets both conditions in the file the blocks before it left |
| TableText.KeptIsQuiet | lib/hecks/grammar/evolve/seeds.rb:151-151 | a replacement of whole lines is put in as it stands exactly when each of its backslashes stands for itself |
| TableText.FoundUnlessCopied | lib/hecks/grammar/evolve/seeds.rb:161-170 | a block's text is first found in its own place exactly when no earlier line ends as its first line with its other lines right behind |
| TableText.CopyStartsMidLine | lib/hecks/grammar/evolve/seeds.rb:161-170 | such a copy starts part-way along its line: a whole line would open a block that was chosen first |
| TableText.BackslashIsLost | lib/hecks/grammar/evolve/seeds.rb:145-158 | a block with a row that holds an escaped backslash: setting the row's status does not write the file with that row's status set |
| TableText.CommentTakesTheEdit | lib/hecks/grammar/evolve/seeds.rb:145-152 | a file with a commented-out opening line over a copy of the block's rows: setting the row's status does not write the file with that row's status set |
| TableEdits.RewriteEnds | lib/hecks/grammar/evolve/seeds.rb:145-152 | an edit of rows is refused exactly when no line of any block is picked, and raises when an opening line is never closed |
| TableEdits.OwnerIsFirst | lib/hecks/grammar/evolve/seeds.rb:129-136 | a new row goes to the first block one of whose lines mentions its context, and where none does to the first block of all |
| TableEdits.AppendEnds | lib/hecks/grammar/evolve/seeds.rb:129-136 | a new row is refused exactly when no block is there to take it |
| Evolve.Tables.Cascade | lib/hecks/grammar/evolve/arguments.rb:65-75 | the loop over the files respells the arguments of the renamed word in all of them, writing a file only when it changes |
| Evolve.Tables.RenameOrRestore | lib/hecks/grammar/evolve.rb:62-72 | a rename is refused with nothing changed, carried out in full, or, when the write of the keyword's row or of any file after it raises and leaves that file torn, every file is as it was |
| Heki.ReplayAgain | lib/hecks/adapters/driven/heki/journal.rb:102-119 | replaying a journal over records that any part of it was already replayed into gives what replaying it once gives |
| Heki.ReadsAreHistory | spec/compact_heki_spec.rb:64-106 | through saves, deletes, compactions and crashes between any two writes, a read finds what replaying every entry ever journalled over the first snapshot gives |
| Heki.NextReads | lib/hecks/adapters/driven/heki/journal.rb:35-49 | one step changes what reads find only by the entry it journalled |
| Heki.CompactedTwice | spec/compact_heki_spec.rb:64-106 | a second compaction changes nothing and its preview skips |
| Heki.Store.ReadAll | lib/hecks/adapters/driven/heki.rb:173-180 | a read answers the snapshot with the journal replayed over it |
| Heki.Store.Find | lib/hecks/adapters/driven/heki.rb:50-60 | a lookup answers the same for its key |
| Heki.Store.Write | lib/hecks/adapters/driven/heki.rb:90-120 | an entry journalled is in every later read, wherever the process dies before the snapshot is written |
| Heki.Store.Save | lib/hecks/adapters/driven/heki.rb:122-134 | a save is read back as saved unless the process died before journalling it |
| Heki.Store.Delete | lib/hecks/adapters/driven/heki.rb:136-149 | a delete journals nothing for a record that is not there, and otherwise removes that key alone |
| Heki.Store.Compact | lib/hecks/adapters/driven/heki/journal.rb:35-49 | compacting changes no read, wherever a crash falls |
| Heki.Compaction.AnyBound | lib/hecks/hecks/adapters/journal_store/compaction.rb:45-52 | the loop finds exactly whether some candidate is bound to a projection |
| Heki.Compaction.Apply | lib/hecks/hecks/adapters/journal_store/compaction.rb:61-70 | all candidates are refused and left alone exactly when one is bound; else every journal is emptied, every read finds what it found, and the lines say what the preview said |
| ShardPlanner.Partition | lib/hecks/tools/shard_planner.rb:41-55 | the loop over the ordered items gives each to the lightest group so far, the lowest numbered when they tie, and appends it to that group |
| ShardPlanner.LightestGroup | lib/hecks/tools/shard_planner.rb:49-51 | the loop over the loads finds the lightest, the first of equals |
| ShardPlanner.DealtExactlyOnce | spec/ci_speed_shard_plan_spec.rb:67-115 | every item lands in exactly one group, once, and nothing else does |
| ShardPlanner.PlanWithinFourThirds | lib/hecks/tools/shard_planner.rb:41-55 | no group of the plan is heavier than (4/3 - 1/3m) times what the heaviest of m groups must hold in any other split |
| ShardPlanner.WithinFourThirds | lib/hecks/tools/shard_planner.rb:46-55 | the same over prices dealt in falling order |
| ShardPlanner.WithinMeanAndOne | spec/ci_speed_shard_plan_spec.rb:67-115 | no group is heavier than the mean of all and its share of one item more |
| ShardPlanner.MeanAndLast | lib/hecks/tools/shard_planner.rb:49-53 | and that item is the last one it was dealt |
| ShardPlanner.DearLastFits | lib/hecks/tools/shard_planner.rb:46-55 | a group whose last item is dearer than a third of what some other split's groups stay within stays within it too |
| ShardPlanner.TogetherIsSum | lib/hecks/tools/shard_planner.rb:46-55 | the loads of all groups together are the prices of all items |
| ShardPlanner.UntimedAtMedian | lib/hecks/tools/shard_planner.rb:34-39 | half of the recorded times are no more than the price of an item the table lacks and half no less |
| DealOrder.DealtInOrder | lib/hecks/tools/shard_planner.rb:46-48 | items are dealt dearest first, and by name where two cost the same |
| DealOrder.ListedAnyhow | lib/hecks/tools/shard_planner.rb:46-48 | the same items are dealt in the same order however they were listed |
| DealOrder.PricedBy | lib/hecks/tools/shard_planner.rb:34-39 | an item's price is its recorded time, else one with half the recorded times on either side, and without any record its size |
| ShardPlanner.OneLegEach | spec/ci_generated_rust_domains_spec.rb:40-44 | dealing by `(index + 1) % n == leg % n` gives every feature to exactly one of the legs 1 to n, for every n |
| Scalars.ReadsBack | lib/hecks/bluebook/assembly/scalars.rb:21-41 | every string, boolean and whole number is read back from its stored text as itself; a float is exactly when it prints as a plain decimal |
| Scalars.StoredApart | spec/assembly_scalars_spec.rb:3-29 | two such cells stored alike are alike, whatever their types |
| Scalars.OwnSpelling | lib/hecks/bluebook/assembly/scalars.rb:21-30 | a string keeps its own spelling exactly when that spells no boolean, number or quoted text |
| Scalars.ExponentIsMistaken | lib/hecks/bluebook/assembly/scalars.rb:11-14 | a float that prints with an exponent is stored as the string of the same letters is |
| Scalars.LargeFloatIsMistaken | lib/hecks/bluebook/assembly/scalars.rb:11-14 | the float 1.0e+20 is stored as the string of those letters is and is read back as that string |
| Scalars.UnescapeUndoes | lib/hecks/literal.rb:82-106 | unescaping undoes escaping for every text |
| Scalars.BackslashReads | lib/hecks/literal.rb:88-106 | read by itself a backslash gives way to the character behind it, but stays before a line break and at the end |
| Differences.SilentIffAlike | spec/assembly_spec.rb:34-53 | nothing is reported exactly when the two trees are equal up to keys that hold nothing |
| Differences.ReportsAreReal | spec/assembly_spec.rb:34-53 | every path reported leads to two different things that are not looked into further |
| Differences.OneSidedTrims | spec/dispatch_load_spec.rb:33-47 | the one-sided comparison reports what the other does against the second tree cut down to the first one's keys |
| Differences.OneSidedSilent | spec/dispatch_load_spec.rb:33-47 | so it is silent exactly when the trees are alike after that cut |

## Left out

Stated for less than everything the source reads:

- ExpressionText.RoundTrip: for trees of numbers, quoted text, keywords, paths, operators, sign tests and receiver
  suffixes; array, modulo, `match?`, strip, text-suffix and block forms are not modelled, nor alphanumerics outside
  ASCII; a string literal holding a double quote has no spelling, and a decimal is kept as it is spelled.
- CanonicalForm.ApplyIsTidy: alphanumerics are ASCII, and the stripping of a NUL at the ends is not modelled.
- DurationFolding.SettlesAtOnce: for texts in which no word starts right behind a closing bracket; such a text holds two
  operands with no operator between them and is no expression.
- DurationFolding.TextKeepsSeconds: likewise.
- CanonicalMeaning.MeaningIsKept: for the printable trees of `ExpressionText`, whose text has single spaces and calls no
  duration; that whitespace elsewhere is no part of a meaning is not proved.
- Expressions.IntegerArithmeticIsExact: Float arithmetic is over real numbers, so neither rounding nor an infinite
  result is modelled.
- SetTransformSoundness.PredicateMeansTheSame: whole and decimal numbers are compared exactly on either dialect.
  Postgres rounds a whole number to double precision before comparing it with one, and so takes 2^53 + 1 to be no more
  than 9007199254740992.0, which Ruby does not.
- SetTransformSoundness.UpdatedRowIsSaved: likewise. Fields are value objects of one primitive without projected fields
  or references; multi-field value objects, lists and dotted paths are not modelled. Postgres is taken to read a
  condition from left to right, literals to be within 64 bits when bound, and the ledger of expression forms a
  dialect may compile to admit those compiled here.
- Dispatch.SavedIsLawful: whether the caller holds the role is a parameter; references, delegation, corrections, list
  mutations and `old` in an `ensures` are not modelled there (`Account` models appending, amending and `old`).
- Rulings.DispatchedExactly: likewise.
- CompiledForms.CompilesExactly: that the store offers the statement at all, that the query is of the command's own
  aggregate and has a form in the store, and that every argument has a value without the caller are taken as given.
- CompiledForms.UpdatedExactly: on SQLite; Postgres refuses the whole statement where a sum overflows.
- BulkRepository.Repository.Sweep: reactions delivered after the commit and the outbox rows are not modelled.
- Settlement.MoneyIsConserved: one process manager; commands sent by hand to a transfer, the ceiling on reaction depth,
  the redrive of interrupted sagas and claims on dispatch keys are not modelled, and a dispatch that crashes past its
  retries is taken as refused.
- Account.BalanceExplained: amounts are added whatever their currency, as the code does; narratives and the customer
  record are not modelled.
- AdditiveShape.ImplicitIsShared: which aggregate a scaffold takes for renamed is decided by whole shapes; the rules it
  writes for moved and retyped paths are modelled only as far as there being any.
- StoredRecords.AdditiveUnlessRespelled: a stored object has every member of its value object; a type that refers to
  itself is a primitive of scalars where the storage shape cuts it off; patterns and admitted values are not modelled.
- Evolve.RunKeeps: each file has one block of either kind, contexts are owned by the first file that mentions them, and
  a row is modelled by its cells.
- TableText.RewriteLeavesTheRest: files end in a newline, and how a row is spelled anew is any function of its line.
- TableText.AppendLeavesTheRest: the lines added are any among which there is not the block's own opening line.
- TableText.CascadeLeavesTheRest: for blocks that do not open inside one another, and one way.
- Heki.ReadsAreHistory: one process at a time; a second one's stale memory, and ledger anchors, are not modelled.
- Heki.Compaction.Apply: for journals of the heki kind; compacting through a checkpoint is not modelled.
- Change.AppliedAtMostOnce: digests of different scripts, arguments or plans are taken to differ.
- Jobs.FirstEndingWins: a run is any sequence of the sections that hold the lock; threads are not modelled otherwise.
- ShardPlanner.PlanWithinFourThirds: prices are real numbers.

Not modelled at all:

- Policies and reactions outside the Settlement process manager and the Change bluebook.
- Assembling a bluebook from its dump and dumping it: only the comparison and the scalar cells are here.
- Adapters that speak to Postgres, SQLite, Rack, git or a cloud; a store is a map, a statement a condition and writes.
- The command line, the console, diagrams and other projections, workflow files and documentation.
- The bluebook language's Ruby surface: builders, constant shims and method capture.
- The Rust runtime.
