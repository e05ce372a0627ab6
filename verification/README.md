# Verified models of MiniCRM's rewriting scripts, data migrations and gates

MiniCRM rewrites things that cannot easily be rewritten back: comments in more than a thousand source
files, message catalogues, and production tables. Two further pieces decide by protocol whether
something may happen at all: the pre-push hook and the check-out of a coverage session. This project
models those pieces in Dafny and proves what they promise, for every input, every starting database,
every outcome of the subprocesses and every interleaving.

`dafny verify dfyconfig.toml` checks the whole project. Proofs are kept cheap by passing functions as
parameters and by `hide`, which only takes definitions away from the solver.

## The parts

**Comment rewriter and its checker** (`Text`, `Regex`, `RegexFirst`, `IdText`, `IdLists`, `WorkItemIds`,
`StripText`, `StripForms`, `StripRules`, `StripScope`, `StripOutcomes`, `StripOneComment`, `Lexer`,
`GapText`, `Parser`, `StripEdits`, `StripElements`, `StripRun`, `StripSentinels`, `StripKeepsCode`,
`StripExamples`, `StripSources`, `CodeSignature`, `StripCertified`). The regular expressions are the
real ones, run by a backtracking matcher. Sources are lexed by the lexical grammar of ECMA-262 (14th
edition, section 12): comments, strings, templates, regular expressions, JSX text and attributes. What
the syntactic grammar adds (the goal symbol at a point, syntax errors, the cut into typed tokens) is an
arbitrary function of the code and of the gaps between its pieces, so the results hold for whatever
grammar the parser implements.

- What becomes of a comment is told by its text alone, with the expressions proved to find just
  that: a comment with `@openapi` on a line of its own, one with suppression markers only and one
  whose IDs stand inside sentences stay as they are (`TaggedIsUnchanged`, `OutOfScopeIsUnchanged`,
  `SentenceIsUnchanged`); a label behind a line's marker, a citation at a line's end and a
  parenthetical, with any list of IDs and any text around them, are gone with their separators and
  nothing else (`LabelGone`, `CitationGone`, `ParentheticalGone`). Where one comment of a source
  changes, the output is the source with that one replaced (`OneCommentBecomes`).
- The promise "nothing outside a comment changes" can fail in two ways. `\s` in the expressions can
  eat the only line break of a block comment, which ECMA-262 section 12.4 counts as a line
  terminator between its neighbours (`LineBreakLost`). And taking out an ID can bring a `*` and a
  `/` together inside a block comment, which then closes early; what is left of it may be code
  (`CommentSpillsIntoCode`) or comments and white space again, which does no harm
  (`EarlyCloseMayKeepCode`). The promise holds exactly when no rewritten block comment spills code
  and no gap loses its last line break (`StripKeepsCodeExactly`); where none closes early none
  spills (`ClosedSpillsNoCode`). This covers every source in which spilled code, if there is any,
  begins unlike the code it comes before. Where it begins alike it can take that code's place
  (`SpilledTwinKeepsCode`).
- `check-comments-only-diff` does not see a lost line break: `x; ++y` turns into `x++; y`, both of
  which are accepted, with the same tokens (`CheckMissesLostBreak`). The two examples ask of the
  language only what it does on the code in question.
- The test that nothing but blanks stands before an own-line comment's newline can never fail
  (`LastLineAfterNewline`).

**Pseudo-localiser** (`Pseudoloc`, `PseudolocJson`). Recoverable exactly when the literal text has none
of the sixteen target letters. A JSON key `__proto__` loses its entry, and is the only way the shape of
a value changes.

**Migrations.** Tables are maps from primary keys to rows; a raised exception leaves the database as it
was. `PipelineMigrations` (056, 057, 075, 095), `AuditPartitions` (093), `RowSecurity` with
`RowStatements`, `RowIsolation`, `RowAnswers`, `RowIntegrity` and `RowSessions` (092, and the keys
between the five tables), `NoteTags` (097), `TypedSettings` (086, 087), `Deduplication` (145, 072).

- 092: policies decide what a statement picks; unique keys, foreign keys and their actions look at
  every row. So a session never sees, adds or gives a value to a row of another, but deleting its
  own rows can take those of others along, or clear keys in them and stamp them as updated
  (`CascadeReachesForeign`), and an update can fail on an address it cannot see
  (`HiddenEmailRefuses`) or succeed because of an account it cannot see
  (`HiddenAccountLetsThrough`). Both are stated exactly, for every run: the rows of others stay as
  they were if and only if no DELETE reaches one over the keys, and the session fares as it would
  without them if and only if no UPDATE fares differently for them. An UPDATE policy with only
  `USING` also checks the new row, so giving a row away fails the whole statement. Who a session's
  rows are is told by the setting, the roles and the owners alone (`RowAnswers`). No session,
  whatever it runs, leaves a key without its row or one address in two contacts (`RunKeepsIntact`).
- 097: `up` after `down` restores the links exactly when every linked tag's name is in normal form.
- 086: a row survives `down` and `up` exactly when provider, model and deployment mode are not empty
  and nobody is recorded as having acknowledged or updated it. The fallback insert of 086 and 087
  never adds a row.

**Pre-push gate** (`PrePush`). The outside world is an arbitrary function from all that happened so
far and the next call to a reply. The hook exits 0 exactly when none of the recorded events is a
blocking one, and then for one of five reasons that are spelled out on the trace; in every run,
whatever the exit code, each question is asked only when the script's order has come to it
(`InOrder`). Three edges of the code show in the contracts: the attestation's verdict is what it
printed, whatever its exit status; when no half leaves a report, no merge happens and the merged
report of an earlier push stays in place (`RunPlanned`); and the full suite is attested for the
selection where a targeted one had no file for any of its tests, although the comment on
`runPlaywright` (scripts/pre-push-tia.ts:561-562) says that the fallback never passes one.

**Coverage check-out** (`CheckOut`). A state machine of the atomic steps of any number of tabs and their
indicators, the dashboard, the server's versioned sessions and the retention job. Four edges of the code
are shown on concrete runs: a storage that throws on reading drops the ID without a lookup, a lost end
request is swallowed and orphans the session, an ID persisted by another tab meanwhile is dropped
unlooked-at, and an indicator that cleans up after an ended session drops the ID of a link opened since
it looked. For every run, what is dropped is the ID that was looked up exactly when the read succeeded
and found one and the last link opened since, if any, persisted that same ID.

## Model

| member | source | states |
|---|---|---|
| Regex.Consumed | scripts/strip-work-item-ids.ts:40-63 | every character a match runs over is one its expression may consume, and the ends the matcher lists lie in the text |
| WorkItemIds.PureRuleIsGentle | scripts/strip-work-item-ids.ts:40-41 | the parenthetical expression cannot match the empty text, drops no `*`, starts no match on `/`, and always drops something besides blanks and comment markers |
| WorkItemIds.LabelRuleIsGentle | scripts/strip-work-item-ids.ts:51-54 | the same of the leading-label expression past the marker it keeps |
| WorkItemIds.CitationRuleIsGentle | scripts/strip-work-item-ids.ts:60-63 | the same of the trailing-citation expression |
| WorkItemIds.PunctuationRuleIsGentle | scripts/strip-work-item-ids.ts:169 | the same of the punctuation repair, with more dropped than the one space put in |
| StripText.ReplaceShortens | scripts/strip-work-item-ids.ts:159-169 | a global replacement by such an expression leaves the text alone or makes it strictly shorter |
| StripText.ReplaceChars | scripts/strip-work-item-ids.ts:159-169 | it brings in no character but a space |
| StripText.ReplaceKeepsBlock | scripts/strip-work-item-ids.ts:159-169 | the closing marker of a block comment stays, and does not merge with the opening one |
| StripText.ReplaceKeepsPlainLines | scripts/strip-work-item-ids.ts:192-197 | when the number of lines is kept, no line that says nothing is changed |
| StripRun.ChangeIsSound | scripts/strip-work-item-ids.ts:153-186 | for every comment: what is pushed as its new text keeps its markers (both of a block comment, apart from each other), is strictly shorter, and removal happens to line comments only |
| StripScope.ExemptExactly | eslint-plugins/work-item-id-patterns.mjs:43-48 | a comment is exempt exactly when one of its lines holds white space, at most one star, white space, the tag and white space |
| StripOutcomes.TaggedIsUnchanged | scripts/strip-work-item-ids.ts:154 | a comment with such a line is not changed, whatever IDs it holds |
| StripOutcomes.TagLineCounts | eslint-plugins/work-item-id-patterns.mjs:43 | wherever such a line stands in a comment, it counts |
| StripScope.ReportedExactly | eslint-plugins/work-item-id-patterns.mjs:27-53 | IDs are reported of a comment exactly when one that is a word of its own and carries no `-ok` stands in it, whatever stands around it |
| StripOutcomes.OutOfScopeIsUnchanged | scripts/strip-work-item-ids.ts:155 | a comment without one, so with suppression markers at most, is not changed |
| StripOutcomes.SentenceIsUnchanged | scripts/strip-work-item-ids.ts:159-163 | a comment no ID of which stands behind an opening parenthesis, a line's marker or a dash is not changed |
| StripOutcomes.OutOfScopeSourceIsUnchanged | scripts/strip-work-item-ids.ts:152-190 | a source all of whose comments are tagged or without references comes back as it is |
| StripOutcomes.LabelGone | scripts/strip-work-item-ids.ts:51-54 | in a comment whose only IDs label one of its lines, the label goes with its separator and blanks; the marker and all other text stay |
| StripOutcomes.CitationGone | scripts/strip-work-item-ids.ts:60-63 | in a comment whose only IDs hang behind a dash or comma at the end of a line or of the comment, they go with the dash and the blanks before it; all other text stays |
| StripOutcomes.ParentheticalGone | scripts/strip-work-item-ids.ts:40-41 | in a comment whose only IDs stand in parentheses of their own, these go with the blanks before them; all other text stays |
| StripOutcomes.PunctuationDropped | scripts/strip-work-item-ids.ts:165-169 | punctuation right behind a line's marker goes with the spaces around it, for one space |
| StripOutcomes.NothingToRepair | scripts/strip-work-item-ids.ts:165-169 | punctuation anywhere else is left alone |
| Lexer.UnlexLex | scripts/strip-work-item-ids.ts:145-153 | lexing loses nothing: the elements put together are the source |
| StripElements.LexIsWellPlaced | scripts/strip-work-item-ids.ts:153-158 | comments found by lexing have both markers, a line comment is followed by a line terminator, and code before a gap does not end in white space |
| StripElements.LastLineAfterNewline | scripts/strip-work-item-ids.ts:178-182 | the third condition of the widening is implied by the second |
| StripElements.RangesMatchElements | scripts/strip-work-item-ids.ts:152-188 | widened edits are ordered, disjoint and never cross the element before; replacing all ranges at once spells the edited elements |
| StripRun.EditsSpell | scripts/strip-work-item-ids.ts:152-188 | the same for a whole source, with and without its emptied lines |
| StripRun.CollectEdits | scripts/strip-work-item-ids.ts:152-188 | the loop with its character-by-character widening collects exactly the edits of the specification |
| StripRun.SpliceBackToFront | scripts/strip-work-item-ids.ts:215-219 | splicing back to front by original offsets equals replacing all ranges at once |
| StripRun.StripFile | scripts/strip-work-item-ids.ts:144-225 | the whole imperative rewriter computes the specification the lemmas below are about |
| StripOneComment.OneCommentBecomes | scripts/strip-work-item-ids.ts:144-225 | where one comment alone changes and no line of it is emptied, the output is the source with that comment replaced, or, when only spaces are left of a line comment, without it, the blanks before it and the line feed before these |
| StripSentinels.EdgesAreKept | scripts/strip-work-item-ids.ts:203-213 | the first and last line of a comment never become sentinels, so a sentinel always fills a whole output line |
| StripSentinels.EmptiedExactly | scripts/strip-work-item-ids.ts:203-230 | a line becomes the sentinel exactly when it is now a lone `//` or `*` among white space and the line at its place before was not |
| StripSentinels.FilterClears | scripts/strip-work-item-ids.ts:215-224 | filtering the spliced text drops the emptied lines of each edit and nothing else |
| StripSentinels.DroppedLinesAreTheEmptied | scripts/strip-work-item-ids.ts:192-213 | for every edit without a sentinel line of its own: the lines that go are the newly emptied ones; if the line count is kept, every line that said nothing before is still there |
| StripSentinels.FilterDropsOnlyEmptied | scripts/strip-work-item-ids.ts:203-225 | the output is the edited elements, whole, exactly when the source is not edited or no line of the edited source is the sentinel by itself |
| StripSentinels.StripShortens | scripts/strip-work-item-ids.ts:144-225 | the rewriter returns its input or something strictly shorter, for every sound change of comments |
| StripSentinels.StripFileReachesFixedPoint | scripts/strip-work-item-ids.ts:144-225 | repeated as often as the source has characters it changes nothing any more |
| StripKeepsCode.GapsAlike | scripts/strip-work-item-ids.ts:144-225 | code and gaps come out alike exactly when every gap that had a line break keeps one |
| StripKeepsCode.LexEdited | scripts/strip-work-item-ids.ts:130-137 | lexing the edited source gives the edited elements, whatever the goal symbols depend on |
| GapText.LexGaps | scripts/strip-work-item-ids.ts:130-137 | text that lexes to comments and white space does so before any code it may precede, and the code after it is lexed as before |
| StripKeepsCode.ClosedSpillsNoCode | scripts/strip-work-item-ids.ts:159-162 | a rewritten block comment that does not close early spills no code |
| GapText.LexShowsSpill | scripts/strip-work-item-ids.ts:130-137 | the first code that lexing a text gives begins with the first character past the gaps at its head, whatever follows and whatever the goal |
| StripKeepsCode.StripKeepsCodeExactly | scripts/strip-work-item-ids.ts:130-144 | the output has the same code with the same gaps exactly when what is left of every rewritten block comment lexes to comments and white space and no gap loses its last line break; for every source in which spilled code begins unlike the next piece of code |
| StripSources.LineBreakLost | scripts/strip-work-item-ids.ts:40-41 | a source, code on both sides of a comment, on which the comment's line break is lost and the promise broken, for every language that accepts that code |
| StripSources.CommentSpillsIntoCode | scripts/strip-work-item-ids.ts:159-162 | a source on which the rest of a comment turns into code, for every language that accepts a source of comments alone |
| StripSources.EarlyCloseMayKeepCode | scripts/strip-work-item-ids.ts:159-162 | a source on which a comment closes early and the promise is kept all the same |
| StripSources.SpilledTwinKeepsCode | scripts/strip-work-item-ids.ts:159-162 | a source on which code is spilled and the promise is kept, the spilled code taking the place of the code it comes before |
| CodeSignature.ReadPrinted | scripts/check-comments-only-diff.ts:40 | the printed token list is uniquely decodable, also past line continuations, templates with line feeds and JSX text before `<`, `</` or `{` |
| CodeSignature.TextBeforeClosingTag | scripts/check-comments-only-diff.ts:40 | JSX text right before a closing tag is among what can be decoded |
| CodeSignature.SignatureDeterminesTokens | scripts/check-comments-only-diff.ts:30-44 | equal signatures mean equal token lists, and conversely |
| CodeSignature.CompareFilesIsExact | scripts/check-comments-only-diff.ts:51-69 | no finding exactly when both sides exist, parse and have the same tokens, given that the tokens of these two sides are as the parser emits them |
| CodeSignature.FindingBears | scripts/check-comments-only-diff.ts:51-69 | a finding is for the file asked about, and says added, deleted or not certifiable exactly when the first side is missing, the second alone is, or one of them does not parse |
| StripCertified.StripPassesCheck | scripts/check-comments-only-diff.ts:51-69 | where no code is spilled and no break lost, the rewriter's output passes the check |
| StripCertified.CheckMissesLostBreak | scripts/check-comments-only-diff.ts:30-44 | a source and its stripped form, both accepted with the same tokens, that differ in a line break before `++`: the check finds nothing |
| Pseudoloc.TransformStringIs | scripts/generate-pseudoloc.ts:65-91 | split, map and join come to mapping place by place outside tokens; the length is exactly the rounded-up 130 percent plus two |
| Pseudoloc.TransformedCharIs | scripts/generate-pseudoloc.ts:35-91 | each character of the output, by its place: the brackets, the padding, and in between the input's own, with its mark where it is one of sixteen letters outside a token |
| Pseudoloc.TokenEndExactly | scripts/generate-pseudoloc.ts:69 | a token is two braces, one or more characters without a closing brace, two braces |
| Pseudoloc.TokensSurvive | scripts/generate-pseudoloc.ts:65-91 | scanning the output finds exactly the input's tokens, verbatim, in order, one place further on |
| Pseudoloc.RoundTripExactly | scripts/generate-pseudoloc.ts:35-91 | stripping brackets and padding and mapping back recovers the input exactly when its literal text has none of the sixteen letters, also where it ends in the padding character |
| Pseudoloc.TransformIsInjective | scripts/generate-pseudoloc.ts:65-91 | two such inputs with one output are the same |
| PseudolocJson.Transform | scripts/generate-pseudoloc.ts:100-111 | the recursive loop over entries computes the specification |
| PseudolocJson.EntriesBecome | scripts/generate-pseudoloc.ts:104-108 | of an object with distinct keys every entry stays in its place with its value transformed, but one under `__proto__`, which is dropped |
| PseudolocJson.ShapeKeptExactly | scripts/generate-pseudoloc.ts:100-111 | shape, keys and every non-string leaf are kept exactly when no object has the key `__proto__`, and then each string is transformed |
| PipelineMigrations.Database.Up056 | db/migrations/056_create_pipelines_table.js:67-107 | succeeds exactly when stages are unique by name and by place, else nothing changes; then there is the one default pipeline and every stage is in it with its name and place |
| PipelineMigrations.Database.Up057 | db/migrations/057_add_pipeline_id_to_deals.js:26-31 | every deal gets the default pipeline, or NULL without one, and keeps all else; nothing else changes |
| PipelineMigrations.Database.Up075 | db/migrations/075_enforce_deals_pipeline_id_not_null.js:27-46 | aborts unchanged exactly without a default pipeline; else a deal that has a pipeline stays as it is and any other differs in nothing but having the default one |
| PipelineMigrations.Database.Up095 | db/migrations/095_add_pipeline_stage_id_to_deals.js:39-77 | aborts unchanged exactly when some deal names no stage of its pipeline; else every deal is linked to one it names |
| PipelineMigrations.Linked095IsUnique | db/migrations/095_add_pipeline_stage_id_to_deals.js:39-45 | the join has a single outcome |
| PipelineMigrations.ChainOutcome | db/migrations/095_add_pipeline_stage_id_to_deals.js:37-66 | over all four: 095 aborts exactly when a deal's text names no stage; otherwise each deal ends on the one stage of its own pipeline that bears its old stage name |
| PipelineMigrations.Database.MigrateChain | db/migrations/056_create_pipelines_table.js:67-107 | the four methods in order have that outcome |
| PipelineMigrations.Database.DeleteStage | db/migrations/095_add_pipeline_stage_id_to_deals.js:71-77 | deleting a stage is refused exactly while a deal is linked to it; every deal stays placed |
| PipelineMigrations.Database.DeletePipeline | db/migrations/095_add_pipeline_stage_id_to_deals.js:71-77 | deleting a pipeline with its stages is refused while a deal depends on them; every deal stays placed |
| AuditPartitions.MonthsAdded | db/migrations/093_partition_audit_log_by_month.js:149 | adding months keeps the day, or takes the last one of a month too short for it |
| AuditPartitions.LoopStart | db/migrations/093_partition_audit_log_by_month.js:148-150 | truncating after adding months gives the i-th next month's start, whatever the day clamp and the year rollover did |
| AuditPartitions.RangeIsMonth | db/migrations/093_partition_audit_log_by_month.js:149-156 | a range holds the moments of its month and no others, so ranges are contiguous and disjoint |
| AuditPartitions.NamesAreDistinct | db/migrations/093_partition_audit_log_by_month.js:151 | different months have different table names, for years of any length |
| AuditPartitions.TableNameIs | db/migrations/093_partition_audit_log_by_month.js:151 | the name is `audit_log_y`, the year in four digits or more, `m`, the month in two |
| AuditPartitions.AuditLog.CreateMonths | db/migrations/093_partition_audit_log_by_month.js:148-157 | for every current moment: a partition for each of this month and the next three whose name is free, holding that month |
| AuditPartitions.AuditLog.CopyRows | db/migrations/093_partition_audit_log_by_month.js:174-177 | every row, with all its copies, lands in the one partition its moment belongs to, or in the default one |
| AuditPartitions.AuditLog.Up093 | db/migrations/093_partition_audit_log_by_month.js:132-181 | both together, with the old table emptied |
| AuditPartitions.RowsByMonth | db/migrations/093_partition_audit_log_by_month.js:132-181 | where each row is afterwards, by its month alone, as often as it was in the log and nowhere else |
| RowSecurity.Catalog.Up092 | db/migrations/092_enable_row_level_security_on_core_entities.js:72-146 | each of the five tables ends with row security forced and the six policies; no other table is touched |
| RowSecurity.PoliciesAdmit | db/migrations/092_enable_row_level_security_on_core_entities.js:79-146 | for each command the policies admit a session's own rows, all rows for an admin, and nothing else |
| RowAnswers.WhoMayTouch | db/migrations/092_enable_row_level_security_on_core_entities.js:51-146 | where the setting reads as a user, the policies admit that user to a row exactly when the role is `admin` or the user owns the row; a user not listed has no role |
| RowAnswers.NobodyMayTouch | db/migrations/092_enable_row_level_security_on_core_entities.js:51-70 | where it is unset, empty or no uuid they admit nobody |
| RowAnswers.SelectFinds | db/migrations/092_enable_row_level_security_on_core_entities.js:79-102 | a SELECT finds exactly the rows its condition picks from those the user owns, or from all for an admin |
| RowAnswers.UpdateWritesThese | db/migrations/092_enable_row_level_security_on_core_entities.js:104-124 | an UPDATE that does not fail writes exactly these, as it says and with the update stamp, and no other row |
| RowAnswers.DeleteTakesThese | db/migrations/092_enable_row_level_security_on_core_entities.js:126-146 | a DELETE picks exactly these; a row is gone exactly when a chain of cascading keys leads to it, and one that stays loses exactly the keys that pointed to rows gone, and is stamped if it lost any |
| RowAnswers.WithoutPolicyNothingIsPicked | db/migrations/092_enable_row_level_security_on_core_entities.js:72-146 | a protected table without a policy for a command gives it no row, for an admin neither |
| RowAnswers.PickingNothingChangesNothing | db/migrations/092_enable_row_level_security_on_core_entities.js:72-146 | a statement that picks no row changes nothing |
| RowAnswers.UpdatedRowsStayInSight | db/migrations/092_enable_row_level_security_on_core_entities.js:104-112 | under whatever policies, a row an UPDATE wrote is still shown to its session |
| RowAnswers.UserIsShownOwnRowsAlone | db/migrations/092_enable_row_level_security_on_core_entities.js:51-146 | over any run of a user whose role is not `admin`, every row found has that user as owner |
| RowStatements.DoomedExactly | db/migrations/006_create_activities.js:46-60 | a DELETE removes exactly the rows that a chain of cascading keys leads to from a row it picked |
| RowIntegrity.KeysAreTargets | db/migrations/000_baseline.js:1921-2311 | which columns of the five tables point to which of them, and which are followed on a DELETE |
| RowIntegrity.RunKeepsIntact | db/migrations/034_unique_contacts_email.js:20 | over any run of any session, every key points to a row and no two contacts share an address, if so at the start |
| RowIsolation.DeleteSparesExactly | db/migrations/020_create_leads.js:73-91 | rows of others stay exactly as they were if and only if none of them goes or holds a key that is set to NULL |
| RowIsolation.StepSparesExactly | db/migrations/092_enable_row_level_security_on_core_entities.js:79-146 | any statement shows own rows only and lets no row of another appear, change owner or gain a value but the stamp of an update; SELECT and UPDATE leave them as they were, a DELETE exactly when its keys reach none of them |
| RowIsolation.StepAloneExactly | db/migrations/092_enable_row_level_security_on_core_entities.js:79-146 | a statement answers and does what it would without the rows of others, except exactly an UPDATE, not refused anyway, that either a unique value of theirs refuses or a key to one of them alone lets through |
| RowIsolation.RunSparesExactly | db/migrations/092_enable_row_level_security_on_core_entities.js:79-146 | the first of these over runs of any length |
| RowIsolation.RunAloneExactly | db/migrations/092_enable_row_level_security_on_core_entities.js:79-146 | the second over runs of any length |
| RowSessions.SessionIsIsolated | db/migrations/092_enable_row_level_security_on_core_entities.js:51-146 | over any adaptive run under the migrated policies and this schema's keys: only own rows shown, nothing of others added or given but update stamps on rows whose key is cleared; others untouched exactly if no DELETE reaches them, and the run is the one without them exactly if no UPDATE fares differently for them |
| RowSessions.UnknownUserTouchesNothing | db/migrations/092_enable_row_level_security_on_core_entities.js:51-70 | with the setting unset, empty or no uuid nothing is shown and nothing changes, whatever is run |
| RowSessions.UpdateFailsExactly | db/migrations/092_enable_row_level_security_on_core_entities.js:104-112 | a user's update fails, whole, exactly when it gives away a row it picks, breaks a rule of a row's own, points to nothing or meets a unique key, hidden or not; else it changes the picked rows alone |
| RowSessions.AdminIsUnrestricted | db/migrations/092_enable_row_level_security_on_core_entities.js:90-146 | an admin sees and picks from everything, and the policies accept any new row of an admin |
| RowSessions.CascadeReachesForeign | db/migrations/006_create_activities.js:51-55 | deleting one's own account takes another user's activity with it |
| RowSessions.HiddenEmailRefuses | db/migrations/034_unique_contacts_email.js:20 | an update of one's own contact to the address of a hidden one fails, and would not without that one, whatever else the two rows hold |
| RowSessions.HiddenAccountLetsThrough | db/migrations/004_create_deals.js:43-48 | an update that keys one's own deal to a hidden account succeeds, and would not without that one |
| NoteTags.Database.Up097 | db/migrations/097_create_note_tags_junction_table.js:53-76 | fails unchanged exactly when a normalised name is too long; else old tags keep id and name, one is added per new name, and links are exactly by name |
| NoteTags.Database.Down097 | db/migrations/097_create_note_tags_junction_table.js:80-103 | each note lists the names of its tags, in order, each once |
| NoteTags.NormExactly | db/migrations/097_create_note_tags_junction_table.js:60-65 | the normalised name is the text without the spaces at both ends, each of its characters folded |
| NoteTags.UpLinksExactlyTheNames | db/migrations/097_create_note_tags_junction_table.js:66-72 | a note is linked to exactly its trimmed, lower-cased, non-empty names |
| NoteTags.DownAfterUpNormalises | db/migrations/097_create_note_tags_junction_table.js:91-99 | `up` then `down` leaves the one sorted duplicate-free list of the normalised names |
| NoteTags.UpAfterDownRestores | db/migrations/097_create_note_tags_junction_table.js:46-103 | `up` after `down` restores the links exactly when every linked tag's name is in normal form |
| NoteTags.UpAfterDownSucceeds | db/migrations/097_create_note_tags_junction_table.js:60-65 | that `up` never fails |
| NoteTags.UpDownUp | db/migrations/097_create_note_tags_junction_table.js:46-103 | `up`, `down`, `up`: the same links to the same tags |
| TypedSettings.Database.Up | db/migrations/086_create_ai_configuration.js:50-125 | fails unchanged exactly when a value lacks its column's type; else one row, the migrated keys gone, all else untouched, the fallback row never in |
| TypedSettings.Database.Down | db/migrations/086_create_ai_configuration.js:130-166 | writes the keys of the row there is, over existing ones, and drops the table |
| TypedSettings.SmtpColumns | db/migrations/087_create_smtp_configuration.js:41-52 | what each column of the SMTP row takes from which key |
| TypedSettings.SmtpKeys | db/migrations/087_create_smtp_configuration.js:68-84 | what is written under which SMTP key |
| TypedSettings.AiColumns | db/migrations/086_create_ai_configuration.js:52-103 | what each column of the AI row takes from which key, with its default |
| TypedSettings.AiKeys | db/migrations/086_create_ai_configuration.js:130-164 | what is written under which AI key |
| TypedSettings.ReadsExactly | db/migrations/086_create_ai_configuration.js:52-103 | `up` fails exactly when a text is too long for its column by more than spaces, or is no number or time where one is asked for |
| TypedSettings.MissingKeysGiveColumnDefaults | db/migrations/086_create_ai_configuration.js:29-47 | the defaults of the backfill agree with the column defaults: without the keys it makes the row the fallback insert would |
| TypedSettings.AiRowSurvives | db/migrations/086_create_ai_configuration.js:80-164 | which rows survive `down` and `up`, exactly |
| TypedSettings.SmtpRowSurvives | db/migrations/087_create_smtp_configuration.js:41-84 | every SMTP row survives |
| TypedSettings.AreCodecs | db/migrations/086_create_ai_configuration.js:52-125 | reading depends on the migrated keys alone and writing sets exactly those, in both migrations |
| TypedSettings.UpDownUp | db/migrations/087_create_smtp_configuration.js:35-84 | `up`, `down`, `up`: the first row, none of the keys left, every other setting as at the start |
| TypedSettings.ConfigurationsRoundTrip | db/migrations/086_create_ai_configuration.js:50-164 | that for both migrations, from any settings on which `up` succeeds |
| Deduplication.SignalTable.Up145 | db/migrations/145_churn_expansion_signal_unique_active.js:29-45 | the index is never refused: all rows still there, cleared ones untouched, and of each group of active ones a newest left, however ties fall |
| Deduplication.OneNewestStaysActive | db/migrations/145_churn_expansion_signal_unique_active.js:34-39 | exactly one signal of each group that had an active one stays active, a newest, unchanged |
| Deduplication.CleaningAgainChangesNothing | db/migrations/145_churn_expansion_signal_unique_active.js:29-45 | where the index holds nothing is cleared; cleaning again changes nothing |
| Deduplication.BudgetTable.Up072 | db/migrations/072_fix_ai_token_budgets_unique.js:25-52 | fails unchanged exactly when a user has two overrides; else overrides and one earliest default row are left |
| Deduplication.ReducingAgainChangesNothing | db/migrations/072_fix_ai_token_budgets_unique.js:25-34 | with at most one default row nothing is deleted; reducing again changes nothing |
| PrePush.Hook.TestStackDbEnv | scripts/pre-push-tia.ts:219-258 | a refused database ends the process; once resolved it is not resolved again |
| PrePush.Hook.RunLoadCoverageMap | scripts/pre-push-tia.ts:355-378 | best effort, but for an unreadable committed map |
| PrePush.Hook.RunHalves | scripts/pre-push-tia.ts:620-648 | every half is attempted whatever became of the one before; the reports produced are those these halves wrote |
| PrePush.Hook.RunPlanned | scripts/pre-push-tia.ts:601-681 | for every plan with distinct reports: merged are exactly this run's reports in plan order; returns exactly if all halves and the merge succeeded; a failed merge is thrown, else the first failing half |
| PrePush.Hook.AttestOrThrow | scripts/pre-push-tia.ts:815-868 | passes exactly when the printed verdict passed; a targeted selection is handed on as it is, any other and none at all as none |
| PrePush.Hook.RunFullSuite | scripts/pre-push-tia.ts:751-788 | returns only with both halves successful and attested, one after the other, each by its own report if it left one and both for the selection if that was a targeted one |
| PrePush.Hook.RunSelected | scripts/pre-push-tia.ts:1024-1026 | returns only with the plan of this very selection run and merged, and attested for it |
| PrePush.Hook.Gate | scripts/pre-push-tia.ts:940-1027 | returns exactly when nothing blocking happened, and then with the static gates passed and one of four reasons; every question in the order of the script |
| PrePush.PlannedHalves | scripts/pre-push-tia.ts:601-648 | a planned run in which all went well ran the non-serial half and the serial half as the plan asked for them, and no other |
| PrePush.Hook.RunHook | scripts/pre-push-tia.ts:1029-1041 | exit 0 exactly when no event was a blocking one; then it was earned, a full suite by what called for it and the selection that calls for being handed on; in every run each question comes in its turn: tests are selected without a bypass, after the head was resolved and the committed map loaded and not unreadable, or the database found only then, and the serial half starts only right after the other half was attested |
| CheckOut.RunKeepsSound | client/src/coverageCorrelation.ts:161-193 | in every interleaving, also with a retention job that deletes active sessions, the session a tab is about to end is the only one its ID can be active for, and as it was found while active |
| CheckOut.ReturnLeavesNoSession | client/src/coverageCorrelation.ts:175-192 | after a normal return no active session has the ID, now or later, unless the end request was lost |
| CheckOut.World.CheckOutCoverageSession | client/src/coverageCorrelation.ts:161-193 | the function itself, with everybody else at work between its steps, makes a run of the machine; its own steps are the script the outcomes outside lay down and no others; it throws exactly when an ID is stored, read and its lookup fails, and has then dropped nothing; else nothing is stored unless removing failed, and after an end that arrived no active session is left |
| CheckOut.ArrivedEndLosesOnlyToAnEnd | server/src/services/coverageSessionService.ts:158-204 | an end request that arrives ends the session unless it was ended or deleted before; there is no other version conflict |
| CheckOut.EndNeedsVersion | server/src/services/coverageSessionService.ts:158-204 | an end request changes a session exactly when that one is active at the version the request names, and then ends it |
| CheckOut.LeftActiveExactly | client/src/coverageCorrelation.ts:180-188 | with nobody else ending it, the session is left active exactly when the request was lost |
| CheckOut.DroppedOnlyWhenAnswered | client/src/coverageCorrelation.ts:175-192 | the ID is dropped only after this check-out's lookup answered found or none, or if no ID was read |
| CheckOut.KeptWhenLookupFails | client/src/coverageCorrelation.ts:175-179 | after a failed lookup nothing is dropped until the tab begins anew |
| CheckOut.DropsWhatItLookedUpExactly | client/src/coverageCorrelation.ts:161-193 | in every run, the ID dropped is the one the lookup answered for exactly when the tab's last read did not throw and found an ID, and the last link opened since, if any, persisted that same ID |
| CheckOut.StoredIsWhatWasRead | client/src/coverageCorrelation.ts:161-193 | without a link opened meanwhile, what is stored later is the ID that was stored then, or nothing |
| CheckOut.RelayedIdIsDropped | client/src/coverageCorrelation.ts:71-87 | a run in which an ID persisted by another tab meanwhile is dropped, nobody having looked it up, while its session is active |
| CheckOut.ReconcileDropsTheEndedExactly | client/src/components/CoverageSessionIndicator.tsx:53-93 | in every run an indicator cleans up for an ID without active session, and drops that ID exactly when the last link opened since it looked, if any, persisted that same ID |
| CheckOut.ReconcileDropsAnOpenedLink | client/src/components/CoverageSessionIndicator.tsx:87-93 | a run in which the clean-up drops the ID of a link opened after the lookup, while its session is active |
| CheckOut.ThrowingReadDropsTheId | client/src/coverageCorrelation.ts:105-111 | a storage that throws on reading: the ID of an active session is dropped without a lookup |
| CheckOut.LostEndOrphansTheSession | client/src/coverageCorrelation.ts:180-192 | a lost end request leaves the session active and its ID gone |
| CheckOut.Browser.Relay | client/src/coverageCorrelation.ts:71-87 | persists before it strips; on a failing storage nothing changes; path, hash and other parameters are kept |
| CheckOut.WithoutKeepsOrder | client/src/coverageCorrelation.ts:71-87 | the parameters left keep their order |

## Left out

- The modes around the rewriter (`findHits`, `--verify`, the self tests) and the list of tracked files: they report and do not rewrite.
- Hashbang lines, HTML-like comments and numeric or identifier tokens as wholes: the lexer cuts code into single characters except where a delimiter decides; the cut into typed tokens is part of the language parameter.
- Strings are sequences of characters, not of UTF-16 code units, and `\s` has the white space of ECMA-262 section 12.2 without the Unicode space separators beyond those listed in `Regex`.
- StripKeepsCode.StripKeepsCodeExactly: says nothing of sources in which a rewritten block comment spills code that begins with the same character as the next piece of code (`SpilledTwinKeepsCode` shows that the promise can hold there), in which what is left of one takes in what stands behind it, as a line comment or an open block comment does, or which make a sentinel line of their own.
- CodeSignature.CompareFilesIsExact: assumes of the tokens of the two sides that each holds no line feed or ends at its own delimiter, and that JSX text between tags holds neither `<` nor `{` and is followed by a punctuator that begins with one of them.
- `Math.ceil(length * 1.3)` is the exact ceiling of 13n/10; float rounding is not modelled. Files, key order on disk and the sentence list of the catalogues are not part of the model.
- Column types, comments, triggers, foreign keys to users and the secondary indexes of the migrations, where they do not decide whether a migration succeeds; `down` of 056, 057, 075, 095, 093, 145 and 072.
- AuditPartitions.LoopStart: calendar arithmetic in the session's own time zone, without daylight-saving shifts; identifiers longer than the server's limit cannot arise.
- INSERT under row-level security: there is no INSERT policy. Statements do not change primary keys. Rows of other tables that hang on the five, triggers other than the update stamp of migration 077, and deferred checks are not modelled; NOT NULL, CHECK and the key to `users` are one parameter, as is the order in which an UPDATE writes its rows.
- RowSecurity.CurrentUser: how text is read as a uuid is a parameter. RowStatements.Step: so is the clock, which comes with each statement.
- NoteTags.Database.Up097: `lower` is a per-character fold that is idempotent and keeps spaces apart from other characters; the collation of `ORDER BY` is any total order; a fresh uuid is one not yet in use. The whole statement is modelled by the loops it implies.
- TypedSettings.Database.Up: casts between text and time stamps or integers are parameters for which casting a value to text and back gives that value; update stamps of rows are not modelled.
- The pre-push hook's messages, its bypass log, the stale-container warning and the contents of environment files; a selection whose JSON lacks fields. Which halves can match a test is a reply of the outside.
- The browser dump sent before a check-out: its failure is ignored by the code and changes nothing here. A random ID is one nobody has mentioned before.
