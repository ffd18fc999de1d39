# Verification of the repository's guard scripts

The scripts under `scripts/` guard database migrations and tenant isolation with
hand-written scanners and one static analyser. This project models them in Dafny
and proves what they are for.

- **Destructive statements** (`check-process-artifacts.js`). `SqlLexis` has the
  lexical rules of PostgreSQL (sections 4.1.2.1, 4.1.2.2, 4.1.2.4 and 4.1.5 of its
  documentation) and the delimiter index, and `QuoteText` how literals and delimiters
  are written; `BlockComments`, `StripComments`, `StripSlices`, `LowerBoundStrip`,
  `StripAgreement`, `StripLaws` and `Normalization` the two comment removers, when
  they agree and what they leave; `ReadingCosts` and `MaskCosts` what readings spend;
  `HollowCondition` and `HollowLaws` the judgement of WHERE conditions;
  `MaskStatement`, `MaskLiterals`, `MaskOpen` and `WhereConditions` the reader of DELETE
  statements; `AlterTable`, `AlterLaws`, `DropActions` and `AlterStatements` the
  reader of ALTER TABLE; `LowerBoundScan`, `LowerBoundPrint`, `LowerBoundOpen`,
  `LowerBoundAlter`, `AlterAgreement`, `LowerBoundDetector` and `DestructiveDetector`
  the lower bound detector, its budget and the final answer. `TextParts`, `Placement`, `Numbers`,
  `Characters` and `CharacterClasses` serve several of them.
- **Tenant resets** (`lint_tenant_schema.py`, Rule C). `PythonAst` and `RuleC` are
  the linter, `RuleCShapes` the statements it looks for; `RuleCRuns` says what a
  function may do when it runs; `RuleCExact` decides safety of those runs exactly;
  `RuleCEnds` says how statements may end; `RuleCSound` says when the linter agrees
  with the runs; `RuleCDiscipline` has the functions on which its silence can be
  trusted; `RuleCHoles` functions it misses, for most of what discipline forbids;
  `RuleCAlarms` safe functions it reports.
- **Templates and strings** (`check-ui-governance.js`): `Templates`,
  `TemplatePrint`, `TemplateExact`, `SourceMask`, `SourcePrint`.
- **Column churn** (`check-migration-column-churn.js`): `ChurnStrip`, `ChurnPrint`,
  `ChurnOrder`.
- **Statement splitters** of three migration runners, the **SQL literal printer**
  and the **inventory** of copied table definitions: `Splitters`, `SqlLiteral`,
  `Inventory`, `InventoryLines`, `Totals`; `PythonText` and `JavaScriptText` have what the
  scripts rely on of their languages.

## How to read the model

A scanner of the source is a method with the same loop; it is proved against a
function of its input (`Strip`, `Mask`, `Scan`, `Core`, ...), and the laws are
lemmas about that function. Many laws are about printed texts: a text is put together
from words, literals, comments and the like, and the scanner makes of it what it
should make of each part. A text is a `string`, a range of it is given by its
ends, `-1` and `null` are `None`. A search of the platform (`indexOf`, the next
match of a character class) is a function that returns its first hit. What a
regular expression finds elsewhere is a parameter, so every result holds for
anything it might find.

A run of a function (`RuleCRuns`) is a list of configurations, each with what is
left to do. Compound statements are entered; every branch, number of loop turns and
handler is possible; with `faults`, every statement may raise as well. A step uses
db when an expression it evaluates mentions db. A run is observed from a commit
until db is used, the function is left, or a loop around the commit starts another
turn.

Budgets are objects with the counters of the source. What a reading costs is a
function of its text (`StripCost`, `ScanCost`, `MaskCost`, `FailTotal`, ...); a method
that may run out says so in its result, exactly when the cost goes over what is left,
and that the caller turns this into a detection is proved of the detectors as a whole.

## Where the code and its comments disagree

- The comment at `scripts/lint_tenant_schema.py:293` stops at `continue` because
  the next turn is not looked at. In the last turn the run goes on behind the loop
  instead: `RuleCHoles.ContinueInLastTurn`. `RuleCSound.ContinueIsRight` says when
  stopping there is right, and `RuleCSound.EscapeIsRight` the same of a break or
  continue inside a statement, which is not followed: `RuleCHoles.EscapingBreak`.
- `scripts/setup_tenant.py:59` and `scripts/migrate_phase1.py:59` call the splitters
  the same logic. They differ on named tags: `Splitters.NamedTagDiffers`;
  `Splitters.SplittersAgreeExactly` says on which texts they agree.
- The message of Rule C (`scripts/lint_tenant_schema.py:389`) says that db is used
  before a reset. Also reported is a statement in which every run resets first:
  `RuleCAlarms.ResetInBothBranches`; `RuleCSound.PassesExactlySafe` has the condition
  under which there is no such alarm.
- The two comment removers are meant to read alike. They do not where an opener is
  skipped: `StripAgreement.OnePassExact` has the exact condition.

## Model

| member | source | states |
|---|---|---|
| SqlLexis.FindQuoteEnd | scripts/check-process-artifacts.js:106-120 | The loop finds the end of a quoted literal: doubled quotes stay inside, and a backslash escapes only in an escape string; none when no quote closes it in the range. |
| QuoteText.QuoteEndExact | scripts/check-process-artifacts.js:106-120 | A quoted literal ends at a place if and only if what stands up to it is written as one, quotes doubled or, in an escape string, signs behind backslashes, and the range does not go on with another quote. |
| SqlLexis.FirstOccurs | scripts/check-process-artifacts.js:149-159 | The linear search is what it is called: the delimiter stands at its result and nowhere earlier, or nowhere at all within the limit. |
| SqlLexis.DelimiterOccurs | scripts/check-process-artifacts.js:123-129 | Reading the text at a position yields a given delimiter exactly when its characters stand there. |
| SqlLexis.DelimiterIsOne | scripts/check-process-artifacts.js:123-129 | What the reading yields is a delimiter in its own right. |
| QuoteText.DelimiterExact | scripts/check-process-artifacts.js:123-129 | A delimiter is read at a place if and only if a tag between dollar signs stands there. |
| CharacterClasses.SqlClasses | scripts/check-process-artifacts.js:81-83 | The character classes of the scanners, written out character by character. |
| SqlLexis.BuildDollarIndex | scripts/check-process-artifacts.js:133-146 | The index holds, for every delimiter, exactly the positions where it starts, in increasing order. |
| SqlLexis.RecordedFirst | scripts/check-process-artifacts.js:149-159 | The first recorded position not before the start is the first occurrence in the text, if it fits the limit. |
| SqlLexis.NextDollar | scripts/check-process-artifacts.js:149-159 | Binary search in the index equals the first linear occurrence inside the limit, for every text, delimiter and range. |
| BlockComments.BuildCommentMap | scripts/check-process-artifacts.js:162-186 | The one pass with a stack maps exactly the openers a depth count from each opener finds closed, each to the same end, but for the openers it skips. |
| BlockComments.ReadAll | scripts/check-process-artifacts.js:162-186 | When the pass ends, the map is complete and every opener left on the stack is one whose depth count reaches the end unclosed. |
| BlockComments.SkippedSharesSlash | scripts/check-process-artifacts.js:162-186 | The only openers the pass skips share their slash with the closing mark of an earlier opener. |
| StripComments.NextPiece | scripts/check-process-artifacts.js:212-255 | One look with the delimiter index and the lazily built comment map finds the next piece of the text. |
| StripComments.StripOnePass | scripts/check-process-artifacts.js:191-259 | The loop over ranges with a stack of frames removes the comments the comment map knows, bodies of dollar quotes included. |
| StripComments.BodyDelimiters | scripts/check-process-artifacts.js:216-234 | A body is closed by the very delimiter that opened it. |
| StripSlices.StripMoved | scripts/check-process-artifacts.js:712-766 | Reading a slice on its own gives what reading its range in the whole text gives: the range form and the slice form agree piece by piece. |
| LowerBoundStrip.Budget.constructor | scripts/check-process-artifacts.js:667-672 | A fresh budget has used nothing and allows 100 steps a character plus 60 million. |
| LowerBoundStrip.Budget.Tick | scripts/check-process-artifacts.js:673-676 | Steps are added up, and the answer says whether the limit still holds. |
| LowerBoundStrip.FindQuoteEndTicking | scripts/check-process-artifacts.js:686-702 | The lower bound quote scanner gives the end the new one gives and pays the distance it read; it gives up exactly when that goes over the limit. |
| LowerBoundStrip.CountComment | scripts/check-process-artifacts.js:744-752 | The depth counter finds the end of the comment that opens here, or that it has none. |
| LowerBoundStrip.NextPieceTicking | scripts/check-process-artifacts.js:712-764 | One look of the recursive form finds the piece the range form finds with counted comment ends and pays the length of the literal, line or comment it looked through. |
| LowerBoundStrip.StripRecursively | scripts/check-process-artifacts.js:712-766 | The recursive form on slices computes the same function as the range form with counted comment ends; it spends exactly the cost of all looks, bodies included, and gives up exactly when that goes over the limit. |
| ReadingCosts.AllCharged | scripts/check-process-artifacts.js:712-766 | On a text put together from words, comments, literals and dollar quotes it spends a step for every character of the words, the length of each comment, literal and dollar quote, a step for each, and what the bodies cost. |
| StripAgreement.OnePassExact | scripts/check-process-artifacts.js:191-259 | For every text, the two forms agree if and only if the reading never stands on an opener that the comment map skipped and whose own count closes in the range. |
| StripLaws.ItemCleaned | scripts/check-process-artifacts.js:212-255 | Whatever follows it: words stay, a line comment becomes a blank up to its line break and a nested block comment up to its closing mark, a literal stays, a dollar-quoted body is cleaned on its own; and what follows is read as if it stood alone. |
| StripLaws.AllCleaned | scripts/check-process-artifacts.js:712-766 | From a text put together from words, comments, literals and dollar quotes, however nested, the recursive form takes the comments and nothing else. |
| StripLaws.OnePassCleans | scripts/check-process-artifacts.js:191-259 | The one-pass form does so if and only if it meets no comment that an earlier one hides from it. |
| StripLaws.OpenLiteralStays | scripts/check-process-artifacts.js:213-215 | A literal without a closing quote runs on to the end. |
| StripLaws.OpenCommentStays | scripts/check-process-artifacts.js:246-250 | The mark of a comment that is never closed is ordinary text. |
| StripLaws.OpenQuoteStays | scripts/check-process-artifacts.js:222-225 | So is a delimiter that does not come again. |
| Normalization.WordsNormalized | scripts/check-process-artifacts.js:262-264 | The words of a text, however they are spread, come out with single spaces between them and none outside. |
| Normalization.WordsExist | scripts/check-process-artifacts.js:262-264 | Every text is such a spread of words. |
| Normalization.TextJudged | scripts/check-process-artifacts.js:768-770 | Of a text put together from words, comments, literals and dollar quotes both detectors judge the words outside comments, with single spaces between them; the new one unless it meets a hidden comment. |
| StripAgreement.OnePassWithoutSharedSlash | scripts/check-process-artifacts.js:191-259 | They agree on every text without the characters `*/*`. |
| StripAgreement.QuotedOpenerHidesComment | scripts/check-process-artifacts.js:162-186 | They differ on a text with a quoted opener whose closing mark shares its slash with a comment. |
| HollowCondition.MatchParens | scripts/check-process-artifacts.js:320-328 | One pass with a stack finds the partner of every opening parenthesis, the end of the text for an open one. |
| HollowCondition.FindCore | scripts/check-process-artifacts.js:331-340 | The loop takes off blanks and outer parentheses until neither is left. |
| HollowCondition.SplitAtOr | scripts/check-process-artifacts.js:342-367 | The loop splits the range at every OR outside parentheses. |
| HollowCondition.BranchesFit | scripts/check-process-artifacts.js:342-369 | The branches lie inside the range, each shorter once there are two, and together with one more for each they weigh less than the range did: the worklist shrinks. |
| HollowCondition.IsHollowCondition | scripts/check-process-artifacts.js:319-371 | On every text, balanced or not, the worklist decides the recursive meaning: take off parentheses, split at OR, some branch says nothing. |
| HollowLaws.HollowInParens | scripts/check-process-artifacts.js:319-371 | Parentheses around a balanced condition do not change whether it is hollow. |
| HollowLaws.HollowInBlanks | scripts/check-process-artifacts.js:319-371 | A blank before a condition never matters; one behind it does not if every opening parenthesis of it is closed, stray closing ones or not, or if it ends with a blank already. |
| HollowLaws.HollowOr | scripts/check-process-artifacts.js:342-369 | A condition with an OR is hollow exactly when one of its sides is, if the left side leaves no parenthesis open; the right side may be anything. |
| HollowLaws.HollowPlain | scripts/check-process-artifacts.js:330-369 | A condition without parentheses and without the word OR is hollow exactly when it is blank or its text between blanks says nothing. |
| HollowLaws.HollowMoved | scripts/check-process-artifacts.js:319-371 | A range is judged as if its text stood alone, if its opening parentheses are closed in that text, or that text is the end of the whole one. |
| HollowLaws.OpenEndSeesBlank | scripts/check-process-artifacts.js:336-337 | With an open parenthesis the blank law fails: an input where one blank at the end turns the verdict. |
| MaskStatement.NextStep | scripts/check-process-artifacts.js:400-429 | The step at a special character, found with the delimiter index. |
| MaskStatement.MaskCostBound | scripts/check-process-artifacts.js:387-433 | One reading of a statement costs at most the length of the text behind its start. |
| MaskCosts.StatementCost | scripts/check-process-artifacts.js:393-398 | Reading a statement with closed literals, up to what ends it, costs its characters outside literals, one for each literal and one for what ends it. |
| MaskStatement.MaskBody | scripts/check-process-artifacts.js:387-433 | The loop returns the masked statement and takes its cost off the work, or marks the work as exceeded exactly when the cost goes over what is left. |
| MaskStatement.BodyHasWhere | scripts/check-process-artifacts.js:438-457 | The loop finds the first WHERE outside parentheses and the RETURNING behind it and judges the condition between them. |
| MaskStatement.FirstWord | scripts/check-process-artifacts.js:436-457 | A search for a word finds the first place where it stands as a whole word with as many parentheses closed as opened before it, or there is none. |
| MaskStatement.DeleteHasWhere | scripts/check-process-artifacts.js:436-457 | The verdict is that of the masked statement, at the cost of reading it; the work is exceeded exactly when it does not cover the cost. |
| WhereConditions.WhereJudged | scripts/check-process-artifacts.js:438-457 | If the first WHERE outside parentheses stands at one place and the first RETURNING outside parentheses behind it at another, or nowhere, the answer is whether the condition between them, or up to the end, is not hollow. |
| WhereConditions.NoWhere | scripts/check-process-artifacts.js:455 | Without a WHERE outside parentheses there is none. |
| MaskLiterals.BodyIsMasked | scripts/check-process-artifacts.js:387-433 | Whatever stands around a statement with closed literals, be it ended by a semicolon, a parenthesis or the quote of the host language, the reader returns its texts with one mark for each literal, those with nothing between them included: the contents of literals never get there. |
| MaskLiterals.LiteralsDoNotMatter | scripts/check-process-artifacts.js:387-457 | Two statements that differ only inside their quoted strings, quoted names and dollar bodies get the same verdict, wherever they stand. |
| MaskOpen.OpenQuote | scripts/check-process-artifacts.js:410-418 | A quote that never comes again makes one literal of all that follows: the masked statement is the text before it, without a string prefix, and the mark. |
| MaskOpen.OpenDollar | scripts/check-process-artifacts.js:419-429 | A delimiter that never comes again is left out, and the reading goes on behind it. |
| AlterTable.NextMove | scripts/check-process-artifacts.js:509-545 | One look at a position with the delimiter index, paying for a failed search; none exactly when that payment goes over the limit. |
| AlterTable.NextTurn | scripts/check-process-artifacts.js:499-558 | One turn of the loop: heads, literals and the characters that structure a statement, with the payment of that turn. |
| AlterTable.ScanRange | scripts/check-process-artifacts.js:487-560 | Reading one range from left to right finds a dropped column in it, or the ranges inside its literals to be read again; it detects exactly when the range drops a column or its failed searches go over the limit. |
| AlterTable.InnerApart | scripts/check-process-artifacts.js:526-541 | The ranges pushed by a range are apart from each other and strictly inside it: the worklist ends. |
| AlterTable.DropsColumnShorthand | scripts/check-process-artifacts.js:467-563 | The worklist detects exactly the texts that drop a column in some range, and those on which the failed searches of all ranges together cost more than the limit. |
| AlterTable.FewQuotes | scripts/check-process-artifacts.js:482-483 | On a text with at most forty quotes the failed searches never go over the limit, so the answer is exact. |
| DropActions.DropsWritten | scripts/check-process-artifacts.js:496 | An action drops a column if and only if it is blanks, the word DROP in small or big letters, at least one blank, and something that does not begin with the whole word CONSTRAINT. |
| AlterStatements.SingleAlterTable | scripts/check-process-artifacts.js:467-563 | A single ALTER TABLE with balanced parentheses and closed literals is detected if and only if one of its comma-separated actions is written so. |
| AlterStatements.AlterScript | scripts/check-process-artifacts.js:467-563 | In a text of several ALTER TABLE statements, ended by semicolons, parentheses or the next head, a dropped column is found if and only if some action of some statement is written so. |
| AlterLaws.DropsInLiteral | scripts/check-process-artifacts.js:516-531 | A range that is one quoted literal is judged by what stands inside it, up to three quotes deep. |
| AlterLaws.HeadInParentheses | scripts/check-process-artifacts.js:502-509 | A head inside the parentheses of a statement begins no other one. |
| AlterLaws.BackslashHides | scripts/check-process-artifacts.js:510-515 | Where backslashes escape, one inside a literal hides the character behind it. |
| AlterLaws.OpenQuoteSkipped | scripts/check-process-artifacts.js:516-524 | A quote that does not come again in its range is a character like any other. |
| AlterLaws.DropsInDollarQuote | scripts/check-process-artifacts.js:533-545 | A dollar quote with a fresh tag around the whole text leaves the verdict unchanged; a head at the end of the text may go on into the closing delimiter. |
| AlterLaws.DropsInDollarQuotes | scripts/check-process-artifacts.js:533-545 | So does any depth of such dollar quotes. |
| AlterLaws.DropsMoved | scripts/check-process-artifacts.js:486-561 | A range is judged as if it were a text of its own, even if its last head goes on behind it. |
| LowerBoundScan.ScanOutsideParens | scripts/check-process-artifacts.js:779-830 | The loop returns the text outside parentheses, with numbered marks, and the groups put aside, and spends a step a look and what its literals cost. |
| LowerBoundPrint.StatementScanned | scripts/check-process-artifacts.js:779-830 | Of a statement put together from words, literals, dollar quotes and groups, however nested, the reading keeps the words, with a mark for each literal and a numbered one for each group, and puts the groups aside as they are written. |
| LowerBoundOpen.OpenGroup | scripts/check-process-artifacts.js:828-829 | A group in which the statement ends is put aside with all the text behind its parenthesis, even what stands behind the end of the statement. |
| LowerBoundOpen.OpenLiteral | scripts/check-process-artifacts.js:805-810 | A quote that never comes again makes one literal of all that follows. |
| LowerBoundOpen.OpenDollar | scripts/check-process-artifacts.js:811-823 | A delimiter that never comes again leaves no mark, and the reading goes on behind it. |
| LowerBoundPrint.StatementCharged | scripts/check-process-artifacts.js:784-827 | It costs a step for every character outside literals, one for each literal and the way through it, and one for what ends the statement. |
| LowerBoundScan.ScanSound | scripts/check-process-artifacts.js:779-830 | At every point each mark in the text belongs to a group that is there or still open, and groups are shorter than the text. |
| LowerBoundScan.RefExists | scripts/check-process-artifacts.js:838-844 | What parses as the mark of a group in any stretch of such a text names a group that exists: printing and parsing of the number agree. |
| LowerBoundScan.ParensPeeled | scripts/check-process-artifacts.js:837-846 | A condition in parentheses, with whatever closed literals and dollar quotes in it, is constant exactly when it is so without them, however they nest. |
| LowerBoundScan.DeleteHasWhere | scripts/check-process-artifacts.js:832-847 | The loop never looks up a missing group and ends; its verdict is that of the reading without a budget, at the cost of that reading and of every group it opens. |
| WhereConditions.WhereRead | scripts/check-process-artifacts.js:835-847 | The condition goes from the first whole word WHERE outside the groups to the first whole word RETURNING behind it, or to the end; the answer is whether it is not constant. |
| WhereConditions.NoWhereRead | scripts/check-process-artifacts.js:835-836 | Without such a WHERE there is none. |
| LowerBoundAlter.ReadActions | scripts/check-process-artifacts.js:851-880 | The loop returns the actions of one statement at a step a character and the cost of its literals. |
| ReadingCosts.ActionsCharged | scripts/check-process-artifacts.js:855-880 | Reading balanced actions with closed literals costs a step for every character of them, literals included, and one for the semicolon. |
| LowerBoundAlter.DropsShorthand | scripts/check-process-artifacts.js:849-884 | The answer is whether the statement behind some head has a dropping action, at the cost of the statements up to the first one that has. |
| AlterAgreement.SingleAlterAgrees | scripts/check-process-artifacts.js:849-884 | For a single ALTER TABLE the lower bound reader reads the actions that the range reader reads if and only if they are actions with dollar signs as ordinary characters too, and then both verdicts agree. |
| AlterAgreement.EndsHere | scripts/check-process-artifacts.js:853-876 | An action is read to its own end exactly when, with dollar signs as ordinary characters, no comma, semicolon or closing parenthesis ends it earlier and no literal or parenthesis in it runs on. |
| AlterAgreement.DollarHidesDrop | scripts/check-process-artifacts.js:855-880 | A semicolon in a dollar-quoted default ends the statement for the lower bound reader only: it misses the drop behind it, the range reader does not. |
| LowerBoundDetector.SqlHasDestructiveStatement | scripts/check-process-artifacts.js:886-898 | The answer for one text is the answer without a budget, and what is spent is the cost of every part up to the first detection. |
| LowerBoundDetector.FileHasDestructiveStatement | scripts/check-process-artifacts.js:919-934 | The same for a file, where one budget serves all its readings. |
| LowerBoundDetector.DetectsDestructive | scripts/check-process-artifacts.js:937-943 | Detected are exactly the files that the unlimited detector detects and those whose reading costs more than the limit. |
| DestructiveDetector.SqlHasDestructiveStatement | scripts/check-process-artifacts.js:567-592 | Detected are exactly the texts that the detector without any budget detects and those on which the failed searches or the reading of DELETE statements cost more than their budgets. |
| DestructiveDetector.WithinBudgets | scripts/check-process-artifacts.js:482-592 | With at most forty quotes and sixty starts of statements neither budget runs out: the verdict is exact. |
| DestructiveDetector.NewDetects | scripts/check-process-artifacts.js:638-655 | The same for a file in its readings and in one or both backslash modes. |
| DestructiveDetector.SqlTextHasDestructiveStatement | scripts/check-process-artifacts.js:947-949 | The final answer is "yes" exactly when one of the two detectors, without any budget, finds a destructive statement, or one of their budgets runs out on its cost. |
| DestructiveDetector.SameTextRead | scripts/check-process-artifacts.js:262-264 | On an SQL file without `*/*` both detectors judge the same normalized text. |
| RuleC.Collector.Collect | scripts/lint_tenant_schema.py:272-310 | The recursive walk appends to the list exactly the commits of the block, each with what may follow it. |
| RuleC.Collector.CollectTry | scripts/lint_tenant_schema.py:300-307 | In a try, the body is followed by else and finally, else and handlers by finally, finally by what follows the try. |
| RuleC.CollectedOnce | scripts/lint_tenant_schema.py:272-310 | Every commit statement outside nested definitions is collected exactly as often as it occurs, and nothing else is. |
| RuleC.FirstDbStmt | scripts/lint_tenant_schema.py:317-332 | The loop with its jumps to break targets ends and finds the first statement that mentions db. |
| RuleC.NoViolations | scripts/lint_tenant_schema.py:383-395 | The report is empty exactly when every collected commit passes. |
| RuleC.CheckRuleC | scripts/lint_tenant_schema.py:380-395 | Collecting and walking report the commits that do not pass, each with the statement that uses db; none exactly when the function is silent. |
| RuleCShapes.CommitThenUse | scripts/lint_tenant_schema.py:346-360 | A commit and then a statement that mentions db: the pair is reported, and first, unless the statement is `await n(db, ...)` with one of the reset names; then nothing is. |
| RuleCShapes.CommitText | scripts/lint_tenant_schema.py:255-265 | Commits are exactly the statements `await db.commit(...)`. |
| RuleCShapes.UsesDbIsMention | scripts/lint_tenant_schema.py:313-314 | A statement uses db exactly when the name db is among all the names in it, nested blocks included. |
| RuleCShapes.OwnUseIsMention | scripts/lint_tenant_schema.py:313-314 | In a run, starting a statement uses db exactly when the name db is among the names it evaluates, those in nested functions excepted. |
| RuleCSound.CollectedOnEveryRun | scripts/lint_tenant_schema.py:272-310 | Whichever run of the function reaches a commit, through any branches, loop turns, handlers and finally blocks, the linter has collected that commit together with exactly what it takes to be left to do. |
| RuleCExact.CleanStep | scripts/lint_tenant_schema.py:317-332 | What the exact walk accepts stays accepted with every step of a run that leaves db alone: into branches, turns of loops, handlers and finally blocks. |
| RuleCExact.CleanTurn | scripts/lint_tenant_schema.py:317-332 | A loop that one turn leaves clean is clean for every further turn. |
| RuleCExact.BadRun | scripts/lint_tenant_schema.py:317-332 | What the exact walk rejects has a run that meets db first in something other than a reset. |
| RuleCExact.CleanExactlySafe | scripts/lint_tenant_schema.py:317-332 | Whatever is left to do, with or without implicit exceptions, the exact walk accepts if and only if no run evaluates an expression with db before a reset; compound statements are entered, nested functions are not. |
| RuleCEnds.QuietBlock | scripts/lint_tenant_schema.py:317-332 | Skipping a block that never mentions db is right: it is clean exactly when each of the ways it may end goes on cleanly. |
| RuleCSound.PassingIsClean | scripts/lint_tenant_schema.py:317-332 | Where what the linter does not walk leaves db alone, and it would accept from wherever a break or continue leads, what it accepts the exact walk accepts. |
| RuleCSound.WalkExactlySafe | scripts/lint_tenant_schema.py:317-332 | There, what passes together with all that breaks and continues lead to is safe; and where nothing bars these walks and each stops at a statement that uses db itself, only what passes so is. |
| RuleCSound.PassesExactlySafe | scripts/lint_tenant_schema.py:317-332 | Where breaks and continues lead to what passes, what the linter accepts is safe, and the statement its walk stops at uses db by its own expressions; where every statement in between can end normally, it accepts exactly then. Where that statement only has db inside, it reports whatever the runs do. |
| RuleCSound.ContinueIsRight | scripts/lint_tenant_schema.py:293-295 | At a continue the linter accepts whatever comes; it is right if the statements behind the loop pass as well, and, where that walk can be followed, only if. |
| RuleCSound.EscapeIsRight | scripts/lint_tenant_schema.py:317-332 | A break or continue inside a statement behind the commit is not followed; where the rest passes, the linter is right if the statements behind the loop pass as well, and, where that walk can be followed, only if. |
| RuleCDiscipline.DisciplinedIsInFragment | scripts/lint_tenant_schema.py:272-310 | In a disciplined function every point behind a commit on every run satisfies the conditions of PassingIsClean. Discipline is asked of statements with a commit in them only: no db in tests and the else of loops, exits of with blocks and finally blocks around it, nor in handlers where an exception may come behind the commit; breaks and continues, of these and behind a commit, lead to what passes. |
| RuleCDiscipline.SilentIsSafe | scripts/lint_tenant_schema.py:370-395 | No violation in a disciplined function means that every run, after every commit, uses db first in a tenant reset, or leaves the function or starts another turn of a loop around the commit before. |
| RuleCHoles.EscapingBreak | scripts/lint_tenant_schema.py:317-332 | Without discipline: a break inside an if behind the commit is not followed; no violation is reported for an unsafe function. |
| RuleCHoles.ContinueInLastTurn | scripts/lint_tenant_schema.py:293-295 | Without discipline: a continue in the last turn of a loop goes on behind the loop, where the linter does not look. |
| RuleCHoles.LoopElse | scripts/lint_tenant_schema.py:293-296 | Without discipline: the else of the loop around the commit is not walked. |
| RuleCHoles.LoopTest | scripts/lint_tenant_schema.py:293-296 | Without discipline: neither is its test. |
| RuleCHoles.WithExit | scripts/lint_tenant_schema.py:297-298 | Without discipline: leaving a with block that uses db is not seen. |
| RuleCHoles.ReturnUnderFinally | scripts/lint_tenant_schema.py:328-331 | Without discipline: a return under a finally block that uses db. |
| RuleCHoles.RaiseIntoHandler | scripts/lint_tenant_schema.py:328-331 | Without discipline: a raise into a handler that uses db. |
| RuleCHoles.HandlerEndsNormally | scripts/lint_tenant_schema.py:300-307 | Without discipline: a handler that ends normally leads behind the try, past the rest of its body. |
| RuleCHoles.FinallyBreaks | scripts/lint_tenant_schema.py:300-307 | Without discipline: a finally block with a break turns a return into a way out of the loop. |
| RuleCAlarms.ResetInBothBranches | scripts/lint_tenant_schema.py:317-332 | A false alarm: an if that resets the tenant in both branches is reported, although every run after every commit resets first. |
| RuleCAlarms.UnreachableUse | scripts/lint_tenant_schema.py:317-332 | A false alarm: a use of db behind an if that returns in both branches. |
| RuleCAlarms.HelperBeforeReset | scripts/lint_tenant_schema.py:317-332 | A false alarm: a nested function that mentions db, defined before the reset. |
| Templates.SkipTemplateExpr | scripts/check-ui-governance.js:436-470 | The reader of expressions, mutually recursive with the reader of templates, ends on every input and finds the closing brace. |
| Templates.FindTemplateEnd | scripts/check-ui-governance.js:473-490 | The reader of templates ends on every input and finds the closing backtick. |
| TemplatePrint.PrintedTemplateEnds | scripts/check-ui-governance.js:436-490 | Printing any well-formed template, with nested expressions, strings, comments and templates, anywhere in a text makes the reader return exactly where it ends. |
| TemplateExact.TemplateIsPrinted | scripts/check-ui-governance.js:436-490 | And nothing else has an end: the reader finds one exactly where some well-formed template is printed up to it, with its strings, comments, braces and templates in templates. |
| SourceMask.MaskSource | scripts/check-ui-governance.js:520-558 | The loop returns a mask of the same length and the strings of its regions: whole comments and strings masked, each started where it may start, all else copied. |
| SourceMask.MaskKeepsLayout | scripts/check-ui-governance.js:520-558 | In a mask line breaks stay where they are, everything outside comments and strings is unchanged, and strings keep their quotes. |
| SourceMask.StringsApart | scripts/check-ui-governance.js:549-552 | The recorded strings lie apart in increasing order, each with its quotes and what stands between them. |
| SourcePrint.SourceMasked | scripts/check-ui-governance.js:520-558 | A source text put together from code, comments, strings and templates has only one mask: code stays, comments are blanked, the insides of strings and templates are filled, line breaks stay. |
| SourcePrint.StringsRecorded | scripts/check-ui-governance.js:549-552 | Recorded are exactly its strings and templates, each with what stands between its quotes. |
| SourcePrint.StringMayStart | scripts/check-ui-governance.js:503-516 | A string may start exactly behind nothing, an operator, opening bracket or separator, or a keyword that is not part of a longer name, blanks aside. |
| SourcePrint.TextEndExact | scripts/check-ui-governance.js:521 | A string ends at a place if and only if what stands up to there is its quote, characters that are no line break, with quotes and backslashes behind backslashes, and its quote. |
| ChurnStrip.StripSqlComments | scripts/check-migration-column-churn.js:132-199 | The loop blanks the comments of the text and keeps every other character. |
| ChurnStrip.NextPiece | scripts/check-migration-column-churn.js:137-196 | One look finds what starts at a position: a literal, a dollar-quoted body, a comment or a single character. |
| ChurnStrip.StripKeepsLines | scripts/check-migration-column-churn.js:132-199 | Every position keeps its line break or lack of one; a character is kept or becomes a space. |
| ChurnStrip.SameLine | scripts/check-migration-column-churn.js:338-344 | The line number of a position is the same in the stripped and in the original text. |
| ChurnStrip.LineNumberAt | scripts/check-migration-column-churn.js:338-344 | The loop counts the line breaks before the position. |
| ChurnStrip.CommentsBlanked | scripts/check-migration-column-churn.js:177-193 | A comment becomes blanks: to the end of its line, or through its first closing mark. |
| ChurnStrip.VerbatimStays | scripts/check-migration-column-churn.js:140-174 | String literals and dollar-quoted bodies stay as they are, even where they look like comments. |
| ChurnStrip.StripIdempotent | scripts/check-migration-column-churn.js:132-199 | Stripping a stripped text changes nothing. |
| ChurnPrint.ItemBlanked | scripts/check-migration-column-churn.js:132-199 | Whatever follows it: a line comment, up to its line break, and a block comment, through its first closing mark, become blanks; words, literals and dollar quotes stay; and what follows is read as if it stood alone. |
| ChurnPrint.AllBlanked | scripts/check-migration-column-churn.js:132-199 | In a text put together from words, comments, literals and dollar quotes the comments are blanked and nothing else. |
| ChurnPrint.OpenStays | scripts/check-migration-column-churn.js:140-174 | A literal or a dollar quote that is never closed stays, with all behind it. |
| ChurnOrder.ExpandSources | scripts/check-migration-column-churn.js:96-119 | The loops list the registered files in order, the files of a Python runner behind it in thousandths. |
| ChurnOrder.OrderKeysIncrease | scripts/check-migration-column-churn.js:96-119 | The order keys are strictly increasing if and only if no registration but the last names a thousand files or more. |
| ChurnOrder.GroupByColumn | scripts/check-migration-column-churn.js:395-408 | The map holds under every joined key `table::column` its events in the order the sources are read. |
| ChurnOrder.SameKey | scripts/check-migration-column-churn.js:402 | As long as no table name has a colon, only findings about the same column share a key. |
| ChurnOrder.SortOrders | scripts/check-migration-column-churn.js:414 | Sorting the events of a column puts them in order and loses none. |
| ChurnOrder.SortingIsNotNeeded | scripts/check-migration-column-churn.js:413-415 | As long as the order keys increase, sorting changes nothing. |
| ChurnOrder.ScanColumn | scripts/check-migration-column-churn.js:413-426 | The loop collects the neighbouring pairs ADD-DROP and DROP-ADD. |
| ChurnOrder.ReportedIffAddedThenDropped | scripts/check-migration-column-churn.js:416-421 | A column is reported exactly when some ADD comes before some DROP, whatever lies between. |
| ChurnOrder.ChurnBalance | scripts/check-migration-column-churn.js:416-424 | Reports minus warnings is fixed by the first and the last event alone. |
| Splitters.SplitAtTags | scripts/setup_tenant.py:63-100 | The tag-aware loop returns the pieces between its cuts; where these are says the next row. |
| Splitters.TagWritten | scripts/setup_tenant.py:72-77 | A tag is read at a place exactly when two dollar signs with nothing but word characters between them stand there. |
| Splitters.TagCutsOutsideBodies | scripts/setup_tenant.py:63-100 | A semicolon is cut exactly when it stands outside all bodies, a body reaching from a tag outside bodies to the first equal tag behind it. |
| Splitters.BodiesExist | scripts/setup_tenant.py:63-100 | Every text has such bodies: in order, apart, and no tag outside them. |
| Splitters.SplitAtDouble | scripts/migrate_phase1.py:54-80 | The loop that knows `$$` only cuts at the semicolons between pairs of marks. |
| Splitters.SplitAndStrip | scripts/migrate_011_phase5_tenant_tables.py:59-84 | Stripping and dropping empty pieces while scanning gives what stripping and dropping the pieces of the `$$` form gives. |
| Splitters.PiecesLossless | scripts/setup_tenant.py:63-100 | Joining the pieces with semicolons gives back the text, for any cuts at semicolons; one more semicolon when the text ends in a cut. |
| Splitters.CutsOutsideBodies | scripts/migrate_phase1.py:65-80 | A semicolon is cut exactly when the `$$` marks before it pair up. |
| Splitters.SplittersAgree | scripts/setup_tenant.py:63-100 | The two forms cut at the same places of every text in which no named tag is met outside a body. |
| Splitters.SplittersAgreeExactly | scripts/setup_tenant.py:59-100 | They cut at the same places of a text if and only if every semicolon of it stands in the body of a tag just when an odd number of `$$` marks stands before it. |
| Splitters.NamedTagDiffers | scripts/setup_tenant.py:59-60 | With a named tag they differ, although the comment calls them the same logic. |
| SqlLiteral.PrintedLiteralReadsBack | scripts/seed_tcg_series_from_sheets.py:43-49 | A printed value, followed by anything but a quote, is one literal for the scanner of column churn, and the value comes back from it; for the scanner of statements it is one exactly when it is no escape string or the backslashes before every quote and at the end of the value pair up. |
| SqlLiteral.UndoubleDoubled | scripts/seed_tcg_series_from_sheets.py:49 | Undoubling the quotes of a value with doubled quotes gives the value back. |
| SqlLiteral.ValuePrinted | scripts/seed_tcg_series_from_sheets.py:43-49 | No value and a blank one are printed as NULL; any other loses the blanks around it and comes between quotes, each of its own quotes twice. |
| SqlLiteral.BackslashLosesQuote | scripts/seed_tcg_series_from_sheets.py:43-49 | In backslash mode a printed backslash hides the closing quote. |
| Inventory.NormalizeName | scripts/check_test_schema_dup.py:146-153 | The loop drops schema prefixes until none is left. |
| Inventory.OnlyPrefixes | scripts/check_test_schema_dup.py:143-152 | Taken off a name are exactly prefixes written as a placeholder in braces or a numbered tenant, and a dot, until none is left. |
| Inventory.PlaceholderIgnored | scripts/check_test_schema_dup.py:143-153 | A schema given as a placeholder in braces does not change the bundled name. |
| Inventory.TenantIgnored | scripts/check_test_schema_dup.py:143-153 | Neither does a numbered tenant schema. |
| Inventory.PublicKept | scripts/check_test_schema_dup.py:147 | The public schema is kept. |
| Inventory.RowsFromFile | scripts/check_test_schema_dup.py:164-177 | The loop returns the rows of the lines that have four cells and a number in the second. |
| InventoryLines.LineRead | scripts/check_test_schema_dup.py:168-176 | A line that starts with bars, blanks aside, is a row exactly if it has four cells and digits in the second; the row has the cells without the blanks around them. |
| InventoryLines.NoBarNoRow | scripts/check_test_schema_dup.py:169-170 | Any other line is none. |
| InventoryLines.AnyLineEnding | scripts/check_test_schema_dup.py:166-167 | The rows do not depend on how the lines end. |
| Inventory.GenerateInventory | scripts/check_test_schema_dup.py:201-224 | The loops write the prose, the table of rows and the table of totals, the totals being the counted names in order. |
| InventoryLines.DocumentShows | scripts/check_test_schema_dup.py:201-224 | The document counts its distinct files and its rows; under their headings it has each row with its four cells and each total with its name and number, in order. |
| Totals.Tally | scripts/check_test_schema_dup.py:190-220 | The loop counts the names; the list has each name that occurs once, with its number, most frequent first and then by name. |
| Totals.TotalsUnique | scripts/check_test_schema_dup.py:219 | There is just one such list. |
| Inventory.DocumentReadsBack | scripts/check_test_schema_dup.py:164-224 | With any prose and totals around the table, reading the written document gives back exactly the rows; no heading, rule, total or prose line is taken for one. |
| Inventory.InventoryReadsBack | scripts/check_test_schema_dup.py:164-224 | So it is for the document the source writes, with its own prose and totals, whatever rows it writes. |
| Inventory.KeyCounts | scripts/check_test_schema_dup.py:180-185 | The map counts the rows under every pair of file and bundled name. |
| Inventory.CountedRows | scripts/check_test_schema_dup.py:180-185 | Counted under a file and a bundled name are exactly the rows that have both. |
| Inventory.CheckInventory | scripts/check_test_schema_dup.py:227-255 | The comparison fails exactly when some count has grown, and names every such key with its growth; it reports a match exactly when all counts are equal. |
| Inventory.FreshInventory | scripts/check_test_schema_dup.py:188-255 | Against a document just written nothing has grown, and rows added since are counted exactly. |

## Left out

- Regular expressions other than those of delimiters, DROP actions, tokens and names: the heads of ALTER TABLE, the starts of statements, the plain DROP pattern, `conditionResidue` and `lbIsConstantCondition` are parameters, and so are nested PREPARE statements (they are further starts).
- Readings of files that are not SQL (`heredocBodies`, `stripCommentsLegacy`, the escape replacements) and the test for `standard_conforming_strings`: the texts to be judged and the flag are parameters.
- UTF-16: a character of the model is a Unicode scalar value, so a tag or name with a character beyond U+FFFF counts one character instead of two code units; ranges of characters are otherwise the same.
- Exceptions other than the spent budget (a recursion too deep) are not modelled; the source turns them into a detection as well.
- Joining output pieces is modelled as appending to a string.
- MaskLiterals.BodyIsMasked: a dollar sign in a text opens no delimiter, and a statement that starts with a literal, or with a single E before one, is left out where the reading depends on the character before the statement.
- MaskLiterals.LiteralsDoNotMatter: the same statements.
- AlterLaws.DropsInDollarQuote: no head of ALTER TABLE appears or disappears with the quote.
- AlterLaws.DropsInDollarQuotes: the same.
- LowerBoundDetector.FileHasDestructiveStatement: how a script is turned into the texts to be read is not modelled.
- The methods that spend from the lower bound budget are called while it is not overspent: the source throws at the first overspending and never calls them again.
- Rule C: the names of reset functions and which functions are checked are parameters; branch conditions are free; a with block does not swallow exceptions; the call of a reset counts as a reset whatever else its arguments mention.
- Rule C evaluates expressions as a whole: a db in a lambda, in a branch of a conditional expression or behind `and` counts as used; so does one in a pattern or guard of a match statement whose arms are tried, and in the types of handlers when an exception arrives. The body of a nested class is one step, and does not jump.
- RuleCDiscipline.SilentIsSafe: of disciplined functions; elsewhere silence promises nothing, as the holes show.
- Rules A and B of the linter: counting and name matching.
- Splitters: which characters count as alphanumeric is a parameter that is true of no semicolon and no dollar sign.
- Churn: parsing of ALTER clauses and identifiers, the stripper for Python files and the allowlist; order keys are real numbers, so rounding is not modelled.
- Inventory.RowsFromFile: a digit is an ASCII digit, where the source takes other digits of Unicode as well.
- Inventory.NormalizeName: the same for the number of a tenant schema.
- Inventory.InventoryReadsBack: commit and path have no line break in them.
- Inventory: the rows come from sources that are not modelled; printed messages are left out.
- Git and GitHub calls, environment variables, exit codes, console output, the checks of PR bodies and design documents, database work of the runners, and everything outside `scripts/`.
