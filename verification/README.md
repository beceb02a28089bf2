# SealKeeper, verified

A Dafny model of the parts of SealKeeper whose correctness is not visible from any one function: the audit
log's evidence, the check that keeps a reveal URL out of places where it must not be, the entropy claims, the
protocols that admins, requests and sinks run concurrently, and the algorithms underneath them.
`dafny verify dfyconfig.toml` checks everything.

## What is modelled

**Audit log** (`AuditChain`, `AuditVerdict`, `AuditRepo`, `AuditEvidence`, `AuditUnreported`, `AuditRuns`). Rows form a keyed hash
chain under a sealed anchor; each process keeps a high-water mark. Digests are ideal: a digest is the message it was made of,
so equal digests mean equal messages and a keyless writer can copy a MAC but not make one. `AuditRepo` holds the
transactions as they run, each proved equal to a function of the tables before it; the other modules prove what
follows: what a clean verdict means for every table content, that on countable tables it pins the keyed rows to what
honest transactions wrote, whatever keyless edits came between them, what slips through where a number reads 0,
that honest processes never raise an alarm in any interleaving, that a recorded break never goes away, and that
pruning removes exactly what is due.

**Mail templates** (`TemplateFlow`, `TemplateCheck`, `TemplateOutput`, `RevealText`). The static walk over a template's parse tree is proved sound
against an evaluator for text/template in which functions, methods, truth and ranging are arbitrary. The check on
a rendered text body is proved to decide its rule for every text exactly when the URL meets a condition, which every
token without white space and angle brackets meets.

**Entropy** (`EntropyG2`, `Counting`, `CitationGroups`, `JsText`). Bits are counts of draws: a claim of b bits is
that no text is printed by more than its share of all draws. The grouping of citations is the union-find with path
compression over an array. `JsText` is the port of JavaScript strings to Go.

**Strength estimate** (`CheapestCover`, `Strength`, `StrengthReadings`). The dynamic program over arrays, with costs in `real`, and
what every reading of a piece is worth. Word lists, the case mapping, log2 and the keyboard rows are parameters.

**Admins and single use** (`AdminLockout`, `AdminRoster`, `AdminRosterGaps`, `SingleUse`). Each SQL statement is one atomic step;
runs are arbitrary interleavings of the statements of concurrent requests. In `AdminRoster` the Postgres statements
are taken apart further, as READ COMMITTED has them: the locking read lists rows when it starts and then locks them
one by one, and the conditional write counts the other active rows when it starts and may wait for its target.

**Rate limits** (`RateLimit`, `RateComposite`, `RateRace`). The limiter is a class over its map of buckets,
proved against a reference that forgets nothing. `RateComposite` is Check by itself, with two limiters or one on
both sides; `RateRace` interleaves the locked calls of any number of requests. Clock readings are parameters.

**Event dispatcher** (`Dispatcher`, `DispatcherFanout`). A state machine over the steps of router and sink worker:
non-blocking sends, polls lane by lane, the blocking receive, and the per-lane atomic operations of a drop notice,
which are not atomic together. `DispatcherFanout` adds the intake, the router, any number of sinks that come and
go, and the counters they share. Fields called history record what happened and influence nothing.

**Random draws** (`RandomDraws`, `Shuffle`) and **domain matching** (`DomainMatch`).

## Where code and documentation differ

- A verdict is the first broken number, and 0 is the verdict "no break". A break reported as number 0, or as one more
  than -1, therefore reads as none. `VerifyZeroIff` gives the exact meaning of a clean verdict for all tables;
  `Countable` is the condition under which it is the documented one. Each case of it that an edit can break lets rows
  be lost unreported: a row numbered 0 hides missing leading rows, a tail numbered -1 or a retention base of -1 hides that
  the log is gone, and an unsealed anchor with legacy_until -1 hides a truncation (`AuditUnreported`). The tables have
  no constraint against these numbers.
- SealAnchor's comment says that an unsealed anchor in front of rows is sealed with the break recorded. It is, but for
  an anchor with legacy_until -1 below the tail (`SealRecordsBreakIff`, `SealedTruncationVerifies`).
- The text check compares two counts for the rule that the URL stands on its own. For a token that can overlap itself or
  the next URL at a delimiter the counts mislead (`UnclearMisleads`); for all others they decide (`CountsDecideRule`).
- Rows from before the anchor are pinned by digest, instant and the text of their joined fields, not field by field,
  and all but the newest not by number (`AnchorPinsTable`, `LegacyFieldsNotPinned`, `LegacyNumbersNotPinned`).
- The comment on guardedLastActive says that locking every active row serialises the writers. The locking read locks
  the rows that were active when it started; a row that becomes active while it waits is not locked.
  `StaleReadLeavesNobody` is a run that ends with no active admin; `SomeoneStaysActive` says that there is none
  without a row becoming active while a locking read is under way.
- Composite's comment says that a refused request consumes no slot on the other side. A request that loses a race
  for its email's last slot is refused with its IP charged; `RefusedWithIpIff` says exactly when and
  `OvertakenInBetween` that it takes another request charged in between. To a request alone it happens only where one
  limiter counts both sides on one key (`CheckDecides`, `RefusalChargesNothing`, `AllowedIsCharged`).
- Of walkArg's refusals, RevealURL in a chain or after another field, and declarations, are not needed for what the
  check promises (`LooserIsEnough`); the others are (`RefusalsNeeded`), template calls aside, which have no meaning here.
- recvByPriority's comment says that it always takes from the highest non-empty lane. It may take from a lower one
  when a higher lane has filled since it was polled; `HigherLanesWereEmpty` is the exact condition.
- Inspect's comment calls resetAt the time when one more slot opens up. The slot opens strictly after it
  (`ResetTimeIsExact`).
- The entropy code credits words and separator only where the text tells them. That is sufficient for a one-to-one
  map (`CreditIsExact`) and not necessary (`UncreditedMayBeInjective`); for two words and one-character separators
  `TwoWordsCollideIff` is the exact condition.

## Model

| member | source | states |
|---|---|---|
| AuditChain.VerifyZeroIff | internal/audit/audit.go:528-600 | for every table content, the verdict is 0 exactly when every row not numbered 0 is valid in place, a valid anchor carries no break, and anchor and tail agree, or nothing was sealed and the tail is 0, or the number to report would be -1 + 1 |
| AuditChain.AnchorBreakZeroIff | internal/audit/audit.go:608-641 | the same of the anchor alone, for all numbers |
| AuditChain.VerifyZeroCountable | internal/audit/audit.go:528-641 | where every number can be reported that is: all rows authentic and linked, and either an empty unsealed log or a valid unbroken anchor that names the tail and is not below the floor |
| AuditChain.FirstBadZeroIff | internal/audit/audit.go:551-583 | the row walk reports 0 exactly when every row not numbered 0 is valid after its predecessor |
| AuditChain.DueRun | internal/audit/audit.go:455-481 | the length of the longest leading run of rows due for pruning |
| AuditRepo.Repo.RaiseFloor | internal/audit/audit.go:667-674 | the floor becomes the larger of itself and the given number |
| AuditRepo.Repo.Observe | internal/audit/audit.go:660-664 | only a valid anchor raises the floor |
| AuditRepo.Repo.Append | internal/audit/audit.go:243-319 | with an unused number one row more, which holds the event as given on top of the newest row, and a valid anchor over it that carries on or records the break; with a used one nothing |
| AuditRepo.Repo.SealAnchor | internal/audit/audit.go:331-406 | the same rows and a valid anchor over the newest that records what the old one shows; a sealed anchor stays; and the floor |
| AuditRepo.Repo.VerifyRows | internal/audit/audit.go:551-583 | the loop returns the first bad row's number and the end of the walk |
| AuditRepo.Repo.VerifyTx | internal/audit/audit.go:528-546 | the least number reported by the rows, the recorded break and the anchor against the floor read before, and the raised floor |
| AuditRepo.Repo.PruneBoundaryScan | internal/audit/audit.go:458-481 | the loop stops at the last row of the longest due run |
| AuditRepo.Repo.Prune | internal/audit/audit.go:415-453 | with a break reported, or nothing overdue, the tables stay; else exactly the longest leading run of overdue rows goes and its newest row is the base of an otherwise equal valid anchor |
| AuditVerdict.VerdictIsLeast | internal/audit/audit.go:490-546 | for every table content the verdict is the least nonzero number reported: by the first row that is not intact, by the break a valid anchor records, or by how anchor and tail stand to each other |
| AuditVerdict.ExactlyOneStands | internal/audit/audit.go:602-641 | anchor and tail are missing, unsealed, unmigrated, forged, rolled back, short, long, of another hash or in agreement, and just one of these |
| AuditVerdict.AnchorShows | internal/audit/audit.go:602-641 | the number that goes with each of them |
| AuditVerdict.AppendStores | internal/audit/audit.go:278-304 | the row an Append writes, field by field, and the anchor over it |
| AuditVerdict.SealStores | internal/audit/audit.go:376-406 | what sealing writes, case by case |
| AuditVerdict.PruneStores | internal/audit/audit.go:415-481 | what pruning deletes and writes |
| AuditEvidence.AnchorPinsTable | internal/audit/audit.go:551-657 | under an anchor one table verifies against, another verifies exactly when keyed rows are equal in every field, legacy rows in digest, instant and joined text, and the newest has the anchored number |
| AuditEvidence.LegacyFieldsNotPinned | internal/audit/audit.go:811-834 | two different events share the v1 digest body |
| AuditEvidence.LegacyNumbersNotPinned | internal/audit/audit.go:585-600 | any legacy row but the newest can be renumbered below the next one and the verdict stays 0 |
| AuditEvidence.LinkedFromEnd | internal/audit/audit.go:551-583 | of two keyed chains with one end the shorter is the end of the longer |
| AuditEvidence.ToldIff | internal/audit/audit.go:278-283 | an Append records no break only over an anchor that agrees with the tail or an empty unsealed log, exactly unless the number to report is 0 or a tail numbered 0 was never sealed |
| AuditEvidence.StepsAreTransactions | internal/audit/audit.go:243-453 | the steps of a run are the transactions on the tables, and a keyless edit is any tables of known digests; on countable tables every transaction can run |
| AuditEvidence.VerifiedMatchesAccount | internal/audit/audit.go:528-657 | a clean verdict on countable tables under a valid anchor means that the keyed rows are those honest transactions left under that anchor |
| AuditEvidence.PruneShape | internal/audit/audit.go:415-453 | a prune that changes the tables has verified them, keeps a proper suffix and reseals over the last row removed |
| AuditEvidence.StepKeepsInv | internal/audit/audit.go:243-453 | appends, seals, prunes and keyless edits keep: everything stored is known, and each unbroken anchor issued has its account of linked keyed rows |
| AuditEvidence.RunKeepsInv | internal/audit/audit.go:243-453 | so does every run of them |
| AuditEvidence.TamperEvidence | internal/audit/audit.go:528-657 | after any run of honest transactions and of any keyless edits, where each transaction finds its break told and the tables now are countable, a clean verdict under a valid anchor means: this anchor was sealed honestly and unbroken, is not below the floor, and the keyed rows are exactly its account, each one authenticated by an Append of the run on top of its predecessor and holding the event that Append was given |
| AuditUnreported.TailMinusOneErasesLog | internal/audit/audit.go:628-633 | under any valid unbroken anchor one keyless row numbered -1 in place of the whole log verifies |
| AuditUnreported.BaseMinusOneErasesLog | internal/audit/audit.go:551-558 | an emptied log verifies exactly when the retention base is numbered -1 or is the head |
| AuditUnreported.PruneLeavesMinusOneIff | internal/audit/audit.go:436-446 | a prune leaves the log so that it can be emptied unreported exactly when the newest row it deletes is numbered -1 |
| AuditUnreported.MinusOneCanBeDue | internal/audit/audit.go:455-481 | every clean log whose due part ends in a v1 row with room for that number stays clean with that row so numbered |
| AuditUnreported.RowZeroHidesDeletion | internal/audit/audit.go:561-581 | of any log that verifies, the rows from n on verify behind a row numbered 0 that carries the hash before them |
| AuditUnreported.LegacyMinusOneHidesTruncation | internal/audit/audit.go:615-625 | of any never pruned log keyed from its first row, every leading part verifies unsealed with legacy_until -1, for every floor and without the key |
| AuditUnreported.SealRecordsBreakIff | internal/audit/audit.go:321-406 | sealing an unsealed anchor records a break exactly when the tail is not 0 and there is no anchor, or the tail is above a legacy_until other than -1, or is not above it and not vouched for as migrated |
| AuditUnreported.SealedTruncationVerifies | internal/audit/audit.go:326-330 | sealing such a leading part signs it as the whole log without a break, and it verifies for exactly the floors up to its tail |
| AuditRuns.PruneExact | internal/audit/audit.go:408-481 | on an intact log Prune removes exactly the longest leading run older than the cutoff, never the newest row, and the rest still verifies |
| AuditRuns.BreakIsSticky | internal/audit/audit.go:278-435 | once a valid anchor records a break every honest run keeps it, keeps the verdict nonzero for every floor and removes no row |
| AuditRuns.AppendRecordsBreak | internal/audit/audit.go:278-304 | a break the anchor shows at an Append is in the anchor it writes, and no later verdict on it is 0 |
| AuditRuns.ActionKeepsCalm | internal/audit/audit.go:243-546 | every step of every process keeps: the log verifies against its own tail and nobody holds a mark beyond it |
| AuditRuns.NoFalseAlarm | internal/audit/audit.go:500-546 | in every interleaving of several processes all verifications and prunes report 0, also with a floor read before the snapshot |
| AuditRuns.LateMarkRaisesFalseAlarm | internal/audit/audit.go:504-506 | with the floor read after the snapshot an Append in between would be reported |
| AuditRuns.RollbackIsReported | internal/audit/audit.go:602-607 | tables rolled back to a valid anchor below what a living process wrote or saw are reported to it, whatever the others did since, and its next Append records the break |
| AuditRuns.MarksOnlyRise | internal/audit/audit.go:659-674 | a process's mark only rises until it restarts |
| AuditRuns.AppendTurn | internal/audit/audit.go:243-319 | an Append of a process and the raising of its mark |
| AuditRuns.VerifyTurn | internal/audit/audit.go:500-546 | a verification reads the mark, reports against it and lets a valid anchor raise it |
| AuditRuns.OtherTurns | internal/audit/audit.go:331-453 | prune, seal and restart of a process |
| TemplateFlow.NonInterference | internal/mailtemplates/safety.go:98-210 | two runs of an accepted template that differ in RevealURL only end alike and write the same pieces, except the run's own URL in the same bare actions |
| TemplateFlow.SubjectIndependent | internal/mailtemplates/safety.go:81-112 | where the URL is not allowed the output does not depend on it |
| TemplateFlow.NodeSame | internal/mailtemplates/safety.go:114-158 | an accepted node does the same in both runs wherever if, range and with have moved dot |
| TemplateFlow.PipeSame | internal/mailtemplates/safety.go:160-202 | an accepted pipeline has the same value in both runs |
| TemplateFlow.ActionSame | internal/mailtemplates/safety.go:114-130 | an accepted action writes the same, or the URL in a bare action that is allowed |
| TemplateFlow.BareRevealValue | internal/mailtemplates/safety.go:204-210 | the bare action evaluates to the URL field of dot and nothing else |
| TemplateFlow.LooserIsEnough | internal/mailtemplates/safety.go:160-202 | the same without the refusals of RevealURL in chains and after another field and of declarations |
| TemplateFlow.RefusalsNeeded | internal/mailtemplates/safety.go:160-202 | each remaining refusal is needed: dot, a variable, the field as an argument, nested, or at the start of a chain would write any URL, and as a condition let it choose |
| TemplateCheck.AcceptedIff | internal/mailtemplates/safety.go:98-210 | a part is accepted exactly when it defines no templates and no node in it, however deep, is a template call, a bare action where none is allowed, or has a pipeline with a declaration, dot, a variable or a mention of RevealURL anywhere in it |
| TemplateCheck.PipeWalked | internal/mailtemplates/safety.go:160-202 | the same of a single pipeline, parentheses and chains included |
| TemplateOutput.ListsInTurn | internal/mailtemplates/mailtemplates.go:293-303 | a list prints what its parts print one after the other, up to a break, a continue or an error |
| TemplateOutput.OneNode | internal/mailtemplates/mailtemplates.go:293-303 | a list of one node is that node |
| TemplateOutput.PlainNodes | internal/mailtemplates/mailtemplates.go:293-303 | text, comments, breaks and calls |
| TemplateOutput.ActionPrints | internal/mailtemplates/mailtemplates.go:293-303 | an action prints the value of its pipeline |
| TemplateOutput.BranchRuns | internal/mailtemplates/mailtemplates.go:293-303 | which list if, with and range run, and where dot is in it |
| TemplateOutput.RangeInTurn | internal/mailtemplates/mailtemplates.go:293-303 | range goes through all items in order; a break ends it, an error goes up |
| TemplateOutput.NoItems | internal/mailtemplates/mailtemplates.go:293-303 | no items print nothing |
| TemplateOutput.ErrorsGoUp | internal/mailtemplates/mailtemplates.go:293-303 | a failing pipeline, truth or range prints nothing |
| TemplateOutput.CommandsInTurn | internal/mailtemplates/mailtemplates.go:293-303 | the value of each command is piped into the next, and the first error is the pipeline's |
| TemplateOutput.FieldsInTurn | internal/mailtemplates/mailtemplates.go:293-303 | a path of fields is taken one after the other |
| TemplateOutput.FieldOf | internal/mailtemplates/mailtemplates.go:293-303 | a struct has just its fields, any other value its methods |
| TemplateOutput.ArgMeans | internal/mailtemplates/mailtemplates.go:293-303 | what each kind of argument evaluates to |
| TemplateOutput.ExecuteStarts | internal/mailtemplates/mailtemplates.go:293-303 | a template starts with its data as dot and as the variable $ |
| RevealText.CheckText | internal/mailtemplates/safety.go:270-291 | for a clear URL a text is accepted exactly when every occurrence of the token is the last segment of a full URL with a delimiter or the text's end on both sides; an empty token accepts |
| RevealText.CountsDecideRule | internal/mailtemplates/safety.go:270-291 | for a clear URL, such as one whose token has no delimiter, comparing the two greedy counts decides that rule for every text |
| RevealText.UnclearMisleads | internal/mailtemplates/safety.go:270-291 | for every other URL there is a text on which it does not |
| RevealText.NoDelimsIsClear | internal/mailtemplates/safety.go:259-268 | a token without delimiters makes its URL clear, whatever the rest of it |
| RevealText.InnerDecides | internal/mailtemplates/safety.go:270-291 | a token that also occurs earlier in its URL makes the counts differ wherever it occurs, as the rule is broken there |
| RevealText.CountWhere | internal/mailtemplates/safety.go:275-287 | the scan meets non-overlapping occurrences greedily and counts the good ones |
| RevealText.Index | internal/mailtemplates/safety.go:276-276 | the first occurrence at or after a position, or -1 |
| RevealText.LastSlash | internal/mailtemplates/safety.go:263-268 | the position of the last slash, or -1 |
| RevealText.TokenIs | internal/mailtemplates/safety.go:263-268 | the token is what follows the last slash, or the whole URL |
| RevealText.CompliesIff | internal/mailtemplates/safety.go:270-291 | the rule in the text's own terms: white space, the angle brackets or an end of the text around every URL the token ends |
| RevealText.TailsIsolated | internal/mailtemplates/safety.go:270-291 | where the token cannot overlap itself at a delimiter, its occurrences that end a delimited URL overlap no other one |
| RevealText.NoUrlInsideUrl | internal/mailtemplates/safety.go:270-291 | where every occurrence of the token ends a delimited URL, no occurrence of the URL reaches into a delimited one |
| EntropyG2.GenerateG2 | web/src/generators/g2.js:19-37 | the loop and the overwritten last word print the text of the draw |
| EntropyG2.PrintedIs | web/src/generators/g2.js:19-43 | the text of a draw piece by piece: drawn words with the separator between them, one more before a digit group of its own, the digits |
| EntropyG2.CreditIsLowerBound | internal/policies/entropy.go:502-518 | the draws that print any one text, times the credited count, are at most all draws |
| EntropyG2.CreditIsExact | internal/policies/entropy.go:502-518 | where words and separator are credited the share is exact, and joined texts come from one draw |
| EntropyG2.CreditedIs | internal/policies/entropy.go:502-518 | what is credited: the digits always, the words unless a printed separator shares a character with one, and then the separator if one is printed |
| EntropyG2.WordsTold | internal/policies/entropy.go:502-518 | where credited, equal texts have equal words, digits and used separator |
| EntropyG2.DigitsTold | web/src/generators/g2.js:30-43 | equal texts have equal digit groups, credited or not |
| EntropyG2.ReadingIsUnique | internal/policies/entropy.go:505-513 | a joined text has one reading when no word holds a separator character |
| EntropyG2.UncreditedCollides | internal/policies/entropy.go:505-513 | with two words or more, a word that repeats another around a separator makes two draws print one text, uncredited |
| EntropyG2.TwoWordsCollideIff | web/src/generators/g2.js:19-37 | with two words and one-character separators two draws print one text exactly when one word is another, a separator and m, and one word is m, a separator and another |
| EntropyG2.UncreditedMayBeInjective | internal/policies/entropy.go:505-513 | the converse fails: an uncredited policy with one text per draw |
| CitationGroups.Find | internal/policies/entropy.go:875-881 | returns the root, terminates, and path compression changes no root |
| CitationGroups.Union | internal/policies/entropy.go:886-887 | merges exactly the two classes |
| CitationGroups.Group | internal/policies/entropy.go:868-892 | two citations have one root exactly when a chain of shared keys connects them |
| CitationGroups.CountClasses | internal/policies/entropy.go:893-901 | the second loop counts the members of each class |
| CitationGroups.LargestGroup | internal/policies/entropy.go:866-901 | the sizes are those of the components and sum to the number of citations, the largest is returned, and no key is reached from more citations |
| CitationGroups.FiledMeansComponents | internal/policies/entropy.go:868-892 | with every key filed under its first owner the classes are the components |
| JsText.Wtf8Runes | internal/policies/entropy.go:1287-1301 | the decoding loop yields the code points, encoded surrogates included |
| JsText.Wtf8String | internal/policies/entropy.go:1303-1314 | the encoding loop yields the bytes |
| JsText.RoundTrip | internal/policies/entropy.go:1287-1314 | decoding inverts encoding on every sequence of code points, lone surrogates included |
| JsText.RoundTripBytesIff | internal/policies/entropy.go:1287-1314 | a byte string survives decoding and encoding exactly when nothing in it is malformed |
| JsText.DecodeEncodedRune | internal/policies/entropy.go:1287-1314 | in front of any bytes an encoded code point decodes to itself |
| JsText.DecodeIs | internal/policies/entropy.go:1287-1301 | a decoding step takes the code point whose encoding is in front, or U+FFFD for one byte when there is none |
| JsText.SliceUnits | internal/policies/entropy.go:1238-1257 | the UTF-16 units of the result are exactly the first n units, also when a pair is cut |
| JsText.SliceIsPrefix | internal/policies/entropy.go:1238-1257 | the same for every sequence of code points |
| JsText.FirstUnit | internal/policies/entropy.go:1259-1269 | exactly the first unit, or nothing |
| JsText.Utf16Len | internal/policies/entropy.go:1271-1281 | the number of UTF-16 units |
| JsText.UnitsReadBackIff | internal/policies/entropy.go:1238-1281 | the units read back as JavaScript reads them give the code points exactly when no high surrogate stands before a low one |
| JsText.UnitsOfRune | internal/policies/entropy.go:1238-1281 | a code point above 0xFFFF is the pair that stands for it, any other is itself |
| CheapestCover.Fill | internal/strength/strength.go:81-104 | after the nested loops every entry is the cheapest cover of its prefix, with consistent back-pointers |
| CheapestCover.Relax | internal/strength/strength.go:93-97 | one relaxation, in place |
| CheapestCover.ReadBack | internal/strength/strength.go:106-111 | the codes met along the back-pointers |
| CheapestCover.Spelled | internal/strength/strength.go:106-111 | the back-pointers spell a cover of exactly the price in the table |
| CheapestCover.NoneCheaper | internal/strength/strength.go:73-118 | no cover is cheaper than the table says |
| CheapestCover.Attained | internal/strength/strength.go:73-118 | some cover costs exactly that |
| CheapestCover.ReachMonotone | internal/strength/strength.go:73-118 | cheaper segments never make the cheapest cover dearer |
| StrengthReadings.EstimateRun | internal/strength/strength.go:73-118 | the run returns the estimate and the codes of a way to cut the secret into readable pieces that costs exactly that |
| StrengthReadings.EstimateAtMost | internal/strength/strength.go:73-118 | no way to cut the secret into single characters and pieces with a reading costs less than the estimate |
| StrengthReadings.OneReading | internal/strength/strength.go:73-146 | a secret that as a whole has a reading is worth at most its price |
| StrengthReadings.MatchIsCheapest | internal/strength/strength.go:120-146 | a piece has a pattern exactly when one of the readings fits it, and then the cheapest: context, common or dictionary word, year, run, keyboard walk, repeat, each at its price |
| StrengthReadings.WordIsCheapest | internal/strength/strength.go:148-175 | words of the three lists under the four spellings, with case, signs and direction added |
| StrengthReadings.SpellsIs | internal/strength/strength.go:186-218 | the spellings: lower case, signs and accents undone, 1 and bar as i or l, forwards and backwards |
| StrengthReadings.SequenceIsCheapest | internal/strength/strength.go:268-295 | runs of letters of one case or digits, up or down |
| StrengthReadings.KeyboardIsCheapest | internal/strength/strength.go:319-330 | pieces of a keyboard row or of its reverse |
| StrengthReadings.RepeatIsCheapest | internal/strength/strength.go:340-359 | the shortest block repeated at least twice |
| StrengthReadings.CaseBitsAre | internal/strength/strength.go:218-246 | what case costs: nothing, one bit, or the ways to choose the places of the rarer case |
| StrengthReadings.BinomialIsChoose | internal/strength/strength.go:248-254 | the running product is the binomial coefficient of Pascal's rule |
| StrengthReadings.PoolSizeIs | internal/strength/strength.go:361-390 | the pool is the sum of the sizes of the character classes that occur |
| Strength.EstimateIsMinimum | internal/strength/strength.go:73-118 | the estimate is attained by a segmentation and undercut by none |
| Strength.KnowingMoreNeverCostsMore | internal/strength/strength.go:73-175 | more context words never raise the estimate, through words, repeats and the recursion between them |
| Strength.MatchNoDearer | internal/strength/strength.go:120-146 | nor the cheapest reading of any piece |
| Strength.WordNoDearer | internal/strength/strength.go:148-175 | nor any word reading |
| Strength.RepeatNoDearer | internal/strength/strength.go:340-359 | nor any reading as a repeat |
| Strength.Take | internal/strength/strength.go:125-129 | the cheaper of two readings, an absent one losing |
| Strength.BlockFrom | internal/strength/strength.go:342-354 | the smallest block size from a given one on that the string repeats at least twice, or 0 when there is none |
| AdminLockout.Account.Update | internal/admin/admin.go:1025-1088 | each guarded UPDATE changes the row as stated and reports whether its WHERE clause held; if not the row is unchanged |
| AdminLockout.Account.VerifyPasswordFactor | internal/admin/admin.go:411-451 | which of the four outcomes an undisturbed password check has, and the row it leaves |
| AdminLockout.RunKeepsValid | internal/admin/admin.go:1025-1088 | over every interleaving the counter stays within 0 and max, and a lock means max |
| AdminLockout.SpanBound | internal/admin/admin.go:1025-1088 | a span shorter than the lockout with no success or reset grants at most max verifications, from every valid row |
| AdminLockout.RateBound | internal/admin/admin.go:427-440 | k lockout durations grant at most k times max |
| AdminLockout.NotLockedOutForever | internal/admin/admin.go:1050-1074 | from every reachable row an attempt is granted after at most one more lockout |
| AdminLockout.OnlyClearingReopens | internal/admin/admin.go:1038-1040 | without the clearing step a full counter would refuse forever |
| AdminLockout.WholeBudget | internal/admin/admin.go:1025-1088 | after a login, a reset, an expired lock or a step-up on an unlocked account the next max attempts are all granted and counted, and only a mismatch that uses the budget up locks, for the lockout duration |
| AdminLockout.LockStands | internal/admin/admin.go:411-451 | until it expires a lock refuses every attempt, and no statement but a login in flight and a reset changes the row |
| AdminLockout.UsedUpLocks | internal/admin/admin.go:427-440 | an unlocked account with no budget left is locked by the next attempt |
| AdminRoster.SomeoneStaysActive | internal/admin/admin.go:237-325 | from any roster with an active admin, every interleaving of create, enable, disable and delete transactions in which no row becomes active while a locking read is under way leaves one |
| AdminRoster.OneWriterSuffices | internal/admin/admin.go:262-276 | so does every interleaving, with or without the locking read, in which no two transactions are past it at once |
| AdminRoster.QuietIsSerial | internal/admin/admin.go:277-292 | in the runs of the first kind no two are |
| AdminRoster.StepKeepsLocked | internal/admin/admin.go:277-292 | what each statement keeps: locks are exclusive, a locking read under way will have locked every active row, one that is over has one locked |
| AdminRoster.GrantIsAlone | internal/admin/admin.go:288-292 | a locking read that holds every active row holds one and is the only one over |
| AdminRoster.StepIsSafe | internal/admin/admin.go:262-318 | with one writer at a time its count of the others stays true until it commits |
| AdminRoster.RowAfter | internal/admin/admin.go:237-325 | what each step does to each row: disabling leaves it inactive, deleting takes it away, nothing else touches it |
| AdminRoster.WriteRefusedIff | internal/admin/admin.go:293-318 | a conditional write goes ahead exactly when the target exists and is inactive or not the last active one |
| AdminRoster.FinishRefusedIff | internal/admin/admin.go:293-318 | and finishes on its target as it is by then, by the count it took |
| AdminRoster.OnlyLocksDelay | internal/admin/admin.go:277-318 | nothing but a lock another transaction holds keeps anybody from the next step |
| AdminRosterGaps.StaleReadLeavesNobody | internal/admin/admin.go:288-292 | from any roster with an active admin there is a run, every transaction locking first and rows created during a locking read, that leaves nobody |
| AdminRosterGaps.WithoutLocksNobodyIsLeft | internal/admin/admin.go:262-276 | from any roster with two or more, a run without the locking read that leaves nobody |
| SingleUse.TokenSingleUse | internal/tokens/tokens.go:141-188 | under every race a token is consumed at most once, before its expiry, and a consumed row has a winner |
| SingleUse.TokenStepOk | internal/tokens/tokens.go:141-188 | what each statement keeps |
| SingleUse.ConsumeAlone | internal/tokens/tokens.go:141-188 | a call nobody overtakes consumes exactly an existing, unconsumed, unexpired token, and changes nothing otherwise |
| SingleUse.IssueStores | internal/tokens/tokens.go:94-135 | an issued token is stored unconsumed with its expiry |
| SingleUse.FirstUpdateWins | internal/tokens/tokens.go:165-188 | of racing calls the first to update wins and the others change nothing |
| SingleUse.VerifyStep | internal/totp/totp.go:73-89 | accepts exactly a six-character code of the drift window and returns its least time step |
| SingleUse.TotpStepsIncrease | internal/admin/admin.go:1006-1020 | accepted time steps strictly increase between enrolments (section 5.2 of RFC 6238) |
| SingleUse.TotpKeepsHighest | internal/admin/admin.go:1006-1020 | the step kept is the highest used since the enrolment |
| SingleUse.TotpAcceptsIff | internal/admin/admin.go:1006-1020 | a step is accepted exactly when it is higher |
| SingleUse.ConsumeRecovery | internal/totp/totp.go:145-153 | takes out the first code that matches and no other |
| SingleUse.RecoverySingleUse | internal/admin/admin.go:609-650 | codes spent and codes stored are together exactly the codes enrolled, whoever races |
| SingleUse.VaultStepOk | internal/admin/admin.go:609-650 | what each read and compare-and-swap keeps |
| SingleUse.SpendAlone | internal/admin/admin.go:609-650 | a request nobody overtakes spends the code it picked and stores the rest |
| SingleUse.OvertakenSpendsNothing | internal/admin/admin.go:609-650 | one that was overtaken changes neither |
| SingleUse.EnrollStarts | internal/admin/admin.go:609-650 | an enrolment stores its codes unspent, a reset none |
| RateLimit.Keep | internal/ratelimit/ratelimit.go:77-80 | the scan finds what trimming leaves |
| RateLimit.Limiter.constructor | internal/ratelimit/ratelimit.go:34-44 | a window that is not positive becomes an hour |
| RateLimit.Limiter.Allow | internal/ratelimit/ratelimit.go:64-92 | answer and buckets as functions of the buckets before |
| RateLimit.Limiter.Inspect | internal/ratelimit/ratelimit.go:98-122 | trims one bucket; remaining is 0 exactly when Allow would refuse |
| RateLimit.Limiter.Sweep | internal/ratelimit/ratelimit.go:128-150 | trims every bucket, drops exactly the empty ones and counts them |
| RateLimit.ResetTimeIsExact | internal/ratelimit/ratelimit.go:94-121 | at the cap a later Allow succeeds exactly when it comes after resetAt |
| RateLimit.NoLimit | internal/ratelimit/ratelimit.go:64-70 | a limit that is not positive allows everything and records nothing |
| RateLimit.AnswersAsReference | internal/ratelimit/ratelimit.go:64-150 | after every run with an ordered clock Allow answers as a limiter that forgets nothing and counts the recent events |
| RateLimit.AllowedAreSpaced | internal/ratelimit/ratelimit.go:59-92 | allowed events limit places apart are more than the window apart |
| RateLimit.OnlyOwnAllowsMatter | internal/ratelimit/ratelimit.go:94-150 | Inspect, Sweep and calls for other keys change no later answer |
| RateComposite.Composite.Check | internal/ratelimit/ratelimit.go:186-209 | decision and both limiters after the request, as a function of them before, also when one limiter is both |
| RateComposite.CheckDecides | internal/ratelimit/ratelimit.go:188-209 | alone: refused by its IP exactly when that has no slot at the first look, else by its email exactly when that has none at the second or both count on one bucket with no second slot |
| RateComposite.RefusalChargesNothing | internal/ratelimit/ratelimit.go:176-200 | one that a look refuses leaves every window of both limiters as it was |
| RateComposite.AllowedIsCharged | internal/ratelimit/ratelimit.go:201-208 | any other is charged on each side that is on, and allowed unless both count on one bucket with no second slot |
| RateRace.EmailChargedByAllowedOnly | internal/ratelimit/ratelimit.go:188-209 | in every interleaving the requests charged to the email side are exactly the allowed ones, once each, and one refused for its IP is charged nowhere |
| RateRace.BucketsFollowLog | internal/ratelimit/ratelimit.go:188-209 | a step adds to an email's bucket exactly when it logs a charge |
| RateRace.RefusedWithIpIff | internal/ratelimit/ratelimit.go:201-207 | a refused request holds an IP slot exactly when, that slot taken, it found its email full |
| RateRace.OvertakenInBetween | internal/ratelimit/ratelimit.go:201-207 | then another request for the same email was charged between its look and its attempt |
| RateRace.RefusedYetCharged | internal/ratelimit/ratelimit.go:176-180 | and there is such a run |
| RateRace.AloneIsCheck | internal/ratelimit/ratelimit.go:186-209 | with nothing in between, the turns of a request decide and charge as one Check of two limiters |
| RateRace.OthersLeftAlone | internal/ratelimit/ratelimit.go:128-150 | a sweep changes no window and nothing of the other side |
| Dispatcher.EventsConserved | internal/integrations/dispatcher.go:379-441 | in every interleaving and lane: offered events are in order the accepted and the dropped, accepted ones in order the handled, the one in hand and the bounded queue |
| Dispatcher.DropDebt | internal/integrations/dispatcher.go:379-429 | drops are pending, held by an unfinished notice, told in a delivered one, or just being counted |
| Dispatcher.DroppedIffFull | internal/integrations/dispatcher.go:379-386 | a lane loses an event exactly when one is offered while that lane is full |
| Dispatcher.HigherLanesWereEmpty | internal/integrations/dispatcher.go:255-275 | a lane is served only after each higher one was found empty in the same call, and a higher one has events then exactly when it accepted some since |
| Dispatcher.PolledEmpty | internal/integrations/dispatcher.go:256-262 | a lane the call has passed was polled empty in this very call |
| Dispatcher.NotAlwaysHighest | internal/integrations/dispatcher.go:263-274 | a run in which the waiting worker may take a bulk event with a security event there |
| Dispatcher.StepKeepsInv | internal/integrations/dispatcher.go:379-441 | what every single step of router and worker keeps |
| Dispatcher.LaneIs | internal/integrations/dispatcher.go:156-177 | which event types go to which lane |
| Dispatcher.FreshIs | internal/integrations/dispatcher.go:124-131 | the capacities of the three lanes |
| Dispatcher.TakesHighest | internal/integrations/dispatcher.go:255-275 | undisturbed, a call takes the oldest event of the highest lane that has one, or waits and takes the first that comes |
| Dispatcher.OfferTurn | internal/integrations/dispatcher.go:379-386 | an offer is taken while there is room, and else dropped and counted |
| Dispatcher.SentTurn | internal/integrations/dispatcher.go:388-404 | a delivery is counted by its outcome, and only a good one is followed by a notice |
| Dispatcher.NoticeTurn | internal/integrations/dispatcher.go:406-429 | a notice tells exactly the pending drops of the three lanes, clears them when it arrives and puts them back when not |
| Dispatcher.HaltTurn | internal/integrations/dispatcher.go:388-404 | where a worker stops |
| DispatcherFanout.EndToEnd | internal/integrations/dispatcher.go:184-353 | for every interleaving, however sinks come and go: the events a sink wants of those accepted while it is on the list are in push order those offered to it and those still waiting, with the sink's own accounts as above |
| DispatcherFanout.NothingLost | internal/integrations/dispatcher.go:184-353 | as multisets: nothing of that is lost or doubled between Push and handled, in hand, queued or dropped |
| DispatcherFanout.NextKeeps | internal/integrations/dispatcher.go:277-353 | what every single step of the system keeps, refreshing included |
| DispatcherFanout.AttemptsCounted | internal/integrations/dispatcher.go:324-441 | the shared counters: delivered counts the events and notices that went out, failed those that did not and the sinks that could not be built, once each |
| DispatcherFanout.DropsCounted | internal/integrations/dispatcher.go:184-250 | in every interleaving the drop counter of a lane counts each event lost at the intake and each one lost at a sink once, but for those about to be counted |
| DispatcherFanout.NextNotes | internal/integrations/dispatcher.go:184-386 | which every single step keeps |
| DispatcherFanout.PushTurn | internal/integrations/dispatcher.go:181-191 | a Push goes to its own lane and nowhere else |
| DispatcherFanout.InitialIs | internal/integrations/dispatcher.go:94-131 | the dispatcher at its start |
| DispatcherFanout.RouterTakesHighest | internal/integrations/dispatcher.go:277-288 | undisturbed, the router takes the oldest event of the highest intake lane that has one |
| DispatcherFanout.RouterWakes | internal/integrations/dispatcher.go:263-274 | waiting, it takes from any lane that has an event |
| DispatcherFanout.HandTurn | internal/integrations/dispatcher.go:290-298 | a sink that is on the list and wants the event is offered it, any other is passed over |
| DispatcherFanout.LastTurn | internal/integrations/dispatcher.go:277-298 | past the last sink the event is done with |
| DispatcherFanout.RefreshTurn | internal/integrations/dispatcher.go:300-353 | how the list of sinks changes, and that it does so only before an event is handed on |
| DispatcherFanout.WorkTurn | internal/integrations/dispatcher.go:431-441 | a worker's step and its share of the shared counters |
| RandomDraws.SmearIsLeastMask | web/src/crypto.js:51-57 | the smeared mask is the least 2^k-1 not below max-1 |
| RandomDraws.WordsAreAll | web/src/crypto.js:59-66 | the words counted are all values of a 32-bit word |
| RandomDraws.UniformDraws | web/src/crypto.js:34-68 | of the words 0 to 2^32-1 each value below max is given by the same number |
| RandomDraws.MostAccepted | web/src/crypto.js:59-67 | more than half of them are accepted |
| RandomDraws.MaskOf | web/src/crypto.js:51-57 | the assignments leave the least 2^k-1 that is not below max-1 |
| RandomDraws.Reject | web/src/crypto.js:63-67 | the loop returns the masked value of the first accepted word |
| RandomDraws.CryptoRandomInt | web/src/crypto.js:40-68 | range errors, the case max 1, and else the first accepted word |
| Shuffle.ShuffleInPlace | web/src/crypto.js:107-113 | the swaps in place are the shuffle of the draws |
| Shuffle.ShuffledPermutes | web/src/crypto.js:107-113 | every shuffle is a permutation and leaves settled positions alone |
| Shuffle.ShuffledInjective | web/src/crypto.js:107-113 | different draws give different orders of distinct elements |
| Shuffle.DrawsMatchPermutations | web/src/crypto.js:107-113 | every permutation comes from draws, of distinct elements from exactly one sequence of them |
| DomainMatch.CoversIffCandidate | internal/elevations/elevations.go:141-148 | a name covers a domain exactly when it is among the names looked up for it, for all strings |
| DomainMatch.Candidates | internal/domains/domains.go:254-258 | the loop builds the exact name and its ancestor wildcards |
| DomainMatch.MostSpecific | internal/domains/domains.go:247-267 | finds a row exactly when some row covers the domain, and then the most specific one |
| DomainMatch.FindMatching | internal/domains/domains.go:222-237 | an active governing row, or nothing: a disabled one is terminal |
| DomainMatch.GovernsUnique | internal/domains/domains.go:247-267 | one row governs |
| DomainMatch.MaxLevel | internal/elevations/elevations.go:181-189 | an upper bound of the levels listed for the addresses, attained unless there is none |
| DomainMatch.OwnersAre | internal/elevations/elevations.go:174-180 | the addresses whose rows count for an address: itself, and p@d for p+tag@d with no plus in p |
| DomainMatch.SubAddressNoLower | internal/elevations/elevations.go:167-190 | p+tag@d has at least every level listed for p@d, whatever the tag |
| DomainMatch.LookupIsHighest | internal/elevations/elevations.go:181-190 | the level found is the highest listed for an address the given one belongs to, or none |
| DomainMatch.PlainHasOwnRows | internal/elevations/elevations.go:174-190 | an address without a plus, or with one in front, has only its own rows |
| DomainMatch.OwnerIsStable | internal/elevations/elevations.go:174-180 | the address a sub-address belongs to belongs to no other |
| DomainMatch.Resolve | internal/policies/policies.go:254-291 | the active policy of the row that governs the part behind the last at sign, at the address's level; no policy exactly when none is selected; an error exactly when the answer takes a store that is down |

## Left out

- Handlers, HTML pages, cookies, sessions, CSRF and WebAuthn: request plumbing.
- HMAC, SHA-256, AES-GCM, bcrypt and the random generator: ideal digests, fresh ciphertexts and given draws instead.
- SQL drivers, migrations, placeholder rewriting, timestamp parsing and JSON: tables are sequences and maps.
- TemplateFlow.NonInterference: about text/template evaluation only, because html/template's escaping and the HTML and CSS rules of the same file are library behaviour; template invocations are refused by the check, so they have no semantics here.
- AuditEvidence.TamperEvidence: a transaction or verdict on tables where the number to report reads 0 is excluded, because there rows can be lost unreported (AuditUnreported); edits themselves are free.
- AuditRuns.NoFalseAlarm: Append's checks for a blank event type and a missing key are easy guards and not modelled.
- AuditRepo.Repo.Append: the row is inserted with the number the database hands out; retries and contexts are not modelled.
- EntropyG2.TwoWordsCollideIff: for three words and more or longer separators no exact condition is given; that is unique readability of a code over arbitrary word lists, which the source does not compute.
- EntropyG2.CreditIsLowerBound: starts from normalised parameters; reading word libraries and the other generators' formulas are not modelled, and counts stand for logarithms and their rounding.
- Strength.EstimateIsMinimum: costs are real numbers, so floating-point rounding is not modelled; word lists, the case mapping and the keyboard rows are parameters, and splitting user inputs into context words is left out.
- AdminRoster.SomeoneStaysActive: the condition is needed (StaleReadLeavesNobody), and not every run that breaks it ends badly. Rows are locked in any order, of which the source's is one. On SQLite a write is one statement under the database lock, which is a run with one writer at a time.
- SingleUse.TokenSingleUse: pruning of old tokens is not modelled.
- RateLimit.AllowedAreSpaced: clock readings are ordered as the locked sections are; the source reads the clock before it takes the lock.
- DispatcherFanout.EndToEnd: when the list of sinks changes is left open, since it depends on the database; what a stopped worker leaves in its queues and its debt stay counted there. Log lines and their rate limit are left out.
- DispatcherFanout.DropsCounted: the router may go on before it has added its own drop to the shared counter, which only adds runs.
- Shuffle.ShuffleInPlace: the draws are given, each below its bound.
- DomainMatch.Resolve: addresses and domains are taken as already trimmed and lowered; imports and placement checks on create are easy members.
- SMTP, syslog and HTTP sinks, network policy, branding, configuration, demo mode and readiness: I/O or easy wrappers.
