# Verified models of the notice, clock and guard cores

This project models the parts of the loan-servicing platform whose correctness rests on more than one
function, and proves what they promise. Each module follows one source component; its functions say what the
component computes, its methods and classes run the way the source runs (loops over indices, fields updated in
place, shared lists and arrays) and are proved to compute those functions, and its lemmas state the promises for
every input, every run or every interleaving.

- **Notice templates** (`TemplateScan`, `TemplateValues`, `TemplateEngine`, `TemplateTrees`, `TemplateShows`,
  `BlockArguments`, `Money`, `NoticeText`, `RecoveredText`, `NoticeReading`): the string interpreter for nested
  `if/unless/each/block` sections computes the direct meaning of the tree its source was printed from; the text of
  a notice reads as intended exactly when that text spells no entity and no upper-cased value needs escaping;
  amounts read back.
- **Canonical JSON** (`JsonText`, `KeyOrder`, `CanonicalJson`, `CanonicalOrder`, `IndexKeys`): the printer is
  uniquely decodable, a text reads as a document that says what the value is, and two values share a text exactly
  when one document says what both are; the two copies are compared with each other and with what is declared,
  exactly.
- **Bounded concurrency** (`WorkerPool`): a transition system over every interleaving of `mapLimit`'s workers.
- **Demo clock** (`DemoPlan`, `DemoClock`, `DemoAdvance`): planning and resuming an advance, many clock
  instances over one append-only table, and the advance loop.
- **Notice pipeline** (`Channels`, `Envelopes`, `Checklist`, `Registry`, `NoticeService`, `NoticeServiceObject`,
  `NoticeOrigins`, `NoticeDeliveries`, `NoticeRetries`, `NoticeFailures`, `NoticeLog`): channel decisions, envelope
  packing, content rules, immutable versions behind a publish gate, the service with its event log, where every
  notice comes from, and what sending again does after a port failed.
- **Smaller cores** (`ContactCaps`, `Analyst`, `AuditRatchet`): trailing-window contact caps, the guard loop
  around an untrusted model, the audit baseline's ratchet.

## Where the code differs from what is promised

Each of these is proved, with a concrete witness and the exact condition.

- `src/notices/render.ts:36, 58`: decoding undoes `&amp;` before the other entities, so a payload that spells
  `&lt;`, `&gt;` or `&quot;` does not come back as it was (`RecoveredText.SpelledNotRead`, `TextExact`);
  `{{upper x}}` upper-cases after escaping, so a value with `&`, `<`, `>` or a double quote does not read as its
  upper case (`NoticeReading.UpperNotDecoded`, `UpperReads`, `NoticeReads`).
- `src/app/canonical.ts:5, 19-21`: keys are not "sorted at every depth", since array indices enumerate first and
  in numeric order (`CanonicalOrder.NumeralsUnsorted`, `SortedExact`); the order is still determined by the key
  set (`KeyOrder.EnumOrderSorted`). Assigning a member called `__proto__` does not create it, so it is missing
  from the text and two different objects hash alike (`CanonicalJson.ProtoMemberLost`,
  `CanonicalOrder.ProtoExact`). The copy in `src/notices/render.ts` prints a date as `{}`
  (`CanonicalOrder.DatesEmptied`, `DateExact`).
- `src/runtime/demo-clock.ts:9`: "a row's offset is never below the one before it" can fail when the row before
  a step's own is above the offset the instance had when it computed the step, even if the instance had adopted
  the newest row then (`DemoClock.StepFallsExact`, `TableCanFall`, `OvertakenRowFalls`). An adopted row id goes
  back exactly when a step is answered after a newer row was adopted (`DemoClock.AdoptedBackExact`, a helper, and
  `AdoptedCanGoBack`).
- `src/runtime/demo-clock.ts:35-37`: a crash does not leave the clock "on the last completed day": the row of
  the step that was cut off is in the table, and the next advance never plans that step (`DemoPlan.ReplanExact`,
  `OpenStepLost`, `CrashLosesDay`, `DemoAdvance.DieAndResume`). A resumed advance also skips days when the clock
  drifted past the date of its last step (`DemoPlan.DriftSkipsDay`, `ResumeExact`, `PostsRunThePlan`).
- `src/notices/service.ts:122-168`: when a port fails after an earlier attempt of the same send went out, the
  notice stays `rendered` with deliveries. Sending it again replays every decision, so a recipient is mailed twice
  or a bounce keeps no fallback (`NoticeFailures.RetryMailsTwice`, `RetryUnshaped`, `NoticeRetries.CompletedExact`),
  or the notice is held with a delivery (`NoticeFailures.HeldRun`, `NoticeService.HeldHasNoDelivery`). Whether a
  send can fail so is known before it (`NoticeRetries.MidwayExact`).
- `src/notices/checklist.ts:78-86`: results are kept by rule id, so a later rule with the same id hides a blocking
  failure (`Checklist.DuplicateIdHidesFailure`, `PassedExact`).
- `src/notices/registry.ts:96-103`: a draft entered as `counsel_approved` is approved without the publish check
  (`Registry.GateBypassed`, `BypassExact`, `GateHoldsExact`).
- `src/app/evaluators.ts:256, 259`: an open gate lets in one attempt too many when an attempt is recorded out of
  time order into a full window (`ContactCaps.BackdatedExceeds`, `AdmittedExact`), and a `now` that does not parse
  leaves the gate open, and only such a `now` does so whatever the log holds (`ContactCaps.UnreadableNowIsOpen`).
- `tools/audit.py:255-280`: a retired row dated after a rewrite explains a fall at the next one too
  (`AuditRatchet.FutureRowExplainsTwice`, `FallsAgainExact`, `ScheduleExact`); a rewrite keeps processes marked
  done without looking whether they still are, so a fresh baseline fails its own check exactly when one is not
  (`AuditRatchet.DoneLost`, and `FreshBaselinePasses`, a helper).

## Model

| member | source | states |
|---|---|---|
| `TemplateTrees.SourceMeaning` | src/notices/render.ts:88-134 | for every well-formed tree of text, inline values and if/unless/each/block sections nested to any depth, in every scope, rendering the tree's text gives the tree's direct meaning: same html, blocks in the order they are finished, or the same error (which branch, item and text a value gives is stated by the `TemplateShows` rows below) |
| `TemplateTrees.RenderTree` | src/notices/render.ts:88-119 | the renderer as the source runs it, on a tree's text, answers the tree's meaning and pushes exactly its blocks onto the shared list |
| `TemplateTrees.CutSect` | src/notices/render.ts:91-116 | at a printed section, the index arithmetic cuts out exactly the section's argument, body and else, and goes on right after its close |
| `TemplateTrees.SkipNodes` | src/notices/render.ts:69-86 | the depth-counting search passes over any well-formed nodes without losing its depth, its else or its place |
| `TemplateTrees.InlineStep` | src/notices/render.ts:121-134 | inline replacement over a concatenation replaces each printed value by its own and keeps the text between them |
| `TemplateScan.FindCloseExact` | src/notices/render.ts:69-86 | for any marks, the search succeeds exactly when a first mark brings the depth to zero and closes the same tag; the else is the first at depth one, if any; it is "unclosed" exactly when the depth never returns to zero |
| `TemplateScan.CloseInBounds` | src/notices/render.ts:97-100 | body, else and close lie inside the source in order, so every recursive call gets a strictly shorter source |
| `TemplateScan.FindClose` | src/notices/render.ts:69-86 | the scanning loop over positions with its depth counter finds what the specification of the search says, for well-formed and ill-formed sources |
| `TemplateEngine.RenderSection` | src/notices/render.ts:88-119 | the loop over positions with the shared block list computes the recursive meaning of a source, and terminates |
| `TemplateEngine.RenderBody` | src/notices/render.ts:101-115 | one section: the branch taken, the items iterated or the block laid out, with inner blocks pushed before their block (`TemplateShows.IfShows` says which branch) |
| `TemplateEngine.RenderItems` | src/notices/render.ts:104-106 | the body once per item, each in its own scope, in item order |
| `TemplateShows.IfShows` | src/notices/render.ts:101-103 | `{{#if x}}body{{else}}other{{/if}}`, spelled out, renders as its body exactly when x is true, a number or bigint other than zero, a text other than the empty one and `false`, an array with items, or an object; otherwise as its else, or nothing |
| `TemplateShows.UnlessShows` | src/notices/render.ts:101-103 | `unless` renders as its body exactly for the values an `if` does not |
| `TemplateShows.EachShows` | src/notices/render.ts:104-106 | `each` shows its body for the items of a nonempty array, and its else for an empty one and every other value |
| `TemplateShows.ItemSees` | src/notices/render.ts:62-66 | inside an `each`, `@index` is the item's place, `this` and `.` are the item, and a path the item does not define is looked up in the scope around it |
| `TemplateShows.MemberSeen` | src/notices/render.ts:30-35 | a key reaches that member of an object or nothing, and a dotted path what lies below it |
| `TemplateShows.BlockShows` | src/notices/render.ts:108-115 | a block renders as its body in a section tag with its id and layout facts, spelled out, and is listed after the blocks inside it with its body's text |
| `TemplateShows.TrimAround` | src/notices/render.ts:96 | an argument is what stands between the white space around it |
| `TemplateShows.TextShows` | src/notices/render.ts:129-133 | the text of a value, kind by kind: nothing for null and undefined, a numeral that reads back as the number, a text itself, items joined by commas |
| `TemplateShows.ValueShows` | src/notices/render.ts:121-133 | three braces show a value's text as it is, two show it after the four replacements of the escaping |
| `TemplateShows.HelperShows` | src/notices/render.ts:126-130 | `upper` upper-cases the escaped text; `date` and `pct` show what their formatters print |
| `TemplateShows.MoneyShows` | src/notices/render.ts:39-42 | `money` shows a number's amount, or that of a text of digits with at most a minus sign, and nothing for any other value |
| `NoticeText.RenderNotice` | src/notices/render.ts:55-60 | html, recovered text and blocks of a source and payload, or the first syntax error |
| `TemplateValues.LookupInnermost` | src/notices/render.ts:62-66 | a path is answered by the innermost scope that defines it |
| `TemplateValues.LookupNowhere` | src/notices/render.ts:62-66 | a path is undefined exactly when no scope defines it |
| `TemplateValues.SplitJoins` | src/notices/render.ts:33 | the keys a path is walked by have no dots, and joined by dots they are the path |
| `TemplateValues.ElementAt` | src/notices/render.ts:33 | the decimal text of an index reaches that element of an array |
| `BlockArguments.AttributesRead` | src/notices/render.ts:110 | reading written attributes gives back what they say; a flag says true, and a later attribute overrides an earlier one |
| `BlockArguments.BlockArgumentReads` | src/notices/render.ts:109-113 | a block's id and each layout fact are the ones written, or the default |
| `RecoveredText.EscapeIsFourPasses` | src/notices/render.ts:36 | the four successive replacements come to escaping character by character |
| `RecoveredText.TagsStripped` | src/notices/render.ts:58 | the tags stripped from the html are exactly the emitted section tags, whatever the values hold |
| `RecoveredText.DecodeShown` | src/notices/render.ts:58 | decoding undoes the escaping and then whatever the text itself spells as an entity, for any mix of escaped and plain characters |
| `RecoveredText.TextExact` | src/notices/render.ts:55-59 | up to white space the text is the intended one exactly when the intended text contains none of `&lt;`, `&gt;`, `&quot;` and no upper-cased value holds a character that is escaped |
| `RecoveredText.SpelledNotRead` | src/notices/render.ts:58 | the value `&lt;` does not read back |
| `NoticeReading.NoticeReads` | src/notices/render.ts:55-60 | the same of every plain template tree, upper-cased values included, and every payload: no payload adds or removes a tag, and the notice's text reads as intended exactly under that condition |
| `NoticeReading.UpperReads` | src/notices/render.ts:129 | up to white space an upper-cased value reads as its upper case exactly when it holds none of `&`, `<`, `>` and the double quote |
| `NoticeReading.ShoutedShows` | src/notices/render.ts:129 | upper-casing an escaped value gives the value's upper case exactly when nothing was escaped, and otherwise more characters, never a tag |
| `NoticeReading.UpperNotDecoded` | src/notices/render.ts:129 | `{{upper x}}` of `a&b` does not read as its upper case |
| `Money.MoneyReads` | src/notices/render.ts:39-45 | reading the sign and digits of a printed amount gives back its cents, for every integer |
| `Money.MoneyInjective` | src/notices/render.ts:39-45 | different amounts never print alike |
| `Money.GroupedByThrees` | src/notices/render.ts:43 | counted from the right, exactly every fourth character of the dollars is a comma, and none leads |
| `Money.PaddedDigits` | src/notices/render.ts:43 | the cents are always two digits |
| `JsonText.DocRoundTrip` | src/app/canonical.ts:10-12 | the JSON printer (string escapes of section 7 of RFC 8259) is uniquely decodable: reading a printed document gives it back and stops where it ends |
| `JsonText.PrintInjective` | src/app/canonical.ts:10-12 | two documents with one text are one document |
| `JsonText.Words` | src/app/canonical.ts:10-12 | `null`, `true`, `false`, `[]` and `{}` are printed so |
| `JsonText.ArrayPunctuation` | src/app/canonical.ts:10-12 | items stand in brackets with commas between them |
| `JsonText.ObjectPunctuation` | src/app/canonical.ts:10-12 | members stand in braces with commas between them and a colon after each key |
| `JsonText.Characters` | src/app/canonical.ts:10-12 | a character stands for itself except a quote, a backslash, a control character and half of a surrogate pair, which are escaped as section 7 of RFC 8259 allows |
| `KeyOrder.SortSorted` | src/app/canonical.ts:20 | sorting the keys gives the same keys in strictly increasing order |
| `KeyOrder.EnumOrderSorted` | src/app/canonical.ts:19-21 | an object filled in sorted order enumerates its keys in one order that depends only on the key set: index keys by value, then the others |
| `KeyOrder.SortedUnique` | src/app/canonical.ts:20 | two key-sorted lists with the same keys are the same list |
| `IndexKeys.LexExact` | src/app/canonical.ts:20 | a key sorts before another exactly when it is its proper prefix or has the smaller code unit where they first differ |
| `IndexKeys.IndexExact` | src/app/canonical.ts:20-21 | a key is an array index exactly when it is the decimal text of a number below 4294967295 |
| `IndexKeys.KeysByNumber` | src/app/canonical.ts:20-21 | index keys enumerate by their numbers, and before every other key |
| `CanonicalJson.PrintOrderSorted` | src/app/canonical.ts:18-22 | the text lists exactly the kept members, in key order, whatever order the object had them in |
| `CanonicalOrder.SortedExact` | src/app/canonical.ts:18-22 | a canonical text has its keys sorted at every depth exactly when in no object of the value an array index comes in front of a key that sorts before it |
| `CanonicalOrder.OrderExact` | src/app/canonical.ts:18-22 | the same of one object, stated over the members it keeps |
| `CanonicalOrder.NumeralsUnsorted` | src/app/canonical.ts:20 | the object with the members 10 and 9 comes out unsorted |
| `CanonicalJson.TextReads` | src/app/canonical.ts:13-24 | a reader of the canonical text of any valid value gets, up to the text's end, a document that says what the value is, kind by kind: booleans, numbers and strings themselves, a bigint digits that read as it, null for what JSON has no word for, arrays item by item, objects by exactly their defined members |
| `CanonicalJson.TextExact` | src/app/canonical.ts:10-24 | two values share a canonical text exactly when one document says what both are: key order ignored, undefined members dropped, a bigint its decimal text, a date its ISO text, at every depth (a date an empty object in the notice renderer's copy, and no `__proto__` member in the command bus's) |
| `CanonicalJson.TextsAgree` | src/notices/render.ts:19-27 | two of the serialisers agree on a value exactly when nothing in it is treated differently |
| `CanonicalJson.CopiesAgree` | src/notices/render.ts:19-27 | the two copies agree on a defined value exactly when it holds no date and no defined `__proto__` member |
| `CanonicalJson.ProtoMemberLost` | src/app/canonical.ts:19-20 | two different objects share a text in the command bus's copy |
| `CanonicalOrder.ProtoExact` | src/app/canonical.ts:19-20 | the command bus's text is the declared one exactly when the value has no defined `__proto__` member, at any depth |
| `CanonicalOrder.DateExact` | src/notices/render.ts:20-26 | the notice renderer's text is the declared one exactly when the value has no date, at any depth |
| `CanonicalOrder.DatesEmptied` | src/notices/render.ts:23 | every date prints `{}` in the notice renderer's copy, so any two share a text |
| `CanonicalJson.Canon` | src/app/canonical.ts:13-24 | the recursion with its member-filling loop builds the document specified, which says what the value is, for every value |
| `CanonicalJson.CanonMembers` | src/app/canonical.ts:18-22 | the key loop over the sorted keys fills the object as specified, skipping undefined members |
| `WorkerPool.RunInv` | src/kernel/concurrency.ts:16-28 | every state of every interleaving keeps the pool's invariant: claims in order, nothing runs twice, stored values and failures are right, the recorded failure is the first |
| `WorkerPool.AnyMoment` | src/kernel/concurrency.ts:16-28 | at any moment the started indices are 0, 1, ... in order; at most `limit` items are in flight when the limit is at least one, at most one when it is less, and never more than there are; nothing starts after the first failure, and the failure kept is the first one's |
| `WorkerPool.WorkersStarted` | src/kernel/concurrency.ts:25 | one worker is started exactly when the limit or the number of items is at most one; otherwise as many as the smaller of the two |
| `WorkerPool.RunLength` | src/kernel/concurrency.ts:19-25 | no run has more than three moves an item and one a worker |
| `WorkerPool.AtTheEnd` | src/kernel/concurrency.ts:25-27 | when all workers have ended nothing is in flight; the map fails exactly when some item rejects; otherwise the results are the items' values in item order |
| `WorkerPool.RunsEnd` | src/kernel/concurrency.ts:19-24 | every move lowers a bounded measure, and a run that has not ended can move |
| `WorkerPool.OneWorkerIsSequential` | src/kernel/concurrency.ts:16-28 | with a limit of at most one, or one item, every run answers as awaiting the items one after the other |
| `WorkerPool.MapLimit` | src/kernel/concurrency.ts:16-28 | whatever the scheduling, the call ends and answers with the values in item order, or with the error of an item that rejects |
| `WorkerPool.Pool.ClaimNext` | src/kernel/concurrency.ts:21 | the shared counter is read and advanced in one step; the worker ends if nothing is left or something failed |
| `WorkerPool.Pool.Settled` | src/kernel/concurrency.ts:22 | a value lands in its own slot; the first rejection is recorded, and its worker ends |
| `DemoPlan.PlanSteps` | src/runtime/demo-clock.ts:156-167 | the planning loop computes the plan, or the error for more than 400 days |
| `DemoPlan.PlanExact` | src/runtime/demo-clock.ts:156-162 | nothing is planned exactly when the target is not ahead; a plan is refused exactly when its target is more than 400 dates ahead |
| `DemoPlan.PlanVisits` | src/runtime/demo-clock.ts:155-167 | a plan visits every date strictly between exactly once at noon, then the target, in strictly increasing time after now |
| `DemoPlan.PlanAgain` | src/runtime/demo-clock.ts:156-167 | planning again to the same target from any later instant drops exactly the days already reached |
| `DemoPlan.ResumeExact` | src/runtime/demo-clock.ts:305-318 | after a budget stop, planning again gives exactly the steps not run if and only if the clock is still on the date of the last step, or only the target is left |
| `DemoPlan.DriftSkipsDay` | src/runtime/demo-clock.ts:305-318 | a concrete advance in which the clock drifts past a date between two requests and the date is never visited |
| `DemoPlan.ReplanExact` | src/runtime/demo-clock.ts:34-37 | after an advance is cut off, planning again gives exactly the steps whose passes did not finish if and only if no row was left open and the clock is still on the last finished date, or only the target or nothing is left |
| `DemoPlan.OpenStepLost` | src/runtime/demo-clock.ts:34-37 | a step whose row is written and whose passes were cut off is never in a later plan to the same target |
| `DemoPlan.CrashLosesDay` | src/runtime/demo-clock.ts:34-37 | a concrete advance over three days whose first day is never swept |
| `DemoPlan.PostsRunThePlan` | src/runtime/demo-clock.ts:290-320 | requests to one target together run the one plan, and leave exactly its rest, if and only if each one its budget stopped left the clock on the date of its last step or left only the target; each runs at least one step |
| `DemoClock.NowNeverBack` | src/runtime/demo-clock.ts:86-98 | over any interleaving of reads and steps of any number of instances, no instance's time goes back and the table only grows |
| `DemoClock.AdoptedNeverBack` | src/runtime/demo-clock.ts:94-98 | when every step is answered before another row is written, adopted row ids never go back |
| `DemoClock.AdoptedCanGoBack` | src/runtime/demo-clock.ts:126-133 | without that, a run of seven moves takes an instance from row 2 back to row 1 |
| `DemoClock.StepFallsExact` | src/runtime/demo-clock.ts:126-132 | in any interleaving, a step's row does not fall below the row before it, wherever the step goes, exactly when that row is not above the instance's offset when the step was computed |
| `DemoClock.BelowNoneExact` | src/runtime/demo-clock.ts:126-132 | and it falls below none of the rows before it exactly when none of them is above that offset |
| `DemoClock.FreshTableAgrees` | src/runtime/demo-clock.ts:94-98 | when every step follows a refresh with no foreign row in between, the offsets never fall and all instances that adopted the newest row read one time |
| `DemoClock.StepReaches` | src/runtime/demo-clock.ts:127-131 | a step's row makes the time the step's instant, or leaves it where it is when it is past that |
| `DemoClock.RowWritten` | src/runtime/demo-clock.ts:127-131 | the row a step writes is the one computed when the step began, whatever others do until it is written |
| `DemoClock.TableCanFall` | src/runtime/demo-clock.ts:126-132 | without that, a run of four moves writes offset 50 after offset 100 |
| `DemoClock.OvertakenRowFalls` | src/runtime/demo-clock.ts:126-132 | the table falls although both instances had adopted the newest row when they computed their steps |
| `DemoAdvance.OffsetClock.constructor` | src/runtime/demo-clock.ts:85 | a clock starts from the latest row, or from zero |
| `DemoAdvance.LoadClock` | src/runtime/demo-clock.ts:139-150 | a process starts from the newest row, or from zero |
| `DemoAdvance.OffsetClock.Now` | src/runtime/demo-clock.ts:86 | the base clock's time plus the offset |
| `DemoAdvance.OffsetClock.Refresh` | src/runtime/demo-clock.ts:94-98 | adopts the newest row if it is newer than the one adopted |
| `DemoAdvance.OffsetClock.AdoptRow` | src/runtime/demo-clock.ts:124 | takes over the row and never lowers the offset |
| `DemoAdvance.OffsetClock.Step` | src/runtime/demo-clock.ts:126-133 | appends one row and adopts it; the time is then at the step's instant or later |
| `DemoAdvance.RunStep` | src/runtime/demo-clock.ts:308-313 | one turn: never before the planned instant nor before the clock; the row first, reaching the planned instant, then the passes, which may be cut off |
| `DemoAdvance.Advance` | src/runtime/demo-clock.ts:291-320 | one request follows the plan made from the refreshed clock; wherever it is cut off, its rows stand in the table in the plan's order and are at most one ahead of the steps whose passes finished; if it is not, it runs at least one step, skips none and reports what remains |
| `DemoAdvance.PostAgain` | src/runtime/demo-clock.ts:37-41 | of two requests on one instance the second plans exactly what the first left if and only if the first ended its plan, or the clock is before the target and on the date of its last step, or only the target was left |
| `DemoAdvance.DieAndResume` | src/runtime/demo-clock.ts:34-37 | an advance that dies anywhere and a second one by a process that starts from the newest row: what the second plans, and the step that is lost |
| `Channels.TimerSatisfied` | src/notices/channel.ts:41-43 | a decision satisfies the timer exactly when it goes out and is mail or no mail goes out at all; so if any goes out, one that does satisfies it |
| `Channels.ElectronicExact` | src/notices/channel.ts:22-40 | a decision is electronic exactly when no state mandates mail and the policy asks for no consent and there is an email, or asks for one and the recipient's consent is in the store, active and lists the class; which electronic channel, when it is held and what card it carries, exactly |
| `Channels.ConsentDecides` | src/notices/channel.ts:33-35 | where consent decides, each status other than active goes by mail, and an active consent exactly when it does not list the class |
| `NoticeService.AllHeldExact` | src/notices/service.ts:128-130 | every decision is held exactly when every recipient lacks an address and an electronic channel that its policy and its active, listed consent allow |
| `Envelopes.PlanEnvelopes` | src/notices/channel.ts:49-66 | the grouping map and the shift/push/splice loops compute the plan: parties in order of first item, each packed first-fit |
| `Envelopes.PackParty` | src/notices/channel.ts:54-63 | one party's items packed until none remains |
| `Envelopes.FillEnvelope` | src/notices/channel.ts:56-61 | one pass over a copy of the remaining items moves exactly those that combine with all items so far |
| `Envelopes.GreedySpec` | src/notices/channel.ts:53-64 | a party's envelopes hold its items exactly as often as given, pairwise combinable, and every item conflicts with an item of every earlier envelope |
| `Envelopes.EnvelopeBound` | src/notices/channel.ts:53-64 | a party gets at most one envelope more than the conflicts of some one of its items |
| `Envelopes.CombineExact` | src/notices/channel.ts:67-71 | two templates combine exactly when they have one code, one of them lists the other's code, or one of them lists the wildcard |
| `Envelopes.PlanGuarantees` | src/notices/channel.ts:49-66 | all of the above of each party in the plan of any mixed batch |
| `Checklist.EvaluateChecklist` | src/notices/checklist.ts:78-86 | the loop that enters each result under its rule's id computes the results and the verdict |
| `Checklist.ResultUnder` | src/notices/checklist.ts:78-86 | the result under an id is the verdict of the last rule that has it |
| `Checklist.VerdictByKind` | src/notices/checklist.ts:47-75 | what a rule that applies asks for, kind by kind; a layout rule whose block is not there fails |
| `Checklist.SkippedExact` | src/notices/checklist.ts:46 | a rule is skipped exactly when it has a condition that does not hold, and then passes |
| `Checklist.FindBlockExact` | src/notices/checklist.ts:62-64 | a layout rule looks at the first block with its id |
| `Checklist.CrossRefExact` | src/notices/checklist.ts:44-75 | a cross reference passes exactly when the rule it names comes earlier and, of the earlier ones with that id, the last passed |
| `Checklist.PassedExact` | src/notices/checklist.ts:78-86 | a checklist passes exactly when no rule that is the last of its id is a failed block rule |
| `Checklist.PassedIsConjunction` | src/notices/checklist.ts:78-86 | when no block rule has a later rule with its id, a checklist passes exactly when no block rule fails |
| `Checklist.DuplicateIdHidesFailure` | src/notices/checklist.ts:78-86 | with one id used twice a blocking failure passes |
| `Registry.RunKeeps` | src/notices/registry.ts:85-128 | in every run no code has two versions of one number, and every approved version passes its own gate unless it was entered as approved |
| `Registry.ContentNeverChanges` | src/notices/registry.ts:96-128 | sources, rules and sample payloads of entered versions never change, whatever is done later |
| `Registry.GateBypassed` | src/notices/registry.ts:96-103 | drafting as approved goes around the gate |
| `Registry.BypassExact` | src/notices/registry.ts:96-121 | while every approved version passes the gate, an operation keeps it so exactly when it does not draft a new failing version of a known template as approved |
| `Registry.GateHoldsExact` | src/notices/registry.ts:96-121 | all through a run every approved version passes the gate exactly when no draft of the run does that |
| `Registry.ActiveVersionExact` | src/notices/registry.ts:131-135 | the active version is approved, starts on or before the date, does not end before it, and starts latest of all such versions of its code; there is none exactly when there is no such version |
| `Registry.RetiredIsNotActive` | src/notices/registry.ts:123-135 | a version just retired is not active on any date |
| `Registry.NoticeRegistry.RegisterTemplate` | src/notices/registry.ts:89 | enters or replaces a template and nothing else |
| `Registry.NoticeRegistry.DraftVersion` | src/notices/registry.ts:96-103 | appends a version, or refuses an unknown template or a number already taken |
| `Registry.NoticeRegistry.PublishVersion` | src/notices/registry.ts:110-121 | approves the version in place if its check passes; otherwise changes nothing |
| `Registry.NoticeRegistry.RetireVersion` | src/notices/registry.ts:123-128 | retires the version in place, or refuses a missing one |
| `NoticeService.RunInv` | src/notices/service.ts:96-192 | in every run each notice's status is the replay of its own events from the log, `bounced` is never reached, attempts are 1, 2, ..., and a notice with any delivery passed its checklist and had a recipient |
| `NoticeService.ContentNeverChanges` | src/notices/service.ts:180-185 | payload, rendering, recipients and verdict never change, and deliveries only grow or are marked mailed or returned |
| `NoticeOrigins.EveryNotice` | src/notices/service.ts:96-119 | in every run each notice was made by one call: its code, recipients and payload are that call's, its rendering is of that payload by the source of a version active in that call's registry, its version is that version's, and it passed exactly when no rule of the version that is the last of its id blocks on that rendering |
| `NoticeOrigins.RenderOutcome` | src/notices/service.ts:97-119 | which refusal a call of `render` meets, and what it stores and logs otherwise: held exactly when a rule blocks or there is no recipient |
| `NoticeOrigins.SupersededExact` | src/notices/service.ts:182-187 | in every run a notice is superseded by the one its last supersession in the log names, which exists, and by none without one |
| `NoticeLog.LogAgrees` | src/notices/service.ts:122-192 | in every run, whatever the ports answer, an attempt has a production event exactly when it is mail, a bounce event exactly when it bounced, a mailing or return event exactly when so marked, and nothing else is logged of attempts |
| `NoticeService.HeldHasNoDelivery` | src/notices/service.ts:122-142 | all through a run no held notice has a delivery exactly when no send meets a partly delivered waiting notice none of whose recipients can be reached any more |
| `NoticeService.AnsweredNeverFails` | src/notices/service.ts:144-168 | while the ports answer every attempt no send fails midway |
| `NoticeRetries.MidwayExact` | src/notices/service.ts:133-168 | before a send it can be told whether any answers of the ports make it fail midway: exactly when two recipients are to be reached, or the only one electronically |
| `NoticeRetries.WaitingExact` | src/notices/service.ts:122-142 | in any run a waiting notice has deliveries exactly when an earlier send of it failed midway |
| `NoticeService.HeldWithDelivery` | src/notices/service.ts:122-168 | a bounced email, a failed fallback and a second send leave a held notice with a delivery |
| `NoticeFailures.HeldRun` | src/notices/service.ts:122-168 | a run from an empty service, with a published version, that ends with a held notice with a delivery |
| `NoticeServiceObject.Service.Render` | src/notices/service.ts:96-119 | a new notice is stored with the rendering of its own payload by the active version and that version's verdict, held or rendered, and one event is logged; or nothing changes |
| `NoticeServiceObject.Service.Send` | src/notices/service.ts:122-142 | the sending loop changes deliveries, log, consents and status as specified, including a refusal and a failure midway |
| `NoticeServiceObject.Service.Mail` | src/notices/service.ts:144-152 | one mailed attempt with the next number and its production event, or nothing when the port fails |
| `NoticeServiceObject.Service.Electronic` | src/notices/service.ts:153-161 | one electronic attempt, followed by the bounce handling when the port bounces it |
| `NoticeServiceObject.Service.Bounce` | src/notices/service.ts:164-168 | logs the bounce, makes the consent suspect and mails the fallback naming the bounced attempt |
| `NoticeServiceObject.Service.RecordMailed` | src/notices/service.ts:171-175 | marks the attempt mailed and the notice delivered, or refuses a missing one |
| `NoticeServiceObject.Service.RecordReturned` | src/notices/service.ts:177-181 | marks the attempt and the notice returned, or refuses a missing one |
| `NoticeServiceObject.Service.Supersede` | src/notices/service.ts:183-187 | marks the notice superseded by an existing one |
| `NoticeDeliveries.CompletedSend` | src/notices/service.ts:122-168 | a completed send, of a notice with or without deliveries, adds one delivery per reachable recipient, in order, as decided, plus one mailed fallback right after each bounced attempt, naming it; some added delivery satisfies the timer, and when a recipient was reached by mail no added electronic one does |
| `NoticeRetries.CompletedExact` | src/notices/service.ts:122-142 | in any run a completed send leaves one delivery per reachable recipient and one fallback per bounce, and no other, exactly when no earlier send of the notice failed midway |
| `NoticeRetries.SendsGoodExact` | src/notices/service.ts:122-142 | all sends completed in a run are so exactly when none completed a notice that had failed midway |
| `NoticeFailures.RetryMailsTwice` | src/notices/service.ts:133-152 | a run in which sending again after a failure mails the first recipient twice |
| `NoticeFailures.RetryUnshaped` | src/notices/service.ts:133-168 | a run in which sending again after a failure leaves a bounced attempt without its fallback |
| `NoticeDeliveries.BounceMakesSuspect` | src/notices/service.ts:153-168 | after a send, whatever became of it, the consent of every attempt it added that bounced is suspect |
| `NoticeDeliveries.SuspectExact` | src/notices/service.ts:164-168 | after a send, whatever became of it, a consent is suspect exactly when it was before or an added attempt that bounced relied on it, and nothing else about the consents has changed |
| `NoticeDeliveries.BouncedGoesByMail` | src/notices/channel.ts:33-35 | from a bounce on, until consents are changed from outside, consent-based notices go by mail to every recipient that relies on that consent |
| `NoticeDeliveries.SampleIsNeverHeld` | src/notices/service.ts:96-116 | if no draft bypassed the gate, rendering the active version on its own sample payload for at least one recipient is never held and never refused |
| `ContactCaps.AdmittedIsCapped` | src/app/evaluator-kit.ts:22-24 | attempts admitted only at an open gate and recorded in time order keep every window of the cap's length, wherever it starts, within the cap |
| `ContactCaps.BothCaps` | src/app/evaluators.ts:256-259 | seven counted calls in any half-open 604,800,000 milliseconds, three AI landline calls in any 2,592,000,000 |
| `ContactCaps.BothGates` | src/app/evaluator-kit.ts:22-24 | each gate is open exactly when fewer than seven, or three, stamps lie in the 604,800,000 or 2,592,000,000 milliseconds that end with now |
| `ContactCaps.OpenExact` | src/app/evaluator-kit.ts:22-24 | in a log within its cap the gate is open exactly when one more attempt keeps it within the cap |
| `ContactCaps.RoomExact` | src/app/evaluator-kit.ts:22-24 | one more attempt keeps a capped log capped exactly when every window that holds it has room |
| `ContactCaps.AdmittedExact` | src/app/evaluator-kit.ts:22-24 | attempts admitted at open gates, in any order, stay within the cap exactly when none was admitted while a full window held it and reached past it |
| `ContactCaps.BackdatedExceeds` | src/app/evaluator-kit.ts:24 | an attempt recorded out of time order can exceed the cap |
| `ContactCaps.UnreadableNowIsOpen` | src/app/evaluator-kit.ts:24 | the gate is open whatever the log holds exactly when `now` does not parse |
| `Analyst.EveryRun` | src/runtime/partner-book-analyst.ts:157-198 | whatever the model does: one or two turns; ok exactly when written; a written rationale passes the guard; flags are allowed codes without repeats; at most one executed call beyond the budget, and exactly when that happens |
| `Analyst.Session.RunModel` | src/runtime/partner-book-analyst.ts:157-198 | the run with its map of writes and its regeneration answers as specified |
| `Analyst.Session.Turn` | src/runtime/borrower/agent/llm.ts:70-103 | a turn executes calls up to its budget and answers the rest with an error |
| `Analyst.Session.Execute` | src/runtime/partner-book-analyst.ts:159-170 | a call is recorded; only a valid `review_write` enters a write |
| `Analyst.LookedIsProposed` | src/runtime/partner-book-analyst.ts:147-152 | reading the last accepted call's write back by its id finds that call's own write, whatever ids the model chose |
| `Analyst.ValidateWrite` | src/runtime/partner-book-analyst.ts:101-113 | the validator's branches in their order, with its loop over the flags |
| `Analyst.ValidateExact` | src/runtime/partner-book-analyst.ts:101-113 | a write is accepted exactly when it has only the two members, its rationale is neither blank nor a number, and its flags are missing or all allowed |
| `Analyst.AllowedIsGood` | src/runtime/partner-book-analyst.ts:110 | the flags kept are exactly the allowed codes given, each once |
| `AuditRatchet.FallsExplained` | tools/audit.py:255-280 | over any run of accepted rewrites in time, a total loses at most as many units as there are retired rows of its kind: each row explains a fall only once |
| `AuditRatchet.ScheduleExact` | tools/audit.py:255-280 | for any schedule of retired rows and days, every accepted run on it loses at most as many units as there are rows counted exactly when no row is counted at two rewrites |
| `AuditRatchet.SpendingAccepted` | tools/audit.py:255-280 | on any schedule some accepted run loses, of every kind and in all, one unit for every time a row is counted |
| `AuditRatchet.FutureRowExplainsTwice` | tools/audit.py:258 | a row dated in the future explains falls again and again |
| `AuditRatchet.FallsAgainExact` | tools/audit.py:255-272 | after an accepted rewrite, losing one more unit of a kind with no new row is accepted exactly when some row of the kind is dated after the rewrite |
| `AuditRatchet.DoneNeverShrinks` | tools/audit.py:279 | the list of processes marked done never shrinks |
| `AuditRatchet.DoneLost` | tools/audit.py:228-279 | an accepted rewrite whose baseline fails the check of the same tree at once |
| `AuditRatchet.AllowIs` | tools/audit.py:258-259 | the allowance of a unit, summed kind by kind, is the number of rows that can explain its fall |
| `AuditRatchet.Ratchet.RewriteBaseline` | tools/audit.py:255-280 | refused exactly when the rows have an error or a stored total is above what is built now and the rows that explain a fall of it, naming each such total; otherwise the new baseline is stored |
| `AuditRatchet.Ratchet.Check` | tools/audit.py:228-252 | reports exactly: a row error, a missing baseline, each stored total that is above the tree's, each process marked done that is not |

## Left out

- TemplateTrees.SourceMeaning: text with two adjacent opening braces or one at its end, and expressions or
  arguments with braces, are no trees, because what is recognised there depends on the surroundings;
  `TemplateScan.FindCloseExact`, `FindClose` and `TemplateEngine.RenderSection` still cover every source.
- TemplateShows.ValueShows: like `HelperShows` and `MoneyShows` beside it, for paths without white space inside;
  `TemplateTrees.SourceMeaning` covers the others.
- Payload values: numbers are whole, only own members of objects and arrays are reached, and strings have no lone
  surrogates; `longDate`, `pct` and the upper case of a character are given functions, of which
  `NoticeReading.NoticeReads` asks that dates and percentages print neither `<` nor `&`, that upper-casing is
  that of ASCII there, and that other characters become capitals or characters beyond ASCII.
- Layout attributes are kept as texts; turning them into numbers is not part of this model, nor are the layout
  rules' measurements and the artifact sink that replaces the blocks.
- NoticeReading.NoticeReads: plain templates only (no raw values, no `<` or `&` in literal text, no `>` in a
  block's argument), since the others can carry tags or entities of their own.
- Canonical JSON: number texts are opaque, invalid dates, `toJSON`, symbols and functions are absent, and the
  hash itself is not modelled.
- Worker pool: `fn` is a fixed outcome per index; what it does between its start and its settling is not modelled.
- Demo clock: dates come from a nondecreasing `dateOf` with a noon for every date; request parsing (`targetOf`,
  `budgetOf`), the follow timer, the exclusive chain and the sweep passes' own work are left out (the passes let
  time pass and other instances write rows).
- `evaluatePredicate` and the pattern, range and layout rules: given by a judge, one-line functions each.
- Notice service: ids count up instead of being random, timestamps, reasons, business-day deadlines and addresses
  inside print jobs are dropped, and two sends of one notice at the same time are not modelled.
- `publishCheck` reports its failures by name; the model's gate only says whether there is one.
- Audit ratchet: the exec columns, the parsing of retired rows and the measuring of the tree; a measurement is an
  input, and the errors of the retired file are a count.
- Analyst: prompts, logging, token usage, the daily cap and the database rows; the number check and the
  provenance guard are given functions.
- Domain evaluators other than the two caps, the command bus, roles, escalations, HTTP, SQL, the console and the
  apps: one-line predicates or plumbing.
