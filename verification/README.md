# CyberCat: a model of its state machines and its rule compiler

CyberCat is an incident-response backend with a telemetry agent. This project models, in Dafny, the parts of it
that carry state or translate one language into another, and proves what they keep over every run. `dafny verify
dfyconfig.toml` checks all of it.

| modules | part of the system |
|---|---|
| `Text`, `SigmaFields`, `SigmaSyntax`, `SigmaTokenizer`, `SigmaGrammar`, `SigmaRoundTrip`, `SigmaPrecedence`, `SigmaMeanings`, `SigmaUnfinished`, `SigmaCompiler` | the compiler from Sigma rules to event predicates |
| `IncidentModel`, `IncidentStore`, `IncidentRuns`, `IncidentHistory`, `IncidentEvidence` | incidents: transition, merge, split, extend, the audit log |
| `Utf8`, `Tail`, `TailBatch`, `TailRuns`, `TailRotation` | the agent's file tail with its checkpoint, across crashes, rotations and truncations |
| `Auditd`, `AuditdRuns` | reassembly of interleaved auditd records |
| `ProcessTracker`, `ProcessTrackerRuns` | the bounded, least-recently-used process tracker |
| `Shipper` | the drop-oldest queue and the bounded retries |
| `WazuhPoller` | the batch loop with its cursor and circuit breaker |
| `ResponseModel`, `ResponseStore`, `ResponseRuns`, `ResponseScope`, `ResponseUndo`, `ResponseAnyOrder`, `BlockCache` | response actions, the lab scope, their undoing, and the cache of blocked values |
| `BurstDetector`, `BurstFaults` | the failed-login burst rule, with Redis healthy and with calls that fail |
| `EventBus` | fan-out of server-sent events to bounded queues |
| `Paging` | keyset paging of the list endpoints |

Code that changes objects in place is a class here. What each of its methods does is stated by the functions and
predicates that the runs are made of: a method of the incident store or of the executor leaves the database that the
step function gives, the bus carries its run along with its queues, and `TailBatch` joins the tail's reader to the steps
of its runs. Calls to Postgres, Redis, HTTP and the file system are step inputs: what they answer, whether they work,
what the clock says. A transaction is one atomic step, and transactions are serialised. A fresh UUID is a parameter; one
already in use is an error result (`IdTaken`, `Conflict`).

## What the proofs found

The model follows the code. Where the code does not do what its comments or a reader might promise, a lemma gives an
input and a theorem the exact condition.

- The tail promises that a crash causes "a re-read, not a lost line" (`agent/cct_agent/sources/tail.py:19-24`). While a
  batch is handed over, the offset advances by the length of the decoded line encoded again, which for invalid UTF-8 is
  not the length read. Crashes are safe wherever the file may end if and only if every line keeps its length
  (`SafeThroughoutIff`); one line of one bad byte is enough to lose the next (`BadByteLosesNext`).
- A truncation is noticed by the size alone, and a checkpoint knows no more of a file than its inode. A file put in the
  place of another is read like one that was there from the beginning, on every schedule of growth, polls, saves and
  crashes, if and only if both checkpoints, in memory and on disk, restart on it: their offset is zero, their inode is
  another, or the file never gets as long (`ReadFromStartIff`). A new inode always does (`RotationsLoseNothing`); a
  truncation that a poll sees does until a crash (`TruncationSeen`).
- The poller's circuit breaker says that the cursor does not advance past failed hits
  (`backend/app/ingest/wazuh_poller.py:24-28`, `backend/app/ingest/wazuh_poller.py:210-214`). A hit that the decoder
  rejects in the middle of the streak moves it. `BreakerCursor` says exactly when; `BreakerCanPassFailures` shows one.
- Deleting the cache entry does not make an unblock visible at once, even when every deletion works: it happens before
  the commit, and a lookup in between stores the old values again for 30 seconds (`StaleDespiteDeletion`). With
  deletions that all work, lookups are current throughout a run if and only if no such stored entry is left at the
  commit of a change, by its age and the evictions since (`StaleIff`); `CurrentIff` is the condition when deletions may
  fail.
- Actions can be reverted in any order, and sessions and blocks come back all the same (`AnyOrderRestores`), but the
  notes of a host need not. The last revert of a flag of the host decides: it leaves the notes that its action recorded,
  and these are the former ones if and only if they carry the mark exactly if the host did, which can be looked up
  before the revert (`LastRevertDecides`). Two flags that are reverted in the order of their execution leave a host
  marked that was not (`CrossedUndoIff`). Reverted like a stack they always restore it (`WellNestedUndo`).
- A counter of failed logins keeps to its 60 seconds, however the run goes on, if and only if the call that sets its
  expiry worked when it was opened (`WindowKeptIff`, `LostExpiryUnbounded`); if it failed, the counter never ends
  (`LostExpiryCountsForEver`). With Redis healthy six failures within a minute outside the cooldown always set off a
  detection (`SixSuffice`) and five may not (`FiveMayPass`).
- In a Sigma condition `and` and `or` bind equally and to the left, where the condition section of the Sigma Rules
  Specification gives `and` the tighter binding. The two readings are the same tree if and only if no `and` comes after
  an `or` in one chain of operators (`ReadingsAgreeIff`), and for conditions of any size that name no selection twice
  that is also when they mean the same (`MeaningsAgreeIff`). `a or b and c` has different answers exactly when `a` holds
  and `c` does not (`MeaningsDifferIff`, `OrThenAnd`).
- Keywords in a condition have no word boundary: a name is scanned whole if and only if no keyword opens it
  (`NameSurvivesIff`). `or` opens `order` and `all` opens `allowed`, so that neither is (`CutNames`).
- A condition that ends too early makes the parser raise an `IndexError` in place of its own exception, at three places
  (`ThreePlaces`). It does so if and only if the condition breaks off where `of`, a pattern or a closing parenthesis is
  due (`RunsOutIff`), and every such condition could be finished (`RunsOutIsUnfinished`).
- A split leaves copied detections on the source, as ADR-0015 says, so that those of the moved events go on counting for
  its severity (`SplitStaysCritical`). `SeverityWithoutMovedIff` says exactly when that makes no difference.

## Model

| member | source | states |
|---|---|---|
| `SigmaTokenizer.Tokenize` | backend/app/detection/sigma/compiler.py:129-135 | The loop over matches yields exactly the token list of the pattern: first alternative that fits at each position, keywords lowered, other characters stepped over. |
| `SigmaTokenizer.KeywordOfOpens` | backend/app/detection/sigma/compiler.py:122-122 | A keyword is taken wherever the text opens with one, without a word boundary, and only then. |
| `SigmaTokenizer.ScanGoesOn` | backend/app/detection/sigma/compiler.py:129-135 | The scan never stops before the end of the condition. |
| `SigmaTokenizer.BracketsKept` | backend/app/detection/sigma/compiler.py:119-135 | Every bracket of the condition becomes a token, and no other token is one. |
| `SigmaTokenizer.ScanRenderedIff` | backend/app/detection/sigma/compiler.py:119-135 | A token list over plain names, written with any white space after each token or none, is scanned back to itself if and only if every name without a star is separated from a following name or keyword. |
| `SigmaTokenizer.NameSurvivesIff` | backend/app/detection/sigma/compiler.py:119-135 | An identifier, with or without a star, is scanned as that one name if and only if no keyword opens it. |
| `SigmaTokenizer.EndsName` | backend/app/detection/sigma/compiler.py:119-127 | White space and punctuation other than the underscore end a name; a digit goes on with one but does not begin one. |
| `SigmaTokenizer.CutNames` | backend/app/detection/sigma/compiler.py:119-135 | `order` and `allowed` are identifiers that begin with a keyword and are not scanned as one name. |
| `SigmaGrammar.ExprSound` | backend/app/detection/sigma/compiler.py:156-233 | Whatever prefix the parser accepts is what its well-formed, resolvable tree writes down, and no operator follows. |
| `SigmaGrammar.ExprComplete` | backend/app/detection/sigma/compiler.py:156-233 | The tokens of any well-formed tree, followed by anything but an operator, parse to that tree and leave the rest. |
| `SigmaGrammar.ParseIffTree` | backend/app/detection/sigma/compiler.py:156-233 | The parser consumes a whole list and returns a tree if and only if that tree is well formed, resolves its names and writes down that list; so the tree is unique. |
| `SigmaRoundTrip.WriteMeans` | backend/app/detection/sigma/compiler.py:156-174 | Writing a condition with parentheses where they are needed keeps its meaning under equal, left-folding `and`/`or` and a `not` of one factor. |
| `SigmaRoundTrip.WriteShortest` | backend/app/detection/sigma/compiler.py:156-189 | No well-formed tree with the same condition takes fewer tokens: the parentheses are minimal. |
| `SigmaRoundTrip.WriteScanParse` | backend/app/detection/sigma/compiler.py:119-233 | Print, tokenise and parse: any condition over plain names that resolve, written with white space wherever it likes and only where a name would run on it must, comes back as itself, with the same meaning for every choice of holding selections. |
| `SigmaRoundTrip.UsualText` | backend/app/detection/sigma/compiler.py:119-174 | Two names around an operator, with nothing after them, parse to the tree that joins them. |
| `SigmaPrecedence.StandardReading` | backend/app/detection/sigma/compiler.py:156-167 | A condition that compiles has exactly one reading in the grammar where `and` binds tighter: the tree read here, regrouped. |
| `SigmaPrecedence.ReadingsAgreeIff` | backend/app/detection/sigma/compiler.py:156-167 | The tree read here is that reading if and only if no `and` comes after an `or` in one chain of operators. |
| `SigmaPrecedence.MeaningsDifferIff` | backend/app/detection/sigma/compiler.py:156-167 | For three operands, whatever they are: the two readings of `a or b and c` answer differently exactly when `a` holds and `c` does not. |
| `SigmaPrecedence.OrThenAnd` | backend/app/detection/sigma/compiler.py:119-167 | The text `a or b and c`, in any spacing that keeps the names apart, where `a` holds and `c` does not: no here, yes under the specification. |
| `SigmaMeanings.MeaningsAgreeIff` | backend/app/detection/sigma/compiler.py:156-174 | For every condition that names no selection twice, however it is nested: both readings answer the same for every choice of holding selections if and only if no `and` comes after an `or` in one chain. |
| `SigmaUnfinished.RunsOutIff` | backend/app/detection/sigma/compiler.py:147-154 | The parser indexes past the end of its tokens if and only if they are a condition that breaks off where `of`, a pattern or a closing parenthesis is due. |
| `SigmaUnfinished.RunsOutIsUnfinished` | backend/app/detection/sigma/compiler.py:181-220 | Every token list on which it does so is the beginning of one that it accepts. |
| `SigmaUnfinished.ThreePlaces` | backend/app/detection/sigma/compiler.py:119-217 | It does so on the texts `(name`, `1` and `1 of`, however they are spaced. |
| `SigmaSyntax.StarCovers` | backend/app/detection/sigma/compiler.py:197-199 | A pattern with a star covers exactly the names that begin with what is before it, ignoring case. |
| `SigmaSyntax.ResolvesIff` | backend/app/detection/sigma/compiler.py:190-212 | A name is accepted if and only if it is `them` or stands for some selection: one that a pattern covers, or the first of that name. |
| `SigmaSyntax.ThemIff` | backend/app/detection/sigma/compiler.py:191-195 | `them` is that word in any letter case and covers every selection. |
| `SigmaFields.FieldsReading` | backend/app/detection/sigma/field_map.py:5-32 | For each field of an event, the rule fields that read it. |
| `SigmaFields.KeyUnique` | backend/app/detection/sigma/compiler.py:86-89 | Splitting at the bars gives back the field and the modifiers of a key. |
| `SigmaFields.ReadIsReadable` | backend/app/detection/sigma/compiler.py:85-105 | A field is accepted if and only if its key names a known field and then only the eight accepted modifiers, in any letter case, and its values are texts. |
| `SigmaFields.MatcherMeans` | backend/app/detection/sigma/compiler.py:40-62 | From the key on: the matcher holds of an event if and only if the event has the field and some value (every one under `all`) fits its text: by the library's search under `re`; else, ignoring case, as text before + value + after under `contains`, value + after under `startswith`, before + value under `endswith`, in that order, and by equality without them. |
| `SigmaFields.ImageEndsWith` | backend/app/detection/sigma/compiler.py:47-50 | `Image` with `endswith`, as rules have it: the event's image is something and then the value, ignoring case. |
| `SigmaCompiler.CompileField` | backend/app/detection/sigma/compiler.py:85-107 | One field becomes a matcher if and only if it can be read, and the matcher is what the field says of every event. |
| `SigmaCompiler.CompileSelection` | backend/app/detection/sigma/compiler.py:69-112 | Succeeds if and only if the body is a mapping of readable fields; the predicate holds of an event exactly when every field of the body, from its key on, says so of the event's text. |
| `SigmaFields.InertModifiers` | backend/app/detection/sigma/compiler.py:28-60 | Only `contains`, `startswith`, `endswith`, `re` and `all` change what a field condition matches; the other three that are accepted do not. |
| `SigmaCompiler.Covered` | backend/app/detection/sigma/compiler.py:192-203 | The positions resolved at parse time are exactly those of the selections that the pattern or `them` covers. |
| `SigmaCompiler.CoveredEmpty` | backend/app/detection/sigma/compiler.py:197-202 | A pattern is refused exactly when no selection name matches it. |
| `SigmaCompiler.AnyOfCovered` | backend/app/detection/sigma/compiler.py:192-204 | The any-closure over the resolved selections means that some covered selection holds. |
| `SigmaCompiler.AllOfCovered` | backend/app/detection/sigma/compiler.py:232-233 | The all-closure over the resolved selections means that every covered selection holds. |
| `SigmaCompiler.Parser.Consume` | backend/app/detection/sigma/compiler.py:147-154 | Advances by one on the expected token, else leaves the cursor and says which error, running off the end included. |
| `SigmaCompiler.Parser.ParseExpression` | backend/app/detection/sigma/compiler.py:156-167 | Cursor, error or closure agree with the grammar's parse of the tokens ahead: the closure means the tree it read. |
| `SigmaCompiler.Parser.Combine` | backend/app/detection/sigma/compiler.py:161-166 | The closure of an operator means the tree that joins its operands. |
| `SigmaCompiler.Parser.ParseOperand` | backend/app/detection/sigma/compiler.py:169-174 | The same for a term: `not` negates one factor. |
| `SigmaCompiler.Parser.ParsePrimary` | backend/app/detection/sigma/compiler.py:176-191 | The same for a factor: parentheses, quantifiers, names. |
| `SigmaCompiler.Parser.FindNamed` | backend/app/detection/sigma/compiler.py:206-210 | The first selection whose name equals the given one but for case, or none exactly when there is no such selection. |
| `SigmaCompiler.Parser.Reference` | backend/app/detection/sigma/compiler.py:190-212 | The same for a name, a pattern or `them`; a name refers to the first selection equal to it but for case. |
| `SigmaCompiler.Parser.ParseCount` | backend/app/detection/sigma/compiler.py:214-233 | The same for `1 of` and `all of`. |
| `SigmaCompiler.CompileSelections` | backend/app/detection/sigma/compiler.py:270-275 | Every entry but `condition` and `timeframe` becomes a named selection that holds of an event exactly when its body does; fails on the first unreadable one. |
| `SigmaCompiler.BodiesAre` | backend/app/detection/sigma/compiler.py:270-275 | The named selections are the entries other than `condition` and `timeframe`, in their order. |
| `SigmaCompiler.CategoriesFor` | backend/app/detection/sigma/field_map.py:35-54 | For each kind of event, the rule category that looks at it. |
| `SigmaCompiler.CompileRule` | backend/app/detection/sigma/compiler.py:258-292 | Compiles if and only if the category is known, there is a condition, all selections can be read and the condition is written by some well-formed tree; otherwise gives the first failing check; for every event the predicate is the meaning of that tree over the selections whose every field says so of the event's text. |
| `IncidentStore.InsertMissing` | backend/app/correlation/merge.py:126-138 | Inserting row by row on conflict do nothing, in any order, is the union with the existing rows winning. |
| `IncidentStore.MaxHint` | backend/app/correlation/split.py:230-239 | One pass finds the highest hint among the linked detections, or keeps the old severity without any. |
| `IncidentStore.MoveRows` | backend/app/correlation/split.py:159-223 | Read, delete and insert leave the child exactly the selected rows and the detections of the moved events, and the source the others. |
| `IncidentStore.Store.MergeIncidents` | backend/app/correlation/merge.py:87-222 | Each guard in order with its error and no change, else exactly the specified new database. |
| `IncidentStore.Store.SplitIncident` | backend/app/correlation/split.py:86-261 | The same for a split. |
| `IncidentStore.Store.TransitionIncident` | backend/app/api/routers/incidents.py:410-458 | The same for a transition: allowed edges, reason required, closing time, one log row. |
| `IncidentStore.Store.ExtendIncident` | backend/app/correlation/extend.py:37-92 | The event joins as context, the detection and the entities join, the techniques join as inferred; rows already there are kept. |
| `IncidentStore.Store.OpenIncident` | backend/app/correlation/rules/identity_compromise.py:110-189 | A new incident with its evidence and its opening log row. |
| `IncidentRuns.RunKeeps` | backend/app/api/routers/incidents.py:417-458 | In every run: each incident's log rows form a chain from null through `new` to its current status, each row an opening, an allowed edge, a merge away or no change; `reopened` is unreachable; closed implies a closing time, which only closed or merged incidents have; merged if and only if a parent is set; parents lead to a root. |
| `IncidentRuns.StepAdvances` | backend/app/api/routers/incidents.py:54-62 | A transaction moves a status only along an allowed edge or to merged, rewrites no closing time, deletes no incident and no log row. |
| `IncidentRuns.MergedForever` | backend/app/correlation/merge.py:111-120 | A merged incident keeps status and parent for the rest of any run. |
| `IncidentRuns.RootUnique` | backend/app/correlation/merge.py:198-202 | The root that parent links lead to, and its distance, are unique. |
| `IncidentRuns.MergeForest` | backend/app/correlation/merge.py:87-120 | In every run, parent links have no cycle and end at an incident that is not merged. |
| `IncidentHistory.TransitionSucceedsIff` | backend/app/api/routers/incidents.py:410-458 | A transition goes through if and only if its edge is allowed and, towards contained, resolved or closed, a reason is given; it changes that status, on closing the closing time, and nothing else. |
| `IncidentHistory.EdgesInto` | backend/app/api/routers/incidents.py:54-62 | From which statuses each one can be reached, and that nothing leads to new, reopened or merged. |
| `IncidentHistory.ReasonGiven` | backend/app/api/routers/incidents.py:64-68 | Whatever the step, only a transition with a reason brings an incident to contained, resolved or closed. |
| `IncidentHistory.WorkedThrough` | backend/app/api/routers/incidents.py:417-458 | In every run the log of an incident that is being investigated, contained or resolved says that it was triaged and investigated. |
| `IncidentHistory.ClosedOnce` | backend/app/api/routers/incidents.py:443-446 | In every run a closing time is the time of a transition that closed the incident, and of the only one. |
| `IncidentHistory.StepKeepsRoles` | backend/app/correlation/merge.py:122-180 | Whatever the step, a row that stays on its incident keeps its role, a technique its source, and no detection is unlinked. |
| `IncidentHistory.ExtendAdds` | backend/app/correlation/extend.py:37-92 | Exactly what extending adds: the event as context, the detection, the entities and the techniques as inferred, unless they were there. |
| `IncidentHistory.OpenedAs` | backend/app/correlation/rules/identity_compromise.py:110-189 | An incident is opened as new, with the evidence, severity and confidence it is given, without parent or closing time; no other changes. |
| `IncidentHistory.DetectionsKept` | backend/app/correlation/split.py:213-239 | A detection keeps its event and its hint for the rest of any run. |
| `IncidentEvidence.HalfEvenRounds` | backend/app/correlation/merge.py:192-195 | The new confidence is the average rounded half to even and lies between the two. |
| `IncidentEvidence.MergeConserves` | backend/app/correlation/merge.py:122-196 | The target has exactly the union of the keys, its own role on a shared one, the larger severity and the rounded average; the source and all other incidents keep their evidence. |
| `IncidentEvidence.MergeAllGathers` | backend/app/correlation/merge.py:122-196 | After any sequence of merges into one target it holds exactly the keys of all and the highest severity of all. |
| `IncidentEvidence.MergeAllSucceedsIff` | backend/app/correlation/merge.py:87-120 | A sequence of merges into one target succeeds if and only if its sources are different, known, not merged and not the target, and the target is open. |
| `IncidentEvidence.MergeOrderIrrelevant` | backend/app/correlation/merge.py:87-196 | Merging the same sources in any other order succeeds too, and gives the same keys and severity. |
| `IncidentEvidence.SplitPartitions` | backend/app/correlation/split.py:159-239 | Every event and entity row of the source is afterwards on exactly one side, the requested ones on the child; the severity is the top hint of the linked detections. |
| `IncidentEvidence.SplitChild` | backend/app/correlation/split.py:140-223 | The child has a detection if and only if it fired on a moved event, whether or not the source held it; its rows keep their roles; it has no technique and no parent. Of the source only rows and severity change. |
| `IncidentEvidence.SplitSucceedsIff` | backend/app/correlation/split.py:86-138 | A split goes through if and only if something is selected, the source is neither closed nor merged and holds the whole selection, and the child is new. |
| `IncidentEvidence.SeverityWithoutMovedIff` | backend/app/correlation/split.py:206-239 | The severity over all linked detections is that over the ones on kept events if and only if no detection on a moved event is above every one of those, or, with none of those, the old severity was already the top hint. |
| `IncidentEvidence.SplitStaysCritical` | backend/app/correlation/split.py:206-239 | A source that loses its only critical event stays critical. |
| `IncidentEvidence.SplitThenMergeBack` | backend/app/correlation/split.py:140-239 | Merging the child back always succeeds and restores event rows, entity rows, techniques, confidence, status and parent exactly; it adds only detections of the moved events, and the severity is the maximum of the old one and the top hint. |
| `IncidentEvidence.RunHolds` | backend/app/correlation/split.py:159-204 | No run of steps takes an event or an entity row away from every incident. |
| `Utf8.ReencodedAtLeast` | agent/cct_agent/sources/tail.py:132-132 | Decoding with replacement and encoding again never shortens a line. |
| `Utf8.ValidKeepsLength` | agent/cct_agent/sources/tail.py:104-104 | A line of valid UTF-8 (section 4 of RFC 3629) keeps its length. |
| `Utf8.CutAfterNewline` | agent/cct_agent/sources/tail.py:128-134 | Cutting valid UTF-8 after a newline leaves two valid parts. |
| `Utf8.CharacterIsEncoded` | agent/cct_agent/sources/tail.py:132-132 | A complete character is the encoding (section 3 of RFC 3629) of its code point, none a surrogate. |
| `Utf8.EncodedIsValid` | agent/cct_agent/sources/tail.py:132-132 | And every such encoding is valid. |
| `Utf8.ReencodedDecoded` | agent/cct_agent/sources/tail.py:104-132 | The length counted for a line is that of its text, decoded with U+FFFD for each broken character, encoded again; valid bytes are what their text encodes to. |
| `Tail.ReadCompleteLines` | agent/cct_agent/sources/tail.py:113-135 | The loop yields the complete lines of the buffer and the offset just past the last newline. |
| `Tail.LinesCutExactly` | agent/cct_agent/sources/tail.py:126-135 | Put together, those lines are exactly the bytes up to the last newline, and each has one newline, at its end. |
| `Tail.LastEnd` | agent/cct_agent/sources/tail.py:114-120 | No newline follows the end offset: only an unfinished fragment is left unread. |
| `Tail.EndOfShifted` | agent/cct_agent/sources/tail.py:123-128 | Reading from an offset on finds the line ends of the file itself, shifted by that offset: the buffer of one read and the file agree on where lines end. |
| `Tail.Reader.Stat` | agent/cct_agent/sources/tail.py:63-91 | A new inode or a file shorter than the offset starts over; there is something to read exactly when size and offset differ. |
| `Tail.Reader.Deliver` | agent/cct_agent/sources/tail.py:98-110 | Before each line is handed over the offset advances by its re-encoded length, so that it is the tally of the lines so far; at the end of the batch it is the true one. |
| `TailBatch.BufferIsFile` | agent/cct_agent/sources/tail.py:122-135 | The lines cut out of the bytes that were read are the lines of the file. |
| `TailBatch.TallyInMemory` | agent/cct_agent/sources/tail.py:98-105 | After any number of lines of a batch, saved or not, the offset in memory is the reader's tally. |
| `TailBatch.BatchEmits` | agent/cct_agent/sources/tail.py:94-110 | A whole batch of steps emits exactly the lines that the reader cut, in order, and leaves the offset at the reader's end. |
| `TailRuns.NoCrashExactlyOnce` | agent/cct_agent/sources/tail.py:53-135 | On any bytes, under any growth and polling, without a crash the lines are emitted in sequence from the first, each once, and between batches the offset is just past the last one. |
| `TailRuns.CrashesLoseNothing` | agent/cct_agent/__main__.py:71-91 | When every line keeps its length: under any growth, polls, saves that work or fail, and crashes, no line is skipped, and a tail with nothing left to read has emitted every complete line. |
| `TailRuns.ValidIsExact` | agent/cct_agent/sources/tail.py:104-104 | A file of valid UTF-8 is one where every line keeps its length. |
| `TailRuns.CrashRepeatsAtMostOne` | agent/cct_agent/__main__.py:88-91 | If saves succeed, each emitted line is the next one or a repeat of the one before, and there are at most as many repeats as crashes. |
| `TailRuns.InexactLosesNext` | agent/cct_agent/sources/tail.py:99-105 | If the last line does not keep its length, some continuation and schedule with one crash loses a line. |
| `TailRuns.CrashSafeIffExact` | agent/cct_agent/sources/tail.py:99-110 | For a file whose lines before the last keep their length: crashes lose no line, however the file goes on with lines that keep their length, if and only if the last line keeps its length. |
| `TailRuns.SafeThroughoutIff` | agent/cct_agent/sources/tail.py:99-110 | For every file: crashes are safe at whatever line it may end, and however it then goes on with lines that keep their length, if and only if every line of it keeps its length. |
| `TailRuns.BadByteLosesNext` | agent/cct_agent/sources/tail.py:99-132 | A line of the one byte 0xFF does not keep its length, and is not safe. |
| `TailRotation.OffsetKeptIff` | agent/cct_agent/sources/tail.py:65-91 | A poll adopts the inode and keeps the offset if and only if no other inode was stored and the file is not shorter; else it starts over. |
| `TailRotation.ReadFromStartIff` | agent/cct_agent/sources/tail.py:63-110 | A file put in place between batches, whose first line gets complete: on every schedule with crashes it is read like one that was there from the beginning, if and only if the checkpoints in memory and on disk restart on it. |
| `TailRotation.RotationStartsAfresh` | agent/cct_agent/sources/tail.py:65-74 | After any run with any rotations, a rotation to a file with an inode of its own: whatever the offset was, the tail goes on like one that starts on the new file. |
| `TailRotation.RotationsLoseNothing` | agent/cct_agent/sources/tail.py:65-74 | Then the lines of the new file are emitted in sequence from its first, each once, without a crash; and none is skipped across crashes if its lines keep their length. |
| `TailRotation.TruncationSeen` | agent/cct_agent/sources/tail.py:79-87 | Once a poll has found the file shorter than the offset, its lines come in sequence from its first, even if it grows past the old offset, as long as the agent runs. |
| `Auditd.Assemble` | agent/cct_agent/parsers/auditd.py:150-221 | One pass over the records: no event if and only if the last syscall record, if any, is not an execve or exit_group of a known pid; and the records of anything that happened give the event that reports it. |
| `Auditd.PicksAreLast` | agent/cct_agent/parsers/auditd.py:159-173 | It uses the last syscall, execve and proctitle record and the first path record that names item 0. |
| `Auditd.RecordsReported` | agent/cct_agent/parsers/auditd.py:159-221 | A round trip: the records of a start or an end of a process, in any order, repeated, with noise and others between, give back its kind, pid, parent, user, image, command line and, for an end only, exit code. |
| `Auditd.NoEventIff` | agent/cct_agent/parsers/auditd.py:176-185 | No event if and only if the last syscall record, if any, has another number or no pid. |
| `Auditd.CommandLine` | agent/cct_agent/parsers/auditd.py:245-261 | Whatever arguments are recorded, in any order, repeated or missing: one word for each index below the count or the highest index, the last one written or empty, with blanks between. |
| `Auditd.ArgumentsBack` | agent/cct_agent/parsers/auditd.py:261-261 | Arguments without blanks can be read off the command line. |
| `Auditd.AuditdParser.Feed` | agent/cct_agent/parsers/auditd.py:104-130 | One record changes only its own id's buffer, which is flushed at the end of the event or at 100 lines; the event is that of the flushed group. |
| `Auditd.AuditdParser.Take` | agent/cct_agent/parsers/auditd.py:124-128 | A flush takes one id out of both dictionaries and assembles its buffer with the time of its first record. |
| `Auditd.AuditdParser.Flush` | agent/cct_agent/parsers/auditd.py:132-142 | Drains every buffer once and empties both dictionaries. |
| `AuditdRuns.Interleaving` | agent/cct_agent/parsers/auditd.py:104-130 | For any stream, the groups flushed for an id and the buffer left for it are those of feeding its records alone. |
| `AuditdRuns.EventsIndependent` | agent/cct_agent/parsers/auditd.py:104-142 | So are the events produced for it. |
| `AuditdRuns.BuffersBounded` | agent/cct_agent/parsers/auditd.py:117-128 | The two dictionaries keep equal key sets, every buffer stays under 100 lines, and each group ends where its event ends or its buffer fills, with the time of its first record. |
| `AuditdRuns.RecordsConserved` | agent/cct_agent/parsers/auditd.py:121-128 | Flushed groups and the buffer concatenate to exactly that id's records, in order. |
| `AuditdRuns.StreamReports` | agent/cct_agent/parsers/auditd.py:104-221 | End to end: however the records of other events are mixed in, the up to a hundred records of one event, the last of which ends it, give exactly one event for its id, and it reports what happened. |
| `ProcessTracker.TrackedProcesses.Record` | agent/cct_agent/process_state.py:53-84 | The ordered map after touching the parent, storing the child and evicting is the specified one, and the event has the parent's image; an event of the other kind is an error. |
| `ProcessTracker.TrackedProcesses.ResolveExit` | agent/cct_agent/process_state.py:86-109 | The entry is popped and its image and user fill the gaps of the event; nothing for an unknown pid. |
| `ProcessTrackerRuns.RunRefines` | agent/cct_agent/process_state.py:53-109 | After any run the bounded cache is a subsequence, in recency order and with equal records, of the tracker that never evicts. |
| `ProcessTrackerRuns.AnswersAgree` | agent/cct_agent/process_state.py:66-109 | Every exit or parent image that the bounded tracker resolves is the one the unbounded one gives. |
| `ProcessTrackerRuns.UnboundedKnowsAlive` | agent/cct_agent/process_state.py:74-79 | The tracker that never evicts knows exactly the pids created and not exited since, each by its newest creation. |
| `ProcessTrackerRuns.ExitFromCreation` | agent/cct_agent/process_state.py:86-109 | Whatever the size, what an exit is filled in with is what the newest creation of that pid said. |
| `ProcessTrackerRuns.ParentImageFromCreation` | agent/cct_agent/process_state.py:60-74 | Whatever the size, a creation is given the image in the newest creation of its parent exactly when the parent is known and the event has none; nothing else of it changes. |
| `ProcessTrackerRuns.NeverOverSize` | agent/cct_agent/process_state.py:81-82 | If the live processes never exceed the size, the two are equal. |
| `ProcessTrackerRuns.SizeKept` | agent/cct_agent/process_state.py:81-82 | The cache never exceeds its size. |
| `ProcessTrackerRuns.ParentSurvives` | agent/cct_agent/process_state.py:66-82 | With room for two, a known parent other than the child outlives the record that names it. |
| `Shipper.ShipOne` | agent/cct_agent/shipper.py:124-178 | True exactly if some attempt in reach is answered 201; at most 5 posts and 30 seconds of backoff; stops at the first final answer, and otherwise only when told to or after the fifth attempt. |
| `Shipper.BackoffBounded` | agent/cct_agent/shipper.py:131-145 | The backoffs of five failed attempts sum to exactly 30 seconds. |
| `Shipper.OutlastsErrors` | agent/cct_agent/shipper.py:132-171 | Network and server errors are outlasted if a 201 comes within five attempts. |
| `Shipper.ClientErrorEnds` | agent/cct_agent/shipper.py:152-161 | A client error before any 201 is the last answer asked for, and the event is given up. |
| `Shipper.Queue.PutNowait` | agent/cct_agent/shipper.py:57-61 | Fails exactly when full. |
| `Shipper.Queue.Enqueue` | agent/cct_agent/shipper.py:55-74 | Never fails; a full queue gives up its oldest event and counts it. |
| `Shipper.RunConserves` | agent/cct_agent/shipper.py:55-178 | For every interleaving and all answers to the posts: what left the queue, in order, followed by the queue, is the enqueue history; what was taken is finished in that order or in flight; enqueued = shipped + failed + dropped + queued + in flight; at most 5 posts for each finished event; queue and batch keep their bounds. |
| `Shipper.ClosedBatchFinishes` | agent/cct_agent/shipper.py:94-101 | Whatever the backend answers, a closed batch is finished, in order, by as many shipping steps as it has events. |
| `WazuhPoller.ProcessBatch` | backend/app/ingest/wazuh_poller.py:163-218 | Stops at the first hit where the streak reaches 10, or at the end, with the counts of the processed hits and the sort key of the last that did not fail. |
| `WazuhPoller.CursorRow.PollOnce` | backend/app/ingest/wazuh_poller.py:163-261 | The row moves to that key, or stays, and its totals grow by the batch's counts. |
| `WazuhPoller.TotalsCount` | backend/app/ingest/wazuh_poller.py:173-208 | The totals are the numbers of hits stored for the first time and of those rejected or failed. |
| `WazuhPoller.BreakerIffLimit` | backend/app/ingest/wazuh_poller.py:199-218 | The breaker trips if and only if 10 failures occur with nothing stored between them, and at the first hit where they do. |
| `WazuhPoller.CursorSafe` | backend/app/ingest/wazuh_poller.py:172-225 | The cursor never moves back; a processed hit beyond it failed; a processed hit is at or before it if and only if it was stored, rejected, or failed with a later hit stored or rejected. |
| `WazuhPoller.BreakerCursor` | backend/app/ingest/wazuh_poller.py:173-218 | When the breaker trips, the cursor stays before a failure of the streak if and only if the decoder rejected nothing after it. |
| `WazuhPoller.BreakerCanPassFailures` | backend/app/ingest/wazuh_poller.py:210-214 | A batch where the cursor passes a failed hit although the breaker trips. |
| `WazuhPoller.RunAccounted` | backend/app/ingest/wazuh_poller.py:118-261 | Over any number of polls every hit the cursor passed was processed, and one once stored or rejected is never fetched again. |
| `ResponseStore.Executor.ProposeAction` | backend/app/response/executor.py:107-128 | Out of scope, or exactly one action more, proposed. |
| `ResponseStore.Executor.ExecuteAction` | backend/app/response/executor.py:131-170 | Each guard with its error and no change, else the handler's effect, the status that its outcome names and one log row. |
| `ResponseStore.Executor.RevertAction` | backend/app/response/executor.py:173-215 | Each guard with its error and no change, else the undoing of what the newest good log row recorded, status reverted and one log row. |
| `ResponseStore.Executor.CheckLabScope` | backend/app/response/executor.py:79-100 | A named host or user must be registered, for the kinds that name one; an empty name is not checked. |
| `ResponseStore.Executor.BlockObservable` | backend/app/response/handlers/block_observable.py:21-46 | One active row more that names the action, or a failure and no change. |
| `ResponseStore.Executor.FlagHost` | backend/app/response/handlers/flag_host_in_lab.py:12-27 | The notes get the marker unless they have it, and what they were is recorded. |
| `ResponseStore.Executor.FindSession` | backend/app/response/handlers/invalidate_session.py:54-64 | An active session of the pair that no other active one was opened after, or none when there is none. |
| `ResponseStore.Executor.InvalidateSession` | backend/app/response/handlers/invalidate_session.py:13-82 | That session, or a new one, is invalidated now and recorded. |
| `ResponseStore.Executor.UndoAction` | backend/app/response/handlers/block_observable.py:49-63 | The recorded row is made inactive, the notes are put back or the session is made active; a missing row is a failure and no change. |
| `ResponseStore.Executor.PriorLog` | backend/app/response/executor.py:187-194 | The newest log row of the action that went well. |
| `ResponseRuns.BlocksAgree` | backend/app/response/handlers/block_observable.py:21-63 | In every run, with any foreign writes to the lab tables, a value is active in the table if and only if some block action for it stands executed. |
| `ResponseRuns.LogTellsStatus` | backend/app/response/executor.py:158-214 | In every run an action's log rows tell its status: none while proposed, one with that outcome after its execution, two after a revert, the first of them good and reversible. |
| `ResponseRuns.StepFollows` | backend/app/response/executor.py:140-184 | Every step takes an action from proposed to an outcome, from executed to reverted, or leaves it. |
| `ResponseRuns.SettledForEver` | backend/app/response/executor.py:140-184 | A failed, skipped, partial or reverted action never changes again, and an executed one is at most reverted. |
| `ResponseScope.ProposalScopeIff` | backend/app/response/executor.py:88-128 | A proposal is out of scope if and only if its kind names a host (flag, quarantine, kill) or a user (session) that is not registered; else it goes through if its id is new. |
| `ResponseScope.ExecutionScopeIff` | backend/app/response/executor.py:137-146 | So is the execution of a proposed action, if its asset is gone by then, and it changes nothing. |
| `ResponseScope.OutcomeInScope` | backend/app/response/executor.py:137-158 | In every run, an action that is no longer proposed was executed at a moment when its asset was registered, whatever else is done to the lab. |
| `ResponseScope.ProposedInScope` | backend/app/response/executor.py:107-128 | And every action was proposed at such a moment. |
| `ResponseScope.ExecutedIff` | backend/app/response/executor.py:148-168 | An execution ends as executed if and only if its handler has what it asks for; else a block, flag or invalidation has failed and changed no table. Status and log row tell the same outcome. |
| `ResponseScope.NewestInvalidated` | backend/app/response/handlers/invalidate_session.py:54-82 | The session taken is the newest active one of that user on that host, or one opened then if there is none. |
| `ResponseScope.RevertedIff` | backend/app/response/executor.py:198-213 | A revert ends as reverted in any case; it went well if and only if the row, host or session that the execution recorded is still there, and else no table changes. |
| `ResponseScope.FlaggedNotes` | backend/app/response/handlers/flag_host_in_lab.py:24-26 | A host that was not marked has the mark, a blank and its notes, white space at the end taken off and nothing else; one that was marked keeps its notes. |
| `ResponseUndo.ExecutedTakesEffect` | backend/app/response/executor.py:148-158 | An action with status executed has blocked its value, marked its host, or made the session that the query answered inactive and no other; no other row changed. |
| `ResponseUndo.HandlerUndone` | backend/app/response/handlers/invalidate_session.py:54-99 | A handler, then anything that restores what it found, then the undoing of its record, restores what was there. |
| `ResponseUndo.NestRestores` | backend/app/response/executor.py:131-215 | Any well-nested sequence of executions and reverts restores notes, blocks and sessions and leaves none of its actions executed, whatever each call answers. |
| `ResponseUndo.WellNestedUndo` | backend/app/response/handlers/flag_host_in_lab.py:12-44 | After it, all notes are back up to null for empty, the same values are blocked, and the active sessions are the former ones and those that an invalidation created; where the query found one for each invalidation, exactly the former ones. |
| `ResponseUndo.FlaggedCarriesMarker` | backend/app/response/handlers/flag_host_in_lab.py:24-26 | A flagged host carries the marker, whatever stripping removes. |
| `ResponseUndo.CrossedUndoIff` | backend/app/response/handlers/flag_host_in_lab.py:24-43 | Two flags of one host reverted in the order of execution restore its notes if and only if it was marked before, and always leave it marked. |
| `ResponseAnyOrder.AnyOrderRestores` | backend/app/response/executor.py:131-215 | Any sequence of executions and reverts, in any order, after which none of its actions stands executed: former sessions are as active as before, former blocks as before and new ones inactive, and a host has its former notes if and only if it carries the mark exactly if it did before. |
| `ResponseAnyOrder.LastRevertDecides` | backend/app/response/handlers/flag_host_in_lab.py:24-44 | Executions and reverts in any order: the last revert that concerns a flag of a host leaves the notes that its action recorded, and those are the notes from the beginning if and only if they carry the mark exactly if the host did. |
| `BlockCache.Detector.GetActiveValues` | backend/app/detection/rules/blocked_observable.py:23-41 | Answers the live entry if Redis gives it, else the active values of the table, which are stored for 30 seconds unless there are none. |
| `BlockCache.Detector.Check` | backend/app/detection/rules/blocked_observable.py:50-69 | Reports the first checkable field whose non-empty value is among those answered, and nothing exactly when there is none. |
| `BlockCache.AnswerIsRecent` | backend/app/detection/rules/blocked_observable.py:23-41 | Over every run of transactions, rollbacks, evictions, failures of Redis and lookups between deletion and commit: a lookup answers exactly the values with an executed block action at some moment less than 30 seconds ago. |
| `BlockCache.MoveStaysCurrent` | backend/app/response/handlers/block_observable.py:42-44 | A step keeps all lookups current if and only if it does not commit a change of the active values under a live entry. |
| `BlockCache.CurrentIff` | backend/app/response/handlers/block_observable.py:42-44 | Lookups are current at every moment of a run if and only if no step of it does that. |
| `BlockCache.ChangesAreAnnounced` | backend/app/response/handlers/block_observable.py:60-62 | Only a step that deletes the entry changes the active values. |
| `BlockCache.PromptDeletionSuffices` | backend/app/response/handlers/block_observable.py:13-18 | If deletions work and none is followed by a fill before its commit, all lookups are current. |
| `BlockCache.StaleIff` | backend/app/response/handlers/block_observable.py:42-44 | If all deletions work, lookups are current throughout a run if and only if no lookup stores what it read between a deletion and its commit, within 30 seconds of a commit that changes the active set, with no eviction between. |
| `BlockCache.StaleDespiteDeletion` | backend/app/detection/rules/blocked_observable.py:35-41 | A run with working deletions where a lookup answers a value after its block was lifted. |
| `BurstDetector.Detector.OnFailure` | backend/app/detection/rules/auth_failed_burst.py:32-69 | Counter, cooldown and report after one failure, for every combination of failing Redis calls. |
| `BurstDetector.RunFits` | backend/app/detection/rules/auth_failed_burst.py:32-67 | In every run with Redis healthy: detections are at least 120 seconds apart, each is the fourth failure counted in a window under 60 seconds, and no failure is counted for two. |
| `BurstDetector.RunReachable` | backend/app/detection/rules/auth_failed_burst.py:40-58 | Every counter has an expiry and at most four counts, and a full one expires within the cooldown. |
| `BurstDetector.SixSuffice` | backend/app/detection/rules/auth_failed_burst.py:40-67 | After any run, six failures within under 60 seconds that start outside a cooldown include one that is reported. |
| `BurstDetector.FiveMayPass` | backend/app/detection/rules/auth_failed_burst.py:40-67 | Five such failures that pass unreported: six is the least number. |
| `BurstFaults.HealthyRun` | backend/app/detection/rules/auth_failed_burst.py:32-67 | With every call working, the runs with faults are the healthy runs. |
| `BurstFaults.WindowKeptIff` | backend/app/detection/rules/auth_failed_burst.py:40-52 | The failures counted by a counter lie within 60 seconds of the one that opened it, however the run goes on and whatever calls fail, if and only if the expiry was set when it was opened. |
| `BurstFaults.LostExpiryUnbounded` | backend/app/detection/rules/auth_failed_burst.py:48-52 | One lost expiry is enough to count a failure beyond the window. |
| `BurstFaults.CooldownHeldIff` | backend/app/detection/rules/auth_failed_burst.py:54-58 | The next failure within two minutes of a report, with the counter alive, is reported as well if and only if setting the cooldown failed. |
| `BurstFaults.LostExpiryCountsForEver` | backend/app/detection/rules/auth_failed_burst.py:32-67 | When the expiry is lost at the opening of a counter in any run, the counter never ends: however the run goes on it has counted every later failure that gets past the cooldown and the increment, and the next is reported if and only if it gets past them and three were counted before. |
| `EventBus.Bus.Register` | backend/app/streaming/bus.py:67-70 | A fresh empty queue is added; the bus shows the run with one client more. |
| `EventBus.Bus.Unregister` | backend/app/streaming/bus.py:72-73 | The queue is taken out, if it is there; the bus shows the run with that client gone. |
| `EventBus.Bus.Get` | backend/app/api/routers/streaming.py:59-63 | A client takes the oldest message out of its queue; the bus shows the run with that read. |
| `EventBus.Bus.FanOut` | backend/app/streaming/bus.py:133-138 | Every queue with room gets the message at its end, and exactly the full ones are dead, unchanged. |
| `EventBus.Bus.Consume` | backend/app/streaming/bus.py:129-141 | The dead queues are taken out; the bus shows the run with one message more. |
| `EventBus.RunGapFree` | backend/app/streaming/bus.py:67-141 | In every run what a client has read and what is queued are exactly the messages consumed while it was registered, in order; no queue exceeds 256. |
| `EventBus.QueueIsTheRest` | backend/app/streaming/bus.py:67-141 | At any time, the queue of a registered client holds exactly the messages consumed since it registered that it has not read, and no more than 256. |
| `EventBus.DroppedIffBehind` | backend/app/streaming/bus.py:133-141 | In every run a client that does not leave is dropped if and only if some message found it 256 messages behind. |
| `Paging.ListPage` | backend/app/api/routers/incidents.py:125-143 | One request returns the first rows after the cursor, and a next cursor exactly when there are more. |
| `Paging.AfterSelects` | backend/app/api/routers/detections.py:61-69 | The cursor condition selects exactly the rows that sort after the cursor. |
| `Paging.PageCountIsCeiling` | backend/app/api/routers/incidents.py:135-143 | The number of pages is max(1, ceil(n / limit)). |
| `Paging.FollowLists` | backend/app/api/routers/incidents.py:125-143 | From any cursor, following the next one to null lists every row after it exactly once, in order, in that many pages, although rows come and go at or above the cursor between requests. |
| `Paging.PagingComplete` | backend/app/api/routers/detections.py:61-79 | The same from the first page, for every matching row. |
| `Paging.InsertAbove` | backend/app/api/routers/incidents.py:125-133 | Rows that come or go at or above the cursor do not change what comes after it. |

## Left out

- `SigmaCompiler.CompileRule`: regular-expression search and `str.lower` on event text are parameters, so an invalid pattern that raises at match time is not modelled; values are held as the text that `str` gives of them.
- `SigmaTokenizer.Tokenize`: the lower-casing of names is exact on every character that a condition token can hold; a selection name with other characters that change under `str.lower` is not captured.
- `SigmaCompiler.Parser.ParseExpression`: works on classified tokens, which forget the letter case of a keyword; recursion depth is unbounded.
- `IncidentStore.Store.OpenIncident`: stands for every correlator; how a correlator picks its evidence, its severity and its dedupe key is not modelled.
- `IncidentStore.Store.ExtendIncident`: takes an incident of any status, so that a merged one may gain rows as in the source; which one a correlator extends is not modelled.
- `IncidentStore.Store.TransitionIncident`: takes no row lock in the source; runs assume serialised transactions.
- `IncidentEvidence.MergeConserves`: an empty subtechnique and a null one are the same key.
- `TailRuns.CrashesLoseNothing`: one append-only file; other files come in `TailRotation`, between batches: one that is put in place between the size check and the read is not modelled, and a read that comes after the size was taken sees that size. Delivery of an event that was enqueued before a crash is not promised: the queue is in memory.
- `Auditd.Assemble`: the header and field regular expressions, the hex decoding and the user lookup are abstracted into the fields of a record; a line without the header is noise.
- `Auditd.AuditdParser.Flush`: the order of the drained events, that of the dictionary, is left open.
- `Shipper.RunConserves`: the run loop is a machine of steps, because an enqueue may come in at any of its awaits; shipping one event is one step, taken when it is finished, and the flush interval and the stop signal are when a step closes the batch.
- `WazuhPoller.RunAccounted`: starts from a non-null cursor; the first poll's look-back filter depends on wall time. Sort keys are numbered in the indexer's order, so that a hit indexed late, below the cursor, is not in the run.
- `ResponseStore.Executor.ExecuteAction`: tagging, severity elevation, evidence requests, quarantine and process kills are one kind, with the host of the scope check for the last two, and any outcome that touches none of the modelled tables; quarantine writes host notes in the source and is therefore outside the runs of `WellNestedUndo`.
- `ResponseStore.Executor.PriorLog`: rows are in the order of their execution times.
- `BlockCache.AnswerIsRecent`: the table read and the cache fill of one lookup are one step, and response transactions run one at a time.
- `BurstDetector.RunFits`: one user and Redis healthy; what failing calls do is in `OnFailure` and, for the window, in `WindowKeptIff`.
- `EventBus.RunGapFree`: messages lost while the subscription reconnects are not consumed and so not counted.
- `Paging.FollowLists`: the cursor's text encoding and the filters are left out, as is a row that moves across the cursor between requests; the rows are those that match the filter, with distinct (time, id) keys.
- Authentication, the web frontend, SSE formatting, the schema migrations, the sshd and conntrack line parsers and the Wazuh decoder: single-branch mapping or calls into libraries that are not part of this model.
- Titles, rationales, tags, summaries, `updated_at`, actor names and reasons of incidents and actions.
