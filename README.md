# QuickBooks status report, modelled in Dafny

This project models `QuickBooks_Status_Report`, the class of the QuickBooks
PHP integration that tells an operator how healthy the connection to
QuickBooks is and which queued or mirrored records failed. The class is
modelled without its database driver, clock or HTML rendering:

- `status` (module `Escalation`): uses the caller's table of levels, or
  the four defaults (12, 24, 36 and 48 hours) when it is empty, and adds
  the OK (key 0) and Unknown (key -1) entries where those keys are
  missing; it then sorts the keys in descending order with
  `krsort`, and scans them for the first non-negative key that compares
  greater than the last-action evidence. A matched entry gets its message
  formatted with a days/hours/minutes breakdown of the elapsed time, and the
  two evidence timestamps are appended.
- `_createForQueue` (module `QueueReport`): one ten-field record per queued
  job, in order. Each record has a status label from a closed table of
  eight, the `"code: message"` split of the job's `msg` done with
  `strpos`/`substr` and PHP truthiness, and the `describe` text.
- `_createForMirror` and `_fetchSomeField` (module `MirrorReport`): for each
  import object, in listing order and subject to the restriction list, the
  mirrored rows that carry an error number. The rows are filed under the
  object's pretty name, and each row's fields are taken first-set-wins.
- `_prettyName` (module `Names`): the in-place loop that inserts spaces
  before characters that `strtoupper` leaves unchanged, except the
  character after each insertion and those pushed past the original
  length.
- `describe` (module `ErrorDescriptions`): the static table from error code
  3100 to the duplicate-name explanation.
- `create` (module `StatusReport`): the dispatcher on mode `queue`/`mirror`.
  Any other mode gives `false`.

The PHP semantics these need live in module `Php`:

- null-or-string cells and truthiness;
- `isset` and `strpos`;
- `substr` past the end;
- the test `strtoupper(c) == c`;
- the coercion of a canonical decimal string to an integer array key;
- assignment into an ordered array, where an existing key keeps its place.

The driver (`authDefault`, `authLast`, `queueReport`, `query`/`fetch`) and
the clock (`time`, `strtotime`) are values and functions passed in (module
`Collaborators`). Each loop the source runs on mutable state is a method
proved against a specification function:

- `Names.PrettyName` against `PrettyNameOf`;
- `Escalation.Krsort` and `Escalation.Scan` against `Escalate`;
- `MirrorReport.CreateForMirror` against `MirrorOf`;
- `MirrorReport.FetchSomeField` against `FirstSet`;
- `QueueReport.CreateForQueue` against `QueueRecord`.

The properties are proved about those functions.

An elapsed time of 177906 s breaks down into 2 days, 1 hour and 25
minutes (`Escalation.BreakdownExample`). A job status outside the eight
status constants yields `null` (`QueueReport.StatusLabel`).

## Model

| member | source | states |
|---|---|---|
| Php.StrPos | QuickBooks/Status/Report.php:197-198 | `strpos` for a one-character needle: no answer exactly when the character does not occur; otherwise the index of an occurrence with no earlier one |
| Php.KeyOf | QuickBooks/Status/Report.php:474-476 | an error code used as an array offset becomes an integer key only when it is the canonical decimal text of an in-range integer; otherwise it is a string key (null becomes the empty string) |
| Php.KeyOfCanonical | QuickBooks/Status/Report.php:474-476 | every in-range integer, written canonically, becomes that integer key, so integer keys and canonical texts correspond one to one |
| Php.ShowNatRoundTrip | QuickBooks/Status/Report.php:474-476 | reading back the canonical decimal text of a natural number gives the number |
| Php.Assign | QuickBooks/Status/Report.php:252 | `$report[$pretty] = ...`: a new key is appended at the end; an existing key keeps its position and only its value changes; every other pair is left in place |
| Php.AssignKeys | QuickBooks/Status/Report.php:252 | the assignment adds exactly its key to the array's key set |
| Php.AssignDistinct | QuickBooks/Status/Report.php:252 | the assignment never makes a key appear twice |
| Php.AssignHolds | QuickBooks/Status/Report.php:252 | after the assignment the array holds the assigned pair |
| Php.AssignKeeps | QuickBooks/Status/Report.php:252 | the assignment keeps every pair under a different key |
| ErrorDescriptions.DuplicateNameKey | QuickBooks/Status/Report.php:468-474 | the only codes that reach the table's entry 3100 are exactly the text "3100" (not "03100", "3100.0" or null) |
| ErrorDescriptions.Describe | QuickBooks/Status/Report.php:466-480 | the explanation is the duplicate-name text exactly when the code is "3100", and the empty string for every other code; the message argument plays no part |
| QueueReport.StatusLabel | QuickBooks/Status/Report.php:181-214 | a job status gets a label exactly when it is one of the eight status constants; any other code yields null |
| QueueReport.SplitMessageCases | QuickBooks/Status/Report.php:195-207 | a falsy msg gives an empty code and message; no colon, or a colon at index 0, gives code "?" and the whole msg; a first colon at p > 0 gives the text before it and the text from p+2 on (empty past the end) |
| QueueReport.SplitJoin | QuickBooks/Status/Report.php:197-202 | splitting `code + ": " + message` gives back the code and the message, for any non-empty code without a colon |
| QueueReport.SplitCode3100 | QuickBooks/Status/Report.php:197-202 | the split yields code "3100" exactly when the msg starts with "3100:" |
| QueueReport.DuplicateNameJobs | QuickBooks/Status/Report.php:197-217 | a queue record carries the duplicate-name explanation exactly when the job's msg starts with "3100:" |
| QueueReport.SplitExample | QuickBooks/Status/Report.php:197-202 | "3100: Name already exists" splits into "3100" and "Name already exists" |
| QueueReport.QueueExamples | QuickBooks/Status/Report.php:195-217 | a job failed with "3100: Name already exists" is explained as a duplicate name; a job with an empty msg has no code and no explanation |
| QueueReport.CreateForQueue | QuickBooks/Status/Report.php:174-226 | the report has one record per job the driver lists for the user and date range, in the same order, each the job's ten fields with label, split and description |
| Names.PrettyNameSpaced | QuickBooks/Status/Report.php:326-341 | the pretty name keeps the first character in front and differs from the name only by single spaces, each inserted directly before a character that is not a lower-case letter |
| Names.PrettyNameLower | QuickBooks/Status/Report.php:326-341 | a name whose characters after the first are all lower-case letters comes back unchanged |
| Names.PrettyNameExamples | QuickBooks/Status/Report.php:331-337 | the loop skips the character after each insertion and stops at the original length: "ABC" becomes "A BC" and "AbcDeF" becomes "Abc DeF" |
| Names.PrettyName | QuickBooks/Status/Report.php:326-341 | the in-place loop, with its bound fixed at the original length and its index moving three places after an insertion, returns `PrettyNameOf(name)` |
| MirrorReport.FirstSet | QuickBooks/Status/Report.php:309-320 | null exactly when none of the listed fields is set; otherwise the value of a set field that no earlier listed field precedes |
| MirrorReport.FetchSomeField | QuickBooks/Status/Report.php:309-320 | the loop with its early return gives the first set field's value, or null |
| MirrorReport.MirrorRecordFacts | QuickBooks/Status/Report.php:284-301 | a mirrored row is explained as a duplicate name exactly when its error number is "3100" (otherwise the explanation is empty), and carries the full row exactly when it was asked for |
| MirrorReport.MirrorRecordOf | QuickBooks/Status/Report.php:284-301 | the ten-field record built for one fetched row is `MirrorRecord` of it |
| MirrorReport.MirrorRecords | QuickBooks/Status/Report.php:282-302 | the fetch loop gives one record per fetched row, in order |
| MirrorReport.FetchErrorRows | QuickBooks/Status/Report.php:254-303 | an object's rows: none when its table or field is empty; otherwise one record per row of the query on its table with the date bounds that parse to a positive time |
| MirrorReport.MirrorKeysStep | QuickBooks/Status/Report.php:245-252 | an import action adds its object's pretty name as a key when the object is included, and adds no other key |
| MirrorReport.MirrorKeys | QuickBooks/Status/Report.php:239-252 | a key is in the report exactly when some included object has it as its pretty name, whether or not its table resolves |
| MirrorReport.MirrorDistinct | QuickBooks/Status/Report.php:252 | no key appears twice in the report |
| MirrorReport.FirstNamedLeast | QuickBooks/Status/Report.php:241-252 | `FirstNamed` is the index of the first included object, in listing order, with the given pretty name, or -1 when no included object has it |
| MirrorReport.MirrorKeyNamed | QuickBooks/Status/Report.php:241-252 | a key is in the report exactly when some included object has it as its pretty name |
| MirrorReport.MirrorOrder | QuickBooks/Status/Report.php:241-252 | the report's entries come in the order in which their pretty names first occur among the included objects: an earlier entry's first object precedes a later entry's |
| MirrorReport.MirrorLastWins | QuickBooks/Status/Report.php:251-290 | an included object that no later included object shares a pretty name with has its own rows in the report; the last object under a shared name replaces the earlier rows |
| MirrorReport.CreateForMirror | QuickBooks/Status/Report.php:233-307 | the loop over import actions, with `continue` for excluded objects and the nested fetch loop, gives `MirrorOf` |
| Escalation.WithSentinels | QuickBooks/Status/Report.php:103-121 | the working table is the caller's levels, or the four defaults when there are none, plus keys 0 and -1; every given entry is kept, and OK and Unknown are added only where their keys are missing |
| Escalation.DefaultCompleted | QuickBooks/Status/Report.php:103-121 | with no levels, the table is exactly 43200 Notice, 86400 Caution, 129600 Warning, 172800 Danger, 0 OK and -1 Unknown, with the source's templates |
| Escalation.Breakdown | QuickBooks/Status/Report.php:146-148 | hours lie in 0..23 and minutes in 0..59, and the three values account for the elapsed seconds up to less than one minute |
| Escalation.BreakdownExample | QuickBooks/Status/Report.php:83-148 | 177906 s is 2 days 1 hour 25 minutes; the documented 54 days 1 hour 46 minutes is 4671960 s |
| Escalation.Escalate | QuickBooks/Status/Report.php:124-166 | without evidence, the Unknown entry as it stands; with evidence, an unformatted entry exactly when no non-negative key exceeds the compared value, and then it is the OK entry |
| Escalation.Krsort | QuickBooks/Status/Report.php:127 | every key of the table exactly once, in strictly descending order |
| Escalation.Scan | QuickBooks/Status/Report.php:129-161 | the descending scan that skips negative keys stops at the largest key above the compared value, and finds nothing exactly when no key is above it |
| Escalation.Status | QuickBooks/Status/Report.php:94-167 | `status` answers `Escalate` of the completed table, the evidence for the resolved user and the compared value |
| Escalation.EscalateTopKey | QuickBooks/Status/Report.php:127-163 | as written, with line 136 read as an integer comparison (PHP before version 8), the answer depends on the largest key alone: that entry, stamped, when it exceeds the compared value, and the OK entry otherwise |
| Escalation.ReachedMonotone | QuickBooks/Status/Report.php:136-138 | under the intended comparison, more elapsed time never selects a smaller key |
| Escalation.DefaultReached | QuickBooks/Status/Report.php:105-138 | under the intended comparison with the default table, the chosen key steps at exactly 12, 24, 36 and 48 hours; a key equal to the elapsed time has not been passed |
| Escalation.DefaultStepRank | QuickBooks/Status/Report.php:105-121 | the default entry at each step has the severity rank the step names |
| Escalation.IntendedDefaultRank | QuickBooks/Status/Report.php:105-138 | under the intended comparison, the default severity after `ago` seconds is OK up to 12 hours, then Notice, Caution, Warning and Danger past 48 hours |
| Escalation.IntendedSeverityMonotone | QuickBooks/Status/Report.php:136-138 | under the intended comparison, the default severity never decreases as the elapsed time grows |
| Escalation.AsWrittenIgnoresElapsed | QuickBooks/Status/Report.php:136 | with the default table, one minute of elapsed time and a compared value of 2010 (the integer reading of PHP before version 8), the code answers Danger where the intended comparison answers OK |
| StatusReport.Create | QuickBooks/Status/Report.php:57-75 | a falsy user becomes the driver's default user; mode "queue" gives the queue report for that user, "mirror" gives the mirror report, and every other mode is refused (`false`) |

## Findings

| source | as written | input that shows it | evidently intended | confidence | as-written member | corrected member |
|---|---|---|---|---|---|---|
| QuickBooks/Status/Report.php:136 | the key is compared with `$last[1]`, the last-action timestamp text, so the elapsed seconds `$ago` (line 138) only fill in the message | default levels, last action one minute ago, `$last[1]` = "2010-03-19 12:26:41": before PHP 8 the text reads as 2010 and the answer is Danger; PHP 8 compares the key's digits with the text as strings, accepts 86400 and 43200 only, and answers Caution, also regardless of the elapsed time | compare the elapsed seconds with the key (`$ago > $level`), so the severity grows with the time since the last connection | not executed | Escalation.AsWrittenIgnoresElapsed | Escalation.IntendedSeverityMonotone |

`Escalation.Status` and `Escalation.Escalate` keep the comparison as
written, with the compared value as an integer input. `EscalateTopKey`
shows that only the largest key can then decide the answer; that holds for
the integer reading of PHP before version 8, not for PHP 8's string
comparison.
`IntendedEscalate` is the corrected scan, and `IntendedDefaultRank` and
`IntendedSeverityMonotone` are proved about it. Nothing else in the model
calls `status`.

## Left out

- Escalation.Status: the comparison on line 136 is between an integer key
  and the timestamp text. It is modelled as an integer input `compared`,
  which is the reading of PHP before version 8 (the leading number of the
  text, 2010 for "2010-…"). PHP 8 compares the key's decimal digits with
  the text as strings. With the default table and a 2010 timestamp, that
  accepts 86400 and 43200 and answers Caution, which no integer `compared`
  produces, so the model does not cover PHP 8.
- Escalation.Stamp: `sprintf` is a function passed in (`Formatter`), so the
  text of a formatted message is not modelled. The float divisions by
  `60.0` are integer floor divisions, which agree for the integral values
  involved.
- `time()`, `strtotime` and `date` are the `Clock` input. A failed
  `strtotime` counts as 0 in the elapsed time.
- The constructor, the driver factory, `connection`, `XML`, `HTML`,
  `_htmlForQueue` and `_htmlForMirror` are not modelled: they are
  construction, empty stubs and display templating.
- The driver calls `authDefault`, `authLast`, `queueReport`, `query` and
  `fetch` are inputs (`Driver`). The `fetch` loop is the sequence of rows
  it returns before a falsy value; a fetched row that is itself falsy (an
  empty array) is not distinguished from the end.
- The SQL text, the table prefix and the column-name constants are not
  modelled. The query is the structured `RowQuery`: its table and its
  optional lower and upper creation time. The column names are the
  `Columns` input.
- `QuickBooks_Utilities::listActions`, `actionToObject` and
  `QuickBooks_SQL_Schema::mapPrimaryKey` are the `Schema` input.
  MirrorReport.FetchErrorRows reads a fresh table-and-field pair for every
  object. When `mapPrimaryKey` leaves its out-argument untouched, the source
  reuses the previous object's pair instead.
- MirrorReport.CreateForMirror: `$report[$pretty] = array()` followed by
  appends is modelled as a single assignment of the complete row list.
  The two have the same result.
- `in_array` and `switch` use PHP's loose comparison. The model compares
  strings exactly, which agrees for the non-numeric object names and modes
  involved.
- QueueReport.CreateForQueue: the `$fetch_full_record` and `$restrict`
  arguments are accepted by the source and never used, so they are not
  parameters here.
- QueueReport.StatusLabel: the values of the eight `QUICKBOOKS_STATUS_*`
  constants are defined outside the class, so a status is one of eight
  named constructors or `Unlisted(code)`. An `Unlisted` code is taken to
  differ from all eight constants; nothing in the model checks that.
- QueueReport.StatusLabel: the notice PHP raises for an unknown status is
  not modelled, only the null value.
- Php.SubstrFrom: the source's string functions work on bytes, the model
  on characters; the two agree for ASCII text. For a multi-byte character
  directly after the colon, `substr($msg, $pos + 2)` cuts into the
  character where the model drops it whole.
- QueueReport.SplitMessage: `strpos` and `substr` count bytes in the
  source and characters in the model, so the split agrees with the source
  for ASCII text only.
- Names.PrettyName: `strlen` and `$constant[$i]` count bytes, so the loop
  bound and the examined positions agree with the model for ASCII names
  only.
- Php.SubstrFrom: `substr` past the end is the empty string, as in PHP 8.
  PHP 7 returns `false`, which reads as the same empty text here.
