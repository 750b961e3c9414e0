# Points-sheet reconciliation, modelled in Dafny

The backend generates an event's "points sheet" from three Google Sheets: the signup form, the feedback form and the helper roster. `verifyParticipants` goes through the signup rows after the header. It joins each row by admin number to the feedback sheet (column 3) and to the helper sheet (column 4). The signup row's own admin number is in column 2. Each row then gets one of three verdicts:

- No feedback row matches: the row is invalid.
- A feedback row matches and so does a helper row: the row is invalid.
- Otherwise the row is a participant. It is appended unchanged to the participant list. Its course label (column 5) is tallied in `courseTurnup` when that label is non-empty.

The `generatePointsSheet` handler does the work around the engine:

- It takes each spreadsheet id from the document URL.
- It keeps only the helper rows whose column 6 is the event name.
- It counts the sheets.
- It passes the engine's results through to the response.

`APIError` derives its `status` from the HTTP status code. The status is `"fail"` when the code's decimal text starts with `4`, and `"error"` otherwise.

Files:

- `sheets.dfy` (module `Sheets`): rows, cells and grids. `Cell` returns `None` for JavaScript's `undefined` past the end of a row. `Find` is the first-match lookup, through `FindIndex`.
- `sequences.dfy` (module `Sequences`): order-preserving filter and count, with lemmas about them.
- `verification_engine.dfy` (module `VerificationEngine`): the classification, the specification functions `Accepted`, `Rejected` and `Tally`, the loop's step `Step` and its fold `Run`, and the loop `VerifyParticipants`, proved against them.
- `events_controller.dfy` (module `EventsController`): `split('/')`, spreadsheet-id extraction, the helper filter, and the handler as a method.
- `errors.dfy` (module `Errors`): decimal rendering, the status rule and the `APIError` class.

Modelling choices:

- Cells are compared as `Option<string>`. A missing cell is `None`, so two missing cells are equal, just as `undefined === undefined` is true in JavaScript. A signup row with no admin-number cell therefore matches any feedback row that also has no such cell (`MissingAdminNumbersMatch`).
- The feedback and helper searches run over the whole grid, header row included. Only the signup sheet skips its header.
- The course label counts only when it is truthy, meaning present and non-empty. It is used verbatim.
- The three input grids are immutable sequence values, so the engine cannot modify them. The engine keeps the loop's three mutable locals: the participant list, the invalid counter and the turnup record.
- Fetching a sheet (`accessSheets`) is a parameter `fetch: Option<string> -> Grid`. The argument is the extracted id, with `None` standing for `undefined`. The result is any grid, possibly empty.
- The request's `eventName` is an `Option<string>`, because a missing body field is `undefined`.

Behaviour of the code that the model keeps:

- The engine creates no profiles and writes no participation records.
- The course label is not cut at `/`.
- `helperCount` is the length of the filtered helper grid, with no header subtracted.
- Counts are `length - 1` even for an empty sheet, so they can be −1.
- A short signup row is not treated as malformed. It is classified like any other row.
- An empty or header-only signup sheet is not an error: the engine returns no participants and 0 invalid.

## Model

| member | source | states |
|---|---|---|
| `Sheets.Cell` | server/src/features/events/lib/verification-engine.ts:13-17 | `row[i]`: the cell when `i` is within the row, and `undefined` past its end. |
| `Sheets.FindIndex` | server/src/features/events/lib/verification-engine.ts:14-17 | The position `find` stops at: when there is one, it lies within the grid. |
| `Sheets.Find` | server/src/features/events/lib/verification-engine.ts:14-17 | `grid.find(entry => entry[col] === key)`: a row it returns belongs to the grid and has the key in that column, and it returns nothing only when no row of the grid has the key there. |
| `Sheets.FindIndexFirstMatch` | server/src/features/events/lib/verification-engine.ts:14-17 | The lookup behind `find` scans the whole grid in order. It finds nothing exactly when no row has the key in the given column. Otherwise the row it finds matches, and every row before it fails to match. |
| `Sheets.Body` | server/src/features/events/lib/verification-engine.ts:10 | `slice(1)` drops exactly the header row. An empty grid gives no rows. Row `i` of the result is row `i + 1` of the sheet. |
| `VerificationEngine.Classify` | server/src/features/events/lib/verification-engine.ts:13-31 | Computes a signup row's verdict: NoFeedback when the feedback `find` on column 3 finds nothing, otherwise HelperDuplicate when the helper `find` on column 4 finds a row, otherwise Valid. It has no contract of its own; `ClassifyMeaning` states what the verdicts mean. |
| `VerificationEngine.Course` | server/src/features/events/lib/verification-engine.ts:34-35 | The truthy course label: when present, it is column 5 of the row and is non-empty; otherwise column 5 is missing or empty. |
| `VerificationEngine.Bump` | server/src/features/events/lib/verification-engine.ts:34-35 | The turnup record after one participant has the old keys plus the participant's course label when it is truthy, and no others. |
| `VerificationEngine.Step` | server/src/features/events/lib/verification-engine.ts:10-38 | One loop iteration accounts for its row exactly once: participants plus invalid count grow by one. Either the row is appended to the participants, or the participants and the turnup record stay as they were. |
| `VerificationEngine.Run` | server/src/features/events/lib/verification-engine.ts:10-38 | The loop's state after processing a list of rows in order, starting from no participants, 0 invalid and an empty record. It has no contract of its own; `RunMeaning` and `RunTally` state what it yields. |
| `VerificationEngine.ClassifyMeaning` | server/src/features/events/lib/verification-engine.ts:13-31 | The verdict is NoFeedback iff no feedback row (header included) has the row's admin number in column 3. It is HelperDuplicate iff there is a feedback match and also a helper match on column 4. It is Valid iff there is a feedback match and no helper match. |
| `VerificationEngine.RunMeaning` | server/src/features/events/lib/verification-engine.ts:10-37 | Running the loop's step over the signup rows in order keeps exactly the passing rows, in order, and counts exactly the failing ones. |
| `VerificationEngine.RunTally` | server/src/features/events/lib/verification-engine.ts:33-37 | The turnup record the loop builds is the tally of the participants it keeps. |
| `VerificationEngine.VerifyParticipants` | server/src/features/events/lib/verification-engine.ts:1-47 | The loop returns the passing signup rows after the header, the number of failing rows, and the tally of the participants' course labels. Participants plus invalid rows equal the non-header rows. A header-only or empty sheet yields no participants and 0 invalid. Each turnup value is the number of participants with that course, and at least 1. |
| `VerificationEngine.Partition` | server/src/features/events/lib/verification-engine.ts:10-37 | Each processed row is counted exactly once, as a participant or as invalid. |
| `VerificationEngine.AcceptedIff` | server/src/features/events/lib/verification-engine.ts:14-37 | A row is among the participants iff it is a signup row, some feedback row matches it, and no helper row matches it. So a row without feedback, or with a helper match, is never a participant. |
| `VerificationEngine.AcceptedInOrder` | server/src/features/events/lib/verification-engine.ts:10-37 | The participants are a subsequence of the signup rows, in signup order and unmodified. Each passing row appears as many times as in the sheet, and every failing row appears 0 times. |
| `VerificationEngine.MissingAdminNumbersMatch` | server/src/features/events/lib/verification-engine.ts:13-17 | A signup row without an admin-number cell matches any feedback row without a column-3 cell, because `undefined === undefined`. It is accepted when every helper row has a column-4 cell. |
| `VerificationEngine.TallyCounts` | server/src/features/events/lib/verification-engine.ts:34-35 | A course is a key of `courseTurnup` iff some participant carries it as a non-empty label. Its value is the number of such participants. The empty label is never a key. |
| `VerificationEngine.TallySum` | server/src/features/events/lib/verification-engine.ts:34-35 | The `courseTurnup` values sum to the number of participants with a non-empty course label. |
| `VerificationEngine.SumValuesBump` | server/src/features/events/lib/verification-engine.ts:35 | Bumping a course's entry, or creating it at 1, raises the sum of the record by one. |
| `EventsController.Split` | server/src/features/events/events.controller.ts:16 | `split('/')` returns at least one part. |
| `EventsController.SplitPartsSeparatorFree` | server/src/features/events/events.controller.ts:16 | No part of `split('/')` contains the separator. |
| `EventsController.JoinSplit` | server/src/features/events/events.controller.ts:16 | Joining the split parts with the separator gives the original URL back. |
| `EventsController.SplitJoin` | server/src/features/events/events.controller.ts:16 | Splitting separator-free parts that were joined by the separator gives those parts back. |
| `EventsController.SpreadsheetId` | server/src/features/events/events.controller.ts:16-25 | `url.split('/')[5]`: an id it returns contains no `/`. |
| `EventsController.SplitCount` | server/src/features/events/events.controller.ts:16 | `split('/')` returns one part more than the URL has `/` characters. |
| `EventsController.SpreadsheetIdDefined` | server/src/features/events/events.controller.ts:16-25 | `split('/')[5]` is `undefined` exactly when the URL holds fewer than five `/` characters. |
| `EventsController.DocumentUrlId` | server/src/features/events/events.controller.ts:16-25 | For `https://docs.google.com/spreadsheets/d/{id}` followed by nothing or by `/...`, element 5 of the split is `{id}`. |
| `EventsController.SpreadsheetIdAfterFive` | server/src/features/events/events.controller.ts:16 | After five separator-free parts, each followed by `/`, element 5 of the split is the next separator-free part. |
| `EventsController.EventHelpers` | server/src/features/events/events.controller.ts:27 | The helper filter returns no more rows than were fetched, and every row it returns has the event name in column 6. |
| `EventsController.EventHelpersExact` | server/src/features/events/events.controller.ts:23-27 | The helper grid holds exactly the fetched rows whose column 6 is the event name, in fetched order. Each such row appears with its multiplicity. |
| `EventsController.HelperHeader` | server/src/features/events/events.controller.ts:23-27 | The helper header row is kept, at the front, iff its column 6 is the event name. Otherwise the result is the filter of the rows after it. |
| `EventsController.GeneratePointsSheet` | server/src/features/events/events.controller.ts:15-60 | Each sheet is fetched by `split('/')[5]` of its URL. `signupCount` and `feedbackCount` are length − 1. `helperCount` is the filtered helper length. Participants, invalid count and course turnup are the engine's results on those grids, passed through unchanged. |
| `Errors.Digits` | packages/types/errors.ts:9 | The rendering of a code is a non-empty string of decimal digits. It has no leading zero unless the code is 0. |
| `Errors.DecimalString` | packages/types/errors.ts:9 | `${statusCode}` starts with `-` exactly for a negative code. The digits after the sign read back as the code's magnitude. For a non-negative code, it starts with `4` iff the digit rendering does. |
| `Errors.StartsWithFour` | packages/types/errors.ts:9 | `s.startsWith('4')`: the string is non-empty and its first character is `4`. |
| `Errors.Status` | packages/types/errors.ts:9 | The status is either `"fail"` or `"error"`, and a negative code is always `"error"`. |
| `Errors.DigitsRoundTrip` | packages/types/errors.ts:9 | Reading the rendered digits back gives the code. |
| `Errors.DigitsStartWithLeadingDigit` | packages/types/errors.ts:9 | The rendering begins with the code's most significant digit. |
| `Errors.StatusFailIff` | packages/types/errors.ts:9 | The status is `"fail"` iff the code is non-negative and its leading digit is 4. Otherwise it is `"error"`. |
| `Errors.HttpStatusClass` | packages/types/errors.ts:9 | For three-digit codes, the status is `"fail"` iff the code is in 400..499. So 500 is `"error"`. |
| `Errors.APIError.constructor` | packages/types/errors.ts:6-10 | The constructor keeps the message and the status code as given. It sets `status` to `"fail"` iff the code's decimal text starts with `4`, and to `"error"` otherwise. `isOperational` is true. |

## Left out

- The turnup rate, `(participants / signupCount * 100).toFixed(2)` and `parseFloat` (events.controller.ts:45-48, 59). It is floating-point arithmetic, and it divides by zero when `signupCount` is 0.
- `accessSheets` (the Google Sheets API call and service-account credentials). It is I/O and appears only as the `fetch` parameter. A fetch that throws is not modelled.
- The Express handler mechanics: `req.body`, `res.status(200).json`, the `await` sequencing and the `console.log` calls in the handler and in the engine. A URL field missing from the body, where `.split` throws a TypeError, is not modelled either. The URLs are strings in the model.
- The `status: 'success'` and `message` fields of the response envelope. They are constants outside the points-sheet data.
- `VerificationEngine.Tally`: treats `courseTurnup` as a plain map from label to count. A JavaScript object literal also inherits `Object.prototype`, so labels such as `constructor` or `__proto__` would behave differently there. Such labels are not modelled.
- `Errors.APIError.constructor`: the status code is an integer. Non-integral numbers, `NaN` and values of 10^21 or more have other JavaScript renderings and are not modelled. The inherited `Error` fields `name` and `stack` are not modelled either.
- `VerificationEngine.VerifyParticipants`: returns the participant rows as values. The source pushes references to the same row arrays, and that aliasing is not modelled.
- Profile lookup or creation, participation records and the database layer. The engine performs none of these. `createEventReport` and `createEventParticipationRecord` are never called from it.
- A JSON body whose `eventName` is not a string (`null`, a number, a boolean, an object) is not modelled. For any such value, `row[6] === eventName` is false for every row, so the helper grid is empty.
- Authentication, error and logging middleware, routing and app setup. These are framework plumbing outside the reconciliation.
