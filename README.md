# Service-call dispatch backend: inbound replies, CSV import, directory filter

This project models the core of a small dispatch backend written in Python (FastAPI over a Prisma database). Professionals reply to job offers over a messaging channel, and the backend reacts to their replies. Three parts are modelled, with properties proved about each:

- **The inbound-message webhook** (`receive_message`). Each message of a batch is handled in order:
  - it is written to the message log, with an intent text from a language-model classifier;
  - its sender is looked up by phone;
  - for a known professional, the keyword rules apply, tried in this order:
    - "ACCEPT" in any case, or one of two Hebrew phrases, takes the first OPEN call of the professional's profession. It creates an ACCEPTED assignment and moves the call to ASSIGNED.
    - "COMPLETE", or one of two other Hebrew phrases, closes the professional's first ACCEPTED assignment and marks its call COMPLETED.
  - Every message gets one outcome entry with a status. Three statuses also trigger a reply to the sender: accepted, no_open_calls and completed.
- **The CSV upload** (`upload_professionals_csv`). The header row is skipped. Every row with at least six fields upserts its profession by name. A professional is created unless one with the row's phone already exists.
- **The directory filter** (`get_professionals_by_profession_and_cities`). A profession given by name and an optional list of cities select the available professionals of that profession, restricted to those cities when the list is not empty.

How the model is built:

- **The database is an in-memory store**, `Store.State`. Tables are sequences in insertion order, and `find_first` is "the first record in table order that matches". Each auto-incremented id has its own counter.
- **Attempted replies are appended to an `outbox`** and are never read back. `send_message` may send nothing: it returns False when no token is configured (services/whatsapp.py:22-24) or when the request fails (services/whatsapp.py:52-59), and the handler ignores that result.
- **Pure specification functions:** `Inbound.Step` handles one message and `Inbound.Run` a batch; `CsvImport.ImportRow`/`ImportRows` do the same for the upload.
- **The running backend is the class `Service.Server`.** Its fields are the tables and counters, updated in place. Its methods, `ReceiveMessages`, `HandleMessage` and `UploadProfessionalsCsv`, are proved to leave exactly the state the specification functions describe.
- **How text is read is a value `Inbound.Reading`.** It pairs the intent classifier (a parameter) with the keyword rules. The server always uses `Inbound.Standard(classify)`, whose keyword rules are `Keywords.Classify`. The transition lemmas are stated for any keyword rules, so they apply to the server's rules in particular.
- **`Keywords.ClassifyMeaning` says what `Classify` means.** It proves that the code's test on the upper-cased, stripped text finds a token exactly when the token occurs anywhere in the upper-cased text. Stripping therefore never matters, and the test amounts to a case-insensitive search.

Where the written behaviour and the evident design differ, the model follows the code:

- find_first takes the first match in table order. A COMPLETE therefore closes the professional's oldest ACCEPTED assignment, not their most recent one.
- In the directory filter, the 400 "Profession not found" is raised inside the handler's `try`, and its generic `except` re-raises it as a 500 whose detail is the 400's text. `Store.ProfessionalsByProfessionAndCities` answers that 500.
- In the CSV upload, the profession upsert comes before the duplicate-phone check. A row whose phone is already taken can still create its profession.
- The one exception is the profession comparison of the accept rule: the code compares with a relation it never loads, and the model uses the intended comparison (see Left out).
- The reply after accepted, no_open_calls and completed awaits a synchronous function, so the handler as written fails at the first replied message (see Findings). The class uses the corrected behaviour, `Inbound.Run`. The behaviour as written is `AsWritten.ReceiveAsWritten`.

## Model

| member | source | states |
|---|---|---|
| Text.Upper | main.py:497 | `upper()` on ASCII: the length is kept, non-ASCII characters are untouched, no lower-case letter is left, and every character keeps its letter (it lower-cases to what the input character lower-cases to) |
| Text.UpperIsDetermined | main.py:497 | the contract of `Text.Upper` determines it: any string meeting that contract is `Upper(s)` |
| Text.Lower | main.py:637 | `lower()` on ASCII: the length is kept, non-ASCII characters are untouched, no upper-case letter is left, and every character keeps its letter (it upper-cases to what the input character upper-cases to) |
| Text.Strip | main.py:497 | `strip()` drops only whitespace from the two ends: the result is the slice after the leading whitespace, everything cut off at the end is whitespace, and the result neither starts nor ends with whitespace |
| Text.SkipSpaces | main.py:497 | the index of the first non-whitespace character at or after `i`, with only whitespace skipped |
| Text.TrimEnd | main.py:497 | the end of the slice once its trailing whitespace is dropped, with only whitespace dropped |
| Text.ContainsIsOccurs | main.py:498 | the substring search `w in s` holds exactly when `w` occurs at some index of `s` |
| Text.StripKeepsOccurrences | main.py:497-498 | stripping neither creates nor destroys an occurrence of a non-empty word with no whitespace in it |
| Text.NonAsciiOccurrenceIgnoresCase | main.py:497-498 | a word of non-ASCII letters occurs in a text exactly when it occurs in any text with the same upper-cased form |
| Keywords.TokenTestMeansOccurrence | main.py:497-498 | searching the stripped, upper-cased text finds "ACCEPT" or "COMPLETE" exactly when the upper-cased text contains it |
| Keywords.TestsMeanOccurrence | main.py:497-553 | the accept test holds iff the text contains "accept" in any case or one of the two Hebrew accept phrases; the same for the complete test and its phrases |
| Keywords.ClassifyMeaning | main.py:497-553 | a text is an accept iff it says accept; a complete iff it says complete and not accept; neither iff it says neither (accept takes precedence) |
| Keywords.ClassifyIgnoresCase | main.py:497-553 | two texts with the same upper-cased form get the same keyword |
| Keywords.AcceptTest | main.py:497-498 | the accept test as the code computes it; no contract of its own, characterised by `Keywords.TestsMeanOccurrence` |
| Keywords.CompleteTest | main.py:553 | the complete test as the code computes it; no contract of its own, characterised by `Keywords.TestsMeanOccurrence` |
| Keywords.Classify | main.py:497-553 | the keyword rules, accept tried first; no contract of its own, characterised by `Keywords.ClassifyMeaning` and `Keywords.ClassifyIgnoresCase` |
| Store.FindProfessionalByPhone | main.py:491-493 | the index of the first professional with the phone in table order, or None exactly when no professional has it |
| Store.FindOpenCall | main.py:500-505 | the first OPEN call whose profession is the given one, or None exactly when there is none |
| Store.FindActiveAssignment | main.py:555-561 | the first ACCEPTED assignment of the professional, or None exactly when there is none |
| Store.FindProfessionByName | main.py:262-269 | the profession with the name, or None exactly when no profession has it |
| Store.FindProfessionById | main.py:502 | the profession with the id, or None exactly when none has it |
| Store.SetCallStatus | main.py:518-521 | `servicecall.update(where id)` keeps the ids; with unique ids it changes exactly the status of the one call with that id, and with no such call it changes nothing |
| Store.SetAssignmentStatus | main.py:565-568 | `servicecallassignment.update(where id)`: with unique ids it changes exactly the status of the one assignment with that id, and with none it changes nothing |
| Store.ProfessionName | main.py:502 | the name of the profession with the id, defined exactly when such a profession exists |
| Store.MatchesFilter | main.py:281-288 | the where clause of the filter endpoint; a predicate with no contract of its own, in whose terms `Store.Filter` and `Store.ProfessionalsByProfessionAndCities` are stated |
| Store.Filter | main.py:281-292 | a professional is in the result iff it is in the table and matches the where clause: profession, available, and a location among the cities when cities are given |
| Store.FilterOne | main.py:281-292 | a single professional is kept exactly when it matches the where clause |
| Store.FilterAppend | main.py:281-292 | filtering a concatenation filters each part in order, so with `Store.FilterOne` the result is the matching records in table order, each as often as in the table |
| Store.ProfessionalsByProfessionAndCities | main.py:262-296 | fails, with a 500, exactly when no profession has the name; otherwise answers the `Store.Filter` of the table for that profession, that is exactly the matching professionals of that profession in table order |
| Inbound.Step | main.py:472-609 | the message is logged under the next message id whatever happens; the directory is untouched; calls and assignments change only on accepted or completed; a reply goes to the sender exactly for accepted, no_open_calls and completed; the outcome echoes the sender, name, text and intent |
| Inbound.SenderName | main.py:474 | the `from_name` or "Unknown"; no contract of its own, characterised by `Inbound.Step`, whose outcome echoes it |
| Inbound.BodyText | main.py:475 | the `text.body` or the empty text; no contract of its own, characterised by `Inbound.Step`, whose outcome echoes it |
| Inbound.AnalyzeIntent | main.py:455-478 | the classifier's answer or the fixed fallback text; no contract of its own, characterised by `Inbound.Step` and `Lifecycle.RunAppendsLog`, which log it |
| Inbound.Replies | main.py:540-585 | the statuses after which a reply is sent; no contract of its own, characterised by `Inbound.Step` and `AsWritten.ReplyAbortsBatch` |
| Inbound.StatusText | main.py:528-608 | the status string of each processed entry; no contract of its own, characterised by `Inbound.StatusTextDistinct` |
| Inbound.StatusTextDistinct | main.py:528-608 | distinct statuses carry distinct status strings |
| Inbound.Run | main.py:471-611 | one outcome per message, the message counter advances by the batch length, the directory is untouched |
| Inbound.LogEntry | main.py:481-488 | the log entry written for a message; no contract of its own, characterised by `Inbound.Step` and `Lifecycle.RunAppendsLog` |
| Inbound.Logged | main.py:481-488 | the store once the message is logged; no contract of its own, characterised by `Lifecycle.LoggingKeepsInvariants` |
| Inbound.AcceptCall | main.py:500-551 | the accept branch; no contract of its own, characterised by `Inbound.AcceptTransition`, `Inbound.AcceptWithoutOpenCall`, `Lifecycle.AcceptCallPreservesWellFormed` and `Lifecycle.AcceptCallPreservesLifecycle` |
| Inbound.CompleteCall | main.py:555-593 | the complete branch; no contract of its own, characterised by `Inbound.CompleteTransition`, `Inbound.CompleteWithoutActiveAssignment`, `Lifecycle.CompleteCallPreservesWellFormed` and `Lifecycle.CompleteCallPreservesLifecycle` |
| Inbound.StepStatus | main.py:491-609 | the status, case by case: unknown_professional iff the phone is unregistered; other_message iff no keyword; accepted or no_open_calls for ACCEPT as an OPEN call of the profession exists or not; completed or no_active_assignments for COMPLETE as an ACCEPTED assignment exists or not |
| Inbound.AcceptTransition | main.py:500-540 | ACCEPT with an OPEN call: exactly one new ACCEPTED assignment links the sender to the first such call, that call becomes ASSIGNED and no other call changes, and exactly one confirmation with the call's title, locations and date goes to the sender |
| Inbound.AcceptWithoutOpenCall | main.py:541-551 | ACCEPT with no OPEN call of the profession: no_open_calls with no call id, calls and assignments unchanged, and exactly the no-open-calls notice goes to the sender |
| Inbound.CompleteTransition | main.py:555-585 | COMPLETE with an ACCEPTED assignment: the first such assignment and the call it links to become COMPLETED, nothing else in either table changes, and exactly the thanks goes to the sender |
| Inbound.CompleteWithoutActiveAssignment | main.py:586-593 | COMPLETE with no ACCEPTED assignment: no_active_assignments, and nothing but the log changes |
| Inbound.RunOnceAndTwice | main.py:471-611 | a batch of one message is one step; a batch of the same message twice is two steps, the second seeing the first's state |
| Inbound.ReplayAccept | main.py:500-551 | an ACCEPT sent twice against the only OPEN call of the profession is accepted once, then answered no_open_calls, with no further change |
| Inbound.ReplayComplete | main.py:555-593 | a COMPLETE sent twice for the only ACCEPTED assignment is completed once, then answered no_active_assignments, with no further change |
| Lifecycle.SameCallIds | main.py:518-573 | a status update that keeps the call ids keeps the call keys unique and every assignment linked to a call |
| Lifecycle.AcceptCallPreservesWellFormed | main.py:500-530 | an accept keeps every id unique and below its counter and keeps every assignment linked to an existing call |
| Lifecycle.CompleteCallPreservesWellFormed | main.py:555-582 | a complete keeps the store's integrity |
| Lifecycle.LoggingKeepsInvariants | main.py:481-488 | logging a message keeps the store's integrity and does not affect the lifecycle invariant |
| Lifecycle.StepPreservesWellFormed | main.py:472-609 | one message keeps the store's integrity |
| Lifecycle.AcceptCallPreservesLifecycle | main.py:500-530 | an accept keeps the lifecycle invariant: a call with an ACCEPTED assignment is not OPEN, and no call has two ACCEPTED assignments |
| Lifecycle.CompleteCallPreservesLifecycle | main.py:555-582 | a complete keeps the lifecycle invariant |
| Lifecycle.StepPreservesLifecycle | main.py:472-609 | one message keeps the lifecycle invariant |
| Lifecycle.StepMovesCallsForward | main.py:495-593 | one message changes no call except its status, and never moves a status backwards in OPEN, ASSIGNED, CONFIRMED, COMPLETED |
| Lifecycle.RunPreservesWellFormed | main.py:471-611 | a batch keeps the store's integrity |
| Lifecycle.RunPreservesLifecycle | main.py:471-611 | a batch keeps the lifecycle invariant |
| Lifecycle.RunMovesCallsForward | main.py:471-611 | over a batch, call statuses only move forward and nothing else about a call changes |
| Lifecycle.RunAppendsLog | main.py:472-488 | the log grows by one entry per message, in order, with consecutive ids, and no earlier entry changes |
| Lifecycle.RunOutcomesFollowInput | main.py:471-611 | the i-th outcome carries the i-th message's phone, sender name, text and intent |
| CsvImport.ParseAvailable | main.py:637 | `available.lower() == 'true'`: exactly the four letters of "true" in any mix of cases |
| CsvImport.UpsertProfession | main.py:640-646 | the existing profession of that name is kept, or else a new one with the next id is appended; either way the name is present afterwards |
| CsvImport.ImportRow | main.py:635-665 | a short row changes nothing. Otherwise the professions and their counter are exactly what `CsvImport.UpsertProfession` leaves for the row's profession name, whether or not the phone is taken. A taken phone creates nobody. A free phone appends a professional with the row's fields, linked to the upserted profession's id, and reports it. Calls, assignments, the log and the replies are untouched |
| CsvImport.ImportRows | main.py:634-665 | the data rows in order, each seeing what the earlier ones created; no contract of its own, characterised by `CsvImport.ImportCountsCreations`, `CsvImport.ImportRegistersEveryPhone`, `CsvImport.ImportKeepsPhonesUnique` and `CsvImport.ImportPreservesWellFormed` |
| CsvImport.ImportCsv | main.py:630-634 | the whole file with its first row skipped as the header; no contract of its own, characterised by `Service.Server.UploadProfessionalsCsv` |
| CsvImport.ImportCountsCreations | main.py:633-670 | the reported count is the number of professionals created; existing professionals are kept and each reported entry is the record appended for it |
| CsvImport.ImportRegistersEveryPhone | main.py:634-665 | after an import every phone of a row with six fields is registered |
| CsvImport.ImportKeepsPhonesUnique | main.py:648-665 | if phones were unique before an import, they are unique after it |
| CsvImport.ImportRowPreservesWellFormed | main.py:635-665 | one row keeps profession ids and names and professional ids unique |
| CsvImport.ImportPreservesWellFormed | main.py:634-665 | the import keeps the store's integrity |
| Service.Server.HandleMessage | main.py:472-609 | updates the fields to exactly the state `Inbound.Step` describes for that message and returns its outcome |
| Service.Server.AcceptReply | main.py:500-551 | updates the fields as the accept rule describes and returns its outcome |
| Service.Server.CompleteReply | main.py:555-593 | updates the fields as the complete rule describes and returns its outcome |
| Service.Server.ReceiveMessages | main.py:461-618 | an empty batch is a 400 "No messages found in the request." with nothing written; otherwise the answer is one outcome per message and the new state is `Inbound.Run` of the batch; both the store's integrity and the lifecycle invariant are kept |
| Service.Server.ImportRow | main.py:635-665 | updates the fields exactly as `CsvImport.ImportRow` describes |
| Service.Server.UploadProfessionalsCsv | main.py:622-671 | skips the header, imports the rows in order into exactly the state `CsvImport.ImportCsv` describes, and the directory grows by the number of entries reported |
| AsWritten.RunFirst | main.py:471-611 | a batch is its first message followed by the rest, processed from the state the first leaves |
| AsWritten.RunAsWritten | main.py:540-618 | the batch as written, stopping with a 500 at the first replied message; no contract of its own, characterised by `AsWritten.AsWrittenSucceedsOnlyWhenSilent` and `AsWritten.ReplyAbortsBatch` |
| AsWritten.ReceiveAsWritten | main.py:461-618 | the webhook as written: the 400 for an empty batch, else `AsWritten.RunAsWritten`; no contract of its own, characterised by `AsWritten.ReplyAbortsBatch` |
| AsWritten.AsWrittenSucceedsOnlyWhenSilent | main.py:540-618 | the code as written answers a batch only when none of its messages gets a reply, and then it answers exactly what the corrected processor answers |
| AsWritten.ReplyAbortsBatch | main.py:540-618 | when the first message gets a reply, the code as written answers a 500 and the store holds exactly what that first message wrote; the corrected processor logs every message of the batch |
| Scenarios.ClassifiesReplies | main.py:497-553 | "ACCEPT, I'm on it" is an accept and "COMPLETE" a complete |
| Scenarios.AcceptStep | main.py:500-540 | a plumber's ACCEPT takes the one open plumbing call: one ACCEPTED assignment, the call ASSIGNED, one confirmation sent |
| Scenarios.CompleteStep | main.py:555-585 | the plumber's COMPLETE then closes the assignment and the call and sends the thanks |
| Scenarios.AcceptThenComplete | main.py:471-611 | the two replies in one batch: accepted, then completed, ending with the call COMPLETED |
| Scenarios.AsWrittenStopsAfterAccept | main.py:540-618 | the same batch against the awaited reply as written: a 500 right after the accept, with the call left ASSIGNED as the intended profession comparison finds it (the unloaded relation is under Left out) |
| Scenarios.ServerAcceptsThenCompletes | main.py:461-611 | with the server's keyword rules and any intent classifier, the batch is accepted, then completed |

## Left out

- HTTP plumbing: request parsing, JSON serialisation, logging and `print`. A batch is a sequence of `Inbound.RawMessage`, and an answer is a `Result` of outcomes or an HTTP status with its detail.
- The database: Prisma, its transactions and its failures. The store is an in-memory `Store.State`. The only uniqueness it enforces is what `Store.WellFormed` states. A write that fails partway through a batch is not modelled.
- The intent classifier (`analyze_message_with_chatgpt`, main.py:432-458) calls an external language model. It is a parameter: a function from text to an optional answer, with None standing for a failed call. `Inbound.AnalyzeIntent` then gives the fixed fallback text main.py:458 returns. A successful call whose reply has no content yields a null intent (main.py:452), which is stored and answered as null. The model cannot express that case, since None stands only for a failed call.
- `send_message` (services/whatsapp.py:9-64) does network I/O. Its effect is one `Outgoing` entry in the outbox. The corrected model ignores its boolean result, and the model as written keeps only the fact that it is not awaitable. With the token set and `API_URL` unset, `send_message` itself raises at services/whatsapp.py:27 before sending. The handler still answers a 500 at the same point, but with a different detail and no message sent. That variant is not modelled.
- The reply texts are the `Store.Reply` variants. The job confirmation keeps the call's title, locations and date; the Hebrew wording is not reproduced.
- Timestamps (`createdAt`) are omitted: nothing in the core reads them.
- The CSV reader and UTF-8 decoding are not modelled. The upload works on the already-split rows, where the first row is the header, and a decoding or parsing error is not modelled.
- A message without a `from` key is not modelled: its `from` is always a string. An explicit JSON null is not modelled either; the model knows only present and absent keys. In the source, `from_name: null` is stored and answered as null, because the `.get` default at main.py:474 applies only to a missing key. `text: null` raises an AttributeError at main.py:475, which main.py:616-618 turns into a 500 for the whole batch.
- Text.Upper, Text.Lower: ASCII case mapping only. Python's full Unicode case mapping, such as `'ß'.upper() == 'SS'`, which changes the length, is not modelled. The Hebrew phrases have no case, so they are unaffected.
- The profession of a professional is a relation in the schema: the CSV import connects it by id (main.py:658-660). But main.py:491-493 fetches the professional without including that relation, so the value main.py:502 filters the calls on is never loaded. As written, an ACCEPT therefore matches no call or makes the query fail; which one depends on the database client. The model substitutes the evident intent: a call's profession name is compared with the name of the profession the professional is linked to (`Store.ProfessionName`). The accept branch of `Inbound.Step`, the lemmas about it and `AsWritten` describe that intended comparison, not the unloaded relation. A dangling link matches no call. The schema file is not part of this model.
- `notify_professionals`, the service-call creation flow, the CRUD and listing endpoints of main.py, and home.py are outside this core.
- Concurrency between requests: each request is one atomic sequence of steps over the store.

## Findings

| source | as written | input that shows it | evidently intended | confidence | as-written member | corrected member |
|---|---|---|---|---|---|---|
| main.py:540-585 | `await send_message(...)` at lines 540, 551 and 585, where `send_message` (services/whatsapp.py:9) is a plain function returning a bool; awaiting a bool raises a TypeError, which the `except Exception` at main.py:616-618 turns into an HTTP 500 after that message's writes were committed | a batch whose first message is "ACCEPT" from a registered professional (`Scenarios.AsWrittenStopsAfterAccept`) | send the reply and go on with the batch, answering one outcome per message | high, not executed | AsWritten.ReplyAbortsBatch | Inbound.Run |
