# flask-boilerplate, modelled in Dafny

flask-boilerplate is a Flask web service. Behind a few HTTP blueprints it offers:

- user accounts stored in MongoDB: registration, confirmation, login, password change, contacts, profile pictures and a balance;
- an admin listing of active users with pagination;
- an access-token gated webhook;
- asynchronous report generation run by a Celery worker;
- event publishing to Redis and RabbitMQ, open only during business hours;
- a websocket service that authenticates a client by its JWT cookie and relays Redis pub/sub messages to it;
- a periodic task that disables users who have not logged in for a year;
- a demonstration document model (`AnotherModel`) with validation hooks and query managers.

This project models the decision and state-update rules of those parts. Each foreign system becomes an in-memory structure or a function parameter:

- **Mongo collections** are classes over a `seq` (natural order) or a `map`:
  - `Users.UserStore` holds the users;
  - `ReportModel.ReportStore` holds the reports;
  - `AnotherModels.ItemStore` holds the `AnotherModel` documents.
- **Transports**:
  - `Brokers.RedisBus` logs what is published;
  - `Brokers.PikaClient` counts channels borrowed and returned and logs broker operations;
  - `UserDomain.MediaBucket` holds the uploaded objects;
  - `ReportDomain.TaskQueue` is the Celery dispatch.
- **Websockets**: `WebsocketUtils.WebSocket` and `WebsocketUtils.PubSubChannel` each hold the finite sequence of what they will deliver, plus a log of what was done to them.
- **Oracles passed as parameters**: bcrypt (`hashpw`, `checkpw`), PyJWT (header parsing and signature/expiry verification), `strptime`, `secure_filename`, Mongo's e-mail and URL field checks, `build_report`, the pub/sub callback, the random choice of token characters, transport failures and the clock.
- **Time**: an `Instant` is a count of microseconds since 0001-01-01T00:00:00, like Python's naive `datetime`. `Calendar` derives weekdays, times of day and dates from it.
- **Regular expressions**: `re.fullmatch` is modelled by a small regular-expression language (`Regex`). Each pattern of the user model is proved equal to a direct description of the strings it accepts.

Modules follow the source files:

| module | source |
|---|---|
| `Common` | shared values: Option/Result, JSON values, responses, Python exceptions, floor division |
| `Config` | `config.py` constants |
| `Calendar` | the parts of `datetime` the code uses |
| `Regex` | `re.fullmatch` |
| `MongoQuery`, `Sorting` | cursor `skip`/`limit` and `order_by('-created_at')` |
| `BaseDocument` | `app/models/base_document.py` |
| `UserModel` | `app/models/user.py`, the document and validators |
| `Users` | `app/models/user.py`, the collection, `save`, `modify` and the balance methods |
| `ReportModel` | `app/models/report.py` |
| `ReportTask` | `app/tasks/report.py` |
| `ReportDomain` | `app/domains/report.py` |
| `Brokers`, `EventDomain` | `app/domains/event.py` |
| `TimeRestrictions` | `app/utils/time_restrictions.py` |
| `AuthDomain` | `app/domains/auth.py` |
| `UserDomain` | `app/domains/user.py` |
| `AdminDomain` | `app/domains/admin.py` |
| `UserTasks` | `app/tasks/user.py` |
| `WebhookDomain` | `app/domains/webhook.py` |
| `AnotherModels` | `app/models/another_model.py` |
| `WebsocketUtils` | `app/websocket/utils.py` |
| `WebsocketJwt` | `app/websocket/jwt.py` |
| `AppInit` | `app/__init__.py` |

## Model

| member | source | states |
|---|---|---|
| BaseDocument.ObjectIdInjective | flask-boilerplate/app/models/base_document.py:5-6 | distinct counter values give distinct 24-hex-digit ids, and equal ids mean equal counters |
| BaseDocument.FromHexHex | flask-boilerplate/app/models/base_document.py:5-6 | reading back the hexadecimal text of a number gives the number |
| BaseDocument.IdSource.Generate | flask-boilerplate/app/models/base_document.py:5-6 | each generated id is fresh: not among the ids issued before, and added to them |
| BaseDocument.AssignId | flask-boilerplate/app/models/base_document.py:17-20 | an `_id` keyword is kept as given with no id drawn; without one a fresh id is generated |
| UserModel.GenerateRandomToken | flask-boilerplate/app/models/user.py:14-17 | the token has 32 characters, each an ASCII letter or digit |
| UserModel.EveryTokenCanBeDrawn | flask-boilerplate/app/models/user.py:14-17 | every 32-character alphanumeric string is a possible token |
| UserModel.TokenCharsAreAlnum | flask-boilerplate/app/models/user.py:17 | the alphabet has 62 characters, all letters or digits |
| UserModel.Strip | flask-boilerplate/app/models/user.py:27 | the result is the input with its leading and trailing whitespace removed; it is empty exactly when the input is all whitespace |
| UserModel.FullNameOfTrimmedNames | flask-boilerplate/app/models/user.py:25-27 | for names without outer whitespace the full name is first, one space, last |
| UserModel.FullNameEmpty | flask-boilerplate/app/models/user.py:25-27 | the full name is empty exactly when both names are whitespace only |
| UserModel.ValidateEmailAsWritten | flask-boilerplate/app/models/user.py:35-37 | accepts exactly the strings that fully match the pattern as written; otherwise raises the 'Invalid email address' error |
| UserModel.EmailAsWrittenFinding | flask-boilerplate/app/models/user.py:36 | the pattern as written rejects `a-b@cd.ef` and accepts `a@b@cd.ef` |
| UserModel.ValidateEmail | flask-boilerplate/app/models/user.py:35-37 | accepts exactly the strings that match the pattern with the separators `.`, `-` and `_`; otherwise raises the 'Invalid email address' error |
| UserModel.EmailAcceptsHyphen | flask-boilerplate/app/models/user.py:36 | the corrected pattern accepts `a-b@cd.ef` |
| UserModel.EmailHasOneAt | flask-boilerplate/app/models/user.py:36 | every address the corrected pattern accepts holds exactly one `@` |
| UserModel.TelegramPatternExactly | flask-boilerplate/app/models/user.py:40-43 | the pattern accepts exactly an ASCII letter followed by 4 to 31 letters, digits or underscores |
| UserModel.ValidateTelegramUsername | flask-boilerplate/app/models/user.py:40-43 | no error exactly when the pattern matches; otherwise the 'Invalid Telegram username' error |
| UserModel.ChatIdPatternExactly | flask-boilerplate/app/models/user.py:46-50 | the pattern accepts exactly 1 to 20 ASCII digits |
| UserModel.ValidateTelegramChatId | flask-boilerplate/app/models/user.py:46-50 | no error exactly when the pattern matches; otherwise the 'Invalid Telegram chat ID' error |
| UserModel.InactiveIsNotAChoice | flask-boilerplate/app/models/user.py:77 | 'inactive' is not one of the status choices |
| UserModel.NewUser | flask-boilerplate/app/models/user.py:67-87 | a new document has the given fields and the declared defaults: no contacts, no picture, no last login, balance 0 without a top-up |
| UserModel.Clean | flask-boilerplate/app/models/user.py:90-93 | after cleaning the password is a digest; a plain password is replaced by its hash and nothing else changes |
| UserModel.ValidateExactly | flask-boilerplate/app/models/user.py:95-98 | validation passes exactly for documents whose required fields, lengths, choices, profile-picture URL, contact validators (the e-mail pattern as written) and phone number are all in order |
| UserModel.CheckPassword | flask-boilerplate/app/models/user.py:100-104 | an empty phone number raises ValueError 'Phone number is required'; otherwise the answer is bcrypt's comparison with the stored digest |
| Users.FilterMembers | flask-boilerplate/app/models/user.py:67-87 | the query set holds exactly the documents the query selects |
| Users.First | flask-boilerplate/app/models/user.py:67-87 | the first document a query selects, and none exactly when no document matches |
| Users.Get | flask-boilerplate/app/domains/webhook.py:22 | `.get()`: the only matching document; DoesNotExist exactly when nothing matches; MultipleObjectsReturned only when two documents match |
| Users.GetOfUnique | flask-boilerplate/app/__init__.py:190-191 | under the unique indexes, a lookup by id, phone number or token finds the one matching document |
| Users.UniqueSelectsOne | flask-boilerplate/app/__init__.py:190-191 | under the unique indexes, a query on a unique field matches at most one document |
| Users.Upsert | flask-boilerplate/app/models/user.py:67 | saving by `_id` replaces the document with that id or appends a new one; every other document stays in place |
| Users.UpsertKeepsUnique | flask-boilerplate/app/__init__.py:190-191 | a save that clashes with no index keeps every document's id, phone number and token distinct |
| Users.SaveOutcome | flask-boilerplate/app/models/user.py:90-98 | `save()`: clean, then validate, then check the unique indexes; it succeeds exactly when the cleaned document is valid and clashes with nothing; the first validation error or NotUniqueError otherwise, and then nothing is written |
| Users.SaveKeepsValid | flask-boilerplate/app/models/user.py:90-98 | saving keeps the collection free of index clashes and holding only cleaned, unique documents |
| Users.UserStore.Save | flask-boilerplate/app/models/user.py:90-98 | the store's new contents and the error are those of `SaveOutcome` |
| Users.Apply | flask-boilerplate/app/models/user.py:113 | a field update never changes id, phone number, token or password |
| Users.Modified | flask-boilerplate/app/models/user.py:113 | `modify()`: updates only the document with the id; with no such document the collection is unchanged |
| Users.ModifiedKeepsUnique | flask-boilerplate/app/models/user.py:113 | a modify keeps the unique indexes satisfied |
| Users.UserStore.Modify | flask-boilerplate/app/models/user.py:20-22 | a `$set` of a name longer than 100 characters is refused with a ValidationError and nothing is written; any other change reports success exactly when a document with the id exists, and the contents become `Modified` |
| Users.ChangeError | flask-boilerplate/app/models/user.py:21-22 | only a change of the details can be refused, and it is refused exactly when the first or last name breaks its 100-character limit |
| Users.UserStore.TopupBalance | flask-boilerplate/app/models/user.py:106-116 | unsaved changes raise OperationError, then amount ≤ 0 raises ValueError, both without a write; otherwise the amount is added and last_topup set, and OperationError is raised when no document was modified |
| Users.UserStore.SpendBalance | flask-boilerplate/app/models/user.py:118-127 | the same two guards; then the amount is subtracted with no lower bound and last_topup untouched |
| Users.TopupThenSpend | flask-boilerplate/app/models/user.py:106-127 | a top-up followed by a spend of the same amount restores the balance and leaves only last_topup changed |
| Users.SetStatusWhere | flask-boilerplate/app/tasks/user.py:19-24 | the bulk update sets the status of exactly the selected documents and leaves the others untouched |
| Users.SetStatusEach | flask-boilerplate/app/tasks/user.py:19-24 | writing the status document by document yields `SetStatusWhere` and counts the selected documents |
| Users.SetStatusKeepsValid | flask-boilerplate/app/tasks/user.py:19-24 | a status write keeps the unique indexes and the saved-document invariant |
| Users.UserStore.UpdateStatus | flask-boilerplate/app/tasks/user.py:19-24 | the contents become `SetStatusWhere` and the count is the number selected beforehand |
| ReportModel.StatusName | flask-boilerplate/app/models/report.py:16-20 | every status is stored as one of 'pending', 'running', 'completed', 'failed' |
| ReportModel.ParseStatus | flask-boilerplate/app/models/report.py:16-20 | a stored name is read back exactly when it is one of the choices, and it names a unique status |
| ReportModel.NewReport | flask-boilerplate/app/models/report.py:14-26 | a new report has the given user and task id, status 'pending' when none is given, created_at the construction time, and completed_at, result_data and error_message unset |
| ReportModel.ReportStore.Save | flask-boilerplate/app/models/report.py:8 | a save writes the report under its id, appends a new id to the natural order, and logs the write |
| ReportModel.ReportStore.Documents | flask-boilerplate/app/models/report.py:8 | the collection in natural order, one document per stored id |
| ReportTask.BuildReport | flask-boilerplate/app/tasks/report.py:11-14 | `build_report` returns its argument |
| ReportTask.Started | flask-boilerplate/app/tasks/report.py:29-30 | the running report differs from the original in its status only |
| ReportTask.Finished | flask-boilerplate/app/tasks/report.py:39-50 | on success: 'completed', completed_at and result_data set, error_message kept; on failure: 'failed' and error_message set, completed_at and result_data kept |
| ReportTask.Outcome | flask-boilerplate/app/tasks/report.py:39-53 | the task answers 'completed' with the report id exactly when the work succeeded, else 'failed' with the message |
| ReportTask.TaskResultJson | flask-boilerplate/app/tasks/report.py:27-53 | every answer carries the status 'completed' or 'failed' |
| ReportTask.ProcessReport | flask-boilerplate/app/tasks/report.py:17-53 | an unknown id answers 'Report not found' with nothing written; otherwise the report is saved as running, then once more in its final state, and no exception escapes |
| ReportTask.FirstRunKeepsConsistency | flask-boilerplate/app/tasks/report.py:27-50 | from a pending report a run moves pending → running → a terminal status and keeps each stored state consistent |
| ReportTask.BuildReportCompletes | flask-boilerplate/app/tasks/report.py:11-24 | without a failure the result data is the mock `{'foo': 'bar'}` and the run completes |
| ReportTask.RerunAfterCompletion | flask-boilerplate/app/tasks/report.py:28-30 | there is no guard: a completed report is set running again, and a failing rerun leaves an inconsistent document (failed with a completion time) |
| ReportDomain.TaskQueue.ApplyAsync | flask-boilerplate/app/domains/report.py:67 | dispatch returns a fresh task id and records the task's argument, or, when the broker cannot be reached, raises its error with nothing dispatched and no id issued |
| ReportDomain.ReportPost | flask-boilerplate/app/domains/report.py:47-79 | a pending report with an empty task id is saved first, the task is dispatched with the user and report ids, the report is saved again with the task id, and the answer carries both; when dispatch raises, the error escapes and the pending report with an empty task id is left saved |
| ReportDomain.Submitted | flask-boilerplate/app/domains/report.py:75-79 | the 200 answer has exactly the message, the report id and the task id |
| ReportDomain.ReportJson | flask-boilerplate/app/domains/report.py:15-23 | the report schema's eight keys, with the id and the status name |
| ReportDomain.ListItemJson | flask-boilerplate/app/domains/report.py:26-31 | the list-item schema's five keys, with the id and the status name |
| ReportDomain.ReportGet | flask-boilerplate/app/domains/report.py:82-93 | 200 with the report exactly when the id exists and belongs to the caller; otherwise 404 'Report not found' |
| ReportDomain.ReportGetHidesOthersReports | flask-boilerplate/app/domains/report.py:89 | another user's report answers as if it did not exist |
| ReportDomain.Matches | flask-boilerplate/app/domains/report.py:107-109 | exactly the caller's reports, narrowed to the status only when a non-empty one is given |
| ReportDomain.SortNewest | flask-boilerplate/app/domains/report.py:112 | a newest-first permutation of the reports |
| ReportDomain.ListingSound | flask-boilerplate/app/domains/report.py:107-112 | every listed report matches the query, and the list is newest first |
| ReportDomain.ListingKeepsNewest | flask-boilerplate/app/domains/report.py:112 | a matching report left out is no newer than any listed one |
| ReportDomain.ListingComplete | flask-boilerplate/app/domains/report.py:112 | when the limit does not cut, the listing holds every match |
| ReportDomain.ListJson | flask-boilerplate/app/domains/report.py:114-117 | the list body holds one item per listed report, in order, and count equals their number |
| ReportDomain.LimitArgument | flask-boilerplate/app/domains/report.py:104 | the limit defaults to 50; a non-numeric argument raises ValueError |
| ReportDomain.EffectiveLimitAsWritten | flask-boilerplate/app/domains/report.py:104 | `min(n, 100)`: the argument, or 100 when larger, with no lower bound |
| ReportDomain.ReportsListAsWritten | flask-boilerplate/app/domains/report.py:96-119 | `reports_list` as written: an error exactly for a malformed limit, otherwise the listing with `min(limit, 100)` |
| ReportDomain.LimitZeroExceedsCap | flask-boilerplate/app/domains/report.py:104-112 | with `limit=0` and 101 matching reports, the code as written lists all 101 |
| ReportDomain.EffectiveLimit | flask-boilerplate/app/domains/report.py:104 | the corrected limit is always between 1 and 100 and keeps every argument already in that range |
| ReportDomain.ReportsList | flask-boilerplate/app/domains/report.py:96-119 | the corrected listing: an error exactly for a malformed limit, otherwise the listing with the clamped limit |
| ReportDomain.ReportsListCapped | flask-boilerplate/app/domains/report.py:104-112 | the corrected listing never holds more than 100 reports, and without a limit argument it holds min(50, matches) |
| EventDomain.BusinessHoursExactly | flask-boilerplate/app/domains/event.py:18-29 | open exactly on Monday to Friday between 09:00:00 and 17:00:00, both included |
| EventDomain.WeekendIsClosed | flask-boilerplate/app/domains/event.py:22-24 | closed all Saturday and Sunday |
| EventDomain.BusinessHoursBoundaries | flask-boilerplate/app/domains/event.py:26-29 | on a weekday 09:00:00 and 17:00:00 are open; one microsecond earlier or later is closed |
| EventDomain.EventRecord | flask-boilerplate/app/domains/event.py:39-43 | the record has exactly timestamp, type and the caller's data, unchanged |
| EventDomain.PublishRedisEvent | flask-boilerplate/app/domains/event.py:33-45 | an unknown type raises ValueError with nothing published; otherwise the record is published once on `events:event`, or the Redis client's error is raised with nothing published |
| EventDomain.RabbitmqMessage | flask-boilerplate/app/domains/event.py:65-73 | exchange `events`, routing key the type, delivery mode 2, content type `application/json`, body the record |
| EventDomain.PublishRabbitmqEvent | flask-boilerplate/app/domains/event.py:48-83 | an unknown type raises before a channel is taken; a failing `channel()` raises before the `try`, so nothing is borrowed or returned; otherwise one channel is borrowed and returned on success and on failure, and a publish failure is re-raised |
| EventDomain.EventData | flask-boilerplate/app/domains/event.py:95-99 | the demo event data carries the caller's user id |
| EventDomain.RedisEventPost | flask-boilerplate/app/domains/event.py:86-103 | outside business hours 503 with nothing published; inside, the simple event is published and the answer is 200, or the uncaught publish error leaves the handler |
| EventDomain.RabbitmqEventPost | flask-boilerplate/app/domains/event.py:106-126 | outside business hours 503 with no channel taken; inside, 200 on success and 500 `{'error': ...}` when the channel cannot be had (nothing borrowed) or the publish fails (the channel returned) |
| Brokers.RedisBus.Publish | flask-boilerplate/app/domains/event.py:45 | appends exactly one publication, or raises the client's error and publishes nothing |
| Brokers.PikaClient.Channel | flask-boilerplate/app/domains/event.py:61 | borrows one channel, or raises the pool's error and borrows none; returns and operations are unchanged |
| Brokers.PikaClient.Perform | flask-boilerplate/app/domains/event.py:65-73 | an operation is logged when it succeeds; a failure is reported and logs nothing; channel counts are unchanged |
| TimeRestrictions.NotAllowedMessage | flask-boilerplate/app/utils/time_restrictions.py:17 | a missing or empty message falls back to the default text; otherwise the message is kept |
| TimeRestrictions.Gate | flask-boilerplate/app/utils/time_restrictions.py:14-18 | the one clock reading decides: the handler runs exactly when the predicate holds, else the answer is 503 with the message |
| TimeRestrictions.TimeRestricted | flask-boilerplate/app/utils/time_restrictions.py:8-21 | a true predicate gives exactly the handler's answer; a false one gives 503 `{'msg': ...}` |
| AuthDomain.RefreshExpiringJwts | flask-boilerplate/app/domains/auth.py:19-40 | a new cookie for the same identity exactly when a valid token is not yet expired and expires within the refresh window; otherwise the response is unchanged |
| AuthDomain.RenewedTokenIsNotRenewedAgain | flask-boilerplate/app/domains/auth.py:28-35 | at any instant, a token just issued with a lifetime of at least the refresh window plus one second (lost to the whole-second `exp`) is not refreshed again at once |
| AuthDomain.UsernameNeverEmpty | flask-boilerplate/app/domains/auth.py:63 | the username is never empty for a stored user, and is the phone number when both names are blank |
| AuthDomain.LoggedIn | flask-boilerplate/app/domains/auth.py:60-65 | the login body has exactly the id, the username and the role |
| AuthDomain.Login | flask-boilerplate/app/domains/auth.py:43-75 | only an active user is found: 404 when none, 401 on a wrong password, both without a write; otherwise last_login is set, the access cookie issued and 200 returned |
| AuthDomain.Registration | flask-boilerplate/app/domains/auth.py:100-110 | the new user is pending, with role 'user', the given phone number, plain password and names |
| AuthDomain.RegisterAsWritten | flask-boilerplate/app/domains/auth.py:86-113 | as indented: an active number gives 409, a pending one 409, an unknown number 200 with nothing saved and no id drawn, and a number held by a user with any other status (deactivated, inactive) gets a fresh id and a new pending user saved as `save()` decides, the unique phone index refusing it |
| AuthDomain.Register | flask-boilerplate/app/domains/auth.py:86-113 | corrected: the same two 409 answers, and every other number gets a fresh pending user saved, answering with the save's outcome |
| AuthDomain.UnknownNumberIsRegistered | flask-boilerplate/app/domains/auth.py:100-111 | for an unknown number and token a valid registration is stored and can be found by the phone number |
| AuthDomain.RegisteredUserIsPending | flask-boilerplate/app/domains/auth.py:100-111 | a successful registration stores the cleaned user, pending verification |
| AuthDomain.RegisterConfirm | flask-boilerplate/app/domains/auth.py:116-131 | unknown phone 404; already active 422; otherwise the status becomes 'active' and the answer is 200 |
| AuthDomain.ConfirmedUserCanLogIn | flask-boilerplate/app/domains/auth.py:128-129 | after confirmation the login query finds that user |
| AuthDomain.ChangePassword | flask-boilerplate/app/domains/auth.py:134-154 | unknown user 404; a wrong old password 409 with nothing written; otherwise the new password is saved and the answer follows the save |
| AuthDomain.PasswordChangeOfWellFormedUser | flask-boilerplate/app/domains/auth.py:150-154 | for a valid stored user the change succeeds and stores the new password's hash in place |
| AuthDomain.InactiveUserCannotChangePassword | flask-boilerplate/app/domains/auth.py:150-152 | a user the periodic task marked 'inactive' fails validation on save, so the password is not changed |
| UserDomain.PutUser | flask-boilerplate/app/domains/user.py:69-93 | an unparsable date gives 400 with no update; a name longer than 100 characters makes the update raise a ValidationError with nothing written; otherwise both names and the birth date are written together, 200 with the id, or 500 when nothing was modified |
| UserDomain.PutUserWritesDetails | flask-boilerplate/app/domains/user.py:84-88 | the update changes only that user's details |
| UserDomain.SetContact | flask-boilerplate/app/domains/user.py:104-113 | a key other than 'email' and 'telegram' raises KeyError |
| UserDomain.ContactsUpdate | flask-boilerplate/app/domains/user.py:104-113 | for known keys: the last value given per key wins, None clears, a new Telegram contact has no chat id, and keys not given are unchanged |
| UserDomain.UnknownContactKey | flask-boilerplate/app/domains/user.py:104-113 | the first unknown key raises KeyError with that key |
| UserDomain.ContactsJson | flask-boilerplate/app/domains/user.py:115 | the answer holds both contact keys, null when unset |
| UserDomain.UserContactsPost | flask-boilerplate/app/domains/user.py:96-115 | a KeyError leaves the store unchanged; otherwise the updated contacts are saved and returned, or the save's error raised |
| UserDomain.Splitext | flask-boilerplate/app/domains/user.py:127 | the extension is the final dot-started part of the name, and name plus extension give the input back |
| UserDomain.FromHexError | flask-boilerplate/app/domains/user.py:144 | `bytes.fromhex` fails at a position inside the text, or not at all; text holding a non-ASCII character fails at the first such character |
| UserDomain.GeneratedIdIsHex | flask-boilerplate/app/domains/user.py:151 | an id the application generates is always valid hexadecimal |
| UserDomain.AllowedMimeTypes | flask-boilerplate/app/domains/user.py:153-160 | the three allowed extensions map to `image/jpeg`, `image/jpg` and `image/png` |
| UserDomain.MediaBucket.UploadFileobj | flask-boilerplate/app/domains/user.py:155-163 | a successful upload stores exactly one object; a failure stores nothing |
| UserDomain.UserProfilePicturePost | flask-boilerplate/app/domains/user.py:118-168 | in order: no file 400, a bad extension 400, more than 200 KiB 400 (exactly the limit is allowed), a non-hex id or an upload failure raised; otherwise the object is uploaded under `profile-pic/<id><ext>` and the picture URL saved |
| AdminDomain.AdminRequired | flask-boilerplate/app/domains/admin.py:15-23 | the handler's answer for an admin; 401 for any other role |
| AdminDomain.GetUsersPage | flask-boilerplate/app/domains/admin.py:53-56 | a negative skip raises ValueError; otherwise a prefix of the active users after `page*size`, all of them active users of the collection |
| AdminDomain.GetUsersPageCount | flask-boilerplate/app/domains/admin.py:59-63 | size 0 divides by zero; otherwise the pair carries the active count |
| AdminDomain.PageCountIsCeiling | flask-boilerplate/app/domains/admin.py:63 | the formula gives 0 pages for no users and otherwise the ceiling of count/size |
| AdminDomain.PagesSliceActiveUsers | flask-boilerplate/app/domains/admin.py:53-63 | page p is the p-th slice of `size` active users, and it is non-empty exactly when p is below the page count |
| AdminDomain.FirstPageSize | flask-boilerplate/app/domains/admin.py:53-56 | the first page holds min(size, active count) users |
| AdminDomain.UserRow | flask-boilerplate/app/domains/admin.py:40-48 | a listed user has exactly the six public keys; password and access token are not among them |
| AdminDomain.AppendRows | flask-boilerplate/app/domains/admin.py:39-48 | the loop appends one row per user of the page, in page order |
| AdminDomain.AdminUsers | flask-boilerplate/app/domains/admin.py:26-50 | 401 for a non-admin; a malformed page raises ValueError; without a page, page 0 with page_count and total_active_users; with one, that page alone |
| AdminDomain.DefaultListing | flask-boilerplate/app/domains/admin.py:31-36 | the default listing holds min(size, count) rows, and at least one page is announced exactly when there are active users |
| UserTasks.DisableInactiveUsers | flask-boilerplate/app/tasks/user.py:11-30 | the threshold is now − 365 days (OverflowError in the first year); every idle active user becomes 'inactive'; the answer carries the count and the threshold's date |
| UserTasks.DisabledExactlyIdle | flask-boilerplate/app/tasks/user.py:14-24 | a user changes exactly when it is active and last logged in at or before the threshold, and then becomes 'inactive', outside the status choices |
| UserTasks.NoneSelected | flask-boilerplate/app/tasks/user.py:19-24 | a query that matches nobody counts zero |
| UserTasks.DisableIsIdempotent | flask-boilerplate/app/tasks/user.py:19-24 | for a fixed clock a second run disables nobody and changes nothing |
| WebhookDomain.AccessToken | flask-boilerplate/app/domains/webhook.py:19 | the body's token unless it is missing or falsy, then the query argument |
| WebhookDomain.TokenOwner | flask-boilerplate/app/domains/webhook.py:22 | a text token is looked up with `.get()`; an object is evaluated by the server as a document of query operators; a number, boolean, list or missing token finds no user |
| WebhookDomain.OperatorTokenSelects | flask-boilerplate/app/domains/webhook.py:19-22 | an object token selecting several users raises MultipleObjectsReturned, which the gate lets escape; one selecting a single user identifies that user |
| WebhookDomain.WebhookTokenRequired | flask-boilerplate/app/domains/webhook.py:16-32 | a token that selects nobody gives 401 'Invalid access token' without the handler; one that selects a single user runs the handler once with that user's id; MultipleObjectsReturned escapes |
| WebhookDomain.TokenIdentifiesUser | flask-boilerplate/app/domains/webhook.py:19-45 | under the unique token index the owner of a body token, or of a query token after an empty body, is found and the event accepted with 200 |
| WebhookDomain.UnknownTokenRefused | flask-boilerplate/app/domains/webhook.py:21-27 | a token nobody holds is refused with 401, from the body or the query |
| AnotherModels.SettingsClean | flask-boilerplate/app/models/another_model.py:23-26 | the only error is 'Dark theme requires notifications' |
| AnotherModels.SettingsValidExactly | flask-boilerplate/app/models/another_model.py:20-26 | settings are valid exactly for the light theme, or the dark theme with notifications on; the defaults are valid |
| AnotherModels.NewItem | flask-boilerplate/app/models/another_model.py:35-53 | a new document is a draft, active, priority 5, price 0, created and updated now, unpublished, untagged, default settings |
| AnotherModels.DefaultsAreValid | flask-boilerplate/app/models/another_model.py:35-53 | a new document with a name within 150 characters saves without error; the default priority lies in 1..10 |
| AnotherModels.CleanError | flask-boilerplate/app/models/another_model.py:67-68 | an error exactly for a negative price |
| AnotherModels.SaveError | flask-boilerplate/app/models/another_model.py:35-68 | no error exactly for a well-formed document; a negative price is reported under the non-field key |
| AnotherModels.SavedTwice | flask-boilerplate/app/models/another_model.py:70-74 | created_at is set once and kept; updated_at is the latest save's time |
| AnotherModels.Upsert | flask-boilerplate/app/models/another_model.py:74 | the saved document replaces the one with its id; the others are kept; ids stay distinct |
| AnotherModels.ItemStore.Write | flask-boilerplate/app/models/another_model.py:74 | the collection becomes `Upsert` of the document |
| AnotherModels.Where | flask-boilerplate/app/models/another_model.py:55-82 | a query filter keeps exactly the documents that satisfy it |
| AnotherModels.Newest | flask-boilerplate/app/models/another_model.py:32 | the default ordering: the same documents, newest created first |
| AnotherModels.ActiveObjects | flask-boilerplate/app/models/another_model.py:55-58 | exactly the active, non-archived documents, newest first |
| AnotherModels.SearchByTags | flask-boilerplate/app/models/another_model.py:79-82 | exactly the active documents sharing a tag with the query, newest first; an empty query finds nothing |
| AnotherModels.TagsAfterProperties | flask-boilerplate/app/models/another_model.py:84-88 | adding a tag is idempotent, keeps the old tags as a prefix, adds nothing else, and keeps tags duplicate-free |
| AnotherModels.AnotherModel.constructor | flask-boilerplate/app/models/another_model.py:35-53 | a new object holds the `NewItem` defaults |
| AnotherModels.AnotherModel.Clean | flask-boilerplate/app/models/another_model.py:60-68 | an active document without published_at gets one; a negative price raises |
| AnotherModels.AnotherModel.Save | flask-boilerplate/app/models/another_model.py:70-74 | the timestamps are set first, then the document is saved exactly when it validates |
| AnotherModels.AnotherModel.AddTag | flask-boilerplate/app/models/another_model.py:84-88 | an empty or present tag changes and saves nothing; otherwise it is appended and the document saved |
| AnotherModels.AnotherModel.Activate | flask-boilerplate/app/models/another_model.py:90-97 | published_at is kept if set, else set now; the status becomes active; a successful save puts the document among the active objects |
| WebsocketUtils.DataRun | flask-boilerplate/app/websocket/utils.py:11-17 | the number of data receives before the first non-data one |
| WebsocketUtils.WebsocketListener | flask-boilerplate/app/websocket/utils.py:11-17 | received data is ignored and nothing is sent; a disconnect ends the loop normally; any other exception escapes |
| WebsocketUtils.Step | flask-boilerplate/app/websocket/utils.py:29-40 | one item sends at most one message, exactly for a payload whose callback returns a truthy value |
| WebsocketUtils.ConsumedUpToDisconnect | flask-boilerplate/app/websocket/utils.py:25-44 | the listener takes every item up to and including the first disconnect |
| WebsocketUtils.PubsubListener | flask-boilerplate/app/websocket/utils.py:20-48 | the sends are the relay of the items; the loop reports a disconnect exactly when one arrives; every receive uses the given timeout |
| WebsocketUtils.FailureDoesNotStop | flask-boilerplate/app/websocket/utils.py:46-48 | any other exception is skipped and the later items are still relayed |
| WebsocketUtils.DisconnectStops | flask-boilerplate/app/websocket/utils.py:42-44 | nothing after a disconnect is relayed |
| WebsocketUtils.RelayIsTruthyReplies | flask-boilerplate/app/websocket/utils.py:25-40 | what is sent is the callback's truthy replies, in the order the payloads came |
| WebsocketJwt.AsciiUpper | flask-boilerplate/app/websocket/jwt.py:19 | on ASCII text Python's `str.upper` maps each character to its ASCII upper case and keeps the length |
| WebsocketJwt.AlgorithmAcceptedExactly | flask-boilerplate/app/websocket/jwt.py:18-23 | for an ASCII algorithm name the check accepts exactly the five characters `HS256` in any letter case |
| WebsocketJwt.LongSIsRefusedAsInvalid | flask-boilerplate/app/websocket/jwt.py:18-33 | `hſ256` upper-cases to `HS256` and passes the check, and verification then refuses it as 'Invalid access token' |
| WebsocketJwt.DecodeJwtToken | flask-boilerplate/app/websocket/jwt.py:15-33 | unsupported algorithm (named by its Unicode upper case), expired and invalid tokens each give their message; claims come back exactly for header `HS256` and a verified signature |
| WebsocketJwt.Authenticate | flask-boilerplate/app/websocket/jwt.py:40-52 | no cookie 'No access token provided'; a decode error passes its message; a user id exactly when the claims hold a truthy `sub` |
| WebsocketJwt.Rejection | flask-boilerplate/app/websocket/jwt.py:54-61 | accept, send `auth_error`, close with 1008, in that order |
| WebsocketJwt.WebsocketAuth | flask-boilerplate/app/websocket/jwt.py:37-66 | on success the handler is called once with the `sub` and nothing is sent; on failure the rejection sequence is performed and the handler is not called |
| AppInit.InitRequestContext | flask-boilerplate/app/__init__.py:88-96 | each request starts with the clock reading and no current user |
| AppInit.AppendApplicationHeaders | flask-boilerplate/app/__init__.py:100-104 | both headers are set: the user id or 'unauthenticated', and the request id; other headers are kept |
| AppInit.HeaderIdentifiesUser | flask-boilerplate/app/__init__.py:102 | the header reads 'unauthenticated' exactly when there is no user |
| AppInit.BadObject | flask-boilerplate/app/__init__.py:122-128 | 400 with exactly `msg: 'Bad Object'` and the schema error |
| AppInit.HandleBadRequest | flask-boilerplate/app/__init__.py:108-131 | a schema violation becomes 400 Bad Object and is logged only for the two event endpoints; any other error is passed on unchanged |
| AppInit.BindingsAt | flask-boilerplate/app/__init__.py:172-175 | for each event type in order, a durable queue `events.<type>` is declared and bound with the type as routing key |
| AppInit.Topology | flask-boilerplate/app/__init__.py:169-175 | the durable topic exchange `events` comes first, then the bindings |
| AppInit.EveryEventTypeIsRouted | flask-boilerplate/app/__init__.py:169-175 | every publishable event type has its queue and binding |
| AppInit.Declare | flask-boilerplate/app/__init__.py:169-175 | the exchange, then each type's queue and binding, are declared in order up to the first refusal, which is returned |
| AppInit.SetupRabbitmq | flask-boilerplate/app/__init__.py:162-185 | a failing `channel()` raises before the `try` with nothing borrowed or returned; otherwise the channel is borrowed and returned once, every operation is performed on success, and a failure stops at the first failing operation and is re-raised |

## Left out

- Flask, flask_jwt_extended, marshmallow and jsonschema are not modelled. That covers request parsing and JSON schema validation (`jwt_required`, `@expects_json`) and the encoding of responses. A handler receives already-parsed arguments, and its answer is a status with a JSON value.
- `get_user` only serializes the current user's document and `logout` returns a constant body; neither is modelled.
- `create_app`, `create_base_app`, `init_celery` and `init_mongo_indexes` set things up and are not modelled. The unique indexes on users' phone number and access token (and on `_id`) are the `Users.Unique` invariant of the store. The unique index on reports' `task_id` is not modelled.
- `app/websocket/events.py`, `app/logs.py`, `app/schemas.py` and `app/jwt.py` are not part of this model. Where the core calls them, they are parameters (the pub/sub callback, the current user).
- Logging calls are left out everywhere.
- Concurrency is left out: the asyncio tasks of the websocket service, concurrent requests and a concurrent write between a read and a `save()`.
- Each call reads the clock once, and that reading is a parameter. Where the source takes several readings in one call (`AnotherModel.save` with its `clean` for `published_at`, `created_at` and `updated_at`; `AnotherModel.activate`, whose own `published_at` reading precedes those of `save`), all of them are the same instant.
- bcrypt, PyJWT, `strptime`, `secure_filename`, Mongo's EmailField/URLField checks, the server's evaluation of query-operator documents, S3, Python's Unicode upper-case table and the answers of the transports (Redis publish, channel borrow, channel calls, Celery's `apply_async`) are function parameters. Their own behaviour is not modelled.
- `md5` in the profile-picture handler computes a value that is never used, and is left out.
- `ObjectId()` is modelled as a counter written as 24 hexadecimal digits. Its timestamp/random layout is not modelled.
- ReportDomain.TaskQueue.ApplyAsync: Celery's task id is a random `uuid4` of 36 characters with hyphens; the model issues distinct ids from a counter, as hexadecimal digits without hyphens.
- UserModel.ValidateExactly: only the first failing field's error is modelled. mongoengine collects the errors of all fields into one ValidationError, but the model keeps only that first one.
- Users.SaveOutcome: the unique-index check is on phone number and access token only (and `_id` by replacement). Index creation options are not modelled.
- ReportModel.ReportStore.Save: datetimes are kept with microseconds. MongoDB stores milliseconds, so a reloaded `created_at` or `completed_at` (ReportDomain.ReportJson, ReportDomain.ListItemJson) loses its sub-millisecond digits; the model does not truncate.
- ReportDomain.SortNewest: two reports created within the same millisecond tie in MongoDB's `-created_at` order; the model orders them by their microseconds.
- UserTasks.DisableInactiveUsers: the stored `last_login` values are millisecond-truncated in MongoDB while the threshold is compared with microseconds; the model compares the untruncated instants, which can differ by less than a millisecond at the boundary.
- ReportTask.ProcessReport: `build_report` is taken to return a dict, as the `result_data` DictField requires; a non-dict result would make the final save raise a ValidationError, which is not modelled.
- Users.UserStore.Save: datetimes (`signup_date`, `last_login`, `last_topup`) are kept with microseconds; MongoDB stores milliseconds and the model does not truncate.
- Users.UserStore.Save: a save replaces the whole document. mongoengine sends only the changed fields with `$set`, which gives the same document when there are no concurrent writers.
- Users.UserStore.TopupBalance: integers are unbounded. The 64-bit limit of Mongo's `$inc` is not modelled.
- AnotherModels.ItemDoc: the `metadata` DictField and `__str__` are not modelled. The price is an integer number of hundredths, so `DecimalField`'s rounding at two places is not modelled.
- AnotherModels.SaveError: the Email/URL checks of mongoengine are oracles. It reports only the first failing field, as UserModel.ValidateExactly does.
- UserTasks.DisableInactiveUsers: `strftime('%Y')` is modelled as padding the year to four digits. That only differs from glibc for years below 1000.
- AdminDomain.AdminRequired: werkzeug's 401 HTML page is modelled by its title.
- WebsocketUtils.WebsocketListener: the service waits forever. The model stops when the finite input is used up (it then reports `Waiting`).
- WebsocketUtils.PubsubListener: the same holds, and the channel id only appears in log lines.
- WebsocketJwt.DecodeJwtToken: PyJWT's verification is an oracle answering claims, expired or invalid. The "only HS256" list of `jwt.decode` is modelled as requiring the header to say exactly `HS256`.
- UserDomain.AllowedMimeTypes: `.jpg` gives the type `image/jpg`, as the code computes it, not the registered `image/jpeg`.

`process_report` sets `completed_at` only on success (`app/tasks/report.py:39-48`); on failure it keeps its earlier value, as `ReportTask.Finished` states.

## Findings

| source | as written | input that shows it | evidently intended | confidence | as-written member | corrected member |
|---|---|---|---|---|---|---|
| flask-boilerplate/app/domains/report.py:104 | `min(int(limit), 100)` has no lower bound. Mongo's `limit(0)` means no limit and a negative limit means its absolute value, so the cap of 100 is bypassed | `GET /reports?limit=0` with 101 matching reports lists all 101 | the limit stays between 1 and 100 ("Max 100") | high, not executed | ReportDomain.ReportsListAsWritten, ReportDomain.LimitZeroExceedsCap | ReportDomain.ReportsList, ReportDomain.ReportsListCapped |
| flask-boilerplate/app/domains/auth.py:93-113 | the user construction and `save()` are indented inside `if found_user:`, after both status checks | registering a phone number no user has answers 200 "user registered successfully" and stores nothing | an unknown number gets a new pending user | high, not executed | AuthDomain.RegisterAsWritten | AuthDomain.Register, AuthDomain.UnknownNumberIsRegistered |
| flask-boilerplate/app/models/user.py:36 | `[.-_]` is the character range from `.` to `_`. It excludes `-` and includes `@`, digits and capitals | `a-b@cd.ef` is rejected and `a@b@cd.ef` is accepted | the separators `.`, `-` and `_`, with exactly one `@` | medium, not executed | UserModel.ValidateEmailAsWritten, UserModel.EmailAsWrittenFinding | UserModel.ValidateEmail, UserModel.EmailAcceptsHyphen, UserModel.EmailHasOneAt |
