# jot: a verified model of its request-handling core

jot is a notes service (actix-web, PostgreSQL, Redis sessions). This project
models the parts of it that decide things, and proves what they promise:

- **Rate limiting** (`src/middleware/rate_limit.rs`). A sliding-window limiter
  keeps, per client key, the instants of the requests it admitted. A request
  is admitted when fewer than `max_requests` of them are later than
  `now - window`; the key is the user id, else the peer address, else
  `"unknown"`. The limiter is a class whose `IsAllowed` method updates a
  `map<string, seq<int>>`. Over any run of calls at non-decreasing instants,
  with a window of at least one time unit, the records stay sorted, and they stay equal to "the admissions after the
  last cutoff"; as a result no window ever holds more than the limit.
- **Credential validation and login** (`src/authentication/password.rs`,
  `src/routes/login.rs`). `ValidateCredentials` is a method proved against the
  function `Outcome`. A ghost trace records the hash handed to the verifier:
  the stored one, or the fixed dummy hash for an unknown email. The login
  handler maps refused credentials to 401 and everything else to 500. It
  touches the session only after a successful validation, and then renews
  the session before storing the user id.
- **Domain validators** (`src/domain/*.rs`). These cover the password policy,
  note title, note content, tag name, `NewUser`, `NewNote` and `UpdateNote`.
  Each parser is accepted exactly when a declarative predicate holds. The
  first failing check decides the message, and an accepted value is stored
  as given (a tag name lowercased).
- **Listing parameters** (`src/routes/notes/list.rs`). This part covers the
  defaults, the page clamp, the page-size clamp, the offset, the sort-column
  whitelist, the sort order, which filters the queries apply, and how an
  item's tag list is reported.
- **Partial note update** (`src/routes/notes/update.rs`). The id is checked
  first, then the body, then the note is looked up by id and owner. A
  provided field replaces the stored one and an absent field is kept. The
  notes table is a class holding a map from note id to row, and only the
  caller's own note can change.

Code that cannot be seen from here is passed in as a parameter:
- Argon2, as two functions: "parses as a PHC string" and "verifies";
- the e-mail validator;
- the UUID parser;
- PostgreSQL's full-text match;
- the inner service behind the middleware.

Clocks are replaced by integer instants passed in by the caller. The failure
of a query, of the blocking task or of the session store is a boolean
parameter.

One module per source file:
- `rate_limit.dfy`, `password.dfy`, `login.dfy`, `notes_list.dfy` and
  `notes_update.dfy` model the handlers and the middleware;
- `user_password.dfy`, `user_email.dfy`, `user.dfy`, `note_title.dfy`,
  `note_content.dfy`, `note.dfy` and `tag.dfy` model the domain types;
- `text.dfy` holds the Rust `str`/`char` operations they use;
- `wrappers.dfy`, `ids.dfy` and `http.dfy` hold Option/Result, the UUID and
  the response type.

## Model

| member | source | states |
|---|---|---|
| RateLimit.Retained | src/middleware/rate_limit.rs:42 | `retain(time > cutoff)` keeps no more than it had, and only instants strictly later than the cutoff |
| RateLimit.RetainedCount | src/middleware/rate_limit.rs:42-44 | the number of instants kept is the number of positions holding an instant strictly later than the cutoff; an instant equal to the cutoff does not count |
| RateLimit.RetainedMultiset | src/middleware/rate_limit.rs:42 | each instant is kept as often as it occurs if it is later than the cutoff, and never otherwise |
| RateLimit.RetainedMembers | src/middleware/rate_limit.rs:42 | an instant is kept iff it was on record and is later than the cutoff |
| RateLimit.RetainedAppend | src/middleware/rate_limit.rs:42-45 | retaining distributes over concatenation, so pruning after a push is pruning before it plus the pushed instant |
| RateLimit.RetainedSorted | src/middleware/rate_limit.rs:42 | `retain` keeps the order: a sorted record stays sorted |
| RateLimit.RetainedTwice | src/middleware/rate_limit.rs:36-42 | pruning at one cutoff and then at a later one is pruning once at the later one |
| RateLimit.RetainedAll | src/middleware/rate_limit.rs:42 | a record whose instants are all later than the cutoff is kept whole |
| RateLimit.RateLimiter.constructor | src/middleware/rate_limit.rs:24-30 | a new limiter has the given limit and window and an empty store |
| RateLimit.RateLimiter.IsAllowed | src/middleware/rate_limit.rs:32-50 | admitted iff fewer than the limit of the key's instants are strictly later than `now - window`; the key's record becomes the pruned record plus `now` exactly when admitted, it is created even on a denial, no other key changes, and every record stays within the limit |
| RateLimit.WithinLimitStep | src/middleware/rate_limit.rs:44-45 | one call keeps every key's record at or under the limit |
| RateLimit.ChronologicalStep | src/middleware/rate_limit.rs:42-45 | a sorted record with nothing later than `now` stays so after pruning and pushing `now` |
| RateLimit.ChronologicalStoreStep | src/middleware/rate_limit.rs:34-45 | a call at an instant not before the previous one keeps every record sorted and not later than that instant |
| RateLimit.TrackedStep | src/middleware/rate_limit.rs:36-45 | the key's record after a call is exactly its admissions (the new one included) later than the new cutoff |
| RateLimit.TrackedStoreStep | src/middleware/rate_limit.rs:36-49 | one call keeps every record equal to its key's admissions after that key's last cutoff; the queried key's admissions inside the current window never exceed the limit |
| RateLimit.InOrderCall | src/middleware/rate_limit.rs:32-50 | a call in a run at non-decreasing instants keeps both store invariants, adds `now` to the key's admissions exactly when admitted, and leaves at most the limit of them in the window |
| RateLimit.AdmittedTimesPrefix | src/middleware/rate_limit.rs:44-45 | a later decision does not change which earlier requests were admitted |
| RateLimit.RunCall | src/middleware/rate_limit.rs:32-50 | the i-th call of a run extends the admissions by that call's outcome and keeps the window bound |
| RateLimit.AdmitRun | src/middleware/rate_limit.rs:32-50 | for any run of requests from one key at non-decreasing instants on a fresh limiter with a positive window, the admitted requests in the window ending at the last request are never more than the limit |
| RateLimit.RequestKey | src/middleware/rate_limit.rs:91-97 | the key is the user id's text when a user id is attached, else the peer IP, else `"unknown"` |
| RateLimit.KeyFollowsIdentity | src/middleware/rate_limit.rs:91-97 | one user has one budget whatever address it comes from; anonymous requests from one address share one budget |
| RateLimit.TooManyRequests | src/middleware/rate_limit.rs:99-102 | the refusal carries status 429 and the JSON body `{"error": "Rate limit execeeded. Please try again later"}` (the misspelling is the source's) |
| RateLimit.RateLimiterMiddleware.Call | src/middleware/rate_limit.rs:90-109 | the inner service is called, and its response returned unchanged, exactly when the limiter admits the request's key; otherwise the answer is the 429 response; the limiter's store changes as one `is_allowed` call on that key |
| RateLimit.AdmitAtOnce | src/middleware/rate_limit.rs:128-132 | for any positive window and any instant, up to the limit of requests at that instant from a key with no record are all admitted, and the record holds that instant once per request |
| RateLimit.BlocksOverLimit | src/middleware/rate_limit.rs:118-155 | for any limit, that many requests at once are all admitted and the next is refused (the tests' 5 admitted, and 3 then a 429) |
| RateLimit.KeysIndependent | src/middleware/rate_limit.rs:38-49 | with a limit of 1, a second request from a key is refused while a first one from another key is admitted |
| RateLimit.WindowSlides | src/middleware/rate_limit.rs:36-44 | with a limit of 1 and a window of 60, a request 59 after an admitted one is refused and one 60 after it is admitted, because an instant equal to the cutoff is dropped |
| RateLimit.ZeroLimitAdmitsNothing | src/middleware/rate_limit.rs:44-48 | a limit of zero admits nothing |
| Password.AuthError.Message | src/authentication/password.rs:9-15 | refused credentials read "Invalid credentials."; an unexpected error shows the error it wraps |
| Password.GetStoredCredentials | src/authentication/password.rs:74-91 | an unreachable store is an error carrying the query's context message; otherwise the row for the email, present iff the email is known |
| Password.VerifyPasswordHash | src/authentication/password.rs:57-71 | success iff the hash parses and the candidate verifies; a hash that does not parse is an unexpected error, a candidate that does not verify is refused credentials |
| Password.ValidateCredentials | src/authentication/password.rs:22-51 | the result is `Outcome`; a failed lookup verifies nothing, and past it exactly one hash is verified: the stored one for a known email, the dummy hash otherwise |
| Password.OkIffStoredHashVerifies | src/authentication/password.rs:35-50 | `Ok(id)` iff the store is reachable, the task runs, the email is known with that id, and the candidate verifies against that user's stored hash |
| Password.UnknownEmailRefused | src/authentication/password.rs:27-50 | an unknown email is refused credentials even when the candidate verifies against the dummy hash |
| Password.WrongPasswordRefused | src/authentication/password.rs:64-70 | a known email with a wrong password is refused credentials |
| Password.RefusalsIndistinguishable | src/authentication/password.rs:48-70 | an unknown email and a wrong password fail with the same message |
| Password.QueryFailureUnexpected | src/authentication/password.rs:35-40 | a failed lookup is an unexpected error, whatever the credentials |
| Password.MalformedHashUnexpected | src/authentication/password.rs:61-62 | a stored hash that is not a PHC string is an unexpected error, not refused credentials |
| Password.TaskFailureUnexpected | src/authentication/password.rs:42-46 | a blocking task that does not complete is an unexpected error |
| Login.LoginError.StatusCode | src/routes/login.rs:26-33 | an authentication error answers 401 and an unexpected error 500, each exactly then |
| Login.LoginError.Message | src/routes/login.rs:12-18 | "Invalid credentials: " and the cause, or "Something went wrong" |
| Login.LoginError.ToResponse | src/routes/login.rs:26-33 | every error answers 401 or 500 with a text body, and the text begins "Invalid credentials: " exactly for an authentication error |
| Login.FromAuthError | src/routes/login.rs:52-57 | refused credentials become an authentication error and nothing else does; the cause is the validation error's text |
| Login.ValidationStatus | src/routes/login.rs:52-57 | refused credentials answer 401 and an unexpected failure 500 |
| Login.RefusalResponseIsFixed | src/routes/login.rs:52-55 | every refusal of credentials gets the same 401 response, whose text does not tell an unknown email from a wrong password |
| Login.TypedSession.constructor | src/routes/login.rs:43 | a session with a key, no user id and no operations |
| Login.TypedSession.Renew | src/routes/login.rs:59 | the key changes to a new one different from the current key; the user id is kept |
| Login.TypedSession.InsertUserId | src/routes/login.rs:60-62 | the user id is stored unless the store fails, which is reported as an error |
| Login.LoginSuccess | src/routes/login.rs:64-67 | the success answer is 200 with the JSON body `{"message": "Login successful", "user_id": id}` |
| Login.SuccessUnlikeError | src/routes/login.rs:64-67 | the success answer (200, JSON) differs in status from every error answer |
| Login.HandleLogin | src/routes/login.rs:40-68 | a failed validation answers its mapped error and leaves the session untouched; a success renews the session to a key different from the old one and then stores the validated id, in that order; a failed insert answers 500; otherwise the answer is 200 with that id |
| Login.LoginReportsSessionUser | src/routes/login.rs:59-67 | login answers 200 iff validation succeeds and the session store accepts the id; then the id in the body is the id the session holds, and otherwise the session holds no id |
| UserPassword.Parse | src/domain/user_password.rs:9-31 | accepted iff 8 to 128 UTF-8 bytes with an ASCII digit and an ASCII letter; each message exactly when its check is the first to fail; the secret is the input |
| UserPassword.ParseErrorIsPolicyMessage | src/domain/user_password.rs:10-24 | every refusal carries one of the four policy messages |
| UserPassword.LengthCountsBytes | src/domain/user_password.rs:10 | the limits count bytes: five characters that take eight bytes already meet the minimum |
| UserPassword.ShortPasswordRefused | src/domain/user_password.rs:10-12 | an ASCII password under 8 characters is too short (the registration test's "short1") |
| UserPassword.LongPasswordRefused | src/domain/user_password.rs:14-16 | any password of more than 128 characters is too long |
| UserPassword.PasswordWithoutDigitRefused | src/domain/user_password.rs:18-20 | a password of lower-case letters only is refused for lacking a digit |
| UserPassword.PasswordWithoutLetterRefused | src/domain/user_password.rs:22-24 | a password of digits only is refused for lacking a letter |
| UserPassword.AsciiPasswordAcceptance | src/domain/user_password.rs:9-26 | on ASCII text the byte limits are character limits |
| UserEmail.Parse | src/domain/user_email.rs:7-17 | accepted iff not blank and the validator accepts; a blank address is "empty", anything else the validator refuses is "not a valid email address"; the stored address is the input |
| User.Parse | src/domain/user.rs:20-25 | accepted iff both parts are; the fields are the inputs unchanged; an e-mail error wins, and a bad password with a good e-mail gives the policy's message |
| User.EmailCheckedBeforePassword | src/domain/user.rs:22-23 | with both parts bad, the error is about the e-mail, not a password message |
| NoteTitle.Parse | src/domain/note_title.rs:7-29 | accepted iff not blank, at most 200 characters and free of the nine forbidden characters; each message exactly when its check is the first to fail; stored verbatim |
| NoteTitle.EmptyTitleRefused | src/domain/note_title.rs:14-15 | the empty title is refused as empty |
| NoteTitle.SpacesTitleRefused | src/domain/note_title.rs:8-15 | a title of spaces is refused as empty |
| NoteContent.Parse | src/domain/note_content.rs:7-21 | accepted iff not blank; stored verbatim; accepted content has a character that is not whitespace |
| NoteContent.NoLengthLimit | src/domain/note_content.rs:12-13 | accepted content stays accepted, verbatim, whatever is appended to it: no length bound applies |
| Note.ParseNewNote | src/domain/note.rs:24-33 | accepted iff title and content are; the user id is copied; the title's error wins over the content's |
| Note.ParseUpdateNote | src/domain/note.rs:43-58 | accepted iff at least one field is given and each given field is valid; a given field becomes its parsed value, an absent one stays absent; errors in the order title, content, "at least one field" |
| Note.OneBadFieldRejectsUpdate | src/domain/note.rs:44-52 | one invalid field rejects the update even when the other is valid |
| Tag.ParseTagName | src/domain/tag.rs:8-31 | accepted iff not blank, at most 50 characters and made of alphanumerics, `-` and `_`; each message exactly when its check is the first to fail; stored lower-cased |
| Tag.ParseNewTag | src/domain/tag.rs:54-57 | the name's error is passed on; on success the user id is kept and the name is stored lower-cased |
| Tag.StoredNameIsLowercase | src/domain/tag.rs:23 | a stored name has the input's length and no capital letter |
| Tag.LowercaseNameStoredVerbatim | src/domain/tag.rs:23 | a valid name without capitals is stored exactly as given |
| Tag.PlainNameAccepted | src/domain/tag.rs:8-25 | a name of 1 to 50 lower-case letters, digits, `-` and `_` is accepted unchanged |
| Tag.WorkAccepted | tests/api/tag.rs:61-66 | "work" is accepted |
| Tag.HyphenatedNameAccepted | tests/api/tag.rs:61-66 | "my-tag" is accepted |
| Tag.UnderscoredNameAccepted | tests/api/tag.rs:61-66 | "tag_123" is accepted |
| Tag.ManyHyphensAccepted | tests/api/tag.rs:61-66 | "tag-with-hyphens" is accepted |
| Tag.CapitalsStoredLowercased | src/domain/tag.rs:23 | "Work" is accepted and stored as "work" |
| Tag.EmptyNameRefused | tests/api/tag.rs:35-36 | the empty name is refused as empty |
| Tag.SpacesNameRefused | tests/api/tag.rs:35-37 | a name of spaces is refused as empty |
| Tag.PunctuatedNameRefused | src/domain/tag.rs:12-21 | any non-blank name of at most 50 characters with a space, `@` or `!` in it is refused as badly formed |
| Tag.SpacedNameRefused | tests/api/tag.rs:38 | "tag name" is refused as badly formed |
| Tag.AtSignNameRefused | tests/api/tag.rs:39 | "tag@name" is refused as badly formed |
| Tag.BangNameRefused | tests/api/tag.rs:40 | "tag!name" is refused as badly formed |
| Tag.LongNameRefused | src/domain/tag.rs:10-19 | any non-blank name over 50 characters is refused as too long |
| Text.TrimStart | src/domain/note_title.rs:8 | what is left is a suffix of the input that does not start with whitespace |
| Text.TrimStartDropsBlank | src/domain/note_title.rs:8 | what `trim_start` drops is whitespace only |
| Text.TrimEnd | src/domain/note_title.rs:8 | what is left is a prefix of the input that does not end with whitespace |
| Text.TrimEndDropsBlank | src/domain/note_title.rs:8 | what `trim_end` drops is whitespace only |
| Text.TrimEmptyIffBlank | src/domain/note_content.rs:8 | `trim().is_empty()` holds exactly for the blank strings |
| Text.Utf8LenBounds | src/domain/user_password.rs:10-16 | a string's byte length is between its character count and four times that |
| Text.Utf8LenAscii | src/domain/user_password.rs:10-16 | on ASCII text the byte length is the character count |
| Text.Utf8LenAppend | src/domain/user_password.rs:10-16 | the byte length of a concatenation is the sum of the byte lengths |
| Text.ToLowercase | src/domain/tag.rs:23 | lower-casing keeps the length, leaves no ASCII capital, turns each capital into its small letter and keeps every other character |
| Text.ToLowercaseIsLower | src/domain/tag.rs:23 | lower-casing leaves no capital and is idempotent |
| NotesList.FromQuery | src/routes/notes/list.rs:7-37 | an absent page, page size, sort or order takes its default; the other parameters pass through |
| NotesList.EffectivePage | src/routes/notes/list.rs:64 | the page is at least 1, and at least the requested one |
| NotesList.EffectivePageSize | src/routes/notes/list.rs:65 | the size is between 1 and 100: an in-range size is kept, a smaller one becomes 1, a larger one 100 |
| NotesList.Wrap64 | src/routes/notes/list.rs:66 | two's-complement wrap-around: a 64-bit value is unchanged, and any value is congruent to its wrapped form |
| NotesList.OffsetAsWrittenGoesNegative | src/routes/notes/list.rs:66 | as written, the largest page with a page size of 100 gives the offset -200 |
| NotesList.Offset | src/routes/notes/list.rs:66 | the offset is never negative, is a multiple of the page size, is 0 on page 1, and is exactly `(page - 1) * page_size` whenever that product is a 64-bit value |
| NotesList.OffsetAgreesWhenNoOverflow | src/routes/notes/list.rs:66 | where the product fits, the corrected offset is the written one |
| NotesList.PagesAreConsecutive | src/routes/notes/list.rs:66 | each page starts one page size after the previous one |
| NotesList.ValidateSortField | src/routes/notes/list.rs:109-116 | the column is always in the whitelist; a whitelisted column is kept and anything else becomes `created_at` |
| NotesList.ValidateSortFieldIdempotent | src/routes/notes/list.rs:109-116 | whitelisting twice is whitelisting once |
| NotesList.SortOrder | src/routes/notes/list.rs:69-73 | `ASC` iff the lower-cased parameter is "asc", otherwise `DESC` |
| NotesList.SortOrderIgnoresCase | src/routes/notes/list.rs:69-73 | "ASC", "Asc" and "asc" sort ascending; the default sorts descending |
| NotesList.LowercaseOfAsc | src/routes/notes/list.rs:69 | any capitalisation of "asc" lower-cases to "asc" |
| NotesList.SelectFilters | src/routes/notes/list.rs:128-157 | the tag tables are joined and the tag filtered iff a tag is given; the text search applies iff the term is given and not empty; the date bounds apply when given |
| NotesList.EmptySearchSelectsAll | src/routes/notes/list.rs:135-142 | an empty search term selects exactly what no term selects |
| NotesList.NoFilterSelectsOwnNotes | src/routes/notes/list.rs:132-133 | without filters, exactly the user's own notes are selected |
| NotesList.TagsField | src/routes/notes/list.rs:235 | an item's tags are absent iff the note has none, and otherwise exactly its tags |
| NotesList.Normalise | src/routes/notes/list.rs:64-73 | the plan uses the clamped page and size, their offset, the whitelisted column, the chosen order and the filters |
| NotesList.DefaultsListNewestFirst | src/routes/notes/list.rs:23-73 | a request without parameters gets page 1 of 20, offset 0, newest first, unfiltered |
| NotesList.PageSizeClamped | src/routes/notes/list.rs:65 | a page size of 200 becomes 100 and 0 becomes 1 (the listing test's values) |
| NotesList.ResponseEchoesNormalised | src/routes/notes/list.rs:101-106 | the response reports the page and size actually used, the notes and the count |
| NotesUpdate.UpdateNoteError.StatusCode | src/routes/notes/update.rs:40-48 | 400 exactly for a validation error or a bad id, 404 exactly for a missing note, 500 exactly for an unexpected error |
| NotesUpdate.UpdateNoteError.Message | src/routes/notes/update.rs:22-32 | each error's text, validation errors prefixed with "Invalid input: " |
| NotesUpdate.Merge | src/routes/notes/update.rs:94-109 | a provided field replaces the stored one, an absent one is kept; the owner and the creation time stay, and the change time is `now` |
| NotesUpdate.MergeIdempotent | src/routes/notes/update.rs:94-103 | applying one update twice is applying it once |
| NotesUpdate.FullUpdateOverwrites | src/routes/notes/update.rs:94-103 | an update with both fields makes the stored text irrelevant |
| NotesUpdate.ParsedUpdateStoredVerbatim | src/routes/notes/update.rs:94-103 | a provided title or content is stored exactly as sent |
| NotesUpdate.CheckRequest | src/routes/notes/update.rs:62-65 | a bad id is reported exactly when the id does not parse, whatever the body; a validation error exactly when the id parses and the body does not; otherwise the parsed id and update |
| NotesUpdate.InvalidIdBeforeBody | src/routes/notes/update.rs:62 | a bad id answers 400 "invalid id" even with an empty body |
| NotesUpdate.EmptyBodyRejected | src/routes/notes/update.rs:64-65 | an update with neither field answers 400 with the "at least one field" message |
| NotesUpdate.StatusOf | src/routes/notes/update.rs:40-69 | success answers 200, an error its own status |
| NotesUpdate.NotesTable.constructor | src/routes/notes/update.rs:73-78 | a table holding the given rows |
| NotesUpdate.NotesTable.UpdateNoteInDb | src/routes/notes/update.rs:73-127 | a failed query changes nothing; a note that is missing or someone else's is "not found" and unchanged; otherwise exactly that row becomes the merged row and the answer shows it as stored |
| NotesUpdate.NotesTable.HandleUpdate | src/routes/notes/update.rs:56-70 | a request refused before the database changes nothing; once both checks pass, the answer is what the database step gives: a failed query is a 500 with nothing changed, a missing or foreign note is "not found" with nothing changed, otherwise the caller's note becomes the merged row and the answer shows it; other users' notes never change and no note appears or disappears |

## Left out

- Argon2 is not modelled. Whether a hash parses and whether a candidate verifies are given functions. The timing equality that the dummy hash exists to provide cannot be stated here; only the trace of verified hashes is.
- `compute_password_hash` and the second `verify_password_hash` in `src/domain/user_password.rs` are left out. Neither is called by the core, they need a random salt, and the second does not compile (`&tr`).
- The blocking-task handoff is a boolean parameter for "the task did not complete". In the model verification is computed before that flag is tested; the outcome is the same.
- The limiter's `Arc<Mutex<…>>` is dropped. Calls are sequential, and every middleware shares one limiter object.
- Clocks are not modelled: `Instant::now` is the `now` parameter, and the time written by `NOW()` in the update is `now` as well. Instants are integers. A `now - window` that would underflow an `Instant` (and panic) is an ordinary negative integer.
- RateLimit.InOrderCall, RateLimit.RunCall and RateLimit.AdmitRun: the run invariants are stated for a positive window only; with a window of 0 the pushed instant equals the cutoff of the next call at the same instant.
- Client keys are never evicted, as in the source: the key set only grows.
- RateLimit.RateLimiterMiddleware.Call: the inner service is a pure function and `forwarded` is a ghost record of the admission, so "the service is called exactly when admitted" holds by construction; what the contract adds is that the answer is the service's response.
- RateLimit.RateLimiterMiddleware.Call: the request passed on is the same value; request extensions and the peer address are reduced to an optional user id and an optional IP text.
- Database access is left out: the SQL text, its execution, how rows are mapped and ordered, `LIMIT`/`OFFSET` paging, the count query, and `get_note_tags`.
  - The listing is modelled by the plan it hands to the queries and by the filters as a predicate on a note.
  - The update works on a map from note id to row.
  - A failed query is a boolean parameter.
- The two listing queries build the same filters, so the filters are modelled once. Both join the title and the content with one space.
- The page query's `SELECT` lacks a comma between `n.title` and `n.content` (list.rs:177). The model follows the evident intent: both columns are selected.
- In `update_note_in_db`, a failing query's error converts into `UpdateNoteError` with `?`, but no conversion from the database error exists. It is modelled as an unexpected error (500). Its text, `NotesUpdate.QUERY_FAILED`, is a placeholder: with `#[error(transparent)]` the body would be the database error's own text, which the model does not know.
- Dates are integers: `to_rfc3339` formatting and `DateTime` parsing of `from`/`to` are not modelled. `UpdateNoteResponse.updatedAt` is the instant itself.
- UUIDs are their canonical text. `Uuid::parse_str` is a given function from text to an optional UUID.
- The `validator` crate's e-mail check is a given predicate.
- PostgreSQL's English full-text match is a given predicate on the joined title and content and the search term.
- Text.GraphemeCount: counts Unicode scalar values, not extended grapheme clusters. The two agree when every grapheme cluster is a single scalar value; they differ on, for instance, `"\r\n"`, flag emoji and ZWJ sequences.
- Text.IsAlphanumeric: restricted to ASCII letters and digits. Letters and numbers of other scripts count as not alphanumeric, so such tag names are refused here but accepted by the source.
- Text.ToLowercase: lower-cases ASCII only. Other scripts are kept as they are. This is exact for the `"asc"` comparison and for ASCII tag names.
- The password limits count UTF-8 bytes, as `len()` does, although the messages speak of characters.
- The session-storage back end behind `TypedSession` is not part of this model. `TypedSession`'s `renew` and `insert_user_id` are modelled from their use in `login.rs`. The fresh key that `renew` issues is a parameter required to differ from the current key, and a failing insert is a boolean parameter.
- The error-chain `Debug` formatting and the tracing spans are left out.
- The response body of an error is modelled as its `Display` text, which is what actix-web writes for a `ResponseError`.

## Findings

| source | as written | input that shows it | evidently intended | confidence | as-written member | corrected member |
|---|---|---|---|---|---|---|
| src/routes/notes/list.rs:66 | `offset = (page - 1) * page_size` in 64-bit arithmetic, with `page` taken unbounded from the query string; a release build wraps the product and a debug build panics | `page=9223372036854775807&page_size=100` gives offset -200 | a non-negative offset, a multiple of the page size, equal to the product whenever it fits in 64 bits | not executed | NotesList.OffsetAsWrittenGoesNegative | NotesList.Offset |
