# Barak Job Portal: a Dafny model of its posting store and request rules

The job portal stores postings (`Job`) and administrator accounts (`User`).
They live either in a hosted database or, when none is configured, in two
JSON files. A second, browser-side store keeps postings in `localStorage`.
Route handlers validate requests and wrap results in JSON envelopes. The
home page filters the listing, and the admin panel turns a requirements
text box into a list and back.

This project models those parts:

- **Records** (`records.dfy`). The two entities and the record operations
  both stores use: the creation spread, the shallow merge `{...old, ...updates}`,
  first-match search, and removal by identifier.
- **FileStore** (`file_store.dfy`). The file fallback of `lib/db.ts` as a
  class `JobFiles`. The parsed file contents are its fields. Each operation
  is a method that reads the whole list, changes it and writes it back.
- **Hosted** (`hosted.dfy`). The adapter half of `lib/db.ts`, as pure
  functions:
  - the row-to-record mapping (NULL or empty becomes absent);
  - the record-to-insert-row mapping (absent or empty becomes NULL);
  - the partial-update patch builder;
  - what each hosted function makes of the query's `{ data, error }` reply.
- **Db** (`db.dfy`). The public façade: every operation picks the hosted
  adapter exactly when the configured flag is set.
- **MemoryStore** (`memory_store.dfy`). `lib/jobs.ts` as a class `JobCache`.
  It holds the server-side cache and the browser's saved entry. It also
  gives the load rule, the newest-first sort and the three list updates.
- **JobsRoute**, **SubmitRoute**, **LoginRoute** (`jobs_route.dfy`,
  `submit_route.dfy`, `login_route.dfy`). Each handler is a function from
  the request body (and the store call's result) to a status and envelope.
  A store call is passed in as a function value, so a lemma can show that a
  rejected request does not depend on it.
- **HomePage**, **AdminPage** (`home_page.dfy`, `admin_page.dfy`). The
  search filter, and the admin form's requirements conversion and defaults.
- **Common**, **Seqs**, **Text** (`common.dfy`, `seqs.dfy`, `text.dfy`).
  The JavaScript these rest on, written out:
  - `undefined` and truthiness, and `||` defaults;
  - `filter` and `findIndex`;
  - `trim`, `split`, `join`, `includes`, ASCII `toLowerCase`;
  - `String(n)`;
  - the quote doubling `replace(/'/g, "''")`, with an SQL literal reader to
    show that a quoted value reads back.

Modelling conventions:

- **Absent values.** A JavaScript optional string is an `Option<string>`. SQL
  NULL is the separate `Hosted.Nullable.Null`. Empty strings are kept
  distinct from absence, because most of the rules turn on that difference.
- **Field names.** The TypeScript field `type` is called `kind`. It stays a
  string, because nothing on the write path restricts it to 'government' or
  'private'.
- **Parameters.** `postedDate` is an integer timestamp. Clocks, generated
  identifiers, database replies and the configured flag are all parameters.

Behaviour of the code worth knowing:

- **Hosted write failures.** A failed hosted update returns `null`, and a
  failed hosted delete returns `false`; neither raises. Only a failed create
  raises.
- **Deleting a missing identifier.** The hosted delete reports success even
  when no row had the identifier.
- **Listing order.** `getJobs` returns the file fallback's listing in file
  order, not newest first. Only the hosted query and `lib/jobs.ts` sort.
- **Type and posting time.** Nothing on the write path enforces the two-value
  type. A file-store update may change `id` and `postedDate`, because the
  shallow merge copies them.
- **Requirements arrays.** A requirements array is passed through unchanged
  and may hold blank entries. Only a comma-separated string is cleaned.

## Model

| member | source | states |
|---|---|---|
| Records.NewJob | lib/db.ts:333-337 | a created posting carries every input field unchanged, plus the supplied id and timestamp, which override the input |
| Records.Merge | lib/db.ts:348 | each field the update carries replaces the old value; every other field keeps it; `id` and `postedDate` included |
| Records.MergeNoChanges | lib/db.ts:348 | merging the empty update leaves a posting as it was |
| Records.MergeIdempotent | lib/db.ts:348 | merging the same update twice is merging it once |
| Records.MergeFull | lib/db.ts:348 | an update that carries every field of `k` turns a posting into `k`, when no optional field needs clearing |
| Records.IndexOfId | lib/db.ts:345 | the first index with the id; -1 exactly when no posting has it |
| Records.FindById | lib/db.ts:328 | the first posting with the id; absent exactly when none has it |
| Records.RemoveId | lib/db.ts:355 | no posting with the id remains and all kept ones come from the list; the length is kept exactly when none had the id, and then the list is unchanged |
| Records.RemoveIdKeepsOthers | lib/db.ts:355 | every posting with another id is kept, in original order |
| Records.IndexOfUser | lib/db.ts:366 | the first account matching both username and password; -1 when none does |
| Records.FindUser | lib/db.ts:366-367 | returns the first account with exactly that username and password; absent exactly when none matches |
| FileStore.DefaultAdmin | lib/db.ts:300-311 | the seeded account is admin / admin123 with role admin |
| FileStore.Initialized | lib/db.ts:251-314 | an absent file is written with its seed; an existing file is left alone, so one that does not parse stays unreadable |
| FileStore.JobFiles.constructor | lib/db.ts:251-314 | each file holds what `Initialized` gives: the seed list of postings or the default admin when absent, otherwise the file as found, unreadable included |
| FileStore.JobFiles.GetJobs | lib/db.ts:316-324 | returns the file's postings; an unreadable file gives the empty list |
| FileStore.JobFiles.GetJobById | lib/db.ts:326-329 | the linear scan returns the first posting with the id, or absent |
| FileStore.JobFiles.CreateJob | lib/db.ts:331-341 | the list becomes the old list plus exactly one new posting at the end, built from the input, id and timestamp |
| FileStore.JobFiles.UpdateJob | lib/db.ts:343-351 | unknown id: null, and the file is not touched; otherwise only the first matching index changes, to the merge |
| FileStore.JobFiles.DeleteJob | lib/db.ts:353-360 | reports true exactly when some posting had the id; then every one is removed; otherwise nothing is written |
| FileStore.JobFiles.VerifyUser | lib/db.ts:362-372 | returns the first account with both username and password equal; an unreadable file matches nobody |
| FileStore.SeededAdminLogsIn | lib/db.ts:300-311 | the seeded accounts admit admin / admin123 |
| Hosted.Absent | lib/db.ts:72 | the `undefined` default of a column: NULL and '' become absent, any other value is kept |
| Hosted.RowToJob | lib/db.ts:65-79 | required columns are copied verbatim under their record names; NULL or empty optionals become absent; NULL requirements become [] |
| Hosted.RowToUser | lib/db.ts:237-243 | every column is copied under its record name; the stored password_hash becomes the password |
| Hosted.OrNull | lib/db.ts:130 | the `null` default of a field: absent and '' become NULL, any other value is kept |
| Hosted.ToInsertRow | lib/db.ts:125-136 | required fields unchanged; absent or empty optionals written as NULL; no id or posted_date |
| Hosted.InsertRoundTrip | lib/db.ts:125-159 | insert-then-read yields the file store's posting for the same input with empty optionals made absent; equal to it exactly when no optional is empty |
| Hosted.IfTruthy | lib/db.ts:168 | a required text column is set only when the update's value is truthy |
| Hosted.IfDefined | lib/db.ts:172 | an optional column is set whenever the field is given; '' is written as NULL |
| Hosted.UpdatePatch | lib/db.ts:167-178 | text fields are included only when truthy; requirements whenever given, [] included; optional fields whenever given, with '' as NULL; never id or posted_date |
| Hosted.HostedUpdateFields | lib/db.ts:162-205 | the posting the hosted update returns, field by field: id and posting time never change; empty text is ignored; given optionals replace the old value |
| Hosted.HostedUpdateMatchesMerge | lib/db.ts:167-178 | for an update without id or postedDate and with no empty value, the hosted update equals the file store's merge |
| Hosted.HostedUpdateDiffers | lib/db.ts:167-178 | an empty title or a new id is applied by the file store but ignored by the hosted store |
| Hosted.ListReply | lib/db.ts:47-85 | the rows mapped one by one, in reply order; an error or missing data gives [] |
| Hosted.RowReply | lib/db.ts:97-115 | the mapped row, or absent on an error or missing data |
| Hosted.CreateReply | lib/db.ts:141-159 | the mapped row; otherwise an exception with the error's message, or 'Failed to create job' |
| Hosted.DeleteReply | lib/db.ts:213-218 | true exactly when the query reports no error, even if no row matched |
| Hosted.VerifyReply | lib/db.ts:230-246 | an account exactly when the selected row's stored secret equals the password, compared as plain text |
| Hosted.GetByIdMatchesFile | lib/db.ts:91-99 | with unique ids, the hosted get-by-id equals the file store's first-match search over the same postings |
| Hosted.VerifyMatchesFile | lib/db.ts:224-246 | with unique usernames, the hosted credential check equals the file store's |
| Db.GetJobs | lib/db.ts:376-381 | the hosted listing exactly when configured, otherwise the file listing |
| Db.GetJobById | lib/db.ts:383-388 | the hosted lookup exactly when configured, otherwise the file store's first match |
| Db.CreateJob | lib/db.ts:390-395 | hosted insert reply when configured (the file untouched); otherwise the file store's append |
| Db.UpdateJob | lib/db.ts:397-402 | hosted reply when configured (the file untouched); otherwise the file store's update |
| Db.DeleteJob | lib/db.ts:404-409 | configured: true iff the query reported no error; otherwise true exactly when a posting had the id |
| Db.VerifyUser | lib/db.ts:411-416 | hosted check when configured, otherwise the file store's; an admitted account's password is the one given |
| MemoryStore.LoadRule | lib/jobs.ts:139-153 | a saved value is used only when it is a non-empty array; missing, unparseable, non-array or empty gives the defaults |
| MemoryStore.Insert | lib/jobs.ts:184-192 | places one posting; the result is a permutation of the list plus that posting |
| MemoryStore.InsertNoneAfter | lib/jobs.ts:184-192 | inserting keeps an upper bound on posting times |
| MemoryStore.InsertOrdered | lib/jobs.ts:184-192 | inserting into a newest-first list keeps it newest first |
| MemoryStore.NewestFirst | lib/jobs.ts:184-192 | the sort gives a permutation of the postings in non-increasing posting time |
| MemoryStore.ReplaceById | lib/jobs.ts:242 | same length; each posting with the job's id becomes the job, all others stay in place |
| MemoryStore.ReplaceByIdFacts | lib/jobs.ts:242 | replacing is idempotent and is a no-op when no posting has the id; afterwards lookup by that id finds the job |
| MemoryStore.JobCache.LoadJobs | lib/jobs.ts:132-162 | returns the visible list and leaves it as it was; on the server it caches that list |
| MemoryStore.JobCache.constructor | lib/jobs.ts:129 | a fresh module starts with nothing cached, on the given side and with the given storage entry |
| MemoryStore.JobCache.Save | lib/jobs.ts:165-175 | in the browser the list is stored and cached; on the server nothing changes |
| MemoryStore.JobCache.GetJobs | lib/jobs.ts:177-197 | a newest-first permutation of the list; the store's contents are unchanged |
| MemoryStore.JobCache.GetJobById | lib/jobs.ts:199-211 | nothing for an empty id; otherwise the first posting with the id; the list is unchanged |
| MemoryStore.JobCache.AddJob | lib/jobs.ts:213-229 | empty id: no change; in the browser, the list gains the job at the end; on the server reads never change |
| MemoryStore.JobCache.UpdateJob | lib/jobs.ts:231-247 | empty id: no change; in the browser, the stored list is the old one with that id replaced, and it is what later reads see (the defaults when the old list was empty); on the server reads never change |
| MemoryStore.JobCache.DeleteJob | lib/jobs.ts:249-265 | empty id: no change; in the browser, the stored list drops every posting with the id, and later reads see it, or the defaults once it is empty; on the server reads never change |
| MemoryStore.UpdateKeepsCount | lib/jobs.ts:242-243 | in the browser, an update of a non-empty list keeps its length |
| MemoryStore.DeleteLastRestoresDefaults | lib/jobs.ts:145-148 | in the browser, deleting the only posting brings the defaults back on the next read |
| Http.Failure | app/api/jobs/route.ts:60-63 | the failure envelope: success false, the error message, the status |
| JobsRoute.Get | app/api/jobs/route.ts:19-45 | always 200; success with the listing and its length, or failure with [] and count 0 and the message or 'Failed to fetch jobs' |
| JobsRoute.NormalizeRequirements | app/api/jobs/route.ts:72-74 | an array is kept as it is; a string becomes its comma list with every item non-empty, trimmed and comma-free; absent gives [] |
| JobsRoute.CreateInput | app/api/jobs/route.ts:66-80 | required fields as given; type defaults to 'private' when falsy; requirements normalised; optionals passed as given |
| JobsRoute.Post | app/api/jobs/route.ts:56-89 | 400 exactly when a required field is falsy; 201 with the created posting exactly when valid and the create succeeds; 500 otherwise |
| JobsRoute.PostRejectsWithoutCreating | app/api/jobs/route.ts:59-64 | on an invalid body the response does not depend on the store |
| JobsRoute.CommaSeparatedRequirements | app/api/jobs/route.ts:72-74 | "A, B, C" becomes ["A", "B", "C"] |
| JobsRoute.RequirementsTextRoundTrip | app/api/jobs/route.ts:72-74 | any clean list of items, the empty one included, joined with ", " normalises back to the same items |
| LoginRoute.WithoutPassword | app/api/auth/login/route.ts:28 | id, username, role and createdAt are kept |
| LoginRoute.PasswordNotSent | app/api/auth/login/route.ts:28 | accounts that differ only in password produce the same response data |
| LoginRoute.Login | app/api/auth/login/route.ts:7-40 | 400 for a missing username or password; 401 when no account matches; 200 with the account minus its password; 500 on an exception or a non-JSON body |
| LoginRoute.RejectsWithoutVerifying | app/api/auth/login/route.ts:10-15 | on a missing field, the response does not depend on the credential check |
| LoginRoute.FileLogin | app/api/auth/login/route.ts:17-33 | against the file store: 200 exactly when some account matches both credentials, and a wrong password gives 401 |
| LoginRoute.SeededAdminLogin | app/api/auth/login/route.ts:17-33 | the seeded admin logs in and gets back id 1, username and role admin |
| SubmitRoute.Submit | app/api/jobs/submit/route.ts:6-145 | missing job fields give 400 'Missing required fields', checked before the submitter; then a missing name or email gives 400; else 200 with success; non-JSON gives 500 |
| SubmitRoute.TypeLabel | app/api/jobs/submit/route.ts:40 | "Government" exactly for 'government'; otherwise "Private Sector" |
| SubmitRoute.NumberedLines | app/api/jobs/submit/route.ts:47 | line i is the number i+1, ". ", then item i |
| SubmitRoute.RequirementsSection | app/api/jobs/submit/route.ts:45-48 | the section is empty exactly when requirements are absent, an empty array or an empty string; a non-empty string is copied between the "Requirements:" heading line and a final line break |
| SubmitRoute.RequirementsSectionLines | app/api/jobs/submit/route.ts:45-48 | for a non-empty list of items without line breaks, the section's lines are an empty line, the heading, the numbered items in order, and a final empty line |
| SubmitRoute.NumberedListReadsBack | app/api/jobs/submit/route.ts:47 | the joined list splits back into its lines; each line's digits read as its 1-based number, followed by ". " and its item |
| SubmitRoute.SqlTextOrNull | app/api/jobs/submit/route.ts:76-80 | a truthy value gives its quoted, escaped literal; otherwise the bare token NULL |
| SubmitRoute.DeadlineToken | app/api/jobs/submit/route.ts:78 | the deadline goes between quotes unescaped, cast to timestamp; NULL when falsy |
| SubmitRoute.TypeToken | app/api/jobs/submit/route.ts:73 | the type goes between quotes unescaped; when absent, the literal 'undefined' |
| SubmitRoute.QuoteAll | app/api/jobs/submit/route.ts:75 | every item becomes its quoted, escaped literal |
| SubmitRoute.RequirementsToken | app/api/jobs/submit/route.ts:75 | the column is ARRAY[ ... ] around the requirement elements joined by ", " |
| SubmitRoute.RequirementElements | app/api/jobs/submit/route.ts:75 | an array gives one quoted, escaped literal per item; a string gives one literal; an absent member gives the one literal 'undefined' |
| SubmitRoute.RequirementElementsReadBack | app/api/jobs/submit/route.ts:75 | every element of the requirements array reads back under SQL quoting as the item, the string, or undefined |
| SubmitRoute.SqlValues | app/api/jobs/submit/route.ts:69-81 | each of the eleven columns gets its token: escaped literals for the text columns, the unescaped type and deadline, NULL for falsy optional columns |
| SubmitRoute.EscapedColumnsReadBack | app/api/jobs/submit/route.ts:70-80 | every escaped text column reads back under SQL quoting as exactly the submitted text |
| SubmitRoute.QuotedReadsBack | app/api/jobs/submit/route.ts:70 | a quoted literal's body reads back as its value |
| SubmitRoute.DeadlineQuoteEndsLiteral | app/api/jobs/submit/route.ts:78 | a quote in the unescaped deadline ends the literal early |
| HomePage.FilterJobs | app/page.tsx:31-47 | every result is from the list; with a type other than 'all' each has that type; with a non-empty term each matches it |
| HomePage.FilterIsSelection | app/page.tsx:32-44 | the two filters in turn equal one filter on both criteria |
| HomePage.FilterIsSubsequence | app/page.tsx:32-44 | the result is a subsequence of the loaded list in original order |
| HomePage.FilterIsComplete | app/page.tsx:34-43 | every posting meeting both criteria appears |
| HomePage.FilterIsIdempotent | app/page.tsx:32-44 | filtering twice gives the same as filtering once |
| HomePage.FilterIgnoresCase | app/page.tsx:39-43 | the upper-cased term lists the same postings as the term |
| AdminPage.AddPayload | app/admin/page.tsx:73-87 | missing text becomes '', missing type 'private'; typed requirements become the comma list with no empty item; a list passes through; otherwise [] |
| AdminPage.UpdatePayload | app/admin/page.tsx:100-105 | every form field as it is; typed requirements normalised, a list kept, otherwise the edited posting's requirements |
| AdminPage.EditForm | app/admin/page.tsx:131-134 | the form holds every field of the posting (identifier, posting time, the required texts, type and every optional field) as it is, with the requirements joined by ", " into one text |
| AdminPage.EditKeepsRequirements | app/admin/page.tsx:133 | for clean requirements, starting an edit and saving it returns the original list |
| AdminPage.UnchangedEditIsNoOp | app/admin/page.tsx:100-106 | an unchanged edit merges, in the file store, to the posting itself |
| AdminPage.EditSplitsCommaItems | app/admin/page.tsx:133 | an item containing a comma comes back from an unchanged edit as two items |
| AdminPage.AddReachesCreate | app/admin/page.tsx:73-87 | an add form passes POST validation exactly when its four required fields are filled; the created input is the one the form built |
| Seqs.Keep | app/page.tsx:35 | `filter`: kept elements satisfy the predicate and come from the list |
| Seqs.KeepCount | app/page.tsx:35 | `filter` keeps every occurrence of an accepted element and none of a rejected one |
| Seqs.FirstIndex | lib/db.ts:345 | `findIndex`: the first index that satisfies the predicate, or -1 when none does |
| Text.Trim | app/api/jobs/route.ts:74 | the result has no whitespace at either end and is no longer than the input; already trimmed text is unchanged |
| Text.TrimIsSlice | app/api/jobs/route.ts:74 | trimming only cuts whitespace off the ends: the result is a slice of the input with only whitespace before it and only whitespace after it |
| Text.Split | app/api/jobs/route.ts:74 | at least one piece, and no piece contains the separator |
| Text.JoinEnds | app/admin/page.tsx:133 | a join is "" for no parts and the part itself for one; otherwise it starts with the first part and ends with the last |
| Text.SplitJoin | app/api/jobs/submit/route.ts:47 | a non-empty list of parts free of the separator, joined with it, splits back into exactly those parts |
| Text.CommaList | app/admin/page.tsx:80 | the items are the trimmed comma-separated pieces that are not empty, in order and with their multiplicity: a subsequence of the trimmed pieces holding each non-empty one as often as they do and no empty one; each item is trimmed and comma-free |
| Text.CommaListJoin | app/admin/page.tsx:133 | clean items joined with ", " come back as the same items |
| Text.Lower | app/page.tsx:40 | ASCII lower-casing, character by character |
| Text.LowerUpper | app/page.tsx:40-42 | lower-casing after upper-casing equals lower-casing |
| Text.ContainsAt | app/page.tsx:40-42 | `includes` holds when the needle occurs at some offset of the text |
| Text.ContainsOccurs | app/page.tsx:40-42 | `includes` holds only when the needle occurs: it yields an offset of an occurrence |
| Text.Decimal | app/api/jobs/submit/route.ts:47 | a non-empty string of decimal digits with no leading zero: it starts with 0 exactly for the number 0, which is the string "0" |
| Text.DecimalValue | app/api/jobs/submit/route.ts:47 | the digits read back as the number |
| Text.EscapeQuotes | app/api/jobs/submit/route.ts:70 | escaping lengthens the text by exactly one character per quote |
| Text.SqlQuote | app/api/jobs/submit/route.ts:70-80 | the literal opens and closes with a quote, and collapsing the doubled quotes between them gives the value back |
| Text.EscapeQuotesInverse | app/api/jobs/submit/route.ts:70 | escaping adds one character per quote; collapsing `''` recovers the original |
| Text.SqlQuoteReadsBack | app/api/jobs/submit/route.ts:70-80 | an escaped value followed by a closing quote reads back exactly; the text after it stays outside the literal |

## Left out

- File and database I/O: `fs` calls, the creation of the data directory at load time, missing write permission, and Supabase query execution. Files are fields holding their parsed contents. Database replies are parameters. `Hosted.Inserted`, `Hosted.ApplyPatch` and `Hosted.SelectSingle` state what the database is relied on to do.
- Write failures: a `writeFileSync` or `localStorage.setItem` that throws is not modelled. Every write succeeds.
- Exceptions thrown by the database client: only `getJobsFromSupabase` catches them. For the other hosted functions they would propagate. The model has only the `{ data, error }` reply.
- The `if (!supabase)` branches of the hosted functions: lib/supabase.ts is not part of this model. When the configured flag is set the client exists, so these branches are not modelled.
- The newest-first order of the hosted listing: the query's `order('posted_date', …)` is the database's promise. `Hosted.ListReply` keeps the reply's order.
- Concurrency: the unlocked read–modify–write race and the async behaviour. Each operation is atomic.
- Clocks and identifier generation: `Date.now()` and `toISOString()`. The id and posting time are parameters, and `postedDate` is an integer. Date parsing, and the NaN case of the sort comparator, are not modelled.
- Case folding: `Text.Lower` and `Text.Upper` handle ASCII letters only, not full Unicode `toLowerCase`.
- MemoryStore.NewestFirst: proved to be a sorted permutation. Its stability, which `Array.prototype.sort` also guarantees, is not proved.
- The submission notification text: the date lines, the other summary lines, the email stub and all console logging. Only the type label, the requirements section and the SQL value tokens are modelled.
- Request bodies holding non-string JSON values, such as a numeric title or a `requirements` value that is neither array nor string. The handlers would throw on these, or stringify them. The model has strings, string arrays and absent values. A body that is not JSON is `None`.
- The `Array.isArray` and null-entry guards of lib/jobs.ts (`!Array.isArray(jobs)`, `job && …`), and a saved array whose entries are not postings: by construction every list is a list of postings.
- The literal contents of the seed postings, which are parameters.
- Routes, pages and helpers not listed above: app/api/jobs/[id]/route.ts, app/post-job/page.tsx, lib/api.ts, lib/auth.ts and the UI components. `AdminPage.AsBody` stands for the JSON body lib/api.ts would send.
