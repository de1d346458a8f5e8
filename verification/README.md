# Asklet core in Dafny

Asklet is a question-and-answer web application: users register, post
questions with tags, vote on questions and answers, and receive
notifications, some of them live over a server-sent event stream. This
project models the parts of it that carry real decisions, as immutable
datatypes and pure functions over in-memory collections:

- the vote endpoint: input checks, the self-vote guard, the up/down
  toggle-and-switch rule with its reputation arithmetic (5 per question
  upvote, 10 per answer upvote, 2 per downvote for both), and the reply
  (`vote_engine.dfy`, `vote_route.dfy`);
- notification read state: the newest-first listing with its unread count
  and pagination, and the two marking forms (`notifications_route.dfy`);
- the live-connection registry: open, cancel, send, and the
  `data: <json>\n\n` frame of the server-sent event stream format described
  in section 9.2 of the WHATWG HTML Living Standard
  (`notification_stream.dfy`);
- the notification bell in the browser: its list, its unread counter and
  its badge (`notification_client.dfy`);
- the question listing (filters, the three sort orders, paging, the derived
  vote score and answer count) and question creation with the per-tag
  question counter (`questions_route.dfy`, `paging.dfy`, `sorting.dfy`);
- the page selector under a listing (`pagination_view.dfy`);
- the validators and request payloads of the question form, the profile
  editor and the registration page, and the registration endpoint
  (`post_question_form.dfy`, `account_form.dfy`, `register_form.dfy`,
  `register_route.dfy`);
- the stored records with their defaults, enumerations and save-time checks
  (`models.dfy`).

`base.dfy` and `text.dfy` hold shared vocabulary: optional values, results,
first-match lookup, and the JavaScript string operations the code relies on
(`trim` with the ECMAScript whitespace set, `toLowerCase`, `split` on one
character, `replace` of a character class).

Modelling conventions:

- Every collection is a `seq` of records addressed by a numeric id; a
  lookup by id or by field is the first match. The connection registry is a
  `map` from user id to channel.
- The authenticated caller is an `Option<Id>`; `None` stands for a request
  without a valid session.
- A request field the code tests with `!x` is an `Option<string>`, where an
  absent field and the empty string are both falsy.
- Clocks, generated ids and password hashing are parameters (`now`,
  `newId`, `hash`); the regular-expression search of the question listing
  is a caller-supplied predicate `searchHit`.
- A database sort is an insertion sort by an integer key, descending;
  ascending order is descending order of the negated key. Among equal keys
  it fixes one of the orders the database may return; with distinct keys
  that order is the only one (`Sorting.SortDescIsTheOnlyOrder`).

The schemas declare the two voter lists as plain arrays, so their
uniqueness is stated as an invariant the vote logic preserves
(`VoteEngine.VoteKeepsWellFormed`) rather than assumed. Query values pass
through the schema's setters before they are compared: a username filter
is trimmed, and a tag filter is trimmed and lower-cased. Several validator messages do not match their checks:
"Title must be less than 200 characters", "Each tag must be less than 20
characters" and "Username must be less than 40 characters" all accept a
value of exactly that length; the model follows the checks.

## Model

| member | source | states |
|---|---|---|
| Models.LeanVoteScoreAgrees | models/questionSchema.ts:59-64 | the score on a lean document equals upvotes minus downvotes, and a missing list counts as empty |
| Models.ParseType | models/notificationSchema.ts:14-18 | a notification type is accepted exactly when it is answer, comment, mention or accept, and the accepted value names itself |
| Models.ParseTypeName | models/notificationSchema.ts:14-18 | every type name parses back to the same type |
| Models.NormTagIdempotent | models/tagSchema.ts:4-10 | a stored tag name is already normal: trimming and lower-casing it again changes nothing |
| Models.NormTags | models/questionSchema.ts:14-20 | the stored tag list has one entry per given tag, in order, each trimmed and lower-cased |
| Models.NewQuestion | models/questionSchema.ts:3-57 | saving succeeds exactly when the trimmed title is non-empty and at most 400 long and the description is non-empty; the record then has the trimmed title, normalised tags, no votes, no accepted answer and no views |
| Models.NewAnswer | models/answerSchema.ts:4-45 | saving succeeds exactly when the content is non-empty; the answer starts unaccepted with empty vote lists |
| Models.NewNotification | models/notificationSchema.ts:3-39 | saving succeeds exactly when the type is one of the four names and the message is non-empty; the record starts unread and keeps the optional question and answer references |
| Models.NewUser | models/userSchema.ts:3-48 | saving succeeds exactly when the trimmed username is 3 to 40 long, the email is non-empty and the password string is at least 6 long; role defaults to user and reputation to 0 |
| Models.NewTag | models/tagSchema.ts:4-18 | a new tag has the normalised name, an empty description and a zero question count |
| Text.Trim | app/api/questions/route.ts:129 | the result is the input with exactly its leading and trailing whitespace removed, and has no whitespace at either edge |
| Text.TrimIdempotent | app/api/questions/route.ts:129 | trimming twice is trimming once |
| Text.TrimLowerCommute | app/api/questions/route.ts:131 | lower-casing then trimming gives the same string as trimming then lower-casing, so the route's order and the tag schema's setters agree |
| Text.Split | app/post-question/page.tsx:61-62 | splitting yields one more part than there are separators, and no part contains the separator |
| Text.JoinSplit | app/post-question/page.tsx:61-62 | joining the parts with the separator gives back the input |
| Text.SplitJoin | app/post-question/page.tsx:61-62 | splitting a join of separator-free parts gives back the parts |
| Text.RemoveAll | app/post-question/page.tsx:49-51 | every listed character is removed and every other character keeps its number of occurrences |
| Text.RemoveAllAppend | app/post-question/page.tsx:49-51 | stripping a concatenation strips each part in turn, so the kept characters stay in their order |
| Text.RemoveAllAbsent | app/post-question/page.tsx:49-51 | a description with no markdown character is left unchanged |
| Sorting.SortDesc | app/api/notifications/route.ts:33 | the result is ordered by the key, largest first, and is a permutation of the input |
| Sorting.SortDescIsTheOnlyOrder | app/api/notifications/route.ts:33 | when no two records share a key, every largest-first arrangement of them is the one the sort builds, so each query returns the same order |
| Sorting.DistinctKeysStrict | app/api/notifications/route.ts:33 | an ordered arrangement of records with distinct keys is strictly decreasing |
| Sorting.StrictUnique | app/api/notifications/route.ts:33 | a strictly decreasing arrangement is the only largest-first arrangement of the same records |
| Sorting.Filter | app/api/notifications/route.ts:23-26 | every element of the result satisfies the condition and comes from the input, and the result is no longer than the input |
| Sorting.FilterMultiplicity | app/api/notifications/route.ts:23-26 | each satisfying element occurs in the result exactly as often as in the input, and no other element occurs |
| Sorting.FilterAppend | app/api/notifications/route.ts:23-26 | filtering a concatenation is the concatenation of the filtered parts, so kept elements keep their relative order |
| Paging.PageCount | app/api/questions/route.ts:90 | the page count is the ceiling of total over limit: the least n with n times limit at least total |
| Paging.HasNextIffMoreRecords | app/api/questions/route.ts:86-94 | hasNext holds exactly when records lie beyond the current page, and hasPrev exactly when the page skips any record |
| Paging.Window | app/api/questions/route.ts:62-63 | the window holds exactly min(limit, records remaining after skip) records, the ones starting at position skip, in order |
| Paging.EveryRecordOnOnePage | app/api/questions/route.ts:56-63 | every record appears on exactly one page, and that page is within the page count |
| Paging.WindowOfPageHolds | app/api/notifications/route.ts:28-35 | the page of a record's position lists that record |
| Paging.WindowOfSorted | app/api/notifications/route.ts:30-35 | a window of a sorted permutation is sorted and holds only input records |
| VoteEngine.Without | app/api/vote/route.ts:77-79 | removing a voter deletes every occurrence of that voter and keeps every other voter's occurrences |
| VoteEngine.ApplyVote | app/api/vote/route.ts:64-113 | up on an upvoted item removes the upvote (minus the unit); up otherwise clears any downvote and adds one upvote (unit, plus 2 when a downvote was cleared); down mirrors this with 2 and the unit; other voters' entries and order are untouched |
| VoteEngine.VoteKeepsConsistent | app/api/vote/route.ts:65-113 | a voter present at most once in at most one list stays so after voting |
| VoteEngine.VoteKeepsWellFormed | app/api/vote/route.ts:65-113 | if no voter is in both lists or twice in one, the same holds after any vote |
| VoteEngine.ToggleRestores | app/api/vote/route.ts:76-113 | from a neutral voter, voting the same way twice restores the lists exactly and the two reputation changes cancel |
| VoteEngine.ScoreTracksUserVote | app/api/vote/route.ts:124-132 | the score changes by exactly the change in the voter's own contribution (+1 up, -1 down, 0 none) |
| VoteEngine.DeltaTracksUserVote | app/api/vote/route.ts:72-113 | the reputation change is the change in what the voter's vote is worth to the author, and it is never zero |
| VoteRoute.SaveVotes | app/api/vote/route.ts:116 | saving changes only the votes of the one item |
| VoteRoute.AdjustReputation | app/api/vote/route.ts:118-122 | only the author's reputation changes, by exactly the delta |
| VoteRoute.HandleVote | app/api/vote/route.ts:8-145 | no caller gives 401, a missing field gives 400, a valid request naming no stored item of its type gives 404 "question not found" or "answer not found", every refusal leaves the database unchanged, and a vote reply carries valid types and a score equal to upvotes minus downvotes |
| VoteRoute.VoteEffect | app/api/vote/route.ts:45-140 | a valid vote on another user's item stores the engine's new lists on that item only, changes only the author's reputation by the engine's delta, leaves the voter's record alone and reports the action, counts and final vote |
| VoteRoute.SelfVoteRefused | app/api/vote/route.ts:55-62 | voting on one's own item gives 400 and changes nothing |
| VoteRoute.BadTypesRefused | app/api/vote/route.ts:29-41 | an unknown item type, then an unknown vote type, gives its 400 message with nothing changed |
| VoteRoute.ReputationCanGoNegative | app/api/vote/route.ts:93-122 | reputation has no floor: a first downvote on a new user's answer leaves it at -2 |
| VoteRoute.HandleVoteKeepsWellFormed | app/api/vote/route.ts:64-116 | no request makes any stored item's lists overlap or repeat a voter |
| NotificationsRoute.List | app/api/notifications/route.ts:6-54 | no caller gives 401; otherwise the page is the window of at most limit records at offset (page-1)*limit of the caller's matching records sorted newest first, every listed record is stored, belongs to the caller and matches the unread filter, and the reply carries the caller's full unread count and pagination over the selection |
| NotificationsRoute.PageFacts | app/api/notifications/route.ts:23-35 | any window of the sorted selection holds only the caller's stored, matching records and stays newest first |
| NotificationsRoute.SelectedFacts | app/api/notifications/route.ts:23-26 | every selected record belongs to the caller and is unread when only unread ones are asked for |
| NotificationsRoute.CountUnreadIsUnreadTotal | app/api/notifications/route.ts:39-42 | the unread count equals the size of the unread-only selection, whatever the page |
| NotificationsRoute.ListedOnItsPage | app/api/notifications/route.ts:28-35 | when no two selected records share a creation time, every selected record is listed on the page its position falls in, which lies within the page count |
| NotificationsRoute.MarkAll | app/api/notifications/route.ts:78-82 | every record of the caller becomes read, every other record and every other field stays |
| NotificationsRoute.MarkIds | app/api/notifications/route.ts:83-91 | exactly the listed records owned by the caller become read, nothing else changes |
| NotificationsRoute.HandleMark | app/api/notifications/route.ts:64-93 | no caller gives 401 with no change; markAll wins over ids; with neither nothing changes and success is still reported |
| NotificationsRoute.MarkTouchesOnlyCaller | app/api/notifications/route.ts:78-91 | marking never changes another user's records or unread count and never makes a record unread |
| NotificationsRoute.MarkAllClearsUnread | app/api/notifications/route.ts:78-82 | after markAll the caller has no unread record |
| NotificationsRoute.MarkIdempotent | app/api/notifications/route.ts:78-91 | both marking forms are idempotent |
| NotificationsRoute.ForeignIdsIgnored | app/api/notifications/route.ts:83-91 | ids owned only by other users change nothing |
| NotificationStream.ParseFrame | app/api/notifications/stream/route.ts:47-50 | a block parses to a payload only when it is exactly the frame of that single-line payload |
| NotificationStream.FrameRoundTrip | app/api/notifications/stream/route.ts:47-51 | parsing the frame of a single-line payload gives the payload back |
| NotificationStream.Open | app/api/notifications/stream/route.ts:7-26 | no caller gives 401 with the registry unchanged; otherwise the caller's entry is replaced by a new channel holding only the handshake frame, and every other entry is kept |
| NotificationStream.Cancel | app/api/notifications/stream/route.ts:27-30 | the user's entry is removed unconditionally and every other entry is kept |
| NotificationStream.Send | app/api/notifications/stream/route.ts:43-57 | sending to an absent user changes nothing; to an accepting channel it appends one notification frame; to a failing channel it removes that user's entry; other entries are untouched |
| NotificationStream.OpenKeepsHandshakeFirst | app/api/notifications/stream/route.ts:15-26 | after an open, every channel still starts with the handshake frame |
| NotificationStream.SendKeepsHandshakeFirst | app/api/notifications/stream/route.ts:43-57 | after a send, every channel still starts with the handshake frame |
| NotificationStream.CancelKeepsHandshakeFirst | app/api/notifications/stream/route.ts:27-30 | after a cancel, every channel still starts with the handshake frame |
| NotificationStream.SendDeliversOneFrame | app/api/notifications/stream/route.ts:46-51 | a send keeps the earlier frames and adds exactly one, which parses to the notification message |
| NotificationStream.StaleCancelDropsNewerStream | app/api/notifications/stream/route.ts:18-30 | when an older stream of a user is cancelled after a newer one opened, the newer entry is dropped too and later sends to that user are lost |
| NotificationClient.OnMessage | app/components/SimpleNotifications.tsx:31-46 | a notification message is prepended and adds exactly one to the counter; any other message changes nothing |
| NotificationClient.OnFetch | app/components/SimpleNotifications.tsx:61-70 | a fetched body replaces the list and the counter, with [] and 0 for missing fields; a failed fetch changes nothing |
| NotificationClient.MarkAllAsRead | app/components/SimpleNotifications.tsx:72-86 | unless the request throws, the counter becomes 0 and every listed item is marked read in place |
| NotificationClient.Badge | app/components/SimpleNotifications.tsx:111-115 | the badge is hidden exactly when the count is at most 0, reads 9+ exactly above 9, and is one digit otherwise |
| NotificationClient.BadgeReadsBack | app/components/SimpleNotifications.tsx:113 | a one-digit badge reads back as the count |
| NotificationClient.OnMessageKeepsCounterInStep | app/components/SimpleNotifications.tsx:31-37 | if the counter matched the unread items shown, it still does after an unread notification arrives |
| NotificationClient.MarkAllPutsCounterInStep | app/components/SimpleNotifications.tsx:72-82 | after marking all read the counter is 0, no shown item is unread and the badge is hidden |
| NotificationClient.FetchThenMarkMirrorsServer | app/components/SimpleNotifications.tsx:61-82 | loading a listing shows exactly the server's page and unread total, and marking all read then shows what the server's markAll makes of those records |
| QuestionsRoute.SortOrderOf | app/api/questions/route.ts:41-54 | oldest selects oldest-first, views selects most-viewed, and every other value, votes included, selects newest-first |
| QuestionsRoute.SortKeyOrder | app/api/questions/route.ts:41-61 | a list sorted by the chosen key is in the requested order of creation time or views |
| QuestionsRoute.AuthorId | app/api/questions/route.ts:34-39 | the author filter is the id of the first user whose username equals the trimmed name, as the schema's trim setter compares it, and is absent when the name is empty or no username matches |
| QuestionsRoute.BuildQuery | app/api/questions/route.ts:21-39 | the query keeps the search text, filters by the tag in stored form (trimmed and lower-cased) only when one is given, and by the resolved author |
| QuestionsRoute.ListQuestions | app/api/questions/route.ts:9-95 | the list holds exactly min(limit, what remains after the offset) questions, each at its offset in the sorted selection, stored and matching the query, with upvotes minus downvotes and its answer count; the list is in the requested order, with pagination over the whole selection |
| QuestionsRoute.SelectedFacts | app/api/questions/route.ts:58 | every selected question is stored and matches the query |
| QuestionsRoute.VotesSortIsNewest | app/api/questions/route.ts:46-48 | sorting by votes gives the same reply as sorting by newest |
| QuestionsRoute.UnknownAuthorIgnored | app/api/questions/route.ts:34-39 | an author name that, once trimmed, no user has is ignored rather than matching nothing |
| QuestionsRoute.AuthorLookedUpTrimmed | app/api/questions/route.ts:34-39 | an author name with surrounding space lists the same questions as the trimmed name |
| QuestionsRoute.ListedOnItsPage | app/api/questions/route.ts:56-94 | when no two selected questions share a sort key, every selected question is listed on the page its position falls in, which lies within the page count |
| QuestionsRoute.TagFilterIgnoresCase | app/api/questions/route.ts:30-32 | the listing does not depend on the case of the tag filter |
| QuestionsRoute.TagFilterUsesStoredForm | app/api/questions/route.ts:30-32 | a tag filter lists the same questions as its stored (trimmed, lower-cased) form |
| QuestionsRoute.ListingHasNext | app/api/questions/route.ts:84-94 | hasNext holds exactly when matching questions lie beyond this page, hasPrev exactly when the page skips any, and total counts the whole selection |
| QuestionsRoute.Upsert | app/api/questions/route.ts:140-147 | an existing name keeps the tag list's length, a new name appends one tag with count 1, and names and descriptions of existing tags are kept |
| QuestionsRoute.UpsertCount | app/api/questions/route.ts:140-147 | one upsert adds exactly 1 to that name's count and leaves every other name's count |
| QuestionsRoute.UpsertKeepsNamesUnique | app/api/questions/route.ts:140-147 | an upsert keeps at most one tag per name |
| QuestionsRoute.UpsertAllCounts | app/api/questions/route.ts:138-149 | after the loop each name's count has grown by the number of request tags normalising to it, duplicates included |
| QuestionsRoute.UpsertAllKeepsNamesUnique | app/api/questions/route.ts:138-149 | the loop keeps at most one tag per name |
| QuestionsRoute.HandlePost | app/api/questions/route.ts:105-161 | no caller gives 401 and a falsy title or description gives 400; a question is created exactly when, beyond that, the trimmed title is non-empty and at most 400 long, and otherwise the schema failure gives 500 "Failed to create question"; every refusal saves nothing; a created question is appended with status 201, the trimmed title, the raw description, normalised tags (none when absent), no votes and the caller as author, and every request tag is counted |
| QuestionsRoute.NormTagsIdempotent | app/api/questions/route.ts:131 | normalising already stored tags changes nothing |
| QuestionsRoute.CreatedQuestionCountsItsTags | app/api/questions/route.ts:128-149 | posting keeps tag names unique, and a created question raises each name's count by the number of its stored tags with that name |
| PaginationView.Run | components/Pagination.tsx:27-30 | the run lists pages 1 to total in order, and nothing when total is below 1 |
| PaginationView.VisiblePages | components/Pagination.tsx:23-50 | at most 7 entries; up to five pages are all listed without ellipsis; the first and last pages sit at the ends; shown numbers rise strictly and are real pages; every ellipsis sits between two shown pages and hides at least one, and two numbers side by side are consecutive pages, so an ellipsis marks exactly each skipped run |
| PaginationView.ShowsCurrentPage | components/Pagination.tsx:23-50 | the current page is always shown when it is a real page |
| PaginationView.WhichPagesShown | components/Pagination.tsx:23-50 | a page is shown exactly when it is the first, the last, or next to the current page or to the nearer end |
| PaginationView.NextEnabledWithNoPages | components/Pagination.tsx:94-96 | with no pages at all, next stays enabled on page 1 and leads past the last page |
| PaginationView.NextIntendedLeadsToRealPage | components/Pagination.tsx:94-96 | with next disabled from the last page on, an enabled next always leads to a real page, and on real pages the rule agrees with the written one |
| PostQuestionForm.TitleError | app/post-question/page.tsx:41-47 | on the trimmed title: empty is required, under 10 is too short, over 200 is too long, and none of these is no error |
| PostQuestionForm.DescriptionError | app/post-question/page.tsx:49-56 | on the description without markdown characters and trimmed: empty is required, under 20 is too short, otherwise no error |
| PostQuestionForm.TrimParts | app/post-question/page.tsx:63-64 | every kept tag is non-empty and trimmed |
| PostQuestionForm.TrimPartsOne | app/post-question/page.tsx:63-64 | one part becomes its trimmed text, or nothing when it is blank |
| PostQuestionForm.TrimPartsAppend | app/post-question/page.tsx:63-64 | the parts are read in turn: every non-blank part is kept, trimmed and in order |
| PostQuestionForm.TagsError | app/post-question/page.tsx:58-72 | no tags gives the required message, more than 5 gives too many, 1 to 5 tags with one longer than 20 characters gives the too-long message, and there is no error exactly when 1 to 5 tags of at most 20 characters remain |
| PostQuestionForm.BlankFieldNoTags | app/post-question/page.tsx:58-66 | a blank tags field yields no tags |
| PostQuestionForm.BlankPartsVanish | app/post-question/page.tsx:61-64 | parts made only of whitespace are all dropped |
| PostQuestionForm.TagListJoin | app/post-question/page.tsx:132-135 | a list of trimmed comma-free tags survives joining with commas and splitting again |
| PostQuestionForm.TagListStable | app/post-question/page.tsx:61-64 | the tag list computed from its own comma join is itself |
| PostQuestionForm.Validate | app/post-question/page.tsx:38-76 | validation records each field's error independently and no general error |
| PostQuestionForm.ValidIff | app/post-question/page.tsx:38-76 | the form is valid exactly when the title, description and tag rules all hold |
| PostQuestionForm.Submit | app/post-question/page.tsx:121-146 | only a valid form is sent, with the trimmed title, the raw description and the validator's tag list; otherwise the field errors are shown |
| PostQuestionForm.ValidFormIsCreated | app/post-question/page.tsx:142-146 | a valid form sent by a signed-in user is created by the endpoint with its trimmed title, raw description and normalised tags |
| PostQuestionForm.AfterResponse | app/post-question/page.tsx:149-171 | success shows no error; any failure shows exactly one general error: the sign-in message for 401, the server's message when it gave one, "Failed to submit question. Please try again." when it did not, and the network message when the request throws |
| PostQuestionForm.ServerRefusalShown | app/post-question/page.tsx:154-166 | a refusal other than 401 shows the endpoint's own message |
| PostQuestionForm.Edit | app/post-question/page.tsx:78-119 | editing a field sets it, clears its error and the general error, and keeps the other errors |
| PostQuestionForm.EditRevalidatesOnlyItsField | app/post-question/page.tsx:78-119 | editing one field leaves the validation of the other fields unchanged |
| AccountForm.UsernameError | components/AccountPage.tsx:83-92 | on the trimmed username: empty is required, under 3 is too short, over 40 is too long, a non-word character is refused, and the first failing check wins |
| AccountForm.EmailShapeIsPattern | components/AccountPage.tsx:96 | the computed email test accepts exactly the strings made of a plain run, @, a plain run, a dot and a plain run |
| AccountForm.EmailError | components/AccountPage.tsx:94-98 | a blank email is required; otherwise the email as typed must pass the pattern |
| AccountForm.Validate | components/AccountPage.tsx:80-102 | validation records the username and email errors and no general error |
| AccountForm.ValidIff | components/AccountPage.tsx:80-101 | the form is valid exactly when the trimmed username is 3 to 40 word characters and the email as typed matches the pattern |
| AccountForm.Edit | components/AccountPage.tsx:104-124 | editing a field sets it, clears its own error and the general error, and keeps the other field's error |
| AccountForm.Cancel | components/AccountPage.tsx:169-176 | cancelling restores the stored profile, clears all errors and leaves edit mode |
| AccountForm.CancelForgetsEdits | components/AccountPage.tsx:169-176 | cancelling after any edit gives the same editor as cancelling before it |
| AccountForm.Submit | components/AccountPage.tsx:126-145 | only a valid form is sent, with both fields trimmed |
| AccountForm.SentPayloadRevalidates | components/AccountPage.tsx:142-145 | the sent email is the one typed, and the sent profile is valid and would be sent unchanged again |
| AccountForm.AfterResponse | components/AccountPage.tsx:148-166 | success leaves edit mode with no errors; a failure keeps edit mode and shows one general error: the server's own when it gave one, "Failed to update profile. Please try again." when it did not, and the network message when the request throws |
| RegisterRoute.FindAccount | app/api/auth/register/route.ts:26-28 | the lookup finds an account exactly when one has the email as given or the username as the trim setter leaves it |
| RegisterRoute.Save | app/api/auth/register/route.ts:38-44 | the save succeeds exactly when the schema accepts the user and no account has its email or trimmed username, and then appends it |
| RegisterRoute.HandleRegister | app/api/auth/register/route.ts:6-57 | a falsy field gives "All fields required", then a short password gives its 400, then an account with the email or the trimmed username gives "User already exists"; registration succeeds exactly when all three fields are present, the password is long enough, no account matches and the schema accepts the user; refusals add nobody; success appends one user holding the hash of the password |
| RegisterRoute.RegisterKeepsAccountsUnique | app/api/auth/register/route.ts:26-44 | registration never gives two accounts the same username or email |
| RegisterRoute.RegisteredAccountIsFound | app/api/auth/register/route.ts:36-49 | the new account is the one found by its email, under the trimmed username and with the hashed password |
| RegisterRoute.RegisteringTwiceIsRefused | app/api/auth/register/route.ts:26-34 | sending the same registration again is refused as a duplicate and adds nobody |
| RegisterForm.Submit | app/register/page.tsx:17-42 | a mismatch is reported before the length; a request is sent exactly when the passwords agree and are at least 6 long, carrying username, email and password with the error cleared |
| RegisterForm.StaleErrorNeverSurvives | app/register/page.tsx:19-29 | the outcome of a submit does not depend on the error shown before it |
| RegisterForm.AfterResponse | app/register/page.tsx:44-56 | success moves to the sign-in screen, a refusal shows the server's message, a thrown request shows the generic failure, and loading ends |
| RegisterForm.PageAndEndpointAgreeOnLength | app/register/page.tsx:26-29 | with filled fields and matching passwords, the page holds a request back exactly when the endpoint would refuse its length, with the same message, and a sent request is never refused for length or missing fields |
| RegisterForm.SuccessfulSignUp | app/register/page.tsx:34-48 | a sent request that the endpoint accepts lands on the sign-in screen with the account stored under the trimmed username and hashed password |

## Left out

- Database plumbing: connections, `populate` projections and database errors on reads (the 500 replies of the listing endpoints); stores are in-memory sequences.
- Concurrency: every request is one atomic step; interleaved requests (lost vote updates, the separate reputation write) are not modelled.
- Authentication: session and token handling is reduced to an optional caller id; password hashing is the parameter `hash`.
- The answer-acceptance handler and the handler that creates notifications are not part of this model, so neither acceptance reputation nor notification creation is modelled beyond the record definitions.
- Regular-expression search in the question listing: it is the parameter `searchHit`, since its matching is the database's.
- QuestionsRoute.ListQuestions: questions with equal sort keys (every new question has 0 views, for instance) are listed in the order the insertion sort leaves them, which is one of the orders the database may return; the database may return a different one on each query, and that freedom is not modelled.
- NotificationsRoute.List: notifications with equal creation times are listed in the order the insertion sort leaves them, one of the orders the database may return; a different order on each query is not modelled.
- QuestionsRoute.ListedOnItsPage: stated only for selections whose sort keys are distinct, because with ties the database may order the records differently for each page, so paging through can show one record twice and skip another.
- NotificationsRoute.ListedOnItsPage: stated only for selections whose creation times are distinct, for the same reason.
- RegisterForm.Submit: the browser's own form checks (all four inputs are `required`, app/register/page.tsx:85, 104, 123, 142, and the email input is `type="email"`, line 103) stop a submit before the handler runs when a field is empty or the email is malformed; the model hands such input to the handler, so, for instance, two empty password fields yield the too-short message rather than no submit at all.
- Text.ToLower: lower-cases ASCII letters only; JavaScript's full Unicode case mapping is not modelled.
- Text.Trim: this and every length check count characters, not the UTF-16 code units JavaScript counts.
- `parseInt` of query strings: page and limit are taken as integers of at least 1.
- JSON serialisation and `TextEncoder`: the payload inside a stream frame is an opaque single-line string; malformed request bodies are not modelled.
- ObjectId casting failures (a malformed id in a request) are not modelled; ids are numbers.
- Rendering, routing, the browser Notification API, EventSource reconnection, the connection indicator and the test-notification button of the bell.
- Date formatting on the account page (`formatDate`, relative dates).
- The `createdAt`/`updatedAt` timestamps are a caller-supplied `now`; `updatedAt` and `joinedAt`/`lastActive` are not stored.

## Findings

| source | as written | input that shows it | evidently intended | confidence | as-written member | corrected member |
|---|---|---|---|---|---|---|
| components/Pagination.tsx:96 | the next arrow is disabled only when the current page equals the page count | an empty listing: the endpoints report 0 pages, the selector sits on page 1, so next is enabled and asks for page 2 | disable next whenever the current page is at or beyond the page count | medium, not executed | PaginationView.NextEnabledWithNoPages | PaginationView.NextIntendedLeadsToRealPage |
