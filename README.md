# anonify: anonymous messages, modelled in Dafny

anonify is a Next.js application where people sign up, receive anonymous
messages from anyone who knows their username, switch receiving on or off,
read their inbox newest first, delete their account, and ask a language
model for suggested replies. This project models its server-side core and
proves what each part promises:

- the `User` document and its embedded `Message` sub-documents, as the
  Mongoose schema builds them: setters (`trim`, `lowercase`) first, then
  defaults, then each path's validators (`user_model.dfy`);
- the `User` collection with its two unique indexes, as a class whose
  methods are the Mongoose calls the handlers make (`store.dfy`);
- the route handlers: sign-up, send-message, accept-messages (POST and
  GET), get-messages and delete-account (one file each). Each handler is a
  module-level method that takes the collection (`store: UserStore`) and
  is proved equal to a decision function that
  gives the response and the collection afterwards. Lemmas about that
  function state what the route promises;
- the authentication middleware's redirect rules (`middleware.dfy`);
- the message content schema (`message_schema.dfy`);
- the suggest-messages pipeline: validation, cleaning and filtering of the
  model's `||`-separated text, template fallbacks, deduplication, padding
  to three, and the error path (`suggest_messages.dfy`);
- the client's read loop, which turns the streamed answer into at most
  three suggestions (`message_suggester.dfy`);
- the JavaScript string built-ins they rely on: `trim`, ASCII lower-casing,
  `split`, `join`, `includes`, `slice`, and the decimal form of a number
  (`text.dfy`).

Time is a natural number of milliseconds. Randomness, the clock, the
session, the language model's output and the outcome of sending mail are
parameters.

## Model

| member | source | states |
|---|---|---|
| UserModel.NewMessage | src/model/User.model.ts:11-29 | builds an embedded message: content trimmed, then `isRead` and `createdAt` defaulted, then `content` required |
| UserModel.MessageDefaults | src/model/User.model.ts:18-26 | a message created without `isRead`/`createdAt` is unread, stamped with the current time, and valid |
| UserModel.MessageContentRequired | src/model/User.model.ts:13-17 | a message is refused exactly when its content is blank, since content is trimmed and then required |
| UserModel.IsEmailShape | src/model/User.model.ts:59-62 | the email `match` validator as a scan: one `@`, non-empty whitespace-free text before it, and a dot after it with non-empty text on both sides |
| UserModel.EmailShapeMatchesPattern | src/model/User.model.ts:59-62 | a left-to-right scan accepts exactly the strings that match `^[^\s@]+@[^\s@]+\.[^\s@]+$` |
| UserModel.NormalizeEmail | src/model/User.model.ts:53-58 | the `trim` and `lowercase` setters of the email path, applied to stored values and to query filters alike |
| UserModel.NormalizeEmailNormal | src/model/User.model.ts:53-58 | a stored email is trimmed and has no capitals |
| UserModel.NormalEmailUnchanged | src/model/User.model.ts:53-58 | an email that is already trimmed and lower-case is stored as given |
| UserModel.NormalizeEmailIdempotent | src/model/User.model.ts:53-58 | applying the setters twice equals applying them once, so a stored email queried by its own value is found |
| UserModel.Hash | src/app/api/sign-up/route.ts:61 | the hash stand-in never equals the plaintext and is longer than the six-character minimum |
| UserModel.HashInjective | src/app/api/sign-up/route.ts:61 | distinct passwords hash differently |
| UserModel.NewUser | src/model/User.model.ts:45-88 | builds a user document: setters, then defaults, then the validators of every path, collecting their messages |
| UserModel.NewUserValid | src/model/User.model.ts:45-88 | a user that passes validation satisfies the schema; username is trimmed, email normalised, and it is unverified and accepting unless told otherwise |
| UserModel.NewUserAcceptsExactly | src/model/User.model.ts:47-76 | creation succeeds iff the username is not blank, the normalised email matches the pattern, the password has at least 6 characters, and a code and an expiry are given |
| UserModel.ShortPasswordRefused | src/model/User.model.ts:64-68 | a non-empty password under 6 characters is refused with the schema's message |
| UserModel.UsernameErrors | src/model/User.model.ts:47-52 | the `required` message of a blank username, nothing otherwise |
| UserModel.EmailErrors | src/model/User.model.ts:53-63 | the `required` message of a blank email, else the `match` message of a malformed one, nothing otherwise |
| UserModel.PasswordErrors | src/model/User.model.ts:64-68 | the `required` message of an empty password, else the `minlength` message under six characters |
| UserModel.VerifyCodeErrors | src/model/User.model.ts:69-76 | the `required` messages of a missing code and of a missing expiry |
| UserModel.UserValid | src/model/User.model.ts:45-88 | what the schema guarantees of a stored user: trimmed non-blank username, trimmed lower-case well-shaped email, password of at least six characters, a code, and valid messages |
| Store.AtMostOneMatch | src/model/User.model.ts:47-58 | with the unique indexes, a filter on username or email matches at most one document |
| Store.Matches | src/model/User.model.ts:47-58 | a `findOne` filter on username or email, with the path setters applied to the filter value, optionally also demanding `isVerified: true` |
| Store.Clashes | src/model/User.model.ts:47-58 | a new user would break the unique index on username or on email |
| Store.InsertKeepsValid | src/model/User.model.ts:47-58 | inserting a valid user that clashes with nobody keeps the collection valid |
| Store.ReplaceKeepsValid | src/model/User.model.ts:47-58 | replacing a document without changing its indexed values keeps the collection valid |
| Store.RemoveKeepsValid | src/app/api/delete-account/route.ts:20 | removing a document keeps the collection valid |
| Store.UserStore.FindOne | src/app/api/sign-up/route.ts:16-19 | returns the id of a stored document iff one matches the filter (after the path setters are applied to it); that document is the only match |
| Store.UserStore.FindById | src/app/api/accept-messages/route.ts:69 | returns the stored document iff the id is stored |
| Store.UserStore.Insert | src/app/api/sign-up/route.ts:65-75 | refused, changing nothing, iff the user clashes with a unique index; otherwise stored under a new id and nothing else changes |
| Store.UserStore.Replace | src/app/api/send-message/route.ts:34-35 | saving a changed document replaces exactly that document and keeps the collection valid |
| Store.UserStore.SetAccepting | src/app/api/accept-messages/route.ts:23-27 | a stored id gets its flag set and the new document back; an unknown id gets nothing and changes nothing |
| Store.UserStore.Delete | src/app/api/delete-account/route.ts:20 | removes exactly the given id and returns its document iff it was stored |
| SignUpRoute.VerifyCode | src/app/api/sign-up/route.ts:39 | the code always has exactly six decimal digits, and its value is 100000 plus the random offset |
| SignUpRoute.Outcome | src/app/api/sign-up/route.ts:9-117 | the registration decision: 400 for a verified holder of the username or email, 500 when the insert hits a unique index or the mail fails, 200 otherwise, with the collection afterwards |
| SignUpRoute.Fields | src/app/api/sign-up/route.ts:65-74 | the fields given to `new UserModel`: the hashed password, the code, expiry one hour after now, unverified, and no acceptance flag since the misspelled `isAcceptingMessage` names no path |
| SignUpRoute.Post | src/app/api/sign-up/route.ts:9-117 | the response and the new collection are those of the registration decision, and the collection stays valid |
| SignUpRoute.VerifiedHolderRefused | src/app/api/sign-up/route.ts:15-50 | 400 iff a verified user holds the username or the email; the username is reported first; nothing changes |
| SignUpRoute.PasswordNeverRefused | src/app/api/sign-up/route.ts:61-75 | the minimum length is checked on the hash, so only a blank username or a malformed email makes the new user invalid |
| SignUpRoute.RegistrationInserts | src/app/api/sign-up/route.ts:59-76 | the new document is stored iff nobody verified holds its username or email, it is valid and it clashes with no one; no stored document changes |
| SignUpRoute.RegisteredUserShape | src/app/api/sign-up/route.ts:61-74 | the stored user is valid, unverified, accepting, with an empty inbox, a hashed password and a six-digit code that expires an hour later |
| SignUpRoute.UnverifiedHolderBreaksInsert | src/app/api/sign-up/route.ts:41-76 | an unverified holder of the username or email makes the insert hit a unique index: 500 and nothing changes |
| SignUpRoute.MailFailureKeepsUser | src/app/api/sign-up/route.ts:78-103 | success is reported iff the user was stored and the mail went out; a failed mail still leaves the user stored |
| SignUpRoute.OutcomeKeepsValid | src/app/api/sign-up/route.ts:59-76 | registration keeps the collection valid |
| SendMessageRoute.Outcome | src/app/api/send-message/route.ts:5-48 | the delivery decision: 404 for an unknown recipient, 403 when not accepting, 500 when the message fails validation, 201 with the message appended otherwise |
| SendMessageRoute.PushedMessage | src/app/api/send-message/route.ts:28-34 | the pushed sub-document holds only the content and the time, cast through the message schema; absent content fails its `required` check |
| SendMessageRoute.Post | src/app/api/send-message/route.ts:5-48 | the response and the new collection are those of the delivery decision, and the collection stays valid |
| SendMessageRoute.PushedMessageValid | src/app/api/send-message/route.ts:28-35 | the pushed message is refused iff its content is absent or blank; otherwise it is valid, unread, stamped now and holds the trimmed content |
| SendMessageRoute.RefusalsChangeNothing | src/app/api/send-message/route.ts:10-25 | an unknown recipient gets 404 and one not accepting messages gets 403; a refusal changes nothing |
| SendMessageRoute.DeliveryAppendsOne | src/app/api/send-message/route.ts:19-40 | 201 iff the recipient exists, accepts messages and the content is not blank; then exactly one message is appended to the recipient's inbox and nothing else changes |
| SendMessageRoute.OutcomeKeepsValid | src/app/api/send-message/route.ts:34-35 | delivery keeps the collection valid |
| AcceptMessagesRoute.PostOutcome | src/app/api/accept-messages/route.ts:7-54 | the switch decision: 401 without a session, 404 for an unknown user, 200 with the flag set otherwise |
| AcceptMessagesRoute.GetOutcome | src/app/api/accept-messages/route.ts:56-92 | the read decision: 401 without a session, 404 for an unknown user, 200 with the stored flag otherwise |
| AcceptMessagesRoute.Post | src/app/api/accept-messages/route.ts:7-54 | the response and the new collection are those of the switch decision, and the collection stays valid |
| AcceptMessagesRoute.Get | src/app/api/accept-messages/route.ts:56-92 | the response is that of the read decision |
| AcceptMessagesRoute.RefusalsChangeNothing | src/app/api/accept-messages/route.ts:7-76 | without a session both handlers answer 401; for an unknown user they answer 404; neither changes anything |
| AcceptMessagesRoute.PostSetsFlag | src/app/api/accept-messages/route.ts:23-84 | POST sets exactly the session user's flag, answers with the new value, and a later GET reads it back |
| AcceptMessagesRoute.PostIdempotent | src/app/api/accept-messages/route.ts:23-27 | repeating a POST with the same value changes nothing and gives the same response |
| AcceptMessagesRoute.PostKeepsValid | src/app/api/accept-messages/route.ts:23-27 | switching the flag keeps the collection valid |
| GetMessagesRoute.SortNewestFirst | src/app/api/get-messages/route.ts:42-44 | `sort((a, b) => b.createdAt - a.createdAt)` as an insertion sort that puts each message before the first older one |
| GetMessagesRoute.NewestFirst | src/app/api/get-messages/route.ts:42-44 | the order the comparator asks for: no message is older than one after it |
| GetMessagesRoute.Place | src/app/api/get-messages/route.ts:42-44 | the insertion step of the sort: a message goes in front of the first one that is not newer |
| GetMessagesRoute.PlaceBounded | src/app/api/get-messages/route.ts:42-44 | inserting never brings in a message newer than the bound all entries respect |
| GetMessagesRoute.PlaceKeepsOrder | src/app/api/get-messages/route.ts:42-44 | inserting into a list sorted newest first keeps it sorted |
| GetMessagesRoute.PlacePermutes | src/app/api/get-messages/route.ts:42-44 | inserting adds the message and loses nothing |
| GetMessagesRoute.SentAtAppend | src/app/api/get-messages/route.ts:42-44 | the messages sent at a given time in a concatenation are those of each part, in order |
| GetMessagesRoute.PlaceStable | src/app/api/get-messages/route.ts:42-44 | insertion puts a message before every message with the same timestamp |
| GetMessagesRoute.SortNewestFirstCorrect | src/app/api/get-messages/route.ts:42-44 | the sort returns newest first, as a permutation of the input, and keeps the stored order among equal timestamps (a stable sort) |
| GetMessagesRoute.Outcome | src/app/api/get-messages/route.ts:15-57 | the listing decision: 401 without a session, 404 for an unknown user, 200 with the inbox sorted newest first otherwise |
| GetMessagesRoute.Get | src/app/api/get-messages/route.ts:15-57 | the response is that of the listing decision |
| GetMessagesRoute.ListingIsSortedInbox | src/app/api/get-messages/route.ts:21-48 | 401 iff there is no session; 404 iff the session's user is not stored; otherwise 200 with that user's inbox sorted newest first |
| DeleteAccountRoute.Outcome | src/app/api/delete-account/route.ts:7-40 | the deletion decision: 401 without a session, otherwise the session user removed, 200 if stored and 404 if not |
| DeleteAccountRoute.Delete | src/app/api/delete-account/route.ts:7-40 | the response and the new collection are those of the deletion decision, and the collection stays valid |
| DeleteAccountRoute.RemovesOnlySessionUser | src/app/api/delete-account/route.ts:11-31 | without a session, 401 and nothing changes; otherwise exactly the session user is removed, 200 if it was stored and 404 if not |
| DeleteAccountRoute.DeleteTwice | src/app/api/delete-account/route.ts:20-31 | deleting succeeds the first time and answers 404 the second |
| Middleware.Guard | src/middleware.ts:15-37 | the redirect decision: dashboard for a token on an auth page, sign-in with the path as callback for no token on a protected route, otherwise proceed |
| Middleware.IsAuthPage | src/middleware.ts:15-17 | the path starts with `/sign-in`, `/sign-up` or `/verify` |
| Middleware.IsProtectedRoute | src/middleware.ts:19 | the path starts with `/dashboard` |
| Middleware.AuthPagesNotProtected | src/middleware.ts:15-19 | no path is both an auth page and a protected route |
| Middleware.GuardDecides | src/middleware.ts:22-37 | a signed-in user is sent to the dashboard iff the path is an auth page; a signed-out user is sent to sign-in, with the path as callback, iff the path is protected; otherwise the request proceeds |
| MessageSchema.CheckContent | src/schemas/messageSchema.ts:3-8 | the content check for a given upper bound: a string, at least 10 characters, at most the bound, each failure with its message |
| MessageSchema.ParseAsWritten | src/schemas/messageSchema.ts:3-8 | the schema as written, with ten as its maximum |
| MessageSchema.Parse | src/schemas/messageSchema.ts:3-8 | the schema with the maximum of 300 its error text names |
| MessageSchema.AsWrittenAcceptsOnlyTen | src/schemas/messageSchema.ts:3-8 | as written, content passes iff it is a string of exactly ten characters |
| MessageSchema.AsWrittenRefusesEleven | src/schemas/messageSchema.ts:7 | an eleven-character message is refused with a text that promises a 300-character maximum |
| MessageSchema.AcceptsTenToThreeHundred | src/schemas/messageSchema.ts:3-8 | with the bound its error text names, content passes iff it is a string of 10 to 300 characters |
| SuggestMessages.Request.ReadJson | src/app/api/suggest-messages/route.ts:106-116 | the body can be read once; a second read, or a body that is not JSON, throws |
| SuggestMessages.ParseRequest | src/app/api/suggest-messages/route.ts:8-20 | `RequestSchema.safeParse`: an object whose `message` is a non-empty string, or the issues zod reports |
| SuggestMessages.FirstIssue | src/app/api/suggest-messages/route.ts:18 | the first reported issue, or "Invalid input" when there is none |
| SuggestMessages.Unquote | src/app/api/suggest-messages/route.ts:58 | drops one quote at the start and one at the end |
| SuggestMessages.DropNumbering | src/app/api/suggest-messages/route.ts:59 | drops leading digits followed by a dot or a parenthesis and the whitespace after it |
| SuggestMessages.DropDash | src/app/api/suggest-messages/route.ts:60 | drops a leading dash and the whitespace after it |
| SuggestMessages.LabelEnd | src/app/api/suggest-messages/route.ts:61 | a label match ends past where it starts and inside the string |
| SuggestMessages.FirstLabel | src/app/api/suggest-messages/route.ts:61 | the leftmost label match at or after the search start: a match starts at the returned position and ends at the returned end, no earlier position starts one, and nothing is returned only when no position from the start on starts one |
| SuggestMessages.DropLabel | src/app/api/suggest-messages/route.ts:61 | drops the first case-insensitive `suggestion N:` label |
| SuggestMessages.Clean | src/app/api/suggest-messages/route.ts:57-62 | the cleaning chain applied to each entry, in the source's order |
| SuggestMessages.Keep | src/app/api/suggest-messages/route.ts:64-69 | the filter: longer than five characters and, lower-cased, mentioning none of the four preamble words |
| SuggestMessages.KeepAll | src/app/api/suggest-messages/route.ts:64-69 | `.filter` with that predicate |
| SuggestMessages.GeneratedReplies | src/app/api/suggest-messages/route.ts:55-70 | the generated text split at the double bar, each entry cleaned, filtered, and cut to the first three |
| SuggestMessages.SplitWords | src/app/api/suggest-messages/route.ts:74 | splitting on whitespace always gives at least one piece |
| SuggestMessages.Keywords | src/app/api/suggest-messages/route.ts:74 | the first three pieces of the whitespace split, joined by single spaces |
| SuggestMessages.Templates | src/app/api/suggest-messages/route.ts:76-83 | the six fallback templates around the keyword phrase |
| SuggestMessages.IsShuffle | src/app/api/suggest-messages/route.ts:86 | the order the random sort leaves the six templates in: each position once |
| SuggestMessages.Shuffle | src/app/api/suggest-messages/route.ts:86 | the six templates rearranged in that order, each in its place |
| SuggestMessages.WithFallbacks | src/app/api/suggest-messages/route.ts:73-88 | the kept replies made up to three from the shuffled templates |
| SuggestMessages.Dedupe | src/app/api/suggest-messages/route.ts:91 | `Array.from(new Set(s))` |
| SuggestMessages.ContinueLine | src/app/api/suggest-messages/route.ts:93 | the filler naming the first 30 characters of the message |
| SuggestMessages.Padded | src/app/api/suggest-messages/route.ts:92-94 | the distinct replies followed by the filler up to three |
| SuggestMessages.Replies | src/app/api/suggest-messages/route.ts:55-94 | the success path: split, clean, filter, cut to three, fallbacks, dedupe, pad |
| SuggestMessages.RecoveredSubject | src/app/api/suggest-messages/route.ts:107-116 | what the error path would make of a second read: the first two words of a valid message, otherwise "this" |
| SuggestMessages.CatchTemplates | src/app/api/suggest-messages/route.ts:118-123 | the three error-path replies about a subject |
| SuggestMessages.CatchReply | src/app/api/suggest-messages/route.ts:118-125 | the error path's 200 answer: the three replies about "this" joined by the double bar |
| SuggestMessages.Outcome | src/app/api/suggest-messages/route.ts:12-135 | the handler's answer: 400 with the first issue, 200 with the joined replies, or the error path's templates about "this" |
| SuggestMessages.AddFallbacks | src/app/api/suggest-messages/route.ts:73-88 | the reassignment of `suggestions` is the generated replies made up to three from the shuffled templates |
| SuggestMessages.PadToThree | src/app/api/suggest-messages/route.ts:92-94 | the loop pads the distinct replies with the filler up to three, and leaves them alone when there are already three |
| SuggestMessages.Suggest | src/app/api/suggest-messages/route.ts:55-94 | the success path computes the three replies |
| SuggestMessages.Post | src/app/api/suggest-messages/route.ts:12-135 | the reply is the handler's decision, including the error path's second read of the body |
| SuggestMessages.DedupeFacts | src/app/api/suggest-messages/route.ts:91 | `Array.from(new Set(s))` is no longer than `s`, has the same elements and no repeats |
| SuggestMessages.DedupePrefix | src/app/api/suggest-messages/route.ts:87-91 | deduplicating a longer list starts with the deduplicated prefix |
| SuggestMessages.KeepAllFacts | src/app/api/suggest-messages/route.ts:64-69 | an entry is kept iff it is in the input and passes the filter; nothing is added |
| SuggestMessages.KeepAllAppend | src/app/api/suggest-messages/route.ts:64-69 | filtering a concatenation filters each part in order, so the kept entries keep their input order |
| SuggestMessages.CleanIsTrimmed | src/app/api/suggest-messages/route.ts:57-62 | a cleaned entry has no whitespace at either end |
| SuggestMessages.CleanKeepsPlainEntry | src/app/api/suggest-messages/route.ts:57-62 | an entry with nothing to clean is left unchanged |
| SuggestMessages.GeneratedRepliesFiltered | src/app/api/suggest-messages/route.ts:55-70 | at most three model replies are kept, each trimmed and passing the filter, and they are the first survivors in order |
| SuggestMessages.WithFallbacksShape | src/app/api/suggest-messages/route.ts:73-88 | the templates only fill the shortfall: the generated replies stay in front, and the result has three entries |
| SuggestMessages.PadDedupeShape | src/app/api/suggest-messages/route.ts:91-94 | deduplicating and padding gives three entries, with the distinct generated replies first and the filler only at the end |
| SuggestMessages.RepliesShape | src/app/api/suggest-messages/route.ts:55-96 | a successful call has exactly three replies; surviving model replies come first, in order and without repeats; templates appear only when fewer than three survive |
| SuggestMessages.RepliesDrawnFrom | src/app/api/suggest-messages/route.ts:55-94 | every reply is a model reply, a template about the message's first words, or the filler |
| SuggestMessages.TemplatesLonger | src/app/api/suggest-messages/route.ts:76-83 | each template is longer than the keyword phrase it is built on |
| SuggestMessages.RepliesNonEmpty | src/app/api/suggest-messages/route.ts:55-94 | no reply of a successful call is empty |
| SuggestMessages.BodySplitsIntoReplies | src/app/api/suggest-messages/route.ts:96 | split back on the double bar, the success body has exactly three parts |
| SuggestMessages.KeywordsOfOneWord | src/app/api/suggest-messages/route.ts:74 | a message without whitespace is its own keyword phrase |
| SuggestMessages.SplitWordsRuns | src/app/api/suggest-messages/route.ts:74 | the whitespace split gives whitespace-free pieces, only the first and last can be empty, and joined by spaces they are the message with each whitespace run squashed to one space |
| SuggestMessages.KeywordsAreFirstWords | src/app/api/suggest-messages/route.ts:74 | the keyword phrase is the squashed message cut before its third space: its first three whitespace-free runs |
| SuggestMessages.ValidationRefuses | src/app/api/suggest-messages/route.ts:8-20 | 400 iff the body is JSON without a non-empty string `message`; the answer is the first issue |
| SuggestMessages.ErrorPathSaysThis | src/app/api/suggest-messages/route.ts:103-133 | a malformed body or a failed or empty generation gets 200 with the three fixed templates about "this" |
| SuggestMessages.ErrorPathIgnoresMessage | src/app/api/suggest-messages/route.ts:106-116 | a valid one-word message reaching the error path is still answered about "this", though a fresh read would have named it |
| SuggestMessages.RecoveredSubjectNamesMessage | src/app/api/suggest-messages/route.ts:110-113 | read from the parsed body, the subject is the message itself for a one-word message |
| MessageSuggester.Shown | src/components/MessageSuggester.tsx:14-57 | what the component ends up showing, on the whole received text: the first three non-empty complete lines, then the trimmed leftover if the stream ended normally and there is room |
| MessageSuggester.NonEmpty | src/components/MessageSuggester.tsx:42 | `filter(Boolean)`: every line kept is non-empty and comes from the input |
| MessageSuggester.Suggester.GenerateSuggestions | src/components/MessageSuggester.tsx:14-57 | whatever the chunk boundaries and wherever a read throws, the suggestions shown are those of the whole received text, and loading ends false |
| MessageSuggester.ReadStep | src/components/MessageSuggester.tsx:35-39 | after each chunk, the complete lines so far plus the carried buffer are the split of all text received |
| MessageSuggester.FilteredStep | src/components/MessageSuggester.tsx:41-45 | appending the new non-empty lines to the cut list and cutting again gives the first three non-empty lines of all text so far |
| MessageSuggester.NonEmptyAppend | src/components/MessageSuggester.tsx:42 | filtering out empty lines distributes over concatenation |
| MessageSuggester.TakeAbsorbs | src/components/MessageSuggester.tsx:41-50 | cutting to three before appending and cutting again loses nothing |
| MessageSuggester.ShownBounded | src/components/MessageSuggester.tsx:38-51 | at most three suggestions, none empty and none holding a newline, each a complete line or the trimmed leftover |
| MessageSuggester.EarliestKept | src/components/MessageSuggester.tsx:41-51 | with three or more non-empty lines, the first three are shown |
| MessageSuggester.LeftoverOnlyAtNormalEnd | src/components/MessageSuggester.tsx:49-56 | the leftover is shown only after a normal end, only when not blank and only if there is room |
| MessageSuggester.OneLineBodyShownWhole | src/components/MessageSuggester.tsx:38-51 | a body without a newline is shown as one trimmed suggestion, or none if blank |
| MessageSuggester.ServerRepliesShownAsOne | src/components/MessageSuggester.tsx:38 | the server's double-bar-joined success body is shown as a single suggestion |
| MessageSuggester.IntendedShowsReplies | src/app/api/suggest-messages/route.ts:96 | split at the double bar, the success body gives back the server's three replies |
| Text.Trim | src/model/User.model.ts:16 | `String.prototype.trim`: leading and trailing whitespace removed |
| Text.TrimStart | src/app/api/suggest-messages/route.ts:59-60 | the `\s*` after a leading number or dash: the leading whitespace removed |
| Text.Lower | src/app/api/suggest-messages/route.ts:65-68 | `toLowerCase` on ASCII letters: the same length, each character lower-cased |
| Text.Contains | src/app/api/suggest-messages/route.ts:65-68 | `includes`: the pattern occurs at some position |
| Text.StartsWith | src/middleware.ts:15-19 | `startsWith`: the string begins with the prefix |
| Text.Take | src/app/api/suggest-messages/route.ts:70 | `slice(0, n)`: a prefix, of length n or the whole sequence when shorter |
| Text.Split | src/app/api/suggest-messages/route.ts:56 | `split` on a literal separator, empty pieces included |
| Text.Join | src/app/api/suggest-messages/route.ts:96 | `join` with a separator |
| Text.Decimal | src/app/api/sign-up/route.ts:39 | the decimal digits of a natural number, as `toString` gives them |
| Text.LeadingSpacesExact | src/model/User.model.ts:16 | the leading-whitespace count covers only whitespace and stops at the first other character |
| Text.TrailingSpacesExact | src/model/User.model.ts:16 | likewise for the trailing whitespace |
| Text.TrimIsBlankSlice | src/model/User.model.ts:16 | `trim` returns a slice whose margins are whitespace, has no whitespace at either end, and is empty iff the input is blank |
| Text.TrimIdempotent | src/model/User.model.ts:50 | trimming twice equals trimming once |
| Text.LowerTrimCommute | src/model/User.model.ts:56-57 | lower-casing and trimming commute |
| Text.JoinSplit | src/app/api/suggest-messages/route.ts:55-56 | joining the pieces of a split with the separator gives the text back |
| Text.SplitJoin | src/app/api/suggest-messages/route.ts:96 | splitting a join gives the pieces back when they avoid the separator |
| Text.SplitConcat | src/components/MessageSuggester.tsx:35-39 | splitting on one character can be done chunk by chunk, carrying the last piece |
| Text.DecimalRoundTrip | src/app/api/sign-up/route.ts:39 | reading back a number's decimal digits gives the number |
| Text.DecimalLength | src/app/api/sign-up/route.ts:39 | a number between 10^(k-1) and 10^k has k decimal digits |

## Left out

- Database connection, `getServerSession`, `getToken`, the mail service, the language model call and its prompt text are not modelled. Their results are parameters: the session's user id, whether a token exists, whether the mail went out, and the generated text or its failure.
- `bcrypt.hash` is modelled as an injective tag in front of the password. Salting and the one-way property are out of scope.
- `Math.random` is not modelled: the code offset and the order the shuffle leaves the templates in are parameters. Whether `sort(() => Math.random() - 0.5)` is uniform is not a property of the model.
- The `createdAt`/`updatedAt` timestamps that `timestamps: true` adds, and the `_id` of embedded messages, are not modelled. The `matcher` config of the middleware is not modelled either: the guard is modelled for every path.
- The new user's expiry comes from `setHours(getHours() + 1)`. It is modelled as one hour in milliseconds; daylight-saving shifts are left out.
- Lengths are counted in Unicode code points, not UTF-16 code units. Lower-casing is ASCII only: that is exact for the filter words of the suggestion filter and for the `i` flag without `u`, but not for the `lowercase` setter on non-ASCII emails.
- Request fields that are absent from the JSON in sign-up, accept-messages and send-message (`username` there; `undefined` passed on to Mongoose) are not modelled: each is taken to be a string. The send-message `content` field is modelled as optional.
- The `TextDecoder` is not modelled: chunks arrive already decoded. React's batching of state updates is modelled as updates applied in order.
- The overwrite branch of sign-up for an unverified email holder (src/app/api/sign-up/route.ts:51-58) is unreachable, because the lookup already demands `isVerified: true`. It is kept as a dead branch.
- SuggestMessages.BodySplitsIntoReplies: requires that no reply contains a `|`. The user's own message is the common way one gets in: the templates and the filler quote the message, so a message holding `||` (for example "a||b") puts the separator into the fallback replies and the body splits into more than three parts. A model reply never holds `||` itself, since the first split cut there, but one that starts or ends with a single `|` also shifts the split.
- MessageSuggester.IntendedShowsReplies: requires that no reply contains a `|`, for the same reason: a message holding `||` puts the separator into the templates and the filler.
- The `delete-message` route and the pages and components other than the read loop of `MessageSuggester` are not part of this model.

## Findings

| source | as written | input that shows it | evidently intended | confidence | as-written member | corrected member |
|---|---|---|---|---|---|---|
| src/schemas/messageSchema.ts:6-7 | `.min(10)` and `.max(10)`: only content of exactly ten characters passes | "Hello there" (11 characters) is refused with "Content must be maximum 300 characters long" | a maximum of 300, as the message says | high; not executed | MessageSchema.AsWrittenRefusesEleven | MessageSchema.AcceptsTenToThreeHundred |
| src/app/api/suggest-messages/route.ts:108-113 | the error path calls `req.json()` a second time; the body was already read, so the call throws and the subject is always "this" | message "pizza" with a failed generation gets replies about "this" | replies about the message's first two words | high; not executed | SuggestMessages.ErrorPathIgnoresMessage | SuggestMessages.RecoveredSubjectNamesMessage |
| src/components/MessageSuggester.tsx:38 | the client splits the stream at newlines, while the server joins its replies with the double bar | replies "a reply one", "a reply two", "a reply three" are shown as the single suggestion "a reply one, double bar, a reply two, double bar, a reply three" | three suggestions, split at the double bar | high; not executed | MessageSuggester.ServerRepliesShownAsOne | MessageSuggester.IntendedShowsReplies |
