# MERN_BLOGS request security and blog logic, modelled in Dafny

MERN_BLOGS is a blogging site: an Express/MongoDB back end and a React front end.
This project models the part of it that makes decisions rather than rendering pages.

- **CSRF scheme.** The server keeps one in-memory map from a session key to a token.
  - The key is `user_<id>` for a logged-in caller and `anon_<ip>_<first 50 chars of User-Agent>` otherwise.
  - `createCSRFToken` always overwrites the caller's token. `getCSRFToken` creates one only when none is stored.
  - `verifyCSRF` lets GET, HEAD and OPTIONS through. Every other method is refused with 403 when its token is missing, when no token is stored for the caller, or when the two differ.
  - Module `CsrfGuard`, class `TokenStore`.
- **Identity.** `authenticate`, `optionalAuth` and `onlyadmin` are decision tables. Their inputs are the access cookie and the outcome of JWT verification: decoded, expired, malformed or another failure. Module `Identity`.
- **Pipeline.** Every API request passes `optionalAuth`, then `verifyCSRF`, then the routes. The `/api/csrf-token` chain rotates the caller's token. Errors leave through one JSON envelope. Module `Server`.
- **Auth flows.** Register, Login, GoogleLogin, Logout and VerifyToken run against an abstract user table and the CSRF store. Login and GoogleLogin store exactly the token they hand back. Module `AuthController`.
- **Users.** `getUser` projects away the password. `updateUser` applies the owner-or-admin rule and the field rules. `toggleBookmark` pushes or splices the bookmark list, and `checkBookmark` reads it. Module `UserController`.
- **Likes.** A set of (user, blog) pairs. `doLike` toggles one pair and counts; `likeCount` reads. Module `BlogLikeController`, class `LikeTable`.
- **Blogs.**
  - `calculateReadingTime` is in module `ReadingTime`.
  - Add/update validation and field rules, the blank-search guard, `getAllBlogs` pagination and the owner/admin filter of `showAllBlog` are in module `BlogController`.
- **Client.**
  - Cookie lookup, the token cache and `fetchWithCSRF` are in module `ClientCsrf`, class `TokenCache`.
  - `apiFetch`, with its single retry after a CSRF refusal, and `apiCall` are in module `ClientApi`.
  - The add/edit blog editors are in module `BlogEditor`: tag lists, slug from title, category-id fallback, image clearing and the submit guards.

Effects the code delegates become parameters:
- the database becomes sequences of records held by `Db.UserTable` and `Db.BlogTable`;
- `jwt.sign`/`jwt.verify`, bcrypt, `crypto.randomBytes`, the HTML entity encoder and decoder, `slugify` and Cloudinary are passed in as function or value parameters;
- each `fetch` outcome is an input.

Shared text helpers live in `Text`: JavaScript `trim`, ASCII `toLowerCase`, truthiness of an optional string, and substring search. Generic sequence helpers live in `Seqs`, and the HTTP reply and error shapes in `Http`.

## Model

| member | source | states |
|---|---|---|
| CsrfGuard.UserKey | backend/middleware/csrf.js:22-30 | the user key is `user_` followed by the id, exactly |
| CsrfGuard.AgentPart | backend/middleware/csrf.js:18 | the first 50 characters of a non-empty User-Agent, or `unknown` when it is absent or empty |
| CsrfGuard.SessionId | backend/middleware/csrf.js:13-19 | a user key exactly when the caller has a non-empty id; otherwise `anon_` + ip + `_` + agent part |
| CsrfGuard.UserKeyInjective | backend/middleware/csrf.js:13-19 | two users with the same key have the same id |
| CsrfGuard.AnonymousKeysCollide | backend/middleware/csrf.js:18 | anonymous callers from one ip whose User-Agents share their first 50 characters share a key, and so a token |
| CsrfGuard.SuppliedToken | backend/middleware/csrf.js:68 | header, else body, else query token; an empty string falls through; some source is truthy iff the result is |
| CsrfGuard.Check | backend/middleware/csrf.js:57-83 | safe methods always proceed; otherwise missing iff no supplied token, not-found iff supplied but none stored, proceed iff both present and equal |
| CsrfGuard.VerdictError | backend/middleware/csrf.js:70-79 | no error exactly for proceed; every refusal is a 403 |
| CsrfGuard.RefusalsAreDistinguished | backend/middleware/csrf.js:70-79 | the three refusals carry three different messages |
| CsrfGuard.ReissueInvalidatesOldToken | backend/middleware/csrf.js:34-54 | after a new token is stored, an unsafe request with the previous token is invalid and one with the new token proceeds |
| CsrfGuard.TokenStore.constructor | backend/middleware/csrf.js:5 | the store starts empty |
| CsrfGuard.TokenStore.Lookup | backend/middleware/csrf.js:30 | a token comes back iff the key is stored, and it is the stored one |
| CsrfGuard.TokenStore.SetCsrfTokenForUser | backend/middleware/csrf.js:22-25 | the map afterwards is the old map with the user key set to the token, nothing else changed |
| CsrfGuard.TokenStore.GetCsrfTokenForUser | backend/middleware/csrf.js:28-31 | the token stored under the user key, or none |
| CsrfGuard.SetThenGetForUser | backend/middleware/csrf.js:22-31 | reading a user's token right after setting it gives that token, and no other key's entry changes |
| CsrfGuard.TokenStore.CreateCsrfToken | backend/middleware/csrf.js:34-54 | the caller's key is overwritten with the new token; cookie and header carry that same token |
| CsrfGuard.TokenStore.VerifyCsrf | backend/middleware/csrf.js:57-83 | the error is that of `Check` on the supplied and stored tokens for the caller's key; the store is not modified |
| CsrfGuard.TokenStore.GetCsrfToken | backend/middleware/csrf.js:86-110 | an existing token is returned and the store is untouched; otherwise a new token is stored and set as cookie, header and body; header and body always agree and are non-empty |
| Identity.Authenticate | backend/middleware/authenticate.js:4-28 | 401 without a cookie; passes with the decoded payload iff verification decodes; expiry and other failures give 401 with distinct messages, and anything else 500 |
| Identity.OptionalAuth | backend/middleware/authenticate.js:31-50 | a user iff the cookie is present and decodes, and then the decoded payload; never refuses |
| Identity.OnlyAdmin | backend/middleware/onlyadmin.js:3-22 | 401 without a cookie; passes iff the token decodes to an admin; a decoded non-admin gets 403; every verification failure, expiry included, gives 500 |
| Identity.OptionalAuthAgreesWithAuthenticate | backend/middleware/authenticate.js:4-50 | optionalAuth's user is exactly the user authenticate would pass |
| Identity.OnlyAdminRefinesAuthenticate | backend/middleware/onlyadmin.js:3-22 | whoever passes the admin gate passes authenticate with the same payload |
| Identity.ExpiredTokenAnswers | backend/middleware/authenticate.js:17-24 | an expired token gets 401 "session expired" from authenticate but 500 from the admin gate |
| Server.Envelope | backend/index.js:73-81 | never successful; a non-zero status and non-empty message are kept, otherwise 500 and "Internal server error"; the stack is present iff not in production |
| Server.EnvelopeKeepsHandledError | backend/index.js:73-81 | an error raised with a status and message is answered with exactly that status and message |
| Server.Pipeline | backend/index.js:60-70 | a request reaches the routes, carrying the user `optionalAuth` found, exactly when its method is safe or it supplies a non-empty token equal to the one stored under its session key; every other request is answered with a 403 |
| Server.HandleApiRequest | backend/index.js:60-81 | running optionalAuth then the guard on the store gives the pipeline's outcome |
| Server.SafeMethodsReachRoutes | backend/middleware/csrf.js:59-61 | GET, HEAD and OPTIONS reach the routes whatever the tokens |
| Server.LoggedInTokenPasses | backend/index.js:60-62 | a logged-in caller sending the token stored under its user key reaches the routes as that user |
| Server.UnverifiedCookieUsesAnonymousKey | backend/index.js:60-62 | when the access cookie does not verify, the guard looks under the anonymous key and refuses with "not found" if nothing is there |
| Server.CsrfTokenEndpoint | backend/index.js:58 | the token endpoint always stores a fresh token under the caller's key and returns it as cookie, header and body |
| Server.RotationScenario | backend/index.js:58 | after two token fetches, the first token is refused as invalid and the second passes |
| AuthController.Register | backend/controllers/Auth.controller.js:10-44 | for a fresh id: 400 unless name, email and password are all truthy; 409 for a known normalised email; otherwise success, with one user appended with trimmed name, normalised email and hashed password; failures leave the table unchanged |
| AuthController.IssueSession | backend/controllers/Auth.controller.js:91-109 | the user's CSRF key holds the generated token, and the reply's cookie, header and body carry that token |
| AuthController.Login | backend/controllers/Auth.controller.js:46-114 | 400 without body or credentials; success iff the normalised email is known and the password compares; with credentials, an unknown email and a wrong password give the same 401 "Invalid login credentials."; success stores exactly the token it returns; failure leaves the store unchanged |
| AuthController.GoogleLogin | backend/controllers/Auth.controller.js:116-186 | 400 without name and email, otherwise success; an existing user is reused and the table is unchanged, else one user is created under a fresh id; the issued token is the stored one |
| AuthController.Logout | backend/controllers/Auth.controller.js:188-204 | the access cookie is cleared and the CSRF cookie is not |
| AuthController.VerifyToken | backend/controllers/Auth.controller.js:207-221 | 200 with the user iff one is attached, otherwise 401 |
| AuthController.LoginThenUnsafeRequest | backend/controllers/Auth.controller.js:91-109 | a follow-up request is made exactly when the login succeeds, and then an unsafe request with the returned cookie and token reaches the routes as that user |
| AuthController.SessionPasses | backend/controllers/Auth.controller.js:71-99 | the access cookie and CSRF token of a session issued for a user, sent back while the token is stored, pass the pipeline as that user |
| UserController.GetUser | backend/controllers/User.controller.js:7-32 | 400 for an empty id, 404 for an unknown one, success for a stored one; success returns a stored user's public view, without password |
| UserController.UpdatedProfile | backend/controllers/User.controller.js:50-67 | the record after the field assignments keeps its id, role and bookmarks |
| UserController.UpdatedProfileChanges | backend/controllers/User.controller.js:50-67 | a truthy name is stored trimmed, a truthy email lower-cased and trimmed, a string bio trimmed, an upload's URL as the avatar; the password changes exactly when a new one of at least eight characters is sent, to its hash; absent fields keep their values; id, role and bookmarks never change |
| UserController.UpdateUser | backend/controllers/User.controller.js:34-82 | 403 unless the caller is the owner or an admin; 404 for an unknown user; a null bio fails with 500; otherwise success, replacing exactly that user's record with the updated profile; failures change nothing |
| UserController.Toggle | backend/controllers/User.controller.js:136-147 | added iff absent, then appended at the end; otherwise one occurrence is removed |
| UserController.ToggleTwiceAbsent | backend/controllers/User.controller.js:136-147 | toggling an absent blog twice restores the list |
| UserController.ToggleSplit | backend/controllers/User.controller.js:136-147 | removal cuts out the first occurrence and keeps the rest in order |
| UserController.ToggleTwicePresentOnce | backend/controllers/User.controller.js:136-147 | toggling a present blog twice keeps the same contents, with the blog moved to the end |
| UserController.ToggleAgreesWithCheck | backend/controllers/User.controller.js:136-147 | on a duplicate-free list the reported `isBookmarked` equals membership afterwards, and the list stays duplicate-free |
| UserController.ToggleBookmark | backend/controllers/User.controller.js:120-159 | 404 for an unknown blog or user, success when both exist; success changes only the caller's bookmarks, by Toggle, and reports Toggle's flag |
| UserController.CheckBookmark | backend/controllers/User.controller.js:189-210 | 404 iff the caller is unknown, success otherwise, answering whether the caller's bookmarks hold the blog |
| BlogLikeController.LikesFor | backend/controllers/BlogLike.controller.js:18 | exactly the likes of one blog |
| BlogLikeController.Toggled | backend/controllers/BlogLike.controller.js:7-16 | the pair is present afterwards iff it was absent; every other pair is unchanged |
| BlogLikeController.ToggleTwiceRestores | backend/controllers/BlogLike.controller.js:7-16 | liking twice restores the like set |
| BlogLikeController.ToggledCount | backend/controllers/BlogLike.controller.js:7-18 | a like raises the blog's count by one, an unlike lowers it by one, and other blogs' counts do not move |
| BlogLikeController.Status | backend/controllers/BlogLike.controller.js:28-53 | the count is the blog's number of likes; `isUserliked` iff a non-blank user id has liked it, which implies a count of at least one |
| BlogLikeController.DoLikeFlipsStatus | backend/controllers/BlogLike.controller.js:3-53 | after doLike, likeCount reports the user's liked flag flipped |
| BlogLikeController.LikeTable.DoLike | backend/controllers/BlogLike.controller.js:3-27 | the pair is removed if present and added if absent, and the reply is the blog's new count |
| BlogLikeController.LikeTable.LikeCount | backend/controllers/BlogLike.controller.js:28-53 | answers 200 with the blog's status |
| BlogLikeController.DoubleLike | backend/controllers/BlogLike.controller.js:3-27 | two doLike calls restore the table; the two counts differ by one in the direction of the first call |
| ReadingTime.StripTags | backend/controllers/Blog.controller.js:11 | removing tags never makes the text longer |
| ReadingTime.StripTagsLeavesNoTag | backend/controllers/Blog.controller.js:11 | the result has no character the input lacks, and no `<` in it is followed by a `>` |
| ReadingTime.AfterCloseFound | backend/controllers/Blog.controller.js:11 | a `<` opens a tag exactly when some `>` follows it, and the rest after that `>` brings no new character |
| ReadingTime.CloseAfter | backend/controllers/Blog.controller.js:11 | a tag ends at its first `>` (`[^>]*`), and the text after it is what remains |
| ReadingTime.PlainTextUnchanged | backend/controllers/Blog.controller.js:11 | text without `<` is unchanged |
| ReadingTime.NoCloseUnchanged | backend/controllers/Blog.controller.js:11 | without any `>`, every unclosed `<` stays and the text is unchanged |
| ReadingTime.TagRemoved | backend/controllers/Blog.controller.js:11 | a closed tag disappears entirely |
| ReadingTime.Pieces | backend/controllers/Blog.controller.js:12 | splitting on white-space runs yields at least one piece |
| ReadingTime.Minutes | backend/controllers/Blog.controller.js:13-14 | at least one; for n words, the least m with n <= 200·m |
| ReadingTime.CalculateReadingTime | backend/controllers/Blog.controller.js:8-15 | at least 1 (the schema's minimum); 1 for empty content and for content without words; otherwise the number of started 200-word blocks of the tag-free text |
| ReadingTime.NoWordsIffBlank | backend/controllers/Blog.controller.js:12 | no words exactly when the text is all white space |
| ReadingTime.SplitJoin | backend/controllers/Blog.controller.js:12 | splitting words joined by single spaces gives the words back |
| ReadingTime.JoinedWordsCount | backend/controllers/Blog.controller.js:12 | n words separated by single spaces count as n words |
| Text.Trim | backend/controllers/Blog.controller.js:272 | never longer, with no white space at either end; identity on trimmed text |
| Text.TrimStartDropsSpace | backend/controllers/Blog.controller.js:272 | what is cut from the front is white space |
| Text.TrimEndDropsSpace | backend/controllers/Blog.controller.js:272 | what is cut from the back is white space |
| Text.TrimInside | backend/controllers/Blog.controller.js:272 | the result is the slice of the input that starts after the leading white space |
| Text.TrimBlank | backend/controllers/Blog.controller.js:272 | empty iff the input is all white space |
| Text.LowerTrimCommute | backend/models/blog.model.js:40 | lowercasing and trimming commute, so the editors' trim-then-lower agrees with the schema's lower-then-trim |
| Text.NormalizeIdempotent | backend/models/blog.model.js:40 | normalising a normalised tag changes nothing |
| Text.NatToStringDecimal | backend/controllers/Blog.controller.js:43 | the number is written as a decimal numeral without leading zeros that denotes it |
| Text.NatToStringInjective | backend/controllers/Blog.controller.js:43 | different numbers are written differently |
| BlogController.NormalizeTags | backend/models/blog.model.js:40 | same length; each tag is lowercased and trimmed |
| BlogController.NormalizeTagsKeepsNormal | backend/models/blog.model.js:40 | tags that are already normal are stored unchanged |
| BlogController.SuffixedSlug | backend/controllers/Blog.controller.js:43 | the slug, then `-`, then a decimal numeral without leading zeros that denotes the suffix |
| BlogController.SuffixesDistinguishSlugs | backend/controllers/Blog.controller.js:43 | different suffixes give different slugs for the same submitted slug |
| BlogController.NewBlog | backend/controllers/Blog.controller.js:37-48 | the record keeps author and category; it has a trimmed title, suffixed slug, encoded content, reading time at least 1 and normalised tags |
| BlogController.AddBlog | backend/controllers/Blog.controller.js:17-59 | 400 without title, category or content, then 400 without an image; otherwise success, appending exactly the new record; failures change nothing |
| BlogController.EditedBlog | backend/controllers/Blog.controller.js:93-106 | id and author are kept; category and slug are taken as sent; the title is trimmed; the image changes only with an upload; tags are replaced when sent and otherwise re-normalised |
| BlogController.UpdateKeepsTags | backend/controllers/Blog.controller.js:93-106 | an update without tags keeps normal stored tags unchanged |
| BlogController.UpdateBlog | backend/controllers/Blog.controller.js:83-117 | 404 for an unknown blog; a missing title fails with 500; otherwise success, replacing exactly that blog's record; failures change nothing |
| BlogController.Search | backend/controllers/Blog.controller.js:261-292 | a blank query gives 200 with no results; a trimmed query that is not a valid pattern gives 500 with the thrown message; otherwise 200 with exactly the blogs matching the trimmed query |
| BlogController.SearchIgnoresSurroundingSpace | backend/controllers/Blog.controller.js:265-272 | surrounding white space in the query does not change the results |
| BlogController.PageCount | backend/controllers/Blog.controller.js:311-315 | `Math.ceil(total / limit)`: none for a zero limit, the least page count covering the total for a positive one |
| BlogController.Window | backend/controllers/Blog.controller.js:298-305 | a contiguous run of the blogs from `skip`, at most `limit` long, cut short only by the end |
| BlogController.GetAllBlogs | backend/controllers/Blog.controller.js:294-323 | defaults page 1 and limit 12; a negative skip fails with 500; otherwise the window and the pagination record |
| BlogController.DefaultListing | backend/controllers/Blog.controller.js:296-297 | with no parameters, the first twelve blogs, or all of them if fewer |
| BlogController.PagesCoverAllBlogs | backend/controllers/Blog.controller.js:296-317 | a page is non-empty exactly when its number is at most the reported page count |
| BlogController.EveryBlogOnAPage | backend/controllers/Blog.controller.js:296-317 | every blog appears on some page within the page count, at the expected position |
| BlogController.ShowAllBlog | backend/controllers/Blog.controller.js:137-165 | an admin sees every blog; anyone else sees exactly their own |
| ClientCsrf.FindOccurs | client/src/helpers/csrf.js:8 | a position the separator search returns is an occurrence |
| ClientCsrf.FindBefore | client/src/helpers/csrf.js:8 | no occurrence precedes the position returned, and none exists when -1 is returned |
| ClientCsrf.SplitJoin | client/src/helpers/csrf.js:8-9 | `split`: the pieces, joined with the separator, give the input back |
| ClientCsrf.SplitPartsClean | client/src/helpers/csrf.js:8-9 | `split`: no piece contains the separator |
| ClientCsrf.SplitOnce | client/src/helpers/csrf.js:8 | a separator occurring exactly once cuts the text into the parts before and after it |
| ClientCsrf.GetCookie | client/src/helpers/csrf.js:6-11 | a value found holds no `;` |
| ClientCsrf.CookieValueIsInCookie | client/src/helpers/csrf.js:6-11 | a value found contains no `;` and follows `; name=` in the cookie string |
| ClientCsrf.AbsentCookie | client/src/helpers/csrf.js:6-11 | without `; name=`, nothing is found |
| ClientCsrf.DuplicateCookie | client/src/helpers/csrf.js:9 | two occurrences of the name make the lookup give nothing |
| ClientCsrf.PresentCookie | client/src/helpers/csrf.js:6-11 | a single occurrence gives the text up to the next `;` |
| ClientCsrf.FetchedToken | client/src/helpers/csrf.js:14-51 | header, else cookie, else body after a successful fetch; cookie or nothing after a failed one |
| ClientCsrf.StoredAfterFetch | client/src/helpers/csrf.js:14-51 | the cache holds what the fetch returned, except that a failed fetch with no cookie leaves it as it was |
| ClientCsrf.ReadToken | client/src/helpers/csrf.js:54-64 | the cookie token when usable, else the cached one |
| ClientCsrf.SetThenRead | client/src/helpers/csrf.js:54-69 | after setCSRFToken, reads answer the set token unless a usable cookie overrides it |
| ClientCsrf.FetchAgreesWithServer | client/src/helpers/csrf.js:14-64 | when the endpoint hands out one token, the client caches it and reads it back |
| ClientCsrf.TokenCache.constructor | client/src/helpers/csrf.js:3 | the cache starts empty |
| ClientCsrf.TokenCache.GetCsrfToken | client/src/helpers/csrf.js:54-64 | returns and caches the token ReadToken selects |
| ClientCsrf.TokenCache.SetCsrfToken | client/src/helpers/csrf.js:67-69 | the cache holds exactly the given token |
| ClientCsrf.TokenCache.FetchCsrfToken | client/src/helpers/csrf.js:14-51 | returns FetchedToken and leaves the cache as StoredAfterFetch says |
| ClientCsrf.TokenCache.FetchWithCsrf | client/src/helpers/csrf.js:77-96 | the caller's headers are kept and `X-CSRF-Token` is set to the read token, else a fetched one, else the empty string; the cache ends as the read and the refresh leave it, and a non-empty header is the cached token |
| ClientApi.BaseHeaders | client/src/helpers/api.js:17-21 | JSON content type unless the body is form data; the caller's headers win and nothing else is added |
| ClientApi.ApiFetch | client/src/helpers/api.js:4-56 | one or two requests; a second one is sent iff the first answer is a 403 mentioning CSRF and a fresh token is obtained; it differs from the first only in the token; the last response is returned; the cache ends as the read and the refreshes leave it, holding the retry's token after a retry |
| ClientApi.InitialTokenIsCached | client/src/helpers/api.js:8-14 | a usable first token is what the cache holds afterwards |
| ClientApi.ApiCall | client/src/helpers/api.js:59-74 | success iff a 2xx JSON answer; otherwise the server's message, a status fallback, or the network or parse error |
| ClientApi.FailureExplained | client/src/helpers/api.js:64-68 | a failed JSON answer always carries a non-empty reason |
| ClientApi.GuardRefusalsAreRetried | client/src/helpers/api.js:36-52 | every refusal of the server's CSRF guard reaches the client as a retryable CSRF refusal |
| ClientApi.GuardMessageMentionsCsrf | backend/middleware/csrf.js:70-79 | each guard message contains `CSRF` |
| ClientApi.AdminRefusalIsNotRetried | client/src/helpers/api.js:36-52 | the admin gate's 403 is not mistaken for a CSRF refusal |
| BlogEditor.Candidate | client/src/pages/Blog/AddBlog.jsx:78-79 | the typed text trimmed and lowercased, a normal tag; empty iff the input is blank |
| BlogEditor.AddTag | client/src/pages/Blog/AddBlog.jsx:76-82 | the list grows iff the input is not blank and its normal form is new, then by that tag at the end with the input cleared; otherwise nothing changes |
| BlogEditor.RemoveTag | client/src/pages/Blog/AddBlog.jsx:84-86 | every copy of the tag goes and every other tag stays |
| BlogEditor.AddTagKeepsTagList | client/src/pages/Blog/EditBlog.jsx:130-136 | adding keeps a list normalised and duplicate-free |
| BlogEditor.AddTagIdempotent | client/src/pages/Blog/AddBlog.jsx:76-82 | adding twice is adding once |
| BlogEditor.RemoveTagKeepsOthers | client/src/pages/Blog/EditBlog.jsx:138-140 | removing a tag keeps the others in order |
| BlogEditor.RemoveTagKeepsTagList | client/src/pages/Blog/AddBlog.jsx:84-86 | removing keeps a list normalised and duplicate-free |
| BlogEditor.AddThenRemove | client/src/pages/Blog/AddBlog.jsx:76-86 | removing a freshly added tag restores the list |
| BlogEditor.AddFormSlug | client/src/pages/Blog/AddBlog.jsx:69-74 | a non-empty title sets the slug to its slugified form; otherwise the slug is kept |
| BlogEditor.EditFormSlug | client/src/pages/Blog/EditBlog.jsx:123-128 | the slug is regenerated iff the title is non-empty and differs from the loaded title |
| BlogEditor.EditSlugWithoutLoadedBlog | client/src/pages/Blog/EditBlog.jsx:123-128 | before a blog is loaded, the edit form's slug rule is the add form's |
| BlogEditor.CategoryId | client/src/pages/Blog/EditBlog.jsx:96-102 | a string category is used as is, an object contributes its id, anything else gives "" |
| BlogEditor.CategoryIdEmpty | client/src/pages/Blog/EditBlog.jsx:96-102 | the form starts without a category exactly when no shape carries an id |
| BlogEditor.LoadForm | client/src/pages/Blog/EditBlog.jsx:93-114 | absent fields become "", content is decoded, the preview is the stored image, and stored tags replace the current ones only when present |
| BlogEditor.LoadKeepsStoredSlug | client/src/pages/Blog/EditBlog.jsx:104-128 | loading a blog does not overwrite its stored slug |
| BlogEditor.ClearAddImage | client/src/pages/Blog/AddBlog.jsx:282-286 | file and preview both cleared |
| BlogEditor.ClearEditImage | client/src/pages/Blog/EditBlog.jsx:350-354 | file cleared and preview reset to the stored image |
| BlogEditor.AddSubmit | client/src/pages/Blog/AddBlog.jsx:88-121 | blocked iff the form is invalid; refused with the image toast iff valid without a file; otherwise sends the file with the author and tags |
| BlogEditor.EditSubmit | client/src/pages/Blog/EditBlog.jsx:142-168 | blocked iff invalid; never refused for a missing file; sends the values and tags without an author |
| BlogEditor.ServerData | client/src/pages/Blog/AddBlog.jsx:91-100 | the server receives title, category, slug, content and tags as the form held them |
| BlogEditor.ClearedAddImageIsRefused | client/src/pages/Blog/AddBlog.jsx:92-96 | after clearing the image, a valid add form is refused |
| BlogEditor.SentBlogPassesServerChecks | client/src/pages/Blog/AddBlog.jsx:88-121 | whatever the add form sends passes addBlog's checks, and a well-kept tag list is stored as edited |
| BlogEditor.ClearedEditImageKeepsStored | client/src/pages/Blog/EditBlog.jsx:142-168 | saving an edit after clearing the image keeps the stored image, and well-kept tags are stored as edited |

## Left out

- Cookie attributes are not modelled: `httpOnly`, `secure`, `sameSite`, `path` and the seven-day `maxAge` are transport settings.
- `cleanupCSRFTokens` (backend/middleware/csrf.js:113-116) is not modelled because its body is empty.
- `generateCSRFToken` is not modelled. It reads `crypto.randomBytes`, so each fresh token arrives as a parameter assumed to be 64 hex digits.
- Concurrency is not modelled. Requests are sequential, so interleaved access to the token map is not captured.
- Database queries are not modelled as Mongo queries. The tables are sequences searched front to back, so sort order (`createdAt`), `populate` and indexes are not captured.
- The search's regular-expression matching is not modelled. It is a `matches` parameter, and whether the trimmed query is a valid pattern is a `patternError` parameter. Only the blank-query guard, the trimming and the 500 for an invalid pattern are modelled.
- JSON parsing of the `data` field is not modelled, in `addBlog`, `updateBlog` and `updateUser` alike. The form data arrives already parsed, so the 500 a missing or malformed `data` gives is not captured. In `updateUser` (backend/controllers/User.controller.js:36) that 500 comes before the 403 ownership check, and `UserController.UpdateUser` does not model it. `blogContent` is assumed to be a string.
- Register on a request with no body at all is not modelled. Only missing fields are.
- `doLike` with an undefined user or blog id is not modelled. Likes are a set of pairs, and the like document's own `_id` is not modelled.
- `getAllBlogs`'s parameter parsing is not modelled. The page and limit arrive as integers or absent, so `parseInt` returning `NaN` is not captured. The database's message for a negative skip is a parameter.
- `toLowerCase` is not modelled beyond ASCII. It maps A–Z only, and string lengths count characters, not UTF-16 code units.
- `trim` is not modelled as a schema setting. The schema's `trim: true` on title, slug, content and image is left out, along with `required`, `maxlength`, `unique` and the role enumeration. The model keeps only the tag setter (backend/models/blog.model.js:40) and the reading-time minimum.
- Header merging in `apiFetch` is not modelled case-insensitively. Keys are compared exactly, and the unused `method` variable is dropped.
- Zod form validation is not modelled beyond lengths: category at least 1, title and slug at least 3, content at least 10.
- Rendering, toasts, navigation and React state scheduling are not modelled.
- The HTML entity encoder and decoder, `slugify`, bcrypt, the JWT library and Cloudinary are not modelled. They are parameters.
- The client copies of `calculateReadingTime` in client/src/components/BlogCard.jsx and client/src/pages/SingleBlogDetaiils.jsx are the same function, so `ReadingTime.CalculateReadingTime` models all three.
- Thin CRUD handlers are not modelled: `editBlog`, `deleteBlog`, `getBlog`, `getRelatedBlog`, `getBlogByCategory`, `getTrendingBlogs`, `getAllUser`, `deleteUser`, `getBookmarks` and the category controller. They pass database results through without decisions of their own.
- Identity.OnlyAdmin: the model follows the code rather than RFC 7519 expectations. An expired token at the admin gate yields 500, not 401, because the code does not single out expiry there.
- CsrfGuard.Check: follows the code, which bypasses only GET, HEAD and OPTIONS. TRACE, which section 9.2.1 of RFC 9110 also lists as safe, is checked like any unsafe method.
