# PenPilot core in Dafny

PenPilot is a blog platform with an Express/MongoDB server and a React client. This project models the parts of it that make decisions:

- **Server.**
  - The two JWT middlewares: strict `auth` and `optionalAuth`.
  - The blog controller: add, list own, get by id, delete, toggle publish.
  - The sign-up and log-in controller.
  - The route table, which decides which handlers see a logged-in user.
- **Client.**
  - The home-page search and category filters.
  - The article page: lookup, the approved-comment list, the "Updated" line, the comment form.
  - The admin comment filter.
  - The newsletter form: email check and status machine.
  - The admin "create blog" page: publish and AI-generation handlers.

## How it is modelled

Code that changes state becomes classes:

| class | source state | mutated by |
|---|---|---|
| `BlogController.BlogStore` | the `Blog` collection plus multer's temp files | `Receive` (multer storing the upload), `AddBlog`, `DeleteBlogById`, `TogglePublish` |
| `AuthController.UserStore` | the `User` collection | `Signup` |
| `AuthMiddleware.Request`, `AuthMiddleware.Response` | `req.user` and the response sent | the middlewares |
| `BlogPage.CommentForm`, `CommentsAdmin.CommentsPanel`, `Newsletter.SubscribeForm`, `AddBlog.BlogEditor` | React `useState` hooks, one field per hook, except `AddBlog.BlogEditor.editor`, which stands for the Quill instance held in a `useRef`, and `Newsletter.SubscribeForm.pendingTimers`, which counts the completions scheduled with `setTimeout` and not yet run | their methods, each with a `modifies` clause |

Filtering and lookup code becomes functions over sequences, with lemmas about them.

Anything the code calls but this project cannot see is passed in as a function parameter:

- `jwt.verify`, `jwt.sign`, `bcrypt.hash`, `bcrypt.compare`;
- the ImageKit upload;
- axios answers;
- `marked.parse`;
- clock readings: the second `jwt.sign` stamps as the token's issue time (`iat`, from which `expiresIn: "1d"` counts), the server's `createdAt`, and the client's `Date.now()` and `toISOString()`.

Values that are not modelled closely:

- **Ids.** Mongo ids are `nat`. `blog.author.toString() !== req.user.id` becomes a comparison of naturals.
- **Reading `req.user.id` with no user.** In JavaScript this throws a `TypeError`. The handlers catch it and answer status 500 with that error's message. The model returns that message, `NoUserMessage`.
- **Text.** JavaScript string built-ins are modelled in `Text`:
  - `trim` uses the ECMAScript white-space and line-terminator set.
  - `toLowerCase` covers ASCII and Latin-1.
  - `includes`, `startsWith` and `split` are also there.
- **Async steps.** An awaited call is one atomic step. A pending `setTimeout` is an explicit method, such as `TimerFires` or `HideNotice`.

The code behaves as follows, and the model follows it:

- Listing returns only the caller's own blogs (`author: req.user.id`). It is not a published/unpublished visibility rule.
- `getBlogById` checks ownership.
- `deleteBlogById` checks ownership.
- No comments are deleted with a blog.
- `updatedAt` is not maintained by this code.

`optionalAuth` is documented as serving public and admin callers alike. Even so, `getAllBlogs` reads `req.user.id`, so an anonymous `/all` request is answered with status 500. `BlogRouter.Serve` states this.

## Model

| member | source | states |
|---|---|---|
| AuthMiddleware.TokenOf | server/middleware/auth.js:16 | the token is the header text after "Bearer " up to the next space (`split(" ")[1]`) and holds no space |
| AuthMiddleware.BearerHeaderRoundTrip | server/middleware/auth.js:10-16 | a header built as "Bearer " + token, for a token without spaces, passes the prefix test and yields exactly that token |
| AuthMiddleware.StrictDecision | server/middleware/auth.js:7-27 | 401 "No token provided" iff the header is missing or lacks the "Bearer " prefix; 403 "Invalid or expired token" iff it has the prefix and verification fails; otherwise admission with exactly the verified claims |
| AuthMiddleware.OptionalDecision | server/middleware/auth.js:33-47 | always continues; the user is replaced iff a Bearer token verifies, otherwise the previous `req.user` is kept |
| AuthMiddleware.Auth | server/middleware/auth.js:7-27 | calls `next` at most once; on rejection sends the 401/403 answer and leaves `req.user`; on admission sets `req.user` to the verified claims and sends nothing |
| AuthMiddleware.OptionalAuth | server/middleware/auth.js:33-47 | calls `next` exactly once, sends nothing, and sets `req.user` as `OptionalDecision` decides |
| Text.SplitHeadIsTakeUntil | server/middleware/auth.js:16 | the first field of `split(sep)` is the text up to the first separator |
| BlogController.BlogStore.Receive | server/routes/blogRouter.js:16 | multer's single-file upload leaves the temp file on disk for the handler |
| BlogController.BlogStore.AddBlog | server/controllers/blogController.js:6-57 | a body that fails to parse gives 500; a falsy title, description or category or no file gives 400 "Missing required fields" with nothing stored and the temp file kept; an upload failure gives 500 with nothing stored; with no user the temp file is already unlinked when the 500 is sent; otherwise 201 and exactly one new blog, under a fresh id, holding the form's fields, the uploaded image URL and the caller as author |
| BlogController.InsertNewestFirst | server/controllers/blogController.js:62-64 | inserting a blog into a newest-first list adds exactly that blog (multiset and membership) |
| BlogController.InsertKeepsNewestFirst | server/controllers/blogController.js:62-64 | inserting keeps the list ordered by descending `createdAt` |
| BlogController.InsertKeepsDistinct | server/controllers/blogController.js:62-64 | inserting a blog not yet listed keeps the list free of duplicates |
| BlogController.BlogStore.GetAllBlogs | server/controllers/blogController.js:60-69 | with no user, 500; otherwise the list holds each blog of the caller exactly once, holds nothing else, and is newest first; the store is unchanged |
| BlogController.BlogStore.GetBlogById | server/controllers/blogController.js:72-87 | an unknown id gives 404 "Blog not found or unauthorized"; an existing blog with no user gives 500; a blog of another author gives 404; the owner gets the blog; nothing changes |
| BlogController.BlogStore.DeleteBlogById | server/controllers/blogController.js:90-113 | unknown id gives 404 "Blog not found"; no user gives 500; another author gives 403 "Not authorized to delete"; the owner's blog, and only it, is removed |
| BlogController.BlogStore.TogglePublish | server/controllers/blogController.js:116-138 | unknown id or another author gives 404; no user on an existing blog gives 500; for the owner only `isPublished` of that blog flips and the updated blog is returned |
| BlogController.ToggleTwiceRestores | server/controllers/blogController.js:116-138 | two toggles in a row by the same caller leave the blog collection as it was |
| BlogRouter.GuardOf | server/routes/blogRouter.js:16-22 | the routes as mounted: strict `auth` on `/add`, `optionalAuth` on `/all`, no middleware on toggle-publish, get by id and delete |
| BlogRouter.IntendedGuardOf | server/routes/blogRouter.js:16-22 | the corrected table: strict `auth` also on toggle-publish, get by id and delete |
| BlogRouter.AsWrittenOwnerRoutesSeeNoUser | server/routes/blogRouter.js:17-22 | as the routes are written, toggle, get-by-id and delete run with no `req.user` whatever header is sent |
| BlogRouter.IntendedOwnerRoutesSeeTokenUser | server/routes/blogRouter.js:16-22 | with strict `auth` on those routes, a valid Bearer token reaches the handler as `req.user` |
| BlogRouter.Serve | server/routes/blogRouter.js:16-22 | a request runs its route's middleware, then its handler: a rejection is answered and changes nothing; no user on `/all` or on an existing blog gives 500; a user on `/all` gets exactly their own blogs, newest first and without duplicates; a missing id gives 404 ("Blog not found" for delete, "Blog not found or unauthorized" otherwise); another author gets 403 on delete and 404 on fetch and toggle; only the owner's toggle and delete change the store, with the controller's effect, and the owner's fetch returns the blog |
| BlogRouter.AsWrittenOwnerToggleFails | server/routes/blogRouter.js:17 | with the routes as written, the owner holding a valid token gets 500 from toggle-publish and the blog stays as it was |
| BlogRouter.IntendedOwnerToggleSucceeds | server/routes/blogRouter.js:17 | with strict `auth` on the route, the same request flips the owner's blog |
| AuthController.UserStore.Signup | server/controllers/authController.js:5-23 | a known email gives "User already exists" and stores nothing; a hashing failure gives its message and stores nothing; otherwise a new user with the hashed password is stored under a fresh id, and the reply is the token `jwt.sign` returns for `{id, email}`, lifetime "1d" and the current issue time, or the signing error |
| AuthController.UserStore.Login | server/controllers/authController.js:25-43 | unknown email gives "User not found"; a comparison failure gives its message; a mismatch gives "Invalid password"; a token is returned iff the password matches and signing succeeds, and it is the token signed for that user's `{id, email}`, lifetime "1d" and the current issue time; the signed email is the one the caller logged in with, since every user is filed under its own email |
| AuthController.SignupThenLogin | server/controllers/authController.js:5-43 | after a sign-up, logging in with the same password signs the same id, email and "1d" lifetime: each reply is exactly the result of `jwt.sign` for that payload at its own issue time (the token, or the signing error), so the two replies are equal when both are issued in the same second |
| Text.BlankIffAllSpace | client/src/components/BlogList.jsx:13 | `trim()` of a string is empty iff every character is white space |
| Text.IncludesIffOccurs | client/src/components/BlogList.jsx:18 | `includes` holds iff the needle occurs at some position |
| BlogList.FilteredBlogs | client/src/components/BlogList.jsx:12-20 | the definition of `filteredBlogs()`; its meaning is stated by `BlogList.BlankSearchKeepsList` and `BlogList.SearchMembership` |
| BlogList.VisibleBlogs | client/src/components/BlogList.jsx:22 | the definition of `visibleBlogs`; its meaning is stated by `BlogList.VisibleMembership`, `BlogList.AllMenuKeepsSearchResult` and `BlogList.VisibleIsSubsequence` |
| BlogList.BlankSearchKeepsList | client/src/components/BlogList.jsx:13 | no input, or only white space, leaves the blog list as it is |
| BlogList.SearchMembership | client/src/components/BlogList.jsx:15-19 | a non-blank search keeps a blog iff its lower-cased title or category contains the lower-cased input |
| BlogList.VisibleMembership | client/src/components/BlogList.jsx:12-22 | a blog is visible iff it is in the list, passes the search and its category equals the menu entry (or the menu is "All") |
| BlogList.UntitledUncategorisedHidden | client/src/components/BlogList.jsx:18 | a blog with neither title nor category never survives a non-blank search |
| BlogList.AllMenuKeepsSearchResult | client/src/components/BlogList.jsx:22 | the "All" menu entry keeps every search result |
| BlogList.VisibleIsSubsequence | client/src/components/BlogList.jsx:12-22 | the visible list is the blog list with some blogs left out, in the same order |
| BlogList.NoBlogsFoundIff | client/src/components/BlogList.jsx:70-88 | "No blogs found" is shown iff no blog of the list passes both tests |
| BlogPage.FindIndex | client/src/pages/Blog.jsx:30 | the lookup finds the first blog with the URL's id, and none when no blog has it |
| BlogPage.Find | client/src/pages/Blog.jsx:30 | `blog_data.find` by id, through `BlogPage.FindIndex`: the first blog with the id, or none |
| BlogPage.Render | client/src/pages/Blog.jsx:110-112 | the loader while no blog was found, otherwise the article; its meaning is stated by `BlogPage.RenderIsLookup` |
| BlogPage.RenderIsLookup | client/src/pages/Blog.jsx:110-112 | the loader is shown iff no blog has the id; otherwise the article is a listed blog with that id |
| BlogPage.ShowsUpdated | client/src/pages/Blog.jsx:193 | the "Updated" line's condition: `updatedAt` is set, non-empty and differs from `createdAt` |
| BlogPage.UnchangedBlogShowsNoUpdate | client/src/pages/Blog.jsx:193 | a blog whose `updatedAt` equals `createdAt` never shows "Updated" |
| BlogPage.ApprovedFor | client/src/pages/Blog.jsx:248-251 | the listed comments: the filter on blog id and approval; its meaning is stated by `BlogPage.ApprovedForMembership` |
| BlogPage.ApprovedForMembership | client/src/pages/Blog.jsx:248-251 | a comment is listed under a blog iff it belongs to that blog and is approved |
| BlogPage.CommentCount | client/src/pages/Blog.jsx:276-281 | the count in the heading is zero, and "No comments yet" is shown, iff no comment of the blog is approved |
| BlogPage.CommentForm.constructor | client/src/pages/Blog.jsx:24-26 | the form starts with an empty name, empty text and the notice hidden |
| BlogPage.CommentForm.SetName | client/src/pages/Blog.jsx:323 | typing in the name field sets the name and nothing else |
| BlogPage.CommentForm.SetText | client/src/pages/Blog.jsx:336 | typing in the comment field sets the text and nothing else |
| BlogPage.CommentForm.Submit | client/src/pages/Blog.jsx:286-305 | a blank name or text changes nothing; otherwise an unapproved comment for this blog with the typed name and text is built, both fields are cleared and the notice is raised |
| BlogPage.CommentForm.HideNotice | client/src/pages/Blog.jsx:307 | the timer hides the notice |
| BlogPage.NewCommentNotListed | client/src/pages/Blog.jsx:293-300 | a comment built by the form, being unapproved, is not listed |
| CommentsAdmin.FilterComments | client/src/pages/admin/Comments.jsx:65-68 | the table's filter, which keeps the fetched order; its meaning is stated by `CommentsAdmin.FilterCommentsMembership` and `CommentsAdmin.ViewsPartitionComments` |
| CommentsAdmin.FilterCommentsMembership | client/src/pages/admin/Comments.jsx:65-68 | the "Approved" view keeps exactly the approved comments; any other filter keeps exactly the unapproved ones |
| CommentsAdmin.ViewsPartitionComments | client/src/pages/admin/Comments.jsx:65-68 | the "Approved" and "Not Approved" views together hold every comment exactly once, each in the original order |
| CommentsAdmin.EmptyMessageIff | client/src/pages/admin/Comments.jsx:80-86 | the "No … comments found" message is shown iff no comment passes the current filter |
| CommentsAdmin.CommentsPanel.constructor | client/src/pages/admin/Comments.jsx:6-7 | the panel starts with no comments and the "Not Approved" filter |
| CommentsAdmin.CommentsPanel.SetFilter | client/src/pages/admin/Comments.jsx:35 | a filter button selects its filter |
| CommentsAdmin.CommentsPanel.ApplyFetch | client/src/pages/admin/Comments.jsx:11-18 | only a successful answer replaces the comment list; a refusal or a network error leaves it |
| CommentsAdmin.CommentsPanel.Rows | client/src/pages/admin/Comments.jsx:65-68 | the table rows are exactly the fetched comments that pass the selected filter, in the fetched order |
| CommentsAdmin.CommentsPanel.ShowsEmptyMessage | client/src/pages/admin/Comments.jsx:80-82 | the "No … comments found" message shows iff no fetched comment passes the selected filter |
| Newsletter.ValidEmail | client/src/components/NewsLetter.jsx:12 | the email check, stated as a scan; `Newsletter.ValidEmailIffLanguage` proves it accepts exactly the expression's language |
| Newsletter.ValidEmailInLanguage | client/src/components/NewsLetter.jsx:12 | every email the check accepts matches `^[^\s@]+@[^\s@]+\.[^\s@]+$` |
| Newsletter.LanguageIsValidEmail | client/src/components/NewsLetter.jsx:12 | every string that matches the expression is accepted |
| Newsletter.ValidEmailIffLanguage | client/src/components/NewsLetter.jsx:12 | the check accepts exactly the strings the expression matches |
| Newsletter.SubscribeForm.constructor | client/src/components/NewsLetter.jsx:6-7 | the form starts with an empty email and no status |
| Newsletter.SubscribeForm.SetEmail | client/src/components/NewsLetter.jsx:55 | typing in the email field sets the email and nothing else |
| Newsletter.SubscribeForm.HandleSubmit | client/src/components/NewsLetter.jsx:9-18 | a rejected email sets "invalid" and schedules nothing; an accepted one sets "loading" and schedules one completion; the email is kept |
| Newsletter.SubscribeForm.TimerFires | client/src/components/NewsLetter.jsx:19-22 | the completion sets "success" and clears the email |
| Newsletter.SubscribeForm.SubmitDisabled | client/src/components/NewsLetter.jsx:61 | the submit button is disabled exactly while the status is "loading" |
| AddBlog.PublishRefusal | client/src/pages/admin/AddBlog.jsx:64-70 | "Please enter a blog title" iff the title is empty; "Please write your blog description" iff the title is set and the editor content is blank; no refusal iff both are present |
| AddBlog.SentRequestMissesFieldIff | client/src/pages/admin/AddBlog.jsx:74-84 | a request the page sends fails the server's required-field check iff no category is chosen or no thumbnail is attached |
| AddBlog.BlogEditor.constructor | client/src/pages/admin/AddBlog.jsx:14-22 | the form starts empty, with category "Startup", no image, unpublished, idle |
| AddBlog.BlogEditor.InitEditor | client/src/pages/admin/AddBlog.jsx:29-33 | the editor is created once, only when its container is mounted |
| AddBlog.BlogEditor.ChooseImage | client/src/pages/admin/AddBlog.jsx:36-41 | an empty file selection keeps the current thumbnail |
| AddBlog.BlogEditor.HandlePublish | client/src/pages/admin/AddBlog.jsx:62-106 | a refused form sends nothing, shows the refusal and keeps every field; otherwise the sent request carries the form's fields and image; success resets the form, a failure keeps it, each with its message or default; `isAdding` is false at the end |
| AddBlog.BlogEditor.PostForm | client/src/pages/admin/AddBlog.jsx:72-105 | for a mounted editor (the only case that passes the checks), the request carries title, subtitle, editor HTML, category and publish flag, plus the image when one was chosen; success resets every field and empties the editor, a failure keeps them, each with its message or default; `isAdding` ends false |
| AddBlog.BlogEditor.GenerateContent | client/src/pages/admin/AddBlog.jsx:44-59 | with no title nothing is requested and `loading` is untouched; otherwise the title is the prompt, a successful answer replaces the editor content with the parsed markdown (or fails with a TypeError when the editor is not mounted), failures show their message or default, and `loading` ends false |
| AddBlog.BlogEditor.GenerateDisabled | client/src/pages/admin/AddBlog.jsx:151 | the "Generate with AI" button is disabled exactly while `loading` |
| AddBlog.BlogEditor.PublishDisabled | client/src/pages/admin/AddBlog.jsx:237 | the "Add Blog" button is disabled exactly while `isAdding` |
| AddBlog.PublishAgainRefused | client/src/pages/admin/AddBlog.jsx:88-97 | after a successful publish resets the form, publishing again is refused for lack of a title |

## Left out

- Express plumbing: the JSON body parser, `server.js`, CORS and error middleware.
- The comment routes: the router imports `addComment` and `getBlogComments` from the blog controller, which does not export them. In an ES module a missing named export fails at link time, so the server as written would not start; the model assumes a controller that exports both, and leaves those two routes out. The admin comment endpoints are also not part of this model.
- Mongoose behaviour:
  - a malformed id string (a `CastError`, answered 500) is not modelled, because ids are naturals;
  - schema validation and `updatedAt` are not modelled (of the schema's timestamps only `createdAt` is, as the clock reading `now`);
  - a missing `id` in the request body is not modelled.
- JSON fields of other types: the blog form's text fields are strings or absent; a JSON number, boolean or object in them is not modelled.
- BlogController.BlogStore.AddBlog: `isPublished` is a boolean, so a form without it (stored as the schema default) or with a non-boolean value is not modelled.
- AuthController.UserStore.Signup: `name`, `email` and `password` are strings, so a body missing one of them is not modelled; there `bcrypt.hash(undefined, 10)` throws and `User.findOne({ email: undefined })` matches by Mongoose's rules for an undefined filter.
- AuthController.UserStore.Login: `email` and `password` are strings, so a body missing one of them is not modelled, for the same reasons.
- The ImageKit URL transformation (quality, webp, width 1280): the uploaded URL comes from the `upload` oracle, which also covers `buildSrc`.
- Concurrency: awaited calls are atomic, and interleavings of concurrent requests are not modelled.
- Text:
  - `Text.ToLower` only covers ASCII and Latin-1; lower-casing of other scripts is not modelled.
- Rendering:
  - HTML parsing (`parseHtmlContent`), date formatting and the reading-progress bar (floating point) are not modelled;
  - toasts are returned as values; `alert` and `console.log` are not modelled.
- Storage and shared state: localStorage, the axios token header and the app context are not modelled.
- The client's sample data: `blog_data` and `comments_data` are parameters.
- `refreshBlogs?.()` in `handlePublish`: the app context does not provide it, so the call does nothing; it is left out.
- Quill: the HTML Quill produces or normalises (its empty document, content assigned to `innerHTML`) is not modelled. The editor holds exactly the string last assigned.
- AddBlog.BlogEditor.GenerateContent: does not model `marked.parse` throwing on a missing `content`, because the answer's content is always a string here.
- AuthMiddleware.Auth: does not model an exception thrown synchronously by `next()` inside the `try`, which would also be answered 403, because the controllers are asynchronous and report their own errors.
- BlogRouter.Serve: covers the list, fetch, toggle and delete routes; the add route is specified by `BlogController.BlogStore.AddBlog` directly.
- The temp file of a rejected upload: on `/add`, multer stores the file before strict `auth` runs, so a request that `auth` rejects leaves its temp file on disk, because the handler that unlinks it never runs. `BlogRouter.Serve` does not cover `/add`, so the model does not show this leak; `BlogController.BlogStore.Receive` models the stored file, and the cleanup is modelled only inside `BlogController.BlogStore.AddBlog`.

## Findings

| source | as written | input that shows it | evidently intended | confidence | as-written member | corrected member |
|---|---|---|---|---|---|---|
| server/routes/blogRouter.js:17 | `/toggle-publish`, `/:blogId` (get) and `/:blogId` (post, delete) have no `auth` middleware, so `req.user` is never set and the handlers' `req.user.id` throws | the owner of blog 7 posts `{id: 7}` to `/toggle-publish` with a valid `Authorization: Bearer <token>`: the answer is 500 and the blog is unchanged | run strict `auth` before these handlers, as for `/add`, so the owner's token reaches the ownership check | not executed | BlogRouter.AsWrittenOwnerToggleFails | BlogRouter.IntendedOwnerToggleSucceeds |
