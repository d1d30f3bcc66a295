# StackIt core, modelled in Dafny

StackIt is a question-and-answer web application. This project models the three
parts of it that make decisions of their own:

- **The route guard** (`src/middleware.ts`), module `Middleware`. It decides, from
  the session token and the request path, whether a page request passes or is
  redirected to `/feed`, `/signin` or `/`. It also models the matcher that chooses
  which paths the guard sees. `Decide` is a pure function and mirrors the chain of
  early returns. Lemmas state each rule, the access policy as a whole, that no
  redirect loops, and how the matcher narrows the `/admin` and `/notification`
  prefix tests.
- **Question creation and the feed** (`src/app/api/questions/route.ts`), modules
  `QuestionStore` and `QuestionFeed`.
  - POST is the check cascade `CheckPost` (401, then 400, then 404) plus the
    method `Store.Post`. `Store.Post` runs connect-or-create over the tag
    vocabulary in a loop (`Store.ConnectOrCreateTags`) and appends the question.
    The store is a class with a user table (email to id), a tag table (name to id)
    and the question list. Its invariant says that tag ids are distinct, that
    every tag link resolves to the row of its name, and that question ids are
    distinct.
  - GET is `Get`. It applies `Answer`, the skip/take/page-count arithmetic, to the
    questions in most-recently-updated-first order (`ByRecency`). The paging lemmas
    are stated over `Answer` for any ordered feed, so they hold for `Get`'s feed.
- **Sign-up** (`src/app/api/auth/signup/route.ts`), module `Signup`. A `UserTable`
  class whose `Signup` method checks the username, then the email, and only then
  inserts a row with the hashed password. It keeps usernames and emails unique.

Inputs from outside the code are parameters:
- the session token (`Option<Token>`) and the server session (`Option<Session>`);
- the request path;
- the parsed JSON body, with typed fields;
- the `page` query parameter, already parsed as an integer;
- the clock (`now`);
- the bcrypt function (`hash`, called with cost 10).

The database is the state of the two classes. Ids are natural numbers handed out
by counters.

## Model

| member | source | states |
|---|---|---|
| `Middleware.Decide` | src/middleware.ts:5-39 | every redirect goes to `/feed`, `/signin` or `/`, and never to the requested path |
| `Middleware.SignedInLeavesAuthPages` | src/middleware.ts:9-16 | with a token, exactly `/signin`, `/signup` or `/` redirects to `/feed` |
| `Middleware.AdminNeedsToken` | src/middleware.ts:18-21 | a path starting with `/admin` and no token redirects to `/signin` |
| `Middleware.AdminNeedsRole` | src/middleware.ts:18-38 | with a token, an `/admin` path passes exactly when the role claim is `ADMIN`, and otherwise redirects to `/` |
| `Middleware.ProtectedNeedsToken` | src/middleware.ts:28-36 | without a token, a path starting with `/feed/`, `/question/`, `/profile/` or `/notification` redirects to `/signin` |
| `Middleware.PassesIffAllowed` | src/middleware.ts:9-38 | the request passes exactly when the declarative access policy allows it (both directions) |
| `Middleware.RedirectsSettle` | src/middleware.ts:9-38 | following a redirect with the same token reaches a passing page in at most two hops, so there is no redirect loop |
| `Middleware.Effective` | src/middleware.ts:41-54 | a request passes exactly when its path is outside the matcher or the access policy allows it; every redirect target is itself a matched path and differs from the requested one |
| `Middleware.EffectiveSettles` | src/middleware.ts:9-54 | with the matcher in front of the guard, a redirected request passes, or is redirected once more to `/feed`, which passes: no redirect loop |
| `Middleware.BareFeedUnguarded` | src/middleware.ts:28-46 | bare `/feed` is in the matcher, yet an unauthenticated request to it passes |
| `Middleware.UnmatchedRulesPass` | src/middleware.ts:9-52 | `/search/...` passes with any token, and unauthenticated `/signin` passes |
| `Middleware.MatchedAdminPaths` | src/middleware.ts:18-51 | among matched paths, the `/admin` prefix test only sees `/admin` and paths under `/admin/` |
| `Middleware.MatchedNotificationPaths` | src/middleware.ts:33-50 | among matched paths, the `/notification` prefix test only sees `/notification` itself |
| `Middleware.PrefixQuirksOutsideMatcher` | src/middleware.ts:18-51 | the guard alone would redirect `/notifications` and `/administrator`, but the matcher never sends them to it |
| `QuestionStore.ConnectOrCreate` | src/app/api/questions/route.ts:51-73 | an existing row of that name is reused unchanged; otherwise exactly one row is added with a fresh id; the link points at the row of that name |
| `QuestionStore.ConnectOrCreateAll` | src/app/api/questions/route.ts:51-73 | one link per requested name, in order, each pointing at that name's row; existing rows keep their ids; only requested names are added |
| `QuestionStore.ConnectOrCreateAllValid` | src/app/api/questions/route.ts:51-73 | a request's tags keep tag ids distinct and below the next id |
| `QuestionStore.AllPresentNoChange` | src/app/api/questions/route.ts:66-71 | when every name already has a row, nothing is created and each link names the existing row |
| `QuestionStore.ConnectOrCreateAllIdempotent` | src/app/api/questions/route.ts:51-73 | replaying the same names against the resulting table changes nothing and yields the same links |
| `QuestionStore.SharedTagOneRow` | src/app/api/questions/route.ts:66-71 | two requests sharing a tag name link to the same tag row |
| `QuestionStore.CheckPost` | src/app/api/questions/route.ts:10-49 | status is 401, 400 or 404 on refusal, with 401 exactly when there is no session email; an accepted request has a non-empty title and description, the tags as sent, and the id of the session email's user |
| `QuestionStore.UnauthenticatedIgnoresBody` | src/app/api/questions/route.ts:10-20 | without a session, user or email the answer is 401, whatever the body and the user table hold |
| `QuestionStore.BadBodyIs400` | src/app/api/questions/route.ts:20-30 | once signed in, 400 exactly when the title or the description is missing or empty or the tags are not an array; an empty tags array is accepted |
| `QuestionStore.UnknownUserIs404` | src/app/api/questions/route.ts:33-49 | a signed-in request with a good body is refused exactly when no user has the session email, and then with 404 |
| `QuestionStore.Store.ConnectOrCreateTags` | src/app/api/questions/route.ts:51-73 | the loop leaves the tag table and the links that `ConnectOrCreateAll` specifies |
| `QuestionStore.Store.Post` | src/app/api/questions/route.ts:6-95 | a refusal changes nothing and answers the failed check's status and message; success answers 201 and appends exactly one question with the given title, description, user id, a fresh id and one link per tag in input order; the invariant is kept |
| `QuestionStore.AppendValid` | src/app/api/questions/route.ts:60-83 | appending the new question keeps tag ids distinct, keeps every link resolving and keeps question ids distinct |
| `QuestionStore.PostTagsOutcome` | src/app/api/questions/route.ts:51-83 | after a successful POST, every requested name has a row, existing rows keep their ids, no row is removed, the table's names are the old ones plus the requested ones, and link k is the row of name k |
| `QuestionFeed.TotalPages` | src/app/api/questions/route.ts:146 | 0 exactly when there are no questions; otherwise (n-1)*10 < total <= n*10, which is the ceiling of total/10 |
| `QuestionFeed.ByRecency` | src/app/api/questions/route.ts:120-125 | the result is sorted by `updatedAt`, descending, and is a permutation of the questions |
| `QuestionFeed.Answer` | src/app/api/questions/route.ts:111-148 | a page number below 1 gives a negative skip; page p >= 1 holds feed positions (p-1)*10 onward, either 10 of them, or the rest, or none past the end; it reports `currentPage` = p, `totalQuestions` = the count and `totalPages` = its ceiling over 10 |
| `QuestionFeed.Get` | src/app/api/questions/route.ts:113-148 | a page number below 1 gives a negative skip; otherwise at most 10 questions, all from the store and sorted most recent first, with `currentPage` = p, `totalQuestions` = the count, `totalPages` = its ceiling over 10 |
| `QuestionFeed.GetIsWindow` | src/app/api/questions/route.ts:113-125 | for page p >= 1, the page is the run of up to 10 questions of the most-recent-first order starting at position (p-1)*10 |
| `QuestionFeed.PagesAdjacent` | src/app/api/questions/route.ts:117 | page 1 starts at position 0, and page p+1 starts 10 positions after page p |
| `QuestionFeed.PageOf` | src/app/api/questions/route.ts:117 | the page computed for a feed position is at least 1, and its window contains that position |
| `QuestionFeed.EveryPositionOnOnePage` | src/app/api/questions/route.ts:117-146 | each feed position lies on exactly one page, and that page is within `totalPages` |
| `QuestionFeed.PagesUpToPrefix` | src/app/api/questions/route.ts:116-122 | reading pages 1 to n in order gives the first 10n questions of the feed |
| `QuestionFeed.PagesCoverFeed` | src/app/api/questions/route.ts:117-146 | reading pages 1 to `totalPages` gives the whole feed, each question once, in order |
| `QuestionFeed.PastLastPageEmpty` | src/app/api/questions/route.ts:117-146 | a page beyond `totalPages` is empty |
| `QuestionFeed.FifteenQuestions` | src/app/api/questions/route.ts:111-146 | with 15 questions: two pages, of 10 then 5 questions, which together are the feed; page 3 is empty |
| `Signup.FindUnique` | src/app/api/auth/signup/route.ts:9-27 | the lookup finds a row holding the value exactly when one exists, and the row it returns holds that value |
| `Signup.InsertKeepsUnique` | src/app/api/auth/signup/route.ts:9-46 | inserting a row whose username and email are both free keeps both columns unique |
| `Signup.TakenAfterInsert` | src/app/api/auth/signup/route.ts:40-46 | after insertion, the new row's username and email are both found |
| `Signup.UserTable.Signup` | src/app/api/auth/signup/route.ts:5-55 | a taken username gives 409 "Username already exists", even when the email is taken too; otherwise a taken email gives 409 "Email already exists"; both leave the table unchanged; otherwise one row is appended with a fresh id, the username, the email and hash(password, 10); the answer is 201 with that row, hash included; uniqueness is kept |
| `Signup.SignupTwice` | src/app/api/auth/signup/route.ts:9-46 | a second sign-up with the same username gets 409 "Username already exists" after the first succeeded |

## Left out

- Session lookup (`getToken`, `getServerSession`), JSON body parsing and `parseInt` are not modelled. Their results are inputs. A `page` that parses to NaN is outside the model.
- `QuestionStore.Body` gives `title` and `description` as strings and `tags` as a sequence of strings when they are present. A truthy non-string title, or an array with non-string elements, passes the handler's checks and fails later in the ORM. That failure, and every other caught error answering 500, is left out.
- `QuestionFeed.Get`: the model does not state what the database does with the negative skip of a page below 1. It reports the skip as `NegativeSkip`, because nothing in the handler guards it.
- `QuestionFeed.ByRecency` breaks ties in `updatedAt` by keeping the stored order. The database's order among equal timestamps is not specified, so the model does not capture it.
- `Signup.UserTable.Signup` stores `hash(password, 10)` for a hash function given as a parameter. That this value differs from the plaintext is a property of bcrypt, and the model does not state it. bcrypt's random salt is inside the parameter.
- The model does not capture database concurrency or unique-constraint races between requests. It also leaves out how the join table handles one tags array that names the same tag twice: the model links the same row twice, and the real schema, which is not part of this model, decides.
- The question and signup handlers each have their own user table. The model does not tie the question store's email-to-id map to the sign-up table.
- `Middleware.Effective` treats a `base/:path*` matcher entry as `base` itself or any path under `base/`. The model does not follow the matching library's segment and trailing-slash rules beyond that.
- The default export re-exported at `src/middleware.ts:2` is not modelled. The named `middleware` function is modelled as written.
- Generated ids are natural numbers from counters, and `createdAt`/`updatedAt` are set to the clock value passed in. The database schema, which fills these in, is not part of this model.
- The per-question read, update and delete handlers, the UI components, the editor, the syntax-highlighter registration and the database client singleton are not modelled. They are not part of the core.
