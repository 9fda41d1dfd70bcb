# Trade admin core in Dafny

This project models the core of the Trade admin application:

- the blog content-block pipeline: the new-blog editor, the `saveBlog` flattening into a multipart request, and the create endpoint's cursor pass that gives each image block its uploaded file;
- the request middleware that gates pages by token and role;
- the blog, course and auth slices of the client store, each a class whose methods are the slice's `addCase` handlers;
- the course form editors and the generic form's tag editor;
- the derived numbers on the blog and course dashboards.

The modules follow the program's files:

| module | models |
|---|---|
| `Wrappers` | `Option` and `Result` |
| `Js` | JavaScript values as the store sees them: truthiness, `?.`, throwing `.`, `??`, `_id` |
| `Text` | `trim`, `toLowerCase`, `includes`, `endsWith` |
| `Lists` | `filter`, `findIndex`, splice by index, `reduce` sums, `new Set(...).size` |
| `BlogCreate` | `pages/api/admin/blog/create.ts` |
| `BlogEditor` | `app/admin/blog/new/page.tsx` |
| `Middleware` | `middleware.ts` |
| `BlogSlice`, `CourseSlice`, `AuthSlice` | `redux/slices/admin/blogSlice.ts`, `redux/slices/admin/courseSlice.ts`, `redux/slices/auth/authSlice.ts` |
| `CourseForm` | `app/admin/course/new/page.tsx` |
| `CommonForm` | `components/common/form.tsx` |
| `BlogDashboard`, `CourseDashboard` | `app/admin/blog/page.tsx`, `app/admin/course/page.tsx` |

Two behaviours of the code to note:

- An image block never passes an existing value through. The server hands every image block, in order, the next uploaded file, and answers 500 when the files run out.
- In the editor, an image block without a file is sent as `{type: "image", value: ""}` (`String(null ?? "")`). No file is uploaded for it, so the files of all later image blocks shift by one (`BlogEditor.ImageWithoutFileShiftsUploads`).

More details that follow the code:

- The course slice's update handler reads `action.payload._id` without optional chaining. A nullish payload therefore throws when the list is non-empty; with an empty list the callback never runs. Either way the state is unchanged.
- The blog slice's update handler returns early on a falsy payload. When no blog has the payload's id, it appends the payload.
- The Google-login, Google-register and check-auth handlers store the server's raw `success` value in `isAuthenticated`. Login stores `!!success`.
- The blog page removes a post locally once the `DELETE` request settles, whatever its status.

## Model

| member | source | states |
|---|---|---|
| `Js.Prop` | redux/slices/admin/blogSlice.ts:14 | `v?.key`: a nullish value reads as `undefined`; a defined result is an own property of an object |
| `Js.Read` | redux/slices/auth/authSlice.ts:101-105 | `v.key` without `?.` throws exactly on a nullish value; otherwise reads as `?.` does |
| `Js.Coalesce` | redux/slices/admin/blogSlice.ts:14 | `a ?? b` is `a` unless `a` is nullish |
| `Text.TrimStart` | components/common/form.tsx:135-138 | the result is a suffix of the input, everything dropped is white space, and it does not start with white space |
| `Text.TrimEnd` | components/common/form.tsx:135-138 | the result is a prefix of the input, everything dropped is white space, and it does not end with white space |
| `Text.Trim` | components/common/form.tsx:135-138 | trimming gives `""` exactly for a blank string; otherwise the result has no white space at either end |
| `Text.TrimKeepsMiddle` | components/common/form.tsx:135-138 | the trimmed string is a slice of the input with only white space before and after it |
| `Text.TrimIdempotent` | components/common/form.tsx:138 | trimming a trimmed tag changes nothing |
| `Text.Lower` | app/admin/course/page.tsx:49 | `toLowerCase` keeps the length and folds each character on its own |
| `Text.Contains` | app/admin/course/page.tsx:49 | `includes` holds exactly when the needle occurs at some position |
| `Text.ContainsEmpty` | app/admin/course/page.tsx:49 | every title includes the empty search term |
| `Lists.RemoveAt` | app/admin/blog/new/page.tsx:69-71 | filtering out one index removes exactly that element and keeps the rest in order; an index out of range removes nothing |
| `Lists.RemoveAtShifts` | components/common/form.tsx:160-167 | after removing an index, the earlier elements stay and the later ones move down one place |
| `Lists.FindIndex` | redux/slices/admin/blogSlice.ts:80-82 | `findIndex` gives the first index whose key matches, or -1 when none does |
| `Lists.Filter` | redux/slices/admin/blogSlice.ts:93 | `filter` keeps only passing elements and never lengthens the list |
| `Lists.FilterCounts` | redux/slices/admin/blogSlice.ts:93 | filtering never adds an element and keeps every passing element with its multiplicity |
| `Lists.FilterMultiset` | app/admin/course/page.tsx:47-51 | after filtering, a passing value occurs as often as in the input and a failing one not at all |
| `Lists.FilterKeepsPassing` | app/admin/course/page.tsx:47-51 | every element that passes the filter is in its result |
| `Lists.FilterAppend` | redux/slices/admin/blogSlice.ts:93 | filtering distributes over concatenation, so order is kept |
| `Lists.FilterKeepsAll` | redux/slices/admin/blogSlice.ts:93 | a filter that passes every element gives the list back |
| `Lists.FilterSamePredicate` | app/admin/course/page.tsx:47-51 | predicates that agree on every element select the same list |
| `Lists.FilterUpdateDropped` | redux/slices/admin/blogSlice.ts:93 | overwriting a dropped element with another dropped one does not change the filter |
| `Lists.FilterSplit` | app/admin/blog/page.tsx:79-89 | a predicate and its negation split the list and every total over it |
| `Lists.RemoveKeySplit` | app/admin/blog/page.tsx:79-89 | the kept and the removed posts together make up the list and its totals |
| `Lists.RemoveKeySumAtMost` | app/admin/blog/page.tsx:79-89 | removing posts never raises a total of non-negative counters |
| `Lists.RemoveKeyKeepsOthers` | app/admin/blog/page.tsx:79 | no element with the id survives the delete filter, and every other element does |
| `Lists.RemoveKeySpec` | redux/slices/admin/blogSlice.ts:92-94 | after `filter(b => b._id !== id)` no element has the id; every other element keeps its multiplicity; a list without the id is unchanged |
| `Lists.ReplaceFirst` | redux/slices/admin/courseSlice.ts:69-72 | the length is kept; the first element with the payload's id becomes the payload and nothing else changes; with no match the list is unchanged |
| `Lists.Upsert` | redux/slices/admin/blogSlice.ts:77-90 | the payload ends up in the list; it replaces the first match in place (the list with that one cell overwritten) or is appended when there is none; the length grows only then |
| `Lists.UpsertThenRemove` | redux/slices/admin/blogSlice.ts:77-94 | deleting an id right after upserting a document with that id gives the same list as deleting it without the upsert |
| `Lists.UpsertKeepsUnique` | redux/slices/admin/blogSlice.ts:77-90 | upserting keeps the ids in the list unique |
| `Lists.SumAppend` | app/admin/blog/page.tsx:88-89 | the `reduce` total of a concatenation is the sum of the totals |
| `Lists.SumNonNegative` | app/admin/blog/page.tsx:88-89 | a total of non-negative counters is non-negative |
| `Lists.SumFilterAtMost` | app/admin/blog/page.tsx:79-89 | filtering never raises a total of non-negative counters |
| `Lists.ValuesOf` | app/admin/course/page.tsx:65-68 | the set of mapped values has at least one and at most as many members as the list, and contains exactly the mapped values |
| `BlogCreate.ImageCount` | pages/api/admin/blog/create.ts:55-71 | the image blocks never outnumber the blocks |
| `BlogCreate.ImageCountPrefix` | pages/api/admin/blog/create.ts:55-71 | a prefix has no more image blocks than the whole list |
| `BlogCreate.CorrelateSpec` | pages/api/admin/blog/create.ts:55-71 | the cursor pass succeeds exactly when there are at least as many files as image blocks; on success text blocks pass unchanged and the k-th image block gets `/uploads/` plus the k-th file's name; otherwise it fails with the missing-image message |
| `BlogCreate.CorrelateIgnoresSurplus` | pages/api/admin/blog/create.ts:55-71 | files beyond the image count are never used |
| `BlogCreate.ImageRanksDistinct` | pages/api/admin/blog/create.ts:55-71 | two image blocks never take the same file |
| `BlogCreate.ImageRanksOnto` | pages/api/admin/blog/create.ts:55-71 | every file below the image count is taken by some image block |
| `BlogCreate.InjectImagePaths` | pages/api/admin/blog/create.ts:55-71 | the loop with the mutable `imageIndex` computes the cursor pass, including the early failure |
| `BlogCreate.Create` | pages/api/admin/blog/create.ts:37-93 | status is 201, 400 or 500; success and the blog are present exactly on 201, which carries no message; a failed connection gives 500; 400 comes exactly from a missing title or content; unparsable content, too few files and a failed insert each give 500 with their own message; a created blog has the new id, the correlated content, and 0 likes and views |
| `BlogEditor.AddTextBlock` | app/admin/blog/new/page.tsx:61-63 | appends one empty text block and keeps the editor's well-formedness |
| `BlogEditor.AddImageBlock` | app/admin/blog/new/page.tsx:65-67 | appends one image block holding `null` and keeps well-formedness |
| `BlogEditor.RemoveBlock` | app/admin/blog/new/page.tsx:69-71 | drops exactly the block at the index and keeps well-formedness |
| `BlogEditor.MovedIsPermutation` | app/admin/blog/new/page.tsx:45-59 | moving keeps the length and the multiset of blocks, and keeps well-formedness |
| `BlogEditor.MovedAtEnds` | app/admin/blog/new/page.tsx:48-49 | moving the first block up or the last one down changes nothing |
| `BlogEditor.MovedSwapsNeighbours` | app/admin/blog/new/page.tsx:45-59 | otherwise the block and its neighbour trade places; every block other than those two stays where it was |
| `BlogEditor.SwapMultiset` | app/admin/blog/new/page.tsx:51-56 | exchanging two cells keeps the multiset |
| `BlogEditor.MoveUpThenDown` | app/admin/blog/new/page.tsx:45-59 | moving a block up and then back down restores the list |
| `BlogEditor.MoveBlock` | app/admin/blog/new/page.tsx:45-59 | the array copy with swapped cells is the moved list |
| `BlogEditor.SetText` | app/admin/blog/new/page.tsx:212-216 | only the edited block changes, and it takes the new string |
| `BlogEditor.SetImage` | app/admin/blog/new/page.tsx:246-251 | a file becomes the block's value and nothing else changes; no file changes nothing |
| `BlogEditor.Clean` | app/admin/blog/new/page.tsx:90-98 | the cleaned block keeps its type; it loses its value exactly when it holds a file, and otherwise carries the value's string form (`""` for `null`) |
| `BlogEditor.CleanContent` | app/admin/blog/new/page.tsx:88-100 | one cleaned block per block, in order |
| `BlogEditor.Uploads` | app/admin/blog/new/page.tsx:88-100 | one upload per block that holds a file, so never more uploads than blocks |
| `BlogEditor.FileBlocksExtend` | app/admin/blog/new/page.tsx:88-100 | a new last block adds its position to the file-holding positions exactly when it holds a file |
| `BlogEditor.UploadsInOrder` | app/admin/blog/new/page.tsx:88-100 | a block's file sits in the upload list at the number of earlier blocks with files |
| `BlogEditor.UploadsVersusImages` | app/admin/blog/new/page.tsx:88-100 | uploads never outnumber the image blocks the server sees; they fall short exactly when some image block has no file |
| `BlogEditor.ImageCountIsUploadCount` | app/admin/blog/new/page.tsx:88-100 | with a file in every image block, the server's image rank at each position equals the number of uploads before it |
| `BlogEditor.SaveBlog` | app/admin/blog/new/page.tsx:77-119 | aborts exactly on a blank title; otherwise posts the title, the cleaned content and the uploads |
| `BlogEditor.PostedTitleIsPresent` | app/admin/blog/new/page.tsx:78-81 | a title the page lets through passes the server's title check |
| `BlogEditor.SavedImagesReachTheirBlocks` | pages/api/admin/blog/create.ts:55-71 | with a file in every image block, each image block ends up pointing at its own uploaded file |
| `BlogEditor.ImageWithoutFileAbortsCreate` | pages/api/admin/blog/create.ts:57-62 | an image block without a file makes the server's pass fail with the missing-image message |
| `BlogEditor.ImageWithoutFileShiftsUploads` | app/admin/blog/new/page.tsx:90-98 | with a spare file stored, the image block without a file takes the file chosen for the next block |
| `Middleware.Gate` | middleware.ts:15-67 | an invalid token goes to `/login` with the cookie cleared, and only then is the cookie cleared; the home page, admin area, shop pages and login/register pages redirect by token and role as the rules say, first match wins; the request passes exactly when no rule's guard holds, as for a signed-in user on the shop pages, an admin inside `/admin` and an anonymous visitor on `/login` or `/register` |
| `Middleware.PrefixChars` | middleware.ts:41-64 | the route prefixes differ in their second or third character |
| `Middleware.AccountIsExactMatch` | middleware.ts:45-47 | without a token `/account` goes to `/login` but `/account/orders` passes |
| `Middleware.UnmatchedPathsPass` | middleware.ts:66 | a path no rule matches is let through |
| `Middleware.Route` | middleware.ts:69-71 | paths outside the matcher never reach the gate |
| `Middleware.AdminShopRedirectOnlyOnExactPaths` | middleware.ts:58-71 | with the matcher, admins are redirected from the shop pages only on exactly `/account` or `/checkout` |
| `BlogSlice.NormalizeBlogs` | redux/slices/admin/blogSlice.ts:22-26 | the body if it is an array, else its `blogs` when that is an array, else the body; an array comes out exactly when one of them is an array |
| `BlogSlice.NormalizeSaved` | redux/slices/admin/blogSlice.ts:14 | throws exactly on a nullish body; otherwise its `blog` unless that is nullish, then the body |
| `BlogSlice.BlogStore.constructor` | redux/slices/admin/blogSlice.ts:51-55 | no blogs, not loading, no error |
| `BlogSlice.BlogStore.Pending` | redux/slices/admin/blogSlice.ts:60-62 | sets `loading` and nothing else |
| `BlogSlice.BlogStore.CreateFulfilled` | redux/slices/admin/blogSlice.ts:63-66 | stops loading and appends a truthy payload |
| `BlogSlice.BlogStore.GetFulfilled` | redux/slices/admin/blogSlice.ts:71-75 | stops loading; the list is the payload if it is an array, else empty |
| `BlogSlice.BlogStore.UpdateFulfilled` | redux/slices/admin/blogSlice.ts:77-90 | a falsy payload changes nothing; otherwise the payload overwrites the first blog with its `_id`, or is appended when there is none |
| `BlogSlice.BlogStore.DeleteFulfilled` | redux/slices/admin/blogSlice.ts:92-94 | every blog with the id is removed |
| `BlogSlice.BlogStore.Rejected` | redux/slices/admin/blogSlice.ts:96-101 | stops loading and records the error message |
| `BlogSlice.BlogStore.Dispatch` | redux/slices/admin/blogSlice.ts:58-101 | each action type runs its case; any type ending in `/rejected` runs the matcher; other actions change nothing |
| `BlogSlice.FetchedBlogs` | redux/slices/admin/blogSlice.ts:19-27 | a fetch stores the body's array, or its `blogs` array, or nothing |
| `CourseSlice.NormalizeCourses` | redux/slices/admin/courseSlice.ts:12-19 | always an array: the body, else its `courses`, else empty |
| `CourseSlice.CourseStore.constructor` | redux/slices/admin/courseSlice.ts:38-43 | no courses, no current course, not loading, no error |
| `CourseSlice.CourseStore.Pending` | redux/slices/admin/courseSlice.ts:48-50 | sets `loading` and nothing else |
| `CourseSlice.CourseStore.CreateFulfilled` | redux/slices/admin/courseSlice.ts:51-54 | stops loading and appends a truthy payload, the whole response body |
| `CourseSlice.CourseStore.GetByIdFulfilled` | redux/slices/admin/courseSlice.ts:55-58 | stops loading; a truthy payload becomes the current course |
| `CourseSlice.CourseStore.GetFulfilled` | redux/slices/admin/courseSlice.ts:63-67 | stops loading; the list is the payload if it is an array, else empty |
| `CourseSlice.CourseStore.UpdateFulfilled` | redux/slices/admin/courseSlice.ts:69-72 | a nullish payload leaves the state unchanged; otherwise the first course with its `_id` is replaced and nothing is appended |
| `CourseSlice.CourseStore.DeleteFulfilled` | redux/slices/admin/courseSlice.ts:74-76 | every course with the id is removed |
| `CourseSlice.CourseStore.Rejected` | redux/slices/admin/courseSlice.ts:78-84 | stops loading and records the error message |
| `CourseSlice.CourseStore.Dispatch` | redux/slices/admin/courseSlice.ts:46-84 | each action type runs its case; any type ending in `/rejected` runs the matcher; other actions change nothing |
| `CourseSlice.UpdateNeverGrows` | redux/slices/admin/courseSlice.ts:69-72 | a course update keeps the list length, and without a match changes nothing |
| `AuthSlice.ToBoolean` | redux/slices/auth/authSlice.ts:75 | `!!v` is the boolean of `v`'s truthiness |
| `AuthSlice.AuthStore.constructor` | redux/slices/auth/authSlice.ts:10-14 | not authenticated, loading, no user |
| `AuthSlice.AuthStore.SetUser` | redux/slices/auth/authSlice.ts:73-76 | the payload becomes the user; authenticated exactly when it is truthy |
| `AuthSlice.AuthStore.RegisterFulfilled` | redux/slices/auth/authSlice.ts:80-84 | registration leaves the user signed out and done loading |
| `AuthSlice.AuthStore.LoginFulfilled` | redux/slices/auth/authSlice.ts:85-90 | done loading; the state is the login pair |
| `AuthSlice.AuthStore.GoogleRegisterFulfilled` | redux/slices/auth/authSlice.ts:91-95 | a nullish payload throws and changes nothing; otherwise the state is the session pair |
| `AuthSlice.AuthStore.GoogleLoginFulfilled` | redux/slices/auth/authSlice.ts:96-100 | as for Google registration |
| `AuthSlice.AuthStore.CheckAuthFulfilled` | redux/slices/auth/authSlice.ts:101-105 | as for Google registration |
| `AuthSlice.AuthStore.SessionFulfilled` | redux/slices/auth/authSlice.ts:91-105 | the handler the three share, with that contract |
| `AuthSlice.AuthStore.LogOutFulfilled` | redux/slices/auth/authSlice.ts:106-110 | signed out, no user, done loading |
| `AuthSlice.AfterLogin` | redux/slices/auth/authSlice.ts:85-90 | `isAuthenticated` is a boolean that is true exactly for a truthy `success`; a user is kept only then |
| `AuthSlice.AfterSession` | redux/slices/auth/authSlice.ts:91-105 | throws exactly on a nullish payload; `isAuthenticated` is the raw `success`; a user is kept exactly when it is truthy |
| `AuthSlice.SessionAgreesWithLoginOnBooleans` | redux/slices/auth/authSlice.ts:85-105 | with a boolean `success` the session handlers and login agree |
| `AuthSlice.RawSuccessIsNotBoolean` | redux/slices/auth/authSlice.ts:91-105 | a string `success` of `"no"` is stored as is by the session handlers, while login stores `true` |
| `CourseForm.KeyInjective` | app/admin/course/new/page.tsx:130-137 | distinct fields are sent under distinct keys |
| `CourseForm.InitialForm` | app/admin/course/new/page.tsx:46-60 | every string field empty, no image, one blank module |
| `CourseForm.SetField` | app/admin/course/new/page.tsx:65-67 | the field takes the value and no other part of the form changes |
| `CourseForm.SetFieldToSame` | app/admin/course/new/page.tsx:65-67 | writing a field's own value back leaves the form as it was |
| `CourseForm.ChangeModule` | app/admin/course/new/page.tsx:69-82 | only the one key of the one module changes |
| `CourseForm.AddModule` | app/admin/course/new/page.tsx:84-89 | one blank module is appended and nothing else changes |
| `CourseForm.RemoveModule` | app/admin/course/new/page.tsx:91-96 | exactly the module at the index is removed; an index out of range removes nothing |
| `CourseForm.RemoveModuleKeepsOne` | app/admin/course/new/page.tsx:334-336 | the delete control, shown only with more than one module, never empties the list |
| `CourseForm.PickImage` | app/admin/course/new/page.tsx:101-114 | the first file becomes the image when its MIME type starts with `image/`; otherwise the form is unchanged |
| `CourseForm.RemoveImage` | app/admin/course/new/page.tsx:116-120 | the image goes back to the empty string and nothing else changes |
| `CourseForm.PickThenRemove` | app/admin/course/new/page.tsx:101-120 | picking then removing an image restores an image-less form |
| `CourseForm.ModuleJson` | app/admin/course/new/page.tsx:148 | a module serialises to an object with exactly its three keys and their strings |
| `CourseForm.ModulesJson` | app/admin/course/new/page.tsx:148 | the modules serialise to an array holding each module in order |
| `CourseForm.ModulesJsonRoundTrip` | app/admin/course/new/page.tsx:148 | reading the serialised modules back gives the modules |
| `CourseForm.FieldParts` | app/admin/course/new/page.tsx:135-137 | one text part per listed field, in order, under its key and with its value |
| `CourseForm.Submission` | app/admin/course/new/page.tsx:125-148 | 13 parts with a file image and 12 without; the ten listed fields, then the image only if it is a file, then the banner and the modules |
| `CourseForm.SubmissionSendsEveryField` | app/admin/course/new/page.tsx:125-148 | every string field is sent, under its own key with its own value; an image held as a string is never sent |
| `CourseForm.KeyNotReserved` | app/admin/course/new/page.tsx:130-148 | no field is sent under the image or modules key |
| `CourseForm.BuildSubmission` | app/admin/course/new/page.tsx:125-148 | the `forEach` and the appends build exactly that body |
| `CourseForm.AfterSubmit` | app/admin/course/new/page.tsx:150-154 | the page goes to the course list exactly when the unwrapped result is truthy |
| `CommonForm.ScalarValue` | components/common/form.tsx:59 | a control shows the stored string, or `""` when there is none |
| `CommonForm.TagsValue` | components/common/form.tsx:122 | a tag control shows the stored tags, or none |
| `CommonForm.InputKey` | components/common/form.tsx:120 | the buffer key is `__`, the name, then `_input` |
| `CommonForm.SetScalar` | components/common/form.tsx:70-115 | the control's key takes the value and every other key is kept |
| `CommonForm.TypeIntoTagInput` | components/common/form.tsx:129-134 | only the buffer changes |
| `CommonForm.AddTag` | components/common/form.tsx:141-146 | the tag is appended to the control's list, the buffer is cleared, every other key is kept, and no key other than those two is added |
| `CommonForm.PressKey` | components/common/form.tsx:135-148 | Enter is prevented exactly when the buffer is not blank; the trimmed tag is added only when it is new; otherwise nothing changes |
| `CommonForm.AppendKeepsTagsWellFormed` | components/common/form.tsx:135-148 | appending a new, trimmed, non-empty tag keeps the tags trimmed, non-empty and distinct |
| `CommonForm.PressKeyKeepsTagsWellFormed` | components/common/form.tsx:135-148 | key presses keep the tag list trimmed, non-empty and free of duplicates |
| `CommonForm.SpliceStart` | components/common/form.tsx:162 | `splice` starts at the index itself, counts a negative index from the end, and clamps one before the start to 0 |
| `CommonForm.Splice` | components/common/form.tsx:160-167 | the in-place `splice(idx, 1)` on the copy removes exactly the tag at the start position, and nothing for a start past the end |
| `CommonForm.RemoveTag` | components/common/form.tsx:160-167 | the tag list loses the tag at the splice position and no other key changes |
| `CommonForm.RemoveKeepsTagsWellFormed` | components/common/form.tsx:160-167 | removing a tag keeps the list well formed |
| `CommonForm.RemoveKeepsDistinct` | components/common/form.tsx:160-167 | removing an element of a list without repeats leaves a list without repeats |
| `BlogDashboard.FirstImage` | app/admin/blog/page.tsx:35-38 | `null` exactly when no block is an image; otherwise the value of the first image block |
| `BlogDashboard.FirstImageSkipsText` | app/admin/blog/page.tsx:35-38 | text blocks before the first image do not change the cover |
| `BlogDashboard.Stats` | app/admin/blog/page.tsx:87-89 | the post count is the list length, and every total is 0 for no posts |
| `BlogDashboard.StatsOfOne` | app/admin/blog/page.tsx:87-89 | one post's totals are its own counters |
| `BlogDashboard.StatsAppend` | app/admin/blog/page.tsx:87-89 | totals add up over concatenation |
| `BlogDashboard.StatsNonNegative` | app/admin/blog/page.tsx:87-89 | non-negative counters give non-negative totals |
| `BlogDashboard.HandleDelete` | app/admin/blog/page.tsx:73-81 | without confirmation, or when the request rejects, nothing changes; otherwise no post with the id remains and every other post keeps its number of occurrences |
| `BlogDashboard.DeleteLowersTotals` | app/admin/blog/page.tsx:73-89 | after a delete the totals drop by exactly the removed posts' counters |
| `BlogDashboard.DeleteNeverRaisesTotals` | app/admin/blog/page.tsx:73-89 | with non-negative counters a delete never raises a total |
| `CourseDashboard.FilteredCourses` | app/admin/course/page.tsx:47-51 | a non-array gives no courses; the filter throws exactly when some element is nullish or has a non-string title; otherwise it keeps exactly the courses whose title contains the term, ignoring case, each as often as in the list |
| `CourseDashboard.LowerIdempotent` | app/admin/course/page.tsx:49 | lower-casing twice is lower-casing once |
| `CourseDashboard.SearchIgnoresCase` | app/admin/course/page.tsx:47-51 | a term and its lower-cased form select the same courses |
| `CourseDashboard.EmptySearchKeepsTitled` | app/admin/course/page.tsx:47-51 | an empty search shows every course that has a string title, in order |
| `CourseDashboard.DecimalString` | app/admin/course/page.tsx:61 | the decimal digits, with no leading zero |
| `CourseDashboard.DecimalRoundTrip` | app/admin/course/page.tsx:61 | printing a whole number and reading the digits back gives the number |
| `CourseDashboard.PriceOf` | app/admin/course/page.tsx:58-59 | a numeric price counts as itself, a digit string as the number it spells, `true` as 1 and `false` as 0, and anything else as 0 |
| `CourseDashboard.RoundHalfUp` | app/admin/course/page.tsx:61 | `toFixed(0)` gives the nearest whole number, a half rounding up |
| `CourseDashboard.Fixed0` | app/admin/course/page.tsx:53-63 | the rounded mean's magnitude in digits, with a minus sign exactly for a negative sum |
| `CourseDashboard.AveragePrice` | app/admin/course/page.tsx:53-63 | `null` unless the store holds a non-empty array; throws exactly when some element is nullish; otherwise the rounded mean of the prices over the list length |
| `CourseDashboard.AverageOfNonNegativePrices` | app/admin/course/page.tsx:53-63 | non-negative prices give an average with no sign |
| `CourseDashboard.UniqueLanguages` | app/admin/course/page.tsx:65-68 | 0 for a non-array; throws exactly when some element is nullish; otherwise the number of distinct `language` values on the list, at least 1 for a non-empty list and never more than its length |
| `CourseDashboard.OneLanguage` | app/admin/course/page.tsx:65-68 | courses that all share one language count as one |

## Left out

- Handling of the HTTP requests themselves is not modelled: multer, cookies, `fetch` and axios, `router.push`, React rendering, `confirm()` and `alert()`. Their outcomes are parameters: the stored files, whether the user confirmed, whether a request settled.
- The token check `jwtVerify` is an oracle. Its answer, the claims or none, is a parameter of `Middleware.Gate`.
- The database is not modelled beyond its answer: connected with a new id, or failing to connect or to create.
- `JSON.parse` and `JSON.stringify` are taken as exact inverses on the values that flow through. A malformed `content` field is one case of the input.
- JavaScript compares objects by reference. `Js.Value` compares ids structurally, which agrees for the string ids that documents carry.
- `Js.Prop`: properties of arrays and strings (such as `length`) are not modelled. Every non-object reads as `undefined`.
- Lists.RemoveKey and Lists.FindIndex: reading `_id` of a `null` element throws in JavaScript. Here it reads as `undefined`.
- Text.Lower: only the ASCII capitals are folded. Unicode case mapping is left out.
- Numbers are unbounded integers. Fractional likes, views and prices, `NaN` arithmetic and the float division behind the average are left out.
- CourseDashboard.PriceOf: the price is `Number(price) || 0` for numbers, booleans and strings of decimal digits only. Other strings and arrays count as 0 here; JavaScript would parse signed, fractional, exponent, hexadecimal or padded strings and single-element arrays.
- CourseDashboard.Fixed0: `toFixed` switches to exponent notation for magnitudes of 10^21 and more, and rounds the float quotient. The model rounds the exact quotient.
- BlogEditor.SetText and BlogEditor.SetImage: the handlers write `updated[index].value` into a shallow copy, so the old block object is shared and mutated. The model replaces the block by value.
- CourseForm.ChangeModule: the editor is only wired to existing rows. Writing past the end, which would leave holes in a JavaScript array, is excluded by its precondition.
- CourseForm.PickImage: the browser's `File` object is reduced to its name and MIME type.
- Clearing the file input's DOM value in `removeImage` is not modelled.
- CommonForm.ScalarValue and CommonForm.TagsValue: an entry of the other kind under the key reads as `""` or `[]`. JavaScript's `(x as string) || ""` would pass a non-empty tag list through as the value, and `|| []` a non-empty string.
- The upload limit of 20 files that multer applies is not modelled.
- The store wiring in `redux/store.ts` is not part of this model.
- The edit, list and detail API routes and the course create endpoint are not part of this model.
- Timestamps such as `createdAt` are carried as opaque strings.
