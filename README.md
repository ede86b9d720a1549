# LearnHub course media and catalogue — a Dafny model

This project models the heart of the LearnHub/liveroom learning platform and
proves properties of the model:

- **Backend course media lifecycle.** Creating a course, listing it and reading
  its metadata, uploading one media file into it (three copies of the upload
  handler), and streaming or downloading that file back. This includes
  multer's type filter and size ceiling in front of the upload route.
- **Records.** The Course and Enrollment schemas, as values.
- **Dashboard.** The learner's statistics and enrolled-course list.
- **Frontend catalogue.** The filter/sort effect, the sort-field selector and
  the sort-order button, and the sample-course fallback.
- **Frontend upload form.** Validation, then creation, then media upload.
- **Frontend video player.** Its controls, the `m:ss` time format and
  bookmarks.

The files:

| file | module | models |
|---|---|---|
| `wrappers.dfy` | `Wrappers` | `Option` |
| `js_text.dfy` | `JsText` | the JavaScript string operations used: interpolation, `toLowerCase`, `includes`, `trim`, `<` on strings, integer `toString`, `padStart` |
| `course_schema.dfy` | `CourseSchema` | the Course record |
| `upload_filter.dfy` | `UploadFilter` | multer's `fileFilter` and `limits` |
| `course_store.dfy` | `CourseStore` | the routes, as step functions on a course map and as methods of the class `Store` |
| `enrollment.dfy` | `EnrollmentSchema` | the Enrollment record and its defaults |
| `dashboard.dfy` | `Dashboard` | the two dashboard handlers |
| `course_list.dfy` | `CourseCatalog` | the catalogue component (class `CourseListView`) |
| `course_upload.dfy` | `CourseUploadForm` | the upload form (class `UploadForm`) |
| `video_player.dfy` | `VideoPlayback` | the video player (class `Player`) |

## How the model is built

- **Persistence and failures.** MongoDB is a map from course id to course.
  Document ids are natural numbers handed out in increasing order. Whether
  `findById`, `save`, `Course.create` or `Course.find` throws is a parameter
  (`Fault`, `findFails`, `createFails`). Each handler is a method of `Store`.
  It is proved equal to a pure step function (`CreateStep`, `UploadStep`,
  `ServeReply`, ...), and the route properties are lemmas about those
  functions.
- **Authentication.** The `protect` middleware is a given caller id. An absent
  caller gives the create route's 401.
- **The three upload handlers** (`courseRoutes.js`, `uploadRoutes.js`,
  `courseController.js`) share one step function. A `Handler` value picks
  each copy's own messages.
- **Multer.** Its filter runs first. A rejection becomes `Forwarded`: it goes to
  an error handler that is not part of this model, so its status is not
  modelled.
- **Times and weights.** JavaScript numbers are Dafny reals (exact) or
  integers. NaN appears only as an absent sort key.
- **The catalogue effect** works on arrays. When no filter is active it sorts
  the `courses` prop in place and stores that same array.
- **The browser.** The upload form's `localStorage` token and `fetch` answers
  are parameters. Its requests and alerts are logs.

## Model

| member | source | states |
|---|---|---|
| CourseSchema.WithMedia | liveroom-backend/src/routes/courseRoutes.js:74-78 | the media triple is replaced as a whole by (data, type, name), which leaves it whole; no other field changes |
| CourseSchema.WithoutData | liveroom-backend/src/routes/courseRoutes.js:39 | the `-media.data` projection drops only the payload and keeps the type, the name and every other field |
| JsText.Lower | liveroom-frontend/src/components/course/CourseList.jsx:78 | lower-casing keeps the length and maps every character |
| JsText.Includes | liveroom-frontend/src/components/course/CourseList.jsx:78-80 | `includes` is true exactly when the needle occurs at some position |
| JsText.TrimSlice | liveroom-backend/src/routes/courseRoutes.js:24-25 | `trim` returns a contiguous slice `s[i..j]` of its argument and cuts away only whitespace before `i` and after `j` |
| JsText.TrimEnds | liveroom-backend/src/routes/courseRoutes.js:24-25 | what `trim` leaves neither starts nor ends with whitespace |
| JsText.TrimEmptyIff | liveroom-backend/src/routes/courseRoutes.js:13 | a string trims to empty exactly when it is all whitespace |
| JsText.StrLessTotal | liveroom-frontend/src/components/course/CourseList.jsx:102-108 | two distinct strings are ordered one way or the other by `<` |
| JsText.StrLessTransitive | liveroom-frontend/src/components/course/CourseList.jsx:102-108 | string `<` is transitive |
| JsText.NatToString | liveroom-frontend/src/components/course/VideoPlayer.jsx:128 | `toString` of a natural number gives a non-empty string of decimal digits with no leading zero, and one digit exactly when the number is below 10 |
| JsText.NatToStringValue | liveroom-frontend/src/components/course/VideoPlayer.jsx:128 | reading the digits back gives the number |
| JsText.PadStart2 | liveroom-frontend/src/components/course/VideoPlayer.jsx:128 | `padStart(2, '0')` leaves strings of length two or more alone, and left-fills shorter ones with zeros to length two |
| UploadFilter.AnyIncluded | liveroom-backend/src/middleware/upload.js:6-8 | the alternation regex matches exactly when some token occurs somewhere in the string |
| UploadFilter.FileFilter | liveroom-backend/src/middleware/upload.js:5-14 | a file is accepted exactly when its lower-cased name contains one of the eight tokens and its MIME type contains one of them; nothing else is consulted |
| UploadFilter.Receive | liveroom-backend/src/middleware/upload.js:9-20 | no file passes through; a filtered-out file gives the type error with its message; a filtered file above 100 MiB gives the size error; otherwise the request reaches the handler |
| UploadFilter.AcceptedBy | liveroom-backend/src/middleware/upload.js:6-10 | one occurrence of a token in the lower-cased name and one in the MIME type are enough for acceptance |
| UploadFilter.UnanchoredMatch | liveroom-backend/src/middleware/upload.js:6-7 | `mp4.txt` declared as `video/mp4` is accepted: the token need not be the extension |
| UploadFilter.NameCaseInsensitive | liveroom-backend/src/middleware/upload.js:7 | an upper-case name such as `CLIP.MP4` is accepted |
| UploadFilter.MimeTypeCaseSensitive | liveroom-backend/src/middleware/upload.js:8 | `VIDEO/MP4` is refused whatever the name |
| CourseStore.CreateChecksTitleFirst | liveroom-backend/src/routes/courseRoutes.js:13-15 | a title that is absent, not a string or blank after trim gives 400 "Title is required", whatever the description and the caller, and nothing is stored |
| CourseStore.CreateSucceedsIff | liveroom-backend/src/routes/courseRoutes.js:13-34 | creation answers 201 exactly when the title, description and caller checks pass and the insert does not throw; every other path stores nothing |
| CourseStore.CreateStoresCourse | liveroom-backend/src/routes/courseRoutes.js:23-29 | a created course goes under a fresh id, with the trimmed (non-blank) title, the trimmed description when it is truthy and `''` otherwise, the caller as owner, and no media, transcript, summary or quiz; it is returned with status 201 and the other records are untouched |
| CourseStore.CreateKeepsValid | liveroom-backend/src/models/courses.js:4 | creating keeps every stored title non-empty and every media triple whole |
| CourseStore.ListFromContents | liveroom-backend/src/routes/courseRoutes.js:39 | the listing holds every stored course exactly once, in id order, each without its payload |
| CourseStore.ListFromStored | liveroom-backend/src/routes/courseRoutes.js:39 | every listed document is a stored course below the next id, without its payload |
| CourseStore.ListFromIncreasing | liveroom-backend/src/routes/courseRoutes.js:39 | the listed ids strictly increase, so no course is listed twice |
| CourseStore.ListFromCovers | liveroom-backend/src/routes/courseRoutes.js:39 | every stored course below the next id is listed |
| CourseStore.ListHidesData | liveroom-backend/src/routes/courseRoutes.js:37-44 | the list reply names only stored courses, names all of them, and never carries `media.data` |
| CourseStore.DetailHidesData | liveroom-backend/src/routes/courseRoutes.js:47-56 | detail is 404 exactly for an unknown id, and a 200 carries the course without its payload |
| CourseStore.UploadChecksCourseFirst | liveroom-backend/src/routes/courseRoutes.js:61-62 | a missing course gives 404 before the file is looked at |
| CourseStore.UploadFileChecks | liveroom-backend/src/routes/courseRoutes.js:64-72 | with the course found, no file gives 400 "No file uploaded"; a file gives 400 "File too large" exactly when it exceeds 15 MiB, so exactly 15 MiB is accepted |
| CourseStore.UploadReplacesMedia | liveroom-backend/src/routes/courseRoutes.js:74-81 | an upload answers 200 exactly when the checks pass and the save succeeds; the media becomes (buffer, mimetype, originalname) and nothing else changes; every other path leaves the store as it was |
| CourseStore.UploadFaults | liveroom-backend/src/routes/uploadRoutes.js:43-46 | a throwing find or save gives 500 with the handler's generic message and writes nothing |
| CourseStore.HandlersAgree | liveroom-backend/src/controllers/courseController.js:4-35 | the three upload handlers write the same store and answer with the same status |
| CourseStore.UploadKeepsValid | liveroom-backend/src/routes/uploadRoutes.js:32-39 | an upload keeps every stored media triple whole |
| CourseStore.FilterRunsFirst | liveroom-backend/src/routes/courseRoutes.js:59 | a file the filter refuses never reaches the handler, so the answer does not depend on the course |
| CourseStore.TwoCeilings | liveroom-backend/src/middleware/upload.js:19 | between 15 MiB and 100 MiB the handler refuses the file with 400; above 100 MiB multer refuses it first |
| CourseStore.DispositionRoundTrip | liveroom-backend/src/routes/courseRoutes.js:98 | the header `inline; filename="<name>"` or `attachment; filename="<name>"` carries the name unescaped; the model's own reader (up to the final quote) gives back the disposition and the name, quotes included, which a quoted-string reader would not |
| CourseStore.ServeNotFound | liveroom-backend/src/routes/courseRoutes.js:92-94 | stream/download is 404 "Media not found" exactly when the course, its media or its data is absent; an empty buffer is served |
| CourseStore.ServeUnnamed | liveroom-backend/src/routes/courseRoutes.js:96-99 | a payload stored without a name or a type is still served with 200: the type is the string `undefined` and the header names the file `undefined` |
| CourseStore.ServeModesDiffer | liveroom-backend/src/routes/courseRoutes.js:112-121 | stream and download give the same status and payload and differ only in the disposition token |
| CourseStore.UploadThenServe | liveroom-backend/src/routes/courseRoutes.js:74-101 | after a successful upload, both read routes return exactly the uploaded bytes, its MIME type and its original name |
| CourseStore.SecondUploadWins | liveroom-backend/src/routes/courseRoutes.js:74-78 | a second upload replaces the first completely: only the second file can be read back |
| CourseStore.Store.Create | liveroom-backend/src/routes/courseRoutes.js:9-34 | the method's new state and reply are those of `CreateStep`, and it keeps the store valid |
| CourseStore.Store.List | liveroom-backend/src/routes/courseRoutes.js:37-44 | the loop builds the reply of `ListReply`; when the find does not fail, the status is 200 and every listed id is stored |
| CourseStore.Store.Detail | liveroom-backend/src/routes/courseRoutes.js:47-56 | the reply is `DetailReply`'s, and 404 exactly for an unknown id |
| CourseStore.Store.Upload | liveroom-backend/src/routes/uploadRoutes.js:9-47 | the new state and reply are those of `UploadStep` for the chosen handler, and it keeps the store valid |
| CourseStore.Store.UploadRoute | liveroom-backend/src/routes/courseRoutes.js:59-86 | multer's rejection leaves the store as it was; otherwise the handler's step is applied |
| CourseStore.Store.Stream | liveroom-backend/src/routes/courseRoutes.js:89-106 | the reply is the inline `ServeReply`; 404 exactly when there is no payload |
| CourseStore.Store.Download | liveroom-backend/src/routes/courseRoutes.js:109-126 | the reply is the attachment `ServeReply`; 404 exactly when there is no payload |
| CourseStore.Store.Serve | liveroom-backend/src/routes/courseRoutes.js:91-101 | the shared body of the read routes computes `ServeReply` |
| Dashboard.OwnEnrollments | liveroom-backend/src/controllers/dashboardController.js:27 | it selects exactly the caller's enrollments, and no more of them than are stored |
| Dashboard.OwnCounts | liveroom-backend/src/controllers/dashboardController.js:27 | each of the caller's enrollments is selected exactly as often as it is stored (equal records included), any other never |
| Dashboard.CompletedPlusInProgress | liveroom-backend/src/controllers/dashboardController.js:29-30 | completed plus in progress is the number of enrollments |
| Dashboard.CertificatesBounded | liveroom-backend/src/controllers/dashboardController.js:32 | there are at most as many certificates as enrollments |
| Dashboard.SumHoursAppend | liveroom-backend/src/controllers/dashboardController.js:31 | the hours of a concatenation are the sum of the hours of its parts |
| Dashboard.SumHoursBounds | liveroom-backend/src/controllers/dashboardController.js:31 | with no negative hours, the total is non-negative and at least each enrollment's hours |
| Dashboard.SumHoursLast | liveroom-backend/src/controllers/dashboardController.js:31 | one more enrollment adds its hours to the total, and a null number of hours adds nothing |
| Dashboard.StatsCounts | liveroom-backend/src/controllers/dashboardController.js:26-35 | the statistics partition the caller's enrollments and bound the certificates |
| Dashboard.OthersIgnored | liveroom-backend/src/controllers/dashboardController.js:8-9 | an enrollment of another user changes neither the caller's enrollments nor the caller's statistics |
| Dashboard.OwnAppend | liveroom-backend/src/controllers/dashboardController.js:27 | selecting the caller's enrollments distributes over concatenation, so stored order is kept |
| Dashboard.FreshEnrollmentStats | liveroom-backend/src/models/Enrollment.js:5-15 | an enrollment made from its two references, with the schema's defaults, counts as one course in progress, with 0 hours and no certificate |
| Dashboard.FreshEnrollmentListed | liveroom-backend/src/models/Enrollment.js:5-15 | such an enrollment is listed with its course's title, progress 0 and next lesson "Start Lesson 1" |
| Dashboard.EntriesOf | liveroom-backend/src/controllers/dashboardController.js:12-17 | the list is defined exactly when every course reference resolves; it then has one entry per enrollment, in order, with the course's id and title and the enrollment's progress and next lesson |
| Dashboard.ListMatchesStats | liveroom-backend/src/controllers/dashboardController.js:7-35 | the enrolled-course list has as many entries as the completed and in-progress counts together |
| CourseCatalog.SearchFilterThrows | liveroom-frontend/src/components/course/CourseList.jsx:76-82 | the search throws exactly when some course reaches the instructor test without an instructor |
| CourseCatalog.SearchFilterKeeps | liveroom-frontend/src/components/course/CourseList.jsx:76-82 | when it does not throw, the search keeps every matching course exactly as often as it occurs, and no other |
| CourseCatalog.SearchFilterAppend | liveroom-frontend/src/components/course/CourseList.jsx:76-82 | the search keeps the given order: on a concatenation it succeeds when both parts do and gives the concatenated results |
| CourseCatalog.MatchMentions | liveroom-frontend/src/components/course/CourseList.jsx:78-80 | a kept course has the lower-cased term in its lower-cased title, description or instructor |
| CourseCatalog.KeepCounts | liveroom-frontend/src/components/course/CourseList.jsx:84-90 | `filter` keeps every element satisfying the predicate exactly as often as it occurs, and no other |
| CourseCatalog.KeepAppend | liveroom-frontend/src/components/course/CourseList.jsx:84-90 | `filter` keeps the given order: it distributes over concatenation |
| CourseCatalog.ChoicesCount | liveroom-frontend/src/components/course/CourseList.jsx:84-90 | the category and level stages keep every course with the chosen category and level exactly as often as it occurs, and no other |
| CourseCatalog.ChoicesAppend | liveroom-frontend/src/components/course/CourseList.jsx:84-90 | the category and level stages distribute over concatenation |
| CourseCatalog.FilteredSelects | liveroom-frontend/src/components/course/CourseList.jsx:73-90 | only the search can throw, exactly when a course reaches the instructor test without an instructor; otherwise the three filters keep every selected course exactly as often as it occurs in `courses`, and no other; each result mentions the search term and has the chosen category and level; all of `courses` is kept when nothing filters |
| CourseCatalog.FilteredAppend | liveroom-frontend/src/components/course/CourseList.jsx:73-90 | the filter stages keep the given order: on a concatenation they act part by part |
| CourseCatalog.Compare | liveroom-frontend/src/components/course/CourseList.jsx:92-111 | the comparator answers 1 or -1, never 0 |
| CourseCatalog.OutOfOrderAsymmetric | liveroom-frontend/src/components/course/CourseList.jsx:106-110 | the comparator never asks both for a before b and for b before a |
| CourseCatalog.InOrderTransitive | liveroom-frontend/src/components/course/CourseList.jsx:92-111 | on comparable keys, the comparator's "not after" relation is transitive |
| CourseCatalog.AdjacentSortedIsSorted | liveroom-frontend/src/components/course/CourseList.jsx:92-111 | with comparable keys, an order with no bad neighbours has no bad pair at all |
| CourseCatalog.TitleOrder | liveroom-frontend/src/components/course/CourseList.jsx:102-110 | sorted by title ascending, lower-cased titles never decrease (descending: never increase); with distinct titles, strictly |
| CourseCatalog.SortInPlace | liveroom-frontend/src/components/course/CourseList.jsx:92-111 | the array is rearranged in place into a permutation of itself with no neighbours the comparator would swap |
| CourseCatalog.DisplayedFallback | liveroom-frontend/src/components/course/CourseList.jsx:134 | after the filters, the sample courses are shown when no course of `courses` is selected; otherwise the filtered list itself is shown, and it holds only selected courses of `courses` |
| CourseCatalog.CourseListView.constructor | liveroom-frontend/src/components/course/CourseList.jsx:20-25 | the state starts with the `courses` array, no search, all categories and levels, sorted by title ascending |
| CourseCatalog.CourseListView.RunEffect | liveroom-frontend/src/components/course/CourseList.jsx:73-115 | the effect throws exactly when the search does, and then changes nothing; otherwise the stored list has exactly the selected courses, each as often as in `courses`, with no bad neighbours; when nothing filters it is the `courses` array itself, sorted in place, and otherwise a fresh array that leaves `courses` untouched |
| CourseCatalog.CourseListView.SelectSortField | liveroom-frontend/src/components/course/CourseList.jsx:183-192 | choosing a field in the sort selector sets that field and keeps the order; nothing else changes |
| CourseCatalog.CourseListView.ToggleSortOrder | liveroom-frontend/src/components/course/CourseList.jsx:193-199 | the sort-order button flips ascending and descending and keeps the field; nothing else changes |
| CourseCatalog.CourseListView.HandleSortChange | liveroom-frontend/src/components/course/CourseList.jsx:117-124 | the same field flips the order; another field is taken with the order reset to ascending; nothing else changes |
| CourseUploadForm.ValidationOrder | liveroom-frontend/src/components/upload/CourseUpload.jsx:33-56 | the first failing check wins, in the order no file, blank title, blank description, missing token, each with its own message |
| CourseUploadForm.RejectedLocally | liveroom-frontend/src/components/upload/CourseUpload.jsx:33-47 | a form that fails a check sends nothing, keeps its fields and shows that check's message |
| CourseUploadForm.NeverLeftLoading | liveroom-frontend/src/components/upload/CourseUpload.jsx:100-102 | `loading` is false after every early return and after completion |
| CourseUploadForm.UploadFollowsCreate | liveroom-frontend/src/components/upload/CourseUpload.jsx:57-92 | requests are sent only when validation passes; the creation request goes first, with the token and the fields as typed; the media upload is sent only after the creation succeeded, to the path of the `_id` it returned |
| CourseUploadForm.SuccessResets | liveroom-frontend/src/components/upload/CourseUpload.jsx:94-99 | the success alert appears exactly when both requests succeed, and the form is then cleared; a failed request keeps title, description and file and shows its message |
| CourseUploadForm.FailureExplained | liveroom-frontend/src/components/upload/CourseUpload.jsx:30-99 | when rejections have messages, the error is empty after a submission exactly when it succeeded |
| CourseUploadForm.UploadForm.constructor | liveroom-frontend/src/components/upload/CourseUpload.jsx:4-8 | the form starts empty, not loading, with nothing sent |
| CourseUploadForm.UploadForm.HandleDrop | liveroom-frontend/src/components/upload/CourseUpload.jsx:11-18 | a drop clears the error and takes the first dropped file; an empty drop keeps the current file |
| CourseUploadForm.UploadForm.HandleFileSelect | liveroom-frontend/src/components/upload/CourseUpload.jsx:24-26 | a selection takes its first file, and an empty selection clears the file |
| CourseUploadForm.UploadForm.HandleSubmit | liveroom-frontend/src/components/upload/CourseUpload.jsx:28-103 | the new form state, requests and alerts are those of `Submit` |
| VideoPlayback.Forward | liveroom-frontend/src/components/course/VideoPlayer.jsx:111 | a skip forward goes ten seconds on but never past the duration |
| VideoPlayback.Backward | liveroom-frontend/src/components/course/VideoPlayer.jsx:116 | a skip back goes ten seconds back but never below 0, and never later than the start time |
| VideoPlayback.SkipsCancel | liveroom-frontend/src/components/course/VideoPlayer.jsx:109-117 | away from the ends, a skip forward and a skip back undo each other |
| VideoPlayback.Rem60 | liveroom-frontend/src/components/course/VideoPlayer.jsx:127 | for non-negative times, `% 60` is the part past the whole minutes, in [0, 60) |
| VideoPlayback.FormatTimeIsClock | liveroom-frontend/src/components/course/VideoPlayer.jsx:125-129 | for t ≥ 0 the format is `m:ss`: m = floor(t/60), and ss is floor of the seconds past m minutes, in 0..59 |
| VideoPlayback.TwoDigitSeconds | liveroom-frontend/src/components/course/VideoPlayer.jsx:128 | the seconds field is exactly two decimal digits, worth the seconds |
| VideoPlayback.ReadClock | liveroom-frontend/src/components/course/VideoPlayer.jsx:128 | a clock reading splits at its colon into the minutes' digits and two digits of seconds, which read back as the minutes and the seconds |
| VideoPlayback.WholeSecondsRoundTrip | liveroom-frontend/src/components/course/VideoPlayer.jsx:125-129 | for a whole number n of seconds, the format shows n / 60 minutes and n % 60 seconds, and minutes * 60 + seconds = n |
| VideoPlayback.BookmarkTitleIsClock | liveroom-frontend/src/components/course/VideoPlayer.jsx:135 | a bookmark's title is "Bookmark at " followed by the clock reading of its time |
| VideoPlayback.Player.constructor | liveroom-frontend/src/components/course/VideoPlayer.jsx:18-26 | the player starts paused at 0 with full volume, not muted, at rate 1, with the settings closed |
| VideoPlayback.Player.LoadedMetadata | liveroom-frontend/src/components/course/VideoPlayer.jsx:36 | the duration becomes the element's duration |
| VideoPlayback.Player.TimeUpdate | liveroom-frontend/src/components/course/VideoPlayer.jsx:37-38 | the state's time follows the element's |
| VideoPlayback.Player.Ended | liveroom-frontend/src/components/course/VideoPlayer.jsx:41-42 | the end of the video clears `isPlaying` and leaves the element paused and marked ended at the same position; the invariant (element paused exactly when not playing) is kept |
| VideoPlayback.Player.TogglePlay | liveroom-frontend/src/components/course/VideoPlayer.jsx:65-70 | the element is paused if the state said playing, played otherwise, and `isPlaying` flips; playing an ended element first seeks it back to 0 and clears the ended mark; the element stays paused exactly when the state says not playing |
| VideoPlayback.Player.HandleVolumeChange | liveroom-frontend/src/components/course/VideoPlayer.jsx:79-84 | the new volume is stored and set on the element, and the player is muted exactly when it is 0 |
| VideoPlayback.Player.ToggleMute | liveroom-frontend/src/components/course/VideoPlayer.jsx:86-95 | muting sets the element's volume to 0; unmuting restores the stored volume; the stored volume never changes; the element is silent exactly when muted or at volume 0 (`Valid`) |
| VideoPlayback.Player.SkipForward | liveroom-frontend/src/components/course/VideoPlayer.jsx:109-112 | the element's time becomes `Forward` of it, so at most the duration, and as a seek it clears the ended mark; nothing else changes |
| VideoPlayback.Player.SkipBackward | liveroom-frontend/src/components/course/VideoPlayer.jsx:114-117 | the element's time becomes `Backward` of it, so between 0 and the old time, and as a seek it clears the ended mark; nothing else changes |
| VideoPlayback.Player.ToggleSettings | liveroom-frontend/src/components/course/VideoPlayer.jsx:244 | the settings menu opens or closes |
| VideoPlayback.Player.ChangePlaybackRate | liveroom-frontend/src/components/course/VideoPlayer.jsx:119-123 | the element and the state take the rate, and the settings menu closes |
| VideoPlayback.Player.AddBookmark | liveroom-frontend/src/components/course/VideoPlayer.jsx:131-138 | a bookmark is handed out exactly when a callback exists; it carries the state's time, and at a non-negative time its title is "Bookmark at " followed by the `m:ss` reading of that time |

## Left out

- The `protect` middleware, JWT checks and the user lookup. The create route takes the caller's id as a parameter (absent gives its 401). The upload steps (`UploadStep`, `UploadEndpoint`) take no caller at all: they model the handlers as reached after `protect` has let the request through.
- The error handler that turns multer's errors into responses is not part of this model. A multer rejection is `Forwarded`, with no status.
- Whether `uploadRoutes.js` is mounted, and the `../models/Course` file needed by `courseController.js`, which is not part of this model: the handlers' logic is modelled, not their wiring.
- ObjectId casting, mongoose validation errors and connection failures are folded into the single "find/save/create throws" parameter. The `error: err.message` field of the create route's 500 body is not modelled.
- Mongoose timestamps, `__v` and the JSON serialisation of a document.
- The order in which `Course.find()` returns documents is taken to be insertion (id) order. MongoDB does not guarantee it.
- Express's charset suffix on text MIME types, and Node's refusal of header values holding characters it deems invalid (control characters other than tab, and characters above U+00FF): such a file name would turn a 200 into a 500.
- Concurrent requests to the same course (last write wins) are not modelled: each step is atomic.
- The dashboard handlers have no `try`: a dangling course reference makes `getEnrolledCourses` throw, which is modelled as `None` with no reply.
- `toLowerCase` is modelled on ASCII letters only. Strings are compared by Unicode code point, not by UTF-16 code unit.
- NaN, infinities and floating-point rounding are not modelled: numbers are exact reals. The `parseFloat`/`parseInt` of the price, rating and students sort keys is not modelled either: a key is a number or absent (NaN).
- CourseCatalog.SortInPlace: the JavaScript engine's sort algorithm is not modelled. An insertion sort stands in, so the contract states a permutation with no neighbour pair the comparator would swap, not the engine's exact order for equal or NaN keys.
- A catalogue course's title is always a string (a missing title would make `toString` throw during a title sort).
- CourseUploadForm.UploadForm.HandleSubmit: an answer whose body is not JSON (so `.json()` throws) is not modelled, nor is the host part of the request URLs. `alert` is recorded in a log. React's batching of state updates is abstracted to the final state of one call.
- VideoPlayback.Player.HandleVolumeChange: it requires a value between 0 and 1, the range of the volume slider that calls it, because the element refuses volumes outside that range.
- VideoPlayer's event-listener registration, `onProgress`/`onComplete` callbacks, `handleSeek`, fullscreen, quality and subtitles, and the `play()` promise are left out: these are DOM and browser behaviour. The element's `ended` is a mark set by the `ended` event and cleared by a seek or `play()`; it is not derived from the position, so a skip that lands exactly at the end leaves the element not ended.
- CourseCatalog.CourseListView.HandleSortChange: modelled as written, but no control of the component calls it; the sort selector and the order button (SelectSortField, ToggleSortOrder) are what the user drives.
- React rendering is not modelled: `Displayed` is the list the next render would show. A re-render after the effect is not guaranteed: when nothing filters, the effect sorts the `courses` array in place and stores that same array. React skips the re-render when the stored value is identical, so the screen can keep an earlier order (for example the title order after choosing sort by price) while the model's stored list is already sorted by price.
- JSX markup, view modes, CourseCard's price and star formatting, and the AI, transcript and file-system services.
