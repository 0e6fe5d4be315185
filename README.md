# Portfolio: a verified model of the backend and the résumé/admin pages

This project is a Dafny model of the portfolio application. The application has:

- an Express/Mongoose backend holding users and projects;
- a Multer upload middleware for images and a résumé PDF;
- two React pages, the admin dashboard and the public résumé page.

The model proves properties about them.

| file | models |
|---|---|
| `wrappers.dfy` | `Option` and `Result` |
| `js_string.dfy` | the JavaScript string built-ins the code relies on: `trim`, `toLowerCase`, an unanchored regular-expression `test`, `startsWith`, `replace` with a string pattern, `split` on one character, `join`, and `String(n)` for a non-negative integer |
| `models.dfy` | the two Mongoose schemas: field setters (`trim`, `lowercase`), `required` validation, defaults and timestamps |
| `upload.dfy` | the Multer configuration: `path.extname`, the file filter, the generated file name, the 5 MiB ceiling |
| `server.dfy` | every route of the backend except the health check; the `Portfolio` class is the store |
| `admin.dfy` | the pure parts of the admin dashboard: tag parsing and joining, the form's input handler, the résumé picker's PDF check, the "View Current Resume" link |
| `resume.dfy` | the résumé page: origin resolution, the URL it opens and shows, which view it renders, and `fetchResume` over the page's state cells |

In the `Portfolio` class, routes that write are methods that update `users`, `projects` and `nextId`. Each method states the whole new state. Each keeps the store invariant `Consistent`, which is `UsersConsistent` and `ProjectsConsistent` together:

- ids are distinct and below the next id;
- usernames and e-mails are unique;
- stored users are normalised;
- project titles are trimmed.

Routes that only read are functions of the collections.

bcrypt is an opaque `Hasher` passed to the store. The one property of bcrypt used in a proof is `Sound`: a password matches its own hash. That property is a hypothesis of `RegisterThenLogin`, not an axiom.

The clock (`Date.now()`) and `Math.random()` are parameters. The build-time variable `REACT_APP_API_URL` is an `Option<string>` parameter.

A refused file type is answered with 500, not 400. The file filter's error goes to Express's default error handler, because no handler of the app catches it. The model follows the code.

The filter matches types by substring, not by set membership: `/jpeg|jpg|png|gif|webp/.test` is unanchored. So an extension like `jpeg2` passes, which `SubstringMatch` shows. The filter runs before the size check, so an oversized file of a refused type gets the type message.

## Model

| member | source | states |
|---|---|---|
| JsString.TrimStart | backend/models.js:8 | drops exactly the leading white space: the result is a suffix of the input, what was dropped is all white space, and the result is empty or starts with a non-space |
| JsString.TrimEnd | backend/models.js:8 | drops exactly the trailing white space: the result is a prefix of the input, what was dropped is all white space, and the result is empty or ends with a non-space |
| JsString.Trim | backend/models.js:4-9 | the result has no white space at either end, is no longer than the input and holds only characters of the input, so trimming never adds a comma; it is empty exactly when the input is all white space; a trimmed string is left as it is; which slice it is, TrimIsFramed states |
| JsString.TrimIsFramed | backend/models.js:4-9 | the trimmed string is exactly the input without its leading and trailing white space: it is the slice of the input that starts where the leading white space ends, with only white space before and after it |
| JsString.TrimAfterSpace | frontend/src/pages/Admin.js:160 | trimming a trimmed word with one white space character in front gives the word back |
| JsString.ToLower | backend/models.js:14 | the result has the same length, contains no upper-case ASCII letter, and is the input lower-cased character by character |
| JsString.LowerIsFixed | backend/models.js:14 | lower-casing a lower-case string changes nothing |
| JsString.LowerKeepsSpace | backend/models.js:14-15 | lower-casing neither creates nor removes white space |
| JsString.LowerTrimCommute | backend/models.js:10-16 | applying `lowercase` then `trim` equals `trim` then `lowercase`, so the setters' order does not matter |
| JsString.LowerKeepsAbsent | backend/upload.js:19 | lower-casing never brings in a character that is not a lower-case letter and was absent, such as the dot |
| JsString.LowerDropFirst | backend/upload.js:19-21 | lower-casing and then dropping the first character equals dropping it and then lower-casing |
| JsString.IndexOf | frontend/src/pages/Resume.js:31 | gives the first position where the pattern occurs, or none when it occurs nowhere |
| JsString.StartsWith | frontend/src/pages/Resume.js:33 | `s.startsWith(prefix)`: the prefix is the string's first characters |
| JsString.Contains | backend/upload.js:21-22 | `/pat/.test(s)` for a regex of plain letters: the pattern occurs somewhere in the string |
| JsString.Join | frontend/src/pages/Admin.js:199-200 | `xs.join(sep)`: the words with the separator between neighbours; JoinSplit and SplitJoin pair it with Split |
| JsString.ReplaceFirst | frontend/src/pages/Resume.js:31 | with no occurrence the string is unchanged; otherwise only the first occurrence is replaced |
| JsString.Split | frontend/src/pages/Admin.js:160 | gives at least one piece, and no piece contains the separator |
| JsString.JoinSplit | frontend/src/pages/Admin.js:160 | joining the pieces of a split with the separator restores the string |
| JsString.SplitJoin | frontend/src/pages/Admin.js:160-161 | splitting a join of separator-free words gives the words back |
| JsString.SplitPrefix | frontend/src/pages/Admin.js:160 | a separator-free word followed by the separator splits off as the first piece |
| JsString.SplitNoSeparator | frontend/src/pages/Admin.js:160 | a string without the separator splits into itself |
| JsString.Decimal | backend/upload.js:10 | the rendering of a number is a non-empty run of digits |
| JsString.DecimalRoundTrip | backend/upload.js:10 | reading the digits back gives the number |
| JsString.DecimalInjective | backend/upload.js:10 | different numbers render differently |
| JsString.LeadingDigitsOf | backend/upload.js:10-11 | a digit run followed by a non-digit has exactly that many leading digits |
| JsString.DigitRunUnique | backend/upload.js:10-11 | a digit run followed by text that is empty or starts with a non-digit splits in only one way |
| Models.NewUser | backend/models.js:3-29 | succeeds exactly when the trimmed username, the trimmed lower-cased e-mail and the hash are non-empty; stores those normalised values, an empty résumé URL and the creation time; otherwise it names exactly the missing paths |
| Models.NormEmailShape | backend/models.js:10-16 | an e-mail after its setters is trimmed and lower case |
| Models.NewUserIdempotent | backend/models.js:4-24 | rebuilding a well-formed stored user from its own fields gives the same user |
| Models.NewProject | backend/models.js:31-75 | succeeds exactly when the trimmed title, the summary and the description are present and non-empty; the title is trimmed; each optional list, URL and `featured` is the body's value or else the schema default; both timestamps are the creation time; otherwise it names exactly the missing paths |
| Models.NewProjectDefaults | backend/models.js:45-66 | omitted lists, URLs and `featured` take the defaults: empty lists, empty strings, false |
| Models.NewProjectRoundTrip | backend/models.js:31-75 | a well-formed project created at one instant is rebuilt exactly from its own fields |
| Upload.LastIndexOf | backend/upload.js:11 | gives the last position of the character, or none when it is absent |
| Upload.BaseName | backend/upload.js:11 | the last `/`-separated component: the longest suffix of the path with no `/` (the whole path, or the part after a `/`) |
| Upload.BaseExt | backend/upload.js:11 | the extension of a base name is empty, or starts with its only dot, and is a suffix of the name; it is empty exactly when the name has no dot, is `..`, or has its only dot first |
| Upload.ExtName | backend/upload.js:11 | the extension is empty, or it starts with its only dot; it contains no `/`, is a suffix of the path, and is the extension of the base name |
| Upload.ExtNameEmpty | backend/upload.js:11 | a path has no extension exactly when its base name has no dot, is `..`, or has its only dot first |
| Upload.ExtNameFromLastDot | backend/upload.js:11 | otherwise the extension is the base name from its last dot on |
| Upload.HiddenFileNoExtension | backend/upload.js:11 | a hidden file `dir/.name` has no extension |
| Upload.DotDotNoExtension | backend/upload.js:11 | `..` has no extension |
| Upload.HiddenFileRefused | backend/upload.js:11-27 | a hidden file `dir/.name` is refused whatever type it declares |
| Upload.HiddenPdfRefused | backend/upload.js:11-27 | `dir/.pdf` declared as `application/pdf` is refused |
| Upload.ExtWord | backend/upload.js:19-21 | the lower-cased extension without its dot contains no upper-case letter and no dot |
| Upload.ExtWordIs | backend/upload.js:19-21 | a name whose extension is `.<ext>` has `ext` lower-cased as its word |
| Upload.ExtWordOfLower | backend/upload.js:19-21 | the word is the lower-cased extension without its first character, as the source computes it |
| Upload.FileFilter | backend/upload.js:16-29 | accepts exactly an image (extension and type both match the image pattern) or a PDF (the extension matches `pdf` and the type is exactly `application/pdf`); a refusal carries the filter's message |
| Upload.NoExtensionRejected | backend/upload.js:19-27 | a name with no extension is refused, whatever type it declares |
| Upload.ExtensionCaseInsensitive | backend/upload.js:19 | two names whose extensions agree once lower-cased get the same verdict |
| Upload.WordRejected | backend/upload.js:21-27 | a name whose word matches neither the image nor the PDF pattern is refused, whatever its type |
| Upload.ImageWordAccepted | backend/upload.js:21-25 | a name whose word matches the image pattern, declared with a type that matches it too, is accepted |
| Upload.ExeWord | backend/upload.js:19-21 | the word of a name with extension `.exe` is `exe` |
| Upload.ExeMatchesNothing | backend/upload.js:17-18 | `exe` matches neither the image pattern nor the PDF pattern |
| Upload.ExeRejected | backend/upload.js:17-27 | an `.exe` file is refused, whatever type it declares |
| Upload.StoredName | backend/upload.js:10-11 | a stored name starts with `project-` and ends with the extension it is given |
| Upload.StoredNameInjective | backend/upload.js:10-11 | equal stored names come from equal instants, random numbers and extensions |
| Upload.Filename | backend/upload.js:9-12 | the generated name starts with `project-` and ends with the original extension |
| Upload.FilenameInjective | backend/upload.js:10-11 | equal generated names come from equal instants, equal random suffixes and equal extensions |
| Upload.NameParts | backend/upload.js:10-11 | `project-<digits>-<digits><ext>` splits into its parts in only one way |
| Upload.Admit | backend/upload.js:32-38 | a file is stored exactly when the filter accepts it and it is at most 5 MiB, under the generated name; a filter refusal gives the filter's message; an accepted file over 5 MiB gives "File too large" |
| Upload.LastIndexOfLast | backend/upload.js:11 | the last occurrence of a character in `s + [c] + t`, where `t` lacks it, is just before `t` |
| Upload.ExtNameOf | backend/upload.js:11 | the extension of `<stem>.<ext>` is `.<ext>`, for a non-empty stem without `/` and an extension without `/` or dot |
| Upload.ExtWordOf | backend/upload.js:19-21 | the extension word of `<stem>.<ext>` is `ext` lower-cased |
| Upload.JpegAccepted | backend/upload.js:16-38 | a 1 MiB `<stem>.jpg` declared `image/jpeg` is stored |
| Upload.StoredNameKeepsExtension | backend/upload.js:11 | a stored file's name ends with the original extension, case and all |
| Upload.ImageNamePasses | backend/upload.js:19-25 | `<stem>.<ext>` is accepted when `ext` lower-cased and the declared type both match the image pattern |
| Upload.JpegPasses | backend/upload.js:21 | `<stem>.jpg` declared `image/jpeg` passes the filter |
| Upload.PdfPasses | backend/upload.js:22 | `<stem>.pdf` declared `application/pdf` passes the filter |
| Upload.UpperCaseExtensionAccepted | backend/upload.js:19-21 | `<stem>.JPG` declared `image/jpeg` passes: the extension is compared case-insensitively |
| Upload.MimeTypeCaseSensitive | backend/upload.js:22 | a file declared `Application/PDF` is refused, whatever its name: the type is compared exactly |
| Upload.SubstringMatch | backend/upload.js:17-21 | `<stem>.jpeg2` declared `image/jpeg` passes, because the pattern matches a substring |
| Upload.SixMebibytesRefused | backend/upload.js:35 | a 6 MiB file is refused, whatever its type |
| Server.IndexOfEmail | backend/index.js:159 | gives the first user with the e-mail, or none when no user has it |
| Server.IndexOfUser | backend/index.js:77 | gives a user with the id, or none when no user has it |
| Server.IndexOfProject | backend/index.js:200 | gives a project with the id, or none when no project has it |
| Server.Sign | backend/index.js:137-139 | `jwt.sign({ userId }, secret, { expiresIn: '7d' })`: the claims name the user, the issue time in whole seconds, and an expiry seven days later |
| Server.Taken | backend/index.js:119 | `findOne({ $or: [{ email }, { username }] })` finds a user: some stored user has the normalised e-mail or the normalised username |
| Server.Login | backend/index.js:154-186 | a login succeeds only for a stored user with the normalised e-mail whose hash matches the password; the token names that user and expires seven days after issue; an unknown e-mail is refused |
| Server.LoginFailuresAlike | backend/index.js:159-168 | with unique e-mails, a wrong password for a known e-mail gives the same refusal as an unknown e-mail |
| Server.GetProfile | backend/index.js:75-82 | there is a profile exactly when some user has the caller's id; it is that user's profile without the password |
| Server.PublicResume | backend/index.js:100-111 | a résumé is returned exactly when there is a user and the first user's résumé URL is non-empty; it is that URL |
| Server.GetProject | backend/index.js:198-208 | a project is found exactly when some project has the id; it is a stored project with that id |
| Server.InsertByDate | backend/index.js:191 | inserting into a newest-first list keeps it newest first, adds exactly that project, and puts it or the old head at the front |
| Server.TailNewest | backend/index.js:191 | the tail of a newest-first list is newest first and no newer than its head |
| Server.ConsNewest | backend/index.js:191 | a project no older than the head of a newest-first list may go in front |
| Server.ListProjects | backend/index.js:189-196 | the list is newest first and is a permutation of the stored projects |
| Server.UploadResponse | backend/index.js:37-51 | no file gives "No file uploaded"; a file is uploaded exactly when the middleware stores it, and the URL is `/uploads/` followed by the generated name; a refusal carries exactly the message of the middleware's refusal: the filter's message, or "File too large" |
| Server.WithResume | backend/index.js:63 | the same users in the same order; only the résumé URL of the user with the id can change, and with unique ids it becomes the new URL |
| Server.Patched | backend/index.js:237-252 | each field the body sets is overwritten, the title trimmed; each field it leaves out is kept; `updatedAt` is now; the id and `createdAt` never change |
| Server.Portfolio.constructor | backend/models.js:77-78 | the store starts with no users and no projects, and is consistent |
| Server.Portfolio.Register | backend/index.js:114-152 | a taken username or e-mail gives "User already exists" and changes nothing; otherwise the new user is appended under a fresh id, or validation fails and nothing changes; projects never change and the store stays consistent |
| Server.Portfolio.AddUser | backend/index.js:128-134 | a normalised user under the next id, with a new username and e-mail, is appended; the counter advances; the store stays consistent |
| Server.Portfolio.UpdateResumeUrl | backend/index.js:85-97 | only the caller's résumé URL changes, and only when the body sets it; the answer is the caller's profile afterwards |
| Server.Portfolio.UploadResume | backend/index.js:54-72 | the answer is the upload's response; only a stored file changes the caller's résumé URL, to the file's URL |
| Server.Portfolio.SetResumeUrl | backend/index.js:63 | the users become `WithResume` of the old ones; projects and the counter are kept; the store stays consistent |
| Server.Portfolio.CreateProject | backend/index.js:210-231 | a valid body appends the new project under a fresh id; an invalid one changes nothing; users never change |
| Server.Portfolio.AddProject | backend/index.js:214-226 | a project with a trimmed title under the next id is appended; the counter advances; users are kept; the store stays consistent |
| Server.Portfolio.UpdateProject | backend/index.js:233-262 | an unknown id gives "Project not found" and changes nothing; otherwise only that project changes, to its patched form, and it is returned |
| Server.Portfolio.DeleteProject | backend/index.js:264-274 | an unknown id gives "Project not found"; otherwise exactly that project is removed; afterwards no project has the id |
| Server.WithResumeConsistent | backend/index.js:63 | changing a résumé URL keeps the store consistent |
| Server.RemoveIsGone | backend/index.js:264-270 | with unique ids, after a delete no project has the id and a second lookup finds nothing |
| Server.CreatedIsFound | backend/index.js:198-227 | a project appended under a fresh id is found under that id |
| Server.RegisterThenLogin | backend/index.js:114-186 | registering and then logging in with the same e-mail and password succeeds for the new user |
| Server.RegisterKeepsUnique | backend/index.js:119-134 | adding a registered user to a consistent store whose username and e-mail are not taken keeps it consistent, and the new id is fresh |
| Server.NewUserFresh | backend/index.js:119-132 | a user built from a username and an e-mail nobody has (after the setters) shares neither with any stored user |
| Server.AppendUser | backend/index.js:128-134 | appending a normalised user with the next id and a new username and e-mail keeps the users consistent |
| Server.AppendProject | backend/index.js:214-226 | appending a project with the next id and a trimmed title keeps the projects consistent |
| Server.UsersBump | backend/index.js:226 | advancing the id counter keeps the users consistent |
| Server.ProjectsBump | backend/index.js:134 | advancing the id counter keeps the projects consistent |
| Server.UpdateKeepsTimestampOrder | backend/index.js:249 | while the clock runs forward, an update keeps `createdAt` and never moves `updatedAt` back or before `createdAt` |
| AdminPage.TrimAll | frontend/src/pages/Admin.js:160 | returns a new list of the same length whose every entry is the trimmed piece at that position |
| AdminPage.DropEmpty | frontend/src/pages/Admin.js:160 | a string is kept exactly when it is in the input and non-empty; nothing changes when none is empty; an empty list when all are empty |
| AdminPage.DropEmptyAppend | frontend/src/pages/Admin.js:160 | filtering a concatenation filters each part and keeps their order |
| AdminPage.ParseTags | frontend/src/pages/Admin.js:160-161 | every parsed tag is non-empty, trimmed and comma-free and is the trimmed text of some piece; every piece that is not blank after trimming is kept; a field of only commas and white space parses to no tags |
| AdminPage.PieceTag | frontend/src/pages/Admin.js:160-161 | one comma-free piece gives no tag exactly when it is blank, and otherwise the one tag `Trim(piece)` |
| AdminPage.ParseTagsSingle | frontend/src/pages/Admin.js:160-161 | a field without a comma gives the tag of its one piece |
| AdminPage.ParseTagsCons | frontend/src/pages/Admin.js:160-161 | the tags of `piece,rest` are the tag of `piece` followed by the tags of `rest`, so tags keep the order they were typed in |
| AdminPage.SeparatorsOnly | frontend/src/pages/Admin.js:160 | a field of only commas and white space splits into pieces that trim to empty |
| AdminPage.SplitPieces | frontend/src/pages/Admin.js:160 | every character of a piece comes from the split string |
| AdminPage.JoinTags | frontend/src/pages/Admin.js:199-200 | `tags.join(', ')`: the list shown in the edit form; TagsRoundTrip parses it back |
| AdminPage.JoinBlanked | frontend/src/pages/Admin.js:199 | a blank in front of a `', '`-join is the comma-join of the blanked words |
| AdminPage.JoinCommaBlank | frontend/src/pages/Admin.js:199 | joining with `', '` is joining with a comma, with a blank before every word but the first |
| AdminPage.TagsRoundTrip | frontend/src/pages/Admin.js:160-200 | parsing the joined form of a list of well-formed tags gives the list back |
| AdminPage.SplitTagList | frontend/src/pages/Admin.js:160-200 | the joined text of a non-empty tag list splits at its commas into the first tag and the others with their leading blank |
| AdminPage.TrimTagPieces | frontend/src/pages/Admin.js:160 | trimming those pieces gives the tags back |
| AdminPage.ParseTagsIdempotent | frontend/src/pages/Admin.js:160-200 | parsing, joining and parsing again gives the first parse |
| AdminPage.SetText | frontend/src/pages/Admin.js:67-70 | the named text entry takes the value; every other entry and `featured` keep theirs |
| AdminPage.HandleInputChange | frontend/src/pages/Admin.js:65-71 | the checkbox sets `featured` to `checked`; a text input sets its own entry to `value`, and nothing else changes; an event naming no input of the form changes nothing |
| AdminPage.EditForm | frontend/src/pages/Admin.js:193-205 | the text fields, the three URLs and `featured` are copied; both lists are shown joined with `', '`, an empty list as an empty field |
| AdminPage.Submission | frontend/src/pages/Admin.js:157-162 | the body sets every field: the parsed tag lists, the uploaded image's URL, and each other form entry as typed |
| AdminPage.EditThenSaveKeepsTags | frontend/src/pages/Admin.js:157-205 | editing a project with a trimmed title and well-formed tags and saving the form unchanged gives back the same project, with only `updatedAt` moved to the save time |
| AdminPage.HandleResumeChange | frontend/src/pages/Admin.js:85-94 | the kept file changes only to a picked file whose type is exactly `application/pdf`; any other picked file raises the alert |
| AdminPage.KeptPdfPassesFilter | frontend/src/pages/Admin.js:88-92 | a `<stem>.pdf` file the picker keeps also passes the server's filter |
| AdminPage.RemoveLeavesEmpty | frontend/src/pages/Admin.js:267 | removing the first occurrence of a pattern leaves the empty string exactly for the empty string and the pattern itself |
| AdminPage.AdminOrigin | frontend/src/pages/Admin.js:267 | never empty; an unset, empty or bare `/api` variable gives the default origin; a non-empty variable without `/api` is used as it is; a longer one loses its first `/api` and keeps the rest in order |
| AdminPage.ResumeLink | frontend/src/pages/Admin.js:265-267 | an `http` URL is used as it is; a path follows the origin |
| ResumePage.ResumeOrigin | frontend/src/pages/Resume.js:61-63 | an unset or empty variable gives the default origin; a non-empty variable without `/api` is used as it is; otherwise its first `/api` is removed and the rest kept in order |
| ResumePage.OriginsDifferOnlyForBareApi | frontend/src/pages/Resume.js:30-32 | the résumé page and the admin link resolve against different origins exactly when the variable is `/api` |
| ResumePage.FullUrl | frontend/src/pages/Resume.js:64 | an `http` URL is kept; a path follows the origin; the result always ends with the stored URL |
| ResumePage.DownloadTarget | frontend/src/pages/Resume.js:28-36 | the download opens nothing exactly when there is no résumé URL; otherwise it opens the full URL |
| ResumePage.SelectView | frontend/src/pages/Resume.js:38-77 | loading shows the notice; the frame is shown exactly when not loading, with no error and a résumé URL, at the full URL plus `#view=FitH`; otherwise the error or "No resume uploaded yet" |
| ResumePage.Fetched | frontend/src/pages/Resume.js:14-26 | loading stops; a found résumé stores its URL and clears the error; any failure sets "Resume not available yet" and keeps the URL |
| ResumePage.FirstFetchView | frontend/src/pages/Resume.js:14-64 | after the first fetch against the server, the frame is shown exactly when the first user has a résumé; otherwise the page says it is unavailable |
| ResumePage.ResumeView.constructor | frontend/src/pages/Resume.js:6-8 | no URL, no error, loading |
| ResumePage.ResumeView.FetchResume | frontend/src/pages/Resume.js:14-26 | the page's new state is `Fetched` of its old state and the server's reply |

## Left out

- JsString.Trim: its own contract gives the shape of the result. The fact that it is exactly the input less its leading and trailing white space is the lemma `TrimIsFramed`. Keeping that fact off the contract keeps every caller's proof small.
- bcrypt is an opaque pair of functions, and JWT signing and verification are not modelled. A token is the claims it carries.
- The authentication middleware is not modelled, and `middleware.js` is not part of this model. Protected routes receive the caller's id as a parameter.
- The health check route (`GET /api/health`) is not modelled. It always answers the same constant.
- I/O is left out: the database connection, `express.static`, CORS, JSON body parsing, creating the uploads directory, writing files to disk and listening on a port.
- The 500 answers for thrown store or runtime errors are left out. Examples are a malformed id (`CastError`) or a lost connection. Validation failures are modelled, as `RegisterError` and `CreateError`.
- Project bodies give each field as a value or leave it out (`Option`). Mongoose's casting of other JSON types, and its handling of `null`, are not modelled.
- Server.Login: the body's `email` and `password` are taken to be present strings. With `password` missing, `bcrypt.compare` throws and the route answers 500; with `email` missing, `findOne({ email: undefined })` queries with an undefined filter. Neither path is modelled.
- Server.Portfolio.Register: the body's `username`, `email` and `password` are taken to be present strings. With `password` missing, `bcrypt.hash` throws and the route answers 500; with `email` or `username` missing, the `findOne` filter holds undefined. Neither path is modelled.
- Server.Patched: a field the body leaves out keeps its value. This is Mongoose 6 and later, which drops undefined keys from updates. The admin page always sends all nine fields, so its updates replace every field.
- Server.Portfolio.Register: the duplicate check and the insert are one atomic step. A race between two registrations, which the unique indexes would catch with a 500, is not modelled.
- `User.findOne()` with no filter is the first user in insertion order. The database's natural order is not modelled.
- Server.ListProjects: the order of projects with equal `createdAt` is not stated.
- JsString.ToLower: only the ASCII letters are lower-cased, not the full Unicode case mapping.
- Upload.ExtName: only `/` separates path components. Trailing slashes and Windows separators are not modelled.
- Upload.Filename: the random suffix is any natural number, not the source's range 0 to 10^9.
- Multer's other limits and multi-part handling are not modelled.
- AdminPage.HandleInputChange: a checkbox event for a text field, or a text event for `featured`, is ignored. So is an event naming a field the form does not have. The page's inputs never produce these; in JavaScript they would add or overwrite a key of the form object.
- AdminPage.EditForm: `project.skillsLearned ? … : ''` always takes the join branch. Mongoose always returns an array for a list field, and an empty array joins to `''`. The `|| ''` fallbacks on string fields change nothing.
- The admin page's network and React state plumbing is left out: `fetchProjects`, `fetchProfile`, `uploadResume`, `uploadImage`, the request part of `handleSubmit`, `handleDelete`'s confirmation, `cancelForm` and the image preview. Only the values those steps compute are modelled.
- The résumé page's markup, `window.open` and the iframe are left out. Only the URLs they receive are modelled.
- Server.Login: the contract does not say that a matching user always logs in, because `findOne` returns the first user with the e-mail. The converse is proved for a freshly registered user, in `RegisterThenLogin`.
