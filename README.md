# ReqCorder record store, history and diff — a Dafny model

ReqCorder sends HTTP requests described by YAML templates. It records each
request-response cycle in a content-addressed *record store* on disk:

- `templates/<T>.yaml` holds the template, where `T` is the MD5 of the template YAML;
- `requests/<T>/<R>.yaml` holds the normalised request, where `R` is the MD5 of the
  request YAML;
- `responses/<R>/<ID>.yaml` holds the response. The response ID is a UTC timestamp
  `YYYYMMDD_HHMMSS_000` followed by `_` and a process-wide counter modulo 10000.

On top of the store sit three things:

- the *history* views: tables of templates, requests and responses, newest first, with
  an optional limit, and the text shown for one artifact;
- the *diff* views: a git-style or inline comparison of two stored artifacts of one
  kind, written to a writer;
- *request normalisation* (`Validate`): the URL and method checks, default timeout,
  user agent and TLS flag, `{{key}}` body variables, `{{env:NAME}}` substitution, auth scheme
  prefixes and the cookie jar.

The model is in eleven modules:

| module | contents |
|---|---|
| `Wrappers` | `Option` and `Result` |
| `Text` | the Go `strings`/`strconv` behaviour the core uses, over byte strings |
| `FileSys` | the file system: `map<Path, Node>` with owner permission bits, and `Stat`, `ReadDir` (name order), `ReadFile`, `WriteFile`, `Mkdir`, `MkdirAll` |
| `Utils` | previews, MD5 hex, YAML files, `EnsureDir` |
| `Clock` | the response-ID timestamp layout |
| `Request` | `RequestObject` and `Validate` |
| `Response` | the stored response value |
| `RecordSpec` | what every store operation reads and writes, as functions, and the lemmas about them |
| `Record` | the `RecordStore` class, whose methods are proved equal to those functions |
| `History` | the history views |
| `Diff` | the diff views |

A Go string is a sequence of bytes, and so is a model `string`: one character per byte,
with Go's `[]byte` and `string` conversions the identity. Case mapping and white-space
trimming act on ASCII bytes only (see "Left out"). A store path is a sequence of names, one
per path element (see "Left out" for what that leaves of `filepath.Join`).

Three things are parameters of the model, so every property holds for all of them:

- the YAML codec, the MD5 digest, `Prettify`, `Duration.String` and `Time.String`;
- the diff algorithm (`Differ`);
- the terminal colors (`Palette`).

The clock, the execution counter and the environment are explicit arguments.

## Model

| member | source | states |
|---|---|---|
| Text.TrimSuffix | internal/record/record.go:115 | drops the suffix once when present (the result plus the suffix gives the name back), otherwise changes nothing |
| Text.TrimSuffixOfAppend | internal/record/record.go:115 | trimming ".yaml" from `id + ".yaml"` gives back `id` |
| Text.ItoaRoundTrip | internal/history/history.go:49 | the decimal text of a status code parses back to the code |
| Text.NatDecimalDigits | internal/history/history.go:49 | the decimal form of a natural number is a non-empty digit string whose value is the number |
| Text.FixedDigits | internal/record/record.go:460 | `%04d` of a value below 10^4 is exactly four digits, worth that value |
| Text.LessTotal | internal/record/record.go:213 | the byte-wise name order, in which os.ReadDir lists entries, is total |
| Text.LessAsymmetric | internal/record/record.go:213 | the name order is asymmetric |
| Text.LessTransitive | internal/record/record.go:213 | the name order is transitive |
| Text.LeastExists | internal/record/record.go:213 | every non-empty set of names has a least element |
| Text.LeastUnique | internal/record/record.go:213 | the least element is unique |
| Text.Least | internal/record/record.go:213 | picks the least name of a non-empty set |
| Text.SortedNames | internal/record/record.go:213 | lists each name of a set once, in strictly ascending order |
| Text.Split | internal/diff/diff.go:154-155 | yields at least one piece, and no piece holds the separator |
| Text.JoinSplit | internal/diff/diff.go:154-158 | joining the split lines with "\n" gives back the text, so the re-joined texts are the fetched texts |
| Text.ReplaceAllAbsent | internal/request/request.go:84 | a text without the pattern is left unchanged |
| Text.ReplaceAllSelf | internal/request/request.go:84 | replacing a pattern by itself changes nothing |
| Text.ReplaceAllLength | internal/request/request.go:84 | the length changes by the number of replacements times the length difference |
| Text.ReplaceAllConcat | internal/request/request.go:84 | when no occurrence crosses the boundary, replacing in a concatenation is replacing in each part |
| FileSys.ChildrenMembership | internal/record/record.go:213 | a name is a child of a directory exactly when the joined path exists |
| FileSys.EntriesListChildren | internal/record/record.go:213 | ReadDir lists every child once, in ascending name order, flagged as a directory exactly when it is one |
| FileSys.StatExtends | internal/record/record.go:224 | a tree that keeps every node keeps what Stat and ReadFile see |
| FileSys.MkdirAllOk | pkg/utils/utils.go:85-90 | a successful MkdirAll leaves a reachable directory at the path, keeps every node and keeps the tree well formed |
| FileSys.MkdirAllAdds | pkg/utils/utils.go:85-90 | MkdirAll adds only the path and its ancestors |
| FileSys.MkdirAllIdempotent | pkg/utils/utils.go:85-90 | MkdirAll of a directory that is already there changes nothing |
| FileSys.WriteFileOk | internal/record/record.go:482-486 | a successful write stores exactly the data at the path, changes nothing else and keeps the tree well formed |
| FileSys.WriteFileElsewhere | internal/record/record.go:482-486 | a write does not disturb Stat or ReadFile at any path that is not at or below it |
| Utils.CreatePreview | pkg/utils/utils.go:17-22 | at most 80 characters; a body of up to 80 is returned as is; a longer one becomes its first 76 characters and "..." |
| Utils.PreviewIdempotent | pkg/utils/utils.go:17-22 | previewing a preview changes nothing |
| Utils.HexEncode | pkg/utils/utils.go:69-73 | two lower-case hex digits per byte |
| Utils.HexRoundTrip | pkg/utils/utils.go:69-73 | the hex text decodes back to the digest bytes |
| Utils.CalculateMD5Hash | pkg/utils/utils.go:69-73 | the hash is 32 lower-case hex digits |
| Utils.HashMatchesDigest | pkg/utils/utils.go:69-73 | two contents get the same hash exactly when their digests agree |
| Utils.ConvertToYAML | pkg/utils/utils.go:38-44 | succeeds exactly when the marshaller does, with its text; otherwise FailedToConvertToYAML |
| Utils.ReadFile | pkg/utils/utils.go:60-66 | succeeds exactly when os.ReadFile does, with its bytes; otherwise FailedToReadFile with the path and cause |
| Utils.ReadYAMLFile | pkg/utils/utils.go:47-57 | succeeds exactly when the read and the unmarshal both do, with the decoded value; a read failure is reported first |
| Utils.EnsureDir | pkg/utils/utils.go:85-90 | succeeds exactly when MkdirAll does, with its tree |
| Utils.EnsureDirOk | pkg/utils/utils.go:85-90 | afterwards the path is a reachable directory and every earlier node is kept |
| Utils.EnsureDirTwice | pkg/utils/utils.go:85-90 | a second EnsureDir of the same path is the identity |
| Clock.FormatStamp | internal/record/record.go:460 | the "20060102_150405_000" form of a time is 19 characters |
| Clock.FixedOfDigits | internal/record/record.go:460 | a digit string is the fixed-width rendering of its own value |
| Clock.FieldsRoundTrip | internal/record/record.go:460 | the date and time fields read back from their digits |
| Clock.ParseFormat | internal/history/history.go:43-48 | parsing a formatted stamp gives back the time |
| Clock.FormatParse | internal/history/history.go:43-48 | only the canonical rendering of a time parses: a stamp that parses is the format of what it parses to |
| Request.TimeoutNanos | internal/request/request.go:57-58 | a positive timeout becomes whole seconds in nanoseconds, truncated |
| Request.UrlCheckedFirst | internal/request/request.go:47-56 | an unparsable URL is reported as InvalidURL whatever the method |
| Request.NormalizedMethodStable | internal/request/request.go:52-56 | an accepted method is stored already normalised: normalising again changes nothing |
| Request.BodyVarsAbsent | internal/request/request.go:75-89 | a body with no known `{{key}}` placeholder comes back unchanged |
| Request.UnknownPlaceholderKept | internal/request/request.go:75-89 | `{{name}}` for a name that is no key stays in place |
| Request.ReplaceAround | internal/request/request.go:82-84 | one pass of key `j` over `a + {{k}} + b` processes `a` and `b` as they stand and turns `{{k}}` into the value exactly when `j` is `k` (brace-free keys) |
| Request.UnknownPlaceholderSurvives | internal/request/request.go:75-89 | an unknown `{{k}}` anywhere in a body survives, and the text on each side of it is substituted as if it stood alone (brace-free keys) |
| Request.SubstituteSplit | internal/request/request.go:81-85 | running the loop over a sequence of keys is running it over a prefix, then over the rest |
| Request.KnownPlaceholderReplaced | internal/request/request.go:81-85 | a known `{{k}}` survives until the loop reaches `k`, then becomes `vars[k]` with every other occurrence of it, and the later keys act on the result (brace-free keys) |
| Request.LonePlaceholderReplaced | internal/request/request.go:75-89 | `a + {{k}} + b` with brace-free `a` and `b` becomes `a + vars[k] + b` when the value holds no other key's placeholder, whatever the key order |
| Request.NameRun | internal/request/request.go:94 | the length of the longest run of name characters at the start |
| Request.EnvPlainPrefix | internal/request/request.go:92-113 | text without `{` before a placeholder is copied through unchanged |
| Request.EnvNoBrace | internal/request/request.go:92-113 | a body without `{` is left unchanged |
| Request.EnvPlaceholder | internal/request/request.go:94-111 | `{{env:NAME}}` with a well-formed name (a capital or `_`, then at least one more capital, digit or `_`) becomes the variable's value, or "" when unset |
| Request.EnvShortNameKept | internal/request/request.go:94 | `{{env:X}}` with a one-character name does not match the pattern and is kept |
| Request.PrefixAuthIdempotent | internal/request/request.go:116-131 | applying the auth prefix rules twice is the same as once |
| Request.PrefixAuthShape | internal/request/request.go:116-131 | a bearer or basic value starts with its scheme name and still ends with the configured value; other types are unchanged |
| Request.RequestObject.FromData | internal/request/request.go:16-33 | a decoded request has no jar and no computed timeout yet |
| Request.RequestObject.ProcessBasics | internal/request/request.go:36-72 | URL checked before method; on error nothing changes; otherwise method normalised and 30 s default timeout, "ReqCorder" user agent and TLS verification on |
| Request.RequestObject.ApplyDefaults | internal/request/request.go:56-68 | the cleaned method is stored; a non-positive timeout becomes 30 s, otherwise the whole seconds in nanoseconds; empty user agent becomes "ReqCorder"; unset TLS verification becomes on; no other serialised field changes |
| Request.RequestObject.SetTemplateHash | internal/record/record.go:25 | the request carries the given template hash and no other serialised field changes |
| Request.RequestObject.ProcessBodyVars | internal/request/request.go:75-89 | a non-empty body has every `{{key}}` replaced by its value; nothing else changes |
| Request.RequestObject.ProcessEnvVars | internal/request/request.go:92-113 | the body is the environment substitution of the old body; nothing else changes |
| Request.RequestObject.ProcessAuth | internal/request/request.go:116-131 | the auth value gets its scheme prefix; nothing else changes |
| Request.RequestObject.ProcessCookies | internal/request/request.go:134-163 | a jar exists afterwards; the cookies are filed under the URL's host and path "/"; InvalidURL exactly when there are cookies and the URL does not parse |
| Request.RequestObject.Validate | internal/request/request.go:16-33 | the basics error, with nothing changed, or none; on success method, user agent, TLS flag, timeouts, body and auth are the five steps' effects in order, a jar exists, and every other serialised field is unchanged |
| RecordSpec.YamlOrEmpty | internal/record/record.go:236 | the stored text of a value is its YAML, or empty when marshalling fails |
| RecordSpec.ResponseID | internal/record/record.go:457-461 | an ID is 24 characters |
| RecordSpec.ResponseIDParts | internal/record/record.go:457-461 | an ID's first 19 characters parse back to its time and its last four digits read back to the counter modulo 10000 |
| RecordSpec.ResponseIDDistinct | internal/record/record.go:457-461 | two IDs agree exactly when made in the same second from counters equal modulo 10000 |
| RecordSpec.ArtifactFrame | internal/record/record.go:471-488 | one artifact write keeps the tree well formed and touches only the directory chain and the file |
| RecordSpec.ArtifactWritten | internal/record/record.go:471-488 | on success the directory is reachable and the file holds the data; on failure the error names the directory or the file |
| RecordSpec.ArtifactPreserves | internal/record/record.go:471-488 | a write leaves Stat and ReadFile alone at any path not at or below the file |
| RecordSpec.RecordWritesFrame | internal/record/record.go:46-68 | the three writes keep the tree well formed and touch only the three artifacts and their directories |
| RecordSpec.RecordWritesError | internal/record/record.go:46-70 | the first failure in template, request, response order is reported, as FailedToRecord of the failing path; success only when all three succeed |
| RecordSpec.HoldsThrough | internal/record/record.go:46-68 | a file that holds its data still does after a later write to another tree |
| RecordSpec.RecordWritesPersist | internal/record/record.go:46-68 | each write that succeeded leaves its file holding exactly its YAML, whatever the other two did |
| RecordSpec.RecordWritesReadBack | internal/record/record.go:46-68 | after a full success the template and response files are readable with their YAML |
| RecordSpec.TemplateLookupOutcomes | internal/record/record.go:301-330 | no templates directory gives FailedToStatPath; a file there gives NotADirectory; a missing file gives FailedToGetTemplate; success reads the file's bytes |
| RecordSpec.RecordThenGetTemplate | internal/record/record.go:301-330 | after a successful Record, GetTemplateByHash yields the template YAML written |
| RecordSpec.RecordThenGetResponse | internal/record/record.go:74-91 | after a successful Record, GetResponse of the new hash and ID decodes the recorded response, for a codec that round-trips |
| RecordSpec.CheckedDir | internal/record/record.go:98-111 | succeeds exactly when the path stats as a directory and can be read, with its entries |
| RecordSpec.FirstHit | internal/record/record.go:221-231 | the first entry that is a subdirectory holding the leaf; none before it is one |
| RecordSpec.FirstHitByName | internal/record/record.go:221-231 | that entry is the least-named subdirectory holding the leaf; there is none exactly when no subdirectory holds it |
| RecordSpec.ResponseByIDFirstMatch | internal/record/record.go:201-248 | the response is decoded from the least-named request directory holding `<ID>.yaml`; FailedToGetResponse when none does |
| RecordSpec.RequestByHashFirstMatch | internal/record/record.go:251-298 | the request is decoded from the least-named template directory holding `<R>.yaml`; FailedToGetRequest when none does |
| RecordSpec.FoldSnoc | internal/record/record.go:344-374 | one more entry extends a listing loop that has not failed by its own contribution |
| RecordSpec.FoldAborts | internal/record/record.go:344-374 | a loop that failed on a prefix fails the same way on the whole listing |
| RecordSpec.FirstFailure | internal/record/record.go:344-374 | the first entry whose step fails decides the listing's error |
| RecordSpec.InsertByTimeSorted | internal/record/record.go:464-468 | inserting into a newest-first list keeps it newest first and adds exactly that file |
| RecordSpec.SortByTimeSorted | internal/record/record.go:464-468 | the sort returns newest first and is a permutation of its input |
| RecordSpec.SortResultFacts | internal/record/record.go:375-376 | sorting keeps errors and, on success, yields the same files newest first |
| RecordSpec.ReadDirFlags | internal/record/record.go:108-114 | every listed entry is a node of the directory, flagged as a directory exactly when it is one |
| RecordSpec.YamlFilesSound | internal/record/record.go:113-129 | every listed file is a regular ".yaml" file of the directory, with its ID and modification time |
| RecordSpec.YamlFilesComplete | internal/record/record.go:113-129 | every regular ".yaml" entry is listed |
| RecordSpec.SubdirFilesSound | internal/record/record.go:344-374 | every file found under the subdirectories is a regular ".yaml" file of one of them |
| RecordSpec.RequestResponsesSound | internal/record/record.go:154-195 | every file listed for a request is a regular ".yaml" file of `responses/<R>` |
| RecordSpec.ListTemplatesExact | internal/record/record.go:425-454 | GetSortedTemplates lists, newest first, exactly the regular files `templates/<T>.yaml` |
| RecordSpec.ListResponsesByRequestExact | internal/record/record.go:94-131 | GetSortedResponsesByRequestHash lists, newest first, exactly the regular files `responses/<R>/<ID>.yaml` |
| RecordSpec.ListRequestsSound | internal/record/record.go:380-422 | GetSortedRequests lists, newest first, only regular files `requests/<T>/<R>.yaml` |
| RecordSpec.ListResponsesSound | internal/record/record.go:333-377 | GetSortedResponses lists, newest first, only regular files `responses/<R>/<ID>.yaml` |
| RecordSpec.ListResponsesByTemplateSound | internal/record/record.go:134-198 | lists, newest first, only response files of requests recorded under the template |
| RecordSpec.ByTemplateMissingResponses | internal/record/record.go:158-164 | a request of the template whose name is a plain path element and has no `responses/<R>` directory fails the listing |
| RecordSpec.ResponsesMissingRoot | internal/record/record.go:338-342 | without a responses directory the listing fails with FailedToReadDirectory |
| Record.Disk.constructor | internal/record/types.go:11 | the store root's tree |
| Record.Counter.constructor | internal/record/record.go:19 | the counter starts at zero |
| Record.Counter.Next | internal/record/record.go:459 | Add(1): the counter grows by one and returns the new value |
| Record.SortFilesByTimeInPlace | internal/record/record.go:464-468 | the array ends up as the newest-first sort of its old contents |
| Record.InsertAt | internal/record/record.go:464-468 | one pass inserts the element into the sorted prefix and leaves the rest alone |
| Record.ShiftLeft | internal/record/record.go:464-468 | the moved file stops behind the last file at least as new; the files it passed shift right by one |
| Record.InsertPosition | internal/record/record.go:464-468 | where the inserted file lands in the list |
| Record.SortFiles | internal/record/record.go:464-468 | sorting through an array gives the newest-first sort |
| Record.RecordStore.constructor | internal/record/types.go:10-20 | a store for one cycle, with no hashes or encoded texts yet |
| Record.RecordStore.Open | internal/record/types.go:10-20 | a store on a root with every other field at its zero value |
| Record.RecordStore.Record | internal/record/record.go:22-71 | the template hash goes onto the request and both hashes onto the response; an encoding failure stops before any write; otherwise the disk and the error are the three writes' outcome under a fresh ID |
| Record.RecordStore.RecordAll | internal/record/record.go:46-70 | all three artifact writes are attempted and the first failure is reported |
| Record.RecordStore.RecordTemplate | internal/record/record.go:471-488 | ensure `templates/`, then write `<T>.yaml` |
| Record.RecordStore.RecordRequest | internal/record/record.go:491-508 | ensure `requests/<T>/`, then write `<R>.yaml` |
| Record.RecordStore.RecordResponse | internal/record/record.go:511-531 | ensure `responses/<R>/`; only then take a fresh ID from the counter and write `<ID>.yaml` |
| Record.RecordStore.GetResponse | internal/record/record.go:74-91 | loads exactly the response at the current hash and ID |
| Record.RecordStore.GetResponseByID | internal/record/record.go:201-248 | the first-match lookup by ID, taking the found response's hashes |
| Record.RecordStore.GetRequestByHash | internal/record/record.go:251-298 | the first-match lookup by hash, taking the found request's template hash |
| Record.RecordStore.GetTemplateByHash | internal/record/record.go:301-330 | exactly the template lookup, with the file's bytes as the template YAML |
| Record.RecordStore.ScanYamlFiles | internal/record/record.go:113-129 | the loop over a directory's ".yaml" files equals its specification, first error included |
| Record.RecordStore.ScanSubdirs | internal/record/record.go:344-374 | the outer loop over subdirectories equals its specification |
| Record.RecordStore.ScanRequestResponses | internal/record/record.go:154-195 | the loop over a template's requests and their responses equals its specification |
| Record.RecordStore.CheckedDirOf | internal/record/record.go:98-111 | stat the path, insist on a directory, then read it |
| Record.RecordStore.FindHit | internal/record/record.go:221-225 | the scan loop of the lookups stops at the first entry that is a directory holding the file, or finds none |
| Record.RecordStore.Sorted | internal/record/record.go:129-130 | the collected listing sorted newest first |
| Record.RecordStore.GetSortedTemplates | internal/record/record.go:425-454 | equals the specified template listing, sorted |
| Record.RecordStore.GetSortedRequests | internal/record/record.go:380-422 | equals the specified request listing, sorted |
| Record.RecordStore.GetSortedResponses | internal/record/record.go:333-377 | equals the specified response listing, sorted |
| Record.RecordStore.GetSortedResponsesByRequestHash | internal/record/record.go:94-131 | equals the specified listing of the request's responses, sorted |
| Record.RecordStore.GetSortedResponsesByTemplateHash | internal/record/record.go:134-198 | equals the specified listing of the template's responses, sorted |
| History.Limited | internal/history/history.go:25-28 | a prefix of the listing: all of it for limit 0, otherwise min(len, limit) entries |
| History.StatusCellReadBack | internal/history/history.go:39-42 | the status cell reads back as its code; its glyph is ❌ exactly from 400 up, ✅ below |
| History.TimestampPrefixAsWritten | internal/history/history.go:43 | the slice the listings take, defined only for IDs of at least 19 characters |
| History.TimestampCell | internal/history/history.go:43-48 | succeeds exactly when the ID has 19 characters that parse; otherwise FailedToParseTimestamp |
| History.TimestampOfResponseID | internal/history/history.go:43-49 | a generated ID's timestamp cell renders the time it was made |
| History.ShortIDListed | internal/history/history.go:56-96 | a file `responses/<R>/x.yaml` is listed with an ID shorter than 19 characters |
| History.CollectSnoc | internal/history/history.go:30-50 | one more entry extends a row loop that has not failed |
| History.CollectAborts | internal/history/history.go:30-50 | a row loop that failed on a prefix fails the same way on the whole listing |
| History.CollectAllOrNothing | internal/history/history.go:30-50 | rows come exactly when every entry's row does, one per entry, in order |
| History.CollectFirstError | internal/history/history.go:30-50 | the first failing entry decides the error |
| History.TemplateRows | internal/history/history.go:246-252 | one row per template: its hash and its modification time |
| History.ResponseTableShape | internal/history/history.go:99-143 | a listing error is passed on; otherwise one four-cell row per kept entry, in order, with its ID, status and stamp; an error exactly when a kept entry's row fails |
| History.RequestTableShape | internal/history/history.go:146-177 | a listing error leaves no entries; otherwise one three-cell row per kept entry; an error exactly when a kept entry's lookup fails |
| History.MissingStore | internal/history/history.go:151-159 | a store with no directories shows empty request and template tables, and the response table fails |
| History.ResponseHeaderLines | internal/history/history.go:197-200 | a shown response starts with "", the template hash, the request hash, "Response:" and "" |
| History.RequestHeaderLines | internal/history/history.go:223-225 | a shown request starts with "", the template hash, "Request:" and "" |
| History.TemplateHeaderLines | internal/history/history.go:275-276 | a shown template starts with "", "Template:" and "" |
| History.ShowResponseSource | internal/history/history.go:180-203 | succeeds exactly when the lookup and the prettifier do; shows the hashes recorded in the response file |
| History.HistoryStore.constructor | internal/history/types.go:5-7 | a history view on a store root |
| History.HistoryStore.ResponseRowsOf | internal/history/history.go:30-50 | the row loop equals its specification |
| History.HistoryStore.GetSortedResponsesByTemplateHash | internal/history/history.go:13-53 | the response table of the template's listing |
| History.HistoryStore.GetSortedResponsesByRequestHash | internal/history/history.go:56-96 | the response table of the request's listing |
| History.HistoryStore.GetAllResponsesSorted | internal/history/history.go:99-143 | the response table of the full listing |
| History.HistoryStore.GetAllRequestsSorted | internal/history/history.go:146-177 | the request table, a listing failure swallowed |
| History.HistoryStore.GetAllTemplatesSorted | internal/history/history.go:231-255 | the template table, a listing failure swallowed |
| History.HistoryStore.GetResponseByID | internal/history/history.go:180-203 | the shown response |
| History.HistoryStore.GetRequestByHash | internal/history/history.go:206-228 | the shown request |
| History.HistoryStore.GetTemplateByHash | internal/history/history.go:258-279 | the shown template |
| Diff.KindOf | internal/diff/diff.go:103-149 | exactly "response", "request" and "template" name a kind, each its own |
| Diff.TextsOutcomes | internal/diff/diff.go:98-150 | an unknown kind fails with InvalidDiffType; otherwise a failed source lookup is reported first, then the target's, else both texts |
| Diff.TextsSwap | internal/diff/diff.go:98-150 | exchanging source and target exchanges the two texts |
| Diff.TemplateTextsAreBytes | internal/diff/diff.go:132-145 | a template diff compares the exact bytes of the two template files |
| Diff.RecordedTemplateDiffsWithItself | internal/diff/diff.go:132-145 | after a successful Record, the recorded template diffed with itself gives its YAML on both sides |
| Diff.Emit | internal/diff/diff.go:163-190 | one call per piece written, plus the failed one; the whole plan when none failed |
| Diff.EmitPrefix | internal/diff/diff.go:163-190 | what is written is always a prefix of the plan |
| Diff.EmitAllOk | internal/diff/diff.go:163-190 | writing succeeds exactly when none of its calls fails |
| Diff.EmitStopsAt | internal/diff/diff.go:163-190 | when call k is the first to fail, exactly the first k pieces are written |
| Diff.EmitOne | internal/diff/diff.go:163-165 | one write either fails with nothing written or writes its piece |
| Diff.EmitAppend | internal/diff/diff.go:163-190 | the second part of a plan is attempted only when the first part succeeded |
| Diff.WroteIsEmit | internal/diff/diff.go:169-190 | a writer run that loops over a plan is exactly what Emit describes |
| Diff.WroteOne | internal/diff/diff.go:177-187 | one Write call is a run of a one-piece plan |
| Diff.WroteThen | internal/diff/diff.go:169-190 | a successful run followed by another run is a run of the two plans joined |
| Diff.WroteStop | internal/diff/diff.go:169-190 | after a failed run nothing more of the plan is attempted |
| Diff.Writer.constructor | internal/diff/diff_test.go:536-632 | a writer with nothing written and no calls, whose n-th call fails as given |
| Diff.Writer.Write | internal/diff/diff.go:163-207 | each call counts; the piece is kept exactly when the call does not fail |
| Diff.NonEmpty | internal/diff/diff.go:171-174 | only non-empty lines of the input survive |
| Diff.NonEmptyAppend | internal/diff/diff.go:171-174 | the non-empty lines of joined lists are joined |
| Diff.LineWritesAppend | internal/diff/diff.go:171-188 | the writes of joined lines are joined |
| Diff.ChunkWritesAppend | internal/diff/diff.go:169-190 | the writes of joined chunks are joined |
| Diff.LineWritesEach | internal/diff/diff.go:170-188 | a chunk writes one line per non-empty line of its text, in order, with its operation's prefix and color |
| Diff.GitWritesOrder | internal/diff/diff.go:163-190 | the red "---" source header comes first, the green "+++" target header second, then the chunks in order |
| Diff.WriteLines | internal/diff/diff.go:171-189 | the inner loop's writes are a run of the chunk's planned lines |
| Diff.WriteChunks | internal/diff/diff.go:169-190 | the outer loop's writes are a run of all chunks' planned lines |
| Diff.WriteGitStyle | internal/diff/diff.go:153-192 | writes the prefix of the git-style plan up to the first failure; FailedToRenderDiff exactly when a write fails |
| Diff.WriteInline | internal/diff/diff.go:195-209 | the green target name, the red source name, then the pretty diff, up to the first failure; FailedToRenderDiff exactly when a write fails |
| Diff.FailingWriterGitStyle | internal/diff/diff_test.go:536-632 | a writer whose n-th call fails receives exactly the first n-1 pieces; the third failing leaves only the headers |
| Diff.DiffStore.constructor | internal/diff/diff.go:100-102 | a store on the root with no lookups made |
| Diff.DiffStore.GetResponseByID | internal/diff/diff.go:50-63 | the stored response YAML found by ID, through a fresh record store |
| Diff.DiffStore.GetRequestByHash | internal/diff/diff.go:66-79 | the stored request YAML found by hash, through a fresh record store |
| Diff.DiffStore.GetTemplateByHash | internal/diff/diff.go:82-95 | the stored template YAML, through a fresh record store |
| Diff.DiffStore.Fetch | internal/diff/diff.go:103-145 | the lookup of the kind |
| Diff.DiffStore.GetTexts | internal/diff/diff.go:98-150 | equals the texts' specification; no lookup for an unknown kind; the target is looked up only after the source succeeded |
| Diff.DefaultDiff | internal/diff/diff.go:14-29 | a fetch error is returned with nothing written; otherwise the git-style plan of the line diff is written up to the first failure |
| Diff.InlineDiff | internal/diff/diff.go:32-47 | a fetch error is returned with nothing written; otherwise the inline plan is written up to the first failure |

## Left out

- Record.RecordStore.RecordAll: the three goroutines write disjoint subtrees; the model writes them one after another, in template, request, response order, and all three are attempted. The code returns the first error received on its channel, which depends on which goroutine fails first; the model fixes one admissible order and reports the first failure in it, so when several writes fail the program may report a different one of them. Interleavings are not modelled.
- Record.Counter.Next: does not model the wrap-around of the `uint64` counter at 2^64. Only the modulo 10000 of the ID is modelled.
- History: a `limit` is an unbounded `nat`, so `int(limit)` turning negative for limits of 2^63 and above is not modelled.
- RecordSpec.SortByTimeSorted: `sort.Slice` is not stable. The model sorts with a stable insertion sort, so the order of files with equal times is fixed in the model and may differ in the program.
- RecordSpec.RecordThenGetResponse: holds for YAML codecs whose decoder reads back what the encoder writes; the YAML library is a parameter.
- YAML encoding and decoding, MD5, `utils.Prettify`, `time.Duration.String` and `Time.String` of a modification time are parameters. A nil Request or Response is modelled as an empty value.
- Diff: the diffmatchpatch algorithms, `DiffCleanupSemantic` and `DiffPrettyText` are the `Differ` parameter. `inlineDiff` discards the slice `DiffCleanupSemantic` returns, so `charDiff` stands for whatever diff it prints.
- Diff: the color constants `ColorRed`, `ColorGreen` and `ColorReset` are the `Palette` parameter; the file that defines them is not part of this model.
- Diff.Writer.Write: a write either fails or succeeds whole; a short write of part of a line is not modelled.
- Errors are modelled by kind and by the path or ID they name. The wrapped text (`"%w %q: %v"`) and logging through `slog` are left out.
- History.HistoryStore.GetAllTemplatesSorted: its error result is always nil, so the model returns only the rows.
- Clock: response IDs carry second precision. Go's layout "20060102_150405_000" prints "_000" literally, since only a fraction after "." or "," is read as milliseconds; the model follows the code.
- Request.TimeoutNanos: seconds are a `real`; float rounding is not modelled, and the result is the exact product. `time.Duration(s) * time.Second` is an `int64`, which wraps from about 9.22e9 seconds up; Go leaves the conversion of a float beyond the `int64` range implementation-defined. Neither is modelled.
- Text: `ToUpper`, `ToLower` and `TrimSpace` map and trim ASCII bytes only. Go decodes UTF-8 and applies the Unicode case mappings and white-space set, so multi-byte letters such as "ſ" or "İ" and spaces such as U+00A0 or U+3000 are handled by Go and kept as they are by the model.
- Request.RequestObject.ProcessBasics: because of the ASCII case mapping and trimming above, a method such as "poſt" or "GET" followed by U+00A0 is accepted by Go and rejected with InvalidMethod by the model. Validate inherits this.
- Request.RequestObject.ProcessAuth: because of the ASCII lower-casing above, an auth type such as "BASİC" gets the "Basic " prefix in Go and none in the model. Validate inherits this.
- Request.KnownPlaceholderReplaced, Request.UnknownPlaceholderSurvives, Request.LonePlaceholderReplaced: proved for keys without braces; with braces in keys, one placeholder can overlap another and the outcome depends on the map's iteration order.
- Paths: `filepath.Join` drops empty elements and cleans "." and ".."; the model joins names one element per name, so its layout functions are exact only for names that are plain path elements (non-empty, not "." or "..", no "/"). Listed names are never empty and never hold "/", but a request file named ".yaml", "..yaml" or "...yaml" gives a request hash of "", "." or "..". Identifiers from the command line can hold anything. The members below take every name as one path element.
- Record.RecordStore.GetResponseByID: an ID holding "/" or ".." (record.go:223) or an empty ID names a different file in Go than in the model, so Go may find a file the model reports as not found, or the reverse.
- Record.RecordStore.GetRequestByHash: the same for a request hash at record.go:273.
- Record.RecordStore.GetTemplateByHash: the same for a template hash at record.go:314; for instance "../requests/T/R" reads `requests/T/R.yaml` in Go and is not found in the model.
- Record.RecordStore.GetSortedResponsesByTemplateHash: a template hash of "", "." or ".." (record.go:136), or a request file named ".yaml" (record.go:158, where Go's `responses/` joined with "" is `responses/` itself), lists in Go and fails with FailedToStatPath in the model.
- Record.RecordStore.ScanRequestResponses: the same for the request-file case at record.go:158.
- Record.RecordStore.GetSortedResponsesByRequestHash: a request hash of "", "." or ".." lists a different directory in Go.
- RecordSpec.ByTemplateMissingResponses: stated only for request names that are plain path elements; for a request file named ".yaml" Go reads `responses/` itself and the listing can succeed.
- Request: the cookie jar is modelled as a map from (domain, path, name) to value; the jar's domain matching, expiry and replacement rules are not modelled.
- Request: the environment comes in as a map argument; `os.Getenv` itself is not modelled.
- Request: `url.ParseRequestURI` is a parameter that yields the host or nothing.
- The command line (`cmd/`), the request initiator that sends requests over the network, and the table renderer are not part of this model.

## Findings

| source | as written | input that shows it | evidently intended | confidence | as-written member | corrected member |
|---|---|---|---|---|---|---|
| internal/history/history.go:43 (also 86 and 128) | `recordStore.ResponseID[:19]` slices the ID before `time.Parse` checks it, so an ID shorter than 19 characters panics | a store holding `responses/<R>/x.yaml` with a valid response, listed by GetSortedResponsesByRequestHash for `<R>`: the ID "x" is sliced to 19 characters | report FailedToParseTimestamp for the short ID, as is done for an ID of 19 characters that does not parse | not executed | History.TimestampPrefixAsWritten, History.ShortIDListed | History.TimestampCell |
