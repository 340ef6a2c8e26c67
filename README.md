# valvx-api core in Dafny

This project models the logic of the valvx-api service, a Go back end for
building-model files and BCF issue tracking, and proves properties of that
model. It covers:

- **Upload creation and completion** (`upload/handler.go`), in modules
  `TusUpload` and `Registration`:
  - The `Upload-Metadata` header of the tus resumable upload protocol 1.0.0
    is parsed. Each value is decoded as base64 per RFC 4648: the standard
    alphabet of section 4 first, then the URL-safe alphabet of section 5.
    Modules `Base64`, `GoText` and `StrConv` model the Go library functions
    involved.
  - The file name and extension are derived from the file name.
  - Files are classified as IFC.
  - A new upload gets its creation answer.
  - On completion, the file is registered in the catalog. That registration
    is all or nothing: one file row, one version row numbered 1, and a
    folder link for a real folder. The tables change only at the commit.
- **IFC conversion** (`upload/speckle_bridge.go`), in module `SpeckleBridge`:
  - One mapping row per file version moves through pending, processing, and
    then ready or error.
  - The `Bridge` class holds the rows, and its methods overwrite them step
    by step.
  - The GraphQL replies, the upload outcome and the poll's status reports are
    parameters. The ten-minute timeout is a bound of 120 five-second ticks.
- **BCF 2.1 archives** (`collab/bcf_export.go`), in module `Bcf`, with the
  records of `collab/types.go` in `CollabTypes`:
  - Export writes `bcf.version`, then one GUID folder per topic with its
    `.bcfv` viewpoint files, snapshots and `markup.bcf`.
  - Import reads topics back from such an archive.
  - The archive is a sequence of named entries holding structured records.
  - The round trips are proved: camera, comment, snapshot data URL, and
    whole topic.
- **The BCF topic service** (`collab/service.go`), in modules `TopicQuery`
  and `TopicService`:
  - Class `Service` holds the topic, viewpoint, comment, topic-file and
    profile tables in memory.
  - ListTopics builds the query text and arguments. Its placeholders line up
    with its arguments, and the query selects exactly the rows the filters
    describe.
  - Topic read, create, update and delete are modelled, and so are comments
    and snapshots.
  - BCF import and export are loops over the `Bcf` functions.
  - Each statement's outcome at the database is a parameter, as are fresh ids
    and the clock.
- **HTTP middleware** (`internal/middleware/middleware.go`), in module
  `Middleware`: `Chain`, the CORS decision and preflight answer, `Session`,
  and the status-recording writer used by `Logger`.
- **Migrations** (`main.go` `runMigrations`), in module `Migrations`:
  - Which SQL files are applied, and in what order.
  - Where a run stops at the first failure.
- **Configuration** (`internal/config/config.go`), in module `Config`:
  - Environment fallbacks and integer and boolean parsing.
  - The PostgreSQL URL, and the defaults of `Load`.

Modelling conventions:

- Go strings are Dafny strings whose characters stand for bytes. Byte
  slices are sequences of `byte`.
- A Go pointer field is an `Option`.
- A float64 is its IEEE 754 bit pattern (`bv64`). The code only copies
  floats. The two constants it writes are 60.0 and 1.0.
- Times are integers.

Two places where the code and its documentation differ. The model follows
the code in both.

- A conversion in state error is not final. Triggering the same file
  version again resets its row to pending and keeps its model id and error
  message (`upload/speckle_bridge.go:56`).
- `checkImportStatus` never reports "error", so the poll's "speckle import
  failed" branch cannot be reached. `SpeckleBridge.ImportFailedUnreachable`
  proves this.

## Model

| member | source | states |
|---|---|---|
| Config.Env | valvx-api/internal/config/config.go:107-112 | the variable's value when it is set and non-empty, otherwise the fallback, so an empty variable counts as unset |
| Config.EnvInt | valvx-api/internal/config/config.go:114-130 | the parsed 64-bit integer when the variable parses, otherwise the fallback; an unset or empty variable gives the fallback |
| Config.EnvBool | valvx-api/internal/config/config.go:132-139 | the parsed boolean when the variable is one of Go's twelve spellings, otherwise the fallback |
| Config.BuildPostgresUrl | valvx-api/internal/config/config.go:92-105 | VALVX_API_POSTGRES_URL verbatim unless it is empty or exactly "postgres:///?sslmode=disable"; otherwise the URL assembled from the libpq variables and their defaults |
| Config.DefaultsWhenUnset | valvx-api/internal/config/config.go:55-90 | with no variable set: host 127.0.0.1, port 4000, TUS maximum 5·1024³, chunk 5·1024², TUS enabled, Speckle proxy disabled |
| Config.DefaultPostgresUrl | valvx-api/internal/config/config.go:98-104 | with nothing set the URL is postgres://valvx:@127.0.0.1:5432/valvx?sslmode=disable (stated as three literal pieces) |
| Config.EnvIntReadsFormatted | valvx-api/internal/config/config.go:123-130 | a variable holding the decimal form of a 64-bit integer is read back as that integer |
| Config.EnvIntRejects | valvx-api/internal/config/config.go:114-121 | a lone sign or a decimal fraction leaves the fallback in place |
| Config.ExplicitUrlWins | valvx-api/internal/config/config.go:92-95 | an explicit URL other than the placeholder wins over the libpq variables |
| Config.PlaceholderUrlIgnored | valvx-api/internal/config/config.go:92-104 | the placeholder URL is treated like no URL: the URL is assembled from the libpq variables |
| StrConv.ParseInt | valvx-api/internal/config/config.go:125 | text parses exactly when it is an optional sign and one or more digits whose signed value fits in 64 bits, and the value is that signed value |
| StrConv.ParseIntLenientForms | valvx-api/internal/config/config.go:125 | a leading '+', leading zeros and "-0" are accepted with their values; an empty text, a lone sign and an underscore are refused |
| StrConv.ParseBool | valvx-api/internal/config/config.go:134 | true exactly for 1, t, T, TRUE, true, True; false exactly for 0, f, F, FALSE, false, False |
| StrConv.ParseFormat | valvx-api/internal/config/config.go:125 | parsing the decimal form of a 64-bit integer gives it back |
| Middleware.Chain | valvx-api/internal/middleware/middleware.go:15-20 | the reverse loop yields m1(m2(…mn(h))); an empty list returns h unchanged |
| Middleware.NestAppend | valvx-api/internal/middleware/middleware.go:14-20 | chaining front + back is chaining back around h, then front around that |
| Middleware.ParseOrigins | valvx-api/internal/middleware/middleware.go:57-60 | one origin per ','-separated piece of the setting, each trimmed of white space |
| Middleware.TrimOrigins | valvx-api/internal/middleware/middleware.go:57-60 | the in-place trimming loop yields ParseOrigins, never an empty list |
| Middleware.IsAllowed | valvx-api/internal/middleware/middleware.go:64-71 | the scan with early exit answers true iff some entry equals the request origin or is "*" |
| Middleware.CorsHeadersDecision | valvx-api/internal/middleware/middleware.go:73-80 | an allowed request gets Allow-Origin equal to its own origin and credentials "true"; a refused one gets no CORS header |
| Middleware.CorsNeverEchoesWildcard | valvx-api/internal/middleware/middleware.go:73-74 | even when "*" is configured, the echoed origin is never "*" unless the request sent "*" |
| Middleware.PreflightStops | valvx-api/internal/middleware/middleware.go:82-85 | OPTIONS is answered 204 and never reaches the inner handler, allowed or not |
| Middleware.CorsForwards | valvx-api/internal/middleware/middleware.go:82-87 | every other method reaches the inner handler, with the CORS headers exactly when allowed |
| Middleware.SessionAttaches | valvx-api/internal/middleware/middleware.go:97-102 | Session always calls the inner handler and attaches the account exactly when it is non-empty |
| Middleware.ApiStackShape | valvx-api/main.go:114-119 | the server's stack is Recovery around Logger around CORS around Session around the router |
| Middleware.ApiStackBehaviour | valvx-api/main.go:114-119 | through the whole stack a preflight never reaches the router, and any other request reaches it with the session's account |
| Middleware.StatusWriter.constructor | valvx-api/internal/middleware/middleware.go:39 | a new writer reports 200 and has forwarded nothing |
| Middleware.StatusWriter.WriteHeader | valvx-api/internal/middleware/middleware.go:50-53 | records the code and forwards it to the wrapped writer |
| Middleware.LogRequest | valvx-api/internal/middleware/middleware.go:36-43 | Logger reports the last code the handler wrote, or 200 when none, and every code is forwarded in order |
| Migrations.SortStringsSorts | valvx-api/main.go:159 | sort.Strings yields a sorted permutation of the file list |
| Migrations.Version | valvx-api/main.go:163-171 | a base name without '_' has no version |
| Migrations.PendingMembers | valvx-api/main.go:161-175 | the files chosen are exactly the listed files whose version exceeds the current version |
| Migrations.PendingPrefix | valvx-api/main.go:161-175 | walking a prefix of the list chooses a prefix of the choice, so list order is kept |
| Migrations.FirstFailure | valvx-api/main.go:178-186 | every file before the first failure executed, and the file at it did not |
| Migrations.RunMigrations | valvx-api/main.go:139-192 | a run reports exactly the migration specification's result: a set-up failure applies nothing, otherwise the pending files of the sorted list are applied in order up to the first read or exec failure, which is the error |
| Migrations.ApplyPending | valvx-api/main.go:161-189 | for any way of reading versions off paths, the loop executes the files with a version above the current one, in list order, and stops at the first failure with its error |
| Migrations.AppliedAreNewerInOrder | valvx-api/main.go:159-189 | every executed file has a version above the current one, and the executed files are a prefix of the pending ones in sorted order |
| Migrations.FailureStops | valvx-api/main.go:178-186 | a run without error executed every pending file; a run with an error executed exactly the files before the failing one |
| Migrations.PreludeFailureAppliesNothing | valvx-api/main.go:141-158 | a failure creating the version table, reading the version or listing the files applies nothing and reports an error |
| Migrations.VersionBeforeUnderscore | valvx-api/main.go:163-171 | the version is the integer before the first '_' of the base name |
| Migrations.NoUnderscoreNoVersion | valvx-api/main.go:164-167 | a base name without '_' is skipped |
| Migrations.VersionPrefixes | valvx-api/main.go:168-171 | "002" is version 2 and "v2" has none |
| Migrations.LexicographicNotNumeric | valvx-api/main.go:159 | "10_x.sql" runs before "2_y.sql" |
| Migrations.SameVersionBothApplied | valvx-api/main.go:161-189 | the current version is not updated during a run, so two new files with the same version are both applied |
| Base64.Encode | valvx-api/collab/bcf_export.go:384-386 | padded encoding of 4·⌈n/3⌉ characters, all from the alphabet or '=' |
| Base64.RoundTrip | valvx-api/upload/handler.go:259-268 | decoding the encoding of any bytes, in either alphabet, gives the bytes back |
| Base64.DecodeAgree | valvx-api/upload/handler.go:259-268 | when both alphabets accept a text they decode it to the same bytes, so trying the standard alphabet first loses nothing |
| TusUpload.DecodeBase64 | valvx-api/upload/handler.go:259-269 | succeeds iff the standard or the URL-safe alphabet decodes the text; on failure the input comes back unchanged |
| TusUpload.DecodeBase64Encoded | valvx-api/upload/handler.go:259-268 | a value encoded in either alphabet decodes back to its bytes |
| TusUpload.ParseTusMetadata | valvx-api/upload/handler.go:233-257 | the piece-by-piece loop yields the header's metadata map; an empty header yields an empty map |
| TusUpload.CollectKeysFromPieces | valvx-api/upload/handler.go:239-253 | every key of the map is the key of some piece |
| TusUpload.PieceKeysInCollect | valvx-api/upload/handler.go:239-253 | the key of every piece, the empty key of an empty piece included, is in the map |
| TusUpload.LastOccurrenceWins | valvx-api/upload/handler.go:240-253 | a key occurring in several pieces takes the value of its last piece |
| TusUpload.PairRoundTrip | valvx-api/upload/handler.go:241-250 | a piece "key base64(value)" reads back as its key and value |
| TusUpload.MetadataRoundTrip | valvx-api/upload/handler.go:233-257 | a header written by a tus client parses back to its entries, a later entry for a key replacing an earlier one |
| TusUpload.FileExt | valvx-api/upload/handler.go:99 | the extension has neither '.' nor '/' and follows a '.' that ends the file name's text before it; it is empty exactly when the final path element has no '.' or ends in '.' |
| TusUpload.NameAndExt | valvx-api/upload/handler.go:183 | with a non-empty extension, name + "." + ext is the file name |
| TusUpload.IfcIgnoresCase | valvx-api/upload/handler.go:226-229 | the IFC test gives the same answer for extensions equal up to letter case |
| TusUpload.IfcExamples | valvx-api/upload/handler.go:226-229 | "IFC", "IfcZip" and "ifc" are IFC; "ifcx", "zip" and "" are not |
| TusUpload.HandleCreate | valvx-api/upload/handler.go:93-118 | always 201 with Location /api/uploads/{id} and Upload-Offset 0; a state row is stored exactly when persisting succeeds, with the metadata's file name, extension and folder |
| TusUpload.CreateIgnoresPersistFailure | valvx-api/upload/handler.go:104-117 | a failure to persist the upload state does not change the answer |
| Registration.RegisteredRows | valvx-api/upload/handler.go:173-212 | a registration adds one file row and one version row numbered 1 with the upload's size and creator, and a folder link iff the folder is neither "" nor "root" |
| Registration.RegisteredName | valvx-api/upload/handler.go:183 | the stored name and extension give back the uploaded file name |
| Registration.ConversionConditions | valvx-api/upload/handler.go:214-221 | conversion is requested iff the commit succeeded, the extension is IFC and a bridge is configured |
| Registration.Catalog.OnUploadComplete | valvx-api/upload/handler.go:168-224 | the error is the first failing step; on success the tables gain exactly the registered rows; on any failure they are unchanged |
| Registration.CompleteAndConvert | valvx-api/upload/handler.go:210-221 | the conversion runs only after a successful commit of an IFC file and never undoes the registration |
| SpeckleBridge.Upsert | valvx-api/upload/speckle_bridge.go:53-58 | the row becomes pending; a new row has an empty model id; an existing row keeps everything else; other rows are untouched |
| SpeckleBridge.CreateSpeckleModel | valvx-api/upload/speckle_bridge.go:142-150 | the model id when the reply parses without GraphQL errors, otherwise an error with the first GraphQL message or the parse error |
| SpeckleBridge.CheckImportStatus | valvx-api/upload/speckle_bridge.go:262-269 | ready with the first version's object when there is a version, processing otherwise, and never "error" |
| SpeckleBridge.InsertFailureStops | valvx-api/upload/speckle_bridge.go:59-61 | a failed insert changes nothing and starts nothing |
| SpeckleBridge.ModelFailureMarksError | valvx-api/upload/speckle_bridge.go:64-68 | a failed model creation leaves the row in error with that message and the error update's own time, returns an error and starts no poll |
| SpeckleBridge.ModelRecordedBeforeUpload | valvx-api/upload/speckle_bridge.go:70-75 | a created model is recorded and the row is processing, stamped with the processing update's own time, before the upload is attempted |
| SpeckleBridge.UploadFailureMarksError | valvx-api/upload/speckle_bridge.go:77-82 | a failed upload leaves the row in error and starts no poll |
| SpeckleBridge.PollOnlyAfterSuccess | valvx-api/upload/speckle_bridge.go:84-87 | polling starts exactly when insert, model creation and upload all succeeded, and then no error is returned |
| SpeckleBridge.UpdateErrorsIgnored | valvx-api/upload/speckle_bridge.go:71-75 | the result does not depend on whether the later status updates reached the database |
| SpeckleBridge.TriggerTouchesOnlyItsRow | valvx-api/upload/speckle_bridge.go:53-81 | a trigger never adds, removes or changes the mapping of another file version |
| SpeckleBridge.RetriggerResets | valvx-api/upload/speckle_bridge.go:56 | an existing mapping in any state is reset to pending, keeping model id, error message and creation time |
| SpeckleBridge.PollReadyAtFirstReady | valvx-api/upload/speckle_bridge.go:186-199 | failed checks are skipped and the poll ends ready with the object of the first successful "ready" report |
| SpeckleBridge.PollTimesOut | valvx-api/upload/speckle_bridge.go:183-185 | without a terminal report before the ticks run out the poll ends timed out |
| SpeckleBridge.ImportFailedUnreachable | valvx-api/upload/speckle_bridge.go:201-204 | with the reports checkImportStatus produces, the poll never ends with "speckle import failed" |
| SpeckleBridge.Bridge.UpdateMappingError | valvx-api/upload/speckle_bridge.go:272-279 | the row is set to error with the message when the update is saved, and nothing changes otherwise |
| SpeckleBridge.Bridge.TriggerImport | valvx-api/upload/speckle_bridge.go:50-88 | the rows and the result are those of the trigger's specification for the replies met |
| SpeckleBridge.Bridge.PollImportStatus | valvx-api/upload/speckle_bridge.go:173-207 | the tick loop ends with the poll's terminal outcome and writes exactly that one terminal status |
| Bcf.DerefStr | valvx-api/collab/bcf_export.go:377-382 | the pointed-to string, or "" for nil |
| Bcf.NonEmpty | valvx-api/collab/bcf_export.go:283-291 | a field read back is set exactly when the text is non-empty |
| Bcf.DerefThenNonEmpty | valvx-api/collab/bcf_export.go:153-157 | writing a field out and reading it back gives it back, except a pointer to "", which comes back nil |
| Bcf.EncodeBase64 | valvx-api/collab/bcf_export.go:384-386 | the standard padded encoding, 4·⌈n/3⌉ characters long |
| Bcf.DataUrlDecoding | valvx-api/collab/bcf_export.go:388-399 | the decoding of the text after the first ',' in the standard alphabet, or nothing when that text does not decode |
| Bcf.DataUrlWithoutComma | valvx-api/collab/bcf_export.go:390-393 | a text without ',' decodes to nothing |
| Bcf.DataUrlRoundTrip | valvx-api/collab/bcf_export.go:384-399 | decoding "data:image/png;base64," + encodeBase64(d) gives back d |
| Bcf.ExportBcfZip | valvx-api/collab/bcf_export.go:134-240 | the nested loops write exactly the archive the export specification describes |
| Bcf.WriteTopic | valvx-api/collab/bcf_export.go:145-236 | one pass of the topic loop writes the topic's viewpoint files and then its markup |
| Bcf.WriteComments | valvx-api/collab/bcf_export.go:164-172 | the comment loop gives one markup comment per comment, in order, with a nil author written as empty |
| Bcf.WriteViewpoints | valvx-api/collab/bcf_export.go:175-231 | the viewpoint loop gives one reference per viewpoint and writes each viewpoint's files in order |
| Bcf.WriteViewpoint | valvx-api/collab/bcf_export.go:175-230 | one pass of the viewpoint loop gives the reference and the files of that viewpoint, with the camera defaults |
| Bcf.ExportedStartsWithVersion | valvx-api/collab/bcf_export.go:139-143 | the first entry is bcf.version declaring version 2.1 |
| Bcf.ExportedBlocks | valvx-api/collab/bcf_export.go:145-236 | each topic's entries form one block, in topic order |
| Bcf.ViewpointEntriesInFolder | valvx-api/collab/bcf_export.go:222-228 | a viewpoint's files are named inside the topic folder and are never markup |
| Bcf.TopicEntriesLayout | valvx-api/collab/bcf_export.go:146-235 | every entry of a topic is named GUID + "/"; its markup.bcf is its last entry, after all its viewpoint files |
| Bcf.RefsNameEntries | valvx-api/collab/bcf_export.go:185-228 | the markup's reference for each viewpoint names exactly the entry holding its .bcfv, and its snapshot's entry when one is written |
| Bcf.ViewpointNaming | valvx-api/collab/bcf_export.go:175-183 | the first viewpoint is viewpoint.bcfv and snapshot.png; later ones are GUID.bcfv and GUID.png |
| Bcf.SnapshotWritten | valvx-api/collab/bcf_export.go:225-230 | a snapshot entry is written iff the data URL is present and decodes to non-empty bytes, and it holds those bytes |
| Bcf.ImportViewpoints | valvx-api/collab/bcf_export.go:294-348 | at most one viewpoint per reference |
| Bcf.ImportTopics | valvx-api/collab/bcf_export.go:258-362 | at most one topic per file of the archive |
| Bcf.ParseBcfZip | valvx-api/collab/bcf_export.go:243-365 | the topic loop returns exactly the parse specification's result; an unreadable archive is an error |
| Bcf.IndexFiles | valvx-api/collab/bcf_export.go:249-253 | the index maps each file name to the content of the last archive entry with that name |
| Bcf.ReadMarkup | valvx-api/collab/bcf_export.go:262-360 | one markup file gives a topic with its non-empty optional fields set, its resolvable viewpoints and all its comments |
| Bcf.ReadViewpoints | valvx-api/collab/bcf_export.go:293-347 | a viewpoint reference whose file is missing or is not a visualisation file is skipped; the others are read in order, with their snapshot as a data URL when it can be read |
| Bcf.ReadComments | valvx-api/collab/bcf_export.go:350-359 | one comment per markup comment, in order, with an empty author read as none |
| Bcf.ImportTopicsFromMarkup | valvx-api/collab/bcf_export.go:258-362 | every topic read comes from a markup file of the archive |
| Bcf.MarkupYieldsTopic | valvx-api/collab/bcf_export.go:258-362 | every markup file in a folder yields a topic |
| Bcf.OnlyMarkupYieldsTopic | valvx-api/collab/bcf_export.go:258-275 | a file yields a topic iff its name ends in "/markup.bcf" and it decodes as markup |
| Bcf.ImportViewpointsAllResolve | valvx-api/collab/bcf_export.go:294-348 | when every reference resolves to a visualisation file, no viewpoint is skipped |
| Bcf.MissingViewpointSkipped | valvx-api/collab/bcf_export.go:295-299 | a reference whose .bcfv file is missing contributes nothing |
| Bcf.PerspectiveTakesPrecedence | valvx-api/collab/bcf_export.go:317-331 | with both cameras present the perspective one is read |
| Bcf.CameraRoundTrip | valvx-api/collab/bcf_export.go:197-219 | export and import keep GUID and camera vectors; "perspective" comes back perspective with FOV 60 when absent, every other type orthogonal with scale 1 when absent |
| Bcf.CommentRoundTrip | valvx-api/collab/bcf_export.go:164-171 | a comment keeps its body, and its author is set only when non-empty |
| Bcf.ViewpointsRoundTrip | valvx-api/collab/bcf_export.go:175-230 | reading back a topic's exported viewpoints gives each of them after the round trip, in order, none skipped |
| Bcf.TopicRoundTrip | valvx-api/collab/bcf_export.go:149-235 | a topic read back keeps GUID, title and status; description, priority and type come back set only when non-empty; its viewpoints are kept, and every comment in its place with its body and non-empty author |
| Bcf.CommentsRoundTrip | valvx-api/collab/bcf_export.go:164-171 | the k-th comment written reads back as the k-th, with its body, and its author only when non-empty |
| Bcf.MarkupPathReadsBack | valvx-api/collab/bcf_export.go:235 | the exported markup is found at GUID/markup.bcf and read back as that topic |
| Bcf.SnapshotRoundTrip | valvx-api/collab/bcf_export.go:225-230 | a snapshot comes back iff bytes were written, as a data URL decoding to those bytes |
| Bcf.IndexHoldsDistinct | valvx-api/collab/bcf_export.go:250-253 | with distinct names, the index holds every entry under its name |
| TopicQuery.SortByOrders | valvx-api/collab/service.go:54 | the ORDER BY model yields a permutation of its rows sorted by the key |
| TopicQuery.ActiveColumns | valvx-api/collab/service.go:38-52 | a column has a condition iff its filter is non-empty |
| TopicQuery.PlaceholdersAlign | valvx-api/collab/service.go:35-52 | placeholders run $2, $3, … without gaps, and each $k names args[k-1], the filter value of its column; args[0] is the project |
| TopicQuery.ConditionPerFilter | valvx-api/collab/service.go:38-52 | each non-empty filter gets exactly one condition |
| TopicQuery.PlaceholderFollowsPresence | valvx-api/collab/service.go:36-47 | a priority filter alone takes $2 |
| TopicQuery.QueryMeansFilters | valvx-api/collab/service.go:26-52 | the query selects a row iff it belongs to the project and matches every non-empty filter |
| TopicQuery.FilterRows | valvx-api/collab/service.go:33-52 | exactly the project's rows matching the filters, each as often as in the table |
| TopicQuery.ListedRowsMeaning | valvx-api/collab/service.go:25-56 | the listed rows are the matching rows, each as often as in the table, newest first |
| TopicService.ToViewpoint | valvx-api/collab/service.go:289-293 | a snapshot becomes a data URL iff its bytes are non-empty |
| TopicService.ToViewpointDecodes | valvx-api/collab/service.go:289-293 | the data URL of a listed viewpoint decodes back to the stored bytes |
| TopicService.ViewpointRowsOf | valvx-api/collab/service.go:259 | exactly the viewpoint rows of the topic |
| TopicService.CommentRowsOf | valvx-api/collab/service.go:197 | exactly the comment rows of the topic |
| TopicService.Limit | valvx-api/collab/service.go:262-264 | LIMIT applies only when positive, and keeps a prefix |
| TopicService.FindTopic | valvx-api/collab/service.go:94-110 | finds a row with the id iff one exists |
| TopicService.ExecuteListQuery | valvx-api/collab/service.go:25-56 | executing the built query returns exactly the rows the filters describe |
| TopicService.ViewpointsOfMeaning | valvx-api/collab/service.go:250-302 | listViewpoints returns only the topic's viewpoints, oldest first, at most limit when positive and all otherwise |
| TopicService.CommentsOfMeaning | valvx-api/collab/service.go:191-218 | ListComments returns every comment of the topic, oldest first, with its author's profile name |
| TopicService.FetchedMeaning | valvx-api/collab/service.go:90-117 | GetTopic succeeds iff the row read succeeds and the topic exists; it then returns the topic with all its own viewpoints and all its own comments, and a failed viewpoint or comment read leaves that list empty instead of failing the call |
| TopicService.ListedMeaning | valvx-api/collab/service.go:25-88 | ListTopics returns the project's topics matching every non-empty filter, newest first, each with at most one viewpoint of its own and no comments; a topic whose preview read fails has no viewpoint |
| TopicService.Links | valvx-api/collab/service.go:147-155 | one link per file version, in order |
| TopicService.CreateSuccessIff | valvx-api/collab/service.go:119-158 | CreateTopic succeeds exactly when every statement succeeds |
| TopicService.CreatePartialWrites | valvx-api/collab/service.go:124-155 | not atomic: once inserted with status Open the topic row stays whatever fails later; a viewpoint row is added only for a supplied viewpoint |
| TopicService.CreatedTopic | valvx-api/collab/service.go:119-158 | a successful create links every file version and returns the stored topic, open, with the request's title, description, priority, type, assignee, due date and labels, and with the viewpoint it created when viewpoints were read |
| TopicService.StoredViewpointListed | valvx-api/collab/service.go:250-302 | every stored viewpoint of a topic is among those listed for it without a limit |
| TopicService.StoredViewpointReadsBack | valvx-api/collab/service.go:315-331 | a stored viewpoint reads back with its camera; components and clipping planes come back as given, or as the text "null" when absent |
| TopicService.SnapshotRoundTrip | valvx-api/collab/service.go:351-364 | a snapshot sent as a PNG data URL is stored as bytes; listing returns the same URL and GetSnapshot returns the bytes as image/png |
| TopicService.SnapshotMeaning | valvx-api/collab/service.go:351-365 | GetSnapshot succeeds only for a stored viewpoint with non-empty bytes, typed "png" when no type is stored |
| TopicService.MergeFields | valvx-api/collab/service.go:163-176 | the title changes only to a non-empty title; description, priority, type, assignee, due date and labels each change only when supplied, to the supplied value; updated_at is always refreshed; identity and status stay |
| TopicService.MergeIdempotent | valvx-api/collab/service.go:163-176 | applying the same update twice is applying it once |
| TopicService.UpdateRowsAt | valvx-api/collab/service.go:163-176 | only rows with the topic's id change |
| TopicService.UpdateThenFind | valvx-api/collab/service.go:160-182 | after the update GetTopic finds the merged row; a missing topic stays missing, so its update fails at the fetch |
| TopicService.RemoveTopic | valvx-api/collab/service.go:184-187 | exactly the rows with other ids remain |
| TopicService.RemoveComment | valvx-api/collab/service.go:243-246 | exactly the comments with other ids remain |
| TopicService.DeletedTopicGone | valvx-api/collab/service.go:184-187 | a deleted topic can no longer be fetched |
| TopicService.ImportRequestMeaning | valvx-api/collab/service.go:399-421 | an imported topic carries its title, description, priority and type, no assignee, due date, labels or files, and all nine fields of its first viewpoint only |
| TopicService.CountSucceeded | valvx-api/collab/service.go:399-430 | never more than the number of topics |
| TopicService.ImportCounts | valvx-api/collab/service.go:399-430 | ImportBCF counts exactly the successful creations, at most the number of parsed topics |
| TopicService.ImportAllTopicRows | valvx-api/collab/service.go:400-428 | an import appends one topic row per successful insert, in archive order, the i-th stamped with the i-th clock reading |
| TopicService.ImportedMeaning | valvx-api/collab/service.go:388-431 | a count is returned iff the file is read and parses; an unreadable archive changes nothing |
| TopicService.FullTopics | valvx-api/collab/service.go:376-383 | no more topics than were listed |
| TopicService.FullTopicsAll | valvx-api/collab/service.go:376-383 | when every fetch succeeds every listed topic is kept, in order |
| TopicService.ExportCarriesEveryTopic | valvx-api/collab/service.go:369-386 | when every fetch succeeds the archive carries every topic of the project |
| TopicQuery.BuildListQuery | valvx-api/collab/service.go:26-54 | the argIdx-driven construction yields the ListTopics query |
| TopicService.Service.ListViewpoints | valvx-api/collab/service.go:250-302 | a failed read returns no viewpoints and an error; otherwise the row loop returns the topic's viewpoints as specified |
| TopicService.Service.ListComments | valvx-api/collab/service.go:191-218 | a failed read returns no comments and an error; otherwise the row loop returns the topic's comments as specified |
| TopicService.Service.GetTopic | valvx-api/collab/service.go:90-117 | returns the fetch specification's result under each outcome of its three reads, the discarded viewpoint and comment errors included |
| TopicService.Service.ListTopics | valvx-api/collab/service.go:25-88 | the query and the row loop return the listing specification's result, each preview read's failure included |
| TopicService.Service.CreateViewpoint | valvx-api/collab/service.go:304-349 | stores the request's viewpoint with decoded snapshot bytes; the viewpoint returned has no snapshot or components; nothing else changes |
| TopicService.Service.CreateTopic | valvx-api/collab/service.go:119-158 | the new tables and the result are those of the create specification, partial writes included |
| TopicService.Service.LinkFiles | valvx-api/collab/service.go:146-155 | the link rows are written in order and the loop stops at the first failed insert, reporting failure exactly when fewer inserts succeed than there are file versions |
| TopicService.Service.UpdateTopic | valvx-api/collab/service.go:160-182 | a failed update changes nothing; otherwise the topic rows are merged and the stored topic is fetched |
| TopicService.Service.DeleteTopic | valvx-api/collab/service.go:184-187 | removes the topic's rows when the statement succeeds, nothing otherwise |
| TopicService.Service.CreateComment | valvx-api/collab/service.go:220-241 | stores the comment with its viewpoint; the comment returned carries neither the viewpoint nor the author's name |
| TopicService.Service.DeleteComment | valvx-api/collab/service.go:243-246 | removes the comment's rows when the statement succeeds, nothing otherwise |
| TopicService.Service.GetSnapshot | valvx-api/collab/service.go:351-365 | returns the snapshot specification's result |
| TopicService.Service.ImportBcf | valvx-api/collab/service.go:388-431 | the parse and the creation loop give the import specification's tables and count, each creation stamped with its own clock reading |
| TopicService.Service.CreateAll | valvx-api/collab/service.go:400-428 | each parsed topic is created in turn, a failed creation is skipped, and the count is that of the import specification |
| TopicService.Service.ExportBcf | valvx-api/collab/service.go:369-386 | the listing, the fetch loop and the export give the archive of every topic whose fetch succeeded |
| TopicService.Service.FetchAll | valvx-api/collab/service.go:375-383 | the loop keeps, in order, every listed topic whose GetTopic succeeds, as fetched, and skips the others |

## Left out

- HTTP transport, JSON request and response encoding and the router are not modelled. Neither are the TUS PATCH, HEAD and DELETE handlers (`upload/handler.go:120-163`). Those handlers keep no session or offset state.
- Goroutines are sequentialised. `Registration.CompleteAndConvert` runs the conversion after the registration, and the poll runs as its own method.
- The `ctx.Done()` branch of the poll is not modelled. A tick and the timeout firing at the same moment are modelled as the ticks running out.
- The ZIP container, XML text, and RFC 3339 date text are not modelled. An archive is a sequence of named entries holding structured records, and dates are integers.
- BCF fields the export never writes are not modelled: creation author, modification data, components and clipping planes in the visualisation file.
- A snapshot reference that points at an XML entry of the archive gives no snapshot in the model. The Go code would encode that entry's bytes.
- XML character escaping is not modelled. Go's `encoding/xml` writes control characters that XML forbids, and invalid UTF-8, as U+FFFD. A GUID, title, description or comment holding them does not read back unchanged in the real program, although it does in `Bcf.TopicRoundTrip`.
- Floats are opaque bit patterns. No float arithmetic happens in the code.
- Go map iteration order in `ParseBCFZip` is a parameter. It is any listing of the index's names.
- Trimming and lower-casing cover ASCII only. Unicode white space and case folding are not modelled.
- Database ordering ties: `TopicQuery.SortBy` keeps the table order of rows with equal keys. PostgreSQL guarantees no order for ties.
- A nil slice and an empty slice are not distinguished, so ListTopics returning `[]` rather than nil is not modelled. Labels keep the difference as `None` versus `Some([])`.
- Row scan errors are not modelled.
- `TopicService.Service.DeleteTopic` removes only the topic row. Cascading deletes depend on the database schema, which is not part of this model.
- `json.Marshal` of a raw JSON message is not modelled exactly. The model stores the text verbatim, or "null" when absent, and does not model compaction or validation.
- `Recovery` turning a panic into a 500 is not modelled. Neither is `Logger`'s timing and log text.
- `SpeckleBridge` does not model the upload stub `uploadFileToSpeckle`. Its outcome is a parameter.
- The session store behind `Session` (cookie, lookup, expiry) is not modelled. The account it finds is part of the request.
- UUID generation and `time.Now` are parameters. Every clock reading is its own parameter: one per CreateTopic of an import (`clock(i)`), the separate reading CreateViewpoint makes inside CreateTopic (`viewpointAt`), and one per update in TriggerImport (`SpeckleBridge.TriggerTimes`). A single `now` stands for one reading, e.g. the one at the top of CreateTopic. No order between readings is assumed.
- The database side of `runMigrations` is not modelled. Only the choice and order of files, and where a run stops, are.
