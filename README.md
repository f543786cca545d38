# Platform adapters and file repository of a multi-site poster

This project models, in Dafny, three parts of a desktop application that
publishes one submission (a set of files, or a text notification) to many
social platforms:

- **The Mastodon adapter.** It has five parts:
  - a login check that stores the instance's information in a per-account cache;
  - a scaling policy read from that cache;
  - the media upload with its bounded processing poll;
  - the file post, which partitions the uploaded media into chunks of the instance's attachment limit and posts them as a reply thread, with a cancellation check before each upload, before each chunk and before the answer;
  - the notification post, the tag formatting, and the two validators that turn a submission into blocking problems and advisory warnings.
- **The Twitter adapter.** It has the login check, a fixed 5 MB scaling policy, the two posts (one request each to an OAuth relay, behind a cancellation check) and the two validators. The validators use a 280-character length estimate and a per-type size limit of 15 MB for GIFs and videos, 5 MB otherwise.
- **The file repository.** It stores an upload under `id-sid.ext` in the submission directory and its thumbnail under `id-sid.ext.jpeg` in the separate thumbnail directory, removes every file of a submission, and copies a stored file under a new id, rewriting its record in place.

Modules:

- `Wrappers`: the optional value.
- `Submission`: the shared entities. A file record is a class whose two storage paths change in place.
- `Strings`: JavaScript `split` / `join` / `pop` / `includes` on one-character separators, with their round-trip lemmas, the tag character filter, and `length` in UTF-16 code units.
- `Website`: what both adapters take from their common base. This covers:
  - cancellation checkpoints;
  - post responses and diagnostics;
  - the unseen helpers, as a record of function values;
  - the choice of files a validator reads;
  - the list concatenation the validators' file loops build.
- `MastodonAdapter`, `TwitterAdapter`, `FileRepository`: the three parts above.

Conventions:

- A network call is a parameter holding the server's answers.
- `shortid.generate()` is a parameter `sid`.
- The file system is a map from paths to contents.
- Cancellation is a `CancelSchedule`. The token is a flag set at most once, so a run that numbers its checkpoints 0, 1, 2, … observes it from some checkpoint on, or never.

## Model

| member | source | states |
|---|---|---|
| Submission.FilePostData.Files | electron-app/src/server/websites/mastodon/mastodon.service.ts:178 | the files of a post are the primary file followed by the additional ones, in order |
| Strings.Split | electron-app/src/file-repository/file-repository.service.ts:64 | `split` on one character gives at least one part, and no part holds the separator |
| Strings.LastSegment | electron-app/src/file-repository/file-repository.service.ts:22 | `split(sep).pop()` holds no separator and is no longer than the input |
| Strings.Join | electron-app/src/file-repository/file-repository.service.ts:68 | `join`; stated by `JoinSplit`, `SplitJoin` and `JoinSnoc` |
| Strings.JoinSplit | electron-app/src/file-repository/file-repository.service.ts:64-68 | joining the parts of a split with the separator gives the string back |
| Strings.SplitJoin | electron-app/src/file-repository/file-repository.service.ts:64-68 | parts without the separator split back out of their join |
| Strings.ReplaceLastSegment | electron-app/src/file-repository/file-repository.service.ts:64-68 | popping the last path part and pushing a new name keeps every other part and ends in the new name |
| Strings.LastSegmentAfter | electron-app/src/file-repository/file-repository.service.ts:22 | the text after the last separator is the last segment, whatever precedes it |
| Strings.JoinSnoc | electron-app/src/file-repository/file-repository.service.ts:68 | joining one more part appends the separator and that part |
| Strings.KeepAlphanumeric | electron-app/src/server/websites/mastodon/mastodon.service.ts:268-274 | the reference for tag sanitising: only alphanumeric characters, never longer than the input |
| Strings.KeepAlphanumericAround | electron-app/src/server/websites/mastodon/mastodon.service.ts:268-274 | one non-alphanumeric character between two alphanumeric strings is dropped and nothing else |
| Strings.RemoveBlanks | electron-app/src/server/websites/mastodon/mastodon.service.ts:268-274 | blanking the characters outside `[a-z0-9]` (any case) and then removing blanks keeps exactly the alphanumeric characters, in order |
| Strings.JoinSplitEmpty | electron-app/src/server/websites/mastodon/mastodon.service.ts:271-273 | `split(' ').join('')` removes every blank and nothing else |
| Strings.Utf16Length | electron-app/src/server/websites/mastodon/mastodon.service.ts:298 | `length` counts UTF-16 code units: at least one and at most two per character |
| Strings.Utf16LengthBmp | electron-app/src/server/websites/twitter/twitter.service.ts:155 | `length` equals the number of characters exactly when every character lies in the Basic Multilingual Plane |
| Website.NotIgnored | electron-app/src/server/websites/mastodon/mastodon.service.ts:306-308 | the selection of the additional files is never longer than the input; what it holds is stated by `NotIgnoredMembers` and `NotIgnoredFilters` |
| Website.NotIgnoredMembers | electron-app/src/server/websites/mastodon/mastodon.service.ts:306-308 | the kept additional files are among the input and not ignored by the account, and every file the account does not ignore is kept |
| Website.NotIgnoredFilters | electron-app/src/server/websites/twitter/twitter.service.ts:163-165 | the selection is a filter: one file is kept exactly when the account does not ignore it, and selecting from a concatenation concatenates the selections, so order and repeats are kept |
| Website.ValidatedFiles | electron-app/src/server/websites/mastodon/mastodon.service.ts:304-309 | the validated files start with the primary file |
| Website.ValidatedFilesSelection | electron-app/src/server/websites/twitter/twitter.service.ts:161-166 | the validated files are the primary file and exactly the additional files the account does not ignore; with no additional list, only the primary file |
| Website.Concat | electron-app/src/server/websites/mastodon/mastodon.service.ts:314-342 | the diagnostics the file loop pushes, group after group; stated by `ConcatIncludes` and `ConcatFrom` |
| Website.ConcatIncludes | electron-app/src/server/websites/mastodon/mastodon.service.ts:314-342 | nothing one iteration of the file loop pushes is lost |
| Website.ConcatFrom | electron-app/src/server/websites/mastodon/mastodon.service.ts:314-342 | everything the file loop pushed was pushed by one of its iterations |
| MastodonAdapter.Chunk | electron-app/src/server/websites/mastodon/mastodon.service.ts:190 | `_.chunk`: a size below 1 gives no chunk; otherwise the chunks laid end to end are the input, each is non-empty and at most the size, and every chunk but the last has exactly the size |
| MastodonAdapter.ChunkCount | electron-app/src/server/websites/mastodon/mastodon.service.ts:190 | there are `ceil(n / size)` chunks |
| MastodonAdapter.Substring | electron-app/src/server/websites/mastodon/mastodon.service.ts:193 | `substring(0, end)` is the longest prefix at most `end` UTF-16 code units long: the whole text when it fits, otherwise one more character would exceed `end` |
| MastodonAdapter.SubstringBmp | electron-app/src/server/websites/mastodon/mastodon.service.ts:193 | on text inside the Basic Multilingual Plane the cut falls after `end` characters, or at the end of the text |
| MastodonAdapter.ComposeStatus | electron-app/src/server/websites/mastodon/mastodon.service.ts:191-193 | the status text: the title and a newline when the title is used and not empty, then the description; its use is stated by `Thread.RequestsAt` and `Mastodon.PostNotificationSubmission` |
| MastodonAdapter.PostVisibility | electron-app/src/server/websites/mastodon/mastodon.service.ts:201 | `visibility || 'public'`; its use is stated by `Thread.RequestsAt` |
| MastodonAdapter.ChunkOptions | electron-app/src/server/websites/mastodon/mastodon.service.ts:199-210 | the options of a status: sensitivity, visibility, media, the status replied to, and the spoiler text when set; its use is stated by `Thread.RequestsAt` |
| MastodonAdapter.Thread.RequestsAt | electron-app/src/server/websites/mastodon/mastodon.service.ts:197-213 | the i-th status sent carries chunk i, replies to the previous chunk's status (none for chunk 0), and has the tags appended i + 1 times |
| MastodonAdapter.ThreadCarriesAllMedia | electron-app/src/server/websites/mastodon/mastodon.service.ts:197-203 | a completed thread carries the chunks' media ids, chunk by chunk, in order |
| MastodonAdapter.FirstUrlIsFirst | electron-app/src/server/websites/mastodon/mastodon.service.ts:195-217 | the reported source is the url of the first reply that has one, or empty when none has |
| MastodonAdapter.SanitizeTag | electron-app/src/server/websites/mastodon/mastodon.service.ts:268-274 | sanitising a tag keeps exactly its alphanumeric characters |
| MastodonAdapter.SanitizeTags | electron-app/src/server/websites/mastodon/mastodon.service.ts:267-274 | every tag is sanitised, in order |
| MastodonAdapter.FormatTags | electron-app/src/server/websites/mastodon/mastodon.service.ts:265-277 | the formatted tags are the parsed sanitised tags, each behind a `#` |
| MastodonAdapter.FormattedTagsAreHashtags | electron-app/src/server/websites/mastodon/mastodon.service.ts:265-277 | when the tag parser only keeps tags it was given, every formatted tag is `#` and the alphanumeric characters of one input tag |
| MastodonAdapter.NeatStuffTag | electron-app/src/server/websites/mastodon/mastodon.service.ts:268-274 | the tag "neat stuff" sanitises to "neatstuff" |
| MastodonAdapter.PollsFrom | electron-app/src/server/websites/mastodon/mastodon.service.ts:140-159 | the poll loop makes at most 10 polls and stops after the first one that finds a url or throws |
| MastodonAdapter.UploadOutcome | electron-app/src/server/websites/mastodon/mastodon.service.ts:160-168 | what `uploadMedia` settles to; stated by `UploadOutcomeSpec` |
| MastodonAdapter.UploadOutcomeSpec | electron-app/src/server/websites/mastodon/mastodon.service.ts:114-169 | an upload succeeds exactly when the server answered without a truthy `errors` and no poll threw, and then gives the answer's id; polls that do not throw never change the outcome |
| MastodonAdapter.UploadMedia | electron-app/src/server/websites/mastodon/mastodon.service.ts:114-169 | the result is the upload's outcome, and polling happens only while processing or without a url, as many times as the poll loop runs |
| MastodonAdapter.UploadFiles | electron-app/src/server/websites/mastodon/mastodon.service.ts:178-183 | files are uploaded in order, each after a cancellation check; the run stops at the first cancellation or failed upload; otherwise the ids are those of every upload, in order |
| MastodonAdapter.PostChunks | electron-app/src/server/websites/mastodon/mastodon.service.ts:189-231 | chunk statuses are sent strictly in order, each after a cancellation check; a refused chunk stops the run with its index; posted chunks stay posted; success needs every chunk posted and a final check passed, and reports the first url |
| MastodonAdapter.FileRules.Classification | electron-app/src/server/websites/mastodon/mastodon.service.ts:314-341 | an unsupported format is a problem; over the image limit is a warning if the file can be scaled and a problem otherwise; an autoscaled image over 4000 pixels on a side is a warning; nothing else |
| MastodonAdapter.FileRules.CollectedIncludes | electron-app/src/server/websites/mastodon/mastodon.service.ts:314-342 | every diagnostic of a checked file is in what the loop collects |
| MastodonAdapter.FileRules.CollectedFrom | electron-app/src/server/websites/mastodon/mastodon.service.ts:314-342 | everything the loop collects comes from a checked file |
| MastodonAdapter.FileRules.CollectedHasNoLength | electron-app/src/server/websites/mastodon/mastodon.service.ts:314-342 | no per-file diagnostic is about the description's length |
| MastodonAdapter.HashtagWarning | electron-app/src/server/websites/mastodon/mastodon.service.ts:344-351 | the hashtag rule; stated by `FileValidationHashtags` |
| MastodonAdapter.CheckFile | electron-app/src/server/websites/mastodon/mastodon.service.ts:315-341 | one file's checks are pushed after the lists' previous contents |
| MastodonAdapter.CheckFiles | electron-app/src/server/websites/mastodon/mastodon.service.ts:314-342 | the loop pushes every file's checks, file after file, after the previous contents |
| MastodonAdapter.FileValidation | electron-app/src/server/websites/mastodon/mastodon.service.ts:279-354 | what the validator returns, as one expression; stated by `FileValidationLength`, `FileValidationFiles`, `FileValidationSources` and `FileValidationHashtags` |
| MastodonAdapter.LengthWarning | electron-app/src/server/websites/mastodon/mastodon.service.ts:296-302 | the length part of the validator; stated by `FileValidationLength` |
| MastodonAdapter.FileValidationLength | electron-app/src/server/websites/mastodon/mastodon.service.ts:296-302 | a description over the instance's limit (500 when unknown), in UTF-16 code units, gives exactly one length diagnostic, the first warning; a shorter one gives none; no problem is about length |
| MastodonAdapter.FileValidationFiles | electron-app/src/server/websites/mastodon/mastodon.service.ts:311-341 | each validated file is classified against the instance's image limit (50 MB when unknown) |
| MastodonAdapter.FileValidationSources | electron-app/src/server/websites/mastodon/mastodon.service.ts:304-342 | every problem, and every warning other than the length and hashtag ones, comes from a validated file |
| MastodonAdapter.FileValidationHashtags | electron-app/src/server/websites/mastodon/mastodon.service.ts:344-351 | the hashtag warning is given exactly when either part has more than one tag and the visibility is not "public" |
| MastodonAdapter.Mastodon.CheckLoginStatus | electron-app/src/server/websites/mastodon/mastodon.service.ts:76-93 | logged in exactly when the account data has a token, under its username; only then is the instance's information fetched and stored for the account; a failed fetch changes nothing |
| MastodonAdapter.Mastodon.GetScalingOptions | electron-app/src/server/websites/mastodon/mastodon.service.ts:95-111 | always 4000 x 4000; the size limit is the cached image or video limit by file type when media limits are cached, and 300 MB otherwise |
| MastodonAdapter.Mastodon.FileThread | electron-app/src/server/websites/mastodon/mastodon.service.ts:185-193 | the thread a file post sends: sensitivity, options, formatted tags, the cut text, the limit and the chunks of the uploaded ids; stated by `Thread.RequestsAt` and `Mastodon.PostFileSubmission` |
| MastodonAdapter.Mastodon.PostFileSubmission | electron-app/src/server/websites/mastodon/mastodon.service.ts:171-232 | uploads come before any status; a posted file submission has made `ceil(n / m)` statuses, which together carry every uploaded id in order, and reports the first url; a failure names the failing upload or chunk; cancellation leaves what was done |
| MastodonAdapter.Mastodon.PostNotificationSubmission | electron-app/src/server/websites/mastodon/mastodon.service.ts:234-263 | after one cancellation check, one status without media: title line, description and tags, marked sensitive unless the rating is general |
| MastodonAdapter.Mastodon.ValidateFileSubmission | electron-app/src/server/websites/mastodon/mastodon.service.ts:279-354 | the validator returns the length warning, then every file's diagnostics in file order, then the hashtag warning |
| MastodonAdapter.Mastodon.ValidateNotificationSubmission | electron-app/src/server/websites/mastodon/mastodon.service.ts:356-378 | never a problem; exactly one warning, the length one, when the description is over the limit in UTF-16 code units, and none otherwise |
| TwitterAdapter.GetScalingOptions | electron-app/src/server/websites/twitter/twitter.service.ts:45-47 | only a size limit, 5 MB, for every file |
| TwitterAdapter.CheckLoginStatus | electron-app/src/server/websites/twitter/twitter.service.ts:53-61 | logged in exactly when there is an OAuth token, and then with the screen name as username |
| TwitterAdapter.FileForm | electron-app/src/server/websites/twitter/twitter.service.ts:70-84 | the form sends an empty title, the description and tags, the credentials, and every file with the primary one first |
| TwitterAdapter.NotificationForm | electron-app/src/server/websites/twitter/twitter.service.ts:111-119 | the notification form sends an empty title and no files or options |
| TwitterAdapter.Answer | electron-app/src/server/websites/twitter/twitter.service.ts:97-103 | a successful relay answer gives its url as source; anything else is rejected with the relay's error |
| TwitterAdapter.PostFileSubmission | electron-app/src/server/websites/twitter/twitter.service.ts:63-104 | cancelled exactly when the one checkpoint observes it, and then nothing is sent; otherwise the file form is sent once and the relay's answer decides |
| TwitterAdapter.PostNotificationSubmission | electron-app/src/server/websites/twitter/twitter.service.ts:106-139 | the same with the notification form |
| TwitterAdapter.FileRules.Classification | electron-app/src/server/websites/twitter/twitter.service.ts:169-188 | an unsupported format is a problem; the limit is 15 MB for a video or `image/gif` and 5 MB otherwise; over it is a warning if autoscaled, an image and of a scalable type, and a problem otherwise; nothing else |
| TwitterAdapter.FileRules.CollectedIncludes | electron-app/src/server/websites/twitter/twitter.service.ts:168-189 | every diagnostic of a checked file is in what the loop collects |
| TwitterAdapter.FileRules.CollectedFrom | electron-app/src/server/websites/twitter/twitter.service.ts:168-189 | everything the loop collects comes from a checked file |
| TwitterAdapter.MaxMB | electron-app/src/server/websites/twitter/twitter.service.ts:174-177 | 15 MB for a video or `image/gif`, 5 MB otherwise; stated by `FileRules.Classification` |
| TwitterAdapter.CheckFile | electron-app/src/server/websites/twitter/twitter.service.ts:169-188 | one file's checks are pushed after the lists' previous contents |
| TwitterAdapter.CheckFiles | electron-app/src/server/websites/twitter/twitter.service.ts:168-189 | the loop pushes every file's checks, file after file, after the previous contents |
| TwitterAdapter.ValidateFileSubmission | electron-app/src/server/websites/twitter/twitter.service.ts:141-192 | the validator returns the length warning, then every file's diagnostics in file order |
| TwitterAdapter.LengthWarning | electron-app/src/server/websites/twitter/twitter.service.ts:150-159 | the length part of both validators; stated by `FileValidationLength` and `ValidateNotificationSubmission` |
| TwitterAdapter.FileValidation | electron-app/src/server/websites/twitter/twitter.service.ts:141-192 | what the file validator returns, as one expression; stated by `FileValidationLength`, `FileValidationFiles` and `FileValidationSources` |
| TwitterAdapter.FileValidationLength | electron-app/src/server/websites/twitter/twitter.service.ts:150-159 | a description over 280 UTF-16 code units (links counted as 23) gives exactly one length warning, carrying that length, first; a shorter one gives none; no problem is about length |
| TwitterAdapter.FileValidationFiles | electron-app/src/server/websites/twitter/twitter.service.ts:161-188 | each validated file, ignored ones excluded, is classified: unsupported format a problem, over its limit a warning or a problem |
| TwitterAdapter.FileValidationSources | electron-app/src/server/websites/twitter/twitter.service.ts:161-191 | every problem, and every warning other than the length one, comes from a validated file |
| TwitterAdapter.ScaledSizeIsScalerLimit | electron-app/src/server/websites/twitter/twitter.service.ts:45-47 | for an image that is not a GIF, the size the validator promises to scale to is the scaler's limit |
| TwitterAdapter.ValidateNotificationSubmission | electron-app/src/server/websites/twitter/twitter.service.ts:194-213 | never a problem; exactly one warning, carrying the length, when the description is over 280 UTF-16 code units |
| TwitterAdapter.NotificationIsFileValidationWithoutFiles | electron-app/src/server/websites/twitter/twitter.service.ts:150-159 | the notification's warnings open the file validator's warnings for the same parts |
| FileRepository.StoredName | electron-app/src/file-repository/file-repository.service.ts:22 | `${id}-${sid}.${ext}`; stated by `StoredNameParts` |
| FileRepository.StoredNameParts | electron-app/src/file-repository/file-repository.service.ts:22 | the stored name starts with `id-sid.` and keeps the upload's extension |
| FileRepository.PathInParts | electron-app/src/file-repository/file-repository.service.ts:23-27 | a stored path splits into the directory's parts and the name |
| FileRepository.ThumbnailPathExtension | electron-app/src/file-repository/file-repository.service.ts:27 | a thumbnail path always ends in `.jpeg` |
| FileRepository.Thumbnail | electron-app/src/file-repository/file-repository.service.ts:26-43 | a GIF image is its own thumbnail; another image is scaled to at most 300 pixels a side, never enlarged, unchanged where it fits; a non-image gets its file icon as JPEG at quality 100 |
| FileRepository.CopyLocation | electron-app/src/file-repository/file-repository.service.ts:64-68 | the copy's location; stated by `CopyLocationParts` |
| FileRepository.CopyPreview | electron-app/src/file-repository/file-repository.service.ts:72-74 | the copy's thumbnail path; stated by `CopyPreviewParts` |
| FileRepository.ReplacedExtension | electron-app/src/file-repository/file-repository.service.ts:66-68 | a path whose last part is replaced by `stem.ext` has extension `ext` |
| FileRepository.CopyLocationParts | electron-app/src/file-repository/file-repository.service.ts:64-68 | the copy's location keeps the old directory, is named `newId.ext`, and keeps the old extension |
| FileRepository.CopyPreviewParts | electron-app/src/file-repository/file-repository.service.ts:72-74 | the copy's thumbnail keeps the old thumbnail directory and is named `newId.jpeg` |
| FileRepository.CopyOfStoredFile | electron-app/src/file-repository/file-repository.service.ts:22-68 | copying a file the repository stored puts the copy in the submission directory under the new id and the stored extension |
| FileRepository.CopiedRecordPaths | electron-app/src/file-repository/file-repository.service.ts:64-81 | after a copy, the record's location and preview share the new id, each in its old directory |
| FileRepository.Targets | electron-app/src/file-repository/file-repository.service.ts:56-58 | the paths removed for a list of records; stated by `TargetsSpec` |
| FileRepository.RemovalTargets | electron-app/src/file-repository/file-repository.service.ts:55-58 | the paths a submission's removal deletes; stated by `RemovalTargetsSpec` |
| FileRepository.TargetsSpec | electron-app/src/file-repository/file-repository.service.ts:56-58 | two removals per present record, and a path is removed exactly when it is the location or preview of a present record |
| FileRepository.RemovalTargetsSpec | electron-app/src/file-repository/file-repository.service.ts:55-59 | removal covers the primary, thumbnail and additional records, skipping missing ones: exactly their locations and previews, two per record |
| FileRepository.WithoutPaths | electron-app/src/file-repository/file-repository.service.ts:57 | removing paths drops exactly those present and keeps every other file's content |
| FileRepository.RemovalUndoesInsert | electron-app/src/file-repository/file-repository.service.ts:24-59 | removing a submission whose primary record points at an upload's two paths leaves the file system as if the upload had never been written |
| FileRepository.FileRepositoryService.InsertFile | electron-app/src/file-repository/file-repository.service.ts:15-51 | the upload is written at the submission path and its thumbnail at the thumbnail path, and both paths are returned; nothing else changes |
| FileRepository.FileRepositoryService.RemoveSubmissionFiles | electron-app/src/file-repository/file-repository.service.ts:53-60 | the file system afterwards is the old one without the removal targets |
| FileRepository.FileRepositoryService.CopyFileWithNewId | electron-app/src/file-repository/file-repository.service.ts:62-82 | the file, then its thumbnail, are copied under the new id; only then are the record's location and preview rewritten and the same record returned; a missing source stops the copy with earlier steps kept and the record unchanged |

## Left out

- The network is not modelled. This covers the megalodon client, `Http.post` / `Http.get` and `OAuthUtil.getURL`. Each call is a parameter holding the server's answer or answers, and the wire format of the requests is not modelled.
- The 4-second wait between polls is not modelled; only the bound of 10 polls is kept.
- `shortid.generate()` is random, so the id it returns is a parameter.
- The file system calls `fs.outputFile`, `fs.remove` and `fs.copy` act on a map from paths to contents. Directories, permissions and I/O errors other than a missing copy source are not modelled.
- `SUBMISSION_FILE_DIRECTORY` and `THUMBNAIL_FILE_DIRECTORY` are constructor parameters of the repository. `src/directories` is not part of this model.
- Electron's image decoding, resizing, PNG encoding and `app.getFileIcon` are not modelled. The decoded size is a parameter, and the thumbnail records what it is made of rather than its bytes.
- The helpers from the unseen base class and utilities are uninterpreted function values (`Website.Collaborators`):
  - `PlaintextParser.parse`;
  - `FormContent.getDescription`;
  - `WebsiteValidator.supportsFileType`;
  - `ImageManipulator.isMimeType`;
  - `parseTags`;
  - `appendTags`.

  `appendTags` is applied once more on every chunk, exactly as the code does.
- The remaining base-class behaviour is modelled by value. `checkCancelled` is a `CancelSchedule`, `createPostResponse` is `PostResponse`, and the account-information store is the Mastodon class's `instanceInfo` map.
- Message wording is not modelled, and neither is `FileSize.BytesToMB`, which is floating point used only in message text. Each diagnostic carries its subject (name, mime type, limit in bytes or length) instead.
- `FileSize.MBtoBytes` is taken to multiply by 1048576. Its file is not part of this model.
- The Twitter `preparseDescription` (the `tw` username shortcut) and the `usernameShortcuts` table are not modelled, because they are only used by the unseen description parser.
- The `contentBlur` option is passed through as an optional string; its type is not modelled.
- Concurrency across accounts and the async scheduling are not modelled. Each account's pipeline is sequential.
- The Mastodon `getAndStoreInstanceInfo` is not a separate member: `Mastodon.CheckLoginStatus` receives the instance's answer and stores it.
- Validators require every record they read to be present (`Website.Readable`). With a missing primary or additional record the code throws a `TypeError`, which is not modelled.
- MastodonAdapter.Mastodon.PostFileSubmission: takes at least as many status replies as files, so that every chunk has an answer. There are never more chunks than files.
- FileRepository.FileRepositoryService.CopyFileWithNewId: a copy onto its own source, and a source that is a directory, are not modelled, because `fs.copy`'s errors for those are not visible here.
- MastodonAdapter.Substring: where `end` falls between the two code units of a surrogate pair, JavaScript keeps the pair's first unit alone. A Dafny character cannot hold half a pair, so the model leaves the whole pair out and its cut is one code unit shorter there.
- Strings.Utf16Length: JavaScript strings may hold unpaired surrogates, and Dafny strings cannot. Such text is not modelled.
- MastodonAdapter.UploadMedia: the upload's `errors` field may be any JavaScript value. It is a string here, with "" for every value JavaScript reads as false; the rejection message keeps no other detail.
- FileRepository.CopyOfStoredFile: requires that the stored name and the new id hold no `/`. A name with a `/` would change the directory, and the code does not guard against that.

Behaviour a reader may not expect, modelled as the code does it:

- The chunk loop appends the tags to the status text of the previous chunk, not to the original text, so chunk `i` has them appended `i + 1` times (`Thread.Tagged`).
- The text of a file post is cut to the character limit before tags are appended. The notification text is not cut at all.
- After the poll loop the upload's own first answer decides success and id. What the polls found is ignored, except that a poll that throws rejects the upload.
- A chunk size below 1 from the instance gives no chunk at all, so a post with files then makes no status.
- The Mastodon validator measures every file, videos included, against the image size limit.
