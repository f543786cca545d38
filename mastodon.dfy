/** The Mastodon adapter: the login check that fills the instance-info cache,
    the scaling policy, the media upload with its processing poll, the
    threaded posting of media chunks, the notification post, tag formatting
    and the two validators. */
module MastodonAdapter {
  import opened Wrappers
  import opened Submission
  import opened Website
  import Strings

  /** The file extensions the adapter accepts. */
  const AcceptedFiles: seq<string> :=
    ["png", "jpeg", "jpg", "gif", "swf", "flv", "mp4", "doc", "rtf", "txt", "mp3"]

  /** The server's largest image side, in pixels. */
  const MaxDimension := 4000
  /** Character limit when the instance's is not known. */
  const DefaultMaxChars := 500
  /** Attachments per status when the instance's limit is not known. */
  const DefaultChunkSize := 4
  /** Number of status requests while an upload is being processed. */
  const MaxPolls := 10
  /** The HTTP status of an upload the server is still processing. */
  const ProcessingStatusCode := 202

  /** The `media_attachments` part of an instance's configuration. */
  datatype MediaLimits = MediaLimits(imageSizeLimit: Option<int>, videoSizeLimit: Option<int>)

  /** The cached instance information: the `statuses` limits and the media
      limits of the instance's configuration, each of which may be absent. */
  datatype InstanceInfo = InstanceInfo(
    maxCharacters: Option<int>,
    maxMediaAttachments: Option<int>,
    mediaAttachments: Option<MediaLimits>)

  /** `max_characters ?? 500`. */
  function MaxChars(info: Option<InstanceInfo>): int
  {
    if info.Some? then info.value.maxCharacters.GetOr(DefaultMaxChars) else DefaultMaxChars
  }

  /** `max_media_attachments ?? 4`. */
  function ChunkSize(info: Option<InstanceInfo>): int
  {
    if info.Some? then info.value.maxMediaAttachments.GetOr(DefaultChunkSize) else DefaultChunkSize
  }

  /** `image_size_limit ?? 50 MB`. */
  function MaxImageSize(info: Option<InstanceInfo>): int
  {
    if info.Some? && info.value.mediaAttachments.Some?
    then info.value.mediaAttachments.value.imageSizeLimit.GetOr(MBtoBytes(50))
    else MBtoBytes(50)
  }

  /** The stored credentials of an account; an absent field is "". */
  datatype AccountData = AccountData(website: string, token: string, username: string)

  /** The account's options for a post; an unset field is "". `altText` is
      only read by file posts. */
  datatype Options = Options(altText: string, useTitle: bool, visibility: string, spoilerText: string)

  // ---------------------------------------------------------------------
  // Posting helpers

  /** `_.chunk(xs, size)`: consecutive groups of `size`, the last one possibly
      shorter; a size below 1 gives no group at all. */
  function Chunk<T>(xs: seq<T>, size: int): (chunks: seq<seq<T>>)
    ensures size < 1 ==> chunks == []
    ensures size >= 1 ==> Flatten(chunks) == xs
    ensures |chunks| <= |xs|
    ensures forall i :: 0 <= i < |chunks| ==> 0 < |chunks[i]| <= size
    ensures forall i :: 0 <= i < |chunks| - 1 ==> |chunks[i]| == size
    decreases |xs|
  {
    if size < 1 || |xs| == 0 then []
    else if |xs| <= size then
      assert Flatten([xs]) == xs + Flatten([]);
      [xs]
    else
      var rest := Chunk(xs[size..], size);
      assert xs[..size] + xs[size..] == xs;
      [xs[..size]] + rest
  }

  /** `ceil(n / size)` for a positive size, and 0 otherwise. */
  function CeilDiv(n: nat, size: int): nat
  {
    if size < 1 then 0 else (n + size - 1) / size
  }

  /** There are `ceil(|xs| / size)` groups. */
  lemma {:induction false} ChunkCount<T>(xs: seq<T>, size: int)
    ensures |Chunk(xs, size)| == CeilDiv(|xs|, size)
    decreases |xs|
  {
    if size < 1 {
    } else if |xs| == 0 {
      SmallDivision(size - 1, size);
    } else if |xs| <= size {
      DivisionStep(|xs| + size - 1, size);
      SmallDivision(|xs| - 1, size);
    } else {
      ChunkCount(xs[size..], size);
      DivisionStep(|xs| + size - 1, size);
      assert |Chunk(xs, size)| == 1 + |Chunk(xs[size..], size)|;
    }
  }

  lemma SmallDivision(a: int, b: int)
    requires 0 <= a < b
    ensures a / b == 0
  {
  }

  /** The groups laid end to end. */
  function Flatten<T>(groups: seq<seq<T>>): seq<T>
  {
    if groups == [] then [] else groups[0] + Flatten(groups[1..])
  }

  lemma DivisionStep(a: int, b: int)
    requires 0 < b <= a
    ensures a / b == (a - b) / b + 1
  {
    var q, r := (a - b) / b, (a - b) % b;
    var q2, r2 := a / b, a % b;
    var d := q2 - q - 1;
    assert b * q2 == b * q + b * (d + 1);
    assert b * d == r - r2;
  }

  /** The status text before any tag is appended: the title and a newline
      when the title is used and not empty, then the description. */
  function ComposeStatus(useTitle: bool, title: string, description: string): string
  {
    (if useTitle && title != "" then title + "\n" else "") + description
  }

  /** `s.substring(0, end)`, where `end` counts UTF-16 code units: the
      longest prefix of `s` that is at most `end` units long. Where `end`
      falls inside a surrogate pair, JavaScript keeps the pair's first unit
      alone, which is not a character; here the whole pair is left out. */
  function Substring(s: string, end: int): (r: string)
    ensures |r| <= |s| && r == s[..|r|]
    ensures Strings.Utf16Length(r) <= (if end < 0 then 0 else end)
    ensures Strings.Utf16Length(s) <= end ==> r == s
    ensures |r| < |s| ==> Strings.Utf16Length(r) + Strings.Utf16Units(s[|r|]) > end
    decreases |s|
  {
    if s == [] || end < Strings.Utf16Units(s[0]) then ""
    else
      var rest := Substring(s[1..], end - Strings.Utf16Units(s[0]));
      assert ([s[0]] + rest)[1..] == rest;
      [s[0]] + rest
  }

  /** On text inside the Basic Multilingual Plane the cut falls after `end`
      characters, or at the end of the text. */
  lemma SubstringBmp(s: string, end: int)
    requires forall i :: 0 <= i < |s| ==> s[i] as int < 0x10000
    ensures |Substring(s, end)| == if end <= 0 then 0 else if end < |s| then end else |s|
  {
    var r := Substring(s, end);
    Strings.Utf16LengthBmp(s);
    assert forall i :: 0 <= i < |r| ==> r[i] == s[i];
    Strings.Utf16LengthBmp(r);
  }

  /** `options.visibility || 'public'`. */
  function PostVisibility(visibility: string): string
  {
    if visibility == "" then "public" else visibility
  }

  /** The status options a post is made with. */
  datatype StatusOptions = StatusOptions(
    sensitive: bool,
    visibility: string,
    mediaIds: Option<seq<string>>,
    inReplyToId: Option<string>,
    spoilerText: Option<string>)

  /** One `postStatus(status, options)` call. */
  datatype StatusRequest = StatusRequest(status: string, options: StatusOptions)

  /** What a `postStatus` call gives back: the new status, or an exception. */
  datatype StatusReply = StatusPosted(id: string, url: string) | StatusThrew(message: string)

  /** The options every status of a post shares, with the chunk's media and
      the status it replies to. `spoiler_text` is set only when not empty. */
  function ChunkOptions(sensitive: bool, options: Options, mediaIds: Option<seq<string>>,
                        replyTo: Option<string>): StatusOptions
  {
    StatusOptions(sensitive, PostVisibility(options.visibility), mediaIds, replyTo,
                  if options.spoilerText != "" then Some(options.spoilerText) else None)
  }

  /** What the statuses of one thread share: the formatted tags, the text
      before any tag is appended, the character limit and the media chunks. */
  datatype Thread = Thread(o: Collaborators, sensitive: bool, options: Options, tags: seq<string>,
                           text: string, maxChars: int, chunks: seq<seq<string>>)
  {
    /** The text with the tags appended `n` times: the loop appends them to
        the previous chunk's text once more for every chunk. */
    function Tagged(n: nat): string
    {
      if n == 0 then text else o.appendTags(tags, Tagged(n - 1), maxChars)
    }

    /** The status sent for chunk `i`: its media, and a reply to the status
        the previous chunk created. */
    function Request(replies: seq<StatusReply>, i: nat): StatusRequest
      requires i < |chunks| && i <= |replies|
    {
      StatusRequest(Tagged(i + 1),
                    ChunkOptions(sensitive, options, Some(chunks[i]),
                                 if i == 0 then None else Some(IdOf(replies[i - 1]))))
    }

    /** The statuses sent for the first `n` chunks. */
    function Requests(replies: seq<StatusReply>, n: nat): (rs: seq<StatusRequest>)
      requires n <= |chunks| && n <= |replies|
      ensures |rs| == n
    {
      if n == 0 then [] else Requests(replies, n - 1) + [Request(replies, n - 1)]
    }

    /** Status `i` of the first `n` is the one sent for chunk `i`. */
    lemma {:induction false} RequestsAt(replies: seq<StatusReply>, n: nat)
      requires n <= |chunks| && n <= |replies|
      ensures forall i :: 0 <= i < n ==> Requests(replies, n)[i] == Request(replies, i)
    {
      if n > 0 {
        RequestsAt(replies, n - 1);
      }
    }
  }

  function IdOf(reply: StatusReply): string
  {
    if reply.StatusPosted? then reply.id else ""
  }

  /** The media ids the statuses carry, status after status. */
  function MediaOf(sent: seq<StatusRequest>): seq<seq<string>>
  {
    seq(|sent|, i requires 0 <= i < |sent| => sent[i].options.mediaIds.GetOr([]))
  }

  /** A whole thread carries each chunk's media, so together every media id of
      the chunks, in order. */
  lemma ThreadCarriesAllMedia(t: Thread, replies: seq<StatusReply>)
    requires |t.chunks| <= |replies|
    ensures MediaOf(t.Requests(replies, |t.chunks|)) == t.chunks
  {
    var rs := t.Requests(replies, |t.chunks|);
    t.RequestsAt(replies, |t.chunks|);
    assert forall i :: 0 <= i < |rs| ==> MediaOf(rs)[i] == t.chunks[i];
  }

  function UrlOf(reply: StatusReply): string
  {
    if reply.StatusPosted? then reply.url else ""
  }

  /** The source a thread reports, as the chunk loop keeps it: the first
      non-empty url among the first `n` replies. */
  function FirstUrl(replies: seq<StatusReply>, n: nat): string
    requires n <= |replies|
  {
    if n == 0 then ""
    else
      var before := FirstUrl(replies, n - 1);
      if before != "" then before else UrlOf(replies[n - 1])
  }

  /** The source is the url of the first reply that has one, or "" when none
      has. */
  lemma {:induction false} FirstUrlIsFirst(replies: seq<StatusReply>, n: nat)
    requires n <= |replies|
    ensures FirstUrl(replies, n) != "" ==>
              exists i :: 0 <= i < n && UrlOf(replies[i]) == FirstUrl(replies, n) &&
                forall j :: 0 <= j < i ==> UrlOf(replies[j]) == ""
    ensures FirstUrl(replies, n) == "" ==> forall i :: 0 <= i < n ==> UrlOf(replies[i]) == ""
  {
    if n > 0 {
      FirstUrlIsFirst(replies, n - 1);
    }
  }

  // ---------------------------------------------------------------------
  // Tags

  /** One tag with every character outside `[a-z0-9]` (any case) replaced by a
      blank, then split on blanks and joined again. */
  function SanitizeTag(tag: string): (r: string)
    ensures r == Strings.KeepAlphanumeric(tag)
  {
    var blanked := Strings.BlankNonAlphanumeric(tag);
    Strings.JoinSplitEmpty(blanked, ' ');
    Strings.RemoveBlanks(tag);
    Strings.Join(Strings.Split(blanked, ' '), "")
  }

  function SanitizeTags(tags: seq<string>): (r: seq<string>)
    ensures |r| == |tags|
    ensures forall i :: 0 <= i < |tags| ==> r[i] == Strings.KeepAlphanumeric(tags[i])
  {
    seq(|tags|, i requires 0 <= i < |tags| => SanitizeTag(tags[i]))
  }

  /** `formatTags`: the sanitised tags, through the base's tag parser, each
      with a leading '#'. */
  function FormatTags(o: Collaborators, tags: seq<string>): (formatted: seq<string>)
    ensures var parsed := o.parseTags(SanitizeTags(tags));
            |formatted| == |parsed| &&
            forall i :: 0 <= i < |parsed| ==> formatted[i] == "#" + parsed[i]
  {
    var parsed := o.parseTags(SanitizeTags(tags));
    seq(|parsed|, i requires 0 <= i < |parsed| => "#" + parsed[i])
  }

  /** When the tag parser only keeps (some of) the tags it is given, every
      formatted tag is '#' followed by one input tag's alphanumeric characters. */
  lemma FormattedTagsAreHashtags(o: Collaborators, tags: seq<string>, i: nat)
    requires forall xs: seq<string>, t: string :: t in o.parseTags(xs) ==> t in xs
    requires i < |FormatTags(o, tags)|
    ensures exists j :: 0 <= j < |tags| && FormatTags(o, tags)[i] == "#" + Strings.KeepAlphanumeric(tags[j])
  {
    var sanitized := SanitizeTags(tags);
    var parsed := o.parseTags(sanitized);
    assert parsed[i] in parsed;
    var j :| 0 <= j < |sanitized| && sanitized[j] == parsed[i];
    assert FormatTags(o, tags)[i] == "#" + Strings.KeepAlphanumeric(tags[j]);
  }

  /** The tag "neat stuff" is sanitised to "neatstuff". */
  lemma NeatStuffTag(tag: string)
    requires tag == "neat stuff"
    ensures SanitizeTag(tag) == "neatstuff"
  {
    var neat, stuff := "neat", "stuff";
    assert tag == neat + [' '] + stuff;
    Strings.KeepAlphanumericAround(neat, ' ', stuff);
    assert neat + stuff == "neatstuff";
  }

  // ---------------------------------------------------------------------
  // Media upload

  /** What the media endpoint answers to an upload: an exception (or a response
      the base's `verifyResponse` rejects), or a body. An absent url is "", and
      so is an `errors` field that JavaScript reads as false. */
  datatype UploadReply =
    | UploadThrew(message: string)
    | UploadAnswered(statusCode: int, id: string, url: string, errors: string)

  /** One upload request: the file and its alt text. */
  datatype UploadRequest = UploadRequest(file: PostFile, description: string)

  /** What the status endpoint answers to one poll: an exception (the request
      failed, or its answer has no body to read a url from), or the url of the
      processed media, "" while there is none. */
  datatype PollAnswer = PollThrew(message: string) | PollAnswered(url: string)

  /** Whether the poll loop runs: the upload is still processing or has no url. */
  predicate NeedsPolling(reply: UploadReply)
  {
    reply.UploadAnswered? && (reply.statusCode == ProcessingStatusCode || reply.url == "")
  }

  /** Whether the `k`-th poll finds a url (`answers` holds what the status
      endpoint says, poll by poll; past its end, no url). */
  predicate PollFindsUrl(answers: seq<PollAnswer>, k: nat)
  {
    k < |answers| && answers[k].PollAnswered? && answers[k].url != ""
  }

  /** Whether the `k`-th poll throws. */
  predicate PollThrows(answers: seq<PollAnswer>, k: nat)
  {
    k < |answers| && answers[k].PollThrew?
  }

  /** The number of polls the loop makes, counting from poll `k` when the
      polls before it neither found a url nor threw: it stops after the first
      poll that finds a url or throws, and after `MaxPolls` polls. */
  function PollsFrom(answers: seq<PollAnswer>, k: nat): (n: nat)
    requires k < MaxPolls
    ensures k < n <= MaxPolls
    ensures forall j :: k <= j < n - 1 ==> !PollFindsUrl(answers, j) && !PollThrows(answers, j)
    ensures n == MaxPolls || PollFindsUrl(answers, n - 1) || PollThrows(answers, n - 1)
    decreases MaxPolls - k
  {
    if k == MaxPolls - 1 || PollFindsUrl(answers, k) || PollThrows(answers, k) then k + 1
    else PollsFrom(answers, k + 1)
  }

  /** The status requests made after an upload: none unless it needs polling. */
  function Polls(reply: UploadReply, answers: seq<PollAnswer>): nat
  {
    if NeedsPolling(reply) then PollsFrom(answers, 0) else 0
  }

  /** What `uploadMedia` settles to: the exception of the upload or of its
      last poll, else the upload's errors, else the upload's id. */
  function UploadOutcome(reply: UploadReply, answers: seq<PollAnswer>): Result<string>
  {
    var polls := Polls(reply, answers);
    if reply.UploadThrew? then Err(reply.message)
    else if polls > 0 && PollThrows(answers, polls - 1) then Err(answers[polls - 1].message)
    else if reply.errors != "" then Err(reply.errors)
    else Ok(reply.id)
  }

  /** An upload succeeds exactly when the server answered without errors and
      no poll threw, and then gives the answer's id. Polls that do not throw
      never change the outcome: what they find is ignored. */
  lemma UploadOutcomeSpec(reply: UploadReply, answers: seq<PollAnswer>)
    ensures UploadOutcome(reply, answers).Ok? <==>
              && reply.UploadAnswered? && reply.errors == ""
              && forall j :: 0 <= j < Polls(reply, answers) ==> !PollThrows(answers, j)
    ensures UploadOutcome(reply, answers).Ok? ==> UploadOutcome(reply, answers).value == reply.id
    ensures (forall j :: 0 <= j < MaxPolls ==> !PollThrows(answers, j)) ==>
              UploadOutcome(reply, answers) == UploadOutcome(reply, [])
  {
  }

  predicate Uploaded(reply: UploadReply, answers: seq<PollAnswer>)
  {
    UploadOutcome(reply, answers).Ok?
  }

  /** `uploadMedia`: upload, then poll while processing, at most `MaxPolls`
      times, stopping at the first url; a poll that throws rejects the upload.
      Otherwise the id of the upload's own answer is returned, whatever the
      polls found. */
  method UploadMedia(reply: UploadReply, answers: seq<PollAnswer>) returns (r: Result<string>, statusRequests: nat)
    ensures r == UploadOutcome(reply, answers)
    ensures statusRequests == Polls(reply, answers)
  {
    if reply.UploadThrew? {
      return Err(reply.message), 0;
    }
    statusRequests := 0;
    if NeedsPolling(reply) {
      var i := 0;
      while i < MaxPolls
        invariant 0 <= i <= MaxPolls
        invariant statusRequests == i
        invariant i < MaxPolls ==> PollsFrom(answers, i) == PollsFrom(answers, 0)
        invariant i == MaxPolls ==> PollsFrom(answers, 0) == MaxPolls
        invariant forall k :: 0 <= k < i ==> !PollThrows(answers, k)
      {
        statusRequests := statusRequests + 1;
        if PollThrows(answers, i) {
          return Err(answers[i].message), statusRequests;
        }
        if PollFindsUrl(answers, i) {
          break;
        }
        i := i + 1;
      }
    }
    if reply.errors != "" {
      return Err(reply.errors), statusRequests;
    }
    r := Ok(reply.id);
  }

  predicate AllUploaded(uploads: seq<UploadReply>, answers: seq<seq<PollAnswer>>)
    requires |answers| == |uploads|
  {
    forall j :: 0 <= j < |uploads| ==> Uploaded(uploads[j], answers[j])
  }

  /** The ids the uploads answered with, in upload order. */
  function UploadedIds(uploads: seq<UploadReply>): (ids: seq<string>)
    ensures |ids| == |uploads|
  {
    seq(|uploads|, j requires 0 <= j < |uploads| =>
      if uploads[j].UploadAnswered? then uploads[j].id else "")
  }

  /** The upload phase of a file post: for each file in turn, a cancellation
      check (checkpoint `j` before file `j`) and then its upload. It stops at
      the first cancellation or failed upload. `uploads[j]` and `answers[j]`
      are the server's answers for file `j`. */
  method UploadFiles(cancel: CancelSchedule, files: seq<PostFile>, altText: string,
                     uploads: seq<UploadReply>, answers: seq<seq<PollAnswer>>)
    returns (ids: seq<string>, stop: Option<PostResponse>, requests: seq<UploadRequest>)
    requires |uploads| == |files| && |answers| == |files|
    ensures |requests| <= |files|
    ensures forall j :: 0 <= j < |requests| ==>
              requests[j] == UploadRequest(files[j], altText) && !cancel.ObservedAt(j)
    ensures stop.None? ==>
              |requests| == |files| && AllUploaded(uploads, answers) && ids == UploadedIds(uploads)
    ensures stop == Some(Cancelled) ==>
              && |requests| < |files| && cancel.ObservedAt(|requests|)
              && forall j :: 0 <= j < |requests| ==> Uploaded(uploads[j], answers[j])
    ensures stop.Some? && stop.value != Cancelled ==>
              && |requests| > 0
              && !Uploaded(uploads[|requests| - 1], answers[|requests| - 1])
              && stop.value == Rejected(UploadOutcome(uploads[|requests| - 1], answers[|requests| - 1]).message, None)
              && forall j :: 0 <= j < |requests| - 1 ==> Uploaded(uploads[j], answers[j])
  {
    ids, requests := [], [];
    var j := 0;
    while j < |files|
      invariant 0 <= j <= |files|
      invariant |requests| == j && |ids| == j
      invariant forall k :: 0 <= k < j ==>
                  && requests[k] == UploadRequest(files[k], altText)
                  && !cancel.ObservedAt(k)
                  && Uploaded(uploads[k], answers[k])
                  && ids[k] == uploads[k].id
    {
      if cancel.ObservedAt(j) {
        return ids, Some(Cancelled), requests;
      }
      requests := requests + [UploadRequest(files[j], altText)];
      var r, polls := UploadMedia(uploads[j], answers[j]);
      if r.Err? {
        return ids, Some(Rejected(r.message, None)), requests;
      }
      ids := ids + [r.value];
      j := j + 1;
    }
    stop := None;
  }

  // ---------------------------------------------------------------------
  // Threaded posting

  /** The chunk phase of a file post: for chunk `i`, a cancellation check
      (checkpoint `first + i`), then the status `t.Request(replies, i)`; one
      more check (checkpoint `first + |t.chunks|`) precedes the answer. It
      stops at the first cancellation or the first status the server refuses;
      statuses already posted stay posted. `replies[i]` is the server's answer
      to chunk `i`. */
  method PostChunks(t: Thread, cancel: CancelSchedule, first: nat, replies: seq<StatusReply>)
    returns (resp: PostResponse, sent: seq<StatusRequest>)
    requires |replies| >= |t.chunks|
    ensures |sent| <= |t.chunks|
    ensures sent == t.Requests(replies, |sent|)
    ensures forall k :: first <= k < first + |sent| ==> !cancel.ObservedAt(k)
    ensures forall i :: 0 <= i < |sent| - 1 ==> replies[i].StatusPosted?
    ensures resp.Posted? ==>
              && |sent| == |t.chunks|
              && (forall i :: 0 <= i < |sent| ==> replies[i].StatusPosted?)
              && !cancel.ObservedAt(first + |sent|)
              && resp.source == FirstUrl(replies, |sent|)
    ensures resp.Rejected? ==>
              && |sent| > 0
              && resp.chunkNumber == Some(|sent| - 1)
              && replies[|sent| - 1] == StatusThrew(resp.message)
    ensures resp.Cancelled? ==>
              && cancel.ObservedAt(first + |sent|)
              && forall i :: 0 <= i < |sent| ==> replies[i].StatusPosted?
  {
    var status := t.text;
    var lastId := "";
    var source := "";
    sent := [];
    var i := 0;
    while i < |t.chunks|
      invariant 0 <= i <= |t.chunks|
      invariant sent == t.Requests(replies, i)
      invariant forall k :: 0 <= k < i ==> replies[k].StatusPosted?
      invariant i > 0 ==> !cancel.ObservedAt(first + i - 1)
      invariant status == t.Tagged(i)
      invariant i > 0 ==> lastId == replies[i - 1].id
      invariant source == FirstUrl(replies, i)
    {
      if cancel.ObservedAt(first + i) {
        return Cancelled, sent;
      }
      var statusOptions := ChunkOptions(t.sensitive, t.options, Some(t.chunks[i]),
                                        if i != 0 then Some(lastId) else None);
      status := t.o.appendTags(t.tags, status, t.maxChars);
      assert status == t.Tagged(i + 1);
      sent := sent + [StatusRequest(status, statusOptions)];
      assert sent == t.Requests(replies, i + 1);
      if replies[i].StatusThrew? {
        return Rejected(replies[i].message, Some(i)), sent;
      }
      if source == "" {
        source := replies[i].url;
      }
      lastId := replies[i].id;
      i := i + 1;
    }
    if cancel.ObservedAt(first + i) {
      return Cancelled, sent;
    }
    resp := Posted(source);
  }

  // ---------------------------------------------------------------------
  // Validation

  /** What the per-file checks of a file validation depend on: the collaborators,
      the accepted file extensions, the image size limit in bytes and the
      account's autoscale flag. */
  datatype FileRules = FileRules(o: Collaborators, accepted: seq<string>, limit: int, autoScale: bool)
  {
    /** The over-limit file is scaled rather than refused. */
    predicate Scalable(f: FileRecord)
    {
      autoScale && f.fileType == Image && o.isScalableMimeType(f.mimetype)
    }

    /** The problems one file gives. */
    function Problems(f: FileRecord): seq<Diagnostic>
    {
      (if !o.supportsFileType(f, accepted) then [UnsupportedFormat(f.name, f.mimetype)] else [])
      + (if limit < f.size && !Scalable(f) then [SizeLimit(f.mimetype, limit)] else [])
    }

    /** The warnings one file gives. */
    function Warnings(f: FileRecord): seq<Diagnostic>
    {
      (if limit < f.size && Scalable(f) then [WillScaleSize(f.name, limit)] else [])
      + (if autoScale && f.fileType == Image && (f.height > MaxDimension || f.width > MaxDimension)
         then [WillScaleDimensions(f.name)] else [])
    }

    /** A file's format is a problem exactly when it is not accepted; its size
        is a problem exactly when it is over the limit and cannot be scaled, and
        a warning exactly when it is over the limit and can be; its dimensions
        are a warning exactly when an autoscaled image has a side over 4000
        pixels. Nothing else is said about a file. */
    lemma Classification(f: FileRecord)
      ensures UnsupportedFormat(f.name, f.mimetype) in Problems(f) <==> !o.supportsFileType(f, accepted)
      ensures SizeLimit(f.mimetype, limit) in Problems(f) <==> limit < f.size && !Scalable(f)
      ensures forall d :: d in Problems(f) ==>
                d == UnsupportedFormat(f.name, f.mimetype) || d == SizeLimit(f.mimetype, limit)
      ensures WillScaleSize(f.name, limit) in Warnings(f) <==> limit < f.size && Scalable(f)
      ensures WillScaleDimensions(f.name) in Warnings(f) <==>
                autoScale && f.fileType == Image && (f.height > MaxDimension || f.width > MaxDimension)
      ensures forall d :: d in Warnings(f) ==> d == WillScaleSize(f.name, limit) || d == WillScaleDimensions(f.name)
    {
    }

    /** What checking one file pushes onto the list of one kind. */
    function Check(kind: DiagnosticKind, f: FileRecord): seq<Diagnostic>
    {
      if kind == ProblemKind then Problems(f) else Warnings(f)
    }

    /** Each file's checks of one kind, in file order. */
    function PerFile(kind: DiagnosticKind, files: seq<FileRecord>): seq<seq<Diagnostic>>
    {
      seq(|files|, i requires 0 <= i < |files| => Check(kind, files[i]))
    }

    /** What the file loop pushes of one kind: every file's checks, file after
        file. */
    function Collected(kind: DiagnosticKind, files: seq<FileRecord>): seq<Diagnostic>
    {
      Concat(PerFile(kind, files), |files|)
    }

    /** Everything a checked file gives is among what is collected. */
    lemma CollectedIncludes(kind: DiagnosticKind, files: seq<FileRecord>, k: nat)
      requires k < |files|
      ensures forall d :: d in Check(kind, files[k]) ==> d in Collected(kind, files)
    {
      ConcatIncludes(PerFile(kind, files), |files|, k);
    }

    /** Everything collected comes from a checked file. */
    lemma CollectedFrom(kind: DiagnosticKind, files: seq<FileRecord>)
      ensures forall d :: d in Collected(kind, files) ==>
                exists k :: 0 <= k < |files| && d in Check(kind, files[k])
    {
      var groups := PerFile(kind, files);
      ConcatFrom(groups, |files|);
      forall k | 0 <= k < |files|
        ensures groups[k] == Check(kind, files[k])
      {
      }
    }

    /** What the file loop has pushed of one kind after its first `n` files. */
    function Pushed(kind: DiagnosticKind, files: seq<FileRecord>, n: nat): seq<Diagnostic>
      requires n <= |files|
    {
      Concat(PerFile(kind, files), n)
    }

    /** One more file pushes its own checks after everything before it. */
    lemma CollectedStep(kind: DiagnosticKind, files: seq<FileRecord>, start: seq<Diagnostic>,
                        pushed: seq<Diagnostic>, i: nat)
      requires i < |files|
      requires pushed == start + Pushed(kind, files, i)
      ensures pushed + Check(kind, files[i]) == start + Pushed(kind, files, i + 1)
    {
      var groups := PerFile(kind, files);
      ConcatStep(start, groups, i);
      assert groups[i] == Check(kind, files[i]);
    }

    /** No check of a file is about the description's length. */
    lemma CheckHasNoLength(kind: DiagnosticKind, f: FileRecord)
      ensures forall d :: d in Check(kind, f) ==> !d.IsLengthDiagnostic()
    {
    }

    /** No per-file check is about the description's length. */
    lemma CollectedHasNoLength(kind: DiagnosticKind, files: seq<FileRecord>)
      ensures forall d :: d in Collected(kind, files) ==> !d.IsLengthDiagnostic()
    {
      var groups := PerFile(kind, files);
      forall k | 0 <= k < |files|
        ensures forall d: Diagnostic :: d in groups[k] ==> !d.IsLengthDiagnostic()
      {
        CheckHasNoLength(kind, files[k]);
      }
      ConcatHasNoLength(groups, |files|);
    }
  }

  /** The hashtag warning: either part has more than one tag and the account's
      visibility is not exactly "public" (an unset visibility included). */
  predicate HashtagWarning(part: SubmissionPart, defaultPart: DefaultPart)
  {
    (|part.tags| > 1 || |defaultPart.tags| > 1) && part.visibility != "public"
  }

  /** The body of the `files.forEach` of `validateFileSubmission`: one file's
      problems and warnings pushed after those already there. */
  method CheckFile(rules: FileRules, f: FileRecord, problems: seq<Diagnostic>, warnings: seq<Diagnostic>)
    returns (problems': seq<Diagnostic>, warnings': seq<Diagnostic>)
    ensures problems' == problems + rules.Check(ProblemKind, f)
    ensures warnings' == warnings + rules.Check(WarningKind, f)
  {
    problems', warnings' := problems, warnings;
    if !rules.o.supportsFileType(f, rules.accepted) {
      problems' := problems' + [UnsupportedFormat(f.name, f.mimetype)];
    }
    if rules.limit < f.size {
      if rules.autoScale && f.fileType == Image && rules.o.isScalableMimeType(f.mimetype) {
        warnings' := warnings' + [WillScaleSize(f.name, rules.limit)];
      } else {
        problems' := problems' + [SizeLimit(f.mimetype, rules.limit)];
      }
    }
    if rules.autoScale && f.fileType == Image && (f.height > MaxDimension || f.width > MaxDimension) {
      warnings' := warnings' + [WillScaleDimensions(f.name)];
    }
  }

  /** The `files.forEach` of `validateFileSubmission`: every file's checks, in
      file order, pushed after what the lists already hold. */
  method CheckFiles(rules: FileRules, files: seq<FileRecord>, problems0: seq<Diagnostic>,
                    warnings0: seq<Diagnostic>)
    returns (problems: seq<Diagnostic>, warnings: seq<Diagnostic>)
    ensures problems == problems0 + rules.Collected(ProblemKind, files)
    ensures warnings == warnings0 + rules.Collected(WarningKind, files)
  {
    problems, warnings := problems0, warnings0;
    var i := 0;
    while i < |files|
      invariant 0 <= i <= |files|
      invariant problems == problems0 + rules.Pushed(ProblemKind, files, i)
      invariant warnings == warnings0 + rules.Pushed(WarningKind, files, i)
    {
      rules.CollectedStep(ProblemKind, files, problems0, problems, i);
      rules.CollectedStep(WarningKind, files, warnings0, warnings, i);
      problems, warnings := CheckFile(rules, files[i], problems, warnings);
      i := i + 1;
    }
  }

  /** What `validateFileSubmission` returns, given the cached instance info:
      the length warning, then what the files give, then the hashtag warning. */
  function FileValidation(o: Collaborators, sub: FileSubmission, part: SubmissionPart,
                          defaultPart: DefaultPart, info: Option<InstanceInfo>): ValidationParts
    requires Readable(sub)
  {
    var rules := FileRules(o, AcceptedFiles, MaxImageSize(info), part.autoScale);
    var files := ValidatedFiles(sub, part.accountId);
    ValidationParts(
      rules.Collected(ProblemKind, files),
      LengthWarning(o, part, defaultPart, info)
      + rules.Collected(WarningKind, files)
      + (if HashtagWarning(part, defaultPart) then [HashtagsNeedPublic] else []))
  }

  /** The length warning: given when the description is over the instance's
      character limit, measured in UTF-16 code units. */
  function LengthWarning(o: Collaborators, part: SubmissionPart, defaultPart: DefaultPart,
                         info: Option<InstanceInfo>): seq<Diagnostic>
  {
    if Strings.Utf16Length(ValidatedDescription(o, defaultPart, part, None)) > MaxChars(info)
    then [DescriptionTooLong(MaxChars(info))] else []
  }

  /** A description over the limit gives exactly one length diagnostic, the
      first warning; one within it gives none; no problem is about the length. */
  lemma FileValidationLength(o: Collaborators, sub: FileSubmission, part: SubmissionPart,
                             defaultPart: DefaultPart, info: Option<InstanceInfo>)
    requires Readable(sub)
    ensures var v := FileValidation(o, sub, part, defaultPart, info);
            var over := Strings.Utf16Length(ValidatedDescription(o, defaultPart, part, None)) > MaxChars(info);
            && (forall d :: d in v.problems ==> !d.IsLengthDiagnostic())
            && (over ==> |v.warnings| > 0 && v.warnings[0] == DescriptionTooLong(MaxChars(info)))
            && (forall i :: 0 <= i < |v.warnings| ==> (v.warnings[i].IsLengthDiagnostic() <==> over && i == 0))
  {
    var rules := FileRules(o, AcceptedFiles, MaxImageSize(info), part.autoScale);
    var files := ValidatedFiles(sub, part.accountId);
    var lengthPart := LengthWarning(o, part, defaultPart, info);
    var filePart := rules.Collected(WarningKind, files);
    var tagPart := if HashtagWarning(part, defaultPart) then [HashtagsNeedPublic] else [];
    var warnings := lengthPart + filePart + tagPart;
    rules.CollectedHasNoLength(ProblemKind, files);
    rules.CollectedHasNoLength(WarningKind, files);
    forall i | |lengthPart| <= i < |warnings|
      ensures !warnings[i].IsLengthDiagnostic()
    {
      if i < |lengthPart| + |filePart| {
        assert warnings[i] == filePart[i - |lengthPart|];
      } else {
        assert warnings[i] == tagPart[i - |lengthPart| - |filePart|];
      }
    }
  }

  /** Each file the validator looks at is classified: an unsupported format is
      a problem; a file over the image size limit is a warning when it can be
      scaled and a problem otherwise; an autoscaled image over 4000 pixels on
      a side is a warning. */
  lemma FileValidationFiles(o: Collaborators, sub: FileSubmission, part: SubmissionPart,
                            defaultPart: DefaultPart, info: Option<InstanceInfo>, k: nat)
    requires Readable(sub)
    requires k < |ValidatedFiles(sub, part.accountId)|
    ensures var v := FileValidation(o, sub, part, defaultPart, info);
            var rules := FileRules(o, AcceptedFiles, MaxImageSize(info), part.autoScale);
            var f := ValidatedFiles(sub, part.accountId)[k];
            && (!o.supportsFileType(f, AcceptedFiles) ==> UnsupportedFormat(f.name, f.mimetype) in v.problems)
            && (rules.limit < f.size && rules.Scalable(f) ==> WillScaleSize(f.name, rules.limit) in v.warnings)
            && (rules.limit < f.size && !rules.Scalable(f) ==> SizeLimit(f.mimetype, rules.limit) in v.problems)
            && ((part.autoScale && f.fileType == Image && (f.height > MaxDimension || f.width > MaxDimension))
                  ==> WillScaleDimensions(f.name) in v.warnings)
  {
    var rules := FileRules(o, AcceptedFiles, MaxImageSize(info), part.autoScale);
    var files := ValidatedFiles(sub, part.accountId);
    rules.CollectedIncludes(ProblemKind, files, k);
    rules.CollectedIncludes(WarningKind, files, k);
    rules.Classification(files[k]);
  }

  /** Every problem comes from one of the files the validator looks at, and so
      does every warning except the length and hashtag warnings. */
  lemma FileValidationSources(o: Collaborators, sub: FileSubmission, part: SubmissionPart,
                              defaultPart: DefaultPart, info: Option<InstanceInfo>)
    requires Readable(sub)
    ensures var v := FileValidation(o, sub, part, defaultPart, info);
            var rules := FileRules(o, AcceptedFiles, MaxImageSize(info), part.autoScale);
            var files := ValidatedFiles(sub, part.accountId);
            && (forall d :: d in v.problems ==>
                  exists k :: 0 <= k < |files| && d in rules.Problems(files[k]))
            && (forall d :: d in v.warnings && d != HashtagsNeedPublic && !d.IsLengthDiagnostic() ==>
                  exists k :: 0 <= k < |files| && d in rules.Warnings(files[k]))
  {
    var rules := FileRules(o, AcceptedFiles, MaxImageSize(info), part.autoScale);
    var files := ValidatedFiles(sub, part.accountId);
    rules.CollectedFrom(ProblemKind, files);
    rules.CollectedFrom(WarningKind, files);
  }

  /** The hashtag warning is given exactly when a part has several tags and the
      post is not public. */
  lemma FileValidationHashtags(o: Collaborators, sub: FileSubmission, part: SubmissionPart,
                               defaultPart: DefaultPart, info: Option<InstanceInfo>)
    requires Readable(sub)
    ensures (HashtagsNeedPublic in FileValidation(o, sub, part, defaultPart, info).warnings)
              <==> HashtagWarning(part, defaultPart)
  {
    var rules := FileRules(o, AcceptedFiles, MaxImageSize(info), part.autoScale);
    var files := ValidatedFiles(sub, part.accountId);
    rules.CollectedFrom(WarningKind, files);
    forall k | 0 <= k < |files|
      ensures HashtagsNeedPublic !in rules.Warnings(files[k])
    {
      rules.Classification(files[k]);
    }
  }

  // ---------------------------------------------------------------------
  // The adapter

  /** A logged-in account: account data with a token. */
  predicate HasToken(data: Option<AccountData>)
  {
    data.Some? && data.value.token != ""
  }

  class Mastodon {
    /** The account-capability cache: the instance info stored per account. */
    var instanceInfo: map<string, InstanceInfo>

    constructor ()
      ensures instanceInfo == map[]
    {
      instanceInfo := map[];
    }

    /** `getAccountInfo(accountId, INFO_KEY)`. */
    function AccountInfo(accountId: string): Option<InstanceInfo>
      reads this
    {
      if accountId in instanceInfo then Some(instanceInfo[accountId]) else None
    }

    /** `checkLoginStatus`: logged in exactly when the account data holds a
        token; only then is the instance asked for its information (`instance`
        is its answer), which is stored for the account. */
    method CheckLoginStatus(accountId: string, data: Option<AccountData>, instance: Result<InstanceInfo>)
      returns (r: Result<LoginResponse>)
      modifies this
      ensures !HasToken(data) ==>
                r == Ok(LoginResponse(false, None)) && instanceInfo == old(instanceInfo)
      ensures HasToken(data) && instance.Ok? ==>
                && r == Ok(LoginResponse(true, Some(data.value.username)))
                && instanceInfo == old(instanceInfo)[accountId := instance.value]
      ensures HasToken(data) && instance.Err? ==>
                r == Err(instance.message) && instanceInfo == old(instanceInfo)
    {
      var status := LoginResponse(false, None);
      if HasToken(data) {
        if instance.Err? {
          return Err(instance.message);
        }
        instanceInfo := instanceInfo[accountId := instance.value];
        status := LoginResponse(true, Some(data.value.username));
      }
      r := Ok(status);
    }

    /** `getScalingOptions`: 4000 x 4000 always; the size limit is the
        instance's image or video limit when its media limits are cached, and
        300 MB when they are not. */
    function GetScalingOptions(file: FileRecord, accountId: string): (r: ScalingOptions)
      reads this
      ensures r.maxWidth == Some(MaxDimension) && r.maxHeight == Some(MaxDimension)
      ensures var info := AccountInfo(accountId);
              if info.Some? && info.value.mediaAttachments.Some? then
                var limits := info.value.mediaAttachments.value;
                r.maxSize == if file.fileType == Image then limits.imageSizeLimit else limits.videoSizeLimit
              else
                r.maxSize == Some(MBtoBytes(300))
    {
      var info := AccountInfo(accountId);
      if info.Some? && info.value.mediaAttachments.Some? then
        var limits := info.value.mediaAttachments.value;
        ScalingOptions(Some(MaxDimension), Some(MaxDimension),
                       if file.fileType == Image then limits.imageSizeLimit else limits.videoSizeLimit)
      else
        ScalingOptions(Some(MaxDimension), Some(MaxDimension), Some(MBtoBytes(300)))
    }

    /** The thread a file post makes of the uploaded ids: chunks of the
        instance's attachment limit (4 when unknown), the text cut to its
        character limit (500 when unknown) before any tag is appended, marked
        sensitive unless the rating is general. */
    function FileThread(o: Collaborators, data: FilePostData<Options>, ids: seq<string>): Thread
      reads this
    {
      var info := AccountInfo(data.accountId);
      Thread(o, data.rating != General, data.options, FormatTags(o, data.tags),
             Substring(ComposeStatus(data.options.useTitle, data.title, data.description), MaxChars(info)),
             MaxChars(info), Chunk(ids, ChunkSize(info)))
    }

    /** `postFileSubmission`. Checkpoints `0 .. n - 1` precede the uploads of the
        `n` files, checkpoint `n + i` precedes chunk `i`, and the checkpoint
        after the last chunk precedes the answer. */
    method PostFileSubmission(o: Collaborators, cancel: CancelSchedule, data: FilePostData<Options>,
                              uploads: seq<UploadReply>, answers: seq<seq<PollAnswer>>, replies: seq<StatusReply>)
      returns (resp: PostResponse, uploadRequests: seq<UploadRequest>, sent: seq<StatusRequest>)
      requires |uploads| == |data.Files()| && |answers| == |data.Files()|
      requires |replies| >= |data.Files()|
      ensures var n := |data.Files()|;
              && |uploadRequests| <= n
              && (forall j :: 0 <= j < |uploadRequests| ==>
                    uploadRequests[j] == UploadRequest(data.Files()[j], data.options.altText)
                    && !cancel.ObservedAt(j))
              && (|sent| > 0 ==> |uploadRequests| == n && AllUploaded(uploads, answers))
      ensures var n := |data.Files()|;
              var t := FileThread(o, data, UploadedIds(uploads));
              && |sent| <= |t.chunks|
              && sent == t.Requests(replies, |sent|)
              && (forall k :: n <= k < n + |sent| ==> !cancel.ObservedAt(k))
              && (forall i :: 0 <= i < |sent| - 1 ==> replies[i].StatusPosted?)
      ensures var n := |data.Files()|;
              var m := ChunkSize(AccountInfo(data.accountId));
              resp.Posted? ==>
                && |uploadRequests| == n && AllUploaded(uploads, answers)
                && |sent| == CeilDiv(n, m)
                && (m >= 1 ==> Flatten(MediaOf(sent)) == UploadedIds(uploads))
                && (forall i :: 0 <= i < |sent| ==> replies[i].StatusPosted?)
                && !cancel.ObservedAt(n + |sent|)
                && resp.source == FirstUrl(replies, |sent|)
      ensures resp.Rejected? && resp.chunkNumber.Some? ==>
                && |sent| > 0
                && resp.chunkNumber == Some(|sent| - 1)
                && replies[|sent| - 1] == StatusThrew(resp.message)
      ensures resp.Rejected? && resp.chunkNumber.None? ==>
                && sent == [] && |uploadRequests| > 0
                && !Uploaded(uploads[|uploadRequests| - 1], answers[|uploadRequests| - 1])
                && resp.message == UploadOutcome(uploads[|uploadRequests| - 1], answers[|uploadRequests| - 1]).message
                && forall j :: 0 <= j < |uploadRequests| - 1 ==> Uploaded(uploads[j], answers[j])
      ensures var n := |data.Files()|;
              resp.Cancelled? ==>
                || (|uploadRequests| < n && sent == [] && cancel.ObservedAt(|uploadRequests|))
                || (|uploadRequests| == n && AllUploaded(uploads, answers) && cancel.ObservedAt(n + |sent|)
                    && forall i :: 0 <= i < |sent| ==> replies[i].StatusPosted?)
    {
      var files := data.Files();
      var ids, stop;
      ids, stop, uploadRequests := UploadFiles(cancel, files, data.options.altText, uploads, answers);
      if stop.Some? {
        return stop.value, uploadRequests, [];
      }
      var t := FileThread(o, data, ids);
      resp, sent := PostChunks(t, cancel, |files|, replies);
      if resp.Posted? {
        ThreadCarriesAllMedia(t, replies);
        ChunkCount(ids, ChunkSize(AccountInfo(data.accountId)));
      }
    }

    /** `postNotificationSubmission`: one status without media, its text not
        cut to the character limit; one cancellation check precedes it. */
    method PostNotificationSubmission(o: Collaborators, cancel: CancelSchedule, data: PostData<Options>,
                                      reply: StatusReply)
      returns (resp: PostResponse, sent: Option<StatusRequest>)
      ensures cancel.ObservedAt(0) ==> resp == Cancelled && sent == None
      ensures !cancel.ObservedAt(0) ==>
                && sent == Some(StatusRequest(
                     o.appendTags(FormatTags(o, data.tags),
                                  ComposeStatus(data.options.useTitle, data.title, data.description),
                                  MaxChars(AccountInfo(data.accountId))),
                     ChunkOptions(data.rating != General, data.options, None, None)))
                && resp == (if reply.StatusPosted? then Posted(reply.url) else Rejected(reply.message, None))
    {
      var maxChars := MaxChars(AccountInfo(data.accountId));
      var statusOptions := ChunkOptions(data.rating != General, data.options, None, None);
      var status := ComposeStatus(data.options.useTitle, data.title, data.description);
      status := o.appendTags(FormatTags(o, data.tags), status, maxChars);
      if cancel.ObservedAt(0) {
        return Cancelled, None;
      }
      sent := Some(StatusRequest(status, statusOptions));
      resp := if reply.StatusPosted? then Posted(reply.url) else Rejected(reply.message, None);
    }

    /** `validateFileSubmission`. */
    method ValidateFileSubmission(o: Collaborators, sub: FileSubmission, part: SubmissionPart,
                                  defaultPart: DefaultPart)
      returns (v: ValidationParts)
      requires Readable(sub)
      ensures v == FileValidation(o, sub, part, defaultPart, AccountInfo(part.accountId))
    {
      var problems: seq<Diagnostic> := [];
      var warnings: seq<Diagnostic> := [];
      var description := ValidatedDescription(o, defaultPart, part, None);
      var info := AccountInfo(part.accountId);
      var maxChars := MaxChars(info);
      if Strings.Utf16Length(description) > maxChars {
        warnings := warnings + [DescriptionTooLong(maxChars)];
      }
      var files := ValidatedFiles(sub, part.accountId);
      var limit := MaxImageSize(info);
      var rules := FileRules(o, AcceptedFiles, limit, part.autoScale);
      ghost var lengthPart := warnings;
      problems, warnings := CheckFiles(rules, files, problems, warnings);
      assert lengthPart == LengthWarning(o, part, defaultPart, info);
      if HashtagWarning(part, defaultPart) {
        warnings := warnings + [HashtagsNeedPublic];
      }
      v := ValidationParts(problems, warnings);
    }

    /** `validateNotificationSubmission`: never a problem; the length warning
        exactly when the description is over the character limit, and nothing
        else. */
    function ValidateNotificationSubmission(o: Collaborators, part: SubmissionPart,
                                            defaultPart: DefaultPart): (v: ValidationParts)
      reads this
      ensures v.problems == []
      ensures var maxChars := MaxChars(AccountInfo(part.accountId));
              && |v.warnings| == (if Strings.Utf16Length(ValidatedDescription(o, defaultPart, part, None)) > maxChars then 1 else 0)
              && forall d :: d in v.warnings ==> d == DescriptionTooLong(maxChars)
    {
      var maxChars := MaxChars(AccountInfo(part.accountId));
      var warnings := if Strings.Utf16Length(ValidatedDescription(o, defaultPart, part, None)) > maxChars
                      then [DescriptionTooLong(maxChars)] else [];
      ValidationParts([], warnings)
    }
  }
}
