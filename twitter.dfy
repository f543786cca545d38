/** The Twitter adapter: the login check, the scaling policy, the two posts
    (each one request to the OAuth relay) and the two validators. The adapter
    keeps no state of its own. */
module TwitterAdapter {
  import opened Wrappers
  import opened Submission
  import opened Website
  import Strings

  /** The file extensions the adapter accepts. */
  const AcceptedFiles: seq<string> := ["jpeg", "jpg", "png", "gif", "webp", "mp4", "mov"]

  /** The length, in UTF-16 code units, a post may have. */
  const MaxDescriptionLength := 280
  /** The characters a link is counted as when the description is measured. */
  const LinkReserve: nat := 23

  /** The stored credentials of an account; an absent field is "". */
  datatype TwitterAccountData = TwitterAccountData(oauthToken: string, oauthTokenSecret: string, screenName: string)

  /** The account's options for a file post; `contentBlur` is passed on as it is. */
  datatype TwitterFileOptions = TwitterFileOptions(contentBlur: Option<string>)

  /** `getScalingOptions`: only a size limit, 5 MB, whatever the file. */
  function GetScalingOptions(file: FileRecord): (r: ScalingOptions)
    ensures r.maxWidth.None? && r.maxHeight.None?
    ensures r.maxSize == Some(MBtoBytes(5)) && r.maxSize.value == 5 * 1024 * 1024
  {
    ScalingOptions(None, None, Some(MBtoBytes(5)))
  }

  /** `checkLoginStatus`: logged in exactly when there is account data with an
      OAuth token, and then under the account's screen name. */
  function CheckLoginStatus(data: Option<TwitterAccountData>): (r: LoginResponse)
    ensures r.loggedIn <==> data.Some? && data.value.oauthToken != ""
    ensures r.username.Some? <==> r.loggedIn
    ensures r.loggedIn ==> r.username.value == data.value.screenName
  {
    if data.Some? && data.value.oauthToken != "" then LoginResponse(true, Some(data.value.screenName))
    else LoginResponse(false, None)
  }

  // ---------------------------------------------------------------------
  // Posting

  /** The JSON body sent to the relay. The title is always empty; a
      notification sends no files and no options. */
  datatype TwitterForm = TwitterForm(
    token: string,
    secret: string,
    title: string,
    description: string,
    tags: seq<string>,
    files: Option<seq<PostFile>>,
    rating: Rating,
    contentBlur: Option<string>)

  /** The relay's answer: whether it posted, the post's url, and its error. */
  datatype TwitterReply = TwitterReply(success: bool, url: string, error: string)

  /** The form of a file post: the credentials, the text fields, every file
      (the primary one first) and the blur option. */
  function FileForm(data: FilePostData<TwitterFileOptions>, account: TwitterAccountData): (form: TwitterForm)
    ensures form.files.Some? && |form.files.value| == 1 + |data.additional|
    ensures form.files.value[0] == data.primary && form.files.value[1..] == data.additional
    ensures form.title == "" && form.description == data.description && form.tags == data.tags
    ensures form.token == account.oauthToken && form.secret == account.oauthTokenSecret
  {
    TwitterForm(account.oauthToken, account.oauthTokenSecret, "", data.description, data.tags,
                Some(data.Files()), data.rating, data.options.contentBlur)
  }

  /** The form of a notification post: no files and no options. */
  function NotificationForm<O>(data: PostData<O>, account: TwitterAccountData): (form: TwitterForm)
    ensures form.files.None? && form.contentBlur.None?
    ensures form.title == "" && form.description == data.description && form.tags == data.tags
    ensures form.token == account.oauthToken && form.secret == account.oauthTokenSecret
  {
    TwitterForm(account.oauthToken, account.oauthTokenSecret, "", data.description, data.tags,
                None, data.rating, None)
  }

  /** What a post answers once the relay has replied: the post's url on
      success, and otherwise the relay's error. */
  function Answer(reply: TwitterReply): (resp: PostResponse)
    ensures resp.Posted? <==> reply.success
    ensures resp.Posted? ==> resp.source == reply.url
    ensures !resp.Posted? ==> resp == Rejected(reply.error, None)
  {
    if reply.success then Posted(reply.url) else Rejected(reply.error, None)
  }

  /** `postFileSubmission`: one cancellation check (checkpoint 0), then the
      form is sent; `reply` is the relay's answer. */
  method PostFileSubmission(cancel: CancelSchedule, data: FilePostData<TwitterFileOptions>,
                            account: TwitterAccountData, reply: TwitterReply)
    returns (resp: PostResponse, sent: Option<TwitterForm>)
    ensures cancel.ObservedAt(0) <==> resp.Cancelled?
    ensures cancel.ObservedAt(0) ==> sent == None
    ensures !cancel.ObservedAt(0) ==>
              && sent == Some(FileForm(data, account))
              && resp == Answer(reply)
  {
    var form := FileForm(data, account);
    if cancel.ObservedAt(0) {
      return Cancelled, None;
    }
    sent := Some(form);
    resp := if reply.success then Posted(reply.url) else Rejected(reply.error, None);
  }

  /** `postNotificationSubmission`: the same, with the notification form. */
  method PostNotificationSubmission<O>(cancel: CancelSchedule, data: PostData<O>,
                                       account: TwitterAccountData, reply: TwitterReply)
    returns (resp: PostResponse, sent: Option<TwitterForm>)
    ensures cancel.ObservedAt(0) <==> resp.Cancelled?
    ensures cancel.ObservedAt(0) ==> sent == None
    ensures !cancel.ObservedAt(0) ==>
              && sent == Some(NotificationForm(data, account))
              && resp == Answer(reply)
  {
    var form := NotificationForm(data, account);
    if cancel.ObservedAt(0) {
      return Cancelled, None;
    }
    sent := Some(form);
    resp := if reply.success then Posted(reply.url) else Rejected(reply.error, None);
  }

  // ---------------------------------------------------------------------
  // Validation

  /** The size limit of one file, in MB: 15 for a video or a GIF, 5 otherwise. */
  function MaxMB(f: FileRecord): nat
  {
    if f.fileType == Video || f.mimetype == "image/gif" then 15 else 5
  }

  /** What the per-file checks of a file validation depend on: the
      collaborators, the accepted file extensions and the account's autoscale
      flag. */
  datatype FileRules = FileRules(o: Collaborators, accepted: seq<string>, autoScale: bool)
  {
    /** The over-limit file is scaled rather than refused. */
    predicate Scalable(f: FileRecord)
    {
      autoScale && f.fileType == Image && o.isScalableMimeType(f.mimetype)
    }

    /** A file's size limit in bytes. */
    function Limit(f: FileRecord): nat
    {
      MBtoBytes(MaxMB(f))
    }

    /** The problems one file gives. */
    function Problems(f: FileRecord): seq<Diagnostic>
    {
      (if !o.supportsFileType(f, accepted) then [UnsupportedFormat(f.name, f.mimetype)] else [])
      + (if Limit(f) < f.size && !Scalable(f) then [SizeLimit(f.mimetype, Limit(f))] else [])
    }

    /** The warnings one file gives. */
    function Warnings(f: FileRecord): seq<Diagnostic>
    {
      if Limit(f) < f.size && Scalable(f) then [WillScaleSize(f.name, Limit(f))] else []
    }

    /** A file's format is a problem exactly when it is not accepted; its size
        is a problem exactly when it is over its limit and cannot be scaled,
        and a warning exactly when it is over its limit and can be. The limit
        is 15 MB for a video or a GIF and 5 MB for anything else. Nothing else
        is said about a file. */
    lemma Classification(f: FileRecord)
      ensures UnsupportedFormat(f.name, f.mimetype) in Problems(f) <==> !o.supportsFileType(f, accepted)
      ensures SizeLimit(f.mimetype, Limit(f)) in Problems(f) <==> Limit(f) < f.size && !Scalable(f)
      ensures forall d :: d in Problems(f) ==>
                d == UnsupportedFormat(f.name, f.mimetype) || d == SizeLimit(f.mimetype, Limit(f))
      ensures WillScaleSize(f.name, Limit(f)) in Warnings(f) <==> Limit(f) < f.size && Scalable(f)
      ensures forall d :: d in Warnings(f) ==> d == WillScaleSize(f.name, Limit(f))
      ensures Limit(f) == if f.fileType == Video || f.mimetype == "image/gif" then 15 * 1048576 else 5 * 1048576
    {
    }

    /** What checking one file pushes onto the list of one kind. */
    function Check(kind: DiagnosticKind, f: FileRecord): seq<Diagnostic>
    {
      if kind == ProblemKind then Problems(f) else Warnings(f)
    }

    /** Each file's checks of one kind, in file order. */
    function PerFile(kind: DiagnosticKind, files: seq<FileRecord>): seq<seq<Diagnostic>>
    {
      seq(|files|, i requires 0 <= i < |files| => Check(kind, files[i]))
    }

    /** What the file loop pushes of one kind: every file's checks, file after
        file. */
    function Collected(kind: DiagnosticKind, files: seq<FileRecord>): seq<Diagnostic>
    {
      Concat(PerFile(kind, files), |files|)
    }

    /** Everything a checked file gives is among what is collected. */
    lemma CollectedIncludes(kind: DiagnosticKind, files: seq<FileRecord>, k: nat)
      requires k < |files|
      ensures forall d :: d in Check(kind, files[k]) ==> d in Collected(kind, files)
    {
      ConcatIncludes(PerFile(kind, files), |files|, k);
    }

    /** Everything collected comes from a checked file. */
    lemma CollectedFrom(kind: DiagnosticKind, files: seq<FileRecord>)
      ensures forall d :: d in Collected(kind, files) ==>
                exists k :: 0 <= k < |files| && d in Check(kind, files[k])
    {
      var groups := PerFile(kind, files);
      ConcatFrom(groups, |files|);
      forall k | 0 <= k < |files|
        ensures groups[k] == Check(kind, files[k])
      {
      }
    }

    /** What the file loop has pushed of one kind after its first `n` files. */
    function Pushed(kind: DiagnosticKind, files: seq<FileRecord>, n: nat): seq<Diagnostic>
      requires n <= |files|
    {
      Concat(PerFile(kind, files), n)
    }

    /** One more file pushes its own checks after everything before it. */
    lemma CollectedStep(kind: DiagnosticKind, files: seq<FileRecord>, start: seq<Diagnostic>,
                        pushed: seq<Diagnostic>, i: nat)
      requires i < |files|
      requires pushed == start + Pushed(kind, files, i)
      ensures pushed + Check(kind, files[i]) == start + Pushed(kind, files, i + 1)
    {
      var groups := PerFile(kind, files);
      ConcatStep(start, groups, i);
      assert groups[i] == Check(kind, files[i]);
    }

    /** No check of a file is about the description's length. */
    lemma CheckHasNoLength(kind: DiagnosticKind, f: FileRecord)
      ensures forall d :: d in Check(kind, f) ==> !d.IsLengthDiagnostic()
    {
    }

    /** No per-file check is about the description's length. */
    lemma CollectedHasNoLength(kind: DiagnosticKind, files: seq<FileRecord>)
      ensures forall d :: d in Collected(kind, files) ==> !d.IsLengthDiagnostic()
    {
      var groups := PerFile(kind, files);
      forall k | 0 <= k < |files|
        ensures forall d: Diagnostic :: d in groups[k] ==> !d.IsLengthDiagnostic()
      {
        CheckHasNoLength(kind, files[k]);
      }
      ConcatHasNoLength(groups, |files|);
    }
  }

  /** The length warning of both validators: given when the description,
      each link counted as 23 characters, is over 280 UTF-16 code units. */
  function LengthWarning(o: Collaborators, part: SubmissionPart, defaultPart: DefaultPart): seq<Diagnostic>
  {
    var length := Strings.Utf16Length(ValidatedDescription(o, defaultPart, part, Some(LinkReserve)));
    if length > MaxDescriptionLength then [DescriptionMayExceed(length)] else []
  }

  /** What `validateFileSubmission` returns: the length warning, then what
      the files give. */
  function FileValidation(o: Collaborators, sub: FileSubmission, part: SubmissionPart,
                          defaultPart: DefaultPart): ValidationParts
    requires Readable(sub)
  {
    var rules := FileRules(o, AcceptedFiles, part.autoScale);
    var files := ValidatedFiles(sub, part.accountId);
    ValidationParts(
      rules.Collected(ProblemKind, files),
      LengthWarning(o, part, defaultPart) + rules.Collected(WarningKind, files))
  }

  /** The check of one file: its format, then its size against 15 MB for a
      video or a GIF and 5 MB otherwise. */
  method CheckFile(rules: FileRules, f: FileRecord, problems: seq<Diagnostic>, warnings: seq<Diagnostic>)
    returns (problems': seq<Diagnostic>, warnings': seq<Diagnostic>)
    ensures problems' == problems + rules.Check(ProblemKind, f)
    ensures warnings' == warnings + rules.Check(WarningKind, f)
  {
    problems', warnings' := problems, warnings;
    if !rules.o.supportsFileType(f, rules.accepted) {
      problems' := problems' + [UnsupportedFormat(f.name, f.mimetype)];
    }
    var maxMB := if f.mimetype == "image/gif" then 15 else 5;
    if f.fileType == Video {
      maxMB := 15;
    }
    if MBtoBytes(maxMB) < f.size {
      if rules.autoScale && f.fileType == Image && rules.o.isScalableMimeType(f.mimetype) {
        warnings' := warnings' + [WillScaleSize(f.name, MBtoBytes(maxMB))];
      } else {
        problems' := problems' + [SizeLimit(f.mimetype, MBtoBytes(maxMB))];
      }
    }
  }

  /** The `files.forEach` of `validateFileSubmission`: every file's checks, in
      file order, pushed after what the lists already hold. */
  method CheckFiles(rules: FileRules, files: seq<FileRecord>, problems0: seq<Diagnostic>,
                    warnings0: seq<Diagnostic>)
    returns (problems: seq<Diagnostic>, warnings: seq<Diagnostic>)
    ensures problems == problems0 + rules.Collected(ProblemKind, files)
    ensures warnings == warnings0 + rules.Collected(WarningKind, files)
  {
    problems, warnings := problems0, warnings0;
    var i := 0;
    while i < |files|
      invariant 0 <= i <= |files|
      invariant problems == problems0 + rules.Pushed(ProblemKind, files, i)
      invariant warnings == warnings0 + rules.Pushed(WarningKind, files, i)
    {
      rules.CollectedStep(ProblemKind, files, problems0, problems, i);
      rules.CollectedStep(WarningKind, files, warnings0, warnings, i);
      problems, warnings := CheckFile(rules, files[i], problems, warnings);
      i := i + 1;
    }
  }

  /** `validateFileSubmission`. */
  method ValidateFileSubmission(o: Collaborators, sub: FileSubmission, part: SubmissionPart,
                                defaultPart: DefaultPart)
    returns (v: ValidationParts)
    requires Readable(sub)
    ensures v == FileValidation(o, sub, part, defaultPart)
  {
    var problems: seq<Diagnostic> := [];
    var warnings: seq<Diagnostic> := [];
    var description := ValidatedDescription(o, defaultPart, part, Some(LinkReserve));
    var length := Strings.Utf16Length(description);
    if length > MaxDescriptionLength {
      warnings := warnings + [DescriptionMayExceed(length)];
    }
    var files := ValidatedFiles(sub, part.accountId);
    var rules := FileRules(o, AcceptedFiles, part.autoScale);
    ghost var lengthPart := warnings;
    assert lengthPart == LengthWarning(o, part, defaultPart);
    problems, warnings := CheckFiles(rules, files, problems, warnings);
    v := ValidationParts(problems, warnings);
  }

  /** A description over 280 UTF-16 code units gives exactly one length diagnostic,
      the first warning, carrying its length; a shorter one gives none; no
      problem is about the length. */
  lemma FileValidationLength(o: Collaborators, sub: FileSubmission, part: SubmissionPart,
                             defaultPart: DefaultPart)
    requires Readable(sub)
    ensures var v := FileValidation(o, sub, part, defaultPart);
            var description := ValidatedDescription(o, defaultPart, part, Some(LinkReserve));
            var over := Strings.Utf16Length(description) > MaxDescriptionLength;
            && (forall d :: d in v.problems ==> !d.IsLengthDiagnostic())
            && (over ==> |v.warnings| > 0 && v.warnings[0] == DescriptionMayExceed(Strings.Utf16Length(description)))
            && (forall i :: 0 <= i < |v.warnings| ==> (v.warnings[i].IsLengthDiagnostic() <==> over && i == 0))
  {
    var rules := FileRules(o, AcceptedFiles, part.autoScale);
    var files := ValidatedFiles(sub, part.accountId);
    var lengthPart := LengthWarning(o, part, defaultPart);
    var filePart := rules.Collected(WarningKind, files);
    var warnings := lengthPart + filePart;
    rules.CollectedHasNoLength(ProblemKind, files);
    rules.CollectedHasNoLength(WarningKind, files);
    forall i | |lengthPart| <= i < |warnings|
      ensures !warnings[i].IsLengthDiagnostic()
    {
      assert warnings[i] == filePart[i - |lengthPart|];
    }
  }

  /** Each file the validator looks at is classified: an unsupported format is
      a problem, and a file over its size limit is a warning when it can be
      scaled and a problem otherwise. */
  lemma FileValidationFiles(o: Collaborators, sub: FileSubmission, part: SubmissionPart,
                            defaultPart: DefaultPart, k: nat)
    requires Readable(sub)
    requires k < |ValidatedFiles(sub, part.accountId)|
    ensures var v := FileValidation(o, sub, part, defaultPart);
            var rules := FileRules(o, AcceptedFiles, part.autoScale);
            var f := ValidatedFiles(sub, part.accountId)[k];
            && (!o.supportsFileType(f, AcceptedFiles) ==> UnsupportedFormat(f.name, f.mimetype) in v.problems)
            && (rules.Limit(f) < f.size && rules.Scalable(f) ==> WillScaleSize(f.name, rules.Limit(f)) in v.warnings)
            && (rules.Limit(f) < f.size && !rules.Scalable(f) ==> SizeLimit(f.mimetype, rules.Limit(f)) in v.problems)
  {
    var rules := FileRules(o, AcceptedFiles, part.autoScale);
    var files := ValidatedFiles(sub, part.accountId);
    rules.CollectedIncludes(ProblemKind, files, k);
    rules.CollectedIncludes(WarningKind, files, k);
    rules.Classification(files[k]);
  }

  /** Every problem comes from one of the files the validator looks at, and so
      does every warning except the length warning. */
  lemma FileValidationSources(o: Collaborators, sub: FileSubmission, part: SubmissionPart,
                              defaultPart: DefaultPart)
    requires Readable(sub)
    ensures var v := FileValidation(o, sub, part, defaultPart);
            var rules := FileRules(o, AcceptedFiles, part.autoScale);
            var files := ValidatedFiles(sub, part.accountId);
            && (forall d :: d in v.problems ==>
                  exists k :: 0 <= k < |files| && d in rules.Problems(files[k]))
            && (forall d :: d in v.warnings && !d.IsLengthDiagnostic() ==>
                  exists k :: 0 <= k < |files| && d in rules.Warnings(files[k]))
  {
    var rules := FileRules(o, AcceptedFiles, part.autoScale);
    var files := ValidatedFiles(sub, part.accountId);
    rules.CollectedFrom(ProblemKind, files);
    rules.CollectedFrom(WarningKind, files);
  }

  /** For an image that is not a GIF, the size the validator says it will
      scale to is the size the scaler is given. */
  lemma ScaledSizeIsScalerLimit(rules: FileRules, f: FileRecord)
    requires f.fileType == Image && f.mimetype != "image/gif"
    ensures forall d :: d in rules.Warnings(f) ==> d == WillScaleSize(f.name, GetScalingOptions(f).maxSize.value)
  {
  }

  /** `validateNotificationSubmission`: never a problem; the length warning
      exactly when the description is over 280 UTF-16 code units, and nothing else. */
  function ValidateNotificationSubmission(o: Collaborators, part: SubmissionPart,
                                          defaultPart: DefaultPart): (v: ValidationParts)
    ensures v.problems == []
    ensures var description := ValidatedDescription(o, defaultPart, part, Some(LinkReserve));
            && |v.warnings| == (if Strings.Utf16Length(description) > MaxDescriptionLength then 1 else 0)
            && forall d :: d in v.warnings ==> d == DescriptionMayExceed(Strings.Utf16Length(description))
  {
    ValidationParts([], LengthWarning(o, part, defaultPart))
  }

  /** A notification is judged like a file post without files: its warnings
      open the file post's warnings, and it has no problem. */
  lemma NotificationIsFileValidationWithoutFiles(o: Collaborators, sub: FileSubmission,
                                                 part: SubmissionPart, defaultPart: DefaultPart)
    requires Readable(sub)
    ensures var v := FileValidation(o, sub, part, defaultPart);
            var n := ValidateNotificationSubmission(o, part, defaultPart);
            |n.warnings| <= |v.warnings| && v.warnings[..|n.warnings|] == n.warnings
  {
    var rules := FileRules(o, AcceptedFiles, part.autoScale);
    var files := ValidatedFiles(sub, part.accountId);
    var lengthPart := LengthWarning(o, part, defaultPart);
    assert (lengthPart + rules.Collected(WarningKind, files))[..|lengthPart|] == lengthPart;
  }
}
