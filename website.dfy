/** What every platform adapter shares with the common Website base: the
    cancellation checkpoints of a posting run, the response of a post, the
    login and scaling results, the validation diagnostics, the collaborators
    whose code is not part of this model, and the choice of the files a
    validator looks at. */
module Website {
  import opened Wrappers
  import opened Submission

  /** `FileSize.MBtoBytes`. */
  function MBtoBytes(mb: nat): nat
  {
    mb * 1048576
  }

  /** The cancellation token of one posting run, as the run sees it. The token
      is a flag that is set at most once, by someone else, between two
      checkpoints of the run. Numbering the run's checkpoints 0, 1, 2, ... in
      the order they are reached, the flag is therefore seen by every
      checkpoint from some index on, or by none. */
  datatype CancelSchedule = NeverCancelled | CancelledFrom(checkpoint: nat)
  {
    /** Whether `checkCancelled` at checkpoint `k` finds the run cancelled. */
    predicate ObservedAt(k: nat)
    {
      CancelledFrom? && checkpoint <= k
    }
  }

  /** How one account's post ends. `Rejected` carries the platform's message
      and, for a failed chunk of a thread, the index of that chunk. */
  datatype PostResponse =
    | Posted(source: string)
    | Rejected(message: string, chunkNumber: Option<nat>)
    | Cancelled

  /** The answer of a login-status check; `username` is `null` when None. */
  datatype LoginResponse = LoginResponse(loggedIn: bool, username: Option<string>)

  /** The policy handed to the image scaler; an absent field is None. */
  datatype ScalingOptions = ScalingOptions(
    maxWidth: Option<int>,
    maxHeight: Option<int>,
    maxSize: Option<int>)

  /** One validation message. The wording of each message is not modelled;
      what each one says is carried as fields. Sizes are in bytes. */
  datatype Diagnostic =
    | DescriptionTooLong(maxChars: int)         // over an instance's character limit
    | DescriptionMayExceed(length: int)         // over the fixed 280-character limit
    | UnsupportedFormat(name: string, mimetype: string)
    | SizeLimit(mimetype: string, limit: int)   // the platform limits this type to `limit`
    | WillScaleSize(name: string, limit: int)   // the file will be scaled down to `limit`
    | WillScaleDimensions(name: string)         // the image will be scaled to 4000 x 4000
    | HashtagsNeedPublic                        // a non-public post is not listed by hashtag
  {
    predicate IsLengthDiagnostic()
    {
      DescriptionTooLong? || DescriptionMayExceed?
    }
  }

  /** Problems block the post to an account; warnings do not. */
  datatype ValidationParts = ValidationParts(problems: seq<Diagnostic>, warnings: seq<Diagnostic>)

  /** Which of the two lists a per-file check adds to. */
  datatype DiagnosticKind = ProblemKind | WarningKind

  /** The diagnostics of the first `n` groups, one group after another: what a
      loop pushes when each step pushes one group. */
  function Concat(groups: seq<seq<Diagnostic>>, n: nat): seq<Diagnostic>
    requires n <= |groups|
  {
    if n == 0 then [] else Concat(groups, n - 1) + groups[n - 1]
  }

  /** One more step pushes its group after everything before it. */
  lemma ConcatStep(start: seq<Diagnostic>, groups: seq<seq<Diagnostic>>, n: nat)
    requires n < |groups|
    ensures start + Concat(groups, n + 1) == (start + Concat(groups, n)) + groups[n]
  {
    assert Concat(groups, n + 1) == Concat(groups, n) + groups[n];
  }

  /** Nothing a step pushes is lost. */
  lemma {:induction false} ConcatIncludes(groups: seq<seq<Diagnostic>>, n: nat, k: nat)
    requires k < n <= |groups|
    ensures forall d :: d in groups[k] ==> d in Concat(groups, n)
  {
    var before := Concat(groups, n - 1);
    assert Concat(groups, n) == before + groups[n - 1];
    if k < n - 1 {
      ConcatIncludes(groups, n - 1, k);
    }
  }

  /** Nothing is pushed that no step pushed. */
  lemma {:induction false} ConcatFrom(groups: seq<seq<Diagnostic>>, n: nat)
    requires n <= |groups|
    ensures forall d :: d in Concat(groups, n) ==> exists k :: 0 <= k < n && d in groups[k]
  {
    if n > 0 {
      var before := Concat(groups, n - 1);
      assert Concat(groups, n) == before + groups[n - 1];
      ConcatFrom(groups, n - 1);
    }
  }

  /** When no step pushes a length diagnostic, none is pushed. */
  lemma {:induction false} ConcatHasNoLength(groups: seq<seq<Diagnostic>>, n: nat)
    requires n <= |groups|
    requires forall k, d :: 0 <= k < n && d in groups[k] ==> !d.IsLengthDiagnostic()
    ensures forall d :: d in Concat(groups, n) ==> !d.IsLengthDiagnostic()
  {
    if n > 0 {
      assert Concat(groups, n) == Concat(groups, n - 1) + groups[n - 1];
      ConcatHasNoLength(groups, n - 1);
    }
  }

  /** A failure the network collaborators may report instead of a value. */
  datatype Result<T> = Ok(value: T) | Err(message: string)

  /** The helpers whose code is not part of this model, as plain functions:
      - parseDescription: `PlaintextParser.parse(text, linkReserve?)`;
      - mergeDescription: `FormContent.getDescription(defaultPart, accountPart)`;
      - supportsFileType: `WebsiteValidator.supportsFileType(file, acceptedFiles)`;
      - isScalableMimeType: `ImageManipulator.isMimeType(mimetype)`;
      - parseTags: the base's `parseTags(tags, { spaceReplacer: '_' })`;
      - appendTags: the base's `appendTags(tags, text, maxChars)`. */
  datatype Collaborators = Collaborators(
    parseDescription: (string, Option<nat>) -> string,
    mergeDescription: (Description, Description) -> string,
    supportsFileType: (FileRecord, seq<string>) -> bool,
    isScalableMimeType: string -> bool,
    parseTags: seq<string> -> seq<string>,
    appendTags: (seq<string>, string, int) -> string)

  /** The plain-text description a validator measures: the merged description
      of the default and the account's part, rendered with `linkReserve`. */
  function ValidatedDescription(o: Collaborators, defaultPart: DefaultPart,
                                part: SubmissionPart, linkReserve: Option<nat>): string
  {
    o.parseDescription(o.mergeDescription(defaultPart.description, part.description), linkReserve)
  }

  /** The validators read every record of the submission they are given. */
  predicate Readable(sub: FileSubmission)
  {
    && sub.primary != null
    && (sub.additional.Some? ==>
          forall i :: 0 <= i < |sub.additional.value| ==> sub.additional.value[i] != null)
  }

  /** One file is kept exactly when the account does not ignore it. */
  function Keep(f: FileRecord, accountId: string): seq<FileRecord>
  {
    if accountId in f.ignoredAccounts then [] else [f]
  }

  /** The additional files not ignored for `accountId`, in their order. */
  function NotIgnored(files: seq<FileRecord>, accountId: string): (kept: seq<FileRecord>)
    ensures |kept| <= |files|
  {
    if files == [] then [] else Keep(files[0], accountId) + NotIgnored(files[1..], accountId)
  }

  /** The kept files are among the input and not ignored by the account, and
      every file the account does not ignore is kept. */
  lemma {:induction false} NotIgnoredMembers(files: seq<FileRecord>, accountId: string)
    ensures var kept := NotIgnored(files, accountId);
            && (forall i :: 0 <= i < |kept| ==> kept[i] in files && accountId !in kept[i].ignoredAccounts)
            && (forall i :: 0 <= i < |files| && accountId !in files[i].ignoredAccounts ==> files[i] in kept)
  {
    if files != [] {
      NotIgnoredMembers(files[1..], accountId);
      assert forall i :: 1 <= i < |files| ==> files[i] == files[1..][i - 1];
    }
  }

  /** The selection of a list with a first file is that file's selection,
      then the selection of the rest. */
  lemma NotIgnoredCons(f: FileRecord, rest: seq<FileRecord>, accountId: string)
    ensures NotIgnored([f] + rest, accountId) == Keep(f, accountId) + NotIgnored(rest, accountId)
  {
    assert ([f] + rest)[1..] == rest;
  }

  /** The selection is a filter: it keeps a file exactly when the account does
      not ignore it, and the selection of a concatenation is the concatenation
      of the selections, so input order and repeated files are kept. */
  lemma {:induction false} NotIgnoredFilters(a: seq<FileRecord>, b: seq<FileRecord>, accountId: string)
    ensures |a| == 1 ==> NotIgnored(a, accountId) == Keep(a[0], accountId)
    ensures NotIgnored(a + b, accountId) == NotIgnored(a, accountId) + NotIgnored(b, accountId)
    decreases |a|
  {
    if a == [] {
      assert a + b == b;
    } else {
      assert a + b == [a[0]] + (a[1..] + b);
      NotIgnoredCons(a[0], a[1..] + b, accountId);
      NotIgnoredFilters(a[1..], b, accountId);
    }
  }

  /** `[submission.primary, ...(submission.additional || []).filter(...)]`:
      the primary file, then the additional files not ignored for the account. */
  function ValidatedFiles(sub: FileSubmission, accountId: string): (files: seq<FileRecord>)
    requires Readable(sub)
    ensures |files| >= 1 && files[0] == sub.primary
  {
    [sub.primary] + NotIgnored(sub.additional.GetOr([]), accountId)
  }

  /** The files a validator looks at are the primary file and exactly the
      additional files that the account does not ignore. */
  lemma ValidatedFilesSelection(sub: FileSubmission, accountId: string)
    requires Readable(sub)
    ensures var files := ValidatedFiles(sub, accountId);
            && (sub.additional.None? ==> files == [sub.primary])
            && (forall i :: 1 <= i < |files| ==>
                  sub.additional.Some? && files[i] in sub.additional.value &&
                  accountId !in files[i].ignoredAccounts)
            && (sub.additional.Some? ==>
                  forall i :: 0 <= i < |sub.additional.value| && accountId !in sub.additional.value[i].ignoredAccounts ==>
                    sub.additional.value[i] in files[1..])
  {
    var files := ValidatedFiles(sub, accountId);
    var additional := sub.additional.GetOr([]);
    var kept := NotIgnored(additional, accountId);
    NotIgnoredMembers(additional, accountId);
    assert files[1..] == kept;
    assert forall i :: 1 <= i < |files| ==> files[i] == kept[i - 1];
    assert sub.additional.Some? ==> additional == sub.additional.value;
  }
}
