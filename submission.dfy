/** The submission entities that the adapters and the file repository read:
    file records, per-account parts, and the data handed to a post. */
module Submission {
  import opened Wrappers

  type byte = x: int | 0 <= x < 256

  /** The kind of a submitted file (`FileSubmissionType`). */
  datatype FileType = Image | Audio | Video | Text | Unknown

  /** The content-sensitivity classification of a submission. */
  datatype Rating = General | Mature | Adult | Extreme

  /** A stored file's record. Its metadata never changes; its two storage
      paths are rewritten in place when the file is copied under a new id. */
  class FileRecord {
    const name: string
    const mimetype: string
    const fileType: FileType
    const size: nat
    const width: nat
    const height: nat
    /** Accounts this (additional) file is not to be sent to. */
    const ignoredAccounts: seq<string>
    /** Path of the stored file. */
    var location: string
    /** Path of its thumbnail. */
    var preview: string

    constructor (name: string, mimetype: string, fileType: FileType, size: nat,
                 width: nat, height: nat, ignoredAccounts: seq<string>,
                 location: string, preview: string)
      ensures this.name == name && this.mimetype == mimetype && this.fileType == fileType
      ensures this.size == size && this.width == width && this.height == height
      ensures this.ignoredAccounts == ignoredAccounts
      ensures this.location == location && this.preview == preview
    {
      this.name, this.mimetype, this.fileType := name, mimetype, fileType;
      this.size, this.width, this.height := size, width, height;
      this.ignoredAccounts := ignoredAccounts;
      this.location, this.preview := location, preview;
    }
  }

  /** A file submission as stored: each of its records may be missing. */
  datatype FileSubmission = FileSubmission(
    primary: FileRecord?,
    thumbnail: FileRecord?,
    additional: Option<seq<FileRecord?>>)

  /** A description field of a part: the text, and whether it replaces the
      default part's. */
  datatype Description = Description(overwriteDefault: bool, value: string)

  /** The options one account's part overrides. An unset `visibility` is "". */
  datatype SubmissionPart = SubmissionPart(
    accountId: string,
    autoScale: bool,
    description: Description,
    tags: seq<string>,
    visibility: string)

  /** The default part that every account's part merges with. */
  datatype DefaultPart = DefaultPart(description: Description, tags: seq<string>)

  /** A file as it is sent: its bytes and upload options. */
  datatype PostFile = PostFile(value: seq<byte>, filename: string, contentType: string)

  /** What a file post receives: the files (primary first), the merged text
      fields, and the account's options of type `O`. */
  datatype FilePostData<O> = FilePostData(
    primary: PostFile,
    additional: seq<PostFile>,
    title: string,
    description: string,
    rating: Rating,
    tags: seq<string>,
    options: O,
    accountId: string)
  {
    /** `[data.primary, ...data.additional]`. */
    function Files(): (files: seq<PostFile>)
      ensures |files| == 1 + |additional|
      ensures files[0] == primary && files[1..] == additional
    {
      [primary] + additional
    }
  }

  /** What a notification post receives: the same text fields and no file. */
  datatype PostData<O> = PostData(
    title: string,
    description: string,
    rating: Rating,
    tags: seq<string>,
    options: O,
    accountId: string)
}
