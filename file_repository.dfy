/** The file repository: where an uploaded file and its thumbnail are stored,
    what the thumbnail is, which paths a submission's removal deletes, and
    how a stored file is copied under a new id. The file system is a map from
    paths to contents. */
module FileRepository {
  import opened Wrappers
  import opened Submission
  import Strings

  /** The largest thumbnail side, in pixels. */
  const ThumbnailMax := 300
  /** The JPEG quality of a file-icon thumbnail. */
  const IconQuality := 100

  /** An uploaded file as the upload handler receives it. */
  datatype UploadedFile = UploadedFile(originalname: string, mimetype: string, buffer: seq<byte>)

  /** The pixel size the image decoder reports for an image. */
  datatype ImageSize = ImageSize(width: nat, height: nat)

  /** What a path holds: the bytes written, an image re-encoded as PNG at a
      given size, or the platform's icon for the file at a path, as JPEG. */
  datatype Content =
    | Bytes(data: seq<byte>)
    | Png(source: seq<byte>, width: nat, height: nat)
    | IconJpeg(iconOf: string, quality: nat)

  function Min(a: nat, b: nat): nat
  {
    if a < b then a else b
  }

  // ---------------------------------------------------------------------
  // Names and paths

  /** The extension of an uploaded file: the text after its last `.`. */
  function Extension(originalname: string): string
  {
    Strings.LastSegment(originalname, '.')
  }

  /** `${id}-${sid}`: the id a stored file is named after. */
  function NewId(id: string, sid: string): string
  {
    id + "-" + sid
  }

  /** `${id}-${sid}.${ext}`: the name a file is stored under. */
  function StoredName(id: string, sid: string, originalname: string): string
  {
    NewId(id, sid) + "." + Extension(originalname)
  }

  /** The stored name starts with the new id and a dot, and keeps the
      uploaded file's extension. */
  lemma StoredNameParts(id: string, sid: string, originalname: string)
    ensures var name := StoredName(id, sid, originalname);
            && |name| > |NewId(id, sid)|
            && name[..|NewId(id, sid)| + 1] == NewId(id, sid) + "."
            && Strings.LastSegment(name, '.') == Extension(originalname)
  {
    var ext := Extension(originalname);
    assert StoredName(id, sid, originalname) == NewId(id, sid) + ['.'] + ext;
    Strings.LastSegmentAfter(NewId(id, sid), '.', ext);
  }

  /** `${directory}/${name}`. */
  function PathIn(directory: string, name: string): string
  {
    directory + "/" + name
  }

  /** A path built in a directory splits into that directory's parts and the
      name. */
  lemma PathInParts(directory: string, name: string)
    requires '/' !in name
    ensures var parts := Strings.Split(PathIn(directory, name), '/');
            && |parts| >= 1
            && Strings.Init(parts) == Strings.Split(directory, '/')
            && Strings.Last(parts) == name
  {
    Strings.SplitAround(directory, name, '/');
    Strings.SplitNoSeparator(name, '/');
  }

  /** Where the submission file is stored. */
  function SubmissionPath(directory: string, idName: string): string
  {
    PathIn(directory, idName)
  }

  /** Where its thumbnail is stored: the stored name with `.jpeg` appended. */
  function ThumbnailPath(directory: string, idName: string): string
  {
    PathIn(directory, idName + ".jpeg")
  }

  /** A thumbnail path ends in `.jpeg`, whatever the stored name. */
  lemma ThumbnailPathExtension(directory: string, idName: string)
    ensures Strings.LastSegment(ThumbnailPath(directory, idName), '.') == "jpeg"
  {
    assert ThumbnailPath(directory, idName) == (directory + "/" + idName) + ['.'] + "jpeg";
    Strings.LastSegmentAfter(directory + "/" + idName, '.', "jpeg");
  }

  /** The thumbnail of an upload. A gif image is its own thumbnail; another
      image is re-encoded at its size capped at 300 pixels a side; any other
      file gets the icon of the file at `path`. The cap never enlarges an
      image and leaves a side that already fits unchanged. */
  function Thumbnail(file: UploadedFile, path: string, size: ImageSize): (t: Content)
    ensures t.Bytes? <==> Strings.Contains(file.mimetype, "image") && Strings.Contains(file.mimetype, "gif")
    ensures t.Bytes? ==> t.data == file.buffer
    ensures t.Png? <==> Strings.Contains(file.mimetype, "image") && !Strings.Contains(file.mimetype, "gif")
    ensures t.Png? ==> t.source == file.buffer
    ensures t.Png? ==> t.width <= ThumbnailMax && t.width <= size.width
                       && (size.width <= ThumbnailMax ==> t.width == size.width)
                       && (size.width >= ThumbnailMax ==> t.width == ThumbnailMax)
    ensures t.Png? ==> t.height <= ThumbnailMax && t.height <= size.height
                       && (size.height <= ThumbnailMax ==> t.height == size.height)
                       && (size.height >= ThumbnailMax ==> t.height == ThumbnailMax)
    ensures t.IconJpeg? <==> !Strings.Contains(file.mimetype, "image")
    ensures t.IconJpeg? ==> t.iconOf == path && t.quality == IconQuality
  {
    if Strings.Contains(file.mimetype, "image") then
      if Strings.Contains(file.mimetype, "gif") then Bytes(file.buffer)
      else Png(file.buffer, Min(size.width, ThumbnailMax), Min(size.height, ThumbnailMax))
    else IconJpeg(path, IconQuality)
  }

  // ---------------------------------------------------------------------
  // Copy paths

  /** The new location of a copied file: the old directory, and the new id
      with the old location's extension. */
  function CopyLocation(location: string, newId: string): string
  {
    var parts := Strings.Split(location, '/');
    Strings.Join(Strings.Init(parts) + [newId + "." + Strings.LastSegment(location, '.')], "/")
  }

  /** The new thumbnail of a copied file: the old thumbnail's directory, and
      the new id with `.jpeg`. */
  function CopyPreview(preview: string, newId: string): string
  {
    var parts := Strings.Split(preview, '/');
    Strings.Join(Strings.Init(parts) + [newId + ".jpeg"], "/")
  }

  /** Replacing the last part of a path, with a part that has no `/` and holds
      `.` followed by `ext`, gives a path whose last `.`-segment is `ext`. */
  lemma ReplacedExtension(path: string, stem: string, ext: string)
    requires '.' !in ext
    ensures Strings.LastSegment(Strings.Join(Strings.Init(Strings.Split(path, '/')) + [stem + "." + ext], "/"), '.') == ext
  {
    var kept := Strings.Init(Strings.Split(path, '/'));
    var joined := Strings.Join(kept + [stem + "." + ext], "/");
    var prefix: string;
    if kept == [] {
      assert kept + [stem + "." + ext] == [stem + "." + ext];
      prefix := stem;
    } else {
      Strings.JoinSnoc(kept, stem + "." + ext, "/");
      prefix := Strings.Join(kept, "/") + "/" + stem;
    }
    assert joined == prefix + ['.'] + ext;
    Strings.LastSegmentAfter(prefix, '.', ext);
  }

  /** The copy of a file stays in its directory, is named after the new id,
      and keeps its extension, when the extension holds no `/`. */
  lemma CopyLocationParts(location: string, newId: string)
    requires '/' !in newId
    requires '/' !in Strings.LastSegment(location, '.')
    ensures var parts := Strings.Split(CopyLocation(location, newId), '/');
            && |parts| >= 1
            && Strings.Init(parts) == Strings.Init(Strings.Split(location, '/'))
            && Strings.Last(parts) == newId + "." + Strings.LastSegment(location, '.')
            && Strings.LastSegment(CopyLocation(location, newId), '.') == Strings.LastSegment(location, '.')
  {
    var ext := Strings.LastSegment(location, '.');
    Strings.ReplaceLastSegment(location, '/', newId + "." + ext);
    ReplacedExtension(location, newId, ext);
  }

  /** The copy of a thumbnail stays in its directory and is named after the
      new id, with `.jpeg`. */
  lemma CopyPreviewParts(preview: string, newId: string)
    requires '/' !in newId
    ensures var parts := Strings.Split(CopyPreview(preview, newId), '/');
            && |parts| >= 1
            && Strings.Init(parts) == Strings.Init(Strings.Split(preview, '/'))
            && Strings.Last(parts) == newId + ".jpeg"
            && Strings.LastSegment(CopyPreview(preview, newId), '.') == "jpeg"
  {
    Strings.ReplaceLastSegment(preview, '/', newId + ".jpeg");
    assert newId + ".jpeg" == newId + "." + "jpeg";
    ReplacedExtension(preview, newId, "jpeg");
  }

  /** Copying a file the repository stored puts the copy next to it: in the
      submission directory, under the new id and the stored extension. */
  lemma CopyOfStoredFile(directory: string, id: string, sid: string, originalname: string, newId: string)
    requires '/' !in StoredName(id, sid, originalname)
    requires '/' !in newId
    ensures CopyLocation(SubmissionPath(directory, StoredName(id, sid, originalname)), newId)
            == SubmissionPath(directory, newId + "." + Extension(originalname))
  {
    var name := StoredName(id, sid, originalname);
    var location := SubmissionPath(directory, name);
    var ext := Extension(originalname);
    PathInParts(directory, name);
    StoredNameParts(id, sid, originalname);
    assert Strings.LastSegment(location, '.') == ext by {
      assert location == (directory + "/" + NewId(id, sid)) + ['.'] + ext;
      Strings.LastSegmentAfter(directory + "/" + NewId(id, sid), '.', ext);
    }
    var dirParts := Strings.Split(directory, '/');
    assert Strings.Init(Strings.Split(location, '/')) == dirParts;
    Strings.JoinSnoc(dirParts, newId + "." + ext, "/");
    Strings.JoinSplit(directory, '/');
  }

  // ---------------------------------------------------------------------
  // Removal targets

  /** `[primary, thumbnail, ...(additional || [])]`. */
  function Listed(sub: FileSubmission): seq<FileRecord?>
  {
    [sub.primary, sub.thumbnail] + sub.additional.GetOr([])
  }

  /** The records among `files`, which removal reads. */
  function Records(files: seq<FileRecord?>): set<FileRecord>
  {
    set f: FileRecord | f in files
  }

  /** The paths removed for the first `n` entries: for each record present,
      its location and then its preview; a missing entry is skipped. */
  function Targets(files: seq<FileRecord?>, n: nat): seq<string>
    requires n <= |files|
    reads Records(files)
  {
    if n == 0 then []
    else
      Targets(files, n - 1)
      + (if files[n - 1] != null then [files[n - 1].location, files[n - 1].preview] else [])
  }

  /** How many of the first `n` entries are present. */
  function PresentCount(files: seq<FileRecord?>, n: nat): nat
    requires n <= |files|
  {
    if n == 0 then 0 else PresentCount(files, n - 1) + (if files[n - 1] != null then 1 else 0)
  }

  /** Two paths per present record, and a path is removed exactly when it is
      the location or the preview of a present record. */
  lemma {:induction false} TargetsSpec(files: seq<FileRecord?>, n: nat)
    requires n <= |files|
    ensures |Targets(files, n)| == 2 * PresentCount(files, n)
    ensures forall p :: p in Targets(files, n) <==>
              exists k :: 0 <= k < n && files[k] != null && (p == files[k].location || p == files[k].preview)
  {
    if n > 0 {
      TargetsSpec(files, n - 1);
      var before := Targets(files, n - 1);
      var last := if files[n - 1] != null then [files[n - 1].location, files[n - 1].preview] else [];
      assert Targets(files, n) == before + last;
      forall p | p in Targets(files, n)
        ensures exists k :: 0 <= k < n && files[k] != null && (p == files[k].location || p == files[k].preview)
      {
        if p !in before {
          assert p in last;
        }
      }
      forall p, k | 0 <= k < n && files[k] != null && (p == files[k].location || p == files[k].preview)
        ensures p in Targets(files, n)
      {
        if k < n - 1 {
          assert p in before;
        } else {
          assert p in last;
        }
      }
    }
  }

  /** The paths `removeSubmissionFiles` deletes. */
  function RemovalTargets(sub: FileSubmission): seq<string>
    reads Records(Listed(sub))
  {
    Targets(Listed(sub), |Listed(sub)|)
  }

  /** The removal deletes the location and the preview of the primary file,
      of the thumbnail file and of every additional file that is present, and
      nothing else; two paths per present record. */
  lemma RemovalTargetsSpec(sub: FileSubmission)
    ensures var files := Listed(sub);
            && |RemovalTargets(sub)| == 2 * PresentCount(files, |files|)
            && (forall p :: p in RemovalTargets(sub) <==>
                  exists k :: 0 <= k < |files| && files[k] != null && (p == files[k].location || p == files[k].preview))
  {
    TargetsSpec(Listed(sub), |Listed(sub)|);
  }

  /** The file system with the given paths removed; a path that holds
      nothing stays absent. */
  function WithoutPaths(disk: map<string, Content>, paths: seq<string>): (r: map<string, Content>)
    ensures forall p :: p in r <==> p in disk && p !in paths
    ensures forall p :: p in r ==> r[p] == disk[p]
  {
    map p | p in disk && p !in paths :: disk[p]
  }

  /** Removal undoes an insertion: when the primary record of a submission
      points at the two paths an upload was written to, removing the
      submission's files leaves the file system as removing them would have
      left it without the upload. */
  lemma RemovalUndoesInsert(disk: map<string, Content>, sub: FileSubmission,
                            submissionLocation: string, stored: Content,
                            thumbnailLocation: string, thumbnail: Content)
    requires sub.primary != null
    requires sub.primary.location == submissionLocation && sub.primary.preview == thumbnailLocation
    ensures WithoutPaths(disk[submissionLocation := stored][thumbnailLocation := thumbnail], RemovalTargets(sub))
            == WithoutPaths(disk, RemovalTargets(sub))
  {
    var files := Listed(sub);
    RemovalTargetsSpec(sub);
    assert files[0] == sub.primary;
    assert submissionLocation in RemovalTargets(sub);
    assert thumbnailLocation in RemovalTargets(sub);
  }

  // ---------------------------------------------------------------------
  // The service

  /** The repository over a file system. The two directories come from the
      application's configuration. */
  class FileRepositoryService {
    const submissionDirectory: string
    const thumbnailDirectory: string
    /** The file system: the content at each path that holds a file. */
    var disk: map<string, Content>

    constructor (submissionDirectory: string, thumbnailDirectory: string, disk: map<string, Content>)
      ensures this.submissionDirectory == submissionDirectory
      ensures this.thumbnailDirectory == thumbnailDirectory
      ensures this.disk == disk
    {
      this.submissionDirectory := submissionDirectory;
      this.thumbnailDirectory := thumbnailDirectory;
      this.disk := disk;
    }

    /** `insertFile`: writes the upload under its stored name in the
        submission directory, then its thumbnail in the thumbnail directory,
        and returns both paths. `sid` is the generated short id, `size` what
        the image decoder reports, and `path` where the upload came from. */
    method InsertFile(id: string, sid: string, file: UploadedFile, path: string, size: ImageSize)
      returns (thumbnailLocation: string, submissionLocation: string)
      modifies this
      ensures submissionLocation == SubmissionPath(submissionDirectory, StoredName(id, sid, file.originalname))
      ensures thumbnailLocation == ThumbnailPath(thumbnailDirectory, StoredName(id, sid, file.originalname))
      ensures disk == old(disk)[submissionLocation := Bytes(file.buffer)]
                              [thumbnailLocation := Thumbnail(file, path, size)]
    {
      var idName := id + "-" + sid + "." + Strings.LastSegment(file.originalname, '.');
      submissionLocation := submissionDirectory + "/" + idName;
      disk := disk[submissionLocation := Bytes(file.buffer)];

      var thumbnail: Content;
      thumbnailLocation := thumbnailDirectory + "/" + idName + ".jpeg";
      if Strings.Contains(file.mimetype, "image") {
        if Strings.Contains(file.mimetype, "gif") {
          thumbnail := Bytes(file.buffer);
        } else {
          thumbnail := Png(file.buffer, Min(size.width, ThumbnailMax), Min(size.height, ThumbnailMax));
        }
      } else {
        thumbnail := IconJpeg(path, IconQuality);
      }
      disk := disk[thumbnailLocation := thumbnail];
    }

    /** `removeSubmissionFiles`: deletes every removal target; a path that
        holds nothing stays absent. */
    method RemoveSubmissionFiles(sub: FileSubmission)
      modifies this
      ensures disk == WithoutPaths(old(disk), RemovalTargets(sub))
    {
      var targets := RemovalTargets(sub);
      var i := 0;
      while i < |targets|
        invariant 0 <= i <= |targets|
        invariant forall p :: p in disk <==> p in old(disk) && p !in targets[..i]
        invariant forall p :: p in disk ==> disk[p] == old(disk)[p]
      {
        assert targets[..i + 1] == targets[..i] + [targets[i]];
        disk := disk - {targets[i]};
        i := i + 1;
      }
      assert targets[..i] == targets;
      assert unchanged(Records(Listed(sub)));
      assert targets == RemovalTargets(sub);
      assert disk == WithoutPaths(old(disk), targets);
    }

    /** `copyFileWithNewId`: copies the stored file and then its thumbnail
        under the new id `id-sid`, each into its own directory, and points the
        record at the copies. A copy whose source is missing fails; the steps
        before it stay done and the record is left as it was. */
    method CopyFileWithNewId(id: string, sid: string, file: FileRecord) returns (r: Option<FileRecord>)
      modifies this, file
      ensures var location := CopyLocation(old(file.location), NewId(id, sid));
              var preview := CopyPreview(old(file.preview), NewId(id, sid));
              if old(file.location) !in old(disk) then
                r.None? && disk == old(disk)
                && file.location == old(file.location) && file.preview == old(file.preview)
              else
                var copied := old(disk)[location := old(disk)[old(file.location)]];
                if old(file.preview) !in copied then
                  r.None? && disk == copied
                  && file.location == old(file.location) && file.preview == old(file.preview)
                else
                  r == Some(file) && disk == copied[preview := copied[old(file.preview)]]
                  && file.location == location && file.preview == preview
    {
      var pathParts := Strings.Split(file.location, '/');
      pathParts := Strings.Init(pathParts);
      var extension := Strings.LastSegment(file.location, '.');
      var newId := id + "-" + sid;
      var filePath := Strings.Join(pathParts + [newId + "." + extension], "/");

      if file.location !in disk {
        return None;
      }
      disk := disk[filePath := disk[file.location]];

      var thumbPathParts := Strings.Split(file.preview, '/');
      thumbPathParts := Strings.Init(thumbPathParts);
      var thumbPath := Strings.Join(thumbPathParts + [newId + ".jpeg"], "/");

      if file.preview !in disk {
        return None;
      }
      disk := disk[thumbPath := disk[file.preview]];

      file.location := filePath;
      file.preview := thumbPath;
      return Some(file);
    }
  }

  /** After a successful copy the record's new location and preview sit in
      the old directories and share the new id; the location keeps its
      extension. */
  lemma CopiedRecordPaths(oldLocation: string, oldPreview: string, id: string, sid: string)
    requires '/' !in NewId(id, sid)
    requires '/' !in Strings.LastSegment(oldLocation, '.')
    ensures var location := CopyLocation(oldLocation, NewId(id, sid));
            var preview := CopyPreview(oldPreview, NewId(id, sid));
            && Strings.Init(Strings.Split(location, '/')) == Strings.Init(Strings.Split(oldLocation, '/'))
            && Strings.Init(Strings.Split(preview, '/')) == Strings.Init(Strings.Split(oldPreview, '/'))
            && Strings.LastSegment(location, '/') == NewId(id, sid) + "." + Strings.LastSegment(oldLocation, '.')
            && Strings.LastSegment(preview, '/') == NewId(id, sid) + ".jpeg"
  {
    CopyLocationParts(oldLocation, NewId(id, sid));
    CopyPreviewParts(oldPreview, NewId(id, sid));
  }
}
