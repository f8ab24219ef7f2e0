/**
 * The Express backend of app/backend/server.js: multer's file filter, size limit and
 * stored-name rule for `POST /api/upload` (a single file in the form field 'file'),
 * and the list, download and delete routes over the one flat uploads directory,
 * which is a map from file name to size.
 */
module Server {
  import opened Wrappers
  import opened Strings
  import opened Storage

  /** `limits.fileSize`: 10 MB, inclusive. */
  const UploadLimit: nat := 10 * 1024 * 1024

  /** The alternatives of `/jpeg|jpg|png|gif|pdf|txt|doc|docx|zip/`. */
  const AllowedPatterns: seq<string> := ["jpeg", "jpg", "png", "gif", "pdf", "txt", "doc", "docx", "zip"]

  /**
   * Node's `path.extname` on a base name (no '/'): from the last '.' to the end,
   * except that a name with no '.', a name whose only '.' leads it, and ".." have none.
   */
  function Extname(name: string): (ext: string)
    ensures ext == "" <==> '.' !in name || name == ".." || (name[0] == '.' && '.' !in name[1..])
    ensures ext != "" ==>
              && ext[0] == '.' && '.' !in ext[1..]
              && |ext| <= |name| && name[|name| - |ext|..] == ext
  {
    var i := LastIndexOf(name, '.');
    if i <= 0 || name == ".." then
      assert i == 0 ==> name[1..] == name[i + 1..];
      ""
    else
      assert name[i..][1..] == name[i + 1..];
      name[i..]
  }

  /** fileFilter: both the lower-cased extension and the MIME type must match the pattern. */
  predicate FileFilter(originalName: string, mimetype: string)
  {
    AnyInfix(ToLowerAscii(Extname(originalName)), AllowedPatterns) && AnyInfix(mimetype, AllowedPatterns)
  }

  /** The filter stated without a search: some alternative occurs somewhere in each of the two strings. */
  lemma FileFilterIff(originalName: string, mimetype: string)
    ensures FileFilter(originalName, mimetype) <==>
              SomeOccurrence(ToLowerAscii(Extname(originalName)), AllowedPatterns)
              && SomeOccurrence(mimetype, AllowedPatterns)
  {
    AnyInfixIff(ToLowerAscii(Extname(originalName)), AllowedPatterns);
    AnyInfixIff(mimetype, AllowedPatterns);
  }

  /** The match is unanchored and only on substrings: 'text/plain' and 'image/webp' are refused whatever the name. */
  lemma PlainTextAndWebpRefused(originalName: string)
    ensures !FileFilter(originalName, "text/plain")
    ensures !FileFilter(originalName, "image/webp")
  {
    AnyInfixIff("text/plain", AllowedPatterns);
    AnyInfixIff("image/webp", AllowedPatterns);
    NoOccurrence("text/plain");
    NoOccurrence("image/webp");
  }

  /** The three MIME types the page accepts that the server's pattern finds nothing in. */
  const PatternFreeTypes: set<string> := {"text/plain", "image/webp", "application/msword"}

  /** The first two letters of each pattern (every pattern has at least three). */
  const PatternHeads: set<(char, char)> := {('j', 'p'), ('p', 'n'), ('g', 'i'), ('p', 'd'), ('t', 'x'), ('d', 'o'), ('z', 'i')}

  /** No two adjacent letters of `s` are the first two letters of a pattern. */
  ghost predicate NoPatternHead(s: string)
  {
    forall i :: 0 <= i < |s| - 1 ==> (s[i], s[i + 1]) !in PatternHeads
  }

  /** A string in which no pattern can even begin contains no pattern. */
  lemma NoHeadNoOccurrence(s: string)
    requires NoPatternHead(s)
    ensures !SomeOccurrence(s, AllowedPatterns)
  {
    forall k, i | 0 <= k < |AllowedPatterns|
      ensures !OccursAt(s, AllowedPatterns[k], i)
    {
      var t := AllowedPatterns[k];
      assert (t[0], t[1]) in PatternHeads;
      if 0 <= i && i + |t| <= |s| {
        assert s[i..i + |t|][0] == s[i] && s[i..i + |t|][1] == s[i + 1];
      }
    }
  }

  /** No pattern occurs in a pattern-free type: no pattern's first two letters appear side by side in it. */
  lemma NoOccurrence(s: string)
    requires s in PatternFreeTypes
    ensures !SomeOccurrence(s, AllowedPatterns)
  {
    assert NoPatternHead(s);
    NoHeadNoOccurrence(s);
  }

  /** The browser accepts plain text, WebP images and Word 97 documents that the server's filter then refuses. */
  lemma ClientAcceptsWhatServerRefuses(name: string, size: nat)
    requires size <= MaxFileSize
    ensures ValidateFile(LocalFile(name, size, "text/plain")) && !FileFilter(name, "text/plain")
    ensures ValidateFile(LocalFile(name, size, "image/webp")) && !FileFilter(name, "image/webp")
    ensures ValidateFile(LocalFile(name, size, "application/msword")) && !FileFilter(name, "application/msword")
  {
    PlainTextAndWebpRefused(name);
    AnyInfixIff("application/msword", AllowedPatterns);
    NoOccurrence("application/msword");
  }

  /**
   * Of the nine types the page accepts, the MIME half of the server's filter fails for
   * exactly the three pattern-free ones; for the other six the extension decides.
   */
  lemma MimeHalfExactly(t: string)
    requires t in AllowedMimeTypes
    ensures AnyInfix(t, AllowedPatterns) <==> t !in PatternFreeTypes
  {
    AnyInfixIff(t, AllowedPatterns);
    if t in PatternFreeTypes {
      NoOccurrence(t);
    } else {
      PatternFound(t);
    }
  }

  /** Proof helper for MimeHalfExactly: each of the six other accepted types contains a pattern, shown by its position. */
  lemma PatternFound(t: string)
    requires t in AllowedMimeTypes && t !in PatternFreeTypes
    ensures SomeOccurrence(t, AllowedPatterns)
  {
    if t == "image/jpeg" {
      assert OccursAt(t, AllowedPatterns[0], 6);
    } else if t == "image/png" {
      assert OccursAt(t, AllowedPatterns[2], 6);
    } else if t == "image/gif" {
      assert OccursAt(t, AllowedPatterns[3], 6);
    } else if t == "application/pdf" {
      assert OccursAt(t, AllowedPatterns[4], 12);
    } else if t == "application/zip" {
      assert OccursAt(t, AllowedPatterns[8], 12);
    } else {
      assert t == AllowedMimeTypes[7];
      assert t[37] == 'd' && t[38] == 'o' && t[39] == 'c';
      assert t[37..40] == "doc";
      assert OccursAt(t, AllowedPatterns[6], 37);
    }
  }

  /** A name with a non-empty stem and a dot-free suffix has that suffix as its extension. */
  lemma ExtnameOfSuffix(stem: string, suffix: string)
    requires stem != [] && suffix != [] && '.' !in suffix
    ensures Extname(stem + "." + suffix) == "." + suffix
  {
    var name := stem + "." + suffix;
    var ext := Extname(name);
    assert name[|stem|] == '.';
    assert name[|stem| + 1..] == suffix;
    assert ext != "";
  }

  /** The extension is matched without regard to ASCII case: 'photo.JPG' fares as 'photo.jpg'. */
  lemma ExtensionCaseIgnored(stem: string, suffix: string, mimetype: string)
    requires stem != [] && suffix != [] && '.' !in suffix
    ensures FileFilter(stem + "." + suffix, mimetype) == FileFilter(stem + "." + ToLowerAscii(suffix), mimetype)
  {
    var lower := ToLowerAscii(suffix);
    assert '.' !in lower by {
      forall j | 0 <= j < |lower| ensures lower[j] != '.' {
        assert suffix[j] != '.';
      }
    }
    ExtnameOfSuffix(stem, suffix);
    ExtnameOfSuffix(stem, lower);
    LowerConcat(".", suffix);
    LowerConcat(".", lower);
    LowerIdempotent(suffix);
  }

  /** The `filename` callback: `Date.now() + '-' + originalname`. */
  function StoredName(timestamp: nat, originalName: string): string
  {
    NatToString(timestamp) + "-" + originalName
  }

  /** The original name is what follows the first '-', or None without one. */
  function OriginalNameOf(stored: string): (r: Option<string>)
    ensures r.Some? ==> |r.value| < |stored| && stored[|stored| - |r.value|..] == r.value
  {
    var i := IndexOf(stored, '-');
    if i < 0 then None else Some(stored[i + 1..])
  }

  /** The timestamp is the run of digits before the first '-', when there is one. */
  function TimestampOf(stored: string): (r: Option<nat>)
  {
    var i := IndexOf(stored, '-');
    if i <= 0 || !AllDigits(stored[..i]) then None else Some(ParseDigits(stored[..i]))
  }

  /** A stored name gives back both the upload time and the original name, even when that name holds '-'. */
  lemma StoredNameRoundTrip(timestamp: nat, originalName: string)
    ensures OriginalNameOf(StoredName(timestamp, originalName)) == Some(originalName)
    ensures TimestampOf(StoredName(timestamp, originalName)) == Some(timestamp)
  {
    var digits := NatToString(timestamp);
    IndexOfAfterPrefix(digits, '-', originalName);
    var stored := StoredName(timestamp, originalName);
    assert stored == digits + ['-'] + originalName;
    assert stored[..|digits|] == digits;
    assert stored[|digits| + 1..] == originalName;
    ParseNatToString(timestamp);
  }

  /** One file part of a multipart request. */
  datatype Part = Part(field: string, originalName: string, mimetype: string, size: nat)

  /** Why multer refuses a request; Express answers each with 500. */
  datatype UploadFailure = UnexpectedField(field: string) | UnsupportedType | FileTooLarge

  datatype Outcome = NoFile | Failed(reason: UploadFailure) | Accepted(part: Part)

  /** How multer ended, and whether it ran `destination` (which creates the directory) on the way. */
  datatype Screening = Screening(outcome: Outcome, dirEnsured: bool)

  /**
   * multer's `upload.single('file')` over the file parts in arrival order: a part in
   * another field, or a second 'file' part, is an unexpected field; then fileFilter;
   * then `destination` runs and the size limit applies while the part is written.
   * `held` is the part already accepted.
   */
  function Screen(parts: seq<Part>, held: Option<Part>): (r: Screening)
    ensures held.Some? ==> r.dirEnsured
    ensures r.outcome.Accepted? ==> r.dirEnsured
    ensures r.outcome.NoFile? ==> held.None? && !r.dirEnsured
    decreases |parts|
  {
    if parts == [] then
      Screening(if held.Some? then Accepted(held.value) else NoFile, held.Some?)
    else
      var p := parts[0];
      if p.field != "file" || held.Some? then Screening(Failed(UnexpectedField(p.field)), held.Some?)
      else if !FileFilter(p.originalName, p.mimetype) then Screening(Failed(UnsupportedType), false)
      else if p.size > UploadLimit then Screening(Failed(FileTooLarge), true)
      else Screen(parts[1..], Some(p))
  }

  /**
   * Proof helper for AcceptedIff, unfolding Screen once: a part that passes every test
   * is held, and the screening goes on with the rest.
   */
  lemma ScreenPasses(parts: seq<Part>)
    requires parts != [] && parts[0].field == "file"
    requires FileFilter(parts[0].originalName, parts[0].mimetype) && parts[0].size <= UploadLimit
    ensures Screen(parts, None) == Screen(parts[1..], Some(parts[0]))
  {
  }

  /** An upload is stored exactly when it is one 'file' part that passes the filter and the limit. */
  lemma AcceptedIff(parts: seq<Part>)
    ensures Screen(parts, None).outcome.Accepted? <==>
              && |parts| == 1 && parts[0].field == "file"
              && FileFilter(parts[0].originalName, parts[0].mimetype) && parts[0].size <= UploadLimit
    ensures Screen(parts, None).outcome.Accepted? ==> Screen(parts, None).outcome.part == parts[0]
    ensures Screen(parts, None).outcome.NoFile? <==> parts == []
  {
    if parts != [] {
      var p := parts[0];
      if p.field == "file" && FileFilter(p.originalName, p.mimetype) && p.size <= UploadLimit {
        ScreenPasses(parts);
        var rest := parts[1..];
        if rest == [] {
          assert Screen(rest, Some(p)).outcome == Accepted(p);
        } else {
          assert Screen(rest, Some(p)).outcome == Failed(UnexpectedField(rest[0].field));
        }
      }
    }
  }

  /** The parts the page builds from its selection: every file under the field name 'files'. */
  function ClientParts(files: seq<LocalFile>): (parts: seq<Part>)
    ensures |parts| == |files|
    ensures forall i :: 0 <= i < |files| ==>
              parts[i] == Part("files", files[i].name, files[i].mimeType, files[i].size)
  {
    seq(|files|, i requires 0 <= i < |files| => Part("files", files[i].name, files[i].mimeType, files[i].size))
  }

  /** The page's uploads never reach the directory: the server only takes the field 'file'. */
  lemma ClientUploadNeverStored(files: seq<LocalFile>)
    requires files != []
    ensures Screen(ClientParts(files), None) == Screening(Failed(UnexpectedField("files")), false)
  {
    var parts := ClientParts(files);
    assert parts[0].field == "files";
  }

  /** `req.file` as the upload route echoes it. */
  datatype StoredFile = StoredFile(originalName: string, filename: string, size: nat, path: string)

  datatype UploadResponse =
    | NoFileUploaded          // 400
    | UploadError(reason: UploadFailure)   // 500 from Express's error handler
    | Uploaded(file: StoredFile)

  datatype Entry = Entry(name: string, size: nat)

  datatype DownloadResponse = Found(name: string, size: nat) | DownloadNotFound

  datatype DeleteResponse = Deleted | DeleteNotFound

  /** `path.join(__dirname, '../uploads')` and what is in it. */
  class UploadDirectory {
    /** Name to size of every file in the directory. */
    var files: map<string, nat>
    var dirExists: bool
    const root: string

    /** A directory that does not exist holds nothing. */
    ghost predicate Valid()
      reads this
    {
      !dirExists ==> files == map[]
    }

    constructor (root: string, dirExists: bool, files: map<string, nat>)
      requires !dirExists ==> files == map[]
      ensures Valid() && this.root == root && this.dirExists == dirExists && this.files == files
    {
      this.root := root;
      this.dirExists := dirExists;
      this.files := files;
    }

    /** `fs.ensureDir`. */
    method EnsureDir()
      requires Valid()
      modifies this
      ensures Valid() && dirExists && files == old(files)
    {
      dirExists := true;
    }

    /**
     * `POST /api/upload` at time `now`: a request without a file is a 400; a refused
     * one stores nothing (a size overflow leaves the directory created but the partial
     * file removed); an accepted one is stored under its generated name and echoed.
     */
    method Upload(parts: seq<Part>, now: nat) returns (resp: UploadResponse)
      requires Valid()
      modifies this
      ensures Valid()
      ensures dirExists == (old(dirExists) || Screen(parts, None).dirEnsured)
      ensures Screen(parts, None).outcome.NoFile? ==> resp == NoFileUploaded && files == old(files)
      ensures Screen(parts, None).outcome.Failed? ==>
                resp == UploadError(Screen(parts, None).outcome.reason) && files == old(files)
      ensures Screen(parts, None).outcome.Accepted? ==>
                var p := Screen(parts, None).outcome.part;
                var name := StoredName(now, p.originalName);
                && files == old(files)[name := p.size]
                && resp == Uploaded(StoredFile(p.originalName, name, p.size, root + "/" + name))
    {
      var screening := Screen(parts, None);
      if screening.dirEnsured {
        dirExists := true;
      }
      match screening.outcome
      case NoFile =>
        resp := NoFileUploaded;
      case Failed(reason) =>
        resp := UploadError(reason);
      case Accepted(p) =>
        var name := StoredName(now, p.originalName);
        files := files[name := p.size];
        resp := Uploaded(StoredFile(p.originalName, name, p.size, root + "/" + name));
    }

    /** `fs.readdir` with `fs.stat` on each entry: one entry per file, with its size. */
    method ReadDir() returns (entries: seq<Entry>)
      ensures |entries| == |files.Keys|
      ensures forall j :: 0 <= j < |entries| ==> entries[j].name in files && entries[j].size == files[entries[j].name]
      ensures forall n :: n in files ==> exists j :: 0 <= j < |entries| && entries[j].name == n
      ensures forall j, k :: 0 <= j < k < |entries| ==> entries[j].name != entries[k].name
    {
      var remaining := files.Keys;
      entries := [];
      while remaining != {}
        invariant remaining <= files.Keys
        invariant |entries| + |remaining| == |files.Keys|
        invariant forall j :: 0 <= j < |entries| ==>
                    entries[j].name in files && entries[j].name !in remaining && entries[j].size == files[entries[j].name]
        invariant forall n :: n in files && n !in remaining ==> exists j :: 0 <= j < |entries| && entries[j].name == n
        invariant forall j, k :: 0 <= j < k < |entries| ==> entries[j].name != entries[k].name
        decreases |remaining|
      {
        var n :| n in remaining;
        ghost var before := entries;
        entries := entries + [Entry(n, files[n])];
        remaining := remaining - {n};
        forall m | m in files && m !in remaining
          ensures exists j :: 0 <= j < |entries| && entries[j].name == m
        {
          if m == n {
            assert entries[|before|].name == m;
          } else {
            var j :| 0 <= j < |before| && before[j].name == m;
            assert entries[j].name == m;
          }
        }
      }
    }

    /** `GET /api/files`: create the directory if needed, then list it. */
    method List() returns (entries: seq<Entry>)
      requires Valid()
      modifies this
      ensures Valid() && dirExists && files == old(files)
      ensures !old(dirExists) ==> entries == []
      ensures |entries| == |files.Keys|
      ensures forall j :: 0 <= j < |entries| ==> entries[j].name in files && entries[j].size == files[entries[j].name]
      ensures forall n :: n in files ==> exists j :: 0 <= j < |entries| && entries[j].name == n
      ensures forall j, k :: 0 <= j < k < |entries| ==> entries[j].name != entries[k].name
    {
      EnsureDir();
      entries := ReadDir();
    }

    /** `GET /api/download/:filename`: the file, or 404. */
    method Download(name: string) returns (resp: DownloadResponse)
      ensures resp.DownloadNotFound? <==> name !in files
      ensures name in files ==> resp == Found(name, files[name])
    {
      if name !in files {
        return DownloadNotFound;
      }
      return Found(name, files[name]);
    }

    /**
     * `DELETE /api/files/:filename`: 404 and no change for a missing name; otherwise exactly
     * that file goes, so deleting it again is a 404.
     */
    method Delete(name: string) returns (resp: DeleteResponse)
      requires Valid()
      modifies this
      ensures Valid() && dirExists == old(dirExists)
      ensures resp.DeleteNotFound? <==> name !in old(files)
      ensures files == old(files) - {name}
      ensures name !in files
      ensures forall n :: n in old(files) && n != name ==> n in files && files[n] == old(files)[n]
    {
      if name !in files {
        return DeleteNotFound;
      }
      files := files - {name};
      return Deleted;
    }
  }
}
