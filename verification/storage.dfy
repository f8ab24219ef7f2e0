/**
 * The client's pure rules (app/web/app.js): which local files may be uploaded,
 * how a batch splits into valid and invalid files, and which root directory each
 * storage type names.
 */
module Storage {
  import opened Wrappers
  import opened Environment

  /** A browser File: its name, size in bytes and MIME type. */
  datatype LocalFile = LocalFile(name: string, size: nat, mimeType: string)

  /** validateFile's size cap: 10 MB. */
  const MaxFileSize: nat := 10 * 1024 * 1024

  /** validateFile's accepted MIME types. */
  const AllowedMimeTypes: seq<string> := [
    "image/jpeg", "image/png", "image/gif", "image/webp",
    "application/pdf",
    "text/plain",
    "application/msword",
    "application/vnd.openxmlformats-officedocument.wordprocessingml.document",
    "application/zip"
  ]

  /** validateFile: at most 10 MB and of one of the nine listed types. */
  predicate ValidateFile(f: LocalFile)
  {
    f.size <= MaxFileSize && f.mimeType in AllowedMimeTypes
  }

  /** The accepted types spelled out, with the cap of 10485760 bytes inclusive. */
  lemma ValidateFileIff(f: LocalFile)
    ensures ValidateFile(f) <==>
      f.size <= 10485760 &&
      (f.mimeType == "image/jpeg" || f.mimeType == "image/png" || f.mimeType == "image/gif" ||
       f.mimeType == "image/webp" || f.mimeType == "application/pdf" || f.mimeType == "text/plain" ||
       f.mimeType == "application/msword" ||
       f.mimeType == "application/vnd.openxmlformats-officedocument.wordprocessingml.document" ||
       f.mimeType == "application/zip")
  {
  }

  /** The elements of `s` on which `p` is `keep`, in their order. */
  function Select<T>(s: seq<T>, p: T -> bool, keep: bool): seq<T>
    decreases |s|
  {
    if s == [] then []
    else Select(s[..|s| - 1], p, keep) + (if p(s[|s| - 1]) == keep then [s[|s| - 1]] else [])
  }

  /** Selecting both ways splits a sequence: nothing is lost or duplicated, and each side has its verdict. */
  lemma {:induction false} SelectSplits<T>(s: seq<T>, p: T -> bool)
    ensures multiset(Select(s, p, true)) + multiset(Select(s, p, false)) == multiset(s)
    ensures |Select(s, p, true)| + |Select(s, p, false)| == |s|
    ensures forall x :: x in Select(s, p, true) ==> p(x)
    ensures forall x :: x in Select(s, p, false) ==> !p(x)
    decreases |s|
  {
    if s != [] {
      var init, last := s[..|s| - 1], s[|s| - 1];
      SelectSplits(init, p);
      assert s == init + [last];
    }
  }

  /** Selection distributes over concatenation. */
  lemma {:induction false} SelectConcat<T>(s: seq<T>, t: seq<T>, p: T -> bool, keep: bool)
    ensures Select(s + t, p, keep) == Select(s, p, keep) + Select(t, p, keep)
    decreases |t|
  {
    if t == [] {
      assert s + t == s;
    } else {
      SelectConcat(s, t[..|t| - 1], p, keep);
      assert (s + t)[..|s + t| - 1] == s + t[..|t| - 1];
    }
  }

  /** When every element has the same verdict, selection keeps everything or nothing. */
  lemma {:induction false} SelectUniform<T>(s: seq<T>, p: T -> bool, keep: bool)
    requires forall i :: 0 <= i < |s| ==> p(s[i]) == keep
    ensures Select(s, p, keep) == s && Select(s, p, !keep) == []
    decreases |s|
  {
    if s != [] {
      SelectUniform(s[..|s| - 1], p, keep);
      assert s == s[..|s| - 1] + [s[|s| - 1]];
    }
  }

  /** The valid files of a batch, in their order. */
  function Valids(fs: seq<LocalFile>): seq<LocalFile>
  {
    Select(fs, ValidateFile, true)
  }

  /** The invalid files of a batch, in their order. */
  function Invalids(fs: seq<LocalFile>): seq<LocalFile>
  {
    Select(fs, ValidateFile, false)
  }

  /**
   * Every file of a batch lands in exactly one of the two lists: the lists hold the
   * batch's files between them, the first only valid ones and the second only invalid ones.
   */
  lemma PartitionExact(fs: seq<LocalFile>)
    ensures multiset(Valids(fs)) + multiset(Invalids(fs)) == multiset(fs)
    ensures |Valids(fs)| + |Invalids(fs)| == |fs|
    ensures forall f :: f in Valids(fs) ==> ValidateFile(f)
    ensures forall f :: f in Invalids(fs) ==> !ValidateFile(f)
  {
    SelectSplits(fs, ValidateFile);
  }

  /**
   * The split keeps the batch's order: splitting two batches one after the other gives
   * the first batch's files ahead of the second's in both lists.
   */
  lemma PartitionKeepsOrder(fs: seq<LocalFile>, gs: seq<LocalFile>)
    ensures Valids(fs + gs) == Valids(fs) + Valids(gs)
    ensures Invalids(fs + gs) == Invalids(fs) + Invalids(gs)
  {
    SelectConcat(fs, gs, ValidateFile, true);
    SelectConcat(fs, gs, ValidateFile, false);
  }

  /** A batch of valid files passes through unchanged. */
  lemma AllValidKept(fs: seq<LocalFile>)
    requires forall i :: 0 <= i < |fs| ==> ValidateFile(fs[i])
    ensures Valids(fs) == fs && Invalids(fs) == []
  {
    SelectUniform(fs, ValidateFile, true);
  }

  /** A batch of invalid files leaves no valid file. */
  lemma AllInvalidDropped(fs: seq<LocalFile>)
    requires forall i :: 0 <= i < |fs| ==> !ValidateFile(fs[i])
    ensures Valids(fs) == [] && Invalids(fs) == fs
  {
    SelectUniform(fs, ValidateFile, false);
  }

  /** handleFileSelection's forEach: pushes each file onto the valid or the invalid list. */
  method SplitByValidity(files: seq<LocalFile>) returns (valid: seq<LocalFile>, invalid: seq<LocalFile>)
    ensures valid == Valids(files) && invalid == Invalids(files)
    ensures multiset(valid) + multiset(invalid) == multiset(files)
    ensures forall f :: f in valid ==> ValidateFile(f)
    ensures forall f :: f in invalid ==> !ValidateFile(f)
  {
    valid, invalid := [], [];
    var i := 0;
    while i < |files|
      invariant 0 <= i <= |files|
      invariant valid == Valids(files[..i]) && invalid == Invalids(files[..i])
    {
      assert files[..i + 1][..i] == files[..i];
      if ValidateFile(files[i]) {
        valid := valid + [files[i]];
      } else {
        invalid := invalid + [files[i]];
      }
      i := i + 1;
    }
    assert files[..|files|] == files;
    PartitionExact(files);
  }

  /** getCurrentStoragePath's table for a user; the home root is per user when the user has an id. */
  function StorageMap(user: Option<User>): map<string, string>
  {
    map[
      "var" := "/lzcapp/var",
      "cache" := "/lzcapp/cache",
      "home" := if user.Some? && user.value.id != "" then "/lzcapp/run/mnt/home/" + user.value.id else "/lzcapp/run/mnt/home",
      "temp" := "/tmp"
    ]
  }

  /** getCurrentStoragePath: the root of a storage type, falling back to the `var` root. */
  function StorageRoot(storageType: string, user: Option<User>): (root: string)
    ensures storageType == "var" ==> root == "/lzcapp/var"
    ensures storageType == "cache" ==> root == "/lzcapp/cache"
    ensures storageType == "temp" ==> root == "/tmp"
    ensures storageType == "home" && user.Some? && user.value.id != "" ==> root == "/lzcapp/run/mnt/home/" + user.value.id
    ensures storageType == "home" && !(user.Some? && user.value.id != "") ==> root == "/lzcapp/run/mnt/home"
    ensures storageType !in {"var", "cache", "temp", "home"} ==> root == "/lzcapp/var"
  {
    var m := StorageMap(user);
    if storageType in m then m[storageType] else m["var"]
  }

  /** The upload target shown for a root: the root's `uploads` subdirectory. */
  function UploadPath(root: string): string
  {
    root + "/uploads"
  }

  /** Every storage root is absolute, and its upload path lies directly under it. */
  lemma UploadPathUnderRoot(storageType: string, user: Option<User>)
    ensures var root := StorageRoot(storageType, user);
      && |root| > 0 && root[0] == '/'
      && UploadPath(root)[..|root|] == root
      && UploadPath(root)[|root|..] == "/uploads"
  {
  }

  /** Different users get different home roots, and no home root is one of the fixed roots. */
  lemma HomeRootsSeparate(u1: User, u2: User)
    requires u1.id != "" && u2.id != "" && u1.id != u2.id
    ensures StorageRoot("home", Some(u1)) != StorageRoot("home", Some(u2))
    ensures StorageRoot("home", Some(u1)) !in {"/lzcapp/var", "/lzcapp/cache", "/tmp", "/lzcapp/run/mnt/home"}
  {
    var prefix := "/lzcapp/run/mnt/home/";
    var r1, r2 := StorageRoot("home", Some(u1)), StorageRoot("home", Some(u2));
    assert r1 == prefix + u1.id && r2 == prefix + u2.id;
    assert r1[|prefix|..] == u1.id && r2[|prefix|..] == u2.id;
    assert |r1| > |"/lzcapp/run/mnt/home"|;
  }
}
