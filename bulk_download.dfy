/**
 * The bookkeeping of `download_from_link_list` for one job: make sure the
 * job's folder exists, send the request, and then either log the failed
 * status in the error table or write the body to `{fileName}.pdf` in the
 * folder.
 *
 * The filesystem is a set of directories and a map from file paths to
 * contents; a path is its list of components, so the folder of a job is
 * `[outputPath, folderName]`. The HTTP response and the login token are
 * inputs.
 */
module BulkDownload {
  import opened Wrappers
  import BulkGetPdfs

  type Path = seq<string>

  type Bytes = seq<bv8>

  /** The query the request carries: `login_token` and `client_matter`, sent to the job's link. */
  datatype Request = Request(link: string, loginToken: string, clientMatter: string)

  /** What the server answered: a body, or the message `raise_for_status` raises with. */
  datatype HttpOutcome = Success(content: Bytes) | HttpError(message: string)

  /** One row of the error table: `append_error_table(f"{a}", folderName, fileName)`. */
  datatype ErrorRow = ErrorRow(message: string, folderName: string, fileName: string)

  /**
   * How the call ended: the file was written; the failed status was logged;
   * `open` failed and the error was only printed; or `os.makedirs` raised
   * and the exception left the function.
   */
  datatype Status = Saved | Logged | WriteFailed | Raised

  /** `os.path.join(outputPath, folderName)`. */
  function FolderPath(task: BulkGetPdfs.Task): Path {
    [task.outputPath, task.folderName]
  }

  /** `os.path.join(outputDirectoryPath, f"{fileName}.pdf")`. */
  function FilePath(task: BulkGetPdfs.Task): Path {
    FolderPath(task) + [task.fileName + ".pdf"]
  }

  /** `p` and every directory above it. */
  function Prefixes(p: Path): (r: set<Path>)
    ensures p in r
  {
    assert p[..|p|] == p;
    set k | 0 <= k <= |p| :: p[..k]
  }

  /** Some directory above `p` is a file, so `os.makedirs(p)` raises. */
  predicate Blocked(files: map<Path, Bytes>, p: Path) {
    exists k :: 0 <= k < |p| && p[..k] in files
  }

  /**
   * The directories after `if not os.path.exists(p): os.makedirs(p)`, or
   * `None` when `makedirs` raises. `exists` is true for a file as well as a
   * directory.
   */
  function AfterMakedirs(dirs: set<Path>, files: map<Path, Bytes>, p: Path): Option<set<Path>> {
    if p in dirs || p in files then Some(dirs)
    else if Blocked(files, p) then None
    else Some(dirs + Prefixes(p))
  }

  /**
   * Making a directory is idempotent: once it succeeded, doing it again
   * changes nothing. Unless `p` was already a file, `p` is then a directory.
   */
  lemma AfterMakedirsIdempotent(dirs: set<Path>, files: map<Path, Bytes>, p: Path)
    requires AfterMakedirs(dirs, files, p).Some?
    ensures var made := AfterMakedirs(dirs, files, p).value;
      && dirs <= made
      && (p !in files ==> p in made)
      && AfterMakedirs(made, files, p) == Some(made)
  {
  }

  /** No directory a successful `makedirs` creates is a file, and the directories stay closed under taking parents. */
  lemma AfterMakedirsKeepsTree(dirs: set<Path>, files: map<Path, Bytes>, p: Path)
    requires forall d, k :: d in dirs && 0 <= k <= |d| ==> d[..k] in dirs
    requires forall f :: f in files ==> f !in dirs
    requires AfterMakedirs(dirs, files, p).Some?
    ensures var made := AfterMakedirs(dirs, files, p).value;
      && (forall d, k :: d in made && 0 <= k <= |d| ==> d[..k] in made)
      && (forall f :: f in files ==> f !in made)
  {
    var made := AfterMakedirs(dirs, files, p).value;
    if made != dirs {
      forall d, k | d in made && 0 <= k <= |d|
        ensures d[..k] in made
      {
        if d !in dirs {
          var j :| 0 <= j <= |p| && d == p[..j];
          assert d[..k] == p[..k];
        }
      }
      forall f | f in files
        ensures f !in made
      {
        if f in Prefixes(p) {
          var j :| 0 <= j <= |p| && f == p[..j];
          assert j < |p| ==> Blocked(files, p);
        }
      }
    }
  }

  /** The filesystem and the error table `download_from_link_list` works on. */
  class FileSystem {
    var dirs: set<Path>
    var files: map<Path, Bytes>
    var errorTable: seq<ErrorRow>

    /**
     * The root exists, every directory's parents are directories, every file
     * sits in a directory, and no path is both a file and a directory.
     */
    ghost predicate Valid()
      reads this
    {
      && [] in dirs
      && (forall d, k :: d in dirs && 0 <= k <= |d| ==> d[..k] in dirs)
      && (forall f :: f in files ==> |f| > 0 && f[..|f| - 1] in dirs)
      && (forall f :: f in files ==> f !in dirs)
    }

    /** An empty filesystem and an empty error table. */
    constructor ()
      ensures Valid()
      ensures dirs == {[]} && files == map[] && errorTable == []
    {
      dirs := {[]};
      files := map[];
      errorTable := [];
    }

    /** `if not os.path.exists(p): os.makedirs(p)`; `ok` is false when `makedirs` raises. */
    method EnsureDirectory(p: Path) returns (ok: bool)
      requires Valid()
      modifies this
      ensures Valid()
      ensures ok <==> AfterMakedirs(old(dirs), old(files), p).Some?
      ensures ok ==> dirs == AfterMakedirs(old(dirs), old(files), p).value
      ensures !ok ==> dirs == old(dirs)
      ensures files == old(files) && errorTable == old(errorTable)
    {
      if p in dirs || p in files {
        return true;
      }
      var k := 0;
      while k < |p|
        invariant k <= |p|
        invariant forall j :: 0 <= j < k ==> p[..j] !in files
      {
        if p[..k] in files {
          return false;
        }
        k := k + 1;
      }
      AfterMakedirsKeepsTree(dirs, files, p);
      dirs := dirs + Prefixes(p);
      assert p[..|p| - 1] in Prefixes(p) by {
        assert p != [];
      }
      return true;
    }

    /**
     * `download_from_link_list(task)` with the login token and the server's
     * answer as inputs. `request` is the request sent, if any.
     */
    method Download(task: BulkGetPdfs.Task, loginToken: string, outcome: HttpOutcome)
      returns (request: Option<Request>, status: Status)
      requires Valid()
      modifies this
      ensures Valid()
      ensures var made := AfterMakedirs(old(dirs), old(files), FolderPath(task));
        && (made.None? ==>
              && request.None? && status == Raised
              && dirs == old(dirs) && files == old(files) && errorTable == old(errorTable))
        && (made.Some? ==>
              && request == Some(Request(task.link, loginToken, task.clientMatter))
              && dirs == made.value)
        && (made.Some? && outcome.HttpError? ==>
              && status == Logged
              && files == old(files)
              && errorTable == old(errorTable) + [ErrorRow(outcome.message, task.folderName, task.fileName)])
        && (made.Some? && outcome.Success? ==>
              && errorTable == old(errorTable)
              && if FolderPath(task) in made.value && FilePath(task) !in made.value
                 then status == Saved && files == old(files)[FilePath(task) := outcome.content]
                 else status == WriteFailed && files == old(files))
    {
      var folder := FolderPath(task);
      var ok := EnsureDirectory(folder);
      if !ok {
        return None, Raised;
      }
      request := Some(Request(task.link, loginToken, task.clientMatter));
      if outcome.HttpError? {
        errorTable := errorTable + [ErrorRow(outcome.message, task.folderName, task.fileName)];
        return request, Logged;
      }
      var target := FilePath(task);
      if folder in dirs && target !in dirs {
        assert target[..|target| - 1] == folder;
        files := files[target := outcome.content];
        status := Saved;
      } else {
        status := WriteFailed;
      }
    }
  }
}
