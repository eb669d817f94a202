/** The external state the program changes: the files under the root
    directory, and the git working tree it stages and commits in. */
module Store {
  import opened Basics

  /** A regular file: its contents and its permission bits. */
  datatype File = File(data: seq<byte>, perm: nat)

  /** The errors the program passes along. */
  datatype Error =
    | ReadError(path: string)       // os.ReadFile failed
    | MarshalError                  // xml.MarshalIndent failed
    | StageError(path: string)      // Worktree.Add failed
    | InfoError(path: string)       // DirEntry.Info failed
    | TraversalError(path: string)  // fs.WalkDir could not read an entry
    | EmptyCommitError              // Worktree.Commit refused a commit with no changes

  datatype Result<+T> = Ok(value: T) | Err(error: Error)

  /** The file map after `os.WriteFile(path, data, perm)`: the contents are
      replaced; `perm` is used only when the file is created, an existing file
      keeps its permission bits. */
  function Written(files: map<string, File>, path: string, data: seq<byte>, perm: nat): (r: map<string, File>)
    ensures r.Keys == files.Keys + {path}
    ensures r[path].data == data
    ensures path in files ==> r[path].perm == files[path].perm
    ensures forall p :: p in files && p != path ==> r[p] == files[p]
  {
    files[path := File(data, if path in files then files[path].perm else perm)]
  }

  /** The directory tree under the root, keyed by path relative to the root. */
  class FileSystem {
    var files: map<string, File>

    constructor (files: map<string, File>)
      ensures this.files == files
    {
      this.files := files;
    }

    /** `os.ReadFile`: a path with no regular file behind it is a read error. */
    method ReadFile(path: string) returns (r: Result<seq<byte>>)
      ensures path in files ==> r == Ok(files[path].data)
      ensures path !in files ==> r == Err(ReadError(path))
    {
      if path in files {
        r := Ok(files[path].data);
      } else {
        r := Err(ReadError(path));
      }
    }

    /** `os.WriteFile`, assumed to succeed (the program ignores its error). */
    method WriteFile(path: string, data: seq<byte>, perm: nat)
      modifies this
      ensures files == Written(old(files), path, data, perm)
    {
      files := Written(files, path, data, perm);
    }
  }

  /** One commit: its message and the paths staged when it was made. */
  datatype Commit = Commit(message: string, paths: set<string>)

  /** The go-git working tree: the paths staged since the last commit and the
      commits made. `unstageable` are the paths `Add` rejects (a fact about the
      repository this model takes as given); `refusesEmpty` says whether the
      go-git release in use refuses a commit with nothing staged (newer releases
      do, older ones make an empty commit). */
  class Worktree {
    const unstageable: set<string>
    const refusesEmpty: bool
    var staged: set<string>
    var commits: seq<Commit>

    constructor (unstageable: set<string>, refusesEmpty: bool)
      ensures this.unstageable == unstageable && this.refusesEmpty == refusesEmpty
      ensures staged == {} && commits == []
    {
      this.unstageable := unstageable;
      this.refusesEmpty := refusesEmpty;
      staged, commits := {}, [];
    }

    /** `Worktree.Add(path)`: stages the path, or reports a staging error and stages nothing. */
    method Add(path: string) returns (err: Option<Error>)
      modifies this`staged
      ensures err == (if path in unstageable then Some(StageError(path)) else None)
      ensures staged == if path in unstageable then old(staged) else old(staged) + {path}
    {
      if path in unstageable {
        err := Some(StageError(path));
      } else {
        staged := staged + {path};
        err := None;
      }
    }

    /** `Worktree.Commit(message, ...)`: records everything staged and empties
        the stage, or, when nothing is staged and empty commits are refused,
        reports an error and changes nothing. */
    method CommitStaged(message: string) returns (r: Result<Commit>)
      modifies this`staged, this`commits
      ensures old(staged) == {} && refusesEmpty ==>
                r == Err(EmptyCommitError) && staged == old(staged) && commits == old(commits)
      ensures !(old(staged) == {} && refusesEmpty) ==>
                r == Ok(Commit(message, old(staged))) && commits == old(commits) + [r.value] && staged == {}
    {
      if staged == {} && refusesEmpty {
        return Err(EmptyCommitError);
      }
      var c := Commit(message, staged);
      commits := commits + [c];
      staged := {};
      r := Ok(c);
    }
  }
}
