/** The local filesystem as the engines see it through Go's `os` package:
    files with their bytes and modification times, the directories that
    exist, and per-path fault injection for each operation, so that every
    error branch of the modelled code can be reached. */
module FileSystem {
  import opened Wrappers
  import opened Bytes

  datatype DiskFile = DiskFile(data: Bytes, mtime: int)

  /** An os error: IsNotExist, or any other failure. */
  datatype FsError = NotExist | Failed(msg: string)

  /** The outcome of os.Stat; a directory has a size too (what the
      filesystem reports for it). */
  datatype StatResult = IsFile(size: nat, mtime: int) | IsDir(size: nat) | Missing | StatError

  class Disk {
    var files: map<string, DiskFile>
    var dirs: set<string>
    /** The size os.Stat reports for each directory. */
    var dirSize: string -> nat
    /** The modification time given to files written now. */
    var now: int
    /** Paths on which the operation fails with an error other than not-exist. */
    var readFails: set<string>
    var writeFails: set<string>
    var renameFails: set<string>
    var removeFails: set<string>
    var statFails: set<string>
    var mkdirFails: set<string>

    constructor (files0: map<string, DiskFile>, dirs0: set<string>, dirSize0: string -> nat, now0: int)
      ensures files == files0 && dirs == dirs0 && dirSize == dirSize0 && now == now0
      ensures readFails == writeFails == renameFails == removeFails == statFails == mkdirFails == {}
    {
      files, dirs, dirSize, now := files0, dirs0, dirSize0, now0;
      readFails, writeFails, renameFails, removeFails, statFails, mkdirFails := {}, {}, {}, {}, {}, {};
    }

    /** os.Stat: a stat failure first, then a file, then a directory. */
    function Stat(path: string): (s: StatResult)
      reads this
      ensures s == Missing <==> path !in statFails && path !in files && path !in dirs
      ensures s.IsFile? <==> path !in statFails && path in files
      ensures s.IsFile? ==> s.size == |files[path].data| && s.mtime == files[path].mtime
      ensures s.IsDir? <==> path !in statFails && path !in files && path in dirs
      ensures s.IsDir? ==> s.size == dirSize(path)
    {
      if path in statFails then StatError
      else if path in files then IsFile(|files[path].data|, files[path].mtime)
      else if path in dirs then IsDir(dirSize(path))
      else Missing
    }

    /** os.ReadFile (and reading an opened file to its end): a directory
        opens but cannot be read. */
    function ReadFile(path: string): (r: Result<Bytes>)
      reads this
      ensures r.Ok? <==> path in files && path !in readFails
      ensures r.Ok? ==> r.value == files[path].data
    {
      if path !in files && path in dirs then Err("read " + path + ": is a directory")
      else if path !in files then Err("open " + path + ": no such file or directory")
      else if path in readFails then Err("read " + path + ": input/output error")
      else Ok(files[path].data)
    }

    /** os.WriteFile: creates or truncates the file; a failed write leaves the
        tree as it was. */
    method WriteFile(path: string, data: Bytes) returns (err: Option<string>)
      modifies this`files
      ensures err.Some? <==> path in writeFails
      ensures err.Some? ==> err.value == "write " + path + ": permission denied"
      ensures err.None? ==> files == old(files)[path := DiskFile(data, now)]
      ensures err.Some? ==> files == old(files)
    {
      if path in writeFails {
        err := Some("write " + path + ": permission denied");
      } else {
        files := files[path := DiskFile(data, now)];
        err := None;
      }
    }

    /** os.Rename of a file: atomically replaces `dst`. */
    method Rename(src: string, dst: string) returns (err: Option<string>)
      modifies this`files
      ensures err.None? <==> src in old(files) && src !in renameFails
      ensures src in old(files) && err.Some? ==> err.value == "rename " + src + " " + dst + ": permission denied"
      ensures err.None? ==> files == (old(files) - {src})[dst := old(files)[src]]
      ensures err.Some? ==> files == old(files)
    {
      if src !in files {
        err := Some("rename " + src + " " + dst + ": no such file or directory");
      } else if src in renameFails {
        err := Some("rename " + src + " " + dst + ": permission denied");
      } else {
        files := (files - {src})[dst := files[src]];
        err := None;
      }
    }

    /** os.Remove of a file. */
    method Remove(path: string) returns (err: Option<FsError>)
      modifies this`files
      ensures err == None <==> path in old(files) && path !in removeFails
      ensures err == Some(NotExist) <==> path !in old(files)
      ensures err.Some? && err.value.Failed? ==> err.value.msg == "remove " + path + ": permission denied"
      ensures err.None? ==> files == old(files) - {path}
      ensures err.Some? ==> files == old(files)
    {
      if path !in files {
        err := Some(NotExist);
      } else if path in removeFails {
        err := Some(Failed("remove " + path + ": permission denied"));
      } else {
        files := files - {path};
        err := None;
      }
    }

    /** os.MkdirAll: the directory exists afterwards unless creating it
        fails (a file in the way, say). */
    method MkdirAll(path: string) returns (err: Option<string>)
      modifies this`dirs
      ensures err.Some? <==> path in mkdirFails
      ensures err.Some? ==> err.value == "mkdir " + path + ": not a directory"
      ensures dirs == if err.Some? then old(dirs) else old(dirs) + {path}
    {
      if path in mkdirFails {
        return Some("mkdir " + path + ": not a directory");
      }
      dirs := dirs + {path};
      err := None;
    }
  }
}
