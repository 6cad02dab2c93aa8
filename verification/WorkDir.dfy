/** The in-memory working directory of tested/workdir/workdir.go. */
module WorkDirs {
  import opened Basics

  datatype Result<T, E> = Ok(value: T) | Err(error: E)

  datatype FileError = FileExists | DirExists | NameTaken | NoSuchFile | NoSuchDir

  /** What a directory holds. */
  datatype Dir = Dir(files: map<string, string>, dirs: map<string, bool>)

  class WorkDir {
    var files: map<string, string>
    var dirs: map<string, bool>

    ghost function View(): Dir
      reads this
    {
      Dir(files, dirs)
    }

    constructor InitEmpty()
      ensures View() == Dir(map[], map[])
    {
      files, dirs := map[], map[];
    }

    method CreateFile(path: string) returns (e: Option<FileError>)
      modifies this`files
      ensures e == if path in old(files) then Some(FileExists) else None
      ensures files == if path in old(files) then old(files) else old(files)[path := ""]
    {
      if path in files {
        return Some(FileExists);
      }
      files := files[path := ""];
      return None;
    }

    method CreateDir(path: string) returns (e: Option<FileError>)
      modifies this`dirs
      ensures e == if path in old(dirs) then Some(DirExists) else if path in files then Some(NameTaken) else None
      ensures dirs == if e.None? then old(dirs)[path := true] else old(dirs)
    {
      if path in dirs {
        return Some(DirExists);
      }
      if path in files {
        return Some(NameTaken);
      }
      dirs := dirs[path := true];
      return None;
    }

    method WriteToFile(path: string, content: string) returns (e: Option<FileError>)
      modifies this`files
      ensures e == if path in old(files) then None else Some(NoSuchFile)
      ensures files == if path in old(files) then old(files)[path := content] else old(files)
    {
      if path !in files {
        return Some(NoSuchFile);
      }
      files := files[path := content];
      return None;
    }

    method AppendToFile(path: string, content: string) returns (e: Option<FileError>)
      modifies this`files
      ensures e == if path in old(files) then None else Some(NoSuchFile)
      ensures files == if path in old(files) then old(files)[path := old(files)[path] + content] else old(files)
    {
      if path !in files {
        return Some(NoSuchFile);
      }
      files := files[path := files[path] + content];
      return None;
    }

    method CatFile(path: string) returns (r: Result<string, FileError>)
      ensures r == if path in files then Ok(files[path]) else Err(NoSuchFile)
    {
      if path !in files {
        return Err(NoSuchFile);
      }
      return Ok(files[path]);
    }

    /** All files, each once, in whatever order the map yields them. */
    method ListFilesRoot() returns (r: seq<string>)
      ensures Distinct(r) && forall p :: p in r <==> p in files
    {
      r := [];
      var todo := files.Keys;
      while todo != {}
        invariant todo <= files.Keys && Distinct(r)
        invariant forall p :: p in r <==> p in files && p !in todo
        decreases |todo|
      {
        var p :| p in todo;
        r := r + [p];
        todo := todo - {p};
      }
    }

    /** The files below a directory, at any depth: those whose path starts with it and a slash. */
    method ListFilesIn(root: string) returns (r: Result<seq<string>, FileError>)
      ensures r.Err? <==> root !in dirs
      ensures r.Err? ==> r.error == NoSuchDir
      ensures r.Ok? ==> Distinct(r.value) && forall p :: p in r.value <==> p in files && root + "/" <= p
    {
      if root !in dirs {
        return Err(NoSuchDir);
      }
      var found := [];
      var todo := files.Keys;
      while todo != {}
        invariant todo <= files.Keys && Distinct(found)
        invariant forall p :: p in found <==> p in files && p !in todo && root + "/" <= p
        decreases |todo|
      {
        var p :| p in todo;
        if root + "/" <= p {
          found := found + [p];
        }
        todo := todo - {p};
      }
      return Ok(found);
    }

    /** A deep copy, entry by entry. */
    method Clone() returns (c: WorkDir)
      ensures fresh(c) && c.View() == View()
    {
      c := new WorkDir.InitEmpty();
      var todo := files.Keys;
      while todo != {}
        invariant todo <= files.Keys && c.dirs == map[]
        invariant c.files == map p | p in files && p !in todo :: files[p]
        decreases |todo|
      {
        var p :| p in todo;
        c.files := c.files[p := files[p]];
        todo := todo - {p};
      }
      assert c.files == files;
      todo := dirs.Keys;
      while todo != {}
        invariant todo <= dirs.Keys && c.files == files
        invariant c.dirs == map p | p in dirs && p !in todo :: dirs[p]
        decreases |todo|
      {
        var p :| p in todo;
        c.dirs := c.dirs[p := dirs[p]];
        todo := todo - {p};
      }
      assert c.dirs == dirs;
    }
  }
}
