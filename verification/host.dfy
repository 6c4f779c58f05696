/** The part of the editor host the extension changes: the workspace file
    system, seen as a map from path to file content, and the three
    operations the extension performs on it (existence check, write,
    rename). */
module Host {
  import opened Wrappers

  type Path = string
  type Content = string

  /** Failures the host raises and the extension does not catch. */
  datatype HostError =
    | NoWorkspaceFolder
    | FileExists(path: Path)
    | FileNotFound(path: Path)

  /** `Uri.joinPath(dir, name)`: `name` appended to `dir` after a `/`. */
  function JoinPath(dir: Path, name: string): Path {
    dir + "/" + name
  }

  /** The file map after the file at `source` has been moved to `target`. */
  function Moved(files: map<Path, Content>, source: Path, target: Path): (r: map<Path, Content>)
    requires source in files
    ensures r.Keys == files.Keys - {source} + {target}
    ensures r[target] == files[source]
    ensures forall p :: p in files && p != source && p != target ==> r[p] == files[p]
  {
    (files - {source})[target := files[source]]
  }

  /** Moving to a free path keeps the number of files. */
  lemma MovedKeepsCount(files: map<Path, Content>, source: Path, target: Path)
    requires source in files && target !in files
    ensures |Moved(files, source, target)| == |files|
  {
    var r := Moved(files, source, target);
    assert r.Keys == (files.Keys - {source}) + {target};
    assert |files.Keys - {source}| == |files.Keys| - 1;
    assert target !in files.Keys - {source};
    assert |r.Keys| == |files.Keys - {source}| + 1;
  }

  /** Moving to a free path and back again restores the file map. */
  lemma MovedBack(files: map<Path, Content>, source: Path, target: Path)
    requires source in files && target !in files
    ensures Moved(Moved(files, source, target), target, source) == files
  {
    var back := Moved(Moved(files, source, target), target, source);
    assert back.Keys == files.Keys;
  }

  /** The workspace file system: every file it holds, by path. */
  class FileSystem {
    var files: map<Path, Content>

    constructor (initial: map<Path, Content>)
      ensures files == initial
    {
      files := initial;
    }

    /** Whether a file exists at `path`; a failing `stat` counts as "no". */
    method Exists(path: Path) returns (found: bool)
      ensures found <==> path in files
    {
      found := path in files;
    }

    /** `workspace.fs.writeFile`: creates or replaces the file at `path`. */
    method WriteFile(path: Path, content: Content)
      modifies this
      ensures files == old(files)[path := content]
    {
      files := files[path := content];
    }

    /** `workspace.fs.rename`: refuses a missing source, and an existing
        target unless `overwrite` is set; otherwise moves the file. */
    method Rename(source: Path, target: Path, overwrite: bool) returns (error: Option<HostError>)
      modifies this
      ensures source !in old(files) ==>
        error == Some(FileNotFound(source)) && files == old(files)
      ensures source in old(files) && target in old(files) && !overwrite ==>
        error == Some(FileExists(target)) && files == old(files)
      ensures source in old(files) && (target !in old(files) || overwrite) ==>
        error == None && files == Moved(old(files), source, target)
    {
      if source !in files {
        error := Some(FileNotFound(source));
      } else if target in files && !overwrite {
        error := Some(FileExists(target));
      } else {
        files := Moved(files, source, target);
        error := None;
      }
    }
  }
}
