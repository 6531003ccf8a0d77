/** The files the program reads, writes and removes. */
module Storage {
  import opened Bytes

  type Path = CString

  const SEPARATOR: seq<uint8> := ['/' as int]

  /** filepath_concat. */
  function Concat(folder: Path, file: CString): Path {
    folder + SEPARATOR + file
  }

  /** filepath_get_filename: what follows the last separator. */
  function FileName(path: Path): (name: CString)
    ensures SEPARATOR[0] !in name
    ensures name == path || exists k :: 0 <= k < |path| && path[k] == SEPARATOR[0] && name == path[k + 1..]
  {
    if SEPARATOR[0] !in path then path
    else
      assert |path| > 0;
      if path[0] == SEPARATOR[0] && SEPARATOR[0] !in path[1..] then path[1..] else FileName(path[1..])
  }

  class Disk {
    var files: map<Path, seq<uint8>>
    /** Paths that the operating system refuses to open for reading, to open for writing, to remove. */
    const unreadable: set<Path>
    const unwritable: set<Path>
    const undeletable: set<Path>

    predicate CanRead(path: Path)
      reads this
    {
      path in files && path !in unreadable
    }

    /** fopen with "wb": creates the file, or empties it. */
    method OpenForWriting(path: Path) returns (ok: bool)
      modifies this
      ensures ok == (path !in unwritable)
      ensures files == if ok then old(files)[path := []] else old(files)
    {
      ok := path !in unwritable;
      if ok {
        files := files[path := []];
      }
    }

    /** fwrite: appends any non-empty prefix of the bytes. */
    method Write(path: Path, bytes: seq<uint8>) returns (written: nat)
      requires path in files && bytes != []
      modifies this
      ensures 1 <= written <= |bytes|
      ensures files == old(files)[path := old(files[path]) + bytes[..written]]
    {
      written :| 1 <= written <= |bytes|;
      files := files[path := files[path] + bytes[..written]];
    }

    /** file_remove, after the check that the file exists. */
    method Remove(path: Path) returns (ok: bool)
      modifies this
      ensures ok == (path in old(files) && path !in undeletable)
      ensures files == if ok then old(files) - {path} else old(files)
    {
      ok := path in files && path !in undeletable;
      if ok {
        files := files - {path};
      }
    }
  }
}
