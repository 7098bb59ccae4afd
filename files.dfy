/** The part of Node's `fs` module the service uses, over a store that
    maps each path to the bytes of the file there. */
module Files {
  import opened Common

  class FileStore {
    var files: map<Path, seq<Byte>>

    constructor (initial: map<Path, seq<Byte>>)
      ensures files == initial
    {
      files := initial;
    }

    /** fs.readFileSync: the bytes at `p`, or the error Node throws. */
    function ReadFileSync(p: Path): (r: Result<seq<Byte>>)
      reads this
      ensures r.Ok? <==> p in files
      ensures r.Ok? ==> r.value == files[p]
    {
      if p in files then Ok(files[p])
      else Err("ENOENT: no such file or directory, open '" + p + "'")
    }

    /** fs.writeFileSync: creates or overwrites the file at `p`. */
    method WriteFileSync(p: Path, bytes: seq<Byte>)
      modifies this
      ensures files == old(files)[p := bytes]
    {
      files := files[p := bytes];
    }

    /** fs.renameSync: moves the file at `source` to `target`, replacing
        whatever was at `target`; fails and changes nothing when there is
        no file at `source`. Renaming a file onto itself changes nothing. */
    method RenameSync(source: Path, target: Path) returns (r: Outcome)
      modifies this
      ensures r.Pass? <==> source in old(files)
      ensures r.Pass? ==> files == (old(files) - {source})[target := old(files)[source]]
      ensures r.Fail? ==> files == old(files)
    {
      if source in files {
        files := (files - {source})[target := files[source]];
        r := Pass;
      } else {
        r := Fail("ENOENT: no such file or directory, rename '" + source + "' -> '" + target + "'");
      }
    }
  }
}
