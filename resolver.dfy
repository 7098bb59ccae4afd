/** The identifier resolver `idToFilePath`: an identifier names the file
    "./pdf/<id>.pdf", and resolves only when that file exists. */
module Resolver {
  import opened Common

  const PdfPrefix: string := "./pdf/"
  const PdfSuffix: string := ".pdf"

  /** The path a stored document with identifier `id` lives at. */
  function IdPath(id: string): (p: Path)
  {
    PdfPrefix + id + PdfSuffix
  }

  /** The identifier a path of the form "./pdf/<id>.pdf" names. */
  function IdOfPath(p: Path): (id: string)
    requires |p| >= |PdfPrefix| + |PdfSuffix|
  {
    p[|PdfPrefix|..|p| - |PdfSuffix|]
  }

  /** Stripping the fixed prefix and suffix recovers the identifier: the
      path format loses nothing. */
  lemma {:induction false} IdOfIdPath(id: string)
    ensures |IdPath(id)| == |id| + 10
    ensures IdOfPath(IdPath(id)) == id
  {
    var p := IdPath(id);
    assert p == PdfPrefix + (id + PdfSuffix);
    assert p[|PdfPrefix|..] == id + PdfSuffix;
    assert p[|PdfPrefix|..][..|id|] == id;
  }

  /** Distinct identifiers name distinct files. */
  lemma IdPathInjective(a: string, b: string)
    ensures IdPath(a) == IdPath(b) <==> a == b
  {
    if IdPath(a) == IdPath(b) {
      IdOfIdPath(a);
      IdOfIdPath(b);
    }
  }

  /** idToFilePath: the identifier's path when a file exists there. */
  function IdToFilePath(files: map<Path, seq<Byte>>, id: string): (r: Option<Path>)
    ensures r.Some? <==> IdPath(id) in files
    ensures r.Some? ==> r.value == IdPath(id)
  {
    if IdPath(id) in files then Some(IdPath(id)) else None
  }

  /** The store invariant that makes the empty identifier unresolvable:
      no file is named "./pdf/.pdf". Uploads and merges only ever create
      "./pdf/<uuid>.pdf", and a UUID is never empty. */
  ghost predicate NoEmptyIdFile(files: map<Path, seq<Byte>>)
  {
    IdPath("") !in files
  }

  /** Under the store invariant the empty identifier resolves to nothing. */
  lemma EmptyIdUnresolved(files: map<Path, seq<Byte>>)
    requires NoEmptyIdFile(files)
    ensures IdToFilePath(files, "") == None
  {
  }

  /** Two identifiers that resolve to the same path are the same identifier. */
  lemma ResolvedPathDeterminesId(files: map<Path, seq<Byte>>, a: string, b: string)
    requires IdToFilePath(files, a).Some?
    requires IdToFilePath(files, a) == IdToFilePath(files, b)
    ensures a == b
  {
    IdPathInjective(a, b);
  }
}
