/** mergePDFs of backend/pdf.js: every page of every input document, in
    list order, copied into one new document stored under a new id. */
module Merger {
  import opened Common
  import opened Files
  import opened Resolver
  import opened PageEditor

  /** The pages of the listed documents one after the other. */
  function Concat(docs: seq<seq<Page>>): seq<Page>
  {
    if docs == [] then [] else Concat(docs[..|docs| - 1]) + docs[|docs| - 1]
  }

  /** The number of pages over all listed documents. */
  function TotalPages(docs: seq<seq<Page>>): nat
  {
    if docs == [] then 0 else TotalPages(docs[..|docs| - 1]) + |docs[|docs| - 1]|
  }

  /** Reading and loading every listed file, in order: the page sequence
      of each, or the first error (a missing file or bytes the codec
      rejects). */
  function LoadAll(files: map<Path, seq<Byte>>, paths: seq<Path>, codec: Codec): (r: Result<seq<seq<Page>>>)
    ensures r.Ok? ==> |r.value| == |paths|
    ensures r.Ok? ==> forall i :: 0 <= i < |paths| ==> paths[i] in files
  {
    if paths == [] then Ok([])
    else
      match LoadAll(files, paths[..|paths| - 1], codec)
      case Err(e) => Err(e)
      case Ok(docs) =>
        var p := paths[|paths| - 1];
        if p !in files then Err("ENOENT: no such file or directory, open '" + p + "'")
        else
          match codec.load(files[p])
          case Err(e) => Err(e)
          case Ok(pages) => Ok(docs + [pages])
  }

  /** Loading succeeds exactly when every listed file exists and loads,
      and then yields one page sequence per path, each that file's pages. */
  lemma {:induction false} LoadAllSucceeds(files: map<Path, seq<Byte>>, paths: seq<Path>, codec: Codec)
    ensures LoadAll(files, paths, codec).Ok? <==>
      forall i :: 0 <= i < |paths| ==> paths[i] in files && codec.load(files[paths[i]]).Ok?
    ensures LoadAll(files, paths, codec).Ok? ==>
      var docs := LoadAll(files, paths, codec).value;
      |docs| == |paths| &&
      forall i :: 0 <= i < |paths| ==> docs[i] == codec.load(files[paths[i]]).value
  {
    if paths != [] {
      var init := paths[..|paths| - 1];
      LoadAllSucceeds(files, init, codec);
      assert forall i :: 0 <= i < |init| ==> init[i] == paths[i];
    }
  }

  /** The merged document has as many pages as all inputs together. */
  lemma {:induction false} ConcatLength(docs: seq<seq<Page>>)
    ensures |Concat(docs)| == TotalPages(docs)
  {
    if docs != [] {
      ConcatLength(docs[..|docs| - 1]);
    }
  }

  /** Page `j` of input `i` lands at offset `j` after all pages of the
      inputs listed before it: no interleaving, each input in order. */
  lemma {:induction false} ConcatAt(docs: seq<seq<Page>>, i: nat, j: nat)
    requires i < |docs| && j < |docs[i]|
    ensures TotalPages(docs[..i]) + j < |Concat(docs)|
    ensures Concat(docs)[TotalPages(docs[..i]) + j] == docs[i][j]
  {
    var last := |docs| - 1;
    var init := docs[..last];
    ConcatLength(init);
    ConcatLength(docs);
    if i == last {
      assert docs[..i] == init;
    } else {
      assert init[..i] == docs[..i];
      ConcatAt(init, i, j);
    }
  }

  /** Merging no documents gives a document with no pages. */
  lemma MergeOfNothingIsEmpty(files: map<Path, seq<Byte>>, codec: Codec)
    ensures LoadAll(files, [], codec) == Ok([])
    ensures Concat([]) == [] && TotalPages([]) == 0
  {
  }

  /** mergePDFs: creates an empty document, appends the pages of each
      listed file in list order, saves it and writes it to
      "./pdf/<newId>.pdf". The result is written only after every input
      loaded, so a failure leaves the store unchanged; inputs are never
      written. */
  method MergePDFs(fs: FileStore, pdfPaths: seq<Path>, newId: string, codec: Codec) returns (r: Outcome)
    modifies fs
    ensures r.Pass? <==> LoadAll(old(fs.files), pdfPaths, codec).Ok?
    ensures r.Pass? ==>
      fs.files == old(fs.files)[IdPath(newId) := codec.save(Concat(LoadAll(old(fs.files), pdfPaths, codec).value))]
    ensures r.Fail? ==> r.error == LoadAll(old(fs.files), pdfPaths, codec).error && fs.files == old(fs.files)
  {
    var mergedPdfDoc := new PdfDocument([]);
    var i := 0;
    while i < |pdfPaths|
      invariant 0 <= i <= |pdfPaths|
      invariant fs.files == old(fs.files)
      invariant LoadAll(fs.files, pdfPaths[..i], codec).Ok?
      invariant mergedPdfDoc.pages == Concat(LoadAll(fs.files, pdfPaths[..i], codec).value)
    {
      ghost var docs := LoadAll(fs.files, pdfPaths[..i], codec).value;
      assert pdfPaths[..i + 1][..i] == pdfPaths[..i];
      var pdfBytes := fs.ReadFileSync(pdfPaths[i]);
      if pdfBytes.Err? {
        r := Fail(pdfBytes.error);
        PrefixFailurePropagates(fs.files, pdfPaths, i + 1, codec);
        return;
      }
      var pdf := codec.load(pdfBytes.value);
      if pdf.Err? {
        r := Fail(pdf.error);
        PrefixFailurePropagates(fs.files, pdfPaths, i + 1, codec);
        return;
      }
      var copiedPages := pdf.value;
      var j := 0;
      while j < |copiedPages|
        invariant 0 <= j <= |copiedPages|
        invariant mergedPdfDoc.pages == Concat(docs) + copiedPages[..j]
        modifies mergedPdfDoc
      {
        mergedPdfDoc.AddPage(copiedPages[j]);
        j := j + 1;
      }
      assert copiedPages[..j] == copiedPages;
      assert Concat(docs + [copiedPages]) == Concat(docs) + copiedPages by {
        assert (docs + [copiedPages])[..|docs|] == docs;
      }
      i := i + 1;
    }
    assert pdfPaths[..i] == pdfPaths;
    var mergedPdfBytes := codec.save(mergedPdfDoc.pages);
    fs.WriteFileSync(IdPath(newId), mergedPdfBytes);
    r := Pass;
  }

  /** The first failing file decides the result of loading any longer
      list. */
  lemma {:induction false} PrefixFailurePropagates(files: map<Path, seq<Byte>>, paths: seq<Path>, k: nat, codec: Codec)
    requires k <= |paths|
    requires LoadAll(files, paths[..k], codec).Err?
    ensures LoadAll(files, paths, codec) == LoadAll(files, paths[..k], codec)
    decreases |paths| - k
  {
    if k < |paths| {
      assert paths[..k + 1][..k] == paths[..k];
      PrefixFailurePropagates(files, paths, k + 1, codec);
    } else {
      assert paths[..k] == paths;
    }
  }
}
