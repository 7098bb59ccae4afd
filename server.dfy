/** The request handlers of backend/src/index.js and the upload signature
    check `isPDF`. Each handler is modelled from the point where Express
    has parsed the request: the query numbers, the uploaded file's path,
    the id list of the body. UUIDs are fresh identifiers passed in, and
    the PDF codec and the compressor are injected. The handlers of
    backend/index.js are the same code, apart from its upload handler
    (module LegacyServer). */
module Server {
  import opened Common
  import opened Files
  import opened Resolver
  import PageEditor
  import Merger
  import Compressor

  /** The bytes "%PDF" every PDF file starts with (the file header of
      section 7.5.2 of ISO 32000-1). */
  const PdfMagicNumbers: seq<Byte> := [0x25, 0x50, 0x44, 0x46]

  /** The buffer starts with the four bytes "%PDF". */
  predicate HasPdfSignature(buffer: seq<Byte>)
  {
    |buffer| >= |PdfMagicNumbers| && buffer[..|PdfMagicNumbers|] == PdfMagicNumbers
  }

  /** isPDF: compares the first four bytes with "%PDF", stopping at the
      first mismatch. A byte past the end of a short buffer reads as
      `undefined`, which matches no number, so short buffers fail. */
  method IsPDF(fileBuffer: seq<Byte>) returns (ok: bool)
    ensures ok <==> HasPdfSignature(fileBuffer)
  {
    var i := 0;
    while i < |PdfMagicNumbers|
      invariant 0 <= i <= |PdfMagicNumbers|
      invariant i <= |fileBuffer| && fileBuffer[..i] == PdfMagicNumbers[..i]
    {
      if i >= |fileBuffer| || fileBuffer[i] != PdfMagicNumbers[i] {
        return false;
      }
      i := i + 1;
    }
    ok := true;
  }

  /** The signature bytes are the character codes of "%PDF". */
  lemma MagicNumbersSpellPercentPDF()
    ensures |PdfMagicNumbers| == |"%PDF"|
    ensures forall i :: 0 <= i < |PdfMagicNumbers| ==> PdfMagicNumbers[i] as int == "%PDF"[i] as int
  {
  }

  /** Only the first four bytes matter: a buffer shorter than four bytes
      is rejected, and bytes appended after the fourth never change the
      verdict, nor does any change after the fourth byte. */
  lemma {:induction false} SignatureLooksAtFirstFourBytes(a: seq<Byte>, b: seq<Byte>)
    ensures |a| < 4 ==> !HasPdfSignature(a)
    ensures |a| >= 4 ==> (HasPdfSignature(a + b) <==> HasPdfSignature(a))
    ensures |a| >= 4 && |b| >= 4 && a[..4] == b[..4] ==> (HasPdfSignature(a) <==> HasPdfSignature(b))
  {
    if |a| >= 4 {
      assert (a + b)[..4] == a[..4];
    }
  }

  /** What a handler sends back. */
  datatype Reply =
    | Json(status: nat, key: string, text: string)  // res.status(status).json({ key: text })
    | PdfBytes(bytes: seq<Byte>)                    // 200 with Content-Type application/pdf
    | Uncaught(message: string)                     // thrown out of a synchronous handler: Express answers 500

  /** The number Number(req.query.x) gives: NaN, or a whole number. */
  datatype QueryNumber = NaN | Num(value: int)

  const NotFound: string := "PDF file not found for the specified ID."
  const BadMoveIndices: string :=
    "sourceIndex and targetIndex should be whole number between 0 and (max page-1) on a non empty pdf !"
  const BadPageIndex: string :=
    "pageIndex should be whole number between 0 and (max page-1) on a non empty pdf !"
  const UnresolvedMergeId: string := "One or more id of this list is undefined, please retry..."
  /** The TypeError `pdfIdList.map` raises when the body has no list, in
      V8's wording from Node 16.9 on. */
  const MissingIdList: string := "Cannot read properties of undefined (reading 'map')"

  function MovedMessage(sourceIndex: int, targetIndex: int): string
  {
    "Page " + IntToString(sourceIndex) + " moved to " + IntToString(targetIndex) + " successfully"
  }

  function RemovedMessage(pageIndex: int): string
  {
    "The page " + IntToString(pageIndex) + " was removed successfully"
  }

  function MergedMessage(newPdfId: string): string
  {
    "PDFs merged successfully, the id of the new pdf is : " + newPdfId
  }

  /** Resolving the id, reading the file and loading it with the codec,
      as the page handlers do: the pages, or the message of the first
      failure. */
  function OpenDocument(files: map<Path, seq<Byte>>, id: string, codec: Codec): (r: Result<seq<Page>>)
    ensures IdPath(id) !in files ==> r == Err(NotFound)
    ensures IdPath(id) in files ==> r == codec.load(files[IdPath(id)])
  {
    match IdToFilePath(files, id)
    case None => Err(NotFound)
    case Some(pdfPath) => codec.load(files[pdfPath])
  }

  /** pdfIdList.map(idToFilePath), refused as a whole when any id does not
      resolve; otherwise the paths in list order. */
  function ResolveAll(files: map<Path, seq<Byte>>, pdfIdList: seq<string>): (r: Option<seq<Path>>)
    ensures r.Some? <==> forall i :: 0 <= i < |pdfIdList| ==> IdPath(pdfIdList[i]) in files
    ensures r.Some? ==>
      |r.value| == |pdfIdList| && forall i :: 0 <= i < |pdfIdList| ==> r.value[i] == IdPath(pdfIdList[i])
  {
    var pdfPaths := seq(|pdfIdList|, i requires 0 <= i < |pdfIdList| => IdToFilePath(files, pdfIdList[i]));
    if None in pdfPaths then None
    else
      assert forall i :: 0 <= i < |pdfPaths| ==> pdfPaths[i] == IdToFilePath(files, pdfIdList[i]) != None;
      Some(seq(|pdfPaths|, i requires 0 <= i < |pdfPaths| => pdfPaths[i].value))
  }

  /** POST /upload. No file: 400. A file whose bytes fail isPDF: the
      handler throws, and the upload stays where multer put it, never
      under an id. Otherwise the upload is renamed to "./pdf/<fileId>.pdf"
      and the id is returned. */
  method PostUpload(fs: FileStore, uploaded: Option<Path>, fileId: string) returns (reply: Reply)
    requires uploaded.Some? ==> uploaded.value in fs.files
    modifies fs
    ensures uploaded.None? ==> reply == Json(400, "error", "No file uploaded") && fs.files == old(fs.files)
    ensures uploaded.Some? && !HasPdfSignature(old(fs.files)[uploaded.value]) ==>
      reply == Uncaught("Invalid file format. Only PDFs are allowed.") && fs.files == old(fs.files)
    ensures uploaded.Some? && HasPdfSignature(old(fs.files)[uploaded.value]) ==>
      && reply == Json(200, "id", fileId)
      && fs.files == (old(fs.files) - {uploaded.value})[IdPath(fileId) := old(fs.files)[uploaded.value]]
    ensures NoEmptyIdFile(old(fs.files)) && fileId != "" ==> NoEmptyIdFile(fs.files)
  {
    if uploaded.None? {
      return Json(400, "error", "No file uploaded");
    }
    var fileBuffer := fs.ReadFileSync(uploaded.value);
    // readFileSync never returns undefined, so the handler's check for an
    // undefined buffer cannot fire.
    var signed := IsPDF(fileBuffer.value);
    if !signed {
      return Uncaught("Invalid file format. Only PDFs are allowed.");
    }
    var filePath := IdPath(fileId);
    var _ := fs.RenameSync(uploaded.value, filePath);
    IdPathInjective(fileId, "");
    reply := Json(200, "id", fileId);
  }

  /** GET /fetch/:id: the stored bytes, unchanged, or 404 when the id does
      not resolve. */
  method GetFetch(fs: FileStore, fileId: string) returns (reply: Reply)
    ensures IdPath(fileId) !in fs.files ==> reply == Json(404, "error", NotFound)
    ensures IdPath(fileId) in fs.files ==> reply == PdfBytes(fs.files[IdPath(fileId)])
    ensures fileId == "" && NoEmptyIdFile(fs.files) ==> reply.Json? && reply.status == 404
  {
    var pdfPath := IdToFilePath(fs.files, fileId);
    if pdfPath.None? {
      return Json(404, "error", NotFound);
    }
    var pdfBytes := fs.ReadFileSync(pdfPath.value);
    reply := PdfBytes(pdfBytes.value);
  }

  /** A client of the two handlers above: a signed upload is fetched back
      byte for byte under the id it was given. */
  method UploadThenFetch(fs: FileStore, uploaded: Path, fileId: string) returns (reply: Reply)
    requires uploaded in fs.files
    modifies fs
    ensures HasPdfSignature(old(fs.files)[uploaded]) ==> reply == PdfBytes(old(fs.files)[uploaded])
  {
    var _ := PostUpload(fs, Some(uploaded), fileId);
    reply := GetFetch(fs, fileId);
  }

  /** POST /movePage/:id as written. A NaN index is refused before the id
      is resolved or any file is read; an unresolved id or a file the
      codec rejects gives 500 and changes nothing. Otherwise movePage is
      called without `await`: its rejection for out-of-range indices never
      reaches the handler's catch, so the unchanged document is saved
      back and the handler reports success. This is Node 16.9 or later run
      with `--unhandled-rejections=warn`; under the default `throw` mode
      the rejection ends the process instead. */
  method PostMovePage(fs: FileStore, id: string, sourceIndex: QueryNumber, targetIndex: QueryNumber, codec: Codec)
    returns (reply: Reply)
    modifies fs
    ensures sourceIndex.NaN? || targetIndex.NaN? ==>
      reply == Json(500, "error", BadMoveIndices) && fs.files == old(fs.files)
    ensures sourceIndex.Num? && targetIndex.Num? && OpenDocument(old(fs.files), id, codec).Err? ==>
      reply == Json(500, "error", OpenDocument(old(fs.files), id, codec).error) && fs.files == old(fs.files)
    ensures sourceIndex.Num? && targetIndex.Num? && OpenDocument(old(fs.files), id, codec).Ok? ==>
      var pages := OpenDocument(old(fs.files), id, codec).value;
      var s, t := sourceIndex.value, targetIndex.value;
      && reply == Json(200, "message", MovedMessage(s, t))
      && fs.files == old(fs.files)[IdPath(id) := codec.save(
           if 0 <= s < |pages| && 0 <= t < |pages| then PageEditor.Moved(pages, s, t) else pages)]
    ensures NoEmptyIdFile(old(fs.files)) ==> NoEmptyIdFile(fs.files)
  {
    if sourceIndex.NaN? || targetIndex.NaN? {
      return Json(500, "error", BadMoveIndices);
    }
    var pdfPath := IdToFilePath(fs.files, id);
    if pdfPath.None? {
      return Json(500, "error", NotFound);
    }
    var pdfBytes := fs.ReadFileSync(pdfPath.value);
    var loaded := codec.load(pdfBytes.value);
    if loaded.Err? {
      return Json(500, "error", loaded.error);
    }
    var pdfDoc := new PageEditor.PdfDocument(loaded.value);
    // Not awaited: the outcome is dropped.
    var _ := PageEditor.MovePage(pdfDoc, sourceIndex.value, targetIndex.value);
    var modifiedPdfBytes := codec.save(pdfDoc.pages);
    fs.WriteFileSync(pdfPath.value, modifiedPdfBytes);
    reply := Json(200, "message", MovedMessage(sourceIndex.value, targetIndex.value));
  }

  /** POST /movePage/:id with movePage awaited, as the handler's catch
      evidently intends: out-of-range indices give 500 "Invalid page
      indices" and leave the file untouched. */
  method PostMovePageAwaited(fs: FileStore, id: string, sourceIndex: QueryNumber, targetIndex: QueryNumber, codec: Codec)
    returns (reply: Reply)
    modifies fs
    ensures sourceIndex.NaN? || targetIndex.NaN? ==>
      reply == Json(500, "error", BadMoveIndices) && fs.files == old(fs.files)
    ensures sourceIndex.Num? && targetIndex.Num? && OpenDocument(old(fs.files), id, codec).Err? ==>
      reply == Json(500, "error", OpenDocument(old(fs.files), id, codec).error) && fs.files == old(fs.files)
    ensures sourceIndex.Num? && targetIndex.Num? && OpenDocument(old(fs.files), id, codec).Ok? ==>
      var pages := OpenDocument(old(fs.files), id, codec).value;
      var s, t := sourceIndex.value, targetIndex.value;
      if 0 <= s < |pages| && 0 <= t < |pages| then
        && reply == Json(200, "message", MovedMessage(s, t))
        && fs.files == old(fs.files)[IdPath(id) := codec.save(PageEditor.Moved(pages, s, t))]
      else
        reply == Json(500, "error", "Invalid page indices") && fs.files == old(fs.files)
    ensures NoEmptyIdFile(old(fs.files)) ==> NoEmptyIdFile(fs.files)
  {
    if sourceIndex.NaN? || targetIndex.NaN? {
      return Json(500, "error", BadMoveIndices);
    }
    var pdfPath := IdToFilePath(fs.files, id);
    if pdfPath.None? {
      return Json(500, "error", NotFound);
    }
    var pdfBytes := fs.ReadFileSync(pdfPath.value);
    var loaded := codec.load(pdfBytes.value);
    if loaded.Err? {
      return Json(500, "error", loaded.error);
    }
    var pdfDoc := new PageEditor.PdfDocument(loaded.value);
    var moved := PageEditor.MovePage(pdfDoc, sourceIndex.value, targetIndex.value);
    if moved.Fail? {
      return Json(500, "error", moved.error);
    }
    var modifiedPdfBytes := codec.save(pdfDoc.pages);
    fs.WriteFileSync(pdfPath.value, modifiedPdfBytes);
    reply := Json(200, "message", MovedMessage(sourceIndex.value, targetIndex.value));
  }

  /** POST /removePage/:id. A NaN index is refused before the id is
      resolved; an unresolved id or a file the codec rejects gives 500 and
      changes nothing. Otherwise removePage runs and the document is saved
      back with a success message, also when the index was out of range
      and no page was removed. */
  method PostRemovePage(fs: FileStore, id: string, pageIndex: QueryNumber, codec: Codec) returns (reply: Reply)
    modifies fs
    ensures pageIndex.NaN? ==> reply == Json(500, "error", BadPageIndex) && fs.files == old(fs.files)
    ensures pageIndex.Num? && OpenDocument(old(fs.files), id, codec).Err? ==>
      reply == Json(500, "error", OpenDocument(old(fs.files), id, codec).error) && fs.files == old(fs.files)
    ensures pageIndex.Num? && OpenDocument(old(fs.files), id, codec).Ok? ==>
      var pages := OpenDocument(old(fs.files), id, codec).value;
      var i := pageIndex.value;
      && reply == Json(200, "message", RemovedMessage(i))
      && fs.files == old(fs.files)[IdPath(id) := codec.save(
           if 0 <= i < |pages| then PageEditor.RemoveAt(pages, i) else pages)]
    ensures NoEmptyIdFile(old(fs.files)) ==> NoEmptyIdFile(fs.files)
  {
    if pageIndex.NaN? {
      return Json(500, "error", BadPageIndex);
    }
    var pdfPath := IdToFilePath(fs.files, id);
    if pdfPath.None? {
      return Json(500, "error", NotFound);
    }
    var pdfBytes := fs.ReadFileSync(pdfPath.value);
    var loaded := codec.load(pdfBytes.value);
    if loaded.Err? {
      return Json(500, "error", loaded.error);
    }
    var pdfDoc := new PageEditor.PdfDocument(loaded.value);
    var _ := PageEditor.RemovePage(pdfDoc, pageIndex.value);
    var modifiedPdfBytes := codec.save(pdfDoc.pages);
    fs.WriteFileSync(pdfPath.value, modifiedPdfBytes);
    reply := Json(200, "message", RemovedMessage(pageIndex.value));
  }

  /** POST /mergePDF as written. A missing list or any unresolved id gives
      500 before an id is drawn or anything is merged. Otherwise mergePDFs
      is called without `await` on the resolved paths in list order, and
      the new id is reported at once: also when the merge fails and no
      file is ever written under that id. Under the `throw` default of
      Node 15 and later that failure also ends the process after the
      reply; the model describes Node 16.9 or later run with
      `--unhandled-rejections=warn`. */
  method PostMergePDF(fs: FileStore, pdfIdList: Option<seq<string>>, newPdfId: string, codec: Codec)
    returns (reply: Reply)
    modifies fs
    ensures pdfIdList.None? ==> reply == Json(500, "error", MissingIdList) && fs.files == old(fs.files)
    ensures pdfIdList.Some? && ResolveAll(old(fs.files), pdfIdList.value).None? ==>
      reply == Json(500, "error", UnresolvedMergeId) && fs.files == old(fs.files)
    ensures pdfIdList.Some? && ResolveAll(old(fs.files), pdfIdList.value).Some? ==>
      var loaded := Merger.LoadAll(old(fs.files), ResolveAll(old(fs.files), pdfIdList.value).value, codec);
      && reply == Json(200, "message", MergedMessage(newPdfId))
      && (loaded.Ok? ==> fs.files == old(fs.files)[IdPath(newPdfId) := codec.save(Merger.Concat(loaded.value))])
      && (loaded.Err? ==> fs.files == old(fs.files))
    ensures NoEmptyIdFile(old(fs.files)) && newPdfId != "" ==> NoEmptyIdFile(fs.files)
  {
    if pdfIdList.None? {
      return Json(500, "error", MissingIdList);
    }
    var pdfPaths := ResolveAll(fs.files, pdfIdList.value);
    if pdfPaths.None? {
      return Json(500, "error", UnresolvedMergeId);
    }
    // Not awaited: the outcome is dropped.
    var _ := Merger.MergePDFs(fs, pdfPaths.value, newPdfId, codec);
    IdPathInjective(newPdfId, "");
    reply := Json(200, "message", MergedMessage(newPdfId));
  }

  /** POST /mergePDF with mergePDFs awaited, as the handler's catch
      evidently intends: a merge that fails gives 500 with its error and
      reports no id. */
  method PostMergePDFAwaited(fs: FileStore, pdfIdList: Option<seq<string>>, newPdfId: string, codec: Codec)
    returns (reply: Reply)
    modifies fs
    ensures pdfIdList.None? ==> reply == Json(500, "error", MissingIdList) && fs.files == old(fs.files)
    ensures pdfIdList.Some? && ResolveAll(old(fs.files), pdfIdList.value).None? ==>
      reply == Json(500, "error", UnresolvedMergeId) && fs.files == old(fs.files)
    ensures pdfIdList.Some? && ResolveAll(old(fs.files), pdfIdList.value).Some? ==>
      var loaded := Merger.LoadAll(old(fs.files), ResolveAll(old(fs.files), pdfIdList.value).value, codec);
      if loaded.Ok? then
        && reply == Json(200, "message", MergedMessage(newPdfId))
        && fs.files == old(fs.files)[IdPath(newPdfId) := codec.save(Merger.Concat(loaded.value))]
      else
        reply == Json(500, "error", loaded.error) && fs.files == old(fs.files)
    ensures NoEmptyIdFile(old(fs.files)) && newPdfId != "" ==> NoEmptyIdFile(fs.files)
  {
    if pdfIdList.None? {
      return Json(500, "error", MissingIdList);
    }
    var pdfPaths := ResolveAll(fs.files, pdfIdList.value);
    if pdfPaths.None? {
      return Json(500, "error", UnresolvedMergeId);
    }
    var merged := Merger.MergePDFs(fs, pdfPaths.value, newPdfId, codec);
    if merged.Fail? {
      return Json(500, "error", merged.error);
    }
    IdPathInjective(newPdfId, "");
    reply := Json(200, "message", MergedMessage(newPdfId));
  }

  /** POST /compressPDF/:id: 500 for an unresolved id; otherwise the
      awaited compressPDF decides between success and "Failed to compress
      PDF.", which leaves the store unchanged. */
  method PostCompressPDF(fs: FileStore, id: string, compressor: seq<Byte> -> Result<seq<Byte>>)
    returns (reply: Reply)
    modifies fs
    ensures IdPath(id) !in old(fs.files) ==> reply == Json(500, "error", NotFound) && fs.files == old(fs.files)
    ensures IdPath(id) in old(fs.files) ==>
      var p := IdPath(id);
      var output := compressor(old(fs.files)[p]);
      if output.Ok? then
        && reply == Json(200, "message", "PDF compressed successfully")
        && fs.files == (old(fs.files) - {Compressor.TempPath(p)})[p := output.value]
      else
        reply == Json(500, "error", "Failed to compress PDF.") && fs.files == old(fs.files)
    ensures NoEmptyIdFile(old(fs.files)) ==> NoEmptyIdFile(fs.files)
  {
    var pdfPath := IdToFilePath(fs.files, id);
    if pdfPath.None? {
      return Json(500, "error", NotFound);
    }
    if id != "" {
      IdPathInjective(id, "");
      Compressor.TempPathIsNotEmptyIdPath(pdfPath.value);
    }
    var compressed, _ := Compressor.CompressPDF(fs, pdfPath.value, compressor);
    if compressed.Fail? {
      return Json(500, "error", compressed.error);
    }
    reply := Json(200, "message", "PDF compressed successfully");
  }

  /** The move handler as written, on a three-page document asked to move
      page 5: movePage rejects, nobody awaits the rejection, and the
      client is told the move succeeded (with Node run with
      `--unhandled-rejections=warn`). */
  method OutOfRangeMoveReportsSuccess(fs: FileStore, id: string, codec: Codec) returns (reply: Reply)
    requires IdPath(id) in fs.files
    requires codec.load(fs.files[IdPath(id)]).Ok? && |codec.load(fs.files[IdPath(id)]).value| == 3
    modifies fs
    ensures reply == Json(200, "message", "Page 5 moved to 2 successfully")
    ensures fs.files == old(fs.files)[IdPath(id) := codec.save(codec.load(old(fs.files)[IdPath(id)]).value)]
  {
    reply := PostMovePage(fs, id, Num(5), Num(2), codec);
  }

  /** The merge handler as written, on one stored file the codec cannot
      load: the client is given an id, and that id never resolves. */
  method FailedMergeReportsId(fs: FileStore, id: string, newPdfId: string, codec: Codec) returns (reply: Reply)
    requires IdPath(id) in fs.files && codec.load(fs.files[IdPath(id)]).Err?
    requires IdPath(newPdfId) !in fs.files
    modifies fs
    ensures reply == Json(200, "message", MergedMessage(newPdfId))
    ensures IdToFilePath(fs.files, newPdfId) == None
  {
    reply := PostMergePDF(fs, Some([id]), newPdfId, codec);
  }
}
