/** backend/index.js, the older server. Its sweep and its fetch, page,
    merge and compress handlers are the same code as backend/src/index.js
    (modules Sweeper and Server); only its upload handler differs: it has
    no signature check. */
module LegacyServer {
  import opened Common
  import opened Files
  import opened Resolver
  import Server

  /** POST /upload of backend/index.js: any uploaded file is renamed to
      "./pdf/<fileId>.pdf", whatever its bytes, and the id is returned. */
  method PostUpload(fs: FileStore, uploaded: Option<Path>, fileId: string) returns (reply: Server.Reply)
    requires uploaded.Some? ==> uploaded.value in fs.files
    modifies fs
    ensures uploaded.None? ==> reply == Server.Json(400, "error", "No file uploaded") && fs.files == old(fs.files)
    ensures uploaded.Some? ==>
      && reply == Server.Json(200, "id", fileId)
      && fs.files == (old(fs.files) - {uploaded.value})[IdPath(fileId) := old(fs.files)[uploaded.value]]
    ensures NoEmptyIdFile(old(fs.files)) && fileId != "" ==> NoEmptyIdFile(fs.files)
  {
    if uploaded.None? {
      return Server.Json(400, "error", "No file uploaded");
    }
    var filePath := IdPath(fileId);
    var _ := fs.RenameSync(uploaded.value, filePath);
    IdPathInjective(fileId, "");
    reply := Server.Json(200, "id", fileId);
  }

  /** What this server admits and backend/src/index.js refuses: an upload
      without the "%PDF" header is stored and fetched back under its id. */
  method UnsignedUploadIsServed(fs: FileStore, uploaded: Path, fileId: string) returns (reply: Server.Reply)
    requires uploaded in fs.files
    requires !Server.HasPdfSignature(fs.files[uploaded])
    modifies fs
    ensures reply == Server.PdfBytes(old(fs.files)[uploaded])
  {
    var _ := PostUpload(fs, Some(uploaded), fileId);
    reply := Server.GetFetch(fs, fileId);
  }
}
