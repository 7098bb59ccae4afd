# PurePDF backend: document and storage logic in Dafny

This project models the core of the PurePDF backend, a small HTTP service that stores
uploaded PDF files under generated identifiers and edits them. The model covers:

- **Resolver** (`Resolver`): `idToFilePath` maps an identifier to `./pdf/<id>.pdf` when
  that file exists.
- **Page editor** (`PageEditor`): `removePage` and `movePage` work on a document handle,
  the class `PdfDocument` holding an ordered `seq<Page>` that they change in place.
- **Merger** (`Merger`): `mergePDFs` appends the pages of every input, in list order, to a
  fresh document. It writes that document under a new identifier.
- **Compressor** (`Compressor`): `compressPDF` works out the temp path with JavaScript's
  first-occurrence `String.replace`. An injected compressor writes there, and only on
  success is the temp file renamed over the original.
- **Expiry sweep** (`Sweeper`): `deleteOldPDFs` deletes every directory entry last
  modified strictly more than one hour ago.
- **Upload signature check and handlers** (`Server`): `isPDF` and the `/upload`, `/fetch`,
  `/movePage`, `/removePage`, `/mergePDF` and `/compressPDF` handlers of
  `backend/src/index.js`. They are stated in the order their checks run.
- **Older server** (`LegacyServer`): the upload handler of `backend/index.js`, which has
  no signature check.

The file store is the class `Files.FileStore`. It holds a `map<Path, seq<Byte>>` that
`readFileSync`, `writeFileSync` and `renameSync` read and change. Pages are an opaque
type. The PDF codec (pdf-lib's `load` and `save`) is passed in as `Common.Codec`, and
the compressor as a function from the input file's bytes to its output or an error.
Fresh UUIDs and the clock are parameters. The sweep receives the directory as a map
from entry name to modification time.

The sweep and the fetch, page, merge and compress handlers of `backend/index.js`
(lines 12-34 and 62-174) are the same code as `backend/src/index.js` (lines 13-35
and 103-215). `Sweeper` and `Server` model both copies.

`backend/src/index.js` takes `idToFilePath`, `removePage`, `movePage`, `mergePDFs` and
`compressPDF` from `src/pdf.js`, which is not part of this model. The model assumes that
module behaves as `backend/pdf.js` and `backend/index.js:38-41`, which `backend/index.js`
uses. Every `Server` row citing `backend/src/index.js` rests on that assumption.

The handlers' replies are those of a single runtime: Node 16.9 or later run with `--unhandled-rejections=warn`. There a
dropped promise rejection is only logged, and V8 words a property read on `undefined`
as `Cannot read properties of undefined (reading 'map')`.

## Model

| member | source | states |
|---|---|---|
| `Common.NatToString` | backend/src/index.js:145 | a whole number is rendered as decimal digits only, with no leading zero |
| `Common.IntToString` | backend/src/index.js:174 | a leading `-` appears iff the number is negative, and every other character is a decimal digit, at least one of them |
| `Common.NatToStringRoundTrip` | backend/src/index.js:145 | reading the rendered digits back gives the number |
| `Common.NatToStringInjective` | backend/src/index.js:174 | distinct numbers give distinct renderings (both directions) |
| `Common.IntToStringRoundTrip` | backend/src/index.js:145 | a rendered whole number is its sign followed by the digits of its magnitude, which read back as the magnitude |
| `Files.FileStore.ReadFileSync` | backend/src/index.js:113 | `readFileSync` succeeds iff a file is at the path, and then gives its bytes |
| `Files.FileStore.WriteFileSync` | backend/pdf.js:36 | `writeFileSync` creates or overwrites exactly the file at the path |
| `Files.FileStore.RenameSync` | backend/pdf.js:73 | `renameSync` succeeds iff the source exists; the target then holds the source's bytes, the source is gone, and nothing else changes; on failure nothing changes |
| `Resolver.IdToFilePath` | backend/index.js:38-41 | resolves exactly when `./pdf/<id>.pdf` is stored, and then to exactly that path |
| `Resolver.IdOfIdPath` | backend/index.js:39 | the path is the id plus 10 fixed characters, and stripping `./pdf/` and `.pdf` gives the id back |
| `Resolver.IdPathInjective` | backend/index.js:39 | distinct ids give distinct paths (both directions) |
| `Resolver.ResolvedPathDeterminesId` | backend/index.js:38-41 | two ids that resolve to the same path are the same id |
| `Resolver.EmptyIdUnresolved` | backend/index.js:40 | if no file is named `./pdf/.pdf` (an invariant every handler keeps), the empty id does not resolve |
| `PageEditor.PdfDocument.GetPage` | backend/pdf.js:20 | `getPage(i)` returns the page at index `i` |
| `PageEditor.PdfDocument.RemovePageAt` | backend/pdf.js:21 | pdf-lib's `removePage` takes out exactly the page at the index |
| `PageEditor.PdfDocument.InsertPage` | backend/pdf.js:22 | pdf-lib's `insertPage` puts the page in at the index, and later pages shift right |
| `PageEditor.PdfDocument.AddPage` | backend/pdf.js:32 | `addPage` appends one page at the end |
| `PageEditor.RemovePage` | backend/pdf.js:6-11 | removes the page exactly when `0 <= pageIndex < n`; otherwise the pages are unchanged and no error is raised |
| `PageEditor.MovePage` | backend/pdf.js:13-23 | fails with `Invalid page indices` and changes nothing iff either index is outside `[0, n)` of the original count; otherwise the pages become `Moved(old, source, target)` |
| `PageEditor.RemoveAtShiftsLeft` | backend/pdf.js:6-10 | a removal leaves `n-1` pages: earlier pages stay put and later pages move one left, in order |
| `PageEditor.RemoveAtMultiset` | backend/pdf.js:9 | a removal takes exactly that one page out of the multiset of pages |
| `PageEditor.InsertAtRemoveAt` | backend/pdf.js:20-22 | re-inserting a removed page at its old index restores the document |
| `PageEditor.RemoveAtInsertAt` | backend/pdf.js:20-22 | removing a page that was just inserted restores the document |
| `PageEditor.MovedIsPermutation` | backend/pdf.js:20-22 | a move keeps the length `n`, puts the source page at the target, and keeps the multiset of pages |
| `PageEditor.MovedKeepsOthersInOrder` | backend/pdf.js:20-22 | the other pages keep their relative order: the result minus the target equals the original minus the source |
| `PageEditor.MovedAt` | backend/pdf.js:20-22 | for every index of the result, which original page lands there (splice semantics, target counted after the removal) |
| `PageEditor.MoveToSameIndexIsIdentity` | backend/pdf.js:20-22 | `movePage(doc, k, k)` leaves the sequence identical |
| `PageEditor.MoveBackUndoes` | backend/pdf.js:20-22 | moving from target back to source undoes a move |
| `Merger.MergePDFs` | backend/pdf.js:25-37 | succeeds iff every listed file exists and loads. On success the only write is `./pdf/<newId>.pdf`, holding the saved concatenation of the inputs' pages in list order. On failure it reports the first error and writes nothing |
| `Merger.LoadAll` | backend/pdf.js:28-30 | a successful load gives one page sequence per listed path, and every listed path was a stored file |
| `Merger.LoadAllSucceeds` | backend/pdf.js:28-31 | loading the list succeeds iff each file exists and loads, and then gives each file's pages in list order |
| `Merger.PrefixFailurePropagates` | backend/pdf.js:28-30 | the first file that fails decides the outcome for the whole list |
| `Merger.ConcatLength` | backend/pdf.js:28-33 | the merged page count is the sum of the inputs' page counts |
| `Merger.ConcatAt` | backend/pdf.js:28-33 | page `j` of input `i` lands at offset (pages of inputs before `i`) + `j`, with no interleaving |
| `Merger.MergeOfNothingIsEmpty` | backend/pdf.js:26-33 | an empty list loads to no documents and merges to an in-memory document of zero pages (what pdf-lib's `save` then writes is under "## Left out") |
| `Compressor.IndexOfFrom` | backend/pdf.js:71 | the first occurrence of the pattern at or after `from`, or -1 iff there is none |
| `Compressor.IndexOf` | backend/pdf.js:71 | `indexOf`: -1 iff the pattern never occurs, otherwise an occurrence with none before it |
| `Compressor.ReplaceFirst` | backend/pdf.js:71 | `String.prototype.replace` with a string pattern, for a replacement without `$` (as `_compressed.pdf` is): the string unchanged when the pattern is absent; otherwise only the first occurrence is replaced, with the text before and after it kept |
| `Compressor.TempPath` | backend/pdf.js:71 | the temp path is the input path unchanged when it holds no `.pdf`; otherwise its first `.pdf` becomes `_compressed.pdf` and everything around it is kept |
| `Compressor.TempPathLength` | backend/pdf.js:71 | the temp path is 11 characters longer when the path holds `.pdf`, and is the path itself otherwise |
| `Compressor.TempPathOfIdPath` | backend/pdf.js:71 | for an id without `.` (every UUID), the temp path of `./pdf/<id>.pdf` is `./pdf/<id>_compressed.pdf` |
| `Compressor.TempPathOfTestFile` | backend/test/compressPdf.test.js:24-25 | `./pdf/test.pdf` gives the temp path `./pdf/test_compressed.pdf` |
| `Compressor.TempPathIsNotEmptyIdPath` | backend/pdf.js:71-73 | compressing a stored document never creates `./pdf/.pdf` |
| `Compressor.CompressPDF` | backend/pdf.js:69-79 | an empty path fails before the compressor runs; otherwise the compressor runs once. On success the temp file is renamed over the original, which then holds the compressor's output. Any failure raises `Failed to compress PDF.` and leaves the store unchanged |
| `Sweeper.DeleteOldPDFs` | backend/src/index.js:13-35 | keeps exactly the entries with `now - mtime <= 3600000`, each with its mtime unchanged |
| `Sweeper.ExpiryBoundary` | backend/index.js:15-28 | the comparison is strict: an entry exactly one hour old is kept and one a millisecond older is deleted |
| `Sweeper.SweepIsIdempotent` | backend/src/index.js:21-31 | with a fixed `now`, sweeping twice is the same as sweeping once |
| `Sweeper.LaterSweepKeepsLess` | backend/src/index.js:27-37 | a later sweep never keeps an entry an earlier one deleted, and sweeping at `t1` then at `t2 >= t1` equals sweeping at `t2` |
| `Server.IsPDF` | backend/src/index.js:39-50 | true iff the buffer has at least 4 bytes and they are `0x25 0x50 0x44 0x46` |
| `Server.MagicNumbersSpellPercentPDF` | backend/src/index.js:41 | the four signature bytes are the character codes of `%PDF` |
| `Server.SignatureLooksAtFirstFourBytes` | backend/src/index.js:43-47 | buffers under 4 bytes are rejected, and appending or changing bytes after the fourth never changes the verdict |
| `Server.OpenDocument` | backend/src/index.js:131-138 | an unresolved id gives `PDF file not found for the specified ID.`; otherwise the result is the codec's load of the stored bytes |
| `Server.ResolveAll` | backend/src/index.js:184-188 | all-or-nothing: gives paths iff every id resolves, and then their paths in list order |
| `Server.PostUpload` | backend/src/index.js:81-101 | no file gives 400. Bytes failing `isPDF` make the handler throw, with nothing renamed. Otherwise the upload is renamed to `./pdf/<fileId>.pdf` and the id is returned |
| `Server.GetFetch` | backend/src/index.js:103-119 | an unresolved id gives 404 (so does the empty id, under the store invariant); otherwise the stored bytes come back unchanged |
| `Server.UploadThenFetch` | backend/src/index.js:81-119 | a signed upload is fetched back byte for byte |
| `Server.PostMovePage` | backend/src/index.js:121-149 | NaN is rejected before resolution, then the id is resolved, then the file is read and changed. As written, out-of-range indices still reply 200 and save the unchanged pages back |
| `Server.PostMovePageAwaited` | backend/src/index.js:121-149 | the same order of checks, with out-of-range indices answered by 500 `Invalid page indices` and no write |
| `Server.OutOfRangeMoveReportsSuccess` | backend/src/index.js:140 | moving page 5 of a 3-page document replies `Page 5 moved to 2 successfully` |
| `Server.PostRemovePage` | backend/src/index.js:151-178 | NaN is rejected before resolution and changes nothing. Otherwise the file is rewritten with the page removed when in range, unchanged otherwise, and the reply is 200 |
| `Server.PostMergePDF` | backend/src/index.js:180-196 | a missing list or any unresolved id gives 500 with no write. Otherwise the resolved paths are merged in list order and the reply is 200 with the new id, even when the merge fails |
| `Server.PostMergePDFAwaited` | backend/src/index.js:180-196 | the same, except that a failed merge replies 500 with its error |
| `Server.FailedMergeReportsId` | backend/src/index.js:190 | merging a stored file the codec cannot load replies with an id that never resolves |
| `Server.PostCompressPDF` | backend/src/index.js:198-215 | an unresolved id gives 500 with no change. Otherwise compressor success means 200 with the original replaced, and failure means 500 `Failed to compress PDF.` with no change |
| `LegacyServer.PostUpload` | backend/index.js:49-60 | any uploaded bytes are renamed to `./pdf/<fileId>.pdf` and the id is returned; there is no signature check |
| `LegacyServer.UnsignedUploadIsServed` | backend/index.js:49-78 | an upload without the `%PDF` header is stored and fetched back |

## Where the code and its tests disagree

The model follows the code. These are the places where the tests or the intended
design say something else:

- `removePage` (backend/pdf.js:8) silently ignores an out-of-range index. The tests
  expect an `Invalid pageIndex` error (backend/test/removePage.test.js:26-40, 66-80).
  `PageEditor.RemovePage` returns a `removed` flag instead, and `Server.PostRemovePage`
  still replies 200 when nothing was removed.
- `idToFilePath("")` returns `./pdf/.pdf` if that file exists. The tests expect
  `undefined` (backend/test/idToFilePage.test.js:37-46). The model keeps the code and
  proves the expectation under the store invariant `Resolver.NoEmptyIdFile`. Every
  handler keeps that invariant when its fresh ids are non-empty.
- `compressPDF` in backend/pdf.js takes no compressor argument and has no empty-path
  guard. The tests call a version that has both (backend/test/compressPdf.test.js:38-45).
  `Compressor.CompressPDF` takes the compressor as an argument and rejects `""` before
  running it. With backend/pdf.js as written, `""` is passed to Ghostscript, which fails
  with the same outcome.
- A rejected upload (backend/src/index.js:91-93) is not deleted. It stays at the
  temporary path where multer wrote it. It is never put under an id.

## Findings

| source | as written | input that shows it | evidently intended | confidence | as-written member | corrected member |
|---|---|---|---|---|---|---|
| backend/index.js:99 | `movePage` (backend/pdf.js:13-23, `async`) is called without `await`, so its rejection for out-of-range indices misses the handler's `catch`. The unchanged document is saved back and the reply is 200. backend/src/index.js:140 makes the same call, to `src/pdf.js` assumed equal | a stored 3-page document with `sourceIndex=5`, `targetIndex=2` gets `Page 5 moved to 2 successfully` (`Server.OutOfRangeMoveReportsSuccess`) | reply 500 `Invalid page indices` and no write | not executed; high for Node 16.9 or later run with `--unhandled-rejections=warn`. Under the default `throw` mode the same input ends the server process, possibly before the write and the reply | `Server.PostMovePage` | `Server.PostMovePageAwaited` |
| backend/index.js:149 | `mergePDFs` (backend/pdf.js:25-37, `async`) is called without `await`, so the new id is reported before the merge completes, whatever its outcome. backend/src/index.js:190 makes the same call, to `src/pdf.js` assumed equal | a list with one stored file the codec cannot load gets 200 with an id that never resolves (`Server.FailedMergeReportsId`) | reply 500 with the merge error and no id | not executed; high for Node 16.9 or later run with `--unhandled-rejections=warn`. Under the default `throw` mode the 200 goes out and then the failed merge ends the server process | `Server.PostMergePDF` | `Server.PostMergePDFAwaited` |

## Left out

- PDF codec: pdf-lib's `create`, `load`, `save`, `copyPages` and `getPageIndices` are left out. `load`/`save` are the injected `Common.Codec`, and `copyPages` copies the loaded pages unchanged. pdf-lib's `save` adds a blank page to a document with no pages, so an empty merge or the removal of the last page stores a one-page file. The uninterpreted `Codec.save` does not show this, and the zero-page facts (`Merger.MergeOfNothingIsEmpty`, `PageEditor.RemoveAtShiftsLeft` on a one-page document) hold only for the in-memory pages. `Codec.save` also sees only the page list, while pdf-lib saves the whole document: a document loaded by the move and remove handlers keeps its metadata, outline and form fields, the fresh document `mergePDFs` creates (backend/pdf.js:26) carries none of its inputs' document-level content, and load and create write the current time into the metadata.
- Ghostscript: the `spawn` and its argument list (backend/pdf.js:40-67) are an external process. The injected compressor function stands in for them.
- Compressor failure: the model's compressor writes its whole output or nothing. A partial temp file left by a failing Ghostscript is not modelled.
- Express, CORS, multer and `app.listen`: not modelled. This includes the mimetype filter, the 100 MiB limit and multer's temporary file names. An upload arrives as a path already in the store.
- Timers and clock: `setInterval`, `new Date()` and the per-file re-reading of the clock are out. `now` is a parameter.
- Directory listing: `readdirSync`, `statSync` and `unlinkSync` are replaced by the given map from entry name to modification time. That map is not linked to the file store's writes.
- Sweep errors: the `try` around the whole sweep loop is not modelled: a throwing `statSync` or `unlinkSync` (backend/src/index.js:23, :28) ends the sweep early. `statSync` throws on an entry removed after the listing by multer's asynchronous clean-up of a failed upload or by another process, and `unlinkSync` throws on a subdirectory. The sweep runs synchronously, so the service's own renames cannot happen between the listing and the unlink. The model gives every entry a modification time and deletes every expired one.
- Promise scheduling: only the dropped outcomes of the unawaited `movePage` and `mergePDFs` calls are modelled. Interleavings with other requests are not, nor are the races between the sweep and a request on the same file.
- UUIDs: fresh ids are parameters. The model assumes only that they are non-empty, where the store invariant needs it.
- Path aliasing: `Files.FileStore` keys files by the literal path string, with no `.`/`..` resolution. Express URL-decodes route ids (`%2F` becomes `/`), and `pdfIdList` entries in a JSON body (backend/src/index.js:184) may hold `/` directly. So `idToFilePath("../x")` checks `./x.pdf`, outside the store directory, and the id `./abc` names the same file as `abc`. The model represents neither case: `Resolver.IdPathInjective` says distinct ids give distinct path strings, not distinct files.
- `idToFilePath(undefined)`: this builds `./pdf/undefined.pdf`. Ids are strings in the model, so `undefined` is not represented.
- Query numbers: `Number(...)` giving a non-integer such as `1.5`, or `Infinity`, is out. A query index is NaN or a whole number. JavaScript numbers are doubles: indices above 2^53 are rounded, and from 1e21 up a template string prints them in exponent form (`1e+21`). `Common.IntToString` prints the exact integer, so `Server.MovedMessage` and `Server.RemovedMessage` differ from the source's messages for such indices.
- Request body: a `pdfIdList` that is not an array is out. Only a missing list is modelled. Its reply text, `Server.MissingIdList`, is V8's wording from Node 16.9 on; Node 14 and earlier say `Cannot read property 'map' of undefined`.
- Document handle checks: the tests' duck-typed `Invalid PDF document object` checks (backend/test/movePage.test.js:37-70, backend/test/removePage.test.js:42-64) are left out. The handle is a typed class.
- Unhandled rejections: the handlers as written describe Node 16.9 or later run with `--unhandled-rejections=warn`, where a dropped rejection is only logged. The sources do not name a Node version or flags. Under the default `throw` mode (Node 15 and later), the rejection of an out-of-range `movePage` or of a failed `mergePDFs` ends the server process; for the move this can happen before the write and the reply. Process exit is not modelled.
- Frontend: `Upload.tsx`, `Compress.tsx`, `Header.tsx`, `App.tsx` and `api.ts` are left out (user interface and HTTP client).
- Test setup: `jest.config.js` is test configuration and is left out.
- `src/pdf.js`: this module, which backend/src/index.js:9 imports, is not part of this model. Its `idToFilePath`, `removePage`, `movePage`, `mergePDFs` and `compressPDF` are modelled, as an assumption, from backend/index.js:38-41 and backend/pdf.js. Its tests (backend/test/compressPdf.test.js:28, 38-45) show that at least its `compressPDF` differs: it takes the compressor as a second argument and refuses an empty path. If its `movePage` were synchronous, or its `removePage` threw `Invalid pageIndex`, the src handlers would reply 500 where `Server.PostMovePage` and `Server.PostRemovePage` reply 200. backend/src/index.js:209 calls `compressPDF(pdfPath)` with one argument, so `Server.PostCompressPDF`'s injected compressor assumes that the second argument defaults to Ghostscript; without such a default every `/compressPDF` request would get 500 `Failed to compress PDF.`.
- Logging: console output is not modelled. This covers `console.error` when compression fails (backend/pdf.js:76; backend/test/compressPdf.test.js:35, 44, 54 check it) and the sweep's `console.info`, `console.log` and `console.error` (backend/src/index.js:14, 29, 33).
