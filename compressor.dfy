/** compressPDF of backend/pdf.js: an external compressor writes a
    smaller copy next to the document, and only when it succeeds is that
    copy renamed over the original. */
module Compressor {
  import opened Common
  import opened Files
  import opened Resolver

  /** `pat` stands in `s` starting at index `k`. */
  predicate OccursAt(s: string, pat: string, k: int)
  {
    0 <= k && k + |pat| <= |s| && s[k..k + |pat|] == pat
  }

  /** String.prototype.indexOf from index `from`: the first index at or
      after `from` where `pat` occurs, or -1 when there is none. */
  function IndexOfFrom(s: string, pat: string, from: nat): (r: int)
    requires from <= |s|
    ensures r == -1 || (from <= r && OccursAt(s, pat, r))
    ensures r == -1 ==> forall k :: from <= k ==> !OccursAt(s, pat, k)
    ensures r != -1 ==> forall k :: from <= k < r ==> !OccursAt(s, pat, k)
    decreases |s| - from
  {
    if from + |pat| > |s| then -1
    else if s[from..from + |pat|] == pat then from
    else IndexOfFrom(s, pat, from + 1)
  }

  /** String.prototype.indexOf: the first index where `pat` occurs, or -1. */
  function IndexOf(s: string, pat: string): (r: int)
    ensures r == -1 <==> forall k :: !OccursAt(s, pat, k)
    ensures r != -1 ==> OccursAt(s, pat, r) && forall k :: k < r ==> !OccursAt(s, pat, k)
  {
    IndexOfFrom(s, pat, 0)
  }

  /** String.prototype.replace with a string pattern and a replacement
      without `$` (JavaScript expands `$&`, `$$` and the like in it): only
      the first occurrence is replaced, and a string without one is
      returned as is. */
  function ReplaceFirst(s: string, pat: string, rep: string): (r: string)
    requires forall k :: 0 <= k < |rep| ==> rep[k] != '$'
    ensures IndexOf(s, pat) == -1 ==> r == s
    ensures IndexOf(s, pat) != -1 ==>
      var i := IndexOf(s, pat);
      && |r| == |s| - |pat| + |rep|
      && r[..i] == s[..i]
      && OccursAt(r, rep, i)
      && r[i + |rep|..] == s[i + |pat|..]
  {
    var i := IndexOf(s, pat);
    if i == -1 then s else s[..i] + rep + s[i + |pat|..]
  }

  const CompressedSuffix: string := "_compressed.pdf"

  /** The path the compressor writes to: the first ".pdf" of the input
      path replaced by "_compressed.pdf". */
  function TempPath(filePath: Path): (r: Path)
    ensures IndexOf(filePath, PdfSuffix) == -1 ==> r == filePath
    ensures IndexOf(filePath, PdfSuffix) != -1 ==>
      var i := IndexOf(filePath, PdfSuffix);
      && |r| == |filePath| + |CompressedSuffix| - |PdfSuffix|
      && r[..i] == filePath[..i]
      && OccursAt(r, CompressedSuffix, i)
      && r[i + |CompressedSuffix|..] == filePath[i + |PdfSuffix|..]
  {
    ReplaceFirst(filePath, PdfSuffix, CompressedSuffix)
  }

  /** The temp path is eleven characters longer than the input path when
      the input path holds ".pdf", and is the input path itself
      otherwise, so the compressor then writes over its own input. */
  lemma TempPathLength(filePath: Path)
    ensures IndexOf(filePath, PdfSuffix) != -1 ==> |TempPath(filePath)| == |filePath| + 11
    ensures IndexOf(filePath, PdfSuffix) == -1 ==> TempPath(filePath) == filePath
  {
  }

  /** For an identifier without a '.', as every UUID is, the first ".pdf"
      of its path is the extension: the temp path is
      "./pdf/<id>_compressed.pdf". */
  lemma {:induction false} TempPathOfIdPath(id: string)
    requires forall i :: 0 <= i < |id| ==> id[i] != '.'
    ensures TempPath(IdPath(id)) == PdfPrefix + id + CompressedSuffix
  {
    var p := IdPath(id);
    var e := |id| + 6;
    assert |p| == e + 4;
    assert p[e..e + 4] == PdfSuffix;
    assert OccursAt(p, PdfSuffix, e);
    forall k | k < e
      ensures !OccursAt(p, PdfSuffix, k)
    {
      if 0 <= k {
        if k == 0 {
          assert p[1] == '/';
        } else if k < 6 {
          assert p[k] == PdfPrefix[k];
        } else {
          assert p[k] == id[k - 6];
        }
        assert p[k..k + 4][0] == p[k];
      }
    }
    var i := IndexOf(p, PdfSuffix);
    assert i == e;
    assert p[..e] == PdfPrefix + id;
    assert p[e + 4..] == [];
  }

  /** The test's file names spelled through the path constants. */
  lemma TestFileNames()
    ensures IdPath("test") == "./pdf/test.pdf"
    ensures PdfPrefix + "test" + CompressedSuffix == "./pdf/test_compressed.pdf"
  {
    var id := "test";
    var expected := "./pdf/test_compressed.pdf";
    var built := PdfPrefix + id + CompressedSuffix;
    assert |built| == |expected|;
    forall i | 0 <= i < |expected| ensures built[i] == expected[i] {
      if i < 6 {
        assert built[i] == PdfPrefix[i];
      } else if i < 10 {
        assert built[i] == id[i - 6];
      } else {
        assert built[i] == CompressedSuffix[i - 10];
      }
    }
  }

  /** The file names of the compressor's test: "./pdf/test.pdf" is
      compressed through "./pdf/test_compressed.pdf". */
  lemma TempPathOfTestFile()
    ensures TempPath("./pdf/test.pdf") == "./pdf/test_compressed.pdf"
  {
    var id := "test";
    assert forall i :: 0 <= i < |id| ==> id[i] in "tes";
    TempPathOfIdPath(id);
    TestFileNames();
  }

  /** The temp path of a stored document is never the file "./pdf/.pdf",
      so compression keeps the empty identifier unresolvable. */
  lemma TempPathIsNotEmptyIdPath(filePath: Path)
    requires filePath != IdPath("")
    ensures TempPath(filePath) != IdPath("")
  {
    TempPathLength(filePath);
  }

  /** compressPDF, with the compressor (Ghostscript in the source) as an
      injected function from the input file's bytes to its output or an
      error. An empty path is rejected before the compressor runs. The
      compressor is given the file and the temp path and writes its
      output there; only on success is the temp file renamed over the
      original. Any failure is reported as "Failed to compress PDF." and
      leaves the store as it was. `compressorCalls` counts the
      compressor's runs. */
  method CompressPDF(fs: FileStore, filePath: Path, compressor: seq<Byte> -> Result<seq<Byte>>)
    returns (r: Outcome, compressorCalls: nat)
    modifies fs
    ensures compressorCalls == if filePath == "" then 0 else 1
    ensures r.Pass? <==>
      filePath != "" && filePath in old(fs.files) && compressor(old(fs.files)[filePath]).Ok?
    ensures r.Pass? ==>
      fs.files == (old(fs.files) - {TempPath(filePath)})[filePath := compressor(old(fs.files)[filePath]).value]
    ensures r.Fail? ==> r.error == "Failed to compress PDF." && fs.files == old(fs.files)
  {
    compressorCalls := 0;
    if filePath == "" {
      return Fail("Failed to compress PDF."), compressorCalls;
    }
    var tempFilePath := TempPath(filePath);
    // The compressor reads the input file; a missing one makes it fail.
    var input := fs.ReadFileSync(filePath);
    compressorCalls := compressorCalls + 1;
    var output := if input.Ok? then compressor(input.value) else Err(input.error);
    if output.Err? {
      return Fail("Failed to compress PDF."), compressorCalls;
    }
    fs.WriteFileSync(tempFilePath, output.value);
    var renamed := fs.RenameSync(tempFilePath, filePath);
    assert renamed.Pass?;
    r := Pass;
  }
}
