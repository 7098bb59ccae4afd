/** The page editor of backend/pdf.js: removing one page, and moving one
    page by a single-element splice, on a loaded document. */
module PageEditor {
  import opened Common

  /** The pages with the one at `i` taken out; later pages shift left. */
  function RemoveAt(s: seq<Page>, i: nat): seq<Page>
    requires i < |s|
  {
    s[..i] + s[i + 1..]
  }

  /** The pages with `p` put in at `i`; pages from `i` on shift right. */
  function InsertAt(s: seq<Page>, i: nat, p: Page): seq<Page>
    requires i <= |s|
  {
    s[..i] + [p] + s[i..]
  }

  /** Where movePage puts the pages: the page at `source` is taken out,
      then put back at `target` of the shortened sequence. */
  function Moved(s: seq<Page>, source: nat, target: nat): seq<Page>
    requires source < |s| && target < |s|
  {
    InsertAt(RemoveAt(s, source), target, s[source])
  }

  /** The document handle: pdf-lib's PDFDocument as far as the editor uses
      it, an ordered sequence of pages changed in place. */
  class PdfDocument {
    var pages: seq<Page>

    constructor (pages: seq<Page>)
      ensures this.pages == pages
    {
      this.pages := pages;
    }

    /** PDFDocument.getPage */
    function GetPage(i: nat): (p: Page)
      reads this
      requires i < |pages|
      ensures p == pages[i]
    {
      pages[i]
    }

    /** PDFDocument.removePage */
    method RemovePageAt(i: nat)
      requires i < |pages|
      modifies this
      ensures pages == RemoveAt(old(pages), i)
    {
      pages := pages[..i] + pages[i + 1..];
    }

    /** PDFDocument.insertPage */
    method InsertPage(i: nat, p: Page)
      requires i <= |pages|
      modifies this
      ensures pages == InsertAt(old(pages), i, p)
    {
      pages := pages[..i] + [p] + pages[i..];
    }

    /** PDFDocument.addPage */
    method AddPage(p: Page)
      modifies this
      ensures pages == old(pages) + [p]
    {
      pages := pages + [p];
    }
  }

  /** removePage: removes the page at `pageIndex` when it is in range and
      otherwise leaves the document alone without any error; `removed`
      tells which happened. */
  method RemovePage(doc: PdfDocument, pageIndex: int) returns (removed: bool)
    modifies doc
    ensures removed <==> 0 <= pageIndex < |old(doc.pages)|
    ensures removed ==> doc.pages == RemoveAt(old(doc.pages), pageIndex)
    ensures !removed ==> doc.pages == old(doc.pages)
  {
    var n := |doc.pages|;
    removed := 0 <= pageIndex < n;
    if removed {
      doc.RemovePageAt(pageIndex);
    }
  }

  /** movePage: both indices are checked against the page count before
      anything changes; then the page is removed at `sourceIndex` and
      inserted at `targetIndex`. */
  method MovePage(doc: PdfDocument, sourceIndex: int, targetIndex: int) returns (r: Outcome)
    modifies doc
    ensures r.Pass? <==> 0 <= sourceIndex < |old(doc.pages)| && 0 <= targetIndex < |old(doc.pages)|
    ensures r.Pass? ==> doc.pages == Moved(old(doc.pages), sourceIndex, targetIndex)
    ensures r.Fail? ==> r.error == "Invalid page indices" && doc.pages == old(doc.pages)
  {
    var n := |doc.pages|;
    if sourceIndex < 0 || sourceIndex >= n || targetIndex < 0 || targetIndex >= n {
      return Fail("Invalid page indices");
    }
    var sourcePage := doc.GetPage(sourceIndex);
    doc.RemovePageAt(sourceIndex);
    doc.InsertPage(targetIndex, sourcePage);
    r := Pass;
  }

  /** After a removal the document is one page shorter, the pages before
      the index stay where they were and the later ones move one to the
      left, in their original order. */
  lemma RemoveAtShiftsLeft(s: seq<Page>, i: nat)
    requires i < |s|
    ensures |RemoveAt(s, i)| == |s| - 1
    ensures forall j :: 0 <= j < i ==> RemoveAt(s, i)[j] == s[j]
    ensures forall j :: i <= j < |s| - 1 ==> RemoveAt(s, i)[j] == s[j + 1]
  {
  }

  /** Removing a page takes exactly that page out of the document's
      multiset of pages. */
  lemma {:induction false} RemoveAtMultiset(s: seq<Page>, i: nat)
    requires i < |s|
    ensures multiset(RemoveAt(s, i)) + multiset{s[i]} == multiset(s)
  {
    assert s == s[..i] + [s[i]] + s[i + 1..];
    calc {
      multiset(s);
      multiset(s[..i] + [s[i]] + s[i + 1..]);
      multiset(s[..i]) + multiset{s[i]} + multiset(s[i + 1..]);
      multiset(s[..i] + s[i + 1..]) + multiset{s[i]};
    }
  }

  /** Putting a page back where it was taken out restores the document. */
  lemma {:induction false} InsertAtRemoveAt(s: seq<Page>, i: nat)
    requires i < |s|
    ensures InsertAt(RemoveAt(s, i), i, s[i]) == s
  {
    var t := RemoveAt(s, i);
    assert t[..i] == s[..i];
    assert t[i..] == s[i + 1..];
    assert s == s[..i] + [s[i]] + s[i + 1..];
  }

  /** Taking out a page just inserted gives back the document it was
      inserted into. */
  lemma {:induction false} RemoveAtInsertAt(s: seq<Page>, i: nat, p: Page)
    requires i <= |s|
    ensures RemoveAt(InsertAt(s, i, p), i) == s
  {
    var t := InsertAt(s, i, p);
    assert t[..i] == s[..i];
    assert t[i + 1..] == s[i..];
  }

  /** A move keeps the page count, puts the source page at the target
      index, and only rearranges pages: the multiset of pages is kept. */
  lemma {:induction false} MovedIsPermutation(s: seq<Page>, source: nat, target: nat)
    requires source < |s| && target < |s|
    ensures |Moved(s, source, target)| == |s|
    ensures Moved(s, source, target)[target] == s[source]
    ensures multiset(Moved(s, source, target)) == multiset(s)
  {
    var rest := RemoveAt(s, source);
    RemoveAtMultiset(s, source);
    RemoveAtInsertAt(rest, target, s[source]);
    RemoveAtMultiset(Moved(s, source, target), target);
  }

  /** All pages other than the moved one keep their relative order:
      taking the moved page out of the result gives the same sequence as
      taking it out of the original. */
  lemma MovedKeepsOthersInOrder(s: seq<Page>, source: nat, target: nat)
    requires source < |s| && target < |s|
    ensures RemoveAt(Moved(s, source, target), target) == RemoveAt(s, source)
  {
    RemoveAtInsertAt(RemoveAt(s, source), target, s[source]);
  }

  /** Where every page of the original ends up after a move: the page at
      `j` of the result, for each `j`, named by its original index. */
  lemma {:induction false} MovedAt(s: seq<Page>, source: nat, target: nat, j: nat)
    requires source < |s| && target < |s| && j < |s|
    ensures |Moved(s, source, target)| == |s|
    ensures j == target ==> Moved(s, source, target)[j] == s[source]
    ensures j != target ==>
      var k := if j < target then j else j - 1;
      Moved(s, source, target)[j] == s[if k < source then k else k + 1]
  {
    RemoveAtShiftsLeft(s, source);
  }

  /** Moving a page onto its own index changes nothing. */
  lemma MoveToSameIndexIsIdentity(s: seq<Page>, k: nat)
    requires k < |s|
    ensures Moved(s, k, k) == s
  {
    InsertAtRemoveAt(s, k);
  }

  /** A move is undone by the move back from the target to the source. */
  lemma {:induction false} MoveBackUndoes(s: seq<Page>, source: nat, target: nat)
    requires source < |s| && target < |s|
    ensures Moved(Moved(s, source, target), target, source) == s
  {
    var t := Moved(s, source, target);
    MovedIsPermutation(s, source, target);
    MovedKeepsOthersInOrder(s, source, target);
    InsertAtRemoveAt(s, source);
  }
}
