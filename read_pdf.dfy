/**
 * The text-accumulation loop of `read_pdf`. Parsing the PDF and extracting
 * each page's text are done by a library outside this model, so the input is
 * the sequence of per-page texts in document order.
 */
module PdfReader {
  /** All page texts, in order, with nothing inserted between them. */
  function Concat(pages: seq<string>): string
  {
    if pages == [] then "" else pages[0] + Concat(pages[1..])
  }

  /** Total number of characters over all pages. */
  function TotalLength(pages: seq<string>): nat
  {
    if pages == [] then 0 else |pages[0]| + TotalLength(pages[1..])
  }

  /** Appending a page to the list appends its text to the concatenation. */
  lemma {:induction false} ConcatAppend(pages: seq<string>, page: string)
    ensures Concat(pages + [page]) == Concat(pages) + page
  {
    if pages != [] {
      assert (pages + [page])[1..] == pages[1..] + [page];
      ConcatAppend(pages[1..], page);
    } else {
      assert pages + [page] == [page];
    }
  }

  /**
   * Page `k` sits in the concatenation right after the pages before it and
   * right before the pages after it: order is kept and no separator is added.
   */
  lemma {:induction false} ConcatSplit(pages: seq<string>, k: nat)
    requires k < |pages|
    ensures Concat(pages) == Concat(pages[..k]) + pages[k] + Concat(pages[k + 1..])
  {
    if k > 0 {
      ConcatSplit(pages[1..], k - 1);
      assert pages[1..][..k - 1] == pages[1..k];
      assert pages[..k][1..] == pages[1..k];
      assert pages[1..][k - 1] == pages[k];
      assert pages[1..][k..] == pages[k + 1..];
    } else {
      assert pages[..0] == [];
      assert pages[1..] == pages[k + 1..];
    }
  }

  /** The text is exactly as long as all the pages together: nothing added, nothing lost. */
  lemma {:induction false} ConcatLength(pages: seq<string>)
    ensures |Concat(pages)| == TotalLength(pages)
  {
    if pages != [] {
      ConcatLength(pages[1..]);
    }
  }

  /**
   * `text = ""; for page in pages: text += page.extract_text()`. Zero pages
   * give the empty string.
   */
  method ReadPdf(pages: seq<string>) returns (text: string)
    ensures text == Concat(pages)
  {
    text := "";
    for i := 0 to |pages|
      invariant text == Concat(pages[..i])
    {
      ConcatAppend(pages[..i], pages[i]);
      assert pages[..i + 1] == pages[..i] + [pages[i]];
      text := text + pages[i];
    }
    assert pages[..|pages|] == pages;
  }
}
