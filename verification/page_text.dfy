/** `pdf_to_text` (factory_to_sheet_mc.py): the text of a PDF, page by page, each page
    under a numbered heading. A page whose embedded text is only whitespace is read by
    OCR instead; the OCR engine is an oracle from page index to recognised text. */
module PageText {
  import opened Chars
  import opened Strings

  /** The heading and body of page `i` (0-based): `--- 第 {i + 1} 頁 ---\n{text}\n`. */
  function PageBlock(i: nat, text: string): string {
    "--- 第 " + NatToString(i + 1) + " 頁 ---\n" + text + "\n"
  }

  /** The text used for a page: its own text unless that strips to nothing. */
  function PageTextOf(i: nat, text: string, ocr: nat -> string): string {
    if Strip(text) == [] then ocr(i) else text
  }

  /** The whole output for the pages, in page order. */
  function FullText(texts: seq<string>, ocr: nat -> string): string {
    if texts == [] then ""
    else
      var n := |texts| - 1;
      FullText(texts[..n], ocr) + PageBlock(n, PageTextOf(n, texts[n], ocr))
  }

  /** `pdf_to_text`: appends one block per page to `full_text`. */
  method PdfToText(texts: seq<string>, ocr: nat -> string) returns (fullText: string)
    ensures fullText == FullText(texts, ocr)
  {
    fullText := "";
    var i := 0;
    while i < |texts|
      invariant 0 <= i <= |texts|
      invariant fullText == FullText(texts[..i], ocr)
    {
      var text := texts[i];
      if Strip(text) == [] {
        text := ocr(i);
      }
      assert texts[..i + 1][..i] == texts[..i];
      fullText := fullText + PageBlock(i, text);
      i := i + 1;
    }
    assert texts[..i] == texts;
  }

  /** A page with visible text keeps it; only a blank page is replaced by OCR. */
  lemma PageTextChoice(i: nat, text: string, ocr: nat -> string)
    ensures (exists k :: 0 <= k < |text| && !IsSpace(text[k])) ==> PageTextOf(i, text, ocr) == text
    ensures (forall k :: 0 <= k < |text| ==> IsSpace(text[k])) ==> PageTextOf(i, text, ocr) == ocr(i)
  {
    StripMeaning(text);
  }

  /** OCR is consulted only for blank pages: two OCR engines that agree on the blank pages
      give the same output. */
  lemma {:induction false} OcrOnlyForBlankPages(texts: seq<string>, ocr1: nat -> string, ocr2: nat -> string)
    requires forall i :: 0 <= i < |texts| && Strip(texts[i]) == [] ==> ocr1(i) == ocr2(i)
    ensures FullText(texts, ocr1) == FullText(texts, ocr2)
  {
    if texts != [] {
      var n := |texts| - 1;
      OcrOnlyForBlankPages(texts[..n], ocr1, ocr2);
    }
  }

  predicate IsPrefix(a: string, b: string) {
    |a| <= |b| && b[..|a|] == a
  }

  lemma PrefixTransitive(a: string, b: string, c: string)
    requires IsPrefix(a, b) && IsPrefix(b, c)
    ensures IsPrefix(a, c)
  {
    assert c[..|a|] == c[..|b|][..|a|];
  }

  /** The text of the first `k + 1` pages is that of the first `k` and block `k`. */
  lemma FullTextStep(texts: seq<string>, ocr: nat -> string, k: nat)
    requires k < |texts|
    ensures FullText(texts[..k + 1], ocr) == FullText(texts[..k], ocr) + PageBlock(k, PageTextOf(k, texts[k], ocr))
  {
    assert texts[..k + 1][..k] == texts[..k];
  }

  /** The output grows page by page: the text of the first `i` pages is a prefix of it. */
  lemma {:induction false} FullTextPrefix(texts: seq<string>, ocr: nat -> string, i: nat)
    requires i <= |texts|
    ensures IsPrefix(FullText(texts[..i], ocr), FullText(texts, ocr))
    decreases |texts| - i
  {
    if i < |texts| {
      FullTextPrefix(texts, ocr, i + 1);
      FullTextStep(texts, ocr, i);
      var pre := FullText(texts[..i], ocr);
      var next := FullText(texts[..i + 1], ocr);
      assert next[..|pre|] == pre;
      PrefixTransitive(pre, next, FullText(texts, ocr));
    } else {
      assert texts[..i] == texts;
    }
  }

  /** A non-empty document's text begins with the block of its first page. */
  lemma FullTextStart(texts: seq<string>, ocr: nat -> string)
    requires texts != []
    ensures IsPrefix(PageBlock(0, PageTextOf(0, texts[0], ocr)), FullText(texts, ocr))
  {
    FullTextPrefix(texts, ocr, 1);
    assert texts[..1][..0] == [];
    var block := PageBlock(0, PageTextOf(0, texts[0], ocr));
    assert FullText(texts[..1], ocr) == "" + block;
    var whole := FullText(texts, ocr);
    assert whole[..|block|] == block;
  }
}
