# Factory-registration document pipeline, modelled in Dafny

This project models the bookkeeping core of a two-script pipeline for official factory
registration letters. The scripts are `spssp_mc_combine.py` and `factory_to_sheet_mc.py`.

`spssp_mc_combine.py` takes one scanned PDF and processes it in four steps:

1. It drops blank pages and reports them by 1-based number.
2. It compares every remaining page with a set of marker images (the mayor's seal) using
   SIFT features and a ratio test.
3. It collects the matching pages in a page-keyed dictionary.
4. It derives split points from those pages and cuts the PDF into `split_{n}.pdf` files.
   Every file but the last ends on a matching page. The last file ends on the final page,
   which need not match.

Section headings are printed through the `str_line` banner formatter.

`factory_to_sheet_mc.py` reads every PDF of the split folder and builds one record per file:

- 發文字號: the first isolated 10-digit run of the text, framed as 府經工行字第…號, or 未匹配.
- 工廠編號: the isolated 8-digit runs and the `S` + 7-digit numbers. Numbers on an exclude
  list are removed, and the rest are de-duplicated, sorted by code point and joined with
  `", "`. The field is 無 when nothing is left.
- 檔名: the file's base name.

It then adds a 編號 column holding the first digit run of the file name, and orders the
columns 編號, 檔名, then the rest. The page text it works on is a per-page concatenation
with numbered headings, and OCR is used for pages without a text layer.

The external parts are inputs of the model:

- A PDF is a sequence of pages, each with its text layer and its pixmap samples.
- OpenCV's comparison of a marker with a page is a `Comparison`: whether each side has
  descriptors, and the knn distance rows.
- Loading a marker image is an `Option`.
- OCR is a function from page index to text.
- Directory listings are sequences of names. For the PDF folder of `process_folder` the
  listing is an `Option`, and a missing folder is `None`. The marker-image listing of
  `get_images_from_folder` is a plain sequence, so the FileNotFoundError that `os.listdir`
  raises for a missing marker folder (spssp_mc_combine.py:240) is not represented.
- The text of each PDF in the folder stage is an input of `Folder.ProcessFolder` (the
  function `textOf`). `PageText` models how `pdf_to_text` builds that text, but no lemma
  ties the folder stage's input to `PageText.FullText`.
- The exclude file is `Option<string>`, where `None` means the file is missing.

Regular expressions are restated as scans over runs of Unicode decimal digits. `\d` is the
Unicode Nd category, given as its 68 ten-digit blocks.

Modules, one per file:

| module | contents |
|---|---|
| `Wrappers` | `Option`, `Result` |
| `Sequences` | increasing sequences, `Last`, `MapSeq` |
| `Chars` | `\d`, `str.isspace`, `\w`, ASCII lower-casing |
| `Strings` | `strip`, digit runs, `str(n)`/`int(s)`, `", ".join`/`split`, `endswith` |
| `Sorting` | code-point order, `sorted(set(xs))` |
| `Records` | ordered dicts |
| `Paths` | POSIX `os.path.join`/`basename` |
| `BlankFilter` | blank-page decision and filter |
| `FeatureMatch` | the ratio test and per-page marker matching |
| `Boundary` | collection of the per-page results |
| `Splitting` | split points and output ranges |
| `Banner` | `str_line` |
| `Pipeline` | image listing and the split stage of `main` |
| `PageText` | `pdf_to_text` |
| `Extraction` | `extract_pdf_data` |
| `Folder` | `process_single_pdf` and `process_folder` |

Two behaviours of the code are worth stating outright:

- **No early exit.** `compare_image_with_pdf_page` compares the page with every marker and
  lists all matching markers. It does not stop at the first match.
- **No output without matches.** When no page matches, `main` never calls `split_pdf`, so
  no output file is written. `split_pdf` itself, called with no split points, writes the
  whole document as `split_1` (`Splitting.NoPointsOneRange`).

## Model

| member | source | states |
|---|---|---|
| BlankFilter.CountWhite | spssp_mc_combine.py:75-76 | the number of full-brightness samples never exceeds the number of samples |
| BlankFilter.WhiteRatioAsProduct | spssp_mc_combine.py:77-79 | with a non-zero divisor the ratio test `white / total >= threshold` is the product test `white >= threshold * total` |
| BlankFilter.IsBlankPage | spssp_mc_combine.py:68-79 | `is_blank_page`; its meaning is stated by `IsBlankPageMeaning` |
| BlankFilter.IsBlankPageMeaning | spssp_mc_combine.py:68-79 | a page with any non-whitespace text is never blank; a page whose text is all whitespace is blank exactly when its white share reaches the threshold (numpy's inf/NaN for a zero divisor included) |
| BlankFilter.KeptPages | spssp_mc_combine.py:91-95 | the pages `remove_blank_pages` copies into the new document; `KeptIndicesExact` and `KeptPagesFollowIndices` state which ones |
| BlankFilter.KeptIndicesIncreasing | spssp_mc_combine.py:91-95 | the kept page indices are strictly increasing and inside the document |
| BlankFilter.KeptIndicesExact | spssp_mc_combine.py:91-95 | a page index is kept exactly when that page is not blank |
| BlankFilter.RemovedNumbers | spssp_mc_combine.py:91-93 | the 1-based numbers of the removed pages; `RemovedNumbersIncreasing` and `RemovedNumbersExact` state which ones |
| BlankFilter.RemovedNumbersIncreasing | spssp_mc_combine.py:91-93 | the removed page numbers are strictly increasing and lie in 1..N |
| BlankFilter.RemovedNumbersExact | spssp_mc_combine.py:91-93 | number i+1 is recorded as removed exactly when page i is blank |
| BlankFilter.FilterCounts | spssp_mc_combine.py:89-103 | kept count plus removed count is the page count |
| BlankFilter.KeptPagesFollowIndices | spssp_mc_combine.py:91-95 | the new document holds exactly the pages at the kept indices, in their original order |
| BlankFilter.RemoveBlankPages | spssp_mc_combine.py:82-109 | the loop yields the kept pages, the removed numbers, and `remaining == total - len(removed)`, which equals the kept count |
| FeatureMatch.GoodCount | spssp_mc_combine.py:141-146 | the good-match count never exceeds the number of knn rows |
| FeatureMatch.GoodCountIsCardinality | spssp_mc_combine.py:141-146 | the count equals the number of distinct rows with nearest < 0.75 × second-nearest |
| FeatureMatch.SiftDecision | spssp_mc_combine.py:112-146 | `compare_images_sift` on a given comparison outcome; its meaning is stated by `SiftDecisionMeaning`, and `CompareImagesSift` is its loop |
| FeatureMatch.SiftDecisionMeaning | spssp_mc_combine.py:135-146 | the comparison reports a match iff both descriptor sets exist, every row is a pair and strictly more than `threshold` rows pass the ratio test; it raises iff both exist and some row is not a pair; a missing descriptor set gives false |
| FeatureMatch.CompareImagesSift | spssp_mc_combine.py:126-146 | the loop's result is that decision, including the ValueError on a row that is not a pair |
| FeatureMatch.MatchingMarkers | spssp_mc_combine.py:164-167 | the marker loop of `compare_image_with_pdf_page`; `MatchingMarkersExact` and `MatchingMarkersErrStays` state its result |
| FeatureMatch.MatchingMarkersExact | spssp_mc_combine.py:164-167 | the marker loop succeeds iff every comparison succeeds; it then lists, strictly increasing and in range, exactly the markers that match the page |
| FeatureMatch.MatchingMarkersErrStays | spssp_mc_combine.py:165-167 | after a comparison fails, later markers do not change the outcome |
| FeatureMatch.PageMatch | spssp_mc_combine.py:149-171 | `compare_image_with_pdf_page`; `PageMatchHit` states what a hit holds, and `CompareImageWithPdfPage` is the method |
| FeatureMatch.PageMatchHit | spssp_mc_combine.py:149-171 | a hit requires every marker to have loaded and the page to exist; it names its own page and a non-empty increasing list of exactly the matching markers |
| FeatureMatch.CompareImageWithPdfPage | spssp_mc_combine.py:149-171 | the method gives None as soon as a marker fails to load, before the page is opened; IndexError for a missing page; otherwise the hit or None |
| Boundary.Store | spssp_mc_combine.py:189 | `results[page] = indices` keeps the dict well formed (its insertion order lists every key exactly once); `page` maps to `indices`, the other keys keep their values, a new key goes last and an existing key keeps its place |
| Boundary.CompareAllPages | spssp_mc_combine.py:173-192 | the collection succeeds iff every page's comparison succeeds; on failure the error is the first failing page's; the result is a well-formed dict whose keys are exactly the hit pages, in strictly increasing insertion order, each mapped to its matching markers |
| Splitting.SplitPointsOf | spssp_mc_combine.py:391-398 | the split points `main` derives; `SplitPointsOfIncreasing` states them |
| Splitting.PairPointsIncreasing | spssp_mc_combine.py:393-395 | for strictly increasing pages the `>= 1` test always passes, so every page but the last is kept |
| Splitting.SplitPointsOfIncreasing | spssp_mc_combine.py:391-398 | strictly increasing matching pages are their own split points, with the last one appended exactly once |
| Splitting.SplitPoints | spssp_mc_combine.py:391-398 | the loop gives the split points, which equal the pages whenever those are strictly increasing |
| Splitting.PointRanges | spssp_mc_combine.py:209-220 | range i is `split_{i+1}` and runs from one past the previous split point (0 for the first) to split point i |
| Splitting.SplitPdf | spssp_mc_combine.py:207-230 | the loop over `start_page` writes exactly the per-point ranges plus the trailing range |
| Splitting.SplitRanges | spssp_mc_combine.py:209-230 | the output ranges `split_pdf` writes; `SplitRangesContiguous`, `SplitRangesPartition` and `SplitIsLossless` state their meaning, and `SplitPdf` is the loop |
| Splitting.SplitRangesContiguous | spssp_mc_combine.py:209-230 | for increasing in-range points the ranges are numbered 1, 2, …, non-empty and in range, each begins right after the previous; there are none iff N == 0; they run from 0 to N−1; the trailing range exists iff the points are empty (N > 0) or last + 1 < N |
| Splitting.SplitRangesPartition | spssp_mc_combine.py:209-230 | every page of [0, N) is in some range and the ranges are pairwise disjoint |
| Splitting.ContiguousDisjoint | spssp_mc_combine.py:213-220 | non-empty ranges that follow one another without gaps are pairwise disjoint |
| Splitting.ContiguousCovers | spssp_mc_combine.py:213-226 | gapless ranges reach every page from the first range's start to the last range's end |
| Splitting.AllPagesPrefix | spssp_mc_combine.py:213-226 | gapless ranges from page 0 copy exactly the document's prefix up to the last range's end |
| Splitting.SplitIsLossless | spssp_mc_combine.py:211-230 | the output files read in order hold exactly the document's pages: nothing lost, nothing duplicated |
| Splitting.SplitStage | spssp_mc_combine.py:385-416 | nothing is split iff the results map is empty; otherwise the ranges come from the split points of the keys in insertion order, and are those keys themselves when they are increasing |
| Splitting.EightPagesTwoHits | spssp_mc_combine.py:385-411 | 8 pages with hits on 2 and 5 give split_1 = 0–2, split_2 = 3–5 and split_3 = 6–7 |
| Splitting.HitOnFinalPage | spssp_mc_combine.py:222-223 | a hit on the final page leaves no trailing file |
| Splitting.NoPointsOneRange | spssp_mc_combine.py:222-230 | with no split points `split_pdf` writes the whole document as split_1 |
| Pipeline.ImageFiles | spssp_mc_combine.py:238-243 | the image list is never longer than the listing |
| Pipeline.GetImagesFromFolder | spssp_mc_combine.py:238-243 | the loop keeps, in listing order, the folder-joined names whose lower-cased form ends with one of the four extensions |
| Pipeline.ImageFilesMeaning | spssp_mc_combine.py:240-242 | a path is listed iff it is the folder joined with a listed name having an image extension |
| Pipeline.ImageNameByExtension | spssp_mc_combine.py:241 | a name is an image iff its lower-cased form ends with `.jpg`, `.jpeg`, `.png` or `.bmp` |
| Pipeline.ImageNameCase | spssp_mc_combine.py:241 | the extension test ignores letter case: two names that agree letter by letter up to case are both images or both not, and a name is an image iff its lower-cased form is |
| Pipeline.UpperCaseImage | spssp_mc_combine.py:241 | for instance `LOGO.PNG` is an image |
| Pipeline.SplitAtHits | spssp_mc_combine.py:385-411 | splitting at the recorded hit pages gives numbered, gapless ranges from page 0 to N−1; every range but the last ends on a hit page, and every hit page ends a range |
| Pipeline.NoHitsRecorded | spssp_mc_combine.py:385-416 | an empty result map means that no page matched |
| Pipeline.SegmentPdf | spssp_mc_combine.py:380-416 | the pipeline fails with AllPagesBlank iff every page is blank; a Match error is the error of the first kept page whose comparison fails; a result without error means every kept page's comparison succeeded; there is no output iff no kept page matched (so `split_pdf` is never called then); otherwise the ranges are those of strictly increasing in-range split points and cut the kept document exactly after its hit pages |
| Banner.TruncDiv | spssp_mc_combine.py:247 | `int(a / b)` truncates toward zero, for negative `a` too |
| Banner.Repeat | spssp_mc_combine.py:248-250 | the dash run has the requested length and holds only that character |
| Banner.DashCount | spssp_mc_combine.py:246-250 | the dash count of `str_line`; `DashCountMeaning` states it |
| Banner.BannerOf | spssp_mc_combine.py:245-253 | the banner of `str_line`; `BannerShape` and `BannerWidth` state its shape, and `StrLine` is the loop |
| Banner.DashCountMeaning | spssp_mc_combine.py:246-250 | for headings up to 50 characters, d = ⌊(50 − len)/2⌋ and 2d + len ≤ 50 < 2d + len + 2; for 49 or more characters d = 0 |
| Banner.StrLine | spssp_mc_combine.py:245-253 | the method builds d·'=' + ' ' + s + ' ' + d·'=' + '\n', of length 2d + len + 3 |
| Banner.BannerShape | spssp_mc_combine.py:251 | the banner has equal dash runs on both sides, a space on each side of the heading, and a final newline |
| Banner.BannerWidth | spssp_mc_combine.py:245-253 | a heading of at most 50 characters gives 53 characters when its length is even and 52 when odd |
| Banner.FirstHeading | spssp_mc_combine.py:84 | `1.移除空白頁面` gets 21 '=' on each side and a 53-character banner |
| Strings.LeadingSpaces | factory_to_sheet_mc.py:46 | the leading whitespace run is maximal |
| Strings.TrailingStart | factory_to_sheet_mc.py:46 | the trailing whitespace run is maximal |
| Strings.Strip | factory_to_sheet_mc.py:46 | `str.strip()`; its meaning is stated by `StripMeaning` |
| Strings.StripMeaning | spssp_mc_combine.py:70-71 | `strip()` is empty iff the text is all whitespace; otherwise it neither starts nor ends with whitespace and is a slice of the text after the leading whitespace |
| Strings.RunLength | factory_to_sheet_mc.py:63-64 | the run of digits at p is maximal: that many digits, then no digit |
| Strings.RunLengthUnique | factory_to_sheet_mc.py:63-64 | any n digits followed by a non-digit are the whole run |
| Strings.FirstDigit | factory_to_sheet_mc.py:117 | `re.search(r'\d+')` starts at the first digit, with none before it |
| Strings.NatToString | factory_to_sheet_mc.py:49 | `str(n)` is a non-empty string of ASCII digits |
| Strings.DigitsValueOfNatToString | factory_to_sheet_mc.py:117 | `int(str(n)) == n` |
| Strings.SeparatorIndex | factory_to_sheet_mc.py:82 | finds the leftmost `", "` at or after the start |
| Strings.Split | factory_to_sheet_mc.py:82 | splitting on `", "` gives at least one piece |
| Strings.Join | factory_to_sheet_mc.py:82 | `", ".join`; `SplitJoin` makes `Split` its inverse on comma-free pieces |
| Strings.SplitJoin | factory_to_sheet_mc.py:82 | splitting a `", "`-join of comma-free pieces on `", "` gives the pieces back |
| Strings.LowerAsciiMeaning | spssp_mc_combine.py:241 | lower-casing leaves no capital A–Z, so lower-casing twice equals lower-casing once; two strings lower-case alike iff they have equal length and agree letter by letter up to case |
| Chars.DigitZero | factory_to_sheet_mc.py:117 | every `\d` character lies in a ten-digit block, and this is that block's zero |
| Chars.DigitValue | factory_to_sheet_mc.py:117 | `int()` gives each digit a value below 10 |
| Chars.AsciiDigit | factory_to_sheet_mc.py:49 | `str` writes digit d as an ASCII digit that reads back as d |
| Chars.InWordRange | factory_to_sheet_mc.py:64 | a character inside any range of the table of non-ASCII word characters is found by the table lookup |
| Chars.CjkIsWordNotDigit | factory_to_sheet_mc.py:64 | a CJK ideograph is a word character, not a digit and not whitespace |
| Chars.NonDigitBelowArabicIndic | factory_to_sheet_mc.py:117 | below U+0660 only 0–9 are digits |
| Sorting.LexLessIrreflexive | factory_to_sheet_mc.py:81 | code-point order is irreflexive |
| Sorting.LexLessTransitive | factory_to_sheet_mc.py:81 | code-point order is transitive |
| Sorting.LexLessTotal | factory_to_sheet_mc.py:81 | code-point order is total on distinct strings |
| Sorting.LexLessAsymmetric | factory_to_sheet_mc.py:81 | code-point order is asymmetric |
| Sorting.InsertElems | factory_to_sheet_mc.py:81 | inserting adds exactly one element |
| Sorting.InsertSorted | factory_to_sheet_mc.py:81 | inserting keeps a list strictly ascending |
| Sorting.SortUnique | factory_to_sheet_mc.py:81 | `sorted(set(xs))`; `SortUniqueCorrect`, `StrictlySortedUnique` and `SortUniqueIdempotent` state its meaning |
| Sorting.SortUniqueCorrect | factory_to_sheet_mc.py:81 | `sorted(set(xs))` is strictly ascending and holds exactly the elements of xs |
| Sorting.ElemsEmpty | factory_to_sheet_mc.py:81-82 | a list with no elements is empty |
| Sorting.StrictlySortedUnique | factory_to_sheet_mc.py:81 | there is only one strictly ascending listing of a set of strings |
| Sorting.SortUniqueIdempotent | factory_to_sheet_mc.py:81 | sorting and de-duplicating twice gives the same list as once |
| Records.Put | factory_to_sheet_mc.py:94 | `d[key] = value` keeps the dict well formed, updates the value, keeps an existing key's place and appends a new key |
| Paths.PathJoin | factory_to_sheet_mc.py:107 | POSIX `os.path.join` of a folder and a name; `BaseNameOfJoin` states that the base name gives the name back |
| Paths.BaseName | factory_to_sheet_mc.py:94 | POSIX `os.path.basename`; `BaseNameShape` and `BaseNameUnique` state its meaning |
| Paths.BaseNameShape | factory_to_sheet_mc.py:94 | the base name is a slash-free suffix, preceded by `/` unless it is the whole path |
| Paths.BaseNameUnique | factory_to_sheet_mc.py:94 | any slash-free suffix preceded by `/`, or equal to the whole path, is the base name |
| Paths.BaseNameOfJoin | factory_to_sheet_mc.py:94 | `basename(join(folder, f)) == f` for a slash-free name f |
| Extraction.IsolatedRunByLength | factory_to_sheet_mc.py:63 | `(?<!\d)\d{n}(?!\d)` matches at p iff no digit precedes p and the digit run at p has length exactly n |
| Extraction.SearchDispatch | factory_to_sheet_mc.py:63-67 | `re.search` returns the leftmost match at or after the start, or none when there is no match |
| Extraction.DispatchField | factory_to_sheet_mc.py:63-68 | 發文字號; its meaning is stated by `DispatchFieldMeaning` |
| Extraction.DispatchFieldMeaning | factory_to_sheet_mc.py:63-68 | 發文字號 is 未匹配 iff no isolated 10-digit run exists; otherwise it frames the digits of the first such run |
| Extraction.FactoryMatchAtMeaning | factory_to_sheet_mc.py:64 | the scan's run-length test agrees with the two-alternative factory pattern |
| Extraction.FactoryMatchesApart | factory_to_sheet_mc.py:64 | two matches of the factory pattern never overlap |
| Extraction.FactoryPositions | factory_to_sheet_mc.py:71 | every reported match fits in the text after the scan's start |
| Extraction.FactoryPositionsSound | factory_to_sheet_mc.py:64-71 | every position the scan reports from a start on is a match of the pattern at or after that start |
| Extraction.FactoryPositionsComplete | factory_to_sheet_mc.py:64-71 | every match of the pattern at or after the start is reported by the scan |
| Extraction.FactoryPositionsExact | factory_to_sheet_mc.py:64-71 | `findall` reports exactly the positions where the pattern matches |
| Extraction.FactoryPositionsIncreasing | factory_to_sheet_mc.py:71 | the matches come out in text order |
| Extraction.FactoryCandidates | factory_to_sheet_mc.py:64-72 | the `findall` candidates; `FactoryCandidatesShape` states their shape, and `FactoryPositionsExact` their positions |
| Extraction.FactoryCandidatesShape | factory_to_sheet_mc.py:64-72 | each candidate is the 8-character text of a match, in order: eight digits or an S-number |
| Extraction.IdeographBeforeMatch | factory_to_sheet_mc.py:64 | a CJK ideograph before `S` blocks an S-number, but does not block an 8-digit run |
| Extraction.ProlongedSoundMarkBeforeS | factory_to_sheet_mc.py:64 | after the katakana mark ー, which is `\w`, `S1234567` is not a factory number and `findall` reports no match there |
| Extraction.Lines | factory_to_sheet_mc.py:58-59 | the file's text broken at line breaks gives at least one line, and no line contains a line break |
| Extraction.LineEnd | factory_to_sheet_mc.py:58-59 | the line ends at the first line break |
| Extraction.LinesOfJoinLines | factory_to_sheet_mc.py:58-59 | reading back a file written one entry per line gives the entries |
| Extraction.ExcludeSet | factory_to_sheet_mc.py:57-61 | the exclude set; its meaning is stated by `ExcludeSetMeaning` and `ExcludeSetOfLines` |
| Extraction.ExcludeSetMeaning | factory_to_sheet_mc.py:57-61 | a missing file excludes nothing; otherwise a number is excluded iff it is eight digits and some line strips to it |
| Extraction.ExcludeSetOfLines | factory_to_sheet_mc.py:57-59 | for a file of one entry per line, the set is the stripped entries that are eight digits |
| Extraction.Filtered | factory_to_sheet_mc.py:75-78 | filtering never lengthens the list |
| Extraction.FilteredMeaning | factory_to_sheet_mc.py:75-78 | exactly the excluded 8-digit numbers are dropped; S-numbers are never dropped |
| Extraction.RemainingNumbers | factory_to_sheet_mc.py:71-78 | the candidates that survive the exclude list; `ExtractedFactoryField` states which ones |
| Extraction.FactoryField | factory_to_sheet_mc.py:81-82 | 工廠編號; `FactoryFieldNone` and `FactoryFieldResplit` state its meaning |
| Extraction.FactoryFieldNone | factory_to_sheet_mc.py:81-82 | 工廠編號 is 無 iff no number remains |
| Extraction.NumbersCommaFree | factory_to_sheet_mc.py:82 | factory numbers contain no comma |
| Extraction.FactoryFieldResplit | factory_to_sheet_mc.py:81-82 | splitting the field on `", "` gives `sorted(set(nums))`, and re-sorting or re-joining that gives the same field |
| Extraction.AsciiDigitsBeforeS | factory_to_sheet_mc.py:81 | in the sorted field every number starting with an ASCII digit precedes every S-number |
| Extraction.FullWidthDigitsAfterS | factory_to_sheet_mc.py:64-81 | full-width digits are `\d` too, but sort after `S` |
| Extraction.ExtractPdfData | factory_to_sheet_mc.py:84-87 | the record has exactly the keys 發文字號 and 工廠編號, in that order |
| Extraction.ExtractedFactoryField | factory_to_sheet_mc.py:71-82 | the remaining numbers are exactly the candidates that are not excluded 8-digit numbers; the field is 無 iff none remain; otherwise it re-splits to their sorted, de-duplicated list |
| PageText.FullText | factory_to_sheet_mc.py:38-50 | the text of `pdf_to_text`; `PdfToText` is its loop, and `PageTextChoice`, `FullTextPrefix` and `FullTextStart` state its meaning |
| PageText.PdfToText | factory_to_sheet_mc.py:38-50 | the loop's text is the in-order concatenation of `--- 第 {i+1} 頁 ---\n{text}\n` |
| PageText.PageTextChoice | factory_to_sheet_mc.py:45-48 | a page with visible text keeps it, and only an all-whitespace page is replaced by OCR |
| PageText.OcrOnlyForBlankPages | factory_to_sheet_mc.py:46-48 | OCR is consulted only for blank pages: OCR engines that agree on those give the same text |
| PageText.PrefixTransitive | factory_to_sheet_mc.py:49 | a prefix of a prefix is a prefix |
| PageText.FullTextStep | factory_to_sheet_mc.py:49 | one more page appends exactly its block |
| PageText.FullTextPrefix | factory_to_sheet_mc.py:44-49 | the text of the first i pages is a prefix of the whole text |
| PageText.FullTextStart | factory_to_sheet_mc.py:49 | a non-empty document's text begins with its first page's block |
| Folder.ProcessSinglePdf | factory_to_sheet_mc.py:90-95 | the record is a well-formed dict |
| Folder.SinglePdfRecord | factory_to_sheet_mc.py:84-95 | the keys are 發文字號, 工廠編號, 檔名 in that order; 檔名 is the base name; the extracted fields are unchanged |
| Folder.PdfFiles | factory_to_sheet_mc.py:107 | the PDF list is never longer than the listing |
| Folder.PdfFilesMeaning | factory_to_sheet_mc.py:107 | a path is listed iff it is the folder joined with a listed name ending in `.pdf` |
| Folder.ExtractedRows | factory_to_sheet_mc.py:107-113 | the records of the folder's PDFs; `ExtractedRowsIndexed` states them |
| Folder.ExtractedRowsIndexed | factory_to_sheet_mc.py:110-113 | one record per PDF, in listing order |
| Folder.AddNew | factory_to_sheet_mc.py:116-117 | adding columns keeps the existing ones first and adds exactly the missing keys |
| Folder.FileNumber | factory_to_sheet_mc.py:117 | the 編號 rule; `FileNumberNone`, `FileNumberOfRun` and `FileNumberOfSplitName` state its meaning |
| Folder.FileNumberNone | factory_to_sheet_mc.py:117 | 編號 is None iff the name has no digit |
| Folder.FileNumberOfRun | factory_to_sheet_mc.py:117 | 編號 is the value of the first digit run |
| Folder.FileNumberOfSplitName | factory_to_sheet_mc.py:117 | the name `split_{n}.pdf` that the splitting stage gives an output range reads back as n |
| Folder.OtherColumns | factory_to_sheet_mc.py:118 | the remaining columns are exactly those other than 檔名 and 編號 |
| Folder.OtherColumnsConcat | factory_to_sheet_mc.py:118 | the comprehension keeps the surviving columns in their original order: filtering a concatenation filters each part, and one column survives iff it is neither 檔名 nor 編號 |
| Folder.ProcessFolder | factory_to_sheet_mc.py:124-147 | a missing folder is FileNotFoundError; otherwise the table is built from one record per listed PDF |
| Folder.ColumnsOf | factory_to_sheet_mc.py:116 | the columns of `pd.DataFrame(extracted_data)`; `ColumnsOfExtracted` states them for a folder |
| Folder.ColumnsOfExtracted | factory_to_sheet_mc.py:116 | the frame of a non-empty folder has columns 發文字號, 工廠編號, 檔名 |
| Folder.AddNewFresh | factory_to_sheet_mc.py:116-117 | keys not yet present are appended in order |
| Folder.AddNewPresent | factory_to_sheet_mc.py:116 | keys already present change nothing |
| Folder.BuildTable | factory_to_sheet_mc.py:116-119 | the table written to Excel; `FolderTableShape` and `FolderTableRows` state its meaning |
| Folder.FolderTableShape | factory_to_sheet_mc.py:116-119 | the table fails iff the folder has no PDF, and then with KeyError; otherwise its columns are 編號, 檔名, 發文字號, 工廠編號 with one row per PDF |
| Folder.RecordColumnsOrder | factory_to_sheet_mc.py:118-119 | the extracted columns reorder to 編號, 檔名, 發文字號, 工廠編號 |
| Folder.TableOfRecords | factory_to_sheet_mc.py:116-119 | records with those keys and text names give that table |
| Folder.NamesOfExtracted | factory_to_sheet_mc.py:94 | every record carries its file's base name as text |
| Folder.TableRow | factory_to_sheet_mc.py:117 | table row i is record i with its 編號 added |
| Folder.NumberedRecord | factory_to_sheet_mc.py:117 | a row holds the base name, the number read from it, and the two extracted fields |
| Folder.FolderTableRows | factory_to_sheet_mc.py:116-119 | row i of the folder's table holds PDF i's base name, the number from that name, and its two extracted fields |

## Left out

- OpenCV is an input: SIFT detection, `BFMatcher.knnMatch`, `cvtColor`, `imread`, `imdecode`. Its outcome for each (marker, page) pair enters as descriptor presence plus knn distance rows of type `real`. Floating-point rounding of distances and of the white ratio is not modelled.
- PyMuPDF is not modelled: opening, rendering, `get_text`, `insert_pdf`, `save` and `close`. A document is a sequence of pages with a text layer and a pixmap.
- Saving a zero-page document, when every page is blank, is modelled as the error `AllPagesBlank`. This rests on PyMuPDF refusing to save a document without pages.
- OCR (pdf2image, pytesseract), `ensure_tesseract_path` and the unused `preprocess_image` are external. OCR is a function from page index to text.
- Concurrency is not modelled: `ProcessPoolExecutor`, `multiprocessing` and the pool size. Futures are read in submission order, so the fan-out is a sequential loop over pages or files.
- File-system and clock operations are not modelled: `load_config`, `wait_for_file`, `os.listdir` (an input), `os.remove`, `os.makedirs`, `os.path.exists` (the `Option` of a listing) and decoding files as UTF-8.
- The Tk user interface and console output are not modelled: `select_pdf`, `check_and_handle_split_folder`, `show_manual_step`, `show_finish_window`, `print_intro`, and every `print` (including the report of removed pages and the split table in `main`).
- factory_query.py is not part of this model. It is browser automation against a remote site.
- pandas is modelled only for the column union, the 編號 rule and the column order. dtype coercion is left out: when some 編號 is None, pandas stores that column as floats with NaN. `to_excel` is also left out.
- `split_pdf` exception handling is not modelled: errors are caught, printed and swallowed (spssp_mc_combine.py:232-236). With non-increasing or out-of-range split points, PyMuPDF's behaviour (empty or failing files) is not modelled. `main` only ever passes strictly increasing in-range pages: the ranges `Pipeline.SegmentPdf` returns are `SplitRanges` of such points.
- Chars.IsWordChar: Python's Unicode `\w` (`_` and `str.isalnum()`) is given exactly, following the Unicode 15.0 tables, only inside the blocks listed in its comment:
  - Latin, IPA and spacing modifiers;
  - Greek and Cyrillic;
  - Hangul Jamo, compatibility jamo and syllables;
  - number forms and enclosed alphanumerics;
  - CJK symbols, kana, Bopomofo and Kanbun;
  - the CJK ideograph blocks, including the compatibility and supplementary ones;
  - half- and full-width forms.

  Outside those blocks only decimal digits are word characters here. Letters of other scripts (Arabic, Hebrew, Devanagari, Thai and the rest), and letters in the further Latin and Cyrillic blocks (for example U+A640–U+A69F and U+A720–U+A7FF), are not. An S-number right after such a letter is therefore reported here but rejected by Python.
- Strings.LowerAscii: `str.lower()` is modelled on ASCII letters only. For the extension test this is exact. Only two non-ASCII characters lower-case to something containing an ASCII letter: U+212A (to `k`) and U+0130 (to `i` plus a combining dot). Neither result can end one of `.jpg`, `.jpeg`, `.png` or `.bmp`.
- Extraction.Lines: universal-newline reading is modelled by breaking the text at `\n` and at `\r`. This differs from Python's `for line in f` in three ways, none of which can add or remove an 8-digit entry, because each extra line is empty:
  - a `\r\n` pair gives an extra empty line;
  - an empty file gives one empty line, where Python yields none;
  - a final line break is followed by one more empty line, which Python does not yield.
- Paths: `os.path` is modelled with POSIX separators only.
- Pipeline.GetImagesFromFolder: the listing is given as a sequence. The FileNotFoundError of `os.listdir` for a missing marker folder is not represented.
- Chars.IsDigit follows the Unicode 15.0 Nd table. Another Python build's Unicode version may add digits.
- The property that a marker image matches itself is not modelled. It depends on OpenCV.
