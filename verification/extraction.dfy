/** `extract_pdf_data` (factory_to_sheet_mc.py): the dispatch number and the factory
    numbers found in the text of one PDF. The two regular expressions are restated as
    scans over runs of digits (`\d` is any Unicode decimal digit, `\w` a word character). */
module Extraction {
  import opened Wrappers
  import opened Chars
  import opened Strings
  import opened Sorting
  import opened Sequences
  import opened Records

  // ---------------------------------------------------------------------------
  // Isolated runs of digits

  /** Exactly `n` digits start at `p`, with no digit right before or right after them:
      `(?<!\d)\d{n}(?!\d)` matches at `p`. */
  predicate IsolatedRunAt(s: string, p: nat, n: nat) {
    NoDigitBefore(s, p) && DigitsAt(s, p, n) && NoDigitAt(s, p + n)
  }

  /** The scan's test for an isolated run agrees with the pattern: a run is isolated
      exactly when no digit precedes it and the digits starting there number exactly `n`. */
  lemma IsolatedRunByLength(s: string, p: nat, n: nat)
    requires p <= |s|
    ensures IsolatedRunAt(s, p, n) <==> NoDigitBefore(s, p) && RunLength(s, p) == n
  {
    if IsolatedRunAt(s, p, n) {
      RunLengthUnique(s, p, n);
    }
  }

  // ---------------------------------------------------------------------------
  // Dispatch number: re.search(r"(?<!\d)(\d{10})(?!\d)", text)

  predicate IsDispatchAt(s: string, p: nat) {
    IsolatedRunAt(s, p, 10)
  }

  /** `re.search` from `from`: the leftmost position where the pattern matches, if any. */
  function SearchDispatch(s: string, from: nat): (r: Option<nat>)
    requires from <= |s|
    ensures r.Some? ==> from <= r.value && IsDispatchAt(s, r.value)
    ensures r.Some? ==> forall k :: from <= k < r.value ==> !IsDispatchAt(s, k)
    ensures r.None? ==> forall k :: from <= k ==> !IsDispatchAt(s, k)
    decreases |s| - from
  {
    if from + 10 > |s| then None
    else
      IsolatedRunByLength(s, from, 10);
      if NoDigitBefore(s, from) && RunLength(s, from) == 10 then Some(from)
      else SearchDispatch(s, from + 1)
  }

  const DispatchPrefix: string := "府經工行字第"
  const DispatchSuffix: string := "號"
  const Unmatched: string := "未匹配"

  /** The 發文字號 field: the first isolated 10-digit run, framed as an official dispatch
      number, or 未匹配 when the text has none. */
  function DispatchField(s: string): string {
    match SearchDispatch(s, 0)
    case Some(p) => DispatchPrefix + s[p..p + 10] + DispatchSuffix
    case None => Unmatched
  }

  /** The field is 未匹配 exactly when no isolated 10-digit run exists; otherwise it
      carries the digits of the first such run. */
  lemma DispatchFieldMeaning(s: string)
    ensures DispatchField(s) == Unmatched <==> forall p: nat :: !IsDispatchAt(s, p)
    ensures forall p: nat :: IsDispatchAt(s, p) && (forall k: nat :: k < p ==> !IsDispatchAt(s, k)) ==>
              DispatchField(s) == DispatchPrefix + s[p..p + 10] + DispatchSuffix
  {
    var r := SearchDispatch(s, 0);
    if r.Some? {
      assert |DispatchField(s)| == 17;
    }
  }

  // ---------------------------------------------------------------------------
  // Factory numbers: re.findall(r"(?<!\d)(\d{8})(?!\d)|(?<!\w)(S\d{7})(?!\d)", text)

  /** No word character stands immediately before index `p` (`(?<!\w)`). */
  predicate NoWordBefore(s: string, p: nat) {
    p == 0 || (p <= |s| && !IsWordChar(s[p - 1]))
  }

  /** The second alternative: `S` and exactly seven digits, with no word character before
      the `S` and no digit after the seventh digit. */
  predicate IsSNumberAt(s: string, p: nat) {
    NoWordBefore(s, p) && p < |s| && s[p] == 'S' && DigitsAt(s, p + 1, 7) && NoDigitAt(s, p + 8)
  }

  /** Either alternative of the factory-number pattern matches at `p`; both are 8
      characters long. */
  predicate IsFactoryAt(s: string, p: nat) {
    IsolatedRunAt(s, p, 8) || IsSNumberAt(s, p)
  }

  /** The scan's test at `p`, computed from run lengths. */
  predicate FactoryMatchAt(s: string, p: nat)
    requires p < |s|
  {
    || (NoDigitBefore(s, p) && RunLength(s, p) == 8)
    || (NoWordBefore(s, p) && s[p] == 'S' && RunLength(s, p + 1) == 7)
  }

  lemma FactoryMatchAtMeaning(s: string, p: nat)
    requires p < |s|
    ensures FactoryMatchAt(s, p) <==> IsFactoryAt(s, p)
  {
    IsolatedRunByLength(s, p, 8);
    if IsSNumberAt(s, p) {
      RunLengthUnique(s, p + 1, 7);
    }
  }

  /** Two matches of the factory pattern never overlap. A later start inside a match
      follows one of its digits or its `S`. An S-number cannot start there, because
      `(?<!\w)` rejects both. An eight-digit run cannot start after a digit, because
      `(?<!\d)` rejects that. Nor can it start right after the `S`, because the digit run
      of an S-number has exactly seven digits. */
  lemma FactoryMatchesApart(s: string, p: nat, q: nat)
    requires IsFactoryAt(s, p) && IsFactoryAt(s, q) && p < q
    ensures p + 8 <= q
  {
    if q < p + 8 {
      assert IsWordChar(s[q - 1]);
    }
  }

  /** No match starts inside another one. */
  lemma NoMatchInside(s: string, p: nat, q: nat)
    requires IsFactoryAt(s, p) && p < q < p + 8
    ensures !IsFactoryAt(s, q)
  {
    if IsFactoryAt(s, q) {
      FactoryMatchesApart(s, p, q);
    }
  }

  /** The start positions `re.findall` reports, from `from` on: a match moves the scan
      past its eight characters, a failed position moves it one character on. */
  function FactoryPositions(s: string, from: nat): (ps: seq<nat>)
    requires from <= |s|
    ensures forall i :: 0 <= i < |ps| ==> from <= ps[i] && ps[i] + 8 <= |s|
    decreases |s| - from
  {
    if from == |s| then []
    else if FactoryMatchAt(s, from) then
      [from] + FactoryPositions(s, from + 8)
    else FactoryPositions(s, from + 1)
  }

  /** Every position the scan reports from `from` on is a match of the pattern. */
  lemma {:induction false} FactoryPositionsSound(s: string, from: nat, q: nat)
    requires from <= |s| && q in FactoryPositions(s, from)
    ensures from <= q && IsFactoryAt(s, q)
    decreases |s| - from
  {
    FactoryMatchAtMeaning(s, from);
    if FactoryMatchAt(s, from) {
      if q != from {
        FactoryPositionsSound(s, from + 8, q);
      }
    } else {
      FactoryPositionsSound(s, from + 1, q);
    }
  }

  /** Every match of the pattern at or after `from` is reported by the scan. */
  lemma {:induction false} FactoryPositionsComplete(s: string, from: nat, q: nat)
    requires from <= q && IsFactoryAt(s, q)
    ensures q <= |s| && q in FactoryPositions(s, from)
    decreases |s| - from
  {
    assert q + 8 <= |s|;
    FactoryMatchAtMeaning(s, from);
    if q == from {
      assert FactoryPositions(s, from) == [from] + FactoryPositions(s, from + 8);
    } else if FactoryMatchAt(s, from) {
      FactoryMatchesApart(s, from, q);
      FactoryPositionsComplete(s, from + 8, q);
      assert FactoryPositions(s, from) == [from] + FactoryPositions(s, from + 8);
    } else {
      FactoryPositionsComplete(s, from + 1, q);
      assert FactoryPositions(s, from) == FactoryPositions(s, from + 1);
    }
  }

  /** The scan finds every match of the pattern at or after `from`, and only those. */
  lemma FactoryPositionsExact(s: string, from: nat)
    requires from <= |s|
    ensures forall q: nat :: q in FactoryPositions(s, from) <==> from <= q && IsFactoryAt(s, q)
  {
    forall q: nat | q in FactoryPositions(s, from) {
      FactoryPositionsSound(s, from, q);
    }
    forall q: nat | from <= q && IsFactoryAt(s, q) {
      FactoryPositionsComplete(s, from, q);
    }
  }

  /** The matches come out in text order. */
  lemma {:induction false} FactoryPositionsIncreasing(s: string, from: nat)
    requires from <= |s|
    ensures StrictlyIncreasing(FactoryPositions(s, from))
    decreases |s| - from
  {
    var ps := FactoryPositions(s, from);
    if from < |s| {
      if FactoryMatchAt(s, from) {
        var rest := FactoryPositions(s, from + 8);
        FactoryPositionsIncreasing(s, from + 8);
        PrependIncreasing(from, rest);
        assert ps == [from] + rest;
      } else {
        FactoryPositionsIncreasing(s, from + 1);
        assert ps == FactoryPositions(s, from + 1);
      }
    }
  }

  /** `[m1 if m1 else m2 for m1, m2 in matches]`: the matched text of each match, in
      text order. */
  function FactoryCandidates(s: string): (cs: seq<string>)
  {
    var ps := FactoryPositions(s, 0);
    seq(|ps|, i requires 0 <= i < |ps| => s[ps[i]..ps[i] + 8])
  }

  /** `re.fullmatch(r"\d{8}", x)`. */
  predicate IsEightDigits(x: string) {
    |x| == 8 && AllDigits(x)
  }

  /** `S` followed by seven digits. */
  predicate IsSNumber(x: string) {
    |x| == 8 && x[0] == 'S' && AllDigits(x[1..])
  }

  /** Each candidate is the text of a match at its position: eight digits or an
      S-number, taken from the text in order. */
  lemma FactoryCandidatesShape(s: string)
    ensures var cs := FactoryCandidates(s); var ps := FactoryPositions(s, 0);
            && |cs| == |ps|
            && (forall i :: 0 <= i < |cs| ==> IsFactoryAt(s, ps[i]) && cs[i] == s[ps[i]..ps[i] + 8])
            && (forall i :: 0 <= i < |cs| ==> IsEightDigits(cs[i]) || IsSNumber(cs[i]))
  {
    var ps := FactoryPositions(s, 0);
    var cs := FactoryCandidates(s);
    FactoryPositionsExact(s, 0);
    forall i | 0 <= i < |cs| ensures IsFactoryAt(s, ps[i]) && (IsEightDigits(cs[i]) || IsSNumber(cs[i])) {
      assert ps[i] in ps;
      var p := ps[i];
      if IsSNumberAt(s, p) {
        forall k | 0 <= k < 7 ensures IsDigit(cs[i][1..][k]) {
          assert cs[i][1..][k] == s[p + 1 + k];
        }
      } else {
        forall k | 0 <= k < 8 ensures IsDigit(cs[i][k]) {
          assert cs[i][k] == s[p + k];
        }
      }
    }
  }

  /** A CJK ideograph is a word character, so it blocks an S-number right after it,
      while it does not block an 8-digit run (that lookbehind only rejects digits). */
  lemma IdeographBeforeMatch(s: string, p: nat)
    requires 0 < p <= |s| && '\U{4E00}' <= s[p - 1] <= '\U{9FFF}'
    ensures !IsSNumberAt(s, p)
    ensures IsolatedRunAt(s, p, 8) <==> DigitsAt(s, p, 8) && NoDigitAt(s, p + 8)
  {
    CjkIsWordNotDigit(s[p - 1]);
  }

  /** The katakana prolonged sound mark ー is a word character too: after it, `S` and
      seven digits are not a factory number, and `findall` does not report one there. */
  lemma ProlongedSoundMarkBeforeS()
    ensures !IsFactoryAt("ーS1234567", 1)
    ensures 1 !in FactoryPositions("ーS1234567", 0)
  {
    var s := "ーS1234567";
    InWordRange(s[0], 53, WordRangeCount);
    assert IsWordChar(s[0]) && s[1] == 'S' && !IsDigit(s[1]);
    assert !DigitsAt(s, 1, 8);
    FactoryPositionsExact(s, 0);
  }

  // ---------------------------------------------------------------------------
  // The exclude list

  predicate IsLineBreak(c: char) {
    c == '\n' || c == '\r'
  }

  /** The lines of a text file read in universal-newline mode, without their line ends
      (a `\r\n` pair gives one extra empty line, which no 8-digit test accepts). */
  function Lines(content: string): (ls: seq<string>)
    ensures |ls| >= 1
    ensures forall i, k :: 0 <= i < |ls| && 0 <= k < |ls[i]| ==> !IsLineBreak(ls[i][k])
    decreases |content|
  {
    var i := LineEnd(content, 0);
    if i == |content| then [content]
    else [content[..i]] + Lines(content[i + 1..])
  }

  /** The index of the first line break at or after `from`, or `|s|`. */
  function LineEnd(s: string, from: nat): (i: nat)
    requires from <= |s|
    ensures from <= i <= |s|
    ensures i < |s| ==> IsLineBreak(s[i])
    ensures forall k :: from <= k < i ==> !IsLineBreak(s[k])
    decreases |s| - from
  {
    if from == |s| || IsLineBreak(s[from]) then from else LineEnd(s, from + 1)
  }

  /** Lines joined with `\n`, the way a file of one number per line is written. */
  function JoinLines(xs: seq<string>): string {
    if |xs| <= 1 then (if xs == [] then "" else xs[0])
    else xs[0] + "\n" + JoinLines(xs[1..])
  }

  lemma LineEndOfPiece(x: string, rest: string, from: nat)
    requires from <= |x|
    requires forall k :: 0 <= k < |x| ==> !IsLineBreak(x[k])
    ensures LineEnd(x + rest, from) == (if rest != [] && IsLineBreak(rest[0]) then |x| else LineEnd(x + rest, |x|))
    decreases |x| - from
  {
    if from < |x| {
      LineEndOfPiece(x, rest, from + 1);
    }
  }

  /** Reading back a file written one line per entry gives the entries. */
  lemma {:induction false} LinesOfJoinLines(xs: seq<string>)
    requires |xs| >= 1
    requires forall i, k :: 0 <= i < |xs| && 0 <= k < |xs[i]| ==> !IsLineBreak(xs[i][k])
    ensures Lines(JoinLines(xs)) == xs
    decreases |xs|
  {
    var x := xs[0];
    forall k | 0 <= k < |x| ensures !IsLineBreak(x[k]) { assert x[k] == xs[0][k]; }
    if |xs| == 1 {
      LineEndOfPiece(x, "", 0);
      assert x + "" == x;
      assert LineEnd(x, |x|) == |x|;
    } else {
      var rest := JoinLines(xs[1..]);
      var c := x + "\n" + rest;
      assert c == x + ("\n" + rest);
      LineEndOfPiece(x, "\n" + rest, 0);
      assert c[..|x|] == x;
      assert c[|x| + 1..] == rest;
      LinesOfJoinLines(xs[1..]);
    }
  }

  /** `exclude_set`: the stripped lines that are exactly eight digits; a missing file
      (`None`) gives the empty set. */
  function ExcludeSet(file: Option<string>): set<string> {
    match file
    case None => {}
    case Some(content) => set l | l in Lines(content) && IsEightDigits(Strip(l)) :: Strip(l)
  }

  /** A missing file excludes nothing. Otherwise a number is excluded exactly when it is
      eight digits and some line of the file strips to it. */
  lemma ExcludeSetMeaning(content: string, x: string)
    ensures ExcludeSet(None) == {}
    ensures x in ExcludeSet(Some(content)) <==> IsEightDigits(x) && exists l :: l in Lines(content) && Strip(l) == x
  {
  }

  /** For a file written one number per line, the exclude set holds the listed numbers
      that, once stripped, are eight digits. */
  lemma ExcludeSetOfLines(xs: seq<string>)
    requires |xs| >= 1
    requires forall i, k :: 0 <= i < |xs| && 0 <= k < |xs[i]| ==> !IsLineBreak(xs[i][k])
    ensures ExcludeSet(Some(JoinLines(xs))) == set l | l in xs && IsEightDigits(Strip(l)) :: Strip(l)
  {
    LinesOfJoinLines(xs);
  }

  // ---------------------------------------------------------------------------
  // Filter, de-duplicate, sort, join

  /** `[num for num in nums if not (re.fullmatch(r"\d{8}", num) and num in exclude_set)]` */
  function Filtered(nums: seq<string>, exclude: set<string>): (r: seq<string>)
    ensures |r| <= |nums|
  {
    if nums == [] then []
    else
      var init := Filtered(nums[..|nums| - 1], exclude);
      var x := Last(nums);
      if IsEightDigits(x) && x in exclude then init else init + [x]
  }

  /** Filtering drops exactly the eight-digit numbers on the exclude list; in particular
      an S-number is never dropped. */
  lemma {:induction false} FilteredMeaning(nums: seq<string>, exclude: set<string>)
    ensures forall x :: x in Filtered(nums, exclude) <==> x in nums && !(IsEightDigits(x) && x in exclude)
    ensures forall x :: x in nums && IsSNumber(x) ==> x in Filtered(nums, exclude)
  {
    if nums != [] {
      var init := nums[..|nums| - 1];
      FilteredMeaning(init, exclude);
      assert nums == init + [Last(nums)];
    }
  }

  const NoNumbers: string := "無"

  /** `", ".join(sorted(set(nums)))`, or 無 when nothing is left. */
  function FactoryField(nums: seq<string>): string {
    var unique := SortUnique(nums);
    if unique == [] then NoNumbers else Join(unique)
  }

  /** Eight-character numbers cannot join to 無, so the field is 無 exactly when no
      number is left. */
  lemma FactoryFieldNone(nums: seq<string>)
    requires forall i :: 0 <= i < |nums| ==> |nums[i]| == 8
    ensures FactoryField(nums) == NoNumbers <==> nums == []
  {
    var unique := SortUnique(nums);
    SortUniqueCorrect(nums);
    if nums != [] {
      assert nums[0] in Elems(unique);
      var x :| x in unique && x == nums[0];
      JoinLength(unique);
    }
  }

  lemma {:induction false} JoinLength(xs: seq<string>)
    requires |xs| >= 1
    ensures |Join(xs)| >= |xs[0]|
  {
    if |xs| > 1 {
      assert |Join(xs)| == |xs[0]| + 2 + |Join(xs[1..])|;
    }
  }

  /** Digits and `S` are not commas, so the numbers survive the `", "` separator. */
  lemma NumbersCommaFree(nums: seq<string>)
    requires forall i :: 0 <= i < |nums| ==> IsEightDigits(nums[i]) || IsSNumber(nums[i])
    ensures CommaFree(nums)
  {
    forall i, k | 0 <= i < |nums| && 0 <= k < |nums[i]| ensures nums[i][k] != ',' {
      if k > 0 && IsSNumber(nums[i]) {
        assert nums[i][k] == nums[i][1..][k - 1];
      }
    }
  }

  /** Splitting the field on `", "` and sorting again gives back the same list, so the
      field is a fixed point of re-splitting and re-sorting. */
  lemma FactoryFieldResplit(nums: seq<string>)
    requires forall i :: 0 <= i < |nums| ==> IsEightDigits(nums[i]) || IsSNumber(nums[i])
    requires nums != []
    ensures Split(FactoryField(nums)) == SortUnique(nums)
    ensures SortUnique(Split(FactoryField(nums))) == SortUnique(nums)
    ensures FactoryField(Split(FactoryField(nums))) == FactoryField(nums)
  {
    var unique := SortUnique(nums);
    SortUniqueCorrect(nums);
    assert nums[0] in Elems(unique);
    forall i | 0 <= i < |unique| ensures IsEightDigits(unique[i]) || IsSNumber(unique[i]) {
      assert unique[i] in Elems(nums);
    }
    NumbersCommaFree(unique);
    SplitJoin(unique);
    SortUniqueIdempotent(nums);
  }

  /** Code-point order puts every all-ASCII-digit number before every S-number. */
  lemma AsciiDigitsBeforeS(nums: seq<string>, i: nat, j: nat)
    requires var u := SortUnique(nums); i < |u| && j < |u|
    requires var u := SortUnique(nums); |u[i]| > 0 && '0' <= u[i][0] <= '9'
    requires var u := SortUnique(nums); |u[j]| > 0 && u[j][0] == 'S'
    ensures i < j
  {
    var u := SortUnique(nums);
    SortUniqueCorrect(nums);
    assert LexLess(u[i], u[j]);
    if j <= i {
      assert j != i;
      LexLessAsymmetric(u[j], u[i]);
    }
  }

  /** Full-width digits (U+FF10 to U+FF19) are `\d` too but come after `S` in
      code-point order. */
  lemma FullWidthDigitsAfterS(a: string, b: string)
    requires |a| > 0 && '\U{FF10}' <= a[0] <= '\U{FF19}'
    requires |b| > 0 && b[0] == 'S'
    ensures LexLess(b, a) && IsDigit(a[0])
  {
  }

  // ---------------------------------------------------------------------------
  // extract_pdf_data

  const DispatchKey: string := "發文字號"
  const FactoryKey: string := "工廠編號"

  /** The remaining factory numbers of a text, once the excluded ones are filtered out. */
  function RemainingNumbers(text: string, exclude: Option<string>): seq<string> {
    Filtered(FactoryCandidates(text), ExcludeSet(exclude))
  }

  /** `extract_pdf_data`: a dictionary with the dispatch field then the factory field. */
  function ExtractPdfData(text: string, exclude: Option<string>): (d: Dict)
    ensures Valid(d)
    ensures d.keys == [DispatchKey, FactoryKey]
  {
    Dict([DispatchKey, FactoryKey],
         map[DispatchKey := Text(DispatchField(text)),
             FactoryKey := Text(FactoryField(RemainingNumbers(text, exclude)))])
  }

  /** The factory field lists, sorted and once each, exactly the candidates of the text
      that are not excluded eight-digit numbers; it is 無 exactly when there are none. */
  lemma ExtractedFactoryField(text: string, exclude: Option<string>)
    ensures var rest := RemainingNumbers(text, exclude);
            && (forall x :: x in rest <==> x in FactoryCandidates(text) && !(IsEightDigits(x) && x in ExcludeSet(exclude)))
            && (ExtractPdfData(text, exclude).values[FactoryKey] == Text(NoNumbers) <==> rest == [])
            && (rest != [] ==> Split(FactoryField(rest)) == SortUnique(rest))
  {
    var cands := FactoryCandidates(text);
    var rest := RemainingNumbers(text, exclude);
    FactoryCandidatesShape(text);
    FilteredMeaning(cands, ExcludeSet(exclude));
    forall i | 0 <= i < |rest| ensures IsEightDigits(rest[i]) || IsSNumber(rest[i]) {
      assert rest[i] in cands;
    }
    FactoryFieldNone(rest);
    if rest != [] {
      FactoryFieldResplit(rest);
    }
  }
}
