/** Character classes of Python's `re` module and `str` methods, for `str` (Unicode) patterns. */
module Chars {

  /** True when `c` is one of the ten digits of the decimal block whose zero is `zero`. */
  predicate InDigitBlock(c: char, zero: int) {
    zero <= c as int < zero + 10
  }

  /** Python's `\d` on a `str` pattern: a character of Unicode category Nd (Unicode 15.0).
      Every Nd character belongs to one of 68 blocks of ten consecutive code points,
      listed here by the code point of their zero. */
  predicate IsDigit(c: char) {
       InDigitBlock(c, 0x30) || InDigitBlock(c, 0x660) || InDigitBlock(c, 0x6F0) || InDigitBlock(c, 0x7C0)
    || InDigitBlock(c, 0x966) || InDigitBlock(c, 0x9E6) || InDigitBlock(c, 0xA66) || InDigitBlock(c, 0xAE6)
    || InDigitBlock(c, 0xB66) || InDigitBlock(c, 0xBE6) || InDigitBlock(c, 0xC66) || InDigitBlock(c, 0xCE6)
    || InDigitBlock(c, 0xD66) || InDigitBlock(c, 0xDE6) || InDigitBlock(c, 0xE50) || InDigitBlock(c, 0xED0)
    || InDigitBlock(c, 0xF20) || InDigitBlock(c, 0x1040) || InDigitBlock(c, 0x1090) || InDigitBlock(c, 0x17E0)
    || InDigitBlock(c, 0x1810) || InDigitBlock(c, 0x1946) || InDigitBlock(c, 0x19D0) || InDigitBlock(c, 0x1A80)
    || InDigitBlock(c, 0x1A90) || InDigitBlock(c, 0x1B50) || InDigitBlock(c, 0x1BB0) || InDigitBlock(c, 0x1C40)
    || InDigitBlock(c, 0x1C50) || InDigitBlock(c, 0xA620) || InDigitBlock(c, 0xA8D0) || InDigitBlock(c, 0xA900)
    || InDigitBlock(c, 0xA9D0) || InDigitBlock(c, 0xA9F0) || InDigitBlock(c, 0xAA50) || InDigitBlock(c, 0xABF0)
    || InDigitBlock(c, 0xFF10) || InDigitBlock(c, 0x104A0) || InDigitBlock(c, 0x10D30) || InDigitBlock(c, 0x11066)
    || InDigitBlock(c, 0x110F0) || InDigitBlock(c, 0x11136) || InDigitBlock(c, 0x111D0) || InDigitBlock(c, 0x112F0)
    || InDigitBlock(c, 0x11450) || InDigitBlock(c, 0x114D0) || InDigitBlock(c, 0x11650) || InDigitBlock(c, 0x116C0)
    || InDigitBlock(c, 0x11730) || InDigitBlock(c, 0x118E0) || InDigitBlock(c, 0x11950) || InDigitBlock(c, 0x11C50)
    || InDigitBlock(c, 0x11D50) || InDigitBlock(c, 0x11DA0) || InDigitBlock(c, 0x11F50) || InDigitBlock(c, 0x16A60)
    || InDigitBlock(c, 0x16AC0) || InDigitBlock(c, 0x16B50) || InDigitBlock(c, 0x1D7CE) || InDigitBlock(c, 0x1D7D8)
    || InDigitBlock(c, 0x1D7E2) || InDigitBlock(c, 0x1D7EC) || InDigitBlock(c, 0x1D7F6) || InDigitBlock(c, 0x1E140)
    || InDigitBlock(c, 0x1E2F0) || InDigitBlock(c, 0x1E4F0) || InDigitBlock(c, 0x1E950) || InDigitBlock(c, 0x1FBF0)
  }

  /** The code point of the zero of the decimal block that holds `c`. */
  function DigitZero(c: char): (z: int)
    requires IsDigit(c)
    ensures InDigitBlock(c, z)
  {
    if c as int < 0x660 then 0x30 else
    if c as int < 0x6F0 then 0x660 else
    if c as int < 0x7C0 then 0x6F0 else
    if c as int < 0x966 then 0x7C0 else
    if c as int < 0x9E6 then 0x966 else
    if c as int < 0xA66 then 0x9E6 else
    if c as int < 0xAE6 then 0xA66 else
    if c as int < 0xB66 then 0xAE6 else
    if c as int < 0xBE6 then 0xB66 else
    if c as int < 0xC66 then 0xBE6 else
    if c as int < 0xCE6 then 0xC66 else
    if c as int < 0xD66 then 0xCE6 else
    if c as int < 0xDE6 then 0xD66 else
    if c as int < 0xE50 then 0xDE6 else
    if c as int < 0xED0 then 0xE50 else
    if c as int < 0xF20 then 0xED0 else
    if c as int < 0x1040 then 0xF20 else
    if c as int < 0x1090 then 0x1040 else
    if c as int < 0x17E0 then 0x1090 else
    if c as int < 0x1810 then 0x17E0 else
    if c as int < 0x1946 then 0x1810 else
    if c as int < 0x19D0 then 0x1946 else
    if c as int < 0x1A80 then 0x19D0 else
    if c as int < 0x1A90 then 0x1A80 else
    if c as int < 0x1B50 then 0x1A90 else
    if c as int < 0x1BB0 then 0x1B50 else
    if c as int < 0x1C40 then 0x1BB0 else
    if c as int < 0x1C50 then 0x1C40 else
    if c as int < 0xA620 then 0x1C50 else
    if c as int < 0xA8D0 then 0xA620 else
    if c as int < 0xA900 then 0xA8D0 else
    if c as int < 0xA9D0 then 0xA900 else
    if c as int < 0xA9F0 then 0xA9D0 else
    if c as int < 0xAA50 then 0xA9F0 else
    if c as int < 0xABF0 then 0xAA50 else
    if c as int < 0xFF10 then 0xABF0 else
    if c as int < 0x104A0 then 0xFF10 else
    if c as int < 0x10D30 then 0x104A0 else
    if c as int < 0x11066 then 0x10D30 else
    if c as int < 0x110F0 then 0x11066 else
    if c as int < 0x11136 then 0x110F0 else
    if c as int < 0x111D0 then 0x11136 else
    if c as int < 0x112F0 then 0x111D0 else
    if c as int < 0x11450 then 0x112F0 else
    if c as int < 0x114D0 then 0x11450 else
    if c as int < 0x11650 then 0x114D0 else
    if c as int < 0x116C0 then 0x11650 else
    if c as int < 0x11730 then 0x116C0 else
    if c as int < 0x118E0 then 0x11730 else
    if c as int < 0x11950 then 0x118E0 else
    if c as int < 0x11C50 then 0x11950 else
    if c as int < 0x11D50 then 0x11C50 else
    if c as int < 0x11DA0 then 0x11D50 else
    if c as int < 0x11F50 then 0x11DA0 else
    if c as int < 0x16A60 then 0x11F50 else
    if c as int < 0x16AC0 then 0x16A60 else
    if c as int < 0x16B50 then 0x16AC0 else
    if c as int < 0x1D7CE then 0x16B50 else
    if c as int < 0x1D7D8 then 0x1D7CE else
    if c as int < 0x1D7E2 then 0x1D7D8 else
    if c as int < 0x1D7EC then 0x1D7E2 else
    if c as int < 0x1D7F6 then 0x1D7EC else
    if c as int < 0x1E140 then 0x1D7F6 else
    if c as int < 0x1E2F0 then 0x1E140 else
    if c as int < 0x1E4F0 then 0x1E2F0 else
    if c as int < 0x1E950 then 0x1E4F0 else
    if c as int < 0x1FBF0 then 0x1E950 else
    0x1FBF0
  }

  /** The decimal value Python's `int()` gives to the digit `c`. */
  function DigitValue(c: char): (v: nat)
    requires IsDigit(c)
    ensures v < 10
  {
    c as int - DigitZero(c)
  }

  /** The ASCII digit of value `d`, as `str(n)` writes it. */
  function AsciiDigit(d: nat): (c: char)
    requires d < 10
    ensures '0' <= c <= '9' && IsDigit(c) && DigitValue(c) == d
  {
    ('0' as int + d) as char
  }

  /** Below U+0660 the only decimal digits are the ASCII ones. */
  lemma NonDigitBelowArabicIndic(c: char)
    requires c < '\U{0660}' && !('0' <= c <= '9')
    ensures !IsDigit(c)
  {
  }

  /** Python's `str.isspace`: the characters `str.strip()` removes. */
  predicate IsSpace(c: char) {
    || '\t' <= c <= '\r'                  // U+0009 .. U+000D
    || '\U{001C}' <= c <= ' '                // U+001C .. U+0020
    || c == '\U{0085}' || c == '\U{00A0}' || c == '\U{1680}'
    || '\U{2000}' <= c <= '\U{200A}'
    || c == '\U{2028}' || c == '\U{2029}' || c == '\U{202F}' || c == '\U{205F}' || c == '\U{3000}'
  }

  /** Python's `\w` on a `str` pattern is `_` and the characters for which `str.isalnum()`
      holds. Here it is given exactly, as the Unicode 15.0 database of CPython 3.12 has it,
      for these blocks: U+0000–U+02FF (ASCII, Latin-1, Latin Extended-A/B, IPA and spacing
      modifiers), U+0370–U+052F (Greek and Cyrillic), U+1100–U+11FF (Hangul Jamo),
      U+1E00–U+1FFF (Latin Extended Additional, Greek Extended), U+2150–U+218F (number
      forms), U+2460–U+24FF (enclosed alphanumerics), U+3000–U+31FF (CJK symbols, kana,
      Bopomofo, Hangul compatibility jamo, Kanbun), U+3400–U+4DBF and U+4E00–U+9FFF (CJK
      ideographs), U+AC00–U+D7FF (Hangul syllables and Jamo Extended-B), U+F900–U+FAFF (CJK
      compatibility ideographs), U+FF00–U+FFEF (half- and full-width forms), and
      U+20000–U+2FA1F and U+30000–U+323AF (the supplementary CJK ideographs). A character
      outside these blocks is a word character here only when it is a decimal digit. */
  predicate IsWordChar(c: char) {
    || IsDigit(c)
    || 'A' <= c <= 'Z' || c == '_' || 'a' <= c <= 'z'
    || InWordRanges(c, WordRangeCount)
  }

  /** The number of ranges in the table of non-ASCII word characters. */
  const WordRangeCount := 82

  /** The `k`-th range of non-ASCII word characters, as its first and last character. The
      ranges are in increasing order and do not touch. */
  function WordRange(k: nat): (r: (char, char))
    requires k < WordRangeCount
    ensures r.0 <= r.1
  {
    match k
    case 0 => ('\U{00AA}', '\U{00AA}')
    case 1 => ('\U{00B2}', '\U{00B3}')
    case 2 => ('\U{00B5}', '\U{00B5}')
    case 3 => ('\U{00B9}', '\U{00BA}')
    case 4 => ('\U{00BC}', '\U{00BE}')
    case 5 => ('\U{00C0}', '\U{00D6}')
    case 6 => ('\U{00D8}', '\U{00F6}')
    case 7 => ('\U{00F8}', '\U{02C1}')
    case 8 => ('\U{02C6}', '\U{02D1}')
    case 9 => ('\U{02E0}', '\U{02E4}')
    case 10 => ('\U{02EC}', '\U{02EC}')
    case 11 => ('\U{02EE}', '\U{02EE}')
    case 12 => ('\U{0370}', '\U{0374}')
    case 13 => ('\U{0376}', '\U{0377}')
    case 14 => ('\U{037A}', '\U{037D}')
    case 15 => ('\U{037F}', '\U{037F}')
    case 16 => ('\U{0386}', '\U{0386}')
    case 17 => ('\U{0388}', '\U{038A}')
    case 18 => ('\U{038C}', '\U{038C}')
    case 19 => ('\U{038E}', '\U{03A1}')
    case 20 => ('\U{03A3}', '\U{03F5}')
    case 21 => ('\U{03F7}', '\U{0481}')
    case 22 => ('\U{048A}', '\U{052F}')
    case 23 => ('\U{1100}', '\U{11FF}')
    case 24 => ('\U{1E00}', '\U{1F15}')
    case 25 => ('\U{1F18}', '\U{1F1D}')
    case 26 => ('\U{1F20}', '\U{1F45}')
    case 27 => ('\U{1F48}', '\U{1F4D}')
    case 28 => ('\U{1F50}', '\U{1F57}')
    case 29 => ('\U{1F59}', '\U{1F59}')
    case 30 => ('\U{1F5B}', '\U{1F5B}')
    case 31 => ('\U{1F5D}', '\U{1F5D}')
    case 32 => ('\U{1F5F}', '\U{1F7D}')
    case 33 => ('\U{1F80}', '\U{1FB4}')
    case 34 => ('\U{1FB6}', '\U{1FBC}')
    case 35 => ('\U{1FBE}', '\U{1FBE}')
    case 36 => ('\U{1FC2}', '\U{1FC4}')
    case 37 => ('\U{1FC6}', '\U{1FCC}')
    case 38 => ('\U{1FD0}', '\U{1FD3}')
    case 39 => ('\U{1FD6}', '\U{1FDB}')
    case 40 => ('\U{1FE0}', '\U{1FEC}')
    case 41 => ('\U{1FF2}', '\U{1FF4}')
    case 42 => ('\U{1FF6}', '\U{1FFC}')
    case 43 => ('\U{2150}', '\U{2189}')
    case 44 => ('\U{2460}', '\U{249B}')
    case 45 => ('\U{24EA}', '\U{24FF}')
    case 46 => ('\U{3005}', '\U{3007}')
    case 47 => ('\U{3021}', '\U{3029}')
    case 48 => ('\U{3031}', '\U{3035}')
    case 49 => ('\U{3038}', '\U{303C}')
    case 50 => ('\U{3041}', '\U{3096}')
    case 51 => ('\U{309D}', '\U{309F}')
    case 52 => ('\U{30A1}', '\U{30FA}')
    case 53 => ('\U{30FC}', '\U{30FF}')
    case 54 => ('\U{3105}', '\U{312F}')
    case 55 => ('\U{3131}', '\U{318E}')
    case 56 => ('\U{3192}', '\U{3195}')
    case 57 => ('\U{31A0}', '\U{31BF}')
    case 58 => ('\U{31F0}', '\U{31FF}')
    case 59 => ('\U{3400}', '\U{4DBF}')
    case 60 => ('\U{4E00}', '\U{9FFF}')
    case 61 => ('\U{AC00}', '\U{D7A3}')
    case 62 => ('\U{D7B0}', '\U{D7C6}')
    case 63 => ('\U{D7CB}', '\U{D7FB}')
    case 64 => ('\U{F900}', '\U{FA6D}')
    case 65 => ('\U{FA70}', '\U{FAD9}')
    case 66 => ('\U{FF10}', '\U{FF19}')
    case 67 => ('\U{FF21}', '\U{FF3A}')
    case 68 => ('\U{FF41}', '\U{FF5A}')
    case 69 => ('\U{FF66}', '\U{FFBE}')
    case 70 => ('\U{FFC2}', '\U{FFC7}')
    case 71 => ('\U{FFCA}', '\U{FFCF}')
    case 72 => ('\U{FFD2}', '\U{FFD7}')
    case 73 => ('\U{FFDA}', '\U{FFDC}')
    case 74 => ('\U{20000}', '\U{2A6DF}')
    case 75 => ('\U{2A700}', '\U{2B739}')
    case 76 => ('\U{2B740}', '\U{2B81D}')
    case 77 => ('\U{2B820}', '\U{2CEA1}')
    case 78 => ('\U{2CEB0}', '\U{2EBE0}')
    case 79 => ('\U{2F800}', '\U{2FA1D}')
    case 80 => ('\U{30000}', '\U{3134A}')
    case _ => ('\U{31350}', '\U{323AF}')
  }

  /** True when `c` lies in one of the first `n` ranges of the table. */
  predicate InWordRanges(c: char, n: nat)
    requires n <= WordRangeCount
  {
    n > 0 && (WordRange(n - 1).0 <= c <= WordRange(n - 1).1 || InWordRanges(c, n - 1))
  }

  /** A character in the `k`-th range is in the table. */
  lemma {:induction false} InWordRange(c: char, k: nat, n: nat)
    requires k < n <= WordRangeCount && WordRange(k).0 <= c <= WordRange(k).1
    ensures InWordRanges(c, n)
  {
    if k < n - 1 {
      InWordRange(c, k, n - 1);
    }
  }

  /** Python's `str.lower()` on the ASCII letters; other characters are left as they are. */
  function AsciiLower(c: char): char {
    if 'A' <= c <= 'Z' then (c as int + 32) as char else c
  }

  lemma CjkIsWordNotDigit(c: char)
    requires '\U{4E00}' <= c <= '\U{9FFF}'
    ensures IsWordChar(c) && !IsDigit(c) && !IsSpace(c)
  {
    InWordRange(c, 60, WordRangeCount);
  }
}
