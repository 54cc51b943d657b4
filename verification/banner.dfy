/** `str_line` (spssp_mc_combine.py): a section heading framed by runs of '=' so that
    short headings line up at about 50 characters. */
module Banner {
  const MaxLen: int := 50

  /** Python `int(a / b)`: true division, then truncation toward zero. */
  function TruncDiv(a: int, b: int): (q: int)
    requires b > 0
    ensures a >= 0 ==> q * b <= a < (q + 1) * b
    ensures a < 0 ==> (q - 1) * b < a <= q * b
  {
    if a >= 0 then a / b else -((-a) / b)
  }

  /** `n` copies of `c`. */
  function Repeat(c: char, n: nat): (r: string)
    ensures |r| == n
    ensures forall k :: 0 <= k < n ==> r[k] == c
  {
    if n == 0 then [] else Repeat(c, n - 1) + [c]
  }

  /** The number of '=' on each side: `range(dash_len)` is empty when `dash_len <= 0`. */
  function DashCount(shown: nat): nat {
    var d := TruncDiv(MaxLen - shown, 2);
    if d > 0 then d else 0
  }

  /** Headings up to 50 characters get half of what is left of 50 on each side, rounded
      down; longer headings get no dashes at all. */
  lemma DashCountMeaning(shown: nat)
    ensures shown <= 50 ==> 2 * DashCount(shown) + shown <= 50 < 2 * DashCount(shown) + shown + 2
    ensures shown <= 50 ==> DashCount(shown) == (50 - shown) / 2
    ensures shown >= 49 ==> DashCount(shown) == 0
  {
  }

  /** The banner text the function builds, as one expression. */
  function BannerOf(show: string): string {
    var dash := Repeat('=', DashCount(|show|));
    dash + " " + show + " " + dash + "\n"
  }

  /** `str_line`: builds the dash run one '=' at a time, then frames the heading. */
  method StrLine(show: string) returns (line: string)
    ensures line == BannerOf(show)
    ensures |line| == 2 * DashCount(|show|) + |show| + 3
  {
    var dashLen := TruncDiv(MaxLen - |show|, 2);
    var dash := "";
    var i := 0;
    while i < dashLen
      invariant 0 <= i <= DashCount(|show|)
      invariant dash == Repeat('=', i)
    {
      dash := dash + "=";
      i := i + 1;
    }
    assert i == DashCount(|show|);
    line := dash + " " + show + " " + dash + "\n";
  }

  /** The banner is the heading framed symmetrically: the same number of '=' on each side,
      a space on each side of the heading, and a newline at the end. */
  lemma BannerShape(show: string)
    ensures var line := BannerOf(show); var d := DashCount(|show|);
            && |line| == 2 * d + |show| + 3
            && line[..d] == Repeat('=', d)
            && line[d + |show| + 2..|line| - 1] == Repeat('=', d)
            && line[d] == ' ' && line[d + 1 + |show|] == ' '
            && line[d + 1..d + 1 + |show|] == show
            && line[|line| - 1] == '\n'
  {
    var d := DashCount(|show|);
    var dash := Repeat('=', d);
    var line := BannerOf(show);
    assert line == dash + [' '] + show + [' '] + dash + ['\n'];
  }

  /** Every heading of at most 50 characters yields a banner of 53 characters when its
      length is even and 52 when it is odd. */
  lemma BannerWidth(show: string)
    requires |show| <= 50
    ensures |BannerOf(show)| == 53 - |show| % 2
  {
    DashCountMeaning(|show|);
  }

  /** The first section heading of the pipeline, `1.移除空白頁面`, has 8 characters and
      gets 21 '=' on each side. */
  lemma FirstHeading()
    ensures DashCount(|"1.移除空白頁面"|) == 21
    ensures |BannerOf("1.移除空白頁面")| == 53
  {
  }
}
