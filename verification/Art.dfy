/** A frame printed as half blocks, and the reader that gets its pixels back. */
module Art {
  import opened Wrappers
  import opened Framebuffer

  const NEWLINE: char := '\n'

  // ---- two pixels to a character

  function Glyph(hi: bool, lo: bool): char {
    if hi && lo then '\U{2588}' else if hi then '\U{2580}' else if lo then '\U{2584}' else ' '
  }

  function Halves(c: char): Option<(bool, bool)> {
    if c == '\U{2588}' then Some((true, true))
    else if c == '\U{2580}' then Some((true, false))
    else if c == '\U{2584}' then Some((false, true))
    else if c == ' ' then Some((false, false))
    else None
  }

  lemma HalvesInvertsGlyph(hi: bool, lo: bool)
    ensures Halves(Glyph(hi, lo)) == Some((hi, lo))
  {
  }

  // ---- printing

  function Dashes(n: nat): (s: string)
    ensures |s| == n && forall i :: 0 <= i < n ==> s[i] == '-'
  {
    seq(n, _ => '-')
  }

  const EDGE: string := "+" + Dashes(W) + "+"

  /** The characters of one printed row: two pixel rows. */
  function RowGlyphs(g: Grid, row: nat): (s: string)
    requires row < H / 2
    ensures |s| == W && forall x :: 0 <= x < W ==> s[x] == Glyph(g[2 * row][x], g[2 * row + 1][x])
  {
    seq(W, x requires 0 <= x < W => Glyph(g[2 * row][x], g[2 * row + 1][x]))
  }

  function RowLine(g: Grid, row: nat): string
    requires row < H / 2
  {
    "|" + RowGlyphs(g, row) + "|"
  }

  /** The first `rows` printed rows. */
  function RowLines(g: Grid, rows: nat): (lines: seq<string>)
    requires rows <= H / 2
    ensures |lines| == rows && forall r :: 0 <= r < rows ==> lines[r] == RowLine(g, r)
  {
    seq(rows, r requires 0 <= r < rows => RowLine(g, r))
  }

  function ArtLines(g: Grid): seq<string> {
    [EDGE] + RowLines(g, H / 2) + [EDGE]
  }

  /** Lines as text, a newline after each. */
  function Joined(lines: seq<string>): string {
    if lines == [] then "" else Joined(lines[..|lines| - 1]) + lines[|lines| - 1] + [NEWLINE]
  }

  lemma JoinedMore(lines: seq<string>, line: string)
    ensures Joined(lines + [line]) == Joined(lines) + line + [NEWLINE]
  {
    assert (lines + [line])[..|lines|] == lines;
  }

  method PrintRow(g: Grid, row: nat) returns (line: string)
    requires row < H / 2
    ensures line == RowLine(g, row)
  {
    line := "|";
    for x := 0 to W
      invariant line == "|" + RowGlyphs(g, row)[..x]
    {
      line := line + [Glyph(g[2 * row][x], g[2 * row + 1][x])];
      assert RowGlyphs(g, row)[..x + 1] == RowGlyphs(g, row)[..x] + [RowGlyphs(g, row)[x]];
    }
    assert RowGlyphs(g, row)[..W] == RowGlyphs(g, row);
    line := line + "|";
  }

  /** `art`: an edge, the rows between bars, an edge. */
  method Print(g: Grid) returns (s: string)
    ensures s == Joined(ArtLines(g))
  {
    s := EDGE + [NEWLINE];
    JoinedMore([], EDGE);
    assert [] + [EDGE] == [EDGE];
    for row := 0 to H / 2
      invariant s == Joined([EDGE] + RowLines(g, row))
    {
      var line := PrintRow(g, row);
      JoinedMore([EDGE] + RowLines(g, row), line);
      assert [EDGE] + RowLines(g, row) + [line] == [EDGE] + RowLines(g, row + 1);
      s := s + line + [NEWLINE];
    }
    JoinedMore([EDGE] + RowLines(g, H / 2), EDGE);
    s := s + EDGE + [NEWLINE];
  }

  // ---- reading

  /** What `splitlines` cuts at. */
  predicate IsBreak(c: char) {
    c in {NEWLINE, '\r', '\U{000B}', '\U{000C}', '\U{001C}', '\U{001D}', '\U{001E}', '\U{0085}', '\U{2028}',
          '\U{2029}'}
  }

  /** Where the first line ends: at a break, or at the end of the text. */
  function LineEnd(s: string): (n: nat)
    ensures n <= |s| && forall i :: 0 <= i < n ==> !IsBreak(s[i])
    ensures n < |s| ==> IsBreak(s[n])
  {
    if s == "" || IsBreak(s[0]) then 0 else 1 + LineEnd(s[1..])
  }

  /** `splitlines`; a return and a newline make one break. */
  function Lines(s: string): seq<string>
    decreases |s|
  {
    if s == "" then []
    else
      var n := LineEnd(s);
      if n == |s| then [s]
      else [s[..n]] + Lines(s[if "\r\n" <= s[n..] then n + 2 else n + 1..])
  }

  predicate OneLine(line: string) {
    forall i :: 0 <= i < |line| ==> !IsBreak(line[i])
  }

  lemma LinesOfFirst(line: string, rest: string)
    requires OneLine(line)
    ensures Lines(line + [NEWLINE] + rest) == [line] + Lines(rest)
  {
    var s := line + [NEWLINE] + rest;
    assert s[|line|] == NEWLINE && s[|line|..][0] == NEWLINE;
    assert LineEnd(s) == |line|;
    assert s[..|line|] == line && s[|line| + 1..] == rest;
  }

  lemma Regroup(a: string, b: string, c: string, d: string)
    ensures (a + b + c) + d == a + (b + c + d)
  {
  }

  /** Lines joined before some text are the lines of the whole before the lines of the rest. */
  lemma {:induction false} LinesOfJoined(lines: seq<string>, rest: string)
    requires forall k :: 0 <= k < |lines| ==> OneLine(lines[k])
    ensures Lines(Joined(lines) + rest) == lines + Lines(rest)
    decreases |lines|
  {
    if lines == [] {
      assert "" + rest == rest;
    } else {
      var front, last := lines[..|lines| - 1], lines[|lines| - 1];
      Regroup(Joined(front), last, [NEWLINE], rest);
      LinesOfJoined(front, last + [NEWLINE] + rest);
      LinesOfFirst(last, rest);
      Reunited(front, last, Lines(rest), lines);
    }
  }

  lemma Reunited(front: seq<string>, last: string, rest: seq<string>, lines: seq<string>)
    requires lines != [] && front == lines[..|lines| - 1] && last == lines[|lines| - 1]
    ensures front + ([last] + rest) == lines + rest
  {
  }

  /** All but the first and the last. */
  function Inner<T>(s: seq<T>): seq<T> {
    if |s| < 2 then [] else s[1..|s| - 1]
  }

  /** The rows of an art block: what is inside its edges, and inside the bars of each line. */
  function Rows(text: string): (rows: seq<string>) {
    InnerOfEach(Inner(Lines(text)))
  }

  function InnerOfEach(lines: seq<string>): (rows: seq<string>)
    ensures |rows| == |lines| && forall r :: 0 <= r < |lines| ==> rows[r] == Inner(lines[r])
  {
    seq(|lines|, r requires 0 <= r < |lines| => Inner(lines[r]))
  }

  /** Every character is a half block, and has its place on the panel. */
  ghost predicate LegibleRow(row: string, ry: nat) {
    forall x :: 0 <= x < |row| ==> Halves(row[x]).Some? && ry < H / 2 && x < W
  }

  ghost predicate Legible(rows: seq<string>) {
    forall r :: 0 <= r < |rows| ==> LegibleRow(rows[r], r)
  }

  /** The pixel some rows show; where they have no character it is dark. */
  function Pixel(rows: seq<string>, y: nat, x: nat): bool {
    if y / 2 >= |rows| then false else RowPixel(rows[y / 2], y % 2 == 0, x)
  }

  function RowPixel(row: string, upper: bool, x: nat): bool {
    if x >= |row| then false
    else match Halves(row[x]) case None => false case Some((hi, lo)) => if upper then hi else lo
  }

  /**
   `truth`'s parser, on a block its pattern found: strip the edges and the bars, and split each character into its
   two pixels. A character that is no half block, or that has no place on the panel, ends it.
   */
  method Truth(text: string) returns (r: Option<array2<bool>>)
    ensures r.Some? <==> Legible(Rows(text))
    ensures r.Some? ==> r.value.Length0 == H && r.value.Length1 == W
    ensures r.Some? ==> forall y, x :: 0 <= y < H && 0 <= x < W ==> r.value[y, x] == Pixel(Rows(text), y, x)
  {
    var rows := Rows(text);
    var g := new bool[H, W]((_, _) => false);
    for ry := 0 to |rows|
      invariant forall r :: 0 <= r < ry ==> LegibleRow(rows[r], r)
      invariant forall y, x :: 0 <= y < H && 0 <= x < W ==> g[y, x] == (y / 2 < ry && Pixel(rows, y, x))
    {
      var ok := SplitRow(rows[ry], ry, g);
      if !ok {
        return None;
      }
    }
    r := Some(g);
  }

  /** One printed row into its two pixel rows; no other pixel row changes. */
  method SplitRow(row: string, ry: nat, g: array2<bool>) returns (ok: bool)
    requires g.Length0 == H && g.Length1 == W
    requires forall y, x :: 0 <= y < H && 0 <= x < W && y / 2 == ry ==> !g[y, x]
    modifies g
    ensures ok <==> LegibleRow(row, ry)
    ensures forall y, x :: 0 <= y < H && 0 <= x < W && y / 2 != ry ==> g[y, x] == old(g[y, x])
    ensures ok ==> forall y, x :: 0 <= y < H && 0 <= x < W && y / 2 == ry ==> g[y, x] == RowPixel(row, y % 2 == 0, x)
  {
    for x := 0 to |row|
      invariant forall c :: 0 <= c < x ==> Halves(row[c]).Some? && ry < H / 2 && c < W
      invariant forall y, c :: 0 <= y < H && 0 <= c < W && y / 2 != ry ==> g[y, c] == old(g[y, c])
      invariant forall y, c :: 0 <= y < H && 0 <= c < W && y / 2 == ry ==>
        g[y, c] == (c < x && RowPixel(row, y % 2 == 0, c))
    {
      var halves := Halves(row[x]);
      if halves.None? || ry >= H / 2 || x >= W {
        return false;
      }
      g[2 * ry, x] := halves.value.0;
      g[2 * ry + 1, x] := halves.value.1;
    }
    ok := true;
  }

  lemma ArtIsLines(g: Grid, k: nat)
    requires k < H / 2 + 2
    ensures |ArtLines(g)| == H / 2 + 2 && OneLine(ArtLines(g)[k])
    ensures 1 <= k <= H / 2 ==> ArtLines(g)[k] == RowLine(g, k - 1)
  {
    if 1 <= k <= H / 2 {
      assert ArtLines(g)[k] == RowLines(g, H / 2)[k - 1];
    }
  }

  lemma RowsOfArt(g: Grid)
    ensures var rows := InnerOfEach(Inner(ArtLines(g)));
      |rows| == H / 2 && forall r :: 0 <= r < H / 2 ==> rows[r] == RowGlyphs(g, r)
  {
    var lines := ArtLines(g);
    forall r | 0 <= r < H / 2
      ensures Inner(Inner(lines)[r]) == RowGlyphs(g, r)
    {
      ArtIsLines(g, r + 1);
      assert Inner(lines)[r] == lines[r + 1] == RowLine(g, r);
    }
  }

  /** What was printed has, inside its edges and bars, the glyphs of each row. */
  lemma RowsOfPrint(g: Grid)
    ensures var rows := Rows(Joined(ArtLines(g)));
      |rows| == H / 2 && forall r :: 0 <= r < H / 2 ==> rows[r] == RowGlyphs(g, r)
  {
    var lines := ArtLines(g);
    forall k | 0 <= k < |lines|
      ensures OneLine(lines[k])
    {
      ArtIsLines(g, k);
    }
    LinesOfJoined(lines, "");
    assert Joined(lines) + "" == Joined(lines) && lines + [] == lines;
    RowsOfArt(g);
  }

  /** What was printed is legible, and every pixel of it reads back as it was. */
  lemma TruthInvertsArt(g: Grid)
    ensures Legible(Rows(Joined(ArtLines(g))))
    ensures forall y, x :: 0 <= y < H && 0 <= x < W ==> Pixel(Rows(Joined(ArtLines(g))), y, x) == g[y][x]
  {
    RowsOfPrint(g);
    ReadsBack(g, Rows(Joined(ArtLines(g))));
  }

  lemma ReadsBack(g: Grid, rows: seq<string>)
    requires |rows| == H / 2 && forall r :: 0 <= r < H / 2 ==> rows[r] == RowGlyphs(g, r)
    ensures Legible(rows) && forall y, x :: 0 <= y < H && 0 <= x < W ==> Pixel(rows, y, x) == g[y][x]
  {
    forall r | 0 <= r < |rows|
      ensures LegibleRow(rows[r], r)
    {
      GlyphsAreLegible(g, r);
    }
    forall y, x | 0 <= y < H && 0 <= x < W
      ensures Pixel(rows, y, x) == g[y][x]
    {
      ShownAsPrinted(g, y, x);
    }
  }

  lemma GlyphsAreLegible(g: Grid, r: nat)
    requires r < H / 2
    ensures LegibleRow(RowGlyphs(g, r), r)
  {
    forall x | 0 <= x < W
      ensures Halves(RowGlyphs(g, r)[x]).Some?
    {
      HalvesInvertsGlyph(g[2 * r][x], g[2 * r + 1][x]);
    }
  }

  lemma ShownAsPrinted(g: Grid, y: nat, x: nat)
    requires y < H && x < W
    ensures RowPixel(RowGlyphs(g, y / 2), y % 2 == 0, x) == g[y][x]
  {
    var row := y / 2;
    HalvesInvertsGlyph(g[2 * row][x], g[2 * row + 1][x]);
  }
}
