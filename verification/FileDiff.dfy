/** The bounded line diff of shared/localRunFileDiff.ts.

  A diff is first described without any algorithm: `IsEditScript` says what a list of lines must look
  like to turn one file into the other, `IsSubseq` what a common subsequence is. The method
  `BuildFileDiffLines` is the source's trim / table / walk / fallback, and its contract says that the
  result is an edit script which, when the table fits, keeps a longest common subsequence. */
module FileDiff {

  import opened Options
  import opened Text

  datatype DiffLine =
    | Same(text: string, before: nat, after: nat)
    | Removed(text: string, before: nat)
    | Added(text: string, after: nat)

  /** A cell of the source's Uint16Array. A store of a larger number would wrap silently there; here the
      conversion has to be proved to fit. */
  newtype uint16 = x: int | 0 <= x < 0x1_0000

  /** The largest table the source is willing to allocate. */
  const CELL_CAP := 200_000

  /** null and the empty text are files without lines. */
  function FileLines(content: Option<string>): seq<string> {
    if content.None? || content.value == "" then [] else Split(content.value, '\n')
  }

  // ---------------------------------------------------------------- what a diff is

  /** `lines` turns `a` into `b`: read from the end, every line accounts for the last line of the old
      file, of the new file, or of both, and carries its 1-based number there. */
  ghost predicate IsEditScript(lines: seq<DiffLine>, a: seq<string>, b: seq<string>) {
    if lines == [] then
      a == [] && b == []
    else
      var rest := lines[..|lines| - 1];
      match lines[|lines| - 1]
      case Same(t, n, m) =>
        0 < n == |a| && 0 < m == |b| && a[n - 1] == t && b[m - 1] == t && IsEditScript(rest, a[..n - 1], b[..m - 1])
      case Removed(t, n) =>
        0 < n == |a| && a[n - 1] == t && IsEditScript(rest, a[..n - 1], b)
      case Added(t, m) =>
        0 < m == |b| && b[m - 1] == t && IsEditScript(rest, a, b[..m - 1])
  }

  /** The numbered old file, as the diff shows it: its kept and removed lines. */
  function OldLines(lines: seq<DiffLine>): seq<(nat, string)> {
    if lines == [] then [] else
      var l := lines[|lines| - 1];
      OldLines(lines[..|lines| - 1]) + (if l.Added? then [] else [(l.before, l.text)])
  }

  /** The numbered new file, as the diff shows it: its kept and added lines. */
  function NewLines(lines: seq<DiffLine>): seq<(nat, string)> {
    if lines == [] then [] else
      var l := lines[|lines| - 1];
      NewLines(lines[..|lines| - 1]) + (if l.Removed? then [] else [(l.after, l.text)])
  }

  function SameTexts(lines: seq<DiffLine>): seq<string> {
    if lines == [] then [] else
      var l := lines[|lines| - 1];
      SameTexts(lines[..|lines| - 1]) + (if l.Same? then [l.text] else [])
  }

  /** A file with its lines numbered from 1. */
  function Numbered(a: seq<string>): (s: seq<(nat, string)>)
    ensures |s| == |a| && forall k :: 0 <= k < |a| ==> s[k] == (k + 1, a[k])
  {
    seq(|a|, k requires 0 <= k < |a| => (k + 1, a[k]))
  }

  lemma NumberedSnoc(a: seq<string>, e: string)
    ensures Numbered(a + [e]) == Numbered(a) + [(|a| + 1, e)]
  {
  }

  /** Nothing is lost and nothing is invented: the kept and removed lines are the old file with its
      line numbers, the kept and added lines the new one. */
  lemma ScriptReproducesBothFiles(lines: seq<DiffLine>, a: seq<string>, b: seq<string>)
    requires IsEditScript(lines, a, b)
    ensures OldLines(lines) == Numbered(a)
    ensures NewLines(lines) == Numbered(b)
  {
    hide *;
    OldSide(lines, a, b);
    NewSide(lines, a, b);
  }

  lemma {:induction false} OldSide(lines: seq<DiffLine>, a: seq<string>, b: seq<string>)
    requires IsEditScript(lines, a, b)
    ensures OldLines(lines) == Numbered(a)
    decreases |lines|
  {
    if lines != [] {
      var rest, l := lines[..|lines| - 1], lines[|lines| - 1];
      var b' := if l.Removed? then b else b[..|b| - 1];
      if l.Added? {
        OldSide(rest, a, b');
      } else {
        OldSide(rest, a[..|a| - 1], b');
        assert a == a[..|a| - 1] + [l.text];
        NumberedSnoc(a[..|a| - 1], l.text);
      }
    }
  }

  lemma {:induction false} NewSide(lines: seq<DiffLine>, a: seq<string>, b: seq<string>)
    requires IsEditScript(lines, a, b)
    ensures NewLines(lines) == Numbered(b)
    decreases |lines|
  {
    if lines != [] {
      var rest, l := lines[..|lines| - 1], lines[|lines| - 1];
      var a' := if l.Added? then a else a[..|a| - 1];
      if l.Removed? {
        NewSide(rest, a', b);
      } else {
        NewSide(rest, a', b[..|b| - 1]);
        assert b == b[..|b| - 1] + [l.text];
        NumberedSnoc(b[..|b| - 1], l.text);
      }
    }
  }

  // ---------------------------------------------------------------- subsequences

  /** `c` can be read off `a` from left to right, skipping lines. */
  predicate IsSubseq(c: seq<string>, a: seq<string>) {
    c == [] || (a != [] && ((c[0] == a[0] && IsSubseq(c[1..], a[1..])) || IsSubseq(c, a[1..])))
  }

  predicate IsCommon(c: seq<string>, a: seq<string>, b: seq<string>) {
    IsSubseq(c, a) && IsSubseq(c, b)
  }

  ghost predicate IsLongestCommon(c: seq<string>, a: seq<string>, b: seq<string>) {
    IsCommon(c, a, b) && forall d :: IsCommon(d, a, b) ==> |d| <= |c|
  }

  lemma {:induction false} SubseqTail(c: seq<string>, a: seq<string>)
    requires c != [] && IsSubseq(c, a)
    ensures IsSubseq(c[1..], a)
    decreases |a|
  {
    if !(c[0] == a[0] && IsSubseq(c[1..], a[1..])) {
      SubseqTail(c, a[1..]);
    }
    if c[1..] != [] {
      assert IsSubseq(c[1..], a[1..]);
    }
  }

  lemma {:induction false} SubseqSnoc(c: seq<string>, a: seq<string>, e: string)
    requires IsSubseq(c, a)
    ensures IsSubseq(c, a + [e])
    ensures IsSubseq(c + [e], a + [e])
    decreases |a|
  {
    if a == [] {
      assert c + [e] == [e] && a + [e] == [e];
    } else {
      assert (a + [e])[1..] == a[1..] + [e] && (a + [e])[0] == a[0];
      if IsSubseq(c, a[1..]) {
        SubseqSnoc(c, a[1..], e);
      } else {
        SubseqSnoc(c[1..], a[1..], e);
        assert (c + [e])[1..] == c[1..] + [e];
      }
    }
  }

  /** The kept lines of an edit script are a common subsequence of the two files. */
  lemma {:induction false} KeptLinesAreCommon(lines: seq<DiffLine>, a: seq<string>, b: seq<string>)
    requires IsEditScript(lines, a, b)
    ensures IsCommon(SameTexts(lines), a, b)
    decreases |lines|
  {
    if lines != [] {
      var rest, l := lines[..|lines| - 1], lines[|lines| - 1];
      var a' := if l.Added? then a else a[..|a| - 1];
      var b' := if l.Removed? then b else b[..|b| - 1];
      KeptLinesAreCommon(rest, a', b');
      if !l.Added? {
        assert a == a' + [l.text];
        SubseqSnoc(SameTexts(rest), a', l.text);
      }
      if !l.Removed? {
        assert b == b' + [l.text];
        SubseqSnoc(SameTexts(rest), b', l.text);
      }
      if !l.Same? {
        assert SameTexts(lines) == SameTexts(rest);
      }
    }
  }

  // ---------------------------------------------------------------- the recurrence

  /** The recurrence the table is filled with. `LcsIsUpperBound` and `LcsIsReached` say what it means. */
  function Lcs(a: seq<string>, b: seq<string>): (n: nat)
    ensures n <= |a| && n <= |b|
    decreases |a| + |b|
  {
    if a == [] || b == [] then 0
    else if a[0] == b[0] then 1 + Lcs(a[1..], b[1..])
    else Max(Lcs(a[1..], b), Lcs(a, b[1..]))
  }

  function Max(x: nat, y: nat): nat {
    if x < y then y else x
  }

  lemma {:induction false} LcsIsUpperBound(c: seq<string>, a: seq<string>, b: seq<string>)
    requires IsCommon(c, a, b)
    ensures |c| <= Lcs(a, b)
    decreases |a| + |b|
  {
    if c != [] {
      if a[0] == b[0] {
        if !IsSubseq(c[1..], a[1..]) {
          SubseqTail(c, a[1..]);
        }
        if !IsSubseq(c[1..], b[1..]) {
          SubseqTail(c, b[1..]);
        }
        LcsIsUpperBound(c[1..], a[1..], b[1..]);
      } else if c[0] != a[0] {
        LcsIsUpperBound(c, a[1..], b);
      } else {
        LcsIsUpperBound(c, a, b[1..]);
      }
    }
  }

  /** The recurrence is attained: together with the upper bound, Lcs(a, b) is the length of a longest
      common subsequence. */
  lemma {:induction false} LcsIsReached(a: seq<string>, b: seq<string>) returns (c: seq<string>)
    ensures IsCommon(c, a, b) && |c| == Lcs(a, b)
    decreases |a| + |b|
  {
    if a == [] || b == [] {
      c := [];
    } else if a[0] == b[0] {
      var d := LcsIsReached(a[1..], b[1..]);
      c := [a[0]] + d;
      assert c[1..] == d;
    } else if Lcs(a[1..], b) >= Lcs(a, b[1..]) {
      c := LcsIsReached(a[1..], b);
      assert IsSubseq(c, a);
    } else {
      c := LcsIsReached(a, b[1..]);
      assert IsSubseq(c, b);
    }
  }

  // ---------------------------------------------------------------- trimming loses nothing

  lemma {:induction false} SubseqDropPrefix(c: seq<string>, pre: seq<string>, x: seq<string>)
    requires IsSubseq(c, pre + x)
    requires |pre| <= |c|
    ensures IsSubseq(c[|pre|..], x)
    decreases |pre|
  {
    if pre == [] {
      assert pre + x == x && c[0..] == c;
    } else {
      assert (pre + x)[1..] == pre[1..] + x;
      if !IsSubseq(c[1..], pre[1..] + x) {
        SubseqTail(c, pre[1..] + x);
      }
      SubseqDropPrefix(c[1..], pre[1..], x);
      assert c[1..][|pre| - 1..] == c[|pre|..];
    }
  }

  lemma {:induction false} SubseqDropSuffix(c: seq<string>, x: seq<string>, suf: seq<string>)
    requires IsSubseq(c, x + suf)
    requires |suf| <= |c|
    ensures IsSubseq(c[..|c| - |suf|], x)
    decreases |x|
  {
    if x == [] {
      assert x + suf == suf;
      SubseqIsShorter(c, suf);
      assert c[..0] == [];
    } else if |c| > |suf| {
      assert (x + suf)[1..] == x[1..] + suf;
      if IsSubseq(c, x[1..] + suf) {
        SubseqDropSuffix(c, x[1..], suf);
      } else {
        SubseqDropSuffix(c[1..], x[1..], suf);
        assert c[1..][..|c| - 1 - |suf|] == c[..|c| - |suf|][1..];
      }
    }
  }

  lemma {:induction false} SubseqIsShorter(c: seq<string>, a: seq<string>)
    requires IsSubseq(c, a)
    ensures |c| <= |a|
    decreases |a|
  {
    if c != [] {
      if IsSubseq(c, a[1..]) {
        SubseqIsShorter(c, a[1..]);
      } else {
        SubseqIsShorter(c[1..], a[1..]);
      }
    }
  }

  /** No common subsequence of the whole files beats the trimmed lines plus the best of the middle. */
  lemma {:induction false} TrimmedBound(c: seq<string>, pre: seq<string>, u: seq<string>, v: seq<string>,
                                        suf: seq<string>)
    requires IsCommon(c, pre + u + suf, pre + v + suf)
    ensures |c| <= |pre| + Lcs(u, v) + |suf|
  {
    if |c| > |pre| + |suf| {
      assert pre + u + suf == pre + (u + suf) && pre + v + suf == pre + (v + suf);
      SubseqDropPrefix(c, pre, u + suf);
      SubseqDropPrefix(c, pre, v + suf);
      var d := c[|pre|..];
      SubseqDropSuffix(d, u, suf);
      SubseqDropSuffix(d, v, suf);
      LcsIsUpperBound(d[..|d| - |suf|], u, v);
    }
  }

  // ---------------------------------------------------------------- the source's trims and table size

  function CommonPrefix(a: seq<string>, b: seq<string>): (p: nat)
    ensures p <= |a| && p <= |b|
  {
    if a != [] && b != [] && a[0] == b[0] then 1 + CommonPrefix(a[1..], b[1..]) else 0
  }

  lemma {:induction false} CommonPrefixAgrees(a: seq<string>, b: seq<string>)
    ensures var p := CommonPrefix(a, b); a[..p] == b[..p]
  {
    var p := CommonPrefix(a, b);
    if p > 0 {
      CommonPrefixAgrees(a[1..], b[1..]);
      assert a[..p] == [a[0]] + a[1..][..p - 1] && b[..p] == [b[0]] + b[1..][..p - 1];
    }
  }

  function CommonSuffix(a: seq<string>, b: seq<string>): (s: nat)
    ensures s <= |a| && s <= |b|
  {
    if a != [] && b != [] && a[|a| - 1] == b[|b| - 1] then
      1 + CommonSuffix(a[..|a| - 1], b[..|b| - 1])
    else 0
  }

  lemma {:induction false} CommonSuffixAgrees(a: seq<string>, b: seq<string>)
    ensures var s := CommonSuffix(a, b); a[|a| - s..] == b[|b| - s..]
  {
    var s := CommonSuffix(a, b);
    if s > 0 {
      var a', b' := a[..|a| - 1], b[..|b| - 1];
      CommonSuffixAgrees(a', b');
      assert a[|a| - s..] == a'[|a'| - (s - 1)..] + [a[|a| - 1]];
      assert b[|b| - s..] == b'[|b'| - (s - 1)..] + [b[|b| - 1]];
    }
  }

  /** What is left of `a` when the common prefix and then the common suffix with `b` are taken off. */
  function Middle(a: seq<string>, b: seq<string>): seq<string> {
    var p := CommonPrefix(a, b);
    a[p..|a| - CommonSuffix(a[p..], b[p..])]
  }

  function Trimmed(a: seq<string>, b: seq<string>): nat {
    var p := CommonPrefix(a, b);
    p + CommonSuffix(a[p..], b[p..])
  }

  predicate TableFits(u: seq<string>, v: seq<string>) {
    (|u| + 1) * (|v| + 1) <= CELL_CAP
  }

  /** Nothing more can be trimmed: the middles begin with different lines and end with different lines. */
  lemma {:induction false} NothingLeftToTrim(a: seq<string>, b: seq<string>)
    ensures var u, v := Middle(a, b), Middle(b, a);
            u != [] && v != [] ==> u[0] != v[0] && u[|u| - 1] != v[|v| - 1]
  {
    hide CommonPrefix, CommonSuffix, Middle;
    var p := CommonPrefix(a, b);
    PrefixEnds(a, b);
    SuffixEnds(a[p..], b[p..]);
    MiddleFound(a, b, p, CommonSuffix(a[p..], b[p..]));
  }

  lemma {:induction false} PrefixEnds(a: seq<string>, b: seq<string>)
    ensures var p := CommonPrefix(a, b); p < |a| && p < |b| ==> a[p] != b[p]
  {
    if a != [] && b != [] && a[0] == b[0] {
      PrefixEnds(a[1..], b[1..]);
    }
  }

  lemma {:induction false} SuffixEnds(a: seq<string>, b: seq<string>)
    ensures var s := CommonSuffix(a, b); s < |a| && s < |b| ==> a[|a| - 1 - s] != b[|b| - 1 - s]
  {
    if a != [] && b != [] && a[|a| - 1] == b[|b| - 1] {
      SuffixEnds(a[..|a| - 1], b[..|b| - 1]);
    }
  }

  lemma PrefixSymmetric(a: seq<string>, b: seq<string>)
    ensures CommonPrefix(a, b) == CommonPrefix(b, a)
  {
  }

  lemma SuffixSymmetric(a: seq<string>, b: seq<string>)
    ensures CommonSuffix(a, b) == CommonSuffix(b, a)
  {
  }

  lemma MiddleDecomposes(a: seq<string>, b: seq<string>) returns (pre: seq<string>, suf: seq<string>)
    ensures a == pre + Middle(a, b) + suf && b == pre + Middle(b, a) + suf
    ensures |pre| + |suf| == Trimmed(a, b)
  {
    hide CommonPrefix, CommonSuffix;
    var p := CommonPrefix(a, b);
    var x, y := a[p..], b[p..];
    PrefixSymmetric(a, b);
    CommonPrefixAgrees(a, b);
    SuffixSymmetric(x, y);
    CommonSuffixAgrees(x, y);
    var s := CommonSuffix(x, y);
    pre, suf := a[..p], x[|x| - s..];
    assert Middle(a, b) == x[..|x| - s] && Middle(b, a) == y[..|y| - s];
    assert x == x[..|x| - s] + suf && y == y[..|y| - s] + suf;
    assert a == pre + x && b == pre + y;
  }

  /** A table that fits has no room for two files of more than 446 lines each. */
  lemma CellsFitIn16Bits(m: nat, n: nat, cell: nat)
    requires (m + 1) * (n + 1) <= CELL_CAP
    requires cell <= m && cell <= n
    ensures cell <= 446
  {
    MulMonotone(cell + 1, m + 1, cell + 1, n + 1);
    if cell >= 447 {
      MulMonotone(448, cell + 1, 448, cell + 1);
    }
  }

  lemma MulMonotone(x: nat, x': nat, y: nat, y': nat)
    requires x <= x' && y <= y'
    ensures x * y <= x' * y'
  {
    assert x * y <= x' * y <= x' * y';
  }

  // ---------------------------------------------------------------- the flat table

  /** What row-major position k of the table over the middles u and v has to hold. */
  function CellSpec(u: seq<string>, v: seq<string>, k: nat): nat
    requires k < (|u| + 1) * (|v| + 1)
  {
    RowInRange(u, v, k);
    Lcs(u[k / (|v| + 1)..], v[k % (|v| + 1)..])
  }

  lemma RowInRange(u: seq<string>, v: seq<string>, k: nat)
    requires k < (|u| + 1) * (|v| + 1)
    ensures 0 <= k / (|v| + 1) <= |u| && 0 <= k % (|v| + 1) <= |v|
  {
    var w := |v| + 1;
    assert k == k / w * w + k % w;
    assert (k / w - |u| - 1) * w == k - k % w - (|u| + 1) * w;
    MultipleIsFar(k / w - |u| - 1, w);
  }

  lemma CellAt(u: seq<string>, v: seq<string>, x: nat, y: nat)
    requires x <= |u| && y <= |v|
    ensures 0 <= x * (|v| + 1) + y < (|u| + 1) * (|v| + 1)
    ensures CellSpec(u, v, x * (|v| + 1) + y) == Lcs(u[x..], v[y..])
  {
    var w := |v| + 1;
    MulMonotone(x + 1, |u| + 1, w, w);
    assert (x + 1) * w == x * w + w;
    DivModUnique(x, y, w);
  }

  lemma DivModUnique(x: nat, y: nat, w: nat)
    requires y < w
    ensures (x * w + y) / w == x && (x * w + y) % w == y
  {
    var k := x * w + y;
    assert k == k / w * w + k % w;
    assert (k / w - x) * w == y - k % w;
    MultipleIsFar(k / w - x, w);
  }

  lemma MultipleIsFar(d: int, w: nat)
    ensures d >= 1 ==> d * w >= w
    ensures d <= -1 ==> d * w + w <= 0
  {
  }

  /** Fill the table from the last row and column inwards. The last row and column are never written:
      the zeros of a new Uint16Array are their values. */
  method FillTable(a: seq<string>, b: seq<string>, startI: nat, startJ: nat, endA: nat, endB: nat)
    returns (cells: array<uint16>)
    requires startI <= endA <= |a| && startJ <= endB <= |b|
    requires (endA - startI + 1) * (endB - startJ + 1) <= CELL_CAP
    ensures fresh(cells)
    ensures cells.Length == (endA - startI + 1) * (endB - startJ + 1)
    ensures forall k :: 0 <= k < cells.Length ==>
              cells[k] as int == CellSpec(a[startI..endA], b[startJ..endB], k)
  {
    hide CellSpec;
    ghost var u, v := a[startI..endA], b[startJ..endB];
    var width := endB - startJ + 1;
    cells := new uint16[(endA - startI + 1) * width](_ => 0);
    LastRow(u, v);
    var x := endA;
    ghost var row := |u| * width;
    assert cells.Length == row + width by { assert (|u| + 1) * width == |u| * width + width; }
    while x > startI
      invariant startI <= x <= endA
      invariant 0 <= row == (x - startI) * width && row + width <= cells.Length
      invariant Filled(cells, u, v, row)
    {
      x := x - 1;
      RowAbove(u, v, x - startI, row);
      row := row - width;
      FillRow(a, b, startI, startJ, endA, endB, x, row, cells);
    }
  }

  /** The table is right from position `from` on, and still zero before. */
  ghost predicate Filled(cells: array<uint16>, u: seq<string>, v: seq<string>, from: int)
    requires cells.Length == (|u| + 1) * (|v| + 1)
    reads cells
  {
    && (forall k :: 0 <= k < cells.Length && from <= k ==> cells[k] as int == CellSpec(u, v, k))
    && (forall k :: 0 <= k < cells.Length && k < from ==> cells[k] == 0)
  }

  /** The inner loop: one row, whose last cell stays zero. */
  method FillRow(a: seq<string>, b: seq<string>, startI: nat, startJ: nat, endA: nat, endB: nat, x: nat,
                 ghost row: nat, cells: array<uint16>)
    requires startI <= x < endA <= |a| && startJ <= endB <= |b|
    requires (endA - startI + 1) * (endB - startJ + 1) <= CELL_CAP
    requires cells.Length == (endA - startI + 1) * (endB - startJ + 1)
    requires row == (x - startI) * (endB - startJ + 1) && row + endB - startJ < cells.Length
    requires Filled(cells, a[startI..endA], b[startJ..endB], row + endB - startJ)
    modifies cells
    ensures Filled(cells, a[startI..endA], b[startJ..endB], row)
  {
    hide CellSpec;
    ghost var u, v := a[startI..endA], b[startJ..endB];
    var width := endB - startJ + 1;
    var y := endB;
    while y > startJ
      invariant startJ <= y <= endB
      invariant Filled(cells, u, v, row + y - startJ)
    {
      y := y - 1;
      var k := (x - startI) * width + y - startJ;
      CellStep(u, v, x - startI, y - startJ, k);
      var cell := if a[x] == b[y] then cells[k + width + 1] as int + 1
                  else Max(cells[k + width] as int, cells[k + 1] as int);
      CellsFitIn16Bits(|u|, |v|, cell);
      cells[k] := cell as uint16;
    }
  }

  lemma RowAbove(u: seq<string>, v: seq<string>, x: nat, row: nat)
    requires x < |u| && row == (x + 1) * (|v| + 1)
    ensures 0 <= row - (|v| + 1) == x * (|v| + 1) && row <= (|u| + 1) * (|v| + 1)
    ensures CellSpec(u, v, row - 1) == 0
  {
    hide CellSpec;
    assert (x + 1) * (|v| + 1) == x * (|v| + 1) + (|v| + 1);
    CellAt(u, v, x, |v|);
  }

  /** The last row of the table compares against the empty rest of the old file. */
  lemma LastRow(u: seq<string>, v: seq<string>)
    ensures forall k :: |u| * (|v| + 1) <= k < (|u| + 1) * (|v| + 1) ==> CellSpec(u, v, k) == 0
  {
    var w := |v| + 1;
    assert (|u| + 1) * w == |u| * w + w;
    forall k | |u| * w <= k < (|u| + 1) * w ensures CellSpec(u, v, k) == 0 {
      CellAt(u, v, |u|, k - |u| * w);
    }
  }

  /** The recurrence in terms of flat positions: down, right and down-right of k. */
  lemma CellStep(u: seq<string>, v: seq<string>, x: nat, y: nat, k: nat)
    requires x < |u| && y < |v| && k == x * (|v| + 1) + y
    ensures var w := |v| + 1;
            && k + w + 1 < (|u| + 1) * w
            && CellSpec(u, v, k) <= |u| && CellSpec(u, v, k) <= |v|
            && CellSpec(u, v, k) == (if u[x] == v[y] then CellSpec(u, v, k + w + 1) + 1
                                     else Max(CellSpec(u, v, k + w), CellSpec(u, v, k + 1)))
  {
    hide CellSpec;
    var w := |v| + 1;
    assert (x + 1) * w == x * w + w;
    CellAt(u, v, x, y);
    CellAt(u, v, x, y + 1);
    CellAt(u, v, x + 1, y);
    CellAt(u, v, x + 1, y + 1);
    assert u[x..][1..] == u[x + 1..] && v[y..][1..] == v[y + 1..];
  }

  // ---------------------------------------------------------------- the diff

  /** The number of lines a diff keeps: the trimmed ones and, when the table fits, the best of the middle. */
  ghost predicate KeepsWhatItCan(lines: seq<DiffLine>, a: seq<string>, b: seq<string>) {
    var u, v := Middle(a, b), Middle(b, a);
    |SameTexts(lines)| == Trimmed(a, b) + (if TableFits(u, v) then Lcs(u, v) else 0)
  }

  /** What is taken next when i old and j new lines are behind. With a table: a match whenever there is one, else
    the old line is removed unless that would lose a match, and only then a new one is added. Without: no match,
    and all old lines before all new ones. */
  ghost predicate IsChosen(fits: bool, l: DiffLine, a: seq<string>, b: seq<string>, i: nat, j: nat) {
    match l
    case Same(_, _, _) => fits
    case Removed(_, _) =>
      fits ==> i < |a| && (j < |b| ==> a[i] != b[j] && Lcs(a[i + 1..], b[j..]) == Lcs(a[i..], b[j..]))
    case Added(_, _) =>
      i < |a| ==> fits && j < |b| && a[i] != b[j] && Lcs(a[i + 1..], b[j..]) < Lcs(a[i..], b[j..])
  }

  ghost predicate AllChosen(fits: bool, lines: seq<DiffLine>, n: nat, a: seq<string>, b: seq<string>) {
    forall k :: n <= k < |lines| ==> IsChosen(fits, lines[k], a, b, |OldLines(lines[..k])|, |NewLines(lines[..k])|)
  }

  lemma ChosenNext(fits: bool, lines: seq<DiffLine>, n: nat, a: seq<string>, b: seq<string>, i: nat, j: nat,
                   l: DiffLine)
    requires i <= |a| && j <= |b| && IsEditScript(lines, a[..i], b[..j])
    requires AllChosen(fits, lines, n, a, b) && IsChosen(fits, l, a, b, i, j)
    ensures AllChosen(fits, lines + [l], n, a, b)
  {
    ScriptReproducesBothFiles(lines, a[..i], b[..j]);
    hide IsChosen, OldLines, NewLines, IsEditScript;
    var r := lines + [l];
    assert r[..|lines|] == lines;
    assert forall k :: 0 <= k < |lines| ==> r[..k] == lines[..k];
  }

  /** The greedy walk through a filled table: it keeps as many lines as the table promises. */
  method Walk(a: seq<string>, b: seq<string>, cells: array<uint16>, start: seq<DiffLine>,
              startI: nat, startJ: nat, endA: nat, endB: nat)
    returns (lines: seq<DiffLine>, i: nat, j: nat)
    requires startI <= endA <= |a| && startJ <= endB <= |b|
    requires cells.Length == (endA - startI + 1) * (endB - startJ + 1)
    requires forall k :: 0 <= k < cells.Length ==>
               cells[k] as int == CellSpec(a[startI..endA], b[startJ..endB], k)
    requires IsEditScript(start, a[..startI], b[..startJ])
    ensures startI <= i <= endA && startJ <= j <= endB && (i == endA || j == endB)
    ensures IsEditScript(lines, a[..i], b[..j])
    ensures |SameTexts(lines)| == |SameTexts(start)| + Lcs(a[startI..endA], b[startJ..endB])
    ensures start <= lines && AllChosen(true, lines, |start|, a[..endA], b[..endB])
  {
    hide CellSpec, Lcs, SameTexts, IsEditScript, AllChosen;
    ghost var u, v := a[startI..endA], b[startJ..endB];
    ghost var front, back := a[..endA], b[..endB];
    NothingChosen(true, start, front, back);
    var width := endB - startJ + 1;
    lines, i, j := start, startI, startJ;
    while i < endA && j < endB
      invariant startI <= i <= endA && startJ <= j <= endB
      invariant IsEditScript(lines, a[..i], b[..j])
      invariant |SameTexts(lines)| + Lcs(u[i - startI..], v[j - startJ..]) == |SameTexts(start)| + Lcs(u, v)
      invariant start <= lines && AllChosen(true, lines, |start|, front, back)
      decreases endA - i + endB - j
    {
      assert front[..i] == a[..i] && back[..j] == b[..j];
      assert u[i - startI..] == front[i..] && v[j - startJ..] == back[j..];
      assert u[i - startI + 1..] == front[i + 1..] && v[j - startJ + 1..] == back[j + 1..];
      CellAt(u, v, i - startI + 1, j - startJ);
      CellAt(u, v, i - startI, j - startJ + 1);
      LcsStep(u, v, i - startI, j - startJ);
      if a[i] == b[j] {
        ChosenNext(true, lines, |start|, front, back, i, j, Same(a[i], i + 1, j + 1));
        lines := PushSame(lines, a, b, i, j);
        i, j := i + 1, j + 1;
      } else if cells[(i - startI + 1) * width + j - startJ] >= cells[(i - startI) * width + j - startJ + 1] {
        ChosenNext(true, lines, |start|, front, back, i, j, Removed(a[i], i + 1));
        lines := PushRemoved(lines, a, b, i, j);
        i := i + 1;
      } else {
        ChosenNext(true, lines, |start|, front, back, i, j, Added(b[j], j + 1));
        lines := PushAdded(lines, a, b, i, j);
        j := j + 1;
      }
    }
  }

  lemma NothingChosen(fits: bool, lines: seq<DiffLine>, a: seq<string>, b: seq<string>)
    ensures AllChosen(fits, lines, |lines|, a, b)
  {
  }

  /** The two trimming loops: keep the common prefix, set the common suffix aside. */
  method Trim(a: seq<string>, b: seq<string>) returns (lines: seq<DiffLine>, i: nat, j: nat, endA: nat, endB: nat)
    ensures i == j && i <= endA <= |a| && j <= endB <= |b|
    ensures IsEditScript(lines, a[..i], b[..j]) && |SameTexts(lines)| == i
    ensures Middle(a, b) == a[i..endA] && Middle(b, a) == b[j..endB]
    ensures a[endA..] == b[endB..] && Trimmed(a, b) == i + |a| - endA
    ensures i == CommonPrefix(a, b) && |a| - endA == CommonSuffix(a[i..], b[i..]) == |b| - endB
    ensures |lines| == i && forall k :: 0 <= k < i ==> lines[k].Same?
  {
    hide CommonPrefix, CommonSuffix, SameTexts, IsEditScript, Middle, Trimmed;
    EmptyScript(a, b);
    lines, i, j := [], 0, 0;
    while i < |a| && j < |b| && a[i] == b[j]
      invariant 0 <= i <= |a| && 0 <= j <= |b| && i == j
      invariant CommonPrefix(a, b) == i + CommonPrefix(a[i..], b[j..])
      invariant IsEditScript(lines, a[..i], b[..j]) && |SameTexts(lines)| == i
      invariant |lines| == i && forall k :: 0 <= k < i ==> lines[k].Same?
    {
      PrefixStep(a, b, i);
      lines := PushSame(lines, a, b, i, j);
      i, j := i + 1, j + 1;
    }
    PrefixStop(a, b, i);
    endA, endB := TrimEnds(a, b, i, j);
    MiddleFound(a, b, i, |a| - endA);
  }

  /** The second loop: equal lines at the ends, as long as both have lines left. */
  method TrimEnds(a: seq<string>, b: seq<string>, i: nat, j: nat) returns (endA: nat, endB: nat)
    requires i == j && i <= |a| && j <= |b|
    ensures i <= endA <= |a| && j <= endB <= |b|
    ensures |a| - endA == |b| - endB == CommonSuffix(a[i..], b[j..])
  {
    hide CommonSuffix;
    endA, endB := |a|, |b|;
    assert a[i..endA] == a[i..] && b[j..endB] == b[j..];
    while endA > i && endB > j && a[endA - 1] == b[endB - 1]
      invariant i <= endA <= |a| && j <= endB <= |b| && |a| - endA == |b| - endB
      invariant CommonSuffix(a[i..], b[j..]) == |a| - endA + CommonSuffix(a[i..endA], b[j..endB])
    {
      SuffixStep(a, b, i, endA, endB);
      endA, endB := endA - 1, endB - 1;
    }
    SuffixStop(a[i..endA], b[j..endB]);
  }

  /** The ends that were trimmed are kept, and in between every line is the chosen one. */
  ghost predicate IsCanonical(lines: seq<DiffLine>, a: seq<string>, b: seq<string>) {
    var p := CommonPrefix(a, b);
    IsCanonicalFor(TableFits(Middle(a, b), Middle(b, a)), lines, a, b, p, CommonSuffix(a[p..], b[p..]))
  }

  ghost predicate IsCanonicalFor(fits: bool, lines: seq<DiffLine>, a: seq<string>, b: seq<string>, p: nat, s: nat)
    requires s <= |a| && s <= |b|
  {
    KeepsEnds(lines, p, s) && AllChosen(fits, lines[..|lines| - s], p, a[..|a| - s], b[..|b| - s])
  }

  predicate KeepsEnds(lines: seq<DiffLine>, p: nat, s: nat) {
    && p + s <= |lines|
    && (forall k :: 0 <= k < p ==> lines[k].Same?)
    && (forall k :: |lines| - s <= k < |lines| ==> lines[k].Same?)
  }

  /** The source's buildFileDiffLines; its trimming loops, its table and its greedy walk are the methods
      above. */
  method BuildFileDiffLines(before: Option<string>, after: Option<string>) returns (lines: seq<DiffLine>)
    ensures IsEditScript(lines, FileLines(before), FileLines(after))
    ensures KeepsWhatItCan(lines, FileLines(before), FileLines(after))
    ensures IsCanonical(lines, FileLines(before), FileLines(after))
    ensures forall k :: 0 <= k < |lines| - 1 ==> !(lines[k].Added? && lines[k + 1].Removed?)
  {
    hide CellSpec, Lcs, FileLines, SameTexts, IsEditScript, Middle, Trimmed, AllChosen, CommonPrefix, CommonSuffix;
    var a, b := FileLines(before), FileLines(after);
    var i, j, endA, endB;
    lines, i, j, endA, endB := Trim(a, b);
    ghost var start := lines;
    ghost var fits := TableFits(Middle(a, b), Middle(b, a));
    NothingChosen(fits, start, a[..endA], b[..endB]);
    var width := endB - j + 1;
    if (endA - i + 1) * width <= 200_000 {
      var cells := FillTable(a, b, i, j, endA, endB);
      lines, i, j := Walk(a, b, cells, lines, i, j, endA, endB);
    }
    lines := AppendRest(a, b, lines, |start|, fits, i, j, endA, endB);
    lines := AppendSuffix(a, b, lines, endA, endB);
    NoRemovalAfterAddition(lines, a, b);
  }

  /** The last loop: the common suffix that was set aside. */
  method AppendSuffix(a: seq<string>, b: seq<string>, middle: seq<DiffLine>, endA: nat, endB: nat)
    returns (lines: seq<DiffLine>)
    requires endA <= |a| && endB <= |b| && a[endA..] == b[endB..]
    requires IsEditScript(middle, a[..endA], b[..endB])
    ensures IsEditScript(lines, a, b) && |SameTexts(lines)| == |SameTexts(middle)| + |a| - endA
    ensures |lines| == |middle| + |a| - endA && lines[..|lines| - (|a| - endA)] == middle
    ensures forall k :: |middle| <= k < |lines| ==> lines[k].Same?
  {
    hide SameTexts, IsEditScript;
    var i, j := endA, endB;
    lines := middle;
    assert |a[endA..]| == |b[endB..]|;
    while i < |a| && j < |b|
      invariant endA <= i <= |a| && endB <= j <= |b| && i - endA == j - endB
      invariant IsEditScript(lines, a[..i], b[..j]) && |SameTexts(lines)| == |SameTexts(middle)| + i - endA
      invariant middle <= lines && |lines| == |middle| + i - endA
      invariant forall k :: |middle| <= k < |lines| ==> lines[k].Same?
    {
      assert a[i] == a[endA..][i - endA] == b[endB..][j - endB] == b[j];
      lines := PushSame(lines, a, b, i, j);
      i, j := i + 1, j + 1;
    }
    assert a[..i] == a && b[..j] == b;
  }

  /** The two loops after the walk: the old lines that are left are removed, then the new ones added. */
  method AppendRest(a: seq<string>, b: seq<string>, walked: seq<DiffLine>, ghost n: nat, ghost fits: bool,
                    startI: nat, startJ: nat, endA: nat, endB: nat)
    returns (lines: seq<DiffLine>)
    requires startI <= endA <= |a| && startJ <= endB <= |b| && n <= |walked|
    requires IsEditScript(walked, a[..startI], b[..startJ]) && AllChosen(fits, walked, n, a[..endA], b[..endB])
    requires fits ==> startI == endA || startJ == endB
    ensures IsEditScript(lines, a[..endA], b[..endB]) && |SameTexts(lines)| == |SameTexts(walked)|
    ensures walked <= lines && AllChosen(fits, lines, n, a[..endA], b[..endB])
  {
    hide Lcs, SameTexts, IsEditScript, AllChosen;
    ghost var front, back := a[..endA], b[..endB];
    var i, j := startI, startJ;
    lines := walked;
    while i < endA
      invariant startI <= i <= endA
      invariant IsEditScript(lines, a[..i], b[..j]) && |SameTexts(lines)| == |SameTexts(walked)|
      invariant walked <= lines && AllChosen(fits, lines, n, front, back)
    {
      assert front[..i] == a[..i] && back[..j] == b[..j];
      ChosenNext(fits, lines, n, front, back, i, j, Removed(a[i], i + 1));
      lines := PushRemoved(lines, a, b, i, j);
      i := i + 1;
    }
    while j < endB
      invariant startJ <= j <= endB
      invariant IsEditScript(lines, a[..i], b[..j]) && |SameTexts(lines)| == |SameTexts(walked)|
      invariant walked <= lines && AllChosen(fits, lines, n, front, back)
    {
      assert front[..i] == a[..i] && back[..j] == b[..j];
      ChosenNext(fits, lines, n, front, back, i, j, Added(b[j], j + 1));
      lines := PushAdded(lines, a, b, i, j);
      j := j + 1;
    }
  }

  lemma PrefixStop(a: seq<string>, b: seq<string>, p: nat)
    requires p <= |a| && p <= |b| && CommonPrefix(a, b) == p + CommonPrefix(a[p..], b[p..])
    requires p < |a| && p < |b| ==> a[p] != b[p]
    ensures CommonPrefix(a, b) == p
  {
  }

  /** The middles and the tails in terms of the two trimmed lengths. */
  lemma MiddleFound(a: seq<string>, b: seq<string>, p: nat, s: nat)
    requires CommonPrefix(a, b) == p && CommonSuffix(a[p..], b[p..]) == s
    ensures p + s <= |a| && p + s <= |b|
    ensures Middle(a, b) == a[p..|a| - s] && Middle(b, a) == b[p..|b| - s] && Trimmed(a, b) == p + s
    ensures a[|a| - s..] == b[|b| - s..]
  {
    hide CommonSuffix, CommonPrefix, Middle, Trimmed;
    PrefixSymmetric(a, b);
    SuffixSymmetric(a[p..], b[p..]);
    MiddleIs(a, b, p, s);
    MiddleIs(b, a, p, s);
    TailsAgree(a, b, p, s);
  }

  lemma MiddleIs(a: seq<string>, b: seq<string>, p: nat, s: nat)
    requires CommonPrefix(a, b) == p && CommonSuffix(a[p..], b[p..]) == s
    ensures Middle(a, b) == a[p..|a| - s] && Trimmed(a, b) == p + s
  {
  }

  lemma TailsAgree(a: seq<string>, b: seq<string>, p: nat, s: nat)
    requires p + s <= |a| && p + s <= |b| && s == CommonSuffix(a[p..], b[p..])
    ensures a[|a| - s..] == b[|b| - s..]
  {
    hide CommonSuffix;
    CommonSuffixAgrees(a[p..], b[p..]);
    assert a[p..][|a| - p - s..] == a[|a| - s..];
    assert b[p..][|b| - p - s..] == b[|b| - s..];
  }

  lemma SuffixStop(x: seq<string>, y: seq<string>)
    requires x != [] && y != [] ==> x[|x| - 1] != y[|y| - 1]
    ensures CommonSuffix(x, y) == 0
  {
  }

  lemma EmptyScript(a: seq<string>, b: seq<string>)
    ensures IsEditScript([], a[..0], b[..0]) && SameTexts([]) == []
  {
    assert a[..0] == [] && b[..0] == [];
  }

  function PushSame(lines: seq<DiffLine>, a: seq<string>, b: seq<string>, i: nat, j: nat): (r: seq<DiffLine>)
    requires i < |a| && j < |b| && a[i] == b[j]
    ensures IsEditScript(lines, a[..i], b[..j]) ==> IsEditScript(r, a[..i + 1], b[..j + 1])
    ensures |SameTexts(r)| == |SameTexts(lines)| + 1
  {
    assert (lines + [Same(a[i], i + 1, j + 1)])[..|lines|] == lines;
    assert a[..i + 1][..i] == a[..i] && b[..j + 1][..j] == b[..j];
    lines + [Same(a[i], i + 1, j + 1)]
  }

  function PushRemoved(lines: seq<DiffLine>, a: seq<string>, b: seq<string>, i: nat, j: nat): (r: seq<DiffLine>)
    requires i < |a| && j <= |b|
    ensures IsEditScript(lines, a[..i], b[..j]) ==> IsEditScript(r, a[..i + 1], b[..j])
    ensures |SameTexts(r)| == |SameTexts(lines)|
  {
    assert (lines + [Removed(a[i], i + 1)])[..|lines|] == lines;
    assert a[..i + 1][..i] == a[..i];
    lines + [Removed(a[i], i + 1)]
  }

  function PushAdded(lines: seq<DiffLine>, a: seq<string>, b: seq<string>, i: nat, j: nat): (r: seq<DiffLine>)
    requires i <= |a| && j < |b|
    ensures IsEditScript(lines, a[..i], b[..j]) ==> IsEditScript(r, a[..i], b[..j + 1])
    ensures |SameTexts(r)| == |SameTexts(lines)|
  {
    assert (lines + [Added(b[j], j + 1)])[..|lines|] == lines;
    assert b[..j + 1][..j] == b[..j];
    lines + [Added(b[j], j + 1)]
  }

  lemma PrefixStep(a: seq<string>, b: seq<string>, i: nat)
    requires i < |a| && i < |b| && a[i] == b[i]
    ensures CommonPrefix(a[i..], b[i..]) == 1 + CommonPrefix(a[i + 1..], b[i + 1..])
  {
    assert a[i..][1..] == a[i + 1..] && b[i..][1..] == b[i + 1..];
  }

  lemma SuffixStep(a: seq<string>, b: seq<string>, p: nat, m: nat, n: nat)
    requires p < m <= |a| && p < n <= |b| && a[m - 1] == b[n - 1]
    ensures CommonSuffix(a[p..m], b[p..n]) == 1 + CommonSuffix(a[p..m - 1], b[p..n - 1])
  {
    assert a[p..m][..m - p - 1] == a[p..m - 1] && b[p..n][..n - p - 1] == b[p..n - 1];
  }

  lemma LcsStep(u: seq<string>, v: seq<string>, x: nat, y: nat)
    requires x < |u| && y < |v|
    ensures Lcs(u[x..], v[y..]) == if u[x] == v[y] then 1 + Lcs(u[x + 1..], v[y + 1..])
                                   else Max(Lcs(u[x + 1..], v[y..]), Lcs(u[x..], v[y + 1..]))
  {
    assert u[x..][1..] == u[x + 1..] && v[y..][1..] == v[y + 1..];
  }

  // ---------------------------------------------------------------- how good the diff is

  /** The two promises about BuildFileDiffLines, in terms of what it ensures: whenever the table fits the
      kept lines are a longest common subsequence of the two whole files, and otherwise exactly when the
      untrimmed middles share no line at all. */
  /** Exactly when the kept lines are a longest common subsequence of the whole files. */
  lemma KeepsLongestIff(lines: seq<DiffLine>, a: seq<string>, b: seq<string>)
    requires IsEditScript(lines, a, b)
    requires KeepsWhatItCan(lines, a, b)
    ensures IsLongestCommon(SameTexts(lines), a, b) <==>
            (|Middle(a, b)| + 1) * (|Middle(b, a)| + 1) <= 200_000
            || forall t :: t in Middle(a, b) ==> t !in Middle(b, a)
  {
    hide *;
    KeepsLongestIfFits(lines, a, b);
    TableFitsIff(Middle(a, b), Middle(b, a));
  }

  lemma TableFitsIff(u: seq<string>, v: seq<string>)
    ensures TableFits(u, v) <==> (|u| + 1) * (|v| + 1) <= 200_000
  {
  }

  lemma KeepsLongestIfFits(lines: seq<DiffLine>, a: seq<string>, b: seq<string>)
    requires IsEditScript(lines, a, b)
    requires KeepsWhatItCan(lines, a, b)
    ensures IsLongestCommon(SameTexts(lines), a, b) <==>
            TableFits(Middle(a, b), Middle(b, a)) || forall t :: t in Middle(a, b) ==> t !in Middle(b, a)
  {
    hide CommonPrefix, CommonSuffix, Lcs, IsSubseq, IsEditScript, SameTexts, Middle, Trimmed, TableFits;
    var u, v := Middle(a, b), Middle(b, a);
    var pre, suf := MiddleDecomposes(a, b);
    KeptLinesAreCommon(lines, a, b);
    forall d | IsCommon(d, a, b) ensures |d| <= Trimmed(a, b) + Lcs(u, v) {
      TrimmedBound(d, pre, u, v, suf);
    }
    var c := LcsIsReached(u, v);
    CommonExtends(c, pre, u, v, suf);
    assert IsCommon(pre + c + suf, a, b);
    NothingSharedIff(u, v);
  }

  lemma {:induction false} NothingSharedIff(u: seq<string>, v: seq<string>)
    ensures Lcs(u, v) == 0 <==> forall t :: t in u ==> t !in v
  {
    if Lcs(u, v) == 0 {
      forall t | t in u ensures t !in v {
        if t in v {
          SingletonSubseq(t, u);
          SingletonSubseq(t, v);
          LcsIsUpperBound([t], u, v);
        }
      }
    } else {
      var c := LcsIsReached(u, v);
      SubseqMember(c, u);
      SubseqMember(c, v);
    }
  }

  lemma {:induction false} SingletonSubseq(t: string, a: seq<string>)
    requires t in a
    ensures IsSubseq([t], a)
  {
    if a[0] != t {
      SingletonSubseq(t, a[1..]);
    }
  }

  lemma {:induction false} SubseqMember(c: seq<string>, a: seq<string>)
    requires c != [] && IsSubseq(c, a)
    ensures c[0] in a
    decreases |a|
  {
    if c[0] != a[0] {
      SubseqMember(c, a[1..]);
    }
  }

  lemma {:induction false} CommonExtends(c: seq<string>, pre: seq<string>, u: seq<string>, v: seq<string>,
                                         suf: seq<string>)
    requires IsCommon(c, u, v)
    ensures IsCommon(pre + c + suf, pre + u + suf, pre + v + suf)
  {
    SubseqExtends(c, pre, u, suf);
    SubseqExtends(c, pre, v, suf);
  }

  lemma {:induction false} SubseqExtends(c: seq<string>, pre: seq<string>, u: seq<string>, suf: seq<string>)
    requires IsSubseq(c, u)
    ensures IsSubseq(pre + c + suf, pre + u + suf)
    decreases |pre| + |suf|
  {
    if pre != [] {
      SubseqExtends(c, pre[1..], u, suf);
      assert (pre + c + suf)[1..] == pre[1..] + c + suf && (pre + u + suf)[1..] == pre[1..] + u + suf;
    } else if suf != [] {
      var rest, e := suf[..|suf| - 1], suf[|suf| - 1];
      SubseqExtends(c, [], u, rest);
      SubseqSnoc([] + c + rest, [] + u + rest, e);
      assert [] + c + rest + [e] == pre + c + suf && [] + u + rest + [e] == pre + u + suf;
    } else {
      assert pre + c + suf == c && pre + u + suf == u;
    }
  }

  // ---------------------------------------------------------------- which of the best diffs

  lemma LcsShrinks(u: seq<string>, v: seq<string>)
    ensures u != [] ==> Lcs(u[1..], v) <= Lcs(u, v)
    ensures v != [] ==> Lcs(u, v[1..]) <= Lcs(u, v)
  {
    hide Lcs;
    if u != [] {
      var c := LcsIsReached(u[1..], v);
      assert IsSubseq(c, u);
      LcsIsUpperBound(c, u, v);
    }
    if v != [] {
      var c := LcsIsReached(u, v[1..]);
      assert IsSubseq(c, v);
      LcsIsUpperBound(c, u, v);
    }
  }

  function OldSeen(lines: seq<DiffLine>, k: nat): nat
    requires k <= |lines|
  {
    |OldLines(lines[..k])|
  }

  function NewSeen(lines: seq<DiffLine>, k: nat): nat
    requires k <= |lines|
  {
    |NewLines(lines[..k])|
  }

  function Kept(lines: seq<DiffLine>, k: nat): nat
    requires k <= |lines|
  {
    |SameTexts(lines[..k])|
  }

  lemma CountsOfNext(lines: seq<DiffLine>, k: nat)
    requires k < |lines|
    ensures OldSeen(lines, k + 1) == OldSeen(lines, k) + (if lines[k].Added? then 0 else 1)
    ensures NewSeen(lines, k + 1) == NewSeen(lines, k) + (if lines[k].Removed? then 0 else 1)
    ensures Kept(lines, k + 1) == Kept(lines, k) + (if lines[k].Same? then 1 else 0)
  {
    assert lines[..k + 1][..k] == lines[..k];
  }

  lemma LastLine(lines: seq<DiffLine>, a: seq<string>, b: seq<string>)
    requires lines != [] && IsEditScript(lines, a, b)
    ensures var l := lines[|lines| - 1];
            && (!l.Added? ==> a != []) && (!l.Removed? ==> b != [])
            && IsEditScript(lines[..|lines| - 1], if l.Added? then a else a[..|a| - 1],
                            if l.Removed? then b else b[..|b| - 1])
            && |SameTexts(lines)| == |SameTexts(lines[..|lines| - 1])| + (if l.Same? then 1 else 0)
  {
  }

  /** Every beginning of an edit script is one, of the beginnings of the files. */
  lemma {:induction false} BeginningIsScript(lines: seq<DiffLine>, a: seq<string>, b: seq<string>, k: nat)
    requires IsEditScript(lines, a, b) && k <= |lines|
    ensures OldSeen(lines, k) <= |a| && NewSeen(lines, k) <= |b|
    ensures IsEditScript(lines[..k], a[..OldSeen(lines, k)], b[..NewSeen(lines, k)])
    decreases |lines|
  {
    hide IsEditScript, OldLines, NewLines;
    if k == |lines| {
      ScriptReproducesBothFiles(lines, a, b);
      assert lines[..k] == lines && a[..|a|] == a && b[..|b|] == b;
    } else {
      LastLine(lines, a, b);
      var n, l := |lines| - 1, lines[|lines| - 1];
      var rest := lines[..n];
      var a' := if l.Added? then a else a[..|a| - 1];
      var b' := if l.Removed? then b else b[..|b| - 1];
      BeginningIsScript(rest, a', b', k);
      assert rest[..k] == lines[..k];
      assert a'[..OldSeen(lines, k)] == a[..OldSeen(lines, k)] && b'[..NewSeen(lines, k)] == b[..NewSeen(lines, k)];
    }
  }

  /** What the next line can be is settled by what is behind, but for its kind. */
  predicate Fits(l: DiffLine, a: seq<string>, b: seq<string>, i: nat, j: nat) {
    match l
    case Same(t, n, m) => i < |a| && j < |b| && a[i] == b[j] == t && n == i + 1 && m == j + 1
    case Removed(t, n) => i < |a| && t == a[i] && n == i + 1
    case Added(t, m) => j < |b| && t == b[j] && m == j + 1
  }

  lemma NextFits(lines: seq<DiffLine>, a: seq<string>, b: seq<string>, k: nat)
    requires IsEditScript(lines, a, b) && k < |lines|
    ensures Fits(lines[k], a, b, OldSeen(lines, k), NewSeen(lines, k))
  {
    BeginningIsScript(lines, a, b, k + 1);
    CountsOfNext(lines, k);
    var front := lines[..k + 1];
    assert front[|front| - 1] == lines[k];
    hide OldSeen, NewSeen, OldLines, NewLines;
  }

  /** No continuation keeps more lines than the rest of the files have in common. */
  lemma {:induction false} RestIsBounded(lines: seq<DiffLine>, a: seq<string>, b: seq<string>, k: nat)
    requires IsEditScript(lines, a, b) && k <= |lines|
    ensures OldSeen(lines, k) <= |a| && NewSeen(lines, k) <= |b|
    ensures |SameTexts(lines)| <= Kept(lines, k) + Lcs(a[OldSeen(lines, k)..], b[NewSeen(lines, k)..])
    decreases |lines| - k
  {
    hide *;
    BeginningIsScript(lines, a, b, k);
    AllSeen(lines);
    if k < |lines| {
      RestIsBounded(lines, a, b, k + 1);
      CountsOfNext(lines, k);
      NextFits(lines, a, b, k);
      StepLoses(lines[k], a, b, OldSeen(lines, k), NewSeen(lines, k));
    }
  }

  lemma AllSeen(lines: seq<DiffLine>)
    ensures Kept(lines, |lines|) == |SameTexts(lines)|
    ensures OldSeen(lines, |lines|) == |OldLines(lines)| && NewSeen(lines, |lines|) == |NewLines(lines)|
  {
    assert lines[..|lines|] == lines;
  }

  lemma StepLoses(l: DiffLine, a: seq<string>, b: seq<string>, i: nat, j: nat)
    requires i <= |a| && j <= |b| && Fits(l, a, b, i, j)
    ensures l.Same? ==> Lcs(a[i..], b[j..]) == 1 + Lcs(a[i + 1..], b[j + 1..])
    ensures l.Removed? ==> Lcs(a[i + 1..], b[j..]) <= Lcs(a[i..], b[j..])
    ensures l.Added? ==> Lcs(a[i..], b[j + 1..]) <= Lcs(a[i..], b[j..])
  {
    if l.Same? {
      LcsStep(a, b, i, j);
    }
    LcsShrinks(a[i..], b[j..]);
    if i < |a| {
      assert a[i..][1..] == a[i + 1..];
    }
    if j < |b| {
      assert b[j..][1..] == b[j + 1..];
    }
    hide Lcs;
  }

  /** A match comes first, then a removal, then an addition. */
  function Rank(l: DiffLine): nat {
    if l.Same? then 0 else if l.Removed? then 1 else 2
  }

  /** The first difference is a line of lower rank. */
  ghost predicate ComesFirst(lines: seq<DiffLine>, other: seq<DiffLine>) {
    lines == other
    || exists k :: 0 <= k < |lines| && k < |other| && lines[..k] == other[..k] && Rank(lines[k]) < Rank(other[k])
  }

  /** What the script keeps after its first k lines is the most there is to keep, or nothing. */
  ghost predicate KeepsMost(fits: bool, lines: seq<DiffLine>, a: seq<string>, b: seq<string>, k: nat)
    requires k <= |lines|
  {
    var i, j := OldSeen(lines, k), NewSeen(lines, k);
    i <= |a| && j <= |b|
    && |SameTexts(lines)| == Kept(lines, k) + if fits then Lcs(a[i..], b[j..]) else 0
  }

  lemma SeenTogether(lines: seq<DiffLine>, other: seq<DiffLine>, k: nat)
    requires k <= |lines| && k <= |other| && lines[..k] == other[..k]
    ensures OldSeen(lines, k) == OldSeen(other, k) && NewSeen(lines, k) == NewSeen(other, k)
            && Kept(lines, k) == Kept(other, k)
  {
  }

  lemma EndIsReached(lines: seq<DiffLine>, a: seq<string>, b: seq<string>)
    requires IsEditScript(lines, a, b)
    ensures OldSeen(lines, |lines|) == |a| && NewSeen(lines, |lines|) == |b|
  {
    AllSeen(lines);
    ScriptReproducesBothFiles(lines, a, b);
    hide IsEditScript;
  }

  lemma LineFits(l: DiffLine, m: DiffLine, a: seq<string>, b: seq<string>, i: nat, j: nat)
    requires Fits(l, a, b, i, j) && Fits(m, a, b, i, j) && Rank(l) == Rank(m)
    ensures l == m
  {
  }

  /** Of two lines that fit, the chosen one ranks lower or is the other one, unless the other loses a match. */
  lemma ChosenRanks(fits: bool, l: DiffLine, m: DiffLine, a: seq<string>, b: seq<string>, i: nat, j: nat)
    requires Fits(l, a, b, i, j) && Fits(m, a, b, i, j) && IsChosen(fits, l, a, b, i, j) && Rank(m) < Rank(l)
    ensures m.Same? ==> !fits
    ensures m.Removed? ==> fits && Lcs(a[i + 1..], b[j..]) < Lcs(a[i..], b[j..])
  {
    hide Lcs;
  }

  lemma SameEnd(lines: seq<DiffLine>, other: seq<DiffLine>, n: nat, a: seq<string>, b: seq<string>)
    requires IsEditScript(lines, a, b) && IsEditScript(other, a, b)
    requires n <= |lines| && n <= |other| && lines[..n] == other[..n] && (n == |lines| || n == |other|)
    ensures lines == other
  {
    hide IsEditScript, OldSeen, NewSeen;
    SeenTogether(lines, other, n);
    EndIsReached(lines, a, b);
    EndIsReached(other, a, b);
    if n < |other| {
      NextFits(other, a, b, n);
      assert false;
    } else if n < |lines| {
      NextFits(lines, a, b, n);
      assert false;
    }
    assert lines[..n] == lines && other[..n] == other;
  }

  lemma ChosenAt(fits: bool, lines: seq<DiffLine>, n: nat, a: seq<string>, b: seq<string>)
    requires n < |lines| && AllChosen(fits, lines, n, a, b)
    ensures IsChosen(fits, lines[n], a, b, OldSeen(lines, n), NewSeen(lines, n))
    ensures AllChosen(fits, lines, n + 1, a, b)
  {
  }

  lemma FirstByRank(lines: seq<DiffLine>, other: seq<DiffLine>, n: nat)
    requires n < |lines| && n < |other| && lines[..n] == other[..n]
    ensures Rank(lines[n]) < Rank(other[n]) ==> ComesFirst(lines, other)
    ensures lines[n] == other[n] ==> lines[..n + 1] == other[..n + 1]
  {
    if lines[n] == other[n] {
      assert lines[..n + 1] == lines[..n] + [lines[n]] && other[..n + 1] == other[..n] + [other[n]];
    }
  }

  lemma {:induction false} KeptGrows(lines: seq<DiffLine>, k: nat)
    requires k <= |lines|
    ensures Kept(lines, k) <= |SameTexts(lines)|
    decreases |lines| - k
  {
    hide Kept;
    AllSeen(lines);
    if k < |lines| {
      CountsOfNext(lines, k);
      KeptGrows(lines, k + 1);
    }
  }

  /** A line that loses a match cannot be made up for. */
  lemma RankedLoses(fits: bool, lines: seq<DiffLine>, other: seq<DiffLine>, n: nat, a: seq<string>, b: seq<string>)
    requires IsEditScript(other, a, b) && |SameTexts(other)| == |SameTexts(lines)|
    requires n < |lines| && n < |other| && lines[..n] == other[..n] && KeepsMost(fits, lines, a, b, n)
    requires Fits(other[n], a, b, OldSeen(lines, n), NewSeen(lines, n))
    ensures other[n].Same? ==> fits
    ensures var i, j := OldSeen(lines, n), NewSeen(lines, n);
            other[n].Removed? && fits ==> Lcs(a[i + 1..], b[j..]) >= Lcs(a[i..], b[j..])
  {
    hide IsEditScript, OldSeen, NewSeen, Kept, Lcs;
    SeenTogether(lines, other, n);
    CountsOfNext(other, n);
    RestIsBounded(other, a, b, n + 1);
    KeptGrows(other, n + 1);
  }

  lemma KeepsMostNext(fits: bool, lines: seq<DiffLine>, a: seq<string>, b: seq<string>, n: nat)
    requires IsEditScript(lines, a, b) && n < |lines| && KeepsMost(fits, lines, a, b, n)
    requires lines[n].Same? ==> fits
    ensures KeepsMost(fits, lines, a, b, n + 1)
  {
    hide IsEditScript, OldSeen, NewSeen, Kept, Lcs;
    CountsOfNext(lines, n);
    RestIsBounded(lines, a, b, n + 1);
    NextFits(lines, a, b, n);
    StepLoses(lines[n], a, b, OldSeen(lines, n), NewSeen(lines, n));
  }

  lemma {:induction false} ChosenComesFirst(fits: bool, lines: seq<DiffLine>, other: seq<DiffLine>, n: nat,
                                            a: seq<string>, b: seq<string>)
    requires IsEditScript(lines, a, b) && IsEditScript(other, a, b) && |SameTexts(other)| == |SameTexts(lines)|
    requires n <= |lines| && n <= |other| && lines[..n] == other[..n]
    requires AllChosen(fits, lines, n, a, b) && KeepsMost(fits, lines, a, b, n)
    ensures ComesFirst(lines, other)
    decreases |lines| - n
  {
    hide *;
    SeenTogether(lines, other, n);
    if n == |lines| || n == |other| {
      SameEnd(lines, other, n, a, b);
      SameIsFirst(lines);
    } else {
      BeginningIsScript(lines, a, b, n);
      NextFits(lines, a, b, n);
      NextFits(other, a, b, n);
      ChosenAt(fits, lines, n, a, b);
      FirstByRank(lines, other, n);
      var i, j := OldSeen(lines, n), NewSeen(lines, n);
      if Rank(other[n]) < Rank(lines[n]) {
        ChosenRanks(fits, lines[n], other[n], a, b, i, j);
        RankedLoses(fits, lines, other, n, a, b);
        LowerIsNoAddition(other[n], lines[n]);
        assert false;
      } else if Rank(lines[n]) == Rank(other[n]) {
        LineFits(lines[n], other[n], a, b, i, j);
        MatchNeedsTable(fits, lines[n], a, b, i, j);
        KeepsMostNext(fits, lines, a, b, n);
        ChosenComesFirst(fits, lines, other, n + 1, a, b);
      }
    }
  }

  lemma SameIsFirst(lines: seq<DiffLine>)
    ensures ComesFirst(lines, lines)
  {
  }

  lemma LowerIsNoAddition(l: DiffLine, m: DiffLine)
    requires Rank(l) < Rank(m)
    ensures l.Same? || l.Removed?
  {
  }

  lemma MatchNeedsTable(fits: bool, l: DiffLine, a: seq<string>, b: seq<string>, i: nat, j: nat)
    requires i <= |a| && j <= |b| && IsChosen(fits, l, a, b, i, j)
    ensures l.Same? ==> fits
  {
  }

  lemma {:induction false} MatchesAgree(lines: seq<DiffLine>, other: seq<DiffLine>, n: nat, m: nat, a: seq<string>,
                                        b: seq<string>)
    requires IsEditScript(lines, a, b) && IsEditScript(other, a, b)
    requires n <= m <= |lines| && m <= |other| && lines[..n] == other[..n]
    requires forall k :: n <= k < m ==> lines[k].Same? && other[k].Same?
    ensures lines[..m] == other[..m]
    ensures Kept(lines, m) == Kept(lines, n) + m - n
    ensures OldSeen(lines, m) == OldSeen(lines, n) + m - n && NewSeen(lines, m) == NewSeen(lines, n) + m - n
    decreases m
  {
    hide IsEditScript, OldSeen, NewSeen, Kept;
    if n < m {
      MatchesAgree(lines, other, n, m - 1, a, b);
      CountsOfNext(lines, m - 1);
      NextFits(lines, a, b, m - 1);
      NextFits(other, a, b, m - 1);
      SeenTogether(lines, other, m - 1);
      FirstByRank(lines, other, m - 1);
    }
  }

  /** Taking a common suffix off a script leaves one. */
  lemma {:induction false} FrontIsScript(lines: seq<DiffLine>, a: seq<string>, b: seq<string>, s: nat)
    requires IsEditScript(lines, a, b) && s <= |lines|
    requires forall k :: |lines| - s <= k < |lines| ==> lines[k].Same?
    ensures s <= |a| && s <= |b| && IsEditScript(lines[..|lines| - s], a[..|a| - s], b[..|b| - s])
    ensures |SameTexts(lines)| == |SameTexts(lines[..|lines| - s])| + s
    decreases s
  {
    hide IsEditScript, SameTexts;
    if s == 0 {
      assert lines[..|lines|] == lines && a[..|a|] == a && b[..|b|] == b;
    } else {
      LastLine(lines, a, b);
      var rest := lines[..|lines| - 1];
      FrontIsScript(rest, a[..|a| - 1], b[..|b| - 1], s - 1);
      assert rest[..|rest| - (s - 1)] == lines[..|lines| - s];
      assert a[..|a| - 1][..|a| - s] == a[..|a| - s] && b[..|b| - 1][..|b| - s] == b[..|b| - s];
    }
  }

  /** Among all edit scripts that keep the trimmed ends and as many lines, the diff is the first: where it first
      differs from another, it matches, or removes where the other adds. So it is the only one of its kind. */
  lemma DiffIsFirstOfBest(lines: seq<DiffLine>, other: seq<DiffLine>, a: seq<string>, b: seq<string>)
    requires IsEditScript(lines, a, b) && KeepsWhatItCan(lines, a, b) && IsCanonical(lines, a, b)
    requires IsEditScript(other, a, b) && |SameTexts(other)| == |SameTexts(lines)|
    requires KeepsEnds(other, CommonPrefix(a, b), Trimmed(a, b) - CommonPrefix(a, b))
    ensures ComesFirst(lines, other)
  {
    hide *;
    var p, s, front, back := Ends(a, b);
    var fits := TableFits(Middle(a, b), Middle(b, a));
    CanonicalMeans(lines, a, b, p, s);
    CanonicalForMeans(fits, lines, a, b, p, s);
    KeptMeans(lines, a, b);
    KeepsEndsMeans(lines, p, s);
    KeepsEndsMeans(other, p, s);
    FrontIsScript(lines, a, b, s);
    FrontIsScript(other, a, b, s);
    var l, o := lines[..|lines| - s], other[..|other| - s];
    assert l[..0] == o[..0];
    MatchesAgree(l, o, 0, p, front, back);
    NothingSeen(l);
    MostIsKept(fits, l, front, back, p);
    ChosenComesFirst(fits, l, o, p, front, back);
    FirstOfFronts(lines, other, s, a, b);
  }

  lemma Ends(a: seq<string>, b: seq<string>) returns (p: nat, s: nat, front: seq<string>, back: seq<string>)
    ensures p == CommonPrefix(a, b) && p + s == Trimmed(a, b) && p + s <= |a| && p + s <= |b|
    ensures s == CommonSuffix(a[p..], b[p..]) && front == a[..|a| - s] && back == b[..|b| - s]
    ensures front[p..] == Middle(a, b) && back[p..] == Middle(b, a)
  {
    p := CommonPrefix(a, b);
    s := CommonSuffix(a[p..], b[p..]);
    MiddleFound(a, b, p, s);
    hide CommonPrefix, CommonSuffix, Middle;
    front, back := a[..|a| - s], b[..|b| - s];
  }

  lemma CanonicalMeans(lines: seq<DiffLine>, a: seq<string>, b: seq<string>, p: nat, s: nat)
    requires IsCanonical(lines, a, b)
    requires p == CommonPrefix(a, b) && s == CommonSuffix(a[p..], b[p..])
    ensures IsCanonicalFor(TableFits(Middle(a, b), Middle(b, a)), lines, a, b, p, s)
  {
    hide CommonPrefix, CommonSuffix, IsCanonicalFor, TableFits, Middle;
  }

  lemma CanonicalForMeans(fits: bool, lines: seq<DiffLine>, a: seq<string>, b: seq<string>, p: nat, s: nat)
    requires s <= |a| && s <= |b| && IsCanonicalFor(fits, lines, a, b, p, s)
    ensures KeepsEnds(lines, p, s)
    ensures p + s <= |lines| && AllChosen(fits, lines[..|lines| - s], p, a[..|a| - s], b[..|b| - s])
  {
  }

  lemma KeptMeans(lines: seq<DiffLine>, a: seq<string>, b: seq<string>)
    requires KeepsWhatItCan(lines, a, b)
    ensures |SameTexts(lines)|
            == Trimmed(a, b) + if TableFits(Middle(a, b), Middle(b, a)) then Lcs(Middle(a, b), Middle(b, a)) else 0
  {
    hide Trimmed, Middle, TableFits, Lcs, SameTexts;
  }

  lemma KeepsEndsMeans(lines: seq<DiffLine>, p: nat, s: nat)
    requires KeepsEnds(lines, p, s)
    ensures p + s <= |lines| && forall k :: 0 <= k < p || |lines| - s <= k < |lines| ==> lines[k].Same?
  {
  }

  lemma MostIsKept(fits: bool, lines: seq<DiffLine>, a: seq<string>, b: seq<string>, p: nat)
    requires p <= |lines| && p <= |a| && p <= |b|
    requires OldSeen(lines, p) == NewSeen(lines, p) == Kept(lines, p) == p
    requires |SameTexts(lines)| == p + if fits then Lcs(a[p..], b[p..]) else 0
    ensures KeepsMost(fits, lines, a, b, p)
  {
  }

  lemma NothingSeen(lines: seq<DiffLine>)
    ensures OldSeen(lines, 0) == 0 && NewSeen(lines, 0) == 0 && Kept(lines, 0) == 0
  {
  }

  lemma FirstOfFronts(lines: seq<DiffLine>, other: seq<DiffLine>, s: nat, a: seq<string>, b: seq<string>)
    requires IsEditScript(lines, a, b) && IsEditScript(other, a, b) && s <= |lines| && s <= |other|
    requires forall k :: |lines| - s <= k < |lines| ==> lines[k].Same?
    requires forall k :: |other| - s <= k < |other| ==> other[k].Same?
    requires ComesFirst(lines[..|lines| - s], other[..|other| - s])
    ensures ComesFirst(lines, other)
  {
    hide IsEditScript;
    var l, o := lines[..|lines| - s], other[..|other| - s];
    if l == o {
      MatchesAgree(lines, other, |l|, |lines|, a, b);
      assert lines[..|lines|] == lines && other[..|lines|] == other;
    } else {
      var k :| 0 <= k < |l| && k < |o| && l[..k] == o[..k] && Rank(l[k]) < Rank(o[k]);
      assert lines[..k] == l[..k] && other[..k] == o[..k];
    }
  }

  /** In particular no added line comes directly before a removed one. */
  lemma RemovalsComeFirst(lines: seq<DiffLine>, a: seq<string>, b: seq<string>, k: nat)
    requires IsEditScript(lines, a, b) && IsCanonical(lines, a, b) && k + 1 < |lines|
    ensures !(lines[k].Added? && lines[k + 1].Removed?)
  {
    hide IsEditScript, OldSeen, NewSeen, SameTexts, Lcs, AllChosen, CommonPrefix, CommonSuffix, IsChosen;
    var p := CommonPrefix(a, b);
    var s := CommonSuffix(a[p..], b[p..]);
    var fits := TableFits(Middle(a, b), Middle(b, a));
    FrontIsScript(lines, a, b, s);
    var l := lines[..|lines| - s];
    if lines[k].Added? && lines[k + 1].Removed? {
      assert p <= k && k + 1 < |l|;
      RemovalFirst(fits, l, p, a[..|a| - s], b[..|b| - s], k);
    }
  }

  lemma NoRemovalAfterAddition(lines: seq<DiffLine>, a: seq<string>, b: seq<string>)
    requires IsEditScript(lines, a, b)
    ensures IsCanonical(lines, a, b) ==>
              forall k :: 0 <= k < |lines| - 1 ==> !(lines[k].Added? && lines[k + 1].Removed?)
  {
    hide *;
    if IsCanonical(lines, a, b) {
      forall k | 0 <= k < |lines| - 1 ensures !(lines[k].Added? && lines[k + 1].Removed?) {
        RemovalsComeFirst(lines, a, b, k);
      }
    }
  }

  lemma RemovalFirst(fits: bool, lines: seq<DiffLine>, n: nat, a: seq<string>, b: seq<string>, k: nat)
    requires IsEditScript(lines, a, b) && AllChosen(fits, lines, n, a, b) && n <= k && k + 1 < |lines|
    ensures !(lines[k].Added? && lines[k + 1].Removed?)
  {
    hide IsEditScript, OldSeen, NewSeen, Lcs;
    if lines[k].Added? && lines[k + 1].Removed? {
      CountsOfNext(lines, k);
      NextFits(lines, a, b, k);
      NextFits(lines, a, b, k + 1);
      ChosenOf(fits, lines, n, a, b, k);
      RemovalLoses(a, b, OldSeen(lines, k), NewSeen(lines, k));
      ChosenOf(fits, lines, n, a, b, k + 1);
      assert false;
    }
  }

  /** Where removing loses a match it still does after an addition, and there is something left to match. */
  lemma RemovalLoses(a: seq<string>, b: seq<string>, i: nat, j: nat)
    requires i < |a| && j < |b| && a[i] != b[j] && Lcs(a[i + 1..], b[j..]) < Lcs(a[i..], b[j..])
    ensures j + 1 < |b| && Lcs(a[i + 1..], b[j + 1..]) < Lcs(a[i..], b[j + 1..])
  {
    LcsStep(a, b, i, j);
    LcsShrinks(a[i + 1..], b[j..]);
    assert b[j..][1..] == b[j + 1..];
    EmptyRest(a, b, i);
    hide Lcs;
  }

  lemma ChosenOf(fits: bool, lines: seq<DiffLine>, n: nat, a: seq<string>, b: seq<string>, k: nat)
    requires n <= k < |lines| && AllChosen(fits, lines, n, a, b)
    ensures IsChosen(fits, lines[k], a, b, OldSeen(lines, k), NewSeen(lines, k))
  {
  }

  lemma EmptyRest(a: seq<string>, b: seq<string>, i: nat)
    requires i <= |a|
    ensures Lcs(a[i..], b[|b|..]) == 0
  {
  }

  /** The diff shows both contents: gluing the old side together with line breaks gives back the old
      content, and likewise the new one. Only null and the empty content look the same. */
  lemma DiffShowsBothContents(lines: seq<DiffLine>, before: Option<string>, after: Option<string>)
    requires IsEditScript(lines, FileLines(before), FileLines(after))
    ensures Join(Texts(OldLines(lines)), '\n') == before.GetOr("")
    ensures Join(Texts(NewLines(lines)), '\n') == after.GetOr("")
  {
    ScriptReproducesBothFiles(lines, FileLines(before), FileLines(after));
    TextsOfNumbered(FileLines(before));
    TextsOfNumbered(FileLines(after));
    JoinOfSplit(before.GetOr(""), '\n');
    JoinOfSplit(after.GetOr(""), '\n');
  }

  function Texts(side: seq<(nat, string)>): seq<string> {
    seq(|side|, k requires 0 <= k < |side| => side[k].1)
  }

  lemma TextsOfNumbered(a: seq<string>)
    ensures Texts(Numbered(a)) == a
  {
  }
}
