/** Printing one report row, line 91 of scripts/storage.py. */
module RowFormat {
  import opened Base
  import opened Text
  import opened Reconcile

  /** Width of the size column: `rjust(18)`. */
  const SizeWidth: nat := 18

  /**
   * One printed line: the colour code, the size with thousands separators right-justified to
   * 18 characters, a space, the marker, a space, the name and the closing code.
   */
  function FormatRow(row: Row): string
  {
    row.colour + RightJustify(GroupThousands(row.size), SizeWidth) + " " + row.marker + " " + row.name + row.reset
  }

  lemma {:induction false} ShowDecimalLength(n: nat, d: nat)
    requires d >= 1 && n < Pow10(d)
    ensures |ShowDecimal(n)| <= d
  {
    if n >= 10 {
      assert d >= 2;
      ShowDecimalLength(n / 10, d - 1);
    }
  }

  /** A number below 10^d prints, with separators, in at most d + (d - 1) / 3 characters. */
  lemma {:induction false} GroupThousandsLength(n: nat, d: nat)
    requires d >= 1 && n < Pow10(d)
    ensures |GroupThousands(n)| <= d + (d - 1) / 3
  {
    if n < 1000 {
      ShowDecimalLength(n, d);
    } else {
      assert d >= 4 by {
        if d < 4 {
          assert Pow10(3) == 1000;
          Pow10Monotone(d, 3);
        }
      }
      assert Pow10(d) == 10 * Pow10(d - 1) == 100 * Pow10(d - 2) == 1000 * Pow10(d - 3);
      assert n / 1000 < Pow10(d - 3);
      GroupThousandsLength(n / 1000, d - 3);
    }
  }

  lemma {:induction false} Pow10Monotone(a: nat, b: nat)
    requires a <= b
    ensures Pow10(a) <= Pow10(b)
    decreases b
  {
    if a < b {
      Pow10Monotone(a, b - 1);
    }
  }

  /** 10^14, the bound below which a size fits the column. */
  lemma Pow10Fourteen()
    ensures Pow10(14) == 100_000_000_000_000
  {
    assert Pow10(2) == 100;
    assert Pow10(4) == 10_000 by { assert Pow10(3) == 1000; }
    assert Pow10(6) == 1_000_000 by { assert Pow10(5) == 100_000; }
    assert Pow10(8) == 100_000_000 by { assert Pow10(7) == 10_000_000; }
    assert Pow10(10) == 10_000_000_000 by { assert Pow10(9) == 1_000_000_000; }
    assert Pow10(12) == 1_000_000_000_000 by { assert Pow10(11) == 100_000_000_000; }
    assert Pow10(13) == 10_000_000_000_000;
  }

  /** Sizes below 10^14 (about 90 TiB) fit the size column, which is then exactly 18 wide. */
  lemma SizeFitsColumn(n: nat)
    requires n < 100_000_000_000_000
    ensures |GroupThousands(n)| <= SizeWidth
    ensures |RightJustify(GroupThousands(n), SizeWidth)| == SizeWidth
  {
    Pow10Fourteen();
    GroupThousandsLength(n, 14);
  }

  /** Where the pieces of `a + f + " " + m + " " + n + r` sit. */
  lemma Pieces(a: string, f: string, m: string, n: string, r: string)
    ensures var line := a + f + " " + m + " " + n + r;
      && |line| == |a| + |f| + 2 + |m| + |n| + |r|
      && line[..|a|] == a
      && line[|a|..|a| + |f|] == f
      && line[|a| + |f|] == ' '
      && line[|a| + |f| + 1..|a| + |f| + 1 + |m|] == m
  {
    var line := a + f + " " + m + " " + n + r;
    var k := |a| + |f| + 1;
    assert forall i :: 0 <= i < |a| ==> line[i] == a[i];
    assert forall i :: 0 <= i < |f| ==> line[|a| + i] == f[i];
    assert forall i :: 0 <= i < |m| ==> line[k + i] == m[i];
  }

  /** The marker follows the size column and one space, whatever the width of the column. */
  lemma FormatRowLayout(row: Row)
    ensures var line := FormatRow(row);
      var c := |row.colour|;
      var w := |RightJustify(GroupThousands(row.size), SizeWidth)|;
      && |line| == c + w + 2 + |row.marker| + |row.name| + |row.reset|
      && line[..c] == row.colour
      && line[c + w] == ' '
      && line[c + w + 1..c + w + 1 + |row.marker|] == row.marker
  {
    Pieces(row.colour, RightJustify(GroupThousands(row.size), SizeWidth), row.marker, row.name, row.reset);
  }

  /** From column `c`, `line` holds `text` right-aligned in a field of `SizeWidth` characters. */
  predicate RightAligned(line: string, c: nat, text: string)
  {
    && |text| <= SizeWidth
    && c + SizeWidth <= |line|
    && (forall i :: c <= i < c + SizeWidth - |text| ==> line[i] == ' ')
    && line[c + SizeWidth - |text|..c + SizeWidth] == text
  }

  lemma ReadColumn(line: string, c: nat, text: string)
    requires |text| <= SizeWidth && c + SizeWidth <= |line|
    requires line[c..c + SizeWidth] == RightJustify(text, SizeWidth)
    ensures RightAligned(line, c, text)
  {
    var field := RightJustify(text, SizeWidth);
    var k := SizeWidth - |text|;
    assert field[k..] == text;
    forall i | c <= i < c + k ensures line[i] == ' ' {
      assert line[i] == field[i - c];
    }
    assert line[c + k..c + SizeWidth] == field[k..];
  }

  /** The size column holds the grouped size right-aligned after spaces. */
  lemma FormatRowSize(row: Row)
    requires row.size < 100_000_000_000_000
    ensures RightAligned(FormatRow(row), |row.colour|, GroupThousands(row.size))
  {
    var digits := GroupThousands(row.size);
    var field := RightJustify(digits, SizeWidth);
    SizeFitsColumn(row.size);
    var line := FormatRow(row);
    var c := |row.colour|;
    Pieces(row.colour, field, row.marker, row.name, row.reset);
    assert line[c..c + SizeWidth] == field;
    ReadColumn(line, c, digits);
  }

  /** Reading the size column back, without its spaces and commas, gives the size. */
  lemma SizeColumnReadsBack(row: Row)
    requires row.size < 100_000_000_000_000
    ensures var c := |row.colour|;
      var line := FormatRow(row);
      var digits := GroupThousands(row.size);
      && c + SizeWidth <= |line|
      && |digits| <= SizeWidth
      && ParseDecimal(RemoveCommas(line[c..c + SizeWidth][SizeWidth - |digits|..])) == Some(row.size)
  {
    var c := |row.colour|;
    var line := FormatRow(row);
    var digits := GroupThousands(row.size);
    FormatRowSize(row);
    assert RightAligned(line, c, digits);
    var column := line[c..c + SizeWidth];
    assert column[SizeWidth - |digits|..] == line[c + SizeWidth - |digits|..c + SizeWidth];
    assert column[SizeWidth - |digits|..] == digits;
    GroupThousandsRoundTrip(row.size);
  }
}
