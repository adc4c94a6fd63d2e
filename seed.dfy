/** The line scanner of `_parse_configuration_file` as a value: which cells a
    seed pattern marks alive and which error, if any, stops the scan. Lines are
    the strings a Python text file yields, so they keep their line terminator,
    which the scanner treats like any other character that is not `O`. */
module SeedScan {
  import opened LifeCell
  import opened LifeGrid

  datatype Option<T> = None | Some(value: T)

  /** Why seeding stops. */
  datatype SeedError =
    | TooTall(height: nat)   // IOError "File height ... too large"
    | TooWide(width: nat)    // IOError "File width ... too wide"
    | IndexOutOfRange        // IndexError: `line[0]` of an empty line, or a cell index past the table

  /** The cells a scan marked alive (as (column, row)) and how it ended. */
  datatype Scan = Scan(marked: set<(int, int)>, error: Option<SeedError>)

  /** The inner loop over the characters of one pattern line, from column
      `xx` on, at row `yy`. The width test is `xx > xscale`, so column
      `xscale` itself passes it and an `O` there indexes past the table. */
  function ScanChars(chars: string, xx: nat, yy: nat, xscale: nat, yscale: nat): Scan
    decreases |chars|
  {
    if chars == [] then Scan({}, None)
    else if xx > xscale then Scan({}, Some(TooWide(xx)))
    else if chars[0] == 'O' && (xx >= xscale || yy >= yscale) then Scan({}, Some(IndexOutOfRange))
    else
      var rest := ScanChars(chars[1..], xx + 1, yy, xscale, yscale);
      if chars[0] == 'O' then Scan({(xx, yy)} + rest.marked, rest.error) else rest
  }

  /** The outer loop over the lines, with the row counter at `yy`. A line whose
      first character is `!` is skipped without advancing the row counter;
      the height test is `yy > yscale`. Cells marked before an error stay in
      `marked`. */
  function ScanLines(lines: seq<string>, yy: nat, xscale: nat, yscale: nat): Scan
  {
    if lines == [] then Scan({}, None)
    else if |lines[0]| == 0 then Scan({}, Some(IndexOutOfRange))
    else if lines[0][0] == '!' then ScanLines(lines[1..], yy, xscale, yscale)
    else if yy > yscale then Scan({}, Some(TooTall(yy)))
    else
      RowThen(ScanChars(lines[0], 0, yy, xscale, yscale), ScanLines(lines[1..], yy + 1, xscale, yscale))
  }

  /** A pattern row's scan followed by the scan of the lines after it: an
      error in the row ends the whole scan. */
  function RowThen(row: Scan, rest: Scan): Scan {
    if row.error.Some? then row else Scan(row.marked + rest.marked, rest.error)
  }

  /** The whole seed file, scanned from row 0. */
  function ScanSeed(lines: seq<string>, xscale: nat, yscale: nat): Scan {
    ScanLines(lines, 0, xscale, yscale)
  }

  // ---- Reference description of a seed pattern ----

  predicate IsComment(line: string) {
    |line| > 0 && line[0] == '!'
  }

  /** The pattern rows: the lines that are not comments, in order. */
  function PatternRows(lines: seq<string>): (rows: seq<string>)
    ensures |rows| <= |lines|
  {
    if lines == [] then []
    else if IsComment(lines[0]) then PatternRows(lines[1..])
    else [lines[0]] + PatternRows(lines[1..])
  }

  /** The positions of the `O`s of the pattern rows, row k placed at `yy + k`. */
  ghost function PatternCells(rows: seq<string>, yy: int): set<(int, int)> {
    set k, i | 0 <= k < |rows| && 0 <= i < |rows[k]| && rows[k][i] == 'O' :: (i, yy + k)
  }

  /** The positions of the `O`s of one line, character i placed at column `xx + i`. */
  ghost function LineCells(chars: string, xx: int, yy: int): set<(int, int)> {
    set i | 0 <= i < |chars| && chars[i] == 'O' :: (xx + i, yy)
  }

  /** A character at column x of row y passes the width test, and if it is an
      `O` it lies on the table. */
  predicate CharFits(c: char, x: int, y: int, xscale: nat, yscale: nat) {
    x <= xscale && (c == 'O' ==> x < xscale && y < yscale)
  }

  /** Every character of the line, placed from column `xx` on, fits. */
  predicate LineFits(chars: string, xx: nat, yy: nat, xscale: nat, yscale: nat) {
    forall i :: 0 <= i < |chars| ==> CharFits(chars[i], xx + i, yy, xscale, yscale)
  }

  /** Every line can be indexed, every pattern row passes the height test, and
      every row fits. */
  predicate PatternFits(lines: seq<string>, yy: nat, xscale: nat, yscale: nat) {
    (forall k :: 0 <= k < |lines| ==> |lines[k]| > 0) &&
    var rows := PatternRows(lines);
    forall k :: 0 <= k < |rows| ==> RowFits(rows[k], yy + k, xscale, yscale)
  }

  /** A pattern row read at row counter y passes the height test and fits. */
  predicate RowFits(row: string, y: nat, xscale: nat, yscale: nat) {
    y <= yscale && LineFits(row, 0, y, xscale, yscale)
  }

  lemma LineCellsStep(chars: string, xx: int, yy: int)
    requires chars != []
    ensures LineCells(chars, xx, yy) ==
      (if chars[0] == 'O' then {(xx, yy)} else {}) + LineCells(chars[1..], xx + 1, yy)
  {
    var l, r := LineCells(chars, xx, yy), (if chars[0] == 'O' then {(xx, yy)} else {}) + LineCells(chars[1..], xx + 1, yy);
    forall e | e in l ensures e in r {
      var i :| 0 <= i < |chars| && chars[i] == 'O' && e == (xx + i, yy);
      if i > 0 {
        assert chars[1..][i - 1] == 'O';
        assert e == (xx + 1 + (i - 1), yy);
      }
    }
    forall e | e in r ensures e in l {
      if e in LineCells(chars[1..], xx + 1, yy) {
        var i :| 0 <= i < |chars[1..]| && chars[1..][i] == 'O' && e == (xx + 1 + i, yy);
        assert chars[i + 1] == 'O';
        assert e == (xx + (i + 1), yy);
      }
    }
  }

  /** The step of the stopping clause of `ScanCharsSpec`: a first character
      that fits followed by a scan of the rest that stops at position m stops
      at position m + 1. */
  lemma ScanCharsStep(chars: string, xx: nat, yy: nat, xscale: nat, yscale: nat, m: nat)
    requires chars != [] && CharFits(chars[0], xx, yy, xscale, yscale) && m < |chars[1..]|
    requires LineFits(chars[1..][..m], xx + 1, yy, xscale, yscale)
    requires !CharFits(chars[1..][m], xx + 1 + m, yy, xscale, yscale)
    ensures LineFits(chars[..m + 1], xx, yy, xscale, yscale)
    ensures !CharFits(chars[m + 1], xx + (m + 1), yy, xscale, yscale)
    ensures LineCells(chars[..m + 1], xx, yy) ==
      (if chars[0] == 'O' then {(xx, yy)} else {}) + LineCells(chars[1..][..m], xx + 1, yy)
  {
    var pre := chars[..m + 1];
    assert pre[0] == chars[0] && pre[1..] == chars[1..][..m];
    LineCellsStep(pre, xx, yy);
    forall i | 0 <= i < |pre| ensures CharFits(pre[i], xx + i, yy, xscale, yscale) {
      if i > 0 { assert pre[i] == chars[1..][..m][i - 1]; }
    }
    assert chars[m + 1] == chars[1..][m];
  }

  /** The character scan marks only `O`s of the line, all of them when it
      ends without error, and it ends without error exactly when the line
      fits. On an error it stops at the first character n that does not fit,
      having marked exactly the `O`s before it. */
  lemma {:induction false} ScanCharsSpec(chars: string, xx: nat, yy: nat, xscale: nat, yscale: nat)
    ensures ScanChars(chars, xx, yy, xscale, yscale).marked <= LineCells(chars, xx, yy)
    ensures ScanChars(chars, xx, yy, xscale, yscale).error.None? ==>
              ScanChars(chars, xx, yy, xscale, yscale).marked == LineCells(chars, xx, yy)
    ensures ScanChars(chars, xx, yy, xscale, yscale).error.None? <==> LineFits(chars, xx, yy, xscale, yscale)
    ensures ScanChars(chars, xx, yy, xscale, yscale).error.Some? ==>
      exists n :: 0 <= n < |chars| && LineFits(chars[..n], xx, yy, xscale, yscale) &&
        !CharFits(chars[n], xx + n, yy, xscale, yscale) &&
        ScanChars(chars, xx, yy, xscale, yscale).marked == LineCells(chars[..n], xx, yy)
    decreases |chars|
  {
    if chars == [] {
    } else if xx > xscale {
      assert !CharFits(chars[0], xx + 0, yy, xscale, yscale);
      assert chars[..0] == [];
    } else if chars[0] == 'O' && (xx >= xscale || yy >= yscale) {
      assert !CharFits(chars[0], xx + 0, yy, xscale, yscale);
      assert chars[..0] == [];
    } else {
      ScanCharsSpec(chars[1..], xx + 1, yy, xscale, yscale);
      LineCellsStep(chars, xx, yy);
      if ScanChars(chars[1..], xx + 1, yy, xscale, yscale).error.Some? {
        var m :| 0 <= m < |chars[1..]| && LineFits(chars[1..][..m], xx + 1, yy, xscale, yscale) &&
          !CharFits(chars[1..][m], xx + 1 + m, yy, xscale, yscale) &&
          ScanChars(chars[1..], xx + 1, yy, xscale, yscale).marked == LineCells(chars[1..][..m], xx + 1, yy);
        ScanCharsStep(chars, xx, yy, xscale, yscale, m);
      }
      if LineFits(chars[1..], xx + 1, yy, xscale, yscale) {
        forall i | 0 <= i < |chars| ensures CharFits(chars[i], xx + i, yy, xscale, yscale) {
          if i > 0 { assert chars[i] == chars[1..][i - 1]; }
        }
      }
      if LineFits(chars, xx, yy, xscale, yscale) {
        forall i | 0 <= i < |chars[1..]| ensures CharFits(chars[1..][i], xx + 1 + i, yy, xscale, yscale) {
          assert chars[1..][i] == chars[i + 1];
        }
      }
    }
  }

  lemma PatternCellsStep(line: string, rows: seq<string>, yy: int)
    ensures PatternCells([line] + rows, yy) == LineCells(line, 0, yy) + PatternCells(rows, yy + 1)
  {
    var all := [line] + rows;
    var l, r := PatternCells(all, yy), LineCells(line, 0, yy) + PatternCells(rows, yy + 1);
    forall e | e in l ensures e in r {
      var k, i :| 0 <= k < |all| && 0 <= i < |all[k]| && all[k][i] == 'O' && e == (i, yy + k);
      if k == 0 {
        assert e == (0 + i, yy);
      } else {
        assert rows[k - 1][i] == 'O';
        assert e == (i, yy + 1 + (k - 1));
      }
    }
    forall e | e in r ensures e in l {
      if e in LineCells(line, 0, yy) {
        var i :| 0 <= i < |line| && line[i] == 'O' && e == (0 + i, yy);
        assert all[0][i] == 'O';
        assert e == (i, yy + 0);
      } else {
        var k, i :| 0 <= k < |rows| && 0 <= i < |rows[k]| && rows[k][i] == 'O' && e == (i, yy + 1 + k);
        assert all[k + 1][i] == 'O';
        assert e == (i, yy + (k + 1));
      }
    }
  }

  /** Shifting the pattern rows by one: the facts that hold for the rows after
      the first line are the facts for the whole at the next row. */
  lemma PatternFitsStep(lines: seq<string>, yy: nat, xscale: nat, yscale: nat)
    requires lines != [] && |lines[0]| > 0 && !IsComment(lines[0])
    ensures PatternFits(lines, yy, xscale, yscale) <==>
      RowFits(lines[0], yy, xscale, yscale) && PatternFits(lines[1..], yy + 1, xscale, yscale)
  {
    var rows, rest := PatternRows(lines), PatternRows(lines[1..]);
    assert rows == [lines[0]] + rest;
    assert forall k :: 0 <= k < |lines[1..]| ==> lines[1..][k] == lines[k + 1];
    if RowFits(lines[0], yy, xscale, yscale) && PatternFits(lines[1..], yy + 1, xscale, yscale) {
      forall k | 0 <= k < |lines| ensures |lines[k]| > 0 {
        if k > 0 { assert lines[k] == lines[1..][k - 1]; }
      }
      forall k | 0 <= k < |rows| ensures RowFits(rows[k], yy + k, xscale, yscale) {
        if k > 0 { assert rows[k] == rest[k - 1]; }
      }
    }
    if PatternFits(lines, yy, xscale, yscale) {
      forall k | 0 <= k < |rest| ensures RowFits(rest[k], yy + 1 + k, xscale, yscale) {
        assert rest[k] == rows[k + 1];
      }
    }
  }

  lemma CommentSkipped(lines: seq<string>, yy: nat, xscale: nat, yscale: nat)
    requires lines != [] && IsComment(lines[0])
    ensures PatternFits(lines, yy, xscale, yscale) <==> PatternFits(lines[1..], yy, xscale, yscale)
  {
    assert PatternRows(lines) == PatternRows(lines[1..]);
    if PatternFits(lines, yy, xscale, yscale) {
      assert forall k :: 0 <= k < |lines[1..]| ==> |lines[1..][k]| > 0;
    }
    assert forall k :: 0 <= k < |lines[1..]| ==> lines[1..][k] == lines[k + 1];
    if PatternFits(lines[1..], yy, xscale, yscale) {
      forall k | 0 <= k < |lines| ensures |lines[k]| > 0 {
        if k > 0 { assert lines[k] == lines[1..][k - 1]; }
      }
    }
  }

  /** The `O`s of the pattern rows collected row by row. */
  ghost function RowCells(rows: seq<string>, yy: int): set<(int, int)> {
    if rows == [] then {} else LineCells(rows[0], 0, yy) + RowCells(rows[1..], yy + 1)
  }

  /** Collecting row by row finds exactly the `O`s of the pattern. */
  lemma {:induction false} RowCellsArePatternCells(rows: seq<string>, yy: int)
    ensures RowCells(rows, yy) == PatternCells(rows, yy)
  {
    if rows != [] {
      RowCellsArePatternCells(rows[1..], yy + 1);
      PatternCellsStep(rows[0], rows[1..], yy);
      assert [rows[0]] + rows[1..] == rows;
    }
  }

  /** The step of `ScanLinesCells` for a pattern row, given the facts for
      the lines after it. */
  lemma ScanRowCells(lines: seq<string>, yy: nat, xscale: nat, yscale: nat)
    requires lines != [] && |lines[0]| > 0 && lines[0][0] != '!' && yy <= yscale
    requires ScanLines(lines[1..], yy + 1, xscale, yscale).marked <= RowCells(PatternRows(lines[1..]), yy + 1)
    requires ScanLines(lines[1..], yy + 1, xscale, yscale).error.None? ==>
               ScanLines(lines[1..], yy + 1, xscale, yscale).marked == RowCells(PatternRows(lines[1..]), yy + 1)
    ensures ScanLines(lines, yy, xscale, yscale).marked <= RowCells(PatternRows(lines), yy)
    ensures ScanLines(lines, yy, xscale, yscale).error.None? ==>
              ScanLines(lines, yy, xscale, yscale).marked == RowCells(PatternRows(lines), yy)
  {
    var rows := PatternRows(lines);
    assert rows == [lines[0]] + PatternRows(lines[1..]);
    assert rows[0] == lines[0] && rows[1..] == PatternRows(lines[1..]);
    assert RowCells(rows, yy) == LineCells(lines[0], 0, yy) + RowCells(PatternRows(lines[1..]), yy + 1);
    ScanCharsSpec(lines[0], 0, yy, xscale, yscale);
  }

  /** The scan marks only `O`s of the pattern rows (row k of the pattern is
      row `yy + k` of the table), and with no error it marks all of them. */
  lemma {:induction false} ScanLinesCells(lines: seq<string>, yy: nat, xscale: nat, yscale: nat)
    ensures ScanLines(lines, yy, xscale, yscale).marked <= RowCells(PatternRows(lines), yy)
    ensures ScanLines(lines, yy, xscale, yscale).error.None? ==>
              ScanLines(lines, yy, xscale, yscale).marked == RowCells(PatternRows(lines), yy)
  {
    if lines == [] {
    } else if |lines[0]| == 0 {
    } else if lines[0][0] == '!' {
      ScanLinesCells(lines[1..], yy, xscale, yscale);
      assert PatternRows(lines) == PatternRows(lines[1..]);
    } else if yy <= yscale {
      ScanLinesCells(lines[1..], yy + 1, xscale, yscale);
      ScanRowCells(lines, yy, xscale, yscale);
    }
  }

  /** The scan ends without error exactly when the pattern fits the table. */
  lemma {:induction false} ScanLinesFits(lines: seq<string>, yy: nat, xscale: nat, yscale: nat)
    ensures ScanLines(lines, yy, xscale, yscale).error.None? <==> PatternFits(lines, yy, xscale, yscale)
  {
    if lines == [] {
    } else if |lines[0]| == 0 {
      assert !(|lines[0]| > 0);
    } else if lines[0][0] == '!' {
      ScanLinesFits(lines[1..], yy, xscale, yscale);
      CommentSkipped(lines, yy, xscale, yscale);
    } else {
      PatternFitsStep(lines, yy, xscale, yscale);
      if yy <= yscale {
        ScanCharsSpec(lines[0], 0, yy, xscale, yscale);
        if ScanChars(lines[0], 0, yy, xscale, yscale).error.None? {
          ScanLinesFits(lines[1..], yy + 1, xscale, yscale);
        }
      }
    }
  }

  /** The marked cells always lie on the table, so marking them never indexes
      outside it. */
  lemma {:induction false} ScanCharsInTable(chars: string, xx: nat, yy: nat, xscale: nat, yscale: nat)
    ensures forall e :: e in ScanChars(chars, xx, yy, xscale, yscale).marked ==>
      0 <= e.0 < xscale && 0 <= e.1 < yscale
    decreases |chars|
  {
    if chars != [] && xx <= xscale && !(chars[0] == 'O' && (xx >= xscale || yy >= yscale)) {
      ScanCharsInTable(chars[1..], xx + 1, yy, xscale, yscale);
    }
  }

  lemma {:induction false} ScanLinesInTable(lines: seq<string>, yy: nat, xscale: nat, yscale: nat)
    ensures forall e :: e in ScanLines(lines, yy, xscale, yscale).marked ==>
      0 <= e.0 < xscale && 0 <= e.1 < yscale
  {
    if lines != [] && |lines[0]| > 0 {
      if lines[0][0] == '!' {
        ScanLinesInTable(lines[1..], yy, xscale, yscale);
      } else if yy <= yscale {
        ScanCharsInTable(lines[0], 0, yy, xscale, yscale);
        ScanLinesInTable(lines[1..], yy + 1, xscale, yscale);
      }
    }
  }

  /** An `O` that makes `cells[xx][yy]` index past the table: in pattern row
      k, read at row counter `yy + k` (which passed the height test), at a
      column that passed the width test, yet in column `xscale` or in row
      `yscale`. */
  predicate OffTableO(rows: seq<string>, yy: nat, xscale: nat, yscale: nat) {
    exists k, i :: 0 <= k < |rows| && 0 <= i < |rows[k]| && rows[k][i] == 'O' &&
      i <= xscale && yy + k <= yscale && (i >= xscale || yy + k >= yscale)
  }

  /** A line scan started on the table stops on a width error only at column
      `xscale + 1`, never on a height error, and on an index error only at an
      `O` that passed the width test in column `xscale` or row `yscale`. */
  lemma {:induction false} ScanCharsError(chars: string, xx: nat, yy: nat, xscale: nat, yscale: nat)
    requires xx <= xscale + 1
    ensures ScanChars(chars, xx, yy, xscale, yscale).error.Some? ==>
      ScanChars(chars, xx, yy, xscale, yscale).error == Some(TooWide(xscale + 1)) ||
      ScanChars(chars, xx, yy, xscale, yscale).error == Some(IndexOutOfRange)
    ensures ScanChars(chars, xx, yy, xscale, yscale).error == Some(IndexOutOfRange) ==>
      exists i :: 0 <= i < |chars| && chars[i] == 'O' && xx + i <= xscale && (xx + i >= xscale || yy >= yscale)
    decreases |chars|
  {
    if chars == [] {
    } else if xx > xscale {
    } else if chars[0] == 'O' && (xx >= xscale || yy >= yscale) {
      assert chars[0] == 'O' && xx + 0 <= xscale;
    } else {
      ScanCharsError(chars[1..], xx + 1, yy, xscale, yscale);
      if ScanChars(chars[1..], xx + 1, yy, xscale, yscale).error == Some(IndexOutOfRange) {
        var i :| 0 <= i < |chars[1..]| && chars[1..][i] == 'O' && xx + 1 + i <= xscale &&
                 (xx + 1 + i >= xscale || yy >= yscale);
        assert chars[i + 1] == 'O' && xx + (i + 1) <= xscale;
      }
    }
  }

  /** The errors of a scan started at a row counter on the table
      (`yy <= yscale + 1`): the width error names `xscale + 1`, the height
      error names `yscale + 1`, and an index error comes from an empty line
      (`line[0]`) or from an `O` off the table. */
  lemma {:induction false} ScanLinesError(lines: seq<string>, yy: nat, xscale: nat, yscale: nat)
    requires yy <= yscale + 1
    ensures ScanLines(lines, yy, xscale, yscale).error.Some? &&
            ScanLines(lines, yy, xscale, yscale).error.value.TooWide? ==>
      ScanLines(lines, yy, xscale, yscale).error.value.width == xscale + 1
    ensures ScanLines(lines, yy, xscale, yscale).error.Some? &&
            ScanLines(lines, yy, xscale, yscale).error.value.TooTall? ==>
      ScanLines(lines, yy, xscale, yscale).error.value.height == yscale + 1
    ensures ScanLines(lines, yy, xscale, yscale).error == Some(IndexOutOfRange) ==>
      (exists k :: 0 <= k < |lines| && |lines[k]| == 0) || OffTableO(PatternRows(lines), yy, xscale, yscale)
  {
    if lines == [] {
    } else if |lines[0]| == 0 {
      assert |lines[0]| == 0;
    } else if lines[0][0] == '!' {
      ScanLinesError(lines[1..], yy, xscale, yscale);
      assert PatternRows(lines) == PatternRows(lines[1..]);
      if k :| 0 <= k < |lines[1..]| && |lines[1..][k]| == 0 {
        assert |lines[k + 1]| == 0;
      }
    } else if yy > yscale {
    } else {
      var rows, rest := PatternRows(lines), PatternRows(lines[1..]);
      assert rows == [lines[0]] + rest;
      ScanCharsError(lines[0], 0, yy, xscale, yscale);
      if ScanChars(lines[0], 0, yy, xscale, yscale).error.Some? {
        if ScanChars(lines[0], 0, yy, xscale, yscale).error == Some(IndexOutOfRange) {
          var i :| 0 <= i < |lines[0]| && lines[0][i] == 'O' && 0 + i <= xscale && (0 + i >= xscale || yy >= yscale);
          assert rows[0][i] == 'O' && yy + 0 <= yscale;
        }
      } else {
        ScanLinesError(lines[1..], yy + 1, xscale, yscale);
        if k :| 0 <= k < |lines[1..]| && |lines[1..][k]| == 0 {
          assert |lines[k + 1]| == 0;
        }
        if OffTableO(rest, yy + 1, xscale, yscale) {
          var k, i :| 0 <= k < |rest| && 0 <= i < |rest[k]| && rest[k][i] == 'O' &&
                      i <= xscale && yy + 1 + k <= yscale && (i >= xscale || yy + 1 + k >= yscale);
          assert rows[k + 1] == rest[k];
          assert rows[k + 1][i] == 'O' && yy + (k + 1) <= yscale;
        }
      }
    }
  }

  /** Scanning a file in two parts: when the first part scans without error,
      the whole scan is the first part's cells followed by the scan of the
      rest, whose row counter starts after the first part's pattern rows. */
  lemma {:induction false} ScanLinesPrefix(pre: seq<string>, post: seq<string>, yy: nat, xscale: nat, yscale: nat)
    requires ScanLines(pre, yy, xscale, yscale).error.None?
    ensures ScanLines(pre + post, yy, xscale, yscale) ==
      Then(ScanLines(pre, yy, xscale, yscale).marked, ScanLines(post, yy + |PatternRows(pre)|, xscale, yscale))
  {
    if pre == [] {
      assert pre + post == post;
      assert {} + ScanLines(post, yy, xscale, yscale).marked == ScanLines(post, yy, xscale, yscale).marked;
    } else {
      assert (pre + post)[0] == pre[0] && (pre + post)[1..] == pre[1..] + post;
      if pre[0][0] == '!' {
        ScanLinesPrefix(pre[1..], post, yy, xscale, yscale);
        assert PatternRows(pre) == PatternRows(pre[1..]);
      } else {
        ScanLinesPrefix(pre[1..], post, yy + 1, xscale, yscale);
        assert PatternRows(pre) == [pre[0]] + PatternRows(pre[1..]);
        var row := ScanChars(pre[0], 0, yy, xscale, yscale).marked;
        var mid := ScanLines(pre[1..], yy + 1, xscale, yscale).marked;
        var last := ScanLines(post, yy + |PatternRows(pre)|, xscale, yscale);
        assert row + (mid + last.marked) == row + mid + last.marked;
      }
    }
  }

  /** Where a scan from row counter `yy` stops: at line j, every line before
      which fits, and at character n of it. Line j is empty (so `line[0]`
      fails), or it is a pattern row whose row counter fails the height test,
      or it is a pattern row read on the table whose first n characters fit
      and whose character n does not. */
  predicate StopsAt(lines: seq<string>, yy: nat, xscale: nat, yscale: nat, j: nat, n: nat) {
    && j < |lines| && PatternFits(lines[..j], yy, xscale, yscale)
    && var y := yy + |PatternRows(lines[..j])|;
       || (|lines[j]| == 0 && n == 0)
       || (|lines[j]| > 0 && !IsComment(lines[j]) && y > yscale && n == 0)
       || (|lines[j]| > 0 && !IsComment(lines[j]) && y <= yscale && n < |lines[j]| &&
           LineFits(lines[j][..n], 0, y, xscale, yscale) && !CharFits(lines[j][n], n, y, xscale, yscale))
  }

  /** The cells a scan stopped at line j, character n has marked: the `O`s of
      the pattern rows before line j and the `O`s of line j before column n. */
  ghost function StoppedCells(lines: seq<string>, yy: nat, j: nat, n: nat): set<(int, int)>
    requires j < |lines| && n <= |lines[j]|
  {
    PatternCells(PatternRows(lines[..j]), yy) + LineCells(lines[j][..n], 0, yy + |PatternRows(lines[..j])|)
  }

  /** A scan that ends in an error stops at some line j and character n, and
      has marked exactly the cells before that point. */
  lemma {:induction false} ScanLinesStops(lines: seq<string>, yy: nat, xscale: nat, yscale: nat)
    ensures ScanLines(lines, yy, xscale, yscale).error.Some? ==>
      exists j, n :: StopsAt(lines, yy, xscale, yscale, j, n) &&
        ScanLines(lines, yy, xscale, yscale).marked == StoppedCells(lines, yy, j, n)
  {
    if lines == [] {
    } else if |lines[0]| == 0 {
      assert lines[..0] == [] && lines[0][..0] == [];
      assert StopsAt(lines, yy, xscale, yscale, 0, 0);
    } else if lines[0][0] == '!' {
      ScanLinesStops(lines[1..], yy, xscale, yscale);
      if ScanLines(lines[1..], yy, xscale, yscale).error.Some? {
        var j: nat, n: nat :| StopsAt(lines[1..], yy, xscale, yscale, j, n) &&
          ScanLines(lines[1..], yy, xscale, yscale).marked == StoppedCells(lines[1..], yy, j, n);
        ScanLinesStopsComment(lines, yy, xscale, yscale, j, n);
        assert StopsAt(lines, yy, xscale, yscale, j + 1, n);
      }
    } else if yy > yscale {
      assert lines[..0] == [] && lines[0][..0] == [];
      assert StopsAt(lines, yy, xscale, yscale, 0, 0);
    } else {
      var row := ScanChars(lines[0], 0, yy, xscale, yscale);
      ScanCharsSpec(lines[0], 0, yy, xscale, yscale);
      if row.error.Some? {
        var n: nat := ScanLinesStopsRow(lines, yy, xscale, yscale);
        assert StopsAt(lines, yy, xscale, yscale, 0, n);
      } else {
        ScanLinesStops(lines[1..], yy + 1, xscale, yscale);
        if ScanLines(lines[1..], yy + 1, xscale, yscale).error.Some? {
          var j: nat, n: nat :| StopsAt(lines[1..], yy + 1, xscale, yscale, j, n) &&
            ScanLines(lines[1..], yy + 1, xscale, yscale).marked == StoppedCells(lines[1..], yy + 1, j, n);
          ScanLinesStopsStep(lines, yy, xscale, yscale, j, n);
          assert StopsAt(lines, yy, xscale, yscale, j + 1, n);
        }
      }
    }
  }

  /** The step of `ScanLinesStops` past a comment line. */
  lemma ScanLinesStopsComment(lines: seq<string>, yy: nat, xscale: nat, yscale: nat, j: nat, n: nat)
    requires lines != [] && IsComment(lines[0])
    requires StopsAt(lines[1..], yy, xscale, yscale, j, n)
    ensures StopsAt(lines, yy, xscale, yscale, j + 1, n)
    ensures StoppedCells(lines, yy, j + 1, n) == StoppedCells(lines[1..], yy, j, n)
  {
    var pre := lines[..j + 1];
    assert pre[0] == lines[0] && pre[1..] == lines[1..][..j];
    assert PatternRows(pre) == PatternRows(lines[1..][..j]);
    CommentSkipped(pre, yy, xscale, yscale);
    assert lines[j + 1] == lines[1..][j];
  }

  /** The case of `ScanLinesStops` where the first line is a pattern row
      whose own scan fails: the scan stops in that row. */
  lemma ScanLinesStopsRow(lines: seq<string>, yy: nat, xscale: nat, yscale: nat) returns (n: nat)
    requires lines != [] && |lines[0]| > 0 && !IsComment(lines[0]) && yy <= yscale
    requires ScanChars(lines[0], 0, yy, xscale, yscale).error.Some?
    ensures StopsAt(lines, yy, xscale, yscale, 0, n)
    ensures ScanLines(lines, yy, xscale, yscale).marked == StoppedCells(lines, yy, 0, n)
  {
    ScanCharsSpec(lines[0], 0, yy, xscale, yscale);
    n :| 0 <= n < |lines[0]| && LineFits(lines[0][..n], 0, yy, xscale, yscale) &&
      !CharFits(lines[0][n], 0 + n, yy, xscale, yscale) &&
      ScanChars(lines[0], 0, yy, xscale, yscale).marked == LineCells(lines[0][..n], 0, yy);
    assert lines[..0] == [];
  }

  /** The step of `ScanLinesStops` past a pattern row that fits: stopping at
      line j, character n of the lines after it is stopping at line j + 1,
      character n of the whole. */
  lemma ScanLinesStopsStep(lines: seq<string>, yy: nat, xscale: nat, yscale: nat, j: nat, n: nat)
    requires lines != [] && |lines[0]| > 0 && !IsComment(lines[0])
    requires RowFits(lines[0], yy, xscale, yscale)
    requires StopsAt(lines[1..], yy + 1, xscale, yscale, j, n)
    ensures StopsAt(lines, yy, xscale, yscale, j + 1, n)
    ensures StoppedCells(lines, yy, j + 1, n) == LineCells(lines[0], 0, yy) + StoppedCells(lines[1..], yy + 1, j, n)
  {
    var pre := lines[..j + 1];
    assert pre[0] == lines[0] && pre[1..] == lines[1..][..j];
    assert PatternRows(pre) == [lines[0]] + PatternRows(lines[1..][..j]);
    PatternFitsStep(pre, yy, xscale, yscale);
    PatternCellsStep(lines[0], PatternRows(lines[1..][..j]), yy);
    assert lines[j + 1] == lines[1..][j];
  }

  /** What the whole seed file does, in terms of the pattern it describes:
      whether it fits, the cells it marks, the error it raises, and on an
      error exactly which cells were marked before the scan stopped. */
  lemma ScanSeedSpec(lines: seq<string>, xscale: nat, yscale: nat)
    ensures ScanSeed(lines, xscale, yscale).error.None? <==> PatternFits(lines, 0, xscale, yscale)
    ensures ScanSeed(lines, xscale, yscale).marked <= PatternCells(PatternRows(lines), 0)
    ensures ScanSeed(lines, xscale, yscale).error.None? ==>
              ScanSeed(lines, xscale, yscale).marked == PatternCells(PatternRows(lines), 0)
    ensures forall e :: e in ScanSeed(lines, xscale, yscale).marked ==> 0 <= e.0 < xscale && 0 <= e.1 < yscale
    ensures ScanSeed(lines, xscale, yscale).error.Some? && ScanSeed(lines, xscale, yscale).error.value.TooWide? ==>
      ScanSeed(lines, xscale, yscale).error.value.width == xscale + 1
    ensures ScanSeed(lines, xscale, yscale).error.Some? && ScanSeed(lines, xscale, yscale).error.value.TooTall? ==>
      ScanSeed(lines, xscale, yscale).error.value.height == yscale + 1
    ensures ScanSeed(lines, xscale, yscale).error == Some(IndexOutOfRange) ==>
      (exists k :: 0 <= k < |lines| && |lines[k]| == 0) || OffTableO(PatternRows(lines), 0, xscale, yscale)
    ensures ScanSeed(lines, xscale, yscale).error.Some? ==>
      exists j, n :: StopsAt(lines, 0, xscale, yscale, j, n) &&
        ScanSeed(lines, xscale, yscale).marked == StoppedCells(lines, 0, j, n)
  {
    ScanLinesStops(lines, 0, xscale, yscale);
    ScanLinesError(lines, 0, xscale, yscale);
    ScanLinesCells(lines, 0, xscale, yscale);
    RowCellsArePatternCells(PatternRows(lines), 0);
    ScanLinesFits(lines, 0, xscale, yscale);
    ScanLinesInTable(lines, 0, xscale, yscale);
  }

  /** On a 2 x 2 table an `O` in column 2 passes the width test and indexes
      past the table; the cell marked before it stays marked. */
  lemma OInLastColumnPlusOneIndexesPastTable()
    ensures ScanSeed(["! glider\n", "O.O\n"], 2, 2) == Scan({(0, 0)}, Some(IndexOutOfRange))
  {
    var lines := ["! glider\n", "O.O\n"];
    var row := lines[1];
    assert lines[1..] == [row];
    assert ScanLines([row][1..], 1, 2, 2) == Scan({}, None);
    assert row[1..][1..][0] == 'O';
    assert ScanChars(row[1..], 1, 0, 2, 2) == Scan({}, Some(IndexOutOfRange));
  }

  /** On a 2 x 2 table the width test first fails at column 3, here the
      line terminator of a 3-character row. */
  lemma TerminatorPastLastColumnTooWide()
    ensures ScanSeed(["O..\n"], 2, 2) == Scan({(0, 0)}, Some(TooWide(3)))
  {
    var row := "O..\n";
    assert ["O..\n"][0] == row;
    assert row[1..][1..] == row[2..] && row[2..][1..] == row[3..] == "\n";
    assert ScanChars(row[3..], 3, 0, 2, 2) == Scan({}, Some(TooWide(3)));
    assert ScanChars(row[2..], 2, 0, 2, 2) == ScanChars(row[3..], 3, 0, 2, 2);
    assert ScanChars(row[1..], 1, 0, 2, 2) == ScanChars(row[2..], 2, 0, 2, 2);
  }

  /** On a 2 x 1 table the second row is read at row counter 1 == yscale,
      which passes the `>` height test, so its `O` raises the index error
      before the width test can fail at the terminator; the first row's
      cell stays marked. */
  lemma LastRowPlusOneIndexesPastTable()
    ensures ScanSeed(["O\n", "O..\n"], 2, 1) == Scan({(0, 0)}, Some(IndexOutOfRange))
  {
    var lines := ["O\n", "O..\n"];
    assert lines[1..] == ["O..\n"] && lines[1..][1..] == [];
    assert ScanChars(lines[1], 0, 1, 2, 1) == Scan({}, Some(IndexOutOfRange));
    assert lines[0][1..] == "\n" && lines[0][1..][1..] == [];
    assert ScanChars(lines[0], 0, 0, 2, 1) == Scan({(0, 0)}, None);
  }

  /** A scan that continues after the cells `done` have been marked. */
  function Then(done: set<(int, int)>, s: Scan): Scan {
    Scan(done + s.marked, s.error)
  }

  /** Marking one cell and then scanning on is the scan that marks it first. */
  lemma ThenMark(done: set<(int, int)>, p: (int, int), r: Scan, rest: Scan)
    ensures Then(done, RowThen(Scan({p} + r.marked, r.error), rest)) == Then(done + {p}, RowThen(r, rest))
  {
    assert done + ({p} + r.marked) == done + {p} + r.marked;
    assert done + ({p} + r.marked + rest.marked) == done + {p} + (r.marked + rest.marked);
  }

  /** `g` is `g0` with the cells of `m` that lie on the table set alive and
      nothing else changed. */
  predicate Marked(g: Grid, g0: Grid, xscale: nat, yscale: nat, m: set<(int, int)>)
    requires IsGrid(g0, xscale, yscale)
  {
    IsGrid(g, xscale, yscale) &&
    forall x, y {:trigger g0[x][y]} :: 0 <= x < xscale && 0 <= y < yscale ==>
      g[x][y] == (if (x, y) in m then g0[x][y].(aliveCurrGen := true) else g0[x][y])
  }

  /** Marking nothing changes nothing. */
  lemma MarkedNothing(g0: Grid, xscale: nat, yscale: nat)
    requires IsGrid(g0, xscale, yscale)
    ensures Marked(g0, g0, xscale, yscale, {})
  {
  }

  /** `cells[x][y].alive_curr_gen = True` on a marked grid marks one more cell. */
  lemma MarkedOneMore(g: Grid, g0: Grid, xscale: nat, yscale: nat, m: set<(int, int)>, x: nat, y: nat)
    requires IsGrid(g0, xscale, yscale) && Marked(g, g0, xscale, yscale, m) && x < xscale && y < yscale
    ensures Marked(g[x := g[x][y := g[x][y].(aliveCurrGen := true)]], g0, xscale, yscale, m + {(x, y)})
  {
  }

  /** Seeding changes only current-generation flags, and only to alive: the
      live cells afterwards are the live cells before plus the marked cells
      on the table. A table with fresh double buffers keeps them. */
  lemma MarkedSpec(g: Grid, g0: Grid, xscale: nat, yscale: nat, m: set<(int, int)>)
    requires IsGrid(g0, xscale, yscale) && Marked(g, g0, xscale, yscale, m)
    ensures forall x, y :: 0 <= x < xscale && 0 <= y < yscale ==>
      g[x][y].aliveNextGen == g0[x][y].aliveNextGen && g[x][y].generationCnt == g0[x][y].generationCnt &&
      (g[x][y].aliveCurrGen <==> g0[x][y].aliveCurrGen || (x, y) in m)
    ensures Unprepared(g0, xscale, yscale) ==> Unprepared(g, xscale, yscale)
  {
  }

  /** Seeding sets only current-generation flags, so a table whose
      next-alive flags are clear and whose streaks are zero keeps them so. */
  lemma MarkedKeepsUnprepared(g: Grid, g0: Grid, xscale: nat, yscale: nat, m: set<(int, int)>)
    requires IsGrid(g0, xscale, yscale) && Marked(g, g0, xscale, yscale, m) && Unprepared(g0, xscale, yscale)
    ensures Unprepared(g, xscale, yscale)
  {
    forall x, y | 0 <= x < xscale && 0 <= y < yscale
      ensures !g[x][y].aliveNextGen && g[x][y].generationCnt == 0
    {
      assert g[x][y] == (if (x, y) in m then g0[x][y].(aliveCurrGen := true) else g0[x][y]);
    }
  }

  /** Cells (0, 50), ..., (n - 1, 50). */
  function DefaultRow(n: nat): set<(int, int)> {
    set ii | 0 <= ii < n :: (ii, 50)
  }

  /** `_default_configuration` on a table of the given size: cells (ii, 50)
      are marked for ii = 0, 1, ..., 19, and the first index off the table
      raises IndexError, keeping the cells marked before it. */
  function DefaultSeed(xscale: nat, yscale: nat): Scan {
    if yscale <= 50 then Scan({}, Some(IndexOutOfRange))
    else if xscale < 20 then Scan(DefaultRow(xscale), Some(IndexOutOfRange))
    else Scan(DefaultRow(20), None)
  }

  /** What `_init_configuration` does: the default seed without a seed file
      (`None` also stands for a file that cannot be opened, which the source
      reports and then treats the same way), else the scan of its lines. */
  function Seeding(seed: Option<seq<string>>, xscale: nat, yscale: nat): Scan {
    match seed
    case None => DefaultSeed(xscale, yscale)
    case Some(lines) => ScanSeed(lines, xscale, yscale)
  }

  lemma DefaultRowStep(n: nat)
    ensures DefaultRow(n) + {(n, 50)} == DefaultRow(n + 1)
    ensures (n, 50) !in DefaultRow(n)
  {
    forall e | e in DefaultRow(n + 1) ensures e in DefaultRow(n) + {(n, 50)} {
      var ii :| 0 <= ii < n + 1 && e == (ii, 50);
      if ii < n { assert e in DefaultRow(n); }
    }
  }

  /** `DefaultRow(n)` holds n cells. */
  lemma {:induction false} DefaultRowSize(n: nat)
    ensures |DefaultRow(n)| == n
  {
    if n > 0 {
      DefaultRowSize(n - 1);
      DefaultRowStep(n - 1);
    }
  }

  /** The default seed succeeds exactly on a table of at least 20 columns and
      51 rows; it then marks the 20 cells (0, 50) .. (19, 50), a horizontal
      line. It always marks min(xscale, 20) cells of row 50 when that row
      exists and none otherwise, all on the table. */
  lemma DefaultSeedSpec(xscale: nat, yscale: nat)
    ensures DefaultSeed(xscale, yscale).error.None? <==> xscale >= 20 && yscale > 50
    ensures DefaultSeed(xscale, yscale).error.Some? ==> DefaultSeed(xscale, yscale).error == Some(IndexOutOfRange)
    ensures forall e :: e in DefaultSeed(xscale, yscale).marked <==>
      yscale > 50 && 0 <= e.0 < 20 && e.0 < xscale && e.1 == 50
    ensures |DefaultSeed(xscale, yscale).marked| == (if yscale <= 50 then 0 else if xscale < 20 then xscale else 20)
  {
    DefaultRowSize(xscale);
    DefaultRowSize(20);
  }
}
