/** Column names and the cell table of crose/feitas_iot/models/data_model.py. */
module Spreadsheet {
  import Decimal

  predicate IsLetter(ch: char) {
    'A' <= ch <= 'Z'
  }

  /** The names of columns: non-empty strings of letters. */
  predicate IsName(s: string) {
    s != [] && forall i :: 0 <= i < |s| ==> IsLetter(s[i])
  }

  function Letter(n: int): char
    requires 0 <= n < 26
  {
    'A' + n as char
  }

  function Name(index: nat): (s: string)
    ensures IsName(s)
  {
    (if index / 26 == 0 then "" else Name(index / 26 - 1)) + [Letter(index % 26)]
  }

  /** The column a name stands for: a number in base 26 without a zero digit. */
  function Index(s: string): nat
    requires IsName(s)
    decreases |s|
  {
    var last := Digit(s[|s| - 1]);
    if |s| == 1 then last else (Index(s[..|s| - 1]) + 1) * 26 + last
  }

  lemma NameStep(current: nat, rest: string)
    ensures Name(current) + rest ==
            (if current / 26 == 0 then "" else Name(current / 26 - 1)) + ([Letter(current % 26)] + rest)
  {
  }

  method ColumnToName(index: nat) returns (name: string)
    ensures name == Name(index) && IsName(name) && Index(name) == index
  {
    name := "";
    var current := index;
    hide Name, Index;
    while true
      invariant Name(index) == Name(current) + name
      decreases current
    {
      var remainder := current % 26;
      var quotient := current / 26;
      NameStep(current, name);
      name := [Letter(remainder)] + name;
      if quotient == 0 {
        break;
      }
      current := quotient - 1;
    }
    IndexOfName(index);
  }

  lemma {:induction false} IndexOfName(index: nat)
    ensures Index(Name(index)) == index
  {
    var s := Name(index);
    if index / 26 != 0 {
      IndexOfName(index / 26 - 1);
      assert s[..|s| - 1] == Name(index / 26 - 1);
    }
  }

  lemma Quotient(q: nat, r: nat)
    requires r < 26
    ensures (q * 26 + r) / 26 == q && (q * 26 + r) % 26 == r
  {
  }

  /** The number from 0 to 25 that a letter stands for. */
  function Digit(ch: char): nat
    requires IsLetter(ch)
  {
    ch as int - 'A' as int
  }

  lemma LetterOfDigit(ch: char)
    requires IsLetter(ch)
    ensures Digit(ch) < 26 && Letter(Digit(ch)) == ch
  {
  }

  lemma NameStepsBack(q: nat, ch: char)
    requires IsLetter(ch)
    ensures Name((q + 1) * 26 + Digit(ch)) == Name(q) + [ch]
  {
    LetterOfDigit(ch);
    hide Digit, Letter;
    Quotient(q + 1, Digit(ch));
  }

  lemma {:induction false} IndexStep(s: string)
    requires IsName(s)
    ensures var last := Digit(s[|s| - 1]);
            if |s| == 1 then Index(s) == last && Name(last) == s
            else IsName(s[..|s| - 1]) && Index(s) == (Index(s[..|s| - 1]) + 1) * 26 + last
  {
    LetterOfDigit(s[|s| - 1]);
    hide Digit, Letter;
    if |s| == 1 {
      assert s == [s[0]];
    }
  }

  /** Every name is the name of a column: with `IndexOfName`, naming is a bijection. */
  lemma {:induction false} NameOfIndex(s: string)
    requires IsName(s)
    ensures Name(Index(s)) == s
    decreases |s|
  {
    IndexStep(s);
    if |s| > 1 {
      var init, last := s[..|s| - 1], s[|s| - 1];
      NameOfIndex(init);
      hide Name, Index, Digit;
      NameStepsBack(Index(init), last);
      assert s == init + [last];
    }
  }

  /** Shorter names first, names of one length in alphabetical order. */
  ghost predicate Precedes(s: string, t: string) {
    |s| < |t| || (|s| == |t| && exists k :: DiffersFirstAt(s, t, k))
  }

  predicate DiffersFirstAt(s: string, t: string, k: nat) {
    k < |s| && k < |t| && s[..k] == t[..k] && s[k] < t[k]
  }

  /** The number of names shorter than `n` letters. */
  function Shorter(n: nat): nat
    requires n > 0
  {
    if n == 1 then 0 else (Shorter(n - 1) + 1) * 26
  }

  lemma {:induction false} IndexBounds(s: string)
    requires IsName(s)
    ensures Shorter(|s|) <= Index(s) < Shorter(|s| + 1)
    decreases |s|
  {
    if |s| > 1 {
      IndexBounds(s[..|s| - 1]);
    } else {
      assert Shorter(2) == 26;
    }
  }

  lemma {:induction false} ShorterGrows(m: nat, n: nat)
    requires 0 < m <= n
    ensures Shorter(m) <= Shorter(n)
  {
    if m < n { ShorterGrows(m, n - 1); }
  }

  lemma {:induction false} SameLength(s: string, t: string, k: nat)
    requires IsName(s) && IsName(t) && |s| == |t| && DiffersFirstAt(s, t, k)
    ensures Index(s) < Index(t)
    decreases |s|
  {
    var n := |s| - 1;
    if k < n {
      assert s[..n][..k] == s[..k] && t[..n][..k] == t[..k];
      SameLength(s[..n], t[..n], k);
    }
  }

  lemma PrecedesIsLess(s: string, t: string)
    requires IsName(s) && IsName(t) && Precedes(s, t)
    ensures Index(s) < Index(t)
  {
    if |s| < |t| {
      IndexBounds(s);
      IndexBounds(t);
      ShorterGrows(|s| + 1, |t|);
    } else {
      var k :| DiffersFirstAt(s, t, k);
      SameLength(s, t, k);
    }
  }

  lemma {:induction false} FirstDifference(s: string, t: string) returns (k: nat)
    requires |s| == |t| && s != t
    ensures DiffersFirstAt(s, t, k) || DiffersFirstAt(t, s, k)
    decreases |s|
  {
    if s[0] != t[0] {
      k := 0;
    } else {
      assert s == [s[0]] + s[1..] && t == [t[0]] + t[1..];
      var j := FirstDifference(s[1..], t[1..]);
      k := j + 1;
      assert s[..k] == [s[0]] + s[1..][..j] && t[..k] == [t[0]] + t[1..][..j];
    }
  }

  /** Column names come in the order of the columns. */
  lemma NamesKeepOrder(i: nat, j: nat)
    ensures i < j <==> Precedes(Name(i), Name(j))
  {
    IndexOfName(i);
    IndexOfName(j);
    if Precedes(Name(i), Name(j)) {
      PrecedesIsLess(Name(i), Name(j));
    } else if i < j {
      if |Name(i)| == |Name(j)| {
        var k := FirstDifference(Name(i), Name(j));
      }
      assert Precedes(Name(j), Name(i));
      PrecedesIsLess(Name(j), Name(i));
    }
  }

  function Shown(n: nat): string {
    var d := Decimal.Digits(n);
    seq(|d|, i requires 0 <= i < |d| => '0' + d[i] as char)
  }

  lemma ShownInjective(m: nat, n: nat)
    requires Shown(m) == Shown(n)
    ensures m == n
  {
    var d, e := Decimal.Digits(m), Decimal.Digits(n);
    assert |d| == |e|;
    forall i | 0 <= i < |d| ensures d[i] == e[i] {
      assert Shown(m)[i] == Shown(n)[i];
    }
    assert d == e;
    Decimal.DigitsInjective(m, n);
  }

  /** Row numbers are written in decimal, the most significant digit first. */
  lemma ShownInPlaces(m: nat, d: nat)
    requires d < 10
    ensures Shown(d) == ["0123456789"[d]]
    ensures m > 0 ==> Shown(10 * m + d) == Shown(m) + Shown(d)
  {
    assert (10 * m + d) / 10 == m && (10 * m + d) % 10 == d;
    assert Decimal.Digits(d) == [d];
  }

  /** The key of a cell, like "AB12". */
  function Cell(col: nat, row: nat): string {
    Name(col) + Shown(row)
  }

  lemma SplitUnique(a: string, b: string, c: string, d: string)
    requires a + b == c + d && b != [] && d != []
    requires (forall i :: 0 <= i < |a| ==> IsLetter(a[i])) && (forall i :: 0 <= i < |c| ==> IsLetter(c[i]))
    requires !IsLetter(b[0]) && !IsLetter(d[0])
    ensures a == c && b == d
  {
    var s := a + b;
    assert s == c + d && s[|a|] == b[0] && s[|c|] == d[0];
    assert forall i :: 0 <= i < |a| ==> IsLetter(s[i]);
    assert forall i :: 0 <= i < |c| ==> IsLetter(s[i]);
    assert |a| == |c|;
    assert a == (a + b)[..|a|] && c == (c + d)[..|c|];
    assert b == (a + b)[|a|..] && d == (c + d)[|c|..];
  }

  /** No two positions share a key. */
  lemma CellInjective(col: nat, row: nat, col': nat, row': nat)
    requires Cell(col, row) == Cell(col', row')
    ensures col == col' && row == row'
  {
    SplitUnique(Name(col), Shown(row), Name(col'), Shown(row'));
    ShownInjective(row, row');
    IndexOfName(col);
    IndexOfName(col');
  }

  /** The header row and the data rows, all of one width. */
  predicate Rectangular(table: seq<seq<string>>) {
    table != [] && forall r :: 0 <= r < |table| ==> |table[r]| == |table[0]|
  }

  /** Position (r, c) comes before position (rows, cols) in reading order. */
  predicate Done(r: int, c: int, rows: int, cols: int) {
    r < rows || (r == rows && c < cols)
  }

  /** The key of position (r, c), counted from zero. */
  function Key(r: nat, c: nat): string {
    Cell(c, r + 1)
  }

  /** `key` belongs to a position before (rows, cols). */
  ghost predicate IsKey(key: string, width: nat, rows: nat, cols: nat) {
    exists r: nat, c: nat :: c < width && Done(r, c, rows, cols) && key == Key(r, c)
  }

  ghost predicate HasTexts(table: seq<seq<string>>, cells: map<string, string>, rows: nat, cols: nat)
    requires Rectangular(table)
  {
    forall r: nat, c: nat {:trigger Key(r, c)} :: r < |table| && c < |table[0]| && Done(r, c, rows, cols) ==>
      Key(r, c) in cells && cells[Key(r, c)] == table[r][c]
  }

  ghost predicate HasKeys(cells: map<string, string>, width: nat, rows: nat, cols: nat) {
    forall key :: key in cells ==> IsKey(key, width, rows, cols)
  }

  /** `cells` holds exactly the positions before (rows, cols), each under its own key. */
  ghost predicate Filled(table: seq<seq<string>>, cells: map<string, string>, rows: nat, cols: nat)
    requires Rectangular(table)
  {
    && HasTexts(table, cells, rows, cols) && HasKeys(cells, |table[0]|, rows, cols)
    && |cells| == rows * |table[0]| + cols
  }

  lemma KeyIsNew(cells: map<string, string>, width: nat, row: nat, col: nat)
    requires HasKeys(cells, width, row, col)
    ensures Key(row, col) !in cells
  {
    if IsKey(Key(row, col), width, row, col) {
      var r: nat, c: nat :| c < width && Done(r, c, row, col) && Key(row, col) == Key(r, c);
      CellInjective(col, row + 1, c, r + 1);
    }
  }

  lemma IsKeyStep(key: string, width: nat, row: nat, col: nat, rows: nat, cols: nat)
    requires IsKey(key, width, row, col) && (row < rows || (row == rows && col <= cols))
    ensures IsKey(key, width, rows, cols)
  {
    hide Key;
    var r: nat, c: nat :| c < width && Done(r, c, row, col) && key == Key(r, c);
    assert Done(r, c, rows, cols);
  }

  lemma HasKeysStep(cells: map<string, string>, width: nat, row: nat, col: nat, text: string)
    requires col < width && HasKeys(cells, width, row, col)
    ensures HasKeys(cells[Key(row, col) := text], width, row, col + 1)
  {
    var cells' := cells[Key(row, col) := text];
    forall key | key in cells' ensures IsKey(key, width, row, col + 1) {
      if key in cells {
        IsKeyStep(key, width, row, col, row, col + 1);
      } else {
        hide Key;
        assert Done(row, col, row, col + 1) && key == Key(row, col);
      }
    }
  }

  lemma {:induction false} FilledStep(table: seq<seq<string>>, cells: map<string, string>, row: nat, col: nat)
    requires Rectangular(table) && row < |table| && col < |table[0]| && Filled(table, cells, row, col)
    ensures Filled(table, cells[Key(row, col) := table[row][col]], row, col + 1)
  {
    KeyIsNew(cells, |table[0]|, row, col);
    HasKeysStep(cells, |table[0]|, row, col, table[row][col]);
    HasTextsStep(table, cells, row, col);
    OneMore(cells, Key(row, col), table[row][col]);
    hide Key, HasKeys, HasTexts;
  }

  lemma OneMore(cells: map<string, string>, key: string, text: string)
    requires key !in cells
    ensures |cells[key := text]| == |cells| + 1
  {
    assert cells[key := text].Keys == cells.Keys + {key};
  }

  lemma HasTextsStep(table: seq<seq<string>>, cells: map<string, string>, row: nat, col: nat)
    requires Rectangular(table) && row < |table| && col < |table[0]|
    requires HasTexts(table, cells, row, col) && Key(row, col) !in cells
    ensures HasTexts(table, cells[Key(row, col) := table[row][col]], row, col + 1)
  {
    hide Key;
  }

  lemma NextRow(table: seq<seq<string>>, cells: map<string, string>, row: nat)
    requires Rectangular(table) && row < |table| && Filled(table, cells, row, |table[0]|)
    ensures Filled(table, cells, row + 1, 0)
  {
    var width := |table[0]|;
    forall key | key in cells ensures IsKey(key, width, row + 1, 0) {
      hide Key, HasTexts;
      IsKeyStep(key, width, row, width, row + 1, 0);
    }
    assert row * width + width == (row + 1) * width;
    hide Key, IsKey;
  }

  /** The length of the longest text of a column in the first `rows` rows. */
  function Longest(table: seq<seq<string>>, col: nat, rows: nat): (m: nat)
    requires Rectangular(table) && col < |table[0]| && 0 < rows <= |table|
    ensures forall r :: 0 <= r < rows ==> |table[r][col]| <= m
    ensures exists r :: 0 <= r < rows && |table[r][col]| == m
  {
    var here := |table[rows - 1][col]|;
    if rows == 1 then here
    else
      var m := Longest(table, col, rows - 1);
      if here > m then here else m
  }

  datatype Sheet = Sheet(colNumber: int, rowNumber: int, cells: map<string, string>, widths: seq<int>)

  /** The lengths of the texts measured before position (row, col). */
  ghost predicate Measured(table: seq<seq<string>>, maxLengths: seq<nat>, row: nat, col: nat)
    requires Rectangular(table) && 0 < row <= |table| && (col > 0 ==> row < |table|)
  {
    |maxLengths| == |table[0]| &&
    forall c :: 0 <= c < |maxLengths| ==> maxLengths[c] == Longest(table, c, if c < col then row + 1 else row)
  }

  function Larger(a: int, b: int): int {
    if a < b then b else a
  }

  /** The header row followed by the data rows. */
  function Table(headers: seq<string>, rows: seq<seq<string>>): (table: seq<seq<string>>)
    requires forall r :: 0 <= r < |rows| ==> |rows[r]| == |headers|
    ensures Rectangular(table) && |table| == |rows| + 1 && table[0] == headers
  {
    [headers] + rows
  }

  /** The part of `_build_spreadsheet_binary_data` that makes the sheet; `rows` are the texts of the data frame. */
  method BuildSheet(headers: seq<string>, rows: seq<seq<string>>) returns (sheet: Sheet)
    requires forall r :: 0 <= r < |rows| ==> |rows[r]| == |headers|
    ensures HasKeys(sheet.cells, |headers|, |rows| + 1, 0)
    ensures HasTexts(Table(headers, rows), sheet.cells, |rows| + 1, 0)
    ensures |sheet.cells| == (|rows| + 1) * |headers|
    ensures |sheet.widths| == |headers|
    ensures forall c :: 0 <= c < |headers| ==>
      sheet.widths[c] == Larger(80, 24 + 7 * Longest(Table(headers, rows), c, |rows| + 1))
    ensures sheet.colNumber == Larger(26, |headers|) && sheet.rowNumber == Larger(100, |rows| + 1)
  {
    ghost var table := Table(headers, rows);
    var cells, maxLengths := FillHeaders(headers, table);
    hide Filled, Measured, HasKeys, HasTexts, Longest, Rectangular;
    for rowIdx := 0 to |rows|
      invariant Filled(table, cells, rowIdx + 1, 0) && Measured(table, maxLengths, rowIdx + 1, 0)
    {
      cells, maxLengths := FillRow(rows[rowIdx], rowIdx + 1, table, cells, maxLengths);
    }
    FilledMeans(table, cells, maxLengths);
    var widths := ColumnWidths(maxLengths);
    sheet := Sheet(Larger(26, |headers|), Larger(100, |rows| + 1), cells, widths);
  }

  method ColumnWidths(maxLengths: seq<nat>) returns (widths: seq<int>)
    ensures |widths| == |maxLengths|
    ensures forall c :: 0 <= c < |widths| ==> widths[c] == Larger(80, 24 + 7 * maxLengths[c])
  {
    widths := [];
    for colIdx := 0 to |maxLengths|
      invariant |widths| == colIdx
      invariant forall c :: 0 <= c < colIdx ==> widths[c] == Larger(80, 24 + 7 * maxLengths[c])
    {
      var width := 24 + maxLengths[colIdx] * 7;
      widths := widths + [Larger(80, width)];
    }
  }

  lemma FilledMeans(table: seq<seq<string>>, cells: map<string, string>, maxLengths: seq<nat>)
    requires Rectangular(table) && Filled(table, cells, |table|, 0) && Measured(table, maxLengths, |table|, 0)
    ensures HasKeys(cells, |table[0]|, |table|, 0) && HasTexts(table, cells, |table|, 0)
    ensures |cells| == |table| * |table[0]| && |maxLengths| == |table[0]|
    ensures forall c :: 0 <= c < |maxLengths| ==> maxLengths[c] == Longest(table, c, |table|)
  {
  }

  method FillHeaders(headers: seq<string>, ghost table: seq<seq<string>>)
    returns (cells: map<string, string>, maxLengths: seq<nat>)
    requires Rectangular(table) && table[0] == headers
    ensures Filled(table, cells, 1, 0) && Measured(table, maxLengths, 1, 0)
  {
    maxLengths := seq(|headers|, i requires 0 <= i < |headers| => |headers[i]|);
    cells := map[];
    FirstRow(table);
    FirstRowKeys();
    hide Filled, Measured, Key, Name, Rectangular;
    for colIdx := 0 to |headers|
      invariant Filled(table, cells, 0, colIdx)
    {
      var name := ColumnToName(colIdx);
      FilledStep(table, cells, 0, colIdx);
      cells := cells[name + "1" := headers[colIdx]];
    }
    NextRow(table, cells, 0);
  }

  lemma FirstRow(table: seq<seq<string>>)
    requires Rectangular(table)
    ensures Filled(table, map[], 0, 0)
    ensures Measured(table, seq(|table[0]|, i requires 0 <= i < |table[0]| => |table[0][i]|), 1, 0)
  {
  }

  lemma FirstRowKeys()
    ensures forall c: nat :: Key(0, c) == Name(c) + "1"
  {
    assert Decimal.Digits(1) == [1];
    assert Shown(1) == "1";
  }

  method FillRow(row: seq<string>, r: nat, ghost table: seq<seq<string>>, cells0: map<string, string>,
                 maxLengths0: seq<nat>)
    returns (cells: map<string, string>, maxLengths: seq<nat>)
    requires Rectangular(table) && 0 < r < |table| && table[r] == row
    requires Filled(table, cells0, r, 0) && Measured(table, maxLengths0, r, 0)
    ensures Filled(table, cells, r + 1, 0) && Measured(table, maxLengths, r + 1, 0)
  {
    cells, maxLengths := cells0, maxLengths0;
    for colIdx := 0 to |row|
      invariant Filled(table, cells, r, colIdx) && Measured(table, maxLengths, r, colIdx)
    {
      var name := ColumnToName(colIdx);
      var text := row[colIdx];
      assert name + Shown(r + 1) == Key(r, colIdx);
      MeasuredStep(table, maxLengths, r, colIdx);
      FilledStep(table, cells, r, colIdx);
      hide Filled, Measured, Key, Name;
      cells := cells[name + Shown(r + 1) := text];
      if colIdx < |maxLengths| && |text| > maxLengths[colIdx] {
        maxLengths := maxLengths[colIdx := |text|];
      }
    }
    MeasuredRow(table, maxLengths, r);
    hide Filled, Measured;
    NextRow(table, cells, r);
  }

  lemma MeasuredStep(table: seq<seq<string>>, maxLengths: seq<nat>, r: nat, col: nat)
    requires Rectangular(table) && 0 < r < |table| && col < |table[0]| && Measured(table, maxLengths, r, col)
    ensures |maxLengths| == |table[0]|
    ensures var n := |table[r][col]|;
            Measured(table, if n > maxLengths[col] then maxLengths[col := n] else maxLengths, r, col + 1)
  {
  }

  lemma MeasuredRow(table: seq<seq<string>>, maxLengths: seq<nat>, r: nat)
    requires Rectangular(table) && 0 < r < |table| && Measured(table, maxLengths, r, |table[0]|)
    ensures Measured(table, maxLengths, r + 1, 0)
  {
  }
}
