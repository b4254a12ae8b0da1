/**
  The staging files: rows written by hand in COPY's text format, and the rules PostgreSQL reads that
  format by. Reading what was written gives back the same rows.
*/
module CopyText {
  import opened Wrappers

  type Cell = Option<string>

  const NULL := "\\N"

  // ---------------------------------------------------------------- writing

  /** Backslashes doubled; tab, carriage return and newline turned into spaces. */
  function Escaped(s: string): string {
    if s == "" then ""
    else (if s[0] == '\\' then "\\\\" else [Blanked(s[0])]) + Escaped(s[1..])
  }

  function Blanked(c: char): char {
    if c == '\t' || c == '\r' || c == '\n' then ' ' else c
  }

  function EncodeCell(v: Cell): string {
    match v
    case None => NULL
    case Some(s) => Escaped(s)
  }

  /** The fields joined by tabs. */
  function Joined(fields: seq<string>): string
    requires fields != []
  {
    if |fields| == 1 then fields[0] else fields[0] + "\t" + Joined(fields[1..])
  }

  function EncodeRow(row: seq<Cell>): string
    requires row != []
  {
    Joined(EncodeCells(row)) + "\n"
  }

  function EncodeCells(row: seq<Cell>): (r: seq<string>)
    ensures |r| == |row|
  {
    if row == [] then [] else [EncodeCell(row[0])] + EncodeCells(row[1..])
  }

  function EncodeRows(rows: seq<seq<Cell>>): string
    requires forall i :: 0 <= i < |rows| ==> rows[i] != []
  {
    if rows == [] then "" else EncodeRow(rows[0]) + EncodeRows(rows[1..])
  }

  // ---------------------------------------------------------------- reading

  /** A raw field as its value: `\N` is NULL, a backslash takes the next character with it. */
  function DecodeField(raw: string): Cell {
    if raw == NULL then None else Some(Unescaped(raw))
  }

  function Unescaped(raw: string): string {
    if raw == "" then ""
    else if raw[0] != '\\' || |raw| == 1 then [raw[0]] + Unescaped(raw[1..])
    else if IsOctal(raw[1]) then
      var n := OctalRun(raw[1..], 3);
      [((OctalValue(raw[1..n + 1])) % 256) as char] + Unescaped(raw[n + 1..])
    else if raw[1] == 'x' && |raw| > 2 && IsHex(raw[2]) then
      var n := if |raw| > 3 && IsHex(raw[3]) then 2 else 1;
      [HexValue(raw[2..n + 2]) as char] + Unescaped(raw[n + 2..])
    else [Letter(raw[1])] + Unescaped(raw[2..])
  }

  function Letter(c: char): char {
    match c
    case 'b' => 8 as char
    case 'f' => 12 as char
    case 'n' => '\n'
    case 'r' => '\r'
    case 't' => '\t'
    case 'v' => 11 as char
    case _ => c
  }

  predicate IsOctal(c: char) { '0' <= c <= '7' }

  predicate IsHex(c: char) { '0' <= c <= '9' || 'a' <= c <= 'f' || 'A' <= c <= 'F' }

  function OctalRun(s: string, most: nat): (n: nat)
    requires s != "" && IsOctal(s[0]) && most >= 1
    ensures 1 <= n <= most && n <= |s| && forall i :: 0 <= i < n ==> IsOctal(s[i])
    decreases most
  {
    if most > 1 && |s| > 1 && IsOctal(s[1]) then 1 + OctalRun(s[1..], most - 1) else 1
  }

  function OctalValue(s: string): nat
    requires forall i :: 0 <= i < |s| ==> IsOctal(s[i])
  {
    if s == "" then 0 else 8 * OctalValue(s[..|s| - 1]) + OctalDigit(s[|s| - 1])
  }

  function OctalDigit(c: char): nat
    requires IsOctal(c)
  {
    c as int - '0' as int
  }

  function HexDigit(c: char): (d: nat)
    requires IsHex(c)
    ensures d < 16
  {
    if c <= '9' then c as int - '0' as int
    else if c <= 'F' then c as int - 'A' as int + 10
    else c as int - 'a' as int + 10
  }

  function HexValue(s: string): (v: nat)
    requires 1 <= |s| <= 2 && forall i :: 0 <= i < |s| ==> IsHex(s[i])
    ensures v < 256
  {
    if |s| == 1 then HexDigit(s[0]) else 16 * HexDigit(s[0]) + HexDigit(s[1])
  }

  datatype Error = BareCarriageReturn | StrayEndMarker

  /** The reader at one point of the file: `field` is the raw field so far, `row` the fields before it on
      the line. A backslash and the character after it stay together; a tab ends a field, a newline a
      line, and a line of its own that is a backslash and a dot ends the data. */
  function Scan(s: string, field: string, row: seq<Cell>, rows: seq<seq<Cell>>): Result<seq<seq<Cell>>, Error>
    decreases |s|
  {
    if s == "" then
      Success(if field == "" && row == [] then rows else rows + [row + [DecodeField(field)]])
    else if s[0] == '\\' && |s| > 1 then
      if s[1] == '.' then
        if field == "" && row == [] && (|s| == 2 || s[2] == '\n') then Success(rows) else Failure(StrayEndMarker)
      else Scan(s[2..], field + s[..2], row, rows)
    else if s[0] == '\t' then Scan(s[1..], "", row + [DecodeField(field)], rows)
    else if s[0] == '\n' then Scan(s[1..], "", [], rows + [row + [DecodeField(field)]])
    else if s[0] == '\r' then Failure(BareCarriageReturn)
    else Scan(s[1..], field + [s[0]], row, rows)
  }

  function Read(file: string): Result<seq<seq<Cell>>, Error> {
    Scan(file, "", [], [])
  }

  // ---------------------------------------------------------------- there and back

  /** What a cell may be read back as: nothing exactly where there was nothing, otherwise the value with
      only tabs, carriage returns and newlines turned into spaces. */
  ghost predicate SameCell(v: Cell, w: Cell) {
    && (w == None <==> v == None)
    && (v.Some? && w.Some? ==> SameText(v.value, w.value))
  }

  ghost predicate SameText(v: string, w: string) {
    && |w| == |v|
    && forall k :: 0 <= k < |v| ==> w[k] == if v[k] in {'\t', '\r', '\n'} then ' ' else v[k]
  }

  ghost predicate SameRow(row: seq<Cell>, out: seq<Cell>) {
    |out| == |row| && forall j :: 0 <= j < |row| ==> SameCell(row[j], out[j])
  }

  ghost predicate SameRows(rows: seq<seq<Cell>>, out: seq<seq<Cell>>) {
    |out| == |rows| && forall i :: 0 <= i < |rows| ==> SameRow(rows[i], out[i])
  }

  function Spaced(s: string): string {
    seq(|s|, i requires 0 <= i < |s| => Blanked(s[i]))
  }

  /** What a cell is read back as. */
  function Clean(v: Cell): Cell {
    match v
    case None => None
    case Some(s) => Some(Spaced(s))
  }

  function CleanRow(row: seq<Cell>): seq<Cell> {
    seq(|row|, i requires 0 <= i < |row| => Clean(row[i]))
  }

  function CleanRows(rows: seq<seq<Cell>>): seq<seq<Cell>> {
    seq(|rows|, i requires 0 <= i < |rows| => CleanRow(rows[i]))
  }

  lemma CleanIsTheSame(v: Cell)
    ensures SameCell(v, Clean(v))
  {
  }

  lemma CleanRowIsTheSame(row: seq<Cell>)
    ensures SameRow(row, CleanRow(row))
  {
    hide SameCell, Clean;
    forall j | 0 <= j < |row| ensures SameCell(row[j], CleanRow(row)[j]) { CleanIsTheSame(row[j]); }
  }

  lemma CleanRowsAreTheSame(rows: seq<seq<Cell>>)
    ensures SameRows(rows, CleanRows(rows))
  {
    hide SameRow, CleanRow;
    forall i | 0 <= i < |rows| ensures SameRow(rows[i], CleanRows(rows)[i]) { CleanRowIsTheSame(rows[i]); }
  }

  lemma {:induction false} ScanTakesEscaped(v: string, rest: string, field: string, row: seq<Cell>,
                                            rows: seq<seq<Cell>>)
    ensures Scan(Escaped(v) + rest, field, row, rows) == Scan(rest, field + Escaped(v), row, rows)
  {
    if v == "" {
      assert Escaped(v) + rest == rest && field + Escaped(v) == field;
    } else {
      var head := if v[0] == '\\' then "\\\\" else [Blanked(v[0])];
      var tail := Escaped(v[1..]) + rest;
      assert Escaped(v) == head + Escaped(v[1..]);
      assert Escaped(v) + rest == head + tail;
      assert (head + tail)[|head|..] == tail && (head + tail)[..|head|] == head;
      assert Scan(head + tail, field, row, rows) == Scan(tail, field + head, row, rows);
      ScanTakesEscaped(v[1..], rest, field + head, row, rows);
      assert field + head + Escaped(v[1..]) == field + Escaped(v);
    }
  }

  lemma {:induction false} UnescapedUndoesEscaped(v: string)
    ensures Unescaped(Escaped(v)) == Spaced(v)
    ensures SameText(v, Unescaped(Escaped(v)))
  {
    if v != "" {
      var head := if v[0] == '\\' then "\\\\" else [Blanked(v[0])];
      var tail := Escaped(v[1..]);
      assert Escaped(v) == head + tail && (head + tail)[|head|..] == tail;
      UnescapedUndoesEscaped(v[1..]);
      assert Spaced(v) == [Blanked(v[0])] + Spaced(v[1..]);
      assert Unescaped(head + tail) == [Blanked(v[0])] + Unescaped(tail);
    }
  }

  /** A value is never taken for NULL, not even the text `\N`, and NULL is never taken for a value. */
  lemma CellSurvives(v: Cell)
    ensures DecodeField(EncodeCell(v)) == Clean(v)
    ensures SameCell(v, DecodeField(EncodeCell(v)))
  {
    if v.Some? {
      UnescapedUndoesEscaped(v.value);
      if v.value != "" && v.value[0] == '\\' {
        assert Escaped(v.value)[1] == '\\';
      }
    }
  }

  lemma ScanTakesCell(v: Cell, rest: string, row: seq<Cell>, rows: seq<seq<Cell>>)
    ensures Scan(EncodeCell(v) + rest, "", row, rows) == Scan(rest, EncodeCell(v), row, rows)
  {
    match v
    case None =>
      assert (NULL + rest)[2..] == rest && (NULL + rest)[..2] == NULL;
      assert "" + NULL == NULL;
    case Some(s) =>
      ScanTakesEscaped(s, rest, "", row, rows);
      assert "" + Escaped(s) == Escaped(s);
  }

  lemma {:induction false} ScanTakesRow(cells: seq<Cell>, rest: string, row: seq<Cell>, rows: seq<seq<Cell>>)
    requires cells != []
    ensures Scan(Joined(EncodeCells(cells)) + "\n" + rest, "", row, rows)
         == Scan(rest, "", [], rows + [row + CleanRow(cells)])
    ensures SameRow(cells, CleanRow(cells))
  {
    hide Scan, DecodeField, EncodeCell, SameCell, SameRow;
    CleanRowIsTheSame(cells);
    var v := cells[0];
    CellSurvives(v);
    if |cells| == 1 {
      assert EncodeCells(cells) == [EncodeCell(v)] && CleanRow(cells) == [Clean(v)];
      assert EncodeCell(v) + "\n" + rest == EncodeCell(v) + ("\n" + rest);
      ScanTakesCell(v, "\n" + rest, row, rows);
      ScanEndsField(EncodeCell(v), rest, row, rows);
    } else {
      var more := Joined(EncodeCells(cells[1..])) + "\n" + rest;
      assert EncodeCells(cells) == [EncodeCell(v)] + EncodeCells(cells[1..]);
      assert Joined(EncodeCells(cells)) + "\n" + rest == EncodeCell(v) + ("\t" + more);
      ScanTakesCell(v, "\t" + more, row, rows);
      ScanEndsField(EncodeCell(v), more, row, rows);
      ScanTakesRow(cells[1..], rest, row + [Clean(v)], rows);
      assert row + [Clean(v)] + CleanRow(cells[1..]) == row + CleanRow(cells);
    }
  }

  lemma ScanEndsField(field: string, rest: string, row: seq<Cell>, rows: seq<seq<Cell>>)
    ensures Scan("\t" + rest, field, row, rows) == Scan(rest, "", row + [DecodeField(field)], rows)
    ensures Scan("\n" + rest, field, row, rows) == Scan(rest, "", [], rows + [row + [DecodeField(field)]])
  {
    assert ("\t" + rest)[1..] == rest && ("\n" + rest)[1..] == rest;
  }

  lemma {:induction false} ScanTakesRows(file: seq<seq<Cell>>, rows: seq<seq<Cell>>)
    requires forall i :: 0 <= i < |file| ==> file[i] != []
    ensures Scan(EncodeRows(file), "", [], rows) == Success(rows + CleanRows(file))
  {
    if file == [] {
      assert rows + CleanRows(file) == rows;
    } else {
      var rest := EncodeRows(file[1..]);
      ScanTakesRow(file[0], rest, [], rows);
      assert [] + CleanRow(file[0]) == CleanRow(file[0]);
      ScanTakesRows(file[1..], rows + [CleanRow(file[0])]);
      assert rows + [CleanRow(file[0])] + CleanRows(file[1..]) == rows + CleanRows(file);
    }
  }

  /** Reading a written file gives the same number of rows and fields, each value with only tabs,
      carriage returns and newlines turned into spaces, and NULL exactly where there was no value. */
  lemma ReadUndoesWrite(file: seq<seq<Cell>>)
    requires forall i :: 0 <= i < |file| ==> file[i] != []
    ensures Read(EncodeRows(file)) == Success(CleanRows(file))
    ensures SameRows(file, CleanRows(file))
  {
    hide Scan, EncodeRows, SameRows;
    ScanTakesRows(file, []);
    assert [] + CleanRows(file) == CleanRows(file);
    CleanRowsAreTheSame(file);
  }

  lemma {:induction false} EncodeRowsAppend(rows: seq<seq<Cell>>, row: seq<Cell>)
    requires row != [] && forall i :: 0 <= i < |rows| ==> rows[i] != []
    ensures EncodeRows(rows + [row]) == EncodeRows(rows) + EncodeRow(row)
  {
    if rows == [] {
      assert EncodeRows([row]) == EncodeRow(row) + "";
    } else {
      assert (rows + [row])[1..] == rows[1..] + [row];
      EncodeRowsAppend(rows[1..], row);
    }
  }

  /** The loaders write row by row; no table they load has zero columns. */
  method WriteFile(rows: seq<seq<Cell>>) returns (file: string)
    requires forall i :: 0 <= i < |rows| ==> rows[i] != []
    ensures file == EncodeRows(rows)
    ensures Read(file) == Success(CleanRows(rows)) && SameRows(rows, Read(file).value)
  {
    file := "";
    for i := 0 to |rows|
      invariant file == EncodeRows(rows[..i])
    {
      assert rows[..i + 1] == rows[..i] + [rows[i]];
      EncodeRowsAppend(rows[..i], rows[i]);
      file := file + EncodeRow(rows[i]);
    }
    assert rows[..|rows|] == rows;
    ReadUndoesWrite(rows);
  }

  // ---------------------------------------------------------------- the charge points' cells

  /** What `str.strip` removes. */
  predicate IsSpace(c: char) {
    var n := c as int;
    || 9 <= n <= 13 || 28 <= n <= 32 || n == 0x85 || n == 0xA0 || n == 0x1680 || 0x2000 <= n <= 0x200A
    || n == 0x2028 || n == 0x2029 || n == 0x202F || n == 0x205F || n == 0x3000
  }

  function Stripped(s: string): string {
    if s != "" && IsSpace(s[0]) then Stripped(s[1..])
    else if s != "" && IsSpace(s[|s| - 1]) then Stripped(s[..|s| - 1])
    else s
  }

  /** The charge points' loader strips its values and writes NULL for blank ones. */
  function ChargerCell(v: Cell): string {
    if v.Some? && Stripped(v.value) != "" then Escaped(Stripped(v.value)) else NULL
  }

  /** The spaces one by one. */
  lemma SpacesAre(c: char)
    ensures IsSpace(c) <==> c as int in {
      9, 10, 11, 12, 13, 28, 29, 30, 31, 32, 0x85, 0xA0, 0x1680, 0x2000, 0x2001, 0x2002, 0x2003, 0x2004, 0x2005,
      0x2006, 0x2007, 0x2008, 0x2009, 0x200A, 0x2028, 0x2029, 0x202F, 0x205F, 0x3000}
  {
  }

  ghost predicate AllSpaces(s: string) {
    forall k :: 0 <= k < |s| ==> IsSpace(s[k])
  }

  /** The stretch of s between its first and its last character that is no space. */
  ghost predicate Core(s: string, lo: nat, hi: nat) {
    && lo < hi <= |s| && !IsSpace(s[lo]) && !IsSpace(s[hi - 1])
    && AllSpaces(s[..lo]) && AllSpaces(s[hi..])
  }

  /** The cell is NULL exactly when it is missing or blank, and otherwise what lies between the first and
      the last character that is no space. */
  lemma ChargerCellSurvives(v: Cell)
    ensures DecodeField(ChargerCell(v)) == None <==> v == None || AllSpaces(v.value)
    ensures v.Some? && !AllSpaces(v.value) ==>
      exists lo: nat, hi: nat :: Core(v.value, lo, hi) && SameText(v.value[lo..hi], DecodeField(ChargerCell(v)).value)
  {
    if v.Some? {
      var s := v.value;
      CellSurvives(Some(Stripped(s)));
      BlankStripsToNothing(s);
      assert AllSpaces(s) <==> forall c :: c in s ==> IsSpace(c);
      if Stripped(s) != "" {
        var lo, hi := StrippedIsTheCore(s);
        assert SameText(s[lo..hi], DecodeField(ChargerCell(v)).value);
      }
    }
  }

  lemma CoreAfterASpace(s: string, lo: nat, hi: nat)
    requires s != "" && IsSpace(s[0]) && Core(s[1..], lo, hi)
    ensures Core(s, lo + 1, hi + 1) && s[lo + 1..hi + 1] == s[1..][lo..hi]
  {
    hide IsSpace;
    var tail := s[1..];
    assert s == [s[0]] + tail;
    assert s[lo + 1..hi + 1] == tail[lo..hi];
    assert s[..lo + 1] == [s[0]] + tail[..lo];
    assert s[hi + 1..] == tail[hi..];
  }

  lemma CoreBeforeASpace(s: string, lo: nat, hi: nat)
    requires s != "" && IsSpace(s[|s| - 1]) && Core(s[..|s| - 1], lo, hi)
    ensures Core(s, lo, hi) && s[lo..hi] == s[..|s| - 1][lo..hi]
  {
    hide IsSpace;
    var front := s[..|s| - 1];
    assert s == front + [s[|s| - 1]];
    assert s[lo..hi] == front[lo..hi];
    assert s[..lo] == front[..lo];
    assert s[hi..] == front[hi..] + [s[|s| - 1]];
  }

  lemma {:induction false} StrippedIsTheCore(s: string) returns (lo: nat, hi: nat)
    requires Stripped(s) != ""
    ensures Core(s, lo, hi) && Stripped(s) == s[lo..hi]
    decreases |s|
  {
    if s != "" && IsSpace(s[0]) {
      hide Core, IsSpace;
      lo, hi := StrippedIsTheCore(s[1..]);
      CoreAfterASpace(s, lo, hi);
      lo, hi := lo + 1, hi + 1;
    } else if s != "" && IsSpace(s[|s| - 1]) {
      hide Core, IsSpace;
      lo, hi := StrippedIsTheCore(s[..|s| - 1]);
      CoreBeforeASpace(s, lo, hi);
    } else {
      hide IsSpace;
      lo, hi := 0, |s|;
    }
  }

  lemma {:induction false} BlankStripsToNothing(s: string)
    ensures Stripped(s) == "" <==> forall c :: c in s ==> IsSpace(c)
  {
    if s != "" && IsSpace(s[0]) {
      BlankStripsToNothing(s[1..]);
      assert s == [s[0]] + s[1..];
    } else if s != "" && IsSpace(s[|s| - 1]) {
      BlankStripsToNothing(s[..|s| - 1]);
      assert s == s[..|s| - 1] + [s[|s| - 1]];
    }
  }
}
