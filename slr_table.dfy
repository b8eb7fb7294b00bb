/**
 * The table generator of table/SLR.py: `parse_ops` reads one cell of the SLR table as exported
 * to CSV, a `Builder` collects cells row by row into the text of a C initialiser, and the main
 * loop routes each CSV column to the goto builder or the shift-reduce builder. The CSV file is
 * a parameter: a sequence of rows, each a sequence of (column name, cell text) pairs in header order.
 */
module TableGenerator {
  import opened Wrappers
  import opened Slr

  /** `NON_TERMINAL`: the columns that go to the goto table. */
  const NON_TERMINAL: set<string> := {"S", "F", "A", "T", "C", "E", "I", "B", "R"}

  /** The `ValueError` of Python's `int` on a text that is not an integer. */
  datatype CellError = NotAnInteger(text: string)

  /** A cell as `push_cell` receives it: the operation's kind and its value. */
  datatype Cell = Cell(op: OpKind, value: int)

  /** The operation names the generated C code refers to. */
  function OpName(k: OpKind): string {
    match k
    case ShiftOp => "SLR_SHIFT"
    case ReduceOp => "SLR_REDUCE"
    case GotoOp => "SLR_GOTO"
    case EmptyOp => "SLR_EMPTY"
  }

  // ---------------------------------------------------------------------------------------------
  // Decimal integers: Python's `int(text)` and `f"{value}"`

  /** `str.isdigit` on ASCII text, which is also the set of digits `int` is modelled to accept. */
  predicate IsAsciiDigit(c: char) { '0' <= c <= '9' }

  predicate AllDigits(s: string) { forall i :: 0 <= i < |s| ==> IsAsciiDigit(s[i]) }

  function DigitChar(d: nat): (c: char)
    requires d < 10
    ensures IsAsciiDigit(c)
  {
    ('0' as int + d) as char
  }

  /** The number a string of decimal digits denotes, leading zeros allowed. */
  function DigitsValue(s: string): nat
    requires AllDigits(s)
  {
    if s == [] then 0 else 10 * DigitsValue(s[..|s| - 1]) + (s[|s| - 1] as int - '0' as int)
  }

  /** `int(text)` on an optionally signed run of decimal digits; None where Python raises `ValueError`. */
  function ParseInt(text: string): (r: Option<int>)
    ensures r.Some? ==> text != []
  {
    if text == [] then None
    else if text[0] == '-' || text[0] == '+' then
      var digits := text[1..];
      if digits != [] && AllDigits(digits) then
        var n: int := DigitsValue(digits);
        Some(if text[0] == '-' then -n else n)
      else None
    else if AllDigits(text) then Some(DigitsValue(text))
    else None
  }

  /** `f"{value}"` for a non-negative value: its decimal digits, without leading zeros. */
  function NatToString(n: nat): (s: string)
    ensures s != [] && AllDigits(s)
    ensures s[0] == '0' ==> n == 0
  {
    if n < 10 then [DigitChar(n)] else NatToString(n / 10) + [DigitChar(n % 10)]
  }

  /** `f"{value}"`: a minus sign before negative values. */
  function IntToString(v: int): (s: string)
    ensures s != [] && (s[0] == '-' <==> v < 0)
  {
    if v < 0 then "-" + NatToString(-v) else NatToString(v)
  }

  /** The digits of `n` read back are `n`. */
  lemma {:induction false} NatToStringInverts(n: nat)
    ensures DigitsValue(NatToString(n)) == n
    decreases n
  {
    if n >= 10 {
      var s := NatToString(n);
      assert s[..|s| - 1] == NatToString(n / 10);
      NatToStringInverts(n / 10);
    }
  }

  /** `int(f"{value}") == value` for every integer. */
  lemma IntToStringInverts(v: int)
    ensures ParseInt(IntToString(v)) == Some(v)
  {
    if v < 0 {
      NatToStringInverts(-v);
      assert IntToString(v)[1..] == NatToString(-v);
    } else {
      NatToStringInverts(v);
    }
  }

  /** The text of an integer holds no bracket and no comma. */
  lemma IntToStringChars(v: int)
    ensures '}' !in IntToString(v) && ',' !in IntToString(v) && '{' !in IntToString(v)
  {
    var s := IntToString(v);
    if v < 0 {
      assert forall i :: 1 <= i < |s| ==> s[i] == NatToString(-v)[i - 1];
    }
  }

  // ---------------------------------------------------------------------------------------------
  // `parse_ops`

  /**
   * `parse_ops`: an empty cell is Empty; a cell that starts with a digit is a goto to `int(raw)`;
   * `s<n>` and `r<n>` shift to state `n` and reduce by production `n`; anything else (an `acc`
   * cell among them) is Empty. The error is the `ValueError` of `int`.
   */
  function ParseOps(raw: string): (r: Result<Cell, CellError>)
    ensures raw == [] ==> r == Ok(Cell(EmptyOp, 0))
    ensures r.Err? ==> raw != [] && (IsAsciiDigit(raw[0]) || raw[0] == 's' || raw[0] == 'r')
  {
    if |raw| == 0 then Ok(Cell(EmptyOp, 0))
    else if IsAsciiDigit(raw[0]) then ToCell(GotoOp, raw)
    else if raw[0] == 's' then ToCell(ShiftOp, raw[1..])
    else if raw[0] == 'r' then ToCell(ReduceOp, raw[1..])
    else Ok(Cell(EmptyOp, 0))
  }

  /** `(op, int(text))`, or the error of `int`. */
  function ToCell(op: OpKind, text: string): (r: Result<Cell, CellError>)
    ensures r.Ok? <==> ParseInt(text).Some?
    ensures r.Ok? ==> r.value == Cell(op, ParseInt(text).value)
  {
    match ParseInt(text)
    case None => Err(NotAnInteger(text))
    case Some(v) => Ok(Cell(op, v))
  }

  /**
   * `(op, int(text))` reads back every integer `f"{value}"` prints, and raises on an empty text, a
   * lone sign, and any text with a character other than a digit after an optional leading sign.
   */
  lemma ToCellReads(op: OpKind, v: int, text: string)
    ensures ToCell(op, IntToString(v)) == Ok(Cell(op, v))
    ensures text == [] || text == "-" || text == "+" ==> ToCell(op, text) == Err(NotAnInteger(text))
    ensures text != [] && !IsAsciiDigit(text[0]) && text[0] != '-' && text[0] != '+' ==> ToCell(op, text) == Err(NotAnInteger(text))
    ensures (exists i :: 1 <= i < |text| && !IsAsciiDigit(text[i])) ==> ToCell(op, text) == Err(NotAnInteger(text))
  {
    IntToStringInverts(v);
    if exists i :: 1 <= i < |text| && !IsAsciiDigit(text[i]) {
      var i :| 1 <= i < |text| && !IsAsciiDigit(text[i]);
      assert text[1..][i - 1] == text[i];
    }
  }

  /** The text a table exporter writes for a cell: `s<n>`, `r<n>`, `<n>` or nothing. */
  function CellSource(c: Cell): string {
    match c.op
    case ShiftOp => "s" + IntToString(c.value)
    case ReduceOp => "r" + IntToString(c.value)
    case GotoOp => IntToString(c.value)
    case EmptyOp => ""
  }

  /**
   * `parse_ops` reads back every cell written as `s<n>`, `r<n>`, `<n>` or an empty cell, except
   * that a negative goto starts with `-`, not a digit, and so reads as Empty.
   */
  lemma ParseOpsInverts(c: Cell)
    ensures c.op == EmptyOp ==> ParseOps(CellSource(c)) == Ok(Cell(EmptyOp, 0))
    ensures c.op == GotoOp && c.value < 0 ==> ParseOps(CellSource(c)) == Ok(Cell(EmptyOp, 0))
    ensures c.op != EmptyOp && (c.op == GotoOp ==> c.value >= 0) ==> ParseOps(CellSource(c)) == Ok(c)
  {
    IntToStringInverts(c.value);
    if c.op == ShiftOp || c.op == ReduceOp {
      assert CellSource(c)[1..] == IntToString(c.value);
    } else if c.op == GotoOp && c.value >= 0 {
      assert IsAsciiDigit(CellSource(c)[0]);
    }
  }

  // ---------------------------------------------------------------------------------------------
  // The C initialiser text a `Builder` produces

  /** Python's `sep.join(parts)`. */
  function Join(sep: string, parts: seq<string>): string
    decreases |parts|
  {
    if parts == [] then "" else if |parts| == 1 then parts[0] else parts[0] + sep + Join(sep, parts[1..])
  }

  function Braced(s: string): string { "{" + s + "}" }

  /** What `push_cell` appends: `{op, value}`. */
  function CellText(c: Cell): string {
    Braced(OpName(c.op) + ", " + IntToString(c.value))
  }

  /** The texts of cells, in order. */
  function CellTexts(cells: seq<Cell>): (r: seq<string>)
    ensures |r| == |cells|
  {
    if cells == [] then [] else [CellText(cells[0])] + CellTexts(cells[1..])
  }

  /** A cell added at the end adds its text at the end. */
  lemma {:induction false} CellTextsSnoc(cells: seq<Cell>, c: Cell)
    ensures CellTexts(cells + [c]) == CellTexts(cells) + [CellText(c)]
    decreases |cells|
  {
    if cells != [] {
      assert (cells + [c])[1..] == cells[1..] + [c];
      CellTextsSnoc(cells[1..], c);
    } else {
      assert CellTexts([c]) == [CellText(c)] + CellTexts([]);
    }
  }

  /** What `new_line` appends for a row of cells. */
  function RowText(cells: seq<Cell>): string {
    Braced(Join(",", CellTexts(cells)))
  }

  /** The texts of rows, in order. */
  function RowTexts(rows: seq<seq<Cell>>): (r: seq<string>)
    ensures |r| == |rows|
  {
    if rows == [] then [] else [RowText(rows[0])] + RowTexts(rows[1..])
  }

  /** A row added at the end adds its text at the end. */
  lemma {:induction false} RowTextsSnoc(rows: seq<seq<Cell>>, row: seq<Cell>)
    ensures RowTexts(rows + [row]) == RowTexts(rows) + [RowText(row)]
    decreases |rows|
  {
    if rows != [] {
      assert (rows + [row])[1..] == rows[1..] + [row];
      RowTextsSnoc(rows[1..], row);
    } else {
      assert RowTexts([row]) == [RowText(row)] + RowTexts([]);
    }
  }

  /** What `build` returns for the rows finished so far: a C initialiser of one brace list per row. */
  function TableText(rows: seq<seq<Cell>>): string {
    Braced(Join(",", RowTexts(rows)))
  }

  /** `Builder`: the texts of the finished rows, and of the cells of the row being filled. */
  class Builder {
    var table: seq<string>
    var row: seq<string>
    /** The finished rows and the pending row, as cells. */
    ghost var rows: seq<seq<Cell>>
    ghost var cells: seq<Cell>

    ghost predicate Valid()
      reads this
    {
      table == RowTexts(rows) && row == CellTexts(cells)
    }

    /** `Builder()`: no rows, and an empty pending row. */
    constructor ()
      ensures Valid() && rows == [] && cells == []
    {
      table, row := [], [];
      rows, cells := [], [];
    }

    /** `push_cell`: the cell's text joins the pending row; the finished rows stay as they are. */
    method PushCell(op: OpKind, value: int)
      requires Valid()
      modifies this
      ensures Valid() && rows == old(rows) && cells == old(cells) + [Cell(op, value)]
      ensures table == old(table) && row == old(row) + [CellText(Cell(op, value))]
    {
      row := row + [Braced(OpName(op) + ", " + IntToString(value))];
      CellTextsSnoc(cells, Cell(op, value));
      cells := cells + [Cell(op, value)];
    }

    /** `new_line`: the pending row, joined with commas and braced, becomes the last finished row; the pending row empties. */
    method NewLine()
      requires Valid()
      modifies this
      ensures Valid() && rows == old(rows) + [old(cells)] && cells == []
      ensures table == old(table) + [Braced(Join(",", old(row)))] && row == []
    {
      table := table + [Braced(Join(",", row))];
      RowTextsSnoc(rows, cells);
      row := [];
      rows, cells := rows + [cells], [];
    }

    /** `build`: the initialiser of the finished rows; the pending row is not part of it. */
    method Build() returns (text: string)
      requires Valid()
      ensures text == TableText(rows)
    {
      text := Braced(Join(",", table));
    }
  }
  // ---------------------------------------------------------------------------------------------
  // Reading the initialiser back, as a C compiler reads `{{SLR_GOTO, 3},...}`

  /** The text before the first `c` and the text after it; None when `c` does not occur. */
  function SplitAt(c: char, s: string): (r: Option<(string, string)>)
    ensures r.Some? ==> |r.value.0| + 1 + |r.value.1| == |s|
  {
    if s == [] then None
    else if s[0] == c then Some(([], s[1..]))
    else match SplitAt(c, s[1..])
      case None => None
      case Some(parts) => Some(([s[0]] + parts.0, parts.1))
  }

  lemma {:induction false} SplitAtFirst(c: char, a: string, b: string)
    requires c !in a
    ensures SplitAt(c, a + [c] + b) == Some((a, b))
    decreases |a|
  {
    if a != [] {
      assert (a + [c] + b)[0] == a[0] != c;
      assert (a + [c] + b)[1..] == a[1..] + [c] + b;
      SplitAtFirst(c, a[1..], b);
      assert [a[0]] + a[1..] == a;
    } else {
      assert (a + [c] + b)[1..] == b;
    }
  }

  /** The operation kind a name stands for. */
  function KindOfName(name: string): (r: Option<OpKind>)
    ensures r.Some? ==> OpName(r.value) == name
  {
    if name == "SLR_SHIFT" then Some(ShiftOp)
    else if name == "SLR_REDUCE" then Some(ReduceOp)
    else if name == "SLR_GOTO" then Some(GotoOp)
    else if name == "SLR_EMPTY" then Some(EmptyOp)
    else None
  }

  /** One `{NAME, value}` at the start of `s`, and the text after it. */
  function ParseCell(s: string): (r: Option<(Cell, string)>)
    ensures r.Some? ==> |r.value.1| < |s|
  {
    if s == [] || s[0] != '{' then None
    else match SplitAt(',', s[1..])
      case None => None
      case Some(nameAndRest) =>
        var (name, t) := nameAndRest;
        if t == [] || t[0] != ' ' then None
        else match SplitAt('}', t[1..])
          case None => None
          case Some(numberAndRest) =>
            var (number, rest) := numberAndRest;
            match (KindOfName(name), ParseInt(number))
            case (Some(k), Some(v)) => Some((Cell(k, v), rest))
            case _ => None
  }

  /** Comma-separated cells at the start of `s`, and the text after the last one. */
  function ParseCellList(s: string): (r: Option<(seq<Cell>, string)>)
    ensures r.Some? ==> |r.value.1| < |s|
    decreases |s|
  {
    match ParseCell(s)
    case None => None
    case Some(first) =>
      var (c, t) := first;
      if t != [] && t[0] == ',' then
        match ParseCellList(t[1..])
        case None => None
        case Some(more) => Some(([c] + more.0, more.1))
      else Some(([c], t))
  }

  /** One braced row of cells at the start of `s`, and the text after it. */
  function ParseRow(s: string): (r: Option<(seq<Cell>, string)>)
    ensures r.Some? ==> |r.value.1| < |s|
  {
    if |s| >= 2 && s[0] == '{' && s[1] == '}' then Some(([], s[2..]))
    else if s == [] || s[0] != '{' then None
    else match ParseCellList(s[1..])
      case None => None
      case Some(cellsAndRest) =>
        var (cells, t) := cellsAndRest;
        if t != [] && t[0] == '}' then Some((cells, t[1..])) else None
  }

  /** Comma-separated rows at the start of `s`, and the text after the last one. */
  function ParseRowList(s: string): (r: Option<(seq<seq<Cell>>, string)>)
    ensures r.Some? ==> |r.value.1| < |s|
    decreases |s|
  {
    match ParseRow(s)
    case None => None
    case Some(first) =>
      var (row, t) := first;
      if t != [] && t[0] == ',' then
        match ParseRowList(t[1..])
        case None => None
        case Some(more) => Some(([row] + more.0, more.1))
      else Some(([row], t))
  }

  /** The rows of cells a whole initialiser denotes. */
  function DecodeTable(s: string): Option<seq<seq<Cell>>> {
    if s == "{}" then Some([])
    else if s == [] || s[0] != '{' then None
    else match ParseRowList(s[1..])
      case None => None
      case Some(rowsAndRest) => if rowsAndRest.1 == "}" then Some(rowsAndRest.0) else None
  }

  lemma OpNameChars(k: OpKind)
    ensures ',' !in OpName(k) && KindOfName(OpName(k)) == Some(k)
  {
  }

  /** The text of a cell reads back as the cell. */
  lemma CellTextInverts(c: Cell, rest: string)
    ensures ParseCell(CellText(c) + rest) == Some((c, rest))
  {
    var name, number := OpName(c.op), IntToString(c.value);
    OpNameChars(c.op);
    IntToStringChars(c.value);
    IntToStringInverts(c.value);
    var s := CellText(c) + rest;
    assert s[1..] == name + [','] + (" " + number + ['}'] + rest);
    SplitAtFirst(',', name, " " + number + ['}'] + rest);
    assert (" " + number + ['}'] + rest)[1..] == number + ['}'] + rest;
    SplitAtFirst('}', number, rest);
  }

  /** `sep.join` of two or more parts, followed by `rest`: the first part, then the separator and the others. */
  lemma JoinCons(parts: seq<string>, rest: string)
    requires |parts| >= 2
    ensures Join(",", parts) + rest == parts[0] + ("," + (Join(",", parts[1..]) + rest))
  {
  }

  /** A cell followed by a comma and a list of cells is a list of cells. */
  lemma CellListCons(s: string, c: Cell, t: string, more: seq<Cell>, rest: string)
    requires ParseCell(s) == Some((c, "," + t)) && ParseCellList(t) == Some((more, rest))
    ensures ParseCellList(s) == Some(([c] + more, rest))
  {
    assert ("," + t)[1..] == t;
  }

  /** A cell followed by anything but a comma is a list of one cell. */
  lemma CellListOne(s: string, c: Cell, rest: string)
    requires ParseCell(s) == Some((c, rest)) && (rest == [] || rest[0] != ',')
    ensures ParseCellList(s) == Some(([c], rest))
  {
  }

  /** Joined cell texts, followed by anything but a comma, read back as the cells. */
  lemma {:induction false} CellListInverts(cells: seq<Cell>, rest: string)
    requires cells != [] && (rest == [] || rest[0] != ',')
    ensures ParseCellList(Join(",", CellTexts(cells)) + rest) == Some((cells, rest))
    decreases |cells|
  {
    var texts := CellTexts(cells);
    var s := Join(",", texts) + rest;
    if |cells| == 1 {
      assert ParseCell(s) == Some((cells[0], rest)) by {
        assert s == CellText(cells[0]) + rest by {
          assert Join(",", texts) == texts[0];
        }
        CellTextInverts(cells[0], rest);
      }
      CellListOne(s, cells[0], rest);
      assert [cells[0]] == cells;
    } else {
      var tail := Join(",", texts[1..]) + rest;
      assert ParseCell(s) == Some((cells[0], "," + tail)) by {
        assert s == CellText(cells[0]) + ("," + tail) by {
          JoinCons(texts, rest);
        }
        CellTextInverts(cells[0], "," + tail);
      }
      assert ParseCellList(tail) == Some((cells[1..], rest)) by {
        assert texts[1..] == CellTexts(cells[1..]);
        CellListInverts(cells[1..], rest);
      }
      CellListCons(s, cells[0], tail, cells[1..], rest);
      assert [cells[0]] + cells[1..] == cells;
    }
  }

  /** `sep.join` of parts starts with the first character of the first part. */
  lemma JoinStart(parts: seq<string>)
    requires parts != [] && parts[0] != []
    ensures Join(",", parts) != [] && Join(",", parts)[0] == parts[0][0]
  {
  }

  /** A brace and a list of cells closed by a brace is a row. */
  lemma RowOfList(t: string, cells: seq<Cell>, rest: string)
    requires t != [] && t[0] == '{' && ParseCellList(t) == Some((cells, "}" + rest))
    ensures ParseRow("{" + t) == Some((cells, rest))
  {
    var s := "{" + t;
    assert s[1..] == t;
    assert s[1] == '{';
    assert ("}" + rest)[1..] == rest;
  }

  /** The braces of an empty row. */
  lemma EmptyRow(rest: string)
    ensures ParseRow(RowText([]) + rest) == Some(([], rest))
  {
    var s := RowText([]) + rest;
    assert s == "{}" + rest;
    assert s[2..] == rest;
  }

  /** A row's text, followed by `rest`, is a brace, the joined cells, and the closing brace before `rest`. */
  lemma RowTextSplit(cells: seq<Cell>, rest: string)
    ensures RowText(cells) + rest == "{" + (Join(",", CellTexts(cells)) + ("}" + rest))
  {
  }

  /** The text of a row reads back as its cells. */
  lemma RowTextInverts(cells: seq<Cell>, rest: string)
    ensures ParseRow(RowText(cells) + rest) == Some((cells, rest))
  {
    if cells == [] {
      EmptyRow(rest);
    } else {
      var texts := CellTexts(cells);
      var t := Join(",", texts) + ("}" + rest);
      assert ParseCellList(t) == Some((cells, "}" + rest)) by {
        CellListInverts(cells, "}" + rest);
      }
      assert t != [] && t[0] == '{' by {
        assert texts[0] == CellText(cells[0]);
        JoinStart(texts);
      }
      RowTextSplit(cells, rest);
      RowOfList(t, cells, rest);
    }
  }

  /** A row followed by a comma and a list of rows is a list of rows. */
  lemma RowListCons(s: string, row: seq<Cell>, t: string, more: seq<seq<Cell>>, rest: string)
    requires ParseRow(s) == Some((row, "," + t)) && ParseRowList(t) == Some((more, rest))
    ensures ParseRowList(s) == Some(([row] + more, rest))
  {
    assert ("," + t)[1..] == t;
  }

  /** A row followed by anything but a comma is a list of one row. */
  lemma RowListOne(s: string, row: seq<Cell>, rest: string)
    requires ParseRow(s) == Some((row, rest)) && (rest == [] || rest[0] != ',')
    ensures ParseRowList(s) == Some(([row], rest))
  {
  }

  /** Joined row texts, followed by anything but a comma, read back as the rows. */
  lemma {:induction false} RowListInverts(rows: seq<seq<Cell>>, rest: string)
    requires rows != [] && (rest == [] || rest[0] != ',')
    ensures ParseRowList(Join(",", RowTexts(rows)) + rest) == Some((rows, rest))
    decreases |rows|
  {
    var texts := RowTexts(rows);
    var s := Join(",", texts) + rest;
    if |rows| == 1 {
      assert ParseRow(s) == Some((rows[0], rest)) by {
        assert s == RowText(rows[0]) + rest by {
          assert Join(",", texts) == texts[0];
        }
        RowTextInverts(rows[0], rest);
      }
      RowListOne(s, rows[0], rest);
      assert [rows[0]] == rows;
    } else {
      var tail := Join(",", texts[1..]) + rest;
      assert ParseRow(s) == Some((rows[0], "," + tail)) by {
        assert s == RowText(rows[0]) + ("," + tail) by {
          JoinCons(texts, rest);
        }
        RowTextInverts(rows[0], "," + tail);
      }
      assert ParseRowList(tail) == Some((rows[1..], rest)) by {
        assert texts[1..] == RowTexts(rows[1..]);
        RowListInverts(rows[1..], rest);
      }
      RowListCons(s, rows[0], tail, rows[1..], rest);
      assert [rows[0]] + rows[1..] == rows;
    }
  }

  /** What `build` returns denotes exactly the rows of cells pushed, row by row and in order. */
  lemma DecodeTableInverts(rows: seq<seq<Cell>>)
    ensures DecodeTable(TableText(rows)) == Some(rows)
  {
    var s := TableText(rows);
    if rows != [] {
      var joined := Join(",", RowTexts(rows));
      assert s[1..] == joined + "}";
      assert ParseRowList(s[1..]) == Some((rows, "}")) by {
        RowListInverts(rows, "}");
      }
      assert s[1] == '{' by {
        assert RowTexts(rows)[0] == RowText(rows[0]);
        JoinStart(RowTexts(rows));
      }
      assert s != "{}";
    }
  }

  /** Different tables of cells build different texts. */
  lemma TableTextInjective(a: seq<seq<Cell>>, b: seq<seq<Cell>>)
    requires TableText(a) == TableText(b)
    ensures a == b
  {
    DecodeTableInverts(a);
    DecodeTableInverts(b);
  }
  // ---------------------------------------------------------------------------------------------
  // The main loop: every column of every CSV row is parsed, then routed

  /** Where the main loop sends a column's cell. */
  datatype Route = Skipped | ToGoto | ToShiftReduce

  /** `state` and `S'` are skipped, the non-terminals go to the goto table, all other columns to the shift-reduce table. */
  function RouteOf(sym: string): Route {
    if sym == "state" || sym == "S'" then Skipped
    else if sym in NON_TERMINAL then ToGoto
    else ToShiftReduce
  }

  /**
   * The inner loop over the columns of one row: the goto cells and the shift-reduce cells in
   * column order, or the error of the first column that does not parse. `parse_ops` runs before
   * the skip test, so a skipped column must parse too.
   */
  function RouteRow(row: seq<(string, string)>): Result<(seq<Cell>, seq<Cell>), CellError> {
    if row == [] then Ok(([], []))
    else match RouteRow(row[..|row| - 1])
      case Err(e) => Err(e)
      case Ok(acc) =>
        var (sym, raw) := row[|row| - 1];
        match ParseOps(raw)
        case Err(e) => Err(e)
        case Ok(c) =>
          match RouteOf(sym)
          case Skipped => Ok(acc)
          case ToGoto => Ok((acc.0 + [c], acc.1))
          case ToShiftReduce => Ok((acc.0, acc.1 + [c]))
  }

  /** The outer loop over the rows: one goto row and one shift-reduce row per CSV row, or the first error. */
  function RouteRows(csv: seq<seq<(string, string)>>): Result<(seq<seq<Cell>>, seq<seq<Cell>>), CellError> {
    if csv == [] then Ok(([], []))
    else match RouteRows(csv[..|csv| - 1])
      case Err(e) => Err(e)
      case Ok(acc) =>
        match RouteRow(csv[|csv| - 1])
        case Err(e) => Err(e)
        case Ok(cells) => Ok((acc.0 + [cells.0], acc.1 + [cells.1]))
  }

  /** The two texts the script prints, the shift-reduce table first, or the error that stops it. */
  function Generated(csv: seq<seq<(string, string)>>): Result<(string, string), CellError> {
    match RouteRows(csv)
    case Err(e) => Err(e)
    case Ok(tables) => Ok((TableText(tables.1), TableText(tables.0)))
  }

  /** Every column of the row parses. */
  ghost predicate RowParses(row: seq<(string, string)>) {
    forall i :: 0 <= i < |row| ==> ParseOps(row[i].1).Ok?
  }

  /** The cells of the columns routed to `route`, in column order: filter the columns first, then parse them. */
  function Picked(row: seq<(string, string)>, route: Route): (r: seq<Cell>)
    requires RowParses(row)
  {
    if row == [] then []
    else
      var rest := Picked(row[..|row| - 1], route);
      if RouteOf(row[|row| - 1].0) == route then rest + [ParseOps(row[|row| - 1].1).value] else rest
  }

  /** How many columns are routed to `route`. */
  function CountRoute(row: seq<(string, string)>, route: Route): nat {
    if row == [] then 0
    else CountRoute(row[..|row| - 1], route) + if RouteOf(row[|row| - 1].0) == route then 1 else 0
  }

  /**
   * The row routing: a row goes through when every one of its columns parses, the skipped ones
   * included, and then the goto cells are those of the non-terminal columns and the shift-reduce
   * cells those of the other columns but `state` and `S'`, each in column order; otherwise the
   * error is that of the first column that does not parse.
   */
  lemma {:induction false} RouteRowSpec(row: seq<(string, string)>)
    ensures RouteRow(row).Ok? <==> RowParses(row)
    ensures RouteRow(row).Ok? ==> RouteRow(row).value == (Picked(row, ToGoto), Picked(row, ToShiftReduce))
    ensures RouteRow(row).Err? ==> exists i :: 0 <= i < |row| && RowParses(row[..i]) && ParseOps(row[i].1) == Err(RouteRow(row).error)
    decreases |row|
  {
    if row != [] {
      var init := row[..|row| - 1];
      RouteRowSpec(init);
      assert forall i :: 0 <= i < |init| ==> init[i] == row[i];
      assert row[..|init|] == init;
      if RouteRow(init).Err? {
        var i :| 0 <= i < |init| && RowParses(init[..i]) && ParseOps(init[i].1) == Err(RouteRow(init).error);
        assert init[..i] == row[..i];
      }
    }
  }

  /** Each goto row has one cell per non-terminal column and each shift-reduce row one per other column but `state` and `S'`. */
  lemma {:induction false} PickedWidth(row: seq<(string, string)>, route: Route)
    requires RowParses(row)
    ensures |Picked(row, route)| == CountRoute(row, route)
    decreases |row|
  {
    if row != [] {
      var init := row[..|row| - 1];
      assert RowParses(init) by {
        assert forall i :: 0 <= i < |init| ==> init[i] == row[i];
      }
      PickedWidth(init, route);
    }
  }

  /**
   * The outer loop: the tables come out when every row goes through, with the goto and
   * shift-reduce rows of each CSV row at its index; otherwise the error is that of a row.
   */
  lemma {:induction false} RouteRowsSpec(csv: seq<seq<(string, string)>>)
    ensures RouteRows(csv).Ok? <==> forall i :: 0 <= i < |csv| ==> RouteRow(csv[i]).Ok?
    ensures RouteRows(csv).Ok? ==> |RouteRows(csv).value.0| == |RouteRows(csv).value.1| == |csv|
    ensures RouteRows(csv).Ok? ==> forall i :: 0 <= i < |csv| ==>
      RouteRows(csv).value.0[i] == RouteRow(csv[i]).value.0 && RouteRows(csv).value.1[i] == RouteRow(csv[i]).value.1
    ensures RouteRows(csv).Err? ==> exists i :: 0 <= i < |csv| && RouteRow(csv[i]) == Err(RouteRows(csv).error)
    decreases |csv|
  {
    if csv != [] {
      var init := csv[..|csv| - 1];
      RouteRowsSpec(init);
      assert forall i :: 0 <= i < |init| ==> init[i] == csv[i];
    }
  }

  /** Once a prefix of the rows fails, the whole loop fails with the same error. */
  lemma {:induction false} RouteRowsFailsEarly(csv: seq<seq<(string, string)>>, k: nat)
    requires k <= |csv| && RouteRows(csv[..k]).Err?
    ensures RouteRows(csv) == RouteRows(csv[..k])
    decreases |csv| - k
  {
    if k < |csv| {
      assert csv[..k + 1][..k] == csv[..k];
      RouteRowsFailsEarly(csv, k + 1);
    } else {
      assert csv[..k] == csv;
    }
  }

  /** Once a prefix of the columns fails, the row fails with the same error. */
  lemma {:induction false} RouteRowFailsEarly(row: seq<(string, string)>, k: nat)
    requires k <= |row| && RouteRow(row[..k]).Err?
    ensures RouteRow(row) == RouteRow(row[..k])
    decreases |row| - k
  {
    if k < |row| {
      assert row[..k + 1][..k] == row[..k];
      RouteRowFailsEarly(row, k + 1);
    } else {
      assert row[..k] == row;
    }
  }

  /**
   * The body of the script's loop over the CSV rows: one `push_cell` per routed column, then one
   * `new_line` on each builder. On an error the builders are left as they are; the script stops.
   */
  method PushRow(row: seq<(string, string)>, gotoTable: Builder, shiftReduce: Builder) returns (err: Option<CellError>)
    requires gotoTable != shiftReduce && gotoTable.Valid() && shiftReduce.Valid()
    requires gotoTable.cells == [] && shiftReduce.cells == []
    modifies gotoTable, shiftReduce
    ensures gotoTable.Valid() && shiftReduce.Valid()
    ensures match RouteRow(row)
      case Err(e) => err == Some(e)
      case Ok(cells) =>
        && err.None? && gotoTable.cells == [] && shiftReduce.cells == []
        && gotoTable.rows == old(gotoTable.rows) + [cells.0]
        && shiftReduce.rows == old(shiftReduce.rows) + [cells.1]
  {
    for j := 0 to |row|
      invariant gotoTable.Valid() && shiftReduce.Valid()
      invariant gotoTable.rows == old(gotoTable.rows) && shiftReduce.rows == old(shiftReduce.rows)
      invariant RouteRow(row[..j]) == Ok((gotoTable.cells, shiftReduce.cells))
    {
      var (sym, raw) := row[j];
      var cell := ParseOps(raw);
      assert row[..j + 1][..j] == row[..j];
      if cell.Err? {
        RouteRowFailsEarly(row, j + 1);
        return Some(cell.error);
      }
      if sym == "state" || sym == "S'" {
      } else if sym in NON_TERMINAL {
        gotoTable.PushCell(cell.value.op, cell.value.value);
      } else {
        shiftReduce.PushCell(cell.value.op, cell.value.value);
      }
    }
    assert row[..|row|] == row;
    gotoTable.NewLine();
    shiftReduce.NewLine();
    err := None;
  }

  /** The script's main loop over the CSV rows, and the two `build` texts it prints. */
  method GenerateTables(csv: seq<seq<(string, string)>>) returns (r: Result<(string, string), CellError>)
    ensures r == Generated(csv)
  {
    var shiftReduce := new Builder();
    var gotoTable := new Builder();
    for i := 0 to |csv|
      invariant shiftReduce.Valid() && gotoTable.Valid()
      invariant shiftReduce.cells == [] && gotoTable.cells == []
      invariant RouteRows(csv[..i]) == Ok((gotoTable.rows, shiftReduce.rows))
    {
      var err := PushRow(csv[i], gotoTable, shiftReduce);
      assert csv[..i + 1][..i] == csv[..i];
      if err.Some? {
        RouteRowsFailsEarly(csv, i + 1);
        return Err(err.value);
      }
    }
    assert csv[..|csv|] == csv;
    var shiftReduceText := shiftReduce.Build();
    var gotoText := gotoTable.Build();
    r := Ok((shiftReduceText, gotoText));
  }
}
