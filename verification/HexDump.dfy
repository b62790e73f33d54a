/** The hex dump of a user buffer, written piece by piece into a capped log buffer. */
module HexDump {
  import opened Text
  import opened LogBuffer

  type Byte = b: int | 0 <= b < 256

  const HEAD :=
    "\n             0  1  2  3  4  5  6  7  8  9  A  B  C  D  E  F    0123456789ABCDEF"

  // ---------------------------------------------------------------- the text of a dump

  function HexCell(bytes: seq<Byte>, at: nat): (cell: string) {
    if at < |bytes| then ZeroPad(Digits(bytes[at], 16), 2) + " " else "   "
  }

  function PlainCell(bytes: seq<Byte>, at: nat): (cell: string)
    ensures |cell| == 1
  {
    if at >= |bytes| then " " else if 32 <= bytes[at] <= 126 then [bytes[at] as char] else "."
  }

  function HexCells(bytes: seq<Byte>, line: nat): (cells: seq<string>) {
    seq(16, (column: nat) => HexCell(bytes, line * 16 + column))
  }

  function PlainCells(bytes: seq<Byte>, line: nat): (cells: seq<string>) {
    seq(16, (column: nat) => PlainCell(bytes, line * 16 + column))
  }

  function Margin(line: nat): (r: string) {
    "\n" + ZeroPad(Digits(line + 1, 10), 10) + "   "
  }

  function Line(bytes: seq<Byte>, line: nat): (r: string) {
    Margin(line) + Concat(HexCells(bytes, line)) + "  " + Concat(PlainCells(bytes, line))
  }

  /** An empty buffer still gets one line. */
  function LineCount(n: nat): (count: nat) {
    if n == 0 then 1 else (n + 15) / 16
  }

  function Lines(bytes: seq<Byte>): (lines: seq<string>) {
    seq(LineCount(|bytes|), (line: nat) => Line(bytes, line))
  }

  function DumpText(head: string, bytes: seq<Byte>): (r: string) {
    head + Concat(Lines(bytes))
  }

  lemma ConcatFrom(texts: seq<string>, i: nat)
    requires i < |texts|
    ensures Concat(texts[i..]) == texts[i] + Concat(texts[i + 1..])
  {
    assert texts[i..][1..] == texts[i + 1..];
  }

  // ---------------------------------------------------------------- writing it

  /** The buffer holds start + done, and everything to be written lies on the way to start + target. */
  ghost predicate OnTheWay(buf: LogBuffer, start: string, done: string, target: string)
    reads buf, buf.store
  {
    buf.Valid() && buf.Text() == start + done && done <= target
  }

  /** A writer returned non-zero: the rest of the target is skipped, and would have changed nothing. */
  ghost predicate Full(buf: LogBuffer, start: string, target: string)
    reads buf, buf.store
  {
    && buf.Valid()
    && Overflows(start + target, buf.sizeMax)
    && buf.Text() == Cut(start + target, buf.sizeMax, buf.marker)
  }

  lemma AfterWrite(piece: string, rc: int, after: string, start: string, done: string, target: string,
                   cap: nat, marker: string)
    requires after == Cut(start + done + piece, cap, marker)
    requires rc == if Overflows(start + done + piece, cap) then 1 else 0
    requires done + piece <= target
    ensures rc == 0 ==> after == start + (done + piece)
    ensures rc != 0 ==> Overflows(start + target, cap) && after == Cut(start + target, cap, marker)
  {
    assert start + done + piece == start + (done + piece);
    var rest := target[|done + piece|..];
    assert start + target == start + (done + piece) + rest;
    CutAgain(start + (done + piece), rest, cap, marker);
  }

  method Emit(buf: LogBuffer, piece: string, ghost start: string, ghost done: string, ghost target: string)
    returns (rc: int)
    requires OnTheWay(buf, start, done, target) && done + piece <= target
    modifies buf, buf.store
    ensures buf.store == old(buf.store) || fresh(buf.store)
    ensures rc == 0 ==> OnTheWay(buf, start, done + piece, target)
    ensures rc != 0 ==> rc == 1 && Full(buf, start, target)
  {
    rc := buf.Append(piece);
    AfterWrite(piece, rc, buf.Text(), start, done, target, buf.sizeMax, buf.marker);
  }

  method EmitMargin(buf: LogBuffer, line: nat, ghost start: string, ghost done: string, ghost target: string)
    returns (rc: int)
    requires line < MAX_UINT64
    requires OnTheWay(buf, start, done, target) && done + Margin(line) <= target
    modifies buf, buf.store
    ensures buf.store == old(buf.store) || fresh(buf.store)
    ensures rc == 0 ==> OnTheWay(buf, start, done + Margin(line), target)
    ensures rc != 0 ==> rc == 1 && Full(buf, start, target)
  {
    ghost var number := ZeroPad(Digits(line + 1, 10), 10);
    assert done + Margin(line) == (done + "\n") + number + "   ";
    rc := Emit(buf, "\n", start, done, target);
    if rc != 0 {
      return;
    }
    rc := buf.PrintDec64(line + 1, 10);
    AfterWrite(number, rc, buf.Text(), start, done + "\n", target, buf.sizeMax, buf.marker);
    if rc != 0 {
      return;
    }
    rc := Emit(buf, "   ", start, done + "\n" + number, target);
  }

  method EmitHexCell(buf: LogBuffer, bytes: seq<Byte>, at: nat,
                     ghost start: string, ghost done: string, ghost target: string)
    returns (rc: int)
    requires OnTheWay(buf, start, done, target) && done + HexCell(bytes, at) <= target
    modifies buf, buf.store
    ensures buf.store == old(buf.store) || fresh(buf.store)
    ensures rc == 0 ==> OnTheWay(buf, start, done + HexCell(bytes, at), target)
    ensures rc != 0 ==> rc == 1 && Full(buf, start, target)
  {
    if at < |bytes| {
      ghost var number := ZeroPad(Digits(bytes[at], 16), 2);
      assert done + HexCell(bytes, at) == done + number + " ";
      rc := buf.PrintHex(bytes[at], 2);
      AfterWrite(number, rc, buf.Text(), start, done, target, buf.sizeMax, buf.marker);
      if rc != 0 {
        return;
      }
      rc := Emit(buf, " ", start, done + number, target);
    } else {
      rc := Emit(buf, "   ", start, done, target);
    }
  }

  method EmitHexCells(buf: LogBuffer, bytes: seq<Byte>, line: nat,
                      ghost start: string, ghost done: string, ghost target: string)
    returns (rc: int)
    requires OnTheWay(buf, start, done, target) && done + Concat(HexCells(bytes, line)) <= target
    modifies buf, buf.store
    ensures buf.store == old(buf.store) || fresh(buf.store)
    ensures rc == 0 ==> OnTheWay(buf, start, done + Concat(HexCells(bytes, line)), target)
    ensures rc != 0 ==> rc == 1 && Full(buf, start, target)
  {
    ghost var cells := HexCells(bytes, line);
    ghost var whole := done + Concat(cells);
    assert cells[0..] == cells;
    ghost var sofar := done;
    for column := 0 to 16
      invariant buf.store == old(buf.store) || fresh(buf.store)
      invariant OnTheWay(buf, start, sofar, target)
      invariant sofar + Concat(cells[column..]) == whole
    {
      ghost var cell := HexCell(bytes, line * 16 + column);
      ConcatFrom(cells, column);
      assert sofar + cell + Concat(cells[column + 1..]) == whole;
      rc := EmitHexCell(buf, bytes, line * 16 + column, start, sofar, target);
      if rc != 0 {
        return;
      }
      sofar := sofar + cell;
    }
    assert sofar == whole;
    rc := 0;
  }

  method EmitPlainCells(buf: LogBuffer, bytes: seq<Byte>, line: nat,
                        ghost start: string, ghost done: string, ghost target: string)
    returns (rc: int)
    requires OnTheWay(buf, start, done, target) && done + Concat(PlainCells(bytes, line)) <= target
    modifies buf, buf.store
    ensures buf.store == old(buf.store) || fresh(buf.store)
    ensures rc == 0 ==> OnTheWay(buf, start, done + Concat(PlainCells(bytes, line)), target)
    ensures rc != 0 ==> rc == 1 && Full(buf, start, target)
  {
    ghost var cells := PlainCells(bytes, line);
    ghost var whole := done + Concat(cells);
    assert cells[0..] == cells;
    ghost var sofar := done;
    for column := 0 to 16
      invariant buf.store == old(buf.store) || fresh(buf.store)
      invariant OnTheWay(buf, start, sofar, target)
      invariant sofar + Concat(cells[column..]) == whole
    {
      var at := line * 16 + column;
      ghost var cell := PlainCell(bytes, at);
      ConcatFrom(cells, column);
      assert sofar + cell + Concat(cells[column + 1..]) == whole;
      if at < |bytes| {
        if 32 <= bytes[at] <= 126 {
          rc := Emit(buf, [bytes[at] as char], start, sofar, target);
        } else {
          rc := Emit(buf, ".", start, sofar, target);
        }
      } else {
        rc := Emit(buf, " ", start, sofar, target);
      }
      if rc != 0 {
        return;
      }
      sofar := sofar + cell;
    }
    assert sofar == whole;
    rc := 0;
  }

  method EmitLine(buf: LogBuffer, bytes: seq<Byte>, line: nat,
                  ghost start: string, ghost done: string, ghost target: string)
    returns (rc: int)
    requires line < MAX_UINT64
    requires OnTheWay(buf, start, done, target) && done + Line(bytes, line) <= target
    modifies buf, buf.store
    ensures buf.store == old(buf.store) || fresh(buf.store)
    ensures rc == 0 ==> OnTheWay(buf, start, done + Line(bytes, line), target)
    ensures rc != 0 ==> rc == 1 && Full(buf, start, target)
  {
    ghost var d1 := done + Margin(line);
    ghost var d2 := d1 + Concat(HexCells(bytes, line));
    ghost var d3 := d2 + "  ";
    assert done + Line(bytes, line) == d3 + Concat(PlainCells(bytes, line));
    rc := EmitMargin(buf, line, start, done, target);
    if rc != 0 {
      return;
    }
    rc := EmitHexCells(buf, bytes, line, start, d1, target);
    if rc != 0 {
      return;
    }
    rc := Emit(buf, "  ", start, d2, target);
    if rc != 0 {
      return;
    }
    rc := EmitPlainCells(buf, bytes, line, start, d3, target);
  }

  lemma LineNext(done: string, lines: seq<string>, line: nat, target: string)
    requires line < |lines| && done + Concat(lines[line..]) == target
    ensures done + lines[line] + Concat(lines[line + 1..]) == target && done + lines[line] <= target
    ensures line + 1 == |lines| ==> done + lines[line] == target
  {
    ConcatFrom(lines, line);
    assert done + (lines[line] + Concat(lines[line + 1..])) == done + lines[line] + Concat(lines[line + 1..]);
    if line + 1 == |lines| {
      assert lines[line + 1..] == [];
    }
  }

  method EmitLines(buf: LogBuffer, bytes: seq<Byte>, ghost start: string, ghost head: string, ghost target: string)
    returns (rc: int)
    requires |bytes| < MAX_UINT64
    requires OnTheWay(buf, start, head, target) && target == head + Concat(Lines(bytes))
    modifies buf, buf.store
    ensures buf.store == old(buf.store) || fresh(buf.store)
    ensures rc == 0 ==> OnTheWay(buf, start, target, target)
    ensures rc != 0 ==> rc == 1 && Full(buf, start, target)
  {
    ghost var done, lines := head, Lines(bytes);
    var line := 0;
    assert lines[0..] == lines;
    while true
      invariant 0 <= line < |lines|
      invariant buf.store == old(buf.store) || fresh(buf.store)
      invariant OnTheWay(buf, start, done, target)
      invariant done + Concat(lines[line..]) == target
      decreases |lines| - line
    {
      LineNext(done, lines, line, target);
      rc := EmitLine(buf, bytes, line, start, done, target);
      if rc != 0 {
        return;
      }
      done := done + lines[line];
      if line * 16 + 16 >= |bytes| {
        break;
      }
      line := line + 1;
    }
  }

  /** The whole dump: one write of DumpText, however many pieces and wherever the buffer fills up. */
  method WriteDump(buf: LogBuffer, head: string, bytes: seq<Byte>) returns (rc: int)
    requires buf.Valid() && |bytes| < MAX_UINT64
    modifies buf, buf.store
    ensures buf.Wrote(DumpText(head, bytes), rc)
  {
    ghost var start, target := buf.Text(), DumpText(head, bytes);
    assert start + "" == start && "" + head == head;
    rc := Emit(buf, head, start, "", target);
    if rc != 0 {
      return;
    }
    rc := EmitLines(buf, bytes, start, head, target);
  }

  // ---------------------------------------------------------------- reading it back

  function ReadHexCells(s: string): (bytes: seq<nat>) {
    if |s| < 3 || !AllDigits(s[..2], 16) then [] else [Value(s[..2], 16)] + ReadHexCells(s[3..])
  }

  /** The hex columns of consecutive dump lines; the line number may have any width. */
  function ReadLines(s: string): (bytes: seq<nat>)
    decreases |s|
  {
    if s == "" then []
    else
      var margin := 1 + LeadingDigits(s[1..]) + 3;
      if |s| < margin + 66 then [] else ReadHexCells(s[margin..margin + 48]) + ReadLines(s[margin + 66..])
  }

  function ReadDump(head: string, s: string): (bytes: seq<nat>) {
    if |s| < |head| then [] else ReadLines(s[|head|..])
  }

  function Min(a: nat, b: nat): (m: nat) {
    if a < b then a else b
  }

  lemma HexCellReads(bytes: seq<Byte>, at: nat)
    ensures |HexCell(bytes, at)| == 3
    ensures at < |bytes| ==> AllDigits(HexCell(bytes, at)[..2], 16) && Value(HexCell(bytes, at)[..2], 16) == bytes[at]
    ensures at >= |bytes| ==> !AllDigits(HexCell(bytes, at)[..2], 16)
  {
    if at < |bytes| {
      assert Power(16, 2) == 256;
      DigitsLength(bytes[at], 16, 2);
      ZeroPadDenotes(bytes[at], 16, 2);
      assert HexCell(bytes, at)[..2] == ZeroPad(Digits(bytes[at], 16), 2);
    } else {
      assert HexCell(bytes, at)[..2][0] == ' ';
    }
  }

  lemma {:induction false} HexCellsRead(bytes: seq<Byte>, line: nat, column: nat)
    requires column <= 16 && line * 16 <= |bytes|
    ensures var s := Concat(HexCells(bytes, line)[column..]);
            |s| == 3 * (16 - column)
            && ReadHexCells(s) == bytes[Min(|bytes|, line * 16 + column)..Min(|bytes|, line * 16 + 16)]
    decreases 16 - column
  {
    if column < 16 {
      var at := line * 16 + column;
      var cells := HexCells(bytes, line);
      var cell, rest := HexCell(bytes, at), Concat(cells[column + 1..]);
      HexCellReads(bytes, at);
      HexCellsRead(bytes, line, column + 1);
      ConcatFrom(cells, column);
      var s := Concat(cells[column..]);
      assert s == cell + rest && s[..2] == cell[..2] && s[3..] == rest;
      if at < |bytes| {
        assert [bytes[at]] + bytes[at + 1..Min(|bytes|, line * 16 + 16)] == bytes[at..Min(|bytes|, line * 16 + 16)];
      }
    }
  }

  lemma {:induction false} PlainCellsWidth(bytes: seq<Byte>, line: nat, column: nat)
    requires column <= 16
    ensures |Concat(PlainCells(bytes, line)[column..])| == 16 - column
    decreases 16 - column
  {
    if column < 16 {
      ConcatFrom(PlainCells(bytes, line), column);
      assert PlainCells(bytes, line)[column] == PlainCell(bytes, line * 16 + column);
      PlainCellsWidth(bytes, line, column + 1);
    }
  }

  /** The two column blocks of a line have fixed widths, and the hex block reads as the line's bytes. */
  lemma LineParts(bytes: seq<Byte>, line: nat)
    requires line * 16 <= |bytes|
    ensures |Concat(HexCells(bytes, line))| == 48 && |Concat(PlainCells(bytes, line))| == 16
    ensures ReadHexCells(Concat(HexCells(bytes, line))) == bytes[line * 16..Min(|bytes|, line * 16 + 16)]
  {
    HexCellsRead(bytes, line, 0);
    PlainCellsWidth(bytes, line, 0);
    assert HexCells(bytes, line)[0..] == HexCells(bytes, line);
    assert PlainCells(bytes, line)[0..] == PlainCells(bytes, line);
  }

  lemma PartsRead(number: string, hex: string, plain: string, rest: string)
    requires number != "" && AllDigits(number, 10) && |hex| == 48 && |plain| == 16
    ensures ReadLines("\n" + number + "   " + hex + "  " + plain + rest) == ReadHexCells(hex) + ReadLines(rest)
  {
    var s := "\n" + number + "   " + hex + "  " + plain + rest;
    var tail := "   " + hex + "  " + plain + rest;
    assert s[1..] == number + tail;
    LeadingDigitsOf(number, tail);
    var margin := 1 + |number| + 3;
    assert s[margin..margin + 48] == hex;
    assert s[margin + 66..] == rest;
  }

  /** Reading one line gives its bytes and leaves exactly what follows it. */
  lemma LineReads(bytes: seq<Byte>, line: nat, rest: string)
    requires line * 16 <= |bytes|
    ensures ReadLines(Line(bytes, line) + rest)
         == bytes[line * 16..Min(|bytes|, line * 16 + 16)] + ReadLines(rest)
  {
    var number := ZeroPad(Digits(line + 1, 10), 10);
    ZeroPadDenotes(line + 1, 10, 10);
    LineParts(bytes, line);
    PartsRead(number, Concat(HexCells(bytes, line)), Concat(PlainCells(bytes, line)), rest);
  }

  lemma Rejoin(bytes: seq<Byte>, from: nat, to: nat)
    requires from <= to <= |bytes|
    ensures bytes[from..to] + bytes[to..] == bytes[from..]
  {
  }

  lemma {:induction false} LinesRead(bytes: seq<Byte>, line: nat)
    requires line <= LineCount(|bytes|)
    ensures ReadLines(Concat(Lines(bytes)[line..])) == bytes[Min(|bytes|, line * 16)..]
    decreases LineCount(|bytes|) - line
  {
    if line < LineCount(|bytes|) {
      var rest := Concat(Lines(bytes)[line + 1..]);
      LinesRead(bytes, line + 1);
      ConcatFrom(Lines(bytes), line);
      LineReads(bytes, line, rest);
      Rejoin(bytes, line * 16, Min(|bytes|, line * 16 + 16));
      assert Concat(Lines(bytes)[line..]) == Line(bytes, line) + rest;
    }
  }

  /** Decoding the hex columns of a dump gives back exactly the dumped bytes. */
  lemma DumpRoundTrip(head: string, bytes: seq<Byte>)
    ensures ReadDump(head, DumpText(head, bytes)) == bytes
  {
    LinesRead(bytes, 0);
    assert Lines(bytes)[0..] == Lines(bytes);
    assert DumpText(head, bytes)[|head|..] == Concat(Lines(bytes));
  }

  /** All lines are 80 characters wide exactly as long as their number has at most ten digits. */
  lemma LineWidth(bytes: seq<Byte>, line: nat)
    requires line * 16 <= |bytes|
    ensures |Line(bytes, line)| == 80 <==> line + 1 < Power(10, 10)
  {
    DigitsLength(line + 1, 10, 10);
    LineParts(bytes, line);
  }

  lemma {:induction false} ConcatEqual(texts: seq<string>, width: nat, i: nat)
    requires i < |texts| && forall j :: 0 <= j < |texts| ==> |texts[j]| == width
    ensures |Concat(texts)| == width * |texts| && width * i + width <= width * |texts|
    ensures Concat(texts)[width * i..width * i + width] == texts[i]
    decreases |texts|
  {
    var rest := Concat(texts[1..]);
    ConcatLength(texts, width);
    ConcatLength(texts[1..], width);
    Fits(width, i, |texts|);
    if i > 0 {
      ConcatEqual(texts[1..], width, i - 1);
      assert width * i == width + width * (i - 1);
      assert Concat(texts)[width * i..width * i + width] == rest[width * (i - 1)..width * (i - 1) + width];
    }
  }

  lemma {:induction false} ConcatLength(texts: seq<string>, width: nat)
    requires forall j :: 0 <= j < |texts| ==> |texts[j]| == width
    ensures |Concat(texts)| == width * |texts|
    decreases |texts|
  {
    if texts != [] {
      ConcatLength(texts[1..], width);
      assert width * |texts| == width + width * (|texts| - 1);
    }
  }

  lemma Fits(width: nat, i: nat, n: nat)
    requires i < n
    ensures width * i + width <= width * n
  {
    ScaleAtLeast(width, i + 1, n);
  }

  lemma HexCellsShow(bytes: seq<Byte>, line: nat, column: nat)
    requires column < 16
    ensures |Concat(HexCells(bytes, line))| == 48
    ensures Concat(HexCells(bytes, line))[3 * column..3 * column + 3] == HexCell(bytes, line * 16 + column)
  {
    var cells := HexCells(bytes, line);
    forall j | 0 <= j < 16
      ensures |cells[j]| == 3
    {
      HexCellReads(bytes, line * 16 + j);
    }
    ConcatEqual(cells, 3, column);
  }

  lemma PlainCellsShow(bytes: seq<Byte>, line: nat, column: nat)
    requires column < 16
    ensures |Concat(PlainCells(bytes, line))| == 16
    ensures Concat(PlainCells(bytes, line))[column..column + 1] == PlainCell(bytes, line * 16 + column)
  {
    var cells := PlainCells(bytes, line);
    forall j | 0 <= j < 16
      ensures |cells[j]| == 1
    {
      assert cells[j] == PlainCell(bytes, line * 16 + j);
    }
    ConcatEqual(cells, 1, column);
  }

  lemma PartsOf(margin: string, hex: string, plain: string, column: nat)
    requires |margin| == 14 && |hex| == 48 && |plain| == 16 && column < 16
    ensures var l := margin + hex + "  " + plain;
            && |l| == 80 && l[..14] == margin && l[62..64] == "  "
            && l[14 + 3 * column..17 + 3 * column] == hex[3 * column..3 * column + 3]
            && l[64 + column] == plain[column..column + 1][0]
  {
  }

  /**
   A line shows its number with ten digits, and in every column its byte twice: as two hex digits, and as its
   character or a dot for one that cannot be printed. Columns behind the last byte are blank.
   */
  lemma LineShows(bytes: seq<Byte>, line: nat, column: nat)
    requires column < 16 && line + 1 < 10_000_000_000
    ensures |Line(bytes, line)| == 80
    ensures var l, at := Line(bytes, line), line * 16 + column;
            var hex := l[14 + 3 * column..17 + 3 * column];
            && l[0] == '\n' && l[11..14] == "   " && l[62..64] == "  "
            && AllDigits(l[1..11], 10) && Value(l[1..11], 10) == line + 1
            && (at < |bytes| ==>
                  && AllDigits(hex[..2], 16) && Value(hex[..2], 16) == bytes[at] && hex[2] == ' '
                  && l[64 + column] == if 32 <= bytes[at] <= 126 then bytes[at] as char else '.')
            && (at >= |bytes| ==> hex == "   " && l[64 + column] == ' ')
  {
    assert Power(10, 10) == 10_000_000_000;
    DigitsLength(line + 1, 10, 10);
    ZeroPadDenotes(line + 1, 10, 10);
    HexCellsShow(bytes, line, column);
    PlainCellsShow(bytes, line, column);
    HexCellReads(bytes, line * 16 + column);
    var margin := Margin(line);
    assert margin[1..11] == ZeroPad(Digits(line + 1, 10), 10) && margin[11..14] == "   ";
    PartsOf(margin, Concat(HexCells(bytes, line)), Concat(PlainCells(bytes, line)), column);
    MarginAt(margin, Line(bytes, line));
  }

  lemma MarginAt(margin: string, l: string)
    requires |margin| == 14 <= |l| && l[..14] == margin
    ensures l[0] == margin[0] && l[1..11] == margin[1..11] && l[11..14] == margin[11..14]
  {
  }

  lemma {:induction false} LinesLength(bytes: seq<Byte>, line: nat)
    requires line <= LineCount(|bytes|) < Power(10, 10)
    ensures |Concat(Lines(bytes)[line..])| == 80 * (LineCount(|bytes|) - line)
    decreases LineCount(|bytes|) - line
  {
    if line < LineCount(|bytes|) {
      LineWidth(bytes, line);
      ConcatFrom(Lines(bytes), line);
      LinesLength(bytes, line + 1);
    }
  }

  /** max(1, ceil(n/16)) lines of equal width after the heading. */
  lemma DumpLength(head: string, bytes: seq<Byte>)
    requires LineCount(|bytes|) < Power(10, 10)
    ensures |DumpText(head, bytes)| == |head| + 80 * (if |bytes| == 0 then 1 else (|bytes| + 15) / 16)
  {
    LinesLength(bytes, 0);
    assert Lines(bytes)[0..] == Lines(bytes);
  }
}
