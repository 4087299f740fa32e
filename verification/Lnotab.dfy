/** The line tables of Python 3.10 and of earlier versions, as the loops of src/frame.h read them. */
module Lnotab {
  import opened Common

  type Pairs = bs: seq<Byte> | |bs| % 2 == 0

  function Signed(b: Byte): int {
    if b >= 0x80 then b - 0x100 else b
  }

  /** `lineno -= 0x100` when the byte is negative, then `lineno += byte`, both wrapping. */
  function AddByte(line: nat, b: Byte): nat {
    U32((if b >= 0x80 then U32(line - 0x100) else line) + b)
  }

  lemma {:induction false} AddByteIsSigned(line: nat, b: Byte)
    requires line < TWO32
    ensures AddByte(line, b) == U32(line + Signed(b))
  {
  }

  lemma {:induction false} U32Add(x: int, y: int)
    ensures U32(U32(x) + y) == U32(x + y)
  {
    assert x == TWO32 * (x / TWO32) + U32(x);
    assert (U32(x) + y) % TWO32 == (U32(x) + y + TWO32 * (x / TWO32)) % TWO32 by { Wrap(U32(x) + y, x / TWO32); }
  }

  lemma {:induction false} Wrap(x: int, k: int)
    ensures (x + TWO32 * k) % TWO32 == x % TWO32
    decreases if k < 0 then -k else k
  {
    if k > 0 {
      Wrap(x, k - 1);
      assert x + TWO32 * k == x + TWO32 * (k - 1) + TWO32;
    } else if k < 0 {
      Wrap(x, k + 1);
      assert x + TWO32 * k == x + TWO32 * (k + 1) - TWO32;
    }
  }

  // ---- Before 3.10 ---------------------------------------------------------------------------------

  function OldLine(bs: Pairs, bc: nat, line: nat, lasti: int): nat {
    if bs == [] then line
    else if bc + bs[0] > lasti then line
    else OldLine(bs[2..], bc + bs[0], AddByte(line, bs[1]), lasti)
  }

  method ReadOldLine(bs: Pairs, firstLine: nat, lasti: int) returns (line: nat)
    ensures line == OldLine(bs, 0, firstLine, lasti)
  {
    line := firstLine;
    var i: nat, bc: nat := 0, 0;
    while i < |bs|
      invariant i <= |bs| && i % 2 == 0
      invariant OldLine(bs[i..], bc, line, lasti) == OldLine(bs, 0, firstLine, lasti)
    {
      assert bs[i..][2..] == bs[i + 2..];
      bc := bc + bs[i];
      i := i + 1;
      if bc > lasti {
        break;
      }
      if bs[i] >= 0x80 {
        line := U32(line - 0x100);
      }
      line := U32(line + bs[i]);
      i := i + 1;
    }
  }

  /** From `start` on, and until the next row starts, the line is `line`. */
  datatype Row = Row(start: nat, line: int)

  /** The line of the last row that starts at or before `lasti`. */
  function LineAt(rows: seq<Row>, line: int, lasti: nat): int {
    if rows == [] || rows[0].start > lasti then line else LineAt(rows[1..], rows[0].line, lasti)
  }

  /**
   The pairs move the address by `da` and then the line by `dl`, over as many pairs as it takes: no
   line moves before the address has arrived.
   */
  ghost predicate Moves(bs: Pairs, da: int, dl: int) {
    if bs == [] then da == 0 && dl == 0
    else if Signed(bs[1]) == 0 then bs[0] <= da && Moves(bs[2..], da - bs[0], dl)
    else bs[0] == da && Moves(bs[2..], 0, dl - Signed(bs[1]))
  }

  function Concat(chunks: seq<Pairs>): Pairs {
    if chunks == [] then [] else chunks[0] + Concat(chunks[1..])
  }

  /** One chunk of bytes a row, encoding the move from the row before it. */
  ghost predicate Tables(chunks: seq<Pairs>, rows: seq<Row>, from: nat, line: int) {
    && |chunks| == |rows|
    && (rows != [] ==>
          && from <= rows[0].start && Moves(chunks[0], rows[0].start - from, rows[0].line - line)
          && Tables(chunks[1..], rows[1..], rows[0].start, rows[0].line))
  }

  lemma {:induction false} OldLineOverPair(xs: Pairs, ys: Pairs, bc: nat, line: nat, lasti: int)
    requires xs != [] && line < TWO32
    ensures OldLine(xs + ys, bc, line, lasti) ==
            if bc + xs[0] > lasti then line
            else OldLine(xs[2..] + ys, bc + xs[0], U32(line + Signed(xs[1])), lasti)
  {
    hide U32, AddByte, Signed;
    assert (xs + ys)[2..] == xs[2..] + ys;
    AddByteIsSigned(line, xs[1]);
  }

  lemma {:induction false} U32Regroup(x: int, y: int, z: int)
    ensures U32(U32(x + y) + (z - y)) == U32(x + z)
  {
    U32Add(x + y, z - y);
  }

  lemma {:induction false} OldLineOverMove(xs: Pairs, ys: Pairs, da: nat, dl: int, bc: nat, line: nat, lasti: int)
    requires Moves(xs, da, dl) && line < TWO32 && bc <= lasti
    ensures bc + da > lasti ==> OldLine(xs + ys, bc, line, lasti) == line
    ensures bc + da <= lasti ==> OldLine(xs + ys, bc, line, lasti) == OldLine(ys, bc + da, U32(line + dl), lasti)
    decreases |xs|
  {
    hide U32, AddByte, Signed, OldLine;
    if xs == [] {
      assert xs + ys == ys;
    } else {
      var d := Signed(xs[1]);
      OldLineOverPair(xs, ys, bc, line, lasti);
      U32Regroup(line, d, dl);
      if bc + xs[0] <= lasti {
        OldLineOverMove(xs[2..], ys, da - xs[0], dl - d, bc + xs[0], U32(line + d), lasti);
      }
    }
  }

  lemma {:induction false} OldLineOverRow(xs: Pairs, ys: Pairs, row: Row, from: nat, line: int, lasti: nat)
    requires Moves(xs, row.start - from, row.line - line) && from <= row.start && from <= lasti
    ensures OldLine(xs + ys, from, U32(line), lasti) ==
            if row.start > lasti then U32(line) else OldLine(ys, row.start, U32(row.line), lasti)
  {
    hide OldLine, Moves, U32;
    var da, dl := row.start - from, row.line - line;
    OldLineOverMove(xs, ys, da, dl, from, U32(line), lasti);
    U32Add(line, dl);
    assert from + da == row.start && line + dl == row.line;
  }

  /** On any encoding of an increasing table the loop returns the line of the interval around `lasti`. */
  lemma {:induction false} OldLineIsExact(chunks: seq<Pairs>, rows: seq<Row>, from: nat, line: int, lasti: nat)
    requires Tables(chunks, rows, from, line) && from <= lasti
    ensures OldLine(Concat(chunks), from, U32(line), lasti) == U32(LineAt(rows, line, lasti))
    decreases |rows|
  {
    if rows != [] {
      OldLineOverRow(chunks[0], Concat(chunks[1..]), rows[0], from, line, lasti);
      if rows[0].start <= lasti {
        OldLineIsExact(chunks[1..], rows[1..], rows[0].start, rows[0].line, lasti);
      }
    }
  }

  /** One way to split a move: at most 255 bytes and -128..127 lines a pair. */
  function Split(da: nat, dl: int): (bs: Pairs)
    decreases da, if dl < 0 then -dl else dl
  {
    if da > 255 then [255, 0] + Split(da - 255, dl)
    else if dl > 127 then [da, 127] + Split(0, dl - 127)
    else if dl < -128 then [da, 0x80] + Split(0, dl + 128)
    else [da, if dl < 0 then dl + 0x100 else dl]
  }

  lemma {:induction false} SplitMoves(da: nat, dl: int)
    ensures Moves(Split(da, dl), da, dl)
    decreases da, if dl < 0 then -dl else dl
  {
    var bs := Split(da, dl);
    if da > 255 {
      SplitMoves(da - 255, dl);
      assert bs[2..] == Split(da - 255, dl);
    } else if dl > 127 {
      SplitMoves(0, dl - 127);
      assert bs[2..] == Split(0, dl - 127);
    } else if dl < -128 {
      SplitMoves(0, dl + 128);
      assert bs[2..] == Split(0, dl + 128);
    } else {
      assert bs[2..] == [];
    }
  }

  ghost predicate Increasing(rows: seq<Row>, from: nat) {
    rows == [] || (from <= rows[0].start && Increasing(rows[1..], rows[0].start))
  }

  function EncodeRows(rows: seq<Row>, from: nat, line: int): (chunks: seq<Pairs>)
    requires Increasing(rows, from)
  {
    if rows == [] then []
    else [Split(rows[0].start - from, rows[0].line - line)] + EncodeRows(rows[1..], rows[0].start, rows[0].line)
  }

  /** Every increasing table has an encoding. */
  lemma {:induction false} EncodeRowsTables(rows: seq<Row>, from: nat, line: int)
    requires Increasing(rows, from)
    ensures Tables(EncodeRows(rows, from, line), rows, from, line)
    decreases |rows|
  {
    if rows != [] {
      SplitMoves(rows[0].start - from, rows[0].line - line);
      EncodeRowsTables(rows[1..], rows[0].start, rows[0].line);
    }
  }

  // ---- 3.10 ----------------------------------------------------------------------------------------

  /** A start delta of 255 ends the table; a line delta of -128 stands for no line and moves nothing. */
  function NewLine(bs: Pairs, bc: nat, line: nat, lasti: int): nat {
    if bs == [] || bs[0] == 0xff then line
    else
      var line' := if bs[1] == 0x80 then line else AddByte(line, bs[1]);
      if bc + bs[0] > lasti then line' else NewLine(bs[2..], bc + bs[0], line', lasti)
  }

  method ReadNewLine(bs: Pairs, firstLine: nat, lasti: int) returns (line: nat)
    requires firstLine < TWO32
    ensures line == NewLine(bs, 0, firstLine, Int32(2 * lasti))
  {
    var last := Int32(2 * lasti);
    line := firstLine;
    var i: nat, bc: nat := 0, 0;
    while i < |bs|
      invariant i <= |bs| && i % 2 == 0 && line < TWO32
      invariant NewLine(bs[i..], bc, line, last) == NewLine(bs, 0, firstLine, last)
    {
      assert bs[i..][2..] == bs[i + 2..];
      var sdelta := bs[i];
      i := i + 1;
      if sdelta == 0xff {
        break;
      }
      bc := bc + sdelta;
      var ldelta := bs[i];
      if ldelta == 0x80 {
        ldelta := 0;
      } else if ldelta > 0x80 {
        line := U32(line - 0x100);
      }
      line := U32(line + ldelta);
      if bc > last {
        break;
      }
      i := i + 1;
    }
  }

  /** `width` bytes of code on a line, or on none. */
  datatype Span = Span(width: nat, line: Option<int>)

  /** The line of the span around the byte `at`; a span without a line keeps the last one. */
  function SpanLine(spans: seq<Span>, line: int, at: int): int {
    if spans == [] then line
    else
      var line' := if spans[0].line.Some? then spans[0].line.value else line;
      if at < spans[0].width then line' else SpanLine(spans[1..], line', at - spans[0].width)
  }

  function LineDelta(b: Byte): int {
    if b == 0x80 then 0 else Signed(b)
  }

  /** The pairs move the line by `dl` and then cover `width` bytes, over as many pairs as it takes. */
  ghost predicate Spans(bs: Pairs, width: int, dl: int) {
    if bs == [] then width == 0 && dl == 0
    else if bs[0] == 0 then Spans(bs[2..], width, dl - LineDelta(bs[1]))
    else bs[0] <= width && bs[0] != 0xff && LineDelta(bs[1]) == dl && Spans(bs[2..], width - bs[0], 0)
  }

  ghost function Delta(s: Span, line: int): int {
    if s.line.Some? then s.line.value - line else 0
  }

  /** One chunk of bytes a span. */
  ghost predicate NewTables(chunks: seq<Pairs>, spans: seq<Span>, line: int) {
    && |chunks| == |spans|
    && (spans != [] ==>
          && Spans(chunks[0], spans[0].width, Delta(spans[0], line))
          && NewTables(chunks[1..], spans[1..], line + Delta(spans[0], line)))
  }

  lemma {:induction false} NewLinePair(bs: Pairs, bc: nat, line: nat, lasti: int)
    requires bs != [] && bs[0] != 0xff && line < TWO32
    ensures var line' := U32(line + LineDelta(bs[1]));
      NewLine(bs, bc, line, lasti) ==
      if bc + bs[0] > lasti then line' else NewLine(bs[2..], bc + bs[0], line', lasti)
  {
    AddByteIsSigned(line, bs[1]);
  }

  lemma {:induction false} NewLineOverPair(xs: Pairs, ys: Pairs, bc: nat, line: nat, lasti: int)
    requires xs != [] && xs[0] != 0xff && line < TWO32
    ensures var line' := U32(line + LineDelta(xs[1]));
      NewLine(xs + ys, bc, line, lasti) ==
      if bc + xs[0] > lasti then line' else NewLine(xs[2..] + ys, bc + xs[0], line', lasti)
  {
    hide NewLine, U32, LineDelta;
    NewLinePair(xs + ys, bc, line, lasti);
    assert (xs + ys)[2..] == xs[2..] + ys;
  }

  lemma {:induction false} SpansHead(xs: Pairs, width: int, dl: int)
    requires Spans(xs, width, dl) && xs != []
    ensures xs[0] != 0xff && width >= xs[0] && Spans(xs[2..], width - xs[0], dl - LineDelta(xs[1]))
    ensures xs[0] > 0 ==> LineDelta(xs[1]) == dl
  {
    if xs[0] == 0 {
      SpansWidth(xs[2..], width, dl - LineDelta(xs[1]));
    }
  }

  lemma {:induction false} SpansNone(xs: Pairs, width: int, dl: int)
    requires Spans(xs, width, dl) && xs == []
    ensures width == 0 && dl == 0
  {
  }

  lemma {:induction false} SpansWidth(xs: Pairs, width: int, dl: int)
    requires Spans(xs, width, dl)
    ensures width >= 0
  {
    if xs != [] && xs[0] == 0 {
      SpansWidth(xs[2..], width, dl - LineDelta(xs[1]));
    }
  }

  lemma {:induction false} NewLineOverSpan(xs: Pairs, ys: Pairs, width: nat, dl: int, bc: nat, line: nat, lasti: int)
    requires Spans(xs, width, dl) && line < TWO32 && bc <= lasti
    ensures bc + width > lasti ==> NewLine(xs + ys, bc, line, lasti) == U32(line + dl)
    ensures bc + width <= lasti ==> NewLine(xs + ys, bc, line, lasti) == NewLine(ys, bc + width, U32(line + dl), lasti)
    decreases |xs|
  {
    hide NewLine, Spans, U32, AddByte, LineDelta;
    if xs == [] {
      SpansNone(xs, width, dl);
      assert xs + ys == ys;
    } else {
      var d, bc' := LineDelta(xs[1]), bc + xs[0];
      var line' := U32(line + d);
      SpansHead(xs, width, dl);
      NewLineOverPair(xs, ys, bc, line, lasti);
      U32Regroup(line, d, dl);
      if bc' <= lasti {
        NewLineOverSpan(xs[2..], ys, width - xs[0], dl - d, bc', line', lasti);
      } else {
        assert line' == U32(line + dl);
      }
    }
  }

  lemma {:induction false} NewLineOverLine(xs: Pairs, ys: Pairs, width: nat, dl: int, bc: nat, line: int, lasti: nat)
    requires Spans(xs, width, dl) && bc <= lasti
    ensures bc + width > lasti ==> NewLine(xs + ys, bc, U32(line), lasti) == U32(line + dl)
    ensures bc + width <= lasti ==>
      NewLine(xs + ys, bc, U32(line), lasti) == NewLine(ys, bc + width, U32(line + dl), lasti)
  {
    hide NewLine, Spans, U32;
    NewLineOverSpan(xs, ys, width, dl, bc, U32(line), lasti);
    U32Add(line, dl);
  }

  lemma {:induction false} SpanLineOnce(spans: seq<Span>, line: int, at: int)
    requires spans != []
    ensures var line' := line + Delta(spans[0], line); var w := spans[0].width;
      && (at < w ==> SpanLine(spans, line, at) == line')
      && (at >= w ==> SpanLine(spans, line, at) == SpanLine(spans[1..], line', at - w))
  {
  }

  lemma {:induction false} TablesHead(chunks: seq<Pairs>, spans: seq<Span>, line: int, tail: Pairs)
    requires NewTables(chunks, spans, line) && spans != []
    ensures chunks != [] && Spans(chunks[0], spans[0].width, Delta(spans[0], line))
    ensures NewTables(chunks[1..], spans[1..], line + Delta(spans[0], line))
    ensures Concat(chunks) + tail == chunks[0] + (Concat(chunks[1..]) + tail)
  {
  }

  lemma {:induction false} NewLineAtEnd(chunks: seq<Pairs>, tail: Pairs, spans: seq<Span>, bc: nat, line: int,
          lasti: nat)
    requires NewTables(chunks, spans, line) && spans == [] && bc <= lasti && (tail == [] || tail[0] == 0xff)
    ensures NewLine(Concat(chunks) + tail, bc, U32(line), lasti) == U32(SpanLine(spans, line, lasti - bc))
  {
    hide U32;
    assert Concat(chunks) + tail == tail;
  }

  /**
   On any encoding of a sequence of spans, ended by the buffer or by a terminator, the loop returns
   the line of the span around `lasti`.
   */
  lemma {:induction false} NewLineIsExact(chunks: seq<Pairs>, tail: Pairs, spans: seq<Span>, bc: nat, line: int,
          lasti: nat)
    requires NewTables(chunks, spans, line) && bc <= lasti && (tail == [] || tail[0] == 0xff)
    ensures NewLine(Concat(chunks) + tail, bc, U32(line), lasti) == U32(SpanLine(spans, line, lasti - bc))
    decreases |spans|
  {
    hide NewLine, Spans, U32, Delta, SpanLine, NewTables, Concat;
    if spans == [] {
      NewLineAtEnd(chunks, tail, spans, bc, line, lasti);
    } else {
      var w, dl := spans[0].width, Delta(spans[0], line);
      TablesHead(chunks, spans, line, tail);
      SpanLineOnce(spans, line, lasti - bc);
      NewLineOverLine(chunks[0], Concat(chunks[1..]) + tail, w, dl, bc, line, lasti);
      if bc + w <= lasti {
        NewLineIsExact(chunks[1..], tail, spans[1..], bc + w, line + dl, lasti);
        assert lasti - bc - w == lasti - (bc + w);
      }
    }
  }

  /** One way to split a span: -127..127 lines, then 1..254 bytes a pair, -128 marking no line. */
  function SplitSpan(width: nat, dl: int, mark: Byte): (bs: Pairs)
    decreases if dl < 0 then -dl else dl, width
  {
    if dl > 127 then [0, 127] + SplitSpan(width, dl - 127, mark)
    else if dl < -127 then [0, 0x81] + SplitSpan(width, dl + 127, mark)
    else
      var b := if dl == 0 then mark else if dl < 0 then dl + 0x100 else dl;
      if width > 254 then [254, b] + SplitSpan(width - 254, 0, mark) else [width, b]
  }

  lemma {:induction false} SplitSpanSpans(width: nat, dl: int, mark: Byte)
    requires mark == 0 || mark == 0x80
    ensures Spans(SplitSpan(width, dl, mark), width, dl)
    decreases if dl < 0 then -dl else dl, width
  {
    var bs := SplitSpan(width, dl, mark);
    if dl > 127 {
      SplitSpanSpans(width, dl - 127, mark);
      assert bs[2..] == SplitSpan(width, dl - 127, mark);
    } else if dl < -127 {
      SplitSpanSpans(width, dl + 127, mark);
      assert bs[2..] == SplitSpan(width, dl + 127, mark);
    } else if width > 254 {
      SplitSpanSpans(width - 254, 0, mark);
      assert bs[2..] == SplitSpan(width - 254, 0, mark);
    } else {
      assert bs[2..] == [];
    }
  }

  function EncodeSpans(spans: seq<Span>, line: int): (chunks: seq<Pairs>) {
    if spans == [] then []
    else
      var s := spans[0];
      var line' := if s.line.Some? then s.line.value else line;
      [SplitSpan(s.width, line' - line, if s.line.Some? then 0 else 0x80)] + EncodeSpans(spans[1..], line')
  }

  /** Every sequence of spans has an encoding. */
  lemma {:induction false} EncodeSpansTables(spans: seq<Span>, line: int)
    ensures NewTables(EncodeSpans(spans, line), spans, line)
    decreases |spans|
  {
    if spans != [] {
      var s, line' := spans[0], line + Delta(spans[0], line);
      SplitSpanSpans(s.width, line' - line, if s.line.Some? then 0 else 0x80);
      EncodeSpansTables(spans[1..], line');
    }
  }

  // ---- The layout, in numbers -------------------------------------------------------------------------

  /** Before 3.10: rows from byte 4 on line 13, from 10 on 11. */
  lemma {:induction false} KnownRows(lasti: int)
    ensures OldLine([4, 3, 6, 0xFE], 0, 10, lasti) == if lasti < 4 then 10 else if lasti < 10 then 13 else 11
  {
    var rest: Pairs := [6, 0xFE];
    assert [4, 3, 6, 0xFE][2..] == rest && rest[2..] == [];
    assert OldLine(rest[2..], 10, 11, lasti) == 11;
    assert OldLine(rest, 4, 13, lasti) == if lasti < 10 then 13 else 11;
  }

  /** On 3.10: four bytes on line 13, six on none and two on 11, before a terminator. */
  lemma {:induction false} KnownSpans(lasti: int)
    ensures NewLine([4, 3, 6, 0x80, 2, 0xFE, 0xFF, 7], 0, 10, lasti) == if lasti < 10 then 13 else 11
  {
    var bs: Pairs := [4, 3, 6, 0x80, 2, 0xFE, 0xFF, 7];
    var none: Pairs, last: Pairs, end: Pairs := [6, 0x80, 2, 0xFE, 0xFF, 7], [2, 0xFE, 0xFF, 7], [0xFF, 7];
    assert bs[2..] == none && none[2..] == last && last[2..] == end;
    assert NewLine(end, 12, 11, lasti) == 11;
    assert NewLine(last, 10, 13, lasti) == 11;
    assert NewLine(none, 4, 13, lasti) == if lasti < 10 then 13 else 11;
  }
}
