/**
 * The MOTION phase of ReadBvhFile as a function of the input lines: the
 * "Frames:" line, the "Frame Time:" line and one row of numbers per frame,
 * one column per channel.
 */
module Motion {
  import opened Wrappers
  import opened ParseErrors
  import opened Numbers
  import opened Tokenizer

  /** The motion section: frame count, frame time and the frames-by-channels table. */
  datatype MotionTable = MotionTable(frames: nat, frameTime: Num, rows: seq<seq<Num>>)

  /** "Frames: n": exactly two tokens, and the count goes through std::stoi. */
  function FramesLine(tokens: seq<string>): (r: Result<int, ParseError>)
    ensures r.Success? <==> |tokens| == 2 && tokens[0] == "Frames:" && ParseInt(tokens[1]).Some?
    ensures r.Success? ==> Some(r.value) == ParseInt(tokens[1]) && IntMin <= r.value <= IntMax
    ensures r.Failure? && |tokens| == 2 && tokens[0] == "Frames:" ==> r.error == NumberFormat(tokens[1])
  {
    if |tokens| != 2 || tokens[0] != "Frames:" then Failure(FramesMalformed)
    else ParseInt(tokens[1]).ToResult(NumberFormat(tokens[1]))
  }

  /** "Frame Time: t": exactly three tokens, and the time goes through std::stod. */
  function FrameTimeLine(tokens: seq<string>): (r: Result<Num, ParseError>)
    ensures r.Success? <==>
      |tokens| == 3 && tokens[0] == "Frame" && tokens[1] == "Time:" && StartsDecimal(tokens[2])
    ensures r.Success? ==> r.value == Num(tokens[2])
  {
    if |tokens| != 3 || tokens[0] != "Frame" || tokens[1] != "Time:" then Failure(FrameTimeMalformed)
    else ReadNum(tokens[2])
  }

  /** The cells of one frame, left to right; the first token that is not a number is an error. */
  function ParseRow(tokens: seq<string>): (r: Result<seq<Num>, ParseError>)
    ensures r.Success? ==> |r.value| == |tokens|
    ensures r.Failure? ==> r.error.NumberFormat? && r.error.token in tokens
    decreases |tokens|
  {
    if tokens == [] then Success([])
    else
      var before :- ParseRow(tokens[..|tokens| - 1]);
      var cell :- ReadNum(tokens[|tokens| - 1]);
      Success(before + [cell])
  }

  /** A row is read exactly when every token is a number, and then cell j is token j. */
  lemma {:induction false} ParseRowMeaning(tokens: seq<string>)
    ensures ParseRow(tokens).Success? <==> forall j :: 0 <= j < |tokens| ==> StartsDecimal(tokens[j])
    ensures ParseRow(tokens).Success? ==>
      |ParseRow(tokens).value| == |tokens| &&
      forall j :: 0 <= j < |tokens| ==> ParseRow(tokens).value[j] == Num(tokens[j])
    decreases |tokens|
  {
    if tokens != [] {
      var init := tokens[..|tokens| - 1];
      ParseRowMeaning(init);
      assert forall j :: 0 <= j < |init| ==> init[j] == tokens[j];
      if ParseRow(tokens).Success? {
        var row := ParseRow(tokens).value;
        assert row == ParseRow(init).value + [Num(tokens[|tokens| - 1])];
      }
    }
  }

  /** Once a prefix of a row fails, the whole row fails the same way: cells are read left to right. */
  lemma {:induction false} ParseRowPrefix(tokens: seq<string>, k: nat)
    requires k <= |tokens|
    ensures ParseRow(tokens[..k]).Failure? ==> ParseRow(tokens) == ParseRow(tokens[..k])
    decreases |tokens| - k
  {
    if k < |tokens| {
      ParseRowPrefix(tokens, k + 1);
      assert tokens[..k + 1][..k] == tokens[..k];
    } else {
      assert tokens[..k] == tokens;
    }
  }

  /**
   * The first `count` frames, from line `pos` on: each line must split into
   * exactly `width` tokens; row i failing reports FrameColumnMismatch(i).
   */
  function ReadRows(lines: seq<string>, pos: nat, count: nat, width: nat): (r: Result<seq<seq<Num>>, ParseError>)
    ensures r.Success? ==> |r.value| == count && forall i :: 0 <= i < count ==> |r.value[i]| == width
    decreases count
  {
    if count == 0 then Success([])
    else
      var before :- ReadRows(lines, pos, count - 1, width);
      var row :- FrameRow(lines, pos + count - 1, count - 1, width);
      Success(before + [row])
  }

  /**
   * One more frame: with the first `i` rows read into `table`, the next row
   * either extends the table or is the error of the whole frame loop.
   */
  lemma ReadRowsStep(lines: seq<string>, pos: nat, i: nat, count: nat, width: nat,
                     table: seq<seq<Num>>, row: Result<seq<Num>, ParseError>)
    requires i < count && ReadRows(lines, pos, i, width) == Success(table)
    requires row == FrameRow(lines, pos + i, i, width)
    ensures row.Success? ==> ReadRows(lines, pos, i + 1, width) == Success(table + [row.value])
    ensures row.Failure? ==> ReadRows(lines, pos, count, width) == Failure(row.error)
  {
    ReadRowsPrefix(lines, pos, i + 1, count, width);
  }

  /** Frame `index`, on line `at`: exactly `width` tokens, all numbers. */
  function FrameRow(lines: seq<string>, at: nat, index: nat, width: nat): (r: Result<seq<Num>, ParseError>)
    ensures r.Success? ==> at < |lines| && |r.value| == width
    ensures r.Failure? && at < |lines| && |Split(lines[at])| != width ==> r.error == FrameColumnMismatch(index)
    ensures at >= |lines| ==> r == Failure(UnexpectedEof)
  {
    var tokens :- TokenizeAt(lines, at);
    if |tokens| != width then Failure(FrameColumnMismatch(index))
    else ParseRow(tokens)
  }

  /** Frame i of the table holds the numbers of line pos + i; this is a well-formed frame line. */
  predicate RowLine(lines: seq<string>, pos: nat, i: nat, width: nat)
    requires pos + i < |lines|
  {
    var tokens := Split(lines[pos + i]);
    |tokens| == width && forall j :: 0 <= j < width ==> StartsDecimal(tokens[j])
  }

  /** A row read from `tokens`: `width` cells, cell j being the number spelled by token j. */
  predicate RowOfTokens(row: seq<Num>, tokens: seq<string>, width: nat) {
    |row| == width && |tokens| == width && forall j :: 0 <= j < width ==> row[j] == Num(tokens[j])
  }

  /** An accepted frame line: exactly `width` tokens, cell j being token j. */
  lemma FrameRowMeaning(lines: seq<string>, at: nat, index: nat, width: nat)
    requires FrameRow(lines, at, index, width).Success?
    ensures at < |lines| && RowOfTokens(FrameRow(lines, at, index, width).value, Split(lines[at]), width)
  {
    ParseRowMeaning(Split(lines[at]));
  }

  /** Row i of a table that is read is the frame read from line pos + i. */
  lemma {:induction false} ReadRowsRow(lines: seq<string>, pos: nat, count: nat, width: nat, i: nat)
    requires ReadRows(lines, pos, count, width).Success? && i < count
    ensures FrameRow(lines, pos + i, i, width) == Success(ReadRows(lines, pos, count, width).value[i])
    decreases count
  {
    var before := ReadRows(lines, pos, count - 1, width);
    var row := FrameRow(lines, pos + count - 1, count - 1, width);
    assert before.Success? && row.Success?;
    assert ReadRows(lines, pos, count, width).value == before.value + [row.value];
    if i < count - 1 {
      ReadRowsRow(lines, pos, count - 1, width, i);
    }
  }

  /** A table that is read has one row per frame line, cell (i, j) being token j of line pos + i. */
  lemma ReadRowsShape(lines: seq<string>, pos: nat, count: nat, width: nat)
    requires pos <= |lines| && ReadRows(lines, pos, count, width).Success?
    ensures var rows := ReadRows(lines, pos, count, width).value;
      pos + count <= |lines| && |rows| == count &&
      forall i :: 0 <= i < count ==> RowOfTokens(rows[i], Split(lines[pos + i]), width)
  {
    var rows := ReadRows(lines, pos, count, width).value;
    if count > 0 {
      ReadRowsRow(lines, pos, count, width, count - 1);
      FrameRowMeaning(lines, pos + (count - 1), count - 1, width);
    }
    assert pos + count <= |lines| && |rows| == count;
    forall i | 0 <= i < count
      ensures RowOfTokens(rows[i], Split(lines[pos + i]), width)
    {
      ReadRowsRow(lines, pos, count, width, i);
      FrameRowMeaning(lines, pos + i, i, width);
    }
  }

  /**
   * The table is read exactly when the `count` lines after `pos` exist and are
   * all well-formed frame lines.
   */
  lemma {:induction false} ReadRowsAccepts(lines: seq<string>, pos: nat, count: nat, width: nat)
    requires pos <= |lines|
    ensures ReadRows(lines, pos, count, width).Success? <==>
      pos + count <= |lines| && forall i :: 0 <= i < count ==> RowLine(lines, pos, i, width)
    decreases count
  {
    if count > 0 {
      ReadRowsAccepts(lines, pos, count - 1, width);
      FrameRowAccepts(lines, pos, count - 1, width);
      if pos + count <= |lines| && forall i :: 0 <= i < count ==> RowLine(lines, pos, i, width) {
        assert RowLine(lines, pos, count - 1, width);
      }
    }
  }

  /** One frame is read exactly when its line exists and is a well-formed frame line. */
  lemma FrameRowAccepts(lines: seq<string>, pos: nat, i: nat, width: nat)
    ensures FrameRow(lines, pos + i, i, width).Success? <==> pos + i < |lines| && RowLine(lines, pos, i, width)
  {
    if pos + i < |lines| {
      ParseRowMeaning(Split(lines[pos + i]));
    }
  }

  /** Once the first k frames fail, the whole table fails the same way: frames are read in order. */
  lemma {:induction false} ReadRowsPrefix(lines: seq<string>, pos: nat, k: nat, count: nat, width: nat)
    requires k <= count
    ensures ReadRows(lines, pos, k, width).Failure? ==>
      ReadRows(lines, pos, count, width) == ReadRows(lines, pos, k, width)
    decreases count
  {
    if k < count {
      ReadRowsPrefix(lines, pos, k, count - 1, width);
    }
  }

  /** Lines after the last frame play no part: the table only depends on the lines it reads. */
  lemma {:induction false} ReadRowsIgnoresTrailing(lines: seq<string>, extra: seq<string>, pos: nat, count: nat, width: nat)
    requires pos + count <= |lines|
    ensures ReadRows(lines + extra, pos, count, width) == ReadRows(lines, pos, count, width)
    decreases count
  {
    if count > 0 {
      ReadRowsIgnoresTrailing(lines, extra, pos, count - 1, width);
      assert (lines + extra)[pos + count - 1] == lines[pos + count - 1];
    }
  }

  /** The two header lines from line `pos`: the frame count and the frame time. */
  function MotionHeader(lines: seq<string>, pos: nat): (r: Result<(int, Num), ParseError>)
    ensures r.Success? ==> pos + 2 <= |lines|
  {
    var framesTokens :- TokenizeAt(lines, pos);
    var frames :- FramesLine(framesTokens);
    var timeTokens :- TokenizeAt(lines, pos + 1);
    var frameTime :- FrameTimeLine(timeTokens);
    Success((frames, frameTime))
  }

  /**
   * The motion section from line `pos`, with `width` channels: the header
   * lines, then exactly `frames` rows. A negative frame count is refused, as
   * Eigen's resize of the motion matrix refuses it.
   */
  function MotionFrom(lines: seq<string>, pos: nat, width: nat): (r: Result<MotionTable, ParseError>)
    ensures r.Success? ==> pos + 2 + r.value.frames <= |lines| && |r.value.rows| == r.value.frames
    ensures r.Success? ==> forall i :: 0 <= i < |r.value.rows| ==> |r.value.rows[i]| == width
  {
    var header :- MotionHeader(lines, pos);
    if header.0 < 0 then Failure(NegativeFrameCount)
    else
      var rows :- ReadRows(lines, pos + 2, header.0, width);
      ReadRowsShape(lines, pos + 2, header.0, width);
      Success(MotionTable(header.0, header.1, rows))
  }

  /**
   * What an accepted motion section holds: the frame count and frame time of
   * its header lines, and a frames-by-width table whose cell (i, j) is token j
   * of the i-th line after the header.
   */
  lemma MotionFromMeaning(lines: seq<string>, pos: nat, width: nat)
    requires MotionFrom(lines, pos, width).Success?
    ensures var m := MotionFrom(lines, pos, width).value;
      pos + 2 + m.frames <= |lines| &&
      ParseInt(Split(lines[pos])[1]) == Some(m.frames as int) &&
      m.frameTime == Num(Split(lines[pos + 1])[2]) &&
      forall i :: 0 <= i < m.frames ==> RowOfTokens(m.rows[i], Split(lines[pos + 2 + i]), width)
  {
    var m := MotionFrom(lines, pos, width).value;
    var q := pos + 2;
    var header := MotionHeader(lines, pos).value;
    assert Split(lines[pos]) == TokenizeAt(lines, pos).value;
    assert Split(lines[pos + 1]) == TokenizeAt(lines, pos + 1).value;
    assert m.frames as int == header.0 && m.frameTime == header.1;
    var rows := ReadRows(lines, q, m.frames, width).value;
    assert m.rows == rows;
    ReadRowsShape(lines, q, m.frames, width);
    forall i | 0 <= i < m.frames
      ensures RowOfTokens(m.rows[i], Split(lines[pos + 2 + i]), width)
    {
      assert m.rows[i] == rows[i] && pos + 2 + i == q + i;
    }
  }

  /** Lines after the last frame are ignored. */
  lemma MotionIgnoresTrailing(lines: seq<string>, extra: seq<string>, pos: nat, width: nat)
    requires MotionFrom(lines, pos, width).Success?
    ensures MotionFrom(lines + extra, pos, width) == MotionFrom(lines, pos, width)
  {
    var m := MotionFrom(lines, pos, width).value;
    assert (lines + extra)[pos] == lines[pos];
    assert (lines + extra)[pos + 1] == lines[pos + 1];
    assert MotionHeader(lines + extra, pos) == MotionHeader(lines, pos);
    ReadRowsIgnoresTrailing(lines, extra, pos + 2, m.frames, width);
  }
}
