/**
 * The line tokeniser: splitting a line on runs of white space
 * (the pattern `[\t\s]+`), reading the next line of the input, and reading an
 * OFFSET line.
 */
module Tokenizer {
  import opened Wrappers
  import opened ParseErrors
  import opened Numbers

  predicate AllSpace(s: string) {
    forall i :: 0 <= i < |s| ==> IsSpace(s[i])
  }

  /** A token is a non-empty string without white space. */
  predicate IsToken(t: string) {
    t != [] && forall i :: 0 <= i < |t| ==> !IsSpace(t[i])
  }

  /** Length of the longest prefix of `s` without white space. */
  function WordLength(s: string): (n: nat)
    ensures n <= |s|
    ensures forall i :: 0 <= i < n ==> !IsSpace(s[i])
    ensures n < |s| ==> IsSpace(s[n])
  {
    if s == [] || IsSpace(s[0]) then 0 else 1 + WordLength(s[1..])
  }

  /**
   * internal::split(line, "[\t\s]+"): the maximal runs of non-space characters
   * of `line`, left to right. The empty piece before a leading separator is
   * dropped, and no empty piece is produced after a trailing one.
   */
  function Split(line: string): (tokens: seq<string>)
    ensures forall k :: 0 <= k < |tokens| ==> IsToken(tokens[k])
    decreases |line|
  {
    if line == [] then []
    else if IsSpace(line[0]) then Split(line[1..])
    else
      var n := WordLength(line);
      [line[..n]] + Split(line[n..])
  }

  /** White space in front of a line does not change its tokens. */
  lemma {:induction false} SplitAfterSpace(w: string, s: string)
    requires AllSpace(w)
    ensures Split(w + s) == Split(s)
    decreases |w|
  {
    if w != [] {
      assert (w + s)[0] == w[0] && (w + s)[1..] == w[1..] + s;
      SplitAfterSpace(w[1..], s);
    } else {
      assert w + s == s;
    }
  }

  /** A token followed by white space or by the end of the line is the first token. */
  lemma SplitAfterToken(t: string, s: string)
    requires IsToken(t)
    requires s == [] || IsSpace(s[0])
    ensures Split(t + s) == [t] + Split(s)
  {
    var u := t + s;
    assert u[..|t|] == t && u[|t|..] == s;
  }

  /** A line has no tokens exactly when it is empty or white space only. */
  lemma {:induction false} SplitEmptyIffSpace(s: string)
    ensures Split(s) == [] <==> AllSpace(s)
    decreases |s|
  {
    if s != [] {
      SplitEmptyIffSpace(s[1..]);
      if IsSpace(s[0]) {
        assert AllSpace(s) <==> AllSpace(s[1..]);
      }
    }
  }

  /** The tokens joined by single spaces. */
  function Join(tokens: seq<string>): string
    decreases |tokens|
  {
    if tokens == [] then ""
    else if |tokens| == 1 then tokens[0]
    else tokens[0] + " " + Join(tokens[1..])
  }

  /** Splitting the single-space join of tokens gives the tokens back. */
  lemma {:induction false} SplitJoin(tokens: seq<string>)
    requires forall k :: 0 <= k < |tokens| ==> IsToken(tokens[k])
    ensures Split(Join(tokens)) == tokens
    decreases |tokens|
  {
    if |tokens| == 1 {
      SplitAfterToken(tokens[0], "");
      assert tokens[0] + "" == tokens[0];
    } else if |tokens| > 1 {
      var rest := Join(tokens[1..]);
      assert tokens[0] + " " + rest == tokens[0] + (" " + rest);
      SplitAfterToken(tokens[0], " " + rest);
      SplitAfterSpace(" ", rest);
      SplitJoin(tokens[1..]);
    }
  }

  /** gaps[0] + tokens[0] + gaps[1] + ... + tokens[n-1] + gaps[n]. */
  function Glue(gaps: seq<string>, tokens: seq<string>): string
    requires |gaps| == |tokens| + 1
    decreases |tokens|
  {
    if tokens == [] then gaps[0] else gaps[0] + tokens[0] + Glue(gaps[1..], tokens[1..])
  }

  /**
   * `tokens` with `gaps` around and between them lay out a line as maximal runs:
   * every gap is white space, the gaps between two tokens are not empty, and
   * every token is a token.
   */
  predicate Separates(gaps: seq<string>, tokens: seq<string>) {
    |gaps| == |tokens| + 1 &&
    (forall k :: 0 <= k < |gaps| ==> AllSpace(gaps[k])) &&
    (forall k :: 0 < k < |tokens| ==> gaps[k] != []) &&
    (forall k :: 0 <= k < |tokens| ==> IsToken(tokens[k]))
  }

  /** Any line laid out as tokens separated by white space splits into exactly those tokens. */
  lemma {:induction false} SplitGlue(gaps: seq<string>, tokens: seq<string>)
    requires Separates(gaps, tokens)
    ensures Split(Glue(gaps, tokens)) == tokens
    decreases |tokens|
  {
    if tokens == [] {
      SplitAfterSpace(gaps[0], "");
      assert gaps[0] + "" == gaps[0];
      SplitEmptyIffSpace("");
    } else {
      var rest := Glue(gaps[1..], tokens[1..]);
      assert Separates(gaps[1..], tokens[1..]);
      assert rest == [] || IsSpace(rest[0]) by {
        if tokens[1..] == [] {
          assert rest == gaps[1];
        } else {
          assert gaps[1] != [];
          assert rest[0] == gaps[1][0];
        }
      }
      assert Glue(gaps, tokens) == gaps[0] + (tokens[0] + rest);
      SplitAfterSpace(gaps[0], tokens[0] + rest);
      SplitAfterToken(tokens[0], rest);
      SplitGlue(gaps[1..], tokens[1..]);
    }
  }

  /** The white space around and between the tokens of a line. */
  ghost function Gaps(s: string): (gaps: seq<string>)
    ensures |gaps| == |Split(s)| + 1
    decreases |s|
  {
    if s == [] then [""]
    else if IsSpace(s[0]) then
      var g := Gaps(s[1..]);
      [[s[0]] + g[0]] + g[1..]
    else
      [""] + Gaps(s[WordLength(s)..])
  }

  /** The gaps of a line are white space, and those between two tokens are not empty. */
  lemma {:induction false} GapsSeparate(s: string)
    ensures Separates(Gaps(s), Split(s))
    decreases |s|
  {
    if s != [] {
      if IsSpace(s[0]) {
        GapsSeparate(s[1..]);
      } else {
        var r := s[WordLength(s)..];
        GapsSeparate(r);
        if Split(r) != [] {
          SplitEmptyIffSpace(r);
          assert Gaps(r)[0] != [];
        }
      }
    }
  }

  /** One more leading space in the first gap is one more leading space in the line. */
  lemma GlueWiderGap(c: char, g: seq<string>, t: seq<string>)
    requires |g| == |t| + 1
    ensures Glue([[c] + g[0]] + g[1..], t) == [c] + Glue(g, t)
  {
    var g' := [[c] + g[0]] + g[1..];
    assert g'[0] == [c] + g[0] && g'[1..] == g[1..];
  }

  /** Every line is its tokens laid out with its gaps: with GapsSeparate, Split returns the maximal runs. */
  lemma {:induction false} GapsGlue(s: string)
    ensures Glue(Gaps(s), Split(s)) == s
    decreases |s|
  {
    if s != [] {
      if IsSpace(s[0]) {
        GapsGlue(s[1..]);
        var g := Gaps(s[1..]);
        assert Split(s) == Split(s[1..]) && Gaps(s) == [[s[0]] + g[0]] + g[1..];
        GlueWiderGap(s[0], g, Split(s));
        assert s == [s[0]] + s[1..];
      } else {
        var n := WordLength(s);
        var r := s[n..];
        GapsGlue(r);
        assert Split(s) == [s[..n]] + Split(r) && Gaps(s) == [""] + Gaps(r);
        assert Glue(Gaps(s), Split(s)) == "" + s[..n] + Glue(Gaps(r), Split(r));
        assert s == s[..n] + r;
      }
    }
  }

  /** internal::tokenize_next_line on the line at `pos`: its tokens, or end of input. */
  function TokenizeAt(lines: seq<string>, pos: nat): (r: Result<seq<string>, ParseError>)
    ensures r.Success? <==> pos < |lines|
    ensures r.Failure? ==> r.error == UnexpectedEof
    ensures r.Success? ==> forall k :: 0 <= k < |r.value| ==> IsToken(r.value[k])
  {
    if pos < |lines| then Success(Split(lines[pos])) else Failure(UnexpectedEof)
  }

  /** std::stod on one token: the number, or the exception as NumberFormat. */
  function ReadNum(token: string): (r: Result<Num, ParseError>)
    ensures r.Success? <==> StartsDecimal(token)
    ensures r.Success? ==> r.value == Num(token)
    ensures r.Failure? ==> r.error == NumberFormat(token)
  {
    ParseNum(token).ToResult(NumberFormat(token))
  }

  /** internal::read_offset: "OFFSET x y z" gives (x, y, z). */
  function ReadOffset(tokens: seq<string>): (r: Result<Vec3, ParseError>)
    ensures r.Success? <==>
      |tokens| == 4 && tokens[0] == "OFFSET" &&
      StartsDecimal(tokens[1]) && StartsDecimal(tokens[2]) && StartsDecimal(tokens[3])
    ensures r.Success? ==> r.value == Vec3(Num(tokens[1]), Num(tokens[2]), Num(tokens[3]))
    ensures (|tokens| != 4 || tokens[0] != "OFFSET") ==> r == Failure(OffsetMalformed)
  {
    if |tokens| != 4 || tokens[0] != "OFFSET" then Failure(OffsetMalformed)
    else
      var x :- ReadNum(tokens[1]);
      var y :- ReadNum(tokens[2]);
      var z :- ReadNum(tokens[3]);
      Success(Vec3(x, y, z))
  }

  /**
   * The input file as a sequence of lines (the text std::getline returns) with
   * a cursor on the next line to read.
   */
  class LineSource {
    const lines: seq<string>
    var pos: nat

    ghost predicate Valid()
      reads this
    {
      pos <= |lines|
    }

    constructor (lines: seq<string>)
      ensures Valid() && this.lines == lines && pos == 0
    {
      this.lines := lines;
      pos := 0;
    }

    /** std::getline: the next line, if any, and the cursor moves past it. */
    method GetLine() returns (line: Option<string>)
      requires Valid()
      modifies this
      ensures Valid()
      ensures old(pos) < |lines| ==> line == Some(lines[old(pos)]) && pos == old(pos) + 1
      ensures old(pos) == |lines| ==> line == None && pos == old(pos)
    {
      if pos < |lines| {
        line := Some(lines[pos]);
        pos := pos + 1;
      } else {
        line := None;
      }
    }

    /** internal::tokenize_next_line: reads one line and splits it; fails at the end of input. */
    method TokenizeNextLine() returns (r: Result<seq<string>, ParseError>)
      requires Valid()
      modifies this
      ensures Valid()
      ensures r == TokenizeAt(lines, old(pos))
      ensures pos == if old(pos) < |lines| then old(pos) + 1 else old(pos)
    {
      var line := GetLine();
      if line.Some? {
        r := Success(Split(line.value));
      } else {
        r := Failure(UnexpectedEof);
      }
    }
  }
}
