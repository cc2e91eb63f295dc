/** Reading a list of lists of numbers such as "[[1.0, 2.0], [3.3]]" from text. */
module ArrayParser {
  import opened Options

  /** The conversion of a numeral's text to a value; None when it is no number or out of range. */
  type Conversion = string -> Option<real>

  datatype Result = Result(rows: seq<seq<real>>, error: string)

  const TOO_DEEP := "Array depth greater than 2"
  const TOO_MANY_CLOSED := "More close ] than open ["
  const UNTERMINATED := "Unterminated vector string."

  function Misplaced(c: char): string {
    "Numbers at depth other than 2. Char was '" + [c] + "'."
  }

  predicate Separator(c: char) { c == ',' || c == ' ' || c == '\t' }
  predicate Bracket(c: char) { c == '[' || c == ']' }
  predicate Space(c: char) { c == ' ' || '\t' <= c <= '\r' }
  predicate Digit(c: char) { '0' <= c <= '9' }
  predicate Sign(c: char) { c == '+' || c == '-' }

  // ---------- numerals in a stream ----------

  /**
   * How far into a numeral the stream is: mantissa digits seen, point seen; after the exponent letter; in the
   * exponent.
   */
  datatype Progress = Start | Mantissa(digits: bool, point: bool) | AfterE | Exponent

  /** The progress after one more character; None when it cannot belong to the numeral. */
  function Advance(p: Progress, c: char): Option<Progress> {
    match p
    case Start => if Sign(c) then Some(Mantissa(false, false)) else AdvanceMantissa(false, false, c)
    case Mantissa(digits, point) => AdvanceMantissa(digits, point, c)
    case AfterE => if Sign(c) || Digit(c) then Some(Exponent) else None
    case Exponent => if Digit(c) then Some(Exponent) else None
  }

  function AdvanceMantissa(digits: bool, point: bool, c: char): Option<Progress> {
    if Digit(c) then Some(Mantissa(true, point))
    else if c == '.' && !point then Some(Mantissa(digits, true))
    else if (c == 'e' || c == 'E') && digits then Some(AfterE)
    else None
  }

  /** Characters at the front of s that continue the numeral. */
  function NumeralLength(s: string, p: Progress): (n: nat)
    ensures n <= |s|
    ensures forall k :: 0 <= k < n ==> !Bracket(s[k]) && !Separator(s[k]) && !Space(s[k])
  {
    if s == "" || Advance(p, s[0]) == None then 0 else 1 + NumeralLength(s[1..], Advance(p, s[0]).value)
  }

  function LeadingSpaces(s: string): (n: nat)
    ensures n <= |s|
    ensures forall k :: 0 <= k < n ==> Space(s[k])
  {
    if s == "" || !Space(s[0]) then 0 else 1 + LeadingSpaces(s[1..])
  }

  /** Formatted extraction of a number: leading white space goes, then the longest numeral; how much was taken. */
  function Extract(convert: Conversion, s: string): (r: (Option<real>, nat))
    ensures r.1 <= |s| && (r.0.Some? ==> r.1 > 0)
    ensures forall k :: 0 <= k < r.1 ==> !Bracket(s[k])
  {
    var skipped := LeadingSpaces(s);
    var length := NumeralLength(s[skipped..], Start);
    (if length == 0 then None else convert(s[skipped..][..length]), skipped + length)
  }

  // ---------- the parser ----------

  /** Nesting depth, the row being read, and the rows finished. */
  datatype Machine = Machine(depth: int, row: seq<real>, rows: seq<seq<real>>)

  const FRESH := Machine(0, [], [])

  function Finish(m: Machine): Result {
    Result(m.rows, if m.depth != 0 then UNTERMINATED else "")
  }

  function Opened(m: Machine): Machine { Machine(m.depth + 1, [], m.rows) }

  function Closed(m: Machine): Machine {
    Machine(m.depth - 1, m.row, if m.depth - 1 == 1 then m.rows + [m.row] else m.rows)
  }

  function Added(m: Machine, value: real): Machine { m.(row := m.row + [value]) }

  function Parse(convert: Conversion, s: string, m: Machine): Result
    decreases |s|
  {
    if s == "" then Finish(m)
    else if s[0] == '[' then
      if m.depth + 1 > 2 then Result(m.rows, TOO_DEEP) else Parse(convert, s[1..], Opened(m))
    else if s[0] == ']' then
      if m.depth - 1 < 0 then Result(m.rows, TOO_MANY_CLOSED) else Parse(convert, s[1..], Closed(m))
    else if Separator(s[0]) then Parse(convert, s[1..], m)
    else if m.depth != 2 then Result(m.rows, Misplaced(s[0]))
    else
      var (value, taken) := Extract(convert, s);
      if value == None then Finish(m) else Parse(convert, s[taken..], Added(m, value.value))
  }

  method ParseVVF(convert: Conversion, input: string) returns (result: seq<seq<real>>, error: string)
    ensures Result(result, error) == Parse(convert, input, FRESH)
  {
    hide Extract, Finish;
    result, error := [], "";
    var position, failed, eof := 0, false, false;
    var depth := 0;
    var currentVector: seq<real> := [];
    while !failed && !eof
      invariant 0 <= position <= |input| && 0 <= depth <= 2
      invariant eof ==> position == |input|
      invariant Parse(convert, input, FRESH) ==
        if failed then Finish(Machine(depth, currentVector, result))
        else Parse(convert, input[position..], Machine(depth, currentVector, result))
      decreases !failed, |input| - position, !eof
    {
      if position == |input| {
        eof := true;
        continue;
      }
      var rest := input[position..];
      var c := input[position];
      assert rest[1..] == input[position + 1..];
      if c == '[' {
        depth := depth + 1;
        if depth > 2 {
          return result, TOO_DEEP;
        }
        position := position + 1;
        currentVector := [];
      } else if c == ']' {
        depth := depth - 1;
        if depth < 0 {
          return result, TOO_MANY_CLOSED;
        }
        position := position + 1;
        if depth == 1 {
          result := result + [currentVector];
        }
      } else if Separator(c) {
        position := position + 1;
      } else {
        if depth != 2 {
          return result, Misplaced(c);
        }
        var (value, taken) := Extract(convert, rest);
        assert rest[taken..] == input[position + taken..];
        position := position + taken;
        if value == None {
          failed := true;
        } else {
          eof := position == |input|;
          currentVector := currentVector + [value.value];
        }
      }
    }
    assert Parse(convert, input, FRESH) == Finish(Machine(depth, currentVector, result));
    error := if depth != 0 then UNTERMINATED else "";
    FinishIs(Machine(depth, currentVector, result));
  }

  lemma FinishIs(m: Machine)
    ensures Finish(m) == Result(m.rows, if m.depth != 0 then UNTERMINATED else "")
  {
  }

  // ---------- success means balanced brackets ----------

  function DepthAfter(depth: int, c: char): int {
    if c == '[' then depth + 1 else if c == ']' then depth - 1 else depth
  }

  /** From the given depth the brackets of s never leave 0 .. 2 and end at 0. */
  predicate Balanced(depth: int, s: string)
    decreases |s|
  {
    0 <= depth <= 2 && if s == "" then depth == 0 else Balanced(DepthAfter(depth, s[0]), s[1..])
  }

  lemma {:induction false} BalancedSkips(depth: int, s: string, n: nat)
    requires 0 <= depth <= 2 && n <= |s| && forall k :: 0 <= k < n ==> !Bracket(s[k])
    ensures Balanced(depth, s) == Balanced(depth, s[n..])
  {
    if n > 0 {
      BalancedSkips(depth, s[1..], n - 1);
      assert s[1..][n - 1..] == s[n..];
    }
  }

  /** Every character but brackets and separators belongs to a numeral at depth 2 that converts. */
  predicate NumbersRead(convert: Conversion, depth: int, s: string)
    decreases |s|
  {
    if s == "" then true
    else if Bracket(s[0]) || Separator(s[0]) then NumbersRead(convert, DepthAfter(depth, s[0]), s[1..])
    else depth == 2 && Extract(convert, s).0.Some? && NumbersRead(convert, depth, s[Extract(convert, s).1..])
  }

  /** The error is empty exactly when the brackets are balanced within two levels and all numbers are read. */
  lemma {:induction false} SuccessExactly(convert: Conversion, s: string, m: Machine)
    requires 0 <= m.depth <= 2
    ensures Parse(convert, s, m).error == "" <==> Balanced(m.depth, s) && NumbersRead(convert, m.depth, s)
    decreases |s|
  {
    hide Extract;
    if s != "" {
      if s[0] == '[' {
        if m.depth < 2 { SuccessExactly(convert, s[1..], Opened(m)); }
      } else if s[0] == ']' {
        if m.depth > 0 { SuccessExactly(convert, s[1..], Closed(m)); }
      } else if Separator(s[0]) {
        SuccessExactly(convert, s[1..], m);
      } else if m.depth == 2 {
        var (value, taken) := Extract(convert, s);
        BalancedSkips(m.depth, s, taken);
        if value.Some? { SuccessExactly(convert, s[taken..], Added(m, value.value)); }
      }
    }
  }

  /** A number that cannot be read ends the parse with the message about an unterminated string, whatever follows. */
  lemma FailedNumberEnds(convert: Conversion, s: string, m: Machine)
    requires m.depth == 2 && s != "" && !Bracket(s[0]) && !Separator(s[0]) && Extract(convert, s).0 == None
    ensures Parse(convert, s, m) == Result(m.rows, UNTERMINATED)
  {
    hide Extract;
  }

  lemma ParseOpen(convert: Conversion, s: string, m: Machine)
    requires m.depth < 2
    ensures Parse(convert, "[" + s, m) == Parse(convert, s, Opened(m))
  {
    hide Extract;
    assert ("[" + s)[1..] == s;
  }

  /** So brackets that match are not enough: "[[x]]" is reported as unterminated. */
  lemma BalancedButUnterminated(convert: Conversion)
    ensures Balanced(0, "[[x]]") && Parse(convert, "[[x]]", FRESH) == Result([], UNTERMINATED)
  {
    hide Parse;
    assert Balanced(0, "[[x]]") by {
      assert "[[x]]"[1..] == "[x]]" && "[x]]"[1..] == "x]]" && "x]]"[1..] == "]]" && "]]"[1..] == "]" && "]"[1..] == "";
    }
    assert LeadingSpaces("x]]") == 0 && "x]]"[0..] == "x]]" && NumeralLength("x]]", Start) == 0;
    assert "[" + "[x]]" == "[[x]]" && "[" + "x]]" == "[x]]";
    assert Extract(convert, "x]]").0 == None;
    FailedNumberEnds(convert, "x]]", Opened(Opened(FRESH)));
    ParseOpen(convert, "[x]]", FRESH);
    ParseOpen(convert, "x]]", Opened(FRESH));
  }

  // ---------- tokens and layouts ----------

  datatype Token = Open | Close | Number(text: string)

  /** A whole numeral: the stream reads all of it as one. */
  predicate Numeral(text: string) {
    text != "" && NumeralLength(text, Start) == |text|
  }

  predicate AllSeparators(s: string) {
    forall c :: c in s ==> c == ',' || c == ' ' || c == '\t'
  }

  function TokenText(t: Token): string {
    match t
    case Open => "["
    case Close => "]"
    case Number(text) => text
  }

  /** The tokens written out, each after its own separators, and some more at the end. */
  function Text(tokens: seq<Token>, gaps: seq<string>): string
    requires |gaps| == |tokens| + 1
  {
    if tokens == [] then gaps[0] else gaps[0] + (TokenText(tokens[0]) + Text(tokens[1..], gaps[1..]))
  }

  /** Gaps hold only separators, and two numerals in a row have at least one between them. */
  predicate Layout(tokens: seq<Token>, gaps: seq<string>) {
    && |gaps| == |tokens| + 1
    && (forall g :: g in gaps ==> AllSeparators(g))
    && (forall k :: 0 <= k < |tokens| ==> tokens[k].Number? ==> Numeral(tokens[k].text))
    && (forall k :: 0 < k < |tokens| ==> tokens[k - 1].Number? && tokens[k].Number? ==> gaps[k] != "")
  }

  /** What the tokens mean, read one by one. */
  function Interpret(convert: Conversion, tokens: seq<Token>, m: Machine): Result {
    if tokens == [] then Finish(m)
    else
      match tokens[0]
      case Open => if m.depth == 2 then Result(m.rows, TOO_DEEP) else Interpret(convert, tokens[1..], Opened(m))
      case Close => if m.depth == 0 then Result(m.rows, TOO_MANY_CLOSED) else Interpret(convert, tokens[1..], Closed(m))
      case Number(text) =>
        if m.depth != 2 then Result(m.rows, Misplaced(if text == "" then '?' else text[0]))
        else if convert(text) == None then Finish(m)
        else Interpret(convert, tokens[1..], Added(m, convert(text).value))
  }

  lemma {:induction false} SeparatorsSkipped(convert: Conversion, gap: string, s: string, m: Machine)
    requires AllSeparators(gap)
    ensures Parse(convert, gap + s, m) == Parse(convert, s, m)
    decreases |gap|
  {
    if gap == "" {
      assert gap + s == s;
    } else {
      assert (gap + s)[1..] == gap[1..] + s;
      assert gap[0] in gap;
      assert forall c :: c in gap[1..] ==> c in gap;
      SeparatorsSkipped(convert, gap[1..], s, m);
    }
  }

  predicate Delimited(s: string) {
    s == "" || Separator(s[0]) || Bracket(s[0])
  }

  lemma DelimiterEnds(s: string, p: Progress)
    requires Delimited(s)
    ensures NumeralLength(s, p) == 0
  {
  }

  /** A numeral before a delimiter is read exactly. */
  lemma {:induction false} NumeralEnds(text: string, s: string, p: Progress)
    requires NumeralLength(text, p) == |text| && Delimited(s)
    ensures NumeralLength(text + s, p) == |text|
    decreases |text|
  {
    hide Advance;
    if text == "" {
      assert text + s == s;
      DelimiterEnds(s, p);
    } else {
      assert (text + s)[1..] == text[1..] + s;
      NumeralEnds(text[1..], s, Advance(p, text[0]).value);
    }
  }

  lemma ExtractsNumeral(convert: Conversion, text: string, s: string)
    requires Numeral(text) && Delimited(s)
    ensures Extract(convert, text + s) == (convert(text), |text|)
  {
    NumeralEnds(text, s, Start);
    assert (text + s)[0] == text[0] && LeadingSpaces(text + s) == 0;
    assert (text + s)[0..] == text + s && (text + s)[..|text|] == text;
  }

  lemma TextDelimited(tokens: seq<Token>, gaps: seq<string>)
    requires Layout(tokens, gaps) && (tokens != [] && tokens[0].Number? ==> gaps[0] != "")
    ensures Delimited(Text(tokens, gaps))
  {
    assert gaps[0] in gaps;
    if gaps[0] != "" {
      assert gaps[0][0] in gaps[0];
    }
  }

  lemma LayoutTail(tokens: seq<Token>, gaps: seq<string>)
    requires Layout(tokens, gaps) && tokens != []
    ensures Layout(tokens[1..], gaps[1..])
    ensures |tokens| > 1 && tokens[0].Number? && tokens[1].Number? ==> gaps[1..][0] != ""
  {
    var t, g := tokens[1..], gaps[1..];
    assert forall k :: 0 <= k < |t| ==> t[k] == tokens[k + 1];
    assert forall k :: 0 <= k < |g| ==> g[k] == gaps[k + 1];
  }

  /**
   * However the tokens are laid out, the parser reads what they mean: extra separators change nothing, errors
   * included.
   */
  lemma {:induction false} LayoutIrrelevant(convert: Conversion, tokens: seq<Token>, gaps: seq<string>, m: Machine)
    requires Layout(tokens, gaps) && 0 <= m.depth <= 2
    ensures Parse(convert, Text(tokens, gaps), m) == Interpret(convert, tokens, m)
    decreases |tokens|
  {
    hide Extract, Numeral, Layout;
    GapsSeparate(tokens, gaps);
    if tokens == [] {
      SeparatorsSkipped(convert, gaps[0], "", m);
      assert gaps[0] + "" == gaps[0];
    } else {
      var t, rest := tokens[0], Text(tokens[1..], gaps[1..]);
      SeparatorsSkipped(convert, gaps[0], TokenText(t) + rest, m);
      LayoutTail(tokens, gaps);
      assert (TokenText(t) + rest)[|TokenText(t)|..] == rest;
      match t
      case Open => if m.depth < 2 { LayoutIrrelevant(convert, tokens[1..], gaps[1..], Opened(m)); }
      case Close => if m.depth > 0 { LayoutIrrelevant(convert, tokens[1..], gaps[1..], Closed(m)); }
      case Number(text) =>
        NumeralStarts(text);
        TextDelimited(tokens[1..], gaps[1..]);
        ExtractsNumeral(convert, text, rest);
        assert (text + rest)[0] == text[0];
        if m.depth == 2 && convert(text).Some? {
          LayoutIrrelevant(convert, tokens[1..], gaps[1..], Added(m, convert(text).value));
        }
    }
  }

  lemma GapsSeparate(tokens: seq<Token>, gaps: seq<string>)
    requires Layout(tokens, gaps)
    ensures |gaps| == |tokens| + 1 && AllSeparators(gaps[0])
    ensures tokens != [] && tokens[0].Number? ==> Numeral(tokens[0].text)
  {
    hide Numeral, AllSeparators;
    assert gaps[0] in gaps;
  }

  lemma NumeralStarts(text: string)
    requires Numeral(text)
    ensures text != "" && !Bracket(text[0]) && !Separator(text[0])
  {
  }

  // ---------- reading back what was written ----------

  function RowTokens(row: seq<string>): seq<Token> {
    seq(|row|, k requires 0 <= k < |row| => Number(row[k]))
  }

  function RowsTokens(rows: seq<seq<string>>): seq<Token> {
    if rows == [] then [] else [Open] + RowTokens(rows[0]) + [Close] + RowsTokens(rows[1..])
  }

  /** A list of lists of numerals as tokens. */
  function Tokens(rows: seq<seq<string>>): seq<Token> {
    [Open] + RowsTokens(rows) + [Close]
  }

  predicate Convertible(convert: Conversion, rows: seq<seq<string>>) {
    forall i, k :: 0 <= i < |rows| && 0 <= k < |rows[i]| ==> Numeral(rows[i][k]) && convert(rows[i][k]).Some?
  }

  function RowValues(convert: Conversion, row: seq<string>): seq<real>
    requires forall k :: 0 <= k < |row| ==> convert(row[k]).Some?
  {
    seq(|row|, k requires 0 <= k < |row| => convert(row[k]).value)
  }

  function Values(convert: Conversion, rows: seq<seq<string>>): seq<seq<real>>
    requires Convertible(convert, rows)
  {
    seq(|rows|, i requires 0 <= i < |rows| => RowValues(convert, rows[i]))
  }

  lemma {:induction false} RowReadBack(convert: Conversion, row: seq<string>, tail: seq<Token>, m: Machine)
    requires m.depth == 2 && forall k :: 0 <= k < |row| ==> convert(row[k]).Some?
    ensures Interpret(convert, RowTokens(row) + tail, m) ==
            Interpret(convert, tail, m.(row := m.row + RowValues(convert, row)))
    decreases |row|
  {
    if row == [] {
      assert RowTokens(row) + tail == tail && m.row + RowValues(convert, row) == m.row;
    } else {
      var next := Added(m, convert(row[0]).value);
      assert (RowTokens(row) + tail)[1..] == RowTokens(row[1..]) + tail;
      assert m.row + RowValues(convert, row) == next.row + RowValues(convert, row[1..]);
      RowReadBack(convert, row[1..], tail, next);
    }
  }

  lemma InterpretOpen(convert: Conversion, tail: seq<Token>, m: Machine)
    requires m.depth < 2
    ensures Interpret(convert, [Open] + tail, m) == Interpret(convert, tail, Opened(m))
  {
    assert ([Open] + tail)[1..] == tail;
  }

  lemma InterpretClose(convert: Conversion, tail: seq<Token>, m: Machine)
    requires m.depth > 0
    ensures Interpret(convert, [Close] + tail, m) == Interpret(convert, tail, Closed(m))
  {
    assert ([Close] + tail)[1..] == tail;
  }

  lemma TokensSplit(row: seq<Token>, rows: seq<Token>)
    ensures [Open] + row + [Close] + rows + [Close] == [Open] + (row + ([Close] + (rows + [Close])))
  {
  }

  lemma ValuesSplit(convert: Conversion, rows: seq<seq<string>>)
    requires Convertible(convert, rows)
    ensures Values(convert, rows) ==
      if rows == [] then [] else [RowValues(convert, rows[0])] + Values(convert, rows[1..])
  {
  }

  lemma {:induction false} RowsReadBack(convert: Conversion, rows: seq<seq<string>>, m: Machine)
    requires m.depth == 1 && Convertible(convert, rows)
    ensures Interpret(convert, RowsTokens(rows) + [Close], m) == Result(m.rows + Values(convert, rows), "")
    decreases |rows|
  {
    hide Interpret, Numeral, RowValues, Values, RowTokens;
    ValuesSplit(convert, rows);
    if rows == [] {
      assert RowsTokens(rows) + [Close] == [Close] + [] && m.rows + Values(convert, rows) == m.rows;
      InterpretClose(convert, [], m);
      InterpretNothing(convert, Closed(m));
    } else {
      var last := RowsTokens(rows[1..]) + [Close];
      var read := Machine(2, RowValues(convert, rows[0]), m.rows);
      TokensSplit(RowTokens(rows[0]), RowsTokens(rows[1..]));
      InterpretOpen(convert, RowTokens(rows[0]) + ([Close] + last), m);
      RowReadBack(convert, rows[0], [Close] + last, Opened(m));
      assert Opened(m).row + RowValues(convert, rows[0]) == read.row;
      InterpretClose(convert, last, read);
      RowsReadBack(convert, rows[1..], Closed(read));
      assert m.rows + Values(convert, rows) == Closed(read).rows + Values(convert, rows[1..]);
    }
  }

  lemma InterpretNothing(convert: Conversion, m: Machine)
    ensures Interpret(convert, [], m) == Finish(m)
  {
  }

  /** Writing a list of lists of numbers and parsing it gives it back with no error, whatever separators are used. */
  lemma ReadsBack(convert: Conversion, rows: seq<seq<string>>, gaps: seq<string>)
    requires Convertible(convert, rows) && Layout(Tokens(rows), gaps)
    ensures Parse(convert, Text(Tokens(rows), gaps), FRESH) == Result(Values(convert, rows), "")
  {
    hide Parse, Text, Layout, Values, Convertible, RowsTokens;
    LayoutIrrelevant(convert, Tokens(rows), gaps, FRESH);
    assert Tokens(rows)[1..] == RowsTokens(rows) + [Close];
    RowsReadBack(convert, rows, Opened(FRESH));
    assert [] + Values(convert, rows) == Values(convert, rows);
  }

  /** The usual spelling: a comma and a space between numbers and between rows. */
  function UsualGaps(tokens: seq<Token>): seq<string> {
    seq(|tokens| + 1, k requires 0 <= k <= |tokens| =>
      if 0 < k < |tokens| && tokens[k - 1] != Open && tokens[k] != Close then ", " else "")
  }

  function Print(rows: seq<seq<string>>): string {
    Text(Tokens(rows), UsualGaps(Tokens(rows)))
  }

  lemma {:induction false} TokensNumeral(convert: Conversion, rows: seq<seq<string>>)
    requires Convertible(convert, rows)
    ensures forall t :: t in RowsTokens(rows) && t.Number? ==> Numeral(t.text)
  {
    if rows != [] {
      TokensNumeral(convert, rows[1..]);
    }
  }

  /** Parsing undoes printing. */
  lemma ParsePrint(convert: Conversion, rows: seq<seq<string>>)
    requires Convertible(convert, rows)
    ensures Parse(convert, Print(rows), FRESH) == Result(Values(convert, rows), "")
  {
    hide Parse, Text, Numeral, Values, Convertible, RowsTokens;
    var tokens, gaps := Tokens(rows), UsualGaps(Tokens(rows));
    TokensNumeral(convert, rows);
    assert AllSeparators("") && AllSeparators(", ");
    assert Layout(tokens, gaps);
    ReadsBack(convert, rows, gaps);
  }
}
