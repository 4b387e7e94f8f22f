/** The assembler's line tokenizer (`parse`): a character state machine that splits one source
    line into tokens, honouring double-quoted, single-quoted and back-quoted literals, backslash
    escapes, `#` and `;` comments, and Windows line ends. The input is the not yet read rest of the
    source as decoded characters; a call returns the tokens of one line and the input after it. */
module Lexer {
  import opened Base
  import opened Text

  /** `strconv.Unquote`: the text a Go literal (quotes included) denotes, or None when it is not a
      valid literal. Its escape rules are outside the model; it is a parameter. The result is
      characters, so a literal whose escapes (`\x80`..`\xff`, `\200`..`\377`) denote bytes that are
      not valid UTF-8 cannot be returned. */
  type Unquoter = string -> Option<string>

  datatype LexError =
    | QuoteInToken(quote: char, token: string)
    | Unterminated(quote: char, literal: string)
    | BadLiteral(literal: string)
      /** A character literal that unquotes to nothing; `[]rune(s)[0]` would panic. */
    | EmptyCharLiteral(literal: string)

  /** One line's tokens and the input after it, or the end of the input with nothing on the last
      line (Go's `io.EOF`). */
  datatype Line = Fields(tokens: seq<string>, rest: string) | EndOfInput

  /** The scanner's registers: tokens so far, the token being built, whether a literal is open and
      with which quote, whether the last character was an escaping backslash, and the previous
      character (CRs aside). */
  datatype Scanner = Scanner(tokens: seq<string>, current: string, inQuote: bool, inEscape: bool,
                             prev: char, quote: char)

  const START: Scanner := Scanner([], "", false, false, ' ', '\0')

  predicate IsQuote(c: char) { c == '"' || c == '\'' || c == '`' }

  predicate IsBlank(c: char) { c == ' ' || c == '\t' }

  /** Close the current token, if any. */
  function Emit(sc: Scanner): (r: Scanner)
    ensures r.current == "" && r.inQuote == sc.inQuote && r.prev == sc.prev
    ensures r.tokens == sc.tokens + (if sc.current == "" then [] else [sc.current])
  {
    if |sc.current| > 0 then sc.(tokens := sc.tokens + [sc.current], current := "") else sc
  }

  /** What `ReadString('\n')` leaves unread: everything after the first newline, or nothing. */
  function AfterNewline(s: string): (r: string)
    ensures |r| <= |s|
    ensures forall i :: 0 <= i < |s| && s[i] == '\n' ==> |r| < |s|
  {
    if |s| == 0 then "" else if s[0] == '\n' then s[1..] else AfterNewline(s[1..])
  }

  /** The scanning loop over the unread input `s`. Every `Fields` result consumed at least one
      character, unless the input was already exhausted. */
  function Scan(unquote: Unquoter, s: string, sc: Scanner): (r: Result<Line, LexError>)
    ensures r.Ok? && r.value.Fields? ==> |r.value.rest| < |s| || (|s| == 0 && r.value.rest == "")
    decreases |s|
  {
    if |s| == 0 then
      if sc.inQuote then Err(Unterminated(sc.quote, sc.current))
      else
        var e := Emit(sc);
        if |e.tokens| == 0 then Ok(EndOfInput) else Ok(Fields(e.tokens, ""))
    else
      var ch := s[0];
      if ch == '\r' then Scan(unquote, s[1..], sc)
      else if ch == '\n' && (!sc.inQuote || sc.quote != '`') then
        if sc.inQuote then Err(Unterminated(sc.quote, sc.current))
        else Ok(Fields(Emit(sc).tokens, s[1..]))
      else if !sc.inQuote && IsQuote(ch) then
        if !IsBlank(sc.prev) then Err(QuoteInToken(ch, sc.current))
        else Scan(unquote, s[1..], Emit(sc).(current := [ch], quote := ch, inQuote := true, prev := ch))
      else if sc.inQuote && ch == sc.quote && !sc.inEscape then
        var literal := sc.current + [ch];
        match unquote(literal)
        case None => Err(BadLiteral(literal))
        case Some(text) =>
          if ch == '\'' && |text| == 0 then Err(EmptyCharLiteral(literal))
          else
            var token := if ch == '\'' then "0x" + Hex(text[0] as int) else text;
            Scan(unquote, s[1..], sc.(tokens := sc.tokens + [token], current := "", inQuote := false, prev := ch))
      else if (ch == '#' || ch == ';') && !sc.inQuote then
        Ok(Fields(Emit(sc).tokens, AfterNewline(s[1..])))
      else if !sc.inQuote && IsBlank(ch) then
        Scan(unquote, s[1..], Emit(sc).(prev := ch))
      else if !sc.inEscape && ch == '\\' && sc.inQuote && sc.quote != '`' then
        Scan(unquote, s[1..], sc.(current := sc.current + [ch], inEscape := true, prev := ch))
      else
        Scan(unquote, s[1..], sc.(current := sc.current + [ch], inEscape := false, prev := ch))
  }

  /** `parse`: the tokens of the next line. A line that is read consumes input. */
  function Parse(unquote: Unquoter, s: string): (r: Result<Line, LexError>)
    ensures r.Ok? && r.value.Fields? ==> |r.value.rest| < |s|
    ensures |s| == 0 ==> r == Ok(EndOfInput)
  {
    Scan(unquote, s, START)
  }

  // Reference definitions for the properties below.

  /** The input with every carriage return removed. */
  function DropCR(s: string): (r: string)
    ensures |r| <= |s|
  {
    if |s| == 0 then "" else if s[0] == '\r' then DropCR(s[1..]) else [s[0]] + DropCR(s[1..])
  }

  /** A character that is neither a blank, a quote, a comment start nor a line end. */
  predicate IsPlain(c: char)
  {
    !IsBlank(c) && !IsQuote(c) && c != '#' && c != ';' && c != '\n' && c != '\r'
  }

  /** Text made of plain characters and blanks only. */
  predicate IsBare(s: string)
  {
    forall i :: 0 <= i < |s| ==> IsPlain(s[i]) || IsBlank(s[i])
  }

  /** The maximal runs of non-blank characters of `s`, after a partial run `run`. */
  function Words(s: string, run: string): (ws: seq<string>)
    decreases |s|
  {
    if |s| == 0 then (if run == "" then [] else [run])
    else if IsBlank(s[0]) then (if run == "" then [] else [run]) + Words(s[1..], "")
    else Words(s[1..], run + [s[0]])
  }

  /** How a line of bare text can end: end of input, a newline, or a comment. */
  predicate IsLineEnd(t: string)
  {
    |t| == 0 || t[0] == '\n' || t[0] == '#' || t[0] == ';'
  }

  /** The result of reaching the line end `t` with `tokens` collected. */
  function Finish(tokens: seq<string>, t: string): Line
    requires IsLineEnd(t)
  {
    if |t| == 0 then (if |tokens| == 0 then EndOfInput else Fields(tokens, ""))
    else if t[0] == '\n' then Fields(tokens, t[1..])
    else Fields(tokens, AfterNewline(t[1..]))
  }
}
