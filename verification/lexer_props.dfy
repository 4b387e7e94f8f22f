/** What the tokenizer promises: bare text splits at runs of blanks, comments end the line,
    carriage returns are invisible, literals become single tokens, and misplaced or unterminated
    quotes are errors. */
module LexerProps {
  import opened Base
  import opened Text
  import opened Lexer

  /** Scanning bare text up to a line end yields the blank-separated words, after the tokens already
      collected and the partial token. */
  lemma {:induction false} ScanBare(unquote: Unquoter, s: string, t: string, sc: Scanner)
    requires !sc.inQuote && IsBare(s) && IsLineEnd(t)
    ensures Scan(unquote, s + t, sc) == Ok(Finish(sc.tokens + Words(s, sc.current), t))
    decreases |s|
  {
    if |s| == 0 {
      assert s + t == t;
    } else {
      var ch := s[0];
      assert (s + t)[0] == ch && (s + t)[1..] == s[1..] + t;
      assert IsBare(s[1..]) by {
        forall i | 0 <= i < |s[1..]| ensures IsPlain(s[1..][i]) || IsBlank(s[1..][i]) {
          assert s[1..][i] == s[i + 1];
        }
      }
      if IsBlank(ch) {
        var e := Emit(sc).(prev := ch);
        assert Scan(unquote, s + t, sc) == Scan(unquote, s[1..] + t, e);
        ScanBare(unquote, s[1..], t, e);
        assert e.tokens + Words(s[1..], "") == sc.tokens + Words(s, sc.current);
      } else {
        var e := sc.(current := sc.current + [ch], inEscape := false, prev := ch);
        assert Scan(unquote, s + t, sc) == Scan(unquote, s[1..] + t, e);
        ScanBare(unquote, s[1..], t, e);
      }
    }
  }

  /** A line of bare text yields its blank-separated words; at the end of the input a line with
      no words is the end of the input. */
  lemma ParseBare(unquote: Unquoter, s: string, t: string)
    requires IsBare(s) && IsLineEnd(t)
    ensures Parse(unquote, s + t) == Ok(Finish(Words(s, ""), t))
  {
    ScanBare(unquote, s, t, START);
    assert START.tokens + Words(s, START.current) == Words(s, "");
  }

  /** The words of bare text are non-empty and hold no blanks. */
  lemma {:induction false} WordsShape(s: string, run: string)
    requires forall i :: 0 <= i < |run| ==> !IsBlank(run[i])
    ensures forall w :: w in Words(s, run) ==> w != "" && forall i :: 0 <= i < |w| ==> !IsBlank(w[i])
    decreases |s|
  {
    if |s| > 0 {
      if IsBlank(s[0]) {
        WordsShape(s[1..], "");
      } else {
        WordsShape(s[1..], run + [s[0]]);
      }
    }
  }

  /** Blank text has no words. */
  lemma {:induction false} WordsOfBlanks(s: string)
    requires forall i :: 0 <= i < |s| ==> IsBlank(s[i])
    ensures Words(s, "") == []
    decreases |s|
  {
    if |s| > 0 {
      WordsOfBlanks(s[1..]);
    }
  }

  lemma {:induction false} SkipComment(c: string, rest: string)
    requires forall i :: 0 <= i < |c| ==> c[i] != '\n'
    ensures AfterNewline(c + "\n" + rest) == rest
    decreases |c|
  {
    if |c| > 0 {
      assert (c + "\n" + rest)[1..] == c[1..] + "\n" + rest;
      SkipComment(c[1..], rest);
    }
  }

  /** A `#` or `;` ends the line: the rest of it is skipped. */
  lemma CommentEndsLine(unquote: Unquoter, s: string, mark: char, c: string, rest: string)
    requires IsBare(s) && (mark == '#' || mark == ';')
    requires forall i :: 0 <= i < |c| ==> c[i] != '\n'
    ensures Parse(unquote, s + [mark] + c + "\n" + rest) == Ok(Fields(Words(s, ""), rest))
  {
    var t := [mark] + c + "\n" + rest;
    assert s + [mark] + c + "\n" + rest == s + t;
    ParseBare(unquote, s, t);
    assert t[0] == mark && t[1..] == c + "\n" + rest;
    SkipComment(c, rest);
  }

  /** A line holding only blanks and a comment has no tokens. */
  lemma CommentOnlyLine(unquote: Unquoter, s: string, mark: char, c: string, rest: string)
    requires (forall i :: 0 <= i < |s| ==> IsBlank(s[i])) && (mark == '#' || mark == ';')
    requires forall i :: 0 <= i < |c| ==> c[i] != '\n'
    ensures Parse(unquote, s + [mark] + c + "\n" + rest) == Ok(Fields([], rest))
  {
    CommentEndsLine(unquote, s, mark, c, rest);
    WordsOfBlanks(s);
  }

  /** The result of a scan on input whose carriage returns were removed. */
  function WithoutCR(r: Result<Line, LexError>): Result<Line, LexError>
  {
    if r.Ok? && r.value.Fields? then Ok(Fields(r.value.tokens, DropCR(r.value.rest))) else r
  }

  lemma {:induction false} AfterNewlineDropCR(s: string)
    ensures AfterNewline(DropCR(s)) == DropCR(AfterNewline(s))
    decreases |s|
  {
    if |s| > 0 {
      AfterNewlineDropCR(s[1..]);
      if s[0] != '\r' {
        assert ([s[0]] + DropCR(s[1..]))[1..] == DropCR(s[1..]);
      }
    }
  }

  /** Carriage returns are invisible: removing them changes neither the tokens nor the errors,
      only the carriage returns left in the unread input. */
  lemma {:induction false} ScanDropCR(unquote: Unquoter, s: string, sc: Scanner)
    ensures Scan(unquote, DropCR(s), sc) == WithoutCR(Scan(unquote, s, sc))
    decreases |s|
  {
    if |s| > 0 {
      var ch := s[0];
      if ch == '\r' {
        ScanDropCR(unquote, s[1..], sc);
      } else {
        var d := DropCR(s);
        assert d == [ch] + DropCR(s[1..]);
        assert d[0] == ch && d[1..] == DropCR(s[1..]);
        if ch == '\n' && (!sc.inQuote || sc.quote != '`') {
        } else if !sc.inQuote && IsQuote(ch) {
          if IsBlank(sc.prev) {
            ScanDropCR(unquote, s[1..], Emit(sc).(current := [ch], quote := ch, inQuote := true, prev := ch));
          }
        } else if sc.inQuote && ch == sc.quote && !sc.inEscape {
          var literal := sc.current + [ch];
          if unquote(literal).Some? {
            var text := unquote(literal).value;
            if !(ch == '\'' && |text| == 0) {
              var token := if ch == '\'' then "0x" + Hex(text[0] as int) else text;
              ScanDropCR(unquote, s[1..], sc.(tokens := sc.tokens + [token], current := "", inQuote := false, prev := ch));
            }
          }
        } else if (ch == '#' || ch == ';') && !sc.inQuote {
          AfterNewlineDropCR(s[1..]);
        } else if !sc.inQuote && IsBlank(ch) {
          ScanDropCR(unquote, s[1..], Emit(sc).(prev := ch));
        } else if !sc.inEscape && ch == '\\' && sc.inQuote && sc.quote != '`' {
          ScanDropCR(unquote, s[1..], sc.(current := sc.current + [ch], inEscape := true, prev := ch));
        } else {
          ScanDropCR(unquote, s[1..], sc.(current := sc.current + [ch], inEscape := false, prev := ch));
        }
      }
    }
  }

  lemma ParseDropCR(unquote: Unquoter, s: string)
    ensures Parse(unquote, DropCR(s)) == WithoutCR(Parse(unquote, s))
  {
    ScanDropCR(unquote, s, START);
  }

  /** A run of plain characters outside quotes extends the current token. */
  lemma {:induction false} ScanRun(unquote: Unquoter, w: string, t: string, sc: Scanner)
    requires !sc.inQuote && |w| > 0 && forall i :: 0 <= i < |w| ==> IsPlain(w[i])
    ensures Scan(unquote, w + t, sc) ==
              Scan(unquote, t, sc.(current := sc.current + w, inEscape := false, prev := w[|w| - 1]))
    decreases |w|
  {
    var e := sc.(current := sc.current + [w[0]], inEscape := false, prev := w[0]);
    assert (w + t)[0] == w[0] && (w + t)[1..] == w[1..] + t;
    if |w| == 1 {
      assert w[1..] + t == t;
      assert sc.current + w == sc.current + [w[0]];
    } else {
      ScanRun(unquote, w[1..], t, e);
      assert e.current + w[1..] == sc.current + w;
    }
  }

  /** A quote that starts in the middle of a token is an error. */
  lemma QuoteInsideToken(unquote: Unquoter, w: string, q: char, x: string)
    requires |w| > 0 && (forall i :: 0 <= i < |w| ==> IsPlain(w[i])) && IsQuote(q)
    ensures Parse(unquote, w + [q] + x) == Err(QuoteInToken(q, w))
  {
    assert w + [q] + x == w + ([q] + x);
    ScanRun(unquote, w, [q] + x, START);
    var e := START.(current := START.current + w, inEscape := false, prev := w[|w| - 1]);
    assert e.current == w;
    assert !IsBlank(e.prev) && !e.inQuote;
    assert ([q] + x)[0] == q;
    assert Scan(unquote, [q] + x, e) == Err(QuoteInToken(q, w));
  }

  /** Characters that stay inside a literal opened with `q`: anything but the closing quote and CR,
      and, except in back-quoted literals, newlines and backslashes. */
  predicate IsLiteralText(q: char, body: string)
  {
    forall i :: 0 <= i < |body| ==>
      body[i] != q && body[i] != '\r' && (q != '`' ==> body[i] != '\n' && body[i] != '\\')
  }

  /** Inside a literal, such characters are collected as they are. */
  lemma {:induction false} ScanLiteralText(unquote: Unquoter, body: string, t: string, sc: Scanner)
    requires sc.inQuote && !sc.inEscape && IsQuote(sc.quote) && IsLiteralText(sc.quote, body)
    ensures Scan(unquote, body + t, sc) ==
              Scan(unquote, t, sc.(current := sc.current + body,
                                   prev := if |body| == 0 then sc.prev else body[|body| - 1]))
    decreases |body|
  {
    if |body| == 0 {
      assert body + t == t;
      assert sc.current + body == sc.current;
    } else {
      var e := sc.(current := sc.current + [body[0]], inEscape := false, prev := body[0]);
      assert (body + t)[0] == body[0] && (body + t)[1..] == body[1..] + t;
      assert Scan(unquote, body + t, sc) == Scan(unquote, body[1..] + t, e);
      assert IsLiteralText(sc.quote, body[1..]) by {
        forall i | 0 <= i < |body[1..]|
          ensures body[1..][i] != sc.quote && body[1..][i] != '\r'
          ensures sc.quote != '`' ==> body[1..][i] != '\n' && body[1..][i] != '\\'
        {
          assert body[1..][i] == body[i + 1];
        }
      }
      ScanLiteralText(unquote, body[1..], t, e);
      assert e.current + body[1..] == sc.current + body;
    }
  }

  /** A literal left open at the end of the input is an error, and so is one cut by a newline,
      except a back-quoted one, which may span lines. */
  lemma UnterminatedLiteral(unquote: Unquoter, q: char, body: string, rest: string)
    requires IsQuote(q) && IsLiteralText(q, body)
    ensures Parse(unquote, [q] + body) == Err(Unterminated(q, [q] + body))
    ensures q != '`' ==> Parse(unquote, [q] + body + "\n" + rest) == Err(Unterminated(q, [q] + body))
  {
    var open := START.(current := [q], quote := q, inQuote := true, prev := q);
    assert Emit(START) == START;
    assert ([q] + body)[1..] == body + [];
    ScanLiteralText(unquote, body, [], open);
    if q != '`' {
      var s := [q] + body + "\n" + rest;
      assert s[0] == q && s[1..] == body + ("\n" + rest);
      ScanLiteralText(unquote, body, "\n" + rest, open);
    }
  }

  /** A complete literal is one token: its unquoted text, or for a character literal the code
      point in hexadecimal with a `0x` prefix. A back-quoted literal keeps its newlines. */
  lemma Literal(unquote: Unquoter, q: char, body: string, rest: string)
    requires IsQuote(q) && IsLiteralText(q, body)
    requires unquote([q] + body + [q]).Some?
    requires q == '\'' ==> |unquote([q] + body + [q]).value| > 0
    ensures var text := unquote([q] + body + [q]).value;
            var token := if q == '\'' then "0x" + Hex(text[0] as int) else text;
            Parse(unquote, [q] + body + [q] + "\n" + rest) == Ok(Fields([token], rest))
  {
    var open := START.(current := [q], quote := q, inQuote := true, prev := q);
    var s := [q] + body + [q] + "\n" + rest;
    var tail := [q] + "\n" + rest;
    assert Emit(START) == START;
    assert s[0] == q && s[1..] == body + tail;
    assert Scan(unquote, s, START) == Scan(unquote, body + tail, open);
    ScanLiteralText(unquote, body, tail, open);
    var full := open.(current := open.current + body, prev := if |body| == 0 then open.prev else body[|body| - 1]);
    var literal := [q] + body + [q];
    assert full.current + [q] == literal;
    var text := unquote(literal).value;
    var token := if q == '\'' then "0x" + Hex(text[0] as int) else text;
    var closed := full.(tokens := full.tokens + [token], current := "", inQuote := false, prev := q);
    assert full.tokens + [token] == [token];
    assert unquote(full.current + [q]) == Some(text);
    assert tail[0] == q && tail[1..] == "\n" + rest;
    assert Scan(unquote, tail, full) == Scan(unquote, "\n" + rest, closed);
    assert ("\n" + rest)[1..] == rest;
    assert Scan(unquote, "\n" + rest, closed) == Ok(Fields([token], rest));
  }

  /** A character literal becomes the hexadecimal code of its character. */
  lemma CharLiteral(unquote: Unquoter, c: char, rest: string)
    requires c != '\'' && c != '\\' && c != '\n' && c != '\r'
    requires unquote(['\'', c, '\'']) == Some([c])
    ensures Parse(unquote, ['\'', c, '\''] + "\n" + rest) == Ok(Fields(["0x" + Hex(c as int)], rest))
    ensures NumeralValue(Hex(c as int), 16) == c as int
  {
    assert ['\'', c, '\''] == ['\''] + [c] + ['\''];
    Literal(unquote, '\'', [c], rest);
    HexRoundTrip(c as int);
  }
}
