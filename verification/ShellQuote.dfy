/**
 * Text on its way to the device: the escaping for `input text`, the quoting for the shell, and the parts of the
 * shell's lexer that undo the quoting (sections 2.2.1 and 2.2.2 of the POSIX Shell Command Language).
 */
module ShellQuote {
  import opened Prelude

  // ---- quoting ----

  /** `s.replace("'", "'\\''")` */
  function EscapeQuotes(s: string): string {
    if s == "" then ""
    else (if s[0] == '\'' then "'\\''" else [s[0]]) + EscapeQuotes(s[1..])
  }

  /** `_shell_single_quote` */
  function Quote(s: string): string { "'" + EscapeQuotes(s) + "'" }

  // ---- the lexer ----

  /** Characters that end a word unless they are quoted. */
  predicate EndsWord(c: char) { c in {' ', '\t', '\n', '|', '&', ';', '<', '>', '(', ')'} }

  /** Characters with a meaning beyond the two sections modelled here. */
  predicate Expands(c: char) {
    c in {'"', '$', '`', '*', '?', '[', '#', '~', '=', '%', '{', '}', '!', '^', ']'}
  }

  /** The word at the start of `input` and what follows it; `None` when another section of the standard decides. */
  function Word(input: string, quoted: bool): (r: Option<(string, string)>)
    ensures r.Some? ==> |r.value.1| <= |input|
    ensures r.Some? && input != "" && (quoted || !EndsWord(input[0])) ==> |r.value.1| < |input|
    decreases |input|
  {
    if input == "" then (if quoted then None else Some(("", "")))
    else if quoted then
      // between single quotes every character stands for itself, up to the next single quote
      if input[0] == '\'' then Word(input[1..], false) else Prepend(input[0], Word(input[1..], true))
    else if input[0] == '\'' then Word(input[1..], true)
    else if input[0] == '\\' then
      // a backslash preserves the next character, and disappears together with a newline
      if |input| == 1 then None
      else if input[1] == '\n' then Word(input[2..], false)
      else Prepend(input[1], Word(input[2..], false))
    else if EndsWord(input[0]) then Some(("", input))
    else if Expands(input[0]) then None
    else Prepend(input[0], Word(input[1..], false))
  }

  function Prepend(c: char, w: Option<(string, string)>): Option<(string, string)> {
    if w.None? then None else Some(([c] + w.value.0, w.value.1))
  }

  /** The words of a simple command: words separated by blanks, with nothing else around them. */
  function Words(input: string): Option<seq<string>>
    decreases |input|
  {
    if input == "" then Some([])
    else if input[0] == ' ' || input[0] == '\t' then Words(input[1..])
    else if EndsWord(input[0]) then None
    else
      match Word(input, false)
      case None => None
      case Some((word, rest)) =>
        var more := Words(rest);
        if more.None? then None else Some([word] + more.value)
  }

  // ---- the lexer undoes the quoting ----

  /** Four characters that close the quotes, give a quote and open them again. */
  lemma QuoteInQuotes(tail: string)
    ensures Word("'\\''" + tail, true) == Prepend('\'', Word(tail, true))
  {
    var input := "'\\''" + tail;
    var closed, reopened := "\\''" + tail, "'" + tail;
    assert input[1..] == closed && closed[2..] == reopened && reopened[1..] == tail;
    assert Word(reopened, false) == Word(tail, true);
    assert Word(closed, false) == Prepend('\'', Word(reopened, false));
    assert Word(input, true) == Word(closed, false);
  }

  lemma OrdinaryInQuotes(c: char, tail: string)
    requires c != '\''
    ensures Word([c] + tail, true) == Prepend(c, Word(tail, true))
  {
    assert ([c] + tail)[1..] == tail;
  }

  lemma FirstInQuotes(s: string, rest: string)
    requires s != ""
    ensures Word(EscapeQuotes(s) + rest, true) == Prepend(s[0], Word(EscapeQuotes(s[1..]) + rest, true))
  {
    var tail := EscapeQuotes(s[1..]) + rest;
    if s[0] == '\'' {
      assert EscapeQuotes(s) + rest == "'\\''" + tail;
      QuoteInQuotes(tail);
    } else {
      assert EscapeQuotes(s) + rest == [s[0]] + tail;
      OrdinaryInQuotes(s[0], tail);
    }
  }

  lemma {:induction false} InsideQuotes(s: string, rest: string)
    ensures Word(EscapeQuotes(s) + ("'" + rest), true)
         == if Word(rest, false).None? then None
            else Some((s + Word(rest, false).value.0, Word(rest, false).value.1))
  {
    var after := Word(rest, false);
    if s == "" {
      assert EscapeQuotes(s) + ("'" + rest) == "'" + rest;
      assert ("'" + rest)[1..] == rest;
      assert after.Some? ==> "" + after.value.0 == after.value.0;
    } else {
      InsideQuotes(s[1..], rest);
      FirstInQuotes(s, "'" + rest);
      assert after.Some? ==> [s[0]] + (s[1..] + after.value.0) == s + after.value.0;
    }
  }

  /** A quoted text is read back as exactly that text, whatever it contains, when the word ends after it. */
  lemma QuotedIsRead(s: string, rest: string)
    requires rest == "" || EndsWord(rest[0])
    ensures Word(Quote(s) + rest, false) == Some((s, rest))
  {
    var input, inside := Quote(s) + rest, EscapeQuotes(s) + ("'" + rest);
    assert input == "'" + inside;
    assert ("'" + inside)[1..] == inside;
    InsideQuotes(s, rest);
    assert s + "" == s;
  }

  // ---- `input text` ----

  datatype TextError = TooLong | Unsupported

  const MAX_INPUT_TEXT_LEN := 256

  const PUNCTUATION := "!@#$%^&*()_+-=[]{};:,./?|\\`~ "

  predicate AllowedChar(c: char) {
    'a' <= c <= 'z' || 'A' <= c <= 'Z' || '0' <= c <= '9' || c in PUNCTUATION
  }

  predicate AllAllowed(s: string) { forall i | 0 <= i < |s| :: AllowedChar(s[i]) }

  /** The pattern `^[...]+$`: at least one character of the class, and `$` also matches before a final newline. */
  predicate Matches(text: string) {
    || (text != "" && AllAllowed(text))
    || (|text| > 1 && text[|text| - 1] == '\n' && AllAllowed(text[..|text| - 1]))
  }

  /** `text.replace(" ", "%s")` */
  function SpacesOut(text: string): string {
    if text == "" then "" else (if text[0] == ' ' then "%s" else [text[0]]) + SpacesOut(text[1..])
  }

  /** `_escape_input_text_for_android` */
  function EscapeInputText(text: string): Result<string, TextError> {
    if |text| > MAX_INPUT_TEXT_LEN then Failure(TooLong)
    else if !Matches(text) then Failure(Unsupported)
    else Success(SpacesOut(text))
  }

  /** The line that `_cmd_input_text` hands to the shell. */
  function InputTextLine(text: string): Result<string, TextError> {
    match EscapeInputText(text)
    case Failure(e) => Failure(e)
    case Success(escaped) => Success("input text " + Quote(escaped))
  }

  /** What the escaping is for: `%s` stands for a space. */
  function SpacesIn(text: string): string
    decreases |text|
  {
    if text == "" then ""
    else if |text| > 1 && text[0] == '%' && text[1] == 's' then " " + SpacesIn(text[2..])
    else [text[0]] + SpacesIn(text[1..])
  }

  predicate HasPercentS(text: string) {
    exists i :: 0 <= i < |text| - 1 && text[i] == '%' && text[i + 1] == 's'
  }

  /** Writing the spaces out changes nothing for a reader of `%s`. */
  lemma {:induction false} SpacesReadBack(text: string)
    ensures SpacesIn(SpacesOut(text)) == SpacesIn(text)
    decreases |text|
  {
    if text != "" {
      var tail := SpacesOut(text[1..]);
      SpacesReadBack(text[1..]);
      if text[0] == ' ' {
        assert ("%s" + tail)[2..] == tail;
      } else if |text| > 1 && text[0] == '%' && text[1] == 's' {
        var after := SpacesOut(text[2..]);
        assert text[1..][1..] == text[2..];
        assert tail == "s" + after;
        assert (['%'] + tail)[2..] == after;
        SpacesReadBack(text[2..]);
      } else {
        assert ([text[0]] + tail)[1..] == tail;
        if |text| > 1 {
          assert tail[0] == if text[1] == ' ' then '%' else text[1];
        }
      }
    }
  }

  lemma PercentSLater(text: string)
    requires text != ""
    ensures HasPercentS(text) <==> (|text| > 1 && text[0] == '%' && text[1] == 's') || HasPercentS(text[1..])
  {
    if i :| 0 <= i < |text[1..]| - 1 && text[1..][i] == '%' && text[1..][i + 1] == 's' {
      assert text[i + 1] == '%' && text[i + 1 + 1] == 's';
    }
    if i :| 0 < i < |text| - 1 && text[i] == '%' && text[i + 1] == 's' {
      assert text[1..][i - 1] == '%' && text[1..][i - 1 + 1] == 's';
    }
  }

  lemma {:induction false} SpacesInChanges(text: string)
    ensures |SpacesIn(text)| <= |text|
    ensures if HasPercentS(text) then |SpacesIn(text)| < |text| else SpacesIn(text) == text
    decreases |text|
  {
    if text != "" {
      if |text| > 1 && text[0] == '%' && text[1] == 's' {
        SpacesInChanges(text[2..]);
      } else {
        SpacesInChanges(text[1..]);
        PercentSLater(text);
      }
    }
  }

  /** The escaping can be undone exactly for the texts that contain no `%s` themselves. */
  lemma SpacesRoundTrip(text: string)
    ensures SpacesIn(SpacesOut(text)) == text <==> !HasPercentS(text)
  {
    SpacesReadBack(text);
    SpacesInChanges(text);
  }

  /** For the others it is not injective: a text and the same text with its `%s` as spaces give one line. */
  lemma {:induction false} EscapeIsNotInjective(text: string)
    ensures SpacesOut(SpacesIn(text)) == SpacesOut(text)
    decreases |text|
  {
    if text != "" {
      if |text| > 1 && text[0] == '%' && text[1] == 's' {
        EscapeIsNotInjective(text[2..]);
        assert text[1..][1..] == text[2..];
        assert (" " + SpacesIn(text[2..]))[1..] == SpacesIn(text[2..]);
        assert SpacesOut(text) == "%" + ("s" + SpacesOut(text[2..])) == "%s" + SpacesOut(text[2..]);
      } else {
        EscapeIsNotInjective(text[1..]);
        assert ([text[0]] + SpacesIn(text[1..]))[1..] == SpacesIn(text[1..]);
      }
    }
  }

  lemma {:induction false} SpacesOutNewline(text: string)
    ensures '\n' in SpacesOut(text) <==> '\n' in text
    ensures '\r' in SpacesOut(text) <==> '\r' in text
  {
    if text != "" {
      SpacesOutNewline(text[1..]);
    }
  }

  lemma {:induction false} EscapeQuotesKeeps(s: string, c: char)
    requires c != '\\' && c != '\''
    ensures c in EscapeQuotes(s) <==> c in s
  {
    if s != "" {
      EscapeQuotesKeeps(s[1..], c);
    }
  }

  lemma LineBreaks(s: string, c: char)
    requires c == '\n' || c == '\r'
    ensures c in "input text " + Quote(s) <==> c in s
  {
    EscapeQuotesKeeps(s, c);
    var fixed, quoted := "input text ", Quote(s);
    assert c !in fixed;
    assert c in quoted <==> c in EscapeQuotes(s);
  }

  /**
   * Which texts are accepted: one to 256 characters of the class, the last of which may be a newline after another one;
   * and what they become has no space left.
   */
  lemma AcceptedTexts(text: string)
    ensures var n := |text|;
            var allowed := forall i | 0 <= i < n ::
                             Printable(text[i]) || (text[i] == '\n' && i == n - 1 && i > 0);
            && (EscapeInputText(text).Success? <==> 1 <= n <= 256 && allowed)
            && (EscapeInputText(text) == Failure(TooLong) <==> n > 256)
            && (EscapeInputText(text).Success? ==> ' ' !in EscapeInputText(text).value)
            && (InputTextLine(text).Success? <==> EscapeInputText(text).Success?)
  {
    SpacesOutHasNone(text);
    MatchesMeans(text);
  }

  lemma MatchesMeans(text: string)
    ensures Matches(text) <==> text != "" && forall i | 0 <= i < |text| ::
              Printable(text[i]) || (text[i] == '\n' && i == |text| - 1 && i > 0)
  {
    forall c ensures AllowedChar(c) <==> Printable(c) {
      AllowedIsPrintable(c);
    }
    if text != "" {
      var front, last := text[..|text| - 1], text[|text| - 1];
      assert AllAllowed(front) <==> forall i | 0 <= i < |text| - 1 :: AllowedChar(text[i]) by {
        assert forall i | 0 <= i < |front| :: front[i] == text[i];
      }
    }
  }

  lemma AllowedIsPrintable(c: char)
    ensures AllowedChar(c) <==> Printable(c)
  {
  }

  /** A printable ASCII character other than the two kinds of quotes and the two angle brackets. */
  predicate Printable(c: char) {
    ' ' <= c <= '~' && c !in "\"'<>"
  }

  lemma {:induction false} SpacesOutHasNone(text: string)
    ensures ' ' !in SpacesOut(text)
  {
    if text != "" {
      SpacesOutHasNone(text[1..]);
    }
  }

  /**
   * What reaches the device for an accepted text. The line is a single line exactly when the text does not end in the
   * newline that the pattern lets through; and the shell reads it as the three words that were meant.
   */
  lemma InputTextIsRead(text: string)
    requires EscapeInputText(text).Success?
    ensures var line := InputTextLine(text).value;
            && ('\n' !in line && '\r' !in line <==> text[|text| - 1] != '\n')
            && Words(line) == Some(["input", "text", SpacesOut(text)])
  {
    SpacesOutNewline(text);
    AcceptedNewlines(text);
    LineBreaks(SpacesOut(text), '\n');
    LineBreaks(SpacesOut(text), '\r');
    QuotedWords(SpacesOut(text));
  }

  lemma AcceptedNewlines(text: string)
    requires Matches(text)
    ensures '\r' !in text && ('\n' in text <==> text[|text| - 1] == '\n')
  {
    var n := |text| - 1;
    assert forall i | 0 <= i < n :: AllowedChar(text[i]) by {
      assert forall i | 0 <= i < n :: text[..n][i] == text[i];
    }
  }

  lemma QuotedWords(s: string)
    ensures Words("input text " + Quote(s)) == Some(["input", "text", s])
  {
    var last := Quote(s);
    QuotedIsRead(s, "");
    assert last + "" == last;
    FirstWord(last, s, "");
    var second := "text" + (" " + last);
    PlainWord("text", " " + last);
    BlankSkipped(last);
    FirstWord(second, "text", " " + last);
    assert [s] + Words("").value == [s];
    assert ["text"] + [s] == ["text", s];
    var line := "input" + (" " + second);
    PlainWord("input", " " + second);
    BlankSkipped(second);
    FirstWord(line, "input", " " + second);
    assert ["input"] + ["text", s] == ["input", "text", s];
    assert line == "input text " + last;
  }

  lemma FirstWord(input: string, word: string, rest: string)
    requires input != "" && !EndsWord(input[0]) && Word(input, false) == Some((word, rest))
    ensures Words(input) == if Words(rest).None? then None else Some([word] + Words(rest).value)
  {
  }

  lemma BlankSkipped(rest: string)
    ensures Words(" " + rest) == Words(rest)
  {
    assert (" " + rest)[1..] == rest;
  }

  /** A word of letters stands for itself. */
  lemma {:induction false} PlainWord(w: string, rest: string)
    requires forall i | 0 <= i < |w| :: 'a' <= w[i] <= 'z'
    requires rest != "" && EndsWord(rest[0])
    ensures Word(w + rest, false) == Some((w, rest))
  {
    if w == "" {
      assert w + rest == rest;
    } else {
      PlainWord(w[1..], rest);
      assert (w + rest)[1..] == w[1..] + rest;
      assert [w[0]] + w[1..] == w;
    }
  }
}
