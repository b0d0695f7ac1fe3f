/**
 Rendering an untrusted field on one line: whitespace runs collapse, terminal
 and bidirectional controls become visible escapes, and already-safe text is
 returned as it is.
 */
module OneLine {
  import opened TerminalText

  // ---------------------------------------------------------------- the rendering, word by word

  /** Lower-case hexadecimal digits without padding. */
  function Hex(n: nat): (s: string)
    ensures s != [] && forall c :: c in s ==> '0' <= c <= '9' || 'a' <= c <= 'f'
  {
    if n < 16 then [HexDigit(n)] else Hex(n / 16) + [HexDigit(n % 16)]
  }

  function EscapeUnicode(c: char): string {
    "\\u{" + Hex(Code(c)) + "}"
  }

  /** One character that is not whitespace. */
  function EscapeChar(c: char): string {
    if IsBidiControl(c) || IsControl(c) then EscapeUnicode(c) else [c]
  }

  function EscapeWord(word: string): string {
    if word == [] then [] else EscapeWord(word[..|word| - 1]) + EscapeChar(word[|word| - 1])
  }

  /** The maximal runs of characters that are not whitespace. */
  function Words(text: string): (r: seq<string>)
    ensures text != [] && !IsWhitespace(text[|text| - 1]) ==> r != []
  {
    if text == [] then []
    else
      var front, last := text[..|text| - 1], text[|text| - 1];
      if IsWhitespace(last) then Words(front)
      else if front == [] || IsWhitespace(front[|front| - 1]) then Words(front) + [[last]]
      else Words(front)[..|Words(front)| - 1] + [Words(front)[|Words(front)| - 1] + [last]]
  }

  /** The words, escaped, joined by single spaces. */
  function Joined(words: seq<string>): string {
    if words == [] then []
    else if |words| == 1 then EscapeWord(words[0])
    else Joined(words[..|words| - 1]) + " " + EscapeWord(words[|words| - 1])
  }

  function Rendered(text: string): string {
    Joined(Words(text))
  }

  // ---------------------------------------------------------------- safe text

  predicate Plain(c: char) {
    !IsWhitespace(c) && !IsControl(c) && !IsBidiControl(c)
  }

  /** No controls, no whitespace but single spaces, none in front. */
  predicate CleanSoFar(text: string) {
    && (forall k :: 0 <= k < |text| ==> Plain(text[k]) || text[k] == ' ')
    && (text != [] ==> text[0] != ' ')
    && (forall k :: 0 < k < |text| ==> text[k - 1] != ' ' || text[k] != ' ')
  }

  predicate Clean(text: string) {
    CleanSoFar(text) && (text != [] ==> text[|text| - 1] != ' ')
  }

  lemma EscapedCharPlain(c: char)
    requires !IsWhitespace(c)
    ensures EscapeChar(c) != [] && forall d :: d in EscapeChar(c) ==> Plain(d)
    ensures Plain(c) ==> EscapeChar(c) == [c]
  {
  }

  predicate NoWhitespace(word: string) {
    forall k | 0 <= k < |word| :: !IsWhitespace(word[k])
  }

  predicate IsWord(word: string) {
    word != [] && NoWhitespace(word)
  }

  predicate AllWords(words: seq<string>) {
    forall k | 0 <= k < |words| :: IsWord(words[k])
  }

  lemma {:induction false} EscapedWordPlain(word: string)
    requires NoWhitespace(word)
    ensures forall d :: d in EscapeWord(word) ==> Plain(d)
    ensures word != [] ==> EscapeWord(word) != []
  {
    if word != [] {
      EscapedWordPlain(word[..|word| - 1]);
      EscapedCharPlain(word[|word| - 1]);
    }
  }

  lemma {:induction false} WordsAreWords(text: string)
    ensures AllWords(Words(text))
  {
    if text != [] {
      WordsAreWords(text[..|text| - 1]);
    }
  }

  lemma {:induction false} JoinedClean(words: seq<string>)
    requires AllWords(words)
    ensures Clean(Joined(words)) && (words != [] ==> Joined(words) != [])
  {
    if words != [] {
      var last := words[|words| - 1];
      EscapedWordPlain(last);
      PlainIsClean(EscapeWord(last));
      if |words| > 1 {
        JoinedClean(words[..|words| - 1]);
        var front := Joined(words[..|words| - 1]);
        assert Joined(words) == front + " " + EscapeWord(last);
        CleanJoin(front, EscapeWord(last));
      }
    }
  }

  lemma PlainIsClean(word: string)
    requires forall d :: d in word ==> Plain(d)
    ensures Clean(word)
  {
    assert forall k :: 0 <= k < |word| ==> word[k] in word;
  }

  lemma CleanJoin(front: string, word: string)
    requires Clean(front) && front != [] && word != [] && forall d :: d in word ==> Plain(d)
    ensures Clean(front + " " + word)
  {
    var s := front + " " + word;
    forall k | 0 <= k < |s|
      ensures Plain(s[k]) || s[k] == ' '
      ensures k > 0 ==> s[k - 1] != ' ' || s[k] != ' '
    {
      if k > |front| {
        assert s[k] == word[k - |front| - 1] && s[k] in word;
      }
    }
  }

  /** What is rendered has no control or bidirectional character and no leading,
      trailing or doubled space. */
  lemma RenderedIsClean(text: string)
    ensures Clean(Rendered(text))
  {
    WordsAreWords(text);
    JoinedClean(Words(text));
  }

  lemma JoinedSnoc(words: seq<string>, word: string)
    requires AllWords(words)
    ensures Joined(words + [word]) == Joined(words) + (if Joined(words) != [] then " " else "") + EscapeWord(word)
  {
    JoinedClean(words);
    assert (words + [word])[..|words|] == words;
  }

  /** A last word grown by one character. */
  lemma JoinedGrow(front: seq<string>, word: string, c: char)
    ensures Joined(front + [word + [c]]) == Joined(front + [word]) + EscapeChar(c)
  {
    assert (front + [word])[..|front|] == front && (front + [word + [c]])[..|front|] == front;
    assert (word + [c])[..|word|] == word;
  }

  lemma RenderedNewWord(text: string, c: char)
    requires !IsWhitespace(c) && (text == [] || IsWhitespace(text[|text| - 1]))
    ensures Rendered(text + [c]) == Rendered(text) + (if Rendered(text) != [] then " " else "") + EscapeChar(c)
  {
    assert (text + [c])[..|text|] == text;
    WordsAreWords(text);
    JoinedSnoc(Words(text), [c]);
    assert [c][..0] == "";
    assert EscapeWord([c]) == EscapeChar(c);
  }

  lemma RenderedGrownWord(text: string, c: char)
    requires !IsWhitespace(c) && text != [] && !IsWhitespace(text[|text| - 1])
    ensures Rendered(text + [c]) == Rendered(text) + EscapeChar(c)
  {
    var words := Words(text);
    var front, last := words[..|words| - 1], words[|words| - 1];
    assert (text + [c])[..|text|] == text;
    assert Words(text + [c]) == front + [last + [c]];
    assert words == front + [last];
    JoinedGrow(front, last, c);
  }

  /** Rendering one more character; `gap` is the space it brings along. */
  lemma RenderedSnoc(text: string, c: char, gap: string)
    requires gap == if text != [] && IsWhitespace(text[|text| - 1]) && Rendered(text) != [] then " " else ""
    ensures IsWhitespace(c) ==> Rendered(text + [c]) == Rendered(text)
    ensures !IsWhitespace(c) ==> Rendered(text + [c]) == Rendered(text) + gap + EscapeChar(c)
  {
    if IsWhitespace(c) {
      assert (text + [c])[..|text|] == text;
    } else if text == [] || IsWhitespace(text[|text| - 1]) {
      RenderedNewWord(text, c);
    } else {
      RenderedGrownWord(text, c);
      assert Rendered(text) + "" == Rendered(text);
    }
  }

  lemma {:induction false} CleanRendersItself(text: string)
    requires CleanSoFar(text)
    ensures text == Rendered(text) + if text != [] && text[|text| - 1] == ' ' then " " else ""
  {
    if text != [] {
      var front, last := text[..|text| - 1], text[|text| - 1];
      CleanRendersItself(front);
      assert text == front + [last];
      CleanRendersNext(front, last);
    }
  }

  lemma CleanRendersNext(front: string, last: char)
    requires CleanSoFar(front + [last])
    requires front == Rendered(front) + if front != [] && front[|front| - 1] == ' ' then " " else ""
    ensures front + [last] == Rendered(front + [last]) + if last == ' ' then " " else ""
  {
    var text := front + [last];
    assert text[|front|] == last && (front != [] ==> text[|front| - 1] == front[|front| - 1]);
    assert Plain(last) || last == ' ';
    assert front != [] ==> text[0] == front[0];
    var gap := if front != [] && IsWhitespace(front[|front| - 1]) && Rendered(front) != [] then " " else "";
    RenderedSnoc(front, last, gap);
    if last != ' ' {
      EscapedCharPlain(last);
      assert front != [] ==> Plain(front[|front| - 1]) || front[|front| - 1] == ' ';
      assert front == Rendered(front) + gap;
    } else {
      assert front != [] && front[|front| - 1] != ' ';
      assert Rendered(front) == front;
    }
  }

  // ---------------------------------------------------------------- the two passes

  /** The validation pass: does the text have to be rewritten? */
  method NeedsRewrite(message: string) returns (needsRewrite: bool)
    ensures needsRewrite <==> !Clean(message)
  {
    var previousWhitespace := false;
    needsRewrite := false;
    var index := 0;
    while index < |message|
      invariant index <= |message|
      invariant previousWhitespace <==> index > 0 && IsWhitespace(message[index - 1])
      invariant needsRewrite <==> !CleanSoFar(message[..index])
    {
      var ch := message[index];
      assert message[..index + 1] == message[..index] + [ch];
      CleanSnoc(message[..index], ch);
      if IsWhitespace(ch) {
        needsRewrite := needsRewrite || ch != ' ' || index == 0 || previousWhitespace;
        previousWhitespace := true;
      } else {
        needsRewrite := needsRewrite || IsControl(ch) || IsBidiControl(ch);
        previousWhitespace := false;
      }
      index := index + 1;
    }
    assert message[..index] == message;
    needsRewrite := needsRewrite || previousWhitespace;
  }

  lemma CleanSnoc(text: string, c: char)
    ensures CleanSoFar(text + [c]) <==>
              && CleanSoFar(text)
              && (if IsWhitespace(c) then c == ' ' && text != [] && !IsWhitespace(text[|text| - 1]) else Plain(c))
  {
    var s := text + [c];
    assert forall k :: 0 <= k < |text| ==> s[k] == text[k];
    assert s[|text|] == c;
    if CleanSoFar(s) {
      assert Plain(s[|text|]) || s[|text|] == ' ';
      if text != [] {
        assert s[|text| - 1] != ' ' || s[|text|] != ' ';
        assert Plain(s[|text| - 1]) || s[|text| - 1] == ' ';
      }
      assert CleanSoFar(text);
    }
  }

  /** Rewrite only what needs it; `borrowed` tells the caller that the text came
      back as it was, without an allocation. */
  method OneLine(message: string) returns (line: string, borrowed: bool)
    ensures line == Rendered(message)
    ensures borrowed <==> Rendered(message) == message
  {
    var needsRewrite := NeedsRewrite(message);
    RenderedIsClean(message);
    if Clean(message) {
      CleanRendersItself(message);
    }
    if !needsRewrite {
      return message, true;
    }
    line := Rewrite(message);
    borrowed := false;
  }

  lemma PrefixSnoc(message: string, k: nat)
    requires k < |message|
    ensures message[..k + 1] == message[..k] + [message[k]]
  {
  }

  lemma RenderedStep(message: string, k: nat, out: string, pendingSpace: bool)
    requires k < |message| && out == Rendered(message[..k])
    requires pendingSpace <==> k > 0 && IsWhitespace(message[k - 1]) && out != []
    ensures IsWhitespace(message[k]) ==> Rendered(message[..k + 1]) == out
    ensures !IsWhitespace(message[k]) ==>
              Rendered(message[..k + 1]) == (if pendingSpace then out + " " else out) + EscapeChar(message[k])
  {
    var gap := if pendingSpace then " " else "";
    PrefixSnoc(message, k);
    RenderedSnoc(message[..k], message[k], gap);
    assert out + "" == out;
  }

  /** The rewriting pass. */
  method Rewrite(message: string) returns (out: string)
    ensures out == Rendered(message)
  {
    out := "";
    var pendingSpace := false;
    var k := 0;
    while k < |message|
      invariant k <= |message| && out == Rendered(message[..k])
      invariant pendingSpace <==> k > 0 && IsWhitespace(message[k - 1]) && out != []
    {
      var ch := message[k];
      RenderedStep(message, k, out, pendingSpace);
      if IsWhitespace(ch) {
        pendingSpace := out != [];
      } else {
        if pendingSpace {
          out := out + " ";
          pendingSpace := false;
        }
        out := out + EscapeChar(ch);
      }
      k := k + 1;
    }
    assert message[..k] == message;
  }

  /** Rendering twice is rendering once. */
  lemma RenderingIsIdempotent(text: string)
    ensures Rendered(Rendered(text)) == Rendered(text)
  {
    RenderedIsClean(text);
    CleanRendersItself(Rendered(text));
  }
}
