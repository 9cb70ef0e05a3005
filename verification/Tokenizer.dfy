/**
 The fallback reader's word splitter: constraint text to one list of words per
 command.  Quoted words are unescaped; braced and bracketed ones stay verbatim.
 */
module Tokenizer {
  import opened Sequences

  type Command = seq<string>

  predicate Blank(c: char) {
    c == ' ' || c == '\t' || c == '\r'
  }

  function FlushWord(current: Command, word: string): Command {
    if word == "" then current else current + [word]
  }

  function FlushLine(current: Command): seq<Command> {
    if current == [] then [] else [current]
  }

  // Characters up to the end of the line.
  function CommentLength(s: string): (n: nat)
    ensures n <= |s|
  {
    if s == "" || s[0] == '\n' then 0 else 1 + CommentLength(s[1..])
  }

  // Characters consumed until the nesting closes, or the text ends.
  function SpanLength(s: string, open: char, close: char, depth: nat): (n: nat)
    ensures n <= |s|
  {
    if s == "" || depth == 0 then 0
    else if s[0] == open then 1 + SpanLength(s[1..], open, close, depth + 1)
    else if s[0] == close then 1 + SpanLength(s[1..], open, close, depth - 1)
    else 1 + SpanLength(s[1..], open, close, depth)
  }

  datatype Quoted = Quoted(content: string, length: nat)

  // The inside of a quoted word and how far it reaches, closing quote excluded.
  function Unquote(s: string): (q: Quoted)
    ensures q.length <= |s|
  {
    if s == "" || s[0] == '"' then Quoted("", 0)
    else if s[0] == '\\' && |s| > 1 then
      var q := Unquote(s[2..]);
      Quoted([s[1]] + q.content, 2 + q.length)
    else
      var q := Unquote(s[1..]);
      Quoted([s[0]] + q.content, 1 + q.length)
  }

  // The commands read from the rest of the text, a word and a command begun.
  function Read(s: string, word: string, current: Command): seq<Command>
    decreases |s|
  {
    if s == "" then FlushLine(FlushWord(current, word))
    else
      var c := s[0];
      if c == '\\' && |s| > 1 && s[1] == '\n' then Read(s[2..], "", FlushWord(current, word))
      else if c == '\n' then FlushLine(FlushWord(current, word)) + Read(s[1..], "", [])
      else if Blank(c) then Read(s[1..], "", FlushWord(current, word))
      else if c == '#' && word == "" then FlushLine(current) + Read(s[1..][CommentLength(s[1..])..], "", [])
      else if c == '{' && word == "" then ReadSpan(s, '{', '}', current)
      else if c == '[' && word == "" then ReadSpan(s, '[', ']', current)
      else if c == '"' && word == "" then
        var q := Unquote(s[1..]);
        Read(s[if 1 + q.length < |s| then 2 + q.length else |s|..], "", current + [q.content])
      else Read(s[1..], word + [c], current)
  }

  function ReadSpan(s: string, open: char, close: char, current: Command): seq<Command>
    requires s != ""
    decreases |s|, 0
  {
    var n := 1 + SpanLength(s[1..], open, close, 1);
    Read(s[n..], "", current + [s[..n]])
  }

  // ---- the source's loop ------------------------------------------------

  method SkipSpan(text: string, start: nat, open: char, close: char) returns (i: nat)
    requires start < |text|
    ensures i == start + 1 + SpanLength(text[start + 1..], open, close, 1)
    ensures i <= |text|
  {
    var depth := 1;
    i := start + 1;
    while i < |text| && depth > 0
      invariant start < i <= |text| && 0 <= depth
      invariant i + SpanLength(text[i..], open, close, depth) ==
          start + 1 + SpanLength(text[start + 1..], open, close, 1)
    {
      assert text[i..][0] == text[i] && text[i..][1..] == text[i + 1..];
      if text[i] == open {
        depth := depth + 1;
      } else if text[i] == close {
        depth := depth - 1;
      }
      i := i + 1;
    }
  }

  // What is left to unquote after `content` has been collected.
  ghost predicate Unquoting(text: string, start: nat, i: nat, content: string)
    requires start <= |text| && i <= |text|
  {
    var whole, rest := Unquote(text[start..]), Unquote(text[i..]);
    content + rest.content == whole.content && i + rest.length == start + whole.length
  }

  lemma UnquoteStep(text: string, start: nat, i: nat, content: string)
    requires start <= |text| && i < |text| && text[i] != '"' && Unquoting(text, start, i, content)
    ensures if text[i] == '\\' && i + 1 < |text| then Unquoting(text, start, i + 2, content + [text[i + 1]])
            else Unquoting(text, start, i + 1, content + [text[i]])
  {
    var s := text[i..];
    assert s[0] == text[i];
    if text[i] == '\\' && i + 1 < |text| {
      assert s[1] == text[i + 1] && s[2..] == text[i + 2..];
      Regroup(content, [text[i + 1]], Unquote(s[2..]).content);
    } else {
      assert s[1..] == text[i + 1..];
      Regroup(content, [text[i]], Unquote(s[1..]).content);
    }
  }

  lemma UnquoteStart(text: string, start: nat)
    requires start <= |text|
    ensures Unquoting(text, start, start, "")
  {
    assert "" + Unquote(text[start..]).content == Unquote(text[start..]).content;
  }

  lemma UnquoteDone(text: string, start: nat, i: nat, content: string)
    requires start <= |text| && i <= |text| && Unquoting(text, start, i, content)
    requires i == |text| || text[i] == '"'
    ensures Unquote(text[start..]) == Quoted(content, i - start)
  {
    var s := text[i..];
    assert i < |text| ==> s[0] == '"';
    assert content + "" == content;
  }

  method ReadQuoted(text: string, start: nat) returns (content: string, i: nat)
    requires start <= |text|
    ensures var q := Unquote(text[start..]);
      content == q.content && i == start + q.length
    ensures i <= |text|
  {
    content, i := "", start;
    UnquoteStart(text, start);
    while i < |text| && text[i] != '"'
      invariant start <= i <= |text| && Unquoting(text, start, i, content)
    {
      UnquoteStep(text, start, i, content);
      if text[i] == '\\' && i + 1 < |text| {
        content := content + [text[i + 1]];
        i := i + 2;
      } else {
        content := content + [text[i]];
        i := i + 1;
      }
    }
    UnquoteDone(text, start, i, content);
  }

  method SkipComment(text: string, start: nat) returns (i: nat)
    requires start <= |text|
    ensures i == start + CommentLength(text[start..])
    ensures i <= |text|
  {
    i := start;
    while i < |text| && text[i] != '\n'
      invariant start <= i <= |text|
      invariant i + CommentLength(text[i..]) == start + CommentLength(text[start..])
    {
      assert text[i..][0] == text[i] && text[i..][1..] == text[i + 1..];
      i := i + 1;
    }
  }

  // The text opens with this word, which takes n characters.
  ghost predicate OpensWith(s: string, word: string, n: nat) {
    && s != "" && 0 < n <= |s|
    && if s[0] == '"' then
         var q := Unquote(s[1..]);
         word == q.content && n == if 1 + q.length < |s| then 2 + q.length else |s|
       else
         && (s[0] == '{' || s[0] == '[')
         && n == 1 + SpanLength(s[1..], s[0], if s[0] == '{' then '}' else ']', 1) && word == s[..n]
  }

  lemma ReadOpening(s: string, word: string, n: nat, current: Command)
    requires OpensWith(s, word, n)
    ensures Read(s, "", current) == Read(s[n..], "", current + [word])
  {
  }

  // One word that opens at a word boundary.
  method ReadWord(text: string, start: nat) returns (word: string, i: nat)
    requires start < |text| && text[start] in "{[\""
    ensures start < i <= |text| && OpensWith(text[start..], word, i - start)
  {
    ghost var s := text[start..];
    assert s[0] == text[start] && s[1..] == text[start + 1..];
    if text[start] == '{' {
      i := SkipSpan(text, start, '{', '}');
      word := text[start..i];
      assert word == s[..i - start];
    } else if text[start] == '[' {
      i := SkipSpan(text, start, '[', ']');
      word := text[start..i];
      assert word == s[..i - start];
    } else {
      word, i := ReadQuoted(text, start + 1);
      i := if i < |text| then i + 1 else i;
    }
  }

  method TakeWord(text: string, i: nat, current: Command) returns (word: string, i': nat)
    requires i < |text| && text[i] in "{[\""
    ensures i < i' <= |text| && Read(text[i..], "", current) == Read(text[i'..], "", current + [word])
  {
    word, i' := ReadWord(text, i);
    ReadOpening(text[i..], word, i' - i, current);
    assert text[i'..] == text[i..][i' - i..];
  }

  method DropComment(text: string, i: nat, current: Command) returns (i': nat)
    requires i < |text| && text[i] == '#'
    ensures i < i' <= |text| && Read(text[i..], "", current) == FlushLine(current) + Read(text[i'..], "", [])
  {
    ghost var s := text[i..];
    i' := SkipComment(text, i + 1);
    assert s[0] == '#' && s[1..] == text[i + 1..];
    assert text[i'..] == s[1..][CommentLength(s[1..])..];
  }

  // One turn of the loop, with the commands it completes.
  method Advance(text: string, i: nat, word: string, current: Command)
    returns (done: seq<Command>, i': nat, word': string, current': Command)
    requires i < |text|
    ensures i < i' <= |text|
    ensures Read(text[i..], word, current) == done + Read(text[i'..], word', current')
  {
    ghost var s := text[i..];
    assert s[0] == text[i] && s[1..] == text[i + 1..];
    assert i + 1 < |text| ==> s[1] == text[i + 1] && s[2..] == text[i + 2..];
    done, i', word', current' := [], i + 1, "", current;
    var c := text[i];
    if c == '\\' && i + 1 < |text| && text[i + 1] == '\n' {
      current', i' := FlushWord(current, word), i + 2;
    } else if c == '\n' {
      done, current' := FlushLine(FlushWord(current, word)), [];
    } else if Blank(c) {
      current' := FlushWord(current, word);
    } else if c == '#' && word == "" {
      i' := DropComment(text, i, current);
      done, current' := FlushLine(current), [];
    } else if c in "{[\"" && word == "" {
      var read;
      read, i' := TakeWord(text, i, current);
      current' := current + [read];
    } else {
      word' := word + [c];
    }
  }

  method Tokenize(text: string) returns (lines: seq<Command>)
    ensures lines == Read(text, "", [])
  {
    lines := [];
    var current: Command, word: string, i := [], "", 0;
    assert text[0..] == text;
    while i < |text|
      invariant 0 <= i <= |text|
      invariant lines + Read(text[i..], word, current) == Read(text, "", [])
      decreases |text| - i
    {
      ghost var before := lines;
      var done;
      done, i, word, current := Advance(text, i, word, current);
      lines := lines + done;
      assert before + (done + Read(text[i..], word, current)) == lines + Read(text[i..], word, current);
    }
    assert text[i..] == "";
    lines := lines + FlushLine(FlushWord(current, word));
  }

  // ---- printing ---------------------------------------------------------

  datatype Style = Bare | Braced | Bracketed | InQuotes

  datatype Printed = Printed(word: string, style: Style)

  function Escape(w: string): string {
    if w == "" then ""
    else (if w[0] in "\"\\" then ['\\', w[0]] else [w[0]]) + Escape(w[1..])
  }

  function PrintWord(p: Printed): string {
    if p.style == InQuotes then "\"" + Escape(p.word) + "\"" else p.word
  }

  function PrintCommand(words: seq<Printed>): string
    requires words != []
  {
    if |words| == 1 then PrintWord(words[0]) + "\n"
    else PrintWord(words[0]) + " " + PrintCommand(words[1..])
  }

  function PrintAll(commands: seq<seq<Printed>>): string
    requires forall i :: 0 <= i < |commands| ==> commands[i] != []
  {
    if commands == [] then "" else PrintCommand(commands[0]) + PrintAll(commands[1..])
  }

  function WordsOf(words: seq<Printed>): (r: Command)
    ensures |r| == |words| && forall i :: 0 <= i < |r| ==> r[i] == words[i].word
  {
    seq(|words|, i requires 0 <= i < |words| => words[i].word)
  }

  // Openings less closings.
  function Nesting(s: string, open: char, close: char): int {
    if s == "" then 0
    else
      var last := s[|s| - 1];
      Nesting(s[..|s| - 1], open, close) + (if last == open then 1 else if last == close then -1 else 0)
  }

  // The bracket opened first closes with the last character and not before.
  ghost predicate ClosesAtEnd(w: string, open: char, close: char) {
    && w != "" && w[0] == open && Nesting(w, open, close) == 0
    && forall k :: 0 < k < |w| ==> Nesting(w[..k], open, close) > 0
  }

  predicate Plain(c: char) {
    !Blank(c) && c != '\n'
  }

  ghost predicate Fits(p: Printed) {
    match p.style
    case InQuotes => true
    case Braced => ClosesAtEnd(p.word, '{', '}')
    case Bracketed => ClosesAtEnd(p.word, '[', ']')
    case Bare =>
      && p.word != "" && p.word[0] !in "#{[\"" && p.word[|p.word| - 1] != '\\'
      && forall i :: 0 <= i < |p.word| ==> Plain(p.word[i])
  }

  // ---- reading back what was printed ------------------------------------

  lemma {:induction false} UnquoteEscaped(w: string, rest: string)
    ensures Unquote(Escape(w) + "\"" + rest) == Quoted(w, |Escape(w)|)
  {
    if w == "" {
      assert Escape(w) + "\"" + rest == ['"'] + rest;
    } else {
      UnquoteEscaped(w[1..], rest);
      UnquoteFront(w[0], Escape(w[1..]), rest, w[1..]);
      assert w == [w[0]] + w[1..];
    }
  }

  lemma UnquoteFront(c: char, tail: string, rest: string, content: string)
    requires Unquote(tail + "\"" + rest) == Quoted(content, |tail|)
    ensures c in "\"\\" ==> Unquote(['\\', c] + tail + "\"" + rest) == Quoted([c] + content, 2 + |tail|)
    ensures c !in "\"\\" ==> Unquote([c] + tail + "\"" + rest) == Quoted([c] + content, 1 + |tail|)
  {
    var more := tail + "\"" + rest;
    if c in "\"\\" {
      var s := ['\\', c] + tail + "\"" + rest;
      assert s == ['\\', c] + more && s[2..] == more;
    } else {
      var s := [c] + tail + "\"" + rest;
      assert s == [c] + more && s[1..] == more;
    }
  }

  // Backslashes in front of some characters, at least of quotes and backslashes.
  function EscapeSome(w: string, mask: seq<bool>): string
    requires |mask| == |w|
  {
    if w == "" then "" else (if mask[0] then ['\\', w[0]] else [w[0]]) + EscapeSome(w[1..], mask[1..])
  }

  // A backslash in quotes stands for the character after it, whichever that is.
  lemma {:induction false} UnquoteEscapedSome(w: string, mask: seq<bool>, rest: string)
    requires |mask| == |w| && forall i :: 0 <= i < |w| && w[i] in "\"\\" ==> mask[i]
    ensures Unquote(EscapeSome(w, mask) + "\"" + rest) == Quoted(w, |EscapeSome(w, mask)|)
  {
    if w == "" {
      assert EscapeSome(w, mask) + "\"" + rest == ['"'] + rest;
    } else {
      var tail := EscapeSome(w[1..], mask[1..]);
      UnquoteEscapedSome(w[1..], mask[1..], rest);
      assert w == [w[0]] + w[1..];
      var more := tail + "\"" + rest;
      var front := if mask[0] then ['\\', w[0]] else [w[0]];
      var s := EscapeSome(w, mask) + "\"" + rest;
      assert s == front + more && s[|front|..] == more;
    }
  }

  // Such a word in quotes is read as it was, and ends at its quote.
  lemma ReadEscapedSome(w: string, mask: seq<bool>, rest: string, current: Command)
    requires |mask| == |w| && forall i :: 0 <= i < |w| && w[i] in "\"\\" ==> mask[i]
    ensures Read("\"" + EscapeSome(w, mask) + "\"" + rest, "", current) == Read(rest, "", current + [w])
  {
    var s := "\"" + EscapeSome(w, mask) + "\"" + rest;
    UnquoteEscapedSome(w, mask, rest);
    assert s[1..] == EscapeSome(w, mask) + "\"" + rest;
    assert s[2 + |EscapeSome(w, mask)|..] == rest;
  }

  // The nesting of the prefix read so far is the depth of the scan.
  lemma {:induction false} SpanOfClosed(w: string, k: nat, rest: string, open: char, close: char)
    requires ClosesAtEnd(w, open, close) && 0 < k <= |w| && open != close
    ensures Nesting(w[..k], open, close) >= 0
    ensures SpanLength(w[k..] + rest, open, close, Nesting(w[..k], open, close)) == |w| - k
    decreases |w| - k
  {
    var s := w[k..] + rest;
    assert w[..|w|] == w;
    if k < |w| {
      assert w[..k + 1][..k] == w[..k];
      SpanOfClosed(w, k + 1, rest, open, close);
      assert s[0] == w[k] && s[1..] == w[k + 1..] + rest;
    }
  }

  lemma ReadClosed(w: string, rest: string, open: char, close: char, current: Command)
    requires ClosesAtEnd(w, open, close) && open != close
    ensures ReadSpan(w + rest, open, close, current) == Read(rest, "", current + [w])
  {
    var s := w + rest;
    assert w[..1] == [open] && Nesting(w[..1][..0], open, close) == 0;
    SpanOfClosed(w, 1, rest, open, close);
    assert s[1..] == w[1..] + rest;
    assert s[|w|..] == rest && s[..|w|] == w;
  }

  lemma {:induction false} ReadBare(w: string, k: nat, rest: string, current: Command)
    requires Fits(Printed(w, Bare)) && k <= |w|
    ensures Read(w[k..] + rest, w[..k], current) == Read(rest, w, current)
    decreases |w| - k
  {
    var s := w[k..] + rest;
    if k == |w| {
      assert s == rest && w[..k] == w;
    } else {
      assert s[0] == w[k] && s[1..] == w[k + 1..] + rest;
      assert k + 1 < |w| ==> s[1] == w[k + 1];
      assert Plain(w[k]) && (k + 1 < |w| ==> Plain(w[k + 1]));
      assert w[..k + 1] == w[..k] + [w[k]];
      ReadBare(w, k + 1, rest, current);
    }
  }

  lemma ReadQuotedWord(w: string, rest: string, current: Command)
    ensures Read("\"" + Escape(w) + "\"" + rest, "", current) == Read(rest, "", current + [w])
  {
    var s := "\"" + Escape(w) + "\"" + rest;
    UnquoteEscaped(w, rest);
    assert s[1..] == Escape(w) + "\"" + rest;
    assert s[2 + |Escape(w)|..] == rest;
  }

  // A printed word in front of a blank or the end of its command.
  lemma ReadPrinted(p: Printed, sep: char, rest: string, current: Command)
    requires Fits(p) && (sep == ' ' || sep == '\n')
    ensures Read(PrintWord(p) + ([sep] + rest), "", current)
         == if sep == ' ' then Read(rest, "", current + [p.word]) else [current + [p.word]] + Read(rest, "", [])
  {
    var after := [sep] + rest;
    assert after[0] == sep && after[1..] == rest;
    match p.style {
      case InQuotes => ReadQuotedWord(p.word, after, current);
      case Braced => ReadClosed(p.word, after, '{', '}', current);
      case Bracketed => ReadClosed(p.word, after, '[', ']', current);
      case Bare =>
        assert p.word[0..] == p.word && p.word[..0] == "";
        ReadBare(p.word, 0, after, current);
    }
  }

  ghost predicate AllFit(words: seq<Printed>) {
    forall i :: 0 <= i < |words| ==> Fits(words[i])
  }

  // Printing puts the first word in front of the rest of the text.
  lemma FirstWordFirst(words: seq<Printed>, rest: string)
    requires words != []
    ensures |words| == 1 ==> PrintCommand(words) + rest == PrintWord(words[0]) + (['\n'] + rest)
    ensures |words| > 1 ==>
      PrintCommand(words) + rest == PrintWord(words[0]) + ([' '] + (PrintCommand(words[1..]) + rest))
  {
    var first := PrintWord(words[0]);
    if |words| == 1 {
      Regroup(first, ['\n'], rest);
    } else {
      var more := PrintCommand(words[1..]);
      Regroup(first + " ", more, rest);
      Regroup(first, " ", more + rest);
    }
  }

  lemma {:induction false} ReadCommand(words: seq<Printed>, rest: string, current: Command)
    requires words != [] && AllFit(words)
    ensures Read(PrintCommand(words) + rest, "", current) == [current + WordsOf(words)] + Read(rest, "", [])
    decreases |words|
  {
    var p := words[0];
    FirstWordFirst(words, rest);
    assert WordsOf(words) == [p.word] + WordsOf(words[1..]);
    if |words| == 1 {
      assert WordsOf(words) == [p.word];
      ReadPrinted(p, '\n', rest, current);
    } else {
      var more := PrintCommand(words[1..]) + rest;
      ReadPrinted(p, ' ', more, current);
      ReadCommand(words[1..], rest, current + [p.word]);
      assert current + [p.word] + WordsOf(words[1..]) == current + WordsOf(words);
    }
  }

  // Commands printed in any mix of fitting styles read back as they were.
  lemma {:induction false} PrintedReadsBack(commands: seq<seq<Printed>>)
    requires forall i :: 0 <= i < |commands| ==> commands[i] != [] && AllFit(commands[i])
    ensures |Read(PrintAll(commands), "", [])| == |commands|
    ensures forall i :: 0 <= i < |commands| ==> Read(PrintAll(commands), "", [])[i] == WordsOf(commands[i])
  {
    if commands != [] {
      ReadCommand(commands[0], PrintAll(commands[1..]), []);
      PrintedReadsBack(commands[1..]);
      assert [] + WordsOf(commands[0]) == WordsOf(commands[0]);
    }
  }

  function InQuotesAll(commands: seq<Command>): (r: seq<seq<Printed>>)
    ensures |r| == |commands| && forall i :: 0 <= i < |r| ==> WordsOf(r[i]) == commands[i] && AllFit(r[i])
  {
    if commands == [] then []
    else
      var first := seq(|commands[0]|, i requires 0 <= i < |commands[0]| => Printed(commands[0][i], InQuotes));
      assert WordsOf(first) == commands[0];
      [first] + InQuotesAll(commands[1..])
  }

  // Quoting every word carries any non-empty commands of any strings.
  lemma QuotedReadsBack(commands: seq<Command>)
    requires forall i :: 0 <= i < |commands| ==> commands[i] != []
    ensures forall i :: 0 <= i < |commands| ==> InQuotesAll(commands)[i] != []
    ensures Read(PrintAll(InQuotesAll(commands)), "", []) == commands
  {
    var printed := InQuotesAll(commands);
    forall i | 0 <= i < |printed|
      ensures printed[i] != []
    {
      assert WordsOf(printed[i]) == commands[i];
    }
    PrintedReadsBack(printed);
  }

  // ---- whole texts ------------------------------------------------------

  // What may stand between two words: a blank, or the end of a line that goes on.
  datatype Piece = Space | Tab | Return | Continued

  function PieceText(x: Piece): string {
    match x
    case Space => " "
    case Tab => "\t"
    case Return => "\r"
    case Continued => "\\\n"
  }

  function GapText(gap: seq<Piece>): string {
    if gap == [] then "" else PieceText(gap[0]) + GapText(gap[1..])
  }

  datatype Spaced = Spaced(printed: Printed, gap: seq<Piece>)

  // A line as it may be written: indented, with words and gaps, and a comment at its end.
  datatype Line = Line(lead: seq<Piece>, words: seq<Spaced>, comment: string)

  function SpacedText(words: seq<Spaced>, after: string): string {
    if words == [] then after
    else PrintWord(words[0].printed) + (GapText(words[0].gap) + SpacedText(words[1..], after))
  }

  function LineText(l: Line, after: string): string {
    GapText(l.lead) + SpacedText(l.words, l.comment + after)
  }

  // Every line with its newline, and the last one with or without.
  function LinesText(lines: seq<Line>, last: Line): string {
    if lines == [] then LineText(last, "") else LineText(lines[0], "\n" + LinesText(lines[1..], last))
  }

  // A word in front of this text ends there.
  predicate Ends(x: Spaced, after: string) {
    x.printed.style == Bare ==> x.gap != [] || after == "" || after[0] == '\n'
  }

  // Bare words are kept apart from what follows, and a comment stays on its line.
  ghost predicate LineFits(l: Line) {
    && (forall i :: 0 <= i < |l.words| ==> Fits(l.words[i].printed))
    && (forall i :: 0 <= i < |l.words| && l.words[i].printed.style == Bare && l.words[i].gap == [] ==>
          i == |l.words| - 1 && l.comment == "")
    && (l.comment == "" || (l.comment[0] == '#' && '\n' !in l.comment))
  }

  function WordsIn(words: seq<Spaced>): (r: Command)
    ensures |r| == |words| && forall i :: 0 <= i < |r| ==> r[i] == words[i].printed.word
  {
    seq(|words|, i requires 0 <= i < |words| => words[i].printed.word)
  }

  // A command for every line with a word on it.
  function CommandsOf(lines: seq<Line>): seq<Command> {
    if lines == [] then []
    else (if lines[0].words == [] then [] else [WordsIn(lines[0].words)]) + CommandsOf(lines[1..])
  }

  // One piece ends the word before it.
  lemma ReadPiece(x: Piece, rest: string, word: string, current: Command)
    ensures Read(PieceText(x) + rest, word, current) == Read(rest, "", FlushWord(current, word))
  {
    var s := PieceText(x) + rest;
    if x == Continued {
      assert s[0] == '\\' && s[1] == '\n' && s[2..] == rest;
    } else {
      assert Blank(s[0]) && s[1..] == rest;
    }
  }

  lemma {:induction false} ReadGap(gap: seq<Piece>, rest: string, current: Command)
    ensures Read(GapText(gap) + rest, "", current) == Read(rest, "", current)
  {
    if gap == [] {
      assert "" + rest == rest;
    } else {
      Regroup(PieceText(gap[0]), GapText(gap[1..]), rest);
      ReadPiece(gap[0], GapText(gap[1..]) + rest, "", current);
      ReadGap(gap[1..], rest, current);
    }
  }

  // A word and the gap after it.
  lemma ReadSpaced(x: Spaced, rest: string, current: Command)
    requires Fits(x.printed) && Ends(x, rest)
    ensures Read(PrintWord(x.printed) + (GapText(x.gap) + rest), "", current)
         == Read(rest, "", current + [x.printed.word])
  {
    var w, after := x.printed.word, GapText(x.gap) + rest;
    match x.printed.style {
      case InQuotes =>
        ReadQuotedWord(w, after, current);
        ReadGap(x.gap, rest, current + [w]);
      case Braced =>
        ReadClosed(w, after, '{', '}', current);
        ReadGap(x.gap, rest, current + [w]);
      case Bracketed =>
        ReadClosed(w, after, '[', ']', current);
        ReadGap(x.gap, rest, current + [w]);
      case Bare =>
        assert w[0..] == w && w[..0] == "";
        ReadBare(w, 0, after, current);
        ReadBareEnd(x, rest, current);
    }
  }

  lemma ReadBareEnd(x: Spaced, rest: string, current: Command)
    requires x.printed.style == Bare && Fits(x.printed) && Ends(x, rest)
    ensures Read(GapText(x.gap) + rest, x.printed.word, current) == Read(rest, "", current + [x.printed.word])
  {
    var w := x.printed.word;
    if x.gap == [] {
      assert "" + rest == rest;
    } else {
      Regroup(PieceText(x.gap[0]), GapText(x.gap[1..]), rest);
      ReadPiece(x.gap[0], GapText(x.gap[1..]) + rest, w, current);
      ReadGap(x.gap[1..], rest, current + [w]);
    }
  }

  lemma {:induction false} CommentEnds(comment: string, rest: string)
    requires '\n' !in comment && (rest == "" || rest[0] == '\n')
    ensures CommentLength(comment + rest) == |comment|
  {
    if comment == "" {
      assert comment + rest == rest;
    } else {
      assert (comment + rest)[1..] == comment[1..] + rest;
      CommentEnds(comment[1..], rest);
    }
  }

  // A comment at a word boundary ends the command and is gone.
  lemma ReadComment(comment: string, rest: string, current: Command)
    requires comment == "" || (comment[0] == '#' && '\n' !in comment)
    requires rest == "" || rest[0] == '\n'
    ensures Read(comment + rest, "", current) == FlushLine(current) + Read(if rest == "" then "" else rest[1..], "", [])
  {
    var s := comment + rest;
    if comment == "" {
      assert s == rest;
    } else {
      assert s[1..] == comment[1..] + rest;
      CommentEnds(comment[1..], rest);
      assert s[1..][CommentLength(s[1..])..] == rest;
      assert rest != "" ==> FlushLine([]) + Read(rest[1..], "", []) == Read(rest[1..], "", []);
    }
  }

  // Bare words without a gap stand only at the end of the line.
  ghost predicate WordsFit(words: seq<Spaced>, after: string) {
    && (forall i :: 0 <= i < |words| ==> Fits(words[i].printed))
    && (forall i :: 0 <= i < |words| && words[i].printed.style == Bare && words[i].gap == [] ==>
          i == |words| - 1 && (after == "" || after[0] == '\n'))
  }

  lemma {:induction false} ReadWords(words: seq<Spaced>, after: string, current: Command)
    requires WordsFit(words, after)
    ensures Read(SpacedText(words, after), "", current) == Read(after, "", current + WordsIn(words))
    decreases |words|
  {
    assert words == [] ==> current + WordsIn(words) == current;
    if words != [] {
      var x, rest, more := words[0], words[1..], SpacedText(words[1..], after);
      WordsFitRest(words, after);
      assert SpacedText(words, after) == PrintWord(x.printed) + (GapText(x.gap) + more);
      ReadSpaced(x, more, current);
      ReadWords(rest, after, current + [x.printed.word]);
      FirstWordJoins(words, current);
    }
  }

  lemma FirstWordJoins(words: seq<Spaced>, current: Command)
    requires words != []
    ensures current + [words[0].printed.word] + WordsIn(words[1..]) == current + WordsIn(words)
  {
  }

  lemma WordsFitRest(words: seq<Spaced>, after: string)
    requires words != [] && WordsFit(words, after)
    ensures WordsFit(words[1..], after) && Ends(words[0], SpacedText(words[1..], after)) && Fits(words[0].printed)
  {
    var rest := words[1..];
    forall i | 0 <= i < |rest| ensures rest[i] == words[i + 1] {
    }
    if words[0].printed.style == Bare && words[0].gap == [] {
      assert rest == [] && SpacedText(rest, after) == after;
    }
  }

  lemma LineWordsFit(l: Line, rest: string)
    requires LineFits(l) && (rest == "" || rest[0] == '\n')
    ensures WordsFit(l.words, l.comment + rest) && [] + WordsIn(l.words) == WordsIn(l.words)
  {
    assert l.comment == "" ==> l.comment + rest == rest;
  }

  // A line up to its comment.
  lemma ReadToComment(l: Line, rest: string)
    requires LineFits(l) && (rest == "" || rest[0] == '\n')
    ensures Read(LineText(l, rest), "", []) == Read(l.comment + rest, "", WordsIn(l.words))
  {
    var after := l.comment + rest;
    LineWordsFit(l, rest);
    ReadGap(l.lead, SpacedText(l.words, after), []);
    ReadWords(l.words, after, []);
  }

  lemma ReadLine(l: Line, rest: string)
    requires LineFits(l) && (rest == "" || rest[0] == '\n')
    ensures Read(LineText(l, rest), "", [])
         == (if l.words == [] then [] else [WordsIn(l.words)]) + Read(if rest == "" then "" else rest[1..], "", [])
  {
    ReadToComment(l, rest);
    ReadComment(l.comment, rest, WordsIn(l.words));
  }

  // Any text of lines with indentation, blanks, continued lines, comments, empty lines, and
  // the last line ended or not: it reads as the words of its lines.
  lemma {:induction false} TextReadsAsLines(lines: seq<Line>, last: Line)
    requires (forall i :: 0 <= i < |lines| ==> LineFits(lines[i])) && LineFits(last)
    ensures Read(LinesText(lines, last), "", []) == CommandsOf(lines + [last])
    decreases |lines|
  {
    if lines == [] {
      ReadLine(last, "");
      assert [] + [last] == [last] && [last][1..] == [];
      assert CommandsOf([]) == [];
    } else {
      var rest := "\n" + LinesText(lines[1..], last);
      ReadLine(lines[0], rest);
      assert rest[1..] == LinesText(lines[1..], last);
      TextReadsAsLines(lines[1..], last);
      assert (lines + [last])[1..] == lines[1..] + [last];
    }
  }

  // ---- words that never close -------------------------------------------

  ghost predicate NeverCloses(w: string, open: char, close: char) {
    w != "" && w[0] == open && forall k :: 0 < k <= |w| ==> Nesting(w[..k], open, close) > 0
  }

  lemma {:induction false} SpanOfUnclosed(w: string, k: nat, open: char, close: char)
    requires NeverCloses(w, open, close) && 0 < k <= |w| && open != close
    ensures SpanLength(w[k..], open, close, Nesting(w[..k], open, close)) == |w| - k
    decreases |w| - k
  {
    if k < |w| {
      assert w[..k + 1][..k] == w[..k];
      SpanOfUnclosed(w, k + 1, open, close);
      assert w[k..][1..] == w[k + 1..];
    }
  }

  // A backslash that ends the text stands for itself.
  lemma {:induction false} UnquoteToEnd(w: string, end: string)
    requires '"' !in w && '\\' !in w && (end == "" || end == "\\")
    ensures Unquote(w + end) == Quoted(w + end, |w + end|)
  {
    var s := w + end;
    if w == "" {
      assert s == end;
      assert end != "" ==> end[1..] == "" && end == [end[0]] + "";
    } else {
      UnquoteToEnd(w[1..], end);
      assert s[1..] == w[1..] + end && s == [w[0]] + s[1..];
    }
  }

  lemma SpanTakesTheRest(w: string, open: char, close: char, current: Command)
    requires NeverCloses(w, open, close) && open != close
    ensures ReadSpan(w, open, close, current) == [current + [w]]
  {
    assert w[..1] == [open] && Nesting(w[..1][..0], open, close) == 0;
    SpanOfUnclosed(w, 1, open, close);
    assert w[..|w|] == w && w[|w|..] == "";
    assert Read("", "", current + [w]) == [current + [w]];
  }

  lemma SpanOpens(w: string, current: Command)
    requires w != ""
    ensures w[0] == '{' ==> Read(w, "", current) == ReadSpan(w, '{', '}', current)
    ensures w[0] == '[' ==> Read(w, "", current) == ReadSpan(w, '[', ']', current)
  {
  }

  lemma QuoteTakesTheRest(w: string, end: string, current: Command)
    requires '"' !in w && '\\' !in w && (end == "" || end == "\\")
    ensures Read("\"" + (w + end), "", current) == [current + [w + end]]
  {
    var rest := w + end;
    var s := "\"" + rest;
    UnquoteToEnd(w, end);
    assert s[1..] == rest && s[|s|..] == "";
    assert Read("", "", current + [rest]) == [current + [rest]];
  }

  // A bracket or quote left open takes the rest of the text into its word.
  lemma UnclosedTakesTheRest(w: string, end: string, current: Command)
    ensures NeverCloses(w, '{', '}') || NeverCloses(w, '[', ']') ==> Read(w, "", current) == [current + [w]]
    ensures '"' !in w && '\\' !in w && (end == "" || end == "\\") ==>
              Read("\"" + (w + end), "", current) == [current + [w + end]]
  {
    if NeverCloses(w, '{', '}') {
      SpanTakesTheRest(w, '{', '}', current);
      SpanOpens(w, current);
    }
    if NeverCloses(w, '[', ']') {
      SpanTakesTheRest(w, '[', ']', current);
      SpanOpens(w, current);
    }
    if '"' !in w && '\\' !in w && (end == "" || end == "\\") {
      QuoteTakesTheRest(w, end, current);
    }
  }
}
