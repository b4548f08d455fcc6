/**
  Quoting for the remote shell (internal/sshexec/client.go). The reader below is the part of the POSIX.1-2017
  Shell Command Language the code relies on: backslash and single quotes (sections 2.2.1 and 2.2.2), and
  here-documents with a quoted delimiter (section 2.7.4). Strings contain no NUL.
*/
module ShellQuote {
  import opened Prelude
  import opened TextLines

  // ---------------------------------------------------------------- reading words

  datatype Mode = Bare | Quoted

  // Characters that end a word outside quotes.
  predicate Delimits(c: char) {
    c == ' ' || c == '\t' || c == '\n' || c == '|' || c == '&' || c == ';' || c == '<' || c == '>'
    || c == '(' || c == ')'
  }

  // Characters that start an expansion, a pattern or another kind of quoting outside single quotes.
  predicate Expands(c: char) {
    c == '$' || c == '`' || c == '"' || c == '*' || c == '?' || c == '[' || c == ']' || c == '{' || c == '}' || c == '~'
    || c == '#' || c == '=' || c == '%' || c == '!'
  }

  function Prefix(c: char, r: Option<(string, string)>): Option<(string, string)> {
    if r.None? then None else Some(([c] + r.value.0, r.value.1))
  }

  /** The literal word at the start of the text and what follows it; None if the quoting is unterminated or
      something other than literal text is met. */
  function ReadWord(t: string, m: Mode): Option<(string, string)>
    decreases |t|
  {
    match m
    case Quoted =>
      if t == "" then None
      else if t[0] == '\'' then ReadWord(t[1..], Bare)
      else Prefix(t[0], ReadWord(t[1..], Quoted))
    case Bare =>
      if t == "" || Delimits(t[0]) then Some(("", t))
      else if t[0] == '\'' then ReadWord(t[1..], Quoted)
      else if t[0] == '\\' then
        if |t| == 1 then None
        else if t[1] == '\n' then ReadWord(t[2..], Bare)
        else Prefix(t[1], ReadWord(t[2..], Bare))
      else if Expands(t[0]) then None
      else Prefix(t[0], ReadWord(t[1..], Bare))
  }

  // ---------------------------------------------------------------- ShellQuote

  function Escape(s: string): string {
    if s == "" then "" else (if s[0] == '\'' then "'\\''" else [s[0]]) + Escape(s[1..])
  }

  function Quote(s: string): string {
    "'" + Escape(s) + "'"
  }

  /** The text may follow a word: it is empty or begins with a delimiter. */
  predicate Separate(rest: string) {
    rest == "" || Delimits(rest[0])
  }

  lemma ReadEscapedQuote(tail: string)
    ensures ReadWord("'\\''" + tail, Quoted) == Prefix('\'', ReadWord(tail, Quoted))
  {
    var t := "'\\''" + tail;
    var t1, t2 := t[1..], t[3..];
    assert t1[0] == '\\' && t1[1] == '\'' && t1[2..] == t2;
    assert t2[0] == '\'' && t2[1..] == tail;
    assert ReadWord(t2, Bare) == ReadWord(tail, Quoted);
    assert ReadWord(t1, Bare) == Prefix('\'', ReadWord(t2, Bare));
  }

  lemma {:induction false} ReadEscaped(s: string, rest: string)
    requires Separate(rest)
    ensures ReadWord(Escape(s) + "'" + rest, Quoted) == Some((s, rest))
  {
    var t := Escape(s) + "'" + rest;
    if s == "" {
      assert t[1..] == rest;
    } else {
      ReadEscaped(s[1..], rest);
      var tail := Escape(s[1..]) + "'" + rest;
      assert s == [s[0]] + s[1..];
      if s[0] == '\'' {
        assert t == "'\\''" + tail;
        ReadEscapedQuote(tail);
      } else {
        assert t == [s[0]] + tail;
        assert t[1..] == tail;
      }
    }
  }

  /** A quoted string is read back as one word equal to the string, with nothing of it left over. */
  lemma QuoteIsOneWord(s: string, rest: string)
    requires Separate(rest)
    ensures ReadWord(Quote(s) + rest, Bare) == Some((s, rest))
  {
    var t := Quote(s) + rest;
    assert t == "'" + (Escape(s) + "'" + rest);
    assert t[1..] == Escape(s) + "'" + rest;
    ReadEscaped(s, rest);
  }

  /** Two levels: a command line that contains a quoted argument, itself quoted for an outer shell, reaches the
      inner shell unchanged, and the argument comes out of that. */
  lemma NestedQuotes(before: string, s: string, after: string, rest: string)
    requires Separate(rest) && Separate(after)
    ensures var inner := before + Quote(s) + after;
            ReadWord(Quote(inner) + rest, Bare) == Some((inner, rest))
            && ReadWord(inner[|before|..], Bare) == Some((s, after))
  {
    var inner := before + Quote(s) + after;
    QuoteIsOneWord(inner, rest);
    assert inner[|before|..] == Quote(s) + after;
    QuoteIsOneWord(s, after);
  }

  /** Different strings are never quoted the same. */
  lemma QuoteIsInjective(s: string, s': string)
    requires Quote(s) == Quote(s')
    ensures s == s'
  {
    QuoteIsOneWord(s, "");
    QuoteIsOneWord(s', "");
  }

  // ---------------------------------------------------------------- here-documents

  const DELIMITER: string := "PROTEAN_EOF"

  // The body of a here-document and the lines after its delimiter.
  function ReadBody(lines: seq<string>, delimiter: string): (string, seq<string>) {
    if lines == [] then ("", [])
    else if lines[0] == delimiter then ("", lines[1..])
    else
      var (body, rest) := ReadBody(lines[1..], delimiter);
      (lines[0] + "\n" + body, rest)
  }

  lemma {:induction false} ReadUpTo(lines: seq<string>, d: string)
    ensures d !in lines ==> ReadBody(lines + [d], d) == (Lines(lines), [])
    ensures d in lines ==> |ReadBody(lines + [d], d).1| > 0
  {
    var all := lines + [d];
    if lines == [] {
      assert all[1..] == [];
    } else {
      assert all[1..] == lines[1..] + [d];
      assert forall x :: x in lines <==> x == lines[0] || x in lines[1..];
      if lines[0] != d { ReadUpTo(lines[1..], d); }
    }
  }

  lemma DelimiterIsOneLine()
    ensures '\n' !in DELIMITER && Split(DELIMITER) == [DELIMITER]
  {
    SplitOneLine(DELIMITER);
  }

  /** The shell reads exactly the content and one newline, with nothing left to execute, if and only if no line
      of the content is the delimiter. */
  lemma HeredocExactly(content: string)
    ensures ReadBody(Split(content + "\n" + DELIMITER), DELIMITER) == (content + "\n", []) <==>
              DELIMITER !in Split(content)
  {
    SplitJoined(content, DELIMITER);
    DelimiterIsOneLine();
    ReadUpTo(Split(content), DELIMITER);
    LinesOfSplit(content);
  }

  // ---------------------------------------------------------------- WriteFile

  function TrimCr(line: string): string {
    if line != "" && line[|line| - 1] == '\r' then TrimCr(line[..|line| - 1]) else line
  }

  /** A line is refused exactly if it is the delimiter, followed by carriage returns only. */
  lemma {:induction false} RefusedExactly(line: string)
    ensures TrimCr(line) == DELIMITER <==>
            DELIMITER <= line && forall i | |DELIMITER| <= i < |line| :: line[i] == '\r'
  {
    assert DELIMITER[|DELIMITER| - 1] == 'F';
    if line != "" && line[|line| - 1] == '\r' {
      var n := |line| - 1;
      RefusedExactly(line[..n]);
      if DELIMITER <= line {
        assert line[|DELIMITER| - 1] == 'F';
        assert DELIMITER <= line[..n];
      }
      assert DELIMITER <= line[..n] ==> DELIMITER <= line;
    }
  }

  function Heredoc(path: string, delimiter: string, content: string): string {
    "cat > " + (Quote(path) + (" <<" + ("'" + delimiter + "'" + ("\n" + (content + "\n" + delimiter)))))
  }

  function Command(path: string, content: string): string {
    Heredoc(path, DELIMITER, content)
  }

  datatype Script = Script(path: string, body: string, rest: seq<string>)

  // `<<word`, a newline, and the here-document.
  function ReadHere(t: string): Option<(string, seq<string>)> {
    if !(" <<" <= t) then None
    else
      var delimiter := ReadWord(t[3..], Bare);
      if delimiter.None? || !("\n" <= delimiter.value.1) then None
      else Some(ReadBody(Split(delimiter.value.1[1..]), delimiter.value.0))
  }

  // `cat > word` and its here-document.
  function ReadCommand(t: string): Option<Script> {
    if !("cat > " <= t) then None
    else
      var path := ReadWord(t[6..], Bare);
      if path.None? then None
      else
        var here := ReadHere(path.value.1);
        if here.None? then None else Some(Script(path.value.0, here.value.0, here.value.1))
  }

  lemma {:induction false} PlainEscape(s: string)
    requires '\'' !in s
    ensures Escape(s) == s
  {
    if s != "" {
      PlainEscape(s[1..]);
      assert s == [s[0]] + s[1..];
    }
  }

  lemma HereIsRead(d: string, doc: string)
    ensures ReadHere(" <<" + (Quote(d) + ("\n" + doc))) == Some(ReadBody(Split(doc), d))
  {
    var t := " <<" + (Quote(d) + ("\n" + doc));
    assert t[3..] == Quote(d) + ("\n" + doc);
    QuoteIsOneWord(d, "\n" + doc);
    assert ("\n" + doc)[1..] == doc;
  }

  lemma HeredocIsRead(path: string, d: string, content: string)
    requires '\'' !in d
    ensures var (body, rest) := ReadBody(Split(content + "\n" + d), d);
            ReadCommand(Heredoc(path, d, content)) == Some(Script(path, body, rest))
  {
    var t, doc := Heredoc(path, d, content), content + "\n" + d;
    var tail := " <<" + (Quote(d) + ("\n" + doc));
    assert Quote(d) == "'" + d + "'" by { PlainEscape(d); }
    assert t == "cat > " + (Quote(path) + tail);
    assert t[6..] == Quote(path) + tail;
    QuoteIsOneWord(path, tail);
    HereIsRead(d, doc);
  }

  lemma CommandIsRead(path: string, content: string)
    requires forall line | line in Split(content) :: TrimCr(line) != DELIMITER
    ensures ReadCommand(Command(path, content)) == Some(Script(path, content + "\n", []))
  {
    HeredocIsRead(path, DELIMITER, content);
    assert TrimCr(DELIMITER) == DELIMITER;
    assert DELIMITER !in Split(content);
    HeredocExactly(content);
  }

  /** The command sent for a path and a content, or None when the content is refused. */
  method WriteFile(path: string, content: string) returns (cmd: Option<string>)
    ensures cmd.None? <==> exists line :: line in Split(content) && TrimCr(line) == DELIMITER
    ensures cmd.Some? ==> cmd.value == Command(path, content)
    ensures cmd.Some? ==> ReadCommand(cmd.value) == Some(Script(path, content + "\n", []))
  {
    var lines := Split(content);
    for i := 0 to |lines|
      invariant forall k | 0 <= k < i :: TrimCr(lines[k]) != DELIMITER
    {
      if TrimCr(lines[i]) == DELIMITER {
        assert lines[i] in Split(content);
        return None;
      }
    }
    CommandIsRead(path, content);
    cmd := Some(Command(path, content));
  }
}
