/** Text and its lines: strings.Split(s, "\n") and its inverse. */
module TextLines {

  // One more character in front of split text.
  function Lead(c: char, lines: seq<string>): (r: seq<string>)
    requires |lines| >= 1
    ensures |r| >= 1
  {
    if c == '\n' then [""] + lines else [[c] + lines[0]] + lines[1..]
  }

  // strings.Split(s, "\n").
  function Split(s: string): (lines: seq<string>)
    ensures |lines| >= 1
  {
    if s == "" then [""] else Lead(s[0], Split(s[1..]))
  }

  function Lines(lines: seq<string>): string {
    if lines == [] then "" else lines[0] + "\n" + Lines(lines[1..])
  }

  lemma LeadAppends(c: char, x: seq<string>, y: seq<string>)
    requires |x| >= 1
    ensures Lead(c, x + y) == Lead(c, x) + y
  {
    assert (x + y)[1..] == x[1..] + y;
  }

  lemma {:induction false} SplitJoined(a: string, b: string)
    ensures Split(a + "\n" + b) == Split(a) + Split(b)
  {
    var t := a + "\n" + b;
    if a == "" {
      assert t[0] == '\n' && t[1..] == b;
    } else {
      SplitJoined(a[1..], b);
      assert t[0] == a[0] && t[1..] == a[1..] + "\n" + b;
      LeadAppends(a[0], Split(a[1..]), Split(b));
    }
  }

  lemma {:induction false} SplitOneLine(s: string)
    requires '\n' !in s
    ensures Split(s) == [s]
  {
    if s != "" {
      SplitOneLine(s[1..]);
      assert s == [s[0]] + s[1..];
    }
  }

  lemma {:induction false} LinesOfSplit(s: string)
    ensures Lines(Split(s)) == s + "\n"
  {
    if s != "" {
      LinesOfSplit(s[1..]);
      var rest := Split(s[1..]);
      assert s + "\n" == [s[0]] + (s[1..] + "\n");
      if s[0] == '\n' {
        assert Split(s)[1..] == rest;
      } else {
        assert Split(s)[1..] == rest[1..] && Split(s)[0] == [s[0]] + rest[0];
        assert Lines(rest) == rest[0] + "\n" + Lines(rest[1..]);
        assert Lines(Split(s)) == [s[0]] + rest[0] + "\n" + Lines(rest[1..]);
        assert Lines(Split(s)) == [s[0]] + Lines(rest);
      }
    }
  }

  lemma {:induction false} SplitOfLines(lines: seq<string>)
    requires forall l | l in lines :: '\n' !in l
    ensures Split(Lines(lines)) == lines + [""]
  {
    if lines != [] {
      var l, rest := lines[0], lines[1..];
      assert l in lines && forall x | x in rest :: x in lines;
      SplitOfLines(rest);
      SplitJoined(l, Lines(rest));
      SplitOneLine(l);
      assert lines == [l] + rest;
    }
  }
}
