/**
  The firewall renderer (internal/firewall/render.go, baseline.go): a policy, the ports that must never be locked
  out, and the administrator's rules become iptables-restore text. The meaning of the text is given by reading
  it back - lines, options, arguments in double quotes - and taking the first rule that matches a packet; the
  theorems say what a packet meets.
*/
module Firewall {
  import opened Prelude
  import opened TextLines

  datatype BaselinePort = BaselinePort(proto: string, port: int, name: string)
  datatype Rule = Rule(action: string, proto: string, portSpec: string, sourceCidr: string, comment: string)
  datatype InstancePort = InstancePort(name: string, proto: string, port: int)

  // `from`: whether the source address lies in a network, given as text.
  datatype Packet = Packet(iface: string, isNew: bool, proto: string, dport: nat, from: string -> bool)

  // ---------------------------------------------------------------- options as text, and back

  datatype Arg = Word(s: string) | Text(s: string)
  datatype Key = Append | Iface | Proto | Port | Ports | Source | State | Jump | Match | Comment
  datatype Opt = Opt(key: Key, arg: Arg)

  function KeyText(k: Key): string {
    match k
    case Append => "-A"
    case Iface => "-i"
    case Proto => "-p"
    case Port => "--dport"
    case Ports => "--dports"
    case Source => "-s"
    case State => "--state"
    case Jump => "-j"
    case Match => "-m"
    case Comment => "--comment"
  }

  // How iptables-restore reads a flag.
  function KeyOf(t: string): Option<Key> {
    match t
    case "-A" => Some(Append)
    case "-i" => Some(Iface)
    case "-p" => Some(Proto)
    case "--dport" => Some(Port)
    case "--dports" => Some(Ports)
    case "-s" => Some(Source)
    case "--state" => Some(State)
    case "-j" => Some(Jump)
    case "-m" => Some(Match)
    case "--comment" => Some(Comment)
    case _ => None
  }

  lemma KeyOfText(k: Key)
    ensures KeyOf(KeyText(k)) == Some(k)
  {
  }

  predicate PlainWord(w: string) {
    w != "" && ' ' !in w && '"' !in w && '\n' !in w
  }

  lemma KeyTextIsPlain(k: Key)
    ensures PlainWord(KeyText(k))
  {
  }

  function Show(a: Arg): string {
    if a.Word? then a.s else "\"" + a.s + "\""
  }

  function ShowOpts(os: seq<Opt>): string {
    if os == [] then ""
    else KeyText(os[0].key) + (" " + (Show(os[0].arg) + (if |os| == 1 then "" else " " + ShowOpts(os[1..]))))
  }

  function TakeWord(t: string): (r: (string, string))
    ensures |r.1| <= |t| && (r.1 == "" || r.1[0] == ' ')
  {
    if t == "" || t[0] == ' ' then ("", t)
    else var (w, rest) := TakeWord(t[1..]); ([t[0]] + w, rest)
  }

  // After an opening double quote; a backslash takes the next character as it is.
  function TakeQuoted(t: string): (r: Option<(string, string)>)
    ensures r.Some? ==> |r.value.1| <= |t|
  {
    if t == "" then None
    else if t[0] == '"' then Some(("", t[1..]))
    else if t[0] == '\\' then
      if |t| == 1 then None
      else var r := TakeQuoted(t[2..]); if r.None? then None else Some(([t[1]] + r.value.0, r.value.1))
    else var r := TakeQuoted(t[1..]); if r.None? then None else Some(([t[0]] + r.value.0, r.value.1))
  }

  function TakeArg(t: string): (r: Option<(string, string)>)
    ensures r.Some? ==> |r.value.1| <= |t|
  {
    if t != "" && t[0] == '"' then TakeQuoted(t[1..]) else Some(TakeWord(t))
  }

  function ReadOpts(t: string): Option<seq<(Key, string)>>
    decreases |t|
  {
    var (flag, r) := TakeWord(t);
    if r == "" || KeyOf(flag).None? then None
    else
      var key := KeyOf(flag).value;
      var arg := TakeArg(r[1..]);
      if arg.None? then None
      else
        var (v, r2) := arg.value;
        if r2 == "" then Some([(key, v)])
        else if r2[0] != ' ' then None
        else
          var rest := ReadOpts(r2[1..]);
          if rest.None? then None else Some([(key, v)] + rest.value)
  }

  // What stands between double quotes, its backslashes read; None if the last one has nothing left to take.
  function Unescape(s: string): Option<string> {
    if s == "" then Some("")
    else if s[0] == '\\' then
      if |s| == 1 then None
      else var r := Unescape(s[2..]); if r.None? then None else Some([s[1]] + r.value)
    else var r := Unescape(s[1..]); if r.None? then None else Some([s[0]] + r.value)
  }

  // An odd number of backslashes at the end.
  predicate Dangling(s: string) {
    s != "" && s[|s| - 1] == '\\' && !Dangling(s[..|s| - 1])
  }

  lemma {:induction false} DanglingJoins(a: string, b: string)
    requires !Dangling(a)
    ensures Dangling(a + b) <==> Dangling(b)
    decreases |b|
  {
    if b == "" {
      assert a + b == a;
    } else {
      DanglingJoins(a, b[..|b| - 1]);
      assert (a + b)[..|a + b| - 1] == a + b[..|b| - 1];
    }
  }

  lemma PairIsNotDangling(c: char)
    ensures !Dangling(['\\', c])
  {
    var pair := ['\\', c];
    assert pair[..1] == ['\\'] && ['\\'][..0] == "";
    assert Dangling(['\\']);
  }

  lemma {:induction false} UnescapeFails(s: string)
    ensures Unescape(s).None? <==> Dangling(s)
    decreases |s|
  {
    if s != "" {
      var n := if s[0] == '\\' then 2 else 1;
      if |s| < n {
        assert s[..|s| - 1] == "";
      } else {
        assert !Dangling(s[..n]) by {
          if n == 1 { assert s[..n] == [s[0]]; } else { PairIsNotDangling(s[1]); assert s[..n] == ['\\', s[1]]; }
        }
        UnescapeFails(s[n..]);
        DanglingJoins(s[..n], s[n..]);
        assert s == s[..n] + s[n..];
      }
    }
  }

  predicate PlainText(w: string) {
    '"' !in w && '\n' !in w && !Dangling(w)
  }

  predicate Clean(o: Opt) {
    if o.arg.Word? then PlainWord(o.arg.s) else PlainText(o.arg.s)
  }

  // The argument as it is read.
  function Content(a: Arg): string {
    if a.Word? || Unescape(a.s).None? then a.s else Unescape(a.s).value
  }

  function Pairs(os: seq<Opt>): seq<(Key, string)> {
    seq(|os|, i requires 0 <= i < |os| => (os[i].key, Content(os[i].arg)))
  }

  lemma {:induction false} TakeWordOf(w: string, rest: string)
    requires ' ' !in w && (rest == "" || rest[0] == ' ')
    ensures TakeWord(w + rest) == (w, rest)
  {
    if w == "" {
      assert w + rest == rest;
    } else {
      TakeWordOf(w[1..], rest);
      assert (w + rest)[1..] == w[1..] + rest;
      assert w == [w[0]] + w[1..];
    }
  }

  lemma {:induction false} TakeQuotedOf(s: string, rest: string)
    requires '"' !in s && Unescape(s).Some?
    ensures TakeQuoted(s + ("\"" + rest)) == Some((Unescape(s).value, rest))
    decreases |s|
  {
    var t := s + ("\"" + rest);
    if s == "" {
      assert t[1..] == rest;
    } else {
      assert t[0] == s[0] && s[0] in s;
      var n := if s[0] == '\\' then 2 else 1;
      assert TakeQuoted(t[n..]) == Some((Unescape(s[n..]).value, rest)) by {
        assert t[n..] == s[n..] + ("\"" + rest);
        TakeQuotedOf(s[n..], rest);
      }
      assert n == 2 ==> t[1] == s[1];
    }
  }

  lemma TakeArgOf(o: Opt, rest: string)
    requires Clean(o) && (rest == "" || rest[0] == ' ')
    ensures TakeArg(Show(o.arg) + rest) == Some((Content(o.arg), rest))
  {
    var t := Show(o.arg) + rest;
    if o.arg.Word? {
      assert t[0] == o.arg.s[0];
      TakeWordOf(o.arg.s, rest);
    } else {
      assert t[1..] == o.arg.s + ("\"" + rest);
      UnescapeFails(o.arg.s);
      TakeQuotedOf(o.arg.s, rest);
    }
  }

  lemma ReadOneOpt(o: Opt, tail: string)
    requires Clean(o) && (tail == "" || tail[0] == ' ')
    ensures var t := KeyText(o.key) + (" " + (Show(o.arg) + tail));
            ReadOpts(t) == if tail == "" then Some([(o.key, Content(o.arg))])
                           else if ReadOpts(tail[1..]).None? then None
                           else Some([(o.key, Content(o.arg))] + ReadOpts(tail[1..]).value)
  {
    var afterFlag := " " + (Show(o.arg) + tail);
    KeyOfText(o.key);
    assert TakeWord(KeyText(o.key) + afterFlag) == (KeyText(o.key), afterFlag) by {
      KeyTextIsPlain(o.key);
      TakeWordOf(KeyText(o.key), afterFlag);
    }
    assert afterFlag[1..] == Show(o.arg) + tail;
    assert TakeArg(afterFlag[1..]) == Some((Content(o.arg), tail)) by { TakeArgOf(o, tail); }
  }

  /** The text of an option list is read back as that list. */
  lemma {:induction false} ReadOptsOf(os: seq<Opt>)
    requires os != [] && forall o | o in os :: Clean(o)
    ensures ReadOpts(ShowOpts(os)) == Some(Pairs(os))
    decreases |os|
  {
    var tail := if |os| == 1 then "" else " " + ShowOpts(os[1..]);
    var first := (os[0].key, Content(os[0].arg));
    assert os[0] in os;
    if |os| == 1 {
      assert ReadOpts(ShowOpts(os)) == Some([first]) by { ReadOneOpt(os[0], tail); }
      assert Pairs(os) == [first];
    } else {
      assert ReadOpts(tail[1..]) == Some(Pairs(os[1..])) by {
        assert forall x | x in os[1..] :: x in os;
        ReadOptsOf(os[1..]);
        assert tail[1..] == ShowOpts(os[1..]);
      }
      assert ReadOpts(ShowOpts(os)) == Some([first] + Pairs(os[1..])) by { ReadOneOpt(os[0], tail); }
      assert Pairs(os) == [first] + Pairs(os[1..]);
    }
  }

  // ---------------------------------------------------------------- ports

  function Digit(d: nat): char
    requires d < 10
  {
    "0123456789"[d]
  }

  function Decimal(n: int): string
    decreases n < 0, if n < 0 then -n else n
  {
    if n < 0 then "-" + Decimal(-n) else if n < 10 then [Digit(n)] else Decimal(n / 10) + [Digit(n % 10)]
  }

  function DigitValue(c: char): (r: Option<nat>)
    ensures r.Some? ==> r.value < 10
  {
    if '0' <= c <= '9' then Some(c as int - '0' as int) else None
  }

  function Number(s: string): Option<nat> {
    if s == "" then None
    else
      var d := DigitValue(s[|s| - 1]);
      if d.None? then None
      else if |s| == 1 then d
      else
        var rest := Number(s[..|s| - 1]);
        if rest.None? then None else Some(10 * rest.value + d.value)
  }

  lemma {:induction false} NumberOfDecimal(n: nat)
    ensures Number(Decimal(n)) == Some(n)
    ensures forall c | c in Decimal(n) :: '0' <= c <= '9'
    ensures Decimal(n) != ""
  {
    if n >= 10 {
      NumberOfDecimal(n / 10);
      var s := Decimal(n);
      assert s[..|s| - 1] == Decimal(n / 10);
    }
  }

  // The position of the first c, or the length.
  function IndexOf(s: string, c: char): (n: nat)
    ensures n <= |s| && (n < |s| ==> s[n] == c)
    ensures n == |s| <==> c !in s
  {
    if s == "" then 0 else if s[0] == c then 0 else 1 + IndexOf(s[1..], c)
  }

  // "443" or "8000:8100".
  predicate PartMatches(part: string, port: nat) {
    var n := IndexOf(part, ':');
    if n == |part| then Number(part) == Some(port)
    else
      var lo, hi := Number(part[..n]), Number(part[n + 1..]);
      lo.Some? && hi.Some? && lo.value <= port <= hi.value
  }

  // Parts separated by commas.
  predicate PortMatches(spec: string, port: nat)
    decreases |spec|
  {
    var n := IndexOf(spec, ',');
    PartMatches(spec[..n], port) || (n < |spec| && PortMatches(spec[n + 1..], port))
  }

  lemma DecimalPort(n: nat, port: nat)
    ensures PortMatches(Decimal(n), port) <==> n == port
    ensures PlainWord(Decimal(n))
  {
    NumberOfDecimal(n);
    var s := Decimal(n);
    assert ',' !in s && ':' !in s && ' ' !in s && '"' !in s && '\n' !in s;
    assert IndexOf(s, ',') == |s|;
    assert s[..|s|] == s;
  }

  lemma {:induction false} IndexAfter(a: string, c: char, b: string)
    requires c !in a
    ensures IndexOf(a + [c] + b, c) == |a|
  {
    var t := a + [c] + b;
    if a != "" {
      IndexAfter(a[1..], c, b);
      assert t[0] == a[0] && t[1..] == a[1..] + [c] + b;
    }
  }

  /** "lo:hi" is every port from lo to hi, both included. */
  lemma RangePort(lo: nat, hi: nat, port: nat)
    ensures PartMatches(Decimal(lo) + [':'] + Decimal(hi), port) <==> lo <= port <= hi
  {
    var a, b := Decimal(lo), Decimal(hi);
    NumberOfDecimal(lo);
    NumberOfDecimal(hi);
    IndexAfter(a, ':', b);
    assert (a + [':'] + b)[..|a|] == a && (a + [':'] + b)[|a| + 1..] == b;
  }

  /** A list matches if its first part or the rest does. */
  lemma ListPort(part: string, rest: string, port: nat)
    requires ',' !in part
    ensures PortMatches(part, port) <==> PartMatches(part, port)
    ensures PortMatches(part + [','] + rest, port) <==> PartMatches(part, port) || PortMatches(rest, port)
  {
    var spec := part + [','] + rest;
    IndexAfter(part, ',', rest);
    assert spec[..|part|] == part && spec[|part| + 1..] == rest;
    assert part[..|part|] == part;
  }

  // ---------------------------------------------------------------- rendering

  function Upper(s: string): string {
    seq(|s|, i requires 0 <= i < |s| => if 'a' <= s[i] <= 'z' then (s[i] as int - 32) as char else s[i])
  }

  function EscapeComment(s: string): (r: string)
    ensures '"' !in r
    ensures '\n' !in s ==> '\n' !in r
  {
    if s == "" then "" else (if s[0] == '"' then "" else [s[0]]) + EscapeComment(s[1..])
  }

  const PREFIX := "protean-fw"

  function CommentOpts(comment: string): seq<Opt> {
    [Opt(Match, Word("comment")), Opt(Comment, Text(comment))]
  }

  function BaselineOpts(b: BaselinePort): seq<Opt> {
    [Opt(Append, Word("INPUT")), Opt(Proto, Word(b.proto)), Opt(Port, Word(Decimal(b.port))), Opt(Jump, Word("ACCEPT"))]
    + CommentOpts(PREFIX + "-baseline: " + EscapeComment(b.name))
  }

  function ProtoOpts(r: Rule): seq<Opt> {
    if r.proto != "" && r.proto != "any" then [Opt(Proto, Word(r.proto))] else []
  }

  function PortOpts(r: Rule): seq<Opt> {
    if r.portSpec == "" then []
    else if ',' in r.portSpec then [Opt(Match, Word("multiport")), Opt(Ports, Word(r.portSpec))]
    else [Opt(Port, Word(r.portSpec))]
  }

  function SourceOpts(r: Rule): seq<Opt> {
    if r.sourceCidr != "" then [Opt(Source, Word(r.sourceCidr))] else []
  }

  function RuleOpts(r: Rule): seq<Opt> {
    [Opt(Append, Word("INPUT"))] + ProtoOpts(r) + PortOpts(r) + SourceOpts(r) + [Opt(Jump, Word(Upper(r.action)))]
    + CommentOpts(if r.comment == "" then PREFIX else PREFIX + ": " + EscapeComment(r.comment))
  }

  const LOOPBACK: seq<Opt> := [Opt(Append, Word("INPUT")), Opt(Iface, Word("lo")), Opt(Jump, Word("ACCEPT"))]
  const ESTABLISHED: seq<Opt> :=
    [Opt(Append, Word("INPUT")), Opt(Match, Word("state")), Opt(State, Word("ESTABLISHED,RELATED")),
     Opt(Jump, Word("ACCEPT"))]

  function Default(incoming: string): string {
    if Upper(incoming) == "ACCEPT" then "ACCEPT" else "DROP"
  }

  function BaselineTexts(baseline: seq<BaselinePort>): seq<string> {
    seq(|baseline|, i requires 0 <= i < |baseline| => ShowOpts(BaselineOpts(baseline[i])))
  }

  function RuleTexts(rules: seq<Rule>): seq<string> {
    seq(|rules|, i requires 0 <= i < |rules| => ShowOpts(RuleOpts(rules[i])))
  }

  function Header(incoming: string): seq<string> {
    ["*filter", ":INPUT " + Default(incoming) + " [0:0]", ":FORWARD ACCEPT [0:0]", ":OUTPUT ACCEPT [0:0]"]
  }

  // The lines of the file, the baseline as it stands.
  function FileLines(incoming: string, baseline: seq<BaselinePort>, rules: seq<Rule>): seq<string> {
    Header(incoming) + [ShowOpts(LOOPBACK), ShowOpts(ESTABLISHED)] + BaselineTexts(baseline) + RuleTexts(rules)
      + ["COMMIT"]
  }

  // ---- the words of a line

  // strings.Join(words, " ").
  function Joined(words: seq<string>): string {
    if words == [] then "" else words[0] + (if |words| == 1 then "" else " " + Joined(words[1..]))
  }

  function Words(os: seq<Opt>): seq<string> {
    if os == [] then [] else [KeyText(os[0].key), Show(os[0].arg)] + Words(os[1..])
  }

  lemma {:induction false} ShownInWords(os: seq<Opt>)
    ensures ShowOpts(os) == Joined(Words(os))
  {
    if os != [] {
      ShownInWords(os[1..]);
      var flag, arg, rest := KeyText(os[0].key), Show(os[0].arg), Words(os[1..]);
      var tail := if rest == [] then "" else " " + Joined(rest);
      assert Words(os)[1..] == [arg] + rest && ([arg] + rest)[1..] == rest;
      assert Joined([arg] + rest) == arg + tail;
      assert Joined(Words(os)) == flag + (" " + (arg + tail));
    }
  }

  lemma {:induction false} WordsJoin(a: seq<Opt>, b: seq<Opt>)
    ensures Words(a + b) == Words(a) + Words(b)
  {
    if a == [] {
      assert a + b == b;
    } else {
      WordsJoin(a[1..], b);
      assert (a + b)[1..] == a[1..] + b;
    }
  }

  lemma WordsOf(o: Opt)
    ensures Words([o]) == [KeyText(o.key), Show(o.arg)]
  {
    assert [o][1..] == [];
    assert Words([]) == [];
  }

  lemma WordsOfTwo(x: Opt, y: Opt)
    ensures Words([x, y]) == [KeyText(x.key), Show(x.arg), KeyText(y.key), Show(y.arg)]
  {
    WordsOf(x);
    WordsOf(y);
    WordsJoin([x], [y]);
    assert [x, y] == [x] + [y];
  }

  // What stands after --comment.
  function Tagged(s: string): string {
    "\"protean-fw" + s + "\""
  }

  lemma CommentWords(s: string)
    ensures Words(CommentOpts(PREFIX + s)) == ["-m", "comment", "--comment", Tagged(s)]
  {
    WordsOfTwo(Opt(Match, Word("comment")), Opt(Comment, Text(PREFIX + s)));
    assert "\"" + (PREFIX + s) + "\"" == Tagged(s);
  }

  lemma OpeningWords()
    ensures ShowOpts(LOOPBACK) == Joined(["-A", "INPUT", "-i", "lo", "-j", "ACCEPT"])
    ensures ShowOpts(ESTABLISHED) ==
            Joined(["-A", "INPUT", "-m", "state", "--state", "ESTABLISHED,RELATED", "-j", "ACCEPT"])
  {
    var a, i, j := Opt(Append, Word("INPUT")), Opt(Iface, Word("lo")), Opt(Jump, Word("ACCEPT"));
    var m, e := Opt(Match, Word("state")), Opt(State, Word("ESTABLISHED,RELATED"));
    ShownInWords(LOOPBACK);
    ShownInWords(ESTABLISHED);
    WordsOfTwo(a, i);
    WordsOf(j);
    WordsJoin([a, i], [j]);
    assert LOOPBACK == [a, i] + [j];
    WordsOfTwo(a, m);
    WordsOfTwo(e, j);
    WordsJoin([a, m], [e, j]);
    assert ESTABLISHED == [a, m] + [e, j];
  }

  /** The line of a protected port, word by word. */
  lemma BaselineWords(b: BaselinePort)
    ensures ShowOpts(BaselineOpts(b)) ==
            Joined(["-A", "INPUT", "-p", b.proto, "--dport", Decimal(b.port), "-j", "ACCEPT", "-m", "comment",
                    "--comment", Tagged("-baseline: " + EscapeComment(b.name))])
  {
    var a, p := Opt(Append, Word("INPUT")), Opt(Proto, Word(b.proto));
    var d, j := Opt(Port, Word(Decimal(b.port))), Opt(Jump, Word("ACCEPT"));
    var name := "-baseline: " + EscapeComment(b.name);
    var c := CommentOpts(PREFIX + name);
    ShownInWords(BaselineOpts(b));
    assert PREFIX + "-baseline: " + EscapeComment(b.name) == PREFIX + name;
    assert BaselineOpts(b) == [a, p] + [d, j] + c;
    WordsOfTwo(a, p);
    WordsOfTwo(d, j);
    CommentWords(name);
    WordsJoin([a, p], [d, j]);
    WordsJoin([a, p] + [d, j], c);
    assert Words(BaselineOpts(b)) == ["-A", "INPUT", "-p", b.proto, "--dport", Decimal(b.port), "-j", "ACCEPT", "-m",
                                      "comment", "--comment", Tagged(name)];
  }

  // The words a rule asks for, as they are collected.
  function RuleWords(r: Rule): seq<string> {
    ["-A", "INPUT"]
    + (if r.proto != "" && r.proto != "any" then ["-p", r.proto] else [])
    + (if r.portSpec == "" then []
       else if ',' in r.portSpec then ["-m", "multiport", "--dports", r.portSpec] else ["--dport", r.portSpec])
    + (if r.sourceCidr != "" then ["-s", r.sourceCidr] else [])
    + ["-j", Upper(r.action)]
    + ["-m", "comment", "--comment", Tagged(if r.comment == "" then "" else ": " + EscapeComment(r.comment))]
  }

  lemma PortWords(r: Rule)
    ensures Words(PortOpts(r)) ==
            if r.portSpec == "" then []
            else if ',' in r.portSpec then ["-m", "multiport", "--dports", r.portSpec] else ["--dport", r.portSpec]
  {
    if ',' in r.portSpec {
      WordsOfTwo(Opt(Match, Word("multiport")), Opt(Ports, Word(r.portSpec)));
    } else {
      WordsOf(Opt(Port, Word(r.portSpec)));
    }
  }

  lemma ProtoWords(r: Rule)
    ensures Words(ProtoOpts(r)) == if r.proto != "" && r.proto != "any" then ["-p", r.proto] else []
    ensures Words(SourceOpts(r)) == if r.sourceCidr != "" then ["-s", r.sourceCidr] else []
  {
    WordsOf(Opt(Proto, Word(r.proto)));
    WordsOf(Opt(Source, Word(r.sourceCidr)));
  }

  lemma SixStretches(a: seq<Opt>, b: seq<Opt>, c: seq<Opt>, d: seq<Opt>, e: seq<Opt>, f: seq<Opt>)
    ensures Words(a + b + c + d + e + f) == Words(a) + Words(b) + Words(c) + Words(d) + Words(e) + Words(f)
  {
    WordsJoin(a, b);
    WordsJoin(a + b, c);
    WordsJoin(a + b + c, d);
    WordsJoin(a + b + c + d, e);
    WordsJoin(a + b + c + d + e, f);
  }

  /** The line of an administrator's rule, word by word. */
  lemma RuleInWords(r: Rule)
    ensures ShowOpts(RuleOpts(r)) == Joined(RuleWords(r))
  {
    var a, j := [Opt(Append, Word("INPUT"))], [Opt(Jump, Word(Upper(r.action)))];
    var name := if r.comment == "" then "" else ": " + EscapeComment(r.comment);
    var c := CommentOpts(PREFIX + name);
    assert RuleOpts(r) == a + ProtoOpts(r) + PortOpts(r) + SourceOpts(r) + j + c by {
      assert PREFIX + "" == PREFIX;
      assert PREFIX + ": " + EscapeComment(r.comment) == PREFIX + (": " + EscapeComment(r.comment));
    }
    assert Words(a) == ["-A", "INPUT"] by { WordsOf(a[0]); }
    assert Words(j) == ["-j", Upper(r.action)] by { WordsOf(j[0]); }
    CommentWords(name);
    PortWords(r);
    ProtoWords(r);
    SixStretches(a, ProtoOpts(r), PortOpts(r), SourceOpts(r), j, c);
    assert Words(RuleOpts(r)) == RuleWords(r);
    ShownInWords(RuleOpts(r));
  }

  lemma {:induction false} EscapeKeeps(s: string)
    requires '"' !in s
    ensures EscapeComment(s) == s
  {
    if s != "" {
      EscapeKeeps(s[1..]);
      assert s == [s[0]] + s[1..];
    }
  }

  lemma Regroup(s: string, n: nat, t: string)
    requires 0 < n <= |s|
    ensures [s[0]] + (s[1..][..n - 1] + t) == s[..n] + t
  {
    assert s[..n] == [s[0]] + s[1..][..n - 1];
  }

  /** Double quotes are dropped from a comment and nothing else: up to the first one the text stays, and it goes on
      after it. */
  lemma {:induction false} EscapeExactly(s: string, n: nat)
    requires n == IndexOf(s, '"')
    ensures EscapeComment(s) == if n == |s| then s else s[..n] + EscapeComment(s[n + 1..])
    decreases |s|
  {
    if n == |s| {
      EscapeKeeps(s);
    } else if n > 0 {
      var rest := s[1..];
      EscapeExactly(rest, n - 1);
      assert rest[n..] == s[n + 1..];
      Regroup(s, n, EscapeComment(s[n + 1..]));
    }
  }

  lemma KnownWords()
    ensures Upper("accept") == "ACCEPT" && Upper("drop") == "DROP" && Upper("reject") == "REJECT"
    ensures Default("accept") == "ACCEPT" && Default("Accept") == "ACCEPT" && Default("drop") == "DROP"
  {
    assert Upper("accept") == "ACCEPT" && Upper("Accept") == "ACCEPT" && Upper("drop") == "DROP";
  }

  // ---------------------------------------------------------------- what a rule set means

  predicate Holds(key: Key, value: string, pkt: Packet) {
    if key == Iface then pkt.iface == value
    else if key == Proto then pkt.proto == value
    else if key == Port || key == Ports then PortMatches(value, pkt.dport)
    else if key == Source then pkt.from(value)
    else if key == State then value == "ESTABLISHED,RELATED" && !pkt.isNew
    else true // -A, -j, -m, --comment
  }

  predicate AllHold(ps: seq<(Key, string)>, pkt: Packet) {
    forall i | 0 <= i < |ps| :: Holds(ps[i].0, ps[i].1, pkt)
  }

  function Target(ps: seq<(Key, string)>): string {
    if ps == [] then "" else if ps[0].0 == Jump then ps[0].1 else Target(ps[1..])
  }

  predicate IsRule(line: string) { "-A " <= line }

  // The target of the first rule that matches.
  function FirstMatch(lines: seq<string>, pkt: Packet): Option<string> {
    if lines == [] then None
    else
      var ps := if IsRule(lines[0]) then ReadOpts(lines[0]) else None;
      if ps.Some? && AllHold(ps.value, pkt) then Some(Target(ps.value)) else FirstMatch(lines[1..], pkt)
  }

  function PolicyOf(lines: seq<string>): string {
    if lines == [] then ""
    else if ":INPUT " <= lines[0] then TakeWord(lines[0][7..]).0
    else PolicyOf(lines[1..])
  }

  /** First match, else the policy of the chain. */
  function Evaluate(text: string, pkt: Packet): string {
    var hit := FirstMatch(Split(text), pkt);
    if hit.Some? then hit.value else PolicyOf(Split(text))
  }

  // ---------------------------------------------------------------- what is promised

  predicate RuleMatches(r: Rule, pkt: Packet) {
    && (r.proto == "" || r.proto == "any" || r.proto == pkt.proto)
    && (r.portSpec == "" || PortMatches(r.portSpec, pkt.dport))
    && (r.sourceCidr == "" || pkt.from(r.sourceCidr))
  }

  function FirstRule(rules: seq<Rule>, pkt: Packet): Option<string> {
    if rules == [] then None
    else if RuleMatches(rules[0], pkt) then Some(Upper(rules[0].action))
    else FirstRule(rules[1..], pkt)
  }

  predicate Protects(baseline: seq<BaselinePort>, pkt: Packet) {
    exists b | b in baseline :: b.proto == pkt.proto && b.port == pkt.dport
  }

  function Verdict(incoming: string, baseline: seq<BaselinePort>, rules: seq<Rule>, pkt: Packet): string {
    if pkt.iface == "lo" || !pkt.isNew || Protects(baseline, pkt) then "ACCEPT"
    else if FirstRule(rules, pkt).Some? then FirstRule(rules, pkt).value
    else Default(incoming)
  }

  /** No field breaks a line or an argument. */
  predicate PlainPort(b: BaselinePort) {
    PlainWord(b.proto) && b.port >= 0 && '\n' !in b.name
  }

  predicate PlainRule(r: Rule) {
    && PlainWord(r.action) && (r.proto == "" || PlainWord(r.proto)) && (r.portSpec == "" || PlainWord(r.portSpec))
    && (r.sourceCidr == "" || PlainWord(r.sourceCidr)) && '\n' !in r.comment
  }

  /** The comment does not swallow its closing quote. */
  predicate LoadablePort(b: BaselinePort) {
    !Dangling(EscapeComment(b.name))
  }

  /** Nor here, and a port comes with a protocol, without which iptables takes none. */
  predicate LoadableRule(r: Rule) {
    !Dangling(EscapeComment(r.comment)) && (r.portSpec == "" || (r.proto != "" && r.proto != "any"))
  }

  predicate AdmissiblePort(b: BaselinePort) {
    PlainPort(b) && LoadablePort(b)
  }

  predicate AdmissibleRule(r: Rule) {
    PlainRule(r) && LoadableRule(r)
  }

  // ---- each rendered line means what it should

  ghost predicate Means(os: seq<Opt>, pkt: Packet, matches: bool, target: string) {
    && os != [] && os[0] == Opt(Append, Word("INPUT")) && (forall o | o in os :: Clean(o))
    && (AllHold(Pairs(os), pkt) <==> matches) && Target(Pairs(os)) == target
  }

  // A stretch of options before the target.
  ghost predicate Part(os: seq<Opt>, pkt: Packet, matches: bool) {
    && (forall o | o in os :: Clean(o) && o.key != Jump)
    && (AllHold(Pairs(os), pkt) <==> matches)
  }

  // Options that ask nothing of the packet.
  ghost predicate Neutral(os: seq<Opt>, pkt: Packet) {
    forall o | o in os :: Clean(o) && Holds(o.key, Content(o.arg), pkt)
  }

  lemma HoldsAll(os: seq<Opt>, pkt: Packet)
    ensures AllHold(Pairs(os), pkt) <==> forall o | o in os :: Holds(o.key, Content(o.arg), pkt)
  {
    var ps := Pairs(os);
    if AllHold(ps, pkt) {
      forall o | o in os ensures Holds(o.key, Content(o.arg), pkt) {
        var i :| 0 <= i < |os| && os[i] == o;
        assert Holds(ps[i].0, ps[i].1, pkt);
      }
    }
    if forall o | o in os :: Holds(o.key, Content(o.arg), pkt) {
      forall i | 0 <= i < |ps| ensures Holds(ps[i].0, ps[i].1, pkt) { assert os[i] in os; }
    }
  }

  lemma PartOne(o: Opt, pkt: Packet)
    requires Clean(o) && o.key != Jump
    ensures Part([o], pkt, Holds(o.key, Content(o.arg), pkt))
  {
    var os := [o];
    HoldsAll(os, pkt);
    assert os[0] in os;
    assert forall x | x in os :: x == o;
  }

  lemma PartJoin(a: seq<Opt>, b: seq<Opt>, pkt: Packet, m: bool, n: bool)
    requires Part(a, pkt, m) && Part(b, pkt, n)
    ensures Part(a + b, pkt, m && n)
  {
    HoldsAll(a, pkt);
    HoldsAll(b, pkt);
    HoldsAll(a + b, pkt);
    assert forall o | o in a || o in b :: o in a + b;
  }

  lemma {:induction false} TargetAfter(before: seq<Opt>, target: string, after: seq<Opt>)
    requires forall o | o in before :: o.key != Jump
    ensures Target(Pairs(before + [Opt(Jump, Word(target))] + after)) == target
  {
    var os := before + [Opt(Jump, Word(target))] + after;
    if before != [] {
      var rest := before[1..] + [Opt(Jump, Word(target))] + after;
      assert forall o | o in before[1..] :: o in before;
      TargetAfter(before[1..], target, after);
      assert Pairs(os)[1..] == Pairs(rest);
      assert Pairs(os)[0].0 == before[0].key && before[0] in before;
    }
  }

  // What comes last: a target, and whatever asks nothing of the packet.
  lemma Finish(before: seq<Opt>, target: string, after: seq<Opt>, pkt: Packet, m: bool)
    requires before != [] && before[0] == Opt(Append, Word("INPUT")) && Part(before, pkt, m)
    requires PlainWord(target) && Neutral(after, pkt)
    ensures Means(before + [Opt(Jump, Word(target))] + after, pkt, m, target)
  {
    var j := Opt(Jump, Word(target));
    var os := before + [j] + after;
    assert AllHold(Pairs(os), pkt) <==> m by {
      HoldsAll(before, pkt);
      HoldsAll(os, pkt);
      assert forall o | o in before :: o in os;
      assert forall o | o in os :: o in before || o == j || o in after;
      assert Holds(Jump, target, pkt);
    }
    assert Target(Pairs(os)) == target by { TargetAfter(before, target, after); }
  }

  lemma PlainLiterals()
    ensures PlainWord("ACCEPT") && PlainWord("INPUT") && PlainWord("state") && PlainWord("lo")
    ensures PlainWord("multiport") && PlainWord("comment")
  {
  }

  lemma StateIsPlain()
    ensures PlainWord("ESTABLISHED,RELATED")
  {
  }

  lemma PrefixesArePlain()
    ensures PlainText(PREFIX) && PlainText(PREFIX + ": ") && PlainText(PREFIX + "-baseline: ")
  {
  }

  lemma AppendIsNeutral(pkt: Packet)
    ensures Part([Opt(Append, Word("INPUT"))], pkt, true)
  {
    PlainLiterals();
    PartOne(Opt(Append, Word("INPUT")), pkt);
  }

  lemma MatchIsNeutral(name: string, pkt: Packet)
    requires PlainWord(name)
    ensures Part([Opt(Match, Word(name))], pkt, true)
  {
    PartOne(Opt(Match, Word(name)), pkt);
  }

  lemma BothNeutral(x: Opt, y: Opt, pkt: Packet)
    requires Clean(x) && Clean(y) && Holds(x.key, Content(x.arg), pkt) && Holds(y.key, Content(y.arg), pkt)
    ensures Neutral([x, y], pkt)
  {
    forall o | o in [x, y] ensures Clean(o) && Holds(o.key, Content(o.arg), pkt) { assert o == x || o == y; }
  }

  lemma CommentIsNeutral(comment: string, pkt: Packet)
    requires PlainText(comment)
    ensures Neutral(CommentOpts(comment), pkt)
  {
    PlainLiterals();
    BothNeutral(Opt(Match, Word("comment")), Opt(Comment, Text(comment)), pkt);
  }

  lemma PartTwo(a: Opt, b: Opt, pkt: Packet, m: bool)
    requires Part([a], pkt, true) && Part([b], pkt, m)
    ensures Part([a, b], pkt, m)
  {
    PartJoin([a], [b], pkt, true, m);
    assert [a, b] == [a] + [b];
  }

  lemma FinishTwo(a: Opt, b: Opt, target: string, after: seq<Opt>, pkt: Packet, m: bool)
    requires a == Opt(Append, Word("INPUT")) && Part([a], pkt, true) && Part([b], pkt, m)
    requires PlainWord(target) && Neutral(after, pkt)
    ensures Means([a, b, Opt(Jump, Word(target))] + after, pkt, m, target)
  {
    var before, j := [a, b], Opt(Jump, Word(target));
    assert [a, b, j] + after == before + [j] + after;
    assert Part(before, pkt, m) by { PartTwo(a, b, pkt, m); }
    Finish(before, target, after, pkt, m);
  }

  lemma PartThree(a: Opt, b: Opt, c: Opt, pkt: Packet, m: bool, n: bool)
    requires Part([a], pkt, true) && Part([b], pkt, m) && Part([c], pkt, n)
    ensures Part([a, b, c], pkt, m && n)
  {
    PartJoin([a], [b], pkt, true, m);
    PartJoin([a] + [b], [c], pkt, m, n);
    assert [a, b, c] == [a] + [b] + [c];
  }

  lemma FinishThree(a: Opt, b: Opt, c: Opt, target: string, after: seq<Opt>, pkt: Packet, m: bool, n: bool)
    requires a == Opt(Append, Word("INPUT")) && Part([a], pkt, true) && Part([b], pkt, m) && Part([c], pkt, n)
    requires PlainWord(target) && Neutral(after, pkt)
    ensures Means([a, b, c, Opt(Jump, Word(target))] + after, pkt, m && n, target)
  {
    var before, j := [a, b, c], Opt(Jump, Word(target));
    assert [a, b, c, j] + after == before + [j] + after;
    assert Part(before, pkt, m && n) by { PartThree(a, b, c, pkt, m, n); }
    Finish(before, target, after, pkt, m && n);
  }

  lemma PrefixedComment(p: string, s: string)
    requires PlainText(p) && '\n' !in s && !Dangling(EscapeComment(s))
    ensures PlainText(p + EscapeComment(s))
  {
    DanglingJoins(p, EscapeComment(s));
  }

  lemma UpperIsPlain(s: string)
    requires PlainWord(s)
    ensures PlainWord(Upper(s))
  {
    var u := Upper(s);
    forall i | 0 <= i < |u| ensures u[i] != ' ' && u[i] != '"' && u[i] != '\n' { assert s[i] in s; }
  }

  lemma LoopbackMeans(pkt: Packet)
    ensures Means(LOOPBACK, pkt, pkt.iface == "lo", "ACCEPT")
  {
    PlainLiterals();
    AppendIsNeutral(pkt);
    PartOne(Opt(Iface, Word("lo")), pkt);
    FinishTwo(Opt(Append, Word("INPUT")), Opt(Iface, Word("lo")), "ACCEPT", [], pkt, pkt.iface == "lo");
    assert LOOPBACK == LOOPBACK + [];
  }

  lemma StateMeans(pkt: Packet)
    ensures Part([Opt(State, Word("ESTABLISHED,RELATED"))], pkt, !pkt.isNew)
  {
    StateIsPlain();
    PartOne(Opt(State, Word("ESTABLISHED,RELATED")), pkt);
  }

  lemma EstablishedMeans(pkt: Packet)
    ensures Means(ESTABLISHED, pkt, !pkt.isNew, "ACCEPT")
  {
    var a, m, s := Opt(Append, Word("INPUT")), Opt(Match, Word("state")), Opt(State, Word("ESTABLISHED,RELATED"));
    PlainLiterals();
    AppendIsNeutral(pkt);
    MatchIsNeutral("state", pkt);
    StateMeans(pkt);
    FinishThree(a, m, s, "ACCEPT", [], pkt, true, !pkt.isNew);
    assert ESTABLISHED == [a, m, s, Opt(Jump, Word("ACCEPT"))] + [];
  }

  lemma PortOptMeans(n: int, pkt: Packet)
    requires n >= 0
    ensures Part([Opt(Port, Word(Decimal(n)))], pkt, n == pkt.dport)
  {
    DecimalPort(n, pkt.dport);
    PartOne(Opt(Port, Word(Decimal(n))), pkt);
  }

  lemma ProtoOptMeans(proto: string, pkt: Packet)
    requires PlainWord(proto)
    ensures Part([Opt(Proto, Word(proto))], pkt, proto == pkt.proto)
  {
    PartOne(Opt(Proto, Word(proto)), pkt);
  }

  lemma BaselineMeans(b: BaselinePort, pkt: Packet)
    requires AdmissiblePort(b)
    ensures Means(BaselineOpts(b), pkt, b.proto == pkt.proto && b.port == pkt.dport, "ACCEPT")
  {
    var comment := PREFIX + "-baseline: " + EscapeComment(b.name);
    PlainLiterals();
    AppendIsNeutral(pkt);
    ProtoOptMeans(b.proto, pkt);
    PortOptMeans(b.port, pkt);
    assert PlainText(comment) by { PrefixesArePlain(); PrefixedComment(PREFIX + "-baseline: ", b.name); }
    CommentIsNeutral(comment, pkt);
    FinishThree(Opt(Append, Word("INPUT")), Opt(Proto, Word(b.proto)), Opt(Port, Word(Decimal(b.port))), "ACCEPT",
                CommentOpts(comment), pkt, b.proto == pkt.proto, b.port == pkt.dport);
  }

  lemma PortsMean(r: Rule, pkt: Packet)
    requires AdmissibleRule(r)
    ensures Part(PortOpts(r), pkt, r.portSpec == "" || PortMatches(r.portSpec, pkt.dport))
  {
    if r.portSpec != "" {
      var flag := if ',' in r.portSpec then Ports else Port;
      PartOne(Opt(flag, Word(r.portSpec)), pkt);
      if ',' in r.portSpec {
        PlainLiterals();
        MatchIsNeutral("multiport", pkt);
        PartJoin([Opt(Match, Word("multiport"))], [Opt(flag, Word(r.portSpec))], pkt, true,
                 PortMatches(r.portSpec, pkt.dport));
        assert PortOpts(r) == [Opt(Match, Word("multiport"))] + [Opt(flag, Word(r.portSpec))];
      }
    }
  }

  lemma SourceMeans(r: Rule, pkt: Packet)
    requires AdmissibleRule(r)
    ensures Part(SourceOpts(r), pkt, r.sourceCidr == "" || pkt.from(r.sourceCidr))
  {
    if r.sourceCidr != "" { PartOne(Opt(Source, Word(r.sourceCidr)), pkt); }
  }

  lemma ProtoMeans(r: Rule, pkt: Packet)
    requires AdmissibleRule(r)
    ensures Part(ProtoOpts(r), pkt, r.proto == "" || r.proto == "any" || r.proto == pkt.proto)
  {
    if r.proto != "" && r.proto != "any" { ProtoOptMeans(r.proto, pkt); }
  }

  lemma RuleMeans(r: Rule, pkt: Packet)
    requires AdmissibleRule(r)
    ensures Means(RuleOpts(r), pkt, RuleMatches(r, pkt), Upper(r.action))
  {
    var a := Opt(Append, Word("INPUT"));
    var comment := if r.comment == "" then PREFIX else PREFIX + ": " + EscapeComment(r.comment);
    var before := [a] + ProtoOpts(r) + PortOpts(r) + SourceOpts(r);
    assert Part(before, pkt, RuleMatches(r, pkt)) by {
      var m := r.proto == "" || r.proto == "any" || r.proto == pkt.proto;
      var n := r.portSpec == "" || PortMatches(r.portSpec, pkt.dport);
      AppendIsNeutral(pkt);
      ProtoMeans(r, pkt);
      PortsMean(r, pkt);
      SourceMeans(r, pkt);
      PartJoin([a], ProtoOpts(r), pkt, true, m);
      PartJoin([a] + ProtoOpts(r), PortOpts(r), pkt, m, n);
      PartJoin([a] + ProtoOpts(r) + PortOpts(r), SourceOpts(r), pkt, m && n,
               r.sourceCidr == "" || pkt.from(r.sourceCidr));
    }
    assert PlainText(comment) by { PrefixesArePlain(); PrefixedComment(PREFIX + ": ", r.comment); }
    CommentIsNeutral(comment, pkt);
    UpperIsPlain(r.action);
    Finish(before, Upper(r.action), CommentOpts(comment), pkt, RuleMatches(r, pkt));
    assert RuleOpts(r) == before + [Opt(Jump, Word(Upper(r.action)))] + CommentOpts(comment);
  }

  // ---- the lines together

  lemma {:induction false} FirstMatchJoins(a: seq<string>, b: seq<string>, pkt: Packet)
    ensures FirstMatch(a + b, pkt) == if FirstMatch(a, pkt).Some? then FirstMatch(a, pkt) else FirstMatch(b, pkt)
  {
    if a == [] {
      assert a + b == b;
    } else {
      FirstMatchJoins(a[1..], b, pkt);
      assert (a + b)[1..] == a[1..] + b;
    }
  }

  lemma {:induction false} OneLine(os: seq<Opt>)
    requires forall o | o in os :: '\n' !in o.arg.s
    ensures '\n' !in ShowOpts(os)
  {
    if os != [] {
      assert os[0] in os && forall o | o in os[1..] :: o in os;
      OneLine(os[1..]);
      KeyTextIsPlain(os[0].key);
      assert '\n' !in Show(os[0].arg);
    }
  }

  lemma StartsWithAppend(os: seq<Opt>)
    requires os != [] && os[0].key == Append
    ensures IsRule(ShowOpts(os))
  {
    assert KeyText(os[0].key) + (" " + Show(os[0].arg)) == "-A " + Show(os[0].arg);
  }

  lemma LineMeans(os: seq<Opt>, pkt: Packet, m: bool, target: string)
    requires Means(os, pkt, m, target)
    ensures FirstMatch([ShowOpts(os)], pkt) == if m then Some(target) else None
    ensures '\n' !in ShowOpts(os)
  {
    StartsWithAppend(os);
    ReadOptsOf(os);
    assert forall o | o in os :: '\n' !in o.arg.s by { assert forall o | o in os :: Clean(o); }
    OneLine(os);
  }

  // The first line, and the others.
  lemma LineThenLines(line: string, rest: seq<string>, pkt: Packet)
    ensures FirstMatch([line] + rest, pkt) ==
              if FirstMatch([line], pkt).Some? then FirstMatch([line], pkt) else FirstMatch(rest, pkt)
  {
    FirstMatchJoins([line], rest, pkt);
  }

  lemma BaselineLine(b: BaselinePort, pkt: Packet)
    requires AdmissiblePort(b)
    ensures FirstMatch([ShowOpts(BaselineOpts(b))], pkt) ==
            if b.proto == pkt.proto && b.port == pkt.dport then Some("ACCEPT") else None
  {
    BaselineMeans(b, pkt);
    LineMeans(BaselineOpts(b), pkt, b.proto == pkt.proto && b.port == pkt.dport, "ACCEPT");
  }

  lemma ProtectsStep(bs: seq<BaselinePort>, line: string, texts: seq<string>, pkt: Packet)
    requires bs != []
    requires FirstMatch([line], pkt) ==
               if bs[0].proto == pkt.proto && bs[0].port == pkt.dport then Some("ACCEPT") else None
    requires FirstMatch(texts, pkt) == if Protects(bs[1..], pkt) then Some("ACCEPT") else None
    ensures FirstMatch([line] + texts, pkt) == if Protects(bs, pkt) then Some("ACCEPT") else None
  {
    assert forall x | x in bs :: x == bs[0] || x in bs[1..];
    assert bs[0] in bs && forall x | x in bs[1..] :: x in bs;
    LineThenLines(line, texts, pkt);
  }

  lemma BaselineTextsStep(bs: seq<BaselinePort>)
    requires bs != []
    ensures BaselineTexts(bs) == [ShowOpts(BaselineOpts(bs[0]))] + BaselineTexts(bs[1..])
  {
  }

  lemma {:induction false} BaselineFirst(bs: seq<BaselinePort>, pkt: Packet)
    requires forall b | b in bs :: AdmissiblePort(b)
    ensures FirstMatch(BaselineTexts(bs), pkt) == if Protects(bs, pkt) then Some("ACCEPT") else None
    decreases |bs|
  {
    if bs != [] {
      var line, texts := ShowOpts(BaselineOpts(bs[0])), BaselineTexts(bs[1..]);
      BaselineTextsStep(bs);
      assert FirstMatch([line] + texts, pkt) == if Protects(bs, pkt) then Some("ACCEPT") else None by {
        BaselineFirst(bs[1..], pkt);
        BaselineLine(bs[0], pkt);
        ProtectsStep(bs, line, texts, pkt);
      }
    }
  }

  lemma RuleLine(r: Rule, pkt: Packet)
    requires AdmissibleRule(r)
    ensures FirstMatch([ShowOpts(RuleOpts(r))], pkt) == if RuleMatches(r, pkt) then Some(Upper(r.action)) else None
  {
    RuleMeans(r, pkt);
    LineMeans(RuleOpts(r), pkt, RuleMatches(r, pkt), Upper(r.action));
  }

  lemma RuleTextsStep(rs: seq<Rule>)
    requires rs != []
    ensures RuleTexts(rs) == [ShowOpts(RuleOpts(rs[0]))] + RuleTexts(rs[1..])
  {
  }

  lemma {:induction false} RulesFirst(rs: seq<Rule>, pkt: Packet)
    requires forall r | r in rs :: AdmissibleRule(r)
    ensures FirstMatch(RuleTexts(rs), pkt) == FirstRule(rs, pkt)
    decreases |rs|
  {
    if rs != [] {
      var line, texts := ShowOpts(RuleOpts(rs[0])), RuleTexts(rs[1..]);
      RuleTextsStep(rs);
      assert FirstMatch([line] + texts, pkt) == FirstRule(rs, pkt) by {
        RulesFirst(rs[1..], pkt);
        RuleLine(rs[0], pkt);
        LineThenLines(line, texts, pkt);
      }
    }
  }

  function BaselineComment(b: BaselinePort): string {
    PREFIX + "-baseline: " + EscapeComment(b.name)
  }

  function RuleComment(r: Rule): string {
    if r.comment == "" then PREFIX else PREFIX + ": " + EscapeComment(r.comment)
  }

  lemma BaselineIsLine(b: BaselinePort)
    requires PlainPort(b)
    ensures '\n' !in ShowOpts(BaselineOpts(b))
  {
    var os := BaselineOpts(b);
    assert '\n' !in BaselineComment(b) by { PrefixesArePlain(); }
    PlainLiterals();
    DecimalPort(b.port, 0);
    forall o | o in os ensures '\n' !in o.arg.s {
      assert o in os[..4] || o in CommentOpts(BaselineComment(b));
    }
    OneLine(os);
  }

  lemma RuleIsLine(r: Rule)
    requires PlainRule(r)
    ensures '\n' !in ShowOpts(RuleOpts(r))
  {
    var os := RuleOpts(r);
    assert '\n' !in RuleComment(r) by { PrefixesArePlain(); }
    PlainLiterals();
    UpperIsPlain(r.action);
    forall o | o in os ensures '\n' !in o.arg.s {
      assert o == Opt(Append, Word("INPUT")) || o in ProtoOpts(r) || o in PortOpts(r) || o in SourceOpts(r)
             || o == Opt(Jump, Word(Upper(r.action))) || o in CommentOpts(RuleComment(r));
    }
    OneLine(os);
  }

  lemma TextsAreLines(bs: seq<BaselinePort>, rs: seq<Rule>)
    requires (forall b | b in bs :: PlainPort(b)) && forall r | r in rs :: PlainRule(r)
    ensures forall l | l in BaselineTexts(bs) || l in RuleTexts(rs) :: '\n' !in l
  {
    forall l | l in BaselineTexts(bs) ensures '\n' !in l {
      var i :| 0 <= i < |bs| && BaselineTexts(bs)[i] == l;
      BaselineIsLine(bs[i]);
    }
    forall l | l in RuleTexts(rs) ensures '\n' !in l {
      var i :| 0 <= i < |rs| && RuleTexts(rs)[i] == l;
      RuleIsLine(rs[i]);
    }
  }

  lemma {:induction false} NoRules(lines: seq<string>, pkt: Packet)
    requires forall i | 0 <= i < |lines| :: lines[i] == "" || lines[i][0] != '-'
    ensures FirstMatch(lines, pkt) == None
  {
    if lines != [] {
      assert !IsRule(lines[0]);
      NoRules(lines[1..], pkt);
    }
  }

  lemma HeaderFirst(incoming: string, pkt: Packet)
    ensures FirstMatch(Header(incoming), pkt) == None
    ensures forall l | l in Header(incoming) :: '\n' !in l
  {
    var h := Header(incoming);
    assert h[0][0] == '*' && h[1][0] == ':' && h[2][0] == ':' && h[3][0] == ':';
    NoRules(h, pkt);
    assert '\n' !in h[0] && '\n' !in h[2] && '\n' !in h[3];
    assert '\n' !in h[1] by { assert '\n' !in Default(incoming); assert '\n' !in " [0:0]"; }
    assert forall l | l in h :: l == h[0] || l == h[1] || l == h[2] || l == h[3];
  }

  lemma PolicyIsRead(policy: string, lines: seq<string>)
    requires |lines| >= 2 && ' ' !in policy && lines[0] == "*filter" && lines[1] == ":INPUT " + policy + " [0:0]"
    ensures PolicyOf(lines) == policy
  {
    var l := lines[1];
    assert lines[0][0] == '*' && lines[1..][0] == l;
    assert l[7..] == policy + " [0:0]";
    TakeWordOf(policy, " [0:0]");
  }

  /** The file is a whole filter table: it begins with its name and the policies, which leave forwarded and outgoing
      traffic alone, and is committed. */
  lemma WholeTable(incoming: string, baseline: seq<BaselinePort>, rules: seq<Rule>)
    ensures var lines := FileLines(incoming, baseline, rules);
            && |lines| == 7 + |baseline| + |rules|
            && lines[0] == "*filter" && lines[1] == ":INPUT " + Default(incoming) + " [0:0]"
            && lines[2] == ":FORWARD ACCEPT [0:0]" && lines[3] == ":OUTPUT ACCEPT [0:0]"
            && lines[|lines| - 1] == "COMMIT"
  {
    var lines := FileLines(incoming, baseline, rules);
    assert lines[..4] == Header(incoming);
  }

  lemma OpeningFirst(pkt: Packet)
    ensures FirstMatch([ShowOpts(LOOPBACK), ShowOpts(ESTABLISHED)], pkt) ==
            if pkt.iface == "lo" || !pkt.isNew then Some("ACCEPT") else None
    ensures '\n' !in ShowOpts(LOOPBACK) && '\n' !in ShowOpts(ESTABLISHED)
  {
    var lo, est := ShowOpts(LOOPBACK), ShowOpts(ESTABLISHED);
    assert FirstMatch([lo], pkt) == (if pkt.iface == "lo" then Some("ACCEPT") else None) && '\n' !in lo by {
      LoopbackMeans(pkt);
      LineMeans(LOOPBACK, pkt, pkt.iface == "lo", "ACCEPT");
    }
    assert FirstMatch([est], pkt) == (if !pkt.isNew then Some("ACCEPT") else None) && '\n' !in est by {
      EstablishedMeans(pkt);
      LineMeans(ESTABLISHED, pkt, !pkt.isNew, "ACCEPT");
    }
    LineThenLines(lo, [est], pkt);
    assert [lo, est] == [lo] + [est];
  }

  // Five stretches of lines, the first and the last without a rule.
  lemma StretchesDecide(head: seq<string>, opening: seq<string>, bs: seq<string>, rs: seq<string>, tail: seq<string>,
                        pkt: Packet)
    requires FirstMatch(head, pkt) == None && FirstMatch(tail, pkt) == None
    ensures FirstMatch(head + opening + bs + rs + tail, pkt) ==
            if FirstMatch(opening, pkt).Some? then FirstMatch(opening, pkt)
            else if FirstMatch(bs, pkt).Some? then FirstMatch(bs, pkt) else FirstMatch(rs, pkt)
  {
    FirstMatchJoins(head, opening, pkt);
    FirstMatchJoins(head + opening, bs, pkt);
    FirstMatchJoins(head + opening + bs, rs, pkt);
    FirstMatchJoins(head + opening + bs + rs, tail, pkt);
  }

  lemma StretchesSplit(head: seq<string>, opening: seq<string>, bs: seq<string>, rs: seq<string>, last: string)
    requires forall l | l in head || l in opening || l in bs || l in rs || l == last :: '\n' !in l
    ensures Split(Lines(head + opening + bs + rs + [last])) == head + opening + bs + rs + [last, ""]
  {
    var lines := head + opening + bs + rs + [last];
    assert forall l | l in lines :: l in head || l in opening || l in bs || l in rs || l == last;
    SplitOfLines(lines);
    assert lines + [""] == head + opening + bs + rs + [last, ""];
  }

  lemma OpeningIsLines()
    ensures forall l | l in [ShowOpts(LOOPBACK), ShowOpts(ESTABLISHED)] || l == "COMMIT" :: '\n' !in l
  {
    OpeningFirst(Packet("", false, "", 0, x => false));
    assert '\n' !in "COMMIT";
  }

  lemma FileSplits(incoming: string, baseline: seq<BaselinePort>, rules: seq<Rule>)
    requires forall b | b in baseline :: PlainPort(b)
    requires forall r | r in rules :: PlainRule(r)
    ensures Split(Lines(FileLines(incoming, baseline, rules))) == Header(incoming)
            + [ShowOpts(LOOPBACK), ShowOpts(ESTABLISHED)] + BaselineTexts(baseline) + RuleTexts(rules) + ["COMMIT", ""]
  {
    var pkt := Packet("", false, "", 0, x => false);
    HeaderFirst(incoming, pkt);
    OpeningIsLines();
    TextsAreLines(baseline, rules);
    StretchesSplit(Header(incoming), [ShowOpts(LOOPBACK), ShowOpts(ESTABLISHED)], BaselineTexts(baseline),
                   RuleTexts(rules), "COMMIT");
  }

  lemma FileFirst(incoming: string, baseline: seq<BaselinePort>, rules: seq<Rule>, pkt: Packet)
    requires forall b | b in baseline :: AdmissiblePort(b)
    requires forall r | r in rules :: AdmissibleRule(r)
    ensures FirstMatch(Split(Lines(FileLines(incoming, baseline, rules))), pkt) ==
            if pkt.iface == "lo" || !pkt.isNew || Protects(baseline, pkt) then Some("ACCEPT") else FirstRule(rules, pkt)
  {
    var head, opening := Header(incoming), [ShowOpts(LOOPBACK), ShowOpts(ESTABLISHED)];
    var bs, rs, tail := BaselineTexts(baseline), RuleTexts(rules), ["COMMIT", ""];
    FileSplits(incoming, baseline, rules);
    assert FirstMatch(head, pkt) == None by { HeaderFirst(incoming, pkt); }
    assert FirstMatch(tail, pkt) == None by { NoRules(tail, pkt); }
    assert FirstMatch(bs, pkt) == if Protects(baseline, pkt) then Some("ACCEPT") else None by {
      BaselineFirst(baseline, pkt);
    }
    assert FirstMatch(rs, pkt) == FirstRule(rules, pkt) by { RulesFirst(rules, pkt); }
    OpeningFirst(pkt);
    StretchesDecide(head, opening, bs, rs, tail, pkt);
  }

  lemma FilePolicy(incoming: string, baseline: seq<BaselinePort>, rules: seq<Rule>)
    requires forall b | b in baseline :: PlainPort(b)
    requires forall r | r in rules :: PlainRule(r)
    ensures PolicyOf(Split(Lines(FileLines(incoming, baseline, rules)))) == Default(incoming)
  {
    var head, opening := Header(incoming), [ShowOpts(LOOPBACK), ShowOpts(ESTABLISHED)];
    var bs, rs, tail := BaselineTexts(baseline), RuleTexts(rules), ["COMMIT", ""];
    FileSplits(incoming, baseline, rules);
    var all := head + opening + bs + rs + tail;
    assert all[0] == head[0] && all[1] == head[1];
    PolicyIsRead(Default(incoming), all);
  }

  /**
    What iptables-restore reads from the file decides every packet as promised: loopback and established traffic and
    the protected ports are accepted whatever the rules say, then the first administrator's rule that matches
    decides, then the policy.
  */
  lemma FileDecides(incoming: string, baseline: seq<BaselinePort>, rules: seq<Rule>, pkt: Packet)
    requires forall b | b in baseline :: AdmissiblePort(b)
    requires forall r | r in rules :: AdmissibleRule(r)
    ensures Evaluate(Lines(FileLines(incoming, baseline, rules)), pkt) == Verdict(incoming, baseline, rules, pkt)
  {
    FileFirst(incoming, baseline, rules, pkt);
    FilePolicy(incoming, baseline, rules);
  }
}
