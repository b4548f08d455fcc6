/**
  Which rendered firewall files iptables-restore takes at all (internal/firewall/render.go): a file is refused whole if
  one of its rules cannot be read or names a port before a protocol. Its limits on the length of a comment and on the
  number of ports in one rule are not modelled.
*/
module FirewallLoads {
  import opened Prelude
  import opened TextLines
  import opened Firewall

  // A port option needs a protocol option before it.
  predicate Accepts(ps: seq<(Key, string)>, proto: bool) {
    ps == [] ||
    ((ps[0].0 == Port || ps[0].0 == Ports ==> proto) && Accepts(ps[1..], proto || ps[0].0 == Proto))
  }

  predicate LineLoads(line: string) {
    IsRule(line) ==> ReadOpts(line).Some? && Accepts(ReadOpts(line).value, false)
  }

  /** iptables-restore takes the file. */
  predicate Loads(text: string) {
    forall l | l in Split(text) :: LineLoads(l)
  }

  // ---------------------------------------------------------------- reading

  lemma {:induction false} TakeQuotedFails(s: string)
    requires '"' !in s && Unescape(s).None?
    ensures TakeQuoted(s + "\"") == None
    decreases |s|
  {
    var t := s + "\"";
    assert t[0] == s[0] && s[0] in s;
    if |s| == 1 {
      assert t[2..] == "";
    } else {
      var n := if s[0] == '\\' then 2 else 1;
      assert t[n..] == s[n..] + "\"";
      TakeQuotedFails(s[n..]);
    }
  }

  lemma ReadComment(s: string)
    requires '"' !in s && Dangling(s)
    ensures ReadOpts(ShowOpts([Opt(Comment, Text(s))])) == None
  {
    var arg := Show(Text(s));
    var t := KeyText(Comment) + (" " + arg);
    assert ShowOpts([Opt(Comment, Text(s))]) == t by { assert arg + "" == arg; }
    assert TakeWord(t) == (KeyText(Comment), " " + arg) by {
      KeyTextIsPlain(Comment);
      TakeWordOf(KeyText(Comment), " " + arg);
    }
    assert (" " + arg)[1..] == arg && arg[1..] == s + "\"";
    UnescapeFails(s);
    TakeQuotedFails(s);
  }

  /** A comment that swallows its closing quote makes the line unreadable. */
  lemma {:induction false} ReadFails(os: seq<Opt>, s: string)
    requires (forall o | o in os :: Clean(o)) && '"' !in s && Dangling(s)
    ensures ReadOpts(ShowOpts(os + [Opt(Comment, Text(s))])) == None
    decreases |os|
  {
    var last := [Opt(Comment, Text(s))];
    if os == [] {
      assert os + last == last;
      ReadComment(s);
    } else {
      var rest := os[1..] + last;
      assert (os + last)[1..] == rest && os[0] in os && forall o | o in os[1..] :: o in os;
      ReadFails(os[1..], s);
      assert (" " + ShowOpts(rest))[1..] == ShowOpts(rest);
      ReadOneOpt(os[0], " " + ShowOpts(rest));
    }
  }

  // ---------------------------------------------------------------- ports and protocols

  predicate NoPorts(os: seq<Opt>) {
    forall o | o in os :: o.key != Port && o.key != Ports
  }

  lemma {:induction false} AcceptsJoin(a: seq<Opt>, b: seq<Opt>, proto: bool)
    requires NoPorts(a)
    ensures Accepts(Pairs(a + b), proto) <==> Accepts(Pairs(b), proto || exists o | o in a :: o.key == Proto)
    decreases |a|
  {
    if a == [] {
      assert a + b == b;
    } else {
      assert a[0] in a && forall o | o in a[1..] :: o in a;
      assert forall o | o in a :: o == a[0] || o in a[1..];
      AcceptsJoin(a[1..], b, proto || a[0].key == Proto);
      assert (a + b)[1..] == a[1..] + b;
      assert Pairs(a + b)[1..] == Pairs(a[1..] + b) && Pairs(a + b)[0].0 == a[0].key;
    }
  }

  lemma {:induction false} AcceptsNoPorts(os: seq<Opt>, proto: bool)
    requires NoPorts(os)
    ensures Accepts(Pairs(os), proto)
    decreases |os|
  {
    if os != [] {
      assert os[0] in os && forall o | o in os[1..] :: o in os;
      AcceptsNoPorts(os[1..], proto || os[0].key == Proto);
      assert Pairs(os)[1..] == Pairs(os[1..]);
    }
  }

  lemma AcceptsPort(o: Opt, after: seq<Opt>, proto: bool)
    requires (o.key == Port || o.key == Ports) && NoPorts(after)
    ensures Accepts(Pairs([o] + after), proto) <==> proto
  {
    assert Pairs([o] + after)[1..] == Pairs(after) && Pairs([o] + after)[0].0 == o.key;
    AcceptsNoPorts(after, proto);
  }

  function Ending(r: Rule): seq<Opt> {
    SourceOpts(r) + [Opt(Jump, Word(Upper(r.action)))] + CommentOpts(RuleComment(r))
  }

  lemma FrontProto(r: Rule)
    ensures var front := [Opt(Append, Word("INPUT"))] + ProtoOpts(r);
            NoPorts(front) && ((exists o | o in front :: o.key == Proto) <==> r.proto != "" && r.proto != "any")
  {
    if r.proto != "" && r.proto != "any" {
      assert Opt(Proto, Word(r.proto)) in [Opt(Append, Word("INPUT"))] + ProtoOpts(r);
    }
  }

  lemma PortsAccept(r: Rule, ending: seq<Opt>, proto: bool)
    requires NoPorts(ending)
    ensures Accepts(Pairs(PortOpts(r) + ending), proto) <==> r.portSpec == "" || proto
  {
    if r.portSpec == "" {
      assert PortOpts(r) + ending == ending;
      AcceptsNoPorts(ending, proto);
    } else if ',' in r.portSpec {
      var m, ports := Opt(Match, Word("multiport")), Opt(Ports, Word(r.portSpec));
      assert PortOpts(r) + ending == [m] + ([ports] + ending);
      AcceptsJoin([m], [ports] + ending, proto);
      AcceptsPort(ports, ending, proto);
    } else {
      AcceptsPort(Opt(Port, Word(r.portSpec)), ending, proto);
    }
  }

  lemma RuleInParts(r: Rule)
    ensures RuleOpts(r) == [Opt(Append, Word("INPUT"))] + ProtoOpts(r) + (PortOpts(r) + Ending(r))
  {
  }

  lemma EndingHasNoPorts(r: Rule)
    ensures NoPorts(Ending(r))
  {
  }

  lemma RuleAccepts(r: Rule)
    ensures Accepts(Pairs(RuleOpts(r)), false) <==> r.portSpec == "" || (r.proto != "" && r.proto != "any")
  {
    var front, ending := [Opt(Append, Word("INPUT"))] + ProtoOpts(r), Ending(r);
    EndingHasNoPorts(r);
    RuleInParts(r);
    FrontProto(r);
    AcceptsJoin(front, PortOpts(r) + ending, false);
    PortsAccept(r, ending, r.proto != "" && r.proto != "any");
  }

  // ---------------------------------------------------------------- one line

  lemma CommentDangles(p: string, s: string)
    requires PlainText(p)
    ensures Dangling(p + EscapeComment(s)) <==> Dangling(EscapeComment(s))
  {
    DanglingJoins(p, EscapeComment(s));
  }

  lemma RuleComments(r: Rule)
    ensures Dangling(RuleComment(r)) <==> Dangling(EscapeComment(r.comment))
    ensures '"' !in RuleComment(r)
  {
    PrefixesArePlain();
    CommentDangles(PREFIX + ": ", r.comment);
  }

  // All of a rule's options but the comment.
  function BeforeComment(r: Rule): seq<Opt> {
    [Opt(Append, Word("INPUT"))] + ProtoOpts(r) + PortOpts(r) + SourceOpts(r)
    + [Opt(Jump, Word(Upper(r.action))), Opt(Match, Word("comment"))]
  }

  lemma BeforeIsClean(r: Rule)
    requires PlainRule(r)
    ensures forall o | o in BeforeComment(r) :: Clean(o)
  {
    PlainLiterals();
    UpperIsPlain(r.action);
    forall o | o in BeforeComment(r) ensures Clean(o) {
      assert o == Opt(Append, Word("INPUT")) || o in ProtoOpts(r) || o in PortOpts(r) || o in SourceOpts(r)
             || o == Opt(Jump, Word(Upper(r.action))) || o == Opt(Match, Word("comment"));
    }
  }

  lemma ReadsExactly(before: seq<Opt>, comment: string)
    requires (forall o | o in before :: Clean(o)) && '"' !in comment && '\n' !in comment
    ensures var os := before + [Opt(Comment, Text(comment))];
            ReadOpts(ShowOpts(os)) == if Dangling(comment) then None else Some(Pairs(os))
  {
    var last := Opt(Comment, Text(comment));
    if Dangling(comment) {
      ReadFails(before, comment);
    } else {
      assert forall o | o in before + [last] :: o in before || o == last;
      ReadOptsOf(before + [last]);
    }
  }

  lemma RuleLoads(r: Rule)
    requires PlainRule(r)
    ensures LineLoads(ShowOpts(RuleOpts(r))) <==> LoadableRule(r)
  {
    StartsWithAppend(RuleOpts(r));
    assert RuleOpts(r) == BeforeComment(r) + [Opt(Comment, Text(RuleComment(r)))];
    assert '\n' !in RuleComment(r) by { PrefixesArePlain(); }
    RuleComments(r);
    BeforeIsClean(r);
    ReadsExactly(BeforeComment(r), RuleComment(r));
    RuleAccepts(r);
  }

  lemma BaselineComments(b: BaselinePort)
    requires PlainPort(b)
    ensures '\n' !in BaselineComment(b) && '"' !in BaselineComment(b)
    ensures Dangling(BaselineComment(b)) <==> Dangling(EscapeComment(b.name))
  {
    PrefixesArePlain();
    CommentDangles(PREFIX + "-baseline: ", b.name);
  }

  function BeforeBaseline(b: BaselinePort): seq<Opt> {
    [Opt(Append, Word("INPUT")), Opt(Proto, Word(b.proto)), Opt(Port, Word(Decimal(b.port))), Opt(Jump, Word("ACCEPT")),
     Opt(Match, Word("comment"))]
  }

  lemma BaselineAccepts(b: BaselinePort)
    ensures Accepts(Pairs(BaselineOpts(b)), false)
  {
    var a, p, d := Opt(Append, Word("INPUT")), Opt(Proto, Word(b.proto)), Opt(Port, Word(Decimal(b.port)));
    var rest := [Opt(Jump, Word("ACCEPT"))] + CommentOpts(BaselineComment(b));
    assert BaselineOpts(b) == [a, p] + ([d] + rest);
    assert p in [a, p];
    AcceptsJoin([a, p], [d] + rest, false);
    AcceptsPort(d, rest, true);
  }

  lemma BaselineLoads(b: BaselinePort)
    requires PlainPort(b)
    ensures LineLoads(ShowOpts(BaselineOpts(b))) <==> LoadablePort(b)
  {
    assert BaselineOpts(b) == BeforeBaseline(b) + [Opt(Comment, Text(BaselineComment(b)))];
    assert forall o | o in BeforeBaseline(b) :: Clean(o) by {
      PlainLiterals();
      DecimalPort(b.port, 0);
    }
    StartsWithAppend(BaselineOpts(b));
    BaselineComments(b);
    ReadsExactly(BeforeBaseline(b), BaselineComment(b));
    BaselineAccepts(b);
  }

  // ---------------------------------------------------------------- the file

  lemma CleanLoads(os: seq<Opt>)
    requires os != [] && (forall o | o in os :: Clean(o)) && NoPorts(os)
    ensures LineLoads(ShowOpts(os))
  {
    ReadOptsOf(os);
    AcceptsNoPorts(os, false);
  }

  lemma LoopbackLoads(pkt: Packet)
    ensures LineLoads(ShowOpts(LOOPBACK))
  {
    LoopbackMeans(pkt);
    CleanLoads(LOOPBACK);
  }

  lemma EstablishedLoads(pkt: Packet)
    ensures LineLoads(ShowOpts(ESTABLISHED))
  {
    EstablishedMeans(pkt);
    CleanLoads(ESTABLISHED);
  }

  lemma OpeningLoads()
    ensures LineLoads(ShowOpts(LOOPBACK)) && LineLoads(ShowOpts(ESTABLISHED))
  {
    var pkt := Packet("", false, "", 0, x => false);
    LoopbackLoads(pkt);
    EstablishedLoads(pkt);
  }

  lemma HeaderLoads(incoming: string)
    ensures forall l | l in Header(incoming) || l == "COMMIT" || l == "" :: LineLoads(l)
  {
    var h := Header(incoming);
    assert h[0][0] == '*' && h[1][0] == ':' && h[2][0] == ':' && h[3][0] == ':';
    assert forall l | l in h :: l == h[0] || l == h[1] || l == h[2] || l == h[3];
    assert "COMMIT"[0] == 'C';
  }

  lemma TextsLoad(bs: seq<BaselinePort>, rs: seq<Rule>)
    requires (forall b | b in bs :: PlainPort(b)) && forall r | r in rs :: PlainRule(r)
    ensures (forall l | l in BaselineTexts(bs) :: LineLoads(l)) <==> forall b | b in bs :: LoadablePort(b)
    ensures (forall l | l in RuleTexts(rs) :: LineLoads(l)) <==> forall r | r in rs :: LoadableRule(r)
  {
    var xs, ys := BaselineTexts(bs), RuleTexts(rs);
    forall i | 0 <= i < |bs| ensures LineLoads(xs[i]) <==> LoadablePort(bs[i]) { BaselineLoads(bs[i]); }
    forall i | 0 <= i < |rs| ensures LineLoads(ys[i]) <==> LoadableRule(rs[i]) { RuleLoads(rs[i]); }
    assert (forall l | l in xs :: LineLoads(l)) <==> forall i | 0 <= i < |xs| :: LineLoads(xs[i]);
    assert (forall l | l in ys :: LineLoads(l)) <==> forall i | 0 <= i < |ys| :: LineLoads(ys[i]);
    assert (forall b | b in bs :: LoadablePort(b)) <==> forall i | 0 <= i < |bs| :: LoadablePort(bs[i]);
    assert (forall r | r in rs :: LoadableRule(r)) <==> forall i | 0 <= i < |rs| :: LoadableRule(rs[i]);
  }

  lemma StretchesLoad(head: seq<string>, opening: seq<string>, bs: seq<string>, rs: seq<string>, tail: seq<string>)
    requires forall l | l in head || l in opening || l in tail :: LineLoads(l)
    ensures (forall l | l in head + opening + bs + rs + tail :: LineLoads(l)) <==>
            (forall l | l in bs :: LineLoads(l)) && forall l | l in rs :: LineLoads(l)
  {
    var all := head + opening + bs + rs + tail;
    assert forall l :: l in all <==> l in head || l in opening || l in bs || l in rs || l in tail;
  }

  /** For fields that break no line and no argument: iptables-restore, as modelled here, takes the file exactly if no
      comment ends in an odd number of backslashes and no rule names a port without a protocol. */
  lemma LoadsExactly(incoming: string, baseline: seq<BaselinePort>, rules: seq<Rule>)
    requires (forall b | b in baseline :: PlainPort(b)) && forall r | r in rules :: PlainRule(r)
    ensures Loads(Lines(FileLines(incoming, baseline, rules))) <==>
            (forall b | b in baseline :: LoadablePort(b)) && forall r | r in rules :: LoadableRule(r)
  {
    var opening := [ShowOpts(LOOPBACK), ShowOpts(ESTABLISHED)];
    FileSplits(incoming, baseline, rules);
    HeaderLoads(incoming);
    assert forall l | l in opening :: LineLoads(l) by { OpeningLoads(); }
    assert forall l | l in ["COMMIT", ""] :: l == "COMMIT" || l == "";
    TextsLoad(baseline, rules);
    StretchesLoad(Header(incoming), opening, BaselineTexts(baseline), RuleTexts(rules), ["COMMIT", ""]);
  }

  /** Every file that iptables-restore takes decides every packet as promised. */
  lemma LoadedDecides(incoming: string, baseline: seq<BaselinePort>, rules: seq<Rule>, pkt: Packet)
    requires (forall b | b in baseline :: PlainPort(b)) && forall r | r in rules :: PlainRule(r)
    requires Loads(Lines(FileLines(incoming, baseline, rules)))
    ensures Evaluate(Lines(FileLines(incoming, baseline, rules)), pkt) == Verdict(incoming, baseline, rules, pkt)
  {
    LoadsExactly(incoming, baseline, rules);
    FileDecides(incoming, baseline, rules, pkt);
  }
}
