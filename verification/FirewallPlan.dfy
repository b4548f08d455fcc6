/**
  The firewall of one server (internal/firewall): which ports are protected, the rendered file - its baseline in an
  order of its own, whatever order the caller assembled - and the preview of what an apply would change.
*/
module FirewallPlan {
  import opened Prelude
  import opened TextLines
  import opened Firewall
  import opened FirewallLoads

  // ---------------------------------------------------------------- the order of the baseline

  predicate PortLess(b: BaselinePort, c: BaselinePort) {
    if b.proto != c.proto then TextLess(b.proto, c.proto) else b.port < c.port
  }

  predicate SameKey(b: BaselinePort, c: BaselinePort) {
    b.proto == c.proto && b.port == c.port
  }

  ghost predicate Sorted(s: seq<BaselinePort>) {
    forall i, j | 0 <= i < j < |s| :: !PortLess(s[j], s[i])
  }

  // A result of sort.Slice: it is not stable, so any of these.
  ghost predicate Arranges(s: seq<BaselinePort>, baseline: seq<BaselinePort>) {
    Sorted(s) && multiset(s) == multiset(baseline)
  }

  ghost predicate KeysIdentify(s: seq<BaselinePort>) {
    forall b, c | b in s && c in s && SameKey(b, c) :: b == c
  }

  /** Sorted: by protocol, then by port, both upwards. */
  lemma SortedExactly(s: seq<BaselinePort>, i: nat, j: nat)
    requires Sorted(s) && i < j < |s|
    ensures s[i].proto == s[j].proto ==> s[i].port <= s[j].port
    ensures s[i].proto != s[j].proto ==> TextLess(s[i].proto, s[j].proto)
  {
    assert !PortLess(s[j], s[i]);
    TextLessTotal(s[i].proto, s[j].proto);
  }

  lemma PortOrder(b: BaselinePort, c: BaselinePort, d: BaselinePort)
    ensures SameKey(b, c) || PortLess(b, c) || PortLess(c, b)
    ensures PortLess(b, c) && !PortLess(d, c) ==> PortLess(b, d)
    ensures !(PortLess(b, c) && PortLess(c, b))
  {
    TextLessTotal(b.proto, c.proto);
    TextLessTotal(c.proto, d.proto);
    if TextLess(b.proto, c.proto) && TextLess(c.proto, d.proto) { TextLessTransitive(b.proto, c.proto, d.proto); }
  }

  function Insert(b: BaselinePort, s: seq<BaselinePort>): (r: seq<BaselinePort>)
    ensures multiset(r) == multiset([b] + s)
  {
    if s == [] then [b]
    else if !PortLess(s[0], b) then [b] + s
    else
      var r := [s[0]] + Insert(b, s[1..]);
      assert multiset(r) == multiset([b] + s) by {
        assert multiset(r) == multiset([s[0]]) + multiset(Insert(b, s[1..]));
        assert multiset([b] + s[1..]) == multiset([b]) + multiset(s[1..]);
        assert s == [s[0]] + s[1..];
        assert multiset([b] + s) == multiset([b]) + multiset(s);
      }
      r
  }

  lemma {:induction false} InsertSorts(b: BaselinePort, s: seq<BaselinePort>)
    requires Sorted(s)
    ensures Sorted(Insert(b, s))
  {
    var r := Insert(b, s);
    if s != [] {
      if !PortLess(s[0], b) {
        forall j | 0 <= j < |s| ensures !PortLess(s[j], b) {
          PortOrder(s[j], b, s[0]);
        }
      } else {
        var rest := Insert(b, s[1..]);
        InsertSorts(b, s[1..]);
        forall j | 0 <= j < |rest| ensures !PortLess(rest[j], s[0]) {
          assert rest[j] in multiset([b] + s[1..]);
          PortOrder(b, s[0], s[0]);
          assert rest[j] == b || rest[j] in s[1..];
        }
      }
    }
  }

  function Sort(s: seq<BaselinePort>): (r: seq<BaselinePort>)
    ensures multiset(r) == multiset(s)
  {
    if s == [] then []
    else
      assert s == [s[0]] + s[1..];
      assert multiset([s[0]] + Sort(s[1..])) == multiset([s[0]]) + multiset(Sort(s[1..]));
      Insert(s[0], Sort(s[1..]))
  }

  lemma {:induction false} SortArranges(s: seq<BaselinePort>)
    ensures Arranges(Sort(s), s)
  {
    if s != [] {
      SortArranges(s[1..]);
      InsertSorts(s[0], Sort(s[1..]));
    }
  }

  // The two heads cannot be put apart.
  lemma HeadsShareKey(s: seq<BaselinePort>, t: seq<BaselinePort>)
    requires Sorted(s) && Sorted(t) && multiset(s) == multiset(t) && s != [] && t != []
    ensures s[0] in t && t[0] in s && SameKey(s[0], t[0])
  {
    assert s[0] in multiset(t) && t[0] in multiset(s);
    PortOrder(s[0], t[0], t[0]);
    PortOrder(s[0], s[0], s[0]);
    PortOrder(t[0], t[0], t[0]);
  }

  /** One arrangement, when a protocol and a port name one entry. */
  lemma {:induction false} ArrangementIsUnique(s: seq<BaselinePort>, t: seq<BaselinePort>)
    requires Sorted(s) && Sorted(t) && multiset(s) == multiset(t) && KeysIdentify(s)
    ensures s == t
    decreases |s|
  {
    assert |s| == |multiset(s)| && |t| == |multiset(t)|;
    if s != [] {
      assert s[0] == t[0] by { HeadsShareKey(s, t); }
      var x, y := s[1..], t[1..];
      assert multiset(x) == multiset(y) by {
        assert s == [s[0]] + x && t == [t[0]] + y;
        assert multiset(x) == multiset(s) - multiset([s[0]]) && multiset(y) == multiset(t) - multiset([t[0]]);
      }
      assert KeysIdentify(x) by { assert forall b | b in x :: b in s; }
      ArrangementIsUnique(x, y);
      assert s == [s[0]] + x && t == [t[0]] + y;
    }
  }

  lemma SwapArranges(s: seq<BaselinePort>, i: nat, j: nat)
    requires Sorted(s) && i < j < |s| && SameKey(s[i], s[j])
    ensures Arranges(s[i := s[j]][j := s[i]], s)
  {
    var t := s[i := s[j]][j := s[i]];
    forall k | 0 <= k < |s| ensures SameKey(t[k], s[k]) { }
    forall k, l | 0 <= k < l < |t| ensures !PortLess(t[l], t[k]) {
      assert SameKey(t[k], s[k]) && SameKey(t[l], s[l]) && !PortLess(s[l], s[k]);
    }
  }

  lemma TwoArrangements(baseline: seq<BaselinePort>, b: BaselinePort, c: BaselinePort)
    returns (s: seq<BaselinePort>, t: seq<BaselinePort>)
    requires b in baseline && c in baseline && SameKey(b, c) && b != c
    ensures Arranges(s, baseline) && Arranges(t, baseline) && s != t
  {
    s := Sort(baseline);
    SortArranges(baseline);
    assert b in multiset(s) && c in multiset(s);
    var i :| 0 <= i < |s| && s[i] == b;
    var j :| 0 <= j < |s| && s[j] == c;
    var lo, hi := if i < j then i else j, if i < j then j else i;
    SwapArranges(s, lo, hi);
    t := s[lo := s[hi]][hi := s[lo]];
    assert t[lo] != s[lo];
  }

  /** The order the caller assembled shows in the file only if two entries share a protocol and a port. */
  lemma OrderIsImmaterialExactly(baseline: seq<BaselinePort>)
    ensures KeysIdentify(baseline) <==> forall s, t | Arranges(s, baseline) && Arranges(t, baseline) :: s == t
  {
    if KeysIdentify(baseline) {
      forall s, t | Arranges(s, baseline) && Arranges(t, baseline) ensures s == t {
        assert KeysIdentify(s) by { assert forall b | b in s :: b in multiset(baseline); }
        ArrangementIsUnique(s, t);
      }
    } else {
      var b, c :| b in baseline && c in baseline && SameKey(b, c) && b != c;
      var s, t := TwoArrangements(baseline, b, c);
    }
  }

  // ---------------------------------------------------------------- the file

  lemma {:induction false} LinesAppend(lines: seq<string>, l: string)
    ensures Lines(lines + [l]) == Lines(lines) + l + "\n"
  {
    if lines != [] {
      LinesAppend(lines[1..], l);
      assert (lines + [l])[1..] == lines[1..] + [l];
    }
  }

  lemma BaselineLineAppends(before: seq<string>, s: seq<BaselinePort>, i: nat)
    requires i < |s|
    ensures Lines(before + BaselineTexts(s[..i + 1])) ==
              Lines(before + BaselineTexts(s[..i])) + ShowOpts(BaselineOpts(s[i])) + "\n"
  {
    var done, line := before + BaselineTexts(s[..i]), ShowOpts(BaselineOpts(s[i]));
    LinesAppend(done, line);
    assert before + BaselineTexts(s[..i + 1]) == done + [line];
  }

  method WriteBaseline(start: string, sorted: seq<BaselinePort>, ghost before: seq<string>) returns (text: string)
    requires start == Lines(before)
    ensures text == Lines(before + BaselineTexts(sorted))
  {
    text := start;
    assert before + BaselineTexts([]) == before;
    for i := 0 to |sorted|
      invariant text == Lines(before + BaselineTexts(sorted[..i]))
    {
      var line := ShowOpts(BaselineOpts(sorted[i]));
      BaselineLineAppends(before, sorted, i);
      text := text + line + "\n";
    }
    assert sorted[..|sorted|] == sorted;
  }

  lemma RuleLineAppends(before: seq<string>, s: seq<Rule>, i: nat)
    requires i < |s|
    ensures Lines(before + RuleTexts(s[..i + 1])) == Lines(before + RuleTexts(s[..i])) + ShowOpts(RuleOpts(s[i])) + "\n"
  {
    var done, line := before + RuleTexts(s[..i]), ShowOpts(RuleOpts(s[i]));
    LinesAppend(done, line);
    assert before + RuleTexts(s[..i + 1]) == done + [line];
  }

  method WriteRules(start: string, rules: seq<Rule>, ghost before: seq<string>) returns (text: string)
    requires start == Lines(before)
    ensures text == Lines(before + RuleTexts(rules))
  {
    text := start;
    assert before + RuleTexts([]) == before;
    for i := 0 to |rules|
      invariant text == Lines(before + RuleTexts(rules[..i]))
    {
      var line := ShowOpts(RuleOpts(rules[i]));
      RuleLineAppends(before, rules, i);
      text := text + line + "\n";
    }
    assert rules[..|rules|] == rules;
  }

  /** The text written line by line; `sorted` is how the baseline was arranged. */
  method Render(incoming: string, baseline: seq<BaselinePort>, rules: seq<Rule>)
    returns (text: string, sorted: seq<BaselinePort>)
    ensures Arranges(sorted, baseline)
    ensures text == Lines(FileLines(incoming, sorted, rules))
  {
    sorted := Sort(baseline);
    SortArranges(baseline);
    text := Lines(Header(incoming));
    text := text + ShowOpts(LOOPBACK) + "\n";
    text := text + ShowOpts(ESTABLISHED) + "\n";
    ghost var top := Header(incoming) + [ShowOpts(LOOPBACK), ShowOpts(ESTABLISHED)];
    assert text == Lines(top) by {
      LinesAppend(Header(incoming), ShowOpts(LOOPBACK));
      LinesAppend(Header(incoming) + [ShowOpts(LOOPBACK)], ShowOpts(ESTABLISHED));
      assert top == Header(incoming) + [ShowOpts(LOOPBACK)] + [ShowOpts(ESTABLISHED)];
    }
    text := WriteBaseline(text, sorted, top);
    text := WriteRules(text, rules, top + BaselineTexts(sorted));
    LinesAppend(top + BaselineTexts(sorted) + RuleTexts(rules), "COMMIT");
    text := text + "COMMIT" + "\n";
  }

  /** A file that iptables-restore takes decides the same whatever the arrangement. */
  lemma RenderedDecides(incoming: string, baseline: seq<BaselinePort>, sorted: seq<BaselinePort>, rules: seq<Rule>,
                        pkt: Packet)
    requires Arranges(sorted, baseline)
    requires (forall b | b in baseline :: PlainPort(b)) && forall r | r in rules :: PlainRule(r)
    requires Loads(Lines(FileLines(incoming, sorted, rules)))
    ensures Evaluate(Lines(FileLines(incoming, sorted, rules)), pkt) == Verdict(incoming, baseline, rules, pkt)
  {
    assert forall b :: b in sorted <==> b in multiset(sorted);
    assert forall b :: b in baseline <==> b in multiset(baseline);
    LoadedDecides(incoming, sorted, rules, pkt);
  }

  // ---------------------------------------------------------------- the protected ports

  ghost predicate Protected(sshPort: int, instances: seq<InstancePort>, panelHost: bool, panelPorts: seq<int>,
                            b: BaselinePort) {
    || b == BaselinePort("tcp", sshPort, "SSH")
    || (b.port > 0 && InstancePort(b.name, b.proto, b.port) in instances)
    || (panelHost && b.port > 0 && b == BaselinePort("tcp", b.port, "Panel (web)") && b.port in panelPorts)
  }

  predicate Listens(ip: InstancePort) { ip.port > 0 }

  predicate Positive(port: int) { port > 0 }

  method ComputeBaseline(sshPort: int, instances: seq<InstancePort>, panelHost: bool, panelPorts: seq<int>)
    returns (out: seq<BaselinePort>)
    ensures forall b :: b in out <==> Protected(sshPort, instances, panelHost, panelPorts, b)
    ensures out != [] && out[0] == BaselinePort("tcp", sshPort, "SSH")
    ensures forall i | 0 < i < |out| :: out[i].port > 0
    ensures |out| == 1 + |Where(instances, Listens)| + if panelHost then |Where(panelPorts, Positive)| else 0
  {
    out := [BaselinePort("tcp", sshPort, "SSH")];
    for i := 0 to |instances|
      invariant |out| >= 1 && out[0] == BaselinePort("tcp", sshPort, "SSH")
      invariant forall b :: b in out <==> Protected(sshPort, instances[..i], false, [], b)
      invariant forall i | 0 < i < |out| :: out[i].port > 0
      invariant |out| == 1 + |Where(instances[..i], Listens)|
    {
      var ip := instances[i];
      assert instances[..i + 1] == instances[..i] + [ip];
      WhereOneMore(instances[..i], ip, Listens);
      if ip.port > 0 {
        out := out + [BaselinePort(ip.proto, ip.port, ip.name)];
      }
    }
    assert instances[..|instances|] == instances;
    if panelHost {
      for i := 0 to |panelPorts|
        invariant |out| >= 1 && out[0] == BaselinePort("tcp", sshPort, "SSH")
        invariant forall b :: b in out <==> Protected(sshPort, instances, true, panelPorts[..i], b)
        invariant forall i | 0 < i < |out| :: out[i].port > 0
        invariant |out| == 1 + |Where(instances, Listens)| + |Where(panelPorts[..i], Positive)|
      {
        var p := panelPorts[i];
        assert panelPorts[..i + 1] == panelPorts[..i] + [p];
        WhereOneMore(panelPorts[..i], p, Positive);
        if p > 0 {
          out := out + [BaselinePort("tcp", p, "Panel (web)")];
        }
      }
      assert panelPorts[..|panelPorts|] == panelPorts;
    }
  }

  /** No rule and no policy shuts out SSH, a listening VPN instance or, on the panel host, the panel. */
  lemma NeverLockedOut(incoming: string, sshPort: int, instances: seq<InstancePort>, panelHost: bool,
                       panelPorts: seq<int>,
                       baseline: seq<BaselinePort>, sorted: seq<BaselinePort>, rules: seq<Rule>, pkt: Packet)
    requires forall b :: b in baseline <==> Protected(sshPort, instances, panelHost, panelPorts, b)
    requires Arranges(sorted, baseline)
    requires (forall b | b in baseline :: PlainPort(b)) && forall r | r in rules :: PlainRule(r)
    requires Loads(Lines(FileLines(incoming, sorted, rules)))
    requires || (pkt.proto == "tcp" && pkt.dport == sshPort)
             || (exists ip | ip in instances :: ip.port > 0 && ip.proto == pkt.proto && ip.port == pkt.dport)
             || (panelHost && pkt.proto == "tcp" && pkt.dport > 0 && pkt.dport in panelPorts)
    ensures Evaluate(Lines(FileLines(incoming, sorted, rules)), pkt) == "ACCEPT"
  {
    RenderedDecides(incoming, baseline, sorted, rules, pkt);
    if pkt.proto == "tcp" && pkt.dport == sshPort {
      assert BaselinePort("tcp", sshPort, "SSH") in baseline;
    } else if exists ip | ip in instances :: ip.port > 0 && ip.proto == pkt.proto && ip.port == pkt.dport {
      var ip :| ip in instances && ip.port > 0 && ip.proto == pkt.proto && ip.port == pkt.dport;
      assert BaselinePort(ip.proto, ip.port, ip.name) in baseline;
    } else {
      assert BaselinePort("tcp", pkt.dport, "Panel (web)") in baseline;
    }
  }

  // ---------------------------------------------------------------- the preview

  predicate Blank(l: string) {
    Trim(l) == ""
  }

  ghost predicate HasLine(text: string, l: string) {
    l in Split(text) && !Blank(l)
  }

  // Some of the lines, in their order.
  ghost function Keep(lines: seq<string>, keep: string -> bool): (r: seq<string>)
    ensures forall l :: l in r <==> l in lines && keep(l)
  {
    if lines == [] then []
    else
      var last := lines[|lines| - 1];
      assert lines == lines[..|lines| - 1] + [last];
      Keep(lines[..|lines| - 1], keep) + (if keep(last) then [last] else [])
  }

  lemma {:induction false} KeepAgrees(lines: seq<string>, p: string -> bool, q: string -> bool)
    requires forall l | l in lines :: p(l) == q(l)
    ensures Keep(lines, p) == Keep(lines, q)
  {
    if lines != [] {
      assert lines == lines[..|lines| - 1] + [lines[|lines| - 1]];
      KeepAgrees(lines[..|lines| - 1], p, q);
    }
  }

  ghost function NonBlank(text: string): seq<string> {
    Keep(Split(text), l => !Blank(l))
  }

  method SplitNonEmpty(text: string) returns (out: seq<string>)
    ensures out == NonBlank(text)
  {
    var lines := Split(text);
    out := [];
    for i := 0 to |lines|
      invariant out == Keep(lines[..i], l => !Blank(l))
    {
      assert lines[..i + 1][..i] == lines[..i];
      if !Blank(lines[i]) { out := out + [lines[i]]; }
    }
    assert lines[..|lines|] == lines;
  }

  method LineSet(text: string) returns (m: set<string>)
    ensures forall l :: l in m <==> HasLine(text, l)
  {
    var lines := SplitNonEmpty(text);
    m := {};
    for i := 0 to |lines|
      invariant forall l :: l in m <==> l in lines[..i]
    {
      assert lines[..i + 1] == lines[..i] + [lines[i]];
      m := m + {lines[i]};
    }
    assert lines[..|lines|] == lines;
  }

  method Missing(lines: seq<string>, present: set<string>) returns (out: seq<string>)
    ensures out == Keep(lines, l => l !in present)
  {
    out := [];
    for i := 0 to |lines|
      invariant out == Keep(lines[..i], l => l !in present)
    {
      assert lines[..i + 1][..i] == lines[..i];
      if lines[i] !in present { out := out + [lines[i]]; }
    }
    assert lines[..|lines|] == lines;
  }

  // The lines of one text that the other lacks, in their order and with their repeats.
  ghost function OnlyIn(text: string, other: string): seq<string> {
    Keep(NonBlank(text), l => !HasLine(other, l))
  }

  lemma OnlyInHas(text: string, other: string, l: string)
    ensures l in OnlyIn(text, other) <==> HasLine(text, l) && !HasLine(other, l)
  {
    var keep := (l: string) => !HasLine(other, l);
    assert l in OnlyIn(text, other) <==> l in NonBlank(text) && keep(l);
  }

  lemma MissingIsOnlyIn(text: string, other: string, present: set<string>)
    requires forall l :: l in present <==> HasLine(other, l)
    ensures Keep(NonBlank(text), l => l !in present) == OnlyIn(text, other)
  {
    KeepAgrees(NonBlank(text), l => l !in present, l => !HasLine(other, l));
  }

  method Diff(current: string, proposed: string) returns (added: seq<string>, removed: seq<string>)
    ensures added == OnlyIn(proposed, current)
    ensures removed == OnlyIn(current, proposed)
  {
    var curLines := LineSet(current);
    var newLines := LineSet(proposed);
    var next := SplitNonEmpty(proposed);
    added := Missing(next, curLines);
    var now := SplitNonEmpty(current);
    removed := Missing(now, newLines);
    MissingIsOnlyIn(proposed, current, curLines);
    MissingIsOnlyIn(current, proposed, newLines);
  }

  /**
    Taking the removed lines away and adding the added ones turns the current lines into the proposed ones, nothing is
    both, and the preview is empty exactly if the two texts have the same lines.
  */
  lemma DiffIsTheChange(current: string, proposed: string)
    ensures var added, removed := OnlyIn(proposed, current), OnlyIn(current, proposed);
            && (forall l :: HasLine(proposed, l) <==> (HasLine(current, l) && l !in removed) || l in added)
            && (forall l | l in added :: l !in removed)
            && (added == [] && removed == [] <==> forall l :: HasLine(current, l) == HasLine(proposed, l))
  {
    var added, removed := OnlyIn(proposed, current), OnlyIn(current, proposed);
    forall l ensures l in added <==> HasLine(proposed, l) && !HasLine(current, l) { OnlyInHas(proposed, current, l); }
    forall l ensures l in removed <==> HasLine(current, l) && !HasLine(proposed, l) { OnlyInHas(current, proposed, l); }
    assert added != [] ==> added[0] in added;
    assert removed != [] ==> removed[0] in removed;
  }
}
