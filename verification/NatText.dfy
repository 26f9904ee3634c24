/** The text layer over the NAT chains: how nft prints a rule, and how the daemon finds and
    reads rules in such a listing. */
module NatText {
  import opened Wrappers
  import opened Seqs
  import opened Text

  datatype Proto = Tcp | Udp
  datatype Key = Key(proto: Proto, hostPort: nat)
  datatype Target = Target(ip: string, port: nat)
  datatype Rule = Rule(key: Key, target: Target)
  /** A rule in a chain, under the handle the kernel gave it. */
  datatype Entry = Entry(rule: Rule, handle: nat)

  function ProtoName(p: Proto): string {
    match p case Tcp => "tcp" case Udp => "udp"
  }

  predicate Ipv4Text(s: string) {
    s != "" && forall i :: 0 <= i < |s| ==> IsDigit(s[i]) || s[i] == '.'
  }

  function KeyText(k: Key): string {
    ProtoName(k.proto) + "/" + Decimal(k.hostPort)
  }

  function TargetText(t: Target): string {
    t.ip + ":" + Decimal(t.port)
  }

  function RuleText(r: Rule): string {
    ProtoName(r.key.proto) + " dport " + Decimal(r.key.hostPort) + " dnat to " + TargetText(r.target)
  }

  const HANDLE_MARK := "# handle "

  /** A rule as "nft -a list chain" prints it. */
  function Line(e: Entry): string {
    "\t\t" + RuleText(e.rule) + " " + HANDLE_MARK + Decimal(e.handle)
  }

  /** A rule as "nft list chain" prints it. */
  function BareLine(r: Rule): string {
    "\t\t" + RuleText(r)
  }

  /** A line of a listing that is no port forward: table and chain headers, braces. */
  predicate NoiseLine(s: string) {
    '\n' !in s && !Contains(s, "dnat")
  }

  predicate WellFormedRule(r: Rule) {
    Ipv4Text(r.target.ip) && r.key.hostPort <= MAX_INT
  }

  predicate WellFormed(es: seq<Entry>) {
    forall i :: 0 <= i < |es| ==> WellFormedRule(es[i].rule)
  }

  function Lines(es: seq<Entry>): (ls: seq<string>)
    ensures |ls| == |es| && forall i :: 0 <= i < |es| ==> ls[i] == Line(es[i])
  {
    seq(|es|, i requires 0 <= i < |es| => Line(es[i]))
  }

  predicate NoiseLines(ls: seq<string>) {
    forall i :: 0 <= i < |ls| ==> NoiseLine(ls[i])
  }

  /** A chain listing: the chain's rules between header and footer lines. */
  function Listing(header: seq<string>, es: seq<Entry>, footer: seq<string>): string {
    Join(header + Lines(es) + footer, '\n')
  }

  function BareLines(es: seq<Entry>): (ls: seq<string>)
    ensures |ls| == |es| && forall i :: 0 <= i < |es| ==> ls[i] == BareLine(es[i].rule)
  {
    seq(|es|, i requires 0 <= i < |es| => BareLine(es[i].rule))
  }

  /** A chain listing without handles. */
  function BareListing(header: seq<string>, es: seq<Entry>, footer: seq<string>): string {
    Join(header + BareLines(es) + footer, '\n')
  }

  // ----- Pieces of text -----

  lemma OccursBetween(a: string, sub: string, b: string)
    ensures OccursAt(a + sub + b, sub, |a|) && Contains(a + sub + b, sub)
  {
    assert forall i :: 0 <= i < |sub| ==> (a + sub + b)[|a| + i] == sub[i];
    OccurrenceIsContained(a + sub + b, sub, |a|);
  }

  lemma OccursAfter(a: string, s: string, b: string, sub: string, k: nat)
    requires OccursAt(a + s, b + sub, k) && k + |b| == |a|
    ensures OccursAt(s, sub, 0)
  {
    forall i | 0 <= i < |sub|
      ensures s[0 + i] == sub[i]
    {
      assert (b + sub)[|b| + i] == sub[i];
      assert (a + s)[k + (|b| + i)] == s[i];
    }
  }

  lemma ElementIn(s: string, i: int)
    requires 0 <= i < |s|
    ensures s[i] in s && s[i + 0] in s
  {
  }

  /** Two words read up to the same delimiter are the same word. */
  lemma SameWord(x: string, y: string, c: char, rest: string)
    requires c !in x && c !in y && OccursAt(x + [c] + rest, y + [c], 0)
    ensures x == y
  {
    var s, t := x + [c] + rest, y + [c];
    assert forall i :: 0 <= i < |x| ==> s[i] == x[i];
    assert forall i :: 0 <= i < |y| ==> t[i] == y[i];
    assert s[|x|] == c && t[|y|] == c;
    assert forall i :: 0 <= i < |t| ==> s[0 + i] == t[i];
    if |y| < |x| {
      ElementIn(x, |y|);
      assert false;
    }
    if |x| < |y| {
      ElementIn(y, |x|);
      assert false;
    }
  }

  /** Two words read back to the same delimiter are the same word. */
  lemma SameLastWord(a: string, x: string, b: string, y: string, c: char, k: nat)
    requires c !in x && c !in y && OccursAt(a + [c] + x, b + [c] + y, k)
    requires k + |b| + 1 + |y| == |a| + 1 + |x|
    ensures x == y
  {
    var s, t := a + [c] + x, b + [c] + y;
    assert forall i :: 0 <= i < |x| ==> s[|a| + 1 + i] == x[i];
    assert forall i :: 0 <= i < |y| ==> t[|b| + 1 + i] == y[i];
    assert s[|a|] == c && t[|b|] == c;
    assert forall i :: 0 <= i < |t| ==> s[k + i] == t[i];
    assert forall j :: |s| - |t| <= j < |s| ==> s[j] == t[j - k];
  }

  lemma AbsentChar(s: string, sub: string)
    requires sub != "" && sub[0] !in s
    ensures Index(s, sub) == -1
  {
    if Contains(s, sub) {
      ElementIn(s, Index(s, sub));
      assert false;
    }
  }

  lemma NotADigit(c: char, n: nat)
    requires !IsDigit(c)
    ensures c !in Decimal(n)
  {
  }

  // ----- Finding rules to delete -----

  /** natLineMatchesHostPort */
  predicate LineMatchesHostPort(line: string, key: Key) {
    Contains(line, HostPortNeedle(key)) && Contains(line, "dnat to ")
  }

  /** The matcher of RemovePortForwards. */
  predicate LineMatchesIp(line: string, ip: string) {
    Contains(line, "dnat to " + ip + ":")
  }

  function HostPortNeedle(key: Key): string {
    ProtoName(key.proto) + " dport " + Decimal(key.hostPort) + " "
  }

  /** What follows the host port in a rule line. */
  function AfterPort(e: Entry): string {
    "dnat to " + TargetText(e.rule.target) + " " + HANDLE_MARK + Decimal(e.handle)
  }

  /** The host-port matcher selects exactly the rules of that protocol and port: never a longer
      or shorter number, never the other protocol. */
  lemma HostPortMatchExact(e: Entry, key: Key)
    requires Ipv4Text(e.rule.target.ip)
    ensures LineMatchesHostPort(Line(e), key) <==> e.rule.key == key
  {
    if e.rule.key == key {
      OwnPortMatches(e);
    }
    if Contains(Line(e), HostPortNeedle(key)) {
      var k := Index(Line(e), HostPortNeedle(key));
      NeedleAtStart(e, key, k);
      NeedleNamesKey(e, key);
    }
  }

  lemma LineAtPort(e: Entry)
    ensures Line(e) == "\t\t" + HostPortNeedle(e.rule.key) + AfterPort(e)
  {
  }

  lemma OwnPortMatches(e: Entry)
    ensures LineMatchesHostPort(Line(e), e.rule.key)
  {
    var needle := HostPortNeedle(e.rule.key);
    LineAtPort(e);
    OccursBetween("\t\t", needle, AfterPort(e));
    var rest := TargetText(e.rule.target) + " " + HANDLE_MARK + Decimal(e.handle);
    assert AfterPort(e) == "dnat to " + rest;
    assert ("\t\t" + needle) + ("dnat to " + rest) == ("\t\t" + needle) + "dnat to " + rest;
    OccursBetween("\t\t" + needle, "dnat to ", rest);
  }

  lemma NeedleNamesKey(e: Entry, key: Key)
    requires OccursAt(Line(e), HostPortNeedle(key), 2)
    ensures e.rule.key == key
  {
    var p, n, m := ProtoName(e.rule.key.proto), Decimal(e.rule.key.hostPort), Decimal(key.hostPort);
    LineAtPort(e);
    NeedleShape(e.rule.key);
    NeedleShape(key);
    var l0, n0 := "\t\t" + (p + " dport "), ProtoName(key.proto) + " dport ";
    assert Line(e)[2 + 0] == HostPortNeedle(key)[0];
    assert Line(e)[2] == p[0];
    assert "\t\t" + (p + " dport " + (n + " ")) + AfterPort(e) == l0 + (n + " " + AfterPort(e));
    OccursAfter(l0, n + " " + AfterPort(e), n0, m + " ", 2);
    NotADigit(' ', e.rule.key.hostPort);
    NotADigit(' ', key.hostPort);
    SameWord(n, m, ' ', AfterPort(e));
    DecimalInjective(e.rule.key.hostPort, key.hostPort);
  }

  lemma NeedleShape(key: Key)
    ensures HostPortNeedle(key) == ProtoName(key.proto) + " dport " + (Decimal(key.hostPort) + " ")
    ensures |ProtoName(key.proto)| == 3 && HostPortNeedle(key)[0] == ProtoName(key.proto)[0]
  {
  }

  /** "dport" holds the only 'r' of a rule line, so a host-port needle can only sit at its start. */
  lemma NeedleAtStart(e: Entry, key: Key, k: nat)
    requires Ipv4Text(e.rule.target.ip)
    requires OccursAt(Line(e), HostPortNeedle(key), k)
    ensures k == 2
  {
    LineAtR(e);
    assert HostPortNeedle(key)[7] == 'r';
    UniqueCharPins(BeforeR(e), 'r', AfterR(e), HostPortNeedle(key), k, 7);
  }

  function BeforeR(e: Entry): string {
    "\t\t" + ProtoName(e.rule.key.proto) + " dpo"
  }

  function AfterR(e: Entry): string {
    "t " + Decimal(e.rule.key.hostPort) + " " + AfterPort(e)
  }

  lemma LineAtR(e: Entry)
    requires Ipv4Text(e.rule.target.ip)
    ensures Line(e) == BeforeR(e) + ['r'] + AfterR(e)
    ensures |BeforeR(e)| == 9 && 'r' !in BeforeR(e) && 'r' !in AfterR(e)
  {
    LineAtPort(e);
    SplitAtR(ProtoName(e.rule.key.proto), Decimal(e.rule.key.hostPort), AfterPort(e));
    NotADigit('r', e.rule.key.hostPort);
    NoRAfterPort(e);
  }

  lemma SplitAtR(p: string, n: string, rest: string)
    ensures "\t\t" + (p + " dport " + n + " ") + rest == ("\t\t" + p + " dpo") + ['r'] + ("t " + n + " " + rest)
  {
  }

  lemma NoRAfterPort(e: Entry)
    requires Ipv4Text(e.rule.target.ip)
    ensures 'r' !in AfterPort(e)
  {
    NotADigit('r', e.rule.target.port);
    NotADigit('r', e.handle);
  }

  /** A rule line up to "dnat to", and what follows the target's colon. */
  function BeforeIp(e: Entry): string {
    "\t\t" + ProtoName(e.rule.key.proto) + " dport " + Decimal(e.rule.key.hostPort) + " dnat to"
  }

  function AfterColon(e: Entry): string {
    Decimal(e.rule.target.port) + " " + HANDLE_MARK + Decimal(e.handle)
  }

  lemma LineAtColon(e: Entry)
    requires Ipv4Text(e.rule.target.ip)
    ensures Line(e) == (BeforeIp(e) + " " + e.rule.target.ip) + [':'] + AfterColon(e)
    ensures ':' !in BeforeIp(e) + " " + e.rule.target.ip && ':' !in AfterColon(e)
  {
    NotADigit(':', e.rule.key.hostPort);
    NotADigit(':', e.rule.target.port);
    NotADigit(':', e.handle);
  }

  /** The container-IP matcher selects exactly the rules that target that address. */
  lemma IpMatchExact(e: Entry, ip: string)
    requires Ipv4Text(e.rule.target.ip) && Ipv4Text(ip)
    ensures LineMatchesIp(Line(e), ip) <==> e.rule.target.ip == ip
  {
    if e.rule.target.ip == ip {
      OwnIpMatches(e);
    }
    if LineMatchesIp(Line(e), ip) {
      IpMatchSound(e, ip, Index(Line(e), "dnat to " + ip + ":"));
    }
  }

  lemma IpMatchSound(e: Entry, ip: string, k: nat)
    requires Ipv4Text(e.rule.target.ip) && Ipv4Text(ip)
    requires OccursAt(Line(e), "dnat to " + ip + ":", k)
    ensures e.rule.target.ip == ip
  {
    LineAtColon(e);
    assert "dnat to" + " " + ip + ":" == "dnat to " + ip + ":";
    NeedleNamesIp(BeforeIp(e), e.rule.target.ip, AfterColon(e), "dnat to", ip, k);
  }

  lemma OwnIpMatches(e: Entry)
    ensures LineMatchesIp(Line(e), e.rule.target.ip)
  {
    var head := "\t\t" + ProtoName(e.rule.key.proto) + " dport " + Decimal(e.rule.key.hostPort) + " ";
    var needle := "dnat to " + e.rule.target.ip + ":";
    assert Line(e) == head + needle + AfterColon(e);
    OccursBetween(head, needle, AfterColon(e));
  }

  lemma NeedleNamesIp(a: string, x: string, rest: string, b: string, y: string, k: nat)
    requires ':' !in a + " " + x && ':' !in rest && ' ' !in x && ' ' !in y
    requires OccursAt(a + " " + x + [':'] + rest, b + " " + y + ":", k)
    ensures x == y
  {
    var needle := b + " " + y + ":";
    UniqueCharPins(a + " " + x, ':', rest, needle, k, |needle| - 1);
    forall i | 0 <= i < |b + " " + y|
      ensures (a + " " + x)[k + i] == (b + " " + y)[i]
    {
      assert needle[i] == (b + " " + y)[i];
      assert (a + " " + x + [':'] + rest)[k + i] == (a + " " + x)[k + i];
    }
    SameLastWord(a, x, b, y, ' ', k);
  }

  /** The handle a listing line ends with: the trimmed text between the first two marks. */
  function HandleOf(line: string): Option<string> {
    var i := Index(line, HANDLE_MARK);
    if i == -1 then None
    else
      var rest := line[i + |HANDLE_MARK|..];
      var j := Index(rest, HANDLE_MARK);
      var h := TrimSpace(if j == -1 then rest else rest[..j]);
      if h == "" then None else Some(h)
  }

  lemma DigitsUntrimmed(s: string)
    requires AllDigits(s)
    ensures TrimSpace(s) == s
  {
  }

  lemma LineHandle(e: Entry)
    requires Ipv4Text(e.rule.target.ip)
    ensures HandleOf(Line(e)) == Some(Decimal(e.handle))
  {
    var line := Line(e);
    var a := "\t\t" + RuleText(e.rule) + " ";
    var h := Decimal(e.handle);
    var b := " handle " + h;
    NotADigit('#', e.rule.key.hostPort);
    NotADigit('#', e.rule.target.port);
    NotADigit('#', e.handle);
    assert line == a + ['#'] + b;
    assert line == a + HANDLE_MARK + h;
    OccursBetween(a, HANDLE_MARK, h);
    UniqueCharPins(a, '#', b, HANDLE_MARK, Index(line, HANDLE_MARK), 0);
    assert line[|a| + |HANDLE_MARK|..] == h;
    AbsentChar(h, HANDLE_MARK);
    DigitsUntrimmed(h);
  }

  /** What natHandlesToDelete takes from one line. */
  function HandlePicker(match_: string -> bool): string -> Option<string> {
    line => if match_(line) then HandleOf(line) else None
  }

  method NatHandlesToDelete(listing: string, match_: string -> bool) returns (handles: seq<string>)
    ensures handles == Collect(Split(listing, '\n'), HandlePicker(match_))
  {
    var lines := Split(listing, '\n');
    ghost var pick := HandlePicker(match_);
    handles := [];
    for k := 0 to |lines|
      invariant handles == Collect(lines[..k], pick)
    {
      assert lines[..k + 1] == lines[..k] + [lines[k]];
      CollectAppend(lines[..k], [lines[k]], pick);
      assert Collect([lines[k]], pick) == if pick(lines[k]).Some? then [pick(lines[k]).value] else [];
      if match_(lines[k]) {
        var h := HandleOf(lines[k]);
        if h.Some? {
          handles := handles + [h.value];
        }
      }
    }
    assert lines[..|lines|] == lines;
  }

  /** The printed handle of an entry whose rule satisfies a predicate. */
  function PrintedHandle(p: Rule -> bool): Entry -> Option<string> {
    (e: Entry) => if p(e.rule) then Some(Decimal(e.handle)) else None
  }

  lemma LineHasNoNewline(e: Entry)
    requires Ipv4Text(e.rule.target.ip)
    ensures '\n' !in Line(e) && '\n' !in BareLine(e.rule)
  {
    NotADigit('\n', e.rule.key.hostPort);
    NotADigit('\n', e.rule.target.port);
    NotADigit('\n', e.handle);
  }

  lemma ListingSplits(header: seq<string>, es: seq<Entry>, footer: seq<string>)
    requires WellFormed(es) && NoiseLines(header) && NoiseLines(footer) && header + footer != []
    ensures Split(Listing(header, es, footer), '\n') == header + Lines(es) + footer
  {
    forall i | 0 <= i < |es|
      ensures '\n' !in Lines(es)[i]
    {
      LineHasNoNewline(es[i]);
    }
    SplitJoin(header + Lines(es) + footer, '\n');
  }

  /** On a printed chain, natHandlesToDelete returns exactly the handles of the rules its
      matcher stands for, in order. */
  lemma HandlesExact(header: seq<string>, es: seq<Entry>, footer: seq<string>, match_: string -> bool, p: Rule -> bool)
    requires WellFormed(es) && NoiseLines(header) && NoiseLines(footer) && header + footer != []
    requires forall i :: 0 <= i < |es| ==> (match_(Line(es[i])) <==> p(es[i].rule))
    requires forall s :: NoiseLine(s) ==> !match_(s)
    ensures Collect(Split(Listing(header, es, footer), '\n'), HandlePicker(match_)) == Collect(es, PrintedHandle(p))
  {
    ListingSplits(header, es, footer);
    CollectThree(header, Lines(es), footer, HandlePicker(match_));
    NoisePicksNothing(header, match_);
    NoisePicksNothing(footer, match_);
    RulesPickHandles(es, match_, p);
  }

  lemma NoisePicksNothing(ls: seq<string>, match_: string -> bool)
    requires NoiseLines(ls) && forall s :: NoiseLine(s) ==> !match_(s)
    ensures Collect(ls, HandlePicker(match_)) == []
  {
    CollectNone(ls, HandlePicker(match_));
  }

  lemma RulesPickHandles(es: seq<Entry>, match_: string -> bool, p: Rule -> bool)
    requires WellFormed(es) && forall i :: 0 <= i < |es| ==> (match_(Line(es[i])) <==> p(es[i].rule))
    ensures Collect(Lines(es), HandlePicker(match_)) == Collect(es, PrintedHandle(p))
  {
    var ls, f, g := Lines(es), HandlePicker(match_), PrintedHandle(p);
    forall i | 0 <= i < |es|
      ensures f(ls[i]) == g(es[i])
    {
      RulePicksHandle(es[i], match_, p);
    }
    CollectSame(ls, f, es, g);
  }

  lemma RulePicksHandle(e: Entry, match_: string -> bool, p: Rule -> bool)
    requires Ipv4Text(e.rule.target.ip) && (match_(Line(e)) <==> p(e.rule))
    ensures HandlePicker(match_)(Line(e)) == PrintedHandle(p)(e)
  {
    LineHandle(e);
  }

  lemma NoiseNeverMatches(s: string, key: Key, ip: string)
    requires NoiseLine(s)
    ensures !LineMatchesHostPort(s, key) && !LineMatchesIp(s, ip)
  {
    if Contains(s, "dnat to ") {
      ContainsPart(s, "dnat to ", "dnat", 0);
    }
    if LineMatchesIp(s, ip) {
      ContainsPart(s, "dnat to " + ip + ":", "dnat", 0);
    }
  }

  // ----- Reading a chain -----

  /** The first port forward among the fields of a line, from field i on. */
  function ForwardFrom(f: seq<string>, i: nat): Option<(string, string)>
    decreases |f| - i
  {
    if i + 5 >= |f| then None
    else if f[i + 1] == "dport" && f[i + 3] == "dnat" && f[i + 4] == "to" && (f[i] == "tcp" || f[i] == "udp") then
      Some((f[i] + "/" + f[i + 2], f[i + 5]))
    else ForwardFrom(f, i + 1)
  }

  function ForwardIn(line: string): Option<(string, string)> {
    ForwardFrom(Fields(line), 0)
  }

  /** parseDNATChain: the targets read so far and the keys seen more than once. */
  datatype Parsed = Parsed(rules: map<string, string>, dups: set<string>)

  function AddForward(p: Parsed, f: (string, string)): Parsed {
    Parsed(p.rules[f.0 := f.1], if f.0 in p.rules then p.dups + {f.0} else p.dups)
  }

  function ParsedAll(fs: seq<(string, string)>): Parsed {
    if fs == [] then Parsed(map[], {}) else AddForward(ParsedAll(fs[..|fs| - 1]), fs[|fs| - 1])
  }

  method ParseDnatChain(listing: string) returns (p: Parsed)
    ensures p == ParsedAll(Collect(Split(listing, '\n'), ForwardIn))
  {
    var lines := Split(listing, '\n');
    ghost var fs: seq<(string, string)> := [];
    p := Parsed(map[], {});
    for k := 0 to |lines|
      invariant fs == Collect(lines[..k], ForwardIn) && p == ParsedAll(fs)
    {
      assert lines[..k + 1] == lines[..k] + [lines[k]];
      CollectAppend(lines[..k], [lines[k]], ForwardIn);
      assert Collect([lines[k]], ForwardIn) == if ForwardIn(lines[k]).Some? then [ForwardIn(lines[k]).value] else [];
      var found := FindForward(Fields(lines[k]));
      if found.Some? {
        p := AddForward(p, found.value);
        assert (fs + [found.value])[..|fs|] == fs;
        fs := fs + [found.value];
      }
    }
    assert lines[..|lines|] == lines;
  }

  /** The loop over the fields of one line. */
  method FindForward(f: seq<string>) returns (r: Option<(string, string)>)
    ensures r == ForwardFrom(f, 0)
  {
    var i := 0;
    while i + 5 < |f|
      invariant ForwardFrom(f, 0) == ForwardFrom(f, i)
    {
      if f[i + 1] == "dport" && f[i + 3] == "dnat" && f[i + 4] == "to" && (f[i] == "tcp" || f[i] == "udp") {
        return Some((f[i] + "/" + f[i + 2], f[i + 5]));
      }
      i := i + 1;
    }
    return None;
  }

  /** A forward as the parser reports it. */
  function Forward(e: Entry): (string, string) {
    (KeyText(e.rule.key), TargetText(e.rule.target))
  }

  lemma NoSpaceInDigits(s: string)
    requires forall i :: 0 <= i < |s| ==> IsDigit(s[i]) || s[i] == '.' || s[i] == ':'
    ensures NoSpace(s)
  {
  }

  predicate Word(s: string) {
    s != "" && NoSpace(s)
  }

  lemma FieldThenBlank(w: string, rest: string)
    requires Word(w)
    ensures Fields(w + ([' '] + rest)) == [w] + Fields(rest)
  {
    FieldsToken(w, [' '] + rest);
    FieldsBlank(' ', rest);
  }

  lemma JoinTail(ws: seq<string>, tail: string)
    requires |ws| > 1
    ensures Join(ws, ' ') + tail == ws[0] + ([' '] + (Join(ws[1..], ' ') + tail))
  {
  }

  lemma PrependRest(ws: seq<string>, more: seq<string>)
    requires ws != []
    ensures [ws[0]] + (ws[1..] + more) == ws + more
  {
  }

  /** Blank-separated words are read back as the fields. */
  lemma {:induction false} FieldsOfWords(ws: seq<string>, tail: string)
    requires ws != [] && (forall i :: 0 <= i < |ws| ==> Word(ws[i])) && (tail != "" ==> IsSpace(tail[0]))
    ensures Fields(Join(ws, ' ') + tail) == ws + Fields(tail)
  {
    if |ws| == 1 {
      FieldsToken(ws[0], tail);
      assert ws == [ws[0]];
    } else {
      FieldsOfWords(ws[1..], tail);
      JoinTail(ws, tail);
      FieldThenBlank(ws[0], Join(ws[1..], ' ') + tail);
      PrependRest(ws, Fields(tail));
    }
  }

  lemma FieldsAfterTabs(s: string)
    ensures Fields("\t\t" + s) == Fields(s)
  {
    assert "\t\t" + s == ['\t'] + (['\t'] + s);
    FieldsBlank('\t', ['\t'] + s);
    FieldsBlank('\t', s);
  }

  function RuleWords(r: Rule): seq<string> {
    [ProtoName(r.key.proto), "dport", Decimal(r.key.hostPort), "dnat", "to", TargetText(r.target)]
  }

  lemma JoinCons(w: string, ws: seq<string>)
    requires ws != []
    ensures Join([w] + ws, ' ') == w + " " + Join(ws, ' ')
  {
    assert ([w] + ws)[1..] == ws;
  }

  lemma Glue(a: string, b: string, ab: string, rest: string)
    requires ab == a + b
    ensures a + (b + rest) == ab + rest
  {
  }

  lemma JoinDnat(t: string)
    ensures Join(["dnat", "to", t], ' ') == "dnat to " + t
  {
    JoinCons("to", [t]);
    assert ["to"] + [t] == ["to", t] && "to" + " " == "to ";
    JoinCons("dnat", ["to", t]);
    assert ["dnat"] + ["to", t] == ["dnat", "to", t] && "dnat" + " " == "dnat ";
    Glue("dnat ", "to ", "dnat to ", t);
  }

  lemma JoinDport(p: string, n: string, ws: seq<string>)
    requires ws != []
    ensures Join([p, "dport", n] + ws, ' ') == p + " dport " + (n + " " + Join(ws, ' '))
  {
    JoinCons(n, ws);
    JoinCons("dport", [n] + ws);
    assert "dport" + " " == "dport ";
    JoinCons(p, ["dport"] + ([n] + ws));
    assert [p] + (["dport"] + ([n] + ws)) == [p, "dport", n] + ws;
    Glue(p + " ", "dport ", p + " dport ", n + " " + Join(ws, ' '));
  }

  lemma RuleInWords(r: Rule)
    ensures RuleText(r) == Join(RuleWords(r), ' ')
  {
    var p, n, t := ProtoName(r.key.proto), Decimal(r.key.hostPort), TargetText(r.target);
    JoinDnat(t);
    JoinDport(p, n, ["dnat", "to", t]);
    assert [p, "dport", n] + ["dnat", "to", t] == RuleWords(r);
    Glue(n + " ", "dnat to ", n + " dnat to ", t);
    Glue(p + " dport ", n + " dnat to ", p + " dport " + n + " dnat to ", t);
  }

  /** A line that starts with a rule has the six fields that spell the forward, and then the tail's. */
  lemma RuleFields(r: Rule, tail: string)
    requires Ipv4Text(r.target.ip) && (tail != "" ==> IsSpace(tail[0]))
    ensures Fields(BareLine(r) + tail) == RuleWords(r) + Fields(tail)
  {
    NoSpaceInDigits(Decimal(r.key.hostPort));
    NoSpaceInDigits(TargetText(r.target));
    FieldsOfWords(RuleWords(r), tail);
    RuleInWords(r);
    FieldsAfterTabs(RuleText(r) + tail);
    assert BareLine(r) + tail == "\t\t" + (RuleText(r) + tail);
  }

  lemma ForwardOfWords(r: Rule, more: seq<string>)
    ensures ForwardFrom(RuleWords(r) + more, 0) == Some((KeyText(r.key), TargetText(r.target)))
  {
    var f := RuleWords(r) + more;
    assert forall i :: 0 <= i < 6 ==> f[i] == RuleWords(r)[i];
  }

  /** The six fields of a line without handle are just enough. */
  lemma BareLineForward(e: Entry)
    requires Ipv4Text(e.rule.target.ip)
    ensures ForwardIn(BareLine(e.rule)) == Some(Forward(e))
  {
    RuleFields(e.rule, "");
    assert BareLine(e.rule) + "" == BareLine(e.rule);
    ForwardOfWords(e.rule, Fields(""));
  }

  lemma LineForward(e: Entry)
    requires Ipv4Text(e.rule.target.ip)
    ensures ForwardIn(Line(e)) == Some(Forward(e))
  {
    var tail := " " + HANDLE_MARK + Decimal(e.handle);
    RuleFields(e.rule, tail);
    assert Line(e) == BareLine(e.rule) + tail;
    ForwardOfWords(e.rule, Fields(tail));
  }

  lemma NoiseHasNoForward(s: string)
    requires NoiseLine(s)
    ensures ForwardIn(s) == None
  {
    var f := Fields(s);
    forall i | 0 <= i < |f|
      ensures f[i] != "dnat"
    {
      FieldIsContained(s, i);
    }
    NoForwardFrom(f, 0);
  }

  lemma {:induction false} NoForwardFrom(f: seq<string>, i: nat)
    requires forall j :: 0 <= j < |f| ==> f[j] != "dnat"
    ensures ForwardFrom(f, i) == None
    decreases |f| - i
  {
    if i + 5 < |f| {
      NoForwardFrom(f, i + 1);
    }
  }

  function Forwards(es: seq<Entry>): (fs: seq<(string, string)>)
    ensures |fs| == |es| && forall i :: 0 <= i < |es| ==> fs[i] == Forward(es[i])
  {
    seq(|es|, i requires 0 <= i < |es| => Forward(es[i]))
  }

  lemma NoiseReadsNothing(ls: seq<string>)
    requires NoiseLines(ls)
    ensures Collect(ls, ForwardIn) == []
  {
    forall i | 0 <= i < |ls|
      ensures ForwardIn(ls[i]).None?
    {
      NoiseHasNoForward(ls[i]);
    }
    CollectNone(ls, ForwardIn);
  }

  predicate OneLiners(ls: seq<string>) {
    forall i :: 0 <= i < |ls| ==> '\n' !in ls[i]
  }

  /** Each line is read as its entry's forward. */
  predicate Spells(ls: seq<string>, es: seq<Entry>) {
    |ls| == |es| && forall i :: 0 <= i < |ls| ==> ForwardIn(ls[i]) == Some(Forward(es[i]))
  }

  lemma RulesRead(ls: seq<string>, es: seq<Entry>)
    requires Spells(ls, es)
    ensures Collect(ls, ForwardIn) == Forwards(es)
  {
    CollectAll(ls, ForwardIn, Forwards(es));
  }

  lemma LinesSplit(header: seq<string>, ls: seq<string>, footer: seq<string>)
    requires NoiseLines(header) && NoiseLines(footer) && header + footer != [] && OneLiners(ls)
    ensures Split(Join(header + ls + footer, '\n'), '\n') == header + ls + footer
  {
    SplitJoin(header + ls + footer, '\n');
  }

  lemma ParseReads(header: seq<string>, ls: seq<string>, es: seq<Entry>, footer: seq<string>)
    requires NoiseLines(header) && NoiseLines(footer) && Spells(ls, es)
    ensures Collect(header + ls + footer, ForwardIn) == Forwards(es)
  {
    CollectThree(header, ls, footer, ForwardIn);
    NoiseReadsNothing(header);
    NoiseReadsNothing(footer);
    RulesRead(ls, es);
    assert [] + Forwards(es) + [] == Forwards(es);
  }

  /** On a printed chain, the parser reads exactly the chain's rules, in order: on a listing without
      handles, as the parser is given, and on one with them. */
  lemma ParseReadsRules(header: seq<string>, es: seq<Entry>, footer: seq<string>)
    requires WellFormed(es) && NoiseLines(header) && NoiseLines(footer) && header + footer != []
    ensures Collect(Split(BareListing(header, es, footer), '\n'), ForwardIn) == Forwards(es)
    ensures Collect(Split(Listing(header, es, footer), '\n'), ForwardIn) == Forwards(es)
  {
    LinesSpell(es);
    LinesSplit(header, BareLines(es), footer);
    ParseReads(header, BareLines(es), es, footer);
    LinesSplit(header, Lines(es), footer);
    ParseReads(header, Lines(es), es, footer);
  }

  lemma LinesSpell(es: seq<Entry>)
    requires WellFormed(es)
    ensures OneLiners(BareLines(es)) && Spells(BareLines(es), es)
    ensures OneLiners(Lines(es)) && Spells(Lines(es), es)
  {
    forall i | 0 <= i < |es|
      ensures '\n' !in BareLines(es)[i] && ForwardIn(BareLines(es)[i]) == Some(Forward(es[i]))
      ensures '\n' !in Lines(es)[i] && ForwardIn(Lines(es)[i]) == Some(Forward(es[i]))
    {
      LineHasNoNewline(es[i]);
      BareLineForward(es[i]);
      LineForward(es[i]);
    }
  }

  predicate Mentions(fs: seq<(string, string)>, key: string) {
    exists i :: 0 <= i < |fs| && fs[i].0 == key
  }

  predicate MentionsTwice(fs: seq<(string, string)>, key: string) {
    exists i, j :: 0 <= i < j < |fs| && fs[i].0 == key && fs[j].0 == key
  }

  predicate LastMention(fs: seq<(string, string)>, key: string, i: nat) {
    i < |fs| && fs[i].0 == key && forall j :: i < j < |fs| ==> fs[j].0 != key
  }

  lemma MentionsMore(fs: seq<(string, string)>, f: (string, string), key: string)
    ensures Mentions(fs + [f], key) <==> Mentions(fs, key) || f.0 == key
    ensures MentionsTwice(fs + [f], key) <==> MentionsTwice(fs, key) || (f.0 == key && Mentions(fs, key))
  {
    var all := fs + [f];
    assert all[|fs|] == f && forall i :: 0 <= i < |fs| ==> all[i] == fs[i];
  }

  lemma LastMentionMore(fs: seq<(string, string)>, f: (string, string), key: string, i: nat)
    requires LastMention(fs + [f], key, i)
    ensures if f.0 == key then i == |fs| else LastMention(fs, key, i)
  {
    var all := fs + [f];
    assert all[|fs|] == f && forall j :: 0 <= j < |fs| ==> all[j] == fs[j];
  }

  /** The parser's answer: the last target of every key, and exactly the keys that occur twice. */
  lemma {:induction false} ParsedIsLast(fs: seq<(string, string)>, key: string)
    ensures key in ParsedAll(fs).rules <==> Mentions(fs, key)
    ensures forall i: nat :: LastMention(fs, key, i) ==>
              key in ParsedAll(fs).rules && ParsedAll(fs).rules[key] == fs[i].1
    ensures key in ParsedAll(fs).dups <==> MentionsTwice(fs, key)
  {
    if fs != [] {
      var front, f := fs[..|fs| - 1], fs[|fs| - 1];
      assert fs == front + [f];
      ParsedIsLast(front, key);
      MentionsMore(front, f, key);
      forall i: nat | LastMention(fs, key, i)
        ensures key in ParsedAll(fs).rules && ParsedAll(fs).rules[key] == fs[i].1
      {
        LastMentionMore(front, f, key, i);
      }
    }
  }

  // ----- Keys -----

  /** parseHostPortKey on the key of a port forward gives back its protocol and port. */
  function ParseHostPortKey(key: string): Option<(string, int)> {
    var slash := Index(key, "/");
    if slash <= 0 then None
    else
      match Atoi(key[slash + 1..])
      case Some(n) => Some((key[..slash], n))
      case None => None
  }

  lemma KeyRoundTrip(k: Key)
    requires k.hostPort <= MAX_INT
    ensures ParseHostPortKey(KeyText(k)) == Some((ProtoName(k.proto), k.hostPort))
  {
    var p, n := ProtoName(k.proto), Decimal(k.hostPort);
    NotADigit('/', k.hostPort);
    CutAtSlash(p, n);
    AtoiDecimal(k.hostPort);
  }

  lemma CutAtSlash(p: string, n: string)
    requires '/' !in p && '/' !in n
    ensures var s := p + "/" + n; Index(s, "/") == |p| && s[..|p|] == p && s[|p| + 1..] == n
  {
    OccursBetween(p, "/", n);
    UniqueCharPins(p, '/', n, "/", Index(p + "/" + n, "/"), 0);
  }

  /** The key a text stands for, if it is the key of a tcp or udp forward. */
  function KeyFromText(s: string): Option<Key> {
    match ParseHostPortKey(s)
    case None => None
    case Some((p, n)) =>
      if n < 0 then None else if p == "tcp" then Some(Key(Tcp, n)) else if p == "udp" then Some(Key(Udp, n)) else None
  }

  lemma KeyFromTextRoundTrip(k: Key)
    requires k.hostPort <= MAX_INT
    ensures KeyFromText(KeyText(k)) == Some(k)
  {
    KeyRoundTrip(k);
  }

  lemma KeyTextInjective(k1: Key, k2: Key)
    requires KeyText(k1) == KeyText(k2)
    ensures k1 == k2
  {
    var n1, n2 := Decimal(k1.hostPort), Decimal(k2.hostPort);
    assert KeyText(k1)[0] == ProtoName(k1.proto)[0] && KeyText(k2)[0] == ProtoName(k2.proto)[0];
    assert KeyText(k1)[4..] == n1 && KeyText(k2)[4..] == n2;
    DecimalInjective(k1.hostPort, k2.hostPort);
  }

  lemma TargetTextInjective(t1: Target, t2: Target)
    requires Ipv4Text(t1.ip) && Ipv4Text(t2.ip) && TargetText(t1) == TargetText(t2)
    ensures t1 == t2
  {
    var n1, n2 := Decimal(t1.port), Decimal(t2.port);
    assert forall i :: 0 <= i < |t2.ip + ":"| ==> TargetText(t2)[0 + i] == (t2.ip + ":")[i];
    assert TargetText(t1) == t1.ip + [':'] + n1;
    SameWord(t1.ip, t2.ip, ':', n1);
    assert TargetText(t1)[|t1.ip| + 1..] == n1 && TargetText(t2)[|t2.ip| + 1..] == n2;
    DecimalInjective(t1.port, t2.port);
  }
}
