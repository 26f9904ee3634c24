/** The two NAT chains that publish ports, and the operations that change and read them. */
module NatTable {
  import opened Wrappers
  import opened Seqs
  import opened Text
  import opened NatText

  // ----- Rules -----

  function Rules(es: seq<Entry>): (rs: seq<Rule>)
    ensures |rs| == |es| && forall i :: 0 <= i < |es| ==> rs[i] == es[i].rule
  {
    seq(|es|, i requires 0 <= i < |es| => es[i].rule)
  }

  /** The rules of a chain that publish a key. */
  function Of(rs: seq<Rule>, k: Key): seq<Rule> {
    Keep(rs, (r: Rule) => r.key == k)
  }

  function WithoutKey(rs: seq<Rule>, k: Key): seq<Rule> {
    Keep(rs, (r: Rule) => r.key != k)
  }

  function WithoutIp(rs: seq<Rule>, ip: string): seq<Rule> {
    Keep(rs, (r: Rule) => r.target.ip != ip)
  }

  lemma OfWithout(rs: seq<Rule>, k: Key, k': Key)
    ensures Of(WithoutKey(rs, k), k') == if k == k' then [] else Of(rs, k')
  {
    if k == k' {
      KeepKeep(rs, (r: Rule) => r.key != k, (r: Rule) => r.key == k', (r: Rule) => false);
      KeepNothing(rs, (r: Rule) => false);
    } else {
      KeepKeep(rs, (r: Rule) => r.key != k, (r: Rule) => r.key == k', (r: Rule) => r.key == k');
    }
  }

  lemma {:induction false} KeepNothing(rs: seq<Rule>, p: Rule -> bool)
    requires forall r :: !p(r)
    ensures Keep(rs, p) == []
  {
    if rs != [] {
      KeepNothing(rs[1..], p);
    }
  }

  lemma OfAppend(rs: seq<Rule>, r: Rule, k: Key)
    ensures Of(rs + [r], k) == Of(rs, k) + if r.key == k then [r] else []
  {
    KeepAppend(rs, [r], (x: Rule) => x.key == k);
  }

  /** Exactly one rule publishes the key in each chain, with this target. */
  ghost predicate Installed(pre: seq<Rule>, out: seq<Rule>, k: Key, t: Target) {
    Of(pre, k) == [Rule(k, t)] && Of(out, k) == [Rule(k, t)]
  }

  // ----- What the parser says about a chain -----

  /** The parse of a chain, seen from one key: its last target, and whether it is ambiguous. */
  ghost predicate Describes(p: Parsed, o: seq<Rule>, k: Key) {
    && (KeyText(k) in p.rules <==> o != [])
    && (o != [] ==> p.rules[KeyText(k)] == TargetText(o[|o| - 1].target))
    && (KeyText(k) in p.dups <==> |o| >= 2)
  }

  lemma DescribesMore(p: Parsed, o: seq<Rule>, k: Key, e: Entry)
    requires Describes(p, o, k)
    ensures Describes(AddForward(p, Forward(e)), o + if e.rule.key == k then [e.rule] else [], k)
  {
    if KeyText(e.rule.key) == KeyText(k) {
      KeyTextInjective(e.rule.key, k);
    }
  }

  lemma ParsedMore(es: seq<Entry>, e: Entry)
    ensures ParsedAll(Forwards(es + [e])) == AddForward(ParsedAll(Forwards(es)), Forward(e))
  {
    assert Forwards(es + [e]) == Forwards(es) + [Forward(e)];
    assert Forwards(es + [e])[..|es|] == Forwards(es);
  }

  lemma OfRulesMore(es: seq<Entry>, e: Entry, k: Key)
    ensures Of(Rules(es + [e]), k) == Of(Rules(es), k) + if e.rule.key == k then [e.rule] else []
  {
    assert Rules(es + [e]) == Rules(es) + [e.rule];
    OfAppend(Rules(es), e.rule, k);
  }

  /** parseDNATChain describes every key of a chain: last target, exactly the duplicated keys. */
  lemma {:induction false} ParsedOf(es: seq<Entry>, k: Key)
    ensures Describes(ParsedAll(Forwards(es)), Of(Rules(es), k), k)
  {
    if es != [] {
      var front, e := es[..|es| - 1], es[|es| - 1];
      ParsedOf(front, k);
      assert es == front + [e];
      ParsedMore(front, e);
      OfRulesMore(front, e, k);
      DescribesMore(ParsedAll(Forwards(front)), Of(Rules(front), k), k, e);
    }
  }

  lemma {:induction false} ParsedKeysAreRules(es: seq<Entry>, s: string)
    requires s in ParsedAll(Forwards(es)).rules
    ensures exists i :: 0 <= i < |es| && s == KeyText(es[i].rule.key)
  {
    var n := |es| - 1;
    assert Forwards(es)[..n] == Forwards(es[..n]);
    if s != KeyText(es[n].rule.key) {
      ParsedKeysAreRules(es[..n], s);
    }
  }

  lemma OfMember(rs: seq<Rule>, i: nat)
    requires i < |rs|
    ensures Of(rs, rs[i].key) != []
  {
    KeepMember(rs, (r: Rule) => r.key == rs[i].key, rs[i]);
  }

  // ----- Deleting by handle -----

  ghost predicate UniqueHandles(es: seq<Entry>) {
    forall i, j :: 0 <= i < j < |es| ==> es[i].handle != es[j].handle
  }

  function Spared(hs: seq<string>): Entry -> bool {
    (e: Entry) => Decimal(e.handle) !in hs
  }

  method DeleteHandles(es: seq<Entry>, hs: seq<string>) returns (left: seq<Entry>)
    ensures left == Keep(es, Spared(hs))
  {
    left := es;
    KeepAll(es, Spared([]));
    for k := 0 to |hs|
      invariant left == Keep(es, Spared(hs[..k]))
    {
      assert hs[..k + 1] == hs[..k] + [hs[k]];
      KeepKeep(es, Spared(hs[..k]), Spared([hs[k]]), Spared(hs[..k + 1]));
      left := Keep(left, Spared([hs[k]]));
    }
    assert hs[..|hs|] == hs;
  }

  lemma {:induction false} CollectedHandle(es: seq<Entry>, p: Rule -> bool, h: string)
    ensures h in Collect(es, PrintedHandle(p)) <==>
            exists i :: 0 <= i < |es| && p(es[i].rule) && Decimal(es[i].handle) == h
  {
    if es != [] {
      CollectedHandle(es[1..], p, h);
      assert forall i :: 1 <= i < |es| ==> es[i] == es[1..][i - 1];
    }
  }

  /** With unique handles, deleting the handles of the matching rules deletes exactly those rules. */
  lemma DeletedExactly(es: seq<Entry>, p: Rule -> bool)
    requires UniqueHandles(es)
    ensures Keep(es, Spared(Collect(es, PrintedHandle(p)))) == Keep(es, (e: Entry) => !p(e.rule))
  {
    var hs := Collect(es, PrintedHandle(p));
    forall i | 0 <= i < |es|
      ensures Spared(hs)(es[i]) <==> !p(es[i].rule)
    {
      CollectedHandle(es, p, Decimal(es[i].handle));
      if Decimal(es[i].handle) in hs {
        var j :| 0 <= j < |es| && p(es[j].rule) && Decimal(es[j].handle) == Decimal(es[i].handle);
        DecimalInjective(es[j].handle, es[i].handle);
      }
    }
    KeepSame(es, Spared(hs), (e: Entry) => !p(e.rule));
  }

  lemma {:induction false} RulesKeep(es: seq<Entry>, p: Rule -> bool)
    ensures Rules(Keep(es, (e: Entry) => p(e.rule))) == Keep(Rules(es), p)
  {
    var q := (e: Entry) => p(e.rule);
    if es != [] {
      RulesKeep(es[1..], p);
      assert Rules(es)[1..] == Rules(es[1..]);
      if p(es[0].rule) {
        assert Keep(es, q) == [es[0]] + Keep(es[1..], q);
        assert Rules(Keep(es, q)) == [es[0].rule] + Rules(Keep(es[1..], q));
      } else {
        assert Keep(es, q) == Keep(es[1..], q);
      }
    }
  }

  ghost predicate ChainValid(es: seq<Entry>, next: nat) {
    WellFormed(es) && UniqueHandles(es) && forall i :: 0 <= i < |es| ==> es[i].handle < next
  }

  lemma ChainValidKeep(es: seq<Entry>, next: nat, p: Entry -> bool)
    requires ChainValid(es, next)
    ensures ChainValid(Keep(es, p), next)
  {
    UniqueKeep(es, p);
    var kept := Keep(es, p);
    forall i | 0 <= i < |kept|
      ensures WellFormedRule(kept[i].rule) && kept[i].handle < next
    {
      KeepMember(es, p, kept[i]);
    }
  }

  lemma {:induction false} UniqueKeep(es: seq<Entry>, p: Entry -> bool)
    requires UniqueHandles(es)
    ensures UniqueHandles(Keep(es, p))
  {
    if es != [] {
      var rest := Keep(es[1..], p);
      UniqueKeep(es[1..], p);
      forall j | 0 <= j < |rest|
        ensures rest[j].handle != es[0].handle
      {
        KeepMember(es[1..], p, rest[j]);
        var m :| 0 <= m < |es[1..]| && es[1..][m] == rest[j];
        assert es[m + 1] == rest[j];
      }
      if p(es[0]) {
        assert Keep(es, p) == [es[0]] + rest;
      } else {
        assert Keep(es, p) == rest;
      }
    }
  }

  // ----- The table -----

  class Table {
    const header: seq<string>
    const footer: seq<string>
    const reliable: bool  // nft accepts every rule
    var pre: seq<Entry>
    var out: seq<Entry>
    var nextHandle: nat

    ghost predicate Valid()
      reads this
    {
      && NoiseLines(header) && NoiseLines(footer) && header + footer != []
      && ChainValid(pre, nextHandle) && ChainValid(out, nextHandle)
    }

    constructor (header: seq<string>, footer: seq<string>, reliable: bool)
      requires NoiseLines(header) && NoiseLines(footer) && header + footer != []
      ensures Valid() && pre == [] && out == [] && this.reliable == reliable
    {
      this.header, this.footer, this.reliable := header, footer, reliable;
      pre, out, nextHandle := [], [], 0;
    }

    /** deleteMatchingNATRules on one chain: list it, extract the handles, delete them. */
    method DeleteInChain(es: seq<Entry>, match_: string -> bool, ghost p: Rule -> bool) returns (left: seq<Entry>)
      requires Valid() && ChainValid(es, nextHandle)
      requires forall i :: 0 <= i < |es| ==> (match_(Line(es[i])) <==> p(es[i].rule))
      requires forall s :: NoiseLine(s) ==> !match_(s)
      ensures left == Keep(es, (e: Entry) => !p(e.rule)) && ChainValid(left, nextHandle)
      ensures Rules(left) == Keep(Rules(es), (r: Rule) => !p(r))
    {
      var handles := NatHandlesToDelete(Listing(header, es, footer), match_);
      HandlesExact(header, es, footer, match_, p);
      left := DeleteHandles(es, handles);
      DeletedExactly(es, p);
      ChainValidKeep(es, nextHandle, Spared(handles));
      RulesDropped(es, p);
    }

    /** removePortForwardsForHostPort: both chains lose every rule of the key and nothing else. */
    method RemovePortForwardForHostPort(key: Key)
      requires Valid()
      modifies this`pre, this`out
      ensures Valid()
      ensures Rules(pre) == WithoutKey(Rules(old(pre)), key) && Rules(out) == WithoutKey(Rules(old(out)), key)
    {
      var match_ := (line: string) => LineMatchesHostPort(line, key);
      ghost var p := (r: Rule) => r.key == key;
      forall i | 0 <= i < |pre| ensures match_(Line(pre[i])) <==> p(pre[i].rule) { HostPortMatchExact(pre[i], key); }
      forall i | 0 <= i < |out| ensures match_(Line(out[i])) <==> p(out[i].rule) { HostPortMatchExact(out[i], key); }
      forall s | NoiseLine(s) ensures !match_(s) { NoiseNeverMatches(s, key, ""); }
      var pre' := DeleteInChain(pre, match_, p);
      var out' := DeleteInChain(out, match_, p);
      KeepSame(Rules(pre), (r: Rule) => !p(r), (r: Rule) => r.key != key);
      KeepSame(Rules(out), (r: Rule) => !p(r), (r: Rule) => r.key != key);
      pre, out := pre', out';
    }

    /** RemovePortForwards: both chains lose every rule that targets the address. */
    method RemovePortForwards(ip: string)
      requires Valid() && Ipv4Text(ip)
      modifies this`pre, this`out
      ensures Valid()
      ensures Rules(pre) == WithoutIp(Rules(old(pre)), ip) && Rules(out) == WithoutIp(Rules(old(out)), ip)
    {
      var match_ := (line: string) => LineMatchesIp(line, ip);
      ghost var p := (r: Rule) => r.target.ip == ip;
      forall i | 0 <= i < |pre| ensures match_(Line(pre[i])) <==> p(pre[i].rule) { IpMatchExact(pre[i], ip); }
      forall i | 0 <= i < |out| ensures match_(Line(out[i])) <==> p(out[i].rule) { IpMatchExact(out[i], ip); }
      forall s | NoiseLine(s) ensures !match_(s) { NoiseNeverMatches(s, Key(Tcp, 0), ip); }
      var pre' := DeleteInChain(pre, match_, p);
      var out' := DeleteInChain(out, match_, p);
      KeepSame(Rules(pre), (r: Rule) => !p(r), (r: Rule) => r.target.ip != ip);
      KeepSame(Rules(out), (r: Rule) => !p(r), (r: Rule) => r.target.ip != ip);
      pre, out := pre', out';
    }

    /** AddPortForward: evict every rule of the key, then append the new one to both chains. The
        insertion may fail; then the key is left unpublished. */
    method AddPortForward(r: Rule) returns (ok: bool)
      requires Valid() && WellFormedRule(r)
      modifies this
      ensures Valid() && (reliable ==> ok)
      ensures Rules(pre) == WithoutKey(Rules(old(pre)), r.key) + if ok then [r] else []
      ensures Rules(out) == WithoutKey(Rules(old(out)), r.key) + if ok then [r] else []
    {
      RemovePortForwardForHostPort(r.key);
      ok := true;
      if !reliable {
        ok := *;
      }
      if ok {
        pre := pre + [Entry(r, nextHandle)];
        out := out + [Entry(r, nextHandle + 1)];
        nextHandle := nextHandle + 2;
      }
    }

    /** CurrentPortForwards: the keys installed once in each chain, with one target. */
    method CurrentPortForwards() returns (merged: map<string, string>)
      requires Valid()
      ensures forall k, t: Target :: Ipv4Text(t.ip) ==>
                (KeyText(k) in merged && merged[KeyText(k)] == TargetText(t) <==>
                 Installed(Rules(pre), Rules(out), k, t))
    {
      var a := ParseDnatChain(BareListing(header, pre, footer));
      var b := ParseDnatChain(BareListing(header, out, footer));
      ParseReadsRules(header, pre, footer);
      ParseReadsRules(header, out, footer);
      merged := MergeForwards(a, b);
      forall k, t: Target | Ipv4Text(t.ip)
        ensures KeyText(k) in merged && merged[KeyText(k)] == TargetText(t) <==> Installed(Rules(pre), Rules(out), k, t)
      {
        MergedIsInstalled(pre, out, k, t);
      }
    }

    /** PublishedHostPorts: the keys with any rule in either chain. */
    method PublishedHostPorts() returns (present: set<Key>)
      requires Valid()
      ensures forall k :: k in present <==> Of(Rules(pre), k) != [] || Of(Rules(out), k) != []
    {
      var a := ParseDnatChain(BareListing(header, pre, footer));
      var b := ParseDnatChain(BareListing(header, out, footer));
      ParseReadsRules(header, pre, footer);
      ParseReadsRules(header, out, footer);
      present := Decoded(a.rules.Keys + b.rules.Keys);
      forall k
        ensures k in present <==> Of(Rules(pre), k) != [] || Of(Rules(out), k) != []
      {
        DecodedIsPublished(pre, out, k);
      }
    }
  }

  lemma RulesDropped(es: seq<Entry>, p: Rule -> bool)
    ensures Rules(Keep(es, (e: Entry) => !p(e.rule))) == Keep(Rules(es), (r: Rule) => !p(r))
  {
    var q := (r: Rule) => !p(r);
    RulesKeep(es, q);
    KeepSame(es, (e: Entry) => q(e.rule), (e: Entry) => !p(e.rule));
  }

  /** The merge of CurrentPortForwards. */
  function MergeForwards(a: Parsed, b: Parsed): map<string, string> {
    map k | k in a.rules && k !in a.dups && k !in b.dups && k in b.rules && b.rules[k] == a.rules[k] :: a.rules[k]
  }

  lemma SingletonOf(rs: seq<Rule>, k: Key)
    requires |Of(rs, k)| == 1
    ensures Of(rs, k)[0].key == k && Of(rs, k)[0] in rs
  {
    KeepMember(rs, (r: Rule) => r.key == k, Of(rs, k)[0]);
  }

  lemma MergedIsInstalled(pre: seq<Entry>, out: seq<Entry>, k: Key, t: Target)
    requires WellFormed(pre) && WellFormed(out) && Ipv4Text(t.ip)
    ensures var m := MergeForwards(ParsedAll(Forwards(pre)), ParsedAll(Forwards(out)));
            KeyText(k) in m && m[KeyText(k)] == TargetText(t) <==> Installed(Rules(pre), Rules(out), k, t)
  {
    ParsedOf(pre, k);
    ParsedOf(out, k);
    var m := MergeForwards(ParsedAll(Forwards(pre)), ParsedAll(Forwards(out)));
    if KeyText(k) in m && m[KeyText(k)] == TargetText(t) {
      OnlyTarget(pre, k, t);
      OnlyTarget(out, k, t);
    }
  }

  lemma OnlyTarget(es: seq<Entry>, k: Key, t: Target)
    requires WellFormed(es) && Ipv4Text(t.ip) && |Of(Rules(es), k)| == 1
    requires TargetText(Of(Rules(es), k)[0].target) == TargetText(t)
    ensures Of(Rules(es), k) == [Rule(k, t)]
  {
    SingletonOf(Rules(es), k);
    TargetTextInjective(Of(Rules(es), k)[0].target, t);
  }

  function Decoded(texts: set<string>): set<Key> {
    set s | s in texts && KeyFromText(s).Some? :: KeyFromText(s).value
  }

  lemma DecodedIsPublished(pre: seq<Entry>, out: seq<Entry>, k: Key)
    requires WellFormed(pre) && WellFormed(out)
    ensures k in Decoded(ParsedAll(Forwards(pre)).rules.Keys + ParsedAll(Forwards(out)).rules.Keys)
        <==> Of(Rules(pre), k) != [] || Of(Rules(out), k) != []
  {
    var a, b := ParsedAll(Forwards(pre)).rules.Keys, ParsedAll(Forwards(out)).rules.Keys;
    if k in Decoded(a + b) {
      var s :| s in a + b && KeyFromText(s) == Some(k);
      if s in a {
        TextIsPublished(pre, s, k);
      } else {
        TextIsPublished(out, s, k);
      }
    }
    if Of(Rules(pre), k) != [] {
      PublishedText(pre, k);
    }
    if Of(Rules(out), k) != [] {
      PublishedText(out, k);
    }
  }

  lemma TextIsPublished(es: seq<Entry>, s: string, k: Key)
    requires WellFormed(es) && s in ParsedAll(Forwards(es)).rules && KeyFromText(s) == Some(k)
    ensures Of(Rules(es), k) != []
  {
    ParsedKeysAreRules(es, s);
    var i :| 0 <= i < |es| && s == KeyText(es[i].rule.key);
    KeyFromTextRoundTrip(es[i].rule.key);
    OfMember(Rules(es), i);
  }

  lemma PublishedText(es: seq<Entry>, k: Key)
    requires WellFormed(es) && Of(Rules(es), k) != []
    ensures KeyText(k) in ParsedAll(Forwards(es)).rules && KeyFromText(KeyText(k)) == Some(k)
  {
    ParsedOf(es, k);
    var r := Of(Rules(es), k)[0];
    KeepMember(Rules(es), (x: Rule) => x.key == k, r);
    KeyFromTextRoundTrip(k);
  }

  // ----- Runs -----

  datatype TableOp = Add(rule: Rule) | DropIp(ip: string) | DropKey(key: Key)

  function Apply(rs: seq<Rule>, op: TableOp): seq<Rule> {
    match op
    case Add(r) => WithoutKey(rs, r.key) + [r]
    case DropIp(ip) => WithoutIp(rs, ip)
    case DropKey(k) => WithoutKey(rs, k)
  }

  /** Both chains after a run from empty chains. */
  function Run(ops: seq<TableOp>): seq<Rule> {
    if ops == [] then [] else Apply(Run(ops[..|ops| - 1]), ops[|ops| - 1])
  }

  predicate Displaces(op: TableOp, r: Rule) {
    match op
    case Add(r') => r'.key == r.key
    case DropIp(ip) => ip == r.target.ip
    case DropKey(k) => k == r.key
  }

  /** The latest add of the rule, with nothing after it that displaces it. */
  ghost predicate LatestAdd(ops: seq<TableOp>, i: nat, r: Rule) {
    i < |ops| && ops[i] == Add(r) && forall j :: i < j < |ops| ==> !Displaces(ops[j], r)
  }

  /** After any run a rule stands exactly when its add was not displaced since. */
  lemma {:induction false} RunHoldsLatest(ops: seq<TableOp>, r: Rule)
    ensures r in Run(ops) <==> exists i :: LatestAdd(ops, i, r)
  {
    if ops == [] {
      return;
    }
    var n := |ops| - 1;
    RunHoldsLatest(ops[..n], r);
    ApplyMember(Run(ops[..n]), ops[n], r);
    LatestAddStep(ops, r);
  }

  lemma LatestAddStep(ops: seq<TableOp>, r: Rule)
    requires ops != []
    ensures var n := |ops| - 1;
            (exists i :: LatestAdd(ops, i, r)) <==>
            ops[n] == Add(r) || ((exists i :: LatestAdd(ops[..n], i, r)) && !Displaces(ops[n], r))
  {
    var n := |ops| - 1;
    if i: nat :| LatestAdd(ops, i, r) {
      assert i == n || LatestAdd(ops[..n], i, r);
    }
    if ops[n] == Add(r) {
      assert LatestAdd(ops, n, r);
    } else if i: nat :| LatestAdd(ops[..n], i, r) && !Displaces(ops[n], r) {
      assert ops[i] == ops[..n][i];
      assert forall j :: i < j < n ==> ops[j] == ops[..n][j];
      assert LatestAdd(ops, i, r);
    }
  }

  lemma ApplyMember(rs: seq<Rule>, op: TableOp, r: Rule)
    ensures r in Apply(rs, op) <==> op == Add(r) || (r in rs && !Displaces(op, r))
  {
    match op
    case Add(a) => KeepMember(rs, (x: Rule) => x.key != a.key, r);
    case DropIp(ip) => KeepMember(rs, (x: Rule) => x.target.ip != ip, r);
    case DropKey(k) => KeepMember(rs, (x: Rule) => x.key != k, r);
  }

  /** After any run every key has at most one rule, so CurrentPortForwards reports every rule. */
  lemma {:induction false} RunIsUnambiguous(ops: seq<TableOp>, k: Key)
    ensures |Of(Run(ops), k)| <= 1
    ensures forall r :: r in Run(ops) ==> Installed(Run(ops), Run(ops), r.key, r.target)
  {
    RunSinglePerKey(ops, k);
    forall r | r in Run(ops)
      ensures Installed(Run(ops), Run(ops), r.key, r.target)
    {
      RunSinglePerKey(ops, r.key);
      KeepMember(Run(ops), (x: Rule) => x.key == r.key, r);
    }
  }

  lemma {:induction false} RunSinglePerKey(ops: seq<TableOp>, k: Key)
    ensures |Of(Run(ops), k)| <= 1
  {
    if ops == [] {
      return;
    }
    var n := |ops| - 1;
    var before, op := Run(ops[..n]), ops[n];
    RunSinglePerKey(ops[..n], k);
    match op
    case Add(r) =>
      OfWithout(before, r.key, k);
      OfAppend(WithoutKey(before, r.key), r, k);
    case DropIp(ip) =>
      KeepCommute(before, (x: Rule) => x.target.ip != ip, (x: Rule) => x.key == k);
    case DropKey(k') => OfWithout(before, k', k);
  }

  lemma KeepCommute(rs: seq<Rule>, p: Rule -> bool, q: Rule -> bool)
    ensures Keep(Keep(rs, p), q) == Keep(Keep(rs, q), p)
  {
    KeepKeep(rs, p, q, (x: Rule) => p(x) && q(x));
    KeepKeep(rs, q, p, (x: Rule) => p(x) && q(x));
  }

  /** One operation on the table: the effect on each chain, a failed add counting as a removal. */
  method Perform(t: Table, op: TableOp) returns (done: TableOp)
    requires t.Valid() && Sound(op)
    modifies t
    ensures t.Valid()
    ensures Rules(t.pre) == Apply(Rules(old(t.pre)), done) && Rules(t.out) == Apply(Rules(old(t.out)), done)
    ensures DoneAs(done, op, t.reliable)
  {
    done := op;
    match op {
      case Add(r) =>
        var ok := t.AddPortForward(r);
        if !ok {
          assert WithoutKey(Rules(old(t.pre)), r.key) + [] == WithoutKey(Rules(old(t.pre)), r.key);
          assert WithoutKey(Rules(old(t.out)), r.key) + [] == WithoutKey(Rules(old(t.out)), r.key);
          done := DropKey(r.key);
        }
      case DropIp(ip) => t.RemovePortForwards(ip);
      case DropKey(key) => t.RemovePortForwardForHostPort(key);
    }
  }

  /** What was done is what was asked, except that an add nft refused only evicted. */
  predicate DoneAs(done: TableOp, op: TableOp, reliable: bool) {
    done == op || (!reliable && op.Add? && done == DropKey(op.rule.key))
  }

  predicate Sound(op: TableOp) {
    (op.Add? ==> WellFormedRule(op.rule)) && (op.DropIp? ==> Ipv4Text(op.ip))
  }

  lemma RunNext(ops: seq<TableOp>, op: TableOp)
    ensures Run(ops + [op]) == Apply(Run(ops), op)
  {
    assert (ops + [op])[..|ops|] == ops;
  }

  /** A run on the table itself: both chains hold the same rules, those of the run of what was done. */
  method Replay(header: seq<string>, footer: seq<string>, reliable: bool, ops: seq<TableOp>)
    returns (t: Table, done: seq<TableOp>)
    requires NoiseLines(header) && NoiseLines(footer) && header + footer != []
    requires forall i :: 0 <= i < |ops| ==> Sound(ops[i])
    ensures t.Valid() && Rules(t.pre) == Run(done) && Rules(t.out) == Run(done)
    ensures |done| == |ops| && forall i :: 0 <= i < |ops| ==> DoneAs(done[i], ops[i], reliable)
  {
    t := new Table(header, footer, reliable);
    done := [];
    for k := 0 to |ops|
      invariant fresh(t) && t.reliable == reliable && t.Valid() && Rules(t.pre) == Run(done)
      invariant Rules(t.out) == Run(done)
      invariant |done| == k && forall i :: 0 <= i < k ==> DoneAs(done[i], ops[i], reliable)
    {
      var op := Perform(t, ops[k]);
      RunNext(done, op);
      done := done + [op];
    }
  }
}
