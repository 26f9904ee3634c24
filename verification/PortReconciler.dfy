/** The periodic reconciler of published ports: it heals what running containers claim and
    prunes, after two strikes, what nobody claims. */
module PortReconciler {
  import opened Wrappers
  import opened Seqs
  import opened Text
  import opened NatText
  import opened NatTable

  // ----- Container records -----

  /** A port binding; a missing protocol means tcp. */
  datatype Binding = Binding(proto: Option<Proto>, hostPort: nat, containerPort: nat)
  /** What State() answered: live (running or paused), not live, or an error. */
  datatype Probe = Live | NotLive | Unreadable
  datatype Record = Record(ip: string, bindings: seq<Binding>, probe: Probe)

  /** A host port wanted by a container; healed only if the container's state was read. */
  datatype Claim = Claim(key: Key, target: Target, readable: bool)

  function ClaimOf(rec: Record, b: Binding): Claim {
    var key := Key(if b.proto.Some? then b.proto.value else Tcp, b.hostPort);
    Claim(key, Target(rec.ip, b.containerPort), rec.probe.Live?)
  }

  function RecordClaims(rec: Record): seq<Claim> {
    if rec.ip == "" || rec.probe.NotLive? then []
    else seq(|rec.bindings|, i requires 0 <= i < |rec.bindings| => ClaimOf(rec, rec.bindings[i]))
  }

  /** The claims in the order the reconciler visits them. */
  function Claims(recs: seq<Record>): seq<Claim> {
    if recs == [] then [] else RecordClaims(recs[0]) + Claims(recs[1..])
  }

  predicate WellFormedClaims(cs: seq<Claim>) {
    forall i :: 0 <= i < |cs| ==> WellFormedRule(Rule(cs[i].key, cs[i].target))
  }

  // ----- The meaning of a tick, key by key -----

  /** The target of the first claim of a key. */
  ghost function First(cs: seq<Claim>, k: Key): Option<Target> {
    if cs == [] then None
    else
      var n := |cs| - 1;
      if First(cs[..n], k).Some? then First(cs[..n], k)
      else if cs[n].key == k then Some(cs[n].target) else None
  }

  /** Some claim of the key wants another target than the first. */
  ghost predicate Clash(cs: seq<Claim>, k: Key) {
    cs != [] &&
    var n := |cs| - 1;
    Clash(cs[..n], k) || (cs[n].key == k && First(cs[..n], k).Some? && First(cs[..n], k) != Some(cs[n].target))
  }

  /** The last claim of cs makes the reconciler re-apply its forward. */
  ghost predicate HealsNow(pre: seq<Rule>, out: seq<Rule>, cs: seq<Claim>)
    requires cs != []
  {
    var n := |cs| - 1;
    var k, t := cs[n].key, cs[n].target;
    && (First(cs[..n], k).None? || First(cs[..n], k) == Some(t))
    && !Clash(cs[..n], k) && cs[n].readable && !Installed(pre, out, k, t)
  }

  /** Some claim of the key makes the reconciler re-apply its forward. */
  ghost predicate Heals(pre: seq<Rule>, out: seq<Rule>, cs: seq<Claim>, k: Key) {
    cs != [] && (Heals(pre, out, cs[..|cs| - 1], k) || (cs[|cs| - 1].key == k && HealsNow(pre, out, cs)))
  }

  ghost function Claimed(cs: seq<Claim>): set<Key> {
    set i | 0 <= i < |cs| :: cs[i].key
  }

  lemma {:induction false} FirstIsClaimed(cs: seq<Claim>, k: Key)
    ensures First(cs, k).Some? <==> k in Claimed(cs)
    ensures First(cs, k).Some? ==> exists i :: 0 <= i < |cs| && cs[i].key == k && cs[i].target == First(cs, k).value
  {
    if cs != [] {
      FirstIsClaimed(cs[..|cs| - 1], k);
      ClaimedStep(cs);
    }
  }

  lemma ClaimedStep(cs: seq<Claim>)
    requires cs != []
    ensures Claimed(cs) == Claimed(cs[..|cs| - 1]) + {cs[|cs| - 1].key}
  {
    var n := |cs| - 1;
    assert forall i :: 0 <= i < n ==> cs[..n][i] == cs[i];
  }

  lemma {:induction false} HealedIsClaimed(pre: seq<Rule>, out: seq<Rule>, cs: seq<Claim>, k: Key)
    requires Heals(pre, out, cs, k)
    ensures First(cs, k).Some?
  {
    var n := |cs| - 1;
    if Heals(pre, out, cs[..n], k) {
      HealedIsClaimed(pre, out, cs[..n], k);
    }
  }

  const PRUNE_STRIKES := 2

  function StrikesOf(strikes: map<Key, nat>, k: Key): nat {
    if k in strikes then strikes[k] else 0
  }

  function NextStrikes(strikes: map<Key, nat>, orphans: set<Key>): map<Key, nat> {
    map k | k in orphans && StrikesOf(strikes, k) + 1 < PRUNE_STRIKES :: StrikesOf(strikes, k) + 1
  }

  function Pruned(strikes: map<Key, nat>, orphans: set<Key>): set<Key> {
    set k | k in orphans && StrikesOf(strikes, k) + 1 >= PRUNE_STRIKES
  }

  /** What one chain holds for a key after a tick. */
  ghost function KeyAfter(pre: seq<Rule>, out: seq<Rule>, cs: seq<Claim>, pruned: set<Key>, own: seq<Rule>, k: Key)
    : seq<Rule>
  {
    if k in pruned then []
    else if Heals(pre, out, cs, k) && First(cs, k).Some? then [Rule(k, First(cs, k).value)]
    else own
  }

  ghost predicate Published(pre: seq<Rule>, out: seq<Rule>, k: Key) {
    Of(pre, k) != [] || Of(out, k) != []
  }

  /** The nft state as read says of every forward whether it is installed. */
  ghost predicate Reports(current: map<string, string>, pre: seq<Rule>, out: seq<Rule>) {
    forall k, t: Target {:trigger ReportsAt(current, pre, out, k, t)} ::
      Ipv4Text(t.ip) ==> ReportsAt(current, pre, out, k, t)
  }

  ghost predicate ReportsAt(current: map<string, string>, pre: seq<Rule>, out: seq<Rule>, k: Key, t: Target) {
    KeyText(k) in current && current[KeyText(k)] == TargetText(t) <==> Installed(pre, out, k, t)
  }

  // ----- The reconciler -----

  /** What a completed tick saw. */
  datatype Sighting = Sighting(present: set<Key>, desired: set<Key>)

  ghost function StrikesAfter(seen: seq<Sighting>): map<Key, nat> {
    if seen == [] then map[]
    else
      var last := seen[|seen| - 1];
      NextStrikes(StrikesAfter(seen[..|seen| - 1]), last.present - last.desired)
  }

  class Reconciler {
    const table: Table
    var strikes: map<Key, nat>
    ghost var seen: seq<Sighting>

    ghost predicate Valid()
      reads this, table
    {
      table.Valid() && strikes == StrikesAfter(seen)
    }

    constructor (table: Table)
      requires table.Valid()
      ensures Valid() && this.table == table && seen == []
    {
      this.table, strikes, seen := table, map[], [];
    }

    /** One claim of the first pass: note a conflict, or re-apply the forward unless it is right. */
    method Visit(ghost cs: seq<Claim>, c: Claim, current: map<string, string>, wantBy: map<Key, Target>,
                 conflicted: set<Key>,
                 ghost pre0: seq<Rule>, ghost out0: seq<Rule>, ok: bool)
      returns (wantBy': map<Key, Target>, conflicted': set<Key>, ok': bool, acted: bool)
      requires table.Valid() && WellFormedRule(Rule(c.key, c.target))
      requires cs != [] && cs[|cs| - 1] == c && Tracks(wantBy, conflicted, cs[..|cs| - 1])
      requires Reports(current, pre0, out0)
      requires Healed(pre0, out0, Rules(table.pre), Rules(table.out), cs[..|cs| - 1], ok)
      modifies table
      ensures table.Valid() && Tracks(wantBy', conflicted', cs)
      ensures Healed(pre0, out0, Rules(table.pre), Rules(table.out), cs, ok')
      ensures acted == HealsNow(pre0, out0, cs) && (table.reliable ==> ok' == ok)
      ensures !acted ==> ok' == ok && table.pre == old(table.pre) && table.out == old(table.out)
    {
      TracksStep(wantBy, conflicted, cs);
      assert ReportsAt(current, pre0, out0, c.key, c.target);
      wantBy', conflicted', ok', acted := wantBy, conflicted, ok, false;
      if c.key in wantBy && wantBy[c.key] != c.target {
        conflicted' := conflicted + {c.key};
      } else {
        wantBy' := wantBy[c.key := c.target];
        var correct := KeyText(c.key) in current && current[KeyText(c.key)] == TargetText(c.target);
        if c.key !in conflicted && c.readable && !correct {
          var added := table.AddPortForward(Rule(c.key, c.target));
          ok', acted := ok && added, true;
          HealedOne(pre0, out0, Rules(old(table.pre)), Rules(old(table.out)), Rules(table.pre), Rules(table.out),
                    cs, ok, added);
        }
      }
      if !acted {
        HealedNothing(pre0, out0, Rules(table.pre), Rules(table.out), cs, ok);
      }
    }

    /** One claim of the first pass, with the desired set. */
    method VisitNext(cs: seq<Claim>, n: nat, current: map<string, string>, desired: set<Key>, wantBy: map<Key, Target>,
                     conflicted: set<Key>, ghost pre0: seq<Rule>, ghost out0: seq<Rule>, ok: bool)
      returns (desired': set<Key>, wantBy': map<Key, Target>, conflicted': set<Key>, ok': bool, acted: bool)
      requires table.Valid() && n < |cs| && WellFormedClaims(cs) && Reports(current, pre0, out0)
      requires Passed(cs[..n], pre0, out0, Rules(table.pre), Rules(table.out), desired, wantBy, conflicted, ok)
      modifies table
      ensures table.Valid() && (table.reliable ==> ok' == ok)
      ensures Passed(cs[..n + 1], pre0, out0, Rules(table.pre), Rules(table.out), desired', wantBy', conflicted', ok')
      ensures acted <==> HealsNow(pre0, out0, cs[..n + 1])
      ensures !acted ==> ok' == ok && table.pre == old(table.pre) && table.out == old(table.out)
    {
      ghost var sofar := cs[..n + 1];
      assert sofar[..n] == cs[..n] && sofar[n] == cs[n];
      ClaimedStep(sofar);
      desired' := desired + {cs[n].key};
      wantBy', conflicted', ok', acted := Visit(sofar, cs[n], current, wantBy, conflicted, pre0, out0, ok);
    }

    /** First pass: collect the desired keys and re-apply what is missing or wrong. */
    method Heal(cs: seq<Claim>, current: map<string, string>) returns (desired: set<Key>, ok: bool, adds: nat)
      requires table.Valid() && WellFormedClaims(cs)
      requires Reports(current, Rules(table.pre), Rules(table.out))
      modifies table
      ensures table.Valid() && desired == Claimed(cs) && (table.reliable ==> ok)
      ensures Healed(Rules(old(table.pre)), Rules(old(table.out)), Rules(table.pre), Rules(table.out), cs, ok)
      ensures adds > 0 <==> AnyHeals(Rules(old(table.pre)), Rules(old(table.out)), cs)
      ensures adds == 0 ==> ok && table.pre == old(table.pre) && table.out == old(table.out)
    {
      ghost var pre0, out0 := Rules(table.pre), Rules(table.out);
      desired, ok, adds := {}, true, 0;
      var wantBy: map<Key, Target>, conflicted: set<Key> := map[], {};
      assert cs[..0] == [];
      for n := 0 to |cs|
        invariant table.Valid() && (table.reliable ==> ok)
        invariant Passed(cs[..n], pre0, out0, Rules(table.pre), Rules(table.out), desired, wantBy, conflicted, ok)
        invariant adds > 0 <==> AnyHeals(pre0, out0, cs[..n])
        invariant adds == 0 ==> ok && table.pre == old(table.pre) && table.out == old(table.out)
      {
        var acted;
        desired, wantBy, conflicted, ok, acted :=
          VisitNext(cs, n, current, desired, wantBy, conflicted, pre0, out0, ok);
        AnyHealsGrows(pre0, out0, cs, n);
        if acted {
          adds := adds + 1;
        }
      }
      assert cs[..|cs|] == cs;
    }

    /** One orphan of the second pass: a strike, or the prune. */
    method Strike(key: Key, ghost strikes0: map<Key, nat>, ghost orphans: set<Key>, ghost todo: set<Key>,
                  ghost pre0: seq<Rule>, ghost out0: seq<Rule>)
      returns (pruned: bool)
      requires table.Valid() && key in todo && todo <= orphans && Counted(strikes0, strikes, orphans, todo)
      requires Dropped(pre0, Rules(table.pre), Pruned(strikes0, orphans) - todo)
      requires Dropped(out0, Rules(table.out), Pruned(strikes0, orphans) - todo)
      modifies this`strikes, table
      ensures table.Valid() && Counted(strikes0, strikes, orphans, todo - {key})
      ensures pruned <==> key in Pruned(strikes0, orphans)
      ensures Dropped(pre0, Rules(table.pre), Pruned(strikes0, orphans) - (todo - {key}))
      ensures Dropped(out0, Rules(table.out), Pruned(strikes0, orphans) - (todo - {key}))
      ensures !pruned ==> table.pre == old(table.pre) && table.out == old(table.out)
    {
      ghost var gone := Pruned(strikes0, orphans) - todo;
      var count := StrikesOf(strikes, key) + 1;
      pruned := count >= PRUNE_STRIKES;
      StrikeCounts(strikes0, strikes, orphans, todo, key);
      OneLess(Pruned(strikes0, orphans), todo, key);
      if pruned {
        DroppedOne(pre0, Rules(table.pre), gone, key);
        DroppedOne(out0, Rules(table.out), gone, key);
        table.RemovePortForwardForHostPort(key);
        strikes := strikes - {key};
      } else {
        strikes := strikes[key := count];
      }
    }

    /** Second pass: count strikes against published keys nobody claims; prune at the second. */
    method Prune(present: set<Key>, desired: set<Key>) returns (removes: nat)
      requires table.Valid()
      modifies this`strikes, table
      ensures table.Valid() && strikes == NextStrikes(old(strikes), present - desired)
      ensures Dropped(Rules(old(table.pre)), Rules(table.pre), Pruned(old(strikes), present - desired))
      ensures Dropped(Rules(old(table.out)), Rules(table.out), Pruned(old(strikes), present - desired))
      ensures Pruned(old(strikes), present - desired) == {} <==> removes == 0
      ensures removes == 0 ==> table.pre == old(table.pre) && table.out == old(table.out)
    {
      strikes := map k | k in strikes && k !in desired && k in present :: strikes[k];
      removes := PruneOrphans(present - desired, old(strikes));
    }

    method PruneOrphans(orphans: set<Key>, ghost strikes0: map<Key, nat>) returns (removes: nat)
      requires table.Valid() && Counted(strikes0, strikes, orphans, orphans)
      modifies this`strikes, table
      ensures table.Valid() && strikes == NextStrikes(strikes0, orphans)
      ensures Dropped(Rules(old(table.pre)), Rules(table.pre), Pruned(strikes0, orphans))
      ensures Dropped(Rules(old(table.out)), Rules(table.out), Pruned(strikes0, orphans))
      ensures Pruned(strikes0, orphans) == {} <==> removes == 0
      ensures removes == 0 ==> table.pre == old(table.pre) && table.out == old(table.out)
    {
      ghost var pre0, out0 := Rules(table.pre), Rules(table.out);
      removes := 0;
      var todo := orphans;
      assert Pruned(strikes0, orphans) - todo == {};
      while todo != {}
        invariant table.Valid() && todo <= orphans
        invariant Counted(strikes0, strikes, orphans, todo)
        invariant Dropped(pre0, Rules(table.pre), Pruned(strikes0, orphans) - todo)
        invariant Dropped(out0, Rules(table.out), Pruned(strikes0, orphans) - todo)
        invariant removes == 0 <==> Pruned(strikes0, orphans) - todo == {}
        invariant removes == 0 ==> table.pre == old(table.pre) && table.out == old(table.out)
        decreases todo
      {
        var key :| key in todo;
        var pruned := Strike(key, strikes0, orphans, todo, pre0, out0);
        removes := if pruned then removes + 1 else removes;
        todo := todo - {key};
      }
      CountedAll(strikes0, strikes, orphans);
      assert Pruned(strikes0, orphans) - {} == Pruned(strikes0, orphans);
    }

    /** One tick. A failed read skips it; otherwise every key moves as TickStep says. */
    method Tick(recs: seq<Record>, readable: bool) returns (completed: bool, ok: bool, changes: nat)
      requires Valid() && WellFormedClaims(Claims(recs))
      modifies this, table
      ensures Valid() && completed == readable && (table.reliable ==> ok)
      ensures !completed ==> table.pre == old(table.pre) && table.out == old(table.out)
      ensures !completed ==> strikes == old(strikes) && changes == 0 && ok
      ensures completed && ok ==> TickStep(Claims(recs), old(View()), View())
      ensures completed ==> (changes == 0 <==> Quiet(Claims(recs), old(View())))
      ensures changes == 0 ==> table.pre == old(table.pre) && table.out == old(table.out)
      ensures completed ==> |seen| == |old(seen)| + 1 && seen[..|old(seen)|] == old(seen)
      ensures completed ==> forall k :: k in seen[|old(seen)|].present <==>
                                        Published(Rules(old(table.pre)), Rules(old(table.out)), k)
      ensures completed ==> seen[|old(seen)|].desired == Claimed(Claims(recs))
    {
      completed := readable;
      if !completed {
        return false, true, 0;
      }
      var current := table.CurrentPortForwards();
      var present := table.PublishedHostPorts();
      var desired;
      desired, ok, changes := Reconcile(Claims(recs), current, present);
      assert (seen + [Sighting(present, desired)])[..|seen|] == seen;
      seen := seen + [Sighting(present, desired)];
    }

    /** Both passes over the state as read. */
    method Reconcile(cs: seq<Claim>, current: map<string, string>, present: set<Key>)
      returns (desired: set<Key>, ok: bool, changes: nat)
      requires table.Valid() && WellFormedClaims(cs) && Reports(current, Rules(table.pre), Rules(table.out))
      requires forall k :: k in present <==> Published(Rules(table.pre), Rules(table.out), k)
      modifies this`strikes, table
      ensures table.Valid() && desired == Claimed(cs) && (table.reliable ==> ok)
      ensures strikes == NextStrikes(old(strikes), present - desired)
      ensures ok ==> TickStep(cs, old(View()), View())
      ensures changes == 0 <==> Quiet(cs, old(View()))
      ensures changes == 0 ==> table.pre == old(table.pre) && table.out == old(table.out)
    {
      ghost var before := View();
      OrphansExact(before.pre, before.out, cs, present);
      var healed, adds;
      desired, healed, adds := Heal(cs, current);
      ghost var pre1, out1 := Rules(table.pre), Rules(table.out);
      var removes := Prune(present, desired);
      ok, changes := healed, adds + removes;
      if ok {
        StepFrom(cs, before, pre1, out1, View());
      }
    }

    ghost function View(): Snapshot
      reads this, table
    {
      Snapshot(Rules(table.pre), Rules(table.out), strikes)
    }
  }

  ghost predicate AnyHeals(pre: seq<Rule>, out: seq<Rule>, cs: seq<Claim>) {
    exists k :: Heals(pre, out, cs, k)
  }

  lemma AnyHealsGrows(pre: seq<Rule>, out: seq<Rule>, cs: seq<Claim>, n: nat)
    requires n < |cs|
    ensures AnyHeals(pre, out, cs[..n + 1]) <==> AnyHeals(pre, out, cs[..n]) || HealsNow(pre, out, cs[..n + 1])
  {
    var sofar := cs[..n + 1];
    assert sofar[..n] == cs[..n];
    assert forall k :: Heals(pre, out, sofar, k) <==>
                       Heals(pre, out, cs[..n], k) || (cs[n].key == k && HealsNow(pre, out, sofar));
    assert Heals(pre, out, sofar, cs[n].key) || !HealsNow(pre, out, sofar);
  }

  /** What the first pass has made of the claims so far. */
  ghost predicate Passed(cs: seq<Claim>, pre0: seq<Rule>, out0: seq<Rule>, pre: seq<Rule>, out: seq<Rule>,
                         desired: set<Key>, wantBy: map<Key, Target>, conflicted: set<Key>, ok: bool)
  {
    desired == Claimed(cs) && Tracks(wantBy, conflicted, cs) && Healed(pre0, out0, pre, out, cs, ok)
  }

  /** The chain lost every rule of the keys gone, and no other. */
  ghost predicate Dropped(rs0: seq<Rule>, rs: seq<Rule>, gone: set<Key>) {
    forall k :: Of(rs, k) == if k in gone then [] else Of(rs0, k)
  }

  lemma DroppedOne(rs0: seq<Rule>, rs: seq<Rule>, gone: set<Key>, key: Key)
    requires Dropped(rs0, rs, gone)
    ensures Dropped(rs0, WithoutKey(rs, key), gone + {key})
  {
    forall k
      ensures Of(WithoutKey(rs, key), k) == if k in gone + {key} then [] else Of(rs0, k)
    {
      OfWithout(rs, key, k);
    }
  }

  /** The strikes while the second pass still has `todo` to visit. */
  ghost predicate Counted(strikes0: map<Key, nat>, strikes: map<Key, nat>, orphans: set<Key>, todo: set<Key>) {
    forall k ::
      if k in todo then StrikesOf(strikes, k) == StrikesOf(strikes0, k) && (k in strikes <==> k in strikes0)
      else if k in orphans && StrikesOf(strikes0, k) + 1 < PRUNE_STRIKES then
        k in strikes && strikes[k] == StrikesOf(strikes0, k) + 1
      else k !in strikes
  }

  lemma OneLess(pruned: set<Key>, todo: set<Key>, key: Key)
    requires key in todo
    ensures pruned - (todo - {key}) == pruned - todo + if key in pruned then {key} else {}
  {
  }

  lemma StrikeCounts(strikes0: map<Key, nat>, strikes: map<Key, nat>, orphans: set<Key>, todo: set<Key>, key: Key)
    requires key in todo && todo <= orphans && Counted(strikes0, strikes, orphans, todo)
    ensures var count := StrikesOf(strikes, key) + 1;
            && (count >= PRUNE_STRIKES <==> key in Pruned(strikes0, orphans))
            && Counted(strikes0, if count >= PRUNE_STRIKES then strikes - {key} else strikes[key := count],
                       orphans, todo - {key})
  {
  }

  lemma CountedAll(strikes0: map<Key, nat>, strikes: map<Key, nat>, orphans: set<Key>)
    requires Counted(strikes0, strikes, orphans, {})
    ensures strikes == NextStrikes(strikes0, orphans)
  {
    var next := NextStrikes(strikes0, orphans);
    assert forall k :: k in strikes <==> k in next;
    assert forall k :: k in strikes ==> strikes[k] == next[k];
  }

  // ----- A tick as a step -----

  datatype Snapshot = Snapshot(pre: seq<Rule>, out: seq<Rule>, strikes: map<Key, nat>)

  /** The published keys nobody claims. */
  ghost function Orphans(pre: seq<Rule>, out: seq<Rule>, cs: seq<Claim>): set<Key> {
    set r | r in pre + out && r.key !in Claimed(cs) :: r.key
  }

  lemma OrphanIsPublished(pre: seq<Rule>, out: seq<Rule>, cs: seq<Claim>, k: Key)
    ensures k in Orphans(pre, out, cs) <==> Published(pre, out, k) && k !in Claimed(cs)
  {
    var p := (r: Rule) => r.key == k;
    if k in Orphans(pre, out, cs) {
      var r :| r in pre + out && r.key == k;
      KeepMember(pre, p, r);
      KeepMember(out, p, r);
    }
    if Of(pre, k) != [] {
      KeepMember(pre, p, Of(pre, k)[0]);
    }
    if Of(out, k) != [] {
      KeepMember(out, p, Of(out, k)[0]);
    }
  }

  lemma OrphansExact(pre: seq<Rule>, out: seq<Rule>, cs: seq<Claim>, present: set<Key>)
    requires forall k :: k in present <==> Published(pre, out, k)
    ensures present - Claimed(cs) == Orphans(pre, out, cs)
  {
    forall k
      ensures k in present - Claimed(cs) <==> k in Orphans(pre, out, cs)
    {
      OrphanIsPublished(pre, out, cs, k);
    }
  }

  /** A completed tick in which every insertion succeeded. */
  ghost predicate TickStep(cs: seq<Claim>, s: Snapshot, s': Snapshot) {
    var orphans := Orphans(s.pre, s.out, cs);
    && s'.strikes == NextStrikes(s.strikes, orphans)
    && (forall k :: Of(s'.pre, k) == KeyAfter(s.pre, s.out, cs, Pruned(s.strikes, orphans), Of(s.pre, k), k))
    && (forall k :: Of(s'.out, k) == KeyAfter(s.pre, s.out, cs, Pruned(s.strikes, orphans), Of(s.out, k), k))
  }

  /** The tick has nothing to add and nothing to prune. */
  ghost predicate Quiet(cs: seq<Claim>, s: Snapshot) {
    !AnyHeals(s.pre, s.out, cs) && Pruned(s.strikes, Orphans(s.pre, s.out, cs)) == {}
  }

  lemma StepFrom(cs: seq<Claim>, s: Snapshot, pre1: seq<Rule>, out1: seq<Rule>, s': Snapshot)
    requires Healed(s.pre, s.out, pre1, out1, cs, true)
    requires var pruned := Pruned(s.strikes, Orphans(s.pre, s.out, cs));
             && s'.strikes == NextStrikes(s.strikes, Orphans(s.pre, s.out, cs))
             && Dropped(pre1, s'.pre, pruned) && Dropped(out1, s'.out, pruned)
    ensures TickStep(cs, s, s')
  {
  }

  // ----- What a tick does to a key -----

  /** The reconciler may re-apply the key's forward: a readable claim of it comes before any conflict. */
  ghost predicate Healable(cs: seq<Claim>, k: Key) {
    cs != [] &&
    var n := |cs| - 1;
    || Healable(cs[..n], k)
    || (&& cs[n].key == k && cs[n].readable && !Clash(cs[..n], k)
        && (First(cs[..n], k).None? || First(cs[..n], k) == Some(cs[n].target)))
  }

  /** A key is re-applied exactly when it may be and is not installed. */
  lemma {:induction false} HealsExactly(pre: seq<Rule>, out: seq<Rule>, cs: seq<Claim>, k: Key)
    ensures Healable(cs, k) ==> First(cs, k).Some?
    ensures Heals(pre, out, cs, k) <==> Healable(cs, k) && !Installed(pre, out, k, First(cs, k).value)
  {
    if cs != [] {
      HealsExactly(pre, out, cs[..|cs| - 1], k);
    }
  }

  /** An unclaimed key is gone, or has one strike more. */
  lemma UnclaimedIsStruck(cs: seq<Claim>, s: Snapshot, s': Snapshot, k: Key)
    requires TickStep(cs, s, s') && First(cs, k).None?
    ensures Published(s'.pre, s'.out, k) ==>
              && Published(s.pre, s.out, k)
              && StrikesOf(s'.strikes, k) == StrikesOf(s.strikes, k) + 1 < PRUNE_STRIKES
  {
    HealsExactly(s.pre, s.out, cs, k);
    FirstIsClaimed(cs, k);
    OrphanIsPublished(s.pre, s.out, cs, k);
  }

  // ----- Strikes over any history -----

  ghost predicate OrphanIn(o: Sighting, k: Key) {
    k in o.present && k !in o.desired
  }

  /** The number of latest completed ticks, without a gap, that saw the key orphaned. */
  ghost function OrphanStreak(seen: seq<Sighting>, k: Key): nat {
    if seen == [] || !OrphanIn(seen[|seen| - 1], k) then 0 else OrphanStreak(seen[..|seen| - 1], k) + 1
  }

  /** Whatever each tick saw, the strikes against a key are its streak counted from its last prune, and
      the last tick prunes it exactly when the streak completes another pair: so it was published and
      unclaimed in this tick and in the one before. */
  lemma {:induction false} StrikesCountStreak(seen: seq<Sighting>, k: Key)
    ensures StrikesOf(StrikesAfter(seen), k) == OrphanStreak(seen, k) % PRUNE_STRIKES
    ensures seen != [] ==>
              var last := seen[|seen| - 1];
              k in Pruned(StrikesAfter(seen[..|seen| - 1]), last.present - last.desired) <==>
              OrphanStreak(seen, k) > 0 && OrphanStreak(seen, k) % PRUNE_STRIKES == 0
  {
    if seen != [] {
      StrikesCountStreak(seen[..|seen| - 1], k);
    }
  }

  /** The loop's maps say what the claims so far say. */
  ghost predicate Tracks(wantBy: map<Key, Target>, conflicted: set<Key>, cs: seq<Claim>) {
    && (forall k :: k in wantBy <==> First(cs, k).Some?)
    && (forall k :: k in wantBy ==> First(cs, k) == Some(wantBy[k]))
    && (forall k :: k in conflicted <==> Clash(cs, k))
  }

  lemma TracksStep(wantBy: map<Key, Target>, conflicted: set<Key>, cs: seq<Claim>)
    requires cs != [] && Tracks(wantBy, conflicted, cs[..|cs| - 1])
    ensures var c := cs[|cs| - 1];
            if c.key in wantBy && wantBy[c.key] != c.target then Tracks(wantBy, conflicted + {c.key}, cs)
            else Tracks(wantBy[c.key := c.target], conflicted, cs)
  {
  }

  /** The chains hold, for every key, what the claims so far make of it. */
  ghost predicate Healed(pre0: seq<Rule>, out0: seq<Rule>, pre: seq<Rule>, out: seq<Rule>, cs: seq<Claim>, ok: bool) {
    forall k :: ok || !Heals(pre0, out0, cs, k) ==>
      && Of(pre, k) == KeyAfter(pre0, out0, cs, {}, Of(pre0, k), k)
      && Of(out, k) == KeyAfter(pre0, out0, cs, {}, Of(out0, k), k)
  }

  lemma HealedNothing(pre0: seq<Rule>, out0: seq<Rule>, pre: seq<Rule>, out: seq<Rule>, cs: seq<Claim>, ok: bool)
    requires cs != [] && Healed(pre0, out0, pre, out, cs[..|cs| - 1], ok) && !HealsNow(pre0, out0, cs)
    ensures Healed(pre0, out0, pre, out, cs, ok)
    ensures forall k :: Heals(pre0, out0, cs, k) <==> Heals(pre0, out0, cs[..|cs| - 1], k)
  {
    forall k | Heals(pre0, out0, cs[..|cs| - 1], k)
      ensures First(cs, k) == First(cs[..|cs| - 1], k)
    {
      HealedIsClaimed(pre0, out0, cs[..|cs| - 1], k);
    }
  }

  lemma HealedOne(pre0: seq<Rule>, out0: seq<Rule>, pre: seq<Rule>, out: seq<Rule>, pre': seq<Rule>, out': seq<Rule>,
                  cs: seq<Claim>, ok: bool, added: bool)
    requires cs != [] && Healed(pre0, out0, pre, out, cs[..|cs| - 1], ok) && HealsNow(pre0, out0, cs)
    requires var c := cs[|cs| - 1]; var r := Rule(c.key, c.target);
             && pre' == WithoutKey(pre, r.key) + (if added then [r] else [])
             && out' == WithoutKey(out, r.key) + (if added then [r] else [])
    ensures Healed(pre0, out0, pre', out', cs, ok && added)
  {
    var c := cs[|cs| - 1];
    forall k | (ok && added) || !Heals(pre0, out0, cs, k)
      ensures Of(pre', k) == KeyAfter(pre0, out0, cs, {}, Of(pre0, k), k)
      ensures Of(out', k) == KeyAfter(pre0, out0, cs, {}, Of(out0, k), k)
    {
      OfReplaced(pre, c.key, c.target, added, k);
      OfReplaced(out, c.key, c.target, added, k);
      HealedKey(pre0, out0, cs, k);
    }
  }

  /** The last claim decides about its own key and about no other. */
  lemma HealedKey(pre0: seq<Rule>, out0: seq<Rule>, cs: seq<Claim>, k: Key)
    requires cs != [] && HealsNow(pre0, out0, cs)
    ensures k == cs[|cs| - 1].key ==> Heals(pre0, out0, cs, k) && First(cs, k) == Some(cs[|cs| - 1].target)
    ensures k != cs[|cs| - 1].key ==>
              && (Heals(pre0, out0, cs, k) <==> Heals(pre0, out0, cs[..|cs| - 1], k))
              && First(cs, k) == First(cs[..|cs| - 1], k)
  {
  }

  lemma OfReplaced(rs: seq<Rule>, key: Key, t: Target, added: bool, k: Key)
    ensures Of(WithoutKey(rs, key) + (if added then [Rule(key, t)] else []), k)
         == if k != key then Of(rs, k) else if added then [Rule(key, t)] else []
  {
    OfWithout(rs, key, k);
    if added {
      OfAppend(WithoutKey(rs, key), Rule(key, t), k);
    } else {
      assert WithoutKey(rs, key) + [] == WithoutKey(rs, key);
    }
  }
}
