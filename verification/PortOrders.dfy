/** The reconciler's ticks over a fixed population whose records are listed in any order, anew at
    every tick: where they lead, and when they do not come to rest. */
module PortOrders {
  import opened Wrappers
  import opened NatText
  import opened NatTable
  import opened PortReconciler

  /** A listing of the stored records: the store hands them out in the order of a hash map. */
  ghost predicate Lists(o: seq<Record>, recs: seq<Record>) {
    multiset(o) == multiset(recs)
  }

  lemma SameMember(o: seq<Record>, recs: seq<Record>, r: Record)
    requires Lists(o, recs)
    ensures r in o <==> r in recs
  {
    assert r in multiset(o) <==> r in multiset(recs);
  }

  /** Any record can come first. */
  lemma ListedFirst(recs: seq<Record>, r: Record) returns (rest: seq<Record>)
    requires r in recs
    ensures Lists([r] + rest, recs)
  {
    var i :| 0 <= i < |recs| && recs[i] == r;
    rest := recs[..i] + recs[i + 1..];
    assert recs == recs[..i] + [r] + recs[i + 1..];
  }

  // ----- What one record says of a key -----

  ghost predicate Wants(r: Record, k: Key) {
    First(RecordClaims(r), k).Some?
  }

  /** A live record that claims the key: the reconciler may apply its forward. */
  ghost predicate Applies(r: Record, k: Key) {
    r.probe.Live? && Wants(r, k)
  }

  /** The target of the record's first binding of the key. */
  ghost function Opening(r: Record, k: Key): Target
    requires Wants(r, k)
  {
    First(RecordClaims(r), k).value
  }

  ghost predicate OnlyWants(r: Record, k: Key, t: Target) {
    var cs := RecordClaims(r);
    forall i :: 0 <= i < |cs| && cs[i].key == k ==> cs[i].target == t
  }

  /** A live record opens the key with the target; an unreadable one claims it for nothing else. */
  ghost predicate Fits(r: Record, k: Key, t: Target) {
    if r.probe.Live? then Wants(r, k) ==> Opening(r, k) == t else OnlyWants(r, k, t)
  }

  ghost predicate SomeWants(recs: seq<Record>, k: Key) {
    exists r :: r in recs && Wants(r, k)
  }

  ghost predicate SomeApplies(recs: seq<Record>, k: Key) {
    exists r :: r in recs && Applies(r, k)
  }

  /** Every record fits every live opening of the key. */
  ghost predicate Coherent(recs: seq<Record>, k: Key) {
    forall r, q :: r in recs && q in recs && Applies(r, k) ==> Fits(q, k, Opening(r, k))
  }

  /** Live records open the key with one target. */
  ghost predicate LiveAgree(recs: seq<Record>, k: Key) {
    forall r, q :: r in recs && q in recs && Applies(r, k) && Applies(q, k) ==> Opening(r, k) == Opening(q, k)
  }

  lemma ListingsAgree(o: seq<Record>, recs: seq<Record>, k: Key)
    requires Lists(o, recs)
    ensures SomeWants(o, k) <==> SomeWants(recs, k)
    ensures SomeApplies(o, k) <==> SomeApplies(recs, k)
    ensures Coherent(o, k) <==> Coherent(recs, k)
    ensures LiveAgree(o, k) <==> LiveAgree(recs, k)
  {
    forall r
      ensures r in o <==> r in recs
    {
      SameMember(o, recs, r);
    }
  }

  // ----- Claims by position -----

  /** The claim is readable and no claim of its key up to it wants another target. */
  ghost predicate Unopposed(cs: seq<Claim>, k: Key, i: nat)
    requires i < |cs|
  {
    cs[i].key == k && cs[i].readable && forall j :: 0 <= j <= i && cs[j].key == k ==> cs[j].target == cs[i].target
  }

  /** The claims up to a place that want one target begin with that target. */
  lemma {:induction false} FirstOfAlike(cs: seq<Claim>, k: Key, i: nat)
    requires i < |cs| && cs[i].key == k
    requires forall j :: 0 <= j <= i && cs[j].key == k ==> cs[j].target == cs[i].target
    ensures First(cs, k) == Some(cs[i].target)
  {
    var n := |cs| - 1;
    if i < n {
      assert cs[..n][i] == cs[i];
      FirstOfAlike(cs[..n], k, i);
    } else {
      FirstIsClaimed(cs[..n], k);
    }
  }

  lemma {:induction false} ClashExactly(cs: seq<Claim>, k: Key)
    ensures Clash(cs, k) <==> exists i :: 0 <= i < |cs| && cs[i].key == k && First(cs, k) != Some(cs[i].target)
  {
    if cs != [] {
      var n := |cs| - 1;
      ClashExactly(cs[..n], k);
      FirstIsClaimed(cs[..n], k);
      assert forall i :: 0 <= i < n ==> cs[..n][i] == cs[i];
    }
  }

  /** A key may be re-applied exactly when some readable claim of it is unopposed. */
  lemma {:induction false} HealableExactly(cs: seq<Claim>, k: Key)
    ensures Healable(cs, k) <==> exists i :: 0 <= i < |cs| && Unopposed(cs, k, i)
    ensures forall i :: 0 <= i < |cs| && Unopposed(cs, k, i) ==> First(cs, k) == Some(cs[i].target)
  {
    forall i | 0 <= i < |cs| && Unopposed(cs, k, i)
      ensures First(cs, k) == Some(cs[i].target)
    {
      FirstOfAlike(cs, k, i);
    }
    if cs != [] {
      var n := |cs| - 1;
      HealableExactly(cs[..n], k);
      assert forall i :: 0 <= i < n ==> cs[..n][i] == cs[i];
      assert forall i :: 0 <= i < n ==> (Unopposed(cs[..n], k, i) <==> Unopposed(cs, k, i));
      LastUnopposed(cs, k);
    }
  }

  lemma LastUnopposed(cs: seq<Claim>, k: Key)
    requires cs != []
    ensures var n := |cs| - 1; var first := First(cs[..n], k);
            Unopposed(cs, k, n) <==>
            && cs[n].key == k && cs[n].readable && !Clash(cs[..n], k)
            && (first.None? || first == Some(cs[n].target))
  {
    var n := |cs| - 1;
    ClashExactly(cs[..n], k);
    FirstIsClaimed(cs[..n], k);
    assert forall i :: 0 <= i < n ==> cs[..n][i] == cs[i];
  }

  lemma UnopposedPlace(cs: seq<Claim>, k: Key) returns (i: nat)
    requires Healable(cs, k)
    ensures i < |cs| && Unopposed(cs, k, i) && First(cs, k) == Some(cs[i].target)
  {
    HealableExactly(cs, k);
    i :| 0 <= i < |cs| && Unopposed(cs, k, i);
  }

  lemma UnopposedIsHealable(cs: seq<Claim>, k: Key, i: nat)
    requires i < |cs| && Unopposed(cs, k, i)
    ensures Healable(cs, k) && First(cs, k) == Some(cs[i].target)
  {
    HealableExactly(cs, k);
  }

  lemma {:induction false} FirstAppend(a: seq<Claim>, b: seq<Claim>, k: Key)
    ensures First(a + b, k) == if First(a, k).Some? then First(a, k) else First(b, k)
  {
    if b == [] {
      assert a + b == a;
    } else {
      FirstAppend(a, b[..|b| - 1], k);
      assert (a + b)[..|a + b| - 1] == a + b[..|b| - 1];
    }
  }

  lemma {:induction false} SomeWantsExactly(recs: seq<Record>, k: Key)
    ensures First(Claims(recs), k).Some? <==> SomeWants(recs, k)
  {
    if recs != [] {
      var x, rest := recs[0], recs[1..];
      SomeWantsExactly(rest, k);
      FirstAppend(RecordClaims(x), Claims(rest), k);
      assert forall r :: r in recs <==> r == x || r in rest;
      assert Wants(x, k) ==> SomeWants(recs, k);
    }
  }

  lemma UnopposedEarly(a: seq<Claim>, b: seq<Claim>, k: Key, i: nat)
    requires i < |a|
    ensures Unopposed(a + b, k, i) <==> Unopposed(a, k, i)
  {
    assert forall j :: 0 <= j <= i ==> (a + b)[j] == a[j];
  }

  lemma UnopposedLate(a: seq<Claim>, b: seq<Claim>, k: Key, i: nat)
    requires i < |b|
    ensures Unopposed(a + b, k, |a| + i) <==>
            Unopposed(b, k, i) && forall j :: 0 <= j < |a| && a[j].key == k ==> a[j].target == b[i].target
  {
    assert forall j :: 0 <= j < |a| ==> (a + b)[j] == a[j];
    assert forall j :: 0 <= j < |b| ==> b[j] == (a + b)[|a| + j];
  }

  // ----- What a listing makes of a key -----

  lemma ClaimsFirst(x: Record, rest: seq<Record>)
    ensures Claims([x] + rest) == RecordClaims(x) + Claims(rest)
  {
    assert ([x] + rest)[1..] == rest;
  }

  /** A live record that comes first has its opening applied. */
  lemma LiveFirstIsHealable(r: Record, rest: seq<Record>, k: Key)
    requires Applies(r, k)
    ensures Healable(Claims([r] + rest), k) && First(Claims([r] + rest), k) == Some(Opening(r, k))
  {
    var a, b := RecordClaims(r), Claims(rest);
    ClaimsFirst(r, rest);
    var i := OpeningPlace(r, k);
    UnopposedEarly(a, b, k, i);
    UnopposedIsHealable(a + b, k, i);
    FirstOfAlike(a, k, i);
  }

  lemma OpeningPlace(r: Record, k: Key) returns (i: nat)
    requires Applies(r, k)
    ensures i < |RecordClaims(r)| && Unopposed(RecordClaims(r), k, i)
  {
    i := FirstPlace(RecordClaims(r), k);
  }

  lemma {:induction false} FirstPlace(cs: seq<Claim>, k: Key) returns (i: nat)
    requires First(cs, k).Some?
    ensures i < |cs| && cs[i].key == k && forall j :: 0 <= j < i ==> cs[j].key != k
  {
    var n := |cs| - 1;
    assert forall j :: 0 <= j < n ==> cs[..n][j] == cs[j];
    if First(cs[..n], k).Some? {
      i := FirstPlace(cs[..n], k);
    } else {
      i := n;
      NoneBefore(cs[..n], k);
    }
  }

  lemma NoneBefore(cs: seq<Claim>, k: Key)
    requires First(cs, k).None?
    ensures forall j :: 0 <= j < |cs| ==> cs[j].key != k
  {
    FirstIsClaimed(cs, k);
    assert forall j :: 0 <= j < |cs| ==> cs[j].key in Claimed(cs);
  }

  /** Whatever the order, only the opening of a live record is ever applied. */
  lemma {:induction false} HealableIsOpening(o: seq<Record>, k: Key) returns (r: Record)
    requires Healable(Claims(o), k)
    ensures r in o && Applies(r, k) && First(Claims(o), k) == Some(Opening(r, k))
  {
    var x, rest := o[0], o[1..];
    assert o == [x] + rest;
    ClaimsFirst(x, rest);
    var first := ReadFirst(x, rest, k);
    if first {
      r := x;
    } else {
      r := HealableIsOpening(rest, k);
    }
  }

  /** The first record applies the key, or the others do. */
  lemma ReadFirst(x: Record, rest: seq<Record>, k: Key) returns (first: bool)
    requires Healable(RecordClaims(x) + Claims(rest), k)
    ensures first ==> Applies(x, k) && First(RecordClaims(x) + Claims(rest), k) == Some(Opening(x, k))
    ensures !first ==>
              Healable(Claims(rest), k) && First(RecordClaims(x) + Claims(rest), k) == First(Claims(rest), k)
    ensures !first && First(Claims(rest), k).Some? ==> OnlyWants(x, k, First(Claims(rest), k).value)
  {
    var a, b := RecordClaims(x), Claims(rest);
    var i := UnopposedPlace(a + b, k);
    first := i < |a|;
    if first {
      UnopposedEarly(a, b, k, i);
      FirstOfAlike(a, k, i);
    } else {
      UnopposedLate(a, b, k, i - |a|);
      UnopposedIsHealable(b, k, i - |a|);
    }
  }

  /** A coherent key with a live claimant is applied in every order, with the one opening. */
  lemma {:induction false} CoherentIsHealable(o: seq<Record>, r: Record, k: Key)
    requires Coherent(o, k) && r in o && Applies(r, k)
    ensures Healable(Claims(o), k) && First(Claims(o), k) == Some(Opening(r, k))
  {
    var x, rest := o[0], o[1..];
    CoherentFirst(o, r, k);
    assert o == [x] + rest;
    if Applies(x, k) {
      LiveFirstIsHealable(x, rest, k);
    } else {
      CoherentRest(o, k);
      CoherentIsHealable(rest, r, k);
      FitsExtends(x, rest, k, Opening(r, k));
    }
  }

  lemma CoherentFirst(o: seq<Record>, r: Record, k: Key)
    requires Coherent(o, k) && r in o && Applies(r, k)
    ensures if Applies(o[0], k) then Opening(o[0], k) == Opening(r, k) else OnlyWants(o[0], k, Opening(r, k))
  {
    var x := o[0];
    assert x in o;
    assert Fits(x, k, Opening(r, k));
    if !Wants(x, k) {
      UnwantedFits(x, k, Opening(r, k));
    }
  }

  lemma CoherentRest(o: seq<Record>, k: Key)
    requires Coherent(o, k) && o != []
    ensures Coherent(o[1..], k)
  {
    var rest := o[1..];
    forall r, q | r in rest && q in rest && Applies(r, k)
      ensures Fits(q, k, Opening(r, k))
    {
      assert r in o && q in o;
    }
  }

  lemma FitsExtends(x: Record, rest: seq<Record>, k: Key, t: Target)
    requires OnlyWants(x, k, t)
    requires Healable(Claims(rest), k) && First(Claims(rest), k) == Some(t)
    ensures Healable(Claims([x] + rest), k) && First(Claims([x] + rest), k) == Some(t)
  {
    var a, b := RecordClaims(x), Claims(rest);
    ClaimsFirst(x, rest);
    var i := UnopposedPlace(b, k);
    UnopposedLate(a, b, k, i);
    UnopposedIsHealable(a + b, k, |a| + i);
  }

  lemma UnwantedFits(r: Record, k: Key, t: Target)
    requires !Wants(r, k)
    ensures OnlyWants(r, k, t)
  {
    NoneBefore(RecordClaims(r), k);
  }

  // ----- One tick in any order -----

  /** A tick brings a claimed key to the first claim's rule if that may be applied, and else leaves it. */
  lemma TickMovesKey(o: seq<Record>, s: Snapshot, s': Snapshot, k: Key)
    requires TickStep(Claims(o), s, s') && SomeWants(o, k)
    ensures Healable(Claims(o), k) ==> First(Claims(o), k).Some?
    ensures if Healable(Claims(o), k) then Installed(s'.pre, s'.out, k, First(Claims(o), k).value) else Kept(s, s', k)
  {
    var cs := Claims(o);
    SomeWantsExactly(o, k);
    HealsExactly(s.pre, s.out, cs, k);
    FirstIsClaimed(cs, k);
    OrphanIsPublished(s.pre, s.out, cs, k);
  }

  ghost predicate Kept(s0: Snapshot, s: Snapshot, k: Key) {
    Of(s.pre, k) == Of(s0.pre, k) && Of(s.out, k) == Of(s0.out, k)
  }

  /** Each chain holds exactly one rule for the key, the opening of a live record. */
  ghost predicate Applied(recs: seq<Record>, s: Snapshot, k: Key) {
    exists r :: r in recs && AppliedBy(r, s, k)
  }

  ghost predicate AppliedBy(r: Record, s: Snapshot, k: Key) {
    Applies(r, k) && Installed(s.pre, s.out, k, Opening(r, k))
  }

  /** What becomes of a key from s0 on, in whatever orders: without a claimant it goes, without a live one
      it stays as it was, if it is coherent it gets its rule, and else it may change but only to the
      opening of a live record. */
  ghost predicate EndsAs(recs: seq<Record>, s0: Snapshot, s: Snapshot, k: Key) {
    if !SomeWants(recs, k) then !Published(s.pre, s.out, k)
    else if !SomeApplies(recs, k) then Kept(s0, s, k)
    else Applied(recs, s, k) || (Kept(s0, s, k) && !Coherent(recs, k))
  }

  ghost predicate Settled(recs: seq<Record>, s0: Snapshot, s: Snapshot) {
    forall k :: EndsAs(recs, s0, s, k)
  }

  /** Claimed keys have ended, and every other published key has a strike. */
  ghost predicate HalfSettled(recs: seq<Record>, s0: Snapshot, s: Snapshot) {
    forall k {:trigger SomeWants(recs, k)} ::
      if SomeWants(recs, k) then EndsAs(recs, s0, s, k) else Published(s.pre, s.out, k) ==> StrikesOf(s.strikes, k) >= 1
  }

  /** How far the state has come after a number of completed ticks. */
  ghost predicate Advanced(recs: seq<Record>, s0: Snapshot, s: Snapshot, completed: nat) {
    if completed == 0 then s == s0 else if completed == 1 then HalfSettled(recs, s0, s) else Settled(recs, s0, s)
  }

  lemma ClaimedEnds(recs: seq<Record>, o: seq<Record>, s0: Snapshot, s: Snapshot, s': Snapshot, k: Key)
    requires Lists(o, recs) && TickStep(Claims(o), s, s') && SomeWants(recs, k)
    requires s == s0 || EndsAs(recs, s0, s, k)
    ensures EndsAs(recs, s0, s', k)
  {
    ListingsAgree(o, recs, k);
    TickMovesKey(o, s, s', k);
    if Healable(Claims(o), k) {
      var r := HealableIsOpening(o, k);
      SameMember(o, recs, r);
      assert AppliedBy(r, s', k);
    } else if SomeApplies(o, k) && Coherent(o, k) {
      var r :| r in o && Applies(r, k);
      CoherentIsHealable(o, r, k);
    } else if Applied(recs, s, k) {
      var r :| r in recs && AppliedBy(r, s, k);
      assert AppliedBy(r, s', k);
    }
  }

  /** In whatever order the records are listed, any state is half settled after one tick; a half settled
      one is settled after one more, and stays so. */
  lemma TickAdvances(recs: seq<Record>, o: seq<Record>, s0: Snapshot, s: Snapshot, s': Snapshot, completed: nat)
    requires Lists(o, recs) && TickStep(Claims(o), s, s')
    requires Advanced(recs, s0, s, completed)
    ensures Advanced(recs, s0, s', completed + 1)
  {
    forall k
      ensures SomeWants(recs, k) ==> EndsAs(recs, s0, s', k)
      ensures !SomeWants(recs, k) && Published(s'.pre, s'.out, k) ==> StrikesOf(s'.strikes, k) >= 1
      ensures !SomeWants(recs, k) && completed >= 1 ==> EndsAs(recs, s0, s', k)
    {
      if SomeWants(recs, k) {
        assert completed >= 1 ==> EndsAs(recs, s0, s, k);
        ClaimedEnds(recs, o, s0, s, s', k);
      } else {
        assert completed >= 2 ==> EndsAs(recs, s0, s, k);
        ListingsAgree(o, recs, k);
        SomeWantsExactly(o, k);
        UnclaimedIsStruck(Claims(o), s, s', k);
      }
    }
  }

  /** A coherent key that has ended is left alone in every order. */
  lemma CoherentKeyIsQuiet(recs: seq<Record>, o: seq<Record>, s0: Snapshot, s: Snapshot, k: Key)
    requires Lists(o, recs) && EndsAs(recs, s0, s, k) && Coherent(recs, k)
    ensures !Heals(s.pre, s.out, Claims(o), k) && k !in Orphans(s.pre, s.out, Claims(o))
  {
    var cs := Claims(o);
    ListingsAgree(o, recs, k);
    SomeWantsExactly(o, k);
    HealsExactly(s.pre, s.out, cs, k);
    FirstIsClaimed(cs, k);
    OrphanIsPublished(s.pre, s.out, cs, k);
    if Healable(cs, k) {
      var q := HealableIsOpening(o, k);
      assert SomeApplies(o, k);
      var r :| r in recs && AppliedBy(r, s, k);
      SameMember(o, recs, r);
      CoherentIsHealable(o, r, k);
    }
  }

  ghost predicate AllCoherent(recs: seq<Record>) {
    forall k :: Coherent(recs, k)
  }

  /** A settled table whose keys are all coherent is left alone in every order. */
  lemma SettledIsQuiet(recs: seq<Record>, o: seq<Record>, s0: Snapshot, s: Snapshot)
    requires Lists(o, recs) && Settled(recs, s0, s) && AllCoherent(recs)
    ensures Quiet(Claims(o), s)
  {
    forall k
      ensures !Heals(s.pre, s.out, Claims(o), k) && k !in Orphans(s.pre, s.out, Claims(o))
    {
      assert EndsAs(recs, s0, s, k) && Coherent(recs, k);
      CoherentKeyIsQuiet(recs, o, s0, s, k);
    }
  }

  // ----- Runs -----

  /** A run of completed ticks, each over a listing of its own. */
  ghost predicate IsRun(recs: seq<Record>, orders: seq<seq<Record>>, states: seq<Snapshot>) {
    && |states| == |orders| + 1
    && forall i {:trigger orders[i]} :: 0 <= i < |orders| ==>
         Lists(orders[i], recs) && TickStep(Claims(orders[i]), states[i], states[i + 1])
  }

  lemma RunShorter(recs: seq<Record>, orders: seq<seq<Record>>, states: seq<Snapshot>)
    requires IsRun(recs, orders, states) && orders != []
    ensures IsRun(recs, orders[..|orders| - 1], states[..|orders|])
  {
    var n := |orders| - 1;
    forall i | 0 <= i < n
      ensures Lists(orders[..n][i], recs)
      ensures TickStep(Claims(orders[..n][i]), states[..n + 1][i], states[..n + 1][i + 1])
    {
      assert orders[..n][i] == orders[i];
    }
  }

  lemma RunLonger(recs: seq<Record>, orders: seq<seq<Record>>, states: seq<Snapshot>, o: seq<Record>, s: Snapshot)
    requires IsRun(recs, orders, states) && Lists(o, recs) && TickStep(Claims(o), states[|orders|], s)
    ensures IsRun(recs, orders + [o], states + [s])
  {
    forall i | 0 <= i <= |orders|
      ensures Lists((orders + [o])[i], recs)
      ensures TickStep(Claims((orders + [o])[i]), (states + [s])[i], (states + [s])[i + 1])
    {
      if i < |orders| {
        assert (orders + [o])[i] == orders[i];
      }
    }
  }

  /** From any chains and any strikes, in any orders, every key has ended after two ticks, and it stays so. */
  lemma {:induction false} RunSettles(recs: seq<Record>, orders: seq<seq<Record>>, states: seq<Snapshot>, n: nat)
    requires IsRun(recs, orders, states) && n <= |orders|
    ensures Advanced(recs, states[0], states[n], n)
  {
    if n > 0 {
      RunSettles(recs, orders, states, n - 1);
      TickAdvances(recs, orders[n - 1], states[0], states[n - 1], states[n], n - 1);
    }
  }

  // ----- Every state has a next -----

  lemma {:induction false} HealExists(pre0: seq<Rule>, out0: seq<Rule>, cs: seq<Claim>)
    returns (pre: seq<Rule>, out: seq<Rule>)
    ensures Healed(pre0, out0, pre, out, cs, true)
  {
    pre, out := pre0, out0;
    if cs != [] {
      var n := |cs| - 1;
      var r := Rule(cs[n].key, cs[n].target);
      pre, out := HealExists(pre0, out0, cs[..n]);
      if HealsNow(pre0, out0, cs) {
        var pre', out' := WithoutKey(pre, r.key) + [r], WithoutKey(out, r.key) + [r];
        HealedOne(pre0, out0, pre, out, pre', out', cs, true, true);
        pre, out := pre', out';
      } else {
        HealedNothing(pre0, out0, pre, out, cs, true);
      }
    }
  }

  lemma DropExists(rs: seq<Rule>, gone: set<Key>) returns (rs': seq<Rule>)
    ensures Dropped(rs, rs', gone)
  {
    rs' := rs;
    var todo := gone;
    while todo != {}
      invariant todo <= gone && Dropped(rs, rs', gone - todo)
      decreases todo
    {
      var k :| k in todo;
      DroppedOne(rs, rs', gone - todo, k);
      assert gone - (todo - {k}) == gone - todo + {k};
      rs', todo := WithoutKey(rs', k), todo - {k};
    }
    assert gone - {} == gone;
  }

  lemma TickExists(cs: seq<Claim>, s: Snapshot) returns (s': Snapshot)
    ensures TickStep(cs, s, s')
  {
    var orphans := Orphans(s.pre, s.out, cs);
    var pre1, out1 := HealExists(s.pre, s.out, cs);
    var pre2 := DropExists(pre1, Pruned(s.strikes, orphans));
    var out2 := DropExists(out1, Pruned(s.strikes, orphans));
    s' := Snapshot(pre2, out2, NextStrikes(s.strikes, orphans));
    StepFrom(cs, s, pre1, out1, s');
  }

  /** A run can go on with any listing. */
  lemma RunGoesOn(recs: seq<Record>, orders: seq<seq<Record>>, states: seq<Snapshot>, o: seq<Record>)
    returns (s: Snapshot)
    requires IsRun(recs, orders, states) && Lists(o, recs)
    ensures IsRun(recs, orders + [o], states + [s]) && TickStep(Claims(o), states[|orders|], s)
  {
    s := TickExists(Claims(o), states[|orders|]);
    RunLonger(recs, orders, states, o, s);
  }

  // ----- When ticks come to rest -----

  /** A record that does not fit a target and comes first keeps it from being applied. */
  lemma MisfitFirst(q: Record, rest: seq<Record>, k: Key, t: Target)
    requires !Fits(q, k, t) && Healable(Claims([q] + rest), k)
    ensures First(Claims([q] + rest), k) != Some(t)
  {
    if q.probe.Live? {
      LiveFirstIsHealable(q, rest, k);
    } else {
      ClaimsFirst(q, rest);
      var first := ReadFirst(q, rest, k);
    }
  }

  lemma GoesOnWithout(recs: seq<Record>, orders: seq<seq<Record>>, states: seq<Snapshot>, o: seq<Record>,
                      k: Key, t: Target)
    returns (s: Snapshot)
    requires IsRun(recs, orders, states) && Lists(o, recs) && SomeWants(recs, k)
    requires var last := states[|orders|]; !Installed(last.pre, last.out, k, t)
    requires Healable(Claims(o), k) ==> First(Claims(o), k) != Some(t)
    ensures IsRun(recs, orders + [o], states + [s]) && !Installed(s.pre, s.out, k, t)
  {
    s := RunGoesOn(recs, orders, states, o);
    ListingsAgree(o, recs, k);
    TickMovesKey(o, states[|orders|], s, k);
  }

  /** Ticks over one order again and again keep a key from a target that order does not apply. */
  lemma {:induction false} SameOrder(recs: seq<Record>, o: seq<Record>, k: Key, t: Target, s0: Snapshot, n: nat)
    returns (orders: seq<seq<Record>>, states: seq<Snapshot>)
    requires Lists(o, recs) && SomeWants(recs, k) && !Installed(s0.pre, s0.out, k, t)
    requires Healable(Claims(o), k) ==> First(Claims(o), k) != Some(t)
    ensures IsRun(recs, orders, states) && |orders| == n && states[0] == s0
    ensures !Installed(states[n].pre, states[n].out, k, t)
  {
    if n == 0 {
      orders, states := [], [s0];
    } else {
      orders, states := SameOrder(recs, o, k, t, s0, n - 1);
      var s := GoesOnWithout(recs, orders, states, o, k, t);
      orders, states := orders + [o], states + [s];
    }
  }

  /** With a key that is not coherent, after any number of ticks there can still be something to do. */
  lemma Restless(recs: seq<Record>, k: Key, n: nat)
    returns (orders: seq<seq<Record>>, states: seq<Snapshot>, o: seq<Record>)
    requires !Coherent(recs, k)
    ensures IsRun(recs, orders, states) && |orders| == n && Lists(o, recs)
    ensures Heals(states[n].pre, states[n].out, Claims(o), k)
  {
    var r, q :| r in recs && q in recs && Applies(r, k) && !Fits(q, k, Opening(r, k));
    var afterQ := ListedFirst(recs, q);
    if Healable(Claims([q] + afterQ), k) {
      MisfitFirst(q, afterQ, k, Opening(r, k));
    }
    orders, states := SameOrder(recs, [q] + afterQ, k, Opening(r, k), Snapshot([], [], map[]), n);
    o := Displaces(recs, r, states[n], k);
  }

  /** After the run, if it had two ticks, nothing is left to do in any order. */
  ghost predicate Rests(recs: seq<Record>, orders: seq<seq<Record>>, states: seq<Snapshot>, o: seq<Record>) {
    IsRun(recs, orders, states) && |orders| >= 2 && Lists(o, recs) ==> Quiet(Claims(o), states[|orders|])
  }

  /** Ticks in any orders come to rest after two, whatever the chains and strikes were, exactly when every
      key is coherent. */
  lemma RestsExactly(recs: seq<Record>)
    ensures AllCoherent(recs) <==> forall orders, states, o :: Rests(recs, orders, states, o)
  {
    if AllCoherent(recs) {
      forall orders, states, o
        ensures Rests(recs, orders, states, o)
      {
        if IsRun(recs, orders, states) && |orders| >= 2 && Lists(o, recs) {
          RunSettles(recs, orders, states, |orders|);
          SettledIsQuiet(recs, o, states[0], states[|orders|]);
        }
      }
    } else {
      var k :| !Coherent(recs, k);
      var orders, states, o := Restless(recs, k, 2);
      assert !Rests(recs, orders, states, o);
    }
  }

  // ----- When ticks never come to rest -----

  /** The number of ticks of a run that re-apply the key. */
  ghost function Reapplied(orders: seq<seq<Record>>, states: seq<Snapshot>, k: Key): nat
    requires |states| == |orders| + 1
  {
    if orders == [] then 0
    else
      var n := |orders| - 1;
      Reapplied(orders[..n], states[..n + 1], k) +
      if Heals(states[n].pre, states[n].out, Claims(orders[n]), k) then 1 else 0
  }

  /** If the live records agree on the opening of a key, it is re-applied at most once, in any run. */
  lemma {:induction false} ReappliedOnce(recs: seq<Record>, orders: seq<seq<Record>>, states: seq<Snapshot>, k: Key)
    requires IsRun(recs, orders, states) && LiveAgree(recs, k)
    ensures Reapplied(orders, states, k) <= 1
    ensures Reapplied(orders, states, k) == 1 ==> Applied(recs, states[|orders|], k)
  {
    if orders != [] {
      var n := |orders| - 1;
      RunShorter(recs, orders, states);
      ReappliedOnce(recs, orders[..n], states[..n + 1], k);
      assert Lists(orders[n], recs);
      AppliedStays(recs, orders[n], states[n], states[n + 1], k);
    }
  }

  lemma AppliedStays(recs: seq<Record>, o: seq<Record>, s: Snapshot, s': Snapshot, k: Key)
    requires Lists(o, recs) && TickStep(Claims(o), s, s') && LiveAgree(recs, k)
    ensures Heals(s.pre, s.out, Claims(o), k) ==> Applied(recs, s', k) && !Applied(recs, s, k)
    ensures Applied(recs, s, k) ==> Applied(recs, s', k)
  {
    var cs := Claims(o);
    ListingsAgree(o, recs, k);
    HealsExactly(s.pre, s.out, cs, k);
    if Healable(cs, k) {
      var r := HealableIsOpening(o, k);
      SameMember(o, recs, r);
      TickMovesKey(o, s, s', k);
      assert AppliedBy(r, s', k);
    } else if Applied(recs, s, k) {
      var r :| r in recs && AppliedBy(r, s, k);
      SameMember(o, recs, r);
      TickMovesKey(o, s, s', k);
      assert AppliedBy(r, s', k);
    }
  }

  /** If two live records open a key with different targets, then from any state there are orders in which
      every tick evicts the key's rule and adds the other one. */
  lemma {:induction false} Churns(recs: seq<Record>, k: Key, s0: Snapshot, n: nat)
    returns (orders: seq<seq<Record>>, states: seq<Snapshot>)
    requires !LiveAgree(recs, k)
    ensures IsRun(recs, orders, states) && |orders| == n && states[0] == s0
    ensures Reapplied(orders, states, k) == n
  {
    if n == 0 {
      return [], [s0];
    }
    orders, states := Churns(recs, k, s0, n - 1);
    var s := states[n - 1];
    var a, b :| a in recs && b in recs && Applies(a, k) && Applies(b, k) && Opening(a, k) != Opening(b, k);
    var o := Displaces(recs, if Installed(s.pre, s.out, k, Opening(a, k)) then b else a, s, k);
    var s' := GoesOnReapplying(recs, orders, states, o, k);
    orders, states := orders + [o], states + [s'];
  }

  lemma GoesOnReapplying(recs: seq<Record>, orders: seq<seq<Record>>, states: seq<Snapshot>, o: seq<Record>, k: Key)
    returns (s: Snapshot)
    requires IsRun(recs, orders, states) && Lists(o, recs)
    requires var last := states[|orders|]; Heals(last.pre, last.out, Claims(o), k)
    ensures IsRun(recs, orders + [o], states + [s])
    ensures Reapplied(orders + [o], states + [s], k) == Reapplied(orders, states, k) + 1
  {
    s := RunGoesOn(recs, orders, states, o);
    assert (orders + [o])[..|orders|] == orders && (states + [s])[..|orders| + 1] == states;
  }

  /** A live record whose opening is not installed displaces what is, when it is listed first. */
  lemma Displaces(recs: seq<Record>, r: Record, s: Snapshot, k: Key) returns (o: seq<Record>)
    requires r in recs && Applies(r, k) && !Installed(s.pre, s.out, k, Opening(r, k))
    ensures Lists(o, recs) && Heals(s.pre, s.out, Claims(o), k)
  {
    var rest := ListedFirst(recs, r);
    o := [r] + rest;
    LiveFirstIsHealable(r, rest, k);
    HealsExactly(s.pre, s.out, Claims(o), k);
  }

  /** A key can be re-applied twice in a run, and then without end, exactly when two live records open it
      with different targets. */
  lemma ChurnsExactly(recs: seq<Record>, k: Key)
    ensures LiveAgree(recs, k) <==>
            forall orders, states :: IsRun(recs, orders, states) ==> Reapplied(orders, states, k) <= 1
  {
    if LiveAgree(recs, k) {
      forall orders, states | IsRun(recs, orders, states)
        ensures Reapplied(orders, states, k) <= 1
      {
        ReappliedOnce(recs, orders, states, k);
      }
    } else {
      var orders, states := Churns(recs, k, Snapshot([], [], map[]), 2);
    }
  }

  function Web(ip: string): Record {
    Record(ip, [Binding(None, 8080, 80)], Live)
  }

  /** Two running containers that both publish tcp port 8080 are enough. */
  lemma TwoOnOnePortChurn(s0: Snapshot, n: nat) returns (orders: seq<seq<Record>>, states: seq<Snapshot>)
    ensures IsRun([Web("10.0.3.2"), Web("10.0.3.3")], orders, states) && |orders| == n && states[0] == s0
    ensures Reapplied(orders, states, Key(Tcp, 8080)) == n
  {
    var a, b := Web("10.0.3.2"), Web("10.0.3.3");
    var k := Key(Tcp, 8080);
    OneBinding(a, k);
    OneBinding(b, k);
    assert a in [a, b] && b in [a, b] && Applies(a, k) && Applies(b, k);
    assert "10.0.3.2"[7] != "10.0.3.3"[7];
    orders, states := Churns([a, b], k, s0, n);
  }

  lemma OneBinding(r: Record, k: Key)
    requires r.ip != "" && r.probe.Live? && |r.bindings| == 1 && ClaimOf(r, r.bindings[0]).key == k
    ensures Wants(r, k) && Opening(r, k) == Target(r.ip, r.bindings[0].containerPort)
  {
    var c := ClaimOf(r, r.bindings[0]);
    assert RecordClaims(r) == [c];
    FirstOfAlike([c], k, 0);
  }

  // ----- Claims that agree -----

  /** No two claims want different targets for one key, and every state was read. */
  ghost predicate Agreed(recs: seq<Record>) {
    forall r, q, k :: r in recs && q in recs && Wants(r, k) && Wants(q, k) ==>
      r.probe.Live? && OnlyWants(q, k, Opening(r, k))
  }

  /** Each chain holds exactly one correct rule for every claimed key and nothing else. */
  ghost predicate Converged(recs: seq<Record>, s: Snapshot) {
    && (forall r, k :: r in recs && Wants(r, k) ==> Installed(s.pre, s.out, k, Opening(r, k)))
    && (forall k :: !SomeWants(recs, k) ==> !Published(s.pre, s.out, k))
  }

  lemma OpeningIsWanted(r: Record, k: Key, t: Target)
    requires Wants(r, k) && OnlyWants(r, k, t)
    ensures Opening(r, k) == t
  {
    FirstIsClaimed(RecordClaims(r), k);
  }

  lemma AgreedIsCoherent(recs: seq<Record>)
    requires Agreed(recs)
    ensures AllCoherent(recs)
  {
    forall r, q, k | r in recs && q in recs && Applies(r, k)
      ensures Fits(q, k, Opening(r, k))
    {
      if Wants(q, k) {
        OpeningIsWanted(q, k, Opening(r, k));
      } else {
        UnwantedFits(q, k, Opening(r, k));
      }
    }
  }

  lemma SettledIsConverged(recs: seq<Record>, s0: Snapshot, s: Snapshot)
    requires Agreed(recs) && Settled(recs, s0, s)
    ensures Converged(recs, s)
  {
    AgreedIsCoherent(recs);
    forall r, k | r in recs && Wants(r, k)
      ensures Installed(s.pre, s.out, k, Opening(r, k))
    {
      assert EndsAs(recs, s0, s, k) && Coherent(recs, k) && Applies(r, k);
      var q :| q in recs && AppliedBy(q, s, k);
      OpeningIsWanted(r, k, Opening(q, k));
    }
    forall k | !SomeWants(recs, k)
      ensures !Published(s.pre, s.out, k)
    {
      assert EndsAs(recs, s0, s, k);
    }
  }

  /** From any chains and any strikes, in any orders, two ticks over claims that agree converge, and
      further ones have nothing to do. */
  lemma AgreedConverge(recs: seq<Record>, orders: seq<seq<Record>>, states: seq<Snapshot>, o: seq<Record>)
    requires Agreed(recs) && IsRun(recs, orders, states) && |orders| >= 2 && Lists(o, recs)
    ensures Converged(recs, states[|orders|]) && Quiet(Claims(o), states[|orders|])
  {
    RunSettles(recs, orders, states, |orders|);
    SettledIsConverged(recs, states[0], states[|orders|]);
    AgreedIsCoherent(recs);
    SettledIsQuiet(recs, o, states[0], states[|orders|]);
  }

  // ----- The reconciler itself -----

  lemma {:induction false} ClaimHasRecord(recs: seq<Record>, c: Claim)
    ensures c in Claims(recs) <==> exists r :: r in recs && c in RecordClaims(r)
  {
    if recs != [] {
      var x, rest := recs[0], recs[1..];
      ClaimHasRecord(rest, c);
      assert forall r :: r in recs <==> r == x || r in rest;
      assert c in RecordClaims(x) ==> exists r :: r in recs && c in RecordClaims(r);
    }
  }

  lemma ListedWellFormed(o: seq<Record>, recs: seq<Record>)
    requires Lists(o, recs) && WellFormedClaims(Claims(recs))
    ensures WellFormedClaims(Claims(o))
  {
    forall c | c in Claims(o)
      ensures WellFormedRule(Rule(c.key, c.target))
    {
      ClaimHasRecord(o, c);
      ClaimHasRecord(recs, c);
      var r :| r in o && c in RecordClaims(r);
      SameMember(o, recs, r);
    }
  }

  /** The ticks at which the nft state could be read. */
  function Readable(readable: seq<bool>): nat {
    if readable == [] then 0 else Readable(readable[..|readable| - 1]) + if readable[|readable| - 1] then 1 else 0
  }

  /** Any number of ticks over a fixed population, from any chains and any strikes, each over a listing in
      its own order. After the second completed tick every key has ended as it ends; if all keys are
      coherent nothing is added or removed any more, and if the claims agree exactly the wanted rules are
      there. */
  method RunTicks(m: Reconciler, recs: seq<Record>, orders: seq<seq<Record>>, readable: seq<bool>)
    returns (completed: nat, ok: bool, late: nat)
    requires m.Valid() && WellFormedClaims(Claims(recs))
    requires |orders| == |readable| && forall i :: 0 <= i < |orders| ==> Lists(orders[i], recs)
    modifies m, m.table
    ensures m.Valid() && completed == Readable(readable) && (m.table.reliable ==> ok)
    ensures ok && completed >= 2 ==> Settled(recs, old(m.View()), m.View())
    ensures ok && completed >= 2 && Agreed(recs) ==> Converged(recs, m.View())
    ensures ok && AllCoherent(recs) ==> late == 0
  {
    completed, ok, late := 0, true, 0;
    ghost var s0 := m.View();
    assert readable[..0] == [];
    for i := 0 to |readable|
      invariant m.Valid() && completed == Readable(readable[..i]) && (m.table.reliable ==> ok)
      invariant ok ==> Advanced(recs, s0, m.View(), completed)
      invariant ok && AllCoherent(recs) ==> late == 0
    {
      ghost var before := m.View();
      ListedWellFormed(orders[i], recs);
      var done, fine, changes := m.Tick(orders[i], readable[i]);
      assert readable[..i + 1][..i] == readable[..i];
      if ok && completed >= 2 && AllCoherent(recs) {
        SettledIsQuiet(recs, orders[i], s0, before);
      }
      if done && completed >= 2 {
        late := late + changes;
      }
      if done && fine && ok {
        TickAdvances(recs, orders[i], s0, before, m.View(), completed);
      }
      ok := ok && fine;
      if done {
        completed := completed + 1;
      }
    }
    assert readable[..|readable|] == readable;
    if ok && completed >= 2 && Agreed(recs) {
      SettledIsConverged(recs, s0, m.View());
    }
  }

  /** One tick that lists r before q applies r's opening, and changes the table unless it was there. */
  method TickFirst(m: Reconciler, r: Record, q: Record, ghost k: Key) returns (changes: nat)
    requires m.Valid() && m.table.reliable && WellFormedClaims(Claims([r, q])) && Applies(r, k)
    modifies m, m.table
    ensures m.Valid()
    ensures AppliedBy(r, m.View(), k)
    ensures !old(AppliedBy(r, m.View(), k)) ==> changes > 0
  {
    ghost var s := m.View();
    var _, _, n := m.Tick([r, q], true);
    changes := n;
    assert [r] + [q] == [r, q] && r in [r, q];
    LiveFirstIsHealable(r, [q], k);
    TickMovesKey([r, q], s, m.View(), k);
    HealsExactly(s.pre, s.out, Claims([r, q]), k);
  }

  lemma SwapWellFormed(a: Record, b: Record)
    requires WellFormedClaims(Claims([a, b]))
    ensures WellFormedClaims(Claims([b, a]))
  {
    assert multiset([b, a]) == multiset([a, b]);
    ListedWellFormed([b, a], [a, b]);
  }

  /** The reconciler itself, over two live records that open a key differently and are listed now in one
      order, now in the other: from any chains and strikes, every tick after the first changes the table. */
  method Alternate(m: Reconciler, a: Record, b: Record, ghost k: Key, n: nat) returns (changes: seq<nat>)
    requires m.Valid() && m.table.reliable && WellFormedClaims(Claims([a, b]))
    requires Applies(a, k) && Applies(b, k) && Opening(a, k) != Opening(b, k)
    modifies m, m.table
    ensures |changes| == n && forall i :: 1 <= i < n ==> changes[i] > 0
  {
    SwapWellFormed(a, b);
    changes := [];
    var r, q := a, b;
    while |changes| < n
      invariant |changes| <= n && m.Valid() && ((r == a && q == b) || (r == b && q == a))
      invariant changes != [] ==> AppliedBy(q, m.View(), k)
      invariant forall i :: 1 <= i < |changes| ==> changes[i] > 0
    {
      var more := TickFirst(m, r, q, k);
      changes := changes + [more];
      r, q := q, r;
    }
  }
}
