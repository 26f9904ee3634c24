/** Guest ids for Proxmox containers: the allocator with its reservations, and the protocol that
    concurrent creates follow with it. */
module Vmid {
  import opened Wrappers

  const LOWER_BOUND := 100

  datatype Id = Id(n: int)

  datatype Failure = ScanFailed | InUse(id: Id) | BeingCreated(id: Id)

  // ----- What a grant is -----

  /** id is the least one at or above the lower bound that is not taken. */
  ghost predicate LeastFree(taken: set<Id>, id: Id) {
    && id.n >= LOWER_BOUND
    && id !in taken
    && forall k: int {:trigger Id(k)} :: LOWER_BOUND <= k < id.n ==> Id(k) in taken
  }

  /** A request is granted this id: the pinned one if it is free, else the least free one. */
  ghost predicate Grants(reserved: set<Id>, used: set<Id>, requested: int, id: Id) {
    if requested > 0 then id == Id(requested) && id !in used && id !in reserved
    else LeastFree(used + reserved, id)
  }

  /** An unpinned request first drops the reservations that have become configs. */
  function Reserved(reserved: set<Id>, used: set<Id>, requested: int, id: Id): set<Id> {
    (if requested > 0 then reserved else reserved - used) + {id}
  }

  class Allocator {
    var reserved: set<Id>

    constructor ()
      ensures reserved == {}
    {
      reserved := {};
    }

    /** Drops every reservation whose config is now on disk. */
    method DropCommitted(used: set<Id>)
      modifies this
      ensures reserved == old(reserved) - used
    {
      var todo := reserved;
      while todo != {}
        invariant todo <= old(reserved)
        invariant reserved == old(reserved) - (used - todo)
        decreases |todo|
      {
        var id :| id in todo;
        if id in used {
          reserved := reserved - {id};
        }
        todo := todo - {id};
      }
    }

    /** The scan from the lower bound ends at the least free id. */
    method FirstFree(used: set<Id>) returns (id: Id)
      ensures LeastFree(used + reserved, id)
    {
      id := Id(LOWER_BOUND);
      ghost var ahead := used + reserved;
      while id in used || id in reserved
        invariant id.n >= LOWER_BOUND
        invariant forall k: int {:trigger Id(k)} :: LOWER_BOUND <= k < id.n ==> Id(k) in used + reserved
        invariant forall v: Id :: v in used + reserved && v.n >= id.n ==> v in ahead
        decreases |ahead|
      {
        ahead := ahead - {id};
        id := Id(id.n + 1);
      }
    }

    /** allocateVMID. A pinned request gets its id or fails with the reservations unchanged; an unpinned
        one always gets the least free id unless the scan fails. */
    method Allocate(requested: int, scan: Option<set<Id>>) returns (r: Result<Id, Failure>)
      modifies this
      ensures scan.None? ==> r == Err(ScanFailed) && reserved == old(reserved)
      ensures scan.Some? && r.Ok? ==>
                && Grants(old(reserved), scan.value, requested, r.value)
                && reserved == Reserved(old(reserved), scan.value, requested, r.value)
      ensures scan.Some? && r.Err? ==>
                && requested > 0
                && reserved == old(reserved)
                && (if Id(requested) in scan.value then r.error == InUse(Id(requested))
                    else r.error == BeingCreated(Id(requested)) && Id(requested) in reserved)
    {
      if scan.None? {
        return Err(ScanFailed);
      }
      var used := scan.value;
      if requested > 0 {
        if Id(requested) in used {
          return Err(InUse(Id(requested)));
        }
        if Id(requested) in reserved {
          return Err(BeingCreated(Id(requested)));
        }
        reserved := reserved + {Id(requested)};
        return Ok(Id(requested));
      }
      DropCommitted(used);
      assert used + reserved == used + old(reserved);
      var id := FirstFree(used);
      reserved := reserved + {id};
      return Ok(id);
    }

    /** releaseVMID */
    method Release(id: Id)
      modifies this
      ensures reserved == old(reserved) - {id}
    {
      reserved := reserved - {id};
    }
  }

  /** A request has at most one possible grant. */
  lemma GrantIsUnique(reserved: set<Id>, used: set<Id>, requested: int, a: Id, b: Id)
    requires Grants(reserved, used, requested, a) && Grants(reserved, used, requested, b)
    ensures a == b
  {
    assert a == Id(a.n) && b == Id(b.n);
  }

  // ----- Concurrent creates -----

  /** One create in flight; a template CT made on the way to a linked clone is a create of its own. */
  datatype Create = Create(n: nat)

  /** configs are the guest configs on disk; held are the ids that creates in flight work on. */
  datatype State = State(reserved: set<Id>, configs: set<Id>, held: map<Create, Id>)

  datatype Event =
    | Allocate(c: Create, requested: int, id: Id)
    | WriteConfig(c: Create)
    | RemoveConfig(c: Create)
    | Release(c: Create)
    | OtherGuestAdded(id: Id)
    | OtherGuestRemoved(id: Id)

  ghost predicate Enabled(s: State, e: Event) {
    match e
    case Allocate(c, requested, id) => c !in s.held && Grants(s.reserved, s.configs, requested, id)
    case WriteConfig(c) => c in s.held
    case RemoveConfig(c) => c in s.held
    case Release(c) => c in s.held
    case OtherGuestAdded(_) => true
    case OtherGuestRemoved(_) => true
  }

  ghost function Step(s: State, e: Event): State
    requires Enabled(s, e)
  {
    match e
    case Allocate(c, requested, id) =>
      s.(reserved := Reserved(s.reserved, s.configs, requested, id), held := s.held[c := id])
    case WriteConfig(c) => s.(configs := s.configs + {s.held[c]})
    case RemoveConfig(c) => s.(configs := s.configs - {s.held[c]})
    case Release(c) => s.(reserved := s.reserved - {s.held[c]}, held := s.held - {c})
    case OtherGuestAdded(id) => s.(configs := s.configs + {id})
    case OtherGuestRemoved(id) => s.(configs := s.configs - {id})
  }

  /** The state a run of enabled events ends in. */
  ghost function Run(s: State, es: seq<Event>): Option<State> {
    if es == [] then Some(s)
    else
      var mid := Run(s, es[..|es| - 1]);
      if mid.Some? && Enabled(mid.value, es[|es| - 1]) then Some(Step(mid.value, es[|es| - 1])) else None
  }

  ghost predicate Distinct(s: State) {
    forall c, d :: c in s.held && d in s.held && c != d ==> s.held[c] != s.held[d]
  }

  /** An id being worked on is reserved or has its config on disk. */
  ghost predicate Covered(s: State) {
    forall c :: c in s.held ==> s.held[c] in s.reserved || s.held[c] in s.configs
  }

  /** A reservation belongs to a create in flight. */
  ghost predicate NoLeak(s: State) {
    forall id :: id in s.reserved ==> id in s.held.Values
  }

  /** Only positive ids are granted. */
  ghost predicate Positive(s: State) {
    forall c :: c in s.held ==> s.held[c].n > 0
  }

  ghost predicate Inv(s: State) {
    Distinct(s) && Covered(s) && NoLeak(s) && Positive(s)
  }

  /** The event takes away the config that alone protects an id still being worked on. */
  ghost predicate Exposes(s: State, e: Event)
    requires Enabled(s, e)
  {
    && (e.RemoveConfig? || e.OtherGuestRemoved?)
    && var id := if e.RemoveConfig? then s.held[e.c] else e.id;
       id in s.held.Values && id !in s.reserved
  }

  lemma AllocateKeeps(s: State, e: Event)
    requires Inv(s) && e.Allocate? && Enabled(s, e)
    ensures Inv(Step(s, e))
  {
    var t := Step(s, e);
    forall id | id in t.reserved
      ensures id in t.held.Values
    {
      if id == e.id {
        assert t.held[e.c] == id;
      } else {
        assert id in s.held.Values;
        var c :| c in s.held && s.held[c] == id;
        assert t.held[c] == id;
      }
    }
  }

  lemma ReleaseKeeps(s: State, e: Event)
    requires Inv(s) && e.Release? && Enabled(s, e)
    ensures Inv(Step(s, e))
  {
    var t := Step(s, e);
    forall id | id in t.reserved
      ensures id in t.held.Values
    {
      assert id in s.held.Values;
      var c :| c in s.held && s.held[c] == id;
      assert t.held[c] == id;
    }
  }

  /** A step keeps the invariant just when it does not expose an id. */
  lemma InvKeptExactly(s: State, e: Event)
    requires Inv(s) && Enabled(s, e)
    ensures Inv(Step(s, e)) <==> !Exposes(s, e)
  {
    if e.Allocate? {
      AllocateKeeps(s, e);
    } else if e.Release? {
      ReleaseKeeps(s, e);
    } else if Exposes(s, e) {
      var id := if e.RemoveConfig? then s.held[e.c] else e.id;
      var c :| c in s.held && s.held[c] == id;
      assert !Covered(Step(s, e)) by {
        assert Step(s, e).held[c] == id;
      }
    }
  }

  /** A run of which no event exposes an id. */
  ghost predicate Careful(s: State, es: seq<Event>) {
    && Run(s, es).Some?
    && (es != [] ==> Careful(s, es[..|es| - 1]) && !Exposes(Run(s, es[..|es| - 1]).value, es[|es| - 1]))
  }

  lemma {:induction false} CarefulKeeps(s: State, es: seq<Event>)
    requires Inv(s) && Careful(s, es)
    ensures Inv(Run(s, es).value)
  {
    if es != [] {
      CarefulKeeps(s, es[..|es| - 1]);
      InvKeptExactly(Run(s, es[..|es| - 1]).value, es[|es| - 1]);
    }
  }

  /** Over every careful run from an idle daemon, no two creates in flight hold one id; an id handed out
      next has no config and no other holder; and once no create is in flight nothing is reserved. */
  lemma HandedOutOnce(configs: set<Id>, es: seq<Event>)
    requires Careful(State({}, configs, map[]), es)
    ensures var t := Run(State({}, configs, map[]), es).value;
            && Distinct(t)
            && (forall c: Create, requested: int, id: Id ::
                  Enabled(t, Allocate(c, requested, id)) ==> id !in t.configs && id !in t.held.Values)
            && (t.held == map[] ==> t.reserved == {})
  {
    CarefulKeeps(State({}, configs, map[]), es);
  }

  // ----- An id held twice -----

  /** Some request would be granted an id that a create in flight holds. */
  ghost predicate Repeats(s: State) {
    exists c: Create, requested: int, id: Id :: Enabled(s, Allocate(c, requested, id)) && id in s.held.Values
  }

  /** A grant of a held id is exactly what makes two creates hold one id. */
  lemma RepeatIsTwice(s: State, c: Create, requested: int, id: Id)
    requires Distinct(s) && Enabled(s, Allocate(c, requested, id))
    ensures Distinct(Step(s, Allocate(c, requested, id))) <==> id !in s.held.Values
  {
    var t := Step(s, Allocate(c, requested, id));
    if id in s.held.Values {
      var d :| d in s.held && s.held[d] == id;
      assert t.held[c] == id && t.held[d] == id;
    } else {
      assert forall d :: d in s.held ==> s.held[d] in s.held.Values;
    }
  }

  lemma {:induction false} CreateBound(cs: set<Create>) returns (n: nat)
    ensures forall c :: c in cs ==> c.n < n
    decreases |cs|
  {
    n := 0;
    if cs != {} {
      var c :| c in cs;
      n := CreateBound(cs - {c});
      n := if n <= c.n then c.n + 1 else n;
    }
  }

  /** After a step that exposes an id, a create that asks for just that id is given it again. */
  lemma ExposedRepeats(s: State, e: Event)
    requires Inv(s) && Enabled(s, e) && Exposes(s, e)
    ensures Repeats(Step(s, e))
  {
    var id := if e.RemoveConfig? then s.held[e.c] else e.id;
    var holder :| holder in s.held && s.held[holder] == id;
    var n := CreateBound(s.held.Keys);
    assert Create(n) !in s.held;
    assert Enabled(Step(s, e), Allocate(Create(n), id.n, id));
  }

  ghost predicate LeadsToRepeat(s: State, es: seq<Event>) {
    Careful(s, es) && Repeats(Run(s, es).value)
  }

  lemma InvNeverRepeats(s: State)
    requires Inv(s)
    ensures !Repeats(s)
  {
    forall c: Create, requested: int, id: Id | Enabled(s, Allocate(c, requested, id))
      ensures id !in s.held.Values
    {
      assert forall d :: d in s.held ==> s.held[d] in s.reserved || s.held[d] in s.configs;
    }
  }

  /** A step lets some continuation that exposes nothing more hand a held id out exactly when it exposes
      one itself. */
  lemma KeptExactly(s: State, e: Event)
    requires Inv(s) && Enabled(s, e)
    ensures Exposes(s, e) <==> exists es: seq<Event> :: LeadsToRepeat(Step(s, e), es)
  {
    var t := Step(s, e);
    if Exposes(s, e) {
      ExposedRepeats(s, e);
      var none: seq<Event> := [];
      assert LeadsToRepeat(t, none);
    } else {
      InvKeptExactly(s, e);
      forall es: seq<Event>
        ensures !LeadsToRepeat(t, es)
      {
        if Careful(t, es) {
          CarefulKeeps(t, es);
          InvNeverRepeats(Run(t, es).value);
        }
      }
    }
  }

  // ----- Pinned ids -----

  lemma PinnedStep(s: State, e: Event)
    requires s.held.Values <= s.reserved && Inv(s) && Enabled(s, e) && (e.Allocate? ==> e.requested > 0)
    ensures !Exposes(s, e) && Step(s, e).held.Values <= Step(s, e).reserved
  {
    var t := Step(s, e);
    forall id | id in t.held.Values
      ensures id in t.reserved
    {
      var c :| c in t.held && t.held[c] == id;
      assert c in s.held ==> s.held[c] in s.held.Values;
    }
  }

  /** If every request is pinned no reservation is dropped early, so any removal is careful. */
  lemma {:induction false} PinnedIsCareful(s: State, es: seq<Event>)
    requires Inv(s) && s.held.Values <= s.reserved && Run(s, es).Some?
    requires forall i :: 0 <= i < |es| && es[i].Allocate? ==> es[i].requested > 0
    ensures Careful(s, es) && Run(s, es).value.held.Values <= Run(s, es).value.reserved
  {
    if es != [] {
      PinnedIsCareful(s, es[..|es| - 1]);
      CarefulKeeps(s, es[..|es| - 1]);
      PinnedStep(Run(s, es[..|es| - 1]).value, es[|es| - 1]);
    }
  }

  // ----- A clean-up before the release can hand an id out twice -----

  lemma Extend(s: State, es: seq<Event>, mid: State, e: Event, t: State)
    requires Run(s, es) == Some(mid) && Enabled(mid, e) && Step(mid, e) == t
    ensures Run(s, es + [e]) == Some(t)
  {
    assert (es + [e])[..|es|] == es;
  }

  /** A create writes its config, another allocates and drops its reservation, the first removes its
      config: neither config nor reservation protects id 100 any more. */
  lemma TwoCreates(a: Create, b: Create)
    requires a != b
    ensures Run(State({}, {}, map[]),
                [Allocate(a, 0, Id(100)), WriteConfig(a), Allocate(b, 0, Id(101)), RemoveConfig(a)])
         == Some(State({Id(101)}, {}, map[a := Id(100), b := Id(101)]))
  {
    var s0 := State({}, {}, map[]);
    var e1, e2, e3, e4 := Allocate(a, 0, Id(100)), WriteConfig(a), Allocate(b, 0, Id(101)), RemoveConfig(a);
    var s1 := State({Id(100)}, {}, map[a := Id(100)]);
    var s2 := s1.(configs := {Id(100)});
    var s3 := State({Id(101)}, {Id(100)}, map[a := Id(100), b := Id(101)]);
    assert {Id(100)} - {Id(100)} == {};
    Extend(s0, [], s0, e1, s1);
    assert [] + [e1] == [e1] && [e1] + [e2] == [e1, e2];
    assert [e1, e2] + [e3] == [e1, e2, e3] && [e1, e2, e3] + [e4] == [e1, e2, e3, e4];
    Extend(s0, [e1], s1, e2, s2);
    Extend(s0, [e1, e2], s2, e3, s3);
    Extend(s0, [e1, e2, e3], s3, e4, s3.(configs := {}));
  }

  /** A failing create removes its config before it releases its id. If another create came by in
      between, its reservation is gone, and a third create is given the same id. */
  lemma CleanUpFirstGivesTwice(a: Create, b: Create, c: Create)
    requires a != b && b != c && a != c
    ensures var t := Run(State({}, {}, map[]),
                         [Allocate(a, 0, Id(100)), WriteConfig(a), Allocate(b, 0, Id(101)), RemoveConfig(a),
                          Allocate(c, 0, Id(100))]);
            t.Some? && a in t.value.held && c in t.value.held && t.value.held[a] == t.value.held[c]
  {
    TwoCreates(a, b);
    var s4 := State({Id(101)}, {}, map[a := Id(100), b := Id(101)]);
    var es := [Allocate(a, 0, Id(100)), WriteConfig(a), Allocate(b, 0, Id(101)), RemoveConfig(a)];
    var e := Allocate(c, 0, Id(100));
    Extend(State({}, {}, map[]), es, s4, e, Step(s4, e));
    assert es + [e] == [Allocate(a, 0, Id(100)), WriteConfig(a), Allocate(b, 0, Id(101)), RemoveConfig(a),
                        Allocate(c, 0, Id(100))];
  }
}
