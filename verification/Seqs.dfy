/** Filtering and collecting over sequences. */
module Seqs {
  import opened Wrappers

  /** The results of a partial function, in order. */
  function Collect<A, B>(s: seq<A>, f: A -> Option<B>): seq<B> {
    if s == [] then [] else (if f(s[0]).Some? then [f(s[0]).value] else []) + Collect(s[1..], f)
  }

  lemma {:induction false} CollectAppend<A, B>(a: seq<A>, b: seq<A>, f: A -> Option<B>)
    ensures Collect(a + b, f) == Collect(a, f) + Collect(b, f)
  {
    if a == [] {
      assert a + b == b;
    } else {
      CollectAppend(a[1..], b, f);
      assert (a + b)[1..] == a[1..] + b && (a + b)[0] == a[0];
    }
  }

  lemma CollectThree<A, B>(a: seq<A>, b: seq<A>, c: seq<A>, f: A -> Option<B>)
    ensures Collect(a + b + c, f) == Collect(a, f) + Collect(b, f) + Collect(c, f)
  {
    CollectAppend(a + b, c, f);
    CollectAppend(a, b, f);
  }

  lemma {:induction false} CollectNone<A, B>(s: seq<A>, f: A -> Option<B>)
    requires forall i :: 0 <= i < |s| ==> f(s[i]).None?
    ensures Collect(s, f) == []
  {
    if s != [] {
      CollectNone(s[1..], f);
    }
  }

  lemma {:induction false} CollectAll<A, B>(s: seq<A>, f: A -> Option<B>, r: seq<B>)
    requires |s| == |r| && forall i :: 0 <= i < |s| ==> f(s[i]) == Some(r[i])
    ensures Collect(s, f) == r
  {
    if s != [] {
      assert f(s[0]) == Some(r[0]);
      CollectAll(s[1..], f, r[1..]);
      assert [r[0]] + r[1..] == r;
    }
  }

  lemma {:induction false} CollectSame<A, B, C>(s: seq<A>, f: A -> Option<C>, t: seq<B>, g: B -> Option<C>)
    requires |s| == |t| && forall i :: 0 <= i < |s| ==> f(s[i]) == g(t[i])
    ensures Collect(s, f) == Collect(t, g)
  {
    if s != [] {
      assert f(s[0]) == g(t[0]);
      CollectSame(s[1..], f, t[1..], g);
    }
  }

  /** The elements that satisfy p, in order. */
  function Keep<A>(s: seq<A>, p: A -> bool): (r: seq<A>)
    ensures |r| <= |s|
  {
    if s == [] then [] else (if p(s[0]) then [s[0]] else []) + Keep(s[1..], p)
  }

  lemma {:induction false} KeepMember<A>(s: seq<A>, p: A -> bool, x: A)
    ensures x in Keep(s, p) <==> x in s && p(x)
  {
    if s != [] {
      KeepMember(s[1..], p, x);
      assert s == [s[0]] + s[1..];
    }
  }

  lemma KeepCons<A>(x: A, s: seq<A>, p: A -> bool)
    ensures Keep([x] + s, p) == (if p(x) then [x] else []) + Keep(s, p)
  {
    assert ([x] + s)[1..] == s;
  }

  lemma {:induction false} KeepAppend<A>(a: seq<A>, b: seq<A>, p: A -> bool)
    ensures Keep(a + b, p) == Keep(a, p) + Keep(b, p)
  {
    if a == [] {
      assert a + b == b;
    } else {
      KeepAppend(a[1..], b, p);
      KeepCons(a[0], a[1..] + b, p);
      KeepCons(a[0], a[1..], p);
      assert a + b == [a[0]] + (a[1..] + b) && a == [a[0]] + a[1..];
    }
  }

  /** Filtering twice is filtering by both. */
  lemma {:induction false} KeepKeep<A>(s: seq<A>, p: A -> bool, q: A -> bool, both: A -> bool)
    requires forall i :: 0 <= i < |s| ==> (both(s[i]) <==> p(s[i]) && q(s[i]))
    ensures Keep(Keep(s, p), q) == Keep(s, both)
  {
    if s != [] {
      assert both(s[0]) <==> p(s[0]) && q(s[0]);
      KeepKeep(s[1..], p, q, both);
      if p(s[0]) {
        assert Keep(s, p)[1..] == Keep(s[1..], p);
      } else {
        assert Keep(s, p) == Keep(s[1..], p);
      }
    }
  }

  lemma {:induction false} KeepSame<A>(s: seq<A>, p: A -> bool, q: A -> bool)
    requires forall i :: 0 <= i < |s| ==> (p(s[i]) <==> q(s[i]))
    ensures Keep(s, p) == Keep(s, q)
  {
    if s != [] {
      assert p(s[0]) <==> q(s[0]);
      KeepSame(s[1..], p, q);
    }
  }

  lemma {:induction false} KeepAll<A>(s: seq<A>, p: A -> bool)
    requires forall i :: 0 <= i < |s| ==> p(s[i])
    ensures Keep(s, p) == s
  {
    if s != [] {
      KeepAll(s[1..], p);
    }
  }
}
