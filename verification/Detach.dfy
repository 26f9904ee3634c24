/** The detach-key reader on an attached client's input, and the parser of key names. */
module Detach {
  import opened Wrappers
  import opened Text

  // ----- What the reader computes -----

  /** Output decided so far, length of the key prefix withheld, and whether the keys were seen. */
  datatype Scan = Scan(out: string, matched: nat, fired: bool)

  predicate Fits(keys: string, matched: nat) {
    if keys == "" then matched == 0 else matched < |keys|
  }

  function Feed(keys: string, st: Scan, b: char): (r: Scan)
    requires Fits(keys, st.matched)
    ensures Fits(keys, r.matched)
  {
    if st.fired then st
    else if keys == "" then st.(out := st.out + [b])
    else if b == keys[st.matched] then
      if st.matched + 1 == |keys| then Scan(st.out, 0, true) else st.(matched := st.matched + 1)
    else if b == keys[0] then Scan(st.out + keys[..st.matched], 1, false)
    else Scan(st.out + keys[..st.matched] + [b], 0, false)
  }

  /** The scan of a whole stream, however it was cut into reads. */
  function ScanAll(keys: string, s: string): (r: Scan)
    ensures Fits(keys, r.matched)
  {
    if s == "" then Scan("", 0, false) else Feed(keys, ScanAll(keys, s[..|s| - 1]), s[|s| - 1])
  }

  lemma ScanStep(keys: string, s: string, b: char)
    ensures ScanAll(keys, s + [b]) == Feed(keys, ScanAll(keys, s), b)
  {
    assert (s + [b])[..|s|] == s;
  }

  lemma {:induction false} FiredStays(keys: string, s: string, t: string)
    requires ScanAll(keys, s).fired
    ensures ScanAll(keys, s + t) == ScanAll(keys, s)
  {
    if t == "" {
      assert s + t == s;
    } else {
      FiredStays(keys, s, t[..|t| - 1]);
      assert s + t == (s + t[..|t| - 1]) + [t[|t| - 1]];
      ScanStep(keys, s + t[..|t| - 1], t[|t| - 1]);
    }
  }

  // ----- The reader -----

  /** What one read of the underlying stream gives. */
  datatype Arrival = Arrival(bytes: string, err: Option<string>)

  datatype Outcome = Done(err: Option<string>) | Detached

  class EscapeReader {
    const keys: string
    var matched: nat
    var pending: string
    ghost var consumed: string  // since the start or the last detach
    ghost var returned: string

    ghost predicate Valid()
      reads this
    {
      && ScanAll(keys, consumed) == Scan(returned + pending, matched, false)
      && (pending != "" ==> |pending| < |keys|)
    }

    constructor (keys: string)
      ensures Valid() && this.keys == keys && consumed == "" && returned == ""
    {
      this.keys := keys;
      matched, pending, consumed, returned := 0, "", "", "";
    }

    /** One Read into a buffer of the given size; `next` is what the underlying stream gives if it is
        asked. The outcome depends on the bytes consumed so far, not on where the reads cut them. */
    method Read(cap: nat, next: Arrival) returns (data: string, asked: bool, r: Outcome)
      requires Valid() && |next.bytes| <= cap
      modifies this
      ensures Valid() && |data| <= cap
      ensures asked == (old(pending) == "")
      ensures !asked ==> r == Done(None) && data + pending == old(pending) && consumed == old(consumed)
      ensures !asked && cap > 0 ==> |pending| < |old(pending)|
      ensures r.Detached? <==> asked && ScanAll(keys, old(consumed) + next.bytes).fired
      ensures r.Detached? ==> old(returned) + data == ScanAll(keys, old(consumed) + next.bytes).out
      ensures r.Detached? ==> pending == "" && consumed == "" && returned == ""
      ensures asked && !r.Detached? ==> r == Done(next.err) && consumed == old(consumed) + next.bytes
      ensures !r.Detached? ==> returned == old(returned) + data
      ensures asked && !r.Detached? ==> (pending == "" <==> Decided(keys, old(consumed), consumed) <= cap)
    {
      if keys == "" {
        asked := true;
        data, r := Pass(next);
        return;
      }
      if pending != "" {
        asked, r := false, Done(None);
        data := Give(cap, pending);
        return;
      }
      asked := true;
      data, r := Ask(cap, next);
    }

    /** Without keys everything passes through. */
    method Pass(next: Arrival) returns (data: string, r: Outcome)
      requires Valid() && keys == ""
      modifies this`consumed, this`returned
      ensures Valid() && data == next.bytes && r == Done(next.err) && !ScanAll(keys, old(consumed) + next.bytes).fired
      ensures consumed == old(consumed) + next.bytes && returned == old(returned) + data
      ensures pending == "" && Decided(keys, old(consumed), consumed) == |next.bytes|
    {
      data, r := next.bytes, Done(next.err);
      PassThrough(keys, consumed, next.bytes);
      Split2(returned, pending, data, "");
      consumed, returned := consumed + next.bytes, returned + data;
    }

    /** Nothing is pending: the underlying stream is read and its bytes are decided. */
    method Ask(cap: nat, next: Arrival) returns (data: string, r: Outcome)
      requires Valid() && keys != "" && pending == "" && |next.bytes| <= cap
      modifies this
      ensures Valid() && |data| <= cap
      ensures r.Detached? <==> ScanAll(keys, old(consumed) + next.bytes).fired
      ensures r.Detached? ==> old(returned) + data == ScanAll(keys, old(consumed) + next.bytes).out
      ensures r.Detached? ==> pending == "" && consumed == "" && returned == ""
      ensures !r.Detached? ==> r == Done(next.err) && consumed == old(consumed) + next.bytes
      ensures !r.Detached? ==> returned == old(returned) + data
      ensures !r.Detached? ==> (pending == "" <==> Decided(keys, old(consumed), consumed) <= cap)
    {
      var out: string, now: nat, hit: bool;
      out, now, hit := Decide(next.bytes);
      matched := now;
      if hit {
        data, r := out, Detached;
        consumed, returned := "", "";
        return;
      }
      DecidedIs(keys, consumed, consumed + next.bytes, returned, out);
      consumed := consumed + next.bytes;
      data := Give(cap, out);
      r := Done(next.err);
    }

    /** Hands over what fits of the decided output and keeps the rest. */
    method Give(cap: nat, decided: string) returns (data: string)
      requires ScanAll(keys, consumed) == Scan(returned + decided, matched, false)
      requires |decided| <= cap || |decided| - cap < |keys|
      modifies this`pending, this`returned
      ensures Valid() && |data| <= cap && data + pending == decided && returned == old(returned) + data
      ensures cap > 0 && decided != "" ==> |pending| < |decided|
      ensures pending == "" <==> |decided| <= cap
    {
      var n := if cap < |decided| then cap else |decided|;
      data := decided[..n];
      assert decided == data + decided[n..];
      Split2(returned, "", data, decided[n..]);
      pending, returned := decided[n..], returned + data;
    }

    /** The loop over the bytes of one read. */
    method Decide(bytes: string) returns (out: string, now: nat, hit: bool)
      requires Valid() && keys != "" && pending == ""
      ensures hit <==> ScanAll(keys, consumed + bytes).fired
      ensures Fits(keys, now)
      ensures hit ==> ScanAll(keys, consumed + bytes).out == returned + out && now == 0 && |out| < |bytes|
      ensures !hit ==> ScanAll(keys, consumed + bytes) == Scan(returned + out, now, false)
      ensures !hit ==> |out| + now == |bytes| + matched
    {
      out, now, hit := "", matched, false;
      assert consumed + bytes[..0] == consumed && returned + "" == returned + pending;
      for i := 0 to |bytes|
        invariant !hit && Fits(keys, now)
        invariant ScanAll(keys, consumed + bytes[..i]) == Scan(returned + out, now, false)
        invariant |out| + now == i + matched
      {
        NextByte(keys, consumed, bytes, i, returned, out, now);
        var b := bytes[i];
        if b == keys[now] {
          now := now + 1;
          if now == |keys| {
            now, hit := 0, true;
            RestDropped(keys, consumed, bytes, i + 1);
            return;
          }
          continue;
        }
        out := out + keys[..now];
        now := 0;
        if b == keys[0] {
          now := 1;
        } else {
          out := out + [b];
        }
      }
      assert bytes[..|bytes|] == bytes;
    }

    /** The read after `taken` arrivals: it takes the next one unless something is pending. */
    method ReadNext(cap: nat, arrivals: seq<Arrival>, taken: nat) returns (data: string, now: nat, r: Outcome)
      requires Valid() && cap > 0 && taken <= |arrivals| && consumed == Stream(arrivals[..taken])
      requires pending != "" || taken < |arrivals|
      requires forall i :: 0 <= i < |arrivals| ==> |arrivals[i].bytes| <= cap
      modifies this
      ensures Valid() && now <= |arrivals| && now == taken + if old(pending) == "" then 1 else 0
      ensures now == taken ==> r == Done(None) && |pending| < |old(pending)|
      ensures r.Detached? <==> now > taken && ScanAll(keys, Stream(arrivals[..now])).fired
      ensures r.Detached? ==> old(returned) + data == ScanAll(keys, Stream(arrivals[..now])).out
      ensures r.Done? ==> consumed == Stream(arrivals[..now]) && returned == old(returned) + data
      ensures now > taken && r.Done? ==> r.err == arrivals[taken].err
      ensures now > taken && r.Done? ==>
                (pending == "" <==> Decided(keys, Stream(arrivals[..taken]), Stream(arrivals[..now])) <= cap)
    {
      var next := if taken < |arrivals| then arrivals[taken] else Arrival("", None);
      var asked;
      data, asked, r := Read(cap, next);
      now := taken;
      if asked {
        StreamNext(arrivals, taken);
        now := taken + 1;
      }
    }

    /** io.Copy from the reader: reads until a detach, an error, or the arrivals run out. */
    method Copy(cap: nat, arrivals: seq<Arrival>) returns (forwarded: string, taken: nat, r: Outcome)
      requires Valid() && cap > 0 && consumed == "" && returned == ""
      requires forall i :: 0 <= i < |arrivals| ==> |arrivals[i].bytes| <= cap
      modifies this
      ensures Valid() && taken <= |arrivals|
      ensures r.Detached? <==> ScanAll(keys, Stream(arrivals[..taken])).fired
      ensures r.Detached? ==> forwarded == ScanAll(keys, Stream(arrivals[..taken])).out
      ensures r.Done? ==> ScanAll(keys, Stream(arrivals[..taken])) == Scan(forwarded + pending, matched, false)
      ensures r == Done(None) ==> pending == "" && taken == |arrivals|
      ensures forall i :: 0 <= i < taken && (i < taken - 1 || r == Done(None)) ==> arrivals[i].err.None?
      ensures r.Done? && r.err.Some? ==> taken > 0 && r.err == arrivals[taken - 1].err
      ensures r.Done? && r.err.Some? ==> (pending == "" <==>
                Decided(keys, Stream(arrivals[..taken - 1]), Stream(arrivals[..taken])) <= cap)
    {
      forwarded, taken, r := "", 0, Done(None);
      while pending != "" || taken < |arrivals|
        invariant Valid() && taken <= |arrivals| && r == Done(None)
        invariant forwarded == returned && consumed == Stream(arrivals[..taken])
        invariant forall i :: 0 <= i < taken ==> arrivals[i].err.None?
        decreases |arrivals| - taken, |pending|
      {
        var data;
        data, taken, r := ReadNext(cap, arrivals, taken);
        forwarded := forwarded + data;
        if r != Done(None) {
          return;
        }
      }
    }
  }

  /** What was returned before does not matter for the next byte. */
  lemma FeedAfter(keys: string, returned: string, out: string, now: nat, b: char)
    requires Fits(keys, now)
    ensures var f := Feed(keys, Scan(out, now, false), b);
            Feed(keys, Scan(returned + out, now, false), b) == Scan(returned + f.out, f.matched, f.fired)
  {
    assert returned + (out + [b]) == (returned + out) + [b];
    if keys != "" {
      assert returned + (out + keys[..now]) == (returned + out) + keys[..now];
      assert returned + (out + keys[..now] + [b]) == (returned + out) + keys[..now] + [b];
    }
  }

  lemma NextByte(keys: string, s: string, bytes: string, i: nat, returned: string, out: string, now: nat)
    requires i < |bytes| && Fits(keys, now) && ScanAll(keys, s + bytes[..i]) == Scan(returned + out, now, false)
    ensures var f := Feed(keys, Scan(out, now, false), bytes[i]);
            ScanAll(keys, s + bytes[..i + 1]) == Scan(returned + f.out, f.matched, f.fired)
  {
    assert (s + bytes[..i]) + [bytes[i]] == s + bytes[..i + 1];
    ScanStep(keys, s + bytes[..i], bytes[i]);
    FeedAfter(keys, returned, out, now, bytes[i]);
  }

  lemma RestDropped(keys: string, s: string, bytes: string, i: nat)
    requires i <= |bytes| && ScanAll(keys, s + bytes[..i]).fired
    ensures ScanAll(keys, s + bytes) == ScanAll(keys, s + bytes[..i])
  {
    assert (s + bytes[..i]) + bytes[i..] == s + bytes;
    FiredStays(keys, s + bytes[..i], bytes[i..]);
  }

  lemma StreamNext(arrivals: seq<Arrival>, k: nat)
    requires k < |arrivals|
    ensures Stream(arrivals[..k + 1]) == Stream(arrivals[..k]) + arrivals[k].bytes
  {
    assert arrivals[..k + 1][..k] == arrivals[..k];
  }

  function Stream(arrivals: seq<Arrival>): string {
    if arrivals == [] then "" else Stream(arrivals[..|arrivals| - 1]) + arrivals[|arrivals| - 1].bytes
  }

  /** How many bytes more are decided when the input grows from s to t. */
  function Decided(keys: string, s: string, t: string): int {
    |ScanAll(keys, t).out| - |ScanAll(keys, s).out|
  }

  /** An error that comes with bytes ends the copy, and decided output that did not fit is never forwarded:
      here the first of two keys, and then another byte with an error. */
  method CutOff(keys: string, b: char, err: string) returns (forwarded: string, r: Outcome)
    requires |keys| == 2 && b != keys[0] && b != keys[1]
    ensures r == Done(Some(err)) && forwarded == [keys[0]] && ScanAll(keys, [keys[0], b]).out == [keys[0], b]
  {
    var reader := new EscapeReader(keys);
    var arrivals := [Arrival([keys[0]], None), Arrival([b], Some(err))];
    TwoBytes(arrivals, keys[0], b);
    PrefixThenOther(keys, b);
    var taken;
    forwarded, taken, r := reader.Copy(1, arrivals);
    assert taken == 2;
    OneAndOne(forwarded, reader.pending, keys[0], b);
  }

  lemma OneAndOne(s: string, t: string, a: char, b: char)
    requires s + t == [a, b] && t != "" && |t| < 2
    ensures s == [a]
  {
    assert (s + t)[..1] == s;
  }

  lemma TwoBytes(arrivals: seq<Arrival>, a: char, b: char)
    requires |arrivals| == 2 && arrivals[0].bytes == [a] && arrivals[1].bytes == [b]
    ensures Stream(arrivals[..0]) == "" && Stream(arrivals[..1]) == [a] && Stream(arrivals[..2]) == [a, b]
  {
    StreamNext(arrivals, 0);
    StreamNext(arrivals, 1);
  }

  lemma PrefixThenOther(keys: string, b: char)
    requires |keys| == 2 && b != keys[0] && b != keys[1]
    ensures ScanAll(keys, "") == Scan("", 0, false)
    ensures ScanAll(keys, [keys[0]]) == Scan("", 1, false)
    ensures ScanAll(keys, [keys[0], b]) == Scan([keys[0], b], 0, false)
  {
    var a := keys[0];
    ScanStep(keys, "", a);
    assert "" + [a] == [a];
    ScanStep(keys, [a], b);
    assert [a] + [b] == [a, b] && keys[..1] == [a];
  }

  /** What is decided beyond the output returned so far. */
  lemma DecidedIs(keys: string, s: string, t: string, returned: string, out: string)
    requires ScanAll(keys, s).out == returned && ScanAll(keys, t).out == returned + out
    ensures Decided(keys, s, t) == |out|
  {
  }

  lemma Split2(a: string, none: string, b: string, c: string)
    requires none == ""
    ensures a + none + (b + c) == a + (b + c) == (a + b) + c
  {
  }

  lemma {:induction false} PassThrough(keys: string, s: string, t: string)
    requires keys == "" && !ScanAll(keys, s).fired
    ensures ScanAll(keys, s + t) == Scan(ScanAll(keys, s).out + t, 0, false)
  {
    if t == "" {
      assert s + t == s && ScanAll(keys, s).out + t == ScanAll(keys, s).out;
    } else {
      PassThrough(keys, s, t[..|t| - 1]);
      assert s + t == (s + t[..|t| - 1]) + [t[|t| - 1]];
      ScanStep(keys, s + t[..|t| - 1], t[|t| - 1]);
      assert (ScanAll(keys, s).out + t[..|t| - 1]) + [t[|t| - 1]] == ScanAll(keys, s).out + t;
    }
  }

  // ----- Nothing is lost or invented -----

  lemma NotFiredBefore(keys: string, s: string, i: nat)
    requires !ScanAll(keys, s).fired && i <= |s|
    ensures !ScanAll(keys, s[..i]).fired
  {
    assert s[..i] + s[i..] == s;
    if ScanAll(keys, s[..i]).fired {
      FiredStays(keys, s[..i], s[i..]);
    }
  }

  /** One byte more is in the output, or withheld, or completes the keys. */
  lemma FeedConserves(keys: string, st: Scan, b: char)
    requires Fits(keys, st.matched) && !st.fired
    ensures var f := Feed(keys, st, b);
            f.out + (if f.fired then keys else keys[..f.matched]) == st.out + keys[..st.matched] + [b]
  {
    if keys != "" && b == keys[st.matched] {
      KeysGrow(keys, st.matched);
    } else if keys != "" && b == keys[0] {
      KeysGrow(keys, 0);
    }
  }

  lemma KeysGrow(keys: string, m: nat)
    requires m < |keys|
    ensures keys[..m + 1] == keys[..m] + [keys[m]]
    ensures m + 1 == |keys| ==> keys == keys[..m] + [keys[m]]
  {
  }

  /** Before a detach, the output and the withheld prefix of the keys are exactly the input. */
  lemma {:induction false} Conserved(keys: string, s: string)
    requires !ScanAll(keys, s).fired
    ensures s == ScanAll(keys, s).out + keys[..ScanAll(keys, s).matched]
  {
    if s != "" {
      var t, b := s[..|s| - 1], s[|s| - 1];
      Conserved(keys, t);
      FeedConserves(keys, ScanAll(keys, t), b);
      assert s == t + [b];
    }
  }

  /** A detach comes right after a full occurrence of the keys, for any keys: k is where it first
      fires, and the output is all that came before the keys. */
  lemma {:induction false} FiresAfterKeys(keys: string, s: string) returns (k: nat)
    requires ScanAll(keys, s).fired
    ensures k <= |s| && s[..k] == ScanAll(keys, s).out + keys
    ensures ScanAll(keys, s[..k]).fired && forall i :: 0 <= i < k ==> !ScanAll(keys, s[..i]).fired
  {
    var t, b := s[..|s| - 1], s[|s| - 1];
    if ScanAll(keys, t).fired {
      k := FiresAfterKeys(keys, t);
      assert s[..k] == t[..k];
      assert forall i :: 0 <= i < k ==> s[..i] == t[..i];
    } else {
      k := |s|;
      Conserved(keys, t);
      FeedConserves(keys, ScanAll(keys, t), b);
      assert s[..k] == s == t + [b];
      forall i | 0 <= i < k
        ensures !ScanAll(keys, s[..i]).fired
      {
        NotFiredBefore(keys, t, i);
        assert t[..i] == s[..i];
      }
    }
  }

  // ----- When every occurrence is noticed -----

  /** keys[..j] is both a beginning and an end of keys[..m]. */
  predicate Border(keys: string, m: nat, j: nat) {
    0 < j < m < |keys| && forall i :: 0 <= i < j ==> keys[i] == keys[m - j + i]
  }

  /** Every border goes on with the same key as the prefix it ends. */
  ghost predicate BordersContinue(keys: string) {
    forall m: nat, j: nat :: Border(keys, m, j) ==> keys[j] == keys[m]
  }

  /** The first l keys are what s ends with. */
  predicate EndsWith(s: string, keys: string, l: nat) {
    l <= |keys| && l <= |s| && forall i :: 0 <= i < l ==> keys[i] == s[|s| - l + i]
  }

  ghost predicate Longest(s: string, keys: string, m: nat) {
    EndsWith(s, keys, m) && forall l: nat :: EndsWith(s, keys, l) ==> l <= m
  }

  lemma EndsWithPrefix(s: string, b: char, keys: string, l: nat)
    requires EndsWith(s + [b], keys, l) && l > 0
    ensures EndsWith(s, keys, l - 1) && keys[l - 1] == b
  {
    var t := s + [b];
    assert keys[l - 1] == t[|t| - l + (l - 1)];
    forall i | 0 <= i < l - 1
      ensures keys[i] == s[|s| - (l - 1) + i]
    {
      assert keys[i] == t[|t| - l + i];
    }
  }

  lemma EndsWithNext(s: string, b: char, keys: string, l: nat)
    requires EndsWith(s, keys, l) && l < |keys| && keys[l] == b
    ensures EndsWith(s + [b], keys, l + 1)
  {
    var t := s + [b];
    forall i | 0 <= i < l + 1
      ensures keys[i] == t[|t| - (l + 1) + i]
    {
      if i < l {
        assert keys[i] == s[|s| - l + i];
      }
    }
  }

  lemma BorderOf(s: string, keys: string, m: nat, j: nat)
    requires EndsWith(s, keys, m) && EndsWith(s, keys, j) && 0 < j < m < |keys|
    ensures Border(keys, m, j)
  {
    forall i | 0 <= i < j
      ensures keys[i] == keys[m - j + i]
    {
      assert keys[m - j + i] == s[|s| - m + (m - j + i)];
    }
  }

  /** Where the borders continue, the reader withholds the longest prefix of the keys it could. */
  lemma LongestStep(keys: string, s: string, b: char, m: nat)
    requires BordersContinue(keys) && Longest(s, keys, m) && m < |keys|
    ensures b == keys[m] ==> Longest(s + [b], keys, m + 1)
    ensures b != keys[m] ==> Longest(s + [b], keys, if b == keys[0] then 1 else 0)
  {
    var next := if b == keys[m] then m + 1 else if b == keys[0] then 1 else 0;
    if b == keys[m] {
      EndsWithNext(s, b, keys, m);
    } else if b == keys[0] {
      EndsWithNext(s, b, keys, 0);
    }
    forall l: nat | EndsWith(s + [b], keys, l)
      ensures l <= next
    {
      if l > 0 {
        EndsWithPrefix(s, b, keys, l);
        if 0 < l - 1 < m {
          BorderOf(s, keys, m, l - 1);
        }
      }
    }
  }

  lemma {:induction false} WithheldIsLongest(keys: string, s: string)
    requires keys != "" && BordersContinue(keys) && !ScanAll(keys, s).fired
    ensures Longest(s, keys, ScanAll(keys, s).matched)
  {
    if s != "" {
      var t := s[..|s| - 1];
      NotFiredBefore(keys, s, |s| - 1);
      WithheldIsLongest(keys, t);
      LongestStep(keys, t, s[|s| - 1], ScanAll(keys, t).matched);
      assert t + [s[|s| - 1]] == s;
    }
  }

  /** Every stream that contains the keys detaches. */
  ghost predicate NoticesAll(keys: string) {
    forall s: string :: Contains(s, keys) ==> ScanAll(keys, s).fired
  }

  lemma EndsAtOccurrence(s: string, keys: string, k: nat)
    requires OccursAt(s, keys, k)
    ensures EndsWith(s[..k + |keys|], keys, |keys|)
  {
    var t := s[..k + |keys|];
    forall i | 0 <= i < |keys|
      ensures keys[i] == t[|t| - |keys| + i]
    {
      assert t[k + i] == s[k + i];
    }
  }

  lemma NoticesOccurrence(keys: string, s: string)
    requires keys != "" && BordersContinue(keys) && Contains(s, keys)
    ensures ScanAll(keys, s).fired
  {
    var k := Index(s, keys) + |keys|;
    EndsAtOccurrence(s, keys, Index(s, keys));
    if !ScanAll(keys, s).fired {
      NotFiredBefore(keys, s, k);
      WithheldIsLongest(keys, s[..k]);
    }
  }

  /** The stream that shows a border which does not continue: a second start inside the first. */
  function Overlap(keys: string, m: nat, j: nat): string
    requires Border(keys, m, j)
  {
    keys[..m] + keys[j..]
  }

  lemma {:induction false} MatchesStraight(keys: string, m: nat)
    requires m < |keys|
    ensures ScanAll(keys, keys[..m]) == Scan("", m, false)
  {
    if m > 0 {
      MatchesStraight(keys, m - 1);
      assert keys[..m] == keys[..m - 1] + [keys[m - 1]];
      ScanStep(keys, keys[..m - 1], keys[m - 1]);
    }
  }

  /** Each byte advances the match by at most one. */
  lemma {:induction false} Advance(keys: string, s: string, t: string)
    requires keys != "" && !ScanAll(keys, s).fired && ScanAll(keys, s).matched + |t| < |keys|
    ensures !ScanAll(keys, s + t).fired && ScanAll(keys, s + t).matched <= ScanAll(keys, s).matched + |t|
  {
    if t == "" {
      assert s + t == s;
    } else {
      Advance(keys, s, t[..|t| - 1]);
      assert s + t == (s + t[..|t| - 1]) + [t[|t| - 1]];
      ScanStep(keys, s + t[..|t| - 1], t[|t| - 1]);
    }
  }

  lemma OverlapContainsKeys(keys: string, m: nat, j: nat)
    requires Border(keys, m, j)
    ensures Contains(Overlap(keys, m, j), keys)
  {
    var s := Overlap(keys, m, j);
    forall i | 0 <= i < |keys|
      ensures s[m - j + i] == keys[i]
    {
      if i < j {
        assert s[m - j + i] == keys[m - j + i];
      } else {
        assert s[m - j + i] == keys[j..][i - j];
      }
    }
    OccurrenceIsContained(s, keys, m - j);
  }

  lemma OverlapIsMissed(keys: string, m: nat, j: nat)
    requires Border(keys, m, j) && keys[j] != keys[m]
    ensures !ScanAll(keys, Overlap(keys, m, j)).fired
  {
    var s := keys[..m] + [keys[j]];
    MatchesStraight(keys, m);
    ScanStep(keys, keys[..m], keys[j]);
    Advance(keys, s, keys[j + 1..]);
    assert Overlap(keys, m, j) == s + keys[j + 1..];
  }

  /** The reader notices every occurrence exactly when the borders of the keys continue. */
  lemma NoticesAllExactly(keys: string)
    requires keys != ""
    ensures NoticesAll(keys) <==> BordersContinue(keys)
  {
    if BordersContinue(keys) {
      forall s: string | Contains(s, keys)
        ensures ScanAll(keys, s).fired
      {
        NoticesOccurrence(keys, s);
      }
    } else {
      var m: nat, j: nat :| Border(keys, m, j) && keys[j] != keys[m];
      OverlapContainsKeys(keys, m, j);
      OverlapIsMissed(keys, m, j);
    }
  }

  lemma OccursInPrefix(s: string, keys: string, k: nat, n: nat)
    requires n <= |s|
    ensures OccursAt(s[..n], keys, k) <==> OccursAt(s, keys, k) && k + |keys| <= n
  {
    if k + |keys| <= n {
      assert forall i: nat :: i < n ==> s[..n][i] == s[i];
    }
  }

  /** Nothing occurs before the place where the reader stopped. */
  lemma NoneEarlier(keys: string, s: string, k: nat, n: nat, i: nat)
    requires keys != "" && BordersContinue(keys) && n + |keys| == k <= |s| && i < n
    requires forall j :: 0 <= j < k ==> !ScanAll(keys, s[..j]).fired
    ensures !OccursAt(s, keys, i)
  {
    if OccursAt(s, keys, i) {
      OccursInPrefix(s, keys, i, i + |keys|);
      OccurrenceIsContained(s[..i + |keys|], keys, i);
      NoticesOccurrence(keys, s[..i + |keys|]);
    }
  }

  lemma EndsInKeys(s: string, k: nat, out: string, keys: string)
    requires k <= |s| && s[..k] == out + keys
    ensures k == |out| + |keys| && OccursAt(s, keys, |out|) && s[..|out|] == out
  {
    assert s[..|out|] == s[..k][..|out|];
    forall i | 0 <= i < |keys|
      ensures s[|out| + i] == keys[i]
    {
      assert s[..k][|out| + i] == keys[i];
    }
  }

  lemma FiredAtFirst(keys: string, s: string)
    requires keys != "" && BordersContinue(keys) && ScanAll(keys, s).fired
    ensures Contains(s, keys) && ScanAll(keys, s).out == s[..Index(s, keys)]
  {
    var out := ScanAll(keys, s).out;
    var k := FiresAfterKeys(keys, s);
    EndsInKeys(s, k, out, keys);
    forall i: nat | i < |out|
      ensures !OccursAt(s, keys, i)
    {
      NoneEarlier(keys, s, k, |out|, i);
    }
    FirstIsIndex(s, keys, |out|);
  }

  /** For such keys a detach happens iff the keys occur, and the output is what precedes their first
      occurrence. */
  lemma FiresAtFirst(keys: string, s: string)
    requires keys != "" && BordersContinue(keys)
    ensures ScanAll(keys, s).fired <==> Contains(s, keys)
    ensures ScanAll(keys, s).fired ==> ScanAll(keys, s).out == s[..Index(s, keys)]
  {
    if Contains(s, keys) {
      NoticesOccurrence(keys, s);
    }
    if ScanAll(keys, s).fired {
      FiredAtFirst(keys, s);
    }
  }

  /** Keys whose first one does not recur have no borders; neither do two keys. */
  lemma FirstKeyUnique(keys: string)
    requires |keys| <= 2 || keys[0] !in keys[1..]
    ensures BordersContinue(keys)
  {
    forall m: nat, j: nat
      ensures !Border(keys, m, j)
    {
      if 0 < j < m < |keys| {
        assert keys[m - j] == keys[1..][m - j - 1];
        assert keys[0] != keys[m - j + 0];
      }
    }
  }

  // ----- Names of keys -----

  const DEFAULT_KEYS := "ctrl-p,ctrl-q"

  /** The byte one token stands for. */
  function KeyCode(tok: string): Option<char> {
    if |tok| == 1 then Some(tok[0])
    else if |tok| == 6 && tok[..5] == "ctrl-" then
      var c := tok[5];
      if 'a' <= c <= 'z' then Some((c as int - 'a' as int + 1) as char)
      else if c == '@' then Some(0 as char)
      else if c == '[' then Some(27 as char)
      else if c == '\\' then Some(28 as char)
      else if c == ']' then Some(29 as char)
      else if c == '^' then Some(30 as char)
      else if c == '_' then Some(31 as char)
      else None
    else None
  }

  function Tokens(text: string): seq<string> {
    Split(if text == "" then DEFAULT_KEYS else text, ',')
  }

  predicate Stand(toks: seq<string>, keys: string) {
    |keys| == |toks| && forall i :: 0 <= i < |toks| ==> KeyCode(toks[i]) == Some(keys[i])
  }

  /** A text names a key sequence: its comma-separated tokens stand for the keys, one each. */
  predicate Names(text: string, keys: string) {
    Stand(Tokens(text), keys)
  }

  /** parseDetachKeys: the keys the text names, or a token that names none. */
  method ParseDetachKeys(text: string) returns (r: Result<string, string>)
    ensures r.Ok? ==> Names(text, r.value)
    ensures r.Err? ==> r.error in Tokens(text) && KeyCode(r.error).None?
  {
    r := CodeTokens(Tokens(text));
  }

  method CodeTokens(toks: seq<string>) returns (r: Result<string, string>)
    ensures r.Ok? ==> Stand(toks, r.value)
    ensures r.Err? ==> r.error in toks && KeyCode(r.error).None?
  {
    var out := "";
    for i := 0 to |toks|
      invariant Stand(toks[..i], out)
    {
      var code := KeyCode(toks[i]);
      if code.None? {
        return Err(toks[i]);
      }
      out := out + [code.value];
      assert toks[..i + 1] == toks[..i] + [toks[i]];
    }
    assert toks[..|toks|] == toks;
    return Ok(out);
  }

  /** A text names at most one key sequence, and none if a token has no code. */
  lemma NamesAreUnique(text: string, a: string, b: string, tok: string)
    requires Names(text, a)
    ensures Names(text, b) ==> a == b
    ensures tok in Tokens(text) ==> KeyCode(tok).Some?
  {
    if Names(text, b) {
      forall i: nat | i < |a|
        ensures a[i] == b[i]
      {
        assert KeyCode(Tokens(text)[i]) == Some(a[i]);
      }
    }
  }

  lemma DefaultTokens()
    ensures Split(DEFAULT_KEYS, ',') == ["ctrl-p", "ctrl-q"]
    ensures KeyCode("ctrl-p") == Some(16 as char) && KeyCode("ctrl-q") == Some(17 as char)
  {
    assert DEFAULT_KEYS == "ctrl-p" + [','] + "ctrl-q";
    SplitCons("ctrl-p", "ctrl-q", ',');
    SplitWord("ctrl-q", ',');
  }

  /** The default keys are two, and so always noticed. */
  lemma DefaultKeys()
    ensures Names("", [16 as char, 17 as char]) && NoticesAll([16 as char, 17 as char])
  {
    DefaultTokens();
    FirstKeyUnique([16 as char, 17 as char]);
    NoticesAllExactly([16 as char, 17 as char]);
  }

  lemma {:induction false} TokensAvoidSeparator(s: string, c: char, i: nat)
    requires i < |Split(s, c)|
    ensures c !in Split(s, c)[i]
  {
    if s != "" {
      if s[0] == c {
        if i > 0 {
          TokensAvoidSeparator(s[1..], c, i - 1);
        }
      } else {
        TokensAvoidSeparator(s[1..], c, i);
      }
    }
  }

  /** The key sequences that can be asked for are exactly the non-empty ones without a comma. */
  lemma NameableExactly(keys: string)
    ensures (exists text: string :: Names(text, keys)) <==> keys != "" && ',' !in keys
  {
    if keys != "" && ',' !in keys {
      var toks := seq(|keys|, i requires 0 <= i < |keys| => [keys[i]]);
      SplitJoin(toks, ',');
      assert Join(toks, ',') != "" by {
        assert toks[0] == [keys[0]];
      }
      assert Names(Join(toks, ','), keys);
    }
    forall text: string | Names(text, keys)
      ensures keys != "" && ',' !in keys
    {
      var s := if text == "" then DEFAULT_KEYS else text;
      assert Tokens(text) == Split(s, ',');
      forall i: nat | i < |keys|
        ensures keys[i] != ','
      {
        TokensAvoidSeparator(s, ',', i);
        assert KeyCode(Split(s, ',')[i]) == Some(keys[i]);
      }
    }
  }
}
