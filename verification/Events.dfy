/** The event broker: a bounded history, and one bounded queue per subscriber. Events are told apart
    by their place in the log of all that was ever published. */
module Events {
  import opened Wrappers

  const HISTORY_CAP := 1024
  const QUEUE_CAP := 64

  datatype Event = Event(nano: int, text: string)

  datatype Chan = Chan(n: nat)

  datatype Queue = Queue(buffer: seq<Event>, closed: bool)

  // ----- Places of the log -----

  predicate Increasing(s: seq<nat>) {
    forall i, j :: 0 <= i < j < |s| ==> s[i] < s[j]
  }

  predicate Within(places: seq<nat>, lo: nat, hi: nat) {
    forall i :: 0 <= i < |places| ==> lo <= places[i] < hi
  }

  /** How many of the places are before k. */
  function Before(places: seq<nat>, k: nat): nat {
    if places == [] then 0
    else Before(places[..|places| - 1], k) + if places[|places| - 1] < k then 1 else 0
  }

  lemma {:induction false} BeforeAll(places: seq<nat>, k: nat)
    requires Within(places, 0, k)
    ensures Before(places, k) == |places|
  {
    if places != [] {
      BeforeAll(places[..|places| - 1], k);
    }
  }

  lemma BeforeMore(places: seq<nat>, p: nat, k: nat)
    requires k <= p
    ensures Before(places + [p], k) == Before(places, k)
  {
    assert (places + [p])[..|places|] == places;
  }

  /** The last n elements. */
  function Last<A>(s: seq<A>, n: nat): seq<A> {
    if |s| <= n then s else s[|s| - n..]
  }

  lemma LastAppend<A>(s: seq<A>, n: nat, x: A)
    requires n > 0
    ensures Last(s + [x], n) == (if |Last(s, n)| >= n then Last(s, n)[1..] else Last(s, n)) + [x]
  {
  }

  // ----- What a subscriber gets -----

  /** Where a channel joined, the places it was sent, how many of those were read, and how many had
      been read when each place since it joined was published. */
  datatype Feed = Feed(from: nat, sent: seq<nat>, read: nat, readAt: seq<nat>)

  /** The place after the last one published while the channel was subscribed. */
  function End(f: Feed): nat {
    f.from + |f.readAt|
  }

  /** How many places were sent and unread when place k was published. */
  function Unread(f: Feed, k: nat): int
    requires f.from <= k < End(f)
  {
    Before(f.sent, k) - f.readAt[k - f.from]
  }

  /** A place published while subscribed was missed exactly if 64 places were unread then. */
  ghost predicate Accounted(f: Feed) {
    forall k: nat {:trigger Unread(f, k)} :: f.from <= k < End(f) ==>
      Unread(f, k) <= QUEUE_CAP && (k !in f.sent <==> Unread(f, k) == QUEUE_CAP)
  }

  /** The channel holds the places sent and not yet read, in order. */
  ghost predicate Queued(log: seq<Event>, f: Feed, q: Queue, live: bool) {
    && Increasing(f.sent) && Within(f.sent, f.from, End(f))
    && End(f) <= |log| && (live ==> End(f) == |log|)
    && |q.buffer| <= QUEUE_CAP && Buffers(log, f.sent, f.read, q.buffer)
  }

  ghost predicate Served(log: seq<Event>, f: Feed, q: Queue, live: bool) {
    Queued(log, f, q, live) && Accounted(f)
  }

  /** A send that does not block: the event is dropped if the buffer is full. */
  function Offer(q: Queue, ev: Event): Queue {
    if |q.buffer| < QUEUE_CAP then q.(buffer := q.buffer + [ev]) else q
  }

  function OfferFeed(f: Feed, q: Queue): Feed {
    f.(sent := if |q.buffer| < QUEUE_CAP then f.sent + [End(f)] else f.sent, readAt := f.readAt + [f.read])
  }

  function TakeFeed(f: Feed): Feed {
    f.(read := f.read + 1)
  }

  lemma IncreasingAppend(places: seq<nat>, lo: nat, hi: nat)
    requires Increasing(places) && Within(places, lo, hi) && lo <= hi
    ensures Increasing(places + [hi]) && Within(places + [hi], lo, hi + 1)
  {
  }

  /** What waits in the channel is what stands at the unread places. */
  ghost predicate Buffers(log: seq<Event>, sent: seq<nat>, read: nat, buffer: seq<Event>) {
    && read + |buffer| == |sent| && Within(sent, 0, |log|)
    && forall i :: 0 <= i < |buffer| ==> buffer[i] == log[sent[read + i]]
  }

  lemma BuffersMore(log: seq<Event>, ev: Event, sent: seq<nat>, read: nat, buffer: seq<Event>)
    requires Buffers(log, sent, read, buffer)
    ensures Buffers(log + [ev], sent, read, buffer)
    ensures Buffers(log + [ev], sent + [|log|], read, buffer + [ev])
  {
    var sent', buffer' := sent + [|log|], buffer + [ev];
    forall i | 0 <= i < |buffer'|
      ensures buffer'[i] == (log + [ev])[sent'[read + i]]
    {
      if i < |buffer| {
        assert buffer[i] == log[sent[read + i]];
      }
    }
  }

  lemma OfferQueues(log: seq<Event>, ev: Event, f: Feed, q: Queue)
    requires Queued(log, f, q, true)
    ensures Queued(log + [ev], OfferFeed(f, q), Offer(q, ev), true)
  {
    IncreasingAppend(f.sent, f.from, End(f));
    BuffersMore(log, ev, f.sent, f.read, q.buffer);
  }

  lemma OfferAccounts(f: Feed, q: Queue)
    requires Accounted(f) && Within(f.sent, f.from, End(f)) && |q.buffer| <= QUEUE_CAP
    requires f.read + |q.buffer| == |f.sent|
    ensures Accounted(OfferFeed(f, q))
  {
    var f' := OfferFeed(f, q);
    BeforeAll(f.sent, End(f));
    forall k: nat | f'.from <= k < End(f')
      ensures Unread(f', k) <= QUEUE_CAP && (k !in f'.sent <==> Unread(f', k) == QUEUE_CAP)
    {
      BeforeMore(f.sent, End(f), k);
      assert |q.buffer| < QUEUE_CAP ==> (k in f.sent + [End(f)] <==> k in f.sent || k == End(f));
      if k < End(f) {
        assert Unread(f', k) == Unread(f, k);
      } else {
        assert k !in f.sent;
      }
    }
  }

  lemma Outlives(log: seq<Event>, ev: Event, f: Feed, q: Queue)
    requires Queued(log, f, q, false)
    ensures Queued(log + [ev], f, q, false)
  {
    BuffersMore(log, ev, f.sent, f.read, q.buffer);
  }

  lemma TakeQueues(log: seq<Event>, f: Feed, q: Queue, live: bool)
    requires Queued(log, f, q, live) && q.buffer != []
    ensures Queued(log, TakeFeed(f), q.(buffer := q.buffer[1..]), live)
  {
    var b := q.buffer[1..];
    forall i | 0 <= i < |b|
      ensures b[i] == log[f.sent[f.read + 1 + i]]
    {
      assert b[i] == q.buffer[i + 1];
    }
  }

  lemma TakeAccounts(f: Feed)
    requires Accounted(f)
    ensures Accounted(TakeFeed(f))
  {
    forall k: nat | f.from <= k < End(f)
      ensures Unread(TakeFeed(f), k) <= QUEUE_CAP && (k !in f.sent <==> Unread(TakeFeed(f), k) == QUEUE_CAP)
    {
      assert Unread(TakeFeed(f), k) == Unread(f, k);
    }
  }

  // ----- All subscribers -----

  ghost predicate ServedAt(log: seq<Event>, feeds: map<Chan, Feed>, queues: map<Chan, Queue>, subs: set<Chan>, c: Chan)
  {
    c in feeds && c in queues && Served(log, feeds[c], queues[c], c in subs)
  }

  ghost predicate AllServed(log: seq<Event>, feeds: map<Chan, Feed>, queues: map<Chan, Queue>, subs: set<Chan>) {
    forall c {:trigger ServedAt(log, feeds, queues, subs, c)} :: c in queues ==> ServedAt(log, feeds, queues, subs, c)
  }

  function Offered(queues: map<Chan, Queue>, to: set<Chan>, ev: Event): map<Chan, Queue> {
    map c | c in queues :: if c in to then Offer(queues[c], ev) else queues[c]
  }

  function Fed(feeds: map<Chan, Feed>, queues: map<Chan, Queue>, to: set<Chan>): map<Chan, Feed> {
    map c | c in feeds :: if c in to && c in queues then OfferFeed(feeds[c], queues[c]) else feeds[c]
  }

  lemma PublishServes(log: seq<Event>, feeds: map<Chan, Feed>, queues: map<Chan, Queue>, subs: set<Chan>, ev: Event)
    requires AllServed(log, feeds, queues, subs)
    ensures AllServed(log + [ev], Fed(feeds, queues, subs), Offered(queues, subs, ev), subs)
  {
    var feeds', queues' := Fed(feeds, queues, subs), Offered(queues, subs, ev);
    forall c | c in queues'
      ensures ServedAt(log + [ev], feeds', queues', subs, c)
    {
      assert ServedAt(log, feeds, queues, subs, c);
      if c in subs {
        OfferQueues(log, ev, feeds[c], queues[c]);
        OfferAccounts(feeds[c], queues[c]);
      } else {
        Outlives(log, ev, feeds[c], queues[c]);
      }
    }
  }

  lemma OneChanges(log: seq<Event>, feeds: map<Chan, Feed>, queues: map<Chan, Queue>, subs: set<Chan>,
                   ch: Chan, q: Queue, f: Feed, subs': set<Chan>)
    requires AllServed(log, feeds, queues, subs) && Served(log, f, q, ch in subs')
    requires forall c :: c != ch ==> (c in subs' <==> c in subs)
    ensures AllServed(log, feeds[ch := f], queues[ch := q], subs')
  {
    var queues' := queues[ch := q];
    forall c | c in queues'
      ensures ServedAt(log, feeds[ch := f], queues', subs', c)
    {
      if c != ch {
        assert ServedAt(log, feeds, queues, subs, c);
      }
    }
  }

  lemma TakeServes(log: seq<Event>, feeds: map<Chan, Feed>, queues: map<Chan, Queue>, subs: set<Chan>, ch: Chan)
    requires AllServed(log, feeds, queues, subs) && ch in queues && queues[ch].buffer != []
    ensures ch in feeds
    ensures AllServed(log, feeds[ch := TakeFeed(feeds[ch])],
                      queues[ch := queues[ch].(buffer := queues[ch].buffer[1..])], subs)
  {
    assert ServedAt(log, feeds, queues, subs, ch);
    var f, q := feeds[ch], queues[ch];
    TakeQueues(log, f, q, ch in subs);
    TakeAccounts(f);
    OneChanges(log, feeds, queues, subs, ch, q.(buffer := q.buffer[1..]), TakeFeed(f), subs);
  }

  lemma LeaveServes(log: seq<Event>, feeds: map<Chan, Feed>, queues: map<Chan, Queue>, subs: set<Chan>, ch: Chan)
    requires AllServed(log, feeds, queues, subs) && ch in queues
    ensures AllServed(log, feeds, queues, subs - {ch})
    ensures ch !in subs ==> AllServed(log, feeds, queues[ch := queues[ch].(closed := true)], subs)
  {
    assert ServedAt(log, feeds, queues, subs, ch);
    assert feeds[ch := feeds[ch]] == feeds && queues[ch := queues[ch]] == queues;
    OneChanges(log, feeds, queues, subs, ch, queues[ch], feeds[ch], subs - {ch});
    if ch !in subs {
      OneChanges(log, feeds, queues, subs, ch, queues[ch].(closed := true), feeds[ch], subs);
    }
  }

  // ----- What a replay gives -----

  /** The events at these places. */
  ghost function At(log: seq<Event>, places: seq<nat>): seq<Event>
    requires Within(places, 0, |log|)
  {
    if places == [] then [] else At(log, places[..|places| - 1]) + [log[places[|places| - 1]]]
  }

  /** The places from lo to hi at or after the cutoff, oldest first. */
  ghost function Places(log: seq<Event>, lo: nat, hi: nat, cutoff: int): (r: seq<nat>)
    requires lo <= hi <= |log|
    ensures Within(r, lo, hi)
  {
    if lo == hi then []
    else Places(log, lo, hi - 1, cutoff) + if log[hi - 1].nano >= cutoff then [hi - 1] else []
  }

  lemma {:induction false} PlacesIncrease(log: seq<Event>, lo: nat, hi: nat, cutoff: int)
    requires lo <= hi <= |log|
    ensures Increasing(Places(log, lo, hi, cutoff))
    decreases hi
  {
    if lo < hi {
      PlacesIncrease(log, lo, hi - 1, cutoff);
      IncreasingAppend(Places(log, lo, hi - 1, cutoff), lo, hi - 1);
    }
  }

  lemma {:induction false} PlacesExact(log: seq<Event>, lo: nat, hi: nat, cutoff: int, k: nat)
    requires lo <= hi <= |log|
    ensures k in Places(log, lo, hi, cutoff) <==> lo <= k < hi && log[k].nano >= cutoff
    decreases hi
  {
    if lo < hi {
      PlacesExact(log, lo, hi - 1, cutoff, k);
    }
  }

  lemma PlacesStep(log: seq<Event>, lo: nat, hi: nat, cutoff: int)
    requires lo <= hi < |log|
    ensures At(log, Places(log, lo, hi + 1, cutoff))
         == At(log, Places(log, lo, hi, cutoff)) + if log[hi].nano >= cutoff then [log[hi]] else []
  {
    var places := Places(log, lo, hi, cutoff);
    if log[hi].nano >= cutoff {
      AtAppend(log, places, hi);
    } else {
      assert places + [] == places && At(log, places) + [] == At(log, places);
    }
  }

  lemma AtAppend(log: seq<Event>, places: seq<nat>, k: nat)
    requires k < |log| && Within(places, 0, |log|)
    ensures At(log, places + [k]) == At(log, places) + [log[k]]
  {
    assert (places + [k])[..|places|] == places;
  }

  lemma {:induction false} AtMore(log: seq<Event>, places: seq<nat>, ev: Event)
    requires Within(places, 0, |log|)
    ensures At(log + [ev], places) == At(log, places)
  {
    if places != [] {
      AtMore(log, places[..|places| - 1], ev);
    }
  }

  // ----- The pace of a reader -----

  /** A step while a client follows the stream: someone publishes, or the client reads. */
  datatype Action = Elsewhere(ev: Event) | Receive

  /** How many events wait and how many were read after these actions. */
  datatype Pace = Pace(waiting: nat, read: nat)

  function PaceStep(p: Pace, act: Action): Pace {
    match act
    case Elsewhere(_) => if p.waiting < QUEUE_CAP then p.(waiting := p.waiting + 1) else p
    case Receive => if p.waiting > 0 then Pace(p.waiting - 1, p.read + 1) else p
  }

  // ----- The broker -----

  class Broker {
    var subs: set<Chan>
    var queues: map<Chan, Queue>  // every channel made
    var history: seq<Event>
    var made: nat
    ghost var log: seq<Event>
    ghost var feeds: map<Chan, Feed>

    /** History is the latest events; a subscribed channel is open; every channel is served. */
    ghost predicate Valid()
      reads this
    {
      && history == Last(log, HISTORY_CAP)
      && feeds.Keys == queues.Keys
      && (forall c :: c in queues ==> c.n < made)
      && (forall c :: c in subs ==> c in queues && !queues[c].closed)
      && AllServed(log, feeds, queues, subs)
    }

    constructor ()
      ensures Valid() && log == [] && subs == {} && queues == map[]
    {
      subs, queues, history, made, log, feeds := {}, map[], [], 0, [], map[];
    }

    method Subscribe() returns (ch: Chan)
      requires Valid()
      modifies this
      ensures Valid() && ch !in old(queues) && log == old(log) && history == old(history)
      ensures subs == old(subs) + {ch} && queues == old(queues)[ch := Queue([], false)]
      ensures feeds == old(feeds)[ch := Feed(|log|, [], 0, [])]
    {
      ch := Chan(made);
      OneChanges(log, feeds, queues, subs, ch, Queue([], false), Feed(|log|, [], 0, []), subs + {ch});
      made := made + 1;
      subs, queues, feeds := subs + {ch}, queues[ch := Queue([], false)], feeds[ch := Feed(|log|, [], 0, [])];
    }

    /** The first half of unsubscribe: under the lock, the channel leaves the subscribers. */
    method Forget(ch: Chan)
      requires Valid() && ch in queues
      modifies this`subs
      ensures Valid() && subs == old(subs) - {ch}
    {
      LeaveServes(log, feeds, queues, subs, ch);
      subs := subs - {ch};
    }

    /** The second half, outside the lock: the channel is closed. Closing twice would panic. */
    method Close(ch: Chan)
      requires Valid() && ch in queues && ch !in subs && !queues[ch].closed
      modifies this`queues
      ensures Valid() && queues == old(queues)[ch := old(queues)[ch].(closed := true)]
    {
      LeaveServes(log, feeds, queues, subs, ch);
      queues := queues[ch := queues[ch].(closed := true)];
    }

    /** publish: every subscriber is offered the event, and no other channel is touched. */
    method Publish(ev: Event)
      requires Valid()
      modifies this`queues, this`history, this`log, this`feeds
      ensures Valid() && log == old(log) + [ev]
      ensures queues == Offered(old(queues), subs, ev) && feeds == Fed(old(feeds), old(queues), subs)
    {
      PublishServes(log, feeds, queues, subs, ev);
      LastAppend(log, HISTORY_CAP, ev);
      OfferAll(ev);
      if |history| >= HISTORY_CAP {
        history := history[1..];
      }
      history := history + [ev];
      feeds, log := Fed(feeds, old(queues), subs), log + [ev];
    }

    /** The loop over the subscribers, whose channels are all open. */
    method OfferAll(ev: Event)
      requires forall c :: c in subs ==> c in queues && !queues[c].closed
      modifies this`queues
      ensures queues == Offered(old(queues), subs, ev)
    {
      var todo := subs;
      while todo != {}
        invariant todo <= subs && queues == Offered(old(queues), subs - todo, ev)
        decreases |todo|
      {
        var c :| c in todo;
        assert !queues[c].closed;
        queues := queues[c := Offer(queues[c], ev)];
        todo := todo - {c};
      }
      assert subs - {} == subs;
    }

    /** A receive that does not block: the oldest event waiting. */
    method Take(ch: Chan) returns (ev: Option<Event>)
      requires Valid() && ch in queues
      modifies this`queues, this`feeds
      ensures Valid() && (ev.None? <==> old(queues)[ch].buffer == [])
      ensures queues.Keys == old(queues).Keys && feeds.Keys == old(feeds).Keys
      ensures Pace(|queues[ch].buffer|, feeds[ch].read)
           == PaceStep(Pace(|old(queues)[ch].buffer|, old(feeds)[ch].read), Receive)
      ensures ev.None? ==> queues == old(queues) && feeds == old(feeds)
      ensures ev.Some? ==>
                && queues == old(queues)[ch := old(queues)[ch].(buffer := old(queues)[ch].buffer[1..])]
                && feeds == old(feeds)[ch := TakeFeed(old(feeds)[ch])]
                && ev.value == old(queues)[ch].buffer[0]
    {
      var q := queues[ch];
      if q.buffer == [] {
        return None;
      }
      TakeServes(log, feeds, queues, subs, ch);
      ev := Some(q.buffer[0]);
      queues, feeds := queues[ch := q.(buffer := q.buffer[1..])], feeds[ch := TakeFeed(feeds[ch])];
    }

    /** snapshotSince: the events of the history at or after the cutoff, oldest first. */
    method SnapshotSince(since: Option<int>) returns (out: seq<Event>)
      requires history == Last(log, HISTORY_CAP)
      ensures out == At(log, SincePlaces(log, history, since))
    {
      out := [];
      if since.Some? {
        out := Recent(history, since.value, log);
      }
    }
  }

  ghost function SincePlaces(log: seq<Event>, history: seq<Event>, since: Option<int>): (r: seq<nat>)
    requires |history| <= |log|
    ensures Within(r, 0, |log|)
  {
    if since.None? then [] else Places(log, |log| - |history|, |log|, since.value)
  }

  method Recent(history: seq<Event>, cutoff: int, ghost log: seq<Event>) returns (out: seq<Event>)
    requires history == Last(log, HISTORY_CAP)
    ensures out == At(log, Places(log, |log| - |history|, |log|, cutoff))
  {
    out := [];
    ghost var base: nat := |log| - |history|;
    for i := 0 to |history|
      invariant out == At(log, Places(log, base, base + i, cutoff))
    {
      assert history[i] == log[base + i];
      PlacesStep(log, base, base + i, cutoff);
      if history[i].nano >= cutoff {
        out := out + [history[i]];
      }
    }
  }

  // ----- The event stream of one client -----

  function PaceAfter(acts: seq<Action>): Pace {
    if acts == [] then Pace(0, 0) else PaceStep(PaceAfter(acts[..|acts| - 1]), acts[|acts| - 1])
  }

  /** The places whose events match the client's filters. */
  ghost function Matching(log: seq<Event>, places: seq<nat>, matches: Event -> bool): (r: seq<nat>)
    requires Within(places, 0, |log|)
    ensures Within(r, 0, |log|)
  {
    if places == [] then []
    else
      var k := places[|places| - 1];
      Matching(log, places[..|places| - 1], matches) + if matches(log[k]) then [k] else []
  }

  lemma MatchingAppend(log: seq<Event>, places: seq<nat>, k: nat, matches: Event -> bool)
    requires Within(places, 0, |log|) && k < |log|
    ensures Matching(log, places + [k], matches) == Matching(log, places, matches) + if matches(log[k]) then [k] else []
  {
    assert (places + [k])[..|places|] == places;
  }

  lemma {:induction false} MatchingMore(log: seq<Event>, places: seq<nat>, ev: Event, matches: Event -> bool)
    requires Within(places, 0, |log|)
    ensures Matching(log + [ev], places, matches) == Matching(log, places, matches)
  {
    if places != [] {
      MatchingMore(log, places[..|places| - 1], ev, matches);
    }
  }

  lemma {:induction false} MatchingMember(log: seq<Event>, places: seq<nat>, matches: Event -> bool, k: nat)
    requires Within(places, 0, |log|)
    ensures k in Matching(log, places, matches) <==> k in places && matches(log[k])
  {
    if places != [] {
      MatchingMember(log, places[..|places| - 1], matches, k);
      assert places == places[..|places| - 1] + [places[|places| - 1]];
    }
  }

  lemma {:induction false} MatchingIncreases(log: seq<Event>, places: seq<nat>, matches: Event -> bool, lo: nat,
                                             hi: nat)
    requires Within(places, 0, |log|) && Within(places, lo, hi) && Increasing(places)
    ensures Increasing(Matching(log, places, matches)) && Within(Matching(log, places, matches), lo, hi)
    decreases |places|
  {
    if places != [] {
      var front, k := places[..|places| - 1], places[|places| - 1];
      MatchingIncreases(log, front, matches, lo, k);
      IncreasingAppend(Matching(log, front, matches), lo, k);
    }
  }

  /** The places written to a client: those of the replay, then the matching ones it read. */
  ghost function Written(log: seq<Event>, f: Feed, matches: Event -> bool, replayed: seq<nat>): (r: seq<nat>)
    requires f.read <= |f.sent| && Within(f.sent, 0, |log|) && Within(replayed, 0, |log|)
    ensures Within(r, 0, |log|)
  {
    replayed + Matching(log, f.sent[..f.read], matches)
  }

  /** What a client got so far is what stands at the written places. */
  ghost predicate Wrote(log: seq<Event>, f: Feed, matches: Event -> bool, replayed: seq<nat>, out: seq<Event>) {
    && f.read <= |f.sent| && Within(f.sent, 0, |log|) && Within(replayed, 0, |log|)
    && out == At(log, Written(log, f, matches, replayed))
  }

  lemma WroteElsewhere(log: seq<Event>, ev: Event, f: Feed, q: Queue, matches: Event -> bool, replayed: seq<nat>,
                       out: seq<Event>)
    requires Wrote(log, f, matches, replayed, out) && End(f) == |log|
    ensures Wrote(log + [ev], OfferFeed(f, q), matches, replayed, out)
  {
    assert OfferFeed(f, q).sent[..f.read] == f.sent[..f.read];
    MatchingMore(log, f.sent[..f.read], ev, matches);
    AtMore(log, Written(log, f, matches, replayed), ev);
  }

  lemma WrittenNext(log: seq<Event>, f: Feed, matches: Event -> bool, replayed: seq<nat>)
    requires f.read < |f.sent| && Within(f.sent, 0, |log|) && Within(replayed, 0, |log|)
    ensures Written(log, TakeFeed(f), matches, replayed)
         == Written(log, f, matches, replayed) + if matches(log[f.sent[f.read]]) then [f.sent[f.read]] else []
  {
    var k := f.sent[f.read];
    assert f.sent[..f.read + 1] == f.sent[..f.read] + [k];
    MatchingAppend(log, f.sent[..f.read], k, matches);
  }

  lemma AtMaybe(log: seq<Event>, places: seq<nat>, k: nat, keep: bool, out: seq<Event>)
    requires k < |log| && Within(places, 0, |log|) && out == At(log, places)
    ensures Within(places + (if keep then [k] else []), 0, |log|)
    ensures At(log, places + if keep then [k] else []) == if keep then out + [log[k]] else out
  {
    if keep {
      AtAppend(log, places, k);
    } else {
      assert places + [] == places;
    }
  }

  lemma WroteNext(log: seq<Event>, f: Feed, matches: Event -> bool, replayed: seq<nat>, out: seq<Event>)
    requires Wrote(log, f, matches, replayed, out) && f.read < |f.sent|
    ensures var ev := log[f.sent[f.read]];
            Wrote(log, TakeFeed(f), matches, replayed, if matches(ev) then out + [ev] else out)
  {
    var k := f.sent[f.read];
    WrittenNext(log, f, matches, replayed);
    AtMaybe(log, Written(log, f, matches, replayed), k, matches(log[k]), out);
  }

  /** The replay loop of eventsStream. */
  method Replay(events: seq<Event>, matches: Event -> bool, inTime: Event -> bool, ghost log: seq<Event>,
                ghost from: seq<nat>)
    returns (out: seq<Event>)
    requires Within(from, 0, |log|) && events == At(log, from)
    ensures out == At(log, Matching(log, from, ev => matches(ev) && inTime(ev)))
  {
    ghost var both := ev => matches(ev) && inTime(ev);
    AtLength(log, from);
    out := [];
    for i := 0 to |events|
      invariant out == At(log, Matching(log, from[..i], both))
    {
      AtIndex(log, from, i);
      assert from[..i + 1] == from[..i] + [from[i]];
      MatchingAppend(log, from[..i], from[i], both);
      if matches(events[i]) && inTime(events[i]) {
        AtAppend(log, Matching(log, from[..i], both), from[i]);
        out := out + [events[i]];
      } else {
        assert Matching(log, from[..i + 1], both) == Matching(log, from[..i], both);
      }
    }
    assert from[..|events|] == from;
  }

  lemma {:induction false} AtLength(log: seq<Event>, places: seq<nat>)
    requires Within(places, 0, |log|)
    ensures |At(log, places)| == |places|
  {
    if places != [] {
      AtLength(log, places[..|places| - 1]);
    }
  }

  lemma {:induction false} AtIndex(log: seq<Event>, places: seq<nat>, i: nat)
    requires Within(places, 0, |log|) && i < |places|
    ensures |At(log, places)| == |places| && At(log, places)[i] == log[places[i]]
  {
    AtLength(log, places);
    AtLength(log, places[..|places| - 1]);
    if i < |places| - 1 {
      AtIndex(log, places[..|places| - 1], i);
    }
  }

  /** A subscribed client reads while others publish: whatever it reads and its filters match is written. */
  method Follow(b: Broker, ch: Chan, matches: Event -> bool, acts: seq<Action>, already: seq<Event>,
                ghost replayed: seq<nat>)
    returns (out: seq<Event>)
    requires b.Valid() && ch in b.subs && b.queues[ch].buffer == []
    requires b.feeds[ch] == Feed(|b.log|, [], 0, [])
    requires Wrote(b.log, b.feeds[ch], matches, replayed, already)
    modifies b
    ensures b.Valid() && b.subs == old(b.subs) && old(b.log) <= b.log
    ensures b.feeds[ch].from == |old(b.log)| && Wrote(b.log, b.feeds[ch], matches, replayed, out)
    ensures Pace(|b.queues[ch].buffer|, b.feeds[ch].read) == PaceAfter(acts)
  {
    out := already;
    for i := 0 to |acts|
      invariant b.Valid() && b.subs == old(b.subs) && old(b.log) <= b.log
      invariant b.feeds[ch].from == |old(b.log)| && Wrote(b.log, b.feeds[ch], matches, replayed, out)
      invariant Pace(|b.queues[ch].buffer|, b.feeds[ch].read) == PaceAfter(acts[..i])
    {
      assert acts[..i + 1][..i] == acts[..i];
      match acts[i]
      case Elsewhere(ev) => PublishElsewhere(b, ch, ev, matches, out, replayed);
      case Receive => out := WriteNext(b, ch, matches, out, replayed);
    }
    assert acts[..|acts|] == acts;
  }

  method PublishElsewhere(b: Broker, ch: Chan, ev: Event, matches: Event -> bool, ghost out: seq<Event>,
                          ghost replayed: seq<nat>)
    requires b.Valid() && ch in b.subs && Wrote(b.log, b.feeds[ch], matches, replayed, out)
    modifies b
    ensures b.Valid() && b.subs == old(b.subs) && b.log == old(b.log) + [ev]
    ensures b.feeds[ch].from == old(b.feeds)[ch].from && Wrote(b.log, b.feeds[ch], matches, replayed, out)
    ensures Pace(|b.queues[ch].buffer|, b.feeds[ch].read)
         == PaceStep(Pace(|old(b.queues)[ch].buffer|, old(b.feeds)[ch].read), Elsewhere(ev))
  {
    assert ServedAt(b.log, b.feeds, b.queues, b.subs, ch);
    WroteElsewhere(b.log, ev, b.feeds[ch], b.queues[ch], matches, replayed, out);
    b.Publish(ev);
  }

  method WriteNext(b: Broker, ch: Chan, matches: Event -> bool, already: seq<Event>, ghost replayed: seq<nat>)
    returns (out: seq<Event>)
    requires b.Valid() && ch in b.subs && Wrote(b.log, b.feeds[ch], matches, replayed, already)
    modifies b`queues, b`feeds
    ensures b.Valid() && b.feeds.Keys == old(b.feeds).Keys
    ensures b.feeds[ch].from == old(b.feeds)[ch].from && Wrote(b.log, b.feeds[ch], matches, replayed, out)
    ensures Pace(|b.queues[ch].buffer|, b.feeds[ch].read)
         == PaceStep(Pace(|old(b.queues)[ch].buffer|, old(b.feeds)[ch].read), Receive)
  {
    ghost var f, q := b.feeds[ch], b.queues[ch];
    ServedIsBuffered(b.log, b.feeds, b.queues, b.subs, ch);
    var ev := b.Take(ch);
    out := if ev.Some? && matches(ev.value) then already + [ev.value] else already;
    WroteIfWaiting(b.log, f, q, matches, replayed, already, ev, b.feeds[ch], out);
  }

  lemma ServedIsBuffered(log: seq<Event>, feeds: map<Chan, Feed>, queues: map<Chan, Queue>, subs: set<Chan>, ch: Chan)
    requires AllServed(log, feeds, queues, subs) && ch in queues
    ensures ch in feeds && Buffers(log, feeds[ch].sent, feeds[ch].read, queues[ch].buffer)
  {
    assert ServedAt(log, feeds, queues, subs, ch);
  }

  lemma WroteIfWaiting(log: seq<Event>, f: Feed, q: Queue, matches: Event -> bool, replayed: seq<nat>,
                       already: seq<Event>,
                       ev: Option<Event>, f': Feed, out: seq<Event>)
    requires Wrote(log, f, matches, replayed, already) && Buffers(log, f.sent, f.read, q.buffer)
    requires if ev.None? then f' == f else q.buffer != [] && f' == TakeFeed(f) && ev.value == q.buffer[0]
    requires out == if ev.Some? && matches(ev.value) then already + [ev.value] else already
    ensures Wrote(log, f', matches, replayed, out)
  {
    if ev.Some? {
      assert q.buffer[0] == log[f.sent[f.read + 0]];
      WroteNext(log, f, matches, replayed, already);
    }
  }

  // ----- What becomes of each event -----

  /** A subscriber's channel was full when place k was published. */
  predicate Dropped(f: Feed, k: nat) {
    f.from <= k < End(f) && k !in f.sent && Unread(f, k) == QUEUE_CAP
  }

  predicate Waiting(f: Feed, k: nat) {
    f.read <= |f.sent| && k in f.sent[f.read..]
  }

  /** The history places that a replay writes. */
  ghost predicate Replays(log: seq<Event>, history: seq<Event>, since: Option<int>, matches: Event -> bool,
                          inTime: Event -> bool, k: nat)
  {
    && k < |log| && |log| - |history| <= k
    && since.Some? && log[k].nano >= since.value
    && matches(log[k]) && inTime(log[k])
  }

  /** A place of the history is replayed just when it is recent enough, in time and matching. */
  lemma ReplayExact(log: seq<Event>, history: seq<Event>, since: Option<int>, matches: Event -> bool,
                    inTime: Event -> bool, k: nat)
    requires |history| <= |log|
    ensures k in Matching(log, SincePlaces(log, history, since), ev => matches(ev) && inTime(ev))
       <==> Replays(log, history, since, matches, inTime, k)
  {
    MatchingMember(log, SincePlaces(log, history, since), ev => matches(ev) && inTime(ev), k);
    if since.Some? {
      PlacesExact(log, |log| - |history|, |log|, since.value, k);
    }
  }

  /** What is written to a client is in the order of the log and never twice. */
  lemma WrittenInOrder(log: seq<Event>, f: Feed, q: Queue, live: bool, matches: Event -> bool, replayed: seq<nat>)
    requires Queued(log, f, q, live) && Increasing(replayed) && Within(replayed, 0, f.from)
    ensures Increasing(Written(log, f, matches, replayed))
  {
    var seen := f.sent[..f.read];
    assert Within(seen, f.from, |log|) && Increasing(seen);
    MatchingIncreases(log, seen, matches, f.from, |log|);
  }

  /** A matching event published since the replay was written, waits, or met a full queue, just when it
      was not published before the subscription. */
  lemma FateExact(log: seq<Event>, f: Feed, q: Queue, matches: Event -> bool, replayed: seq<nat>, start: nat, k: nat)
    requires Queued(log, f, q, true) && Accounted(f) && Within(replayed, 0, start) && start <= f.from
    requires start <= k < |log| && matches(log[k])
    ensures k in Written(log, f, matches, replayed) || Waiting(f, k) || Dropped(f, k) <==> k >= f.from
  {
    MatchingMember(log, f.sent[..f.read], matches, k);
    assert f.sent == f.sent[..f.read] + f.sent[f.read..];
    if k >= f.from {
      assert k !in f.sent <==> Unread(f, k) == QUEUE_CAP;
    }
  }

  /** The whole account of a stream that began when the log had `start` events: `out` is what was
      written, and `replayed` are the places written before the subscription. */
  ghost predicate Account(log: seq<Event>, f: Feed, matches: Event -> bool, replayed: seq<nat>, start: nat,
                          out: seq<Event>) {
    && Wrote(log, f, matches, replayed, out)
    && Increasing(Written(log, f, matches, replayed))
    && (forall k: nat :: k < start ==> (k in Written(log, f, matches, replayed) <==> k in replayed))
    && (forall k: nat :: start <= k < |log| && matches(log[k]) ==>
          (k in Written(log, f, matches, replayed) || Waiting(f, k) || Dropped(f, k) <==> k >= f.from))
  }

  lemma AccountIsExact(log: seq<Event>, f: Feed, q: Queue, matches: Event -> bool, replayed: seq<nat>, start: nat,
                       out: seq<Event>)
    requires Queued(log, f, q, true) && Accounted(f) && Wrote(log, f, matches, replayed, out)
    requires Increasing(replayed) && Within(replayed, 0, start) && start <= f.from
    ensures Account(log, f, matches, replayed, start, out)
  {
    WrittenInOrder(log, f, q, true, matches, replayed);
    forall k: nat | k < start
      ensures k in Written(log, f, matches, replayed) <==> k in replayed
    {
      MatchingMember(log, f.sent[..f.read], matches, k);
    }
    forall k: nat | start <= k < |log| && matches(log[k])
      ensures k in Written(log, f, matches, replayed) || Waiting(f, k) || Dropped(f, k) <==> k >= f.from
    {
      FateExact(log, f, q, matches, replayed, start, k);
    }
  }

  // ----- The stream handler -----

  /** Other events come in between the replay and the subscription. */
  method Meanwhile(b: Broker, gap: seq<Event>, ghost out: seq<Event>, ghost places: seq<nat>)
    requires b.Valid() && Within(places, 0, |b.log|) && out == At(b.log, places)
    modifies b
    ensures b.Valid() && b.subs == old(b.subs) && b.log == old(b.log) + gap && out == At(b.log, places)
  {
    ghost var log0 := b.log;
    for i := 0 to |gap|
      invariant b.Valid() && b.subs == old(b.subs) && b.log == log0 + gap[..i] && out == At(b.log, places)
    {
      AtMore(b.log, places, gap[i]);
      b.Publish(gap[i]);
      assert gap[..i + 1] == gap[..i] + [gap[i]];
    }
    assert gap[..|gap|] == gap;
  }

  method ReplayHistory(b: Broker, since: Option<int>, matches: Event -> bool, inTime: Event -> bool)
    returns (out: seq<Event>, ghost replayed: seq<nat>)
    requires b.history == Last(b.log, HISTORY_CAP)
    ensures Increasing(replayed) && Within(replayed, 0, |b.log|) && out == At(b.log, replayed)
    ensures forall k: nat :: k in replayed <==> Replays(b.log, b.history, since, matches, inTime, k)
  {
    var events := b.SnapshotSince(since);
    ghost var from := SincePlaces(b.log, b.history, since);
    out := Replay(events, matches, inTime, b.log, from);
    replayed := Matching(b.log, from, ev => matches(ev) && inTime(ev));
    SinceIncreases(b.log, b.history, since);
    MatchingIncreases(b.log, from, ev => matches(ev) && inTime(ev), 0, |b.log|);
    forall k: nat
      ensures k in replayed <==> Replays(b.log, b.history, since, matches, inTime, k)
    {
      ReplayExact(b.log, b.history, since, matches, inTime, k);
    }
  }

  lemma SinceIncreases(log: seq<Event>, history: seq<Event>, since: Option<int>)
    requires |history| <= |log|
    ensures Increasing(SincePlaces(log, history, since))
  {
    if since.Some? {
      PlacesIncrease(log, |log| - |history|, |log|, since.value);
    }
  }

  lemma WroteReplay(log: seq<Event>, matches: Event -> bool, replayed: seq<nat>)
    requires Within(replayed, 0, |log|)
    ensures Wrote(log, Feed(|log|, [], 0, []), matches, replayed, At(log, replayed))
  {
    assert replayed + [] == replayed;
  }

  lemma AccountOfOne(log: seq<Event>, feeds: map<Chan, Feed>, queues: map<Chan, Queue>, subs: set<Chan>, c: Chan,
                     matches: Event -> bool, replayed: seq<nat>, start: nat, out: seq<Event>)
    requires AllServed(log, feeds, queues, subs) && c in queues && c in subs && c in feeds
    requires Wrote(log, feeds[c], matches, replayed, out)
    requires Increasing(replayed) && Within(replayed, 0, start) && start <= feeds[c].from
    ensures Account(log, feeds[c], matches, replayed, start, out)
  {
    assert ServedAt(log, feeds, queues, subs, c);
    AccountIsExact(log, feeds[c], queues[c], matches, replayed, start, out);
  }

  /** From subscription to its deferred end. */
  method Attend(b: Broker, matches: Event -> bool, acts: seq<Action>, already: seq<Event>, ghost replayed: seq<nat>,
                ghost start: nat)
    returns (out: seq<Event>, ghost ch: Chan)
    requires b.Valid() && start <= |b.log| && Increasing(replayed) && Within(replayed, 0, start)
    requires already == At(b.log, replayed)
    modifies b
    ensures b.Valid() && b.subs == old(b.subs) && old(b.log) <= b.log && ch in b.feeds
    ensures b.feeds[ch].from == |old(b.log)| && Account(b.log, b.feeds[ch], matches, replayed, start, out)
    ensures Pace(|b.queues[ch].buffer|, b.feeds[ch].read) == PaceAfter(acts)
  {
    var c := b.Subscribe();
    WroteReplay(b.log, matches, replayed);
    out := Follow(b, c, matches, acts, already, replayed);
    AccountOfOne(b.log, b.feeds, b.queues, b.subs, c, matches, replayed, start, out);
    b.Forget(c);
    b.Close(c);
    ch := c;
  }

  /** eventsStream: replay, then subscribe and follow. What is written is, in order and never twice, the
      replay of exactly the due history and then every matching event that was read. A matching event
      published meanwhile was written, waits or met a full queue, unless it came before the
      subscription: then it is lost. */
  method EventsStream(b: Broker, since: Option<int>, matches: Event -> bool, inTime: Event -> bool,
                      gap: seq<Event>, acts: seq<Action>)
    returns (out: seq<Event>, ghost ch: Chan, ghost replayed: seq<nat>)
    requires b.Valid()
    modifies b
    ensures b.Valid() && b.subs == old(b.subs) && old(b.log) + gap <= b.log && ch in b.feeds
    ensures forall k: nat :: k in replayed <==> Replays(old(b.log), old(b.history), since, matches, inTime, k)
    ensures b.feeds[ch].from == |old(b.log)| + |gap|
    ensures Account(b.log, b.feeds[ch], matches, replayed, |old(b.log)|, out)
    ensures Pace(|b.queues[ch].buffer|, b.feeds[ch].read) == PaceAfter(acts)
  {
    var already;
    already, replayed := ReplayHistory(b, since, matches, inTime);
    Meanwhile(b, gap, already, replayed);
    out, ch := Attend(b, matches, acts, already, replayed, |old(b.log)|);
  }
}
