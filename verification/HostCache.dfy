/**
 The host-to-workspace cache of the site's proxy: a bounded map in insertion order, read and written
 around an awaited request, so calls for the same or other hosts interleave between the two.

 A request's outcome and the clock are inputs. The code between two awaits runs undisturbed.
 */
module HostCache {
  import opened Wrappers

  const CACHE_TTL_MS := 60_000
  const CACHE_MAX := 1000

  /** `id` is empty for a host that belongs to no workspace. */
  datatype Entry = Entry(id: Option<int>, at: int)

  datatype Slot = Slot(host: string, entry: Entry)

  /** The map's entries in insertion order. */
  type Cache = seq<Slot>

  datatype Lookup = Found(id: int) | NotFound | Error

  function FromEntry(e: Entry): Lookup {
    if e.id.None? then NotFound else Found(e.id.value)
  }

  // ---- the map ----

  ghost predicate Distinct(c: Cache) {
    forall i, j :: 0 <= i < j < |c| ==> c[i].host != c[j].host
  }

  function Get(c: Cache, host: string): Option<Entry> {
    if c == [] then None else if c[0].host == host then Some(c[0].entry) else Get(c[1..], host)
  }

  /** A present key keeps its place, a new one goes to the end. */
  function Assign(c: Cache, host: string, e: Entry): Cache {
    if c == [] then [Slot(host, e)]
    else if c[0].host == host then [Slot(host, e)] + c[1..]
    else [c[0]] + Assign(c[1..], host, e)
  }

  /** Evicts the first key of a full cache, whichever host is written. */
  function Put(c: Cache, host: string, e: Entry): Cache {
    Assign(if |c| >= CACHE_MAX then c[1..] else c, host, e)
  }

  lemma {:induction false} AssignGets(c: Cache, host: string, e: Entry, other: string)
    ensures Get(Assign(c, host, e), other) == if other == host then Some(e) else Get(c, other)
  {
    if c != [] && c[0].host != host {
      AssignGets(c[1..], host, e, other);
    }
  }

  /** Where a write puts its entry: at the host's place, or at the end. */
  lemma {:induction false} AssignAt(c: Cache, host: string, e: Entry, i: nat)
    requires i <= |c| && (forall j :: 0 <= j < i ==> c[j].host != host) && (i < |c| ==> c[i].host == host)
    ensures Assign(c, host, e) == if i < |c| then c[i := Slot(host, e)] else c + [Slot(host, e)]
  {
    if i > 0 {
      AssignAt(c[1..], host, e, i - 1);
      assert c == [c[0]] + c[1..];
    }
  }

  lemma {:induction false} AssignHosts(c: Cache, host: string, e: Entry)
    requires Distinct(c)
    ensures Distinct(Assign(c, host, e))
    ensures |Assign(c, host, e)| == |c| + if Get(c, host).Some? then 0 else 1
    ensures forall s :: s in Assign(c, host, e) ==> s == Slot(host, e) || s in c
  {
    if c != [] {
      if c[0].host == host {
        assert c == [c[0]] + c[1..];
      } else {
        AssignHosts(c[1..], host, e);
        var rest := Assign(c[1..], host, e);
        assert c == [c[0]] + c[1..];
        forall j | 0 <= j < |rest|
          ensures rest[j].host != c[0].host
        {
          assert rest[j] in rest;
          if rest[j] in c[1..] {
            var k :| 0 <= k < |c[1..]| && c[1..][k] == rest[j];
          }
        }
      }
    }
  }

  lemma {:induction false} GetIsIn(c: Cache, host: string)
    ensures Get(c, host).Some? ==> Slot(host, Get(c, host).value) in c
  {
    if c != [] && c[0].host != host {
      GetIsIn(c[1..], host);
    }
  }

  lemma {:induction false} FirstAndRest(c: Cache, other: string)
    requires Distinct(c) && c != []
    ensures Get(c[1..], other) == if other == c[0].host then None else Get(c, other)
  {
    if other == c[0].host {
      GetIsIn(c[1..], other);
    }
  }

  /** A write stores its entry, evicts at most the oldest key, and leaves the other hosts as they were. */
  lemma {:induction false} PutGets(c: Cache, host: string, e: Entry, other: string)
    requires Distinct(c)
    ensures Get(Put(c, host, e), other) ==
            if other == host then Some(e)
            else if |c| >= CACHE_MAX && other == c[0].host then None
            else Get(c, other)
  {
    if |c| >= CACHE_MAX {
      FirstAndRest(c, other);
      AssignGets(c[1..], host, e, other);
    } else {
      AssignGets(c, host, e, other);
    }
  }

  /**
   The exact size after a write: a full cache that holds the written host behind its first key gets
   smaller, because it evicts although nothing new comes in.
   */
  lemma {:induction false} PutSize(c: Cache, host: string, e: Entry)
    requires Distinct(c) && |c| <= CACHE_MAX
    ensures Distinct(Put(c, host, e)) && |Put(c, host, e)| <= CACHE_MAX
    ensures |Put(c, host, e)| ==
            if |c| < CACHE_MAX then (if Get(c, host).Some? then |c| else |c| + 1)
            else if Get(c, host).Some? && host != c[0].host then CACHE_MAX - 1
            else CACHE_MAX
    ensures forall s :: s in Put(c, host, e) ==> s == Slot(host, e) || s in c
  {
    if |c| >= CACHE_MAX {
      FirstAndRest(c, host);
      AssignHosts(c[1..], host, e);
      assert forall s :: s in c[1..] ==> s in c;
    } else {
      AssignHosts(c, host, e);
    }
  }

  // ---- interleaved calls ----

  /** A call that awaits its request: what it knew when it started. */
  datatype Call = Call(host: string, now: int, cached: Option<Entry>)

  /** `Broken` is a response that is not ok, or any exception. */
  datatype Reply = Answer(id: Option<int>) | Broken

  datatype Event = Start(call: nat, host: string, now: int) | Finish(call: nat, reply: Reply)

  /** Answered from the cache without a request, by the request, or by what was cached when that failed. */
  datatype Way = Served | Answered(id: Option<int>) | FellBack

  /** What a call gave its caller and how, and the entry its host had when it started. */
  datatype Returned = Returned(call: nat, host: string, now: int, cached: Option<Entry>, way: Way, lookup: Lookup)

  /** `given` is what the backend has answered so far, host by host. */
  datatype State = State(cache: Cache, waiting: map<nat, Call>, given: set<(string, Option<int>)>,
    returned: seq<Returned>)

  const INITIAL := State([], map[], {}, [])

  predicate Fresh(e: Entry, now: int) {
    now - e.at < CACHE_TTL_MS
  }

  /** The part of a call before its await. */
  function Started(s: State, call: nat, host: string, now: int): State {
    var cached := Get(s.cache, host);
    if call in s.waiting then s
    else if cached.Some? && Fresh(cached.value, now) then
      s.(returned := s.returned + [Returned(call, host, now, cached, Served, FromEntry(cached.value))])
    else s.(waiting := s.waiting[call := Call(host, now, cached)])
  }

  /** The part of a call behind its await. */
  function Finished(s: State, call: nat, reply: Reply): State {
    if call !in s.waiting then s
    else
      var c := s.waiting[call];
      match reply
      case Broken =>
        var lookup := if c.cached.Some? then FromEntry(c.cached.value) else Error;
        s.(waiting := s.waiting - {call},
           returned := s.returned + [Returned(call, c.host, c.now, c.cached, FellBack, lookup)])
      case Answer(id) =>
        State(Put(s.cache, c.host, Entry(id, c.now)), s.waiting - {call}, s.given + {(c.host, id)},
              s.returned + [Returned(call, c.host, c.now, c.cached, Answered(id), FromEntry(Entry(id, c.now)))])
  }

  function Step(s: State, e: Event): State {
    match e
    case Start(call, host, now) => Started(s, call, host, now)
    case Finish(call, reply) => Finished(s, call, reply)
  }

  function Run(events: seq<Event>): State {
    if events == [] then INITIAL else Step(Run(events[..|events| - 1]), events[|events| - 1])
  }

  // ---- every interleaving ----

  predicate GivenEntry(s: State, host: string, e: Entry) {
    (host, e.id) in s.given
  }

  predicate Stale(cached: Option<Entry>, now: int) {
    cached.Some? ==> now - cached.value.at >= CACHE_TTL_MS
  }

  /**
   What a caller got came from the backend for that host; an error means the host had no entry. An answer
   without a request is the entry's, younger than its lifetime; a request is made only without such an
   entry, and when it fails the caller gets the entry there was, however old.
   */
  predicate Honest(s: State, r: Returned) {
    && (r.lookup.Found? ==> (r.host, Some(r.lookup.id)) in s.given)
    && (r.lookup.NotFound? ==> (r.host, None) in s.given)
    && (r.lookup.Error? ==> r.cached.None?)
    && match r.way
       case Served =>
         r.cached.Some? && r.now - r.cached.value.at < CACHE_TTL_MS && r.lookup == FromEntry(r.cached.value)
       case Answered(id) =>
         Stale(r.cached, r.now) && (r.host, id) in s.given && r.lookup == if id.None? then NotFound else Found(id.value)
       case FellBack =>
         Stale(r.cached, r.now) && r.lookup == if r.cached.Some? then FromEntry(r.cached.value) else Error
  }

  /** A call that awaits its request had no entry young enough. */
  predicate Pending(s: State, c: Call) {
    Stale(c.cached, c.now) && (c.cached.Some? ==> GivenEntry(s, c.host, c.cached.value))
  }

  ghost predicate Safe(s: State) {
    && Distinct(s.cache) && |s.cache| <= CACHE_MAX
    && (forall slot :: slot in s.cache ==> GivenEntry(s, slot.host, slot.entry))
    && (forall c :: c in s.waiting ==> Pending(s, s.waiting[c]))
    && (forall r :: r in s.returned ==> Honest(s, r))
  }

  lemma {:induction false} StartKeepsSafe(s: State, call: nat, host: string, now: int)
    requires Safe(s)
    ensures Safe(Started(s, call, host, now))
  {
    GetIsIn(s.cache, host);
  }

  lemma {:induction false} FinishKeepsSafe(s: State, call: nat, reply: Reply)
    requires Safe(s)
    ensures Safe(Finished(s, call, reply))
  {
    if call in s.waiting && reply.Answer? {
      var c := s.waiting[call];
      PutSize(s.cache, c.host, Entry(reply.id, c.now));
    }
  }

  /**
   Under every interleaving of calls the cache keeps its bound, every entry and every answer is one that
   the backend gave for that host, an answer without a request is younger than its lifetime, and an error
   is returned only where the host had no entry at the start.
   */
  lemma {:induction false} EveryRunIsSafe(events: seq<Event>)
    ensures Safe(Run(events))
  {
    if events != [] {
      var front, last := events[..|events| - 1], events[|events| - 1];
      EveryRunIsSafe(front);
      match last
      case Start(call, host, now) => StartKeepsSafe(Run(front), call, host, now);
      case Finish(call, reply) => FinishKeepsSafe(Run(front), call, reply);
    }
  }

  // ---- what changes an entry ----

  /** The event finishes a waiting call for the host with an answer of the backend. */
  ghost predicate Answers(events: seq<Event>, k: int, host: string) {
    && 0 <= k < |events| && events[k].Finish? && events[k].reply.Answer?
    && events[k].call in Run(events[..k]).waiting
    && Run(events[..k]).waiting[events[k].call].host == host
  }

  /** The event finishes a call for another host with an answer, and the cache is full with this host first. */
  ghost predicate Evicts(events: seq<Event>, k: int, host: string) {
    && 0 <= k < |events| && events[k].Finish? && events[k].reply.Answer?
    && events[k].call in Run(events[..k]).waiting
    && Run(events[..k]).waiting[events[k].call].host != host
    && |Run(events[..k]).cache| == CACHE_MAX && Run(events[..k]).cache[0].host == host
  }

  /** The entry of a host after the first `k` events. */
  ghost function EntryAfter(events: seq<Event>, k: nat, host: string): Option<Entry>
    requires k <= |events|
  {
    Get(Run(events[..k]).cache, host)
  }

  /** One event: an answer sets its host's entry, an eviction clears one, nothing else changes any. */
  lemma {:induction false} EntryStep(events: seq<Event>, k: nat, host: string)
    requires k < |events|
    ensures EntryAfter(events, k + 1, host) ==
            if Answers(events, k, host) then
              Some(Entry(events[k].reply.id, Run(events[..k]).waiting[events[k].call].now))
            else if Evicts(events, k, host) then None
            else EntryAfter(events, k, host)
  {
    var s := Run(events[..k]);
    assert events[..k + 1][..k] == events[..k];
    EveryRunIsSafe(events[..k]);
    var e := events[k];
    if e.Finish? && e.reply.Answer? && e.call in s.waiting {
      var c := s.waiting[e.call];
      PutGets(s.cache, c.host, Entry(e.reply.id, c.now), host);
    }
  }

  /**
   Failed requests, requests of other hosts and answers from the cache change no entry: if a host's entry
   differs between two moments of a run, a request for that host was answered in between, or an answer for
   another host evicted it from a full cache.
   */
  lemma {:induction false} FailuresAreNotCached(events: seq<Event>, from: nat, end: nat, host: string) returns (k: nat)
    requires from <= end <= |events| && EntryAfter(events, from, host) != EntryAfter(events, end, host)
    ensures from <= k < end && (Answers(events, k, host) || Evicts(events, k, host))
    decreases end
  {
    EntryStep(events, end - 1, host);
    if Answers(events, end - 1, host) || Evicts(events, end - 1, host) {
      k := end - 1;
    } else {
      k := FailuresAreNotCached(events, from, end - 1, host);
    }
  }

  /** The entry of a host is that of the last call to finish with an answer for it, with that call's start time. */
  lemma {:induction false} LastAnswerDecides(events: seq<Event>, n: nat, host: string) returns (k: nat)
    requires n <= |events| && EntryAfter(events, n, host).Some?
    ensures k < n && Answers(events, k, host) && forall j :: k < j < n ==> !Answers(events, j, host)
    ensures EntryAfter(events, n, host) ==
            Some(Entry(events[k].reply.id, Run(events[..k]).waiting[events[k].call].now))
  {
    EntryStep(events, n - 1, host);
    if Answers(events, n - 1, host) {
      k := n - 1;
    } else {
      k := LastAnswerDecides(events, n - 1, host);
    }
  }

  // ---- each call ----

  /** No call number is started twice. */
  ghost predicate DistinctCalls(events: seq<Event>) {
    forall i, j :: 0 <= i < j < |events| && events[i].Start? && events[j].Start? ==> events[i].call != events[j].call
  }

  ghost predicate HasStarted(events: seq<Event>, call: nat) {
    exists i :: 0 <= i < |events| && events[i].Start? && events[i].call == call
  }

  ghost predicate AnsweredAt(s: State, call: nat, k: int) {
    0 <= k < |s.returned| && s.returned[k].call == call
  }

  /** The call waits with its own host and time, or has answered once with them. */
  ghost predicate WaitsOrAnsweredOnce(s: State, call: nat, host: string, now: int) {
    if call in s.waiting then
      s.waiting[call].host == host && s.waiting[call].now == now && forall k :: !AnsweredAt(s, call, k)
    else
      exists k :: AnsweredAt(s, call, k) && s.returned[k].host == host && s.returned[k].now == now
                  && forall j :: AnsweredAt(s, call, j) ==> j == k
  }

  lemma {:induction false} OnlyStartedCalls(events: seq<Event>, call: nat)
    requires !HasStarted(events, call)
    ensures call !in Run(events).waiting && forall k :: !AnsweredAt(Run(events), call, k)
  {
    if events != [] {
      var n := |events| - 1;
      assert !HasStarted(events[..n], call);
      OnlyStartedCalls(events[..n], call);
      assert events[n].Start? ==> events[n].call != call;
      OtherEventKeeps(Run(events[..n]), events[n], call);
    }
  }

  /** What no event is about stays: the call's waiting entry and its answers. */
  lemma {:induction false} OtherEventKeeps(s: State, e: Event, call: nat)
    requires e.call != call || (e.Finish? && call !in s.waiting)
    ensures var t := Step(s, e);
            && (call in t.waiting <==> call in s.waiting)
            && (call in s.waiting ==> t.waiting[call] == s.waiting[call])
            && |s.returned| <= |t.returned| && t.returned[..|s.returned|] == s.returned
            && forall k :: AnsweredAt(t, call, k) <==> AnsweredAt(s, call, k)
  {
  }

  /** In every interleaving each started call is waiting, or it has answered exactly once, for its own host and time. */
  lemma {:induction false} EachCallAnswersOnce(events: seq<Event>, i: nat)
    requires DistinctCalls(events) && i < |events| && events[i].Start?
    ensures WaitsOrAnsweredOnce(Run(events), events[i].call, events[i].host, events[i].now)
  {
    var n := |events| - 1;
    var s, e, call := Run(events[..n]), events[n], events[i].call;
    if i == n {
      assert !HasStarted(events[..n], call);
      OnlyStartedCalls(events[..n], call);
      AnswersOnce(s, e, call, e.host, e.now);
    } else {
      EachCallAnswersOnce(events[..n], i);
      if e.call != call || (e.Finish? && call !in s.waiting) {
        OtherEventKeeps(s, e, call);
        StillAnsweredOnce(s, Step(s, e), call, events[i].host, events[i].now);
      } else {
        AnswersOnce(s, e, call, events[i].host, events[i].now);
      }
    }
  }

  lemma {:induction false} StillAnsweredOnce(s: State, t: State, call: nat, host: string, now: int)
    requires WaitsOrAnsweredOnce(s, call, host, now)
    requires (call in t.waiting <==> call in s.waiting) && (call in s.waiting ==> t.waiting[call] == s.waiting[call])
    requires |s.returned| <= |t.returned| && t.returned[..|s.returned|] == s.returned
    requires forall k :: AnsweredAt(t, call, k) <==> AnsweredAt(s, call, k)
    ensures WaitsOrAnsweredOnce(t, call, host, now)
  {
    if call !in s.waiting {
      var k :| AnsweredAt(s, call, k) && s.returned[k].host == host && s.returned[k].now == now;
      assert t.returned[k] == t.returned[..|s.returned|][k] == s.returned[k];
      assert AnsweredAt(t, call, k);
    }
  }

  /** A call that has not answered begins to wait or answers, or it waits and answers. */
  lemma {:induction false} AnswersOnce(s: State, e: Event, call: nat, host: string, now: int)
    requires e.call == call && forall k :: !AnsweredAt(s, call, k)
    requires if e.Start? then call !in s.waiting && e.host == host && e.now == now
             else call in s.waiting && s.waiting[call].host == host && s.waiting[call].now == now
    ensures WaitsOrAnsweredOnce(Step(s, e), call, host, now)
  {
    var t := Step(s, e);
    if call !in t.waiting {
      var k := |s.returned|;
      assert |t.returned| == k + 1 && AnsweredAt(t, call, k);
      forall j | AnsweredAt(t, call, j) ensures j == k {
        assert j < k ==> AnsweredAt(s, call, j);
      }
    } else {
      assert t.returned == s.returned;
      forall k ensures !AnsweredAt(t, call, k) {
        assert AnsweredAt(t, call, k) <==> AnsweredAt(s, call, k);
      }
    }
  }

  /**
   Two overlapping calls for one host, behind no entry or an expired one: the one that finishes last
   decides the entry, with its own start time, so an entry's time can go backwards.
   */
  lemma {:induction false} LastToFinishDecides(s: State, host: string, first: nat, second: nat, early: int, late: int,
                                               id: Option<int>, id': Option<int>)
    requires Safe(s) && first != second && first !in s.waiting && second !in s.waiting
    requires Stale(Get(s.cache, host), early) && Stale(Get(s.cache, host), late)
    ensures var a := Started(Started(s, first, host, early), second, host, late);
            var mid := Finished(a, second, Answer(id'));
            && Get(mid.cache, host) == Some(Entry(id', late))
            && Get(Finished(mid, first, Answer(id)).cache, host) == Some(Entry(id, early))
  {
    var a := Started(Started(s, first, host, early), second, host, late);
    var mid := Finished(a, second, Answer(id'));
    PutSize(s.cache, host, Entry(id', late));
    PutGets(s.cache, host, Entry(id', late), host);
    PutGets(mid.cache, host, Entry(id, early), host);
  }

  // ---- the proxy's module state ----

  class Proxy {
    var cache: Cache

    constructor ()
      ensures cache == []
    {
      cache := [];
    }

    method SetCache(host: string, id: Option<int>, at: int)
      modifies this
      ensures cache == Put(old(cache), host, Entry(id, at))
    {
      if |cache| >= CACHE_MAX {
        cache := cache[1..];
      }
      var i := 0;
      while i < |cache| && cache[i].host != host
        invariant 0 <= i <= |cache|
        invariant forall j :: 0 <= j < i ==> cache[j].host != host
        invariant cache == if |old(cache)| >= CACHE_MAX then old(cache)[1..] else old(cache)
      {
        i := i + 1;
      }
      AssignAt(cache, host, Entry(id, at), i);
      if i < |cache| {
        cache := cache[i := Slot(host, Entry(id, at))];
      } else {
        cache := cache + [Slot(host, Entry(id, at))];
      }
    }

    /** Up to the await: an answer from a fresh entry, or what the call carries over the await. */
    method Begin(host: string, now: int) returns (lookup: Option<Lookup>, call: Call)
      ensures call == Call(host, now, Get(cache, host))
      ensures forall s: State, k: nat :: s.cache == cache && k !in s.waiting ==>
        Started(s, k, host, now) ==
          if lookup.Some? then
            s.(returned := s.returned + [Returned(k, host, now, call.cached, Served, lookup.value)])
          else s.(waiting := s.waiting[k := call])
    {
      call := Call(host, now, Get(cache, host));
      lookup := None;
      if call.cached.Some? && Fresh(call.cached.value, now) {
        lookup := Some(FromEntry(call.cached.value));
      }
    }

    /** Behind the await, whatever other calls did to the cache meanwhile. */
    method Complete(call: Call, reply: Reply) returns (lookup: Lookup)
      modifies this
      ensures forall s: State, k: nat :: s.cache == old(cache) && k in s.waiting && s.waiting[k] == call ==>
        && Finished(s, k, reply).cache == cache
        && Finished(s, k, reply).returned == s.returned +
             [Returned(k, call.host, call.now, call.cached, if reply.Answer? then Answered(reply.id) else FellBack,
               lookup)]
    {
      match reply {
        case Broken =>
          lookup := if call.cached.Some? then FromEntry(call.cached.value) else Error;
        case Answer(id) =>
          SetCache(call.host, id, call.now);
          lookup := if id.None? then NotFound else Found(id.value);
      }
    }
  }
}
