/**
  `get_location_coordinates` and `_geocode_cached` (app.py:86-115): every
  lookup first waits until 1.5 s have passed since the previous lookup
  finished, then goes through a memo table with a one-hour lifetime, and
  finally records the time it finished. The network is an oracle from the
  query and the time of the request to an answer and a latency; the wall
  clock is an integer of milliseconds that only moves forward.
 */
module Geocoding {
  import opened Wrappers

  /** A latitude and longitude pair, as Nominatim returns it; its values are never inspected. */
  datatype Coords = Coords(latitude: real, longitude: real)

  /** What one Nominatim request produces: a location, nothing, or an exception. */
  datatype Answer = Found(at: Coords) | NotFound | Raised

  /** The network: the answer to a query sent at a given time, and how long the request takes. */
  datatype Oracle = Oracle(answer: (string, int) -> Answer, latency: (string, int) -> nat)

  /** A memoised result together with the time it was stored. */
  datatype Entry = Entry(result: Option<Coords>, storedAt: int)

  /** The wall clock, the recorded time of the last lookup and the memo table, all in milliseconds. */
  datatype Cache = Cache(now: int, last: int, memo: map<string, Entry>)

  /** One call of `get_location_coordinates`: its result, when its lookup started, whether it went to the network, and the state after it. */
  datatype Call = Call(result: Option<Coords>, start: int, fetched: bool, after: Cache)

  /** The minimum spacing between lookups, 1.5 s. */
  const MinSpacing: int := 1500

  /** The lifetime of a memo entry, `ttl=3600` seconds. */
  const Ttl: int := 3_600_000

  /** `_geocode_cached` without its memo table: any exception, like a miss, becomes `None`. */
  function Outcome(a: Answer): (r: Option<Coords>)
    ensures r.Some? <==> a.Found?
    ensures a.Found? ==> r.value == a.at
  {
    match a
    case Found(at) => Some(at)
    case NotFound => None
    case Raised => None
  }

  /**
    When the lookup starts: right away if 1.5 s have passed since `last`,
    otherwise after sleeping for the rest of the 1.5 s.
   */
  function ThrottledStart(now: int, last: int): (start: int)
    ensures start >= now && start >= last + MinSpacing
    ensures start == now || start == last + MinSpacing
  {
    if now - last < MinSpacing then last + MinSpacing else now
  }

  /** An entry may still be served at time `t`: it was stored less than an hour before. */
  predicate Fresh(e: Entry, t: int) {
    t - e.storedAt < Ttl
  }

  /**
    One call: wait, then serve the memoised result if it is fresh, or ask
    the network and memoise whatever comes back, `None` included, stamped
    with the time the request returned. The recorded time becomes the time
    the call finished; a hit takes no time.
   */
  function Geocode(c: Cache, o: Oracle, q: string): (call: Call)
    ensures call.start == ThrottledStart(c.now, c.last)
    ensures call.after.now == call.after.last >= call.start
    ensures !call.fetched <==> q in c.memo && Fresh(c.memo[q], call.start)
    ensures !call.fetched ==> call.result == c.memo[q].result && call.after == Cache(call.start, call.start, c.memo)
    ensures call.fetched ==>
      call.result == Outcome(o.answer(q, call.start)) &&
      call.after.last == call.start + o.latency(q, call.start) &&
      call.after.memo == c.memo[q := Entry(call.result, call.after.last)]
  {
    var start := ThrottledStart(c.now, c.last);
    if q in c.memo && Fresh(c.memo[q], start) then
      Call(c.memo[q].result, start, false, Cache(start, start, c.memo))
    else
      var result := Outcome(o.answer(q, start));
      var end := start + o.latency(q, start);
      Call(result, start, true, Cache(end, end, c.memo[q := Entry(result, end)]))
  }

  /** `st.cache_data.clear()` (app.py:77-78): the memo table is emptied, the clock and the last lookup time stay. */
  function ClearMemo(c: Cache): (r: Cache)
    ensures r.memo == map[] && r.now == c.now && r.last == c.last
  {
    Cache(c.now, c.last, map[])
  }

  /** The calls made for the queries `qs`, one after another, with no time passing between them. */
  function Calls(c: Cache, o: Oracle, qs: seq<string>): (calls: seq<Call>)
    ensures |calls| == |qs|
    decreases |qs|
  {
    if qs == [] then []
    else
      var first := Geocode(c, o, qs[0]);
      [first] + Calls(first.after, o, qs[1..])
  }

  /**
    The spacing the throttle promises: every lookup, cache hits included,
    starts at least 1.5 s after the previous one finished, and no later
    than needed.
   */
  lemma {:induction false} CallsAreSpaced(c: Cache, o: Oracle, qs: seq<string>)
    ensures forall i :: 0 < i < |qs| ==>
      Calls(c, o, qs)[i].start == Calls(c, o, qs)[i - 1].after.last + MinSpacing
    decreases |qs|
  {
    if qs != [] {
      var first := Geocode(c, o, qs[0]);
      var rest := Calls(first.after, o, qs[1..]);
      CallsAreSpaced(first.after, o, qs[1..]);
      var calls := Calls(c, o, qs);
      assert calls == [first] + rest;
      forall i | 0 < i < |calls| ensures calls[i].start == calls[i - 1].after.last + MinSpacing {
        if i == 1 {
          assert calls[1] == rest[0] == Geocode(first.after, o, qs[1..][0]);
        } else {
          var j := i - 1;
          assert calls[i] == rest[j] && calls[i - 1] == rest[j - 1];
        }
      }
    }
  }

  /**
    The same query asked again right away: a result just fetched is served
    from the memo table, and whenever the memo table serves it the result is
    the same. (A hit on an entry that expires during the 1.5 s wait is
    fetched again.)
   */
  lemma RepeatIsServedFromMemo(c: Cache, o: Oracle, q: string)
    ensures var first := Geocode(c, o, q);
      var second := Geocode(first.after, o, q);
      (first.fetched ==> !second.fetched) &&
      (!second.fetched ==> second.result == first.result) &&
      (!first.fetched ==> (!second.fetched <==> Fresh(c.memo[q], first.start + MinSpacing)))
  {
    var first := Geocode(c, o, q);
    if first.fetched {
      assert first.after.memo[q].storedAt == first.after.last;
    } else {
      assert first.after.memo[q] == c.memo[q];
      assert first.after.last == first.start;
    }
  }

  /** A failed lookup, an exception included, is memoised as `None` and served as `None` while fresh. */
  lemma FailureIsMemoised(c: Cache, o: Oracle, q: string)
    requires var start := ThrottledStart(c.now, c.last);
      !(q in c.memo && Fresh(c.memo[q], start)) && !o.answer(q, start).Found?
    ensures var call := Geocode(c, o, q);
      call.fetched && call.result == None && q in call.after.memo && call.after.memo[q].result == None
  {
  }

  /** An entry stored an hour or more before the lookup starts is not served: the network is asked again. */
  lemma ExpiredIsRefetched(c: Cache, o: Oracle, q: string)
    requires q in c.memo && ThrottledStart(c.now, c.last) - c.memo[q].storedAt >= Ttl
    ensures Geocode(c, o, q).fetched
  {
  }

  /** After the memo table is cleared every query goes to the network. */
  lemma ClearedMemoFetches(c: Cache, o: Oracle, q: string)
    ensures var call := Geocode(ClearMemo(c), o, q);
      call.fetched && call.result == Outcome(o.answer(q, call.start))
  {
  }

  /**
    A rerun of the script sets the recorded time back to 0, so the first
    lookup of the new run starts at once, however recently the previous run
    made its last lookup.
   */
  lemma RerunDoesNotWait(c: Cache, o: Oracle, q: string)
    requires c.now >= MinSpacing
    ensures Geocode(Cache(c.now, 0, c.memo), o, q).start == c.now
  {
  }

  /**
    Every memoised result is what the network answered to that query at the
    time it was fetched, stamped with the time the answer came back.
   */
  ghost predicate MemoFromOracle(memo: map<string, Entry>, fetchedAt: map<string, int>, o: Oracle) {
    fetchedAt.Keys == memo.Keys &&
    forall q :: q in memo ==>
      memo[q] == Entry(Outcome(o.answer(q, fetchedAt[q])), fetchedAt[q] + o.latency(q, fetchedAt[q]))
  }

  /** Memoising a fresh answer of the network keeps the table faithful to it. */
  lemma MemoFromOracleUpdate(memo: map<string, Entry>, fetchedAt: map<string, int>, o: Oracle, q: string, t: int)
    requires MemoFromOracle(memo, fetchedAt, o)
    ensures MemoFromOracle(memo[q := Entry(Outcome(o.answer(q, t)), t + o.latency(q, t))], fetchedAt[q := t], o)
  {
  }

  /**
    The state of `get_location_coordinates`: the wall clock, the module-level
    `_last_geocode_time[0]` and the memo table behind `_geocode_cached`.
    The ghost map `fetchedAt` records when each memo entry was fetched from
    the network.
   */
  class Geocoder {
    const oracle: Oracle
    var now: int
    var last: int
    var memo: map<string, Entry>
    ghost var fetchedAt: map<string, int>

    /** The state as the pure model sees it. */
    function State(): Cache
      reads this
    {
      Cache(now, last, memo)
    }

    /**
      The invariant: the recorded time is neither negative nor in the
      future, and every memoised result is what the network answered when
      it was fetched.
     */
    ghost predicate Valid()
      reads this
    {
      0 <= last <= now &&
      MemoFromOracle(memo, fetchedAt, oracle)
    }

    /** The module is loaded at wall-clock time `clock`; `_last_geocode_time` starts at 0. */
    constructor(oracle: Oracle, clock: int)
      requires clock >= 0
      ensures Valid() && State() == Cache(clock, 0, map[]) && this.oracle == oracle
    {
      this.oracle := oracle;
      now := clock;
      last := 0;
      memo := map[];
      fetchedAt := map[];
    }

    /** The throttle (app.py:106-110): sleep until 1.5 s have passed since `last`, and report when that is. */
    method Wait() returns (start: int)
      requires Valid()
      modifies this
      ensures Valid() && start == now == ThrottledStart(old(now), old(last))
      ensures last == old(last) && memo == old(memo) && fetchedAt == old(fetchedAt)
    {
      var sinceLast := now - last;
      if sinceLast < MinSpacing {
        now := now + (MinSpacing - sinceLast);
      }
      start := now;
    }

    /** A miss of `_geocode_cached` (app.py:91-100): ask the network and memoise its answer, `None` included. */
    method Fetch(q: string, start: int) returns (result: Option<Coords>)
      requires Valid() && now == start
      modifies this
      ensures Valid()
      ensures result == Outcome(oracle.answer(q, start)) && now == start + oracle.latency(q, start)
      ensures memo == old(memo)[q := Entry(result, now)]
      ensures last == old(last)
    {
      result := Outcome(oracle.answer(q, start));
      MemoFromOracleUpdate(memo, fetchedAt, oracle, q, start);
      now := start + oracle.latency(q, start);
      memo := memo[q := Entry(result, now)];
      fetchedAt := fetchedAt[q := start];
    }

    /** `get_location_coordinates(q)` (app.py:102-115). */
    method Lookup(q: string) returns (result: Option<Coords>)
      requires Valid()
      modifies this
      ensures Valid()
      ensures var call := Geocode(old(State()), oracle, q);
        result == call.result && State() == call.after
    {
      ghost var call := Geocode(State(), oracle, q);
      var start := Wait();
      assert start == call.start;
      if q in memo && Fresh(memo[q], start) {
        result := memo[q].result;
        assert call.after == Cache(start, start, memo);
      } else {
        result := Fetch(q, start);
        assert call.after == Cache(now, now, memo);
      }
      last := now;
    }

    /**
      Streamlit runs the whole script again on every interaction: line 86
      sets `_last_geocode_time` back to `[0]`, while the memo table survives.
     */
    method Rerun()
      requires Valid()
      modifies this
      ensures Valid() && State() == Cache(old(now), 0, old(memo))
    {
      last := 0;
    }

    /** Time passes outside the lookups: the clock moves forward by `d` milliseconds. */
    method Elapse(d: nat)
      requires Valid()
      modifies this
      ensures Valid() && now == old(now) + d
      ensures last == old(last) && memo == old(memo)
    {
      now := now + d;
    }

    /** The "Clear Cache" button (app.py:77-78). */
    method Clear()
      requires Valid()
      modifies this
      ensures Valid() && State() == ClearMemo(old(State()))
    {
      memo := map[];
      fetchedAt := map[];
    }
  }
}
