/**
  The itinerary projector of `create_map_with_route` (app.py:206-397): find
  an anchor for the map, then walk the days and their activities in order,
  look up each activity's normalised location (and, when that finds
  nothing, the activity's name with the destination), and account for
  every activity as a marker or a failed location.
 */
module Projector {
  import opened Wrappers
  import opened Geocoding
  import opened Normalizer

  /** One activity of the parsed itinerary; a missing key is `None`. */
  datatype Activity = Activity(
    name: Option<string>,
    description: Option<string>,
    duration: Option<string>,
    location: Option<string>,
    challenge: Option<string>)

  /** One day: its `day` number and its `activities`, either of which may be missing. */
  datatype Day = Day(number: Option<int>, activities: Option<seq<Activity>>)

  /** The parsed itinerary; only its `days` are read here. */
  datatype Plan = Plan(days: Option<seq<Day>>)

  /** What a map marker shows: where, which day, in which colour, and its popup text. */
  datatype Marker = Marker(
    at: Coords,
    dayNumber: int,
    colour: string,
    title: string,
    duration: string,
    blurb: string,
    challenge: Option<string>)

  /** The running totals: `all_locations`, the markers drawn, `markers_added`, `failed_locations` and `activity_count`. */
  datatype Tally = Tally(
    locations: seq<Coords>,
    markers: seq<Marker>,
    markersAdded: nat,
    failed: seq<string>,
    count: nat)

  /** The totals together with the geocoder's state. */
  datatype Progress = Progress(tally: Tally, cache: Cache)

  /**
    What the walk over the activities is given: the network, the
    normaliser applied to each raw location, and the destination.
    `CreateMap` fixes the normaliser to `Normalize`; the accounting holds
    whatever it is.
   */
  datatype Env = Env(oracle: Oracle, clean: (string, string) -> string, destination: string)

  /** The lookups made for one activity: the result and the geocoder's state after them. */
  datatype Attempt = Attempt(result: Option<Coords>, after: Cache)

  /**
    What `create_map_with_route` ends in: `None` when no anchor is found; an
    `UnboundLocalError` when the plan has no `days` (`total_activities` is
    read at app.py:393 but only assigned inside the `if` at app.py:265);
    otherwise the map with its totals.
   */
  datatype Projection =
    | NoAnchor
    | Unbound(anchor: Coords)
    | Drawn(anchor: Coords, markersAdded: nat, total: nat, failed: seq<string>, locations: seq<Coords>, markers: seq<Marker>)

  /** The day colours, used in turn (app.py:259-260). */
  const Palette: seq<string> := ["red", "blue", "green", "purple", "orange", "darkred", "lightred",
                                 "beige", "darkblue", "darkgreen", "cadetblue", "darkpurple", "pink"]

  /** Python's `s[:n]`. */
  function Prefix(s: string, n: nat): (r: string)
    ensures r <= s
    ensures |r| == if |s| <= n then |s| else n
  {
    if |s| <= n then s else s[..n]
  }

  /** The colour of the day at index `i`. */
  function Colour(i: nat): string {
    Palette[i % |Palette|]
  }

  /** The day number shown for the day at index `i`: its `day` value, else `i + 1`. */
  function DayNumber(d: Day, i: nat): int {
    d.number.GetOr(i + 1)
  }

  /** A day's activities; a day without the key contributes none. */
  function Activities(d: Day): seq<Activity> {
    d.activities.GetOr([])
  }

  /** `activity.get('location', activity.get('name', ''))`: a present location wins even when it is empty. */
  function RawLocation(a: Activity): string {
    match a.location
    case Some(l) => l
    case None => a.name.GetOr("")
  }

  /** The fallback query `f"{activity.get('name', '')}, {destination}"`. */
  function AltQuery(a: Activity, destination: string): string {
    a.name.GetOr("") + ", " + destination
  }

  /** The marker drawn for an activity found at `at` (app.py:358-377). */
  function MarkerFor(a: Activity, at: Coords, dayNumber: int, colour: string): Marker {
    Marker(at, dayNumber, colour, a.name.GetOr("Activity"), a.duration.GetOr("N/A"),
           Prefix(a.description.GetOr(""), 100),
           match a.challenge case Some(c) => Some(Prefix(c, 80)) case None => None)
  }

  /** `sum(len(day.get('activities', [])) for day in days)` over the first `k` days. */
  function TotalUpTo(days: seq<Day>, k: nat): nat
    requires k <= |days|
  {
    if k == 0 then 0 else TotalUpTo(days, k - 1) + |Activities(days[k - 1])|
  }

  /** The activity count of the whole plan. */
  function Total(days: seq<Day>): nat {
    TotalUpTo(days, |days|)
  }

  /**
    The lookups for one activity (app.py:339-346): the cleaned raw location
    first, and the fallback query only when that finds nothing.
   */
  function Resolve(c: Cache, e: Env, a: Activity): Attempt {
    var query := e.clean(RawLocation(a), e.destination);
    var first := Geocode(c, e.oracle, query);
    if first.result.Some? then Attempt(first.result, first.after)
    else
      var alt := AltQuery(a, e.destination);
      var second := Geocode(first.after, e.oracle, alt);
      Attempt(second.result, second.after)
  }

  /** The totals after one activity: a marker at the coordinates found, or its raw location among the failures. */
  function Record(t: Tally, a: Activity, found: Option<Coords>, dayNumber: int, colour: string): Tally {
    match found
    case Some(coords) =>
      Tally(t.locations + [coords], t.markers + [MarkerFor(a, coords, dayNumber, colour)],
            t.markersAdded + 1, t.failed, t.count + 1)
    case None =>
      Tally(t.locations, t.markers, t.markersAdded, t.failed + [RawLocation(a)], t.count + 1)
  }

  /** One activity: its lookups, then its place in the totals. */
  function Visit(p: Progress, e: Env, dayNumber: int, colour: string, a: Activity): Progress {
    var at := Resolve(p.cache, e, a);
    Progress(Record(p.tally, a, at.result, dayNumber, colour), at.after)
  }

  /** The first `k` activities of one day, in order. */
  function VisitAll(p: Progress, e: Env, dayNumber: int, colour: string, acts: seq<Activity>, k: nat): Progress
    requires k <= |acts|
  {
    if k == 0 then p
    else Visit(VisitAll(p, e, dayNumber, colour, acts, k - 1), e, dayNumber, colour, acts[k - 1])
  }

  /** The day at index `i`, all its activities. */
  function VisitDay(p: Progress, e: Env, days: seq<Day>, i: nat): Progress
    requires i < |days|
  {
    VisitAll(p, e, DayNumber(days[i], i), Colour(i), Activities(days[i]), |Activities(days[i])|)
  }

  /** The first `k` days, in order. */
  function VisitDays(p: Progress, e: Env, days: seq<Day>, k: nat): Progress
    requires k <= |days|
  {
    if k == 0 then p else VisitDay(VisitDays(p, e, days, k - 1), e, days, k - 1)
  }

  /** The raw location of the first activity of the first day, when there is one and it is not empty (app.py:212-217). */
  function AnchorQuery(plan: Plan): (r: Option<string>)
    ensures r.Some? <==>
      plan.days.Some? && |plan.days.value| > 0 && |Activities(plan.days.value[0])| > 0 &&
      Activities(plan.days.value[0])[0].location.GetOr("") != ""
    ensures r.Some? ==> r.value == Activities(plan.days.value[0])[0].location.value
  {
    match plan.days
    case None => None
    case Some(days) =>
      if |days| == 0 then None
      else
        var acts := Activities(days[0]);
        if |acts| == 0 then None
        else
          var l := acts[0].location.GetOr("");
          if l == "" then None else Some(l)
  }

  /** The anchor (app.py:209-224): the first activity's raw location, else the destination. */
  function Anchor(c: Cache, o: Oracle, destination: string, plan: Plan): Attempt {
    match AnchorQuery(plan)
    case Some(q) =>
      var first := Geocode(c, o, q);
      if first.result.Some? then Attempt(first.result, first.after)
      else
        var second := Geocode(first.after, o, destination);
        Attempt(second.result, second.after)
    case None =>
      var only := Geocode(c, o, destination);
      Attempt(only.result, only.after)
  }

  /** No activity visited yet. */
  const Start: Tally := Tally([], [], 0, [], 0)

  /** The walk over the days, from the state after the anchor, and what it ends in. */
  function Walk(c: Cache, e: Env, anchor: Coords, days: seq<Day>): (Projection, Cache) {
    var p := VisitDays(Progress(Start, c), e, days, |days|);
    var t := p.tally;
    (Drawn(anchor, t.markersAdded, Total(days), t.failed, t.locations, t.markers), p.cache)
  }

  /** `create_map_with_route` with normaliser `clean`, as a function of the geocoder's state. */
  function ProjectWith(c: Cache, e: Env, plan: Plan): (Projection, Cache) {
    var anchor := Anchor(c, e.oracle, e.destination, plan);
    match anchor.result
    case None => (NoAnchor, anchor.after)
    case Some(at) =>
      match plan.days
      case None => (Unbound(at), anchor.after)
      case Some(days) => Walk(anchor.after, e, at, days)
  }

  /** `create_map_with_route`: what it ends in and the geocoder's state after it. */
  function Project(c: Cache, o: Oracle, destination: string, plan: Plan): (Projection, Cache) {
    ProjectWith(c, Env(o, Normalize, destination), plan)
  }

  /**
    The totals agree: every marker added is one location and one marker
    drawn, and every activity counted is either a marker or a failure.
   */
  predicate Balanced(t: Tally) {
    t.markersAdded == |t.locations| == |t.markers| && t.markersAdded + |t.failed| == t.count
  }

  /**
    One activity keeps the totals balanced and counts once; it extends
    exactly one of the locations and the failures, and a marker it adds
    carries the day's number and colour.
   */
  lemma RecordBalanced(t: Tally, a: Activity, found: Option<Coords>, dayNumber: int, colour: string)
    requires Balanced(t)
    ensures var r := Record(t, a, found, dayNumber, colour);
      Balanced(r) && r.count == t.count + 1 &&
      t.locations <= r.locations && t.markers <= r.markers && t.failed <= r.failed &&
      (found.Some? <==> |r.locations| == |t.locations| + 1) &&
      (found.None? <==> r.failed == t.failed + [RawLocation(a)]) &&
      (found.Some? ==> r.locations[|t.locations|] == found.value &&
                       r.markers[|t.markers|].dayNumber == dayNumber && r.markers[|t.markers|].colour == colour)
  {
  }

  /** A day's activities keep the totals balanced and count `k` activities. */
  lemma {:induction false} VisitAllBalanced(p: Progress, e: Env, dayNumber: int, colour: string, acts: seq<Activity>, k: nat)
    requires k <= |acts| && Balanced(p.tally)
    ensures var r := VisitAll(p, e, dayNumber, colour, acts, k).tally;
      Balanced(r) && r.count == p.tally.count + k && p.tally.markers <= r.markers
  {
    if k > 0 {
      var q := VisitAll(p, e, dayNumber, colour, acts, k - 1);
      VisitAllBalanced(p, e, dayNumber, colour, acts, k - 1);
      RecordBalanced(q.tally, acts[k - 1], Resolve(q.cache, e, acts[k - 1]).result, dayNumber, colour);
    }
  }

  /** The totals after `k` activities are those after `k - 1`, with the `k`-th activity recorded. */
  lemma VisitAllStep(p: Progress, e: Env, dayNumber: int, colour: string, acts: seq<Activity>, k: nat)
    requires 0 < k <= |acts|
    ensures var q := VisitAll(p, e, dayNumber, colour, acts, k - 1);
      VisitAll(p, e, dayNumber, colour, acts, k).tally
        == Record(q.tally, acts[k - 1], Resolve(q.cache, e, acts[k - 1]).result, dayNumber, colour)
  {
  }

  /** The markers from position `from` on are all drawn for a day with this number and colour. */
  predicate DrawnFor(markers: seq<Marker>, from: nat, dayNumber: int, colour: string) {
    from <= |markers| &&
    forall j :: from <= j < |markers| ==> markers[j].dayNumber == dayNumber && markers[j].colour == colour
  }

  /** One more activity of a day keeps that day's markers drawn for it. */
  lemma RecordMarkers(t: Tally, a: Activity, found: Option<Coords>, dayNumber: int, colour: string, from: nat)
    requires DrawnFor(t.markers, from, dayNumber, colour)
    ensures DrawnFor(Record(t, a, found, dayNumber, colour).markers, from, dayNumber, colour)
  {
  }

  /** Every marker a day adds carries that day's number and colour. */
  lemma {:induction false} VisitAllMarkers(p: Progress, e: Env, dayNumber: int, colour: string, acts: seq<Activity>, k: nat)
    requires k <= |acts|
    ensures DrawnFor(VisitAll(p, e, dayNumber, colour, acts, k).tally.markers, |p.tally.markers|, dayNumber, colour)
  {
    if k > 0 {
      var q := VisitAll(p, e, dayNumber, colour, acts, k - 1);
      VisitAllMarkers(p, e, dayNumber, colour, acts, k - 1);
      VisitAllStep(p, e, dayNumber, colour, acts, k);
      RecordMarkers(q.tally, acts[k - 1], Resolve(q.cache, e, acts[k - 1]).result, dayNumber, colour, |p.tally.markers|);
    }
  }

  /**
    The markers of the day at index `i` show its `day` value, or `i + 1`
    when it has none, and the palette's colour for `i`, round-robin.
   */
  lemma VisitDayMarkers(p: Progress, e: Env, days: seq<Day>, i: nat)
    requires i < |days|
    ensures DrawnFor(VisitDay(p, e, days, i).tally.markers, |p.tally.markers|,
                     days[i].number.GetOr(i + 1), Palette[i % 13])
  {
    VisitAllMarkers(p, e, DayNumber(days[i], i), Colour(i), Activities(days[i]), |Activities(days[i])|);
  }

  /** The first `k` days keep the totals balanced and count exactly their activities. */
  lemma {:induction false} VisitDaysBalanced(p: Progress, e: Env, days: seq<Day>, k: nat)
    requires k <= |days| && Balanced(p.tally)
    ensures var r := VisitDays(p, e, days, k).tally;
      Balanced(r) && r.count == p.tally.count + TotalUpTo(days, k)
  {
    if k > 0 {
      var q := VisitDays(p, e, days, k - 1);
      VisitDaysBalanced(p, e, days, k - 1);
      VisitAllBalanced(q, e, DayNumber(days[k - 1], k - 1), Colour(k - 1), Activities(days[k - 1]), |Activities(days[k - 1])|);
    }
  }

  /**
    The accounting the caller relies on: `markers_added` equals the number
    of locations collected and of markers drawn, and markers plus failures
    make up every activity of the plan; the anchor adds no entry.
   */
  lemma ProjectAccounts(c: Cache, e: Env, plan: Plan)
    ensures var r := ProjectWith(c, e, plan).0;
      r.Drawn? ==>
        r.markersAdded == |r.locations| == |r.markers| && r.markersAdded + |r.failed| == r.total
  {
    var anchor := Anchor(c, e.oracle, e.destination, plan);
    if anchor.result.Some? && plan.days.Some? {
      VisitDaysBalanced(Progress(Start, anchor.after), e, plan.days.value, |plan.days.value|);
    }
  }

  /**
    The retry, as the totals see it: an activity becomes a failure only when
    both its cleaned location and the fallback "name, destination" find
    nothing; when only the fallback finds it, the marker stands at the
    fallback's coordinates and no failure is recorded.
   */
  lemma RetryRecovers(p: Progress, e: Env, dayNumber: int, colour: string, a: Activity)
    ensures var first := Geocode(p.cache, e.oracle, e.clean(RawLocation(a), e.destination));
      var second := Geocode(first.after, e.oracle, AltQuery(a, e.destination));
      var r := Visit(p, e, dayNumber, colour, a);
      r.tally.count == p.tally.count + 1 &&
      (first.result.Some? ==>
         r.tally.locations == p.tally.locations + [first.result.value] && r.tally.failed == p.tally.failed &&
         r.cache == first.after) &&
      (first.result.None? && second.result.Some? ==>
         r.tally.locations == p.tally.locations + [second.result.value] && r.tally.failed == p.tally.failed &&
         r.tally.markers == p.tally.markers + [MarkerFor(a, second.result.value, dayNumber, colour)] &&
         r.cache == second.after) &&
      (first.result.None? && second.result.None? ==>
         r.tally.locations == p.tally.locations && r.tally.failed == p.tally.failed + [RawLocation(a)] &&
         r.cache == second.after)
  {
  }

  /**
    A plan without `days` never gives a map: the destination alone is looked
    up for the anchor, and when it is found the call fails on the unbound
    `total_activities` instead of returning.
   */
  lemma MissingDaysNeverDraws(c: Cache, e: Env, plan: Plan)
    requires plan.days.None?
    ensures var r := ProjectWith(c, e, plan);
      var only := Geocode(c, e.oracle, e.destination);
      !r.0.Drawn? && r.1 == only.after && (r.0.Unbound? <==> only.result.Some?)
  {
    assert AnchorQuery(plan).None?;
  }

  /** `b` begins with `a`: the prefix order on location lists, named so that the growth lemmas state it as one fact. */
  predicate Extends(a: seq<Coords>, b: seq<Coords>) {
    a <= b
  }

  lemma PrefixTrans(a: seq<Coords>, b: seq<Coords>, c: seq<Coords>)
    requires Extends(a, b) && Extends(b, c)
    ensures Extends(a, c)
  {
  }

  /** Visiting an activity only appends to the locations. */
  lemma VisitGrows(p: Progress, e: Env, dayNumber: int, colour: string, a: Activity)
    ensures Extends(p.tally.locations, Visit(p, e, dayNumber, colour, a).tally.locations)
  {
  }

  /** The locations after `j` activities of a day begin those after `k >= j`. */
  lemma {:induction false} VisitAllGrows(p: Progress, e: Env, dayNumber: int, colour: string, acts: seq<Activity>, j: nat, k: nat)
    requires j <= k <= |acts|
    ensures Extends(VisitAll(p, e, dayNumber, colour, acts, j).tally.locations, VisitAll(p, e, dayNumber, colour, acts, k).tally.locations)
    decreases k
  {
    if j < k {
      var q := VisitAll(p, e, dayNumber, colour, acts, k - 1);
      var before := VisitAll(p, e, dayNumber, colour, acts, j).tally.locations;
      VisitAllGrows(p, e, dayNumber, colour, acts, j, k - 1);
      var r := VisitAll(p, e, dayNumber, colour, acts, k);
      assert r == Visit(q, e, dayNumber, colour, acts[k - 1]);
      VisitGrows(q, e, dayNumber, colour, acts[k - 1]);
      PrefixTrans(before, q.tally.locations, r.tally.locations);
    }
  }

  /** The locations after the first day begin those after `k >= 1` days. */
  lemma {:induction false} VisitDaysGrow(p: Progress, e: Env, days: seq<Day>, k: nat)
    requires 1 <= k <= |days|
    ensures Extends(VisitDays(p, e, days, 1).tally.locations, VisitDays(p, e, days, k).tally.locations)
    decreases k
  {
    if k > 1 {
      var q := VisitDays(p, e, days, k - 1);
      VisitDaysGrow(p, e, days, k - 1);
      var acts := Activities(days[k - 1]);
      VisitAllGrows(q, e, DayNumber(days[k - 1], k - 1), Colour(k - 1), acts, 0, |acts|);
      PrefixTrans(VisitDays(p, e, days, 1).tally.locations, q.tally.locations, VisitDays(p, e, days, k).tally.locations);
    }
  }

  /**
    The anchor is drawn again by the first activity: when its raw location
    is already in the form the normaliser gives and was fetched for the
    anchor, the first activity's lookup is served from the memo table, and
    the first location collected is the anchor itself.
   */
  lemma AnchorReusedByFirstActivity(c: Cache, e: Env, plan: Plan)
    requires AnchorQuery(plan).Some?
    requires var q := AnchorQuery(plan).value;
      e.clean(q, e.destination) == q && Geocode(c, e.oracle, q).fetched && Geocode(c, e.oracle, q).result.Some?
    ensures var r := ProjectWith(c, e, plan).0;
      r.Drawn? && |r.locations| > 0 && r.locations[0] == r.anchor
  {
    var q := AnchorQuery(plan).value;
    var days := plan.days.value;
    var first := Geocode(c, e.oracle, q);
    var anchor := Anchor(c, e.oracle, e.destination, plan);
    assert anchor.result == first.result && anchor.after == first.after;
    var at := first.result.value;
    var p0 := Progress(Start, first.after);
    var acts := Activities(days[0]);
    RepeatIsServedFromMemo(c, e.oracle, q);
    assert RawLocation(acts[0]) == q;
    assert Resolve(first.after, e, acts[0]).result == Some(at);
    var dayNumber, colour := DayNumber(days[0], 0), Colour(0);
    var one := VisitAll(p0, e, dayNumber, colour, acts, 1);
    assert one == Visit(VisitAll(p0, e, dayNumber, colour, acts, 0), e, dayNumber, colour, acts[0]);
    assert one.tally.locations == [at];
    VisitAllGrows(p0, e, dayNumber, colour, acts, 1, |acts|);
    assert VisitDays(p0, e, days, 1) == VisitDay(p0, e, days, 0);
    VisitDaysGrow(p0, e, days, |days|);
    assert ProjectWith(c, e, plan) == Walk(first.after, e, at, days);
  }

  /** The colours go round: thirteen consecutive days get different colours, and day `i + 13` gets day `i`'s. */
  lemma ColoursCycle(i: nat, j: nat)
    ensures Colour(i + |Palette|) == Colour(i)
    ensures i < j < i + |Palette| ==> Colour(i) != Colour(j)
  {
    assert (i + |Palette|) % |Palette| == i % |Palette|;
    if i < j < i + |Palette| {
      assert i % |Palette| != j % |Palette|;
    }
  }

  /** The lookups for one activity (app.py:339-346), against the geocoder `g`. */
  method ResolveActivity(g: Geocoder, e: Env, a: Activity) returns (found: Option<Coords>)
    requires g.Valid() && e.oracle == g.oracle
    modifies g
    ensures g.Valid()
    ensures var at := Resolve(old(g.State()), e, a);
      found == at.result && g.State() == at.after
  {
    found := g.Lookup(e.clean(RawLocation(a), e.destination));
    if found.None? {
      found := g.Lookup(AltQuery(a, e.destination));
    }
  }

  /** The anchor lookups (app.py:209-224), against the geocoder `g`. */
  method FindAnchor(g: Geocoder, destination: string, plan: Plan) returns (at: Option<Coords>)
    requires g.Valid()
    modifies g
    ensures g.Valid()
    ensures var anchor := Anchor(old(g.State()), g.oracle, destination, plan);
      at == anchor.result && g.State() == anchor.after
  {
    at := None;
    var first := AnchorQuery(plan);
    if first.Some? {
      at := g.Lookup(first.value);
    }
    if at.None? {
      at := g.Lookup(destination);
    }
  }

  /**
    The body of the activity loop (app.py:286-387): count the activity,
    look it up, then add a marker and its location, or record its raw
    location as failed.
   */
  method VisitActivity(g: Geocoder, e: Env, dayNumber: int, colour: string, a: Activity, t0: Tally)
    returns (t: Tally)
    requires g.Valid() && e.oracle == g.oracle
    modifies g
    ensures g.Valid()
    ensures Progress(t, g.State()) == Visit(Progress(t0, old(g.State())), e, dayNumber, colour, a)
  {
    var locationName := RawLocation(a);
    t := t0.(count := t0.count + 1);
    var found := ResolveActivity(g, e, a);
    if found.Some? {
      t := t.(locations := t.locations + [found.value], markersAdded := t.markersAdded + 1,
              markers := t.markers + [MarkerFor(a, found.value, dayNumber, colour)]);
    } else {
      t := t.(failed := t.failed + [locationName]);
    }
  }

  /** One day's activity loop (app.py:284-387), adding to the totals `t`. */
  method VisitActivities(g: Geocoder, e: Env, dayNumber: int, colour: string, acts: seq<Activity>, t0: Tally)
    returns (t: Tally)
    requires g.Valid() && e.oracle == g.oracle
    modifies g
    ensures g.Valid()
    ensures Progress(t, g.State()) == VisitAll(Progress(t0, old(g.State())), e, dayNumber, colour, acts, |acts|)
  {
    ghost var p0 := Progress(t0, g.State());
    t := t0;
    var k := 0;
    while k < |acts|
      invariant 0 <= k <= |acts| && g.Valid()
      invariant Progress(t, g.State()) == VisitAll(p0, e, dayNumber, colour, acts, k)
    {
      t := VisitActivity(g, e, dayNumber, colour, acts[k], t);
      k := k + 1;
    }
  }

  /** The day loop (app.py:275-387), from the totals `Start`. */
  method VisitAllDays(g: Geocoder, e: Env, days: seq<Day>) returns (t: Tally)
    requires g.Valid() && e.oracle == g.oracle
    modifies g
    ensures g.Valid()
    ensures Progress(t, g.State()) == VisitDays(Progress(Start, old(g.State())), e, days, |days|)
  {
    ghost var p0 := Progress(Start, g.State());
    t := Start;
    var i := 0;
    while i < |days|
      invariant 0 <= i <= |days| && g.Valid()
      invariant Progress(t, g.State()) == VisitDays(p0, e, days, i)
    {
      t := VisitActivities(g, e, DayNumber(days[i], i), Colour(i), Activities(days[i]), t);
      i := i + 1;
    }
  }

  /** `create_map_with_route` with normaliser `e.clean`, against the geocoder `g`. */
  method CreateMapWith(g: Geocoder, e: Env, plan: Plan) returns (r: Projection)
    requires g.Valid() && e.oracle == g.oracle
    modifies g
    ensures g.Valid()
    ensures (r, g.State()) == ProjectWith(old(g.State()), e, plan)
  {
    var at := FindAnchor(g, e.destination, plan);
    if at.None? {
      return NoAnchor;
    }
    if plan.days.None? {
      return Unbound(at.value);
    }
    var days := plan.days.value;
    var t := VisitAllDays(g, e, days);
    r := Drawn(at.value, t.markersAdded, Total(days), t.failed, t.locations, t.markers);
  }

  /** `create_map_with_route(destination, plan)` (app.py:206-397), against the geocoder `g`. */
  method CreateMap(g: Geocoder, destination: string, plan: Plan) returns (r: Projection)
    requires g.Valid()
    modifies g
    ensures g.Valid()
    ensures (r, g.State()) == Project(old(g.State()), g.oracle, destination, plan)
  {
    r := CreateMapWith(g, Env(g.oracle, Normalize, destination), plan);
  }
}
