/** Automatic assignment: two index-aligned bulk lookups, filters and a stable sort, proved to pick
    the first rider of least distance among those who qualify. */
module AutoAssign {
  import opened Prelude

  datatype Rider = Rider(id: string, bikes: seq<string>)     // bikes of active assignments
  datatype Live = Live(batteryV: Option<real>, lat: real, lng: real)
  datatype Candidate = Candidate(rider: string, bike: string, distance: real, battery: real)

  /** The cache, JSON parsing of cached states, and the distance of a position to the pickup. */
  datatype World = World(cache: map<string, string>, parse: string -> Option<Live>, distance: (real, real) -> real)

  function OnlineKey(r: Rider): string {
    "rider:online:" + r.id
  }

  function LiveKey(fleet: string, bike: string): string {
    "live:fleet:" + fleet + ":bike:" + bike
  }

  function Fetch(w: World, key: string): Option<string> {
    if key in w.cache then Some(w.cache[key]) else None
  }

  /** Bulk lookup: one answer per key, in order. */
  function MGet(w: World, keys: seq<string>): (r: seq<Option<string>>)
    ensures |r| == |keys| && forall i :: 0 <= i < |keys| ==> r[i] == Fetch(w, keys[i])
  {
    seq(|keys|, i requires 0 <= i < |keys| => Fetch(w, keys[i]))
  }

  /** A missing or zero reading counts as a full battery. */
  function Battery(l: Live): real {
    if l.batteryV.None? || l.batteryV.value == 0.0 then 48.0 else l.batteryV.value
  }

  /** The usable live state of a bike, if its cache entry is present, non-empty and parses. */
  function LiveOf(w: World, fleet: string, bike: string): Option<Live> {
    var raw := Fetch(w, LiveKey(fleet, bike));
    if raw.None? || raw.value == "" then None else w.parse(raw.value)
  }

  // ----- the specification

  predicate Online(w: World, r: Rider) {
    Fetch(w, OnlineKey(r)) == Some("ONLINE") && |r.bikes| > 0
  }

  predicate Qualifies(w: World, fleet: string, r: Rider) {
    && Online(w, r)
    && LiveOf(w, fleet, r.bikes[0]).Some?
    && Battery(LiveOf(w, fleet, r.bikes[0]).value) >= 42.0
  }

  function Distance(w: World, fleet: string, r: Rider): real
    requires Qualifies(w, fleet, r)
  {
    var l := LiveOf(w, fleet, r.bikes[0]).value;
    w.distance(l.lat, l.lng)
  }

  /** The first rider of least distance among those who qualify. */
  ghost predicate Nearest(w: World, fleet: string, riders: seq<Rider>, i: nat) {
    && i < |riders| && Qualifies(w, fleet, riders[i])
    && forall j :: 0 <= j < |riders| && Qualifies(w, fleet, riders[j]) ==>
         && Distance(w, fleet, riders[i]) <= Distance(w, fleet, riders[j])
         && (j < i ==> Distance(w, fleet, riders[i]) < Distance(w, fleet, riders[j]))
  }

  // ----- stable sorting

  ghost predicate Before(cs: seq<Candidate>, i: nat, j: nat)
    requires i < |cs| && j < |cs|
  {
    cs[i].distance < cs[j].distance || (cs[i].distance == cs[j].distance && i < j)
  }

  /** `sorted` lists the elements of `cs` in the order of the permutation `p`: by distance, and in
      original order where distances are equal. */
  ghost predicate StableSort(cs: seq<Candidate>, sorted: seq<Candidate>, p: seq<nat>) {
    && |sorted| == |cs| == |p|
    && (forall k :: 0 <= k < |p| ==> p[k] < |cs| && sorted[k] == cs[p[k]])
    && (forall i :: 0 <= i < |cs| ==> i in p)
    && (forall k, l :: 0 <= k < l < |p| ==> Before(cs, p[k], p[l]))
  }

  /** Whatever stable sort is used, its first element is the first one of least distance. */
  lemma SortedHeadIsFirstLeast(cs: seq<Candidate>, sorted: seq<Candidate>, p: seq<nat>)
    requires StableSort(cs, sorted, p) && |cs| > 0
    ensures sorted[0] == cs[p[0]]
    ensures forall j :: 0 <= j < |cs| ==> cs[p[0]].distance <= cs[j].distance && (j < p[0] ==> cs[p[0]].distance < cs[j].distance)
  {
    forall j | 0 <= j < |cs|
      ensures cs[p[0]].distance <= cs[j].distance && (j < p[0] ==> cs[p[0]].distance < cs[j].distance)
    {
      assert j in p;
      var k :| 0 <= k < |p| && p[k] == j;
      if k > 0 { assert Before(cs, p[0], p[k]); }
    }
  }

  function InsertIndex(cs: seq<Candidate>, p: seq<nat>, i: nat): seq<nat>
    requires i < |cs| && forall k :: 0 <= k < |p| ==> p[k] < |cs|
  {
    if |p| == 0 then [i]
    else if cs[i].distance < cs[p[0]].distance then [i] + p
    else [p[0]] + InsertIndex(cs, p[1..], i)
  }

  ghost predicate Ordered(cs: seq<Candidate>, p: seq<nat>) {
    && (forall k :: 0 <= k < |p| ==> p[k] < |cs|)
    && (forall k, l :: 0 <= k < l < |p| ==> Before(cs, p[k], p[l]))
  }

  lemma {:induction false} InsertOrdered(cs: seq<Candidate>, p: seq<nat>, i: nat)
    requires Ordered(cs, p) && i < |cs| && forall k :: 0 <= k < |p| ==> p[k] < i
    ensures var q := InsertIndex(cs, p, i);
      Ordered(cs, q) && |q| == |p| + 1 && i in q && (forall j: nat :: j in q ==> j == i || j in p) && (forall j: nat :: j in p ==> j in q)
  {
    if |p| > 0 && !(cs[i].distance < cs[p[0]].distance) {
      var q := InsertIndex(cs, p[1..], i);
      InsertOrdered(cs, p[1..], i);
      assert p == [p[0]] + p[1..];
      forall k | 0 <= k < |q| ensures Before(cs, p[0], q[k]) {
        assert q[k] in q;
        if q[k] in p[1..] {
          var l :| 0 <= l < |p[1..]| && p[1..][l] == q[k];
          assert Before(cs, p[0], p[l + 1]);
        }
      }
    }
  }

  /** Insertion sort of the first `n` indices. */
  function SortIndices(cs: seq<Candidate>, n: nat): (p: seq<nat>)
    requires n <= |cs|
    ensures forall k :: 0 <= k < |p| ==> p[k] < n
  {
    if n == 0 then []
    else
      var p := SortIndices(cs, n - 1);
      InsertBelow(cs, p, n - 1);
      InsertIndex(cs, p, n - 1)
  }

  lemma {:induction false} InsertBelow(cs: seq<Candidate>, p: seq<nat>, i: nat)
    requires i < |cs| && forall k :: 0 <= k < |p| ==> p[k] < i
    ensures forall k :: 0 <= k < |InsertIndex(cs, p, i)| ==> InsertIndex(cs, p, i)[k] <= i
  {
    if |p| > 0 { InsertBelow(cs, p[1..], i); }
  }

  lemma {:induction false} SortIndicesOrdered(cs: seq<Candidate>, n: nat)
    requires n <= |cs|
    ensures Ordered(cs, SortIndices(cs, n)) && |SortIndices(cs, n)| == n
    ensures forall i: nat :: i < n ==> i in SortIndices(cs, n)
  {
    if n > 0 {
      var p := SortIndices(cs, n - 1);
      SortIndicesOrdered(cs, n - 1);
      InsertOrdered(cs, p, n - 1);
      assert SortIndices(cs, n) == InsertIndex(cs, p, n - 1);
      forall i: nat | i < n ensures i in SortIndices(cs, n) {
        assert i == n - 1 || i in p;
      }
    }
  }

  /** The sort the service relies on: by ascending distance, stable. */
  function Sorted(cs: seq<Candidate>): (sorted: seq<Candidate>)
    ensures |sorted| == |cs|
    ensures StableSort(cs, sorted, SortIndices(cs, |cs|))
  {
    var p := SortIndices(cs, |cs|);
    SortIndicesOrdered(cs, |cs|);
    seq(|p|, k requires 0 <= k < |p| => cs[p[k]])
  }

  // ----- the pipeline

  function CandidateOf(w: World, fleet: string, r: Rider): Candidate
    requires Qualifies(w, fleet, r)
  {
    Candidate(r.id, r.bikes[0], Distance(w, fleet, r), Battery(LiveOf(w, fleet, r.bikes[0]).value))
  }

  function OnlineRiders(w: World, riders: seq<Rider>): (r: seq<Rider>)
    ensures forall i :: 0 <= i < |r| ==> Online(w, r[i])
  {
    if |riders| == 0 then []
    else
      var front := OnlineRiders(w, riders[..|riders| - 1]);
      if Online(w, riders[|riders| - 1]) then front + [riders[|riders| - 1]] else front
  }

  /** The candidates of a list of riders, in order, each with the index of its rider. */
  ghost function Indices(w: World, fleet: string, riders: seq<Rider>): (r: seq<nat>)
    ensures forall k :: 0 <= k < |r| ==> r[k] < |riders| && Qualifies(w, fleet, riders[r[k]])
    ensures forall k, l :: 0 <= k < l < |r| ==> r[k] < r[l]
    ensures forall i :: 0 <= i < |riders| && Qualifies(w, fleet, riders[i]) ==> i in r
  {
    if |riders| == 0 then []
    else
      var front := Indices(w, fleet, riders[..|riders| - 1]);
      if Qualifies(w, fleet, riders[|riders| - 1]) then front + [|riders| - 1] else front
  }

  function CandidatesOf(w: World, fleet: string, riders: seq<Rider>): seq<Candidate> {
    if |riders| == 0 then []
    else
      var front := CandidatesOf(w, fleet, riders[..|riders| - 1]);
      if Qualifies(w, fleet, riders[|riders| - 1]) then front + [CandidateOf(w, fleet, riders[|riders| - 1])] else front
  }

  lemma {:induction false} FilteringTwiceIsFilteringOnce(w: World, fleet: string, riders: seq<Rider>)
    ensures CandidatesOf(w, fleet, OnlineRiders(w, riders)) == CandidatesOf(w, fleet, riders)
  {
    if |riders| > 0 {
      var init, last := riders[..|riders| - 1], riders[|riders| - 1];
      FilteringTwiceIsFilteringOnce(w, fleet, init);
      if Online(w, last) {
        assert OnlineRiders(w, riders)[..|OnlineRiders(w, riders)| - 1] == OnlineRiders(w, init);
      }
    }
  }

  lemma {:induction false} CandidatesMatch(w: World, fleet: string, riders: seq<Rider>)
    ensures var cs, at := CandidatesOf(w, fleet, riders), Indices(w, fleet, riders);
      |cs| == |at| && forall k :: 0 <= k < |cs| ==> cs[k] == CandidateOf(w, fleet, riders[at[k]])
  {
    if |riders| > 0 {
      CandidatesMatch(w, fleet, riders[..|riders| - 1]);
    }
  }

  /** The head of any stable sort of the candidates belongs to the first nearest qualifying rider. */
  lemma HeadIsNearest(w: World, fleet: string, riders: seq<Rider>, sorted: seq<Candidate>, p: seq<nat>) returns (i: nat)
    requires StableSort(CandidatesOf(w, fleet, riders), sorted, p) && |sorted| > 0
    ensures Nearest(w, fleet, riders, i) && sorted[0].rider == riders[i].id
  {
    var cs, at := CandidatesOf(w, fleet, riders), Indices(w, fleet, riders);
    CandidatesMatch(w, fleet, riders);
    SortedHeadIsFirstLeast(cs, sorted, p);
    i := at[p[0]];
    forall j | 0 <= j < |riders| && Qualifies(w, fleet, riders[j])
      ensures Distance(w, fleet, riders[i]) <= Distance(w, fleet, riders[j])
      ensures j < i ==> Distance(w, fleet, riders[i]) < Distance(w, fleet, riders[j])
    {
      var k :| 0 <= k < |at| && at[k] == j;
      assert cs[k] == CandidateOf(w, fleet, riders[j]);
      assert j < i ==> k < p[0];
    }
  }

  /** Picks the rider for a delivery, or fails: exactly when nobody qualifies. */
  method PickRider(w: World, fleet: string, riders: seq<Rider>) returns (best: Option<string>)
    ensures best.None? <==> forall i :: 0 <= i < |riders| ==> !Qualifies(w, fleet, riders[i])
    ensures best.Some? ==> exists i: nat :: Nearest(w, fleet, riders, i) && best.value == riders[i].id
  {
    if |riders| == 0 { return None; }
    var statuses := MGet(w, seq(|riders|, i requires 0 <= i < |riders| => OnlineKey(riders[i])));
    var online: seq<Rider> := [];
    var i := 0;
    while i < |riders|
      invariant i <= |riders| && online == OnlineRiders(w, riders[..i])
    {
      assert riders[..i + 1][..i] == riders[..i];
      if statuses[i] == Some("ONLINE") && |riders[i].bikes| > 0 {
        online := online + [riders[i]];
      }
      i := i + 1;
    }
    assert riders[..i] == riders;
    FilteringTwiceIsFilteringOnce(w, fleet, riders);
    var candidates := CollectCandidates(w, fleet, online);
    CandidatesMatch(w, fleet, riders);
    if |candidates| == 0 {
      assert Indices(w, fleet, riders) == [];
      return None;
    }
    var sorted := Sorted(candidates);
    ghost var at := HeadIsNearest(w, fleet, riders, sorted, SortIndices(candidates, |candidates|));
    best := Some(sorted[0].rider);
  }

  method CollectCandidates(w: World, fleet: string, online: seq<Rider>) returns (candidates: seq<Candidate>)
    requires forall i :: 0 <= i < |online| ==> Online(w, online[i])
    ensures candidates == CandidatesOf(w, fleet, online)
  {
    candidates := [];
    var cached := MGet(w, seq(|online|, i requires 0 <= i < |online| => LiveKey(fleet, online[i].bikes[0])));
    var i := 0;
    while i < |online|
      invariant i <= |online| && candidates == CandidatesOf(w, fleet, online[..i])
    {
      assert online[..i + 1][..i] == online[..i];
      var rider, value := online[i], cached[i];
      i := i + 1;
      if value.None? || value.value == "" { continue; }
      var state := w.parse(value.value);
      if state.None? { continue; }
      var battery := if state.value.batteryV.None? || state.value.batteryV.value == 0.0 then 48.0 else state.value.batteryV.value;
      if battery < 42.0 { continue; }
      candidates := candidates + [Candidate(rider.id, rider.bikes[0], w.distance(state.value.lat, state.value.lng), battery)];
    }
    assert online[..i] == online;
  }

  /** There is only one such rider. */
  lemma NearestIsUnique(w: World, fleet: string, riders: seq<Rider>, i: nat, j: nat)
    requires Nearest(w, fleet, riders, i) && Nearest(w, fleet, riders, j)
    ensures i == j
  {
  }

  /** Who qualifies, spelled out: online in the cache, with an active bike whose cached state is there, not
      empty and parses, and whose battery reads at least 42 volts or gives no reading. */
  lemma QualifiesIff(w: World, fleet: string, r: Rider)
    ensures Qualifies(w, fleet, r) <==>
      var online := "rider:online:" + r.id;
      && online in w.cache && w.cache[online] == "ONLINE" && |r.bikes| > 0
      && var live := "live:fleet:" + fleet + ":bike:" + r.bikes[0];
         && live in w.cache && w.cache[live] != "" && w.parse(w.cache[live]).Some?
         && var state := w.parse(w.cache[live]).value;
            state.batteryV.None? || state.batteryV.value == 0.0 || state.batteryV.value >= 42.0
    ensures Qualifies(w, fleet, r) ==>
      var state := w.parse(w.cache["live:fleet:" + fleet + ":bike:" + r.bikes[0]]).value;
      Distance(w, fleet, r) == w.distance(state.lat, state.lng)
  {
  }
}
