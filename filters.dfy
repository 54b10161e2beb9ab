/**
 * The filter predicate of `applyFilters` over the venue records, the
 * selection it reads, and `getDistricts`, the sorted list of distinct
 * districts the district checkboxes are built from.
 */
module Filters {
  import opened Wrappers
  import opened Strings
  import opened Seqs
  import opened Records
  import opened Classifier

  datatype Point = Point(lat: real, lng: real)

  /** The part of the facet state `applyFilters` reads. */
  datatype Selection = Selection(
    categories: set<string>, swimSub: set<string>, districts: set<string>,
    userLocation: Option<Point>, radiusKm: real, onlyNearby: bool, onlyBounds: bool)

  /**
   * What the map supplies: `haversine` from the user to a venue, in
   * kilometres, and whether a position lies in the current viewport.
   */
  datatype Env = Env(distanceKm: (Point, Point) -> real, inView: Point -> bool)

  /** The venue's coordinates as the arithmetic sees them: `null` counts as 0. */
  function Position(v: Venue): Point {
    Point(v.lat.GetOr(0.0), v.lng.GetOr(0.0))
  }

  /**
   * The callback of `state.data.filter` in `applyFilters`: category, then
   * the pool sub-filter on the exact remark (only while some sub-label is
   * ticked), then district, then distance (only with a location and the
   * nearby switch on; a venue exactly at the radius stays), then viewport.
   */
  predicate Matches(sel: Selection, env: Env, v: Venue) {
    var category := ResolveCategory(v.remark).key;
    && category in sel.categories
    && (category == "swim" && sel.swimSub != {} ==> v.remark in sel.swimSub)
    && v.district in sel.districts
    && (sel.onlyNearby && sel.userLocation.Some? ==>
          env.distanceKm(sel.userLocation.value, Position(v)) <= sel.radiusKm)
    && (sel.onlyBounds ==> env.inView(Position(v)))
  }

  /** `state.filtered` after `applyFilters`: the matching venues, in data order. */
  function FilterVenues(sel: Selection, env: Env, data: seq<Venue>): (r: seq<Venue>)
    ensures |r| <= |data|
    ensures forall v :: v in r <==> v in data && Matches(sel, env, v)
    ensures IsSubsequence(r, data)
  {
    Keep(data, v => Matches(sel, env, v))
  }

  /** Filtering the filtered list again changes nothing. */
  lemma FilterIdempotent(sel: Selection, env: Env, data: seq<Venue>)
    ensures FilterVenues(sel, env, FilterVenues(sel, env, data)) == FilterVenues(sel, env, data)
  {
    KeepIdempotent(data, v => Matches(sel, env, v));
  }

  /**
   * `a` lets through no more than `b`: fewer categories and districts, a
   * tighter pool sub-filter, a smaller radius around the same location, and
   * no switch that `b` has on and `a` off.
   */
  predicate Narrower(a: Selection, b: Selection) {
    && a.categories <= b.categories
    && a.districts <= b.districts
    && (b.swimSub == {} || (a.swimSub != {} && a.swimSub <= b.swimSub))
    && a.userLocation == b.userLocation && a.radiusKm <= b.radiusKm
    && (b.onlyNearby ==> a.onlyNearby)
    && (b.onlyBounds ==> a.onlyBounds)
  }

  lemma NarrowerMatches(a: Selection, b: Selection, env: Env, v: Venue)
    requires Narrower(a, b) && Matches(a, env, v)
    ensures Matches(b, env, v)
  {
  }

  /**
   * Monotonicity: a narrower selection yields a subsequence of what the
   * wider one yields, and filtering that output gives the same list.
   */
  lemma FilterMonotone(a: Selection, b: Selection, env: Env, data: seq<Venue>)
    requires Narrower(a, b)
    ensures FilterVenues(a, env, data) == FilterVenues(a, env, FilterVenues(b, env, data))
    ensures IsSubsequence(FilterVenues(a, env, data), FilterVenues(b, env, data))
  {
    forall v | v in data && Matches(a, env, v)
      ensures Matches(b, env, v)
    {
      NarrowerMatches(a, b, env, v);
    }
    KeepNarrowing(data, v => Matches(a, env, v), v => Matches(b, env, v));
  }

  /** Ticking one more district keeps everything shown and adds only venues of that district. */
  lemma AddDistrictWidens(sel: Selection, env: Env, data: seq<Venue>, d: string)
    ensures var wider := sel.(districts := sel.districts + {d});
            && IsSubsequence(FilterVenues(sel, env, data), FilterVenues(wider, env, data))
            && forall v :: v in FilterVenues(wider, env, data) ==>
                 v in FilterVenues(sel, env, data) || v.district == d
  {
    FilterMonotone(sel, sel.(districts := sel.districts + {d}), env, data);
  }

  /** Unticking a category removes exactly the venues of that category. */
  lemma RemoveCategory(sel: Selection, env: Env, data: seq<Venue>, key: string)
    ensures var narrower := sel.(categories := sel.categories - {key});
            forall v :: v in FilterVenues(narrower, env, data) <==>
              v in FilterVenues(sel, env, data) && ResolveCategory(v.remark).key != key
  {
  }

  /** Without a location the nearby switch and the radius have no effect. */
  lemma NoLocationIgnoresProximity(sel: Selection, env: Env, data: seq<Venue>, radiusKm: real, onlyNearby: bool)
    requires sel.userLocation.None?
    ensures FilterVenues(sel, env, data) == FilterVenues(sel.(radiusKm := radiusKm, onlyNearby := onlyNearby), env, data)
  {
    var other := sel.(radiusKm := radiusKm, onlyNearby := onlyNearby);
    KeepCongruent(data, v => Matches(sel, env, v), v => Matches(other, env, v));
  }

  /** The pool sub-labels. */
  function SwimLabels(): set<string> {
    NamesOf(Swim.sub)
  }

  /** The pool sub-labels are exactly the remarks filed under swim. */
  lemma SwimLabelsAreSwim(remark: string)
    ensures remark in SwimLabels() <==> ResolveCategory(remark) == Swim
  {
    ResolveCategoryKeys(remark);
    assert Swim.matches == [Swim.sub[0].name, Swim.sub[1].name, Swim.sub[2].name, Swim.sub[3].name];
  }

  /**
   * The sub-filter is skipped when no sub-label is ticked, and ticking all
   * four is the same: the four labels are exactly the remarks that are swim.
   */
  lemma EmptySwimSubIsAll(sel: Selection, env: Env, data: seq<Venue>)
    requires sel.swimSub == {}
    ensures FilterVenues(sel, env, data) == FilterVenues(sel.(swimSub := SwimLabels()), env, data)
  {
    var all := sel.(swimSub := SwimLabels());
    forall v | v in data
      ensures Matches(sel, env, v) == Matches(all, env, v)
    {
      SwimLabelsAreSwim(v.remark);
      ResolveCategoryKeys(v.remark);
      if ResolveCategory(v.remark).key == "swim" {
        assert ResolveCategory(v.remark) == Swim;
      }
    }
    KeepCongruent(data, v => Matches(sel, env, v), v => Matches(all, env, v));
  }

  /** The category keys of some categories, such as those `buildFilters` has ticked so far. */
  function KeysOf(configs: seq<Category>): set<string> {
    set c | c in configs :: c.key
  }

  /** The keys of all categories, which `buildFilters` ticks. */
  function CategoryKeys(): set<string> {
    KeysOf(CategoryConfig)
  }

  /** Whatever the remark, its category's key is among them. */
  lemma CategoryKeysCover(remark: string)
    ensures ResolveCategory(remark).key in CategoryKeys()
  {
  }

  /** The districts of the data as a set. */
  function DistrictSet(data: seq<Venue>): (r: set<string>)
    ensures forall v :: v in data ==> v.district in r
  {
    set v | v in data :: v.district
  }

  /**
   * The selection `buildFilters` leaves when no control was used while
   * the data loaded: every category, every pool label and every district
   * ticked, no location, radius 2, both switches off. The handlers are
   * registered before the data loads, so a user may already have moved
   * the slider, ticked the viewport switch or set a location by then.
   */
  function InitialSelection(data: seq<Venue>): Selection {
    Selection(CategoryKeys(), SwimLabels(), DistrictSet(data), None, 2.0, false, false)
  }

  /**
   * With every category, every pool label and every district of the data
   * ticked, and neither the distance nor the viewport test in force, the
   * whole data set is shown.
   */
  lemma FullSelectionShowsAll(sel: Selection, env: Env, data: seq<Venue>)
    requires CategoryKeys() <= sel.categories && SwimLabels() <= sel.swimSub && DistrictSet(data) <= sel.districts
    requires !sel.onlyNearby || sel.userLocation.None?
    requires !sel.onlyBounds
    ensures FilterVenues(sel, env, data) == data
  {
    forall v | v in data
      ensures Matches(sel, env, v)
    {
      CategoryKeysCover(v.remark);
      if ResolveCategory(v.remark).key == "swim" {
        ResolveCategoryKeys(v.remark);
        SwimLabelsAreSwim(v.remark);
        assert ResolveCategory(v.remark) == Swim;
      }
    }
    KeepAll(data, v => Matches(sel, env, v));
  }

  /** When no control was used while the data loaded, the whole data set is shown. */
  lemma InitialShowsAll(data: seq<Venue>, env: Env)
    ensures FilterVenues(InitialSelection(data), env, data) == data
  {
    FullSelectionShowsAll(InitialSelection(data), env, data);
  }

  /** With no district ticked nothing is shown. */
  lemma NoDistrictShowsNothing(sel: Selection, env: Env, data: seq<Venue>)
    requires sel.districts == {}
    ensures FilterVenues(sel, env, data) == []
  {
    KeepNone(data, v => Matches(sel, env, v));
  }

  /** Strictly increasing in the order of `Array.prototype.sort`, hence without repetitions. */
  predicate StrictlySorted(s: seq<string>) {
    forall i, j :: 0 <= i < j < |s| ==> Less(s[i], s[j])
  }

  /** `x` put in its place in a strictly sorted list, unless it is there already. */
  function Insert(s: seq<string>, x: string): (r: seq<string>)
    requires StrictlySorted(s)
    ensures StrictlySorted(r)
    ensures forall y :: y in r <==> y in s || y == x
    decreases |s|
  {
    if s == [] then [x]
    else if x == s[0] then s
    else if Less(x, s[0]) then
      assert forall j :: 0 < j < |s| ==> Less(x, s[j]) by {
        forall j | 0 < j < |s| ensures Less(x, s[j]) {
          LessTransitive(x, s[0], s[j]);
        }
      }
      [x] + s
    else
      LessTotal(x, s[0]);
      var t := Insert(s[1..], x);
      assert forall y :: y in t ==> Less(s[0], y) by {
        forall y | y in t ensures Less(s[0], y) {
          if y != x {
            var j :| 0 <= j < |s[1..]| && s[1..][j] == y;
            assert s[j + 1] == y;
          }
        }
      }
      assert forall i, j :: 0 <= i < j < |[s[0]] + t| ==> Less(([s[0]] + t)[i], ([s[0]] + t)[j]) by {
        forall i, j | 0 <= i < j < |[s[0]] + t|
          ensures Less(([s[0]] + t)[i], ([s[0]] + t)[j])
        {
          if i > 0 {
            assert ([s[0]] + t)[i] == t[i - 1] && ([s[0]] + t)[j] == t[j - 1];
          } else {
            assert ([s[0]] + t)[j] == t[j - 1] && t[j - 1] in t;
          }
        }
      }
      [s[0]] + t
  }

  /**
   * `getDistricts`: `Array.from(new Set(districts)).sort()` — the distinct
   * districts of the data, in sorted order.
   */
  function Districts(data: seq<Venue>): (r: seq<string>)
    ensures StrictlySorted(r)
    ensures forall d :: d in r <==> d in DistrictSet(data)
    decreases |data|
  {
    if data == [] then []
    else
      var prefix := data[..|data| - 1];
      assert forall v :: v in data <==> v in prefix || v == data[|data| - 1];
      Insert(Districts(prefix), data[|data| - 1].district)
  }

  lemma SameElementsEmpty(a: seq<string>, b: seq<string>)
    requires forall x :: x in a <==> x in b
    ensures a == [] <==> b == []
  {
    if a != [] {
      assert a[0] in b;
    }
    if b != [] {
      assert b[0] in a;
    }
  }

  /** A strictly sorted list is determined by its elements, so the district list does not depend on the data order. */
  lemma {:induction false} SortedUnique(a: seq<string>, b: seq<string>)
    requires StrictlySorted(a) && StrictlySorted(b)
    requires forall x :: x in a <==> x in b
    ensures a == b
    decreases |a|
  {
    SameElementsEmpty(a, b);
    if a != [] {
      assert a[0] in b && b[0] in a;
      if a[0] != b[0] {
        var k :| 0 <= k < |b| && b[k] == a[0];
        var m :| 0 <= m < |a| && a[m] == b[0];
        LessTransitive(a[0], b[0], a[0]);
        LessIrreflexive(a[0]);
      }
      forall x
        ensures x in a[1..] <==> x in b[1..]
      {
        if x in a[1..] {
          var i :| 0 <= i < |a[1..]| && a[1..][i] == x;
          assert Less(a[0], a[i + 1]);
          LessIrreflexive(a[0]);
          assert x in b;
        }
        if x in b[1..] {
          var i :| 0 <= i < |b[1..]| && b[1..][i] == x;
          assert Less(b[0], b[i + 1]);
          LessIrreflexive(b[0]);
          assert x in a;
        }
      }
      SortedUnique(a[1..], b[1..]);
      assert a == [a[0]] + a[1..] && b == [b[0]] + b[1..];
    }
  }

  /** The district list changes only with the set of districts, not with their order or repetitions. */
  lemma DistrictsBySet(data: seq<Venue>, other: seq<Venue>)
    requires DistrictSet(data) == DistrictSet(other)
    ensures Districts(data) == Districts(other)
  {
    SortedUnique(Districts(data), Districts(other));
  }
}
