/**
 * The facet state of the map page (`state`) and the handlers that change
 * it: the radius slider, the nearby and viewport switches, the category,
 * pool and district checkboxes, the all/none district buttons, the map's
 * `moveend`, locating the user (or the Taipei Main Station fallback), and
 * start-up (`init` with `buildFilters`). Every handler that calls
 * `applyFilters` leaves `filtered` equal to the filter of the new state.
 */
module Engine {
  import opened Wrappers
  import opened Records
  import opened Classifier
  import opened Filters

  /** `FALLBACK_TAIPEI_STATION`. */
  const FallbackStation := Point(25.0478, 121.517)

  /** The sub-labels of the categories in `configs`, which `buildFilters` has ticked so far. */
  function SubLabelsOf(configs: seq<Category>): set<string>
    decreases |configs|
  {
    if configs == [] then {} else SubLabelsOf(configs[..|configs| - 1]) + NamesOf(configs[|configs| - 1].sub)
  }

  /** Only the pool category has sub-labels. */
  lemma SubLabelsOfConfig()
    ensures SubLabelsOf(CategoryConfig) == SwimLabels()
  {
    var c := CategoryConfig;
    assert c[..1][..0] == [] && c[..1][0] == Gym;
    assert c[..2][..1] == c[..1] && c[..2][1] == Yoga;
    assert c[..3][..2] == c[..2] && c[..3][2] == Swim;
    assert c[..3] == c[..|c| - 1] && c[|c| - 1] == Other;
    assert NamesOf(Gym.sub) == {} && NamesOf(Yoga.sub) == {} && NamesOf(Other.sub) == {};
    assert SubLabelsOf(c[..1]) == {};
    assert SubLabelsOf(c[..2]) == {};
    assert SubLabelsOf(c[..3]) == NamesOf(Swim.sub);
  }

  lemma KeysOfSnoc(configs: seq<Category>, i: nat)
    requires i < |configs|
    ensures KeysOf(configs[..i + 1]) == KeysOf(configs[..i]) + {configs[i].key}
  {
    assert configs[..i + 1] == configs[..i] + [configs[i]];
  }

  lemma NamesOfSnoc(subs: seq<SubCategory>, j: nat)
    requires j < |subs|
    ensures NamesOf(subs[..j + 1]) == NamesOf(subs[..j]) + {subs[j].name}
  {
    assert subs[..j + 1] == subs[..j] + [subs[j]];
  }

  lemma SubLabelsOfSnoc(configs: seq<Category>, i: nat)
    requires i < |configs|
    ensures SubLabelsOf(configs[..i + 1]) == SubLabelsOf(configs[..i]) + NamesOf(configs[i].sub)
  {
    assert configs[..i + 1][..i] == configs[..i];
  }

  class FilterEngine {
    var data: seq<Venue>
    var filtered: seq<Venue>
    var userLocation: Option<Point>
    var radiusKm: real
    var onlyNearby: bool
    var onlyBounds: bool
    var activeCategories: set<string>
    var activeSwimSub: set<string>
    var activeDistricts: set<string>

    /** The nearby switch is never on while there is no location. */
    ghost predicate Valid()
      reads this
    {
      onlyNearby ==> userLocation.Some?
    }

    /** The state as the filter reads it. */
    function Facets(): Selection
      reads this
    {
      Selection(activeCategories, activeSwimSub, activeDistricts, userLocation, radiusKm, onlyNearby, onlyBounds)
    }

    /** The initial `state` object. */
    constructor ()
      ensures Valid()
      ensures data == [] && filtered == [] && userLocation == None && radiusKm == 2.0
      ensures !onlyNearby && !onlyBounds
      ensures activeCategories == {} && activeSwimSub == {} && activeDistricts == {}
    {
      data := [];
      filtered := [];
      userLocation := None;
      radiusKm := 2.0;
      onlyNearby := false;
      onlyBounds := false;
      activeCategories := {};
      activeSwimSub := {};
      activeDistricts := {};
    }

    /** `applyFilters`, with the map's distance and viewport passed in. */
    method ApplyFilters(env: Env)
      modifies this`filtered
      ensures filtered == FilterVenues(Facets(), env, data)
    {
      filtered := FilterVenues(Facets(), env, data);
    }

    /** The radius slider. */
    method SetRadius(km: real, env: Env)
      requires Valid()
      modifies this`radiusKm, this`filtered
      ensures Valid() && radiusKm == km
      ensures filtered == FilterVenues(Facets(), env, data)
    {
      radiusKm := km;
      ApplyFilters(env);
    }

    /**
     * The nearby switch. Turning it on without a location is refused: the
     * switch is set back off and nothing is filtered again. The result is
     * the switch's state afterwards.
     */
    method ToggleNearby(checked: bool, env: Env) returns (shown: bool)
      requires Valid()
      modifies this`onlyNearby, this`filtered
      ensures Valid() && shown == onlyNearby
      ensures checked && old(userLocation).None? ==> !onlyNearby && filtered == old(filtered)
      ensures !(checked && old(userLocation).None?) ==>
                onlyNearby == checked && filtered == FilterVenues(Facets(), env, data)
    {
      if checked && userLocation.None? {
        onlyNearby := false;
        shown := false;
        return;
      }
      onlyNearby := checked;
      ApplyFilters(env);
      shown := onlyNearby;
    }

    /** The "only what the map shows" switch. */
    method SetOnlyBounds(checked: bool, env: Env)
      requires Valid()
      modifies this`onlyBounds, this`filtered
      ensures Valid() && onlyBounds == checked
      ensures filtered == FilterVenues(Facets(), env, data)
    {
      onlyBounds := checked;
      ApplyFilters(env);
    }

    /** The "all districts" button: every district of the data is ticked. */
    method SelectAllDistricts(env: Env)
      requires Valid()
      modifies this`activeDistricts, this`filtered
      ensures Valid() && activeDistricts == DistrictSet(data)
      ensures filtered == FilterVenues(Facets(), env, data)
    {
      var districts := Districts(data);
      activeDistricts := set d | d in districts;
      ApplyFilters(env);
    }

    /** The "no district" button: nothing is shown. */
    method SelectNoDistricts(env: Env)
      requires Valid()
      modifies this`activeDistricts, this`filtered
      ensures Valid() && activeDistricts == {}
      ensures filtered == FilterVenues(Facets(), env, data) == []
    {
      activeDistricts := {};
      ApplyFilters(env);
      NoDistrictShowsNothing(Facets(), env, data);
    }

    /** A category checkbox. */
    method SetCategory(key: string, checked: bool, env: Env)
      requires Valid()
      modifies this`activeCategories, this`filtered
      ensures Valid()
      ensures activeCategories == if checked then old(activeCategories) + {key} else old(activeCategories) - {key}
      ensures filtered == FilterVenues(Facets(), env, data)
    {
      if checked {
        activeCategories := activeCategories + {key};
      } else {
        activeCategories := activeCategories - {key};
      }
      ApplyFilters(env);
    }

    /** A pool sub-label checkbox. */
    method SetSwimSub(name: string, checked: bool, env: Env)
      requires Valid()
      modifies this`activeSwimSub, this`filtered
      ensures Valid()
      ensures activeSwimSub == if checked then old(activeSwimSub) + {name} else old(activeSwimSub) - {name}
      ensures filtered == FilterVenues(Facets(), env, data)
    {
      if checked {
        activeSwimSub := activeSwimSub + {name};
      } else {
        activeSwimSub := activeSwimSub - {name};
      }
      ApplyFilters(env);
    }

    /** A district checkbox. */
    method SetDistrict(district: string, checked: bool, env: Env)
      requires Valid()
      modifies this`activeDistricts, this`filtered
      ensures Valid()
      ensures activeDistricts == if checked then old(activeDistricts) + {district} else old(activeDistricts) - {district}
      ensures filtered == FilterVenues(Facets(), env, data)
    {
      if checked {
        activeDistricts := activeDistricts + {district};
      } else {
        activeDistricts := activeDistricts - {district};
      }
      ApplyFilters(env);
    }

    /** The map's `moveend`: the list follows the viewport only while the viewport switch is on. */
    method MapMoved(env: Env)
      requires Valid()
      modifies this`filtered
      ensures Valid()
      ensures onlyBounds ==> filtered == FilterVenues(Facets(), env, data)
      ensures !onlyBounds ==> filtered == old(filtered)
    {
      if onlyBounds {
        ApplyFilters(env);
      }
    }

    /** `setUserLocation`, without the marker and the map view. */
    method SetUserLocation(at: Point, env: Env)
      requires Valid()
      modifies this`userLocation, this`filtered
      ensures Valid() && userLocation == Some(at)
      ensures filtered == FilterVenues(Facets(), env, data)
    {
      userLocation := Some(at);
      ApplyFilters(env);
    }

    /** The Taipei Main Station button. */
    method UseFallbackStation(env: Env)
      requires Valid()
      modifies this`userLocation, this`filtered
      ensures Valid() && userLocation == Some(FallbackStation)
      ensures filtered == FilterVenues(Facets(), env, data)
    {
      SetUserLocation(FallbackStation, env);
    }

    /**
     * The state changes of `buildFilters`: every category key and every
     * sub-label is added to the ticked sets, and the ticked districts
     * become exactly the districts of the data.
     */
    method BuildFilters()
      modifies this`activeCategories, this`activeSwimSub, this`activeDistricts
      ensures activeCategories == old(activeCategories) + CategoryKeys()
      ensures activeSwimSub == old(activeSwimSub) + SwimLabels()
      ensures activeDistricts == DistrictSet(data)
    {
      TickCategories(CategoryConfig);
      SubLabelsOfConfig();
      var districts := Districts(data);
      activeDistricts := set d | d in districts;
    }

    /** The `CATEGORY_CONFIG.forEach` of `buildFilters`: tick each key and each sub-label. */
    method TickCategories(configs: seq<Category>)
      modifies this`activeCategories, this`activeSwimSub
      ensures activeCategories == old(activeCategories) + KeysOf(configs)
      ensures activeSwimSub == old(activeSwimSub) + SubLabelsOf(configs)
    {
      var keys, labels := activeCategories, activeSwimSub;
      ghost var keys0, labels0 := keys, labels;
      for i := 0 to |configs|
        invariant keys == keys0 + KeysOf(configs[..i])
        invariant labels == labels0 + SubLabelsOf(configs[..i])
      {
        var category := configs[i];
        KeysOfSnoc(configs, i);
        keys := keys + {category.key};
        for j := 0 to |category.sub|
          invariant labels == labels0 + SubLabelsOf(configs[..i]) + NamesOf(category.sub[..j])
        {
          NamesOfSnoc(category.sub, j);
          labels := labels + {category.sub[j].name};
        }
        assert category.sub[..|category.sub|] == category.sub;
        SubLabelsOfSnoc(configs, i);
      }
      assert configs[..|configs|] == configs;
      activeCategories, activeSwimSub := keys, labels;
    }

    /**
     * `init` once the page is set up: load the records, then `Start`. On the
     * initial state everything loaded is shown.
     */
    method Init(text: string, parse: NumberParser, env: Env)
      requires Valid()
      modifies this`data, this`activeCategories, this`activeSwimSub, this`activeDistricts, this`filtered
      ensures Valid()
      ensures data == LoadRecords(Csv.Parse(text), parse)
      ensures activeCategories == old(activeCategories) + CategoryKeys()
      ensures activeSwimSub == old(activeSwimSub) + SwimLabels()
      ensures activeDistricts == DistrictSet(data)
      ensures filtered == FilterVenues(Facets(), env, data)
      ensures userLocation.None? && !onlyBounds ==> filtered == data
    {
      data := LoadData(text, parse);
      Start(env);
    }

    /** The part of `init` after `state.data` is set: `buildFilters`, then `applyFilters`. */
    method Start(env: Env)
      requires Valid()
      modifies this`activeCategories, this`activeSwimSub, this`activeDistricts, this`filtered
      ensures Valid()
      ensures activeCategories == old(activeCategories) + CategoryKeys()
      ensures activeSwimSub == old(activeSwimSub) + SwimLabels()
      ensures activeDistricts == DistrictSet(data)
      ensures filtered == FilterVenues(Facets(), env, data)
      ensures userLocation.None? && !onlyBounds ==> filtered == data
    {
      BuildFilters();
      ApplyFilters(env);
      if userLocation.None? && !onlyBounds {
        FullSelectionShowsAll(Facets(), env, data);
      }
    }
  }
}
