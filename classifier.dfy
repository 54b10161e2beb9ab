/**
 * The venue classifier: `CATEGORY_CONFIG`, the exact-membership,
 * first-match-wins lookup `resolveCategory`, and the chain of substring
 * tests `resolveSwimLabel` that picks the short label of a swimming pool.
 */
module Classifier {
  import opened Wrappers
  import opened Strings

  datatype SubCategory = SubCategory(key: string, name: string)

  /** A category (`label` in the source is `name` here); an empty `sub` is a category without a sub-filter. */
  datatype Category = Category(key: string, name: string, matches: seq<string>, sub: seq<SubCategory>)

  const Gym := Category("gym", "健身房", ["健身房"], [])
  const Yoga := Category("yoga", "瑜珈教室", ["瑜珈教室"], [])
  const Swim := Category("swim", "游泳池", ["游泳池", "室內游泳池", "室外游泳池", "室內外游泳池"],
    [SubCategory("pool", "游泳池"), SubCategory("pool-indoor", "室內游泳池"),
     SubCategory("pool-outdoor", "室外游泳池"), SubCategory("pool-both", "室內外游泳池")])
  const Other := Category("other", "撞球場及攀岩場", ["撞球場及攀岩場"], [])

  const CategoryConfig: seq<Category> := [Gym, Yoga, Swim, Other]

  /** The labels of some sub-categories. */
  function NamesOf(subs: seq<SubCategory>): set<string> {
    set s | s in subs :: s.name
  }

  /** The index of the first category whose match list holds `remark` (`Array.prototype.find`). */
  function FirstMatch(configs: seq<Category>, remark: string): (r: Option<nat>)
    ensures r.None? <==> forall j :: 0 <= j < |configs| ==> remark !in configs[j].matches
    ensures r.Some? ==>
              r.value < |configs| && remark in configs[r.value].matches
              && forall j :: 0 <= j < r.value ==> remark !in configs[j].matches
    decreases |configs|
  {
    if configs == [] then None
    else if remark in configs[0].matches then Some(0)
    else match FirstMatch(configs[1..], remark)
      case None => None
      case Some(i) => Some(i + 1)
  }

  /** `resolveCategory`: the first category listing the remark exactly, else the fourth entry. */
  function ResolveCategory(remark: string): (c: Category)
    ensures c in CategoryConfig
    ensures remark in c.matches || (c == Other && forall j :: 0 <= j < |CategoryConfig| ==> remark !in CategoryConfig[j].matches)
  {
    match FirstMatch(CategoryConfig, remark)
    case None => CategoryConfig[3]
    case Some(i) => CategoryConfig[i]
  }

  /** No remark is listed by two categories. */
  lemma MatchListsDisjoint(remark: string, i: nat, j: nat)
    requires i < j < |CategoryConfig|
    ensures !(remark in CategoryConfig[i].matches && remark in CategoryConfig[j].matches)
  {
  }

  /**
   * Since the lists are disjoint, the order of the lookup does not matter:
   * a remark listed by a category resolves to that category, and a remark
   * no list holds resolves to "other".
   */
  lemma ResolveCategoryExact(remark: string)
    ensures forall i :: 0 <= i < |CategoryConfig| && remark in CategoryConfig[i].matches ==>
              ResolveCategory(remark) == CategoryConfig[i]
    ensures (forall i :: 0 <= i < |CategoryConfig| ==> remark !in CategoryConfig[i].matches) ==>
              ResolveCategory(remark) == Other
  {
    forall i | 0 <= i < |CategoryConfig| && remark in CategoryConfig[i].matches
      ensures ResolveCategory(remark) == CategoryConfig[i]
    {
      var k := FirstMatch(CategoryConfig, remark).value;
      if k < i {
        MatchListsDisjoint(remark, k, i);
      }
    }
  }

  /** Each key belongs to exactly the remarks its category lists; everything else is "other". */
  lemma ResolveCategoryKeys(remark: string)
    ensures ResolveCategory(remark).key == "gym" <==> remark == "健身房"
    ensures ResolveCategory(remark).key == "yoga" <==> remark == "瑜珈教室"
    ensures ResolveCategory(remark).key == "swim" <==> remark in Swim.matches
    ensures ResolveCategory(remark).key == "other" <==>
              !(remark in Gym.matches || remark in Yoga.matches || remark in Swim.matches)
  {
    ResolveCategoryExact(remark);
    assert CategoryConfig[0] == Gym && CategoryConfig[1] == Yoga && CategoryConfig[2] == Swim;
  }

  /** The match is exact: two remarks that strictly contain a listed name, and are not listed, are "other". */
  lemma ResolveCategorySuperstrings()
    ensures ResolveCategory("健身房A") == Other
    ensures ResolveCategory("游泳池館") == Other
  {
    assert ResolveCategory("健身房A") == Other by {
      ResolveCategoryKeys("健身房A");
    }
    ResolveCategoryKeys("游泳池館");
  }

  /** A superstring that is itself listed does match: 室內游泳池 contains 游泳池 and is swim. */
  lemma ListedSuperstringMatches()
    ensures Contains("室內游泳池", "游泳池") && ResolveCategory("室內游泳池") == Swim
  {
    ContainsAt("室內游泳池", "游泳池", 2);
    assert Swim.matches[1] == "室內游泳池" && CategoryConfig[2] == Swim;
    ResolveCategoryExact("室內游泳池");
  }

  /**
   * `resolveSwimLabel`: `""` unless the remark contains 游泳池; 一般 for the
   * plain pool; otherwise the first of 室內外, 室內, 室外 the remark contains.
   */
  function ResolveSwimLabel(remark: string): (r: string)
    ensures r in {"", "一般", "室內外", "室內", "室外"}
    ensures r != "" ==> Contains(remark, "游泳池")
    ensures r == "一般" <==> remark == "游泳池"
    ensures r == "室內外" ==> Contains(remark, "室內外")
    ensures r == "室內" ==> Contains(remark, "室內") && !Contains(remark, "室內外")
    ensures r == "室外" ==> Contains(remark, "室外") && !Contains(remark, "室內")
    ensures Contains(remark, "游泳池") && remark != "游泳池" ==>
              && (r == "室內外" <==> Contains(remark, "室內外"))
              && (r == "室內" <==> Contains(remark, "室內") && !Contains(remark, "室內外"))
              && (r == "室外" <==> Contains(remark, "室外") && !Contains(remark, "室內"))
              && (r == "" <==> !Contains(remark, "室內") && !Contains(remark, "室外"))
  {
    BothContainsIndoor(remark);
    if !Contains(remark, "游泳池") then ""
    else if remark == "游泳池" then "一般"
    else if Contains(remark, "室內外") then "室內外"
    else if Contains(remark, "室內") then "室內"
    else if Contains(remark, "室外") then "室外"
    else ""
  }

  /** 室內 is a prefix of 室內外, so a remark with the second has the first. */
  lemma BothContainsIndoor(remark: string)
    ensures Contains(remark, "室內外") ==> Contains(remark, "室內")
  {
    if Contains(remark, "室內外") {
      ContainsPrefix(remark, "室內外", "室內");
    }
  }

  /** The label of each of the four pool remarks; 室內外 is tested before its prefix 室內. */
  lemma SwimLabelTable()
    ensures ResolveSwimLabel("游泳池") == "一般"
    ensures ResolveSwimLabel("室內游泳池") == "室內"
    ensures ResolveSwimLabel("室外游泳池") == "室外"
    ensures ResolveSwimLabel("室內外游泳池") == "室內外"
  {
    ContainsAt("游泳池", "游泳池", 0);
    IndoorPoolLabel();
    OutdoorPoolLabel();
    BothPoolLabel();
  }

  lemma IndoorPoolLabel()
    ensures ResolveSwimLabel("室內游泳池") == "室內"
  {
    ContainsAt("室內游泳池", "游泳池", 2);
    ContainsAt("室內游泳池", "室內", 0);
    if Contains("室內游泳池", "室內外") {
      ContainedCharsOccur("室內游泳池", "室內外", '外');
    }
  }

  lemma OutdoorPoolLabel()
    ensures ResolveSwimLabel("室外游泳池") == "室外"
  {
    ContainsAt("室外游泳池", "游泳池", 2);
    ContainsAt("室外游泳池", "室外", 0);
    if Contains("室外游泳池", "室內外") {
      ContainedCharsOccur("室外游泳池", "室內外", '內');
    }
    if Contains("室外游泳池", "室內") {
      ContainedCharsOccur("室外游泳池", "室內", '內');
    }
  }

  lemma BothPoolLabel()
    ensures ResolveSwimLabel("室內外游泳池") == "室內外"
  {
    ContainsAt("室內外游泳池", "游泳池", 3);
    ContainsAt("室內外游泳池", "室內外", 0);
  }

  /** Every remark the classifier files under swim has a pool label. */
  lemma SwimHasLabel(remark: string)
    requires ResolveCategory(remark) == Swim
    ensures ResolveSwimLabel(remark) != ""
  {
    assert remark in Swim.matches;
    SwimLabelTable();
  }

  /** The converse fails: a remark can carry a pool label and still be "other". */
  lemma LabelWithoutSwim()
    ensures ResolveSwimLabel("室內游泳池館") == "室內"
    ensures ResolveCategory("室內游泳池館") == Other
  {
    IndoorHallLabel();
    ResolveCategoryKeys("室內游泳池館");
  }

  lemma IndoorHallLabel()
    ensures ResolveSwimLabel("室內游泳池館") == "室內"
  {
    ContainsAt("室內游泳池館", "游泳池", 2);
    ContainsAt("室內游泳池館", "室內", 0);
    if Contains("室內游泳池館", "室內外") {
      ContainedCharsOccur("室內游泳池館", "室內外", '外');
    }
  }
}
