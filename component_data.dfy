/**
 * The demo's component catalogue: look-ups by id and by category, and the list of recently
 * viewed components, most recent first, kept in browser storage.
 */
module ComponentData {
  import opened Options

  datatype Category = Inputs | Buttons | Pickers | Navigation | Feedback | Layout | DataDisplay

  /** A documented input, event or method of a component. */
  datatype ComponentProperty = ComponentProperty(name: string, propertyType: string, description: string)

  /** A catalogue entry. */
  datatype ComponentDoc = ComponentDoc(
    id: string,
    name: string,
    category: Category,
    description: string,
    selector: string,
    tags: seq<string>,
    properties: seq<ComponentProperty>)

  datatype CategoryInfo = CategoryInfo(id: Category, name: string, description: string, icon: string)

  /** The fixed category table. */
  function Categories(): (cs: seq<CategoryInfo>)
    ensures |cs| == 7
  {
    [ CategoryInfo(Inputs, "Inputs", "Form input components for data entry", "edit"),
      CategoryInfo(Buttons, "Buttons", "Interactive button components", "touch_app"),
      CategoryInfo(Pickers, "Pickers", "Date, time, and selection pickers", "calendar_today"),
      CategoryInfo(Navigation, "Navigation", "Navigation and routing components", "menu"),
      CategoryInfo(Feedback, "Feedback", "Alerts, notifications, and user feedback", "notifications"),
      CategoryInfo(Layout, "Layout", "Container and layout components", "dashboard"),
      CategoryInfo(DataDisplay, "Data Display", "Components for displaying data", "view_list") ]
  }

  /** `find(comp => comp.id === id)`: the first entry with that id. */
  function FindById(cs: seq<ComponentDoc>, id: string): (r: Option<ComponentDoc>)
    ensures r.Some? ==> r.value in cs && r.value.id == id
    ensures r.None? <==> forall c :: c in cs ==> c.id != id
  {
    if cs == [] then None
    else if cs[0].id == id then Some(cs[0])
    else FindById(cs[1..], id)
  }

  /** The entry `FindById` returns is the first one with that id. */
  lemma {:induction false} FindByIdFirst(cs: seq<ComponentDoc>, id: string, i: nat)
    requires i < |cs| && cs[i].id == id
    requires forall j :: 0 <= j < i ==> cs[j].id != id
    ensures FindById(cs, id) == Some(cs[i])
  {
    if i > 0 {
      FindByIdFirst(cs[1..], id, i - 1);
    }
  }

  /** `filter(comp => comp.category === category)`. */
  function ByCategory(cs: seq<ComponentDoc>, category: Category): (r: seq<ComponentDoc>)
    ensures forall c :: c in r <==> c in cs && c.category == category
    ensures |r| <= |cs|
  {
    if cs == [] then []
    else if cs[0].category == category then [cs[0]] + ByCategory(cs[1..], category)
    else ByCategory(cs[1..], category)
  }

  /** Filtering keeps catalogue order: the entries of a catalogue's parts come in their order. */
  lemma {:induction false} ByCategoryAppend(a: seq<ComponentDoc>, b: seq<ComponentDoc>, category: Category)
    ensures ByCategory(a + b, category) == ByCategory(a, category) + ByCategory(b, category)
  {
    if a == [] {
      assert a + b == b;
    } else {
      var ab := a + b;
      assert ab != [] && ab[0] == a[0] && ab[1..] == a[1..] + b;
      ByCategoryAppend(a[1..], b, category);
      var head: seq<ComponentDoc> := if a[0].category == category then [a[0]] else [];
      assert ByCategory(ab, category) == head + ByCategory(a[1..] + b, category);
      assert ByCategory(a, category) == head + ByCategory(a[1..], category);
    }
  }

  /** The categories are a partition: every entry is listed under exactly its own category. */
  lemma {:induction false} ByCategoryCounts(cs: seq<ComponentDoc>)
    ensures |ByCategory(cs, Inputs)| + |ByCategory(cs, Buttons)| + |ByCategory(cs, Pickers)| +
      |ByCategory(cs, Navigation)| + |ByCategory(cs, Feedback)| + |ByCategory(cs, Layout)| +
      |ByCategory(cs, DataDisplay)| == |cs|
  {
    if cs != [] {
      ByCategoryCounts(cs[1..]);
    }
  }

  /** `getCategoryInfo`: the first table row with that id. */
  function CategoryInfoOf(category: Category): (r: Option<CategoryInfo>)
    ensures r.Some? ==> r.value in Categories() && r.value.id == category
  {
    FindCategory(Categories(), category)
  }

  function FindCategory(rows: seq<CategoryInfo>, category: Category): (r: Option<CategoryInfo>)
    ensures r.Some? ==> r.value in rows && r.value.id == category
    ensures r.None? <==> forall row :: row in rows ==> row.id != category
  {
    if rows == [] then None
    else if rows[0].id == category then Some(rows[0])
    else FindCategory(rows[1..], category)
  }

  /** Every category has a row in the table. */
  lemma CategoryInfoTotal(category: Category)
    ensures CategoryInfoOf(category).Some?
  {
    var rows := Categories();
    match category
    case Inputs => assert rows[0].id == category;
    case Buttons => assert rows[1].id == category;
    case Pickers => assert rows[2].id == category;
    case Navigation => assert rows[3].id == category;
    case Feedback => assert rows[4].id == category;
    case Layout => assert rows[5].id == category;
    case DataDisplay => assert rows[6].id == category;
  }

  /** `getRecentlyViewed`: the ids looked up in order, unknown ones dropped. */
  function RecentlyViewed(cs: seq<ComponentDoc>, ids: seq<string>): (r: seq<ComponentDoc>)
    ensures |r| <= |ids|
    ensures forall c :: c in r ==> c in cs && c.id in ids
  {
    if ids == [] then []
    else
      match FindById(cs, ids[0])
      case None => RecentlyViewed(cs, ids[1..])
      case Some(c) => [c] + RecentlyViewed(cs, ids[1..])
  }

  lemma {:induction false} RecentlyViewedAppend(cs: seq<ComponentDoc>, a: seq<string>, b: seq<string>)
    ensures RecentlyViewed(cs, a + b) == RecentlyViewed(cs, a) + RecentlyViewed(cs, b)
  {
    if a == [] {
      assert a + b == b;
    } else {
      assert (a + b)[0] == a[0] && (a + b)[1..] == a[1..] + b;
      RecentlyViewedAppend(cs, a[1..], b);
    }
  }

  /**
   * Only unknown ids are dropped: when every id is in the catalogue, the i-th entry returned
   * is the one with the i-th id.
   */
  lemma {:induction false} RecentlyViewedAllKnown(cs: seq<ComponentDoc>, ids: seq<string>)
    requires forall id :: id in ids ==> FindById(cs, id).Some?
    ensures var r := RecentlyViewed(cs, ids);
      |r| == |ids| && forall i :: 0 <= i < |ids| ==> r[i].id == ids[i]
  {
    if ids != [] {
      assert ids[0] in ids;
      assert forall id :: id in ids[1..] ==> id in ids;
      RecentlyViewedAllKnown(cs, ids[1..]);
    }
  }

  /** `filter(id => id !== componentId)`. */
  function WithoutId(ids: seq<string>, id: string): (r: seq<string>)
    ensures forall x :: x in r <==> x in ids && x != id
    ensures |r| <= |ids|
    ensures id !in ids ==> r == ids
  {
    if ids == [] then []
    else if ids[0] == id then WithoutId(ids[1..], id)
    else [ids[0]] + WithoutId(ids[1..], id)
  }

  /** `MAX_RECENT`. */
  const MaxRecent := 10

  /** No id occurs twice. */
  predicate Distinct(ids: seq<string>) {
    forall i, j :: 0 <= i < j < |ids| ==> ids[i] != ids[j]
  }

  /**
   * `addToRecentlyViewed`: the id moves to the front, the others follow in their old order, and the
   * list is cut to `MaxRecent` entries.
   */
  function AddRecent(ids: seq<string>, id: string): (r: seq<string>)
    ensures |r| <= MaxRecent && |r| >= 1 && r[0] == id
    ensures id !in r[1..]
    ensures r[1..] <= WithoutId(ids, id)
    ensures |r| == if 1 + |WithoutId(ids, id)| > MaxRecent then MaxRecent else 1 + |WithoutId(ids, id)|
  {
    var moved := [id] + WithoutId(ids, id);
    if |moved| > MaxRecent then moved[..MaxRecent] else moved
  }

  lemma {:induction false} WithoutIdDistinct(ids: seq<string>, id: string)
    requires Distinct(ids)
    ensures Distinct(WithoutId(ids, id))
  {
    if ids != [] {
      assert Distinct(ids[1..]);
      WithoutIdDistinct(ids[1..], id);
      if ids[0] != id {
        var w := WithoutId(ids[1..], id);
        assert ids[0] !in ids[1..];
        var r := [ids[0]] + w;
        forall i, j | 0 <= i < j < |r|
          ensures r[i] != r[j]
        {
          assert r[j] == w[j - 1] && r[j] in w;
          if i > 0 {
            assert r[i] == w[i - 1];
          }
        }
      }
    }
  }

  /** Adding keeps the list free of repeats. */
  lemma AddRecentDistinct(ids: seq<string>, id: string)
    requires Distinct(ids)
    ensures Distinct(AddRecent(ids, id))
  {
    WithoutIdDistinct(ids, id);
    var r := AddRecent(ids, id);
    forall i, j | 0 <= i < j < |r|
      ensures r[i] != r[j]
    {
      if i == 0 {
        assert r[j] in r[1..];
      } else {
        assert r[i] == r[1..][i - 1] && r[j] == r[1..][j - 1];
        assert r[1..] == WithoutId(ids, id)[..|r| - 1];
      }
    }
  }

  /** Viewing the most recent entry again leaves a list of at most `MaxRecent` distinct ids unchanged. */
  lemma AddRecentHeadUnchanged(ids: seq<string>)
    requires 1 <= |ids| <= MaxRecent && Distinct(ids)
    ensures AddRecent(ids, ids[0]) == ids
  {
    var id := ids[0];
    assert id !in ids[1..];
    assert WithoutId(ids, id) == WithoutId(ids[1..], id) == ids[1..];
    assert [id] + ids[1..] == ids;
  }

  /** Viewing an id that is already listed only moves it to the front when nothing is cut. */
  lemma AddRecentIsPermutation(ids: seq<string>, id: string)
    requires id in ids && |ids| <= MaxRecent && Distinct(ids)
    ensures multiset(AddRecent(ids, id)) == multiset(ids)
  {
    WithoutIdOnce(ids, id);
    assert |[id] + WithoutId(ids, id)| == |ids|;
  }

  lemma {:induction false} WithoutIdOnce(ids: seq<string>, id: string)
    requires id in ids && Distinct(ids)
    ensures multiset([id] + WithoutId(ids, id)) == multiset(ids)
  {
    if ids[0] == id {
      assert id !in ids[1..];
      assert ids == [id] + ids[1..];
    } else {
      assert id in ids[1..];
      WithoutIdOnce(ids[1..], id);
      assert ids == [ids[0]] + ids[1..];
    }
  }

  /**
   * The catalogue service. `recentStore` is the browser-storage entry of recently viewed ids,
   * None while nothing was stored.
   */
  class ComponentDataService {
    const components: seq<ComponentDoc>
    var recentStore: Option<seq<string>>

    constructor (components: seq<ComponentDoc>, recentStore: Option<seq<string>>)
      ensures this.components == components && this.recentStore == recentStore
    {
      this.components := components;
      this.recentStore := recentStore;
    }

    /** `getRecentlyViewedIds`: the stored list, or none. */
    function RecentIds(): (ids: seq<string>)
      reads this`recentStore
      ensures recentStore.None? ==> ids == []
      ensures recentStore.Some? ==> ids == recentStore.value
    {
      recentStore.GetOr([])
    }

    /** `getComponentById`. */
    function GetComponentById(id: string): (r: Option<ComponentDoc>)
      ensures r.Some? ==> r.value in components && r.value.id == id
      ensures r.None? <==> forall c :: c in components ==> c.id != id
    {
      FindById(components, id)
    }

    /** `getComponentsByCategory`. */
    function GetComponentsByCategory(category: Category): (r: seq<ComponentDoc>)
      ensures forall c :: c in r <==> c in components && c.category == category
    {
      ByCategory(components, category)
    }

    /** `getRecentlyViewed`. */
    function GetRecentlyViewed(): (r: seq<ComponentDoc>)
      reads this`recentStore
      ensures forall c :: c in r ==> c in components && c.id in RecentIds()
    {
      RecentlyViewed(components, RecentIds())
    }

    /** `addToRecentlyViewed`: read the stored list, filter, unshift, slice, store. */
    method AddToRecentlyViewed(componentId: string)
      modifies this`recentStore
      ensures recentStore == Some(AddRecent(old(RecentIds()), componentId))
    {
      var recent := RecentIds();
      recent := WithoutId(recent, componentId);
      recent := [componentId] + recent;
      if |recent| > MaxRecent {
        recent := recent[..MaxRecent];
      }
      recentStore := Some(recent);
    }
  }
}
