/**
 * The demo's catalogue search: a query is lower-cased and trimmed, and every catalogue entry
 * yields at most one result, found in its name, else its description, else a tag, else a
 * property.
 */
module Search {
  import opened Options
  import opened Text
  import opened ComponentData

  datatype MatchType = NameMatch | DescriptionMatch | TagMatch | PropertyMatch

  datatype SearchResult = SearchResult(component: ComponentDoc, matchType: MatchType, matchText: string)

  /** `query.toLowerCase().trim()`. */
  function Normalize(query: string): string {
    Trim(Lower(query))
  }

  /** Normalising a normalised query changes nothing. */
  lemma NormalizeIdempotent(query: string)
    ensures Normalize(Normalize(query)) == Normalize(query)
  {
    var l := Lower(query);
    LowerTrim(l);
    LowerIdempotent(query);
    TrimIdempotent(l);
  }

  /** `s.toLowerCase().includes(q)`. */
  predicate MatchesText(s: string, q: string) {
    Contains(Lower(s), q)
  }

  /** `contextLength`'s default. */
  const ContextLength := 50

  /** "..." where text was cut off, nothing otherwise. */
  function Ellipsis(cut: bool): string {
    if cut then "..." else ""
  }

  /**
   * The context of a match of length `n` at `i`: `text[max(0, i - 50), min(|text|, i + n + 50))`
   * with "..." before it exactly when it does not start at the beginning and "..." after it
   * exactly when it stops short of the end.
   */
  function ContextAround(text: string, i: nat, n: nat): (r: string)
    requires i + n <= |text|
  {
    var start := if i > ContextLength then i - ContextLength else 0;
    var end := if |text| < i + n + ContextLength then |text| else i + n + ContextLength;
    Ellipsis(start > 0) + text[start..end] + Ellipsis(end < |text|)
  }

  /**
   * `extractMatchContext`: the context of the first match in the lower-cased text; the first
   * 50 characters and "..." when there is no match.
   */
  function ExtractMatchContext(text: string, query: string): (r: string)
  {
    match IndexOf(Lower(text), query)
    case None => text[..if |text| < ContextLength then |text| else ContextLength] + "..."
    case Some(i) => ContextAround(text, i, |query|)
  }

  /**
   * The context of a match holds the matched text, with at most 50 characters of the text on
   * either side of it.
   */
  lemma ContextShowsMatch(text: string, i: nat, n: nat)
    requires i + n <= |text|
    ensures var r := ContextAround(text, i, n);
      var offset := if i > ContextLength then 3 + ContextLength else i;
      OccursAt(r, text[i..i + n], offset) &&
      |r| <= 3 + ContextLength + n + ContextLength + 3
  {
    var start := if i > ContextLength then i - ContextLength else 0;
    var end := if |text| < i + n + ContextLength then |text| else i + n + ContextLength;
    var r := ContextAround(text, i, n);
    var pre := Ellipsis(start > 0);
    var mid := text[start..end];
    assert r == pre + mid + Ellipsis(end < |text|);
    var offset := |pre| + (i - start);
    assert offset + n <= |pre| + |mid|;
    assert offset == if i > ContextLength then 3 + ContextLength else i;
    forall k | offset <= k < offset + n
      ensures r[k] == text[k - offset + i]
    {
      assert r[k] == (pre + mid)[k] == mid[k - |pre|];
    }
    var window, matched := r[offset..offset + n], text[i..i + n];
    assert |window| == n == |matched|;
    assert forall k :: 0 <= k < n ==> window[k] == r[offset + k] && matched[k] == text[i + k];
    assert window == matched;
  }

  /** Where the query does not occur, the context is the first 50 characters and "...". */
  lemma ExtractMatchContextNoMatch(text: string, query: string)
    requires !Contains(Lower(text), query)
    ensures var r := ExtractMatchContext(text, query);
      |r| <= ContextLength + 3 && r[|r| - 3..] == "..." && r[..|r| - 3] <= text
  {
    IndexOfContains(Lower(text), query);
  }

  /** The first tag that matches the query. */
  function FirstTag(tags: seq<string>, q: string): (r: Option<string>)
    ensures r.Some? ==> r.value in tags && MatchesText(r.value, q)
    ensures r.None? <==> forall t :: t in tags ==> !MatchesText(t, q)
  {
    if tags == [] then None
    else if MatchesText(tags[0], q) then Some(tags[0])
    else FirstTag(tags[1..], q)
  }

  predicate PropertyMatches(p: ComponentProperty, q: string) {
    MatchesText(p.name, q) || MatchesText(p.description, q)
  }

  /** The first property whose name or description matches the query. */
  function FirstProperty(props: seq<ComponentProperty>, q: string): (r: Option<ComponentProperty>)
    ensures r.Some? ==> r.value in props && PropertyMatches(r.value, q)
    ensures r.None? <==> forall p :: p in props ==> !PropertyMatches(p, q)
  {
    if props == [] then None
    else if PropertyMatches(props[0], q) then Some(props[0])
    else FirstProperty(props[1..], q)
  }

  /** `search`'s loop body: what one component contributes to the results for the normalised query `q`. */
  function ResultFor(c: ComponentDoc, q: string): Option<SearchResult> {
    if MatchesText(c.name, q) then Some(SearchResult(c, NameMatch, c.name))
    else if MatchesText(c.description, q) then
      Some(SearchResult(c, DescriptionMatch, ExtractMatchContext(c.description, q)))
    else
      match FirstTag(c.tags, q)
      case Some(t) => Some(SearchResult(c, TagMatch, t))
      case None =>
        match FirstProperty(c.properties, q)
        case Some(p) => Some(SearchResult(c, PropertyMatch, p.name))
        case None => None
  }

  /**
   * The match type follows the priority name, description, tag, property; the component
   * really matches in the field its match type names; and a component that matches nowhere
   * gives no result.
   */
  lemma ResultForMeaning(c: ComponentDoc, q: string)
    ensures var r := ResultFor(c, q);
      var inTag := exists t :: t in c.tags && MatchesText(t, q);
      var inProperty := exists p :: p in c.properties && PropertyMatches(p, q);
      (r.Some? ==> r.value.component == c) &&
      (r.Some? && r.value.matchType == NameMatch <==> MatchesText(c.name, q)) &&
      (r.Some? && r.value.matchType == DescriptionMatch <==>
        !MatchesText(c.name, q) && MatchesText(c.description, q)) &&
      (r.Some? && r.value.matchType == TagMatch <==>
        !MatchesText(c.name, q) && !MatchesText(c.description, q) && inTag) &&
      (r.Some? && r.value.matchType == PropertyMatch <==>
        !MatchesText(c.name, q) && !MatchesText(c.description, q) && !inTag && inProperty) &&
      (r.None? <==>
        !MatchesText(c.name, q) && !MatchesText(c.description, q) && !inTag && !inProperty)
  {
    if FirstTag(c.tags, q).Some? {
      assert FirstTag(c.tags, q).value in c.tags;
    }
    if FirstProperty(c.properties, q).Some? {
      assert FirstProperty(c.properties, q).value in c.properties;
    }
  }

  /** A tag match shows the first matching tag; a property match shows the first matching property's name. */
  lemma ResultForMatchText(c: ComponentDoc, q: string)
    ensures var r := ResultFor(c, q);
      (r.Some? && r.value.matchType == NameMatch ==> r.value.matchText == c.name) &&
      (r.Some? && r.value.matchType == DescriptionMatch ==>
        r.value.matchText == ExtractMatchContext(c.description, q)) &&
      (r.Some? && r.value.matchType == TagMatch ==>
        exists i :: 0 <= i < |c.tags| && r.value.matchText == c.tags[i] && MatchesText(c.tags[i], q) &&
          forall j :: 0 <= j < i ==> !MatchesText(c.tags[j], q)) &&
      (r.Some? && r.value.matchType == PropertyMatch ==>
        exists i :: 0 <= i < |c.properties| && r.value.matchText == c.properties[i].name &&
          PropertyMatches(c.properties[i], q) && forall j :: 0 <= j < i ==> !PropertyMatches(c.properties[j], q))
  {
    var r := ResultFor(c, q);
    if r.Some? && r.value.matchType == TagMatch {
      FirstTagIsFirst(c.tags, q);
    }
    if r.Some? && r.value.matchType == PropertyMatch {
      FirstPropertyIsFirst(c.properties, q);
    }
  }

  lemma {:induction false} FirstTagIsFirst(tags: seq<string>, q: string)
    requires FirstTag(tags, q).Some?
    ensures exists i :: (0 <= i < |tags| && FirstTag(tags, q).value == tags[i] &&
      forall j :: 0 <= j < i ==> !MatchesText(tags[j], q))
  {
    if !MatchesText(tags[0], q) {
      FirstTagIsFirst(tags[1..], q);
      var i :| 0 <= i < |tags| - 1 && FirstTag(tags[1..], q).value == tags[1..][i] &&
        forall j :: 0 <= j < i ==> !MatchesText(tags[1..][j], q);
      assert FirstTag(tags, q).value == tags[i + 1];
      assert forall j :: 0 < j < i + 1 ==> tags[j] == tags[1..][j - 1];
    } else {
      assert FirstTag(tags, q).value == tags[0];
    }
  }

  lemma {:induction false} FirstPropertyIsFirst(props: seq<ComponentProperty>, q: string)
    requires FirstProperty(props, q).Some?
    ensures exists i :: (0 <= i < |props| && FirstProperty(props, q).value == props[i] &&
      forall j :: 0 <= j < i ==> !PropertyMatches(props[j], q))
  {
    if !PropertyMatches(props[0], q) {
      FirstPropertyIsFirst(props[1..], q);
      var i :| 0 <= i < |props| - 1 && FirstProperty(props[1..], q).value == props[1..][i] &&
        forall j :: 0 <= j < i ==> !PropertyMatches(props[1..][j], q);
      assert FirstProperty(props, q).value == props[i + 1];
      assert forall j :: 0 < j < i + 1 ==> props[j] == props[1..][j - 1];
    } else {
      assert FirstProperty(props, q).value == props[0];
    }
  }

  /** The results of the components in catalogue order. */
  function Collect(cs: seq<ComponentDoc>, q: string): (rs: seq<SearchResult>)
    ensures |rs| <= |cs|
    ensures forall r :: r in rs ==> r.component in cs && ResultFor(r.component, q) == Some(r)
  {
    if cs == [] then []
    else
      assert forall c :: c in cs[..|cs| - 1] ==> c in cs;
      Collect(cs[..|cs| - 1], q) + Listed(cs[|cs| - 1], q)
  }

  /** What `results.push` adds for one component: its result, if any. */
  function Listed(c: ComponentDoc, q: string): seq<SearchResult> {
    match ResultFor(c, q)
    case Some(r) => [r]
    case None => []
  }

  /** One more component of the catalogue adds its own result at the end. */
  lemma CollectStep(cs: seq<ComponentDoc>, i: nat, q: string)
    requires i < |cs|
    ensures Collect(cs[..i + 1], q) == Collect(cs[..i], q) + Listed(cs[i], q)
  {
    assert cs[..i + 1][..i] == cs[..i];
  }

  /** Results follow catalogue order: a catalogue's parts give their results in turn. */
  lemma {:induction false} CollectAppend(a: seq<ComponentDoc>, b: seq<ComponentDoc>, q: string)
    ensures Collect(a + b, q) == Collect(a, q) + Collect(b, q)
    decreases |b|
  {
    if b == [] {
      assert a + b == a;
    } else {
      var b' := b[..|b| - 1];
      assert (a + b)[..|a + b| - 1] == a + b';
      assert (a + b)[|a + b| - 1] == b[|b| - 1];
      CollectAppend(a, b', q);
    }
  }

  /** A component of the catalogue appears among the results exactly when it matches somewhere. */
  lemma {:induction false} CollectFinds(cs: seq<ComponentDoc>, q: string, c: ComponentDoc)
    requires c in cs
    ensures (exists r :: r in Collect(cs, q) && r.component == c) <==> ResultFor(c, q).Some?
  {
    if ResultFor(c, q).Some? {
      var i :| 0 <= i < |cs| && cs[i] == c;
      assert cs == cs[..i] + [c] + cs[i + 1..];
      CollectAppend(cs[..i] + [c], cs[i + 1..], q);
      CollectAppend(cs[..i], [c], q);
      assert [c][..0] == [];
      assert Collect([c], q) == Listed(c, q) == [ResultFor(c, q).value];
      assert ResultFor(c, q).value in Collect(cs, q);
    }
  }

  /** `search`: no results for a blank query, otherwise the collected results. */
  function SearchResults(cs: seq<ComponentDoc>, query: string): (rs: seq<SearchResult>)
    ensures Normalize(query) == "" ==> rs == []
  {
    var q := Normalize(query);
    if q == "" then [] else Collect(cs, q)
  }

  /** Searching for the stored (normalised) query finds what searching for the typed query finds. */
  lemma SearchNormalizedQuery(cs: seq<ComponentDoc>, query: string)
    ensures SearchResults(cs, Normalize(query)) == SearchResults(cs, query)
  {
    NormalizeIdempotent(query);
  }

  /** The search service: the catalogue it searches and the current query. */
  class SearchService {
    const catalogue: seq<ComponentDoc>
    var searchQuery: string

    constructor (catalogue: seq<ComponentDoc>)
      ensures this.catalogue == catalogue && searchQuery == ""
    {
      this.catalogue := catalogue;
      searchQuery := "";
    }

    /** `setSearchQuery`: the query is stored lower-cased and trimmed. */
    method SetSearchQuery(query: string)
      modifies this`searchQuery
      ensures searchQuery == Normalize(query)
    {
      searchQuery := Trim(Lower(query));
    }

    /** `search`: the catalogue is walked once, pushing each component's result. */
    method Search(query: string) returns (results: seq<SearchResult>)
      ensures results == SearchResults(catalogue, query)
    {
      var normalizedQuery := Trim(Lower(query));
      if normalizedQuery == "" {
        return [];
      }
      results := [];
      var i := 0;
      while i < |catalogue|
        invariant 0 <= i <= |catalogue|
        invariant results == Collect(catalogue[..i], normalizedQuery)
      {
        var found := ResultFor(catalogue[i], normalizedQuery);
        if found.Some? {
          results := results + [found.value];
        }
        CollectStep(catalogue, i, normalizedQuery);
        i := i + 1;
      }
      assert catalogue[..i] == catalogue;
    }

    /** `searchComponents`: the stored query when there is one, else the given query. */
    method SearchComponents(query: string) returns (results: seq<SearchResult>)
      ensures searchQuery != "" ==> results == SearchResults(catalogue, searchQuery)
      ensures searchQuery == "" ==> results == SearchResults(catalogue, query)
    {
      results := Search(if searchQuery != "" then searchQuery else query);
    }
  }
}
