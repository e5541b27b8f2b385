/**
 * The attribute filter dialog: the selection editor (a record from trait type to the
 * list of selected values), its selected-value count, the search over attribute values,
 * the backdrop colour lookup and the model preview image path.
 */
module AttributeFilter {
  import opened Optional
  import opened Text

  /** Trait type to the selected values of that trait, in selection order. */
  type Selection = map<string, seq<string>>

  /** `selectedAttributes[traitType]?.includes(value) || false`. */
  predicate IsSelected(sel: Selection, traitType: string, value: string) {
    traitType in sel && value in sel[traitType]
  }

  /** The selections the editor produces never hold a trait with an empty list. */
  predicate NoEmptyLists(sel: Selection) {
    forall t | t in sel :: sel[t] != []
  }

  /** `list.filter(v => v !== value)`. */
  function RemoveAll(list: seq<string>, value: string): (r: seq<string>)
    ensures value !in r
    ensures forall x :: x in r <==> x in list && x != value
    ensures multiset(r) == multiset(list)[value := 0]
  {
    if list == [] then []
    else
      assert list == [list[0]] + list[1..];
      if list[0] == value then RemoveAll(list[1..], value)
      else [list[0]] + RemoveAll(list[1..], value)
  }

  /** The filter shortens the list by the number of copies of the value. */
  lemma RemoveAllLength(list: seq<string>, value: string)
    ensures |RemoveAll(list, value)| == |list| - multiset(list)[value]
  {
    var r := RemoveAll(list, value);
    assert |multiset(r)| == |r| && |multiset(list)| == |list|;
    assert multiset(list) == multiset(r) + multiset{}[value := multiset(list)[value]];
  }

  /** The filter keeps the order: it works piece by piece over a concatenation. */
  lemma {:induction false} RemoveAllConcat(a: seq<string>, b: seq<string>, value: string)
    ensures RemoveAll(a + b, value) == RemoveAll(a, value) + RemoveAll(b, value)
  {
    if a == [] {
      assert a + b == b;
    } else {
      assert (a + b)[1..] == a[1..] + b;
      RemoveAllConcat(a[1..], b, value);
    }
  }

  lemma {:induction false} RemoveAllAbsent(list: seq<string>, value: string)
    requires value !in list
    ensures RemoveAll(list, value) == list
  {
    if list != [] {
      RemoveAllAbsent(list[1..], value);
    }
  }

  /** The selection after toggling `value` of `traitType`. */
  function Toggled(sel: Selection, traitType: string, value: string): Selection {
    var list := if traitType in sel then sel[traitType] else [];
    if value in list then
      var kept := RemoveAll(list, value);
      if kept == [] then sel - {traitType} else sel[traitType := kept]
    else sel[traitType := list + [value]]
  }

  /**
   * `toggleAttribute`: copy the record, create the trait's list when absent, then either
   * drop every occurrence of the value (deleting the key if the list empties) or append it.
   */
  method ToggleAttribute(prev: Selection, traitType: string, value: string) returns (next: Selection)
    ensures next == Toggled(prev, traitType, value)
    ensures IsSelected(next, traitType, value) <==> !IsSelected(prev, traitType, value)
    ensures forall t | t != traitType :: (t in next <==> t in prev) && (t in prev ==> next[t] == prev[t])
    ensures !IsSelected(prev, traitType, value) ==>
      traitType in next && next[traitType] == (if traitType in prev then prev[traitType] else []) + [value]
    ensures IsSelected(prev, traitType, value) ==>
      && (traitType in next ==> next[traitType] == RemoveAll(prev[traitType], value))
      && (traitType !in next <==> RemoveAll(prev[traitType], value) == [])
    ensures traitType in next ==> next[traitType] != []
    ensures NoEmptyLists(prev) ==> NoEmptyLists(next)
  {
    next := prev;
    if traitType !in next {
      next := next[traitType := []];
    }
    if value in next[traitType] {
      next := next[traitType := RemoveAll(next[traitType], value)];
      if |next[traitType]| == 0 {
        next := next - {traitType};
      }
    } else {
      next := next[traitType := next[traitType] + [value]];
    }
  }

  /** Deselecting a value held once, at the end of its trait's list, takes it back off. */
  lemma DeselectAppended(sel: Selection, traitType: string, value: string, list: seq<string>)
    requires traitType in sel && sel[traitType] == list + [value] && value !in list
    ensures Toggled(sel, traitType, value) == if list == [] then sel - {traitType} else sel[traitType := list]
  {
    RemoveAllAppendValue(list, value);
    RemoveAllAbsent(list, value);
    assert value in sel[traitType];
  }

  /** Selecting an unselected value appends it to its trait's list, created if absent. */
  lemma SelectAppends(sel: Selection, traitType: string, value: string)
    requires !IsSelected(sel, traitType, value)
    ensures Toggled(sel, traitType, value)
            == sel[traitType := (if traitType in sel then sel[traitType] else []) + [value]]
  {
  }

  /** Toggling an unselected value twice gives back exactly the original selection. */
  lemma ToggleTwiceRestores(sel: Selection, traitType: string, value: string)
    requires NoEmptyLists(sel) && !IsSelected(sel, traitType, value)
    ensures Toggled(Toggled(sel, traitType, value), traitType, value) == sel
  {
    var list := if traitType in sel then sel[traitType] else [];
    var once := sel[traitType := list + [value]];
    SelectAppends(sel, traitType, value);
    DeselectAppended(once, traitType, value, list);
    if traitType in sel {
      assert sel[traitType := list] == sel;
    } else {
      assert once - {traitType} == sel;
    }
  }

  lemma {:induction false} RemoveAllAppendValue(list: seq<string>, value: string)
    ensures RemoveAll(list + [value], value) == RemoveAll(list, value)
  {
    if list == [] {
      assert RemoveAll([value], value) == RemoveAll([], value);
    } else {
      assert (list + [value])[1..] == list[1..] + [value];
      RemoveAllAppendValue(list[1..], value);
    }
  }

  // ---------------------------------------------------------------------------
  // totalSelectedFilters

  /** `Object.values(sel).reduce((total, values) => total + values.length, 0)`: the sum of all list lengths. */
  ghost function TotalSelected(sel: Selection): nat
    decreases |sel|
  {
    if sel == map[] then 0
    else
      var t :| t in sel;
      |sel[t]| + TotalSelected(sel - {t})
  }

  /** The sum does not depend on which trait is counted first. */
  lemma {:induction false} TotalSelectedRemove(sel: Selection, traitType: string)
    requires traitType in sel
    ensures TotalSelected(sel) == |sel[traitType]| + TotalSelected(sel - {traitType})
    decreases |sel|
  {
    var t :| t in sel && TotalSelected(sel) == |sel[t]| + TotalSelected(sel - {t});
    if t != traitType {
      TotalSelectedRemove(sel - {t}, traitType);
      TotalSelectedRemove(sel - {traitType}, t);
      assert sel - {t} - {traitType} == sel - {traitType} - {t};
    }
  }

  /** Setting a trait's list counts that list instead of the trait's old one. */
  lemma TotalAfterUpdate(sel: Selection, traitType: string, list: seq<string>)
    ensures TotalSelected(sel[traitType := list]) == |list| + TotalSelected(sel - {traitType})
  {
    var next := sel[traitType := list];
    TotalSelectedRemove(next, traitType);
    assert next - {traitType} == sel - {traitType};
  }

  /** Selecting a value adds one to the count; deselecting it removes all its copies from the count. */
  lemma TotalAfterToggle(sel: Selection, traitType: string, value: string)
    ensures TotalSelected(Toggled(sel, traitType, value))
            == if IsSelected(sel, traitType, value)
               then TotalSelected(sel) - multiset(sel[traitType])[value]
               else TotalSelected(sel) + 1
  {
    var list := if traitType in sel then sel[traitType] else [];
    if traitType in sel {
      TotalSelectedRemove(sel, traitType);
    } else {
      assert sel - {traitType} == sel;
    }
    assert TotalSelected(sel) == |list| + TotalSelected(sel - {traitType});
    if value in list {
      var kept := RemoveAll(list, value);
      RemoveAllLength(list, value);
      if kept != [] {
        TotalAfterUpdate(sel, traitType, kept);
      }
    } else {
      TotalAfterUpdate(sel, traitType, list + [value]);
    }
  }

  lemma EmptySelectionCountsZero()
    ensures TotalSelected(map[]) == 0
  {
  }

  // ---------------------------------------------------------------------------
  // filterAttributesByQuery and filteredAttributes

  /**
   * What the search returns for one trait. `isTraitMatch` is absent (`undefined` in the
   * source) when the query is empty.
   */
  datatype TraitView<V> = TraitView(traitType: string, values: map<string, V>, hasMatches: bool, isTraitMatch: Option<bool>)

  /** The value (or trait) name contains the query, ignoring ASCII letter case. */
  predicate MatchesQuery(name: string, query: string) {
    Contains(LowerStr(name), LowerStr(query))
  }

  /**
   * An empty query keeps everything and matches; otherwise the values whose name contains
   * the query (case-insensitively) are kept, and the trait matches when one does or its own
   * name does.
   */
  function FilterAttributesByQuery<V>(traitType: string, values: map<string, V>, query: string): (view: TraitView<V>)
    ensures view.traitType == traitType
    ensures query == "" ==> view.values == values && view.hasMatches
    ensures query != "" ==> forall v :: v in view.values <==> v in values && MatchesQuery(v, query)
    ensures forall v | v in view.values :: v in values && view.values[v] == values[v]
    ensures query != "" ==> (view.hasMatches <==> view.values != map[] || MatchesQuery(traitType, query))
    ensures query != "" ==> view.isTraitMatch == Some(MatchesQuery(traitType, query))
  {
    if query == "" then TraitView(traitType, values, true, None)
    else
      var matching := map v | v in values && MatchesQuery(v, query) :: values[v];
      var traitMatch := MatchesQuery(traitType, query);
      TraitView(traitType, matching, |matching| > 0 || traitMatch, Some(traitMatch))
  }

  /** Typing more of a query only narrows the values kept. */
  lemma LongerQueryNarrows<V>(traitType: string, values: map<string, V>, query: string, longer: string)
    requires Contains(longer, query)
    ensures FilterAttributesByQuery(traitType, values, longer).values.Keys
            <= FilterAttributesByQuery(traitType, values, query).values.Keys
  {
    if query == "" {
      return;
    }
    assert longer != "";
    LowerStrKeepsContains(longer, query);
    forall v | v in FilterAttributesByQuery(traitType, values, longer).values
      ensures MatchesQuery(v, query)
    {
      ContainsTransitive(LowerStr(v), LowerStr(longer), LowerStr(query));
    }
  }

  /**
   * `Object.entries(attributes).map(filterAttributesByQuery).filter(hasMatches || query === '')`:
   * the views of the traits that match, in the traits' order.
   */
  function FilteredAttributes<V>(attributes: seq<(string, map<string, V>)>, query: string): (views: seq<TraitView<V>>)
    ensures |views| <= |attributes|
    ensures query == "" ==> |views| == |attributes|
    ensures forall w | w in views :: w.hasMatches
    ensures forall i | 0 <= i < |attributes| ::
      FilterAttributesByQuery(attributes[i].0, attributes[i].1, query).hasMatches
      ==> FilterAttributesByQuery(attributes[i].0, attributes[i].1, query) in views
    ensures forall w | w in views :: exists i | 0 <= i < |attributes| ::
      w == FilterAttributesByQuery(attributes[i].0, attributes[i].1, query)
  {
    if attributes == [] then []
    else
      var view := FilterAttributesByQuery(attributes[0].0, attributes[0].1, query);
      var rest := FilteredAttributes(attributes[1..], query);
      assert forall i | 1 <= i < |attributes| :: attributes[i] == attributes[1..][i - 1];
      if view.hasMatches || query == "" then [view] + rest else rest
  }

  /** One trait is shown exactly when its view has matches or the query is empty. */
  lemma FilteredAttributesOne<V>(traitType: string, values: map<string, V>, query: string)
    ensures var view := FilterAttributesByQuery(traitType, values, query);
      FilteredAttributes([(traitType, values)], query) == if view.hasMatches then [view] else []
  {
    assert [(traitType, values)][1..] == [];
  }

  lemma FilteredAttributesCons<V>(x: (string, map<string, V>), rest: seq<(string, map<string, V>)>, query: string)
    ensures var view := FilterAttributesByQuery(x.0, x.1, query);
      FilteredAttributes([x] + rest, query)
      == (if view.hasMatches || query == "" then [view] else []) + FilteredAttributes(rest, query)
  {
    assert ([x] + rest)[0] == x && ([x] + rest)[1..] == rest;
  }

  /** The shown traits of a concatenation are those of each part, in order. */
  lemma {:induction false} FilteredAttributesConcat<V>(a: seq<(string, map<string, V>)>, b: seq<(string, map<string, V>)>, query: string)
    ensures FilteredAttributes(a + b, query) == FilteredAttributes(a, query) + FilteredAttributes(b, query)
  {
    if a != [] {
      var view := FilterAttributesByQuery(a[0].0, a[0].1, query);
      var head := if view.hasMatches || query == "" then [view] else [];
      assert a + b == [a[0]] + (a[1..] + b);
      assert a == [a[0]] + a[1..];
      FilteredAttributesCons(a[0], a[1..] + b, query);
      FilteredAttributesCons(a[0], a[1..], query);
      FilteredAttributesConcat(a[1..], b, query);
      assert head + (FilteredAttributes(a[1..], query) + FilteredAttributes(b, query))
          == (head + FilteredAttributes(a[1..], query)) + FilteredAttributes(b, query);
    } else {
      assert a + b == b;
    }
  }

  // ---------------------------------------------------------------------------
  // getBackdropColor and getModelImagePath

  /** A backdrop of the bundled backdrop list: its name and centre colour. */
  datatype Backdrop = Backdrop(name: string, centerColor: string)

  /** The index of the first backdrop whose name equals `name` ignoring ASCII letter case. */
  function FindBackdrop(backdrops: seq<Backdrop>, name: string): (r: Option<nat>)
    ensures r.Some? ==> r.value < |backdrops| && LowerStr(backdrops[r.value].name) == LowerStr(name)
    ensures r.Some? ==> forall j | 0 <= j < r.value :: LowerStr(backdrops[j].name) != LowerStr(name)
    ensures r.None? ==> forall j | 0 <= j < |backdrops| :: LowerStr(backdrops[j].name) != LowerStr(name)
  {
    if backdrops == [] then None
    else if LowerStr(backdrops[0].name) == LowerStr(name) then Some(0)
    else match FindBackdrop(backdrops[1..], name)
      case None => None
      case Some(i) => Some(i + 1)
  }

  const DefaultBackdropColor := "#ccc"

  /** The centre colour of the first backdrop named `name` (any letter case), else "#ccc". */
  function GetBackdropColor(backdrops: seq<Backdrop>, name: string): (color: string)
    ensures (forall j | 0 <= j < |backdrops| :: LowerStr(backdrops[j].name) != LowerStr(name)) ==> color == DefaultBackdropColor
    ensures (exists j | 0 <= j < |backdrops| :: LowerStr(backdrops[j].name) == LowerStr(name))
            ==> exists j | 0 <= j < |backdrops| ::
                  && LowerStr(backdrops[j].name) == LowerStr(name)
                  && (forall i | 0 <= i < j :: LowerStr(backdrops[i].name) != LowerStr(name))
                  && color == backdrops[j].centerColor
  {
    match FindBackdrop(backdrops, name)
    case None => DefaultBackdropColor
    case Some(i) => backdrops[i].centerColor
  }

  /**
   * `/Gift Model Preview/<encoded lower-case gift name>/<encoded model name>.png`, or ""
   * when no collection (or an empty gift name) is loaded; `encode` is `encodeURIComponent`.
   */
  function GetModelImagePath(giftName: Option<string>, modelName: string, encode: string -> string): (path: string)
    ensures path == "" <==> giftName.None? || giftName.value == ""
    ensures path != "" ==> StartsWith(path, "/Gift Model Preview/" + encode(LowerStr(giftName.value)) + "/")
    ensures path != "" ==> EndsWith(path, encode(modelName) + ".png")
    ensures path != "" ==>
      |path| == |"/Gift Model Preview/" + encode(LowerStr(giftName.value)) + "/"| + |encode(modelName) + ".png"|
  {
    if giftName.None? || giftName.value == "" then ""
    else
      var head := "/Gift Model Preview/" + encode(LowerStr(giftName.value)) + "/";
      AffixesOfConcat(head, encode(modelName) + ".png");
      head + (encode(modelName) + ".png")
  }
}
