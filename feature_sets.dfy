/** `FeatureSet` of aes/features/feature_set.py: an insertion-ordered dict of
    feature objects keyed by feature name, and the selection of a category's
    columns. The data frame is reduced to its list of column names. */
module FeatureSets {
  import opened Wrappers
  import opened Text
  import Catalogue

  /** The part of a `Feature` object the set looks at: its name. */
  class Feature {
    const name: string
    const category: string

    constructor (name: string, category: string)
      ensures this.name == name && this.category == category
    {
      this.name := name;
      this.category := category;
    }
  }

  /** The contents of `_features`: the dict and its key order. */
  datatype Entries = Entries(features: map<string, Feature>, order: seq<string>)

  /** Every key is listed once, and every stored feature sits under its own
      name. */
  ghost predicate WellFormed(d: Entries)
  {
    && Distinct(d.order)
    && (forall k :: k in d.order <==> k in d.features)
    && forall k :: k in d.features ==> d.features[k].name == k
  }

  /** `order` without `name`. */
  function Without(order: seq<string>, name: string): (rest: seq<string>)
    ensures forall k :: k in rest <==> k in order && k != name
    ensures |rest| <= |order|
  {
    if order == [] then []
    else if order[0] == name then Without(order[1..], name)
    else [order[0]] + Without(order[1..], name)
  }

  /** `add_feature`: stored only when the name is not there yet. */
  function Added(d: Entries, f: Feature): Entries
  {
    if f.name in d.features then d
    else Entries(d.features[f.name := f], d.order + [f.name])
  }

  /** `del self._features[name]`, or `KeyError` when absent. */
  function Removed(d: Entries, name: string): Result<Entries>
  {
    if name in d.features then Ok(Entries(d.features - {name}, Without(d.order, name)))
    else Err(KeyError(name))
  }

  lemma AddedWellFormed(d: Entries, f: Feature)
    requires WellFormed(d)
    ensures WellFormed(Added(d, f))
    ensures f.name in Added(d, f).features
    ensures forall k :: k in d.features ==> k in Added(d, f).features && Added(d, f).features[k] == d.features[k]
    ensures f.name !in d.features ==> Added(d, f).features[f.name] == f && Added(d, f).order == d.order + [f.name]
  {
  }

  /** Adding the same feature twice is adding it once; adding any feature
      under a name already present changes nothing. */
  lemma AddIdempotent(d: Entries, f: Feature, g: Feature)
    requires g.name == f.name
    ensures Added(Added(d, f), g) == Added(d, f)
  {
  }

  lemma {:induction false} WithoutDistinct(order: seq<string>, name: string)
    requires Distinct(order)
    ensures Distinct(Without(order, name))
  {
    if order != [] {
      assert Distinct(order[1..]);
      WithoutDistinct(order[1..], name);
      if order[0] != name {
        assert order[0] !in order[1..];
      }
    }
  }

  /** Removing a name that is not listed leaves the list as it is. */
  lemma {:induction false} WithoutAbsent(order: seq<string>, name: string)
    requires name !in order
    ensures Without(order, name) == order
  {
    if order != [] {
      WithoutAbsent(order[1..], name);
      assert [order[0]] + order[1..] == order;
    }
  }

  /** Exactly that name goes; the other features keep their objects. */
  lemma RemovedWellFormed(d: Entries, name: string)
    requires WellFormed(d)
    ensures Removed(d, name).Ok? <==> name in d.features
    ensures Removed(d, name).Ok? ==> WellFormed(Removed(d, name).value)
    ensures Removed(d, name).Ok? ==> name !in Removed(d, name).value.features
    ensures Removed(d, name).Ok? ==>
      forall k :: k in d.features && k != name ==> k in Removed(d, name).value.features && Removed(d, name).value.features[k] == d.features[k]
  {
    WithoutDistinct(d.order, name);
  }

  /** Removing a feature just added restores the set. */
  lemma RemoveUndoesAdd(d: Entries, f: Feature)
    requires WellFormed(d) && f.name !in d.features
    ensures Removed(Added(d, f), f.name) == Ok(d)
  {
    assert Without(d.order + [f.name], f.name) == d.order by {
      WithoutAppend(d.order, f.name);
    }
    assert d.features[f.name := f] - {f.name} == d.features;
  }

  lemma {:induction false} WithoutAppend(order: seq<string>, name: string)
    requires name !in order
    ensures Without(order + [name], name) == order
  {
    if order == [] {
      assert [name][1..] == [];
    } else {
      assert (order + [name])[1..] == order[1..] + [name];
      WithoutAppend(order[1..], name);
      assert [order[0]] + order[1..] == order;
    }
  }

  /** `get_features(category)` as intended: the base columns followed by the
      category's feature names, for a non-empty category of `FEATURES`;
      nothing otherwise. */
  function SelectedColumns(columns: seq<string>, category: Option<string>): (selected: Option<seq<string>>)
  {
    if category.Some? && category.value != "" && Catalogue.FeaturesOf(category.value).Some?
    then Some(columns + Catalogue.FeaturesOf(category.value).value)
    else None
  }

  lemma SelectedColumnsFacts(columns: seq<string>, category: Option<string>)
    ensures SelectedColumns(columns, category).Some? <==> category.Some? && category.value in Catalogue.Categories
    ensures SelectedColumns(columns, category).Some? ==>
      var selected := SelectedColumns(columns, category).value;
      selected[..|columns|] == columns && selected[|columns|..] == Catalogue.FeaturesOf(category.value).value
  {
    Catalogue.FiveCategories();
  }

  /** `get_features` as written: `self._columns.axtend(...)` names a method
      lists do not have, so every valid category raises `AttributeError`. */
  function GetFeaturesAsWritten(columns: seq<string>, category: Option<string>): (r: Result<Option<seq<string>>>)
  {
    if category.Some? && category.value != "" && Catalogue.FeaturesOf(category.value).Some?
    then Err(AttributeError("axtend"))
    else Ok(None)
  }

  /** The method name is misspelled: no category ever yields columns. */
  lemma GetFeaturesNeverSelects(columns: seq<string>, category: Option<string>)
    ensures GetFeaturesAsWritten(columns, category) != Ok(SelectedColumns(columns, category)) <==> category.Some? && category.value in Catalogue.Categories
    ensures GetFeaturesAsWritten(columns, category).Ok? ==> GetFeaturesAsWritten(columns, category).value.None?
  {
    SelectedColumnsFacts(columns, category);
  }

  /** `FeatureSet.__init__` as written: `data.columns.to.list()` looks up an
      attribute `to` that a column index does not have. */
  function NewAsWritten(columns: seq<string>): (r: Result<seq<string>>)
  {
    Err(AttributeError("to"))
  }

  lemma NewAsWrittenAlwaysFails(columns: seq<string>)
    ensures NewAsWritten(columns) != Ok(columns)
  {
  }

  class FeatureSet {
    var columns: seq<string>
    var features: map<string, Feature>
    var order: seq<string>
    var extracted: bool

    function Dict(): Entries
      reads this
    {
      Entries(features, order)
    }

    ghost predicate Valid()
      reads this
    {
      WellFormed(Dict())
    }

    /** `__init__` as intended, with `data.columns.to_list()`. */
    constructor (columns: seq<string>)
      ensures Valid()
      ensures this.columns == columns && features == map[] && order == [] && !extracted
    {
      this.columns := columns;
      features := map[];
      order := [];
      extracted := false;
    }

    /** `add_feature`; returns whether the duplicate warning is logged. */
    method AddFeature(f: Feature) returns (warned: bool)
      requires Valid()
      modifies this
      ensures Valid()
      ensures warned <==> f.name in old(features)
      ensures Dict() == Added(old(Dict()), f)
      ensures columns == old(columns) && extracted == old(extracted)
    {
      AddedWellFormed(Dict(), f);
      if f.name in features {
        warned := true;
      } else {
        features := features[f.name := f];
        order := order + [f.name];
        warned := false;
      }
    }

    /** `remove_feature`: `KeyError` for a name that is not in the set, and
        then nothing changes. */
    method RemoveFeature(name: string) returns (error: Option<Error>)
      requires Valid()
      modifies this
      ensures Valid()
      ensures error.None? <==> name in old(features)
      ensures error.None? ==> Removed(old(Dict()), name) == Ok(Dict())
      ensures error.Some? ==> error == Some(KeyError(name)) && Dict() == old(Dict())
      ensures columns == old(columns) && extracted == old(extracted)
    {
      RemovedWellFormed(Dict(), name);
      if name in features {
        features := features - {name};
        order := Without(order, name);
        error := None;
      } else {
        error := Some(KeyError(name));
      }
    }

    /** `list_features`: the names in insertion order, each once. */
    method ListFeatures() returns (names: seq<string>)
      requires Valid()
      ensures names == order && Distinct(names)
      ensures forall k :: k in names <==> k in features
    {
      names := order;
    }

    /** `get_feature`: the stored object, or `None` (after logging) for an
        absent name; never raises. */
    method GetFeature(name: string) returns (f: Option<Feature>)
      requires Valid()
      ensures f.Some? <==> name in features
      ensures f.Some? ==> f.value == features[name] && f.value.name == name
    {
      if name in features {
        f := Some(features[name]);
      } else {
        f := None;
      }
    }

    /** `get_features` as intended: the selected column names. */
    method GetFeatures(category: Option<string>) returns (selected: Option<seq<string>>)
      ensures selected == SelectedColumns(columns, category)
      ensures selected.Some? <==> category.Some? && category.value in Catalogue.Categories
    {
      SelectedColumnsFacts(columns, category);
      selected := SelectedColumns(columns, category);
    }
  }
}
