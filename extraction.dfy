/** The extractor registry of aes/features/extraction/base.py.

    `FeatureExtractorFactory._build_index` walks a fixed list of modules and,
    in each, the classes `class_list_from_file` finds, instantiates every class
    and stores the instance in a dict under the instance's own name. Dynamic
    loading (`importlib`, `getattr`) becomes a registry given to the
    constructor: for each module, in order, the extractor classes found in it. */
module Extraction {
  import opened Wrappers
  import opened Text
  import Length

  /** The modules `_build_index` scans, in the order it scans them. */
  const ModuleNames: seq<string> := [
    "aes.features.extraction.length",
    "aes.features.extraction.word",
    "aes.features.extraction.semantic",
    "aes.features.extraction.syntactic",
    "aes.features.extraction.readability"
  ]

  /** All classes of all modules, in scanning order. */
  function Flatten<T>(registry: seq<seq<T>>): (all: seq<T>)
    ensures registry == [] ==> all == []
  {
    if registry == [] then [] else Flatten(registry[..|registry| - 1]) + registry[|registry| - 1]
  }

  /** Assigning `d[k]` in an insertion-ordered dict: a new key goes last, an
      existing key keeps its place. */
  function InsertKey(keys: seq<string>, k: string): seq<string>
  {
    if k in keys then keys else keys + [k]
  }

  /** The key order of a dict after assigning `names` in order. */
  function IndexKeys(names: seq<string>): seq<string>
  {
    if names == [] then [] else InsertKey(IndexKeys(names[..|names| - 1]), names[|names| - 1])
  }

  /** The dict after assigning `values[i]` under `names[i]`, in order. */
  function IndexMap<T>(names: seq<string>, values: seq<T>): map<string, T>
    requires |names| == |values|
  {
    if names == [] then map[]
    else IndexMap(names[..|names| - 1], values[..|values| - 1])[names[|names| - 1] := values[|values| - 1]]
  }

  /** The position of the last assignment to `k`. */
  function LastIndex(names: seq<string>, k: string): (i: nat)
    requires k in names
    ensures i < |names| && names[i] == k
    ensures forall j :: i < j < |names| ==> names[j] != k
  {
    if names[|names| - 1] == k then |names| - 1 else LastIndex(names[..|names| - 1], k)
  }

  /** The keys are the assigned names, each once. */
  lemma {:induction false} IndexKeysDistinct(names: seq<string>)
    ensures Distinct(IndexKeys(names))
    ensures forall k :: k in IndexKeys(names) <==> k in names
  {
    if names != [] {
      var init := names[..|names| - 1];
      IndexKeysDistinct(init);
      assert names == init + [names[|names| - 1]];
    }
  }

  /** Later assignments never move a key that is already there: the keys after
      `a` are a prefix of the keys after `a + b`. */
  lemma {:induction false} IndexKeysPrefix(a: seq<string>, b: seq<string>)
    ensures IndexKeys(a) <= IndexKeys(a + b)
    decreases |b|
  {
    if b == [] {
      assert a + b == a;
    } else {
      var init := b[..|b| - 1];
      IndexKeysPrefix(a, init);
      assert (a + b)[..|a + b| - 1] == a + init && (a + b)[|a + b| - 1] == b[|b| - 1];
      assert IndexKeys(a + init) <= InsertKey(IndexKeys(a + init), b[|b| - 1]);
    }
  }

  /** With no repeated name, the keys are the names in assignment order. */
  lemma {:induction false} IndexKeysOfDistinct(names: seq<string>)
    requires Distinct(names)
    ensures IndexKeys(names) == names
  {
    if names != [] {
      var init := names[..|names| - 1];
      assert Distinct(init);
      IndexKeysOfDistinct(init);
      assert names == init + [names[|names| - 1]];
    }
  }

  /** Last write wins: the stored value of a name is the one assigned last. */
  lemma {:induction false} IndexMapLastWins<T>(names: seq<string>, values: seq<T>, k: string)
    requires |names| == |values|
    ensures k in IndexMap(names, values) <==> k in names
    ensures k in names ==> IndexMap(names, values)[k] == values[LastIndex(names, k)]
  {
    if names != [] {
      IndexMapLastWins(names[..|names| - 1], values[..|values| - 1], k);
    }
  }

  /** The names the created extractors report. */
  function NamesOf(extractors: seq<Length.FeatureExtractor>): (names: seq<string>)
    ensures |names| == |extractors|
    ensures forall i :: 0 <= i < |extractors| ==> names[i] == extractors[i].name
  {
    seq(|extractors|, i requires 0 <= i < |extractors| => extractors[i].name)
  }

  /** `extractors[i]` is an instance of class `kinds[i]`, carrying that
      class's name. */
  ghost predicate Instances(extractors: seq<Length.FeatureExtractor>, kinds: seq<Length.Kind>)
  {
    && |extractors| == |kinds|
    && forall i :: 0 <= i < |kinds| ==> extractors[i].kind == kinds[i] && extractors[i].name == Length.CanonicalName(kinds[i])
  }

  /** The names the instances of `kinds` report, in order. */
  function ClassNames(kinds: seq<Length.Kind>): (names: seq<string>)
    ensures |names| == |kinds|
    ensures forall i :: 0 <= i < |kinds| ==> names[i] == Length.CanonicalName(kinds[i])
  {
    seq(|kinds|, i requires 0 <= i < |kinds| => Length.CanonicalName(kinds[i]))
  }

  lemma InstancesNamed(extractors: seq<Length.FeatureExtractor>, kinds: seq<Length.Kind>)
    requires Instances(extractors, kinds)
    ensures NamesOf(extractors) == ClassNames(kinds)
  {
  }

  lemma InstancesConcat(a: seq<Length.FeatureExtractor>, b: seq<Length.FeatureExtractor>,
                        ka: seq<Length.Kind>, kb: seq<Length.Kind>)
    requires Instances(a, ka) && Instances(b, kb)
    ensures Instances(a + b, ka + kb)
  {
    forall i | 0 <= i < |ka| + |kb|
      ensures (a + b)[i].kind == (ka + kb)[i] && (a + b)[i].name == Length.CanonicalName((ka + kb)[i])
    {
      if i < |ka| {
        assert (a + b)[i] == a[i] && (ka + kb)[i] == ka[i];
      } else {
        assert (a + b)[i] == b[i - |a|] && (ka + kb)[i] == kb[i - |ka|];
      }
    }
  }

  /** Storing the instance of the next class extends `Instances` by one. */
  lemma InstancesSnoc(added: seq<Length.FeatureExtractor>, classes: seq<Length.Kind>, j: nat,
                      extractor: Length.FeatureExtractor)
    requires j < |classes| && Instances(added, classes[..j])
    requires extractor.kind == classes[j] && extractor.name == Length.CanonicalName(classes[j])
    ensures Instances(added + [extractor], classes[..j + 1])
  {
    assert classes[..j + 1] == classes[..j] + [classes[j]];
    InstancesConcat(added, [extractor], classes[..j], [classes[j]]);
  }

  /** `getattr(module, klass)()`: a new instance of the class, with the
      class's canonical name. */
  method Instantiate(kind: Length.Kind) returns (extractor: Length.FeatureExtractor)
    ensures fresh(extractor) && extractor.kind == kind
    ensures extractor.name == Length.CanonicalName(kind) && extractor.counts == map[]
  {
    extractor := new Length.FeatureExtractor(kind);
  }

  /** `index` and `keys` are the dict and its key order after storing every
      instance of `made` under its name, in order. */
  ghost predicate Indexed(index: map<string, Length.FeatureExtractor>, keys: seq<string>, made: seq<Length.FeatureExtractor>)
  {
    && keys == IndexKeys(NamesOf(made))
    && index == IndexMap(NamesOf(made), made)
  }

  /** `self._extractor_index[extractor.name] = extractor`. */
  lemma StoreKeepsIndexed(index: map<string, Length.FeatureExtractor>, keys: seq<string>,
                          made: seq<Length.FeatureExtractor>, extractor: Length.FeatureExtractor)
    requires Indexed(index, keys, made)
    ensures Indexed(index[extractor.name := extractor], InsertKey(keys, extractor.name), made + [extractor])
  {
    assert NamesOf(made + [extractor])[..|made|] == NamesOf(made);
  }

  /** One step of `_build_index`: instantiate a class and store the
      instance under its name. */
  method Store(kind: Length.Kind, index: map<string, Length.FeatureExtractor>, keys: seq<string>,
               ghost made: seq<Length.FeatureExtractor>)
    returns (index': map<string, Length.FeatureExtractor>, keys': seq<string>, ghost made': seq<Length.FeatureExtractor>,
             extractor: Length.FeatureExtractor)
    requires Indexed(index, keys, made)
    ensures Indexed(index', keys', made')
    ensures made' == made + [extractor] && extractor.kind == kind && extractor.name == Length.CanonicalName(kind)
  {
    extractor := Instantiate(kind);
    StoreKeepsIndexed(index, keys, made, extractor);
    index' := index[extractor.name := extractor];
    keys' := keys;
    if extractor.name !in keys {
      keys' := keys + [extractor.name];
    }
    made' := made + [extractor];
  }

  /** The inner loop of `_build_index`: instantiate and store each class of
      one module; `added` are the new instances. */
  method IndexModule(classes: seq<Length.Kind>, index: map<string, Length.FeatureExtractor>, keys: seq<string>,
                     ghost made: seq<Length.FeatureExtractor>)
    returns (index': map<string, Length.FeatureExtractor>, keys': seq<string>, ghost made': seq<Length.FeatureExtractor>,
             ghost added: seq<Length.FeatureExtractor>)
    requires Indexed(index, keys, made)
    ensures Indexed(index', keys', made')
    ensures made' == made + added && Instances(added, classes)
  {
    index', keys', made' := index, keys, made;
    added := [];
    var j := 0;
    while j < |classes|
      invariant 0 <= j <= |classes|
      invariant Indexed(index', keys', made')
      invariant made' == made + added
      invariant Instances(added, classes[..j])
    {
      var extractor;
      index', keys', made', extractor := Store(classes[j], index', keys', made');
      assert made' == made + (added + [extractor]);
      InstancesSnoc(added, classes, j, extractor);
      added := added + [extractor];
      j := j + 1;
    }
    assert classes[..j] == classes;
  }

  /** `_build_index`: every class of every module, in module order and then
      class order, stored under its own name; the keys are the class names
      in that order, a repeated name keeping its first place. */
  method BuildIndex(registry: seq<seq<Length.Kind>>)
    returns (index: map<string, Length.FeatureExtractor>, keys: seq<string>, ghost made: seq<Length.FeatureExtractor>)
    ensures Indexed(index, keys, made)
    ensures Instances(made, Flatten(registry))
    ensures keys == IndexKeys(ClassNames(Flatten(registry)))
  {
    index, keys, made := map[], [], [];
    var m := 0;
    while m < |registry|
      invariant 0 <= m <= |registry|
      invariant Indexed(index, keys, made)
      invariant Instances(made, Flatten(registry[..m]))
    {
      assert registry[..m + 1][..m] == registry[..m];
      ghost var start := made;
      ghost var added;
      index, keys, made, added := IndexModule(registry[m], index, keys, made);
      InstancesConcat(start, added, Flatten(registry[..m]), registry[m]);
      m := m + 1;
    }
    assert registry[..m] == registry;
    InstancesNamed(made, Flatten(registry));
  }

  /** `FeatureExtractorFactory`: `index` is `_extractor_index`, `keys` its
      insertion order, `created` every instance `_build_index` made. */
  class FeatureExtractorFactory {
    var index: map<string, Length.FeatureExtractor>
    var keys: seq<string>
    ghost var created: seq<Length.FeatureExtractor>

    ghost predicate Valid()
      reads this
    {
      Indexed(index, keys, created)
    }

    /** `__init__` with `_build_index`: one instance per class, in module
        order and then class order, each stored under its own name. */
    constructor (registry: seq<seq<Length.Kind>>)
      ensures Valid()
      ensures Instances(created, Flatten(registry))
      ensures keys == IndexKeys(ClassNames(Flatten(registry)))
    {
      var builtIndex, builtKeys;
      ghost var made;
      builtIndex, builtKeys, made := BuildIndex(registry);
      index, keys, created := builtIndex, builtKeys, made;
    }

    /** `list_extractors`: the index keys, each once, in insertion order. */
    method ListExtractors() returns (names: seq<string>)
      requires Valid()
      ensures names == keys && Distinct(names)
      ensures forall k :: k in names <==> k in index
    {
      IndexKeysDistinct(NamesOf(created));
      forall k ensures k in keys <==> k in index {
        IndexMapLastWins(NamesOf(created), created, k);
      }
      names := keys;
    }

    /** `categories`: despite its name, the same list of extractor names. */
    method Categories() returns (names: seq<string>)
      requires Valid()
      ensures names == keys && Distinct(names)
      ensures forall k :: k in names <==> k in index
    {
      names := ListExtractors();
    }

    /** `create_extractor`: the stored instance, which carries the requested
        name; an unknown name is a `KeyError`, never a default. */
    method CreateExtractor(name: string) returns (r: Result<Length.FeatureExtractor>)
      requires Valid()
      ensures r.Ok? <==> name in keys
      ensures name in index ==> r == Ok(index[name])
      ensures r.Ok? ==> r.value.name == name
      ensures name !in index ==> r == Err(KeyError(name))
    {
      IndexKeysDistinct(NamesOf(created));
      IndexMapLastWins(NamesOf(created), created, name);
      if name in index {
        r := Ok(index[name]);
      } else {
        r := Err(KeyError(name));
      }
    }
  }

  /** Every listed name yields an extractor of that very name, and two
      requests for one name yield the same instance. */
  lemma ListedNamesCreate(f: FeatureExtractorFactory, k: string)
    requires f.Valid() && k in f.keys
    ensures k in NamesOf(f.created) && k in f.index && f.index[k].name == k
    ensures f.index[k] == f.created[LastIndex(NamesOf(f.created), k)]
  {
    IndexKeysDistinct(NamesOf(f.created));
    IndexMapLastWins(NamesOf(f.created), f.created, k);
  }

  /** A factory built over `registry` holds an extractor exactly for each
      class name found there, and the one under a name is of a class with
      that name. */
  lemma FactoryIndexFromRegistry(f: FeatureExtractorFactory, registry: seq<seq<Length.Kind>>, k: string)
    requires f.Valid() && Instances(f.created, Flatten(registry))
    ensures k in f.index <==> k in ClassNames(Flatten(registry))
    ensures k in f.index ==> f.index[k].name == k && Length.CanonicalName(f.index[k].kind) == k
  {
    InstancesNamed(f.created, Flatten(registry));
    IndexMapLastWins(NamesOf(f.created), f.created, k);
  }

  /** When no class is registered twice, `list_extractors` gives the class
      names in module order and then class order. */
  lemma {:induction false} DistinctClassesListedInOrder(registry: seq<seq<Length.Kind>>)
    requires Distinct(Flatten(registry))
    ensures Distinct(ClassNames(Flatten(registry)))
    ensures IndexKeys(ClassNames(Flatten(registry))) == ClassNames(Flatten(registry))
  {
    var kinds := Flatten(registry);
    Length.CanonicalNamesDistinct();
    assert Distinct(ClassNames(kinds)) by {
      forall i, j | 0 <= i < j < |kinds| ensures ClassNames(kinds)[i] != ClassNames(kinds)[j] {
        assert kinds[i] != kinds[j];
      }
    }
    IndexKeysOfDistinct(ClassNames(kinds));
  }
}
