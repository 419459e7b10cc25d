/** The kelemetrix consumer: configurations compiled from names to positions. */
module Kelemetrix {
  import opened Wrappers
  import opened MapOrder
  import opened KelemetrixConfig

  /** A provider and the positions that its values are put at. */
  datatype IndexedTagProvider = IndexedTagProvider(id: nat, startIndex: nat, endIndex: nat)

  datatype TagProviderIndex = TagProviderIndex(names: seq<string>, nameToIndex: map<string, nat>, providers: seq<IndexedTagProvider>)

  datatype QuantifierIndex = QuantifierIndex(quantifiers: seq<Quantifier>, nameToIndex: map<string, nat>)

  datatype IndexedTagFilter = IndexedTagFilter(tagIndex: nat, isRegex: bool, choices: seq<string>, regexs: seq<string -> bool>, negate: bool)

  datatype IndexedQuantityFilter = IndexedQuantityFilter(quantityIndex: nat, threshold: real, acceptLeft: bool, acceptEqual: bool, acceptRight: bool)

  datatype MetricHandler = MetricHandler(quantifierIndex: nat, tagFilters: seq<IndexedTagFilter>, quantityFilters: seq<IndexedQuantityFilter>, tagSet: seq<nat>, name: string, kind: MetricType)

  // ---------- Tag positions ----------

  predicate InSlice(p: IndexedTagProvider, k: nat) {
    p.startIndex <= k < p.endIndex
  }

  /** The slice of a provider holds its names. */
  predicate SliceOk(reg: Registry, names: seq<string>, p: IndexedTagProvider) {
    p.id < |reg.tagProviders| && p.startIndex <= p.endIndex <= |names| && names[p.startIndex..p.endIndex] == reg.tagProviders[p.id].names
  }

  ghost predicate HasSlice(providers: seq<IndexedTagProvider>, k: nat) {
    exists i :: 0 <= i < |providers| && InSlice(providers[i], k)
  }

  /** The slices are disjoint and in order, and cover all positions. */
  ghost predicate Layout(reg: Registry, names: seq<string>, providers: seq<IndexedTagProvider>) {
    && (forall i :: 0 <= i < |providers| ==> SliceOk(reg, names, providers[i]))
    && (forall i, j :: 0 <= i < j < |providers| ==> providers[i].endIndex <= providers[j].startIndex && providers[i].id != providers[j].id)
    && (forall k: nat :: k < |names| ==> HasSlice(providers, k))
  }

  predicate EndsAtNext(names: seq<string>, providers: seq<IndexedTagProvider>, i: nat)
    requires i < |providers|
  {
    providers[i].endIndex == if i + 1 < |providers| then providers[i + 1].startIndex else |names|
  }

  /** Contiguity: each slice starts where the one before it ends. */
  ghost predicate Contiguous(names: seq<string>, providers: seq<IndexedTagProvider>) {
    && (forall i: nat :: i < |providers| ==> EndsAtNext(names, providers, i))
    && (providers != [] ==> providers[0].startIndex == 0) && (providers == [] ==> names == [])
  }

  lemma {:induction false} ContiguousMore(names: seq<string>, providers: seq<IndexedTagProvider>, id: nat, end: nat, more: seq<string>)
    requires Contiguous(names, providers) && |more| == end
    ensures Contiguous(more, providers + [IndexedTagProvider(id, |names|, end)])
  {
    var indexed := providers + [IndexedTagProvider(id, |names|, end)];
    forall i: nat | i < |indexed| ensures EndsAtNext(more, indexed, i) {
      if i < |providers| {
        assert EndsAtNext(names, providers, i);
      }
    }
  }

  lemma {:induction false} LayoutMore(reg: Registry, names: seq<string>, providers: seq<IndexedTagProvider>, id: nat)
    requires Layout(reg, names, providers) && Contiguous(names, providers) && id < |reg.tagProviders|
    requires forall i :: 0 <= i < |providers| ==> providers[i].id != id
    ensures var more := names + reg.tagProviders[id].names;
            var indexed := providers + [IndexedTagProvider(id, |names|, |more|)];
            Layout(reg, more, indexed) && Contiguous(more, indexed)
  {
    var more := names + reg.tagProviders[id].names;
    ContiguousMore(names, providers, id, |more|, more);
    hide Contiguous;
    var indexed := providers + [IndexedTagProvider(id, |names|, |more|)];
    forall i | 0 <= i < |indexed| ensures SliceOk(reg, more, indexed[i]) {
      if i < |providers| {
        assert SliceOk(reg, names, providers[i]);
        assert more[indexed[i].startIndex..indexed[i].endIndex] == names[indexed[i].startIndex..indexed[i].endIndex];
      }
    }
    LayoutBounds(reg, names, providers);
    forall k: nat | k < |more| ensures HasSlice(indexed, k) {
      if k < |names| {
        assert HasSlice(providers, k);
        var i :| 0 <= i < |providers| && InSlice(providers[i], k);
        assert InSlice(indexed[i], k);
      } else {
        assert InSlice(indexed[|providers|], k);
      }
    }
  }

  lemma {:induction false} LayoutBounds(reg: Registry, names: seq<string>, providers: seq<IndexedTagProvider>)
    requires Layout(reg, names, providers)
    ensures forall i :: 0 <= i < |providers| ==> providers[i].startIndex <= providers[i].endIndex <= |names|
  {
    forall i | 0 <= i < |providers| ensures providers[i].startIndex <= providers[i].endIndex <= |names| {
      assert SliceOk(reg, names, providers[i]);
    }
  }

  /** Every position has the tag that the name index leads back from. */
  ghost predicate Indexed(reg: Registry, index: TagProviderIndex) {
    && Layout(reg, index.names, index.providers) && Contiguous(index.names, index.providers)
    && (forall name :: name in index.nameToIndex ==> index.nameToIndex[name] < |index.names| && index.names[index.nameToIndex[name]] == name)
    && (forall k :: 0 <= k < |index.names| ==> index.names[k] in index.nameToIndex)
  }

  /** The providers of the required tags are all there. */
  ghost predicate Covers(reg: Registry, ids: set<nat>, providers: seq<IndexedTagProvider>) {
    && (forall i :: 0 <= i < |providers| ==> providers[i].id in ids)
    && (forall id :: id in ids ==> exists i :: 0 <= i < |providers| && providers[i].id == id)
  }

  lemma {:induction false} CoveredTag(reg: Registry, index: TagProviderIndex, ids: set<nat>, name: string)
    requires Proper(reg) && Indexed(reg, index) && Covers(reg, ids, index.providers)
    requires name in reg.tagIndex && reg.tagIndex[name] in ids
    ensures name in index.nameToIndex
  {
    hide Proper;
    var i :| 0 <= i < |index.providers| && index.providers[i].id == reg.tagIndex[name];
    NamedSlice(reg, index, i, name);
  }

  lemma {:induction false} NamedSlice(reg: Registry, index: TagProviderIndex, i: nat, name: string)
    requires Proper(reg) && i < |index.providers| && SliceOk(reg, index.names, index.providers[i])
    requires name in reg.tagIndex && reg.tagIndex[name] == index.providers[i].id
    requires forall k :: 0 <= k < |index.names| ==> index.names[k] in index.nameToIndex
    ensures name in index.nameToIndex
  {
    var j: nat :| TagAt(reg, name, reg.tagIndex[name], j);
    var p := index.providers[i];
    assert index.names[p.startIndex..p.endIndex][j] == name;
    assert index.names[p.startIndex + j] == name;
  }

  /** indexTagProviders; fails when a required tag does not exist. */
  method IndexTagProviders(requiredTags: set<string>, reg: Registry) returns (index: Option<TagProviderIndex>)
    requires Proper(reg)
    ensures index.Some? <==> requiredTags <= reg.tagIndex.Keys
    ensures index.Some? ==> Indexed(reg, index.value) && requiredTags <= index.value.nameToIndex.Keys
  {
    var ids: set<nat> := {};
    var todo := requiredTags;
    while todo != {}
      invariant todo <= requiredTags && (forall id :: id in ids ==> id < |reg.tagProviders|)
      invariant forall tag :: tag in requiredTags - todo ==> tag in reg.tagIndex && reg.tagIndex[tag] in ids
    {
      var tag := Pick(todo);
      todo := todo - {tag};
      if tag !in reg.tagIndex {
        return None;
      }
      ids := ids + {reg.tagIndex[tag]};
    }
    var names, providers := LayOut(ids, reg);
    var nameToIndex := IndexNames(names);
    index := Some(TagProviderIndex(names, nameToIndex, providers));
    forall tag | tag in requiredTags ensures tag in nameToIndex {
      CoveredTag(reg, index.value, ids, tag);
    }
  }

  method LayOut(ids: set<nat>, reg: Registry) returns (names: seq<string>, providers: seq<IndexedTagProvider>)
    requires forall id :: id in ids ==> id < |reg.tagProviders|
    ensures Layout(reg, names, providers) && Contiguous(names, providers) && Covers(reg, ids, providers)
  {
    hide Layout, Contiguous;
    names, providers := [], [];
    LayoutNone(reg);
    var todo := ids;
    while todo != {}
      invariant todo <= ids && Layout(reg, names, providers) && Contiguous(names, providers) && Covers(reg, ids - todo, providers)
    {
      var id := Pick(todo);
      LayoutMore(reg, names, providers, id);
      CoversMore(reg, ids - todo, providers, id, |names|, |names| + |reg.tagProviders[id].names|);
      assert ids - (todo - {id}) == ids - todo + {id};
      todo := todo - {id};
      providers := providers + [IndexedTagProvider(id, |names|, |names| + |reg.tagProviders[id].names|)];
      names := names + reg.tagProviders[id].names;
    }
    assert ids - todo == ids;
  }

  lemma {:induction false} LayoutNone(reg: Registry)
    ensures Layout(reg, [], []) && Contiguous([], [])
  {
  }

  lemma {:induction false} CoversMore(reg: Registry, ids: set<nat>, providers: seq<IndexedTagProvider>, id: nat, start: nat, end: nat)
    requires Covers(reg, ids, providers)
    ensures Covers(reg, ids + {id}, providers + [IndexedTagProvider(id, start, end)])
  {
    var more := providers + [IndexedTagProvider(id, start, end)];
    forall x | x in ids + {id} ensures exists i :: 0 <= i < |more| && more[i].id == x {
      if x == id {
        assert more[|providers|].id == x;
      } else {
        var i :| 0 <= i < |providers| && providers[i].id == x;
        assert more[i].id == x;
      }
    }
  }

  method IndexNames(names: seq<string>) returns (index: map<string, nat>)
    ensures forall name :: name in index ==> index[name] < |names| && names[index[name]] == name
    ensures forall k :: 0 <= k < |names| ==> names[k] in index
  {
    index := map[];
    for i := 0 to |names|
      invariant forall name :: name in index ==> index[name] < i && names[index[name]] == name
      invariant forall k :: 0 <= k < i ==> names[k] in index
    {
      index := index[names[i] := i];
    }
  }

  /** The values of a message by position. */
  ghost predicate Valued(reg: Registry, index: TagProviderIndex, m: Message, values: seq<string>)
    requires Proper(reg)
  {
    && |values| == |index.names|
    && forall k :: 0 <= k < |values| ==> index.names[k] in reg.tagIndex && values[k] == TagValue(reg, index.names[k], m)
  }

  lemma {:induction false} ValueOfSlice(reg: Registry, index: TagProviderIndex, m: Message, i: nat, k: nat)
    requires Proper(reg) && UniqueTags(reg) && i < |index.providers|
    requires SliceOk(reg, index.names, index.providers[i]) && InSlice(index.providers[i], k)
    ensures index.names[k] in reg.tagIndex
    ensures reg.tagProviders[index.providers[i].id].provide(m)[k - index.providers[i].startIndex] == TagValue(reg, index.names[k], m)
  {
    var p := index.providers[i];
    assert index.names[p.startIndex..p.endIndex][k - p.startIndex] == index.names[k];
    assert TagAt(reg, index.names[k], p.id, k - p.startIndex);
    TagValueAt(reg, index.names[k], m, p.id, k - p.startIndex);
  }

  predicate ValuedAt(values: seq<string>, expected: seq<string>, k: nat) {
    k < |values| == |expected| && values[k] == expected[k]
  }

  /** The values by position, as a sequence. */
  ghost function Expected(reg: Registry, index: TagProviderIndex, m: Message): (r: seq<string>)
    requires Proper(reg) && forall k :: 0 <= k < |index.names| ==> index.names[k] in reg.tagIndex
    ensures |r| == |index.names|
  {
    TagValues(reg, index.names, m)
  }

  lemma {:induction false} NamesRegistered(reg: Registry, index: TagProviderIndex)
    requires Proper(reg) && Layout(reg, index.names, index.providers)
    ensures forall k :: 0 <= k < |index.names| ==> index.names[k] in reg.tagIndex
  {
    forall k: nat | k < |index.names| ensures index.names[k] in reg.tagIndex {
      assert HasSlice(index.providers, k);
      var i :| 0 <= i < |index.providers| && InSlice(index.providers[i], k);
      var p := index.providers[i];
      assert SliceOk(reg, index.names, p);
      assert index.names[p.startIndex..p.endIndex][k - p.startIndex] == index.names[k];
      assert TagAt(reg, index.names[k], p.id, k - p.startIndex);
    }
  }

  /** The first loop of HandleMessage: every provider fills its own slice. */
  method ProvideValues(reg: Registry, index: TagProviderIndex, m: Message) returns (values: array<string>)
    requires Proper(reg) && UniqueTags(reg) && Layout(reg, index.names, index.providers)
    ensures fresh(values) && Valued(reg, index, m, values[..])
  {
    hide Proper, UniqueTags, TagValues;
    NamesRegistered(reg, index);
    ghost var expected := Expected(reg, index, m);
    values := new string[|index.names|](_ => "");
    for i := 0 to |index.providers|
      invariant forall j, k: nat :: 0 <= j < i && InSlice(index.providers[j], k) ==> ValuedAt(values[..], expected, k)
    {
      assert SliceOk(reg, index.names, index.providers[i]);
      ghost var before := values[..];
      FillSlice(reg, index, m, i, values, expected);
      forall j, k: nat | 0 <= j < i + 1 && InSlice(index.providers[j], k) ensures ValuedAt(values[..], expected, k) {
        assert SliceOk(reg, index.names, index.providers[j]);
        if j < i {
          assert ValuedAt(before, expected, k);
          assert !InSlice(index.providers[i], k);
        }
      }
    }
    AllValued(reg, index, m, values[..]);
  }

  lemma {:induction false} AllValued(reg: Registry, index: TagProviderIndex, m: Message, values: seq<string>)
    requires Proper(reg) && Layout(reg, index.names, index.providers)
    requires forall k :: 0 <= k < |index.names| ==> index.names[k] in reg.tagIndex
    requires |values| == |index.names|
    requires forall j, k: nat :: 0 <= j < |index.providers| && InSlice(index.providers[j], k) ==> ValuedAt(values, Expected(reg, index, m), k)
    ensures Valued(reg, index, m, values)
  {
    forall k: nat | k < |values| ensures values[k] == TagValue(reg, index.names[k], m) {
      assert HasSlice(index.providers, k);
      var j :| 0 <= j < |index.providers| && InSlice(index.providers[j], k);
      assert ValuedAt(values, Expected(reg, index, m), k);
    }
  }

  method FillSlice(reg: Registry, index: TagProviderIndex, m: Message, i: nat, values: array<string>, ghost expected: seq<string>)
    requires Proper(reg) && UniqueTags(reg) && i < |index.providers| && SliceOk(reg, index.names, index.providers[i])
    requires forall k :: 0 <= k < |index.names| ==> index.names[k] in reg.tagIndex
    requires values.Length == |index.names| && expected == Expected(reg, index, m)
    modifies values
    ensures forall k: nat :: InSlice(index.providers[i], k) ==> ValuedAt(values[..], expected, k)
    ensures forall k: nat :: k < values.Length && !InSlice(index.providers[i], k) ==> values[k] == old(values[k])
  {
    var p := index.providers[i];
    var provided := reg.tagProviders[p.id].provide(m);
    assert |index.names[p.startIndex..p.endIndex]| == |provided|;
    hide Proper, UniqueTags, TagValues;
    for n := 0 to |provided|
      invariant forall k: nat :: p.startIndex <= k < p.startIndex + n ==> values[k] == expected[k]
      invariant forall k: nat :: k < values.Length && !(p.startIndex <= k < p.startIndex + n) ==> values[k] == old(values[k])
    {
      ExpectedInSlice(reg, index, m, i, p.startIndex + n);
      values[p.startIndex + n] := provided[n];
    }
  }

  lemma {:induction false} ExpectedInSlice(reg: Registry, index: TagProviderIndex, m: Message, i: nat, k: nat)
    requires Proper(reg) && UniqueTags(reg) && i < |index.providers|
    requires SliceOk(reg, index.names, index.providers[i]) && InSlice(index.providers[i], k)
    requires forall k :: 0 <= k < |index.names| ==> index.names[k] in reg.tagIndex
    ensures k - index.providers[i].startIndex < |reg.tagProviders[index.providers[i].id].provide(m)|
    ensures reg.tagProviders[index.providers[i].id].provide(m)[k - index.providers[i].startIndex] == Expected(reg, index, m)[k]
  {
    ValueOfSlice(reg, index, m, i, k);
  }

  // ---------- Filters ----------

  /** newTagFilter; fails when a pattern does not compile. */
  method NewTagFilter(nameToIndex: map<string, nat>, compile: Compiler, f: TagFilter) returns (r: Option<IndexedTagFilter>)
    requires f.tag in nameToIndex
    ensures r.Some? <==> Compiles(f, compile)
    ensures r.Some? ==> CompiledTag(r.value, nameToIndex, compile, f)
  {
    var regexs: seq<string -> bool> := [];
    if f.isRegex {
      for i := 0 to |f.oneOf|
        invariant |regexs| == i && forall j :: 0 <= j < i ==> compile(f.oneOf[j]) == Some(regexs[j])
      {
        var regex := compile(f.oneOf[i]);
        if regex.None? {
          return None;
        }
        regexs := regexs + [regex.value];
      }
    }
    r := Some(IndexedTagFilter(nameToIndex[f.tag], f.isRegex, f.oneOf, regexs, f.negate));
  }

  ghost predicate CompiledTag(c: IndexedTagFilter, nameToIndex: map<string, nat>, compile: Compiler, f: TagFilter) {
    && f.tag in nameToIndex && c.tagIndex == nameToIndex[f.tag] && c.isRegex == f.isRegex && c.choices == f.oneOf && c.negate == f.negate
    && (f.isRegex ==> |c.regexs| == |f.oneOf| && forall i :: 0 <= i < |f.oneOf| ==> compile(f.oneOf[i]) == Some(c.regexs[i]))
  }

  /** tagFilter.test. */
  method TestTag(c: IndexedTagFilter, values: seq<string>, ghost nameToIndex: map<string, nat>, ghost compile: Compiler, ghost f: TagFilter) returns (pass: bool)
    requires CompiledTag(c, nameToIndex, compile, f) && Compiles(f, compile) && c.tagIndex < |values|
    ensures pass == TagPasses(f, compile, values[c.tagIndex])
  {
    var value := values[c.tagIndex];
    for i := 0 to |c.choices|
      invariant forall j :: 0 <= j < i ==> ChoiceMatches(f, compile, j, value) == f.negate
    {
      var matches: bool;
      if c.isRegex {
        matches := c.regexs[i](value);
      } else {
        matches := c.choices[i] == value;
      }
      assert matches == ChoiceMatches(f, compile, i, value);
      if c.negate {
        matches := !matches;
      }
      if matches {
        return true;
      }
    }
    pass := false;
  }

  ghost predicate CompiledQuantity(c: IndexedQuantityFilter, nameToIndex: map<string, nat>, f: QuantityFilter) {
    && f.quantity in nameToIndex && c.quantityIndex == nameToIndex[f.quantity] && c.threshold == f.threshold && KnownOperator(f.operator)
    && forall q: real :: Accepts(c, q) == QuantityPasses(f, q)
  }

  /** quantityFilter.test on the quantity itself. */
  predicate Accepts(c: IndexedQuantityFilter, q: real) {
    (c.acceptRight && q > c.threshold) || (c.acceptEqual && q == c.threshold) || (c.acceptLeft && q < c.threshold)
  }

  /** newQuantityFilter; fails on an unknown operator. */
  method NewQuantityFilter(nameToIndex: map<string, nat>, f: QuantityFilter) returns (r: Option<IndexedQuantityFilter>)
    requires f.quantity in nameToIndex
    ensures r.Some? <==> KnownOperator(f.operator)
    ensures r.Some? ==> CompiledQuantity(r.value, nameToIndex, f)
  {
    var index := nameToIndex[f.quantity];
    if f.operator == ">" {
      r := Some(IndexedQuantityFilter(index, f.threshold, false, false, true));
    } else if f.operator == "<" {
      r := Some(IndexedQuantityFilter(index, f.threshold, true, false, false));
    } else if f.operator == ">=" {
      r := Some(IndexedQuantityFilter(index, f.threshold, false, true, true));
    } else if f.operator == "<=" {
      r := Some(IndexedQuantityFilter(index, f.threshold, true, true, false));
    } else {
      r := None;
    }
  }

  // ---------- Quantifier positions ----------

  ghost predicate QuantifiersIndexed(reg: Registry, index: QuantifierIndex)
    requires Proper(reg)
  {
    forall name :: name in index.nameToIndex ==>
      name in reg.quantifierIndex && index.nameToIndex[name] < |index.quantifiers| && index.quantifiers[index.nameToIndex[name]] == QuantifierOf(reg, name)
  }

  /** indexQuantifiers; fails when a required quantifier does not exist. */
  method IndexQuantifiers(required: set<string>, reg: Registry) returns (index: Option<QuantifierIndex>)
    requires Proper(reg)
    ensures index.Some? <==> required <= reg.quantifierIndex.Keys
    ensures index.Some? ==> QuantifiersIndexed(reg, index.value) && index.value.nameToIndex.Keys == required
  {
    var quantifiers: seq<Quantifier> := [];
    var nameToIndex: map<string, nat> := map[];
    var todo := required;
    while todo != {}
      invariant todo <= required && nameToIndex.Keys == required - todo
      invariant QuantifiersIndexed(reg, QuantifierIndex(quantifiers, nameToIndex))
    {
      var name := Pick(todo);
      todo := todo - {name};
      if name !in reg.quantifierIndex {
        return None;
      }
      nameToIndex := nameToIndex[name := |quantifiers|];
      quantifiers := quantifiers + [reg.quantifiers[reg.quantifierIndex[name]]];
    }
    index := Some(QuantifierIndex(quantifiers, nameToIndex));
  }

  // ---------- Compiling a metric ----------

  predicate NamesTag(c: Metric, tag: string) {
    tag in c.tags || exists i :: 0 <= i < |c.tagFilters| && c.tagFilters[i].tag == tag
  }

  predicate NamesQuantifier(c: Metric, name: string) {
    name == c.quantifier || exists i :: 0 <= i < |c.quantityFilters| && c.quantityFilters[i].quantity == name
  }

  method InitTags(config: seq<Metric>) returns (required: set<string>)
    ensures forall tag :: tag in required <==> exists i :: 0 <= i < |config| && NamesTag(config[i], tag)
  {
    required := {};
    for i := 0 to |config|
      invariant forall tag :: tag in required <==> exists j :: 0 <= j < i && NamesTag(config[j], tag)
    {
      ghost var before := required;
      required := required + (set tag | tag in config[i].tags);
      for j := 0 to |config[i].tagFilters|
        invariant forall tag :: tag in required <==> tag in before || tag in config[i].tags || exists k :: 0 <= k < j && config[i].tagFilters[k].tag == tag
      {
        required := required + {config[i].tagFilters[j].tag};
      }
      assert forall tag :: tag in required <==> tag in before || NamesTag(config[i], tag);
    }
  }

  method InitQuantifiers(config: seq<Metric>) returns (required: set<string>)
    ensures forall name :: name in required <==> exists i :: 0 <= i < |config| && NamesQuantifier(config[i], name)
  {
    required := {};
    for i := 0 to |config|
      invariant forall name :: name in required <==> exists j :: 0 <= j < i && NamesQuantifier(config[j], name)
    {
      ghost var before := required;
      required := required + {config[i].quantifier};
      for j := 0 to |config[i].quantityFilters|
        invariant forall name :: name in required <==> name in before || name == config[i].quantifier || exists k :: 0 <= k < j && config[i].quantityFilters[k].quantity == name
      {
        required := required + {config[i].quantityFilters[j].quantity};
      }
      assert forall name :: name in required <==> name in before || NamesQuantifier(config[i], name);
    }
  }

  /** The names of a metric have positions. */
  ghost predicate Positioned(tags: map<string, nat>, quantifiers: map<string, nat>, c: Metric) {
    (forall tag :: NamesTag(c, tag) ==> tag in tags) && (forall name :: NamesQuantifier(c, name) ==> name in quantifiers)
  }

  ghost predicate TagFiltersCompiled(tags: map<string, nat>, compile: Compiler, compiled: seq<IndexedTagFilter>, filters: seq<TagFilter>) {
    |compiled| == |filters| && forall i :: 0 <= i < |filters| ==> Compiles(filters[i], compile) && CompiledTag(compiled[i], tags, compile, filters[i])
  }

  ghost predicate QuantityFiltersCompiled(quantifiers: map<string, nat>, compiled: seq<IndexedQuantityFilter>, filters: seq<QuantityFilter>) {
    |compiled| == |filters| && forall i :: 0 <= i < |filters| ==> CompiledQuantity(compiled[i], quantifiers, filters[i])
  }

  ghost predicate Compiled(tags: map<string, nat>, quantifiers: QuantifierIndex, compile: Compiler, h: MetricHandler, c: Metric) {
    && c.quantifier in quantifiers.nameToIndex && h.quantifierIndex == quantifiers.nameToIndex[c.quantifier] < |quantifiers.quantifiers|
    && h.name == c.name && h.kind == quantifiers.quantifiers[h.quantifierIndex].kind
    && |h.tagSet| == |c.tags| && (forall i :: 0 <= i < |c.tags| ==> c.tags[i] in tags && h.tagSet[i] == tags[c.tags[i]])
    && TagFiltersCompiled(tags, compile, h.tagFilters, c.tagFilters)
    && QuantityFiltersCompiled(quantifiers.nameToIndex, h.quantityFilters, c.quantityFilters)
  }

  method CompileTagFilters(tags: map<string, nat>, compile: Compiler, filters: seq<TagFilter>) returns (r: Option<seq<IndexedTagFilter>>)
    requires forall i :: 0 <= i < |filters| ==> filters[i].tag in tags
    ensures r.Some? <==> forall i :: 0 <= i < |filters| ==> Compiles(filters[i], compile)
    ensures r.Some? ==> TagFiltersCompiled(tags, compile, r.value, filters)
  {
    var compiled: seq<IndexedTagFilter> := [];
    for i := 0 to |filters|
      invariant |compiled| == i && forall j :: 0 <= j < i ==> Compiles(filters[j], compile) && CompiledTag(compiled[j], tags, compile, filters[j])
    {
      var filter := NewTagFilter(tags, compile, filters[i]);
      if filter.None? {
        return None;
      }
      compiled := compiled + [filter.value];
    }
    r := Some(compiled);
  }

  method CompileQuantityFilters(quantifiers: map<string, nat>, filters: seq<QuantityFilter>) returns (r: Option<seq<IndexedQuantityFilter>>)
    requires forall i :: 0 <= i < |filters| ==> filters[i].quantity in quantifiers
    ensures r.Some? <==> forall i :: 0 <= i < |filters| ==> KnownOperator(filters[i].operator)
    ensures r.Some? ==> QuantityFiltersCompiled(quantifiers, r.value, filters)
  {
    var compiled: seq<IndexedQuantityFilter> := [];
    for i := 0 to |filters|
      invariant |compiled| == i && forall j :: 0 <= j < i ==> CompiledQuantity(compiled[j], quantifiers, filters[j])
    {
      var filter := NewQuantityFilter(quantifiers, filters[i]);
      if filter.None? {
        return None;
      }
      compiled := compiled + [filter.value];
    }
    r := Some(compiled);
  }

  /** One round of the loop of PrepareTagsQuantifiers. */
  method CompileMetric(reg: Registry, tags: map<string, nat>, quantifiers: QuantifierIndex, compile: Compiler, c: Metric) returns (r: Option<MetricHandler>)
    requires Proper(reg) && Positioned(tags, quantifiers.nameToIndex, c) && QuantifiersIndexed(reg, quantifiers)
    requires forall tag :: NamesTag(c, tag) ==> tag in reg.tagIndex
    ensures r.Some? <==> Sound(reg, compile, c)
    ensures r.Some? ==> Compiled(tags, quantifiers, compile, r.value, c)
  {
    assert NamesQuantifier(c, c.quantifier);
    var quantifierIndex := quantifiers.nameToIndex[c.quantifier];
    var tagSet: seq<nat> := [];
    forall i | 0 <= i < |c.tags| ensures c.tags[i] in tags && c.tags[i] in reg.tagIndex {
      assert NamesTag(c, c.tags[i]);
    }
    for i := 0 to |c.tags|
      invariant |tagSet| == i && forall j :: 0 <= j < i ==> tagSet[j] == tags[c.tags[j]]
    {
      tagSet := tagSet + [tags[c.tags[i]]];
    }
    forall i | 0 <= i < |c.tagFilters| ensures c.tagFilters[i].tag in tags && c.tagFilters[i].tag in reg.tagIndex {
      assert NamesTag(c, c.tagFilters[i].tag);
    }
    forall i | 0 <= i < |c.quantityFilters| ensures c.quantityFilters[i].quantity in quantifiers.nameToIndex {
      assert NamesQuantifier(c, c.quantityFilters[i].quantity);
    }
    var tagFilters := CompileTagFilters(tags, compile, c.tagFilters);
    var quantityFilters := CompileQuantityFilters(quantifiers.nameToIndex, c.quantityFilters);
    if tagFilters.None? || quantityFilters.None? {
      return None;
    }
    r := Some(MetricHandler(quantifierIndex, tagFilters.value, quantityFilters.value, tagSet, c.name, quantifiers.quantifiers[quantifierIndex].kind));
  }

  // ---------- Handling a message ----------

  /** The quantities of a message by position. */
  predicate Quantified(quantifiers: seq<Quantifier>, m: Message, quantities: seq<real>, hasQuantities: seq<bool>) {
    && |quantities| == |quantifiers| == |hasQuantities|
    && forall i :: 0 <= i < |quantifiers| ==> (quantities[i], hasQuantities[i]) == quantifiers[i].quantify(m)
  }

  lemma {:induction false} ValueAt(reg: Registry, tags: TagProviderIndex, m: Message, values: seq<string>, name: string)
    requires Proper(reg) && Indexed(reg, tags) && Valued(reg, tags, m, values) && name in tags.nameToIndex
    ensures tags.nameToIndex[name] < |values| && name in reg.tagIndex && values[tags.nameToIndex[name]] == TagValue(reg, name, m)
  {
  }

  method TestTags(reg: Registry, tags: TagProviderIndex, ghost compile: Compiler, h: MetricHandler, ghost c: Metric, ghost m: Message, values: seq<string>) returns (pass: bool)
    requires Proper(reg) && Indexed(reg, tags) && Sound(reg, compile, c) && Valued(reg, tags, m, values)
    requires TagFiltersCompiled(tags.nameToIndex, compile, h.tagFilters, c.tagFilters)
    ensures pass == TagsPass(reg, compile, c, m)
  {
    hide Proper, Indexed, Valued, TagValue, CompiledTag, TagPasses;
    for i := 0 to |h.tagFilters|
      invariant forall j :: 0 <= j < i ==> TagPasses(c.tagFilters[j], compile, TagValue(reg, c.tagFilters[j].tag, m))
    {
      CompiledTagFacts(h.tagFilters[i], tags.nameToIndex, compile, c.tagFilters[i]);
      ValueAt(reg, tags, m, values, c.tagFilters[i].tag);
      var ok := TestTag(h.tagFilters[i], values, tags.nameToIndex, compile, c.tagFilters[i]);
      if !ok {
        return false;
      }
    }
    pass := true;
  }

  lemma {:induction false} CompiledTagFacts(compiled: IndexedTagFilter, nameToIndex: map<string, nat>, compile: Compiler, f: TagFilter)
    requires CompiledTag(compiled, nameToIndex, compile, f)
    ensures f.tag in nameToIndex && compiled.tagIndex == nameToIndex[f.tag]
  {
  }

  method TestQuantities(reg: Registry, quantifiers: QuantifierIndex, ghost compile: Compiler, h: MetricHandler, ghost c: Metric, ghost m: Message, quantities: seq<real>, ghost has: seq<bool>)
    returns (pass: bool)
    requires Proper(reg) && QuantifiersIndexed(reg, quantifiers) && Sound(reg, compile, c) && Quantified(quantifiers.quantifiers, m, quantities, has)
    requires QuantityFiltersCompiled(quantifiers.nameToIndex, h.quantityFilters, c.quantityFilters)
    ensures pass == QuantitiesPass(reg, compile, c, m)
  {
    for i := 0 to |h.quantityFilters|
      invariant forall j :: 0 <= j < i ==> QuantityPasses(c.quantityFilters[j], QuantifierOf(reg, c.quantityFilters[j].quantity).quantify(m).0)
    {
      assert CompiledQuantity(h.quantityFilters[i], quantifiers.nameToIndex, c.quantityFilters[i]);
      var q := quantities[h.quantityFilters[i].quantityIndex];
      assert q == QuantifierOf(reg, c.quantityFilters[i].quantity).quantify(m).0;
      if !Accepts(h.quantityFilters[i], q) {
        return false;
      }
    }
    pass := true;
  }

  /** metricHandler.handle: the points of one metric. */
  method Handle(reg: Registry, tags: TagProviderIndex, quantifiers: QuantifierIndex, ghost compile: Compiler, h: MetricHandler, ghost c: Metric, ghost m: Message,
                values: seq<string>, quantities: seq<real>, hasQuantities: seq<bool>)
    returns (points: seq<Point>)
    requires Proper(reg) && Indexed(reg, tags) && QuantifiersIndexed(reg, quantifiers) && Sound(reg, compile, c)
    requires Compiled(tags.nameToIndex, quantifiers, compile, h, c)
    requires Valued(reg, tags, m, values) && Quantified(quantifiers.quantifiers, m, quantities, hasQuantities)
    ensures points == MetricPoints(reg, compile, c, m)
  {
    hide Proper, Indexed, Valued, TagValue, TagsPass, QuantitiesPass, TagFiltersCompiled, QuantityFiltersCompiled;
    if !hasQuantities[h.quantifierIndex] {
      return [];
    }
    var tagsPass := TestTags(reg, tags, compile, h, c, m, values);
    if !tagsPass {
      return [];
    }
    var quantitiesPass := TestQuantities(reg, quantifiers, compile, h, c, m, quantities, hasQuantities);
    if !quantitiesPass {
      return [];
    }
    var outputTags := OutputTags(reg, tags, h.tagSet, c.tags, m, values);
    points := [Point(h.name, h.kind, quantities[h.quantifierIndex], outputTags)];
  }

  method OutputTags(reg: Registry, tags: TagProviderIndex, tagSet: seq<nat>, ghost names: seq<string>, ghost m: Message, values: seq<string>) returns (output: seq<string>)
    requires Proper(reg) && Indexed(reg, tags) && Valued(reg, tags, m, values)
    requires |tagSet| == |names| && forall i :: 0 <= i < |names| ==> names[i] in tags.nameToIndex && names[i] in reg.tagIndex && tagSet[i] == tags.nameToIndex[names[i]]
    ensures output == TagValues(reg, names, m)
  {
    hide Proper, Indexed, Valued, TagValue;
    output := [];
    for i := 0 to |tagSet|
      invariant |output| == i && forall j :: 0 <= j < i ==> output[j] == TagValue(reg, names[j], m)
    {
      ValueAt(reg, tags, m, values, names[i]);
      output := output + [values[tagSet[i]]];
    }
  }

  lemma {:induction false} SoundPositioned(reg: Registry, compile: Compiler, c: Metric, name: string)
    requires Sound(reg, compile, c)
    ensures (NamesTag(c, name) ==> name in reg.tagIndex) && (NamesQuantifier(c, name) ==> name in reg.quantifierIndex)
  {
  }

  ghost predicate AllCompiled(tags: map<string, nat>, quantifiers: QuantifierIndex, compile: Compiler, handlers: seq<MetricHandler>, config: seq<Metric>) {
    |handlers| == |config| && forall i :: 0 <= i < |config| ==> Compiled(tags, quantifiers, compile, handlers[i], config[i])
  }

  ghost predicate AllSound(reg: Registry, compile: Compiler, config: seq<Metric>) {
    forall i :: 0 <= i < |config| ==> Sound(reg, compile, config[i])
  }

  class Consumer {
    const registry: Registry
    const compile: Compiler
    var tags: TagProviderIndex
    var quantifiers: QuantifierIndex
    var handlers: seq<MetricHandler>

    constructor (registry: Registry, compile: Compiler)
      ensures this.registry == registry && this.compile == compile
    {
      this.registry, this.compile := registry, compile;
      tags, quantifiers, handlers := TagProviderIndex([], map[], []), QuantifierIndex([], map[]), [];
    }

    ghost predicate Valid(config: seq<Metric>)
      reads this
    {
      && Proper(registry) && AllSound(registry, compile, config)
      && Indexed(registry, tags) && QuantifiersIndexed(registry, quantifiers)
      && AllCompiled(tags.nameToIndex, quantifiers, compile, handlers, config)
    }

    /** PrepareTagsQuantifiers: succeeds exactly when every metric is sound. */
    method PrepareTagsQuantifiers(config: seq<Metric>) returns (ok: bool)
      requires Proper(registry)
      modifies this
      ensures ok <==> AllSound(registry, compile, config)
      ensures ok ==> Valid(config)
    {
      hide Proper, UniqueTags, Indexed, QuantifiersIndexed, Compiled, Sound, NamesTag, NamesQuantifier;
      var requiredTags := InitTags(config);
      var requiredQuantifiers := InitQuantifiers(config);
      RequiredKnown(registry, compile, config, requiredTags, requiredQuantifiers);
      var tagIndex := IndexTagProviders(requiredTags, registry);
      if tagIndex.None? {
        return false;
      }
      var quantifierIndex := IndexQuantifiers(requiredQuantifiers, registry);
      if quantifierIndex.None? {
        return false;
      }
      var compiled: seq<MetricHandler> := [];
      for i := 0 to |config|
        invariant |compiled| == i && forall j :: 0 <= j < i ==> Sound(registry, compile, config[j]) && Compiled(tagIndex.value.nameToIndex, quantifierIndex.value, compile, compiled[j], config[j])
      {
        assert Positioned(tagIndex.value.nameToIndex, quantifierIndex.value.nameToIndex, config[i]);
        assert forall tag :: NamesTag(config[i], tag) ==> tag in registry.tagIndex;
        var handler := CompileMetric(registry, tagIndex.value.nameToIndex, quantifierIndex.value, compile, config[i]);
        if handler.None? {
          return false;
        }
        compiled := compiled + [handler.value];
      }
      tags, quantifiers, handlers := tagIndex.value, quantifierIndex.value, compiled;
      ok := true;
    }

    /** HandleMessage: with unique tag names, the points emitted are those that the configuration means. */
    method HandleMessage(m: Message, ghost config: seq<Metric>) returns (points: seq<Point>)
      requires Valid(config) && UniqueTags(registry)
      ensures points == Points(registry, compile, config, m)
    {
      hide Proper, UniqueTags, QuantifiersIndexed, Compiled, Sound, MetricPoints, Layout;
      var values := ProvideValues(registry, tags, m);
      var tagValues := values[..];
      var quantities, hasQuantities := Quantify(m);
      points := [];
      for i := 0 to |handlers|
        invariant points == Points(registry, compile, config[..i], m)
      {
        var more := Handle(registry, tags, quantifiers, compile, handlers[i], config[i], m, tagValues, quantities, hasQuantities);
        assert config[..i + 1][..i] == config[..i];
        points := points + more;
      }
      assert config[..|config|] == config;
    }

    method Quantify(m: Message) returns (quantities: seq<real>, hasQuantities: seq<bool>)
      ensures Quantified(quantifiers.quantifiers, m, quantities, hasQuantities)
    {
      quantities, hasQuantities := [], [];
      for i := 0 to |quantifiers.quantifiers|
        invariant |quantities| == |hasQuantities| == i
        invariant forall j :: 0 <= j < i ==> (quantities[j], hasQuantities[j]) == quantifiers.quantifiers[j].quantify(m)
      {
        var (quantity, ok) := quantifiers.quantifiers[i].quantify(m);
        quantities, hasQuantities := quantities + [quantity], hasQuantities + [ok];
      }
    }
  }

  lemma {:induction false} RequiredKnown(reg: Registry, compile: Compiler, config: seq<Metric>, tags: set<string>, quantifiers: set<string>)
    requires forall tag :: tag in tags <==> exists i :: 0 <= i < |config| && NamesTag(config[i], tag)
    requires forall name :: name in quantifiers <==> exists i :: 0 <= i < |config| && NamesQuantifier(config[i], name)
    ensures AllSound(reg, compile, config) ==> tags <= reg.tagIndex.Keys && quantifiers <= reg.quantifierIndex.Keys
  {
    if AllSound(reg, compile, config) {
      forall tag | tag in tags ensures tag in reg.tagIndex {
        var i :| 0 <= i < |config| && NamesTag(config[i], tag);
        SoundPositioned(reg, compile, config[i], tag);
      }
      forall name | name in quantifiers ensures name in reg.quantifierIndex {
        var i :| 0 <= i < |config| && NamesQuantifier(config[i], name);
        SoundPositioned(reg, compile, config[i], name);
      }
    }
  }
}
