/** Kelemetrix configurations and what they mean: the metric points of a message, evaluated by name. */
module KelemetrixConfig {
  import opened Wrappers

  /** An audit message; only tag providers and quantifiers look into it. */
  datatype Message = Message(raw: string)

  datatype TagProvider = TagProvider(names: seq<string>, provide: Message -> seq<string>)

  datatype MetricType = Count | Histogram | Summary

  /** quantify gives a quantity and whether there is one. */
  datatype Quantifier = Quantifier(name: string, kind: MetricType, quantify: Message -> (real, bool))

  datatype Registry = Registry(tagProviders: seq<TagProvider>, tagIndex: map<string, nat>, quantifiers: seq<Quantifier>, quantifierIndex: map<string, nat>)

  datatype TagFilter = TagFilter(tag: string, oneOf: seq<string>, isRegex: bool, negate: bool)

  datatype QuantityFilter = QuantityFilter(quantity: string, operator: string, threshold: real)

  datatype Metric = Metric(name: string, quantifier: string, tags: seq<string>, tagFilters: seq<TagFilter>, quantityFilters: seq<QuantityFilter>)

  /** A value passed to the metrics client. */
  datatype Point = Point(metric: string, kind: MetricType, quantity: real, tags: seq<string>)

  /** regexp.Compile: the matcher of a pattern, if it is one. */
  type Compiler = string -> Option<string -> bool>

  // ---------- The registry ----------

  function NamesIndexed(index: map<string, nat>, names: seq<string>, provider: nat): map<string, nat> {
    if names == [] then index else NamesIndexed(index, names[..|names| - 1], provider)[names[|names| - 1] := provider]
  }

  /** addTagProvider: later providers take over the names they share with earlier ones. */
  method AddTagProvider(reg: Registry, provider: TagProvider) returns (reg': Registry)
    ensures reg' == reg.(tagProviders := reg.tagProviders + [provider], tagIndex := NamesIndexed(reg.tagIndex, provider.names, |reg.tagProviders|))
  {
    var index := reg.tagIndex;
    for i := 0 to |provider.names|
      invariant index == NamesIndexed(reg.tagIndex, provider.names[..i], |reg.tagProviders|)
    {
      assert provider.names[..i + 1][..i] == provider.names[..i];
      index := index[provider.names[i] := |reg.tagProviders|];
    }
    assert provider.names[..|provider.names|] == provider.names;
    reg' := reg.(tagProviders := reg.tagProviders + [provider], tagIndex := index);
  }

  lemma {:induction false} NamesIndexedAt(index: map<string, nat>, names: seq<string>, provider: nat, name: string)
    ensures name in NamesIndexed(index, names, provider) <==> name in index || name in names
    ensures name in names ==> NamesIndexed(index, names, provider)[name] == provider
    ensures name !in names && name in index ==> NamesIndexed(index, names, provider)[name] == index[name]
  {
    if names != [] {
      var n := |names| - 1;
      NamesIndexedAt(index, names[..n], provider, name);
      assert names == names[..n] + [names[n]];
    }
  }

  /** The position of a tag: provider p has it at place i. */
  predicate TagAt(reg: Registry, name: string, p: nat, i: nat) {
    p < |reg.tagProviders| && i < |reg.tagProviders[p].names| && reg.tagProviders[p].names[i] == name
  }

  /** Tag names are globally unique. */
  ghost predicate UniqueTags(reg: Registry) {
    forall name, p, i, q, j :: TagAt(reg, name, p, i) && TagAt(reg, name, q, j) ==> p == q && i == j
  }

  /** The indexes lead to what has the name; every provider fills as many values as it has names. */
  ghost predicate Proper(reg: Registry) {
    && (forall name :: name in reg.tagIndex <==> exists p, i :: TagAt(reg, name, p, i))
    && (forall name :: name in reg.tagIndex ==> exists i :: TagAt(reg, name, reg.tagIndex[name], i))
    && (forall name :: name in reg.quantifierIndex ==> reg.quantifierIndex[name] < |reg.quantifiers|)
    && (forall p, m :: 0 <= p < |reg.tagProviders| ==> |reg.tagProviders[p].provide(m)| == |reg.tagProviders[p].names|)
  }

  lemma {:induction false} AddKeepsProper(reg: Registry, provider: TagProvider)
    requires Proper(reg) && forall m :: |provider.provide(m)| == |provider.names|
    ensures Proper(reg.(tagProviders := reg.tagProviders + [provider], tagIndex := NamesIndexed(reg.tagIndex, provider.names, |reg.tagProviders|)))
  {
    var n := |reg.tagProviders|;
    var reg' := reg.(tagProviders := reg.tagProviders + [provider], tagIndex := NamesIndexed(reg.tagIndex, provider.names, n));
    assert forall name, p: nat, i: nat :: p < n ==> (TagAt(reg', name, p, i) <==> TagAt(reg, name, p, i));
    forall name ensures name in reg'.tagIndex <==> exists p, i :: TagAt(reg', name, p, i) {
      NamesIndexedAt(reg.tagIndex, provider.names, n, name);
      if name in provider.names {
        var i :| 0 <= i < |provider.names| && provider.names[i] == name;
        assert TagAt(reg', name, n, i);
      } else if name in reg.tagIndex {
        var p, i :| TagAt(reg, name, p, i);
        assert TagAt(reg', name, p, i);
      }
    }
    forall name | name in reg'.tagIndex ensures exists i :: TagAt(reg', name, reg'.tagIndex[name], i) {
      NamesIndexedAt(reg.tagIndex, provider.names, n, name);
      if name in provider.names {
        var i :| 0 <= i < |provider.names| && provider.names[i] == name;
        assert TagAt(reg', name, n, i);
      } else {
        var i :| TagAt(reg, name, reg.tagIndex[name], i);
        assert TagAt(reg', name, reg.tagIndex[name], i);
      }
    }
  }

  // ---------- Evaluation by name ----------

  /** The value a message has for a tag. */
  ghost function TagValue(reg: Registry, name: string, m: Message): string
    requires Proper(reg) && name in reg.tagIndex
  {
    var i: nat :| TagAt(reg, name, reg.tagIndex[name], i);
    reg.tagProviders[reg.tagIndex[name]].provide(m)[i]
  }

  lemma {:induction false} TagValueAt(reg: Registry, name: string, m: Message, p: nat, i: nat)
    requires Proper(reg) && UniqueTags(reg) && TagAt(reg, name, p, i)
    ensures name in reg.tagIndex && TagValue(reg, name, m) == reg.tagProviders[p].provide(m)[i]
  {
    var j: nat :| TagAt(reg, name, reg.tagIndex[name], j) && TagValue(reg, name, m) == reg.tagProviders[reg.tagIndex[name]].provide(m)[j];
  }

  function QuantifierOf(reg: Registry, name: string): Quantifier
    requires name in reg.quantifierIndex && reg.quantifierIndex[name] < |reg.quantifiers|
  {
    reg.quantifiers[reg.quantifierIndex[name]]
  }

  predicate Compiles(f: TagFilter, compile: Compiler) {
    f.isRegex ==> forall i :: 0 <= i < |f.oneOf| ==> compile(f.oneOf[i]).Some?
  }

  predicate ChoiceMatches(f: TagFilter, compile: Compiler, i: nat, value: string)
    requires Compiles(f, compile) && i < |f.oneOf|
  {
    if f.isRegex then compile(f.oneOf[i]).value(value) else f.oneOf[i] == value
  }

  /** Some choice matches; a negated filter passes when some choice does not. */
  predicate TagPasses(f: TagFilter, compile: Compiler, value: string)
    requires Compiles(f, compile)
  {
    exists i :: 0 <= i < |f.oneOf| && ChoiceMatches(f, compile, i, value) != f.negate
  }

  predicate MatchesNone(f: TagFilter, compile: Compiler, value: string)
    requires Compiles(f, compile)
  {
    forall i :: 0 <= i < |f.oneOf| ==> !ChoiceMatches(f, compile, i, value)
  }

  /** Two choices of a filter match the same values. */
  ghost predicate SameMatches(f: TagFilter, compile: Compiler, i: nat, j: nat)
    requires Compiles(f, compile) && i < |f.oneOf| && j < |f.oneOf|
  {
    forall value :: ChoiceMatches(f, compile, i, value) <==> ChoiceMatches(f, compile, j, value)
  }

  /**
   A negated filter, of patterns or not, means "none of" exactly when there is a choice and all choices match the same values;
   where two choices differ it also passes a value that one of them matches, and with no choice it passes nothing.
   */
  lemma {:induction false} NegatedIsNoneOfIff(f: TagFilter, compile: Compiler)
    requires f.negate && Compiles(f, compile)
    ensures (forall value :: TagPasses(f, compile, value) <==> MatchesNone(f, compile, value))
            <==> f.oneOf != [] && forall i :: 0 <= i < |f.oneOf| ==> SameMatches(f, compile, i, 0)
  {
    if f.oneOf == [] {
      assert !TagPasses(f, compile, "") && MatchesNone(f, compile, "");
    } else if i :| 0 <= i < |f.oneOf| && !SameMatches(f, compile, i, 0) {
      var value :| ChoiceMatches(f, compile, i, value) != ChoiceMatches(f, compile, 0, value);
      assert TagPasses(f, compile, value) && !MatchesNone(f, compile, value);
    } else {
      forall value ensures TagPasses(f, compile, value) <==> MatchesNone(f, compile, value) {
        forall i | 0 <= i < |f.oneOf| ensures ChoiceMatches(f, compile, i, value) == ChoiceMatches(f, compile, 0, value) {
          assert SameMatches(f, compile, i, 0);
        }
        if MatchesNone(f, compile, value) {
          assert ChoiceMatches(f, compile, 0, value) != f.negate;
        }
      }
    }
  }

  /** Strings that are not patterns match the same values only when they are the same. */
  lemma {:induction false} LiteralsMatchAlike(f: TagFilter, compile: Compiler, i: nat, j: nat)
    requires !f.isRegex && i < |f.oneOf| && j < |f.oneOf|
    ensures SameMatches(f, compile, i, j) <==> f.oneOf[i] == f.oneOf[j]
  {
    assert ChoiceMatches(f, compile, i, f.oneOf[i]);
  }

  predicate KnownOperator(op: string) {
    op == ">" || op == "<" || op == ">=" || op == "<="
  }

  predicate QuantityPasses(f: QuantityFilter, q: real)
    requires KnownOperator(f.operator)
  {
    if f.operator == ">" then q > f.threshold
    else if f.operator == "<" then q < f.threshold
    else if f.operator == ">=" then q >= f.threshold
    else q <= f.threshold
  }

  /** Everything a metric names exists, its patterns compile and its operators are known. */
  predicate Sound(reg: Registry, compile: Compiler, c: Metric) {
    && c.quantifier in reg.quantifierIndex
    && (forall i :: 0 <= i < |c.tags| ==> c.tags[i] in reg.tagIndex)
    && (forall i :: 0 <= i < |c.tagFilters| ==> c.tagFilters[i].tag in reg.tagIndex && Compiles(c.tagFilters[i], compile))
    && (forall i :: 0 <= i < |c.quantityFilters| ==> c.quantityFilters[i].quantity in reg.quantifierIndex && KnownOperator(c.quantityFilters[i].operator))
  }

  ghost predicate TagsPass(reg: Registry, compile: Compiler, c: Metric, m: Message)
    requires Proper(reg) && Sound(reg, compile, c)
  {
    forall i :: 0 <= i < |c.tagFilters| ==> TagPasses(c.tagFilters[i], compile, TagValue(reg, c.tagFilters[i].tag, m))
  }

  ghost predicate QuantitiesPass(reg: Registry, compile: Compiler, c: Metric, m: Message)
    requires Proper(reg) && Sound(reg, compile, c)
  {
    forall i :: 0 <= i < |c.quantityFilters| ==> QuantityPasses(c.quantityFilters[i], QuantifierOf(reg, c.quantityFilters[i].quantity).quantify(m).0)
  }

  ghost function TagValues(reg: Registry, names: seq<string>, m: Message): seq<string>
    requires Proper(reg) && forall i :: 0 <= i < |names| ==> names[i] in reg.tagIndex
  {
    seq(|names|, i requires 0 <= i < |names| => TagValue(reg, names[i], m))
  }

  /** The points that one metric makes of a message: one or none. */
  ghost function MetricPoints(reg: Registry, compile: Compiler, c: Metric, m: Message): seq<Point>
    requires Proper(reg) && Sound(reg, compile, c)
  {
    var q := QuantifierOf(reg, c.quantifier);
    if q.quantify(m).1 && TagsPass(reg, compile, c, m) && QuantitiesPass(reg, compile, c, m)
    then [Point(c.name, q.kind, q.quantify(m).0, TagValues(reg, c.tags, m))]
    else []
  }

  /** The points that a configuration makes of a message. */
  ghost function Points(reg: Registry, compile: Compiler, config: seq<Metric>, m: Message): seq<Point>
    requires Proper(reg) && forall i :: 0 <= i < |config| ==> Sound(reg, compile, config[i])
  {
    if config == [] then [] else Points(reg, compile, config[..|config| - 1], m) + MetricPoints(reg, compile, config[|config| - 1], m)
  }

  // ---------- When a point is emitted ----------

  /** The value of a tag: what some provider that has a tag of the name gives for it. */
  ghost predicate HasTag(reg: Registry, m: Message, name: string, value: string) {
    exists p: nat, i: nat :: ProvidesTag(reg, m, name, value, p, i)
  }

  predicate ProvidesTag(reg: Registry, m: Message, name: string, value: string, p: nat, i: nat) {
    && p < |reg.tagProviders| && i < |reg.tagProviders[p].names| && reg.tagProviders[p].names[i] == name
    && i < |reg.tagProviders[p].provide(m)| && reg.tagProviders[p].provide(m)[i] == value
  }

  lemma {:induction false} TagValueIff(reg: Registry, m: Message, name: string, value: string)
    requires Proper(reg) && UniqueTags(reg) && name in reg.tagIndex
    ensures HasTag(reg, m, name, value) <==> TagValue(reg, name, m) == value
  {
    if HasTag(reg, m, name, value) {
      var p: nat, i: nat :| ProvidesTag(reg, m, name, value, p, i);
      assert TagAt(reg, name, p, i);
      TagValueAt(reg, name, m, p, i);
    }
    if TagValue(reg, name, m) == value {
      var i: nat :| TagAt(reg, name, reg.tagIndex[name], i);
      TagValueAt(reg, name, m, reg.tagIndex[name], i);
      assert ProvidesTag(reg, m, name, value, reg.tagIndex[name], i);
    }
  }

  /** A choice of a filter, a string or a pattern, fits the value. */
  predicate Fits(f: TagFilter, compile: Compiler, choice: string, value: string) {
    if f.isRegex then compile(choice).Some? && compile(choice).value(value) else choice == value
  }

  /** The filter lets the value through: one of its choices fits, or, for a negated filter, one of them does not. */
  ghost predicate LetsThrough(f: TagFilter, compile: Compiler, value: string) {
    if f.negate then exists choice :: choice in f.oneOf && !Fits(f, compile, choice, value)
    else exists choice :: choice in f.oneOf && Fits(f, compile, choice, value)
  }

  lemma {:induction false} TagPassesIff(f: TagFilter, compile: Compiler, value: string)
    requires Compiles(f, compile)
    ensures TagPasses(f, compile, value) <==> LetsThrough(f, compile, value)
  {
    if TagPasses(f, compile, value) {
      var i :| 0 <= i < |f.oneOf| && ChoiceMatches(f, compile, i, value) != f.negate;
      assert f.oneOf[i] in f.oneOf && (Fits(f, compile, f.oneOf[i], value) <==> ChoiceMatches(f, compile, i, value));
    }
    if LetsThrough(f, compile, value) {
      var choice :| choice in f.oneOf && Fits(f, compile, choice, value) != f.negate;
      var i :| 0 <= i < |f.oneOf| && f.oneOf[i] == choice;
      assert ChoiceMatches(f, compile, i, value) != f.negate;
    }
  }

  /** The quantity is on the right side of the threshold; the threshold itself is let through by two of the operators. */
  predicate OnSide(operator: string, threshold: real, q: real) {
    && (operator == ">" ==> q - threshold > 0.0) && (operator == ">=" ==> q - threshold > 0.0 || q == threshold)
    && (operator == "<" ==> threshold - q > 0.0) && (operator == "<=" ==> threshold - q > 0.0 || q == threshold)
  }

  lemma {:induction false} QuantityPassesIff(f: QuantityFilter, q: real)
    requires KnownOperator(f.operator)
    ensures QuantityPasses(f, q) <==> OnSide(f.operator, f.threshold, q)
  {
  }

  /** The quantity that a registered quantifier gives, and whether it gives one. */
  predicate Gives(reg: Registry, m: Message, name: string, kind: MetricType, quantity: real, present: bool) {
    && name in reg.quantifierIndex && reg.quantifierIndex[name] < |reg.quantifiers|
    && reg.quantifiers[reg.quantifierIndex[name]].kind == kind
    && reg.quantifiers[reg.quantifierIndex[name]].quantify(m) == (quantity, present)
  }

  /**
   A metric is to emit this point: under its name and kind, with the quantity it has and its tags in their order, when the quantity is
   there and every filter lets its tag or quantity through.
   */
  ghost predicate ToEmit(reg: Registry, compile: Compiler, c: Metric, m: Message, point: Point) {
    && point.metric == c.name && Gives(reg, m, c.quantifier, point.kind, point.quantity, true)
    && |point.tags| == |c.tags| && (forall i :: 0 <= i < |c.tags| ==> HasTag(reg, m, c.tags[i], point.tags[i]))
    && (forall f, value :: f in c.tagFilters && HasTag(reg, m, f.tag, value) ==> LetsThrough(f, compile, value))
    && (forall f, kind, q, present :: f in c.quantityFilters && Gives(reg, m, f.quantity, kind, q, present) ==> OnSide(f.operator, f.threshold, q))
  }

  lemma {:induction false} TagsPassIff(reg: Registry, compile: Compiler, c: Metric, m: Message)
    requires Proper(reg) && UniqueTags(reg) && Sound(reg, compile, c)
    ensures TagsPass(reg, compile, c, m) <==> forall f, value :: f in c.tagFilters && HasTag(reg, m, f.tag, value) ==> LetsThrough(f, compile, value)
  {
    hide Proper, UniqueTags, TagPasses, LetsThrough, HasTag, TagValue;
    forall i | 0 <= i < |c.tagFilters|
      ensures HasTag(reg, m, c.tagFilters[i].tag, TagValue(reg, c.tagFilters[i].tag, m))
      ensures TagPasses(c.tagFilters[i], compile, TagValue(reg, c.tagFilters[i].tag, m)) <==> LetsThrough(c.tagFilters[i], compile, TagValue(reg, c.tagFilters[i].tag, m))
    {
      TagValueIff(reg, m, c.tagFilters[i].tag, TagValue(reg, c.tagFilters[i].tag, m));
      TagPassesIff(c.tagFilters[i], compile, TagValue(reg, c.tagFilters[i].tag, m));
    }
    forall f, value | f in c.tagFilters && HasTag(reg, m, f.tag, value) ensures value == TagValue(reg, f.tag, m) {
      TagValueIff(reg, m, f.tag, value);
    }
  }

  lemma {:induction false} QuantitiesPassIff(reg: Registry, compile: Compiler, c: Metric, m: Message)
    requires Proper(reg) && Sound(reg, compile, c)
    ensures QuantitiesPass(reg, compile, c, m) <==>
            forall f, kind, q, present :: f in c.quantityFilters && Gives(reg, m, f.quantity, kind, q, present) ==> OnSide(f.operator, f.threshold, q)
  {
    hide QuantityPasses, OnSide;
    forall i | 0 <= i < |c.quantityFilters|
      ensures var f, of := c.quantityFilters[i], QuantifierOf(reg, c.quantityFilters[i].quantity);
              && Gives(reg, m, f.quantity, of.kind, of.quantify(m).0, of.quantify(m).1)
              && (QuantityPasses(f, of.quantify(m).0) <==> OnSide(f.operator, f.threshold, of.quantify(m).0))
    {
      QuantityPassesIff(c.quantityFilters[i], QuantifierOf(reg, c.quantityFilters[i].quantity).quantify(m).0);
    }
  }

  /** A metric emits at most one point, and exactly the one it is to emit. */
  lemma {:induction false} EmittedIff(reg: Registry, compile: Compiler, c: Metric, m: Message, point: Point)
    requires Proper(reg) && UniqueTags(reg) && Sound(reg, compile, c)
    ensures MetricPoints(reg, compile, c, m) == [point] <==> ToEmit(reg, compile, c, m, point)
    ensures |MetricPoints(reg, compile, c, m)| <= 1
  {
    TagsPassIff(reg, compile, c, m);
    QuantitiesPassIff(reg, compile, c, m);
    hide TagsPass, QuantitiesPass, LetsThrough, OnSide, UniqueTags, HasTag;
    TagsAre(reg, compile, c, m, point.tags);
  }

  lemma {:induction false} TagsAre(reg: Registry, compile: Compiler, c: Metric, m: Message, tags: seq<string>)
    requires Proper(reg) && UniqueTags(reg) && Sound(reg, compile, c)
    ensures tags == TagValues(reg, c.tags, m) <==> |tags| == |c.tags| && forall i :: 0 <= i < |c.tags| ==> HasTag(reg, m, c.tags[i], tags[i])
  {
    hide HasTag, TagValue, UniqueTags;
    forall i | 0 <= i < |c.tags| && i < |tags| ensures HasTag(reg, m, c.tags[i], tags[i]) <==> TagValue(reg, c.tags[i], m) == tags[i] {
      TagValueIff(reg, m, c.tags[i], tags[i]);
    }
  }

  /** A message makes the points of all metrics, one after the other in the order of the configuration. */
  lemma {:induction false} PointsInOrder(reg: Registry, compile: Compiler, first: seq<Metric>, c: Metric, m: Message)
    requires Proper(reg) && Sound(reg, compile, c) && forall i :: 0 <= i < |first| ==> Sound(reg, compile, first[i])
    ensures Points(reg, compile, [], m) == [] && Points(reg, compile, first + [c], m) == Points(reg, compile, first, m) + MetricPoints(reg, compile, c, m)
  {
    hide MetricPoints, Sound, Proper;
    assert (first + [c])[..|first|] == first;
  }
}
