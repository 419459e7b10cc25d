/** Display-mode configurations: every base configuration under every compatible choice of modifiers. */
module ConfigClosure {
  import opened Wrappers
  import opened MapOrder

  /** A configuration id, as the set of the bits that are one; the bitwise "or" of two ids is their union. */
  type Id = set<nat>

  /** A configuration of the file; steps stands for the steps it is given. */
  datatype Base = Base(id: Id, name: string, steps: string)

  datatype Modifier = Modifier(bitmask: Id, displayName: string, class_: string)

  /** A name: the name of the base and the display names of the modifiers. */
  datatype Name = Name(base: string, modifiers: set<string>)

  /** A configuration; applied stands for what the modifiers have done to it, in that order. */
  datatype Config = Config(id: Id, name: Name, steps: string, applied: seq<Modifier>)

  datatype Registered = Registered(config: Config, modifierClasses: set<string>)

  /** The bits of a choice of modifiers. */
  function Bits(applied: seq<Modifier>): Id {
    if applied == [] then {} else Bits(applied[..|applied| - 1]) + applied[|applied| - 1].bitmask
  }

  function DisplayNames(applied: seq<Modifier>): set<string> {
    set i | 0 <= i < |applied| :: applied[i].displayName
  }

  function Classes(applied: seq<Modifier>): set<string> {
    set i | 0 <= i < |applied| :: applied[i].class_
  }

  /** Chosen from ms, in the order of ms. */
  predicate Chosen(applied: seq<Modifier>, ms: seq<Modifier>) {
    if ms == [] then applied == [] else
      var n := |ms| - 1;
      Chosen(applied, ms[..n]) || (applied != [] && applied[|applied| - 1] == ms[n] && Chosen(applied[..|applied| - 1], ms[..n]))
  }

  predicate Compatible(applied: seq<Modifier>) {
    forall i, j :: 0 <= i < j < |applied| ==> applied[i].class_ != applied[j].class_
  }

  function Entry(b: Base, applied: seq<Modifier>): Registered {
    Registered(Config(b.id + Bits(applied), Name(b.name, DisplayNames(applied)), b.steps, applied), Classes(applied))
  }

  /** Bitmasks are not zero, and disjoint from one another and from the ids of the bases; base ids are distinct. */
  ghost predicate Independent(bases: seq<Base>, ms: seq<Modifier>) {
    && (forall i :: 0 <= i < |ms| ==> ms[i].bitmask != {})
    && (forall i, j :: 0 <= i < j < |ms| ==> ms[i].bitmask !! ms[j].bitmask)
    && (forall i, b :: 0 <= i < |ms| && b in bases ==> ms[i].bitmask !! b.id)
    && (forall i, j :: 0 <= i < j < |bases| ==> bases[i].id != bases[j].id)
  }

  lemma {:induction false} ChosenBits(applied: seq<Modifier>, ms: seq<Modifier>, x: nat)
    requires Chosen(applied, ms) && x in Bits(applied)
    ensures exists i :: 0 <= i < |ms| && x in ms[i].bitmask
  {
    var n := |ms| - 1;
    if Chosen(applied, ms[..n]) {
      ChosenBits(applied, ms[..n], x);
      var i :| 0 <= i < |ms[..n]| && x in ms[..n][i].bitmask;
      assert x in ms[i].bitmask;
    } else if x in Bits(applied[..|applied| - 1]) {
      ChosenBits(applied[..|applied| - 1], ms[..n], x);
      var i :| 0 <= i < |ms[..n]| && x in ms[..n][i].bitmask;
      assert x in ms[i].bitmask;
    }
  }

  lemma {:induction false} IndependentPart(bases: seq<Base>, ms: seq<Modifier>, n: nat)
    requires Independent(bases, ms) && n <= |ms|
    ensures Independent(bases, ms[..n])
  {
  }

  /** A choice from the modifiers before the last one has none of the last one's bits. */
  lemma {:induction false} LastBitsNew(bases: seq<Base>, ms: seq<Modifier>, b: Base, applied: seq<Modifier>)
    requires Independent(bases, ms) && ms != [] && b in bases && Chosen(applied, ms[..|ms| - 1])
    ensures (b.id + Bits(applied)) !! ms[|ms| - 1].bitmask
  {
    var n := |ms| - 1;
    forall x | x in Bits(applied) ensures x !in ms[n].bitmask {
      ChosenBits(applied, ms[..n], x);
      var i :| 0 <= i < |ms[..n]| && x in ms[..n][i].bitmask;
      assert ms[i].bitmask !! ms[n].bitmask;
    }
  }

  lemma {:induction false} SplitChoice(bases: seq<Base>, ms: seq<Modifier>, b: Base, applied: seq<Modifier>)
    requires Independent(bases, ms) && ms != [] && b in bases && Chosen(applied, ms)
    ensures var n := |ms| - 1;
            if (b.id + Bits(applied)) * ms[n].bitmask == {} then Chosen(applied, ms[..n])
            else applied != [] && applied[|applied| - 1] == ms[n] && Chosen(applied[..|applied| - 1], ms[..n])
                 && b.id + Bits(applied[..|applied| - 1]) == (b.id + Bits(applied)) - ms[n].bitmask
  {
    var n := |ms| - 1;
    if Chosen(applied, ms[..n]) {
      LastBitsNew(bases, ms, b, applied);
    } else {
      LastBitsNew(bases, ms, b, applied[..|applied| - 1]);
      assert ms[n].bitmask <= b.id + Bits(applied);
      assert (b.id + Bits(applied)) * ms[n].bitmask == ms[n].bitmask;
    }
  }

  /** The id of a configuration tells its base and its modifiers. */
  lemma {:induction false} IdsDistinct(bases: seq<Base>, ms: seq<Modifier>, b: Base, applied: seq<Modifier>, c: Base, other: seq<Modifier>)
    requires Independent(bases, ms) && b in bases && c in bases && Chosen(applied, ms) && Chosen(other, ms)
    requires b.id + Bits(applied) == c.id + Bits(other)
    ensures b == c && applied == other
  {
    if ms == [] {
      assert b.id + {} == b.id && c.id + {} == c.id;
    } else {
      var n := |ms| - 1;
      IndependentPart(bases, ms, n);
      SplitChoice(bases, ms, b, applied);
      SplitChoice(bases, ms, c, other);
      if (b.id + Bits(applied)) * ms[n].bitmask == {} {
        IdsDistinct(bases, ms[..n], b, applied, c, other);
      } else {
        IdsDistinct(bases, ms[..n], b, applied[..|applied| - 1], c, other[..|other| - 1]);
        assert applied == applied[..|applied| - 1] + [ms[n]] && other == other[..|other| - 1] + [ms[n]];
      }
    }
  }

  /** A base and modifiers with distinct classes. */
  ghost predicate Choice(bases: seq<Base>, ms: seq<Modifier>, b: Base, applied: seq<Modifier>) {
    b in bases && Chosen(applied, ms) && Compatible(applied)
  }

  /** One configuration per base and compatible choice of modifiers, under the union of their ids. */
  ghost predicate Closed(configs: map<Id, Registered>, bases: seq<Base>, ms: seq<Modifier>) {
    && (forall b, applied :: Choice(bases, ms, b, applied) ==>
          b.id + Bits(applied) in configs && configs[b.id + Bits(applied)] == Entry(b, applied))
    && (forall id :: id in configs ==> FromChoice(id, configs[id], bases, ms))
  }

  ghost predicate FromChoice(id: Id, r: Registered, bases: seq<Base>, ms: seq<Modifier>) {
    exists b, applied :: Choice(bases, ms, b, applied) && r == Entry(b, applied) && id == b.id + Bits(applied)
  }

  /** A clone of a configuration with one more modifier. */
  function Modified(r: Registered, m: Modifier): Registered {
    Registered(Config(r.config.id + m.bitmask, r.config.name.(modifiers := r.config.name.modifiers + {m.displayName}),
                      r.config.steps, r.config.applied + [m]),
               r.modifierClasses + {m.class_})
  }

  lemma {:induction false} EntryMore(b: Base, applied: seq<Modifier>, m: Modifier)
    ensures Entry(b, applied + [m]) == Modified(Entry(b, applied), m)
  {
    var more := applied + [m];
    assert more[..|applied|] == applied;
    assert b.id + Bits(more) == b.id + Bits(applied) + m.bitmask;
    assert DisplayNames(more) == DisplayNames(applied) + {m.displayName} by {
      assert more[|applied|].displayName in DisplayNames(more);
      assert forall i :: 0 <= i < |applied| ==> more[i] == applied[i];
    }
    assert Classes(more) == Classes(applied) + {m.class_} by {
      assert more[|applied|].class_ in Classes(more);
      assert forall i :: 0 <= i < |applied| ==> more[i] == applied[i];
    }
  }

  lemma {:induction false} CompatibleMore(applied: seq<Modifier>, m: Modifier)
    requires Compatible(applied)
    ensures Compatible(applied + [m]) <==> m.class_ !in Classes(applied)
  {
    var more := applied + [m];
    if m.class_ in Classes(applied) {
      var i :| 0 <= i < |applied| && applied[i].class_ == m.class_;
      assert more[i].class_ == more[|applied|].class_;
    }
  }

  predicate Takes(configs: map<Id, Registered>, id: Id, m: Modifier) {
    id in configs && m.class_ !in configs[id].modifierClasses
  }

  /** configs' is configs with a modified clone of each entry that has no modifier of m's class. */
  ghost predicate Extended(configs: map<Id, Registered>, configs': map<Id, Registered>, m: Modifier) {
    && (forall id :: id in configs ==> id in configs' && configs'[id] == configs[id])
    && (forall id :: Takes(configs, id, m) ==> id + m.bitmask in configs' && configs'[id + m.bitmask] == Modified(configs[id], m))
    && (forall id :: id in configs' ==> id in configs || exists o :: Takes(configs, o, m) && id == o + m.bitmask)
  }

  lemma {:induction false} EntryFrom(configs: map<Id, Registered>, bases: seq<Base>, ms: seq<Modifier>, id: Id) returns (b: Base, applied: seq<Modifier>)
    requires Closed(configs, bases, ms) && id in configs
    ensures Choice(bases, ms, b, applied) && configs[id] == Entry(b, applied) && id == b.id + Bits(applied)
  {
    assert FromChoice(id, configs[id], bases, ms);
    b, applied :| Choice(bases, ms, b, applied) && configs[id] == Entry(b, applied) && id == b.id + Bits(applied);
  }

  lemma {:induction false} NewChoices(configs: map<Id, Registered>, configs': map<Id, Registered>, bases: seq<Base>, ms: seq<Modifier>, b: Base, applied: seq<Modifier>)
    requires ms != [] && Closed(configs, bases, ms[..|ms| - 1]) && Extended(configs, configs', ms[|ms| - 1])
    requires Choice(bases, ms, b, applied)
    ensures b.id + Bits(applied) in configs' && configs'[b.id + Bits(applied)] == Entry(b, applied)
  {
    var n := |ms| - 1;
    if !Chosen(applied, ms[..n]) {
      var before := applied[..|applied| - 1];
      assert applied == before + [ms[n]];
      CompatibleMore(before, ms[n]);
      EntryMore(b, before, ms[n]);
      assert Takes(configs, b.id + Bits(before), ms[n]);
      assert b.id + Bits(applied) == b.id + Bits(before) + ms[n].bitmask;
    }
  }

  lemma {:induction false} NewEntries(configs: map<Id, Registered>, configs': map<Id, Registered>, bases: seq<Base>, ms: seq<Modifier>, id: Id)
    requires ms != [] && Closed(configs, bases, ms[..|ms| - 1]) && Extended(configs, configs', ms[|ms| - 1]) && id in configs'
    ensures FromChoice(id, configs'[id], bases, ms)
  {
    var n := |ms| - 1;
    if id in configs {
      var b, applied := EntryFrom(configs, bases, ms[..n], id);
    } else {
      var o :| Takes(configs, o, ms[n]) && id == o + ms[n].bitmask;
      var b, applied := EntryFrom(configs, bases, ms[..n], o);
      CompatibleMore(applied, ms[n]);
      EntryMore(b, applied, ms[n]);
      assert (applied + [ms[n]])[..|applied|] == applied;
      assert Chosen(applied + [ms[n]], ms);
      assert id == b.id + Bits(applied + [ms[n]]);
    }
  }

  /** One modifier closes the configurations under one more modifier. */
  lemma {:induction false} ExtendedClosed(configs: map<Id, Registered>, configs': map<Id, Registered>, bases: seq<Base>, ms: seq<Modifier>)
    requires ms != [] && Closed(configs, bases, ms[..|ms| - 1]) && Extended(configs, configs', ms[|ms| - 1])
    ensures Closed(configs', bases, ms)
  {
    hide Bits, Entry, Compatible, Extended, FromChoice;
    forall b, applied | Choice(bases, ms, b, applied)
      ensures b.id + Bits(applied) in configs' && configs'[b.id + Bits(applied)] == Entry(b, applied)
    {
      NewChoices(configs, configs', bases, ms, b, applied);
    }
    forall id | id in configs' ensures FromChoice(id, configs'[id], bases, ms) {
      NewEntries(configs, configs', bases, ms, id);
    }
  }

  /** Registered under their own ids. */
  ghost predicate Keyed(configs: map<Id, Registered>) {
    forall id :: id in configs ==> configs[id].config.id == id
  }

  // ---------- Choices that share an id ----------

  /** Choices with the same id are registered alike. */
  ghost predicate Unambiguous(bases: seq<Base>, ms: seq<Modifier>) {
    forall b, applied, c, other :: Choice(bases, ms, b, applied) && Choice(bases, ms, c, other) && b.id + Bits(applied) == c.id + Bits(other) ==>
      Entry(b, applied) == Entry(c, other)
  }

  /** Different choices have different ids. */
  ghost predicate Distinct(bases: seq<Base>, ms: seq<Modifier>) {
    && NoDup(bases)
    && forall b, applied, c, other :: Choice(bases, ms, b, applied) && Choice(bases, ms, c, other) && b.id + Bits(applied) == c.id + Bits(other) ==>
      b == c && applied == other
  }

  lemma {:induction false} DistinctUnambiguous(bases: seq<Base>, ms: seq<Modifier>)
    requires Distinct(bases, ms)
    ensures Unambiguous(bases, ms)
  {
    hide Choice, Entry, Bits;
  }

  /** The modifiers of a file are keyed by their bitmasks. */
  predicate MasksDiffer(ms: seq<Modifier>) {
    forall i, j :: 0 <= i < j < |ms| ==> ms[i].bitmask != ms[j].bitmask
  }

  lemma {:induction false} IndependentDistinct(bases: seq<Base>, ms: seq<Modifier>)
    requires Independent(bases, ms)
    ensures Distinct(bases, ms)
  {
    forall b, applied, c, other | Choice(bases, ms, b, applied) && Choice(bases, ms, c, other) && b.id + Bits(applied) == c.id + Bits(other)
      ensures b == c && applied == other
    {
      IdsDistinct(bases, ms, b, applied, c, other);
    }
  }

  lemma {:induction false} ChosenNone(ms: seq<Modifier>)
    ensures Chosen([], ms)
  {
    if ms != [] {
      ChosenNone(ms[..|ms| - 1]);
    }
  }

  lemma {:induction false} ChosenOne(ms: seq<Modifier>, j: nat)
    requires j < |ms|
    ensures Chosen([ms[j]], ms)
  {
    var n := |ms| - 1;
    if j < n {
      ChosenOne(ms[..n], j);
    } else {
      ChosenNone(ms[..n]);
      assert [ms[j]][..0] == [];
    }
  }

  lemma {:induction false} ChosenTwo(ms: seq<Modifier>, i: nat, j: nat)
    requires i < j < |ms|
    ensures Chosen([ms[i], ms[j]], ms)
  {
    var n := |ms| - 1;
    if j < n {
      ChosenTwo(ms[..n], i, j);
    } else {
      ChosenOne(ms[..n], i);
      assert [ms[i], ms[j]][..1] == [ms[i]];
    }
  }

  lemma {:induction false} BitsOfTwo(m: Modifier, n: Modifier)
    ensures Bits([n]) == n.bitmask && Bits([m, n]) == m.bitmask + n.bitmask
  {
    assert [n][..0] == [] && [m, n][..1] == [m] && [m][..0] == [];
  }

  /** Two modifiers of different classes, the bits of one among those of the other: whatever is registered, a configuration is missing. */
  lemma {:induction false} NestedBitsCollide(configs: map<Id, Registered>, bases: seq<Base>, ms: seq<Modifier>, b: Base, i: nat, j: nat)
    requires b in bases && i < |ms| && j < |ms| && ms[i].class_ != ms[j].class_ && ms[i].bitmask <= ms[j].bitmask
    ensures !Unambiguous(bases, ms) && !Closed(configs, bases, ms)
  {
    var both := if i < j then [ms[i], ms[j]] else [ms[j], ms[i]];
    ChosenOne(ms, j);
    ChosenTwo(ms, if i < j then i else j, if i < j then j else i);
    BitsOfTwo(both[0], both[1]);
    BitsOfTwo(ms[i], ms[j]);
    assert Bits(both) == Bits([ms[j]]);
    assert Choice(bases, ms, b, both) && Choice(bases, ms, b, [ms[j]]);
    assert Entry(b, both).config.applied != Entry(b, [ms[j]]).config.applied;
    if Closed(configs, bases, ms) {
      ClosedUnambiguous(configs, bases, ms);
    }
  }

  /** Only unambiguous choices can all be registered. */
  lemma {:induction false} ClosedUnambiguous(configs: map<Id, Registered>, bases: seq<Base>, ms: seq<Modifier>)
    requires Closed(configs, bases, ms)
    ensures Unambiguous(bases, ms)
  {
    hide Choice, Entry, Bits, FromChoice;
  }

  lemma {:induction false} FewerChoices(bases: seq<Base>, ms: seq<Modifier>)
    requires ms != []
    ensures Unambiguous(bases, ms) ==> Unambiguous(bases, ms[..|ms| - 1])
    ensures Distinct(bases, ms) ==> Distinct(bases, ms[..|ms| - 1])
  {
    hide Entry, Bits, Compatible;
    assert forall b, applied :: Choice(bases, ms[..|ms| - 1], b, applied) ==> Choice(bases, ms, b, applied);
  }

  // ---------- Registering one entry after another ----------

  /** The configurations after registering the entries; a later one replaces an earlier one of the same id. */
  function RegisteredAll(configs: map<Id, Registered>, entries: seq<Registered>): map<Id, Registered> {
    if entries == [] then configs else
      var n := |entries| - 1;
      RegisteredAll(configs, entries[..n])[entries[n].config.id := entries[n]]
  }

  ghost predicate HasId(entries: seq<Registered>, id: Id) {
    exists j :: 0 <= j < |entries| && entries[j].config.id == id
  }

  /** No two of the entries, and no entry and a configuration, have the same id. */
  ghost predicate AllNew(configs: map<Id, Registered>, entries: seq<Registered>) {
    && (forall j :: 0 <= j < |entries| ==> entries[j].config.id !in configs)
    && (forall i, j :: 0 <= i < j < |entries| ==> entries[i].config.id != entries[j].config.id)
  }

  /** Those that have the same id are the same. */
  ghost predicate AllAgree(configs: map<Id, Registered>, entries: seq<Registered>) {
    && (forall j :: 0 <= j < |entries| && entries[j].config.id in configs ==> configs[entries[j].config.id] == entries[j])
    && (forall i, j :: 0 <= i < j < |entries| && entries[i].config.id == entries[j].config.id ==> entries[i] == entries[j])
  }

  lemma {:induction false} RegisteredKeys(configs: map<Id, Registered>, entries: seq<Registered>, id: Id)
    ensures id in RegisteredAll(configs, entries) <==> id in configs || HasId(entries, id)
  {
    if entries != [] {
      var n := |entries| - 1;
      RegisteredKeys(configs, entries[..n], id);
      if HasId(entries[..n], id) {
        var j :| 0 <= j < n && entries[..n][j].config.id == id;
        assert entries[j].config.id == id;
      }
      if HasId(entries, id) && entries[n].config.id != id {
        var j :| 0 <= j < |entries| && entries[j].config.id == id;
        assert entries[..n][j].config.id == id;
      }
    }
  }

  lemma {:induction false} RegisteredAgree(configs: map<Id, Registered>, entries: seq<Registered>)
    requires AllAgree(configs, entries)
    ensures forall id :: id in configs ==> id in RegisteredAll(configs, entries) && RegisteredAll(configs, entries)[id] == configs[id]
    ensures forall j :: 0 <= j < |entries| ==>
              entries[j].config.id in RegisteredAll(configs, entries) && RegisteredAll(configs, entries)[entries[j].config.id] == entries[j]
  {
    if entries != [] {
      var n := |entries| - 1;
      var before := entries[..n];
      assert AllAgree(configs, before);
      RegisteredAgree(configs, before);
      forall j | 0 <= j < n
        ensures entries[j].config.id in RegisteredAll(configs, entries) && RegisteredAll(configs, entries)[entries[j].config.id] == entries[j]
      {
        assert before[j] == entries[j];
      }
    }
  }

  lemma {:induction false} NewStep(configs: map<Id, Registered>, entries: seq<Registered>)
    requires entries != []
    ensures var n := |entries| - 1;
            AllNew(configs, entries) <==> AllNew(configs, entries[..n]) && entries[n].config.id !in RegisteredAll(configs, entries[..n])
  {
    var n := |entries| - 1;
    var before := entries[..n];
    RegisteredKeys(configs, before, entries[n].config.id);
    assert HasId(before, entries[n].config.id) <==> exists j :: 0 <= j < n && entries[j].config.id == entries[n].config.id by {
      assert forall j :: 0 <= j < n ==> before[j] == entries[j];
    }
  }

  /** Every entry adds at most one configuration, and all add one exactly when they are new. */
  lemma {:induction false} RegisteredSize(configs: map<Id, Registered>, entries: seq<Registered>)
    ensures |RegisteredAll(configs, entries)| <= |configs| + |entries|
    ensures |RegisteredAll(configs, entries)| == |configs| + |entries| <==> AllNew(configs, entries)
  {
    if entries != [] {
      var n := |entries| - 1;
      RegisteredSize(configs, entries[..n]);
      NewStep(configs, entries);
      var before, id := RegisteredAll(configs, entries[..n]), entries[n].config.id;
      assert before[id := entries[n]].Keys == before.Keys + {id};
    }
  }

  // ---------- One modifier ----------

  /** The clones of the configurations that take m, one for each, in the order of their sources. */
  ghost predicate Cloned(configs: map<Id, Registered>, m: Modifier, sources: seq<Id>, entries: seq<Registered>) {
    && |entries| == |sources| && NoDup(sources)
    && (forall id :: id in sources <==> Takes(configs, id, m))
    && (forall i :: 0 <= i < |sources| ==> Takes(configs, sources[i], m) && entries[i] == Modified(configs[sources[i]], m))
  }

  /** The clone of a registered choice is a choice with one more modifier. */
  lemma {:induction false} CloneChoice(configs: map<Id, Registered>, bases: seq<Base>, ms: seq<Modifier>, o: Id) returns (b: Base, applied: seq<Modifier>)
    requires ms != [] && Closed(configs, bases, ms[..|ms| - 1]) && Takes(configs, o, ms[|ms| - 1])
    ensures var m := ms[|ms| - 1];
            && Choice(bases, ms[..|ms| - 1], b, applied) && o == b.id + Bits(applied)
            && Choice(bases, ms, b, applied + [m]) && Modified(configs[o], m) == Entry(b, applied + [m])
            && o + m.bitmask == b.id + Bits(applied + [m])
  {
    var m := ms[|ms| - 1];
    b, applied := EntryFrom(configs, bases, ms[..|ms| - 1], o);
    CompatibleMore(applied, m);
    EntryMore(b, applied, m);
    assert (applied + [m])[..|applied|] == applied;
  }

  /** A choice either leaves the last modifier out or extends a registered one. */
  lemma {:induction false} LastChoice(configs: map<Id, Registered>, bases: seq<Base>, ms: seq<Modifier>, b: Base, applied: seq<Modifier>)
    requires ms != [] && Closed(configs, bases, ms[..|ms| - 1]) && Choice(bases, ms, b, applied) && !Choice(bases, ms[..|ms| - 1], b, applied)
    ensures var m := ms[|ms| - 1];
            && applied != [] && applied == applied[..|applied| - 1] + [m]
            && Choice(bases, ms[..|ms| - 1], b, applied[..|applied| - 1])
            && Takes(configs, b.id + Bits(applied[..|applied| - 1]), m)
            && b.id + Bits(applied) == b.id + Bits(applied[..|applied| - 1]) + m.bitmask
  {
    var before := applied[..|applied| - 1];
    assert applied == before + [ms[|ms| - 1]];
    CompatibleMore(before, ms[|ms| - 1]);
    assert Choice(bases, ms[..|ms| - 1], b, before);
    assert configs[b.id + Bits(before)] == Entry(b, before);
  }

  lemma {:induction false} ChosenIn(applied: seq<Modifier>, ms: seq<Modifier>)
    requires Chosen(applied, ms)
    ensures forall i :: 0 <= i < |applied| ==> applied[i] in ms
  {
    if ms != [] {
      var n := |ms| - 1;
      if Chosen(applied, ms[..n]) {
        ChosenIn(applied, ms[..n]);
      } else {
        ChosenIn(applied[..|applied| - 1], ms[..n]);
        assert applied == applied[..|applied| - 1] + [ms[n]];
      }
    }
  }

  lemma {:induction false} ClonesAgree(configs: map<Id, Registered>, bases: seq<Base>, ms: seq<Modifier>, sources: seq<Id>, entries: seq<Registered>)
    requires ms != [] && Closed(configs, bases, ms[..|ms| - 1]) && Cloned(configs, ms[|ms| - 1], sources, entries) && Unambiguous(bases, ms)
    ensures AllAgree(configs, entries)
  {
    hide Entry, Bits, Chosen, Compatible, FromChoice, Modified, Closed, NoDup;
    var m := ms[|ms| - 1];
    ClosedKeyed(configs, bases, ms[..|ms| - 1]);
    CloneIds(configs, m, sources, entries);
    forall j | 0 <= j < |entries| && entries[j].config.id in configs ensures configs[entries[j].config.id] == entries[j] {
      CloneMeets(configs, bases, ms, sources[j]);
    }
    forall i, j | 0 <= i < j < |entries| && entries[i].config.id == entries[j].config.id ensures entries[i] == entries[j] {
      ClonesMeet(configs, bases, ms, sources[i], sources[j]);
    }
  }

  lemma {:induction false} CloneMeets(configs: map<Id, Registered>, bases: seq<Base>, ms: seq<Modifier>, o: Id)
    requires ms != [] && Closed(configs, bases, ms[..|ms| - 1]) && Unambiguous(bases, ms) && Takes(configs, o, ms[|ms| - 1])
    ensures Modified(configs[o], ms[|ms| - 1]).config.id == o + ms[|ms| - 1].bitmask
    ensures o + ms[|ms| - 1].bitmask in configs ==> configs[o + ms[|ms| - 1].bitmask] == Modified(configs[o], ms[|ms| - 1])
  {
    var b, applied := CloneChoice(configs, bases, ms, o);
    if o + ms[|ms| - 1].bitmask in configs {
      var c, other := EntryFrom(configs, bases, ms[..|ms| - 1], o + ms[|ms| - 1].bitmask);
      assert Choice(bases, ms, c, other);
    }
  }

  lemma {:induction false} ClonesMeet(configs: map<Id, Registered>, bases: seq<Base>, ms: seq<Modifier>, o: Id, p: Id)
    requires ms != [] && Closed(configs, bases, ms[..|ms| - 1]) && Unambiguous(bases, ms)
    requires Takes(configs, o, ms[|ms| - 1]) && Takes(configs, p, ms[|ms| - 1]) && o + ms[|ms| - 1].bitmask == p + ms[|ms| - 1].bitmask
    ensures Modified(configs[o], ms[|ms| - 1]) == Modified(configs[p], ms[|ms| - 1])
  {
    var b, applied := CloneChoice(configs, bases, ms, o);
    var c, other := CloneChoice(configs, bases, ms, p);
  }

  lemma {:induction false} CloneIds(configs: map<Id, Registered>, m: Modifier, sources: seq<Id>, entries: seq<Registered>)
    requires Keyed(configs) && Cloned(configs, m, sources, entries)
    ensures forall i :: 0 <= i < |sources| ==> entries[i].config.id == sources[i] + m.bitmask
  {
  }

  lemma {:induction false} ClosedKeyed(configs: map<Id, Registered>, bases: seq<Base>, ms: seq<Modifier>)
    requires Closed(configs, bases, ms)
    ensures Keyed(configs)
  {
    forall id | id in configs ensures configs[id].config.id == id {
      var b, applied := EntryFrom(configs, bases, ms, id);
    }
  }

  lemma {:induction false} CloneApart(configs: map<Id, Registered>, bases: seq<Base>, ms: seq<Modifier>, o: Id)
    requires ms != [] && Closed(configs, bases, ms[..|ms| - 1]) && Distinct(bases, ms) && MasksDiffer(ms) && Takes(configs, o, ms[|ms| - 1])
    ensures o + ms[|ms| - 1].bitmask !in configs
  {
    var n := |ms| - 1;
    if o + ms[n].bitmask in configs {
      var b, applied := CloneChoice(configs, bases, ms, o);
      var c, other := EntryFrom(configs, bases, ms[..n], o + ms[n].bitmask);
      assert Choice(bases, ms, c, other);
      assert other == applied + [ms[n]] && other[|applied|] == ms[n];
      ChosenIn(other, ms[..n]);
      assert false;
    }
  }

  lemma {:induction false} ClonesApart(configs: map<Id, Registered>, bases: seq<Base>, ms: seq<Modifier>, o: Id, p: Id)
    requires ms != [] && Closed(configs, bases, ms[..|ms| - 1]) && Distinct(bases, ms)
    requires Takes(configs, o, ms[|ms| - 1]) && Takes(configs, p, ms[|ms| - 1]) && o + ms[|ms| - 1].bitmask == p + ms[|ms| - 1].bitmask
    ensures o == p
  {
    var b, applied := CloneChoice(configs, bases, ms, o);
    var c, other := CloneChoice(configs, bases, ms, p);
    assert (applied + [ms[|ms| - 1]])[..|applied|] == applied && (other + [ms[|ms| - 1]])[..|other|] == other;
  }

  lemma {:induction false} ClonesNew(configs: map<Id, Registered>, bases: seq<Base>, ms: seq<Modifier>, sources: seq<Id>, entries: seq<Registered>)
    requires ms != [] && Closed(configs, bases, ms[..|ms| - 1]) && Cloned(configs, ms[|ms| - 1], sources, entries)
    requires Distinct(bases, ms) && MasksDiffer(ms)
    ensures AllNew(configs, entries)
  {
    hide Distinct, Closed, MasksDiffer;
    ClosedKeyed(configs, bases, ms[..|ms| - 1]);
    CloneIds(configs, ms[|ms| - 1], sources, entries);
    forall j | 0 <= j < |entries| ensures entries[j].config.id !in configs {
      CloneApart(configs, bases, ms, sources[j]);
    }
    forall i, j | 0 <= i < j < |entries| ensures entries[i].config.id != entries[j].config.id {
      if entries[i].config.id == entries[j].config.id {
        ClonesApart(configs, bases, ms, sources[i], sources[j]);
      }
    }
  }

  lemma {:induction false} NewDistinct(configs: map<Id, Registered>, bases: seq<Base>, ms: seq<Modifier>, sources: seq<Id>, entries: seq<Registered>)
    requires ms != [] && Closed(configs, bases, ms[..|ms| - 1]) && Cloned(configs, ms[|ms| - 1], sources, entries)
    requires Distinct(bases, ms[..|ms| - 1]) && AllNew(configs, entries)
    ensures Distinct(bases, ms)
  {
    hide Choice, Bits, Closed, AllNew, Cloned;
    forall b, applied, c, other | Choice(bases, ms, b, applied) && Choice(bases, ms, c, other) && b.id + Bits(applied) == c.id + Bits(other)
      ensures b == c && applied == other
    {
      var n := |ms| - 1;
      if Choice(bases, ms[..n], b, applied) {
        if !Choice(bases, ms[..n], c, other) {
          NewMeetsNone(configs, bases, ms, sources, entries, b, applied, c, other);
        }
      } else if Choice(bases, ms[..n], c, other) {
        NewMeetsNone(configs, bases, ms, sources, entries, c, other, b, applied);
      } else {
        NewMeetsItself(configs, bases, ms, sources, entries, b, applied, c, other);
      }
    }
  }

  lemma {:induction false} NewMeetsNone(configs: map<Id, Registered>, bases: seq<Base>, ms: seq<Modifier>, sources: seq<Id>, entries: seq<Registered>,
                                        b: Base, applied: seq<Modifier>, c: Base, other: seq<Modifier>)
    requires ms != [] && Closed(configs, bases, ms[..|ms| - 1]) && Cloned(configs, ms[|ms| - 1], sources, entries) && AllNew(configs, entries)
    requires Choice(bases, ms[..|ms| - 1], b, applied) && Choice(bases, ms, c, other) && !Choice(bases, ms[..|ms| - 1], c, other)
    ensures b.id + Bits(applied) != c.id + Bits(other)
  {
    hide Choice, Bits, Entry, FromChoice;
    ClosedKeyed(configs, bases, ms[..|ms| - 1]);
    CloneIds(configs, ms[|ms| - 1], sources, entries);
    LastChoice(configs, bases, ms, c, other);
    var k :| 0 <= k < |sources| && sources[k] == c.id + Bits(other[..|other| - 1]);
    assert entries[k].config.id == c.id + Bits(other);
  }

  lemma {:induction false} NewMeetsItself(configs: map<Id, Registered>, bases: seq<Base>, ms: seq<Modifier>, sources: seq<Id>, entries: seq<Registered>,
                                          b: Base, applied: seq<Modifier>, c: Base, other: seq<Modifier>)
    requires ms != [] && Closed(configs, bases, ms[..|ms| - 1]) && Cloned(configs, ms[|ms| - 1], sources, entries) && AllNew(configs, entries)
    requires Distinct(bases, ms[..|ms| - 1])
    requires Choice(bases, ms, b, applied) && !Choice(bases, ms[..|ms| - 1], b, applied)
    requires Choice(bases, ms, c, other) && !Choice(bases, ms[..|ms| - 1], c, other)
    requires b.id + Bits(applied) == c.id + Bits(other)
    ensures b == c && applied == other
  {
    hide Choice, Bits, Closed;
    ClosedKeyed(configs, bases, ms[..|ms| - 1]);
    CloneIds(configs, ms[|ms| - 1], sources, entries);
    LastChoice(configs, bases, ms, b, applied);
    LastChoice(configs, bases, ms, c, other);
    var k :| 0 <= k < |sources| && sources[k] == b.id + Bits(applied[..|applied| - 1]);
    var l :| 0 <= l < |sources| && sources[l] == c.id + Bits(other[..|other| - 1]);
    assert entries[k].config.id == entries[l].config.id;
    assert k == l;
  }

  lemma {:induction false} ClonesExtend(configs: map<Id, Registered>, m: Modifier, sources: seq<Id>, entries: seq<Registered>)
    requires Keyed(configs) && Cloned(configs, m, sources, entries) && AllAgree(configs, entries)
    ensures Extended(configs, RegisteredAll(configs, entries), m)
  {
    hide AllAgree, Modified, NoDup, RegisteredAll;
    var configs' := RegisteredAll(configs, entries);
    RegisteredAgree(configs, entries);
    CloneIds(configs, m, sources, entries);
    forall id | Takes(configs, id, m) ensures id + m.bitmask in configs' && configs'[id + m.bitmask] == Modified(configs[id], m) {
      var j :| 0 <= j < |sources| && sources[j] == id;
      assert entries[j].config.id == id + m.bitmask;
    }
    forall id | id in configs' && id !in configs ensures exists o :: Takes(configs, o, m) && id == o + m.bitmask {
      RegisteredKeys(configs, entries, id);
      var j :| 0 <= j < |entries| && entries[j].config.id == id;
      assert Takes(configs, sources[j], m);
    }
  }

  /** What one round of the loop over the modifiers does to the two properties. */
  lemma {:induction false} RoundMeans(configs: map<Id, Registered>, bases: seq<Base>, ms: seq<Modifier>, sources: seq<Id>, entries: seq<Registered>)
    requires ms != [] && Keyed(configs) && Cloned(configs, ms[|ms| - 1], sources, entries) && MasksDiffer(ms)
    requires Unambiguous(bases, ms[..|ms| - 1]) ==> Closed(configs, bases, ms[..|ms| - 1])
    ensures Unambiguous(bases, ms) ==> Closed(RegisteredAll(configs, entries), bases, ms)
    ensures Distinct(bases, ms) <==> Distinct(bases, ms[..|ms| - 1]) && AllNew(configs, entries)
  {
    hide Unambiguous, Closed, Distinct, AllNew, AllAgree, Cloned, RegisteredAll, Keyed, MasksDiffer;
    FewerChoices(bases, ms);
    if Unambiguous(bases, ms) {
      ClonesAgree(configs, bases, ms, sources, entries);
      ClonesExtend(configs, ms[|ms| - 1], sources, entries);
      ExtendedClosed(configs, RegisteredAll(configs, entries), bases, ms);
    }
    if Distinct(bases, ms[..|ms| - 1]) {
      DistinctUnambiguous(bases, ms[..|ms| - 1]);
      if Distinct(bases, ms) {
        ClonesNew(configs, bases, ms, sources, entries);
      }
      if AllNew(configs, entries) {
        NewDistinct(configs, bases, ms, sources, entries);
      }
    }
  }

  // ---------- The bases ----------

  /** What the base configurations are registered as. */
  function BaseEntries(bases: seq<Base>): (entries: seq<Registered>)
    ensures |entries| == |bases|
    ensures forall i :: 0 <= i < |bases| ==> entries[i] == Registered(Config(bases[i].id, Name(bases[i].name, {}), bases[i].steps, []), {})
  {
    seq(|bases|, i requires 0 <= i < |bases| => Registered(Config(bases[i].id, Name(bases[i].name, {}), bases[i].steps, []), {}))
  }

  lemma {:induction false} BaseEntry(b: Base)
    ensures b.id + Bits([]) == b.id
    ensures Entry(b, []) == Registered(Config(b.id, Name(b.name, {}), b.steps, []), {})
  {
    assert DisplayNames([]) == {} && Classes([]) == {} && b.id + {} == b.id;
  }

  lemma {:induction false} BaseChoice(bases: seq<Base>, b: Base, applied: seq<Modifier>)
    ensures Choice(bases, [], b, applied) <==> b in bases && applied == []
  {
  }

  lemma {:induction false} BasesAgree(bases: seq<Base>)
    requires Unambiguous(bases, [])
    ensures AllAgree(map[], BaseEntries(bases))
  {
    hide Entry, Bits, Choice;
    forall i, j | 0 <= i < j < |bases| && bases[i].id == bases[j].id ensures BaseEntries(bases)[i] == BaseEntries(bases)[j] {
      BaseEntry(bases[i]);
      BaseEntry(bases[j]);
      BaseChoice(bases, bases[i], []);
      BaseChoice(bases, bases[j], []);
      assert Entry(bases[i], []) == Entry(bases[j], []);
    }
  }

  lemma {:induction false} BasesNew(bases: seq<Base>)
    ensures Distinct(bases, []) <==> AllNew(map[], BaseEntries(bases))
  {
    hide Entry, Bits, Choice;
    assert Bits([]) == {} by { BaseBits(); }
    assert forall b: Base :: b.id + {} == b.id;
    if Distinct(bases, []) {
      forall i, j | 0 <= i < j < |bases| ensures bases[i].id != bases[j].id {
        BaseChoice(bases, bases[i], []);
        BaseChoice(bases, bases[j], []);
      }
    }
    if AllNew(map[], BaseEntries(bases)) {
      assert forall i, j :: 0 <= i < j < |bases| ==> BaseEntries(bases)[i].config.id != BaseEntries(bases)[j].config.id;
      forall b, applied, c, other | Choice(bases, [], b, applied) && Choice(bases, [], c, other) && b.id + Bits(applied) == c.id + Bits(other)
        ensures b == c && applied == other
      {
        BaseChoice(bases, b, applied);
        BaseChoice(bases, c, other);
      }
    }
  }

  lemma {:induction false} BaseBits()
    ensures Bits([]) == {}
  {
  }

  lemma {:induction false} BasesClosed(bases: seq<Base>)
    requires Unambiguous(bases, [])
    ensures Closed(RegisteredAll(map[], BaseEntries(bases)), bases, [])
  {
    hide Entry, Bits, Choice, RegisteredAll, AllAgree, Unambiguous;
    var entries := BaseEntries(bases);
    var configs := RegisteredAll(map[], entries);
    BasesAgree(bases);
    RegisteredAgree(map[], entries);
    forall b, applied | Choice(bases, [], b, applied)
      ensures b.id + Bits(applied) in configs && configs[b.id + Bits(applied)] == Entry(b, applied)
    {
      BaseChoice(bases, b, applied);
      BaseEntry(b);
      var j :| 0 <= j < |bases| && bases[j] == b;
      assert entries[j].config.id == b.id;
    }
    forall id | id in configs ensures FromChoice(id, configs[id], bases, []) {
      RegisteredKeys(map[], entries, id);
      var j :| 0 <= j < |entries| && entries[j].config.id == id;
      BaseEntry(bases[j]);
      BaseChoice(bases, bases[j], []);
    }
  }

  /** Lookups by name end at a configuration of that name, and every registered name can be looked up. */
  ghost predicate NamesLead(configs: map<Id, Registered>, names: seq<Name>, nameToConfigId: map<Name, Id>) {
    && (forall n :: n in nameToConfigId <==> n in names)
    && (forall n :: n in nameToConfigId ==> nameToConfigId[n] in configs)
    && (forall id :: id in configs ==> configs[id].config.name in names)
  }

  /** Every configuration has been registered once, and a name leads to a configuration of that name. */
  ghost predicate Exact(configs: map<Id, Registered>, names: seq<Name>, nameToConfigId: map<Name, Id>) {
    |names| == |configs| && forall n :: n in nameToConfigId ==> nameToConfigId[n] in configs && configs[nameToConfigId[n]].config.name == n
  }

  lemma {:induction false} ExactMore(configs: map<Id, Registered>, names: seq<Name>, nameToConfigId: map<Name, Id>, r: Registered)
    requires Exact(configs, names, nameToConfigId) && r.config.id !in configs
    ensures Exact(configs[r.config.id := r], names + [r.config.name], nameToConfigId[r.config.name := r.config.id])
  {
  }

  lemma {:induction false} NamesLeadMore(configs: map<Id, Registered>, names: seq<Name>, nameToConfigId: map<Name, Id>, r: Registered)
    requires NamesLead(configs, names, nameToConfigId)
    ensures NamesLead(configs[r.config.id := r], names + [r.config.name], nameToConfigId[r.config.name := r.config.id])
  {
    var names' := names + [r.config.name];
    assert names'[|names|] == r.config.name;
    forall n ensures n in names' <==> n in names || n == r.config.name {
      if n in names {
        var i :| 0 <= i < |names| && names[i] == n;
        assert names'[i] == n;
      }
    }
  }

  lemma {:induction false} NoneRegistered(configs: map<Id, Registered>)
    ensures RegisteredAll(configs, []) == configs && AllNew(configs, [])
  {
  }

  lemma {:induction false} RegisterStep(configs: map<Id, Registered>, names: seq<Name>, nameToConfigId: map<Name, Id>, entries: seq<Registered>, i: nat)
    requires i < |entries|
    ensures RegisteredAll(configs, entries[..i + 1]) == RegisteredAll(configs, entries[..i])[entries[i].config.id := entries[i]]
    ensures AllNew(configs, entries[..i + 1]) ==> AllNew(configs, entries[..i])
    ensures AllNew(configs, entries[..i + 1]) && Exact(RegisteredAll(configs, entries[..i]), names, nameToConfigId) ==>
              Exact(RegisteredAll(configs, entries[..i + 1]), names + [entries[i].config.name], nameToConfigId[entries[i].config.name := entries[i].config.id])
  {
    hide AllNew, Exact;
    assert entries[..i + 1][..i] == entries[..i];
    NewStep(configs, entries[..i + 1]);
    if AllNew(configs, entries[..i + 1]) && Exact(RegisteredAll(configs, entries[..i]), names, nameToConfigId) {
      ExactMore(RegisteredAll(configs, entries[..i]), names, nameToConfigId, entries[i]);
    }
  }

  class FileProvider {
    var configs: map<Id, Registered>
    var names: seq<Name>
    var nameToConfigId: map<Name, Id>

    constructor ()
      ensures configs == map[] && names == [] && nameToConfigId == map[] && Valid()
    {
      configs, names, nameToConfigId := map[], [], map[];
    }

    ghost predicate Valid()
      reads this
    {
      Keyed(configs) && NamesLead(configs, names, nameToConfigId)
    }

    method Register(r: Registered)
      requires Valid()
      modifies this
      ensures Valid()
      ensures configs == old(configs)[r.config.id := r] && names == old(names) + [r.config.name]
      ensures nameToConfigId == old(nameToConfigId)[r.config.name := r.config.id]
    {
      NamesLeadMore(configs, names, nameToConfigId, r);
      names := names + [r.config.name];
      configs := configs[r.config.id := r];
      nameToConfigId := nameToConfigId[r.config.name := r.config.id];
    }

    /** The loops of loadJsonBytes over the base configurations and the sorted modifiers. */
    method Load(bases: seq<Base>, modifiers: seq<Modifier>)
      requires configs == map[] && names == [] && nameToConfigId == map[] && MasksDiffer(modifiers)
      modifies this
      ensures Valid()
      ensures Closed(configs, bases, modifiers) <==> Unambiguous(bases, modifiers)
      ensures |names| == |configs| <==> Distinct(bases, modifiers)
      ensures Distinct(bases, modifiers) ==> Exact(configs, names, nameToConfigId)
    {
      hide Closed, Unambiguous, Distinct, NamesLead, Exact, Keyed, AllNew, Cloned, RegisteredAll;
      LoadBases(bases);
      assert modifiers[..0] == [];
      for i := 0 to |modifiers|
        invariant Valid()
        invariant Unambiguous(bases, modifiers[..i]) ==> Closed(configs, bases, modifiers[..i])
        invariant |names| >= |configs|
        invariant |names| == |configs| <==> Distinct(bases, modifiers[..i])
        invariant Distinct(bases, modifiers[..i]) ==> Exact(configs, names, nameToConfigId)
      {
        ghost var part := modifiers[..i + 1];
        assert part[..i] == modifiers[..i] && part[i] == modifiers[i];
        ghost var before := configs;
        ghost var sources, entries := ApplyModifier(modifiers[i]);
        RoundMeans(before, bases, part, sources, entries);
        RegisteredSize(before, entries);
      }
      assert modifiers[..|modifiers|] == modifiers;
      if Closed(configs, bases, modifiers) {
        ClosedUnambiguous(configs, bases, modifiers);
      }
    }

    method LoadBases(bases: seq<Base>)
      requires configs == map[] && names == [] && nameToConfigId == map[]
      modifies this
      ensures Valid()
      ensures Unambiguous(bases, []) ==> Closed(configs, bases, [])
      ensures |names| >= |configs|
      ensures |names| == |configs| <==> Distinct(bases, [])
      ensures Distinct(bases, []) ==> Exact(configs, names, nameToConfigId)
    {
      hide Closed, Unambiguous, Distinct, NamesLead, Exact, Keyed, AllNew, RegisteredAll;
      NamesOfNothing();
      ghost var entries := BaseEntries(bases);
      NoneRegistered(map[]);
      assert entries[..0] == [];
      for i := 0 to |bases|
        invariant Valid() && |names| == i
        invariant configs == RegisteredAll(map[], entries[..i])
        invariant AllNew(map[], entries[..i]) ==> Exact(configs, names, nameToConfigId)
      {
        RegisterStep(map[], names, nameToConfigId, entries, i);
        Register(Registered(Config(bases[i].id, Name(bases[i].name, {}), bases[i].steps, []), {}));
      }
      assert entries[..|bases|] == entries;
      RegisteredSize(map[], entries);
      BasesNew(bases);
      if Unambiguous(bases, []) {
        BasesClosed(bases);
      }
    }

    /** One round of the loop over the modifiers. */
    method ApplyModifier(m: Modifier) returns (ghost sources: seq<Id>, ghost entries: seq<Registered>)
      requires Valid()
      modifies this
      ensures Valid()
      ensures Cloned(old(configs), m, sources, entries)
      ensures configs == RegisteredAll(old(configs), entries) && |names| == |old(names)| + |entries|
      ensures AllNew(old(configs), entries) && Exact(old(configs), old(names), old(nameToConfigId)) ==> Exact(configs, names, nameToConfigId)
    {
      hide Keyed, Cloned, NamesLead, Exact, AllNew, RegisteredAll;
      var newEntries;
      newEntries, sources := CollectClones(m);
      entries := newEntries;
      ghost var exact := Exact(configs, names, nameToConfigId);
      NoneRegistered(configs);
      assert newEntries[..0] == [];
      for i := 0 to |newEntries|
        invariant Valid() && |names| == |old(names)| + i
        invariant configs == RegisteredAll(old(configs), newEntries[..i])
        invariant AllNew(old(configs), newEntries[..i]) && exact ==> Exact(configs, names, nameToConfigId)
      {
        RegisterStep(old(configs), names, nameToConfigId, newEntries, i);
        Register(newEntries[i]);
      }
      assert newEntries[..|newEntries|] == newEntries;
    }

    method CollectClones(m: Modifier) returns (entries: seq<Registered>, ghost sources: seq<Id>)
      ensures Cloned(configs, m, sources, entries)
    {
      entries, sources := [], [];
      var todo := configs.Keys;
      while todo != {}
        invariant todo <= configs.Keys && |entries| == |sources| && NoDup(sources)
        invariant forall id :: id in sources <==> id !in todo && Takes(configs, id, m)
        invariant forall i :: 0 <= i < |sources| ==> Takes(configs, sources[i], m) && entries[i] == Modified(configs[sources[i]], m)
      {
        var id := Pick(todo);
        var config := configs[id];
        if m.class_ !in config.modifierClasses {
          entries := entries + [Modified(config, m)];
          sources := sources + [id];
        }
        todo := todo - {id};
      }
    }

    method GetByName(name: Name) returns (config: Option<Config>)
      requires Valid()
      ensures config.None? <==> name !in names
      ensures config.Some? ==> exists id :: id in configs && config.value == configs[id].config && nameToConfigId[name] == id
    {
      if name !in nameToConfigId {
        return None;
      }
      config := Some(configs[nameToConfigId[name]].config);
    }
  }

  lemma {:induction false} NamesOfNothing()
    ensures Keyed(map[]) && NamesLead(map[], [], map[]) && Exact(map[], [], map[])
  {
  }

  // ---------- Names ----------

  /** Base names are distinct, and so are the display names of the modifiers. */
  ghost predicate DistinctNames(bases: seq<Base>, ms: seq<Modifier>) {
    && (forall i, j :: 0 <= i < j < |bases| ==> bases[i].name != bases[j].name)
    && (forall i, j :: 0 <= i < j < |ms| ==> ms[i].displayName != ms[j].displayName)
  }

  lemma {:induction false} ChosenFrom(applied: seq<Modifier>, ms: seq<Modifier>, name: string)
    requires Chosen(applied, ms) && name in DisplayNames(applied)
    ensures exists i :: 0 <= i < |ms| && ms[i].displayName == name
  {
    var k :| 0 <= k < |applied| && applied[k].displayName == name;
    var n := |ms| - 1;
    if Chosen(applied, ms[..n]) {
      ChosenFrom(applied, ms[..n], name);
      var i :| 0 <= i < |ms[..n]| && ms[..n][i].displayName == name;
      assert ms[i].displayName == name;
    } else if k < |applied| - 1 {
      assert applied[..|applied| - 1][k] == applied[k];
      ChosenFrom(applied[..|applied| - 1], ms[..n], name);
      var i :| 0 <= i < |ms[..n]| && ms[..n][i].displayName == name;
      assert ms[i].displayName == name;
    }
  }

  lemma {:induction false} DisplayNamesMore(applied: seq<Modifier>, m: Modifier)
    ensures DisplayNames(applied + [m]) == DisplayNames(applied) + {m.displayName}
  {
    var more := applied + [m];
    assert more[|applied|].displayName in DisplayNames(more);
    assert forall i :: 0 <= i < |applied| ==> more[i] == applied[i];
  }

  /** Whether the last modifier was chosen shows in the names. */
  lemma {:induction false} SplitNames(bases: seq<Base>, ms: seq<Modifier>, applied: seq<Modifier>)
    requires DistinctNames(bases, ms) && ms != [] && Chosen(applied, ms)
    ensures var n := |ms| - 1;
            if ms[n].displayName !in DisplayNames(applied) then Chosen(applied, ms[..n])
            else applied != [] && applied[|applied| - 1] == ms[n] && Chosen(applied[..|applied| - 1], ms[..n])
                 && DisplayNames(applied[..|applied| - 1]) == DisplayNames(applied) - {ms[n].displayName}
  {
    var n := |ms| - 1;
    if Chosen(applied, ms[..n]) {
      if ms[n].displayName in DisplayNames(applied) {
        ChosenFrom(applied, ms[..n], ms[n].displayName);
      }
    } else {
      var before := applied[..|applied| - 1];
      assert applied == before + [ms[n]];
      DisplayNamesMore(before, ms[n]);
      if ms[n].displayName in DisplayNames(before) {
        ChosenFrom(before, ms[..n], ms[n].displayName);
      }
    }
  }

  lemma {:induction false} NamesDistinct(bases: seq<Base>, ms: seq<Modifier>, applied: seq<Modifier>, other: seq<Modifier>)
    requires DistinctNames(bases, ms) && Chosen(applied, ms) && Chosen(other, ms) && DisplayNames(applied) == DisplayNames(other)
    ensures applied == other
  {
    if ms != [] {
      var n := |ms| - 1;
      SplitNames(bases, ms, applied);
      SplitNames(bases, ms, other);
      assert DistinctNames(bases, ms[..n]);
      if ms[n].displayName !in DisplayNames(applied) {
        NamesDistinct(bases, ms[..n], applied, other);
      } else {
        NamesDistinct(bases, ms[..n], applied[..|applied| - 1], other[..|other| - 1]);
        assert applied == applied[..|applied| - 1] + [ms[n]] && other == other[..|other| - 1] + [ms[n]];
      }
    }
  }

  /** GetByName finds the configuration that has the name, when base names and display names are distinct. */
  lemma {:induction false} LookupByName(configs: map<Id, Registered>, names: seq<Name>, nameToConfigId: map<Name, Id>, bases: seq<Base>, ms: seq<Modifier>, id: Id)
    requires Closed(configs, bases, ms) && DistinctNames(bases, ms) && NamesLead(configs, names, nameToConfigId) && Exact(configs, names, nameToConfigId)
    requires id in configs
    ensures configs[id].config.name in nameToConfigId && nameToConfigId[configs[id].config.name] == id
  {
    hide Closed, Chosen;
    var other := nameToConfigId[configs[id].config.name];
    var b, applied := EntryFrom(configs, bases, ms, id);
    var c, applied' := EntryFrom(configs, bases, ms, other);
    NamesDistinct(bases, ms, applied, applied');
    var i :| 0 <= i < |bases| && bases[i] == b;
    var j :| 0 <= j < |bases| && bases[j] == c;
  }

  // ---------- What a registered configuration is ----------

  /** The modifiers at increasing positions of ms. */
  predicate PickedAt(ms: seq<Modifier>, applied: seq<Modifier>, places: seq<nat>) {
    && |places| == |applied|
    && (forall k :: 0 <= k < |places| ==> places[k] < |ms| && applied[k] == ms[places[k]])
    && forall k, l :: 0 <= k < l < |places| ==> places[k] < places[l]
  }

  ghost predicate Picked(ms: seq<Modifier>, applied: seq<Modifier>) {
    exists places :: PickedAt(ms, applied, places)
  }

  lemma {:induction false} ChosenPicked(applied: seq<Modifier>, ms: seq<Modifier>) returns (places: seq<nat>)
    requires Chosen(applied, ms)
    ensures PickedAt(ms, applied, places)
  {
    if ms == [] {
      places := [];
    } else {
      var n := |ms| - 1;
      if Chosen(applied, ms[..n]) {
        places := ChosenPicked(applied, ms[..n]);
        assert forall k :: 0 <= k < |places| ==> ms[..n][places[k]] == ms[places[k]];
      } else {
        places := ChosenPicked(applied[..|applied| - 1], ms[..n]);
        assert forall k :: 0 <= k < |places| ==> ms[..n][places[k]] == ms[places[k]] && applied[..|applied| - 1][k] == applied[k];
        places := places + [n];
      }
    }
  }

  lemma {:induction false} PickedChosen(applied: seq<Modifier>, ms: seq<Modifier>, places: seq<nat>)
    requires PickedAt(ms, applied, places)
    ensures Chosen(applied, ms)
  {
    if ms != [] {
      var n := |ms| - 1;
      if places != [] && places[|places| - 1] == n {
        PickedChosen(applied[..|applied| - 1], ms[..n], places[..|places| - 1]);
      } else {
        assert forall k :: 0 <= k < |places| ==> places[k] <= places[|places| - 1];
        PickedChosen(applied, ms[..n], places);
      }
    }
  }

  /** A registered configuration, field by field, of a base and modifiers. */
  ghost predicate Describes(r: Registered, b: Base, applied: seq<Modifier>) {
    && (forall x :: x in r.config.id <==> x in b.id || exists m :: m in applied && x in m.bitmask)
    && r.config.name.base == b.name && r.config.steps == b.steps && r.config.applied == applied
    && (forall n :: n in r.config.name.modifiers <==> exists m :: m in applied && m.displayName == n)
    && (forall c :: c in r.modifierClasses <==> exists m :: m in applied && m.class_ == c)
  }

  lemma {:induction false} EntryDescribes(b: Base, applied: seq<Modifier>)
    ensures Describes(Entry(b, applied), b, applied)
    ensures forall r :: Describes(r, b, applied) ==> r == Entry(b, applied)
  {
    var e := Entry(b, applied);
    forall x ensures x in e.config.id <==> x in b.id || exists m :: m in applied && x in m.bitmask {
      BitsAre(applied, x);
      assert forall m :: m in Elems(applied) <==> m in applied;
    }
    forall n ensures n in e.config.name.modifiers <==> exists m :: m in applied && m.displayName == n {
      if m :| m in applied && m.displayName == n {
        var k :| 0 <= k < |applied| && applied[k] == m;
      }
    }
    forall c ensures c in e.modifierClasses <==> exists m :: m in applied && m.class_ == c {
      if m :| m in applied && m.class_ == c {
        var k :| 0 <= k < |applied| && applied[k] == m;
      }
    }
    forall r | Describes(r, b, applied) ensures r == e {
      assert r.config.id == e.config.id && r.config.name.modifiers == e.config.name.modifiers && r.modifierClasses == e.modifierClasses;
    }
  }

  /** One base and modifiers from the list, in its order, no two of one class. */
  ghost predicate Combination(bases: seq<Base>, ms: seq<Modifier>, b: Base, applied: seq<Modifier>) {
    && b in bases && Picked(ms, applied)
    && forall k, l :: 0 <= k < |applied| && 0 <= l < |applied| && k != l ==> applied[k].class_ != applied[l].class_
  }

  lemma {:induction false} ChoiceIff(bases: seq<Base>, ms: seq<Modifier>, b: Base, applied: seq<Modifier>)
    ensures Choice(bases, ms, b, applied) <==> Combination(bases, ms, b, applied)
  {
    if Chosen(applied, ms) {
      var places := ChosenPicked(applied, ms);
    }
    if Picked(ms, applied) {
      var places :| PickedAt(ms, applied, places);
      PickedChosen(applied, ms, places);
    }
  }

  ghost predicate Registers(configs: map<Id, Registered>, r: Registered) {
    r.config.id in configs && configs[r.config.id] == r
  }

  ghost predicate DescribesSome(bases: seq<Base>, ms: seq<Modifier>, r: Registered) {
    exists b, applied :: Combination(bases, ms, b, applied) && Describes(r, b, applied)
  }

  /** Where choices with the same id are alike, the configurations registered are exactly those of a base and modifiers of different classes. */
  lemma {:induction false} RegisteredIff(configs: map<Id, Registered>, bases: seq<Base>, ms: seq<Modifier>, r: Registered)
    requires Closed(configs, bases, ms)
    ensures Registers(configs, r) <==> DescribesSome(bases, ms, r)
  {
    hide Choice, Combination, Entry, Bits, Describes, FromChoice;
    if Registers(configs, r) {
      var b, applied := EntryFrom(configs, bases, ms, r.config.id);
      ChoiceIff(bases, ms, b, applied);
      EntryDescribes(b, applied);
    }
    if DescribesSome(bases, ms, r) {
      var b, applied :| Combination(bases, ms, b, applied) && Describes(r, b, applied);
      ChoiceIff(bases, ms, b, applied);
      EntryDescribes(b, applied);
      EntryId(b, applied);
    }
  }

  lemma {:induction false} EntryId(b: Base, applied: seq<Modifier>)
    ensures Entry(b, applied).config.id == b.id + Bits(applied)
  {
  }

  // ---------- The order of the modifiers ----------

  /** The modifiers of `chosen`, in the order of ms. */
  ghost function InOrderOf(ms: seq<Modifier>, chosen: set<Modifier>): seq<Modifier> {
    if ms == [] then [] else
      InOrderOf(ms[..|ms| - 1], chosen) + if ms[|ms| - 1] in chosen then [ms[|ms| - 1]] else []
  }

  lemma {:induction false} InOrderChosen(ms: seq<Modifier>, chosen: set<Modifier>)
    ensures Chosen(InOrderOf(ms, chosen), ms)
    ensures Elems(InOrderOf(ms, chosen)) == chosen * Elems(ms)
  {
    if ms == [] {
      assert Elems<Modifier>([]) == {};
    } else {
      var n := |ms| - 1;
      var before := InOrderOf(ms[..n], chosen);
      InOrderChosen(ms[..n], chosen);
      assert ms == ms[..n] + [ms[n]];
      ElemsAppend(ms[..n], ms[n]);
      ElemsAppend(before, ms[n]);
      assert (before + [ms[n]])[..|before|] == before;
      assert before + [] == before;
    }
  }

  lemma {:induction false} ChosenElems(applied: seq<Modifier>, ms: seq<Modifier>)
    requires Chosen(applied, ms) && NoDup(ms)
    ensures Elems(applied) <= Elems(ms) && NoDup(applied)
  {
    if ms != [] {
      var n := |ms| - 1;
      assert ms == ms[..n] + [ms[n]];
      ElemsAppend(ms[..n], ms[n]);
      if Chosen(applied, ms[..n]) {
        ChosenElems(applied, ms[..n]);
      } else {
        var before := applied[..|applied| - 1];
        ChosenElems(before, ms[..n]);
        assert applied == before + [ms[n]];
        ElemsAppend(before, ms[n]);
        assert ms[n] !in Elems(ms[..n]);
        assert forall i :: 0 <= i < |before| ==> before[i] in Elems(before);
      }
    }
  }

  lemma {:induction false} BitsAre(applied: seq<Modifier>, x: nat)
    ensures x in Bits(applied) <==> exists m :: m in Elems(applied) && x in m.bitmask
  {
    if applied != [] {
      var n := |applied| - 1;
      assert applied == applied[..n] + [applied[n]];
      ElemsAppend(applied[..n], applied[n]);
      BitsAre(applied[..n], x);
    }
  }

  lemma {:induction false} SameCompatible(one: seq<Modifier>, two: seq<Modifier>)
    requires Elems(one) == Elems(two) && NoDup(two) && Compatible(one)
    ensures Compatible(two)
  {
    forall i, j | 0 <= i < j < |two| ensures two[i].class_ != two[j].class_ {
      assert two[i] in Elems(one) && two[j] in Elems(one);
      var k :| 0 <= k < |one| && one[k] == two[i];
      var l :| 0 <= l < |one| && one[l] == two[j];
    }
  }

  lemma {:induction false} SameLabels(one: seq<Modifier>, two: seq<Modifier>)
    requires Elems(one) <= Elems(two)
    ensures DisplayNames(one) <= DisplayNames(two) && Classes(one) <= Classes(two)
  {
    forall i | 0 <= i < |one| ensures one[i].displayName in DisplayNames(two) && one[i].class_ in Classes(two) {
      assert one[i] in Elems(two);
      var j :| 0 <= j < |two| && two[j] == one[i];
    }
  }

  /** What is registered for a choice depends only on which modifiers are chosen. */
  lemma {:induction false} SameChoice(b: Base, one: seq<Modifier>, two: seq<Modifier>)
    requires Elems(one) == Elems(two) && NoDup(two) && Compatible(one)
    ensures Compatible(two) && Bits(one) == Bits(two)
    ensures Entry(b, one).config.name == Entry(b, two).config.name && Entry(b, one).modifierClasses == Entry(b, two).modifierClasses
  {
    hide Compatible, NoDup, Bits, DisplayNames, Classes;
    SameCompatible(one, two);
    SameLabels(one, two);
    SameLabels(two, one);
    forall x ensures x in Bits(one) <==> x in Bits(two) {
      BitsAre(one, x);
      BitsAre(two, x);
    }
  }

  /** Whatever order the modifiers are processed in, the same ids are registered, with the same names. */
  lemma {:induction false} OrderDoesNotMatter(one: map<Id, Registered>, two: map<Id, Registered>, bases: seq<Base>, ms: seq<Modifier>, ns: seq<Modifier>, id: Id)
    requires Closed(one, bases, ms) && Closed(two, bases, ns) && Elems(ms) == Elems(ns) && NoDup(ms) && NoDup(ns) && id in one
    ensures id in two && two[id].config.name == one[id].config.name && two[id].modifierClasses == one[id].modifierClasses
  {
    var b, applied := EntryFrom(one, bases, ms, id);
    ChosenElems(applied, ms);
    var other := InOrderOf(ns, Elems(applied));
    InOrderChosen(ns, Elems(applied));
    assert Elems(other) == Elems(applied);
    ChosenElems(other, ns);
    SameChoice(b, applied, other);
    assert b.id + Bits(other) in two;
  }
}
