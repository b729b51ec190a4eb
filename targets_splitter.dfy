/**
 * Dynamic mode: the splitter that turns the configured properties into a
 * list of parameter maps, one per target. Targets are grouped by the index
 * parsed as a Java int, so `target.1.x` and `target.01.x` belong to the
 * same target, and an index beyond the int range fails the whole split.
 */
module TargetsSplitter {
  import opened Wrappers
  import opened TargetKeys

  /** `Integer.MAX_VALUE`. */
  const MaxInt: nat := 0x7fff_ffff

  const Dhis2TargetEndpointUri: string := "direct:dhis2Target"

  /** The values filled in by put-if-absent on every target of the list. */
  const SplitDefaults: map<string, string> := map[
    "idScheme" := "uid",
    "endpointUri" := Dhis2TargetEndpointUri,
    "fieldsRequireApproval" := ""]

  /** What `Integer.parseInt` throws for a number outside the int range, with the text it was given. */
  datatype NumberFormatException = NumberFormatException(input: string)

  /** `Integer.parseInt` on a non-empty ASCII digit string. */
  function ParseInt(d: string): (r: Result<nat, NumberFormatException>)
    requires |d| > 0 && AllDigits(d)
    ensures r.Success? <==> DigitsValue(d) <= MaxInt
    ensures r.Success? ==> r.value == DigitsValue(d)
    ensures r.Failure? ==> r.error.input == d
  {
    var v := DigitsValue(d);
    if v <= MaxInt then Success(v) else Failure(NumberFormatException(d))
  }

  /** A matching key whose index does not fit in an int. */
  predicate Overflows(key: string) {
    Parse(key).Some? && ParseInt(Parse(key).value.index).Failure?
  }

  /** The int index a matching key contributes, when it fits. */
  function IntIndex(key: string): (i: Option<nat>) {
    if Parse(key).Some? && ParseInt(Parse(key).value.index).Success?
    then Some(ParseInt(Parse(key).value.index).value)
    else None
  }

  /** Key `key` sets entry `n` of the target with int index `i`. */
  predicate Sets(key: string, i: nat, n: string) {
    IntIndex(key) == Some(i) && Parse(key).value.name == n
  }

  // ------------------------------------------------------------ specification

  /**
   * The targets by int index after scanning `entries` in order: each entry
   * puts its value under its name and adds `index` = String.valueOf(i) when
   * the target has none yet.
   */
  function Grouped(entries: seq<(string, string)>): (g: map<nat, map<string, string>>)
    ensures |entries| > 0 && IntIndex(entries[|entries| - 1].0).Some? ==>
              var key := entries[|entries| - 1].0;
              var i, n := IntIndex(key).value, Parse(key).value.name;
              i in g && n in g[i] && g[i][n] == entries[|entries| - 1].1
  {
    if entries == [] then map[]
    else GroupStep(Grouped(entries[..|entries| - 1]), entries[|entries| - 1].0, entries[|entries| - 1].1)
  }

  /** One property scanned into the targets by int index. */
  function GroupStep(g: map<nat, map<string, string>>, key: string, value: string): (r: map<nat, map<string, string>>)
    ensures IntIndex(key).None? ==> r == g
    ensures IntIndex(key).Some? ==>
              var i := IntIndex(key).value;
              i in r && "index" in r[i] && Parse(key).value.name in r[i] && r[i][Parse(key).value.name] == value
  {
    if IntIndex(key).None? then g
    else
      var i := IntIndex(key).value;
      var target := if i in g then g[i] else map[];
      g[i := PutIfAbsent(target[Parse(key).value.name := value], "index", DecimalString(i))]
  }

  /** Scanning one more property of `entries` is one more step. */
  lemma GroupedPrefix(entries: seq<(string, string)>, i: nat)
    requires i < |entries|
    ensures Grouped(entries[..i + 1]) == GroupStep(Grouped(entries[..i]), entries[i].0, entries[i].1)
  {
    assert entries[..i + 1][..i] == entries[..i];
  }

  /** `order` lists every element of `s` exactly once. */
  ghost predicate IsListing(order: seq<nat>, s: set<nat>) {
    (forall p, q :: 0 <= p < q < |order| ==> order[p] != order[q]) &&
    (forall i :: i in s <==> i in order)
  }

  // ------------------------------------------------------------------ split

  /**
   * split(): scans the properties in their iteration order, failing at the
   * first index that does not fit in an int; lists the targets in an order
   * the model leaves open (that of HashMap.values()); and fills the
   * defaults of each listed target.
   */
  method Split(properties: seq<(string, string)>)
    returns (r: Result<seq<map<string, string>>, NumberFormatException>, ghost order: seq<nat>)
    ensures r.Failure? <==> exists j :: 0 <= j < |properties| && Overflows(properties[j].0)
    ensures r.Failure? ==>
              exists j :: 0 <= j < |properties| && Overflows(properties[j].0) &&
                          (forall j' :: 0 <= j' < j ==> !Overflows(properties[j'].0)) &&
                          r.error == NumberFormatException(Parse(properties[j].0).value.index)
    ensures r.Success? ==>
              IsListing(order, Grouped(properties).Keys) && |r.value| == |order| &&
              forall p :: 0 <= p < |order| ==> r.value[p] == SplitDefaults + Grouped(properties)[order[p]]
  {
    var grouped := GroupByIndex(properties);
    if grouped.Failure? {
      return Failure(grouped.error), [];
    }
    var targets;
    targets, order := ListValues(grouped.value);
    targets := FillListDefaults(targets);
    r := Success(targets);
  }

  /** The loop over the property entries of split(), up to the first index that does not fit in an int. */
  method GroupByIndex(properties: seq<(string, string)>)
    returns (r: Result<map<nat, map<string, string>>, NumberFormatException>)
    ensures r.Failure? <==> exists j :: 0 <= j < |properties| && Overflows(properties[j].0)
    ensures r.Failure? ==>
              exists j :: 0 <= j < |properties| && Overflows(properties[j].0) &&
                          (forall j' :: 0 <= j' < j ==> !Overflows(properties[j'].0)) &&
                          r.error == NumberFormatException(Parse(properties[j].0).value.index)
    ensures r.Success? ==> r.value == Grouped(properties)
  {
    var targetsByIndex: map<nat, map<string, string>> := map[];
    var i := 0;
    while i < |properties|
      invariant 0 <= i <= |properties|
      invariant forall j :: 0 <= j < i ==> !Overflows(properties[j].0)
      invariant targetsByIndex == Grouped(properties[..i])
    {
      var key, value := properties[i].0, properties[i].1;
      GroupedPrefix(properties, i);
      var groups := Parse(key);
      if groups.Some? {
        var parsed := ParseInt(groups.value.index);
        if parsed.Failure? {
          assert Overflows(properties[i].0);
          return Failure(parsed.error);
        }
      }
      targetsByIndex := AddProperty(targetsByIndex, key, value);
      i := i + 1;
    }
    assert properties[..i] == properties;
    r := Success(targetsByIndex);
  }

  /** One iteration of the loop of split() on a key whose index, if any, fits in an int. */
  method AddProperty(targetsByIndex: map<nat, map<string, string>>, key: string, value: string)
    returns (r: map<nat, map<string, string>>)
    requires !Overflows(key)
    ensures r == GroupStep(targetsByIndex, key, value)
  {
    r := targetsByIndex;
    var groups := Parse(key);
    if groups.Some? {
      var index := ParseInt(groups.value.index).value;
      var target := if index in r then r[index] else map[];
      target := target[groups.value.name := value];
      target := PutIfAbsent(target, "index", DecimalString(index));
      r := r[index := target];
    }
  }

  /** The loop over the list: each target gets the defaults it lacks; nothing it has is overwritten. */
  method FillListDefaults(targets: seq<map<string, string>>) returns (filled: seq<map<string, string>>)
    ensures |filled| == |targets|
    ensures forall p :: 0 <= p < |targets| ==> filled[p] == SplitDefaults + targets[p]
  {
    filled := targets;
    for p := 0 to |filled|
      invariant |filled| == |targets|
      invariant forall q :: 0 <= q < p ==> filled[q] == SplitDefaults + targets[q]
      invariant forall q :: p <= q < |filled| ==> filled[q] == targets[q]
    {
      var target := filled[p];
      assert target == map[] + targets[p];
      PutIfAbsentStep(map[], targets[p], "idScheme", "uid");
      target := PutIfAbsent(target, "idScheme", "uid");
      PutIfAbsentStep(map["idScheme" := "uid"], targets[p], "endpointUri", Dhis2TargetEndpointUri);
      target := PutIfAbsent(target, "endpointUri", Dhis2TargetEndpointUri);
      PutIfAbsentStep(map["idScheme" := "uid", "endpointUri" := Dhis2TargetEndpointUri], targets[p],
        "fieldsRequireApproval", "");
      target := PutIfAbsent(target, "fieldsRequireApproval", "");
      filled := filled[p := target];
    }
  }

  /** `new ArrayList<>(m.values())`: the values of `m` in some order, each key's value once. */
  method ListValues(m: map<nat, map<string, string>>) returns (values: seq<map<string, string>>, ghost order: seq<nat>)
    ensures IsListing(order, m.Keys) && |values| == |order|
    ensures forall p :: 0 <= p < |order| ==> order[p] in m && values[p] == m[order[p]]
  {
    values, order := [], [];
    var pending := m.Keys;
    while pending != {}
      invariant pending <= m.Keys
      invariant forall p, q :: 0 <= p < q < |order| ==> order[p] != order[q]
      invariant forall i :: i in m <==> i in pending || i in order
      invariant forall i :: i in pending ==> i !in order
      invariant |values| == |order|
      invariant forall p :: 0 <= p < |order| ==> order[p] in m && values[p] == m[order[p]]
      decreases pending
    {
      var i :| i in pending;
      values, order := values + [m[i]], order + [i];
      pending := pending - {i};
    }
  }

  // ------------------------------------------------------------- properties

  /** A step adds the target of its key's int index and no other. */
  lemma StepKeys(g: map<nat, map<string, string>>, key: string, value: string)
    ensures GroupStep(g, key, value).Keys == if IntIndex(key).Some? then g.Keys + {IntIndex(key).value} else g.Keys
  {
  }

  /** A step leaves the targets of other indices alone. */
  lemma StepOther(g: map<nat, map<string, string>>, key: string, value: string, i: nat)
    requires i in g && IntIndex(key) != Some(i)
    ensures GroupStep(g, key, value)[i] == g[i]
  {
  }

  /** A step on target `i` sets its key's name, adds `index` if absent, and keeps every other entry. */
  lemma StepSame(g: map<nat, map<string, string>>, key: string, value: string, n: string)
    requires IntIndex(key).Some?
    ensures var i, name := IntIndex(key).value, Parse(key).value.name;
            var before := if i in g then g[i] else map[];
            var after := GroupStep(g, key, value)[i];
            (n in after <==> n in before || n == name || n == "index") &&
            (n == name ==> after[n] == value) &&
            (n != name && n in before ==> after[n] == before[n]) &&
            (n != name && n !in before && n == "index" ==> after[n] == DecimalString(i))
  {
  }

  /** Some key of `entries` contributes int index `i`. */
  predicate HasIndex(entries: seq<(string, string)>, i: nat) {
    exists j :: 0 <= j < |entries| && IntIndex(entries[j].0) == Some(i)
  }

  /** Some key of `entries` sets entry `n` of the target with int index `i`. */
  predicate HasSetter(entries: seq<(string, string)>, i: nat, n: string) {
    exists j :: 0 <= j < |entries| && Sets(entries[j].0, i, n)
  }

  lemma HasIndexPrefix(entries: seq<(string, string)>, i: nat)
    requires |entries| > 0
    ensures HasIndex(entries, i) <==>
            HasIndex(entries[..|entries| - 1], i) || IntIndex(entries[|entries| - 1].0) == Some(i)
  {
    var init := entries[..|entries| - 1];
    if HasIndex(init, i) {
      var j :| 0 <= j < |init| && IntIndex(init[j].0) == Some(i);
      assert entries[j] == init[j];
    }
    if HasIndex(entries, i) {
      var j :| 0 <= j < |entries| && IntIndex(entries[j].0) == Some(i);
      if j < |init| {
        assert init[j] == entries[j];
      }
    }
  }

  lemma HasSetterPrefix(entries: seq<(string, string)>, i: nat, n: string)
    requires |entries| > 0
    ensures HasSetter(entries, i, n) <==>
            HasSetter(entries[..|entries| - 1], i, n) || Sets(entries[|entries| - 1].0, i, n)
  {
    var init := entries[..|entries| - 1];
    if HasSetter(init, i, n) {
      var j :| 0 <= j < |init| && Sets(init[j].0, i, n);
      assert entries[j] == init[j];
    }
    if HasSetter(entries, i, n) {
      var j :| 0 <= j < |entries| && Sets(entries[j].0, i, n);
      if j < |init| {
        assert init[j] == entries[j];
      }
    }
  }

  lemma SetterHasIndex(entries: seq<(string, string)>, i: nat, n: string)
    requires HasSetter(entries, i, n)
    ensures HasIndex(entries, i)
  {
  }

  /** Exactly the int indices some scanned key contributes are targets. */
  lemma {:induction false} GroupedKeys(entries: seq<(string, string)>)
    ensures forall i :: i in Grouped(entries) <==> HasIndex(entries, i)
  {
    if entries != [] {
      var last := |entries| - 1;
      var init := entries[..last];
      GroupedKeys(init);
      StepKeys(Grouped(init), entries[last].0, entries[last].1);
      forall i
        ensures i in Grouped(entries) <==> HasIndex(entries, i)
      {
        HasIndexPrefix(entries, i);
      }
    }
  }

  /**
   * The last key, in iteration order, that sets entry `n` of target `i` wins:
   * `target.1.x` and `target.01.x` overwrite each other.
   */
  lemma {:induction false} GroupedLastWins(entries: seq<(string, string)>, j: nat)
    requires j < |entries| && IntIndex(entries[j].0).Some?
    requires forall j' :: j < j' < |entries| ==>
               !Sets(entries[j'].0, IntIndex(entries[j].0).value, Parse(entries[j].0).value.name)
    ensures var i, n := IntIndex(entries[j].0).value, Parse(entries[j].0).value.name;
            i in Grouped(entries) && n in Grouped(entries)[i] && Grouped(entries)[i][n] == entries[j].1
  {
    var last := |entries| - 1;
    var init := entries[..last];
    var i, n := IntIndex(entries[j].0).value, Parse(entries[j].0).value.name;
    StepKeys(Grouped(init), entries[last].0, entries[last].1);
    if j < last {
      assert init[j] == entries[j];
      forall j' | j < j' < |init|
        ensures !Sets(init[j'].0, i, n)
      {
        assert init[j'] == entries[j'];
      }
      GroupedLastWins(init, j);
      if IntIndex(entries[last].0) == Some(i) {
        StepSame(Grouped(init), entries[last].0, entries[last].1, n);
      } else {
        StepOther(Grouped(init), entries[last].0, entries[last].1, i);
      }
    } else {
      StepSame(Grouped(init), entries[last].0, entries[last].1, n);
    }
  }

  /**
   * A target holds `index` and the names its keys set, nothing else; its
   * `index` is String.valueOf(i) unless a key sets it.
   */
  lemma {:induction false} GroupedNames(entries: seq<(string, string)>, i: nat, n: string)
    requires i in Grouped(entries)
    ensures n in Grouped(entries)[i] <==> n == "index" || HasSetter(entries, i, n)
    ensures !HasSetter(entries, i, "index") ==>
              "index" in Grouped(entries)[i] && Grouped(entries)[i]["index"] == DecimalString(i)
  {
    var last := |entries| - 1;
    var init := entries[..last];
    var key, value := entries[last].0, entries[last].1;
    StepKeys(Grouped(init), key, value);
    GroupedKeys(init);
    HasSetterPrefix(entries, i, n);
    HasSetterPrefix(entries, i, "index");
    if i in Grouped(init) {
      GroupedNames(init, i, n);
      GroupedNames(init, i, "index");
    } else {
      if HasSetter(init, i, n) {
        SetterHasIndex(init, i, n);
      }
      if HasSetter(init, i, "index") {
        SetterHasIndex(init, i, "index");
      }
    }
    if IntIndex(key) == Some(i) {
      StepSame(Grouped(init), key, value, n);
      StepSame(Grouped(init), key, value, "index");
    } else {
      StepOther(Grouped(init), key, value, i);
    }
  }

  /**
   * Every listed target carries `index` and every default name; a default
   * shows only where the target has no entry of that name.
   */
  lemma ListedTargetComplete(entries: seq<(string, string)>, i: nat)
    requires i in Grouped(entries)
    ensures var t := SplitDefaults + Grouped(entries)[i];
            "index" in t && SplitDefaults.Keys <= t.Keys &&
            forall n :: n in t ==> t[n] == if n in Grouped(entries)[i] then Grouped(entries)[i][n] else SplitDefaults[n]
  {
    GroupedNames(entries, i, "index");
  }

  /** parseInt reads back every rendered int: the `index` entry names its own target. */
  lemma ParseIntRoundTrip(n: nat)
    requires n <= MaxInt
    ensures ParseInt(DecimalString(n)) == Success(n)
  {
    DecimalRoundTrip(n);
  }

  /** The default `index` entry repeats the key's digits exactly when they are canonical. */
  lemma IndexEntryCanonical(d: string)
    requires |d| > 0 && AllDigits(d)
    ensures DecimalString(DigitsValue(d)) == d <==> Canonical(d)
  {
    DecimalCanonical(DigitsValue(d));
    if Canonical(d) {
      CanonicalRoundTrip(d);
    }
  }

  /** Without an overflow, the targets are the index digit strings of the map, read as numbers. */
  lemma GroupedKeysFromIndices(entries: seq<(string, string)>)
    requires DistinctKeys(entries)
    requires forall j :: 0 <= j < |entries| ==> !Overflows(entries[j].0)
    ensures forall i :: i in Grouped(entries) <==>
              exists d :: d in Indices(MapOf(entries)) && |d| > 0 && AllDigits(d) && DigitsValue(d) == i
  {
    forall i | i in Grouped(entries)
      ensures exists d :: d in Indices(MapOf(entries)) && |d| > 0 && AllDigits(d) && DigitsValue(d) == i
    {
      DynamicIndexIsStatic(entries, i);
    }
    forall i | exists d :: d in Indices(MapOf(entries)) && |d| > 0 && AllDigits(d) && DigitsValue(d) == i
      ensures i in Grouped(entries)
    {
      var d :| d in Indices(MapOf(entries)) && |d| > 0 && AllDigits(d) && DigitsValue(d) == i;
      StaticIndexIsDynamic(entries, d);
    }
  }

  lemma DynamicIndexIsStatic(entries: seq<(string, string)>, i: nat)
    requires DistinctKeys(entries) && i in Grouped(entries)
    ensures exists d :: d in Indices(MapOf(entries)) && |d| > 0 && AllDigits(d) && DigitsValue(d) == i
  {
    GroupedKeys(entries);
    var j :| 0 <= j < |entries| && IntIndex(entries[j].0) == Some(i);
    var k := entries[j].0;
    var d := Parse(k).value.index;
    MapOfEntries(entries);
    assert k in MapOf(entries);
    assert d in Indices(MapOf(entries));
  }

  lemma StaticIndexIsDynamic(entries: seq<(string, string)>, d: string)
    requires DistinctKeys(entries) && d in Indices(MapOf(entries))
    requires forall j :: 0 <= j < |entries| ==> !Overflows(entries[j].0)
    ensures |d| > 0 && AllDigits(d) && DigitsValue(d) in Grouped(entries)
  {
    var k :| k in MapOf(entries) && Parse(k).Some? && Parse(k).value.index == d;
    MapOfEntries(entries);
    var j :| 0 <= j < |entries| && entries[j].0 == k;
    assert IntIndex(entries[j].0) == Some(DigitsValue(d));
    GroupedKeys(entries);
  }

  /**
   * Two different digit strings with the same value, such as "1" and "01",
   * make two targets to the static parameter source but a single target here.
   */
  lemma SameValueMerges(d1: string, n1: string, v1: string, d2: string, n2: string, v2: string)
    requires |d1| > 0 && AllDigits(d1) && |d2| > 0 && AllDigits(d2) && d1 != d2
    requires DigitsValue(d1) == DigitsValue(d2) <= MaxInt
    requires |n1| > 0 && NoLineTerminator(n1) && |n2| > 0 && NoLineTerminator(n2)
    ensures var entries := [(PropertyKey(d1, n1), v1), (PropertyKey(d2, n2), v2)];
            Indices(MapOf(entries)) == {d1, d2} && |Indices(MapOf(entries))| == 2 &&
            Grouped(entries).Keys == {DigitsValue(d1)}
  {
    var k1, k2 := PropertyKey(d1, n1), PropertyKey(d2, n2);
    PropertyKeyParses(d1, n1);
    PropertyKeyParses(d2, n2);
    TwoKeysIndices(k1, v1, k2, v2);
    PropertyKeyIntIndex(d1, n1);
    PropertyKeyIntIndex(d2, n2);
    TwoKeysGrouped(k1, v1, k2, v2);
  }

  /** `target.<d>.x` and `target.0<d>.y`: two static targets, one dynamic target. */
  lemma LeadingZeroMerges(d: string, n1: string, v1: string, n2: string, v2: string)
    requires |d| > 0 && AllDigits(d) && DigitsValue(d) <= MaxInt
    requires |n1| > 0 && NoLineTerminator(n1) && |n2| > 0 && NoLineTerminator(n2)
    ensures var entries := [(PropertyKey(d, n1), v1), (PropertyKey("0" + d, n2), v2)];
            |Indices(MapOf(entries))| == 2 && Grouped(entries).Keys == {DigitsValue(d)}
  {
    LeadingZeroSameValue(d);
    assert d != "0" + d by {
      assert |d| != |"0" + d|;
    }
    SameValueMerges(d, n1, v1, "0" + d, n2, v2);
  }

  /**
   * The result depends on the iteration order when two keys name the same
   * entry of the same int index: `target.<d>.n` and `target.0<d>.n` scanned
   * in either order leave the value scanned last.
   */
  lemma CollisionOrderMatters(d: string, n: string, v1: string, v2: string)
    requires |d| > 0 && AllDigits(d) && DigitsValue(d) <= MaxInt
    requires |n| > 0 && NoLineTerminator(n)
    ensures var k1, k2, i := PropertyKey(d, n), PropertyKey("0" + d, n), DigitsValue(d);
            var forward, backward := Grouped([(k1, v1), (k2, v2)]), Grouped([(k2, v2), (k1, v1)]);
            i in forward && n in forward[i] && forward[i][n] == v2 &&
            i in backward && n in backward[i] && backward[i][n] == v1
  {
    var k1, k2 := PropertyKey(d, n), PropertyKey("0" + d, n);
    LeadingZeroSameValue(d);
    PropertyKeyParses(d, n);
    PropertyKeyParses("0" + d, n);
    PropertyKeyIntIndex(d, n);
    PropertyKeyIntIndex("0" + d, n);
    GroupedLastWins([(k1, v1), (k2, v2)], 1);
    GroupedLastWins([(k2, v2), (k1, v1)], 1);
  }

  /** The int index of `target.<d>.<n>` is the value of `d` when it fits. */
  lemma PropertyKeyIntIndex(d: string, n: string)
    requires |d| > 0 && AllDigits(d) && DigitsValue(d) <= MaxInt
    requires |n| > 0 && NoLineTerminator(n)
    ensures IntIndex(PropertyKey(d, n)) == Some(DigitsValue(d))
  {
    PropertyKeyParses(d, n);
  }

  /** The index digit strings of a two-property source. */
  lemma TwoKeysIndices(k1: string, v1: string, k2: string, v2: string)
    requires Parse(k1).Some? && Parse(k2).Some?
    ensures Indices(MapOf([(k1, v1), (k2, v2)])) == {Parse(k1).value.index, Parse(k2).value.index}
  {
    var entries := [(k1, v1), (k2, v2)];
    assert entries[..1] == [(k1, v1)] && [(k1, v1)][..0] == [];
    var m := MapOf(entries);
    assert m == MapOf([(k1, v1)])[k2 := v2];
    assert MapOf([(k1, v1)]) == map[][k1 := v1];
    assert k1 in m && k2 in m;
    forall x | x in Indices(m)
      ensures x == Parse(k1).value.index || x == Parse(k2).value.index
    {
      var k :| k in m && Parse(k).Some? && Parse(k).value.index == x;
    }
  }

  /** The int indices of a two-property source whose keys both fit. */
  lemma TwoKeysGrouped(k1: string, v1: string, k2: string, v2: string)
    requires IntIndex(k1).Some? && IntIndex(k2).Some?
    ensures Grouped([(k1, v1), (k2, v2)]).Keys == {IntIndex(k1).value, IntIndex(k2).value}
  {
    var entries := [(k1, v1), (k2, v2)];
    assert entries[..1] == [(k1, v1)] && [(k1, v1)][..0] == [];
    assert Grouped(entries) == GroupStep(Grouped([(k1, v1)]), k2, v2);
    assert Grouped([(k1, v1)]) == GroupStep(map[], k1, v1);
    StepKeys(map[], k1, v1);
    StepKeys(Grouped([(k1, v1)]), k2, v2);
  }
}
