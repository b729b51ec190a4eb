/**
 * Static mode: the parameter source that names one subscriber route per
 * configured target. `Parameters` looks a route's target up by the last
 * character of the route id, which is the route's own target only for
 * single-digit indices; `ParametersByIndex` is the corrected lookup.
 * Targets are grouped by the index DIGIT STRING, so `target.1.x` and
 * `target.01.x` belong to two different targets.
 */
module RouteTemplateSource {
  import opened Wrappers
  import opened TargetKeys

  const AdminDhis2UserId: string := "M5zQapPyTZI"
  const Dhis2DirectEndpointName: string := "dhis2Target"
  const ImportUidScheme: string := "uid"
  const AllowedOperations: string := "c,u,d"

  /** The parameter name under which a route template id is passed to the template engine. */
  const TemplateIdParameter: string := "templateId"
  const TemplateName: string := "metadataSubscriberRouteTemplate"

  /** The values filled in by put-if-absent once every property has been scanned. */
  const Defaults: map<string, string> := map[
    "idScheme" := ImportUidScheme,
    "camelDirectEndpointName" := Dhis2DirectEndpointName,
    "fieldsRequireApproval" := "",
    "messageConversationUserId" := AdminDhis2UserId,
    "allowedOperations" := AllowedOperations]

  // ------------------------------------------------------------ specification

  /** The properties configured explicitly for index digits `d`: remaining name to value. */
  ghost function Explicit(m: map<string, string>, d: string): map<string, string> {
    map n | n in Names(m, d) :: NameHasKey(m, d, n); m[PropertyKey(d, n)]
  }

  /** The remaining names captured from the matching keys of index digits `d`. */
  ghost function Names(m: map<string, string>, d: string): set<string> {
    set k | k in m && IndexOf(k) == Some(d) :: Parse(k).value.name
  }

  /** Each captured name comes from exactly the key `target.<d>.<n>`. */
  lemma NameHasKey(m: map<string, string>, d: string, n: string)
    requires n in Names(m, d)
    ensures PropertyKey(d, n) in m && IsTargetKey(PropertyKey(d, n), d, n)
  {
    var k :| k in m && IndexOf(k) == Some(d) && Parse(k).value.name == n;
    ParseMatchesPattern(k, d, n);
  }

  /** A target as the scan leaves it: the explicit entries, plus `index` = the digits unless configured. */
  ghost function Scanned(m: map<string, string>, d: string): map<string, string> {
    map["index" := d] + Explicit(m, d)
  }

  /** One scanned target per distinct index digit string. */
  ghost function ScannedTargets(m: map<string, string>): (t: map<string, map<string, string>>)
    ensures t.Keys == Indices(m)
  {
    map d | d in Indices(m) :: Scanned(m, d)
  }

  /** Every target of `targets` with the defaults filled where absent. */
  function WithDefaults(targets: map<string, map<string, string>>): (t: map<string, map<string, string>>) {
    map d | d in targets :: Defaults + targets[d]
  }

  /** The resolved targets: every scanned target with the defaults filled where absent. */
  ghost function ResolvedTargets(m: map<string, string>): (t: map<string, map<string, string>>)
    ensures t.Keys == Indices(m)
  {
    WithDefaults(ScannedTargets(m))
  }

  /** The route id of a target: template label, API URL in brackets, index digits. */
  function RouteId(url: string, d: string): (id: string)
    ensures |id| == |url| + |d| + 26
    ensures id[|id| - |d|..] == d && id[|id| - |d| - 2..|id| - |d|] == "]-"
  {
    "metadataSubscriberRoute[" + url + "]-" + d
  }

  /** Java's string concatenation renders a missing `dhis2ApiUrl` as "null". */
  function UrlText(target: map<string, string>): (url: string)
    ensures "dhis2ApiUrl" in target ==> url == target["dhis2ApiUrl"]
    ensures "dhis2ApiUrl" !in target ==> url == "null"
  {
    if "dhis2ApiUrl" in target then target["dhis2ApiUrl"] else "null"
  }

  /** The route ids of the targets of `t` whose index digits are in `S`. */
  ghost function RouteIdsOf(t: map<string, map<string, string>>, S: set<string>): set<string> {
    set d | d in S && d in t :: RouteId(UrlText(t[d]), d)
  }

  /** The route ids of the scanned targets: the URL is read before the defaults are filled. */
  ghost function RouteIdSet(m: map<string, string>): set<string> {
    RouteIdsOf(ScannedTargets(m), Indices(m))
  }

  // ------------------------------------------------------- explicit entries

  /** Name `n` is explicit for `d` exactly when `target.<d>.<n>` is a matching property, with its value. */
  lemma ExplicitAt(m: map<string, string>, d: string, n: string)
    ensures n in Explicit(m, d) <==> PropertyKey(d, n) in m && IsTargetKey(PropertyKey(d, n), d, n)
    ensures n in Explicit(m, d) ==> Explicit(m, d)[n] == m[PropertyKey(d, n)]
  {
    var k := PropertyKey(d, n);
    if n in Explicit(m, d) {
      NameHasKey(m, d, n);
    }
    if k in m && IsTargetKey(k, d, n) {
      ParseMatchesPattern(k, d, n);
      assert IndexOf(k) == Some(d);
    }
  }

  /** An index has explicit entries exactly when it is one of the captured indices. */
  lemma ExplicitNonEmpty(m: map<string, string>, d: string)
    ensures d in Indices(m) <==> Explicit(m, d) != map[]
  {
    if d in Indices(m) {
      var k :| k in m && Parse(k).Some? && Parse(k).value.index == d;
      assert Parse(k).value.name in Explicit(m, d);
    }
    if Explicit(m, d) != map[] {
      var n :| n in Explicit(m, d);
      assert n in Names(m, d);
      var k :| k in m && IndexOf(k) == Some(d) && Parse(k).value.name == n;
    }
  }

  /** Writing a key that does not belong to index `d` leaves `d`'s explicit entries alone. */
  lemma ExplicitOther(m: map<string, string>, k: string, v: string, d: string)
    requires IndexOf(k) != Some(d)
    ensures Explicit(m[k := v], d) == Explicit(m, d)
  {
    var m' := m[k := v];
    forall n
      ensures (n in Explicit(m', d) <==> n in Explicit(m, d))
      ensures n in Explicit(m, d) ==> Explicit(m', d)[n] == Explicit(m, d)[n]
    {
      ExplicitAt(m, d, n);
      ExplicitAt(m', d, n);
      if IsTargetKey(PropertyKey(d, n), d, n) {
        ParseMatchesPattern(PropertyKey(d, n), d, n);
      }
    }
  }

  /** Writing `target.<d>.<n>` sets exactly entry `n` of index `d`. */
  lemma ExplicitSame(m: map<string, string>, k: string, v: string)
    requires Parse(k).Some?
    ensures Explicit(m[k := v], Parse(k).value.index) ==
            Explicit(m, Parse(k).value.index)[Parse(k).value.name := v]
  {
    var d, n := Parse(k).value.index, Parse(k).value.name;
    var m' := m[k := v];
    ParseSound(k);
    forall n'
      ensures (n' in Explicit(m', d) <==> n' in Explicit(m, d)[n := v])
      ensures n' in Explicit(m', d) ==> Explicit(m', d)[n'] == Explicit(m, d)[n := v][n']
    {
      ExplicitAt(m, d, n');
      ExplicitAt(m', d, n');
    }
  }

  /** Indices gained by writing one property. */
  lemma IndicesUpdate(m: map<string, string>, k: string, v: string)
    ensures Parse(k).None? ==> Indices(m[k := v]) == Indices(m)
    ensures Parse(k).Some? ==> Indices(m[k := v]) == Indices(m) + {Parse(k).value.index}
  {
    var m' := m[k := v];
    if Parse(k).Some? {
      assert Parse(k).value.index in Indices(m');
    }
    forall d | d in Indices(m')
      ensures d in Indices(m) || (Parse(k).Some? && d == Parse(k).value.index)
    {
      var k' :| k' in m' && Parse(k').Some? && Parse(k').value.index == d;
      if k' != k {
        assert k' in m;
      }
    }
  }

  // ---------------------------------------------------------- the scan step

  /** The target of index `d` after writing a new property `target.<d>.<n>`. */
  lemma ScannedAfterWrite(m: map<string, string>, k: string, v: string)
    requires k !in m && Parse(k).Some?
    ensures var d, n := Parse(k).value.index, Parse(k).value.name;
      var target := if d in Indices(m) then Scanned(m, d) else map[];
      Scanned(m[k := v], d) == PutIfAbsent(target[n := v], "index", d)
  {
    var d := Parse(k).value.index;
    ExplicitSame(m, k, v);
    ExplicitNonEmpty(m, d);
    if d in Indices(m) {
      UpdateKeepsIndex(Explicit(m, d), d, Parse(k).value.name, v);
    } else {
      FirstWrite(d, Parse(k).value.name, v);
    }
  }

  /** Adding entry `n` to a target that already has an `index` entry. */
  lemma UpdateKeepsIndex(e: map<string, string>, d: string, n: string, v: string)
    ensures var target := map["index" := d] + e;
      map["index" := d] + e[n := v] == PutIfAbsent(target[n := v], "index", d)
  {
    var target := map["index" := d] + e;
    assert "index" in target[n := v];
    var lhs, rhs := map["index" := d] + e[n := v], target[n := v];
    assert lhs.Keys == rhs.Keys;
    forall x | x in lhs
      ensures lhs[x] == rhs[x]
    {
    }
  }

  /** The first entry of a new target: the `index` entry is added unless that entry is `index` itself. */
  lemma FirstWrite(d: string, n: string, v: string)
    ensures map["index" := d] + map[][n := v] == PutIfAbsent(map[][n := v], "index", d)
  {
    var lhs, rhs := map["index" := d] + map[][n := v], PutIfAbsent(map[][n := v], "index", d);
    assert lhs.Keys == rhs.Keys;
  }

  /** Writing a key that does not belong to index `d` leaves `d`'s scanned target alone. */
  lemma ScannedOther(m: map<string, string>, k: string, v: string, d: string)
    requires IndexOf(k) != Some(d)
    ensures Scanned(m[k := v], d) == Scanned(m, d)
  {
    ExplicitOther(m, k, v, d);
  }

  /** Writing a property that does not match leaves every scanned target alone. */
  lemma ScanIgnores(m: map<string, string>, k: string, v: string)
    requires Parse(k).None?
    ensures ScannedTargets(m[k := v]) == ScannedTargets(m)
  {
    var m' := m[k := v];
    IndicesUpdate(m, k, v);
    assert ScannedTargets(m').Keys == ScannedTargets(m).Keys;
    forall d | d in ScannedTargets(m)
      ensures ScannedTargets(m')[d] == ScannedTargets(m)[d]
    {
      ExplicitOther(m, k, v, d);
    }
  }

  /**
   * One iteration of the scan loop, whatever the order: processing a new
   * matching property against the targets of the properties seen so far
   * yields the targets of the properties seen so far plus that one.
   */
  lemma ScanAbsorbs(m: map<string, string>, k: string, v: string)
    requires k !in m && Parse(k).Some?
    ensures var d, n := Parse(k).value.index, Parse(k).value.name;
      var target := if d in ScannedTargets(m) then ScannedTargets(m)[d] else map[];
      ScannedTargets(m[k := v]) == ScannedTargets(m)[d := PutIfAbsent(target[n := v], "index", d)]
  {
    var d, n := Parse(k).value.index, Parse(k).value.name;
    var before, after := ScannedTargets(m), ScannedTargets(m[k := v]);
    var target := if d in before then before[d] else map[];
    ScanKeys(m, k, v);
    ScanAbsorbsSame(m, k, v);
    ScanAbsorbsOthers(m, k, v);
    MapUpdateExtensional(before, after, d, PutIfAbsent(target[n := v], "index", d));
  }

  /** A map that agrees with `before` except at `d`, where it holds `x`, is `before[d := x]`. */
  lemma MapUpdateExtensional<K, V>(before: map<K, V>, after: map<K, V>, d: K, x: V)
    requires after.Keys == before.Keys + {d}
    requires d in after && after[d] == x
    requires forall d' :: d' in before && d' != d ==> after[d'] == before[d']
    ensures after == before[d := x]
  {
    MapExtensional(after, before[d := x]);
  }

  /** The scan step at the index of the new property. */
  lemma ScanAbsorbsSame(m: map<string, string>, k: string, v: string)
    requires k !in m && Parse(k).Some?
    ensures var d, n := Parse(k).value.index, Parse(k).value.name;
      var target := if d in ScannedTargets(m) then ScannedTargets(m)[d] else map[];
      d in ScannedTargets(m[k := v]) &&
      ScannedTargets(m[k := v])[d] == PutIfAbsent(target[n := v], "index", d)
  {
    var d := Parse(k).value.index;
    IndicesUpdate(m, k, v);
    ScannedAfterWrite(m, k, v);
  }

  /** The scan step at any other index. */
  lemma ScanAbsorbsOther(m: map<string, string>, k: string, v: string, d': string)
    requires Parse(k).Some? && d' != Parse(k).value.index && d' in ScannedTargets(m)
    ensures d' in ScannedTargets(m[k := v]) && ScannedTargets(m[k := v])[d'] == ScannedTargets(m)[d']
  {
    IndicesUpdate(m, k, v);
    ScannedOther(m, k, v, d');
  }

  /** The scan step leaves the targets of every other index alone. */
  lemma ScanAbsorbsOthers(m: map<string, string>, k: string, v: string)
    requires Parse(k).Some?
    ensures forall d' :: d' in ScannedTargets(m) && d' != Parse(k).value.index ==>
      d' in ScannedTargets(m[k := v]) && ScannedTargets(m[k := v])[d'] == ScannedTargets(m)[d']
  {
    forall d' | d' in ScannedTargets(m) && d' != Parse(k).value.index
      ensures d' in ScannedTargets(m[k := v]) && ScannedTargets(m[k := v])[d'] == ScannedTargets(m)[d']
    {
      ScanAbsorbsOther(m, k, v, d');
    }
  }

  /** The scan step adds the index of a matching property to the targets. */
  lemma ScanKeys(m: map<string, string>, k: string, v: string)
    requires Parse(k).Some?
    ensures ScannedTargets(m[k := v]).Keys == ScannedTargets(m).Keys + {Parse(k).value.index}
  {
    IndicesUpdate(m, k, v);
    TargetsKeys(m);
    TargetsKeys(m[k := v]);
  }

  /** Two maps with the same keys and the same value at every key are equal. */
  lemma MapExtensional<K, V>(a: map<K, V>, b: map<K, V>)
    requires a.Keys == b.Keys
    requires forall x :: x in a ==> a[x] == b[x]
    ensures a == b
  {
  }

  // ------------------------------------- properties of the resolved targets

  /** Exactly the captured index digit strings are targets. */
  lemma TargetsKeys(m: map<string, string>)
    ensures ScannedTargets(m).Keys == Indices(m)
    ensures ResolvedTargets(m).Keys == Indices(m)
  {
  }

  /** A property key that does not match the pattern changes neither the targets nor the route ids. */
  lemma NonTargetKeyIgnored(m: map<string, string>, k: string, v: string)
    requires Parse(k).None?
    ensures ResolvedTargets(m[k := v]) == ResolvedTargets(m)
    ensures RouteIdSet(m[k := v]) == RouteIdSet(m)
  {
    var m' := m[k := v];
    IndicesUpdate(m, k, v);
    assert ResolvedTargets(m').Keys == ResolvedTargets(m).Keys;
    forall d | d in Indices(m)
      ensures ResolvedTargets(m')[d] == ResolvedTargets(m)[d]
      ensures Scanned(m', d) == Scanned(m, d)
    {
      ExplicitOther(m, k, v, d);
    }
    assert RouteIdSet(m') == RouteIdSet(m);
  }

  /**
   * Entry `n` of the resolved target `d`: the configured value of
   * `target.<d>.<n>` whenever that property exists (even when it is ""),
   * otherwise the digits for `index`, the default for a defaulted name,
   * and nothing for any other name.
   */
  lemma ResolvedEntry(m: map<string, string>, d: string, n: string)
    requires d in Indices(m)
    ensures d in ResolvedTargets(m)
    ensures var target, k := ResolvedTargets(m)[d], PropertyKey(d, n);
      if k in m && IsTargetKey(k, d, n) then n in target && target[n] == m[k]
      else if n == "index" then n in target && target[n] == d
      else if n in Defaults then n in target && target[n] == Defaults[n]
      else n !in target
  {
    ExplicitAt(m, d, n);
  }

  /** Every resolved target carries `index` and all five defaulted names. */
  lemma ResolvedTargetComplete(m: map<string, string>, d: string)
    requires d in Indices(m)
    ensures d in ResolvedTargets(m)
    ensures "index" in ResolvedTargets(m)[d]
    ensures Defaults.Keys <= ResolvedTargets(m)[d].Keys
  {
  }

  /** Two keys whose index digit strings differ ("1" and "01") yield two separate targets. */
  lemma DigitStringsSeparateTargets(m: map<string, string>, d1: string, n1: string, d2: string, n2: string)
    requires PropertyKey(d1, n1) in m && IsTargetKey(PropertyKey(d1, n1), d1, n1)
    requires PropertyKey(d2, n2) in m && IsTargetKey(PropertyKey(d2, n2), d2, n2)
    requires d1 != d2
    ensures d1 in ResolvedTargets(m) && d2 in ResolvedTargets(m)
    ensures ResolvedTargets(m)[d1]["index"] != ResolvedTargets(m)[d2]["index"] ||
            PropertyKey(d1, "index") in m || PropertyKey(d2, "index") in m
  {
    PropertyKeyParses(d1, n1);
    PropertyKeyParses(d2, n2);
    assert d1 in Indices(m) && d2 in Indices(m);
    ResolvedEntry(m, d1, "index");
    ResolvedEntry(m, d2, "index");
  }

  // ---------------------------------------------------------------- route ids

  /** Number of digits at the end of `s`. */
  function TrailingDigits(s: string): (len: nat)
    ensures len <= |s|
  {
    if s != [] && IsDigit(s[|s| - 1]) then 1 + TrailingDigits(s[..|s| - 1]) else 0
  }

  /** The index a route id names: its maximal digit suffix. */
  function RouteIdIndex(routeId: string): string {
    routeId[|routeId| - TrailingDigits(routeId)..]
  }

  lemma {:induction false} TrailingDigitsAppend(p: string, d: string)
    requires p != [] && !IsDigit(p[|p| - 1]) && AllDigits(d)
    ensures TrailingDigits(p + d) == |d|
  {
    if d != [] {
      assert (p + d)[..|p + d| - 1] == p + d[..|d| - 1];
      TrailingDigitsAppend(p, d[..|d| - 1]);
    } else {
      assert p + d == p;
    }
  }

  /** The index can be read back from a route id, whatever the URL holds. */
  lemma RouteIdIndexRoundTrip(url: string, d: string)
    requires AllDigits(d)
    ensures RouteIdIndex(RouteId(url, d)) == d
  {
    var p := "metadataSubscriberRoute[" + url + "]-";
    assert RouteId(url, d) == p + d;
    TrailingDigitsAppend(p, d);
  }

  /** Route ids of different indices differ, even when their URLs coincide. */
  lemma RouteIdDistinct(url1: string, d1: string, url2: string, d2: string)
    requires AllDigits(d1) && AllDigits(d2) && d1 != d2
    ensures RouteId(url1, d1) != RouteId(url2, d2)
  {
    RouteIdIndexRoundTrip(url1, d1);
    RouteIdIndexRoundTrip(url2, d2);
  }

  /** The id of an index outside `S` is none of the ids of `S`. */
  lemma RouteIdFresh(t: map<string, map<string, string>>, S: set<string>, x: string)
    requires forall d :: d in S ==> AllDigits(d)
    requires AllDigits(x) && x !in S && x in t
    ensures RouteId(UrlText(t[x]), x) !in RouteIdsOf(t, S)
  {
    var id := RouteId(UrlText(t[x]), x);
    if id in RouteIdsOf(t, S) {
      var y :| y in S && y in t && RouteId(UrlText(t[y]), y) == id;
      RouteIdDistinct(UrlText(t[x]), x, UrlText(t[y]), y);
    }
  }

  /** One route id per index: the ids of a set of digit strings are as many as the strings. */
  lemma {:induction false} RouteIdsCount(t: map<string, map<string, string>>, S: set<string>)
    requires forall d :: d in S ==> AllDigits(d) && d in t
    ensures |RouteIdsOf(t, S)| == |S|
    decreases S
  {
    if S != {} {
      var x :| x in S;
      var rest := S - {x};
      RouteIdsCount(t, rest);
      assert rest + {x} == S;
      RouteIdsAdd(t, rest, x);
      RouteIdFresh(t, rest, x);
      assert RouteIdsOf(t, S) == RouteIdsOf(t, rest) + {RouteId(UrlText(t[x]), x)};
    } else {
      assert RouteIdsOf(t, S) == {};
    }
  }

  /** The captured indices are digit strings. */
  lemma IndicesAreDigits(m: map<string, string>)
    ensures forall d :: d in Indices(m) ==> |d| > 0 && AllDigits(d)
  {
    forall d | d in Indices(m)
      ensures |d| > 0 && AllDigits(d)
    {
      var k :| k in m && Parse(k).Some? && Parse(k).value.index == d;
      ParseSound(k);
    }
  }

  /** routeIds() returns exactly as many ids as there are targets. */
  lemma OneRouteIdPerTarget(m: map<string, string>)
    ensures |RouteIdSet(m)| == |ResolvedTargets(m)| == |Indices(m)|
  {
    IndicesAreDigits(m);
    RouteIdsCount(ScannedTargets(m), Indices(m));
    assert ResolvedTargets(m).Keys == Indices(m);
  }

  /** The route id of target `d` is built from its configured `dhis2ApiUrl`, or "null" without one. */
  lemma RouteIdOfTarget(m: map<string, string>, d: string)
    requires d in Indices(m)
    ensures var k := PropertyKey(d, "dhis2ApiUrl");
      RouteId(if k in m then m[k] else "null", d) in RouteIdSet(m)
  {
    var t := ScannedTargets(m);
    assert d in t && t[d] == Scanned(m, d);
    ExplicitAt(m, d, "dhis2ApiUrl");
    assert UrlText(t[d]) == (if PropertyKey(d, "dhis2ApiUrl") in m then m[PropertyKey(d, "dhis2ApiUrl")] else "null");
    assert RouteId(UrlText(t[d]), d) in RouteIdsOf(t, Indices(m));
  }

  // -------------------------------------------------------------- parameters

  /** The parameters handed to the route template for `target`; the target's own entries are applied last. */
  function TemplateParameters(target: map<string, string>): (p: map<string, Option<string>>)
    ensures p.Keys == target.Keys + {TemplateIdParameter, "clientId"}
    ensures forall n :: n in target ==> p[n] == Some(target[n])
    ensures TemplateIdParameter !in target ==> p[TemplateIdParameter] == Some(TemplateName)
    ensures "clientId" !in target ==>
      p["clientId"] == if "dhis2ApiUrl" in target then Some(target["dhis2ApiUrl"]) else None
  {
    var client := if "dhis2ApiUrl" in target then Some(target["dhis2ApiUrl"]) else None;
    map[TemplateIdParameter := Some(TemplateName), "clientId" := client] + map n | n in target :: Some(target[n])
  }

  /** The lookup key `parameters` takes from a route id: its last character only. */
  function LastCharKey(routeId: string): (key: string)
    requires |routeId| > 0
    ensures |key| == 1 && routeId == routeId[..|routeId| - 1] + key
  {
    routeId[|routeId| - 1..]
  }

  /** For a single-digit index the last character is the index. */
  lemma LastCharKeySingleDigit(url: string, d: string)
    requires |d| == 1
    ensures LastCharKey(RouteId(url, d)) == d
  {
  }

  /** For a multi-digit index the last character is another index: "…]-12" is looked up as "2". */
  lemma LastCharKeyMisroutes(url: string, d: string)
    requires |d| >= 2 && AllDigits(d)
    ensures LastCharKey(RouteId(url, d)) == [d[|d| - 1]]
    ensures LastCharKey(RouteId(url, d)) != d
  {
    var id := RouteId(url, d);
    assert id[|id| - 1] == d[|d| - 1];
  }

  lemma RouteIdsAdd(t: map<string, map<string, string>>, S: set<string>, d: string)
    requires d in t
    ensures RouteIdsOf(t, S + {d}) == RouteIdsOf(t, S) + {RouteId(UrlText(t[d]), d)}
  {
  }

  /**
   * The first loop of routeIds(): each matching property is put under its
   * name in the group of its index digits, whose `index` entry is added if
   * absent. Whatever the iteration order, the result is ScannedTargets.
   */
  method ScanProperties(properties: seq<(string, string)>) returns (t: map<string, map<string, string>>)
    requires DistinctKeys(properties)
    ensures t == ScannedTargets(MapOf(properties))
  {
    t := map[];
    var i := 0;
    while i < |properties|
      invariant 0 <= i <= |properties|
      invariant t == ScannedTargets(MapOf(properties[..i]))
    {
      var key, value := properties[i].0, properties[i].1;
      ghost var seen := MapOf(properties[..i]);
      MapOfStep(properties, i);
      var groups := Parse(key);
      if groups.Some? {
        ScanAbsorbs(seen, key, value);
        var index := groups.value.index;
        var target := if index in t then t[index] else map[];
        target := target[groups.value.name := value];
        target := PutIfAbsent(target, "index", index);
        t := t[index := target];
      } else {
        ScanIgnores(seen, key, value);
      }
      i := i + 1;
    }
    assert properties[..i] == properties;
  }

  /**
   * The second loop of routeIds(): names the route of each target from its
   * `dhis2ApiUrl` as scanned, then fills the defaults of that target.
   */
  method FillDefaultsAndNameRoutes(scanned: map<string, map<string, string>>)
    returns (t: map<string, map<string, string>>, routeIds: set<string>)
    ensures t == WithDefaults(scanned)
    ensures routeIds == RouteIdsOf(scanned, scanned.Keys)
  {
    t := scanned;
    routeIds := {};
    var pending := t.Keys;
    ghost var done: set<string> := {};
    while pending != {}
      invariant pending !! done && pending + done == scanned.Keys && t.Keys == scanned.Keys
      invariant forall d :: d in t ==> t[d] == if d in pending then scanned[d] else Defaults + scanned[d]
      invariant routeIds == RouteIdsOf(scanned, done)
      decreases pending
    {
      var index :| index in pending;
      var target := t[index];
      routeIds := routeIds + {RouteId(UrlText(target), index)};
      target := AddDefaults(target);
      t := t[index := target];
      RouteIdsAdd(scanned, done, index);
      pending, done := pending - {index}, done + {index};
    }
    assert t == WithDefaults(scanned) by {
      forall d | d in t
        ensures t[d] == WithDefaults(scanned)[d]
      {
      }
      MapExtensional(t, WithDefaults(scanned));
    }
  }

  /** The put-if-absent calls on one target: the defaults it lacks are added, nothing it has is overwritten. */
  method AddDefaults(target: map<string, string>) returns (filled: map<string, string>)
    ensures filled == Defaults + target
  {
    filled := target;
    assert filled == map[] + target;
    ghost var D: map<string, string> := map[];
    PutIfAbsentStep(D, target, "idScheme", ImportUidScheme);
    filled, D := PutIfAbsent(filled, "idScheme", ImportUidScheme), D["idScheme" := ImportUidScheme];
    PutIfAbsentStep(D, target, "camelDirectEndpointName", Dhis2DirectEndpointName);
    filled, D := PutIfAbsent(filled, "camelDirectEndpointName", Dhis2DirectEndpointName),
                 D["camelDirectEndpointName" := Dhis2DirectEndpointName];
    PutIfAbsentStep(D, target, "fieldsRequireApproval", "");
    filled, D := PutIfAbsent(filled, "fieldsRequireApproval", ""), D["fieldsRequireApproval" := ""];
    PutIfAbsentStep(D, target, "messageConversationUserId", AdminDhis2UserId);
    filled, D := PutIfAbsent(filled, "messageConversationUserId", AdminDhis2UserId),
                 D["messageConversationUserId" := AdminDhis2UserId];
    PutIfAbsentStep(D, target, "allowedOperations", AllowedOperations);
    filled, D := PutIfAbsent(filled, "allowedOperations", AllowedOperations), D["allowedOperations" := AllowedOperations];
    assert D == Defaults;
  }

  /** Java exceptions the parameter source can throw. */
  datatype Thrown = NullPointer | StringIndexOutOfBounds

  class TargetRouteTemplateParameterSource {
    /** The targets by index digit string; `None` until routeIds() has run. */
    var targets: Option<map<string, map<string, string>>>

    constructor ()
      ensures targets == None
    {
      targets := None;
    }

    /**
     * Scans the properties (in the map's iteration order), fills the
     * defaults, and returns one route id per target. The outcome does not
     * depend on the iteration order: it is a function of the map.
     */
    method RouteIds(properties: seq<(string, string)>) returns (routeIds: set<string>)
      requires DistinctKeys(properties)
      modifies this
      ensures targets == Some(ResolvedTargets(MapOf(properties)))
      ensures routeIds == RouteIdSet(MapOf(properties))
    {
      var scanned := ScanProperties(properties);
      var t;
      t, routeIds := FillDefaultsAndNameRoutes(scanned);
      TargetsKeys(MapOf(properties));
      targets := Some(t);
    }

    /**
     * The parameters of the route named `routeId`, looked up by the last
     * character of the id (see LastCharKeyMisroutes for what that does to
     * indices of two digits or more).
     */
    method Parameters(routeId: string) returns (r: Result<map<string, Option<string>>, Thrown>)
      ensures |routeId| == 0 ==> r == Failure(StringIndexOutOfBounds)
      ensures |routeId| > 0 && (targets.None? || LastCharKey(routeId) !in targets.value) ==>
        r == Failure(NullPointer)
      ensures |routeId| > 0 && targets.Some? && LastCharKey(routeId) in targets.value ==>
        r == Success(TemplateParameters(targets.value[LastCharKey(routeId)]))
    {
      if |routeId| == 0 {
        return Failure(StringIndexOutOfBounds);
      }
      var index := routeId[|routeId| - 1..];
      if targets.None? || index !in targets.value {
        return Failure(NullPointer);
      }
      r := Success(TemplateParameters(targets.value[index]));
    }

    /**
     * The parameters of route `routeId` looked up by the whole index the id
     * ends with: every id routeIds() returned finds its own target.
     */
    method ParametersByIndex(routeId: string) returns (r: Result<map<string, Option<string>>, Thrown>)
      ensures forall m: map<string, string>, url: string, d: string ::
        targets == Some(ResolvedTargets(m)) && d in Indices(m) && routeId == RouteId(url, d) ==>
        r == Success(TemplateParameters(ResolvedTargets(m)[d]))
      ensures r.Success? <==> targets.Some? && RouteIdIndex(routeId) in targets.value
    {
      var index := RouteIdIndex(routeId);
      forall m: map<string, string>, url: string, d: string |
        targets == Some(ResolvedTargets(m)) && d in Indices(m) && routeId == RouteId(url, d)
        ensures index == d && d in targets.value
      {
        IndicesAreDigits(m);
        RouteIdIndexRoundTrip(url, d);
      }
      if targets.None? || index !in targets.value {
        return Failure(NullPointer);
      }
      r := Success(TemplateParameters(targets.value[index]));
    }
  }
}
