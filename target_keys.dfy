/**
 * The property-key pattern shared by both target resolvers,
 * `^target\.([\d]+)\.(.+)` applied with `Matcher.matches()`, and the
 * decimal conversions of the index it captures.
 */
module TargetKeys {
  import opened Wrappers

  /** The two groups the pattern captures: the index digits and the remaining name. */
  datatype TargetKey = TargetKey(index: string, name: string)

  const Prefix: string := "target."

  /** Java's `\d` without UNICODE_CHARACTER_CLASS: the ASCII digits only. */
  predicate IsDigit(c: char) { '0' <= c <= '9' }

  predicate AllDigits(s: string) { forall i :: 0 <= i < |s| ==> IsDigit(s[i]) }

  /** The characters Java's `.` refuses outside DOTALL mode. */
  predicate IsLineTerminator(c: char) {
    c == '\n' || c == '\r' || c == '\U{85}' || c == '\U{2028}' || c == '\U{2029}'
  }

  predicate NoLineTerminator(s: string) { forall i :: 0 <= i < |s| ==> !IsLineTerminator(s[i]) }

  /** The property key `target.<d>.<n>`. */
  function PropertyKey(d: string, n: string): string { Prefix + d + "." + n }

  /** Reference reading of the pattern: `key` matches as a whole, with groups `d` and `n`. */
  predicate IsTargetKey(key: string, d: string, n: string) {
    key == PropertyKey(d, n) && |d| > 0 && AllDigits(d) && |n| > 0 && NoLineTerminator(n)
  }

  /** Length of the run of digits that starts `s`; the run is maximal. */
  function DigitRun(s: string): (len: nat)
    ensures len <= |s|
    ensures AllDigits(s[..len])
    ensures len < |s| ==> !IsDigit(s[len])
  {
    if s != [] && IsDigit(s[0]) then
      var tail := DigitRun(s[1..]);
      assert s[..1 + tail] == [s[0]] + s[1..][..tail];
      1 + tail
    else 0
  }

  /** The matcher: `target.`, the maximal digit run, `.`, and a non-empty rest without line terminators. */
  function Parse(key: string): (r: Option<TargetKey>)
    ensures r.Some? ==> |r.value.index| > 0 && AllDigits(r.value.index) && |r.value.name| > 0
  {
    if |key| < |Prefix| || key[..|Prefix|] != Prefix then None
    else
      var rest := key[|Prefix|..];
      var len := DigitRun(rest);
      if 0 < len && len + 1 < |rest| && rest[len] == '.' && NoLineTerminator(rest[len + 1..])
      then Some(TargetKey(rest[..len], rest[len + 1..]))
      else None
  }

  /** The matcher accepts exactly the keys of the reference reading, with the same groups. */
  lemma ParseMatchesPattern(key: string, d: string, n: string)
    ensures Parse(key) == Some(TargetKey(d, n)) <==> IsTargetKey(key, d, n)
  {
    if Parse(key) == Some(TargetKey(d, n)) {
      ParseSound(key);
    }
    if IsTargetKey(key, d, n) {
      PropertyKeyParses(d, n);
    }
  }

  /** A key the matcher accepts is `target.<index>.<name>` for the groups it yields. */
  lemma ParseSound(key: string)
    requires Parse(key).Some?
    ensures IsTargetKey(key, Parse(key).value.index, Parse(key).value.name)
  {
    var rest := key[|Prefix|..];
    var len := DigitRun(rest);
    assert rest == rest[..len] + "." + rest[len + 1..];
    assert key == key[..|Prefix|] + rest;
  }

  /** Every property key whose groups are valid is matched, with those groups. */
  lemma PropertyKeyParses(d: string, n: string)
    requires |d| > 0 && AllDigits(d) && |n| > 0 && NoLineTerminator(n)
    ensures Parse(PropertyKey(d, n)) == Some(TargetKey(d, n))
  {
    var key := PropertyKey(d, n);
    assert key[..|Prefix|] == Prefix;
    var rest := key[|Prefix|..];
    assert rest == d + "." + n;
    var len := DigitRun(rest);
    assert len == |d| by {
      assert forall i :: 0 <= i < |d| ==> rest[i] == d[i];
      assert rest[|d|] == '.';
    }
    assert rest[..len] == d;
    assert rest[len + 1..] == n;
  }

  /** Distinct property keys never yield the same (index digits, name) pair. */
  lemma ParseInjective(k1: string, k2: string)
    requires Parse(k1).Some? && Parse(k1) == Parse(k2)
    ensures k1 == k2
  {
    ParseSound(k1);
    ParseSound(k2);
  }

  /** ParseInjective for all pairs of keys at once. */
  lemma ParseInjectiveAll()
    ensures forall k1, k2 :: Parse(k1).Some? && Parse(k1) == Parse(k2) ==> k1 == k2
  {
    forall k1, k2 | Parse(k1).Some? && Parse(k1) == Parse(k2)
      ensures k1 == k2
    {
      ParseInjective(k1, k2);
    }
  }

  /** The index digits a key contributes, when it matches. */
  function IndexOf(key: string): Option<string> {
    match Parse(key)
    case Some(t) => Some(t.index)
    case None => None
  }

  /** The distinct index digit strings among the matching keys of `m`. */
  function Indices(m: map<string, string>): set<string> {
    set k | k in m && Parse(k).Some? :: Parse(k).value.index
  }

  // ---------------------------------------------------------------- decimal

  function DigitValue(c: char): nat
    requires IsDigit(c)
  {
    c as int - '0' as int
  }

  function DigitChar(k: nat): char
    requires k < 10
  {
    ('0' as int + k) as char
  }

  /** The number a digit string denotes, as `Integer.parseInt` reads it before its range check. */
  function DigitsValue(d: string): nat
    requires AllDigits(d)
  {
    if d == [] then 0 else DigitsValue(d[..|d| - 1]) * 10 + DigitValue(d[|d| - 1])
  }

  /** `String.valueOf(n)` for a non-negative int. */
  function DecimalString(n: nat): (s: string)
    ensures |s| > 0 && AllDigits(s)
  {
    if n < 10 then [DigitChar(n)] else DecimalString(n / 10) + [DigitChar(n % 10)]
  }

  /** A digit string `String.valueOf` could have produced: no leading zero unless it is "0". */
  predicate Canonical(d: string) {
    |d| > 0 && AllDigits(d) && (d[0] == '0' ==> |d| == 1)
  }

  /** Reading back a rendered number gives the number. */
  lemma {:induction false} DecimalRoundTrip(n: nat)
    ensures DigitsValue(DecimalString(n)) == n
  {
    if n >= 10 {
      DecimalRoundTrip(n / 10);
      var s := DecimalString(n);
      assert s[..|s| - 1] == DecimalString(n / 10);
    }
  }

  /** A digit string that does not start with '0' denotes a positive number. */
  lemma {:induction false} LeadingNonZeroPositive(d: string)
    requires |d| > 0 && AllDigits(d) && d[0] != '0'
    ensures DigitsValue(d) >= 1
  {
    if |d| > 1 {
      LeadingNonZeroPositive(d[..|d| - 1]);
    }
  }

  /** Rendering the value of a canonical digit string gives the string back. */
  lemma {:induction false} CanonicalRoundTrip(d: string)
    requires Canonical(d)
    ensures DecimalString(DigitsValue(d)) == d
  {
    if |d| > 1 {
      var init := d[..|d| - 1];
      LeadingNonZeroPositive(init);
      CanonicalRoundTrip(init);
      var v := DigitsValue(d);
      assert v / 10 == DigitsValue(init) && v % 10 == DigitValue(d[|d| - 1]);
      assert d == init + [d[|d| - 1]];
    }
  }

  /** A rendered number starts with '0' only when it is zero. */
  lemma {:induction false} DecimalLeadingZero(n: nat)
    ensures DecimalString(n)[0] == '0' <==> n == 0
  {
    if n >= 10 {
      DecimalLeadingZero(n / 10);
      assert DecimalString(n)[0] == DecimalString(n / 10)[0];
    }
  }

  /** Every rendered number is canonical. */
  lemma DecimalCanonical(n: nat)
    ensures Canonical(DecimalString(n))
  {
    DecimalLeadingZero(n);
    if n >= 10 {
      assert |DecimalString(n)| > 1;
    }
  }

  /** Canonical digit strings with the same value are the same string. */
  lemma CanonicalInjective(d1: string, d2: string)
    requires Canonical(d1) && Canonical(d2) && DigitsValue(d1) == DigitsValue(d2)
    ensures d1 == d2
  {
    CanonicalRoundTrip(d1);
    CanonicalRoundTrip(d2);
  }

  /** A leading zero does not change the value: "1" and "01" denote the same number. */
  lemma {:induction false} LeadingZeroSameValue(d: string)
    requires AllDigits(d)
    ensures AllDigits("0" + d) && DigitsValue("0" + d) == DigitsValue(d)
  {
    if d != [] {
      LeadingZeroSameValue(d[..|d| - 1]);
      assert ("0" + d)[..|d|] == "0" + d[..|d| - 1];
    }
  }

  // ------------------------------------------------------ property sources

  /** `Map.putIfAbsent` on a map of non-null strings. */
  function PutIfAbsent(g: map<string, string>, k: string, v: string): (r: map<string, string>)
    ensures r.Keys == g.Keys + {k}
    ensures r[k] == if k in g then g[k] else v
    ensures forall x :: x in g ==> r[x] == g[x]
  {
    if k in g then g else g[k := v]
  }

  /**
   * One put-if-absent of a default on a map that already holds the defaults
   * `D` under the entries `g`: the default joins `D`, the entries still win.
   */
  lemma PutIfAbsentStep(D: map<string, string>, g: map<string, string>, k: string, v: string)
    requires k !in D
    ensures PutIfAbsent(D + g, k, v) == D[k := v] + g
  {
    var lhs, rhs := PutIfAbsent(D + g, k, v), D[k := v] + g;
    assert lhs.Keys == rhs.Keys;
    forall x | x in lhs
      ensures lhs[x] == rhs[x]
    {
    }
  }

  /** A Java map's entry set: no key occurs twice. */
  predicate DistinctKeys(entries: seq<(string, string)>) {
    forall i, j :: 0 <= i < j < |entries| ==> entries[i].0 != entries[j].0
  }

  /** The map whose entry set, in iteration order, is `entries`. */
  function MapOf(entries: seq<(string, string)>): (m: map<string, string>) {
    if entries == [] then map[]
    else MapOf(entries[..|entries| - 1])[entries[|entries| - 1].0 := entries[|entries| - 1].1]
  }

  /** A key is in the map exactly when some entry carries it, and then with that entry's value. */
  lemma {:induction false} MapOfEntries(entries: seq<(string, string)>)
    requires DistinctKeys(entries)
    ensures forall k :: k in MapOf(entries) <==> exists j :: 0 <= j < |entries| && entries[j].0 == k
    ensures forall j :: 0 <= j < |entries| ==> MapOf(entries)[entries[j].0] == entries[j].1
  {
    if entries != [] {
      var init := entries[..|entries| - 1];
      MapOfEntries(init);
      forall k | k in MapOf(entries)
        ensures exists j :: 0 <= j < |entries| && entries[j].0 == k
      {
        if k != entries[|entries| - 1].0 {
          assert k in MapOf(init);
          var j :| 0 <= j < |init| && init[j].0 == k;
          assert entries[j].0 == k;
        }
      }
      forall k | exists j :: 0 <= j < |entries| && entries[j].0 == k
        ensures k in MapOf(entries)
      {
        var j :| 0 <= j < |entries| && entries[j].0 == k;
        if j < |init| {
          assert init[j].0 == k;
        }
      }
      forall j | 0 <= j < |entries|
        ensures MapOf(entries)[entries[j].0] == entries[j].1
      {
        if j < |init| {
          assert init[j] == entries[j];
        }
      }
    }
  }

  /** Scanning one more entry of a well-formed entry set adds a key not seen before. */
  lemma MapOfStep(entries: seq<(string, string)>, i: nat)
    requires DistinctKeys(entries) && i < |entries|
    ensures entries[i].0 !in MapOf(entries[..i])
    ensures MapOf(entries[..i + 1]) == MapOf(entries[..i])[entries[i].0 := entries[i].1]
  {
    var prefix := entries[..i];
    MapOfEntries(prefix);
    assert entries[..i + 1][..i] == prefix;
  }

  /** Two iteration orders of the same entry set build the same map. */
  lemma MapOfOrderFree(p1: seq<(string, string)>, p2: seq<(string, string)>)
    requires DistinctKeys(p1) && DistinctKeys(p2)
    requires forall e :: e in p1 <==> e in p2
    ensures MapOf(p1) == MapOf(p2)
  {
    MapOfEntries(p1);
    MapOfEntries(p2);
    forall k | k in MapOf(p1)
      ensures k in MapOf(p2) && MapOf(p2)[k] == MapOf(p1)[k]
    {
      var j :| 0 <= j < |p1| && p1[j].0 == k;
      assert p1[j] in p2;
      var j' :| 0 <= j' < |p2| && p2[j'] == p1[j];
    }
    forall k | k in MapOf(p2)
      ensures k in MapOf(p1)
    {
      var j :| 0 <= j < |p2| && p2[j].0 == k;
      assert p2[j] in p1;
      var j' :| 0 <= j' < |p1| && p1[j'] == p2[j];
    }
  }
}
