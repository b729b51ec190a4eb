# Reference org-unit sync: target resolution and dead letters, in Dafny

This project models the configuration core of the DHIS2 reference org-unit
synchronisation integration. Targets (DHIS2 instances that receive metadata)
are configured as flat properties `target.<index>.<name>=<value>`. Two
components turn those properties into one parameter map per target:

- **Static mode.** `TargetRouteTemplateParameterSource` groups the properties
  by the index *digit string*. It fills five defaults and names one
  subscriber route per target, `metadataSubscriberRoute[<dhis2ApiUrl>]-<index>`.
  It names them in `routeIds()`. Later, `parameters(routeId)` hands a route
  the parameters of the target named by the route id's *last character*.
  That is the route's own target only for single-digit indices (see
  "## Findings").
- **Dynamic mode.** `TargetsSplitter` groups the same properties by the index
  *parsed as a Java int*. It fills three defaults and returns the targets as
  a list (`split`). An index beyond the int range makes `Integer.parseInt`
  throw, which fails the whole split.

A third component, `DeadLetterQueueProcessor.process`, replaces the body of a
failed exchange by a JSON envelope `{errorMessage, body}`. The message is the
masked description of the root cause of the caught exception, or
`"See log file"` when nothing was caught.

Files:

- `wrappers.dfy`: `Option` and `Result`.
- `target_keys.dfy` (module `TargetKeys`): the key pattern shared by both modes.
  It holds the matcher, the reference reading of the pattern, the value of a
  digit string (what `Integer.parseInt` reads before its range check) and
  `String.valueOf`. It also holds Java maps given as their entry sequence in
  iteration order, and `putIfAbsent`. `MapOfOrderFree` shows that two
  iteration orders of the same entries give the same map.
- `route_template_source.dfy` (module `RouteTemplateSource`): static mode.
  The class `TargetRouteTemplateParameterSource` keeps the `targets` field;
  `RouteIds` and `Parameters` are its methods. The ghost functions
  `ScannedTargets`, `ResolvedTargets` and `RouteIdSet` define the outcome as a
  function of the property *map*. `RouteIds` is proved equal to them for
  every iteration order of a map's entries. With `MapOfOrderFree`, the outcome
  therefore does not depend on that order.
- `targets_splitter.dfy` (module `TargetsSplitter`): dynamic mode. `Split` is
  proved against `Grouped`, a fold over the entries in iteration order.
  Lemmas characterise `Grouped` independently: which targets exist, which
  names they hold, which value wins, and the default `index`. They also
  compare it with static mode.
- `dead_letter.dfy` (module `DeadLetter`): exceptions are a finite cause chain.
  The masking formatter and the JSON serialiser are function parameters that
  return their text or the exception they throw, and
  the exchange is a class whose `body` field `Process` sets.

Static mode's outcome does not depend on the iteration order of the
properties (`RouteIds`). Dynamic mode's does when two keys name the same
entry of the same parsed index, such as `target.1.url` and `target.01.url`:
the one scanned last wins (`CollisionOrderMatters`).

## Model

| member | source | states |
|---|---|---|
| TargetKeys.Parse | consumer/java/TargetRouteTemplateParameterSource.java:25 | a match yields a non-empty ASCII digit index and a non-empty name |
| TargetKeys.DigitRun | consumer/java/TargetRouteTemplateParameterSource.java:25 | the index group is the maximal run of digits after `target.` |
| TargetKeys.ParseMatchesPattern | consumer/java/TargetRouteTemplateParameterSource.java:25 | the matcher accepts a key with groups (d, n) iff the key is `target.` + d + `.` + n, d non-empty ASCII digits, n non-empty without line terminators |
| TargetKeys.ParseSound | consumer/java/TargetRouteTemplateParameterSource.java:25 | every accepted key is `target.<index>.<name>` for the groups it yields |
| TargetKeys.PropertyKeyParses | java/TargetsSplitter.java:13 | every `target.<digits>.<name>` key is accepted with exactly those groups |
| TargetKeys.ParseInjective | consumer/java/TargetRouteTemplateParameterSource.java:50-57 | distinct property keys never yield the same (index, name) pair, so each entry of a target is written once per scan |
| TargetKeys.ParseInjectiveAll | consumer/java/TargetRouteTemplateParameterSource.java:50-57 | ParseInjective for all pairs of keys |
| TargetKeys.DecimalString | java/TargetsSplitter.java:27 | String.valueOf of a non-negative int is a non-empty digit string |
| TargetKeys.DecimalRoundTrip | java/TargetsSplitter.java:24-27 | reading back String.valueOf(n) gives n |
| TargetKeys.LeadingNonZeroPositive | java/TargetsSplitter.java:24 | a digit string not starting with 0 denotes a positive number |
| TargetKeys.CanonicalRoundTrip | java/TargetsSplitter.java:27 | String.valueOf of the value of a digit string without leading zeros gives the string back |
| TargetKeys.DecimalLeadingZero | java/TargetsSplitter.java:27 | String.valueOf(n) starts with 0 iff n is 0 |
| TargetKeys.DecimalCanonical | java/TargetsSplitter.java:27 | String.valueOf never produces leading zeros |
| TargetKeys.CanonicalInjective | java/TargetsSplitter.java:24 | distinct digit strings without leading zeros have distinct values |
| TargetKeys.LeadingZeroSameValue | java/TargetsSplitter.java:24 | a leading zero does not change the value parseInt reads |
| TargetKeys.MapOfOrderFree | consumer/java/TargetRouteTemplateParameterSource.java:48-50 | any two iteration orders of the same entry set (distinct keys) build the same property map, so `RouteIds` does not depend on the order |
| TargetKeys.PutIfAbsent | java/TargetsSplitter.java:27 | `Map.putIfAbsent`: the key is present afterwards, with its old value if it had one and the given value otherwise; every other entry is kept |
| TargetKeys.PutIfAbsentStep | consumer/java/TargetRouteTemplateParameterSource.java:63-67 | putIfAbsent of a default adds it only under a name the target lacks; the target's own entries keep winning |
| TargetKeys.MapOfEntries | consumer/java/TargetRouteTemplateParameterSource.java:48-50 | a key is in the property map iff some entry of its entry set carries it, with that entry's value |
| TargetKeys.MapOfStep | consumer/java/TargetRouteTemplateParameterSource.java:50 | each entry of the scan adds a key not seen before |
| RouteTemplateSource.NameHasKey | consumer/java/TargetRouteTemplateParameterSource.java:53-55 | each name captured for index d comes from exactly the key `target.<d>.<name>` |
| RouteTemplateSource.ExplicitAt | consumer/java/TargetRouteTemplateParameterSource.java:53-55 | name n is configured for index d iff the matching key `target.<d>.<n>` is present, and its value is that property's |
| RouteTemplateSource.ExplicitNonEmpty | consumer/java/TargetRouteTemplateParameterSource.java:53-57 | a digit string is a target index iff some entry is configured under it |
| RouteTemplateSource.ExplicitOther | consumer/java/TargetRouteTemplateParameterSource.java:53-57 | a property of another index does not change the entries of index d |
| RouteTemplateSource.ExplicitSame | consumer/java/TargetRouteTemplateParameterSource.java:55 | a property `target.<d>.<n>` sets exactly entry n of index d |
| RouteTemplateSource.IndicesUpdate | consumer/java/TargetRouteTemplateParameterSource.java:52-57 | a non-matching property adds no target; a matching one adds its index |
| RouteTemplateSource.ScannedAfterWrite | consumer/java/TargetRouteTemplateParameterSource.java:54-57 | after a new property of index d, d's target is the old one (or empty) with the entry put and `index` added if absent |
| RouteTemplateSource.UpdateKeepsIndex | consumer/java/TargetRouteTemplateParameterSource.java:55-56 | putIfAbsent of `index` does nothing once the target has one |
| RouteTemplateSource.FirstWrite | consumer/java/TargetRouteTemplateParameterSource.java:54-56 | the first property of a new target brings `index` = the digits unless the property is `index` itself |
| RouteTemplateSource.ScannedOther | consumer/java/TargetRouteTemplateParameterSource.java:53-57 | a property of another index leaves target d alone |
| RouteTemplateSource.ScanIgnores | consumer/java/TargetRouteTemplateParameterSource.java:51-52 | a key the pattern rejects leaves every target as it is |
| RouteTemplateSource.ScanAbsorbs | consumer/java/TargetRouteTemplateParameterSource.java:53-57 | one loop iteration on a new matching key turns the targets of the keys seen into the targets of the keys seen plus that key, in any order |
| RouteTemplateSource.ScanAbsorbsSame | consumer/java/TargetRouteTemplateParameterSource.java:54-57 | the iteration's effect on the target of the key's own index |
| RouteTemplateSource.ScanAbsorbsOther | consumer/java/TargetRouteTemplateParameterSource.java:57 | the iteration leaves a target of another index alone |
| RouteTemplateSource.ScanAbsorbsOthers | consumer/java/TargetRouteTemplateParameterSource.java:57 | the iteration leaves every target of another index alone |
| RouteTemplateSource.ScanKeys | consumer/java/TargetRouteTemplateParameterSource.java:57 | the iteration adds the key's index to the targets |
| RouteTemplateSource.ScannedTargets | consumer/java/TargetRouteTemplateParameterSource.java:50-59 | the targets the first loop leaves, as a function of the property map: one per captured index digit string |
| RouteTemplateSource.ResolvedTargets | consumer/java/TargetRouteTemplateParameterSource.java:61-68 | the targets after the defaults are filled: still one per captured index digit string |
| RouteTemplateSource.TargetsKeys | consumer/java/TargetRouteTemplateParameterSource.java:53-57 | exactly the captured index digit strings are targets, before and after the defaults |
| RouteTemplateSource.NonTargetKeyIgnored | consumer/java/TargetRouteTemplateParameterSource.java:51-52 | adding a non-matching property changes neither the targets nor the route ids |
| RouteTemplateSource.ResolvedEntry | consumer/java/TargetRouteTemplateParameterSource.java:53-67 | entry n of target d is the configured value of `target.<d>.<n>` when present (even ""), else the digits for `index`, else the default, else absent |
| RouteTemplateSource.ResolvedTargetComplete | consumer/java/TargetRouteTemplateParameterSource.java:56-67 | every target carries `index` and all five defaulted names |
| RouteTemplateSource.DigitStringsSeparateTargets | consumer/java/TargetRouteTemplateParameterSource.java:53-57 | keys with different digit strings ("1", "01") give two targets whose `index` entries differ unless one is configured |
| RouteTemplateSource.TrailingDigitsAppend | consumer/java/TargetRouteTemplateParameterSource.java:62 | after `]-` the digits that end a route id are exactly the index |
| RouteTemplateSource.RouteIdIndexRoundTrip | consumer/java/TargetRouteTemplateParameterSource.java:62 | the index can be read back from a route id whatever the URL |
| RouteTemplateSource.RouteId | consumer/java/TargetRouteTemplateParameterSource.java:62 | the id is the template label, the URL text, then `]-` followed by exactly the index digits |
| RouteTemplateSource.UrlText | consumer/java/TargetRouteTemplateParameterSource.java:62 | the URL part of the id is the target's dhis2ApiUrl, or "null" when the target has none |
| RouteTemplateSource.RouteIdFresh | consumer/java/TargetRouteTemplateParameterSource.java:61-62 | the id of an index not yet named is new among the ids of the named ones |
| RouteTemplateSource.RouteIdDistinct | consumer/java/TargetRouteTemplateParameterSource.java:62 | distinct indices give distinct route ids even when the URLs coincide |
| RouteTemplateSource.RouteIdsAdd | consumer/java/TargetRouteTemplateParameterSource.java:62 | naming one more target adds its route id |
| RouteTemplateSource.RouteIdsCount | consumer/java/TargetRouteTemplateParameterSource.java:61-62 | a set of digit-string indices gets as many route ids as it has indices |
| RouteTemplateSource.IndicesAreDigits | consumer/java/TargetRouteTemplateParameterSource.java:25 | every target index is a non-empty digit string |
| RouteTemplateSource.OneRouteIdPerTarget | consumer/java/TargetRouteTemplateParameterSource.java:61-62 | routeIds() returns exactly one id per target |
| RouteTemplateSource.RouteIdOfTarget | consumer/java/TargetRouteTemplateParameterSource.java:62 | the id of target d holds its configured dhis2ApiUrl, or "null" when none is configured (read before the defaults) |
| RouteTemplateSource.TemplateParameters | consumer/java/TargetRouteTemplateParameterSource.java:37-40 | parameters are templateId = the template name and clientId = dhis2ApiUrl (null without one), overridden by every entry of the target |
| RouteTemplateSource.LastCharKey | consumer/java/TargetRouteTemplateParameterSource.java:36 | the lookup key is one character: the last character of the route id |
| RouteTemplateSource.LastCharKeySingleDigit | consumer/java/TargetRouteTemplateParameterSource.java:36 | for a one-digit index the last character of the id is the index |
| RouteTemplateSource.LastCharKeyMisroutes | consumer/java/TargetRouteTemplateParameterSource.java:36 | for an index of two or more digits the lookup key is its last digit, not the index |
| RouteTemplateSource.ScanProperties | consumer/java/TargetRouteTemplateParameterSource.java:49-59 | the first loop leaves the targets of the property map, whatever the iteration order |
| RouteTemplateSource.FillDefaultsAndNameRoutes | consumer/java/TargetRouteTemplateParameterSource.java:61-68 | the second loop adds the defaults to every target and collects one id per target from the URL as scanned |
| RouteTemplateSource.AddDefaults | consumer/java/TargetRouteTemplateParameterSource.java:63-67 | the five putIfAbsent calls give the defaults overridden by the target's own entries |
| RouteTemplateSource.TargetRouteTemplateParameterSource.constructor | consumer/java/TargetRouteTemplateParameterSource.java:32 | `targets` is null until routeIds() runs |
| RouteTemplateSource.TargetRouteTemplateParameterSource.RouteIds | consumer/java/TargetRouteTemplateParameterSource.java:46-71 | `targets` becomes the resolved targets of the property map and the result is their route ids, for every iteration order |
| RouteTemplateSource.TargetRouteTemplateParameterSource.Parameters | consumer/java/TargetRouteTemplateParameterSource.java:35-43 | as written: empty id throws StringIndexOutOfBounds; no targets or no target under the last character throws NullPointerException; else that target's parameters |
| RouteTemplateSource.TargetRouteTemplateParameterSource.ParametersByIndex | consumer/java/TargetRouteTemplateParameterSource.java:35-43 | corrected lookup: every id routeIds() returned yields its own target's parameters; success iff the id's digit suffix is a target |
| TargetsSplitter.StepKeys | java/TargetsSplitter.java:24-28 | one property adds the target of its int index and no other |
| TargetsSplitter.StepOther | java/TargetsSplitter.java:28 | one property leaves the targets of other indices alone |
| TargetsSplitter.StepSame | java/TargetsSplitter.java:25-27 | one property sets its name, adds `index` = String.valueOf(i) if absent and keeps every other entry of its target |
| TargetsSplitter.ParseInt | java/TargetsSplitter.java:24 | `Integer.parseInt` of a digit string succeeds iff its value fits in an int, with that value; otherwise NumberFormatException for that text |
| TargetsSplitter.GroupStep | java/TargetsSplitter.java:22-29 | a key the pattern rejects changes nothing (an index beyond the int range never reaches a step: GroupByIndex fails first); otherwise its value is stored under its name in the target of its int index, which then has `index` |
| TargetsSplitter.Grouped | java/TargetsSplitter.java:21-30 | the targets after scanning the entries in order; the last entry scanned is stored under its name in its target |
| TargetsSplitter.AddProperty | java/TargetsSplitter.java:24-28 | one iteration of the scan loop is one GroupStep |
| TargetsSplitter.GroupedKeys | java/TargetsSplitter.java:21-30 | the targets are exactly the int indices some matching key contributes |
| TargetsSplitter.GroupedLastWins | java/TargetsSplitter.java:26 | an entry holds the value of the last key, in scan order, that sets it (`target.1.a` and `target.01.a` collide) |
| TargetsSplitter.GroupedNames | java/TargetsSplitter.java:26-27 | a target holds `index` and the names its keys set, nothing else; `index` is String.valueOf(i) unless a key sets it |
| TargetsSplitter.ListedTargetComplete | java/TargetsSplitter.java:27-36 | every listed map has `index`, idScheme, endpointUri and fieldsRequireApproval; a default shows only where the target has no entry |
| TargetsSplitter.ParseIntRoundTrip | java/TargetsSplitter.java:24-27 | parseInt reads the default `index` back as the target's own int |
| TargetsSplitter.IndexEntryCanonical | java/TargetsSplitter.java:27 | the default `index` repeats the key's digits iff they have no leading zero |
| TargetsSplitter.GroupedKeysFromIndices | java/TargetsSplitter.java:24-28 | without overflow the targets are the static-mode index strings read as numbers |
| TargetsSplitter.DynamicIndexIsStatic | java/TargetsSplitter.java:24 | every int index comes from some index digit string of the map |
| TargetsSplitter.StaticIndexIsDynamic | java/TargetsSplitter.java:24 | every index digit string of the map gives an int index |
| TargetsSplitter.PropertyKeyIntIndex | java/TargetsSplitter.java:24 | the int index of `target.<d>.<n>` is the value of d when it fits |
| TargetsSplitter.SameValueMerges | java/TargetsSplitter.java:24-25 | two digit strings with the same value are two static targets and one dynamic target |
| TargetsSplitter.LeadingZeroMerges | java/TargetsSplitter.java:24-25 | `target.<d>.x` and `target.0<d>.y`: two static targets, one dynamic target |
| TargetsSplitter.CollisionOrderMatters | java/TargetsSplitter.java:26 | scanning `target.<d>.n` and `target.0<d>.n` in either order leaves the value scanned last |
| TargetsSplitter.GroupByIndex | java/TargetsSplitter.java:18-30 | the scan fails iff some index overflows an int, at the first such key in scan order and with its digits; otherwise it gives Grouped |
| TargetsSplitter.ListValues | java/TargetsSplitter.java:32 | the list holds each target's map exactly once, in an order left open |
| TargetsSplitter.FillListDefaults | java/TargetsSplitter.java:33-37 | every map in the list gets the three defaults overridden by its own entries |
| TargetsSplitter.Split | java/TargetsSplitter.java:17-40 | fails iff an index overflows (at the first one); otherwise returns each target, defaults filled, once, in some order |
| DeadLetter.InChainCause | java/DeadLetterQueueProcessor.java:24-26 | the cause of a throwable on the chain is on the chain |
| DeadLetter.RootCause | java/DeadLetterQueueProcessor.java:24-26 | the root has no cause and is reached from the caught throwable by following causes |
| DeadLetter.RootCauseUnique | java/DeadLetterQueueProcessor.java:24-26 | a cause chain has exactly one end |
| DeadLetter.RootCauseOfChain | java/DeadLetterQueueProcessor.java:24-26 | every throwable on the chain has the same root |
| DeadLetter.Describe | java/DeadLetterQueueProcessor.java:28-32 | the text handed to the formatter is toString() for a remote client exception, which is never null; it is null exactly for another exception whose getMessage() is null |
| DeadLetter.WalkToRoot | java/DeadLetterQueueProcessor.java:24-26 | the loop stops at a throwable without cause, reached from the caught one, which is the root |
| DeadLetter.Exchange.constructor | java/DeadLetterQueueProcessor.java:21 | an exchange with a caught exception (or none) and a body |
| DeadLetter.Process | java/DeadLetterQueueProcessor.java:20-39 | a formatter that throws ends process() before the log; otherwise it logs the formatted toString() of a remote client root, else of getMessage(); a null message or body then throws NullPointerException, a serialiser that throws ends it too, and only otherwise does the body become the serialised `{that message or "See log file", original body}`; the body changes only on completion |

## Left out

- The Camel plumbing is not part of this model. The property map that `loadPropertiesAsMap()` yields becomes a parameter: its entry set, in iteration order, as a sequence of pairs. `@BeanInject`/`@BindToRegistry`, `Exchange` and the route-template interface are left out.
- Property values are strings. The `(String)` cast and the ClassCastException it throws on a value of another type are not modelled.
- RouteTemplateSource.TargetRouteTemplateParameterSource.RouteIds: Java assigns `targets` before the scan and then mutates the nested maps in place. The model assigns the finished map once at the end. The final state is the same, and no exception is modelled between the two points.
- TargetsSplitter.ListValues: the order of `HashMap.values()` is left open. The ghost `order` names it, and no particular order is claimed.
- The masking formatter (`DefaultMaskingFormatter`) and the JSON serialiser (Jackson `ObjectMapper`) are foreign libraries, so they become the parameters `mask` and `serialize`. Each returns either its text or the exception it throws (such as JsonProcessingException); which inputs make them throw, and how the formatter masks, are not modelled.
- `toString()` and `getMessage()` of a throwable are fields of the datatype, not computed.
- Cause chains are finite datatypes. A Java cause chain that loops back on itself (where the source's loop never ends) is not represented.
- The `getProperty(EXCEPTION_CAUGHT, Exception.class)` type conversion is not modelled. The caught exception is given directly.
- SLF4J logging: the `LOGGER.error` call is returned as a `LogRecord` value, not performed.
- KeyStoreGenerator (keystore files and AES key generation), EmbeddedBroker (ActiveMQ Artemis start-up) and the end-to-end tests are not part of this model. They are file, crypto and network plumbing.
- There is no concurrency in the modelled code, and none is modelled.

## Findings

| source | as written | input that shows it | evidently intended | confidence | as-written member | corrected member |
|---|---|---|---|---|---|---|
| consumer/java/TargetRouteTemplateParameterSource.java:36 | `parameters` looks a target up by the last character of the route id only | properties `target.12.dhis2ApiUrl=u` only: `parameters("metadataSubscriberRoute[u]-12")` looks up "2", finds no target and throws NullPointerException; with a target `2` as well it returns target 2's parameters | look the target up by the whole index that ends the route id | high; not executed | RouteTemplateSource.LastCharKeyMisroutes | RouteTemplateSource.TargetRouteTemplateParameterSource.ParametersByIndex |
