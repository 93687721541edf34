# accessor — a verified model of path-addressed access to decoded documents

The Go package `accessor` wraps a decoded JSON/YAML/TOML document in a
tree of three kinds of node. A **map** node holds string-keyed children,
a **slice** node holds ordered children, and a **value** node holds one
scalar. The tree supports four operations:

- `Get` and `Set`, addressed by a `Path` (a list of string keys);
- `Unwrap`, which turns the tree back into a plain document;
- `Foreach`, which calls a visitor on every scalar leaf with the leaf's path.

`NewAccessor` builds the tree from a raw value. A `NoSuchPathError`
records, on its way back up the recursion, the keys of the levels above
the failure. `util.go` offers `Get(doc, "a/b/0")` and
`Update(doc, "a/b/0", v)` on top.

The model is split into these modules:

| file | module | what it holds |
|---|---|---|
| `wrappers.dfy` | `Wrappers` | `Option`, `Result` |
| `decimal.dfy` | `Decimal` | `strconv.Atoi` / `strconv.Itoa` on non-overflowing integers |
| `scalars.dfy` | `Scalars` | opaque scalars and their `%T(%v)` description |
| `strings.dfy` | `Strings` | `strings.Trim(s, "/ ")`, `Split`, `Join` on `/` |
| `errors.dfy` | `Errors` | the three error kinds, stack push, rendering |
| `paths.dfy` | `Paths` | `Path`, `PushKey`/`Key`/`SubPath`/`String`, `NewPath`, `ParsePath` |
| `trees.dfy` | `Trees` | the node tree, raw documents, direct indexing `At`, functional `Replace`, leaves |
| `construction.dfy` | `Construction` | `NewAccessor` and its round trips with `Unwrap` |
| `accessors.dfy` | `Accessors` | `Get`/`Set`/`Unwrap`/`Foreach` on every node kind and the shared child helpers |
| `util.dfy` | `Util` | the package-level `Get` and `Update` |

Modelling choices:

- A raw Go `interface{}` is the datatype `Dynamic`. Its variants are:
  - `StringMap`, for `map[string]interface{}`;
  - `AnyMap`, for `map[interface{}]interface{}`, with keys that are strings or other scalars;
  - `List`, for `[]interface{}`;
  - `Atom`, for any other value;
  - `Wrapped`, for a value that already is an accessor.
- `Set` is a method that returns the new tree and an optional error, rather than updating in place.
- A path keeps its keys head first. The phantom path has no key, and its `Key()` is `"???"`.
  - Resolution consumes one key per level. `Paths.Route` gives that sequence of keys: the path's keys, or `["???"]` for the phantom path.
- `Get` is specified against direct indexing. `Trees.At(tree, keys)` follows the keys structurally, and `Trees.Replace` is the functional update that `Set` is proved against.
- The visitor of `Foreach` is a pure function `(Path, Scalar) -> Option<E>`. The methods return the sequence of calls they made, and their contracts speak about that sequence.
- Where the package iterates over a Go map (`NewAccessor`, `Unwrap`, `Foreach` on maps), the model picks the next key nondeterministically. Every contract therefore holds for every iteration order.

Where the code and its intended behaviour disagree, the model follows the code:

- `ValueAccessor.Get` and `Set` fail on every path (value.go:15-22). That includes the phantom path, where the package's tests expect the node itself, or an overwrite. Both fail with the message `T(v) has no key` about the key `"???"`.
- `NewNoSuchPathError` is declared to take a `Path` (error.go:8-10). Every caller passes the key string (map.go:10, slice.go:14, value.go:16), so the model takes the string.
- `ParsePath` rejects "", "/" and "//" with the message "empty key found" (path.go:98). The package's tests expect the rejected text itself as the message (path_test.go:43-72). The model follows the code.
- The one place where code and intent are modelled both ways is the ancestor-key push, in `Get` (common.go:14-17) and in `Set` (common.go:25-28); see "Findings".

## Model

| member | source | states |
|---|---|---|
| Decimal.Atoi | slice.go:12-15 | an all-digit key always parses to a non-negative number; an empty key or one starting with something other than a digit or sign does not parse |
| Decimal.Itoa | slice.go:60 | the index key is a non-empty string of digits without a leading zero |
| Decimal.AtoiItoa | slice.go:58-66 | the key `Foreach` writes for index `i` parses back to `i` in `Get`/`Set` |
| Decimal.ItoaInjective | slice.go:60 | distinct indices give distinct keys |
| Strings.TrimLeft | path.go:83 | strips exactly the leading run of `/` and spaces |
| Strings.TrimRight | path.go:83 | strips exactly the trailing run of `/` and spaces |
| Strings.Split | path.go:83 | splitting on `/` gives at least one piece, none containing `/` |
| Strings.JoinSplit | path.go:83 | joining the pieces of a split with `/` gives the text back |
| Strings.SplitJoin | path.go:46-55 | splitting a `/`-join of slash-free keys gives the keys back |
| Strings.Trim | path.go:83 | the trimmed text is a slice of the text with only `/` and spaces cut off either side, and it neither starts nor ends with one |
| Strings.TrimBothEnds | path.go:83 | trimming the left and then the right end cuts only slashes and spaces and leaves none at either end |
| Strings.TrimSurrounding | path.go:83 | extra `/` and spaces around a text do not change the trimmed text |
| Errors.NewNoSuchPathError | error.go:8-10 | a new resolution error has the given message and key and an empty stack |
| Errors.PushPath | error.go:22-24 | pushing appends the key at the end of the stack and keeps message and key |
| Errors.Render | error.go:18-48 | a resolution error renders starting with its message and ending in `/`; a path error renders as `path is invalid: <msg>`; a key error starts with the key's type name |
| Paths.FromKeys | path.go:94-102 | the path built by pushing the keys back to front has exactly those keys, in order |
| Paths.PushKey | path.go:28-67 | pushing puts the key at the head; the old path becomes the sub-path, or there is none when pushing onto the phantom path |
| Paths.Key | path.go:35-71 | a basic path's key is its first key; the phantom path's key is `"???"` |
| Paths.SubPath | path.go:39-75 | there is no sub-path exactly when at most one key is left; otherwise it has the remaining keys |
| Paths.Route | path.go:69-75 | the keys resolution consumes: the first is `Key()`, the rest are the sub-path's; the phantom path consumes only `"???"` |
| Paths.String | path.go:46-79 | a path renders as its keys joined by `/`; the phantom path renders as `???` |
| Paths.NewPath | path.go:89-103 | an empty list fails with "path is empty", a list containing an empty key fails with "empty key found", and otherwise the path has the given keys in order |
| Paths.KeysDetermine | path.go:23-26 | two paths with the same keys are the same path |
| Paths.ParsePath | path.go:82-86 | parsing succeeds exactly when the trimmed, split text has no empty segment, and the path has those segments as keys |
| Paths.SegmentsIgnoreSurrounding | path.go:83 | `/` and spaces around a text do not change what it parses to, so "/a/b/0/" and "a/b/0" are the same path |
| Paths.CutsetOnly | path.go:83-99 | a text of only `/` and spaces splits into one empty segment, which is not a valid key list |
| Paths.RejectedTexts | path.go:83-99 | "", "/" and "//" are rejected |
| Paths.ParseRender | path.go:46-86 | a trimmed text with non-empty segments renders back to itself after parsing |
| Paths.RenderParse | path.go:46-86 | parsing the rendering of a path of non-empty, slash-free, untrimmed keys gives the path back |
| Trees.Index | slice.go:12-19 | a slice key names a slot exactly when it parses as a number in `[0, len)` |
| Trees.Replace | map.go:23-31 | replacing along keys succeeds exactly when the keys resolve, and keeps the node's kind and key set or length |
| Trees.ReplaceAt | slice.go:35-43 | after a replacement the keys resolve to the new node |
| Trees.ReplaceFrame | slice.go:35-45 | a replacement leaves every path that diverges from the replaced one resolving as before |
| Trees.LeavesAreReachable | common.go:34-39 | every leaf's key list resolves to a value node holding that leaf's scalar |
| Trees.UnwrappedIsPlain | map.go:37-43 | an unwrapped tree is a plain document: string-keyed maps, lists and scalars only |
| Construction.NewAccessor | accessor.go:17-60 | construction succeeds exactly when every map key in the value is a string; the tree is then the structural conversion, and otherwise the error names a non-string key from the value |
| Construction.NewStringMapAccessor | accessor.go:23-32 | a string-keyed map converts exactly when every value does, into the map node of the converted values; otherwise a failing value's error is returned |
| Construction.NewAnyMapAccessor | accessor.go:33-46 | an any-keyed map converts exactly when every key is a string and every value converts; otherwise the error names a non-string key found in it |
| Construction.NewListAccessor | accessor.go:47-56 | a list converts exactly when every element does, into the slice node of the converted elements, in order; otherwise a failing element's error is returned |
| Construction.CulpritsExactlyWhenNotConstructible | accessor.go:33-46 | some key is to blame exactly when the value cannot be constructed |
| Construction.FirstFailing | accessor.go:47-56 | when a list cannot be constructed, some element is the first that cannot, which is where the element-by-element conversion stops |
| Construction.ListBlamesFirstFailing | accessor.go:47-56 | a list's construction blames exactly the keys its first failing element blames |
| Construction.AnyMapLikeStringMap | accessor.go:33-46 | an any-keyed map whose keys are all strings builds the same map node as the string-keyed form |
| Construction.UnwrapAfterBuild | accessor.go:22-58 | a plain document constructs, and unwrapping the tree gives the document back |
| Construction.BuildAfterUnwrap | accessor.go:22-58 | constructing the unwrap of any tree gives the same tree |
| Construction.BuildAt | accessor.go:22-58 | in a constructed plain document, keys resolve exactly where the document has a part, and that node unwraps to it |
| Accessors.Reversed | error.go:22-24 | reversing keeps the length and puts key `k` from the end at position `k`, which is the order pushes on the way up leave the stack in |
| Accessors.Get | common.go:7-21 | `Get` succeeds exactly when indexing along the route succeeds, and returns that node; a failure names the first key with no child, says why ("no such key", "not a number", "index out of range", or "T(v) has no key"), and carries the keys above it, nearest ancestor first |
| Accessors.MapGet | map.go:7-14 | the same, for a map node: a missing key fails with "no such key" |
| Accessors.SliceGet | slice.go:11-22 | the same, for a slice node: a key that does not parse fails with "not a number", one outside `[0, len)` with "index out of range" |
| Accessors.ValueGet | value.go:15-17 | the same, for a value node: every path fails with "T(v) has no key" about its first key, `Describe` giving `T(v)` |
| Accessors.GetFromChild | common.go:7-21 | the child itself when no sub-path is left; otherwise the child's resolution of the sub-path, and a failure gets the current key pushed as its outermost stack entry (`Annotate`) |
| Accessors.StopsHere | map.go:8-11 | a key with no child at the current node is where resolution stops, with an empty stack |
| Accessors.ChildStep | common.go:13-18 | what a node reports through its child is the node's own resolution of the path |
| Accessors.LastStep | common.go:8-11 | when the path ends at the child, the child is the parent's resolution of the path |
| Accessors.DeeperStep | common.go:13-20 | the child's resolution of the remaining keys, with the key pushed on failure, is the parent's resolution |
| Accessors.StopsBelow | common.go:14-17 | a stop below a child, with the child's key as outermost stack entry, is a stop in the parent |
| Accessors.StopsAtStep | common.go:14-17 | a failure below a child, with the child's key pushed, is a failure one level deeper in the parent |
| Accessors.NestedMissingKey | map_test.go:69-84 | "a/b/x" in {"a": {"b": {"c": 1}}} fails about "x" with stack ["b", "a"] |
| Accessors.NestedMissingKeySet | map_test.go:173-196 | setting at "a/b/x" in {"a": {"b": {"c": 1}}} fails about "x" with stack ["b", "a"] and leaves the tree as it was |
| Accessors.ThroughOnlyElement | slice.go:21 | a slice of one element passes a failure below its element up with the key "0" pushed |
| Accessors.ThroughSlot | slice.go:11-21 | in a slice of one element, a key that reads as 0 hands the path on to that element |
| Accessors.NestedIndexOutOfRange | slice_test.go:82-98 | "0/0/1" in [[[1]]] fails "index out of range" about "1" with stack ["0", "0"] |
| Accessors.Set | map.go:17-34 | on success the tree is the old one with the node at the path replaced by the constructed value; on failure the tree is unchanged and the error is the resolution error `Get` gives, or a conversion error |
| Accessors.MapSet | map.go:17-34 | the same, for a map node: an absent key is not inserted but fails with "no such key" |
| Accessors.SliceSet | slice.go:25-46 | the same, for a slice node: the length never changes, and a bad index fails as in `Get` |
| Accessors.ValueSet | value.go:20-22 | a value node refuses every path and keeps its scalar |
| Accessors.SetToChild | common.go:23-32 | setting below a child succeeds as the child's `Set` does; a resolution error gets the key pushed, and a conversion error passes through |
| Accessors.Unwrap | value.go:25-27 | unwrapping gives the document the tree describes; a value node gives its scalar verbatim |
| Accessors.MapUnwrap | map.go:37-43 | a fresh map with the same keys, each mapped to its child's unwrap |
| Accessors.SliceUnwrap | slice.go:49-55 | a fresh list of the same length, element `i` the unwrap of child `i` |
| Accessors.Foreach | map.go:46-54 | every call is at a distinct leaf of the tree; each call before the last returned no error; without an error every leaf was visited; with one, it is the last call's result |
| Accessors.ValueForeach | value.go:30-32 | a value node makes one call, at the phantom path, and returns its result |
| Accessors.ForeachChild | common.go:34-39 | the child's leaves are visited with the key pushed onto each path, and the visitor's error is forwarded unchanged |
| Accessors.VisitedLifted | common.go:35-37 | pushing the key onto every call's path prefixes every visited key list with it |
| Accessors.MapForeach | map.go:46-54 | a map visits the leaves below each key in some order, stopping at the first error |
| Accessors.SliceForeach | slice.go:58-66 | a slice visits its elements in index order, stopping at the first error |
| Accessors.SlotsAppend | slice.go:59-60 | calls below element `n`, placed after the calls below earlier elements, keep the visit in index order with distinct paths |
| Accessors.HeadsAppend | map.go:47-48 | calls below a key not yet visited, placed after the calls below other keys, keep distinct paths |
| Accessors.CallsAppend | map.go:48-51 | appending one child's visit to a visit that met no error stops exactly where the child's visit stopped |
| Accessors.AsWrittenLosesStack | common.go:3-17 | with the push as written, resolution finds the same nodes and fails with the same message and key, but with an empty stack |
| Accessors.NestedMissingKeyAsWritten | common.go:15-16 | with the push as written, "a/b/x" in {"a": {"b": {"c": 1}}} fails with an empty stack |
| Accessors.SetAsWritten | common.go:23-32 | with the push as written, `Set` replaces exactly as `Set` does, but a failure is the error resolution as written reports |
| Accessors.MapSetAsWritten | map.go:17-34 | the same, for a map node |
| Accessors.SliceSetAsWritten | slice.go:25-46 | the same, for a slice node |
| Accessors.SetToChildAsWritten | common.go:23-32 | the child's error comes back without the key pushed |
| Accessors.NestedMissingKeySetAsWritten | common.go:26-28 | with the push as written, setting at "a/b/x" in {"a": {"b": {"c": 1}}} fails with an empty stack |
| Util.Get | util.go:4-24 | "/" returns the document itself. Otherwise the first error of parsing, construction or resolution is returned. On success the result is the unwrap of the node the path names |
| Util.Update | util.go:27-46 | "/" fails with a path error. Otherwise the first error of parsing, construction, resolution or value conversion is returned. On success the result is the unwrap of the tree with the node replaced |
| Util.UpdateThenGet | util.go:27-46 | after an update of a constructible document, at keys that resolve, with a constructible value, the keys resolve to the value's tree, which unwraps as the value does |
| Util.UpdateThenGetPlain | util.go:4-46 | for a plain document and a plain value, looking up the updated path gives the value back unchanged |
| Util.UpdateKeepsOthers | util.go:41-45 | after an update, every path that diverges from the updated one resolves as before |

## Left out

- In-place update and aliasing. `Set` writes into the Go map or slice it was given (map.go:29, slice.go:41), and nested nodes are shared by reference. The model returns a new tree instead, so it does not capture a caller observing the change through another reference.
- The `MarshalJSON`, `MarshalText` and `MarshalYAML` methods of the value node are not part of this model: they delegate to foreign encoders.
- Go's `%T`, `%v` and `%q` formatting is approximated. Scalars are `nil`, `bool`, `int`, `string`, or an opaque typed scalar with its own text. `Quote` assumes keys with no quote, backslash or unprintable character.
- Floats, timestamps and other scalars are opaque values compared by equality only.
- Go map iteration order is randomised. The model chooses keys nondeterministically, so it says nothing about which order a map visit or a map construction takes. Construction only promises that *some* non-string key is named.
- Decimal.Atoi: does not model 64-bit overflow. Huge decimal keys parse to their exact value, which is then simply out of range. On such a key Go's `strconv.Atoi` fails, so the package reports "not a number" where the model reports "index out of range".
- Trees.MapKey: `OtherKey(Str(s))`, a non-string key holding a string, stands for no Go value. The datatype does not exclude it; construction treats it as a non-string key.
- object.go, convert.go and basic_types.go, older revisions of construction and of the value node, are not part of this model. Neither is the test stub in dummy.go.
- The interface in accessor.go:4-15 declares string-variadic `Get`/`Set` and no `Foreach`. The node types implement `Get(Path)`, `Set(Path, v)` and `Foreach`, and the model follows the node types.
- The `initialPath` value that value.go:31 passes is not part of this model. It is modelled as the phantom path, which renders as `???`.
- Concurrency: the package has none.
- The visitor of `Foreach` can do anything in Go. Here it is a pure function of the path and scalar.

## Findings

| source | as written | input that shows it | evidently intended | confidence | as-written member | corrected member |
|---|---|---|---|---|---|---|
| common.go:3-17 | a child's error gets the current key pushed only if it has a `PushKey(string)` method, but the resolution error's method is `PushPath` (error.go:22), so no key is ever pushed | `Get` of "a/b/x" in {"a": {"b": {"c": 1}}} fails with an empty stack | the stack ["b", "a"] the tests expect (map_test.go:82), i.e. the key pushed at every level | high; not executed | Accessors.AsWrittenLosesStack | Accessors.GetFromChild |
| common.go:23-32 | `setToChild` makes the same `keyPusher` assertion, so a failed `Set` below a child never gets the key pushed | `Set` of "a/b/x" in {"a": {"b": {"c": 1}}} fails with an empty stack | the stack ["b", "a"] the tests expect (map_test.go:193) | high; not executed | Accessors.NestedMissingKeySetAsWritten | Accessors.SetToChild |
