# jin routing core in Dafny

A model of the request-routing core of jin, a small Go web toolkit, with
proofs about it. The model covers:

- the per-method radix tree that `addRoute` grows (`tree.go`): parameters, the
  method table, prefix splitting, wildcard conflicts and the priority
  reordering of children;
- the dispatch `Context` (`context.go`): the `int8` cursor that `Next` walks
  along the handler chain, `Abort`, the error list, the key/value bag, path
  parameters and the bracketed form-map helper `get`;
- route groups (`routergroup.go`), handler chains (`jin.go`), the structured
  error (`errors.go`) and the run mode (`mode.go`).

The modules mirror the Go files:

| module | file | content |
|---|---|---|
| `Lang` | `lang.dfy` | Go stand-ins: `Option` for nil, `Outcome` for a call that returns or panics, `Value` for `interface{}`, and `int8`/`uint8` arithmetic with its wrap-around |
| `Errors` | `errors.dfy` | `ErrorType` as `bv64` flags and the `Error` class |
| `Jin` | `jin.dfy` | handlers and `HandlerChain.Last` |
| `Tree` | `tree.dfy` | `Params`, `methodTrees`, `countParams`, `incrementChildPrio` and `addRoute` over `Node` objects |
| `Context` | `context.dfy` | the `Context` class and `get` |
| `Routing` | `routergroup.dfy` | `RouterGroup`, `Use` and `returnObj` |
| `Mode` | `mode.dfy` | `SetMode` and `Mode` over the two package variables |

Go code that updates objects in place is modelled as classes with
`modifies` clauses: `node`, `Context`, `RouterGroup`, `*Error` and the mode
variables. Each loop of the source is a `while` loop with its invariants,
except the `range` loop of `Copy` that copies the key/value bag, whose
result is stated directly as a copy of the map.
Each such method is tied to a specification function. The specification
functions are: `FirstValue`, `TreeFor` and `ParamMarks`; `Rotate`,
`Bumped` and `BubbleTarget`; the `Registered` description of a finished
walk; and `Collected`.

A Go panic is an `Outcome.Panic` carrying the message Go would print, with
two exceptions listed under "Left out": the refused-wildcard panic of the
stand-in for the missing `insertChild` carries a message of the model's own,
and index-out-of-range panics leave out the index and length Go appends.

A handler is user code, so the model gives it as a script of steps. A step
is one of: doing nothing, calling `Next`, calling `Abort`, calling `Set`
or calling `Error`.

The context keeps a ghost `trace` of the handlers run and the aborts. The
trace is used only to state the ordering and abort properties of `Next`.

The defects the code has as written are modelled as written, and the
contracts state them:

- `Params.ByName` looks up the literal key `"name"` (tree.go:22).
- `get` matches the literal prefix `"key"` (context.go:348).
- `addRoute` overwrites `indices` instead of extending it (tree.go:194).
- `addRoute` bumps the first child rather than the new one (tree.go:200).
- `addRoute` indexes past the end of the route when it equals a wildcard
  child's fragment (tree.go:160).
- The cursor of `Next` is an `int8` that wraps around (context.go:90-91).

`insertChild` is called by `addRoute` but is only a TODO in the source
(tree.go:219). `Tree.Node.InsertChild` stands in for it with the least that
`addRoute` relies on: the suffix becomes a static leaf, or, when it opens
with `:` or `*`, a single wildcard child. That wildcard child is refused
when the node already has children.

## Model

| member | source | states |
|---|---|---|
| Lang.Int8 | context.go:91 | the `int8(...)` conversion yields a value in [-128, 127], congruent to its argument modulo 256, and the identity on that range |
| Lang.Inc8 | context.go:90 | `c.index++` on an `int8`: one more below 127, and 127 wraps round to -128 |
| Lang.Inc8IsInt8 | context.go:90-91 | the increment is the `int8` conversion of the successor |
| Lang.Dec8 | tree.go:157 | `numParams--` on a `uint8`: one less above 0, and 0 wraps round to 255 |
| Errors.ErrorTypeFlags | errors.go:5-12 | private, public, bind and render are single bits; private and public are distinct; `ErrorTypeNu` is the public bit; `ErrorTypeAny` has all 64 bits set, so masking any `f` with it gives `f` back, and or-ing any `f` into it changes nothing |
| Errors.Error.SetType | errors.go:24-27 | the type becomes exactly the given flags; the same receiver is returned; `Err` and `Meta` are unchanged |
| Errors.Error.Message | errors.go:29-31 | `Error()` returns the wrapped error's text, and is a nil-dereference panic exactly when there is no wrapped error |
| Jin.Last | jin.go:15-20 | nil exactly for the empty chain, otherwise the chain's final element |
| Jin.LastOfAppend | jin.go:15-20 | appending a handler to any chain makes it the `Last` one |
| Mode.CodeOfSpec | mode.go:40-54 | exactly `""`, `"debug"`, `"release"` and `"test"` are accepted; the reported name is never empty and maps back to the same code |
| Mode.ModeState.constructor | mode.go:31-32 | the initial mode is debug: `debugCode` and the name `"debug"` |
| Mode.ModeState.SetMode | mode.go:40-55 | an accepted value sets its code (`""` and `"debug"` give debug) and the name (`""` reported as `"debug"`); any other value panics with `jin mode unknown: <value>` and changes neither variable; the code and the name stay in agreement |
| Mode.ModeState.Mode | mode.go:58-60 | the reported name is one of the three modes, never empty, and matches the current code |
| Routing.RouterGroup.ReturnObj | routergroup.go:45-50 | the engine exactly when the group is a root group, and the group itself otherwise |
| Routing.RouterGroup.Use | routergroup.go:40-43 | the handlers become the old ones followed by the middleware in order, and are unchanged when none is given; the last handler is the last middleware; nothing else in the group changes; the result is `returnObj`'s |
| Tree.FirstValueSpec | tree.go:12-19 | the lookup finds a value exactly when some entry has the key, and that value belongs to the first such entry |
| Tree.Get | tree.go:12-19 | `Params.Get` returns the value of the first entry with the key and `true`, and `("", false)` when no entry has it |
| Tree.ByName | tree.go:21-24 | the result is `Get("name")`'s value, whatever name is asked for |
| Tree.TreeForSpec | tree.go:33-40 | the root of the first tree whose method matches, and nil when none matches |
| Tree.GetTree | tree.go:33-40 | `methodTrees.get` scans in order and answers as `TreeForSpec` describes |
| Tree.Min | tree.go:42-47 | the result is one of the two arguments and no larger than either |
| Tree.ParamMarksBound | tree.go:49-60 | the number of `:` and `*` bytes is at most the length, and zero exactly when the path has neither |
| Tree.CountParams | tree.go:49-60 | the number of `:` and `*` bytes in the path, saturated at 255 |
| Tree.CommonPrefixLength | tree.go:115-119 | the scan stops at the longest common prefix of the route and the fragment |
| Tree.IndexOf | tree.go:169 | `strings.Index`: the first position where the pattern occurs, -1 when it does not occur |
| Tree.FirstSegment | tree.go:167 | `strings.SplitN(path, "/", 2)[0]`: the longest slash-free prefix, stopping at the first `/` |
| Tree.FindIndex | tree.go:184-191 | the index scan answers as `strings.IndexByte` does: the first position of the byte in `indices`, and -1 exactly when the byte is absent |
| Tree.RotateSplice | tree.go:89-96 | moving the child left by adjacent swaps equals the slice splice of `indices`, and is a permutation |
| Tree.RotateDistinct | tree.go:88-91 | the reordering keeps the children free of duplicates |
| Tree.BubbleTarget | tree.go:87-91 | the child comes to rest past exactly the directly preceding siblings of strictly lower priority |
| Tree.BumpKeepsOrder | tree.go:83-100 | if the children were ordered by non-increasing priority, they still are after one bump and reordering |
| Tree.RotateLockStep | tree.go:89-96 | moving the child and its index byte by the same rotation keeps byte k the first byte of child k's fragment |
| Tree.ReorderFacts | tree.go:83-100 | one reordering keeps the moved child at its new position, rotates the priorities with the children, keeps the order and the set of children, and keeps `indices` in step |
| Tree.Node.BumpChild | tree.go:84 | the child's priority goes up by exactly one and no other priority changes |
| Tree.Node.BubbleLeft | tree.go:87-91 | the swap loop rotates the child to the position `BubbleTarget` names |
| Tree.Node.MoveIndex | tree.go:93-97 | `indices` is rotated the same way as the children |
| Tree.Node.IncrementChildPrio | tree.go:83-100 | the child's priority rises by one; children and `indices` are rotated alike to the returned position, which is where the child comes to rest |
| Tree.Node.Reprioritize | tree.go:83-100 | the children and `indices` are rotated alike from the position to the one `BubbleTarget` names, no further right; the bumped child stands there with its priority one higher; the children are a duplicate-free permutation of the old ones |
| Tree.Node.IndexedChildBumped | tree.go:187-188 | the walk moves to the child the index byte named; its priority is exactly one higher; children and `indices` are rotated alike to the returned position, which is where `BubbleTarget` puts the child and where it now stands; the tree keeps its shape |
| Tree.Node.FirstChildBumped | tree.go:179-180 | the walk moves to the first child, whose priority rises by one |
| Tree.Node.WildChildEntered | tree.go:151-156 | the walk moves to the wildcard child, whose priority rises by one and whose `maxParams` is raised to the count |
| Tree.Node.RaiseMaxParams | tree.go:112-114 | `maxParams` becomes the larger of its old value and the count |
| Tree.Node.BumpPriority | tree.go:104 | the root's priority rises by one |
| Tree.MaxChildParams | tree.go:132-136 | the largest `maxParams` among the children, or 0 when there are none |
| Tree.Node.SplitTail | tree.go:122-136 | the fresh child holds the fragment from `i` on and inherits the wildcard flag, indices, children, handlers and full path, with priority one less and `maxParams` the children's largest |
| Tree.Node.KeepHead | tree.go:137-143 | the node keeps the fragment's head, the child as its only child, the one index byte, nil handlers, no wildcard child and the shortened full path |
| Tree.Node.SplitAt | tree.go:121-144 | the new fragment followed by the child's equals the old fragment; the child inherits as in `SplitTail`; the node gets one index byte, nil handlers and no wildcard child; the tree keeps its shape |
| Tree.Node.AddChild | tree.go:199 | the child is appended and the tree keeps its shape |
| Tree.Node.AttachStaticChild | tree.go:194-199 | `indices` is overwritten with the one byte, and a fresh empty static child is appended |
| Tree.Node.IncrementLastIndexed | tree.go:200 | with a one-byte `indices`, the first child gains one priority point and nothing moves |
| Tree.Node.AppendStaticChild | tree.go:193-201 | `indices` becomes the single byte; the fresh child is appended; the priority bump goes to the first child |
| Tree.Node.InsertChild | tree.go:214-219 | a suffix opening with `:` or `*` panics exactly when the node already has children, and otherwise becomes a fresh, childless, only child of the matching wildcard kind, with `maxParams` the count and the wildcard flag set; any other suffix, the empty one included, becomes this node's own fragment, and then the children and the wildcard flag are unchanged; the handlers and the full path go to the leaf; a panic leaves the fragment as it was; a wildcard suffix, or a panic, leaves this node's handlers and full path as they were |
| Tree.Node.HangStatic | tree.go:193-204 | the walk ends inserted: `indices` becomes exactly the first byte of `rest`, and one fresh static child, holding all of `rest` and the handlers with `maxParams` at least the count, is appended after the old children; nothing else of the node changes (its frame is `indices`, the children and their priorities), so its fragment, handlers and wildcard flag are kept |
| Tree.Node.HangWild | tree.go:203-204 | a rest opening with a wildcard is inserted exactly when the node has no children, as its only child, wildcard and fresh, holding the rest and the handlers; otherwise it is refused with a panic and the children and the wildcard flag are unchanged; either way the node's fragment, handlers, full path and `indices` are kept |
| Tree.Node.Hang | tree.go:193-204 | the walk ends inserted or refused: a static first byte always inserts, `indices` becoming that byte and the fresh child being appended after the old ones; a wildcard first byte inserts exactly when the node has no children; a hung child is fresh and among the node's children; the node keeps its handlers and full path, its wildcard flag is set exactly by a wildcard child hung and kept otherwise, and its children and `indices` end as `Branched` says: the old children followed by the hung child, `indices` replaced by a static first byte and kept otherwise |
| Tree.Node.ThroughWildChild | tree.go:149-175 | with no child, indexing panics out of range; otherwise the wildcard child gains one priority point and the count drops by one (with `uint8` wrap). The walk goes on through that child exactly when its fragment starts `rest` and is followed by a `/`. It stops out of range exactly when the fragment is all of `rest`, and in every other case panics with the source's wildcard-conflict message naming the segment and the child |
| Tree.Node.Branch | tree.go:146-203 | past the fragment, a node with a wildcard child goes on through it exactly when its fragment continues `rest`, as `ThroughWildChild` says, its children and `indices` unchanged; any other node chooses its way as `ThroughChildren` says and keeps its children and `indices` as `Branched` says; either way the node keeps its handlers and full path, and its wildcard flag unless a wildcard child was just hung (`Spared`); the child gone to, or the one hung, is among the node's children |
| Tree.Node.ThroughChildren | tree.go:176-203 | the way on is the one `Chosen` describes from the node's kind, the first byte of `rest` and the old `indices` and children: a parameter node's single child when `rest` opens with `/`; else the child at the position `strings.IndexByte` finds the byte at in `indices`, an out-of-range panic when there is no child at that position; else `rest` is hung below as `Hang` says; going down leaves the children and `indices` as they were or moves one entry left in both alike (`Reordered`), stopping appends the hung child (`Branched`); the node keeps its handlers and full path, and gains the wildcard flag exactly when a wildcard child was hung |
| Tree.Node.ThroughIndex | tree.go:184-189 | the walk goes on exactly when there is a child at the index byte's position `k`, and then to that very child, its priority raised by exactly one; the children and `indices` are rotated alike, moving entry `k` to the position `BubbleTarget` gives for the bumped priorities (no further right than `k`), where the child gone to now stands; no other node's priority can change (its frame names only that child's); otherwise Go's index check panics out of range and the children and `indices` are unchanged; the node's handlers, full path and wildcard flag lie outside its frame |
| Tree.Node.ByIndex | tree.go:184-203 | past the parameter case, the way on is the one `Indexed` describes: the child at the position `strings.IndexByte` finds the first byte of `rest` at in the old `indices`, an out-of-range panic when there is no child there, else `rest` hung below as `Hang` says; the children and `indices` end as `Branched` says; the handlers and full path are kept, and the wildcard flag is set exactly when a wildcard child was hung |
| Tree.Node.Enter | tree.go:112-144 | `maxParams` is raised to the count, and `i` is the length of the common prefix of the rest of the route and the fragment. The node is split exactly when `i` falls inside its fragment. It then keeps the head, which followed by the fresh child's fragment gives the old fragment; one index byte, the old fragment's byte at `i`, which differs from the route's byte there when the route goes on; nil handlers; the full path cut to the route's prefix up to the split; and the child as its only child. The child takes over the old handlers, children, `indices` and wildcard flag. Unsplit, the fragment, handlers, full path, wildcard flag, children and `indices` are unchanged |
| Tree.Node.Resume | tree.go:146-211 | a route ending at this node panics with `handlers are already registered for path '<path>'` exactly when the node already had handlers, and then keeps them; otherwise the handlers are attached there; a route going on branches as `Branch` says and keeps the node's handlers, full path, wildcard flag, children and `indices` as `Spared` says |
| Tree.Node.Step | tree.go:112-211 | one pass: the node's fragment becomes a prefix of the rest of the route and `maxParams` is raised; the node is split as `Enter` says; a route ending here is a duplicate exactly when the node was not split and had handlers; a route going on from an unsplit node takes the way `ThroughWildChild` or `Chosen` gives, and after a split the way `Chosen` gives over the one child split off; a route going on from an unsplit node keeps its handlers and full path, its wildcard flag unless a wildcard child is hung, and its children and `indices` up to the reordering or the append `Branched` describes (`Spared`); after a split the same holds with respect to the one child split off, which took the node's handlers and children, the node itself having no handlers, no wildcard child and the full path cut at the split; the node gone to or hung is among the children |
| Tree.Node.Pass | tree.go:111-212 | one pass as `Step` describes, seen by the walk: a pass that goes down without consuming any of the route reaches a node with fewer nodes below it, which makes the walk terminate |
| Tree.Node.Visit | tree.go:111-212 | one pass keeps the walk's bookkeeping: the nodes left behind are linked parent to child, their fragments spell the route up to where the walk stands, and each had `maxParams` raised; a stopping pass has registered the route as `Registered` describes; every other node of the tree keeps its own fragment, handlers and children |
| Tree.WalkOn | tree.go:146-189 | a pass that goes down leaves the walk in good order one node further on |
| Tree.WalkEnds | tree.go:203-211 | a pass that stops leaves the walk registered |
| Tree.EndsAt | tree.go:203-211 | the walk ends at the node it stopped at or at the node it hung, as `Finished` describes |
| Tree.Planted | tree.go:213-216 | registering in an empty tree is `Registered`, with a walk of the root and the child it may have hung |
| Tree.Node.Plant | tree.go:213-216 | a route registered in an empty tree is placed at the root, or below it when it opens with a wildcard, and is `Registered` with a walk of the root and that child; on success the root becomes the root kind, and a panic leaves its kind unchanged |
| Tree.Node.Walk | tree.go:110-212 | the walk terminates; it goes from the root down through child edges, each node a child of the one before, and ends `Registered`; the nodes it did not walk keep their own fragment, handlers and children |
| Tree.Node.AddRoute | tree.go:102-217 | after `addRoute` the tree keeps its shape, and the walk went from the root down through child edges. Each walked node has `maxParams` at least its count: the route's wildcard count, lowered by one (with `uint8` wrap) after each wildcard child. The route succeeded exactly when the handlers were attached or inserted, at a node whose ancestors' fragments and its own spell the route. Otherwise it panicked for one of four reasons, each with its own message: a duplicate route, a wildcard conflict (the route then spelled up to a segment the wildcard child does not continue), an out-of-range index, or a refused wildcard. Nodes off the walk keep their own fragment, handlers and children |
| Context.Context.constructor | context.go:18-39 | the zero context: cursor 0, no handlers, a nil bag, so every `Get` is `(nil, false)` and every `MustGet` panics |
| Context.Context.Reset | context.go:41-52 | the cursor goes back to -1, so the context is not aborted. Handlers, parameters, full path, bag and errors are cleared, and `Get` finds nothing. |
| Context.Context.Copy | context.go:54-67 | a fresh context with the same content, its cursor at `abortIndex` (so aborted), and a bag of its own holding the same entries |
| Context.Context.Abort | context.go:97-103 | the cursor is parked at `abortIndex` (63) whatever it was, so `IsAborted` holds and a second `Abort` changes nothing more |
| Context.Context.Next | context.go:89-95 | a normal return leaves the cursor at or past the `int8` length; a cursor already past the end runs nothing; the trace only grows; with at most 64 handlers, no handler runs after an abort, even through enclosing `Next` calls; handlers that neither call `Next` nor abort run exactly in order, from the one after the cursor to the last |
| Context.Context.RunAt | context.go:92 | the handler under the cursor is recorded as run before anything it does, the trace only grows, and a handler that neither moves the cursor nor panics leaves it where it was |
| Context.Context.Error | context.go:121-136 | nil panics with `err is nil` and records nothing; an `*Error` is kept as it is; anything else is wrapped as a fresh private `*Error`; exactly that entry is appended and returned |
| Context.Context.Set | context.go:140-145 | the bag is allocated on first use; afterwards `Get(key)` is `(value, true)` and every other key reads as before |
| Context.Context.Get | context.go:147-150 | the stored value and `true` exactly when the key is in the bag, `(nil, false)` otherwise (also for a nil bag) |
| Context.Context.MustGet | context.go:152-157 | the stored value, and a panic with `Key "<key>" does not exist` exactly when the key is absent |
| Context.Context.GetString | context.go:159-164 | the stored string, `""` otherwise |
| Context.Context.GetBool | context.go:166-171 | true exactly when the stored value is the boolean true |
| Context.Context.GetInt | context.go:173-178 | the stored integer, 0 otherwise |
| Context.Context.Param | context.go:236-238 | the value of the parameter named `"name"`, whatever key is asked for |
| Tree.IndexByte | context.go:348-349 | `strings.IndexByte`: -1 exactly when the byte is absent, and otherwise the first position holding it |
| Context.BracketKeySpec | context.go:348-352 | a map key is collected exactly when it starts with `key[` and a non-empty run of bytes other than `]` is closed by `]`; that run is its `sub` |
| Context.CollectSkip | context.go:347-348 | visiting a key that is not bracketed changes nothing |
| Context.CollectKeep | context.go:349-351 | visiting a bracketed key records its first value under its `sub` and sets the flag |
| Context.FormGet | context.go:344-356 | `get` panics exactly when some bracketed key has no values. Otherwise the result maps exactly the `sub`s of the bracketed keys, each to the first value of a key carrying it, and the flag says whether any key was bracketed. The requested name is never used. |

## Left out

- Route lookup (`getValue`) and the real `insertChild`: neither exists in the source (tree.go:219-226). `Tree.Node.InsertChild` is a stand-in that splits no wildcards inside the suffix.
- Tree.Node.IncrementChildPrio: priorities are unbounded naturals, so the `uint32` wrap after 2^32 bumps of one child is not modelled.
- Tree.Node.IncrementChildPrio: requires the position to lie within both `children` and `indices`. Both calls in `addRoute` meet this: tree.go:187 comes after the index scan and the children bound that `Branch` checks, and tree.go:200 comes after the append.
- Context.Context.Next: each handler invocation spends one unit of a `fuel` budget, and a run that exhausts it ends as `OutOfFuel`. With more than 64 handlers, an abort can make the Go loop rerun handlers forever, and the budget stands in for that divergence.
- Context.Context.Next: for handlers that call `Next` or `Abort`, the order of runs is stated only as the abort discipline (no handler after an abort), not as an exact trace.
- Context.Context.Next: a wrapped, negative cursor panics with Go's runtime message for an out-of-range index, without the index and length details Go appends.
- ThroughIndex: an index byte without a child panics with Go's runtime message for an out-of-range index, without the index and length details.
- ThroughWildChild: the same holds for its out-of-range panics, when there is no wildcard child or the route ends with the child's fragment.
- InsertChild: the panic for a wildcard suffix below a node with children carries a message of the model's own (`WildcardChildrenMessage`), since `insertChild` has no body in the source to take one from.
- Paths, fragments and `indices` are sequences of characters, not of bytes. Go's tree compares and splits byte by byte, so on a route with multi-byte UTF-8 characters Go can split a fragment inside a character (registering `/é` and then `/è` splits after the first byte of both), where the model splits before it; trees over ASCII routes agree.
- AddRoute: `Registered` describes the tree after the call. That a duplicate panics exactly when the final node already had handlers, and that a wildcard child is entered only when the route continues it, are stated pass by pass (`Resume`, `Step`, `ThroughWildChild`, `Branch`), not for the whole walk.
- AddRoute: a node off the walk keeps its own fragment, handlers and children (its `indices`, wildcard flag, full path and kind are not stated unchanged), and each pass keeps the node it stands on as `Spared` says (`Step`), but these per-pass facts are not carried through the walk. So `AddRoute` does not state that the walked nodes keep their handlers (or hand them to the child split off) and their children up to reordering, and it does not prove that every node reachable before is still reachable, nor that every route registered before is still spelled afterwards.
- Walk: the same limits apply; its contract, which `AddRoute` passes on, frames only the fragment, handlers and children of the nodes it did not walk, not their `indices`, wildcard flag, full path or kind.
- Visit: frames only the fragment, handlers and children of the nodes other than the one visited. Their `indices`, wildcard flag, full path and kind are not stated unchanged, although `Pass` cannot change them. What the pass leaves of the visited node is stated by `Step` (`Spared`) and not repeated here. Both gaps keep the walk's proof within the solver's budget.
- Pass: states only what the walk needs of `Step`; `Step`'s `Spared` clauses about the node passed through are not repeated, for the same reason.
- Context.Context.Copy: the copy and the original share Go's backing array of `Errors`, so an append on one can overwrite the other's; the model gives each its own sequence.
- Context.Context.Reset: Go keeps the backing arrays of `Params` and `Errors`. The writer, `Accepted` and the query and form caches are not modelled.
- `IsAborted` is the predicate `index >= abortIndex`. It has no contract of its own and appears in the contracts of `Reset`, `Copy` and `Abort`.
- Context.FormGet: Go's map iteration order is modelled as a nondeterministic choice of the next key. When several keys share a `sub`, the contract says the value comes from one of them, not which one.
- The query, form and file helpers (`GetQuery*`, `GetPostForm*`, `FormFile`, `SaveUploadedFile`, `File`): they depend on URL and multipart parsing, the file system and HTTP serving.
- `AbortWithStatus`, `AbortWithStatusJSON`, `AbortWithError`, `Handler`, `FullPath`, `HandlerName`, `HandlerNames`: they call response-writing and reflection code outside this model. Their `Abort` and `Error` effects are modelled.
- `GetInt64`, `GetFloat64`, `GetTime`, `GetDuration`, `GetStringSlice` and the map getters: `Value` holds only strings, booleans and integers.
- `Group`, `Handle`, `GET` and the other registration methods: `IRoutes` declares them but the source does not implement them. The `Engine` is reduced to its method trees; its embedded root group, options and `sync.Pool` are not modelled.
- Handlers are scripts of steps rather than arbitrary Go functions. Concurrency, `DefaultWriter`, the debug printing and the mode's `init` reading `JIN_MODE` from the environment are not modelled.
