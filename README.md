# Supported-distributions schema walker, in Dafny

This project models the generator in `scripts/get_supported_distribs.py`. The generator reads
the sweeps JSON Schema and builds `SUPPORTED_DISTRIBUTIONS`: each distribution name mapped to
its parameter names, in a fixed order. The model covers these parts:

- **`ORDER_HINTS`**: the priority table (`Slots.ORDER_HINTS`).
- **`resolve_ref`**: same-document JSON Pointer resolution (module `Pointer`).
  - `Pointer.Resolve` is a function that states the result.
  - `Pointer.ResolveRef` is the loop that walks the target segment by segment.
- **`record_properties`**: the slot-map merge (module `Slots`).
  - `Slots.Record` is a function.
  - `Walker.Traversal.RecordProperties` is the loop that updates the shared `mapping`.
- **`walk`**: the identity-guarded depth-first traversal. It is the class `Walker.Traversal`, whose fields `mapping` and `seen` are the two dictionaries the source threads through its recursion.
- **`main`'s loop over `definitions`**: `Walker.Collect`.
- **`sorted_keys` and the sorted listing that `main` prints**: module `Output`, built on the ordering in module `Order`.

How the model represents the source's data:

- **Documents.** A parsed document is the datatype `Json.Json`. An object is the sequence of its members, in document order.
- **Object identity.** Python's `id()` becomes the object's position. A position is the path of child indices from the root, written `Path`. In a freshly parsed document each object sits at exactly one position, and `resolve_ref` returns the object found at a position. So two routes to the same object give the same path.
- **Failures.** `resolve_ref` either returns `None` or raises on a missing segment. This becomes the `Resolution` datatype: `Foreign`, `Resolved(path)` or `Broken`. The walk methods return `ok == false` where the source would raise. `Collect` reports the whole run as an `Outcome`.

The walk is specified declaratively, in module `Schema`:

- `Succ` gives the objects a walk of one object goes on to enter: the object its `$ref` leads to, and the objects in its `anyOf`/`allOf`/`oneOf` arrays (arrays nested in arrays are walked through).
- `Reach` gives the objects reachable from the `definitions` values along `Succ`.

`Collect` is proved to do the following:

- It fails exactly when a reachable object has a broken `$ref`.
- Otherwise it enters exactly the reachable objects.
- It records each reachable object's declarations exactly once, in some order.
- The table it builds holds exactly the (distribution, parameter) pairs those objects declare.

`Walker.RenderIgnoresOrder` then proves that the printed listing does not depend on that order.

`resolve_ref` indexes with the unescaped string (line 42), so a segment that meets an array raises `TypeError`: array positions cannot be named in a pointer, unlike in RFC 6901. `Pointer.Step` only descends into objects, and such a segment is `Broken`.

## Model

| member | source | states |
|---|---|---|
| Slots.HintedSortFirst | scripts/get_supported_distribs.py:13-24 | a name has a priority below the default 5 exactly when `ORDER_HINTS` lists it; every other name gets exactly 5 |
| Slots.LookupBelowDefault | scripts/get_supported_distribs.py:56 | `table.get(key, default)` with all entries below `default` is below it exactly when the key is present, and never above it |
| Json.Find | scripts/get_supported_distribs.py:70 | the member lookup: a found index holds the key and no earlier member does; nothing is found exactly when no member has the key |
| Json.Get | scripts/get_supported_distribs.py:75 | `node.get(key)` yields a value exactly when some member has the key, and then it is that member's value |
| Json.Keys | scripts/get_supported_distribs.py:86 | `list(properties.keys())` has one entry per member, and a name is among them exactly when the lookup `properties.get(name)` finds a member |
| Pointer.Split | scripts/get_supported_distribs.py:40 | `str.split("/")` gives at least one piece, and no piece contains the separator |
| Pointer.JoinSplit | scripts/get_supported_distribs.py:40 | joining the pieces of a split with the separator gives back the original text |
| Pointer.SplitJoin | scripts/get_supported_distribs.py:40 | splitting a join of separator-free pieces gives back the pieces |
| Pointer.UnescapeEscape | scripts/get_supported_distribs.py:41 | decoding `~1` then `~0` inverts RFC 6901 escaping, so every key, even one holding `/` or `~`, can be named |
| Pointer.UnescapeOrder | scripts/get_supported_distribs.py:41 | `~01` decodes to `~1`; decoding the two escapes in the other order would give `/` |
| Pointer.Resolve | scripts/get_supported_distribs.py:37-38 | a reference is foreign (`None`) exactly when it does not start with `#/` |
| Pointer.DescendNeverForeign | scripts/get_supported_distribs.py:39-43 | descending the segments either reaches a position or fails; it never yields `None` |
| Pointer.ResolveSpec | scripts/get_supported_distribs.py:33-43 | `None` exactly for a reference without `#/`. Otherwise the result is the position reached by stepping through the unescaped segments in order, each one a key of the object reached so far. It is a failure exactly when no such sequence of steps exists |
| Pointer.ResolveRef | scripts/get_supported_distribs.py:33-43 | the segment-by-segment loop returns what `Resolve` specifies, and a resolved position lies inside the document |
| Slots.RecordAllKeys | scripts/get_supported_distribs.py:52-56 | after the loop a slot map holds exactly its old keys plus the given keys other than `"distribution"` |
| Slots.RecordAllFrozen | scripts/get_supported_distribs.py:55-56 | a key already in the slot map keeps its (priority, index) |
| Slots.RecordAllValid | scripts/get_supported_distribs.py:53-56 | the slot map never holds `"distribution"`; each priority is `ORDER_HINTS.get(key, 5)`; indices are distinct and below the map's size, so they are exactly 0..n-1 |
| Slots.RecordAllIdempotent | scripts/get_supported_distribs.py:52-56 | recording the same keys a second time changes nothing |
| Slots.NoNewKeys | scripts/get_supported_distribs.py:55 | keys that are all present already, or all `"distribution"`, leave the slot map unchanged |
| Slots.RecordShape | scripts/get_supported_distribs.py:51-56 | after `record_properties` the slot map of `dist` exists, even if no key was added; the other distributions are untouched; recorded slots of `dist` keep their values |
| Slots.RecordValid | scripts/get_supported_distribs.py:51-56 | `record_properties` keeps every slot map of the table valid |
| Slots.RecordHas | scripts/get_supported_distribs.py:51-56 | `record_properties` adds exactly the pairs `(dist, k)` for the given keys `k` other than `"distribution"` |
| Slots.RecordEachSpec | scripts/get_supported_distribs.py:87-88 | recording the keys under each declared distribution keeps the table valid and overwrites no slot. It adds exactly the declared distributions, and exactly their pairs with the keys other than `"distribution"` |
| Walker.Traversal.RecordProperties | scripts/get_supported_distribs.py:46-56 | the loop updates `mapping` to exactly `Record(old mapping, dist, keys)`, and leaves `seen` alone |
| Walker.Traversal.RecordEachDistribution | scripts/get_supported_distribs.py:87-88 | the loop over the distribution names applies `record_properties` to each name in turn |
| Schema.StringsOf | scripts/get_supported_distribs.py:81-82 | the names taken from an `enum` list are exactly its string entries |
| Walker.Traversal.RecordDeclarations | scripts/get_supported_distribs.py:75-88 | the entered object's property keys are recorded under every name from `properties.distribution.enum`, then under `.const`. The object joins the log of recorded objects, which stays free of duplicates |
| Walker.Traversal.constructor | scripts/get_supported_distribs.py:108-109 | `mapping` and `seen` start empty |
| Walker.Traversal.Walk | scripts/get_supported_distribs.py:59-97 | `walk(node)` only adds to `seen`, and only objects inside any closed set (`bound`) that holds the objects `node` leads to. On success every object `node` leads to is in `seen`, and every finished object has its successors seen, its declarations recorded and no broken `$ref`. On failure some entered object has a broken `$ref`. Newly recorded objects are ones not entered before the call |
| Walker.Traversal.WalkObject | scripts/get_supported_distribs.py:65-69 | an object is entered at most once: one already in `seen` is skipped and leaves `mapping`, `seen` and the log unchanged; otherwise it is added to `seen` and visited, with the same guarantees as `Walk` |
| Walker.Traversal.VisitObject | scripts/get_supported_distribs.py:70-94 | visiting an object follows its `$ref`, records its declarations exactly once, then walks its combinators. On success the object is finished |
| Walker.Traversal.WalkRef | scripts/get_supported_distribs.py:70-74 | after a successful `$ref` step the target's objects are in `seen` and the object's `$ref` is not broken. A broken `$ref` stops the walk. An absent or non-string `$ref`, a foreign reference, or a target that is JSON `null` is skipped: `ok`, with `mapping`, `seen` and the log unchanged |
| Walker.Traversal.WalkCombinators | scripts/get_supported_distribs.py:90-94 | on success the objects of the `anyOf`, `allOf` and `oneOf` arrays, visited in that order, are all in `seen` |
| Walker.Traversal.WalkEach | scripts/get_supported_distribs.py:93-97 | on success every object the elements of the array lead to is in `seen`; arrays themselves are never entered |
| Schema.SuccObjects | scripts/get_supported_distribs.py:65-69 | a walk only ever enters objects |
| Schema.ReachClosed | scripts/get_supported_distribs.py:59-97 | the reachable objects contain the `definitions` roots and are closed under the walk's steps |
| Schema.ReachLeast | scripts/get_supported_distribs.py:59-97 | the reachable objects lie inside every closed set that contains the roots |
| Schema.FoldValid | scripts/get_supported_distribs.py:75-88 | recording the declarations of any sequence of objects keeps the table valid and never overwrites a slot |
| Schema.FoldTracks | scripts/get_supported_distribs.py:75-88 | recording the declarations of a sequence of objects adds exactly the distributions and pairs they declare |
| Schema.WalkComplete | scripts/get_supported_distribs.py:108-111 | a finished walk that stayed among the reachable objects has entered exactly them, recorded exactly them and met no broken `$ref` |
| Walker.Collect | scripts/get_supported_distribs.py:106-111 | a non-object document, or a non-object `definitions`, is an error. The run fails exactly when a reachable object has a broken `$ref`. Otherwise the table is valid and holds exactly the distributions and pairs the reachable objects declare. It is what recording each reachable object once, in some order, produces |
| Order.LexIrreflexive | scripts/get_supported_distribs.py:103 | Python's `<` on strings is irreflexive |
| Order.LexTransitive | scripts/get_supported_distribs.py:103 | Python's `<` on strings is transitive |
| Order.LexTotal | scripts/get_supported_distribs.py:103 | of two different strings, one is `<` the other |
| Order.LeastExists | scripts/get_supported_distribs.py:103 | a non-empty set of names has exactly one least element under the `(priority, name)` tuple order |
| Order.SortedBy | scripts/get_supported_distribs.py:103 | `sorted(..., key=(rank, name))` lists each element of the set once, strictly ascending |
| Order.StrictlySortedUnique | scripts/get_supported_distribs.py:103 | two strictly sorted sequences with the same elements are equal, so the result cannot depend on input order |
| Order.SortedByRanksOnly | scripts/get_supported_distribs.py:103 | only the ranks of the elements affect the sorted order |
| Output.SortedKeysSpec | scripts/get_supported_distribs.py:100-103 | `sorted_keys` lists every recorded name exactly once, by ascending priority, and alphabetically within a priority |
| Output.SortedKeysIgnoresIndex | scripts/get_supported_distribs.py:100-103 | the insertion index plays no part: slot maps with the same names and priorities sort the same |
| Output.SortedNames | scripts/get_supported_distribs.py:113 | `sorted(mapping)` lists every distribution once, in ascending string order |
| Output.RenderOrdered | scripts/get_supported_distribs.py:113-115 | each listed line is a recorded distribution with its own `sorted_keys`, and lines are in ascending name order |
| Output.RenderComplete | scripts/get_supported_distribs.py:113-115 | every recorded distribution is listed exactly once |
| Output.RenderParameters | scripts/get_supported_distribs.py:113-115 | no listed parameter list contains `"distribution"` or a repeated name |
| Output.SameNamesSortSame | scripts/get_supported_distribs.py:100-103 | a distribution with the same parameter names in two valid tables sorts the same |
| Output.RenderDependsOnPairsOnly | scripts/get_supported_distribs.py:113-115 | two valid tables that record the same pairs list the same |
| Walker.RenderIgnoresOrder | scripts/get_supported_distribs.py:108-115 | recording the same objects in any two orders lists the same table, so the output is a function of the schema |

## Left out

- `load_schema` (lines 27-30) fetches and parses the schema over HTTPS. The model takes an already-parsed document as a parameter.
- The printed text (lines 112-116) and the `__main__` entry point (lines 119-120) are left out. The model stops at the sorted list of (distribution, parameter names) pairs, `Output.Render`, and does not model string formatting or standard output.
- Python's `id()` is not modelled; the object's position stands for it. `collections.defaultdict(dict)` is not modelled either: an absent slot map is created empty inside `Slots.Record`.
- Non-string `enum` entries and non-string `const` values are dropped by `Schema.DistNames`. The source passes them through, which can raise `TypeError` or make `sorted(mapping)` fail.
- Numbers and booleans are one `Other` case, since the walk never inspects them.
- JSON text with duplicate keys is not modelled. Lookups take the first member with a key, whereas Python's parser keeps the last.
- Python's recursion limit is not modelled. A very deep schema raises `RecursionError` in the source, while the model's walk always runs to completion.
- Walker.Traversal.Walk: the walk methods do not state that recorded slots stay frozen. That is stated about the recording functions instead (`Slots.RecordAllFrozen`, `Slots.RecordEachSpec`, `Schema.FoldValid`). The walk methods relate `mapping` to the log of recorded objects.
- Walker.Collect: on a broken `$ref` it reports only that one was reached. It does not describe the partial table, which the source discards when the exception ends the run.
- Only failures of `resolve_ref` (`KeyError`/`TypeError`) and a document or `definitions` that is not an object (`AttributeError`) are modelled as errors. No other exception is.
