/** The depth-first walk over the schema that collects each distribution's parameters,
    and the driver that starts it from every definition. */
module Walker {
  import opened Json
  import opened Pointer
  import opened Slots
  import opened Schema
  import opened Output

  /** `|A - S|` only shrinks as `S` grows. */
  lemma {:induction false} UnseenMonotone(A: set<Path>, S: set<Path>, S': set<Path>)
    requires S <= S'
    ensures |A - S'| <= |A - S|
  {
    assert A - S' <= A - S;
    SubsetCard(A - S', A - S);
  }

  /** Entering an unseen object shrinks `|A - S|`. */
  lemma UnseenShrinks(A: set<Path>, S: set<Path>, x: Path)
    requires x in A && x !in S
    ensures |A - (S + {x})| < |A - S|
  {
    assert A - (S + {x}) == (A - S) - {x};
  }

  lemma AddRemove(S: set<Path>, x: Path)
    requires x !in S
    ensures S + {x} - {x} == S
  {
  }

  lemma {:induction false} SubsetCard(X: set<Path>, Y: set<Path>)
    requires X <= Y
    ensures |X| <= |Y|
    decreases |Y|
  {
    if X != {} {
      var x :| x in X;
      SubsetCard(X - {x}, Y - {x});
    }
  }

  lemma PrefixTransitive(a: seq<Path>, b: seq<Path>, c: seq<Path>)
    requires a <= b && b <= c
    ensures a <= c
  {
    assert a == b[..|a|];
    assert b == c[..|b|];
    assert c[..|b|][..|a|] == c[..|a|];
  }

  /** No object appears twice in `ps`. */
  ghost predicate NoDup(ps: seq<Path>)
  {
    forall i, j :: 0 <= i < j < |ps| ==> ps[i] != ps[j]
  }

  /** Appending an object not yet in `ps` keeps it duplicate-free (and inside `S`). */
  lemma NoDupSnoc(ps: seq<Path>, x: Path, S: set<Path>)
    requires NoDup(ps) && x !in ps && (forall q :: q in ps ==> q in S) && x in S
    ensures NoDup(ps + [x]) && forall q :: q in ps + [x] ==> q in S
  {
  }

  /** `r` is `r0` followed by objects none of which had been entered in `s0`. */
  ghost predicate Grown(r0: seq<Path>, r: seq<Path>, s0: set<Path>)
  {
    r0 <= r && forall i :: |r0| <= i < |r| ==> r[i] !in s0
  }

  lemma GrownTransitive(r0: seq<Path>, r1: seq<Path>, r2: seq<Path>, s0: set<Path>, s1: set<Path>)
    requires Grown(r0, r1, s0) && Grown(r1, r2, s1) && s0 <= s1
    ensures Grown(r0, r2, s0)
  {
    PrefixTransitive(r0, r1, r2);
    forall i | |r0| <= i < |r2| ensures r2[i] !in s0 {
      if i < |r1| {
        assert r2[i] == r2[..|r1|][i] == r1[i];
      }
    }
  }

  /** An object entered before the growth and not recorded then is still not recorded. */
  lemma GrownMisses(r0: seq<Path>, r: seq<Path>, s0: set<Path>, x: Path)
    requires Grown(r0, r, s0) && x in s0 && x !in r0
    ensures x !in r
  {
  }

  /** Recording the object `at` after a growth is a growth relative to the objects entered
      before `at`. */
  lemma GrownRecord(r0: seq<Path>, r1: seq<Path>, s0: set<Path>, at: Path)
    requires Grown(r0, r1, s0)
    ensures Grown(r0, r1 + [at], s0 - {at})
  {
    PrefixTransitive(r0, r1, r1 + [at]);
  }

  /** The state `walk` threads through its recursive calls: the accumulator `mapping` and
      the set `seen` of objects already entered (by position, standing for `id`). */
  class Traversal {
    const root: Json
    var mapping: SlotTable
    var seen: set<Path>
    /** The objects whose declarations were recorded, in the order `walk` recorded them. */
    ghost var recorded: seq<Path>

    /** `mapping` is what recording the objects of `recorded` in turn produces, and only
        entered objects get recorded. */
    ghost predicate Valid()
      reads this
    {
      && mapping == Fold(root, map[], recorded)
      && (forall q :: q in recorded ==> q in seen)
      && NoDup(recorded)
    }

    ghost function Unseen(): set<Path>
      reads this
    {
      ObjPaths(root) - seen
    }

    /** `mapping = collections.defaultdict(dict)` and `seen = set()`. */
    constructor (schema: Json)
      ensures root == schema && mapping == map[] && seen == {} && recorded == []
      ensures Valid()
    {
      root := schema;
      mapping := map[];
      seen := {};
      recorded := [];
    }

    /** `record_properties(mapping, dist, keys)`. */
    method RecordProperties(dist: string, keys: seq<string>)
      modifies this
      ensures mapping == Record(old(mapping), dist, keys)
      ensures seen == old(seen) && recorded == old(recorded)
    {
      var slots := if dist in mapping then mapping[dist] else map[];
      ghost var s0 := slots;
      for i := 0 to |keys|
        invariant slots == RecordAll(s0, keys[..i])
      {
        assert keys[..i + 1][..i] == keys[..i];
        var key := keys[i];
        if key == EXCLUDED {
          continue;
        }
        if key !in slots {
          slots := slots[key := Slot(Hint(key), |slots|)];
        }
      }
      assert keys[..|keys|] == keys;
      mapping := mapping[dist := slots];
    }

    /** The `for dist in distributions` loop of `walk`: `record_properties(mapping, dist,
        keys)` for each `dist` of `dists` in turn. */
    method RecordEachDistribution(dists: seq<string>, keys: seq<string>)
      modifies this
      ensures mapping == RecordEach(old(mapping), dists, keys)
      ensures seen == old(seen) && recorded == old(recorded)
    {
      for n := 0 to |dists|
        invariant seen == old(seen) && recorded == old(recorded)
        invariant mapping == RecordEach(old(mapping), dists[..n], keys)
      {
        RecordProperties(dists[n], keys);
        assert dists[..n + 1][..n] == dists[..n];
      }
      assert dists[..|dists|] == dists;
    }

    /** The `properties` step of `walk`: record the property keys of the entered object `node` (at
        `at`) under every distribution name it declares. */
    method RecordDeclarations(node: Json, ghost at: Path)
      requires Valid() && At(root, at) == Some(node) && at in seen && at !in recorded
      modifies this
      ensures mapping == RecordEach(old(mapping), DistNames(node), PropertyKeys(node))
      ensures seen == old(seen) && recorded == old(recorded) + [at]
      ensures Valid()
    {
      FoldSnoc(root, map[], recorded, at, node);
      NoDupSnoc(recorded, at, seen);
      RecordEachDistribution(DistNames(node), PropertyKeys(node));
      recorded := recorded + [at];
    }

    /** `walk(node, schema, mapping, seen)` for the value `node` found at `at`. The ghost
        `stack` holds the objects whose walk is still in progress, `bound` a closed set of
        objects the walk stays inside. `ok` is false when a broken `$ref` stopped the walk
        (the exception `resolve_ref` raises). */
    method Walk(node: Json, at: Path, ghost stack: set<Path>, ghost bound: set<Path>) returns (ok: bool)
      requires Valid() && At(root, at) == Some(node)
      requires Closed(root, bound) && Frontier(node, at) <= bound
      requires Finished(root, seen, stack, recorded)
      modifies this
      decreases |Unseen()|, node, 3
      ensures Valid() && old(seen) <= seen <= old(seen) + bound && Grown(old(recorded), recorded, old(seen))
      ensures ok ==> Frontier(node, at) <= seen && Finished(root, seen, stack, recorded)
      ensures !ok ==> BrokenIn(root, seen)
    {
      match node
      case Obj(ms) =>
        ok := WalkObject(ms, at, stack, bound);
      case Arr(_) =>
        ok := WalkEach(node, at, stack, bound);
      case _ =>
        ok := true;
    }

    /** The identity guard of `walk`: an object already in `seen` is skipped; otherwise it
        is entered and visited. */
    method WalkObject(ms: seq<Member>, at: Path, ghost stack: set<Path>, ghost bound: set<Path>) returns (ok: bool)
      requires Valid() && At(root, at) == Some(Obj(ms))
      requires Closed(root, bound) && at in bound
      requires Finished(root, seen, stack, recorded)
      modifies this
      decreases |Unseen()|, Obj(ms), 2
      ensures Valid() && old(seen) <= seen <= old(seen) + bound && Grown(old(recorded), recorded, old(seen))
      ensures ok ==> at in seen && Finished(root, seen, stack, recorded)
      ensures !ok ==> BrokenIn(root, seen)
      ensures at in old(seen) ==> ok && mapping == old(mapping) && seen == old(seen) && recorded == old(recorded)
    {
      if at in seen {
        return true;
      }
      ObjAtInObjPaths(root, at);
      UnseenShrinks(ObjPaths(root), seen, at);
      FinishedPush(root, seen, stack, recorded, at);
      ghost var seen0 := seen;
      seen := seen + {at};
      ok := VisitObject(ms, at, stack, bound);
      AddRemove(seen0, at);
    }

    /** The body of `walk` for an object just entered: follow its `$ref`, record what
        it declares, then walk its combinators. */
    method VisitObject(ms: seq<Member>, at: Path, ghost stack: set<Path>, ghost bound: set<Path>) returns (ok: bool)
      requires Valid() && At(root, at) == Some(Obj(ms)) && at in seen && at !in recorded
      requires Closed(root, bound) && at in bound
      requires Finished(root, seen, stack + {at}, recorded)
      modifies this
      decreases |Unseen()| + 1, Obj(ms), 1
      ensures Valid() && old(seen) <= seen <= old(seen) + bound && Grown(old(recorded), recorded, old(seen) - {at})
      ensures ok ==> Finished(root, seen, stack, recorded)
      ensures !ok ==> BrokenIn(root, seen)
    {
      ok := WalkRef(ms, at, stack + {at}, bound);
      GrownTransitive(old(recorded), recorded, recorded, old(seen) - {at}, old(seen));
      if ok {
        ghost var r1 := recorded;
        GrownMisses(old(recorded), r1, old(seen), at);
        RecordDeclarations(Obj(ms), at);
        FinishedRecord(root, seen, stack + {at}, r1, recorded);
        GrownRecord(old(recorded), r1, old(seen), at);

        UnseenMonotone(ObjPaths(root), old(seen), seen);
        ghost var r2, seen2 := recorded, seen;
        ok := WalkCombinators(ms, at, stack + {at}, bound);
        GrownTransitive(old(recorded), r2, recorded, old(seen) - {at}, seen2);
        if ok {
          assert r2[|r2| - 1] == at && recorded[|r2| - 1] == at;
          SuccCovered(root, ms, at, seen);
          FinishedPop(root, seen, stack, recorded, at);
        }
      }
    }

    /** The `$ref` step of `walk`: a string `$ref` is resolved and its target walked unless
        the reference is foreign or the target is `null`; a broken one stops the walk. */
    method WalkRef(ms: seq<Member>, at: Path, ghost stack: set<Path>, ghost bound: set<Path>) returns (ok: bool)
      requires Valid() && At(root, at) == Some(Obj(ms)) && at in seen
      requires Closed(root, bound) && at in bound
      requires Finished(root, seen, stack, recorded)
      modifies this
      decreases |Unseen()| + 1, Obj(ms), 0
      ensures Valid() && old(seen) <= seen <= old(seen) + bound && Grown(old(recorded), recorded, old(seen))
      ensures ok ==> RefFrontier(root, ms) <= seen && !BrokenAt(root, at) && Finished(root, seen, stack, recorded)
      ensures !ok ==> BrokenIn(root, seen)
      ensures SkipsRef(root, ms) ==> ok && mapping == old(mapping) && seen == old(seen) && recorded == old(recorded)
    {
      var ref := Get(ms, "$ref");
      if ref.Some? && ref.value.Str? {
        var resolved := ResolveRef(ref.value.s, root);
        if resolved.Broken? {
          assert BrokenAt(root, at);
          return false;
        }
        if resolved.Resolved? {
          var target := At(root, resolved.path).value;
          if !target.Null? {
            SuccInClosed(root, ms, at, bound);
            ok := Walk(target, resolved.path, stack, bound);
            return;
          }
        }
      }
      ok := true;
    }

    /** The loop of `walk` over the three combinators of an object. */
    method WalkCombinators(ms: seq<Member>, at: Path, ghost stack: set<Path>, ghost bound: set<Path>) returns (ok: bool)
      requires Valid() && At(root, at) == Some(Obj(ms))
      requires Closed(root, bound) && at in bound
      requires Finished(root, seen, stack, recorded)
      modifies this
      decreases |Unseen()| + 1, Obj(ms), 0
      ensures Valid() && old(seen) <= seen <= old(seen) + bound && Grown(old(recorded), recorded, old(seen))
      ensures ok ==> forall n :: 0 <= n < |COMBINATORS| ==> CombFrontier(ms, at, COMBINATORS[n]) <= seen
      ensures ok ==> Finished(root, seen, stack, recorded)
      ensures !ok ==> BrokenIn(root, seen)
    {
      SuccInClosed(root, ms, at, bound);
      for n := 0 to |COMBINATORS|
        invariant Valid() && old(seen) <= seen <= old(seen) + bound && Grown(old(recorded), recorded, old(seen))
        invariant forall n' :: 0 <= n' < n ==> CombFrontier(ms, at, COMBINATORS[n']) <= seen
        invariant Finished(root, seen, stack, recorded)
      {
        var j := Find(ms, COMBINATORS[n]);
        if j.Some? && ms[j.value].value.Arr? {
          var options := ms[j.value].value;
          AtAppend(root, at, j.value);
          UnseenMonotone(ObjPaths(root), old(seen), seen);
          ghost var seen1, r1 := seen, recorded;
          ok := WalkEach(options, at + [j.value], stack, bound);
          GrownTransitive(old(recorded), r1, recorded, old(seen), seen1);
          if !ok {
            return;
          }
          CombsGrow(ms, at, n, seen1, seen);
        }
      }
      ok := true;
    }

    /** `for option in options: walk(option, ...)` and `for item in node: walk(item, ...)`:
        walk every element of the array `arr` found at `at`. */
    method WalkEach(arr: Json, at: Path, ghost stack: set<Path>, ghost bound: set<Path>) returns (ok: bool)
      requires arr.Arr? && Valid() && At(root, at) == Some(arr)
      requires Closed(root, bound) && Frontier(arr, at) <= bound
      requires Finished(root, seen, stack, recorded)
      modifies this
      decreases |Unseen()|, arr, 2
      ensures Valid() && old(seen) <= seen <= old(seen) + bound && Grown(old(recorded), recorded, old(seen))
      ensures ok ==> Frontier(arr, at) <= seen && Finished(root, seen, stack, recorded)
      ensures !ok ==> BrokenIn(root, seen)
    {
      var items := arr.items;
      for i := 0 to |items|
        invariant Valid() && old(seen) <= seen <= old(seen) + bound && Grown(old(recorded), recorded, old(seen))
        invariant forall i' :: 0 <= i' < i ==> Frontier(items[i'], at + [i']) <= seen
        invariant Finished(root, seen, stack, recorded)
      {
        AtAppend(root, at, i);
        FrontierOfElement(items, at, i);
        ghost var seen1, r1 := seen, recorded;
        UnseenMonotone(ObjPaths(root), old(seen), seen);
        ok := Walk(items[i], at + [i], stack, bound);
        GrownTransitive(old(recorded), r1, recorded, old(seen), seen1);
        if !ok {
          return;
        }
        FrontiersGrow(items, at, i, seen1, seen);
      }
      FrontierOfArray(items, at, seen);
      ok := true;
    }
  }

  /** How `main` ends. */
  datatype Outcome =
    | Collected(table: SlotTable)  // the mapping it goes on to print
    | BrokenRef                    // `resolve_ref` raised on a missing segment
    | Malformed                    // the document or its `definitions` is not an object

  /** The loop of `main` over `definitions`: walk every value of `definitions`, in document order, with
      one shared `mapping` and `seen`. The table collected is what recording the reachable
      objects' declarations produces, in the order the walk recorded them; the run fails
      exactly when a reachable object has a broken `$ref`. */
  method Collect(schema: Json) returns (r: Outcome)
    ensures r.Malformed? <==> !WellFormed(schema)
    ensures r.BrokenRef? <==> WellFormed(schema) && BrokenIn(schema, Reach(schema, DefinitionRoots(schema)))
    ensures r.Collected? ==> ValidTable(r.table)
    ensures r.Collected? ==> Tracks(schema, map[], r.table, Reach(schema, DefinitionRoots(schema)))
    ensures r.Collected? ==> exists order: seq<Path> ::
              && NoDup(order) && (set q | q in order) == Reach(schema, DefinitionRoots(schema))
              && r.table == Fold(schema, map[], order)
  {
    if !schema.Obj? {
      return Malformed;
    }
    var j := Find(schema.members, "definitions");
    if j.None? {
      ghost var none: seq<Path> := [];
      assert Reach(schema, {}) == {} && (set q | q in none) == {};
      assert Fold(schema, map[], none) == map[];
      return Collected(map[]);
    }
    var defs := schema.members[j.value].value;
    if !defs.Obj? {
      return Malformed;
    }
    var items := defs.members;
    ghost var roots := DefinitionRoots(schema);
    ghost var R := Reach(schema, roots);
    DefinitionRootsObjects(schema);
    ReachClosed(schema, roots);
    var w := new Traversal(schema);
    for i := 0 to |items|
      invariant w.Valid() && w.root == schema && w.seen <= R
      invariant Finished(schema, w.seen, {}, w.recorded)
      invariant forall i' :: 0 <= i' < i ==> Frontier(items[i'].value, [j.value] + [i']) <= w.seen
    {
      AtAppend(schema, [j.value], i);
      DefinitionRoot(schema, j.value, i);
      ghost var seen1 := w.seen;
      var ok := w.Walk(items[i].value, [j.value] + [i], {}, R);
      if !ok {
        BrokenInMonotone(schema, w.seen, R);
        return BrokenRef;
      }
      MemberFrontiersGrow(items, [j.value], i, seen1, w.seen);
    }
    DefinitionRootsCovered(schema, j.value, w.seen);
    WalkComplete(schema, roots, w.seen, w.recorded);
    return Collected(w.mapping);
  }

  /** The printed table does not depend on the order the walk recorded the objects in:
      recording the same set of objects in any two orders prints the same table. With
      `Collect`, the output is a function of the schema alone. */
  lemma RenderIgnoresOrder(schema: Json, o1: seq<Path>, o2: seq<Path>)
    requires (set q | q in o1) == (set q | q in o2)
    requires forall q :: q in o1 ==> At(schema, q).Some?
    ensures Render(Fold(schema, map[], o1)) == Render(Fold(schema, map[], o2))
  {
    var N := set q | q in o1;
    FoldOf(schema, o1, N);
    FoldOf(schema, o2, N);
    TracksSame(schema, Fold(schema, map[], o1), Fold(schema, map[], o2), N);
    RenderDependsOnPairsOnly(Fold(schema, map[], o1), Fold(schema, map[], o2));
  }
}
