/** What the schema walker reads from a node, and the reachability it explores:
    which objects a walk enters, and what each of them declares. */
module Schema {
  import opened Json
  import opened Pointer
  import opened Slots

  /** The combinator keywords, in the order the walker visits them. */
  const COMBINATORS: seq<string> := ["anyOf", "allOf", "oneOf"]

  /** The string entries of a list; other entries name no distribution here. */
  function StringsOf(xs: seq<Json>): (r: seq<string>)
    ensures forall s :: s in r <==> Str(s) in xs
  {
    if xs == [] then []
    else (if xs[0].Str? then [xs[0].s] else []) + StringsOf(xs[1..])
  }

  /** The distribution names a node declares: every string of `properties.distribution.enum`
      when that is a list, then `properties.distribution.const` when it is a string. */
  function DistNames(v: Json): seq<string>
  {
    match v
    case Obj(ms) =>
      (match Get(ms, "properties")
       case Some(Obj(props)) =>
         (match Get(props, "distribution")
          case Some(Obj(spec)) =>
            (match Get(spec, "enum") case Some(Arr(xs)) => StringsOf(xs) case _ => [])
            + (match Get(spec, "const") case Some(Str(c)) => [c] case _ => [])
          case _ => [])
       case _ => [])
    case _ => []
  }

  /** `list(properties.keys())` of a node whose `properties` is an object. */
  function PropertyKeys(v: Json): seq<string>
  {
    match v
    case Obj(ms) => (match Get(ms, "properties") case Some(Obj(props)) => Keys(props) case _ => [])
    case _ => []
  }

  ghost predicate IsObjAt(root: Json, p: Path)
  {
    At(root, p).Some? && At(root, p).value.Obj?
  }

  /** The objects a walk of `v` (found at `at`) enters first: `v` itself when it is an
      object, the frontiers of its elements when it is an array, nothing otherwise. */
  ghost function Frontier(v: Json, at: Path): set<Path>
    decreases v
  {
    match v
    case Obj(_) => {at}
    case Arr(xs) => set i, q | 0 <= i < |xs| && q in Frontier(xs[i], at + [i]) :: q
    case _ => {}
  }

  /** The objects the `$ref` of an object leads a walk into. */
  ghost function RefFrontier(root: Json, ms: seq<Member>): set<Path>
  {
    match Get(ms, "$ref")
    case Some(Str(ref)) =>
      (match Resolve(ref, root)
       case Resolved(q) => (match At(root, q) case Some(t) => Frontier(t, q) case None => {})
       case _ => {})
    case _ => {}
  }

  /** The objects the combinator `c` of an object (at `at`) leads a walk into. */
  ghost function CombFrontier(ms: seq<Member>, at: Path, c: string): set<Path>
  {
    match Find(ms, c)
    case Some(j) => if ms[j].value.Arr? then Frontier(ms[j].value, at + [j]) else {}
    case None => {}
  }

  /** The objects a walk of the object at `p` goes on to enter directly. */
  ghost function Succ(root: Json, p: Path): set<Path>
  {
    match At(root, p)
    case Some(Obj(ms)) =>
      RefFrontier(root, ms) + CombFrontier(ms, p, COMBINATORS[0])
      + CombFrontier(ms, p, COMBINATORS[1]) + CombFrontier(ms, p, COMBINATORS[2])
    case _ => {}
  }

  /** The `$ref` of an object leads nowhere: it is absent or not a string, it is not a
      same-document pointer, or its target is `null`. */
  ghost predicate SkipsRef(root: Json, ms: seq<Member>)
  {
    match Get(ms, "$ref")
    case Some(Str(ref)) =>
      (match Resolve(ref, root)
       case Foreign => true
       case Resolved(q) => At(root, q) == Some(Null)
       case Broken => false)
    case _ => true
  }

  /** The object at `p` has a same-document `$ref` with a missing segment. */
  ghost predicate BrokenAt(root: Json, p: Path)
  {
    match At(root, p)
    case Some(Obj(ms)) =>
      (match Get(ms, "$ref") case Some(Str(ref)) => Resolve(ref, root).Broken? case _ => false)
    case _ => false
  }

  ghost predicate Closed(root: Json, S: set<Path>)
  {
    forall q :: q in S ==> Succ(root, q) <= S
  }

  /** The depth-first invariant of the walk: every entered object whose walk is over (it is
      not on `stack`) has its successors entered, its declarations recorded, and no broken
      `$ref`. */
  ghost predicate Finished(root: Json, seen: set<Path>, stack: set<Path>, recorded: seq<Path>)
  {
    forall q :: q in seen && q !in stack ==> Succ(root, q) <= seen && q in recorded && !BrokenAt(root, q)
  }


  /** `ch` is a walk from one of `roots` along `Succ`. */
  ghost predicate IsChain(root: Json, roots: set<Path>, ch: seq<Path>)
  {
    && |ch| > 0
    && ch[0] in roots
    && forall i :: 0 <= i < |ch| - 1 ==> ch[i + 1] in Succ(root, ch[i])
  }

  ghost predicate Reachable(root: Json, roots: set<Path>, q: Path)
  {
    exists ch :: IsChain(root, roots, ch) && ch[|ch| - 1] == q
  }

  /** The objects reachable from `roots` through `$ref`s, combinators and arrays. */
  ghost function Reach(root: Json, roots: set<Path>): set<Path>
  {
    set q | q in ObjPaths(root) && Reachable(root, roots, q)
  }

  /** The object at `p` declares distribution `d`. */
  ghost predicate DeclaresDist(root: Json, p: Path, d: string)
  {
    At(root, p).Some? && d in DistNames(At(root, p).value)
  }

  /** The object at `p` declares distribution `d` with parameter `k`. */
  ghost predicate Declares(root: Json, p: Path, d: string, k: string)
  {
    DeclaresDist(root, p, d) && k in PropertyKeys(At(root, p).value) && k != EXCLUDED
  }

  ghost predicate DistIn(root: Json, N: set<Path>, d: string)
  {
    exists p :: p in N && DeclaresDist(root, p, d)
  }

  ghost predicate PairIn(root: Json, N: set<Path>, d: string, k: string)
  {
    exists p :: p in N && Declares(root, p, d, k)
  }

  /** `t'` is `t` plus exactly what the objects of `N` declare. */
  ghost predicate Tracks(root: Json, t: SlotTable, t': SlotTable, N: set<Path>)
  {
    && (forall d :: d in t' <==> d in t || DistIn(root, N, d))
    && (forall d, k :: Has(t', d, k) <==> Has(t, d, k) || PairIn(root, N, d, k))
  }

  ghost predicate BrokenIn(root: Json, N: set<Path>)
  {
    exists q :: q in N && BrokenAt(root, q)
  }

  /** `main` requires the document to be an object, and `definitions`, when present,
      to be an object as well (`.values()` is taken of it). */
  predicate WellFormed(root: Json)
  {
    root.Obj? && match Get(root.members, "definitions") case Some(defs) => defs.Obj? case None => true
  }

  /** The objects `main` walks first: the frontier of every value of `definitions`. */
  ghost function DefinitionRoots(root: Json): set<Path>
  {
    match root
    case Obj(ms) =>
      (match Find(ms, "definitions")
       case Some(j) =>
         (match ms[j].value
          case Obj(dms) => set i, q | 0 <= i < |dms| && q in Frontier(dms[i].value, [j, i]) :: q
          case _ => {})
       case None => {})
    case _ => {}
  }

  // ---------------------------------------------------------------------------
  // Lemmas about the specification

  lemma {:induction false} FrontierObjects(root: Json, v: Json, at: Path)
    requires At(root, at) == Some(v)
    ensures forall q :: q in Frontier(v, at) ==> IsObjAt(root, q)
    decreases v
  {
    if v.Arr? {
      forall i | 0 <= i < |v.items| ensures forall q :: q in Frontier(v.items[i], at + [i]) ==> IsObjAt(root, q) {
        AtAppend(root, at, i);
        FrontierObjects(root, v.items[i], at + [i]);
      }
    }
  }

  /** A walk only ever enters objects. */
  lemma SuccObjects(root: Json, p: Path)
    ensures forall q :: q in Succ(root, p) ==> IsObjAt(root, q)
  {
    match At(root, p)
    case Some(Obj(ms)) =>
      match Get(ms, "$ref") {
        case Some(Str(ref)) =>
          match Resolve(ref, root) {
            case Resolved(q) =>
              if At(root, q).Some? {
                FrontierObjects(root, At(root, q).value, q);
              }
            case _ =>
          }
        case _ =>
      }
      forall c | c in COMBINATORS ensures forall q :: q in CombFrontier(ms, p, c) ==> IsObjAt(root, q) {
        if Find(ms, c).Some? {
          var j := Find(ms, c).value;
          AtAppend(root, p, j);
          FrontierObjects(root, ms[j].value, p + [j]);
        }
      }
      assert COMBINATORS[0] in COMBINATORS && COMBINATORS[1] in COMBINATORS && COMBINATORS[2] in COMBINATORS;
    case _ =>
  }

  /** One step along `Succ` from a reachable object stays reachable. */
  lemma ReachStep(root: Json, roots: set<Path>, q: Path, q': Path)
    requires Reachable(root, roots, q) && q' in Succ(root, q)
    ensures q' in Reach(root, roots)
  {
    var ch :| IsChain(root, roots, ch) && ch[|ch| - 1] == q;
    ChainExtend(root, roots, ch, q');
    SuccObjects(root, q);
    ObjAtInObjPaths(root, q');
  }

  lemma ChainExtend(root: Json, roots: set<Path>, ch: seq<Path>, q': Path)
    requires IsChain(root, roots, ch) && q' in Succ(root, ch[|ch| - 1])
    ensures IsChain(root, roots, ch + [q'])
  {
    var ch' := ch + [q'];
    forall i | 0 <= i < |ch'| - 1 ensures ch'[i + 1] in Succ(root, ch'[i]) {
      if i < |ch| - 1 {
        assert ch'[i] == ch[i] && ch'[i + 1] == ch[i + 1];
      }
    }
  }

  /** The reachable objects contain the roots and are closed under `Succ`. */
  lemma ReachClosed(root: Json, roots: set<Path>)
    requires forall q :: q in roots ==> IsObjAt(root, q)
    ensures roots <= Reach(root, roots)
    ensures Closed(root, Reach(root, roots))
  {
    forall q | q in roots ensures q in Reach(root, roots) {
      assert IsChain(root, roots, [q]);
      ObjAtInObjPaths(root, q);
    }
    forall q, q' | q in Reach(root, roots) && q' in Succ(root, q) ensures q' in Reach(root, roots) {
      ReachStep(root, roots, q, q');
    }
  }

  lemma {:induction false} ChainInClosed(root: Json, roots: set<Path>, C: set<Path>, ch: seq<Path>)
    requires Closed(root, C) && roots <= C && IsChain(root, roots, ch)
    ensures ch[|ch| - 1] in C
    decreases |ch|
  {
    if |ch| > 1 {
      var init := ch[..|ch| - 1];
      assert IsChain(root, roots, init);
      ChainInClosed(root, roots, C, init);
    }
  }

  /** The reachable objects lie inside every closed set that contains the roots. */
  lemma ReachLeast(root: Json, roots: set<Path>, C: set<Path>)
    requires Closed(root, C) && roots <= C
    ensures Reach(root, roots) <= C
  {
    forall q | q in Reach(root, roots) ensures q in C {
      var ch :| IsChain(root, roots, ch) && ch[|ch| - 1] == q;
      ChainInClosed(root, roots, C, ch);
    }
  }

  lemma TracksCompose(root: Json, t0: SlotTable, t1: SlotTable, t2: SlotTable, N1: set<Path>, N2: set<Path>)
    requires Tracks(root, t0, t1, N1) && Tracks(root, t1, t2, N2)
    ensures Tracks(root, t0, t2, N1 + N2)
  {
    forall d ensures DistIn(root, N1 + N2, d) <==> DistIn(root, N1, d) || DistIn(root, N2, d) {
      if DistIn(root, N1 + N2, d) {
        var p :| p in N1 + N2 && DeclaresDist(root, p, d);
      }
    }
    forall d, k ensures PairIn(root, N1 + N2, d, k) <==> PairIn(root, N1, d, k) || PairIn(root, N2, d, k) {
      if PairIn(root, N1 + N2, d, k) {
        var p :| p in N1 + N2 && Declares(root, p, d, k);
      }
    }
  }

  lemma FrontierOfElement(xs: seq<Json>, at: Path, i: nat)
    requires i < |xs|
    ensures Frontier(xs[i], at + [i]) <= Frontier(Arr(xs), at)
  {
  }

  lemma FrontierOfArray(xs: seq<Json>, at: Path, S: set<Path>)
    requires forall i :: 0 <= i < |xs| ==> Frontier(xs[i], at + [i]) <= S
    ensures Frontier(Arr(xs), at) <= S
  {
  }

  lemma DefinitionRootsObjects(root: Json)
    ensures forall q :: q in DefinitionRoots(root) ==> IsObjAt(root, q)
  {
    if root.Obj? && Find(root.members, "definitions").Some? {
      var j := Find(root.members, "definitions").value;
      var defs := root.members[j].value;
      if defs.Obj? {
        forall i | 0 <= i < |defs.members|
          ensures forall q :: q in Frontier(defs.members[i].value, [j, i]) ==> IsObjAt(root, q)
        {
          AtAppend(root, [j], i);
          assert [j] + [i] == [j, i];
          FrontierObjects(root, defs.members[i].value, [j, i]);
        }
      }
    }
  }

  /** What one object declares, as a table change. */
  lemma TracksOne(root: Json, t: SlotTable, t': SlotTable, p: Path)
    requires At(root, p).Some?
    requires Recorded(t, t', DistNames(At(root, p).value), PropertyKeys(At(root, p).value))
    ensures Tracks(root, t, t', {p})
  {
    forall d ensures DistIn(root, {p}, d) <==> DeclaresDist(root, p, d) {
      if DistIn(root, {p}, d) {
        var p' :| p' in {p} && DeclaresDist(root, p', d);
      }
    }
    forall d, k ensures PairIn(root, {p}, d, k) <==> Declares(root, p, d, k) {
      if PairIn(root, {p}, d, k) {
        var p' :| p' in {p} && Declares(root, p', d, k);
      }
    }
  }



  /** The loop over an array keeps the elements walked so far covered. */
  lemma FrontiersGrow(xs: seq<Json>, at: Path, i: nat, S1: set<Path>, S2: set<Path>)
    requires i < |xs| && S1 <= S2 && Frontier(xs[i], at + [i]) <= S2
    requires forall j :: 0 <= j < i ==> Frontier(xs[j], at + [j]) <= S1
    ensures forall j :: 0 <= j < i + 1 ==> Frontier(xs[j], at + [j]) <= S2
  {
  }



  /** An object whose `$ref` and combinator frontiers are covered has all its successors covered. */
  lemma SuccCovered(root: Json, ms: seq<Member>, at: Path, S: set<Path>)
    requires At(root, at) == Some(Obj(ms))
    requires RefFrontier(root, ms) <= S
    requires forall n :: 0 <= n < |COMBINATORS| ==> CombFrontier(ms, at, COMBINATORS[n]) <= S
    ensures Succ(root, at) <= S
  {
    assert CombFrontier(ms, at, COMBINATORS[0]) <= S;
    assert CombFrontier(ms, at, COMBINATORS[1]) <= S;
    assert CombFrontier(ms, at, COMBINATORS[2]) <= S;
  }



  /** Entering `at` puts it on the stack. */
  lemma FinishedPush(root: Json, seen: set<Path>, stack: set<Path>, recorded: seq<Path>, at: Path)
    requires Finished(root, seen, stack, recorded)
    ensures Finished(root, seen + {at}, stack + {at}, recorded)
  {
  }

  /** Recording more objects keeps finished objects finished. */
  lemma FinishedRecord(root: Json, seen: set<Path>, stack: set<Path>, recorded: seq<Path>, recorded': seq<Path>)
    requires Finished(root, seen, stack, recorded) && recorded <= recorded'
    ensures Finished(root, seen, stack, recorded')
  {
    forall q | q in recorded ensures q in recorded' {
      var i :| 0 <= i < |recorded| && recorded[i] == q;
      assert recorded'[i] == q;
    }
  }

  /** Finishing the walk of `at` takes it off the stack. */
  lemma FinishedPop(root: Json, seen: set<Path>, stack: set<Path>, recorded: seq<Path>, at: Path)
    requires Finished(root, seen, stack + {at}, recorded)
    requires Succ(root, at) <= seen && at in recorded && !BrokenAt(root, at)
    ensures Finished(root, seen, stack, recorded)
  {
  }

  /** The declarations of the object at `p`, recorded into `t`. */
  ghost function Declare(root: Json, t: SlotTable, p: Path): SlotTable
  {
    match At(root, p)
    case Some(v) => RecordEach(t, DistNames(v), PropertyKeys(v))
    case None => t
  }

  /** The table after the objects `ps` recorded their declarations, in that order. */
  ghost function Fold(root: Json, t: SlotTable, ps: seq<Path>): SlotTable
    decreases |ps|
  {
    if ps == [] then t else Declare(root, Fold(root, t, ps[..|ps| - 1]), ps[|ps| - 1])
  }

  /** Recording one more object (found at `p`, holding `v`) extends the fold by its declarations. */
  lemma FoldSnoc(root: Json, t: SlotTable, ps: seq<Path>, p: Path, v: Json)
    requires At(root, p) == Some(v)
    ensures Fold(root, t, ps + [p]) == RecordEach(Fold(root, t, ps), DistNames(v), PropertyKeys(v))
  {
    assert (ps + [p])[..|ps|] == ps;
  }

  /** Recording the declarations of a sequence of objects keeps the table valid and never
      overwrites a slot. */
  lemma {:induction false} FoldValid(root: Json, t: SlotTable, ps: seq<Path>)
    requires ValidTable(t)
    ensures ValidTable(Fold(root, t, ps)) && Frozen(t, Fold(root, t, ps))
    decreases |ps|
  {
    if ps != [] {
      var t1 := Fold(root, t, ps[..|ps| - 1]);
      FoldValid(root, t, ps[..|ps| - 1]);
      match At(root, ps[|ps| - 1])
      case Some(v) =>
        RecordEachSpec(t1, DistNames(v), PropertyKeys(v));
        FrozenTransitive(t, t1, Fold(root, t, ps));
      case None =>
    }
  }

  /** Recording the declarations of a sequence of objects adds exactly what they declare. */
  lemma {:induction false} FoldTracks(root: Json, t: SlotTable, ps: seq<Path>)
    requires ValidTable(t)
    requires forall p :: p in ps ==> At(root, p).Some?
    ensures Tracks(root, t, Fold(root, t, ps), set p | p in ps)
    decreases |ps|
  {
    if ps == [] {
      assert (set p | p in ps) == {};
    } else {
      var init := ps[..|ps| - 1];
      var last := ps[|ps| - 1];
      assert ps == init + [last];
      assert forall p :: p in init ==> p in ps;
      FoldTracks(root, t, init);
      FoldValid(root, t, init);
      DeclareTracks(root, t, Fold(root, t, init), (set p | p in init), last);
      ElemsSnoc(ps, init, last);
    }
  }

  /** Recording the objects of `N`, in the order `ps`, yields a valid table of exactly what they declare. */
  lemma FoldOf(root: Json, ps: seq<Path>, N: set<Path>)
    requires (set p | p in ps) == N && forall p :: p in N ==> At(root, p).Some?
    ensures ValidTable(Fold(root, map[], ps)) && Tracks(root, map[], Fold(root, map[], ps), N)
  {
    assert forall p :: p in ps ==> p in N;
    FoldValid(root, map[], ps);
    FoldTracks(root, map[], ps);
  }

  lemma ElemsSnoc(ps: seq<Path>, init: seq<Path>, last: Path)
    requires ps == init + [last]
    ensures (set p | p in ps) == (set p | p in init) + {last}
  {
  }

  /** One more object recording its declarations adds what it declares. */
  lemma DeclareTracks(root: Json, t0: SlotTable, t: SlotTable, N: set<Path>, p: Path)
    requires ValidTable(t) && Tracks(root, t0, t, N) && At(root, p).Some?
    ensures Tracks(root, t0, Declare(root, t, p), N + {p})
  {
    var v := At(root, p).value;
    RecordEachSpec(t, DistNames(v), PropertyKeys(v));
    TracksOne(root, t, Declare(root, t, p), p);
    TracksCompose(root, t0, t, Declare(root, t, p), N, {p});
  }

  /** Two tables that start empty and track the same objects record the same pairs. */
  lemma TracksSame(root: Json, t1: SlotTable, t2: SlotTable, N: set<Path>)
    requires Tracks(root, map[], t1, N) && Tracks(root, map[], t2, N)
    ensures forall d :: d in t1 <==> d in t2
    ensures forall d, k :: Has(t1, d, k) <==> Has(t2, d, k)
  {
  }

  /** The loop over the combinators keeps the combinators walked so far covered. */
  lemma CombsGrow(ms: seq<Member>, at: Path, n: nat, S1: set<Path>, S2: set<Path>)
    requires n < |COMBINATORS| && S1 <= S2 && CombFrontier(ms, at, COMBINATORS[n]) <= S2
    requires forall n' :: 0 <= n' < n ==> CombFrontier(ms, at, COMBINATORS[n']) <= S1
    ensures forall n' :: 0 <= n' < n + 1 ==> CombFrontier(ms, at, COMBINATORS[n']) <= S2
  {
  }

  /** The loop of `main` over the definitions keeps the definitions walked so far covered. */
  lemma MemberFrontiersGrow(ms: seq<Member>, at: Path, i: nat, S1: set<Path>, S2: set<Path>)
    requires i < |ms| && S1 <= S2 && Frontier(ms[i].value, at + [i]) <= S2
    requires forall j :: 0 <= j < i ==> Frontier(ms[j].value, at + [j]) <= S1
    ensures forall j :: 0 <= j < i + 1 ==> Frontier(ms[j].value, at + [j]) <= S2
  {
  }

  lemma BrokenInMonotone(root: Json, A: set<Path>, B: set<Path>)
    requires A <= B && BrokenIn(root, A)
    ensures BrokenIn(root, B)
  {
  }

  /** The frontier of the `i`-th definition is among the roots. */
  lemma DefinitionRoot(root: Json, j: nat, i: nat)
    requires root.Obj? && Find(root.members, "definitions") == Some(j)
    requires root.members[j].value.Obj? && i < |root.members[j].value.members|
    ensures Frontier(root.members[j].value.members[i].value, [j] + [i]) <= DefinitionRoots(root)
  {
    assert [j] + [i] == [j, i];
  }

  /** Covering the frontier of every definition covers the roots. */
  lemma DefinitionRootsCovered(root: Json, j: nat, S: set<Path>)
    requires root.Obj? && Find(root.members, "definitions") == Some(j) && root.members[j].value.Obj?
    requires forall i :: 0 <= i < |root.members[j].value.members| ==>
               Frontier(root.members[j].value.members[i].value, [j] + [i]) <= S
    ensures DefinitionRoots(root) <= S
  {
    var dms := root.members[j].value.members;
    forall q | q in DefinitionRoots(root) ensures q in S {
      var i :| 0 <= i < |dms| && q in Frontier(dms[i].value, [j, i]);
      assert [j] + [i] == [j, i];
    }
  }

  /** A finished walk from the roots that stayed among the reachable objects entered and
      recorded exactly the reachable objects; then the table is what they declare. */
  lemma WalkComplete(root: Json, roots: set<Path>, seen: set<Path>, recorded: seq<Path>)
    requires roots <= seen <= Reach(root, roots)
    requires Finished(root, seen, {}, recorded) && forall q :: q in recorded ==> q in seen
    ensures seen == Reach(root, roots) && (set q | q in recorded) == seen
    ensures !BrokenIn(root, seen)
    ensures ValidTable(Fold(root, map[], recorded))
    ensures Tracks(root, map[], Fold(root, map[], recorded), seen)
  {
    assert Closed(root, seen);
    ReachLeast(root, roots, seen);
    RecordedObjects(root, seen, recorded);
    FoldValid(root, map[], recorded);
    FoldTracks(root, map[], recorded);
  }

  lemma RecordedObjects(root: Json, seen: set<Path>, recorded: seq<Path>)
    requires seen <= ObjPaths(root)
    requires Finished(root, seen, {}, recorded) && forall q :: q in recorded ==> q in seen
    ensures (set q | q in recorded) == seen
    ensures forall p :: p in recorded ==> At(root, p).Some?
  {
    forall p | p in recorded ensures At(root, p).Some? {
      ObjPathsHoldObjects(root, p);
    }
  }

  /** The frontiers an object leads to lie inside every closed set containing it. */
  lemma SuccInClosed(root: Json, ms: seq<Member>, at: Path, S: set<Path>)
    requires At(root, at) == Some(Obj(ms)) && Closed(root, S) && at in S
    ensures RefFrontier(root, ms) <= S
    ensures forall n :: 0 <= n < |COMBINATORS| ==> CombFrontier(ms, at, COMBINATORS[n]) <= S
  {
    var r, c0, c1, c2 := RefFrontier(root, ms), CombFrontier(ms, at, COMBINATORS[0]),
      CombFrontier(ms, at, COMBINATORS[1]), CombFrontier(ms, at, COMBINATORS[2]);
    assert Succ(root, at) == r + c0 + c1 + c2;
    assert r + c0 + c1 + c2 <= S;
    forall n | 0 <= n < |COMBINATORS|
      ensures CombFrontier(ms, at, COMBINATORS[n]) <= S
    {
      if n == 0 { assert c0 <= S; } else if n == 1 { assert c1 <= S; } else { assert c2 <= S; }
    }
  }
}
