/** Parsed JSON documents, positions inside them, and navigation by position. */
module Json {

  datatype Option<+T> = None | Some(value: T)

  /** One `"key": value` member of a JSON object, in document order. */
  datatype Member = Member(key: string, value: Json)

  /** A parsed JSON value. Numbers and booleans play no part in the walker and are `Other`. */
  datatype Json =
    | Obj(members: seq<Member>)
    | Arr(items: seq<Json>)
    | Str(s: string)
    | Null
    | Other

  /** A position in a document: the child index taken at each level (member index
      inside an object, element index inside an array). In a freshly parsed document
      every position holds its own object, so a path identifies an object. */
  type Path = seq<nat>

  /** Index of the first member named `key`: the lookup `d[key]` / `d.get(key)`. */
  function Find(ms: seq<Member>, key: string): (r: Option<nat>)
    ensures r.Some? ==> r.value < |ms| && ms[r.value].key == key
    ensures r.Some? ==> forall i :: 0 <= i < r.value ==> ms[i].key != key
    ensures r.None? <==> forall i :: 0 <= i < |ms| ==> ms[i].key != key
  {
    if ms == [] then None
    else if ms[0].key == key then Some(0)
    else match Find(ms[1..], key)
      case Some(i) => Some(i + 1)
      case None => None
  }

  /** `d.get(key)`: the value of the first member named `key`, if any. */
  function Get(ms: seq<Member>, key: string): (r: Option<Json>)
    ensures r.Some? <==> exists i :: 0 <= i < |ms| && ms[i].key == key
    ensures r.Some? ==> r.value == ms[Find(ms, key).value].value
  {
    match Find(ms, key)
    case Some(i) => Some(ms[i].value)
    case None => None
  }

  /** The keys of an object's members, in document order: `list(d.keys())`. */
  function Keys(ms: seq<Member>): (r: seq<string>)
    ensures |r| == |ms|
    ensures forall k :: k in r <==> Find(ms, k).Some?
  {
    if ms == [] then [] else [ms[0].key] + Keys(ms[1..])
  }

  /** The `i`-th child of a value: a member value of an object or an element of an array. */
  function Child(v: Json, i: nat): Option<Json>
  {
    match v
    case Obj(ms) => if i < |ms| then Some(ms[i].value) else None
    case Arr(xs) => if i < |xs| then Some(xs[i]) else None
    case _ => None
  }

  /** The value at position `p` below `v`, or `None` when `p` leaves the document. */
  function At(v: Json, p: Path): Option<Json>
    decreases |p|
  {
    if p == [] then Some(v)
    else match Child(v, p[0])
      case Some(c) => At(c, p[1..])
      case None => None
  }

  /** Every position below `v` that holds an object. */
  ghost function ObjPaths(v: Json): set<Path>
    decreases v
  {
    match v
    case Obj(ms) => {[]} + (set i, p | 0 <= i < |ms| && p in ObjPaths(ms[i].value) :: [i] + p)
    case Arr(xs) => set i, p | 0 <= i < |xs| && p in ObjPaths(xs[i]) :: [i] + p
    case _ => {}
  }

  /** Stepping to child `i` of the value at `p` is the same as looking up `p + [i]`. */
  lemma {:induction false} AtAppend(v: Json, p: Path, i: nat)
    ensures At(v, p + [i]) == (match At(v, p) case Some(u) => Child(u, i) case None => None)
    decreases |p|
  {
    if p == [] {
      assert p + [i] == [i];
      assert [i][1..] == [];
    } else {
      assert (p + [i])[0] == p[0];
      assert (p + [i])[1..] == p[1..] + [i];
      match Child(v, p[0])
      case Some(c) => AtAppend(c, p[1..], i);
      case None =>
    }
  }

  /** Every position that holds an object is among the object positions. */
  lemma {:induction false} ObjAtInObjPaths(v: Json, p: Path)
    requires At(v, p).Some? && At(v, p).value.Obj?
    ensures p in ObjPaths(v)
    decreases |p|
  {
    if p != [] {
      var c := Child(v, p[0]).value;
      ObjAtInObjPaths(c, p[1..]);
      assert p == [p[0]] + p[1..];
    }
  }

  /** Conversely, every object position holds an object. */
  lemma {:induction false} ObjPathsHoldObjects(v: Json, p: Path)
    requires p in ObjPaths(v)
    ensures At(v, p).Some? && At(v, p).value.Obj?
    decreases v
  {
    match v
    case Obj(ms) =>
      if p != [] {
        var i, p' :| 0 <= i < |ms| && p' in ObjPaths(ms[i].value) && p == [i] + p';
        assert p[0] == i && p[1..] == p';
        ObjPathsHoldObjects(ms[i].value, p');
      }
    case Arr(xs) =>
      var i, p' :| 0 <= i < |xs| && p' in ObjPaths(xs[i]) && p == [i] + p';
      assert p[0] == i && p[1..] == p';
      ObjPathsHoldObjects(xs[i], p');
  }
}
