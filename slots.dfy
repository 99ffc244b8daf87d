/** Per-distribution slot maps and `record_properties`, which fills them. */
module Slots {
  /** Sort priority of well-known parameter names; lower sorts first. The source's
      dictionary, as its list of entries. */
  const ORDER_HINTS: seq<(string, int)> := [
    ("a", 0), ("b", 1),
    ("min", 0), ("max", 1),
    ("mu", 0), ("sigma", 1),
    ("q", 2),
    ("value", 0), ("values", 0), ("probabilities", 1)
  ]

  /** Priority of a parameter name without a hint. */
  const DEFAULT_PRIORITY: int := 5

  /** The property that names the distribution itself; it is never a parameter. */
  const EXCLUDED: string := "distribution"

  /** `table.get(key, default)` on a dictionary given as its entries. */
  function Lookup(table: seq<(string, int)>, key: string, default: int): int
  {
    if table == [] then default
    else if table[0].0 == key then table[0].1
    else Lookup(table[1..], key, default)
  }

  predicate Hinted(key: string)
  {
    exists i :: 0 <= i < |ORDER_HINTS| && ORDER_HINTS[i].0 == key
  }

  /** `ORDER_HINTS.get(key, 5)`. */
  function Hint(key: string): int
  {
    Lookup(ORDER_HINTS, key, DEFAULT_PRIORITY)
  }

  lemma {:induction false} LookupBelowDefault(table: seq<(string, int)>, key: string, default: int)
    requires forall i :: 0 <= i < |table| ==> table[i].1 < default
    ensures (exists i :: 0 <= i < |table| && table[i].0 == key) <==> Lookup(table, key, default) < default
    ensures Lookup(table, key, default) <= default
  {
    if table != [] && table[0].0 != key {
      LookupBelowDefault(table[1..], key, default);
      if exists i :: 0 <= i < |table| && table[i].0 == key {
        var i :| 0 <= i < |table| && table[i].0 == key;
        assert table[1..][i - 1].0 == key;
      }
    }
  }

  /** Every hinted name sorts before every unhinted one, which all share the default. */
  lemma HintedSortFirst(key: string)
    ensures Hinted(key) <==> Hint(key) < DEFAULT_PRIORITY
    ensures !Hinted(key) ==> Hint(key) == DEFAULT_PRIORITY
  {
    LookupBelowDefault(ORDER_HINTS, key, DEFAULT_PRIORITY);
  }

  /** `(priority, insertion index)` of one recorded parameter. */
  datatype Slot = Slot(priority: int, index: nat)

  /** One distribution's parameters: name to slot. */
  type SlotMap = map<string, Slot>

  /** The whole accumulator: distribution name to its slot map. */
  type SlotTable = map<string, SlotMap>

  /** What every slot map of the run satisfies: no `"distribution"` entry, each priority
      taken from the hint table, and insertion indices distinct and below the size. */
  ghost predicate ValidSlots(s: SlotMap)
  {
    && EXCLUDED !in s
    && (forall k :: k in s ==> s[k].priority == Hint(k) && s[k].index < |s|)
    && (forall k1, k2 :: k1 in s && k2 in s && k1 != k2 ==> s[k1].index != s[k2].index)
  }

  ghost predicate ValidTable(t: SlotTable)
  {
    forall d :: d in t ==> ValidSlots(t[d])
  }

  /** One turn of the loop of `record_properties`. */
  function Insert(s: SlotMap, key: string): SlotMap
  {
    if key == EXCLUDED || key in s then s else s[key := Slot(Hint(key), |s|)]
  }

  /** The loop of `record_properties` over `keys`, in order. */
  function RecordAll(s: SlotMap, keys: seq<string>): SlotMap
    decreases |keys|
  {
    if keys == [] then s else Insert(RecordAll(s, keys[..|keys| - 1]), keys[|keys| - 1])
  }

  /** `record_properties(mapping, dist, keys)`, with the slot map `mapping[dist]` created
      empty when absent as `collections.defaultdict(dict)` does. */
  function Record(t: SlotTable, dist: string, keys: seq<string>): SlotTable
  {
    t[dist := RecordAll(if dist in t then t[dist] else map[], keys)]
  }

  /** Recording adds exactly the keys other than `"distribution"`. */
  lemma {:induction false} RecordAllKeys(s: SlotMap, keys: seq<string>)
    ensures forall k :: k in RecordAll(s, keys) <==> k in s || (k in keys && k != EXCLUDED)
    decreases |keys|
  {
    if keys != [] {
      RecordAllKeys(s, keys[..|keys| - 1]);
      assert keys == keys[..|keys| - 1] + [keys[|keys| - 1]];
    }
  }

  /** Recording never overwrites: a recorded slot keeps its priority and index. */
  lemma {:induction false} RecordAllFrozen(s: SlotMap, keys: seq<string>)
    ensures forall k :: k in s ==> k in RecordAll(s, keys) && RecordAll(s, keys)[k] == s[k]
    decreases |keys|
  {
    if keys != [] {
      RecordAllFrozen(s, keys[..|keys| - 1]);
    }
  }

  /** Recording keeps a slot map valid: each new key gets the next free index. */
  lemma {:induction false} RecordAllValid(s: SlotMap, keys: seq<string>)
    requires ValidSlots(s)
    ensures ValidSlots(RecordAll(s, keys))
    decreases |keys|
  {
    if keys != [] {
      RecordAllValid(s, keys[..|keys| - 1]);
    }
  }

  /** Recording the same keys twice changes nothing the second time. */
  lemma {:induction false} RecordAllIdempotent(s: SlotMap, keys: seq<string>)
    ensures RecordAll(RecordAll(s, keys), keys) == RecordAll(s, keys)
  {
    var r := RecordAll(s, keys);
    RecordAllKeys(s, keys);
    NoNewKeys(r, keys);
  }

  lemma {:induction false} NoNewKeys(s: SlotMap, keys: seq<string>)
    requires forall k :: k in keys && k != EXCLUDED ==> k in s
    ensures RecordAll(s, keys) == s
    decreases |keys|
  {
    if keys != [] {
      NoNewKeys(s, keys[..|keys| - 1]);
    }
  }

  /** What `record_properties` promises about the table's shape: the slot map of `dist`
      exists afterwards (even when no key was added), the other slot maps are untouched,
      and the recorded slots of `dist` keep their values. */
  lemma RecordShape(t: SlotTable, dist: string, keys: seq<string>)
    ensures dist in Record(t, dist, keys)
    ensures forall d :: d in Record(t, dist, keys) <==> d in t || d == dist
    ensures forall d :: d in t && d != dist ==> Record(t, dist, keys)[d] == t[d]
    ensures dist in t ==> forall k :: k in t[dist] ==>
              k in Record(t, dist, keys)[dist] && Record(t, dist, keys)[dist][k] == t[dist][k]
  {
    if dist in t {
      RecordAllFrozen(t[dist], keys);
    }
  }

  /** `record_properties` keeps every slot map valid. */
  lemma RecordValid(t: SlotTable, dist: string, keys: seq<string>)
    requires ValidTable(t)
    ensures ValidTable(Record(t, dist, keys))
  {
    var s: SlotMap := if dist in t then t[dist] else map[];
    assert ValidSlots(s);
    RecordAllValid(s, keys);
  }

  /** `(dist, k)` is recorded in the table. */
  predicate Has(t: SlotTable, dist: string, k: string)
  {
    dist in t && k in t[dist]
  }

  /** `record_properties` adds exactly the pairs `(dist, k)` for the keys `k` other than
      `"distribution"`. */
  lemma RecordHas(t: SlotTable, dist: string, keys: seq<string>)
    ensures forall d, k :: Has(Record(t, dist, keys), d, k) <==>
              Has(t, d, k) || (d == dist && k in keys && k != EXCLUDED)
  {
    var s: SlotMap := if dist in t then t[dist] else map[];
    RecordAllKeys(s, keys);
  }

  /** Every slot already recorded in `t` is still in `t'`, unchanged. */
  ghost predicate Frozen(t: SlotTable, t': SlotTable)
  {
    forall d :: d in t ==> d in t' && forall k :: k in t[d] ==> k in t'[d] && t'[d][k] == t[d][k]
  }

  lemma FrozenTransitive(t0: SlotTable, t1: SlotTable, t2: SlotTable)
    requires Frozen(t0, t1) && Frozen(t1, t2)
    ensures Frozen(t0, t2)
  {
  }

  /** `t` is `t0` after recording `keys` under each of `names`. */
  ghost predicate Recorded(t0: SlotTable, t: SlotTable, names: seq<string>, keys: seq<string>)
  {
    && (forall d :: d in t <==> d in t0 || d in names)
    && (forall d, k :: Has(t, d, k) <==> Has(t0, d, k) || (d in names && k in keys && k != EXCLUDED))
  }

  /** `for dist in distributions: record_properties(mapping, dist, keys)`. */
  function RecordEach(t: SlotTable, names: seq<string>, keys: seq<string>): SlotTable
    decreases |names|
  {
    if names == [] then t
    else Record(RecordEach(t, names[..|names| - 1], keys), names[|names| - 1], keys)
  }

  /** Recording `keys` under each of `names` keeps the table valid, never overwrites a
      slot, and adds exactly the distributions `names` and the pairs of `names` with the
      keys other than `"distribution"`. */
  lemma {:induction false} RecordEachSpec(t: SlotTable, names: seq<string>, keys: seq<string>)
    requires ValidTable(t)
    ensures ValidTable(RecordEach(t, names, keys))
    ensures Frozen(t, RecordEach(t, names, keys))
    ensures Recorded(t, RecordEach(t, names, keys), names, keys)
    decreases |names|
  {
    if names != [] {
      var init := names[..|names| - 1];
      var dist := names[|names| - 1];
      var t1 := RecordEach(t, init, keys);
      RecordEachSpec(t, init, keys);
      RecordStep(t, t1, init, dist, keys);
      assert names == init + [dist];
    }
  }

  lemma RecordStep(t0: SlotTable, t: SlotTable, names: seq<string>, dist: string, keys: seq<string>)
    requires ValidTable(t) && Frozen(t0, t) && Recorded(t0, t, names, keys)
    ensures ValidTable(Record(t, dist, keys)) && Frozen(t0, Record(t, dist, keys))
    ensures Recorded(t0, Record(t, dist, keys), names + [dist], keys)
  {
    RecordShape(t, dist, keys);
    RecordValid(t, dist, keys);
    RecordHas(t, dist, keys);
  }
}
