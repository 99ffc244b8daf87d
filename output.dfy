/** `sorted_keys` and the table the generator prints. */
module Output {
  import opened Order
  import opened Slots

  /** The sort key of a recorded parameter: its priority (the index is not used). */
  function Rank(s: SlotMap): string -> int
  {
    k => if k in s then s[k].priority else DEFAULT_PRIORITY
  }

  /** `sorted_keys(raw)`: the parameter names of one distribution, ordered by
      `(priority, name)`. */
  function SortedKeys(s: SlotMap): seq<string>
  {
    SortedBy(s.Keys, Rank(s))
  }

  /** `sorted_keys` lists every recorded name exactly once, ascending by priority and,
      among equal priorities, alphabetically. */
  lemma SortedKeysSpec(s: SlotMap)
    ensures |SortedKeys(s)| == |s| && forall k :: k in SortedKeys(s) <==> k in s
    ensures forall i, j :: 0 <= i < j < |SortedKeys(s)| ==> SortedKeys(s)[i] != SortedKeys(s)[j]
    ensures forall i, j :: 0 <= i < j < |SortedKeys(s)| ==>
              var a, b := SortedKeys(s)[i], SortedKeys(s)[j];
              s[a].priority < s[b].priority || (s[a].priority == s[b].priority && LexLess(a, b))
  {
    var r := SortedKeys(s);
    forall i, j | 0 <= i < j < |r| ensures r[i] != r[j] {
      BeforeIrreflexive(Rank(s), r[i]);
    }
  }

  /** The insertion index plays no part in the order: slot maps with the same names
      and priorities sort the same, so equal-priority names come out alphabetically
      whatever order they were discovered in. */
  lemma SortedKeysIgnoresIndex(s1: SlotMap, s2: SlotMap)
    requires s1.Keys == s2.Keys
    requires forall k :: k in s1 ==> s1[k].priority == s2[k].priority
    ensures SortedKeys(s1) == SortedKeys(s2)
  {
    SortedByRanksOnly(s1.Keys, Rank(s1), Rank(s2));
  }

  function NoRank(name: string): int
  {
    0
  }

  /** `sorted(mapping)`: distribution names in Python's string order. */
  function SortedNames(names: set<string>): (r: seq<string>)
    ensures |r| == |names| && forall x :: x in r <==> x in names
    ensures forall i, j :: 0 <= i < j < |r| ==> LexLess(r[i], r[j])
  {
    SortedBy(names, NoRank)
  }

  /** The printed table: distributions in name order, each with its sorted parameters. */
  function Render(t: SlotTable): seq<(string, seq<string>)>
  {
    var names := SortedNames(t.Keys);
    seq(|names|, i requires 0 <= i < |names| => (names[i], SortedKeys(t[names[i]])))
  }

  /** Each printed line is one recorded distribution with its own sorted parameters,
      and the lines are in strictly ascending name order. */
  lemma RenderOrdered(t: SlotTable)
    ensures forall i :: 0 <= i < |Render(t)| ==>
              Render(t)[i].0 in t && Render(t)[i].1 == SortedKeys(t[Render(t)[i].0])
    ensures forall i, j :: 0 <= i < j < |Render(t)| ==> LexLess(Render(t)[i].0, Render(t)[j].0)
  {
  }

  /** No printed parameter list names `"distribution"` or repeats a name. */
  lemma RenderParameters(t: SlotTable)
    requires ValidTable(t)
    ensures forall i :: 0 <= i < |Render(t)| ==> EXCLUDED !in Render(t)[i].1
    ensures forall i :: 0 <= i < |Render(t)| ==>
              forall a, b :: 0 <= a < b < |Render(t)[i].1| ==> Render(t)[i].1[a] != Render(t)[i].1[b]
  {
    var r := Render(t);
    forall i | 0 <= i < |r|
      ensures EXCLUDED !in r[i].1
      ensures forall a, b :: 0 <= a < b < |r[i].1| ==> r[i].1[a] != r[i].1[b]
    {
      var d := r[i].0;
      assert ValidSlots(t[d]);
      SortedKeysSpec(t[d]);
    }
  }

  /** Every recorded distribution is printed, exactly once. */
  lemma RenderComplete(t: SlotTable)
    ensures |Render(t)| == |t|
    ensures forall d :: d in t ==> exists i :: 0 <= i < |Render(t)| && Render(t)[i].0 == d
  {
    var names, r := SortedNames(t.Keys), Render(t);
    assert |names| == |t.Keys| == |t|;
    forall d | d in t ensures exists i :: 0 <= i < |r| && r[i].0 == d {
      var i :| 0 <= i < |names| && names[i] == d;
      assert r[i].0 == d;
    }
  }

  /** A distribution with the same recorded names in two valid tables sorts the same. */
  lemma SameNamesSortSame(t1: SlotTable, t2: SlotTable, d: string)
    requires ValidTable(t1) && ValidTable(t2) && d in t1 && d in t2
    requires forall k :: Has(t1, d, k) <==> Has(t2, d, k)
    ensures SortedKeys(t1[d]) == SortedKeys(t2[d])
  {
    var s1, s2 := t1[d], t2[d];
    assert s1.Keys == s2.Keys by {
      forall k ensures k in s1 <==> k in s2 {
        assert Has(t1, d, k) <==> Has(t2, d, k);
      }
    }
    assert ValidSlots(s1) && ValidSlots(s2);
    forall k | k in s1 ensures s1[k].priority == s2[k].priority {
      assert s1[k].priority == Hint(k) == s2[k].priority;
    }
    SortedKeysIgnoresIndex(s1, s2);
  }

  /** The printed table depends only on which parameters each distribution has, not
      on the insertion indices: two valid tables recording the same pairs print the same. */
  lemma RenderDependsOnPairsOnly(t1: SlotTable, t2: SlotTable)
    requires ValidTable(t1) && ValidTable(t2)
    requires forall d :: d in t1 <==> d in t2
    requires forall d, k :: Has(t1, d, k) <==> Has(t2, d, k)
    ensures Render(t1) == Render(t2)
  {
    assert t1.Keys == t2.Keys;
    var names := SortedNames(t1.Keys);
    var r1, r2 := Render(t1), Render(t2);
    assert |r1| == |names| == |r2|;
    forall i | 0 <= i < |names| ensures r1[i] == r2[i] {
      SameNamesSortSame(t1, t2, names[i]);
      assert r1[i] == (names[i], SortedKeys(t1[names[i]]));
      assert r2[i] == (names[i], SortedKeys(t2[names[i]]));
    }
  }
}
