/** The tag statistics of `/api/tags`: a dict counting tag occurrences,
    whose items are then sorted by count, largest first, with Python's stable
    `sorted(..., key=count, reverse=True)`. */
module TagCounts {
  import opened Seqs

  /** One `(tag, count)` item of the counting dict. */
  datatype TagCount = TagCount(name: string, count: nat)

  function Names(cs: seq<TagCount>): (ns: seq<string>)
    ensures |ns| == |cs|
    ensures forall i :: 0 <= i < |cs| ==> ns[i] == cs[i].name
    decreases |cs|
  {
    if |cs| == 0 then [] else [cs[0].name] + Names(cs[1..])
  }

  /** `tag_counts[tag] = tag_counts.get(tag, 0) + 1` on the dict's items in
      insertion order: the entry for `tag` goes up by one, or a new entry
      with count 1 is added at the end. */
  function Tally(cs: seq<TagCount>, tag: string): (r: seq<TagCount>)
    requires NoDuplicates(Names(cs))
    ensures Names(r) == if tag in Names(cs) then Names(cs) else Names(cs) + [tag]
    ensures forall i :: 0 <= i < |r| ==>
      r[i].count == (if i < |cs| then cs[i].count else 0) + (if r[i].name == tag then 1 else 0)
  {
    if tag in Names(cs) then
      var k := FirstIndex(Names(cs), tag);
      var r := cs[k := cs[k].(count := cs[k].count + 1)];
      assert Names(r) == Names(cs);
      r
    else
      var r := cs + [TagCount(tag, 1)];
      assert Names(r) == Names(cs) + [tag];
      r
  }

  /** The counting loop over every tag occurrence: one entry per distinct
      tag, in order of first appearance, holding its number of occurrences. */
  function CountTags(tags: seq<string>): (r: seq<TagCount>)
    ensures Names(r) == Dedup(tags)
    ensures NoDuplicates(Names(r))
    ensures forall i :: 0 <= i < |r| ==> r[i].count == multiset(tags)[r[i].name]
    decreases |tags|
  {
    if |tags| == 0 then []
    else
      var init := tags[..|tags| - 1];
      var last := tags[|tags| - 1];
      assert tags == init + [last];
      Tally(CountTags(init), last)
  }

  /** Every entry of the counting dict holds the number of occurrences of
      its tag. */
  lemma CountTagsCounts(tags: seq<string>)
    ensures forall x :: x in CountTags(tags) ==> x.count == multiset(tags)[x.name]
  {
    var r := CountTags(tags);
    forall x | x in r ensures x.count == multiset(tags)[x.name] {
      var i :| 0 <= i < |r| && r[i] == x;
    }
  }

  /** No item precedes one with a larger count. */
  predicate SortedByCount(cs: seq<TagCount>) {
    forall i, j :: 0 <= i < j < |cs| ==> cs[i].count >= cs[j].count
  }

  /** The items with count `k`, in their order in `cs`. */
  function WithCount(cs: seq<TagCount>, k: nat): seq<TagCount>
    decreases |cs|
  {
    if |cs| == 0 then []
    else (if cs[0].count == k then [cs[0]] else []) + WithCount(cs[1..], k)
  }

  /** Places `e` before the first item whose count does not exceed its own:
      in front of every item with an equal count. */
  function Insert(e: TagCount, cs: seq<TagCount>): (r: seq<TagCount>)
    ensures |r| == |cs| + 1
    ensures forall x :: x in r <==> x == e || x in cs
    decreases |cs|
  {
    if |cs| == 0 then [e]
    else if e.count >= cs[0].count then [e] + cs
    else
      assert cs == [cs[0]] + cs[1..];
      [cs[0]] + Insert(e, cs[1..])
  }

  lemma {:induction false} InsertPermutes(e: TagCount, cs: seq<TagCount>)
    ensures multiset(Insert(e, cs)) == multiset(cs) + multiset{e}
    decreases |cs|
  {
    if |cs| > 0 && e.count < cs[0].count {
      InsertPermutes(e, cs[1..]);
      assert cs == [cs[0]] + cs[1..];
    }
  }

  lemma {:induction false} InsertSorted(e: TagCount, cs: seq<TagCount>)
    requires SortedByCount(cs)
    ensures SortedByCount(Insert(e, cs))
    decreases |cs|
  {
    if |cs| > 0 && e.count < cs[0].count {
      var rest := Insert(e, cs[1..]);
      InsertSorted(e, cs[1..]);
      assert forall x :: x in cs[1..] ==> cs[0].count >= x.count;
      assert forall j :: 0 <= j < |rest| ==> rest[j] in rest;
    }
  }

  /** Inserting `e` keeps the order among the items of any one count and puts
      `e` first among the items of its own count. */
  lemma {:induction false} InsertWithCount(e: TagCount, cs: seq<TagCount>, k: nat)
    ensures WithCount(Insert(e, cs), k) == if e.count == k then [e] + WithCount(cs, k) else WithCount(cs, k)
    decreases |cs|
  {
    if |cs| == 0 {
    } else if e.count >= cs[0].count {
      assert ([e] + cs)[1..] == cs;
    } else {
      var rest := Insert(e, cs[1..]);
      InsertWithCount(e, cs[1..], k);
      assert ([cs[0]] + rest)[1..] == rest;
    }
  }

  /** A name occurs in `Names(cs)` exactly when some item carries it. */
  lemma NamesMembership(n: string, cs: seq<TagCount>)
    ensures n in Names(cs) <==> exists x :: x in cs && x.name == n
  {
    if n in Names(cs) {
      var i :| 0 <= i < |cs| && Names(cs)[i] == n;
      assert cs[i] in cs;
    }
  }

  /** An item may head a list with distinct names exactly when its name is
      not among the list's. */
  lemma NamesDistinctCons(h: TagCount, rest: seq<TagCount>)
    ensures NoDuplicates(Names([h] + rest)) <==>
      NoDuplicates(Names(rest)) && forall x :: x in rest ==> x.name != h.name
  {
    assert Names([h] + rest) == [h.name] + Names(rest) by {
      assert ([h] + rest)[1..] == rest;
    }
    NoDuplicatesCons(h.name, Names(rest));
    NamesMembership(h.name, rest);
  }

  lemma {:induction false} InsertKeepsNamesDistinct(e: TagCount, cs: seq<TagCount>)
    requires NoDuplicates(Names(cs))
    requires forall x :: x in cs ==> x.name != e.name
    ensures NoDuplicates(Names(Insert(e, cs)))
    decreases |cs|
  {
    if |cs| == 0 {
      NamesDistinctCons(e, []);
    } else if e.count >= cs[0].count {
      NamesDistinctCons(e, cs);
    } else {
      var tail := cs[1..];
      assert cs == [cs[0]] + tail;
      NamesDistinctCons(cs[0], tail);
      InsertKeepsNamesDistinct(e, tail);
      var rest := Insert(e, tail);
      assert forall x :: x in rest ==> x.name != cs[0].name by {
        assert cs[0] in cs;
      }
      NamesDistinctCons(cs[0], rest);
    }
  }

  /** `sorted(items, key=count, reverse=True)` as an insertion sort. */
  function SortByCount(cs: seq<TagCount>): (r: seq<TagCount>)
    ensures |r| == |cs|
    ensures forall x :: x in r <==> x in cs
    decreases |cs|
  {
    if |cs| == 0 then []
    else
      assert cs == [cs[0]] + cs[1..];
      Insert(cs[0], SortByCount(cs[1..]))
  }

  /** The sort yields the same items. */
  lemma {:induction false} SortPermutes(cs: seq<TagCount>)
    ensures multiset(SortByCount(cs)) == multiset(cs)
    decreases |cs|
  {
    if |cs| > 0 {
      var t := cs[1..];
      var st := SortByCount(t);
      SortPermutes(t);
      InsertPermutes(cs[0], st);
      assert SortByCount(cs) == Insert(cs[0], st);
      assert cs == [cs[0]] + t;
      assert multiset(cs) == multiset(t) + multiset{cs[0]};
    }
  }

  /** The sort puts the largest count first. */
  lemma {:induction false} SortSorted(cs: seq<TagCount>)
    ensures SortedByCount(SortByCount(cs))
    decreases |cs|
  {
    if |cs| > 0 {
      SortSorted(cs[1..]);
      InsertSorted(cs[0], SortByCount(cs[1..]));
    }
  }

  /** The sort is stable: the items of any one count keep their relative order. */
  lemma {:induction false} SortStable(cs: seq<TagCount>, k: nat)
    ensures WithCount(SortByCount(cs), k) == WithCount(cs, k)
    decreases |cs|
  {
    if |cs| > 0 {
      SortStable(cs[1..], k);
      InsertWithCount(cs[0], SortByCount(cs[1..]), k);
    }
  }

  lemma {:induction false} SortKeepsNamesDistinct(cs: seq<TagCount>)
    requires NoDuplicates(Names(cs))
    ensures NoDuplicates(Names(SortByCount(cs)))
    decreases |cs|
  {
    if |cs| > 0 {
      var t := cs[1..];
      assert cs == [cs[0]] + t;
      NamesDistinctCons(cs[0], t);
      SortKeepsNamesDistinct(t);
      InsertKeepsNamesDistinct(cs[0], SortByCount(t));
    }
  }

  /** The sort keeps the order within every count. */
  lemma SortStableAll(cs: seq<TagCount>)
    ensures forall k: nat :: WithCount(SortByCount(cs), k) == WithCount(cs, k)
  {
    forall k: nat ensures WithCount(SortByCount(cs), k) == WithCount(cs, k) {
      SortStable(cs, k);
    }
  }

  /** The sort keeps the set of names. */
  lemma SortKeepsNames(cs: seq<TagCount>)
    ensures forall n :: n in Names(SortByCount(cs)) <==> n in Names(cs)
  {
    forall n ensures n in Names(SortByCount(cs)) <==> n in Names(cs) {
      NamesMembership(n, cs);
      NamesMembership(n, SortByCount(cs));
    }
  }

  /** The `/api/tags` ordering on a small case: a tag seen twice goes first,
      and two tags seen once each keep the order in which they were counted. */
  lemma SortByCountExample(x: string, y: string, z: string)
    ensures SortByCount([TagCount(x, 1), TagCount(y, 1), TagCount(z, 2)])
      == [TagCount(z, 2), TagCount(x, 1), TagCount(y, 1)]
  {
    var cx, cy, cz := TagCount(x, 1), TagCount(y, 1), TagCount(z, 2);
    var c := [cx, cy, cz];
    assert SortByCount([cz]) == [cz] by {
      assert [cz][1..] == [];
    }
    assert Insert(cy, [cz]) == [cz, cy] by {
      assert [cz][1..] == [];
    }
    assert SortByCount([cy, cz]) == [cz, cy] by {
      assert [cy, cz][1..] == [cz];
    }
    assert Insert(cx, [cz, cy]) == [cz, cx, cy] by {
      assert [cz, cy][1..] == [cy];
      assert Insert(cx, [cy]) == [cx, cy];
    }
    assert c[1..] == [cy, cz];
  }
}
