/** Filtering (check.rb `filter_file_list`, `filter_file_list_glob`): split a
    file list into the names that are kept and `list - kept`. The regular
    expression test and the glob expansion are parameters. */
module Filtering {

  /** The elements of `list` that satisfy `p`, in their order. */
  function Select(list: seq<string>, p: string -> bool): seq<string>
  {
    if list == [] then []
    else (if p(list[0]) then [list[0]] else []) + Select(list[1..], p)
  }

  /** Ruby's `a - b`: every element of `a` that does not occur in `b`. */
  function Difference(a: seq<string>, b: seq<string>): seq<string>
  {
    if a == [] then []
    else (if a[0] in b then [] else [a[0]]) + Difference(a[1..], b)
  }

  /** The shared body (check.rb:29-30 and 36-37): the names not excluded, in
      order, and every name of the list that is not among those kept. */
  function Partition(list: seq<string>, excluded: string -> bool): (seq<string>, seq<string>)
  {
    var kept := Select(list, name => !excluded(name));
    (kept, Difference(list, kept))
  }

  lemma {:induction false} InSelect(x: string, list: seq<string>, p: string -> bool)
    ensures x in Select(list, p) <==> x in list && p(x)
  {
    if list != [] {
      InSelect(x, list[1..], p);
      assert list == [list[0]] + list[1..];
    }
  }

  lemma {:induction false} SelectAppend(a: seq<string>, b: seq<string>, p: string -> bool)
    ensures Select(a + b, p) == Select(a, p) + Select(b, p)
  {
    if a == [] {
      assert a + b == b;
    } else {
      assert (a + b)[1..] == a[1..] + b;
      SelectAppend(a[1..], b, p);
    }
  }

  lemma {:induction false} SelectSplitsMultiset(list: seq<string>, p: string -> bool)
    ensures multiset(Select(list, p)) + multiset(Select(list, x => !p(x))) == multiset(list)
  {
    if list != [] {
      SelectSplitsMultiset(list[1..], p);
      assert list == [list[0]] + list[1..];
    }
  }

  /** `a - kept` where, on `a`, membership in `kept` is exactly "not p". */
  lemma {:induction false} DifferenceIsSelect(a: seq<string>, kept: seq<string>, p: string -> bool)
    requires forall x :: x in a ==> (x in kept <==> !p(x))
    ensures Difference(a, kept) == Select(a, p)
  {
    if a != [] {
      assert a[0] in a;
      forall x | x in a[1..] ensures (x in kept <==> !p(x)) {
        assert x in a;
      }
      DifferenceIsSelect(a[1..], kept, p);
    }
  }

  /** The excluded part of a partition is the selection of the excluded names. */
  lemma PartitionExcluded(list: seq<string>, excluded: string -> bool)
    ensures Partition(list, excluded).1 == Select(list, excluded)
  {
    var keep := name => !excluded(name);
    forall x | x in list ensures (x in Select(list, keep) <==> !excluded(x)) {
      InSelect(x, list, keep);
    }
    DifferenceIsSelect(list, Select(list, keep), excluded);
  }

  lemma PartitionFacts(list: seq<string>, excluded: string -> bool)
    ensures var (kept, dropped) := Partition(list, excluded);
      (forall x :: x in kept <==> x in list && !excluded(x)) &&
      (forall x :: x in dropped <==> x in list && excluded(x)) &&
      multiset(kept) + multiset(dropped) == multiset(list)
    ensures Partition(list, excluded).1 == Select(list, excluded)
  {
    var keep := name => !excluded(name);
    PartitionExcluded(list, excluded);
    forall x ensures x in Select(list, keep) <==> x in list && !excluded(x) {
      InSelect(x, list, keep);
    }
    forall x ensures x in Select(list, excluded) <==> x in list && excluded(x) {
      InSelect(x, list, excluded);
    }
    SelectSplitsMultiset(list, keep);
    assert Select(list, x => !keep(x)) == Select(list, excluded) by {
      SelectSame(list, x => !keep(x), excluded);
    }
    assert multiset(Select(list, keep)) + multiset(Select(list, excluded)) == multiset(list);
  }

  lemma {:induction false} SelectSame(list: seq<string>, p: string -> bool, q: string -> bool)
    requires forall x :: p(x) == q(x)
    ensures Select(list, p) == Select(list, q)
  {
    if list != [] {
      SelectSame(list[1..], p, q);
    }
  }

  /** `filter_file_list`: kept are the names the regular expression does not
      match, excluded the names it does; together a permutation of the list. */
  function FilterFileList(list: seq<string>, matches: string -> bool): (r: (seq<string>, seq<string>))
    ensures forall x :: x in r.0 <==> x in list && !matches(x)
    ensures forall x :: x in r.1 <==> x in list && matches(x)
    ensures multiset(r.0) + multiset(r.1) == multiset(list)
  {
    PartitionFacts(list, matches);
    Partition(list, matches)
  }

  /** `filter_file_list_glob`: the same split, where a name is excluded when
      it occurs in the glob's expansion. The glob is expanded once, which is
      what the source's per-name re-expansion yields on an unchanged disk. */
  function FilterFileListGlob(list: seq<string>, globbed: seq<string>): (r: (seq<string>, seq<string>))
    ensures forall x :: x in r.0 <==> x in list && x !in globbed
    ensures forall x :: x in r.1 <==> x in list && x in globbed
    ensures multiset(r.0) + multiset(r.1) == multiset(list)
  {
    PartitionFacts(list, name => name in globbed);
    Partition(list, name => name in globbed)
  }

  /** Both parts keep the list's order: filtering a concatenation filters
      each half, although the excluded part is computed as `list - kept`
      over the whole list. */
  lemma FilterFileListAppend(a: seq<string>, b: seq<string>, matches: string -> bool)
    ensures FilterFileList(a + b, matches).0 == FilterFileList(a, matches).0 + FilterFileList(b, matches).0
    ensures FilterFileList(a + b, matches).1 == FilterFileList(a, matches).1 + FilterFileList(b, matches).1
  {
    SelectAppend(a, b, name => !matches(name));
    PartitionExcluded(a + b, matches);
    PartitionExcluded(a, matches);
    PartitionExcluded(b, matches);
    SelectAppend(a, b, matches);
  }

  /** A single name goes to exactly one side. */
  lemma FilterFileListSingle(x: string, matches: string -> bool)
    ensures FilterFileList([x], matches) == if matches(x) then ([], [x]) else ([x], [])
  {
    assert [x][1..] == [];
    PartitionExcluded([x], matches);
    assert Select([x], matches) == if matches(x) then [x] else [];
    assert Select([x], name => !matches(name)) == if matches(x) then [] else [x];
  }

  lemma FilterFileListGlobAppend(a: seq<string>, b: seq<string>, globbed: seq<string>)
    ensures FilterFileListGlob(a + b, globbed).0 == FilterFileListGlob(a, globbed).0 + FilterFileListGlob(b, globbed).0
    ensures FilterFileListGlob(a + b, globbed).1 == FilterFileListGlob(a, globbed).1 + FilterFileListGlob(b, globbed).1
  {
    var ex := name => name in globbed;
    SelectAppend(a, b, name => !ex(name));
    PartitionExcluded(a + b, ex);
    PartitionExcluded(a, ex);
    PartitionExcluded(b, ex);
    SelectAppend(a, b, ex);
  }

  lemma FilterFileListGlobSingle(x: string, globbed: seq<string>)
    ensures FilterFileListGlob([x], globbed) == if x in globbed then ([], [x]) else ([x], [])
  {
    var ex := name => name in globbed;
    assert [x][1..] == [];
    PartitionExcluded([x], ex);
    assert Select([x], ex) == if x in globbed then [x] else [];
    assert Select([x], name => !ex(name)) == if x in globbed then [] else [x];
  }
}
