/** Command-line rewriting (check.rb `requote`, `drop_pbs_option`,
    `drop_dir_option`): each walks the consecutive pairs of the argument list
    and builds a new list that starts with the first argument (nil for an
    empty list) followed by zero or one element per pair. */
module ArgRewrite {
  import opened RubyText

  /** `list[0]`: nil for an empty list. */
  function Head(list: seq<string>): Option<string>
  {
    if list == [] then None else Some(list[0])
  }

  predicate IsSkipOption(p: string)
  {
    p == "--skip-glob" || p == "--skip-regex"
  }

  /** The element of `requote`'s result for the pair `(p1, p2)`: `p2` in
      single quotes right after `--skip-glob` or `--skip-regex`. */
  function QuoteAfter(p1: string, p2: string): string
  {
    if IsSkipOption(p1) then "'" + p2 + "'" else p2
  }

  /** `requote`'s result for `list`. */
  function Requoted(list: seq<string>): (r: seq<Option<string>>)
    ensures |r| == if list == [] then 1 else |list|
  {
    if |list| < 2 then [Head(list)]
    else Requoted(list[..|list| - 1]) + [Some(QuoteAfter(list[|list| - 2], list[|list| - 1]))]
  }

  method Requote(list: seq<string>) returns (a: seq<Option<string>>)
    ensures a == Requoted(list)
  {
    a := [Head(list)];
    if list == [] {
      return;
    }
    for i := 1 to |list|
      invariant a == Requoted(list[..i])
    {
      assert list[..i + 1][..i] == list[..i];
      a := a + [Some(if IsSkipOption(list[i - 1]) then "'" + list[i] + "'" else list[i])];
    }
    assert list[..|list|] == list;
  }

  /** `requote` keeps the length (one element for an empty list) and the
      first argument, and changes an element only by wrapping it in single
      quotes, exactly when it follows `--skip-glob` or `--skip-regex`. */
  lemma {:induction false} RequotedElements(list: seq<string>)
    ensures var a := Requoted(list);
      |a| == (if list == [] then 1 else |list|) && a[0] == Head(list) &&
      forall i :: 1 <= i < |list| ==>
        a[i] == Some(if IsSkipOption(list[i - 1]) then "'" + list[i] + "'" else list[i])
  {
    if |list| >= 2 {
      var init := list[..|list| - 1];
      RequotedElements(init);
      assert forall i :: 0 <= i < |init| ==> init[i] == list[i];
    }
  }

  /** Without `--skip-glob` or `--skip-regex` (before the last element),
      `requote` changes nothing. */
  lemma RequoteIdentity(list: seq<string>)
    requires list != []
    requires forall i :: 0 <= i < |list| - 1 ==> !IsSkipOption(list[i])
    ensures |Requoted(list)| == |list| && forall i :: 0 <= i < |list| ==> Requoted(list)[i] == Some(list[i])
  {
    RequotedElements(list);
  }

  // ---------------------------------------------------------------------
  // Dropping options

  /** `is_part_of_pbs_arg`: `--pbs` itself, and the element after it when
      that element contains whitespace (a quoted qsub option string). */
  predicate IsPartOfPbsArg(p1: string, p2: string)
  {
    (p1 == "--pbs" && HasSpace(p2)) || p2 == "--pbs"
  }

  /** `is_part_of_arg` of `drop_dir_option`: `-d` and whatever follows it. */
  predicate IsPartOfDirArg(p1: string, p2: string)
  {
    p1 == "-d" || p2 == "-d"
  }

  /** The shared shape of check.rb:128-130 and 138-140: the first argument
      (nil for an empty list), then the second element of every consecutive
      pair the predicate does not drop. */
  function PairsKept(list: seq<string>, drop: (string, string) -> bool): (r: seq<Option<string>>)
    ensures 1 <= |r| <= (if list == [] then 1 else |list|)
  {
    if |list| < 2 then [Head(list)]
    else
      var init := PairsKept(list[..|list| - 1], drop);
      if drop(list[|list| - 2], list[|list| - 1]) then init else init + [Some(list[|list| - 1])]
  }

  /** Position `i` of the list survives: it is not the first, and the pair
      ending at it is not dropped. */
  predicate KeptAt(list: seq<string>, drop: (string, string) -> bool, i: int)
  {
    1 <= i < |list| && !drop(list[i - 1], list[i])
  }

  /** The result begins with the first argument; by value, the elements after
      it are exactly the surviving ones (their order and positions are
      stated by `PairsKeptPositions`). */
  lemma {:induction false} PairsKeptElements(list: seq<string>, drop: (string, string) -> bool)
    ensures var a := PairsKept(list, drop);
      a[0] == Head(list) &&
      (forall j :: 1 <= j < |a| ==> a[j].Some?) &&
      (forall x :: Some(x) in a[1..] <==> exists i :: KeptAt(list, drop, i) && list[i] == x)
  {
    if |list| >= 2 {
      var init := list[..|list| - 1];
      PairsKeptElements(init, drop);
      var a := PairsKept(list, drop);
      var b := PairsKept(init, drop);
      assert b[0] == Head(list);
      forall x ensures Some(x) in a[1..] <==> exists i :: KeptAt(list, drop, i) && list[i] == x {
        if Some(x) in a[1..] {
          if Some(x) in b[1..] {
            var i :| KeptAt(init, drop, i) && init[i] == x;
            assert KeptAt(list, drop, i) && list[i] == x;
          } else {
            assert KeptAt(list, drop, |list| - 1) && list[|list| - 1] == x;
          }
        }
        if exists i :: KeptAt(list, drop, i) && list[i] == x {
          var i :| KeptAt(list, drop, i) && list[i] == x;
          if i < |list| - 1 {
            assert KeptAt(init, drop, i) && init[i] == x;
            assert Some(x) in b[1..];
            assert a[1..] == b[1..] || a[1..] == b[1..] + [Some(list[|list| - 1])];
          } else {
            assert a[1..] == b[1..] + [Some(x)];
          }
        }
      }
    } else {
      assert PairsKept(list, drop)[1..] == [];
    }
  }

  /** The surviving positions of `list`, in increasing order. */
  function KeptPositions(list: seq<string>, drop: (string, string) -> bool): seq<int>
  {
    if |list| < 2 then []
    else KeptPositions(list[..|list| - 1], drop) + (if drop(list[|list| - 2], list[|list| - 1]) then [] else [|list| - 1])
  }

  predicate Increasing(ks: seq<int>)
  {
    forall k1, k2 :: 0 <= k1 < k2 < |ks| ==> ks[k1] < ks[k2]
  }

  /** Position by position: after the first argument the result holds, in
      order, the element at each surviving position and nothing else. */
  lemma {:induction false} PairsKeptPositions(list: seq<string>, drop: (string, string) -> bool)
    ensures |PairsKept(list, drop)| == 1 + |KeptPositions(list, drop)|
    ensures PairsKept(list, drop)[0] == Head(list)
    ensures Increasing(KeptPositions(list, drop))
    ensures forall k :: 0 <= k < |KeptPositions(list, drop)| ==>
      1 <= KeptPositions(list, drop)[k] < |list| &&
      PairsKept(list, drop)[k + 1] == Some(list[KeptPositions(list, drop)[k]])
    ensures forall i :: i in KeptPositions(list, drop) <==> KeptAt(list, drop, i)
  {
    KeptPositionsExact(list, drop);
    PairsKeptAt(list, drop);
  }

  /** The surviving positions: increasing, and exactly those `KeptAt` picks. */
  lemma {:induction false} KeptPositionsExact(list: seq<string>, drop: (string, string) -> bool)
    ensures Increasing(KeptPositions(list, drop))
    ensures forall k :: 0 <= k < |KeptPositions(list, drop)| ==> 1 <= KeptPositions(list, drop)[k] < |list|
    ensures forall i :: i in KeptPositions(list, drop) <==> KeptAt(list, drop, i)
  {
    if |list| >= 2 {
      var init := list[..|list| - 1];
      KeptPositionsExact(init, drop);
      KeptAtInit(list, drop);
    }
  }

  /** Element `k + 1` of the result is the list element at the `k`-th
      surviving position. */
  lemma {:induction false} PairsKeptAt(list: seq<string>, drop: (string, string) -> bool)
    ensures |PairsKept(list, drop)| == 1 + |KeptPositions(list, drop)|
    ensures PairsKept(list, drop)[0] == Head(list)
    ensures forall k :: 0 <= k < |KeptPositions(list, drop)| ==>
      1 <= KeptPositions(list, drop)[k] < |list| &&
      PairsKept(list, drop)[k + 1] == Some(list[KeptPositions(list, drop)[k]])
  {
    KeptPositionsExact(list, drop);
    if |list| >= 2 {
      var init := list[..|list| - 1];
      PairsKeptAt(init, drop);
      var a, b := PairsKept(list, drop), PairsKept(init, drop);
      var ks, js := KeptPositions(list, drop), KeptPositions(init, drop);
      if !drop(list[|list| - 2], list[|list| - 1]) {
        assert a == b + [Some(list[|list| - 1])] && ks == js + [|list| - 1];
        forall k | 0 <= k < |js| ensures a[k + 1] == Some(list[ks[k]]) {
          assert ks[k] == js[k] && a[k + 1] == b[k + 1] && init[js[k]] == list[js[k]];
        }
      }
    }
  }

  /** Away from the last position, survival in `list` is survival in the
      list without its last element. */
  lemma KeptAtInit(list: seq<string>, drop: (string, string) -> bool)
    requires list != []
    ensures forall i :: i < |list| - 1 ==> (KeptAt(list[..|list| - 1], drop, i) <==> KeptAt(list, drop, i))
  {
    var init := list[..|list| - 1];
    assert forall i :: 0 <= i < |init| ==> init[i] == list[i];
  }

  /** When the predicate drops no pair, the list is copied unchanged. */
  lemma {:induction false} PairsKeptIdentity(list: seq<string>, drop: (string, string) -> bool)
    requires list != []
    requires forall i :: 1 <= i < |list| ==> !drop(list[i - 1], list[i])
    ensures |PairsKept(list, drop)| == |list|
    ensures forall i :: 0 <= i < |list| ==> PairsKept(list, drop)[i] == Some(list[i])
  {
    if |list| >= 2 {
      var init := list[..|list| - 1];
      PairsKeptIdentity(init, drop);
    }
  }

  method DropPbsOption(list: seq<string>) returns (a: seq<Option<string>>)
    ensures a == PairsKept(list, IsPartOfPbsArg)
  {
    a := [Head(list)];
    if list == [] {
      return;
    }
    for i := 1 to |list|
      invariant a == PairsKept(list[..i], IsPartOfPbsArg)
    {
      assert list[..i + 1][..i] == list[..i];
      if !IsPartOfPbsArg(list[i - 1], list[i]) {
        a := a + [Some(list[i])];
      }
    }
    assert list[..|list|] == list;
  }

  method DropDirOption(list: seq<string>) returns (a: seq<Option<string>>)
    ensures a == PairsKept(list, IsPartOfDirArg)
  {
    a := [Head(list)];
    if list == [] {
      return;
    }
    for i := 1 to |list|
      invariant a == PairsKept(list[..i], IsPartOfDirArg)
    {
      assert list[..i + 1][..i] == list[..i];
      if !IsPartOfDirArg(list[i - 1], list[i]) {
        a := a + [Some(list[i])];
      }
    }
    assert list[..|list|] == list;
  }

  /** After the first argument, `drop_pbs_option` leaves no `--pbs`; position
      `i` survives exactly when it is a later argument that is not `--pbs` and
      is not a whitespace-holding argument of one, and the survivors follow
      the first argument in order. */
  lemma DropPbsOptionKeeps(list: seq<string>, x: string)
    ensures Some("--pbs") !in PairsKept(list, IsPartOfPbsArg)[1..]
    ensures Some(x) in PairsKept(list, IsPartOfPbsArg)[1..] <==>
      exists i :: PbsArgKept(list, i) && list[i] == x
    ensures forall i :: i in KeptPositions(list, IsPartOfPbsArg) <==> PbsArgKept(list, i)
    ensures PairsKept(list, IsPartOfPbsArg)[0] == Head(list)
    ensures Increasing(KeptPositions(list, IsPartOfPbsArg))
    ensures |PairsKept(list, IsPartOfPbsArg)| == 1 + |KeptPositions(list, IsPartOfPbsArg)|
    ensures forall k :: 0 <= k < |KeptPositions(list, IsPartOfPbsArg)| ==>
      1 <= KeptPositions(list, IsPartOfPbsArg)[k] < |list| &&
      PairsKept(list, IsPartOfPbsArg)[k + 1] == Some(list[KeptPositions(list, IsPartOfPbsArg)[k]])
  {
    PairsKeptElements(list, IsPartOfPbsArg);
    PairsKeptPositions(list, IsPartOfPbsArg);
    assert forall i :: KeptAt(list, IsPartOfPbsArg, i) <==> PbsArgKept(list, i);
  }

  predicate PbsArgKept(list: seq<string>, i: int)
  {
    1 <= i < |list| && list[i] != "--pbs" && !(list[i - 1] == "--pbs" && HasSpace(list[i]))
  }

  /** After the first argument, `drop_dir_option` leaves no `-d`; position
      `i` survives exactly when it is a later argument that is not `-d` and
      does not follow one, and the survivors follow the first argument in
      order. */
  lemma DropDirOptionKeeps(list: seq<string>, x: string)
    ensures Some("-d") !in PairsKept(list, IsPartOfDirArg)[1..]
    ensures Some(x) in PairsKept(list, IsPartOfDirArg)[1..] <==>
      exists i :: DirArgKept(list, i) && list[i] == x
    ensures forall i :: i in KeptPositions(list, IsPartOfDirArg) <==> DirArgKept(list, i)
    ensures PairsKept(list, IsPartOfDirArg)[0] == Head(list)
    ensures Increasing(KeptPositions(list, IsPartOfDirArg))
    ensures |PairsKept(list, IsPartOfDirArg)| == 1 + |KeptPositions(list, IsPartOfDirArg)|
    ensures forall k :: 0 <= k < |KeptPositions(list, IsPartOfDirArg)| ==>
      1 <= KeptPositions(list, IsPartOfDirArg)[k] < |list| &&
      PairsKept(list, IsPartOfDirArg)[k + 1] == Some(list[KeptPositions(list, IsPartOfDirArg)[k]])
  {
    PairsKeptElements(list, IsPartOfDirArg);
    PairsKeptPositions(list, IsPartOfDirArg);
    assert forall i :: KeptAt(list, IsPartOfDirArg, i) <==> DirArgKept(list, i);
  }

  predicate DirArgKept(list: seq<string>, i: int)
  {
    1 <= i < |list| && list[i] != "-d" && list[i - 1] != "-d"
  }

  /** Without `-d` anywhere the list comes back unchanged. */
  lemma DropDirOptionIdentity(list: seq<string>)
    requires list != [] && forall i :: 0 <= i < |list| ==> list[i] != "-d"
    ensures |PairsKept(list, IsPartOfDirArg)| == |list|
    ensures forall i :: 0 <= i < |list| ==> PairsKept(list, IsPartOfDirArg)[i] == Some(list[i])
  {
    PairsKeptIdentity(list, IsPartOfDirArg);
  }

  /** A `--pbs` argument without whitespace is not an option string and
      stays; only `--pbs` itself goes. */
  lemma DropPbsKeepsPlainArgument()
    ensures PairsKept(["once-only", "--pbs", "short", "cmd"], IsPartOfPbsArg) ==
      [Some("once-only"), Some("short"), Some("cmd")]
  {
    var l := ["once-only", "--pbs", "short", "cmd"];
    assert !HasSpace("short") by {
      forall i | 0 <= i < 5 ensures !IsSpace("short"[i]) { }
    }
    assert l[..2] == ["once-only", "--pbs"] && PairsKept(l[..2], IsPartOfPbsArg) == [Some("once-only")] by {
      assert l[..2][..1] == ["once-only"];
    }
    assert l[..3] == ["once-only", "--pbs", "short"] && l[..3][..2] == l[..2];
    assert PairsKept(l[..3], IsPartOfPbsArg) == [Some("once-only"), Some("short")];
    assert l[..4] == l && l[..3] == l[..4][..3];
  }

  /** A `--pbs` argument holding whitespace goes with it. */
  lemma DropPbsDropsOptionString()
    ensures PairsKept(["once-only", "--pbs", "-q long", "cmd"], IsPartOfPbsArg) ==
      [Some("once-only"), Some("cmd")]
  {
    var l := ["once-only", "--pbs", "-q long", "cmd"];
    assert IsSpace("-q long"[2]);
    assert l[..2] == ["once-only", "--pbs"] && PairsKept(l[..2], IsPartOfPbsArg) == [Some("once-only")] by {
      assert l[..2][..1] == ["once-only"];
    }
    assert l[..3] == ["once-only", "--pbs", "-q long"] && l[..3][..2] == l[..2];
    assert PairsKept(l[..3], IsPartOfPbsArg) == [Some("once-only")];
    assert l[..4] == l && l[..3] == l[..4][..3];
  }
}
