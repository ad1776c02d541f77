/** The precalculated-hash index (check.rb `precalculated_checksums`): `.md5`
    listings of `hash filename` lines become a map from the expanded path to
    the listed hash and the listing's modification time. */
module Precalc {
  import opened RubyText
  import opened Environment

  /** The index entry of check.rb:50: the hash type (always MD5), the hash
      from the listing line's first column, and the listing's modification time. */
  datatype Entry = Entry(kind: string, hash: string, time: int)

  type Index = map<string, Entry>

  type Assignment = (string, Entry)

  /** The map that assigning the pairs in order leaves: later pairs win. */
  function MapOf(ps: seq<Assignment>): Index
  {
    if ps == [] then map[]
    else MapOf(ps[..|ps| - 1])[ps[|ps| - 1].0 := ps[|ps| - 1].1]
  }

  /** What one line of `listing` assigns (check.rb:48-50): the line is split
      on whitespace and the key is its second column expanded against the
      listing's directory; a line with fewer than two columns has no second
      column, and expanding nil raises a TypeError. */
  function LineEntry(fs: FileSystem, listing: string, line: string): Result<Assignment>
  {
    var a := Words(line);
    if |a| < 2 then Err(NilListingPath(listing))
    else Ok((fs.expandPath(a[1], fs.dirname(listing)), Entry("MD5", a[0], fs.mtime(listing))))
  }

  /** The assignments of the given lines, in order, or the first failure. */
  function LinesEntries(fs: FileSystem, listing: string, lines: seq<string>): Result<seq<Assignment>>
  {
    if lines == [] then Ok([])
    else
      match LinesEntries(fs, listing, lines[..|lines| - 1])
      case Err(e) => Err(e)
      case Ok(ps) =>
        match LineEntry(fs, listing, lines[|lines| - 1])
        case Err(e) => Err(e)
        case Ok(p) => Ok(ps + [p])
  }

  /** One listing: the `.md5` test comes first, then `File.mtime` (which
      raises for a missing file), then its lines. */
  function ListingEntries(fs: FileSystem, listing: string): Result<seq<Assignment>>
  {
    if !Md5LineEnd(listing) then Err(NotMd5Listing(listing))
    else if !fs.fileExists(listing) then Err(NoSuchFile(listing))
    else LinesEntries(fs, listing, Lines(fs.contents(listing)))
  }

  /** The assignments of all listings in order, or the first failure. */
  function AllEntries(fs: FileSystem, files: seq<string>): Result<seq<Assignment>>
  {
    if files == [] then Ok([])
    else
      match AllEntries(fs, files[..|files| - 1])
      case Err(e) => Err(e)
      case Ok(ps) =>
        match ListingEntries(fs, files[|files| - 1])
        case Err(e) => Err(e)
        case Ok(qs) => Ok(ps + qs)
  }

  /** The index the listings define. */
  function IndexOf(fs: FileSystem, files: seq<string>): Result<Index>
  {
    match AllEntries(fs, files)
    case Err(e) => Err(e)
    case Ok(ps) => Ok(MapOf(ps))
  }

  lemma {:induction false} LinesErrPersists(fs: FileSystem, listing: string, lines: seq<string>, j: nat)
    requires j <= |lines|
    requires LinesEntries(fs, listing, lines[..j]).Err?
    ensures LinesEntries(fs, listing, lines) == LinesEntries(fs, listing, lines[..j])
    decreases |lines| - j
  {
    if j < |lines| {
      assert lines[..j + 1][..j] == lines[..j];
      LinesErrPersists(fs, listing, lines, j + 1);
    } else {
      assert lines[..j] == lines;
    }
  }

  lemma {:induction false} AllErrPersists(fs: FileSystem, files: seq<string>, i: nat)
    requires i <= |files|
    requires AllEntries(fs, files[..i]).Err?
    ensures AllEntries(fs, files) == AllEntries(fs, files[..i])
    decreases |files| - i
  {
    if i < |files| {
      assert files[..i + 1][..i] == files[..i];
      AllErrPersists(fs, files, i + 1);
    } else {
      assert files[..i] == files;
    }
  }

  lemma LinesEntriesSnoc(fs: FileSystem, listing: string, lines: seq<string>, j: nat)
    requires j < |lines| && LinesEntries(fs, listing, lines[..j]).Ok?
    ensures LinesEntries(fs, listing, lines[..j + 1]) ==
      match LineEntry(fs, listing, lines[j])
      case Err(e) => Err(e)
      case Ok(p) => Ok(LinesEntries(fs, listing, lines[..j]).value + [p])
  {
    assert lines[..j + 1][..j] == lines[..j];
  }

  lemma MapOfSnoc(m: Index, qs: seq<Assignment>, p: Assignment)
    ensures m + MapOf(qs + [p]) == (m + MapOf(qs))[p.0 := p.1]
  {
    assert (qs + [p])[..|qs|] == qs;
  }

  /** The inner loop of `precalculated_checksums`: the lines of one listing
      `fn`, already known to exist, assigned into `precalc` one at a time. */
  method AddListing(fs: FileSystem, fn: string, precalc: Index) returns (r: Result<Index>)
    ensures r == match LinesEntries(fs, fn, Lines(fs.contents(fn)))
                 case Err(e) => Err(e)
                 case Ok(qs) => Ok(precalc + MapOf(qs))
  {
    var dir := fs.dirname(fn);
    var t := fs.mtime(fn);
    var lines := Lines(fs.contents(fn));
    var m := precalc;
    ghost var qs: seq<Assignment> := [];
    for j := 0 to |lines|
      invariant LinesEntries(fs, fn, lines[..j]) == Ok(qs)
      invariant m == precalc + MapOf(qs)
    {
      LinesEntriesSnoc(fs, fn, lines, j);
      var a := Words(lines[j]);
      if |a| < 2 {
        LinesErrPersists(fs, fn, lines, j + 1);
        return Err(NilListingPath(fn));
      }
      var checkfn := fs.expandPath(a[1], dir);
      ghost var p := (checkfn, Entry("MD5", a[0], t));
      MapOfSnoc(precalc, qs, p);
      m := m[checkfn := Entry("MD5", a[0], t)];
      qs := qs + [p];
    }
    assert lines[..|lines|] == lines;
    return Ok(m);
  }

  /** `precalculated_checksums`: the loop over the listings, each checked
      for its `.md5` name and its existence before its lines are read. */
  method PrecalculatedChecksums(fs: FileSystem, files: seq<string>) returns (r: Result<Index>)
    ensures r == IndexOf(fs, files)
  {
    var precalc: Index := map[];
    ghost var ps: seq<Assignment> := [];
    for i := 0 to |files|
      invariant AllEntries(fs, files[..i]) == Ok(ps)
      invariant precalc == MapOf(ps)
    {
      var fn := files[i];
      assert files[..i + 1][..i] == files[..i];
      if !Md5LineEnd(fn) {
        AllErrPersists(fs, files, i + 1);
        return Err(NotMd5Listing(fn));
      }
      if !fs.fileExists(fn) {
        AllErrPersists(fs, files, i + 1);
        return Err(NoSuchFile(fn));
      }
      var next := AddListing(fs, fn, precalc);
      if next.Err? {
        AllErrPersists(fs, files, i + 1);
        return next;
      }
      ghost var qs := ListingEntries(fs, fn).value;
      MapOfAppend(ps, qs);
      precalc := next.value;
      ps := ps + qs;
    }
    assert files[..|files|] == files;
    return Ok(precalc);
  }

  // ---------------------------------------------------------------------
  // What the index holds

  /** Assigning a second batch overrides the first: map union, right wins. */
  lemma {:induction false} MapOfAppend(ps: seq<Assignment>, qs: seq<Assignment>)
    ensures MapOf(ps + qs) == MapOf(ps) + MapOf(qs)
    decreases |qs|
  {
    if qs == [] {
      assert ps + qs == ps;
    } else {
      var n := |qs| - 1;
      assert (ps + qs)[..|ps + qs| - 1] == ps + qs[..n];
      MapOfAppend(ps, qs[..n]);
    }
  }

  /** A key is in the index iff some assignment names it, and it holds the
      value of the LAST assignment that names it. */
  lemma {:induction false} MapOfLastWins(ps: seq<Assignment>, i: nat)
    requires i < |ps|
    requires forall j :: i < j < |ps| ==> ps[j].0 != ps[i].0
    ensures ps[i].0 in MapOf(ps) && MapOf(ps)[ps[i].0] == ps[i].1
  {
    if i < |ps| - 1 {
      var init := ps[..|ps| - 1];
      forall j | i < j < |init| ensures init[j].0 != init[i].0 {
        assert init[j] == ps[j];
      }
      MapOfLastWins(init, i);
    }
  }

  lemma {:induction false} MapOfKeys(ps: seq<Assignment>, k: string)
    ensures k in MapOf(ps) <==> exists i :: 0 <= i < |ps| && ps[i].0 == k
  {
    if ps != [] {
      var init := ps[..|ps| - 1];
      MapOfKeys(init, k);
      if exists i :: 0 <= i < |init| && init[i].0 == k {
        var i :| 0 <= i < |init| && init[i].0 == k;
        assert ps[i] == init[i];
      }
      if exists i :: 0 <= i < |ps| && ps[i].0 == k {
        var i :| 0 <= i < |ps| && ps[i].0 == k;
        if i < |init| { assert init[i] == ps[i]; }
      }
    }
  }

  /** A listing that is processed after others overrides their entries for
      the same path and leaves the rest alone. */
  lemma LaterListingWins(fs: FileSystem, files: seq<string>, listing: string)
    requires IndexOf(fs, files).Ok? && ListingEntries(fs, listing).Ok?
    ensures IndexOf(fs, files + [listing]) ==
      Ok(IndexOf(fs, files).value + MapOf(ListingEntries(fs, listing).value))
  {
    var all := files + [listing];
    assert all[..|all| - 1] == files;
    MapOfAppend(AllEntries(fs, files).value, ListingEntries(fs, listing).value);
  }

  /** Any listing name without the `.md5` ending fails the whole load. */
  lemma NonMd5ListingFails(fs: FileSystem, files: seq<string>, i: nat)
    requires i < |files| && !Md5LineEnd(files[i])
    ensures IndexOf(fs, files).Err?
  {
    assert files[..i + 1][..i] == files[..i];
    AllErrPersists(fs, files, i + 1);
  }

  /** A line with fewer than two columns fails the whole load. */
  lemma ShortLineFails(fs: FileSystem, files: seq<string>, i: nat, j: nat)
    requires i < |files| && Md5LineEnd(files[i]) && fs.fileExists(files[i])
    requires j < |Lines(fs.contents(files[i]))| && |Words(Lines(fs.contents(files[i]))[j])| < 2
    ensures IndexOf(fs, files).Err?
  {
    var lines := Lines(fs.contents(files[i]));
    assert lines[..j + 1][..j] == lines[..j];
    LinesErrPersists(fs, files[i], lines, j + 1);
    assert files[..i + 1][..i] == files[..i];
    AllErrPersists(fs, files, i + 1);
  }

  /** `p` is what `line` of `listing` says: type MD5, the first column as
      hash, the listing's mtime, keyed by the second column expanded
      against the listing's directory. */
  predicate ListedBy(fs: FileSystem, listing: string, line: string, p: Assignment)
  {
    var a := Words(line);
    |a| >= 2 && p == (fs.expandPath(a[1], fs.dirname(listing)), Entry("MD5", a[0], fs.mtime(listing)))
  }

  /** Every entry a listing yields comes from one of its lines: type MD5, the
      first column as hash, the listing's mtime, keyed by the second column
      expanded against the listing's directory. */
  lemma {:induction false} LinesEntriesShape(fs: FileSystem, listing: string, lines: seq<string>, n: nat)
    requires LinesEntries(fs, listing, lines).Ok? && n < |LinesEntries(fs, listing, lines).value|
    ensures exists j :: 0 <= j < |lines| && ListedBy(fs, listing, lines[j], LinesEntries(fs, listing, lines).value[n])
  {
    var init := lines[..|lines| - 1];
    var ps := LinesEntries(fs, listing, init).value;
    if n < |ps| {
      LinesEntriesShape(fs, listing, init, n);
      var j :| 0 <= j < |init| && ListedBy(fs, listing, init[j], ps[n]);
      assert init[j] == lines[j];
    } else {
      assert n == |ps|;
      assert 0 <= |lines| - 1 < |lines|;
    }
  }

  /** `p` is what some line of some listing in `files` says. */
  predicate ListedIn(fs: FileSystem, files: seq<string>, p: Assignment)
  {
    exists i, j :: 0 <= i < |files| && 0 <= j < |Lines(fs.contents(files[i]))| &&
      ListedBy(fs, files[i], Lines(fs.contents(files[i]))[j], p)
  }

  /** Every assignment of the whole load comes from some line of some listing. */
  lemma {:induction false} AllEntriesShape(fs: FileSystem, files: seq<string>, n: nat)
    requires AllEntries(fs, files).Ok? && n < |AllEntries(fs, files).value|
    ensures ListedIn(fs, files, AllEntries(fs, files).value[n])
  {
    var init := files[..|files| - 1];
    var last := files[|files| - 1];
    var ps := AllEntries(fs, init).value;
    if n < |ps| {
      AllEntriesShape(fs, init, n);
      var i, j :| 0 <= i < |init| && 0 <= j < |Lines(fs.contents(init[i]))| &&
        ListedBy(fs, init[i], Lines(fs.contents(init[i]))[j], ps[n]);
      assert init[i] == files[i];
    } else {
      LinesEntriesShape(fs, last, Lines(fs.contents(last)), n - |ps|);
      var j :| 0 <= j < |Lines(fs.contents(last))| &&
        ListedBy(fs, last, Lines(fs.contents(last))[j], ListingEntries(fs, last).value[n - |ps|]);
      assert ListingEntries(fs, last).value[n - |ps|] == AllEntries(fs, files).value[n];
      assert 0 <= |files| - 1 < |files|;
    }
  }

  lemma {:induction false} MapOfValue(ps: seq<Assignment>, k: string)
    requires k in MapOf(ps)
    ensures exists n :: 0 <= n < |ps| && ps[n] == (k, MapOf(ps)[k])
  {
    var init := ps[..|ps| - 1];
    if ps[|ps| - 1].0 != k {
      MapOfValue(init, k);
      var n :| 0 <= n < |init| && init[n] == (k, MapOf(init)[k]);
      assert ps[n] == init[n];
    }
  }

  /** Soundness of the index: every path it holds, with its entry, is what
      some line of some listing says. */
  lemma IndexEntriesAreListed(fs: FileSystem, files: seq<string>, k: string)
    requires IndexOf(fs, files).Ok? && k in IndexOf(fs, files).value
    ensures ListedIn(fs, files, (k, IndexOf(fs, files).value[k]))
  {
    var ps := AllEntries(fs, files).value;
    MapOfValue(ps, k);
    var n :| 0 <= n < |ps| && ps[n] == (k, MapOf(ps)[k]);
    AllEntriesShape(fs, files, n);
  }

  // ---------------------------------------------------------------------
  // Completeness: every line of every listing is in the index

  /** The assignments of a listing's lines are the lines' own entries, one
      per line, position for position. */
  lemma {:induction false} LinesEntriesAt(fs: FileSystem, listing: string, lines: seq<string>)
    requires LinesEntries(fs, listing, lines).Ok?
    ensures |LinesEntries(fs, listing, lines).value| == |lines|
    ensures forall j :: 0 <= j < |lines| ==>
      LineEntry(fs, listing, lines[j]) == Ok(LinesEntries(fs, listing, lines).value[j])
  {
    if lines != [] {
      var init := lines[..|lines| - 1];
      LinesEntriesAt(fs, listing, init);
      forall j | 0 <= j < |init| ensures init[j] == lines[j] { }
    }
  }

  /** Line `j` of listing `files[i]` assigns the path `k`. */
  predicate NamesAt(fs: FileSystem, files: seq<string>, i: int, j: int, k: string)
  {
    0 <= i < |files| && 0 <= j < |Lines(fs.contents(files[i]))| &&
    var e := LineEntry(fs, files[i], Lines(fs.contents(files[i]))[j]);
    e.Ok? && e.value.0 == k
  }

  /** Line `j2` of listing `i2` is processed after line `j` of listing `i`. */
  predicate Later(i2: int, j2: int, i: int, j: int)
  {
    i2 > i || (i2 == i && j2 > j)
  }

  /** The entries of the last listing, when the load succeeds. */
  function LastEntries(fs: FileSystem, files: seq<string>): seq<Assignment>
    requires files != []
  {
    var r := LinesEntries(fs, files[|files| - 1], Lines(fs.contents(files[|files| - 1])));
    if r.Ok? then r.value else []
  }

  /** A successful load is the load of all but the last listing, overridden
      by the last listing's assignments, one per line. */
  lemma IndexOfLast(fs: FileSystem, files: seq<string>)
    requires files != [] && IndexOf(fs, files).Ok?
    ensures IndexOf(fs, files[..|files| - 1]).Ok?
    ensures IndexOf(fs, files).value == IndexOf(fs, files[..|files| - 1]).value + MapOf(LastEntries(fs, files))
    ensures |LastEntries(fs, files)| == |Lines(fs.contents(files[|files| - 1]))|
  {
    var init, last := files[..|files| - 1], files[|files| - 1];
    var lines := Lines(fs.contents(last));
    var ps := AllEntries(fs, init).value;
    assert ListingEntries(fs, last) == LinesEntries(fs, last, lines);
    var qs := LinesEntries(fs, last, lines).value;
    assert AllEntries(fs, files).value == ps + qs;
    MapOfAppend(ps, qs);
    LinesEntriesAt(fs, last, lines);
  }

  /** Line `j` of the last listing names `k` exactly when its assignment does. */
  lemma NamesAtLast(fs: FileSystem, files: seq<string>, j: nat, k: string)
    requires files != [] && IndexOf(fs, files).Ok?
    requires j < |Lines(fs.contents(files[|files| - 1]))|
    ensures j < |LastEntries(fs, files)|
    ensures NamesAt(fs, files, |files| - 1, j, k) <==> LastEntries(fs, files)[j].0 == k
    ensures LineEntry(fs, files[|files| - 1], Lines(fs.contents(files[|files| - 1]))[j]) == Ok(LastEntries(fs, files)[j])
  {
    IndexOfLast(fs, files);
    var last := files[|files| - 1];
    assert ListingEntries(fs, last) == LinesEntries(fs, last, Lines(fs.contents(last)));
    LinesEntriesAt(fs, last, Lines(fs.contents(last)));
  }

  /** Listings other than the last are the same in the shorter load. */
  lemma NamesAtInit(fs: FileSystem, files: seq<string>, i: int, j: int, k: string)
    requires files != [] && i < |files| - 1
    ensures NamesAt(fs, files, i, j, k) <==> NamesAt(fs, files[..|files| - 1], i, j, k)
  {
    if 0 <= i {
      assert files[..|files| - 1][i] == files[i];
    }
  }

  /** Every line of every listing puts its path into the index. */
  lemma {:induction false} IndexHoldsEveryLine(fs: FileSystem, files: seq<string>, i: nat, j: nat)
    requires IndexOf(fs, files).Ok?
    requires i < |files| && j < |Lines(fs.contents(files[i]))|
    ensures LineEntry(fs, files[i], Lines(fs.contents(files[i]))[j]).Ok?
    ensures LineEntry(fs, files[i], Lines(fs.contents(files[i]))[j]).value.0 in IndexOf(fs, files).value
  {
    var n := |files| - 1;
    IndexOfLast(fs, files);
    var qs := LastEntries(fs, files);
    if i == n {
      NamesAtLast(fs, files, j, qs[j].0);
      MapOfKeys(qs, qs[j].0);
    } else {
      var init := files[..n];
      assert init[i] == files[i];
      IndexHoldsEveryLine(fs, init, i, j);
    }
  }

  /** The entry the index holds for a path is the one from the last line,
      over all listings in order, that names the path. */
  lemma {:induction false} IndexLastLineWins(fs: FileSystem, files: seq<string>, i: nat, j: nat, k: string)
    requires IndexOf(fs, files).Ok?
    requires NamesAt(fs, files, i, j, k)
    requires forall i2, j2 :: Later(i2, j2, i, j) ==> !NamesAt(fs, files, i2, j2, k)
    ensures k in IndexOf(fs, files).value
    ensures IndexOf(fs, files).value[k] == LineEntry(fs, files[i], Lines(fs.contents(files[i]))[j]).value.1
    decreases |files|, 1
  {
    if i == |files| - 1 {
      LastListingWins(fs, files, i, j, k);
    } else {
      EarlierListingWins(fs, files, i, j, k);
    }
  }

  lemma LastListingWins(fs: FileSystem, files: seq<string>, i: nat, j: nat, k: string)
    requires IndexOf(fs, files).Ok? && i == |files| - 1
    requires NamesAt(fs, files, i, j, k)
    requires forall i2, j2 :: Later(i2, j2, i, j) ==> !NamesAt(fs, files, i2, j2, k)
    ensures k in IndexOf(fs, files).value
    ensures IndexOf(fs, files).value[k] == LineEntry(fs, files[i], Lines(fs.contents(files[i]))[j]).value.1
  {
    IndexOfLast(fs, files);
    var qs := LastEntries(fs, files);
    NamesAtLast(fs, files, j, k);
    forall j2 | j < j2 < |qs| ensures qs[j2].0 != qs[j].0 {
      assert Later(i, j2, i, j);
      NamesAtLast(fs, files, j2, k);
    }
    MapOfLastWins(qs, j);
  }

  lemma {:induction false} EarlierListingWins(fs: FileSystem, files: seq<string>, i: nat, j: nat, k: string)
    requires IndexOf(fs, files).Ok? && i < |files| - 1
    requires NamesAt(fs, files, i, j, k)
    requires forall i2, j2 :: Later(i2, j2, i, j) ==> !NamesAt(fs, files, i2, j2, k)
    ensures k in IndexOf(fs, files).value
    ensures IndexOf(fs, files).value[k] == LineEntry(fs, files[i], Lines(fs.contents(files[i]))[j]).value.1
    decreases |files|, 0
  {
    var n := |files| - 1;
    var init := files[..n];
    IndexOfLast(fs, files);
    var qs := LastEntries(fs, files);
    forall j2 | 0 <= j2 < |qs| ensures qs[j2].0 != k {
      assert Later(n, j2, i, j);
      NamesAtLast(fs, files, j2, k);
    }
    MapOfKeys(qs, k);
    NamesAtInit(fs, files, i, j, k);
    forall i2, j2 | Later(i2, j2, i, j) ensures !NamesAt(fs, init, i2, j2, k) {
      if i2 < n { NamesAtInit(fs, files, i2, j2, k); }
    }
    assert init[i] == files[i];
    IndexLastLineWins(fs, init, i, j, k);
  }
}
