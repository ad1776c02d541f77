/** Output verification (check.rb `output_missing`): read a manifest and
    return the path of the first output record whose file is missing or
    whose recomputed hash differs from the recorded one; nothing when every
    output still matches. */
module OutputCheck {
  import opened RubyText
  import opened Environment
  import opened Manifest
  import opened Precalc
  import opened Checksums

  /** How the name `pfff` resolves inside `output_missing`. In the source it
      is neither a parameter nor a local, so evaluating it raises NameError
      (`Unbound`); the corrected check is given the configured PFFF tool. */
  datatype PfffBinding = Unbound | BoundTo(tool: Option<string>)

  /** `value2`: the first word of the tool's output (nil when there is none),
      from the PFFF tool for a PFFF record and from md5sum otherwise. */
  function Recomputed(tools: Tools, pfff: PfffBinding, kind: Option<string>, fqn: string): Result<Option<string>>
  {
    if kind == Some("PFFF") then
      match pfff
      case Unbound => Err(UnboundPfff)
      case BoundTo(None) => Err(NoLargeFileHasher(fqn))
      case BoundTo(Some(tool)) => Ok(At(Words(tools.pfff(tool, fqn)), 0))
    else Ok(At(Words(tools.md5sum(fqn)), 0))
  }

  /** One pass of the loop (check.rb:80-89): the record's first three fields
      are the hash type, the hash and the path; a missing file returns
      its path before anything is hashed; a changed hash returns it too;
      `Ok(None)` means "go on". `File.exist?(nil)` raises a TypeError. */
  function CheckItem(fs: FileSystem, tools: Tools, pfff: PfffBinding, item: Record): Result<Option<string>>
  {
    var kind, value := At(item, 0), At(item, 1);
    match At(item, 2)
    case None => Err(NilOutputPath)
    case Some(fqn) =>
      if !fs.fileExists(fqn) then Ok(Some(fqn))
      else
        match Recomputed(tools, pfff, kind, fqn)
        case Err(e) => Err(e)
        case Ok(value2) => if value2 != value then Ok(Some(fqn)) else Ok(None)
  }

  /** The items before `k` all match and `items[k]` does not. */
  predicate StopsAt(fs: FileSystem, tools: Tools, pfff: PfffBinding, items: seq<Record>, k: int)
  {
    0 <= k < |items| && CheckItem(fs, tools, pfff, items[k]) != Ok(None) &&
    forall j :: 0 <= j < k ==> CheckItem(fs, tools, pfff, items[j]) == Ok(None)
  }

  /** The loop over the output section, stopping at the first item that does
      not match: no divergence exactly when every item matches, else the
      outcome of the first one that does not. */
  function FirstDivergent(fs: FileSystem, tools: Tools, pfff: PfffBinding, items: seq<Record>): (r: Result<Option<string>>)
    ensures r == Ok(None) <==> forall i :: 0 <= i < |items| ==> CheckItem(fs, tools, pfff, items[i]) == Ok(None)
    ensures r != Ok(None) ==> exists k :: StopsAt(fs, tools, pfff, items, k) && CheckItem(fs, tools, pfff, items[k]) == r
  {
    if items == [] then Ok(None)
    else
      var c := CheckItem(fs, tools, pfff, items[0]);
      if c != Ok(None) then
        assert StopsAt(fs, tools, pfff, items, 0);
        c
      else
        var r := FirstDivergent(fs, tools, pfff, items[1..]);
        assert forall i :: 1 <= i < |items| ==> items[1..][i - 1] == items[i];
        assert r != Ok(None) ==> exists k :: StopsAt(fs, tools, pfff, items, k) && CheckItem(fs, tools, pfff, items[k]) == r by {
          if r != Ok(None) {
            var k :| StopsAt(fs, tools, pfff, items[1..], k) && CheckItem(fs, tools, pfff, items[1..][k]) == r;
            assert StopsAt(fs, tools, pfff, items, k + 1);
          }
        }
        r
  }

  /** `output_missing(filename)` with `pfff` resolved as given: the manifest
      is opened (raising for a missing file) and its output section checked. */
  function Divergence(fs: FileSystem, tools: Tools, pfff: PfffBinding, filename: string): Result<Option<string>>
  {
    if !fs.fileExists(filename) then Err(NoSuchFile(filename))
    else FirstDivergent(fs, tools, pfff, Parsed(fs.contents(filename)).1)
  }

  /** `output_missing` as written: any PFFF output record of an existing file
      raises NameError; apart from that it behaves like the corrected check
      with any PFFF tool. */
  function OutputMissingAsWritten(fs: FileSystem, tools: Tools, filename: string): (r: Result<Option<string>>)
    ensures r != Err(UnboundPfff) ==>
      forall tool :: r == Divergence(fs, tools, BoundTo(tool), filename)
  {
    AsWrittenAgreesWithEvery(fs, tools, filename);
    Divergence(fs, tools, Unbound, filename)
  }

  lemma AsWrittenAgreesWithEvery(fs: FileSystem, tools: Tools, filename: string)
    ensures Divergence(fs, tools, Unbound, filename) != Err(UnboundPfff) ==>
      forall tool :: Divergence(fs, tools, Unbound, filename) == Divergence(fs, tools, BoundTo(tool), filename)
  {
    if fs.fileExists(filename) {
      forall tool {
        AsWrittenAgreesOtherwise(fs, tools, tool, Parsed(fs.contents(filename)).1);
      }
    }
  }

  lemma {:induction false} AsWrittenAgreesOtherwise(fs: FileSystem, tools: Tools, tool: Option<string>, items: seq<Record>)
    ensures FirstDivergent(fs, tools, Unbound, items) != Err(UnboundPfff) ==>
      FirstDivergent(fs, tools, Unbound, items) == FirstDivergent(fs, tools, BoundTo(tool), items)
  {
    if items != [] {
      ItemAgreesOtherwise(fs, tools, tool, items[0]);
      AsWrittenAgreesOtherwise(fs, tools, tool, items[1..]);
    }
  }

  /** A record that the source checks without the NameError is checked the
      same way with any PFFF tool. */
  lemma ItemAgreesOtherwise(fs: FileSystem, tools: Tools, tool: Option<string>, item: Record)
    ensures CheckItem(fs, tools, Unbound, item) != Err(UnboundPfff) ==>
      CheckItem(fs, tools, Unbound, item) == CheckItem(fs, tools, BoundTo(tool), item)
  {
  }

  /** `output_missing`, corrected: the loop with its early returns, the PFFF
      tool given as a parameter. */
  method OutputMissing(fs: FileSystem, tools: Tools, pfff: Option<string>, filename: string) returns (r: Result<Option<string>>)
    ensures r == Divergence(fs, tools, BoundTo(pfff), filename)
  {
    if !fs.fileExists(filename) {
      return Err(NoSuchFile(filename));
    }
    var inList, outList := ParseMetafile(fs.contents(filename));
    ghost var binding := BoundTo(pfff);
    for i := 0 to |outList|
      invariant FirstDivergent(fs, tools, binding, outList) == FirstDivergent(fs, tools, binding, outList[i..])
    {
      var item := outList[i];
      assert outList[i..][0] == item && outList[i..][1..] == outList[i + 1..];
      var kind, value, fqn := At(item, 0), At(item, 1), At(item, 2);
      if fqn.None? {
        return Err(NilOutputPath);
      }
      if !fs.fileExists(fqn.value) {
        return Ok(Some(fqn.value));
      }
      var value2: Option<string>;
      if kind == Some("PFFF") {
        if pfff.None? {
          return Err(NoLargeFileHasher(fqn.value));
        }
        value2 := At(Words(tools.pfff(pfff.value, fqn.value)), 0);
      } else {
        value2 := At(Words(tools.md5sum(fqn.value)), 0);
      }
      if value2 != value {
        return Ok(Some(fqn.value));
      }
    }
    return Ok(None);
  }

  // ---------------------------------------------------------------------
  // What the check promises

  /** An item diverges with its own path exactly when that file is missing
      or its recomputed hash differs from the recorded one. */
  lemma CheckItemDiverges(fs: FileSystem, tools: Tools, pfff: PfffBinding, item: Record, p: string)
    ensures CheckItem(fs, tools, pfff, item) == Ok(Some(p)) <==>
      |item| >= 3 && item[2] == p &&
      (!fs.fileExists(p) || (Recomputed(tools, pfff, At(item, 0), p).Ok? &&
                             Recomputed(tools, pfff, At(item, 0), p).value != At(item, 1)))
  {
  }

  /** Short-circuit: once a prefix of the output section stops the loop,
      the rest is never looked at. */
  lemma {:induction false} ShortCircuit(fs: FileSystem, tools: Tools, pfff: PfffBinding, a: seq<Record>, b: seq<Record>)
    ensures FirstDivergent(fs, tools, pfff, a + b) ==
      if FirstDivergent(fs, tools, pfff, a) == Ok(None) then FirstDivergent(fs, tools, pfff, b)
      else FirstDivergent(fs, tools, pfff, a)
  {
    if a == [] {
      assert a + b == b;
    } else {
      assert (a + b)[0] == a[0] && (a + b)[1..] == a[1..] + b;
      ShortCircuit(fs, tools, pfff, a[1..], b);
    }
  }

  /** The corrected check never raises the NameError. */
  lemma {:induction false} CorrectedNeverUnbound(fs: FileSystem, tools: Tools, tool: Option<string>, items: seq<Record>)
    ensures FirstDivergent(fs, tools, BoundTo(tool), items) != Err(UnboundPfff)
  {
    if items != [] {
      CorrectedNeverUnbound(fs, tools, tool, items[1..]);
    }
  }

  /** A record that matches its file on disk: three fields, the file exists,
      and the hash tool of its type still prints the recorded hash first. */
  predicate FreshlyHashed(fs: FileSystem, tools: Tools, pfff: Option<string>, r: Record)
  {
    |r| == 3 && fs.fileExists(r[2]) &&
    if r[0] == "PFFF" then pfff.Some? && At(Words(tools.pfff(pfff.value, r[2])), 0) == Some(r[1])
    else At(Words(tools.md5sum(r[2])), 0) == Some(r[1])
  }

  /** A manifest whose output records still match their files reports no
      divergence: write, read back, re-hash (and so twice in a row on an
      unchanged disk). */
  lemma WrittenOutputsStillValid(fs: FileSystem, tools: Tools, pfff: Option<string>, filename: string,
                                 ins: seq<Record>, outs: seq<Record>)
    requires fs.fileExists(filename) && fs.contents(filename) == Rendered(ins, outs)
    requires forall i :: 0 <= i < |ins| ==> Writable(ins[i])
    requires forall i :: 0 <= i < |outs| ==> Writable(outs[i]) && FreshlyHashed(fs, tools, pfff, outs[i])
    ensures Divergence(fs, tools, BoundTo(pfff), filename) == Ok(None)
  {
    RoundTrip(ins, outs);
    forall i | 0 <= i < |outs| ensures CheckItem(fs, tools, BoundTo(pfff), outs[i]) == Ok(None) {
      assert At(outs[i], 2) == Some(outs[i][2]);
    }
  }

  /** The loop reports the first item that does not match. */
  lemma {:induction false} ReportsFirstStop(fs: FileSystem, tools: Tools, pfff: PfffBinding, items: seq<Record>, k: nat)
    requires StopsAt(fs, tools, pfff, items, k)
    ensures FirstDivergent(fs, tools, pfff, items) == CheckItem(fs, tools, pfff, items[k])
  {
    if k > 0 {
      assert CheckItem(fs, tools, pfff, items[0]) == Ok(None);
      assert StopsAt(fs, tools, pfff, items[1..], k - 1) by {
        forall j | 0 <= j < k - 1 ensures CheckItem(fs, tools, pfff, items[1..][j]) == Ok(None) {
          assert items[1..][j] == items[j + 1];
        }
      }
      ReportsFirstStop(fs, tools, pfff, items[1..], k - 1);
    }
  }

  /** The first output record that no longer matches (file gone or hash
      changed) is the one reported, provided the ones before it match. */
  lemma ChangedOutputReported(fs: FileSystem, tools: Tools, pfff: Option<string>, filename: string,
                              ins: seq<Record>, outs: seq<Record>, k: nat)
    requires fs.fileExists(filename) && fs.contents(filename) == Rendered(ins, outs)
    requires forall i :: 0 <= i < |ins| ==> Writable(ins[i])
    requires forall i :: 0 <= i < |outs| ==> Writable(outs[i])
    requires k < |outs| && |outs[k]| == 3
    requires forall i :: 0 <= i < k ==> FreshlyHashed(fs, tools, pfff, outs[i])
    requires outs[k][0] != "PFFF" || pfff.Some?
    requires !FreshlyHashed(fs, tools, pfff, outs[k])
    ensures Divergence(fs, tools, BoundTo(pfff), filename) == Ok(Some(outs[k][2]))
  {
    RoundTrip(ins, outs);
    var b := BoundTo(pfff);
    forall i | 0 <= i < k ensures CheckItem(fs, tools, b, outs[i]) == Ok(None) {
      assert At(outs[i], 2) == Some(outs[i][2]);
    }
    assert At(outs[k], 2) == Some(outs[k][2]);
    assert CheckItem(fs, tools, b, outs[k]) == Ok(Some(outs[k][2]));
    ReportsFirstStop(fs, tools, b, outs, k);
  }

  /** The defect, exhibited: a manifest whose first output record is a PFFF
      record of an existing file makes the source raise NameError, while the
      corrected check, given the PFFF tool, re-hashes it. */
  lemma PfffOutputRaisesAsWritten(fs: FileSystem, tools: Tools, tool: string, filename: string,
                                  ins: seq<Record>, outs: seq<Record>)
    requires fs.fileExists(filename) && fs.contents(filename) == Rendered(ins, outs)
    requires forall i :: 0 <= i < |ins| ==> Writable(ins[i])
    requires forall i :: 0 <= i < |outs| ==> Writable(outs[i])
    requires outs != [] && |outs[0]| == 3 && outs[0][0] == "PFFF" && fs.fileExists(outs[0][2])
    ensures OutputMissingAsWritten(fs, tools, filename) == Err(UnboundPfff)
    ensures Divergence(fs, tools, BoundTo(Some(tool)), filename) != Err(UnboundPfff)
  {
    RoundTrip(ins, outs);
    assert At(outs[0], 0) == Some("PFFF") && At(outs[0], 2) == Some(outs[0][2]);
    CorrectedNeverUnbound(fs, tools, Some(tool), outs);
  }

  /** Outputs fingerprinted by `calc_file_checksums` through md5sum, when
      md5sum prints `<hash> <path>` for the expanded path, match their files
      as long as the disk does not change. */
  lemma Md5RecordIsFresh(fs: FileSystem, tools: Tools, precalc: Index, pfff: Option<string>, fn: string, hash: string)
    requires var fqn := ExpandPath(fs, fn);
      fs.fileExists(fqn) && !Fresh(fs, precalc, fqn) && Words(tools.md5sum(fqn)) == [hash, fqn]
    requires pfff.Some? ==> fs.fileExists(fn) && fs.size(fn) <= LargeFileThreshold
    ensures FileChecksum(fs, tools, precalc, pfff, fn).Ok?
    ensures FreshlyHashed(fs, tools, pfff, FileChecksum(fs, tools, precalc, pfff, fn).value)
  {
  }
}
