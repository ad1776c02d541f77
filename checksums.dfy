/** Backend selection (check.rb `calc_file_checksums`): one record per file,
    from a fresh precalculated entry, else from the PFFF tool for files over
    20,000,000 bytes when one is configured, else from md5sum. */
module Checksums {
  import opened RubyText
  import opened Environment
  import opened Precalc

  /** The test of check.rb:63: an index entry is only trusted when the index
      names the file and the file is strictly older than its listing. */
  predicate Fresh(fs: FileSystem, precalc: Index, fqn: string)
  {
    fqn in precalc && fs.mtime(fqn) < precalc[fqn].time
  }

  /** The record for one file (check.rb:60-74). The file's modification time
      is only consulted when the index names the file, and its size only when a PFFF tool is
      configured; both raise for a missing file. The tools' output is split on
      whitespace and the hash type put in front. */
  function FileChecksum(fs: FileSystem, tools: Tools, precalc: Index, pfff: Option<string>, fn: string): Result<Record>
  {
    var fqn := ExpandPath(fs, fn);
    if fqn in precalc && !fs.fileExists(fqn) then Err(NoSuchFile(fqn))
    else if Fresh(fs, precalc, fqn) then Ok([precalc[fqn].kind, precalc[fqn].hash, fqn])
    else if pfff.Some? && !fs.fileExists(fn) then Err(NoSuchFile(fn))
    else if pfff.Some? && fs.size(fn) > LargeFileThreshold then Ok(["PFFF"] + Words(tools.pfff(pfff.value, fqn)))
    else Ok(["MD5"] + Words(tools.md5sum(fqn)))
  }

  /** `list[i]` is the first file whose record fails, with error `e`. */
  predicate FirstFailure(fs: FileSystem, tools: Tools, precalc: Index, pfff: Option<string>, list: seq<string>, i: int, e: Error)
  {
    0 <= i < |list| && FileChecksum(fs, tools, precalc, pfff, list[i]) == Err(e) &&
    forall j :: 0 <= j < i ==> FileChecksum(fs, tools, precalc, pfff, list[j]).Ok?
  }

  /** `recs[i]` is the record of `list[i]`, for every file. */
  predicate RecordsOf(fs: FileSystem, tools: Tools, precalc: Index, pfff: Option<string>, list: seq<string>, recs: seq<Record>)
  {
    |recs| == |list| &&
    forall i :: 0 <= i < |list| ==> FileChecksum(fs, tools, precalc, pfff, list[i]) == Ok(recs[i])
  }

  /** `calc_file_checksums`: `list.map`, so exactly one record per file, in
      order; the first file that raises aborts the whole list. */
  function CalcFileChecksums(fs: FileSystem, tools: Tools, precalc: Index, pfff: Option<string>, list: seq<string>): (r: Result<seq<Record>>)
    ensures r.Ok? <==> forall i :: 0 <= i < |list| ==> FileChecksum(fs, tools, precalc, pfff, list[i]).Ok?
    ensures r.Ok? ==> RecordsOf(fs, tools, precalc, pfff, list, r.value)
    ensures r.Err? ==> exists i :: FirstFailure(fs, tools, precalc, pfff, list, i, r.error)
  {
    if list == [] then Ok([])
    else
      var c := FileChecksum(fs, tools, precalc, pfff, list[0]);
      var rest := CalcFileChecksums(fs, tools, precalc, pfff, list[1..]);
      assert forall i :: 1 <= i < |list| ==> list[1..][i - 1] == list[i];
      if c.Err? then
        assert FirstFailure(fs, tools, precalc, pfff, list, 0, c.error);
        Err(c.error)
      else if rest.Err? then
        assert exists i :: FirstFailure(fs, tools, precalc, pfff, list, i, rest.error) by {
          var k :| FirstFailure(fs, tools, precalc, pfff, list[1..], k, rest.error);
          assert FirstFailure(fs, tools, precalc, pfff, list, k + 1, rest.error);
        }
        Err(rest.error)
      else
        var recs := [c.value] + rest.value;
        assert RecordsOf(fs, tools, precalc, pfff, list, recs) by {
          forall i | 0 <= i < |list| ensures FileChecksum(fs, tools, precalc, pfff, list[i]) == Ok(recs[i]) {
            if i > 0 { assert recs[i] == rest.value[i - 1]; }
          }
        }
        Ok(recs)
  }

  // ---------------------------------------------------------------------
  // The selection rules

  /** A fresh entry is used as is: the record does not depend on the hash
      tools, on whether PFFF is configured, or on the file's size. */
  lemma FreshEntryUsed(fs: FileSystem, tools: Tools, tools': Tools, precalc: Index,
                       pfff: Option<string>, pfff': Option<string>, fn: string)
    requires fs.fileExists(ExpandPath(fs, fn)) && Fresh(fs, precalc, ExpandPath(fs, fn))
    ensures var fqn := ExpandPath(fs, fn);
      FileChecksum(fs, tools, precalc, pfff, fn) == FileChecksum(fs, tools', precalc, pfff', fn) ==
      Ok([precalc[fqn].kind, precalc[fqn].hash, fqn])
  {
  }

  /** An entry whose time is not strictly later than the file's mtime is
      ignored: the record is the one computed without any entry for it. */
  lemma StaleEntryIgnored(fs: FileSystem, tools: Tools, precalc: Index, pfff: Option<string>, fn: string)
    requires var fqn := ExpandPath(fs, fn);
      fqn in precalc && fs.fileExists(fqn) && precalc[fqn].time <= fs.mtime(fqn)
    ensures FileChecksum(fs, tools, precalc, pfff, fn) ==
      FileChecksum(fs, tools, precalc - {ExpandPath(fs, fn)}, pfff, fn)
  {
  }

  /** Without a fresh entry and with PFFF configured, the record is a PFFF
      one exactly when the file is larger than 20,000,000 bytes, and an MD5
      one otherwise. */
  lemma LargeFileThresholdRule(fs: FileSystem, tools: Tools, precalc: Index, pfff: string, fn: string)
    requires !Fresh(fs, precalc, ExpandPath(fs, fn)) && fs.fileExists(fn)
    requires ExpandPath(fs, fn) in precalc ==> fs.fileExists(ExpandPath(fs, fn))
    ensures FileChecksum(fs, tools, precalc, Some(pfff), fn).Ok?
    ensures var rec := FileChecksum(fs, tools, precalc, Some(pfff), fn).value;
      rec[0] == (if fs.size(fn) > 20_000_000 then "PFFF" else "MD5")
  {
  }

  /** Without PFFF configured the size is never consulted: a non-fresh file
      always gets an md5sum record, even a missing one. */
  lemma NoPfffMeansMd5(fs: FileSystem, tools: Tools, precalc: Index, fn: string)
    requires !Fresh(fs, precalc, ExpandPath(fs, fn))
    requires ExpandPath(fs, fn) in precalc ==> fs.fileExists(ExpandPath(fs, fn))
    ensures FileChecksum(fs, tools, precalc, None, fn) ==
      Ok(["MD5"] + Words(tools.md5sum(ExpandPath(fs, fn))))
  {
  }

  /** With no index and no PFFF tool every file gets its md5sum record, in
      the order of the list. */
  lemma DefaultRecordsInOrder(fs: FileSystem, tools: Tools, list: seq<string>)
    ensures CalcFileChecksums(fs, tools, map[], None, list).Ok?
    ensures var recs := CalcFileChecksums(fs, tools, map[], None, list).value;
      |recs| == |list| &&
      forall i :: 0 <= i < |list| ==> recs[i] == ["MD5"] + Words(tools.md5sum(ExpandPath(fs, list[i])))
  {
  }

  /** The columns of a `<hash>  <name>` listing line. */
  lemma WordsOfListingLine(hash: string, name: string)
    requires hash != [] && NoSpace(hash) && name != [] && NoSpace(name)
    ensures Words(hash + "  " + name + "\n") == [hash, name]
  {
    var tail := name + "\n";
    var rest := "  " + tail;
    assert hash + "  " + name + "\n" == hash + rest;
    WordsOfWord(hash, rest);
    WordsSkipSpace("  ", tail);
    WordsOfWord(name, "\n");
    assert "\n" == "\n" + "";
    WordsSkipSpace("\n", "");
    assert Words("") == [];
  }

  /** Such a listing holds that one line. */
  lemma LinesOfListingLine(hash: string, name: string)
    requires NoSpace(hash) && NoSpace(name)
    ensures Lines(hash + "  " + name + "\n") == [hash + "  " + name + "\n"]
  {
    var line := hash + "  " + name + "\n";
    forall i | 0 <= i < |line| - 1 ensures line[i] != '\n' {
      if i < |hash| { assert line[i] == hash[i]; }
      else if i >= |hash| + 2 { assert line[i] == name[i - |hash| - 2]; }
    }
    LinesOfConcat([line]);
    assert Concat([line]) == line;
  }

  /** A listing `hashes.md5` holding the line `<hash>  <name>`, and a target
      that resolves to that name and is older than the listing: the record is
      the listed hash, whatever the hash tools would say. */
  lemma PrecalculatedScenario(fs: FileSystem, tools: Tools, pfff: Option<string>,
                              listing: string, hash: string, name: string, fn: string)
    requires Md5LineEnd(listing) && fs.fileExists(listing)
    requires hash != [] && NoSpace(hash) && name != [] && NoSpace(name)
    requires fs.contents(listing) == hash + "  " + name + "\n"
    requires ExpandPath(fs, fn) == fs.expandPath(name, fs.dirname(listing))
    requires fs.fileExists(ExpandPath(fs, fn)) && fs.mtime(ExpandPath(fs, fn)) < fs.mtime(listing)
    ensures IndexOf(fs, [listing]).Ok?
    ensures FileChecksum(fs, tools, IndexOf(fs, [listing]).value, pfff, fn) ==
      Ok(["MD5", hash, ExpandPath(fs, fn)])
  {
    var line := hash + "  " + name + "\n";
    WordsOfListingLine(hash, name);
    LinesOfListingLine(hash, name);
    var fqn := ExpandPath(fs, fn);
    var p := (fqn, Entry("MD5", hash, fs.mtime(listing)));
    assert LineEntry(fs, listing, line) == Ok(p);
    assert LinesEntries(fs, listing, [line]) == Ok([p]) by {
      var ls := [line];
      assert ls[..|ls| - 1] == [];
      assert ls[|ls| - 1] == line;
      assert LinesEntries(fs, listing, []) == Ok([]);
      assert [] + [p] == [p];
    }
    assert ListingEntries(fs, listing) == Ok([p]);
    assert AllEntries(fs, [listing]) == Ok([p]) by {
      assert [listing][..0] == [];
    }
    assert MapOf([p]) == map[fqn := p.1] by {
      assert [p][..0] == [];
    }
  }
}
