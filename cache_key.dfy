/** Cache-key naming (check.rb `make_once_only_filename`): the manifest's
    name is the prefix, a dash, the SHA1 of the records joined by newlines,
    and `.txt`. SHA1 (Digest::SHA1 or its pure-Ruby fallback, which compute
    the same digest) is a parameter. */
module CacheKey {
  import opened RubyText
  import opened Environment

  /** Each record joined by "\n", as Array#join does for a nested array. */
  function RecordTexts(rs: seq<Record>): (r: seq<string>)
    ensures |r| == |rs|
  {
    if rs == [] then [] else [Join(rs[0], "\n")] + RecordTexts(rs[1..])
  }

  /** The text that is hashed (check.rb:104): joining an array of records
      joins nested arrays too, so a newline goes between the fields of a
      record and between records alike. */
  function Buffer(rs: seq<Record>): string
  {
    Join(RecordTexts(rs), "\n")
  }

  function Flatten(rs: seq<Record>): seq<string>
  {
    if rs == [] then [] else rs[0] + Flatten(rs[1..])
  }

  /** The cache file name (check.rb:103-106): the prefix, a dash, the SHA1
      digest of the buffer and `.txt`; the prefix defaults to `once-only`.
      The digest and the prefix can be read back off the name. */
  function MakeOnceOnlyFilename(sha1: string -> string, checksums: seq<Record>, prefix: string := "once-only"): (name: string)
    ensures |name| == |prefix| + |sha1(Buffer(checksums))| + 5
    ensures name[..|prefix|] == prefix && name[|prefix|] == '-'
    ensures name[|prefix| + 1..|name| - 4] == sha1(Buffer(checksums))
    ensures name[|name| - 4..] == ".txt"
  {
    prefix + "-" + sha1(Buffer(checksums)) + ".txt"
  }

  /** For one prefix, two manifest names agree exactly when the digests of
      their buffers agree. */
  lemma SameNameIffSameDigest(sha1: string -> string, a: seq<Record>, b: seq<Record>, prefix: string)
    ensures MakeOnceOnlyFilename(sha1, a, prefix) == MakeOnceOnlyFilename(sha1, b, prefix) <==>
      sha1(Buffer(a)) == sha1(Buffer(b))
  {
    var na := MakeOnceOnlyFilename(sha1, a, prefix);
    var nb := MakeOnceOnlyFilename(sha1, b, prefix);
    if na == nb {
      assert na[|prefix| + 1..|na| - 4] == nb[|prefix| + 1..|nb| - 4];
    }
  }

  /** For records that are not empty, the nested join is the join of all
      fields: every field, not just every record, is separated by "\n". */
  lemma {:induction false} BufferFlattens(rs: seq<Record>)
    requires forall i :: 0 <= i < |rs| ==> rs[i] != []
    ensures Buffer(rs) == Join(Flatten(rs), "\n")
  {
    if |rs| > 1 {
      BufferFlattens(rs[1..]);
      assert Flatten(rs[1..]) != [] by {
        assert rs[1..][0] == rs[1];
      }
      JoinAppend(rs[0], Flatten(rs[1..]), "\n");
      var texts := RecordTexts(rs);
      assert texts[1..] == RecordTexts(rs[1..]);
    } else if |rs| == 1 {
      assert Flatten(rs) == rs[0] + Flatten(rs[1..]);
      assert rs[0] + [] == rs[0];
    }
  }

  /** An empty record still contributes its separator. */
  lemma EmptyRecordKeepsSeparator(x: string)
    ensures Buffer([[], [x]]) == "\n" + x
    ensures Join(Flatten([[], [x]]), "\n") == x
  {
    assert RecordTexts([[x]]) == [x];
    assert RecordTexts([[], [x]]) == ["", x];
    assert Flatten([[x]]) == [x];
    assert Flatten([[], [x]]) == [] + Flatten([[x]]);
  }

  predicate NewlineFree(xs: seq<string>)
  {
    forall i :: 0 <= i < |xs| ==> '\n' !in xs[i]
  }

  lemma {:induction false} JoinHasSeparator(xs: seq<string>)
    requires |xs| >= 2
    ensures '\n' in Join(xs, "\n")
  {
    assert Join(xs, "\n")[|xs[0]|] == '\n';
  }

  function FirstNewline(s: string): nat
    requires '\n' in s
  {
    if s[0] == '\n' then 0 else 1 + FirstNewline(s[1..])
  }

  lemma {:induction false} FirstNewlineAfter(x: string, t: string)
    requires '\n' !in x
    ensures '\n' in x + "\n" + t && FirstNewline(x + "\n" + t) == |x|
  {
    var s := x + "\n" + t;
    assert s[|x|] == '\n';
    if x != [] {
      assert x[0] in x;
      assert s[1..] == x[1..] + "\n" + t;
      FirstNewlineAfter(x[1..], t);
    }
  }

  /** Joining newline-free fields loses nothing. */
  lemma {:induction false} JoinInjective(xs: seq<string>, ys: seq<string>)
    requires xs != [] && ys != [] && NewlineFree(xs) && NewlineFree(ys)
    requires Join(xs, "\n") == Join(ys, "\n")
    ensures xs == ys
  {
    assert '\n' !in xs[0] && '\n' !in ys[0];
    if |xs| == 1 || |ys| == 1 {
      if |xs| >= 2 { JoinHasSeparator(xs); }
      if |ys| >= 2 { JoinHasSeparator(ys); }
    } else {
      var s := Join(xs, "\n");
      var x, y := xs[0], ys[0];
      assert s == x + "\n" + Join(xs[1..], "\n");
      assert s == y + "\n" + Join(ys[1..], "\n");
      FirstNewlineAfter(x, Join(xs[1..], "\n"));
      FirstNewlineAfter(y, Join(ys[1..], "\n"));
      assert x == s[..|x|] == y;
      assert Join(xs[1..], "\n") == s[|x| + 1..] == Join(ys[1..], "\n");
      assert NewlineFree(xs[1..]) by {
        forall i | 0 <= i < |xs[1..]| ensures '\n' !in xs[1..][i] { assert xs[1..][i] == xs[i + 1]; }
      }
      assert NewlineFree(ys[1..]) by {
        forall i | 0 <= i < |ys[1..]| ensures '\n' !in ys[1..][i] { assert ys[1..][i] == ys[i + 1]; }
      }
      JoinInjective(xs[1..], ys[1..]);
      assert xs == [x] + xs[1..] && ys == [y] + ys[1..];
    }
  }

  /** A key record: three newline-free fields, as calc_file_checksums builds. */
  predicate KeyRecord(r: Record)
  {
    |r| == 3 && NewlineFree(r)
  }

  lemma {:induction false} FlattenKeyRecords(rs: seq<Record>)
    requires forall i :: 0 <= i < |rs| ==> KeyRecord(rs[i])
    ensures |Flatten(rs)| == 3 * |rs| && NewlineFree(Flatten(rs))
  {
    if rs != [] {
      FlattenKeyRecords(rs[1..]);
      var f := Flatten(rs);
      assert f == rs[0] + Flatten(rs[1..]);
      forall i | 0 <= i < |f| ensures '\n' !in f[i] {
        if i < 3 { assert f[i] == rs[0][i]; } else { assert f[i] == Flatten(rs[1..])[i - 3]; }
      }
    }
  }

  lemma {:induction false} FlattenInjective(a: seq<Record>, b: seq<Record>)
    requires forall i :: 0 <= i < |a| ==> |a[i]| == 3
    requires forall i :: 0 <= i < |b| ==> |b[i]| == 3
    requires Flatten(a) == Flatten(b)
    ensures a == b
  {
    FlattenLength(a);
    FlattenLength(b);
    if a != [] {
      var f := Flatten(a);
      assert f[..3] == a[0];
      assert Flatten(b)[..3] == b[0];
      assert f[3..] == Flatten(a[1..]);
      assert Flatten(b)[3..] == Flatten(b[1..]);
      FlattenInjective(a[1..], b[1..]);
      assert a == [a[0]] + a[1..] && b == [b[0]] + b[1..];
    }
  }

  lemma {:induction false} FlattenLength(rs: seq<Record>)
    requires forall i :: 0 <= i < |rs| ==> |rs[i]| == 3
    ensures |Flatten(rs)| == 3 * |rs|
  {
    if rs != [] {
      FlattenLength(rs[1..]);
    }
  }

  /** Two lists of key records share a buffer only when they are the same
      list: two invocations can address the same manifest only through equal
      ordered fingerprints or a SHA1 collision. */
  lemma BufferInjective(a: seq<Record>, b: seq<Record>)
    requires forall i :: 0 <= i < |a| ==> KeyRecord(a[i])
    requires forall i :: 0 <= i < |b| ==> KeyRecord(b[i])
    requires Buffer(a) == Buffer(b)
    ensures a == b
  {
    BufferFlattens(a);
    BufferFlattens(b);
    FlattenKeyRecords(a);
    FlattenKeyRecords(b);
    if a == [] || b == [] {
      if a != [] { JoinHasSeparator(Flatten(a)); }
      if b != [] { JoinHasSeparator(Flatten(b)); }
    } else {
      JoinInjective(Flatten(a), Flatten(b));
      FlattenInjective(a, b);
    }
  }
}
