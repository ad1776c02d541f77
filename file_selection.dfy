/** File selection (check.rb `get_file_list`, `get_existing_filename`,
    `check_files_exist`): which command-line arguments name existing files. */
module FileSelection {
  import opened RubyText
  import opened Environment

  /** The file name part of an argument such as `-in=file` (check.rb:148):
      the second `=`-separated field, nil when splitting (which drops trailing
      empty fields) leaves fewer than two. */
  function SecondField(arg: string): Option<string>
  {
    var f := Split(arg, '=');
    if |f| >= 2 then Some(f[1]) else None
  }

  /** `get_existing_filename` (check.rb:145-151): the argument itself when it
      names a file, else its second `=` field when that names a file, else nil. */
  function ExistingFilename(fs: FileSystem, arg: string): (r: Option<string>)
    ensures r.Some? ==> fs.fileExists(r.value)
    ensures fs.fileExists(arg) ==> r == Some(arg)
    ensures !fs.fileExists(arg) ==>
      (r.Some? <==> SecondField(arg).Some? && fs.fileExists(SecondField(arg).value))
    ensures r.Some? && r.value != arg ==> r == SecondField(arg)
  {
    if fs.fileExists(arg) then Some(arg)
    else
      var filename := SecondField(arg);
      if filename.Some? && fs.fileExists(filename.value) then filename else None
  }

  /** `x` is the existing filename of some argument in `list`. */
  predicate FromArgument(fs: FileSystem, list: seq<string>, x: string)
  {
    exists i :: 0 <= i < |list| && ExistingFilename(fs, list[i]) == Some(x)
  }

  predicate AllExist(fs: FileSystem, list: seq<string>)
  {
    forall i :: 0 <= i < |list| ==> fs.fileExists(list[i])
  }

  /** `get_file_list` (check.rb:17-19): the file each argument names, if
      any, in argument order; arguments naming no file contribute nothing. */
  function GetFileList(fs: FileSystem, list: seq<string>): (r: seq<string>)
    ensures |r| <= |list|
    ensures forall x :: x in r ==> fs.fileExists(x) && FromArgument(fs, list, x)
    ensures AllExist(fs, list) ==> r == list
  {
    if list == [] then []
    else
      var rest := GetFileList(fs, list[1..]);
      assert forall x :: x in rest ==> FromArgument(fs, list, x) by {
        forall x | x in rest ensures FromArgument(fs, list, x) {
          var j :| 0 <= j < |list[1..]| && ExistingFilename(fs, list[1..][j]) == Some(x);
          assert list[1..][j] == list[j + 1];
        }
      }
      assert AllExist(fs, list) ==> AllExist(fs, list[1..]) && rest == list[1..] by {
        if AllExist(fs, list) {
          assert forall i :: 0 <= i < |list[1..]| ==> list[1..][i] == list[i + 1];
        }
      }
      var head := ExistingFilename(fs, list[0]);
      assert head.Some? ==> FromArgument(fs, list, head.value);
      if head.Some? then [head.value] + rest else rest
  }

  /** The selection is done argument by argument, so it keeps their order. */
  lemma {:induction false} GetFileListAppend(fs: FileSystem, a: seq<string>, b: seq<string>)
    ensures GetFileList(fs, a + b) == GetFileList(fs, a) + GetFileList(fs, b)
  {
    if a == [] {
      assert a + b == b;
    } else {
      assert (a + b)[1..] == a[1..] + b;
      GetFileListAppend(fs, a[1..], b);
    }
  }

  /** One argument contributes its existing filename, or nothing. */
  lemma GetFileListSingle(fs: FileSystem, arg: string)
    ensures GetFileList(fs, [arg]) ==
      match ExistingFilename(fs, arg) case Some(f) => [f] case None => []
  {
    assert [arg][1..] == [];
  }

  lemma {:induction false} DropTrailingEmptyKeeps(xs: seq<string>, ys: seq<string>)
    requires xs != [] && xs[|xs| - 1] != ""
    ensures |DropTrailingEmpty(xs + ys)| >= |xs|
    ensures DropTrailingEmpty(xs + ys)[..|xs|] == xs
    decreases |ys|
  {
    if ys == [] {
      assert xs + ys == xs;
    } else if ys[|ys| - 1] != "" {
      assert (xs + ys)[..|xs|] == xs;
    } else {
      assert (xs + ys)[..|xs + ys| - 1] == xs + ys[..|ys| - 1];
      DropTrailingEmptyKeeps(xs, ys[..|ys| - 1]);
    }
  }

  /** `-in=file` yields `file`; in `a=b=c` only `b` is taken (the field
      between the first and second `=`, not everything after the first). */
  lemma SecondFieldOfOption(option: string, file: string, rest: string)
    requires '=' !in option && '=' !in file && file != ""
    requires rest == "" || rest[0] == '='
    ensures SecondField(option + "=" + file + rest) == Some(file)
  {
    var arg := option + "=" + file + rest;
    assert arg == option + ['='] + (file + rest);
    SplitAllSep(option, '=', file + rest);
    var tail: seq<string>;
    if rest == "" {
      assert file + rest == file;
      SplitAllNoSep(file, '=');
      tail := [];
    } else {
      assert file + rest == file + ['='] + rest[1..];
      SplitAllSep(file, '=', rest[1..]);
      tail := SplitAll(rest[1..], '=');
    }
    assert SplitAll(arg, '=') == [option, file] + tail;
    DropTrailingEmptyKeeps([option, file], tail);
    assert Split(arg, '=')[..2] == [option, file];
    assert Split(arg, '=')[1] == Split(arg, '=')[..2][1];
  }

  /** `x=` yields no filename: the empty field after `=` is dropped. */
  lemma SecondFieldOfEmptyValue(option: string)
    requires '=' !in option
    ensures SecondField(option + "=") == None
  {
    assert option + "=" == option + ['='] + "";
    SplitAllSep(option, '=', "");
    assert SplitAll(option + "=", '=') == [option, ""];
    assert [option, ""][..1] == [option];
    if option == "" {
      assert DropTrailingEmpty([option]) == [];
    }
  }

  /** An argument without `=` has no second field. */
  lemma SecondFieldWithoutEquals(arg: string)
    requires '=' !in arg
    ensures SecondField(arg) == None
  {
    SplitAllNoSep(arg, '=');
  }

  /** `list[i]` is the first entry of `list` that names no file. */
  predicate FirstMissing(fs: FileSystem, list: seq<string>, i: int)
  {
    0 <= i < |list| && !fs.fileExists(list[i]) && forall j :: 0 <= j < i ==> fs.fileExists(list[j])
  }

  /** `check_files_exist`: the first declared file that does not exist is
      reported (the source prints it and exits); Ok when all exist. */
  function CheckFilesExist(fs: FileSystem, list: seq<string>): (r: Result<()>)
    ensures r.Ok? <==> forall i :: 0 <= i < |list| ==> fs.fileExists(list[i])
    ensures r.Err? ==> exists i :: FirstMissing(fs, list, i) && r.error == NoSuchFile(list[i])
  {
    if list == [] then Ok(())
    else if !fs.fileExists(list[0]) then Err(NoSuchFile(list[0]))
    else
      var r := CheckFilesExist(fs, list[1..]);
      assert r.Err? ==> exists i :: FirstMissing(fs, list, i) && r.error == NoSuchFile(list[i]) by {
        if r.Err? {
          var k :| FirstMissing(fs, list[1..], k) && r.error == NoSuchFile(list[1..][k]);
          assert list[1..][k] == list[k + 1];
          forall j | 0 <= j < k + 1 ensures fs.fileExists(list[j]) {
            if j > 0 { assert list[1..][j - 1] == list[j]; }
          }
        }
      }
      assert r.Ok? ==> forall i :: 0 <= i < |list| ==> fs.fileExists(list[i]) by {
        if r.Ok? {
          forall i | 0 <= i < |list| ensures fs.fileExists(list[i]) {
            if i > 0 { assert list[1..][i - 1] == list[i]; }
          }
        }
      }
      r
  }
}
