/** Ruby's string and array primitives that check.rb relies on, written out on
    `seq<char>`: nil-able reads, whitespace splitting (`String#split` with no
    argument), splitting on one character (`String#split("\t")`, `split(/=/)`),
    `strip`, `each_line`, `Array#join` and the `/\.md5$/` test. */
module RubyText {

  datatype Option<+T> = None | Some(value: T)

  /** Ruby's `a[i]` on an array of strings: nil past the end. */
  function At(a: seq<string>, i: nat): Option<string>
  {
    if i < |a| then Some(a[i]) else None
  }

  /** The characters of Ruby's `\s` and of awk-style `split`. */
  predicate IsSpace(c: char)
  {
    c == ' ' || c == '\t' || c == '\n' || c == '\U{B}' || c == '\U{C}' || c == '\r'
  }

  /** The characters `String#strip` removes: whitespace and NUL. */
  predicate IsStripSpace(c: char)
  {
    IsSpace(c) || c == '\0'
  }

  /** `s =~ /\s+/`: some whitespace character occurs in `s`. */
  predicate HasSpace(s: string)
  {
    exists i :: 0 <= i < |s| && IsSpace(s[i])
  }

  predicate StartsWith(s: string, p: string)
  {
    |p| <= |s| && s[..|p|] == p
  }

  // ---------------------------------------------------------------------
  // String#split with no argument: runs of whitespace separate words,
  // leading and trailing whitespace yield nothing.

  function NonSpacePrefix(s: string): (k: nat)
    ensures k <= |s|
    ensures s != [] && !IsSpace(s[0]) ==> 1 <= k
  {
    if s == [] || IsSpace(s[0]) then 0 else 1 + NonSpacePrefix(s[1..])
  }

  function Words(s: string): seq<string>
    decreases |s|
  {
    if s == [] then []
    else if IsSpace(s[0]) then Words(s[1..])
    else
      var k := NonSpacePrefix(s);
      [s[..k]] + Words(s[k..])
  }

  predicate NoSpace(w: string)
  {
    forall i :: 0 <= i < |w| ==> !IsSpace(w[i])
  }

  predicate AllSpace(w: string)
  {
    forall i :: 0 <= i < |w| ==> IsSpace(w[i])
  }

  lemma {:induction false} NonSpacePrefixOfWord(w: string, rest: string)
    requires NoSpace(w)
    requires rest == [] || IsSpace(rest[0])
    ensures NonSpacePrefix(w + rest) == |w|
  {
    if w == [] {
      assert w + rest == rest;
    } else {
      assert (w + rest)[1..] == w[1..] + rest;
      NonSpacePrefixOfWord(w[1..], rest);
    }
  }

  /** A word followed by whitespace (or the end) is the first word. */
  lemma WordsOfWord(w: string, rest: string)
    requires w != [] && NoSpace(w)
    requires rest == [] || IsSpace(rest[0])
    ensures Words(w + rest) == [w] + Words(rest)
  {
    NonSpacePrefixOfWord(w, rest);
    assert (w + rest)[..|w|] == w;
    assert (w + rest)[|w|..] == rest;
  }

  /** Leading whitespace is skipped. */
  lemma {:induction false} WordsSkipSpace(sp: string, rest: string)
    requires AllSpace(sp)
    ensures Words(sp + rest) == Words(rest)
  {
    if sp == [] {
      assert sp + rest == rest;
    } else {
      assert (sp + rest)[1..] == sp[1..] + rest;
      WordsSkipSpace(sp[1..], rest);
    }
  }

  // ---------------------------------------------------------------------
  // IO#each_line: every line keeps its "\n"; a last line without one is
  // still yielded; the empty file has no lines.

  function LineLength(s: string): (k: nat)
    requires s != []
    ensures 1 <= k <= |s|
  {
    if s[0] == '\n' || |s| == 1 then 1 else 1 + LineLength(s[1..])
  }

  function Lines(s: string): seq<string>
    decreases |s|
  {
    if s == [] then []
    else
      var k := LineLength(s);
      [s[..k]] + Lines(s[k..])
  }

  /** One complete line: ends in its only "\n". */
  predicate IsLine(l: string)
  {
    |l| >= 1 && l[|l| - 1] == '\n' && forall i :: 0 <= i < |l| - 1 ==> l[i] != '\n'
  }

  function Concat(ls: seq<string>): string
  {
    if ls == [] then "" else ls[0] + Concat(ls[1..])
  }

  lemma {:induction false} LineLengthOfLine(l: string, rest: string)
    requires IsLine(l)
    ensures LineLength(l + rest) == |l|
  {
    if |l| > 1 {
      assert (l + rest)[1..] == l[1..] + rest;
      LineLengthOfLine(l[1..], rest);
    }
  }

  /** each_line recovers the lines that were written one after another. */
  lemma {:induction false} LinesOfConcat(ls: seq<string>)
    requires forall i :: 0 <= i < |ls| ==> IsLine(ls[i])
    ensures Lines(Concat(ls)) == ls
  {
    if ls != [] {
      var rest := Concat(ls[1..]);
      LineLengthOfLine(ls[0], rest);
      assert (ls[0] + rest)[..|ls[0]|] == ls[0];
      assert (ls[0] + rest)[|ls[0]|..] == rest;
      LinesOfConcat(ls[1..]);
      assert ls == [ls[0]] + ls[1..];
    }
  }

  lemma {:induction false} ConcatAppend(a: seq<string>, b: seq<string>)
    ensures Concat(a + b) == Concat(a) + Concat(b)
  {
    if a == [] {
      assert a + b == b;
    } else {
      assert (a + b)[1..] == a[1..] + b;
      ConcatAppend(a[1..], b);
    }
  }

  // ---------------------------------------------------------------------
  // String#strip

  function StripLeft(s: string): string
  {
    if s != [] && IsStripSpace(s[0]) then StripLeft(s[1..]) else s
  }

  function StripRight(s: string): string
  {
    if s != [] && IsStripSpace(s[|s| - 1]) then StripRight(s[..|s| - 1]) else s
  }

  function Strip(s: string): string
  {
    StripLeft(StripRight(s))
  }

  // ---------------------------------------------------------------------
  // String#split on one character, as `split("\t")` and `split(/=/)` do it:
  // every separator splits, then trailing empty fields are dropped.

  function SplitAll(s: string, c: char): (r: seq<string>)
    ensures |r| >= 1
  {
    if s == [] then [""]
    else
      var rest := SplitAll(s[1..], c);
      if s[0] == c then [""] + rest else [[s[0]] + rest[0]] + rest[1..]
  }

  function DropTrailingEmpty(xs: seq<string>): seq<string>
  {
    if xs == [] || xs[|xs| - 1] != "" then xs else DropTrailingEmpty(xs[..|xs| - 1])
  }

  function Split(s: string, c: char): seq<string>
  {
    DropTrailingEmpty(SplitAll(s, c))
  }

  lemma {:induction false} SplitAllNoSep(a: string, c: char)
    requires c !in a
    ensures SplitAll(a, c) == [a]
  {
    if a != [] {
      SplitAllNoSep(a[1..], c);
      assert [a[0]] + a[1..] == a;
    }
  }

  lemma {:induction false} SplitAllSep(a: string, c: char, rest: string)
    requires c !in a
    ensures SplitAll(a + [c] + rest, c) == [a] + SplitAll(rest, c)
  {
    if a == [] {
      assert a + [c] + rest == [c] + rest;
      assert ([c] + rest)[1..] == rest;
    } else {
      assert (a + [c] + rest)[1..] == a[1..] + [c] + rest;
      SplitAllSep(a[1..], c, rest);
      assert [a[0]] + a[1..] == a;
    }
  }

  // ---------------------------------------------------------------------
  // Array#join(sep) on an array of strings

  function Join(xs: seq<string>, sep: string): string
  {
    if xs == [] then ""
    else if |xs| == 1 then xs[0]
    else xs[0] + sep + Join(xs[1..], sep)
  }

  lemma {:induction false} JoinAppend(a: seq<string>, b: seq<string>, sep: string)
    requires a != [] && b != []
    ensures Join(a + b, sep) == Join(a, sep) + sep + Join(b, sep)
  {
    if |a| == 1 {
      assert (a + b)[1..] == b;
    } else {
      assert (a + b)[1..] == a[1..] + b;
      JoinAppend(a[1..], b, sep);
    }
  }

  // ---------------------------------------------------------------------
  // `fn =~ /\.md5$/`: Ruby's `$` is the end of a LINE, so ".md5" must stand
  // at the end of the string or right before a "\n".

  predicate Md5LineEnd(s: string)
    decreases |s|
  {
    if |s| < 4 then false
    else (s[..4] == ".md5" && (|s| == 4 || s[4] == '\n')) || Md5LineEnd(s[1..])
  }

  predicate EndsWith(s: string, suffix: string)
  {
    |suffix| <= |s| && s[|s| - |suffix|..] == suffix
  }

  /** For names without a newline the test is exactly "ends in .md5". */
  lemma {:induction false} Md5LineEndIsSuffix(s: string)
    requires '\n' !in s
    ensures Md5LineEnd(s) <==> EndsWith(s, ".md5")
  {
    if |s| >= 4 {
      if |s| > 4 {
        assert s[4] in s;
        assert '\n' !in s[1..] by {
          forall i | 0 <= i < |s| - 1 ensures s[1..][i] != '\n' {
            assert s[1..][i] == s[i + 1];
            assert s[i + 1] in s;
          }
        }
        Md5LineEndIsSuffix(s[1..]);
        assert s[1..][|s| - 1 - 4..] == s[|s| - 4..];
      }
    }
  }
}
