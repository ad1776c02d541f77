/** The manifest codec (check.rb `write_file`, `parse_once_only_metafile`):
    one tab-separated line per input record, the `# OUTPUT` sentinel, one
    line per output record; reading splits the text back into the two lists. */
module Manifest {
  import opened RubyText
  import opened Environment

  /** Field `k` of a record as the manifest writer prints it: a missing field (nil) prints nothing. */
  function Field(items: Record, k: nat): string
  {
    if k < |items| then items[k] else ""
  }

  /** One manifest line (check.rb:110, 112): the first three fields of the
      record, tab-separated and ending in a newline; further fields are not
      written, and a missing one prints as empty. */
  function RecordLine(items: Record): string
  {
    Field(items, 0) + "\t" + Field(items, 1) + "\t" + Field(items, 2) + "\n"
  }

  const OutputSentinel: string := "# OUTPUT\n"

  function RecordLines(rs: seq<Record>): seq<string>
  {
    if rs == [] then [] else RecordLines(rs[..|rs| - 1]) + [RecordLine(rs[|rs| - 1])]
  }

  /** The text `write_file` leaves in the file: inputs, the sentinel (always,
      even without outputs), outputs. */
  function Rendered(ins: seq<Record>, outs: seq<Record>): string
  {
    Concat(RecordLines(ins) + [OutputSentinel] + RecordLines(outs))
  }

  /** `write_file`: prints the lines one after another. The file is
      represented by the text written to it. */
  method WriteFile(ins: seq<Record>, outs: seq<Record> := []) returns (text: string)
    ensures text == Rendered(ins, outs)
  {
    text := "";
    for i := 0 to |ins|
      invariant text == Concat(RecordLines(ins[..i]))
    {
      assert ins[..i + 1][..i] == ins[..i];
      ConcatAppend(RecordLines(ins[..i]), [RecordLine(ins[i])]);
      text := text + RecordLine(ins[i]);
    }
    assert ins[..|ins|] == ins;
    ConcatAppend(RecordLines(ins), [OutputSentinel]);
    text := text + OutputSentinel;
    ghost var head := RecordLines(ins) + [OutputSentinel];
    assert text == Concat(head);
    assert RecordLines(outs[..0]) == [] && head + [] == head;
    for i := 0 to |outs|
      invariant text == Concat(head + RecordLines(outs[..i]))
    {
      assert outs[..i + 1][..i] == outs[..i];
      assert head + RecordLines(outs[..i + 1]) == (head + RecordLines(outs[..i])) + [RecordLine(outs[i])];
      ConcatAppend(head + RecordLines(outs[..i]), [RecordLine(outs[i])]);
      text := text + RecordLine(outs[i]);
    }
    assert outs[..|outs|] == outs;
    assert head + RecordLines(outs) == RecordLines(ins) + [OutputSentinel] + RecordLines(outs);
  }

  // ---------------------------------------------------------------------
  // Reading

  datatype ParseState = ParseState(ins: seq<Record>, outs: seq<Record>, outputSection: bool)

  const Start := ParseState([], [], false)

  /** One pass of the line loop: a line starting with `# OUTPUT` switches to
      the output section for good; every line starting with `#` is skipped;
      any other line is stripped and split on tabs and pushed on the current
      section's list. */
  function Step(st: ParseState, s: string): ParseState
  {
    var section := st.outputSection || StartsWith(s, "# OUTPUT");
    if StartsWith(s, "#") then st.(outputSection := section)
    else
      var fields := Split(Strip(s), '\t');
      if section then ParseState(st.ins, st.outs + [fields], section)
      else ParseState(st.ins + [fields], st.outs, section)
  }

  function StepAll(st: ParseState, lines: seq<string>): ParseState
  {
    if lines == [] then st else Step(StepAll(st, lines[..|lines| - 1]), lines[|lines| - 1])
  }

  /** The two lists `parse_once_only_metafile` returns for a file's text. */
  function Parsed(text: string): (seq<Record>, seq<Record>)
  {
    var st := StepAll(Start, Lines(text));
    (st.ins, st.outs)
  }

  /** `parse_once_only_metafile`, on the text of the file. */
  method ParseMetafile(text: string) returns (inList: seq<Record>, outList: seq<Record>)
    ensures (inList, outList) == Parsed(text)
  {
    var lines := Lines(text);
    inList, outList := [], [];
    var outputSection := false;
    for i := 0 to |lines|
      invariant StepAll(Start, lines[..i]) == ParseState(inList, outList, outputSection)
    {
      assert lines[..i + 1][..i] == lines[..i];
      var s := lines[i];
      if StartsWith(s, "# OUTPUT") {
        outputSection := true;
      }
      if StartsWith(s, "#") {
        continue;
      }
      var fields := Split(Strip(s), '\t');
      if outputSection {
        outList := outList + [fields];
      } else {
        inList := inList + [fields];
      }
    }
    assert lines[..|lines|] == lines;
  }

  // ---------------------------------------------------------------------
  // Round trip

  /** A record that survives being written and read back: three fields
      without tabs or newlines, a first field that does not start with `#` or
      whitespace, and a non-empty last field that does not end in whitespace
      (`strip` would eat it; an empty last field is dropped by `split`). */
  predicate Writable(r: Record)
  {
    |r| == 3 &&
    (forall k :: 0 <= k < 3 ==> '\t' !in r[k] && '\n' !in r[k]) &&
    r[0] != "" && r[0][0] != '#' && !IsStripSpace(r[0][0]) &&
    r[2] != "" && !IsStripSpace(r[2][|r[2]| - 1])
  }

  lemma RecordLineIsLine(r: Record)
    requires Writable(r)
    ensures IsLine(RecordLine(r))
  {
    var l := RecordLine(r);
    forall i | 0 <= i < |l| - 1 ensures l[i] != '\n' {
      if i < |r[0]| {
        assert l[i] == r[0][i];
      } else if |r[0]| < i < |r[0]| + 1 + |r[1]| {
        assert l[i] == r[1][i - |r[0]| - 1];
      } else if |r[0]| + 1 + |r[1]| < i {
        assert l[i] == r[2][i - |r[0]| - 2 - |r[1]|];
      }
    }
  }

  lemma {:induction false} RecordLinesAreLines(rs: seq<Record>)
    requires forall i :: 0 <= i < |rs| ==> Writable(rs[i])
    ensures forall i :: 0 <= i < |RecordLines(rs)| ==> IsLine(RecordLines(rs)[i])
    ensures |RecordLines(rs)| == |rs|
  {
    if rs != [] {
      RecordLinesAreLines(rs[..|rs| - 1]);
      RecordLineIsLine(rs[|rs| - 1]);
    }
  }

  lemma {:induction false} StripRightKeeps(x: string)
    requires x != [] && !IsStripSpace(x[|x| - 1])
    ensures StripRight(x + "\n") == x
  {
    assert (x + "\n")[..|x + "\n"| - 1] == x;
  }

  /** The fields of a written line, once stripped and split on tabs. */
  lemma FieldsOfRecordLine(r: Record)
    requires Writable(r)
    ensures Split(Strip(RecordLine(r)), '\t') == r
  {
    var line := RecordLine(r);
    var body := r[0] + "\t" + r[1] + "\t" + r[2];
    assert line == body + "\n";
    StripRightKeeps(body);
    assert body[0] == r[0][0];
    assert Strip(line) == body;
    SplitOfBody(r);
  }

  lemma SplitOfBody(r: Record)
    requires Writable(r)
    ensures Split(r[0] + "\t" + r[1] + "\t" + r[2], '\t') == r
  {
    var body := r[0] + "\t" + r[1] + "\t" + r[2];
    assert body == r[0] + ['\t'] + (r[1] + ['\t'] + r[2]);
    SplitAllSep(r[0], '\t', r[1] + ['\t'] + r[2]);
    SplitAllSep(r[1], '\t', r[2]);
    SplitAllNoSep(r[2], '\t');
    assert SplitAll(body, '\t') == [r[0], r[1], r[2]];
    assert [r[0], r[1], r[2]] == r;
  }

  /** What a written line reads back as. */
  lemma StepRecordLine(st: ParseState, r: Record)
    requires Writable(r)
    ensures Step(st, RecordLine(r)) ==
      if st.outputSection then st.(outs := st.outs + [r]) else st.(ins := st.ins + [r])
  {
    var line := RecordLine(r);
    assert line[0] == r[0][0];
    assert !StartsWith(line, "#") && !StartsWith(line, "# OUTPUT");
    FieldsOfRecordLine(r);
  }

  lemma {:induction false} StepAllAppend(st: ParseState, a: seq<string>, b: seq<string>)
    ensures StepAll(st, a + b) == StepAll(StepAll(st, a), b)
    decreases |b|
  {
    if b == [] {
      assert a + b == a;
    } else {
      assert (a + b)[..|a + b| - 1] == a + b[..|b| - 1];
      StepAllAppend(st, a, b[..|b| - 1]);
    }
  }

  /** Reading written records appends them to the current section. */
  lemma StepAllSnoc(st: ParseState, lines: seq<string>, l: string)
    ensures StepAll(st, lines + [l]) == Step(StepAll(st, lines), l)
  {
    assert (lines + [l])[..|lines|] == lines;
  }

  lemma RecordLinesSnoc(rs: seq<Record>, r: Record)
    ensures RecordLines(rs + [r]) == RecordLines(rs) + [RecordLine(r)]
  {
    assert (rs + [r])[..|rs|] == rs;
  }

  /** A record pushed on the current section's list. */
  function AppendRecord(st: ParseState, r: Record): ParseState
  {
    if st.outputSection then st.(outs := st.outs + [r]) else st.(ins := st.ins + [r])
  }

  lemma StepAllRecordsSnoc(st: ParseState, init: seq<Record>, last: Record)
    requires Writable(last)
    ensures StepAll(st, RecordLines(init + [last])) == AppendRecord(StepAll(st, RecordLines(init)), last)
  {
    RecordLinesSnoc(init, last);
    StepAllSnoc(st, RecordLines(init), RecordLine(last));
    StepRecordLine(StepAll(st, RecordLines(init)), last);
  }

  lemma {:induction false} StepAllRecords(st: ParseState, rs: seq<Record>)
    requires forall i :: 0 <= i < |rs| ==> Writable(rs[i])
    ensures StepAll(st, RecordLines(rs)) ==
      if st.outputSection then st.(outs := st.outs + rs) else st.(ins := st.ins + rs)
  {
    if rs == [] {
      assert st.outs + rs == st.outs && st.ins + rs == st.ins;
    } else {
      var init, last := rs[..|rs| - 1], rs[|rs| - 1];
      assert rs == init + [last];
      StepAllRecords(st, init);
      StepAllRecordsSnoc(st, init, last);
      if st.outputSection {
        assert st.outs + init + [last] == st.outs + rs;
      } else {
        assert st.ins + init + [last] == st.ins + rs;
      }
    }
  }

  /** each_line splits the written text back into the written lines. */
  lemma LinesOfRendered(ins: seq<Record>, outs: seq<Record>)
    requires forall i :: 0 <= i < |ins| ==> Writable(ins[i])
    requires forall i :: 0 <= i < |outs| ==> Writable(outs[i])
    ensures Lines(Rendered(ins, outs)) == RecordLines(ins) + [OutputSentinel] + RecordLines(outs)
  {
    var ls := RecordLines(ins) + [OutputSentinel] + RecordLines(outs);
    RecordLinesAreLines(ins);
    RecordLinesAreLines(outs);
    forall i | 0 <= i < |ls| ensures IsLine(ls[i]) {
      if i < |ins| {
        assert ls[i] == RecordLines(ins)[i];
      } else if i > |ins| {
        assert ls[i] == RecordLines(outs)[i - |ins| - 1];
      }
    }
    LinesOfConcat(ls);
  }

  /** Reading back what `write_file` wrote returns the records written, each
      section in order, when every record is writable. */
  lemma RoundTrip(ins: seq<Record>, outs: seq<Record>)
    requires forall i :: 0 <= i < |ins| ==> Writable(ins[i])
    requires forall i :: 0 <= i < |outs| ==> Writable(outs[i])
    ensures Parsed(Rendered(ins, outs)) == (ins, outs)
  {
    LinesOfRendered(ins, outs);
    StepAllAppend(Start, RecordLines(ins) + [OutputSentinel], RecordLines(outs));
    StepAllAppend(Start, RecordLines(ins), [OutputSentinel]);
    StepAllRecords(Start, ins);
    assert [] + ins == ins && [] + outs == outs;
    var afterIns := ParseState(ins, [], false);
    assert StepAll(Start, RecordLines(ins)) == afterIns;
    assert StepAll(afterIns, [OutputSentinel]) == Step(afterIns, OutputSentinel) by {
      assert [OutputSentinel][..0] == [];
    }
    assert Step(afterIns, OutputSentinel) == ParseState(ins, [], true);
    StepAllRecords(ParseState(ins, [], true), outs);
    assert StepAll(Start, Lines(Rendered(ins, outs))) == ParseState(ins, outs, true);
  }

  /** An input-only manifest (no output records) reads back with an empty
      output section. */
  lemma InputOnlyRoundTrip(ins: seq<Record>)
    requires forall i :: 0 <= i < |ins| ==> Writable(ins[i])
    ensures Parsed(Rendered(ins, [])) == (ins, [])
  {
    RoundTrip(ins, []);
  }
}
