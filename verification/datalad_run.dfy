/** The `datalad run` command of `participant_job.sh` (babs/utils.py,
    `generate_cmd_datalad_run`). The command is modelled as its list of lines,
    each written followed by a newline. */
module DataladRun {
  import opened Wrappers
  import opened Text
  import opened Types
  import opened ZipScripts
  import opened Seqs

  /** The parts of the container record the command uses. */
  datatype Container = Container(containerName: string, pathRelToAnalysis: string, config: Config)

  const Header: string := "datalad run \\"
  const ExpandLine: string := "\t--expand inputs \\"
  const ExplicitLine: string := "\t--explicit \\"

  function InputLine(path: string): string {
    "\t-i " + path + " \\"
  }

  lemma InputLineStarts(path: string)
    ensures StartsWith(InputLine(path), "\t-i ")
  {
    assert InputLine(path) == "\t-i " + (path + " \\");
    StartsWithAppend("\t-i ", path + " \\");
  }

  /** The `-i` lines of one input dataset: the subject (and session) folder
      and the JSON sidecars of an unzipped dataset, or the archive variable of
      a zipped one. */
  function DatasetInputLines(st: SessionType, ds: InputDs): (r: seq<string>)
    ensures forall i :: 0 <= i < |r| ==> StartsWith(r[i], "\t-i ")
  {
    if !ds.isZipped then
      var folder := ds.pathNowRel + "/" + (if st == MultiSes then "${subid}/${sesid}" else "${subid}");
      InputLineStarts(folder);
      InputLineStarts(ds.pathNowRel + "/" + "*json");
      [InputLine(folder), InputLine(ds.pathNowRel + "/" + "*json")]
    else
      InputLineStarts("${" + Upper(ds.name) + "_ZIP}");
      [InputLine("${" + Upper(ds.name) + "_ZIP}")]
  }

  function AllDatasetInputLines(st: SessionType, inputDs: seq<InputDs>): (r: seq<string>)
    ensures forall i :: 0 <= i < |r| ==> StartsWith(r[i], "\t-i ")
    decreases |inputDs|
  {
    if |inputDs| == 0 then []
    else DatasetInputLines(st, inputDs[0]) + AllDatasetInputLines(st, inputDs[1..])
  }

  predicate AnyUnzipped(inputDs: seq<InputDs>) {
    exists i :: 0 <= i < |inputDs| && !inputDs[i].isZipped
  }

  /** One `-o` line per `babs_zip_foldername` item. */
  function OutputLine(st: SessionType, folder: string, version: string): string {
    FixedCmd(st) + ArchiveTail(folder, version) + " \\"
  }

  /** `fixed_cmd` in the source: the start of every `-o` line. */
  function FixedCmd(st: SessionType): string {
    "\t-o ${subid}_" + (if st == MultiSes then "${sesid}_" else "")
  }

  lemma FixedCmdSplit(st: SessionType)
    ensures FixedCmd(st) == "\t-o " + ("${subid}" + SesPart(st) + "_")
  {
    if st == MultiSes {
      assert "\t-o ${subid}_" + "${sesid}_" == "\t-o " + ("${subid}" + "_${sesid}" + "_");
    } else {
      assert "\t-o ${subid}_" == "\t-o " + ("${subid}" + "" + "_");
    }
  }

  function OutputLinesOf(st: SessionType, sec: seq<(string, Val)>): (r: Result<seq<string>, Error>)
    ensures r.Ok? <==> AllValuesStr(sec)
    ensures r.Ok? ==> |r.value| == |sec|
    ensures r.Ok? ==> forall i :: 0 <= i < |sec| ==> r.value[i] == OutputLine(st, sec[i].0, sec[i].1.s)
    decreases |sec|
  {
    if |sec| == 0 then Ok([])
    else
      assert forall i :: 1 <= i < |sec| ==> sec[1..][i - 1] == sec[i];
      if sec[0].1.Null? then Err(NullValue(sec[0].0))
      else
        var rest :- OutputLinesOf(st, sec[1..]);
        Ok([OutputLine(st, sec[0].0, sec[0].1.s)] + rest)
  }

  function ZipArgs(inputDs: seq<InputDs>): string
    decreases |inputDs|
  {
    if |inputDs| == 0 then ""
    else (if inputDs[0].isZipped then " ${" + Upper(inputDs[0].name) + "_ZIP}" else "") + ZipArgs(inputDs[1..])
  }

  function MessageLine(container: Container, st: SessionType): string {
    "\t-m \"" + container.containerName + " ${subid}" + SesWord(st) + "\" \\"
  }

  function CommandLine(container: Container, inputDs: seq<InputDs>, st: SessionType): string {
    "\t\"bash ./code/" + container.containerName + "_zip.sh ${subid}" + SesWord(st) + ZipArgs(inputDs) + "\""
  }

  /** The lines before the outputs. */
  function InputPart(container: Container, inputDs: seq<InputDs>, st: SessionType): seq<string> {
    [Header, InputLine("code/" + container.containerName + "_zip.sh")]
    + AllDatasetInputLines(st, inputDs)
    + [InputLine(container.pathRelToAnalysis)]
    + (if AnyUnzipped(inputDs) then [ExpandLine] else [])
    + [ExplicitLine]
  }

  function DataladRunLines(container: Container, inputDs: seq<InputDs>, st: SessionType): (r: Result<seq<string>, Error>)
    ensures container.config.zipFoldername.None? ==> r == Err(MissingSection("babs_zip_foldername"))
    ensures r.Ok? <==> container.config.zipFoldername.Some? && AllValuesStr(container.config.zipFoldername.value)
  {
    if container.config.zipFoldername.None? then Err(MissingSection("babs_zip_foldername"))
    else
      var outputs :- OutputLinesOf(st, container.config.zipFoldername.value);
      Ok(InputPart(container, inputDs, st) + outputs + [MessageLine(container, st), CommandLine(container, inputDs, st)])
  }

  function Terminate(lines: seq<string>): seq<string> {
    seq(|lines|, i requires 0 <= i < |lines| => lines[i] + "\n")
  }

  /** The command text: its lines, each followed by a newline. It exists
      exactly when the zip section is present with string versions; it asks
      for `--expand inputs` exactly when some dataset is unzipped, and it
      declares one `-o` output per zip folder, in section order. */
  function GenerateCmdDataladRun(container: Container, inputDs: seq<InputDs>, st: SessionType): (r: Result<string, Error>)
    ensures container.config.zipFoldername.None? ==> r == Err(MissingSection("babs_zip_foldername"))
    ensures r.Ok? <==> container.config.zipFoldername.Some? && AllValuesStr(container.config.zipFoldername.value)
    ensures r.Ok? ==> r.value == Concat(Terminate(DataladRunLines(container, inputDs, st).value))
    ensures r.Ok? ==> (ExpandLine in DataladRunLines(container, inputDs, st).value <==> AnyUnzipped(inputDs))
    ensures r.Ok? ==>
      |Outputs(DataladRunLines(container, inputDs, st).value)| == |container.config.zipFoldername.value|
    ensures r.Ok? ==> forall i :: 0 <= i < |container.config.zipFoldername.value| ==>
      Outputs(DataladRunLines(container, inputDs, st).value)[i] ==
        "\t-o " + ZipArchiveName(st, container.config.zipFoldername.value[i].0,
                                 container.config.zipFoldername.value[i].1.s) + " \\"
  {
    var lines :- DataladRunLines(container, inputDs, st);
    DataladRunExpandsInputs(container, inputDs, st);
    DataladRunOutputs(container, inputDs, st);
    Ok(Concat(Terminate(lines)))
  }

  function IsOutputLine(): string -> bool {
    line => StartsWith(line, "\t-o ")
  }

  /** The `-o` lines among a list of lines, in order. */
  function Outputs(lines: seq<string>): (r: seq<string>)
    ensures forall i :: 0 <= i < |r| ==> r[i] in lines && StartsWith(r[i], "\t-o ")
    ensures forall i :: 0 <= i < |lines| && StartsWith(lines[i], "\t-o ") ==> lines[i] in r
  {
    Filter(lines, IsOutputLine())
  }

  lemma OutputsNone(lines: seq<string>)
    requires forall i :: 0 <= i < |lines| ==> !StartsWith(lines[i], "\t-o ")
    ensures Outputs(lines) == []
  {
    FilterEmpty(lines, IsOutputLine());
  }

  /** Lines that all start with one prefix cannot start with a different
      prefix of the same length, and cannot equal a line that does not. */
  lemma PrefixExcludes(lines: seq<string>, p: string, q: string, x: string)
    requires forall i :: 0 <= i < |lines| ==> StartsWith(lines[i], p)
    requires |p| == |q| && p != q
    requires !StartsWith(x, p)
    ensures forall i :: 0 <= i < |lines| ==> !StartsWith(lines[i], q)
    ensures x !in lines
  {
  }

  lemma LiteralFacts()
    ensures "\t-i " != "\t-o "
    ensures !StartsWith(ExpandLine, "\t-i ") && !StartsWith(ExpandLine, "\t-o ")
    ensures !StartsWith(Header, "\t-o ") && !StartsWith(ExplicitLine, "\t-o ")
    ensures ExpandLine != Header && ExpandLine != ExplicitLine
  {
    assert "\t-i "[2] != "\t-o "[2];
    assert ExpandLine[2] == '-';
    assert Header[0] == 'd';
    assert ExplicitLine[2] == '-';
    assert ExpandLine[5] != ExplicitLine[5] || ExpandLine[6] != ExplicitLine[6];
  }

  /** None of the lines before the outputs is an output line. */
  lemma InputPartHasNoOutputs(container: Container, inputDs: seq<InputDs>, st: SessionType)
    ensures Outputs(InputPart(container, inputDs, st)) == []
  {
    LiteralFacts();
    var code := InputLine("code/" + container.containerName + "_zip.sh");
    var image := InputLine(container.pathRelToAnalysis);
    InputLineStarts("code/" + container.containerName + "_zip.sh");
    InputLineStarts(container.pathRelToAnalysis);
    var ds := AllDatasetInputLines(st, inputDs);
    var opt := if AnyUnzipped(inputDs) then [ExpandLine] else [];
    var a := [Header, code];
    var b := [image] + opt + [ExplicitLine];
    PrefixExcludes([code], "\t-i ", "\t-o ", ExpandLine);
    PrefixExcludes([image], "\t-i ", "\t-o ", ExpandLine);
    PrefixExcludes(ds, "\t-i ", "\t-o ", ExpandLine);
    assert InputPart(container, inputDs, st) == a + ds + b;
    OutputsNone(a);
    OutputsNone(ds);
    OutputsNone(b);
    FilterAppend(a, ds, IsOutputLine());
    FilterAppend(a + ds, b, IsOutputLine());
  }

  /** Each `-o` line names the archive the zip script writes for its item. */
  lemma OutputLineArchive(st: SessionType, folder: string, version: string)
    ensures OutputLine(st, folder, version) == "\t-o " + ZipArchiveName(st, folder, version) + " \\"
    ensures StartsWith(OutputLine(st, folder, version), "\t-o ")
  {
    FixedCmdSplit(st);
    StartsWithAppend("\t-o ", ZipArchiveName(st, folder, version) + " \\");
  }

  /** The message and the command lines are not output lines. */
  lemma TailHasNoOutputs(container: Container, inputDs: seq<InputDs>, st: SessionType)
    ensures Outputs([MessageLine(container, st), CommandLine(container, inputDs, st)]) == []
  {
    var msg := MessageLine(container, st);
    var cmd := CommandLine(container, inputDs, st);
    assert "\t-m \""[..4] != "\t-o " by { assert "\t-m \""[2] == 'm'; }
    assert "\t\"bash ./code/"[..4] != "\t-o " by { assert "\t\"bash ./code/"[1] == '"'; }
    NotStartsWithAppend("\t-m \"", container.containerName + " ${subid}" + SesWord(st) + "\" \\", "\t-o ");
    NotStartsWithAppend("\t\"bash ./code/", container.containerName + "_zip.sh ${subid}" + SesWord(st) + ZipArgs(inputDs) + "\"", "\t-o ");
    assert msg == "\t-m \"" + (container.containerName + " ${subid}" + SesWord(st) + "\" \\");
    assert cmd == "\t\"bash ./code/" + (container.containerName + "_zip.sh ${subid}" + SesWord(st) + ZipArgs(inputDs) + "\"");
    OutputsNone([msg, cmd]);
  }

  /** The output lines of a well-formed zip section are all `-o` lines naming
      the section's archives. */
  lemma OutputLinesNameArchives(st: SessionType, sec: seq<(string, Val)>)
    requires AllValuesStr(sec)
    ensures Outputs(OutputLinesOf(st, sec).value) == OutputLinesOf(st, sec).value
    ensures forall i :: 0 <= i < |sec| ==>
      OutputLinesOf(st, sec).value[i] == "\t-o " + ZipArchiveName(st, sec[i].0, sec[i].1.s) + " \\"
  {
    var outs := OutputLinesOf(st, sec).value;
    forall i | 0 <= i < |outs|
      ensures StartsWith(outs[i], "\t-o ")
      ensures outs[i] == "\t-o " + ZipArchiveName(st, sec[i].0, sec[i].1.s) + " \\"
    {
      OutputLineArchive(st, sec[i].0, sec[i].1.s);
    }
    FilterAll(outs, IsOutputLine());
  }

  /** Only unfolds the definition of `DataladRunLines` on success; it is the
      first step of `DataladRunOutputs`, not a property of its own. */
  lemma DataladRunLinesShape(container: Container, inputDs: seq<InputDs>, st: SessionType)
    requires DataladRunLines(container, inputDs, st).Ok?
    ensures DataladRunLines(container, inputDs, st).value ==
      InputPart(container, inputDs, st)
      + OutputLinesOf(st, container.config.zipFoldername.value).value
      + [MessageLine(container, st), CommandLine(container, inputDs, st)]
  {
  }

  /** Exactly one `-o` line per `babs_zip_foldername` item, in section order,
      each naming the archive the zip script writes for that item. */
  lemma DataladRunOutputs(container: Container, inputDs: seq<InputDs>, st: SessionType)
    requires DataladRunLines(container, inputDs, st).Ok?
    ensures |Outputs(DataladRunLines(container, inputDs, st).value)| == |container.config.zipFoldername.value|
    ensures forall i :: 0 <= i < |container.config.zipFoldername.value| ==>
      Outputs(DataladRunLines(container, inputDs, st).value)[i] ==
        "\t-o " + ZipArchiveName(st, container.config.zipFoldername.value[i].0, container.config.zipFoldername.value[i].1.s) + " \\"
  {
    var sec := container.config.zipFoldername.value;
    var outs := OutputLinesOf(st, sec).value;
    var tail := [MessageLine(container, st), CommandLine(container, inputDs, st)];
    var part := InputPart(container, inputDs, st);
    var lines := DataladRunLines(container, inputDs, st).value;
    DataladRunLinesShape(container, inputDs, st);
    assert lines == part + outs + tail;
    FilterAppend(part + outs, tail, IsOutputLine());
    FilterAppend(part, outs, IsOutputLine());
    InputPartHasNoOutputs(container, inputDs, st);
    TailHasNoOutputs(container, inputDs, st);
    OutputLinesNameArchives(st, sec);
    assert Outputs(lines) == outs by {
      assert Outputs(lines) == Outputs(part) + Outputs(outs) + Outputs(tail);
    }
  }

  /** `--expand inputs` is requested exactly when some input dataset is
      unzipped (its folder globs must be expanded). */
  lemma DataladRunExpandsInputs(container: Container, inputDs: seq<InputDs>, st: SessionType)
    requires DataladRunLines(container, inputDs, st).Ok?
    ensures ExpandLine in DataladRunLines(container, inputDs, st).value <==> AnyUnzipped(inputDs)
  {
    LiteralFacts();
    var sec := container.config.zipFoldername.value;
    var outs := OutputLinesOf(st, sec).value;
    var msg := MessageLine(container, st);
    var cmd := CommandLine(container, inputDs, st);
    var code := InputLine("code/" + container.containerName + "_zip.sh");
    var image := InputLine(container.pathRelToAnalysis);
    var ds := AllDatasetInputLines(st, inputDs);
    var opt := if AnyUnzipped(inputDs) then [ExpandLine] else [];
    InputLineStarts("code/" + container.containerName + "_zip.sh");
    InputLineStarts(container.pathRelToAnalysis);
    assert DataladRunLines(container, inputDs, st).value
      == [Header, code] + ds + [image] + opt + [ExplicitLine] + outs + [msg, cmd];
    PrefixExcludes(ds, "\t-i ", "\t-o ", ExpandLine);
    forall i | 0 <= i < |outs| ensures StartsWith(outs[i], "\t-o ") {
      OutputLineArchive(st, sec[i].0, sec[i].1.s);
    }
    PrefixExcludes(outs, "\t-o ", "\t-i ", ExpandLine);
    assert msg[2] == 'm' && cmd[1] == '"';
  }
}

