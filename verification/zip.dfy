/** The zip-related script fragments (babs/utils.py,
    `generate_cmd_zipping_from_config`, `generate_cmd_unzip_inputds` and
    `generate_cmd_determine_zipfilename`). */
module ZipScripts {
  import opened Wrappers
  import opened Text
  import opened Types

  /** `str_sesid` in the source: the session part of an output archive name. */
  function SesPart(st: SessionType): string {
    if st == MultiSes then "_${sesid}" else ""
  }

  /** The archive the zip script writes for one `babs_zip_foldername` item:
      `${subid}[_${sesid}]_<folder>-<version>.zip`. */
  function ZipArchiveName(st: SessionType, folder: string, version: string): string {
    "${subid}" + SesPart(st) + "_" + ArchiveTail(folder, version)
  }

  /** `<folder>-<version>.zip`, the part of an archive name after the ids. */
  function ArchiveTail(folder: string, version: string): string {
    folder + "-" + version + ".zip"
  }

  predicate AllValuesStr(sec: seq<(string, Val)>) {
    forall i :: 0 <= i < |sec| ==> sec[i].1.Str?
  }

  /** The `7z a` line for one folder, as the source concatenates it. */
  function ZipLine(st: SessionType, folder: string, version: string): string {
    "7z a ../${subid}" + SesPart(st) + "_" + folder + "-" + version + ".zip" + " " + folder + "\n"
  }

  /** Each line archives its folder into that folder's archive name. */
  lemma ZipLineArchives(st: SessionType, folder: string, version: string)
    ensures ZipLine(st, folder, version) == "7z a ../" + ZipArchiveName(st, folder, version) + " " + folder + "\n"
  {
  }

  /** One `7z a` line per folder, in section order; a `None` version cannot be
      concatenated, so the first such item fails. */
  function ZipLines(st: SessionType, sec: seq<(string, Val)>): (r: Result<seq<string>, Error>)
    ensures r.Ok? <==> AllValuesStr(sec)
    ensures r.Err? ==> exists i :: 0 <= i < |sec| && sec[i].1 == Null && r.error == NullValue(sec[i].0)
    ensures r.Ok? ==> |r.value| == |sec|
    ensures r.Ok? ==> forall i :: 0 <= i < |sec| ==> r.value[i] == ZipLine(st, sec[i].0, sec[i].1.s)
    decreases |sec|
  {
    if |sec| == 0 then Ok([])
    else
      var (key, value) := sec[0];
      assert forall i :: 1 <= i < |sec| ==> sec[1..][i - 1] == sec[i];
      if value.Null? then Err(NullValue(key))
      else
        var rest :- ZipLines(st, sec[1..]);
        Ok([ZipLine(st, key, value.s)] + rest)
  }

  /** The commands that zip each output folder, run from inside the output
      folder and returning to its parent. */
  function GenerateCmdZipping(config: Config, st: SessionType, outputFoldername: string): (r: Result<string, Error>)
    ensures config.zipFoldername.None? ==> r == Err(MissingSection("babs_zip_foldername"))
    ensures r.Ok? <==> config.zipFoldername.Some? && AllValuesStr(config.zipFoldername.value)
    ensures r.Ok? ==> StartsWith(r.value, "cd " + outputFoldername + "\n")
    ensures r.Ok? ==> EndsWith(r.value, "cd ..\n")
    ensures r.Ok? ==>
      r.value == "cd " + outputFoldername + "\n" + Concat(ZipLines(st, config.zipFoldername.value).value) + "cd ..\n"
  {
    var head := "cd " + outputFoldername + "\n";
    if config.zipFoldername.None? then Err(MissingSection("babs_zip_foldername"))
    else
      var lines :- ZipLines(st, config.zipFoldername.value);
      var cmd := head + Concat(lines) + "cd ..\n";
      assert cmd[..|head|] == head;
      assert cmd[|cmd| - |"cd ..\n"|..] == "cd ..\n";
      Ok(cmd)
  }

  /** The archive names a zip section makes, in order. */
  function ZipArchives(st: SessionType, sec: seq<(string, Val)>): (r: seq<string>)
    requires AllValuesStr(sec)
    ensures |r| == |sec|
    ensures forall i :: 0 <= i < |sec| ==> r[i] == ZipArchiveName(st, sec[i].0, sec[i].1.s)
  {
    seq(|sec|, i requires 0 <= i < |sec| => ZipArchiveName(st, sec[i].0, sec[i].1.s))
  }

  /** In multi-session projects, and only there, every archive name carries
      the session id right after the subject id (folder names are plain
      directory names, never shell expansions). */
  lemma ZipArchiveNameSession(st: SessionType, folder: string, version: string)
    requires !StartsWith(folder, "$")
    ensures st == MultiSes <==> StartsWith(ZipArchiveName(st, folder, version), "${subid}_${sesid}_")
  {
    var n := ZipArchiveName(st, folder, version);
    if st == SingleSes {
      var tail := folder + "-" + version + ".zip";
      assert n == "${subid}_" + tail;
      assert tail[0] != '$' by {
        if |folder| > 0 {
          assert tail[0] == folder[0];
          assert folder[..1] != "$";
        }
      }
      assert n[9] == tail[0];
    } else {
      assert n == "${subid}_${sesid}_" + (folder + "-" + version + ".zip");
      StartsWithAppend("${subid}_${sesid}_", folder + "-" + version + ".zip");
    }
  }

  /** The shell variable a zipped dataset's archive path is stored in:
      the dataset name, upper-cased, with `_ZIP` appended. */
  function ZipVar(ds: InputDs): string {
    Upper(ds.name) + "_ZIP"
  }

  predicate AnyZipped(inputDs: seq<InputDs>) {
    exists i :: 0 <= i < |inputDs| && inputDs[i].isZipped
  }

  lemma AnyZippedTail(inputDs: seq<InputDs>)
    requires |inputDs| > 0
    ensures AnyZipped(inputDs) <==> inputDs[0].isZipped || AnyZipped(inputDs[1..])
  {
    assert forall i :: 1 <= i < |inputDs| ==> inputDs[1..][i - 1] == inputDs[i];
    if AnyZipped(inputDs[1..]) {
      var i :| 0 <= i < |inputDs[1..]| && inputDs[1..][i].isZipped;
      assert inputDs[i + 1].isZipped;
    }
  }

  function UnzipBlock(ds: InputDs): string {
    UnzipPrefix(ds) + "${" + ZipVar(ds) + "}" + "`" + "\ncd $wd\n"
  }

  function UnzipPrefix(ds: InputDs): string {
    "\ncd " + ds.pathNowRel + "\n7z x `basename "
  }

  function UnzipBlocks(inputDs: seq<InputDs>): (r: string)
    ensures r == "" <==> !AnyZipped(inputDs)
    decreases |inputDs|
  {
    if |inputDs| == 0 then ""
    else
      AnyZippedTail(inputDs);
      var rest := UnzipBlocks(inputDs[1..]);
      if inputDs[0].isZipped then
        assert |UnzipBlock(inputDs[0])| > 0;
        UnzipBlock(inputDs[0]) + rest
      else rest
  }

  /** Unpacks each zipped input dataset in place; nothing at all when every
      dataset is unzipped. */
  function GenerateCmdUnzipInputds(inputDs: seq<InputDs>, st: SessionType): (r: string)
    ensures r == "" <==> !AnyZipped(inputDs)
    ensures AnyZipped(inputDs) ==> StartsWith(r, "\nwd=${PWD}")
  {
    var head := if AnyZipped(inputDs) then "\nwd=${PWD}" else "";
    assert (head + UnzipBlocks(inputDs))[..|head|] == head;
    head + UnzipBlocks(inputDs)
  }

  const LookupHeader: string := "\n# Getting the zip filename of current subject (or session):\n"

  function SesWord(st: SessionType): string {
    if st == MultiSes then " ${sesid}" else ""
  }

  /** The lookup of one zipped dataset's archive for the current subject
      (and session), stored in shell variable `v`: it fails with 99 when there
      is none and 98 when there are several. */
  function LookupBlock(st: SessionType, ds: InputDs): string {
    var v := Upper(ds.name + "_ZIP");
    v + "=" + LookupBody(st, ds, v)
  }

  function LookupBody(st: SessionType, ds: InputDs, v: string): string {
    "$(ls " + ds.pathNowRel + "/${subid}_" + (if st == MultiSes then "${sesid}_" else "")
    + "*" + ds.name + "*.zip" + " | cut -d '@' -f 1 || true)" + "\n"
    + "echo 'found " + ds.name + " zipfile:'" + "\n"
    + "echo ${" + v + "}" + "\n"
    + "if [ -z \"${" + v + "}\" ]; then" + "\n"
    + "\t" + "echo 'No input zipfile of " + ds.name + " found for ${subid}" + SesWord(st) + "'" + "\n"
    + "\t" + "exit 99" + "\n"
    + "fi" + "\n"
    + "array=($" + v + ")" + "\n"
    + "if [ \"${#array[@]}\" -gt \"1\" ]; then" + "\n"
    + "\t" + "echo 'There is more than one input zipfile of " + ds.name + " found for ${subid}" + SesWord(st) + "'" + "\n"
    + "\t" + "exit 98" + "\n"
    + "fi" + "\n"
  }

  lemma LookupBlockNonEmpty(st: SessionType, ds: InputDs)
    ensures |LookupBlock(st, ds)| > 0
  {
    var v := Upper(ds.name + "_ZIP");
    assert LookupBlock(st, ds) == v + "=" + LookupBody(st, ds, v);
  }

  function LookupBlocks(st: SessionType, inputDs: seq<InputDs>): (r: string)
    ensures r == "" <==> !AnyZipped(inputDs)
    decreases |inputDs|
  {
    if |inputDs| == 0 then ""
    else
      AnyZippedTail(inputDs);
      var rest := LookupBlocks(st, inputDs[1..]);
      if inputDs[0].isZipped then
        LookupBlockNonEmpty(st, inputDs[0]);
        LookupBlock(st, inputDs[0]) + rest
      else rest
  }

  function GenerateCmdDetermineZipfilename(inputDs: seq<InputDs>, st: SessionType): (r: string)
    ensures r == "" <==> !AnyZipped(inputDs)
    ensures AnyZipped(inputDs) ==> StartsWith(r, LookupHeader)
  {
    var head := if AnyZipped(inputDs) then LookupHeader else "";
    assert (head + LookupBlocks(st, inputDs))[..|head|] == head;
    head + LookupBlocks(st, inputDs)
  }

  /** The variable the lookup assigns is exactly the one the unzip command
      (and the `datalad run` command) reads: upper-casing the name and then
      appending `_ZIP` equals upper-casing the name with `_ZIP` appended. */
  lemma LookupDefinesUnzipVariable(st: SessionType, ds: InputDs)
    ensures StartsWith(LookupBlock(st, ds), ZipVar(ds) + "=")
    ensures Occurs(UnzipBlock(ds), "${" + ZipVar(ds) + "}")
  {
    UpperAppend(ds.name, "_ZIP");
    assert Upper("_ZIP") == "_ZIP";
    var v := Upper(ds.name + "_ZIP");
    assert v == ZipVar(ds);
    assert LookupBlock(st, ds) == (v + "=") + LookupBody(st, ds, v);
    StartsWithAppend(v + "=", LookupBody(st, ds, v));
    UnzipReadsVariable(ds);
  }

  lemma UnzipReadsVariable(ds: InputDs)
    ensures Occurs(UnzipBlock(ds), "${" + ZipVar(ds) + "}")
  {
    var pre := UnzipPrefix(ds);
    var use := "${" + ZipVar(ds) + "}";
    var block := UnzipBlock(ds);
    assert block == pre + use + ("`" + "\ncd $wd\n");
    assert block[|pre|..|pre| + |use|] == use;
    assert MatchAt(block, use, |pre|);
  }

  /** The unzip blocks read the archive variable of every zipped dataset. */
  lemma {:induction false} UnzipBlocksRead(inputDs: seq<InputDs>, i: nat)
    requires i < |inputDs| && inputDs[i].isZipped
    ensures Occurs(UnzipBlocks(inputDs), "${" + ZipVar(inputDs[i]) + "}")
    decreases |inputDs|
  {
    var use := "${" + ZipVar(inputDs[i]) + "}";
    var rest := UnzipBlocks(inputDs[1..]);
    if i > 0 {
      assert inputDs[1..][i - 1] == inputDs[i];
      UnzipBlocksRead(inputDs[1..], i - 1);
    } else {
      UnzipReadsVariable(inputDs[0]);
    }
    if inputDs[0].isZipped {
      assert UnzipBlocks(inputDs) == UnzipBlock(inputDs[0]) + rest;
      OccursAppend(UnzipBlock(inputDs[0]), rest, use);
    } else {
      assert UnzipBlocks(inputDs) == rest;
    }
  }

  /** The lookups assign the archive variable of every zipped dataset. */
  lemma {:induction false} LookupBlocksDefine(st: SessionType, inputDs: seq<InputDs>, i: nat)
    requires i < |inputDs| && inputDs[i].isZipped
    ensures Occurs(LookupBlocks(st, inputDs), ZipVar(inputDs[i]) + "=")
    decreases |inputDs|
  {
    var def := ZipVar(inputDs[i]) + "=";
    var rest := LookupBlocks(st, inputDs[1..]);
    if i > 0 {
      assert inputDs[1..][i - 1] == inputDs[i];
      LookupBlocksDefine(st, inputDs[1..], i - 1);
    } else {
      LookupDefinesUnzipVariable(st, inputDs[0]);
      assert MatchAt(LookupBlock(st, inputDs[0]), def, 0);
    }
    if inputDs[0].isZipped {
      assert LookupBlocks(st, inputDs) == LookupBlock(st, inputDs[0]) + rest;
      OccursAppend(LookupBlock(st, inputDs[0]), rest, def);
    } else {
      assert LookupBlocks(st, inputDs) == rest;
    }
  }

  /** Every archive variable the unzip script reads is assigned by the
      zip-file lookup script, for every zipped input dataset. */
  lemma UnzipReadsWhatLookupDefines(inputDs: seq<InputDs>, st: SessionType, i: nat)
    requires i < |inputDs| && inputDs[i].isZipped
    ensures Occurs(GenerateCmdDetermineZipfilename(inputDs, st), ZipVar(inputDs[i]) + "=")
    ensures Occurs(GenerateCmdUnzipInputds(inputDs, st), "${" + ZipVar(inputDs[i]) + "}")
  {
    assert AnyZipped(inputDs);
    LookupBlocksDefine(st, inputDs, i);
    OccursAppend(LookupHeader, LookupBlocks(st, inputDs), ZipVar(inputDs[i]) + "=");
    UnzipBlocksRead(inputDs, i);
    OccursAppend("\nwd=${PWD}", UnzipBlocks(inputDs), "${" + ZipVar(inputDs[i]) + "}");
  }
}
