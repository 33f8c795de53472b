/** How the zip script and the `datalad run` command agree. */
module ZipOutputsAgree {
  import opened Types
  import opened ZipScripts
  import opened DataladRun

  /** Whenever the zip script can be generated, so can the `datalad run`
      command, and the archives it declares as outputs are exactly the
      archives the zip script writes, one per folder and in the same order. */
  lemma ZipScriptMatchesDataladOutputs(container: Container, inputDs: seq<InputDs>, st: SessionType, outputFoldername: string)
    requires GenerateCmdZipping(container.config, st, outputFoldername).Ok?
    ensures DataladRunLines(container, inputDs, st).Ok?
    ensures var sec := container.config.zipFoldername.value;
      var archives := ZipArchives(st, sec);
      var zipLines := ZipLines(st, sec).value;
      var outputs := Outputs(DataladRunLines(container, inputDs, st).value);
      |zipLines| == |archives| == |outputs| &&
      forall i :: 0 <= i < |archives| ==>
        zipLines[i] == "7z a ../" + archives[i] + " " + sec[i].0 + "\n" &&
        outputs[i] == "\t-o " + archives[i] + " \\"
  {
    var sec := container.config.zipFoldername.value;
    DataladRunOutputs(container, inputDs, st);
    forall i | 0 <= i < |sec|
      ensures ZipLines(st, sec).value[i] == "7z a ../" + ZipArchives(st, sec)[i] + " " + sec[i].0 + "\n"
    {
      ZipLineArchives(st, sec[i].0, sec[i].1.s);
    }
  }
}
