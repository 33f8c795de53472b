/** The cluster-resource header of `participant_job.sh` (babs/utils.py,
    `generate_one_bashhead_resources` and `generate_bashhead_resources`). */
module Bashhead {
  import opened Wrappers
  import opened Text
  import opened Types
  import opened Seqs

  /** The cluster management system: its type (`sge`, `slurm`) and the format
      string of each resource key, taken from `dict_cluster_systems.yaml`. */
  datatype System = System(kind: string, formats: map<string, string>)

  const ValuePlaceholder: string := "$VALUE"
  const CustomizedText: string := "customized_text"

  /** Scheduler directives start with `#`, and with `#$ ` under SGE. */
  function LinePrefix(system: System): string {
    if system.kind == "sge" then "#$ " else "#"
  }

  /** One resource request: the key's format with each `$VALUE` replaced by
      the configured value; a key the system does not define is an error. */
  function GenerateOneBashheadResources(system: System, key: string, value: Val): (r: Result<string, Error>)
    ensures r.Ok? <==> key in system.formats
    ensures r.Err? ==> r.error == UnknownResourceKey(key)
    ensures r.Ok? ==> StartsWith(r.value, "#")
    ensures r.Ok? ==> (system.kind == "sge" ==> StartsWith(r.value, "#$ "))
    ensures r.Ok? && !Occurs(system.formats[key], ValuePlaceholder) ==>
      r.value == LinePrefix(system) + system.formats[key]
  {
    if key !in system.formats then Err(UnknownResourceKey(key))
    else
      var format := system.formats[key];
      var line := LinePrefix(system) + Replace(format, ValuePlaceholder, Render(value));
      StartsWithAppend(LinePrefix(system), Replace(format, ValuePlaceholder, Render(value)));
      assert StartsWith(LinePrefix(system), "#");
      assert line[..1] == LinePrefix(system)[..1];
      ReplaceUnchanged(format, ValuePlaceholder, Render(value));
      Ok(line)
  }

  /** A format `before$VALUEafter`, with `before` free of the placeholder,
      becomes `before`, the value, and `after` with each of its own `$VALUE`
      replaced in turn; with `ReplaceAbsent` at the end, every occurrence in
      the format is covered. */
  lemma OneBashheadSubstitutesValue(system: System, key: string, value: Val, before: string, after: string)
    requires key in system.formats
    requires system.formats[key] == before + ValuePlaceholder + after
    requires !Occurs(before, ValuePlaceholder)
    ensures GenerateOneBashheadResources(system, key, value) ==
      Ok(LinePrefix(system) + before + Render(value) + Replace(after, ValuePlaceholder, Render(value)))
  {
    var s := before + ValuePlaceholder + after;
    forall j | 0 <= j < |before|
      ensures !MatchAt(s, ValuePlaceholder, j)
    {
      if j + |ValuePlaceholder| <= |before| {
        assert s[j..j + |ValuePlaceholder|] == before[j..j + |ValuePlaceholder|];
        assert !MatchAt(before, ValuePlaceholder, j);
      } else if j + |ValuePlaceholder| <= |s| {
        var k := |before| - j;
        assert 0 < k < |ValuePlaceholder|;
        assert s[|before|] == '$';
        assert s[j..j + |ValuePlaceholder|][k] == s[|before|];
        assert ValuePlaceholder[k] != '$';
      }
    }
    ReplaceFirst(before, ValuePlaceholder, after, Render(value));
    var replaced := Replace(system.formats[key], ValuePlaceholder, Render(value));
    assert replaced == before + Render(value) + Replace(after, ValuePlaceholder, Render(value));
    assert LinePrefix(system) + replaced ==
      LinePrefix(system) + before + Render(value) + Replace(after, ValuePlaceholder, Render(value));
  }

  function NotCustomizedText(): ((string, Val)) -> bool {
    (e: (string, Val)) => e.0 != CustomizedText
  }

  /** The keys other than `customized_text`, in order. */
  function ResourceEntries(sec: seq<(string, Val)>): (r: seq<(string, Val)>)
    ensures forall i :: 0 <= i < |r| ==> r[i] in sec && r[i].0 != CustomizedText
    ensures forall i :: 0 <= i < |sec| && sec[i].0 != CustomizedText ==> sec[i] in r
  {
    Filter(sec, NotCustomizedText())
  }

  predicate KeysDefined(system: System, sec: seq<(string, Val)>) {
    forall i :: 0 <= i < |sec| && sec[i].0 != CustomizedText ==> sec[i].0 in system.formats
  }

  /** One line per resource key, in section order. */
  function ResourceLines(system: System, sec: seq<(string, Val)>): (r: Result<seq<string>, Error>)
    ensures r.Ok? <==> KeysDefined(system, sec)
    ensures r.Ok? ==> |r.value| == |ResourceEntries(sec)|
    ensures r.Ok? ==> forall i :: 0 <= i < |r.value| ==>
      GenerateOneBashheadResources(system, ResourceEntries(sec)[i].0, ResourceEntries(sec)[i].1).Ok? &&
      r.value[i] == GenerateOneBashheadResources(system, ResourceEntries(sec)[i].0, ResourceEntries(sec)[i].1).value + "\n"
    decreases |sec|
  {
    if |sec| == 0 then Ok([])
    else
      assert forall i :: 1 <= i < |sec| ==> sec[1..][i - 1] == sec[i];
      if sec[0].0 == CustomizedText then
        assert ResourceEntries(sec) == [] + ResourceEntries(sec[1..]);
        ResourceLines(system, sec[1..])
      else
        assert ResourceEntries(sec) == [sec[0]] + ResourceEntries(sec[1..]);
        var one :- GenerateOneBashheadResources(system, sec[0].0, sec[0].1);
        var rest :- ResourceLines(system, sec[1..]);
        Ok([one + "\n"] + rest)
  }

  /** The whole header: the requests in order, then the free text of
      `customized_text`, if any, on its own line. */
  function GenerateBashheadResources(system: System, config: Config): (r: Result<string, Error>)
    ensures config.clusterResources.None? ==> r == Err(MissingSection("cluster_resources"))
    ensures r.Ok? <==>
      config.clusterResources.Some? &&
      KeysDefined(system, config.clusterResources.value) &&
      (HasKey(config.clusterResources.value, CustomizedText) ==>
        Lookup(config.clusterResources.value, CustomizedText).Str?)
    ensures r.Ok? ==> StartsWith(r.value, Concat(ResourceLines(system, config.clusterResources.value).value))
    ensures r.Ok? && HasKey(config.clusterResources.value, CustomizedText) ==>
      r.value == Concat(ResourceLines(system, config.clusterResources.value).value)
        + Lookup(config.clusterResources.value, CustomizedText).s + "\n"
    ensures r.Ok? && !HasKey(config.clusterResources.value, CustomizedText) ==>
      r.value == Concat(ResourceLines(system, config.clusterResources.value).value)
    ensures r.Err? && config.clusterResources.Some? && KeysDefined(system, config.clusterResources.value) ==>
      r.error == NullValue(CustomizedText)
  {
    if config.clusterResources.None? then Err(MissingSection("cluster_resources"))
    else
      var sec := config.clusterResources.value;
      var lines :- ResourceLines(system, sec);
      var head := Concat(lines);
      if HasKey(sec, CustomizedText) then
        var text := Lookup(sec, CustomizedText);
        if text.Null? then Err(NullValue(CustomizedText))
        else
          StartsWithAppend(head, text.s + "\n");
          assert head + text.s + "\n" == head + (text.s + "\n");
          Ok(head + text.s + "\n")
      else
        StartsWithAppend(head, "");
        assert head + "" == head;
        Ok(head)
  }
}
