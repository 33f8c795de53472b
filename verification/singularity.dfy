/** The flag part of `singularity run` built from section
    `babs_singularity_run` (babs/utils.py, `replace_placeholder_from_config`
    and `generate_cmd_singularityRun_from_config`). */
module SingularityRun {
  import opened Wrappers
  import opened Text
  import opened Types
  import opened Seqs

  /** Every flag starts on a new, indented line after a shell continuation. */
  const FlagSep: string := " \\\n\t"
  const InputPathKey: string := "$INPUT_PATH"
  const TmpdirPlaceholder: string := "$BABS_TMPDIR"
  const LicensePlaceholder: string := "$FREESURFER_LICENSE"

  /** Replaces the two known placeholders; for any other value the source
      reads an unbound local variable. */
  function ReplacePlaceholderFromConfig(value: Val): (r: Result<string, Error>)
    ensures Render(value) == TmpdirPlaceholder ==> r == Ok("${PWD}/.git/tmp/wkdir")
    ensures Render(value) == LicensePlaceholder ==> r == Ok("code/license.txt")
    ensures r.Err? <==> Render(value) != TmpdirPlaceholder && Render(value) != LicensePlaceholder
    ensures r.Err? ==> r.error == UnboundPlaceholder(Render(value))
  {
    var value := Render(value);
    if value == TmpdirPlaceholder then Ok("${PWD}/.git/tmp/wkdir")
    else if value == LicensePlaceholder then Ok("code/license.txt")
    else Err(UnboundPlaceholder(value))
  }

  /** Values that make a flag appear without an argument. */
  predicate IsFlagOnly(v: Val) {
    v == Null || v == Str("") || v == Str("Null") || v == Str("NULL")
  }

  /** A `$BABS_`-prefixed value other than the one placeholder the source knows. */
  predicate BadPlaceholder(v: Val) {
    v.Str? && StartsWith(v.s, "$BABS_") && v.s != TmpdirPlaceholder
  }

  /** The argument a flag gets: none for the flag-only values, the replaced
      text for a placeholder, the value itself otherwise. */
  function FlagArgument(v: Val): (r: Result<Option<string>, Error>)
    ensures r.Err? <==> BadPlaceholder(v)
    ensures r.Ok? ==> (r.value.None? <==> IsFlagOnly(v))
    ensures r.Ok? && r.value.Some? ==> |r.value.value| > 0
    ensures v == Str(TmpdirPlaceholder) ==> r == Ok(Some("${PWD}/.git/tmp/wkdir"))
    ensures v == Str(LicensePlaceholder) ==> r == Ok(Some("code/license.txt"))
    ensures v.Str? && !IsFlagOnly(v) && !StartsWith(v.s, "$BABS_") && v.s != LicensePlaceholder ==>
      r == Ok(Some(v.s))
  {
    match v
    case Null => Ok(None)
    case Str(s) =>
      if s == "" then Ok(None)
      else if StartsWith(s, "$BABS_") then
        assert LicensePlaceholder[1] != 'B';
        var replaced :- ReplacePlaceholderFromConfig(v);
        Ok(Some(replaced))
      else if s == LicensePlaceholder then
        Ok(Some(ReplacePlaceholderFromConfig(v).value))
      else if s == "Null" || s == "NULL" then Ok(None)
      else
        assert !BadPlaceholder(v) && !IsFlagOnly(v) && Render(v) == s;
        Ok(Some(s))
  }

  /** The text one non-`$INPUT_PATH` item contributes, and whether it asks for
      the FreeSurfer license. */
  function FlagSegment(key: string, v: Val): (r: Result<(string, bool), Error>)
    ensures r.Err? <==> BadPlaceholder(v)
    ensures r.Ok? ==> StartsWith(r.value.0, FlagSep + key)
    ensures r.Ok? ==> (r.value.0 == FlagSep + key <==> IsFlagOnly(v))
    ensures r.Ok? ==> (r.value.1 <==> v == Str(LicensePlaceholder))
  {
    var arg :- FlagArgument(v);
    var segment := FlagSep + key + (if arg.Some? then " " + arg.value else "");
    assert segment[..|FlagSep + key|] == FlagSep + key;
    assert arg.Some? ==> |segment| > |FlagSep + key|;
    Ok((segment, v == Str(LicensePlaceholder)))
  }

  /** Drops the one trailing `/` a user may have written. */
  function StripSlash(s: string): (r: string)
    requires |s| > 0
    ensures s == r || s == r + "/"
    ensures !EndsWith(s, "/") ==> r == s
  {
    if s[|s| - 1] == '/' then s[..|s| - 1] else s
  }

  /** The value of `$INPUT_PATH` as a directory: `value[-1]` fails on `None`
      and on the empty string. */
  function InputDirOf(v: Val): (r: Result<string, Error>)
    ensures r.Ok? <==> v.Str? && |v.s| > 0
    ensures r.Ok? ==> r.value == StripSlash(v.s)
  {
    if v.Str? && |v.s| > 0 then Ok(StripSlash(v.s)) else Err(BadInputPath(v))
  }

  function NotInputPath(): ((string, Val)) -> bool {
    (e: (string, Val)) => e.0 != InputPathKey
  }

  /** The items of a section other than `$INPUT_PATH`, in order. */
  function FlagEntries(entries: seq<(string, Val)>): (r: seq<(string, Val)>)
    ensures |r| <= |entries|
    ensures forall i :: 0 <= i < |r| ==> r[i] in entries && r[i].0 != InputPathKey
    ensures forall i :: 0 <= i < |entries| && entries[i].0 != InputPathKey ==> entries[i] in r
  {
    Filter(entries, NotInputPath())
  }

  lemma FlagEntriesCons(entries: seq<(string, Val)>)
    requires |entries| > 0
    ensures FlagEntries(entries) ==
      (if entries[0].0 != InputPathKey then [entries[0]] else []) + FlagEntries(entries[1..])
  {
  }

  predicate EntriesWellFormed(entries: seq<(string, Val)>) {
    forall i :: 0 <= i < |entries| ==>
      if entries[i].0 == InputPathKey then InputDirOf(entries[i].1).Ok?
      else !BadPlaceholder(entries[i].1)
  }

  predicate AsksForLicense(entries: seq<(string, Val)>) {
    exists i :: 0 <= i < |entries| && entries[i].0 != InputPathKey && entries[i].1 == Str(LicensePlaceholder)
  }

  datatype Flags = Flags(segments: seq<string>, fsLicense: bool, inputDir: Option<string>)

  /** The loop over the section's items, in file order; the first item that
      cannot be rendered stops it. */
  function RunFlags(entries: seq<(string, Val)>): (r: Result<Flags, Error>)
    ensures r.Ok? <==> EntriesWellFormed(entries)
    ensures r.Ok? ==> (r.value.inputDir.Some? <==> HasKey(entries, InputPathKey))
    decreases |entries|
  {
    if |entries| == 0 then Ok(Flags([], false, None))
    else
      var (key, v) := entries[0];
      assert forall i :: 0 <= i < |entries[1..]| ==> entries[1..][i] == entries[i + 1];
      if key == InputPathKey then
        var dir :- InputDirOf(v);
        var rest :- RunFlags(entries[1..]);
        Ok(rest.(inputDir := if rest.inputDir.Some? then rest.inputDir else Some(dir)))
      else
        var (segment, license) :- FlagSegment(key, v);
        var rest :- RunFlags(entries[1..]);
        Ok(Flags([segment] + rest.segments, license || rest.fsLicense, rest.inputDir))
  }

  /** Segment i is the rendering of flag item i, for every i. */
  predicate SegmentsRender(items: seq<(string, Val)>, segments: seq<string>) {
    |segments| == |items| &&
    forall i :: 0 <= i < |items| ==>
      FlagSegment(items[i].0, items[i].1).Ok? && FlagSegment(items[i].0, items[i].1).value.0 == segments[i]
  }

  lemma SegmentsRenderCons(item: (string, Val), items: seq<(string, Val)>, segment: string, segments: seq<string>)
    requires SegmentsRender(items, segments)
    requires FlagSegment(item.0, item.1).Ok? && FlagSegment(item.0, item.1).value.0 == segment
    ensures SegmentsRender([item] + items, [segment] + segments)
  {
    assert forall i :: 1 <= i < |items| + 1 ==> ([item] + items)[i] == items[i - 1];
  }

  /** Every item other than `$INPUT_PATH` contributes exactly one segment, in
      section order, and that segment is the item's own rendering. */
  lemma {:induction false} RunFlagsSegments(entries: seq<(string, Val)>)
    requires RunFlags(entries).Ok?
    ensures SegmentsRender(FlagEntries(entries), RunFlags(entries).value.segments)
    decreases |entries|
  {
    if |entries| > 0 {
      RunFlagsCons(entries);
      RunFlagsSegments(entries[1..]);
      FlagEntriesCons(entries);
      if entries[0].0 != InputPathKey {
        SegmentsRenderCons(entries[0], FlagEntries(entries[1..]),
                           FlagSegment(entries[0].0, entries[0].1).value.0, RunFlags(entries[1..]).value.segments);
      }
    }
  }

  /** One step of the loop: a flag item puts its segment in front of the
      rest's, and `$INPUT_PATH` adds none. */
  lemma RunFlagsCons(entries: seq<(string, Val)>)
    requires |entries| > 0 && RunFlags(entries).Ok?
    ensures RunFlags(entries[1..]).Ok?
    ensures entries[0].0 != InputPathKey ==>
      FlagSegment(entries[0].0, entries[0].1).Ok? &&
      RunFlags(entries).value.segments ==
        [FlagSegment(entries[0].0, entries[0].1).value.0] + RunFlags(entries[1..]).value.segments
    ensures entries[0].0 == InputPathKey ==>
      RunFlags(entries).value.segments == RunFlags(entries[1..]).value.segments
  {
  }

  /** The license flag is raised exactly when some flag's value is the license
      placeholder. */
  lemma {:induction false} RunFlagsLicense(entries: seq<(string, Val)>)
    requires RunFlags(entries).Ok?
    ensures RunFlags(entries).value.fsLicense <==> AsksForLicense(entries)
    decreases |entries|
  {
    if |entries| > 0 {
      RunFlagsLicense(entries[1..]);
      if AsksForLicense(entries) {
        var i :| 0 <= i < |entries| && entries[i].0 != InputPathKey && entries[i].1 == Str(LicensePlaceholder);
        if i > 0 {
          assert entries[1..][i - 1] == entries[i];
        }
      }
      if AsksForLicense(entries[1..]) {
        var i :| 0 <= i < |entries[1..]| && entries[1..][i].0 != InputPathKey && entries[1..][i].1 == Str(LicensePlaceholder);
        assert entries[i + 1] == entries[1..][i];
      }
    }
  }

  /** The result of `generate_cmd_singularityRun_from_config`. */
  datatype SingularityRunCmd = SingularityRunCmd(cmd: string, flagFsLicense: bool, inputDir: string)

  function ExpectedInputPath(inputDs: seq<InputDs>): string
    requires |inputDs| > 0
  {
    "inputs/data/" + inputDs[0].name
  }

  /** Builds the flags, the license flag and the positional input directory. */
  function GenerateCmdSingularityRun(config: Config, inputDs: seq<InputDs>): (r: Result<SingularityRunCmd, Error>)
    ensures config.singularityRun.None? ==> r == Err(MissingSection("babs_singularity_run"))
    ensures config.singularityRun.Some? && |inputDs| > 1 && !HasKey(config.singularityRun.value, InputPathKey) ==>
      r == Err(InputPathRequired)
    ensures (config.singularityRun.Some? && |inputDs| == 1 && HasKey(config.singularityRun.value, InputPathKey) &&
             Lookup(config.singularityRun.value, InputPathKey) != Str(ExpectedInputPath(inputDs))) ==>
      r == Err(InputPathMismatch(ExpectedInputPath(inputDs)))
    ensures r.Ok? <==>
      config.singularityRun.Some? && |inputDs| > 0 &&
      (|inputDs| > 1 ==> HasKey(config.singularityRun.value, InputPathKey)) &&
      (|inputDs| == 1 && HasKey(config.singularityRun.value, InputPathKey) ==>
        Lookup(config.singularityRun.value, InputPathKey) == Str(ExpectedInputPath(inputDs))) &&
      EntriesWellFormed(config.singularityRun.value)
    ensures r.Ok? ==> (r.value.flagFsLicense <==> AsksForLicense(config.singularityRun.value))
    ensures r.Ok? && !HasKey(config.singularityRun.value, InputPathKey) ==> r.value.inputDir == inputDs[0].pathDataRel
    ensures r.Ok? && HasKey(config.singularityRun.value, InputPathKey) ==>
      Lookup(config.singularityRun.value, InputPathKey).Str? &&
      r.value.inputDir == StripSlash(Lookup(config.singularityRun.value, InputPathKey).s)
    ensures r.Ok? ==> r.value.cmd == Concat(RunFlags(config.singularityRun.value).value.segments)
  {
    if config.singularityRun.None? then Err(MissingSection("babs_singularity_run"))
    else
      var sec := config.singularityRun.value;
      if |inputDs| > 1 && !HasKey(sec, InputPathKey) then Err(InputPathRequired)
      else if |inputDs| == 0 && HasKey(sec, InputPathKey) then Err(NoInputDataset)
      else if |inputDs| == 1 && HasKey(sec, InputPathKey) && Lookup(sec, InputPathKey) != Str(ExpectedInputPath(inputDs))
      then Err(InputPathMismatch(ExpectedInputPath(inputDs)))
      else
        var flags :- RunFlags(sec);
        InputDirIsTheInputPath(sec, flags);
        RunFlagsLicense(sec);
        if flags.inputDir.Some? then Ok(SingularityRunCmd(Concat(flags.segments), flags.fsLicense, flags.inputDir.value))
        else if |inputDs| != 1 then Err(NoInputDataset)
        else Ok(SingularityRunCmd(Concat(flags.segments), flags.fsLicense, inputDs[0].pathDataRel))
  }

  /** In a section with distinct keys the input directory the loop keeps is the
      (stripped) value of the one `$INPUT_PATH` item. */
  lemma {:induction false} InputDirIsTheInputPath(sec: Section, flags: Flags)
    requires RunFlags(sec) == Ok(flags)
    ensures HasKey(sec, InputPathKey) ==>
      Lookup(sec, InputPathKey).Str? && |Lookup(sec, InputPathKey).s| > 0 &&
      flags.inputDir == Some(StripSlash(Lookup(sec, InputPathKey).s))
    decreases |sec|
  {
    if |sec| > 0 {
      var tail: Section := sec[1..];
      var rest := RunFlags(tail).value;
      if sec[0].0 == InputPathKey {
        assert !HasKey(tail, InputPathKey) by {
          forall i | 0 <= i < |tail| ensures tail[i].0 != InputPathKey {
            assert tail[i] == sec[i + 1];
          }
        }
      } else {
        if HasKey(sec, InputPathKey) {
          var i :| 0 <= i < |sec| && sec[i].0 == InputPathKey;
          assert tail[i - 1] == sec[i];
        }
        InputDirIsTheInputPath(tail, rest);
      }
    }
  }
}
