# BABS core, modelled in Dafny

BABS (BIDS App Bootstrap) prepares a DataLad analysis project in which a
BIDS App container runs once per subject, or once per subject and session,
on a compute cluster. This project models the pure logic at the centre of
that preparation and of the two job commands:

- the session type of a project (`single-ses` / `multi-ses` and their
  accepted spellings), and the folder-level sanity check of the unzipped
  input datasets;
- the generated script fragments:
  - the `singularity run` flags built from section `babs_singularity_run`;
  - the `7z` zipping commands built from section `babs_zip_foldername`;
  - the unzipping commands and the zip-file lookup for zipped input datasets;
  - the cluster-resource header built from section `cluster_resources`;
  - the `datalad run` command;
- the filtering of the initial subject (session) list by `required_files`,
  and its flattening into the final list of jobs;
- in `babs-submit` and `babs-status`:
  - the handling of `--count`, `--all`, `--job`, `--resubmit` and
    `--resubmit-job`;
  - the sanity check of requested jobs against the job status ledger
    (`check_df_job_specific`).

Every Python exception on these paths (an explicit `raise`, a failed
`assert`, a `KeyError` for a missing section, a `TypeError` when a YAML
`null` is concatenated, an `UnboundLocalError`, an `IndexError`) becomes an
`Err` value of the `Types.Error` datatype. Where several checks can fail,
the one reported is the one the source hits first.

Modules:

| file | module | models |
|---|---|---|
| wrappers.dfy | `Wrappers` | `Option`, `Result`, `Outcome` |
| text.dfy | `Text` | prefix tests, concatenation, `str.replace`, ASCII upper-casing |
| types.dfy | `Types` | YAML values and sections, configuration, input datasets, jobs, errors |
| seqs.dfy | `Seqs` | order-preserving filtering and `drop_duplicates(keep='first')` |
| session.dfy | `Session` | `validate_type_session`, `check_validity_unzipped_input_dataset` |
| singularity.dfy | `SingularityRun` | `replace_placeholder_from_config`, `generate_cmd_singularityRun_from_config` |
| zip.dfy | `ZipScripts` | `generate_cmd_zipping_from_config`, `generate_cmd_unzip_inputds`, `generate_cmd_determine_zipfilename` |
| zip_outputs.dfy | `ZipOutputsAgree` | agreement of the zip script with the outputs `datalad run` saves |
| bashhead.dfy | `Bashhead` | `generate_one_bashhead_resources`, `generate_bashhead_resources` |
| datalad_run.dfy | `DataladRun` | `generate_cmd_datalad_run` |
| inclusion.dfy | `Inclusion` | the `required_files` part of `get_list_sub_ses` |
| cli.dfy | `Cli` | `babs_submit_main`, `babs_status_main`, `check_df_job_specific` |

The environment is abstracted as parameters:

- a directory listing is a function from a path (as a list of components)
  to the names of its immediate sub-directories;
- `glob.glob` is a predicate on a path pattern, true when something matches;
- the file lock on the ledger is an input outcome, `Acquired` or `TimedOut`;
- the ledger (`job_status.csv`) is the list of its jobs.

The generated scripts are strings, built from the same pieces in the same
order as the source builds them.

## Model

| member | source | states |
|---|---|---|
| `Session.ValidateTypeSession` | babs/utils.py:99-121 | Exactly the four single-session spellings give `single-ses`, and exactly the eight multi-session spellings give `multi-ses`. Every other string is rejected with that string. |
| `Session.ValidateTypeSessionIdempotent` | babs/utils.py:105-121 | A canonical name validates to itself, so validating an already validated type changes nothing. |
| `Session.CheckValidityUnzippedInputDataset` | babs/utils.py:33-96 | A type other than the two canonical names is rejected first. Otherwise the check passes iff every unzipped dataset has a `sub-*` folder and, in multi-session projects, every non-hidden folder at the dataset root (not only the `sub-*` ones) has a `ses-*` folder. On failure the error is the one of the first invalid dataset: its missing subject level, or else its first subject without sessions. |
| `SingularityRun.ReplacePlaceholderFromConfig` | babs/utils.py:124-140 | `$BABS_TMPDIR` and `$FREESURFER_LICENSE` (after `str()`) map to their fixed paths. Any other value fails, because `replaced` is never bound. |
| `SingularityRun.FlagArgument` | babs/utils.py:219-239 | The argument after a flag is absent exactly for `""`, `null`, `"Null"` and `"NULL"`. The two placeholders are replaced. Another `$BABS_` value fails. Every other string, including other `$` values such as `$HOME`, is passed through unchanged. |
| `SingularityRun.FlagSegment` | babs/utils.py:219-239 | Each flag segment starts with the separator and the key. It is the bare flag exactly when the value is flag-only. It fails exactly on an unknown `$BABS_` value. It asks for the FreeSurfer license exactly when the value is `$FREESURFER_LICENSE`. |
| `SingularityRun.StripSlash` | babs/utils.py:204-205 | Removes at most one trailing `/`, and leaves a path without one unchanged. |
| `SingularityRun.InputDirOf` | babs/utils.py:201-215 | The `$INPUT_PATH` value is usable exactly when it is a non-empty string. It becomes the input directory without its trailing slash. |
| `SingularityRun.FlagEntries` | babs/utils.py:198-219 | The entries that become flags are entries of the section, none of them `$INPUT_PATH`. |
| `SingularityRun.RunFlags` | babs/utils.py:198-239 | The loop over the section succeeds exactly when no value is a bad placeholder and any `$INPUT_PATH` value is a non-empty string. It yields an input directory exactly when the section has `$INPUT_PATH`. |
| `SingularityRun.RunFlagsSegments` | babs/utils.py:198-239 | One segment per non-`$INPUT_PATH` entry, in section order. Each segment is that entry's flag segment. |
| `SingularityRun.RunFlagsLicense` | babs/utils.py:227-230 | The FreeSurfer-license flag is set exactly when some entry's value is `$FREESURFER_LICENSE`. |
| `SingularityRun.GenerateCmdSingularityRun` | babs/utils.py:143-255 | A missing section is an error. With several datasets `$INPUT_PATH` is required. With one dataset, a given `$INPUT_PATH` must be `inputs/data/<name>`. Success holds exactly under those rules and well-formed entries. The command is the concatenation of the flag segments. The license flag is returned as computed. The input directory is the `$INPUT_PATH` value without a trailing slash, or else the only dataset's data path. |
| `SingularityRun.InputDirIsTheInputPath` | babs/utils.py:201-248 | The input directory found by the loop is the section's own `$INPUT_PATH` value, with one trailing slash removed. |
| `ZipScripts.ZipLineArchives` | babs/utils.py:374-375 | Each zip line archives folder `key` into `../${subid}[_${sesid}]_<key>-<version>.zip`. |
| `ZipScripts.ZipLines` | babs/utils.py:363-375 | One zip line per entry of `babs_zip_foldername`, in order. It fails exactly when some version is `null`, naming that entry. |
| `ZipScripts.GenerateCmdZipping` | babs/utils.py:329-385 | A missing section is an error. Otherwise the script succeeds iff every version is a string. It is `cd <outputs>`, then the zip lines, then `cd ..`. |
| `ZipScripts.ZipArchiveNameSession` | babs/utils.py:351-375 | For a folder name not starting with `$`, the archive name carries the session variable exactly in multi-session projects. |
| `ZipScripts.UnzipBlocks` | babs/utils.py:468-514 | The unzip blocks are empty exactly when no input dataset is zipped. |
| `ZipScripts.GenerateCmdUnzipInputds` | babs/utils.py:432-516 | The command is empty exactly when no dataset is zipped. Otherwise it begins by saving the working directory. |
| `ZipScripts.LookupBlocks` | babs/utils.py:626-669 | The zip-file lookups are empty exactly when no input dataset is zipped. |
| `ZipScripts.GenerateCmdDetermineZipfilename` | babs/utils.py:599-684 | The command is empty exactly when no dataset is zipped. Otherwise it starts with the comment header. |
| `ZipScripts.LookupDefinesUnzipVariable` | babs/utils.py:628-637 | The lookup for a zipped dataset assigns the variable `<NAME>_ZIP`, and the unzip block reads that same variable. |
| `ZipScripts.UnzipBlocksRead` | babs/utils.py:468-514 | The unzip blocks read the archive variable of every zipped dataset. |
| `ZipScripts.LookupBlocksDefine` | babs/utils.py:626-669 | The lookups assign the archive variable of every zipped dataset. |
| `ZipScripts.UnzipReadsWhatLookupDefines` | babs/utils.py:432-516 | For every zipped input dataset, the zip-file lookup script (babs/utils.py:599-684) assigns `<NAME>_ZIP`, and the unzip script reads that same variable as `${<NAME>_ZIP}`. |
| `ZipOutputsAgree.ZipScriptMatchesDataladOutputs` | babs/utils.py:749-754 | Whenever the zip script can be generated, so can the `datalad run` command. The archives the zip script creates are exactly, in order, the `-o` outputs `datalad run` saves. |
| `Bashhead.GenerateOneBashheadResources` | babs/utils.py:519-556 | A key unknown to the cluster system is an error. A line starts with `#`, and with `#$ ` on SGE. A format without `$VALUE` is copied verbatim after that prefix. |
| `Bashhead.OneBashheadSubstitutesValue` | babs/utils.py:552-554 | In a format `before$VALUEafter` whose first `$VALUE` is the one after `before`, the line is the prefix, `before`, the value's `str()`, and `after` with every further `$VALUE` replaced the same way. Together with `Text.ReplaceFirst` and `Text.ReplaceAbsent`, this covers every `$VALUE` in the format, as `str.replace` does. |
| `Bashhead.ResourceEntries` | babs/utils.py:586-588 | The entries that become header lines are entries of the section other than `customized_text`. |
| `Bashhead.ResourceLines` | babs/utils.py:586-591 | One header line per resource entry, in order, each that entry's one-line header. It fails exactly when a key is unknown to the system. |
| `Bashhead.GenerateBashheadResources` | babs/utils.py:558-597 | A missing section is an error. Otherwise success holds iff every key is known and `customized_text`, if present, is a string. The header is the resource lines, each ended by a newline, followed by the customized text and a newline. |
| `DataladRun.DatasetInputLines` | babs/utils.py:716-733 | Every input line of a dataset is a `-i` line. |
| `DataladRun.AllDatasetInputLines` | babs/utils.py:716-733 | Every input line of every dataset is a `-i` line. |
| `DataladRun.OutputLinesOf` | babs/utils.py:749-754 | One `-o` line per entry of `babs_zip_foldername`, in order. It fails exactly on a `null` version. |
| `DataladRun.DataladRunLines` | babs/utils.py:707-771 | The command can be built exactly when `babs_zip_foldername` is present and all its versions are strings. A missing section is the section error. |
| `DataladRun.GenerateCmdDataladRun` | babs/utils.py:687-772 | The command exists exactly when `babs_zip_foldername` is present with string versions; a missing section is the section error. It asks for `--expand inputs` exactly when some input dataset is unzipped, and it declares one `-o` output per zip folder entry, in section order, naming that entry's archive. |
| `DataladRun.OutputLineArchive` | babs/utils.py:749-754 | Each `-o` line names the archive `${subid}[_${sesid}]_<key>-<version>.zip`. |
| `DataladRun.OutputLinesNameArchives` | babs/utils.py:749-754 | The output lines are all `-o` lines, and line i names the archive of entry i. |
| `DataladRun.InputPartHasNoOutputs` | babs/utils.py:707-746 | Nothing before the output lines is an output line. |
| `DataladRun.TailHasNoOutputs` | babs/utils.py:757-771 | The message and command lines are not output lines. |
| `DataladRun.DataladRunOutputs` | babs/utils.py:749-754 | The outputs the command saves are exactly one archive per zip folder entry, in section order. |
| `DataladRun.DataladRunExpandsInputs` | babs/utils.py:715-743 | `--expand inputs` appears exactly when some input dataset is unzipped. |
| `Inclusion.DatasetKeyRoundTrip` | babs/utils.py:904-905 | The number read back from `$INPUT_DATASET_#<n>` is n. |
| `Inclusion.DatasetIndices` | babs/utils.py:903-910 | Every key must carry a dataset number no larger than the number of datasets. The first offending key is reported. Each index is its number minus one. |
| `Inclusion.CheckRequiredFiles` | babs/utils.py:898-910 | More keys than datasets is an error before any key is read. Otherwise success holds exactly when every key designates a dataset that exists. |
| `Inclusion.ResolveChecks` | babs/utils.py:918-927 | A key numbered 0 fails the dataset lookup. Zipped datasets are skipped. Every unzipped designated dataset is checked, and nothing else is. |
| `Inclusion.Checks` | babs/utils.py:898-927 | The required-file checks exist exactly when the section names at most as many datasets as exist, each by a number from 1 to the number of datasets. Every check is against an unzipped input dataset. |
| `Inclusion.FirstMissing` | babs/utils.py:934-960 | Nothing is missing exactly when every required file is found. Otherwise the result is a required file that is not found. |
| `Inclusion.SubjectPass` | babs/utils.py:929-963 | One dataset keeps exactly the subjects that have each of its files, directly or one folder below the subject folder. The reported subjects are exactly the others, once each and in list order. Each report names the dataset and the first of its files the subject misses. |
| `Inclusion.SubjectPassesKeep` | babs/utils.py:918-963 | Describes `Inclusion.SubjectPasses`, the loop over the checked datasets. All passes together keep exactly the subjects that have every required file of every checked dataset, in order. Kept and reported subjects add up to the initial list. |
| `Inclusion.SubjectPassesReport` | babs/utils.py:918-963 | Over all passes, the reported subjects are, counted with multiplicity, exactly the subjects lacking some required file. Each report names the first checked dataset the subject fails and the first file of that dataset it misses. |
| `Inclusion.FilterSingleSes` | babs/utils.py:894-963 | Without `required_files` the list is unchanged. Otherwise filtering succeeds exactly when the section is valid. It keeps exactly the subjects with every required file. Every other subject is reported exactly once, at the first checked dataset it fails, with the first file of that dataset it misses. |
| `Inclusion.SessionPass` | babs/utils.py:1012-1032 | One dataset keeps exactly a subject's sessions that have each of its files. The reported sessions are exactly the others, once each and in order. Each report names the subject, the dataset and the first of its files the session misses. |
| `Inclusion.DatasetPass` | babs/utils.py:1008-1035 | One dataset's pass keeps every subject and filters its sessions. Kept and reported sessions add up to the initial ones. |
| `Inclusion.DatasetPassesKeep` | babs/utils.py:996-1035 | Describes `Inclusion.DatasetPasses`, the loop over the checked datasets. All passes together keep, for each subject, exactly the sessions that have every required file of every checked dataset. |
| `Inclusion.DatasetPassReports` | babs/utils.py:1009-1032 | Every report of one dataset's pass names a (subject, session) pair of the dictionary and that dataset. It gives the first required file of the dataset that the session misses. |
| `Inclusion.DatasetPassesReport` | babs/utils.py:996-1035 | Over all passes, every report names a (subject, session) pair of the initial dictionary and the first checked dataset whose files the session lacks. It gives the first missing file of that dataset, and the session has the files of every earlier dataset. |
| `Inclusion.DropEmpty` | babs/utils.py:1039-1047 | Subjects with no session left are removed, and exactly those are listed. The (subject, session) pairs do not change. |
| `Inclusion.MultiSesPasses` | babs/utils.py:989-1047 | No subject is left without sessions. Kept and reported sessions add up to the initial ones. |
| `Inclusion.FilterMultiSes` | babs/utils.py:989-1047 | Without `required_files` the dictionary is unchanged. Otherwise it succeeds exactly when the section is valid, and the result is the datasets' passes followed by the removal of emptied subjects. |
| `Inclusion.FlattenMembership` | babs/utils.py:1096-1104 | Describes `Inclusion.Flatten`, the dictionary turned into the list of (subject, session) pairs. A pair is in the final list exactly when its session belongs to its subject in the dictionary. |
| `Inclusion.FinalPairs` | babs/utils.py:989-1104 | The final list holds exactly the initial (subject, session) pairs whose session has every required file. |
| `Inclusion.DeletedSubjects` | babs/utils.py:1039-1047 | A subject is listed as deleted exactly when none of its sessions has every required file. |
| `Cli.SubmitCount` | babs/cli.py:297-308 | `--count 0` without `--all` is the only error. `--all` or `--job` means all jobs (-1). Otherwise the count is the one given, or 1. |
| `Cli.ArgsRoundTrip` | babs/cli.py:337-340 | A job written as command-line arguments reads back as the same job. |
| `Cli.CheckJobArgsFrom` | babs/cli.py:315-340 | The argument lists are accepted exactly when each has the expected length, a `sub-*` first and, for multi-session, a `ses-*` second. The first bad list is reported: its length, then its subject, then its session. Each accepted list gives the job it names. |
| `Cli.CheckJobArgs` | babs/cli.py:310-340 | The `--job` assertions: acceptance exactly when every list is well formed. Each accepted list gives the job it names. The first malformed list is the one reported. |
| `Cli.ResubmitFlagsFrom` | babs/cli.py:471-475 | The resubmit conditions are the set of first elements. An empty argument list fails at its index. |
| `Cli.ResubmitFlags` | babs/cli.py:467-484 | Without `--resubmit` there are no conditions. Otherwise a flag is a condition exactly when some argument list starts with it. |
| `Cli.Merge` | babs/cli.py:667 | A row is in the merge exactly when it is requested and in the ledger. |
| `Cli.MergeCountIsSubset` | babs/cli.py:667-671 | For distinct requests, the row-count comparison succeeds exactly when every request is in the ledger. |
| `Cli.CheckDfJobSpecific` | babs/cli.py:643-689 | The result is the requests deduplicated, first occurrences kept. An unknown caller name fails only when there are duplicates or missing jobs. With the lock, every request must be in the ledger. On timeout the requests are not compared with the ledger. |
| `Cli.RowsNameRequests` | babs/cli.py:337-345 | The deduplicated rows name exactly the jobs given on the command line. |
| `Cli.BabsSubmitArgs` | babs/cli.py:296-349 | `--count 0` is refused. With `--job` the count is all. The jobs are well formed, distinct, and exactly those named. With the lock held, they are all in the ledger. With `--job`, the request is accepted exactly when the count is allowed, every list is well formed, and either the lock timed out or every named job is in the ledger. |
| `Cli.ResubmitJobs` | babs/cli.py:499-552 | The `--resubmit-job` lists give jobs exactly when there is at least one list, every list is well formed, and either the lock timed out or every named job is in the ledger. The jobs are then non-empty, distinct and exactly those named. No list at all fails with "no valid job". |
| `Cli.BabsStatusArgs` | babs/cli.py:467-555 | The resubmit conditions and `--reckless` are passed through. The `--resubmit-job` jobs are distinct, exactly those named, non-empty, and in the ledger when the lock is held. An empty request fails with "no valid job". The request succeeds exactly when the resubmit conditions are valid and, if `--resubmit-job` is given, it is non-empty, every list is well formed, and either the lock timed out or every named job is in the ledger. |

## Left out

- Printing, `warnings.warn`, and writing the CSV reports: only the lists the reports would hold are modelled.
- Argument parsing, reading the YAML files, creating the ledger, and locating the project.
- How the initial subject (session) list is found (`get_list_sub_ses` before the `required_files` block). It is an input here.
- `generate_cmd_envvar` and `generate_cmd_filterfile`. Neither is part of this model.
- YAML numbers: values are strings or `null`. `str()` of a number is not modelled.
- `is_zipped` is a plain boolean. The source compares the dataframe cell with `is True` / `is False`, which depends on pandas returning Python booleans.
- The ledger holds one row per job. Its other columns are not modelled, so `merge` returns the requested rows themselves.
- Python's `assert` statements are modelled as active checks, as under the default interpreter. Under `python -O` they would be skipped.
- Directory names are non-empty. `sub_temp[0]` is taken on names the filesystem returns.
- `Inclusion.DatasetIndices`: `int()` is modelled on plain decimal digits only. Python also accepts surrounding blanks, a sign, and `_` separators. Such keys are rejected here as malformed. A negative number, which Python reads and then fails on at lookup, is rejected as well.
- `Text.Upper`: upper-cases ASCII letters only, where Python's `str.upper` covers all of Unicode.
- `ZipScripts.UnzipBlocks`: the contract states when the blocks are empty. The text of each block is given by its definition; which variables the blocks read is `ZipScripts.UnzipBlocksRead`.
- `ZipScripts.LookupBlocks`: the contract states when the lookups are empty; which variables they assign is `ZipScripts.LookupBlocksDefine`.
- `ZipScripts.GenerateCmdUnzipInputds`: the contract states emptiness and the leading line; its agreement with the lookup script is `ZipScripts.UnzipReadsWhatLookupDefines`, which does not fix the order of the blocks.
- `ZipScripts.GenerateCmdDetermineZipfilename`: the contract states emptiness and the leading header; its agreement with the unzip script is `ZipScripts.UnzipReadsWhatLookupDefines`.
- `DataladRun.DatasetInputLines`: the contract states the line kind only. The paths are given by the definition.
- `DataladRun.AllDatasetInputLines`: same as `DataladRun.DatasetInputLines`.
- `Cli.BabsStatusArgs`: the `--job-account` notice depends only on whether `failed` is a resubmit condition, and is a print. The flag itself is passed on unchanged.
- `Inclusion.DatasetPassesReport`: states which pair and dataset each report names. That every dropped pair is reported exactly once follows only from the counts in `Inclusion.MultiSesPasses`; unlike `Inclusion.SubjectPassesReport`, no multiset equality is stated.
- `create_job_status_csv` and `read_job_status_csv` (babs/utils.py, called at babs/cli.py:293, 463 and 664) and the reconciliation of job states in `BABS.babs_status` are not modelled: they read and write files. The ledger is an input, and only the check that the requested jobs are in it is modelled.
