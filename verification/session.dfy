/** Session-type normalisation and the shape checks on unzipped input datasets
    (babs/utils.py, `validate_type_session` and
    `check_validity_unzipped_input_dataset`). */
module Session {
  import opened Wrappers
  import opened Text
  import opened Types

  const SingleSesAliases: seq<string> :=
    ["single-ses", "single_ses", "single-session", "single_session"]

  const MultiSesAliases: seq<string> :=
    ["multi-ses", "multi_ses", "multiple-ses", "multiple_ses",
     "multi-session", "multi_session", "multiple-session", "multiple_session"]

  /** Maps every accepted spelling of a session type to the canonical one and
      rejects anything else. */
  function ValidateTypeSession(typeSession: string): (r: Result<SessionType, Error>)
    ensures r == Ok(SingleSes) <==> typeSession in SingleSesAliases
    ensures r == Ok(MultiSes) <==> typeSession in MultiSesAliases
    ensures r.Err? <==> typeSession !in SingleSesAliases + MultiSesAliases
    ensures r.Err? ==> r.error == InvalidTypeSession(typeSession)
  {
    if typeSession in SingleSesAliases then Ok(SingleSes)
    else if typeSession in MultiSesAliases then Ok(MultiSes)
    else Err(InvalidTypeSession(typeSession))
  }

  /** The canonical name of each session type is itself an accepted alias of
      that type, so validating a validated value changes nothing. */
  lemma ValidateTypeSessionIdempotent(typeSession: string)
    ensures forall t: SessionType :: ValidateTypeSession(t.Name()) == Ok(t)
    ensures ValidateTypeSession(typeSession).Ok? ==>
      ValidateTypeSession(ValidateTypeSession(typeSession).value.Name()) == ValidateTypeSession(typeSession)
  {
    assert SingleSes.Name() == SingleSesAliases[0];
    assert MultiSes.Name() == MultiSesAliases[0];
  }

  /** Immediate sub-directory names of the directory reached by following the
      given path components (a dataset root, then a subject folder). */
  type Listing = seq<string> -> seq<string>

  predicate HasEntryWithPrefix(names: seq<string>, prefix: string) {
    exists k :: 0 <= k < |names| && StartsWith(names[k], prefix)
  }

  predicate IsHidden(name: string) {
    |name| > 0 && name[0] == '.'
  }

  /** The dataset root holds at least one `sub-*` folder. */
  predicate SubLevelValid(ds: InputDs, subdirs: Listing) {
    HasEntryWithPrefix(subdirs([ds.pathNowAbs]), "sub-")
  }

  /** Every non-hidden folder of the dataset root holds a `ses-*` folder. */
  predicate SesLevelValid(ds: InputDs, subdirs: Listing) {
    var subs := subdirs([ds.pathNowAbs]);
    forall k :: 0 <= k < |subs| && !IsHidden(subs[k]) ==>
      HasEntryWithPrefix(subdirs([ds.pathNowAbs, subs[k]]), "ses-")
  }

  /** Zipped datasets are not inspected here; an unzipped one needs subject
      folders, and session folders in each of them in a multi-session project. */
  predicate DatasetValid(ds: InputDs, multi: bool, subdirs: Listing) {
    ds.isZipped || (SubLevelValid(ds, subdirs) && (multi ==> SesLevelValid(ds, subdirs)))
  }

  /** The first non-hidden folder from position `k` on without a `ses-*` folder. */
  function FirstWithoutSes(root: string, subs: seq<string>, subdirs: Listing, k: nat): Option<string>
    decreases |subs| - k
  {
    if k >= |subs| then None
    else if !IsHidden(subs[k]) && !HasEntryWithPrefix(subdirs([root, subs[k]]), "ses-")
    then Some(subs[k])
    else FirstWithoutSes(root, subs, subdirs, k + 1)
  }

  /** The error reported for an invalid dataset at position `i`. */
  function DatasetError(i: nat, ds: InputDs, subdirs: Listing): Error {
    if !SubLevelValid(ds, subdirs) then NoSubFolder(i + 1, ds.name)
    else match FirstWithoutSes(ds.pathNowAbs, subdirs([ds.pathNowAbs]), subdirs, 0)
      case Some(sub) => NoSesFolder(i + 1, ds.name, sub)
      case None => NoSubFolder(i + 1, ds.name)
  }

  /** Checks each unzipped dataset in order and reports the first violation:
      a missing `sub-*` folder, or (multi-session only) the first non-hidden
      subject folder without a `ses-*` folder. */
  method CheckValidityUnzippedInputDataset(inputDs: seq<InputDs>, typeSession: string, subdirs: Listing)
    returns (r: Outcome<Error>)
    ensures typeSession != "multi-ses" && typeSession != "single-ses" ==>
      r == Fail(InvalidTypeSession(typeSession))
    ensures r.Pass? <==>
      (typeSession == "multi-ses" || typeSession == "single-ses") &&
      forall i :: 0 <= i < |inputDs| ==> DatasetValid(inputDs[i], typeSession == "multi-ses", subdirs)
    ensures r.Fail? && (typeSession == "multi-ses" || typeSession == "single-ses") ==>
      exists i :: 0 <= i < |inputDs| &&
        !DatasetValid(inputDs[i], typeSession == "multi-ses", subdirs) &&
        (forall j :: 0 <= j < i ==> DatasetValid(inputDs[j], typeSession == "multi-ses", subdirs)) &&
        r.error == DatasetError(i, inputDs[i], subdirs)
  {
    if typeSession != "multi-ses" && typeSession != "single-ses" {
      return Fail(InvalidTypeSession(typeSession));
    }
    var multi := typeSession == "multi-ses";
    var i := 0;
    while i < |inputDs|
      invariant 0 <= i <= |inputDs|
      invariant forall j :: 0 <= j < i ==> DatasetValid(inputDs[j], multi, subdirs)
    {
      var ds := inputDs[i];
      if !ds.isZipped {
        var subs := subdirs([ds.pathNowAbs]);
        var k := 0;
        while k < |subs| && !StartsWith(subs[k], "sub-")
          invariant 0 <= k <= |subs|
          invariant forall m :: 0 <= m < k ==> !StartsWith(subs[m], "sub-")
        {
          k := k + 1;
        }
        if k == |subs| {
          return Fail(NoSubFolder(i + 1, ds.name));
        }
        if multi {
          k := 0;
          while k < |subs|
            invariant 0 <= k <= |subs|
            invariant forall m :: 0 <= m < k && !IsHidden(subs[m]) ==>
              HasEntryWithPrefix(subdirs([ds.pathNowAbs, subs[m]]), "ses-")
            invariant FirstWithoutSes(ds.pathNowAbs, subs, subdirs, 0) ==
              FirstWithoutSes(ds.pathNowAbs, subs, subdirs, k)
          {
            if !IsHidden(subs[k]) {
              var sess := subdirs([ds.pathNowAbs, subs[k]]);
              var m := 0;
              while m < |sess| && !StartsWith(sess[m], "ses-")
                invariant 0 <= m <= |sess|
                invariant forall n :: 0 <= n < m ==> !StartsWith(sess[n], "ses-")
              {
                m := m + 1;
              }
              if m == |sess| {
                return Fail(NoSesFolder(i + 1, ds.name, subs[k]));
              }
            }
            k := k + 1;
          }
        }
      }
      i := i + 1;
    }
    return Pass;
  }
}
