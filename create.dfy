/**
 * `run_snapshot` of `src/main.rs`: create a read-only snapshot of a
 * subvolume, named by the prefix and the current time, unless asked to
 * skip when nothing changed since the latest snapshot. Opening the
 * directories, the subvolume probe, the metadata query and the clock are
 * outside the model: their results are parameters.
 */
module Create {
  import opened Results
  import opened Ioctl
  import opened Records
  import opened Inventory

  /** The subvolume metadata the skip check compares. */
  datatype SubvolInfo = SubvolInfo(uuid: seq<u8>, parentUuid: seq<u8>, generation: int, otransid: int)

  /**
   * No modifying transaction reached the source since the snapshot was
   * taken: the snapshot's parent is the source and it was created at the
   * source's current generation.
   */
  predicate Unchanged(source: SubvolInfo, snap: SubvolInfo)
  {
    (source.uuid, source.generation) == (snap.parentUuid, snap.otransid)
  }

  /**
   * The `skip_if_unchanged` block: `Ok(true)` to stop without creating,
   * `Ok(false)` to go on, or the error that ended the run. `latestInfo` is
   * the metadata query of the first listed snapshot (opening it included),
   * `sourceInfo` that of the source.
   */
  function SkipCheck(skipIfUnchanged: bool, items: seq<DirItem>, prefix: Name, now: Time, parse: Parser,
                     latestInfo: Result<SubvolInfo, Errno>, sourceInfo: Result<SubvolInfo, Errno>)
    : (r: Result<bool, Error>)
    ensures !skipIfUnchanged ==> r == Ok(false)
    ensures r == Ok(true) ==>
      && Candidates(items, prefix, now, parse).Ok? && Candidates(items, prefix, now, parse).value != []
      && latestInfo.Ok? && sourceInfo.Ok? && Unchanged(sourceInfo.value, latestInfo.value)
    ensures r.Err? ==> skipIfUnchanged && (Candidates(items, prefix, now, parse).Err? || latestInfo.Err? || sourceInfo.Err?)
  {
    if !skipIfUnchanged then Ok(false)
    else
      match Candidates(items, prefix, now, parse)
      case Err(e) => Err(e)
      case Ok(found) =>
        if found == [] then Ok(false)
        else if latestInfo.Err? then Err(Os(latestInfo.error))
        else if sourceInfo.Err? then Err(Os(sourceInfo.error))
        else Ok(Unchanged(sourceInfo.value, latestInfo.value))
  }

  /** A skip happens iff asked for, a snapshot exists, both queries succeed and the source is unchanged. */
  lemma SkipIff(skipIfUnchanged: bool, items: seq<DirItem>, prefix: Name, now: Time, parse: Parser,
                latestInfo: Result<SubvolInfo, Errno>, sourceInfo: Result<SubvolInfo, Errno>)
    ensures SkipCheck(skipIfUnchanged, items, prefix, now, parse, latestInfo, sourceInfo) == Ok(true) <==>
      && skipIfUnchanged
      && Candidates(items, prefix, now, parse).Ok? && Candidates(items, prefix, now, parse).value != []
      && latestInfo.Ok? && sourceInfo.Ok?
      && latestInfo.value.parentUuid == sourceInfo.value.uuid
      && latestInfo.value.otransid == sourceInfo.value.generation
  {
  }

  datatype CreateOutcome =
    | SkippedUnchanged(latest: Name)   // nothing changed since this snapshot; no create call
    | WouldCreate(name: Name)          // dry run
    | Created(request: Request)        // the create call issued, and the kernel accepted it

  /** The first of a latest-first ordering of `found` is a latest snapshot of `found`. */
  lemma FirstIsLatest(listed: seq<Snapshot>, found: seq<Snapshot>)
    requires listed != [] && SortedDesc(listed) && multiset(listed) == multiset(found)
    ensures listed[0] in found
    ensures forall s :: s in found ==> s.time <= listed[0].time
  {
    assert listed[0] in multiset(listed);
    forall s | s in found ensures s.time <= listed[0].time {
      assert s in multiset(listed);
      var k :| 0 <= k < |listed| && listed[k] == s;
    }
  }

  /**
   * `run_snapshot`. The name is `prefix` followed by `stamp`, the RFC 3339
   * text of the current instant `now`; the snapshot is created read-only.
   */
  method RunSnapshot(targetDirFd: int, prefix: Name, sourceFd: int, sourceIsSubvol: bool,
                     stamp: Name, now: Time, skipIfUnchanged: bool, dryRun: bool,
                     items: seq<DirItem>, parse: Parser,
                     latestInfo: Result<SubvolInfo, Errno>, sourceInfo: Result<SubvolInfo, Errno>,
                     kernel: Result<(), Errno>)
    returns (r: Result<CreateOutcome, Error>)
    ensures !sourceIsSubvol ==> r == Err(SourceNotSubvolume)
    ensures sourceIsSubvol ==>
      match SkipCheck(skipIfUnchanged, items, prefix, now, parse, latestInfo, sourceInfo)
      case Err(e) => r == Err(e)
      case Ok(skip) =>
        if skip then
          && r.Ok? && r.value.SkippedUnchanged?
          && (exists s :: s in Candidates(items, prefix, now, parse).value && s.fileName == r.value.latest
                && forall s' :: s' in Candidates(items, prefix, now, parse).value ==> s'.time <= s.time)
        else if dryRun then r == Ok(WouldCreate(prefix + stamp))
        else if !IsValidName(prefix + stamp) then r == Err(Os(EINVAL))
        else if kernel.Err? then r == Err(Os(kernel.error))
        else r == Ok(Created(Request(IocSnapCreateV2, targetDirFd,
                                     VolArgs(sourceFd, SUBVOL_RDONLY, EncodeName(prefix + stamp)))))
    ensures r.Ok? && r.value.Created? ==> DecodeName(r.value.request.args.name) == prefix + stamp
  {
    if !sourceIsSubvol {
      return Err(SourceNotSubvolume);
    }
    var name := prefix + stamp;
    if skipIfUnchanged {
      var listing := ListSnapshots(items, prefix, now, parse);
      if listing.Err? {
        return Err(listing.error);
      }
      ghost var found := Candidates(items, prefix, now, parse).value;
      assert |listing.value| == |multiset(listing.value)| == |multiset(found)| == |found|;
      if |listing.value| > 0 {
        var latest := listing.value[0];
        FirstIsLatest(listing.value, found);
        if latestInfo.Err? {
          return Err(Os(latestInfo.error));
        }
        if sourceInfo.Err? {
          return Err(Os(sourceInfo.error));
        }
        if Unchanged(sourceInfo.value, latestInfo.value) {
          return Ok(SkippedUnchanged(latest.fileName));
        }
      }
    }
    if dryRun {
      return Ok(WouldCreate(name));
    }
    var issued, created := SnapCreateV2(targetDirFd, name, sourceFd, true, kernel);
    if created.Err? {
      return Err(Os(created.error));
    }
    return Ok(Created(issued.value));
  }
}
