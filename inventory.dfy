/**
 * `list_snapshots` of `src/main.rs`: the snapshots found in the target
 * directory, latest first. Reading the directory and probing each entry
 * for being a subvolume are done outside the model: the directory is the
 * sequence of entries it yields, each with its type and whether the
 * subvolume probe succeeded. Turning a name suffix into an instant (UTF-8
 * decoding, then RFC 3339 parsing) is the parameter `parse`.
 */
module Inventory {
  import opened Results
  import opened Ioctl
  import opened Records

  /** One item of the directory stream. */
  datatype DirItem =
    | Entry(name: Name, isDir: bool, isSubvol: bool)
    | Unreadable

  /** Decodes the timestamp in a snapshot name; `None` when it does not parse. */
  type Parser = Name -> Option<Time>

  const DOT: Name := [46]
  const DOTDOT: Name := [46, 46]

  /** A directory other than `.` and `..` whose name starts with `prefix`. */
  predicate Matches(item: DirItem, prefix: Name)
  {
    && item.Entry? && item.isDir
    && item.name != DOT && item.name != DOTDOT
    && prefix <= item.name
  }

  /** What one loop iteration of `list_snapshots` does with an item. */
  datatype Step = Skip | Keep(snap: Snapshot) | Fail(error: Error)

  function Examine(item: DirItem, prefix: Name, now: Time, parse: Parser): (r: Step)
    ensures r.Keep? ==> Listed(r.snap, item, prefix, now, parse)
    ensures forall s :: Listed(s, item, prefix, now, parse) ==> r == Keep(s)
    ensures r.Fail? <==>
      || item.Unreadable?
      || (Matches(item, prefix) && (parse(item.name[|prefix|..]).None? || !item.isSubvol))
    ensures Matches(item, prefix) && !item.isSubvol ==> r.Fail?
  {
    if item.Unreadable? then Fail(ReadDirFailed)
    else if !Matches(item, prefix) then Skip
    else
      match parse(item.name[|prefix|..])
      case None => Fail(BadTimestamp(item.name))
      case Some(t) =>
        if !item.isSubvol then Fail(NotSubvolume(item.name))
        else if t > now then Skip
        else Keep(Snapshot(item.name, t, []))
  }

  /** The snapshots `list_snapshots` collects, in directory order, before sorting. */
  function Candidates(items: seq<DirItem>, prefix: Name, now: Time, parse: Parser): (r: Result<seq<Snapshot>, Error>)
    ensures r.Ok? ==> |r.value| <= |items|
    ensures r.Ok? ==> forall s :: s in r.value ==> s.time <= now && s.keepReason == [] && prefix <= s.fileName
  {
    if items == [] then Ok([])
    else
      match Examine(items[0], prefix, now, parse)
      case Skip => Candidates(items[1..], prefix, now, parse)
      case Keep(s) => Prepend([s], Candidates(items[1..], prefix, now, parse))
      case Fail(e) => Err(e)
  }

  /** An entry the listing accepts as a snapshot. */
  predicate Listed(s: Snapshot, item: DirItem, prefix: Name, now: Time, parse: Parser)
  {
    && Matches(item, prefix) && item.isSubvol
    && s.fileName == item.name
    && parse(item.name[|prefix|..]) == Some(s.time)
    && s.time <= now
    && s.keepReason == []
  }

  /**
   * The collected snapshots are exactly the subvolume directories whose
   * name is the prefix followed by a timestamp no later than `now`; and an
   * error is reported exactly when some entry is unreadable, or matches the
   * prefix without a parsable timestamp or without being a subvolume
   * (future-dated or not). The error is the one of the first such entry.
   */
  lemma {:induction false} CandidatesSpec(items: seq<DirItem>, prefix: Name, now: Time, parse: Parser)
    ensures var r := Candidates(items, prefix, now, parse);
      r.Err? <==> exists i :: 0 <= i < |items| && Examine(items[i], prefix, now, parse).Fail?
    ensures var r := Candidates(items, prefix, now, parse);
      r.Err? ==> exists i :: (0 <= i < |items| && Examine(items[i], prefix, now, parse) == Fail(r.error)
                              && forall k :: 0 <= k < i ==> !Examine(items[k], prefix, now, parse).Fail?)
    ensures var r := Candidates(items, prefix, now, parse);
      r.Ok? ==> forall s :: s in r.value <==>
                  exists i :: 0 <= i < |items| && Listed(s, items[i], prefix, now, parse)
  {
    if items != [] {
      CandidatesSpec(items[1..], prefix, now, parse);
      var step := Examine(items[0], prefix, now, parse);
      forall i | 1 <= i < |items|
        ensures Examine(items[i], prefix, now, parse) == Examine(items[1..][i - 1], prefix, now, parse)
      {
      }
      var r := Candidates(items, prefix, now, parse);
      if r.Err? {
        if !step.Fail? {
          var i :| 0 <= i < |items[1..]| && Examine(items[1..][i], prefix, now, parse) == Fail(r.error)
                   && forall k :: 0 <= k < i ==> !Examine(items[1..][k], prefix, now, parse).Fail?;
          assert Examine(items[i + 1], prefix, now, parse) == Fail(r.error);
        }
      }
      if r.Ok? {
        forall s
          ensures s in r.value <==> exists i :: 0 <= i < |items| && Listed(s, items[i], prefix, now, parse)
        {
          if s in r.value {
            if step.Keep? && s == step.snap {
              assert Listed(s, items[0], prefix, now, parse);
            } else {
              var i :| 0 <= i < |items[1..]| && Listed(s, items[1..][i], prefix, now, parse);
              assert Listed(s, items[i + 1], prefix, now, parse);
            }
          } else {
            forall i | 0 <= i < |items| ensures !Listed(s, items[i], prefix, now, parse) {
              if i > 0 {
                assert items[i] == items[1..][i - 1];
              }
            }
          }
        }
      }
    }
  }

  /** A listing as `list_snapshots` may return it: its error, or its snapshots latest first. */
  ghost predicate IsListing(r: Result<seq<Snapshot>, Error>, items: seq<DirItem>, prefix: Name, now: Time, parse: Parser)
  {
    var c := Candidates(items, prefix, now, parse);
    if c.Err? then r == c
    else r.Ok? && SortedDesc(r.value) && multiset(r.value) == multiset(c.value)
  }

  /**
   * Every snapshot of a successful listing comes from a directory entry
   * other than `.` and `..` whose name starts with the prefix, is a
   * subvolume, and carries a timestamp no later than `now`.
   */
  lemma ListingEntries(l: seq<Snapshot>, items: seq<DirItem>, prefix: Name, now: Time, parse: Parser)
    requires IsListing(Ok(l), items, prefix, now, parse)
    ensures forall s :: s in l ==>
      && s.time <= now && prefix <= s.fileName
      && exists i :: 0 <= i < |items| && Matches(items[i], prefix) && items[i].isSubvol && items[i].name == s.fileName
  {
    CandidatesSpec(items, prefix, now, parse);
    var c := Candidates(items, prefix, now, parse).value;
    forall s | s in l
      ensures s.time <= now && prefix <= s.fileName
      ensures exists i :: 0 <= i < |items| && Matches(items[i], prefix) && items[i].isSubvol && items[i].name == s.fileName
    {
      assert s in multiset(l);
      assert s in c;
      var i :| 0 <= i < |items| && Listed(s, items[i], prefix, now, parse);
    }
  }

  /** `list_snapshots`: collect the snapshots in directory order, then sort them latest first. */
  method ListSnapshots(items: seq<DirItem>, prefix: Name, now: Time, parse: Parser)
    returns (r: Result<seq<Snapshot>, Error>)
    ensures r.Err? <==> Candidates(items, prefix, now, parse).Err?
    ensures r.Err? ==> r.error == Candidates(items, prefix, now, parse).error
    ensures r.Ok? ==> SortedDesc(r.value)
    ensures r.Ok? ==> multiset(r.value) == multiset(Candidates(items, prefix, now, parse).value)
  {
    var snaps: seq<Snapshot> := [];
    match Candidates(items, prefix, now, parse) {
      case Ok(c) => assert [] + c == c;
      case Err(_) =>
    }
    for i := 0 to |items|
      invariant Candidates(items, prefix, now, parse) == Prepend(snaps, Candidates(items[i..], prefix, now, parse))
    {
      assert items[i..][1..] == items[i + 1..];
      var item := items[i];
      if item.Unreadable? {
        return Err(ReadDirFailed);
      }
      if !item.isDir || item.name == DOT || item.name == DOTDOT {
        continue;
      }
      if !(prefix <= item.name) {
        continue;
      }
      var time := parse(item.name[|prefix|..]);
      if time.None? {
        return Err(BadTimestamp(item.name));
      }
      if !item.isSubvol {
        return Err(NotSubvolume(item.name));
      }
      if time.value > now {
        continue;
      }
      PrependPrepend(snaps, [Snapshot(item.name, time.value, [])], Candidates(items[i + 1..], prefix, now, parse));
      snaps := snaps + [Snapshot(item.name, time.value, [])];
    }
    assert snaps + [] == snaps;
    var a := new Snapshot[|snaps|](k requires 0 <= k < |snaps| => snaps[k]);
    assert a[..] == snaps;
    SortByTimeDesc(a);
    r := Ok(a[..]);
  }

  /** Exchanges two elements of `a`. */
  method Swap(a: array<Snapshot>, i: int, j: int)
    requires 0 <= i < j < a.Length
    modifies a
    ensures a[i] == old(a[j]) && a[j] == old(a[i])
    ensures forall k :: 0 <= k < a.Length && k != i && k != j ==> a[k] == old(a[k])
    ensures multiset(a[..]) == multiset(old(a[..]))
  {
    a[i], a[j] := a[j], a[i];
  }

  /**
   * `sort_unstable_by_key(|s| Reverse(s.time))`: reorder `a` latest first.
   * The order among snapshots with equal times is not specified.
   */
  method SortByTimeDesc(a: array<Snapshot>)
    modifies a
    ensures SortedDesc(a[..])
    ensures multiset(a[..]) == multiset(old(a[..]))
  {
    var i := 0;
    while i < a.Length
      invariant 0 <= i <= a.Length
      invariant forall p, q :: 0 <= p < q < i ==> a[p].time >= a[q].time
      invariant multiset(a[..]) == multiset(old(a[..]))
    {
      var j := i;
      while j > 0 && a[j - 1].time < a[j].time
        invariant 0 <= j <= i
        invariant forall p, q :: 0 <= p < q <= i && q != j ==> a[p].time >= a[q].time
        invariant multiset(a[..]) == multiset(old(a[..]))
      {
        Swap(a, j - 1, j);
        j := j - 1;
      }
      i := i + 1;
    }
  }
}
