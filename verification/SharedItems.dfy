/**
 Which files of the shared album folders a scan reports as new
 (rust/src/api/api.rs, shared_items).
 */
module SharedItems {
  import opened Wrappers

  type Path = string

  /**
   What one scan finds on disk: the paths that exist when the old ones are
   rechecked, and a listing for each folder. A folder may fail to be read, and so
   may an entry. Nothing ties existence to the listings: the disk may change in between.
   */
  datatype Snapshot = Snapshot(existing: set<Path>, folders: seq<Option<seq<Option<Path>>>>)

  /** The paths a listing names. */
  function Named(entries: seq<Option<Path>>): set<Path> {
    set i | 0 <= i < |entries| && entries[i].Some? :: entries[i].value
  }

  function Listed(folders: seq<Option<seq<Option<Path>>>>): set<Path> {
    set i, p | 0 <= i < |folders| && folders[i].Some? && p in Named(folders[i].value) :: p
  }

  /** A path is listed exactly when some readable entry of some readable folder names it. */
  lemma ListedExactly(folders: seq<Option<seq<Option<Path>>>>, p: Path)
    ensures p in Listed(folders) <==>
            exists i, j :: 0 <= i < |folders| && folders[i].Some? && 0 <= j < |folders[i].value| && folders[i].value[j] == Some(p)
  {
    if p in Listed(folders) {
      var i :| 0 <= i < |folders| && folders[i].Some? && p in Named(folders[i].value);
      var j :| 0 <= j < |folders[i].value| && folders[i].value[j] == Some(p);
    }
    forall i, j | 0 <= i < |folders| && folders[i].Some? && 0 <= j < |folders[i].value| && folders[i].value[j] == Some(p)
      ensures p in Listed(folders)
    {
      assert p in Named(folders[i].value);
    }
  }

  /** The paths remembered after a scan. */
  function Remember(seen: set<Path>, s: Snapshot): set<Path> {
    seen * s.existing + Listed(s.folders)
  }

  function NewPaths(seen: set<Path>, s: Snapshot): set<Path> {
    Listed(s.folders) - seen * s.existing
  }

  /** One scan, as it walks the folders. */
  method Scan(seenBefore: set<Path>, s: Snapshot) returns (seen: set<Path>, added: set<Path>)
    ensures seen == Remember(seenBefore, s)
    ensures added == NewPaths(seenBefore, s)
  {
    added := {};
    seen := set p | p in seenBefore && p in s.existing;
    ghost var kept := seen;
    for i := 0 to |s.folders|
      invariant seen == kept + Listed(s.folders[..i])
      invariant added == Listed(s.folders[..i]) - kept
    {
      ListedStep(s.folders, i);
      if s.folders[i].None? { continue; }
      var entries := s.folders[i].value;
      ghost var listed := Listed(s.folders[..i]);
      for j := 0 to |entries|
        invariant seen == kept + (listed + Named(entries[..j]))
        invariant added == listed + Named(entries[..j]) - kept
      {
        NamedStep(entries, j);
        if entries[j].None? { continue; }
        var p := entries[j].value;
        if p in seen { continue; }
        seen := seen + {p};
        added := added + {p};
      }
      assert entries[..|entries|] == entries;
    }
    assert s.folders[..|s.folders|] == s.folders;
  }

  lemma NamedStep(entries: seq<Option<Path>>, j: nat)
    requires j < |entries|
    ensures Named(entries[..j + 1]) == Named(entries[..j]) + if entries[j].Some? then {entries[j].value} else {}
  {
    var a, b := entries[..j], entries[..j + 1];
    assert forall i :: 0 <= i < j ==> a[i] == b[i];
    forall p ensures p in Named(b) <==> p in Named(a) || entries[j] == Some(p) {
      if p in Named(a) {
        var i :| 0 <= i < |a| && a[i] == Some(p);
        assert b[i] == Some(p);
      }
      if entries[j] == Some(p) { assert b[j] == Some(p); }
    }
  }

  lemma ListedStep(folders: seq<Option<seq<Option<Path>>>>, i: nat)
    requires i < |folders|
    ensures Listed(folders[..i + 1]) == Listed(folders[..i]) + if folders[i].Some? then Named(folders[i].value) else {}
  {
    var a, b := folders[..i], folders[..i + 1];
    forall p ensures p in Listed(b) <==> p in Listed(a) || (folders[i].Some? && p in Named(folders[i].value)) {
      if p in Listed(a) {
        var k :| 0 <= k < |a| && a[k].Some? && p in Named(a[k].value);
        assert b[k] == a[k];
      }
      if folders[i].Some? && p in Named(folders[i].value) { assert b[i] == folders[i]; }
    }
  }

  // ---------------------------------------------------------------- sequences of scans

  /** The paths remembered after a sequence of scans, starting from none. */
  function SeenAfter(snaps: seq<Snapshot>): set<Path> {
    if snaps == [] then {} else Remember(SeenAfter(snaps[..|snaps| - 1]), snaps[|snaps| - 1])
  }

  /** What the n-th scan reports. */
  function Reported(snaps: seq<Snapshot>, n: nat): set<Path>
    requires n < |snaps|
  {
    NewPaths(SeenAfter(snaps[..n]), snaps[n])
  }

  /** The path was listed at scan j and has existed at every scan after it, up to and including scan n. */
  predicate StayedSince(snaps: seq<Snapshot>, p: Path, j: nat, n: nat)
    requires n < |snaps|
  {
    j < n && p in Listed(snaps[j].folders) && forall k :: j < k <= n ==> p in snaps[k].existing
  }

  lemma {:induction false} SeenExactly(snaps: seq<Snapshot>, p: Path, n: nat)
    requires n < |snaps|
    ensures p in SeenAfter(snaps[..n]) && p in snaps[n].existing <==> exists j: nat :: StayedSince(snaps, p, j, n)
  {
    if n > 0 {
      SeenExactly(snaps, p, n - 1);
      assert snaps[..n][..n - 1] == snaps[..n - 1] && snaps[..n][n - 1] == snaps[n - 1];
      if p in SeenAfter(snaps[..n]) && p in snaps[n].existing {
        if p in Listed(snaps[n - 1].folders) {
          assert StayedSince(snaps, p, n - 1, n);
        } else {
          var j: nat :| StayedSince(snaps, p, j, n - 1);
          assert StayedSince(snaps, p, j, n);
        }
      }
      if exists j: nat :: StayedSince(snaps, p, j, n) {
        var j: nat :| StayedSince(snaps, p, j, n);
        if j < n - 1 { assert StayedSince(snaps, p, j, n - 1); }
      }
    }
  }

  /**
   A scan reports a path exactly when it is listed now and no earlier scan listed it
   since which it existed at every scan.
   */
  lemma ReportedExactly(snaps: seq<Snapshot>, p: Path, n: nat)
    requires n < |snaps|
    ensures p in Reported(snaps, n) <==> p in Listed(snaps[n].folders) && !exists j: nat :: StayedSince(snaps, p, j, n)
  {
    SeenExactly(snaps, p, n);
  }

  /** A file that stays is reported once; removed for a scan and put back, it is reported again. */
  lemma ReportedAgainOnlyAfterAbsence(snaps: seq<Snapshot>, p: Path, m: nat, n: nat)
    requires m < n < |snaps| && p in Reported(snaps, m)
    ensures p in Reported(snaps, n) ==> exists k :: m < k <= n && p !in snaps[k].existing
    ensures p in Listed(snaps[n].folders) && p !in snaps[n].existing ==> p in Reported(snaps, n)
  {
    ReportedExactly(snaps, p, m);
    ReportedExactly(snaps, p, n);
    if forall k :: m < k <= n ==> p in snaps[k].existing { assert StayedSince(snaps, p, m, n); }
  }
}
