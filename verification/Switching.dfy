/** Switching an instance's Google-services provider: back up, change, and roll back if the change fails. */
module Switching {
  import opened FileSystem
  import opened Disk
  import opened Overlay
  import opened Wrappers

  datatype VmRunState = Running | Stopped

  datatype SwitchResult = SwitchResult(newProvider: Provider, restartRequired: bool)

  datatype GappsSource = Opengapps | Mindthegapps

  /** What a provider's overlay holds, whatever was there before. */
  function Canonical(target: Provider): Fs {
    match target
    case Microg => map[]
    case NoProvider => map[[] := Dir, MARKER := File("none")]
    case Gapps => map[[] := Dir, SYSTEM := Dir, SYSTEM_APP := Dir, MARKER := File("gapps")]
  }

  method DownloadGapps(source: GappsSource) returns (r: Outcome)
    ensures r.Failure? ==> r.error == DownloadFailed
  {
    if * {
      return Failure(DownloadFailed);
    }
    r := Success(());
  }

  method VerifyHash(source: GappsSource) returns (r: Outcome)
    ensures r.Failure? ==> r.error == HashMismatch
  {
    if * {
      return Failure(HashMismatch);
    }
    r := Success(());
  }

  method TransitionToGapps(disk: Disk, overlay: Path, source: GappsSource) returns (r: Result<SwitchResult, GServicesError>)
    requires WellFormed(disk.fs)
    modifies disk
    ensures Kept(old(disk.fs), old(disk.history), disk.fs, disk.history, overlay)
    ensures r.Success? ==> r.value == SwitchResult(Gapps, true) && TreeAt(disk.fs, overlay) == Canonical(Gapps)
    ensures r.Failure? && r.error in {DownloadFailed, HashMismatch} ==> disk.fs == old(disk.fs) && disk.history == old(disk.history)
  {
    ghost var a, h := disk.fs, disk.history;
    KeptSelf(a, h, overlay);
    hide WellFormed, Frame, Kept, TreeAt;
    var got := DownloadGapps(source);
    if got.Failure? {
      return Failure(got.error);
    }
    var sound := VerifyHash(source);
    if sound.Failure? {
      return Failure(sound.error);
    }
    var reset := ResetOverlayToBase(disk, overlay);
    if reset.Failure? {
      return Failure(reset.error);
    }
    ghost var b, h1 := disk.fs, disk.history;
    KeptFrame(a, h, b, h1, overlay);
    var applied := ApplyGappsOverlay(disk, overlay);
    KeptChain(a, h, b, h1, disk.fs, disk.history, overlay);
    if applied.Failure? {
      return Failure(applied.error);
    }
    r := Success(SwitchResult(Gapps, true));
  }

  method TransitionToMicrog(disk: Disk, overlay: Path) returns (r: Result<SwitchResult, GServicesError>)
    requires WellFormed(disk.fs)
    modifies disk
    ensures r.Failure? ==> r.error.OverlayError?
    ensures Kept(old(disk.fs), old(disk.history), disk.fs, disk.history, overlay)
    ensures r.Success? ==> r.value == SwitchResult(Microg, true) && TreeAt(disk.fs, overlay) == Canonical(Microg)
  {
    var reset := ResetOverlayToBase(disk, overlay);
    if reset.Failure? {
      return Failure(reset.error);
    }
    r := Success(SwitchResult(Microg, true));
  }

  method TransitionToNone(disk: Disk, overlay: Path) returns (r: Result<SwitchResult, GServicesError>)
    requires WellFormed(disk.fs)
    modifies disk
    ensures r.Failure? ==> r.error.OverlayError?
    ensures Kept(old(disk.fs), old(disk.history), disk.fs, disk.history, overlay)
    ensures r.Success? ==> r.value == SwitchResult(NoProvider, true) && TreeAt(disk.fs, overlay) == Canonical(NoProvider)
  {
    ghost var a, h := disk.fs, disk.history;
    hide WellFormed, Frame, Kept, TreeAt;
    var reset := ResetOverlayToBase(disk, overlay);
    if reset.Failure? {
      return Failure(reset.error);
    }
    ghost var b, h1 := disk.fs, disk.history;
    KeptFrame(a, h, b, h1, overlay);
    var applied := ApplyRemovalOverlay(disk, overlay);
    KeptChain(a, h, b, h1, disk.fs, disk.history, overlay);
    if applied.Failure? {
      return Failure(applied.error);
    }
    r := Success(SwitchResult(NoProvider, true));
  }

  method PerformTransition(disk: Disk, overlay: Path, target: Provider, source: GappsSource)
    returns (r: Result<SwitchResult, GServicesError>)
    requires WellFormed(disk.fs)
    modifies disk
    ensures Kept(old(disk.fs), old(disk.history), disk.fs, disk.history, overlay)
    ensures r.Success? ==> r.value == SwitchResult(target, true) && TreeAt(disk.fs, overlay) == Canonical(target)
    // A package that cannot be downloaded or is not the right one leaves everything as it was.
    ensures r.Failure? && r.error in {DownloadFailed, HashMismatch} ==>
      target == Gapps && disk.fs == old(disk.fs) && disk.history == old(disk.history)
  {
    match target {
      case Gapps => r := TransitionToGapps(disk, overlay, source);
      case Microg => r := TransitionToMicrog(disk, overlay);
      case NoProvider => r := TransitionToNone(disk, overlay);
    }
  }

  /**
   The whole switch. `restore` says what came of the rollback, if there was one: the program only logs it.
   The original tree, empty if there was no overlay, is at every recorded moment at the overlay or at the backup.
   */
  method SwitchProvider(disk: Disk, overlay: Path, current: Provider, target: Provider, source: GappsSource, vm: VmRunState)
    returns (r: Result<SwitchResult, GServicesError>, ghost restore: Option<Outcome>)
    requires WellFormed(disk.fs) && overlay != []
    modifies disk
    ensures WellFormed(disk.fs)
    ensures vm == Running ==> r == Failure(VmRunning)
    ensures vm != Running && current == target ==> r == Failure(AlreadyActive(target))
    ensures restore.Some? ==> r.Failure? && vm != Running && current != target
    ensures vm == Running || current == target ==> disk.fs == old(disk.fs) && disk.history == old(disk.history)
    ensures r.Success? ==> r.value == SwitchResult(target, true) && TreeAt(disk.fs, overlay) == Canonical(target)
                           && TreeAt(disk.fs, BackupPath(overlay)) == old(TreeAt(disk.fs, overlay))
    ensures Preserved(old(disk.history), disk.history, old(TreeAt(disk.fs, overlay)), overlay, BackupPath(overlay))
    ensures r.Failure? && restore == None ==> TreeAt(disk.fs, overlay) == old(TreeAt(disk.fs, overlay))
    ensures r.Failure? && restore == None && vm != Running && current != target ==>
      var left := TreeAt(disk.fs, BackupPath(overlay));
      PartOf(left, old(TreeAt(disk.fs, BackupPath(overlay)))) || Begins(left, old(TreeAt(disk.fs, overlay)))
    ensures restore.Some? && restore.value.Success? ==>
      TreeAt(disk.fs, overlay) == old(TreeAt(disk.fs, overlay)) && TreeAt(disk.fs, BackupPath(overlay)) == map[]
    ensures restore.Some? && restore.value.Failure? ==> TreeAt(disk.fs, BackupPath(overlay)) == old(TreeAt(disk.fs, overlay))
    ensures restore.Some? && overlay !in old(disk.fs) ==> restore.value.Failure?
    ensures Elsewhere(old(disk.fs), disk.fs, overlay, BackupPath(overlay))
  {
    restore := None;
    ghost var a, h := disk.fs, disk.history;
    ghost var backup, tree := BackupPath(overlay), TreeAt(disk.fs, overlay);
    ElsewhereSelf(a, overlay, backup);
    PreservedSelf(h, tree, overlay, backup);
    BackupApart(overlay);
    if overlay !in a {
      NothingBelow(a, overlay);
    }
    hide WellFormed, Frame, Kept, BackupPath, TreeAt, Preserved, Elsewhere, Canonical, PartOf, Begins;
    if vm == Running {
      return Failure(VmRunning), None;
    }
    if current == target {
      return Failure(AlreadyActive(target)), None;
    }
    var saved := BackupOverlay(disk, overlay);
    ghost var b, h1 := disk.fs, disk.history;
    KeptFrame(a, h, b, h1, backup);
    KeptPreserves(a, h, b, h1, backup, overlay);
    ElsewhereKept(a, h, b, h1, backup, overlay);
    if saved.Failure? {
      return Failure(saved.error), None;
    }
    r := PerformTransition(disk, overlay, target, source);
    ghost var c, h2 := disk.fs, disk.history;
    KeptFrame(b, h1, c, h2, overlay);
    KeptPreserves(b, h1, c, h2, overlay, backup);
    PreservedSwapped(h1, h2, tree, backup, overlay);
    PreservedChain(h, h1, h2, tree, overlay, backup);
    ElsewhereKept(b, h1, c, h2, overlay, backup);
    ElsewhereChain(a, b, c, overlay, backup);
    if r.Failure? {
      if overlay !in a {
        NothingThere(c, backup);
      }
      var restored := RestoreOverlay(disk, overlay);
      restore := Some(restored);
      PreservedSwapped(h2, disk.history, tree, backup, overlay);
      PreservedChain(h, h2, disk.history, tree, overlay, backup);
      ElsewhereChain(a, c, disk.fs, overlay, backup);
    }
  }

  ghost predicate RollbackFailed(restore: Option<Outcome>) {
    restore.Some? && restore.value.Failure?
  }

  /**
   Two switches in a row; `original` is the overlay before them and `left` what the first one leaves there. If the
   first rollback failed, the original is in the backup alone. Once the second switch has made its own backup, the
   original is held exactly if what was left is the same, or if the second switch happens to put it there again;
   if its backup fails, part of the old one or the beginning of a new one is there.
   */
  method SwitchTwice(disk: Disk, overlay: Path, current: Provider, first: Provider, second: Provider, source: GappsSource,
                     vm1: VmRunState, vm2: VmRunState)
    returns (r1: Result<SwitchResult, GServicesError>, r2: Result<SwitchResult, GServicesError>,
             ghost restore1: Option<Outcome>, ghost restore2: Option<Outcome>, ghost original: Fs, ghost left: Fs)
    requires WellFormed(disk.fs) && overlay != []
    modifies disk
    ensures WellFormed(disk.fs) && original == old(TreeAt(disk.fs, overlay))
    ensures !r1.Success? && !RollbackFailed(restore1) ==> left == original
    ensures RollbackFailed(restore1) && (vm2 == Running || second == current) ==> Held(disk.fs, original, overlay, BackupPath(overlay))
    ensures RollbackFailed(restore1) && r2.Success? ==>
      (Held(disk.fs, original, overlay, BackupPath(overlay)) <==> original == left || original == Canonical(second))
    ensures RollbackFailed(restore1) && restore2 == Some(Success(())) ==>
      (Held(disk.fs, original, overlay, BackupPath(overlay)) <==> original == left || original == map[])
    ensures RollbackFailed(restore1) && RollbackFailed(restore2) ==>
      (Held(disk.fs, original, overlay, BackupPath(overlay)) <==> original == left || original == TreeAt(disk.fs, overlay))
    ensures RollbackFailed(restore1) && r2.Failure? && restore2.None? && vm2 != Running && second != current ==>
      var backup := TreeAt(disk.fs, BackupPath(overlay));
      TreeAt(disk.fs, overlay) == left && (PartOf(backup, original) || Begins(backup, left))
    ensures r1.Failure? && left == original ==> Held(disk.fs, original, overlay, BackupPath(overlay))
  {
    original := TreeAt(disk.fs, overlay);
    hide WellFormed, BackupPath, TreeAt, Preserved, Elsewhere, Canonical, PartOf, Begins;
    r1, restore1 := SwitchProvider(disk, overlay, current, first, source, vm1);
    left := TreeAt(disk.fs, overlay);
    r2, restore2 := SwitchProvider(disk, overlay, if r1.Success? then first else current, second, source, vm2);
  }

  lemma NothingThere(fs: Fs, root: Path)
    requires TreeAt(fs, root) == map[]
    ensures root !in fs
  {
    assert root + [] == root;
    assert [] !in TreeAt(fs, root);
  }

  lemma PreservedSwapped(h0: seq<Fs>, h1: seq<Fs>, tree: Fs, x: Path, y: Path)
    requires Preserved(h0, h1, tree, x, y)
    ensures Preserved(h0, h1, tree, y, x)
  {
  }
}
