/** An instance's overlay directory: backing it up, restoring it, and filling it for a provider. */
module Overlay {
  import opened FileSystem
  import opened Disk
  import opened Wrappers

  datatype Provider = Microg | Gapps | NoProvider

  datatype GServicesError =
    | VmRunning
    | AlreadyActive(provider: Provider)
    | DownloadFailed
    | HashMismatch
    | OverlayError(what: string)

  type Outcome = Result<(), GServicesError>

  const MARKER: Path := [".gservices_provider"]
  const SYSTEM: Path := ["system"]
  const SYSTEM_APP: Path := ["system", "app"]

  // ----- the backup's place -----

  /** The index of the last dot, or 0 if there is none. */
  function LastDot(n: Name): (i: nat)
    ensures i <= |n|
    ensures i > 0 ==> i < |n| && n[i] == '.'
    ensures forall j :: i < j < |n| ==> n[j] != '.'
  {
    if n == [] then 0
    else if n[|n| - 1] == '.' then |n| - 1
    else LastDot(n[..|n| - 1])
  }

  /** The name without its extension; a leading dot does not start one. */
  function Stem(n: Name): Name {
    if LastDot(n) == 0 then n else n[..LastDot(n)]
  }

  function BackupPath(overlay: Path): Path
    requires overlay != []
  {
    Parent(overlay) + [Stem(overlay[|overlay| - 1]) + ".overlay.backup"]
  }

  /** A stem is the name up to its last dot, if that is not its first character, and the whole name otherwise. */
  lemma StemEndsAtLastDot(n: Name)
    ensures var k := |Stem(n)|;
            && Stem(n) == n[..k]
            && (forall j :: k < j < |n| ==> n[j] != '.')
            && (k < |n| ==> k > 0 && n[k] == '.')
            && (k == |n| ==> forall j :: 0 < j < |n| ==> n[j] != '.')
  {
  }

  /** The backup of a directory called "overlay" lies beside it as "overlay.overlay.backup". */
  lemma BackupOfOverlay(instance: Path)
    ensures BackupPath(instance + ["overlay"]) == instance + ["overlay.overlay.backup"]
  {
    var overlay := instance + ["overlay"];
    assert Parent(overlay) == instance && overlay[|overlay| - 1] == "overlay";
    StemEndsAtLastDot("overlay");
    assert Stem("overlay") == "overlay" && "overlay" + ".overlay.backup" == "overlay.overlay.backup";
  }

  /** The backup is never the overlay itself, nor inside it, nor around it, whatever the directory's name. */
  lemma BackupApart(overlay: Path)
    requires overlay != []
    ensures Apart(overlay, BackupPath(overlay)) && Parent(BackupPath(overlay)) == Parent(overlay)
  {
    var name := overlay[|overlay| - 1];
    var other := Stem(name) + ".overlay.backup";
    assert other[|Stem(name)| + 8] == '.' && |other| == |Stem(name)| + 15;
    assert other == name ==> LastDot(name) >= |Stem(name)| + 8;
    assert BackupPath(overlay)[|overlay| - 1] == other;
  }

  // ----- copying -----

  ghost function Under(fs: Fs, root: Path): set<Path> {
    set p | p in fs && root <= p
  }

  lemma SmallerBelow(fs: Fs, src: Path)
    requires src in fs
    ensures forall n: Name :: Under(fs, src + [n]) < Under(fs, src)
  {
    forall n: Name
      ensures Under(fs, src + [n]) < Under(fs, src)
    {
      assert src in Under(fs, src) && src !in Under(fs, src + [n]);
      forall p: Path | p in Under(fs, src + [n])
        ensures p in Under(fs, src)
      {
        PrefixTransitive(src, src + [n], p);
      }
    }
  }

  lemma SameBelow(a: Fs, b: Fs, dst: Path, x: Path)
    requires Frame(a, b, dst) && Apart(x, dst)
    ensures Under(a, x) == Under(b, x)
  {
    forall p: Path | x <= p
      ensures p in a <==> p in b
    {
      FrameKeepsPath(a, b, dst, x, p);
    }
  }

  lemma SameSource(a: Fs, b: Fs, src: Path, dst: Path)
    requires Frame(a, b, dst) && Apart(src, dst)
    ensures IsDir(a, src) <==> IsDir(b, src)
    ensures Children(a, src) == Children(b, src)
  {
    FrameKeepsPath(a, b, dst, src, src);
    forall n: Name
      ensures src + [n] in a <==> src + [n] in b
    {
      FrameKeepsPath(a, b, dst, src, src + [n]);
    }
  }

  lemma StartsUnmerged(a: Fs, src: Path, dst: Path)
    ensures Partly(a, WithDirs(a, dst), src, dst, {})
  {
    WithDirsOnly(a, dst);
  }

  lemma KeptFrame(a: Fs, h0: seq<Fs>, b: Fs, h1: seq<Fs>, root: Path)
    requires Kept(a, h0, b, h1, root)
    ensures WellFormed(b) && Frame(a, b, root)
  {
  }

  method CopyDirRecursive(disk: Disk, src: Path, dst: Path) returns (ok: bool)
    requires WellFormed(disk.fs) && Apart(src, dst)
    modifies disk
    ensures Kept(old(disk.fs), old(disk.history), disk.fs, disk.history, dst)
    ensures ok ==> Merged(old(disk.fs), disk.fs, src, dst)
    ensures CopyBegun(old(disk.fs), disk.fs, src, dst)
    decreases Under(disk.fs, src), 0
  {
    ghost var a, h := disk.fs, disk.history;
    ok := disk.CreateDirAll(dst);
    DirsKept(a, h, disk.fs, disk.history, dst, dst);
    DirBegun(a, disk.fs, src, dst);
    if !ok {
      return;
    }
    StartsUnmerged(a, src, dst);
    assert Frame(a, disk.fs, dst);
    hide WellFormed, Frame, Kept, OnlyDirsMade, Partly, Merged, WithDirs, CopyBegun;
    var names := disk.ReadDir(src);
    if names.None? {
      return false;
    }
    SameSource(a, disk.fs, src, dst);
    SmallerBelow(a, src);
    var todo := names.value;
    while todo != {}
      invariant todo <= names.value
      invariant Kept(a, h, disk.fs, disk.history, dst) && IsDir(disk.fs, dst)
      invariant Partly(a, disk.fs, src, dst, names.value - todo) && CopyBegun(a, disk.fs, src, dst)
    {
      if * {
        return false;
      }
      var n :| n in todo;
      ok := CopyEntry(disk, src, dst, n, a, h, names.value - todo);
      if !ok {
        return;
      }
      assert names.value - todo + {n} == names.value - (todo - {n});
      todo := todo - {n};
    }
    assert names.value - todo == names.value;
    AllMerged(a, disk.fs, src, dst);
    ok := true;
  }

  /** One entry of the directory being copied; `a` is the disk as the copy found it. */
  method CopyEntry(disk: Disk, src: Path, dst: Path, n: Name, ghost a: Fs, ghost h: seq<Fs>, ghost done: set<Name>) returns (ok: bool)
    requires WellFormed(a) && Apart(src, dst) && n !in done && src + [n] in a
    requires Kept(a, h, disk.fs, disk.history, dst) && IsDir(disk.fs, dst) && Partly(a, disk.fs, src, dst, done)
    requires CopyBegun(a, disk.fs, src, dst)
    modifies disk
    ensures Kept(a, h, disk.fs, disk.history, dst) && CopyBegun(a, disk.fs, src, dst)
    ensures ok ==> IsDir(disk.fs, dst) && Partly(a, disk.fs, src, dst, done + {n})
    decreases Under(a, src + [n]), 1
  {
    ghost var b, h1 := disk.fs, disk.history;
    var from, to := src + [n], dst + [n];
    ChildrenApart(src, dst, n);
    assert WellFormed(b) && Frame(a, b, dst) && h <= h1;
    FrameKeepsPath(a, b, dst, src, from);
    SameBelow(a, b, dst, from);
    hide WellFormed, Frame, Kept, Partly, Merged, CopyBegun;
    if IsDir(disk.fs, from) {
      ok := CopyDirRecursive(disk, from, to);
    } else {
      ok := disk.CopyFile(from, to);
      if ok {
        FileMerged(b, from, to);
      }
    }
    KeptWider(b, h1, disk.fs, disk.history, to, dst);
    KeptChain(a, h, b, h1, disk.fs, disk.history, dst);
    KeptFrame(b, h1, disk.fs, disk.history, to);
    ChildBegun(a, b, disk.fs, src, dst, n);
    if ok {
      ChildMerged(a, b, disk.fs, src, dst, done, n);
    }
  }

  // ----- backup and restore -----

  const REMOVING := "failed to remove old backup"
  const COPYING := "backup failed"

  /** Afterwards the backup is the overlay as it is, or nothing if there is no overlay; only the backup's place was touched. */
  method BackupOverlay(disk: Disk, overlay: Path) returns (r: Outcome)
    requires WellFormed(disk.fs) && overlay != []
    modifies disk
    ensures Kept(old(disk.fs), old(disk.history), disk.fs, disk.history, BackupPath(overlay))
    ensures r.Success? ==> TreeAt(disk.fs, BackupPath(overlay)) == old(TreeAt(disk.fs, overlay))
    // A failure leaves part of the old backup, or the beginning of the new one.
    ensures r.Failure? ==>
      || (r.error == OverlayError(REMOVING) && PartOf(TreeAt(disk.fs, BackupPath(overlay)), old(TreeAt(disk.fs, BackupPath(overlay)))))
      || (r.error == OverlayError(COPYING) && Begins(TreeAt(disk.fs, BackupPath(overlay)), old(TreeAt(disk.fs, overlay))))
  {
    ghost var a, h := disk.fs, disk.history;
    var backup := BackupPath(overlay);
    BackupApart(overlay);
    KeptSelf(a, h, backup);
    hide WellFormed, Frame, Kept, Merged, BackupPath, TreeAt, PartOf, Begins, CopyBegun;
    if backup in disk.fs {
      var ok := disk.RemoveDirAll(backup);
      PartOfTree(a, disk.fs, backup);
      if !ok {
        return Failure(OverlayError(REMOVING));
      }
    }
    ghost var b, h1 := disk.fs, disk.history;
    KeptFrame(a, h, b, h1, backup);
    FrameKeepsTree(a, b, backup, overlay);
    NothingBelow(b, backup);
    if overlay in disk.fs {
      var ok := CopyDirRecursive(disk, overlay, backup);
      KeptChain(a, h, b, h1, disk.fs, disk.history, backup);
      CopyBegins(b, disk.fs, overlay, backup);
      if !ok {
        return Failure(OverlayError(COPYING));
      }
      MergedCopies(b, disk.fs, overlay, backup);
    } else {
      NothingBelow(b, overlay);
    }
    r := Success(());
  }

  /** The tree is still at one of the two places. */
  ghost predicate Held(fs: Fs, tree: Fs, x: Path, y: Path) {
    TreeAt(fs, x) == tree || TreeAt(fs, y) == tree
  }

  /**
   A further backup loses what the old one held exactly if the overlay is not the same. If the last rollback
   failed, so that the original was only there, the next switch begins by losing it, in part or altogether.
   */
  method BackupAgain(disk: Disk, overlay: Path) returns (r: Outcome)
    requires WellFormed(disk.fs) && overlay != []
    modifies disk
    ensures WellFormed(disk.fs) && TreeAt(disk.fs, overlay) == old(TreeAt(disk.fs, overlay))
    ensures r.Success? ==>
      var kept := old(TreeAt(disk.fs, BackupPath(overlay)));
      Held(disk.fs, kept, overlay, BackupPath(overlay)) <==> old(TreeAt(disk.fs, overlay)) == kept
    ensures r.Failure? ==>
      var left := TreeAt(disk.fs, BackupPath(overlay));
      PartOf(left, old(TreeAt(disk.fs, BackupPath(overlay)))) || Begins(left, old(TreeAt(disk.fs, overlay)))
  {
    ghost var a, h := disk.fs, disk.history;
    BackupApart(overlay);
    hide WellFormed, Frame, Kept, BackupPath, TreeAt, PartOf, Begins;
    r := BackupOverlay(disk, overlay);
    KeptFrame(a, h, disk.fs, disk.history, BackupPath(overlay));
    KeptPreserves(a, h, disk.fs, disk.history, BackupPath(overlay), overlay);
  }

  /** At every recorded state since `past`, one of the two places holds the tree. */
  ghost predicate Preserved(past: seq<Fs>, history: seq<Fs>, tree: Fs, x: Path, y: Path) {
    && past <= history
    && (forall i :: |past| <= i < |history| ==> TreeAt(history[i], x) == tree || TreeAt(history[i], y) == tree)
  }

  lemma KeptPreserves(a: Fs, h0: seq<Fs>, b: Fs, h1: seq<Fs>, root: Path, kept: Path)
    requires Kept(a, h0, b, h1, root) && Apart(kept, root)
    ensures Preserved(h0, h1, TreeAt(a, kept), kept, root)
    ensures TreeAt(b, kept) == TreeAt(a, kept)
  {
    FrameKeepsTree(a, b, root, kept);
    forall i | |h0| <= i < |h1|
      ensures TreeAt(h1[i], kept) == TreeAt(a, kept)
    {
      FrameKeepsTree(a, h1[i], root, kept);
    }
  }

  lemma PreservedChain(h0: seq<Fs>, h1: seq<Fs>, h2: seq<Fs>, tree: Fs, x: Path, y: Path)
    requires Preserved(h0, h1, tree, x, y) && Preserved(h1, h2, tree, x, y)
    ensures Preserved(h0, h2, tree, x, y)
  {
    hide TreeAt;
    forall i | |h0| <= i < |h2|
      ensures TreeAt(h2[i], x) == tree || TreeAt(h2[i], y) == tree
    {
      assert i < |h1| ==> h2[i] == h1[i];
    }
  }

  lemma PreservedSelf(h: seq<Fs>, tree: Fs, x: Path, y: Path)
    ensures Preserved(h, h, tree, x, y)
  {
  }

  lemma MovePreserves(h: seq<Fs>, b: Fs, tree: Fs, x: Path, y: Path)
    requires TreeAt(b, y) == tree
    ensures Preserved(h, h + [b], tree, x, y)
  {
  }

  /** Nothing apart from both places changed. */
  ghost predicate Elsewhere(a: Fs, b: Fs, x: Path, y: Path) {
    forall z: Path :: Apart(z, x) && Apart(z, y) ==> TreeAt(b, z) == TreeAt(a, z)
  }

  /**
   The backup becomes the overlay. Whatever fails, its tree is at every moment in one of the two
   places, and after a failure it is still the backup.
   */
  method RestoreOverlay(disk: Disk, overlay: Path) returns (r: Outcome)
    requires WellFormed(disk.fs) && overlay != []
    modifies disk
    ensures WellFormed(disk.fs)
    ensures BackupPath(overlay) !in old(disk.fs) ==> r.Failure? && disk.fs == old(disk.fs) && disk.history == old(disk.history)
    ensures r.Success? ==> TreeAt(disk.fs, overlay) == old(TreeAt(disk.fs, BackupPath(overlay)))
                           && TreeAt(disk.fs, BackupPath(overlay)) == map[]
    ensures r.Failure? ==> TreeAt(disk.fs, BackupPath(overlay)) == old(TreeAt(disk.fs, BackupPath(overlay)))
    ensures Preserved(old(disk.history), disk.history, old(TreeAt(disk.fs, BackupPath(overlay))), BackupPath(overlay), overlay)
    ensures Elsewhere(old(disk.fs), disk.fs, overlay, BackupPath(overlay))
  {
    ghost var a, h := disk.fs, disk.history;
    var backup := BackupPath(overlay);
    ghost var tree := TreeAt(a, backup);
    BackupApart(overlay);
    ElsewhereSelf(a, overlay, backup);
    PreservedSelf(h, tree, backup, overlay);
    hide WellFormed, Frame, Kept, BackupPath, TreeAt, Preserved, Elsewhere;
    if backup !in disk.fs {
      return Failure(OverlayError("no backup found to restore"));
    }
    if overlay in disk.fs {
      var ok := disk.RemoveDirAll(overlay);
      KeptPreserves(a, h, disk.fs, disk.history, overlay, backup);
      ElsewhereKept(a, h, disk.fs, disk.history, overlay, backup);
      KeptFrame(a, h, disk.fs, disk.history, overlay);
      if !ok {
        return Failure(OverlayError("failed to remove overlay for restore"));
      }
    }
    ghost var b, h1 := disk.fs, disk.history;
    var ok := disk.Rename(backup, overlay);
    if !ok {
      return Failure(OverlayError("restore failed"));
    }
    MovedMoves(b, backup, overlay, []);
    MovePreserves(h1, disk.fs, tree, backup, overlay);
    ElsewhereMoved(a, b, overlay, backup);
    PreservedChain(h, h1, disk.history, tree, backup, overlay);
    r := Success(());
  }

  lemma ElsewhereSelf(a: Fs, x: Path, y: Path)
    ensures Elsewhere(a, a, x, y)
  {
  }

  lemma ElsewhereChain(a: Fs, b: Fs, c: Fs, x: Path, y: Path)
    requires Elsewhere(a, b, x, y) && Elsewhere(b, c, x, y)
    ensures Elsewhere(a, c, x, y)
  {
  }

  lemma ElsewhereKept(a: Fs, h0: seq<Fs>, b: Fs, h1: seq<Fs>, root: Path, other: Path)
    requires Kept(a, h0, b, h1, root)
    ensures Elsewhere(a, b, root, other) && Elsewhere(a, b, other, root)
  {
    forall z | Apart(z, root)
      ensures TreeAt(b, z) == TreeAt(a, z)
    {
      FrameKeepsTree(a, b, root, z);
    }
  }

  lemma ElsewhereMoved(a: Fs, b: Fs, x: Path, y: Path)
    requires Elsewhere(a, b, x, y) && Apart(y, x)
    ensures Elsewhere(a, Moved(b, y, x), x, y)
  {
    hide TreeAt;
    forall z | Apart(z, x) && Apart(z, y)
      ensures TreeAt(Moved(b, y, x), z) == TreeAt(a, z)
    {
      MovedMoves(b, y, x, z);
    }
  }

  // ----- filling the overlay -----

  lemma TreePut(fs: Fs, root: Path, r: Path, e: Entry)
    ensures TreeAt(fs[root + r := e], root) == TreeAt(fs, root)[r := e]
  {
    var fs' := fs[root + r := e];
    forall q: Path
      ensures root + q == root + r <==> q == r
    {
      assert (root + q)[|root|..] == q && (root + r)[|root|..] == r;
    }
  }

  /** The overlay's own directory, then what is needed of its way to r. */
  lemma {:induction false} TreeWithDirs(fs: Fs, root: Path, r: Path)
    ensures TreeAt(WithDirs(fs, root + r), root)
         == if r == [] then TreeAt(fs, root)[[] := Dir] else TreeAt(WithDirs(fs, root + Parent(r)), root)[r := Dir]
  {
    if r == [] {
      assert root + r == root + [] == root;
      if root != [] {
        WithDirsOnly(fs, Parent(root));
        SameTreeAt(fs, WithDirs(fs, Parent(root)), root);
        TreePut(WithDirs(fs, Parent(root)), root, [], Dir);
      } else {
        TreePut(fs, root, [], Dir);
      }
    } else {
      assert Parent(root + r) == root + Parent(r);
      TreePut(WithDirs(fs, root + Parent(r)), root, r, Dir);
    }
  }

  lemma SameTreeAt(a: Fs, b: Fs, root: Path)
    requires forall p: Path :: root <= p ==> SameAt(a, b, p)
    ensures TreeAt(a, root) == TreeAt(b, root)
  {
    forall q: Path
      ensures root + q in a <==> root + q in b
      ensures root + q in a ==> a[root + q] == b[root + q]
    {
      assert SameAt(a, b, root + q);
    }
  }

  function GappsTree(before: Fs): Fs {
    before[[] := Dir][SYSTEM := Dir][SYSTEM_APP := Dir][MARKER := File("gapps")]
  }

  function RemovalTree(before: Fs): Fs {
    before[[] := Dir][MARKER := File("none")]
  }

  lemma MarkerBelow(overlay: Path)
    ensures overlay < overlay + MARKER && overlay <= overlay + SYSTEM_APP
  {
  }

  method WriteMarker(disk: Disk, overlay: Path, content: string, ghost a: Fs, ghost h: seq<Fs>) returns (ok: bool)
    requires Kept(a, h, disk.fs, disk.history, overlay) && IsDir(disk.fs, overlay)
    modifies disk
    ensures Kept(a, h, disk.fs, disk.history, overlay)
    ensures ok ==> TreeAt(disk.fs, overlay) == old(TreeAt(disk.fs, overlay))[MARKER := File(content)]
  {
    ghost var b, h1 := disk.fs, disk.history;
    KeptFrame(a, h, b, h1, overlay);
    hide WellFormed, Frame, Kept, TreeAt;
    MarkerBelow(overlay);
    ok := disk.Write(overlay + MARKER, content);
    KeptWider(b, h1, disk.fs, disk.history, overlay + MARKER, overlay);
    KeptChain(a, h, b, h1, disk.fs, disk.history, overlay);
    if ok {
      TreePut(b, overlay, MARKER, File(content));
    }
  }

  method ApplyGappsOverlay(disk: Disk, overlay: Path) returns (r: Outcome)
    requires WellFormed(disk.fs)
    modifies disk
    ensures r.Failure? ==> r.error.OverlayError?
    ensures Kept(old(disk.fs), old(disk.history), disk.fs, disk.history, overlay)
    ensures r.Success? ==> TreeAt(disk.fs, overlay) == GappsTree(old(TreeAt(disk.fs, overlay)))
  {
    ghost var a, h := disk.fs, disk.history;
    hide WellFormed, Frame, Kept, TreeAt, OnlyDirsMade;
    MarkerBelow(overlay);
    var ok := disk.CreateDirAll(overlay + SYSTEM_APP);
    DirsKept(a, h, disk.fs, disk.history, overlay + SYSTEM_APP, overlay);
    if !ok {
      return Failure(OverlayError("failed to create overlay dirs"));
    }
    GappsDirs(a, overlay);
    ok := WriteMarker(disk, overlay, "gapps", a, h);
    if !ok {
      return Failure(OverlayError("failed to write provider marker"));
    }
    r := Success(());
  }

  lemma GappsDirs(a: Fs, overlay: Path)
    ensures TreeAt(WithDirs(a, overlay + SYSTEM_APP), overlay) == TreeAt(a, overlay)[[] := Dir][SYSTEM := Dir][SYSTEM_APP := Dir]
    ensures IsDir(WithDirs(a, overlay + SYSTEM_APP), overlay)
  {
    WithDirsOnly(a, overlay + SYSTEM_APP);
    hide TreeAt, WithDirs;
    TreeWithDirs(a, overlay, SYSTEM_APP);
    TreeWithDirs(a, overlay, SYSTEM);
    TreeWithDirs(a, overlay, []);
    assert Parent(SYSTEM_APP) == SYSTEM && Parent(SYSTEM) == [];
  }

  method ApplyRemovalOverlay(disk: Disk, overlay: Path) returns (r: Outcome)
    requires WellFormed(disk.fs)
    modifies disk
    ensures r.Failure? ==> r.error.OverlayError?
    ensures Kept(old(disk.fs), old(disk.history), disk.fs, disk.history, overlay)
    ensures r.Success? ==> TreeAt(disk.fs, overlay) == RemovalTree(old(TreeAt(disk.fs, overlay)))
  {
    ghost var a, h := disk.fs, disk.history;
    hide WellFormed, Frame, Kept, TreeAt, OnlyDirsMade;
    var ok := disk.CreateDirAll(overlay);
    DirsKept(a, h, disk.fs, disk.history, overlay, overlay);
    if !ok {
      return Failure(OverlayError("failed to create overlay dir"));
    }
    assert overlay + [] == overlay;
    TreeWithDirs(a, overlay, []);
    ok := WriteMarker(disk, overlay, "none", a, h);
    if !ok {
      return Failure(OverlayError("failed to write removal marker"));
    }
    r := Success(());
  }

  method ResetOverlayToBase(disk: Disk, overlay: Path) returns (r: Outcome)
    requires WellFormed(disk.fs)
    modifies disk
    ensures r.Failure? ==> r.error.OverlayError?
    ensures Kept(old(disk.fs), old(disk.history), disk.fs, disk.history, overlay)
    ensures r.Success? ==> TreeAt(disk.fs, overlay) == map[]
  {
    KeptSelf(disk.fs, disk.history, overlay);
    ghost var a, h := disk.fs, disk.history;
    hide WellFormed, Frame, Kept, TreeAt;
    if overlay in disk.fs {
      var ok := disk.RemoveDirAll(overlay);
      if !ok {
        return Failure(OverlayError("failed to reset overlay"));
      }
    }
    KeptFrame(a, h, disk.fs, disk.history, overlay);
    NothingBelow(disk.fs, overlay);
    r := Success(());
  }
}
