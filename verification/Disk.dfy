/** A disk on which any operation may fail part-way, with a record of every state it went through. */
module Disk {
  import opened FileSystem
  import opened Wrappers

  /** From a to b, by way of all states recorded since `past`, only root was touched. */
  ghost predicate Kept(a: Fs, past: seq<Fs>, b: Fs, history: seq<Fs>, root: Path) {
    && WellFormed(b) && Frame(a, b, root)
    && past <= history
    && (forall i :: |past| <= i < |history| ==> Frame(a, history[i], root))
  }

  lemma KeptSelf(a: Fs, h: seq<Fs>, root: Path)
    requires WellFormed(a)
    ensures Kept(a, h, a, h, root)
  {
  }

  lemma KeptChain(a: Fs, h0: seq<Fs>, b: Fs, h1: seq<Fs>, c: Fs, h2: seq<Fs>, root: Path)
    requires Kept(a, h0, b, h1, root) && Kept(b, h1, c, h2, root)
    ensures Kept(a, h0, c, h2, root)
  {
    hide Frame, WellFormed;
    FrameChain(a, b, c, root);
    forall i | |h0| <= i < |h2|
      ensures Frame(a, h2[i], root)
    {
      if i < |h1| {
        assert h2[i] == h1[i];
      } else {
        FrameChain(a, b, h2[i], root);
      }
    }
  }

  lemma KeptWider(a: Fs, h0: seq<Fs>, b: Fs, h1: seq<Fs>, inner: Path, root: Path)
    requires Kept(a, h0, b, h1, inner) && root < inner && IsDir(a, root) && WellFormed(a)
    ensures Kept(a, h0, b, h1, root) && IsDir(b, root)
  {
    hide Frame, WellFormed, IsDir;
    FrameWider(a, b, inner, root);
    forall i | |h0| <= i < |h1|
      ensures Frame(a, h1[i], root)
    {
      FrameWider(a, h1[i], inner, root);
    }
  }

  /** The missing directories on the way to p, and p itself. */
  ghost function WithDirs(fs: Fs, p: Path): Fs {
    (if p == [] then fs else WithDirs(fs, Parent(p)))[p := Dir]
  }

  lemma {:induction false} WithDirsOnly(fs: Fs, p: Path)
    ensures forall q: Path :: q in WithDirs(fs, p) <==> q in fs || q <= p
    ensures forall q: Path :: q in WithDirs(fs, p) ==> WithDirs(fs, p)[q] == if q <= p then Dir else fs[q]
  {
    if p != [] {
      WithDirsOnly(fs, Parent(p));
      forall q: Path
        ensures q in WithDirs(fs, p) <==> q in fs || q <= p
        ensures q in WithDirs(fs, p) ==> WithDirs(fs, p)[q] == if q <= p then Dir else fs[q]
      {
        PrefixStep(q, p);
      }
    }
  }

  lemma PrefixStep(q: Path, p: Path)
    requires p != []
    ensures q <= p <==> q == p || q <= Parent(p)
  {
    if q <= p && q != p {
      assert Parent(p)[..|q|] == p[..|q|];
    }
    if q <= Parent(p) {
      PrefixTransitive(q, Parent(p), p);
    }
  }

  /** Nothing changed but that missing directories on the way to p, or p itself, appeared. */
  ghost predicate OnlyDirs(a: Fs, b: Fs, p: Path) {
    forall q: Path :: (q in a ==> q in b && b[q] == a[q]) && (q in b && q !in a ==> q <= p && b[q] == Dir)
  }

  ghost predicate OnlyDirsMade(a: Fs, past: seq<Fs>, b: Fs, history: seq<Fs>, p: Path) {
    && WellFormed(b) && OnlyDirs(a, b, p)
    && past <= history
    && (forall i :: |past| <= i < |history| ==> OnlyDirs(a, history[i], p))
  }

  lemma DirsFurther(a: Fs, b: Fs, p: Path, further: Path)
    requires OnlyDirs(a, b, p) && p <= further
    ensures OnlyDirs(a, b, further)
  {
    forall q: Path | q in b && q !in a
      ensures q <= further
    {
      PrefixTransitive(q, p, further);
    }
  }

  lemma DirsMadeFurther(a: Fs, h0: seq<Fs>, b: Fs, h1: seq<Fs>, p: Path, further: Path)
    requires OnlyDirsMade(a, h0, b, h1, p) && p <= further
    ensures OnlyDirsMade(a, h0, b, h1, further)
  {
    hide OnlyDirs, WellFormed;
    DirsFurther(a, b, p, further);
    forall i | |h0| <= i < |h1|
      ensures OnlyDirs(a, h1[i], further)
    {
      DirsFurther(a, h1[i], p, further);
    }
  }

  lemma DirsInside(a: Fs, b: Fs, p: Path, root: Path)
    requires OnlyDirs(a, b, p) && root <= p
    ensures Frame(a, b, root)
  {
    forall q: Path | q in b && q !in a && !(root <= q)
      ensures q <= root
    {
      PrefixesCompare(q, root, p);
    }
  }

  lemma DirsKept(a: Fs, h0: seq<Fs>, b: Fs, h1: seq<Fs>, p: Path, root: Path)
    requires OnlyDirsMade(a, h0, b, h1, p) && root <= p
    ensures Kept(a, h0, b, h1, root)
  {
    hide OnlyDirs, Frame, WellFormed;
    DirsInside(a, b, p, root);
    forall i | |h0| <= i < |h1|
      ensures Frame(a, h1[i], root)
    {
      DirsInside(a, h1[i], p, root);
    }
  }

  // ----- copying -----

  /** At p, below dst: what src holds at the same place if anything, otherwise what was there. */
  ghost predicate MergedAt(a: Fs, b: Fs, src: Path, dst: Path, p: Path)
    requires dst <= p
  {
    var q := Shifted(p, dst, src);
    && (p in b <==> q in a || p in a)
    && (p in b ==> b[p] == if q in a then a[q] else a[p])
  }

  ghost predicate Merged(a: Fs, b: Fs, src: Path, dst: Path) {
    forall p: Path :: dst <= p ==> MergedAt(a, b, src, dst, p)
  }

  ghost predicate SameAt(a: Fs, b: Fs, p: Path) {
    (p in b <==> p in a) && (p in b ==> b[p] == a[p])
  }

  /** Below dst, the children in `done` are merged and the others as they were. */
  ghost predicate Partly(a: Fs, b: Fs, src: Path, dst: Path, done: set<Name>) {
    forall p: Path :: dst < p ==> if p[|dst|] in done then MergedAt(a, b, src, dst, p) else SameAt(a, b, p)
  }

  lemma ChildShift(p: Path, src: Path, dst: Path, n: Name)
    requires dst < p && p[|dst|] == n
    ensures dst + [n] <= p && Shifted(p, dst + [n], src + [n]) == Shifted(p, dst, src)
  {
    assert p[|dst|..] == [n] + p[|dst| + 1..];
  }

  lemma ChildrenApart(src: Path, dst: Path, n: Name)
    requires Apart(src, dst)
    ensures Apart(src + [n], dst + [n]) && Apart(src, dst + [n]) && Apart(src + [n], dst)
  {
    if src <= dst + [n] {
      PrefixesCompare(src, dst, dst + [n]);
    }
    if dst <= src + [n] {
      PrefixesCompare(src, dst, src + [n]);
    }
  }

  /** One more child merged. */
  lemma ChildMerged(a: Fs, b: Fs, c: Fs, src: Path, dst: Path, done: set<Name>, n: Name)
    requires Apart(src, dst) && Frame(a, b, dst) && Partly(a, b, src, dst, done) && n !in done
    requires Frame(b, c, dst + [n]) && Merged(b, c, src + [n], dst + [n]) && IsDir(b, dst)
    ensures Partly(a, c, src, dst, done + {n})
  {
    forall p: Path | dst < p
      ensures if p[|dst|] in done + {n} then MergedAt(a, c, src, dst, p) else SameAt(a, c, p)
    {
      if p[|dst|] == n {
        var q := Shifted(p, dst, src);
        ChildShift(p, src, dst, n);
        assert MergedAt(b, c, src + [n], dst + [n], p);
        FrameKeepsPath(a, b, dst, src, q);
        assert SameAt(a, b, p);
      } else {
        OtherChild(b, c, dst, n, p);
        assert SameAt(b, c, p);
      }
    }
  }

  lemma OtherChild(b: Fs, c: Fs, dst: Path, n: Name, p: Path)
    requires Frame(b, c, dst + [n]) && dst < p && p[|dst|] != n
    ensures SameAt(b, c, p)
  {
    assert (dst + [n])[|dst|] == n;
    assert !(dst + [n] <= p);
    assert !(p <= dst + [n]);
  }

  function Children(fs: Fs, p: Path): (names: set<Name>)
    ensures forall n :: n in names <==> p + [n] in fs
  {
    var s := set q | q in fs && |q| == |p| + 1 && p <= q :: q[|p|];
    assert forall n :: n in s <==> p + [n] in fs by {
      forall n
        ensures n in s <==> p + [n] in fs
      {
        if p + [n] in fs {
          assert (p + [n])[|p|] == n;
        }
        if n in s {
          var q :| q in fs && |q| == |p| + 1 && p <= q && q[|p|] == n;
          assert p + [n] == q;
        }
      }
    }
    s
  }

  lemma AllMerged(a: Fs, b: Fs, src: Path, dst: Path)
    requires WellFormed(a) && IsDir(a, src) && IsDir(b, dst) && Partly(a, b, src, dst, Children(a, src))
    ensures Merged(a, b, src, dst)
  {
    forall p: Path | dst <= p
      ensures MergedAt(a, b, src, dst, p)
    {
      if p == dst {
        assert Shifted(p, dst, src) == src;
      } else if p[|dst|] !in Children(a, src) {
        var n, q := p[|dst|], Shifted(p, dst, src);
        assert q[|src|] == n && src + [n] <= q;
        if q in a {
          PrefixPresent(a, q, src + [n]);
        }
        assert SameAt(a, b, p);
      }
    }
  }

  lemma FileMerged(a: Fs, src: Path, dst: Path)
    requires WellFormed(a) && src in a && a[src].File? && (dst in a ==> a[dst].File?)
    ensures Merged(a, a[dst := a[src]], src, dst)
  {
    var b := a[dst := a[src]];
    forall p: Path | dst <= p
      ensures MergedAt(a, b, src, dst, p)
    {
      var q := Shifted(p, dst, src);
      if p == dst {
        assert q == src;
      } else {
        assert src <= q && q != src;
        if q in a {
          PrefixPresent(a, q, src);
        }
        if p in a {
          PrefixPresent(a, p, dst);
        }
      }
    }
  }

  /** Merging into a place that held nothing copies the tree. */
  lemma MergedCopies(a: Fs, b: Fs, src: Path, dst: Path)
    requires Merged(a, b, src, dst) && WellFormed(a) && dst !in a
    ensures TreeAt(b, dst) == TreeAt(a, src)
  {
    NothingBelow(a, dst);
    forall p: Path | dst <= p
      ensures p in b <==> Shifted(p, dst, src) in a
      ensures p in b ==> b[p] == a[Shifted(p, dst, src)]
    {
      assert MergedAt(a, b, src, dst, p);
    }
    TreesEqual(b, dst, a, src);
  }

  // ----- what an interrupted operation leaves -----

  /** Nothing that was not there before, and nothing changed: what a removal leaves. */
  ghost predicate PartOf(part: Fs, whole: Fs) {
    forall p: Path :: p in part ==> p in whole && part[p] == whole[p]
  }

  lemma PartOfTree(a: Fs, b: Fs, root: Path)
    requires PartOf(b, a)
    ensures PartOf(TreeAt(b, root), TreeAt(a, root))
  {
  }

  /** An entry as an interrupted copy may leave it: a file cut off anywhere. */
  predicate Begun(e: Entry, whole: Entry) {
    match (e, whole)
    case (Dir, Dir) => true
    case (File(c), File(w)) => c <= w
    case _ => false
  }

  /** At p, below dst: what was there, or the beginning of what src holds there; at dst itself perhaps a directory. */
  ghost predicate BegunAt(a: Fs, b: Fs, src: Path, dst: Path, p: Path)
    requires dst <= p
  {
    var q := Shifted(p, dst, src);
    p in b ==>
      || (p in a && b[p] == a[p])
      || (q in a && Begun(b[p], a[q]))
      || (p == dst && b[p].Dir?)
  }

  ghost predicate CopyBegun(a: Fs, b: Fs, src: Path, dst: Path) {
    forall p: Path :: dst <= p ==> BegunAt(a, b, src, dst, p)
  }

  lemma DirBegun(a: Fs, b: Fs, src: Path, dst: Path)
    requires OnlyDirs(a, b, dst)
    ensures CopyBegun(a, b, src, dst)
  {
  }

  lemma FileBegun(a: Fs, b: Fs, src: Path, dst: Path)
    requires b == a || (src in a && dst in b && Begun(b[dst], a[src]) && b == a[dst := b[dst]])
    ensures CopyBegun(a, b, src, dst)
  {
    assert Shifted(dst, dst, src) == src;
  }

  /** One more child begun, the directory being copied all the while. */
  lemma ChildBegun(a: Fs, b: Fs, c: Fs, src: Path, dst: Path, n: Name)
    requires Apart(src, dst) && Frame(a, b, dst) && CopyBegun(a, b, src, dst) && IsDir(b, dst)
    requires Frame(b, c, dst + [n]) && CopyBegun(b, c, src + [n], dst + [n])
    requires IsDir(c, dst + [n]) ==> IsDir(b, dst + [n]) || IsDir(a, src + [n])
    ensures CopyBegun(a, c, src, dst)
  {
    forall p: Path | dst <= p
      ensures BegunAt(a, c, src, dst, p)
    {
      assert BegunAt(a, b, src, dst, p);
      if p == dst {
        assert !(dst + [n] <= p);
      } else if p[|dst|] == n {
        var q := Shifted(p, dst, src);
        ChildShift(p, src, dst, n);
        assert BegunAt(b, c, src + [n], dst + [n], p);
        assert src <= q;
        FrameKeepsPath(a, b, dst, src, q);
      } else {
        OtherChild(b, c, dst, n, p);
        assert SameAt(b, c, p);
      }
    }
  }

  /** The trees: a copy into a place that held nothing. */
  ghost predicate Begins(part: Fs, whole: Fs) {
    forall q: Path :: q in part ==> (q == [] && part[q].Dir?) || (q in whole && Begun(part[q], whole[q]))
  }

  lemma CopyBegins(a: Fs, b: Fs, src: Path, dst: Path)
    requires WellFormed(a) && dst !in a && CopyBegun(a, b, src, dst)
    ensures Begins(TreeAt(b, dst), TreeAt(a, src))
  {
    NothingBelow(a, dst);
    forall q: Path | dst + q in b
      ensures (q == [] && b[dst + q].Dir?) || (src + q in a && Begun(b[dst + q], a[src + q]))
    {
      assert BegunAt(a, b, src, dst, dst + q);
      assert Shifted(dst + q, dst, src) == src + q;
    }
  }

  /** Whether what is at y, if anything, can be replaced by what is at x. */
  predicate Replaces(fs: Fs, x: Path, y: Path)
    requires x in fs
  {
    y in fs ==> if fs[x].Dir? then fs[y].Dir? && !HasChild(fs, y) else fs[y].File?
  }

  // ----- the disk -----

  class Disk {
    var fs: Fs
    ghost var history: seq<Fs>

    method Become(next: Fs)
      requires WellFormed(next)
      modifies this
      ensures fs == next && history == old(history) + [next]
    {
      fs := next;
      history := history + [next];
    }

    method CreateDirAll(p: Path) returns (ok: bool)
      requires WellFormed(fs)
      modifies this
      ensures OnlyDirsMade(old(fs), old(history), fs, history, p)
      ensures ok ==> fs == WithDirs(old(fs), p) && IsDir(fs, p)
      decreases |p|
    {
      ghost var a, h := fs, history;
      hide WellFormed;
      if p in fs {
        ok := fs[p].Dir?;
        if ok {
          AlreadyThere(fs, p);
        }
        return;
      }
      if p != [] {
        ok := CreateDirAll(Parent(p));
        DirsMadeFurther(a, h, fs, history, Parent(p), p);
        if !ok {
          return;
        }
        WithDirsOnly(a, Parent(p));
        assert p !in fs;
      }
      if * {
        return false;
      }
      PutKeepsForm(fs, p, Dir);
      assert WithDirs(a, p) == fs[p := Dir];
      Become(fs[p := Dir]);
      ok := true;
    }

    /** Created empty, then filled; what was written before a failure stays. */
    method Write(p: Path, content: string) returns (ok: bool)
      requires WellFormed(fs) && p != []
      modifies this
      ensures Kept(old(fs), old(history), fs, history, p)
      ensures ok ==> (p in old(fs) ==> old(fs)[p].File?) && fs == old(fs)[p := File(content)]
      ensures !ok ==> fs == old(fs) || (p in fs && Begun(fs[p], File(content)) && fs == old(fs)[p := fs[p]])
    {
      ghost var a := fs;
      hide WellFormed;
      KeptSelf(a, history, p);
      var parent := Parent(p);
      if !IsDir(fs, parent) || IsDir(fs, p) {
        return false;
      }
      if * {
        return false;
      }
      Put(p, File(""));
      var written: nat := *;
      if 0 <= written < |content| {
        Put(p, File(content[..written]));
        return false;
      }
      Put(p, File(content));
      ok := true;
    }

    method Put(p: Path, e: Entry)
      requires WellFormed(fs) && p != [] && IsDir(fs, Parent(p)) && (p in fs ==> fs[p].File?)
      modifies this
      ensures WellFormed(fs) && fs == old(fs)[p := e] && history == old(history) + [fs]
    {
      PutKeepsForm(fs, p, e);
      Become(fs[p := e]);
    }

    method CopyFile(src: Path, dst: Path) returns (ok: bool)
      requires WellFormed(fs) && dst != []
      modifies this
      ensures Kept(old(fs), old(history), fs, history, dst)
      ensures ok ==> src in old(fs) && old(fs)[src].File? && (dst in old(fs) ==> old(fs)[dst].File?)
                     && fs == old(fs)[dst := old(fs)[src]]
      ensures CopyBegun(old(fs), fs, src, dst) && (IsDir(fs, dst) ==> IsDir(old(fs), dst))
    {
      hide WellFormed;
      ghost var a := fs;
      KeptSelf(fs, history, dst);
      FileBegun(a, fs, src, dst);
      if src !in fs || fs[src].Dir? {
        return false;
      }
      ok := Write(dst, fs[src].content);
      FileBegun(a, fs, src, dst);
    }

    /** Entries go one by one, children first, until the root is gone or something fails. */
    method RemoveDirAll(root: Path) returns (ok: bool)
      requires WellFormed(fs)
      modifies this
      ensures Kept(old(fs), old(history), fs, history, root)
      ensures ok ==> root !in fs
      ensures PartOf(fs, old(fs))
    {
      hide WellFormed;
      ghost var a, h := fs, history;
      KeptSelf(fs, history, root);
      if !IsDir(fs, root) {
        return false;
      }
      while root in fs
        invariant Kept(a, h, fs, history, root) && PartOf(fs, a)
        decreases |fs|
      {
        var p: Path := *;
        if p !in fs || !(root <= p) || HasChild(fs, p) {
          return false;
        }
        RemoveKeepsForm(fs, p);
        ghost var b, h1 := fs, history;
        Become(fs - {p});
        assert |fs| < |b|;
        assert Kept(b, h1, fs, history, root);
        hide Kept;
        KeptChain(a, h, b, h1, fs, history, root);
      }
      ok := true;
    }

    /** All or nothing. A file replaces a file, a directory an empty directory; an entry renamed to itself stays. */
    method Rename(x: Path, y: Path) returns (ok: bool)
      requires WellFormed(fs)
      modifies this
      ensures WellFormed(fs)
      ensures ok ==> x in old(fs) && (x == y || (Apart(x, y) && Replaces(old(fs), x, y)))
      ensures ok && x != y ==> fs == Moved(old(fs), x, y) && history == old(history) + [fs]
      ensures !ok || x == y ==> fs == old(fs) && history == old(history)
    {
      if x !in fs {
        return false;
      }
      if x == y {
        return true;
      }
      if !Apart(x, y) || !IsDir(fs, Parent(y)) || !Replaces(fs, x, y) {
        return false;
      }
      if * {
        return false;
      }
      MovedKeepsForm(fs, x, y);
      Become(Moved(fs, x, y));
      ok := true;
    }

    method ReadDir(p: Path) returns (names: Option<set<Name>>)
      ensures names.Some? ==> IsDir(fs, p) && names.value == Children(fs, p)
    {
      if !IsDir(fs, p) {
        return None;
      }
      if * {
        return None;
      }
      names := Some(Children(fs, p));
    }
  }

  lemma AlreadyThere(a: Fs, p: Path)
    requires WellFormed(a) && IsDir(a, p)
    ensures WithDirs(a, p) == a
  {
    WithDirsOnly(a, p);
    forall q: Path | q <= p
      ensures q in a && a[q] == Dir
    {
      PrefixPresent(a, p, q);
    }
  }
}
