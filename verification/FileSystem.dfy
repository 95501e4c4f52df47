/** A file system as a map from paths to entries, and what it means for a change to stay inside one place. */
module FileSystem {
  type Name = string
  type Path = seq<Name>

  datatype Entry = File(content: string) | Dir

  type Fs = map<Path, Entry>

  function Parent(p: Path): Path
    requires p != []
  {
    p[..|p| - 1]
  }

  predicate IsDir(fs: Fs, p: Path) {
    p in fs && fs[p].Dir?
  }

  predicate Housed(fs: Fs, p: Path) {
    p in fs && p != [] ==> IsDir(fs, Parent(p))
  }

  /** Everything but the root lies in a directory. */
  ghost predicate WellFormed(fs: Fs) {
    forall p: Path :: Housed(fs, p)
  }

  /** p, which lies at or under `from`, seen at or under `to`. */
  function Shifted(p: Path, from: Path, to: Path): Path
    requires from <= p
  {
    to + p[|from|..]
  }

  /** The entries at and under root, by their path from there. */
  ghost function TreeAt(fs: Fs, root: Path): (t: Fs)
  {
    map p | p in Below(fs, root) :: fs[root + p]
  }

  ghost function Below(fs: Fs, root: Path): (s: set<Path>)
    ensures forall p :: p in s <==> root + p in fs
  {
    var s := set p | p in fs && root <= p :: p[|root|..];
    assert forall p: Path :: root + p in fs ==> p in s by {
      forall p: Path | root + p in fs
        ensures p in s
      {
        assert (root + p)[|root|..] == p;
      }
    }
    assert forall p :: p in s ==> root + p in fs by {
      forall p | p in s
        ensures root + p in fs
      {
        var q :| q in fs && root <= q && p == q[|root|..];
        assert root + p == q;
      }
    }
    s
  }

  /** Two places hold the same tree. */
  ghost predicate SameTree(a: Fs, x: Path, b: Fs, y: Path) {
    forall p: Path :: x <= p ==>
      && (p in a <==> Shifted(p, x, y) in b)
      && (p in a ==> a[p] == b[Shifted(p, x, y)])
  }

  lemma TreesEqual(a: Fs, x: Path, b: Fs, y: Path)
    requires SameTree(a, x, b, y)
    ensures TreeAt(a, x) == TreeAt(b, y)
  {
    forall p: Path
      ensures x + p in a <==> y + p in b
      ensures x + p in a ==> a[x + p] == b[y + p]
    {
      assert Shifted(x + p, x, y) == y + p;
    }
  }

  // ----- staying inside one place -----

  /** Outside root nothing changed, except that missing directories on the way to it may have appeared. */
  ghost predicate Frame(a: Fs, b: Fs, root: Path) {
    forall p: Path :: !(root <= p) ==>
      && (p in a ==> p in b && b[p] == a[p])
      && (p in b && p !in a ==> p <= root && b[p] == Dir)
  }

  lemma FrameChain(a: Fs, b: Fs, c: Fs, root: Path)
    requires Frame(a, b, root) && Frame(b, c, root)
    ensures Frame(a, c, root)
  {
  }

  /** A change inside a part of root is a change inside root. */
  lemma FrameWider(a: Fs, b: Fs, inner: Path, root: Path)
    requires Frame(a, b, inner) && root < inner && IsDir(a, root) && WellFormed(a)
    ensures Frame(a, b, root) && IsDir(b, root)
  {
    forall p: Path | !(root <= p) && p in b && p !in a
      ensures false
    {
      PrefixesCompare(p, root, inner);
      PrefixPresent(a, root, p);
    }
  }

  lemma PrefixesCompare(a: Path, b: Path, p: Path)
    requires a <= p && b <= p
    ensures a <= b || b <= a
  {
    if |a| <= |b| {
      assert b[..|a|] == p[..|a|] == a;
    } else {
      assert a[..|b|] == p[..|b|] == b;
    }
  }

  /** Neither place is inside the other. */
  predicate Apart(x: Path, y: Path) {
    !(x <= y) && !(y <= x)
  }

  /** A change inside root leaves the tree at a place apart from it as it was. */
  lemma FrameKeepsTree(a: Fs, b: Fs, root: Path, x: Path)
    requires Frame(a, b, root) && Apart(x, root)
    ensures TreeAt(b, x) == TreeAt(a, x)
  {
    forall p: Path
      ensures x + p in a <==> x + p in b
      ensures x + p in a ==> b[x + p] == a[x + p]
    {
      FrameKeepsPath(a, b, root, x, x + p);
    }
  }

  lemma FrameKeepsPath(a: Fs, b: Fs, root: Path, x: Path, p: Path)
    requires Frame(a, b, root) && Apart(x, root) && x <= p
    ensures !(root <= p) && (p in a <==> p in b) && (p in a ==> b[p] == a[p])
  {
    if root <= p {
      PrefixesCompare(root, x, p);
    }
    if p <= root {
      PrefixTransitive(x, p, root);
    }
  }

  lemma PrefixTransitive(a: Path, b: Path, c: Path)
    requires a <= b && b <= c
    ensures a <= c
  {
    assert c[..|a|] == b[..|a|];
  }

  // ----- well-formedness -----

  lemma {:induction false} PrefixPresent(fs: Fs, p: Path, q: Path)
    requires WellFormed(fs) && p in fs && q <= p
    ensures q in fs && (q != p ==> fs[q] == Dir)
    decreases |p|
  {
    if q != p {
      assert Housed(fs, p);
      assert q <= Parent(p) by {
        assert Parent(p)[..|q|] == p[..|q|] == q;
      }
      PrefixPresent(fs, Parent(p), q);
    }
  }

  lemma NothingBelow(fs: Fs, root: Path)
    requires WellFormed(fs) && root !in fs
    ensures forall p: Path :: root <= p ==> p !in fs
    ensures TreeAt(fs, root) == map[]
  {
    forall p: Path | root <= p
      ensures p !in fs
    {
      if p in fs {
        PrefixPresent(fs, p, root);
      }
    }
    forall r: Path
      ensures root + r !in fs
    {
      assert root <= root + r;
    }
  }

  predicate HasChild(fs: Fs, p: Path) {
    exists q :: q in fs && q != [] && Parent(q) == p
  }

  lemma PutKeepsForm(fs: Fs, p: Path, e: Entry)
    requires WellFormed(fs) && (p == [] || IsDir(fs, Parent(p)))
    requires p in fs ==> fs[p].File?
    ensures WellFormed(fs[p := e])
  {
    var fs' := fs[p := e];
    forall q: Path
      ensures Housed(fs', q)
    {
      assert Housed(fs, q);
      assert p != [] ==> |Parent(p)| != |p|;
    }
  }

  lemma RemoveKeepsForm(fs: Fs, p: Path)
    requires WellFormed(fs) && !HasChild(fs, p)
    ensures WellFormed(fs - {p})
  {
    var fs' := fs - {p};
    forall q: Path
      ensures Housed(fs', q)
    {
      assert Housed(fs, q);
    }
  }

  // ----- moving a tree -----

  lemma ShiftBack(q: Path, x: Path, y: Path)
    requires x <= q
    ensures y <= Shifted(q, x, y) && Shifted(Shifted(q, x, y), y, x) == q
  {
    assert Shifted(q, x, y)[|y|..] == q[|x|..];
    assert x + q[|x|..] == q;
  }

  function Arrivals(fs: Fs, x: Path, y: Path): (s: set<Path>)
    ensures forall p: Path :: p in s <==> y <= p && Shifted(p, y, x) in fs
  {
    var s := set q | q in fs && x <= q :: Shifted(q, x, y);
    assert forall p: Path :: p in s <==> y <= p && Shifted(p, y, x) in fs by {
      forall p: Path
        ensures p in s <==> y <= p && Shifted(p, y, x) in fs
      {
        if p in s {
          var q :| q in fs && x <= q && p == Shifted(q, x, y);
          ShiftBack(q, x, y);
        }
        if y <= p {
          ShiftBack(p, y, x);
        }
      }
    }
    s
  }

  /** The tree at x, moved to y in place of whatever was there. */
  function Moved(fs: Fs, x: Path, y: Path): (r: Fs)
    requires Apart(x, y)
    ensures forall p: Path :: y <= p ==> (p in r <==> Shifted(p, y, x) in fs) && (p in r ==> r[p] == fs[Shifted(p, y, x)])
    ensures forall p: Path :: !(y <= p) ==> (p in r <==> p in fs && !(x <= p)) && (p in r ==> r[p] == fs[p])
  {
    var stay := map p | p in fs && !(x <= p) && !(y <= p) :: fs[p];
    var come := map p | p in Arrivals(fs, x, y) :: fs[Shifted(p, y, x)];
    stay + come
  }

  lemma ArrivedInDir(fs: Fs, x: Path, y: Path, p: Path)
    requires WellFormed(fs) && Apart(x, y) && y <= p && p != y && p in Moved(fs, x, y)
    ensures Housed(Moved(fs, x, y), p)
  {
    var q := Shifted(p, y, x);
    ShiftParent(p, y, x);
    assert q in fs && Housed(fs, q);
    hide WellFormed, Housed, Shifted, Moved;
    assert IsDir(fs, Parent(q)) && IsDir(Moved(fs, x, y), Parent(p));
    HousedByParent(Moved(fs, x, y), p);
  }

  lemma ShiftParent(p: Path, y: Path, x: Path)
    requires y <= p && p != y
    ensures p != [] && y <= Parent(p)
    ensures Shifted(p, y, x) != [] && Parent(Shifted(p, y, x)) == Shifted(Parent(p), y, x)
  {
  }

  lemma HousedByParent(fs: Fs, p: Path)
    requires p != [] && IsDir(fs, Parent(p))
    ensures Housed(fs, p)
  {
  }

  lemma StayedInDir(fs: Fs, x: Path, y: Path, p: Path)
    requires WellFormed(fs) && Apart(x, y) && !(y <= p) && p != [] && p in Moved(fs, x, y)
    ensures Housed(Moved(fs, x, y), p)
  {
    assert Housed(fs, p);
    if x <= Parent(p) {
      PrefixTransitive(x, Parent(p), p);
    }
    if y <= Parent(p) {
      PrefixTransitive(y, Parent(p), p);
    }
  }

  lemma MovedTop(fs: Fs, x: Path, y: Path)
    requires Apart(x, y) && y != [] && IsDir(fs, Parent(y))
    ensures Housed(Moved(fs, x, y), y)
  {
    assert x <= Parent(y) ==> x <= y;
  }

  /** Moving a tree into a directory leaves the file system well formed. */
  lemma MovedKeepsForm(fs: Fs, x: Path, y: Path)
    requires WellFormed(fs) && Apart(x, y) && y != [] && IsDir(fs, Parent(y))
    ensures WellFormed(Moved(fs, x, y))
  {
    var r := Moved(fs, x, y);
    forall p: Path
      ensures Housed(r, p)
    {
      if p in r && p != [] {
        if p == y {
          MovedTop(fs, x, y);
        } else if y <= p {
          ArrivedInDir(fs, x, y, p);
        } else {
          StayedInDir(fs, x, y, p);
        }
      }
    }
  }

  lemma MovedMoves(fs: Fs, x: Path, y: Path, z: Path)
    requires Apart(x, y)
    ensures TreeAt(Moved(fs, x, y), y) == TreeAt(fs, x)
    ensures TreeAt(Moved(fs, x, y), x) == map[]
    ensures Apart(z, x) && Apart(z, y) ==> TreeAt(Moved(fs, x, y), z) == TreeAt(fs, z)
  {
    var r := Moved(fs, x, y);
    forall q: Path
      ensures x + q !in r
    {
      if y <= x + q {
        PrefixesCompare(x, y, x + q);
      }
    }
    TreesEqual(r, y, fs, x);
    if Apart(z, x) && Apart(z, y) {
      forall p: Path | z <= p
        ensures !(x <= p) && !(y <= p) && Shifted(p, z, z) == p
      {
        if x <= p {
          PrefixesCompare(x, z, p);
        }
        if y <= p {
          PrefixesCompare(y, z, p);
        }
      }
      TreesEqual(r, z, fs, z);
    }
  }
}
