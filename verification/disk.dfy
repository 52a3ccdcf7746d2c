/**
 * An abstract local file system: a map from absolute paths to entries,
 * with the few Node `fs` calls the stores make. existsSync is the membership
 * test `p in fs`. readdirSync and readFileSync are functions that give the
 * listing or the content, or the error code the call would throw;
 * writeFileSync, unlinkSync, renameSync and mkdirSync with `recursive` are
 * functions that give the new volume or that error code.
 */
module Disk {
  import opened Wrappers

  /** An absolute path as its segments; the empty path is the root "/". */
  type Path = seq<string>

  /** A directory, or a regular file holding parsed content of type C. */
  datatype Entry<C> = Dir | File(content: C)

  /** The error codes the modelled calls can throw. */
  datatype IoError = ENOENT | ENOTDIR | EISDIR | ENOTEMPTY | EINVAL

  type Volume<C> = map<Path, Entry<C>>

  /** path.join(dir, name) for a name that is a single segment. */
  function Join(dir: Path, name: string): (p: Path)
    ensures |p| == |dir| + 1 && p[..|dir|] == dir && p[|dir|] == name
    ensures Dirname(p) == dir
  {
    dir + [name]
  }

  /** path.dirname: drops the last segment; the root is its own parent. */
  function Dirname(p: Path): Path
  {
    if p == [] then [] else p[..|p| - 1]
  }

  /** Every path other than the root is its parent joined with its last segment. */
  lemma DirnameJoin(p: Path)
    requires p != []
    ensures |Dirname(p)| == |p| - 1 && IsPrefix(Dirname(p), p)
    ensures Join(Dirname(p), p[|p| - 1]) == p
  {
    assert p == p[..|p| - 1] + [p[|p| - 1]];
  }

  predicate IsDir<C>(fs: Volume<C>, p: Path)
  {
    p in fs && fs[p].Dir?
  }

  predicate IsFile<C>(fs: Volume<C>, p: Path)
  {
    p in fs && fs[p].File?
  }

  /** a is b or one of b's ancestors. */
  predicate IsPrefix(a: Path, b: Path)
  {
    |a| <= |b| && b[..|a|] == a
  }

  /** The root is a directory and every other entry sits in a directory. */
  ghost predicate WellFormed<C>(fs: Volume<C>)
  {
    && IsDir(fs, [])
    && forall p :: p in fs && p != [] ==> IsDir(fs, Dirname(p))
  }

  /** Some entry lies strictly below d. */
  predicate HasDescendants<C>(fs: Volume<C>, d: Path)
  {
    exists q :: q in fs && IsPrefix(d, q) && q != d
  }

  /** The names of the entries directly inside dir. */
  function Children<C>(fs: Volume<C>, dir: Path): set<string>
  {
    set p | p in fs && |p| == |dir| + 1 && p[..|dir|] == dir :: p[|dir|]
  }

  lemma ChildrenAreEntries<C>(fs: Volume<C>, dir: Path, n: string)
    ensures n in Children(fs, dir) <==> Join(dir, n) in fs
  {
    if Join(dir, n) in fs {
      var p := Join(dir, n);
      assert p[|dir|] == n;
    }
    if n in Children(fs, dir) {
      var p :| p in fs && |p| == |dir| + 1 && p[..|dir|] == dir && p[|dir|] == n;
      assert p == p[..|dir|] + [p[|dir|]];
    }
  }

  /** readdirSync(dir): the names directly inside a directory. */
  function ReadDir<C>(fs: Volume<C>, dir: Path): (r: Result<set<string>, IoError>)
    ensures r.Ok? <==> IsDir(fs, dir)
    ensures r.Ok? ==> forall n :: n in r.value <==> Join(dir, n) in fs
  {
    forall n ensures n in Children(fs, dir) <==> Join(dir, n) in fs {
      ChildrenAreEntries(fs, dir, n);
    }
    if dir !in fs then Err(ENOENT)
    else if fs[dir].File? then Err(ENOTDIR)
    else Ok(Children(fs, dir))
  }

  /** readFileSync(p). */
  function ReadFile<C>(fs: Volume<C>, p: Path): (r: Result<C, IoError>)
    ensures r.Ok? <==> IsFile(fs, p)
    ensures r.Ok? ==> fs[p] == File(r.value)
  {
    if p !in fs then Err(ENOENT)
    else if fs[p].Dir? then Err(EISDIR)
    else Ok(fs[p].content)
  }

  /** writeFileSync(p, c): creates or replaces a file in an existing directory. */
  function WriteFile<C>(fs: Volume<C>, p: Path, c: C): (r: Result<Volume<C>, IoError>)
    ensures r.Ok? <==> IsDir(fs, Dirname(p)) && !IsDir(fs, p)
    ensures r.Ok? ==> r.value.Keys == fs.Keys + {p}
    ensures r.Ok? ==> forall q :: q in fs && q != p ==> r.value[q] == fs[q]
    ensures r.Ok? ==> ReadFile(r.value, p) == Ok(c)
  {
    if IsDir(fs, p) then Err(EISDIR)
    else if Dirname(p) !in fs then Err(ENOENT)
    else if fs[Dirname(p)].File? then Err(ENOTDIR)
    else Ok(fs[p := File(c)])
  }

  /** unlinkSync(p): removes a file; a missing path or a directory is an error. */
  function Unlink<C>(fs: Volume<C>, p: Path): (r: Result<Volume<C>, IoError>)
    ensures r.Ok? <==> IsFile(fs, p)
    ensures r.Ok? ==> r.value.Keys == fs.Keys - {p}
    ensures r.Ok? ==> forall q :: q in r.value ==> r.value[q] == fs[q]
  {
    if p !in fs then Err(ENOENT)
    else if fs[p].Dir? then Err(EISDIR)
    else Ok(fs - {p})
  }

  /** The paths from the root down to p, p included. */
  function Prefixes(p: Path): set<Path>
  {
    set i | 0 <= i <= |p| :: p[..i]
  }

  /** mkdirSync(p, { recursive: true }): creates p and its missing ancestors. */
  function MkdirP<C>(fs: Volume<C>, p: Path): (r: Result<Volume<C>, IoError>)
    ensures r.Ok? <==> forall i :: 0 <= i <= |p| ==> !IsFile(fs, p[..i])
    ensures r.Ok? ==> IsDir(r.value, p)
    ensures r.Ok? ==> forall q :: q in fs ==> q in r.value && r.value[q] == fs[q]
    ensures r.Ok? ==> forall q :: q in r.value && q !in fs ==> IsPrefix(q, p) && r.value[q] == Dir
  {
    if exists i :: 0 <= i <= |p| && IsFile(fs, p[..i]) then Err(ENOTDIR)
    else
      assert p[..|p|] == p;
      Ok(fs + map q | q in Prefixes(p) && q !in fs :: Dir)
  }

  /** `if (!existsSync(p)) mkdirSync(p, { recursive: true })`. */
  function EnsureDir<C>(fs: Volume<C>, p: Path): (r: Result<Volume<C>, IoError>)
    ensures p in fs ==> r == Ok(fs)
    ensures p !in fs ==> r == MkdirP(fs, p)
    ensures r.Ok? <==> p in fs || forall i :: 0 <= i <= |p| ==> !IsFile(fs, p[..i])
    ensures r.Ok? ==> p in r.value && forall q :: q in fs ==> q in r.value && r.value[q] == fs[q]
  {
    if p in fs then Ok(fs) else MkdirP(fs, p)
  }

  /** The entry at q of a directory moved from `from` to `to`. */
  function MovedKey(from: Path, to: Path, q: Path): Path
    requires IsPrefix(from, q)
  {
    to + q[|from|..]
  }

  lemma MovedKeyInjective(from: Path, to: Path, q1: Path, q2: Path)
    requires IsPrefix(from, q1) && IsPrefix(from, q2)
    requires MovedKey(from, to, q1) == MovedKey(from, to, q2)
    ensures q1 == q2
  {
    assert q1[|from|..] == MovedKey(from, to, q1)[|to|..];
    assert q2[|from|..] == MovedKey(from, to, q2)[|to|..];
    assert q1 == q1[..|from|] + q1[|from|..];
    assert q2 == q2[..|from|] + q2[|from|..];
  }

  /** The entries of a volume that a move from `from` to `to` leaves in place. */
  function Unmoved<C>(fs: Volume<C>, from: Path, to: Path): (m: Volume<C>)
    ensures forall q :: q in m <==> q in fs && !IsPrefix(from, q) && q != to
    ensures forall q :: q in m ==> m[q] == fs[q]
  {
    map q | q in fs && !IsPrefix(from, q) && q != to :: fs[q]
  }

  /** The entries at and below `from`, under their new names below `to`. */
  function Moved<C>(fs: Volume<C>, from: Path, to: Path): (m: Volume<C>)
    ensures forall q :: q in fs && IsPrefix(from, q) ==>
                          MovedKey(from, to, q) in m && m[MovedKey(from, to, q)] == fs[q]
    ensures forall k :: k in m ==> exists q :: q in fs && IsPrefix(from, q) && MovedKey(from, to, q) == k
  {
    forall q1, q2 | q1 in fs && IsPrefix(from, q1) && q2 in fs && IsPrefix(from, q2)
                    && MovedKey(from, to, q1) == MovedKey(from, to, q2)
      ensures q1 == q2
    {
      MovedKeyInjective(from, to, q1, q2);
    }
    map q | q in fs && IsPrefix(from, q) :: MovedKey(from, to, q) := fs[q]
  }

  /** The volume after the directory `from`, with everything below it, moved to `to`. */
  function MoveTree<C>(fs: Volume<C>, from: Path, to: Path): Volume<C>
  {
    Unmoved(fs, from, to) + Moved(fs, from, to)
  }

  /**
   * renameSync(from, to): a file replaces a file at `to`; a directory
   * replaces an empty directory at `to` and carries its contents along.
   */
  function Rename<C>(fs: Volume<C>, from: Path, to: Path): (r: Result<Volume<C>, IoError>)
    ensures r.Ok? ==> from in fs && IsDir(fs, Dirname(to))
    ensures from == to && from in fs && IsDir(fs, Dirname(to)) ==> r == Ok(fs)
    ensures IsFile(fs, from) && from != to ==>
              (r.Ok? <==> IsDir(fs, Dirname(to)) && !IsDir(fs, to))
    ensures IsFile(fs, from) && from != to && r.Ok? ==>
              r.value == (fs - {from})[to := fs[from]]
  {
    if from !in fs then Err(ENOENT)
    else if Dirname(to) !in fs then Err(ENOENT)
    else if fs[Dirname(to)].File? then Err(ENOTDIR)
    else if from == to then Ok(fs)
    else if fs[from].File? then
      if IsDir(fs, to) then Err(EISDIR) else Ok((fs - {from})[to := fs[from]])
    else if IsPrefix(from, to) then Err(EINVAL)
    else if IsFile(fs, to) then Err(ENOTDIR)
    else if IsDir(fs, to) && HasDescendants(fs, to) then Err(ENOTEMPTY)
    else Ok(MoveTree(fs, from, to))
  }

  // ── Each call keeps the volume well formed ─────────────────────────────────

  lemma WriteFileKeepsWellFormed<C>(fs: Volume<C>, p: Path, c: C)
    requires WellFormed(fs) && WriteFile(fs, p, c).Ok?
    ensures WellFormed(WriteFile(fs, p, c).value)
  {
    var fs' := WriteFile(fs, p, c).value;
    forall q | q in fs' && q != [] ensures IsDir(fs', Dirname(q)) {
      if q != p {
        assert Dirname(q) != p;
      }
    }
  }

  lemma UnlinkKeepsWellFormed<C>(fs: Volume<C>, p: Path)
    requires WellFormed(fs) && Unlink(fs, p).Ok?
    ensures WellFormed(Unlink(fs, p).value)
  {
    var fs' := Unlink(fs, p).value;
    forall q | q in fs' && q != [] ensures IsDir(fs', Dirname(q)) {
      assert IsDir(fs, Dirname(q));
    }
  }

  lemma MkdirPKeepsWellFormed<C>(fs: Volume<C>, p: Path)
    requires WellFormed(fs) && MkdirP(fs, p).Ok?
    ensures WellFormed(MkdirP(fs, p).value)
  {
    var fs' := MkdirP(fs, p).value;
    forall q | q in fs' && q != [] ensures IsDir(fs', Dirname(q)) {
      if q !in fs {
        assert IsPrefix(q, p);
        var i := |q|;
        assert q == p[..i];
        assert Dirname(q) == p[..i - 1];
        assert !IsFile(fs, p[..i - 1]);
        if p[..i - 1] !in fs {
          assert p[..i - 1] in Prefixes(p);
        }
      }
    }
  }

  lemma DirnameBelow(from: Path, q: Path)
    requires IsPrefix(from, q) && q != from
    ensures IsPrefix(from, Dirname(q))
  {
  }

  lemma DirnameOfMoved(from: Path, to: Path, q: Path)
    requires IsPrefix(from, q) && q != from
    ensures Dirname(MovedKey(from, to, q)) == MovedKey(from, to, Dirname(q))
  {
    assert MovedKey(from, to, q)[..|MovedKey(from, to, q)| - 1] == to + q[|from|..|q| - 1];
  }

  /** The preconditions under which Rename moves a directory. */
  ghost predicate CanMoveTree<C>(fs: Volume<C>, from: Path, to: Path)
  {
    && WellFormed(fs) && IsDir(fs, from) && IsDir(fs, Dirname(to))
    && !IsPrefix(from, to) && !IsFile(fs, to) && !(IsDir(fs, to) && HasDescendants(fs, to))
  }

  /** In a well-formed volume every proper ancestor of an entry is a directory. */
  lemma {:induction false} AncestorIsDir<C>(fs: Volume<C>, a: Path, q: Path)
    requires WellFormed(fs) && q in fs && IsPrefix(a, q) && a != q
    ensures IsDir(fs, a)
    decreases |q|
  {
    var d := Dirname(q);
    assert IsDir(fs, d) && IsPrefix(a, d);
    if a != d {
      AncestorIsDir(fs, a, d);
    }
  }

  lemma UnmovedParent<C>(fs: Volume<C>, from: Path, to: Path, k: Path)
    requires CanMoveTree(fs, from, to)
    requires k in Unmoved(fs, from, to) && k != []
    ensures Dirname(k) in Unmoved(fs, from, to) && fs[Dirname(k)] == Dir
  {
    var d := Dirname(k);
    assert IsDir(fs, d);
    if d == to {
      assert IsPrefix(to, k) && k != to;
    }
  }

  /** Every moved entry lands at or below `to`, so a path outside `to` is not one of them. */
  lemma OutsideIsNotMoved<C>(fs: Volume<C>, from: Path, to: Path, d: Path)
    requires !IsPrefix(to, d)
    ensures d !in Moved(fs, from, to)
  {
    forall q | q in fs && IsPrefix(from, q) ensures MovedKey(from, to, q) != d {
      assert IsPrefix(to, MovedKey(from, to, q));
    }
  }

  lemma PrefixTransitive(a: Path, b: Path, c: Path)
    ensures IsPrefix(a, b) && IsPrefix(b, c) ==> IsPrefix(a, c)
  {
  }

  /** `to` is not the root: the root holds `from`, so it is never an empty directory. */
  lemma MoveTargetNotRoot<C>(fs: Volume<C>, from: Path, to: Path)
    requires CanMoveTree(fs, from, to)
    ensures to != []
  {
    assert IsPrefix([], from);
  }

  /** The moved directory itself lands in the unmoved parent of `to`. */
  lemma MovedTopParent<C>(fs: Volume<C>, from: Path, to: Path)
    requires CanMoveTree(fs, from, to)
    ensures IsDir(MoveTree(fs, from, to), Dirname(MovedKey(from, to, from)))
  {
    assert MovedKey(from, to, from) == to;
    MoveTargetNotRoot(fs, from, to);
    var d := Dirname(to);
    DirnameJoin(to);
    PrefixTransitive(from, d, to);
    assert d in Unmoved(fs, from, to);
    OutsideIsNotMoved(fs, from, to, d);
    assert MoveTree(fs, from, to)[d] == fs[d];
  }

  /** An entry strictly below `from` lands below the moved copy of its parent. */
  lemma MovedInnerParent<C>(fs: Volume<C>, from: Path, to: Path, q: Path)
    requires CanMoveTree(fs, from, to)
    requires q in fs && IsPrefix(from, q) && q != from
    ensures IsDir(MoveTree(fs, from, to), Dirname(MovedKey(from, to, q)))
  {
    DirnameBelow(from, q);
    DirnameOfMoved(from, to, q);
    var d := Dirname(q);
    assert IsDir(fs, d);
    var k := MovedKey(from, to, d);
    assert k in Moved(fs, from, to) && Moved(fs, from, to)[k] == Dir;
    assert MoveTree(fs, from, to)[k] == Dir;
  }

  lemma MovedParent<C>(fs: Volume<C>, from: Path, to: Path, q: Path)
    requires CanMoveTree(fs, from, to)
    requires q in fs && IsPrefix(from, q)
    ensures IsDir(MoveTree(fs, from, to), Dirname(MovedKey(from, to, q)))
  {
    if q == from {
      MovedTopParent(fs, from, to);
    } else {
      MovedInnerParent(fs, from, to, q);
    }
  }

  lemma MoveTreeKeepsWellFormed<C>(fs: Volume<C>, from: Path, to: Path)
    requires CanMoveTree(fs, from, to)
    ensures WellFormed(MoveTree(fs, from, to))
  {
    var fs' := MoveTree(fs, from, to);
    assert from != [] by {
      assert IsPrefix([], to);
    }
    assert [] in Unmoved(fs, from, to);
    assert IsDir(fs', []);
    forall k | k in fs' && k != [] ensures IsDir(fs', Dirname(k)) {
      if k in Moved(fs, from, to) {
        var q :| q in fs && IsPrefix(from, q) && MovedKey(from, to, q) == k;
        MovedParent(fs, from, to, q);
      } else {
        UnmovedParent(fs, from, to, k);
        var d := Dirname(k);
        assert !IsPrefix(to, d) by {
          if IsPrefix(to, d) {
            assert d in fs && d != to;
            AncestorIsDir(fs, to, d);
          }
        }
        OutsideIsNotMoved(fs, from, to, d);
      }
    }
  }

  lemma RenameKeepsWellFormed<C>(fs: Volume<C>, from: Path, to: Path)
    requires WellFormed(fs) && Rename(fs, from, to).Ok?
    ensures WellFormed(Rename(fs, from, to).value)
  {
    var fs' := Rename(fs, from, to).value;
    if from != to {
      if fs[from].File? {
        forall q | q in fs' && q != [] ensures IsDir(fs', Dirname(q)) {
          if q != to {
            assert IsDir(fs, Dirname(q));
            assert Dirname(q) != from;
          }
        }
      } else {
        MoveTreeKeepsWellFormed(fs, from, to);
      }
    }
  }
}
