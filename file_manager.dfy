/**
 * The report sink: a filesystem tree as a map from paths to nodes, and the
 * three things the action does with it (test a path, write a variable
 * assignment to a file, copy a directory tree).
 */
module FileManager {
  import opened Types

  datatype Node = File(content: string) | Dir

  /** What is stored at `p`, if anything. */
  function Lookup(fs: map<Path, Node>, p: Path): Option<Node> {
    if p in fs then Some(fs[p]) else None
  }

  predicate IsPrefix(a: Path, b: Path) {
    |a| <= |b| && b[..|a|] == a
  }

  /** Neither path lies inside the other (nor are they equal). */
  predicate Disjoint(a: Path, b: Path) {
    !IsPrefix(a, b) && !IsPrefix(b, a)
  }

  predicate IsDir(fs: map<Path, Node>, p: Path) {
    p in fs && fs[p] == Dir
  }

  /** A tree rooted at the working directory: every entry's parent is a directory. */
  ghost predicate WellFormed(fs: map<Path, Node>) {
    && IsDir(fs, [])
    && forall p, c :: p + [c] in fs ==> IsDir(fs, p)
  }

  /** The parent of an entry of a tree is a directory. */
  lemma ParentIsDir(fs: map<Path, Node>, p: Path)
    requires WellFormed(fs) && p in fs && p != []
    ensures IsDir(fs, p[..|p| - 1])
  {
    assert p == p[..|p| - 1] + [p[|p| - 1]];
  }

  /** In a tree the ancestor of an entry given by its length `i` is a directory. */
  lemma {:induction false} AncestorIsDir(fs: map<Path, Node>, p: Path, i: nat)
    requires WellFormed(fs) && p in fs && i < |p|
    ensures IsDir(fs, p[..i])
    decreases |p| - i
  {
    var parent := p[..|p| - 1];
    ParentIsDir(fs, p);
    if i < |parent| {
      AncestorIsDir(fs, parent, i);
      assert parent[..i] == p[..i];
    }
  }

  /** All proper ancestors of an entry at once, when the filesystem is a tree. */
  lemma AncestorsOfEntry(fs: map<Path, Node>, p: Path)
    requires p in fs
    ensures WellFormed(fs) ==> forall i :: 0 <= i < |p| ==> IsDir(fs, p[..i])
  {
    if WellFormed(fs) {
      forall i | 0 <= i < |p| ensures IsDir(fs, p[..i]) {
        AncestorIsDir(fs, p, i);
      }
    }
  }

  // ---------------------------------------------------------------- writeFile

  /** The text `writeVariableToFile` stores: `var <name> = <data>;`. */
  function VarAssignment(name: string, data: string): (s: string)
    ensures |s| == |name| + |data| + 8
    ensures s[..4] == "var " && s[4..4 + |name|] == name && s[|s| - 1] == ';'
  {
    "var " + name + " = " + data + ";"
  }

  /** Reads back the value of an assignment to `name`, if `s` is one. */
  function ParseVarAssignment(name: string, s: string): Option<string> {
    var head := "var " + name + " = ";
    if |s| >= |head| + 1 && s[..|head|] == head && s[|s| - 1] == ';'
    then Some(s[|head|..|s| - 1])
    else None
  }

  /** Stripping `var <name> = ` and the final `;` gives back the data written. */
  lemma VarAssignmentRoundTrip(name: string, data: string)
    ensures ParseVarAssignment(name, VarAssignment(name, data)) == Some(data)
  {
    var head := "var " + name + " = ";
    var s := VarAssignment(name, data);
    assert s == head + data + ";";
    assert s[..|head|] == head;
    assert s[|head|..|s| - 1] == data;
  }

  /** Different data never produce the same file content. */
  lemma VarAssignmentInjective(name: string, d1: string, d2: string)
    requires VarAssignment(name, d1) == VarAssignment(name, d2)
    ensures d1 == d2
  {
    VarAssignmentRoundTrip(name, d1);
    VarAssignmentRoundTrip(name, d2);
  }

  /**
   * `writeFile(path, content)`: replaces or creates the file when its parent
   * is a directory and the path itself is not one; otherwise rejects and
   * changes nothing: `NoEntry` for a missing parent, `NotDirectory` for a
   * parent that is a file, `IsDirectory` for a directory at the path.
   */
  function WriteFile(fs: map<Path, Node>, path: Path, content: string): (r: Result<map<Path, Node>, FsError>)
    ensures r.Success? <==> path != [] && IsDir(fs, path[..|path| - 1]) && !IsDir(fs, path)
    ensures r.Success? ==> Lookup(r.value, path) == Some(File(content))
    ensures r.Success? ==> forall p :: p != path ==> Lookup(r.value, p) == Lookup(fs, p)
    ensures r.Success? && WellFormed(fs) ==> WellFormed(r.value)
  {
    if path == [] then Failure(IsDirectory)
    else
      var parent := path[..|path| - 1];
      if parent !in fs then Failure(NoEntry)
      else if fs[parent] != Dir then Failure(NotDirectory)
      else if IsDir(fs, path) then Failure(IsDirectory)
      else
        WriteFileKeepsTree(fs, path, content);
        Success(fs[path := File(content)])
  }

  /** Writing a file under a directory keeps the filesystem a tree. */
  lemma WriteFileKeepsTree(fs: map<Path, Node>, path: Path, content: string)
    requires path != [] && IsDir(fs, path[..|path| - 1]) && !IsDir(fs, path)
    ensures WellFormed(fs) ==> WellFormed(fs[path := File(content)])
  {
    var fs' := fs[path := File(content)];
    if WellFormed(fs) {
      forall q, c | q + [c] in fs' ensures IsDir(fs', q) {
        if q + [c] == path {
          assert path[..|path| - 1] == q;
          assert |q| < |path|;
        } else {
          assert q + [c] in fs;
        }
        assert IsDir(fs, q) && q != path;
      }
    }
  }

  // ---------------------------------------------------------------- mkdir -p

  /** `mkdir(d, {recursive: true})` fails exactly when `d` or an ancestor is a file. */
  predicate MkdirAllowed(fs: map<Path, Node>, d: Path) {
    forall i :: 0 <= i <= |d| ==> !(d[..i] in fs && fs[d[..i]].File?)
  }

  /** The entry at `p` after `mkdir(d, {recursive: true})` succeeded. */
  function MkdirLookup(fs: map<Path, Node>, d: Path, p: Path): Option<Node> {
    if p in fs then Some(fs[p]) else if IsPrefix(p, d) then Some(Dir) else None
  }

  /** `mkdir(d, {recursive: true})`: creates `d` and its missing ancestors. */
  function Mkdirp(fs: map<Path, Node>, d: Path): (r: map<Path, Node>)
    requires MkdirAllowed(fs, d)
    ensures forall p :: Lookup(r, p) == MkdirLookup(fs, d, p)
  {
    var r := fs + map i | 0 <= i <= |d| && d[..i] !in fs :: d[..i] := Dir;
    MkdirpLookup(fs, d, r);
    r
  }

  lemma MkdirpLookup(fs: map<Path, Node>, d: Path, r: map<Path, Node>)
    requires r == fs + map i | 0 <= i <= |d| && d[..i] !in fs :: d[..i] := Dir
    ensures forall p :: Lookup(r, p) == MkdirLookup(fs, d, p)
  {
    forall p ensures Lookup(r, p) == MkdirLookup(fs, d, p) {
      if p !in fs && IsPrefix(p, d) {
        assert p == d[..|p|];
      }
    }
  }

  /** Creating directories keeps the filesystem a tree. */
  lemma MkdirpWellFormed(fs: map<Path, Node>, d: Path)
    requires WellFormed(fs) && MkdirAllowed(fs, d)
    ensures WellFormed(Mkdirp(fs, d))
  {
    var r := Mkdirp(fs, d);
    forall q, c | q + [c] in r ensures IsDir(r, q) {
      var p := q + [c];
      assert p[..|p| - 1] == q;
      assert Lookup(r, p) == MkdirLookup(fs, d, p);
      assert Lookup(r, q) == MkdirLookup(fs, d, q);
      if p in fs {
        assert IsDir(fs, q);
      } else {
        assert IsPrefix(p, d);
        assert q == d[..|q|];
        assert IsPrefix(q, d);
      }
    }
    assert Lookup(r, []) == MkdirLookup(fs, d, []);
  }

  function MkdirError(fs: map<Path, Node>, d: Path): FsError {
    if d in fs && fs[d].File? then AlreadyExists else NotDirectory
  }

  // ---------------------------------------------------------------- copy

  /** The names `readdir(src)` lists: exactly those `c` with an entry at `src + [c]`. */
  function Children(fs: map<Path, Node>, src: Path): (cs: set<string>)
    ensures forall c :: c in cs <==> src + [c] in fs
  {
    var cs := set p | p in fs && |p| == |src| + 1 && p[..|src|] == src :: p[|src|];
    forall c ensures c in cs <==> src + [c] in fs {
      var p := src + [c];
      assert p[..|src|] == src && p[|src|] == c;
      if c in cs {
        var p' :| p' in fs && |p'| == |src| + 1 && p'[..|src|] == src && p'[|src|] == c;
        assert p' == p;
      }
    }
    cs
  }

  /** Every entry at or below `src`. */
  function Subtree(fs: map<Path, Node>, src: Path): set<Path> {
    set q | q in fs && IsPrefix(src, q)
  }

  /**
   * The entry at `p` once the entries of `src` named in `done` have been
   * copied to `dest` (after `dest` was created): a path `dest + r` whose
   * first segment of `r` is done takes the node at `src + r`; every other
   * path keeps what the directory creation left.
   */
  function PartlyCopied(fs: map<Path, Node>, src: Path, dest: Path, done: set<string>, p: Path): Option<Node> {
    if IsPrefix(dest, p) && |p| > |dest| && p[|dest|] in done && src + p[|dest|..] in fs
    then Some(fs[src + p[|dest|..]])
    else MkdirLookup(fs, dest, p)
  }

  /** The entry at `p` after `src` was copied to `dest`. */
  function Copied(fs: map<Path, Node>, src: Path, dest: Path, p: Path): Option<Node> {
    if IsPrefix(dest, p) && src + p[|dest|..] in fs
    then Some(fs[src + p[|dest|..]])
    else MkdirLookup(fs, dest, p)
  }

  /** `fs` is what `copyFolderRecursive(src, dest)` makes of `fs0`. */
  ghost predicate IsCopy(fs0: map<Path, Node>, fs: map<Path, Node>, src: Path, dest: Path) {
    forall p :: Lookup(fs, p) == Copied(fs0, src, dest, p)
  }

  /**
   * The copy goes through: `src` is a directory, `dest` can be created, and
   * no copied entry meets an existing one of the other kind (a directory
   * cannot be made over a file, a file cannot be copied over a directory).
   */
  predicate CopyAllowed(fs: map<Path, Node>, src: Path, dest: Path) {
    && IsDir(fs, src)
    && MkdirAllowed(fs, dest)
    && forall q :: q in fs && IsPrefix(src, q) && dest + q[|src|..] in fs ==>
         (fs[dest + q[|src|..]] == Dir <==> fs[q] == Dir)
  }

  /** Only `dest`'s subtree changes, apart from creating `dest`'s missing ancestors. */
  ghost predicate OnlyUnder(fs0: map<Path, Node>, fs: map<Path, Node>, dest: Path) {
    forall p :: !IsPrefix(dest, p) ==>
      Lookup(fs, p) == Lookup(fs0, p) || (p !in fs0 && IsPrefix(p, dest) && Lookup(fs, p) == Some(Dir))
  }

  lemma PrefixOfExtension(a: Path, b: Path, c: string)
    requires IsPrefix(a, b + [c])
    ensures IsPrefix(a, b) || a == b + [c]
  {
    if |a| <= |b| {
      assert b[..|a|] == (b + [c])[..|a|];
    }
  }

  lemma PrefixTransitive(a: Path, b: Path, c: Path)
    requires IsPrefix(a, b) && IsPrefix(b, c)
    ensures IsPrefix(a, c)
  {
    assert c[..|a|] == c[..|b|][..|a|];
  }

  /** Two prefixes of one path are prefixes of each other. */
  lemma PrefixesComparable(a: Path, b: Path, q: Path)
    requires IsPrefix(a, q) && IsPrefix(b, q)
    ensures IsPrefix(a, b) || IsPrefix(b, a)
  {
    if |a| <= |b| {
      assert b[..|a|] == q[..|b|][..|a|];
    } else {
      assert a[..|b|] == q[..|a|][..|b|];
    }
  }

  /** A prefix grows by the next segment of the path it prefixes. */
  lemma PrefixWithNext(a: Path, p: Path)
    requires IsPrefix(a, p) && |p| > |a|
    ensures IsPrefix(a + [p[|a|]], p)
  {
    assert p[..|a| + 1] == p[..|a|] + [p[|a|]];
  }

  /** Paths below `src` are unrelated to `dest` when the two are disjoint. */
  lemma BelowSourceUnrelated(src: Path, dest: Path, q: Path)
    requires Disjoint(src, dest) && IsPrefix(src, q)
    ensures !IsPrefix(dest, q) && !IsPrefix(q, dest)
  {
    if IsPrefix(dest, q) {
      PrefixesComparable(src, dest, q);
      assert false;
    }
    if IsPrefix(q, dest) {
      PrefixTransitive(src, q, dest);
      assert false;
    }
  }

  lemma PrefixOfExtended(a: Path, b: Path, c: string)
    requires IsPrefix(a + [c], b + [c])
    ensures IsPrefix(a, b)
  {
    assert b[..|a|] == (b + [c])[..|a| + 1][..|a|];
  }

  lemma ChildrenDisjoint(src: Path, dest: Path, c: string)
    requires Disjoint(src, dest)
    ensures Disjoint(src + [c], dest + [c])
  {
    if IsPrefix(src + [c], dest + [c]) {
      PrefixOfExtended(src, dest, c);
      assert false;
    }
    if IsPrefix(dest + [c], src + [c]) {
      PrefixOfExtended(dest, src, c);
      assert false;
    }
  }

  /** A proper ancestor of an entry given as a path prefix `a` is a directory. */
  lemma AncestorOfEntry(fs: map<Path, Node>, p: Path, a: Path)
    requires WellFormed(fs) && p in fs && IsPrefix(a, p) && |a| < |p|
    ensures IsDir(fs, a)
  {
    AncestorIsDir(fs, p, |a|);
  }

  /** The path below `src + [c]` seen from `src`, and its image below `dest + [c]`. */
  lemma ShiftedBelowChild(src: Path, dest: Path, c: string, q: Path)
    requires IsPrefix(src + [c], q)
    ensures IsPrefix(src, q)
    ensures q[|src|..] == [c] + q[|src| + 1..]
    ensures dest + q[|src|..] == (dest + [c]) + q[|src| + 1..]
  {
    PrefixTransitive(src, src + [c], q);
    assert q == (src + [c]) + q[|src| + 1..];
  }

  /** The image below `dest` of a path below `src`, seen from `dest`. */
  lemma ImageBelowDest(dest: Path, r: Path)
    ensures IsPrefix(dest, dest + r)
    ensures (dest + r)[|dest|..] == r
    ensures r != [] ==> (dest + r)[|dest|] == r[0]
  {
    assert (dest + r)[..|dest|] == dest;
  }

  /** A strictly smaller subset has strictly fewer elements. */
  lemma {:induction false} SubsetSmaller<T>(a: set<T>, b: set<T>, x: T)
    requires a <= b && x in b && x !in a
    ensures |a| < |b|
    decreases |a|
  {
    if a != {} {
      var y :| y in a;
      SubsetSmaller(a - {y}, b - {y}, x);
    }
  }

  /** Copying into a destination that does not exist yet is always allowed. */
  lemma FreshDestinationCopyAllowed(fs: map<Path, Node>, src: Path, dest: Path)
    requires WellFormed(fs) && IsDir(fs, src) && dest !in fs && MkdirAllowed(fs, dest)
    ensures CopyAllowed(fs, src, dest)
  {
    forall q | q in fs && IsPrefix(src, q) ensures dest + q[|src|..] !in fs {
      var p := dest + q[|src|..];
      ImageBelowDest(dest, q[|src|..]);
      if q[|src|..] == [] {
        assert p == dest;
      } else if p in fs {
        AncestorOfEntry(fs, p, dest);
        assert false;
      }
    }
  }

  /** After a copy, every entry below `src` sits below `dest` too, unchanged. */
  lemma CopyReplicatesSource(fs0: map<Path, Node>, fs: map<Path, Node>, src: Path, dest: Path, r: Path)
    requires IsCopy(fs0, fs, src, dest) && src + r in fs0
    ensures Lookup(fs, dest + r) == Some(fs0[src + r])
  {
    ImageBelowDest(dest, r);
    assert Lookup(fs, dest + r) == Copied(fs0, src, dest, dest + r);
  }

  /** After a copy `dest` is a directory, whether or not it existed before. */
  lemma CopyCreatesDestination(fs0: map<Path, Node>, fs: map<Path, Node>, src: Path, dest: Path)
    requires IsCopy(fs0, fs, src, dest) && IsDir(fs0, src)
    ensures IsDir(fs, dest)
  {
    assert src + [] == src && dest + [] == dest;
    CopyReplicatesSource(fs0, fs, src, dest, []);
  }

  /** A copy leaves its source tree as it was. */
  lemma CopyKeepsSource(fs0: map<Path, Node>, fs: map<Path, Node>, src: Path, dest: Path, q: Path)
    requires IsCopy(fs0, fs, src, dest) && Disjoint(src, dest) && IsPrefix(src, q)
    ensures Lookup(fs, q) == Lookup(fs0, q)
  {
    BelowSourceUnrelated(src, dest, q);
    assert Lookup(fs, q) == Copied(fs0, src, dest, q);
  }

  /** Entries with no counterpart in the source keep their node. */
  lemma CopyKeepsOthers(fs0: map<Path, Node>, fs: map<Path, Node>, src: Path, dest: Path, p: Path)
    requires IsCopy(fs0, fs, src, dest) && p in fs0
    requires !(IsPrefix(dest, p) && src + p[|dest|..] in fs0)
    ensures Lookup(fs, p) == Some(fs0[p])
  {
    assert Lookup(fs, p) == Copied(fs0, src, dest, p);
  }

  /** The outcome of a copy does not depend on the order entries are visited in. */
  lemma CopyDeterministic(fs0: map<Path, Node>, a: map<Path, Node>, b: map<Path, Node>, src: Path, dest: Path)
    requires IsCopy(fs0, a, src, dest) && IsCopy(fs0, b, src, dest)
    ensures a == b
  {
    forall p ensures (p in a <==> p in b) && (p in a ==> a[p] == b[p]) {
      assert Lookup(a, p) == Copied(fs0, src, dest, p) == Lookup(b, p);
    }
    assert a.Keys == b.Keys;
  }

  /** Nothing lies below a file. */
  lemma NothingBelowFile(fs: map<Path, Node>, f: Path, q: Path)
    requires WellFormed(fs) && f in fs && fs[f].File? && IsPrefix(f, q) && |q| > |f|
    ensures q !in fs
  {
    if q in fs {
      AncestorOfEntry(fs, q, f);
      assert false;
    }
  }

  /** The loop's state after the child `c` of `src`, a file, was copied. */
  lemma FileCopiedStep(fs0: map<Path, Node>, fs: map<Path, Node>, fs': map<Path, Node>,
                       src: Path, dest: Path, done: set<string>, c: string)
    requires WellFormed(fs0)
    requires src + [c] in fs0 && fs0[src + [c]].File?
    requires forall p :: Lookup(fs, p) == PartlyCopied(fs0, src, dest, done, p)
    requires Lookup(fs', dest + [c]) == Some(fs0[src + [c]])
    requires forall p :: p != dest + [c] ==> Lookup(fs', p) == Lookup(fs, p)
    ensures forall p :: Lookup(fs', p) == PartlyCopied(fs0, src, dest, done + {c}, p)
  {
    forall p ensures Lookup(fs', p) == PartlyCopied(fs0, src, dest, done + {c}, p) {
      if IsPrefix(dest, p) && |p| > |dest| && p[|dest|] == c {
        var r := p[|dest|..];
        ImageBelowDest(dest, r);
        ImageBelowDest(src, r);
        if |p| == |dest| + 1 {
          assert p == dest + [c];
        } else {
          assert |p| != |dest + [c]|;
          assert Lookup(fs', p) == Lookup(fs, p) == PartlyCopied(fs0, src, dest, done, p);
          PrefixWithNext(src, src + r);
          NothingBelowFile(fs0, src + [c], src + r);
        }
      } else {
        ImageBelowDest(dest, [c]);
        assert Lookup(fs', p) == Lookup(fs, p) == PartlyCopied(fs0, src, dest, done, p);
      }
    }
  }

  /** While the loop runs, only `dest`'s subtree and its new ancestors have changed. */
  lemma PartlyCopiedOnlyUnder(fs0: map<Path, Node>, fs: map<Path, Node>, src: Path, dest: Path, done: set<string>)
    requires forall p :: Lookup(fs, p) == PartlyCopied(fs0, src, dest, done, p)
    ensures OnlyUnder(fs0, fs, dest)
  {
    forall p | !IsPrefix(dest, p)
      ensures Lookup(fs, p) == Lookup(fs0, p) || (p !in fs0 && IsPrefix(p, dest) && Lookup(fs, p) == Some(Dir))
    {
      assert Lookup(fs, p) == PartlyCopied(fs0, src, dest, done, p);
    }
  }

  /** A change confined below `dest + [c]` is confined below `dest`. */
  lemma OnlyUnderChild(fs0: map<Path, Node>, fsB: map<Path, Node>, fsA: map<Path, Node>, dest: Path, c: string)
    requires OnlyUnder(fs0, fsB, dest) && OnlyUnder(fsB, fsA, dest + [c])
    ensures OnlyUnder(fs0, fsA, dest)
  {
    forall p | !IsPrefix(dest, p)
      ensures Lookup(fsA, p) == Lookup(fs0, p) || (p !in fs0 && IsPrefix(p, dest) && Lookup(fsA, p) == Some(Dir))
    {
      if IsPrefix(dest + [c], p) {
        PrefixTransitive(dest, dest + [c], p);
        assert false;
      }
      if p !in fsB && IsPrefix(p, dest + [c]) {
        PrefixOfExtension(p, dest, c);
      }
    }
  }

  /** The loop never touches the source tree. */
  lemma SourceUntouched(fs0: map<Path, Node>, fs: map<Path, Node>, src: Path, dest: Path, done: set<string>, q: Path)
    requires Disjoint(src, dest) && IsPrefix(src, q)
    requires forall p :: Lookup(fs, p) == PartlyCopied(fs0, src, dest, done, p)
    ensures Lookup(fs, q) == Lookup(fs0, q)
  {
    BelowSourceUnrelated(src, dest, q);
    assert Lookup(fs, q) == PartlyCopied(fs0, src, dest, done, q);
  }

  /** `readdir(src)` after creating `dest` lists the children `src` had before. */
  lemma ChildrenAfterMkdir(fs0: map<Path, Node>, fs: map<Path, Node>, src: Path, dest: Path)
    requires Disjoint(src, dest)
    requires forall p :: Lookup(fs, p) == PartlyCopied(fs0, src, dest, {}, p)
    ensures forall c :: c in Children(fs, src) <==> src + [c] in fs0
  {
    forall c ensures c in Children(fs, src) <==> src + [c] in fs0 {
      var p := src + [c];
      ImageBelowDest(src, [c]);
      SourceUntouched(fs0, fs, src, dest, {}, p);
      if c in Children(fs, src) {
        var p' :| p' in fs && |p'| == |src| + 1 && p'[..|src|] == src && p'[|src|] == c;
        assert p' == p;
      }
      if p in fs0 {
        assert p in fs && |p| == |src| + 1 && p[..|src|] == src && p[|src|] == c;
      }
    }
  }

  /** `dest` is a directory throughout the loop. */
  lemma DestReady(fs0: map<Path, Node>, fs: map<Path, Node>, src: Path, dest: Path, done: set<string>)
    requires MkdirAllowed(fs0, dest)
    requires forall p :: Lookup(fs, p) == PartlyCopied(fs0, src, dest, done, p)
    ensures IsDir(fs, dest)
  {
    assert Lookup(fs, dest) == PartlyCopied(fs0, src, dest, done, dest);
    assert dest[..|dest|] == dest;
  }

  /** A file of `src` never meets a directory of `dest` when the copy is allowed. */
  lemma FileOverDirRefused(fs0: map<Path, Node>, fs: map<Path, Node>, src: Path, dest: Path, done: set<string>, c: string)
    requires CopyAllowed(fs0, src, dest) && c !in done
    requires src + [c] in fs0 && fs0[src + [c]].File?
    requires forall p :: Lookup(fs, p) == PartlyCopied(fs0, src, dest, done, p)
    ensures !IsDir(fs, dest + [c])
  {
    var q := src + [c];
    ImageBelowDest(src, [c]);
    ImageBelowDest(dest, [c]);
    assert Lookup(fs, dest + [c]) == PartlyCopied(fs0, src, dest, done, dest + [c]);
    if dest + [c] !in fs0 {
      assert !IsPrefix(dest + [c], dest);
    }
  }

  /** The subtree the recursive call copies is smaller than the caller's. */
  lemma ChildSubtreeSmaller(fs0: map<Path, Node>, fs: map<Path, Node>, src: Path, dest: Path, done: set<string>, c: string)
    requires Disjoint(src, dest) && src in fs0
    requires forall p :: Lookup(fs, p) == PartlyCopied(fs0, src, dest, done, p)
    ensures |Subtree(fs, src + [c])| < |Subtree(fs0, src)|
  {
    forall q | q in Subtree(fs, src + [c]) ensures q in Subtree(fs0, src) - {src} {
      PrefixTransitive(src, src + [c], q);
      SourceUntouched(fs0, fs, src, dest, done, q);
    }
    assert src + [] == src;
    SubsetSmaller(Subtree(fs, src + [c]), Subtree(fs0, src), src);
  }

  /** The loop's state after the child `c` of `src`, a directory, was copied recursively. */
  lemma DirCopiedStep(fs0: map<Path, Node>, fsB: map<Path, Node>, fsA: map<Path, Node>,
                      src: Path, dest: Path, done: set<string>, c: string)
    requires Disjoint(src, dest) && c !in done && src + [c] in fs0
    requires forall p :: Lookup(fsB, p) == PartlyCopied(fs0, src, dest, done, p)
    requires IsCopy(fsB, fsA, src + [c], dest + [c])
    ensures forall p :: Lookup(fsA, p) == PartlyCopied(fs0, src, dest, done + {c}, p)
  {
    forall p ensures Lookup(fsA, p) == PartlyCopied(fs0, src, dest, done + {c}, p) {
      DirCopiedAt(fs0, fsB, fsA, src, dest, done, c, p);
    }
  }

  lemma DirCopiedAt(fs0: map<Path, Node>, fsB: map<Path, Node>, fsA: map<Path, Node>,
                    src: Path, dest: Path, done: set<string>, c: string, p: Path)
    requires Disjoint(src, dest) && c !in done && src + [c] in fs0
    requires forall p :: Lookup(fsB, p) == PartlyCopied(fs0, src, dest, done, p)
    requires IsCopy(fsB, fsA, src + [c], dest + [c])
    ensures Lookup(fsA, p) == PartlyCopied(fs0, src, dest, done + {c}, p)
  {
    var src', dest' := src + [c], dest + [c];
    assert Lookup(fsA, p) == Copied(fsB, src', dest', p);
    if IsPrefix(dest', p) {
      var r := p[|dest'|..];
      assert p == dest' + r;
      ShiftedBelowChild(dest, dest, c, p);
      ImageBelowDest(dest, p[|dest|..]);
      var q := src' + r;
      ShiftedBelowChild(src, src, c, q);
      ImageBelowDest(src', r);
      ImageBelowDest(src, q[|src|..]);
      assert q == src + p[|dest|..];
      BelowSourceUnrelated(src, dest, q);
      assert Lookup(fsB, q) == PartlyCopied(fs0, src, dest, done, q);
      if q !in fs0 {
        assert Lookup(fsB, p) == PartlyCopied(fs0, src, dest, done, p);
        if p == dest' {
          ImageBelowDest(src, [c]);
        }
      }
    } else {
      assert Lookup(fsB, p) == PartlyCopied(fs0, src, dest, done, p);
      if IsPrefix(dest, p) && |p| > |dest| && p[|dest|] == c {
        PrefixWithNext(dest, p);
        assert false;
      }
      if p !in fsB && IsPrefix(p, dest') {
        PrefixOfExtension(p, dest, c);
      }
    }
  }

  /** `dest + [c]` can be created once `dest` was. */
  lemma ChildMkdirAllowed(fs0: map<Path, Node>, fsB: map<Path, Node>, src: Path, dest: Path, done: set<string>, c: string)
    requires c !in done
    requires CopyAllowed(fs0, src, dest) && IsDir(fs0, src + [c])
    requires forall p :: Lookup(fsB, p) == PartlyCopied(fs0, src, dest, done, p)
    ensures MkdirAllowed(fsB, dest + [c])
  {
    var dest' := dest + [c];
    forall i | 0 <= i <= |dest'| ensures !(dest'[..i] in fsB && fsB[dest'[..i]].File?) {
      var p := dest'[..i];
      assert Lookup(fsB, p) == PartlyCopied(fs0, src, dest, done, p);
      if i <= |dest| {
        assert p == dest[..i];
      } else {
        assert p == dest';
        ImageBelowDest(dest, [c]);
        ImageBelowDest(src, [c]);
      }
    }
  }

  /** No entry below `src + [c]` meets an entry of the other kind below `dest + [c]`. */
  lemma ChildNoConflict(fs0: map<Path, Node>, fsB: map<Path, Node>, src: Path, dest: Path, done: set<string>, c: string, q: Path)
    requires Disjoint(src, dest) && c !in done
    requires CopyAllowed(fs0, src, dest)
    requires forall p :: Lookup(fsB, p) == PartlyCopied(fs0, src, dest, done, p)
    requires q in fsB && IsPrefix(src + [c], q) && (dest + [c]) + q[|src| + 1..] in fsB
    ensures fsB[(dest + [c]) + q[|src| + 1..]] == Dir <==> fsB[q] == Dir
  {
    ShiftedBelowChild(src, dest, c, q);
    BelowSourceUnrelated(src, dest, q);
    assert Lookup(fsB, q) == PartlyCopied(fs0, src, dest, done, q);
    var p := dest + q[|src|..];
    ImageBelowDest(dest, q[|src|..]);
    assert Lookup(fsB, p) == PartlyCopied(fs0, src, dest, done, p);
  }

  /** What a recursive call may rely on, given what its caller may. */
  lemma ChildCopyAllowed(fs0: map<Path, Node>, fsB: map<Path, Node>, src: Path, dest: Path, done: set<string>, c: string)
    requires Disjoint(src, dest) && c !in done
    requires CopyAllowed(fs0, src, dest) && IsDir(fs0, src + [c])
    requires forall p :: Lookup(fsB, p) == PartlyCopied(fs0, src, dest, done, p)
    ensures CopyAllowed(fsB, src + [c], dest + [c])
  {
    BelowSourceUnrelated(src, dest, src + [c]);
    assert Lookup(fsB, src + [c]) == PartlyCopied(fs0, src, dest, done, src + [c]);
    ChildMkdirAllowed(fs0, fsB, src, dest, done, c);
    forall q | q in fsB && IsPrefix(src + [c], q) && (dest + [c]) + q[|src + [c]|..] in fsB
      ensures fsB[(dest + [c]) + q[|src + [c]|..]] == Dir <==> fsB[q] == Dir
    {
      ChildNoConflict(fs0, fsB, src, dest, done, c, q);
    }
  }

  /**
   * The entry `c` of `src` can be copied: no entry at or below `src + [c]`
   * has an existing entry of the other kind at its image below `dest`.
   */
  predicate EntryAllowed(fs: map<Path, Node>, src: Path, dest: Path, c: string) {
    forall q :: q in fs && IsPrefix(src + [c], q) && dest + q[|src|..] in fs ==>
      (fs[dest + q[|src|..]] == Dir <==> fs[q] == Dir)
  }

  /** A file entry whose image is not a directory could be copied. */
  lemma FileEntryAllowed(fs0: map<Path, Node>, fs: map<Path, Node>, src: Path, dest: Path, done: set<string>, c: string)
    requires WellFormed(fs0) && c !in done
    requires src + [c] in fs0 && fs0[src + [c]].File?
    requires forall p :: Lookup(fs, p) == PartlyCopied(fs0, src, dest, done, p)
    requires !IsDir(fs, dest + [c])
    ensures EntryAllowed(fs0, src, dest, c)
  {
    forall q | q in fs0 && IsPrefix(src + [c], q) && dest + q[|src|..] in fs0
      ensures fs0[dest + q[|src|..]] == Dir <==> fs0[q] == Dir
    {
      if |q| > |src| + 1 {
        NothingBelowFile(fs0, src + [c], q);
        assert false;
      }
      assert q == src + [c];
      ImageBelowDest(src, [c]);
      ImageBelowDest(dest, [c]);
      assert Lookup(fs, dest + [c]) == PartlyCopied(fs0, src, dest, done, dest + [c]);
    }
  }

  /** A directory entry whose recursive copy was allowed could be copied. */
  lemma DirEntryAllowed(fs0: map<Path, Node>, fsB: map<Path, Node>, src: Path, dest: Path, done: set<string>, c: string)
    requires Disjoint(src, dest) && c !in done
    requires forall p :: Lookup(fsB, p) == PartlyCopied(fs0, src, dest, done, p)
    requires CopyAllowed(fsB, src + [c], dest + [c])
    ensures EntryAllowed(fs0, src, dest, c)
  {
    forall q | q in fs0 && IsPrefix(src + [c], q) && dest + q[|src|..] in fs0
      ensures fs0[dest + q[|src|..]] == Dir <==> fs0[q] == Dir
    {
      ShiftedBelowChild(src, dest, c, q);
      SourceUntouched(fs0, fsB, src, dest, done, q);
      var p := dest + q[|src|..];
      ImageBelowDest(dest, q[|src|..]);
      assert Lookup(fsB, p) == PartlyCopied(fs0, src, dest, done, p);
      assert |src + [c]| == |src| + 1;
    }
  }

  /** When every entry of `src` could be copied, so could `src`. */
  lemma AllowedFromEntries(fs0: map<Path, Node>, src: Path, dest: Path, done: set<string>)
    requires WellFormed(fs0) && IsDir(fs0, src) && MkdirAllowed(fs0, dest)
    requires forall c :: src + [c] in fs0 ==> c in done
    requires forall c :: c in done ==> EntryAllowed(fs0, src, dest, c)
    ensures CopyAllowed(fs0, src, dest)
  {
    forall q | q in fs0 && IsPrefix(src, q) && dest + q[|src|..] in fs0
      ensures fs0[dest + q[|src|..]] == Dir <==> fs0[q] == Dir
    {
      if |q| == |src| {
        assert q == src && q[|src|..] == [] && dest + [] == dest;
        assert dest[..|dest|] == dest;
      } else {
        var c := q[|src|];
        PrefixWithNext(src, q);
        if |q| > |src| + 1 {
          AncestorOfEntry(fs0, q, src + [c]);
        } else {
          assert q == src + [c];
        }
        assert EntryAllowed(fs0, src, dest, c);
      }
    }
  }

  /** Once every child is done, the partial copy is the whole copy. */
  lemma AllChildrenCopied(fs0: map<Path, Node>, fs: map<Path, Node>, src: Path, dest: Path, done: set<string>)
    requires WellFormed(fs0) && IsDir(fs0, src) && MkdirAllowed(fs0, dest)
    requires forall c :: src + [c] in fs0 ==> c in done
    requires forall p :: Lookup(fs, p) == PartlyCopied(fs0, src, dest, done, p)
    ensures IsCopy(fs0, fs, src, dest)
  {
    forall p ensures Lookup(fs, p) == Copied(fs0, src, dest, p) {
      AllChildrenCopiedAt(fs0, fs, src, dest, done, p);
    }
  }

  lemma AllChildrenCopiedAt(fs0: map<Path, Node>, fs: map<Path, Node>, src: Path, dest: Path, done: set<string>, p: Path)
    requires WellFormed(fs0) && IsDir(fs0, src) && MkdirAllowed(fs0, dest)
    requires forall c :: src + [c] in fs0 ==> c in done
    requires Lookup(fs, p) == PartlyCopied(fs0, src, dest, done, p)
    ensures Lookup(fs, p) == Copied(fs0, src, dest, p)
  {
    if IsPrefix(dest, p) && src + p[|dest|..] in fs0 {
      var r := p[|dest|..];
      var q := src + r;
      if |p| == |dest| {
        assert p == dest[..|dest|];
        assert q == src;
      } else {
        ImageBelowDest(src, r);
        var c := p[|dest|];
        assert q[|src|] == c;
        if |q| > |src| + 1 {
          PrefixWithNext(src, q);
          AncestorOfEntry(fs0, q, src + [c]);
        } else {
          assert q == src + [c];
        }
        assert c in done;
      }
    }
  }

  class FileManager {
    /** The filesystem the action runs on. */
    var fs: map<Path, Node>

    ghost predicate Valid()
      reads this
    {
      WellFormed(fs)
    }

    constructor (disk: map<Path, Node>)
      requires WellFormed(disk)
      ensures Valid() && fs == disk
    {
      fs := disk;
    }

    /** `pathExists`: whether anything, file or directory, is at `p`. */
    function PathExists(p: Path): (b: bool)
      reads this
      ensures b <==> Lookup(fs, p).Some?
      ensures b && Valid() ==> forall i :: 0 <= i < |p| ==> IsDir(fs, p[..i])
    {
      if p in fs then AncestorsOfEntry(fs, p); true else false
    }

    /**
     * `writeVariableToFile`: writes `var <name> = <data>;` to `path`,
     * replacing what was there; a rejected write changes nothing.
     */
    method WriteVariableToFile(path: Path, name: string, data: string) returns (r: Result<(), Error>)
      requires Valid()
      modifies this
      ensures Valid()
      ensures var w := WriteFile(old(fs), path, VarAssignment(name, data));
        && (w.Success? ==> r.Success? && fs == w.value)
        && (w.Failure? ==> r == Failure(Fs(w.error)) && fs == old(fs))
    {
      var w := WriteFile(fs, path, VarAssignment(name, data));
      if w.Success? {
        fs := w.value;
        r := Success(());
      } else {
        r := Failure(Fs(w.error));
      }
    }

    /**
     * `copyFolderRecursive(src, dest)`: creates `dest` (and its missing
     * ancestors), then copies each entry `readdir(src)` lists, recursing into
     * directories. The first rejected call ends the copy with its error.
     */
    method CopyFolderRecursive(src: Path, dest: Path) returns (r: Result<(), Error>)
      requires Valid() && Disjoint(src, dest)
      modifies this
      decreases |Subtree(fs, src)|, 1
      ensures Valid()
      ensures OnlyUnder(old(fs), fs, dest)
      ensures r.Success? ==> IsCopy(old(fs), fs, src, dest)
      ensures r.Success? <==> CopyAllowed(old(fs), src, dest)
      ensures !MkdirAllowed(old(fs), dest) ==> r.Failure? && fs == old(fs)
      ensures MkdirAllowed(old(fs), dest) && !IsDir(old(fs), src) ==>
        && r == Failure(Fs(if src in old(fs) then NotDirectory else NoEntry))
        && IsDir(fs, dest)
        && forall p :: Lookup(fs, p) == MkdirLookup(old(fs), dest, p)
    {
      ghost var fs0 := fs;
      if !MkdirAllowed(fs, dest) {
        return Failure(Fs(MkdirError(fs, dest)));
      }
      MkdirpWellFormed(fs, dest);
      fs := Mkdirp(fs, dest);
      SourceUntouched(fs0, fs, src, dest, {}, src);
      DestReady(fs0, fs, src, dest, {});
      if src !in fs {
        return Failure(Fs(NoEntry));
      }
      if fs[src] != Dir {
        return Failure(Fs(NotDirectory));
      }
      var entries := Children(fs, src);
      ChildrenAfterMkdir(fs0, fs, src, dest);
      ghost var all := entries;
      var done: set<string> := {};
      while entries != {}
        invariant Valid()
        invariant entries <= all
        invariant forall x :: x in done <==> x in all && x !in entries
        invariant forall p :: Lookup(fs, p) == PartlyCopied(fs0, src, dest, done, p)
        invariant forall x :: x in done ==> EntryAllowed(fs0, src, dest, x)
        decreases |entries|
      {
        var c :| c in entries;
        entries := entries - {c};
        r := CopyEntry(fs0, src, dest, done, c);
        if r.Failure? {
          return;
        }
        done := done + {c};
      }
      AllChildrenCopied(fs0, fs, src, dest, done);
      AllowedFromEntries(fs0, src, dest, done);
      PartlyCopiedOnlyUnder(fs0, fs, src, dest, done);
      r := Success(());
    }

    /**
     * One turn of the loop in `copyFolderRecursive`: the entry `c` of `src`
     * is copied to `dest + [c]`, by the recursive call for a directory and
     * by `copyFile` for a file. `fs0` is the tree the whole copy started
     * from and `done` the entries already copied.
     */
    method CopyEntry(ghost fs0: map<Path, Node>, src: Path, dest: Path, ghost done: set<string>, c: string)
      returns (r: Result<(), Error>)
      requires Valid() && WellFormed(fs0) && Disjoint(src, dest) && MkdirAllowed(fs0, dest)
      requires IsDir(fs0, src) && src + [c] in fs0 && c !in done
      requires forall p :: Lookup(fs, p) == PartlyCopied(fs0, src, dest, done, p)
      modifies this
      decreases |Subtree(fs0, src)|, 0
      ensures Valid()
      ensures r.Success? ==> forall p :: Lookup(fs, p) == PartlyCopied(fs0, src, dest, done + {c}, p)
      ensures r.Success? ==> EntryAllowed(fs0, src, dest, c)
      ensures r.Failure? ==> OnlyUnder(fs0, fs, dest) && !CopyAllowed(fs0, src, dest)
    {
      var srcPath, destPath := src + [c], dest + [c];
      ImageBelowDest(src, [c]);
      SourceUntouched(fs0, fs, src, dest, done, srcPath);
      PartlyCopiedOnlyUnder(fs0, fs, src, dest, done);
      if fs[srcPath] == Dir {
        ChildrenDisjoint(src, dest, c);
        ghost var fsB := fs;
        if CopyAllowed(fs0, src, dest) {
          ChildCopyAllowed(fs0, fsB, src, dest, done, c);
        }
        ChildSubtreeSmaller(fs0, fsB, src, dest, done, c);
        r := CopyFolderRecursive(srcPath, destPath);
        OnlyUnderChild(fs0, fsB, fs, dest, c);
        if r.Success? {
          DirCopiedStep(fs0, fsB, fs, src, dest, done, c);
          DirEntryAllowed(fs0, fsB, src, dest, done, c);
        }
      } else {
        DestReady(fs0, fs, src, dest, done);
        assert destPath[..|destPath| - 1] == dest;
        var w := WriteFile(fs, destPath, fs[srcPath].content);
        if w.Failure? {
          if CopyAllowed(fs0, src, dest) {
            FileOverDirRefused(fs0, fs, src, dest, done, c);
          }
          return Failure(Fs(w.error));
        }
        FileCopiedStep(fs0, fs, w.value, src, dest, done, c);
        FileEntryAllowed(fs0, fs, src, dest, done, c);
        fs := w.value;
        r := Success(());
      }
    }
  }
}
