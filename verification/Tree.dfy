/** fs.c: searching a path down the directory tree and finding the path of the current directory up the tree. */
module Trees {
  import opened Outcomes
  import opened Directories
  import opened Paths

  const REGULAR := 1
  const DIRECTORY := 2
  const MAX_PATH := 512

  /** The slots of every directory, by inode number; the root is number 0. */
  type Tree = map<nat, seq<Entry>>

  function Parent(t: Tree, d: nat): nat
    requires d in t && |t[d]| >= 2
  {
    t[d][1].no
  }

  /** A slot beyond the dots: free and zero, or a named file or directory; a directory's own ".." leads back. */
  predicate SlotFine(t: Tree, d: nat, e: Entry) {
    || e == EMPTY
    || (&& IsName(e.name) && |e.name| < 16 && !Dots(e) && e.no != 0
        && (e.ftype == REGULAR || e.ftype == DIRECTORY)
        && (e.ftype == REGULAR ==> e.no !in t)
        && (e.ftype == DIRECTORY ==> e.no in t && |t[e.no]| >= 2 && Parent(t, e.no) == d))
  }

  /** Slots with the same name are the same entry. */
  predicate NamesAgree(f: seq<Entry>) {
    forall i, j :: 0 <= i < |f| && 0 <= j < |f| && f[i].name == f[j].name ==> f[i] == f[j]
  }

  predicate DirFine(t: Tree, d: nat)
    requires d in t
  {
    var f := t[d];
    && |f| >= 2 && d < 4096
    && f[0].name == "." && f[0].no == d && f[0].ftype == DIRECTORY
    && f[1].name == ".." && f[1].no in t && f[1].ftype == DIRECTORY
    && (forall i :: 2 <= i < |f| ==> SlotFine(t, d, f[i])) && NamesAgree(f)
  }

  /** The parent of a directory lists it. */
  predicate ListedBy(f: seq<Entry>, d: nat) { exists i :: 2 <= i < |f| && f[i].no == d }

  /** A well-formed tree: every directory is listed in its parent, one level up; the root is its own parent. */
  predicate WellFormed(t: Tree, level: map<nat, nat>) {
    && 0 in t && t.Keys == level.Keys && level[0] == 0
    && (forall d :: d in t ==> DirFine(t, d))
    && Parent(t, 0) == 0
    && forall d :: d in t && d != 0 ==> var p := Parent(t, d); level[d] == level[p] + 1 && ListedBy(t[p], d)
  }

  // ---------------------------------------------------------------- reference definitions

  /** First slot with the number, as the upward search looks for it. */
  function SlotOf(f: seq<Entry>, no: nat): (i: nat)
    ensures i <= |f| && (i < |f| ==> f[i].no == no) && forall k :: 0 <= k < i ==> f[k].no != no
  {
    if f == [] then 0 else if f[0].no == no then 0 else 1 + SlotOf(f[1..], no)
  }

  /** First slot with the name, as `search_dir_entry` looks for it. */
  function SlotNamed(f: seq<Entry>, name: string): (i: nat)
    ensures i <= |f| && (i < |f| ==> f[i].name == name) && forall k :: 0 <= k < i ==> f[k].name != name
  {
    if f == [] then 0 else if f[0].name == name then 0 else 1 + SlotNamed(f[1..], name)
  }

  /** What is found in going down from directory `d`: a regular file ends the search early. */
  function SearchFrom(t: Tree, d: nat, cs: seq<string>): Outcome<nat>
    decreases |cs|
  {
    if cs == [] then Ok(d)
    else if d !in t then Halt
    else
      var i := SlotNamed(t[d], cs[0]);
      if i == |t[d]| then Null
      else if t[d][i].ftype == DIRECTORY then SearchFrom(t, t[d][i].no, cs[1..])
      else Ok(t[d][i].no)
  }

  /** Where a search ends: with the entry and the directory that has it, or in the directory in which the first of the
      last `left` components was not found. */
  datatype Search = Found(dir: nat, no: nat, ftype: nat) | Missing(dir: nat, left: nat)

  function Find(t: Tree, d: nat, cs: seq<string>): (r: Search)
    requires cs != []
    ensures r.Missing? ==> 0 < r.left <= |cs|
    decreases |cs|
  {
    if d !in t then Missing(d, |cs|)
    else
      var i := SlotNamed(t[d], cs[0]);
      if i == |t[d]| then Missing(d, |cs|)
      else if t[d][i].ftype != DIRECTORY || |cs| == 1 then Found(d, t[d][i].no, t[d][i].ftype)
      else Find(t, t[d][i].no, cs[1..])
  }

  /** The name under which the parent of `d` lists it. */
  function NameIn(f: seq<Entry>, d: nat): string {
    var i := SlotOf(f, d);
    if i < |f| then f[i].name else ""
  }

  /** The names of `d` and the directories above it, `n` in all, topmost first. */
  function PathOf(t: Tree, n: nat, d: nat): seq<string> {
    if n == 0 || d !in t || |t[d]| < 2 || Parent(t, d) !in t then []
    else PathOf(t, n - 1, Parent(t, d)) + [NameIn(t[Parent(t, d)], d)]
  }

  predicate GoodName(c: string) { IsName(c) && |c| < 16 && c != "." && c != ".." }

  /** What one level up looks like. */
  predicate Step(t: Tree, level: map<nat, nat>, d: nat, p: nat) {
    && d in t && d in level && |t[d]| >= 2 && Parent(t, d) == p && p in t && p in level
    && level[d] == level[p] + 1 && DirFine(t, p) && t[d][1].ftype == DIRECTORY
    && var i := SlotOf(t[p], d); i < |t[p]| && t[p][i].ftype == DIRECTORY && GoodName(t[p][i].name)
  }

  /** In the parent, the first slot with the number of a directory is a proper entry for it. */
  lemma StepUp(t: Tree, level: map<nat, nat>, d: nat)
    requires WellFormed(t, level) && d in t && d != 0
    ensures d in level && |t[d]| >= 2 && Step(t, level, d, Parent(t, d))
  {
    hide WellFormed;
    LevelUp(t, level, d);
    var p := Parent(t, d);
    RootLevel(t, level, d);
    RootLevel(t, level, p);
    var f := t[p];
    var i := SlotOf(f, d);
    assert i < |f| by { var k :| 2 <= k < |f| && f[k].no == d; }
    assert 2 <= i;
    assert SlotFine(t, p, f[i]);
  }

  lemma LevelUp(t: Tree, level: map<nat, nat>, d: nat)
    requires WellFormed(t, level) && d in t && d != 0
    ensures |t[d]| >= 2 && Parent(t, d) in t && Parent(t, d) != d && |t[Parent(t, d)]| >= 2
    ensures Parent(t, Parent(t, d)) != d
    ensures level[d] == level[Parent(t, d)] + 1 && ListedBy(t[Parent(t, d)], d)
  {
    assert DirFine(t, d);
    var p := Parent(t, d);
    assert DirFine(t, p);
    assert p != 0 ==> level[p] == level[Parent(t, p)] + 1;
  }

  lemma {:induction false} PathIsNames(t: Tree, level: map<nat, nat>, d: nat)
    requires WellFormed(t, level) && d in t
    ensures d in level && |PathOf(t, level[d], d)| == level[d] && (level[d] == 0 <==> d == 0)
    ensures forall k :: 0 <= k < level[d] ==> GoodName(PathOf(t, level[d], d)[k])
    decreases if d in level then level[d] else 0
  {
    hide WellFormed;
    RootLevel(t, level, d);
    if d != 0 {
      StepUp(t, level, d);
      PathIsNames(t, level, Parent(t, d));
    }
  }

  lemma RootLevel(t: Tree, level: map<nat, nat>, d: nat)
    requires WellFormed(t, level) && d in t
    ensures d in level && DirFine(t, d) && (d == 0 ==> level[d] == 0)
  {
  }

  // ---------------------------------------------------------------- down again

  lemma {:induction false} SearchThrough(t: Tree, d: nat, a: seq<string>, e: nat, c: string)
    requires SearchFrom(t, d, a) == Ok(e) && DirsOnly(t, d, a)
    ensures SearchFrom(t, d, a + [c]) == SearchFrom(t, e, [c])
    decreases |a|
  {
    if a == [] {
      assert a + [c] == [c];
    } else {
      SearchThrough(t, t[d][SlotNamed(t[d], a[0])].no, a[1..], e, c);
      assert (a + [c])[1..] == a[1..] + [c];
    }
  }

  /** Every component on the way is a directory. */
  predicate DirsOnly(t: Tree, d: nat, cs: seq<string>)
    decreases |cs|
  {
    cs == [] || (d in t && var i := SlotNamed(t[d], cs[0]);
      i < |t[d]| && t[d][i].ftype == DIRECTORY && DirsOnly(t, t[d][i].no, cs[1..]))
  }

  lemma {:induction false} DirsOnlyMore(t: Tree, d: nat, a: seq<string>, e: nat, c: string)
    requires SearchFrom(t, d, a) == Ok(e) && DirsOnly(t, d, a) && DirsOnly(t, e, [c])
    ensures DirsOnly(t, d, a + [c])
    decreases |a|
  {
    if a == [] {
      assert a + [c] == [c];
    } else {
      DirsOnlyMore(t, t[d][SlotNamed(t[d], a[0])].no, a[1..], e, c);
      assert (a + [c])[1..] == a[1..] + [c];
    }
  }

  lemma OneDown(t: Tree, level: map<nat, nat>, d: nat, p: nat)
    requires Step(t, level, d, p)
    ensures SearchFrom(t, p, [NameIn(t[p], d)]) == Ok(d) && DirsOnly(t, p, [NameIn(t[p], d)])
  {
    var f := t[p];
    var i := SlotOf(f, d);
    var c := f[i].name;
    var j := SlotNamed(f, c);
    assert j <= i && f[j] == f[i];
    assert [c][1..] == [];
  }

  /** Searching for the path of a directory finds the directory. */
  lemma {:induction false} SearchFindsPath(t: Tree, level: map<nat, nat>, d: nat)
    requires WellFormed(t, level) && d in t
    ensures d in level && SearchFrom(t, 0, PathOf(t, level[d], d)) == Ok(d) && DirsOnly(t, 0, PathOf(t, level[d], d))
    decreases if d in level then level[d] else 0
  {
    hide WellFormed, SearchFrom, DirsOnly, NameIn;
    RootLevel(t, level, d);
    if d == 0 {
      SearchHere(t, 0);
    } else {
      StepUp(t, level, d);
      var p := Parent(t, d);
      SearchFindsPath(t, level, p);
      OneDown(t, level, d, p);
      SearchThrough(t, 0, PathOf(t, level[p], p), p, NameIn(t[p], d));
      DirsOnlyMore(t, 0, PathOf(t, level[p], p), p, NameIn(t[p], d));
    }
  }

  lemma SearchHere(t: Tree, d: nat)
    ensures SearchFrom(t, d, []) == Ok(d) && DirsOnly(t, d, [])
  {
  }

  // ---------------------------------------------------------------- the two searches

  /** `get_parent_dir_inode_nr`. */
  method GetParent(t: Tree, d: nat) returns (ok: bool, p: nat)
    requires d in t && |t[d]| >= 2
    ensures p == Parent(t, d) && (ok <==> p < 4096 && t[d][1].ftype == DIRECTORY)
  {
    p := t[d][1].no;
    ok := p < 4096 && t[d][1].ftype == DIRECTORY;
  }

  /** `strcat` and `strcpy` at the end of the string in a buffer of `size` bytes: the new string, and whether all that
      is written, with the terminating zero, lies inside the buffer. */
  method Append(s: string, src: string, size: nat) returns (inside: bool, out: string)
    ensures out == s + src && (inside <==> |out| + 1 <= size)
  {
    inside, out := |s| < size, s;
    for i := 0 to |src|
      invariant out == s + src[..i] && (inside <==> |out| < size)
    {
      // the byte at |out| becomes a character, and the one after it will be the next or the zero
      inside := inside && |out| + 1 < size;
      out := out + [src[i]];
    }
  }

  /** `get_child_dir_name`: the name of the first slot with the number, after a slash. */
  method GetChildName(f: seq<Entry>, c: nat, path: string) returns (found: bool, inside: bool, out: string)
    ensures found <==> SlotOf(f, c) < |f|
    ensures out == if found then path + "/" + NameIn(f, c) else path
    ensures found ==> (inside <==> |out| < MAX_PATH)
  {
    var i := 0;
    while i < |f|
      invariant i <= |f| && forall k :: 0 <= k < i ==> f[k].no != c
    {
      if f[i].no == c {
        assert SlotOf(f, c) == i;
        inside, out := Append(path, "/", MAX_PATH);
        var rest;
        rest, out := Append(out, f[i].name, MAX_PATH);
        return true, inside && rest, out;
      }
      i := i + 1;
    }
    return false, true, path;
  }

  function Reverse(cs: seq<string>): (r: seq<string>)
    ensures |r| == |cs|
  {
    if cs == [] then [] else Reverse(cs[1..]) + [cs[0]]
  }

  lemma ReverseCons(c: string, cs: seq<string>)
    ensures Reverse([c] + cs) == Reverse(cs) + [c]
  {
    assert ([c] + cs)[1..] == cs;
  }

  /** The first stage of `sys_getcwd`: the names from the current directory up to the root, lowest first. */
  method ClimbUp(t: Tree, cwd: nat, ghost level: map<nat, nat>) returns (ok: bool, inside: bool, up: string)
    requires WellFormed(t, level) && cwd in t
    ensures cwd in level && ok && up == Joined(Reverse(PathOf(t, level[cwd], cwd)))
    ensures inside <==> |up| < MAX_PATH
  {
    hide WellFormed, PathOf, Joined, Reverse, DirFine, NameIn;
    var child := cwd;
    RootLevel(t, level, cwd);
    ghost var below: seq<string> := [];
    ghost var all := PathOf(t, level[cwd], cwd);
    EmptyJoin();
    up, inside := "", true;
    assert all + [] == all;
    while child != 0
      invariant child in t && child in level && up == Joined(Reverse(below))
      invariant all == PathOf(t, level[child], child) + below && (inside <==> |up| < MAX_PATH)
      decreases level[child]
    {
      ClimbStep(t, level, child, below);
      var found, parent;
      found, parent := GetParent(t, child);
      if !found { return false, inside, up; }
      var fits;
      found, fits, up := GetChildName(t[parent], child, up);
      if !found { return false, inside, up; }
      inside := inside && fits;
      below := [NameIn(t[parent], child)] + below;
      child := parent;
    }
    RootPath(t, level);
    assert [] + below == below;
    return true, inside, up;
  }

  /** One level up: the parent is a directory of the tree, one level higher, that lists the child; the name goes in
      front of those below, and so at the end of the reversed path. */
  lemma ClimbStep(t: Tree, level: map<nat, nat>, d: nat, below: seq<string>)
    requires WellFormed(t, level) && d in t && d != 0 && d in level
    ensures |t[d]| >= 2 && Parent(t, d) in t && Parent(t, d) in level && level[Parent(t, d)] < level[d]
    ensures Parent(t, d) < 4096 && t[d][1].ftype == DIRECTORY && SlotOf(t[Parent(t, d)], d) < |t[Parent(t, d)]|
    ensures var p := Parent(t, d); var c := NameIn(t[p], d);
      && PathOf(t, level[d], d) + below == PathOf(t, level[p], p) + ([c] + below)
      && Joined(Reverse([c] + below)) == Joined(Reverse(below)) + "/" + c
  {
    hide WellFormed, PathOf, Joined, Reverse, DirFine, NameIn;
    StepUp(t, level, d);
    ParentNumber(t, level, d);
    PathUp(t, level[d], d);
    var p := Parent(t, d);
    var c := NameIn(t[p], d);
    ReverseCons(c, below);
    JoinedTail(Reverse(below), c);
    assert PathOf(t, level[p], p) + [c] + below == PathOf(t, level[p], p) + ([c] + below);
  }

  lemma ParentNumber(t: Tree, level: map<nat, nat>, d: nat)
    requires WellFormed(t, level) && d in t && d != 0
    ensures |t[d]| >= 2 && Parent(t, d) < 4096
  {
    hide WellFormed;
    LevelUp(t, level, d);
    RootLevel(t, level, Parent(t, d));
  }

  lemma EmptyJoin()
    ensures Joined(Reverse([])) == "" && Joined([]) == ""
  {
  }

  lemma PathUp(t: Tree, n: nat, d: nat)
    requires n > 0 && d in t && |t[d]| >= 2 && Parent(t, d) in t
    ensures PathOf(t, n, d) == PathOf(t, n - 1, Parent(t, d)) + [NameIn(t[Parent(t, d)], d)]
  {
  }

  lemma RootPath(t: Tree, level: map<nat, nat>)
    requires WellFormed(t, level)
    ensures 0 in level && PathOf(t, level[0], 0) == []
  {
  }

  /** The second stage: the parts after the last slash, one after the other, in the other order. */
  method TurnAround(up: string, size: nat, ghost names: seq<string>) returns (inside: bool, path: string)
    requires Names(names) && up == Joined(Reverse(names))
    ensures path == Joined(names) && (inside <==> path == "" || |path| < size)
  {
    hide Joined, Reverse;
    var rev := up;
    path, inside := "", true;
    ghost var k := 0;
    EmptyJoin();
    assert names[..0] == [] && names[0..] == names;
    while LastSlash(rev) != -1
      invariant 0 <= k <= |names| && path == Joined(names[..k]) && rev == Joined(Reverse(names[k..]))
      invariant inside <==> path == "" || |path| < size
      decreases |names| - k
    {
      var i := LastSlash(rev);
      NoneLeft(names, k);
      CutReverse(names, k);
      JoinedTail(names[..k], names[k]);
      assert names[..k] + [names[k]] == names[..k + 1];
      var fits;
      fits, path := Append(path, rev[i..], size);
      inside := inside && fits;
      rev := rev[..i];
      k := k + 1;
    }
    SlashLeft(names, k);
    assert names[..k] == names;
  }

  lemma NoneLeft(names: seq<string>, k: nat)
    requires k <= |names|
    ensures k == |names| ==> LastSlash(Joined(Reverse(names[k..]))) == -1
  {
  }

  /** The last part of the reversed path is the first name not yet copied. */
  lemma {:induction false} CutReverse(names: seq<string>, k: nat)
    requires Names(names) && k < |names|
    ensures var rev := Joined(Reverse(names[k..])); var i := LastSlash(rev);
      i >= 0 && rev[i..] == "/" + names[k] && rev[..i] == Joined(Reverse(names[k + 1..]))
  {
    hide Joined, LastSlash, Reverse;
    ReverseCons(names[k], names[k + 1..]);
    assert names[k..] == [names[k]] + names[k + 1..];
    var p := Joined(Reverse(names[k + 1..]));
    JoinedTail(Reverse(names[k + 1..]), names[k]);
    LastSlashOf(p, names[k]);
    CutAt(p, names[k]);
  }

  lemma CutAt(p: string, c: string)
    ensures (p + "/" + c)[|p|..] == "/" + c && (p + "/" + c)[..|p|] == p
  {
  }

  lemma {:induction false} SlashLeft(names: seq<string>, k: nat)
    requires Names(names) && k <= |names| && LastSlash(Joined(Reverse(names[k..]))) == -1
    ensures k == |names|
  {
    if k < |names| { CutReverse(names, k); }
  }

  /** `sys_getcwd` on a buffer of `size` bytes: it terminates with the path of the current directory, from the root
      down. The assertion on the buffer is the only way to stop; it lets through a path exactly as long as the buffer,
      whose terminating zero is then written behind it. `inside` says that every write stayed inside the buffer and
      inside the 512 bytes in which the climb collects the names. */
  method GetCwd(t: Tree, cwd: nat, size: nat, ghost level: map<nat, nat>) returns (inside: bool, r: Outcome<string>)
    requires WellFormed(t, level) && cwd in t && cwd in level
    ensures var n := |Render(PathOf(t, level[cwd], cwd))|;
      inside <==> if cwd == 0 then size > n else n < MAX_PATH && size != n
    ensures var path := Render(PathOf(t, level[cwd], cwd));
      |path| < MAX_PATH ==> r == if cwd != 0 && |path| > size then Halt else Ok(path)
  {
    hide WellFormed, PathOf, Joined, Reverse;
    if cwd == 0 {
      RootPath(t, level);
      return size > 1, Ok("/");
    }
    ghost var names := PathOf(t, level[cwd], cwd);
    PathIsNames(t, level, cwd);
    var ok, gathered, up := ClimbUp(t, cwd, level);
    if !ok { return false, Null; }
    ReverseLength(names);
    JoinedHead(names);
    if |up| > size { return gathered, Halt; }
    var copied, path := TurnAround(up, size, names);
    return gathered && copied, Ok(path);
  }

  lemma {:induction false} ReverseLength(cs: seq<string>)
    ensures |Joined(Reverse(cs))| == |Joined(cs)|
  {
    if cs != [] {
      ReverseLength(cs[1..]);
      JoinedTail(Reverse(cs[1..]), cs[0]);
      JoinedHead(cs);
    }
  }

  lemma {:induction false} JoinedHead(cs: seq<string>)
    requires cs != []
    ensures Joined(cs) == "/" + cs[0] + Joined(cs[1..])
  {
    var n := |cs| - 1;
    if n == 0 {
      assert cs[..0] == [] && cs[1..] == [];
    } else {
      JoinedHead(cs[..n]);
      assert cs[1..][..n - 1] == cs[..n][1..];
    }
  }

  // ---------------------------------------------------------------- search_file

  lemma {:induction false} JoinedCompsLength(p: string)
    ensures |Joined(Comps(p))| <= |p| + if p != "" && p[0] == '/' then 0 else 1
    decreases |p|
  {
    if p != "" {
      if p[0] == '/' {
        JoinedCompsLength(p[1..]);
      } else {
        var n := NameLen(p);
        JoinedCompsLength(p[n..]);
        JoinedHead(Comps(p));
        assert Comps(p)[1..] == Comps(p[n..]);
      }
    }
  }

  lemma {:induction false} JoinedPrefix(a: seq<string>, b: seq<string>)
    ensures |Joined(a)| <= |Joined(a + b)|
    decreases |b|
  {
    if b == [] {
      assert a + b == a;
    } else {
      var n := |b| - 1;
      JoinedPrefix(a, b[..n]);
      assert (a + b)[..|a + b| - 1] == a + b[..n];
    }
  }

  /** Looking a name up in a directory of the tree leads to a directory of the tree, or to a file. */
  lemma LookUp(t: Tree, level: map<nat, nat>, d: nat, name: string)
    requires WellFormed(t, level) && d in t && name != ""
    ensures var i := SlotNamed(t[d], name); i < |t[d]| ==>
      (t[d][i].ftype == DIRECTORY && t[d][i].no in t) || t[d][i].ftype == REGULAR
  {
    hide WellFormed;
    RootLevel(t, level, d);
    var i := SlotNamed(t[d], name);
    if 2 <= i < |t[d]| { assert SlotFine(t, d, t[d][i]); }
  }

  predicate RootPathName(path: string) { path == "/" || path == "/." || path == "/.." }

  predicate Acceptable(path: string) { 1 < |path| < MAX_PATH && path[0] == '/' }

  /** `struct path_search_record`: the parent is a number, and the type is 0 when nothing was found. */
  datatype Record = Record(parent: nat, ftype: nat, searched: string)

  /** What `search_file` leaves in the record for a search in the tree. */
  predicate Records(cs: seq<string>, found: Search, r: Outcome<nat>, rec: Record)
    requires found.Missing? ==> found.left <= |cs|
  {
    match found
    case Found(dir, no, ftype) => r == Ok(no) && rec.parent == dir && rec.ftype == ftype
    case Missing(dir, left) =>
      && r == Null && rec.parent == dir && rec.ftype == 0 && left > 0
      && rec.searched == Joined(cs[..|cs| - left + 1])
  }

  /** `search_file`. A path of slashes alone returns a variable that was never set: `unset` is what it holds. */
  method SearchFile(t: Tree, path: string, unset: nat, ghost level: map<nat, nat>)
      returns (r: Outcome<nat>, rec: Record)
    requires WellFormed(t, level) && Short(path)
    ensures RootPathName(path) ==> r == Ok(0) && rec.parent == 0 && rec.ftype == DIRECTORY
    ensures !RootPathName(path) && !Acceptable(path) ==> r == Halt
    ensures !RootPathName(path) && Acceptable(path) && Comps(path) == [] ==> r == Ok(unset)
    ensures !RootPathName(path) && Acceptable(path) && Comps(path) != [] ==>
      r == SearchFrom(t, 0, Comps(path)) && !r.Halt? && Records(Comps(path), Find(t, 0, Comps(path)), r, rec)
  {
    hide WellFormed, Comps, Parse, Joined, Short, SearchFrom, Find;
    if path == "/" || path == "/." || path == "/.." { return Ok(0), Record(0, DIRECTORY, ""); }
    rec := Record(0, 0, "");
    if !(1 < |path| < MAX_PATH && path[0] == '/') { return Halt, rec; }
    var name, sub := PathParse(path);
    ParseComps(path);
    ParseShrinks(path);
    if sub.Ok? { ParseShort(path); }
    var dir, above, last := 0, 0, unset;
    RootIn(t, level);
    ghost var cs := Comps(path);
    ghost var k := 0;
    EmptyJoin();
    JoinedCompsLength(path);
    assert cs[..0] == [] && cs[0..] == cs;
    while name != ""
      invariant k <= |cs| && !sub.Halt? && (sub.Ok? ==> Short(sub.value)) && dir in t
      invariant last == (if k == 0 then unset else dir)
      invariant rec == Record(dir, 0, Joined(cs[..k]))
      invariant SearchFrom(t, 0, cs) == SearchFrom(t, dir, cs[k..])
      invariant k < |cs| ==> Find(t, 0, cs) == Find(t, dir, cs[k..])
      invariant k == |cs| > 0 ==> Find(t, 0, cs) == Found(above, dir, DIRECTORY)
      invariant name == "" <==> k == |cs|
      invariant name != "" ==> cs[k..] == [name] + if sub.Ok? then Comps(sub.value) else []
      decreases |cs| - k
    {
      JoinedPrefix(cs[..k], cs[k..]);
      assert cs[..k] + cs[k..] == cs;
      if |rec.searched| >= MAX_PATH { return Halt, rec; }
      JoinedTail(cs[..k], name);
      assert cs[k] == cs[k..][0] == name && cs[..k] + [name] == cs[..k + 1];
      assert cs[k..][1..] == cs[k + 1..] && cs[k + 1..] == if sub.Ok? then Comps(sub.value) else [];
      rec := rec.(searched := rec.searched + "/" + name);
      LookUp(t, level, dir, name);
      SearchOne(t, dir, cs[k..]);
      var i := SlotNamed(t[dir], name);
      if i == |t[dir]| { return Null, rec; }
      var e := t[dir][i];
      k := k + 1;
      name := "";
      if sub.Ok? {
        var p := sub.value;
        ParseComps(p);
        ParseShrinks(p);
        name, sub := PathParse(p);
        if sub.Ok? { ParseShort(p); }
      }
      if e.ftype != DIRECTORY { return Ok(e.no), rec.(ftype := REGULAR); }
      above, dir, last := dir, e.no, e.no;
      rec := rec.(parent := dir);
    }
    if k > 0 { SearchHere(t, dir); assert cs[k..] == []; }
    return Ok(last), rec.(parent := above, ftype := DIRECTORY);
  }

  /** One turn of the search. */
  lemma SearchOne(t: Tree, d: nat, cs: seq<string>)
    requires cs != [] && d in t
    ensures var i := SlotNamed(t[d], cs[0]); i == |t[d]| ==>
      SearchFrom(t, d, cs) == Null && Find(t, d, cs) == Missing(d, |cs|)
    ensures var i := SlotNamed(t[d], cs[0]); i < |t[d]| && t[d][i].ftype != DIRECTORY ==>
      SearchFrom(t, d, cs) == Ok(t[d][i].no) && Find(t, d, cs) == Found(d, t[d][i].no, t[d][i].ftype)
    ensures var i := SlotNamed(t[d], cs[0]); i < |t[d]| && t[d][i].ftype == DIRECTORY ==>
      && SearchFrom(t, d, cs) == SearchFrom(t, t[d][i].no, cs[1..])
      && Find(t, d, cs) ==
        if |cs| == 1 then Found(d, t[d][i].no, DIRECTORY) else Find(t, t[d][i].no, cs[1..])
  {
  }

  /** A search that meets a file stops there, whatever follows in the path. */
  lemma {:induction false} SearchStopsAtFile(t: Tree, d: nat, cs: seq<string>, rest: seq<string>)
    requires cs != [] && Find(t, d, cs).Found? && Find(t, d, cs).ftype != DIRECTORY
    ensures Find(t, d, cs + rest) == Find(t, d, cs)
    decreases |cs|
  {
    hide SlotNamed;
    var i := SlotNamed(t[d], cs[0]);
    if t[d][i].ftype == DIRECTORY {
      SearchStopsAtFile(t, t[d][i].no, cs[1..], rest);
      assert (cs + rest)[1..] == cs[1..] + rest;
    }
  }

  lemma RootIn(t: Tree, level: map<nat, nat>)
    requires WellFormed(t, level)
    ensures 0 in t
  {
  }

  /** The path that `sys_getcwd` gives for a directory leads `search_file` back to that directory. */
  lemma CwdRoundTrip(t: Tree, level: map<nat, nat>, cwd: nat)
    requires WellFormed(t, level) && cwd in t
    ensures cwd in level
    ensures var path := Render(PathOf(t, level[cwd], cwd));
      && SearchFrom(t, 0, Comps(path)) == Ok(cwd) && Short(path)
      && (cwd == 0 <==> RootPathName(path)) && (cwd != 0 ==> 1 < |path| && path[0] == '/' && Comps(path) != [])
  {
    hide WellFormed, SearchFrom, PathOf, Walk;
    PathIsNames(t, level, cwd);
    SearchFindsPath(t, level, cwd);
    var names := PathOf(t, level[cwd], cwd);
    CompsRender(names);
    if names != [] {
      NotADot(names);
    }
  }

  lemma {:induction false} NotADot(names: seq<string>)
    requires names != [] && forall k :: 0 <= k < |names| ==> GoodName(names[k])
    ensures var p := Render(names); 1 < |p| && p[0] == '/' && !RootPathName(p)
  {
    hide Comps;
    JoinedHead(names);
    var p := Render(names);
    CompsRender(names);
    DotPaths();
    assert names[0] != "." && names[0] != "..";
  }

  lemma DotPaths()
    ensures Comps("/.") == ["."] && Comps("/..") == [".."]
  {
    CompsSlash("", ".");
    CompsName(".");
    CompsSlash("", "..");
    CompsName("..");
    assert "" + "/" + "." == "/." && "" + "/" + ".." == "/..";
  }

  // ---------------------------------------------------------------- washed paths

  /** The directory in which the last component was found. */
  lemma {:induction false} LastFound(t: Tree, d: nat, a: seq<string>, c: string, e: nat) returns (x: nat)
    requires DirsOnly(t, d, a + [c]) && SearchFrom(t, d, a + [c]) == Ok(e)
    ensures SearchFrom(t, d, a) == Ok(x) && DirsOnly(t, d, a) && x in t
    ensures var i := SlotNamed(t[x], c); i < |t[x]| && t[x][i].ftype == DIRECTORY && t[x][i].no == e
    decreases |a|
  {
    hide SlotNamed;
    if a == [] {
      assert a + [c] == [c] && [c][1..] == [];
      x := d;
    } else {
      assert (a + [c])[0] == a[0] && (a + [c])[1..] == a[1..] + [c];
      x := LastFound(t, t[d][SlotNamed(t[d], a[0])].no, a[1..], c, e);
    }
  }

  /** A component that leads to a directory: a dot to the directory itself or to its parent, a name to a child. */
  lemma ComponentLeads(t: Tree, level: map<nat, nat>, d: nat, c: string)
    requires WellFormed(t, level) && d in t && IsName(c)
    ensures |t[d]| >= 2
    ensures var i := SlotNamed(t[d], c); i < |t[d]| && t[d][i].ftype == DIRECTORY ==>
      && t[d][i].no in t && |t[t[d][i].no]| >= 2
      && (c == "." ==> t[d][i].no == d) && (c == ".." ==> t[d][i].no == Parent(t, d))
      && (c != "." && c != ".." ==> Parent(t, t[d][i].no) == d)
    ensures c == "." || c == ".." ==> SlotNamed(t[d], c) < |t[d]| && t[d][SlotNamed(t[d], c)].ftype == DIRECTORY
  {
    hide WellFormed;
    RootLevel(t, level, d);
    var i := SlotNamed(t[d], c);
    if 2 <= i < |t[d]| { assert SlotFine(t, d, t[d][i]); }
    if i < |t[d]| && t[d][i].ftype == DIRECTORY { RootLevel(t, level, t[d][i].no); }
  }

  /** Entering a component of the path is entering a directory of the tree. */
  lemma EnterSearch(t: Tree, level: map<nat, nat>, st: seq<string>, d: nat, c: string, e: nat)
    requires WellFormed(t, level) && d in t && Names(st) && NoDots(st) && IsName(c)
    requires SearchFrom(t, 0, st) == Ok(d) && DirsOnly(t, 0, st)
    requires var i := SlotNamed(t[d], c); i < |t[d]| && t[d][i].ftype == DIRECTORY && t[d][i].no == e
    ensures SearchFrom(t, 0, Enter(st, c)) == Ok(e) && DirsOnly(t, 0, Enter(st, c)) && e in t
  {
    hide WellFormed, SlotNamed, SearchFrom, DirsOnly;
    ComponentLeads(t, level, d, c);
    if c == ".." {
      if st == [] {
        SearchHere(t, 0);
        RootParent(t, level);
      } else {
        var a := st[..|st| - 1];
        assert a + [st[|st| - 1]] == st;
        var x := LastFound(t, 0, a, st[|st| - 1], d);
        ComponentLeads(t, level, x, st[|st| - 1]);
      }
    } else if c != "." {
      SearchThrough(t, 0, st, d, c);
      OneComponent(t, d, c);
      DirsOnlyMore(t, 0, st, d, c);
    }
  }

  lemma RootParent(t: Tree, level: map<nat, nat>)
    requires WellFormed(t, level)
    ensures 0 in t && |t[0]| >= 2 && Parent(t, 0) == 0
  {
    assert DirFine(t, 0);
  }

  lemma OneComponent(t: Tree, d: nat, c: string)
    requires d in t
    ensures var i := SlotNamed(t[d], c); i < |t[d]| && t[d][i].ftype == DIRECTORY ==>
      SearchFrom(t, d, [c]) == Ok(t[d][i].no) && DirsOnly(t, d, [c])
  {
    assert [c][1..] == [];
  }

  /** Washing a path does not change where it leads, as long as all but its last component are directories: the search
      for the components from directory `d`, and the search from the root for what the walk through them leaves. */
  lemma {:induction false} WalkSearch(t: Tree, level: map<nat, nat>, st: seq<string>, d: nat, cs: seq<string>)
    requires WellFormed(t, level) && d in t && Names(st) && NoDots(st) && Names(cs)
    requires SearchFrom(t, 0, st) == Ok(d) && DirsOnly(t, 0, st)
    requires cs == [] || DirsOnly(t, d, cs[..|cs| - 1])
    ensures SearchFrom(t, 0, Walk(st, cs)) == SearchFrom(t, d, cs)
    decreases |cs|
  {
    hide WellFormed, SlotNamed;
    if cs == [] {
      SearchHere(t, d);
    } else {
      var c, i := cs[0], SlotNamed(t[d], cs[0]);
      ComponentLeads(t, level, d, c);
      if |cs| > 1 {
        assert cs[..|cs| - 1][0] == c && cs[..|cs| - 1][1..] == cs[1..][..|cs| - 2];
      }
      if i < |t[d]| && t[d][i].ftype == DIRECTORY {
        var e := t[d][i].no;
        EnterSearch(t, level, st, d, c, e);
        EnterNames(st, c);
        WalkSearch(t, level, Enter(st, c), e, cs[1..]);
      } else {
        assert cs == [c];
        assert Walk(st, cs) == st + [c];
        SearchThrough(t, 0, st, d, c);
      }
    }
  }

  lemma EnterNames(st: seq<string>, c: string)
    requires Names(st) && NoDots(st) && IsName(c)
    ensures Names(Enter(st, c)) && NoDots(Enter(st, c))
  {
    hide IsName;
  }

  /** The washed path leads where the path leads. */
  lemma {:induction false} WashSearch(t: Tree, level: map<nat, nat>, p: string)
    requires WellFormed(t, level)
    requires Comps(p) == [] || DirsOnly(t, 0, Comps(p)[..|Comps(p)| - 1])
    ensures SearchFrom(t, 0, Comps(Wash(p))) == SearchFrom(t, 0, Comps(p))
  {
    hide WellFormed, Comps, Walk, Wash, SearchFrom, DirsOnly, SlotNamed;
    RootIn(t, level);
    SearchHere(t, 0);
    WalkSearch(t, level, [], 0, Comps(p));
    WashIsCanonical(p);
  }

  /** A relative path, made absolute with the path of the current directory, leads where the search from the current
      directory leads. */
  lemma {:induction false} RelativeSearch(t: Tree, level: map<nat, nat>, cwd: nat, p: string)
    requires WellFormed(t, level) && cwd in t && cwd in level
    requires Comps(p) == [] || DirsOnly(t, cwd, Comps(p)[..|Comps(p)| - 1])
    ensures var abs := Render(Walk(Walk([], Comps(Render(PathOf(t, level[cwd], cwd)))), Comps(p)));
      SearchFrom(t, 0, Comps(abs)) == SearchFrom(t, cwd, Comps(p))
  {
    hide WellFormed, Comps, Walk, SearchFrom, DirsOnly, SlotNamed, PathOf, Render;
    PathIsNames(t, level, cwd);
    SearchFindsPath(t, level, cwd);
    var names := PathOf(t, level[cwd], cwd);
    CompsRender(names);
    WalkPlain([], names);
    assert [] + names == names;
    WalkSearch(t, level, names, cwd, Comps(p));
    WalkProper(names, Comps(p));
    CompsRender(Walk(names, Comps(p)));
  }

  /** The tree of a formatted partition is well formed. */
  lemma FormattedTree()
    ensures WellFormed(map[0 := RootBlock()], map[0 := 0])
  {
    var t: Tree := map[0 := RootBlock()];
    assert DirFine(t, 0);
  }
}
