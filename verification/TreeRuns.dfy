/** The system calls that create and remove files and directories, from the path string to the slots and the inode
    bitmap: `sys_open` with O_CREAT, `sys_mkdir`, `sys_unlink` and `sys_rmdir` of fs.c. */
module TreeRuns {
  import opened Outcomes
  import opened Bitmaps
  import opened Directories
  import opened Paths
  import opened Trees
  import opened TreeEdits
  import Layouts

  datatype State = State(tree: Tree, ibits: seq<bool>)

  datatype Op =
    | Create(path: string)
    | MakeDir(path: string)
    | Unlink(path: string, busy: bool)
    | Rmdir(path: string)

  /** A path on which `search_file` fails no assertion and returns a value that was set. */
  predicate Usable(path: string) { Short(path) && (RootPathName(path) || (Acceptable(path) && Comps(path) != [])) }

  function Lookup(t: Tree, path: string): (r: Search)
    requires Usable(path)
    ensures r.Missing? ==> Comps(path) != [] && 0 < r.left <= |Comps(path)|
  {
    if RootPathName(path) then Found(0, 0, DIRECTORY) else Find(t, 0, Comps(path))
  }

  /** The last component; the root's own path has none. */
  function LastComp(path: string): string {
    var cs := Comps(path);
    if cs == [] then "" else cs[|cs| - 1]
  }

  // ---------------------------------------------------------------- where something is created

  /** The directory and the name of what is to be created: all but the last component are found. */
  function Target(t: Tree, path: string): Outcome<(nat, string)>
    requires Usable(path)
  {
    match Lookup(t, path)
    case Missing(d, left) => if left == 1 && EndsInName(path) then Ok((d, LastComp(path))) else Null
    case Found(_, _, _) => Null
  }

  /** Comparing the two depths decides whether the search got as far as the last component, although neither depth is
      the number of components. */
  lemma DepthTest(path: string, left: nat)
    requires Names(Comps(path)) && 0 < left <= |Comps(path)|
    ensures var cs := Comps(path); var searched := Joined(cs[..|cs| - left + 1]);
      var depth := |cs| - if EndsInName(path) then 1 else 0;
      && Comps(searched) == cs[..|cs| - left + 1] && EndsInName(searched)
      && LastSlash(searched) >= 0 && searched[LastSlash(searched) + 1..] == cs[|cs| - left]
      && (depth == |Comps(searched)| - 1 <==> left == 1 && EndsInName(path))
  {
    hide Comps, Joined, EndsInName, LastSlash;
    var cs := Comps(path);
    var n := |cs| - left;
    CompsJoined(cs[..n + 1]);
    var searched := Joined(cs[..n + 1]);
    var p := Joined(cs[..n]);
    JoinedTail(cs[..n], cs[n]);
    assert cs[..n] + [cs[n]] == cs[..n + 1];
    LastSlashOf(p, cs[n]);
    NameAtEnd(p, cs[n]);
    assert searched[|p| + 1..] == cs[n];
  }

  lemma NameAtEnd(p: string, c: string)
    requires IsName(c)
    ensures EndsInName(p + "/" + c)
  {
    var q := p + "/" + c;
    assert q[|q| - 1] == c[|c| - 1] && c[|c| - 1] in c;
  }

  lemma ShortPart(path: string, n: nat)
    requires Short(path) && n <= |Comps(path)|
    ensures Comps(Joined(Comps(path)[..n])) == Comps(path)[..n] && Short(Joined(Comps(path)[..n]))
  {
    CompsJoined(Comps(path)[..n]);
  }

  /** The comparison of depths in `sys_open` and `sys_mkdir`. */
  method SameDepth(path: string, searched: string, ghost left: nat) returns (same: bool)
    requires Short(path) && 0 < left <= |Comps(path)| && searched == Joined(Comps(path)[..|Comps(path)| - left + 1])
    ensures same <==> left == 1 && EndsInName(path)
  {
    hide Comps, Joined, Short, EndsInName, LastSlash;
    DepthTest(path, left);
    ShortPart(path, |Comps(path)| - left + 1);
    var depth := PathDepth(path);
    var searchedDepth := PathDepth(searched);
    same := depth == searchedDepth;
  }

  /** The tests of `sys_open` with O_CREAT before `file_create`. */
  method OpenTarget(t: Tree, path: string, unset: nat, ghost level: map<nat, nat>) returns (r: Outcome<(nat, string)>)
    requires WellFormed(t, level) && Usable(path)
    ensures r == Target(t, path)
  {
    hide WellFormed, Comps, Find, SearchFrom, Joined, LastSlash, Short;
    if path[|path| - 1] == '/' { return Null; }
    var no, rec := SearchFile(t, path, unset, level);
    if no != Null || rec.ftype == DIRECTORY { return Null; }
    ghost var left := Lookup(t, path).left;
    var same := SameDepth(path, rec.searched, left);
    if !same { return Null; }
    SlashIn(path);
    LastName(path);
    return Ok((rec.parent, path[LastSlash(path) + 1..]));
  }

  lemma SlashIn(path: string)
    requires path != "" && path[0] == '/'
    ensures LastSlash(path) >= 0
  {
  }

  /** The tests of `sys_mkdir`. */
  method MkdirTarget(t: Tree, path: string, unset: nat, ghost level: map<nat, nat>) returns (r: Outcome<(nat, string)>)
    requires WellFormed(t, level) && Usable(path)
    ensures r == Target(t, path)
  {
    hide WellFormed, Comps, Find, SearchFrom, Joined, LastSlash, Short, EndsInName;
    var no, rec := SearchFile(t, path, unset, level);
    if no != Null { return Null; }
    ghost var left := Lookup(t, path).left;
    var same := SameDepth(path, rec.searched, left);
    if !same { return Null; }
    DepthTest(path, left);
    var slash := LastSlash(rec.searched);
    return Ok((rec.parent, rec.searched[slash + 1..]));
  }

  // ---------------------------------------------------------------- steps

  /** `delete_dir_entry`, whose answer both callers ignore: nothing happens when no entry has the number. */
  function Deletion(t: Tree, d: nat, no: nat): Tree {
    if d in t && FirstMatch(t[d], 0, no) < |t[d]| then t[d := Without(t[d], no)] else t
  }

  predicate EmptyDir(t: Tree, no: nat) { no in t && forall i :: 2 <= i < |t[no]| ==> !Live(t[no][i]) }

  /** The first free number. */
  function NextNumber(ibits: seq<bool>): (r: int)
    ensures r == -1 || (0 <= r < |ibits| && !ibits[r])
  {
    var r := FirstRun(ibits, 0, |ibits|, 1);
    assert r != -1 ==> ClearRun(ibits, r, 1);
    r
  }

  /** A step that succeeds or is refused; what fails an assertion is no step. */
  ghost predicate Step(s: State, op: Op, s1: State) {
    Usable(op.path) &&
    match op
    case Create(path) =>
      (match Target(s.tree, path)
       case Ok((d, name)) =>
         var no := NextNumber(s.ibits);
         && no >= 0 && s1.ibits == s.ibits[no := true] && d in s.tree && d in s1.tree
         && s1.tree == s.tree[d := s1.tree[d]] && SlotAdded(s.tree[d], Entry(name, no, REGULAR), s1.tree[d])
       case _ => s1 == s)
    case MakeDir(path) =>
      (match Target(s.tree, path)
       case Ok((d, name)) =>
         var no := NextNumber(s.ibits);
         && no >= 0 && s1.ibits == s.ibits[no := true] && d in s.tree && d in s1.tree && no in s1.tree
         && s1.tree == s.tree[d := s1.tree[d]][no := s1.tree[no]]
         && SlotAdded(s.tree[d], Entry(name, no, DIRECTORY), s1.tree[d])
         && |s1.tree[no]| >= 2 && s1.tree[no] == NewDir(no, d, |s1.tree[no]| - 2)
       case _ => s1 == s)
    case Unlink(path, busy) =>
      (match Lookup(s.tree, path)
       case Found(d, no, ftype) =>
         && no != 0
         && if ftype == DIRECTORY || busy then s1 == s
            else
              && no < |s.ibits| && (d in s.tree ==> !Doubled(s.tree[d], no))
              && s1 == State(Deletion(s.tree, d, no), s.ibits[no := false])
       case Missing(_, _) => s1 == s)
    case Rmdir(path) =>
      (match Lookup(s.tree, path)
       case Found(d, no, ftype) =>
         && no != 0
         && if ftype == REGULAR || !EmptyDir(s.tree, no) then s1 == s
            else
              && no < |s.ibits| && (d in s.tree ==> !Doubled(s.tree[d], no))
              && s1 == State(Deletion(s.tree, d, no) - {no}, s.ibits[no := false])
       case Missing(_, _) => s1 == s)
  }

  // ---------------------------------------------------------------- the invariant

  /** The inode bitmap has exactly the numbers of the tree. */
  ghost predicate BitsOk(s: State) {
    && |s.ibits| <= 4096
    && forall k: nat :: Used(s.tree, k) <==> k < |s.ibits| && s.ibits[k]
  }

  ghost predicate Inv(s: State, level: map<nat, nat>) { TreeOk(s.tree, level) && BitsOk(s) }

  ghost predicate Sound(s: State) { exists level :: Inv(s, level) }

  // ---------------------------------------------------------------- what a search finds

  /** What a search that ends in `Found` has found: an entry behind the dots, or one of the dots at the very end. */
  ghost predicate FoundFine(t: Tree, d: nat, no: nat, ftype: nat, c: string) {
    && d in t && (ftype == REGULAR || (ftype == DIRECTORY && no in t))
    && var i := SlotNamed(t[d], c);
      && i < |t[d]| && t[d][i].no == no && t[d][i].ftype == ftype
      && (c == "." ==> no == d && ftype == DIRECTORY)
      && (c == ".." ==> |t[d]| >= 2 && no == Parent(t, d) && ftype == DIRECTORY)
      && (c != "." && c != ".." ==> 2 <= i && SlotFine(t, d, t[d][i]) && no != 0)
  }

  lemma OneFound(t: Tree, level: map<nat, nat>, d: nat, c: string)
    requires WellFormed(t, level) && d in t && IsName(c)
    ensures var i := SlotNamed(t[d], c); i < |t[d]| ==> FoundFine(t, d, t[d][i].no, t[d][i].ftype, c)
  {
    hide WellFormed;
    Fine(t, level, d);
    var i := SlotNamed(t[d], c);
    if 2 <= i < |t[d]| { assert SlotFine(t, d, t[d][i]); }
  }

  ghost predicate FindOk(t: Tree, cs: seq<string>, r: Search) {
    match r
    case Found(p, no, ftype) =>
      exists k :: 0 <= k < |cs| && FoundFine(t, p, no, ftype, cs[k]) && (ftype == DIRECTORY ==> k == |cs| - 1)
    case Missing(p, left) =>
      p in t && 0 < left <= |cs| && SlotNamed(t[p], cs[|cs| - left]) == |t[p]|
  }

  lemma {:induction false} FindFine(t: Tree, level: map<nat, nat>, d: nat, cs: seq<string>)
    requires WellFormed(t, level) && d in t && cs != [] && Names(cs)
    ensures FindOk(t, cs, Find(t, d, cs))
    decreases |cs|
  {
    hide WellFormed, FoundFine, SlotNamed;
    OneFound(t, level, d, cs[0]);
    var i := SlotNamed(t[d], cs[0]);
    if i < |t[d]| && t[d][i].ftype == DIRECTORY && |cs| > 1 {
      DirIn(t, d, t[d][i].no, cs[0]);
      var e := t[d][i].no;
      FindFine(t, level, e, cs[1..]);
      match Find(t, e, cs[1..]) {
        case Found(p, no, ftype) =>
          var k :| 0 <= k < |cs[1..]| && FoundFine(t, p, no, ftype, cs[1..][k])
            && (ftype == DIRECTORY ==> k == |cs[1..]| - 1);
          assert cs[1..][k] == cs[k + 1];
        case Missing(p, left) =>
      }
    }
  }

  lemma DirIn(t: Tree, d: nat, no: nat, c: string)
    requires FoundFine(t, d, no, DIRECTORY, c)
    ensures no in t
  {
  }

  /** Does `delete_dir_entry` find the entry of a directory that a search led to? Exactly when the path does not end in
      ".", as long as the directory is empty. */
  lemma EntryFound(t: Tree, level: map<nat, nat>, d: nat, no: nat, c: string)
    requires TreeOk(t, level) && FoundFine(t, d, no, DIRECTORY, c) && no != 0 && EmptyDir(t, no)
    ensures FirstMatch(t[d], 0, no) < |t[d]| <==> c != "."
    ensures c != ".."
    ensures c != "." && !Doubled(t[d], no) ==> CanRemove(t, d, no, DIRECTORY)
  {
    hide WellFormed, Doubled;
    NotTheParent(t, level, d, no, c);
    Fine(t, level, d);
    if c == "." {
      SelfUnlisted(t, level, no);
    } else {
      var i := SlotNamed(t[d], c);
      assert Matches(t[d][i], no);
      SameType(t, d, no, i);
    }
  }

  lemma NotTheParent(t: Tree, level: map<nat, nat>, d: nat, no: nat, c: string)
    requires TreeOk(t, level) && FoundFine(t, d, no, DIRECTORY, c) && no != 0 && EmptyDir(t, no)
    ensures c != ".."
  {
    hide WellFormed, EmptyDir;
    Root(t, level);
    if d != 0 { ParentNotEmpty(t, level, d); }
  }

  lemma ParentNotEmpty(t: Tree, level: map<nat, nat>, d: nat)
    requires WellFormed(t, level) && d in t && d != 0
    ensures |t[d]| >= 2 && !EmptyDir(t, Parent(t, d))
  {
    hide WellFormed;
    LevelUp(t, level, d);
    var p := Parent(t, d);
    Fine(t, level, p);
    var i :| 2 <= i < |t[p]| && t[p][i].no == d;
    assert SlotFine(t, p, t[p][i]);
  }

  /** No directory lists itself behind the dots. */
  lemma SelfUnlisted(t: Tree, level: map<nat, nat>, no: nat)
    requires WellFormed(t, level) && no in t && no != 0
    ensures FirstMatch(t[no], 0, no) == |t[no]|
  {
    hide WellFormed;
    LevelUp(t, level, no);
    Fine(t, level, no);
    forall i | 2 <= i < |t[no]| ensures !Matches(t[no][i], no) { assert SlotFine(t, no, t[no][i]); }
  }

  lemma SameType(t: Tree, d: nat, no: nat, i: nat)
    requires OnceListed(t) && d in t && 2 <= i < |t[d]| && Matches(t[d][i], no) && |t[d]| >= 2
    requires Dots(t[d][0]) && Dots(t[d][1])
    ensures var j := FirstMatch(t[d], 0, no); j < |t[d]| && t[d][j] == t[d][i]
  {
    var j := FirstMatch(t[d], 0, no);
    assert Lists(t, d, i, no) && Lists(t, d, j, no);
  }

  // ---------------------------------------------------------------- steps as edits of the tree

  /** A path that ends in "." and leads to an empty directory: `search_file` gives the directory as its own parent. */
  predicate DropsItself(s: State, op: Op) {
    && op.Rmdir? && Usable(op.path) && LastComp(op.path) == "."
    && match Lookup(s.tree, op.path)
       case Found(_, no, ftype) => ftype != REGULAR && no != 0 && EmptyDir(s.tree, no)
       case Missing(_, _) => false
  }

  predicate Adds(e: Edit) { e.AddFile? || e.AddDir? }

  /** The step edits the tree, and the bit of the number follows. */
  ghost predicate Edits(s: State, e: Edit, s1: State) {
    Edited(s.tree, e, s1.tree) && e.no < |s.ibits| && s1.ibits == s.ibits[e.no := Adds(e)]
  }

  lemma PathNames(path: string)
    requires Usable(path) && Comps(path) != []
    ensures Names(Comps(path)) && IsName(LastComp(path)) && |LastComp(path)| < 16
  {
  }

  lemma NumberFree(s: State)
    requires BitsOk(s) && NextNumber(s.ibits) >= 0
    ensures Unused(s.tree, NextNumber(s.ibits))
  {
    hide NextNumber, Used;
  }

  lemma TargetFree(s: State, level: map<nat, nat>, path: string)
    requires Inv(s, level) && Usable(path) && Target(s.tree, path).Ok? && NextNumber(s.ibits) >= 0
    ensures var (d, name) := Target(s.tree, path).value; CanAdd(s.tree, d, name, NextNumber(s.ibits))
  {
    hide TreeOk, BitsOk, Unused, Comps, Find, NextNumber, FoundFine, SlotNamed, Usable, IsName, FindOk, Find;
    NumberFree(s);
    LookupFinds(s.tree, level, path);
    PathNames(path);
    TargetMissing(s.tree, path);
  }

  lemma TargetMissing(t: Tree, path: string)
    requires Usable(path) && Target(t, path).Ok? && FindOk(t, Comps(path), Lookup(t, path))
    ensures var (d, name) := Target(t, path).value; d in t && SlotNamed(t[d], name) == |t[d]|
    ensures Comps(path) != []
  {
    hide Comps, Find, FoundFine, SlotNamed, Usable;
  }

  lemma LookupFinds(t: Tree, level: map<nat, nat>, path: string)
    requires TreeOk(t, level) && Usable(path) && !RootPathName(path)
    ensures FindOk(t, Comps(path), Lookup(t, path)) && Comps(path) != []
  {
    hide TreeOk, Comps, Find, FindOk, Short;
    PathNames(path);
    RootIs(t, level);
    FindFine(t, level, 0, Comps(path));
  }

  lemma RootIs(t: Tree, level: map<nat, nat>)
    requires TreeOk(t, level)
    ensures WellFormed(t, level) && 0 in t
  {
  }

  lemma CreateEdits(s: State, level: map<nat, nat>, op: Op, s1: State)
    requires Inv(s, level) && Step(s, op, s1) && (op.Create? || op.MakeDir?)
    ensures s1 == s || exists e :: Edits(s, e, s1)
  {
    hide Inv, Target, CanAdd, SlotAdded, NewDir, NextNumber;
    match Target(s.tree, op.path)
    case Ok((d, name)) =>
      TargetFree(s, level, op.path);
      var no := NextNumber(s.ibits);
      assert Edits(s, if op.Create? then AddFile(d, name, no) else AddDir(d, name, no), s1);
    case _ =>
  }

  /** What a path leads to: for a directory the last component decides how. */
  lemma LookupFine(s: State, level: map<nat, nat>, path: string)
    requires TreeOk(s.tree, level) && Usable(path)
    ensures match Lookup(s.tree, path)
      case Found(d, no, ftype) =>
        no != 0 ==> exists c :: FoundFine(s.tree, d, no, ftype, c) && (ftype == DIRECTORY ==> c == LastComp(path))
      case Missing(_, _) => true
  {
    hide TreeOk, Comps, Find, FoundFine, Usable;
    if !RootPathName(path) { LookupFinds(s.tree, level, path); }
  }

  lemma UnlinkEdits(s: State, level: map<nat, nat>, op: Op, s1: State)
    requires Inv(s, level) && Step(s, op, s1) && op.Unlink?
    ensures s1 == s || exists e :: Edits(s, e, s1)
  {
    hide TreeOk, BitsOk, Lookup, Doubled, FoundFine, Usable;
    LookupFine(s, level, op.path);
    match Lookup(s.tree, op.path)
    case Missing(_, _) =>
    case Found(d, no, ftype) =>
      if ftype != DIRECTORY && !op.busy {
        var c :| FoundFine(s.tree, d, no, ftype, c);
        FileFound(s.tree, level, d, no, c, ftype);
        assert Edits(s, RemoveFile(d, no), s1);
      }
  }

  /** The entry of a file that a search led to is found. */
  lemma FileFound(t: Tree, level: map<nat, nat>, d: nat, no: nat, c: string, ftype: nat)
    requires TreeOk(t, level) && FoundFine(t, d, no, ftype, c) && ftype != DIRECTORY
    ensures d in t && FirstMatch(t[d], 0, no) < |t[d]| && (!Doubled(t[d], no) ==> CanRemove(t, d, no, REGULAR))
  {
    hide WellFormed, Doubled;
    Fine(t, level, d);
    SameType(t, d, no, SlotNamed(t[d], c));
  }

  lemma RmdirEdits(s: State, level: map<nat, nat>, op: Op, s1: State)
    requires Inv(s, level) && Step(s, op, s1) && op.Rmdir? && !DropsItself(s, op)
    ensures s1 == s || exists e :: Edits(s, e, s1)
  {
    hide TreeOk, BitsOk, Lookup, Doubled, FoundFine, Usable, EmptyDir, LastComp;
    LookupFine(s, level, op.path);
    match Lookup(s.tree, op.path)
    case Missing(_, _) =>
    case Found(d, no, ftype) =>
      if ftype != REGULAR && EmptyDir(s.tree, no) {
        var c :| FoundFine(s.tree, d, no, ftype, c) && (ftype == DIRECTORY ==> c == LastComp(op.path));
        FoundParts(s.tree, d, no, ftype, c);
        EntryFound(s.tree, level, d, no, c);
        DirRemoved(s, d, no, s1);
      }
  }

  /** `delete_dir_entry` finds the entry of the empty directory that `sys_rmdir` is about to release exactly when the
      path does not end in ".". */
  lemma RmdirFindsEntry(s: State, level: map<nat, nat>, path: string, d: nat, no: nat)
    requires Inv(s, level) && Usable(path) && Lookup(s.tree, path) == Found(d, no, DIRECTORY)
    requires no != 0 && EmptyDir(s.tree, no)
    ensures d in s.tree && (FirstMatch(s.tree[d], 0, no) < |s.tree[d]| <==> LastComp(path) != ".")
  {
    hide TreeOk, BitsOk, Lookup, FoundFine, Usable, EmptyDir, LastComp;
    LookupFine(s, level, path);
    FoundParts(s.tree, d, no, DIRECTORY, LastComp(path));
    EntryFound(s.tree, level, d, no, LastComp(path));
  }

  lemma FoundParts(t: Tree, d: nat, no: nat, ftype: nat, c: string)
    requires FoundFine(t, d, no, ftype, c)
    ensures d in t && (ftype == REGULAR || ftype == DIRECTORY) && (c == "." ==> d == no)
  {
  }

  lemma DirRemoved(s: State, d: nat, no: nat, s1: State)
    requires CanRemove(s.tree, d, no, DIRECTORY) && EmptyDir(s.tree, no) && no < |s.ibits|
    requires s1 == State(Deletion(s.tree, d, no) - {no}, s.ibits[no := false])
    ensures exists e :: Edits(s, e, s1)
  {
    hide Doubled;
    assert Edits(s, RemoveDir(d, no), s1);
  }

  lemma EditSound(s: State, level: map<nat, nat>, e: Edit, s1: State)
    requires Inv(s, level) && Edits(s, e, s1)
    ensures Inv(s1, LevelsAfter(level, e))
  {
    hide TreeOk, Edited, Used;
    EditKeeps(s.tree, level, e, s1.tree);
    forall k: nat ensures Used(s1.tree, k) <==> k < |s1.ibits| && s1.ibits[k] {
      if Adds(e) { AddUses(s.tree, level, e, s1.tree, k); } else { RemoveUses(s.tree, level, e, s1.tree, k); }
    }
  }

  /** A directory that is removed but still listed. */
  lemma StillListed(t: Tree, level: map<nat, nat>, p: nat, i: nat)
    requires WellFormed(t, level) && p in t && 2 <= i < |t[p]|
    ensures t[p][i].ftype == DIRECTORY ==> t[p][i].no in t
  {
    hide WellFormed;
    Fine(t, level, p);
    assert SlotFine(t, p, t[p][i]);
  }

  lemma DroppedUnsound(s: State, level: map<nat, nat>, op: Op, s1: State)
    requires Inv(s, level) && Step(s, op, s1) && DropsItself(s, op)
    ensures !Sound(s1) && s1.tree.Keys < s.tree.Keys
  {
    hide TreeOk, BitsOk, Lookup, Doubled, FoundFine, Usable, LastComp, FirstMatch, WellFormed, Trees.Step;
    LookupFine(s, level, op.path);
    RootIs(s.tree, level);
    var t, no, d := s.tree, Lookup(s.tree, op.path).no, Lookup(s.tree, op.path).dir;
    var c :| FoundFine(t, d, no, Lookup(t, op.path).ftype, c)
      && (Lookup(t, op.path).ftype == DIRECTORY ==> c == LastComp(op.path));
    FoundParts(t, d, no, Lookup(t, op.path).ftype, c);
    SelfUnlisted(t, level, no);
    assert s1.tree == t - {no};
    LevelUp(t, level, no);
    var p := Parent(t, no);
    var i := ParentSlot(t, level, no);
    forall level1 ensures !WellFormed(s1.tree, level1) {
      if WellFormed(s1.tree, level1) {
        StillListed(s1.tree, level1, p, i);
        assert false;
      }
    }
    forall level1 ensures !Inv(s1, level1) { NotInv(s1, level1); }
  }

  lemma NotInv(s: State, level: map<nat, nat>)
    requires !WellFormed(s.tree, level)
    ensures !Inv(s, level)
  {
    hide WellFormed;
  }

  lemma ParentSlot(t: Tree, level: map<nat, nat>, no: nat) returns (i: nat)
    requires WellFormed(t, level) && no in t && no != 0
    ensures |t[no]| >= 2 && Parent(t, no) in t && 2 <= i < |t[Parent(t, no)]|
    ensures t[Parent(t, no)][i].no == no && t[Parent(t, no)][i].ftype == DIRECTORY
  {
    hide WellFormed;
    StepUp(t, level, no);
    var p := Parent(t, no);
    Fine(t, level, p);
    i := SlotOf(t[p], no);
  }

  // ---------------------------------------------------------------- runs

  /** A step keeps the tree well formed and the bitmap equal to the numbers in it exactly when it does not remove an
      empty directory by a path that ends in ".". */
  lemma StepKeeps(s: State, op: Op, s1: State)
    requires Sound(s) && Step(s, op, s1)
    ensures Sound(s1) <==> !DropsItself(s, op)
  {
    hide Inv, Step, DropsItself, Edits;
    var level :| Inv(s, level);
    if DropsItself(s, op) {
      DroppedUnsound(s, level, op, s1);
    } else {
      match op {
        case Create(_) => CreateEdits(s, level, op, s1);
        case MakeDir(_) => CreateEdits(s, level, op, s1);
        case Unlink(_, _) => UnlinkEdits(s, level, op, s1);
        case Rmdir(_) => RmdirEdits(s, level, op, s1);
      }
      if s1 != s {
        var e :| Edits(s, e, s1);
        EditSound(s, level, e, s1);
      }
    }
  }

  ghost predicate IsRun(ss: seq<State>, ops: seq<Op>) {
    |ss| == |ops| + 1 && forall k :: 0 <= k < |ops| ==> Step(ss[k], ops[k], ss[k + 1])
  }

  /** Every state of a run is sound exactly when no step of it removes an empty directory by a path ending in ".". */
  lemma RunKeeps(ss: seq<State>, ops: seq<Op>)
    requires IsRun(ss, ops) && Sound(ss[0])
    ensures (forall k :: 0 <= k <= |ops| ==> Sound(ss[k])) <==>
      forall k :: 0 <= k < |ops| ==> !DropsItself(ss[k], ops[k])
  {
    hide Sound, Step, DropsItself;
    if forall k :: 0 <= k < |ops| ==> !DropsItself(ss[k], ops[k]) {
      forall k: nat | k <= |ops| ensures Sound(ss[k]) { StateSound(ss, ops, k); }
    } else {
      var k :| 0 <= k < |ops| && DropsItself(ss[k], ops[k]);
      if Sound(ss[k]) { StepKeeps(ss[k], ops[k], ss[k + 1]); }
      assert !(Sound(ss[k]) && Sound(ss[k + 1]));
    }
  }

  lemma {:induction false} StateSound(ss: seq<State>, ops: seq<Op>, k: nat)
    requires IsRun(ss, ops) && Sound(ss[0]) && k <= |ops|
    requires forall j :: 0 <= j < k ==> !DropsItself(ss[j], ops[j])
    ensures Sound(ss[k])
  {
    hide Sound, Step, DropsItself;
    if k > 0 {
      StateSound(ss, ops, k - 1);
      StepKeeps(ss[k - 1], ops[k - 1], ss[k]);
    }
  }

  function Formatted(): State { State(map[0 := RootBlock()], Layouts.RootBits()) }

  lemma FormattedSound()
    ensures Sound(Formatted())
  {
    FormattedTree();
    var s := Formatted();
    assert forall d, i: nat, no :: !Lists(s.tree, d, i, no);
    hide WellFormed;
    assert Inv(s, map[0 := 0]);
  }

  /** After every run on a formatted partition in which no directory drops itself, the path of each directory leads from
      the root to that directory, and the numbers taken are those of the tree. */
  lemma PathsAfterRun(ss: seq<State>, ops: seq<Op>) returns (level: map<nat, nat>)
    requires IsRun(ss, ops) && ss[0] == Formatted()
    requires forall k :: 0 <= k < |ops| ==> !DropsItself(ss[k], ops[k])
    ensures Inv(ss[|ops|], level)
    ensures forall d :: d in ss[|ops|].tree ==>
      d in level && SearchFrom(ss[|ops|].tree, 0, Comps(Render(PathOf(ss[|ops|].tree, level[d], d)))) == Ok(d)
  {
    hide WellFormed, Step, SearchFrom, PathOf, Comps, Render, DropsItself, BitsOk, OnceListed, Formatted;
    FormattedSound();
    StateSound(ss, ops, |ops|);
    var s := ss[|ops|];
    level :| Inv(s, level);
    forall d | d in s.tree
      ensures d in level && SearchFrom(s.tree, 0, Comps(Render(PathOf(s.tree, level[d], d)))) == Ok(d)
    {
      CwdRoundTrip(s.tree, level, d);
    }
  }

  // ---------------------------------------------------------------- a directory that drops itself

  /** The root with the names listed from its third slot on, all of them for directory 1. */
  function Listing(names: seq<string>): (f: seq<Entry>)
    requires |names| <= PER_BLOCK - 2
    ensures |f| == PER_BLOCK
  {
    seq(PER_BLOCK, i requires 0 <= i < PER_BLOCK =>
      if 2 <= i < 2 + |names| then Entry(names[i - 2], 1, DIRECTORY) else RootBlock()[i])
  }

  const CHILD: seq<Entry> := NewDir(1, 0, PER_BLOCK - 2)

  /** The root lists `names`; directory 1 is there or not. */
  function With(names: seq<string>, there: bool): State
    requires |names| <= PER_BLOCK - 2
  {
    var root: Tree := map[0 := Listing(names)];
    State(if there then root[1 := CHILD] else root, Layouts.RootBits()[1 := there])
  }

  lemma RootSlot(i: nat)
    requires i < PER_BLOCK
    ensures RootBlock()[i] == if i == 0 then Entry(".", 0, 2) else if i == 1 then Entry("..", 0, 2) else EMPTY
  {
  }

  lemma {:induction false} ListingSlots(names: seq<string>, name: string)
    requires |names| < PER_BLOCK - 2 && name !in names && name != "." && name != ".." && name != ""
    ensures SlotNamed(Listing(names), name) == PER_BLOCK
    ensures FirstFree(Listing(names), 0) == 2 + |names|
    ensures SlotAdded(Listing(names), Entry(name, 1, DIRECTORY), Listing(names + [name]))
    ensures SlotNamed(Listing(names + [name]), name) == 2 + |names|
    ensures Listing(names + [name])[2 + |names|] == Entry(name, 1, DIRECTORY)
  {
    hide SlotNamed, FirstFree, RootBlock;
    var f := Listing(names);
    forall i: nat | i < |f| ensures f[i].name != name && (Live(f[i]) <==> i < 2 + |names|) {
      RootSlot(i);
      if 2 <= i < 2 + |names| { assert f[i].name == names[i - 2]; }
    }
    var j := FirstFree(f, 0);
    assert !Live(f[2 + |names|]) && (j < |f| ==> !Live(f[j]));
    var f1 := Listing(names + [name]);
    assert f1 == f[2 + |names| := Entry(name, 1, DIRECTORY)];
    assert f1[2 + |names|].name == name && forall i :: 0 <= i < 2 + |names| ==> f1[i] == f[i];
  }

  lemma NextIsOne()
    ensures NextNumber(Layouts.RootBits()) == 1
  {
    var bits := Layouts.RootBits();
    hide FirstRun, Layouts.RootBits;
    assert ClearRun(bits, 1, 1) && bits[0];
  }

  lemma OneName(c: string)
    requires IsName(c) && |c| < 16 && !Dots(Entry(c, 0, 0))
    ensures Comps("/" + c) == [c] && Usable("/" + c) && !RootPathName("/" + c) && EndsInName("/" + c)
  {
    CompsSlash("", c);
    CompsName(c);
    assert "" + "/" + c == "/" + c;
    NameAtEnd("", c);
  }

  lemma {:induction false} SearchName(t: Tree, c: string)
    requires 0 in t
    ensures SlotNamed(t[0], c) == |t[0]| ==> Find(t, 0, [c]) == Missing(0, 1)
    ensures var i := SlotNamed(t[0], c); i < |t[0]| ==> Find(t, 0, [c]) == Found(0, t[0][i].no, t[0][i].ftype)
  {
    hide SlotNamed;
  }

  /** Making directory 1 under one more name. */
  lemma {:induction false} MakeOne(names: seq<string>, c: string)
    requires |names| < PER_BLOCK - 2 && IsName(c) && |c| < 16 && c != "." && c != ".." && c !in names
    ensures Step(With(names, false), MakeDir("/" + c), With(names + [c], true))
    ensures Find(With(names + [c], true).tree, 0, [c]) == Found(0, 1, DIRECTORY)
  {
    hide SlotNamed, FirstFree, Find, Comps, NextNumber, Listing, SlotAdded, Layouts.RootBits, NewDir, Usable;
    hide EndsInName;
    OneName(c);
    ListingSlots(names, c);
    var s, s1 := With(names, false), With(names + [c], true);
    SearchName(s.tree, c);
    SearchName(s1.tree, c);
    assert s.ibits == Layouts.RootBits();
    NextIsOne();
    assert LastComp("/" + c) == c;
    assert Lookup(s.tree, "/" + c) == Missing(0, 1);
    assert s1.tree == s.tree[0 := s1.tree[0]][1 := s1.tree[1]];
  }

  lemma TwoNames(a: string, c: string)
    requires IsName(a) && IsName(c) && |a| < 16 && |c| < 16
    ensures Comps("/" + a + "/" + c) == [a, c]
  {
    hide Comps;
    CompsSlash("/" + a, c);
    CompsSlash("", a);
    CompsName(a);
    CompsName(c);
    assert Comps("") == [] by { EmptyComps(); }
    assert "" + "/" + a == "/" + a;
  }

  lemma EmptyComps()
    ensures Comps("") == []
  {
  }

  lemma DotPath()
    ensures Comps("/a/.") == ["a", "."] && Usable("/a/.") && !RootPathName("/a/.")
  {
    hide Comps;
    TwoNames("a", ".");
    assert "/" + "a" + "/" + "." == "/a/.";
  }

  /** From a formatted partition: a directory is made and removed as "/a/.", which leaves its name behind. The next
      directory gets its number, and then both names lead to it. */
  lemma {:induction false} DropReachable()
    ensures Step(Formatted(), MakeDir("/a"), With(["a"], true)) && Sound(With(["a"], true))
    ensures Step(With(["a"], true), Rmdir("/a/."), With(["a"], false)) && !Sound(With(["a"], false))
    ensures Find(With(["a"], false).tree, 0, ["a"]) == Found(0, 1, DIRECTORY)
    ensures 1 !in With(["a"], false).tree && !With(["a"], false).ibits[1]
    ensures Step(With(["a"], false), MakeDir("/b"), With(["a", "b"], true))
    ensures Find(With(["a", "b"], true).tree, 0, ["a"]) == Found(0, 1, DIRECTORY)
    ensures Find(With(["a", "b"], true).tree, 0, ["b"]) == Found(0, 1, DIRECTORY)
  {
    hide Step, Sound, Find, Listing, Layouts.RootBits, Comps, Usable, SlotNamed, With;
    MakeOne([], "a");
    MakeOne(["a"], "b");
    assert [] + ["a"] == ["a"] && ["a"] + ["b"] == ["a", "b"] && "/" + "a" == "/a" && "/" + "b" == "/b";
    StartsFormatted();
    DropStep();
    FormattedSound();
    StepKeeps(Formatted(), MakeDir("/a"), With(["a"], true));
    StepKeeps(With(["a"], true), Rmdir("/a/."), With(["a"], false));
    SearchTwo();
  }

  lemma StartsFormatted()
    ensures With([], false) == Formatted() && !DropsItself(Formatted(), MakeDir("/a"))
  {
    assert Listing([]) == RootBlock();
    assert Layouts.RootBits()[1 := false] == Layouts.RootBits();
  }

  lemma {:induction false} DropLookup()
    ensures Usable("/a/.") && Lookup(With(["a"], true).tree, "/a/.") == Found(1, 1, DIRECTORY)
  {
    hide Listing, Layouts.RootBits, Comps, Usable, SlotNamed, NewDir;
    var t := With(["a"], true).tree;
    DotPath();
    ChildSlots();
    ListingSlots([], "a");
    assert [] + ["a"] == ["a"];
    SearchOne(t, 0, ["a", "."]);
    assert ["a", "."][1..] == ["."];
    SearchOne(t, 1, ["."]);
  }

  lemma {:induction false} DropStep()
    ensures Step(With(["a"], true), Rmdir("/a/."), With(["a"], false))
    ensures DropsItself(With(["a"], true), Rmdir("/a/."))
  {
    hide Listing, Layouts.RootBits, Comps, Usable, FirstMatch, Lookup, NewDir;
    var s, s1 := With(["a"], true), With(["a"], false);
    DropLookup();
    DotPath();
    ChildSlots();
    assert s.tree[1] == CHILD && s1.tree == s.tree - {1};
    assert |s.ibits| == 4096 && s1.ibits == s.ibits[1 := false];
  }

  lemma ChildSlots()
    ensures CHILD[0].name == "." && CHILD[0].no == 1 && CHILD[0].ftype == DIRECTORY && SlotNamed(CHILD, ".") == 0
    ensures FirstMatch(CHILD, 0, 1) == |CHILD| && !Doubled(CHILD, 1) && forall i :: 2 <= i < |CHILD| ==> !Live(CHILD[i])
  {
  }

  lemma {:induction false} SearchTwo()
    ensures Find(With(["a"], false).tree, 0, ["a"]) == Found(0, 1, DIRECTORY)
    ensures Find(With(["a", "b"], true).tree, 0, ["a"]) == Found(0, 1, DIRECTORY)
    ensures 1 !in With(["a"], false).tree && !With(["a"], false).ibits[1]
  {
    hide Find, SlotNamed;
    SearchName(With(["a"], false).tree, "a");
    SearchName(With(["a", "b"], true).tree, "a");
    ListingSlots([], "a");
    assert [] + ["a"] == ["a"];
    assert forall i :: 0 <= i < 3 ==> Listing(["a", "b"])[i] == Listing(["a"])[i];
  }
}
