/** What the system calls change as seen through paths: which path leads where after a creation or a removal. */
module TreeEffects {
  import opened Outcomes
  import Bitmaps
  import opened Directories
  import opened Paths
  import opened Trees
  import opened TreeEdits
  import opened TreeRuns

  // ---------------------------------------------------------------- names in a directory

  /** The first slot with the name, and nothing before it. */
  lemma NamedAt(f: seq<Entry>, name: string, i: nat)
    requires i < |f| && f[i].name == name && forall k :: 0 <= k < i ==> f[k].name != name
    ensures SlotNamed(f, name) == i
  {
    hide SlotNamed;
  }

  lemma NotNamed(f: seq<Entry>, name: string)
    requires forall k :: 0 <= k < |f| ==> f[k].name != name
    ensures SlotNamed(f, name) == |f|
  {
    hide SlotNamed;
  }

  /** Adding an entry changes what its own name leads to and no other. */
  lemma AddedName(t: Tree, level: map<nat, nat>, d: nat, e: Entry, f1: seq<Entry>, c: string)
    requires WellFormed(t, level) && CanAdd(t, d, e.name, e.no) && SlotAdded(t[d], e, f1) && Live(e) && IsName(c)
    ensures |f1| == |t[d]|
    ensures c == e.name ==> SlotNamed(t[d], c) == |t[d]| && SlotNamed(f1, c) < |f1| && f1[SlotNamed(f1, c)] == e
    ensures c != e.name ==> SlotNamed(f1, c) == SlotNamed(t[d], c)
    ensures c != e.name && SlotNamed(f1, c) < |f1| ==> f1[SlotNamed(f1, c)] == t[d][SlotNamed(f1, c)]
  {
    hide WellFormed, SlotAdded, FirstFree, SlotNamed, Unused;
    Fine(t, level, d);
    var f := t[d];
    AddedSlots(f, e, f1);
    NewName(t, level, d, e);
    var i := SlotNamed(f, c);
    forall k | 2 <= k < |f| && !Live(f[k]) ensures f[k].name == "" { assert SlotFine(t, d, f[k]); }
    if c == e.name {
      var k := FirstFree(f, 0);
      assert f1[k].name == c;
      var j := SlotNamed(f1, c);
      assert j < |f1|;
    } else if i < |f| {
      NamedAt(f1, c, i);
    } else {
      NotNamed(f1, c);
    }
  }

  // ---------------------------------------------------------------- after a creation

  /** Where a search leads after the entry `e` was added to directory `d`: where it led, but for the one component that
      was missing there. */
  ghost predicate FoundAfterAdd(t: Tree, t1: Tree, d: nat, e: Entry, x: nat, cs: seq<string>)
    requires cs != []
  {
    match Find(t, x, cs)
    case Found(_, _, _) => Find(t1, x, cs) == Find(t, x, cs)
    case Missing(y, left) =>
      if y == d && cs[|cs| - left] == e.name then
        && (e.ftype != DIRECTORY || left == 1 ==> Find(t1, x, cs) == Found(d, e.no, e.ftype))
        && (e.ftype == DIRECTORY && left > 1 ==> Find(t1, x, cs) == Find(t1, e.no, cs[|cs| - left + 1..]))
      else Find(t1, x, cs) == Missing(y, left)
  }

  /** The directories other than `d` are the same. */
  ghost predicate OthersSame(t: Tree, t1: Tree, d: nat) {
    t.Keys <= t1.Keys && forall x :: x in t && x != d ==> t1[x] == t[x]
  }

  lemma {:induction false} AddFind(t: Tree, level: map<nat, nat>, t1: Tree, d: nat, e: Entry, x: nat, cs: seq<string>)
    requires WellFormed(t, level) && CanAdd(t, d, e.name, e.no) && OthersSame(t, t1, d) && Live(e)
    requires SlotAdded(t[d], e, t1[d]) && x in t && cs != [] && Names(cs)
    ensures FoundAfterAdd(t, t1, d, e, x, cs)
    decreases |cs|
  {
    hide WellFormed, SlotAdded, SlotNamed, CanAdd, IsName, SearchFrom;
    var c := cs[0];
    if x == d { AddedName(t, level, d, e, t1[d], c); }
    SearchOne(t, x, cs);
    SearchOne(t1, x, cs);
    var i := SlotNamed(t[x], c);
    if i < |t[x]| && t[x][i].ftype == DIRECTORY && |cs| > 1 {
      var y := t[x][i].no;
      OneFound(t, level, x, c);
      DirIn(t, x, y, c);
      AddFind(t, level, t1, d, e, y, cs[1..]);
      TailParts(cs, Find(t, y, cs[1..]));
    }
  }

  lemma TailParts(cs: seq<string>, r: Search)
    requires cs != [] && (r.Missing? ==> 0 < r.left <= |cs[1..]|)
    ensures r.Missing? ==> cs[1..][|cs[1..]| - r.left] == cs[|cs| - r.left]
    ensures r.Missing? ==> cs[1..][|cs[1..]| - r.left + 1..] == cs[|cs| - r.left + 1..]
  {
  }

  /** The call succeeded where the path says, and every other path leads where it led. */
  ghost predicate Created(s: State, s1: State, path: string, d: nat, e: Entry)
    requires Usable(path)
  {
    && Lookup(s1.tree, path) == Found(d, e.no, e.ftype)
    && e.no < |s.ibits| && !s.ibits[e.no] && s1.ibits == s.ibits[e.no := true]
    && forall q :: Usable(q) && !RootPathName(q) && Comps(q) != [] ==> FoundAfterAdd(s.tree, s1.tree, d, e, 0, Comps(q))
  }

  lemma AddEffect(s: State, level: map<nat, nat>, s1: State, path: string, e: Entry)
    requires Inv(s, level) && Usable(path) && Target(s.tree, path).Ok? && NextNumber(s.ibits) >= 0
    requires e.no == NextNumber(s.ibits) && e.name == Target(s.tree, path).value.1 && Live(e)
    requires var d := Target(s.tree, path).value.0;
      d in s.tree && OthersSame(s.tree, s1.tree, d) && SlotAdded(s.tree[d], e, s1.tree[d])
    requires s1.ibits == s.ibits[e.no := true]
    ensures Created(s, s1, path, Target(s.tree, path).value.0, e)
  {
    hide WellFormed, OnceListed, BitsOk, SlotAdded, CanAdd, NextNumber, Find, Comps, Short, FoundAfterAdd;
    var d := Target(s.tree, path).value.0;
    TargetFree(s, level, path);
    NextFree(s.ibits);
    RootIs(s.tree, level);
    forall q | Usable(q) && !RootPathName(q) && Comps(q) != []
      ensures FoundAfterAdd(s.tree, s1.tree, d, e, 0, Comps(q))
    {
      AddFind(s.tree, level, s1.tree, d, e, 0, Comps(q));
    }
    TargetIs(s.tree, path);
    NewlyFound(s.tree, s1.tree, d, e, Comps(path));
  }

  lemma NextFree(ibits: seq<bool>)
    ensures NextNumber(ibits) >= 0 ==> NextNumber(ibits) < |ibits| && !ibits[NextNumber(ibits)]
  {
  }

  lemma TargetIs(t: Tree, path: string)
    requires Usable(path) && Target(t, path).Ok?
    ensures !RootPathName(path) && Comps(path) != [] && Find(t, 0, Comps(path)) == Missing(Target(t, path).value.0, 1)
    ensures Target(t, path).value.1 == Comps(path)[|Comps(path)| - 1]
  {
    hide Comps, Find, Short;
  }

  lemma NewlyFound(t: Tree, t1: Tree, d: nat, e: Entry, cs: seq<string>)
    requires cs != [] && FoundAfterAdd(t, t1, d, e, 0, cs) && Find(t, 0, cs) == Missing(d, 1)
    requires e.name == cs[|cs| - 1]
    ensures Find(t1, 0, cs) == Found(d, e.no, e.ftype)
  {
    hide Find;
  }

  /** After `sys_open` with O_CREAT where the tests allow it, the path leads to a regular file with the first free
      number, whose bit is set; no other path leads elsewhere than before. Otherwise nothing changes. */
  lemma CreateEffect(s: State, op: TreeRuns.Op, s1: State)
    requires Sound(s) && TreeRuns.Step(s, op, s1) && op.Create?
    ensures match Target(s.tree, op.path)
      case Ok((d, name)) =>
        && NextNumber(s.ibits) >= 0
        && Created(s, s1, op.path, d, Entry(name, NextNumber(s.ibits), REGULAR))
      case _ => s1 == s
  {
    hide Inv, Target, SlotAdded, NextNumber, Created, Usable;
    var level :| Inv(s, level);
    if Target(s.tree, op.path).Ok? {
      var (d, name) := Target(s.tree, op.path).value;
      assert OthersSame(s.tree, s1.tree, d);
      AddEffect(s, level, s1, op.path, Entry(name, NextNumber(s.ibits), REGULAR));
    }
  }

  /** After `sys_mkdir` the path leads to a directory, which is empty and whose ".." leads to the directory it was made
      in. */
  lemma MakeDirEffect(s: State, op: TreeRuns.Op, s1: State)
    requires Sound(s) && TreeRuns.Step(s, op, s1) && op.MakeDir?
    ensures match Target(s.tree, op.path)
      case Ok((d, name)) =>
        var no := NextNumber(s.ibits);
        && no >= 0 && Created(s, s1, op.path, d, Entry(name, no, DIRECTORY))
        && EmptyDir(s1.tree, no)
        && Find(s1.tree, no, [".."]) == Found(no, d, DIRECTORY) && Find(s1.tree, no, ["."]) == Found(no, no, DIRECTORY)
      case _ => s1 == s
  {
    hide Inv, Target, SlotAdded, NextNumber, Created, Usable, NewDir, Find;
    var level :| Inv(s, level);
    if Target(s.tree, op.path).Ok? {
      var (d, name) := Target(s.tree, op.path).value;
      var no := NextNumber(s.ibits);
      NumberUnlisted(s, level);
      assert OthersSame(s.tree, s1.tree, d);
      AddEffect(s, level, s1, op.path, Entry(name, no, DIRECTORY));
      NewDirFinds(s1.tree, no, d);
    }
  }

  lemma NumberUnlisted(s: State, level: map<nat, nat>)
    requires Inv(s, level) && NextNumber(s.ibits) >= 0
    ensures NextNumber(s.ibits) !in s.tree
  {
    hide TreeOk, NextNumber;
    NumberFree(s);
  }

  lemma NewDirFinds(t: Tree, no: nat, d: nat)
    requires no in t && |t[no]| >= 2 && t[no] == NewDir(no, d, |t[no]| - 2)
    ensures EmptyDir(t, no)
    ensures Find(t, no, [".."]) == Found(no, d, DIRECTORY) && Find(t, no, ["."]) == Found(no, no, DIRECTORY)
  {
    NamedAt(t[no], ".", 0);
    NamedAt(t[no], "..", 1);
    hide SlotNamed, NewDir;
  }

  // ---------------------------------------------------------------- after a removal

  /** Clearing the entry with the number takes its name away, and leads no other name elsewhere. */
  lemma RemovedName(t: Tree, level: map<nat, nat>, d: nat, no: nat, ftype: nat, c: string)
    requires TreeOk(t, level) && CanRemove(t, d, no, ftype) && IsName(c)
    ensures var f := t[d]; var f1 := Without(f, no); var i := SlotNamed(f, c);
      && |f1| == |f|
      && (2 <= i < |f| && f[i].no == no && Live(f[i]) ==> SlotNamed(f1, c) == |f|)
      && (i == |f| ==> SlotNamed(f1, c) == |f|)
      && (i < |f| && !(2 <= i && f[i].no == no && Live(f[i])) ==> SlotNamed(f1, c) == i && f1[i] == f[i])
  {
    hide WellFormed, OnceListed, FirstMatch, Doubled, SlotNamed;
    RemovedSlots(t, level, d, no, ftype);
    Fine(t, level, d);
    var f, f1, i, x := t[d], Without(t[d], no), SlotNamed(t[d], c), FirstMatch(t[d], 0, no);
    assert f1[x].name == "";
    if i == |f| {
      NotNamed(f1, c);
    } else if 2 <= i && f[i].no == no && Live(f[i]) {
      assert Lists(t, d, i, no);
      forall k | 0 <= k < |f| ensures f1[k].name != c {
        if f[k].name == c { SameEntry(f, i, k); OnlyListed(t, d, no, x, k); }
      }
      NotNamed(f1, c);
    } else {
      assert Lists(t, d, x, no) && i != x;
      NamedAt(f1, c, i);
    }
  }

  lemma SameEntry(f: seq<Entry>, i: nat, k: nat)
    requires NamesAgree(f) && i < |f| && k < |f| && f[i].name == f[k].name
    ensures f[i] == f[k]
  {
  }

  /** A slot with the same live entry is the one that was cleared. */
  lemma OnlyListed(t: Tree, d: nat, no: nat, x: nat, k: nat)
    requires d in t && 2 <= x < |t[d]| && k < |t[d]| && Live(t[d][k]) && t[d][k].no == no && !Dots(t[d][k])
    requires Dots(t[d][0]) && Dots(t[d][1])
    requires forall y, j: nat :: Lists(t, y, j, no) ==> y == d && j == x
    ensures k == x
  {
    assert 2 <= k;
    assert Lists(t, d, k, no);
  }

  /** A component leads to the number only by the entry that is removed. */
  lemma LeadsToRemoved(t: Tree, level: map<nat, nat>, d: nat, no: nat, ftype: nat, x: nat, c: string)
    requires TreeOk(t, level) && CanRemove(t, d, no, ftype) && x in t && IsName(c) && x != no
    requires if ftype == DIRECTORY then EmptyDir(t, no) else no !in t
    ensures var i := SlotNamed(t[x], c);
      i < |t[x]| ==> (t[x][i].no == no <==> x == d && 2 <= i && t[x][i].no == no && Live(t[x][i]))
  {
    hide WellFormed, OnceListed, FirstMatch, Doubled, SlotNamed, EmptyDir;
    RemovedSlots(t, level, d, no, ftype);
    Removable(t, level, d, no, ftype);
    ComponentLeads(t, level, x, c);
    Fine(t, level, x);
    RootParent(t, level);
    if x != 0 { ParentNotEmpty(t, level, x); }
    var i := SlotNamed(t[x], c);
    if 2 <= i < |t[x]| && t[x][i].no == no {
      assert SlotFine(t, x, t[x][i]);
      NamedLive(t, x, i);
      assert Lists(t, x, i, no);
    }
  }

  lemma NamedLive(t: Tree, x: nat, i: nat)
    requires x in t && i < |t[x]| && SlotFine(t, x, t[x][i]) && t[x][i].name != ""
    ensures Live(t[x][i])
  {
  }

  /** The search goes through the directory with the number. */
  predicate Visits(t: Tree, x: nat, cs: seq<string>, no: nat)
    decreases |cs|
  {
    cs != [] && x in t &&
    var i := SlotNamed(t[x], cs[0]);
    i < |t[x]| && t[x][i].ftype == DIRECTORY && (t[x][i].no == no || Visits(t, t[x][i].no, cs[1..], no))
  }

  /** The tree without the entry, and for a directory without the directory itself. */
  ghost predicate CutOut(t: Tree, t1: Tree, d: nat, no: nat, ftype: nat)
    requires d in t && FirstMatch(t[d], 0, no) < |t[d]|
  {
    && t1.Keys == (if ftype == DIRECTORY then t.Keys - {no} else t.Keys)
    && forall x :: x in t1 ==> t1[x] == if x == d then Without(t[d], no) else t[x]
  }

  /** Where a search leads after the removal: nowhere if it led to the number or through it, and else where it led. */
  ghost predicate FoundAfterCut(t: Tree, t1: Tree, no: nat, x: nat, cs: seq<string>)
    requires cs != []
  {
    if Visits(t, x, cs, no) || (Find(t, x, cs).Found? && Find(t, x, cs).no == no)
    then Find(t1, x, cs).Missing?
    else Find(t1, x, cs) == Find(t, x, cs)
  }

  lemma VisitOne(t: Tree, x: nat, cs: seq<string>, no: nat)
    requires cs != [] && x in t
    ensures var i := SlotNamed(t[x], cs[0]);
      Visits(t, x, cs, no) <==>
        i < |t[x]| && t[x][i].ftype == DIRECTORY && (t[x][i].no == no || Visits(t, t[x][i].no, cs[1..], no))
  {
    hide SlotNamed;
  }

  lemma NoVisit(t: Tree, x: nat, no: nat)
    ensures !Visits(t, x, [], no)
  {
  }

  lemma {:induction false} CutFind(t: Tree, level: map<nat, nat>, t1: Tree, d: nat, no: nat, ftype: nat, x: nat,
      cs: seq<string>)
    requires TreeOk(t, level) && CanRemove(t, d, no, ftype) && CutOut(t, t1, d, no, ftype)
    requires x in t && x != no && cs != [] && Names(cs)
    requires if ftype == DIRECTORY then EmptyDir(t, no) else no !in t
    ensures FoundAfterCut(t, t1, no, x, cs)
    decreases |cs|
  {
    hide TreeOk, SlotNamed, CanRemove, IsName, Without, EmptyDir, Find, Visits, SearchFrom;
    var c := cs[0];
    CutNames(t, level, t1, d, no, ftype, x, c);
    SearchOne(t, x, cs);
    SearchOne(t1, x, cs);
    VisitOne(t, x, cs, no);
    var i := SlotNamed(t[x], c);
    if i < |t[x]| && t[x][i].ftype == DIRECTORY && t[x][i].no != no {
      if |cs| > 1 {
        DirThere(t, level, x, c);
        CutFind(t, level, t1, d, no, ftype, t[x][i].no, cs[1..]);
      } else {
        assert cs[1..] == [];
        NoVisit(t, t[x][i].no, no);
      }
    }
  }

  lemma DirThere(t: Tree, level: map<nat, nat>, x: nat, c: string)
    requires TreeOk(t, level) && x in t && IsName(c)
    ensures var i := SlotNamed(t[x], c); i < |t[x]| && t[x][i].ftype == DIRECTORY ==> t[x][i].no in t
  {
    hide WellFormed, SlotNamed, OnceListed;
    ComponentLeads(t, level, x, c);
  }

  /** One component before and after the removal. */
  lemma CutNames(t: Tree, level: map<nat, nat>, t1: Tree, d: nat, no: nat, ftype: nat, x: nat, c: string)
    requires TreeOk(t, level) && CanRemove(t, d, no, ftype) && CutOut(t, t1, d, no, ftype)
    requires x in t && x != no && IsName(c)
    requires if ftype == DIRECTORY then EmptyDir(t, no) else no !in t
    ensures x in t1
    ensures var i := SlotNamed(t[x], c);
      && (i == |t[x]| ==> SlotNamed(t1[x], c) == |t1[x]|)
      && (i < |t[x]| && t[x][i].no == no ==> SlotNamed(t1[x], c) == |t1[x]|)
      && (i < |t[x]| && t[x][i].no != no ==> SlotNamed(t1[x], c) == i && i < |t1[x]| && t1[x][i] == t[x][i])
  {
    hide TreeOk, SlotNamed, CanRemove, IsName, Without, EmptyDir;
    LeadsToRemoved(t, level, d, no, ftype, x, c);
    if x == d { RemovedName(t, level, d, no, ftype, c); }
  }

  /** The path leads nowhere, the number is free, and no path that had nothing to do with it leads elsewhere. */
  ghost predicate Gone(s: State, s1: State, path: string, no: nat)
    requires Usable(path)
  {
    && Lookup(s1.tree, path).Missing? && no < |s.ibits| && s1.ibits == s.ibits[no := false]
    && forall q :: Usable(q) && !RootPathName(q) && Comps(q) != [] ==> FoundAfterCut(s.tree, s1.tree, no, 0, Comps(q))
  }

  lemma CutEffect(s: State, level: map<nat, nat>, s1: State, path: string, d: nat, no: nat, ftype: nat)
    requires Inv(s, level) && Usable(path) && CanRemove(s.tree, d, no, ftype) && no < |s.ibits|
    requires Lookup(s.tree, path).Found? && Lookup(s.tree, path).no == no && no != 0
    requires if ftype == DIRECTORY then EmptyDir(s.tree, no) else no !in s.tree
    requires CutOut(s.tree, s1.tree, d, no, ftype) && s1.ibits == s.ibits[no := false]
    ensures Gone(s, s1, path, no)
  {
    hide TreeOk, BitsOk, CanRemove, EmptyDir, CutOut, Find, Comps, Short, Visits;
    RootIs(s.tree, level);
    forall q | Usable(q) && !RootPathName(q) && Comps(q) != []
      ensures FoundAfterCut(s.tree, s1.tree, no, 0, Comps(q))
    {
      CutFind(s.tree, level, s1.tree, d, no, ftype, 0, Comps(q));
    }
    PathComps(path);
  }

  lemma PathComps(path: string)
    requires Usable(path) && !RootPathName(path)
    ensures Comps(path) != []
  {
  }

  /** After `sys_unlink` of a regular file that is not open the path leads nowhere, the bit of the number is clear, and
      every path that did not lead to the file leads where it led. A file that is open, a directory and a path that
      leads nowhere change nothing. */
  lemma UnlinkEffect(s: State, op: TreeRuns.Op, s1: State)
    requires Sound(s) && TreeRuns.Step(s, op, s1) && op.Unlink?
    ensures match Lookup(s.tree, op.path)
      case Found(_, no, ftype) => if ftype == REGULAR && !op.busy then Gone(s, s1, op.path, no) else s1 == s
      case Missing(_, _) => s1 == s
  {
    hide TreeOk, BitsOk, Lookup, Doubled, FoundFine, Usable, Gone;
    var level :| Inv(s, level);
    LookupFine(s, level, op.path);
    match Lookup(s.tree, op.path)
    case Missing(_, _) =>
    case Found(d, no, ftype) =>
      if no != 0 {
        var c :| FoundFine(s.tree, d, no, ftype, c) && (ftype == DIRECTORY ==> c == LastComp(op.path));
        FoundParts(s.tree, d, no, ftype, c);
        if ftype == REGULAR && !op.busy {
          FileFound(s.tree, level, d, no, c, ftype);
          Removable(s.tree, level, d, no, REGULAR);
          CutEffect(s, level, s1, op.path, d, no, REGULAR);
        }
      }
  }

  /** After `sys_rmdir` of an empty directory by a path that does not end in "." the path leads nowhere, the bit of the
      number is clear, and every path that did not go through the directory leads where it led. A directory that is not
      empty, a file and a path that leads nowhere change nothing. */
  lemma RmdirEffect(s: State, op: TreeRuns.Op, s1: State)
    requires Sound(s) && TreeRuns.Step(s, op, s1) && op.Rmdir? && !DropsItself(s, op)
    ensures match Lookup(s.tree, op.path)
      case Found(_, no, ftype) =>
        if ftype == DIRECTORY && EmptyDir(s.tree, no) then Gone(s, s1, op.path, no) else s1 == s
      case Missing(_, _) => s1 == s
  {
    hide TreeOk, BitsOk, Lookup, Doubled, FoundFine, Usable, EmptyDir, LastComp, Gone;
    var level :| Inv(s, level);
    LookupFine(s, level, op.path);
    match Lookup(s.tree, op.path)
    case Missing(_, _) =>
    case Found(d, no, ftype) =>
      if no != 0 {
        var c :| FoundFine(s.tree, d, no, ftype, c) && (ftype == DIRECTORY ==> c == LastComp(op.path));
        FoundParts(s.tree, d, no, ftype, c);
        if ftype == DIRECTORY && EmptyDir(s.tree, no) {
          EntryFound(s.tree, level, d, no, c);
          CanBeFound(s.tree, d, no);
          CutEffect(s, level, s1, op.path, d, no, DIRECTORY);
        }
      }
  }

  lemma CanBeFound(t: Tree, d: nat, no: nat)
    requires CanRemove(t, d, no, DIRECTORY)
    ensures d in t && FirstMatch(t[d], 0, no) < |t[d]|
  {
  }

  // ---------------------------------------------------------------- when a call is answered

  /** What the assertions ask: not the root, no second entry in the block, and room for a new entry and its number. */
  predicate Answered(s: State, op: TreeRuns.Op)
    requires Usable(op.path)
  {
    match op
    case Create(path) => HasRoom(s, path)
    case MakeDir(path) => HasRoom(s, path)
    case Unlink(path, busy) =>
      (match Lookup(s.tree, path)
       case Found(d, no, ftype) => no != 0 && (ftype == DIRECTORY || busy || SingleEntry(s.tree, d, no))
       case Missing(_, _) => true)
    case Rmdir(path) =>
      (match Lookup(s.tree, path)
       case Found(d, no, ftype) =>
         no != 0 && (ftype == REGULAR || !EmptyDir(s.tree, no) || SingleEntry(s.tree, d, no))
       case Missing(_, _) => true)
  }

  predicate HasRoom(s: State, path: string)
    requires Usable(path)
  {
    match Target(s.tree, path)
    case Ok((d, _)) =>
      d in s.tree && FirstFree(s.tree[d], 0) < |s.tree[d]| && exists k :: 0 <= k < |s.ibits| && !s.ibits[k]
    case _ => true
  }

  predicate SingleEntry(t: Tree, d: nat, no: nat) { d in t ==> !Doubled(t[d], no) }

  /** From a sound state a call has an outcome exactly when it is answered. */
  lemma StepExists(s: State, op: TreeRuns.Op)
    requires Sound(s) && Usable(op.path)
    ensures (exists s1 :: TreeRuns.Step(s, op, s1)) <==> Answered(s, op)
  {
    hide Inv, Usable, Find, Lookup, Doubled;
    var level :| Inv(s, level);
    if Answered(s, op) {
      match op {
        case Create(path) => AdditionExists(s, level, op);
        case MakeDir(path) => AdditionExists(s, level, op);
        case Unlink(path, busy) => RemovalExists(s, level, op);
        case Rmdir(path) => RemovalExists(s, level, op);
      }
    }
    forall s1 | TreeRuns.Step(s, op, s1) ensures Answered(s, op) { StepAnswered(s, op, s1); }
  }

  lemma StepAnswered(s: State, op: TreeRuns.Op, s1: State)
    requires Usable(op.path) && TreeRuns.Step(s, op, s1)
    ensures Answered(s, op)
  {
    hide Usable, Find, Lookup, Doubled, EmptyDir, Target;
    NextFree(s.ibits);
  }

  lemma SomeNumber(ibits: seq<bool>)
    requires exists k :: 0 <= k < |ibits| && !ibits[k]
    ensures NextNumber(ibits) >= 0
  {
    hide Bitmaps.FirstRun;
    var k :| 0 <= k < |ibits| && !ibits[k];
    assert Bitmaps.ClearRun(ibits, k, 1);
  }

  lemma AdditionExists(s: State, level: map<nat, nat>, op: TreeRuns.Op)
    requires Inv(s, level) && Usable(op.path) && (op.Create? || op.MakeDir?) && Answered(s, op)
    ensures exists s1 :: TreeRuns.Step(s, op, s1)
  {
    hide Usable, Find, Lookup, FirstFree, NextNumber, Target, TreeOk, BitsOk, NewDir;
    if Target(s.tree, op.path).Ok? {
      var (d, name) := Target(s.tree, op.path).value;
      SomeNumber(s.ibits);
      NumberUnlisted(s, level);
      var no := NextNumber(s.ibits);
      NextFree(s.ibits);
      var f, i := s.tree[d], FirstFree(s.tree[d], 0);
      var e := Entry(name, no, if op.Create? then REGULAR else DIRECTORY);
      var t1 := s.tree[d := f[i := e]];
      var s1 := State(if op.Create? then t1 else t1[no := NewDir(no, d, 0)], s.ibits[no := true]);
      assert SlotAdded(f, e, f[i := e]);
      assert TreeRuns.Step(s, op, s1);
    } else {
      assert TreeRuns.Step(s, op, s);
    }
  }

  lemma RemovalExists(s: State, level: map<nat, nat>, op: TreeRuns.Op)
    requires Inv(s, level) && Usable(op.path) && (op.Unlink? || op.Rmdir?) && Answered(s, op)
    ensures exists s1 :: TreeRuns.Step(s, op, s1)
  {
    hide Usable, Lookup, Doubled, TreeOk, BitsOk, EmptyDir, FoundFine, Deletion;
    LookupFine(s, level, op.path);
    match Lookup(s.tree, op.path)
    case Missing(_, _) => assert TreeRuns.Step(s, op, s);
    case Found(d, no, ftype) =>
      var c :| FoundFine(s.tree, d, no, ftype, c) && (ftype == DIRECTORY ==> c == LastComp(op.path));
      FoundParts(s.tree, d, no, ftype, c);
      var kept := if op.Unlink? then ftype == DIRECTORY || op.busy else ftype == REGULAR || !EmptyDir(s.tree, no);
      if kept {
        assert TreeRuns.Step(s, op, s);
      } else {
        FoundUsed(s, level, d, no, ftype, c);
        var t1 := Deletion(s.tree, d, no);
        assert TreeRuns.Step(s, op, State(if op.Unlink? then t1 else t1 - {no}, s.ibits[no := false]));
      }
  }

  lemma FoundUsed(s: State, level: map<nat, nat>, d: nat, no: nat, ftype: nat, c: string)
    requires Inv(s, level) && FoundFine(s.tree, d, no, ftype, c)
    ensures no < |s.ibits|
  {
    hide WellFormed, OnceListed;
    var i := SlotNamed(s.tree[d], c);
    if no !in s.tree { assert Lists(s.tree, d, i, no); }
    assert Used(s.tree, no);
  }

  // ---------------------------------------------------------------- where something can be created

  /** The last component is missing in a directory to which all the others lead. */
  ghost predicate LastMissing(t: Tree, cs: seq<string>, d: nat) {
    && cs != [] && DirsOnly(t, 0, cs[..|cs| - 1]) && SearchFrom(t, 0, cs[..|cs| - 1]) == Ok(d)
    && d in t && SlotNamed(t[d], cs[|cs| - 1]) == |t[d]|
  }

  lemma {:induction false} MissingLast(t: Tree, x: nat, cs: seq<string>, d: nat)
    requires cs != [] && x in t
    ensures Find(t, x, cs) == Missing(d, 1) && d in t <==>
      && DirsOnly(t, x, cs[..|cs| - 1]) && SearchFrom(t, x, cs[..|cs| - 1]) == Ok(d)
      && d in t && SlotNamed(t[d], cs[|cs| - 1]) == |t[d]|
    decreases |cs|
  {
    hide SlotNamed;
    SearchOne(t, x, cs);
    if |cs| == 1 {
      assert cs[..0] == [];
    } else {
      var a := cs[..|cs| - 1];
      assert a[0] == cs[0] && a[1..] == cs[1..][..|cs| - 2] && cs[1..][|cs| - 2] == cs[|cs| - 1];
      var i := SlotNamed(t[x], cs[0]);
      if i < |t[x]| && t[x][i].ftype == DIRECTORY {
        var y := t[x][i].no;
        if y in t {
          MissingLast(t, y, cs[1..], d);
        } else {
          assert Find(t, y, cs[1..]) == Missing(y, |cs| - 1);
          if d in t { OutOfTree(t, y, a[1..], d); }
        }
      }
    }
  }

  lemma OutOfTree(t: Tree, y: nat, cs: seq<string>, d: nat)
    requires y !in t && d in t
    ensures SearchFrom(t, y, cs) != Ok(d)
  {
  }

  /** A call that creates is let through exactly when the path ends in a name and that name is what is missing: in the
      directory to which the other components lead, and under that name, it is created. */
  lemma TargetExact(s: State, path: string, d: nat, name: string)
    requires Sound(s) && Usable(path)
    ensures Target(s.tree, path) == Ok((d, name)) <==>
      !RootPathName(path) && EndsInName(path) && LastMissing(s.tree, Comps(path), d) && name == LastComp(path)
  {
    hide WellFormed, OnceListed, BitsOk, Find, Comps, Short, EndsInName, SearchFrom, DirsOnly;
    var level :| Inv(s, level);
    RootIs(s.tree, level);
    if !RootPathName(path) {
      PathComps(path);
      MissingLast(s.tree, 0, Comps(path), d);
      LookupFinds(s.tree, level, path);
    }
  }
}
