/** What adding and removing an entry does to the directory tree: the slots change as `sync_dir_entry` and
    `delete_dir_entry` change them. */
module TreeEdits {
  import opened Outcomes
  import opened Directories
  import opened Paths
  import opened Trees

  datatype Edit =
    | AddFile(d: nat, name: string, no: nat)
    | AddDir(d: nat, name: string, no: nat)
    | RemoveFile(d: nat, no: nat)
    | RemoveDir(d: nat, no: nat)

  /** Slot `i` of directory `d`, behind the dots, is live and has the number. */
  predicate Lists(t: Tree, d: nat, i: nat, no: nat) {
    d in t && 2 <= i < |t[d]| && Live(t[d][i]) && t[d][i].no == no
  }

  /** A number is listed in one directory only, and there more than once only where one insertion wrote it twice. */
  ghost predicate OnceListed(t: Tree) {
    forall d, e, i: nat, j: nat, no :: Lists(t, d, i, no) && Lists(t, e, j, no) ==>
      d == e && t[d][i] == t[e][j] && BlockOf(i) == BlockOf(j)
  }

  ghost predicate TreeOk(t: Tree, level: map<nat, nat>) { WellFormed(t, level) && OnceListed(t) }

  /** The number is that of a directory or is listed in one. */
  ghost predicate Used(t: Tree, no: nat) { no in t || exists d, i: nat :: Lists(t, d, i, no) }

  ghost predicate Unused(t: Tree, no: nat) { no < 4096 && !Used(t, no) }

  /** What an insertion does to the slots: the first free one, and the one after it in a new block. */
  predicate SlotAdded(f: seq<Entry>, e: Entry, f1: seq<Entry>) {
    var i := FirstFree(f, 0);
    && i < |f|
    && (|| f1 == f[i := e]
        || (i + 1 < |f| && !Live(f[i + 1]) && BlockOf(i + 1) == BlockOf(i) && f1 == f[i := e][i + 1 := e]))
  }

  /** `sync_dir_entry` adds a slot in this sense, and `delete_dir_entry` clears the first match. */
  lemma InsertedAdds(d: Dir, e: Entry, d1: Dir)
    requires Shaped(d) && Inserted(d, e, d1)
    ensures SlotAdded(Flat(d), e, Flat(d1))
  {
    var i := FirstFree(Flat(d), 0);
    if d.sectors[BlockOf(i)] == 0 {
      NextSlot(i);
      AbsentFree(d, i + 1);
    }
  }

  /** The directory that `sys_mkdir` writes, with `n` free slots. */
  function NewDir(no: nat, parent: nat, n: nat): (f: seq<Entry>)
    ensures |f| == n + 2 && forall i :: 2 <= i < |f| ==> f[i] == EMPTY
  {
    [Entry(".", no, DIRECTORY), Entry("..", parent, DIRECTORY)] + seq(n, _ => EMPTY)
  }

  /** The name, a component of the path, is not found in the directory, and the number was free in the bitmap. */
  ghost predicate CanAdd(t: Tree, d: nat, name: string, no: nat) {
    d in t && IsName(name) && |name| < 16 && SlotNamed(t[d], name) == |t[d]| && Unused(t, no)
  }

  /** The entry is found and, as no assertion fails, is alone in its block. */
  predicate CanRemove(t: Tree, d: nat, no: nat, ftype: nat) {
    d in t && var i := FirstMatch(t[d], 0, no); i < |t[d]| && t[d][i].ftype == ftype && !Doubled(t[d], no)
  }

  function Without(f: seq<Entry>, no: nat): (f1: seq<Entry>)
    requires FirstMatch(f, 0, no) < |f|
    ensures |f1| == |f|
  {
    f[FirstMatch(f, 0, no) := EMPTY]
  }

  ghost predicate Edited(t: Tree, op: Edit, t1: Tree) {
    match op
    case AddFile(d, name, no) =>
      && CanAdd(t, d, name, no) && d in t1 && t1 == t[d := t1[d]]
      && SlotAdded(t[d], Entry(name, no, REGULAR), t1[d])
    case AddDir(d, name, no) =>
      && CanAdd(t, d, name, no) && d in t1 && no in t1 && t1 == t[d := t1[d]][no := t1[no]]
      && SlotAdded(t[d], Entry(name, no, DIRECTORY), t1[d])
      && |t1[no]| >= 2 && t1[no] == NewDir(no, d, |t1[no]| - 2)
    case RemoveFile(d, no) =>
      CanRemove(t, d, no, REGULAR) && t1 == t[d := Without(t[d], no)]
    case RemoveDir(d, no) =>
      // an empty directory, by `dir_is_empty`
      && CanRemove(t, d, no, DIRECTORY) && no in t && (forall i :: 2 <= i < |t[no]| ==> !Live(t[no][i]))
      && t1 == t[d := Without(t[d], no)] - {no}
  }

  // ---------------------------------------------------------------- adding

  /** The slots after an insertion. */
  lemma {:induction false} AddedSlots(f: seq<Entry>, e: Entry, f1: seq<Entry>)
    requires SlotAdded(f, e, f1) && |f| >= 2 && Live(f[0]) && Live(f[1]) && Live(e)
    ensures |f1| == |f| && f1[0] == f[0] && f1[1] == f[1]
    ensures var i := FirstFree(f, 0); 2 <= i < |f| && f1[i] == e && forall j :: 0 <= j < |f| ==>
      f1[j] == f[j] || (f1[j] == e && !Live(f[j]) && 2 <= j && BlockOf(j) == BlockOf(i))
  {
    hide BlockOf, FirstFree;
  }

  lemma KeepSlot(t: Tree, t1: Tree, x: nat, s: Entry)
    requires SlotFine(t, x, s)
    requires s.ftype == REGULAR ==> s.no !in t1
    requires s.ftype == DIRECTORY ==> s.no in t1 && |t1[s.no]| >= 2 && t1[s.no][1] == t[s.no][1]
    ensures SlotFine(t1, x, s)
  {
  }

  lemma Fine(t: Tree, level: map<nat, nat>, x: nat)
    requires WellFormed(t, level) && x in t
    ensures DirFine(t, x)
  {
  }

  /** Every directory keeps its parent, and only `no` may be new. */
  ghost predicate Grown(t: Tree, t1: Tree, no: nat) {
    && t.Keys <= t1.Keys <= t.Keys + {no}
    && forall x :: x in t ==> |t1[x]| >= 2 && |t[x]| >= 2 && t1[x][1] == t[x][1]
  }

  /** A directory that is not the target of the insertion. */
  lemma OtherDir(t: Tree, level: map<nat, nat>, t1: Tree, no: nat, x: nat)
    requires WellFormed(t, level) && Unused(t, no) && Grown(t, t1, no) && x in t && t1[x] == t[x]
    ensures DirFine(t1, x)
  {
    hide WellFormed;
    Fine(t, level, x);
    forall i | 2 <= i < |t[x]| ensures SlotFine(t1, x, t[x][i]) {
      assert SlotFine(t, x, t[x][i]) && (Live(t[x][i]) ==> Lists(t, x, i, t[x][i].no));
      KeepSlot(t, t1, x, t[x][i]);
    }
  }

  /** The directory that gets the entry. */
  lemma TargetDir(t: Tree, level: map<nat, nat>, t1: Tree, d: nat, e: Entry)
    requires WellFormed(t, level) && CanAdd(t, d, e.name, e.no) && Grown(t, t1, e.no)
    requires SlotAdded(t[d], e, t1[d]) && e.ftype in {REGULAR, DIRECTORY}
    requires e.ftype == REGULAR ==> e.no !in t1
    requires e.ftype == DIRECTORY ==> e.no in t1 && |t1[e.no]| >= 2 && t1[e.no][1].no == d
    ensures DirFine(t1, d)
  {
    hide WellFormed, SlotAdded, FirstFree;
    Fine(t, level, d);
    var f, f1 := t[d], t1[d];
    AddedSlots(f, e, f1);
    NewName(t, level, d, e);
    forall i | 2 <= i < |f1| ensures SlotFine(t1, d, f1[i]) {
      if f1[i] == f[i] {
        assert SlotFine(t, d, f[i]) && (Live(f[i]) ==> Lists(t, d, i, f[i].no));
        KeepSlot(t, t1, d, f[i]);
      }
    }
  }

  /** A name that the search does not find is not a dot, and no slot has it. */
  lemma NewName(t: Tree, level: map<nat, nat>, d: nat, e: Entry)
    requires WellFormed(t, level) && CanAdd(t, d, e.name, e.no)
    ensures !Dots(e) && e.no != 0 && forall i :: 0 <= i < |t[d]| ==> t[d][i].name != e.name
  {
    assert DirFine(t, d);
    assert t[d][0].name != e.name && t[d][1].name != e.name;
  }

  /** Every directory but the new one is still listed by its parent. */
  lemma StillListed(t: Tree, level: map<nat, nat>, t1: Tree, d: nat, e: Entry, x: nat)
    requires WellFormed(t, level) && d in t && d in t1 && SlotAdded(t[d], e, t1[d]) && Live(e) && x in t && x != 0
    requires |t[x]| >= 2 && Parent(t, x) in t && ListedBy(t[Parent(t, x)], x)
    requires forall y :: y in t && y != d ==> y in t1 && t1[y] == t[y]
    ensures ListedBy(t1[Parent(t, x)], x)
  {
    hide WellFormed, SlotAdded, FirstFree;
    Fine(t, level, d);
    Fine(t, level, Parent(t, x));
    AddedSlots(t[d], e, t1[d]);
    var p := Parent(t, x);
    var i :| 2 <= i < |t[p]| && t[p][i].no == x;
    assert SlotFine(t, p, t[p][i]);
    assert t1[p][i].no == x;
  }

  /** Where a number is listed after an insertion. */
  lemma AddedLists(t: Tree, level: map<nat, nat>, t1: Tree, d: nat, e: Entry)
    requires TreeOk(t, level) && CanAdd(t, d, e.name, e.no) && d in t1 && SlotAdded(t[d], e, t1[d]) && Live(e)
    requires (forall y :: y in t && y != d ==> y in t1 && t1[y] == t[y])
    requires forall y, i: nat, no :: y in t1 && y !in t ==> !Lists(t1, y, i, no)
    ensures OnceListed(t1)
  {
    hide WellFormed, SlotAdded, FirstFree, BlockOf;
    Fine(t, level, d);
    AddedSlots(t[d], e, t1[d]);
    var k := FirstFree(t[d], 0);
    forall x, i: nat, no | Lists(t1, x, i, no)
      ensures no != e.no ==> Lists(t, x, i, no) && t[x][i] == t1[x][i]
      ensures no == e.no ==> x == d && t1[x][i] == e && BlockOf(i) == BlockOf(k)
    {
      if x == d && t1[d][i] == t[d][i] { assert Lists(t, d, i, no); }
      if x != d { assert Lists(t, x, i, no); }
    }
    forall x, y, i: nat, j: nat, no | Lists(t1, x, i, no) && Lists(t1, y, j, no)
      ensures x == y && t1[x][i] == t1[y][j] && BlockOf(i) == BlockOf(j)
    {
      if no != e.no { assert Lists(t, x, i, no) && Lists(t, y, j, no); }
    }
  }

  /** The levels after a step: a new directory is one below its parent. */
  ghost function LevelsAfter(level: map<nat, nat>, op: Edit): map<nat, nat> {
    match op
    case AddDir(d, _, no) => if d in level then level[no := level[d] + 1] else level
    case RemoveDir(_, no) => level - {no}
    case _ => level
  }

  lemma AddFileKeeps(t: Tree, level: map<nat, nat>, op: Edit, t1: Tree)
    requires TreeOk(t, level) && op.AddFile? && Edited(t, op, t1)
    ensures TreeOk(t1, level)
  {
    hide WellFormed, SlotAdded, FirstFree, DirFine, OnceListed, Unused;
    var d, e := op.d, Entry(op.name, op.no, REGULAR);
    SameKeys(t, level);
    AddGrows(t, level, t1, d, e);
    TargetDir(t, level, t1, d, e) by { UnusedNumber(t, op.no); }
    forall x | x in t1 ensures DirFine(t1, x) { if x != d { OtherDir(t, level, t1, op.no, x); } }
    AddedLists(t, level, t1, d, e);
    AddWellFormed(t, level, t1, level, d, e);
  }

  lemma UnusedNumber(t: Tree, no: nat)
    requires Unused(t, no)
    ensures no !in t && no < 4096
  {
  }

  lemma AddGrows(t: Tree, level: map<nat, nat>, t1: Tree, d: nat, e: Entry)
    requires WellFormed(t, level) && d in t && d in t1 && SlotAdded(t[d], e, t1[d]) && Live(e)
    requires t.Keys <= t1.Keys <= t.Keys + {e.no} && forall y :: y in t && y != d ==> t1[y] == t[y]
    ensures Grown(t, t1, e.no)
  {
    hide WellFormed, SlotAdded, FirstFree;
    forall x | x in t ensures |t1[x]| >= 2 && |t[x]| >= 2 && t1[x][1] == t[x][1] {
      Fine(t, level, x);
      if x == d { AddedSlots(t[d], e, t1[d]); }
    }
  }

  /** Every directory is listed by its parent, which is one level up. */
  ghost predicate Placed(t: Tree, level: map<nat, nat>, x: nat) {
    && x in t && |t[x]| >= 2 && x in level && Parent(t, x) in t && Parent(t, x) in level
    && level[x] == level[Parent(t, x)] + 1 && ListedBy(t[Parent(t, x)], x)
  }

  lemma FromParts(t: Tree, level: map<nat, nat>)
    requires 0 in t && t.Keys == level.Keys && level[0] == 0 && forall x :: x in t ==> DirFine(t, x)
    requires forall x :: x in t && x != 0 ==> Placed(t, level, x)
    requires |t[0]| >= 2 && Parent(t, 0) == 0
    ensures WellFormed(t, level)
  {
    hide DirFine, ListedBy;
    forall x | x in t ensures |t[x]| >= 2 { if x != 0 { assert Placed(t, level, x); } }
  }

  lemma Root(t: Tree, level: map<nat, nat>)
    requires WellFormed(t, level)
    ensures 0 in t && t.Keys == level.Keys && level[0] == 0 && |t[0]| >= 2 && Parent(t, 0) == 0
  {
    hide ListedBy, SlotFine, NamesAgree;
    assert DirFine(t, 0);
  }

  lemma AddWellFormed(t: Tree, level: map<nat, nat>, t1: Tree, level1: map<nat, nat>, d: nat, e: Entry)
    requires WellFormed(t, level) && d in t && d in t1 && SlotAdded(t[d], e, t1[d]) && Live(e)
    requires Grown(t, t1, e.no) && forall y :: y in t && y != d ==> t1[y] == t[y]
    requires (forall x :: x in t1 ==> DirFine(t1, x)) && level1.Keys == t1.Keys
    requires forall x :: x in t ==> x in level && level1[x] == level[x]
    requires forall x :: x in t1 && x !in t ==> x != 0 && Placed(t1, level1, x)
    ensures WellFormed(t1, level1)
  {
    hide SlotAdded, FirstFree, DirFine, ListedBy, WellFormed;
    Root(t, level);
    forall x | x in t1 && x != 0 ensures Placed(t1, level1, x) {
      if x in t {
        LevelUp(t, level, x);
        StillListed(t, level, t1, d, e, x);
      }
    }
    FromParts(t1, level1);
  }

  lemma AddDirKeeps(t: Tree, level: map<nat, nat>, op: Edit, t1: Tree)
    requires TreeOk(t, level) && op.AddDir? && Edited(t, op, t1)
    ensures TreeOk(t1, LevelsAfter(level, op))
  {
    hide WellFormed, SlotAdded, FirstFree, DirFine, OnceListed, Unused, ListedBy, NewDir;
    var d, no, e := op.d, op.no, Entry(op.name, op.no, DIRECTORY);
    UnusedNumber(t, no);
    SameKeys(t, level);
    AddGrows(t, level, t1, d, e);
    NewDirFine(t1, no, d);
    NewName(t, level, d, e);
    TargetDir(t, level, t1, d, e);
    forall x | x in t1 ensures DirFine(t1, x) { if x != d && x != no { OtherDir(t, level, t1, no, x); } }
    NewDirLists(t1, no, d);
    AddedLists(t, level, t1, d, e);
    NewListed(t, level, t1, d, e);
    AddWellFormed(t, level, t1, LevelsAfter(level, op), d, e);
  }

  lemma SameKeys(t: Tree, level: map<nat, nat>)
    requires WellFormed(t, level)
    ensures t.Keys == level.Keys
  {
  }

  lemma NewDirFine(t1: Tree, no: nat, d: nat)
    requires no in t1 && d in t1 && no < 4096 && |t1[no]| >= 2 && t1[no] == NewDir(no, d, |t1[no]| - 2)
    ensures DirFine(t1, no) && t1[no][1].no == d
  {
  }

  lemma NewDirLists(t1: Tree, no: nat, d: nat)
    requires no in t1 && |t1[no]| >= 2 && t1[no] == NewDir(no, d, |t1[no]| - 2)
    ensures forall i: nat, x :: !Lists(t1, no, i, x)
  {
  }

  lemma NewListed(t: Tree, level: map<nat, nat>, t1: Tree, d: nat, e: Entry)
    requires WellFormed(t, level) && d in t && d in t1 && SlotAdded(t[d], e, t1[d]) && Live(e)
    ensures ListedBy(t1[d], e.no)
  {
    hide WellFormed, SlotAdded, FirstFree;
    Fine(t, level, d);
    AddedSlots(t[d], e, t1[d]);
  }

  // ---------------------------------------------------------------- removing

  /** The slots after a deletion: only the matching one changes, and no other had the number. */
  lemma RemovedSlots(t: Tree, level: map<nat, nat>, d: nat, no: nat, ftype: nat)
    requires TreeOk(t, level) && CanRemove(t, d, no, ftype)
    ensures d in t && |t[d]| >= 2
    ensures var i := FirstMatch(t[d], 0, no);
      && 2 <= i < |t[d]| && Lists(t, d, i, no) && t[d][i].ftype == ftype
      && forall x, j: nat :: Lists(t, x, j, no) ==> x == d && j == i
  {
    hide WellFormed, BlockOf;
    Fine(t, level, d);
    var i := FirstMatch(t[d], 0, no);
    assert Lists(t, d, i, no);
    forall x, j: nat | Lists(t, x, j, no) ensures x == d && j == i {
      assert t[d][j] == t[d][i] && Matches(t[d][j], no);
    }
  }

  /** The target is what is left of a deletion: every directory but `no` is there, with its parent. */
  ghost predicate Cut(t: Tree, t1: Tree, d: nat, no: nat, gone: set<nat>) {
    && d in t && FirstMatch(t[d], 0, no) < |t[d]| && t1.Keys == t.Keys - gone && gone <= {no}
    && forall x :: x in t1 ==> t1[x] == if x == d then Without(t[d], no) else t[x]
  }

  lemma CutDir(t: Tree, level: map<nat, nat>, t1: Tree, d: nat, no: nat, ftype: nat, gone: set<nat>, x: nat)
    requires TreeOk(t, level) && CanRemove(t, d, no, ftype) && Cut(t, t1, d, no, gone) && x in t1
    requires Parent(t, x) in t1
    ensures DirFine(t1, x)
  {
    hide WellFormed, OnceListed, FirstMatch, Doubled;
    RemovedSlots(t, level, d, no, ftype);
    Fine(t, level, x);
    forall i | 2 <= i < |t1[x]| ensures SlotFine(t1, x, t1[x][i]) {
      var s := t[x][i];
      assert SlotFine(t, x, s);
      if t1[x][i] == s {
        assert Live(s) && s.no == no ==> Lists(t, x, i, no);
        if s.ftype == DIRECTORY { CutParent(t, level, t1, d, no, ftype, gone, s.no); }
        KeepSlot(t, t1, x, s);
      }
    }
  }

  lemma CutParent(t: Tree, level: map<nat, nat>, t1: Tree, d: nat, no: nat, ftype: nat, gone: set<nat>, x: nat)
    requires TreeOk(t, level) && CanRemove(t, d, no, ftype) && Cut(t, t1, d, no, gone) && x in t && x != no
    ensures x in t1 && |t1[x]| >= 2 && |t[x]| >= 2 && t1[x][1] == t[x][1]
  {
    hide WellFormed, OnceListed, FirstMatch, Doubled;
    RemovedSlots(t, level, d, no, ftype);
    Fine(t, level, x);
  }

  /** Where numbers are listed after a deletion. */
  lemma CutLists(t: Tree, level: map<nat, nat>, t1: Tree, d: nat, no: nat, gone: set<nat>)
    requires TreeOk(t, level) && Cut(t, t1, d, no, gone)
    ensures OnceListed(t1)
  {
    hide WellFormed, BlockOf, FirstMatch;
    forall x, i: nat, k | Lists(t1, x, i, k) ensures Lists(t, x, i, k) && t1[x][i] == t[x][i] {}
    forall x, y, i: nat, j: nat, k | Lists(t1, x, i, k) && Lists(t1, y, j, k)
      ensures x == y && t1[x][i] == t1[y][j] && BlockOf(i) == BlockOf(j)
    {
      assert Lists(t, x, i, k) && Lists(t, y, j, k);
    }
  }

  /** A directory that stays is still listed by its parent, which stays too. */
  lemma CutListed(t: Tree, level: map<nat, nat>, t1: Tree, d: nat, no: nat, ftype: nat, gone: set<nat>, x: nat)
    requires TreeOk(t, level) && CanRemove(t, d, no, ftype) && Cut(t, t1, d, no, gone) && x in t1 && x != 0
    requires x != no && (no in gone ==> no in t && forall i :: 2 <= i < |t[no]| ==> !Live(t[no][i]))
    ensures |t[x]| >= 2 && Parent(t, x) in t1 && ListedBy(t1[Parent(t, x)], x)
  {
    hide WellFormed, OnceListed, FirstMatch, Doubled;
    LevelUp(t, level, x);
    RemovedSlots(t, level, d, no, ftype);
    var p := Parent(t, x);
    Fine(t, level, p);
    var i :| 2 <= i < |t[p]| && t[p][i].no == x;
    assert SlotFine(t, p, t[p][i]) && Live(t[p][i]);
    assert t1[p][i] == t[p][i];
  }

  lemma CutKeeps(t: Tree, level: map<nat, nat>, t1: Tree, d: nat, no: nat, ftype: nat, gone: set<nat>)
    requires TreeOk(t, level) && CanRemove(t, d, no, ftype) && Cut(t, t1, d, no, gone)
    requires if ftype == DIRECTORY then gone == {no} else gone == {} && no !in t
    requires no in gone ==> no in t && forall i :: 2 <= i < |t[no]| ==> !Live(t[no][i])
    requires no != 0
    ensures TreeOk(t1, level - gone)
  {
    hide OnceListed, FirstMatch, Doubled, CanRemove, Cut, DirFine, ListedBy, Without, WellFormed;
    CutLists(t, level, t1, d, no, gone);
    Root(t, level);
    CutRoot(t, t1, d, no, gone);
    forall x | x in t1 ensures DirFine(t1, x) && (x != 0 ==> Placed(t1, level - gone, x)) {
      CutOne(t, level, t1, d, no, ftype, gone, x);
      if x != 0 { LevelUp(t, level, x); }
    }
    CutOne(t, level, t1, d, no, ftype, gone, 0);
    FromParts(t1, level - gone);
  }

  lemma CutRoot(t: Tree, t1: Tree, d: nat, no: nat, gone: set<nat>)
    requires Cut(t, t1, d, no, gone) && 0 in t && no != 0
    ensures 0 in t1 && t1.Keys == t.Keys - gone
  {
  }

  lemma CutOne(t: Tree, level: map<nat, nat>, t1: Tree, d: nat, no: nat, ftype: nat, gone: set<nat>, x: nat)
    requires TreeOk(t, level) && CanRemove(t, d, no, ftype) && Cut(t, t1, d, no, gone) && x in t1
    requires if ftype == DIRECTORY then gone == {no} else gone == {} && no !in t
    requires no in gone ==> no in t && forall i :: 2 <= i < |t[no]| ==> !Live(t[no][i])
    requires no != 0
    ensures x in t && |t[x]| >= 2 && |t1[x]| >= 2 && Parent(t1, x) == Parent(t, x) && Parent(t, x) in t1
    ensures DirFine(t1, x) && (x != 0 ==> ListedBy(t1[Parent(t, x)], x))
  {
    hide OnceListed, FirstMatch, Doubled, CanRemove, DirFine, ListedBy, Without;
    CutParent(t, level, t1, d, no, ftype, gone, x);
    if x != 0 { CutListed(t, level, t1, d, no, ftype, gone, x); }
    CutDir(t, level, t1, d, no, ftype, gone, x);
  }

  lemma Removable(t: Tree, level: map<nat, nat>, d: nat, no: nat, ftype: nat)
    requires TreeOk(t, level) && CanRemove(t, d, no, ftype)
    ensures no != 0 && (ftype == REGULAR ==> no !in t)
  {
    hide WellFormed;
    RemovedSlots(t, level, d, no, ftype);
    Fine(t, level, d);
    assert SlotFine(t, d, t[d][FirstMatch(t[d], 0, no)]);
  }

  /** Every creation and removal of a file or directory keeps the tree well formed, with every number in one place. */
  lemma EditKeeps(t: Tree, level: map<nat, nat>, op: Edit, t1: Tree)
    requires TreeOk(t, level) && Edited(t, op, t1)
    ensures TreeOk(t1, LevelsAfter(level, op))
  {
    hide TreeOk, Edited;
    match op
    case AddFile(_, _, _) => AddFileKeeps(t, level, op, t1);
    case AddDir(_, _, _) => AddDirKeeps(t, level, op, t1);
    case RemoveFile(_, _) => RemoveFileKeeps(t, level, op, t1);
    case RemoveDir(_, _) => RemoveDirKeeps(t, level, op, t1);
  }

  lemma RemoveFileKeeps(t: Tree, level: map<nat, nat>, op: Edit, t1: Tree)
    requires TreeOk(t, level) && op.RemoveFile? && Edited(t, op, t1)
    ensures TreeOk(t1, level)
  {
    hide WellFormed, OnceListed, FirstMatch, Doubled;
    Removable(t, level, op.d, op.no, REGULAR);
    CutKeeps(t, level, t1, op.d, op.no, REGULAR, {});
    assert level - {} == level;
  }

  lemma RemoveDirKeeps(t: Tree, level: map<nat, nat>, op: Edit, t1: Tree)
    requires TreeOk(t, level) && op.RemoveDir? && Edited(t, op, t1)
    ensures TreeOk(t1, level - {op.no})
  {
    hide WellFormed, OnceListed, FirstMatch, Doubled;
    Removable(t, level, op.d, op.no, DIRECTORY);
    CutKeeps(t, level, t1, op.d, op.no, DIRECTORY, {op.no});
  }

  // ---------------------------------------------------------------- numbers

  lemma AddUses(t: Tree, level: map<nat, nat>, op: Edit, t1: Tree, x: nat)
    requires TreeOk(t, level) && (op.AddFile? || op.AddDir?) && Edited(t, op, t1)
    ensures Used(t1, x) <==> Used(t, x) || x == op.no
  {
    hide WellFormed, OnceListed, SlotAdded, FirstFree, NewDir;
    var d, e := op.d, Entry(op.name, op.no, if op.AddFile? then REGULAR else DIRECTORY);
    Fine(t, level, d);
    AddedSlots(t[d], e, t1[d]);
    assert Lists(t1, d, FirstFree(t[d], 0), op.no);
    if op.AddDir? { NewDirLists(t1, op.no, d); }
    forall y, i: nat ensures Lists(t, y, i, x) ==> Lists(t1, y, i, x) { assert Unused(t, op.no); }
    forall y, i: nat ensures Lists(t1, y, i, x) && x != op.no ==> Lists(t, y, i, x) {}
  }

  lemma RemoveUses(t: Tree, level: map<nat, nat>, op: Edit, t1: Tree, x: nat)
    requires TreeOk(t, level) && (op.RemoveFile? || op.RemoveDir?) && Edited(t, op, t1)
    ensures Used(t1, x) <==> Used(t, x) && x != op.no
  {
    hide WellFormed, OnceListed, FirstMatch, Doubled;
    var ftype := if op.RemoveFile? then REGULAR else DIRECTORY;
    Removable(t, level, op.d, op.no, ftype);
    RemovedSlots(t, level, op.d, op.no, ftype);
    forall y, i: nat ensures Lists(t1, y, i, x) ==> Lists(t, y, i, x) && x != op.no {}
    forall y, i: nat ensures Lists(t, y, i, x) && x != op.no && y in t1 ==> Lists(t1, y, i, x) {}
    assert op.RemoveDir? ==> forall i: nat :: !Lists(t, op.no, i, x);
  }
}
