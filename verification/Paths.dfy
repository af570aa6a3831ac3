/** Path strings: `path_parse`, `path_depth_cnt` and the washing of paths, against lists of components. Strings do
    not contain the terminating zero. */
module Paths {
  import opened Outcomes

  // ---------------------------------------------------------------- components

  /** Length of the part of `p` before its first slash. */
  function NameLen(p: string): (n: nat)
    ensures n <= |p| && (n < |p| ==> p[n] == '/') && forall i :: 0 <= i < n ==> p[i] != '/'
  {
    if p == "" || p[0] == '/' then 0 else 1 + NameLen(p[1..])
  }

  /** The non-empty parts between slashes. */
  function Comps(p: string): (cs: seq<string>)
    ensures forall k :: 0 <= k < |cs| ==> IsName(cs[k])
    decreases |p|
  {
    if p == "" then []
    else if p[0] == '/' then Comps(p[1..])
    else var n := NameLen(p); [p[..n]] + Comps(p[n..])
  }

  predicate IsName(c: string) { c != "" && '/' !in c }

  /** Names are copied into 16-byte buffers, with room for the terminating zero. */
  predicate Short(p: string) { forall k :: 0 <= k < |Comps(p)| ==> |Comps(p)[k]| < 16 }

  predicate Names(cs: seq<string>) { forall k :: 0 <= k < |cs| ==> IsName(cs[k]) }

  predicate NoDots(cs: seq<string>) { forall k :: 0 <= k < |cs| ==> cs[k] != "." && cs[k] != ".." }

  /** Going through the components from the directory `stack`. */
  function Walk(stack: seq<string>, cs: seq<string>): seq<string>
    decreases |cs|
  {
    if cs == [] then stack else Walk(Enter(stack, cs[0]), cs[1..])
  }

  function Enter(stack: seq<string>, c: string): seq<string> {
    if c == ".." then (if stack == [] then [] else stack[..|stack| - 1])
    else if c == "." then stack
    else stack + [c]
  }

  function Joined(cs: seq<string>): string {
    if cs == [] then "" else Joined(cs[..|cs| - 1]) + "/" + cs[|cs| - 1]
  }

  /** The absolute path of a list of names. */
  function Render(cs: seq<string>): string { if cs == [] then "/" else Joined(cs) }

  /** What the washing of a path should give. */
  function Wash(p: string): string { Render(Walk([], Comps(p))) }

  // ---------------------------------------------------------------- parsing

  function SkipSlashes(p: string): (r: string)
    ensures |r| <= |p| && (r != "" ==> r[0] != '/')
    ensures p != "" && p[0] == '/' ==> |r| < |p|
  {
    if p != "" && p[0] == '/' then SkipSlashes(p[1..]) else p
  }

  lemma {:induction false} CompsSkip(p: string)
    ensures Comps(SkipSlashes(p)) == Comps(p)
  {
    if p != "" && p[0] == '/' { CompsSkip(p[1..]); }
  }

  datatype Parsed = Parsed(name: string, rest: Outcome<string>)

  /** The first component, and the rest of the path from the slash after it (`Null` at the end). */
  function Parse(p: string): (r: Parsed)
    ensures r.rest.Ok? ==> |r.rest.value| < |p|
  {
    var q := SkipSlashes(p);
    var n := NameLen(q);
    Parsed(q[..n], if n == |q| then Null else Ok(q[n..]))
  }

  /** `path_parse`. */
  method PathParse(path: string) returns (name: string, rest: Outcome<string>)
    requires Short(path)
    ensures Parsed(name, rest) == Parse(path)
  {
    hide SkipSlashes, NameLen;
    var i := 0;
    if path != "" && path[0] == '/' {
      i := 1;
      while i < |path| && path[i] == '/'
        invariant 1 <= i <= |path| && forall k :: 0 <= k < i ==> path[k] == '/'
      {
        i := i + 1;
      }
    }
    SkipIs(path, i);
    ghost var start := i;
    name := "";
    while i < |path| && path[i] != '/'
      invariant start <= i <= |path| && name == path[start..i] && forall k :: start <= k < i ==> path[k] != '/'
    {
      name := name + [path[i]];
      i := i + 1;
    }
    NameIs(path[start..], i - start);
    rest := if i == |path| then Null else Ok(path[i..]);
  }

  lemma {:induction false} SkipIs(p: string, i: nat)
    requires i <= |p| && (forall k :: 0 <= k < i ==> p[k] == '/') && (i < |p| ==> p[i] != '/')
    ensures SkipSlashes(p) == p[i..]
  {
    if i > 0 {
      SkipIs(p[1..], i - 1);
      assert p[1..][i - 1..] == p[i..];
    }
  }

  lemma {:induction false} NameIs(p: string, n: nat)
    requires n <= |p| && (forall k :: 0 <= k < n ==> p[k] != '/') && (n < |p| ==> p[n] == '/')
    ensures NameLen(p) == n
  {
    if n > 0 { NameIs(p[1..], n - 1); }
  }

  /** Parsing takes the first component off the list. */
  lemma {:induction false} ParseComps(p: string)
    ensures var r := Parse(p);
      && (r.name == "" <==> Comps(p) == []) && (r.name == "" ==> r.rest.Null?)
      && (r.name != "" ==> Comps(p) == [r.name] + if r.rest.Ok? then Comps(r.rest.value) else [])
  {
    CompsSkip(p);
    var q := SkipSlashes(p);
    assert q[|q|..] == "";
  }

  /** Whether a path ends in a component, and not in a slash. */
  predicate EndsInName(p: string) { p != "" && p[|p| - 1] != '/' }

  lemma {:induction false} SkipEnds(p: string)
    ensures EndsInName(SkipSlashes(p)) <==> EndsInName(p)
    ensures SkipSlashes(p) == "" ==> !EndsInName(p)
  {
    if p != "" && p[0] == '/' { SkipEnds(p[1..]); }
  }

  lemma {:induction false} ParseEnds(p: string)
    ensures var r := Parse(p); EndsInName(p) <==> if r.rest.Ok? then EndsInName(r.rest.value) else r.name != ""
  {
    SkipEnds(p);
    var q := SkipSlashes(p);
    var n := NameLen(q);
    if n == |q| && q != "" { assert q[|q| - 1] != '/'; }
  }

  /** `path_depth_cnt` counts the slashes that end a component: one less than the number of components, unless the
      path ends in a slash or is empty. */
  method PathDepth(path: string) returns (depth: nat)
    requires Short(path)
    ensures depth == |Comps(path)| - if EndsInName(path) then 1 else 0
  {
    hide Comps, EndsInName, Parse, Short;
    depth := 0;
    var p := path;
    while true
      invariant Short(p) && |Comps(path)| == depth + |Comps(p)| && (EndsInName(p) <==> EndsInName(path))
      decreases |p|
    {
      var name, rest := PathParse(p);
      ParseComps(p);
      ParseEnds(p);
      ParseShrinks(p);
      if rest.Null? { break; }
      ParseShort(p);
      p := rest.value;
      depth := depth + 1;
    }
  }

  lemma ParseShort(p: string)
    requires Short(p) && Parse(p).rest.Ok?
    ensures Short(Parse(p).rest.value)
  {
    hide Comps, Parse;
    ParseComps(p);
    var q := Parse(p).rest.value;
    forall k | 0 <= k < |Comps(q)| ensures |Comps(q)[k]| < 16 { assert Comps(q)[k] == Comps(p)[k + 1]; }
  }

  lemma ParseShrinks(p: string)
    ensures !Parse(p).rest.Halt? && (Parse(p).rest.Ok? ==> |Parse(p).rest.value| < |p|)
  {
  }

  // ---------------------------------------------------------------- washing

  lemma {:induction false} JoinedTail(cs: seq<string>, c: string)
    ensures Joined(cs + [c]) == Joined(cs) + "/" + c
  {
    assert (cs + [c])[..|cs|] == cs;
  }

  /** The last slash of a rendered path stands before its last name. */
  function LastSlash(p: string): (i: int)
    ensures -1 <= i < |p| && (i >= 0 ==> p[i] == '/') && forall k :: i < k < |p| ==> p[k] != '/'
  {
    if p == "" then -1 else if p[|p| - 1] == '/' then |p| - 1 else LastSlash(p[..|p| - 1])
  }

  lemma {:induction false} LastSlashOf(p: string, c: string)
    requires '/' !in c
    ensures LastSlash(p + "/" + c) == |p|
  {
    var q := p + "/" + c;
    assert q[|p|] == '/';
    forall k | |p| < k < |q| ensures q[k] != '/' { assert q[k] == c[k - |p| - 1]; }
  }

  /** Cutting a rendered path at its last slash goes up one directory. */
  lemma {:induction false} CutLast(cs: seq<string>)
    requires Names(cs)
    ensures var p := Render(cs); var i := LastSlash(p);
      i >= 0 && Render(Enter(cs, "..")) == if i != 0 then p[..i] else p[..1]
  {
    if cs != [] {
      var n := |cs| - 1;
      LastSlashOf(Joined(cs[..n]), cs[n]);
      assert Render(cs)[..|Joined(cs[..n])|] == Joined(cs[..n]);
      JoinedEmpty(cs[..n]);
    }
  }

  lemma {:induction false} JoinedEmpty(cs: seq<string>)
    requires Names(cs)
    ensures Joined(cs) == "" <==> cs == []
    ensures Joined(cs) != "/"
  {
    if cs != [] { assert |cs[|cs| - 1]| > 0; }
  }

  lemma {:induction false} Push(cs: seq<string>, c: string)
    requires Names(cs) && IsName(c) && c != "." && c != ".."
    ensures Render(Enter(cs, c)) == (if Render(cs) == "/" then Render(cs) else Render(cs) + "/") + c
  {
    hide Joined, Names;
    JoinedTail(cs, c);
    JoinedEmpty(cs);
    assert Enter(cs, c) == cs + [c] && cs + [c] != [];
    if cs == [] { EmptyJoined(); }
  }

  lemma EmptyJoined()
    ensures Joined([]) == ""
  {
  }

  /** `wash_path` computes the rendering of the walk. */
  method WashPath(path: string) returns (out: string)
    requires Short(path)
    ensures out == Wash(path)
  {
    hide Comps, Parse, Joined, LastSlash, Short;
    var name, sub := PathParse(path);
    ParseComps(path);
    ParseShrinks(path);
    if name == "" { return "/"; }
    if sub.Ok? { ParseShort(path); }
    out := "/";
    ghost var stack: seq<string>, left: seq<string> := [], Comps(path);
    while name != ""
      invariant !sub.Halt? && Names(stack) && out == Render(stack) && Walk([], Comps(path)) == Walk(stack, left)
      invariant (name == "" <==> left == []) && (sub.Ok? ==> Short(sub.value))
      invariant Names(left) && (name != "" ==> left == [name] + if sub.Ok? then Comps(sub.value) else [])
      decreases |left|
    {
      if name == ".." {
        CutLast(stack);
        var i := LastSlash(out);
        out := if i != 0 then out[..i] else out[..1];
      } else if name != "." {
        Push(stack, name);
        if out != "/" { out := out + "/"; }
        out := out + name;
      }
      assert left[0] == name && left[1..] == if sub.Ok? then Comps(sub.value) else [];
      stack, left := Enter(stack, name), left[1..];
      name := "";
      if sub.Ok? {
        var p := sub.value;
        ParseComps(p);
        ParseShrinks(p);
        name, sub := PathParse(p);
        if sub.Ok? { ParseShort(p); }
      }
    }
  }

  // ---------------------------------------------------------------- what washing gives

  lemma {:induction false} CompsSlash(p: string, q: string)
    ensures Comps(p + "/" + q) == Comps(p) + Comps(q)
    decreases |p|
  {
    var r := p + "/" + q;
    if p == "" {
      assert r[1..] == q;
    } else if p[0] == '/' {
      CompsSlash(p[1..], q);
      assert r[1..] == p[1..] + "/" + q;
    } else {
      var n := NameLen(p);
      NameIs(r, n);
      CompsSlash(p[n..], q);
      assert r[n..] == p[n..] + "/" + q && r[..n] == p[..n];
    }
  }

  lemma CompsName(c: string)
    requires IsName(c)
    ensures Comps(c) == [c]
  {
    NameIs(c, |c|);
    assert c[..|c|] == c && c[|c|..] == "";
  }

  /** A rendered path parses back to its names. */
  lemma {:induction false} CompsRender(cs: seq<string>)
    requires Names(cs)
    ensures Comps(Render(cs)) == cs
  {
    if cs == [] {
      assert "/"[1..] == "";
    } else {
      CompsJoined(cs);
    }
  }

  lemma {:induction false} CompsJoined(cs: seq<string>)
    requires Names(cs)
    ensures Comps(Joined(cs)) == cs
  {
    if cs != [] {
      var n := |cs| - 1;
      CompsJoined(cs[..n]);
      CompsSlash(Joined(cs[..n]), cs[n]);
      CompsName(cs[n]);
      assert cs[..n] + [cs[n]] == cs;
    }
  }

  lemma {:induction false} WalkProper(stack: seq<string>, cs: seq<string>)
    requires Names(stack) && NoDots(stack) && Names(cs)
    ensures Names(Walk(stack, cs)) && NoDots(Walk(stack, cs))
    decreases |cs|
  {
    if cs != [] { WalkProper(Enter(stack, cs[0]), cs[1..]); }
  }

  lemma {:induction false} WalkPlain(stack: seq<string>, cs: seq<string>)
    requires NoDots(cs)
    ensures Walk(stack, cs) == stack + cs
    decreases |cs|
  {
    if cs != [] {
      WalkPlain(stack + [cs[0]], cs[1..]);
      assert stack + [cs[0]] + cs[1..] == stack + cs;
    }
  }

  lemma {:induction false} WalkConcat(stack: seq<string>, a: seq<string>, b: seq<string>)
    ensures Walk(stack, a + b) == Walk(Walk(stack, a), b)
    decreases |a|
  {
    if a == [] {
      assert a + b == b;
    } else {
      WalkConcat(Enter(stack, a[0]), a[1..], b);
      assert (a + b)[1..] == a[1..] + b;
    }
  }

  /** Washing: the result names the directory the walk ends in, re-parses to it, and washing it again changes
      nothing. */
  lemma {:induction false} WashIsCanonical(p: string)
    ensures Comps(Wash(p)) == Walk([], Comps(p)) && NoDots(Comps(Wash(p)))
    ensures Wash(Wash(p)) == Wash(p)
  {
    var cs := Walk([], Comps(p));
    WalkProper([], Comps(p));
    CompsRender(cs);
    WalkPlain([], cs);
    assert [] + cs == cs;
  }

  /** No doubled slash, and none at the end but in the root. */
  predicate Tidy(p: string) {
    && p != "" && p[0] == '/' && (p == "/" || p[|p| - 1] != '/')
    && forall i :: 0 <= i < |p| - 1 ==> !(p[i] == '/' && p[i + 1] == '/')
  }

  lemma {:induction false} JoinedTidy(cs: seq<string>)
    requires Names(cs) && cs != []
    ensures Tidy(Joined(cs))
  {
    var n := |cs| - 1;
    var p, c := Joined(cs[..n]), cs[n];
    if n > 0 { JoinedTidy(cs[..n]); }
    JoinedEmpty(cs[..n]);
    AppendTidy(p, c);
  }

  lemma AppendTidy(p: string, c: string)
    requires IsName(c) && (p == "" || (p != "/" && Tidy(p)))
    ensures Tidy(p + "/" + c)
  {
    var q := p + "/" + c;
    forall i | 0 <= i < |q| - 1 ensures !(q[i] == '/' && q[i + 1] == '/') {
      if i >= |p| {
        assert q[i + 1] == c[i - |p|];
      } else if i == |p| - 1 {
        assert q[i] == p[|p| - 1];
      } else {
        assert q[i] == p[i] && q[i + 1] == p[i + 1];
      }
    }
    assert q[|q| - 1] == c[|c| - 1];
  }

  lemma {:induction false} WashIsTidy(p: string)
    ensures Tidy(Wash(p))
  {
    var cs := Walk([], Comps(p));
    WalkProper([], Comps(p));
    if cs != [] { JoinedTidy(cs); }
  }

  // ---------------------------------------------------------------- relative paths

  /** `make_clear_abs_path`: relative paths are taken from the current directory. */
  method MakeClearAbsPath(path: string, cwd: Outcome<string>) returns (out: string)
    requires !cwd.Halt? && Short(path) && (cwd.Ok? ==> Short(cwd.value))
    ensures out ==
      Render(Walk(if (path == "" || path[0] != '/') && cwd.Ok? then Walk([], Comps(cwd.value)) else [], Comps(path)))
  {
    hide Comps, Walk, Wash, Render, Short;
    var abs := "";
    if path == "" || path[0] != '/' {
      if cwd.Ok? {
        abs := cwd.value;
        if abs != "/" { abs := abs + "/"; }
      }
    }
    AbsComps(abs, path, cwd);
    abs := abs + path;
    out := WashPath(abs);
  }

  lemma {:induction false} AbsComps(abs: string, path: string, cwd: Outcome<string>)
    requires abs == "" || (cwd.Ok? && abs == if cwd.value == "/" then "/" else cwd.value + "/")
    ensures abs == "" ==> Wash(abs + path) == Render(Walk([], Comps(path)))
    ensures abs != "" ==> Wash(abs + path) == Render(Walk(Walk([], Comps(cwd.value)), Comps(path)))
    ensures Short(path) && (cwd.Ok? ==> Short(cwd.value)) ==> Short(abs + path)
  {
    if abs == "" {
      assert abs + path == path;
    } else {
      var c := if cwd.value == "/" then "" else cwd.value;
      assert abs + path == c + "/" + path;
      CompsSlash(c, path);
      assert "/"[1..] == "";
      assert Comps(c) == Comps(cwd.value);
      WalkConcat([], Comps(cwd.value), Comps(path));
    }
  }

  /** What follows the last slash of a path that does not end in one is its last component. */
  lemma {:induction false} LastName(p: string)
    requires EndsInName(p) && LastSlash(p) >= 0
    ensures Comps(p) != [] && Comps(p)[|Comps(p)| - 1] == p[LastSlash(p) + 1..]
  {
    hide Comps, LastSlash;
    var i := LastSlash(p);
    var c := p[i + 1..];
    assert p[|p| - 1] != '/' && c != "";
    assert p[..i] + "/" + c == p;
    CompsSlash(p[..i], c);
    CompsName(c);
  }

  /** What washing does, in terms of the components alone: a "." can be left out anywhere, a name and a ".." after it
      cancel, ".." at the root is the root, and a path without dots is left as it is. */
  lemma {:induction false} WashDots(a: seq<string>, c: string, b: seq<string>)
    ensures Walk([], a + ["."] + b) == Walk([], a + b)
    ensures c != "." && c != ".." ==> Walk([], a + [c, ".."] + b) == Walk([], a + b)
    ensures Walk([], [".."] + b) == Walk([], b)
    ensures NoDots(b) ==> Walk([], b) == b
  {
    hide Walk, Enter;
    var st := Walk([], a);
    WalkConcat([], a, b);
    WalkInsert(a, ["."], b);
    WalkOne(st, ".", b);
    WalkInsert(a, [c, ".."], b);
    WalkTwo(st, c, "..", b);
    EnterDots(st, c);
    WalkOne([], "..", b);
    EnterDots([], c);
    if NoDots(b) { WalkPlain([], b); }
  }

  lemma {:induction false} WalkInsert(a: seq<string>, cs: seq<string>, b: seq<string>)
    ensures Walk([], a + cs + b) == Walk(Walk([], a), cs + b)
  {
    hide Walk;
    WalkConcat([], a, cs + b);
    assert a + cs + b == a + (cs + b);
  }

  lemma {:induction false} WalkTwo(stack: seq<string>, c: string, d: string, b: seq<string>)
    ensures Walk(stack, [c, d] + b) == Walk(Enter(Enter(stack, c), d), b)
  {
    hide Walk, Enter;
    WalkOne(stack, c, [d] + b);
    WalkOne(Enter(stack, c), d, b);
    assert [c, d] + b == [c] + ([d] + b);
  }

  lemma EnterDots(stack: seq<string>, c: string)
    ensures Enter(stack, ".") == stack && Enter([], "..") == []
    ensures c != "." && c != ".." ==> Enter(Enter(stack, c), "..") == stack
  {
    assert (stack + [c])[..|stack|] == stack;
  }

  lemma {:induction false} WalkOne(stack: seq<string>, c: string, b: seq<string>)
    ensures Walk(stack, [c] + b) == Walk(Enter(stack, c), b)
  {
    assert ([c] + b)[1..] == b;
  }
}
