/**
 Inlining quoted includes with a visited set, over an abstract file system: canonical
 paths and their lines, how a name is joined to a directory, and a file's directory.
 */
module Includes {
  import opened Ir

  type File = string

  datatype World = World(content: map<File, seq<string>>, join: (string, string) -> File, dirOf: File -> string, root: string)

  // ----- one line -----

  /** Unicode's White_Space property. */
  predicate IsSpace(c: char) {
    '\U{0009}' <= c <= '\U{000D}' || c == ' ' || c == '\U{0085}' || c == '\U{00A0}' || c == '\U{1680}'
    || '\U{2000}' <= c <= '\U{200A}' || c == '\U{2028}' || c == '\U{2029}' || c == '\U{202F}'
    || c == '\U{205F}' || c == '\U{3000}'
  }

  function TrimStart(s: string): string { if s != [] && IsSpace(s[0]) then TrimStart(s[1..]) else s }
  function TrimEnd(s: string): string { if s != [] && IsSpace(s[|s| - 1]) then TrimEnd(s[..|s| - 1]) else s }
  function Trim(s: string): string { TrimEnd(TrimStart(s)) }

  predicate AllBlank(s: string) { forall i :: 0 <= i < |s| ==> IsSpace(s[i]) }

  /** Trimming takes all blanks off both ends and nothing else. */
  lemma TrimsBlanks(s: string) returns (before: string, after: string)
    ensures s == before + Trim(s) + after && AllBlank(before) && AllBlank(after)
    ensures Trim(s) != [] ==> !IsSpace(Trim(s)[0]) && !IsSpace(Trim(s)[|Trim(s)| - 1])
  {
    before := StartTrimmed(s);
    after := EndTrimmed(TrimStart(s));
  }

  lemma {:induction false} StartTrimmed(s: string) returns (before: string)
    ensures s == before + TrimStart(s) && AllBlank(before)
    ensures TrimStart(s) != [] ==> !IsSpace(TrimStart(s)[0])
  {
    before := [];
    if s != [] && IsSpace(s[0]) {
      var rest := StartTrimmed(s[1..]);
      before := [s[0]] + rest;
      assert s == [s[0]] + s[1..];
    }
  }

  lemma {:induction false} EndTrimmed(s: string) returns (after: string)
    ensures s == TrimEnd(s) + after && AllBlank(after) && TrimEnd(s) <= s
    ensures TrimEnd(s) != [] ==> !IsSpace(TrimEnd(s)[|TrimEnd(s)| - 1])
  {
    after := [];
    if s != [] && IsSpace(s[|s| - 1]) {
      var rest := EndTrimmed(s[..|s| - 1]);
      after := rest + [s[|s| - 1]];
      assert s == s[..|s| - 1] + [s[|s| - 1]];
    }
  }

  const Directive: string := "#include \""

  function StripPrefix(s: string, p: string): Option<string> {
    if |p| <= |s| && s[..|p|] == p then Some(s[|p|..]) else None
  }

  function StripSuffix(s: string, p: string): Option<string> {
    if |p| <= |s| && s[|s| - |p|..] == p then Some(s[..|s| - |p|]) else None
  }

  /** The name in a quoted include directive. */
  function QuotedName(line: string): Option<string> {
    var rest := StripPrefix(Trim(line), Directive);
    if rest.None? then None else StripSuffix(rest.value, "\"")
  }

  lemma QuotedNameIff(line: string, name: string)
    ensures QuotedName(line) == Some(name) <==> Trim(line) == Directive + name + "\""
  {
    var t := Trim(line);
    if QuotedName(line) == Some(name) {
      var rest := t[|Directive|..];
      assert t == Directive + rest && rest == name + rest[|rest| - 1..];
    }
    if t == Directive + name + "\"" {
      assert t[..|Directive|] == Directive && t[|Directive|..] == name + "\"";
    }
  }

  /** The file a line includes: looked up beside the including file, then under the root. */
  function Target(w: World, dir: string, line: string): Option<File> {
    var name := QuotedName(line);
    if name.None? then None
    else if w.join(dir, name.value) in w.content then Some(w.join(dir, name.value))
    else if w.join(w.root, name.value) in w.content then Some(w.join(w.root, name.value))
    else None
  }

  lemma TargetExists(w: World, dir: string, line: string)
    ensures Target(w, dir, line).Some? ==> Target(w, dir, line).value in w.content
  {
  }

  // ----- inlining -----

  /** An output line: which file it comes from (None: the source being processed) and where. */
  datatype Out = Out(owner: Option<File>, index: nat)

  /** What is emitted for the lines from i on, and the visited set afterwards. */
  function Inline(w: World, owner: Option<File>, dir: string, lines: seq<string>, i: nat, visited: set<File>): (r: (seq<Out>, set<File>))
    requires i <= |lines|
    ensures visited <= r.1 <= visited + w.content.Keys
    decreases w.content.Keys - visited, |lines| - i
  {
    if i == |lines| then ([], visited) else
    var target := Target(w, dir, lines[i]);
    if target.None? then
      var (out, v) := Inline(w, owner, dir, lines, i + 1, visited);
      ([Out(owner, i)] + out, v)
    else if target.value in visited then
      Inline(w, owner, dir, lines, i + 1, visited)
    else
      var f := target.value;
      assert f in w.content.Keys - visited;
      var (inner, v1) := Inline(w, Some(f), w.dirOf(f), w.content[f], 0, visited + {f});
      var (out, v2) := Inline(w, owner, dir, lines, i + 1, v1);
      (inner + out, v2)
  }

  /** A header beside the including file wins over one of that name under the root. */
  lemma BesideWins(w: World, owner: Option<File>, dir: string, line: string, name: string, visited: set<File>)
    requires Trim(line) == "#include \"" + name + "\""
    requires w.join(dir, name) in w.content && w.join(dir, name) !in visited
    ensures var f := w.join(dir, name);
            Inline(w, owner, dir, [line], 0, visited) == Inline(w, Some(f), w.dirOf(f), w.content[f], 0, visited + {f})
  {
    QuotedNameIff(line, name);
    var f := w.join(dir, name);
    assert Target(w, dir, line) == Some(f);
    EnterFile(w, owner, dir, line, f, visited);
  }

  lemma EnterFile(w: World, owner: Option<File>, dir: string, line: string, f: File, visited: set<File>)
    requires Target(w, dir, line) == Some(f) && f in w.content && f !in visited
    ensures Inline(w, owner, dir, [line], 0, visited) == Inline(w, Some(f), w.dirOf(f), w.content[f], 0, visited + {f})
  {
    var inner := Inline(w, Some(f), w.dirOf(f), w.content[f], 0, visited + {f});
    EndsThere(w, owner, dir, [line], inner.1);
    hide Target;
    assert inner.0 + [] == inner.0;
  }

  /** Otherwise the root is searched, and a name found nowhere leaves its line as it is. */
  lemma RootIsSecond(w: World, owner: Option<File>, dir: string, line: string, name: string, visited: set<File>)
    requires Trim(line) == "#include \"" + name + "\"" && w.join(dir, name) !in w.content && w.join(w.root, name) !in visited
    ensures var f := w.join(w.root, name);
            Inline(w, owner, dir, [line], 0, visited)
            == if f in w.content then Inline(w, Some(f), w.dirOf(f), w.content[f], 0, visited + {f})
               else ([Out(owner, 0)], visited)
  {
    QuotedNameIff(line, name);
    var f := w.join(w.root, name);
    if f in w.content {
      EnterFile(w, owner, dir, line, f, visited);
    } else {
      EndsThere(w, owner, dir, [line], visited);
      assert [Out(owner, 0)] + [] == [Out(owner, 0)];
    }
  }

  lemma EndsThere(w: World, owner: Option<File>, dir: string, lines: seq<string>, visited: set<File>)
    ensures Inline(w, owner, dir, lines, |lines|, visited) == ([], visited)
  {
  }

  // ----- every header's own lines exactly once -----

  /** A line that is kept: anything but a resolvable quoted include. */
  predicate Kept(w: World, dir: string, line: string) { Target(w, dir, line).None? }

  /** Line k of header f is kept. */
  predicate OwnLine(w: World, f: File, k: nat) {
    f in w.content && k < |w.content[f]| && Kept(w, w.dirOf(f), w.content[f][k])
  }

  function Times(b: bool): nat { if b then 1 else 0 }

  /** How often line o should occur when the visited set grows to v: once as a newly visited
      header's own line, once as a line of the file at hand. */
  function Expected(w: World, owner: Option<File>, dir: string, lines: seq<string>, i: nat, visited: set<File>, v: set<File>, o: Out): nat {
    Times(o.owner.Some? && o.owner.value in v - visited && OwnLine(w, o.owner.value, o.index))
    + Times(o.owner == owner && i <= o.index < |lines| && Kept(w, dir, lines[o.index]))
  }

  ghost predicate Owns(w: World, owner: Option<File>, dir: string, lines: seq<string>, visited: set<File>) {
    owner.Some? ==>
      owner.value in visited && owner.value in w.content && lines == w.content[owner.value] && dir == w.dirOf(owner.value)
  }

  lemma {:induction false} LinesOnce(w: World, owner: Option<File>, dir: string, lines: seq<string>, i: nat, visited: set<File>, o: Out)
    requires i <= |lines| && Owns(w, owner, dir, lines, visited)
    ensures var (out, v) := Inline(w, owner, dir, lines, i, visited);
            multiset(out)[o] == Expected(w, owner, dir, lines, i, visited, v, o)
    decreases w.content.Keys - visited, |lines| - i
  {
    hide Target, Expected;
    if i == |lines| {
      NothingExpected(w, owner, dir, lines, visited, o);
    } else {
      var target := Target(w, dir, lines[i]);
      TargetExists(w, dir, lines[i]);
      if target.None? || target.value in visited {
        LinesOnce(w, owner, dir, lines, i + 1, visited, o);
        var (out, v) := Inline(w, owner, dir, lines, i + 1, visited);
        CountCons(Out(owner, i), out, o);
        LineExpected(w, owner, dir, lines, i, visited, v, o);
      } else {
        var f := target.value;
        assert f in w.content.Keys - visited;
        LinesOnce(w, Some(f), w.dirOf(f), w.content[f], 0, visited + {f}, o);
        var (inner, v1) := Inline(w, Some(f), w.dirOf(f), w.content[f], 0, visited + {f});
        LinesOnce(w, owner, dir, lines, i + 1, v1, o);
        var (out, v2) := Inline(w, owner, dir, lines, i + 1, v1);
        CountConcat(inner, out, o);
        HeaderExpected(w, owner, dir, lines, i, visited, f, v1, v2, o);
      }
    }
  }

  lemma NothingExpected(w: World, owner: Option<File>, dir: string, lines: seq<string>, visited: set<File>, o: Out)
    ensures Expected(w, owner, dir, lines, |lines|, visited, visited, o) == 0
  {
  }

  lemma LineExpected(w: World, owner: Option<File>, dir: string, lines: seq<string>, i: nat, visited: set<File>, v: set<File>, o: Out)
    requires i < |lines|
    ensures Expected(w, owner, dir, lines, i, visited, v, o)
            == Times(Kept(w, dir, lines[i]) && Out(owner, i) == o) + Expected(w, owner, dir, lines, i + 1, visited, v, o)
  {
  }

  lemma HeaderExpected(w: World, owner: Option<File>, dir: string, lines: seq<string>, i: nat, visited: set<File>, f: File,
                       v1: set<File>, v2: set<File>, o: Out)
    requires i < |lines| && Target(w, dir, lines[i]) == Some(f) && f in w.content && f !in visited && visited + {f} <= v1 <= v2
    ensures Expected(w, owner, dir, lines, i, visited, v2, o)
            == Expected(w, Some(f), w.dirOf(f), w.content[f], 0, visited + {f}, v1, o)
               + Expected(w, owner, dir, lines, i + 1, v1, v2, o)
  {
    LineExpected(w, owner, dir, lines, i, v1, v2, o);
    TakenApart(o, visited, f, v1, v2);
    OwnLineIs(w, f, o.index);
  }

  lemma OwnLineIs(w: World, f: File, k: nat)
    requires f in w.content
    ensures OwnLine(w, f, k) == (k < |w.content[f]| && Kept(w, w.dirOf(f), w.content[f][k]))
  {
  }

  /** What is new in the end: the header, what it brought in, and what came after. */
  lemma TakenApart(o: Out, visited: set<File>, f: File, v1: set<File>, v2: set<File>)
    requires f !in visited && visited + {f} <= v1 <= v2
    ensures o.owner.Some? ==>
              (o.owner.value in v2 - visited <==>
                 o.owner.value == f || o.owner.value in v1 - (visited + {f}) || o.owner.value in v2 - v1)
    ensures o.owner.Some? ==> !(o.owner.value in v1 - (visited + {f}) && o.owner.value in v2 - v1)
  {
  }

  lemma CountCons(x: Out, s: seq<Out>, o: Out)
    ensures multiset([x] + s)[o] == Times(x == o) + multiset(s)[o]
  {
  }

  lemma CountConcat(a: seq<Out>, b: seq<Out>, o: Out)
    ensures multiset(a + b)[o] == multiset(a)[o] + multiset(b)[o]
  {
    assert multiset(a + b) == multiset(a) + multiset(b);
  }

  // ----- exactly the reachable headers -----

  ghost predicate Includes(w: World, dir: string, lines: seq<string>, i: nat, f: File) {
    exists k :: i <= k < |lines| && Target(w, dir, lines[k]) == Some(f)
  }

  ghost predicate FileIncludes(w: World, g: File, f: File) {
    g in w.content && Includes(w, w.dirOf(g), w.content[g], 0, f)
  }

  /** Everything a set of files includes lies in another. */
  ghost predicate Closed(w: World, from: set<File>, to: set<File>) {
    forall g, f :: g in from && FileIncludes(w, g, f) ==> f in to
  }

  /** What a call has newly visited is complete: its includes, and the lines' own, are visited. */
  lemma {:induction false} VisitedIsClosed(w: World, owner: Option<File>, dir: string, lines: seq<string>, i: nat, visited: set<File>)
    requires i <= |lines|
    ensures var v := Inline(w, owner, dir, lines, i, visited).1;
            Closed(w, v - visited, v) && forall f :: Includes(w, dir, lines, i, f) ==> f in v
    decreases w.content.Keys - visited, |lines| - i
  {
    hide Target;
    if i < |lines| {
      var target := Target(w, dir, lines[i]);
      TargetExists(w, dir, lines[i]);
      if target.None? || target.value in visited {
        VisitedIsClosed(w, owner, dir, lines, i + 1, visited);
      } else {
        var f := target.value;
        assert f in w.content.Keys - visited;
        VisitedIsClosed(w, Some(f), w.dirOf(f), w.content[f], 0, visited + {f});
        var v1 := Inline(w, Some(f), w.dirOf(f), w.content[f], 0, visited + {f}).1;
        VisitedIsClosed(w, owner, dir, lines, i + 1, v1);
        assert forall g :: FileIncludes(w, f, g) ==> g in v1;
      }
      assert forall f :: Includes(w, dir, lines, i, f) ==> Target(w, dir, lines[i]) == Some(f) || Includes(w, dir, lines, i + 1, f);
    }
  }

  /** Nothing is visited that the closure does not force. */
  lemma {:induction false} VisitedIsLeast(w: World, owner: Option<File>, dir: string, lines: seq<string>, i: nat, visited: set<File>, all: set<File>)
    requires i <= |lines| && visited <= all && Closed(w, all, all)
    requires forall f :: Includes(w, dir, lines, i, f) ==> f in all
    ensures Inline(w, owner, dir, lines, i, visited).1 <= all
    decreases w.content.Keys - visited, |lines| - i
  {
    hide Target;
    if i < |lines| {
      var target := Target(w, dir, lines[i]);
      TargetExists(w, dir, lines[i]);
      if target.None? || target.value in visited {
        VisitedIsLeast(w, owner, dir, lines, i + 1, visited, all);
      } else {
        var f := target.value;
        assert f in w.content.Keys - visited;
        assert Includes(w, dir, lines, i, f);
        assert forall g :: Includes(w, w.dirOf(f), w.content[f], 0, g) ==> FileIncludes(w, f, g);
        VisitedIsLeast(w, Some(f), w.dirOf(f), w.content[f], 0, visited + {f}, all);
        var v1 := Inline(w, Some(f), w.dirOf(f), w.content[f], 0, visited + {f}).1;
        VisitedIsLeast(w, owner, dir, lines, i + 1, v1, all);
      }
    }
  }

  /** A chain of includes from the source to a header. */
  ghost predicate Chain(w: World, dir: string, lines: seq<string>, path: seq<File>) {
    && path != [] && Includes(w, dir, lines, 0, path[0])
    && forall n :: 0 <= n < |path| - 1 ==> FileIncludes(w, path[n], path[n + 1])
  }

  ghost predicate Reachable(w: World, dir: string, lines: seq<string>, f: File) {
    exists path :: Chain(w, dir, lines, path) && path[|path| - 1] == f
  }

  lemma {:induction false} ChainVisited(w: World, dir: string, lines: seq<string>, path: seq<File>, v: set<File>)
    requires Chain(w, dir, lines, path) && Closed(w, v, v) && forall f :: Includes(w, dir, lines, 0, f) ==> f in v
    ensures path[|path| - 1] in v
  {
    if |path| > 1 {
      var front := path[..|path| - 1];
      assert Chain(w, dir, lines, front);
      ChainVisited(w, dir, lines, front, v);
      assert FileIncludes(w, path[|path| - 2], path[|path| - 1]);
    }
  }

  lemma ReachableExtends(w: World, dir: string, lines: seq<string>, g: File, f: File)
    requires Reachable(w, dir, lines, g) && FileIncludes(w, g, f)
    ensures Reachable(w, dir, lines, f)
  {
    var path :| Chain(w, dir, lines, path) && path[|path| - 1] == g;
    var longer := path + [f];
    forall n | 0 <= n < |longer| - 1 ensures FileIncludes(w, longer[n], longer[n + 1]) {}
    assert Chain(w, dir, lines, longer);
  }

  lemma ReachableExists(w: World, dir: string, lines: seq<string>, f: File)
    requires Reachable(w, dir, lines, f)
    ensures f in w.content
  {
    var path :| Chain(w, dir, lines, path) && path[|path| - 1] == f;
    if |path| == 1 {
      var k :| 0 <= k < |lines| && Target(w, dir, lines[k]) == Some(f);
      TargetExists(w, dir, lines[k]);
    } else {
      var g := path[|path| - 2];
      assert FileIncludes(w, g, path[|path| - 2 + 1]);
      var k :| 0 <= k < |w.content[g]| && Target(w, w.dirOf(g), w.content[g][k]) == Some(f);
      TargetExists(w, w.dirOf(g), w.content[g][k]);
    }
  }

  /** Started with nothing visited, exactly the reachable headers are visited, and each one's
      own lines occur exactly once; no other header's do. */
  lemma ExactlyReachable(w: World, dir: string, lines: seq<string>, f: File, k: nat)
    ensures var (out, v) := Inline(w, None, dir, lines, 0, {});
            && (f in v <==> Reachable(w, dir, lines, f))
            && multiset(out)[Out(Some(f), k)] == Times(Reachable(w, dir, lines, f) && OwnLine(w, f, k))
            && multiset(out)[Out(None, k)] == Times(k < |lines| && Kept(w, dir, lines[k]))
  {
    var (out, v) := Inline(w, None, dir, lines, 0, {});
    VisitedIsClosed(w, None, dir, lines, 0, {});
    assert v - {} == v;
    if Reachable(w, dir, lines, f) {
      var path :| Chain(w, dir, lines, path) && path[|path| - 1] == f;
      ChainVisited(w, dir, lines, path, v);
    }
    var all := set g | g in w.content && Reachable(w, dir, lines, g);
    ReachableIsClosed(w, dir, lines, all);
    VisitedIsLeast(w, None, dir, lines, 0, {}, all);
    LinesOnce(w, None, dir, lines, 0, {}, Out(Some(f), k));
    LinesOnce(w, None, dir, lines, 0, {}, Out(None, k));
  }

  lemma ReachableIsClosed(w: World, dir: string, lines: seq<string>, all: set<File>)
    requires all == set g | g in w.content && Reachable(w, dir, lines, g)
    ensures Closed(w, all, all) && forall f :: Includes(w, dir, lines, 0, f) ==> f in all
  {
    forall g, f | g in all && FileIncludes(w, g, f) ensures f in all {
      ReachableExtends(w, dir, lines, g, f);
      ReachableExists(w, dir, lines, f);
    }
    forall f | Includes(w, dir, lines, 0, f) ensures f in all {
      assert Chain(w, dir, lines, [f]) && [f][|[f]| - 1] == f;
      ReachableExists(w, dir, lines, f);
    }
  }

  // ----- the program -----

  class Visited {
    var files: set<File>
    constructor () ensures files == {} { files := {}; }
  }

  /** The text of an output line; `source` is the file being processed. */
  function LineOf(w: World, source: seq<string>, o: Out): string {
    var lines := if o.owner.None? then source else if o.owner.value in w.content then w.content[o.owner.value] else [];
    if o.index < |lines| then lines[o.index] else ""
  }

  function Render(w: World, source: seq<string>, out: seq<Out>): string {
    if out == [] then "" else Render(w, source, out[..|out| - 1]) + LineOf(w, source, out[|out| - 1]) + "\n"
  }

  lemma {:induction false} RenderConcat(w: World, source: seq<string>, a: seq<Out>, b: seq<Out>)
    ensures Render(w, source, a + b) == Render(w, source, a) + Render(w, source, b)
  {
    if b == [] {
      assert a + b == a;
    } else {
      var init, last := b[..|b| - 1], b[|b| - 1];
      assert (a + b)[..|a + b| - 1] == a + init && (a + b)[|a + b| - 1] == last;
      RenderConcat(w, source, a, init);
    }
  }

  /** `resolve_includes`: grows the output line by line and the visited set in place. */
  method Resolve(w: World, ghost source: seq<string>, ghost owner: Option<File>, dir: string, lines: seq<string>, visited: Visited)
    returns (text: string, ghost out: seq<Out>)
    requires lines == if owner.None? then source else if owner.value in w.content then w.content[owner.value] else []
    modifies visited
    ensures (out, visited.files) == Inline(w, owner, dir, lines, 0, old(visited.files))
    ensures text == Render(w, source, out)
    decreases w.content.Keys - visited.files
  {
    hide Target, Render;
    text, out := "", [];
    RenderNothing(w, source);
    ghost var was := visited.files;
    assert Progress(w, owner, dir, lines, 0, was, []) == Inline(w, owner, dir, lines, 0, was) by {
      assert [] + Inline(w, owner, dir, lines, 0, was).0 == Inline(w, owner, dir, lines, 0, was).0;
    }
    for i := 0 to |lines|
      invariant was <= visited.files && text == Render(w, source, out)
      invariant Progress(w, owner, dir, lines, i, visited.files, out) == Inline(w, owner, dir, lines, 0, was)
    {
      var target := Target(w, dir, lines[i]);
      TargetExists(w, dir, lines[i]);
      if target.Some? {
        if target.value !in visited.files {
          ghost var before := visited.files;
          assert target.value in w.content.Keys - before;
          visited.files := visited.files + {target.value};
          var inner, innerOut := Resolve(w, source, Some(target.value), w.dirOf(target.value), w.content[target.value], visited);
          RenderConcat(w, source, out, innerOut);
          ProgressHeader(w, owner, dir, lines, i, before, out);
          text, out := text + inner, out + innerOut;
        }
      } else {
        RenderOne(w, source, out, Out(owner, i));
        ProgressLine(w, owner, dir, lines, i, visited.files, out);
        text, out := text + lines[i] + "\n", out + [Out(owner, i)];
      }
    }
    assert out + [] == out;
  }

  lemma RenderNothing(w: World, source: seq<string>)
    ensures Render(w, source, []) == ""
  {
  }

  lemma RenderOne(w: World, source: seq<string>, out: seq<Out>, o: Out)
    ensures Render(w, source, out + [o]) == Render(w, source, out) + LineOf(w, source, o) + "\n"
  {
    assert (out + [o])[..|out|] == out;
  }

  /** What has been emitted, followed by what the remaining lines will give. */
  ghost function Progress(w: World, owner: Option<File>, dir: string, lines: seq<string>, i: nat, visited: set<File>, out: seq<Out>): (seq<Out>, set<File>)
    requires i <= |lines|
  {
    var (rest, v) := Inline(w, owner, dir, lines, i, visited);
    (out + rest, v)
  }

  lemma ProgressLine(w: World, owner: Option<File>, dir: string, lines: seq<string>, i: nat, visited: set<File>, out: seq<Out>)
    requires i < |lines| && Target(w, dir, lines[i]).None?
    ensures Progress(w, owner, dir, lines, i, visited, out) == Progress(w, owner, dir, lines, i + 1, visited, out + [Out(owner, i)])
  {
    var (rest, v) := Inline(w, owner, dir, lines, i + 1, visited);
    assert out + ([Out(owner, i)] + rest) == out + [Out(owner, i)] + rest;
  }

  lemma ProgressHeader(w: World, owner: Option<File>, dir: string, lines: seq<string>, i: nat, visited: set<File>, out: seq<Out>)
    requires i < |lines| && Target(w, dir, lines[i]).Some? && Target(w, dir, lines[i]).value !in visited
    ensures var f := Target(w, dir, lines[i]).value;
            f in w.content
            && var (inner, v) := Inline(w, Some(f), w.dirOf(f), w.content[f], 0, visited + {f});
               Progress(w, owner, dir, lines, i, visited, out) == Progress(w, owner, dir, lines, i + 1, v, out + inner)
  {
    TargetExists(w, dir, lines[i]);
    var f := Target(w, dir, lines[i]).value;
    assert f in w.content.Keys - visited;
    var (inner, v) := Inline(w, Some(f), w.dirOf(f), w.content[f], 0, visited + {f});
    var (rest, v2) := Inline(w, owner, dir, lines, i + 1, v);
    assert out + (inner + rest) == out + inner + rest;
  }
}
