/**
  Lexical Unix paths: `filepath.Clean`, `Join`, `Abs`, `Base` and `Rel` by path
  components, and how tests on the strings relate to the components.
  */
module CleanPaths {
  import opened Prelude
  import opened Text

  const SEP := '/'

  predicate IsAbs(path: string) {
    path != "" && path[0] == SEP
  }

  /** A component that Clean keeps. */
  predicate Name(c: string) {
    c != "" && c != "." && c != ".." && SEP !in c
  }

  predicate Names(cs: seq<string>) {
    forall i | 0 <= i < |cs| :: Name(cs[i])
  }

  /** One component of a path pushed on the components kept so far. */
  function Push(rooted: bool, kept: seq<string>, c: string): seq<string> {
    if c == "" || c == "." then kept
    else if c == ".." then
      if kept != [] && kept[|kept| - 1] != ".." then kept[..|kept| - 1]
      else if rooted then kept
      else kept + [".."]
    else kept + [c]
  }

  function Fold(rooted: bool, kept: seq<string>, cs: seq<string>): seq<string>
    decreases |cs|
  {
    if cs == [] then kept else Push(rooted, Fold(rooted, kept, cs[..|cs| - 1]), cs[|cs| - 1])
  }

  /** The components of the cleaned path. */
  function Comps(path: string): seq<string> {
    Fold(IsAbs(path), [], Split(path, SEP))
  }

  function Render(rooted: bool, cs: seq<string>): string {
    if rooted then [SEP] + Join(cs, SEP) else if cs == [] then "." else Join(cs, SEP)
  }

  function Clean(path: string): string {
    if path == "" then "." else Render(IsAbs(path), Comps(path))
  }

  /** The clean absolute path with these components. */
  function Abs(cs: seq<string>): string {
    [SEP] + Join(cs, SEP)
  }

  /** `filepath.Join` of two elements; empty ones at the front are dropped. */
  function JoinPath(a: string, b: string): string {
    if a != "" then Clean(a + [SEP] + b) else if b != "" then Clean(b) else ""
  }

  function JoinPath3(a: string, b: string, c: string): string {
    if a != "" then Clean(a + [SEP] + b + [SEP] + c) else JoinPath(b, c)
  }

  /** `filepath.Abs` in the working directory `cwd`. */
  function MakeAbs(cwd: string, path: string): string {
    if IsAbs(path) then Clean(path) else JoinPath(cwd, path)
  }

  /** `filepath.Base` of a clean absolute path. */
  function BaseName(path: string): string {
    var cs := Comps(path);
    if cs == [] then [SEP] else cs[|cs| - 1]
  }

  // ----- Components -----

  lemma {:induction false} FoldConcat(rooted: bool, kept: seq<string>, a: seq<string>, b: seq<string>)
    ensures Fold(rooted, kept, a + b) == Fold(rooted, Fold(rooted, kept, a), b)
    decreases |b|
  {
    if b == [] {
      assert a + b == a;
    } else {
      assert (a + b)[..|a + b| - 1] == a + b[..|b| - 1];
      FoldConcat(rooted, kept, a, b[..|b| - 1]);
    }
  }

  lemma {:induction false} FoldNames(rooted: bool, kept: seq<string>, cs: seq<string>)
    requires Names(cs)
    ensures Fold(rooted, kept, cs) == kept + cs
    decreases |cs|
  {
    if cs != [] {
      FoldNames(rooted, kept, cs[..|cs| - 1]);
      assert cs[..|cs| - 1] + [cs[|cs| - 1]] == cs;
    }
  }

  /** Rooted folding keeps only names: ".." never climbs above the root. */
  lemma {:induction false} FoldKeepsNames(kept: seq<string>, cs: seq<string>)
    requires Names(kept) && forall i | 0 <= i < |cs| :: SEP !in cs[i]
    ensures Names(Fold(true, kept, cs))
    decreases |cs|
  {
    if cs != [] { FoldKeepsNames(kept, cs[..|cs| - 1]); }
  }

  lemma CompsAreNames(path: string)
    requires IsAbs(path)
    ensures Names(Comps(path)) && Clean(path) == Abs(Comps(path))
  {
    FoldKeepsNames([], Split(path, SEP));
  }

  /** The components of a clean absolute path are read back, so it is its own cleaning. */
  lemma CompsOfAbs(cs: seq<string>)
    requires Names(cs)
    ensures IsAbs(Abs(cs)) && Comps(Abs(cs)) == cs && Clean(Abs(cs)) == Abs(cs)
  {
    assert Abs(cs) == "" + [SEP] + Join(cs, SEP);
    SplitConcat("", Join(cs, SEP), SEP);
    if cs == [] {
      assert Fold(true, [], [""] + [""]) == [] by { FoldConcat(true, [], [""], [""]); }
    } else {
      SplitJoin(cs, SEP);
      FoldConcat(true, [], [""], cs);
      FoldNames(true, [], cs);
      assert Fold(true, [], [""]) == Push(true, Fold(true, [], []), "") by { assert [""][..0] == []; }
      assert [] + cs == cs;
    }
  }

  lemma CleanIdempotent(path: string)
    requires IsAbs(path)
    ensures Clean(Clean(path)) == Clean(path) && Comps(Clean(path)) == Comps(path)
  {
    CompsAreNames(path);
    CompsOfAbs(Comps(path));
  }

  /** Appending text to an absolute path folds its components onto those kept. */
  lemma CompsAppend(path: string, more: string)
    requires IsAbs(path)
    ensures IsAbs(path + [SEP] + more)
    ensures Comps(path + [SEP] + more) == Fold(true, Comps(path), Split(more, SEP))
  {
    SplitConcat(path, more, SEP);
    FoldConcat(true, [], Split(path, SEP), Split(more, SEP));
  }

  lemma CompsAppendNames(path: string, cs: seq<string>)
    requires IsAbs(path) && Names(cs)
    ensures IsAbs(path + [SEP] + Join(cs, SEP)) && Comps(path + [SEP] + Join(cs, SEP)) == Comps(path) + cs
  {
    CompsAppend(path, Join(cs, SEP));
    if cs == [] {
      assert [""][..0] == [];
      assert Fold(true, Comps(path), [""]) == Push(true, Fold(true, Comps(path), []), "");
      assert Comps(path) + cs == Comps(path);
    } else {
      SplitJoin(cs, SEP);
      FoldNames(true, Comps(path), cs);
    }
  }

  /** Folding a relative path's cleaned components in some directory is folding the path itself. */
  lemma {:induction false} FoldCleaned(kept: seq<string>, cs: seq<string>)
    ensures Fold(true, kept, Fold(false, [], cs)) == Fold(true, kept, cs)
    decreases |cs|
  {
    if cs != [] {
      var front, c := cs[..|cs| - 1], cs[|cs| - 1];
      var st := Fold(false, [], front);
      FoldCleaned(kept, front);
      FoldHasNoDots(false, [], front);
      PushCleaned(kept, st, c);
    }
  }

  lemma PushCleaned(kept: seq<string>, st: seq<string>, c: string)
    requires forall i | 0 <= i < |st| :: st[i] != "" && st[i] != "."
    ensures Fold(true, kept, Push(false, st, c)) == Push(true, Fold(true, kept, st), c)
  {
    if c == "" || c == "." {
    } else if c == ".." && st != [] && st[|st| - 1] != ".." {
      var front := st[..|st| - 1];
      var n := Fold(true, kept, front);
      assert Fold(true, kept, st) == n + [st[|st| - 1]];
      assert (n + [st[|st| - 1]])[..|n|] == n;
    } else {
      assert (st + [c])[..|st|] == st;
    }
  }

  lemma {:induction false} FoldHasNoDots(rooted: bool, kept: seq<string>, cs: seq<string>)
    requires forall i | 0 <= i < |kept| :: kept[i] != "" && kept[i] != "."
    ensures forall i | 0 <= i < |Fold(rooted, kept, cs)| :: Fold(rooted, kept, cs)[i] != "" && Fold(rooted, kept, cs)[i] != "."
    decreases |cs|
  {
    if cs != [] { FoldHasNoDots(rooted, kept, cs[..|cs| - 1]); }
  }

  // ----- What cleaning means -----

  /** One step further from a cleaned path: into a name, nowhere, or up. */
  predicate StepsTo(rooted: bool, from: seq<string>, c: string, to: seq<string>) {
    && (Name(c) ==> to == from + [c])
    && (c == "" || c == "." ==> to == from)
    && (c == ".." ==>
          if from != [] && from[|from| - 1] != ".." then from == to + [from[|from| - 1]]
          else if rooted then to == from
          else to == from + [".."])
  }

  /**
    A function from paths to components that follows the path: a single component
    is a step from the start, which for "/c" is the root, and a longer path is a
    step from what the path before its last component leads to.
    */
  ghost predicate Follows(f: string -> seq<string>) {
    && (forall c | SEP !in c :: StepsTo(false, [], c, f(c)) && StepsTo(true, [], c, f([SEP] + c)))
    && (forall p, c | p != "" && SEP !in c :: StepsTo(IsAbs(p), f(p), c, f(p + [SEP] + c)))
  }

  lemma PushSteps(rooted: bool, from: seq<string>, c: string)
    requires SEP !in c
    ensures StepsTo(rooted, from, c, Push(rooted, from, c))
  {
    if from != [] { assert from[..|from| - 1] + [from[|from| - 1]] == from; }
  }

  lemma StepIsUnique(rooted: bool, from: seq<string>, c: string, to: seq<string>, other: seq<string>)
    requires SEP !in c && StepsTo(rooted, from, c, to) && StepsTo(rooted, from, c, other)
    ensures to == other
  {
    if c == ".." && from != [] && from[|from| - 1] != ".." {
      assert to == from[..|from| - 1] && other == from[..|from| - 1];
    }
  }

  lemma CompsOfOne(c: string)
    requires SEP !in c
    ensures Comps(c) == Push(false, [], c) && Comps([SEP] + c) == Push(true, [], c)
  {
    SplitWhole(c, SEP);
    assert !IsAbs(c);
    assert [c][..0] == [];
    assert Fold(false, [], [c]) == Push(false, Fold(false, [], []), c);
    assert "" + [SEP] + c == [SEP] + c;
    SplitConcat("", c, SEP);
    SplitWhole("", SEP);
    FoldConcat(true, [], [""], [c]);
    assert [""][..0] == [];
    assert Fold(true, [], [""]) == Push(true, Fold(true, [], []), "");
    assert Fold(true, [], [c]) == Push(true, Fold(true, [], []), c);
  }

  lemma CompsOfMore(p: string, c: string)
    requires p != "" && SEP !in c
    ensures Comps(p + [SEP] + c) == Push(IsAbs(p), Comps(p), c)
  {
    SplitConcat(p, c, SEP);
    SplitWhole(c, SEP);
    FoldConcat(IsAbs(p), [], Split(p, SEP), [c]);
    assert [c][..0] == [];
    assert Fold(IsAbs(p), Comps(p), [c]) == Push(IsAbs(p), Fold(IsAbs(p), Comps(p), []), c);
  }

  /** The components of cleaned paths follow the path. */
  lemma CleaningFollowsThePath()
    ensures Follows(Comps)
  {
    forall c | SEP !in c ensures StepsTo(false, [], c, Comps(c)) && StepsTo(true, [], c, Comps([SEP] + c)) { CompsStartAt(c); }
    forall p, c | p != "" && SEP !in c ensures StepsTo(IsAbs(p), Comps(p), c, Comps(p + [SEP] + c)) { CompsStepOn(p, c); }
  }

  lemma CompsStartAt(c: string)
    requires SEP !in c
    ensures StepsTo(false, [], c, Comps(c)) && StepsTo(true, [], c, Comps([SEP] + c))
  {
    CompsOfOne(c);
    PushSteps(false, [], c);
    PushSteps(true, [], c);
  }

  lemma CompsStepOn(p: string, c: string)
    requires p != "" && SEP !in c
    ensures StepsTo(IsAbs(p), Comps(p), c, Comps(p + [SEP] + c))
  {
    CompsOfMore(p, c);
    PushSteps(IsAbs(p), Comps(p), c);
  }

  /** And nothing else does. */
  lemma {:induction false} OnlyCleaningFollowsThePath(f: string -> seq<string>, path: string)
    requires Follows(f)
    ensures f(path) == Comps(path)
    decreases |path|
  {
    if SEP in path {
      var p, c := LastComponent(path);
      if p == "" {
        assert "" + [SEP] + c == [SEP] + c;
        CompsOfOne(c);
        PushSteps(true, [], c);
        StepIsUnique(true, [], c, f([SEP] + c), Comps([SEP] + c));
      } else {
        OnlyCleaningFollowsThePath(f, p);
        CompsOfMore(p, c);
        PushSteps(IsAbs(p), Comps(p), c);
        StepIsUnique(IsAbs(p), Comps(p), c, f(p + [SEP] + c), Comps(p + [SEP] + c));
      }
    } else {
      CompsOfOne(path);
      PushSteps(false, [], path);
      StepIsUnique(false, [], path, f(path), Comps(path));
    }
  }

  lemma {:induction false} LastComponent(path: string) returns (p: string, c: string)
    requires SEP in path
    ensures path == p + [SEP] + c && SEP !in c
    decreases |path|
  {
    var n := |path| - 1;
    if path[n] == SEP {
      p, c := path[..n], "";
    } else {
      assert SEP in path[..n];
      p, c := LastComponent(path[..n]);
      assert path == path[..n] + [path[n]];
      c := c + [path[n]];
    }
  }

  /** A relative path cleans to the steps up it begins with and then names. */
  function Ups(cs: seq<string>): (n: nat)
    ensures n <= |cs| && (forall i | 0 <= i < n :: cs[i] == "..") && (n < |cs| ==> cs[n] != "..")
  {
    if cs != [] && cs[0] == ".." then 1 + Ups(cs[1..]) else 0
  }

  predicate UpsThenNames(cs: seq<string>) {
    Names(cs[Ups(cs)..])
  }

  lemma {:induction false} RelativeShape(cs: seq<string>)
    requires forall i | 0 <= i < |cs| :: SEP !in cs[i]
    ensures UpsThenNames(Fold(false, [], cs))
    decreases |cs|
  {
    if cs != [] {
      RelativeShape(cs[..|cs| - 1]);
      PushKeepsShape(Fold(false, [], cs[..|cs| - 1]), cs[|cs| - 1]);
    }
  }

  lemma PushKeepsShape(from: seq<string>, c: string)
    requires UpsThenNames(from) && SEP !in c
    ensures UpsThenNames(Push(false, from, c))
  {
    var n := Ups(from);
    if c == ".." {
      if n < |from| { UpFromNames(from); } else { UpFromUps(from); }
    } else if Name(c) {
      DownFrom(from, c);
    }
  }

  lemma UpFromUps(from: seq<string>)
    requires Ups(from) == |from|
    ensures UpsThenNames(Push(false, from, ".."))
  {
    UpsAre(from + [".."], |from| + 1);
  }

  lemma UpFromNames(from: seq<string>)
    requires UpsThenNames(from) && Ups(from) < |from|
    ensures UpsThenNames(Push(false, from, ".."))
  {
    NamesOfFront(from, Ups(from));
    UpsOfFront(from, Ups(from));
    StepUp(from);
  }

  lemma StepUp(from: seq<string>)
    requires from != [] && from[|from| - 1] != ".."
    ensures Push(false, from, "..") == from[..|from| - 1]
  {
  }

  lemma UpsOfFront(from: seq<string>, n: nat)
    requires n < |from| && n == Ups(from)
    ensures Ups(from[..|from| - 1]) == n
  {
    var front := from[..|from| - 1];
    assert forall i | 0 <= i < |front| :: front[i] == from[i];
    UpsAre(front, n);
  }

  lemma NamesOfFront(from: seq<string>, n: nat)
    requires n < |from| && Names(from[n..])
    ensures Name(from[|from| - 1]) && Names(from[..|from| - 1][n..])
  {
    NamesFrom(from, n);
    var front := from[..|from| - 1];
    forall i | 0 <= i < |front[n..]| ensures Name(front[n..][i]) {
      assert front[n..][i] == front[n + i] == from[n + i];
    }
  }

  lemma NamesFrom(cs: seq<string>, n: nat)
    requires n <= |cs| && Names(cs[n..])
    ensures forall j | n <= j < |cs| :: Name(cs[j])
  {
    forall j | n <= j < |cs| ensures Name(cs[j]) { assert cs[n..][j - n] == cs[j]; }
  }

  lemma DownFrom(from: seq<string>, c: string)
    requires UpsThenNames(from) && Name(c)
    ensures UpsThenNames(from + [c])
  {
    var n, to := Ups(from), from + [c];
    assert to[n] == if n < |from| then from[n] else c;
    UpsAre(to, n);
    assert to[n..] == from[n..] + [c];
  }

  lemma UpsAre(cs: seq<string>, n: nat)
    requires n <= |cs| && (forall i | 0 <= i < n :: cs[i] == "..") && (n < |cs| ==> cs[n] != "..")
    ensures Ups(cs) == n
  {
  }

  /** Going up from a directory drops its last names, and never climbs above the root. */
  lemma {:induction false} FoldUps(kept: seq<string>, ups: seq<string>)
    requires Names(kept) && forall i | 0 <= i < |ups| :: ups[i] == ".."
    ensures Fold(true, kept, ups) == kept[..if |ups| < |kept| then |kept| - |ups| else 0]
    decreases |ups|
  {
    if ups == [] {
      assert kept[..|kept|] == kept;
    } else {
      var before := Fold(true, kept, ups[..|ups| - 1]);
      FoldUps(kept, ups[..|ups| - 1]);
      if before != [] { assert Name(before[|before| - 1]); }
    }
  }

  // ----- Strings and components -----

  /** Two clean absolute paths are equal exactly when their components are. */
  lemma AbsInjective(a: seq<string>, b: seq<string>)
    requires Names(a) && Names(b)
    ensures Abs(a) == Abs(b) <==> a == b
  {
    CompsOfAbs(a);
    CompsOfAbs(b);
  }

  lemma AbsConcat(a: seq<string>, b: seq<string>)
    requires a != [] && b != []
    ensures Abs(a + b) == Abs(a) + [SEP] + Join(b, SEP)
  {
    JoinConcat(a, b, SEP);
  }

  /**
    The string test for "at or under" says the same as the component test for
    every root other than "/"; for "/" it holds of "/" alone.
    */
  lemma PrefixIsComponentPrefix(a: seq<string>, root: seq<string>)
    requires Names(a) && Names(root)
    ensures Abs(a) == Abs(root) || HasPrefix(Abs(a), Abs(root) + [SEP]) <==> if root == [] then a == [] else root <= a
  {
    AbsInjective(a, root);
    CompsOfAbs(a);
    if root != [] && root < a {
      var rest := a[|root|..];
      assert a == root + rest;
      AbsConcat(root, rest);
    }
    if HasPrefix(Abs(a), Abs(root) + [SEP]) {
      var tail := Abs(a)[|Abs(root) + [SEP]|..];
      assert Abs(a) == Abs(root) + [SEP] + tail;
      PrefixGivesComponents(a, root, tail);
    }
  }

  lemma PrefixGivesComponents(a: seq<string>, root: seq<string>, tail: string)
    requires Names(a) && Names(root) && Abs(a) == Abs(root) + [SEP] + tail
    ensures root != [] && root <= a
  {
    SplitConcat(Abs(root), tail, SEP);
    assert Abs(root) == "" + [SEP] + Join(root, SEP);
    SplitConcat("", Join(root, SEP), SEP);
    assert Abs(a) == "" + [SEP] + Join(a, SEP);
    SplitConcat("", Join(a, SEP), SEP);
    if a != [] { SplitJoin(a, SEP); }
    if root != [] { SplitJoin(root, SEP); }
    var whole := Split(Abs(a), SEP);
    assert whole == [""] + (if a == [] then [""] else a);
    assert whole == [""] + (if root == [] then [""] else root) + Split(tail, SEP);
    assert |whole| >= 3;
    assert a != [] && whole[1..] == a;
    assert whole[1] == if root == [] then "" else root[0];
    assert Name(whole[1]);
    assert whole[1..|root| + 1] == root;
  }

  // ----- Rel and IsSubpath -----

  function CommonPrefix(a: seq<string>, b: seq<string>): (n: nat)
    ensures n <= |a| && n <= |b| && a[..n] == b[..n]
    ensures n < |a| && n < |b| ==> a[n] != b[n]
  {
    if a == [] || b == [] || a[0] != b[0] then 0
    else
      var n := CommonPrefix(a[1..], b[1..]);
      assert a[..n + 1] == [a[0]] + a[1..][..n];
      n + 1
  }

  /** `filepath.Rel` of two absolute paths. */
  function Rel(base: string, target: string): string {
    var b, t := Comps(base), Comps(target);
    if b == t then "."
    else
      var n := CommonPrefix(b, t);
      Join(seq(|b| - n, _ => "..") + t[n..], SEP)
  }

  /** The callers pass absolute paths. */
  predicate IsSubpath(path: string, base: string) {
    var rel := Rel(base, path);
    rel != ".." && !HasPrefix(rel, "../")
  }

  /** Joined to its base, the relative path leads to the target. */
  lemma RelLeadsToTheTarget(base: string, target: string)
    requires IsAbs(base) && IsAbs(target)
    ensures !IsAbs(Rel(base, target)) && Clean(base + [SEP] + Rel(base, target)) == Clean(target)
  {
    CompsAreNames(target);
    CompsAreNames(base + [SEP] + Rel(base, target));
    RelComponents(base, target);
  }

  lemma RelComponents(base: string, target: string)
    requires IsAbs(base) && IsAbs(target)
    ensures !IsAbs(Rel(base, target)) && Comps(base + [SEP] + Rel(base, target)) == Comps(target)
  {
    var b, t := Comps(base), Comps(target);
    CompsAreNames(base);
    CompsAreNames(target);
    if b == t {
      CompsOfMore(base, ".");
    } else {
      CompsAppend(base, Rel(base, target));
      PartsOfRel(b, t);
      UpToTheCommonPrefix(b, t);
    }
  }

  lemma UpsAndNames(k: nat, names: seq<string>)
    requires Names(names)
    ensures var parts := seq(k, _ => "..") + names;
            && (forall i | 0 <= i < |parts| :: SEP !in parts[i])
            && (parts != [] ==> parts[0] != "")
  {
    var parts := seq(k, _ => "..") + names;
    forall i | 0 <= i < |parts| ensures SEP !in parts[i] && parts[i] != "" {
      assert parts[i] == if i < k then ".." else names[i - k];
      assert i >= k ==> Name(names[i - k]);
    }
  }

  lemma PartsOfRel(b: seq<string>, t: seq<string>)
    requires Names(b) && Names(t) && b != t
    ensures var n := CommonPrefix(b, t);
            var parts := seq(|b| - n, _ => "..") + t[n..];
            !IsAbs(Join(parts, SEP)) && Split(Join(parts, SEP), SEP) == parts
  {
    var n := CommonPrefix(b, t);
    UpsAndNames(|b| - n, t[n..]);
    assert n == |b| ==> t[n..] != [];
    var parts := seq(|b| - n, _ => "..") + t[n..];
    SplitJoin(parts, SEP);
    RelativeParts(parts);
  }

  lemma UpToTheCommonPrefix(b: seq<string>, t: seq<string>)
    requires Names(b) && Names(t)
    ensures var n := CommonPrefix(b, t); Fold(true, b, seq(|b| - n, _ => "..") + t[n..]) == t
  {
    var n := CommonPrefix(b, t);
    FoldConcat(true, b, seq(|b| - n, _ => ".."), t[n..]);
    UpBy(b, |b| - n);
    TailsAreNames(t, n);
    FoldNames(true, b[..n], t[n..]);
    Cut(t, n);
  }

  lemma UpBy(b: seq<string>, k: nat)
    requires Names(b) && k <= |b|
    ensures Fold(true, b, seq(k, _ => "..")) == b[..|b| - k]
  {
    FoldUps(b, seq(k, _ => ".."));
  }

  lemma TailsAreNames(t: seq<string>, n: nat)
    requires Names(t) && n <= |t|
    ensures Names(t[n..])
  {
    forall i | 0 <= i < |t[n..]| ensures Name(t[n..][i]) { assert t[n..][i] == t[n + i]; }
  }

  lemma RelativeParts(parts: seq<string>)
    requires parts != [] && parts[0] != "" && SEP !in parts[0]
    ensures Join(parts, SEP) != "" && Join(parts, SEP)[0] != SEP
  {
    assert Join(parts, SEP)[0] == parts[0][0];
  }

  /** The relative path goes up exactly when the base's components are not a prefix. */
  lemma SubpathIsComponentPrefix(path: string, base: string)
    requires IsAbs(path) && IsAbs(base)
    ensures IsSubpath(path, base) <==> Comps(base) <= Comps(path)
  {
    var b, t := Comps(base), Comps(path);
    CompsAreNames(path);
    if b != t {
      CommonIsPrefix(b, t);
      UpExactly(b, t);
    }
  }

  lemma CommonIsPrefix(b: seq<string>, t: seq<string>)
    ensures CommonPrefix(b, t) == |b| <==> b <= t
  {
    var n := CommonPrefix(b, t);
    if n < |b| && n < |t| { assert b[n] != t[n]; }
    if n == |b| { assert b[..n] == b; }
  }

  /** The steps up come first, if there are any. */
  lemma UpExactly(b: seq<string>, t: seq<string>)
    requires Names(t) && b != t
    ensures var n := CommonPrefix(b, t);
            var rel := Join(seq(|b| - n, _ => "..") + t[n..], SEP);
            rel != ".." && !HasPrefix(rel, "../") <==> n == |b|
  {
    var n := CommonPrefix(b, t);
    var parts := seq(|b| - n, _ => "..") + t[n..];
    if n == |b| {
      assert parts == t[n..];
      TailsAreNames(t, n);
      FirstPart(parts);
    } else {
      UpFirst(parts);
    }
  }

  lemma UpFirst(parts: seq<string>)
    requires parts != [] && parts[0] == ".."
    ensures Join(parts, SEP) == ".." || HasPrefix(Join(parts, SEP), "../")
  {
    if |parts| > 1 {
      assert Join(parts, SEP) == "../" + Join(parts[1..], SEP);
    }
  }

  /** A joined list of names starts with its first name and then a separator. */
  lemma FirstPart(parts: seq<string>)
    requires parts != [] && Names(parts)
    ensures Join(parts, SEP) != ".." && !HasPrefix(Join(parts, SEP), "../")
  {
    SplitJoin(parts, SEP);
    assert Name(parts[0]);
    UpComesFirst(Join(parts, SEP));
  }

  lemma UpComesFirst(rel: string)
    ensures rel == ".." || HasPrefix(rel, "../") ==> Split(rel, SEP)[0] == ".."
  {
    SplitWhole("..", SEP);
    if HasPrefix(rel, "../") {
      assert rel == ".." + [SEP] + rel[3..];
      SplitConcat("..", rel[3..], SEP);
    }
  }
}
