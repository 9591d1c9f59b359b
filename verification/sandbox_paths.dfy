/**
  Translation between the virtual paths an agent sees and the real paths under
  the sandbox root (the Unix branch), and the access decision.
  */
module SandboxPaths {
  import opened Prelude
  import opened Text
  import opened CleanPaths

  datatype SandboxConfig = SandboxConfig(virtualRoot: string, root: string, allowPaths: seq<string>, readonlyPaths: seq<string>)

  predicate PathMatchesRoot(path: string, root: string) {
    path == root || HasPrefix(path, root + [SEP])
  }

  /** `strings.EqualFold`; `fold` maps a character to the representative of its case class. */
  predicate EqualFold(fold: char -> char, a: string, b: string) {
    |a| == |b| && forall i | 0 <= i < |a| :: fold(a[i]) == fold(b[i])
  }

  function TrimPrefixFold(fold: char -> char, s: string, prefix: string): string {
    if |s| >= |prefix| && EqualFold(fold, s[..|prefix|], prefix) then s[|prefix|..] else s
  }

  /** The error is the path that does not start with the virtual root. */
  function ResolvePath(fold: char -> char, cfg: SandboxConfig, path: string): Result<string, string> {
    if cfg.virtualRoot == "" then Ok(path)
    else
      var cleaned, vr := Clean(path), Clean(cfg.virtualRoot);
      if !PathMatchesRoot(cleaned, vr) then Err(path)
      else
        var rel := TrimPrefixFold(fold, cleaned, vr);
        if rel == "" || rel == "/" then Ok(cfg.root) else Ok(JoinPath(cfg.root, rel[1..]))
  }

  function AutoResolvePath(fold: char -> char, cfg: SandboxConfig, path: string): Result<string, string> {
    if cfg.virtualRoot == "" then Ok(path)
    else
      var native, vr := Clean(path), Clean(cfg.virtualRoot);
      if PathMatchesRoot(native, vr) then ResolvePath(fold, cfg, path)
      else if cfg.root != "" && PathMatchesRoot(native, Clean(cfg.root)) then
        var rel := TrimPrefixFold(fold, native, Clean(cfg.root));
        if rel == "" || rel == [SEP] then ResolvePath(fold, cfg, vr) else ResolvePath(fold, cfg, vr + rel)
      else if IsAbs(native) then ResolvePath(fold, cfg, vr + native)
      else ResolvePath(fold, cfg, vr + [SEP] + native)
  }

  function RealToVirtual(fold: char -> char, cwd: string, cfg: SandboxConfig, path: string): string {
    if cfg.virtualRoot == "" || cfg.root == "" then path
    else
      var abs, root := Clean(MakeAbs(cwd, path)), MakeAbs(cwd, cfg.root);
      if EqualFold(fold, abs, root) then cfg.virtualRoot
      else if PathMatchesRoot(abs, root) then JoinPath(cfg.virtualRoot, TrimPrefixFold(fold, abs, root + [SEP]))
      else JoinPath3(cfg.virtualRoot, "[external]", BaseName(abs))
  }

  /** Both roots are set and absolute. */
  predicate AbsoluteRoots(cfg: SandboxConfig) {
    IsAbs(cfg.virtualRoot) && IsAbs(cfg.root)
  }

  /** `path`'s components start with `root`'s. */
  predicate Under(path: string, root: string) {
    IsAbs(path) && Comps(root) <= Comps(path)
  }

  /** The root itself, or the clean path with `rest` under it. */
  function Placed(root: string, rest: seq<string>): string {
    if rest == [] then root else Abs(Comps(root) + rest)
  }

  lemma PlacedComponents(root: string, rest: seq<string>)
    requires IsAbs(root) && Names(rest)
    ensures var p := Placed(root, rest);
            && IsAbs(p) && Comps(p) == Comps(root) + rest && Comps(p)[|Comps(root)|..] == rest
            && Comps(root) <= Comps(p) && Clean(p) == Abs(Comps(root) + rest)
  {
    CompsAreNames(root);
    CompsOfAbs(Comps(root) + rest);
    assert Comps(root) + [] == Comps(root);
    assert (Comps(root) + rest)[|Comps(root)|..] == rest;
  }

  // ----- What each translation does to the components -----

  lemma TrimExact(fold: char -> char, prefix: string, rest: string)
    ensures TrimPrefixFold(fold, prefix + rest, prefix) == rest
  {
    assert (prefix + rest)[..|prefix|] == prefix;
  }

  /** Where a path with components `cs` matches a root with components `vs`, trimming leaves the rest. */
  lemma TrimmedComponents(fold: char -> char, cs: seq<string>, vs: seq<string>)
    requires Names(cs) && vs != [] && vs <= cs
    ensures var rel := TrimPrefixFold(fold, Abs(cs), Abs(vs));
            rel == if cs == vs then "" else [SEP] + Join(cs[|vs|..], SEP)
  {
    if cs == vs {
      assert Abs(cs) == Abs(vs) + "";
      TrimExact(fold, Abs(vs), "");
    } else {
      assert cs == vs + cs[|vs|..];
      AbsConcat(vs, cs[|vs|..]);
      assert Abs(cs) == Abs(vs) + ([SEP] + Join(cs[|vs|..], SEP));
      TrimExact(fold, Abs(vs), [SEP] + Join(cs[|vs|..], SEP));
    }
  }

  lemma LeadingSeparator(s: string)
    ensures IsAbs(s) ==> Split(s, SEP)[0] == ""
  {
  }

  lemma JoinOfNamesIsNotEmpty(cs: seq<string>)
    requires cs != [] && Names(cs)
    ensures Join(cs, SEP) != "" && Join(cs, SEP) != [SEP] && !IsAbs(Join(cs, SEP))
  {
    assert Name(cs[0]);
    SplitJoin(cs, SEP);
    LeadingSeparator(Join(cs, SEP));
  }

  /**
    `ResolvePath` accepts exactly the paths at or under the virtual root, and
    moves the rest of their components under the root.
    */
  lemma ResolveComponents(fold: char -> char, cfg: SandboxConfig, path: string)
    requires AbsoluteRoots(cfg) && Comps(cfg.virtualRoot) != []
    ensures ResolvePath(fold, cfg, path).Ok? <==> Under(path, cfg.virtualRoot)
    ensures Under(path, cfg.virtualRoot) ==>
              var rest := Comps(path)[|Comps(cfg.virtualRoot)|..];
              && Names(rest)
              && ResolvePath(fold, cfg, path) == Ok(Placed(cfg.root, rest))
  {
    var vs := Comps(cfg.virtualRoot);
    CompsAreNames(cfg.virtualRoot);
    CompsAreNames(cfg.root);
    if IsAbs(path) {
      var cs := Comps(path);
      CompsAreNames(path);
      PrefixIsComponentPrefix(cs, vs);
      if vs <= cs {
        TrimmedComponents(fold, cs, vs);
        var rest := cs[|vs|..];
        if rest != [] {
          JoinOfNamesIsNotEmpty(rest);
          CompsAppendNames(cfg.root, rest);
        }
      }
    } else {
      RelativeStaysRelative(path);
    }
  }

  /** Cleaning a relative path never makes it absolute. */
  lemma RelativeStaysRelative(path: string)
    requires !IsAbs(path)
    ensures !IsAbs(Clean(path)) && Clean(path) != ""
  {
    if path != "" {
      var cs := Comps(path);
      FoldHasNoDots(false, [], Split(path, SEP));
      FoldHasNoSeparators([], Split(path, SEP));
      if cs != [] {
        assert cs[0] != "" && SEP !in cs[0];
        assert Join(cs, SEP)[0] == cs[0][0];
      }
    }
  }

  lemma {:induction false} FoldHasNoSeparators(kept: seq<string>, cs: seq<string>)
    requires forall i | 0 <= i < |kept| :: SEP !in kept[i]
    requires forall i | 0 <= i < |cs| :: SEP !in cs[i]
    ensures forall i | 0 <= i < |Fold(false, kept, cs)| :: SEP !in Fold(false, kept, cs)[i]
    decreases |cs|
  {
    if cs != [] { FoldHasNoSeparators(kept, cs[..|cs| - 1]); }
  }

  // ----- Round trips -----

  lemma RealToVirtualComponents(fold: char -> char, cwd: string, cfg: SandboxConfig, path: string)
    requires AbsoluteRoots(cfg) && Comps(cfg.root) != [] && Under(path, cfg.root)
    ensures var rest := Comps(path)[|Comps(cfg.root)|..];
            && Names(rest)
            && RealToVirtual(fold, cwd, cfg, path)
               == Placed(cfg.virtualRoot, rest)
  {
    var rs, cs := Comps(cfg.root), Comps(path);
    CompsAreNames(cfg.root);
    CompsAreNames(cfg.virtualRoot);
    CompsAreNames(path);
    CleanIdempotent(path);
    PrefixIsComponentPrefix(cs, rs);
    var rest := cs[|rs|..];
    if rest == [] {
      assert cs == rs;
    } else {
      assert cs == rs + rest;
      AbsConcat(rs, rest);
      JoinOfNamesIsNotEmpty(rest);
      assert |Abs(cs)| > |Abs(rs)|;
      assert Abs(cs) == (Abs(rs) + [SEP]) + Join(rest, SEP);
      TrimExact(fold, Abs(rs) + [SEP], Join(rest, SEP));
      CompsAppendNames(cfg.virtualRoot, rest);
    }
  }

  /** A real path outside the root is shown by its last name alone. */
  lemma ExternalPathsAreMarked(fold: char -> char, cwd: string, cfg: SandboxConfig, path: string)
    requires AbsoluteRoots(cfg) && Comps(cfg.root) != [] && IsAbs(path) && !Under(path, cfg.root)
    requires !EqualFold(fold, Clean(path), Clean(cfg.root))
    ensures var cs := Comps(path);
            RealToVirtual(fold, cwd, cfg, path)
            == Placed(cfg.virtualRoot, ["[external]"] + if cs == [] then [] else [cs[|cs| - 1]])
  {
    CleanIdempotent(path);
    MatchesByComponents(path, cfg.root);
    CompsAreNames(path);
    if Comps(path) != [] { assert Name(BaseName(path)); }
    ExternalPath(cfg.virtualRoot, BaseName(path));
  }

  lemma ExternalPath(root: string, base: string)
    requires IsAbs(root) && (base == "/" || Name(base))
    ensures JoinPath3(root, "[external]", base) == Placed(root, ["[external]"] + if base == "/" then [] else [base])
  {
    var start := root + [SEP] + "[external]";
    CompsOfMore(root, "[external]");
    CompsAreNames(start + [SEP] + base);
    if base == "/" {
      TwoEmptyParts(start);
      assert ["[external]"] + [] == ["[external]"];
    } else {
      CompsOfMore(start, base);
      assert Comps(start) + [base] == Comps(root) + (["[external]"] + [base]);
    }
  }

  lemma TwoEmptyParts(start: string)
    requires IsAbs(start)
    ensures Comps(start + [SEP] + "/") == Comps(start)
  {
    assert start + [SEP] + "/" == (start + [SEP] + "") + [SEP] + "";
    CompsOfMore(start, "");
    CompsOfMore(start + [SEP] + "", "");
  }

  /** Virtual to real and back: the cleaned virtual path returns. */
  lemma VirtualRoundTrip(fold: char -> char, cwd: string, cfg: SandboxConfig, path: string)
    requires AbsoluteRoots(cfg) && Comps(cfg.virtualRoot) != [] && Comps(cfg.root) != []
    requires Under(path, cfg.virtualRoot)
    ensures ResolvePath(fold, cfg, path).Ok?
    ensures Clean(RealToVirtual(fold, cwd, cfg, ResolvePath(fold, cfg, path).value)) == Clean(path)
  {
    ResolveComponents(fold, cfg, path);
    var rest := Comps(path)[|Comps(cfg.virtualRoot)|..];
    CompsAreNames(path);
    PlacedComponents(cfg.root, rest);
    RealToVirtualComponents(fold, cwd, cfg, Placed(cfg.root, rest));
    PlacedComponents(cfg.virtualRoot, rest);
    assert Comps(cfg.virtualRoot) + rest == Comps(path);
  }

  /** Real to virtual and back: the cleaned real path returns. */
  lemma RealRoundTrip(fold: char -> char, cwd: string, cfg: SandboxConfig, path: string)
    requires AbsoluteRoots(cfg) && Comps(cfg.virtualRoot) != [] && Comps(cfg.root) != []
    requires Under(path, cfg.root)
    ensures var back := ResolvePath(fold, cfg, RealToVirtual(fold, cwd, cfg, path));
            back.Ok? && Clean(back.value) == Clean(path)
  {
    RealToVirtualComponents(fold, cwd, cfg, path);
    var rest := Comps(path)[|Comps(cfg.root)|..];
    CompsAreNames(path);
    PlacedComponents(cfg.virtualRoot, rest);
    ResolveComponents(fold, cfg, Placed(cfg.virtualRoot, rest));
    PlacedComponents(cfg.root, rest);
    assert Comps(cfg.root) + rest == Comps(path);
  }

  ghost predicate MutuallyInverse(fold: char -> char, cwd: string, cfg: SandboxConfig) {
    && (forall v | Under(v, cfg.virtualRoot) ::
          ResolvePath(fold, cfg, v).Ok? && Clean(RealToVirtual(fold, cwd, cfg, ResolvePath(fold, cfg, v).value)) == Clean(v))
    && (forall p | Under(p, cfg.root) ::
          var back := ResolvePath(fold, cfg, RealToVirtual(fold, cwd, cfg, p));
          back.Ok? && Clean(back.value) == Clean(p))
  }

  /** For absolute roots the translations are inverse to each other exactly when neither root is "/". */
  lemma InverseExactlyOffTheFileSystemRoot(fold: char -> char, cwd: string, cfg: SandboxConfig)
    requires AbsoluteRoots(cfg)
    ensures MutuallyInverse(fold, cwd, cfg) <==> Clean(cfg.virtualRoot) != "/" && Clean(cfg.root) != "/"
  {
    var vs, rs := Comps(cfg.virtualRoot), Comps(cfg.root);
    CompsAreNames(cfg.virtualRoot);
    CompsAreNames(cfg.root);
    AbsInjective(vs, []);
    AbsInjective(rs, []);
    if vs != [] && rs != [] {
      forall v | Under(v, cfg.virtualRoot)
        ensures ResolvePath(fold, cfg, v).Ok? && Clean(RealToVirtual(fold, cwd, cfg, ResolvePath(fold, cfg, v).value)) == Clean(v)
      {
        VirtualRoundTrip(fold, cwd, cfg, v);
      }
      forall p | Under(p, cfg.root)
        ensures var back := ResolvePath(fold, cfg, RealToVirtual(fold, cwd, cfg, p)); back.Ok? && Clean(back.value) == Clean(p)
      {
        RealRoundTrip(fold, cwd, cfg, p);
      }
    } else if vs == [] {
      NothingUnderVirtualSlash(fold, cfg);
    } else {
      LostUnderRealSlash(fold, cwd, cfg);
    }
  }

  /** With the virtual root "/" even "/x" is not accepted. */
  lemma NothingUnderVirtualSlash(fold: char -> char, cfg: SandboxConfig)
    requires AbsoluteRoots(cfg) && Comps(cfg.virtualRoot) == []
    ensures Under("/x", cfg.virtualRoot) && ResolvePath(fold, cfg, "/x").Err?
  {
    CompsAreNames(cfg.virtualRoot);
    CompsOfAbs(["x"]);
    assert Abs(["x"]) == "/x";
    PrefixIsComponentPrefix(["x"], []);
  }

  /** With the real root "/" the real path "/x" is reported as external. */
  lemma LostUnderRealSlash(fold: char -> char, cwd: string, cfg: SandboxConfig)
    requires AbsoluteRoots(cfg) && Comps(cfg.virtualRoot) != [] && Comps(cfg.root) == []
    ensures Under("/x", cfg.root)
    ensures var back := ResolvePath(fold, cfg, RealToVirtual(fold, cwd, cfg, "/x"));
            !(back.Ok? && Clean(back.value) == Clean("/x"))
  {
    CompsAreNames(cfg.virtualRoot);
    CompsAreNames(cfg.root);
    assert Abs(["x"]) == "/x";
    CompsOfAbs(["x"]);
    CompsOfAbs([]);
    PrefixIsComponentPrefix(["x"], []);
    assert Clean(MakeAbs(cwd, "/x")) == "/x" && MakeAbs(cwd, cfg.root) == "/";
    assert RealToVirtual(fold, cwd, cfg, "/x") == JoinPath3(cfg.virtualRoot, "[external]", "x");
    ExternalIsUnderVirtual(cfg.virtualRoot);
    ResolveComponents(fold, cfg, JoinPath3(cfg.virtualRoot, "[external]", "x"));
    var rest := ["[external]", "x"];
    assert [] + rest == rest;
    CompsOfAbs(rest);
    AbsInjective(rest, ["x"]);
  }

  lemma ExternalIsUnderVirtual(root: string)
    requires IsAbs(root)
    ensures var virt, rest := JoinPath3(root, "[external]", "x"), ["[external]", "x"];
            IsAbs(virt) && Comps(virt) == Comps(root) + rest && Comps(virt)[|Comps(root)|..] == rest
  {
    var rest := ["[external]", "x"];
    CompsAreNames(root);
    assert Join(rest, SEP) == "[external]" + [SEP] + Join(["x"], SEP) by { assert rest[1..] == ["x"]; }
    assert root + [SEP] + "[external]" + [SEP] + "x" == root + [SEP] + Join(rest, SEP);
    CompsAppendNames(root, rest);
    CompsOfAbs(Comps(root) + rest);
    assert (Comps(root) + rest)[|Comps(root)|..] == rest;
  }

  /** A relative path is taken in the working directory. */
  lemma RelativePathsAreInTheWorkingDirectory(fold: char -> char, cwd: string, cfg: SandboxConfig, path: string)
    requires IsAbs(cwd) && !IsAbs(path) && cfg.virtualRoot != "" && cfg.root != ""
    ensures RealToVirtual(fold, cwd, cfg, path) == RealToVirtual(fold, cwd, cfg, cwd + [SEP] + path)
  {
    assert IsAbs(cwd + [SEP] + path);
  }

  /** A path that is the root but for the case of letters is the virtual root. */
  lemma RootInOtherLettersIsTheVirtualRoot(fold: char -> char, cwd: string, cfg: SandboxConfig, path: string)
    requires AbsoluteRoots(cfg) && IsAbs(path) && |Clean(path)| == |Clean(cfg.root)|
    requires forall i | 0 <= i < |Clean(path)| :: fold(Clean(path)[i]) == fold(Clean(cfg.root)[i])
    ensures RealToVirtual(fold, cwd, cfg, path) == cfg.virtualRoot
  {
    CleanIdempotent(path);
  }

  /** Without a virtual root, and from real to virtual without a root, every path is left as it is. */
  lemma WithoutRootsNothingMoves(fold: char -> char, cwd: string, cfg: SandboxConfig, path: string)
    ensures cfg.virtualRoot == "" ==> ResolvePath(fold, cfg, path) == Ok(path) && AutoResolvePath(fold, cfg, path) == Ok(path)
    ensures cfg.virtualRoot == "" || cfg.root == "" ==> RealToVirtual(fold, cwd, cfg, path) == path
  {
  }

  // ----- AutoResolvePath -----

  /** The components under the root that `AutoResolvePath` answers with. */
  function Target(cfg: SandboxConfig, path: string): seq<string> {
    var vs, rs, cs := Comps(cfg.virtualRoot), Comps(cfg.root), Comps(path);
    if IsAbs(path) then
      if vs <= cs then cs[|vs|..]
      else if rs != [] && rs <= cs then cs[|rs|..]
      else cs
    else
      var inVirtual := Fold(true, vs, Split(path, SEP));
      if vs <= inVirtual then inVirtual[|vs|..] else []
  }

  /** A relative path is refused exactly when it leads out of the virtual root. */
  predicate Escapes(cfg: SandboxConfig, path: string) {
    !IsAbs(path) && !Under(cfg.virtualRoot + [SEP] + path, cfg.virtualRoot)
  }

  /**
    Every absolute path resolves; a relative one fails exactly when cleaning
    VirtualRoot/path leaves the virtual root; and the answer is the root itself or
    a clean path under it with the expected components.
    */
  lemma AutoResolveComponents(fold: char -> char, cfg: SandboxConfig, path: string)
    requires AbsoluteRoots(cfg) && Comps(cfg.virtualRoot) != []
    ensures AutoResolvePath(fold, cfg, path).Ok? <==> !Escapes(cfg, path)
    ensures !Escapes(cfg, path) ==>
              var rest := Target(cfg, path);
              && Names(rest)
              && AutoResolvePath(fold, cfg, path) == Ok(Placed(cfg.root, rest))
  {
    if IsAbs(path) {
      AutoResolveAbsolute(fold, cfg, path);
    } else {
      AutoResolveRelative(fold, cfg, path);
    }
  }

  lemma AutoResolveAbsolute(fold: char -> char, cfg: SandboxConfig, path: string)
    requires AbsoluteRoots(cfg) && Comps(cfg.virtualRoot) != [] && IsAbs(path)
    ensures var rest := Target(cfg, path);
            && Names(rest)
            && AutoResolvePath(fold, cfg, path) == Ok(Placed(cfg.root, rest))
  {
    CompsAreNames(path);
    MatchesByComponents(path, cfg.virtualRoot);
    MatchesByComponents(path, cfg.root);
    if Comps(cfg.virtualRoot) <= Comps(path) {
      ResolveComponents(fold, cfg, path);
    } else if PathMatchesRoot(Clean(path), Clean(cfg.root)) {
      AutoResolveUnderRoot(fold, cfg, path);
    } else {
      ResolveVirtual(fold, cfg, Comps(path));
    }
  }

  lemma MatchesByComponents(path: string, root: string)
    requires IsAbs(path) && IsAbs(root)
    ensures PathMatchesRoot(Clean(path), Clean(root)) <==> if Comps(root) == [] then Comps(path) == [] else Comps(root) <= Comps(path)
  {
    CompsAreNames(path);
    CompsAreNames(root);
    PrefixIsComponentPrefix(Comps(path), Comps(root));
  }

  /** A real path under the root, or the root "/" itself. */
  lemma AutoResolveUnderRoot(fold: char -> char, cfg: SandboxConfig, path: string)
    requires AbsoluteRoots(cfg) && Comps(cfg.virtualRoot) != [] && IsAbs(path)
    requires !PathMatchesRoot(Clean(path), Clean(cfg.virtualRoot)) && PathMatchesRoot(Clean(path), Clean(cfg.root))
    requires if Comps(cfg.root) == [] then Comps(path) == [] else Comps(cfg.root) <= Comps(path)
    ensures AutoResolvePath(fold, cfg, path) == Ok(Placed(cfg.root, Comps(path)[|Comps(cfg.root)|..]))
  {
    var rs, cs := Comps(cfg.root), Comps(path);
    CompsAreNames(cfg.root);
    CompsAreNames(path);
    ResolveVirtual(fold, cfg, cs[|rs|..]);
    if rs != [] {
      TrimmedComponents(fold, cs, rs);
    } else {
      TrimExact(fold, Abs([]), "");
      assert Abs([]) + "" == Abs([]);
    }
  }

  /** Resolving the virtual root followed by names answers with those names under the root. */
  lemma ResolveVirtual(fold: char -> char, cfg: SandboxConfig, rest: seq<string>)
    requires AbsoluteRoots(cfg) && Comps(cfg.virtualRoot) != [] && Names(rest)
    ensures ResolvePath(fold, cfg, Clean(cfg.virtualRoot) + [SEP] + Join(rest, SEP))
            == Ok(Placed(cfg.root, rest))
    ensures rest == [] ==> ResolvePath(fold, cfg, Clean(cfg.virtualRoot)) == Ok(cfg.root)
    ensures Clean(cfg.virtualRoot) + [SEP] + Join(rest, SEP) == Clean(cfg.virtualRoot) + Abs(rest)
  {
    var vr, vs := Clean(cfg.virtualRoot), Comps(cfg.virtualRoot);
    CompsAreNames(cfg.virtualRoot);
    CleanIdempotent(cfg.virtualRoot);
    VirtualPathUnder(vr, rest);
    ResolveComponents(fold, cfg, vr + [SEP] + Join(rest, SEP));
    if rest == [] {
      ResolveComponents(fold, cfg, vr);
    }
  }

  lemma VirtualPathUnder(vr: string, rest: seq<string>)
    requires IsAbs(vr) && Names(rest)
    ensures var p := vr + [SEP] + Join(rest, SEP);
            IsAbs(p) && Comps(vr) <= Comps(p) && Comps(p)[|Comps(vr)|..] == rest && p == vr + Abs(rest)
  {
    CompsAppendNames(vr, rest);
    assert (Comps(vr) + rest)[|Comps(vr)|..] == rest;
  }

  lemma AutoResolveRelative(fold: char -> char, cfg: SandboxConfig, path: string)
    requires AbsoluteRoots(cfg) && Comps(cfg.virtualRoot) != [] && !IsAbs(path)
    ensures AutoResolvePath(fold, cfg, path).Ok? <==> !Escapes(cfg, path)
    ensures !Escapes(cfg, path) ==>
              var rest := Target(cfg, path);
              && Names(rest)
              && AutoResolvePath(fold, cfg, path) == Ok(Placed(cfg.root, rest))
  {
    var vs := Comps(cfg.virtualRoot);
    var vr, native := Clean(cfg.virtualRoot), Clean(path);
    RelativeStaysRelative(path);
    CompsAreNames(cfg.virtualRoot);
    CompsAreNames(cfg.root);
    CleanIdempotent(cfg.virtualRoot);
    CompsAppend(cfg.virtualRoot, path);
    CompsAppend(vr, native);
    CleanedInDirectory(vs, path);
    ResolveComponents(fold, cfg, vr + [SEP] + native);
    assert !PathMatchesRoot(native, vr) by { assert native[0] != SEP && vr[0] == SEP; }
    assert !PathMatchesRoot(native, Clean(cfg.root)) by { assert native[0] != SEP && Clean(cfg.root)[0] == SEP; }
  }

  /** A relative path and its cleaning lead to the same place from any directory. */
  lemma CleanedInDirectory(kept: seq<string>, path: string)
    requires !IsAbs(path)
    ensures Fold(true, kept, Split(Clean(path), SEP)) == Fold(true, kept, Split(path, SEP))
  {
    var cs := Comps(path);
    FoldCleaned(kept, Split(path, SEP));
    FoldHasNoSeparators([], Split(path, SEP));
    if path == "" || cs == [] {
      SplitWhole(".", SEP);
      assert ["."][..0] == [] && [""][..0] == [];
      assert Fold(true, kept, ["."]) == Push(true, Fold(true, kept, []), ".");
      if path == "" {
        assert Fold(true, kept, [""]) == Push(true, Fold(true, kept, []), "");
      }
    } else {
      SplitJoin(cs, SEP);
    }
  }

  /**
    A relative path is refused exactly when it begins, once cleaned, with k steps
    up and then does not come back through the names they left, the last k of the
    virtual root, or all of them when there are fewer.
    */
  lemma EscapesExactly(cfg: SandboxConfig, path: string)
    requires AbsoluteRoots(cfg) && !IsAbs(path)
    ensures var vs, cs := Comps(cfg.virtualRoot), Comps(path);
            var k := Ups(cs);
            Escapes(cfg, path) <==> !(vs[if k < |vs| then |vs| - k else 0..] <= cs[k..])
  {
    var vs, cs := Comps(cfg.virtualRoot), Comps(path);
    var k := Ups(cs);
    CompsAreNames(cfg.virtualRoot);
    CompsAppend(cfg.virtualRoot, path);
    FoldCleaned(vs, Split(path, SEP));
    RelativeShape(Split(path, SEP));
    UpAndDown(vs, cs);
    PrefixThroughTail(vs, if k < |vs| then |vs| - k else 0, cs[k..]);
  }

  lemma UpAndDown(vs: seq<string>, cs: seq<string>)
    requires Names(vs) && UpsThenNames(cs)
    ensures var k := Ups(cs); Fold(true, vs, cs) == vs[..if k < |vs| then |vs| - k else 0] + cs[k..]
  {
    var k := Ups(cs);
    assert cs == cs[..k] + cs[k..];
    FoldConcat(true, vs, cs[..k], cs[k..]);
    FoldUps(vs, cs[..k]);
    FoldNames(true, Fold(true, vs, cs[..k]), cs[k..]);
  }

  lemma PrefixThroughTail(vs: seq<string>, m: nat, names: seq<string>)
    requires m <= |vs|
    ensures vs <= vs[..m] + names <==> vs[m..] <= names
  {
    assert vs == vs[..m] + vs[m..];
    if vs[m..] <= names {
      assert names == vs[m..] + names[|vs| - m..];
      assert vs[..m] + names == vs + names[|vs| - m..];
    }
    if vs <= vs[..m] + names {
      assert vs[m..] == (vs[..m] + names)[m..|vs|] == names[..|vs| - m];
    }
  }

  /** So "../x" is refused, for every x but the last name of the virtual root itself. */
  lemma ParentIsRefused(fold: char -> char, cfg: SandboxConfig, x: string)
    requires AbsoluteRoots(cfg) && Comps(cfg.virtualRoot) != [] && Name(x)
    ensures AutoResolvePath(fold, cfg, "../" + x).Err? <==> x != Comps(cfg.virtualRoot)[|Comps(cfg.virtualRoot)| - 1]
  {
    var vs := Comps(cfg.virtualRoot);
    assert "../" + x == ".." + [SEP] + x;
    CompsOfOne("..");
    CompsOfMore("..", x);
    assert Comps("../" + x) == ["..", x];
    EscapesExactly(cfg, "../" + x);
    AutoResolveComponents(fold, cfg, "../" + x);
    assert vs[|vs| - 1..] == [vs[|vs| - 1]];
    assert ["..", x][1..] == [x];
  }

  ghost predicate AutoResolveIdempotent(fold: char -> char, cfg: SandboxConfig) {
    forall path | AutoResolvePath(fold, cfg, path).Ok? ::
      AutoResolvePath(fold, cfg, AutoResolvePath(fold, cfg, path).value) == AutoResolvePath(fold, cfg, path)
  }

  /** The roots are the same directory, or neither is inside the other. */
  predicate SameOrApart(cfg: SandboxConfig) {
    var vs, rs := Comps(cfg.virtualRoot), Comps(cfg.root);
    vs == rs || (!(vs <= rs) && !(rs <= vs))
  }

  /**
    Resolving again changes nothing exactly when the two roots are the same
    directory or neither is inside the other. That the root is not inside the
    virtual root is not enough.
    */
  lemma AutoResolveIdempotentExactly(fold: char -> char, cfg: SandboxConfig)
    requires AbsoluteRoots(cfg) && Comps(cfg.virtualRoot) != []
    ensures AutoResolveIdempotent(fold, cfg) <==> SameOrApart(cfg)
  {
    if SameOrApart(cfg) {
      forall path | AutoResolvePath(fold, cfg, path).Ok?
        ensures AutoResolvePath(fold, cfg, AutoResolvePath(fold, cfg, path).value) == AutoResolvePath(fold, cfg, path)
      {
        AutoResolveTwice(fold, cfg, path);
      }
    } else if Comps(cfg.virtualRoot) <= Comps(cfg.root) {
      RootInsideVirtual(fold, cfg);
    } else {
      VirtualInsideRoot(fold, cfg);
    }
  }

  lemma PrefixesOfOne(a: seq<string>, b: seq<string>, c: seq<string>)
    ensures a <= b + c ==> a <= b || b <= a
  {
    if a <= b + c {
      assert if |a| <= |b| then a == b[..|a|] else b == a[..|b|];
    }
  }

  lemma AutoResolveTwice(fold: char -> char, cfg: SandboxConfig, path: string)
    requires AbsoluteRoots(cfg) && Comps(cfg.virtualRoot) != [] && SameOrApart(cfg)
    requires AutoResolvePath(fold, cfg, path).Ok?
    ensures AutoResolvePath(fold, cfg, AutoResolvePath(fold, cfg, path).value) == AutoResolvePath(fold, cfg, path)
  {
    AutoResolveComponents(fold, cfg, path);
    var rest := Target(cfg, path);
    PlacedComponents(cfg.root, rest);
    PrefixesOfOne(Comps(cfg.virtualRoot), Comps(cfg.root), rest);
    AutoResolveComponents(fold, cfg, Placed(cfg.root, rest));
  }

  lemma RootInsideVirtual(fold: char -> char, cfg: SandboxConfig)
    requires AbsoluteRoots(cfg) && Comps(cfg.virtualRoot) != []
    requires Comps(cfg.virtualRoot) < Comps(cfg.root)
    ensures !AutoResolveIdempotent(fold, cfg)
  {
    var vs, rs := Comps(cfg.virtualRoot), Comps(cfg.root);
    CompsAreNames(cfg.root);
    AutoResolveComponents(fold, cfg, cfg.virtualRoot);
    AutoResolveComponents(fold, cfg, cfg.root);
    CompsOfAbs(rs + rs[|vs|..]);
    assert Target(cfg, cfg.virtualRoot) == [] && Target(cfg, cfg.root) == rs[|vs|..];
    assert AutoResolvePath(fold, cfg, cfg.virtualRoot) == Ok(cfg.root);
    assert Comps(AutoResolvePath(fold, cfg, cfg.root).value) == rs + rs[|vs|..] != rs;
  }

  lemma VirtualInsideRoot(fold: char -> char, cfg: SandboxConfig)
    requires AbsoluteRoots(cfg) && Comps(cfg.virtualRoot) != []
    requires Comps(cfg.root) < Comps(cfg.virtualRoot)
    ensures !AutoResolveIdempotent(fold, cfg)
  {
    var vs, rs := Comps(cfg.virtualRoot), Comps(cfg.root);
    CompsAreNames(cfg.virtualRoot);
    CompsAreNames(cfg.root);
    var rest := vs[|rs|..];
    var path := Abs(vs + rest);
    CompsOfAbs(vs + rest);
    assert rs + rest == vs && (vs + rest)[|vs|..] == rest;
    AutoResolveComponents(fold, cfg, path);
    var realPath := AutoResolvePath(fold, cfg, path).value;
    assert realPath == Abs(vs);
    CompsOfAbs(vs);
    AutoResolveComponents(fold, cfg, realPath);
    assert Target(cfg, realPath) == [];
    assert AutoResolvePath(fold, cfg, realPath) == Ok(cfg.root);
    CompsAreNames(cfg.root);
  }

  // ----- Access -----

  /** `norm` is what `normalizePath` makes of a path; a path it lacks fails to normalize. */
  predicate Matches(norm: map<string, string>, abs: string, policy: string) {
    policy in norm && IsSubpath(abs, norm[policy])
  }

  predicate Covered(norm: map<string, string>, abs: string, policies: seq<string>) {
    exists i :: 0 <= i < |policies| && Matches(norm, abs, policies[i])
  }

  predicate IsEmpty(cfg: SandboxConfig) {
    cfg.root == "" && cfg.allowPaths == [] && cfg.readonlyPaths == []
  }

  /**
    Without a policy everything is allowed. Otherwise a path that a read-only
    entry covers can be read and not written, whatever else covers it; any other
    path is allowed exactly when an allow entry or the root covers it.
    */
  method IsAllowed(cfg: SandboxConfig, norm: map<string, string>, path: string, write: bool) returns (allowed: bool)
    ensures allowed <==>
      || IsEmpty(cfg)
      || (path in norm &&
          if Covered(norm, norm[path], cfg.readonlyPaths) then !write
          else Covered(norm, norm[path], cfg.allowPaths) || (cfg.root != "" && Matches(norm, norm[path], cfg.root)))
  {
    if IsEmpty(cfg) {
      return true;
    }
    if path !in norm {
      return false;
    }
    var abs := norm[path];
    var readonlyMatched := false;
    for i := 0 to |cfg.readonlyPaths|
      invariant readonlyMatched ==> Covered(norm, abs, cfg.readonlyPaths)
      invariant !readonlyMatched ==> forall k | 0 <= k < i :: !Matches(norm, abs, cfg.readonlyPaths[k])
      invariant readonlyMatched ==> !write
    {
      var matched := IsUnder(norm, abs, cfg.readonlyPaths[i]);
      if matched {
        readonlyMatched := true;
        if write {
          return false;
        }
      }
    }
    if readonlyMatched && !write {
      return true;
    }
    allowed := IsGranted(cfg, norm, abs);
  }

  /** The second half of the decision: the allow entries, then the root. */
  method IsGranted(cfg: SandboxConfig, norm: map<string, string>, abs: string) returns (granted: bool)
    ensures granted <==> Covered(norm, abs, cfg.allowPaths) || (cfg.root != "" && Matches(norm, abs, cfg.root))
  {
    for i := 0 to |cfg.allowPaths|
      invariant forall k | 0 <= k < i :: !Matches(norm, abs, cfg.allowPaths[k])
    {
      var matched := IsUnder(norm, abs, cfg.allowPaths[i]);
      if matched {
        return true;
      }
    }
    granted := false;
    if cfg.root != "" {
      granted := IsUnder(norm, abs, cfg.root);
    }
  }

  /** One entry of the policy; an entry that does not normalize covers nothing. */
  method IsUnder(norm: map<string, string>, abs: string, policy: string) returns (under: bool)
    ensures under <==> Matches(norm, abs, policy)
  {
    if policy !in norm {
      return false;
    }
    under := IsSubpath(abs, norm[policy]);
  }

  /** What `AutoResolvePath` answers is inside the sandbox by the same component test the access decision uses. */
  lemma AutoResolvedIsCovered(fold: char -> char, cfg: SandboxConfig, path: string)
    requires AbsoluteRoots(cfg) && Comps(cfg.virtualRoot) != []
    requires AutoResolvePath(fold, cfg, path).Ok?
    ensures var realPath := AutoResolvePath(fold, cfg, path).value; IsAbs(realPath) && IsSubpath(Clean(realPath), Clean(cfg.root))
  {
    AutoResolveComponents(fold, cfg, path);
    var rs, rest := Comps(cfg.root), Target(cfg, path);
    var realPath := AutoResolvePath(fold, cfg, path).value;
    CompsAreNames(cfg.root);
    CompsOfAbs(rs + rest);
    CleanIdempotent(cfg.root);
    CleanIdempotent(realPath);
    CompsAreNames(realPath);
    SubpathIsComponentPrefix(Clean(realPath), Clean(cfg.root));
  }
}
