/**
  The arguments with which the program runs itself again as a sandbox child, and
  the child's reading of them.
  */
module Reexec {
  import Prelude

  const MARKER := "__cobot_sandbox_child__"

  /** What the parent passes on of its sandbox policy. */
  datatype Config = Config(root: string, allowPaths: seq<string>, readonlyPaths: seq<string>, allowNetwork: bool)

  /** What the child enforces. */
  datatype Options = Options(root: string, allow: seq<string>, readonly: seq<string>, noNetwork: bool)

  datatype Outcome = NotAChild | MissingCommand | Child(options: Options, command: seq<string>)

  datatype Keyword = Root | Allow | Readonly | NoNetwork | Separator | Other

  function KeywordOf(arg: string): Keyword {
    if arg == "--root" then Root
    else if arg == "--allow" then Allow
    else if arg == "--readonly" then Readonly
    else if arg == "--no-network" then NoNetwork
    else if arg == "--" then Separator
    else Other
  }

  function KeywordText(k: Keyword): string
    requires k != Other
  {
    match k
    case Root => "--root"
    case Allow => "--allow"
    case Readonly => "--readonly"
    case NoNetwork => "--no-network"
    case Separator => "--"
  }

  lemma KeywordsAreDistinct(k: Keyword)
    requires k != Other
    ensures KeywordOf(KeywordText(k)) == k
  {
    assert |"--root"| == 6 && |"--allow"| == 7 && |"--readonly"| == 10 && |"--no-network"| == 12 && |"--"| == 2;
  }

  // ----- Printing -----

  function Pairs(k: Keyword, values: seq<string>): seq<string>
    requires k != Other
  {
    if values == [] then [] else [KeywordText(k), values[0]] + Pairs(k, values[1..])
  }

  function Printed(command: string, args: seq<string>, cfg: Config): seq<string> {
    (if cfg.root != "" then [KeywordText(Root), cfg.root] else [])
    + (Pairs(Allow, cfg.allowPaths)
       + (Pairs(Readonly, cfg.readonlyPaths)
          + ((if cfg.allowNetwork then [] else [KeywordText(NoNetwork)])
             + ([KeywordText(Separator)] + ([command] + args)))))
  }

  method AppendPairs(start: seq<string>, k: Keyword, values: seq<string>) returns (out: seq<string>)
    requires k != Other
    ensures out == start + Pairs(k, values)
  {
    out := start;
    for i := 0 to |values|
      invariant out + Pairs(k, values[i..]) == start + Pairs(k, values)
    {
      Prelude.Uncons(values, i);
      Prelude.Associate(out, [KeywordText(k), values[i]], Pairs(k, values[i + 1..]));
      out := out + [KeywordText(k), values[i]];
    }
    assert out + Pairs(k, values[|values|..]) == out;
  }

  method BuildReexecArgs(command: string, args: seq<string>, cfg: Config) returns (out: seq<string>)
    ensures out == [MARKER] + Printed(command, args, cfg)
  {
    out := [MARKER];
    if cfg.root != "" {
      out := out + [KeywordText(Root), cfg.root];
    }
    out := AppendPairs(out, Allow, cfg.allowPaths);
    out := AppendPairs(out, Readonly, cfg.readonlyPaths);
    if !cfg.allowNetwork {
      out := out + [KeywordText(NoNetwork)];
    }
    out := out + [KeywordText(Separator)];
    out := out + [command];
    out := out + args;
    Regroup([MARKER], if cfg.root != "" then [KeywordText(Root), cfg.root] else [], Pairs(Allow, cfg.allowPaths),
      Pairs(Readonly, cfg.readonlyPaths), if cfg.allowNetwork then [] else [KeywordText(NoNetwork)],
      [KeywordText(Separator)], [command], args);
  }

  lemma Regroup<T>(a: seq<T>, b: seq<T>, c: seq<T>, d: seq<T>, e: seq<T>, f: seq<T>, g: seq<T>, h: seq<T>)
    ensures a + b + c + d + e + f + g + h == a + (b + (c + (d + (e + (f + (g + h))))))
    ensures e == [] ==> a + b + c + d + f + g + h == a + b + c + d + e + f + g + h
    ensures b == [] ==> a + c == a + b + c
  {
  }

  // ----- Parsing -----

  function WithValue(k: Keyword, value: string, o: Options): Options
    requires k == Root || k == Allow || k == Readonly
  {
    match k
    case Root => o.(root := value)
    case Allow => o.(allow := o.allow + [value])
    case Readonly => o.(readonly := o.readonly + [value])
  }

  function Parsed(args: seq<string>, o: Options): Outcome
    decreases |args|
  {
    if args == [] then MissingCommand
    else
      match KeywordOf(args[0])
      case Other => Parsed(args[1..], o)
      case NoNetwork => Parsed(args[1..], o.(noNetwork := true))
      case Separator => if |args| > 1 then Child(o, args[1..]) else MissingCommand
      case k => if |args| > 1 then Parsed(args[2..], WithValue(k, args[1], o)) else MissingCommand
  }

  const NO_OPTIONS := Options("", [], [], false)

  function Handled(argv: seq<string>): Outcome {
    if |argv| < 2 || argv[1] != MARKER then NotAChild else Parsed(argv[2..], NO_OPTIONS)
  }

  method HandleSandboxChildMode(argv: seq<string>) returns (outcome: Outcome)
    ensures outcome == Handled(argv)
    ensures outcome == NotAChild <==> |argv| < 2 || argv[1] != MARKER
  {
    if |argv| < 2 || argv[1] != MARKER {
      return NotAChild;
    }
    var args := argv[2..];
    var o, command, i := NO_OPTIONS, [], 0;
    assert args[0..] == args;
    while i < |args|
      invariant command == []
      invariant (if i < |args| then Parsed(args[i..], o) else MissingCommand) == Parsed(args, NO_OPTIONS)
      decreases |args| - i
    {
      assert args[i..][0] == args[i] && args[i..][1..] == args[i + 1..];
      match KeywordOf(args[i]) {
        case Other =>
        case NoNetwork => o := o.(noNetwork := true);
        case Separator =>
          command := args[i + 1..];
          break;
        case k =>
          i := i + 1;
          if i < |args| {
            o := WithValue(k, args[i], o);
            assert args[i - 1..][2..] == args[i + 1..];
          }
      }
      i := i + 1;
    }
    if |command| < 1 {
      return MissingCommand;
    }
    outcome := Child(o, command);
  }

  // ----- Reading back what was printed -----

  lemma {:induction false} PairsAreRead(k: Keyword, values: seq<string>, rest: seq<string>, o: Options)
    requires k == Allow || k == Readonly
    ensures Parsed(Pairs(k, values) + rest, o)
            == Parsed(rest, if k == Allow then o.(allow := o.allow + values) else o.(readonly := o.readonly + values))
  {
    if values == [] {
      assert Pairs(k, values) + rest == rest;
      assert o.allow + values == o.allow && o.readonly + values == o.readonly;
    } else {
      var tail := Pairs(k, values[1..]) + rest;
      Prelude.Associate([KeywordText(k), values[0]], Pairs(k, values[1..]), rest);
      KeywordsAreDistinct(k);
      assert ([KeywordText(k), values[0]] + tail)[2..] == tail;
      PairsAreRead(k, values[1..], rest, WithValue(k, values[0], o));
      assert values == [values[0]] + values[1..];
      Prelude.Associate(o.allow, [values[0]], values[1..]);
      Prelude.Associate(o.readonly, [values[0]], values[1..]);
    }
  }

  lemma RootIsRead(root: string, rest: seq<string>, o: Options)
    requires o.root == ""
    ensures Parsed((if root != "" then [KeywordText(Root), root] else []) + rest, o) == Parsed(rest, o.(root := root))
  {
    KeywordsAreDistinct(Root);
    assert ([KeywordText(Root), root] + rest)[2..] == rest;
    assert [] + rest == rest;
  }

  lemma EndIsRead(allowNetwork: bool, command: seq<string>, o: Options)
    requires command != [] && !o.noNetwork
    ensures Parsed((if allowNetwork then [] else [KeywordText(NoNetwork)]) + ([KeywordText(Separator)] + command), o)
            == Child(o.(noNetwork := !allowNetwork), command)
  {
    var end := [KeywordText(Separator)] + command;
    KeywordsAreDistinct(NoNetwork);
    KeywordsAreDistinct(Separator);
    assert ([KeywordText(NoNetwork)] + end)[1..] == end && [] + end == end && end[1..] == command;
  }

  /**
    The child reads back the policy, the command and its arguments exactly, also
    when they look like options or separators.
    */
  lemma ChildReadsThePolicy(program: string, command: string, args: seq<string>, cfg: Config)
    ensures Handled([program] + ([MARKER] + Printed(command, args, cfg)))
            == Child(Options(cfg.root, cfg.allowPaths, cfg.readonlyPaths, !cfg.allowNetwork), [command] + args)
  {
    var argv := [program] + ([MARKER] + Printed(command, args, cfg));
    assert argv[2..] == Printed(command, args, cfg);
    var end := (if cfg.allowNetwork then [] else [KeywordText(NoNetwork)]) + ([KeywordText(Separator)] + ([command] + args));
    var readonly := Pairs(Readonly, cfg.readonlyPaths) + end;
    var o := NO_OPTIONS.(root := cfg.root);
    RootIsRead(cfg.root, Pairs(Allow, cfg.allowPaths) + readonly, NO_OPTIONS);
    PairsAreRead(Allow, cfg.allowPaths, readonly, o);
    assert [] + cfg.allowPaths == cfg.allowPaths && [] + cfg.readonlyPaths == cfg.readonlyPaths;
    PairsAreRead(Readonly, cfg.readonlyPaths, end, o.(allow := cfg.allowPaths));
    EndIsRead(cfg.allowNetwork, [command] + args, o.(allow := cfg.allowPaths, readonly := cfg.readonlyPaths));
  }

  /** Different policies or commands are never printed alike. */
  lemma PrintingLosesNothing(command: string, args: seq<string>, cfg: Config, command': string, args': seq<string>, cfg': Config)
    requires Printed(command, args, cfg) == Printed(command', args', cfg')
    ensures cfg == cfg' && command == command' && args == args'
  {
    ChildReadsThePolicy("", command, args, cfg);
    ChildReadsThePolicy("", command', args', cfg');
    assert ([command] + args)[1..] == args && ([command'] + args')[1..] == args';
    assert ([command] + args)[0] == command && ([command'] + args')[0] == command';
  }

  /** Whatever arguments a child was given, printing what it read gives arguments that are read the same. */
  lemma PrintingIsCanonical(argv: seq<string>)
    requires Handled(argv).Child?
    ensures var c := Handled(argv);
            var cfg := Config(c.options.root, c.options.allow, c.options.readonly, !c.options.noNetwork);
            c.command != [] && Handled([""] + ([MARKER] + Printed(c.command[0], c.command[1..], cfg))) == c
  {
    CommandIsNotEmpty(argv[2..], NO_OPTIONS);
    var c := Handled(argv);
    assert [c.command[0]] + c.command[1..] == c.command;
    ChildReadsThePolicy("", c.command[0], c.command[1..], Config(c.options.root, c.options.allow, c.options.readonly, !c.options.noNetwork));
  }

  lemma {:induction false} CommandIsNotEmpty(args: seq<string>, o: Options)
    ensures Parsed(args, o).Child? ==> Parsed(args, o).command != []
    decreases |args|
  {
    if args != [] {
      match KeywordOf(args[0]) {
        case Other => CommandIsNotEmpty(args[1..], o);
        case NoNetwork => CommandIsNotEmpty(args[1..], o.(noNetwork := true));
        case Separator =>
        case k => if |args| > 1 { CommandIsNotEmpty(args[2..], WithValue(k, args[1], o)); }
      }
    }
  }

  /** Arguments that are no option are passed over, wherever an option is expected. */
  lemma {:induction false} OtherArgumentsAreSkipped(others: seq<string>, rest: seq<string>, o: Options)
    requires forall i | 0 <= i < |others| :: others[i] !in {"--root", "--allow", "--readonly", "--no-network", "--"}
    ensures Parsed(others + rest, o) == Parsed(rest, o)
  {
    if others == [] {
      assert others + rest == rest;
    } else {
      OtherArgumentsAreSkipped(others[1..], rest, o);
      assert others[0] !in {"--root", "--allow", "--readonly", "--no-network", "--"};
      assert (others + rest)[1..] == others[1..] + rest;
    }
  }

  /** Without a separator there is no command, whatever else there is. */
  lemma {:induction false} NoCommandWithoutSeparator(args: seq<string>, o: Options)
    requires "--" !in args
    ensures Parsed(args, o) == MissingCommand
    decreases |args|
  {
    if args != [] {
      match KeywordOf(args[0]) {
        case Other => NoCommandWithoutSeparator(args[1..], o);
        case NoNetwork => NoCommandWithoutSeparator(args[1..], o.(noNetwork := true));
        case Separator =>
        case k => if |args| > 1 { NoCommandWithoutSeparator(args[2..], WithValue(k, args[1], o)); }
      }
    }
  }
}
