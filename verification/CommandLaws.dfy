/** What a parsed command line holds, and what is wrong with one that does not parse. */
module CommandLaws {
  import opened Basics
  import opened CommandParser

  // ---- short forms

  /** `c` is the short form of the flag `name`, and of none declared before it. */
  predicate NamesFlag(c: char, flags: seq<FlagDef>, name: string) {
    exists i :: 0 <= i < |flags| && flags[i].short == Some(c) && flags[i].name == name
      && forall j :: 0 <= j < i ==> flags[j].short != Some(c)
  }

  predicate NamesOption(c: char, options: seq<OptionDef>, name: string) {
    exists i :: 0 <= i < |options| && options[i].short == Some(c) && options[i].name == name
      && forall j :: 0 <= j < i ==> options[j].short != Some(c)
  }

  lemma {:induction false} FlagByShortIs(c: char, flags: seq<FlagDef>, name: string)
    ensures FlagByShort(c, flags) == Some(name) <==> NamesFlag(c, flags, name)
    ensures FlagByShort(c, flags).None? <==> forall j :: 0 <= j < |flags| ==> flags[j].short != Some(c)
  {
    if flags != [] && flags[0].short != Some(c) {
      var rest := flags[1..];
      FlagByShortIs(c, rest, name);
      if NamesFlag(c, flags, name) {
        var i :| 0 <= i < |flags| && flags[i].short == Some(c) && flags[i].name == name
          && forall j :: 0 <= j < i ==> flags[j].short != Some(c);
        assert rest[i - 1] == flags[i];
      }
      if NamesFlag(c, rest, name) {
        var i :| 0 <= i < |rest| && rest[i].short == Some(c) && rest[i].name == name
          && forall j :: 0 <= j < i ==> rest[j].short != Some(c);
        assert flags[i + 1] == rest[i];
      }
      assert forall j :: 0 < j < |flags| ==> flags[j] == rest[j - 1];
    }
  }

  lemma {:induction false} OptionByShortIs(c: char, options: seq<OptionDef>, name: string)
    ensures OptionByShort(c, options) == Some(name) <==> NamesOption(c, options, name)
    ensures OptionByShort(c, options).None? <==> forall j :: 0 <= j < |options| ==> options[j].short != Some(c)
  {
    if options != [] && options[0].short != Some(c) {
      var rest := options[1..];
      OptionByShortIs(c, rest, name);
      if NamesOption(c, options, name) {
        var i :| 0 <= i < |options| && options[i].short == Some(c) && options[i].name == name
          && forall j :: 0 <= j < i ==> options[j].short != Some(c);
        assert rest[i - 1] == options[i];
      }
      if NamesOption(c, rest, name) {
        var i :| 0 <= i < |rest| && rest[i].short == Some(c) && rest[i].name == name
          && forall j :: 0 <= j < i ==> rest[j].short != Some(c);
        assert options[i + 1] == rest[i];
      }
      assert forall j :: 0 < j < |options| ==> options[j] == rest[j - 1];
    }
  }

  // ---- options

  /** The argument stores `value` under `name`: the long name typed, or the name behind the short form typed. */
  predicate Stores(a: Arg, node: CommandNode, name: string, value: string) {
    match a
    case LongEq(n, v) => n == name && v == value
    case LongSpaced(n, v) => n == name && v == value
    case ShortsWith(_, c, v) => NamesOption(c, node.options, name) && v == value
    case _ => false
  }

  predicate StoresUnder(a: Arg, node: CommandNode, name: string) {
    match a
    case LongEq(n, _) => n == name
    case LongSpaced(n, _) => n == name
    case ShortsWith(_, c, _) => NamesOption(c, node.options, name)
    case _ => false
  }

  lemma {:induction false} GivenIs(a: Arg, node: CommandNode, name: string)
    ensures Sets(a, node, name) <==> StoresUnder(a, node, name)
    ensures Sets(a, node, name) ==> Stores(a, node, name, Given(a, node).value.1)
    ensures forall value :: Stores(a, node, name, value) ==> Given(a, node) == Some((name, value))
  {
    if a.ShortsWith? {
      OptionByShortIs(a.option, node.options, name);
    }
  }

  /** The `k`-th argument is the last one that stores anything under `name`, and it stores `value`. */
  predicate StoresLast(args: seq<Arg>, node: CommandNode, name: string, value: string, k: int) {
    && 0 <= k < |args| && Stores(args[k], node, name, value)
    && forall j :: k < j < |args| ==> !StoresUnder(args[j], node, name)
  }

  predicate Holds(options: map<string, string>, name: string, value: string) {
    name in options && options[name] == value
  }

  /** An option has a value if and only if the last argument that stores under its name stores that one. */
  lemma {:induction false} OptionIs(args: seq<Arg>, node: CommandNode, name: string, value: string)
    requires AcceptsAll(args, node)
    ensures Holds(MeaningAll(NOTHING, args, node).options, name, value) <==>
      exists k :: StoresLast(args, node, name, value, k)
  {
    forall k | 0 <= k < |args| ensures Sets(args[k], node, name) <==> StoresUnder(args[k], node, name) {
      GivenIs(args[k], node, name);
    }
    if Holds(MeaningAll(NOTHING, args, node).options, name, value) {
      OptionGivenIff(args, node, name);
      var some :| 0 <= some < |args| && Sets(args[some], node, name);
      var k := LastSet(args, node, name, some);
      LastValueWins(NOTHING, args, node, k);
      GivenIs(args[k], node, name);
      assert StoresLast(args, node, name, value, k);
    }
    if k :| StoresLast(args, node, name, value, k) {
      GivenIs(args[k], node, name);
      LastValueWins(NOTHING, args, node, k);
    }
  }

  lemma {:induction false} LastSet(args: seq<Arg>, node: CommandNode, name: string, k: nat) returns (last: nat)
    requires k < |args| && Sets(args[k], node, name)
    ensures k <= last < |args| && Sets(args[last], node, name)
    ensures forall j :: last < j < |args| ==> !Sets(args[j], node, name)
    decreases |args| - k
  {
    if j :| k < j < |args| && Sets(args[j], node, name) {
      last := LastSet(args, node, name, j);
    } else {
      last := k;
    }
  }

  // ---- flags

  /** The argument gives the flag `name`: the long name typed, or the name behind a short form typed. */
  predicate GivesFlag(a: Arg, node: CommandNode, name: string) {
    match a
    case LongFlag(n) => n == name
    case Shorts(flags) => AmongShorts(flags, node, name)
    case ShortsWith(flags, _, _) => AmongShorts(flags, node, name)
    case _ => false
  }

  predicate AmongShorts(shorts: string, node: CommandNode, name: string) {
    exists k :: 0 <= k < |shorts| && NamesFlag(shorts[k], node.flags, name)
  }

  /** `now` has the flags of `before` and one more if `given`, all of the new ones set. */
  predicate FlagAfter(before: map<string, bool>, now: map<string, bool>, name: string, given: bool) {
    && (name in now <==> name in before || given)
    && (name in now ==> if given then now[name] else now[name] == before[name])
  }

  lemma {:induction false} FlagsAfterShorts(p: Parsed, shorts: string, node: CommandNode, name: string)
    requires AllFlags(shorts, node)
    ensures FlagAfter(p.flags, SetFlags(p, shorts, node).flags, name, AmongShorts(shorts, node, name))
    decreases |shorts|
  {
    if shorts != "" {
      var first, rest := FlagByShort(shorts[0], node.flags).value, shorts[1..];
      FlagByShortIs(shorts[0], node.flags, name);
      FlagsAfterShorts(SetFlag(p, first), rest, node, name);
      assert AmongShorts(shorts, node, name) <==> first == name || AmongShorts(rest, node, name) by {
        if k :| 0 <= k < |shorts| && NamesFlag(shorts[k], node.flags, name) {
          assert k > 0 ==> rest[k - 1] == shorts[k];
        }
        if k :| 0 <= k < |rest| && NamesFlag(rest[k], node.flags, name) {
          assert shorts[k + 1] == rest[k];
        }
      }
    }
  }

  lemma {:induction false} FlagAfterOne(p: Parsed, a: Arg, node: CommandNode, name: string)
    requires Accepts(a, node)
    ensures FlagAfter(p.flags, Meaning(p, a, node).flags, name, GivesFlag(a, node, name))
  {
    match a
    case Shorts(flags) => FlagsAfterShorts(p, flags, node, name);
    case ShortsWith(flags, _, _) => FlagsAfterShorts(p, flags, node, name);
    case _ =>
  }

  lemma {:induction false} FlagAfterAll(p: Parsed, args: seq<Arg>, node: CommandNode, name: string)
    requires AcceptsAll(args, node)
    ensures FlagAfter(p.flags, MeaningAll(p, args, node).flags, name,
                      exists k :: 0 <= k < |args| && GivesFlag(args[k], node, name))
    decreases |args|
  {
    if args != [] {
      var rest := args[1..];
      FlagAfterOne(p, args[0], node, name);
      FlagAfterAll(Meaning(p, args[0], node), rest, node, name);
      if k :| 0 <= k < |args| && GivesFlag(args[k], node, name) {
        assert k > 0 ==> rest[k - 1] == args[k];
      }
      if k :| 0 <= k < |rest| && GivesFlag(rest[k], node, name) {
        assert args[k + 1] == rest[k];
      }
    }
  }

  /** A flag is there if and only if some argument gives it, and then it is set. */
  lemma {:induction false} FlagGivenIff(args: seq<Arg>, node: CommandNode, name: string)
    requires AcceptsAll(args, node)
    ensures var flags := MeaningAll(NOTHING, args, node).flags;
      && (name in flags <==> exists k :: 0 <= k < |args| && GivesFlag(args[k], node, name))
      && (name in flags ==> flags[name])
  {
    FlagAfterAll(NOTHING, args, node, name);
  }

  // ---- positional arguments

  function Positionals(args: seq<Arg>): seq<string> {
    if args == [] then []
    else (if args[0].Positional? then [args[0].text] else []) + Positionals(args[1..])
  }

  lemma {:induction false} FlagsKeepPositional(p: Parsed, shorts: string, node: CommandNode)
    requires AllFlags(shorts, node)
    ensures SetFlags(p, shorts, node).positional == p.positional
    decreases |shorts|
  {
    if shorts != "" {
      FlagsKeepPositional(SetFlag(p, FlagByShort(shorts[0], node.flags).value), shorts[1..], node);
    }
  }

  lemma {:induction false} PositionalAfter(p: Parsed, args: seq<Arg>, node: CommandNode)
    requires AcceptsAll(args, node)
    ensures MeaningAll(p, args, node).positional == p.positional + Positionals(args)
    decreases |args|
  {
    if args == [] {
      EmptyAppend(p.positional);
    } else {
      match args[0] {
        case Shorts(flags) => FlagsKeepPositional(p, flags, node);
        case ShortsWith(flags, _, _) => FlagsKeepPositional(p, flags, node);
        case _ =>
      }
      PositionalAfter(Meaning(p, args[0], node), args[1..], node);
      Assoc(p.positional, if args[0].Positional? then [args[0].text] else [], Positionals(args[1..]));
      EmptyAppend(p.positional);
    }
  }

  /** What accepted arguments amount to, said of each option, each flag and the rest in order. */
  ghost predicate Amounts(args: seq<Arg>, node: CommandNode, m: Parsed) {
    && m.positional == Positionals(args)
    && (forall name :: name in m.flags <==> exists k :: 0 <= k < |args| && GivesFlag(args[k], node, name))
    && (forall name :: name in m.flags ==> m.flags[name])
    && (forall name, value :: Holds(m.options, name, value) <==> exists k :: StoresLast(args, node, name, value, k))
  }

  lemma {:induction false} MeaningAmounts(args: seq<Arg>, node: CommandNode)
    requires AcceptsAll(args, node)
    ensures Amounts(args, node, MeaningAll(NOTHING, args, node))
  {
    var m := MeaningAll(NOTHING, args, node);
    PositionalAfter(NOTHING, args, node);
    EmptyAppend(Positionals(args));
    forall name
      ensures name in m.flags <==> exists k :: 0 <= k < |args| && GivesFlag(args[k], node, name)
      ensures name in m.flags ==> m.flags[name]
    {
      FlagGivenIff(args, node, name);
    }
    forall name, value
      ensures Holds(m.options, name, value) <==> exists k :: StoresLast(args, node, name, value, k)
    {
      OptionIs(args, node, name, value);
    }
  }

  /** There is only one such result. */
  lemma {:induction false} AmountsUnique(args: seq<Arg>, node: CommandNode, m: Parsed, n: Parsed)
    requires Amounts(args, node, m) && Amounts(args, node, n)
    ensures m == n
  {
    assert m.flags == n.flags;
    forall name | name in m.options ensures Holds(n.options, name, m.options[name]) {
      assert Holds(m.options, name, m.options[name]);
    }
    forall name | name in n.options ensures Holds(m.options, name, n.options[name]) {
      assert Holds(n.options, name, n.options[name]);
    }
    assert m.options == n.options;
  }

  // ---- which arguments a command takes

  predicate KnowsOption(node: CommandNode, name: string) {
    exists o :: o in node.options && (o.name == name || o.long == Some(name))
  }

  predicate KnowsFlag(node: CommandNode, name: string) {
    exists f :: f in node.flags && (f.name == name || f.long == Some(name))
  }

  predicate ShortOfFlag(node: CommandNode, c: char) {
    exists f :: f in node.flags && f.short == Some(c)
  }

  predicate ShortOfOption(node: CommandNode, c: char) {
    exists o :: o in node.options && o.short == Some(c)
  }

  predicate ShortFlags(node: CommandNode, shorts: string) {
    forall k :: 0 <= k < |shorts| ==> ShortOfFlag(node, shorts[k])
  }

  /** The command declares what the argument uses, and the argument is not read as another kind. */
  predicate Takes(a: Arg, node: CommandNode) {
    match a
    case LongEq(name, _) => '=' !in name && KnowsOption(node, name)
    case LongSpaced(name, _) => '=' !in name && KnowsOption(node, name) && !KnowsFlag(node, name)
    case LongFlag(name) => '=' !in name && KnowsFlag(node, name)
    case Shorts(flags) => flags != "" && flags[0] != '-' && ShortFlags(node, flags)
    case ShortsWith(flags, c, _) =>
      (flags + [c])[0] != '-' && ShortFlags(node, flags) && ShortOfOption(node, c) && !ShortOfFlag(node, c)
    case Positional(text) => text == "-" || text == "" || text[0] != '-'
  }

  predicate TakesAll(args: seq<Arg>, node: CommandNode) {
    forall k :: 0 <= k < |args| ==> Takes(args[k], node)
  }

  lemma {:induction false} KnownNames(node: CommandNode, name: string)
    ensures IsOption(name, node) <==> KnowsOption(node, name)
    ensures IsFlag(name, node) <==> KnowsFlag(node, name)
  {
    if o :| o in node.options && (o.name == name || o.long == Some(name)) {
      var k :| 0 <= k < |node.options| && node.options[k] == o;
    }
    if f :| f in node.flags && (f.name == name || f.long == Some(name)) {
      var k :| 0 <= k < |node.flags| && node.flags[k] == f;
    }
  }

  lemma {:induction false} KnownShorts(node: CommandNode, c: char)
    ensures FlagByShort(c, node.flags).Some? <==> ShortOfFlag(node, c)
    ensures OptionByShort(c, node.options).Some? <==> ShortOfOption(node, c)
  {
    FlagByShortIs(c, node.flags, "");
    OptionByShortIs(c, node.options, "");
    if o :| o in node.options && o.short == Some(c) {
      var k :| 0 <= k < |node.options| && node.options[k] == o;
    }
    if f :| f in node.flags && f.short == Some(c) {
      var k :| 0 <= k < |node.flags| && node.flags[k] == f;
    }
  }

  lemma {:induction false} AllShorts(node: CommandNode, shorts: string)
    ensures AllFlags(shorts, node) <==> ShortFlags(node, shorts)
  {
    forall k | 0 <= k < |shorts| ensures FlagByShort(shorts[k], node.flags).Some? <==> ShortOfFlag(node, shorts[k]) {
      KnownShorts(node, shorts[k]);
    }
  }

  lemma {:induction false} AcceptsIs(a: Arg, node: CommandNode)
    ensures Accepts(a, node) <==> Takes(a, node)
  {
    match a
    case LongEq(name, _) => KnownNames(node, name);
    case LongSpaced(name, _) => KnownNames(node, name);
    case LongFlag(name) => KnownNames(node, name);
    case Shorts(flags) => AllShorts(node, flags);
    case ShortsWith(flags, c, _) =>
      AllShorts(node, flags);
      KnownShorts(node, c);
    case Positional(text) =>
      assert "-" <= text <==> text != "" && text[0] == '-';
  }

  lemma {:induction false} AcceptsAllIs(args: seq<Arg>, node: CommandNode)
    ensures AcceptsAll(args, node) <==> TakesAll(args, node)
  {
    forall k | 0 <= k < |args| ensures Accepts(args[k], node) <==> Takes(args[k], node) {
      AcceptsIs(args[k], node);
    }
  }

  /** Tokens parse to `m` if and only if they are arguments the command takes, written down, that amount to `m`. */
  lemma {:induction false} ParsesIffAmounts(tokens: seq<string>, node: CommandNode, m: Parsed)
    ensures ParseArgs(tokens, node, NOTHING) == Ok(m) <==>
      exists args :: TakesAll(args, node) && WrittenAll(args) == tokens && Amounts(args, node, m)
  {
    if ParseArgs(tokens, node, NOTHING) == Ok(m) {
      var args := ArgsOf(tokens, node, NOTHING);
      AcceptsAllIs(args, node);
      ParseWrittenAll(args, node, NOTHING);
      MeaningAmounts(args, node);
      assert TakesAll(args, node) && WrittenAll(args) == tokens && Amounts(args, node, m);
    }
    if args :| TakesAll(args, node) && WrittenAll(args) == tokens && Amounts(args, node, m) {
      AcceptsAllIs(args, node);
      ParseWrittenAll(args, node, NOTHING);
      MeaningAmounts(args, node);
      AmountsUnique(args, node, m, MeaningAll(NOTHING, args, node));
    }
  }

  // ---- what is wrong with tokens that do not parse

  /** A token that cannot be used: an unknown name, or an option without its value. */
  datatype Fault =
    | UnknownEq(name: string, value: string)
    | UnknownLong(name: string)
    | LongWithoutValue(name: string)
    | UnknownShort(flags: string, c: char, rest: string)
    | ShortWithoutValue(flags: string, c: char, rest: string)

  function FaultToken(f: Fault): string {
    match f
    case UnknownEq(name, value) => "--" + name + "=" + value
    case UnknownLong(name) => "--" + name
    case LongWithoutValue(name) => "--" + name
    case UnknownShort(flags, c, rest) => "-" + (flags + [c] + rest)
    case ShortWithoutValue(flags, c, rest) => "-" + (flags + [c] + rest)
  }

  /** It is one, when `more` tokens follow it. */
  predicate IsFault(f: Fault, node: CommandNode, more: seq<string>) {
    match f
    case UnknownEq(name, _) => '=' !in name && !KnowsOption(node, name)
    case UnknownLong(name) => '=' !in name && !KnowsFlag(node, name) && !KnowsOption(node, name)
    case LongWithoutValue(name) => '=' !in name && !KnowsFlag(node, name) && KnowsOption(node, name) && more == []
    case UnknownShort(flags, c, rest) =>
      && (flags + [c] + rest)[0] != '-' && ShortFlags(node, flags)
      && !ShortOfFlag(node, c) && !ShortOfOption(node, c)
    case ShortWithoutValue(flags, c, rest) =>
      && (flags + [c] + rest)[0] != '-' && ShortFlags(node, flags)
      && !ShortOfFlag(node, c) && ShortOfOption(node, c) && (rest != "" || more == [])
  }

  function FaultError(f: Fault): ParseError {
    match f
    case UnknownEq(name, _) => UnknownOption("--" + name)
    case UnknownLong(name) => UnknownOption("--" + name)
    case LongWithoutValue(name) => MissingValue("--" + name)
    case UnknownShort(_, c, _) => UnknownOption("-" + [c])
    case ShortWithoutValue(_, c, _) => MissingValue("-" + [c])
  }

  function First(tokens: seq<string>): Option<string> {
    if tokens == [] then None else Some(tokens[0])
  }

  lemma {:induction false} UnknownEqFails(name: string, value: string, next: Option<string>, node: CommandNode,
        p: Parsed)
    requires '=' !in name && !IsOption(name, node)
    ensures ParseOne("--" + name + "=" + value, next, node, p) == Err(UnknownOption("--" + name))
  {
    var rest := name + "=" + value;
    Assoc("--", name, "=");
    Assoc("--", name + "=", value);
    Dashed(rest);
    FirstEquals(name, value);
    assert rest[..|name|] == name;
  }

  lemma {:induction false} ShortFails(flags: string, c: char, rest: string, next: Option<string>, node: CommandNode,
        p: Parsed)
    requires AllFlags(flags, node) && FlagByShort(c, node.flags).None? && (flags + [c] + rest)[0] != '-'
    requires OptionByShort(c, node.options).Some? ==> rest != "" || next.None?
    ensures ParseOne("-" + (flags + [c] + rest), next, node, p) ==
      Err(if OptionByShort(c, node.options).Some? then MissingValue("-" + [c]) else UnknownOption("-" + [c]))
  {
    OneDash(flags + [c] + rest);
    Assoc(flags, [c], rest);
    CommandParser.ShortFlags(flags, [c] + rest, next, node, p);
    assert ([c] + rest)[0] == c && |[c] + rest| == 1 + |rest|;
  }

  /** A faulty token is reported as such, wherever it stands. */
  lemma {:induction false} FaultFails(f: Fault, node: CommandNode, more: seq<string>, p: Parsed)
    requires IsFault(f, node, more)
    ensures ParseOne(FaultToken(f), First(more), node, p) == Err(FaultError(f))
  {
    match f
    case UnknownEq(name, value) =>
      KnownNames(node, name);
      UnknownEqFails(name, value, First(more), node, p);
    case UnknownLong(name) =>
      KnownNames(node, name);
      Dashed(name);
    case LongWithoutValue(name) =>
      KnownNames(node, name);
      Dashed(name);
    case UnknownShort(flags, c, rest) =>
      AllShorts(node, flags);
      KnownShorts(node, c);
      ShortFails(flags, c, rest, First(more), node, p);
    case ShortWithoutValue(flags, c, rest) =>
      AllShorts(node, flags);
      KnownShorts(node, c);
      ShortFails(flags, c, rest, First(more), node, p);
  }

  /** Accepted arguments are read, and then what follows them. */
  lemma {:induction false} ParseAfter(args: seq<Arg>, more: seq<string>, node: CommandNode, p: Parsed)
    requires AcceptsAll(args, node)
    ensures ParseArgs(WrittenAll(args) + more, node, p) == ParseArgs(more, node, MeaningAll(p, args, node))
    decreases |args|
  {
    if args == [] {
      EmptyAppend(more);
    } else {
      var a, rest := args[0], WrittenAll(args[1..]) + more;
      Assoc(Written(a), WrittenAll(args[1..]), more);
      ParseWritten(a, node, p, rest);
      assert (Written(a) + rest)[|Written(a)|..] == rest;
      ParseAfter(args[1..], more, node, Meaning(p, a, node));
    }
  }

  lemma {:induction false} LongFaultOf(name: string, more: seq<string>, node: CommandNode, p: Parsed) returns (f: Fault)
    requires ParseOne("--" + name, First(more), node, p).Err?
    ensures FaultToken(f) == "--" + name && IsFault(f, node, more)
  {
    Dashed(name);
    if '=' in name {
      var k := IndexOf(name, '=');
      var left, right := name[..k], name[k + 1..];
      KnownNames(node, left);
      f := UnknownEq(left, right);
      assert name == left + "=" + right;
      Assoc("--", left, "=");
      Assoc("--", left + "=", right);
    } else {
      KnownNames(node, name);
      f := if IsOption(name, node) then LongWithoutValue(name) else UnknownLong(name);
    }
  }

  /** The character at which a short token fails. */
  lemma {:induction false} FaultAt(chars: string, next: Option<string>, node: CommandNode, p: Parsed) returns (k: nat)
    requires ParseShort(chars, next, node, p).Err?
    ensures k < |chars| && AllFlags(chars[..k], node) && FlagByShort(chars[k], node.flags).None?
    ensures OptionByShort(chars[k], node.options).Some? ==> k + 1 < |chars| || next.None?
    decreases |chars|
  {
    var flag := FlagByShort(chars[0], node.flags);
    if flag.Some? {
      k := FaultAt(chars[1..], next, node, SetFlag(p, flag.value));
      k := k + 1;
      assert chars[..k] == [chars[0]] + chars[1..][..k - 1];
    } else {
      k := 0;
    }
  }

  lemma {:induction false} ShortFaultOf(chars: string, more: seq<string>, node: CommandNode, p: Parsed)
    returns (f: Fault)
    requires chars != "" && chars[0] != '-' && ParseShort(chars, First(more), node, p).Err?
    ensures FaultToken(f) == "-" + chars && IsFault(f, node, more)
  {
    var k := FaultAt(chars, First(more), node, p);
    var flags, c, rest := chars[..k], chars[k], chars[k + 1..];
    assert chars == flags + [c] + rest;
    AllShorts(node, flags);
    KnownShorts(node, c);
    f := if OptionByShort(c, node.options).Some? then ShortWithoutValue(flags, c, rest)
         else UnknownShort(flags, c, rest);
  }

  lemma {:induction false} FaultOf(t: string, more: seq<string>, node: CommandNode, p: Parsed) returns (f: Fault)
    requires ParseOne(t, First(more), node, p).Err?
    ensures FaultToken(f) == t && IsFault(f, node, more)
  {
    if "--" <= t {
      assert t == "--" + t[2..];
      f := LongFaultOf(t[2..], more, node, p);
    } else {
      assert t == "-" + t[1..];
      SecondDash(t);
      f := ShortFaultOf(t[1..], more, node, p);
    }
  }

  lemma {:induction false} FaultIn(tokens: seq<string>, node: CommandNode, p: Parsed)
    returns (args: seq<Arg>, f: Fault, more: seq<string>)
    requires ParseArgs(tokens, node, p).Err?
    ensures AcceptsAll(args, node) && tokens == WrittenAll(args) + [FaultToken(f)] + more && IsFault(f, node, more)
    decreases |tokens|
  {
    var t, next := tokens[0], Peek(tokens);
    assert next == First(tokens[1..]);
    var one := ParseOne(t, next, node, p);
    if one.Err? {
      args, more := [], tokens[1..];
      f := FaultOf(t, more, node, p);
      assert tokens == [] + [t] + more;
    } else {
      var a := ArgOf(t, next, node, p);
      if one.value.usedNext { UsedNextInOne(t, next, node, p); }
      var n := |Written(a)|;
      assert tokens == Written(a) + tokens[n..];
      var rest;
      rest, f, more := FaultIn(tokens[n..], node, one.value.parsed);
      args := [a] + rest;
      assert args[1..] == rest;
      Assoc(Written(a), WrittenAll(rest), [FaultToken(f)]);
      Assoc(Written(a), WrittenAll(rest) + [FaultToken(f)], more);
    }
  }

  /** The tokens are arguments the command takes, and then a fault that is reported as `e`. */
  ghost predicate FaultsAs(tokens: seq<string>, node: CommandNode, e: ParseError, args: seq<Arg>, f: Fault,
      more: seq<string>)
  {
    && TakesAll(args, node) && tokens == WrittenAll(args) + [FaultToken(f)] + more
    && IsFault(f, node, more) && FaultError(f) == e
  }

  lemma {:induction false} FaultIsReported(tokens: seq<string>, node: CommandNode, args: seq<Arg>, f: Fault,
        more: seq<string>)
    requires AcceptsAll(args, node) && tokens == WrittenAll(args) + [FaultToken(f)] + more && IsFault(f, node, more)
    ensures ParseArgs(tokens, node, NOTHING) == Err(FaultError(f))
  {
    var p, last := MeaningAll(NOTHING, args, node), [FaultToken(f)] + more;
    Assoc(WrittenAll(args), [FaultToken(f)], more);
    ParseAfter(args, last, node, NOTHING);
    assert last[0] == FaultToken(f) && Peek(last) == First(more);
    FaultFails(f, node, more, p);
  }

  /** Tokens fail with an error if and only if the first one that cannot be used is at fault in that way. */
  lemma {:induction false} FailsIffFault(tokens: seq<string>, node: CommandNode, e: ParseError)
    ensures ParseArgs(tokens, node, NOTHING) == Err(e) <==>
      exists args, f, more :: FaultsAs(tokens, node, e, args, f, more)
  {
    if ParseArgs(tokens, node, NOTHING) == Err(e) {
      var args, f, more := FaultIn(tokens, node, NOTHING);
      FaultIsReported(tokens, node, args, f, more);
      AcceptsAllIs(args, node);
      assert FaultsAs(tokens, node, e, args, f, more);
    }
    if args, f, more :| FaultsAs(tokens, node, e, args, f, more) {
      AcceptsAllIs(args, node);
      FaultIsReported(tokens, node, args, f, more);
    }
  }
}
