/** From tokens to a command: the walk down the command tree and the grammar of arguments. */
module CommandParser {
  import opened Basics
  import Tokenizer

  datatype OptionDef = OptionDef(name: string, short: Option<char>, long: Option<string>, required: bool)

  datatype FlagDef = FlagDef(name: string, short: Option<char>, long: Option<string>)

  datatype CommandNode = CommandNode(hasHandler: bool, subcommands: map<string, CommandNode>,
                                     options: seq<OptionDef>, flags: seq<FlagDef>)

  type Tree = map<string, CommandNode>

  datatype ParseError =
    | UnknownCommand(name: string)
    | UnknownOption(name: string)
    | MissingValue(name: string)
    | MissingRequiredOption(name: string)
    | NoHandler(path: seq<string>)

  // ---- finding the command

  /** The node that a command path leads to, as `execute_command` walks it again. */
  function Resolve(tree: Tree, path: seq<string>): Option<CommandNode>
    decreases |path|
  {
    if path == [] || path[0] !in tree then None
    else if |path| == 1 then Some(tree[path[0]])
    else Resolve(tree[path[0]].subcommands, path[1..])
  }

  lemma {:induction false} ResolveSnoc(tree: Tree, path: seq<string>, name: string)
    requires path != []
    ensures Resolve(tree, path + [name]) ==
      match Resolve(tree, path)
      case None => None
      case Some(node) => if name in node.subcommands then Some(node.subcommands[name]) else None
    decreases |path|
  {
    if path[0] in tree {
      assert (path + [name])[1..] == path[1..] + [name];
      if |path| > 1 {
        ResolveSnoc(tree[path[0]].subcommands, path[1..], name);
      } else {
        assert (path + [name])[1..] == [name];
      }
    }
  }

  datatype Found = Found(path: seq<string>, node: CommandNode, rest: seq<string>)

  /** `found` splits the tokens at the end of a command path that cannot be continued. */
  ghost predicate IsCommandOf(tree: Tree, tokens: seq<string>, found: Found) {
    && found.path + found.rest == tokens
    && Resolve(tree, found.path) == Some(found.node)
    && (found.rest == [] || found.rest[0] !in found.node.subcommands)
  }

  /** `CommandParser::find_command` */
  method FindCommand(tree: Tree, tokens: seq<string>) returns (r: Result<Found, ParseError>)
    requires tokens != []
    ensures r.Ok? <==> tokens[0] in tree
    ensures r.Ok? ==> IsCommandOf(tree, tokens, r.value)
    ensures r.Err? ==> r.error == UnknownCommand(tokens[0])
  {
    if tokens[0] !in tree {
      return Err(UnknownCommand(tokens[0]));
    }
    var node := tree[tokens[0]];
    var path := [tokens[0]];
    var index := 1;
    while index < |tokens|
      invariant 1 <= index <= |tokens|
      invariant path == tokens[..index] && Resolve(tree, path) == Some(node)
    {
      if tokens[index] in node.subcommands {
        ResolveSnoc(tree, path, tokens[index]);
        node := node.subcommands[tokens[index]];
        path := path + [tokens[index]];
        index := index + 1;
      } else {
        break;
      }
    }
    r := Ok(Found(path, node, tokens[index..]));
  }

  /** Every prefix of a command path leads somewhere. */
  lemma {:induction false} ResolvePrefix(tree: Tree, path: seq<string>, more: seq<string>)
    requires path != [] && Resolve(tree, path + more).Some?
    ensures Resolve(tree, path).Some?
    ensures more != [] ==> more[0] in Resolve(tree, path).value.subcommands
    decreases |more|
  {
    if more == [] {
      assert path + more == path;
    } else {
      assert path + more == (path + [more[0]]) + more[1..];
      ResolvePrefix(tree, path + [more[0]], more[1..]);
      ResolveSnoc(tree, path, more[0]);
    }
  }

  /** There is only one way to split tokens into a command path and its arguments. */
  lemma {:induction false} CommandIsUnique(tree: Tree, tokens: seq<string>, a: Found, b: Found)
    requires IsCommandOf(tree, tokens, a) && IsCommandOf(tree, tokens, b)
    ensures a == b
  {
    var x, y := if |a.path| <= |b.path| then a else b, if |a.path| <= |b.path| then b else a;
    var n := |x.path|;
    assert x.path == tokens[..n] && y.path == tokens[..|y.path|];
    var more := tokens[n..|y.path|];
    assert y.path == x.path + more;
    assert x.rest == tokens[n..] && (more != [] ==> more[0] == x.rest[0]);
    ResolvePrefix(tree, x.path, more);
    assert a.rest == tokens[|a.path|..] && b.rest == tokens[|b.path|..];
  }

  // ---- options and flags

  predicate IsOption(name: string, node: CommandNode) {
    exists k :: 0 <= k < |node.options| && (node.options[k].long == Some(name) || node.options[k].name == name)
  }

  predicate IsFlag(name: string, node: CommandNode) {
    exists k :: 0 <= k < |node.flags| && (node.flags[k].long == Some(name) || node.flags[k].name == name)
  }

  function OptionByShort(c: char, options: seq<OptionDef>): Option<string> {
    if options == [] then None
    else if options[0].short == Some(c) then Some(options[0].name)
    else OptionByShort(c, options[1..])
  }

  function FlagByShort(c: char, flags: seq<FlagDef>): Option<string> {
    if flags == [] then None
    else if flags[0].short == Some(c) then Some(flags[0].name)
    else FlagByShort(c, flags[1..])
  }

  /** What arguments amount to. */
  datatype Parsed = Parsed(options: map<string, string>, flags: map<string, bool>, positional: seq<string>)

  const NOTHING := Parsed(map[], map[], [])

  function SetOption(p: Parsed, name: string, value: string): Parsed {
    p.(options := p.options[name := value])
  }

  function SetFlag(p: Parsed, name: string): Parsed {
    p.(flags := p.flags[name := true])
  }

  function IndexOf(s: string, c: char): (i: nat)
    requires c in s
    ensures i < |s| && s[i] == c && forall k :: 0 <= k < i ==> s[k] != c
  {
    if s[0] == c then 0 else 1 + IndexOf(s[1..], c)
  }

  datatype Taken = Taken(parsed: Parsed, usedNext: bool)

  /** The characters of a short token; an option takes the next token, and only as the last character. */
  function ParseShort(chars: string, next: Option<string>, node: CommandNode, p: Parsed): Result<Taken, ParseError>
    decreases |chars|
  {
    if chars == "" then Ok(Taken(p, false))
    else
      var c := chars[0];
      var flag, option := FlagByShort(c, node.flags), OptionByShort(c, node.options);
      if flag.Some? then ParseShort(chars[1..], next, node, SetFlag(p, flag.value))
      else if option.Some? then
        if |chars| == 1 && next.Some? then Ok(Taken(SetOption(p, option.value, next.value), true))
        else Err(MissingValue("-" + [c]))
      else Err(UnknownOption("-" + [c]))
  }

  /** One token, with a view of the one after it. */
  function ParseOne(t: string, next: Option<string>, node: CommandNode, p: Parsed): Result<Taken, ParseError> {
    if "--" <= t then
      var name := t[2..];
      if '=' in name then
        var k := IndexOf(name, '=');
        if IsOption(name[..k], node) then Ok(Taken(SetOption(p, name[..k], name[k + 1..]), false))
        else Err(UnknownOption("--" + name[..k]))
      else if IsFlag(name, node) then Ok(Taken(SetFlag(p, name), false))
      else if IsOption(name, node) then
        if next.None? then Err(MissingValue("--" + name)) else Ok(Taken(SetOption(p, name, next.value), true))
      else Err(UnknownOption("--" + name))
    else if "-" <= t && |t| > 1 then ParseShort(t[1..], next, node, p)
    else Ok(Taken(p.(positional := p.positional + [t]), false))
  }

  function Peek(tokens: seq<string>): Option<string> {
    if |tokens| > 1 then Some(tokens[1]) else None
  }

  /** An option that takes the next token needs one to be there. */
  lemma {:induction false} UsedNextIsThere(chars: string, next: Option<string>, node: CommandNode, p: Parsed)
    requires ParseShort(chars, next, node, p).Ok? && ParseShort(chars, next, node, p).value.usedNext
    ensures next.Some?
    decreases |chars|
  {
    if chars != "" && FlagByShort(chars[0], node.flags).Some? {
      UsedNextIsThere(chars[1..], next, node, SetFlag(p, FlagByShort(chars[0], node.flags).value));
    }
  }

  function ParseArgs(tokens: seq<string>, node: CommandNode, p: Parsed): Result<Parsed, ParseError>
    decreases |tokens|
  {
    if tokens == [] then Ok(p)
    else
      match ParseOne(tokens[0], Peek(tokens), node, p)
      case Err(e) => Err(e)
      case Ok(taken) =>
        if taken.usedNext && |tokens| > 1 then ParseArgs(tokens[2..], node, taken.parsed)
        else ParseArgs(tokens[1..], node, taken.parsed)
  }

  /** The loop over the characters of a short token. */
  method ShortToken(chars: string, next: Option<string>, node: CommandNode, start: Parsed)
    returns (r: Result<Taken, ParseError>)
    ensures r == ParseShort(chars, next, node, start)
  {
    var p := start;
    for j := 0 to |chars|
      invariant ParseShort(chars[j..], next, node, p) == ParseShort(chars, next, node, start)
    {
      var c := chars[j];
      assert chars[j..][1..] == chars[j + 1..];
      var flag, option := FlagByShort(c, node.flags), OptionByShort(c, node.options);
      if flag.Some? {
        p := SetFlag(p, flag.value);
      } else if option.Some? {
        if j == |chars| - 1 && next.Some? {
          return Ok(Taken(SetOption(p, option.value, next.value), true));
        } else {
          return Err(MissingValue("-" + [c]));
        }
      } else {
        return Err(UnknownOption("-" + [c]));
      }
    }
    assert chars[|chars|..] == "";
    r := Ok(Taken(p, false));
  }

  /** A token that starts with two dashes. */
  method LongToken(token: string, next: Option<string>, node: CommandNode, p: Parsed)
    returns (r: Result<Taken, ParseError>)
    requires "--" <= token
    ensures r == ParseOne(token, next, node, p)
  {
    var name := token[2..];
    if '=' in name {
      var eq := IndexOf(name, '=');
      if IsOption(name[..eq], node) {
        r := Ok(Taken(SetOption(p, name[..eq], name[eq + 1..]), false));
      } else {
        r := Err(UnknownOption("--" + name[..eq]));
      }
    } else if IsFlag(name, node) {
      r := Ok(Taken(SetFlag(p, name), false));
    } else if IsOption(name, node) {
      if next.None? {
        r := Err(MissingValue("--" + name));
      } else {
        r := Ok(Taken(SetOption(p, name, next.value), true));
      }
    } else {
      r := Err(UnknownOption("--" + name));
    }
  }

  lemma {:induction false} UsedNextInOne(t: string, next: Option<string>, node: CommandNode, p: Parsed)
    requires ParseOne(t, next, node, p).Ok? && ParseOne(t, next, node, p).value.usedNext
    ensures next.Some?
  {
    if !("--" <= t) {
      UsedNextIsThere(t[1..], next, node, p);
    }
  }

  /** `CommandParser::parse_args` */
  method ParseArguments(tokens: seq<string>, node: CommandNode) returns (r: Result<Parsed, ParseError>)
    ensures r == ParseArgs(tokens, node, NOTHING)
  {
    var p := NOTHING;
    var i := 0;
    while i < |tokens|
      invariant 0 <= i <= |tokens|
      invariant ParseArgs(tokens[i..], node, p) == ParseArgs(tokens, node, NOTHING)
    {
      var token := tokens[i];
      var next := if i + 1 < |tokens| then Some(tokens[i + 1]) else None;
      ghost var rest := tokens[i..];
      assert rest[0] == token && next == Peek(rest);
      assert rest[1..] == tokens[i + 1..] && (|rest| > 1 ==> rest[2..] == tokens[i + 2..]);
      var one: Result<Taken, ParseError>;
      if "--" <= token {
        one := LongToken(token, next, node, p);
      } else if "-" <= token && |token| > 1 {
        one := ShortToken(token[1..], next, node, p);
      } else {
        one := Ok(Taken(p.(positional := p.positional + [token]), false));
      }
      if one.Err? { return Err(one.error); }
      if one.value.usedNext {
        UsedNextInOne(token, next, node, p);
        i := i + 1;
      }
      p := one.value.parsed;
      i := i + 1;
    }
    assert tokens[i..] == [];
    r := Ok(p);
  }

  // ---- the grammar of arguments

  /** An argument as the user means it. */
  datatype Arg =
    | LongEq(name: string, value: string)
    | LongSpaced(name: string, value: string)
    | LongFlag(name: string)
    | Shorts(flags: string)
    | ShortsWith(flags: string, option: char, value: string)
    | Positional(text: string)

  /** Its tokens. */
  function Written(a: Arg): seq<string> {
    match a
    case LongEq(name, value) => ["--" + name + "=" + value]
    case LongSpaced(name, value) => ["--" + name, value]
    case LongFlag(name) => ["--" + name]
    case Shorts(flags) => ["-" + flags]
    case ShortsWith(flags, option, value) => ["-" + flags + [option], value]
    case Positional(text) => [text]
  }

  predicate AllFlags(flags: string, node: CommandNode) {
    forall k :: 0 <= k < |flags| ==> FlagByShort(flags[k], node.flags).Some?
  }

  /** An argument that the command takes, and that is not read as another kind. */
  predicate Accepts(a: Arg, node: CommandNode) {
    match a
    case LongEq(name, _) => '=' !in name && IsOption(name, node)
    case LongSpaced(name, _) => '=' !in name && IsOption(name, node) && !IsFlag(name, node)
    case LongFlag(name) => '=' !in name && IsFlag(name, node)
    case Shorts(flags) => flags != "" && flags[0] != '-' && AllFlags(flags, node)
    case ShortsWith(flags, option, _) =>
      && (flags + [option])[0] != '-' && AllFlags(flags, node)
      && FlagByShort(option, node.flags).None? && OptionByShort(option, node.options).Some?
    case Positional(text) => !("-" <= text && |text| > 1)
  }

  function SetFlags(p: Parsed, flags: string, node: CommandNode): Parsed
    requires AllFlags(flags, node)
    decreases |flags|
  {
    if flags == "" then p else SetFlags(SetFlag(p, FlagByShort(flags[0], node.flags).value), flags[1..], node)
  }

  /** What it adds. */
  function Meaning(p: Parsed, a: Arg, node: CommandNode): Parsed
    requires Accepts(a, node)
  {
    match a
    case LongEq(name, value) => SetOption(p, name, value)
    case LongSpaced(name, value) => SetOption(p, name, value)
    case LongFlag(name) => SetFlag(p, name)
    case Shorts(flags) => SetFlags(p, flags, node)
    case ShortsWith(flags, option, value) =>
      SetOption(SetFlags(p, flags, node), OptionByShort(option, node.options).value, value)
    case Positional(text) => p.(positional := p.positional + [text])
  }

  predicate AcceptsAll(args: seq<Arg>, node: CommandNode) {
    forall k :: 0 <= k < |args| ==> Accepts(args[k], node)
  }

  function WrittenAll(args: seq<Arg>): seq<string> {
    if args == [] then [] else Written(args[0]) + WrittenAll(args[1..])
  }

  function MeaningAll(p: Parsed, args: seq<Arg>, node: CommandNode): Parsed
    requires AcceptsAll(args, node)
    decreases |args|
  {
    if args == [] then p else MeaningAll(Meaning(p, args[0], node), args[1..], node)
  }

  /** Leading flags of a short token are set, and the rest is parsed after them. */
  lemma {:induction false} ShortFlags(flags: string, rest: string, next: Option<string>, node: CommandNode, p: Parsed)
    requires AllFlags(flags, node)
    ensures ParseShort(flags + rest, next, node, p) == ParseShort(rest, next, node, SetFlags(p, flags, node))
    decreases |flags|
  {
    if flags == "" {
      assert flags + rest == rest;
    } else {
      assert (flags + rest)[1..] == flags[1..] + rest;
      ShortFlags(flags[1..], rest, next, node, SetFlag(p, FlagByShort(flags[0], node.flags).value));
    }
  }

  lemma {:induction false} FirstEquals(name: string, value: string)
    requires '=' !in name
    ensures '=' in name + "=" + value && IndexOf(name + "=" + value, '=') == |name|
  {
    var s := name + "=" + value;
    assert s[|name|] == '=';
    assert forall k :: 0 <= k < |name| ==> s[k] == name[k] != '=';
  }

  lemma {:induction false} TwoDashes(t: string)
    ensures "--" <= t ==> "-" <= t && |t| > 1
  {
    if "--" <= t {
      assert t[0] == "--"[0] == '-';
    }
  }

  lemma {:induction false} Dashed(name: string)
    ensures "--" <= "--" + name && ("--" + name)[2..] == name
  {
  }

  lemma {:induction false} ParseLongEq(name: string, value: string, next: Option<string>, node: CommandNode, p: Parsed)
    requires '=' !in name && IsOption(name, node)
    ensures ParseOne("--" + name + "=" + value, next, node, p) == Ok(Taken(SetOption(p, name, value), false))
  {
    var rest := name + "=" + value;
    Assoc("--", name, "=");
    Assoc("--", name + "=", value);
    Dashed(rest);
    FirstEquals(name, value);
    assert rest[..|name|] == name && rest[|name| + 1..] == value;
  }

  lemma {:induction false} OneDash(chars: string)
    requires chars != "" && chars[0] != '-'
    ensures var t := "-" + chars; !("--" <= t) && "-" <= t && |t| > 1 && t[1..] == chars
  {
    var t := "-" + chars;
    assert t[1] == chars[0];
  }

  lemma {:induction false} ParseShorts(flags: string, next: Option<string>, node: CommandNode, p: Parsed)
    requires flags != "" && flags[0] != '-' && AllFlags(flags, node)
    ensures ParseOne("-" + flags, next, node, p) == Ok(Taken(SetFlags(p, flags, node), false))
  {
    OneDash(flags);
    ShortFlags(flags, "", next, node, p);
    EmptyAppend(flags);
  }

  lemma {:induction false} ParseShortsWith(flags: string, option: char, next: Option<string>, node: CommandNode,
        p: Parsed)
    requires (flags + [option])[0] != '-' && AllFlags(flags, node) && next.Some?
    requires FlagByShort(option, node.flags).None? && OptionByShort(option, node.options).Some?
    ensures ParseOne("-" + flags + [option], next, node, p)
      == Ok(Taken(SetOption(SetFlags(p, flags, node), OptionByShort(option, node.options).value, next.value), true))
  {
    Assoc("-", flags, [option]);
    OneDash(flags + [option]);
    ShortFlags(flags, [option], next, node, p);
  }

  /** The tokens of an accepted argument, whatever follows, are read as that argument. */
  lemma {:induction false} ParseWritten(a: Arg, node: CommandNode, p: Parsed, more: seq<string>)
    requires Accepts(a, node)
    ensures var tokens := Written(a) + more;
      ParseOne(tokens[0], Peek(tokens), node, p) == Ok(Taken(Meaning(p, a, node), |Written(a)| == 2))
  {
    var next := Peek(Written(a) + more);
    match a
    case LongEq(name, value) => ParseLongEq(name, value, next, node, p);
    case LongSpaced(name, value) => Dashed(name);
    case LongFlag(name) => Dashed(name);
    case Shorts(flags) => ParseShorts(flags, next, node, p);
    case ShortsWith(flags, option, value) => ParseShortsWith(flags, option, next, node, p);
    case Positional(text) => TwoDashes(text);
  }

  /** Round trip: written arguments parse to what they mean. */
  lemma {:induction false} ParseWrittenAll(args: seq<Arg>, node: CommandNode, p: Parsed)
    requires AcceptsAll(args, node)
    ensures ParseArgs(WrittenAll(args), node, p) == Ok(MeaningAll(p, args, node))
    decreases |args|
  {
    if args != [] {
      var a, more := args[0], WrittenAll(args[1..]);
      var tokens := Written(a) + more;
      ParseWritten(a, node, p, more);
      assert tokens[|Written(a)|..] == more;
      ParseWrittenAll(args[1..], node, Meaning(p, a, node));
    }
  }

  /** A short token that parses is flags, or flags and one option that takes the next token. */
  lemma {:induction false} SplitShort(chars: string, next: Option<string>, node: CommandNode, p: Parsed)
    returns (flags: string)
    requires ParseShort(chars, next, node, p).Ok?
    ensures AllFlags(flags, node)
    ensures !ParseShort(chars, next, node, p).value.usedNext ==> chars == flags
    ensures ParseShort(chars, next, node, p).value.usedNext ==>
      && next.Some? && |chars| == |flags| + 1 && chars[..|flags|] == flags
      && FlagByShort(chars[|flags|], node.flags).None? && OptionByShort(chars[|flags|], node.options).Some?
    decreases |chars|
  {
    if chars == "" || FlagByShort(chars[0], node.flags).None? {
      flags := "";
    } else {
      var rest := SplitShort(chars[1..], next, node, SetFlag(p, FlagByShort(chars[0], node.flags).value));
      flags := [chars[0]] + rest;
      assert chars == [chars[0]] + chars[1..];
    }
  }

  lemma {:induction false} SecondDash(t: string)
    requires "-" <= t && |t| > 1
    ensures "--" <= t <==> t[1] == '-'
  {
    assert t[0] == "-"[0] == '-' && t[..2] == [t[0], t[1]];
  }

  lemma {:induction false} LongArgOf(name: string, next: Option<string>, node: CommandNode, p: Parsed) returns (a: Arg)
    requires ParseOne("--" + name, next, node, p).Ok?
    ensures Accepts(a, node)
    ensures Written(a) == if ParseOne("--" + name, next, node, p).value.usedNext && next.Some?
                          then ["--" + name, next.value] else ["--" + name]
  {
    Dashed(name);
    if '=' in name {
      var k := IndexOf(name, '=');
      var left, right := name[..k], name[k + 1..];
      a := LongEq(left, right);
      assert name == left + "=" + right;
      Assoc("--", left, "=");
      Assoc("--", left + "=", right);
    } else if IsFlag(name, node) {
      a := LongFlag(name);
    } else {
      a := LongSpaced(name, next.value);
    }
  }

  lemma {:induction false} ShortArgOf(chars: string, next: Option<string>, node: CommandNode,
        p: Parsed) returns (a: Arg)
    requires chars != "" && chars[0] != '-' && ParseShort(chars, next, node, p).Ok?
    ensures Accepts(a, node)
    ensures Written(a) == if ParseShort(chars, next, node, p).value.usedNext && next.Some?
                          then ["-" + chars, next.value] else ["-" + chars]
  {
    var flags := SplitShort(chars, next, node, p);
    if ParseShort(chars, next, node, p).value.usedNext {
      var n := |flags|;
      a := ShortsWith(flags, chars[n], next.value);
      assert chars == flags + [chars[n]];
      Assoc("-", flags, [chars[n]]);
    } else {
      a := Shorts(flags);
    }
  }

  /** What one or two tokens are read as can be written as an argument again. */
  lemma {:induction false} ArgOf(t: string, next: Option<string>, node: CommandNode, p: Parsed) returns (a: Arg)
    requires ParseOne(t, next, node, p).Ok?
    ensures Accepts(a, node)
    ensures Written(a) == if ParseOne(t, next, node, p).value.usedNext && next.Some? then [t, next.value] else [t]
  {
    if "--" <= t {
      assert t == "--" + t[2..];
      a := LongArgOf(t[2..], next, node, p);
    } else if "-" <= t && |t| > 1 {
      var chars := t[1..];
      assert t == "-" + chars;
      SecondDash(t);
      a := ShortArgOf(chars, next, node, p);
    } else {
      a := Positional(t);
    }
  }

  lemma {:induction false} ArgsOf(tokens: seq<string>, node: CommandNode, p: Parsed) returns (args: seq<Arg>)
    requires ParseArgs(tokens, node, p).Ok?
    ensures AcceptsAll(args, node) && WrittenAll(args) == tokens
    decreases |tokens|
  {
    if tokens == [] {
      args := [];
    } else {
      var one := ParseOne(tokens[0], Peek(tokens), node, p).value;
      var a := ArgOf(tokens[0], Peek(tokens), node, p);
      if one.usedNext { UsedNextInOne(tokens[0], Peek(tokens), node, p); }
      var n := |Written(a)|;
      assert tokens == Written(a) + tokens[n..];
      var rest := ArgsOf(tokens[n..], node, one.parsed);
      args := [a] + rest;
      assert args[1..] == rest;
    }
  }

  /** Tokens parse to `m` if and only if they are accepted arguments, written down, that mean `m`. */
  lemma {:induction false} ParsesIffWritten(tokens: seq<string>, node: CommandNode, m: Parsed)
    ensures ParseArgs(tokens, node, NOTHING) == Ok(m) <==>
      exists args :: AcceptsAll(args, node) && WrittenAll(args) == tokens && MeaningAll(NOTHING, args, node) == m
  {
    if ParseArgs(tokens, node, NOTHING) == Ok(m) {
      var args := ArgsOf(tokens, node, NOTHING);
      ParseWrittenAll(args, node, NOTHING);
      assert AcceptsAll(args, node) && WrittenAll(args) == tokens && MeaningAll(NOTHING, args, node) == m;
    }
    if args :| AcceptsAll(args, node) && WrittenAll(args) == tokens && MeaningAll(NOTHING, args, node) == m {
      ParseWrittenAll(args, node, NOTHING);
    }
  }

  // ---- the whole parser

  predicate HasRequired(node: CommandNode, options: map<string, string>) {
    forall k :: 0 <= k < |node.options| && node.options[k].required ==> node.options[k].name in options
  }

  /** `name` is the first required option, in declaration order, without a value. */
  ghost predicate IsFirstMissing(node: CommandNode, options: map<string, string>, name: string) {
    name !in options && exists k ::
      && 0 <= k < |node.options| && node.options[k].required && node.options[k].name == name
      && forall j :: 0 <= j < k && node.options[j].required ==> node.options[j].name in options
  }

  /** `CommandParser::validate_required_options` */
  method ValidateRequiredOptions(node: CommandNode, options: map<string, string>) returns (missing: Option<string>)
    ensures missing.None? <==> HasRequired(node, options)
    ensures missing.Some? ==> IsFirstMissing(node, options, missing.value)
  {
    for k := 0 to |node.options|
      invariant forall j :: 0 <= j < k && node.options[j].required ==> node.options[j].name in options
    {
      if node.options[k].required && node.options[k].name !in options {
        return Some(node.options[k].name);
      }
    }
    missing := None;
  }

  datatype ParsedCommand = ParsedCommand(path: seq<string>, args: Parsed)

  /** `cmd` is what the tokens say: a command path, and accepted arguments with all required options. */
  ghost predicate IsParseOf(tree: Tree, tokens: seq<string>, cmd: ParsedCommand) {
    exists node, rest ::
      && IsCommandOf(tree, tokens, Found(cmd.path, node, rest))
      && ParseArgs(rest, node, NOTHING) == Ok(cmd.args) && HasRequired(node, cmd.args.options)
  }

  /** What is reported when the arguments of a command that was found cannot be used. */
  ghost predicate IsArgumentError(found: Found, error: ParseError) {
    match ParseArgs(found.rest, found.node, NOTHING)
    case Err(e) => error == e
    case Ok(args) => error.MissingRequiredOption? && IsFirstMissing(found.node, args.options, error.name)
  }

  /** What is reported about tokens that no command can be made of. */
  ghost predicate IsErrorOf(tree: Tree, tokens: seq<string>, error: ParseError) {
    if tokens == [] then error == UnknownCommand("empty command")
    else if tokens[0] !in tree then error == UnknownCommand(tokens[0])
    else exists found :: IsCommandOf(tree, tokens, found) && IsArgumentError(found, error)
  }

  /** `CommandParser::parse` */
  method Parse(tree: Tree, input: string) returns (r: Result<ParsedCommand, ParseError>)
    ensures forall cmd :: r == Ok(cmd) <==> IsParseOf(tree, Tokenizer.Tokens(input), cmd)
    ensures r.Err? ==> IsErrorOf(tree, Tokenizer.Tokens(input), r.error)
  {
    var tokens := Tokenizer.Tokenize(input);
    if tokens == [] {
      return Err(UnknownCommand("empty command"));
    }
    var found := FindCommand(tree, tokens);
    forall cmd ensures IsParseOf(tree, tokens, cmd) <==>
      && found.Ok? && cmd.path == found.value.path
      && ParseArgs(found.value.rest, found.value.node, NOTHING) == Ok(cmd.args)
      && HasRequired(found.value.node, cmd.args.options)
    {
      ParseOfFound(tree, tokens, found, cmd);
    }
    if found.Err? { return Err(found.error); }
    var args := ParseArguments(found.value.rest, found.value.node);
    if args.Err? {
      assert IsArgumentError(found.value, args.error);
      return Err(args.error);
    }
    var missing := ValidateRequiredOptions(found.value.node, args.value.options);
    if missing.Some? {
      r := Err(MissingRequiredOption(missing.value));
      assert IsArgumentError(found.value, r.error);
      return;
    }
    r := Ok(ParsedCommand(found.value.path, args.value));
  }

  lemma {:induction false} ParseOfFound(tree: Tree, tokens: seq<string>, found: Result<Found, ParseError>,
        cmd: ParsedCommand)
    requires tokens != [] && (found.Ok? <==> tokens[0] in tree)
    requires found.Ok? ==> IsCommandOf(tree, tokens, found.value)
    ensures IsParseOf(tree, tokens, cmd) <==>
      && found.Ok? && cmd.path == found.value.path
      && ParseArgs(found.value.rest, found.value.node, NOTHING) == Ok(cmd.args)
      && HasRequired(found.value.node, cmd.args.options)
  {
    if IsParseOf(tree, tokens, cmd) {
      var node, rest :| IsCommandOf(tree, tokens, Found(cmd.path, node, rest))
        && ParseArgs(rest, node, NOTHING) == Ok(cmd.args) && HasRequired(node, cmd.args.options);
      assert cmd.path[0] == tokens[0];
      CommandIsUnique(tree, tokens, found.value, Found(cmd.path, node, rest));
    }
  }

  /**
   * Round trip of a whole line: a command path and accepted arguments, quoted, escaped and spaced at will,
   * parse back to that path and meaning.
   */
  lemma {:induction false} LineRoundTrip(tree: Tree, path: seq<string>, node: CommandNode, args: seq<Arg>,
        words: seq<Tokenizer.Word>, tail: string)
    requires Resolve(tree, path) == Some(node) && AcceptsAll(args, node)
    requires WrittenAll(args) != [] ==> WrittenAll(args)[0] !in node.subcommands
    requires HasRequired(node, MeaningAll(NOTHING, args, node).options)
    requires Tokenizer.ProperLine(words) && Tokenizer.AllSpace(tail)
    requires Tokenizer.Texts(words) == path + WrittenAll(args)
    ensures IsParseOf(tree, Tokenizer.Tokens(Tokenizer.WriteLine(words) + tail),
                      ParsedCommand(path, MeaningAll(NOTHING, args, node)))
  {
    Tokenizer.TokensOfLine(words, tail);
    ParseWrittenAll(args, node, NOTHING);
    var tokens := Tokenizer.Tokens(Tokenizer.WriteLine(words) + tail);
    assert IsCommandOf(tree, tokens, Found(path, node, WrittenAll(args)));
  }

  /** `execute_command` walks the parsed path again: it cannot fail, and it is the node that was parsed for. */
  lemma {:induction false} ReWalkSucceeds(tree: Tree, tokens: seq<string>, cmd: ParsedCommand)
    requires IsParseOf(tree, tokens, cmd)
    ensures cmd.path != [] && Resolve(tree, cmd.path).Some?
    ensures exists rest :: IsCommandOf(tree, tokens, Found(cmd.path, Resolve(tree, cmd.path).value, rest))
  {
    var node, rest :| IsCommandOf(tree, tokens, Found(cmd.path, node, rest))
      && ParseArgs(rest, node, NOTHING) == Ok(cmd.args) && HasRequired(node, cmd.args.options);
    assert IsCommandOf(tree, tokens, Found(cmd.path, Resolve(tree, cmd.path).value, rest));
  }

  /** `execute_command`: both lookups of the second walk succeed, and the handler found is the parsed node's. */
  method ExecuteCommand(tree: Tree, input: string) returns (r: Result<ParsedCommand, ParseError>)
    ensures forall cmd :: r == Ok(cmd) <==>
      && IsParseOf(tree, Tokenizer.Tokens(input), cmd)
      && Resolve(tree, cmd.path).Some? && Resolve(tree, cmd.path).value.hasHandler
    ensures r.Err? && !IsErrorOf(tree, Tokenizer.Tokens(input), r.error) ==>
      exists cmd :: IsParseOf(tree, Tokenizer.Tokens(input), cmd) && r.error == NoHandler(cmd.path)
  {
    var parsed := Parse(tree, input);
    if parsed.Err? { return Err(parsed.error); }
    var path := parsed.value.path;
    assert parsed == Ok(parsed.value);
    ReWalkSucceeds(tree, Tokenizer.Tokens(input), parsed.value);
    assert path[..1] + path[1..] == path;
    ResolvePrefix(tree, path[..1], path[1..]);
    var node := tree[path[0]];
    for k := 1 to |path|
      invariant Resolve(tree, path[..k]) == Some(node)
    {
      assert path[..k] + path[k..] == path;
      ResolvePrefix(tree, path[..k], path[k..]);
      ResolveSnoc(tree, path[..k], path[k]);
      assert path[..k + 1] == path[..k] + [path[k]];
      node := node.subcommands[path[k]];
    }
    assert path[..|path|] == path;
    r := if node.hasHandler then Ok(parsed.value) else Err(NoHandler(path));
  }

  // ---- when a required option counts as given

  /**
   * The name an argument stores a value under, and the value. A long form stores under the name as typed,
   * which need not be the option's own.
   */
  function Given(a: Arg, node: CommandNode): Option<(string, string)> {
    match a
    case LongEq(name, value) => Some((name, value))
    case LongSpaced(name, value) => Some((name, value))
    case ShortsWith(_, option, value) =>
      var name := OptionByShort(option, node.options);
      if name.Some? then Some((name.value, value)) else None
    case _ => None
  }

  predicate Sets(a: Arg, node: CommandNode, name: string) {
    Given(a, node).Some? && Given(a, node).value.0 == name
  }

  lemma {:induction false} FlagsKeepOptions(p: Parsed, flags: string, node: CommandNode)
    requires AllFlags(flags, node)
    ensures SetFlags(p, flags, node).options == p.options
    decreases |flags|
  {
    if flags != "" {
      FlagsKeepOptions(SetFlag(p, FlagByShort(flags[0], node.flags).value), flags[1..], node);
    }
  }

  lemma {:induction false} OptionsAfterOne(p: Parsed, a: Arg, node: CommandNode)
    requires Accepts(a, node)
    ensures Meaning(p, a, node).options ==
      match Given(a, node)
      case None => p.options
      case Some((name, value)) => p.options[name := value]
  {
    match a
    case Shorts(flags) => FlagsKeepOptions(p, flags, node);
    case ShortsWith(flags, _, _) => FlagsKeepOptions(p, flags, node);
    case _ =>
  }

  lemma {:induction false} OptionsAfter(p: Parsed, args: seq<Arg>, node: CommandNode, name: string)
    requires AcceptsAll(args, node)
    ensures name in MeaningAll(p, args, node).options <==>
      name in p.options || exists k :: 0 <= k < |args| && Sets(args[k], node, name)
    decreases |args|
  {
    if args != [] {
      OptionsAfterOne(p, args[0], node);
      OptionsAfter(Meaning(p, args[0], node), args[1..], node, name);
      assert (exists k :: 0 <= k < |args| && Sets(args[k], node, name)) <==>
        Sets(args[0], node, name) || exists k :: 0 <= k < |args[1..]| && Sets(args[1..][k], node, name)
      by {
        if k :| 0 <= k < |args| && Sets(args[k], node, name) {
          assert k > 0 ==> args[1..][k - 1] == args[k];
        }
      }
    }
  }

  /** An option has a value if and only if some argument stores one under its very name. */
  lemma {:induction false} OptionGivenIff(args: seq<Arg>, node: CommandNode, name: string)
    requires AcceptsAll(args, node)
    ensures name in MeaningAll(NOTHING, args, node).options <==>
      exists k :: 0 <= k < |args| && Sets(args[k], node, name)
  {
    OptionsAfter(NOTHING, args, node, name);
  }

  /** And then it has the last value stored so. */
  lemma {:induction false} LastValueWins(p: Parsed, args: seq<Arg>, node: CommandNode, k: nat)
    requires AcceptsAll(args, node) && k < |args| && Given(args[k], node).Some?
    requires forall j :: k < j < |args| ==> !Sets(args[j], node, Given(args[k], node).value.0)
    ensures var (name, value) := Given(args[k], node).value;
      var options := MeaningAll(p, args, node).options;
      name in options && options[name] == value
    decreases |args|
  {
    OptionsAfterOne(p, args[0], node);
    if k > 0 {
      LastValueWins(Meaning(p, args[0], node), args[1..], node, k - 1);
    } else {
      var (name, value) := Given(args[0], node).value;
      OptionKept(Meaning(p, args[0], node), args[1..], node, name, value);
    }
  }

  lemma {:induction false} OptionKept(p: Parsed, args: seq<Arg>, node: CommandNode, name: string, value: string)
    requires AcceptsAll(args, node) && name in p.options && p.options[name] == value
    requires forall j :: 0 <= j < |args| ==> !Sets(args[j], node, name)
    ensures var options := MeaningAll(p, args, node).options; name in options && options[name] == value
    decreases |args|
  {
    if args != [] {
      OptionsAfterOne(p, args[0], node);
      OptionKept(Meaning(p, args[0], node), args[1..], node, name, value);
    }
  }

  /**
   * Validation passes if and only if every required option is stored under its own name by some argument: a
   * long form that differs from the name does not count, however often it is given.
   */
  lemma {:induction false} RequiredGivenIff(args: seq<Arg>, node: CommandNode)
    requires AcceptsAll(args, node)
    ensures HasRequired(node, MeaningAll(NOTHING, args, node).options) <==>
      forall i :: 0 <= i < |node.options| && node.options[i].required ==>
        exists k :: 0 <= k < |args| && Sets(args[k], node, node.options[i].name)
  {
    forall i | 0 <= i < |node.options|
      ensures node.options[i].name in MeaningAll(NOTHING, args, node).options <==>
        exists k :: 0 <= k < |args| && Sets(args[k], node, node.options[i].name)
    {
      OptionGivenIff(args, node, node.options[i].name);
    }
  }
}
