/** The parser, normaliser and printer of base/command_line.cc around the three fields that have to
    agree: argv_, switches_ and begin_args_. */
module CommandLines {
  import opened Basics
  import opened Text
  import opened Quoting
  import opened Splitting
  import StringSplit

  /** The two builds.  On Windows the slash prefix can be turned off for the whole process. */
  datatype Platform = Windows(slashIsSwitch: bool) | Posix

  const TERMINATOR := "--"

  function Prefixes(p: Platform): seq<string> {
    if p.Windows? && p.slashIsSwitch then ["--", "-", "/"] else ["--", "-"]
  }

  function LowerOnWindows(p: Platform, s: string): string {
    if p.Windows? then Lower(s) else s
  }

  function PrefixLength(p: Platform, s: string): (n: nat)
    ensures n <= |s|
  {
    if |s| >= 2 && s[0] == '-' && s[1] == '-' then 2
    else if s != "" && (s[0] == '-' || (s[0] == '/' && p.Windows? && p.slashIsSwitch)) then 1
    else 0
  }

  method GetSwitchPrefixLength(p: Platform, s: string) returns (n: nat)
    ensures n == PrefixLength(p, s)
  {
    var prefixes := Prefixes(p);
    for i := 0 to |prefixes|
      invariant i > 0 ==> !("--" <= s)
      invariant i > 1 ==> !("-" <= s)
      invariant i > 2 ==> !("/" <= s)
    {
      if prefixes[i] <= s {
        assert s[..|prefixes[i]|] == prefixes[i];
        return |prefixes[i]|;
      }
    }
    assert s != "" ==> s[..1] == [s[0]];
    return 0;
  }

  predicate IsSwitchToken(p: Platform, s: string) {
    PrefixLength(p, s) != 0 && PrefixLength(p, s) != |s|
  }

  function NamePart(s: string): string {
    s[..Find(s, '=')]
  }

  function ValuePart(s: string): string {
    var n := Find(s, '=');
    if n < |s| then s[n + 1..] else ""
  }

  method IsSwitch(p: Platform, s: string) returns (found: bool, name: string, value: string)
    ensures found == IsSwitchToken(p, s)
    ensures found ==> name == NamePart(s) && value == ValuePart(s)
    ensures !found ==> name == "" && value == ""
  {
    name, value := "", "";
    var prefixLength := GetSwitchPrefixLength(p, s);
    if prefixLength == 0 || prefixLength == |s| {
      return false, name, value;
    }
    var equals := Find(s, '=');
    name := s[..equals];
    if equals < |s| {
      value := s[equals + 1..];
    }
    return true, name, value;
  }

  // ---------------------------------------------------------------- switches and how they are rendered

  /** A switch as it is appended: the name (lower-cased on Windows, prefix and all) and the value. */
  datatype Switch = Switch(name: string, value: string)

  function MakeSwitch(p: Platform, name: string, value: string): Switch {
    Switch(LowerOnWindows(p, name), value)
  }

  function Key(p: Platform, sw: Switch): string {
    sw.name[PrefixLength(p, sw.name)..]
  }

  function Render(p: Platform, sw: Switch): string {
    (if PrefixLength(p, sw.name) == 0 then "--" + sw.name else sw.name)
    + (if sw.value != "" then "=" + sw.value else "")
  }

  function RenderAll(p: Platform, sws: seq<Switch>): (es: seq<string>)
    ensures |es| == |sws|
    ensures forall i :: 0 <= i < |es| ==> es[i] == Render(p, sws[i])
  {
    seq(|sws|, i requires 0 <= i < |sws| => Render(p, sws[i]))
  }

  /** The map that the appends leave behind. */
  function SwitchMap(p: Platform, sws: seq<Switch>): map<string, string> {
    if sws == [] then map[]
    else SwitchMap(p, sws[..|sws| - 1])[Key(p, sws[|sws| - 1]) := sws[|sws| - 1].value]
  }

  /** Later switches win: a key is bound to the value of the last switch that has it. */
  lemma {:induction false} LastWriterWins(p: Platform, sws: seq<Switch>, k: string)
    ensures k in SwitchMap(p, sws) <==> exists i :: 0 <= i < |sws| && Key(p, sws[i]) == k
    ensures forall i :: 0 <= i < |sws| && Key(p, sws[i]) == k
              && (forall j :: i < j < |sws| ==> Key(p, sws[j]) != k)
              ==> k in SwitchMap(p, sws) && SwitchMap(p, sws)[k] == sws[i].value
  {
    if sws != [] {
      var n := |sws| - 1;
      var init := sws[..n];
      LastWriterWins(p, init, k);
      assert forall i :: 0 <= i < n ==> init[i] == sws[i];
      if Key(p, sws[n]) != k {
        assert k in SwitchMap(p, sws) <==> k in SwitchMap(p, init);
      }
    }
  }

  // ---------------------------------------------------------------- parsing a token list

  datatype Parsed = Parsed(switches: seq<Switch>, args: seq<string>)

  function TokenSwitch(p: Platform, t: string): Switch {
    MakeSwitch(p, NamePart(t), ValuePart(t))
  }

  function ParseOne(p: Platform, t: string, on: bool): Parsed {
    if on && IsSwitchToken(p, t) then Parsed([TokenSwitch(p, t)], []) else Parsed([], [t])
  }

  /** What a list of trimmed tokens contributes; a terminator turns switch parsing off for good. */
  function Parse(p: Platform, ts: seq<string>, on: bool): Parsed {
    if ts == [] then Parsed([], [])
    else
      var still := on && ts[0] != TERMINATOR;
      var one, rest := ParseOne(p, ts[0], still), Parse(p, ts[1..], still);
      Parsed(one.switches + rest.switches, one.args + rest.args)
  }

  /** A command line's meaning: the wrappers and the program, then the switches in append order,
      then the other arguments in order. */
  datatype Line = Line(head: seq<string>, switches: seq<Switch>, args: seq<string>)

  function Argv(p: Platform, line: Line): seq<string> {
    line.head + RenderAll(p, line.switches) + line.args
  }

  function Extend(line: Line, more: Parsed): Line {
    Line(line.head, line.switches + more.switches, line.args + more.args)
  }

  /** The tokens of an argument vector: everything but the program, trimmed. */
  function Tokens(v: seq<string>): seq<string> {
    if v == [] then [] else TrimAll(v[1..])
  }

  function InitLine(p: Platform, v: seq<string>): Line {
    Extend(Line([if v == [] then "" else Trim(v[0])], [], []), Parse(p, Tokens(v), true))
  }

  function WithoutFirst(args: seq<string>, x: string): seq<string> {
    if args == [] then []
    else if args[0] == x then args[1..]
    else [args[0]] + WithoutFirst(args[1..], x)
  }

  lemma {:induction false} WithoutFirstAt(args: seq<string>, x: string, i: nat)
    requires i <= |args| && x !in args[..i] && (i < |args| ==> args[i] == x)
    ensures WithoutFirst(args, x) == if i < |args| then args[..i] + args[i + 1..] else args
    decreases i
  {
    if i > 0 {
      assert args[0] == args[..i][0] && args[1..][..i - 1] == args[..i][1..];
      WithoutFirstAt(args[1..], x, i - 1);
      assert args[..i] == [args[0]] + args[..i][1..];
    }
  }

  // ---------------------------------------------------------------- copying switches

  function CopyOne(p: Platform, sws: seq<Switch>, source: map<string, string>, name: string): seq<Switch> {
    var k := LowerOnWindows(p, name);
    if k in source then sws + [MakeSwitch(p, name, source[k])] else sws
  }

  /** Copying one name after the other; a line that copies from itself finds what it has just
      appended. */
  function CopyAll(p: Platform, sws: seq<Switch>, within: bool, source: map<string, string>, names: seq<string>)
    : seq<Switch>
    decreases |names|
  {
    if names == [] then sws
    else CopyAll(p, CopyOne(p, sws, if within then SwitchMap(p, sws) else source, names[0]), within, source, names[1..])
  }

  /** The switches that the source has among the names, with the source's values. */
  function CopiedSwitches(p: Platform, source: map<string, string>, names: seq<string>): seq<Switch> {
    if names == [] then [] else CopyOne(p, [], source, names[0]) + CopiedSwitches(p, source, names[1..])
  }

  predicate Unprefixed(p: Platform, names: seq<string>) {
    forall name :: name in names ==> PrefixLength(p, name) == 0
  }

  lemma SwitchMapSnoc(p: Platform, sws: seq<Switch>, sw: Switch)
    ensures SwitchMap(p, sws + [sw]) == SwitchMap(p, sws)[Key(p, sw) := sw.value]
  {
    assert (sws + [sw])[..|sws|] == sws;
  }

  lemma UnprefixedKey(p: Platform, name: string, value: string)
    requires PrefixLength(p, name) == 0
    ensures Key(p, MakeSwitch(p, name, value)) == LowerOnWindows(p, name)
  {
    assert PrefixLength(p, LowerOnWindows(p, name)) == 0;
  }

  /** Appending a switch again with the value that it has leaves the map alone. */
  lemma CopyOneKeepsMap(p: Platform, sws: seq<Switch>, name: string)
    requires PrefixLength(p, name) == 0
    ensures SwitchMap(p, CopyOne(p, sws, SwitchMap(p, sws), name)) == SwitchMap(p, sws)
  {
    hide LowerOnWindows, PrefixLength, Key, SwitchMap;
    var k, m := LowerOnWindows(p, name), SwitchMap(p, sws);
    if k in m {
      UnprefixedKey(p, name, m[k]);
      SwitchMapSnoc(p, sws, MakeSwitch(p, name, m[k]));
      assert m[k := m[k]] == m;
    }
  }

  /** From another line, or from the line itself by names without a prefix: exactly the named
      switches that the source had are appended, with the values that it had. */
  lemma {:induction false} CopyAppends(p: Platform, sws: seq<Switch>, within: bool, source: map<string, string>,
                                       names: seq<string>)
    requires within ==> source == SwitchMap(p, sws) && Unprefixed(p, names)
    ensures CopyAll(p, sws, within, source, names) == sws + CopiedSwitches(p, source, names)
    decreases |names|
  {
    if names != [] {
      var next, one, rest := CopyOne(p, sws, source, names[0]), CopyOne(p, [], source, names[0]), names[1..];
      if within {
        assert names[0] in names;
        CopyOneKeepsMap(p, sws, names[0]);
      }
      CopyAppends(p, next, within, source, rest);
      assert next == sws + one;
      Associative(sws, one, CopiedSwitches(p, source, rest));
    }
  }

  // ---------------------------------------------------------------- finding what was appended

  lemma LowerConcat(p: Platform, a: string, b: string)
    ensures LowerOnWindows(p, a + b) == LowerOnWindows(p, a) + LowerOnWindows(p, b)
  {
    hide LowerChar;
    if p.Windows? {
      forall i | 0 <= i < |a| + |b|
        ensures Lower(a + b)[i] == (Lower(a) + Lower(b))[i]
      {
        assert (a + b)[i] == if i < |a| then a[i] else b[i - |a|];
      }
    }
  }

  lemma PrefixLower(p: Platform, prefix: string, name: string)
    requires prefix == "" || prefix in Prefixes(p)
    requires PrefixLength(p, name) == 0
    ensures LowerOnWindows(p, prefix) == prefix && PrefixLength(p, LowerOnWindows(p, name)) == 0
  {
    assert forall c :: LowerChar(c) == '-' <==> c == '-';
    assert forall c :: LowerChar(c) == '/' <==> c == '/';
  }

  lemma PrefixFound(p: Platform, prefix: string, rest: string)
    requires prefix == "" || prefix in Prefixes(p)
    requires PrefixLength(p, rest) == 0
    ensures PrefixLength(p, prefix + rest) == |prefix| && (prefix + rest)[|prefix|..] == rest
  {
    assert prefix == "" ==> prefix + rest == rest;
    assert rest != "" ==> (prefix + rest)[|prefix|] == rest[0];
  }

  lemma KeyOfPrefixed(p: Platform, prefix: string, name: string, value: string)
    requires prefix == "" || prefix in Prefixes(p)
    requires PrefixLength(p, name) == 0
    ensures Key(p, MakeSwitch(p, prefix + name, value)) == LowerOnWindows(p, name)
  {
    hide LowerOnWindows, PrefixLength, Prefixes;
    LowerConcat(p, prefix, name);
    PrefixLower(p, prefix, name);
    PrefixFound(p, prefix, LowerOnWindows(p, name));
  }

  /** With whichever prefix a switch is appended, or with none, it is found under its name, with the
      value that it was given; no other switch is affected. */
  lemma AppendedIsFound(p: Platform, sws: seq<Switch>, prefix: string, name: string, value: string)
    requires prefix == "" || prefix in Prefixes(p)
    requires PrefixLength(p, name) == 0
    ensures SwitchMap(p, sws + [MakeSwitch(p, prefix + name, value)])
            == SwitchMap(p, sws)[LowerOnWindows(p, name) := value]
  {
    SwitchMapSnoc(p, sws, MakeSwitch(p, prefix + name, value));
    KeyOfPrefixed(p, prefix, name, value);
  }

  predicate SameLetter(c: char, d: char) {
    || c == d
    || ('A' <= c <= 'Z' && d as int == c as int + 32)
    || ('A' <= d <= 'Z' && c as int == d as int + 32)
  }

  predicate SameButCase(a: string, b: string) {
    |a| == |b| && forall i :: 0 <= i < |a| ==> SameLetter(a[i], b[i])
  }

  /** On Windows two names are the same switch exactly when they differ at most in the case of ASCII
      letters, elsewhere only when they are equal. */
  lemma CaseMattersOnPosix(p: Platform, a: string, b: string)
    ensures LowerOnWindows(p, a) == LowerOnWindows(p, b) <==> if p.Windows? then SameButCase(a, b) else a == b
  {
    if p.Windows? {
      assert forall c: char, d: char :: LowerChar(c) == LowerChar(d) <==> SameLetter(c, d);
    }
  }

  predicate Named(p: Platform, names: seq<string>, k: string) {
    exists name :: name in names && LowerOnWindows(p, name) == k
  }

  lemma CopyOneLookup(p: Platform, sws: seq<Switch>, source: map<string, string>, name: string, k: string)
    requires PrefixLength(p, name) == 0
    ensures var (m, n) := (SwitchMap(p, sws), SwitchMap(p, CopyOne(p, sws, source, name)));
            if LowerOnWindows(p, name) == k && k in source then k in n && n[k] == source[k]
            else (k in n <==> k in m) && (k in m ==> n[k] == m[k])
  {
    if LowerOnWindows(p, name) in source {
      UnprefixedKey(p, name, source[LowerOnWindows(p, name)]);
      SwitchMapSnoc(p, sws, MakeSwitch(p, name, source[LowerOnWindows(p, name)]));
    }
  }

  lemma CopyOneAppends(p: Platform, sws: seq<Switch>, source: map<string, string>, name: string)
    ensures CopyOne(p, sws, source, name) == sws + CopyOne(p, [], source, name)
  {
  }

  /** After copying switches by names without a prefix, a switch that is named and that the source has
      is found with the source's value, and every other one as before. */
  lemma {:induction false} CopiedAreFound(p: Platform, sws: seq<Switch>, source: map<string, string>,
                                          names: seq<string>, k: string)
    requires Unprefixed(p, names)
    ensures var (m, n) := (SwitchMap(p, sws), SwitchMap(p, sws + CopiedSwitches(p, source, names)));
            if Named(p, names, k) && k in source then k in n && n[k] == source[k]
            else (k in n <==> k in m) && (k in m ==> n[k] == m[k])
    decreases |names|
  {
    if names == [] {
      assert sws + CopiedSwitches(p, source, names) == sws;
    } else {
      var next, rest := CopyOne(p, sws, source, names[0]), names[1..];
      assert names[0] in names;
      NamedStep(p, names, k);
      CopyOneLookup(p, sws, source, names[0], k);
      CopyOneAppends(p, sws, source, names[0]);
      Associative(sws, CopyOne(p, [], source, names[0]), CopiedSwitches(p, source, rest));
      hide SwitchMap, CopyOne, Named, PrefixLength, LowerOnWindows;
      CopiedAreFound(p, next, source, rest, k);
    }
  }

  lemma NamedStep(p: Platform, names: seq<string>, k: string)
    requires names != []
    ensures Named(p, names, k) <==> LowerOnWindows(p, names[0]) == k || Named(p, names[1..], k)
  {
    assert names == [names[0]] + names[1..];
  }

  // ---------------------------------------------------------------- printing

  function QuoteOnWindows(p: Platform, s: string): string {
    if p.Windows? then Quote(s) else s
  }

  function EntryText(p: Platform, e: string, on: bool): string {
    if on && IsSwitchToken(p, e)
    then NamePart(e) + (if ValuePart(e) != "" then "=" + QuoteOnWindows(p, ValuePart(e)) else "")
    else QuoteOnWindows(p, e)
  }

  function ArgumentsText(p: Platform, es: seq<string>, on: bool): string {
    if es == [] then ""
    else
      var still := on && es[0] != TERMINATOR;
      EntryText(p, es[0], still) + ((if |es| > 1 then " " else "") + ArgumentsText(p, es[1..], still))
  }

  /** `all` is what has been printed, then the separator that the next entry needs, then the rest. */
  ghost predicate Printed(p: Platform, all: string, params: string, rest: seq<string>, on: bool, first: bool) {
    all == params + ((if !first && rest != [] then " " else "") + ArgumentsText(p, rest, on))
  }

  lemma PrintStep(p: Platform, all: string, params: string, led: string, rest: seq<string>, on: bool, first: bool)
    requires rest != [] && Printed(p, all, params, rest, on, first)
    requires led == if first then params else params + " "
    ensures var still := on && rest[0] != TERMINATOR;
            Printed(p, all, led + EntryText(p, rest[0], still), rest[1..], still, false)
  {
    var still := on && rest[0] != TERMINATOR;
    var text := EntryText(p, rest[0], still);
    var more := (if |rest| > 1 then " " else "") + ArgumentsText(p, rest[1..], still);
    if first {
      assert "" + (text + more) == text + more;
    } else {
      Associative(params, " ", text + more);
    }
    Associative(led, text, more);
  }

  method EntryString(p: Platform, arg: string, on: bool) returns (text: string)
    ensures text == EntryText(p, arg, on)
  {
    var found, name, value := IsSwitch(p, arg);
    if on && found {
      text := name;
      if value != "" {
        if p.Windows? {
          value := QuoteForCommandLineToArgvW(value);
        }
        text := text + ("=" + value);
      }
    } else {
      text := arg;
      if p.Windows? {
        text := QuoteForCommandLineToArgvW(arg);
      }
    }
  }

  // ---------------------------------------------------------------- the class

  class CommandLine {
    const platform: Platform
    var argv: seq<string>
    var switches: map<string, string>
    var beginArgs: nat
    ghost var line: Line

    /** The three fields agree, whatever was appended and in whatever order. */
    ghost predicate Valid()
      reads this
    {
      && line.head != []
      && argv == Argv(platform, line)
      && switches == SwitchMap(platform, line.switches)
      && beginArgs == |line.head| + |line.switches|
    }

    constructor (platform: Platform)
      ensures Valid() && this.platform == platform && line == Line([""], [], [])
    {
      this.platform := platform;
      argv := [""];
      switches := map[];
      beginArgs := 1;
      line := Line([""], [], []);
    }

    method SetProgram(program: string)
      requires Valid()
      modifies this
      ensures Valid()
      ensures line == old(line).(head := old(line.head)[0 := Trim(program)])
    {
      argv := argv[0 := Trim(program)];
      line := line.(head := line.head[0 := Trim(program)]);
    }

    method InitFromArgv(v: seq<string>)
      modifies this
      ensures Valid() && line == InitLine(platform, v)
    {
      argv := [""];
      switches := map[];
      beginArgs := 1;
      line := Line([""], [], []);
      SetProgram(if v == [] then "" else v[0]);
      AppendSwitchesAndArguments(v);
    }

    method AppendSwitchNative(name: string, value: string)
      requires Valid()
      modifies this
      ensures Valid()
      ensures line == old(line).(switches := old(line.switches) + [MakeSwitch(platform, name, value)])
      ensures var k := LowerOnWindows(platform, name);
              var entry := (if PrefixLength(platform, k) == 0 then "--" + k else k)
                           + (if value != "" then "=" + value else "");
              && beginArgs == old(beginArgs) + 1
              && argv == old(argv[..beginArgs]) + [entry] + old(argv[beginArgs..])
    {
      var switchKey := LowerOnWindows(platform, name);
      var combined := switchKey;
      var prefixLength := GetSwitchPrefixLength(platform, combined);
      switches := switches[switchKey[prefixLength..] := value];
      if prefixLength == 0 {
        combined := "--" + combined;
      }
      if value != "" {
        combined := combined + "=" + value;
      }
      ghost var sw := MakeSwitch(platform, name, value);
      assert combined == Render(platform, sw) && switchKey[prefixLength..] == Key(platform, sw);
      hide RenderAll, Render, SwitchMap, Key, Argv, PrefixLength, LowerOnWindows;
      RenderSnoc(platform, line, sw, combined);
      argv := argv[..beginArgs] + [combined] + argv[beginArgs..];
      beginArgs := beginArgs + 1;
      line := line.(switches := line.switches + [sw]);
    }

    method AppendArgNative(value: string)
      requires Valid()
      modifies this
      ensures Valid() && line == old(line).(args := old(line.args) + [value])
    {
      argv := argv + [value];
      line := line.(args := line.args + [value]);
    }

    /** One turn of the loop below. */
    method AppendToken(token: string, parseSwitches: bool) returns (still: bool)
      requires Valid()
      modifies this
      ensures Valid()
      ensures still == (parseSwitches && Trim(token) != TERMINATOR)
      ensures line == Extend(old(line), ParseOne(platform, Trim(token), still))
    {
      var arg := Trim(token);
      still := parseSwitches && arg != TERMINATOR;
      var found, name, value := IsSwitch(platform, arg);
      if still && found {
        AppendSwitchNative(name, value);
      } else {
        AppendArgNative(arg);
      }
    }

    method AppendSwitchesAndArguments(v: seq<string>)
      requires Valid()
      modifies this
      ensures Valid()
      ensures line == Extend(old(line), Parse(platform, Tokens(v), true))
    {
      hide Parse, ParseOne, Extend, Trim, Tokens, Appending, Valid;
      var parseSwitches := true;
      var i := 1;
      ghost var ts := Tokens(v);
      ghost var goal := Extend(line, Parse(platform, ts, true));
      TokenAt(v);
      AppendStart(platform, line, ts);
      while i < |v|
        invariant 1 <= i <= |ts| + 1
        invariant Valid()
        invariant Appending(platform, goal, line, ts, i - 1, parseSwitches)
      {
        AppendStep(platform, goal, line, ts, i - 1, parseSwitches);
        parseSwitches := AppendToken(v[i], parseSwitches);
        i := i + 1;
      }
      AppendEnd(platform, goal, line, ts, parseSwitches);
    }

    /** A line that has more than its program cannot be appended to itself: each turn of the loop
        would add to the vector over which it runs (EachTurnAddsOne). */
    method AppendArguments(other: CommandLine, includeProgram: bool)
      requires Valid() && other.Valid() && (other == this ==> |argv| == 1)
      modifies this
      ensures Valid()
      ensures line.head == if includeProgram then old(line.head)[0 := Trim(old(other.argv[0]))] else old(line.head)
      ensures var more := Parse(platform, Tokens(old(other.argv)), true);
              line.switches == old(line.switches) + more.switches && line.args == old(line.args) + more.args
    {
      if includeProgram {
        SetProgram(other.argv[0]);
      }
      AppendSwitchesAndArguments(other.argv);
    }

    method HasSwitch(name: string) returns (found: bool)
      requires Valid()
      ensures found <==> LowerOnWindows(platform, name) in SwitchMap(platform, line.switches)
    {
      found := LowerOnWindows(platform, name) in switches;
    }

    method GetSwitchValueNative(name: string) returns (value: string)
      requires Valid()
      ensures var (m, k) := (SwitchMap(platform, line.switches), LowerOnWindows(platform, name));
              value == if k in m then m[k] else ""
    {
      var k := LowerOnWindows(platform, name);
      value := if k in switches then switches[k] else "";
    }

    method CopySwitchesFrom(source: CommandLine, names: seq<string>)
      requires Valid() && source.Valid() && source.platform == platform
      modifies this
      ensures Valid()
      ensures var from := SwitchMap(platform, old(source.line.switches));
              && line == old(line).(switches := CopyAll(platform, old(line.switches), source == this, from, names))
              && (source != this || Unprefixed(platform, names) ==>
                    line.switches == old(line.switches) + CopiedSwitches(platform, from, names))
    {
      ghost var before, from := line.switches, SwitchMap(platform, source.line.switches);
      ghost var goal := CopyAll(platform, before, source == this, from, names);
      assert names[0..] == names;
      for i := 0 to |names|
        invariant Valid() && source.Valid() && line == old(line).(switches := line.switches)
        invariant source != this ==> source.line == old(source.line)
        invariant CopyAll(platform, line.switches, source == this, from, names[i..]) == goal
      {
        assert names[i..][0] == names[i] && names[i..][1..] == names[i + 1..];
        var found := source.HasSwitch(names[i]);
        if found {
          var value := source.GetSwitchValueNative(names[i]);
          AppendSwitchNative(names[i], value);
        }
      }
      assert names[|names|..] == [];
      if source != this || Unprefixed(platform, names) {
        CopyAppends(platform, before, source == this, from, names);
      }
    }

    /** Everything after argv_[0] as one string; on Windows with the quotes that splitting needs. */
    method GetArgumentsString() returns (params: string)
      ensures params == ArgumentsText(platform, if argv == [] then [] else argv[1..], true)
    {
      params := "";
      var parseSwitches := true;
      var i := 1;
      ghost var es := if argv == [] then [] else argv[1..];
      ghost var all := ArgumentsText(platform, es, true);
      while i < |argv|
        invariant 1 <= i <= |es| + 1
        invariant Printed(platform, all, params, es[i - 1..], parseSwitches, i == 1)
      {
        assert es[i - 1..][0] == argv[i] && es[i - 1..][1..] == es[i..];
        PrintStep(platform, all, params, if i == 1 then params else params + " ", es[i - 1..], parseSwitches, i == 1);
        var arg := argv[i];
        parseSwitches := parseSwitches && arg != TERMINATOR;
        if i > 1 {
          params := params + " ";
        }
        var text := EntryString(platform, arg, parseSwitches);
        params := params + text;
        i := i + 1;
      }
      assert es[i - 1..] == [];
    }

    /** The arguments without the first terminator. */
    method GetArgs() returns (args: seq<string>)
      requires Valid()
      ensures args == WithoutFirst(line.args, TERMINATOR)
    {
      args := argv[beginArgs..];
      assert args == line.args;
      var i := 0;
      while i < |args| && args[i] != TERMINATOR
        invariant 0 <= i <= |args| && TERMINATOR !in args[..i]
      {
        i := i + 1;
      }
      WithoutFirstAt(args, TERMINATOR, i);
      if i < |args| {
        args := args[..i] + args[i + 1..];
      }
    }

    /** The wrapper may hold arguments of its own; it is split on spaces. */
    method PrependWrapper(wrapper: string)
      requires Valid()
      modifies this
      ensures Valid()
      ensures line == old(line).(
                head := (if wrapper == "" then [] else StringSplit.Split(wrapper, ' ')) + old(line.head))
    {
      if wrapper == "" {
        assert [] + line.head == line.head;
        return;
      }
      hide RenderAll, SwitchMap, StringSplit.Split;
      var wrapperArgv := StringSplit.SplitString(wrapper, ' ');
      Prepended(platform, line, wrapperArgv);
      line := line.(head := wrapperArgv + line.head);
      argv := wrapperArgv + argv;
      beginArgs := beginArgs + |wrapperArgv|;
    }
  }

  lemma Prepended(p: Platform, line: Line, more: seq<string>)
    ensures more + Argv(p, line) == Argv(p, line.(head := more + line.head))
  {
    Associative(more, line.head + RenderAll(p, line.switches), line.args);
    Associative(more, line.head, RenderAll(p, line.switches));
  }

  lemma RenderAllSnoc(p: Platform, sws: seq<Switch>, sw: Switch)
    ensures RenderAll(p, sws + [sw]) == RenderAll(p, sws) + [Render(p, sw)]
  {
  }

  lemma InsertAt(a: seq<string>, b: seq<string>, c: seq<string>, x: string)
    ensures var n := |a| + |b|;
            (a + b + c)[..n] + [x] + (a + b + c)[n..] == a + (b + [x]) + c
  {
    var n := |a| + |b|;
    assert (a + b + c)[..n] == a + b && (a + b + c)[n..] == c;
  }

  lemma RenderSnoc(p: Platform, line: Line, sw: Switch, combined: string)
    requires combined == Render(p, sw)
    ensures var n := |line.head| + |line.switches|;
            && n <= |Argv(p, line)|
            && Argv(p, line)[..n] + [combined] + Argv(p, line)[n..] == Argv(p, line.(switches := line.switches + [sw]))
    ensures SwitchMap(p, line.switches + [sw]) == SwitchMap(p, line.switches)[Key(p, sw) := sw.value]
  {
    hide RenderAll, Render, SwitchMap, Key;
    SwitchMapSnoc(p, line.switches, sw);
    RenderAllSnoc(p, line.switches, sw);
    InsertAt(line.head, RenderAll(p, line.switches), line.args, combined);
  }

  /** Each turn of the loop adds one entry, so the end of a vector that is being appended to itself
      stays as far away as it was. */
  lemma EachTurnAddsOne(p: Platform, line: Line, token: string, on: bool)
    ensures |Argv(p, Extend(line, ParseOne(p, token, on)))| == |Argv(p, line)| + 1
  {
  }

  /** What the tokens from k on will add to the line makes the goal. */
  ghost predicate Appending(p: Platform, goal: Line, line: Line, ts: seq<string>, k: nat, on: bool)
    requires k <= |ts|
  {
    goal == Extend(line, Parse(p, ts[k..], on))
  }

  lemma TokenAt(v: seq<string>)
    ensures |Tokens(v)| == (if v == [] then 0 else |v| - 1)
    ensures forall k :: 1 <= k < |v| ==> Tokens(v)[k - 1] == Trim(v[k])
  {
  }

  lemma AppendStart(p: Platform, line: Line, ts: seq<string>)
    ensures Appending(p, Extend(line, Parse(p, ts, true)), line, ts, 0, true)
  {
    assert ts[0..] == ts;
  }

  lemma AppendStep(p: Platform, goal: Line, line: Line, ts: seq<string>, k: nat, on: bool)
    requires k < |ts| && Appending(p, goal, line, ts, k, on)
    ensures var still := on && ts[k] != TERMINATOR;
            Appending(p, goal, Extend(line, ParseOne(p, ts[k], still)), ts, k + 1, still)
  {
    assert ts[k..][1..] == ts[k + 1..];
    var still := on && ts[k] != TERMINATOR;
    var one, rest := ParseOne(p, ts[k], still), Parse(p, ts[k + 1..], still);
    Associative(line.switches, one.switches, rest.switches);
    Associative(line.args, one.args, rest.args);
  }

  lemma AppendEnd(p: Platform, goal: Line, line: Line, ts: seq<string>, on: bool)
    requires Appending(p, goal, line, ts, |ts|, on)
    ensures line == goal
  {
    assert ts[|ts|..] == [];
  }

  // ---------------------------------------------------------------- which tokens become arguments

  function FirstTerminator(ts: seq<string>): (n: nat)
    ensures n <= |ts|
    ensures TERMINATOR !in ts[..n]
    ensures n < |ts| ==> ts[n] == TERMINATOR
  {
    if ts == [] || ts[0] == TERMINATOR then 0 else
      var n := FirstTerminator(ts[1..]);
      assert ts[..n + 1] == [ts[0]] + ts[1..][..n];
      1 + n
  }

  /** The tokens that are not switches, in order. */
  function NonSwitches(p: Platform, ts: seq<string>): seq<string> {
    if ts == [] then []
    else (if IsSwitchToken(p, ts[0]) then [] else [ts[0]]) + NonSwitches(p, ts[1..])
  }

  /** The switches among the tokens, in order. */
  function SwitchesOf(p: Platform, ts: seq<string>): seq<Switch> {
    if ts == [] then []
    else (if IsSwitchToken(p, ts[0]) then [TokenSwitch(p, ts[0])] else []) + SwitchesOf(p, ts[1..])
  }

  lemma {:induction false} ParseOff(p: Platform, ts: seq<string>)
    ensures Parse(p, ts, false) == Parsed([], ts)
  {
    if ts != [] {
      ParseOff(p, ts[1..]);
    }
  }

  lemma FrontStep(p: Platform, front: seq<string>)
    requires front != []
    ensures var one := ParseOne(p, front[0], true);
            && SwitchesOf(p, front) == one.switches + SwitchesOf(p, front[1..])
            && NonSwitches(p, front) == one.args + NonSwitches(p, front[1..])
  {
  }

  lemma FirstTerminatorStep(ts: seq<string>)
    requires ts != [] && ts[0] != TERMINATOR
    ensures var n := FirstTerminator(ts);
            && n == FirstTerminator(ts[1..]) + 1
            && ts[..n] == [ts[0]] + ts[1..][..n - 1] && ts[n..] == ts[1..][n - 1..]
  {
    CutLater(ts, FirstTerminator(ts[1..]) + 1);
  }

  lemma CutLater(ts: seq<string>, n: nat)
    requires 1 <= n <= |ts|
    ensures ts[..n] == [ts[0]] + ts[1..][..n - 1] && ts[n..] == ts[1..][n - 1..]
  {
  }

  lemma {:induction false} ParseMeaning(p: Platform, ts: seq<string>)
    ensures var n := FirstTerminator(ts);
            Parse(p, ts, true) == Parsed(SwitchesOf(p, ts[..n]), NonSwitches(p, ts[..n]) + ts[n..])
  {
    var n := FirstTerminator(ts);
    if ts == [] || ts[0] == TERMINATOR {
      ParseAllOff(p, ts);
    } else {
      ParseMeaning(p, ts[1..]);
      FirstTerminatorStep(ts);
      var front, one, rest := ts[..n], ParseOne(p, ts[0], true), ts[1..][..n - 1];
      assert front[0] == ts[0] && front[1..] == rest;
      FrontStep(p, front);
      Associative(one.args, NonSwitches(p, rest), ts[n..]);
      hide ParseOne, SwitchesOf, NonSwitches, FirstTerminator;
    }
  }

  lemma ParseAllOff(p: Platform, ts: seq<string>)
    requires ts == [] || ts[0] == TERMINATOR
    ensures FirstTerminator(ts) == 0
    ensures Parse(p, ts, true) == Parsed(SwitchesOf(p, ts[..0]), NonSwitches(p, ts[..0]) + ts[0..])
  {
    assert ts[0..] == ts && [] + ts == ts;
    if ts != [] {
      ParseOff(p, ts[1..]);
      assert ts == [ts[0]] + ts[1..];
    }
  }

  lemma {:induction false} NoTerminatorBefore(p: Platform, ts: seq<string>, rest: seq<string>)
    requires TERMINATOR !in ts
    ensures WithoutFirst(NonSwitches(p, ts) + rest, TERMINATOR) == NonSwitches(p, ts) + WithoutFirst(rest, TERMINATOR)
  {
    if ts == [] {
      assert [] + rest == rest;
    } else {
      var others, kept := NonSwitches(p, ts[1..]), WithoutFirst(rest, TERMINATOR);
      NoTerminatorBefore(p, ts[1..], rest);
      if IsSwitchToken(p, ts[0]) {
        assert NonSwitches(p, ts) == others;
      } else {
        assert ([ts[0]] + others) + rest == [ts[0]] + (others + rest);
        assert [ts[0]] + (others + kept) == ([ts[0]] + others) + kept;
      }
    }
  }

  /** After initialisation the arguments are the non-switch tokens up to the first terminator, then
      every token after it, switch-like or not; a later terminator stays. */
  lemma InitIsParse(p: Platform, v: seq<string>)
    ensures var parsed := Parse(p, Tokens(v), true);
            InitLine(p, v).switches == parsed.switches && InitLine(p, v).args == parsed.args
  {
    var parsed := Parse(p, Tokens(v), true);
    assert [] + parsed.switches == parsed.switches && [] + parsed.args == parsed.args;
  }

  lemma WithoutTerminator(ts: seq<string>)
    ensures var n := FirstTerminator(ts);
            WithoutFirst(ts[n..], TERMINATOR) == if n < |ts| then ts[n + 1..] else []
  {
    var n := FirstTerminator(ts);
    if n < |ts| {
      assert ts[n..][0] == TERMINATOR && ts[n..][1..] == ts[n + 1..];
    } else {
      assert ts[n..] == [];
    }
  }

  lemma ArgsAfterInit(p: Platform, v: seq<string>)
    ensures var ts := Tokens(v);
            var n := FirstTerminator(ts);
            && InitLine(p, v).switches == SwitchesOf(p, ts[..n])
            && WithoutFirst(InitLine(p, v).args, TERMINATOR)
               == NonSwitches(p, ts[..n]) + (if n < |ts| then ts[n + 1..] else [])
  {
    hide InitLine, Parse, Tokens, SwitchesOf, NonSwitches, WithoutFirst;
    var ts := Tokens(v);
    var n := FirstTerminator(ts);
    InitIsParse(p, v);
    ParseMeaning(p, ts);
    WithoutTerminator(ts);
    NoTerminatorBefore(p, ts[..n], ts[n..]);
  }
}
