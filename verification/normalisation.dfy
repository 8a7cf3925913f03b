/** Initialising a command line normalises its argument vector.  Feeding the normalised vector back
    is a no-op exactly on the vectors described by `Normal`; feeding it back twice always is. */
module Normalisation {
  import opened Text
  import opened CommandLines

  /** The three concrete fields after initialisation from `v`. */
  datatype Fields = Fields(argv: seq<string>, switches: map<string, string>, beginArgs: nat)

  function FieldsOf(p: Platform, line: Line): Fields {
    Fields(Argv(p, line), SwitchMap(p, line.switches), |line.head| + |line.switches|)
  }

  function Init(p: Platform, v: seq<string>): Fields {
    FieldsOf(p, InitLine(p, v))
  }

  /** A switch without a value keeps its shape if its name is more than a bare prefix and does not
      end in whitespace: `-=` prints as `-`, which is an argument, and `--=` as the terminator. */
  predicate KeepsShape(p: Platform, name: string, value: string) {
    value != "" || (PrefixLength(p, name) != |name| && Trimmed(name))
  }

  predicate Normal(p: Platform, v: seq<string>) {
    var ts := Tokens(v);
    forall t :: t in ts[..FirstTerminator(ts)] && IsSwitchToken(p, t) ==> KeepsShape(p, NamePart(t), ValuePart(t))
  }

  predicate Stable(p: Platform, sw: Switch) {
    KeepsShape(p, sw.name, sw.value)
  }

  predicate AllStable(p: Platform, sws: seq<Switch>) {
    forall sw :: sw in sws ==> Stable(p, sw)
  }

  /** What every parsed switch looks like. */
  predicate Wf(p: Platform, sw: Switch) {
    && PrefixLength(p, sw.name) > 0
    && '=' !in sw.name
    && sw.name == LowerOnWindows(p, sw.name)
    && (sw.value != "" ==> !IsWhitespace(sw.value[|sw.value| - 1]))
  }

  predicate AllWf(p: Platform, sws: seq<Switch>) {
    forall sw :: sw in sws ==> Wf(p, sw)
  }

  predicate AllTrimmed(ts: seq<string>) {
    forall t :: t in ts ==> Trimmed(t)
  }

  lemma LowerKeeps(p: Platform, s: string)
    ensures var l := LowerOnWindows(p, s);
            && PrefixLength(p, l) == PrefixLength(p, s)
            && LowerOnWindows(p, l) == l
            && ('=' in l <==> '=' in s)
            && (Trimmed(l) <==> Trimmed(s))
  {
    var l := LowerOnWindows(p, s);
    assert forall i :: 0 <= i < |s| ==> (l[i] == '=' <==> s[i] == '=');
  }

  lemma TokenParts(p: Platform, t: string)
    requires Trimmed(t) && IsSwitchToken(p, t)
    ensures var sw := TokenSwitch(p, t);
            Wf(p, sw) && (Stable(p, sw) <==> KeepsShape(p, NamePart(t), ValuePart(t)))
  {
    LowerKeeps(p, NamePart(t));
    var n := Find(t, '=');
    assert PrefixLength(p, t[..n]) == PrefixLength(p, t);
    assert ValuePart(t) != "" ==> ValuePart(t)[|ValuePart(t)| - 1] == t[|t| - 1];
  }

  // ---------------------------------------------------------------- reading one rendered switch

  lemma ReadStable(p: Platform, sw: Switch)
    requires Wf(p, sw) && Stable(p, sw)
    ensures var r := Render(p, sw);
            Trim(r) == r && IsSwitchToken(p, r) && r != TERMINATOR && TokenSwitch(p, r) == sw
  {
    if sw.value == "" {
      ReadBare(p, sw);
    } else {
      ReadValued(p, sw);
    }
  }

  lemma ReadBare(p: Platform, sw: Switch)
    requires Wf(p, sw) && Stable(p, sw) && sw.value == ""
    ensures var r := Render(p, sw);
            Trimmed(r) && IsSwitchToken(p, r) && r != TERMINATOR && TokenSwitch(p, r) == sw
  {
    assert Render(p, sw) == sw.name;
    FindIs(sw.name, '=', |sw.name|);
    assert sw.name[..|sw.name|] == sw.name;
  }

  lemma ReadValued(p: Platform, sw: Switch)
    requires Wf(p, sw) && sw.value != ""
    ensures var r := Render(p, sw);
            Trimmed(r) && IsSwitchToken(p, r) && r != TERMINATOR && TokenSwitch(p, r) == sw
  {
    var n, r := |sw.name|, Render(p, sw);
    assert r == sw.name + ("=" + sw.value);
    assert r[..n] == sw.name && r[n] == '=' && r[n + 1..] == sw.value;
    FindIs(r, '=', n);
    assert r[|r| - 1] == sw.value[|sw.value| - 1];
  }

  lemma ReadUnstable(p: Platform, sw: Switch)
    requires Wf(p, sw) && !Stable(p, sw)
    ensures var t := Trim(Render(p, sw));
            t == TERMINATOR || !IsSwitchToken(p, t) || Render(p, TokenSwitch(p, t)) != Render(p, sw)
  {
    assert Render(p, sw) == sw.name;
    var t := Trim(sw.name);
    if IsSwitchToken(p, t) {
      FindIs(t, '=', |t|);
      assert t[..|t|] == t;
      LowerKeeps(p, t);
      assert Render(p, TokenSwitch(p, t)) == LowerOnWindows(p, t);
    }
  }

  /** Whatever a rendered switch is read as, it is stable from then on. */
  lemma ReadGivesStable(p: Platform, sw: Switch)
    requires Wf(p, sw)
    ensures var t := Trim(Render(p, sw));
            IsSwitchToken(p, t) ==> Stable(p, TokenSwitch(p, t))
  {
    if Stable(p, sw) {
      ReadStable(p, sw);
    } else {
      assert Render(p, sw) == sw.name;
      var t := Trim(sw.name);
      if IsSwitchToken(p, t) {
        FindIs(t, '=', |t|);
        assert t[..|t|] == t;
        LowerKeeps(p, t);
      }
    }
  }

  // ---------------------------------------------------------------- reading what was appended

  predicate EndsWell(s: string) {
    s == "" || !IsWhitespace(s[|s| - 1])
  }

  /** The name has no `=`, trimming takes nothing off the end of the entry, and without a value the
      name is more than a bare prefix. */
  predicate ReadsBack(p: Platform, name: string, value: string) {
    && '=' !in name
    && if value != "" then EndsWell(value) else EndsWell(name) && PrefixLength(p, name) != |name|
  }

  /** A token says the same as a switch: the same key of the map is given the same value. */
  predicate Says(p: Platform, t: string, sw: Switch) {
    && t != TERMINATOR && IsSwitchToken(p, t)
    && Key(p, TokenSwitch(p, t)) == Key(p, sw) && TokenSwitch(p, t).value == sw.value
  }

  /** The switch as it is read back: an unprefixed name has got its prefix. */
  function WithPrefix(p: Platform, sw: Switch): Switch {
    if PrefixLength(p, sw.name) > 0 then sw else Switch("--" + sw.name, sw.value)
  }

  /** A switch whose name is as it is stored. */
  predicate Stored(p: Platform, sw: Switch) {
    sw.name == LowerOnWindows(p, sw.name)
  }

  lemma WithPrefixIs(p: Platform, sw: Switch)
    requires Stored(p, sw)
    ensures var w := WithPrefix(p, sw);
            && Render(p, w) == Render(p, sw) && Key(p, w) == Key(p, sw) && w.value == sw.value
            && PrefixLength(p, w.name) > 0 && w.name == LowerOnWindows(p, w.name)
            && ('=' in w.name <==> '=' in sw.name) && w.name != "" && !IsWhitespace(w.name[0])
            && (EndsWell(w.name) && PrefixLength(p, w.name) != |w.name| <==>
                  EndsWell(sw.name) && PrefixLength(p, sw.name) != |sw.name|)
  {
    if PrefixLength(p, sw.name) == 0 {
      DashesAreAPrefix(p, sw.name);
      DashesKeep(p, sw.name);
      hide LowerOnWindows, EndsWell, PrefixLength;
    }
  }

  lemma DashesAreAPrefix(p: Platform, name: string)
    requires PrefixLength(p, name) == 0
    ensures PrefixLength(p, "--" + name) == 2 && ("--" + name)[2..] == name
    ensures EndsWell("--" + name) && name != "" <==> EndsWell(name) && name != ""
  {
    hide LowerOnWindows;
    assert name != "" ==> ("--" + name)[|name| + 1] == name[|name| - 1];
  }

  lemma DashesKeep(p: Platform, name: string)
    ensures name == LowerOnWindows(p, name) ==> "--" + name == LowerOnWindows(p, "--" + name)
    ensures '=' in "--" + name <==> '=' in name
  {
    LowerConcat(p, "--", name);
    assert LowerOnWindows(p, "--") == "--";
    hide LowerOnWindows;
  }

  lemma SaysItself(p: Platform, sw: Switch)
    requires Stored(p, sw) && ReadsBack(p, sw.name, sw.value)
    ensures var (t, w) := (Trim(Render(p, sw)), WithPrefix(p, sw));
            && Wf(p, w) && Stable(p, w)
            && t == Render(p, sw) && Says(p, t, sw) && TokenSwitch(p, t) == w
  {
    WithPrefixIs(p, sw);
    ReadStable(p, WithPrefix(p, sw));
  }

  /** Trimming a text that does not start with whitespace only shortens it. */
  lemma TrimShortens(r: string, n: nat)
    requires n < |r| && !IsWhitespace(r[0]) && !IsWhitespace(r[n])
    ensures n < |Trim(r)| <= |r| && Trim(r) == r[..|Trim(r)|]
    ensures !EndsWell(r) ==> |Trim(r)| < |r|
  {
    TrimRightKeeps(r, n);
    assert TrimLeft(r) == r;
  }

  lemma CutsValue(p: Platform, w: Switch)
    requires w.name != "" && PrefixLength(p, w.name) > 0
    requires '=' !in w.name && !EndsWell(w.value) && !IsWhitespace(w.name[0])
    ensures TokenSwitch(p, Trim(Render(p, w))).value != w.value
  {
    var n, r := |w.name|, Render(p, w);
    assert r == w.name + ("=" + w.value);
    hide Render, Trim, PrefixLength, LowerOnWindows;
    assert r[0] == w.name[0] && r[n] == '=' && r[|r| - 1] == w.value[|w.value| - 1];
    TrimShortens(r, n);
    var t := Trim(r);
    assert r[..n] == w.name && t[..n] == r[..n] && t[n] == r[n];
    FindIs(t, '=', n);
    assert |ValuePart(t)| < |w.value|;
  }

  lemma {:induction false} TrimRightKeeps(s: string, n: nat)
    requires n < |s| && !IsWhitespace(s[n])
    ensures n < |TrimRight(s)| <= |s| && TrimRight(s) == s[..|TrimRight(s)|]
    ensures IsWhitespace(s[|s| - 1]) ==> |TrimRight(s)| < |s|
    decreases |s|
  {
    if IsWhitespace(s[|s| - 1]) {
      TrimRightKeeps(s[..|s| - 1], n);
    }
  }

  lemma CutsName(p: Platform, w: Switch)
    requires w.name != "" && PrefixLength(p, w.name) > 0 && '=' !in w.name && w.value == "" && !IsWhitespace(w.name[0])
    requires !EndsWell(w.name) || PrefixLength(p, w.name) == |w.name|
    ensures !Says(p, Trim(Render(p, w)), w)
  {
    var t := Trim(Render(p, w));
    assert Render(p, w) == w.name;
    TrimShortens(w.name, 0);
    hide Render, Trim, TERMINATOR, EndsWell;
    FindIs(t, '=', |t|);
    assert t[..|t|] == t;
    LowerKeeps(p, t);
    ShorterKey(p, t, w.name);
  }

  lemma ShorterKey(p: Platform, t: string, name: string)
    requires t != "" && |t| <= |name| && t == name[..|t|] && PrefixLength(p, name) > 0
    ensures PrefixLength(p, t) <= PrefixLength(p, name)
    ensures PrefixLength(p, t) == PrefixLength(p, name) || PrefixLength(p, t) == |t|
  {
  }

  lemma EqualsIsLost(p: Platform, t: string, w: Switch)
    requires PrefixLength(p, w.name) > 0 && '=' in w.name
    ensures !Says(p, t, w)
  {
    LowerKeeps(p, NamePart(t));
    var n := PrefixLength(p, w.name);
    var i :| 0 <= i < |w.name| && w.name[i] == '=';
    assert Key(p, w)[i - n] == '=';
  }

  /** The entry that an append leaves, prefixed or not, says the same when it is read back, exactly
      when the name has no `=` and trimming takes nothing off. */
  lemma AppendedReadsBack(p: Platform, name: string, value: string)
    ensures var sw := MakeSwitch(p, name, value);
            var t := Trim(Render(p, sw));
            && (Says(p, t, sw) <==> ReadsBack(p, name, value))
            && (Says(p, t, sw) && PrefixLength(p, name) == 0 ==>
                  TokenSwitch(p, t) == Switch("--" + LowerOnWindows(p, name), value))
  {
    var sw := MakeSwitch(p, name, value);
    var w := WithPrefix(p, sw);
    LowerKeeps(p, name);
    assert EndsWell(sw.name) <==> EndsWell(name);
    if ReadsBack(p, name, value) {
      SaysItself(p, sw);
    } else {
      WithPrefixIs(p, sw);
      SaysByKey(p, Trim(Render(p, sw)), sw, w);
      if '=' in w.name {
        EqualsIsLost(p, Trim(Render(p, w)), w);
      } else if value != "" {
        CutsValue(p, w);
      } else {
        CutsName(p, w);
      }
    }
  }

  /** A value that ends in a space comes back without it. */
  lemma TrailingSpaceOfValueIsLost()
    ensures var sw := MakeSwitch(Posix, "a", "b ");
            Render(Posix, sw) == "--a=b " && TokenSwitch(Posix, Trim("--a=b ")) == Switch("--a", "b")
  {
    assert Render(Posix, Switch("a", "b ")) == "--a=b ";
    assert TrimLeft("--a=b ") == "--a=b ";
    assert "--a=b "[..5] == "--a=b";
    assert TrimRight("--a=b ") == TrimRight("--a=b") == "--a=b";
    FindIs("--a=b", '=', 3);
    assert NamePart("--a=b") == "--a" && ValuePart("--a=b") == "b";
  }

  lemma SaysByKey(p: Platform, t: string, a: Switch, b: Switch)
    requires Key(p, a) == Key(p, b) && a.value == b.value
    ensures Says(p, t, a) <==> Says(p, t, b)
  {
  }

  // ---------------------------------------------------------------- reading the normalised vector

  /** Parsed switches are well formed, and parsed arguments are read back as the same arguments. */
  lemma {:induction false} ParseShape(p: Platform, ts: seq<string>, on: bool)
    requires AllTrimmed(ts)
    ensures var r := Parse(p, ts, on);
            AllWf(p, r.switches) && AllTrimmed(r.args) && Parse(p, r.args, on) == Parsed([], r.args)
  {
    if ts != [] {
      var still := on && ts[0] != TERMINATOR;
      assert ts[0] in ts;
      var r, rest := Parse(p, ts, on), Parse(p, ts[1..], still);
      ParseShape(p, ts[1..], still);
      if still && IsSwitchToken(p, ts[0]) {
        TokenParts(p, ts[0]);
        assert r.args == rest.args && r.switches == [TokenSwitch(p, ts[0])] + rest.switches;
      } else {
        assert r.switches == rest.switches && r.args == [ts[0]] + rest.args;
        assert r.args[1..] == rest.args;
      }
    }
  }

  function Reread(p: Platform, sws: seq<Switch>, args: seq<string>): Parsed {
    Parse(p, TrimAll(RenderAll(p, sws)) + args, true)
  }

  lemma RereadEnd(p: Platform, args: seq<string>)
    ensures Reread(p, [], args) == Parse(p, args, true)
  {
    assert TrimAll(RenderAll(p, [])) + args == args;
  }

  lemma RereadStep(p: Platform, sws: seq<Switch>, args: seq<string>)
    requires sws != []
    ensures var t := Trim(Render(p, sws[0]));
            var (r, rest) := (Reread(p, sws, args), Reread(p, sws[1..], args));
            && (t == TERMINATOR ==> r.switches == [])
            && (t != TERMINATOR && IsSwitchToken(p, t) ==> r == Parsed([TokenSwitch(p, t)] + rest.switches, rest.args))
            && (t != TERMINATOR && !IsSwitchToken(p, t) ==> r.switches == rest.switches)
  {
    var ts := TrimAll(RenderAll(p, sws)) + args;
    assert ts[0] == Trim(Render(p, sws[0]));
    assert ts[1..] == TrimAll(RenderAll(p, sws[1..])) + args;
    ParseOff(p, ts[1..]);
    var rest := Reread(p, sws[1..], args);
    assert [] + rest.switches == rest.switches && [] + rest.args == rest.args;
  }

  lemma {:induction false} RereadStable(p: Platform, sws: seq<Switch>, args: seq<string>)
    requires AllWf(p, sws) && AllStable(p, sws)
    requires Parse(p, args, true) == Parsed([], args)
    ensures Reread(p, sws, args) == Parsed(sws, args)
    decreases |sws|
  {
    hide Reread, Wf, Stable, Render, Trim, TokenSwitch, IsSwitchToken, Parse;
    if sws == [] {
      RereadEnd(p, args);
    } else {
      assert sws[0] in sws;
      ReadStable(p, sws[0]);
      RereadStep(p, sws, args);
      RereadStable(p, sws[1..], args);
      assert sws == [sws[0]] + sws[1..];
    }
  }

  /** Rereading never gains a switch, and what it gives is stable. */
  lemma {:induction false} RereadGivesStable(p: Platform, sws: seq<Switch>, args: seq<string>)
    requires AllWf(p, sws)
    requires Parse(p, args, true) == Parsed([], args)
    ensures AllStable(p, Reread(p, sws, args).switches)
    ensures |Reread(p, sws, args).switches| <= |sws|
    decreases |sws|
  {
    if sws == [] {
      RereadEnd(p, args);
    } else {
      assert sws[0] in sws;
      RereadStep(p, sws, args);
      RereadGivesStable(p, sws[1..], args);
      ReadGivesStable(p, sws[0]);
    }
  }

  lemma RenderAllSplit(p: Platform, sws: seq<Switch>)
    requires sws != []
    ensures RenderAll(p, sws)[0] == Render(p, sws[0]) && RenderAll(p, sws)[1..] == RenderAll(p, sws[1..])
  {
  }

  lemma SameRendering(p: Platform, a: seq<Switch>, b: seq<Switch>)
    requires b != [] && RenderAll(p, a) == RenderAll(p, b)
    ensures a != [] && Render(p, a[0]) == Render(p, b[0]) && RenderAll(p, a[1..]) == RenderAll(p, b[1..])
  {
    assert |a| == |RenderAll(p, a)|;
    RenderAllSplit(p, a);
    RenderAllSplit(p, b);
  }

  /** If no switch is lost, the first one was read as a switch. */
  lemma RereadHead(p: Platform, sws: seq<Switch>, args: seq<string>)
    requires AllWf(p, sws) && sws != [] && Parse(p, args, true) == Parsed([], args)
    requires |Reread(p, sws, args).switches| == |sws|
    ensures var t := Trim(Render(p, sws[0]));
            && t != TERMINATOR && IsSwitchToken(p, t)
            && Reread(p, sws, args).switches == [TokenSwitch(p, t)] + Reread(p, sws[1..], args).switches
  {
    RereadStep(p, sws, args);
    RereadGivesStable(p, sws[1..], args);
  }

  /** If rereading prints the same switches again, the first one was stable, and rereading the
      others prints the others again. */
  lemma RereadSame(p: Platform, sws: seq<Switch>, args: seq<string>)
    requires AllWf(p, sws) && sws != []
    requires Parse(p, args, true) == Parsed([], args)
    requires RenderAll(p, Reread(p, sws, args).switches) == RenderAll(p, sws)
    ensures Stable(p, sws[0])
    ensures RenderAll(p, Reread(p, sws[1..], args).switches) == RenderAll(p, sws[1..])
  {
    var r, rest := Reread(p, sws, args).switches, Reread(p, sws[1..], args).switches;
    SameRendering(p, r, sws);
    SameCount(p, r, sws);
    RereadHead(p, sws, args);
    hide Stable, Render, TokenSwitch, IsSwitchToken, Trim, Reread, RenderAll;
    assert r[1..] == rest;
    assert sws[0] in sws;
    if !Stable(p, sws[0]) {
      ReadUnstable(p, sws[0]);
    }
  }

  lemma SameCount(p: Platform, a: seq<Switch>, b: seq<Switch>)
    requires RenderAll(p, a) == RenderAll(p, b)
    ensures |a| == |b|
  {
    assert |a| == |RenderAll(p, a)|;
  }

  lemma {:induction false} RereadUnstable(p: Platform, sws: seq<Switch>, args: seq<string>)
    requires AllWf(p, sws)
    requires Parse(p, args, true) == Parsed([], args)
    requires RenderAll(p, Reread(p, sws, args).switches) == RenderAll(p, sws)
    ensures AllStable(p, sws)
    decreases |sws|
  {
    hide Wf, Stable, RenderAll, Reread, Parse;
    if sws != [] {
      RereadSame(p, sws, args);
      RereadUnstable(p, sws[1..], args);
      assert sws == [sws[0]] + sws[1..];
    }
  }

  // ---------------------------------------------------------------- reading an appended line

  predicate AllReadBack(p: Platform, sws: seq<Switch>) {
    forall sw :: sw in sws ==> Stored(p, sw) && ReadsBack(p, sw.name, sw.value)
  }

  function WithPrefixes(p: Platform, sws: seq<Switch>): (all: seq<Switch>)
    ensures |all| == |sws| && forall i :: 0 <= i < |sws| ==> all[i] == WithPrefix(p, sws[i])
  {
    seq(|sws|, i requires 0 <= i < |sws| => WithPrefix(p, sws[i]))
  }

  lemma WithPrefixesSnoc(p: Platform, sws: seq<Switch>)
    requires sws != []
    ensures var n := |sws| - 1;
            && sws == sws[..n] + [sws[n]]
            && WithPrefixes(p, sws) == WithPrefixes(p, sws[..n]) + [WithPrefix(p, sws[n])]
  {
    hide WithPrefix;
  }

  lemma {:induction false} SameMap(p: Platform, sws: seq<Switch>)
    requires AllReadBack(p, sws)
    ensures SwitchMap(p, WithPrefixes(p, sws)) == SwitchMap(p, sws)
    decreases |sws|
  {
    if sws != [] {
      hide SwitchMap, WithPrefix, Stored, ReadsBack, Key, Render, EndsWell, PrefixLength;
      var n := |sws| - 1;
      assert sws[n] in sws;
      SameMap(p, sws[..n]);
      WithPrefixIs(p, sws[n]);
      WithPrefixesSnoc(p, sws);
      SwitchMapSnoc(p, sws[..n], sws[n]);
      SwitchMapSnoc(p, WithPrefixes(p, sws[..n]), WithPrefix(p, sws[n]));
    }
  }

  lemma SameEntries(p: Platform, sws: seq<Switch>)
    requires AllReadBack(p, sws)
    ensures RenderAll(p, WithPrefixes(p, sws)) == RenderAll(p, sws)
    ensures AllWf(p, WithPrefixes(p, sws)) && AllStable(p, WithPrefixes(p, sws))
  {
    hide Wf, Stable, Render, ReadsBack, WithPrefix, Says;
    forall i | 0 <= i < |sws|
      ensures Render(p, WithPrefix(p, sws[i])) == Render(p, sws[i])
      ensures Wf(p, WithPrefix(p, sws[i])) && Stable(p, WithPrefix(p, sws[i]))
    {
      assert sws[i] in sws;
      SaysItself(p, sws[i]);
      WithPrefixIs(p, sws[i]);
    }
  }

  /** A line whose appended switches read back one by one reads back as a whole: whoever is handed
      its argument vector finds the same map of switches and the same arguments. */
  lemma VectorCarriesTheLine(p: Platform, line: Line)
    requires |line.head| == 1 && AllReadBack(p, line.switches)
    requires AllTrimmed(line.args) && Parse(p, line.args, true) == Parsed([], line.args)
    ensures var again := InitLine(p, Argv(p, line));
            && again == Line([Trim(line.head[0])], WithPrefixes(p, line.switches), line.args)
            && SwitchMap(p, again.switches) == SwitchMap(p, line.switches)
  {
    var sws := line.switches;
    SameMap(p, sws);
    SameEntries(p, sws);
    RereadStable(p, WithPrefixes(p, sws), line.args);
    hide SwitchMap, RenderAll, AllWf, AllStable, AllReadBack, WithPrefixes, Parse;
    TrimAllPrefix(line.head[0], RenderAll(p, sws), line.args);
    InitParts(p, Argv(p, line));
    assert line.head == [line.head[0]] && Argv(p, line)[0] == line.head[0];
  }

  lemma InitParts(p: Platform, v: seq<string>)
    ensures var (line, parsed) := (InitLine(p, v), Parse(p, Tokens(v), true));
            line == Line([if v == [] then "" else Trim(v[0])], parsed.switches, parsed.args)
  {
    var parsed := Parse(p, Tokens(v), true);
    assert [] + parsed.switches == parsed.switches && [] + parsed.args == parsed.args;
  }

  lemma TokensTrimmed(v: seq<string>)
    ensures AllTrimmed(Tokens(v))
  {
  }

  lemma TrimAllPrefix(head: string, a: seq<string>, b: seq<string>)
    requires AllTrimmed(b)
    ensures Tokens([head] + a + b) == TrimAll(a) + b
  {
    assert ([head] + a + b)[1..] == a + b;
    assert forall i :: 0 <= i < |b| ==> b[i] in b;
    assert TrimAll(a + b) == TrimAll(a) + b;
  }

  lemma TokensOfInit(p: Platform, v: seq<string>)
    ensures var line := InitLine(p, v);
            && AllWf(p, line.switches)
            && Parse(p, line.args, true) == Parsed([], line.args)
            && |line.head| == 1 && Trimmed(line.head[0])
            && Tokens(Argv(p, line)) == TrimAll(RenderAll(p, line.switches)) + line.args
  {
    InitParts(p, v);
    TokensTrimmed(v);
    ParseShape(p, Tokens(v), true);
    var line := InitLine(p, v);
    TrimAllPrefix(line.head[0], RenderAll(p, line.switches), line.args);
  }

  lemma SecondInit(p: Platform, v: seq<string>)
    ensures var line := InitLine(p, v);
            var again := Reread(p, line.switches, line.args);
            InitLine(p, Argv(p, line)) == Line(line.head, again.switches, again.args)
  {
    TokensOfInit(p, v);
    var line := InitLine(p, v);
    InitParts(p, Argv(p, line));
    assert Argv(p, line)[0] == line.head[0];
  }

  lemma InitSwitches(p: Platform, v: seq<string>)
    ensures InitLine(p, v).switches == SwitchesOf(p, Tokens(v)[..FirstTerminator(Tokens(v))])
  {
    InitParts(p, v);
    ParseMeaning(p, Tokens(v));
  }

  lemma NormalIsStable(p: Platform, v: seq<string>)
    ensures Normal(p, v) <==> AllStable(p, InitLine(p, v).switches)
  {
    var ts := Tokens(v);
    var n := FirstTerminator(ts);
    InitSwitches(p, v);
    TokensTrimmed(v);
    assert AllTrimmed(ts[..n]);
    SwitchesStable(p, ts[..n]);
  }

  lemma {:induction false} SwitchesStable(p: Platform, ts: seq<string>)
    requires AllTrimmed(ts)
    ensures AllStable(p, SwitchesOf(p, ts)) <==>
            forall t :: t in ts && IsSwitchToken(p, t) ==> KeepsShape(p, NamePart(t), ValuePart(t))
  {
    if ts != [] {
      assert ts == [ts[0]] + ts[1..];
      assert ts[0] in ts;
      SwitchesStable(p, ts[1..]);
      if IsSwitchToken(p, ts[0]) {
        TokenParts(p, ts[0]);
        assert SwitchesOf(p, ts)[0] == TokenSwitch(p, ts[0]);
      }
    }
  }

  lemma StableIsIdempotent(p: Platform, v: seq<string>)
    requires AllStable(p, InitLine(p, v).switches)
    ensures InitLine(p, Argv(p, InitLine(p, v))) == InitLine(p, v)
  {
    hide AllStable, AllWf, Parse, Reread, InitLine, Argv, Tokens;
    var line := InitLine(p, v);
    TokensOfInit(p, v);
    SecondInit(p, v);
    RereadStable(p, line.switches, line.args);
  }

  lemma IdempotentIsStable(p: Platform, v: seq<string>)
    requires RenderAll(p, InitLine(p, Argv(p, InitLine(p, v))).switches) == RenderAll(p, InitLine(p, v).switches)
    ensures AllStable(p, InitLine(p, v).switches)
  {
    hide AllStable, AllWf, Parse, Reread, InitLine, Argv, Tokens, RenderAll;
    var line := InitLine(p, v);
    TokensOfInit(p, v);
    SecondInit(p, v);
    RereadUnstable(p, line.switches, line.args);
  }

  /** The rendered switches can be read off the fields. */
  lemma FieldsGiveSwitches(p: Platform, a: Line, b: Line)
    requires FieldsOf(p, a) == FieldsOf(p, b) && |a.head| == |b.head|
    ensures RenderAll(p, a.switches) == RenderAll(p, b.switches)
  {
    var h, n := |a.head|, |a.switches|;
    assert RenderAll(p, a.switches) == Argv(p, a)[h..h + n];
    assert RenderAll(p, b.switches) == Argv(p, b)[h..h + n];
  }

  /** Initialising from one's own argument vector changes nothing, if and only if every value-less
      switch kept its shape the first time. */
  lemma InitIsIdempotent(p: Platform, v: seq<string>)
    ensures Init(p, Init(p, v).argv) == Init(p, v) <==> Normal(p, v)
  {
    hide Normal, AllStable, InitLine, RenderAll, Reread;
    var line := InitLine(p, v);
    var again := InitLine(p, Argv(p, line));
    NormalIsStable(p, v);
    if AllStable(p, line.switches) {
      StableIsIdempotent(p, v);
    }
    if FieldsOf(p, again) == FieldsOf(p, line) {
      SecondInit(p, v);
      FieldsGiveSwitches(p, again, line);
      IdempotentIsStable(p, v);
    }
  }

  /** Whatever the input, the second normalisation is final. */
  lemma InitTwiceIsFinal(p: Platform, v: seq<string>)
    ensures var second := Init(p, Init(p, v).argv);
            Init(p, second.argv) == second
  {
    var line := InitLine(p, v);
    TokensOfInit(p, v);
    SecondInit(p, v);
    RereadGivesStable(p, line.switches, line.args);
    NormalIsStable(p, Argv(p, line));
    InitIsIdempotent(p, Argv(p, line));
  }

  lemma BarePrefixOnce()
    ensures InitLine(Posix, ["p", "-="]) == Line(["p"], [Switch("-", "")], [])
    ensures InitLine(Posix, ["p", "-"]) == Line(["p"], [], ["-"])
  {
    assert Trim("p") == "p" && Trim("-=") == "-=" && Trim("-") == "-";
    hide Trim;
    assert Tokens(["p", "-="]) == ["-="] && Tokens(["p", "-"]) == ["-"];
    FindIs("-=", '=', 1);
    assert TokenSwitch(Posix, "-=") == Switch("-", "");
    assert ["-="][1..] == [] && ["-"][1..] == [];
    assert Parse(Posix, [], true) == Parsed([], []);
    assert Parse(Posix, ["-="], true) == Parsed([Switch("-", "")], []);
    assert Parse(Posix, ["-"], true) == Parsed([], ["-"]);
  }

  /** `-=` is stored as a switch without a name, prints as a bare prefix, and is read back as an
      argument. */
  lemma BarePrefixBecomesArgument()
    ensures var first := Init(Posix, ["p", "-="]);
            && first == Fields(["p", "-"], map["" := ""], 2)
            && Init(Posix, first.argv) == Fields(["p", "-"], map[], 1)
  {
    var p, sw := Posix, Switch("-", "");
    BarePrefixOnce();
    hide InitLine, Parse, Tokens, Trim;
    RenderAllSplit(p, [sw]);
    assert Render(p, sw) == "-";
    assert RenderAll(p, [sw]) == ["-"] && RenderAll(p, []) == [];
    assert SwitchMap(p, []) == map[];
    assert SwitchMap(p, [sw]) == map["" := ""];
  }

  lemma TrimTrailing()
    ensures Trim("p") == "p" && Trim("-a =") == "-a =" && Trim("-a ") == "-a"
  {
    assert TrimLeft("-a ") == "-a ";
    assert TrimRight("-a ") == TrimRight("-a");
  }

  /** A vector with one token that is a switch. */
  lemma OneSwitchLine(arg: string, token: string, sw: Switch)
    requires Trim("p") == "p" && Trim(arg) == token
    requires token != TERMINATOR && IsSwitchToken(Posix, token) && TokenSwitch(Posix, token) == sw
    ensures InitLine(Posix, ["p", arg]) == Line(["p"], [sw], [])
  {
    hide Trim, IsSwitchToken, TokenSwitch;
    assert ["p", arg][1..] == [arg];
    assert Tokens(["p", arg]) == [token];
    assert [token][1..] == [];
    assert Parse(Posix, [], true) == Parsed([], []);
    assert Parse(Posix, [token], true) == Parsed([sw], []);
  }

  lemma TrailingSpaceOnce()
    ensures InitLine(Posix, ["p", "-a ="]) == Line(["p"], [Switch("-a ", "")], [])
    ensures InitLine(Posix, ["p", "-a "]) == Line(["p"], [Switch("-a", "")], [])
  {
    TrimTrailing();
    hide Trim, TrimLeft, TrimRight, InitLine;
    FindIs("-a =", '=', 3);
    FindIs("-a", '=', 2);
    assert TokenSwitch(Posix, "-a =") == Switch("-a ", "") && TokenSwitch(Posix, "-a") == Switch("-a", "");
    OneSwitchLine("-a =", "-a =", Switch("-a ", ""));
    OneSwitchLine("-a ", "-a", Switch("-a", ""));
  }

  lemma OneSwitchFields(name: string)
    requires PrefixLength(Posix, name) > 0
    ensures FieldsOf(Posix, Line(["p"], [Switch(name, "")], []))
            == Fields(["p", name], map[name[PrefixLength(Posix, name)..] := ""], 2)
  {
    var sw := Switch(name, "");
    RenderAllSplit(Posix, [sw]);
    assert Render(Posix, sw) == name;
    assert RenderAll(Posix, [sw]) == [name];
    assert [sw][..0] == [];
    assert SwitchMap(Posix, []) == map[];
  }

  /** A name that ends in whitespace, kept by the `=` after it, loses the whitespace when it is read
      back. */
  lemma TrailingSpaceIsLost()
    ensures var first := Init(Posix, ["p", "-a ="]);
            && first == Fields(["p", "-a "], map["a " := ""], 2)
            && Init(Posix, first.argv) == Fields(["p", "-a"], map["a" := ""], 2)
  {
    TrailingSpaceOnce();
    hide InitLine, Parse, Tokens, Trim;
    OneSwitchFields("-a ");
    OneSwitchFields("-a");
  }
}
