/** Altering an environment block: base/environment.cc.

    An environment is a list of `key=value` lines. AlterEnvironment drops the lines whose key is
    changed and appends the changes that have a value. */
module Environments {
  import opened Basics
  import Text

  const NUL := '\0'

  // ----- Null-terminated strings in memory -----

  predicate Terminated(m: seq<char>, at: nat)
    decreases |m| - at
  {
    at < |m| && (m[at] == NUL || Terminated(m, at + 1))
  }

  /** What a reader of the string that starts at `at` sees. */
  function CString(m: seq<char>, at: nat): string
    requires Terminated(m, at)
    decreases |m| - at
  {
    if m[at] == NUL then "" else [m[at]] + CString(m, at + 1)
  }

  lemma {:induction false} CStringIs(m: seq<char>, at: nat, s: string)
    requires NUL !in s
    requires at + |s| < |m| && m[at..at + |s|] == s && m[at + |s|] == NUL
    ensures Terminated(m, at) && CString(m, at) == s
    decreases |s|
  {
    if s != "" {
      assert m[at] == m[at..at + |s|][0] == s[0];
      assert s[1..] == m[at + 1..at + |s|];
      CStringIs(m, at + 1, s[1..]);
    }
  }

  lemma {:induction false} CStringFits(m: seq<char>, at: nat)
    requires Terminated(m, at)
    ensures NUL !in CString(m, at)
    ensures at + |CString(m, at)| < |m|
    ensures m[at..at + |CString(m, at)| + 1] == CString(m, at) + [NUL]
    decreases |m| - at
  {
    if m[at] == NUL {
      assert m[at..at + 1] == [NUL];
    } else {
      CStringFits(m, at + 1);
      var rest := CString(m, at + 1);
      assert CString(m, at) == [m[at]] + rest;
      OneMore(m, at, at + |rest| + 2);
      Associative([m[at]], rest, [NUL]);
    }
  }

  lemma OneMore(m: seq<char>, i: nat, j: nat)
    requires i < j <= |m|
    ensures m[i..j] == [m[i]] + m[i + 1..j]
  {
  }

  // ----- Lines, keys and changes -----

  /** The part of a line before its first `=`; all of it when there is none. */
  function Key(line: string): string {
    line[..Text.Find(line, '=')]
  }

  lemma KeyIs(key: string, rest: string)
    requires '=' !in key
    requires rest == "" || rest[0] == '='
    ensures Key(key + rest) == key
  {
    assert (key + rest)[..|key|] == key;
    Text.FindIs(key + rest, '=', |key|);
  }

  datatype Change = Change(name: string, value: string)

  function Line(c: Change): string {
    c.name + "=" + c.value
  }

  /** The order of the keys of a std::map. */
  predicate Less(a: string, b: string) {
    b != "" && (a == "" || a[0] < b[0] || (a[0] == b[0] && Less(a[1..], b[1..])))
  }

  predicate Below(name: string, changes: seq<Change>) {
    forall c :: c in changes ==> Less(name, c.name)
  }

  /** An EnvironmentMap, as its iterator lists it: names strictly increase. */
  predicate Ordered(changes: seq<Change>) {
    changes == [] || (Below(changes[0].name, changes[1..]) && Ordered(changes[1..]))
  }

  function Find(changes: seq<Change>, key: string): Option<string> {
    if changes == [] then None
    else if changes[0].name == key then Some(changes[0].value)
    else Find(changes[1..], key)
  }

  // ----- The altered list of lines -----

  function Kept(lines: seq<string>, changes: seq<Change>): seq<string> {
    if lines == [] then []
    else (if Find(changes, Key(lines[0])).None? then [lines[0]] else []) + Kept(lines[1..], changes)
  }

  function Added(changes: seq<Change>): seq<string> {
    if changes == [] then []
    else (if changes[0].value != "" then [Line(changes[0])] else []) + Added(changes[1..])
  }

  function Alter(lines: seq<string>, changes: seq<Change>): seq<string> {
    Kept(lines, changes) + Added(changes)
  }

  function KeepOne(line: string, changes: seq<Change>): seq<string> {
    if Find(changes, Key(line)).None? then [line] else []
  }

  lemma KeptStep(lines: seq<string>, changes: seq<Change>)
    requires lines != []
    ensures Kept(lines, changes) == KeepOne(lines[0], changes) + Kept(lines[1..], changes)
  {
  }

  lemma {:induction false} KeptAppend(a: seq<string>, b: seq<string>, changes: seq<Change>)
    ensures Kept(a + b, changes) == Kept(a, changes) + Kept(b, changes)
  {
    if a == [] {
      assert a + b == b;
    } else {
      hide Kept, KeepOne;
      assert (a + b)[1..] == a[1..] + b;
      KeptStep(a, changes);
      KeptStep(a + b, changes);
      KeptAppend(a[1..], b, changes);
      Associative(KeepOne(a[0], changes), Kept(a[1..], changes), Kept(b, changes));
    }
  }

  lemma {:induction false} AddedAppend(a: seq<Change>, b: seq<Change>)
    ensures Added(a + b) == Added(a) + Added(b)
  {
    if a == [] {
      assert a + b == b;
    } else {
      assert (a + b)[1..] == a[1..] + b;
      AddedAppend(a[1..], b);
    }
  }

  // ----- The order of the altered lines -----

  /** Lines that no change names stay where they are, in front of everything else. */
  lemma UnchangedStayInFront(line: string, lines: seq<string>, changes: seq<Change>)
    ensures Alter([line] + lines, changes)
            == (if Find(changes, Key(line)).None? then [line] else []) + Alter(lines, changes)
  {
    KeptStep([line] + lines, changes);
    hide Kept, Key;
    assert ([line] + lines)[1..] == lines;
    Associative(KeepOne(line, changes), Kept(lines, changes), Added(changes));
  }

  lemma {:induction false} FindLast(changes: seq<Change>, c: Change, key: string)
    requires key != c.name
    ensures Find(changes + [c], key) == Find(changes, key)
  {
    if changes != [] {
      assert (changes + [c])[1..] == changes[1..] + [c];
      FindLast(changes[1..], c, key);
    }
  }

  lemma {:induction false} KeptLastChange(lines: seq<string>, changes: seq<Change>, c: Change)
    requires forall line :: line in lines ==> Key(line) != c.name
    ensures Kept(lines, changes + [c]) == Kept(lines, changes)
  {
    if lines != [] {
      FindLast(changes, c, Key(lines[0]));
      KeptLastChange(lines[1..], changes, c);
    }
  }

  /** The line of a variable that is not set yet comes after those of the changes before it. */
  lemma LastChangeIsAppendedLast(lines: seq<string>, changes: seq<Change>, c: Change)
    requires forall line :: line in lines ==> Key(line) != c.name
    ensures Alter(lines, changes + [c]) == Alter(lines, changes) + (if c.value != "" then [Line(c)] else [])
  {
    KeptLastChange(lines, changes, c);
    AddedAppend(changes, [c]);
    assert [c][1..] == [];
    Associative(Kept(lines, changes), Added(changes), Added([c]));
  }

  // ----- Applying the same changes twice -----

  /** Every change with a value has a name whose part before any `=` is itself the name of a change.
      A map whose names hold no `=` is always absorbed. */
  predicate Absorbed(changes: seq<Change>, known: seq<Change>) {
    forall c :: c in changes && c.value != "" ==> Find(known, Key(c.name)).Some?
  }

  lemma KeyOfLine(c: Change)
    ensures Key(Line(c)) == Key(c.name)
  {
    var n := Text.Find(c.name, '=');
    assert Line(c)[..n] == c.name[..n];
    Text.FindIs(Line(c), '=', n);
  }

  lemma {:induction false} KeptTwice(lines: seq<string>, changes: seq<Change>)
    ensures Kept(Kept(lines, changes), changes) == Kept(lines, changes)
  {
    if lines != [] {
      KeptTwice(lines[1..], changes);
      var rest := Kept(lines[1..], changes);
      if Find(changes, Key(lines[0])).None? {
        assert ([lines[0]] + rest)[1..] == rest;
      } else {
        assert Kept(lines, changes) == rest;
      }
    }
  }

  /** None of the appended lines survives a second pass exactly when each of their keys is changed. */
  lemma {:induction false} KeptAdded(some: seq<Change>, changes: seq<Change>)
    ensures Kept(Added(some), changes) == [] <==> Absorbed(some, changes)
  {
    if some != [] {
      KeptAdded(some[1..], changes);
      assert forall c :: c in some <==> c == some[0] || c in some[1..];
      if some[0].value == "" {
        assert Added(some) == Added(some[1..]);
      } else {
        KeyOfLine(some[0]);
        assert Added(some)[1..] == Added(some[1..]);
      }
    }
  }

  lemma AlterTwice(lines: seq<string>, changes: seq<Change>)
    ensures Alter(Alter(lines, changes), changes) == Alter(lines, changes) <==> Absorbed(changes, changes)
  {
    var kept, added := Kept(lines, changes), Added(changes);
    KeptAppend(kept, added, changes);
    KeptTwice(lines, changes);
    KeptAdded(changes, changes);
    assert Alter(Alter(lines, changes), changes) == (kept + Kept(added, changes)) + added;
    if Kept(added, changes) != [] {
      assert |(kept + Kept(added, changes)) + added| > |kept + added|;
    } else {
      assert kept + Kept(added, changes) == kept;
    }
  }

  lemma {:induction false} FindSome(changes: seq<Change>, c: Change)
    requires c in changes
    ensures Find(changes, c.name).Some?
  {
    if changes[0].name != c.name {
      FindSome(changes[1..], c);
    }
  }

  predicate PlainNames(changes: seq<Change>) {
    forall c :: c in changes ==> '=' !in c.name
  }

  lemma PlainNamesAreAbsorbed(changes: seq<Change>)
    requires PlainNames(changes)
    ensures Absorbed(changes, changes)
  {
    forall c | c in changes ensures Find(changes, Key(c.name)).Some? {
      FindSome(changes, c);
      KeyIs(c.name, "");
      assert c.name + "" == c.name;
    }
  }

  /** A name that holds `=` is appended again by each call. */
  lemma EqualsInNameIsAppendedAgain()
    ensures var changes := [Change("a=b", "c")];
            && Alter([], changes) == ["a=b=c"]
            && Alter(Alter([], changes), changes) == ["a=b=c", "a=b=c"]
  {
    var changes := [Change("a=b", "c")];
    assert Line(changes[0]) == "a=b=c";
    assert Added(changes) == ["a=b=c"];
    assert Key("a=b=c") == "a" by {
      KeyIs("a", "=b=c");
      assert "a" + "=b=c" == "a=b=c";
    }
    assert Find(changes, "a").None?;
    assert Kept(["a=b=c"], changes) == ["a=b=c"];
  }

  // ----- Looking a variable up in the altered environment -----

  /** The value of the first line `key=value`. */
  function Lookup(lines: seq<string>, key: string): Option<string> {
    if lines == [] then None
    else if Key(lines[0]) == key && |key| < |lines[0]| then Some(lines[0][|key| + 1..])
    else Lookup(lines[1..], key)
  }

  /** What a change says of its key: an empty value removes it. */
  function Effect(change: Option<string>, otherwise: Option<string>): Option<string> {
    match change
    case None => otherwise
    case Some(value) => if value == "" then None else Some(value)
  }

  lemma {:induction false} LookupAppend(a: seq<string>, b: seq<string>, key: string)
    ensures Lookup(a + b, key) == if Lookup(a, key).Some? then Lookup(a, key) else Lookup(b, key)
  {
    if a == [] {
      assert a + b == b;
    } else {
      assert (a + b)[1..] == a[1..] + b;
      LookupAppend(a[1..], b, key);
    }
  }

  lemma {:induction false} LookupKept(lines: seq<string>, changes: seq<Change>, key: string)
    ensures Lookup(Kept(lines, changes), key) == if Find(changes, key).None? then Lookup(lines, key) else None
  {
    if lines != [] {
      LookupKept(lines[1..], changes, key);
      var rest := Kept(lines[1..], changes);
      if Find(changes, Key(lines[0])).None? {
        assert ([lines[0]] + rest)[1..] == rest;
      } else {
        assert Kept(lines, changes) == rest;
      }
    }
  }

  lemma {:induction false} LessIrreflexive(a: string)
    ensures !Less(a, a)
  {
    if a != "" {
      LessIrreflexive(a[1..]);
    }
  }

  lemma {:induction false} LessTransitive(a: string, b: string, c: string)
    requires Less(a, b) && Less(b, c)
    ensures Less(a, c)
  {
    if a != "" && a[0] == b[0] == c[0] {
      LessTransitive(a[1..], b[1..], c[1..]);
    }
  }

  lemma {:induction false} LessTotal(a: string, b: string)
    ensures a == b || Less(a, b) || Less(b, a)
  {
    if a != "" && b != "" && a[0] == b[0] {
      LessTotal(a[1..], b[1..]);
      assert a == [a[0]] + a[1..] && b == [b[0]] + b[1..];
    }
  }

  lemma {:induction false} FindNone(changes: seq<Change>, key: string)
    requires Below(key, changes)
    ensures Find(changes, key).None?
  {
    if changes != [] {
      LessIrreflexive(key);
      FindNone(changes[1..], key);
    }
  }

  lemma {:induction false} LessPrefix(a: string, more: string)
    requires more != ""
    ensures Less(a, a + more)
  {
    if a == "" {
      assert a + more == more;
    } else {
      assert (a + more)[1..] == a[1..] + more;
      LessPrefix(a[1..], more);
    }
  }

  lemma {:induction false} FindIsMember(changes: seq<Change>, key: string)
    requires Find(changes, key).Some?
    ensures Change(key, Find(changes, key).value) in changes
  {
    if changes[0].name == key {
      assert changes[0] == Change(key, Find(changes, key).value);
    } else {
      FindIsMember(changes[1..], key);
    }
  }

  lemma {:induction false} MemberIsFound(changes: seq<Change>, c: Change)
    requires Ordered(changes) && c in changes
    ensures Find(changes, c.name) == Some(c.value)
  {
    if c != changes[0] {
      assert c in changes[1..];
      LessIrreflexive(c.name);
      MemberIsFound(changes[1..], c);
    }
  }

  /** A change whose line is read as a line of `key`. */
  predicate Sets(c: Change, key: string) {
    c.value != "" && Key(c.name) == key
  }

  lemma LineLooksUp(c: Change, rest: seq<string>, key: string)
    ensures Lookup([Line(c)] + rest, key) ==
            if Key(c.name) == key then Some(Line(c)[|key| + 1..]) else Lookup(rest, key)
  {
    KeyOfLine(c);
    assert ([Line(c)] + rest)[1..] == rest;
  }

  predicate AnySets(changes: seq<Change>, key: string) {
    exists c :: c in changes && Sets(c, key)
  }

  lemma AnySetsStep(changes: seq<Change>, key: string)
    requires changes != []
    ensures AnySets(changes, key) <==> Sets(changes[0], key) || AnySets(changes[1..], key)
  {
    if AnySets(changes[1..], key) {
      var c :| c in changes[1..] && Sets(c, key);
      assert c in changes;
    }
    if AnySets(changes, key) {
      var c :| c in changes && Sets(c, key);
      assert c == changes[0] || c in changes[1..];
    }
  }

  lemma {:induction false} LookupAddedSome(changes: seq<Change>, key: string)
    ensures Lookup(Added(changes), key).Some? <==> AnySets(changes, key)
  {
    if changes != [] {
      AnySetsStep(changes, key);
      LookupAddedSome(changes[1..], key);
      if changes[0].value == "" {
        assert Added(changes) == Added(changes[1..]);
      } else {
        LineLooksUp(changes[0], Added(changes[1..]), key);
      }
    }
  }

  lemma PlainKey(name: string)
    requires '=' !in name
    ensures Key(name) == name
  {
    KeyIs(name, "");
    assert name + "" == name;
  }

  /** A name is listed before the longer names that are read as lines of it. */
  lemma NoneSetsBefore(c: Change, key: string)
    requires Less(c.name, key)
    ensures Key(c.name) != key
  {
    if Key(c.name) == key {
      var more := c.name[|key|..];
      assert c.name == key + more;
      if more != "" {
        LessPrefix(key, more);
        LessTransitive(c.name, key, c.name);
      }
      assert more == "" ==> c.name == key;
      LessIrreflexive(c.name);
    }
  }

  lemma {:induction false} LookupAddedFound(changes: seq<Change>, key: string)
    requires Ordered(changes) && '=' !in key
    requires Find(changes, key).Some? && Find(changes, key).value != ""
    ensures Lookup(Added(changes), key) == Find(changes, key)
  {
    var c, rest := changes[0], changes[1..];
    if c.name == key {
      PlainKey(key);
      LineLooksUp(c, Added(rest), key);
      assert Line(c)[|key| + 1..] == c.value;
    } else {
      LookupAddedFound(rest, key);
      FindIsMember(rest, key);
      NoneSetsBefore(c, key);
      if c.value == "" {
        assert Added(changes) == Added(rest);
      } else {
        LineLooksUp(c, Added(rest), key);
      }
    }
  }

  /** Every appended line is read as a line of a variable that the changes set.  Names without `=`
      always meet this. */
  predicate Shadowed(changes: seq<Change>) {
    forall c :: c in changes && c.value != "" ==>
      Find(changes, Key(c.name)).Some? && Find(changes, Key(c.name)).value != ""
  }

  lemma PlainNamesAreShadowed(changes: seq<Change>)
    requires Ordered(changes) && PlainNames(changes)
    ensures Shadowed(changes)
  {
    forall c | c in changes && c.value != ""
      ensures Find(changes, Key(c.name)) == Some(c.value)
    {
      PlainKey(c.name);
      MemberIsFound(changes, c);
    }
  }

  /** A changed variable has its new value, or none, and any other has the value that it had. */
  predicate Obeys(lines: seq<string>, changes: seq<Change>, key: string) {
    Lookup(Alter(lines, changes), key) == Effect(Find(changes, key), Lookup(lines, key))
  }

  lemma LookupAltered(lines: seq<string>, changes: seq<Change>, key: string)
    requires Ordered(changes) && Shadowed(changes) && '=' !in key
    ensures Obeys(lines, changes, key)
  {
    LookupAppend(Kept(lines, changes), Added(changes), key);
    LookupKept(lines, changes, key);
    LookupAddedSome(changes, key);
    if Find(changes, key).Some? && Find(changes, key).value != "" {
      LookupAddedFound(changes, key);
    }
  }

  /** The law holds for every environment and every variable if and only if the changes are
      shadowed. */
  lemma ChangesAreObeyed(changes: seq<Change>)
    requires Ordered(changes)
    ensures Shadowed(changes) <==> forall lines, key :: '=' !in key ==> Obeys(lines, changes, key)
  {
    if Shadowed(changes) {
      forall lines, key | '=' !in key
        ensures Obeys(lines, changes, key)
      {
        LookupAltered(lines, changes, key);
      }
    } else {
      var c :| c in changes && c.value != ""
               && !(Find(changes, Key(c.name)).Some? && Find(changes, Key(c.name)).value != "");
      var key := Key(c.name);
      assert Sets(c, key);
      LookupAddedSome(changes, key);
      assert Alter([], changes) == Added(changes);
      assert !Obeys([], changes, key);
    }
  }

  /** The map `first` overridden by the map `second`. */
  function Override(first: seq<Change>, second: seq<Change>): seq<Change> {
    if first == [] then second
    else if second == [] then first
    else if first[0].name == second[0].name then [second[0]] + Override(first[1..], second[1..])
    else if Less(first[0].name, second[0].name) then [first[0]] + Override(first[1..], second)
    else [second[0]] + Override(first, second[1..])
  }

  lemma BelowAll(name: string, changes: seq<Change>)
    requires Ordered(changes) && changes != [] && Less(name, changes[0].name)
    ensures Below(name, changes)
  {
    forall c | c in changes ensures Less(name, c.name) {
      if c != changes[0] {
        assert c in changes[1..];
        LessTransitive(name, changes[0].name, c.name);
      }
    }
  }

  lemma {:induction false} OverrideMembers(first: seq<Change>, second: seq<Change>, c: Change)
    requires c in Override(first, second)
    ensures c in first || c in second
  {
    if first != [] && second != [] {
      if first[0].name == second[0].name {
        if c != second[0] {
          OverrideMembers(first[1..], second[1..], c);
        }
      } else if Less(first[0].name, second[0].name) {
        if c != first[0] {
          OverrideMembers(first[1..], second, c);
        }
      } else if c != second[0] {
        OverrideMembers(first, second[1..], c);
      }
    }
  }

  lemma BelowOverride(name: string, first: seq<Change>, second: seq<Change>)
    requires Below(name, first) && Below(name, second)
    ensures Below(name, Override(first, second))
  {
    forall c | c in Override(first, second) ensures Less(name, c.name) {
      OverrideMembers(first, second, c);
    }
  }

  lemma {:induction false} OverrideOrdered(first: seq<Change>, second: seq<Change>)
    requires Ordered(first) && Ordered(second)
    ensures Ordered(Override(first, second))
  {
    if first != [] && second != [] {
      var x, y := first[0].name, second[0].name;
      LessTotal(x, y);
      if x == y {
        OverrideOrdered(first[1..], second[1..]);
        BelowOverride(x, first[1..], second[1..]);
      } else if Less(x, y) {
        OverrideOrdered(first[1..], second);
        BelowAll(x, second);
        BelowOverride(x, first[1..], second);
      } else {
        OverrideOrdered(first, second[1..]);
        BelowAll(y, first);
        BelowOverride(y, first, second[1..]);
      }
    }
  }

  lemma {:induction false} FindOverride(first: seq<Change>, second: seq<Change>, key: string)
    requires Ordered(first) && Ordered(second)
    ensures Find(Override(first, second), key) ==
            if Find(second, key).Some? then Find(second, key) else Find(first, key)
  {
    if first != [] && second != [] {
      if first[0].name == second[0].name {
        FindOverride(first[1..], second[1..], key);
      } else if Less(first[0].name, second[0].name) {
        FindOverride(first[1..], second, key);
        if first[0].name == key {
          BelowAll(key, second);
          FindNone(second, key);
        }
      } else {
        FindOverride(first, second[1..], key);
      }
    }
  }

  lemma PlainOverride(first: seq<Change>, second: seq<Change>)
    requires PlainNames(first) && PlainNames(second)
    ensures PlainNames(Override(first, second))
  {
    forall c | c in Override(first, second) ensures '=' !in c.name {
      OverrideMembers(first, second, c);
    }
  }

  /** Two calls in a row look like one call with the overridden map. */
  lemma AlterCompose(lines: seq<string>, first: seq<Change>, second: seq<Change>, key: string)
    requires Ordered(first) && Ordered(second) && '=' !in key
    requires Shadowed(first) && Shadowed(second) && Shadowed(Override(first, second))
    ensures Lookup(Alter(Alter(lines, first), second), key) == Lookup(Alter(lines, Override(first, second)), key)
  {
    OverrideOrdered(first, second);
    LookupAltered(lines, first, key);
    LookupAltered(Alter(lines, first), second, key);
    LookupAltered(lines, Override(first, second), key);
    FindOverride(first, second, key);
  }

  /** For names without `=` nothing else is asked. */
  lemma PlainAlterCompose(lines: seq<string>, first: seq<Change>, second: seq<Change>, key: string)
    requires Ordered(first) && Ordered(second) && PlainNames(first) && PlainNames(second) && '=' !in key
    ensures Ordered(Override(first, second))
    ensures Lookup(Alter(Alter(lines, first), second), key) == Lookup(Alter(lines, Override(first, second)), key)
  {
    OverrideOrdered(first, second);
    PlainOverride(first, second);
    PlainNamesAreShadowed(first);
    PlainNamesAreShadowed(second);
    PlainNamesAreShadowed(Override(first, second));
    AlterCompose(lines, first, second, key);
  }

  // ----- Packing lines into memory -----

  function Pack(lines: seq<string>): seq<char> {
    if lines == [] then [] else lines[0] + [NUL] + Pack(lines[1..])
  }

  /** Where line `i` starts. */
  function Start(lines: seq<string>, i: nat): nat
    requires i <= |lines|
  {
    |Pack(lines[..i])|
  }

  predicate Clean(lines: seq<string>) {
    forall l :: l in lines ==> NUL !in l
  }

  predicate CleanChanges(changes: seq<Change>) {
    forall c :: c in changes ==> NUL !in c.name && NUL !in c.value
  }

  lemma {:induction false} PackAppend(a: seq<string>, b: seq<string>)
    ensures Pack(a + b) == Pack(a) + Pack(b)
  {
    if a == [] {
      assert a + b == b;
    } else {
      assert (a + b)[1..] == a[1..] + b;
      PackAppend(a[1..], b);
    }
  }

  lemma PackLast(lines: seq<string>, line: string)
    ensures Pack(lines + [line]) == Pack(lines) + (line + [NUL])
  {
    PackAppend(lines, [line]);
    assert Pack([line]) == line + [NUL];
  }

  lemma PackSplit(lines: seq<string>, i: nat)
    requires i < |lines|
    ensures Start(lines, i + 1) == Start(lines, i) + |lines[i]| + 1 <= |Pack(lines)|
    ensures Pack(lines)[Start(lines, i)..Start(lines, i + 1)] == lines[i] + [NUL]
  {
    assert lines[..i + 1] == lines[..i] + [lines[i]];
    PackLast(lines[..i], lines[i]);
    assert lines == lines[..i + 1] + lines[i + 1..];
    PackAppend(lines[..i + 1], lines[i + 1..]);
  }

  lemma {:induction false} StartsIncrease(lines: seq<string>, i: nat, j: nat)
    requires i < j <= |lines|
    ensures Start(lines, i) + |lines[i]| + 1 <= Start(lines, j)
    decreases j - i
  {
    PackSplit(lines, i);
    if i + 1 < j {
      PackSplit(lines, i + 1);
      StartsIncrease(lines, i + 1, j);
    }
  }

  /** Reading the packed memory at the start of a line gives the line. */
  lemma PackReads(lines: seq<string>, i: nat, memory: seq<char>)
    requires i < |lines| && NUL !in lines[i]
    requires Pack(lines) <= memory
    ensures Terminated(memory, Start(lines, i)) && CString(memory, Start(lines, i)) == lines[i]
  {
    PackSplit(lines, i);
    var at := Start(lines, i);
    var cut := Pack(lines)[at..at + |lines[i]| + 1];
    assert memory[at..at + |lines[i]|] == cut[..|lines[i]|];
    assert memory[at + |lines[i]|] == cut[|lines[i]|];
    CStringIs(memory, at, lines[i]);
  }

  lemma {:induction false} AddedClean(changes: seq<Change>)
    requires CleanChanges(changes)
    ensures Clean(Added(changes)) && "" !in Added(changes)
  {
    if changes != [] {
      AddedClean(changes[1..]);
    }
  }

  lemma {:induction false} KeptMembers(lines: seq<string>, changes: seq<Change>)
    ensures forall l :: l in Kept(lines, changes) <==> l in lines && Find(changes, Key(l)).None?
  {
    if lines != [] {
      KeptMembers(lines[1..], changes);
    }
  }

  lemma AlterClean(lines: seq<string>, changes: seq<Change>)
    requires Clean(lines) && CleanChanges(changes)
    ensures Clean(Alter(lines, changes))
    ensures "" !in lines ==> "" !in Alter(lines, changes)
  {
    KeptMembers(lines, changes);
    AddedClean(changes);
  }
}
