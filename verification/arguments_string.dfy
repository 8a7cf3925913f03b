/** What a Windows command line string preserves: splitting the printed arguments gives argv_[1..]
    back on exactly the lines described by `Representable`. */
module ArgumentsStrings {
  import opened Basics
  import opened Quoting
  import opened Splitting
  import opened CommandLines
  import StringSplit

  function PieceOf(p: Platform, e: string, on: bool): Piece {
    if on && IsSwitchToken(p, e) then
      if ValuePart(e) == "" then Bare(NamePart(e)) else Valued(NamePart(e) + "=", ValuePart(e))
    else
      Valued("", e)
  }

  /** Switches are recognised up to the first terminator. */
  predicate InSwitches(es: seq<string>, i: nat)
    requires i < |es|
  {
    TERMINATOR !in es[..i + 1]
  }

  function Pieces(p: Platform, es: seq<string>, on: bool): seq<Piece> {
    if es == [] then []
    else
      var still := on && es[0] != TERMINATOR;
      [PieceOf(p, es[0], still)] + Pieces(p, es[1..], still)
  }

  lemma InSwitchesStep(es: seq<string>, i: nat)
    requires 0 < i < |es|
    ensures InSwitches(es, i) <==> es[0] != TERMINATOR && InSwitches(es[1..], i - 1)
  {
    assert es[..i + 1] == [es[0]] + es[1..][..i];
  }

  lemma InSwitchesFirst(es: seq<string>)
    requires es != []
    ensures InSwitches(es, 0) <==> es[0] != TERMINATOR
  {
    assert es[..1] == [es[0]];
  }

  lemma {:induction false} PiecesAt(p: Platform, es: seq<string>, on: bool)
    ensures |Pieces(p, es, on)| == |es|
    ensures forall i :: 0 <= i < |es| ==> Pieces(p, es, on)[i] == PieceOf(p, es[i], on && InSwitches(es, i))
    decreases |es|
  {
    if es != [] {
      var still := on && es[0] != TERMINATOR;
      var first, rest := PieceOf(p, es[0], still), Pieces(p, es[1..], still);
      PiecesAt(p, es[1..], still);
      assert Pieces(p, es, on) == [first] + rest;
      hide Pieces, PieceOf, InSwitches;
      InSwitchesFirst(es);
      forall i | 0 < i < |es|
        ensures Pieces(p, es, on)[i] == PieceOf(p, es[i], on && InSwitches(es, i))
      {
        InSwitchesStep(es, i);
        assert Pieces(p, es, on)[i] == rest[i - 1] && es[1..][i - 1] == es[i];
      }
    }
  }

  lemma {:induction false} TextIsJoin(p: Platform, es: seq<string>, on: bool)
    requires p.Windows?
    ensures ArgumentsText(p, es, on) == Join(Pieces(p, es, on))
    decreases |es|
  {
    if es != [] {
      var still := on && es[0] != TERMINATOR;
      TextIsJoin(p, es[1..], still);
      PiecesAt(p, es[1..], still);
      var piece, rest := PieceOf(p, es[0], still), Join(Pieces(p, es[1..], still));
      assert EntryText(p, es[0], still) == piece.Text() by {
        if piece.Valued? && piece.prefix != "" {
          Associative(NamePart(es[0]), "=", Quote(ValuePart(es[0])));
        }
      }
      Associative(piece.Text(), " ", rest);
    }
  }

  /** An entry that its own printed form denotes.  A switch's name must not contain a separator or a
      quote, since it is printed unquoted, and an equals sign must be followed by a value. */
  predicate EntryOk(p: Platform, e: string, on: bool) {
    if on && IsSwitchToken(p, e) then
      && (forall c :: c in NamePart(e) ==> c != ' ' && c != '\t' && c != QUOTE)
      && ('=' in e ==> ValuePart(e) != "")
      && ('\t' in ValuePart(e) ==> NeedsQuotes(ValuePart(e)))
    else
      Quotable(e)
  }

  predicate Representable(p: Platform, es: seq<string>) {
    forall i :: 0 <= i < |es| ==> EntryOk(p, es[i], InSwitches(es, i))
  }

  lemma SwitchParts(p: Platform, e: string)
    requires IsSwitchToken(p, e)
    ensures NamePart(e) != "" && NamePart(e)[0] == e[0] && !IsSeparator(e[0])
    ensures '=' in e <==> e != NamePart(e)
    ensures e == if '=' in e then NamePart(e) + "=" + ValuePart(e) else NamePart(e)
  {
    var n := Text.Find(e, '=');
    assert n == |e| ==> e[..n] == e;
  }

  /** The piece spells the entry, up to a lost empty value, and survives exactly when the entry is
      acceptable. */
  ghost predicate Matches(p: Platform, e: string, on: bool) {
    var piece := PieceOf(p, e, on);
    && piece.Wf() && EntryOf(e, piece)
    && (EntryOk(p, e, on) <==> piece.Survives() && piece.Whole() == e)
  }

  lemma ValuedPiece(name: string, value: string)
    requires name != "" && !IsSeparator(name[0]) && value != ""
    ensures var piece := Valued(name + "=", value);
            && piece.Wf() && piece.Whole() == name + "=" + value
            && (piece.Survives() <==>
                  && (forall c :: c in name ==> c != ' ' && c != '\t' && c != QUOTE)
                  && ('\t' in value ==> NeedsQuotes(value)))
  {
    var prefix := name + "=";
    hide NeedsQuotes;
    assert prefix[|name|] == '=' && prefix[0] == name[0];
    assert forall c :: c in prefix <==> c in name || c == '=';
  }

  lemma SwitchWithValue(p: Platform, e: string)
    requires IsSwitchToken(p, e) && ValuePart(e) != ""
    ensures Matches(p, e, true)
  {
    SwitchParts(p, e);
    ValuedPiece(NamePart(e), ValuePart(e));
    NoEqualsNoValue(e);
    hide NamePart, ValuePart, NeedsQuotes, IsSwitchToken;
  }

  lemma NoEqualsNoValue(e: string)
    ensures ValuePart(e) != "" ==> '=' in e
  {
  }

  lemma SwitchWithoutValue(p: Platform, e: string)
    requires IsSwitchToken(p, e) && ValuePart(e) == ""
    ensures Matches(p, e, true)
  {
    SwitchParts(p, e);
    var name := NamePart(e);
    assert name + "=" + "" == name + "=" && name + "=" != name;
  }

  lemma PieceMatchesEntry(p: Platform, e: string, on: bool)
    ensures Matches(p, e, on)
  {
    if !(on && IsSwitchToken(p, e)) {
      assert "" + e == e;
    } else if ValuePart(e) != "" {
      SwitchWithValue(p, e);
    } else {
      SwitchWithoutValue(p, e);
    }
  }

  /** The line read back from its own string is the line, if and only if it is representable. */
  lemma SplitUndoesPrinting(p: Platform, es: seq<string>)
    requires p.Windows?
    ensures Split(ArgumentsText(p, es, true)) == es <==> Representable(p, es)
  {
    var ps := Pieces(p, es, true);
    TextIsJoin(p, es, true);
    PiecesAt(p, es, true);
    forall i | 0 <= i < |es|
      ensures Matches(p, es[i], InSwitches(es, i))
    {
      PieceMatchesEntry(p, es[i], InSwitches(es, i));
    }
    SplitUndoesJoin(ps, es);
  }

  // ---------------------------------------------------------------- POSIX

  function Spaced(es: seq<string>): string {
    if es == [] then "" else StringSplit.Rejoin(es, ' ')
  }

  /** A switch that ends in its own `=` is printed without it. */
  predicate LosesEquals(p: Platform, e: string, on: bool) {
    on && IsSwitchToken(p, e) && '=' in e && ValuePart(e) == ""
  }

  function ShownEntry(p: Platform, e: string, on: bool): (shown: string)
    ensures |shown| == |e| - if LosesEquals(p, e, on) then 1 else 0
  {
    if LosesEquals(p, e, on) then e[..|e| - 1] else e
  }

  function Shown(p: Platform, es: seq<string>, on: bool): (shown: seq<string>)
    ensures |shown| == |es| && forall i :: 0 <= i < |es| ==> shown[i] == ShownEntry(p, es[i], on && InSwitches(es, i))
  {
    seq(|es|, i requires 0 <= i < |es| => ShownEntry(p, es[i], on && InSwitches(es, i)))
  }

  lemma ShownFirst(p: Platform, es: seq<string>, on: bool)
    requires es != []
    ensures var still := on && es[0] != TERMINATOR;
            Shown(p, es, on) == [ShownEntry(p, es[0], still)] + Shown(p, es[1..], still)
  {
    hide ShownEntry, InSwitches;
    InSwitchesFirst(es);
    var still := on && es[0] != TERMINATOR;
    var shown, rest := Shown(p, es, on), Shown(p, es[1..], still);
    forall i | 0 < i < |es|
      ensures shown[i] == rest[i - 1]
    {
      InSwitchesStep(es, i);
    }
  }

  lemma PosixEntry(p: Platform, e: string, on: bool)
    requires p.Posix?
    ensures EntryText(p, e, on) == ShownEntry(p, e, on)
  {
    if on && IsSwitchToken(p, e) {
      SwitchParts(p, e);
      assert NamePart(e) + "=" + "" == NamePart(e) + "=";
      assert NamePart(e) + "=" + ValuePart(e) == NamePart(e) + ("=" + ValuePart(e));
      NoEqualsNoValue(e);
    }
  }

  /** On POSIX the string is the entries with a space between each two, but for the last `=` of a
      switch that has no value. */
  lemma {:induction false} PosixTextIs(p: Platform, es: seq<string>, on: bool)
    requires p.Posix?
    ensures ArgumentsText(p, es, on) == Spaced(Shown(p, es, on))
    decreases |es|
  {
    if es != [] {
      var still := on && es[0] != TERMINATOR;
      var first, rest := ShownEntry(p, es[0], still), Shown(p, es[1..], still);
      PosixTextIs(p, es[1..], still);
      PosixEntry(p, es[0], still);
      ShownFirst(p, es, on);
      hide ShownEntry, Shown, EntryText, TERMINATOR;
      if rest == [] {
        assert first + ("" + "") == first;
      } else {
        StringSplit.JoinFirst(first, rest, ' ');
        Associative(first, " ", StringSplit.Rejoin(rest, ' '));
      }
    }
  }

  lemma {:induction false} SpacedLength(p: Platform, es: seq<string>, on: bool)
    ensures |Spaced(Shown(p, es, on))| <= |Spaced(es)|
    ensures |Spaced(Shown(p, es, on))| == |Spaced(es)| ==> Shown(p, es, on) == es
    decreases |es|
  {
    if es != [] {
      var still := on && es[0] != TERMINATOR;
      ShownFirst(p, es, on);
      SpacedLength(p, es[1..], still);
      assert es == [es[0]] + es[1..];
      if |es| > 1 {
        StringSplit.JoinFirst(es[0], es[1..], ' ');
        StringSplit.JoinFirst(ShownEntry(p, es[0], still), Shown(p, es[1..], still), ' ');
      }
    }
  }

  /** The string is exactly the entries with spaces between them, if and only if no switch before the
      first terminator ends in its own `=`. */
  lemma PosixTextIsExact(es: seq<string>)
    ensures ArgumentsText(Posix, es, true) == Spaced(es) <==>
            forall i :: 0 <= i < |es| ==> !LosesEquals(Posix, es[i], InSwitches(es, i))
  {
    PosixTextIs(Posix, es, true);
    SpacedLength(Posix, es, true);
    hide LosesEquals, InSwitches, Spaced;
    if forall i :: 0 <= i < |es| ==> !LosesEquals(Posix, es[i], InSwitches(es, i)) {
      assert Shown(Posix, es, true) == es;
    }
    if Shown(Posix, es, true) == es {
      forall i | 0 <= i < |es|
        ensures !LosesEquals(Posix, es[i], InSwitches(es, i))
      {
        assert |Shown(Posix, es, true)[i]| == |es[i]|;
      }
    }
  }

  /** `--a=` is printed as `--a`. */
  lemma LastEqualsIsLost()
    ensures ArgumentsText(Posix, ["--a="], true) == "--a"
  {
    Text.FindIs("--a=", '=', 3);
    assert NamePart("--a=") == "--a" && ValuePart("--a=") == "";
    assert EntryText(Posix, "--a=", true) == "--a" + "";
    assert ["--a="][1..] == [];
    assert "--a" + ("" + "") == "--a";
  }
}
