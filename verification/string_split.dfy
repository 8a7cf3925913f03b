/** SplitString of base/strings/string_split.cc, which cuts a wrapper command into its pieces. */
module StringSplit {
  import opened Basics
  import opened Text

  /** The pieces between the separators, untrimmed. */
  function Cut(s: string, c: char): (pieces: seq<string>)
    ensures pieces != []
  {
    var n := Find(s, c);
    if n == |s| then [s] else [s[..n]] + Cut(s[n + 1..], c)
  }

  function Rejoin(pieces: seq<string>, c: char): string
    requires pieces != []
  {
    if |pieces| == 1 then pieces[0] else pieces[0] + [c] + Rejoin(pieces[1..], c)
  }

  lemma Around(s: string, last: nat, i: nat)
    requires last <= i < |s|
    ensures s[last..] == s[last..i] + [s[i]] + s[i + 1..]
  {
  }

  lemma JoinFirst(first: string, rest: seq<string>, c: char)
    requires rest != []
    ensures Rejoin([first] + rest, c) == first + [c] + Rejoin(rest, c)
  {
    assert ([first] + rest)[1..] == rest;
  }

  /** No piece holds the separator, and the pieces with the separators between them are the text. */
  lemma {:induction false} CutUndone(s: string, c: char)
    ensures forall piece :: piece in Cut(s, c) ==> c !in piece
    ensures Rejoin(Cut(s, c), c) == s
  {
    var n := Find(s, c);
    if n == |s| {
      assert s[..n] == s;
    } else {
      var rest := Cut(s[n + 1..], c);
      CutUndone(s[n + 1..], c);
      hide Cut, Find;
      Around(s, 0, n);
      assert s[0..] == s && s[0..n] == s[..n];
      JoinFirst(s[..n], rest, c);
    }
  }

  /** Every piece is trimmed; a text of nothing but whitespace without a separator has no pieces. */
  function Split(s: string, c: char): (pieces: seq<string>) {
    var pieces := TrimAll(Cut(s, c));
    if pieces == [""] then [] else pieces
  }

  lemma CutFirst(piece: string, c: char, more: string)
    requires c !in piece
    ensures Cut(piece + [c] + more, c) == [piece] + Cut(more, c)
    ensures Cut(piece, c) == [piece]
  {
    var s := piece + [c] + more;
    assert s[..|piece|] == piece && s[|piece| + 1..] == more;
    FindIs(s, c, |piece|);
    assert piece[..|piece|] == piece;
    FindIs(piece, c, |piece|);
  }

  lemma TrimFirst(piece: string, rest: seq<string>)
    ensures TrimAll([piece] + rest) == [Trim(piece)] + TrimAll(rest)
  {
  }

  /** The first piece ends at `i`, the next separator or the end. */
  lemma CutAt(s: string, c: char, last: nat, i: nat)
    requires last <= i <= |s| && c !in s[last..i] && (i < |s| ==> s[i] == c)
    ensures TrimAll(Cut(s[last..], c)) == [Trim(s[last..i])] + if i < |s| then TrimAll(Cut(s[i + 1..], c)) else []
  {
    hide Cut, TrimAll, Trim;
    if i < |s| {
      Around(s, last, i);
      CutFirst(s[last..i], c, s[i + 1..]);
      TrimFirst(s[last..i], Cut(s[i + 1..], c));
    } else {
      assert s[last..] == s[last..i];
      CutFirst(s[last..i], c, "");
    }
  }

  /** The pieces before `last` are in `r`. */
  ghost predicate Taken(s: string, c: char, r: seq<string>, last: nat)
    requires last <= |s|
  {
    r + TrimAll(Cut(s[last..], c)) == TrimAll(Cut(s, c))
  }

  lemma NoneTaken(s: string, c: char)
    ensures Taken(s, c, [], 0)
  {
    assert s[0..] == s;
  }

  lemma TakeOne(s: string, c: char, r: seq<string>, last: nat, i: nat)
    requires last <= i < |s| && c !in s[last..i] && s[i] == c && Taken(s, c, r, last)
    ensures Taken(s, c, r + [Trim(s[last..i])], i + 1)
  {
    CutAt(s, c, last, i);
    Associative(r, [Trim(s[last..i])], TrimAll(Cut(s[i + 1..], c)));
  }

  lemma TakeLast(s: string, c: char, r: seq<string>, last: nat)
    requires last <= |s| && c !in s[last..|s|] && Taken(s, c, r, last)
    ensures Split(s, c) == if r == [] && Trim(s[last..|s|]) == "" then r else r + [Trim(s[last..|s|])]
  {
    CutAt(s, c, last, |s|);
    var all := r + [Trim(s[last..|s|])];
    assert TrimAll(Cut(s, c)) == all;
    assert |all| == |r| + 1 && all[|r|] == Trim(s[last..|s|]);
  }

  lemma Longer(s: string, c: char, last: nat, i: nat)
    requires last <= i < |s| && c !in s[last..i]
    ensures s[i] != c ==> c !in s[last..i + 1]
    ensures s[i + 1..i + 1] == ""
  {
    assert s[last..i + 1] == s[last..i] + [s[i]];
  }

  lemma NothingLeft(s: string, c: char)
    ensures Split(s, c) == [] <==> c !in s && Trim(s) == ""
    ensures Split(s, c) != [] ==> Split(s, c) == TrimAll(Cut(s, c))
  {
    hide Trim;
    var n := Find(s, c);
    assert n == |s| ==> s[..n] == s;
    assert TrimAll([s]) == [Trim(s)];
  }

  method SplitString(s: string, c: char) returns (r: seq<string>)
    ensures r == Split(s, c)
    ensures r == [] <==> c !in s && Trim(s) == ""
    ensures r != [] ==> r == TrimAll(Cut(s, c))
  {
    NothingLeft(s, c);
    r := [];
    var i, last := 0, 0;
    NoneTaken(s, c);
    hide Taken, Split, Trim, TrimAll, Cut;
    while i <= |s|
      invariant i <= |s| + 1
      invariant if i <= |s| then last <= i && c !in s[last..i] && Taken(s, c, r, last) else r == Split(s, c)
    {
      if i < |s| {
        Longer(s, c, last, i);
      }
      if i == |s| || s[i] == c {
        var tmp := Trim(s[last..i]);
        if i < |s| {
          TakeOne(s, c, r, last, i);
        } else {
          TakeLast(s, c, r, last);
        }
        if i != |s| || r != [] || tmp != "" {
          r := r + [tmp];
        }
        last := i + 1;
      }
      i := i + 1;
    }
  }
}
