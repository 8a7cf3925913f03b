/** String operations that the command line code takes from elsewhere: trimming, searching for the
    value separator, and lower-casing ASCII letters. */
module Text {

  predicate IsWhitespace(c: char) {
    c == ' ' || '\t' <= c <= '\r'
  }

  predicate Trimmed(s: string) {
    s != "" ==> !IsWhitespace(s[0]) && !IsWhitespace(s[|s| - 1])
  }

  function TrimLeft(s: string): (t: string)
    ensures t != "" ==> !IsWhitespace(t[0])
    ensures s != "" && !IsWhitespace(s[0]) ==> t == s
    ensures forall c :: c in t ==> c in s
    ensures s != "" && !IsWhitespace(s[|s| - 1]) ==> t != "" && t[|t| - 1] == s[|s| - 1]
  {
    if s != "" && IsWhitespace(s[0]) then TrimLeft(s[1..]) else s
  }

  function TrimRight(s: string): (t: string)
    ensures t != "" ==> !IsWhitespace(t[|t| - 1]) && s != "" && t[0] == s[0]
    ensures s != "" && !IsWhitespace(s[|s| - 1]) ==> t == s
    ensures forall c :: c in t ==> c in s
  {
    if s != "" && IsWhitespace(s[|s| - 1]) then TrimRight(s[..|s| - 1]) else s
  }

  function Trim(s: string): (t: string)
    ensures Trimmed(t)
    ensures Trimmed(s) ==> t == s
    ensures forall c :: c in t ==> c in s
  {
    TrimRight(TrimLeft(s))
  }

  predicate AllWhitespace(s: string) {
    forall c :: c in s ==> IsWhitespace(c)
  }

  lemma {:induction false} TrimLeftCuts(s: string)
    ensures |TrimLeft(s)| <= |s|
    ensures var i := |s| - |TrimLeft(s)|;
            s[i..] == TrimLeft(s) && AllWhitespace(s[..i])
  {
    if s != "" && IsWhitespace(s[0]) {
      TrimLeftCuts(s[1..]);
      var i := |s| - |TrimLeft(s)|;
      assert s[..i] == [s[0]] + s[1..][..i - 1];
    }
  }

  lemma {:induction false} TrimRightCuts(s: string)
    ensures |TrimRight(s)| <= |s|
    ensures var j := |TrimRight(s)|;
            s[..j] == TrimRight(s) && AllWhitespace(s[j..])
  {
    if s != "" && IsWhitespace(s[|s| - 1]) {
      var n := |s| - 1;
      TrimRightCuts(s[..n]);
      var j := |TrimRight(s)|;
      assert s[j..] == s[..n][j..] + [s[n]];
    } else {
      assert s[..|s|] == s;
    }
  }

  lemma Middle(s: string, i: nat, left: string, t: string)
    requires i <= |s| && left == s[i..] && |t| <= |left| && t == left[..|t|]
    ensures s == s[..i] + t + s[i + |t|..] && left[|t|..] == s[i + |t|..]
  {
  }

  /** Trimming takes whitespace off both ends and nothing from between. */
  lemma TrimCuts(s: string)
    ensures var i := |s| - |TrimLeft(s)|;
            var j := i + |Trim(s)|;
            && 0 <= i <= j <= |s|
            && s == s[..i] + Trim(s) + s[j..] && AllWhitespace(s[..i]) && AllWhitespace(s[j..])
  {
    TrimLeftCuts(s);
    TrimRightCuts(TrimLeft(s));
    hide TrimLeft, TrimRight, AllWhitespace;
    Middle(s, |s| - |TrimLeft(s)|, TrimLeft(s), Trim(s));
  }

  function TrimAll(tokens: seq<string>): (ts: seq<string>)
    ensures |ts| == |tokens| && forall i :: 0 <= i < |ts| ==> ts[i] == Trim(tokens[i])
  {
    seq(|tokens|, i requires 0 <= i < |tokens| => Trim(tokens[i]))
  }

  function Find(s: string, c: char): (n: nat)
    ensures n <= |s| && c !in s[..n] && (n < |s| ==> s[n] == c)
  {
    if s == "" || s[0] == c then 0 else
      var m := Find(s[1..], c);
      assert s[..m + 1] == [s[0]] + s[1..][..m];
      1 + m
  }

  lemma {:induction false} FindIs(s: string, c: char, n: nat)
    requires n <= |s| && c !in s[..n] && (n < |s| ==> s[n] == c)
    ensures Find(s, c) == n
  {
    if n > 0 {
      assert s[..n] == [s[0]] + s[1..][..n - 1];
      FindIs(s[1..], c, n - 1);
    }
  }

  function LowerChar(c: char): char {
    if 'A' <= c <= 'Z' then c - 'A' + 'a' else c
  }

  function Lower(s: string): (t: string)
    ensures |t| == |s| && forall i :: 0 <= i < |s| ==> t[i] == LowerChar(s[i])
  {
    seq(|s|, i requires 0 <= i < |s| => LowerChar(s[i]))
  }
}
