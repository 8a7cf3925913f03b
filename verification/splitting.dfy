/** Why splitting undoes quoting.  A rendered command line is a list of pieces joined by spaces; a
    piece is text written as it stands, or such text followed by a quoted value.  The theorem
    `SplitUndoesJoin` decides, for every list of pieces, whether splitting gives the entries back. */
module Splitting {
  import opened Basics
  import opened Quoting

  /** `Bare` is written as it stands.  `Valued` is a prefix written as it stands, then a value that
      goes through the quoter; the prefix is empty or ends in an equals sign. */
  datatype Piece = Bare(name: string) | Valued(prefix: string, value: string) {
    function Raw(): string {
      if Bare? then name else prefix
    }

    function Whole(): string {
      if Bare? then name else prefix + value
    }

    function Text(): string {
      if Bare? then name else prefix + Quote(value)
    }

    predicate Wf() {
      && (Bare? ==> name != "")
      && (Valued? ==> prefix == "" || prefix[|prefix| - 1] == '=')
      && (Raw() != "" ==> !IsSeparator(Raw()[0]))
    }

    /** The exact condition for a piece to survive: nothing in the unquoted part that the splitter
        would interpret, no empty word, and a tab in the value only when something else in the
        value makes the quoter put quotes around it. */
    predicate Survives() {
      && Whole() != ""
      && (forall c :: c in Raw() ==> !IsSeparator(c) && c != QUOTE)
      && (Valued? && '\t' in value ==> NeedsQuotes(value))
    }
  }

  function Join(ps: seq<Piece>): string {
    if ps == [] then ""
    else if |ps| == 1 then ps[0].Text()
    else ps[0].Text() + " " + Join(ps[1..])
  }

  function Clean(out: seq<string>): Splitter {
    Splitter(out, "", 0, false, false)
  }

  /** What splitting `s` adds to the tokens already finished. */
  function SplitAfter(out: seq<string>, s: string): seq<string> {
    Close(Run(Clean(out), s)).out
  }

  // ---------------------------------------------------------------- the escaped body of a value

  lemma RunPending(st: Splitter, n: nat, c: char, tail: string)
    requires st.slashes == 0
    ensures Run(st, Slashes(n) + ([c] + tail)) == Run(Step(st.(slashes := n, started := st.started || n > 0), c), tail)
  {
    RunConcat(st, Slashes(n), [c] + tail);
    RunSlashes(st, n);
    assert ([c] + tail)[1..] == tail;
  }

  /** Inside quotes the splitter reads an escaped string back, up to the closing quote. */
  lemma {:induction false} RunEscape(st: Splitter, s: string, n: nat)
    requires st.quoted && st.started && st.slashes == 0
    ensures Run(st, Escape(s, n) + [QUOTE]) == st.(cur := st.cur + (Slashes(n) + s), quoted := false)
    decreases |s|
  {
    if s == "" {
      RunClosing(st, n);
    } else if s[0] == BACKSLASH {
      hide Run;
      RunEscape(st, s[1..], n + 1);
      assert Slashes(n + 1) + s[1..] == Slashes(n) + s;
    } else {
      RunOther(st, s, n);
      var next := st.(cur := st.cur + Slashes(n) + [s[0]]);
      hide Run, Escape;
      RunEscape(next, s[1..], 0);
      Regroup(st.cur, n, s);
    }
  }

  lemma RunClosing(st: Splitter, n: nat)
    requires st.quoted && st.started && st.slashes == 0
    ensures Run(st, Slashes(2 * n) + [QUOTE]) == st.(cur := st.cur + (Slashes(n) + ""), quoted := false)
  {
    assert [QUOTE] == [QUOTE] + "";
    RunPending(st, 2 * n, QUOTE, "");
    assert Slashes(n) + "" == Slashes(n);
  }

  /** A character with the backslashes that the escaping puts before it. */
  lemma StepEscaped(st: Splitter, n: nat, c: char)
    requires st.quoted && st.started && st.slashes == 0 && c != BACKSLASH
    ensures Step(st.(slashes := if c == QUOTE then 2 * n + 1 else n), c) == st.(cur := st.cur + Slashes(n) + [c])
  {
  }

  lemma RunOther(st: Splitter, s: string, n: nat)
    requires st.quoted && st.started && st.slashes == 0 && s != "" && s[0] != BACKSLASH
    ensures Run(st, Escape(s, n) + [QUOTE])
            == Run(st.(cur := st.cur + Slashes(n) + [s[0]]), Escape(s[1..], 0) + [QUOTE])
  {
    var k := if s[0] == QUOTE then 2 * n + 1 else n;
    var tail := Escape(s[1..], 0);
    assert Escape(s, n) == Slashes(k) + ([s[0]] + tail);
    hide Run, Escape, Step, Slashes;
    Associative(Slashes(k), [s[0]] + tail, [QUOTE]);
    Associative([s[0]], tail, [QUOTE]);
    RunPending(st, k, s[0], tail + [QUOTE]);
    StepEscaped(st, n, s[0]);
  }

  lemma Regroup(cur: string, n: nat, s: string)
    requires s != ""
    ensures cur + Slashes(n) + [s[0]] + (Slashes(0) + s[1..]) == cur + (Slashes(n) + s)
  {
    assert [s[0]] + (Slashes(0) + s[1..]) == s;
    Associative(cur + Slashes(n), [s[0]], Slashes(0) + s[1..]);
    Associative(cur, Slashes(n), s);
  }

  // ---------------------------------------------------------------- pieces that survive

  /** Text without separators and quotes is copied into the current token. */
  lemma {:induction false} RunPlain(st: Splitter, s: string)
    requires !st.quoted
    requires forall c :: c in s ==> !IsSeparator(c) && c != QUOTE
    ensures var r := Run(st, s);
            && r.out == st.out && !r.quoted
            && r.started == (st.started || s != "")
            && r.cur + Slashes(r.slashes) == st.cur + Slashes(st.slashes) + s
            && (s != "" && s[|s| - 1] != BACKSLASH ==> r.slashes == 0)
    decreases |s|
  {
    if s != "" {
      var next := Step(st, s[0]);
      assert next.cur + Slashes(next.slashes) == st.cur + Slashes(st.slashes) + [s[0]];
      RunPlain(next, s[1..]);
      assert [s[0]] + s[1..] == s;
      Associative(st.cur + Slashes(st.slashes), [s[0]], s[1..]);
    }
  }

  lemma RunQuote(st: Splitter, value: string)
    requires !st.quoted && st.slashes == 0
    requires NeedsQuotes(value)
    ensures Run(st, Quote(value)) == st.(cur := st.cur + value, started := true)
  {
    var body := Escape(value, 0) + [QUOTE];
    Associative([QUOTE], Escape(value, 0), [QUOTE]);
    assert ([QUOTE] + body)[1..] == body;
    var inside := Step(st, QUOTE);
    assert inside == st.(started := true, quoted := true);
    RunEscape(inside, value, 0);
    assert Slashes(0) + value == value;
  }

  lemma RunSurvivor(out: seq<string>, p: Piece)
    requires p.Wf() && p.Survives()
    ensures var r := Run(Clean(out), p.Text());
            r.out == out && !r.quoted && r.started && r.cur + Slashes(r.slashes) == p.Whole()
  {
    var st := Clean(out);
    assert "" + Slashes(0) == "";
    RunPlain(st, p.Raw());
    assert "" + p.Raw() == p.Raw();
    if p.Valued? {
      RunConcat(st, p.prefix, Quote(p.value));
      var mid := Run(st, p.prefix);
      if NeedsQuotes(p.value) {
        assert mid.slashes == 0;
        RunQuote(mid, p.value);
        assert mid.cur == p.prefix;
      } else {
        PlainValue(p.value);
        RunPlain(mid, p.value);
      }
    }
  }

  lemma PlainValue(value: string)
    requires !NeedsQuotes(value)
    ensures forall c :: c in value ==> c != ' ' && c != QUOTE && c != BACKSLASH
  {
  }

  function Wholes(ps: seq<Piece>): (ws: seq<string>)
    ensures |ws| == |ps|
    ensures forall i :: 0 <= i < |ps| ==> ws[i] == ps[i].Whole()
  {
    seq(|ps|, i requires 0 <= i < |ps| => ps[i].Whole())
  }

  /** Splitting a joined list whose first piece survives finishes that piece's token first. */
  lemma SpaceCloses(out: seq<string>, text: string, whole: string)
    requires var r := Run(Clean(out), text);
             r.out == out && !r.quoted && r.started && r.cur + Slashes(r.slashes) == whole
    ensures Run(Clean(out), text + " ") == Clean(out + [whole])
    ensures Close(Run(Clean(out), text)) == Clean(out + [whole])
  {
    var r := Run(Clean(out), text);
    RunConcat(Clean(out), text, " ");
    assert " "[1..] == "";
    assert Run(r, " ") == Step(r, ' ');
  }

  lemma SplitHead(out: seq<string>, ps: seq<Piece>)
    requires ps != [] && ps[0].Wf() && ps[0].Survives()
    ensures SplitAfter(out, Join(ps)) == SplitAfter(out + [ps[0].Whole()], Join(ps[1..]))
  {
    var text, rest := ps[0].Text(), Join(ps[1..]);
    RunSurvivor(out, ps[0]);
    SpaceCloses(out, text, ps[0].Whole());
    RunConcat(Clean(out), text + " ", rest);
    JoinIs(ps);
    SplitNothing(out + [ps[0].Whole()]);
    hide Run, Join, Clean, Close;
  }

  lemma JoinIs(ps: seq<Piece>)
    requires ps != []
    ensures |ps| > 1 ==> Join(ps) == ps[0].Text() + " " + Join(ps[1..])
    ensures |ps| == 1 ==> Join(ps) == ps[0].Text() && Join(ps[1..]) == ""
  {
  }

  lemma SplitNothing(out: seq<string>)
    ensures SplitAfter(out, "") == out == Clean(out).out
  {
  }

  lemma WholesHead(out: seq<string>, ps: seq<Piece>)
    requires ps != []
    ensures (out + [ps[0].Whole()]) + Wholes(ps[1..]) == out + Wholes(ps)
  {
  }

  lemma {:induction false} SplitSurvivors(out: seq<string>, ps: seq<Piece>)
    requires forall p :: p in ps ==> p.Wf() && p.Survives()
    ensures SplitAfter(out, Join(ps)) == out + Wholes(ps)
    decreases |ps|
  {
    if ps == [] {
      assert out + Wholes(ps) == out;
    } else {
      hide SplitAfter, Join;
      assert ps[0] in ps;
      SplitHead(out, ps);
      SplitSurvivors(out + [ps[0].Whole()], ps[1..]);
      WholesHead(out, ps);
    }
  }

  // ---------------------------------------------------------------- pieces that do not: no stray quotes

  predicate Unquoted(ps: seq<Piece>) {
    forall p :: p in ps ==> p.Wf() && QUOTE !in p.Raw()
  }

  /** Every token of a line without stray quotes: not empty, and a tab only beside a character
      that made the quoter use quotes. */
  predicate Solid(t: string) {
    t != "" && ('\t' in t ==> NeedsQuotes(t))
  }

  predicate AllSolid(out: seq<string>) {
    forall t :: t in out ==> Solid(t)
  }

  predicate SolidSoFar(st: Splitter) {
    && AllSolid(st.out) && !st.quoted && st.Wf()
    && (st.started ==> st.cur + Slashes(st.slashes) != "" && '\t' !in st.cur)
  }

  lemma {:induction false} RunUnquoted(st: Splitter, s: string)
    requires SolidSoFar(st) && QUOTE !in s
    ensures SolidSoFar(Run(st, s)) && st.out <= Run(st, s).out
    ensures s != "" && s[|s| - 1] == '=' ==> Run(st, s).slashes == 0 && Run(st, s).started
    decreases |s|
  {
    if s != "" {
      var next := Step(st, s[0]);
      if s[0] == BACKSLASH {
        assert (next.cur + Slashes(next.slashes))[|next.cur|] == BACKSLASH;
      }
      RunUnquoted(next, s[1..]);
    }
  }

  lemma CloseSolid(st: Splitter)
    requires SolidSoFar(st)
    ensures AllSolid(Close(st).out)
  {
    assert '\t' !in Slashes(st.slashes);
  }

  lemma RunUnquotedPiece(out: seq<string>, p: Piece)
    requires AllSolid(out) && p.Wf() && QUOTE !in p.Raw()
    ensures var r := Run(Clean(out), p.Text());
            !r.quoted && AllSolid(Close(r).out) && out <= r.out && r.Wf()
  {
    var st := Clean(out);
    RunUnquoted(st, p.Raw());
    if p.Bare? {
      CloseSolid(Run(st, p.name));
    } else {
      RunConcat(st, p.prefix, Quote(p.value));
      var mid := Run(st, p.prefix);
      if NeedsQuotes(p.value) {
        RunQuote(mid, p.value);
        var i :| 0 <= i < |p.value| && IsSpecial(p.value[i]);
        var t := mid.cur + p.value;
        assert t[|mid.cur| + i] == p.value[i];
        assert t + Slashes(0) == t;
      } else {
        PlainValue(p.value);
        RunUnquoted(mid, p.value);
        CloseSolid(Run(mid, p.value));
      }
    }
  }

  lemma SplitNext(out: seq<string>, ps: seq<Piece>)
    requires ps != [] && !Run(Clean(out), ps[0].Text()).quoted
    requires Run(Clean(out), ps[0].Text()).Wf()
    ensures SplitAfter(out, Join(ps)) == SplitAfter(Close(Run(Clean(out), ps[0].Text())).out, Join(ps[1..]))
  {
    var text, rest := ps[0].Text(), Join(ps[1..]);
    if |ps| > 1 {
      RunConcat(Clean(out), text + " ", rest);
      RunConcat(Clean(out), text, " ");
      assert Run(Run(Clean(out), text), " ") == Step(Run(Clean(out), text), ' ');
    }
  }

  lemma {:induction false} SplitUnquoted(out: seq<string>, ps: seq<Piece>)
    requires AllSolid(out) && Unquoted(ps)
    ensures AllSolid(SplitAfter(out, Join(ps))) && out <= SplitAfter(out, Join(ps))
    decreases |ps|
  {
    if ps != [] {
      RunUnquotedPiece(out, ps[0]);
      SplitNext(out, ps);
      SplitUnquoted(Close(Run(Clean(out), ps[0].Text())).out, ps[1..]);
    }
  }

  predicate HasSeparator(s: string) {
    exists c :: c in s && IsSeparator(c)
  }

  lemma CutText(out: seq<string>, text: string)
    requires HasSeparator(text) && !IsSeparator(text[0]) && QUOTE !in text
    ensures var r := Run(Clean(out), text);
            |out| < |r.out| && out <= r.out && !HasSeparator(r.out[|out|])
  {
    var k := FirstSeparator(text);
    var word, rest := text[..k], text[k + 1..];
    assert text == word + ([text[k]] + rest);
    RunWord(out, word, text[k], rest);
    RunMonotone(Clean(out + [word]), rest);
  }

  lemma RunWord(out: seq<string>, word: string, c: char, rest: string)
    requires word != "" && !HasSeparator(word) && QUOTE !in word && IsSeparator(c)
    ensures Run(Clean(out), word + ([c] + rest)) == Run(Clean(out + [word]), rest)
  {
    RunPlain(Clean(out), word);
    assert "" + Slashes(0) + word == word;
    RunConcat(Clean(out), word, [c] + rest);
    assert ([c] + rest)[1..] == rest;
  }

  /** A piece whose text has a separator before any quote: its first token stops at the separator. */
  lemma CutToken(out: seq<string>, p: Piece)
    requires p.Wf() && QUOTE !in p.Raw() && p.Raw() != ""
    requires HasSeparator(p.Raw()) || (p.Valued? && '\t' in p.value && !NeedsQuotes(p.value))
    ensures var r := Run(Clean(out), p.Text());
            |out| < |r.out| && out <= r.out && !HasSeparator(r.out[|out|])
  {
    if HasSeparator(p.Raw()) {
      CutText(out, p.Raw());
      if p.Valued? {
        RunConcat(Clean(out), p.Raw(), Quote(p.value));
        RunMonotone(Run(Clean(out), p.Raw()), Quote(p.value));
      }
    } else {
      PlainValue(p.value);
      var text := p.prefix + p.value;
      assert '\t' in text && IsSeparator('\t');
      CutText(out, text);
    }
  }

  lemma {:induction false} FirstSeparator(s: string) returns (k: nat)
    requires HasSeparator(s)
    ensures k < |s| && IsSeparator(s[k]) && forall j :: 0 <= j < k ==> !IsSeparator(s[j])
  {
    k := 0;
    if !IsSeparator(s[0]) {
      assert s == [s[0]] + s[1..];
      var m := FirstSeparator(s[1..]);
      k := m + 1;
    }
  }

  lemma {:induction false} RunMonotone(st: Splitter, s: string)
    ensures st.out <= Run(st, s).out
    decreases |s|
  {
    if s != "" {
      RunMonotone(Step(st, s[0]), s[1..]);
    }
  }

  /** An entry is what its piece spells, except that a bare name may have lost an empty value. */
  predicate EntryOf(e: string, p: Piece) {
    e == p.Whole() || (p.Bare? && e == p.Whole() + "=")
  }

  predicate EntriesOf(es: seq<string>, ps: seq<Piece>) {
    |es| == |ps| && forall i :: 0 <= i < |ps| ==> EntryOf(es[i], ps[i])
  }

  lemma FirstTokenDiffers(out: seq<string>, p: Piece, e: string, result: seq<string>)
    requires p.Wf() && QUOTE !in p.Raw() && !p.Survives() && EntryOf(e, p)
    requires AllSolid(result) && |out| < |result|
    requires Run(Clean(out), p.Text()).out <= result
    ensures result[|out|] != e
  {
    if p.Raw() != "" {
      assert e[..|p.Raw()|] == p.Raw();
      if HasSeparator(p.Raw()) {
        var i :| 0 <= i < |p.Raw()| && IsSeparator(p.Raw()[i]);
        assert e[i] == p.Raw()[i] && e[i] in e;
      } else {
        var i :| 0 <= i < |p.value| && p.value[i] == '\t';
        assert e[|p.prefix| + i] == '\t' && '\t' in e && IsSeparator('\t');
      }
      assert HasSeparator(e);
      CutToken(out, p);
      assert Run(Clean(out), p.Text()).out[|out|] == result[|out|];
    } else {
      assert e == p.value;
      assert result[|out|] in result;
    }
  }

  lemma HeadMatches(out: seq<string>, first: string, es: seq<string>, after: seq<string>)
    requires after == out + [first] && es != [] && after <= out + es
    ensures es[0] == first && out + es == after + es[1..]
  {
    assert after[|out|] == (out + es)[|out|];
  }

  lemma {:induction false} UnquotedConverse(out: seq<string>, ps: seq<Piece>, es: seq<string>)
    requires AllSolid(out) && Unquoted(ps) && EntriesOf(es, ps)
    requires SplitAfter(out, Join(ps)) == out + es
    ensures es == Wholes(ps) && forall p :: p in ps ==> p.Survives()
    decreases |ps|
  {
    if ps != [] {
      SplitUnquoted(out, ps);
      var p := ps[0];
      RunUnquotedPiece(out, p);
      SplitNext(out, ps);
      var after := Close(Run(Clean(out), p.Text())).out;
      SplitUnquoted(after, ps[1..]);
      if !p.Survives() {
        FirstTokenDiffers(out, p, es[0], out + es);
        assert false;
      }
      SplitHead(out, ps);
      RunSurvivor(out, p);
      assert after == out + [p.Whole()];
      HeadMatches(out, p.Whole(), es, after);
      UnquotedConverse(after, ps[1..], es[1..]);
    }
  }

  // ---------------------------------------------------------------- pieces that do not: stray quotes

  /** How many backslashes and quotes a string holds: the characters a splitter can consume. */
  function Weight(s: string): nat {
    if s == "" then 0 else (if s[0] == BACKSLASH || s[0] == QUOTE then 1 else 0) + Weight(s[1..])
  }

  function TotalWeight(ts: seq<string>): nat {
    if ts == [] then 0 else Weight(ts[0]) + TotalWeight(ts[1..])
  }

  lemma {:induction false} WeightConcat(a: string, b: string)
    ensures Weight(a + b) == Weight(a) + Weight(b)
  {
    if a == "" {
      assert a + b == b;
    } else {
      assert (a + b)[1..] == a[1..] + b;
      WeightConcat(a[1..], b);
    }
  }

  lemma {:induction false} WeightSlashes(n: nat)
    ensures Weight(Slashes(n)) == n
  {
    if n > 0 {
      assert Slashes(n)[1..] == Slashes(n - 1);
      WeightSlashes(n - 1);
    }
  }

  lemma {:induction false} TotalWeightSnoc(ts: seq<string>, t: string)
    ensures TotalWeight(ts + [t]) == TotalWeight(ts) + Weight(t)
  {
    if ts != [] {
      assert (ts + [t])[1..] == ts[1..] + [t];
      TotalWeightSnoc(ts[1..], t);
    }
  }

  function Held(st: Splitter): nat {
    TotalWeight(st.out) + Weight(st.cur) + st.slashes
  }

  lemma CloseHolds(st: Splitter)
    requires st.Wf()
    ensures Held(Close(st)) == Held(st) && Close(st).Wf() && Close(st).slashes == 0
  {
    WeightConcat(st.cur, Slashes(st.slashes));
    WeightSlashes(st.slashes);
    TotalWeightSnoc(st.out, st.cur + Slashes(st.slashes));
  }

  /** Whether or not the reader is inside quotes, a step keeps what it reads, except that a quote
      is worth less than it weighs. */
  lemma StepHolds(st: Splitter, c: char)
    requires st.Wf()
    ensures Step(st, c).Wf()
    ensures c == BACKSLASH ==> Held(Step(st, c)) == Held(st) + 1
    ensures c == QUOTE ==> Held(Step(st, c)) == Held(st) - st.slashes + st.slashes / 2 + st.slashes % 2
    ensures c != BACKSLASH && c != QUOTE ==> Held(Step(st, c)) == Held(st)
    ensures c != BACKSLASH ==> Step(st, c).slashes == 0
  {
    if c == QUOTE {
      WeightConcat(st.cur, Slashes(st.slashes / 2));
      WeightSlashes(st.slashes / 2);
      WeightConcat(st.cur + Slashes(st.slashes / 2), [QUOTE]);
    } else if c != BACKSLASH {
      CloseHolds(st);
      WeightConcat(st.cur, Slashes(st.slashes));
      WeightSlashes(st.slashes);
      WeightConcat(st.cur + Slashes(st.slashes), [c]);
    }
  }

  lemma {:induction false} RunHolds(st: Splitter, s: string)
    requires st.Wf()
    ensures Run(st, s).Wf()
    ensures Held(Run(st, s)) <= Held(st) + Weight(s)
    ensures QUOTE in s ==> Held(Run(st, s)) < Held(st) + Weight(s)
    ensures s != "" && s[|s| - 1] == '=' ==> Run(st, s).slashes == 0
    decreases |s|
  {
    if s != "" {
      StepHolds(st, s[0]);
      RunHolds(Step(st, s[0]), s[1..]);
    }
  }

  lemma ClosingHolds(st: Splitter, n: nat)
    requires st.Wf() && st.slashes == 0
    ensures var r := Run(st, Slashes(2 * n) + [QUOTE]);
            r.Wf() && r.slashes == 0 && Held(r) == Held(st) + n
  {
    assert [QUOTE] == [QUOTE] + "";
    RunPending(st, 2 * n, QUOTE, "");
    StepHolds(st.(slashes := 2 * n, started := st.started || 2 * n > 0), QUOTE);
  }

  lemma {:induction false} EscapeHolds(st: Splitter, s: string, n: nat)
    requires st.Wf() && st.slashes == 0
    ensures var r := Run(st, Escape(s, n) + [QUOTE]);
            r.Wf() && r.slashes == 0 && Held(r) == Held(st) + n + Weight(s)
    decreases |s|
  {
    var close := [QUOTE];
    if s == "" {
      ClosingHolds(st, n);
    } else if s[0] == BACKSLASH {
      EscapeHolds(st, s[1..], n + 1);
    } else {
      var k := if s[0] == QUOTE then 2 * n + 1 else n;
      var tail := Escape(s[1..], 0);
      assert Escape(s, n) == Slashes(k) + ([s[0]] + tail);
      hide Run, Escape, Step;
      Associative(Slashes(k), [s[0]] + tail, close);
      Associative([s[0]], tail, close);
      RunPending(st, k, s[0], tail + close);
      var pending := st.(slashes := k, started := st.started || k > 0);
      StepHolds(pending, s[0]);
      EscapeHolds(Step(pending, s[0]), s[1..], 0);
    }
  }

  lemma PieceHolds(st: Splitter, p: Piece)
    requires st.Wf() && st.slashes == 0 && p.Wf()
    ensures var r := Run(st, p.Text());
            && r.Wf() && Held(r) <= Held(st) + Weight(p.Whole())
            && (QUOTE in p.Raw() ==> Held(r) < Held(st) + Weight(p.Whole()))
  {
    RunHolds(st, p.Raw());
    if p.Valued? {
      WeightConcat(p.prefix, p.value);
      RunConcat(st, p.prefix, Quote(p.value));
      var mid := Run(st, p.prefix);
      if NeedsQuotes(p.value) {
        StepHolds(mid, QUOTE);
        var body := Escape(p.value, 0) + [QUOTE];
        Associative([QUOTE], Escape(p.value, 0), [QUOTE]);
        assert ([QUOTE] + body)[1..] == body;
        EscapeHolds(Step(mid, QUOTE), p.value, 0);
      } else {
        RunHolds(mid, p.value);
      }
    }
  }

  lemma {:induction false} JoinHolds(st: Splitter, ps: seq<Piece>)
    requires st.Wf() && st.slashes == 0
    requires forall p :: p in ps ==> p.Wf()
    ensures var r := Run(st, Join(ps));
            && r.Wf() && Held(r) <= Held(st) + TotalWeight(Wholes(ps))
            && (!Unquoted(ps) ==> Held(r) < Held(st) + TotalWeight(Wholes(ps)))
    decreases |ps|
  {
    if ps != [] {
      PieceHolds(st, ps[0]);
      var text, rest := ps[0].Text(), Join(ps[1..]);
      assert Wholes(ps)[1..] == Wholes(ps[1..]);
      if |ps| > 1 {
        var mid := Run(st, text);
        RunConcat(st, text + " ", rest);
        RunConcat(st, text, " ");
        assert Run(mid, " ") == Step(mid, ' ');
        StepHolds(mid, ' ');
        JoinHolds(Step(mid, ' '), ps[1..]);
      }
    }
  }

  lemma EntryWeight(e: string, p: Piece)
    requires EntryOf(e, p)
    ensures Weight(e) == Weight(p.Whole())
  {
    WeightConcat(p.Whole(), "=");
  }

  lemma TotalWeightStep(ts: seq<string>)
    requires ts != []
    ensures TotalWeight(ts) == Weight(ts[0]) + TotalWeight(ts[1..])
  {
  }

  lemma {:induction false} EntryWeights(es: seq<string>, ps: seq<Piece>)
    requires EntriesOf(es, ps)
    ensures TotalWeight(es) == TotalWeight(Wholes(ps))
    decreases |ps|
  {
    if ps != [] {
      assert EntryOf(es[0], ps[0]);
      assert forall i :: 0 <= i < |ps[1..]| ==> es[1..][i] == es[i + 1] && EntryOf(es[i + 1], ps[i + 1]);
      assert Wholes(ps)[1..] == Wholes(ps[1..]);
      hide EntryOf, TotalWeight;
      EntryWeight(es[0], ps[0]);
      EntryWeights(es[1..], ps[1..]);
      TotalWeightStep(es);
      TotalWeightStep(Wholes(ps));
    }
  }

  predicate AllSurvive(ps: seq<Piece>, es: seq<string>)
    requires |es| == |ps|
  {
    forall i :: 0 <= i < |ps| ==> ps[i].Survives() && ps[i].Whole() == es[i]
  }

  lemma StrayQuotes(ps: seq<Piece>, es: seq<string>)
    requires EntriesOf(es, ps) && (forall p :: p in ps ==> p.Wf()) && !Unquoted(ps)
    ensures Split(Join(ps)) != es && !AllSurvive(ps, es)
  {
    JoinHolds(START, ps);
    CloseHolds(Run(START, Join(ps)));
    EntryWeights(es, ps);
    var i :| 0 <= i < |ps| && QUOTE in ps[i].Raw();
    assert !ps[i].Survives();
  }

  lemma NoStrayQuotes(ps: seq<Piece>, es: seq<string>)
    requires EntriesOf(es, ps) && Unquoted(ps)
    ensures Split(Join(ps)) == es ==> AllSurvive(ps, es)
  {
    if Split(Join(ps)) == es {
      assert [] + es == es;
      UnquotedConverse([], ps, es);
      assert forall i :: 0 <= i < |ps| ==> ps[i] in ps;
    }
  }

  /** Splitting a joined line gives the entries back if and only if every piece survives and spells
      its entry in full. */
  lemma SplitUndoesJoin(ps: seq<Piece>, es: seq<string>)
    requires EntriesOf(es, ps)
    requires forall i :: 0 <= i < |ps| ==> ps[i].Wf()
    ensures Split(Join(ps)) == es <==> AllSurvive(ps, es)
  {
    if Unquoted(ps) {
      NoStrayQuotes(ps, es);
    } else {
      StrayQuotes(ps, es);
    }
    if AllSurvive(ps, es) {
      SplitSurvivors([], ps);
      assert [] + Wholes(ps) == Wholes(ps) == es;
    }
  }

  // ---------------------------------------------------------------- lists of quoted arguments

  function JoinQuoted(args: seq<string>): string {
    if args == [] then ""
    else if |args| == 1 then Quote(args[0])
    else Quote(args[0]) + " " + JoinQuoted(args[1..])
  }

  /** The arguments the quoter is made for: it skips empty ones and does not look at tabs. */
  predicate Quotable(arg: string) {
    arg != "" && ('\t' in arg ==> NeedsQuotes(arg))
  }

  function AsPieces(args: seq<string>): (ps: seq<Piece>)
    ensures |ps| == |args| && forall i :: 0 <= i < |ps| ==> ps[i] == Valued("", args[i])
  {
    seq(|args|, i requires 0 <= i < |args| => Valued("", args[i]))
  }

  lemma {:induction false} JoinAsPieces(args: seq<string>)
    ensures JoinQuoted(args) == Join(AsPieces(args))
    decreases |args|
  {
    if args != [] {
      var p := AsPieces(args)[0];
      assert p.Text() == Quote(args[0]);
      JoinAsPieces(args[1..]);
      assert AsPieces(args)[1..] == AsPieces(args[1..]);
    }
  }

  /** Quoting, joining and splitting is the identity on exactly the lists of quotable arguments. */
  lemma SplitUndoesQuoting(args: seq<string>)
    ensures Split(JoinQuoted(args)) == args <==> forall arg :: arg in args ==> Quotable(arg)
  {
    var ps := AsPieces(args);
    JoinAsPieces(args);
    assert forall i :: 0 <= i < |args| ==> ps[i].Whole() == args[i];
    SplitUndoesJoin(ps, args);
    assert forall i :: 0 <= i < |args| ==> (ps[i].Survives() <==> Quotable(args[i]));
  }

  /** The quoter leaves a tab bare, and the splitter takes it for a separator. */
  lemma TabSplitsAnArgument()
    ensures Split(JoinQuoted(["a\tb"])) == ["a", "b"]
  {
    var s := "a\tb";
    assert !NeedsQuotes(s);
    assert JoinQuoted([s]) == s;
    assert s[1..] == "\tb" && s[1..][1..] == "b" && s[1..][1..][1..] == "";
    var st0 := Step(START, 'a');
    assert Slashes(0) == "" && st0 == Splitter([], "a", 0, true, false);
    var st1 := Step(st0, '\t');
    assert "a" + Slashes(0) == "a" && st1 == Splitter(["a"], "", 0, false, false);
    var st2 := Step(st1, 'b');
    assert st2 == Splitter(["a"], "b", 0, true, false);
    assert Run(START, s) == Run(st0, "\tb") == Run(st1, "b") == Run(st2, "") == st2;
    assert "b" + Slashes(0) == "b";
  }

  /** The quoter writes nothing for an empty argument. */
  lemma EmptyArgumentIsLost()
    ensures Split(JoinQuoted([""])) == []
  {
    var args := [""];
    assert !NeedsQuotes(args[0]) && Quote(args[0]) == "";
    assert JoinQuoted(args) == Quote(args[0]);
    assert Run(START, "") == START;
  }
}
