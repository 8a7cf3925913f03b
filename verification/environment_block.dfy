/** The two AlterEnvironment functions of base/environment.cc and the memory layouts they take and
    return. */
module EnvironmentBlocks {
  import opened Basics
  import Text
  import opened Environments

  // ----- Parsing one line -----

  method ParseEnvLine(input: seq<char>, start: nat) returns (key: string, length: nat)
    requires Terminated(input, start)
    ensures length == |CString(input, start)| + 1 && start + length <= |input|
    ensures input[start..start + length] == CString(input, start) + [NUL]
    ensures key == Key(CString(input, start))
  {
    hide CString, Terminated, Key;
    ghost var line := CString(input, start);
    CStringFits(input, start);
    CharactersOf(input, start);
    var cur := 0;
    while input[start + cur] != NUL && input[start + cur] != '='
      invariant cur <= Text.Find(line, '=')
      decreases |line| - cur
    {
      cur := cur + 1;
    }
    key := input[start..start + cur];
    SamePrefix(input, start, line, cur);
    KeyIsPrefix(line, cur);
    while input[start + cur] != NUL
      invariant cur <= |line|
      decreases |line| - cur
    {
      cur := cur + 1;
    }
    length := cur + 1;
  }

  lemma KeyIsPrefix(line: string, cur: nat)
    requires cur == Text.Find(line, '=')
    ensures Key(line) == line[..cur]
  {
  }

  lemma SamePrefix(m: seq<char>, at: nat, line: string, k: nat)
    requires k <= |line| && at + |line| <= |m|
    requires forall j :: 0 <= j < |line| ==> m[at + j] == line[j]
    ensures m[at..at + k] == line[..k]
  {
  }

  lemma CharactersOf(m: seq<char>, at: nat)
    requires Terminated(m, at)
    ensures var line := CString(m, at);
            && at + |line| < |m| && m[at + |line|] == NUL
            && forall k :: 0 <= k < |line| ==> m[at + k] == line[k] != NUL
  {
    CStringFits(m, at);
    var line := CString(m, at);
    var cut := m[at..at + |line| + 1];
    assert forall k :: 0 <= k <= |line| ==> m[at + k] == cut[k] && (k < |line| ==> line[k] in line);
  }

  // ----- The POSIX block -----

  /** A char* of the block: null, or an address counted in bytes from the start of the allocation. */
  datatype Pointer = Null | To(address: nat)

  function Lines(env: seq<seq<char>>): (lines: seq<string>)
    requires forall e :: e in env ==> Terminated(e, 0)
    ensures |lines| == |env| && forall i :: 0 <= i < |env| ==> lines[i] == CString(env[i], 0)
  {
    seq(|env|, i requires 0 <= i < |env| => CString(env[i], 0))
  }

  /** An allocation of `count` words of `word` bytes: first the pointers, then the bytes of
      `storage`. */
  predicate Laid(lines: seq<string>, word: nat, count: nat, pointers: seq<Pointer>, storage: seq<char>) {
    && |pointers| == |lines| + 1 <= count
    && |storage| == (count - |pointers|) * word
    && (forall i :: 0 <= i < |lines| ==> pointers[i] == To(|pointers| * word + Start(lines, i)))
    && pointers[|lines|] == Null
    && Pack(lines) <= storage
  }

  /** Each pointer lands on its own null-terminated string, the string is its line, and it ends
      inside the allocation and before the next one starts. */
  lemma BlockReadsBack(lines: seq<string>, word: nat, count: nat, pointers: seq<Pointer>, storage: seq<char>, i: nat)
    requires Laid(lines, word, count, pointers, storage) && Clean(lines) && i < |lines|
    ensures pointers[i].To?
    ensures var at := pointers[i].address - |pointers| * word;
            && 0 <= at && Terminated(storage, at) && CString(storage, at) == lines[i]
    ensures pointers[i].address + |lines[i]| + 1 <= count * word
    ensures forall j :: i < j < |lines| ==> pointers[i].address + |lines[i]| + 1 <= pointers[j].address
  {
    PackReads(lines, i, storage);
    PackSplit(lines, i);
    Distribute(count - |pointers|, |pointers|, word);
    forall j | i < j < |lines| ensures pointers[i].address + |lines[i]| + 1 <= pointers[j].address {
      StartsIncrease(lines, i, j);
    }
  }

  /** How many words hold `size` bytes. */
  method WordsFor(size: nat, word: nat) returns (words: nat)
    requires word > 0
    ensures size <= words * word < size + word
  {
    words := (size + word - 1) / word;
    assert words * word + (size + word - 1) % word == size + word - 1;
  }

  lemma KeptLast(lines: seq<string>, line: string, changes: seq<Change>)
    ensures Kept(lines + [line], changes) ==
            if Find(changes, Key(line)).None? then Kept(lines, changes) + [line] else Kept(lines, changes)
  {
    KeptAppend(lines, [line], changes);
    assert [line][1..] == [];
  }

  lemma AddedLast(changes: seq<Change>, i: nat)
    requires i < |changes|
    ensures Added(changes[..i + 1]) ==
            if changes[i].value == "" then Added(changes[..i]) else Added(changes[..i]) + [Line(changes[i])]
  {
    assert changes[..i + 1] == changes[..i] + [changes[i]];
    AddedAppend(changes[..i], [changes[i]]);
    assert [changes[i]][1..] == [];
  }

  lemma NothingAdded(kept: seq<string>, changes: seq<Change>)
    ensures kept + Added(changes[..0]) == kept
  {
  }

  lemma AddedNext(kept: seq<string>, changes: seq<Change>, i: nat)
    requires i < |changes|
    ensures var (now, next) := (kept + Added(changes[..i]), kept + Added(changes[..i + 1]));
            next == if changes[i].value == "" then now else now + [Line(changes[i])]
  {
    AddedLast(changes, i);
    hide Added, Line;
    Associative(kept, Added(changes[..i]), [Line(changes[i])]);
  }

  method CopyLines(env: seq<seq<char>>, changes: seq<Change>) returns (valueStorage: seq<char>, resultIndices: seq<nat>)
    requires forall e :: e in env ==> Terminated(e, 0)
    ensures valueStorage == Pack(Kept(Lines(env), changes))
    ensures |resultIndices| == |Kept(Lines(env), changes)|
    ensures forall i :: 0 <= i < |resultIndices| ==> resultIndices[i] == Start(Kept(Lines(env), changes), i)
  {
    ghost var lines, kept := Lines(env), [];
    valueStorage, resultIndices := [], [];
    assert lines[..0] == [];
    for i := 0 to |env|
      invariant kept == Kept(lines[..i], changes)
      invariant valueStorage == Pack(kept) && |resultIndices| == |kept|
      invariant forall k :: 0 <= k < |kept| ==> resultIndices[k] == Start(kept, k)
    {
      hide Kept, Pack, Start, CString, Terminated, Lines, Key, Find;
      var key, lineLength := ParseEnvLine(env[i], 0);
      KeptNext(lines, i, changes);
      if Find(changes, key).None? {
        Extend(kept, lines[i], resultIndices);
        resultIndices := resultIndices + [|valueStorage|];
        valueStorage := valueStorage + env[i][..lineLength];
        kept := kept + [lines[i]];
      }
    }
    assert lines[..|env|] == lines;
  }

  lemma KeptNext(lines: seq<string>, i: nat, changes: seq<Change>)
    requires i < |lines|
    ensures var (now, next) := (Kept(lines[..i], changes), Kept(lines[..i + 1], changes));
            next == if Find(changes, Key(lines[i])).None? then now + [lines[i]] else now
  {
    assert lines[..i + 1] == lines[..i] + [lines[i]];
    KeptLast(lines[..i], lines[i], changes);
  }

  lemma Extend(lines: seq<string>, line: string, starts: seq<nat>)
    requires |starts| == |lines| && forall k :: 0 <= k < |lines| ==> starts[k] == Start(lines, k)
    ensures Pack(lines + [line]) == Pack(lines) + (line + [NUL])
    ensures forall k :: 0 <= k <= |lines| ==> (starts + [|Pack(lines)|])[k] == Start(lines + [line], k)
  {
    PackLast(lines, line);
    forall k | 0 <= k <= |lines| ensures (starts + [|Pack(lines)|])[k] == Start(lines + [line], k) {
      assert (lines + [line])[..k] == lines[..k];
    }
    assert lines[..|lines|] == lines;
  }

  method PushChange(storage: seq<char>, c: Change) returns (result: seq<char>)
    ensures result == storage + (Line(c) + [NUL])
  {
    result := storage + c.name;
    result := result + ['='];
    result := result + c.value;
    result := result + [NUL];
  }

  method AppendChanges(changes: seq<Change>, ghost kept: seq<string>, storageSoFar: seq<char>, indicesSoFar: seq<nat>)
    returns (valueStorage: seq<char>, resultIndices: seq<nat>)
    requires storageSoFar == Pack(kept) && |indicesSoFar| == |kept|
    requires forall k :: 0 <= k < |kept| ==> indicesSoFar[k] == Start(kept, k)
    ensures valueStorage == Pack(kept + Added(changes))
    ensures |resultIndices| == |kept + Added(changes)|
    ensures forall k :: 0 <= k < |resultIndices| ==> resultIndices[k] == Start(kept + Added(changes), k)
  {
    valueStorage, resultIndices := storageSoFar, indicesSoFar;
    ghost var lines := kept;
    NothingAdded(kept, changes);
    hide Pack, Start, Added, Line;
    for i := 0 to |changes|
      invariant lines == kept + Added(changes[..i])
      invariant valueStorage == Pack(lines) && |resultIndices| == |lines|
      invariant forall k :: 0 <= k < |lines| ==> resultIndices[k] == Start(lines, k)
    {
      var c := changes[i];
      AddedNext(kept, changes, i);
      if c.value != "" {
        Extend(lines, Line(c), resultIndices);
        resultIndices := resultIndices + [|valueStorage|];
        valueStorage := PushChange(valueStorage, c);
        lines := lines + [Line(c)];
      }
    }
    assert changes[..|changes|] == changes;
  }

  lemma LaidOut(lines: seq<string>, word: nat, buffer: nat, pointers: seq<Pointer>, storage: seq<char>,
                indices: seq<nat>)
    requires |indices| == |lines| && forall k :: 0 <= k < |lines| ==> indices[k] == Start(lines, k)
    requires |pointers| == |lines| + 1 && pointers[|lines|] == Null
    requires forall k :: 0 <= k < |lines| ==> pointers[k] == To(|pointers| * word + indices[k])
    requires Pack(lines) <= storage && |storage| == buffer * word
    ensures Laid(lines, word, |lines| + 1 + buffer, pointers, storage)
  {
    assert |lines| + 1 + buffer - |pointers| == buffer;
  }

  method AlterEnvironmentPosix(env: seq<seq<char>>, changes: seq<Change>, word: nat)
    returns (count: nat, pointers: array<Pointer>, storage: array<char>)
    requires word > 0
    requires forall e :: e in env ==> Terminated(e, 0)
    requires Ordered(changes)
    ensures fresh(pointers) && fresh(storage)
    ensures Laid(Alter(Lines(env), changes), word, count, pointers[..], storage[..])
    ensures storage.Length < |Pack(Alter(Lines(env), changes))| + word
  {
    var valueStorage, resultIndices := CopyLines(env, changes);
    valueStorage, resultIndices := AppendChanges(changes, Kept(Lines(env), changes), valueStorage, resultIndices);
    count, pointers, storage := Allocate(Alter(Lines(env), changes), valueStorage, resultIndices, word);
  }

  /** One allocation for the pointers and the strings. */
  method Allocate(ghost lines: seq<string>, valueStorage: seq<char>, resultIndices: seq<nat>, word: nat)
    returns (count: nat, pointers: array<Pointer>, storage: array<char>)
    requires word > 0 && valueStorage == Pack(lines) && |resultIndices| == |lines|
    requires forall k :: 0 <= k < |resultIndices| ==> resultIndices[k] == Start(lines, k)
    ensures fresh(pointers) && fresh(storage)
    ensures Laid(lines, word, count, pointers[..], storage[..])
    ensures storage.Length < |Pack(lines)| + word
  {
    hide Pack, Start, Laid;
    var buffer := WordsFor(|valueStorage|, word);
    count := |resultIndices| + 1 + buffer;
    pointers := new Pointer[|resultIndices| + 1];
    storage := new char[buffer * word];
    FillStorage(storage, valueStorage);
    FillPointers(pointers, resultIndices, pointers.Length * word);
    LaidOut(lines, word, buffer, pointers[..], storage[..], resultIndices);
  }

  method FillStorage(storage: array<char>, values: seq<char>)
    requires |values| <= storage.Length
    modifies storage
    ensures values <= storage[..]
  {
    for i := 0 to |values|
      invariant storage[..i] == values[..i]
    {
      storage[i] := values[i];
    }
    assert values == storage[..|values|];
  }

  method FillPointers(pointers: array<Pointer>, indices: seq<nat>, storageData: nat)
    requires pointers.Length == |indices| + 1
    modifies pointers
    ensures forall k :: 0 <= k < |indices| ==> pointers[k] == To(storageData + indices[k])
    ensures pointers[|indices|] == Null
  {
    for i := 0 to |indices|
      invariant forall k :: 0 <= k < i ==> pointers[k] == To(storageData + indices[k])
    {
      pointers[i] := To(storageData + indices[i]);
    }
    pointers[|indices|] := Null;
  }

  /** The strings to which the pointers of a block point, each with the memory that follows it. */
  function Strings(word: nat, pointers: seq<Pointer>, storage: seq<char>): (env: seq<seq<char>>)
    requires pointers != []
    requires forall i :: 0 <= i < |pointers| - 1 ==>
               pointers[i].To? && 0 <= pointers[i].address - |pointers| * word <= |storage|
  {
    seq(|pointers| - 1, i requires 0 <= i < |pointers| - 1 => storage[pointers[i].address - |pointers| * word..])
  }

  lemma {:induction false} SuffixString(m: seq<char>, from: nat, at: nat)
    requires from + at <= |m| && Terminated(m, from + at)
    ensures Terminated(m[from..], at) && CString(m[from..], at) == CString(m, from + at)
    decreases |m| - at
  {
    if m[from + at] != NUL {
      SuffixString(m, from, at + 1);
    }
  }

  lemma PointersInStorage(lines: seq<string>, word: nat, count: nat, pointers: seq<Pointer>, storage: seq<char>, i: nat)
    requires Laid(lines, word, count, pointers, storage) && i < |lines|
    ensures pointers[i].To? && pointers[i].address - |pointers| * word == Start(lines, i) <= |storage|
  {
    PackSplit(lines, i);
  }

  /** The strings of a block, taken as an environment, are the lines that it was laid out for. */
  lemma StringsAreLines(lines: seq<string>, word: nat, count: nat, pointers: seq<Pointer>, storage: seq<char>)
    requires Laid(lines, word, count, pointers, storage) && Clean(lines)
    ensures forall i :: 0 <= i < |pointers| - 1 ==>
              pointers[i].To? && 0 <= pointers[i].address - |pointers| * word <= |storage|
    ensures var env := Strings(word, pointers, storage);
            (forall e :: e in env ==> Terminated(e, 0)) && Lines(env) == lines
  {
    forall i | 0 <= i < |lines|
      ensures pointers[i].To? && pointers[i].address - |pointers| * word == Start(lines, i) <= |storage|
      ensures Terminated(storage[Start(lines, i)..], 0) && CString(storage[Start(lines, i)..], 0) == lines[i]
    {
      PointersInStorage(lines, word, count, pointers, storage, i);
      PackReads(lines, i, storage);
      SuffixString(storage, Start(lines, i), 0);
    }
  }

  /** A second call on the block of the first one lays out the same lines exactly when the changes are
      absorbed. */
  lemma PosixTwice(lines: seq<string>, changes: seq<Change>, word: nat, count: nat,
                   pointers: seq<Pointer>, storage: seq<char>)
    requires Clean(lines) && CleanChanges(changes)
    requires Laid(Alter(lines, changes), word, count, pointers, storage)
    ensures forall i :: 0 <= i < |pointers| - 1 ==>
              pointers[i].To? && 0 <= pointers[i].address - |pointers| * word <= |storage|
    ensures var env := Strings(word, pointers, storage);
            && (forall e :: e in env ==> Terminated(e, 0))
            && (Alter(Lines(env), changes) == Alter(lines, changes) <==> Absorbed(changes, changes))
  {
    AlterClean(lines, changes);
    StringsAreLines(Alter(lines, changes), word, count, pointers, storage);
    AlterTwice(lines, changes);
  }

  // ----- The Windows block -----

  predicate IsBlock(m: seq<char>, at: nat)
    decreases |m| - at
  {
    at < |m| && (m[at] == NUL || (Terminated(m, at) && IsBlock(m, at + |CString(m, at)| + 1)))
  }

  function BlockLines(m: seq<char>, at: nat): seq<string>
    requires IsBlock(m, at)
    decreases |m| - at
  {
    if m[at] == NUL then [] else [CString(m, at)] + BlockLines(m, at + |CString(m, at)| + 1)
  }

  function Block(lines: seq<string>): seq<char> {
    Pack(lines) + (if lines == [] then [NUL, NUL] else [NUL])
  }

  lemma {:induction false} BlockLinesAreClean(m: seq<char>, at: nat)
    requires IsBlock(m, at)
    ensures Clean(BlockLines(m, at)) && "" !in BlockLines(m, at)
    decreases |m| - at
  {
    if m[at] != NUL {
      CStringFits(m, at);
      BlockLinesAreClean(m, at + |CString(m, at)| + 1);
    }
  }

  lemma FirstPacked(m: seq<char>, at: nat, line: string, rest: seq<char>)
    requires var packed := line + [NUL] + rest;
             at + |packed| <= |m| && m[at..at + |packed|] == packed
    ensures m[at..at + |line|] == line && m[at + |line|] == NUL
    ensures var next := at + |line| + 1;
            m[next..next + |rest|] == rest
  {
    var packed := line + [NUL] + rest;
    var n := |line|;
    Cut(m, at, packed, 0, n);
    Cut(m, at, packed, n + 1, |packed|);
    assert packed[0..n] == line && packed[n + 1..|packed|] == rest;
    assert m[at + n] == m[at..at + |packed|][n] == packed[n];
  }

  lemma Cut(m: seq<char>, at: nat, packed: seq<char>, i: nat, j: nat)
    requires at + |packed| <= |m| && m[at..at + |packed|] == packed && i <= j <= |packed|
    ensures m[at + i..at + j] == packed[i..j]
  {
    forall k | i <= k < j ensures m[at + i..at + j][k - i] == packed[k] {
      assert m[at..at + |packed|][k] == m[at + k];
    }
  }

  lemma PackFirst(lines: seq<string>)
    ensures Pack(lines) == if lines == [] then [] else lines[0] + [NUL] + Pack(lines[1..])
  {
  }

  lemma StartsWith(m: seq<char>, at: nat, line: string)
    requires line != "" && NUL !in line && at + |line| <= |m| && m[at..at + |line|] == line
    ensures m[at] != NUL
  {
    assert m[at] == m[at..at + |line|][0] == line[0];
  }

  lemma BlockFirst(m: seq<char>, at: nat, line: string)
    requires Terminated(m, at) && CString(m, at) == line && m[at] != NUL && IsBlock(m, at + |line| + 1)
    ensures IsBlock(m, at) && BlockLines(m, at) == [line] + BlockLines(m, at + |line| + 1)
  {
    hide CString, Terminated;
  }

  lemma {:induction false} BlockAt(m: seq<char>, at: nat, lines: seq<string>)
    requires Clean(lines) && "" !in lines
    requires at + |Pack(lines)| < |m| && m[at..at + |Pack(lines)|] == Pack(lines) && m[at + |Pack(lines)|] == NUL
    ensures IsBlock(m, at) && BlockLines(m, at) == lines
    decreases |lines|
  {
    PackFirst(lines);
    hide Pack, CString, Terminated;
    if lines != [] {
      hide IsBlock, BlockLines;
      var line, rest := lines[0], lines[1..];
      assert line in lines;
      FirstPacked(m, at, line, Pack(rest));
      CStringIs(m, at, line);
      StartsWith(m, at, line);
      BlockAt(m, at + |line| + 1, rest);
      BlockFirst(m, at, line);
      assert lines == [line] + rest;
    }
  }

  /** A block reads back as the lines it was made of, and so two lists of lines never share a block. */
  lemma BlockRoundTrip(lines: seq<string>)
    requires Clean(lines) && "" !in lines
    ensures IsBlock(Block(lines), 0) && BlockLines(Block(lines), 0) == lines
  {
    assert Block(lines)[0..|Pack(lines)|] == Pack(lines);
    BlockAt(Block(lines), 0, lines);
  }

  lemma {:induction false} PackEnds(lines: seq<string>)
    requires lines != []
    ensures Pack(lines) != [] && Pack(lines)[|Pack(lines)| - 1] == NUL
    decreases |lines|
  {
    PackFirst(lines);
    if |lines| > 1 {
      PackEnds(lines[1..]);
    }
  }

  lemma BlockIs(lines: seq<string>)
    ensures Block(lines) == (if Pack(lines) == [] then [NUL] else Pack(lines)) + [NUL]
  {
    PackFirst(lines);
    hide Pack;
    assert lines == [] ==> [] + [NUL, NUL] == [NUL] + [NUL];
  }

  /** Every block, that of no lines too, ends in two nulls. */
  lemma BlockEnds(lines: seq<string>)
    ensures |Block(lines)| >= 2 && Block(lines)[|Block(lines)| - 2..] == [NUL, NUL]
  {
    if lines != [] {
      PackEnds(lines);
      hide Pack;
      assert Block(lines)[|Block(lines)| - 2] == Pack(lines)[|Pack(lines)| - 1];
    }
  }

  lemma {:induction false} PackHasNoEmptyLine(lines: seq<string>, i: nat)
    requires Clean(lines) && "" !in lines && i < |Pack(lines)| - 1
    ensures Pack(lines)[i] != NUL || Pack(lines)[i + 1] != NUL
    decreases |lines|
  {
    PackFirst(lines);
    var line, rest := lines[0], lines[1..];
    assert line in lines && forall k :: 0 <= k < |line| ==> line[k] in line;
    if i > |line| {
      PackHasNoEmptyLine(rest, i - |line| - 1);
    } else if i == |line| {
      PackFirst(rest);
      assert rest[0] in lines && rest[0][0] in rest[0];
    }
  }

  /** Two nulls are next to each other nowhere but at the end, where a reader of the block stops. */
  lemma BlockEndsOnce(lines: seq<string>, i: nat)
    requires Clean(lines) && "" !in lines && i + 2 < |Block(lines)|
    ensures Block(lines)[i] != NUL || Block(lines)[i + 1] != NUL
  {
    if i < |Pack(lines)| - 1 {
      PackHasNoEmptyLine(lines, i);
    }
  }

  method AppendValues(changes: seq<Change>, ghost kept: seq<string>, resultSoFar: seq<char>) returns (result: seq<char>)
    requires resultSoFar == Pack(kept)
    ensures result == Pack(kept + Added(changes))
  {
    result := resultSoFar;
    ghost var lines := kept;
    NothingAdded(kept, changes);
    hide Pack, Added, Line;
    for i := 0 to |changes|
      invariant lines == kept + Added(changes[..i]) && result == Pack(lines)
    {
      var c := changes[i];
      AddedNext(kept, changes, i);
      if c.value != "" {
        PackLast(lines, Line(c));
        result := PushChange(result, c);
        lines := lines + [Line(c)];
      }
    }
    assert changes[..|changes|] == changes;
  }

  lemma PackKeptLast(lines: seq<string>, line: string, changes: seq<Change>)
    ensures var packed := Pack(Kept(lines + [line], changes));
            && (Find(changes, Key(line)).None? ==> packed == Pack(Kept(lines, changes)) + (line + [NUL]))
            && (Find(changes, Key(line)).Some? ==> packed == Pack(Kept(lines, changes)))
  {
    KeptLast(lines, line, changes);
    PackLast(Kept(lines, changes), line);
  }

  method CopyBlock(env: seq<char>, changes: seq<Change>) returns (result: seq<char>)
    requires IsBlock(env, 0)
    ensures result == Pack(Kept(BlockLines(env, 0), changes))
  {
    result := [];
    ghost var seen := [];
    var curEnv := 0;
    while env[curEnv] != NUL
      invariant IsBlock(env, curEnv) && BlockLines(env, 0) == seen + BlockLines(env, curEnv)
      invariant result == Pack(Kept(seen, changes))
      decreases |env| - curEnv
    {
      ghost var line := CString(env, curEnv);
      BlockStep(env, curEnv, seen);
      hide IsBlock, BlockLines, Kept, Pack, CString, Terminated, Key;
      var key, lineLength := ParseEnvLine(env, curEnv);
      PackKeptLast(seen, line, changes);
      seen := seen + [line];
      if Find(changes, key).None? {
        result := result + env[curEnv..curEnv + lineLength];
      }
      curEnv := curEnv + lineLength;
    }
    assert seen == BlockLines(env, 0);
  }

  lemma BlockStep(m: seq<char>, at: nat, seen: seq<string>)
    requires IsBlock(m, at) && m[at] != NUL
    ensures var line := CString(m, at);
            var next := at + |line| + 1;
            IsBlock(m, next) && seen + BlockLines(m, at) == (seen + [line]) + BlockLines(m, next)
  {}

  method AlterEnvironmentWindows(env: seq<char>, changes: seq<Change>) returns (result: seq<char>)
    requires IsBlock(env, 0) && Ordered(changes)
    ensures result == Block(Alter(BlockLines(env, 0), changes))
    ensures |result| >= 2 && result[|result| - 2..] == [NUL, NUL]
  {
    hide Pack, Block, Kept, Added, IsBlock, BlockLines;
    BlockEnds(Alter(BlockLines(env, 0), changes));
    BlockIs(Alter(BlockLines(env, 0), changes));
    result := CopyBlock(env, changes);
    result := AppendValues(changes, Kept(BlockLines(env, 0), changes), result);
    if result == [] {
      result := result + [NUL];
    }
    result := result + [NUL];
  }

  /** The second call with the same changes returns the block of the first call exactly when the
      changes are absorbed. */
  lemma BlockTwice(env: seq<char>, changes: seq<Change>)
    requires IsBlock(env, 0) && CleanChanges(changes)
    ensures var once := Block(Alter(BlockLines(env, 0), changes));
            IsBlock(once, 0) && (Block(Alter(BlockLines(once, 0), changes)) == once <==> Absorbed(changes, changes))
  {
    var lines := BlockLines(env, 0);
    BlockLinesAreClean(env, 0);
    AlterClean(lines, changes);
    BlockRoundTrip(Alter(lines, changes));
    AlterClean(Alter(lines, changes), changes);
    BlockRoundTrip(Alter(Alter(lines, changes), changes));
    AlterTwice(lines, changes);
  }
}
