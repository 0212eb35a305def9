/**
 Windows command lines: the quoting of the service launcher, against the rules
 of "Parsing C command-line arguments" in Microsoft's C language reference.
 Text is a sequence of UTF-16 code units.
 */
module CommandLine {
  import opened Wrappers

  type Unit = n: int | 0 <= n < 0x10000

  const NUL: Unit := 0
  const TAB: Unit := 9
  const SPACE: Unit := 32
  const QUOTE: Unit := 34
  const BACKSLASH: Unit := 92

  function Slashes(n: nat): (s: seq<Unit>)
    ensures |s| == n && forall i :: 0 <= i < n ==> s[i] == BACKSLASH
  {
    seq(n, _ => BACKSLASH)
  }

  predicate IsBlank(c: Unit) {
    c == SPACE || c == TAB
  }

  predicate NeedsQuotes(value: seq<Unit>) {
    value == [] || exists c :: c in value && (IsBlank(c) || c == QUOTE)
  }

  /** The rest of a quoted argument, with `pending` backslashes not yet written. */
  function Escaped(value: seq<Unit>, pending: nat): seq<Unit> {
    if value == [] then Slashes(pending * 2) + [QUOTE]
    else if value[0] == BACKSLASH then Escaped(value[1..], pending + 1)
    else if value[0] == QUOTE then Slashes(pending * 2 + 1) + [QUOTE] + Escaped(value[1..], 0)
    else Slashes(pending) + [value[0]] + Escaped(value[1..], 0)
  }

  function Quoted(value: seq<Unit>): seq<Unit> {
    if NeedsQuotes(value) then [QUOTE] + Escaped(value, 0) else value
  }

  /** Each argument after a space. */
  function Tail(arguments: seq<seq<Unit>>): seq<Unit> {
    if arguments == [] then [] else [SPACE] + Quoted(arguments[0]) + Tail(arguments[1..])
  }

  method AppendQuoted(output: seq<Unit>, value: seq<Unit>) returns (result: Result<seq<Unit>, string>)
    ensures result.Err? <==> 0 in value
    ensures result.Ok? ==> result.value == output + Quoted(value)
  {
    hide Escaped;
    if NUL in value {
      return Err("process argument contains a NUL character");
    }
    if !NeedsQuotes(value) {
      return Ok(output + value);
    }
    var line := AppendEscaped(output + [QUOTE], value);
    assert output + [QUOTE] + Escaped(value, 0) == output + Quoted(value);
    return Ok(line);
  }

  /** The character loop, with its running count of backslashes. */
  method AppendEscaped(output: seq<Unit>, value: seq<Unit>) returns (line: seq<Unit>)
    ensures line == output + Escaped(value, 0)
  {
    line := output;
    var backslashes := 0;
    for i := 0 to |value|
      invariant line + Escaped(value[i..], backslashes) == output + Escaped(value, 0)
    {
      var character := value[i];
      assert value[i..][0] == character && value[i..][1..] == value[i + 1..];
      if character == BACKSLASH {
        backslashes := backslashes + 1;
        continue;
      }
      var run := if character == QUOTE then Slashes(backslashes * 2 + 1) else Slashes(backslashes);
      Appended(line, run, character, Escaped(value[i + 1..], 0));
      line := line + run + [character];
      backslashes := 0;
    }
    assert value[|value|..] == [];
    Appended(line, Slashes(backslashes * 2), QUOTE, []);
    line := line + Slashes(backslashes * 2) + [QUOTE];
  }

  lemma Appended(line: seq<Unit>, run: seq<Unit>, c: Unit, rest: seq<Unit>)
    ensures line + (run + [c] + rest) == line + run + [c] + rest
    ensures rest == [] ==> line + (run + [c]) == line + run + [c]
  {
  }

  method CommandLine(program: seq<Unit>, arguments: seq<seq<Unit>>) returns (result: Result<seq<Unit>, string>)
    ensures result.Err? <==> 0 in program || exists i :: 0 <= i < |arguments| && 0 in arguments[i]
    ensures result.Ok? ==> result.value == Quoted(program) + Tail(arguments) + [0]
    ensures result.Ok? ==> 0 !in Quoted(program) + Tail(arguments)
  {
    var appended := AppendQuoted([], program);
    if appended.Err? {
      return appended;
    }
    var output := appended.value;
    for i := 0 to |arguments|
      invariant forall j :: 0 <= j < i ==> NUL !in arguments[j]
      invariant output + Tail(arguments[i..]) == Quoted(program) + Tail(arguments)
    {
      assert arguments[i..][0] == arguments[i] && arguments[i..][1..] == arguments[i + 1..];
      Regrouped(output, Quoted(arguments[i]), Tail(arguments[i + 1..]));
      appended := AppendQuoted(output + [SPACE], arguments[i]);
      if appended.Err? {
        return appended;
      }
      output := appended.value;
    }
    assert arguments[|arguments|..] == [] && output + Tail([]) == output;
    QuotedNulFree(program);
    TailNulFree(arguments);
    return Ok(output + [NUL]);
  }

  lemma Regrouped(output: seq<Unit>, quoted: seq<Unit>, rest: seq<Unit>)
    ensures output + [SPACE] + quoted + rest == output + ([SPACE] + quoted + rest)
  {
  }

  /** So the terminator is the only NUL, and the C string is the whole line. */
  lemma {:induction false} EscapedNulFree(value: seq<Unit>, pending: nat)
    requires NUL !in value
    ensures NUL !in Escaped(value, pending)
    decreases |value|
  {
    if value != [] {
      assert value[0] in value;
      EscapedNulFree(value[1..], if value[0] == BACKSLASH then pending + 1 else 0);
    }
  }

  lemma QuotedNulFree(value: seq<Unit>)
    requires NUL !in value
    ensures NUL !in Quoted(value)
  {
    EscapedNulFree(value, 0);
  }

  lemma {:induction false} TailNulFree(arguments: seq<seq<Unit>>)
    requires forall i :: 0 <= i < |arguments| ==> NUL !in arguments[i]
    ensures NUL !in Tail(arguments)
  {
    if arguments != [] {
      QuotedNulFree(arguments[0]);
      TailNulFree(arguments[1..]);
    }
  }

  // ---------------------------------------------------------------------
  // The published splitting rules
  // ---------------------------------------------------------------------

  // The codes are those of the published text: 32 and 9 separate, 34 is the double
  // quotation mark, 92 the backslash.

  predicate Separates(c: Unit) {
    c == 32 || c == 9
  }

  function LeadingSlashes(s: seq<Unit>): (n: nat)
    ensures n <= |s| && s[..n] == Slashes(n)
    ensures n < |s| ==> s[n] != 92
  {
    if s == [] || s[0] != 92 then 0 else 1 + LeadingSlashes(s[1..])
  }

  /** Reads one argument: backslash runs, quote delimiters, doubled quotes. */
  function ReadArgument(s: seq<Unit>, quoted: bool, read: seq<Unit>): (r: (seq<Unit>, seq<Unit>))
    ensures |r.1| <= |s|
    decreases |s|
  {
    if s == [] || (!quoted && Separates(s[0])) then (read, s)
    else
      var run := LeadingSlashes(s);
      if run < |s| && s[run] == 34 then
        if run % 2 == 1 then
          ReadArgument(s[run + 1..], quoted, read + Slashes(run / 2) + [34])
        else if quoted && run + 1 < |s| && s[run + 1] == 34 then
          ReadArgument(s[run + 2..], quoted, read + Slashes(run / 2) + [34])
        else
          ReadArgument(s[run + 1..], !quoted, read + Slashes(run / 2))
      else if run > 0 then
        ReadArgument(s[run..], quoted, read + Slashes(run))
      else
        ReadArgument(s[1..], quoted, read + [s[0]])
  }

  function SkipBlanks(s: seq<Unit>): (r: seq<Unit>)
    ensures |r| <= |s|
    ensures r != [] ==> !Separates(r[0])
  {
    if s != [] && Separates(s[0]) then SkipBlanks(s[1..]) else s
  }

  /** A non-blank character starts an argument, so an argument takes at least one. */
  lemma ReadArgumentAdvances(s: seq<Unit>)
    requires s != [] && !Separates(s[0])
    ensures |ReadArgument(s, false, []).1| < |s|
  {
  }

  function SplitArguments(s: seq<Unit>): seq<seq<Unit>>
    decreases |s|
  {
    var start := SkipBlanks(s);
    if start == [] then []
    else
      ReadArgumentAdvances(start);
      var (argument, rest) := ReadArgument(start, false, []);
      [argument] + SplitArguments(rest)
  }

  /** The program name: quotes only group, backslashes are never special. */
  function ReadProgram(s: seq<Unit>, quoted: bool, read: seq<Unit>): (seq<Unit>, seq<Unit>) {
    if s == [] || (!quoted && Separates(s[0])) then (read, s)
    else if s[0] == 34 then ReadProgram(s[1..], !quoted, read)
    else ReadProgram(s[1..], quoted, read + [s[0]])
  }

  function Split(s: seq<Unit>): seq<seq<Unit>> {
    var (program, rest) := ReadProgram(s, false, []);
    [program] + SplitArguments(rest)
  }

  // ---------------------------------------------------------------------
  // Round trips
  // ---------------------------------------------------------------------

  predicate Ends(tail: seq<Unit>) {
    tail == [] || Separates(tail[0])
  }

  lemma {:induction false} LeadingSlashesOf(n: nat, s: seq<Unit>)
    requires s == [] || s[0] != BACKSLASH
    ensures LeadingSlashes(Slashes(n) + s) == n
  {
    if n == 0 {
      assert Slashes(0) + s == s;
    } else {
      assert (Slashes(n) + s)[1..] == Slashes(n - 1) + s;
      LeadingSlashesOf(n - 1, s);
    }
  }

  /** `2n` backslashes and a closing quote. */
  lemma ReadClose(n: nat, tail: seq<Unit>, read: seq<Unit>)
    requires Ends(tail)
    ensures ReadArgument(Slashes(n * 2) + [QUOTE] + tail, true, read) == (read + Slashes(n), tail)
  {
    var s := Slashes(n * 2) + [QUOTE] + tail;
    assert s == Slashes(n * 2) + ([QUOTE] + tail);
    LeadingSlashesOf(n * 2, [QUOTE] + tail);
    assert s[n * 2] == QUOTE && s[n * 2 + 1..] == tail;
    assert tail != [] ==> s[n * 2 + 1] == tail[0];
    assert n * 2 % 2 == 0 && n * 2 / 2 == n;
    assert ReadArgument(s, true, read) == ReadArgument(tail, false, read + Slashes(n));
  }

  /** `2n + 1` backslashes and an escaped quote. */
  lemma ReadEscapedQuote(n: nat, more: seq<Unit>, read: seq<Unit>)
    ensures ReadArgument(Slashes(n * 2 + 1) + [QUOTE] + more, true, read) 
         == ReadArgument(more, true, read + Slashes(n) + [QUOTE])
  {
    var s := Slashes(n * 2 + 1) + [QUOTE] + more;
    assert s == Slashes(n * 2 + 1) + ([QUOTE] + more);
    LeadingSlashesOf(n * 2 + 1, [QUOTE] + more);
    assert s[n * 2 + 2..] == more;
  }

  /** Backslashes before any other character are literal. */
  lemma ReadLiteral(n: nat, c: Unit, more: seq<Unit>, read: seq<Unit>)
    requires c != QUOTE && c != BACKSLASH
    ensures ReadArgument(Slashes(n) + [c] + more, true, read) == ReadArgument(more, true, read + Slashes(n) + [c])
  {
    var s := Slashes(n) + [c] + more;
    assert s == Slashes(n) + ([c] + more);
    LeadingSlashesOf(n, [c] + more);
    assert s[n..] == [c] + more && ([c] + more)[1..] == more;
    assert n == 0 ==> read + Slashes(0) == read;
  }

  /** The escape of one character other than a backslash is read in one piece. */
  lemma EscapedStep(value: seq<Unit>, pending: nat, tail: seq<Unit>, read: seq<Unit>)
    requires value != [] && value[0] != BACKSLASH
    ensures ReadArgument(Escaped(value, pending) + tail, true, read)
         == ReadArgument(Escaped(value[1..], 0) + tail, true, read + Slashes(pending) + [value[0]])
  {
    var c, after := value[0], Escaped(value[1..], 0);
    if c == QUOTE {
      ReadEscapedQuote(pending, after + tail, read);
      var run := Slashes(pending * 2 + 1);
      assert (run + [QUOTE] + after) + tail == run + [QUOTE] + (after + tail);
    } else {
      ReadLiteral(pending, c, after + tail, read);
      var run := Slashes(pending);
      assert (run + [c] + after) + tail == run + [c] + (after + tail);
    }
  }

  lemma Regroup(read: seq<Unit>, pending: nat, value: seq<Unit>)
    requires value != []
    ensures value[0] == BACKSLASH ==> read + Slashes(pending + 1) + value[1..] == read + Slashes(pending) + value
    ensures read + Slashes(pending) + [value[0]] + Slashes(0) + value[1..] == read + Slashes(pending) + value
  {
    assert value == [value[0]] + value[1..];
    assert value[0] == BACKSLASH ==> Slashes(pending + 1) == Slashes(pending) + [value[0]];
  }

  /** Inside quotes, what was escaped is read back, up to the closing quote. */
  lemma {:induction false} EscapedReadsBack(value: seq<Unit>, pending: nat, tail: seq<Unit>, read: seq<Unit>)
    requires Ends(tail)
    ensures ReadArgument(Escaped(value, pending) + tail, true, read) == (read + Slashes(pending) + value, tail)
    decreases |value|
  {
    if value == [] {
      ReadClose(pending, tail, read);
      assert read + Slashes(pending) + value == read + Slashes(pending);
    } else {
      Regroup(read, pending, value);
      if value[0] == BACKSLASH {
        EscapedReadsBack(value[1..], pending + 1, tail, read);
      } else {
        EscapedStep(value, pending, tail, read);
        EscapedReadsBack(value[1..], 0, tail, read + Slashes(pending) + [value[0]]);
      }
    }
  }

  lemma {:induction false} LeadingSlashesWithin(value: seq<Unit>, tail: seq<Unit>)
    requires Ends(tail)
    ensures LeadingSlashes(value + tail) <= |value|
  {
    if value == [] {
      assert value + tail == tail;
    } else {
      assert (value + tail)[1..] == value[1..] + tail;
      LeadingSlashesWithin(value[1..], tail);
    }
  }

  /** A run of backslashes, or one other unit, read as it stands. */
  lemma ReadPlainStep(s: seq<Unit>, read: seq<Unit>, k: nat)
    requires s != [] && !Separates(s[0]) && k == (if LeadingSlashes(s) == 0 then 1 else LeadingSlashes(s))
    requires LeadingSlashes(s) < |s| ==> s[LeadingSlashes(s)] != QUOTE
    ensures ReadArgument(s, false, read) == ReadArgument(s[k..], false, read + s[..k])
  {
    assert s[..1] == [s[0]];
  }

  predicate IsPlain(value: seq<Unit>) {
    forall i | 0 <= i < |value| :: !Separates(value[i]) && value[i] != QUOTE
  }

  lemma PlainParts(value: seq<Unit>, tail: seq<Unit>, read: seq<Unit>, k: nat)
    requires k <= |value| && IsPlain(value)
    ensures (value + tail)[k..] == value[k..] + tail && (value + tail)[..k] == value[..k] && IsPlain(value[k..])
    ensures read + value[..k] + value[k..] == read + value
  {
    assert value == value[..k] + value[k..];
  }

  lemma PlainNext(value: seq<Unit>, tail: seq<Unit>, n: nat)
    requires Ends(tail) && IsPlain(value) && n <= |value| && n < |value + tail|
    ensures (value + tail)[n] != QUOTE
  {
  }

  lemma {:induction false} PlainReadsBack(value: seq<Unit>, tail: seq<Unit>, read: seq<Unit>)
    requires Ends(tail) && IsPlain(value)
    ensures ReadArgument(value + tail, false, read) == (read + value, tail)
    decreases |value|
  {
    var s := value + tail;
    if value == [] {
      assert s == tail && read + value == read;
    } else {
      assert !Separates(s[0]);
      hide ReadArgument, LeadingSlashes, IsPlain, Separates;
      var n := LeadingSlashes(s);
      LeadingSlashesWithin(value, tail);
      var k := if n == 0 then 1 else n;
      if n < |s| { PlainNext(value, tail, n); }
      PlainParts(value, tail, read, k);
      ReadPlainStep(s, read, k);
      PlainReadsBack(value[k..], tail, read + value[..k]);
    }
  }

  lemma ReadOpen(more: seq<Unit>)
    ensures ReadArgument([QUOTE] + more, false, []) == ReadArgument(more, true, [])
  {
    var s := [QUOTE] + more;
    assert s[1..] == more && LeadingSlashes(s) == 0;
    assert [] + Slashes(0) == [];
  }

  /** What stands without quotation marks holds none, nothing that separates, and is not empty. */
  lemma UnquotedIsPlain(value: seq<Unit>)
    ensures NeedsQuotes(value) <==> value == [] || exists i | 0 <= i < |value| :: value[i] in {9, 32, 34}
    ensures !NeedsQuotes(value) ==> value != [] && IsPlain(value)
  {
    forall i | 0 <= i < |value| ensures value[i] in {9, 32, 34} ==> NeedsQuotes(value) {
      assert value[i] in value;
    }
  }

  /** Quotation marks are put around exactly such values that need them, first and last. */
  lemma QuotedWhen(value: seq<Unit>)
    ensures value != [] && (forall i | 0 <= i < |value| :: value[i] !in {9, 32, 34}) ==> Quoted(value) == value
    ensures value == [] || (exists i | 0 <= i < |value| :: value[i] in {9, 32, 34}) ==>
      |Quoted(value)| >= 2 && Quoted(value)[0] == 34 && Quoted(value)[|Quoted(value)| - 1] == 34
  {
    UnquotedIsPlain(value);
    EscapedCloses(value, 0);
  }

  lemma {:induction false} EscapedCloses(value: seq<Unit>, pending: nat)
    ensures var escaped := Escaped(value, pending); escaped != [] && escaped[|escaped| - 1] == 34
    decreases |value|
  {
    if value != [] {
      EscapedCloses(value[1..], if value[0] == BACKSLASH then pending + 1 else 0);
    }
  }

  /** One quoted argument, followed by a blank or the end, reads back as itself. */
  lemma QuotedReadsBack(value: seq<Unit>, tail: seq<Unit>)
    requires Ends(tail)
    ensures ReadArgument(Quoted(value) + tail, false, []) == (value, tail)
    ensures Quoted(value) != [] && !Separates(Quoted(value)[0])
  {
    hide ReadArgument, Escaped;
    if NeedsQuotes(value) {
      ReadOpen(Escaped(value, 0) + tail);
      assert Quoted(value) + tail == [QUOTE] + (Escaped(value, 0) + tail);
      EscapedReadsBack(value, 0, tail, []);
      assert [] + Slashes(0) + value == value;
    } else {
      UnquotedIsPlain(value);
      PlainReadsBack(value, tail, []);
      assert [] + value == value;
    }
  }

  /** Splitting the written arguments returns exactly the list, for every list. */
  lemma {:induction false} ArgumentsRoundTrip(arguments: seq<seq<Unit>>)
    ensures SplitArguments(Tail(arguments)) == arguments
  {
    if arguments != [] {
      var first, rest := arguments[0], arguments[1..];
      var s := Tail(arguments);
      assert s[1..] == Quoted(first) + Tail(rest);
      assert Ends(Tail(rest));
      QuotedReadsBack(first, Tail(rest));
      assert SkipBlanks(s) == s[1..];
      ArgumentsRoundTrip(rest);
      assert arguments == [first] + rest;
    }
  }

  // The program name obeys other rules than it was quoted for.

  /** Checkable before the call: how the program name must look. */
  predicate ProgramSafe(program: seq<Unit>) {
    34 !in program &&
    ((exists i | 0 <= i < |program| :: program[i] in {9, 32}) ==> program[|program| - 1] != 92)
  }

  ghost predicate TrailsBy(value: seq<Unit>, pending: nat, extra: nat) {
    Escaped(value, pending) == Slashes(pending) + value + Slashes(extra) + [QUOTE] &&
    (extra == 0 <==> if value == [] then pending == 0 else value[|value| - 1] != BACKSLASH)
  }

  /** Without quotes in the value, escaping only doubles the trailing backslashes. */
  lemma {:induction false} EscapedWithoutQuote(value: seq<Unit>, pending: nat)
    requires QUOTE !in value
    ensures exists extra: nat :: TrailsBy(value, pending, extra)
    decreases |value|
  {
    if value == [] {
      assert Slashes(pending * 2) + [QUOTE] == Slashes(pending) + value + Slashes(pending) + [QUOTE];
      assert TrailsBy(value, pending, pending);
    } else {
      var c, rest := value[0], value[1..];
      var next := if c == BACKSLASH then pending + 1 else 0;
      EscapedWithoutQuote(rest, next);
      var extra: nat :| TrailsBy(rest, next, extra);
      if c == BACKSLASH {
        assert Slashes(next) + rest == Slashes(pending) + value;
      } else {
        assert Slashes(pending) + [c] + (Slashes(0) + rest + Slashes(extra) + [QUOTE])
            == Slashes(pending) + value + Slashes(extra) + [QUOTE];
      }
      assert TrailsBy(value, pending, extra);
    }
  }

  lemma {:induction false} ReadProgramText(text: seq<Unit>, quoted: bool, tail: seq<Unit>, read: seq<Unit>)
    requires QUOTE !in text
    requires quoted || forall c | c in text :: !Separates(c)
    ensures ReadProgram(text + tail, quoted, read) == ReadProgram(tail, quoted, read + text)
  {
    if text == [] {
      assert text + tail == tail && read + text == read;
    } else {
      assert (text + tail)[1..] == text[1..] + tail && text == [text[0]] + text[1..];
      ReadProgramText(text[1..], quoted, tail, read + [text[0]]);
      assert read + [text[0]] + text[1..] == read + text;
    }
  }

  lemma {:induction false} ReadProgramHasNoQuote(s: seq<Unit>, quoted: bool, read: seq<Unit>)
    requires QUOTE !in read
    ensures QUOTE !in ReadProgram(s, quoted, read).0
  {
    if !(s == [] || (!quoted && Separates(s[0]))) {
      if s[0] == QUOTE {
        ReadProgramHasNoQuote(s[1..], !quoted, read);
      } else {
        ReadProgramHasNoQuote(s[1..], quoted, read + [s[0]]);
      }
    }
  }

  /** A program name without quotes comes back with its trailing run doubled. */
  lemma ProgramReadsBack(program: seq<Unit>, tail: seq<Unit>) returns (extra: nat)
    requires QUOTE !in program && Ends(tail)
    ensures ReadProgram(Quoted(program) + tail, false, []) == (program + Slashes(extra), tail)
    ensures extra == 0 <==> ProgramSafe(program)
  {
    UnquotedIsPlain(program);
    assert forall i | 0 <= i < |program| :: program[i] != 34;
    if NeedsQuotes(program) {
      EscapedWithoutQuote(program, 0);
      extra :| TrailsBy(program, 0, extra);
      QuotedProgramReads(program, extra, tail);
    } else {
      extra := 0;
      ReadProgramText(program, false, tail, []);
      assert [] + program == program && program + Slashes(0) == program;
    }
  }

  lemma QuotedProgramReads(program: seq<Unit>, extra: nat, tail: seq<Unit>)
    requires QUOTE !in program && Ends(tail) && NeedsQuotes(program) && TrailsBy(program, 0, extra)
    ensures ReadProgram(Quoted(program) + tail, false, []) == (program + Slashes(extra), tail)
  {
    var text := program + Slashes(extra);
    assert Slashes(0) + program + Slashes(extra) + [QUOTE] == text + [QUOTE];
    var s := Quoted(program) + tail;
    assert s[0] == QUOTE;
    assert s[1..] == text + ([QUOTE] + tail);
    ReadProgramText(text, true, [QUOTE] + tail, []);
    assert ([QUOTE] + tail)[1..] == tail;
    assert [] + text == text;
  }

  /**
   The launcher's command line splits back into the program and its arguments
   exactly when the program name has no quote and, if it must be quoted, does
   not end in a backslash. Nothing is asked of the arguments.
   */
  lemma CommandLineRoundTrip(program: seq<Unit>, arguments: seq<seq<Unit>>)
    ensures Split(Quoted(program) + Tail(arguments)) == [program] + arguments <==> ProgramSafe(program)
  {
    var s := Quoted(program) + Tail(arguments);
    if QUOTE in program {
      ReadProgramHasNoQuote(s, false, []);
      assert Split(s)[0] != program;
      assert ([program] + arguments)[0] == program;
    } else {
      var extra := ProgramReadsBack(program, Tail(arguments));
      ArgumentsRoundTrip(arguments);
      assert Split(s) == [program + Slashes(extra)] + arguments;
      assert ([program] + arguments)[0] == program;
      assert ([program + Slashes(extra)] + arguments)[0] == program + Slashes(extra);
      assert |program + Slashes(extra)| == |program| + extra;
      assert extra == 0 ==> program + Slashes(extra) == program;
    }
  }

  /** What the launcher passes is a path to its sibling `ah.exe`. */
  const EXECUTABLE: seq<Unit> := [97, 104, 46, 101, 120, 101]

  /**
   So the launcher's own command line, of a path that ends in `ah.exe`, always splits
   back: Windows paths hold no quotes, and such a path ends in no backslash.
   */
  lemma LauncherLineRoundTrip(directory: seq<Unit>, arguments: seq<seq<Unit>>)
    requires QUOTE !in directory
    ensures var program := directory + EXECUTABLE;
      ProgramSafe(program) && Split(Quoted(program) + Tail(arguments)) == [program] + arguments
  {
    var program := directory + EXECUTABLE;
    assert program[|program| - 1] == EXECUTABLE[5];
    assert ProgramSafe(program);
    hide ProgramSafe, Split, Quoted, Tail;
    CommandLineRoundTrip(program, arguments);
  }

  /** The escape of `program` as argv[0] is not an inverse in general: a quote is lost. */
  lemma QuotedProgramIsLost()
    ensures Split(Quoted([QUOTE]) + Tail([])) != [[QUOTE]]
  {
    CommandLineRoundTrip([QUOTE], []);
    assert [QUOTE][0] in [QUOTE];
    assert [[QUOTE]] + [] == [[QUOTE]];
  }

  /** A quoted argument takes at most two units per unit of text and two quotes. */
  lemma {:induction false} EscapedSize(value: seq<Unit>, pending: nat)
    ensures |Escaped(value, pending)| <= 2 * (|value| + pending) + 1
    decreases |value|
  {
    if value != [] {
      EscapedSize(value[1..], if value[0] == BACKSLASH then pending + 1 else 0);
    }
  }

  lemma QuotedSize(value: seq<Unit>)
    ensures |Quoted(value)| <= 2 * |value| + 2
  {
    EscapedSize(value, 0);
  }
}
