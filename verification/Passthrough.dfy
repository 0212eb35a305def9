/**
 The `run check` splitter: which part of the command line belongs to the child
 process, and that nothing there is ever read as an option of the host.
 */
module Passthrough {
  import opened Wrappers
  import opened Numerals
  import opened Argv

  datatype RunCheckLayout = RunCheckLayout(domainIndex: nat, prefixEnd: nat, childStart: nat)

  function RunCheckOptionEnd(args: seq<Token>, index: nat): (r: Option<nat>)
    ensures r.Some? ==> index < r.value <= |args|
  {
    if index >= |args| || args[index].NotUtf8? then None
    else
      var value := args[index].text;
      if value == "--timeout-secs" || value == "--max-output-bytes" || value == "--tail-lines" then
        Some(Least(index + 2, |args|))
      else if "--timeout-secs=" <= value || "--max-output-bytes=" <= value || "--tail-lines=" <= value then
        Some(index + 1)
      else None
  }

  function OptionEnd(args: seq<Token>, index: nat): (r: Option<nat>)
    ensures r.Some? ==> index < r.value <= |args|
  {
    if HostOptionEnd(args, index).Some? then HostOptionEnd(args, index) else RunCheckOptionEnd(args, index)
  }

  predicate Is(args: seq<Token>, index: nat, word: string) {
    index < |args| && args[index] == Text(word)
  }

  /** Where the options of `check` end: before `--`, or before the first other token. */
  function CheckTail(args: seq<Token>, domainIndex: nat, index: nat): Option<RunCheckLayout>
    decreases |args| - index
  {
    if index >= |args| then None
    else if args[index] == Text("--") then Some(RunCheckLayout(domainIndex, index, index + 1))
    else
      match OptionEnd(args, index)
      case None => Some(RunCheckLayout(domainIndex, index, index))
      case Some(next) => CheckTail(args, domainIndex, next)
  }

  function Layout(args: seq<Token>): Option<RunCheckLayout> {
    var domain := SkipHost(args, 1);
    if !Is(args, domain, "run") then None
    else
      var check := SkipHost(args, domain + 1);
      if !Is(args, check, "check") then None else CheckTail(args, domain, check + 1)
  }

  method FindLayout(args: seq<Token>) returns (layout: Option<RunCheckLayout>)
    ensures layout == Layout(args)
  {
    var index := SkipHostOptions(args, 1);
    if index >= |args| || args[index] != Text("run") {
      return None;
    }
    var domainIndex := index;
    index := SkipHostOptions(args, index + 1);
    if index >= |args| || args[index] != Text("check") {
      return None;
    }
    index := index + 1;
    while index < |args|
      invariant CheckTail(args, domainIndex, index) == Layout(args)
      decreases |args| - index
    {
      if args[index] == Text("--") {
        return Some(RunCheckLayout(domainIndex, index, index + 1));
      }
      var next := OptionEnd(args, index);
      if next.None? {
        return Some(RunCheckLayout(domainIndex, index, index));
      }
      index := next.value;
    }
    return None;
  }

  /** How many tokens decide a layout: up to `--`, or up to the first child token. */
  function Decided(layout: RunCheckLayout): nat {
    if layout.prefixEnd < layout.childStart then layout.childStart else layout.childStart + 1
  }

  lemma {:induction false} CheckTailShape(args: seq<Token>, domainIndex: nat, index: nat)
    requires CheckTail(args, domainIndex, index).Some?
    ensures var l := CheckTail(args, domainIndex, index).value;
      l.domainIndex == domainIndex && index <= l.prefixEnd <= l.childStart <= l.prefixEnd + 1 && Decided(l) <= |args|
    decreases |args| - index
  {
    if args[index] != Text("--") && OptionEnd(args, index).Some? {
      CheckTailShape(args, domainIndex, OptionEnd(args, index).value);
    }
  }

  lemma LayoutShape(args: seq<Token>)
    requires Layout(args).Some?
    ensures var l := Layout(args).value;
      l.domainIndex < l.prefixEnd <= l.childStart <= |args| && l.childStart <= l.prefixEnd + 1 && Decided(l) <= |args|
  {
    var domain := SkipHost(args, 1);
    CheckTailShape(args, domain, SkipHost(args, domain + 1) + 1);
  }

  lemma {:induction false} CheckTailLocal(a: seq<Token>, b: seq<Token>, domainIndex: nat, index: nat)
    requires CheckTail(a, domainIndex, index).Some?
    requires SamePrefix(a, b, Decided(CheckTail(a, domainIndex, index).value))
    ensures CheckTail(b, domainIndex, index) == CheckTail(a, domainIndex, index)
    decreases |a| - index
  {
    CheckTailShape(a, domainIndex, index);
    var n := Decided(CheckTail(a, domainIndex, index).value);
    SameToken(a, b, n, index);
    if a[index] != Text("--") && OptionEnd(a, index).Some? {
      CheckTailShape(a, domainIndex, OptionEnd(a, index).value);
      CheckTailLocal(a, b, domainIndex, OptionEnd(a, index).value);
    }
  }

  /**
   Child arguments are opaque: any vector that agrees up to the first child token
   (up to `--` alone, where there is one) has the same layout, whatever follows
   and however long it is.
   */
  lemma LayoutLocal(a: seq<Token>, b: seq<Token>)
    requires Layout(a).Some? && SamePrefix(a, b, Decided(Layout(a).value))
    ensures Layout(b) == Layout(a)
  {
    hide SkipHost, CheckTail;
    LayoutShape(a);
    var n := Decided(Layout(a).value);
    var domain := SkipHost(a, 1);
    var check := SkipHost(a, domain + 1);
    CheckTailShape(a, domain, check + 1);
    SkipHostLocal(a, b, n, 1);
    SameToken(a, b, n, domain);
    SkipHostLocal(a, b, n, domain + 1);
    SameToken(a, b, n, check);
    CheckTailLocal(a, b, domain, check + 1);
  }

  // ---------------------------------------------------------------------
  // The working directory
  // ---------------------------------------------------------------------

  datatype CwdError = MissingValue

  /** The value that a `--cwd=` token carries. */
  function AssignedCwd(arg: Token): Option<Token> {
    if arg.Text? && "--cwd=" <= arg.text then Some(Text(arg.text[6..])) else None
  }

  /** The last `--cwd` before `end`, scanning from `index`. */
  function ScanCwd(args: seq<Token>, index: nat, end: nat, cwd: Option<Token>): Result<Option<Token>, CwdError>
    requires end <= |args|
    decreases end - index
  {
    if index >= end || args[index] == Text("--") then Ok(cwd)
    else if args[index] == Text("--cwd") then
      if index + 1 < end then ScanCwd(args, index + 2, end, Some(args[index + 1])) else Err(MissingValue)
    else
      var given := AssignedCwd(args[index]);
      ScanCwd(args, index + 1, end, if given.Some? then given else cwd)
  }

  function ScanEnd(args: seq<Token>): (end: nat)
    ensures end <= |args|
  {
    if Layout(args).Some? then
      LayoutShape(args);
      Layout(args).value.prefixEnd
    else |args|
  }

  method ExtractLastCwd(args: seq<Token>) returns (result: Result<Option<Token>, CwdError>)
    ensures result == ScanCwd(args, 1, ScanEnd(args), None)
    ensures Layout(args).None? && |args| > 0 ==> Answers(args, 1, |args|, None, result)
  {
    if |args| > 0 { CwdByPositions(args, |args|); }
    var cwd: Option<Token> := None;
    var index := 1;
    var layout := FindLayout(args);
    var end := if layout.Some? then layout.value.prefixEnd else |args|;
    assert end == ScanEnd(args);
    while index < end
      invariant ScanCwd(args, index, end, cwd) == ScanCwd(args, 1, end, None)
      decreases end - index
    {
      var arg := args[index];
      if arg == Text("--") {
        break;
      }
      if arg == Text("--cwd") {
        if index + 1 >= end {
          return Err(MissingValue);
        }
        cwd := Some(args[index + 1]);
        index := index + 2;
        continue;
      }
      if AssignedCwd(arg).Some? {
        cwd := AssignedCwd(arg);
      }
      index := index + 1;
    }
    return Ok(cwd);
  }

  lemma {:induction false} ScanCwdLocal(a: seq<Token>, b: seq<Token>, index: nat, end: nat, cwd: Option<Token>)
    requires SamePrefix(a, b, end)
    ensures ScanCwd(b, index, end, cwd) == ScanCwd(a, index, end, cwd)
    decreases end - index
  {
    if index < end {
      SameToken(a, b, end, index);
      if index + 1 < end { SameToken(a, b, end, index + 1); }
      if a[index] == Text("--cwd") {
        if index + 1 < end { ScanCwdLocal(a, b, index + 2, end, Some(a[index + 1])); }
      } else if a[index] != Text("--") {
        var given := AssignedCwd(a[index]);
        ScanCwdLocal(a, b, index + 1, end, if given.Some? then given else cwd);
      }
    }
  }

  /** Nor does the child's part of the command line change the working directory. */
  lemma CwdLocal(a: seq<Token>, b: seq<Token>)
    requires Layout(a).Some? && SamePrefix(a, b, Decided(Layout(a).value))
    ensures ScanCwd(b, 1, ScanEnd(b), None) == ScanCwd(a, 1, ScanEnd(a), None)
  {
    LayoutLocal(a, b);
    LayoutShape(a);
    var n, end := Decided(Layout(a).value), ScanEnd(a);
    assert a[..end] == a[..n][..end] && b[..end] == b[..n][..end];
    ScanCwdLocal(a, b, 1, end, None);
  }

  // What the scan answers, by positions.

  /** How many words `--cwd` stand in a row before position `i`. */
  function CwdsBefore(args: seq<Token>, i: nat): nat
    requires i <= |args|
  {
    if i <= 1 || args[i - 1] != Text("--cwd") then 0 else CwdsBefore(args, i - 1) + 1
  }

  /** The token there is the value of a `--cwd`: of the words before it, each second one is a value itself. */
  predicate IsValue(args: seq<Token>, i: nat)
    requires i <= |args|
  {
    CwdsBefore(args, i) % 2 == 1
  }

  predicate IsEnd(args: seq<Token>, i: nat)
    requires i < |args|
  {
    args[i] == Text("--") && !IsValue(args, i)
  }

  /** The working directory that the token at `i` gives: a value, or the text of a `--cwd=`. */
  predicate Gives(args: seq<Token>, i: nat, directory: Token)
    requires i < |args|
  {
    if IsValue(args, i) then directory == args[i] else directory.Text? && args[i] == Text("--cwd=" + directory.text)
  }

  ghost predicate GivesNone(args: seq<Token>, i: nat)
    requires i < |args|
  {
    forall directory :: !Gives(args, i, directory)
  }

  /** The first `--` between `from` and `end` that is no value, or `end`. */
  ghost predicate IsStop(args: seq<Token>, from: nat, end: nat, stop: nat)
    requires end <= |args|
  {
    from <= stop <= end && (stop < end ==> IsEnd(args, stop)) && forall i | from <= i < stop :: !IsEnd(args, i)
  }

  /** The last directory given between `from` and `stop`, or else `cwd`. */
  ghost predicate IsLastGiven(args: seq<Token>, from: nat, stop: nat, cwd: Option<Token>, last: Option<Token>)
    requires stop <= |args|
  {
    || (last == cwd && forall i | from <= i < stop :: GivesNone(args, i))
    || (last.Some? && exists i | from <= i < stop ::
          Gives(args, i, last.value) && forall j | i < j < stop :: GivesNone(args, j))
  }

  lemma LastGivenBehind(
    args: seq<Token>, from: nat, next: nat, stop: nat, cwd: Option<Token>, given: Option<Token>, last: Option<Token>)
    requires from <= next <= stop <= |args| && IsLastGiven(args, from, next, cwd, given)
    requires IsLastGiven(args, next, stop, given, last)
    ensures IsLastGiven(args, from, stop, cwd, last)
  {
    hide Gives;
  }

  lemma AssignedGives(args: seq<Token>, i: nat)
    requires i < |args| && !IsValue(args, i)
    ensures match AssignedCwd(args[i])
      case Some(directory) => Gives(args, i, directory)
      case None => GivesNone(args, i)
  {
    hide IsValue;
    if AssignedCwd(args[i]).Some? {
      assert args[i].text == "--cwd=" + args[i].text[6..];
    } else {
      forall directory ensures !Gives(args, i, directory) {
        if directory.Text? { assert "--cwd=" <= "--cwd=" + directory.text; }
      }
    }
  }

  lemma CwdGivesNone(args: seq<Token>, i: nat)
    requires i < |args| && !IsValue(args, i) && args[i] == Text("--cwd")
    ensures GivesNone(args, i)
  {
    hide IsValue;
    assert |"--cwd"| == 5 && |"--cwd="| == 6;
  }

  /** The answer of a scan that ends at `stop`. */
  ghost predicate AnswersAt(
    args: seq<Token>, index: nat, end: nat, stop: nat, cwd: Option<Token>, answer: Result<Option<Token>, CwdError>)
    requires stop <= end <= |args|
  {
    match answer
    case Err(_) => stop == end && IsValue(args, end)
    case Ok(last) => (stop == end ==> !IsValue(args, end)) && IsLastGiven(args, index, stop, cwd, last)
  }

  /** What the scan answers from a position that is no value. */
  ghost predicate Answers(
    args: seq<Token>, index: nat, end: nat, cwd: Option<Token>, answer: Result<Option<Token>, CwdError>)
    requires end <= |args|
  {
    exists stop | IsStop(args, index, end, stop) :: AnswersAt(args, index, end, stop, cwd, answer)
  }

  lemma AnswersHere(args: seq<Token>, index: nat, end: nat, cwd: Option<Token>)
    requires 1 <= index <= end <= |args| && !IsValue(args, index) && (index < end ==> IsEnd(args, index))
    ensures Answers(args, index, end, cwd, Ok(cwd))
  {
    hide IsValue, Gives;
    assert IsStop(args, index, end, index);
  }

  lemma AnswersBehind(
    args: seq<Token>, index: nat, next: nat, end: nat, cwd: Option<Token>, given: Option<Token>,
    answer: Result<Option<Token>, CwdError>)
    requires index < next <= end <= |args| && (forall i | index <= i < next :: !IsEnd(args, i))
    requires IsLastGiven(args, index, next, cwd, given) && Answers(args, next, end, given, answer)
    ensures Answers(args, index, end, cwd, answer)
  {
    hide IsValue, IsLastGiven, IsEnd;
    var stop :| IsStop(args, next, end, stop) && AnswersAt(args, next, end, stop, given, answer);
    assert IsStop(args, index, end, stop);
    if answer.Ok? { LastGivenBehind(args, index, next, stop, cwd, given, answer.value); }
  }

  lemma {:induction false} ScanAnswers(args: seq<Token>, index: nat, end: nat, cwd: Option<Token>)
    requires 1 <= index <= end <= |args| && !IsValue(args, index)
    ensures Answers(args, index, end, cwd, ScanCwd(args, index, end, cwd))
    decreases end - index
  {
    if index == end || args[index] == Text("--") {
      AnswersHere(args, index, end, cwd);
    } else if args[index] == Text("--cwd") {
      CwdStep(args, index);
      hide Gives, Answers, IsValue;
      if index + 1 < end {
        assert IsLastGiven(args, index, index + 2, cwd, Some(args[index + 1])) by {
          assert Gives(args, index + 1, args[index + 1]) by { ValueGives(args, index + 1); }
        }
        ScanAnswers(args, index + 2, end, Some(args[index + 1]));
        AnswersBehind(args, index, index + 2, end, cwd, Some(args[index + 1]), ScanCwd(args, index, end, cwd));
      } else {
        MissingAnswers(args, index, end, cwd);
      }
    } else {
      AssignedGives(args, index);
      hide Gives, Answers;
      var given := AssignedCwd(args[index]);
      var next := if given.Some? then given else cwd;
      assert IsLastGiven(args, index, index + 1, cwd, next);
      ScanAnswers(args, index + 1, end, next);
      AnswersBehind(args, index, index + 1, end, cwd, next, ScanCwd(args, index, end, cwd));
    }
  }

  lemma CwdStep(args: seq<Token>, index: nat)
    requires 1 <= index < |args| && !IsValue(args, index) && args[index] == Text("--cwd")
    ensures IsValue(args, index + 1) && (index + 2 <= |args| ==> !IsValue(args, index + 2))
    ensures !IsEnd(args, index) && (index + 1 < |args| ==> !IsEnd(args, index + 1))
    ensures GivesNone(args, index)
  {
    CwdGivesNone(args, index);
    assert |"--cwd"| == 5 && |"--"| == 2;
  }

  lemma ValueGives(args: seq<Token>, i: nat)
    requires i < |args| && IsValue(args, i)
    ensures Gives(args, i, args[i])
  {
  }

  lemma MissingAnswers(args: seq<Token>, index: nat, end: nat, cwd: Option<Token>)
    requires 1 <= index < end <= |args| && end == index + 1 && IsValue(args, end) && !IsEnd(args, index)
    ensures Answers(args, index, end, cwd, Err(MissingValue))
  {
    hide IsValue;
    assert IsStop(args, index, end, end);
  }

  /**
   The working directory of any command line, up to `end`: the last one given before
   the first `--` that is no value itself, and an error exactly when there is no such
   `--` and a value is due at the end.
   */
  lemma CwdByPositions(args: seq<Token>, end: nat)
    requires 1 <= end <= |args|
    ensures Answers(args, 1, end, None, ScanCwd(args, 1, end, None))
  {
    ScanAnswers(args, 1, end, None);
  }

  lemma GivesOne(args: seq<Token>, i: nat, x: Token, y: Token)
    requires i < |args| && Gives(args, i, x) && Gives(args, i, y)
    ensures x == y
  {
    hide IsValue;
    if !IsValue(args, i) { assert x.text == args[i].text[6..] && y.text == args[i].text[6..]; }
  }

  lemma NoneGiven(args: seq<Token>, stop: nat, last: Option<Token>)
    requires stop <= |args| && IsLastGiven(args, 1, stop, None, last)
    ensures last.None? <==> forall i | 1 <= i < stop :: GivesNone(args, i)
  {
    hide Gives;
    if last.Some? {
      var i :| 1 <= i < stop && Gives(args, i, last.value) && forall j | i < j < stop :: GivesNone(args, j);
      assert !GivesNone(args, i);
    }
  }

  lemma LastGivenUnique(args: seq<Token>, stop: nat, x: Option<Token>, y: Option<Token>)
    requires stop <= |args| && IsLastGiven(args, 1, stop, None, x) && IsLastGiven(args, 1, stop, None, y)
    ensures x == y
  {
    hide Gives;
    NoneGiven(args, stop, x);
    NoneGiven(args, stop, y);
    if x.Some? {
      var i :| 1 <= i < stop && Gives(args, i, x.value) && forall j | i < j < stop :: GivesNone(args, j);
      var j :| 1 <= j < stop && Gives(args, j, y.value) && forall k | j < k < stop :: GivesNone(args, k);
      assert !GivesNone(args, i) && !GivesNone(args, j);
      GivesOne(args, i, x.value, y.value);
    }
  }

  lemma StopUnique(args: seq<Token>, end: nat, i: nat, j: nat)
    requires end <= |args| && IsStop(args, 1, end, i) && IsStop(args, 1, end, j)
    ensures i == j
  {
    hide IsEnd;
    assert i < end ==> IsEnd(args, i);
    assert j < end ==> IsEnd(args, j);
  }

  /** There is one such answer. */
  lemma AnswersUnique(
    args: seq<Token>, end: nat, x: Result<Option<Token>, CwdError>, y: Result<Option<Token>, CwdError>)
    requires 1 <= end <= |args| && Answers(args, 1, end, None, x) && Answers(args, 1, end, None, y)
    ensures x == y
  {
    hide IsValue, IsLastGiven, IsEnd;
    var i :| IsStop(args, 1, end, i) && AnswersAt(args, 1, end, i, None, x);
    var j :| IsStop(args, 1, end, j) && AnswersAt(args, 1, end, j, None, y);
    StopUnique(args, end, i, j);
    if x.Ok? && y.Ok? {
      LastGivenUnique(args, i, x.value, y.value);
    } else if x.Err? && y.Err? {
      assert x.error == MissingValue && y.error == MissingValue;
    }
  }

  // ---------------------------------------------------------------------
  // Preparing and masking
  // ---------------------------------------------------------------------

  datatype ArgumentError = NonUtf8Argument

  function ToStrings(tokens: seq<Token>): Result<seq<string>, ArgumentError> {
    if tokens == [] then Ok([])
    else if tokens[0].NotUtf8? then Err(NonUtf8Argument)
    else
      match ToStrings(tokens[1..])
      case Err(e) => Err(e)
      case Ok(rest) => Ok([tokens[0].text] + rest)
  }

  lemma {:induction false} ToStringsReads(tokens: seq<Token>)
    ensures ToStrings(tokens).Ok? <==> forall i | 0 <= i < |tokens| :: tokens[i].Text?
    ensures ToStrings(tokens).Ok? ==>
      |ToStrings(tokens).value| == |tokens| &&
      forall i | 0 <= i < |tokens| :: tokens[i] == Text(ToStrings(tokens).value[i])
  {
    if tokens != [] {
      var rest := tokens[1..];
      ToStringsReads(rest);
      assert forall i | 0 < i < |tokens| :: tokens[i] == rest[i - 1];
      assert forall i | 0 <= i < |rest| :: rest[i] == tokens[i + 1];
    }
  }

  function Placeholder(offset: nat): Token {
    Text("__ah_opaque_child_arg_" + Decimal(offset) + "__")
  }

  /** The child's tokens replaced by numbered placeholders. */
  function Masked(args: seq<Token>, childStart: nat): (masked: seq<Token>)
    requires childStart <= |args|
    ensures |masked| == |args| && masked[..childStart] == args[..childStart]
    ensures forall i | childStart <= i < |args| :: masked[i] == Placeholder(i - childStart)
  {
    seq(|args|, i requires 0 <= i < |args| => if i < childStart then args[i] else Placeholder(i - childStart))
  }

  /** The placeholders are numbered from zero in decimal. */
  lemma MaskedText(args: seq<Token>, childStart: nat, offset: nat) returns (number: string)
    requires childStart + offset < |args|
    ensures Masked(args, childStart)[childStart + offset] == Text("__ah_opaque_child_arg_" + number + "__")
    ensures Value(number, Dec) == offset && AreDigits(number, 10) && (number[0] == '0' ==> number == "0")
  {
    number := Decimal(offset);
    NumeralReads(offset, Dec);
    hide Digits;
  }

  /** What is handed to the plugin: the prefix, `--`, and the child's own tokens. */
  function PreparedArgv(args: seq<Token>, l: RunCheckLayout): Result<seq<string>, ArgumentError>
    requires l.domainIndex < l.prefixEnd <= l.childStart <= |args|
  {
    match (ToStrings(args[l.domainIndex + 1..l.prefixEnd]), ToStrings(args[l.childStart..]))
    case (Err(e), _) => Err(e)
    case (_, Err(e)) => Err(e)
    case (Ok(prefix), Ok(child)) => Ok(prefix + ["--"] + child)
  }

  /** On success the child's slots are overwritten in place; on failure nothing is. */
  method Prepare(raw: array<Token>) returns (result: Result<Option<seq<string>>, ArgumentError>)
    modifies raw
    ensures Layout(old(raw[..])).None? ==> result == Ok(None) && raw[..] == old(raw[..])
    ensures Layout(old(raw[..])).Some? ==>
      var l := Layout(old(raw[..])).value;
      l.domainIndex < l.prefixEnd <= l.childStart <= raw.Length &&
      match PreparedArgv(old(raw[..]), l)
      case Err(e) => result == Err(e) && raw[..] == old(raw[..])
      case Ok(argv) => result == Ok(Some(argv)) && raw[..] == Masked(old(raw[..]), l.childStart)
  {
    var args := raw[..];
    var layout := FindLayout(args);
    if layout.None? {
      return Ok(None);
    }
    LayoutShape(args);
    var RunCheckLayout(domainIndex, prefixEnd, childStart) := layout.value;
    var prefix := ToStrings(args[domainIndex + 1..prefixEnd]);
    if prefix.Err? {
      return Err(prefix.error);
    }
    var child := ToStrings(args[childStart..]);
    if child.Err? {
      return Err(child.error);
    }
    Mask(raw, childStart);
    return Ok(Some(prefix.value + ["--"] + child.value));
  }

  method Mask(raw: array<Token>, childStart: nat)
    requires childStart <= raw.Length
    modifies raw
    ensures raw[..] == Masked(old(raw[..]), childStart)
  {
    for i := childStart to raw.Length
      invariant forall k | 0 <= k < childStart :: raw[k] == old(raw[k])
      invariant forall k | childStart <= k < i :: raw[k] == Placeholder(k - childStart)
    {
      raw[i] := Placeholder(i - childStart);
    }
  }

  lemma PlaceholderIsNoOption(args: seq<Token>, index: nat, offset: nat)
    requires index < |args| && args[index] == Placeholder(offset)
    ensures args[index] != Text("--") && OptionEnd(args, index).None?
  {
    assert args[index].text[0] == '_';
  }

  lemma {:induction false} CheckTailMasked(args: seq<Token>, domainIndex: nat, index: nat)
    requires CheckTail(args, domainIndex, index).Some?
    ensures CheckTail(args, domainIndex, index).value.childStart <= |args|
    ensures CheckTail(Masked(args, CheckTail(args, domainIndex, index).value.childStart), domainIndex, index)
         == CheckTail(args, domainIndex, index)
    decreases |args| - index
  {
    CheckTailShape(args, domainIndex, index);
    var l := CheckTail(args, domainIndex, index).value;
    var masked := Masked(args, l.childStart);
    if index == l.childStart {
      PlaceholderIsNoOption(masked, index, 0);
    } else {
      SameToken(args, masked, l.childStart, index);
      if args[index] != Text("--") {
        CheckTailMasked(args, domainIndex, OptionEnd(args, index).value);
      }
    }
  }

  /** Masking keeps the layout: what follows reads the masked vector the same way. */
  lemma MaskedKeepsLayout(args: seq<Token>)
    requires Layout(args).Some?
    ensures Layout(args).value.childStart <= |args|
    ensures Layout(Masked(args, Layout(args).value.childStart)) == Layout(args)
  {
    hide SkipHost, CheckTail, Masked;
    LayoutShape(args);
    var l := Layout(args).value;
    var masked := Masked(args, l.childStart);
    var domain := SkipHost(args, 1);
    var check := SkipHost(args, domain + 1);
    CheckTailShape(args, domain, check + 1);
    SkipHostLocal(args, masked, l.childStart, 1);
    SameToken(args, masked, l.childStart, domain);
    SkipHostLocal(args, masked, l.childStart, domain + 1);
    SameToken(args, masked, l.childStart, check);
    CheckTailMasked(args, domain, check + 1);
  }

  /** The same command line with its split written out. */
  function Normalised(args: seq<Token>, l: RunCheckLayout): seq<Token>
    requires l.prefixEnd <= l.childStart <= |args|
  {
    args[..l.prefixEnd] + [Text("--")] + args[l.childStart..]
  }

  /** An option that ends inside the common prefix ends there in both. */
  lemma OptionEndLocal(a: seq<Token>, b: seq<Token>, n: nat, index: nat)
    requires SamePrefix(a, b, n) && index < n
    requires OptionEnd(a, index).Some? && OptionEnd(a, index).value < |a| && OptionEnd(a, index).value <= n
    ensures OptionEnd(b, index) == OptionEnd(a, index)
  {
    SameToken(a, b, n, index);
  }

  lemma {:induction false} CheckTailNormalised(args: seq<Token>, normal: seq<Token>, domainIndex: nat, index: nat)
    requires CheckTail(args, domainIndex, index).Some?
    requires var l := CheckTail(args, domainIndex, index).value;
      SamePrefix(args, normal, l.prefixEnd) && Is(normal, l.prefixEnd, "--")
    ensures var l := CheckTail(args, domainIndex, index).value;
      CheckTail(normal, domainIndex, index) == Some(RunCheckLayout(domainIndex, l.prefixEnd, l.prefixEnd + 1))
    decreases |args| - index
  {
    hide OptionEnd;
    CheckTailShape(args, domainIndex, index);
    var l := CheckTail(args, domainIndex, index).value;
    if index < l.prefixEnd {
      SameToken(args, normal, l.prefixEnd, index);
      var next := OptionEnd(args, index).value;
      CheckTailShape(args, domainIndex, next);
      OptionEndLocal(args, normal, l.prefixEnd, index);
      CheckTailNormalised(args, normal, domainIndex, next);
    }
  }

  /**
   Writing `--` between the prefix and the child, as the prepared vector does,
   splits where the original did: same prefix, same child.
   */
  lemma NormalisedKeepsSplit(args: seq<Token>)
    requires Layout(args).Some?
    ensures var l := Layout(args).value;
      l.prefixEnd <= l.childStart <= |args| &&
      Layout(Normalised(args, l)) == Some(RunCheckLayout(l.domainIndex, l.prefixEnd, l.prefixEnd + 1)) &&
      Normalised(args, l)[l.prefixEnd + 1..] == args[l.childStart..]
  {
    hide SkipHost, CheckTail;
    LayoutShape(args);
    var l := Layout(args).value;
    var normal := Normalised(args, l);
    assert normal[..l.prefixEnd] == args[..l.prefixEnd];
    var domain := SkipHost(args, 1);
    var check := SkipHost(args, domain + 1);
    CheckTailShape(args, domain, check + 1);
    SkipHostLocal(args, normal, l.prefixEnd, 1);
    SameToken(args, normal, l.prefixEnd, domain);
    SkipHostLocal(args, normal, l.prefixEnd, domain + 1);
    SameToken(args, normal, l.prefixEnd, check);
    CheckTailNormalised(args, normal, domain, check + 1);
  }

  /** The prepared strings are the tokens of the written-out line behind the domain. */
  lemma PreparedIsNormalised(args: seq<Token>)
    requires Layout(args).Some?
    ensures var l := Layout(args).value;
      l.domainIndex < l.prefixEnd <= l.childStart <= |args| &&
      (PreparedArgv(args, l).Ok? ==>
        var argv := PreparedArgv(args, l).value;
        var tail := Normalised(args, l)[l.domainIndex + 1..];
        |argv| == |tail| && forall i | 0 <= i < |tail| :: tail[i] == Text(argv[i]))
  {
    LayoutShape(args);
    var l := Layout(args).value;
    var prefix, child := args[l.domainIndex + 1..l.prefixEnd], args[l.childStart..];
    ToStringsReads(prefix);
    ToStringsReads(child);
    assert Normalised(args, l)[l.domainIndex + 1..] == prefix + [Text("--")] + child;
  }
}
