/**
 The redaction of `secrets add` and `secrets edit` command lines before they are
 logged: a walk with four flags that overwrites what may carry a secret.
 */
module Redact {
  import opened Wrappers
  import opened Argv

  const REDACTED := "[REDACTED]"

  /** The index of `add` or `edit`, for a `secrets` command that has one. */
  function ActionIndex(args: seq<Token>): (r: Option<nat>)
    ensures r.Some? ==> r.value < |args| && (args[r.value] == Text("add") || args[r.value] == Text("edit"))
  {
    var command := SkipHost(args, 1);
    if command >= |args| || args[command] != Text("secrets") then None
    else
      var action := SkipHost(args, command + 1);
      if action < |args| && (args[action] == Text("add") || args[action] == Text("edit")) then Some(action) else None
  }

  datatype Flags = Flags(idSeen: bool, preserveNext: bool, redactNext: bool, positionalOnly: bool)

  const START := Flags(false, false, false, false)

  function TrimDashes(s: string): (r: string)
    ensures |r| <= |s|
    ensures r != [] ==> r[0] != '-'
  {
    if s != [] && s[0] == '-' then TrimDashes(s[1..]) else s
  }

  /** The option's name, and whether a value is assigned in the same token. */
  function NameOf(body: string): (r: (string, bool))
    ensures '=' !in r.0 && r.0 <= body
    ensures r.1 ==> |r.0| < |body| && body[|r.0|] == '='
    ensures !r.1 ==> r.0 == body
  {
    if body == [] then ([], false)
    else if body[0] == '=' then ([], true)
    else
      var (name, given) := NameOf(body[1..]);
      assert body == [body[0]] + body[1..];
      ([body[0]] + name, given)
  }

  predicate TakesValue(add: bool, name: string) {
    name == "label" || name == "description" || name == "cwd" || name == "limit" || (add && name == "kind")
  }

  predicate IsSwitch(name: string) {
    name == "open" || name == "json" || name == "quiet" || name == "help"
  }

  function Assignment(name: string): Token {
    Text("--" + name + "=" + REDACTED)
  }

  predicate IsOption(token: Token) {
    token.Lossy() != [] && token.Lossy()[0] == '-'
  }

  /** An option in option position. */
  function OptionStep(token: Token, add: bool, flags: Flags): (Token, Flags) {
    var (name, given) := NameOf(TrimDashes(token.Lossy()));
    if TakesValue(add, name) then (token, flags.(preserveNext := !given))
    else if given then (Assignment(name), flags)
    else if IsSwitch(name) then (token, flags)
    else (token, flags.(redactNext := true))
  }

  /** What one token becomes, and the flags for the next. */
  function Step(token: Token, add: bool, flags: Flags): (Token, Flags) {
    if flags.preserveNext then (token, flags.(preserveNext := false))
    else if flags.redactNext then (Text(REDACTED), flags.(redactNext := false))
    else if !flags.positionalOnly && token.Lossy() == "--" then (token, flags.(positionalOnly := true))
    else if !flags.positionalOnly && IsOption(token) then OptionStep(token, add, flags)
    else if flags.idSeen then (Text(REDACTED), flags)
    else (token, flags.(idSeen := true))
  }

  function Walk(tokens: seq<Token>, add: bool, flags: Flags): (walked: seq<Token>)
    ensures |walked| == |tokens|
  {
    if tokens == [] then []
    else
      var (token, flags') := Step(tokens[0], add, flags);
      [token] + Walk(tokens[1..], add, flags')
  }

  function Redacted(args: seq<Token>): seq<Token> {
    match ActionIndex(args)
    case None => args
    case Some(action) => args[..action + 1] + Walk(args[action + 1..], args[action] == Text("add"), START)
  }

  method SecretActionIndex(args: seq<Token>) returns (action: Option<nat>)
    ensures action == ActionIndex(args)
  {
    var index := SkipHostOptions(args, 1);
    if index >= |args| || args[index] != Text("secrets") {
      return None;
    }
    index := SkipHostOptions(args, index + 1);
    if index < |args| && (args[index] == Text("add") || args[index] == Text("edit")) {
      return Some(index);
    }
    return None;
  }

  /** The loop body: one argument and the four flags. */
  method RedactArgument(token: Token, add: bool, flags: Flags) returns (replacement: Token, next: Flags)
    ensures (replacement, next) == Step(token, add, flags)
  {
    replacement, next := token, flags;
    var value := token.Lossy();
    if flags.preserveNext {
      next := flags.(preserveNext := false);
    } else if flags.redactNext {
      replacement, next := Text(REDACTED), flags.(redactNext := false);
    } else if !flags.positionalOnly && value == "--" {
      next := flags.(positionalOnly := true);
    } else if !flags.positionalOnly && value != [] && value[0] == '-' {
      var (name, given) := NameOf(TrimDashes(value));
      if TakesValue(add, name) {
        next := flags.(preserveNext := !given);
      } else if given {
        replacement := Assignment(name);
      } else if !IsSwitch(name) {
        next := flags.(redactNext := true);
      }
    } else if flags.idSeen {
      replacement := Text(REDACTED);
    } else {
      next := flags.(idSeen := true);
    }
  }

  /** The loop over the copied arguments, rewriting them in place. */
  method RedactSecretCommand(args: seq<Token>) returns (sanitized: seq<Token>)
    ensures sanitized == Redacted(args)
    ensures |sanitized| == |args| && (ActionIndex(args).None? ==> sanitized == args)
  {
    sanitized := args;
    var action := SecretActionIndex(args);
    if action.None? {
      return;
    }
    var add := args[action.value] == Text("add");
    var flags := START;
    var first := action.value + 1;
    hide *;
    ProgressStarts(args);
    for i := first to |args|
      invariant Progress(args, sanitized, i, add, flags)
    {
      ProgressStep(args, sanitized, i, add, flags);
      var replacement, next := RedactArgument(sanitized[i], add, flags);
      sanitized := sanitized[i := replacement];
      flags := next;
    }
    ProgressEnds(args, sanitized, add, flags);
  }

  /** The arguments before `i` are rewritten, the others are still to be walked. */
  ghost predicate Progress(args: seq<Token>, sanitized: seq<Token>, i: nat, add: bool, flags: Flags) {
    i <= |args| == |sanitized| && sanitized[i..] == args[i..] &&
    sanitized[..i] + Walk(args[i..], add, flags) == Redacted(args)
  }

  lemma ProgressStarts(args: seq<Token>)
    requires ActionIndex(args).Some?
    ensures var action := ActionIndex(args).value;
      Progress(args, args, action + 1, args[action] == Text("add"), START)
  {
  }

  lemma ProgressStep(args: seq<Token>, sanitized: seq<Token>, i: nat, add: bool, flags: Flags)
    requires i < |args| && Progress(args, sanitized, i, add, flags)
    ensures |sanitized| == |args| && sanitized[i] == args[i]
    ensures var (token, next) := Step(args[i], add, flags);
      Progress(args, sanitized[i := token], i + 1, add, next)
  {
    hide Step, Redacted;
    var (token, next) := Step(args[i], add, flags);
    assert sanitized[i] == sanitized[i..][0] == args[i..][0] == args[i];
    assert args[i..][1..] == args[i + 1..] && sanitized[i..][1..] == sanitized[i + 1..];
    assert Walk(args[i..], add, flags) == [token] + Walk(args[i + 1..], add, next);
    assert sanitized[i := token][..i + 1] == sanitized[..i] + [token];
  }

  lemma ProgressEnds(args: seq<Token>, sanitized: seq<Token>, add: bool, flags: Flags)
    requires Progress(args, sanitized, |args|, add, flags)
    ensures sanitized == Redacted(args)
  {
    assert sanitized[..|args|] == sanitized && args[|args|..] == [];
  }

  // ---------------------------------------------------------------------
  // Properties
  // ---------------------------------------------------------------------

  /** The length, and everything up to and including the action, are kept. */
  lemma RedactionKeepsPrefix(args: seq<Token>)
    ensures |Redacted(args)| == |args|
    ensures ActionIndex(args).Some? ==>
      Redacted(args)[..ActionIndex(args).value + 1] == args[..ActionIndex(args).value + 1]
  {
  }

  /** The action is found from what precedes it. */
  lemma ActionIndexLocal(a: seq<Token>, b: seq<Token>)
    requires ActionIndex(a).Some? && SamePrefix(a, b, ActionIndex(a).value + 1)
    ensures ActionIndex(b) == ActionIndex(a)
  {
    hide SkipHost;
    var command := SkipHost(a, 1);
    var action := SkipHost(a, command + 1);
    SkipHostLocal(a, b, action + 1, 1);
    SameToken(a, b, action + 1, command);
    SkipHostLocal(a, b, action + 1, command + 1);
    SameToken(a, b, action + 1, action);
  }

  lemma DashesTrimmed(body: string)
    requires body != [] && body[0] != '-'
    ensures TrimDashes("--" + body) == body
  {
    var text := "--" + body;
    assert text[0] == '-' && text[1..][0] == '-' && text[1..][1..] == body;
    assert TrimDashes(text[1..]) == TrimDashes(body);
  }

  lemma TrimmedAssignment(name: string, value: string)
    requires '=' !in name && (name != [] ==> name[0] != '-')
    ensures NameOf(TrimDashes("--" + name + "=" + value)) == (name, true)
  {
    hide TrimDashes, NameOf;
    var body := name + "=" + value;
    assert "--" + name + "=" + value == "--" + body;
    DashesTrimmed(body);
    NameBeforeEquals(name, value);
  }

  lemma {:induction false} NameBeforeEquals(name: string, value: string)
    requires '=' !in name
    ensures NameOf(name + "=" + value) == (name, true)
  {
    if name != [] {
      assert (name + "=" + value)[1..] == name[1..] + "=" + value;
      NameBeforeEquals(name[1..], value);
      assert name == [name[0]] + name[1..];
    }
  }

  /** What a token became is left as it is, with the same flags after it. */
  lemma StepIdempotent(token: Token, add: bool, flags: Flags)
    ensures Step(Step(token, add, flags).0, add, flags) == Step(token, add, flags)
  {
    hide NameOf, TrimDashes;
    assert REDACTED[0] == '[';
    if OptionPosition(flags) && AssignsUnknown(token, add) {
      AssignmentReads(NameOf(TrimDashes(token.Lossy())).0, add);
    }
  }

  lemma {:induction false} WalkIdempotent(tokens: seq<Token>, add: bool, flags: Flags)
    ensures Walk(Walk(tokens, add, flags), add, flags) == Walk(tokens, add, flags)
  {
    if tokens != [] {
      var (token, flags') := Step(tokens[0], add, flags);
      StepIdempotent(tokens[0], add, flags);
      WalkIdempotent(tokens[1..], add, flags');
      var walked := Walk(tokens, add, flags);
      assert walked[0] == token && walked[1..] == Walk(tokens[1..], add, flags');
    }
  }

  /** Redacting twice, as logging and parsing do, is redacting once. */
  lemma RedactionIdempotent(args: seq<Token>)
    ensures Redacted(Redacted(args)) == Redacted(args)
  {
    if ActionIndex(args).Some? {
      var action := ActionIndex(args).value;
      var once := Redacted(args);
      RedactionKeepsPrefix(args);
      ActionIndexLocal(args, once);
      SameToken(args, once, action + 1, action);
      var add := args[action] == Text("add");
      assert once[action + 1..] == Walk(args[action + 1..], add, START);
      WalkIdempotent(args[action + 1..], add, START);
    }
  }

  /** The flags in front of token `n`. */
  function FlagsAt(tokens: seq<Token>, add: bool, flags: Flags, n: nat): Flags
    requires n <= |tokens|
  {
    if n == 0 then flags else FlagsAt(tokens[1..], add, Step(tokens[0], add, flags).1, n - 1)
  }

  /** Tokens on which one step agrees are interchangeable in the whole walk. */
  lemma {:induction false} WalkReplaces(tokens: seq<Token>, add: bool, flags: Flags, n: nat, token: Token)
    requires n < |tokens|
    requires Step(token, add, FlagsAt(tokens, add, flags, n)) == Step(tokens[n], add, FlagsAt(tokens, add, flags, n))
    ensures Walk(tokens[n := token], add, flags) == Walk(tokens, add, flags)
    decreases n
  {
    if n == 0 {
      assert tokens[n := token][1..] == tokens[1..];
    } else {
      assert tokens[n := token][1..] == tokens[1..][n - 1 := token];
      WalkReplaces(tokens[1..], add, Step(tokens[0], add, flags).1, n - 1, token);
    }
  }

  /** How the walk stands when it reaches argument `n` behind the action. */
  function FlagsBefore(args: seq<Token>, n: nat): Flags
    requires ActionIndex(args).Some? && ActionIndex(args).value < n <= |args|
  {
    var action := ActionIndex(args).value;
    FlagsAt(args[action + 1..], args[action] == Text("add"), START, n - action - 1)
  }

  predicate IsAdd(args: seq<Token>)
    requires ActionIndex(args).Some?
  {
    args[ActionIndex(args).value] == Text("add")
  }

  lemma RedactionReplaces(args: seq<Token>, n: nat, token: Token)
    requires ActionIndex(args).Some? && ActionIndex(args).value < n < |args|
    requires Step(token, IsAdd(args), FlagsBefore(args, n)) == Step(args[n], IsAdd(args), FlagsBefore(args, n))
    ensures Redacted(args[n := token]) == Redacted(args)
  {
    hide Step, Walk, FlagsAt, ActionIndex;
    var action := ActionIndex(args).value;
    var other := args[n := token];
    assert other[..action + 1] == args[..action + 1];
    ActionIndexLocal(args, other);
    SameToken(args, other, action + 1, action);
    var k := n - action - 1;
    assert other[action + 1..] == args[action + 1..][k := token];
    WalkReplaces(args[action + 1..], IsAdd(args), START, k, token);
  }

  lemma {:induction false} FlagsAtNext(tokens: seq<Token>, add: bool, flags: Flags, n: nat)
    requires n < |tokens|
    ensures FlagsAt(tokens, add, flags, n + 1) == Step(tokens[n], add, FlagsAt(tokens, add, flags, n)).1
    decreases n
  {
    if n > 0 { FlagsAtNext(tokens[1..], add, Step(tokens[0], add, flags).1, n - 1); }
  }

  predicate OptionPosition(flags: Flags) {
    !flags.preserveNext && !flags.redactNext && !flags.positionalOnly
  }

  /** An option that is not known to be harmless, without a value of its own. */
  predicate UnknownUnassigned(token: Token, add: bool) {
    var (name, given) := NameOf(TrimDashes(token.Lossy()));
    IsOption(token) && token.Lossy() != "--" && !given && !TakesValue(add, name) && !IsSwitch(name)
  }

  /**
   The token after an unknown option never shows: the output is the same whatever
   stands there, even a token that looks like an option itself.
   */
  lemma FollowerIsHidden(args: seq<Token>, n: nat, token: Token)
    requires ActionIndex(args).Some? && ActionIndex(args).value < n && n + 1 < |args|
    requires OptionPosition(FlagsBefore(args, n)) && UnknownUnassigned(args[n], IsAdd(args))
    ensures Redacted(args[n + 1 := token]) == Redacted(args)
    ensures Redacted(args)[n + 1] == Text(REDACTED)
  {
    hide Walk, FlagsAt, ActionIndex, Step, OptionPosition, UnknownUnassigned;
    var action, flags := ActionIndex(args).value, FlagsBefore(args, n);
    FlagsAtNext(args[action + 1..], IsAdd(args), START, n - action - 1);
    UnknownHidesNext(args[n], IsAdd(args), flags);
    var next := FlagsBefore(args, n + 1);
    NextIsHidden(args[n + 1], token, IsAdd(args), next);
    RedactionReplaces(args, n + 1, token);
    WalkAt(args[action + 1..], IsAdd(args), START, n - action);
  }

  lemma UnknownHidesNext(token: Token, add: bool, flags: Flags)
    requires OptionPosition(flags) && UnknownUnassigned(token, add)
    ensures var next := Step(token, add, flags).1; next.redactNext && !next.preserveNext
  {
    hide NameOf, TrimDashes, TakesValue, IsSwitch;
  }

  lemma NextIsHidden(x: Token, y: Token, add: bool, flags: Flags)
    requires flags.redactNext && !flags.preserveNext
    ensures Step(x, add, flags) == Step(y, add, flags) && Step(x, add, flags).0 == Text(REDACTED)
  {
    hide OptionStep;
  }

  lemma {:induction false} WalkAt(tokens: seq<Token>, add: bool, flags: Flags, n: nat)
    requires n < |tokens|
    ensures Walk(tokens, add, flags)[n] == Step(tokens[n], add, FlagsAt(tokens, add, flags, n)).0
    decreases n
  {
    if n > 0 { WalkAt(tokens[1..], add, Step(tokens[0], add, flags).1, n - 1); }
  }

  // What the log shows, exactly.

  predicate AssignsUnknown(token: Token, add: bool) {
    var (name, given) := NameOf(TrimDashes(token.Lossy()));
    IsOption(token) && token.Lossy() != "--" && given && !TakesValue(add, name)
  }

  predicate Positional(token: Token, flags: Flags) {
    flags.positionalOnly || !IsOption(token)
  }

  /** The two tokens differ at most in what the redactor hides at this point. */
  predicate Alike(x: Token, y: Token, add: bool, flags: Flags) {
    || x == y
    || (!flags.preserveNext && flags.redactNext)
    || (!flags.preserveNext && flags.idSeen && Positional(x, flags) && Positional(y, flags))
    || (OptionPosition(flags) && AssignsUnknown(x, add) && AssignsUnknown(y, add) &&
        NameOf(TrimDashes(x.Lossy())) == NameOf(TrimDashes(y.Lossy())))
  }

  lemma AlikeSteps(x: Token, y: Token, add: bool, flags: Flags)
    requires Alike(x, y, add, flags)
    ensures Step(x, add, flags) == Step(y, add, flags)
  {
    assert "--"[0] == '-';
  }

  lemma AssignmentReads(name: string, add: bool)
    requires '=' !in name && (name != [] ==> name[0] != '-') && !TakesValue(add, name)
    ensures AssignsUnknown(Assignment(name), add)
    ensures NameOf(TrimDashes(Assignment(name).Lossy())) == (name, true)
    ensures Assignment(name) != Text(REDACTED)
  {
    hide NameOf, TrimDashes;
    TrimmedAssignment(name, REDACTED);
    assert Assignment(name).text[0] == '-' && |Assignment(name).text| > 2;
    assert REDACTED[0] == '[';
  }

  lemma AssignmentInjective(name: string, other: string)
    requires Assignment(name) == Assignment(other)
    ensures name == other
  {
    var text, text' := Assignment(name).text, Assignment(other).text;
    assert |name| == |other|;
    assert name == text[2..2 + |name|] && other == text'[2..2 + |other|];
  }

  lemma AssignmentShows(x: Token, y: Token, add: bool, flags: Flags)
    requires OptionPosition(flags) && AssignsUnknown(x, add)
    requires Step(x, add, flags).0 == Step(y, add, flags).0
    ensures Alike(x, y, add, flags)
  {
    hide NameOf, TrimDashes;
    var name := NameOf(TrimDashes(x.Lossy())).0;
    AssignmentReads(name, add);
    if AssignsUnknown(y, add) {
      AssignmentInjective(name, NameOf(TrimDashes(y.Lossy())).0);
    }
  }

  lemma ShownStepsAreAlike(x: Token, y: Token, add: bool, flags: Flags)
    requires Step(x, add, flags).0 == Step(y, add, flags).0
    ensures Alike(x, y, add, flags)
  {
    hide NameOf, TrimDashes;
    assert REDACTED[0] == '[';
    if OptionPosition(flags) && AssignsUnknown(x, add) {
      AssignmentShows(x, y, add, flags);
    } else if OptionPosition(flags) && AssignsUnknown(y, add) {
      AssignmentShows(y, x, add, flags);
    }
  }

  predicate AlikeAll(a: seq<Token>, b: seq<Token>, add: bool, flags: Flags) {
    |a| == |b| &&
    (a != [] ==>
      Alike(a[0], b[0], add, flags) && AlikeAll(a[1..], b[1..], add, Step(a[0], add, flags).1))
  }

  lemma {:induction false} WalkShows(a: seq<Token>, b: seq<Token>, add: bool, flags: Flags)
    ensures Walk(a, add, flags) == Walk(b, add, flags) <==> AlikeAll(a, b, add, flags)
  {
    if a != [] && |a| == |b| {
      hide Step, Alike;
      var walked, walked' := Walk(a, add, flags), Walk(b, add, flags);
      var next := Step(a[0], add, flags).1;
      assert walked[0] == Step(a[0], add, flags).0 && walked'[0] == Step(b[0], add, flags).0;
      if walked[0] == walked'[0] {
        ShownStepsAreAlike(a[0], b[0], add, flags);
      }
      if Alike(a[0], b[0], add, flags) {
        AlikeSteps(a[0], b[0], add, flags);
        WalkShows(a[1..], b[1..], add, next);
        assert walked[1..] == Walk(a[1..], add, next) && walked'[1..] == Walk(b[1..], add, next);
        assert walked == [walked[0]] + walked[1..] && walked' == [walked'[0]] + walked'[1..];
      }
    }
  }

  /** Redacting keeps the action where it is. */
  lemma RedactedActionIndex(args: seq<Token>)
    ensures ActionIndex(Redacted(args)) == ActionIndex(args)
  {
    if ActionIndex(args).Some? {
      RedactionKeepsPrefix(args);
      ActionIndexLocal(args, Redacted(args));
    }
  }

  /**
   Two command lines give the same log line exactly when they agree up to the
   action and, behind it, differ only where the redactor hides: after an unknown
   option, in arguments behind the identifier, in values assigned to unknown options.
   */
  lemma LogShowsExactly(a: seq<Token>, b: seq<Token>)
    requires ActionIndex(a).Some?
    ensures var n := ActionIndex(a).value + 1;
      Redacted(a) == Redacted(b) <==>
      SamePrefix(a, b, n) && AlikeAll(a[n..], b[n..], IsAdd(a), START)
  {
    hide Step, Walk, ActionIndex, AlikeAll;
    var n := ActionIndex(a).value + 1;
    RedactionKeepsPrefix(a);
    RedactionKeepsPrefix(b);
    if Redacted(a) == Redacted(b) {
      RedactedActionIndex(a);
      RedactedActionIndex(b);
      assert SamePrefix(a, b, n);
    }
    if SamePrefix(a, b, n) {
      ActionIndexLocal(a, b);
      SameToken(a, b, n, n - 1);
      WalkShows(a[n..], b[n..], IsAdd(a), START);
      assert Redacted(a)[n..] == Walk(a[n..], IsAdd(a), START);
      assert Redacted(b)[n..] == Walk(b[n..], IsAdd(a), START);
    }
  }
}
