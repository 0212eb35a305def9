/**
 `secrets add` and `secrets edit` command lines by their parts, and the line the
 redactor makes of them: the same parts with the values that may be secret hidden.
 Every command line with such an action is put together from these parts.
 */
module RedactGrammar {
  import opened Wrappers
  import opened Argv
  import opened Redact
  import opened RunCheckGrammar

  const PUBLIC_VALUES := {"label", "description", "cwd", "limit"}
  const SWITCHES := {"open", "json", "quiet", "help"}

  /** How an option is spelled: any number of dashes, a name, and its bytes if they are not UTF-8. */
  datatype Spelling = Spelling(raw: Option<seq<nat>>, dashes: string, name: string) {
    /** The token that reads as the dashes, the name and `more`. */
    function Word(more: string): Token {
      var text := dashes + name + more;
      if raw.Some? then NotUtf8(raw.value, text) else Text(text)
    }
  }

  datatype Part =
    | Public(option: Spelling, value: Token)
    | PublicAssigned(option: Spelling, text: string)
    | Switch(option: Spelling)
    | Private(option: Spelling, value: Token)
    | PrivateAssigned(option: Spelling, text: string)
    | Argument(token: Token)

  /** How a line ends: an option that lacks its value, or `--` and arguments, or neither. */
  datatype Ending = Nothing | Dangling(option: Spelling) | Arguments(separator: Token, tokens: seq<Token>)

  predicate IsPublic(add: bool, name: string) {
    name in PUBLIC_VALUES || (add && name == "kind")
  }

  predicate ProperName(o: Spelling) {
    o.dashes != [] && (forall i | 0 <= i < |o.dashes| :: o.dashes[i] == '-') &&
    '=' !in o.name && (o.name != [] ==> o.name[0] != '-')
  }

  /** Not followed by an assignment, it is not the bare `--`. */
  predicate ProperAlone(o: Spelling) {
    ProperName(o) && o.dashes + o.name != "--"
  }

  predicate ProperPart(add: bool, p: Part) {
    match p
    case Public(o, _) => ProperAlone(o) && IsPublic(add, o.name)
    case PublicAssigned(o, _) => ProperName(o) && IsPublic(add, o.name)
    case Switch(o) => ProperAlone(o) && o.name in SWITCHES
    case Private(o, _) => ProperAlone(o) && !IsPublic(add, o.name) && o.name !in SWITCHES
    case PrivateAssigned(o, _) => ProperName(o) && !IsPublic(add, o.name)
    case Argument(token) => !IsOption(token)
  }

  predicate ProperEnding(e: Ending) {
    match e
    case Nothing => true
    case Dangling(o) => ProperAlone(o) && o.name !in SWITCHES
    case Arguments(separator, _) => separator.Lossy() == "--"
  }

  function PartTokens(p: Part): seq<Token> {
    match p
    case Public(o, value) => [o.Word(""), value]
    case PublicAssigned(o, text) => [o.Word("=" + text)]
    case Switch(o) => [o.Word("")]
    case Private(o, value) => [o.Word(""), value]
    case PrivateAssigned(o, text) => [o.Word("=" + text)]
    case Argument(token) => [token]
  }

  function EndingTokens(e: Ending): seq<Token> {
    match e
    case Nothing => []
    case Dangling(o) => [o.Word("")]
    case Arguments(separator, tokens) => [separator] + tokens
  }

  /** What the log may show of a part; the first argument is the identifier. */
  function Hide(p: Part, idSeen: bool): Part {
    match p
    case Private(o, _) => Private(o, Text(REDACTED))
    case PrivateAssigned(o, _) => PrivateAssigned(Spelling(None, "--", o.name), REDACTED)
    case Argument(_) => if idSeen then Argument(Text(REDACTED)) else p
    case _ => p
  }

  function HideEnding(e: Ending, idSeen: bool): Ending {
    if e.Arguments? then e.(tokens := HideArguments(e.tokens, idSeen)) else e
  }

  function PartsTokens(parts: seq<Part>): seq<Token> {
    if parts == [] then [] else PartTokens(parts[0]) + PartsTokens(parts[1..])
  }

  function HideAll(parts: seq<Part>, idSeen: bool): seq<Part> {
    if parts == [] then []
    else [Hide(parts[0], idSeen)] + HideAll(parts[1..], idSeen || parts[0].Argument?)
  }

  predicate HasArgument(parts: seq<Part>) {
    parts != [] && (parts[0].Argument? || HasArgument(parts[1..]))
  }

  /** Behind `--` every token is an argument. */
  function HideArguments(tokens: seq<Token>, idSeen: bool): seq<Token> {
    if tokens == [] then []
    else [if idSeen then Text(REDACTED) else tokens[0]] + HideArguments(tokens[1..], true)
  }

  datatype SecretsLine = SecretsLine(
    program: Token, host: seq<Written>, inner: seq<Written>, add: bool, parts: seq<Part>, ending: Ending)

  ghost predicate ProperLine(line: SecretsLine) {
    AllHost(line.host) && AllHost(line.inner) && ProperParts(line.add, line.parts) && ProperEnding(line.ending)
  }

  predicate ProperParts(add: bool, parts: seq<Part>) {
    forall i | 0 <= i < |parts| :: ProperPart(add, parts[i])
  }

  function Front(line: SecretsLine): seq<Token> {
    [line.program] + AllTokens(line.host) + [Text("secrets")] + AllTokens(line.inner) +
    [Text(if line.add then "add" else "edit")]
  }

  function Behind(line: SecretsLine): seq<Token> {
    PartsTokens(line.parts) + EndingTokens(line.ending)
  }

  function Typed(line: SecretsLine): seq<Token> {
    Front(line) + Behind(line)
  }

  function Hidden(line: SecretsLine): SecretsLine {
    line.(parts := HideAll(line.parts, false), ending := HideEnding(line.ending, HasArgument(line.parts)))
  }

  // ---------------------------------------------------------------------
  // Names
  // ---------------------------------------------------------------------

  lemma {:induction false} DashesOff(dashes: string, rest: string)
    requires forall i | 0 <= i < |dashes| :: dashes[i] == '-'
    requires rest != [] ==> rest[0] != '-'
    ensures TrimDashes(dashes + rest) == rest
    decreases |dashes|
  {
    if dashes == [] {
      assert dashes + rest == rest;
    } else {
      assert (dashes + rest)[1..] == dashes[1..] + rest;
      DashesOff(dashes[1..], rest);
    }
  }

  lemma {:induction false} NameAlone(name: string)
    requires '=' !in name
    ensures NameOf(name) == (name, false)
  {
    if name != [] {
      NameAlone(name[1..]);
      assert name == [name[0]] + name[1..];
    }
  }

  lemma NamesAgree(add: bool, name: string)
    ensures TakesValue(add, name) <==> IsPublic(add, name)
    ensures IsSwitch(name) <==> name in SWITCHES
  {
  }

  lemma SwitchIsNotPublic(add: bool, name: string)
    requires name in SWITCHES
    ensures !IsPublic(add, name)
  {
    assert |"open"| == 4 && |"json"| == 4 && |"help"| == 4 && |"quiet"| == 5 && |"kind"| == 4;
    assert "open"[0] == 'o' && "json"[0] == 'j' && "help"[0] == 'h' && "quiet"[0] == 'q' && "kind"[0] == 'k';
    assert forall other | other in PUBLIC_VALUES :: other[0] in {'l', 'd', 'c'};
  }

  lemma OptionName(o: Spelling)
    requires ProperAlone(o)
    ensures var lossy := o.Word("").Lossy();
      IsOption(o.Word("")) && lossy != "--" && NameOf(TrimDashes(lossy)) == (o.name, false)
  {
    hide TrimDashes, NameOf;
    assert o.Word("").Lossy() == o.dashes + o.name;
    DashesOff(o.dashes, o.name);
    NameAlone(o.name);
  }

  lemma AssignmentNameOf(o: Spelling, text: string)
    requires ProperName(o)
    ensures var token := o.Word("=" + text);
      IsOption(token) && token.Lossy() != "--" && NameOf(TrimDashes(token.Lossy())) == (o.name, true)
  {
    hide TrimDashes, NameOf;
    var written := o.Word("=" + text).Lossy();
    var body := o.name + "=" + text;
    assert written == o.dashes + body;
    assert body[0] != '-';
    DashesOff(o.dashes, body);
    NameBeforeEquals(o.name, text);
    assert written[|o.dashes| + |o.name|] == '=';
  }

  // ---------------------------------------------------------------------
  // The walk
  // ---------------------------------------------------------------------

  function Ready(idSeen: bool): Flags {
    Flags(idSeen, false, false, false)
  }

  lemma WalkCons(t: Token, rest: seq<Token>, add: bool, flags: Flags)
    ensures Walk([t] + rest, add, flags) == [Step(t, add, flags).0] + Walk(rest, add, Step(t, add, flags).1)
  {
    hide Step;
    assert ([t] + rest)[1..] == rest;
  }

  lemma WalkTwo(t: Token, u: Token, rest: seq<Token>, add: bool, flags: Flags)
    ensures var (t', next) := Step(t, add, flags);
      var (u', last) := Step(u, add, next);
      Walk([t, u] + rest, add, flags) == [t', u'] + Walk(rest, add, last)
  {
    hide Step, Walk;
    var next := Step(t, add, flags).1;
    assert [t, u] + rest == [t] + ([u] + rest);
    WalkCons(t, [u] + rest, add, flags);
    WalkCons(u, rest, add, next);
  }

  lemma OptionWalks(add: bool, o: Spelling, idSeen: bool)
    requires ProperAlone(o)
    ensures Step(o.Word(""), add, Ready(idSeen)) == (o.Word(""),
      if IsPublic(add, o.name) then Ready(idSeen).(preserveNext := true)
      else if o.name in SWITCHES then Ready(idSeen)
      else Ready(idSeen).(redactNext := true))
  {
    hide NameOf, TrimDashes, IsPublic, TakesValue, IsSwitch, IsOption, ProperAlone;
    OptionName(o);
    NamesAgree(add, o.name);
  }

  lemma AssignmentWalks(add: bool, o: Spelling, text: string, idSeen: bool)
    requires ProperName(o)
    ensures Step(o.Word("=" + text), add, Ready(idSeen)) ==
      (if IsPublic(add, o.name) then o.Word("=" + text) else Assignment(o.name), Ready(idSeen))
  {
    hide NameOf, TrimDashes, IsPublic, TakesValue, IsSwitch, IsOption, ProperName, Assignment;
    AssignmentNameOf(o, text);
    NamesAgree(add, o.name);
  }

  lemma AssignmentIsWord(name: string)
    ensures Spelling(None, "--", name).Word("=" + REDACTED) == Assignment(name)
  {
    assert "--" + name + ("=" + REDACTED) == "--" + name + "=" + REDACTED;
  }

  lemma PartWalks(add: bool, p: Part, idSeen: bool, rest: seq<Token>)
    requires ProperPart(add, p)
    ensures Walk(PartTokens(p) + rest, add, Ready(idSeen))
         == PartTokens(Hide(p, idSeen)) + Walk(rest, add, Ready(idSeen || p.Argument?))
  {
    hide Walk, NameOf, TrimDashes, IsPublic, ProperName, ProperAlone, Assignment;
    match p
    case Public(o, value) =>
      OptionWalks(add, o, idSeen);
      WalkTwo(o.Word(""), value, rest, add, Ready(idSeen));
    case Private(o, value) =>
      OptionWalks(add, o, idSeen);
      WalkTwo(o.Word(""), value, rest, add, Ready(idSeen));
    case Switch(o) =>
      SwitchIsNotPublic(add, o.name);
      OptionWalks(add, o, idSeen);
      WalkCons(o.Word(""), rest, add, Ready(idSeen));
    case PublicAssigned(o, text) =>
      AssignmentWalks(add, o, text, idSeen);
      WalkCons(o.Word("=" + text), rest, add, Ready(idSeen));
    case PrivateAssigned(o, text) =>
      AssignmentWalks(add, o, text, idSeen);
      AssignmentIsWord(o.name);
      WalkCons(o.Word("=" + text), rest, add, Ready(idSeen));
    case Argument(token) =>
      assert "--"[0] == '-';
      WalkCons(token, rest, add, Ready(idSeen));
  }

  lemma PartsUnfold(add: bool, parts: seq<Part>, idSeen: bool)
    requires parts != [] && ProperParts(add, parts)
    ensures var more, seen := parts[1..], idSeen || parts[0].Argument?;
      && ProperPart(add, parts[0]) && ProperParts(add, more)
      && PartsTokens(parts) == PartTokens(parts[0]) + PartsTokens(more)
      && PartsTokens(HideAll(parts, idSeen)) == PartTokens(Hide(parts[0], idSeen)) + PartsTokens(HideAll(more, seen))
      && (idSeen || HasArgument(parts)) == (seen || HasArgument(more))
  {
    hide ProperPart, PartTokens, Hide;
    var more, seen := parts[1..], idSeen || parts[0].Argument?;
    assert forall i | 0 <= i < |more| :: more[i] == parts[i + 1];
    var hidden := HideAll(parts, idSeen);
    assert hidden[0] == Hide(parts[0], idSeen) && hidden[1..] == HideAll(more, seen);
  }

  lemma Associates(a: seq<Token>, b: seq<Token>, c: seq<Token>)
    ensures (a + b) + c == a + (b + c)
  {
  }

  lemma {:induction false} PartsWalk(add: bool, parts: seq<Part>, idSeen: bool, rest: seq<Token>)
    requires ProperParts(add, parts)
    ensures Walk(PartsTokens(parts) + rest, add, Ready(idSeen))
         == PartsTokens(HideAll(parts, idSeen)) + Walk(rest, add, Ready(idSeen || HasArgument(parts)))
    decreases |parts|
  {
    if parts == [] {
      assert PartsTokens(parts) + rest == rest;
    } else {
      hide *;
      PartsUnfold(add, parts, idSeen);
      var first, more, seen := parts[0], parts[1..], idSeen || parts[0].Argument?;
      Associates(PartTokens(first), PartsTokens(more), rest);
      PartWalks(add, first, idSeen, PartsTokens(more) + rest);
      PartsWalk(add, more, seen, rest);
      var last := Walk(rest, add, Ready(seen || HasArgument(more)));
      Associates(PartTokens(Hide(first, idSeen)), PartsTokens(HideAll(more, seen)), last);
    }
  }

  lemma {:induction false} ArgumentsWalk(add: bool, tokens: seq<Token>, idSeen: bool)
    ensures Walk(tokens, add, Flags(idSeen, false, false, true)) == HideArguments(tokens, idSeen)
  {
    if tokens != [] {
      ArgumentsWalk(add, tokens[1..], true);
    }
  }

  // ---------------------------------------------------------------------
  // The whole line
  // ---------------------------------------------------------------------

  lemma SecretsIsNoOption(args: seq<Token>, index: nat)
    requires index < |args| && args[index] in {Text("secrets"), Text("add"), Text("edit")}
    ensures SkipHost(args, index) == index
  {
    assert "secrets"[0] == 's' && "add"[0] == 'a' && "edit"[0] == 'e' && args[index].text[0] != '-';
  }

  lemma FrontStands(line: SecretsLine)
    ensures var args := Typed(line);
      var command := 1 + |AllTokens(line.host)|;
      var action := |Front(line)| - 1;
      Stands(args, 1, AllTokens(line.host)) && args[command] == Text("secrets") &&
      Stands(args, command + 1, AllTokens(line.inner)) && action == command + 1 + |AllTokens(line.inner)| &&
      args[action] == Text(if line.add then "add" else "edit") && args[action + 1..] == Behind(line) &&
      args[..action + 1] == Front(line)
  {
    hide AllTokens, Behind;
    var p, c, k := [line.program], [Text("secrets")], [Text(if line.add then "add" else "edit")];
    var h, i, rest := AllTokens(line.host), AllTokens(line.inner), Behind(line);
    assert Typed(line) == p + (h + (c + i + k + rest));
    assert Typed(line) == (p + h + c) + (i + (k + rest));
    StandsBehind(p, h, c + i + k + rest);
    StandsBehind(p + h + c, i, k + rest);
  }

  lemma ActionBy(args: seq<Token>, command: nat, action: nat)
    requires SkipHost(args, 1) == command && command < |args| && args[command] == Text("secrets")
    requires SkipHost(args, command + 1) == action && action < |args| && args[action] in {Text("add"), Text("edit")}
    ensures ActionIndex(args) == Some(action)
  {
  }

  lemma TypedAction(line: SecretsLine)
    requires ProperLine(line)
    ensures ActionIndex(Typed(line)) == Some(|Front(line)| - 1)
  {
    hide SkipHost, AllTokens, AllHost, ActionIndex, ProperParts;
    var args := Typed(line);
    FrontStands(line);
    var command, action := 1 + |AllTokens(line.host)|, |Front(line)| - 1;
    SkipReads(args, 1, line.host);
    SecretsIsNoOption(args, command);
    SkipReads(args, command + 1, line.inner);
    SecretsIsNoOption(args, action);
    ActionBy(args, command, action);
  }

  lemma EndingWalks(add: bool, e: Ending, idSeen: bool)
    requires ProperEnding(e)
    ensures Walk(EndingTokens(e), add, Ready(idSeen)) == EndingTokens(HideEnding(e, idSeen))
  {
    match e
    case Nothing =>
    case Dangling(o) =>
      OptionWalks(add, o, idSeen);
      hide Step;
      WalkCons(o.Word(""), [], add, Ready(idSeen));
      assert [o.Word("")] + [] == [o.Word("")];
    case Arguments(separator, tokens) =>
      WalkCons(separator, tokens, add, Ready(idSeen));
      ArgumentsWalk(add, tokens, idSeen);
  }

  lemma BehindWalks(line: SecretsLine)
    requires ProperLine(line)
    ensures Walk(Behind(line), line.add, START) == Behind(Hidden(line))
  {
    hide ProperParts, AllHost, ProperEnding, Walk, HideAll, HideEnding, EndingTokens, PartsTokens;
    PartsWalk(line.add, line.parts, false, EndingTokens(line.ending));
    EndingWalks(line.add, line.ending, HasArgument(line.parts));
  }

  /** The redacted line is the typed line with its private parts hidden, and nothing else. */
  lemma RedactedIsHidden(line: SecretsLine)
    requires ProperLine(line)
    ensures Redacted(Typed(line)) == Typed(Hidden(line))
  {
    hide Walk, ActionIndex, Behind, AllTokens;
    FrontStands(line);
    TypedAction(line);
    BehindWalks(line);
    assert Front(Hidden(line)) == Front(line);
    assert "add"[0] == 'a' && "edit"[0] == 'e';
  }

  // ---------------------------------------------------------------------
  // Every line with an action is put together so
  // ---------------------------------------------------------------------

  lemma {:induction false} DashesOf(text: string) returns (dashes: string)
    ensures text == dashes + TrimDashes(text) && forall i | 0 <= i < |dashes| :: dashes[i] == '-'
    ensures text != [] && text[0] == '-' ==> dashes != []
  {
    if text != [] && text[0] == '-' {
      assert TrimDashes(text) == TrimDashes(text[1..]);
      hide TrimDashes;
      var more := DashesOf(text[1..]);
      dashes := ['-'] + more;
      assert text == ['-'] + text[1..] == ['-'] + (more + TrimDashes(text));
      assert dashes + TrimDashes(text) == ['-'] + (more + TrimDashes(text));
    } else {
      dashes := [];
    }
  }

  lemma NameSplits(body: string) returns (more: string)
    ensures var (name, given) := NameOf(body);
      body == name + more && if given then more != [] && more[0] == '=' && more == "=" + more[1..] else more == []
    ensures var name := NameOf(body).0; '=' !in name && (name != [] ==> name[0] == body[0])
  {
    var (name, given) := NameOf(body);
    hide NameOf;
    more := body[|name|..];
    if given { assert more == [body[|name|]] + more[1..]; }
  }

  /** The spelling of an option token, and what follows its name. */
  lemma SpellingOf(t: Token) returns (o: Spelling, more: string)
    requires IsOption(t)
    ensures ProperName(o) && t == o.Word(more) && t.Lossy() == o.dashes + o.name + more
    ensures more == [] || (more[0] == '=' && more == "=" + more[1..])
  {
    hide TrimDashes, NameOf;
    var lossy := t.Lossy();
    var body := TrimDashes(lossy);
    var dashes := DashesOf(lossy);
    more := NameSplits(body);
    var name := NameOf(body).0;
    o := Spelling(if t.Text? then None else Some(t.bytes), dashes, name);
    assert lossy == dashes + name + more;
  }

  /** The part that an option token begins, or the ending if its value is missing. */
  lemma OptionPartOf(tokens: seq<Token>, add: bool) returns (part: Option<Part>, ending: Ending)
    requires tokens != [] && IsOption(tokens[0]) && tokens[0].Lossy() != "--"
    ensures part.Some? ==>
      ProperPart(add, part.value) && PartTokens(part.value) <= tokens && PartTokens(part.value) != []
    ensures part.None? ==> ProperEnding(ending) && EndingTokens(ending) == tokens
  {
    var t := tokens[0];
    ending := Nothing;
    var o, more := SpellingOf(t);
    hide NameOf, TrimDashes, IsPublic, ProperName, IsOption;
    assert o.dashes + o.name + [] == o.dashes + o.name;
    if more != [] {
      part := Some(if IsPublic(add, o.name) then PublicAssigned(o, more[1..]) else PrivateAssigned(o, more[1..]));
    } else if o.name in SWITCHES {
      part := Some(Switch(o));
    } else if |tokens| == 1 {
      part, ending := None, Dangling(o);
      assert tokens == [t];
    } else {
      part := Some(if IsPublic(add, o.name) then Public(o, tokens[1]) else Private(o, tokens[1]));
      assert tokens[..2] == [t, tokens[1]];
    }
  }

  /** One part, or the ending, at the front of some tokens. */
  lemma PartOf(tokens: seq<Token>, add: bool) returns (part: Option<Part>, ending: Ending)
    requires tokens != []
    ensures part.Some? ==>
      ProperPart(add, part.value) && PartTokens(part.value) <= tokens && PartTokens(part.value) != []
    ensures part.None? ==> ProperEnding(ending) && EndingTokens(ending) == tokens
  {
    var t := tokens[0];
    if t.Lossy() == "--" {
      part, ending := None, Arguments(t, tokens[1..]);
    } else if IsOption(t) {
      part, ending := OptionPartOf(tokens, add);
    } else {
      part, ending := Some(Argument(t)), Nothing;
    }
  }

  lemma PartsCons(add: bool, part: Part, more: seq<Part>)
    requires ProperPart(add, part) && ProperParts(add, more)
    ensures ProperParts(add, [part] + more) && PartsTokens([part] + more) == PartTokens(part) + PartsTokens(more)
  {
    hide ProperPart, PartTokens;
    assert ([part] + more)[1..] == more;
  }

  lemma NoParts(add: bool)
    ensures ProperParts(add, []) && PartsTokens([]) == [] && ProperEnding(Nothing) && EndingTokens(Nothing) == []
  {
  }

  lemma Rejoins(tokens: seq<Token>, first: seq<Token>, rest: seq<Token>, last: seq<Token>)
    requires first <= tokens && rest + last == tokens[|first|..]
    ensures (first + rest) + last == tokens
  {
    assert tokens == first + tokens[|first|..];
  }

  lemma {:induction false} PartsOf(tokens: seq<Token>, add: bool) returns (parts: seq<Part>, ending: Ending)
    ensures ProperParts(add, parts) && ProperEnding(ending) && PartsTokens(parts) + EndingTokens(ending) == tokens
    decreases |tokens|
  {
    hide *;
    NoParts(add);
    parts, ending := [], Nothing;
    if tokens != [] {
      var part;
      part, ending := PartOf(tokens, add);
      if part.Some? {
        var first := PartTokens(part.value);
        var more;
        more, ending := PartsOf(tokens[|first|..], add);
        PartsCons(add, part.value, more);
        Rejoins(tokens, first, PartsTokens(more), EndingTokens(ending));
        parts := [part.value] + more;
      }
    }
  }

  lemma ActionParts(args: seq<Token>) returns (command: nat, action: nat, add: bool)
    requires ActionIndex(args).Some?
    ensures command == SkipHost(args, 1) && action == SkipHost(args, command + 1)
    ensures command < |args| && args[command] == Text("secrets")
    ensures action < |args| && args[action] == Text(if add then "add" else "edit")
  {
    hide SkipHost;
    command := SkipHost(args, 1);
    action := SkipHost(args, command + 1);
    add := args[action] == Text("add");
  }

  lemma FrontGrows(args: seq<Token>, line: SecretsLine, command: nat, action: nat)
    requires args != [] && line.program == args[0] && command < |args| && action < |args|
    requires Stands(args, 1, AllTokens(line.host)) && command == 1 + |AllTokens(line.host)|
    requires args[command] == Text("secrets") && Stands(args, command + 1, AllTokens(line.inner))
    requires action == command + 1 + |AllTokens(line.inner)|
    requires args[action] == Text(if line.add then "add" else "edit")
    ensures Front(line) == args[..action + 1]
  {
    hide AllTokens, Stands;
    assert args[..1] == [line.program];
    TakeGrows(args, 1, AllTokens(line.host));
    assert args[..command] + [Text("secrets")] == args[..command + 1];
    TakeGrows(args, command + 1, AllTokens(line.inner));
    assert args[..action] + [args[action]] == args[..action + 1];
  }

  lemma TypedBy(args: seq<Token>, line: SecretsLine, n: nat)
    requires n <= |args| && Front(line) == args[..n]
    requires PartsTokens(line.parts) + EndingTokens(line.ending) == args[n..]
    ensures Typed(line) == args
  {
    hide Front, PartsTokens, EndingTokens;
  }

  lemma ProperLineBy(line: SecretsLine)
    requires AllHost(line.host) && AllHost(line.inner) && ProperParts(line.add, line.parts) && ProperEnding(line.ending)
    ensures ProperLine(line)
  {
    hide AllHost, ProperParts, ProperEnding;
  }

  lemma TypedLineOf(args: seq<Token>) returns (line: SecretsLine)
    requires ActionIndex(args).Some?
    ensures ProperLine(line) && Typed(line) == args
  {
    hide *;
    var command, action, add := ActionParts(args);
    var host := SkippedIs(args, 1);
    var inner := SkippedIs(args, command + 1);
    var parts, ending := PartsOf(args[action + 1..], add);
    line := SecretsLine(args[0], host, inner, add, parts, ending);
    FrontGrows(args, line, command, action);
    TypedBy(args, line, action + 1);
    ProperLineBy(line);
  }

  /** A command line has an action exactly when it is put together from these parts. */
  lemma ActionIffTyped(args: seq<Token>)
    ensures ActionIndex(args).Some? <==> exists line :: ProperLine(line) && Typed(line) == args
  {
    hide ActionIndex, ProperLine, Typed;
    if ActionIndex(args).Some? {
      var line := TypedLineOf(args);
    }
    if exists line :: ProperLine(line) && Typed(line) == args {
      var line :| ProperLine(line) && Typed(line) == args;
      TypedAction(line);
    }
  }

  /** Every other command line comes out as it went in. */
  lemma OtherLinesUnchanged(args: seq<Token>)
    requires !exists line :: ProperLine(line) && Typed(line) == args
    ensures Redacted(args) == args
  {
    hide ActionIndex, ProperLine, Typed;
    ActionIffTyped(args);
  }
}
