/**
 The command lines that `run check` has a layout for, as a grammar: host options,
 `run`, host options, `check`, options of either kind, then the child, with `--`
 before it or not. The splitter accepts exactly these and splits where they do.
 */
module RunCheckGrammar {
  import opened Wrappers
  import opened Argv
  import opened Passthrough

  const FLAGS := {"--json", "--quiet"}
  const HOST_VALUED := {"--cwd", "--limit"}
  const CHECK_VALUED := {"--timeout-secs", "--max-output-bytes", "--tail-lines"}

  datatype Written =
    | Flag(name: string)
    | Valued(name: string, value: Token)
    | Assigned(name: string, text: string)

  predicate IsHost(o: Written) {
    if o.Flag? then o.name in FLAGS else o.name in HOST_VALUED
  }

  predicate IsCheck(o: Written) {
    !o.Flag? && o.name in CHECK_VALUED
  }

  function Tokens(o: Written): (tokens: seq<Token>)
    ensures 1 <= |tokens| <= 2
  {
    match o
    case Flag(name) => [Text(name)]
    case Valued(name, value) => [Text(name), value]
    case Assigned(name, text) => [Text(name + "=" + text)]
  }

  function AllTokens(os: seq<Written>): seq<Token> {
    if os == [] then [] else Tokens(os[0]) + AllTokens(os[1..])
  }

  predicate AllHost(os: seq<Written>) {
    forall i | 0 <= i < |os| :: IsHost(os[i])
  }

  predicate AllOptions(os: seq<Written>) {
    forall i | 0 <= i < |os| :: IsHost(os[i]) || IsCheck(os[i])
  }

  /** The token at which an option of either kind would begin. */
  predicate Opens(t: Token) {
    t.Text? &&
    (t.text in FLAGS || t.text in HOST_VALUED || t.text in CHECK_VALUED ||
     exists name | name in HOST_VALUED + CHECK_VALUED :: name + "=" <= t.text)
  }

  datatype Line = Line(
    program: Token, host: seq<Written>, inner: seq<Written>, tail: seq<Written>, dashes: bool, child: seq<Token>)

  ghost predicate Proper(line: Line) {
    AllHost(line.host) && AllHost(line.inner) && AllOptions(line.tail) &&
    (!line.dashes ==> line.child != [] && line.child[0] != Text("--") && !Opens(line.child[0]))
  }

  function Head(line: Line): seq<Token> {
    [line.program] + AllTokens(line.host) + [Text("run")]
  }

  function Prefix(line: Line): seq<Token> {
    Head(line) + AllTokens(line.inner) + [Text("check")] + AllTokens(line.tail)
  }

  function Separator(line: Line): seq<Token> {
    if line.dashes then [Text("--")] else []
  }

  function Render(line: Line): seq<Token> {
    Prefix(line) + Separator(line) + line.child
  }

  function Split(line: Line): RunCheckLayout {
    RunCheckLayout(|Head(line)| - 1, |Prefix(line)|, |Prefix(line)| + |Separator(line)|)
  }

  // ---------------------------------------------------------------------
  // One option
  // ---------------------------------------------------------------------

  /** The piece stands in the vector at `index`. */
  predicate Stands(args: seq<Token>, index: nat, piece: seq<Token>) {
    index + |piece| <= |args| && args[index..index + |piece|] == piece
  }

  lemma StandsParts(args: seq<Token>, index: nat, a: seq<Token>, b: seq<Token>)
    requires Stands(args, index, a + b)
    ensures Stands(args, index, a) && Stands(args, index + |a|, b)
  {
    var whole := args[index..index + |a + b|];
    assert args[index..index + |a|] == whole[..|a|] && args[index + |a|..index + |a| + |b|] == whole[|a|..];
  }

  lemma StandsFirst(args: seq<Token>, index: nat, piece: seq<Token>)
    requires Stands(args, index, piece) && piece != []
    ensures index < |args| && args[index] == piece[0]
  {
    assert args[index] == args[index..index + |piece|][0];
  }

  /** Neither a flag nor an option before its value. */
  lemma AssignedIsPlain(name: string, text: string)
    requires name in HOST_VALUED + CHECK_VALUED
    ensures name + "=" + text !in FLAGS + HOST_VALUED + CHECK_VALUED
    ensures name + "=" <= name + "=" + text
  {
    var written := name + "=" + text;
    assert '=' in written by { assert written[|name|] == '='; }
    assert forall other | other in FLAGS + HOST_VALUED + CHECK_VALUED :: '=' !in other;
  }

  lemma HostOptionReads(args: seq<Token>, index: nat, o: Written)
    requires IsHost(o) && Stands(args, index, Tokens(o))
    ensures HostOptionEnd(args, index) == Some(index + |Tokens(o)|)
  {
    StandsFirst(args, index, Tokens(o));
    if o.Assigned? {
      AssignedIsPlain(o.name, o.text);
    }
  }

  lemma CheckIsNoHostOption(args: seq<Token>, index: nat, o: Written)
    requires IsCheck(o) && Stands(args, index, Tokens(o))
    ensures index < |args| && HostOptionEnd(args, index) == None && args[index] != Text("--")
  {
    StandsFirst(args, index, Tokens(o));
    hide IsCheck;
    CheckIsNotHost(o.name, if o.Assigned? then "=" + o.text else "");
    assert o.name + "" == o.name;
    assert o.Assigned? ==> o.name + ("=" + o.text) == o.name + "=" + o.text;
  }

  lemma CheckOptionReads(args: seq<Token>, index: nat, o: Written)
    requires IsCheck(o) && Stands(args, index, Tokens(o))
    ensures RunCheckOptionEnd(args, index) == Some(index + |Tokens(o)|)
  {
    StandsFirst(args, index, Tokens(o));
    if o.Assigned? {
      AssignedIsPlain(o.name, o.text);
    }
  }

  lemma CheckIsNotHost(name: string, rest: string)
    requires name in CHECK_VALUED
    ensures !("--cwd=" <= name + rest) && !("--limit=" <= name + rest)
    ensures name + rest != "--" && name + rest !in HOST_VALUED + FLAGS
  {
    var written := name + rest;
    assert |name| > 2 && written[2] == name[2] && name[2] in {'t', 'm'};
    assert "--cwd="[2] == 'c' && "--limit="[2] == 'l' && |"--"| == 2;
    assert forall other | other in HOST_VALUED + FLAGS :: |other| > 2 && other[2] in {'c', 'l', 'j', 'q'};
  }

  /** Any written option is read whole. */
  lemma OptionReads(args: seq<Token>, index: nat, o: Written)
    requires (IsHost(o) || IsCheck(o)) && Stands(args, index, Tokens(o))
    ensures index < |args| && args[index] != Text("--") && OptionEnd(args, index) == Some(index + |Tokens(o)|)
  {
    StandsFirst(args, index, Tokens(o));
    if IsHost(o) {
      HostOptionReads(args, index, o);
      assert |o.name| > 2;
    } else {
      CheckIsNoHostOption(args, index, o);
      CheckOptionReads(args, index, o);
    }
  }

  const ASSIGNMENTS := {"--cwd=", "--limit=", "--timeout-secs=", "--max-output-bytes=", "--tail-lines="}

  lemma AssignmentOf(name: string)
    requires name in HOST_VALUED + CHECK_VALUED
    ensures name + "=" in ASSIGNMENTS
  {
    if name == "--cwd" {
      assert name + "=" == "--cwd=";
    } else if name == "--limit" {
      assert name + "=" == "--limit=";
    } else if name == "--timeout-secs" {
      assert name + "=" == "--timeout-secs=";
    } else if name == "--max-output-bytes" {
      assert name + "=" == "--max-output-bytes=";
    } else {
      assert name + "=" == "--tail-lines=";
    }
  }

  lemma AssignmentName(prefix: string) returns (name: string)
    requires prefix in ASSIGNMENTS
    ensures name in HOST_VALUED + CHECK_VALUED && name + "=" == prefix
  {
    name := prefix[..|prefix| - 1];
    assert prefix[|prefix| - 1] == '=';
    if prefix == "--cwd=" {
      assert name == "--cwd";
    } else if prefix == "--limit=" {
      assert name == "--limit";
    } else if prefix == "--timeout-secs=" {
      assert name == "--timeout-secs";
    } else if prefix == "--max-output-bytes=" {
      assert name == "--max-output-bytes";
    } else {
      assert name == "--tail-lines";
    }
  }

  /** Options are read exactly where one opens. */
  lemma OptionIffOpens(args: seq<Token>, index: nat)
    requires index < |args|
    ensures OptionEnd(args, index).Some? <==> Opens(args[index])
  {
    var t := args[index];
    if t.Text? {
      if name :| name in HOST_VALUED + CHECK_VALUED && name + "=" <= t.text {
        AssignmentOf(name);
      }
      if prefix :| prefix in ASSIGNMENTS && prefix <= t.text {
        var name := AssignmentName(prefix);
      }
    }
  }

  // ---------------------------------------------------------------------
  // Every proper line is split where it was put together
  // ---------------------------------------------------------------------

  lemma SplitTokens(os: seq<Written>)
    requires os != []
    ensures AllTokens(os) == Tokens(os[0]) + AllTokens(os[1..])
    ensures AllHost(os) <==> IsHost(os[0]) && AllHost(os[1..])
    ensures AllOptions(os) <==> (IsHost(os[0]) || IsCheck(os[0])) && AllOptions(os[1..])
  {
    hide IsHost, IsCheck, Tokens;
    assert forall i | 0 <= i < |os| :: i == 0 || os[i] == os[1..][i - 1];
    assert forall i | 0 <= i < |os[1..]| :: os[1..][i] == os[i + 1];
  }

  lemma SkipStep(args: seq<Token>, index: nat)
    requires HostOptionEnd(args, index).Some?
    ensures SkipHost(args, index) == SkipHost(args, HostOptionEnd(args, index).value)
  {
    hide HostOptionEnd;
  }

  lemma TailStep(args: seq<Token>, domainIndex: nat, index: nat)
    requires index < |args| && args[index] != Text("--") && OptionEnd(args, index).Some?
    ensures CheckTail(args, domainIndex, index) == CheckTail(args, domainIndex, OptionEnd(args, index).value)
  {
    hide OptionEnd;
  }

  lemma NoTokens()
    ensures AllTokens([]) == []
  {
  }

  lemma {:induction false} SkipReads(args: seq<Token>, index: nat, os: seq<Written>)
    requires AllHost(os) && Stands(args, index, AllTokens(os))
    ensures SkipHost(args, index) == SkipHost(args, index + |AllTokens(os)|)
    decreases |os|
  {
    hide *;
    NoTokens();
    if os != [] {
      SplitTokens(os);
      StandsParts(args, index, Tokens(os[0]), AllTokens(os[1..]));
      HostOptionReads(args, index, os[0]);
      SkipStep(args, index);
      SkipReads(args, index + |Tokens(os[0])|, os[1..]);
    }
  }

  lemma {:induction false} TailReads(args: seq<Token>, domainIndex: nat, index: nat, os: seq<Written>)
    requires AllOptions(os) && Stands(args, index, AllTokens(os))
    ensures CheckTail(args, domainIndex, index) == CheckTail(args, domainIndex, index + |AllTokens(os)|)
    decreases |os|
  {
    hide *;
    NoTokens();
    if os != [] {
      SplitTokens(os);
      StandsParts(args, index, Tokens(os[0]), AllTokens(os[1..]));
      OptionReads(args, index, os[0]);
      TailStep(args, domainIndex, index);
      TailReads(args, domainIndex, index + |Tokens(os[0])|, os[1..]);
    }
  }

  lemma WordsAreNoOptions(args: seq<Token>, index: nat)
    requires Is(args, index, "run") || Is(args, index, "check")
    ensures SkipHost(args, index) == index
  {
    assert "run"[0] == 'r' && "check"[0] == 'c' && args[index].text[0] != '-';
  }

  lemma Regrouped(
      p: seq<Token>, h: seq<Token>, r: seq<Token>, i: seq<Token>,
      k: seq<Token>, t: seq<Token>, s: seq<Token>, c: seq<Token>)
    ensures var all := p + h + r + i + k + t + s + c;
      && all == p + (h + (r + i + k + t + s + c))
      && all == (p + h + r) + (i + (k + t + s + c))
      && all == (p + h + r + i + k) + (t + (s + c))
  {
  }

  lemma StandsBehind(a: seq<Token>, b: seq<Token>, c: seq<Token>)
    ensures Stands(a + (b + c), |a|, b) && (a + (b + c))[|a| + |b|..] == c
  {
    var all := a + (b + c);
    assert all[|a|..|a| + |b|] == b;
  }

  lemma PiecesStand(line: Line)
    ensures var args := Render(line);
      Stands(args, 1, AllTokens(line.host)) &&
      Stands(args, |Head(line)|, AllTokens(line.inner)) &&
      Stands(args, |Head(line)| + |AllTokens(line.inner)| + 1, AllTokens(line.tail)) &&
      |Prefix(line)| <= |args| && args[|Prefix(line)|..] == Separator(line) + line.child
  {
    hide AllTokens, Stands;
    var p, r, k, s, c := [line.program], [Text("run")], [Text("check")], Separator(line), line.child;
    var h, i, t := AllTokens(line.host), AllTokens(line.inner), AllTokens(line.tail);
    Regrouped(p, h, r, i, k, t, s, c);
    StandsBehind(p, h, r + i + k + t + s + c);
    StandsBehind(p + h + r, i, k + t + s + c);
    StandsBehind(p + h + r + i + k, t, s + c);
  }

  lemma WordsStand(line: Line)
    ensures Is(Render(line), |Head(line)| - 1, "run")
    ensures Is(Render(line), |Head(line)| + |AllTokens(line.inner)|, "check")
  {
  }

  lemma LayoutBy(args: seq<Token>, domain: nat, check: nat)
    requires SkipHost(args, 1) == domain && Is(args, domain, "run")
    requires SkipHost(args, domain + 1) == check && Is(args, check, "check")
    ensures Layout(args) == CheckTail(args, domain, check + 1)
  {
  }

  /** The layout of a rendered line is its split: same domain, prefix and child. */
  lemma RenderedLayout(line: Line)
    requires Proper(line)
    ensures Layout(Render(line)) == Some(Split(line))
    ensures Split(line).childStart <= |Render(line)| && Render(line)[Split(line).childStart..] == line.child
  {
    hide *;
    var args := Render(line);
    var domain, check := |Head(line)| - 1, |Head(line)| + |AllTokens(line.inner)|;
    PiecesStand(line);
    Lengths(line);
    WordsStand(line);
    ProperParts(line);
    SkipReads(args, 1, line.host);
    WordsAreNoOptions(args, domain);
    SkipReads(args, domain + 1, line.inner);
    WordsAreNoOptions(args, check);
    TailReads(args, domain, check + 1, line.tail);
    LayoutBy(args, domain, check);
    TailEnds(args, domain, line);
  }

  lemma Lengths(line: Line)
    ensures |Head(line)| == |AllTokens(line.host)| + 2
    ensures |Prefix(line)| == |Head(line)| + |AllTokens(line.inner)| + 1 + |AllTokens(line.tail)|
    ensures Split(line) == RunCheckLayout(|Head(line)| - 1, |Prefix(line)|, |Prefix(line)| + |Separator(line)|)
  {
  }

  lemma ProperParts(line: Line)
    requires Proper(line)
    ensures AllHost(line.host) && AllHost(line.inner) && AllOptions(line.tail)
  {
  }

  lemma TailEnds(args: seq<Token>, domain: nat, line: Line)
    requires Proper(line) && |Prefix(line)| <= |args| && args[|Prefix(line)|..] == Separator(line) + line.child
    ensures var end := |Prefix(line)|;
      CheckTail(args, domain, end) == Some(RunCheckLayout(domain, end, end + |Separator(line)|)) &&
      end + |Separator(line)| <= |args| && args[end + |Separator(line)|..] == line.child
  {
    hide Opens, Prefix, AllHost, AllOptions, OptionEnd;
    var end := |Prefix(line)|;
    var rest := args[end..];
    assert rest[|Separator(line)|..] == line.child && rest[|Separator(line)|..] == args[end + |Separator(line)|..];
    assert rest[0] == args[end];
    OptionIffOpens(args, end);
  }

  // ---------------------------------------------------------------------
  // And every line with a layout is such a line
  // ---------------------------------------------------------------------

  lemma PairStands(args: seq<Token>, index: nat)
    requires index + 1 < |args|
    ensures Stands(args, index, [args[index], args[index + 1]]) && Stands(args, index, [args[index]])
  {
  }

  /** The option that the host reads, as it is written. */
  lemma HostOptionIs(args: seq<Token>, index: nat) returns (o: Written)
    requires HostOptionEnd(args, index).Some? && HostOptionEnd(args, index).value < |args|
    ensures IsHost(o) && Stands(args, index, Tokens(o)) && HostOptionEnd(args, index) == Some(index + |Tokens(o)|)
  {
    var text := args[index].text;
    PairStands(args, index);
    if text in FLAGS {
      o := Flag(text);
    } else if text in HOST_VALUED {
      o := Valued(text, args[index + 1]);
    } else if "--cwd=" <= text {
      o := Assigned("--cwd", text[6..]);
      assert text == "--cwd=" + text[6..] == "--cwd" + "=" + text[6..];
    } else {
      o := Assigned("--limit", text[8..]);
      assert text == "--limit=" + text[8..] == "--limit" + "=" + text[8..];
    }
  }

  lemma CheckOptionIs(args: seq<Token>, index: nat) returns (o: Written)
    requires RunCheckOptionEnd(args, index).Some? && RunCheckOptionEnd(args, index).value < |args|
    ensures IsCheck(o) && Stands(args, index, Tokens(o)) && RunCheckOptionEnd(args, index) == Some(index + |Tokens(o)|)
  {
    var text := args[index].text;
    PairStands(args, index);
    if text in CHECK_VALUED {
      o := Valued(text, args[index + 1]);
    } else if "--timeout-secs=" <= text {
      o := Assigned("--timeout-secs", text[15..]);
      assert text == "--timeout-secs=" + text[15..] == "--timeout-secs" + "=" + text[15..];
    } else if "--max-output-bytes=" <= text {
      o := Assigned("--max-output-bytes", text[19..]);
      assert text == "--max-output-bytes=" + text[19..] == "--max-output-bytes" + "=" + text[19..];
    } else {
      o := Assigned("--tail-lines", text[13..]);
      assert text == "--tail-lines=" + text[13..] == "--tail-lines" + "=" + text[13..];
    }
  }

  lemma StandsTogether(args: seq<Token>, index: nat, a: seq<Token>, b: seq<Token>)
    requires Stands(args, index, a) && Stands(args, index + |a|, b)
    ensures Stands(args, index, a + b)
  {
    assert args[index..index + |a + b|] == args[index..index + |a|] + args[index + |a|..index + |a| + |b|];
  }

  lemma {:induction false} SkippedIs(args: seq<Token>, index: nat) returns (os: seq<Written>)
    requires SkipHost(args, index) < |args|
    ensures AllHost(os) && Stands(args, index, AllTokens(os)) && SkipHost(args, index) == index + |AllTokens(os)|
    decreases |args| - index
  {
    os := [];
    NoTokens();
    NoOptions();
    EmptyStands(args, index);
    hide IsHost, HostOptionEnd, AllTokens, AllHost, Stands, Tokens;
    match HostOptionEnd(args, index)
    case None =>
    case Some(next) =>
      var o := HostOptionIs(args, index);
      var more := SkippedIs(args, next);
      StandsTogether(args, index, Tokens(o), AllTokens(more));
      os := [o] + more;
      assert os[0] == o && os[1..] == more;
      SplitTokens(os);
  }

  lemma {:induction false} TailIs(args: seq<Token>, domainIndex: nat, index: nat) returns (os: seq<Written>)
    requires CheckTail(args, domainIndex, index).Some?
    ensures AllOptions(os) && Stands(args, index, AllTokens(os))
    ensures var l := CheckTail(args, domainIndex, index).value;
      var end := index + |AllTokens(os)|;
      if Is(args, end, "--") then l == RunCheckLayout(domainIndex, end, end + 1)
      else l == RunCheckLayout(domainIndex, end, end) && end < |args| && !Opens(args[end])
    decreases |args| - index
  {
    hide AllTokens, AllOptions, OptionEnd, Opens, Stands, Tokens, IsHost, IsCheck;
    os := [];
    NoTokens();
    EmptyStands(args, index);
    NoOptions();
    OptionIffOpens(args, index);
    if args[index] != Text("--") && OptionEnd(args, index).Some? {
      var next := OptionEnd(args, index).value;
      var o := OptionIs(args, domainIndex, index);
      var more := TailIs(args, domainIndex, next);
      os := [o] + more;
      assert os[0] == o && os[1..] == more;
      SplitTokens(os);
      StandsTogether(args, index, Tokens(o), AllTokens(more));
    }
  }

  lemma NoOptions()
    ensures AllHost([]) && AllOptions([])
  {
  }

  lemma EmptyStands(args: seq<Token>, index: nat)
    requires index <= |args|
    ensures Stands(args, index, [])
  {
  }

  lemma OptionIs(args: seq<Token>, domainIndex: nat, index: nat) returns (o: Written)
    requires OptionEnd(args, index).Some? && CheckTail(args, domainIndex, OptionEnd(args, index).value).Some?
    ensures (IsHost(o) || IsCheck(o)) && Stands(args, index, Tokens(o))
    ensures OptionEnd(args, index) == Some(index + |Tokens(o)|)
  {
    hide IsHost, IsCheck, HostOptionEnd, RunCheckOptionEnd, Stands, Tokens;
    if HostOptionEnd(args, index).Some? {
      o := HostOptionIs(args, index);
    } else {
      o := CheckOptionIs(args, index);
    }
  }

  /** A command line has a layout exactly when it is a rendered proper line. */
  lemma LayoutIffRendered(args: seq<Token>)
    ensures Layout(args).Some? <==> exists line :: Proper(line) && Render(line) == args
  {
    hide Render, Proper, Layout, Split;
    if Layout(args).Some? {
      var line := LineOf(args);
    }
    if exists line :: Proper(line) && Render(line) == args {
      var line :| Proper(line) && Render(line) == args;
      RenderedLayout(line);
    }
  }

  lemma TakeGrows(args: seq<Token>, index: nat, piece: seq<Token>)
    requires Stands(args, index, piece)
    ensures index + |piece| <= |args| && args[..index] + piece == args[..index + |piece|]
  {
  }

  lemma WordStands(args: seq<Token>, index: nat, word: string)
    requires Is(args, index, word)
    ensures Stands(args, index, [Text(word)])
  {
  }

  lemma LayoutParts(args: seq<Token>)
    requires Layout(args).Some?
    ensures var domain := SkipHost(args, 1);
      var check := SkipHost(args, domain + 1);
      Is(args, domain, "run") && domain < |args| && Is(args, check, "check") && check < |args| &&
      CheckTail(args, domain, check + 1).Some?
  {
    hide SkipHost, CheckTail;
  }

  /** The options of `check`, and the rest of the line as separator and child. */
  lemma TailOf(args: seq<Token>, domainIndex: nat, index: nat)
      returns (tail: seq<Written>, dashes: bool, child: seq<Token>)
    requires CheckTail(args, domainIndex, index).Some?
    ensures AllOptions(tail) && Stands(args, index, AllTokens(tail)) && index + |AllTokens(tail)| <= |args|
    ensures args[index + |AllTokens(tail)|..] == (if dashes then [Text("--")] else []) + child
    ensures !dashes ==> child != [] && child[0] != Text("--") && !Opens(child[0])
  {
    tail := TailIs(args, domainIndex, index);
    hide CheckTail, AllOptions, Opens;
    var end := index + |AllTokens(tail)|;
    dashes := Is(args, end, "--");
    child := if dashes then args[end + 1..] else args[end..];
    assert dashes ==> args[end..] == [args[end]] + args[end + 1..];
  }

  lemma RenderIs(args: seq<Token>, line: Line, end: nat)
    requires end <= |args| && Prefix(line) == args[..end] && args[end..] == Separator(line) + line.child
    ensures Render(line) == args
  {
    hide Prefix;
    assert args == args[..end] + args[end..];
  }

  lemma ProperBy(line: Line)
    requires AllHost(line.host) && AllHost(line.inner) && AllOptions(line.tail)
    requires !line.dashes ==> line.child != [] && line.child[0] != Text("--") && !Opens(line.child[0])
    ensures Proper(line)
  {
    hide AllHost, AllOptions, Opens;
  }

  lemma LineOf(args: seq<Token>) returns (line: Line)
    requires Layout(args).Some?
    ensures Proper(line) && Render(line) == args
  {
    hide *;
    LayoutParts(args);
    var domain := SkipHost(args, 1);
    var check := SkipHost(args, domain + 1);
    var host := SkippedIs(args, 1);
    var inner := SkippedIs(args, domain + 1);
    var tail, dashes, child := TailOf(args, domain, check + 1);
    line := Line(args[0], host, inner, tail, dashes, child);
    WordStands(args, domain, "run");
    WordStands(args, check, "check");
    PrefixGrows(args, line, domain, check);
    SeparatorIs(line);
    RenderIs(args, line, check + 1 + |AllTokens(tail)|);
    ProperBy(line);
  }

  lemma SeparatorIs(line: Line)
    ensures Separator(line) == if line.dashes then [Text("--")] else []
  {
  }

  lemma PrefixGrows(args: seq<Token>, line: Line, domain: nat, check: nat)
    requires args != [] && line.program == args[0]
    requires Stands(args, 1, AllTokens(line.host)) && domain == 1 + |AllTokens(line.host)|
    requires Stands(args, domain, [Text("run")]) && Stands(args, domain + 1, AllTokens(line.inner))
    requires check == domain + 1 + |AllTokens(line.inner)| && Stands(args, check, [Text("check")])
    requires Stands(args, check + 1, AllTokens(line.tail))
    ensures check + 1 + |AllTokens(line.tail)| <= |args|
    ensures Prefix(line) == args[..check + 1 + |AllTokens(line.tail)|]
  {
    hide AllTokens, Stands;
    assert args[..1] == [line.program];
    TakeGrows(args, 1, AllTokens(line.host));
    TakeGrows(args, domain, [Text("run")]);
    TakeGrows(args, domain + 1, AllTokens(line.inner));
    TakeGrows(args, check, [Text("check")]);
    TakeGrows(args, check + 1, AllTokens(line.tail));
  }

  // ---------------------------------------------------------------------
  // The working directory
  // ---------------------------------------------------------------------

  /** The working directory after one more option, as it is written. */
  function Chosen(o: Written, cwd: Option<Token>): Option<Token> {
    if o.Flag? || o.name != "--cwd" then cwd
    else if o.Valued? then Some(o.value)
    else Some(Text(o.text))
  }

  function LastCwd(os: seq<Written>, cwd: Option<Token>): Option<Token> {
    if os == [] then cwd else LastCwd(os[1..], Chosen(os[0], cwd))
  }

  /** Where the scan stands: reading options, about to take a value, or at an end. */
  datatype Scan = Going(cwd: Option<Token>) | Taking | Stopped(cwd: Option<Token>)

  function Read(t: Token, scan: Scan): Scan {
    match scan
    case Stopped(_) => scan
    case Taking => Going(Some(t))
    case Going(cwd) =>
      if t == Text("--") then Stopped(cwd)
      else if t == Text("--cwd") then Taking
      else if AssignedCwd(t).Some? then Going(AssignedCwd(t))
      else scan
  }

  function ReadAll(tokens: seq<Token>, scan: Scan): Scan {
    if tokens == [] then scan else ReadAll(tokens[1..], Read(tokens[0], scan))
  }

  function Answer(scan: Scan): Result<Option<Token>, CwdError> {
    if scan.Taking? then Err(MissingValue) else Ok(scan.cwd)
  }

  /**
   What an option does to a scan that is not skipping values. Only another
   option's value can be mistaken: for the end, for `--cwd`, or for `--cwd=`. A scan
   that was made to take a value takes the option's first token.
   */
  function Passed(o: Written, scan: Scan): Scan {
    match scan
    case Stopped(_) => scan
    case Taking => if o.Valued? then Read(o.value, Going(Some(Text(o.name)))) else Going(Some(Tokens(o)[0]))
    case Going(cwd) => if o.Valued? && o.name != "--cwd" then Read(o.value, scan) else Going(Chosen(o, cwd))
  }

  function PassedAll(os: seq<Written>, scan: Scan): Scan {
    if os == [] then scan else PassedAll(os[1..], Passed(os[0], scan))
  }

  /** A word between the options: taken if a value is due, and harmless otherwise. */
  function PassedWord(word: string, scan: Scan): Scan {
    if scan.Taking? then Going(Some(Text(word))) else scan
  }

  function LineScan(line: Line): Scan {
    var outer := PassedWord("run", PassedAll(line.host, Going(None)));
    PassedAll(line.tail, PassedWord("check", PassedAll(line.inner, outer)))
  }

  lemma {:induction false} ReadAllConcat(a: seq<Token>, b: seq<Token>, scan: Scan)
    ensures ReadAll(a + b, scan) == ReadAll(b, ReadAll(a, scan))
    decreases |a|
  {
    if a == [] {
      assert a + b == b;
    } else {
      assert (a + b)[1..] == a[1..] + b;
      ReadAllConcat(a[1..], b, Read(a[0], scan));
    }
  }

  lemma {:induction false} StoppedStays(tokens: seq<Token>, cwd: Option<Token>)
    ensures ReadAll(tokens, Stopped(cwd)) == Stopped(cwd)
  {
    if tokens != [] { StoppedStays(tokens[1..], cwd); }
  }

  /** The index loop is that reading of the tokens. */
  lemma {:induction false} ScanIsReading(args: seq<Token>, index: nat, end: nat, cwd: Option<Token>)
    requires index <= end <= |args|
    ensures ScanCwd(args, index, end, cwd) == Answer(ReadAll(args[index..end], Going(cwd)))
    decreases end - index
  {
    if index < end {
      var tokens := args[index..end];
      assert tokens[0] == args[index] && tokens[1..] == args[index + 1..end];
      if args[index] == Text("--") {
        StoppedStays(tokens[1..], cwd);
      } else if args[index] == Text("--cwd") {
        if index + 1 < end {
          assert tokens[1..][0] == args[index + 1] && tokens[1..][1..] == args[index + 2..end];
          ScanIsReading(args, index + 2, end, Some(args[index + 1]));
        } else {
          assert tokens[1..] == [];
        }
      } else {
        var given := AssignedCwd(args[index]);
        ScanIsReading(args, index + 1, end, if given.Some? then given else cwd);
      }
    }
  }

  /** The name of another option is never mistaken, alone or with its value. */
  lemma NamesAreHarmless(o: Written, cwd: Option<Token>)
    requires (IsHost(o) || IsCheck(o)) && o.name != "--cwd"
    ensures Read(Tokens(o)[0], Going(cwd)) == Going(cwd)
  {
    var written := Tokens(o)[0].text;
    assert |o.name| > 2 && written[2] == o.name[2] && o.name[2] in {'j', 'q', 'l', 't', 'm'};
    assert "--cwd="[2] == 'c' && "--cwd"[2] == 'c' && |"--"| == 2;
  }

  lemma AssignedCwdReads(text: string, cwd: Option<Token>)
    ensures Read(Text("--cwd" + "=" + text), Going(cwd)) == Going(Some(Text(text)))
  {
    var written := "--cwd" + "=" + text;
    assert "--cwd" + "=" == "--cwd=" && written == "--cwd=" + text && written[6..] == text;
    assert |written| > 5;
  }

  lemma OptionIsPassed(o: Written, scan: Scan)
    requires IsHost(o) || IsCheck(o)
    ensures ReadAll(Tokens(o), scan) == Passed(o, scan)
  {
    match scan
    case Stopped(cwd) => StoppedStays(Tokens(o), cwd);
    case Taking => OneOrTwo(o, scan);
    case Going(cwd) =>
      OneOrTwo(o, scan);
      if o.name != "--cwd" {
        NamesAreHarmless(o, cwd);
      } else if o.Assigned? {
        AssignedCwdReads(o.text, cwd);
      } else {
        assert o.Valued? by { assert "--cwd"[2] == 'c' && "--json"[2] == 'j' && "--quiet"[2] == 'q'; }
      }
  }

  lemma OneOrTwo(o: Written, scan: Scan)
    ensures ReadAll(Tokens(o), scan) ==
      if o.Valued? then Read(o.value, Read(Text(o.name), scan)) else Read(Tokens(o)[0], scan)
  {
    hide Read;
    var tokens := Tokens(o);
    var next := Read(tokens[0], scan);
    assert ReadAll(tokens, scan) == ReadAll(tokens[1..], next);
    if o.Valued? {
      assert tokens[1..] == [o.value] && [o.value][1..] == [];
      assert ReadAll([o.value], next) == ReadAll([], Read(o.value, next));
    } else {
      assert tokens[1..] == [];
    }
  }

  lemma {:induction false} OptionsArePassed(os: seq<Written>, scan: Scan)
    requires AllOptions(os)
    ensures ReadAll(AllTokens(os), scan) == PassedAll(os, scan)
    decreases |os|
  {
    hide IsHost, IsCheck, Tokens, Read, Passed;
    if os != [] {
      SplitTokens(os);
      ReadAllConcat(Tokens(os[0]), AllTokens(os[1..]), scan);
      OptionIsPassed(os[0], scan);
      OptionsArePassed(os[1..], Passed(os[0], scan));
    }
  }

  lemma WordIsPassed(word: string, scan: Scan)
    requires word == "run" || word == "check"
    ensures ReadAll([Text(word)], scan) == PassedWord(word, scan)
  {
    assert "run"[0] == 'r' && "check"[0] == 'c' && "--"[0] == '-' && "--cwd"[0] == '-' && "--cwd="[0] == '-';
    assert [Text(word)][1..] == [];
  }

  lemma HostAreOptions(os: seq<Written>)
    requires AllHost(os)
    ensures AllOptions(os)
  {
  }

  lemma RenderedEnd(line: Line)
    requires Proper(line)
    ensures ScanEnd(Render(line)) == |Prefix(line)|
  {
    hide Layout, Render, Prefix, Head, Proper;
    RenderedLayout(line);
  }

  lemma PrefixIs(line: Line)
    ensures |Prefix(line)| <= |Render(line)| && 1 <= |Prefix(line)|
    ensures Render(line)[1..|Prefix(line)|] ==
      AllTokens(line.host) + ([Text("run")] + (AllTokens(line.inner) + ([Text("check")] + AllTokens(line.tail))))
  {
    hide AllTokens;
  }

  lemma LineIsPassed(line: Line)
    requires Proper(line)
    ensures ReadAll(Render(line)[1..|Prefix(line)|], Going(None)) == LineScan(line)
  {
    hide *;
    PrefixIs(line);
    ProperParts(line);
    HostAreOptions(line.host);
    HostAreOptions(line.inner);
    var outer := PassedAll(line.host, Going(None));
    var run := PassedWord("run", outer);
    var inner := PassedAll(line.inner, run);
    var check := PassedWord("check", inner);
    var h, i, t := AllTokens(line.host), AllTokens(line.inner), AllTokens(line.tail);
    ReadAllConcat(h, [Text("run")] + (i + ([Text("check")] + t)), Going(None));
    OptionsArePassed(line.host, Going(None));
    ReadAllConcat([Text("run")], i + ([Text("check")] + t), outer);
    WordIsPassed("run", outer);
    ReadAllConcat(i, [Text("check")] + t, run);
    OptionsArePassed(line.inner, run);
    ReadAllConcat([Text("check")], t, inner);
    WordIsPassed("check", inner);
    OptionsArePassed(line.tail, check);
    LineScanIs(line);
  }

  lemma LineScanIs(line: Line)
    ensures
      var outer := PassedWord("run", PassedAll(line.host, Going(None)));
      LineScan(line) == PassedAll(line.tail, PassedWord("check", PassedAll(line.inner, outer)))
  {
  }

  /** Of every proper line, exactly what the scan answers, told from its options alone. */
  lemma RenderedScan(line: Line)
    requires Proper(line)
    ensures ScanCwd(Render(line), 1, ScanEnd(Render(line)), None) == Answer(LineScan(line))
  {
    hide *;
    RenderedEnd(line);
    PrefixIs(line);
    ScanIsReading(Render(line), 1, |Prefix(line)|, None);
    LineIsPassed(line);
  }

  /** No other option has the bare word `--cwd` as its value. */
  predicate NoBareCwd(os: seq<Written>) {
    forall i | 0 <= i < |os| :: os[i].Valued? && os[i].name != "--cwd" ==> os[i].value != Text("--cwd")
  }

  /** The value of another option that the scan would take for the end. */
  predicate LooksLikeEnd(o: Written) {
    o.Valued? && o.name != "--cwd" && o.value == Text("--")
  }

  function BeforeEnd(os: seq<Written>): seq<Written> {
    if os == [] || LooksLikeEnd(os[0]) then [] else [os[0]] + BeforeEnd(os[1..])
  }

  /** The working directory after one more option, if its value may be mistaken for one. */
  function Noted(o: Written, cwd: Option<Token>): Option<Token> {
    if o.Valued? && o.name != "--cwd" && AssignedCwd(o.value).Some? then AssignedCwd(o.value) else Chosen(o, cwd)
  }

  function LastNoted(os: seq<Written>, cwd: Option<Token>): Option<Token> {
    if os == [] then cwd else LastNoted(os[1..], Noted(os[0], cwd))
  }

  function Options(line: Line): seq<Written> {
    line.host + line.inner + line.tail
  }

  lemma {:induction false} PassedNotes(os: seq<Written>, cwd: Option<Token>)
    requires NoBareCwd(os)
    ensures !PassedAll(os, Going(cwd)).Taking?
    ensures PassedAll(os, Going(cwd)).cwd == LastNoted(BeforeEnd(os), cwd)
    decreases |os|
  {
    hide AssignedCwd;
    if os != [] {
      var rest := os[1..];
      assert NoBareCwd(rest) by { assert forall i | 0 <= i < |rest| :: rest[i] == os[i + 1]; }
      if LooksLikeEnd(os[0]) {
        PassedStops(rest, cwd);
      } else {
        PassedNotes(rest, Noted(os[0], cwd));
        assert BeforeEnd(os)[1..] == BeforeEnd(rest);
      }
    }
  }

  lemma {:induction false} PassedStops(os: seq<Written>, cwd: Option<Token>)
    ensures PassedAll(os, Stopped(cwd)) == Stopped(cwd)
  {
    if os != [] { PassedStops(os[1..], cwd); }
  }

  lemma {:induction false} PassedConcat(a: seq<Written>, b: seq<Written>, scan: Scan)
    ensures PassedAll(a + b, scan) == PassedAll(b, PassedAll(a, scan))
    decreases |a|
  {
    if a == [] {
      assert a + b == b;
    } else {
      assert (a + b)[1..] == a[1..] + b;
      PassedConcat(a[1..], b, Passed(a[0], scan));
    }
  }

  lemma NoBareParts(a: seq<Written>, b: seq<Written>)
    requires NoBareCwd(a + b)
    ensures NoBareCwd(a)
  {
    assert forall i | 0 <= i < |a| :: a[i] == (a + b)[i];
  }

  lemma LinePasses(line: Line)
    requires NoBareCwd(Options(line))
    ensures LineScan(line) == PassedAll(Options(line), Going(None))
  {
    hide PassedAll, NoBareCwd;
    var outer := line.host + line.inner;
    NoBareParts(outer, line.tail);
    NoBareParts(line.host, line.inner);
    PassedConcat(outer, line.tail, Going(None));
    PassedConcat(line.host, line.inner, Going(None));
    PassedNotes(line.host, None);
    PassedNotes(outer, None);
  }

  /**
   Where no other option's value is the bare word `--cwd`, the scan takes the last
   directory among written `--cwd`s and values that look like `--cwd=`, up to a value
   that looks like the end.
   */
  lemma CwdTaken(line: Line)
    requires Proper(line) && NoBareCwd(Options(line))
    ensures ScanCwd(Render(line), 1, ScanEnd(Render(line)), None) == Ok(LastNoted(BeforeEnd(Options(line)), None))
  {
    hide *;
    RenderedScan(line);
    LinePasses(line);
    PassedNotes(Options(line), None);
    AnswerIs(LineScan(line));
  }

  /** The directories that the options give, as they are written and as the scan would take them. */
  function WrittenIn(os: seq<Written>): seq<Option<Token>> {
    seq(|os|, i requires 0 <= i < |os| => Chosen(os[i], None))
  }

  function NotedIn(os: seq<Written>): seq<Option<Token>> {
    seq(|os|, i requires 0 <= i < |os| => Noted(os[i], None))
  }

  /** `x` is the last of `xs` that is there, or none is. */
  ghost predicate IsLast(xs: seq<Option<Token>>, x: Option<Token>) {
    if x.None? then forall i | 0 <= i < |xs| :: xs[i].None?
    else exists i | 0 <= i < |xs| :: xs[i] == x && forall j | i < j < |xs| :: xs[j].None?
  }

  /**
   The same directory is the last one written anywhere and the last one written or
   resembled before a value that looks like the end; or there is neither.
   */
  ghost predicate SameLast(os: seq<Written>) {
    exists directory :: IsLast(WrittenIn(os), directory) && IsLast(NotedIn(BeforeEnd(os)), directory)
  }

  lemma LastIsUnique(xs: seq<Option<Token>>, x: Option<Token>, y: Option<Token>)
    requires IsLast(xs, x) && IsLast(xs, y)
    ensures x == y
  {
  }

  lemma LastBehind(x: Option<Token>, xs: seq<Option<Token>>, last: Option<Token>)
    requires IsLast(xs, last)
    ensures IsLast([x] + xs, if last.Some? then last else x)
  {
    var all := [x] + xs;
    assert forall i | 0 <= i < |xs| :: all[i + 1] == xs[i];
    if last.Some? {
      var i :| 0 <= i < |xs| && xs[i] == last && forall j | i < j < |xs| :: xs[j].None?;
      assert all[i + 1] == last && forall j | i + 1 < j < |all| :: all[j] == xs[j - 1];
    } else {
      assert all[0] == x && forall j | 0 < j < |all| :: all[j] == xs[j - 1];
    }
  }

  lemma {:induction false} LastCwdIsLast(os: seq<Written>, cwd: Option<Token>) returns (last: Option<Token>)
    ensures IsLast(WrittenIn(os), last) && LastCwd(os, cwd) == if last.Some? then last else cwd
    decreases |os|
  {
    hide IsLast;
    if os == [] {
      last := None;
      NoneIsLast(WrittenIn(os));
    } else {
      var rest := LastCwdIsLast(os[1..], Chosen(os[0], cwd));
      LastBehind(Chosen(os[0], None), WrittenIn(os[1..]), rest);
      assert WrittenIn(os) == [Chosen(os[0], None)] + WrittenIn(os[1..]);
      last := if rest.Some? then rest else Chosen(os[0], None);
    }
  }

  lemma {:induction false} LastNotedIsLast(os: seq<Written>, cwd: Option<Token>) returns (last: Option<Token>)
    ensures IsLast(NotedIn(os), last) && LastNoted(os, cwd) == if last.Some? then last else cwd
    decreases |os|
  {
    hide IsLast, AssignedCwd;
    if os == [] {
      last := None;
      NoneIsLast(NotedIn(os));
    } else {
      var rest := LastNotedIsLast(os[1..], Noted(os[0], cwd));
      LastBehind(Noted(os[0], None), NotedIn(os[1..]), rest);
      assert NotedIn(os) == [Noted(os[0], None)] + NotedIn(os[1..]);
      last := if rest.Some? then rest else Noted(os[0], None);
    }
  }

  lemma NoneIsLast(xs: seq<Option<Token>>)
    requires xs == []
    ensures IsLast(xs, None)
  {
  }

  /** So what is taken is what was written last exactly when the two are the same directory. */
  lemma CwdTakenIff(line: Line)
    requires Proper(line) && NoBareCwd(Options(line))
    ensures ScanCwd(Render(line), 1, ScanEnd(Render(line)), None) == Ok(LastCwd(Options(line), None)) <==>
      SameLast(Options(line))
  {
    hide Proper, NoBareCwd, Options, ScanCwd, Render, ScanEnd;
    hide LastCwd, LastNoted, BeforeEnd, WrittenIn, NotedIn, IsLast;
    var os := Options(line);
    CwdTaken(line);
    var written := LastCwdIsLast(os, None);
    var noted := LastNotedIsLast(BeforeEnd(os), None);
    if SameLast(os) {
      var directory :| IsLast(WrittenIn(os), directory) && IsLast(NotedIn(BeforeEnd(os)), directory);
      LastIsUnique(WrittenIn(os), directory, written);
      LastIsUnique(NotedIn(BeforeEnd(os)), directory, noted);
    }
  }

  lemma AnswerIs(scan: Scan)
    requires !scan.Taking?
    ensures Answer(scan) == Ok(scan.cwd)
  {
  }

  /** No value of another option looks like an end or a working directory. */
  predicate QuietOptions(os: seq<Written>) {
    forall i | 0 <= i < |os| :: os[i].Valued? && os[i].name != "--cwd" ==>
      os[i].value != Text("--") && os[i].value != Text("--cwd") && AssignedCwd(os[i].value).None?
  }

  lemma {:induction false} QuietNotes(os: seq<Written>, cwd: Option<Token>)
    requires QuietOptions(os)
    ensures LastNoted(BeforeEnd(os), cwd) == LastCwd(os, cwd)
    decreases |os|
  {
    hide AssignedCwd;
    if os != [] {
      var rest := os[1..];
      assert QuietOptions(rest) by { assert forall i | 0 <= i < |rest| :: rest[i] == os[i + 1]; }
      QuietNotes(rest, Chosen(os[0], cwd));
      assert BeforeEnd(os)[1..] == BeforeEnd(rest);
    }
  }

  /** Then the last written `--cwd` is taken, never one of the child's. */
  lemma RenderedCwd(line: Line)
    requires Proper(line) && QuietOptions(Options(line))
    ensures ScanCwd(Render(line), 1, ScanEnd(Render(line)), None) == Ok(LastCwd(Options(line), None))
  {
    hide Proper, Render, LastCwd, LastNoted, BeforeEnd, AssignedCwd, ScanCwd;
    CwdTaken(line);
    QuietNotes(Options(line), None);
  }

  /** On every other line the whole of it is read. */
  lemma OtherLinesCwd(args: seq<Token>)
    requires args != [] && !exists line :: Proper(line) && Render(line) == args
    ensures Answers(args, 1, |args|, None, ScanCwd(args, 1, ScanEnd(args), None))
  {
    hide Layout, Proper, Render, ScanCwd, Answers;
    LayoutIffRendered(args);
    CwdByPositions(args, |args|);
  }

  /** A line without any `--cwd` on which a value of another option is taken for one. */
  lemma LookalikeIsTaken(program: Token, directory: string, child: seq<Token>)
    ensures var line := Line(program, [], [], [Valued("--timeout-secs", Text("--cwd=" + directory))], true, child);
      Proper(line) && LastCwd(Options(line), None) == None &&
      ScanCwd(Render(line), 1, ScanEnd(Render(line)), None) == Ok(Some(Text(directory)))
  {
    var o := Valued("--timeout-secs", Text("--cwd=" + directory));
    var line := Line(program, [], [], [o], true, child);
    assert |"--timeout-secs"| == 14 && |"--cwd"| == 5 && |"--"| == 2;
    assert o.value.text[6..] == directory && |o.value.text| > 5;
    assert Options(line) == [o] && [o][1..] == [];
    assert BeforeEnd([o]) == [o];
    hide Render, ScanCwd;
    CwdTaken(line);
  }
}
