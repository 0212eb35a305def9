/**
 Command-line tokens, and the walk over the host's own options that both the
 `run check` splitter and the secrets redactor start with.
 */
module Argv {
  import opened Wrappers

  /** An argument: UTF-8 text, or bytes that are not, with their lossy reading. */
  datatype Token = Text(text: string) | NotUtf8(bytes: seq<nat>, replaced: string) {
    function Lossy(): string {
      if Text? then text else replaced
    }
  }

  function Least(a: nat, b: nat): nat {
    if a <= b then a else b
  }

  /** The index behind a host option at `index`, if one stands there. */
  function HostOptionEnd(args: seq<Token>, index: nat): (r: Option<nat>)
    ensures r.Some? ==> index < r.value <= |args|
  {
    if index >= |args| || args[index].NotUtf8? then None
    else
      var value := args[index].text;
      if value == "--json" || value == "--quiet" then Some(index + 1)
      else if value == "--cwd" || value == "--limit" then Some(Least(index + 2, |args|))
      else if "--cwd=" <= value || "--limit=" <= value then Some(index + 1)
      else None
  }

  /** The first index from `index` on that is not a host option. */
  function SkipHost(args: seq<Token>, index: nat): (r: nat)
    ensures index <= r && (index <= |args| ==> r <= |args|)
    decreases |args| - index
  {
    match HostOptionEnd(args, index)
    case None => index
    case Some(next) => SkipHost(args, next)
  }

  method SkipHostOptions(args: seq<Token>, start: nat) returns (index: nat)
    ensures index == SkipHost(args, start)
  {
    index := start;
    while index < |args|
      invariant SkipHost(args, index) == SkipHost(args, start)
      decreases |args| - index
    {
      var next := HostOptionEnd(args, index);
      if next.None? {
        break;
      }
      index := next.value;
    }
  }

  /** The two vectors agree on their first `n` tokens. */
  predicate SamePrefix(a: seq<Token>, b: seq<Token>, n: nat) {
    n <= |a| && n <= |b| && a[..n] == b[..n]
  }

  lemma SameToken(a: seq<Token>, b: seq<Token>, n: nat, i: nat)
    requires SamePrefix(a, b, n) && i < n
    ensures a[i] == b[i]
  {
    assert a[i] == a[..n][i] && b[i] == b[..n][i];
  }

  /** A walk that stops inside the common prefix stops there in both. */
  lemma {:induction false} SkipHostLocal(a: seq<Token>, b: seq<Token>, n: nat, index: nat)
    requires SamePrefix(a, b, n) && SkipHost(a, index) < n
    ensures SkipHost(b, index) == SkipHost(a, index)
    decreases |a| - index
  {
    SameToken(a, b, n, index);
    match HostOptionEnd(a, index)
    case None =>
    case Some(next) => SkipHostLocal(a, b, n, next);
  }
}
