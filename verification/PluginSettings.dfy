/**
 The store of disabled plugin domains: normalisation, the file's readings, and
 the handle whose update reloads the file, mutates the copy and writes it back.
 */
module PluginSettings {
  import opened Wrappers

  const SETTINGS_VERSION := 1

  datatype Failure =
    | EmptyDomain
    | InvalidDomain
    | StoredDomain(domain: string)
    | Unreadable
    | Malformed
    | UnsupportedVersion(version: nat)
    | LockTimeout
    | WriteFailed

  // ---------------------------------------------------------------------
  // Domain names
  // ---------------------------------------------------------------------

  /** The White_Space property of the Unicode Standard. */
  predicate IsWhitespace(c: char) {
    || '\t' <= c <= '\r'
    || c == ' '
    || c == '\U{85}' || c == '\U{A0}' || c == '\U{1680}'
    || '\U{2000}' <= c <= '\U{200A}'
    || c == '\U{2028}' || c == '\U{2029}' || c == '\U{202F}' || c == '\U{205F}' || c == '\U{3000}'
  }

  function TrimStart(s: string): (r: string)
    ensures r != [] ==> !IsWhitespace(r[0])
    ensures s != [] && !IsWhitespace(s[0]) ==> r == s
    ensures s == [] || !IsWhitespace(s[|s| - 1]) ==> r == [] || (s != [] && r[|r| - 1] == s[|s| - 1])
  {
    if s != [] && IsWhitespace(s[0]) then TrimStart(s[1..]) else s
  }

  function TrimEnd(s: string): (r: string)
    ensures r != [] ==> !IsWhitespace(r[|r| - 1])
    ensures s != [] && !IsWhitespace(s[|s| - 1]) ==> r == s
    ensures r <= s
  {
    if s != [] && IsWhitespace(s[|s| - 1]) then TrimEnd(s[..|s| - 1]) else s
  }

  function ToLower(c: char): (r: char)
    ensures IsWhitespace(r) <==> IsWhitespace(c)
    ensures !('A' <= r <= 'Z')
  {
    if 'A' <= c <= 'Z' then c - 'A' + 'a' else c
  }

  function LowerCase(s: string): (r: string)
    ensures |r| == |s| && forall i | 0 <= i < |s| :: r[i] == ToLower(s[i])
  {
    if s == [] then [] else [ToLower(s[0])] + LowerCase(s[1..])
  }

  function NormalizeKey(domain: string): string {
    LowerCase(TrimEnd(TrimStart(domain)))
  }

  predicate IsDomainChar(c: char) {
    'a' <= c <= 'z' || 'A' <= c <= 'Z' || '0' <= c <= '9' || c == '-' || c == '_' || c == '.'
  }

  function NormalizeDomain(domain: string): Result<string, Failure> {
    var key := NormalizeKey(domain);
    if key == [] then Err(EmptyDomain)
    else if forall i | 0 <= i < |key| :: IsDomainChar(key[i]) then Ok(key)
    else Err(InvalidDomain)
  }

  predicate IsNormalChar(c: char) {
    'a' <= c <= 'z' || '0' <= c <= '9' || c == '-' || c == '_' || c == '.'
  }

  lemma NormalChars(c: char)
    ensures IsDomainChar(ToLower(c)) ==> IsNormalChar(ToLower(c))
    ensures IsNormalChar(c) ==> IsDomainChar(c) && ToLower(c) == c && !IsWhitespace(c)
  {
  }

  /** A name as it is stored: not empty, lower case, domain characters only. */
  predicate IsNormal(domain: string) {
    domain != [] && forall i | 0 <= i < |domain| :: IsNormalChar(domain[i])
  }

  lemma {:induction false} KeyIdempotent(domain: string)
    ensures NormalizeKey(NormalizeKey(domain)) == NormalizeKey(domain)
  {
    var trimmed := TrimEnd(TrimStart(domain));
    var key := LowerCase(trimmed);
    if trimmed != [] {
      assert trimmed[0] == TrimStart(domain)[0];
      assert TrimStart(key) == key && TrimEnd(key) == key;
    }
    assert LowerCase(key) == key;
  }

  lemma NormalIsFixed(domain: string)
    requires IsNormal(domain)
    ensures NormalizeDomain(domain) == Ok(domain)
  {
    hide IsWhitespace, IsNormalChar, IsDomainChar, ToLower;
    forall i | 0 <= i < |domain|
      ensures IsDomainChar(domain[i]) && ToLower(domain[i]) == domain[i] && !IsWhitespace(domain[i])
    {
      NormalChars(domain[i]);
    }
    assert TrimStart(domain) == domain && TrimEnd(domain) == domain;
    assert LowerCase(domain) == domain;
  }

  lemma NormalizedIsNormal(domain: string)
    requires NormalizeDomain(domain).Ok?
    ensures IsNormal(NormalizeDomain(domain).value)
  {
    hide IsWhitespace, IsNormalChar, IsDomainChar, ToLower;
    var trimmed := TrimEnd(TrimStart(domain));
    var key := NormalizeKey(domain);
    forall i | 0 <= i < |key| ensures IsNormalChar(key[i]) {
      assert key[i] == ToLower(trimmed[i]);
      NormalChars(trimmed[i]);
    }
  }

  /** The fixed points of normalisation are the stored names, and it always lands on one. */
  lemma NormalizeFixpoints(domain: string)
    ensures NormalizeDomain(domain) == Ok(domain) <==> IsNormal(domain)
    ensures NormalizeDomain(domain).Ok? ==> IsNormal(NormalizeDomain(domain).value)
  {
    hide *;
    if IsNormal(domain) { NormalIsFixed(domain); }
    if NormalizeDomain(domain).Ok? { NormalizedIsNormal(domain); }
  }

  // Which name a spelling stands for.

  /** The characters by their code points, as the Unicode Standard lists the blanks. */
  lemma CharacterCodes(c: char)
    ensures IsWhitespace(c) <==>
      (9 <= c as int <= 13 || 0x2000 <= c as int <= 0x200A ||
       c as int in {32, 0x85, 0xA0, 0x1680, 0x2028, 0x2029, 0x202F, 0x205F, 0x3000})
    ensures IsDomainChar(c) <==>
      (97 <= c as int <= 122 || 65 <= c as int <= 90 || 48 <= c as int <= 57 || c as int in {45, 46, 95})
  {
  }

  predicate AllBlank(s: string) {
    forall i | 0 <= i < |s| :: IsWhitespace(s[i])
  }

  /** The text neither begins nor ends with a blank. */
  predicate IsCore(core: string) {
    core != [] ==> !IsWhitespace(core[0]) && !IsWhitespace(core[|core| - 1])
  }

  /** The same text, with each of the letters `A` to `Z` moved 32 codes up. */
  predicate IsLowered(core: string, lowered: string) {
    |lowered| == |core| &&
    forall i | 0 <= i < |core| ::
      lowered[i] as int == core[i] as int + if 65 <= core[i] as int <= 90 then 32 else 0
  }

  lemma {:induction false} TrimStartDrops(blanks: string, s: string)
    requires AllBlank(blanks) && (s == [] || !IsWhitespace(s[0]))
    ensures TrimStart(blanks + s) == s
  {
    hide IsWhitespace;
    if blanks == [] {
      assert blanks + s == s;
    } else {
      assert (blanks + s)[1..] == blanks[1..] + s;
      TrimStartDrops(blanks[1..], s);
    }
  }

  lemma {:induction false} TrimEndDrops(s: string, blanks: string)
    requires AllBlank(blanks) && (s == [] || !IsWhitespace(s[|s| - 1]))
    ensures TrimEnd(s + blanks) == s
  {
    hide IsWhitespace;
    if blanks == [] {
      assert s + blanks == s;
    } else {
      var n := |blanks| - 1;
      assert (s + blanks)[..|s + blanks| - 1] == s + blanks[..n];
      TrimEndDrops(s, blanks[..n]);
    }
  }

  lemma TrimsToCore(before: string, core: string, after: string)
    requires AllBlank(before) && AllBlank(after) && IsCore(core)
    ensures TrimEnd(TrimStart(before + core + after)) == core
  {
    hide IsWhitespace, TrimStart, TrimEnd;
    if core == [] {
      assert before + core + after == (before + after) + [];
      TrimStartDrops(before + after, []);
      TrimEndDrops([], []);
      assert [] + [] == core;
    } else {
      assert before + core + after == before + (core + after);
      TrimStartDrops(before, core + after);
      TrimEndDrops(core, after);
    }
  }

  lemma LowerCaseLowers(core: string)
    ensures IsLowered(core, LowerCase(core))
  {
  }

  lemma LoweredDomainChars(core: string, lowered: string)
    requires IsLowered(core, lowered)
    ensures forall i | 0 <= i < |core| :: IsDomainChar(lowered[i]) <==> IsDomainChar(core[i])
  {
    forall i | 0 <= i < |core| ensures IsDomainChar(lowered[i]) <==> IsDomainChar(core[i]) {
      CharacterCodes(core[i]);
      CharacterCodes(lowered[i]);
    }
  }

  /**
   What a spelling stands for: blanks around the name do not count, letters do in
   lower case. Nothing between the blanks is an empty name, and anything else than
   domain characters an invalid one.
   */
  lemma NormalizeReads(before: string, core: string, after: string)
    requires AllBlank(before) && AllBlank(after) && IsCore(core)
    ensures IsLowered(core, NormalizeKey(before + core + after))
    ensures core == [] ==> NormalizeDomain(before + core + after) == Err(EmptyDomain)
    ensures core != [] && (forall i | 0 <= i < |core| :: IsDomainChar(core[i])) ==>
      NormalizeDomain(before + core + after) == Ok(NormalizeKey(before + core + after))
    ensures (exists i | 0 <= i < |core| :: !IsDomainChar(core[i])) ==>
      NormalizeDomain(before + core + after) == Err(InvalidDomain)
  {
    TrimsToCore(before, core, after);
    LowerCaseLowers(core);
    LoweredDomainChars(core, LowerCase(core));
    hide IsWhitespace, IsDomainChar, LowerCase, TrimStart, TrimEnd;
  }

  lemma {:induction false} BlanksBefore(s: string) returns (n: nat)
    ensures n <= |s| && AllBlank(s[..n]) && (n < |s| ==> !IsWhitespace(s[n]))
  {
    hide IsWhitespace;
    n := 0;
    if s != [] && IsWhitespace(s[0]) {
      n := BlanksBefore(s[1..]);
      n := n + 1;
      assert s[..n] == [s[0]] + s[1..][..n - 1];
    }
  }

  lemma {:induction false} BlanksAfter(s: string) returns (n: nat)
    ensures n <= |s| && AllBlank(s[n..]) && (n > 0 ==> !IsWhitespace(s[n - 1]))
  {
    hide IsWhitespace;
    n := |s|;
    if s != [] && IsWhitespace(s[|s| - 1]) {
      var front := s[..|s| - 1];
      n := BlanksAfter(front);
      assert s[n..] == front[n..] + [s[|s| - 1]];
    }
  }

  /** Every text is such a spelling. */
  lemma EveryTextHasACore(domain: string) returns (before: string, core: string, after: string)
    ensures domain == before + core + after && AllBlank(before) && AllBlank(after) && IsCore(core)
  {
    hide IsWhitespace;
    var n := BlanksBefore(domain);
    var rest := domain[n..];
    var m := BlanksAfter(rest);
    before, core, after := domain[..n], rest[..m], rest[m..];
    assert domain == before + rest && rest == core + after;
  }

  // ---------------------------------------------------------------------
  // The file
  // ---------------------------------------------------------------------

  /** What reading the settings file yields. */
  datatype File = Missing | Blocked | Blank | Garbled | Store(version: nat, domains: seq<string>)

  function LoadDomains(domains: seq<string>): Result<set<string>, Failure> {
    if domains == [] then Ok({})
    else
      match NormalizeDomain(domains[0])
      case Err(_) => Err(StoredDomain(domains[0]))
      case Ok(name) =>
        match LoadDomains(domains[1..])
        case Err(e) => Err(e)
        case Ok(rest) => Ok({name} + rest)
  }

  function LoadFile(file: File): Result<set<string>, Failure> {
    match file
    case Missing => Ok({})
    case Blocked => Err(Unreadable)
    case Blank => Ok({})
    case Garbled => Err(Malformed)
    case Store(version, domains) =>
      if version != SETTINGS_VERSION then Err(UnsupportedVersion(version)) else LoadDomains(domains)
  }

  function Elements(domains: seq<string>): set<string> {
    set d | d in domains
  }

  /** The list names exactly the set's members, each once. */
  predicate Lists(domains: seq<string>, s: set<string>) {
    Elements(domains) == s && |domains| == |s|
  }

  ghost predicate AllNormal(s: set<string>) {
    forall d | d in s :: IsNormal(d)
  }

  lemma {:induction false} LoadedAreNormal(domains: seq<string>)
    requires LoadDomains(domains).Ok?
    ensures AllNormal(LoadDomains(domains).value)
  {
    if domains != [] {
      NormalizeFixpoints(domains[0]);
      LoadedAreNormal(domains[1..]);
    }
  }

  lemma {:induction false} NormalDomainsLoad(domains: seq<string>)
    requires AllNormal(Elements(domains))
    ensures LoadDomains(domains) == Ok(Elements(domains))
  {
    if domains == [] {
      assert Elements(domains) == {};
    } else {
      assert domains[0] in Elements(domains);
      NormalizeFixpoints(domains[0]);
      assert Elements(domains) == {domains[0]} + Elements(domains[1..]);
      NormalDomainsLoad(domains[1..]);
    }
  }

  lemma LoadIsNormal(file: File)
    requires LoadFile(file).Ok?
    ensures AllNormal(LoadFile(file).value)
  {
    if file.Store? { LoadedAreNormal(file.domains); }
  }

  lemma {:induction false} LoadDomainsReads(domains: seq<string>)
    ensures LoadDomains(domains).Ok? <==> forall d | d in domains :: NormalizeDomain(d).Ok?
    ensures LoadDomains(domains).Ok? ==>
      forall name :: name in LoadDomains(domains).value <==> exists d | d in domains :: NormalizeDomain(d) == Ok(name)
    ensures LoadDomains(domains).Err? ==>
      exists i | 0 <= i < |domains| ::
        LoadDomains(domains) == Err(StoredDomain(domains[i])) && NormalizeDomain(domains[i]).Err? &&
        forall j | 0 <= j < i :: NormalizeDomain(domains[j]).Ok?
  {
    hide NormalizeDomain;
    if domains != [] {
      var rest := domains[1..];
      LoadDomainsReads(rest);
      assert domains == [domains[0]] + rest;
      if NormalizeDomain(domains[0]).Ok? && LoadDomains(rest).Err? {
        var i :| 0 <= i < |rest| &&
          LoadDomains(rest) == Err(StoredDomain(rest[i])) && NormalizeDomain(rest[i]).Err? &&
          forall j | 0 <= j < i :: NormalizeDomain(rest[j]).Ok?;
        assert rest[i] == domains[i + 1];
        assert forall j | 0 < j < i + 1 :: domains[j] == rest[j - 1];
      }
    }
  }

  /** A missing or blank file is empty; a store of version 1 holds its names, if all of them are names. */
  lemma LoadFileReads(file: File)
    ensures file == Missing || file == Blank ==> LoadFile(file) == Ok({})
    ensures file == Blocked ==> LoadFile(file) == Err(Unreadable)
    ensures file == Garbled ==> LoadFile(file) == Err(Malformed)
    ensures file.Store? && file.version != 1 ==> LoadFile(file) == Err(UnsupportedVersion(file.version))
    ensures file.Store? && file.version == 1 ==>
      (LoadFile(file).Ok? <==> forall d | d in file.domains :: NormalizeDomain(d).Ok?)
    ensures file.Store? && LoadFile(file).Ok? ==>
      forall name :: name in LoadFile(file).value <==> exists d | d in file.domains :: NormalizeDomain(d) == Ok(name)
    ensures file.Store? && file.version == 1 && LoadFile(file).Err? ==>
      exists i | 0 <= i < |file.domains| ::
        LoadFile(file) == Err(StoredDomain(file.domains[i])) && NormalizeDomain(file.domains[i]).Err? &&
        forall j | 0 <= j < i :: NormalizeDomain(file.domains[j]).Ok?
  {
    hide NormalizeDomain;
    if file.Store? { LoadDomainsReads(file.domains); }
  }

  /** Loading what was saved gives back what was saved. */
  lemma LoadAfterSave(domains: seq<string>, s: set<string>)
    requires AllNormal(s) && Lists(domains, s)
    ensures LoadFile(Store(SETTINGS_VERSION, domains)) == Ok(s)
  {
    NormalDomainsLoad(domains);
  }

  // ---------------------------------------------------------------------
  // Mutations
  // ---------------------------------------------------------------------

  datatype Mutation = Enable(domain: string) | Disable(domain: string) | ClearAll

  /** The new set and whether it changed. */
  function Mutate(m: Mutation, s: set<string>): (r: Result<(set<string>, bool), Failure>)
    ensures r.Ok? ==> (r.value.1 <==> r.value.0 != s)
  {
    match m
    case ClearAll => Ok(({}, s != {}))
    case Enable(domain) =>
      (match NormalizeDomain(domain)
       case Err(e) => Err(e)
       case Ok(name) => Ok((s - {name}, name in s)))
    case Disable(domain) =>
      match NormalizeDomain(domain)
      case Err(e) => Err(e)
      case Ok(name) => Ok((s + {name}, name !in s))
  }

  lemma MutateKeepsNormal(m: Mutation, s: set<string>)
    requires AllNormal(s) && Mutate(m, s).Ok?
    ensures AllNormal(Mutate(m, s).value.0)
  {
    if m.Disable? { NormalizeFixpoints(m.domain); }
  }

  predicate IsDisabledIn(s: set<string>, domain: string) {
    NormalizeKey(domain) in s
  }

  /**
   A mutation is seen through every spelling of its domain, and through no other
   name: disabling makes exactly that key disabled, enabling exactly that key enabled.
   */
  lemma MutationIsSeen(m: Mutation, s: set<string>, domain: string)
    ensures Mutate(m, s).Ok? ==>
      (IsDisabledIn(Mutate(m, s).value.0, domain) <==>
        if m.ClearAll? then false
        else if NormalizeKey(domain) == NormalizeKey(m.domain) then m.Disable?
        else IsDisabledIn(s, domain))
    ensures Mutate(m, s).Err? ==> !m.ClearAll? && NormalizeDomain(m.domain) == Err(Mutate(m, s).error)
    ensures !m.ClearAll? && NormalizeDomain(m.domain).Err? ==> Mutate(m, s).Err?
  {
  }

  // ---------------------------------------------------------------------
  // The handle
  // ---------------------------------------------------------------------

  /** The file on disk, shared by every handle. */
  class SettingsFile {
    var content: File

    constructor (content: File)
      ensures this.content == content
    {
      this.content := content;
    }
  }

  /** What an update leaves behind: the file, the handle's copy, the answer. */
  datatype Outcome = Outcome(stored: Result<set<string>, Failure>, memory: set<string>, answer: Result<bool, Failure>)

  function UpdateOutcome(file: File, memory: set<string>, m: Mutation, locked: bool, writable: bool): Outcome {
    var stored := LoadFile(file);
    if !locked then Outcome(stored, memory, Err(LockTimeout))
    else
      match stored
      case Err(e) => Outcome(stored, memory, Err(e))
      case Ok(s) =>
        match Mutate(m, s)
        case Err(e) => Outcome(stored, memory, Err(e))
        case Ok((next, changed)) =>
          if !changed then Outcome(stored, next, Ok(false))
          else if writable then Outcome(Ok(next), next, Ok(true))
          else Outcome(stored, memory, Err(WriteFailed))
  }

  class Settings {
    var disabled: set<string>

    constructor (disabled: set<string>)
      ensures this.disabled == disabled
    {
      this.disabled := disabled;
    }

    predicate IsDisabled(domain: string)
      reads this
    {
      IsDisabledIn(disabled, domain)
    }

    method DisableDomain(domain: string) returns (r: Result<bool, Failure>)
      modifies this
      ensures match Mutate(Disable(domain), old(disabled))
        case Ok((next, changed)) => r == Ok(changed) && disabled == next && IsDisabled(domain)
        case Err(e) => r == Err(e) && disabled == old(disabled)
    {
      var name := NormalizeDomain(domain);
      if name.Err? {
        return Err(name.error);
      }
      r := Ok(name.value !in disabled);
      disabled := disabled + {name.value};
    }

    method EnableDomain(domain: string) returns (r: Result<bool, Failure>)
      modifies this
      ensures match Mutate(Enable(domain), old(disabled))
        case Ok((next, changed)) => r == Ok(changed) && disabled == next && !IsDisabled(domain)
        case Err(e) => r == Err(e) && disabled == old(disabled)
    {
      var name := NormalizeDomain(domain);
      if name.Err? {
        return Err(name.error);
      }
      r := Ok(name.value in disabled);
      disabled := disabled - {name.value};
    }

    method ClearDomains() returns (changed: bool)
      modifies this
      ensures Mutate(ClearAll, old(disabled)) == Ok((disabled, changed))
    {
      if disabled == {} {
        return false;
      }
      disabled := {};
      return true;
    }

    method Run(m: Mutation) returns (r: Result<bool, Failure>)
      modifies this
      ensures match Mutate(m, old(disabled))
        case Ok((next, changed)) => r == Ok(changed) && disabled == next
        case Err(e) => r == Err(e) && disabled == old(disabled)
    {
      match m {
        case Enable(domain) => r := EnableDomain(domain);
        case Disable(domain) => r := DisableDomain(domain);
        case ClearAll =>
          var changed := ClearDomains();
          r := Ok(changed);
      }
    }

    /**
     The transaction under the lock. The file is read again, so the handle's own
     copy, however old, has no part in the result; it is replaced only on success.
     */
    method Update(file: SettingsFile, m: Mutation, locked: bool, writable: bool) returns (r: Result<bool, Failure>)
      modifies this, file
      ensures Outcome(LoadFile(file.content), disabled, r)
           == UpdateOutcome(old(file.content), old(disabled), m, locked, writable)
      ensures r != Ok(true) ==> file.content == old(file.content)
      ensures !locked ==> r == Err(LockTimeout)
      ensures locked && LoadFile(old(file.content)).Err? ==> r == Err(LoadFile(old(file.content)).error)
      ensures r.Err? ==> disabled == old(disabled)
      ensures locked && LoadFile(old(file.content)).Ok? ==>
        var stored := LoadFile(old(file.content)).value;
        match Mutate(m, stored)
        case Err(e) => r == Err(e)
        case Ok((next, _)) =>
          if next == stored then r == Ok(false) && disabled == stored
          else if writable then r == Ok(true) && disabled == next && LoadFile(file.content) == Ok(next)
          else r == Err(WriteFailed)
    {
      if !locked {
        return Err(LockTimeout);
      }
      var loaded := LoadFile(file.content);
      if loaded.Err? {
        return Err(loaded.error);
      }
      var candidate := new Settings(loaded.value);
      var changed := candidate.Run(m);
      if changed.Err? {
        return changed;
      }
      if changed.value {
        if !writable {
          return Err(WriteFailed);
        }
        var domains := ListDomains(candidate.disabled);
        LoadIsNormal(file.content);
        MutateKeepsNormal(m, loaded.value);
        LoadAfterSave(domains, candidate.disabled);
        file.content := Store(SETTINGS_VERSION, domains);
      }
      disabled := candidate.disabled;
      return changed;
    }
  }

  method ListDomains(s: set<string>) returns (domains: seq<string>)
    ensures Lists(domains, s)
  {
    domains := [];
    var rest := s;
    while rest != {}
      invariant rest <= s && Elements(domains) == s - rest && |domains| == |s| - |rest|
      decreases |rest|
    {
      var d :| d in rest;
      ghost var before := domains;
      domains := domains + [d];
      assert Elements(domains) == Elements(before) + {d};
      rest := rest - {d};
    }
  }
}
