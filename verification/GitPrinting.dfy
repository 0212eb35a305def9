/**
 What git prints for a list of status entries, in both porcelain versions, and
 that the parsers read it back. The fields of a version 2 record that the parser
 skips (modes, object names, scores) are arbitrary.
 */
module GitPrinting {
  import opened Wrappers
  import opened Numerals
  import opened GitStatus

  predicate NulFree(text: Bytes) {
    '\0' !in text
  }

  /** An entry as version 1 may report it. */
  predicate Reportable(e: StatusEntry) {
    e.index != '\0' && e.worktree != '\0' && NulFree(e.path) &&
    (e.oldPath.Some? <==> e.index in {'R', 'C'} || e.worktree in {'R', 'C'}) &&
    (e.oldPath.Some? ==> NulFree(e.oldPath.value))
  }

  /** An entry as either version may report it: for version 2 a dot stands for a space. */
  predicate PrintableEntry(e: StatusEntry) {
    Reportable(e) && e.index != '.' && e.worktree != '.'
  }

  function PrintV1(e: StatusEntry): Bytes {
    [e.index, e.worktree] + " " + e.path + ['\0'] + (if e.oldPath.Some? then e.oldPath.value + ['\0'] else [])
  }

  function PrintAllV1(entries: seq<StatusEntry>): Bytes {
    if entries == [] then [] else PrintV1(entries[0]) + PrintAllV1(entries[1..])
  }

  lemma ReadV1Print(e: StatusEntry)
    requires Reportable(e)
    ensures ParseV1(PrintV1(e)) == Ok([e])
  {
    var record := [e.index, e.worktree] + " " + e.path;
    var behind := if e.oldPath.Some? then e.oldPath.value + ['\0'] else [];
    SplitOnceAt(record, '\0', behind);
    assert record[3..] == e.path;
    if e.oldPath.Some? {
      assert behind == e.oldPath.value + ['\0'] + [];
      SplitOnceAt(e.oldPath.value, '\0', []);
    }
    assert ReadV1(PrintV1(e)) == Ok((e, []));
    assert [e] + [] == [e];
  }

  /** Version 1 round trip, for paths with spaces, arrows and newlines alike. */
  lemma {:induction false} V1RoundTrip(entries: seq<StatusEntry>)
    requires forall e | e in entries :: Reportable(e)
    ensures ParseV1(PrintAllV1(entries)) == Ok(entries)
  {
    if entries != [] {
      V1RoundTrip(entries[1..]);
      ReadV1Print(entries[0]);
      ParseV1Concat(PrintV1(entries[0]), PrintAllV1(entries[1..]));
      assert [entries[0]] + entries[1..] == entries;
    }
  }

  // ---------------------------------------------------------------------
  // Version 2
  // ---------------------------------------------------------------------

  /** How git classes an entry, with the fields between the status and the path. */
  datatype Line =
    | Ordinary(skipped: seq<Bytes>)
    | Renamed(skipped: seq<Bytes>)
    | Unmerged(skipped: seq<Bytes>)
    | Untracked
    | Ignored
  {
    /** Only these have a status and fields before the path. */
    predicate Full() {
      !Untracked? && !Ignored?
    }

    function Tag(): char {
      match this
      case Ordinary(_) => '1'
      case Renamed(_) => '2'
      case Unmerged(_) => 'u'
      case Untracked => '?'
      case Ignored => '!'
    }

    function Width(): nat {
      match this
      case Ordinary(_) => 6
      case Renamed(_) => 7
      case Unmerged(_) => 8
      case _ => 0
    }
  }

  predicate PlainField(field: Bytes) {
    ' ' !in field && '\0' !in field
  }

  predicate LineFits(line: Line, e: StatusEntry) {
    (!line.Full() ==> e == StatusEntry(line.Tag(), line.Tag(), e.path, None)) &&
    (line.Renamed? <==> e.oldPath.Some?) &&
    (line.Full() ==> |line.skipped| == line.Width() && forall f | f in line.skipped :: PlainField(f))
  }

  function Dotted(status: char): char {
    if status == ' ' then '.' else status
  }

  /** Fields, each followed by a space. */
  function Spaced(fields: seq<Bytes>): Bytes {
    if fields == [] then [] else fields[0] + [' '] + Spaced(fields[1..])
  }

  function FieldsOf(line: Line, e: StatusEntry): seq<Bytes>
    requires line.Full()
  {
    [[line.Tag()], [Dotted(e.index), Dotted(e.worktree)]] + line.skipped
  }

  function RecordV2(line: Line, e: StatusEntry): Bytes {
    if line.Untracked? then "? " + e.path
    else if line.Ignored? then "! " + e.path
    else Spaced(FieldsOf(line, e)) + e.path
  }

  function PrintV2(line: Line, e: StatusEntry): Bytes {
    RecordV2(line, e) + ['\0'] + (if e.oldPath.Some? then e.oldPath.value + ['\0'] else [])
  }

  /** An entry with the kind of record that git prints for it. */
  datatype Item = Item(line: Line, entry: StatusEntry)

  predicate PrintableItem(item: Item) {
    PrintableEntry(item.entry) && LineFits(item.line, item.entry)
  }

  function Chunk(item: Item): Bytes {
    PrintV2(item.line, item.entry)
  }

  function Flatten(chunks: seq<Bytes>): Bytes {
    if chunks == [] then [] else chunks[0] + Flatten(chunks[1..])
  }

  function PrintAllV2(items: seq<Item>): Bytes {
    Flatten(seq(|items|, i requires 0 <= i < |items| => Chunk(items[i])))
  }

  /** Ignored paths are skipped by version 2, and kept by version 1. */
  function Shown(item: Item): seq<StatusEntry> {
    if item.line.Ignored? then [] else [item.entry]
  }

  function Listed(items: seq<Item>): seq<StatusEntry> {
    if items == [] then [] else Listed(items[..|items| - 1]) + Shown(items[|items| - 1])
  }

  predicate NoneIgnored(items: seq<Item>) {
    forall i | 0 <= i < |items| :: !items[i].line.Ignored?
  }

  function Entries(items: seq<Item>): seq<StatusEntry> {
    seq(|items|, i requires 0 <= i < |items| => items[i].entry)
  }

  lemma SplitNStep(front: Bytes, back: Bytes, n: nat)
    requires ' ' !in front && n >= 2
    ensures SplitN(front + [' '] + back, n, ' ') == [front] + SplitN(back, n - 1, ' ')
  {
    SplitOnceAt(front, ' ', back);
  }

  lemma Regroup(fields: seq<Bytes>, path: Bytes)
    requires fields != []
    ensures Spaced(fields) + path == fields[0] + [' '] + (Spaced(fields[1..]) + path)
    ensures [fields[0]] + (fields[1..] + [path]) == fields + [path]
  {
    SpacedUnfolds(fields);
    hide Spaced;
    Associate(fields[0] + [' '], Spaced(fields[1..]), path);
    Associate([fields[0]], fields[1..], [path]);
    assert [fields[0]] + fields[1..] == fields;
  }

  lemma SpacedUnfolds(fields: seq<Bytes>)
    requires fields != []
    ensures Spaced(fields) == fields[0] + [' '] + Spaced(fields[1..])
  {
  }

  lemma Associate<T>(a: seq<T>, b: seq<T>, c: seq<T>)
    ensures a + b + c == a + (b + c)
  {
  }

  lemma {:induction false} SplitNSpaced(fields: seq<Bytes>, path: Bytes)
    requires forall f | f in fields :: ' ' !in f
    ensures SplitN(Spaced(fields) + path, |fields| + 1, ' ') == fields + [path]
  {
    if fields == [] {
      assert Spaced(fields) + path == path && fields + [path] == [path];
    } else {
      var back := Spaced(fields[1..]) + path;
      SplitNStep(fields[0], back, |fields| + 1);
      SplitNSpaced(fields[1..], path);
      Regroup(fields, path);
    }
  }

  lemma {:induction false} SpacedNulFree(fields: seq<Bytes>)
    requires forall f | f in fields :: NulFree(f)
    ensures NulFree(Spaced(fields))
  {
    if fields != [] {
      assert fields[0] in fields;
      SpacedNulFree(fields[1..]);
    }
  }

  lemma FieldsArePlain(line: Line, e: StatusEntry)
    requires PrintableEntry(e) && LineFits(line, e) && line.Full()
    ensures |FieldsOf(line, e)| == line.Width() + 2
    ensures forall f | f in FieldsOf(line, e) :: PlainField(f)
  {
    forall f | f in FieldsOf(line, e) ensures PlainField(f) {
      if f != [line.Tag()] && f != [Dotted(e.index), Dotted(e.worktree)] { assert f in line.skipped; }
    }
  }

  /** One record reads back as its entry. */
  lemma EntryFromRecord(line: Line, e: StatusEntry)
    requires PrintableEntry(e) && LineFits(line, e) && line.Full()
    ensures ParseV2Entry(RecordV2(line, e), line.Width() + 3, e.oldPath) == Ok(e)
  {
    FieldsArePlain(line, e);
    var fields := FieldsOf(line, e);
    SplitNSpaced(fields, e.path);
    assert (fields + [e.path])[1] == [Dotted(e.index), Dotted(e.worktree)];
  }

  lemma RecordShape(line: Line, e: StatusEntry)
    requires PrintableEntry(e) && LineFits(line, e)
    ensures NulFree(RecordV2(line, e))
    ensures line.Full() ==> RecordV2(line, e) != [] && RecordV2(line, e)[0] == line.Tag()
  {
    if line.Full() {
      FieldsArePlain(line, e);
      SpacedNulFree(FieldsOf(line, e));
      assert Spaced(FieldsOf(line, e))[0] == FieldsOf(line, e)[0][0];
    }
  }

  lemma ReadV2Print(line: Line, e: StatusEntry, snapshot: StatusSnapshot)
    requires PrintableEntry(e) && LineFits(line, e)
    ensures ReadV2(PrintV2(line, e), snapshot) == Ok((Added(snapshot, Shown(Item(line, e))), []))
  {
    var record := RecordV2(line, e);
    var behind := if e.oldPath.Some? then e.oldPath.value + ['\0'] else [];
    RecordShape(line, e);
    SplitOnceAt(record, '\0', behind);
    if !line.Full() {
      assert record[2..] == e.path && snapshot.entries + [] == snapshot.entries;
    } else {
      EntryFromRecord(line, e);
      ReadTagged(PrintV2(line, e), record, behind, snapshot);
      if e.oldPath.Some? {
        assert behind == e.oldPath.value + ['\0'] + [];
        SplitOnceAt(e.oldPath.value, '\0', []);
      }
    }
  }

  /** A tagged record is parsed with the field count of its tag. */
  lemma ReadTagged(raw: Bytes, record: Bytes, rest: Bytes, snapshot: StatusSnapshot)
    requires NextField(raw) == Ok((record, rest)) && record != []
    ensures record[0] == '1' ==> ReadV2(raw, snapshot) == With(Push(snapshot, ParseV2Entry(record, 9, None)), rest)
    ensures record[0] == 'u' ==> ReadV2(raw, snapshot) == With(Push(snapshot, ParseV2Entry(record, 11, None)), rest)
    ensures record[0] == '2' && NextField(rest).Ok? ==>
      var (previous, behind) := NextField(rest).value;
      ReadV2(raw, snapshot) == With(Push(snapshot, ParseV2Entry(record, 10, Some(previous))), behind)
  {
    assert "# "[0] == '#' && "? "[0] == '?' && "! "[0] == '!';
  }

  function Added(snapshot: StatusSnapshot, entries: seq<StatusEntry>): StatusSnapshot {
    snapshot.(entries := snapshot.entries + entries)
  }

  lemma ParseChunk(item: Item, snapshot: StatusSnapshot)
    requires PrintableItem(item)
    ensures ParseV2(Chunk(item), snapshot) == Ok(Added(snapshot, Shown(item)))
  {
    ReadV2Print(item.line, item.entry, snapshot);
    assert Chunk(item) != [];
  }

  /** Accepted chunks in a row take the snapshot through their states. */
  lemma {:induction false} ParseChunks(chunks: seq<Bytes>, states: seq<StatusSnapshot>)
    requires |states| == |chunks| + 1
    requires forall i | 0 <= i < |chunks| :: ParseV2(chunks[i], states[i]) == Ok(states[i + 1])
    ensures ParseV2(Flatten(chunks), states[0]) == Ok(states[|chunks|])
  {
    if chunks != [] {
      assert ParseV2(chunks[0], states[0]) == Ok(states[0 + 1]);
      ParseV2Concat(chunks[0], Flatten(chunks[1..]), states[0]);
      forall i | 0 <= i < |chunks[1..]| ensures ParseV2(chunks[1..][i], states[1..][i]) == Ok(states[1..][i + 1]) {
        assert chunks[1..][i] == chunks[i + 1];
      }
      ParseChunks(chunks[1..], states[1..]);
    }
  }

  /** Version 2 round trip, whatever the skipped fields hold: all but the ignored paths. */
  lemma V2RoundTrip(items: seq<Item>, snapshot: StatusSnapshot)
    requires forall item | item in items :: PrintableItem(item)
    ensures ParseV2(PrintAllV2(items), snapshot) == Ok(Added(snapshot, Listed(items)))
  {
    var chunks := seq(|items|, i requires 0 <= i < |items| => Chunk(items[i]));
    var states := seq(|items| + 1, i requires 0 <= i <= |items| => Added(snapshot, Listed(items[..i])));
    forall i | 0 <= i < |chunks| ensures ParseV2(chunks[i], states[i]) == Ok(states[i + 1]) {
      NextState(items, snapshot, i);
    }
    ParseChunks(chunks, states);
    assert items[..0] == [] && items[..|items|] == items;
    assert snapshot.entries + [] == snapshot.entries;
  }

  lemma NextState(items: seq<Item>, snapshot: StatusSnapshot, i: nat)
    requires i < |items| && PrintableItem(items[i])
    ensures ParseV2(Chunk(items[i]), Added(snapshot, Listed(items[..i]))) == Ok(Added(snapshot, Listed(items[..i + 1])))
  {
    hide ParseV2, Chunk, PrintableItem;
    ParseChunk(items[i], Added(snapshot, Listed(items[..i])));
    assert items[..i + 1][..i] == items[..i];
    assert snapshot.entries + Listed(items[..i]) + Shown(items[i]) == snapshot.entries + Listed(items[..i + 1]);
  }

  lemma {:induction false} ListedIff(items: seq<Item>)
    ensures |Listed(items)| <= |items|
    ensures Listed(items) == Entries(items) <==> NoneIgnored(items)
    ensures |Listed(items)| == |items| ==> NoneIgnored(items)
  {
    if items != [] {
      var front, last := items[..|items| - 1], items[|items| - 1];
      ListedIff(front);
      assert Entries(items) == Entries(front) + [last.entry];
      assert NoneIgnored(items) <==> NoneIgnored(front) && !last.line.Ignored? by {
        assert forall i | 0 <= i < |front| :: items[i] == front[i];
      }
    }
  }

  // ---------------------------------------------------------------------
  // Branch headers
  // ---------------------------------------------------------------------

  /** The header block of `--branch`; `None` stands for a detached head. */
  datatype Branch = Branch(oid: Bytes, head: Option<Bytes>, upstream: Option<Bytes>, counts: Option<(nat, nat)>)

  predicate PrintableBranch(b: Branch) {
    NulFree(b.oid) &&
    (b.head.Some? ==> NulFree(b.head.value)) &&
    (b.upstream.Some? ==> NulFree(b.upstream.value)) &&
    (b.counts.Some? ==> b.counts.value.0 < USIZE_LIMIT && b.counts.value.1 < USIZE_LIMIT)
  }

  function Header(key: Bytes, value: Bytes): Bytes {
    "# " + (key + [' '] + value) + ['\0']
  }

  function PrintBranch(b: Branch): Bytes {
    Header("branch.oid", b.oid) +
    Header("branch.head", if b.head.Some? then b.head.value else "(detached)") +
    (if b.upstream.Some? then Header("branch.upstream", b.upstream.value) else []) +
    (if b.counts.Some? then Header("branch.ab", CountsText(b.counts.value.0, b.counts.value.1)) else [])
  }

  function CountsText(ahead: nat, behind: nat): Bytes {
    (['+'] + Decimal(ahead)) + [' '] + (['-'] + Decimal(behind))
  }

  /** A header alone is parsed as its key and value. */
  lemma HeaderParses(key: Bytes, value: Bytes, snapshot: StatusSnapshot)
    requires NulFree(key) && NulFree(value) && ' ' !in key
    ensures ParseV2(Header(key, value), snapshot) == ParseBranchHeader(key + [' '] + value, snapshot)
    ensures SplitOnce(key + [' '] + value, ' ') == Some((key, value))
  {
    var text := key + [' '] + value;
    var record := "# " + text;
    assert Header(key, value) == record + ['\0'] + [];
    SplitOnceAt(record, '\0', []);
    SplitOnceAt(key, ' ', value);
    assert "# " <= record && record[2..] == text;
    assert ReadV2(Header(key, value), snapshot) == With(ParseBranchHeader(text, snapshot), []);
  }

  lemma {:induction false} DigitsAreDecimal(n: nat)
    ensures IsDecimal(Decimal(n))
  {
    if n >= 10 { DigitsAreDecimal(n / 10); }
  }

  lemma CountRoundTrip(n: nat, prefix: char)
    requires n < USIZE_LIMIT
    ensures ParsePrefixedCount(Some([prefix] + Decimal(n)), prefix) == Ok(n)
    ensures ' ' !in [prefix] + Decimal(n) || prefix == ' '
    ensures NulFree([prefix] + Decimal(n)) || prefix == '\0'
  {
    DigitsAreDecimal(n);
    ValueOfDigits(n, Dec);
    var text := [prefix] + Decimal(n);
    assert text[1..] == Decimal(n);
    assert Decimal(n)[0] in Decimal(n);
  }

  lemma CountsRoundTrip(ahead: nat, behind: nat)
    requires ahead < USIZE_LIMIT && behind < USIZE_LIMIT
    ensures NulFree(CountsText(ahead, behind))
    ensures FirstTwo(CountsText(ahead, behind)) == (['+'] + Decimal(ahead), Some(['-'] + Decimal(behind)))
    ensures ParsePrefixedCount(Some(['+'] + Decimal(ahead)), '+') == Ok(ahead)
    ensures ParsePrefixedCount(Some(['-'] + Decimal(behind)), '-') == Ok(behind)
  {
    CountRoundTrip(ahead, '+');
    CountRoundTrip(behind, '-');
    SplitOnceAt(['+'] + Decimal(ahead), ' ', ['-'] + Decimal(behind));
  }

  lemma KeysDiffer()
    ensures "branch.oid" != "branch.head" && "branch.oid" != "branch.upstream" && "branch.oid" != "branch.ab"
    ensures "branch.upstream" != "branch.head" && "branch.ab" != "branch.head" && "branch.ab" != "branch.upstream"
  {
    assert "branch.oid"[7] == 'o' && "branch.head"[7] == 'h' && "branch.upstream"[7] == 'u' && "branch.ab"[7] == 'a';
  }

  lemma OidEffect(oid: Bytes, snapshot: StatusSnapshot)
    requires NulFree(oid)
    ensures ParseV2(Header("branch.oid", oid), snapshot) == Ok(snapshot)
  {
    HeaderParses("branch.oid", oid, snapshot);
    KeysDiffer();
  }

  lemma HeadEffect(head: Bytes, snapshot: StatusSnapshot)
    requires NulFree(head)
    ensures ParseV2(Header("branch.head", head), snapshot)
         == Ok(if head == "(detached)" then snapshot else snapshot.(branch := Some(head)))
  {
    HeaderParses("branch.head", head, snapshot);
    KeysDiffer();
  }

  lemma UpstreamEffect(upstream: Bytes, snapshot: StatusSnapshot)
    requires NulFree(upstream)
    ensures ParseV2(Header("branch.upstream", upstream), snapshot) == Ok(snapshot.(upstream := Some(upstream)))
  {
    HeaderParses("branch.upstream", upstream, snapshot);
    KeysDiffer();
  }

  lemma CountsEffect(ahead: nat, behind: nat, snapshot: StatusSnapshot)
    requires ahead < USIZE_LIMIT && behind < USIZE_LIMIT
    ensures ParseV2(Header("branch.ab", CountsText(ahead, behind)), snapshot)
         == Ok(snapshot.(ahead := Some(ahead), behind := Some(behind)))
  {
    CountsRoundTrip(ahead, behind);
    HeaderParses("branch.ab", CountsText(ahead, behind), snapshot);
    KeysDiffer();
  }

  function Described(b: Branch): StatusSnapshot {
    StatusSnapshot(
      b.head, b.upstream,
      if b.counts.Some? then Some(b.counts.value.0) else None,
      if b.counts.Some? then Some(b.counts.value.1) else None,
      [])
  }

  /** Git prints a branch of the name `(detached)` as it prints a detached head. */
  function AsRead(b: Branch): Branch {
    if b.head == Some("(detached)") then b.(head := None) else b
  }

  /** The headers read back, exactly unless the branch has that name. */
  lemma BranchRoundTrip(b: Branch)
    requires PrintableBranch(b)
    ensures ParseV2(PrintBranch(b), EMPTY_SNAPSHOT) == Ok(Described(AsRead(b)))
    ensures ParseV2(PrintBranch(b), EMPTY_SNAPSHOT) == Ok(Described(b)) <==> b.head != Some("(detached)")
  {
    var h1 := Header("branch.oid", b.oid);
    var h2 := Header("branch.head", if b.head.Some? then b.head.value else "(detached)");
    var h3 := if b.upstream.Some? then Header("branch.upstream", b.upstream.value) else [];
    var h4 := if b.counts.Some? then Header("branch.ab", CountsText(b.counts.value.0, b.counts.value.1)) else [];
    var s2 := EMPTY_SNAPSHOT.(branch := AsRead(b).head);
    var s3 := s2.(upstream := b.upstream);
    OidEffect(b.oid, EMPTY_SNAPSHOT);
    HeadEffect(if b.head.Some? then b.head.value else "(detached)", EMPTY_SNAPSHOT);
    ParseV2Concat(h1, h2, EMPTY_SNAPSHOT);
    if b.upstream.Some? { UpstreamEffect(b.upstream.value, s2); }
    ParseV2Concat(h1 + h2, h3, EMPTY_SNAPSHOT);
    if b.counts.Some? { CountsEffect(b.counts.value.0, b.counts.value.1, s3); }
    ParseV2Concat(h1 + h2 + h3, h4, EMPTY_SNAPSHOT);
  }

  /**
   The whole `--branch` output reads back: the branch headers and the entries. The
   two formats agree exactly on the lists without ignored paths.
   */
  lemma BothFormatsAgree(b: Branch, items: seq<Item>)
    requires PrintableBranch(b)
    requires forall item | item in items :: PrintableItem(item)
    ensures
      ParseV2(PrintBranch(b) + PrintAllV2(items), EMPTY_SNAPSHOT) == Ok(Added(Described(AsRead(b)), Listed(items)))
    ensures ParseV1(PrintAllV1(Entries(items))) == Ok(Entries(items))
    ensures Listed(items) == Entries(items) <==> NoneIgnored(items)
  {
    ListedIff(items);
    BranchRoundTrip(b);
    ParseV2Concat(PrintBranch(b), PrintAllV2(items), EMPTY_SNAPSHOT);
    V2RoundTrip(items, Described(AsRead(b)));
    forall e | e in Entries(items) ensures PrintableEntry(e) {
      var i :| 0 <= i < |items| && Entries(items)[i] == e;
      assert PrintableItem(items[i]);
    }
    V1RoundTrip(Entries(items));
  }

  // ---------------------------------------------------------------------
  // Counts
  // ---------------------------------------------------------------------

  datatype StatusCounts = StatusCounts(staged: nat, unstaged: nat, untracked: nat)

  predicate IsUntracked(e: StatusEntry) {
    e.index == '?' && e.worktree == '?'
  }

  ghost function Positions(entries: seq<StatusEntry>, p: StatusEntry -> bool): set<int> {
    set i | 0 <= i < |entries| && p(entries[i])
  }

  /** Each count is the number of entries of its kind. */
  method CountStatuses(entries: seq<StatusEntry>) returns (counts: StatusCounts)
    ensures counts.untracked == |Positions(entries, IsUntracked)|
    ensures counts.staged == |Positions(entries, e => !IsUntracked(e) && e.index != ' ')|
    ensures counts.unstaged == |Positions(entries, e => !IsUntracked(e) && e.worktree != ' ')|
  {
    ghost var isStaged := (e: StatusEntry) => !IsUntracked(e) && e.index != ' ';
    ghost var isUnstaged := (e: StatusEntry) => !IsUntracked(e) && e.worktree != ' ';
    counts := StatusCounts(0, 0, 0);
    for n := 0 to |entries|
      invariant counts.untracked == |Positions(entries[..n], IsUntracked)|
      invariant counts.staged == |Positions(entries[..n], isStaged)|
      invariant counts.unstaged == |Positions(entries[..n], isUnstaged)|
    {
      var entry := entries[n];
      PositionsGrow(entries, n, IsUntracked);
      PositionsGrow(entries, n, isStaged);
      PositionsGrow(entries, n, isUnstaged);
      if entry.index == '?' && entry.worktree == '?' {
        counts := counts.(untracked := counts.untracked + 1);
        continue;
      }
      if entry.index != ' ' {
        counts := counts.(staged := counts.staged + 1);
      }
      if entry.worktree != ' ' {
        counts := counts.(unstaged := counts.unstaged + 1);
      }
    }
    assert entries[..|entries|] == entries;
  }

  lemma PositionsGrow(entries: seq<StatusEntry>, n: nat, p: StatusEntry -> bool)
    requires n < |entries|
    ensures |Positions(entries[..n + 1], p)| == |Positions(entries[..n], p)| + if p(entries[n]) then 1 else 0
  {
    assert Positions(entries[..n + 1], p) == Positions(entries[..n], p) + if p(entries[n]) then {n} else {};
  }
}
