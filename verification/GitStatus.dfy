/**
 The NUL-delimited git status parsers, after git-status(1), "Porcelain Format
 Version 1", "Porcelain Format Version 2" and "Pathname Format Notes and -z".
 A byte is written as the character with its code; paths stay bytes.
 */
module GitStatus {
  import opened Wrappers
  import opened Numerals

  type Bytes = string

  datatype StatusEntry = StatusEntry(index: char, worktree: char, path: Bytes, oldPath: Option<Bytes>)

  datatype StatusSnapshot = StatusSnapshot(
    branch: Option<Bytes>,
    upstream: Option<Bytes>,
    ahead: Option<nat>,
    behind: Option<nat>,
    entries: seq<StatusEntry>)

  const EMPTY_SNAPSHOT := StatusSnapshot(None, None, None, None, [])

  datatype StatusError =
    | MissingNul
    | ShortEntry
    | HeaderWithoutValue
    | MissingCount
    | BadCountPrefix
    | BadCount
    | BadFields
    | UnknownRecord

  // ---------------------------------------------------------------------
  // Splitting
  // ---------------------------------------------------------------------

  /** `split_once_byte`: around the first separator. */
  function SplitOnce(value: Bytes, separator: char): (r: Option<(Bytes, Bytes)>)
    ensures r.Some? ==> value == r.value.0 + [separator] + r.value.1 && separator !in r.value.0
    ensures r.None? <==> separator !in value
  {
    if value == [] then None
    else if value[0] == separator then Some(([], value[1..]))
    else
      match SplitOnce(value[1..], separator)
      case None => None
      case Some((front, back)) =>
        assert value == [value[0]] + value[1..];
        Some(([value[0]] + front, back))
  }

  lemma {:induction false} SplitOnceAt(front: Bytes, separator: char, back: Bytes)
    requires separator !in front
    ensures SplitOnce(front + [separator] + back, separator) == Some((front, back))
  {
    var value := front + [separator] + back;
    if front == [] {
      assert value[1..] == back;
    } else {
      assert value[0] == front[0] && value[1..] == front[1..] + [separator] + back;
      SplitOnceAt(front[1..], separator, back);
      assert front == [front[0]] + front[1..];
    }
  }

  /** `splitn`: at most `n` fields, the last one unsplit. */
  function SplitN(value: Bytes, n: nat, separator: char): (fields: seq<Bytes>)
    requires n > 0
    ensures 1 <= |fields| <= n
    decreases n
  {
    if n == 1 then [value]
    else
      match SplitOnce(value, separator)
      case None => [value]
      case Some((front, back)) => [front] + SplitN(back, n - 1, separator)
  }

  /** `next_nul_field`: a field ends at a NUL. */
  function NextField(raw: Bytes): Result<(Bytes, Bytes), StatusError> {
    match SplitOnce(raw, '\0')
    case None => Err(MissingNul)
    case Some(split) => Ok(split)
  }

  // ---------------------------------------------------------------------
  // Version 1
  // ---------------------------------------------------------------------

  predicate Moves(status: char) {
    status == 'R' || status == 'C'
  }

  /** One version 1 entry and the bytes behind it. */
  function ReadV1(raw: Bytes): (r: Result<(StatusEntry, Bytes), StatusError>)
    ensures r.Ok? ==> |r.value.1| < |raw|
  {
    match NextField(raw)
    case Err(e) => Err(e)
    case Ok((record, rest)) =>
      if |record| < 3 || record[2] != ' ' then Err(ShortEntry)
      else if Moves(record[0]) || Moves(record[1]) then
        match NextField(rest)
        case Err(e) => Err(e)
        case Ok((previous, rest')) => Ok((StatusEntry(record[0], record[1], record[3..], Some(previous)), rest'))
      else Ok((StatusEntry(record[0], record[1], record[3..], None), rest))
  }

  function ParseV1(raw: Bytes): Parsed
    decreases |raw|
  {
    if raw == [] then Ok([])
    else
      match ReadV1(raw)
      case Err(e) => Err(e)
      case Ok((entry, rest)) => Prepend(entry, ParseV1(rest))
  }

  type Parsed = Result<seq<StatusEntry>, StatusError>

  function Prepend(entry: StatusEntry, more: Parsed): Parsed {
    match more
    case Err(e) => Err(e)
    case Ok(entries) => Ok([entry] + entries)
  }

  function PrependAll(entries: seq<StatusEntry>, more: Parsed): Parsed {
    match more
    case Err(e) => Err(e)
    case Ok(rest) => Ok(entries + rest)
  }

  method ReadField(raw: Bytes, cursor: nat) returns (result: Result<Bytes, StatusError>, next: nat)
    requires cursor <= |raw|
    ensures next <= |raw|
    ensures result.Err? ==> NextField(raw[cursor..]) == Err(result.error)
    ensures result.Ok? ==> cursor < next && NextField(raw[cursor..]) == Ok((result.value, raw[next..]))
  {
    var end := cursor;
    while end < |raw| && raw[end] != '\0'
      invariant cursor <= end <= |raw|
      invariant forall i | cursor <= i < end :: raw[i] != '\0'
    {
      end := end + 1;
    }
    if end == |raw| {
      assert '\0' !in raw[cursor..];
      return Err(MissingNul), end;
    }
    FieldUpTo(raw, cursor, end);
    return Ok(raw[cursor..end]), end + 1;
  }

  lemma FieldUpTo(raw: Bytes, cursor: nat, end: nat)
    requires cursor <= end < |raw| && raw[end] == '\0' && forall i | cursor <= i < end :: raw[i] != '\0'
    ensures NextField(raw[cursor..]) == Ok((raw[cursor..end], raw[end + 1..]))
  {
    assert raw[cursor..] == raw[cursor..end] + ['\0'] + raw[end + 1..];
    SplitOnceAt(raw[cursor..end], '\0', raw[end + 1..]);
  }

  method ParsePorcelainV1(raw: Bytes) returns (result: Parsed)
    ensures result == ParseV1(raw)
  {
    var cursor := 0;
    var entries: seq<StatusEntry> := [];
    PrependNone(ParseV1(raw));
    assert raw[0..] == raw;
    while cursor < |raw|
      invariant cursor <= |raw|
      invariant PrependAll(entries, ParseV1(raw[cursor..])) == ParseV1(raw)
      decreases |raw| - cursor
    {
      var start := raw[cursor..];
      var record, next := ReadField(raw, cursor);
      if record.Err? {
        return Err(record.error);
      }
      if |record.value| < 3 || record.value[2] != ' ' {
        return Err(ShortEntry);
      }
      var index, worktree, oldPath := record.value[0], record.value[1], None;
      if Moves(index) || Moves(worktree) {
        var previous, afterOld := ReadField(raw, next);
        if previous.Err? {
          return Err(previous.error);
        }
        oldPath, next := Some(previous.value), afterOld;
      }
      var entry := StatusEntry(index, worktree, record.value[3..], oldPath);
      assert ReadV1(start) == Ok((entry, raw[next..]));
      PrependOneMore(entries, entry, ParseV1(raw[next..]));
      entries := entries + [entry];
      cursor := next;
    }
    assert raw[cursor..] == [];
    assert entries + [] == entries;
    return Ok(entries);
  }

  lemma PrependNone(more: Parsed)
    ensures PrependAll([], more) == more
  {
    if more.Ok? { assert [] + more.value == more.value; }
  }

  lemma PrependOneMore(entries: seq<StatusEntry>, entry: StatusEntry, more: Parsed)
    ensures PrependAll(entries, Prepend(entry, more)) == PrependAll(entries + [entry], more)
  {
    if more.Ok? { assert entries + ([entry] + more.value) == entries + [entry] + more.value; }
  }

  /** More input behind a field does not change the field. */
  lemma NextFieldConcat(a: Bytes, b: Bytes)
    requires NextField(a).Ok?
    ensures NextField(a + b) == Ok((NextField(a).value.0, NextField(a).value.1 + b))
  {
    var (field, rest) := NextField(a).value;
    assert a + b == field + ['\0'] + (rest + b);
    SplitOnceAt(field, '\0', rest + b);
  }

  lemma ReadV1Concat(a: Bytes, b: Bytes)
    requires ReadV1(a).Ok?
    ensures ReadV1(a + b) == Ok((ReadV1(a).value.0, ReadV1(a).value.1 + b))
  {
    NextFieldConcat(a, b);
    var (record, rest) := NextField(a).value;
    if Moves(record[0]) || Moves(record[1]) {
      NextFieldConcat(rest, b);
    }
  }

  /** Version 1 parsing distributes over concatenation behind any accepted input. */
  lemma {:induction false} ParseV1Concat(a: Bytes, b: Bytes)
    requires ParseV1(a).Ok?
    ensures ParseV1(a + b) == PrependAll(ParseV1(a).value, ParseV1(b))
    decreases |a|
  {
    if a == [] {
      assert a + b == b;
      assert ParseV1(b).Ok? ==> [] + ParseV1(b).value == ParseV1(b).value;
    } else {
      ReadV1Concat(a, b);
      var (entry, rest) := ReadV1(a).value;
      ParseV1Concat(rest, b);
      assert ParseV1(b).Ok? ==>
        [entry] + (ParseV1(rest).value + ParseV1(b).value) == ParseV1(a).value + ParseV1(b).value;
    }
  }

  predicate EndsInNul(raw: Bytes) {
    raw == [] || raw[|raw| - 1] == '\0'
  }

  lemma NextFieldEnds(raw: Bytes)
    requires NextField(raw).Ok? && EndsInNul(NextField(raw).value.1)
    ensures EndsInNul(raw)
  {
  }

  /** Accepted input is empty or ends in a NUL. */
  lemma {:induction false} ParseV1Terminated(raw: Bytes)
    requires ParseV1(raw).Ok?
    ensures EndsInNul(raw)
    decreases |raw|
  {
    if raw != [] {
      var (entry, rest) := ReadV1(raw).value;
      ParseV1Terminated(rest);
      if entry.oldPath.Some? {
        NextFieldEnds(NextField(raw).value.1);
      }
      NextFieldEnds(raw);
    }
  }

  // ---------------------------------------------------------------------
  // Version 2
  // ---------------------------------------------------------------------

  const USIZE_LIMIT: nat := 0x1_0000_0000_0000_0000

  predicate IsDecimal(text: Bytes) {
    text != [] && forall c | c in text :: '0' <= c <= '9'
  }

  /** `usize::from_str`: digits after an optional plus, within 64 bits. */
  function ParseUsize(text: Bytes): Option<nat> {
    var digits := if text != [] && text[0] == '+' then text[1..] else text;
    if IsDecimal(digits) && Value(digits, Dec) < USIZE_LIMIT then Some(Value(digits, Dec)) else None
  }

  function ParsePrefixedCount(value: Option<Bytes>, prefix: char): Result<nat, StatusError> {
    match value
    case None => Err(MissingCount)
    case Some(text) =>
      if text == [] || text[0] != prefix then Err(BadCountPrefix)
      else
        match ParseUsize(text[1..])
        case None => Err(BadCount)
        case Some(n) => Ok(n)
  }

  /** The first two fields of a space-separated value. */
  function FirstTwo(value: Bytes): (Bytes, Option<Bytes>) {
    match SplitOnce(value, ' ')
    case None => (value, None)
    case Some((first, back)) =>
      (first, Some(match SplitOnce(back, ' ') case None => back case Some((second, _)) => second))
  }

  function ParseBranchHeader(header: Bytes, snapshot: StatusSnapshot): Result<StatusSnapshot, StatusError> {
    match SplitOnce(header, ' ')
    case None => Err(HeaderWithoutValue)
    case Some((key, value)) =>
      if key == "branch.head" && value != "(detached)" then Ok(snapshot.(branch := Some(value)))
      else if key == "branch.upstream" then Ok(snapshot.(upstream := Some(value)))
      else if key == "branch.ab" then
        var (first, second) := FirstTwo(value);
        match (ParsePrefixedCount(Some(first), '+'), ParsePrefixedCount(second, '-'))
        case (Err(e), _) => Err(e)
        case (_, Err(e)) => Err(e)
        case (Ok(ahead), Ok(behind)) => Ok(snapshot.(ahead := Some(ahead), behind := Some(behind)))
      else Ok(snapshot)
  }

  function Normalize(status: char): char {
    if status == '.' then ' ' else status
  }

  function ParseV2Entry(record: Bytes, fieldCount: nat, oldPath: Option<Bytes>): Result<StatusEntry, StatusError>
    requires fieldCount >= 2
  {
    var fields := SplitN(record, fieldCount, ' ');
    if |fields| != fieldCount || |fields[1]| != 2 then Err(BadFields)
    else Ok(StatusEntry(Normalize(fields[1][0]), Normalize(fields[1][1]), fields[fieldCount - 1], oldPath))
  }

  function Push(snapshot: StatusSnapshot, entry: Result<StatusEntry, StatusError>):
    Result<StatusSnapshot, StatusError>
  {
    match entry
    case Err(e) => Err(e)
    case Ok(value) => Ok(snapshot.(entries := snapshot.entries + [value]))
  }

  /** One version 2 record, with its old path, and the bytes behind it. */
  function ReadV2(raw: Bytes, snapshot: StatusSnapshot): (r: Result<(StatusSnapshot, Bytes), StatusError>)
    ensures r.Ok? ==> |r.value.1| < |raw|
  {
    match NextField(raw)
    case Err(e) => Err(e)
    case Ok((record, rest)) =>
      if "# " <= record then With(ParseBranchHeader(record[2..], snapshot), rest)
      else if "? " <= record then
        Ok((snapshot.(entries := snapshot.entries + [StatusEntry('?', '?', record[2..], None)]), rest))
      else if "! " <= record then Ok((snapshot, rest))
      else if record == [] then Err(UnknownRecord)
      else if record[0] == '1' then With(Push(snapshot, ParseV2Entry(record, 9, None)), rest)
      else if record[0] == '2' then
        match NextField(rest)
        case Err(e) => Err(e)
        case Ok((previous, rest')) => With(Push(snapshot, ParseV2Entry(record, 10, Some(previous))), rest')
      else if record[0] == 'u' then With(Push(snapshot, ParseV2Entry(record, 11, None)), rest)
      else Err(UnknownRecord)
  }

  function With(snapshot: Result<StatusSnapshot, StatusError>, rest: Bytes)
      : (r: Result<(StatusSnapshot, Bytes), StatusError>)
    ensures r.Ok? <==> snapshot.Ok?
    ensures r.Ok? ==> r.value == (snapshot.value, rest)
  {
    match snapshot
    case Err(e) => Err(e)
    case Ok(value) => Ok((value, rest))
  }

  function ParseV2(raw: Bytes, snapshot: StatusSnapshot): Result<StatusSnapshot, StatusError>
    decreases |raw|
  {
    if raw == [] then Ok(snapshot)
    else
      match ReadV2(raw, snapshot)
      case Err(e) => Err(e)
      case Ok((snapshot', rest)) => ParseV2(rest, snapshot')
  }

  method ParsePorcelainV2(raw: Bytes) returns (result: Result<StatusSnapshot, StatusError>)
    ensures result == ParseV2(raw, EMPTY_SNAPSHOT)
  {
    var cursor := 0;
    var snapshot := EMPTY_SNAPSHOT;
    assert raw[0..] == raw;
    while cursor < |raw|
      invariant cursor <= |raw|
      invariant ParseV2(raw[cursor..], snapshot) == ParseV2(raw, EMPTY_SNAPSHOT)
      decreases |raw| - cursor
    {
      var field, next := ReadField(raw, cursor);
      if field.Err? {
        return Err(field.error);
      }
      var record := field.value;
      var updated;
      if "# " <= record {
        updated := ParseBranchHeader(record[2..], snapshot);
      } else if "? " <= record {
        updated := Ok(snapshot.(entries := snapshot.entries + [StatusEntry('?', '?', record[2..], None)]));
      } else if "! " <= record {
        updated := Ok(snapshot);
      } else if record == [] {
        updated := Err(UnknownRecord);
      } else if record[0] == '1' {
        updated := Push(snapshot, ParseV2Entry(record, 9, None));
      } else if record[0] == '2' {
        var previous, afterOld := ReadField(raw, next);
        if previous.Err? {
          return Err(previous.error);
        }
        updated := Push(snapshot, ParseV2Entry(record, 10, Some(previous.value)));
        next := afterOld;
      } else if record[0] == 'u' {
        updated := Push(snapshot, ParseV2Entry(record, 11, None));
      } else {
        updated := Err(UnknownRecord);
      }
      if updated.Err? {
        return Err(updated.error);
      }
      assert ReadV2(raw[cursor..], snapshot) == Ok((updated.value, raw[next..]));
      snapshot := updated.value;
      cursor := next;
    }
    assert raw[cursor..] == [];
    return Ok(snapshot);
  }

  lemma ReadV2Concat(a: Bytes, b: Bytes, snapshot: StatusSnapshot)
    requires ReadV2(a, snapshot).Ok?
    ensures ReadV2(a + b, snapshot) == Ok((ReadV2(a, snapshot).value.0, ReadV2(a, snapshot).value.1 + b))
  {
    NextFieldConcat(a, b);
    var (record, rest) := NextField(a).value;
    if NextField(rest).Ok? {
      NextFieldConcat(rest, b);
    }
  }

  /** Version 2 parsing continues, behind any accepted input, from where that left off. */
  lemma {:induction false} ParseV2Concat(a: Bytes, b: Bytes, snapshot: StatusSnapshot)
    requires ParseV2(a, snapshot).Ok?
    ensures ParseV2(a + b, snapshot) == ParseV2(b, ParseV2(a, snapshot).value)
    decreases |a|
  {
    if a == [] {
      assert a + b == b;
    } else {
      ReadV2Concat(a, b, snapshot);
      var (snapshot', rest) := ReadV2(a, snapshot).value;
      ParseV2Concat(rest, b, snapshot');
    }
  }

  lemma ReadV2Ends(raw: Bytes, snapshot: StatusSnapshot)
    requires ReadV2(raw, snapshot).Ok? && EndsInNul(ReadV2(raw, snapshot).value.1)
    ensures EndsInNul(raw)
  {
    var (record, behind) := NextField(raw).value;
    if ReadV2(raw, snapshot).value.1 != behind {
      NextFieldEnds(behind);
    }
    NextFieldEnds(raw);
  }

  lemma {:induction false} ParseV2Terminated(raw: Bytes, snapshot: StatusSnapshot)
    requires ParseV2(raw, snapshot).Ok?
    ensures EndsInNul(raw)
    decreases |raw|
  {
    if raw != [] {
      var (snapshot', rest) := ReadV2(raw, snapshot).value;
      ParseV2Terminated(rest, snapshot');
      ReadV2Ends(raw, snapshot);
    }
  }
}
