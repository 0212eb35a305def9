/**
 What the git status parsers accept and refuse: version 1 exactly the printed
 lists, version 2 record by record and header by header.
 */
module GitGrammar {
  import opened Wrappers
  import opened Numerals
  import opened GitStatus
  import opened GitPrinting

  // ---------------------------------------------------------------------
  // Version 1
  // ---------------------------------------------------------------------

  lemma ReadV1IsPrinted(raw: Bytes)
    requires ReadV1(raw).Ok?
    ensures var (entry, rest) := ReadV1(raw).value; Reportable(entry) && raw == PrintV1(entry) + rest
  {
    var (record, behind) := NextField(raw).value;
    assert record[0] in record && record[1] in record;
    assert record == [record[0], record[1]] + " " + record[3..];
    assert NulFree(record[3..]) by { forall c | c in record[3..] ensures c in record {} }
    var (entry, rest) := ReadV1(raw).value;
    if entry.oldPath.Some? {
      var previous := NextField(behind).value.0;
      assert record + ['\0'] + (previous + ['\0'] + rest) == record + ['\0'] + (previous + ['\0']) + rest;
    } else {
      assert record + ['\0'] + rest == record + ['\0'] + [] + rest;
    }
  }

  lemma {:induction false} V1IsPrinted(raw: Bytes)
    requires ParseV1(raw).Ok?
    ensures raw == PrintAllV1(ParseV1(raw).value) && forall e | e in ParseV1(raw).value :: Reportable(e)
    decreases |raw|
  {
    if raw != [] {
      ReadV1IsPrinted(raw);
      hide ReadV1, PrintV1, Reportable;
      var (entry, rest) := ReadV1(raw).value;
      V1IsPrinted(rest);
      var entries := ParseV1(rest).value;
      assert ([entry] + entries)[1..] == entries;
    }
  }

  /** Version 1 output is read as a list of entries exactly when it is that list printed. */
  lemma V1Exact(raw: Bytes, entries: seq<StatusEntry>)
    ensures ParseV1(raw) == Ok(entries) <==> raw == PrintAllV1(entries) && forall e | e in entries :: Reportable(e)
  {
    hide ParseV1, PrintAllV1, Reportable;
    if ParseV1(raw) == Ok(entries) { V1IsPrinted(raw); }
    if raw == PrintAllV1(entries) && forall e | e in entries :: Reportable(e) { V1RoundTrip(entries); }
  }

  /** The three ways in which a record is refused. */
  lemma V1Refuses(record: Bytes, rest: Bytes)
    requires NulFree(record)
    ensures record != [] ==> ParseV1(record) == Err(MissingNul)
    ensures |record| < 3 || record[2] != ' ' ==> ParseV1(record + ['\0'] + rest) == Err(ShortEntry)
    ensures |record| >= 3 && record[2] == ' ' && NulFree(rest) ==>
      (record[0] in {'R', 'C'} || record[1] in {'R', 'C'} ==> ParseV1(record + ['\0'] + rest) == Err(MissingNul))
  {
    SplitOnceAt(record, '\0', rest);
  }

  // ---------------------------------------------------------------------
  // Version 2: headers
  // ---------------------------------------------------------------------

  /** A header without a value is refused; one that is not of the branch says nothing. */
  lemma HeadersRead(key: Bytes, value: Bytes, snapshot: StatusSnapshot)
    requires NulFree(key) && NulFree(value) && ' ' !in key
    ensures ParseV2("# " + key + ['\0'], snapshot) == Err(HeaderWithoutValue)
    ensures key !in {"branch.head", "branch.upstream", "branch.ab"} ==>
      ParseV2(Header(key, value), snapshot) == Ok(snapshot)
  {
    HeaderParses(key, value, snapshot);
    var record := "# " + key;
    SplitOnceAt(record, '\0', []);
    assert record + ['\0'] == record + ['\0'] + [];
    assert record[2..] == key;
    assert ReadV2(record + ['\0'], snapshot) == With(ParseBranchHeader(key, snapshot), []);
  }

  /** The text is the sign and a number of at most 64 bits, perhaps with a plus of its own. */
  ghost predicate IsCount(text: Bytes, sign: char, n: nat) {
    exists digits | digits != [] && AreDigits(digits, 10) && Value(digits, Dec) == n ::
      n < 0x1_0000_0000_0000_0000 && (text == [sign] + digits || text == [sign, '+'] + digits)
  }

  lemma DigitRange(c: char)
    ensures c in DIGITS[..10] <==> '0' <= c <= '9'
  {
    assert DIGITS[..10] == "0123456789";
    if '0' <= c <= '9' {
      var d := (c - '0') as int;
      DigitIs(d);
      assert DIGITS[d] == "0123456789"[d];
    }
  }

  lemma DecimalDigits(digits: Bytes)
    ensures IsDecimal(digits) <==> digits != [] && AreDigits(digits, 10)
  {
    forall c ensures c in DIGITS[..10] <==> '0' <= c <= '9' { DigitRange(c); }
    InDigits(digits);
  }

  lemma InDigits(digits: Bytes)
    requires forall c :: c in DIGITS[..10] <==> '0' <= c <= '9'
    ensures IsDecimal(digits) <==> digits != [] && AreDigits(digits, 10)
  {
    if IsDecimal(digits) {
      forall i | 0 <= i < |digits| ensures digits[i] in DIGITS[..10] { assert digits[i] in digits; }
    }
    if digits != [] && AreDigits(digits, 10) {
      forall c | c in digits ensures '0' <= c <= '9' {
        var i :| 0 <= i < |digits| && digits[i] == c;
        assert digits[i] in DIGITS[..10];
      }
    }
  }

  lemma CountIs(text: Bytes, sign: char, n: nat)
    ensures ParsePrefixedCount(Some(text), sign) == Ok(n) <==> IsCount(text, sign, n)
  {
    if ParsePrefixedCount(Some(text), sign) == Ok(n) { ParsedIsCount(text, sign, n); }
    if IsCount(text, sign, n) { CountIsParsed(text, sign, n); }
  }

  lemma ParsedIsCount(text: Bytes, sign: char, n: nat)
    requires ParsePrefixedCount(Some(text), sign) == Ok(n)
    ensures IsCount(text, sign, n)
  {
    var digits := if |text| > 1 && text[1] == '+' then text[2..] else text[1..];
    assert text == [sign] + text[1..];
    assert |text| > 1 && text[1] == '+' ==> text[1..][1..] == digits && text == [sign, '+'] + digits;
    DecimalDigits(digits);
    hide Value, AreDigits, IsDecimal;
    assert AreDigits(digits, 10) && Value(digits, Dec) == n;
  }

  lemma CountIsParsed(text: Bytes, sign: char, n: nat)
    requires IsCount(text, sign, n)
    ensures ParsePrefixedCount(Some(text), sign) == Ok(n)
  {
    var digits :| digits != [] && AreDigits(digits, 10) && Value(digits, Dec) == n &&
      n < 0x1_0000_0000_0000_0000 && (text == [sign] + digits || text == [sign, '+'] + digits);
    DecimalDigits(digits);
    assert digits[0] in digits && digits[0] != '+';
    hide Value, AreDigits, IsDecimal;
    if text == [sign] + digits {
      assert text[1..] == digits;
    } else {
      assert text[1..] == ['+'] + digits && text[1..][1..] == digits;
    }
  }

  /** What is wrong with a text that is no count. */
  lemma CountRefused(text: Bytes, sign: char)
    requires !exists n :: IsCount(text, sign, n)
    ensures ParsePrefixedCount(Some(text), sign) ==
      Err(if text == [] || text[0] != sign then BadCountPrefix else BadCount)
  {
    if ParsePrefixedCount(Some(text), sign).Ok? {
      CountIs(text, sign, ParsePrefixedCount(Some(text), sign).value);
    }
  }

  lemma FirstTwoAre(first: Bytes, second: Bytes, more: Bytes)
    requires ' ' !in first && ' ' !in second && (more != [] ==> more[0] == ' ')
    ensures FirstTwo(first) == (first, None)
    ensures FirstTwo(first + [' '] + (second + more)) == (first, Some(second))
  {
    SplitOnceAt(first, ' ', second + more);
    if more == [] {
      assert second + more == second;
    } else {
      assert second + more == second + [' '] + more[1..];
      SplitOnceAt(second, ' ', more[1..]);
    }
  }

  /** What the two counts make of the snapshot. */
  function Counted(
    ahead: Result<nat, StatusError>, behind: Result<nat, StatusError>, snapshot: StatusSnapshot)
      : Result<StatusSnapshot, StatusError>
  {
    if ahead.Err? then Err(ahead.error)
    else if behind.Err? then Err(behind.error)
    else Ok(snapshot.(ahead := Some(ahead.value), behind := Some(behind.value)))
  }

  lemma CountsHeader(value: Bytes, first: Bytes, second: Option<Bytes>, snapshot: StatusSnapshot)
    requires NulFree(value) && FirstTwo(value) == (first, second)
    ensures ParseV2(Header("branch.ab", value), snapshot) ==
      Counted(ParsePrefixedCount(Some(first), '+'), ParsePrefixedCount(second, '-'), snapshot)
  {
    hide ParseV2, FirstTwo, ParsePrefixedCount, SplitOnce, Header;
    KeysDiffer();
    HeaderParses("branch.ab", value, snapshot);
    var key := "branch.ab";
    assert SplitOnce(key + [' '] + value, ' ') == Some((key, value));
  }

  /**
   The counts ahead and behind are taken when both are counts with their signs,
   whatever follows them.
   */
  lemma CountsRead(
    first: Bytes, ahead: nat, second: Bytes, behind: nat, more: Bytes, snapshot: StatusSnapshot)
    requires NulFree(first) && NulFree(second) && NulFree(more)
    requires ' ' !in first && ' ' !in second && (more != [] ==> more[0] == ' ')
    requires IsCount(first, '+', ahead) && IsCount(second, '-', behind)
    ensures ParseV2(Header("branch.ab", first + [' '] + (second + more)), snapshot) ==
      Ok(snapshot.(ahead := Some(ahead), behind := Some(behind)))
  {
    FirstTwoAre(first, second, more);
    CountIs(first, '+', ahead);
    CountIs(second, '-', behind);
    hide ParseV2, FirstTwo, ParsePrefixedCount, IsCount;
    CountsHeader(first + [' '] + (second + more), first, Some(second), snapshot);
  }

  /** Counts without their signs, or that are no numbers of 64 bits, are refused, and so is a single count. */
  lemma CountsRefused(first: Bytes, second: Bytes, more: Bytes, snapshot: StatusSnapshot)
    requires NulFree(first) && NulFree(second) && NulFree(more)
    requires ' ' !in first && ' ' !in second && (more != [] ==> more[0] == ' ')
    ensures (!exists n :: IsCount(first, '+', n)) || (!exists n :: IsCount(second, '-', n)) ==>
      ParseV2(Header("branch.ab", first + [' '] + (second + more)), snapshot).Err?
    ensures ParseV2(Header("branch.ab", first), snapshot).Err?
  {
    FirstTwoAre(first, second, more);
    assert ParsePrefixedCount(None, '-') == Err(MissingCount);
    hide ParseV2, FirstTwo, ParsePrefixedCount, IsCount;
    CountsHeader(first + [' '] + (second + more), first, Some(second), snapshot);
    CountsHeader(first, first, None, snapshot);
    if !exists n :: IsCount(first, '+', n) { CountRefused(first, '+'); }
    if !exists n :: IsCount(second, '-', n) { CountRefused(second, '-'); }
  }

  // ---------------------------------------------------------------------
  // Version 2: records
  // ---------------------------------------------------------------------

  predicate NoSpaces(fields: seq<Bytes>) {
    forall i | 0 <= i < |fields| :: ' ' !in fields[i]
  }

  /** The record is these fields, each followed by a space, and then the path. */
  predicate IsRecord(record: Bytes, fields: seq<Bytes>, path: Bytes) {
    NoSpaces(fields) && record == Spaced(fields) + path
  }

  lemma {:induction false} SplitNIs(record: Bytes, n: nat) returns (fields: seq<Bytes>, path: Bytes)
    requires n > 0
    ensures SplitN(record, n, ' ') == fields + [path] && IsRecord(record, fields, path) && |fields| < n
    ensures |fields| + 1 < n ==> ' ' !in path
    decreases n
  {
    fields, path := [], record;
    if n > 1 && SplitOnce(record, ' ').Some? {
      var (front, back) := SplitOnce(record, ' ').value;
      var more;
      more, path := SplitNIs(back, n - 1);
      fields := [front] + more;
      assert fields[1..] == more;
      assert record == front + [' '] + (Spaced(more) + path);
    }
  }

  function Undotted(status: char): char {
    if status == '.' then ' ' else status
  }

  /** A record is taken when it has all its fields, of which the second has two letters. */
  lemma EntryTaken(fields: seq<Bytes>, path: Bytes, oldPath: Option<Bytes>)
    requires NoSpaces(fields) && |fields| >= 2 && |fields[1]| == 2
    ensures ParseV2Entry(Spaced(fields) + path, |fields| + 1, oldPath) ==
      Ok(StatusEntry(Undotted(fields[1][0]), Undotted(fields[1][1]), path, oldPath))
  {
    forall f | f in fields ensures ' ' !in f {}
    SplitNSpaced(fields, path);
    hide SplitN, Spaced;
  }

  /** Anything else is refused. */
  lemma EntryRefused(record: Bytes, n: nat, oldPath: Option<Bytes>)
    requires n >= 3
    requires !exists fields, path :: IsRecord(record, fields, path) && |fields| == n - 1 && |fields[1]| == 2
    ensures ParseV2Entry(record, n, oldPath) == Err(BadFields)
  {
    var fields, path := SplitNIs(record, n);
    hide SplitN, IsRecord;
  }

  /** Which records there are: by their first letters, and with how many fields. */
  lemma RecordsRead(record: Bytes, rest: Bytes, previous: Bytes, behind: Bytes, snapshot: StatusSnapshot)
    requires NulFree(record) && NulFree(previous)
    ensures var raw := record + ['\0'] + rest;
      && ("? " <= record ==>
            ReadV2(raw, snapshot) == Ok((Added(snapshot, [StatusEntry('?', '?', record[2..], None)]), rest)))
      && ("! " <= record ==> ReadV2(raw, snapshot) == Ok((snapshot, rest)))
      && (record != [] && record[0] == '1' ==>
            ReadV2(raw, snapshot) == With(Push(snapshot, ParseV2Entry(record, 9, None)), rest))
      && (record != [] && record[0] == 'u' ==>
            ReadV2(raw, snapshot) == With(Push(snapshot, ParseV2Entry(record, 11, None)), rest))
      && (record != [] && record[0] == '2' && rest == previous + ['\0'] + behind ==>
            ReadV2(raw, snapshot) == With(Push(snapshot, ParseV2Entry(record, 10, Some(previous))), behind))
      && (record != [] && record[0] == '2' && NulFree(rest) ==> ReadV2(raw, snapshot) == Err(MissingNul))
      && (record == [] || (record[0] !in {'1', '2', 'u'} &&
            !("# " <= record) && !("? " <= record) && !("! " <= record)) ==>
            ReadV2(raw, snapshot) == Err(UnknownRecord))
  {
    SplitOnceAt(record, '\0', rest);
    SplitOnceAt(previous, '\0', behind);
    assert "# "[0] == '#' && "? "[0] == '?' && "! "[0] == '!';
    hide ParseV2Entry, ParseBranchHeader;
  }

  /** Output that does not end in a NUL is refused. */
  lemma V2NeedsNul(raw: Bytes, snapshot: StatusSnapshot)
    requires raw != [] && NulFree(raw)
    ensures ParseV2(raw, snapshot) == Err(MissingNul)
  {
  }
}
