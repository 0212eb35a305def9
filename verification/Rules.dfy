/**
 The managed block in a rules file: found by its first markers, inserted or
 replaced by `Upsert`, removed by `Strip`.
 */
module Rules {
  import opened Wrappers

  datatype Markers = Markers(begin: string, end: string)

  /** The markers of the managed block. */
  const MANAGED := Markers("<" + "!-- ah:begin " + "(managed by " + "`ah ai install`) -->", "<" + "!-- ah:end -->")

  datatype BlockAction = Installed | Updated | Unchanged | Removed | NotPresent

  datatype Malformed = Malformed

  // ---------------------------------------------------------------------
  // First-occurrence search
  // ---------------------------------------------------------------------

  predicate OccursAt(text: string, pattern: string, i: nat) {
    i + |pattern| <= |text| && text[i..i + |pattern|] == pattern
  }

  ghost predicate Free(text: string, pattern: string) {
    forall i :: !OccursAt(text, pattern, i)
  }

  function FindFrom(text: string, pattern: string, from: nat): (r: Option<nat>)
    requires from <= |text|
    ensures r.Some? ==> from <= r.value && OccursAt(text, pattern, r.value)
    ensures forall i :: from <= i < (if r.Some? then r.value else |text| + 1) ==> !OccursAt(text, pattern, i)
    decreases |text| - from
  {
    if OccursAt(text, pattern, from) then Some(from)
    else if from == |text| then None
    else FindFrom(text, pattern, from + 1)
  }

  /** `str::find`: the first occurrence. */
  function Find(text: string, pattern: string): (r: Option<nat>)
    ensures r.Some? ==> OccursAt(text, pattern, r.value)
    ensures r.Some? ==> forall i: nat :: i < r.value ==> !OccursAt(text, pattern, i)
    ensures r.None? ==> Free(text, pattern)
  {
    FindFrom(text, pattern, 0)
  }

  // ---------------------------------------------------------------------
  // The operations
  // ---------------------------------------------------------------------

  /** The block's extent, or an error when the first markers do not form a pair. */
  function Locate(m: Markers, contents: string): Result<Option<(nat, nat)>, Malformed> {
    match (Find(contents, m.begin), Find(contents, m.end))
    case (None, None) => Ok(None)
    case (Some(begin), Some(end)) => if end > begin then Ok(Some((begin, end + |m.end|))) else Err(Malformed)
    case _ => Err(Malformed)
  }

  predicate IsNewline(c: char) {
    c == '\n' || c == '\r'
  }

  predicate EndsWithLf(text: string) {
    text != [] && text[|text| - 1] == '\n'
  }

  function Separator(contents: string): string {
    if contents == [] then "" else if EndsWithLf(contents) then "\n" else "\n\n"
  }

  function Upsert(m: Markers, existing: Option<string>, block: string): Result<(string, BlockAction), Malformed> {
    var contents := if existing.Some? then existing.value else "";
    match Locate(m, contents)
    case Err(e) => Err(e)
    case Ok(None) => Ok((contents + Separator(contents) + block + "\n", Installed))
    case Ok(Some((begin, end))) =>
      if contents[begin..end] == block then Ok((contents, Unchanged))
      else Ok((contents[..begin] + block + contents[end..], Updated))
  }

  function TrimEnd(text: string): string {
    if text != [] && IsNewline(text[|text| - 1]) then TrimEnd(text[..|text| - 1]) else text
  }

  function TrimStart(text: string): string {
    if text != [] && IsNewline(text[0]) then TrimStart(text[1..]) else text
  }

  /** The two sides of a removed block, one blank line apart, ending in a newline. */
  function Rejoin(head: string, tail: string): string {
    var joined := head + (if head != [] && tail != [] then "\n\n" else "") + tail;
    if joined != [] && !EndsWithLf(joined) then joined + "\n" else joined
  }

  function Strip(m: Markers, contents: string): Result<(string, BlockAction), Malformed> {
    match Locate(m, contents)
    case Err(e) => Err(e)
    case Ok(None) => Ok((contents, NotPresent))
    case Ok(Some((begin, end))) => Ok((Rejoin(TrimEnd(contents[..begin]), TrimStart(contents[end..])), Removed))
  }

  // ---------------------------------------------------------------------
  // Why concatenation makes and breaks no markers
  // ---------------------------------------------------------------------

  /** What may not stand inside a marker. */
  predicate Breaks(c: char) {
    c == '<' || IsNewline(c)
  }

  predicate Plain(text: string) {
    forall i | 0 <= i < |text| :: !Breaks(text[i])
  }

  /** Opens with its only `<` and stays on one line. */
  predicate IsMarker(p: string) {
    |p| > 1 && p[0] == '<' && Plain(p[1..])
  }

  lemma PlainConcat(a: string, b: string, c: string)
    requires Plain(a) && Plain(b) && Plain(c)
    ensures Plain(a + b + c)
  {
  }

  /** Two markers, of which the first does not hold the second. */
  ghost predicate GoodMarkers(m: Markers) {
    IsMarker(m.begin) && IsMarker(m.end) && Free(m.begin, m.end)
  }

  /** The managed block's own markers are of this kind, so the laws below apply to them. */
  lemma ManagedMarkersAreGood()
    ensures GoodMarkers(MANAGED)
  {
    ManagedBegin();
    ManagedEnd();
    NotInside(MANAGED.begin, MANAGED.end, 8);
  }

  lemma ManagedBegin()
    ensures IsMarker(MANAGED.begin) && |MANAGED.begin| > 8 && MANAGED.begin[8] == 'b'
  {
    var b1, b2, b3 := "!-- ah:begin ", "(managed by ", "`ah ai install`) -->";
    assert Plain(b1) && Plain(b2) && Plain(b3) && |b1| == 13 && b1[7] == 'b';
    hide Plain;
    PlainConcat(b1, b2, b3);
    assert MANAGED.begin == "<" + b1 + b2 + b3;
    OpensWith(b1 + b2 + b3);
    assert MANAGED.begin == "<" + (b1 + b2 + b3);
  }

  lemma OpensWith(rest: string)
    requires Plain(rest) && |rest| > 7
    ensures IsMarker("<" + rest) && ("<" + rest)[8] == rest[7]
  {
    assert ("<" + rest)[1..] == rest;
  }

  lemma ManagedEnd()
    ensures IsMarker(MANAGED.end) && |MANAGED.end| > 8 && MANAGED.end[8] == 'e'
  {
    var e := "!-- ah:end -->";
    assert Plain(e) && |e| == 14 && e[7] == 'e';
    hide Plain;
    OpensWith(e);
  }

  /** A marker that differs from another at some place does not occur in it. */
  lemma NotInside(p: string, q: string, k: nat)
    requires IsMarker(p) && IsMarker(q) && k < |p| && k < |q| && p[k] != q[k]
    ensures Free(p, q)
  {
    forall i: nat ensures !OccursAt(p, q, i) {
      if i > 0 {
        assert i < |p| ==> p[i] == p[1..][i - 1];
        assert i + |q| <= |p| ==> p[i..i + |q|][0] == p[i];
      } else {
        assert |q| <= |p| ==> p[0..|q|][k] == p[k];
      }
    }
  }

  ghost predicate Clean(m: Markers, text: string) {
    Free(text, m.begin) && Free(text, m.end)
  }

  /** Behind its first character a marker shows nothing breaking, and no newline anywhere. */
  lemma InsideMarker(text: string, p: string, i: nat, k: nat)
    requires IsMarker(p) && OccursAt(text, p, i) && i <= k < i + |p|
    ensures text[k] == p[k - i] && !IsNewline(text[k])
    ensures i < k ==> !Breaks(text[k])
  {
    assert text[i..i + |p|][k - i] == p[k - i];
    assert i < k ==> p[k - i] == p[1..][k - i - 1];
  }

  /** Where two texts meet without a marker growing across the seam. */
  predicate Seam(a: string, b: string) {
    b == [] || Breaks(b[0]) || (a != [] && IsNewline(a[|a| - 1]))
  }

  lemma NoStraddle(a: string, b: string, p: string, i: nat)
    requires IsMarker(p) && OccursAt(a + b, p, i) && Seam(a, b)
    ensures OccursAt(a, p, i) || (i >= |a| && OccursAt(b, p, i - |a|))
  {
    var s := a + b;
    if i + |p| <= |a| {
      assert s[i..i + |p|] == a[i..i + |p|];
    } else if i >= |a| {
      assert s[i..i + |p|] == b[i - |a|..i - |a| + |p|];
    } else {
      InsideMarker(s, p, i, |a|);
      InsideMarker(s, p, i, |a| - 1);
      assert false;
    }
  }

  lemma FreeConcat(a: string, b: string, p: string)
    requires IsMarker(p) && Free(a, p) && Free(b, p) && Seam(a, b)
    ensures Free(a + b, p)
  {
    forall i: nat ensures !OccursAt(a + b, p, i) {
      if OccursAt(a + b, p, i) { NoStraddle(a, b, p, i); }
    }
  }

  lemma FreePart(text: string, p: string, from: nat, to: nat)
    requires from <= to <= |text| && Free(text, p)
    ensures Free(text[from..to], p)
  {
    forall i: nat ensures !OccursAt(text[from..to], p, i) {
      if i + |p| <= to - from {
        var part, same := text[from..to][i..i + |p|], text[from + i..from + i + |p|];
        assert forall k | 0 <= k < |p| :: part[k] == text[from + i + k] == same[k];
        assert part == same;
        assert !OccursAt(text, p, from + i);
      }
    }
  }

  lemma FirstOccurrence(text: string, p: string, i: nat)
    requires OccursAt(text, p, i) && forall j: nat :: j < i ==> !OccursAt(text, p, j)
    ensures Find(text, p) == Some(i)
  {
  }

  // ---------------------------------------------------------------------
  // Locating a block
  // ---------------------------------------------------------------------

  /** A block opens with the begin marker and closes with its only end marker. */
  ghost predicate WellFormed(m: Markers, block: string) {
    |m.begin| + |m.end| <= |block| && m.begin <= block &&
    OccursAt(block, m.end, |block| - |m.end|) &&
    forall j: nat :: j < |block| - |m.end| ==> !OccursAt(block, m.end, j)
  }

  /** A well-formed block after clean text is what `Locate` finds, whatever follows. */
  lemma LocateInserted(m: Markers, before: string, block: string, after: string)
    requires GoodMarkers(m)
    requires Clean(m, before) && WellFormed(m, block)
    ensures Locate(m, before + block + after) == Ok(Some((|before|, |before| + |block|)))
  {
    BeginFound(m, before, block, after);
    EndFound(m, before, block, after);
  }

  lemma BeginFound(m: Markers, before: string, block: string, after: string)
    requires GoodMarkers(m) && Clean(m, before) && WellFormed(m, block)
    ensures Find(before + block + after, m.begin) == Some(|before|)
  {
    var rest := block + after;
    assert before + block + after == before + rest;
    assert rest[0..|m.begin|] == block[..|m.begin|] == m.begin;
    assert rest[0] == m.begin[0];
    SeekPast(before, rest, m.begin, 0);
  }

  lemma EndFound(m: Markers, before: string, block: string, after: string)
    requires GoodMarkers(m) && Clean(m, before) && WellFormed(m, block)
    ensures Find(before + block + after, m.end) == Some(|before| + |block| - |m.end|)
  {
    var rest := block + after;
    assert before + block + after == before + rest;
    assert rest[0] == block[..|m.begin|][0] == m.begin[0];
    hide Find, Free, OccursAt;
    StaysFirst(block, after, m.end);
    SeekPast(before, rest, m.end, |block| - |m.end|);
  }

  /** The first occurrence behind clean text. */
  lemma SeekPast(before: string, rest: string, p: string, k: nat)
    requires IsMarker(p) && Free(before, p) && rest != [] && rest[0] == '<'
    requires OccursAt(rest, p, k) && forall j: nat :: j < k ==> !OccursAt(rest, p, j)
    ensures Find(before + rest, p) == Some(|before| + k)
  {
    var text := before + rest;
    var at := |before| + k;
    assert text[at..at + |p|] == rest[k..k + |p|];
    forall j: nat | j < at ensures !OccursAt(text, p, j) {
      if OccursAt(text, p, j) { NoStraddle(before, rest, p, j); }
    }
    FirstOccurrence(text, p, at);
  }

  /** A marker that first occurs at the very end still does when text follows. */
  lemma StaysFirst(block: string, after: string, p: string)
    requires IsMarker(p) && |p| <= |block| && OccursAt(block, p, |block| - |p|)
    requires forall j: nat :: j < |block| - |p| ==> !OccursAt(block, p, j)
    ensures OccursAt(block + after, p, |block| - |p|)
    ensures forall j: nat :: j < |block| - |p| ==> !OccursAt(block + after, p, j)
  {
    var text, n := block + after, |p|;
    var k: nat := |block| - n;
    assert text[k..k + n] == block[k..k + n];
    InsideMarker(block, p, k, k);
    forall j: nat | j < k ensures !OccursAt(text, p, j) {
      if j + n <= |block| {
        assert text[j..j + n] == block[j..j + n];
        assert !OccursAt(block, p, j);
      } else if OccursAt(text, p, j) {
        InsideMarker(text, p, j, k);
        assert false;
      }
    }
  }

  /** Where `Locate` answers, the text splits around its block, clean in front. */
  lemma LocateSplits(m: Markers, contents: string, begin: nat, end: nat)
    requires GoodMarkers(m)
    requires Locate(m, contents) == Ok(Some((begin, end)))
    ensures begin < end <= |contents|
    ensures Clean(m, contents[..begin])
  {
    PrefixFree(contents, m.begin, begin);
    PrefixFree(contents, m.end, begin);
  }

  lemma PrefixFree(text: string, p: string, n: nat)
    requires n <= |text| && |p| > 0
    requires forall i: nat :: i < n ==> !OccursAt(text, p, i)
    ensures Free(text[..n], p)
  {
    forall i: nat ensures !OccursAt(text[..n], p, i) {
      if i + |p| <= n {
        assert text[..n][i..i + |p|] == text[i..i + |p|];
        assert !OccursAt(text, p, i);
      }
    }
  }

  // ---------------------------------------------------------------------
  // Laws of Upsert
  // ---------------------------------------------------------------------

  lemma NewlinesFree(text: string, p: string)
    requires IsMarker(p) && AllNewlines(text)
    ensures Free(text, p)
  {
    forall i: nat ensures !OccursAt(text, p, i) {
      if OccursAt(text, p, i) {
        InsideMarker(text, p, i, i);
        assert false;
      }
    }
  }

  /** The text around the block, or around the place where it will be installed. */
  function Outside(m: Markers, contents: string): (string, string) {
    match Locate(m, contents)
    case Ok(Some((begin, end))) => (contents[..begin], contents[end..])
    case _ => (contents + Separator(contents), "\n")
  }

  lemma OutsideIsClean(m: Markers, contents: string)
    requires GoodMarkers(m)
    requires Locate(m, contents).Ok?
    ensures Clean(m, Outside(m, contents).0)
  {
    match Locate(m, contents).value
    case Some((begin, end)) => LocateSplits(m, contents, begin, end);
    case None =>
      NewlinesFree(Separator(contents), m.begin);
      NewlinesFree(Separator(contents), m.end);
      FreeConcat(contents, Separator(contents), m.begin);
      FreeConcat(contents, Separator(contents), m.end);
  }

  function Contents(existing: Option<string>): string {
    if existing.Some? then existing.value else ""
  }

  /** `Upsert` fails only on unpaired markers, and otherwise writes the block into its place. */
  lemma UpsertWrites(m: Markers, existing: Option<string>, block: string)
    requires GoodMarkers(m)
    ensures Upsert(m, existing, block).Ok? <==> Locate(m, Contents(existing)).Ok?
    ensures Upsert(m, existing, block).Ok? ==>
      var (before, after) := Outside(m, Contents(existing));
      Upsert(m, existing, block).value.0 == before + block + after
  {
    var contents := Contents(existing);
    if Locate(m, contents).Ok? && Locate(m, contents).value.Some? {
      var (begin, end) := Locate(m, contents).value.value;
      LocateSplits(m, contents, begin, end);
      assert contents == contents[..begin] + contents[begin..end] + contents[end..];
    }
  }

  /** `text` is located to hold `block`, with `outside` around it. */
  ghost predicate Holds(m: Markers, text: string, block: string, outside: (string, string)) {
    var begin := |outside.0|;
    Locate(m, text) == Ok(Some((begin, begin + |block|))) &&
    begin + |block| <= |text| && text[begin..begin + |block|] == block &&
    Outside(m, text) == outside
  }

  /**
   What was put is found, and nothing else moved: in the result the located block
   is the given one and the text outside it is the text outside the old one.
   */
  lemma UpsertKeepsOutside(m: Markers, existing: Option<string>, block: string)
    requires GoodMarkers(m)
    requires WellFormed(m, block) && Upsert(m, existing, block).Ok?
    ensures Holds(m, Upsert(m, existing, block).value.0, block, Outside(m, Contents(existing)))
  {
    UpsertWrites(m, existing, block);
    var outside := Outside(m, Contents(existing));
    OutsideIsClean(m, Contents(existing));
    InsertedHolds(m, outside.0, block, outside.1);
  }

  lemma InsertedHolds(m: Markers, before: string, block: string, after: string)
    requires GoodMarkers(m) && Clean(m, before) && WellFormed(m, block)
    ensures Holds(m, before + block + after, block, (before, after))
  {
    LocateInserted(m, before, block, after);
    Pieces(before, block, after);
  }

  lemma Pieces(before: string, block: string, after: string)
    ensures var text := before + block + after;
      text[..|before|] == before && text[|before|..|before| + |block|] == block && text[|before| + |block|..] == after
  {
  }

  /** Putting the same block again changes nothing and says so. */
  lemma UpsertIdempotent(m: Markers, existing: Option<string>, block: string)
    requires GoodMarkers(m)
    requires WellFormed(m, block) && Upsert(m, existing, block).Ok?
    ensures var text := Upsert(m, existing, block).value.0;
      Upsert(m, Some(text), block) == Ok((text, Unchanged))
  {
    UpsertKeepsOutside(m, existing, block);
  }

  /** A second block overwrites the first without a trace. */
  lemma UpsertOverwrites(m: Markers, existing: Option<string>, first: string, second: string)
    requires GoodMarkers(m)
    requires WellFormed(m, first) && Upsert(m, existing, first).Ok?
    ensures var text := Upsert(m, existing, first).value.0;
      Upsert(m, existing, second).Ok? && Upsert(m, Some(text), second).Ok? &&
      Upsert(m, Some(text), second).value.0 == Upsert(m, existing, second).value.0
  {
    UpsertKeepsOutside(m, existing, first);
    UpsertWrites(m, existing, second);
    UpsertWrites(m, existing, first);
    UpsertWrites(m, Some(Upsert(m, existing, first).value.0), second);
  }

  /** On a text without markers, the block goes behind a blank line, and behind nothing where there is nothing. */
  lemma UpsertInstalls(m: Markers, existing: Option<string>, block: string)
    requires GoodMarkers(m) && (existing.Some? ==> Clean(m, existing.value))
    ensures existing == None || existing == Some("") ==> Upsert(m, existing, block) == Ok((block + "\n", Installed))
    ensures existing.Some? && existing.value != [] && existing.value[|existing.value| - 1] == '\n' ==>
      Upsert(m, existing, block) == Ok((existing.value + "\n" + block + "\n", Installed))
    ensures existing.Some? && existing.value != [] && existing.value[|existing.value| - 1] != '\n' ==>
      Upsert(m, existing, block) == Ok((existing.value + "\n\n" + block + "\n", Installed))
  {
    assert "" + "" + block + "\n" == block + "\n";
  }

  /** `text` is a well-formed block with these texts around it, the first of them without markers. */
  ghost predicate IsAround(m: Markers, text: string, before: string, block: string, after: string) {
    text == before + block + after && Clean(m, before) && WellFormed(m, block)
  }

  /** A located block is well formed, with no marker before it. */
  lemma LocatedIsAround(m: Markers, contents: string, begin: nat, end: nat)
    requires GoodMarkers(m) && Locate(m, contents) == Ok(Some((begin, end)))
    ensures begin < end <= |contents|
    ensures IsAround(m, contents, contents[..begin], contents[begin..end], contents[end..])
  {
    hide GoodMarkers, Locate, Clean, OccursAt;
    LocateSplits(m, contents, begin, end);
    LocatedFits(m, contents, begin, end);
    LocatedOpens(m, contents, begin, end);
    LocatedCloses(m, contents, begin, end);
    assert contents == contents[..begin] + contents[begin..end] + contents[end..];
  }

  /** The markers of a located block do not overlap. */
  lemma LocatedFits(m: Markers, contents: string, begin: nat, end: nat)
    requires GoodMarkers(m) && Locate(m, contents) == Ok(Some((begin, end)))
    ensures begin + |m.begin| + |m.end| <= end <= |contents|
    ensures OccursAt(contents, m.begin, begin) && OccursAt(contents, m.end, end - |m.end|)
    ensures forall j: nat :: j < end - |m.end| ==> !OccursAt(contents, m.end, j)
  {
    var close: nat := end - |m.end|;
    assert contents[close..end][0] == contents[close] == m.end[0];
    if close < begin + |m.begin| {
      InsideMarker(contents, m.begin, begin, close);
      assert false;
    }
  }

  lemma LocatedOpens(m: Markers, contents: string, begin: nat, end: nat)
    requires begin + |m.begin| <= end <= |contents| && OccursAt(contents, m.begin, begin)
    ensures m.begin <= contents[begin..end]
  {
    assert contents[begin..end][..|m.begin|] == contents[begin..begin + |m.begin|];
  }

  lemma LocatedCloses(m: Markers, contents: string, begin: nat, end: nat)
    requires begin + |m.end| <= end <= |contents| && OccursAt(contents, m.end, end - |m.end|)
    requires forall j: nat :: j < end - |m.end| ==> !OccursAt(contents, m.end, j)
    ensures var block := contents[begin..end];
      OccursAt(block, m.end, |block| - |m.end|) &&
      forall j: nat :: j < |block| - |m.end| ==> !OccursAt(block, m.end, j)
  {
    var block, n := contents[begin..end], |m.end|;
    assert block[|block| - n..] == contents[end - n..end];
    forall j: nat | j < |block| - n ensures !OccursAt(block, m.end, j) {
      assert block[j..j + n] == contents[begin + j..begin + j + n];
      assert !OccursAt(contents, m.end, begin + j);
    }
  }

  /** There is one way to read a text around a block. */
  lemma AroundIsLocated(m: Markers, text: string, before: string, block: string, after: string)
    requires GoodMarkers(m) && IsAround(m, text, before, block, after)
    ensures Locate(m, text) == Ok(Some((|before|, |before| + |block|)))
  {
    LocateInserted(m, before, block, after);
  }

  /** A different block is replaced between the texts around it; the same one is left alone. */
  lemma UpsertReplaces(m: Markers, before: string, stale: string, after: string, block: string)
    requires GoodMarkers(m) && Clean(m, before) && WellFormed(m, stale)
    ensures Upsert(m, Some(before + stale + after), block) ==
      Ok((before + block + after, if stale == block then Unchanged else Updated))
  {
    LocateInserted(m, before, stale, after);
    Pieces(before, stale, after);
  }

  /** `Upsert` installs exactly where no marker stands, and fails exactly on markers that enclose no block. */
  lemma UpsertReports(m: Markers, contents: string, block: string)
    requires GoodMarkers(m)
    ensures Clean(m, contents) <==>
      Upsert(m, Some(contents), block).Ok? && Upsert(m, Some(contents), block).value.1 == Installed
    ensures Upsert(m, Some(contents), block) == Err(Malformed) <==> !Clean(m, contents) && !HoldsBlock(m, contents)
  {
    LocateReports(m, contents);
    hide GoodMarkers, Clean, HoldsBlock, Locate;
  }

  /** There is a way to read the text around a block. */
  ghost predicate HoldsBlock(m: Markers, contents: string) {
    exists before, block, after :: IsAround(m, contents, before, block, after)
  }

  lemma HeldIsLocated(m: Markers, contents: string)
    requires GoodMarkers(m) && HoldsBlock(m, contents)
    ensures Locate(m, contents).Ok? && Locate(m, contents).value.Some?
  {
    hide GoodMarkers, IsAround, Locate;
    var before, block, after :| IsAround(m, contents, before, block, after);
    AroundIsLocated(m, contents, before, block, after);
  }

  lemma LocatedIsHeld(m: Markers, contents: string)
    requires GoodMarkers(m) && Locate(m, contents).Ok? && Locate(m, contents).value.Some?
    ensures HoldsBlock(m, contents)
  {
    hide GoodMarkers, IsAround, Locate;
    var (begin, end) := Locate(m, contents).value.value;
    LocatedIsAround(m, contents, begin, end);
  }

  /** No block is located exactly where no marker stands, and an error is reported exactly where none encloses one. */
  lemma LocateReports(m: Markers, contents: string)
    requires GoodMarkers(m)
    ensures Clean(m, contents) <==> Locate(m, contents) == Ok(None)
    ensures Locate(m, contents) == Err(Malformed) <==> !Clean(m, contents) && !HoldsBlock(m, contents)
    ensures HoldsBlock(m, contents) <==> Locate(m, contents).Ok? && Locate(m, contents).value.Some?
  {
    LocateCleans(m, contents);
    hide GoodMarkers, Clean, HoldsBlock, Locate;
    if HoldsBlock(m, contents) { HeldIsLocated(m, contents); }
    if Locate(m, contents).Ok? && Locate(m, contents).value.Some? { LocatedIsHeld(m, contents); }
  }

  lemma LocateCleans(m: Markers, contents: string)
    requires GoodMarkers(m)
    ensures Clean(m, contents) <==> Locate(m, contents) == Ok(None)
    ensures Locate(m, contents).Err? ==> Locate(m, contents) == Err(Malformed)
  {
  }

  // ---------------------------------------------------------------------
  // Laws of Strip
  // ---------------------------------------------------------------------

  predicate AllNewlines(text: string) {
    forall i | 0 <= i < |text| :: IsNewline(text[i])
  }

  /** What trimming cuts off is a run of newlines, and the run is cut off whole. */
  lemma {:induction false} TrimEndCuts(text: string) returns (cut: string)
    ensures text == TrimEnd(text) + cut && AllNewlines(cut)
    ensures TrimEnd(text) == [] || !IsNewline(TrimEnd(text)[|TrimEnd(text)| - 1])
  {
    cut := [];
    if text != [] && IsNewline(text[|text| - 1]) {
      cut := TrimEndCuts(text[..|text| - 1]);
      cut := cut + [text[|text| - 1]];
    } else {
      assert text == text + [];
    }
  }

  lemma {:induction false} TrimStartCuts(text: string) returns (cut: string)
    ensures text == cut + TrimStart(text) && AllNewlines(cut)
  {
    cut := [];
    if text != [] && IsNewline(text[0]) {
      cut := TrimStartCuts(text[1..]);
      cut := [text[0]] + cut;
    } else {
      assert text == [] + text;
    }
  }

  lemma {:induction false} TrimEndAppend(text: string, newlines: string)
    requires AllNewlines(newlines)
    ensures TrimEnd(text + newlines) == TrimEnd(text)
  {
    if newlines == [] {
      assert text + newlines == text;
    } else {
      var shorter := newlines[..|newlines| - 1];
      assert (text + newlines)[..|text + newlines| - 1] == text + shorter;
      TrimEndAppend(text, shorter);
    }
  }

  /** Ended by one newline, unless there is nothing to end. */
  function Terminated(text: string): string {
    if text == [] then [] else text + "\n"
  }

  /**
   Stripping undoes installing, up to trailing newlines: the run of them at the
   end of the user's text is replaced by one, and an empty text stays empty.
   */
  lemma StripUndoesUpsert(m: Markers, contents: string, block: string)
    requires GoodMarkers(m)
    requires Clean(m, contents) && WellFormed(m, block)
    ensures Upsert(m, Some(contents), block).Ok?
    ensures Strip(m, Upsert(m, Some(contents), block).value.0) == Ok((Terminated(TrimEnd(contents)), Removed))
  {
    assert Locate(m, contents) == Ok(None);
    UpsertWrites(m, Some(contents), block);
    OutsideIsClean(m, contents);
    StripBetween(m, contents + Separator(contents), block, "\n");
    InstalledSides(contents);
  }

  lemma InstalledSides(contents: string)
    ensures Rejoin(TrimEnd(contents + Separator(contents)), TrimStart("\n")) == Terminated(TrimEnd(contents))
  {
    TrimEndAppend(contents, Separator(contents));
    var cut := TrimEndCuts(contents);
    RejoinEnd(TrimEnd(contents));
  }

  lemma StripBetween(m: Markers, before: string, block: string, after: string)
    requires GoodMarkers(m) && Clean(m, before) && WellFormed(m, block)
    ensures Strip(m, before + block + after) == Ok((Rejoin(TrimEnd(before), TrimStart(after)), Removed))
  {
    LocateInserted(m, before, block, after);
    Pieces(before, block, after);
  }

  lemma RejoinEnd(head: string)
    requires head == [] || !IsNewline(head[|head| - 1])
    ensures TrimStart("\n") == []
    ensures Rejoin(head, []) == Terminated(head)
  {
    assert head + "" + [] == head;
    assert TrimStart("\n") == TrimStart("");
  }

  /** A side of the removed block: line breaks only, and nothing but those cut off. */
  predicate AreBreaks(text: string) {
    forall i | 0 <= i < |text| :: text[i] == '\n' || text[i] == '\r'
  }

  predicate IsTrimmed(head: string, tail: string) {
    (head != [] ==> head[|head| - 1] != '\n' && head[|head| - 1] != '\r') &&
    (tail != [] ==> tail[0] != '\n' && tail[0] != '\r')
  }

  lemma {:induction false} TrimEndDrops(head: string, breaks: string)
    requires AreBreaks(breaks) && IsTrimmed(head, [])
    ensures TrimEnd(head + breaks) == head
  {
    if breaks == [] {
      assert head + breaks == head;
    } else {
      var shorter := breaks[..|breaks| - 1];
      assert (head + breaks)[..|head + breaks| - 1] == head + shorter;
      TrimEndDrops(head, shorter);
    }
  }

  lemma {:induction false} TrimStartDrops(breaks: string, tail: string)
    requires AreBreaks(breaks) && IsTrimmed([], tail)
    ensures TrimStart(breaks + tail) == tail
  {
    if breaks == [] {
      assert breaks + tail == tail;
    } else {
      assert (breaks + tail)[1..] == breaks[1..] + tail;
      TrimStartDrops(breaks[1..], tail);
    }
  }

  /**
   What stripping leaves, spelled out: the two sides without the line breaks next to
   the block, one blank line apart, ended by a newline; or the one side that there is.
   */
  lemma StripRejoins(m: Markers, head: string, above: string, block: string, below: string, tail: string)
    requires GoodMarkers(m) && WellFormed(m, block) && Clean(m, head + above)
    requires AreBreaks(above) && AreBreaks(below) && IsTrimmed(head, tail)
    ensures var ended := if tail != [] && tail[|tail| - 1] == '\n' then tail else tail + "\n";
      Strip(m, head + above + block + (below + tail)) ==
        if head != [] && tail != [] then Ok((head + "\n\n" + ended, Removed))
        else if head != [] then Ok((head + "\n", Removed))
        else if tail != [] then Ok((ended, Removed))
        else Ok(("", Removed))
  {
    TrimEndDrops(head, above);
    TrimStartDrops(below, tail);
    StripBetween(m, head + above, block, below + tail);
    hide Strip, TrimEnd, TrimStart, Locate;
    RejoinSpelled(head, tail);
  }

  lemma RejoinSpelled(head: string, tail: string)
    requires IsTrimmed(head, tail)
    ensures var ended := if tail != [] && tail[|tail| - 1] == '\n' then tail else tail + "\n";
      Rejoin(head, tail) ==
        if head != [] && tail != [] then head + "\n\n" + ended
        else if head != [] then head + "\n"
        else if tail != [] then ended
        else ""
  {
    assert head + "\n\n" + (tail + "\n") == head + "\n\n" + tail + "\n";
    assert head + "" + [] == head && [] + "" + tail == tail;
  }

  /** Without markers there is nothing to strip, and markers that enclose no block are an error. */
  lemma StripReports(m: Markers, contents: string)
    requires GoodMarkers(m)
    ensures Clean(m, contents) <==> Strip(m, contents) == Ok((contents, NotPresent))
    ensures Strip(m, contents) == Err(Malformed) <==> !Clean(m, contents) && !HoldsBlock(m, contents)
  {
    LocateReports(m, contents);
    hide GoodMarkers, Clean, HoldsBlock, Locate;
  }

  function Visible(text: string): string {
    if text == [] then [] else (if IsNewline(text[0]) then [] else [text[0]]) + Visible(text[1..])
  }

  lemma {:induction false} VisibleConcat(a: string, b: string)
    ensures Visible(a + b) == Visible(a) + Visible(b)
  {
    if a == [] {
      assert a + b == b;
    } else {
      assert (a + b)[1..] == a[1..] + b;
      VisibleConcat(a[1..], b);
    }
  }

  lemma {:induction false} VisibleNewlines(text: string)
    requires AllNewlines(text)
    ensures Visible(text) == []
  {
    if text != [] { VisibleNewlines(text[1..]); }
  }

  lemma VisibleTrimEnd(text: string)
    ensures Visible(TrimEnd(text)) == Visible(text)
  {
    var cut := TrimEndCuts(text);
    VisibleConcat(TrimEnd(text), cut);
    VisibleNewlines(cut);
  }

  lemma VisibleTrimStart(text: string)
    ensures Visible(TrimStart(text)) == Visible(text)
  {
    var cut := TrimStartCuts(text);
    VisibleConcat(cut, TrimStart(text));
    VisibleNewlines(cut);
  }

  lemma VisibleAppended(text: string, newlines: string)
    requires AllNewlines(newlines)
    ensures Visible(text + newlines) == Visible(text)
  {
    VisibleConcat(text, newlines);
    VisibleNewlines(newlines);
  }

  lemma VisibleRejoin(head: string, tail: string)
    ensures Visible(Rejoin(head, tail)) == Visible(head) + Visible(tail)
  {
    var gap := if head != [] && tail != [] then "\n\n" else "";
    VisibleAppended(head, gap);
    VisibleConcat(head + gap, tail);
    VisibleAppended(head + gap + tail, "\n");
  }

  /** Stripping keeps every character outside the block, in order, except newlines. */
  lemma StripKeepsVisible(m: Markers, contents: string, begin: nat, end: nat)
    requires GoodMarkers(m)
    requires Locate(m, contents) == Ok(Some((begin, end)))
    ensures begin <= end <= |contents|
    ensures Strip(m, contents).Ok?
    ensures Visible(Strip(m, contents).value.0) == Visible(contents[..begin]) + Visible(contents[end..])
  {
    LocateSplits(m, contents, begin, end);
    VisibleRejoin(TrimEnd(contents[..begin]), TrimStart(contents[end..]));
    VisibleTrimEnd(contents[..begin]);
    VisibleTrimStart(contents[end..]);
  }

  lemma FreeConcatIff(a: string, b: string, p: string)
    requires IsMarker(p) && Seam(a, b)
    ensures Free(a + b, p) <==> Free(a, p) && Free(b, p)
  {
    if Free(a + b, p) {
      FreePart(a + b, p, 0, |a|);
      FreePart(a + b, p, |a|, |a + b|);
      assert (a + b)[0..|a|] == a && (a + b)[|a|..|a + b|] == b;
    } else if Free(a, p) && Free(b, p) {
      FreeConcat(a, b, p);
    }
  }

  lemma FreeRejoin(head: string, tail: string, p: string)
    requires IsMarker(p)
    ensures Free(Rejoin(head, tail), p) <==> Free(head, p) && Free(tail, p)
  {
    var gap := if head != [] && tail != [] then "\n\n" else "";
    var joined := head + gap + tail;
    NewlinesFree("\n", p);
    NewlinesFree("", p);
    NewlinesFree("\n\n", p);
    FreeConcatIff(head, gap, p);
    if head + gap == [] {
      assert joined == tail;
    } else if tail == [] {
      assert joined == head + gap;
    } else {
      FreeConcatIff(head + gap, tail, p);
    }
    FreeConcatIff(joined, "\n", p);
  }

  lemma FreeTrimStart(text: string, p: string)
    requires IsMarker(p)
    ensures Free(TrimStart(text), p) <==> Free(text, p)
  {
    var cut := TrimStartCuts(text);
    NewlinesFree(cut, p);
    if cut == [] {
      assert text == TrimStart(text);
    } else {
      FreeConcatIff(cut, TrimStart(text), p);
    }
  }

  /**
   After one strip a second one reports that nothing is present exactly when no
   marker stood behind the block that the first one removed.
   */
  lemma StripLeavesNothing(m: Markers, contents: string, begin: nat, end: nat)
    requires GoodMarkers(m)
    requires Locate(m, contents) == Ok(Some((begin, end)))
    ensures begin <= end <= |contents|
    ensures var text := Strip(m, contents).value.0;
      Strip(m, text) == Ok((text, NotPresent)) <==> Clean(m, contents[end..])
  {
    LocateSplits(m, contents, begin, end);
    var head, tail := TrimEnd(contents[..begin]), TrimStart(contents[end..]);
    var text := Rejoin(head, tail);
    SideFree(contents, begin, end, m.begin);
    SideFree(contents, begin, end, m.end);
    assert Strip(m, text) == Ok((text, NotPresent)) <==> Clean(m, text);
  }

  lemma SideFree(contents: string, begin: nat, end: nat, p: string)
    requires begin <= end <= |contents| && IsMarker(p) && Free(contents[..begin], p)
    ensures Free(Rejoin(TrimEnd(contents[..begin]), TrimStart(contents[end..])), p) <==> Free(contents[end..], p)
  {
    var head, tail := TrimEnd(contents[..begin]), TrimStart(contents[end..]);
    var cut := TrimEndCuts(contents[..begin]);
    FreePart(contents[..begin], p, 0, |head|);
    assert (head + cut)[0..|head|] == head;
    FreeTrimStart(contents[end..], p);
    FreeRejoin(head, tail, p);
  }

  // ---------------------------------------------------------------------
  // The rendered block
  // ---------------------------------------------------------------------

  /** The rendered block: the begin marker, the body lines, the end marker. */
  function RenderBlock(m: Markers, body: string): string {
    m.begin + "\n" + body + "\n" + m.end
  }

  /** A body without an end marker renders to a well-formed block, with each marker on a line of its own. */
  lemma RenderedIsWellFormed(m: Markers, body: string)
    requires GoodMarkers(m)
    requires Free(body, m.end)
    ensures WellFormed(m, RenderBlock(m, body))
    ensures var block, first, last := RenderBlock(m, body), |m.begin|, |m.begin| + 1 + |body|;
      last < |block| && block[first] == '\n' && block[first + 1..last] == body && block[last] == '\n' &&
      block[last + 1..] == m.end
  {
    var lines := m.begin + "\n";
    NewlinesFree("\n", m.end);
    FreeConcat(m.begin, "\n", m.end);
    FreeConcat(lines, body, m.end);
    FreeConcat(lines + body, "\n", m.end);
    assert m.end[0..|m.end|] == m.end;
    SeekPast(lines + body + "\n", m.end, m.end, 0);
  }
}
