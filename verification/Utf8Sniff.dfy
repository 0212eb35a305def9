/**
 The text-or-binary sniff over a file's first bytes. A prefix is text exactly
 when it is the beginning of some NUL-free UTF-8 text, whose encoding is that of
 section 3 of RFC 3629.
 */
module Utf8Sniff {
  type Byte = n: nat | n < 256

  // ---------------------------------------------------------------------
  // The encoding
  // ---------------------------------------------------------------------

  type Scalar = n: nat | n < 0xD800 || 0xE000 <= n < 0x11_0000

  function Encode(c: Scalar): (bytes: seq<Byte>)
    ensures 1 <= |bytes| <= 4
  {
    if c < 0x80 then [c]
    else if c < 0x800 then [0xC0 + c / 0x40, 0x80 + c % 0x40]
    else if c < 0x1_0000 then [0xE0 + c / 0x1000, 0x80 + c / 0x40 % 0x40, 0x80 + c % 0x40]
    else [0xF0 + c / 0x4_0000, 0x80 + c / 0x1000 % 0x40, 0x80 + c / 0x40 % 0x40, 0x80 + c % 0x40]
  }

  function EncodeAll(text: seq<Scalar>): seq<Byte> {
    if text == [] then [] else Encode(text[0]) + EncodeAll(text[1..])
  }

  ghost predicate IsUtf8(bytes: seq<Byte>) {
    exists text :: EncodeAll(text) == bytes
  }

  // ---------------------------------------------------------------------
  // Validation, as the standard library reports it
  // ---------------------------------------------------------------------

  /** How many bytes a character starting with `first` takes; 0 when none does. */
  function Width(first: Byte): nat {
    if first < 0x80 then 1
    else if 0xC2 <= first <= 0xDF then 2
    else if 0xE0 <= first <= 0xEF then 3
    else if 0xF0 <= first <= 0xF4 then 4
    else 0
  }

  function LowestSecond(first: Byte): Byte {
    if first == 0xE0 then 0xA0 else if first == 0xF0 then 0x90 else 0x80
  }

  function HighestSecond(first: Byte): Byte {
    if first == 0xED then 0x9F else if first == 0xF4 then 0x8F else 0xBF
  }

  predicate IsContinuation(b: Byte) {
    0x80 <= b <= 0xBF
  }

  datatype Head = Whole(length: nat) | Unfinished | Broken(length: nat)

  /** What stands at the start of the bytes. */
  function ReadHead(bytes: seq<Byte>): (h: Head)
    requires bytes != []
    ensures h.Whole? ==> 1 <= h.length <= 4 && h.length <= |bytes|
  {
    var width := Width(bytes[0]);
    if width == 0 then Broken(1)
    else if width == 1 then Whole(1)
    else if |bytes| == 1 then Unfinished
    else if !(LowestSecond(bytes[0]) <= bytes[1] <= HighestSecond(bytes[0])) then Broken(1)
    else if width == 2 then Whole(2)
    else if |bytes| == 2 then Unfinished
    else if !IsContinuation(bytes[2]) then Broken(2)
    else if width == 3 then Whole(3)
    else if |bytes| == 3 then Unfinished
    else if !IsContinuation(bytes[3]) then Broken(3)
    else Whole(4)
  }

  /** `ErrorLen` is the length of what can never become a character. */
  datatype Verdict = Valid | UnexpectedEnd | ErrorLen(length: nat)

  function FromUtf8(bytes: seq<Byte>): Verdict {
    if bytes == [] then Valid
    else
      match ReadHead(bytes)
      case Whole(n) => FromUtf8(bytes[n..])
      case Unfinished => UnexpectedEnd
      case Broken(n) => ErrorLen(n)
  }

  predicate IsProbablyBinary(prefix: seq<Byte>) {
    if prefix == [] then false
    else if 0 in prefix then true
    else
      match FromUtf8(prefix)
      case Valid => false
      case UnexpectedEnd => false
      case ErrorLen(_) => true
  }

  // ---------------------------------------------------------------------
  // One character
  // ---------------------------------------------------------------------

  /** A longer encoding opens with a second byte in the range of its first. */
  lemma SecondByteFits(c: Scalar)
    requires c >= 0x800
    ensures var bytes := Encode(c);
      Width(bytes[0]) == |bytes| && LowestSecond(bytes[0]) <= bytes[1] <= HighestSecond(bytes[0])
  {
    if c < 0x1_0000 {
      assert c / 0x40 == c / 0x1000 * 0x40 + c / 0x40 % 0x40;
    } else {
      assert c / 0x1000 == c / 0x4_0000 * 0x40 + c / 0x1000 % 0x40;
    }
  }

  lemma EncodedReads(c: Scalar, rest: seq<Byte>)
    ensures ReadHead(Encode(c) + rest) == Whole(|Encode(c)|)
  {
    var bytes := Encode(c) + rest;
    assert forall i | 0 <= i < |Encode(c)| :: bytes[i] == Encode(c)[i];
    if c >= 0x800 {
      SecondByteFits(c);
      ContinuationsFit(c);
      hide Encode, Width, LowestSecond, HighestSecond;
    }
  }

  lemma ContinuationsFit(c: Scalar)
    requires c >= 0x800
    ensures |Encode(c)| >= 3 && forall i | 2 <= i < |Encode(c)| :: IsContinuation(Encode(c)[i])
  {
  }

  function Low(b: Byte): nat
    requires IsContinuation(b)
  {
    b - 0x80
  }

  /** The character that a whole head encodes. */
  function DecodeHead(bytes: seq<Byte>): (c: Scalar)
    requires bytes != [] && ReadHead(bytes).Whole?
  {
    match ReadHead(bytes).length
    case 1 => bytes[0]
    case 2 => (bytes[0] - 0xC0) * 0x40 + Low(bytes[1])
    case 3 => (bytes[0] - 0xE0) * 0x1000 + Low(bytes[1]) * 0x40 + Low(bytes[2])
    case 4 => (bytes[0] - 0xF0) * 0x4_0000 + Low(bytes[1]) * 0x1000 + Low(bytes[2]) * 0x40 + Low(bytes[3])
  }

  lemma OneEncodes(a: Byte)
    requires Width(a) == 1
    ensures Encode(a) == [a]
  {
  }

  lemma TwoEncode(a: Byte, b: Byte)
    requires Width(a) == 2 && LowestSecond(a) <= b <= HighestSecond(a)
    ensures var c: Scalar := (a - 0xC0) * 0x40 + (b - 0x80); Encode(c) == [a, b]
  {
  }

  lemma ThreeEncode(a: Byte, b: Byte, d: Byte)
    requires Width(a) == 3 && LowestSecond(a) <= b <= HighestSecond(a) && IsContinuation(d)
    ensures var c: Scalar := (a - 0xE0) * 0x1000 + (b - 0x80) * 0x40 + (d - 0x80); Encode(c) == [a, b, d]
  {
    var c: Scalar := (a - 0xE0) * 0x1000 + (b - 0x80) * 0x40 + (d - 0x80);
    assert c / 0x40 == (a - 0xE0) * 0x40 + (b - 0x80);
  }

  lemma FourEncode(a: Byte, b: Byte, d: Byte, e: Byte)
    requires Width(a) == 4 && LowestSecond(a) <= b <= HighestSecond(a) && IsContinuation(d) && IsContinuation(e)
    ensures var c: Scalar := (a - 0xF0) * 0x4_0000 + (b - 0x80) * 0x1000 + (d - 0x80) * 0x40 + (e - 0x80);
      Encode(c) == [a, b, d, e]
  {
    var c: Scalar := (a - 0xF0) * 0x4_0000 + (b - 0x80) * 0x1000 + (d - 0x80) * 0x40 + (e - 0x80);
    FourDigits(a - 0xF0, b - 0x80, d - 0x80, e - 0x80);
    assert 0x1_0000 <= c;
  }

  lemma FourDigits(w: nat, x: nat, y: nat, z: nat)
    requires x < 0x40 && y < 0x40 && z < 0x40
    ensures var c := w * 0x4_0000 + x * 0x1000 + y * 0x40 + z;
      c / 0x4_0000 == w && c / 0x1000 % 0x40 == x && c / 0x40 % 0x40 == y && c % 0x40 == z
  {
    var c := w * 0x4_0000 + x * 0x1000 + y * 0x40 + z;
    assert c / 0x40 == w * 0x1000 + x * 0x40 + y;
    assert c / 0x1000 == w * 0x40 + x;
  }

  lemma DecodedEncodes(bytes: seq<Byte>)
    requires bytes != [] && ReadHead(bytes).Whole?
    ensures Encode(DecodeHead(bytes)) == bytes[..ReadHead(bytes).length]
  {
    hide Encode;
    match ReadHead(bytes).length
    case 1 => OneEncodes(bytes[0]);
    case 2 => TwoEncode(bytes[0], bytes[1]);
    case 3 => ThreeEncode(bytes[0], bytes[1], bytes[2]);
    case 4 => FourEncode(bytes[0], bytes[1], bytes[2], bytes[3]);
  }

  /** A head that is decided stays as it is when more bytes follow. */
  lemma DecidedHeadStays(bytes: seq<Byte>, more: seq<Byte>)
    requires bytes != [] && !ReadHead(bytes).Unfinished?
    ensures ReadHead(bytes + more) == ReadHead(bytes)
  {
  }

  /** Bytes that finish an unfinished character, none of them NUL. */
  function Completion(bytes: seq<Byte>): (more: seq<Byte>)
    requires bytes != [] && ReadHead(bytes).Unfinished?
    ensures 0 !in more
  {
    var missing := Width(bytes[0]) - |bytes|;
    if |bytes| == 1 then [LowestSecond(bytes[0])] + seq(missing - 1, _ => 0x80) else seq(missing, _ => 0x80)
  }

  lemma CompletionReads(bytes: seq<Byte>)
    requires bytes != [] && ReadHead(bytes).Unfinished?
    ensures ReadHead(bytes + Completion(bytes)) == Whole(|bytes + Completion(bytes)|)
  {
  }

  // ---------------------------------------------------------------------
  // Whole texts
  // ---------------------------------------------------------------------

  lemma {:induction false} EncodingsAreValid(text: seq<Scalar>)
    ensures FromUtf8(EncodeAll(text)) == Valid
  {
    if text != [] {
      EncodedReads(text[0], EncodeAll(text[1..]));
      var bytes := Encode(text[0]) + EncodeAll(text[1..]);
      assert bytes[|Encode(text[0])|..] == EncodeAll(text[1..]);
      EncodingsAreValid(text[1..]);
    }
  }

  lemma ValidHead(bytes: seq<Byte>)
    requires bytes != [] && FromUtf8(bytes) == Valid
    ensures ReadHead(bytes).Whole? && FromUtf8(bytes[ReadHead(bytes).length..]) == Valid
  {
    hide ReadHead;
  }

  lemma EncodeAllCons(c: Scalar, rest: seq<Scalar>)
    ensures EncodeAll([c] + rest) == Encode(c) + EncodeAll(rest)
  {
    hide Encode;
    assert ([c] + rest)[1..] == rest;
  }

  lemma EncodedInParts(bytes: seq<Byte>, n: nat, c: Scalar, rest: seq<Scalar>)
    requires n <= |bytes| && Encode(c) == bytes[..n] && EncodeAll(rest) == bytes[n..]
    ensures EncodeAll([c] + rest) == bytes
  {
    hide Encode, EncodeAll;
    EncodeAllCons(c, rest);
    assert bytes == bytes[..n] + bytes[n..];
  }

  lemma {:induction false} ValidBytesDecode(bytes: seq<Byte>) returns (text: seq<Scalar>)
    requires FromUtf8(bytes) == Valid
    ensures EncodeAll(text) == bytes
  {
    if bytes == [] {
      text := [];
    } else {
      hide ReadHead, DecodeHead, Encode, EncodeAll, FromUtf8;
      ValidHead(bytes);
      DecodedEncodes(bytes);
      var n := ReadHead(bytes).length;
      var rest := ValidBytesDecode(bytes[n..]);
      text := [DecodeHead(bytes)] + rest;
      EncodedInParts(bytes, n, DecodeHead(bytes), rest);
    }
  }

  /** The validator accepts exactly the encodings of scalar values. */
  lemma ValidIffUtf8(bytes: seq<Byte>)
    ensures FromUtf8(bytes) == Valid <==> IsUtf8(bytes)
  {
    if FromUtf8(bytes) == Valid {
      var text := ValidBytesDecode(bytes);
    }
    if IsUtf8(bytes) {
      var text :| EncodeAll(text) == bytes;
      EncodingsAreValid(text);
    }
  }

  lemma {:induction false} ErrorsStay(bytes: seq<Byte>, more: seq<Byte>)
    requires FromUtf8(bytes).ErrorLen?
    ensures FromUtf8(bytes + more) == FromUtf8(bytes)
  {
    DecidedHeadStays(bytes, more);
    if ReadHead(bytes).Whole? {
      var n := ReadHead(bytes).length;
      assert (bytes + more)[n..] == bytes[n..] + more;
      ErrorsStay(bytes[n..], more);
    }
  }

  /** Everything else can be finished, without a NUL. */
  lemma {:induction false} Finish(bytes: seq<Byte>) returns (more: seq<Byte>)
    requires !FromUtf8(bytes).ErrorLen?
    ensures 0 !in more && FromUtf8(bytes + more) == Valid
  {
    if bytes == [] {
      more := [];
    } else if ReadHead(bytes).Unfinished? {
      more := Completion(bytes);
      CompletionReads(bytes);
      assert (bytes + more)[|bytes + more|..] == [];
    } else {
      var n := ReadHead(bytes).length;
      more := Finish(bytes[n..]);
      DecidedHeadStays(bytes, more);
      assert (bytes + more)[n..] == bytes[n..] + more;
    }
  }

  ghost predicate IsText(bytes: seq<Byte>) {
    0 !in bytes && IsUtf8(bytes)
  }

  /** Not binary, exactly: the beginning of some NUL-free UTF-8 text. */
  lemma TextIffPrefixOfText(prefix: seq<Byte>)
    ensures !IsProbablyBinary(prefix) <==> exists more :: IsText(prefix + more)
  {
    if !IsProbablyBinary(prefix) {
      var more := Finish(prefix);
      ValidIffUtf8(prefix + more);
      assert IsText(prefix + more);
    }
    if exists more :: IsText(prefix + more) {
      var more :| IsText(prefix + more);
      ValidIffUtf8(prefix + more);
      assert forall b | b in prefix :: b in prefix + more;
      if FromUtf8(prefix).ErrorLen? {
        ErrorsStay(prefix, more);
      }
    }
  }

  /** No NUL-free UTF-8 file is called binary, wherever the sniffed prefix is cut. */
  lemma TruncatedTextIsText(file: seq<Byte>, sniffed: nat)
    requires IsText(file) && sniffed <= |file|
    ensures !IsProbablyBinary(file[..sniffed])
  {
    assert file[..sniffed] + file[sniffed..] == file;
    TextIffPrefixOfText(file[..sniffed]);
  }

  /** Reading further never turns a binary prefix into text. */
  lemma BinaryStaysBinary(prefix: seq<Byte>, more: seq<Byte>)
    requires IsProbablyBinary(prefix)
    ensures IsProbablyBinary(prefix + more)
  {
    if !IsProbablyBinary(prefix + more) {
      TextIffPrefixOfText(prefix + more);
      var rest :| IsText(prefix + more + rest);
      assert prefix + more + rest == prefix + (more + rest);
      TextIffPrefixOfText(prefix);
    }
  }
}
