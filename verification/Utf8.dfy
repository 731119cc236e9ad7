/** Cutting text to a byte budget: oversized responses are cut in their UTF-8 bytes, oversized task
    results by UTF-16 code units. */
module Utf8 {

  type Byte = b: int | 0 <= b < 0x100

  predicate Tail(b: Byte) { 0x80 <= b <= 0xBF }

  /** Length of the well-formed character at the start of `s`, or 0: section 4 of RFC 3629. */
  function CharLen(s: seq<Byte>): (n: nat)
    ensures n <= 4 && n <= |s|
  {
    if |s| >= 1 && s[0] <= 0x7F then 1
    else if |s| >= 2 && 0xC2 <= s[0] <= 0xDF && Tail(s[1]) then 2
    else if |s| >= 3 && Tail(s[2]) && (
      || (s[0] == 0xE0 && 0xA0 <= s[1] <= 0xBF)
      || (0xE1 <= s[0] <= 0xEC && Tail(s[1]))
      || (s[0] == 0xED && 0x80 <= s[1] <= 0x9F)
      || (0xEE <= s[0] <= 0xEF && Tail(s[1]))) then 3
    else if |s| >= 4 && Tail(s[2]) && Tail(s[3]) && (
      || (s[0] == 0xF0 && 0x90 <= s[1] <= 0xBF)
      || (0xF1 <= s[0] <= 0xF3 && Tail(s[1]))
      || (s[0] == 0xF4 && 0x80 <= s[1] <= 0x8F)) then 4
    else 0
  }

  predicate Valid(s: seq<Byte>) {
    s == [] || (CharLen(s) > 0 && Valid(s[CharLen(s)..]))
  }

  /** A character is one start byte and tails. */
  lemma CharShape(s: seq<Byte>)
    requires CharLen(s) > 0
    ensures !Tail(s[0]) && forall i :: 0 < i < CharLen(s) ==> Tail(s[i])
    ensures forall e :: CharLen(s) <= e <= |s| ==> CharLen(s[..e]) == CharLen(s)
    ensures forall e :: 0 < e < CharLen(s) ==> CharLen(s[..e]) == 0
  {
  }

  /** Backing up from inside a valid text to a byte that starts a character loses at most three
      bytes and leaves a valid prefix. */
  lemma {:induction false} BackUp(s: seq<Byte>, end: nat, limit: nat)
    requires Valid(s) && end <= limit < |s|
    requires forall i :: end < i <= limit ==> Tail(s[i])
    requires end > 0 ==> !Tail(s[end])
    ensures Valid(s[..end]) && limit - end <= 3
    decreases |s|
  {
    var n := CharLen(s);
    CharShape(s);
    if end >= n {
      BackUp(s[n..], end - n, limit - n);
      assert s[..end][n..] == s[n..][..end - n];
    } else if end == 0 {
      if limit >= n {
        CharStarts(s[n..]);
      }
    }
  }

  lemma CharStarts(s: seq<Byte>)
    requires Valid(s) && s != []
    ensures !Tail(s[0])
  {
    CharShape(s);
  }

  /** After a valid proper prefix of a valid text comes a start byte. */
  lemma {:induction false} PrefixEndsAtStart(s: seq<Byte>, p: nat)
    requires Valid(s) && p < |s| && Valid(s[..p])
    ensures !Tail(s[p])
    decreases |s|
  {
    CharShape(s);
    if p > 0 {
      var n := CharLen(s);
      assert s[..p][n..] == s[n..][..p - n];
      PrefixEndsAtStart(s[n..], p - n);
    }
  }

  /** Where the backward scan from `limit` stops. */
  function CutEnd(buf: seq<Byte>, limit: nat): (end: nat)
    requires limit < |buf|
    ensures end <= limit && (end > 0 ==> !Tail(buf[end])) && forall i :: end < i <= limit ==> Tail(buf[i])
  {
    if limit > 0 && Tail(buf[limit]) then CutEnd(buf, limit - 1) else limit
  }

  /** On valid text it stops at the end of the longest valid prefix within the limit. */
  lemma CutIsLongestPrefix(buf: seq<Byte>, limit: nat)
    requires limit < |buf| && Valid(buf)
    ensures Valid(buf[..CutEnd(buf, limit)]) && limit - CutEnd(buf, limit) <= 3
    ensures forall p :: CutEnd(buf, limit) < p <= limit ==> !Valid(buf[..p])
  {
    var end := CutEnd(buf, limit);
    BackUp(buf, end, limit);
    forall p | end < p <= limit ensures !Valid(buf[..p]) {
      if Valid(buf[..p]) { PrefixEndsAtStart(buf, p); }
    }
  }

  /** The backward scan.  On valid text it finds the longest valid prefix within the limit. */
  method CutBytes(buf: seq<Byte>, limit: nat) returns (end: nat)
    requires limit < |buf|
    ensures end == CutEnd(buf, limit)
    ensures Valid(buf) ==> Valid(buf[..end]) && limit - end <= 3
    ensures Valid(buf) ==> forall p :: end < p <= limit ==> !Valid(buf[..p])
  {
    end := limit;
    while end > 0 && Tail(buf[end])
      invariant end <= limit && CutEnd(buf, end) == CutEnd(buf, limit)
    {
      end := end - 1;
    }
    if Valid(buf) { CutIsLongestPrefix(buf, limit); }
  }

  // ---- Task results ---------------------------------------------------------------------------

  /** A UTF-16 code unit. */
  type Unit = u: int | 0 <= u < 0x1_0000

  const MAX_RESULT_BYTES: nat := 60_000

  function Units(s: string): seq<Unit>
    requires forall i :: 0 <= i < |s| ==> s[i] < 0x80 as char
  {
    seq(|s|, i requires 0 <= i < |s| => s[i] as Unit)
  }

  const MARKER: seq<Unit> := Units("\n[...result truncated]")

  predicate High(u: Unit) { 0xD800 <= u <= 0xDBFF }
  predicate Low(u: Unit) { 0xDC00 <= u <= 0xDFFF }

  /** Bytes of one code unit encoded alone; a lone surrogate becomes the replacement character. */
  function UnitBytes(u: Unit): nat {
    if u < 0x80 then 1 else if u < 0x800 then 2 else 3
  }

  /** `Buffer.byteLength(s, "utf8")`: a surrogate pair takes four bytes. */
  function ByteLength(s: seq<Unit>): nat {
    if s == [] then 0
    else if |s| >= 2 && High(s[0]) && Low(s[1]) then 4 + ByteLength(s[2..])
    else UnitBytes(s[0]) + ByteLength(s[1..])
  }

  /** The bytes of a code point, by section 3 of RFC 3629. */
  function EncodePoint(p: int): (b: seq<Byte>)
    requires 0 <= p < 0x11_0000
  {
    if p < 0x80 then [p]
    else if p < 0x800 then [0xC0 + p / 0x40, 0x80 + p % 0x40]
    else if p < 0x1_0000 then [0xE0 + p / 0x1000, 0x80 + p / 0x40 % 0x40, 0x80 + p % 0x40]
    else [0xF0 + p / 0x4_0000, 0x80 + p / 0x1000 % 0x40, 0x80 + p / 0x40 % 0x40, 0x80 + p % 0x40]
  }

  lemma Digits(p: int)
    requires 0 <= p < 0x11_0000
    ensures p / 0x40 % 0x40 == p / 0x40 - p / 0x1000 * 0x40
    ensures p / 0x1000 % 0x40 == p / 0x1000 - p / 0x4_0000 * 0x40
  {
  }

  /** A code point is encoded as one well-formed character. */
  lemma PointIsChar(p: int)
    requires 0 <= p < 0x11_0000 && !(0xD800 <= p <= 0xDFFF)
    ensures CharLen(EncodePoint(p)) == |EncodePoint(p)| > 0
  {
    Digits(p);
  }

  lemma CharBefore(b: seq<Byte>, rest: seq<Byte>)
    requires CharLen(b) == |b| > 0
    ensures CharLen(b + rest) == |b|
  {
  }

  function PairPoint(h: int, l: int): int {
    0x1_0000 + (h - 0xD800) * 0x400 + (l - 0xDC00)
  }

  /** The encoded text: a surrogate pair is one code point, a lone surrogate the replacement character. */
  function Encode(s: seq<Unit>): seq<Byte> {
    if s == [] then []
    else if |s| >= 2 && High(s[0]) && Low(s[1]) then
      EncodePoint(PairPoint(s[0], s[1])) + Encode(s[2..])
    else EncodePoint(if High(s[0]) || Low(s[0]) then 0xFFFD else s[0]) + Encode(s[1..])
  }

  /** The byte length is the length of the encoded text, which is valid. */
  lemma {:induction false} ByteLengthIsEncoded(s: seq<Unit>)
    ensures |Encode(s)| == ByteLength(s) && Valid(Encode(s))
    decreases |s|
  {
    if s != [] {
      var pair := |s| >= 2 && High(s[0]) && Low(s[1]);
      var p: int := if pair then PairPoint(s[0], s[1])
                    else if High(s[0]) || Low(s[0]) then 0xFFFD else s[0];
      var rest := if pair then s[2..] else s[1..];
      ByteLengthIsEncoded(rest);
      PointIsChar(p);
      CharBefore(EncodePoint(p), Encode(rest));
      assert Encode(s) == EncodePoint(p) + Encode(rest);
      assert Encode(s)[|EncodePoint(p)|..] == Encode(rest);
    }
  }

  /** The sum the loop counts, unit by unit. */
  function SumBytes(s: seq<Unit>): nat {
    if s == [] then 0 else SumBytes(s[..|s| - 1]) + UnitBytes(s[|s| - 1])
  }

  lemma {:induction false} SumCons(s: seq<Unit>)
    requires s != []
    ensures SumBytes(s) == UnitBytes(s[0]) + SumBytes(s[1..])
  {
    if |s| > 1 {
      SumCons(s[..|s| - 1]);
      assert s[..|s| - 1][1..] == s[1..][..|s| - 2];
    }
  }

  /** Counting surrogates one by one never undercounts. */
  lemma {:induction false} LengthAtMostSum(s: seq<Unit>)
    ensures ByteLength(s) <= SumBytes(s)
    decreases |s|
  {
    if s != [] {
      SumCons(s);
      if |s| >= 2 && High(s[0]) && Low(s[1]) {
        SumCons(s[1..]);
        assert s[1..][1..] == s[2..];
        LengthAtMostSum(s[2..]);
      } else {
        LengthAtMostSum(s[1..]);
      }
    }
  }

  /** Text that starts with no low surrogate never joins what precedes it. */
  lemma {:induction false} LengthConcat(s: seq<Unit>, t: seq<Unit>)
    requires t != [] && !Low(t[0])
    ensures ByteLength(s + t) == ByteLength(s) + ByteLength(t)
    decreases |s|
  {
    if s == [] {
      assert s + t == t;
    } else if |s| >= 2 && High(s[0]) && Low(s[1]) {
      assert (s + t)[2..] == s[2..] + t;
      LengthConcat(s[2..], t);
    } else {
      assert (s + t)[1..] == s[1..] + t;
      LengthConcat(s[1..], t);
    }
  }

  lemma {:induction false} AsciiLength(s: seq<Unit>)
    requires forall i :: 0 <= i < |s| ==> s[i] < 0x80
    ensures ByteLength(s) == |s|
  {
    if s != [] { AsciiLength(s[1..]); }
  }

  /** `capped` is the first `n` units of `result` and the marker, and one more unit would not have
      fitted when each unit is counted alone. */
  ghost predicate CutAt(result: seq<Unit>, n: nat, marker: seq<Unit>, cap: nat, capped: seq<Unit>) {
    && n < |result|
    && capped == result[..n] + marker
    && SumBytes(result[..n]) + ByteLength(marker) <= cap < SumBytes(result[..n + 1]) + ByteLength(marker)
  }

  lemma SumStep(s: seq<Unit>, i: nat)
    requires i < |s|
    ensures SumBytes(s[..i + 1]) == SumBytes(s[..i]) + UnitBytes(s[i])
  {
    assert s[..i + 1][..i] == s[..i];
  }

  lemma MarkerLength()
    ensures ByteLength(MARKER) == |MARKER| == 22 && !Low(MARKER[0])
  {
    AsciiLength(MARKER);
  }

  /** A cut result is within the cap. */
  lemma CutFits(result: seq<Unit>, n: nat, marker: seq<Unit>, cap: nat, capped: seq<Unit>)
    requires marker != [] && !Low(marker[0])
    requires CutAt(result, n, marker, cap, capped)
    ensures ByteLength(capped) <= cap
  {
    LengthAtMostSum(result[..n]);
    LengthConcat(result[..n], marker);
  }

  /** A result within the cap is left alone; a longer one becomes a prefix of itself and the marker,
      within the cap, and as long as the count allows. */
  method CapResult(result: seq<Unit>) returns (capped: seq<Unit>)
    ensures ByteLength(capped) <= MAX_RESULT_BYTES
    ensures ByteLength(result) <= MAX_RESULT_BYTES ==> capped == result
    ensures ByteLength(result) > MAX_RESULT_BYTES ==> exists n :: CutAt(result, n, MARKER, MAX_RESULT_BYTES, capped)
  {
    MarkerLength();
    capped := Cap(result, MARKER, MAX_RESULT_BYTES);
  }

  method Cap(result: seq<Unit>, marker: seq<Unit>, cap: nat) returns (capped: seq<Unit>)
    requires marker != [] && !Low(marker[0]) && ByteLength(marker) <= cap
    ensures ByteLength(capped) <= cap
    ensures ByteLength(result) <= cap ==> capped == result
    ensures ByteLength(result) > cap ==> exists n :: CutAt(result, n, marker, cap, capped)
  {
    if ByteLength(result) <= cap { return result; }
    LengthAtMostSum(result);
    var n := TakeUnits(result, cap - ByteLength(marker));
    assert result[..|result|] == result;
    capped := result[..n] + marker;
    assert n < |result|;
    assert CutAt(result, n, marker, cap, capped);
    CutFits(result, n, marker, cap, capped);
  }

  method TakeUnits(result: seq<Unit>, budget: nat) returns (i: nat)
    ensures i <= |result| && SumBytes(result[..i]) <= budget
    ensures i < |result| ==> SumBytes(result[..i + 1]) > budget
  {
    var cutLen := budget;
    i := 0;
    while i < |result| && cutLen > 0
      invariant 0 <= i <= |result|
      invariant cutLen >= 0 && cutLen + SumBytes(result[..i]) == budget
    {
      var charBytes := UnitBytes(result[i]);
      SumStep(result, i);
      if charBytes > cutLen { return; }
      cutLen := cutLen - charBytes;
      i := i + 1;
    }
    if i < |result| { SumStep(result, i); }
  }
}
