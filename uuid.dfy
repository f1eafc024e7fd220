/**
 * Dispatcher identifiers and their text form.
 *
 * A dispatcher identifier is a 128-bit UUID. On the way out it is written in
 * the canonical text form of RFC 4122, section 3: 32 lower-case hexadecimal
 * digits in five dash-separated groups of 8, 4, 4, 4 and 12 digits, byte by
 * byte with the most significant nibble first. On the way in that text is
 * parsed back; digits of either case are accepted.
 */
module Uuid {
  import opened Wrappers

  newtype Byte = x: int | 0 <= x < 256

  /** The 16 bytes of a UUID. */
  type DispatcherId = s: seq<Byte> | |s| == 16
    witness [0, 0, 0, 0, 0, 0, 0, 0, 0, 0, 0, 0, 0, 0, 0, 0]

  /** The lower-case hexadecimal digit for a nibble. */
  function HexDigit(n: nat): char
    requires n < 16
  {
    if n < 10 then ('0' as int + n) as char else ('a' as int + n - 10) as char
  }

  predicate IsDashPosition(i: nat)
  {
    i == 8 || i == 13 || i == 18 || i == 23
  }

  /** Where the first digit of byte `k` stands in the canonical text. */
  function DigitOffset(k: nat): (p: nat)
    requires k < 16
    ensures p + 1 < 36 && !IsDashPosition(p) && !IsDashPosition(p + 1)
  {
    if k < 4 then 2 * k
    else if k < 6 then 2 * k + 1
    else if k < 8 then 2 * k + 2
    else if k < 10 then 2 * k + 3
    else 2 * k + 4
  }

  /** The byte whose digits occupy position `i` of the canonical text. */
  function ByteAt(i: nat): (k: nat)
    requires i < 36 && !IsDashPosition(i)
    ensures k < 16 && (DigitOffset(k) == i || DigitOffset(k) + 1 == i)
  {
    if i < 8 then i / 2
    else if i < 13 then 4 + (i - 9) / 2
    else if i < 18 then 6 + (i - 14) / 2
    else if i < 23 then 8 + (i - 19) / 2
    else 10 + (i - 24) / 2
  }

  /** Character `i` of the canonical text: a dash, or the high or low nibble of one byte. */
  function EncodedChar(id: DispatcherId, i: nat): char
    requires i < 36
  {
    if IsDashPosition(i) then '-'
    else
      var k := ByteAt(i);
      if i == DigitOffset(k) then HexDigit(id[k] as nat / 16) else HexDigit(id[k] as nat % 16)
  }

  /** The canonical text of an identifier. */
  function Encode(id: DispatcherId): (r: string)
    ensures |r| == 36
  {
    seq(36, i requires 0 <= i < 36 => EncodedChar(id, i))
  }

  /** The value of a hexadecimal digit of either case; 255 for any other character. */
  function XValue(c: char): (v: nat)
    ensures v < 16 || v == 255
  {
    if '0' <= c <= '9' then c as nat - '0' as nat
    else if 'a' <= c <= 'f' then c as nat - 'a' as nat + 10
    else if 'A' <= c <= 'F' then c as nat - 'A' as nat + 10
    else 255
  }

  /** The byte spelled by two digits, or None when either is not a hexadecimal digit. */
  function PairByte(hi: char, lo: char): Option<Byte>
  {
    if XValue(hi) < 16 && XValue(lo) < 16 then Some((XValue(hi) * 16 + XValue(lo)) as Byte) else None
  }

  /** Parses the 36-character form: four dashes in place and 16 digit pairs around them. */
  function Parse(s: string): (r: Option<DispatcherId>)
    ensures r.Some? ==> |s| == 36 && s[8] == '-' && s[13] == '-' && s[18] == '-' && s[23] == '-'
    ensures r.Some? ==> forall k | 0 <= k < 16 :: XValue(s[DigitOffset(k)]) < 16 && XValue(s[DigitOffset(k) + 1]) < 16
  {
    if |s| != 36 || s[8] != '-' || s[13] != '-' || s[18] != '-' || s[23] != '-' then None
    else if forall k | 0 <= k < 16 :: PairByte(s[DigitOffset(k)], s[DigitOffset(k) + 1]).Some? then
      Some(seq(16, k requires 0 <= k < 16 => PairByte(s[DigitOffset(k)], s[DigitOffset(k) + 1]).value))
    else None
  }

  function LowerChar(c: char): char
  {
    if 'A' <= c <= 'Z' then (c as int + 32) as char else c
  }

  /** The text with its ASCII capitals lowered, as for a case-insensitive comparison. */
  function Lower(s: string): string
  {
    seq(|s|, i requires 0 <= i < |s| => LowerChar(s[i]))
  }

  /** Byte `k` is the one spelled at both of its digit positions. */
  lemma DigitOffsetInverse(k: nat)
    requires k < 16
    ensures ByteAt(DigitOffset(k)) == k && ByteAt(DigitOffset(k) + 1) == k
  {
  }

  /** The canonical text has its dashes at 8, 13, 18 and 23 and the two digits of byte k at DigitOffset(k). */
  lemma EncodeLayout(id: DispatcherId)
    ensures forall i | 0 <= i < 36 && IsDashPosition(i) :: Encode(id)[i] == '-'
    ensures forall k | 0 <= k < 16 ::
      Encode(id)[DigitOffset(k)] == HexDigit(id[k] as nat / 16) &&
      Encode(id)[DigitOffset(k) + 1] == HexDigit(id[k] as nat % 16)
  {
    forall k | 0 <= k < 16
      ensures Encode(id)[DigitOffset(k)] == HexDigit(id[k] as nat / 16)
      ensures Encode(id)[DigitOffset(k) + 1] == HexDigit(id[k] as nat % 16)
    {
      DigitOffsetInverse(k);
    }
  }

  lemma DigitOfValue(c: char)
    requires XValue(c) < 16
    ensures HexDigit(XValue(c)) == LowerChar(c)
  {
  }

  lemma ValueOfDigit(c: char, n: nat)
    requires n < 16 && LowerChar(c) == HexDigit(n)
    ensures XValue(c) == n
  {
  }

  /** One digit pair of a successful parse, lowered, is that byte's canonical spelling. */
  lemma ParsedPair(s: string, id: DispatcherId, k: nat)
    requires Parse(s) == Some(id) && k < 16
    ensures |s| == 36
    ensures LowerChar(s[DigitOffset(k)]) == HexDigit(id[k] as nat / 16)
    ensures LowerChar(s[DigitOffset(k) + 1]) == HexDigit(id[k] as nat % 16)
  {
    var p := DigitOffset(k);
    assert PairByte(s[p], s[p + 1]).Some?;
    var h, l := XValue(s[p]), XValue(s[p + 1]);
    assert id[k] as nat == h * 16 + l;
    DigitOfValue(s[p]);
    DigitOfValue(s[p + 1]);
  }

  /** Whatever parses is, up to case, the canonical text of what it parses to. */
  lemma ParseSound(s: string, id: DispatcherId)
    requires Parse(s) == Some(id)
    ensures Lower(s) == Encode(id)
  {
    EncodeLayout(id);
    assert |s| == 36;
    forall i | 0 <= i < 36 ensures Lower(s)[i] == Encode(id)[i] {
      if !IsDashPosition(i) {
        ParsedPair(s, id, ByteAt(i));
      }
    }
  }

  /** A text that lowers to the canonical form spells byte `k` of the identifier at its place. */
  lemma CanonicalPair(s: string, id: DispatcherId, k: nat)
    requires Lower(s) == Encode(id) && k < 16
    ensures |s| == 36
    ensures PairByte(s[DigitOffset(k)], s[DigitOffset(k) + 1]) == Some(id[k])
  {
    assert |s| == |Lower(s)| == 36;
    var p := DigitOffset(k);
    DigitOffsetInverse(k);
    assert LowerChar(s[p]) == Lower(s)[p] == EncodedChar(id, p) == HexDigit(id[k] as nat / 16);
    assert LowerChar(s[p + 1]) == Lower(s)[p + 1] == EncodedChar(id, p + 1) == HexDigit(id[k] as nat % 16);
    ValueOfDigit(s[p], id[k] as nat / 16);
    ValueOfDigit(s[p + 1], id[k] as nat % 16);
  }

  lemma CanonicalPairs(s: string, id: DispatcherId)
    requires Lower(s) == Encode(id)
    ensures |s| == 36
    ensures forall k | 0 <= k < 16 :: PairByte(s[DigitOffset(k)], s[DigitOffset(k) + 1]) == Some(id[k])
  {
    assert |s| == |Lower(s)|;
    forall k | 0 <= k < 16
      ensures PairByte(s[DigitOffset(k)], s[DigitOffset(k) + 1]) == Some(id[k])
    {
      CanonicalPair(s, id, k);
    }
  }

  /** The canonical text of an identifier, in any case, parses to that identifier. */
  lemma ParseComplete(s: string, id: DispatcherId)
    requires Lower(s) == Encode(id)
    ensures Parse(s) == Some(id)
  {
    CanonicalPairs(s, id);
    assert s[8] == '-' && s[13] == '-' && s[18] == '-' && s[23] == '-' by {
      EncodeLayout(id);
      assert Lower(s)[8] == '-' && Lower(s)[13] == '-' && Lower(s)[18] == '-' && Lower(s)[23] == '-';
    }
    var parsed := seq(16, k requires 0 <= k < 16 => PairByte(s[DigitOffset(k)], s[DigitOffset(k) + 1]).value);
    assert parsed == id;
  }

  /**
   * Parsing accepts exactly the canonical text of an identifier, in either
   * case, and yields that identifier.
   */
  lemma ParseAccepts(s: string, id: DispatcherId)
    ensures Parse(s) == Some(id) <==> Lower(s) == Encode(id)
  {
    if Parse(s) == Some(id) {
      ParseSound(s, id);
    }
    if Lower(s) == Encode(id) {
      ParseComplete(s, id);
    }
  }

  /** The text written for an identifier parses back to it. */
  lemma ParseEncode(id: DispatcherId)
    ensures Parse(Encode(id)) == Some(id)
  {
    EncodeLayout(id);
    var e := Encode(id);
    forall i | 0 <= i < 36 ensures Lower(e)[i] == e[i] {
      if !IsDashPosition(i) {
        var k := ByteAt(i);
        assert e[i] == HexDigit(id[k] as nat / 16) || e[i] == HexDigit(id[k] as nat % 16);
      }
    }
    assert Lower(e) == e;
    ParseComplete(e, id);
  }

  /** Distinct identifiers have distinct texts. */
  lemma EncodeInjective(a: DispatcherId, b: DispatcherId)
    requires Encode(a) == Encode(b)
    ensures a == b
  {
    ParseEncode(a);
    ParseEncode(b);
  }
}
