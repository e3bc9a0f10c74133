/**
 * The resolver's byte helpers: `toHexBytes`, which writes a digest as hex
 * characters, and `copy`, which pumps an input stream into several outputs.
 */
module ByteStreams {
  import opened Lang

  /** `hexElements`. */
  const HexElements: string := "0123456789abcdef"

  /** The ASCII byte of the hex digit for `nibble`. */
  function HexByte(nibble: nat): (b: int8)
    requires nibble < 16
    ensures 48 <= b < 58 || 97 <= b < 103
  {
    HexElements[nibble] as int as int8
  }

  /** The byte's value read unsigned, `b & 0xFF`. */
  function Unsigned(b: int8): (u: nat)
    ensures u < 256
  {
    (b as int) % 256
  }

  /** The Java byte whose unsigned value is `u`. */
  function ToSigned(u: nat): int8
    requires u < 256
  {
    (if u >= 128 then u - 256 else u) as int8
  }

  /** The hex character for one half of a byte: the high nibble at even positions. */
  function HexDigitOf(b: int8, high: bool): int8
  {
    HexByte(if high then Unsigned(b) / 16 else Unsigned(b) % 16)
  }

  /** Lower-case hex, two characters per byte, high nibble first. */
  function HexEncode(s: seq<int8>): (r: seq<int8>)
    ensures |r| == 2 * |s|
  {
    seq(2 * |s|, i requires 0 <= i < 2 * |s| => HexDigitOf(s[i / 2], i % 2 == 0))
  }

  /** The value of a lower-case hex digit. */
  function Nibble(c: int8): Option<nat>
  {
    if 48 <= c < 58 then Some(c as int - 48)
    else if 97 <= c < 103 then Some(c as int - 87)
    else None
  }

  /** Reads lower-case hex back into bytes; odd lengths and other characters are rejected. */
  function HexDecode(h: seq<int8>): (r: Option<seq<int8>>)
    ensures r.Some? ==> 2 * |r.value| == |h|
  {
    if h == [] then Some([])
    else if |h| < 2 then None
    else
      var hi, lo := Nibble(h[0]), Nibble(h[1]);
      if hi.None? || lo.None? || hi.value >= 16 || lo.value >= 16 then None
      else
        match HexDecode(h[2..])
        case None => None
        case Some(rest) => Some([ToSigned(hi.value * 16 + lo.value)] + rest)
  }

  lemma NibbleOfHexByte(n: nat)
    requires n < 16
    ensures Nibble(HexByte(n)) == Some(n)
  {
  }

  /** The hex of a non-empty sequence is its first byte's two digits, then the hex of the rest. */
  lemma HexEncodeCons(s: seq<int8>)
    requires s != []
    ensures HexEncode(s) == [HexDigitOf(s[0], true), HexDigitOf(s[0], false)] + HexEncode(s[1..])
  {
    var h, t := HexEncode(s), HexEncode(s[1..]);
    forall i | 0 <= i < |t| ensures h[i + 2] == t[i] {
      assert (i + 2) / 2 == i / 2 + 1 && (i + 2) % 2 == i % 2;
    }
  }

  /** One byte's two hex digits decode back to that byte. */
  lemma HexDigitsDecode(b: int8)
    ensures Nibble(HexDigitOf(b, true)) == Some(Unsigned(b) / 16)
    ensures Nibble(HexDigitOf(b, false)) == Some(Unsigned(b) % 16)
    ensures ToSigned(Unsigned(b) / 16 * 16 + Unsigned(b) % 16) == b
  {
    NibbleOfHexByte(Unsigned(b) / 16);
    NibbleOfHexByte(Unsigned(b) % 16);
  }

  /** Decoding two hex digits in front of a decodable rest. */
  lemma HexDecodeCons(hi: int8, lo: int8, t: seq<int8>, b: int8, rest: seq<int8>)
    requires Nibble(hi) == Some(Unsigned(b) / 16) && Nibble(lo) == Some(Unsigned(b) % 16)
    requires ToSigned(Unsigned(b) / 16 * 16 + Unsigned(b) % 16) == b
    requires HexDecode(t) == Some(rest)
    ensures HexDecode([hi, lo] + t) == Some([b] + rest)
  {
    var h := [hi, lo] + t;
    assert h[0] == hi && h[1] == lo && h[2..] == t;
  }

  /** Decoding the hex of a byte sequence gives the sequence back. */
  lemma {:induction false} HexRoundTrip(s: seq<int8>)
    ensures HexDecode(HexEncode(s)) == Some(s)
  {
    if s != [] {
      HexEncodeCons(s);
      HexDigitsDecode(s[0]);
      HexRoundTrip(s[1..]);
      HexDecodeCons(HexDigitOf(s[0], true), HexDigitOf(s[0], false), HexEncode(s[1..]), s[0], s[1..]);
      assert [s[0]] + s[1..] == s;
    }
  }

  /**
   * `toHexBytes`: the new array holds the hex of `digest`, two bytes per input
   * byte.
   */
  method ToHexBytes(digest: array<int8>) returns (chars: array<int8>)
    ensures fresh(chars)
    ensures chars[..] == HexEncode(digest[..])
  {
    chars := new int8[digest.Length * 2];
    for i := 0 to digest.Length
      invariant forall k :: 0 <= k < 2 * i ==> chars[k] == HexDigitOf(digest[k / 2], k % 2 == 0)
    {
      chars[i * 2] := HexDigitOf(digest[i], true);
      chars[i * 2 + 1] := HexDigitOf(digest[i], false);
    }
  }

  // ---------------------------------------------------------------------------
  // toHexBytes as written

  /** `digest[i] >>> 2`: the byte widened with its sign to an int, then shifted right unsigned by two. */
  function ShiftAsWritten(b: int8): nat
  {
    ((b as int) % 0x1_0000_0000) / 4
  }

  /**
   * `toHexBytes` as the source has it: the even position indexes `hexElements`
   * with `digest[i] >>> 2`, which throws once that index is 16 or more.
   */
  function HexAsWritten(s: seq<int8>): (r: Result<seq<int8>, Exception>)
    ensures r.Ok? ==> |r.value| == 2 * |s|
  {
    if s == [] then Ok([])
    else if ShiftAsWritten(s[0]) >= 16 then Err(ArrayIndexOutOfBounds(ShiftAsWritten(s[0])))
    else
      match HexAsWritten(s[1..])
      case Err(e) => Err(e)
      case Ok(t) => Ok([HexByte(ShiftAsWritten(s[0])), HexByte(Unsigned(s[0]) % 16)] + t)
  }

  /** The shifted byte is a valid index exactly for the bytes in [0, 64). */
  lemma ShiftInRange(b: int8)
    ensures ShiftAsWritten(b) < 16 <==> 0 <= b < 64
  {
  }

  /** As written, the conversion succeeds exactly on digests whose bytes all lie in [0, 64). */
  lemma {:induction false} HexAsWrittenDomain(s: seq<int8>)
    ensures HexAsWritten(s).Ok? <==> forall i :: 0 <= i < |s| ==> 0 <= s[i] < 64
  {
    if s != [] {
      ShiftInRange(s[0]);
      HexAsWrittenDomain(s[1..]);
      assert HexAsWritten(s).Ok? <==> ShiftAsWritten(s[0]) < 16 && HexAsWritten(s[1..]).Ok?;
      assert (forall i :: 0 <= i < |s| ==> 0 <= s[i] < 64)
        <==> 0 <= s[0] < 64 && forall i :: 0 <= i < |s[1..]| ==> 0 <= s[1..][i] < 64 by {
        assert forall i :: 1 <= i < |s| ==> s[i] == s[1..][i - 1];
      }
    }
  }

  /** Even where it does not throw, the code as written writes the wrong high digit. */
  lemma HexAsWrittenExamples()
    ensures HexAsWritten([16]) == Ok([52, 48])
    ensures HexEncode([16]) == [49, 48]
    ensures HexAsWritten([64]) == Err(ArrayIndexOutOfBounds(16))
    ensures HexAsWritten([-1]) == Err(ArrayIndexOutOfBounds(0x3FFF_FFFF))
  {
    var s: seq<int8> := [16];
    assert s[1..] == [];
    assert ShiftAsWritten(16) == 4 && Unsigned(16) % 16 == 0;
    assert HexElements[4] == '4' && HexElements[0] == '0';
    assert HexByte(4) == 52 && HexByte(0) == 48;
    assert HexAsWritten(s) == Ok([HexByte(4), HexByte(0)] + []);
    assert [HexByte(4), HexByte(0)] + [] == [52, 48];
    var e := HexEncode([16]);
    assert e[0] == HexDigitOf(16, true) && e[1] == HexDigitOf(16, false);
  }

  // ---------------------------------------------------------------------------
  // copy

  /** Everything an input stream yields, chunk after chunk. */
  function Concat(chunks: seq<seq<int8>>): seq<int8>
  {
    if chunks == [] then [] else Concat(chunks[..|chunks| - 1]) + chunks[|chunks| - 1]
  }

  /**
   * `copy(in, outs...)`: `in.read(buf)` yields `chunks` one by one, and each
   * chunk is written to every output in turn. `outs` holds what each output
   * had received before; the result is what each has received after.
   */
  method Copy(chunks: seq<seq<int8>>, outs: seq<seq<int8>>) returns (written: seq<seq<int8>>)
    ensures |written| == |outs|
    ensures forall k :: 0 <= k < |outs| ==> written[k] == outs[k] + Concat(chunks)
  {
    written := outs;
    var n := 0;
    while n < |chunks|
      invariant 0 <= n <= |chunks|
      invariant |written| == |outs|
      invariant forall k :: 0 <= k < |outs| ==> written[k] == outs[k] + Concat(chunks[..n])
    {
      var buf := chunks[n];
      assert chunks[..n + 1][..n] == chunks[..n];
      var j := 0;
      while j < |written|
        invariant 0 <= j <= |written| == |outs|
        invariant forall k :: 0 <= k < j ==> written[k] == outs[k] + Concat(chunks[..n + 1])
        invariant forall k :: j <= k < |outs| ==> written[k] == outs[k] + Concat(chunks[..n])
      {
        written := written[j := written[j] + buf];
        j := j + 1;
      }
      n := n + 1;
    }
    assert chunks[..n] == chunks;
  }
}
