/**
 * `bytearray.fromhex`, which turns the command string returned by the exchange service into
 * the bytes written to the control characteristic, and `bytes.hex`, its inverse.
 *
 * The decoder follows CPython 3.7 and later: ASCII whitespace is skipped before each byte,
 * each byte is exactly two adjacent hex digits (upper or lower case), and anything else,
 * including whitespace between the two digits of one byte or a lone trailing digit, is an error.
 */
module Hex {
  import opened Wrappers
  import opened Py

  /** The characters CPython skips between bytes: space, tab, LF, VT, FF, CR. */
  predicate IsSpace(c: char)
  {
    c == ' ' || '\t' <= c <= '\r'
  }

  predicate IsHexDigit(c: char)
  {
    '0' <= c <= '9' || 'a' <= c <= 'f' || 'A' <= c <= 'F'
  }

  function DigitValue(c: char): (v: nat)
    requires IsHexDigit(c)
    ensures v < 16
  {
    if '0' <= c <= '9' then c as int - '0' as int
    else if 'a' <= c <= 'f' then c as int - 'a' as int + 10
    else c as int - 'A' as int + 10
  }

  function PairValue(hi: char, lo: char): byte
    requires IsHexDigit(hi) && IsHexDigit(lo)
  {
    (16 * DigitValue(hi) + DigitValue(lo)) as byte
  }

  /** `bytearray.fromhex(text)`; `None` stands for the `ValueError` it raises. */
  function FromHex(text: string): Option<seq<byte>>
    decreases |text|
  {
    if text == [] then Some([])
    else if IsSpace(text[0]) then FromHex(text[1..])
    else if |text| >= 2 && IsHexDigit(text[0]) && IsHexDigit(text[1]) then
      match FromHex(text[2..])
      case None => None
      case Some(rest) => Some([PairValue(text[0], text[1])] + rest)
    else None
  }

  /** The lower-case hex digit of a value below 16. */
  function Digit(v: nat): (c: char)
    requires v < 16
    ensures IsHexDigit(c) && !IsSpace(c) && DigitValue(c) == v
  {
    if v < 10 then ('0' as int + v) as char else ('a' as int + v - 10) as char
  }

  /** `bytes.hex()`: two lower-case digits per byte, no separators. */
  function ToHex(bytes: seq<byte>): (text: string)
    ensures |text| == 2 * |bytes|
    ensures forall c <- text :: IsHexDigit(c) && !IsSpace(c)
  {
    if bytes == [] then ""
    else [Digit(bytes[0] as int / 16), Digit(bytes[0] as int % 16)] + ToHex(bytes[1..])
  }

  /** Number of characters that are not skipped as whitespace. */
  function NonSpaceCount(text: string): nat
  {
    if text == [] then 0 else (if IsSpace(text[0]) then 0 else 1) + NonSpaceCount(text[1..])
  }

  /** Decoding the hex form of any byte string gives the bytes back. */
  lemma {:induction false} FromHexToHex(bytes: seq<byte>)
    ensures FromHex(ToHex(bytes)) == Some(bytes)
  {
    if bytes != [] {
      var text := ToHex(bytes);
      assert text[2..] == ToHex(bytes[1..]);
      FromHexToHex(bytes[1..]);
      assert PairValue(text[0], text[1]) == bytes[0];
      assert [bytes[0]] + bytes[1..] == bytes;
    }
  }

  /** Every decoded byte consumes exactly two non-whitespace characters. */
  lemma {:induction false} DecodedLength(text: string)
    ensures FromHex(text).Some? ==> 2 * |FromHex(text).value| == NonSpaceCount(text)
    decreases |text|
  {
    if text != [] {
      if IsSpace(text[0]) {
        DecodedLength(text[1..]);
      } else if |text| >= 2 && IsHexDigit(text[0]) && IsHexDigit(text[1]) {
        DecodedLength(text[2..]);
        assert text[1..][1..] == text[2..];
      }
    }
  }

  /** A character that is neither whitespace nor a hex digit fails the whole text, wherever it is. */
  lemma {:induction false} NonHexFails(text: string, i: nat)
    requires i < |text| && !IsSpace(text[i]) && !IsHexDigit(text[i])
    ensures FromHex(text) == None
    decreases |text|
  {
    if i > 0 {
      if IsSpace(text[0]) {
        assert text[1..][i - 1] == text[i];
        NonHexFails(text[1..], i - 1);
      } else if i >= 2 && IsHexDigit(text[0]) && IsHexDigit(text[1]) {
        assert text[2..][i - 2] == text[i];
        NonHexFails(text[2..], i - 2);
      }
    }
  }

  /** An odd number of digits always fails. */
  lemma OddDigitCountFails(text: string)
    requires NonSpaceCount(text) % 2 == 1
    ensures FromHex(text) == None
  {
    DecodedLength(text);
  }

  /** Without whitespace, decoding succeeds exactly when the text is an even number of hex digits. */
  lemma {:induction false} CompactHexAccepted(text: string)
    requires forall c <- text :: !IsSpace(c)
    ensures FromHex(text).Some? <==> |text| % 2 == 0 && forall c <- text :: IsHexDigit(c)
    decreases |text|
  {
    if |text| == 1 {
      assert text[0] in text;
      assert FromHex(text) == None;
    } else if |text| >= 2 {
      var tail := text[2..];
      assert text == [text[0], text[1]] + tail;
      assert text[0] in text && text[1] in text;
      assert forall c <- tail :: c in text;
      CompactHexAccepted(tail);
      if IsHexDigit(text[0]) && IsHexDigit(text[1]) {
        assert FromHex(text).Some? <==> FromHex(tail).Some?;
        assert (forall c <- text :: IsHexDigit(c)) <==> (forall c <- tail :: IsHexDigit(c));
      } else {
        assert FromHex(text) == None;
      }
    }
  }

  /** Without whitespace, byte i of the decoded command is the value of digits 2i and 2i + 1. */
  lemma {:induction false} CompactHexValues(text: string, bytes: seq<byte>)
    requires forall c <- text :: !IsSpace(c)
    requires FromHex(text) == Some(bytes)
    ensures |text| % 2 == 0 && |bytes| == |text| / 2
    ensures forall c <- text :: IsHexDigit(c)
    ensures forall i | 0 <= i < |bytes| :: bytes[i] == PairValue(text[2 * i], text[2 * i + 1])
    decreases |text|
  {
    CompactHexAccepted(text);
    if text != [] {
      var tail := text[2..];
      assert forall c <- tail :: c in text;
      CompactHexValues(tail, bytes[1..]);
      forall i | 0 <= i < |bytes|
        ensures bytes[i] == PairValue(text[2 * i], text[2 * i + 1])
      {
        if i > 0 {
          assert text[2 * i] == tail[2 * (i - 1)] && text[2 * i + 1] == tail[2 * (i - 1) + 1];
        }
      }
    }
  }

  /** A compact command decodes two digits per byte. */
  lemma CompactExample()
    ensures FromHex("0A1B") == Some([0x0A, 0x1B])
  {
    assert PairValue('0', 'A') == 0x0A && PairValue('1', 'B') == 0x1B;
    var empty: seq<byte> := [];
    assert FromHex("") == Some(empty);
    assert "1B"[2..] == "" && [0x1B] + empty == [0x1B as byte];
    assert FromHex("1B") == Some([0x1B]);
    assert "0A1B"[2..] == "1B" && [0x0A as byte] + [0x1B] == [0x0A, 0x1B];
  }

  /** Whitespace between bytes is skipped, in either letter case. */
  lemma SpacedExample()
    ensures FromHex("1a 2B\n3c") == Some([0x1A, 0x2B, 0x3C])
  {
    assert PairValue('1', 'a') == 0x1A && PairValue('2', 'B') == 0x2B && PairValue('3', 'c') == 0x3C;
    var empty: seq<byte> := [];
    assert FromHex("") == Some(empty);
    assert "3c"[2..] == "" && [0x3C] + empty == [0x3C as byte];
    assert FromHex("3c") == Some([0x3C]);
    var s := "\n3c";
    assert IsSpace(s[0]) && s[1..] == "3c";
    assert FromHex(s) == Some([0x3C]);
    assert "2B\n3c"[2..] == s && [0x2B as byte] + [0x3C] == [0x2B, 0x3C];
    assert FromHex("2B\n3c") == Some([0x2B, 0x3C]);
    assert " 2B\n3c"[1..] == "2B\n3c";
    assert "1a 2B\n3c"[2..] == " 2B\n3c" && [0x1A as byte] + [0x2B, 0x3C] == [0x1A, 0x2B, 0x3C];
  }

  /** A lone trailing digit, whitespace inside a byte, and a non-hex character are errors. */
  lemma RejectedExamples()
    ensures FromHex("0A1") == None
    ensures FromHex("0 A") == None
    ensures FromHex("0G") == None
  {
    assert "0A1"[2..] == "1";
  }
}
