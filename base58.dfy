/** Base58 text in the Bitcoin alphabet, as the `base58` package's
    `b58decode` reads it: each leading '1' stands for one zero byte and the
    remaining characters are a big-endian base-58 number, written out as the
    shortest big-endian byte string. `Encode` is the inverse direction, used
    to characterise exactly which texts decode and to what. */
module Base58 {
  import opened Wrappers
  import opened Positional

  type byte = b: nat | b < 256

  /** The Bitcoin alphabet, digit 0 first:
      "123456789ABCDEFGHJKLMNPQRSTUVWXYZabcdefghijkmnopqrstuvwxyz", written
      as its runs of consecutive characters. */
  const Alphabet: string :=
    "123456789" + "ABCDEFGH" + "JKLMN" + "PQRSTUVWXYZ" + "abcdefghijk" + "mnopqrstuvwxyz"

  /** Where each run of `Alphabet` starts, and that it is consecutive. */
  lemma AlphabetRuns()
    ensures |Alphabet| == 58
    ensures forall d :: 0 <= d < 9 ==> Alphabet[d] == ('1' as int + d) as char
    ensures forall d :: 9 <= d < 17 ==> Alphabet[d] == ('A' as int + (d - 9)) as char
    ensures forall d :: 17 <= d < 22 ==> Alphabet[d] == ('J' as int + (d - 17)) as char
    ensures forall d :: 22 <= d < 33 ==> Alphabet[d] == ('P' as int + (d - 22)) as char
    ensures forall d :: 33 <= d < 44 ==> Alphabet[d] == ('a' as int + (d - 33)) as char
    ensures forall d :: 44 <= d < 58 ==> Alphabet[d] == ('m' as int + (d - 44)) as char
  {
  }

  /** The characters of `Alphabet` are exactly those of its six runs. */
  lemma AlphabetMembers(c: char)
    ensures c in Alphabet <==>
      '1' <= c <= '9' || 'A' <= c <= 'H' || 'J' <= c <= 'N' ||
      'P' <= c <= 'Z' || 'a' <= c <= 'k' || 'm' <= c <= 'z'
  {
    AlphabetRuns();
    if '1' <= c <= '9' {
      assert Alphabet[c as int - '1' as int] == c;
    } else if 'A' <= c <= 'H' {
      assert Alphabet[9 + (c as int - 'A' as int)] == c;
    } else if 'J' <= c <= 'N' {
      assert Alphabet[17 + (c as int - 'J' as int)] == c;
    } else if 'P' <= c <= 'Z' {
      assert Alphabet[22 + (c as int - 'P' as int)] == c;
    } else if 'a' <= c <= 'k' {
      assert Alphabet[33 + (c as int - 'a' as int)] == c;
    } else if 'm' <= c <= 'z' {
      assert Alphabet[44 + (c as int - 'm' as int)] == c;
    } else {
      assert forall d :: 0 <= d < |Alphabet| ==> Alphabet[d] != c;
    }
  }

  /** The digit a character stands for: its position in `Alphabet`; `None`
      for every other character ('0', 'I', 'O', 'l', punctuation, anything
      non-ASCII). */
  function DigitOf(c: char): (d: Option<nat>)
    ensures d.Some? ==> d.value < 58
    ensures d == Some(0) <==> c == '1'
  {
    if '1' <= c <= '9' then Some(c as int - '1' as int)
    else if 'A' <= c <= 'H' then Some(9 + (c as int - 'A' as int))
    else if 'J' <= c <= 'N' then Some(17 + (c as int - 'J' as int))
    else if 'P' <= c <= 'Z' then Some(22 + (c as int - 'P' as int))
    else if 'a' <= c <= 'k' then Some(33 + (c as int - 'a' as int))
    else if 'm' <= c <= 'z' then Some(44 + (c as int - 'm' as int))
    else None
  }

  /** The character of the Bitcoin alphabet for digit `d`. */
  function DigitChar(d: nat): (c: char)
    requires d < 58
    ensures DigitOf(c) == Some(d)
  {
    if d < 9 then ('1' as int + d) as char
    else if d < 17 then ('A' as int + (d - 9)) as char
    else if d < 22 then ('J' as int + (d - 17)) as char
    else if d < 33 then ('P' as int + (d - 22)) as char
    else if d < 44 then ('a' as int + (d - 33)) as char
    else ('m' as int + (d - 44)) as char
  }

  /** A character of the alphabet is the character of its digit. */
  lemma DigitCharOf(c: char)
    requires DigitOf(c).Some?
    ensures DigitChar(DigitOf(c).value) == c
  {
  }

  /** `Alphabet` lists the characters of the digits in order. */
  lemma AlphabetIsDigitChars(d: nat)
    requires d < 58
    ensures Alphabet[d] == DigitChar(d)
  {
    AlphabetRuns();
  }

  /** The characters with a digit are exactly those of `Alphabet`, and a
      digit is the position of its character there. */
  lemma DigitOfAlphabet(c: char)
    ensures DigitOf(c).Some? <==> c in Alphabet
    ensures DigitOf(c).Some? ==> Alphabet[DigitOf(c).value] == c
  {
    AlphabetMembers(c);
    if DigitOf(c).Some? {
      DigitCharOf(c);
      AlphabetIsDigitChars(DigitOf(c).value);
    }
  }

  /** The number of copies of `x` that `s` starts with. */
  function LeadingRun<T(==)>(s: seq<T>, x: T): (n: nat)
    ensures n <= |s|
    ensures forall i :: 0 <= i < n ==> s[i] == x
    ensures n < |s| ==> s[n] != x
  {
    if |s| > 0 && s[0] == x then 1 + LeadingRun(s[1..], x) else 0
  }

  /** The contract of `LeadingRun` determines it. */
  lemma LeadingRunIs<T>(s: seq<T>, x: T, n: nat)
    requires n <= |s|
    requires forall i :: 0 <= i < n ==> s[i] == x
    requires n < |s| ==> s[n] != x
    ensures LeadingRun(s, x) == n
  {
  }

  /** `n` copies of `x`. */
  function Repeat<T>(x: T, n: nat): (r: seq<T>)
    ensures |r| == n && forall i :: 0 <= i < n ==> r[i] == x
  {
    seq(n, _ => x)
  }

  /** A sequence is its leading run followed by the rest. */
  lemma SplitLeadingRun<T>(s: seq<T>, x: T)
    ensures Repeat(x, LeadingRun(s, x)) + s[LeadingRun(s, x)..] == s
  {
    var n := LeadingRun(s, x);
    assert Repeat(x, n) == s[..n];
  }

  /** The digits of a text; `None` as soon as one character is outside the
      alphabet (where `b58decode` raises). */
  function DigitsOfText(s: string): (r: Option<seq<nat>>)
    ensures r.Some? <==> forall i :: 0 <= i < |s| ==> DigitOf(s[i]).Some?
    ensures r.Some? ==> |r.value| == |s| && forall i :: 0 <= i < |s| ==> DigitOf(s[i]) == Some(r.value[i])
    ensures r.Some? ==> IsDigits(r.value, 58)
  {
    if |s| == 0 then Some([])
    else
      var d :- DigitOf(s[0]);
      var ds :- DigitsOfText(s[1..]);
      Some([d] + ds)
  }

  /** The text spelling the base-58 digits `ds`. */
  function TextOfDigits(ds: seq<nat>): (s: string)
    requires IsDigits(ds, 58)
    ensures |s| == |ds| && forall i :: 0 <= i < |ds| ==> s[i] == DigitChar(ds[i])
  {
    if |ds| == 0 then [] else [DigitChar(ds[0])] + TextOfDigits(ds[1..])
  }

  /** `b58decode`: `None` where the package raises. */
  function Decode(s: string): (r: Option<seq<byte>>)
    ensures r.Some? ==>
      && LeadingRun(s, '1') <= |r.value|
      && forall i :: 0 <= i < LeadingRun(s, '1') ==> r.value[i] == 0
  {
    var ones := LeadingRun(s, '1');
    var ds :- DigitsOfText(s[ones..]);
    var tail: seq<byte> := DigitsOf(ValueOf(ds, 58), 256);
    Some(Repeat<byte>(0, ones) + tail)
  }

  /** `b58encode`: each leading zero byte becomes a '1' and the rest, read as
      a big-endian number, is written in base 58. */
  function Encode(b: seq<byte>): string
  {
    var zeros := LeadingRun(b, 0);
    var ds := DigitsOf(ValueOf(b[zeros..], 256), 58);
    Repeat('1', zeros) + TextOfDigits(ds)
  }

  /** A text decodes if and only if every one of its characters is in the
      alphabet; in particular any text containing '0' fails. */
  lemma DecodeDefined(s: string)
    ensures Decode(s).Some? <==> forall i :: 0 <= i < |s| ==> DigitOf(s[i]).Some?
  {
    var ones := LeadingRun(s, '1');
    var rest := s[ones..];
    if forall i :: 0 <= i < |rest| ==> DigitOf(rest[i]).Some? {
      forall i | 0 <= i < |s| ensures DigitOf(s[i]).Some? {
        if i >= ones {
          assert s[i] == rest[i - ones];
        }
      }
    } else {
      var i :| 0 <= i < |rest| && DigitOf(rest[i]).None?;
      assert s[ones + i] == rest[i];
    }
  }

  /** Decoding keeps the leading '1's as exactly that many leading zero bytes. */
  lemma DecodeLeadingZeros(s: string)
    requires Decode(s).Some?
    ensures LeadingRun(Decode(s).value, 0) == LeadingRun(s, '1')
  {
    var ones := LeadingRun(s, '1');
    var ds := DigitsOfText(s[ones..]).value;
    var tail: seq<byte> := DigitsOf(ValueOf(ds, 58), 256);
    var b := Repeat<byte>(0, ones) + tail;
    assert b == Decode(s).value;
    assert ones < |b| ==> b[ones] == tail[0];
    LeadingRunIs(b, 0, ones);
  }

  /** Reading back the digits of a written digit sequence. */
  lemma DigitsOfTextOfDigits(ds: seq<nat>)
    requires IsDigits(ds, 58)
    ensures DigitsOfText(TextOfDigits(ds)) == Some(ds)
  {
    var back := DigitsOfText(TextOfDigits(ds)).value;
    assert back == ds;
  }

  /** An encoding starts with exactly one '1' per leading zero byte. */
  lemma EncodeLeadingOnes(b: seq<byte>)
    ensures LeadingRun(Encode(b), '1') == LeadingRun(b, 0)
  {
    var zeros := LeadingRun(b, 0);
    var ds := DigitsOf(ValueOf(b[zeros..], 256), 58);
    var s := Repeat('1', zeros) + TextOfDigits(ds);
    assert zeros < |s| ==> s[zeros] == DigitChar(ds[0]);
    LeadingRunIs(s, '1', zeros);
  }

  /** `Decode` unfolded: the leading '1's and the digits of the rest. */
  lemma DecodeParts(s: string, ones: nat, ds: seq<nat>)
    requires LeadingRun(s, '1') == ones
    requires DigitsOfText(s[ones..]) == Some(ds)
    ensures Decode(s) == Some(Repeat<byte>(0, ones) + DigitsOf(ValueOf(ds, 58), 256))
  {
  }

  /** The bytes after the leading zeros have no leading zero. */
  lemma RestCanonical(b: seq<byte>)
    ensures Canonical(b[LeadingRun(b, 0)..], 256)
  {
    var zeros := LeadingRun(b, 0);
    var rest: seq<nat> := b[zeros..];
    assert forall i :: 0 <= i < |rest| ==> rest[i] == b[zeros + i];
  }

  /** After its leading '1's, an encoding spells the digits of the rest of the bytes. */
  lemma EncodeDigits(b: seq<byte>)
    ensures var zeros := LeadingRun(b, 0);
      DigitsOfText(Encode(b)[zeros..]) == Some(DigitsOf(ValueOf(b[zeros..], 256), 58))
  {
    var zeros := LeadingRun(b, 0);
    var ds := DigitsOf(ValueOf(b[zeros..], 256), 58);
    EncodeParts(b, zeros);
    assert Encode(b)[zeros..] == TextOfDigits(ds);
    DigitsOfTextOfDigits(ds);
  }

  /** Decoding the encoding of any byte string gives it back. */
  lemma DecodeEncode(b: seq<byte>)
    ensures Decode(Encode(b)) == Some(b)
  {
    var zeros := LeadingRun(b, 0);
    var rest: seq<nat> := b[zeros..];
    var ds := DigitsOf(ValueOf(rest, 256), 58);
    EncodeLeadingOnes(b);
    EncodeDigits(b);
    RestCanonical(b);
    DigitsOfValueOf(rest, 256);
    DecodeParts(Encode(b), zeros, ds);
    SplitLeadingRun(b, 0);
  }

  /** The digits after the leading '1's have no leading zero. */
  lemma RestDigitsCanonical(s: string)
    requires DigitsOfText(s[LeadingRun(s, '1')..]).Some?
    ensures Canonical(DigitsOfText(s[LeadingRun(s, '1')..]).value, 58)
  {
    var ones := LeadingRun(s, '1');
    var rest := s[ones..];
    var ds := DigitsOfText(rest).value;
    if |ds| > 0 {
      assert DigitOf(rest[0]) == Some(ds[0]);
      assert rest[0] == s[ones];
    }
  }

  /** Writing back the digits read from a text gives the text. */
  lemma TextOfDigitsOfText(t: string)
    requires DigitsOfText(t).Some?
    ensures TextOfDigits(DigitsOfText(t).value) == t
  {
    var ds := DigitsOfText(t).value;
    forall i | 0 <= i < |t| ensures TextOfDigits(ds)[i] == t[i] {
      DigitCharOf(t[i]);
    }
  }

  /** `Encode` unfolded, for a given count of leading zero bytes. */
  lemma EncodeParts(b: seq<byte>, zeros: nat)
    requires LeadingRun(b, 0) == zeros
    ensures Encode(b) == Repeat('1', zeros) + TextOfDigits(DigitsOf(ValueOf(b[zeros..], 256), 58))
  {
  }

  /** What a text decodes to: its leading zeros, then the bytes of the
      number the remaining digits spell. */
  lemma DecodeSplit(s: string)
    requires Decode(s).Some?
    ensures var ones := LeadingRun(s, '1');
      var ds := DigitsOfText(s[ones..]).value;
      && LeadingRun(Decode(s).value, 0) == ones
      && Decode(s).value[ones..] == DigitsOf(ValueOf(ds, 58), 256)
  {
    var ones := LeadingRun(s, '1');
    var ds := DigitsOfText(s[ones..]).value;
    var tail: seq<byte> := DigitsOf(ValueOf(ds, 58), 256);
    DecodeParts(s, ones, ds);
    DecodeLeadingZeros(s);
    assert (Repeat<byte>(0, ones) + tail)[ones..] == tail;
  }

  /** The bytes after the leading zeros of a decoding, written in base 58,
      spell the text after its leading '1's. */
  lemma DecodeRestText(s: string)
    requires Decode(s).Some?
    ensures var ones := LeadingRun(s, '1');
      TextOfDigits(DigitsOf(ValueOf(Decode(s).value[ones..], 256), 58)) == s[ones..]
  {
    var ones := LeadingRun(s, '1');
    var rest := s[ones..];
    var ds := DigitsOfText(rest).value;
    DecodeSplit(s);
    RestDigitsCanonical(s);
    assert ValueOf(Decode(s).value[ones..], 256) == ValueOf(ds, 58);
    DigitsOfValueOf(ds, 58);
    TextOfDigitsOfText(rest);
  }

  /** Encoding what a text decodes to gives the text back, so `Decode` is
      one-to-one on the texts it accepts. */
  lemma EncodeDecode(s: string)
    requires Decode(s).Some?
    ensures Encode(Decode(s).value) == s
  {
    var ones := LeadingRun(s, '1');
    DecodeSplit(s);
    EncodeParts(Decode(s).value, ones);
    DecodeRestText(s);
    SplitLeadingRun(s, '1');
  }

  /** No encoding contains a character outside the alphabet, in particular no '0'. */
  lemma EncodeInAlphabet(b: seq<byte>)
    ensures forall i :: 0 <= i < |Encode(b)| ==> DigitOf(Encode(b)[i]).Some?
  {
    DecodeEncode(b);
    DecodeDefined(Encode(b));
  }
}
