/** Base64 text (compat/base64.c), sections 3.5 and 4 of RFC 4648. */
module Base64 {
  import opened Bytes

  datatype Option<T> = None | Some(value: T)

  const UPPER: string := "ABCDEFGHIJKLMNOPQRSTUVWXYZ"
  const LOWER: string := "abcdefghijklmnopqrstuvwxyz"
  const OTHER: string := "0123456789+/"
  const BASE64: string := UPPER + LOWER + OTHER
  const PAD64: char := '='

  // ------------------------------------------------------------ digits

  /** The digit for a six-bit value, and back; -1 for no digit. */
  function Digit(v: nat): char
    requires v < 64
  {
    if v < 26 then 'A' + v as char
    else if v < 52 then 'a' + (v - 26) as char
    else if v < 62 then '0' + (v - 52) as char
    else if v == 62 then '+' else '/'
  }

  function Value(c: char): (v: int)
    ensures -1 <= v < 64
  {
    if 'A' <= c <= 'Z' then c as int - 'A' as int
    else if 'a' <= c <= 'z' then c as int - 'a' as int + 26
    else if '0' <= c <= '9' then c as int - '0' as int + 52
    else if c == '+' then 62 else if c == '/' then 63 else -1
  }

  lemma ValueOfDigit(v: nat)
    requires v < 64
    ensures Value(Digit(v)) == v && Digit(v) != PAD64
  {
  }

  lemma DigitOfValue(c: char)
    requires Value(c) >= 0
    ensures Digit(Value(c)) == c
  {
  }

  /** The table lists the digits by value. */
  lemma TableIsDigits(v: nat)
    requires v < 64
    ensures |BASE64| == 64 && BASE64[v] == Digit(v)
  {
    assert |UPPER| == 26 && |LOWER| == 26 && |OTHER| == 12;
    if v < 26 {
      UpperIs(v);
    } else if v < 52 {
      LowerIs(v - 26);
    } else {
      OtherIs(v - 52);
    }
  }

  lemma UpperIs(v: nat)
    requires v < 26
    ensures UPPER[v] == 'A' + v as char
  {
    assert v == 0 || v == 1 || v == 2 || v == 3 || v == 4 || v == 5 || v == 6 || v == 7 || v == 8 ||
           v == 9 || v == 10 || v == 11 || v == 12 || v == 13 || v == 14 || v == 15 || v == 16 || v == 17 ||
           v == 18 || v == 19 || v == 20 || v == 21 || v == 22 || v == 23 || v == 24 || v == 25;
  }

  lemma LowerIs(v: nat)
    requires v < 26
    ensures LOWER[v] == 'a' + v as char
  {
    assert v == 0 || v == 1 || v == 2 || v == 3 || v == 4 || v == 5 || v == 6 || v == 7 || v == 8 ||
           v == 9 || v == 10 || v == 11 || v == 12 || v == 13 || v == 14 || v == 15 || v == 16 || v == 17 ||
           v == 18 || v == 19 || v == 20 || v == 21 || v == 22 || v == 23 || v == 24 || v == 25;
  }

  lemma OtherIs(v: nat)
    requires v < 12
    ensures OTHER[v] == if v < 10 then '0' + v as char else if v == 10 then '+' else '/'
  {
    assert v == 0 || v == 1 || v == 2 || v == 3 || v == 4 || v == 5 || v == 6 || v == 7 || v == 8 ||
           v == 9 || v == 10 || v == 11;
  }

  /** strchr(Base64, ch) */
  method FindDigit(ch: char) returns (pos: int)
    ensures pos == Value(ch)
  {
    TableIsDigits(0);
    pos := 0;
    while pos < |BASE64|
      invariant 0 <= pos <= 64 && |BASE64| == 64
      invariant forall v | 0 <= v < pos :: Digit(v) != ch
    {
      TableIsDigits(pos);
      if BASE64[pos] == ch {
        ValueOfDigit(pos);
        return;
      }
      pos := pos + 1;
    }
    if Value(ch) >= 0 {
      DigitOfValue(ch);
    }
    return -1;
  }

  // ------------------------------------------------------------ canonical text

  /** The four digits of a full group. */
  function Group(a: Byte, b: Byte, c: Byte): string {
    [Digit(a / 4), Digit(a % 4 * 16 + b / 16), Digit(b % 16 * 4 + c / 64), Digit(c % 64)]
  }

  function Encode(data: seq<Byte>): string {
    if data == [] then ""
    else if |data| == 1 then [Digit(data[0] / 4), Digit(data[0] % 4 * 16), PAD64, PAD64]
    else if |data| == 2 then
      [Digit(data[0] / 4), Digit(data[0] % 4 * 16 + data[1] / 16), Digit(data[1] % 16 * 4), PAD64]
    else Group(data[0], data[1], data[2]) + Encode(data[3..])
  }

  function EncodedLength(n: nat): nat {
    (n + 2) / 3 * 4
  }

  /** The test vectors of section 10 of RFC 4648: f, fo, foo, foob, fooba, foobar. */
  lemma TestVectors(data: seq<Byte>)
    requires data == [0x66, 0x6f, 0x6f, 0x62, 0x61, 0x72]
    ensures Encode([]) == "" && Encode(data[..1]) == "Zg=="
    ensures Encode(data[..2]) == "Zm8=" && Encode(data[..3]) == "Zm9v"
    ensures Encode(data[..4]) == "Zm9vYg==" && Encode(data[..5]) == "Zm9vYmE=" && Encode(data) == "Zm9vYmFy"
  {
    hide Encode, Digit;
    SecondHalf(data[3..]);
    assert data[..3][3..] == [] && data[..4][3..] == data[3..][..1] && data[..5][3..] == data[3..][..2];
    EncodeStep([]);
    EncodeStep(data[..1]);
    EncodeStep(data[..2]);
    EncodeStep(data[..3]);
    EncodeStep(data[..4]);
    EncodeStep(data[..5]);
    EncodeStep(data);
    VectorDigits();
  }

  lemma SecondHalf(rest: seq<Byte>)
    requires rest == [0x62, 0x61, 0x72]
    ensures Encode(rest[..1]) == "Yg==" && Encode(rest[..2]) == "YmE=" && Encode(rest) == "YmFy"
  {
    hide Encode, Digit;
    assert rest[3..] == [];
    EncodeStep([]);
    EncodeStep(rest[..1]);
    EncodeStep(rest[..2]);
    EncodeStep(rest);
    VectorDigits();
  }

  lemma VectorDigits()
    ensures Digit(25) == 'Z' && Digit(32) == 'g' && Digit(38) == 'm' && Digit(60) == '8' && Digit(61) == '9'
    ensures Digit(47) == 'v' && Digit(24) == 'Y' && Digit(4) == 'E' && Digit(5) == 'F' && Digit(50) == 'y'
  {
  }

  lemma {:induction false} EncodeLength(data: seq<Byte>)
    ensures |Encode(data)| == EncodedLength(|data|)
  {
    hide Encode, EncodedLength;
    EncodeStep(data);
    LengthStep(|data|);
    if |data| > 2 {
      EncodeLength(data[3..]);
    }
  }

  lemma LengthStep(n: nat)
    ensures EncodedLength(n) == if n == 0 then 0 else if n <= 2 then 4 else 4 + EncodedLength(n - 3)
  {
  }

  function FirstByte(v0: nat, v1: nat): Byte
    requires v0 < 64 && v1 < 64
  {
    v0 * 4 + v1 / 16
  }

  function SecondByte(v1: nat, v2: nat): Byte
    requires v1 < 64 && v2 < 64
  {
    v1 % 16 * 16 + v2 / 4
  }

  function ThirdByte(v2: nat, v3: nat): Byte
    requires v2 < 64 && v3 < 64
  {
    v2 % 4 * 64 + v3
  }

  function After(done: seq<Byte>, rest: Option<seq<Byte>>): Option<seq<Byte>> {
    if rest.Some? then Some(done + rest.value) else None
  }

  /** Reading text without white space: groups of four digits, the last one
      perhaps padded. `strict` asks for the bits beyond the last byte to be zero. */
  function Decode(t: string, strict: bool): Option<seq<Byte>> {
    if t == "" then Some([])
    else if |t| < 4 || Value(t[0]) < 0 || Value(t[1]) < 0 then None
    else if t[2] == PAD64 then
      if |t| == 4 && t[3] == PAD64
        && (strict ==> Value(t[1]) % 16 == 0) then Some([FirstByte(Value(t[0]), Value(t[1]))]) else None
    else if Value(t[2]) < 0 then None
    else if t[3] == PAD64 then
      if |t| == 4 && (strict ==> Value(t[2]) % 4 == 0) then
        Some([FirstByte(Value(t[0]), Value(t[1])), SecondByte(Value(t[1]), Value(t[2]))])
      else None
    else if Value(t[3]) < 0 then None
    else After([FirstByte(Value(t[0]), Value(t[1])), SecondByte(Value(t[1]), Value(t[2])),
                ThirdByte(Value(t[2]), Value(t[3]))],
               Decode(t[4..], strict))
  }

  lemma GroupBack(a: Byte, b: Byte, c: Byte)
    ensures var g := Group(a, b, c);
            && |g| == 4 && (forall i | 0 <= i < 4 :: Value(g[i]) >= 0 && g[i] != PAD64)
            && FirstByte(Value(g[0]), Value(g[1])) == a
            && SecondByte(Value(g[1]), Value(g[2])) == b
            && ThirdByte(Value(g[2]), Value(g[3])) == c
  {
    hide Digit, Value;
    ValueOfDigit(a / 4);
    ValueOfDigit(a % 4 * 16 + b / 16);
    ValueOfDigit(b % 16 * 4 + c / 64);
    ValueOfDigit(c % 64);
  }

  /** Decoding undoes encoding. */
  lemma {:induction false} DecodeBack(data: seq<Byte>)
    ensures Decode(Encode(data), true) == Some(data)
  {
    hide Digit, Value, FirstByte, SecondByte, ThirdByte, Group;
    if |data| == 1 {
      SingleBack(data[0]);
      assert data == [data[0]];
    } else if |data| == 2 {
      DoubleBack(data[0], data[1]);
      assert data == [data[0], data[1]];
    } else if |data| > 2 {
      var g := Group(data[0], data[1], data[2]);
      GroupBack(data[0], data[1], data[2]);
      var t := Encode(data);
      assert t == g + Encode(data[3..]);
      assert t[0] == g[0] && t[1] == g[1] && t[2] == g[2] && t[3] == g[3] && t[4..] == Encode(data[3..]);
      DecodeBack(data[3..]);
      assert [data[0], data[1], data[2]] + data[3..] == data;
    } else {
      assert data == [] && Encode(data) == "";
    }
  }

  lemma SingleBack(a: Byte)
    ensures Decode(Encode([a]), true) == Some([a])
  {
    ValueOfDigit(a / 4);
    ValueOfDigit(a % 4 * 16);
  }

  lemma DoubleBack(a: Byte, b: Byte)
    ensures Decode(Encode([a, b]), true) == Some([a, b])
  {
    hide Digit, Value;
    ValueOfDigit(a / 4);
    ValueOfDigit(a % 4 * 16 + b / 16);
    ValueOfDigit(b % 16 * 4);
  }

  /** Whatever decodes strictly is the canonical encoding of the result. */
  lemma {:induction false} DecodedIsCanonical(t: string)
    requires Decode(t, true).Some?
    ensures t == Encode(Decode(t, true).value)
  {
    hide Digit, Value, Group, FirstByte, SecondByte, ThirdByte;
    if t != "" {
      var v0, v1 := Value(t[0]), Value(t[1]);
      DigitOfValue(t[0]);
      DigitOfValue(t[1]);
      if t[2] == PAD64 {
        SplitOne(v0, v1);
        assert t == [t[0], t[1], t[2], t[3]];
      } else {
        var v2 := Value(t[2]);
        DigitOfValue(t[2]);
        if t[3] == PAD64 {
          SplitTwo(v0, v1, v2);
          assert t == [t[0], t[1], t[2], t[3]];
        } else {
          DigitOfValue(t[3]);
          SplitThree(v0, v1, v2, Value(t[3]));
          DecodedIsCanonical(t[4..]);
          var d, rest := Decode(t, true).value, Decode(t[4..], true).value;
          assert d[3..] == rest;
          assert t == [t[0], t[1], t[2], t[3]] + t[4..];
        }
      }
    }
  }

  /** With a target: exactly the canonical texts decode. */
  lemma StrictIffCanonical(t: string, d: seq<Byte>)
    ensures Decode(t, true) == Some(d) <==> t == Encode(d)
  {
    DecodeBack(d);
    if Decode(t, true).Some? {
      DecodedIsCanonical(t);
    }
  }

  /** Without a target the bits beyond the last byte are not looked at: the text
      decodes exactly when it would with those bits cleared. */
  lemma {:induction false} LooseIffAlmostCanonical(t: string)
    ensures Decode(t, false).Some? <==> Decode(Cleared(t), true).Some?
    ensures Decode(t, false).Some? ==> Decode(t, false) == Decode(Cleared(t), true)
  {
    hide Digit, Value, FirstByte, SecondByte, ThirdByte;
    if |t| == 4 {
      ClearedGroup(t);
    } else if |t| > 4 {
      assert t[..4] + Cleared(t[4..]) == Cleared(t);
      assert Cleared(t)[4..] == Cleared(t[4..]);
      LooseIffAlmostCanonical(t[4..]);
    }
  }

  /** The same text with zero bits beyond the last byte. */
  function Cleared(t: string): (c: string)
    ensures |c| == |t|
  {
    if |t| > 4 then t[..4] + Cleared(t[4..])
    else if |t| == 4 && t[3] == PAD64 then
      if t[2] == PAD64 then t[1 := ClearedDigit(t[1], 16)] else t[2 := ClearedDigit(t[2], 4)]
    else t
  }

  function ClearedDigit(c: char, m: nat): char
    requires m > 0
  {
    if Value(c) >= 0 then Digit(Value(c) - Value(c) % m) else c
  }

  lemma ClearedGroup(t: string)
    requires |t| == 4
    ensures Decode(t, false).Some? <==> Decode(Cleared(t), true).Some?
    ensures Decode(t, false).Some? ==> Decode(t, false) == Decode(Cleared(t), true)
  {
    hide Digit, Value, ThirdByte;
    var c := if t[2] == PAD64 then t[1] else t[2];
    var m := if t[2] == PAD64 then 16 else 4;
    if t[3] == PAD64 && Value(c) >= 0 {
      var v := Value(c);
      ValueOfDigit(v - v % m);
      if t[2] == PAD64 && Value(t[0]) >= 0 {
        assert FirstByte(Value(t[0]), v) == FirstByte(Value(t[0]), v - v % 16);
      } else if Value(t[1]) >= 0 {
        assert SecondByte(Value(t[1]), v) == SecondByte(Value(t[1]), v - v % 4);
      }
    }
  }

  lemma SplitOne(v0: nat, v1: nat)
    requires v0 < 64 && v1 < 64 && v1 % 16 == 0
    ensures FirstByte(v0, v1) / 4 == v0 && FirstByte(v0, v1) % 4 * 16 == v1
  {
  }

  lemma SplitTwo(v0: nat, v1: nat, v2: nat)
    requires v0 < 64 && v1 < 64 && v2 < 64 && v2 % 4 == 0
    ensures var a, b := FirstByte(v0, v1), SecondByte(v1, v2);
            a / 4 == v0 && a % 4 * 16 + b / 16 == v1 && b % 16 * 4 == v2
  {
  }

  lemma SplitThree(v0: nat, v1: nat, v2: nat, v3: nat)
    requires v0 < 64 && v1 < 64 && v2 < 64 && v3 < 64
    ensures var a, b, c := FirstByte(v0, v1), SecondByte(v1, v2), ThirdByte(v2, v3);
            Group(a, b, c) == [Digit(v0), Digit(v1), Digit(v2), Digit(v3)]
  {
    hide Digit;
    var a, b, c := FirstByte(v0, v1), SecondByte(v1, v2), ThirdByte(v2, v3);
    assert a / 4 == v0 && a % 4 == v1 / 16;
    assert b / 16 == v1 % 16 && b % 16 == v2 / 4;
    assert c / 64 == v2 % 4 && c % 64 == v3;
    hide FirstByte, SecondByte, ThirdByte;
  }

  // ------------------------------------------------------------ encoding

  /** Writing four characters of output. */
  method Put(target: array<char>, at: nat, c0: char, c1: char, c2: char, c3: char)
    requires at + 4 <= target.Length
    modifies target
    ensures target[..at + 4] == old(target[..at]) + [c0, c1, c2, c3]
  {
    target[at], target[at + 1], target[at + 2], target[at + 3] := c0, c1, c2, c3;
  }

  /** b64_ntop(): the text and a NUL, if both fit. */
  method B64Ntop(src: seq<Byte>, target: array<char>, targsize: nat) returns (r: int)
    requires targsize <= target.Length
    modifies target
    ensures r == if EncodedLength(|src|) < targsize then EncodedLength(|src|) else -1
    ensures r >= 0 ==> target[..r] == Encode(src) && target[r] == '\0'
  {
    hide Encode, Digit, BASE64, Group;
    var at, datalength := 0, 0;
    assert src[0..] == src;
    assert target[..0] + Encode(src) == Encode(src);
    EncodeLength(src);
    while 2 < |src| - at
      invariant 0 <= at <= |src| && datalength <= targsize
      invariant target[..datalength] + Encode(src[at..]) == Encode(src)
      decreases |src| - at
    {
      var a, b, c := src[at], src[at + 1], src[at + 2];
      FullGroup(src, at);
      at := at + 3;
      if datalength + 4 > targsize {
        return -1;
      }
      ghost var done, g := target[..datalength], Group(a, b, c);
      TableLength();
      Put(target, datalength, BASE64[a / 4], BASE64[a % 4 * 16 + b / 16], BASE64[b % 16 * 4 + c / 64], BASE64[c % 64]);
      datalength := datalength + 4;
      assert done + (g + Encode(src[at..])) == done + g + Encode(src[at..]);
    }
    if |src| - at != 0 {
      var left := |src| - at;
      var a: Byte, b: Byte := src[at], if left > 1 then src[at + 1] else 0;
      LastGroup(src, at);
      if datalength + 4 > targsize {
        return -1;
      }
      TableLength();
      Put(target, datalength, BASE64[a / 4], BASE64[a % 4 * 16 + b / 16],
          if left == 1 then PAD64 else BASE64[b % 16 * 4], PAD64);
      datalength := datalength + 4;
    } else {
      EncodeStep(src[at..]);
      assert target[..datalength] + "" == target[..datalength];
    }
    assert target[..datalength] == Encode(src);
    if datalength >= targsize {
      return -1;
    }
    target[datalength] := '\0';
    return datalength;
  }

  lemma TableLength()
    ensures |BASE64| == 64
  {
    TableIsDigits(0);
  }

  lemma FullGroup(src: seq<Byte>, at: nat)
    requires at + 3 <= |src|
    ensures |BASE64| == 64
    ensures var a, b, c := src[at], src[at + 1], src[at + 2];
            && Encode(src[at..]) == Group(a, b, c) + Encode(src[at + 3..]) && |Encode(src[at..])| >= 4
            && Group(a, b, c)
               == [BASE64[a / 4], BASE64[a % 4 * 16 + b / 16], BASE64[b % 16 * 4 + c / 64], BASE64[c % 64]]
  {
    hide Digit, BASE64, Encode;
    var a, b, c := src[at], src[at + 1], src[at + 2];
    EncodeStep(src[at..]);
    assert src[at..][3..] == src[at + 3..];
    TableIsDigits(a / 4);
    TableIsDigits(a % 4 * 16 + b / 16);
    TableIsDigits(b % 16 * 4 + c / 64);
    TableIsDigits(c % 64);
  }

  lemma LastGroup(src: seq<Byte>, at: nat)
    requires at < |src| <= at + 2
    ensures |BASE64| == 64
    ensures var a: Byte := src[at]; var b: Byte := if at + 1 < |src| then src[at + 1] else 0;
            Encode(src[at..]) ==
            [BASE64[a / 4], BASE64[a % 4 * 16 + b / 16], if at + 1 == |src| then PAD64 else BASE64[b % 16 * 4], PAD64]
  {
    hide Digit, BASE64, Encode;
    var a: Byte := src[at];
    var b: Byte := if at + 1 < |src| then src[at + 1] else 0;
    EncodeStep(src[at..]);
    TableIsDigits(a / 4);
    TableIsDigits(a % 4 * 16 + b / 16);
    TableIsDigits(b % 16 * 4);
  }

  lemma EncodeStep(data: seq<Byte>)
    ensures Encode(data) ==
            if data == [] then ""
            else if |data| == 1 then [Digit(data[0] / 4), Digit(data[0] % 4 * 16), PAD64, PAD64]
            else if |data| == 2 then
              [Digit(data[0] / 4), Digit(data[0] % 4 * 16 + data[1] / 16), Digit(data[1] % 16 * 4), PAD64]
            else Group(data[0], data[1], data[2]) + Encode(data[3..])
  {
  }

  // ------------------------------------------------------------ decoding

  /** isspace() in the C locale. */
  predicate IsSpace(c: char) {
    c == ' ' || 9 as char <= c <= 13 as char
  }

  /** The text from index k on, without white space. */
  function Strip(src: string, k: nat): string
    requires k <= |src|
    decreases |src| - k
  {
    if k == |src| then "" else (if IsSpace(src[k]) then "" else [src[k]]) + Strip(src, k + 1)
  }

  /** Folded text, with spaces anywhere. */
  lemma FoldedText(src: string)
    requires src == "Z \tg\n"
    ensures Strip(src, 0) == "Zg"
  {
    hide Strip;
    StripEach(src, 0);
    StripEach(src, 1);
    StripEach(src, 2);
    StripEach(src, 3);
    StripEach(src, 4);
    StripEach(src, 5);
  }

  lemma StripEach(src: string, k: nat)
    requires k <= |src|
    ensures Strip(src, k) ==
            if k == |src| then "" else (if IsSpace(src[k]) then "" else [src[k]]) + Strip(src, k + 1)
  {
  }

  /** The bytes a part of a group has filled, the last one so far. */
  function Partial(p: seq<int>): seq<Byte>
    requires |p| < 4 && forall i | 0 <= i < |p| :: 0 <= p[i] < 64
  {
    if |p| == 0 then []
    else if |p| == 1 then [p[0] * 4]
    else if |p| == 2 then [FirstByte(p[0], p[1]), p[1] % 16 * 16]
    else [FirstByte(p[0], p[1]), SecondByte(p[1], p[2]), p[2] % 4 * 64]
  }

  ghost predicate Digits(p: seq<int>) {
    |p| < 4 && forall i | 0 <= i < |p| :: 0 <= p[i] < 64
  }

  /** rest starts with the digits p. */
  ghost predicate StartsWith(rest: string, p: seq<int>) {
    |p| <= |rest| && forall i | 0 <= i < |p| :: Value(rest[i]) == p[i]
  }

  /** The target holds the finished groups and the part of the next. */
  ghost predicate Holds(t: seq<Byte>, done: seq<Byte>, p: seq<int>)
    requires Digits(p)
  {
    var n := |done|;
    && n <= |t| && t[..n] == done
    && match |p|
       case 0 => true
       case 1 => n < |t| && t[n] == p[0] * 4
       case 2 => n < |t| && t[n] == FirstByte(p[0], p[1]) && LastAt(t, n + 1, p[1] % 16 * 16)
       case _ =>
         && n + 1 < |t| && t[n] == FirstByte(p[0], p[1]) && t[n + 1] == SecondByte(p[1], p[2])
         && LastAt(t, n + 2, p[2] % 4 * 64)
  }

  /** The byte with the left-over bits; without room for it they are zero. */
  ghost predicate LastAt(t: seq<Byte>, i: nat, b: Byte) {
    if i < |t| then t[i] == b else b == 0
  }

  /** A group that ends early or goes on with a character that is no digit. */
  lemma BadGroup(rest: string, p: seq<int>, strict: bool)
    requires Digits(p) && StartsWith(rest, p)
    requires if |rest| == |p| then p != [] else Value(rest[|p|]) < 0 && (rest[|p|] != PAD64 || |p| < 2)
    ensures Decode(rest, strict) == None
  {
    hide Value, Partial;
  }

  /** Text that goes on needs more room than the bytes already finished. */
  lemma NeedsRoom(rest: string, p: seq<int>)
    requires Digits(p) && StartsWith(rest, p) && |rest| > |p| && Value(rest[|p|]) >= 0 && Decode(rest, true).Some?
    ensures var q := p + [Value(rest[|p|])]; var v := Decode(rest, true).value;
            && |v| >= 1 && (|p| >= 2 ==> |v| >= |p|)
            && (|p| == 1 && q[1] % 16 != 0 ==> |v| >= 2)
            && (|p| == 2 && q[2] % 4 != 0 ==> |v| >= 3)
  {
    hide FirstByte, SecondByte, ThirdByte;
  }

  /** A group completed by its fourth digit. */
  lemma FullDigits(rest: string, p: seq<int>, done: seq<Byte>, strict: bool)
    requires |p| == 3 && Digits(p) && StartsWith(rest, p) && |rest| > 3 && Value(rest[3]) >= 0
    ensures var bytes := [FirstByte(p[0], p[1]), SecondByte(p[1], p[2]), ThirdByte(p[2], Value(rest[3]))];
            After(done, Decode(rest, strict)) == After(done + bytes, Decode(rest[4..], strict))
  {
    hide FirstByte, SecondByte, ThirdByte;
    var bytes := [FirstByte(p[0], p[1]), SecondByte(p[1], p[2]), ThirdByte(p[2], Value(rest[3]))];
    if Decode(rest[4..], strict).Some? {
      var more := Decode(rest[4..], strict).value;
      assert done + (bytes + more) == done + bytes + more;
    }
  }

  /** The bytes finished by the digits of a part of a group. */
  function Finished(p: seq<int>): nat {
    if |p| <= 1 then 0 else |p| - 1
  }

  /** A padded group. */
  lemma PaddedGroup(rest: string, p: seq<int>, strict: bool)
    requires Digits(p) && |p| >= 2 && StartsWith(rest, p) && |rest| > |p| && rest[|p|] == PAD64
    ensures Decode(rest, strict) ==
            if rest[|p|..] == (if |p| == 2 then [PAD64, PAD64] else [PAD64]) && (strict ==> Partial(p)[|p| - 1] == 0)
            then Some(Partial(p)[..|p| - 1]) else None
  {
    hide FirstByte, SecondByte;
    if |rest| == 4 {
      assert rest[|p|..] == if |p| == 2 then [rest[2], rest[3]] else [rest[3]];
    }
    var b := Partial(p);
    assert b[..|p| - 1] == if |p| == 2 then [b[0]] else [b[0], b[1]];
  }

  /** The trailing white space is skipped. */
  method SkipSpaces(src: string, k0: nat) returns (k: nat)
    requires k0 <= |src|
    ensures k0 <= k <= |src| && Strip(src, k) == Strip(src, k0) && (k < |src| ==> !IsSpace(src[k]))
  {
    k := k0;
    while k < |src|
      invariant k0 <= k <= |src| && Strip(src, k) == Strip(src, k0)
    {
      if !IsSpace(src[k]) {
        break;
      }
      assert Strip(src, k) == "" + Strip(src, k + 1);
      k := k + 1;
    }
  }

  /** The switch in the loop of b64_pton(): store the bits of one digit. */
  method Store(target: array?<Byte>, targsize: nat, tarindex: nat, state: nat, v: nat, ghost done: seq<Byte>,
               ghost p: seq<int>)
    returns (ok: bool, tarindex': nat, state': nat)
    requires Digits(p) && |p| == state && v < 64 && tarindex == |done| + Finished(p)
    requires target != null ==> targsize <= target.Length && Holds(target[..targsize], done, p)
    modifies if target == null then {} else {target}
    ensures target == null ==> ok
    ensures ok ==> state' == (state + 1) % 4
    ensures ok && state < 3 ==>
              tarindex' == |done| + Finished(p + [v]) && (target != null ==> Holds(target[..targsize], done, p + [v]))
    ensures ok && state == 3 ==>
              var bytes := [FirstByte(p[0], p[1]), SecondByte(p[1], p[2]), ThirdByte(p[2], v)];
              tarindex' == |done| + 3 && (target != null ==> Holds(target[..targsize], done + bytes, []))
    ensures !ok ==> match state
            case 0 => |done| >= targsize
            case 1 => |done| + 1 >= targsize && v % 16 != 0
            case 2 => |done| + 1 >= targsize || (|done| + 2 >= targsize && v % 4 != 0)
            case _ => |done| + 2 >= targsize
  {
    tarindex', state' := tarindex, (state + 1) % 4;
    if target != null && tarindex >= targsize {
      return false, tarindex', state';
    }
    ok := true;
    match state {
      case 0 =>
        if target != null {
          target[tarindex] := v * 4;
        }
      case 1 =>
        if target != null {
          target[tarindex] := target[tarindex] + v / 16;
          var nextbyte: Byte := v % 16 * 16;
          if tarindex + 1 < targsize {
            target[tarindex + 1] := nextbyte;
          } else if nextbyte != 0 {
            return false, tarindex', state';
          }
        }
        tarindex' := tarindex + 1;
      case 2 =>
        if target != null {
          target[tarindex] := target[tarindex] + v / 4;
          var nextbyte: Byte := v % 4 * 64;
          if tarindex + 1 < targsize {
            target[tarindex + 1] := nextbyte;
          } else if nextbyte != 0 {
            return false, tarindex', state';
          }
        }
        tarindex' := tarindex + 1;
      case _ =>
        if target != null {
          target[tarindex] := target[tarindex] + v;
        }
        tarindex' := tarindex + 1;
    }
  }

  lemma StartDecode(rest: string, strict: bool, t: seq<Byte>)
    ensures After([], Decode(rest, strict)) == Decode(rest, strict)
    ensures Digits([]) && StartsWith(rest, []) && rest[0..] == rest && Holds(t, [], [])
  {
    hide Decode;
    if Decode(rest, strict).Some? {
      assert [] + Decode(rest, strict).value == Decode(rest, strict).value;
    }
    assert t[..0] == [];
  }

  lemma StripStep(src: string, k: nat)
    requires k < |src|
    ensures if IsSpace(src[k]) then Strip(src, k) == Strip(src, k + 1)
            else Strip(src, k) != "" && Strip(src, k)[0] == src[k] && Strip(src, k)[1..] == Strip(src, k + 1)
  {
  }

  lemma StripEnd(src: string)
    ensures Strip(src, |src|) == ""
  {
  }

  lemma AfterNone(done: seq<Byte>)
    ensures After(done, None) == None
  {
  }

  lemma TooSmall(rest: string, p: seq<int>, done: seq<Byte>, targsize: nat)
    requires Digits(p) && StartsWith(rest, p) && |rest| > |p| && Value(rest[|p|]) >= 0
    requires var v := Value(rest[|p|]);
             match |p|
             case 0 => |done| >= targsize
             case 1 => |done| + 1 >= targsize && v % 16 != 0
             case 2 => |done| + 1 >= targsize || (|done| + 2 >= targsize && v % 4 != 0)
             case _ => |done| + 2 >= targsize
    ensures var d := After(done, Decode(rest, true)); d.Some? ==> |d.value| > targsize
  {
    hide Decode, Value;
    if Decode(rest, true).Some? {
      NeedsRoom(rest, p);
    }
  }

  lemma PadIsNoDigit()
    ensures Value(PAD64) == -1
  {
  }

  lemma StartsMore(rest: string, p: seq<int>, v: int)
    requires StartsWith(rest, p) && |rest| > |p| && Value(rest[|p|]) == v
    ensures StartsWith(rest, p + [v])
  {
  }

  lemma StartsNew(rest: string)
    ensures StartsWith(rest, []) && rest[0..] == rest
  {
  }

  /** What follows the first padding character of a group of n digits. */
  lemma PadEnd(rest: string, n: nat, tail: string)
    requires 2 <= n <= 3 && |rest| > n && rest[n] == PAD64 && rest[n + 1..] == tail
    ensures rest[n..] == (if n == 2 then [PAD64, PAD64] else [PAD64]) <==>
            if n == 2 then tail != "" && tail[0] == PAD64 && tail[1..] == "" else tail == ""
  {
    assert rest[n..] == [PAD64] + tail;
  }

  /** The byte after the finished ones shows the bits left over. */
  lemma SlopIs(t: seq<Byte>, done: seq<Byte>, p: seq<int>)
    requires Digits(p) && |p| >= 2 && Holds(t, done, p)
    ensures var n := |done| + |p| - 1;
            && n <= |t| && t[..n] == done + Partial(p)[..|p| - 1]
            && Partial(p)[|p| - 1] == if n < |t| then t[n] else 0
  {
    var n := |done| + |p| - 1;
    assert t[..n] == if |p| == 2 then done + [t[|done|]] else done + [t[|done|], t[|done| + 1]];
    assert Partial(p)[..|p| - 1] == if |p| == 2 then [Partial(p)[0]] else [Partial(p)[0], Partial(p)[1]];
  }

  lemma EndPadded(done: seq<Byte>, last: seq<Byte>)
    ensures After(done, Some(last)) == Some(done + last)
  {
  }

  lemma PartialLength(p: seq<int>)
    requires Digits(p)
    ensures |Partial(p)| == |p|
  {
  }

  lemma EndPlain(done: seq<Byte>, rest: string, strict: bool)
    requires rest == ""
    ensures After(done, Decode(rest, strict)) == Some(done)
  {
    assert done + [] == done;
  }

  lemma HoldsDone(t: seq<Byte>, done: seq<Byte>)
    requires Holds(t, done, [])
    ensures |done| <= |t| && t[..|done|] == done
  {
  }

  /** The part of b64_pton() after its loop: the text has ended, or k is at the
      first padding character. */
  method Finish(src: string, k: nat, target: array?<Byte>, targsize: nat, tarindex: nat, state: nat,
                ghost done: seq<Byte>, ghost p: seq<int>, ghost rest: string)
    returns (r: int)
    requires k <= |src| && (k < |src| ==> src[k] == PAD64)
    requires target != null ==> targsize <= target.Length
    requires Digits(p) && |p| == state < 4 && tarindex == |done| + Finished(p)
    requires StartsWith(rest, p) && |p| <= |rest| && rest[|p|..] == Strip(src, k)
    requires target != null ==> Holds(target[..targsize], done, p)
    ensures var d := After(done, Decode(rest, target != null));
            && (r >= 0 <==> d.Some?) && -1 <= r
            && (d.Some? ==> r == |d.value| && (target != null ==> r <= targsize && target[..r] == d.value))
  {
    hide Decode, StartsWith, Strip, Holds, After, Partial;
    ghost var strict := target != null;
    if k < |src| {
      StripPad(src, k);
    }
    if k < |src| {
      if state < 2 {
        PadIsNoDigit();
        BadGroup(rest, p, strict);
        AfterNone(done);
        return -1;
      }
      var k := k + 1;
      PartialLength(p);
      PaddedGroup(rest, p, strict);
      PadEnd(rest, |p|, Strip(src, k));
      if state == 2 {
        k := SkipSpaces(src, k);
        if k < |src| {
          StripStep(src, k);
        } else {
          StripEnd(src);
        }
        if k == |src| || src[k] != PAD64 {
          AfterNone(done);
          return -1;
        }
        k := k + 1;
      }
      k := SkipSpaces(src, k);
      if k < |src| {
        StripStep(src, k);
        AfterNone(done);
        return -1;
      }
      StripEnd(src);
      if target != null {
        SlopIs(target[..targsize], done, p);
        if tarindex < targsize && target[tarindex] != 0 {
          AfterNone(done);
          return -1;
        }
        assert target[..targsize][..tarindex] == target[..tarindex];
      }
      EndPadded(done, Partial(p)[..|p| - 1]);
    } else {
      StripEnd(src);
      if state != 0 {
        BadGroup(rest, p, strict);
        AfterNone(done);
        return -1;
      }
      EndPlain(done, rest, strict);
      if target != null {
        HoldsDone(target[..targsize], done);
        assert target[..targsize][..tarindex] == target[..tarindex];
      }
    }
    return tarindex;
  }

  lemma StripPad(src: string, k: nat)
    requires k < |src| && src[k] == PAD64
    ensures Strip(src, k) == [PAD64] + Strip(src, k + 1)
  {
  }

  /** b64_pton(): with a target, success means canonical text whose bytes fit. */
  method B64Pton(src: string, target: array?<Byte>, targsize: nat) returns (r: int)
    requires '\0' !in src && (target != null ==> targsize <= target.Length)
    modifies if target == null then {} else {target}
    ensures r >= 0 <==>
              var d := Decode(Strip(src, 0), target != null);
              d.Some? && (target != null ==> |d.value| <= targsize)
    ensures r >= 0 ==>
              var d := Decode(Strip(src, 0), target != null);
              r == |d.value| && (target != null ==> target[..r] == d.value)
    ensures -1 <= r
  {
    hide Decode, StartsWith, Strip;
    var tarindex: nat, state: nat, k: nat := 0, 0, 0;
    ghost var strict := target != null;
    ghost var done: seq<Byte>, p: seq<int>, rest := [], [], Strip(src, 0);
    ghost var goal := Decode(rest, strict);
    StartDecode(rest, strict, if target != null then target[..targsize] else []);
    while k < |src|
      invariant 0 <= k <= |src| && Digits(p) && |p| == state < 4 && tarindex == |done| + Finished(p)
      invariant After(done, Decode(rest, strict)) == goal
      invariant StartsWith(rest, p) && |p| <= |rest| && rest[|p|..] == Strip(src, k)
      invariant target != null ==> Holds(target[..targsize], done, p)
    {
      var ch := src[k];
      StripStep(src, k);
      if IsSpace(ch) {
        k := k + 1;
        continue;
      }
      assert rest[|p|] == ch && rest[|p| + 1..] == Strip(src, k + 1) by {
        assert rest[|p|..][1..] == rest[|p| + 1..];
      }
      if ch == PAD64 {
        break;
      }
      var pos := FindDigit(ch);
      if pos < 0 {
        BadGroup(rest, p, strict);
        AfterNone(done);
        return -1;
      }
      var ok;
      ok, tarindex, state := Store(target, targsize, tarindex, state, pos, done, p);
      if !ok {
        TooSmall(rest, p, done, targsize);
        return -1;
      }
      k := k + 1;
      if |p| == 3 {
        FullDigits(rest, p, done, strict);
        done := done + [FirstByte(p[0], p[1]), SecondByte(p[1], p[2]), ThirdByte(p[2], pos)];
        rest, p := rest[4..], [];
        StartsNew(rest);
      } else {
        StartsMore(rest, p, pos);
        p := p + [pos];
      }
    }
    r := Finish(src, k, target, targsize, tarindex, state, done, p, rest);
  }
}
