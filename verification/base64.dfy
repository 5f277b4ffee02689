/** Base64 as defined by RFC 4648: the standard alphabet with '=' padding
    (section 4, Go's `base64.StdEncoding`, used for thumbnail data URLs) and
    the URL- and filename-safe alphabet without padding (section 5 with the
    padding omitted as section 3.2 permits, Go's `base64.RawURLEncoding`, used
    for object keys). `Encode` is what the handlers call; `Decode` is its
    inverse, proved to accept exactly the encoder's outputs. */
module Base64 {
  import opened Wrappers

  type byte = x: int | 0 <= x < 256
  type sextet = x: int | 0 <= x < 64

  /** Which two symbols stand for the values 62 and 63. */
  datatype Alphabet = Standard | UrlSafe

  datatype Encoding = Encoding(alphabet: Alphabet, padded: bool)

  /** Section 4 of RFC 4648. */
  const StdEncoding := Encoding(Standard, true)
  /** Section 5 of RFC 4648, unpadded. */
  const RawURLEncoding := Encoding(UrlSafe, false)

  const Pad := '='

  /** The symbol for a 6-bit value (Table 1 and Table 2 of RFC 4648). */
  function Symbol(a: Alphabet, v: sextet): char
  {
    if v < 26 then ('A' as int + v) as char
    else if v < 52 then ('a' as int + (v - 26)) as char
    else if v < 62 then ('0' as int + (v - 52)) as char
    else if v == 62 then (if a == Standard then '+' else '-')
    else (if a == Standard then '/' else '_')
  }

  /** The 6-bit value a symbol stands for, if it is one of the alphabet's 64 symbols. */
  function Value(a: Alphabet, c: char): Option<sextet>
  {
    if 'A' <= c <= 'Z' then Some(c as int - 'A' as int)
    else if 'a' <= c <= 'z' then Some(c as int - 'a' as int + 26)
    else if '0' <= c <= '9' then Some(c as int - '0' as int + 52)
    else if c == (if a == Standard then '+' else '-') then Some(62)
    else if c == (if a == Standard then '/' else '_') then Some(63)
    else None
  }

  predicate IsSymbol(a: Alphabet, c: char)
  {
    Value(a, c).Some?
  }

  /** `Symbol` and `Value` are inverse bijections between the 64 values and
      the alphabet: each value's symbol stands for that value ... */
  lemma SymbolValue(a: Alphabet, v: sextet)
    ensures Value(a, Symbol(a, v)) == Some(v)
  {
  }

  /** ... and every symbol is the image of the value it stands for. */
  lemma ValueSymbol(a: Alphabet, c: char)
    requires IsSymbol(a, c)
    ensures Symbol(a, Value(a, c).value) == c
  {
  }

  /** The URL-safe alphabet avoids every character that is structural in
      an object key or a stored reference. */
  lemma UrlSafeSymbolIsPlain(c: char)
    requires IsSymbol(UrlSafe, c)
    ensures c != '/' && c != '+' && c != Pad && c != ',' && c != '.'
  {
  }

  /** The symbols for a sequence of 6-bit values. */
  function Symbols(a: Alphabet, vs: seq<sextet>): seq<char>
  {
    seq(|vs|, i requires 0 <= i < |vs| => Symbol(a, vs[i]))
  }

  /** The 6-bit values of a sequence of characters, if all are symbols. */
  function Values(a: Alphabet, t: seq<char>): (r: Option<seq<sextet>>)
    ensures r.Some? ==> |r.value| == |t|
  {
    if |t| == 0 then Some([])
    else
      match Value(a, t[0])
      case None => None
      case Some(v) =>
        match Values(a, t[1..])
        case None => None
        case Some(vs) => Some([v] + vs)
  }

  lemma {:induction false} ValuesOfSymbols(a: Alphabet, vs: seq<sextet>)
    ensures Values(a, Symbols(a, vs)) == Some(vs)
  {
    if |vs| > 0 {
      var t := Symbols(a, vs);
      assert t[1..] == Symbols(a, vs[1..]);
      SymbolValue(a, vs[0]);
      ValuesOfSymbols(a, vs[1..]);
      assert vs == [vs[0]] + vs[1..];
    }
  }

  lemma {:induction false} SymbolsOfValues(a: Alphabet, t: seq<char>)
    requires Values(a, t).Some?
    ensures Symbols(a, Values(a, t).value) == t
  {
    if |t| > 0 {
      var vs := Values(a, t).value;
      ValueSymbol(a, t[0]);
      SymbolsOfValues(a, t[1..]);
      assert vs[1..] == Values(a, t[1..]).value;
      assert Symbols(a, vs)[1..] == Symbols(a, vs[1..]);
    }
  }

  /** Three bytes split into four 6-bit groups, most significant bits first. */
  function GroupSextets(b0: byte, b1: byte, b2: byte): seq<sextet>
  {
    [b0 / 4, (b0 % 4) * 16 + b1 / 16, (b1 % 16) * 4 + b2 / 64, b2 % 64]
  }

  function GroupBytes(v: seq<sextet>): seq<byte>
    requires |v| == 4
  {
    var b: seq<byte> := [v[0] as int * 4 + v[1] / 16, (v[1] as int % 16) * 16 + v[2] / 4, (v[2] as int % 4) * 64 + v[3]];
    b
  }

  /** A final single byte: two groups, the last with four zero bits appended. */
  function Tail1Sextets(b0: byte): seq<sextet>
  {
    [b0 / 4, (b0 % 4) * 16]
  }

  /** Two final bytes: three groups, the last with two zero bits appended. */
  function Tail2Sextets(b0: byte, b1: byte): seq<sextet>
  {
    [b0 / 4, (b0 % 4) * 16 + b1 / 16, (b1 % 16) * 4]
  }

  /** The bytes carried by a final group of two or three 6-bit values, when
      the appended bits are zero (RFC 4648 section 3.5: canonical encoding). */
  function TailBytes(v: seq<sextet>): Option<seq<byte>>
  {
    if |v| == 2 && v[1] % 16 == 0 then
      var b: seq<byte> := [v[0] as int * 4 + v[1] / 16];
      Some(b)
    else if |v| == 3 && v[2] % 4 == 0 then
      var b: seq<byte> := [v[0] as int * 4 + v[1] / 16, (v[1] as int % 16) * 16 + v[2] / 4];
      Some(b)
    else None
  }

  lemma GroupBytesOfSextets(b0: byte, b1: byte, b2: byte)
    ensures GroupBytes(GroupSextets(b0, b1, b2)) == [b0, b1, b2]
  {
  }

  lemma GroupSextetsOfBytes(v: seq<sextet>)
    requires |v| == 4
    ensures var b := GroupBytes(v); GroupSextets(b[0], b[1], b[2]) == v
  {
  }

  lemma TailBytesOfSextets(b0: byte, b1: byte)
    ensures TailBytes(Tail1Sextets(b0)) == Some([b0])
    ensures TailBytes(Tail2Sextets(b0, b1)) == Some([b0, b1])
  {
  }

  lemma TailSextetsOfBytes(v: seq<sextet>)
    requires TailBytes(v).Some?
    ensures var b := TailBytes(v).value;
      && (|v| == 2 ==> |b| == 1 && Tail1Sextets(b[0]) == v)
      && (|v| == 3 ==> |b| == 2 && Tail2Sextets(b[0], b[1]) == v)
      && (|v| == 2 || |v| == 3)
  {
  }

  /** The characters an encoding may produce at position `i` of an output of length `n`:
      a symbol of its alphabet, or, when padded, '=' in one of the last two places. */
  predicate EncodedChar(e: Encoding, c: char, i: int, n: int)
  {
    IsSymbol(e.alphabet, c) || (e.padded && c == Pad && n - 2 <= i)
  }

  /** `EncodeToString`. Padded, the output is 4 * ceil(n / 3) long; unpadded,
      ceil(4 * n / 3) long (Go's `EncodedLen`). */
  function Encode(e: Encoding, s: seq<byte>): (r: seq<char>)
    ensures e.padded ==> |r| == 4 * ((|s| + 2) / 3)
    ensures !e.padded ==> |r| == (4 * |s| + 2) / 3
    decreases |s|
  {
    var a := e.alphabet;
    if |s| == 0 then []
    else if |s| >= 3 then
      Symbols(a, GroupSextets(s[0], s[1], s[2])) + Encode(e, s[3..])
    else if |s| == 2 then Symbols(a, Tail2Sextets(s[0], s[1])) + (if e.padded then [Pad] else [])
    else Symbols(a, Tail1Sextets(s[0])) + (if e.padded then [Pad, Pad] else [])
  }

  /** Every character of an encoding is a symbol of its alphabet, except
      for '=' padding in the last two places of a padded encoding. */
  lemma {:induction false} EncodeAlphabet(e: Encoding, s: seq<byte>)
    ensures forall i :: 0 <= i < |Encode(e, s)| ==> EncodedChar(e, Encode(e, s)[i], i, |Encode(e, s)|)
    decreases |s|
  {
    var a := e.alphabet;
    var r := Encode(e, s);
    if |s| >= 3 {
      var head := Symbols(a, GroupSextets(s[0], s[1], s[2]));
      var tail := Encode(e, s[3..]);
      EncodeAlphabet(e, s[3..]);
      AllSymbols(a, GroupSextets(s[0], s[1], s[2]));
      assert r == head + tail;
      forall i | 0 <= i < |r| ensures EncodedChar(e, r[i], i, |r|) {
        if i >= 4 {
          assert r[i] == tail[i - 4];
          assert EncodedChar(e, tail[i - 4], i - 4, |tail|);
        } else {
          assert r[i] == head[i];
        }
      }
    } else if |s| == 2 {
      AllSymbols(a, Tail2Sextets(s[0], s[1]));
    } else if |s| == 1 {
      AllSymbols(a, Tail1Sextets(s[0]));
    }
  }

  lemma AllSymbols(a: Alphabet, vs: seq<sextet>)
    ensures forall i :: 0 <= i < |vs| ==> IsSymbol(a, Symbols(a, vs)[i])
  {
    forall i | 0 <= i < |vs| ensures IsSymbol(a, Symbols(a, vs)[i]) {
      SymbolValue(a, vs[i]);
    }
  }

  /** Three bytes from four symbols. */
  function DecodeGroup(a: Alphabet, t: seq<char>): Option<seq<byte>>
    requires |t| == 4
  {
    match Values(a, t)
    case None => None
    case Some(v) => Some(GroupBytes(v))
  }

  /** One or two final bytes from two or three symbols. */
  function DecodeTail(a: Alphabet, t: seq<char>): Option<seq<byte>>
  {
    match Values(a, t)
    case None => None
    case Some(v) => TailBytes(v)
  }

  /** Strict decoding: the bytes whose encoding is `t`, if there are any. */
  function Decode(e: Encoding, t: seq<char>): Option<seq<byte>>
    decreases |t|
  {
    if |t| == 0 then Some([])
    else if |t| < 4 then (if e.padded then None else DecodeTail(e.alphabet, t))
    else if |t| == 4 && e.padded && t[3] == Pad then
      (if t[2] == Pad then DecodeTail(e.alphabet, t[..2]) else DecodeTail(e.alphabet, t[..3]))
    else
      match DecodeGroup(e.alphabet, t[..4])
      case None => None
      case Some(head) =>
        match Decode(e, t[4..])
        case None => None
        case Some(tail) => Some(head + tail)
  }

  /** Decoding an encoding returns the original bytes. */
  lemma {:induction false} DecodeEncode(e: Encoding, s: seq<byte>)
    ensures Decode(e, Encode(e, s)) == Some(s)
    decreases |s|
  {
    var a := e.alphabet;
    var t := Encode(e, s);
    if |s| >= 3 {
      var v := GroupSextets(s[0], s[1], s[2]);
      var head := Symbols(a, v);
      var tail := Encode(e, s[3..]);
      assert t == head + tail;
      assert t[..4] == head;
      assert t[4..] == tail;
      ValuesOfSymbols(a, v);
      GroupBytesOfSextets(s[0], s[1], s[2]);
      DecodeEncode(e, s[3..]);
      SymbolValue(a, v[3]);
      assert t[3] == Symbol(a, v[3]);
      assert s == [s[0], s[1], s[2]] + s[3..];
    } else if |s| == 2 {
      var v := Tail2Sextets(s[0], s[1]);
      ValuesOfSymbols(a, v);
      TailBytesOfSextets(s[0], s[1]);
      SymbolValue(a, v[2]);
      assert t[2] == Symbol(a, v[2]);
      assert t[2] != Pad;
      assert s == [s[0], s[1]];
      if e.padded {
        assert t[..3] == Symbols(a, v) && t[3] == Pad;
      } else {
        assert t == Symbols(a, v);
      }
    } else if |s| == 1 {
      var v := Tail1Sextets(s[0]);
      ValuesOfSymbols(a, v);
      TailBytesOfSextets(s[0], 0);
      assert s == [s[0]];
      if e.padded {
        assert t[..2] == Symbols(a, v) && t[2] == Pad && t[3] == Pad;
      } else {
        assert t == Symbols(a, v);
      }
    }
  }

  lemma TailDecodes(a: Alphabet, t: seq<char>)
    requires DecodeTail(a, t).Some?
    ensures var b := DecodeTail(a, t).value;
      && (|t| == 2 ==> |b| == 1 && Symbols(a, Tail1Sextets(b[0])) == t)
      && (|t| == 3 ==> |b| == 2 && Symbols(a, Tail2Sextets(b[0], b[1])) == t)
      && (|t| == 2 || |t| == 3)
  {
    var v := Values(a, t).value;
    SymbolsOfValues(a, t);
    TailSextetsOfBytes(v);
  }

  /** Whatever `Decode` accepts is exactly the encoding of what it returns. */
  lemma {:induction false} EncodeDecode(e: Encoding, t: seq<char>)
    requires Decode(e, t).Some?
    ensures Encode(e, Decode(e, t).value) == t
    decreases |t|
  {
    var a := e.alphabet;
    var s := Decode(e, t).value;
    if |t| == 0 {
    } else if |t| < 4 {
      TailDecodes(a, t);
    } else if |t| == 4 && e.padded && t[3] == Pad {
      if t[2] == Pad {
        TailDecodes(a, t[..2]);
        assert t == t[..2] + [Pad, Pad];
      } else {
        TailDecodes(a, t[..3]);
        assert t == t[..3] + [Pad];
      }
    } else {
      var v := Values(a, t[..4]).value;
      var head := GroupBytes(v);
      var tail := Decode(e, t[4..]).value;
      assert s == head + tail;
      SymbolsOfValues(a, t[..4]);
      GroupSextetsOfBytes(v);
      EncodeDecode(e, t[4..]);
      assert s[3..] == tail;
      assert t == t[..4] + t[4..];
    }
  }

  /** `Decode` is the exact inverse of `Encode`: it accepts `t` with result `s`
      if and only if `t` is the encoding of `s`. */
  lemma DecodeIffEncode(e: Encoding, s: seq<byte>, t: seq<char>)
    ensures Decode(e, t) == Some(s) <==> Encode(e, s) == t
  {
    if Decode(e, t) == Some(s) {
      EncodeDecode(e, t);
    }
    if Encode(e, s) == t {
      DecodeEncode(e, s);
    }
  }

  /** Distinct byte strings have distinct encodings. */
  lemma EncodeInjective(e: Encoding, s1: seq<byte>, s2: seq<byte>)
    requires Encode(e, s1) == Encode(e, s2)
    ensures s1 == s2
  {
    DecodeEncode(e, s1);
    DecodeEncode(e, s2);
  }
}
