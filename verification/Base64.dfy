/** Base64 (section 4 of RFC 4648), with and without padding (section 3.2). */
module Base64 {
  import opened Options
  import opened Sequences

  type Byte = x: int | 0 <= x < 256
  type Sextet = x: int | 0 <= x < 64

  function Symbol(v: Sextet): char {
    if v < 26 then ('A' as int + v) as char
    else if v < 52 then ('a' as int + v - 26) as char
    else if v < 62 then ('0' as int + v - 52) as char
    else if v == 62 then '+' else '/'
  }

  predicate IsSymbol(c: char) {
    'A' <= c <= 'Z' || 'a' <= c <= 'z' || '0' <= c <= '9' || c == '+' || c == '/'
  }

  function Value(c: char): Sextet
    requires IsSymbol(c)
  {
    if 'A' <= c <= 'Z' then c as int - 'A' as int
    else if 'a' <= c <= 'z' then c as int - 'a' as int + 26
    else if '0' <= c <= '9' then c as int - '0' as int + 52
    else if c == '+' then 62 else 63
  }

  lemma SymbolValue(v: Sextet)
    ensures IsSymbol(Symbol(v)) && Value(Symbol(v)) == v
  {
  }

  /** Three bytes are four symbols; a tail of one or two bytes is two or three, then padding if asked for. */
  function Encode(b: seq<Byte>, padded: bool): string {
    if |b| == 0 then ""
    else if |b| == 1 then
      [Symbol(b[0] / 4), Symbol(b[0] % 4 * 16)] + if padded then "==" else ""
    else if |b| == 2 then
      [Symbol(b[0] / 4), Symbol(b[0] % 4 * 16 + b[1] / 16), Symbol(b[1] % 16 * 4)] + if padded then "=" else ""
    else
      Quad(b[0], b[1], b[2]) + Encode(b[3..], padded)
  }

  /** The bytes of two, three or four symbols; the bits left over are ignored. */
  function Pack(s: string): Option<seq<Byte>>
    requires 2 <= |s| <= 4
  {
    if exists i | 0 <= i < |s| :: !IsSymbol(s[i]) then None
    else
      var v0, v1 := Value(s[0]), Value(s[1]);
      var first: Byte := v0 * 4 + v1 / 16;
      if |s| == 2 then Some([first])
      else
        var v2 := Value(s[2]);
        var second: Byte := v1 % 16 * 16 + v2 / 4;
        if |s| == 3 then Some([first, second])
        else
          var third: Byte := v2 % 4 * 64 + Value(s[3]);
          Some([first, second, third])
  }

  function DecodeClean(s: string, padded: bool): Option<seq<Byte>> {
    if |s| == 0 then Some([])
    else if |s| == 1 then None
    else if |s| < 4 then (if padded then None else Pack(s))
    else if padded && |s| == 4 && s[3] == '=' then
      (if s[2] == '=' then Pack(s[..2]) else Pack(s[..3]))
    else
      var head :- Pack(s[..4]);
      var tail :- DecodeClean(s[4..], padded);
      Some(head + tail)
  }

  function WithoutNewlines(s: string): string {
    if |s| == 0 then ""
    else (if s[0] == '\n' || s[0] == '\r' then "" else [s[0]]) + WithoutNewlines(s[1..])
  }

  /** Newlines are skipped wherever they stand. */
  function Decode(s: string, padded: bool): Option<seq<Byte>> {
    DecodeClean(WithoutNewlines(s), padded)
  }

  lemma {:induction false} NothingToStrip(s: string)
    requires '\n' !in s && '\r' !in s
    ensures WithoutNewlines(s) == s
  {
    if |s| > 0 {
      NothingToStrip(s[1..]);
      assert s[0] in s && s == [s[0]] + s[1..];
    }
  }

  lemma {:induction false} EncodedSymbols(b: seq<Byte>, padded: bool)
    ensures forall c | c in Encode(b, padded) :: IsSymbol(c) || (padded && c == '=')
  {
    if |b| >= 3 { EncodedSymbols(b[3..], padded); }
  }

  lemma Repack(b0: Byte, b1: Byte, b2: Byte)
    ensures b0 / 4 * 4 + (b0 % 4 * 16 + b1 / 16) / 16 == b0
    ensures (b0 % 4 * 16 + b1 / 16) % 16 * 16 + (b1 % 16 * 4 + b2 / 64) / 4 == b1
    ensures (b1 % 16 * 4 + b2 / 64) % 4 * 64 + b2 % 64 == b2
  {
  }

  lemma PackValues(v0: Sextet, v1: Sextet, v2: Sextet, v3: Sextet)
    ensures Pack([Symbol(v0), Symbol(v1)]) == Some([v0 * 4 + v1 / 16])
    ensures Pack([Symbol(v0), Symbol(v1), Symbol(v2)]) == Some([v0 * 4 + v1 / 16, v1 % 16 * 16 + v2 / 4])
    ensures Pack([Symbol(v0), Symbol(v1), Symbol(v2), Symbol(v3)]) ==
            Some([v0 * 4 + v1 / 16, v1 % 16 * 16 + v2 / 4, v2 % 4 * 64 + v3])
  {
    SymbolValue(v0);
    SymbolValue(v1);
    SymbolValue(v2);
    SymbolValue(v3);
  }

  /** The four symbols of three bytes. */
  function Quad(b0: Byte, b1: Byte, b2: Byte): string {
    [Symbol(b0 / 4), Symbol(b0 % 4 * 16 + b1 / 16), Symbol(b1 % 16 * 4 + b2 / 64), Symbol(b2 % 64)]
  }

  lemma PackSextets(v0: Sextet, v1: Sextet, v2: Sextet, v3: Sextet, b0: Byte, b1: Byte, b2: Byte)
    requires v0 * 4 + v1 / 16 == b0 && v1 % 16 * 16 + v2 / 4 == b1 && v2 % 4 * 64 + v3 == b2
    ensures Pack([Symbol(v0), Symbol(v1), Symbol(v2), Symbol(v3)]) == Some([b0, b1, b2]) && Symbol(v3) != '='
  {
    PackValues(v0, v1, v2, v3);
  }

  lemma PackThree(b0: Byte, b1: Byte, b2: Byte)
    ensures Pack(Quad(b0, b1, b2)) == Some([b0, b1, b2])
    ensures Quad(b0, b1, b2)[3] != '='
  {
    Repack(b0, b1, b2);
    PackSextets(b0 / 4, b0 % 4 * 16 + b1 / 16, b1 % 16 * 4 + b2 / 64, b2 % 64, b0, b1, b2);
  }

  lemma PackPair(v0: Sextet, v1: Sextet, v2: Sextet, b0: Byte, b1: Byte)
    requires v0 * 4 + v1 / 16 == b0 && v1 % 16 * 16 + v2 / 4 == b1
    ensures Pack([Symbol(v0), Symbol(v1), Symbol(v2)]) == Some([b0, b1])
  {
    PackValues(v0, v1, v2, 0);
  }

  lemma PackTwo(b0: Byte, b1: Byte)
    ensures Pack([Symbol(b0 / 4), Symbol(b0 % 4 * 16 + b1 / 16), Symbol(b1 % 16 * 4)]) == Some([b0, b1])
  {
    Repack(b0, b1, 0);
    PackPair(b0 / 4, b0 % 4 * 16 + b1 / 16, b1 % 16 * 4, b0, b1);
  }

  lemma PackOne(b0: Byte)
    ensures Pack([Symbol(b0 / 4), Symbol(b0 % 4 * 16)]) == Some([b0])
  {
  }

  /** A full group that is not a padded tail decodes on its own. */
  lemma DecodeFour(head: string, tail: string, padded: bool)
    requires |head| == 4 && head[3] != '=' && Pack(head).Some? && DecodeClean(tail, padded).Some?
    ensures DecodeClean(head + tail, padded) == Some(Pack(head).value + DecodeClean(tail, padded).value)
  {
  }

  lemma DecodeTail(b: seq<Byte>, padded: bool)
    requires |b| < 3
    ensures DecodeClean(Encode(b, padded), padded) == Some(b)
  {
    if |b| == 1 {
      DecodeOne(b[0], padded);
      assert b == [b[0]];
    } else if |b| == 2 {
      DecodeTwo(b[0], b[1], padded);
      assert b == [b[0], b[1]];
    }
  }

  lemma DecodeOne(b0: Byte, padded: bool)
    ensures DecodeClean(Encode([b0], padded), padded) == Some([b0])
  {
    PackOne(b0);
    assert Encode([b0], padded)[..2] == [Symbol(b0 / 4), Symbol(b0 % 4 * 16)];
  }

  lemma DecodeTwo(b0: Byte, b1: Byte, padded: bool)
    ensures DecodeClean(Encode([b0, b1], padded), padded) == Some([b0, b1])
  {
    PackTwo(b0, b1);
    assert Encode([b0, b1], padded)[..3] == [Symbol(b0 / 4), Symbol(b0 % 4 * 16 + b1 / 16), Symbol(b1 % 16 * 4)];
    SymbolValue(b1 % 16 * 4);
  }

  lemma {:induction false} DecodeCleanEncode(b: seq<Byte>, padded: bool)
    ensures DecodeClean(Encode(b, padded), padded) == Some(b)
  {
    if |b| < 3 {
      DecodeTail(b, padded);
    } else {
      DecodeCleanEncode(b[3..], padded);
      ThreeMore(b[0], b[1], b[2], b[3..], padded);
      assert b == [b[0], b[1], b[2]] + b[3..];
    }
  }

  lemma EncodeThree(b0: Byte, b1: Byte, b2: Byte, tail: seq<Byte>, padded: bool)
    ensures Encode([b0, b1, b2] + tail, padded) == Quad(b0, b1, b2) + Encode(tail, padded)
  {
  }

  lemma ThreeMore(b0: Byte, b1: Byte, b2: Byte, tail: seq<Byte>, padded: bool)
    requires DecodeClean(Encode(tail, padded), padded) == Some(tail)
    ensures DecodeClean(Encode([b0, b1, b2] + tail, padded), padded) == Some([b0, b1, b2] + tail)
  {
    EncodeThree(b0, b1, b2, tail, padded);
    PackThree(b0, b1, b2);
    DecodeFour(Quad(b0, b1, b2), Encode(tail, padded), padded);
  }

  /** Decoding recovers exactly the encoded bytes, in either form. */
  lemma RoundTrip(b: seq<Byte>, padded: bool)
    ensures Decode(Encode(b, padded), padded) == Some(b)
  {
    EncodedSymbols(b, padded);
    NothingToStrip(Encode(b, padded));
    DecodeCleanEncode(b, padded);
  }

  /** The other direction fails: leftover bits are not checked, so two texts can stand for the same byte. */
  lemma NotCanonical()
    ensures Decode("QQ", false) == Decode("QR", false) == Some([65])
  {
  }

  /** The bits of the last symbol that no byte uses. */
  predicate NoLeftoverBits(s: string) {
    |s| > 0 && IsSymbol(s[|s| - 1]) ==>
      (|s| % 4 == 2 ==> Value(s[|s| - 1]) % 16 == 0) && (|s| % 4 == 3 ==> Value(s[|s| - 1]) % 4 == 0)
  }

  /** A decodable text without padding is the encoding of its bytes exactly when those bits are zero. */
  lemma {:induction false} CanonicalIff(s: string)
    requires DecodeClean(s, false).Some?
    ensures Encode(DecodeClean(s, false).value, false) == s <==> NoLeftoverBits(s)
  {
    if |s| == 0 {
    } else if |s| < 4 {
      UnpackTail(s);
    } else {
      var first, rest := s[..4], s[4..];
      assert s == first + rest;
      assert Pack(first).Some? && DecodeClean(rest, false).Some?;
      CanonicalIff(rest);
      CanonicalMore(first, rest);
      LeftoverTail(first, rest);
    }
  }

  lemma CanonicalMore(first: string, rest: string)
    requires |first| == 4 && Pack(first).Some? && first[3] != '=' && DecodeClean(rest, false).Some?
    ensures Encode(DecodeClean(first + rest, false).value, false) == first + rest
       <==> Encode(DecodeClean(rest, false).value, false) == rest
  {
    DecodeFour(first, rest, false);
    UnpackFour(first);
    var b, tail := Pack(first).value, DecodeClean(rest, false).value;
    assert b == [b[0], b[1], b[2]];
    EncodeThree(b[0], b[1], b[2], tail, false);
    SameTail(first, rest, Encode(tail, false));
  }

  lemma LeftoverTail(first: string, rest: string)
    requires |first| == 4
    ensures NoLeftoverBits(first + rest) <==> NoLeftoverBits(rest)
  {
  }

  lemma SameTail(head: string, a: string, b: string)
    ensures head + a == head + b <==> a == b
  {
    assert (head + a)[|head|..] == a && (head + b)[|head|..] == b;
  }

  lemma UnpackFour(s: string)
    requires |s| == 4 && Pack(s).Some?
    ensures var b := Pack(s).value;
            |b| == 3 && Quad(b[0], b[1], b[2]) == s
  {
    ValueSymbol(s[0]);
    ValueSymbol(s[1]);
    ValueSymbol(s[2]);
    ValueSymbol(s[3]);
    var b := Pack(s).value;
    assert b[0] / 4 == Value(s[0]) && b[0] % 4 * 16 + b[1] / 16 == Value(s[1]);
    assert b[1] % 16 * 4 + b[2] / 64 == Value(s[2]) && b[2] % 64 == Value(s[3]);
  }

  lemma UnpackTail(s: string)
    requires 2 <= |s| <= 3 && Pack(s).Some?
    ensures Encode(Pack(s).value, false) == s <==> NoLeftoverBits(s)
  {
    if |s| == 3 { UnpackThree(s[0], s[1], s[2]); } else { UnpackTwo(s[0], s[1]); }
    assert s == if |s| == 3 then [s[0], s[1], s[2]] else [s[0], s[1]];
  }

  lemma UnpackTwo(c0: char, c1: char)
    requires Pack([c0, c1]).Some?
    ensures Encode(Pack([c0, c1]).value, false) == [c0, c1] <==> NoLeftoverBits([c0, c1])
  {
    PackedSymbols([c0, c1]);
    ValueSymbol(c0);
    ValueSymbol(c1);
    TwoBits(Value(c0), Value(c1));
  }

  lemma UnpackThree(c0: char, c1: char, c2: char)
    requires Pack([c0, c1, c2]).Some?
    ensures Encode(Pack([c0, c1, c2]).value, false) == [c0, c1, c2] <==> NoLeftoverBits([c0, c1, c2])
  {
    PackedSymbols([c0, c1, c2]);
    assert IsSymbol(c0) && IsSymbol(c1) && IsSymbol(c2);
    var v0, v1, v2 := Value(c0), Value(c1), Value(c2);
    ValueSymbol(c0);
    ValueSymbol(c1);
    ValueSymbol(c2);
    PackValues(v0, v1, v2, 0);
    ThreeEncodedIff(v0, v1, v2);
  }

  lemma ThreeEncodedIff(v0: Sextet, v1: Sextet, v2: Sextet)
    ensures var b0: Byte, b1: Byte := v0 * 4 + v1 / 16, v1 % 16 * 16 + v2 / 4;
            Encode([b0, b1], false) == [Symbol(v0), Symbol(v1), Symbol(v2)] <==> v2 % 4 == 0
  {
    var b0: Byte, b1: Byte := v0 * 4 + v1 / 16, v1 % 16 * 16 + v2 / 4;
    ThreeBits(v0, v1, v2);
    EncodeTwoIff(b0, b1, v0, v1, v2);
  }

  lemma EncodeTwoIff(b0: Byte, b1: Byte, v0: Sextet, v1: Sextet, v2: Sextet)
    requires b0 / 4 == v0 && b0 % 4 * 16 + b1 / 16 == v1
    ensures Encode([b0, b1], false) == [Symbol(v0), Symbol(v1), Symbol(v2)] <==> b1 % 16 * 4 == v2
  {
    var last: Sextet := b1 % 16 * 4;
    SymbolValue(last);
    SymbolValue(v2);
    assert Encode([b0, b1], false) == [Symbol(v0), Symbol(v1), Symbol(last)];
    assert [Symbol(v0), Symbol(v1), Symbol(last)][2] == Symbol(last) &&
           [Symbol(v0), Symbol(v1), Symbol(v2)][2] == Symbol(v2);
  }

  lemma PackedSymbols(s: string)
    requires 2 <= |s| <= 4 && Pack(s).Some?
    ensures forall i | 0 <= i < |s| :: IsSymbol(s[i])
  {
  }

  lemma TwoBits(v0: Sextet, v1: Sextet)
    ensures var b: Byte := v0 * 4 + v1 / 16; b / 4 == v0 && (b % 4 * 16 == v1 <==> v1 % 16 == 0)
  {
  }

  lemma ThreeBits(v0: Sextet, v1: Sextet, v2: Sextet)
    ensures var b0: Byte, b1: Byte := v0 * 4 + v1 / 16, v1 % 16 * 16 + v2 / 4;
            b0 / 4 == v0 && b0 % 4 * 16 + b1 / 16 == v1 && (b1 % 16 * 4 == v2 <==> v2 % 4 == 0)
  {
  }

  lemma ValueSymbol(c: char)
    requires IsSymbol(c)
    ensures Symbol(Value(c)) == c
  {
  }

  /** Texts that differ in leftover bits only decode alike. */
  lemma {:induction false} LeftoverIgnored(s: string, c: char, d: char)
    requires IsSymbol(c) && IsSymbol(d)
    requires (|s| % 4 == 1 && Value(c) / 16 == Value(d) / 16) || (|s| % 4 == 2 && Value(c) / 4 == Value(d) / 4)
    ensures DecodeClean(s + [c], false) == DecodeClean(s + [d], false)
  {
    if |s| >= 4 {
      LeftoverIgnored(s[4..], c, d);
      GroupFirst(s, [c]);
      GroupFirst(s, [d]);
    } else if |s| == 1 {
      assert s + [c] == [s[0], c] && s + [d] == [s[0], d];
    } else {
      assert s + [c] == [s[0], s[1], c] && s + [d] == [s[0], s[1], d];
    }
  }

  lemma GroupFirst(s: string, tail: string)
    requires |s| >= 4
    ensures (s + tail)[..4] == s[..4] && (s + tail)[4..] == s[4..] + tail
  {
  }

  // ---- What is encoded ----

  const UPPER := "ABCDEFGHIJKLMNOPQRSTUVWXYZ"
  const LOWER := "abcdefghijklmnopqrstuvwxyz"
  const DIGITS := "0123456789"
  const ALPHABET := UPPER + LOWER + DIGITS + "+/"

  lemma Letters(s: string, first: char, n: nat)
    requires (s == UPPER && first == 'A') || (s == LOWER && first == 'a') || (s == DIGITS && first == '0')
    requires n < |s|
    ensures s[n] as int == first as int + n
  {
  }

  lemma SymbolInAlphabet(v: Sextet)
    ensures |ALPHABET| == 64 && Symbol(v) == ALPHABET[v]
  {
    if v < 26 { Letters(UPPER, 'A', v); }
    else if v < 52 { Letters(LOWER, 'a', v - 26); }
    else if v < 62 { Letters(DIGITS, '0', v - 52); }
  }

  /** Three bytes as a number of 24 bits are four digits to the base 64, and the encoding goes on behind them. */
  lemma GroupIsNumber(b: seq<Byte>, padded: bool) returns (v0: Sextet, v1: Sextet, v2: Sextet, v3: Sextet)
    requires |b| >= 3
    ensures b[0] as int * 65536 + b[1] as int * 256 + b[2] ==
            v0 as int * 262144 + v1 as int * 4096 + v2 as int * 64 + v3
    ensures |ALPHABET| == 64
    ensures Encode(b, padded) == [ALPHABET[v0], ALPHABET[v1], ALPHABET[v2], ALPHABET[v3]] + Encode(b[3..], padded)
  {
    v0, v1, v2, v3 := b[0] / 4, b[0] % 4 * 16 + b[1] / 16, b[1] % 16 * 4 + b[2] / 64, b[2] % 64;
    SymbolInAlphabet(v0);
    SymbolInAlphabet(v1);
    SymbolInAlphabet(v2);
    SymbolInAlphabet(v3);
  }

  /** A last group is filled up with zero bits to whole digits, and with padding signs to four characters. */
  lemma TailIsNumber(b: seq<Byte>, padded: bool) returns (v0: Sextet, v1: Sextet, v2: Sextet)
    requires 1 <= |b| <= 2 && |ALPHABET| == 64
    ensures |b| == 1 ==> b[0] as int * 16 == v0 as int * 64 + v1
    ensures |b| == 1 ==> Encode(b, padded) == [ALPHABET[v0], ALPHABET[v1]] + if padded then "==" else ""
    ensures |b| == 2 ==> b[0] as int * 1024 + b[1] as int * 4 == v0 as int * 4096 + v1 as int * 64 + v2
    ensures |b| == 2 ==> Encode(b, padded) == [ALPHABET[v0], ALPHABET[v1], ALPHABET[v2]] + if padded then "=" else ""
  {
    v0, v1, v2 := b[0] / 4, b[0] % 4 * 16, 0;
    if |b| == 2 {
      v1, v2 := v1 + b[1] / 16, b[1] % 16 * 4;
    }
    SymbolInAlphabet(v0);
    SymbolInAlphabet(v1);
    SymbolInAlphabet(v2);
  }

  // ---- What decodes ----

  function NoNewline(): char -> bool {
    (c: char) => c != '\n' && c != '\r'
  }

  lemma {:induction false} StripsNewlines(s: string)
    ensures WithoutNewlines(s) == Filter(s, NoNewline())
  {
    if |s| > 0 { StripsNewlines(s[1..]); }
  }

  predicate Symbols(s: string) {
    forall i | 0 <= i < |s| :: IsSymbol(s[i])
  }

  lemma SymbolsSplit(s: string)
    requires |s| >= 4
    ensures Symbols(s) <==> Symbols(s[..4]) && Symbols(s[4..])
  {
    assert forall i | 4 <= i < |s| :: s[i] == s[4..][i - 4];
  }

  lemma GroupDecodes(s: string)
    requires |s| >= 4
    ensures DecodeClean(s, false).Some? <==> Symbols(s[..4]) && DecodeClean(s[4..], false).Some?
  {
  }

  lemma {:induction false} CleanDecodes(s: string)
    ensures DecodeClean(s, false).Some? <==> |s| % 4 != 1 && Symbols(s)
  {
    if |s| >= 4 {
      CleanDecodes(s[4..]);
      GroupDecodes(s);
      SymbolsSplit(s);
    }
  }

  /** Without padding, newlines aside, exactly the texts of symbols that leave no single one over decode. */
  lemma DecodesIff(s: string)
    ensures var text := Filter(s, NoNewline());
            Decode(s, false).Some? <==> |text| % 4 != 1 && Symbols(text)
  {
    StripsNewlines(s);
    CleanDecodes(WithoutNewlines(s));
  }

  /** The last group may end in one or two padding signs. */
  predicate PaddedSymbols(s: string) {
    |s| % 4 == 0 && forall i | 0 <= i < |s| ::
      IsSymbol(s[i]) || (s[i] == '=' && (i == |s| - 1 || (i == |s| - 2 && s[|s| - 1] == '=')))
  }

  lemma {:induction false} CleanPaddedDecodes(s: string)
    ensures DecodeClean(s, true).Some? <==> PaddedSymbols(s)
  {
    if |s| == 4 {
      LastGroup(s);
    } else if |s| > 4 {
      CleanPaddedDecodes(s[4..]);
      PaddedRest(s);
    }
  }

  lemma LastGroup(s: string)
    requires |s| == 4
    ensures DecodeClean(s, true).Some? <==> PaddedSymbols(s)
  {
    if s[3] == '=' {
      assert s[2] == '=' ==> (Pack(s[..2]).Some? <==> IsSymbol(s[0]) && IsSymbol(s[1]));
      assert s[2] != '=' ==> (Pack(s[..3]).Some? <==> IsSymbol(s[0]) && IsSymbol(s[1]) && IsSymbol(s[2]));
    } else {
      assert s[..4] == s && s[4..] == "";
    }
  }

  lemma PaddedRest(s: string)
    requires |s| > 4
    ensures PaddedSymbols(s) <==> Symbols(s[..4]) && PaddedSymbols(s[4..])
  {
    var rest := s[4..];
    if PaddedSymbols(s) {
      assert forall i | 0 <= i < 4 :: IsSymbol(s[i]);
      assert forall i | 0 <= i < |rest| :: rest[i] == s[i + 4];
    }
    if Symbols(s[..4]) && PaddedSymbols(rest) {
      assert forall i | 0 <= i < |s| :: s[i] == if i < 4 then s[..4][i] else rest[i - 4];
    }
  }

  /** With padding, newlines aside, exactly the texts of whole groups do, symbols but for padding at the very end. */
  lemma PaddedDecodesIff(s: string)
    ensures Decode(s, true).Some? <==> PaddedSymbols(Filter(s, NoNewline()))
  {
    StripsNewlines(s);
    CleanPaddedDecodes(WithoutNewlines(s));
  }
}
