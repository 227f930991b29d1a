// The base32 and base64 codecs of RFC 4648 (sections 4, 5, 6 and 7), as Go's
// encoding/base32 and encoding/base64 apply them: the input bits are cut
// into 5- or 6-bit groups, the last group padded with zero bits; padded
// encodings complete the last block with '='; decoding ignores '\r' and
// '\n', and drops the left-over bits of the last group without checking
// them. A length no encoder produces is an error, except that unpadded
// base32 drops a last block of one, three or six characters without one.
module Radix {
  import opened Bytes
  import opened Outcomes

  datatype Alphabet = Crockford32 | Base32Std | Base64Std | Base64Url

  datatype Encoding = Encoding(alphabet: Alphabet, padded: bool)

  /** Bits per character. */
  function Width(a: Alphabet): nat
  {
    if a.Crockford32? || a.Base32Std? then 5 else 6
  }

  /** Characters per block: eight for base32 (40 bits), four for base64 (24 bits). */
  function Quantum(a: Alphabet): nat
  {
    if Width(a) == 5 then 8 else 4
  }

  /** Number of characters in the alphabet. */
  function Size(a: Alphabet): nat
  {
    if Width(a) == 5 then 32 else 64
  }

  lemma SizePow(a: Alphabet)
    ensures Pow2(Width(a)) == Size(a)
  {
    assert Pow2(5) == 32;
    assert Pow2(6) == 64;
  }

  const Upper: string := "ABCDEFGHIJKLMNOPQRSTUVWXYZ"
  const Lower: string := "abcdefghijklmnopqrstuvwxyz"
  const Digits: string := "0123456789"

  /** The alphabets, written out as Go builds the encodings from them. */
  function Letters(a: Alphabet): string
  {
    match a
    case Crockford32 => "0123456789ABCDEFGHJKMNPQRSTVWXYZ"
    case Base32Std => Upper + "234567"
    case Base64Std => Upper + Lower + Digits + "+/"
    case Base64Url => Upper + Lower + Digits + "-_"
  }

  function Offset(base: char, k: int): char
    requires 0 <= base as int + k < 128
  {
    (base as int + k) as char
  }

  /** The character for group value `v`, by the ranges of the alphabet. */
  function Symbol(a: Alphabet, v: nat): char
    requires v < Size(a)
  {
    match a
    case Crockford32 =>
      if v < 10 then Offset('0', v)
      else if v < 18 then Offset('A', v - 10)
      else if v < 20 then Offset('J', v - 18)
      else if v < 22 then Offset('M', v - 20)
      else if v < 27 then Offset('P', v - 22)
      else Offset('V', v - 27)
    case Base32Std =>
      if v < 26 then Offset('A', v) else Offset('2', v - 26)
    case _ =>
      if v < 26 then Offset('A', v)
      else if v < 52 then Offset('a', v - 26)
      else if v < 62 then Offset('0', v - 52)
      else if v == 62 then (if a.Base64Std? then '+' else '-')
      else (if a.Base64Std? then '/' else '_')
  }

  lemma LetterRanges()
    ensures forall i :: 0 <= i < 26 ==> Upper[i] as int == 'A' as int + i
    ensures forall i :: 0 <= i < 26 ==> Lower[i] as int == 'a' as int + i
    ensures forall i :: 0 <= i < 10 ==> Digits[i] as int == '0' as int + i
  {
  }

  /** The ranges agree with the written-out alphabet, character by character. */
  lemma SymbolIsLetter(a: Alphabet, v: nat)
    requires v < Size(a)
    ensures |Letters(a)| == Size(a) && Letters(a)[v] == Symbol(a, v)
  {
    match a
    case Crockford32 => CrockfordIsLetter(v);
    case Base32Std => Base32IsLetter(v);
    case _ => Base64IsLetter(a, v);
  }

  lemma CrockfordIsLetter(v: nat)
    requires v < 32
    ensures |Letters(Crockford32)| == 32 && Letters(Crockford32)[v] == Symbol(Crockford32, v)
  {
  }

  lemma Base32IsLetter(v: nat)
    requires v < 32
    ensures |Letters(Base32Std)| == 32 && Letters(Base32Std)[v] == Symbol(Base32Std, v)
  {
    LetterRanges();
    if v < 26 {
      assert Letters(Base32Std)[v] == Upper[v];
    }
  }

  lemma Base64IsLetter(a: Alphabet, v: nat)
    requires a.Base64Std? || a.Base64Url?
    requires v < 64
    ensures |Letters(a)| == 64 && Letters(a)[v] == Symbol(a, v)
  {
    LetterRanges();
    var s := Letters(a);
    if v < 26 {
      assert s[v] == Upper[v];
    } else if v < 52 {
      assert s[v] == Lower[v - 26];
    } else if v < 62 {
      assert s[v] == Digits[v - 52];
    }
  }

  /** The group value of a character, or None for a character outside the alphabet. */
  function SymbolValue(a: Alphabet, c: char): (r: Option<nat>)
  {
    var x := c as int;
    match a
    case Crockford32 =>
      if '0' <= c <= '9' then Some(x - '0' as int)
      else if 'A' <= c <= 'H' then Some(x - 'A' as int + 10)
      else if 'J' <= c <= 'K' then Some(x - 'J' as int + 18)
      else if 'M' <= c <= 'N' then Some(x - 'M' as int + 20)
      else if 'P' <= c <= 'T' then Some(x - 'P' as int + 22)
      else if 'V' <= c <= 'Z' then Some(x - 'V' as int + 27)
      else None
    case Base32Std =>
      if 'A' <= c <= 'Z' then Some(x - 'A' as int)
      else if '2' <= c <= '7' then Some(x - '2' as int + 26)
      else None
    case _ =>
      if 'A' <= c <= 'Z' then Some(x - 'A' as int)
      else if 'a' <= c <= 'z' then Some(x - 'a' as int + 26)
      else if '0' <= c <= '9' then Some(x - '0' as int + 52)
      else if c == (if a.Base64Std? then '+' else '-') then Some(62)
      else if c == (if a.Base64Std? then '/' else '_') then Some(63)
      else None
  }

  /** Decoding a character inverts the alphabet, in both directions. */
  lemma SymbolValueInverse(a: Alphabet, v: nat, c: char)
    requires v < Size(a)
    ensures SymbolValue(a, c) == Some(v) <==> Symbol(a, v) == c
  {
  }

  lemma SymbolNotSpecial(a: Alphabet, v: nat)
    requires v < Size(a)
    ensures Symbol(a, v) != '=' && Symbol(a, v) != '\r' && Symbol(a, v) != '\n'
  {
  }

  /** The low `k` bits of `v`, most significant first. */
  function Bits(v: nat, k: nat): (r: seq<bool>)
    ensures |r| == k
  {
    if k == 0 then [] else Bits(v / 2, k - 1) + [v % 2 == 1]
  }

  /** The number a bit string denotes, most significant bit first. */
  function Value(bits: seq<bool>): nat
  {
    if bits == [] then 0 else 2 * Value(bits[..|bits| - 1]) + (if bits[|bits| - 1] then 1 else 0)
  }

  lemma {:induction false} ValueBound(bits: seq<bool>)
    ensures Value(bits) < Pow2(|bits|)
  {
    if bits != [] {
      ValueBound(bits[..|bits| - 1]);
    }
  }

  lemma {:induction false} ValueOfBits(v: nat, k: nat)
    requires v < Pow2(k)
    ensures Value(Bits(v, k)) == v
  {
    if k > 0 {
      ValueOfBits(v / 2, k - 1);
      var b := Bits(v, k);
      assert b[..k - 1] == Bits(v / 2, k - 1);
    }
  }

  lemma {:induction false} BitsOfValue(bits: seq<bool>)
    ensures Bits(Value(bits), |bits|) == bits
  {
    if bits != [] {
      var init := bits[..|bits| - 1];
      BitsOfValue(init);
      assert Value(bits) / 2 == Value(init);
      assert bits == init + [bits[|bits| - 1]];
    }
  }

  /** The bits of a byte string, eight per byte, most significant first. */
  function BytesBits(data: seq<byte>): (r: seq<bool>)
    ensures |r| == 8 * |data|
  {
    if data == [] then [] else Bits(data[0], 8) + BytesBits(data[1..])
  }

  /** The whole bytes in a bit string; fewer than eight bits left over are dropped. */
  function BitsBytes(bits: seq<bool>): (r: seq<byte>)
    ensures |r| == |bits| / 8
  {
    if |bits| < 8 then []
    else
      ValueBound(bits[..8]);
      assert Pow2(8) == 256;
      [Value(bits[..8])] + BitsBytes(bits[8..])
  }

  lemma {:induction false} BytesBitsRoundTrip(data: seq<byte>, extra: seq<bool>)
    requires |extra| < 8
    ensures BitsBytes(BytesBits(data) + extra) == data
  {
    if data != [] {
      var bits := BytesBits(data) + extra;
      assert bits[..8] == Bits(data[0], 8);
      assert bits[8..] == BytesBits(data[1..]) + extra;
      assert Pow2(8) == 256;
      ValueOfBits(data[0], 8);
      BytesBitsRoundTrip(data[1..], extra);
    }
  }

  function Zeros(n: nat): (r: seq<bool>)
    ensures |r| == n
  {
    seq(n, _ => false)
  }

  /** The number of '=' that complete `n` characters to whole blocks. */
  function Pad(a: Alphabet, n: nat): (r: nat)
    ensures r < Quantum(a) && (n + r) % Quantum(a) == 0
  {
    PadCompletes(Quantum(a), n);
    (Quantum(a) - n % Quantum(a)) % Quantum(a)
  }

  lemma PadCompletes(q: nat, n: nat)
    requires q == 4 || q == 8
    ensures var r := (q - n % q) % q; r < q && (n + r) % q == 0
  {
    if q == 4 {
      PadFour(n);
    } else {
      PadEight(n);
    }
  }

  lemma PadFour(n: nat)
    ensures var r := (4 - n % 4) % 4; r < 4 && (n + r) % 4 == 0
  {
  }

  lemma PadEight(n: nat)
    ensures var r := (8 - n % 8) % 8; r < 8 && (n + r) % 8 == 0
  {
  }

  /** `bits` cut into `k`-bit groups, the last completed with zero bits. */
  function Groups(bits: seq<bool>, k: nat): (r: seq<nat>)
    requires k >= 1
    ensures forall i :: 0 <= i < |r| ==> r[i] < Pow2(k)
    decreases |bits|
  {
    if bits == [] then []
    else if |bits| < k then
      ValueBound(bits + Zeros(k - |bits|));
      [Value(bits + Zeros(k - |bits|))]
    else
      ValueBound(bits[..k]);
      [Value(bits[..k])] + Groups(bits[k..], k)
  }

  /** The bits of a sequence of `k`-bit groups. */
  function GroupBits(values: seq<nat>, k: nat): (r: seq<bool>)
    ensures |r| == k * |values|
  {
    if values == [] then [] else Bits(values[0], k) + GroupBits(values[1..], k)
  }

  /**
   * Grouping loses nothing: the groups' bits are the input followed by
   * fewer than `k` zero bits.
   */
  lemma {:induction false} GroupsRoundTrip(bits: seq<bool>, k: nat)
    requires k >= 1
    ensures var gb := GroupBits(Groups(bits, k), k);
      |bits| <= |gb| < |bits| + k && gb == bits + Zeros(|gb| - |bits|)
    decreases |bits|
  {
    if bits == [] {
    } else if |bits| < k {
      LastGroup(bits, k);
    } else {
      GroupsRoundTrip(bits[k..], k);
      FirstGroup(bits, k);
    }
  }

  lemma LastGroup(bits: seq<bool>, k: nat)
    requires 1 <= |bits| < k
    ensures GroupBits(Groups(bits, k), k) == bits + Zeros(k - |bits|)
  {
    var full := bits + Zeros(k - |bits|);
    BitsOfValue(full);
    assert Groups(bits, k) == [Value(full)];
    assert GroupBits([Value(full)], k) == Bits(Value(full), k) + GroupBits([], k);
  }

  lemma FirstGroup(bits: seq<bool>, k: nat)
    requires 1 <= k <= |bits|
    ensures GroupBits(Groups(bits, k), k) == bits[..k] + GroupBits(Groups(bits[k..], k), k)
  {
    BitsOfValue(bits[..k]);
    var rest := Groups(bits[k..], k);
    assert Groups(bits, k) == [Value(bits[..k])] + rest;
    assert GroupBits([Value(bits[..k])] + rest, k) == Bits(Value(bits[..k]), k) + GroupBits(rest, k);
  }

  function Symbols(a: Alphabet, values: seq<nat>): (s: string)
    requires forall i :: 0 <= i < |values| ==> values[i] < Size(a)
    ensures |s| == |values|
    ensures forall i :: 0 <= i < |s| ==> s[i] == Symbol(a, values[i])
  {
    if values == [] then [] else [Symbol(a, values[0])] + Symbols(a, values[1..])
  }

  function Repeat(c: char, n: nat): (s: string)
    ensures |s| == n && forall i :: 0 <= i < n ==> s[i] == c
  {
    seq(n, _ => c)
  }

  /** The characters of the encoding before any padding: one per group of bits. */
  function SymbolsOf(a: Alphabet, data: seq<byte>): string
  {
    SizePow(a);
    Symbols(a, Groups(BytesBits(data), Width(a)))
  }

  /** `EncodeToString`. */
  function Encode(e: Encoding, data: seq<byte>): string
  {
    var syms := SymbolsOf(e.alphabet, data);
    if e.padded then syms + Repeat('=', Pad(e.alphabet, |syms|)) else syms
  }

  /** The input with '\r' and '\n' removed, as Go's decoders skip them. */
  function StripNewlines(s: string): (r: string)
    ensures |r| <= |s|
  {
    if s == [] then []
    else (if s[0] == '\r' || s[0] == '\n' then [] else [s[0]]) + StripNewlines(s[1..])
  }

  /** How many '=' end `s`. */
  function TrailingPads(s: string): (n: nat)
    ensures n <= |s|
  {
    if s != [] && s[|s| - 1] == '=' then 1 + TrailingPads(s[..|s| - 1]) else 0
  }

  /** The group values of the characters, or None when one is outside the alphabet. */
  function Values(a: Alphabet, s: string): Option<seq<nat>>
  {
    if s == [] then Some([])
    else match SymbolValue(a, s[0])
      case None => None
      case Some(v) =>
        match Values(a, s[1..])
        case None => None
        case Some(rest) => Some([v] + rest)
  }

  /**
   * `DecodeString`: None for corrupt input (a character outside the
   * alphabet, wrong padding, or a length no encoder produces). Without
   * padding, Go's base32 decoder stops at the end of the input and packs a
   * last block of one, three or six characters into no bytes at all, so
   * that block is dropped; base64 rejects a lone last character.
   */
  function Decode(e: Encoding, text: string): Option<seq<byte>>
  {
    var a := e.alphabet;
    var t := StripNewlines(text);
    var body := if e.padded then t[..|t| - TrailingPads(t)] else t;
    var partial := (|body| * Width(a)) % 8 >= Width(a);
    if e.padded && (|t| % Quantum(a) != 0 || |t| - |body| != Pad(a, |body|)) then None
    else if partial && (e.padded || Width(a) != 5) then None
    else match Values(a, body)
      case None => None
      case Some(vs) =>
        var whole := if partial then vs[..|vs| - |vs| % 8] else vs;
        Some(BitsBytes(GroupBits(whole, Width(a))))
  }

  /** The values of a prefix are the prefix of the values. */
  lemma {:induction false} ValuesPrefix(a: Alphabet, s: string, m: nat)
    requires m <= |s| && Values(a, s).Some?
    ensures |Values(a, s).value| == |s|
    ensures Values(a, s[..m]) == Some(Values(a, s).value[..m])
  {
    if s != [] {
      var vs := Values(a, s).value;
      ValuesPrefix(a, s[1..], if m == 0 then 0 else m - 1);
      if m > 0 {
        var p := s[..m];
        assert p[0] == s[0] && p[1..] == s[1..][..m - 1];
        assert Values(a, p) == Some([vs[0]] + Values(a, s[1..]).value[..m - 1]);
        assert vs[..m] == [vs[0]] + Values(a, s[1..]).value[..m - 1];
      } else {
        assert s[..m] == [];
      }
    }
  }

  /** The bit count of an unpadded base32 text that ends in a block of one, three or six characters. */
  lemma PartialBlockBits(n: nat)
    requires n % 8 in {1, 3, 6}
    ensures (n * 5) % 8 >= 5
    ensures ((n - n % 8) * 5) % 8 == 0
  {
    var q, r := n / 8, n % 8;
    var k := 5 * q;
    assert n == 8 * q + r;
    assert n * 5 == 8 * k + 5 * r;
    assert (n - r) * 5 == 8 * k;
    ModEight(k, 0);
    if r == 1 {
      ModEight(k, 5);
    } else if r == 3 {
      assert n * 5 == 8 * (k + 1) + 7;
      ModEight(k + 1, 7);
    } else {
      assert n * 5 == 8 * (k + 3) + 6;
      ModEight(k + 3, 6);
    }
  }

  /** An unpadded base32 text whose length is a whole number of blocks decodes its values. */
  lemma UnpaddedWholeBlocks(a: Alphabet, text: string)
    requires Width(a) == 5 && (|text| * 5) % 8 == 0
    requires forall i :: 0 <= i < |text| ==> text[i] != '\r' && text[i] != '\n'
    ensures Decode(Encoding(a, false), text)
      == if Values(a, text).None? then None else Some(BitsBytes(GroupBits(Values(a, text).value, 5)))
  {
    StripNothing(text);
  }

  /** An unpadded base32 text ending in a partial block decodes the values of its whole blocks. */
  lemma UnpaddedPartialBlock(a: Alphabet, text: string)
    requires Width(a) == 5 && (|text| * 5) % 8 >= 5
    requires forall i :: 0 <= i < |text| ==> text[i] != '\r' && text[i] != '\n'
    ensures var vs := Values(a, text);
      Decode(Encoding(a, false), text)
      == if vs.None? then None else Some(BitsBytes(GroupBits(vs.value[..|vs.value| - |vs.value| % 8], 5)))
  {
    StripNothing(text);
  }

  /**
   * Unpadded base32 without line breaks: a last block of one, three or six
   * characters is checked against the alphabet and then dropped, so the
   * text decodes as its whole blocks do.
   */
  lemma UnpaddedBase32DropsPartialBlock(a: Alphabet, text: string)
    requires Width(a) == 5 && |text| % 8 in {1, 3, 6}
    requires forall i :: 0 <= i < |text| ==> text[i] != '\r' && text[i] != '\n'
    ensures var whole := text[..|text| - |text| % 8];
      Decode(Encoding(a, false), text)
      == if Values(a, text).None? then None else Decode(Encoding(a, false), whole)
  {
    var m := |text| - |text| % 8;
    var whole := text[..m];
    PartialBlockBits(|text|);
    UnpaddedPartialBlock(a, text);
    UnpaddedWholeBlocks(a, whole);
    if Values(a, text).Some? {
      ValuesPrefix(a, text, m);
    }
  }

  lemma {:induction false} StripNothing(s: string)
    requires forall i :: 0 <= i < |s| ==> s[i] != '\r' && s[i] != '\n'
    ensures StripNewlines(s) == s
  {
    if s != [] {
      StripNothing(s[1..]);
      assert s == [s[0]] + s[1..];
    }
  }

  lemma {:induction false} TrailingPadsAfter(s: string, n: nat)
    requires s == [] || s[|s| - 1] != '='
    ensures TrailingPads(s + Repeat('=', n)) == n
  {
    if n > 0 {
      var t := s + Repeat('=', n);
      assert t[..|t| - 1] == s + Repeat('=', n - 1);
      TrailingPadsAfter(s, n - 1);
    } else {
      assert s + Repeat('=', 0) == s;
    }
  }

  lemma {:induction false} ValuesOfSymbols(a: Alphabet, values: seq<nat>)
    requires forall i :: 0 <= i < |values| ==> values[i] < Size(a)
    ensures Values(a, Symbols(a, values)) == Some(values)
  {
    if values != [] {
      SymbolValueInverse(a, values[0], Symbol(a, values[0]));
      ValuesOfSymbols(a, values[1..]);
      assert Symbols(a, values)[1..] == Symbols(a, values[1..]);
      assert values == [values[0]] + values[1..];
    }
  }

  /** No character of `s` is padding or a line break. */
  predicate Plain(s: string)
  {
    forall i :: 0 <= i < |s| ==> s[i] != '=' && s[i] != '\r' && s[i] != '\n'
  }

  /** No character of an encoding is padding or a line break. */
  lemma SymbolsPlain(a: Alphabet, data: seq<byte>)
    ensures Plain(SymbolsOf(a, data))
  {
    SizePow(a);
    var groups := Groups(BytesBits(data), Width(a));
    forall i | 0 <= i < |groups|
      ensures Symbol(a, groups[i]) != '=' && Symbol(a, groups[i]) != '\r' && Symbol(a, groups[i]) != '\n'
    {
      SymbolNotSpecial(a, groups[i]);
    }
  }

  /** Padding after plain characters is skipped by nothing but the padding check, which removes exactly it. */
  lemma PaddedBody(syms: string, n: nat)
    requires Plain(syms)
    ensures var text := syms + Repeat('=', n);
      StripNewlines(text) == text && text[..|text| - TrailingPads(text)] == syms
  {
    var text := syms + Repeat('=', n);
    StripNothing(text);
    TrailingPadsAfter(syms, n);
    assert text[..|text| - n] == syms;
  }

  /** The decoder finds the encoder's characters again, and its padding the length the encoder gave it. */
  lemma EncodedBody(e: Encoding, data: seq<byte>)
    ensures var text := Encode(e, data); var syms := SymbolsOf(e.alphabet, data);
      && StripNewlines(text) == text
      && (e.padded ==> text[..|text| - TrailingPads(text)] == syms
                       && |text| % Quantum(e.alphabet) == 0
                       && |text| - |syms| == Pad(e.alphabet, |syms|))
  {
    var syms := SymbolsOf(e.alphabet, data);
    SymbolsPlain(e.alphabet, data);
    if e.padded {
      PaddedBody(syms, Pad(e.alphabet, |syms|));
    } else {
      StripNothing(syms);
    }
  }

  /** Decoding an encoding gives the bytes back, for every encoding and every byte string. */
  lemma RoundTrip(e: Encoding, data: seq<byte>)
    ensures Decode(e, Encode(e, data)) == Some(data)
  {
    var a := e.alphabet;
    var k := Width(a);
    SizePow(a);
    var bits := BytesBits(data);
    var groups := Groups(bits, k);
    var syms := SymbolsOf(a, data);
    assert syms == Symbols(a, groups);
    GroupsRoundTrip(bits, k);
    var p := |GroupBits(groups, k)| - |bits|;
    LengthValid(a, |syms|, |data|, p);
    EncodedBody(e, data);
    ValuesOfSymbols(a, groups);
    BytesBitsRoundTrip(data, Zeros(p));
  }

  /** An encoder's output length passes the decoder's length check. */
  lemma LengthValid(a: Alphabet, n: nat, m: nat, p: nat)
    requires Width(a) * n == 8 * m + p && p < Width(a)
    ensures (n * Width(a)) % 8 < Width(a)
  {
    assert n * Width(a) == 8 * m + p;
    ModEight(m, p);
  }

  lemma ModEight(m: nat, p: nat)
    requires p < 8
    ensures (8 * m + p) % 8 == p
  {
  }
}
