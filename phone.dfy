// The phone-keypad encoder of `em` (cmd/em/internal/phone/encoder.go): an
// io.Writer that replaces every ASCII letter by the digit of its telephone
// key and drops every other byte. The downstream writer is a byte sink that
// either accepts the whole write or fails without taking anything.
module Phone {
  import opened Bytes
  import opened Outcomes

  /** The upper-case half of the `encoding` table: each letter to the ASCII digit of its key. */
  const UpperKeys: map<byte, byte> := map[
    65 := 50, 66 := 50, 67 := 50,
    68 := 51, 69 := 51, 70 := 51,
    71 := 52, 72 := 52, 73 := 52,
    74 := 53, 75 := 53, 76 := 53,
    77 := 54, 78 := 54, 79 := 54,
    80 := 55, 81 := 55, 82 := 55, 83 := 55,
    84 := 56, 85 := 56, 86 := 56,
    87 := 57, 88 := 57, 89 := 57, 90 := 57
  ]

  /** The lower-case half of the `encoding` table. */
  const LowerKeys: map<byte, byte> := map[
    97 := 50, 98 := 50, 99 := 50,
    100 := 51, 101 := 51, 102 := 51,
    103 := 52, 104 := 52, 105 := 52,
    106 := 53, 107 := 53, 108 := 53,
    109 := 54, 110 := 54, 111 := 54,
    112 := 55, 113 := 55, 114 := 55, 115 := 55,
    116 := 56, 117 := 56, 118 := 56,
    119 := 57, 120 := 57, 121 := 57, 122 := 57
  ]

  /** The `encoding` table. */
  const Keypad: map<byte, byte> := UpperKeys + LowerKeys

  predicate IsLetter(b: byte)
  {
    65 <= b <= 90 || 97 <= b <= 122
  }

  /** Position of a letter in the alphabet, ignoring case. */
  function LetterIndex(b: byte): (k: nat)
    requires IsLetter(b)
    ensures k < 26
  {
    if b <= 90 then b - 65 else b - 97
  }

  /**
   * The keypad by its layout: ABC on 2, DEF on 3, GHI on 4, JKL on 5, MNO
   * on 6, PQRS on 7, TUV on 8 and WXYZ on 9.
   */
  function KeyDigit(k: nat): (d: nat)
    requires k < 26
    ensures 2 <= d <= 9
  {
    if k < 15 then 2 + k / 3 else if k < 19 then 7 else if k < 22 then 8 else 9
  }

  lemma UpperKeysLayout(b: byte)
    ensures b in UpperKeys <==> 65 <= b <= 90
    ensures b in UpperKeys ==> UpperKeys[b] as nat == '0' as nat + KeyDigit(b - 65)
  {
    if 65 <= b <= 90 {
      assert b == 65 || b == 66 || b == 67 || b == 68 || b == 69 || b == 70 || b == 71 || b == 72 || b == 73 || b == 74 || b == 75 || b == 76 || b == 77 || b == 78 || b == 79 || b == 80 || b == 81 || b == 82 || b == 83 || b == 84 || b == 85 || b == 86 || b == 87 || b == 88 || b == 89 || b == 90;
    }
  }

  lemma LowerKeysLayout(b: byte)
    ensures b in LowerKeys <==> 97 <= b <= 122
    ensures b in LowerKeys ==> LowerKeys[b] as nat == '0' as nat + KeyDigit(b - 97)
  {
    if 97 <= b <= 122 {
      assert b == 97 || b == 98 || b == 99 || b == 100 || b == 101 || b == 102 || b == 103 || b == 104 || b == 105 || b == 106 || b == 107 || b == 108 || b == 109 || b == 110 || b == 111 || b == 112 || b == 113 || b == 114 || b == 115 || b == 116 || b == 117 || b == 118 || b == 119 || b == 120 || b == 121 || b == 122;
    }
  }

  /** The table holds exactly the letters, each mapped to the ASCII digit of its key. */
  lemma KeypadIsLayout(b: byte)
    ensures b in Keypad <==> IsLetter(b)
    ensures b in Keypad ==> Keypad[b] as nat == '0' as nat + KeyDigit(LetterIndex(b))
  {
    UpperKeysLayout(b);
    LowerKeysLayout(b);
  }

  /** Upper and lower case letters share a key. */
  lemma KeypadIgnoresCase(b: byte)
    requires 65 <= b <= 90
    ensures b in Keypad && b + 32 in Keypad && Keypad[b] == Keypad[b + 32]
  {
    KeypadIsLayout(b);
    KeypadIsLayout(b + 32);
  }

  /** The bytes of `p` that `keys` has an entry for, each replaced by its entry, in order. */
  function EncodeWith(keys: map<byte, byte>, p: seq<byte>): (r: seq<byte>)
    ensures |r| <= |p|
  {
    if p == [] then []
    else
      var last := p[|p| - 1];
      EncodeWith(keys, p[..|p| - 1]) + (if last in keys then [keys[last]] else [])
  }

  /** Whatever the table, encoding distributes over concatenation. */
  lemma {:induction false} EncodeWithAppend(keys: map<byte, byte>, p: seq<byte>, q: seq<byte>)
    ensures EncodeWith(keys, p + q) == EncodeWith(keys, p) + EncodeWith(keys, q)
    decreases |q|
  {
    if q == [] {
      assert p + q == p;
    } else {
      assert (p + q)[..|p + q| - 1] == p + q[..|q| - 1];
      EncodeWithAppend(keys, p, q[..|q| - 1]);
    }
  }

  /** Encoding with a table of digits gives digits. */
  lemma {:induction false} EncodeWithDigits(keys: map<byte, byte>, p: seq<byte>)
    requires forall b :: b in keys ==> '2' as byte <= keys[b] <= '9' as byte
    ensures forall i :: 0 <= i < |EncodeWith(keys, p)| ==> '2' as byte <= EncodeWith(keys, p)[i] <= '9' as byte
  {
    if p != [] {
      EncodeWithDigits(keys, p[..|p| - 1]);
    }
  }

  /** Every entry of the table is a key digit. */
  lemma KeypadDigits()
    ensures forall b :: b in Keypad ==> '2' as byte <= Keypad[b] <= '9' as byte
  {
    forall b | b in Keypad
      ensures '2' as byte <= Keypad[b] <= '9' as byte
    {
      KeypadIsLayout(b);
    }
  }

  /** What the encoder hands on: the keys of the letters of `p`, in order. */
  function Encode(p: seq<byte>): (r: seq<byte>)
    ensures |r| <= |p|
    ensures forall i :: 0 <= i < |r| ==> '2' as byte <= r[i] <= '9' as byte
  {
    KeypadDigits();
    EncodeWithDigits(Keypad, p);
    EncodeWith(Keypad, p)
  }

  /** Encoding distributes over concatenation, so split writes encode like one. */
  lemma EncodeAppend(p: seq<byte>, q: seq<byte>)
    ensures Encode(p + q) == Encode(p) + Encode(q)
  {
    EncodeWithAppend(Keypad, p, q);
  }

  /** A byte that is not a letter contributes nothing. */
  lemma NonLetterDropped(p: seq<byte>, b: byte, q: seq<byte>)
    requires !IsLetter(b)
    ensures Encode(p + [b] + q) == Encode(p + q)
  {
    KeypadIsLayout(b);
    EncodeAppend(p + [b], q);
    EncodeAppend(p, [b]);
    EncodeAppend(p, q);
    assert [b][..0] == [];
  }

  /** Input whose every byte has an entry gives the entries, one per byte. */
  lemma {:induction false} AllKeyedWith(keys: map<byte, byte>, p: seq<byte>)
    requires forall i :: 0 <= i < |p| ==> p[i] in keys
    ensures |EncodeWith(keys, p)| == |p|
    ensures forall i :: 0 <= i < |p| ==> EncodeWith(keys, p)[i] == keys[p[i]]
  {
    if p != [] {
      var init := p[..|p| - 1];
      AllKeyedWith(keys, init);
      assert forall i :: 0 <= i < |init| ==> init[i] == p[i];
    }
  }

  /** Input made only of letters gives one digit per letter. */
  lemma LettersOnly(p: seq<byte>)
    requires forall i :: 0 <= i < |p| ==> IsLetter(p[i])
    ensures |Encode(p)| == |p|
    ensures forall i :: 0 <= i < |p| ==> Encode(p)[i] as nat == '0' as nat + KeyDigit(LetterIndex(p[i]))
  {
    forall i | 0 <= i < |p|
      ensures p[i] in Keypad && Keypad[p[i]] as nat == '0' as nat + KeyDigit(LetterIndex(p[i]))
    {
      KeypadIsLayout(p[i]);
    }
    AllKeyedWith(Keypad, p);
  }

  /** The downstream `io.Writer`: it takes all of a write, or fails and takes nothing. */
  class Sink {
    var data: seq<byte>
    var broken: bool

    constructor (broken: bool)
      ensures data == [] && this.broken == broken
    {
      data := [];
      this.broken := broken;
    }

    method Write(p: seq<byte>) returns (n: nat, err: Option<string>)
      modifies this
      ensures broken == old(broken)
      ensures broken ==> n == 0 && err.Some? && data == old(data)
      ensures !broken ==> n == |p| && err == None && data == old(data) + p
    {
      if broken {
        return 0, Some("write failed");
      }
      data := data + p;
      return |p|, None;
    }
  }

  class Encoder {
    const writer: Sink

    constructor (writer: Sink)
      ensures this.writer == writer
    {
      this.writer := writer;
    }

    /**
     * `Encoder.Write`: encodes `p` into a fresh buffer, writes the buffer on
     * and reports `len(p)` whatever the writer did, with the writer's error.
     */
    method Write(p: seq<byte>) returns (n: nat, err: Option<string>)
      modifies writer
      ensures n == |p|
      ensures err.Some? <==> writer.broken
      ensures writer.broken == old(writer.broken)
      ensures writer.data == old(writer.data) + (if writer.broken then [] else Encode(p))
    {
      var encoded: seq<byte> := [];
      var i := 0;
      while i < |p|
        invariant 0 <= i <= |p|
        invariant encoded == Encode(p[..i])
      {
        assert p[..i + 1][..i] == p[..i];
        if p[i] in Keypad {
          encoded := encoded + [Keypad[p[i]]];
        }
        i := i + 1;
      }
      assert p[..i] == p;
      var _, e := writer.Write(encoded);
      return |p|, e;
    }
  }
}
