// Byte strings read as text, as Go's `string(b)` conversion does: a Go
// string is a sequence of bytes, and here each byte is one character below
// 256. Where Go decodes such a string as UTF-8, the decoding is written out
// over those byte characters.
module ByteText {
  import opened Bytes

  /** Go's `string(b)`: one character per byte, each below 256. */
  function BytesText(b: seq<byte>): (s: string)
    ensures |s| == |b|
    ensures forall i :: 0 <= i < |s| ==> s[i] as int == b[i] as int
  {
    seq(|b|, i requires 0 <= i < |b| => b[i] as char)
  }

  /** The ASCII white space `strings.TrimSpace` removes: '\t', '\n', '\v', '\f', '\r' and ' '. */
  predicate AsciiSpace(c: char)
  {
    '\t' <= c <= '\r' || c == ' '
  }

  /** The code points above ASCII that `unicode.IsSpace` accepts. */
  const WideSpaces: set<int> := {
    0x85, 0xA0, 0x1680, 0x2000, 0x2001, 0x2002, 0x2003, 0x2004, 0x2005, 0x2006,
    0x2007, 0x2008, 0x2009, 0x200A, 0x2028, 0x2029, 0x202F, 0x205F, 0x3000}

  /** A byte that continues a UTF-8 sequence: 10xxxxxx. */
  predicate Continuation(c: char)
  {
    0x80 <= c as int < 0xC0
  }

  /** The UTF-8 encoding of a code point from 0x80 to 0xFFFF, one character per byte. */
  function Utf8(cp: int): (w: string)
    requires 0x80 <= cp < 0x10000
    ensures |w| == (if cp < 0x800 then 2 else 3)
    ensures 0xC2 <= w[0] as int < 0xF0 && forall i :: 1 <= i < |w| ==> Continuation(w[i])
  {
    if cp < 0x800 then [(0xC0 + cp / 64) as char, (0x80 + cp % 64) as char]
    else [(0xE0 + cp / 4096) as char, (0x80 + (cp / 64) % 64) as char, (0x80 + cp % 64) as char]
  }

  /** The encodings of the wide white space. */
  const WideSpaceBytes: set<string> := set cp | cp in WideSpaces && 0x80 <= cp < 0x10000 :: Utf8(cp)

  /** A wide space starts with a lead byte and goes on with continuation bytes. */
  lemma WideSpaceShape(w: string)
    requires w in WideSpaceBytes
    ensures 2 <= |w| <= 3 && 0xC2 <= w[0] as int < 0xF0
    ensures forall i :: 1 <= i < |w| ==> Continuation(w[i])
  {
  }

  /**
   * How many bytes of white space `utf8.DecodeRuneInString` finds at the
   * start of `s`: an ASCII space, the encoding of a wide space, or none.
   */
  function LeadingSpace(s: string): (n: nat)
    ensures n <= |s| && (n == 0 || n == 1 || n == 2 || n == 3)
    ensures n == 1 <==> s != [] && AsciiSpace(s[0])
    ensures n > 1 ==> s[..n] in WideSpaceBytes
  {
    if s != [] && AsciiSpace(s[0]) then 1
    else if |s| >= 2 && s[..2] in WideSpaceBytes then 2
    else if |s| >= 3 && s[..3] in WideSpaceBytes then 3
    else 0
  }

  /**
   * How many bytes of white space `utf8.DecodeLastRuneInString` finds at
   * the end of `s`. Going back from the end it stops at the first byte that
   * is not a continuation, so a space counts exactly when its encoding is a
   * suffix of `s`.
   */
  function TrailingSpace(s: string): (n: nat)
    ensures n <= |s| && (n == 0 || n == 1 || n == 2 || n == 3)
    ensures n == 1 <==> s != [] && AsciiSpace(s[|s| - 1])
    ensures n > 1 ==> s[|s| - n..] in WideSpaceBytes
  {
    if s != [] && AsciiSpace(s[|s| - 1]) then 1
    else if |s| >= 2 && s[|s| - 2..] in WideSpaceBytes then 2
    else if |s| >= 3 && s[|s| - 3..] in WideSpaceBytes then 3
    else 0
  }

  /** `strings.TrimLeftFunc(s, unicode.IsSpace)` over the bytes of `s`. */
  function TrimLeftUtf8(s: string): (r: string)
    ensures |r| <= |s| && r == s[|s| - |r|..]
    ensures LeadingSpace(r) == 0
  {
    var n := LeadingSpace(s);
    if n == 0 then s else TrimLeftUtf8(s[n..])
  }

  /** `strings.TrimRightFunc(s, unicode.IsSpace)` over the bytes of `s`. */
  function TrimRightUtf8(s: string): (r: string)
    ensures |r| <= |s| && r == s[..|r|]
    ensures TrailingSpace(r) == 0
  {
    var n := TrailingSpace(s);
    if n == 0 then s else TrimRightUtf8(s[..|s| - n])
  }

  /**
   * `strings.TrimSpace` of a Go string: its ASCII fast path and its fall
   * back to decoding runes both remove the leading and then the trailing
   * white space.
   */
  function TrimSpaceUtf8(s: string): string
  {
    TrimRightUtf8(TrimLeftUtf8(s))
  }

  /** Neither starts nor ends with white space, as UTF-8 decoding sees it. */
  predicate TrimmedUtf8(s: string)
  {
    LeadingSpace(s) == 0 && TrailingSpace(s) == 0
  }

  /** A trimmed string is a fixed point of the trimming, and trimming gives a trimmed string. */
  lemma TrimSpaceUtf8Trimmed(s: string)
    ensures TrimmedUtf8(s) ==> TrimSpaceUtf8(s) == s
    ensures s != [] ==> TrimSpaceUtf8(s) == [] || TrimmedUtf8(TrimSpaceUtf8(s))
  {
    var l := TrimLeftUtf8(s);
    var r := TrimRightUtf8(l);
    if r != [] {
      RightKeepsLead(l, r);
    }
  }

  /** Trimming the end of a string that does not start with space leaves its start alone. */
  lemma {:induction false} RightKeepsLead(l: string, r: string)
    requires LeadingSpace(l) == 0 && r == TrimRightUtf8(l) && r != []
    ensures LeadingSpace(r) == 0
    decreases |l|
  {
    var n := TrailingSpace(l);
    if n != 0 {
      var m := l[..|l| - n];
      PrefixLead(l, |m|);
      RightKeepsLead(m, r);
    }
  }

  /** A non-empty prefix of a string that does not start with space does not either. */
  lemma PrefixLead(s: string, k: nat)
    requires 0 < k <= |s| && LeadingSpace(s) == 0
    ensures LeadingSpace(s[..k]) == 0
  {
    var p := s[..k];
    assert p[0] == s[0];
    if |p| >= 2 {
      assert p[..2] == s[..2];
    }
    if |p| >= 3 {
      assert p[..3] == s[..3];
    }
  }

  /** Bytes that start below a lead byte of a wide space are not one. */
  lemma NotWideLead(w: string)
    requires w != [] && w[0] as int < 0xC2
    ensures w !in WideSpaceBytes
  {
    if w in WideSpaceBytes {
      WideSpaceShape(w);
    }
  }

  /** Bytes with a non-continuation byte after the first are not a wide space. */
  lemma NotWideAt(w: string, i: nat)
    requires 1 <= i < |w| && !Continuation(w[i])
    ensures w !in WideSpaceBytes
  {
    if w in WideSpaceBytes {
      WideSpaceShape(w);
    }
  }

  /**
   * A message followed by a no-break space (U+00A0, bytes C2 A0) loses both
   * bytes: Go decodes them as one white-space rune.
   */
  lemma NoBreakSpaceTrimmed(msg: string)
    requires msg != [] && TrimmedUtf8(msg)
    ensures TrimSpaceUtf8(msg + Utf8(0xA0)) == msg
  {
    var nb := Utf8(0xA0);
    assert nb in WideSpaceBytes;
    var s := msg + nb;
    assert s[|s| - 2..] == nb;
    assert !AsciiSpace(s[|s| - 1]);
    LeadAfter(msg, nb);
    assert TrailingSpace(s) == 2;
    assert s[..|s| - 2] == msg;
    TrimSpaceUtf8Trimmed(msg);
  }

  /**
   * A lone byte 0x85 after ASCII text is not white space: on its own it is
   * not valid UTF-8, so Go decodes it as the replacement rune and keeps it.
   */
  lemma LoneNextLineKept(msg: string)
    requires msg == [] || msg[|msg| - 1] as int < 0x80
    ensures TrailingSpace(msg + [0x85 as char]) == 0
  {
    var s := msg + [0x85 as char];
    if |s| >= 2 {
      assert s[|s| - 2..][0] == msg[|msg| - 1];
      NotWideLead(s[|s| - 2..]);
    }
    if |s| >= 3 {
      assert s[|s| - 3..][1] == msg[|msg| - 1];
      NotWideAt(s[|s| - 3..], 1);
    }
  }

  /** Text that does not start with a continuation byte, appended, leaves the start alone. */
  lemma LeadAfter(s: string, t: string)
    requires s != [] && LeadingSpace(s) == 0
    requires t == [] || !Continuation(t[0])
    ensures LeadingSpace(s + t) == 0
  {
    var u := s + t;
    assert u[0] == s[0];
    if |u| >= 2 {
      if |s| >= 2 {
        assert u[..2] == s[..2];
      } else {
        assert u[..2][1] == t[0];
        NotWideAt(u[..2], 1);
      }
    }
    if |u| >= 3 {
      if |s| >= 3 {
        assert u[..3] == s[..3];
      } else {
        assert u[..3][|s|] == t[0];
        NotWideAt(u[..3], |s|);
      }
    }
  }
}
