// The `myago encode` command (cmd/myago/internal/encode.go): every character
// of the argument must be a lower-case letter and becomes the digit of its
// telephone key; the first other character aborts the command with an error
// before anything is written.
module EncodeCommand {
  import opened Outcomes
  import opened Bytes
  import Phone

  /** `phoneCodeMap`, keyed by one-character strings. */
  const PhoneCodeMap: map<string, string> := map[
    "a" := "2", "b" := "2", "c" := "2",
    "d" := "3", "e" := "3", "f" := "3",
    "g" := "4", "h" := "4", "i" := "4",
    "j" := "5", "k" := "5", "l" := "5",
    "m" := "6", "n" := "6", "o" := "6",
    "p" := "7", "q" := "7", "r" := "7", "s" := "7",
    "t" := "8", "u" := "8", "v" := "8",
    "w" := "9", "x" := "9", "y" := "9", "z" := "9"
  ]

  /** The keys of `PhoneCodeMap` are exactly the lower-case letters, each mapped to the digit of its key. */
  lemma CodeMapIsKeypad(c: char)
    ensures [c] in PhoneCodeMap <==> 'a' <= c <= 'z'
    ensures [c] in PhoneCodeMap ==>
      PhoneCodeMap[[c]] == [('0' as int + Phone.KeyDigit(c as int - 'a' as int)) as char]
  {
    if !('a' <= c <= 'z') {
      assert [c] != "a" && [c] != "b" && [c] != "c" && [c] != "d" && [c] != "e" && [c] != "f" && [c] != "g" && [c] != "h" && [c] != "i" && [c] != "j" && [c] != "k" && [c] != "l" && [c] != "m" && [c] != "n" && [c] != "o" && [c] != "p" && [c] != "q" && [c] != "r" && [c] != "s" && [c] != "t" && [c] != "u" && [c] != "v" && [c] != "w" && [c] != "x" && [c] != "y" && [c] != "z";
    } else if c == 'a' {
      assert [c] == "a";
    } else if c == 'b' {
      assert [c] == "b";
    } else if c == 'c' {
      assert [c] == "c";
    } else if c == 'd' {
      assert [c] == "d";
    } else if c == 'e' {
      assert [c] == "e";
    } else if c == 'f' {
      assert [c] == "f";
    } else if c == 'g' {
      assert [c] == "g";
    } else if c == 'h' {
      assert [c] == "h";
    } else if c == 'i' {
      assert [c] == "i";
    } else if c == 'j' {
      assert [c] == "j";
    } else if c == 'k' {
      assert [c] == "k";
    } else if c == 'l' {
      assert [c] == "l";
    } else if c == 'm' {
      assert [c] == "m";
    } else if c == 'n' {
      assert [c] == "n";
    } else if c == 'o' {
      assert [c] == "o";
    } else if c == 'p' {
      assert [c] == "p";
    } else if c == 'q' {
      assert [c] == "q";
    } else if c == 'r' {
      assert [c] == "r";
    } else if c == 's' {
      assert [c] == "s";
    } else if c == 't' {
      assert [c] == "t";
    } else if c == 'u' {
      assert [c] == "u";
    } else if c == 'v' {
      assert [c] == "v";
    } else if c == 'w' {
      assert [c] == "w";
    } else if c == 'x' {
      assert [c] == "x";
    } else if c == 'y' {
      assert [c] == "y";
    } else if c == 'z' {
      assert [c] == "z";
    }
  }

  predicate Lowercase(s: string)
  {
    forall i :: 0 <= i < |s| ==> 'a' <= s[i] <= 'z'
  }

  /**
   * The text each character of `plaintext` maps to under `codes`, in order,
   * or the error for the first character `codes` has no entry for.
   */
  function CipherWith(codes: map<string, string>, plaintext: string): (r: Result<string>)
    decreases |plaintext|
  {
    if plaintext == [] then Ok("")
    else
      var ch := [plaintext[0]];
      if ch !in codes then Err("unrecognized char: " + ch)
      else match CipherWith(codes, plaintext[1..])
        case Ok(rest) => Ok(codes[ch] + rest)
        case Err(e) => Err(e)
  }

  /** What the command computes: the digit string, or the error for the first unknown character. */
  function Cipher(plaintext: string): (r: Result<string>)
  {
    CipherWith(PhoneCodeMap, plaintext)
  }

  /** The digit of a lower-case letter's key. */
  function Digit(c: char): (d: char)
    requires 'a' <= c <= 'z'
    ensures '2' <= d <= '9'
  {
    ('0' as int + Phone.KeyDigit(c as int - 'a' as int)) as char
  }

  /**
   * The command succeeds exactly on lower-case input, and the cipher text
   * then has one digit per character, in order.
   */
  lemma {:induction false} CipherSucceeds(plaintext: string)
    ensures Cipher(plaintext).Ok? <==> Lowercase(plaintext)
    ensures Cipher(plaintext).Ok? ==> (|Cipher(plaintext).value| == |plaintext|
      && forall i :: 0 <= i < |plaintext| ==> Cipher(plaintext).value[i] == Digit(plaintext[i]))
    decreases |plaintext|
  {
    if plaintext != [] {
      var ch, rest := plaintext[0], plaintext[1..];
      CipherSucceeds(rest);
      CodeMapIsKeypad(ch);
      assert Lowercase(plaintext) <==> 'a' <= ch <= 'z' && Lowercase(rest) by {
        if 'a' <= ch <= 'z' && Lowercase(rest) {
          forall i | 0 <= i < |plaintext| ensures 'a' <= plaintext[i] <= 'z' {
            if i > 0 {
              assert plaintext[i] == rest[i - 1];
            }
          }
        }
      }
      if Cipher(plaintext).Ok? {
        var r := Cipher(plaintext).value;
        assert r == [Digit(ch)] + Cipher(rest).value;
        forall i | 0 <= i < |plaintext| ensures r[i] == Digit(plaintext[i]) {
          if i > 0 {
            assert plaintext[i] == rest[i - 1];
          }
        }
      }
    }
  }

  /** Otherwise the error names the first character that is not a lower-case letter. */
  lemma {:induction false} CipherRejects(plaintext: string, k: nat)
    requires k < |plaintext| && !('a' <= plaintext[k] <= 'z')
    requires forall j :: 0 <= j < k ==> 'a' <= plaintext[j] <= 'z'
    ensures Cipher(plaintext) == Err("unrecognized char: " + [plaintext[k]])
    decreases k
  {
    CodeMapIsKeypad(plaintext[0]);
    if k > 0 {
      var rest := plaintext[1..];
      assert rest[k - 1] == plaintext[k];
      CipherRejects(rest, k - 1);
    }
  }

  /** On lower-case text the command prints what the `em` encoder writes for the same bytes. */
  lemma AgreesWithPhoneEncoder(plaintext: string)
    requires Lowercase(plaintext)
    ensures Cipher(plaintext).Ok? && StringBytes(Cipher(plaintext).value) == Phone.Encode(StringBytes(plaintext))
  {
    var bytes := StringBytes(plaintext);
    CipherSucceeds(plaintext);
    var out := StringBytes(Cipher(plaintext).value);
    forall i | 0 <= i < |bytes| ensures Phone.IsLetter(bytes[i]) {
      SameByte(plaintext, i);
    }
    Phone.LettersOnly(bytes);
    forall i | 0 <= i < |plaintext|
      ensures out[i] == Phone.Encode(bytes)[i]
    {
      SameByte(plaintext, i);
      SameByte(Cipher(plaintext).value, i);
    }
  }

  lemma SameByte(s: string, i: nat)
    requires i < |s| && s[i] as int < 256
    ensures StringBytes(s)[i] == s[i] as int
  {
  }

  /**
   * The command's action: the per-character loop, then one write of the
   * cipher text to the application's writer, whose error is returned.
   */
  method Action(plaintext: string, writer: Phone.Sink) returns (err: Option<string>)
    modifies writer
    ensures Cipher(plaintext).Err? ==> err == Some(Cipher(plaintext).error) && writer.data == old(writer.data)
    ensures Cipher(plaintext).Ok? ==> (err.Some? <==> writer.broken)
    ensures Cipher(plaintext).Ok? ==> writer.data == old(writer.data) + (if writer.broken then [] else StringBytes(Cipher(plaintext).value))
  {
    var cyphertext := EncodeText(PhoneCodeMap, plaintext);
    if cyphertext.Err? {
      return Some(cyphertext.error);
    }
    var _, e := writer.Write(StringBytes(cyphertext.value));
    return e;
  }

  /**
   * The per-character loop of the action: append each character's code to
   * the cipher text, stopping at the first character without one.
   */
  method EncodeText(codes: map<string, string>, plaintext: string) returns (r: Result<string>)
    ensures r == CipherWith(codes, plaintext)
  {
    var cyphertext := "";
    var i := 0;
    assert plaintext[0..] == plaintext;
    if CipherWith(codes, plaintext).Ok? {
      assert "" + CipherWith(codes, plaintext).value == CipherWith(codes, plaintext).value;
    }
    while i < |plaintext|
      invariant 0 <= i <= |plaintext|
      invariant CipherWith(codes, plaintext) == Prefixed(cyphertext, CipherWith(codes, plaintext[i..]))
    {
      var ch := [plaintext[i]];
      assert plaintext[i..][1..] == plaintext[i + 1..];
      if ch !in codes {
        return Err("unrecognized char: " + ch);
      }
      if CipherWith(codes, plaintext[i + 1..]).Ok? {
        var s := CipherWith(codes, plaintext[i + 1..]).value;
        assert cyphertext + (codes[ch] + s) == cyphertext + codes[ch] + s;
      }
      cyphertext := cyphertext + codes[ch];
      i := i + 1;
    }
    assert cyphertext + "" == cyphertext;
    return Ok(cyphertext);
  }

  /** The loop's bookkeeping: what is already encoded in front of what the rest encodes to. */
  function Prefixed(done: string, rest: Result<string>): (r: Result<string>)
    ensures r.Ok? <==> rest.Ok?
    ensures r.Err? ==> r == rest
  {
    match rest
    case Ok(s) => Ok(done + s)
    case Err(e) => Err(e)
  }
}
