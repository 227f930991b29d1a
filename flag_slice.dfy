// A repeatable command-line flag value (flagset/slice.go): each `Set`
// appends either one parsed element or, for a value written as a JSON
// array, every element of the array. Elements are parsed the way `strconv`
// parses base-10 integers and booleans; JSON decoding and encoding are
// parameters of the model.
module FlagSlice {
  import opened Outcomes

  const Two63 := 0x8000_0000_0000_0000
  const Two64 := 0x1_0000_0000_0000_0000

  /** The integer widths of Go's sized integer types; `int` and `uint` are 64 bits wide. */
  datatype Width = W8 | W16 | W32 | W64

  function Modulus(w: Width): (m: int)
    ensures m > 1
  {
    match w
    case W8 => 0x100
    case W16 => 0x1_0000
    case W32 => 0x1_0000_0000
    case W64 => Two64
  }

  /** The element type of a slice. */
  datatype Kind = StringKind | BoolKind | IntKind(width: Width) | UintKind(uwidth: Width)

  datatype Value = Str(s: string) | Bool(b: bool) | Int(i: int)

  /** What `strconv` reports: the function, the input, and why it failed. */
  datatype Reason = Syntax | Range

  /**
   * The characters `strconv.Quote` escapes because `unicode.IsPrint` rejects
   * them: the C0 controls, DEL, the C1 controls and the soft hyphen.
   */
  predicate Unprintable(c: char)
  {
    c < ' ' || c as int == 0x7F || (0x80 <= c as int <= 0x9F) || c as int == 0xAD
  }

  /** A character `strconv.Quote` copies as it is. */
  predicate Plain(c: char)
  {
    c != '"' && c != '\\' && !Unprintable(c)
  }

  function HexDigit(n: nat): (c: char)
    requires n < 16
    ensures !Unprintable(c) && c != '"' && c != '\\'
  {
    "0123456789abcdef"[n]
  }

  /**
   * The escape of one character in `strconv.Quote`: a backslash before '"'
   * and '\\', the named escapes of C, `\xhh` for the other C0 controls and
   * DEL, `\u00hh` for the other unprintable characters, lower-case hex.
   */
  function EscapeChar(c: char): (r: string)
    ensures Plain(c) ==> r == [c]
    ensures !Plain(c) ==> 2 <= |r| && r[0] == '\\'
    ensures forall i :: 0 <= i < |r| ==> !Unprintable(r[i])
  {
    if c == '"' || c == '\\' then ['\\', c]
    else if c as int == 0x07 then "\\a"
    else if c as int == 0x08 then "\\b"
    else if c as int == 0x0C then "\\f"
    else if c == '\n' then "\\n"
    else if c == '\r' then "\\r"
    else if c == '\t' then "\\t"
    else if c as int == 0x0B then "\\v"
    else if c < ' ' || c as int == 0x7F then
      ['\\', 'x', HexDigit(c as int / 16), HexDigit(c as int % 16)]
    else if Unprintable(c) then
      ['\\', 'u', '0', '0', HexDigit(c as int / 16), HexDigit(c as int % 16)]
    else [c]
  }

  function Escape(s: string): (r: string)
    ensures |r| >= |s|
  {
    if s == [] then [] else EscapeChar(s[0]) + Escape(s[1..])
  }

  /** `strconv.Quote`: the escaped text between double quotes. */
  function Quote(s: string): string
  {
    "\"" + Escape(s) + "\""
  }

  /** Escaping works character by character, so it distributes over concatenation. */
  lemma {:induction false} EscapeAppend(a: string, b: string)
    ensures Escape(a + b) == Escape(a) + Escape(b)
  {
    if a == [] {
      assert a + b == b;
    } else {
      assert (a + b)[1..] == a[1..] + b;
      EscapeAppend(a[1..], b);
    }
  }

  /** Text made of plain characters is quoted as it is. */
  lemma {:induction false} EscapePlain(s: string)
    requires forall i :: 0 <= i < |s| ==> Plain(s[i])
    ensures Escape(s) == s
  {
    if s != [] {
      EscapePlain(s[1..]);
    }
  }

  /** A quoted text holds no unprintable character, whatever the input held. */
  lemma {:induction false} EscapePrintable(s: string)
    ensures forall i :: 0 <= i < |Escape(s)| ==> !Unprintable(Escape(s)[i])
  {
    if s != [] {
      EscapePrintable(s[1..]);
      var e := EscapeChar(s[0]);
      forall i | 0 <= i < |Escape(s)|
        ensures !Unprintable(Escape(s)[i])
      {
        if i >= |e| {
          assert Escape(s)[i] == Escape(s[1..])[i - |e|];
        }
      }
    }
  }

  /** A quote or a backslash in the input is always escaped with a backslash. */
  lemma QuoteInInput(c: char)
    requires c == '"' || c == '\\'
    ensures Escape([c]) == ['\\', c]
  {
    assert [c][1..] == [];
  }

  function NumError(fn: string, input: string, reason: Reason): string
  {
    "strconv." + fn + ": parsing " + Quote(input) + ": "
      + (match reason case Syntax => "invalid syntax" case Range => "value out of range")
  }

  predicate IsDigit(c: char)
  {
    '0' <= c <= '9'
  }

  /** The number of leading decimal digits. */
  function DigitRun(s: string): (k: nat)
    ensures k <= |s|
    ensures forall i :: 0 <= i < k ==> IsDigit(s[i])
    ensures k < |s| ==> !IsDigit(s[k])
  {
    if s == [] || !IsDigit(s[0]) then 0 else 1 + DigitRun(s[1..])
  }

  /** The value of a string of decimal digits, most significant first. */
  function DigitsValue(s: string): nat
    requires forall i :: 0 <= i < |s| ==> IsDigit(s[i])
  {
    if s == [] then 0
    else
      var d := s[|s| - 1] as int - '0' as int;
      assert IsDigit(s[|s| - 1]);
      DigitsValue(s[..|s| - 1]) * 10 + d
  }

  /**
   * `strconv.ParseUint(s, 10, 64)`: the digits are read from the left, so a
   * value that overflows before the first non-digit is a range error and a
   * non-digit before any overflow is a syntax error.
   */
  function ParseUint(s: string): (r: Result<nat>)
    ensures r.Ok? ==> r.value < Two64
  {
    var k := DigitRun(s);
    if s == [] then Err(NumError("ParseUint", s, Syntax))
    else if DigitsValue(s[..k]) >= Two64 then Err(NumError("ParseUint", s, Range))
    else if k < |s| then Err(NumError("ParseUint", s, Syntax))
    else
      assert s[..k] == s;
      Ok(DigitsValue(s))
  }

  /** `strconv.ParseInt(s, 10, 64)`: an optional sign, then `ParseUint`'s digits, within 64 signed bits. */
  function ParseInt(s: string): (r: Result<int>)
    ensures r.Ok? ==> -Two63 <= r.value < Two63
  {
    if s == [] then Err(NumError("ParseInt", s, Syntax))
    else
      var neg := s[0] == '-';
      var digits := if s[0] == '+' || s[0] == '-' then s[1..] else s;
      match ParseUint(digits)
      case Err(e) =>
        var k := DigitRun(digits);
        Err(NumError("ParseInt", s, if digits != [] && DigitsValue(digits[..k]) >= Two64 then Range else Syntax))
      case Ok(un) =>
        if !neg && un >= Two63 then Err(NumError("ParseInt", s, Range))
        else if neg && un > Two63 then Err(NumError("ParseInt", s, Range))
        else Ok(if neg then -(un as int) else un)
  }

  /** `strconv.ParseBool`. */
  function ParseBool(s: string): (r: Result<bool>)
  {
    if s in {"1", "t", "T", "TRUE", "true", "True"} then Ok(true)
    else if s in {"0", "f", "F", "FALSE", "false", "False"} then Ok(false)
    else Err(NumError("ParseBool", s, Syntax))
  }

  /** Go's conversion of a 64-bit integer to a narrower signed type: two's complement truncation. */
  function ToSigned(x: int, w: Width): (r: int)
    ensures -Modulus(w) / 2 <= r < Modulus(w) / 2
  {
    var m := x % Modulus(w);
    if m >= Modulus(w) / 2 then m - Modulus(w) else m
  }

  /** Go's conversion of a 64-bit unsigned integer to a narrower unsigned type. */
  function ToUnsigned(x: nat, w: Width): (r: nat)
    ensures r < Modulus(w)
  {
    x % Modulus(w)
  }

  /** A value that fits the narrower type is kept as it is. */
  lemma ToSignedKeeps(x: int, w: Width)
    requires -Modulus(w) / 2 <= x < Modulus(w) / 2
    ensures ToSigned(x, w) == x
  {
  }

  /** An unsigned value that fits the narrower type is kept as it is. */
  lemma ToUnsignedKeeps(x: nat, w: Width)
    requires x < Modulus(w)
    ensures ToUnsigned(x, w) == x
  {
  }

  /** `parse` for the string, boolean and integer element types. */
  function Parse(value: string, kind: Kind): (r: Result<Value>)
    ensures kind == StringKind ==> r == Ok(Str(value))
    ensures r.Ok? && kind.IntKind? ==> (r.value.Int? && ParseInt(value).Ok?
      && r.value.i == ToSigned(ParseInt(value).value, kind.width))
    ensures r.Ok? && kind.UintKind? ==> (r.value.Int? && ParseUint(value).Ok?
      && r.value.i == ToUnsigned(ParseUint(value).value, kind.uwidth))
  {
    match kind
    case StringKind => Ok(Str(value))
    case BoolKind =>
      (match ParseBool(value) case Err(e) => Err(e) case Ok(b) => Ok(Bool(b)))
    case IntKind(w) =>
      (match ParseInt(value) case Err(e) => Err(e) case Ok(x) => Ok(Int(ToSigned(x, w))))
    case UintKind(w) =>
      (match ParseUint(value) case Err(e) => Err(e) case Ok(x) => Ok(Int(ToUnsigned(x, w))))
  }

  /** The decimal digit of `d`. */
  function Digit(d: nat): char
    requires d < 10
  {
    ('0' as int + d) as char
  }

  /** `strconv.FormatUint(n, 10)`: the shortest decimal digits of `n`. */
  function Decimal(n: nat): (s: string)
    ensures s != [] && forall i :: 0 <= i < |s| ==> IsDigit(s[i])
    ensures DigitsValue(s) == n
  {
    if n < 10 then [Digit(n)]
    else
      var front := Decimal(n / 10);
      var s := front + [Digit(n % 10)];
      assert s[..|s| - 1] == front;
      s
  }

  /** Every decimal rendering of a 64-bit unsigned value parses back to it. */
  lemma ParseUintDecimal(n: nat)
    requires n < Two64
    ensures ParseUint(Decimal(n)) == Ok(n)
  {
    var s := Decimal(n);
    assert DigitRun(s) == |s| by {
      DigitRunAll(s);
    }
    assert s[..|s|] == s;
  }

  lemma {:induction false} DigitRunAll(s: string)
    requires forall i :: 0 <= i < |s| ==> IsDigit(s[i])
    ensures DigitRun(s) == |s|
  {
    if s != [] {
      DigitRunAll(s[1..]);
    }
  }

  /** `strconv.FormatInt(x, 10)`. */
  function SignedDecimal(x: int): string
  {
    if x < 0 then "-" + Decimal(-x) else Decimal(x)
  }

  /** Every decimal rendering of a 64-bit signed value parses back to it. */
  lemma ParseIntDecimal(x: int)
    requires -Two63 <= x < Two63
    ensures ParseInt(SignedDecimal(x)) == Ok(x)
  {
    if x < 0 {
      ParseIntNegative(-x);
    } else {
      ParseIntUnsigned(x);
    }
  }

  lemma ParseIntNegative(n: nat)
    requires 0 < n <= Two63
    ensures ParseInt("-" + Decimal(n)) == Ok(-(n as int))
  {
    var s := "-" + Decimal(n);
    ParseUintDecimal(n);
    assert s[0] == '-' && s[1..] == Decimal(n);
  }

  lemma ParseIntUnsigned(n: nat)
    requires n < Two63
    ensures ParseInt(Decimal(n)) == Ok(n)
  {
    var s := Decimal(n);
    ParseUintDecimal(n);
    assert IsDigit(s[0]);
  }

  /** The values a `Set` appends: a JSON array's elements, or one parsed element; "" appends nothing. */
  function NewValues(value: string, kind: Kind, unmarshal: string -> Result<seq<Value>>): Result<seq<Value>>
  {
    if |value| >= 2 && value[0] == '[' && value[|value| - 1] == ']' then unmarshal(value)
    else match Parse(value, kind)
      case Err(e) => Err(e)
      case Ok(v) => Ok([v])
  }

  /** The contents after `Set(value)`, or the error that leaves them unchanged. */
  function Appended(values: seq<Value>, value: string, kind: Kind, unmarshal: string -> Result<seq<Value>>)
    : (r: Result<seq<Value>>)
    ensures value == "" ==> r == Ok(values)
    ensures value != "" && NewValues(value, kind, unmarshal).Err? ==> r.Err?
    ensures value != "" && NewValues(value, kind, unmarshal).Ok? ==>
      r.Ok? && r.value == values + NewValues(value, kind, unmarshal).value
  {
    if value == "" then Ok(values)
    else match NewValues(value, kind, unmarshal)
      case Err(e) => Err(e)
      case Ok(vs) => Ok(values + vs)
  }

  /** Successive `Set` calls keep the elements in the order they were given. */
  lemma SetOrder(values: seq<Value>, first: string, second: string, kind: Kind, unmarshal: string -> Result<seq<Value>>)
    requires Appended(values, first, kind, unmarshal).Ok?
    requires Appended(Appended(values, first, kind, unmarshal).value, second, kind, unmarshal).Ok?
    ensures var once := Appended(values, first, kind, unmarshal).value;
      var twice := Appended(once, second, kind, unmarshal).value;
      && once[..|values|] == values
      && twice[..|once|] == once
      && twice == values + once[|values|..] + twice[|once|..]
  {
    var once := Appended(values, first, kind, unmarshal).value;
    var twice := Appended(once, second, kind, unmarshal).value;
    assert once == values + once[|values|..];
    assert twice == once + twice[|once|..];
  }

  /** `Slice[T]`: the elements collected so far. */
  class Slice {
    const kind: Kind
    var values: seq<Value>

    constructor (kind: Kind)
      ensures this.kind == kind && values == []
    {
      this.kind := kind;
      values := [];
    }

    /** `Set`: on an error the elements are left unchanged. */
    method Set(value: string, unmarshal: string -> Result<seq<Value>>) returns (err: Option<string>)
      modifies this
      ensures var r := Appended(old(values), value, kind, unmarshal);
        && (r.Ok? ==> err == None && values == r.value)
        && (r.Err? ==> err == Some(r.error) && values == old(values))
    {
      if value == "" {
        return None;
      }
      var newValues: seq<Value> := [];
      var parsed: Result<seq<Value>>;
      if |value| >= 2 && value[0] == '[' && value[|value| - 1] == ']' {
        parsed := unmarshal(value);
      } else {
        var element := Parse(value, kind);
        if element.Err? {
          parsed := Err(element.error);
        } else {
          parsed := Ok(newValues + [element.value]);
        }
      }
      if parsed.Err? {
        return Some(parsed.error);
      }
      values := values + parsed.value;
      return None;
    }

    /** `String`: "" for no elements, otherwise the JSON encoding. */
    function String(marshal: seq<Value> -> string): (s: string)
      reads this
      ensures values == [] ==> s == ""
      ensures values != [] ==> s == marshal(values)
    {
      if |values| == 0 then "" else marshal(values)
    }
  }
}
