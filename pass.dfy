// Deterministic site passwords in the Master Password (Spectre) scheme
// (pass/constants.go, pass/derivation.go): an identity key from scrypt over
// a seed of scope and name, a site key from HMAC-SHA256 over a seed of
// scope, site and counter, and a password rendered from the site key by a
// template whose letters name character classes. scrypt and HMAC-SHA256
// are parameters of the model; all strings are ASCII, so a character stands
// for its byte.
module Pass {
  import opened Bytes

  const Two32 := 0x1_0000_0000

  /** The scrypt cost parameters. */
  const ScryptN := 32768
  const ScryptR := 8
  const ScryptP := 2
  const KeyLen := 64

  const Authentication := "com.lyndir.masterpassword"
  const Identification := "com.lyndir.masterpassword.login"
  const Recovery := "com.lyndir.masterpassword.answer"

  const Vowels := "aeiou"
  const VowelsUpper := "AEIOU"
  const Consonants := "bcdfghjklmnpqrstvwxyz"
  const ConsonantsUpper := "BCDFGHJKLMNPQRSTVWXYZ"
  const Numeric := "123456789"
  const Other := "@&%?,=[]_:-+*$#!'^~;()/."
  const AlphabeticUpper := VowelsUpper + ConsonantsUpper
  const Alphabetic := VowelsUpper + Vowels + ConsonantsUpper + Consonants
  const Union := Alphabetic + "0" + Numeric + "!@#$%^&*()"

  /** `defaultCharacterClasses`: the characters a template letter may become. */
  const CharacterClasses: map<char, string> := map[
    'v' := Vowels, 'V' := VowelsUpper, 'c' := Consonants, 'C' := ConsonantsUpper,
    'A' := AlphabeticUpper, 'a' := Alphabetic, 'n' := Numeric, 'o' := Other, 'x' := Union
  ]

  const LongTemplates: seq<string> := [
    "CvcvnoCvcvCvcv", "CvcvCvcvCvccno", "CvcvCvcvnoCvcv", "CvccnoCvccCvcv",
    "CvcvCvcvCvcvno", "CvccCvccnoCvcv", "CvccnoCvcvCvcv", "CvccCvccCvcvno",
    "CvccCvcvnoCvcv", "CvcvnoCvccCvcc", "CvccCvcvCvcvno", "CvcvCvccnoCvcc",
    "CvcvnoCvccCvcv", "CvcvCvccCvccno", "CvcvCvccnoCvcv", "CvccnoCvcvCvcc",
    "CvcvCvccCvcvno", "CvccCvcvnoCvcc", "CvcvnoCvcvCvcc", "CvccCvcvCvccno",
    "CvcvCvcvnoCvcc"
  ]

  /** `defaultTemplateClasses`: the templates of each password class. */
  const TemplateClasses: map<string, seq<string>> := map[
    "max" := ["anoxxxxxxxxxxxxxxxxx", "axxxxxxxxxxxxxxxxxno"],
    "long" := LongTemplates,
    "medium" := ["CvcnoCvc", "CvcCvcno"],
    "short" := ["Cvcn"],
    "basic" := ["aaanaaan", "aannaaan", "aaannaaa"],
    "pin" := ["nnnn"],
    "code" := ["nnnnnn"]
  ]

  /** Every letter of a template names a character class. */
  predicate WellFormed(template: string)
  {
    forall i :: 0 <= i < |template| ==> template[i] in CharacterClasses
  }

  lemma LongTemplatesWellFormed()
    ensures |LongTemplates| == 21
    ensures forall k :: 0 <= k < |LongTemplates| ==> |LongTemplates[k]| == 14 && WellFormed(LongTemplates[k])
  {
    forall k | 0 <= k < |LongTemplates|
      ensures |LongTemplates[k]| == 14 && WellFormed(LongTemplates[k])
    {
      var t := LongTemplates[k];
      assert forall i :: 0 <= i < |t| ==> t[i] in "Cvcno";
    }
  }

  /**
   * The tables are consistent: every password class has a template, every template
   * letter has a non-empty character class, and the template lengths are
   * 20, 14, 8, 4, 8, 4 and 6.
   */
  lemma TablesConsistent()
    ensures forall c :: c in CharacterClasses ==> |CharacterClasses[c]| > 0
    ensures forall kind :: kind in TemplateClasses ==> |TemplateClasses[kind]| > 0
    ensures forall kind, k :: kind in TemplateClasses && 0 <= k < |TemplateClasses[kind]| ==>
      WellFormed(TemplateClasses[kind][k])
    ensures forall k :: 0 <= k < |TemplateClasses["max"]| ==> |TemplateClasses["max"][k]| == 20
    ensures forall k :: 0 <= k < |TemplateClasses["long"]| ==> |TemplateClasses["long"][k]| == 14
    ensures forall k :: 0 <= k < |TemplateClasses["medium"]| ==> |TemplateClasses["medium"][k]| == 8
    ensures forall k :: 0 <= k < |TemplateClasses["short"]| ==> |TemplateClasses["short"][k]| == 4
    ensures forall k :: 0 <= k < |TemplateClasses["basic"]| ==> |TemplateClasses["basic"][k]| == 8
    ensures forall k :: 0 <= k < |TemplateClasses["pin"]| ==> |TemplateClasses["pin"][k]| == 4
    ensures forall k :: 0 <= k < |TemplateClasses["code"]| ==> |TemplateClasses["code"][k]| == 6
  {
    LongTemplatesWellFormed();
    forall kind, k | kind in TemplateClasses && 0 <= k < |TemplateClasses[kind]|
      ensures WellFormed(TemplateClasses[kind][k])
    {
      var t := TemplateClasses[kind][k];
      if kind != "long" {
        assert forall i :: 0 <= i < |t| ==> t[i] in "anoxCvcn";
      }
    }
  }

  /** Each password class has at least one template. */
  lemma ClassHasTemplates(kind: string)
    requires kind in TemplateClasses
    ensures |TemplateClasses[kind]| > 0
  {
    TablesConsistent();
  }

  /** Each template of each password class is well formed. */
  lemma TemplateWellFormed(kind: string, k: nat)
    requires kind in TemplateClasses && k < |TemplateClasses[kind]|
    ensures WellFormed(TemplateClasses[kind][k])
  {
    TablesConsistent();
  }

  /** Each character class has at least one character. */
  lemma ClassNonEmpty(letter: char)
    requires letter in CharacterClasses
    ensures |CharacterClasses[letter]| > 0
  {
    TablesConsistent();
  }

  /** `numeric` leaves out '0', so PIN and code passwords are made of the digits 1 to 9. */
  lemma NumericDigits()
    ensures forall i :: 0 <= i < |Numeric| ==> '1' <= Numeric[i] <= '9'
    ensures '0' !in Numeric
  {
  }

  /** The outcome of `SitePassword`: a password, or the index or division fault Go panics with. */
  datatype Rendered = Password(password: string) | Panic

  /** The template `SitePassword` picks: the first site-key byte modulo the number of templates. */
  function Template(siteKey: seq<byte>, kind: string): (t: string)
    requires kind in TemplateClasses && |siteKey| > 0
    ensures t in TemplateClasses[kind]
  {
    ClassHasTemplates(kind);
    var templates := TemplateClasses[kind];
    templates[siteKey[0] % |templates|]
  }

  /**
   * What `SitePassword` renders: character `i` comes from the class of the
   * template's letter `i`, indexed by site-key byte `i + 1` modulo the
   * class size. An unknown template class divides by zero and a site key no longer
   * than the template reads out of bounds; both panic.
   */
  function Render(siteKey: seq<byte>, kind: string): (r: Rendered)
    ensures r.Password? <==> kind in TemplateClasses && |siteKey| > 0 && |siteKey| > |Template(siteKey, kind)|
  {
    if kind !in TemplateClasses || |siteKey| == 0 then Panic
    else
      var template := Template(siteKey, kind);
      if |siteKey| <= |template| then Panic
      else Password(Rendering(CharacterClasses, template, siteKey))
  }

  /** The characters of a template, each picked by the site-key byte after its position. */
  function Rendering(classes: map<char, string>, template: string, siteKey: seq<byte>): (p: string)
    requires |siteKey| > |template|
    ensures |p| == |template|
  {
    seq(|template|, i requires 0 <= i < |template| => Pick(classes, template[i], siteKey[i + 1]))
  }

  /** One password character: the class of `letter` indexed by `b` modulo its size. */
  function Pick(classes: map<char, string>, letter: char, b: byte): (c: char)
  {
    if letter in classes && |classes[letter]| > 0 then classes[letter][b % |classes[letter]|]
    else ' '
  }

  /** Every letter of `template` names a non-empty class of `classes`. */
  predicate Covers(classes: map<char, string>, template: string)
  {
    forall i :: 0 <= i < |template| ==> template[i] in classes && |classes[template[i]]| > 0
  }

  /** The character classes cover every well-formed template. */
  lemma WellFormedCovers(template: string)
    requires WellFormed(template)
    ensures Covers(CharacterClasses, template)
  {
    forall i | 0 <= i < |template|
      ensures template[i] in CharacterClasses && |CharacterClasses[template[i]]| > 0
    {
      ClassNonEmpty(template[i]);
    }
  }

  /**
   * A rendered password has the chosen template's length and each of its
   * characters belongs to the class its template letter names.
   */
  lemma RenderedInClasses(siteKey: seq<byte>, kind: string)
    requires Render(siteKey, kind).Password?
    ensures var t := Template(siteKey, kind); var p := Render(siteKey, kind).password;
      && |p| == |t|
      && forall i :: 0 <= i < |p| ==> t[i] in CharacterClasses && p[i] in CharacterClasses[t[i]]
  {
    var t := Template(siteKey, kind);
    TemplateOfKindWellFormed(siteKey, kind);
    WellFormedCovers(t);
    RenderingInClasses(CharacterClasses, t, siteKey);
  }

  /** Each character of a well-formed template's rendering is in the class its letter names. */
  lemma RenderingInClasses(classes: map<char, string>, template: string, siteKey: seq<byte>)
    requires |siteKey| > |template| && Covers(classes, template)
    ensures var p := Rendering(classes, template, siteKey);
      forall i :: 0 <= i < |p| ==> p[i] in classes[template[i]]
  {
  }

  /** PIN and verification-code passwords are all digits from 1 to 9. */
  lemma PinDigits(siteKey: seq<byte>, kind: string)
    requires kind == "pin" || kind == "code"
    requires Render(siteKey, kind).Password?
    ensures var p := Render(siteKey, kind).password;
      |p| == (if kind == "pin" then 4 else 6) && forall i :: 0 <= i < |p| ==> '1' <= p[i] <= '9'
  {
    RenderedInClasses(siteKey, kind);
    TablesConsistent();
    var t := Template(siteKey, kind);
    assert t == TemplateClasses[kind][0];
    assert forall i :: 0 <= i < |t| ==> t[i] == 'n';
  }

  /** A 32-byte HMAC-SHA256 site key is long enough for every template, so rendering it never panics. */
  lemma SiteKeyRenders(siteKey: seq<byte>, kind: string)
    requires |siteKey| == 32 && kind in TemplateClasses
    ensures Render(siteKey, kind).Password?
  {
    TablesConsistent();
    var t := Template(siteKey, kind);
    var templates := TemplateClasses[kind];
    var k :| 0 <= k < |templates| && templates[k] == t;
    if kind == "long" {
      LongTemplatesWellFormed();
    }
  }

  /** `SitePassword`: pick the template, then fill a fresh password array from it. */
  method SitePassword(siteKey: seq<byte>, kind: string) returns (r: Rendered)
    ensures r == Render(siteKey, kind)
  {
    if kind !in TemplateClasses || |siteKey| == 0 {
      return Panic;
    }
    var template := Template(siteKey, kind);
    TemplateOfKindWellFormed(siteKey, kind);
    WellFormedCovers(template);
    r := Fill(CharacterClasses, template, siteKey);
  }

  /**
   * The fill loop of `SitePassword`: character `i` is picked by site-key
   * byte `i + 1`, and a site key too short for the template panics.
   */
  method Fill(classes: map<char, string>, template: string, siteKey: seq<byte>) returns (r: Rendered)
    requires Covers(classes, template) && |siteKey| > 0
    ensures r == if |siteKey| <= |template| then Panic else Password(Rendering(classes, template, siteKey))
  {
    var password := new char[|template|];
    var i := 0;
    while i < |template|
      invariant 0 <= i <= |template|
      invariant i <= |siteKey| - 1
      invariant forall j :: 0 <= j < i ==> password[j] == Pick(classes, template[j], siteKey[j + 1])
    {
      if i + 1 >= |siteKey| {
        return Panic;
      }
      var c := PickChar(classes, template[i], siteKey[i + 1]);
      password[i] := c;
      i := i + 1;
    }
    if |siteKey| <= |template| {
      return Panic;
    }
    PickedAll(classes, template, siteKey, password[..]);
    return Password(password[..]);
  }

  /** The template `SitePassword` picks is well formed. */
  lemma TemplateOfKindWellFormed(siteKey: seq<byte>, kind: string)
    requires kind in TemplateClasses && |siteKey| > 0
    ensures WellFormed(Template(siteKey, kind))
  {
    var templates := TemplateClasses[kind];
    ClassHasTemplates(kind);
    TemplateWellFormed(kind, siteKey[0] % |templates|);
  }

  /** A password picked character by character from the template is its rendering. */
  lemma PickedAll(classes: map<char, string>, template: string, siteKey: seq<byte>, pw: string)
    requires |siteKey| > |template| == |pw|
    requires forall j :: 0 <= j < |pw| ==> pw[j] == Pick(classes, template[j], siteKey[j + 1])
    ensures pw == Rendering(classes, template, siteKey)
  {
  }

  /** One character of the password loop, looked up in its class. */
  method PickChar(classes: map<char, string>, letter: char, b: byte) returns (c: char)
    requires letter in classes && |classes[letter]| > 0
    ensures c == Pick(classes, letter, b) && c in classes[letter]
  {
    var charset := classes[letter];
    c := charset[b % |charset|];
  }

  /** `binary.Write` of `uint32(n)`: Go truncates the length to 32 bits. */
  function U32(n: nat): (b: seq<byte>)
    ensures |b| == 4
  {
    BigEndian(n % Two32, 4)
  }

  /** The scrypt salt of `Identity`: scope, the name's length as a uint32, the name. */
  function IdentitySeed(scope: string, name: seq<byte>): seq<byte>
  {
    StringBytes(scope) + U32(|name|) + name
  }

  /** The HMAC message of `SiteKey`: scope, the site's length as a uint32, the site, the counter. */
  function SiteSeed(scope: string, site: seq<byte>, counter: u32): seq<byte>
  {
    StringBytes(scope) + U32(|site|) + site + BigEndian(counter, 4)
  }

  /** `Identity`: scrypt with N = 32768, r = 8, p = 2 and a 64-byte key, over the identity seed. */
  function Identity(scrypt: (seq<byte>, seq<byte>, nat, nat, nat, nat) -> seq<byte>, scope: string, password: seq<byte>, name: seq<byte>): seq<byte>
  {
    scrypt(password, IdentitySeed(scope, name), ScryptN, ScryptR, ScryptP, KeyLen)
  }

  /** `SiteKey`: HMAC-SHA256 keyed by the identity over the site seed. */
  function SiteKey(hmac: (seq<byte>, seq<byte>) -> seq<byte>, scope: string, identity: seq<byte>, site: seq<byte>, counter: u32): seq<byte>
  {
    hmac(identity, SiteSeed(scope, site, counter))
  }

  lemma Pow256Four()
    ensures Pow256(4) == Two32
  {
    assert Pow256(2) == 65536;
  }

  lemma U32Reads(n: nat)
    requires n < Two32
    ensures FromBigEndian(U32(n)) == n
  {
    Pow256Four();
    assert n % Two32 == n;
    FromToBigEndian(n, 4);
  }

  /**
   * The length prefix makes the seed unambiguous: within one scope,
   * different names below 2^32 bytes give different identity seeds.
   */
  lemma IdentitySeedInjective(scope: string, a: seq<byte>, b: seq<byte>)
    requires |a| < Two32 && |b| < Two32 && IdentitySeed(scope, a) == IdentitySeed(scope, b)
    ensures a == b
  {
    var s := StringBytes(scope);
    var n := |s|;
    assert IdentitySeed(scope, a)[n..n + 4] == U32(|a|);
    assert IdentitySeed(scope, b)[n..n + 4] == U32(|b|);
    U32Reads(|a|);
    U32Reads(|b|);
    assert IdentitySeed(scope, a)[n + 4..] == a;
    assert IdentitySeed(scope, b)[n + 4..] == b;
  }

  /** Within one scope, the site seed determines both the site and the counter. */
  lemma SiteSeedInjective(scope: string, a: seq<byte>, ca: u32, b: seq<byte>, cb: u32)
    requires |a| < Two32 && |b| < Two32 && SiteSeed(scope, a, ca) == SiteSeed(scope, b, cb)
    ensures a == b && ca == cb
  {
    var n := |StringBytes(scope)|;
    var x, y := SiteSeed(scope, a, ca), SiteSeed(scope, b, cb);
    assert x[n..n + 4] == U32(|a|);
    assert y[n..n + 4] == U32(|b|);
    U32Reads(|a|);
    U32Reads(|b|);
    assert x[n + 4..n + 4 + |a|] == a;
    assert y[n + 4..n + 4 + |b|] == b;
    assert x[n + 4 + |a|..] == BigEndian(ca, 4);
    assert y[n + 4 + |b|..] == BigEndian(cb, 4);
    assert Pow256(4) == Two32;
    FromToBigEndian(ca, 4);
    FromToBigEndian(cb, 4);
  }
}
