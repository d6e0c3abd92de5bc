/** The signed identity cookie (`cookie.ts`). Base64url (section 5 of RFC 4648, unpadded) is
    written out; UTF-8, HMAC-SHA-256 and the URI component codec are parameters. */
module Cookie {
  import opened Text

  type Byte = n: nat | n < 256
  type Sextet = n: nat | n < 64

  // ----- base64url --------------------------------------------------------------------

  function Letter(n: Sextet): char {
    if n < 26 then 'A' + n as char
    else if n < 52 then 'a' + (n - 26) as char
    else if n < 62 then '0' + (n - 52) as char
    else if n == 62 then '-' else '_'
  }

  /** The decoder also reads the standard alphabet's last two characters. */
  function SextetOf(c: char): Option<Sextet> {
    if 'A' <= c <= 'Z' then Some(c as int - 'A' as int)
    else if 'a' <= c <= 'z' then Some(c as int - 'a' as int + 26)
    else if '0' <= c <= '9' then Some(c as int - '0' as int + 52)
    else if c == '-' || c == '+' then Some(62)
    else if c == '_' || c == '/' then Some(63)
    else None
  }

  /** Which characters the decoder reads: the letters of the alphabet, and `+` and `/` as `-` and `_`. */
  lemma BothAlphabets(c: char)
    ensures SextetOf(c).Some? <==> (exists n: Sextet :: Letter(n) == c) || c == '+' || c == '/'
    ensures SextetOf('+') == SextetOf('-') && SextetOf('/') == SextetOf('_')
    ensures SextetOf(c).Some? && c != '+' && c != '/' ==> Letter(SextetOf(c).value) == c
  {
    if SextetOf(c).Some? && c != '+' && c != '/' { assert Letter(SextetOf(c).value) == c; }
  }

  /** The four sextets of three bytes, and the three bytes of four sextets. */
  function First6(a: Byte): Sextet { a / 4 }
  function Second6(a: Byte, b: Byte): Sextet { a % 4 * 16 + b / 16 }
  function Third6(b: Byte, c: Byte): Sextet { b % 16 * 4 + c / 64 }
  function Fourth6(c: Byte): Sextet { c % 64 }

  function First8(p: Sextet, q: Sextet): Byte { p * 4 + q / 16 }
  function Second8(q: Sextet, r: Sextet): Byte { q % 16 * 16 + r / 4 }
  function Third8(r: Sextet, s: Sextet): Byte { r % 4 * 64 + s }

  lemma GroupBack(a: Byte, b: Byte, c: Byte)
    ensures First8(First6(a), Second6(a, b)) == a
    ensures Second8(Second6(a, b), Third6(b, c)) == b
    ensures Third8(Third6(b, c), Fourth6(c)) == c
  {
  }

  /** Three bytes and their four sextets are the same 24-bit number. */
  lemma SameBits(a: Byte, b: Byte, c: Byte)
    ensures ((First6(a) * 64 + Second6(a, b)) * 64 + Third6(b, c)) * 64 + Fourth6(c) == (a * 256 + b) * 256 + c
  {
  }

  function ToSextets(b: seq<Byte>): seq<Sextet> {
    if |b| == 0 then []
    else if |b| == 1 then [First6(b[0]), Second6(b[0], 0)]
    else if |b| == 2 then [First6(b[0]), Second6(b[0], b[1]), Third6(b[1], 0)]
    else [First6(b[0]), Second6(b[0], b[1]), Third6(b[1], b[2]), Fourth6(b[2])] + ToSextets(b[3..])
  }

  /** A lone last sextet carries no byte. */
  function FromSextets(s: seq<Sextet>): seq<Byte> {
    if |s| < 2 then []
    else if |s| == 2 then [First8(s[0], s[1])]
    else if |s| == 3 then [First8(s[0], s[1]), Second8(s[1], s[2])]
    else [First8(s[0], s[1]), Second8(s[1], s[2]), Third8(s[2], s[3])] + FromSextets(s[4..])
  }

  function Letters(s: seq<Sextet>): string {
    if s == [] then "" else [Letter(s[0])] + Letters(s[1..])
  }

  /** Characters outside the alphabet are skipped. */
  function Sextets(text: string): seq<Sextet> {
    if text == "" then []
    else (match SextetOf(text[0]) case Some(n) => [n] case None => []) + Sextets(text[1..])
  }

  function Base64Url(b: seq<Byte>): string { Letters(ToSextets(b)) }

  function FromBase64Url(text: string): seq<Byte> { FromSextets(Sextets(text)) }

  lemma {:induction false} SextetsBack(b: seq<Byte>)
    ensures FromSextets(ToSextets(b)) == b
  {
    hide First6, Second6, Third6, Fourth6, First8, Second8, Third8;
    if |b| >= 3 {
      GroupBack(b[0], b[1], b[2]);
      SextetsBack(b[3..]);
      assert ToSextets(b)[4..] == ToSextets(b[3..]);
    } else if |b| == 2 {
      GroupBack(b[0], b[1], 0);
    } else if |b| == 1 {
      GroupBack(b[0], 0, 0);
    }
  }

  lemma {:induction false} LettersBack(s: seq<Sextet>)
    ensures Sextets(Letters(s)) == s
  {
    if s != [] {
      assert SextetOf(Letter(s[0])) == Some(s[0]);
      LettersBack(s[1..]);
      assert Letters(s)[1..] == Letters(s[1..]);
    }
  }

  lemma DecodeOfEncode(b: seq<Byte>)
    ensures FromBase64Url(Base64Url(b)) == b
  {
    LettersBack(ToSextets(b));
    SextetsBack(b);
  }

  /** Characters a cookie value and a URI component carry as they are. */
  predicate Unreserved(c: char) {
    'A' <= c <= 'Z' || 'a' <= c <= 'z' || '0' <= c <= '9' || c == '-' || c == '_' || c == '.'
  }

  predicate AllUnreserved(s: string) { forall i :: 0 <= i < |s| ==> Unreserved(s[i]) }

  lemma {:induction false} LettersUnreserved(s: seq<Sextet>)
    ensures AllUnreserved(Letters(s)) && '.' !in Letters(s) && |Letters(s)| == |s|
  {
    if s != [] { LettersUnreserved(s[1..]); }
  }

  // ----- signing -----------------------------------------------------------------------------

  datatype Codec = Codec(utf8: string -> seq<Byte>, text: seq<Byte> -> string, hmac: (seq<Byte>, string) -> seq<Byte>)

  /** Decoding UTF-8 undoes encoding on every string of Unicode scalar values. */
  ghost predicate Faithful(c: Codec) {
    c.utf8("") == [] && forall s :: c.text(c.utf8(s)) == s
  }

  function Sign(c: Codec, value: string, secret: string): string {
    Base64Url(c.hmac(c.utf8(value), secret))
  }

  function SignCookieValue(c: Codec, value: string, secret: string): string {
    Base64Url(c.utf8(value)) + "." + Sign(c, value, secret)
  }

  /** `lastIndexOf(".")`, -1 when there is none. */
  function LastDot(s: string): (i: int)
    ensures -1 <= i < |s| && (i >= 0 ==> s[i] == '.')
  {
    if s == "" then -1 else if s[|s| - 1] == '.' then |s| - 1 else LastDot(s[..|s| - 1])
  }

  function ReadSignedCookieValue(c: Codec, signed: Option<string>, secret: string): Option<string> {
    if signed.None? then None
    else
      var dot := LastDot(signed.value);
      if dot <= 0 then None
      else
        var value := c.text(FromBase64Url(signed.value[..dot]));
        if c.utf8(signed.value[dot + 1..]) == c.utf8(Sign(c, value, secret)) then Some(value) else None
  }

  lemma {:induction false} LastDotOf(a: string, b: string)
    requires '.' !in b
    ensures LastDot(a + "." + b) == |a|
    decreases |b|
  {
    var s := a + "." + b;
    if b != "" {
      LastDotOf(a, b[..|b| - 1]);
      assert s[..|s| - 1] == a + "." + b[..|b| - 1];
    }
  }

  /** The signed form: a nonempty payload that decodes to the value, a dot, and the base64url of the
      value's own HMAC under the secret. */
  ghost predicate Carries(c: Codec, signed: string, secret: string, value: string, payload: string) {
    && payload != "" && signed == payload + "." + Base64Url(c.hmac(c.utf8(value), secret))
    && c.text(FromBase64Url(payload)) == value
  }

  /** A cookie verifies exactly when it has the signed form of the value it yields. */
  lemma VerifiesExactly(c: Codec, signed: string, secret: string, value: string)
    requires Faithful(c)
    ensures ReadSignedCookieValue(c, Some(signed), secret) == Some(value)
       <==> exists payload :: Carries(c, signed, secret, value, payload)
  {
    hide FromBase64Url, Base64Url;
    var dot := LastDot(signed);
    if ReadSignedCookieValue(c, Some(signed), secret) == Some(value) {
      var presented := signed[dot + 1..];
      assert c.text(c.utf8(presented)) == presented && c.text(c.utf8(Sign(c, value, secret))) == Sign(c, value, secret);
      assert signed == signed[..dot] + "." + presented;
      assert Carries(c, signed, secret, value, signed[..dot]);
    }
    if payload :| Carries(c, signed, secret, value, payload) {
      SignatureDotless(c, value, secret);
      LastDotOf(payload, Sign(c, value, secret));
      assert signed[..|payload|] == payload && signed[|payload| + 1..] == Sign(c, value, secret);
    }
  }

  lemma SignatureDotless(c: Codec, value: string, secret: string)
    ensures '.' !in Sign(c, value, secret)
  {
    LettersUnreserved(ToSextets(c.hmac(c.utf8(value), secret)));
  }

  lemma EncodedEmpty(b: seq<Byte>)
    ensures Base64Url(b) == "" <==> b == []
  {
    LettersUnreserved(ToSextets(b));
  }

  /** Reading back what was signed returns the value, except that the empty value never
      verifies. */
  lemma SignedReadsBack(c: Codec, value: string, secret: string)
    requires Faithful(c)
    ensures ReadSignedCookieValue(c, Some(SignCookieValue(c, value, secret)), secret) == if value == "" then None else Some(value)
  {
    var payload, signed := Base64Url(c.utf8(value)), SignCookieValue(c, value, secret);
    assert c.text(c.utf8(value)) == value && c.text(c.utf8("")) == "";
    EncodedEmpty(c.utf8(value));
    DecodeOfEncode(c.utf8(value));
    if value == "" {
      SignatureDotless(c, value, secret);
      LastDotOf("", Sign(c, value, secret));
      assert signed == "" + "." + Sign(c, value, secret);
    } else {
      hide Base64Url, FromBase64Url, ReadSignedCookieValue;
      assert Carries(c, signed, secret, value, payload);
      VerifiesExactly(c, signed, secret, value);
    }
  }

  // ----- the Cookie header ----------------------------------------------------------------------

  datatype UriCodec = UriCodec(encode: string -> string, decode: string -> Option<string>)

  /** Unreserved text is its own encoding, and text without `%` decodes to itself. */
  ghost predicate UriLaw(u: UriCodec) {
    && (forall s :: AllUnreserved(s) ==> u.encode(s) == s)
    && (forall s :: '%' !in s ==> u.decode(s) == Some(s))
  }

  const SHOP_COOKIE := "shop_user_id"

  /** Names every JavaScript object answers `in` for. */
  predicate Inherited(name: string) {
    name in ["constructor", "hasOwnProperty", "isPrototypeOf", "propertyIsEnumerable", "toLocaleString", "toString",
             "valueOf", "__proto__", "__defineGetter__", "__defineSetter__", "__lookupGetter__", "__lookupSetter__"]
  }

  /** `indexOf("=")`; the length when there is none. */
  function EqualsAt(s: string): (i: nat)
    ensures i <= |s| && (i < |s| ==> s[i] == '=')
  {
    if s == "" || s[0] == '=' then 0 else 1 + EqualsAt(s[1..])
  }

  /** The name and decoded value of one pair; `None` for one the parser skips. */
  function PairOf(u: UriCodec, part: string): Option<(string, string)> {
    var eq := EqualsAt(part);
    if eq == |part| || eq < 1 then None
    else
      var name := Trim(part[..eq]);
      if name == "" || Inherited(name) then None
      else match u.decode(Trim(part[eq + 1..])) case None => None case Some(value) => Some((name, value))
  }

  /** The value of the first pair with this name. */
  function First(u: UriCodec, parts: seq<string>, name: string): Option<string> {
    if parts == [] then None
    else
      var earlier := First(u, parts[..|parts| - 1], name);
      var pair := PairOf(u, parts[|parts| - 1]);
      if earlier.Some? then earlier else if pair.Some? && pair.value.0 == name then Some(pair.value.1) else None
  }

  /** The first pair of every readable name, and no other. */
  ghost predicate Jar(u: UriCodec, parts: seq<string>, jar: map<string, string>) {
    forall name :: (if name in jar then Some(jar[name]) else None) == First(u, parts, name)
  }

  lemma EmptyJar(u: UriCodec)
    ensures Jar(u, [], map[])
  {
  }

  lemma JarAdd(u: UriCodec, parts: seq<string>, part: string, jar: map<string, string>)
    requires Jar(u, parts, jar)
    ensures match PairOf(u, part)
            case None => Jar(u, parts + [part], jar)
            case Some(p) => Jar(u, parts + [part], if p.0 in jar then jar else jar[p.0 := p.1])
  {
    hide PairOf;
    var all := parts + [part];
    assert all[..|all| - 1] == parts;
    assert forall name :: (if name in jar then Some(jar[name]) else None) == First(u, parts, name);
  }

  method ParseCookieHeader(u: UriCodec, header: Option<string>) returns (jar: map<string, string>)
    ensures header.None? ==> jar == map[]
    ensures header.Some? ==> Jar(u, Split(header.value, ";"), jar)
  {
    hide Jar, First, Trim, EqualsAt, Inherited, Split;
    jar := map[];
    if header.None? { return; }
    var parts := Split(header.value, ";");
    EmptyJar(u);
    for i := 0 to |parts|
      invariant Jar(u, parts[..i], jar)
    {
      assert parts[..i + 1] == parts[..i] + [parts[i]];
      JarAdd(u, parts[..i], parts[i], jar);
      var part := parts[i];
      var eq := EqualsAt(part);
      if eq == |part| || eq < 1 { continue; }
      var name := Trim(part[..eq]);
      if name == "" || Inherited(name) || name in jar { continue; }
      var value := u.decode(Trim(part[eq + 1..]));
      if value.Some? { jar := jar[name := value.value]; }
    }
    assert parts[..|parts|] == parts;
  }

  function VisitorIdFrom(c: Codec, u: UriCodec, header: string, secret: string): Option<string> {
    ReadSignedCookieValue(c, First(u, Split(header, ";"), SHOP_COOKIE), secret)
  }

  /** The visitor a request carries, by way of the parsed jar. */
  method ReadVisitorId(c: Codec, u: UriCodec, header: Option<string>, secret: string) returns (id: Option<string>)
    ensures id == if header.None? then None else VisitorIdFrom(c, u, header.value, secret)
  {
    hide First;
    var jar := ParseCookieHeader(u, header);
    if SHOP_COOKIE !in jar { return None; }
    id := ReadSignedCookieValue(c, Some(jar[SHOP_COOKIE]), secret);
  }

  /** The pair of the Set-Cookie line, as the browser sends it back. */
  function IdentityPair(c: Codec, u: UriCodec, value: string, secret: string): string {
    SHOP_COOKIE + "=" + u.encode(SignCookieValue(c, value, secret))
  }

  lemma {:induction false} EqualsOf(a: string, b: string)
    requires '=' !in a
    ensures EqualsAt(a + "=" + b) == |a|
  {
    if a != "" {
      EqualsOf(a[1..], b);
      assert (a + "=" + b)[1..] == a[1..] + "=" + b;
    }
  }

  lemma BlankHasNoEquals(s: string)
    requires Blank(s)
    ensures '=' !in s
  {
    assert forall i :: 0 <= i < |s| ==> s[i] != '=';
  }

  lemma PaddedPair(u: UriCodec, lead: string, name: string, value: string, trail: string)
    requires Blank(lead) && Blank(trail) && Tight(name) && Tight(value) && '=' !in name && !Inherited(name)
    ensures PairOf(u, lead + (name + "=" + value) + trail)
         == match u.decode(value) case None => None case Some(v) => Some((name, v))
  {
    var part := lead + (name + "=" + value) + trail;
    assert part == (lead + name) + "=" + (value + trail);
    BlankHasNoEquals(lead);
    EqualsOf(lead + name, value + trail);
    assert part[..|lead + name|] == lead + name + "";
    assert part[|lead + name| + 1..] == "" + value + trail;
    hide Trim, IsSpace, Blank;
    TrimPadded(lead, name, "");
    TrimPadded("", value, trail);
  }

  /** A part is read exactly when it has an equals sign, the trimmed text before the first one is a name
      no object answers for by itself, and the trimmed text after it decodes. */
  lemma PairExactly(u: UriCodec, part: string, name: string, value: string)
    ensures PairOf(u, part) == Some((name, value))
       <==> exists before, after :: part == before + "=" + after && '=' !in before
              && name == Trim(before) && name != "" && !Inherited(name) && u.decode(Trim(after)) == Some(value)
  {
    hide Trim, Inherited;
    var eq := EqualsAt(part);
    EqualsFirst(part);
    if PairOf(u, part) == Some((name, value)) {
      assert part == part[..eq] + "=" + part[eq + 1..];
    }
    if before, after :| part == before + "=" + after && '=' !in before
                        && name == Trim(before) && name != "" && !Inherited(name) && u.decode(Trim(after)) == Some(value) {
      EqualsOf(before, after);
      assert part[..eq] == before && part[eq + 1..] == after;
      TrimEmpty();
    }
  }

  lemma {:induction false} EqualsFirst(s: string)
    ensures '=' !in s[..EqualsAt(s)]
  {
    if s != "" && s[0] != '=' {
      EqualsFirst(s[1..]);
      assert s[..EqualsAt(s)] == [s[0]] + s[1..][..EqualsAt(s[1..])];
    }
  }

  lemma TrimEmpty()
    ensures Trim("") == ""
  {
  }

  lemma {:induction false} FirstAt(u: UriCodec, parts: seq<string>, i: nat, name: string)
    requires i < |parts| && First(u, parts[..i], name).None?
    requires PairOf(u, parts[i]).Some? && PairOf(u, parts[i]).value.0 == name
    ensures First(u, parts, name) == Some(PairOf(u, parts[i]).value.1)
    decreases |parts|
  {
    hide PairOf;
    if i < |parts| - 1 {
      assert parts[..|parts| - 1][..i] == parts[..i];
      FirstAt(u, parts[..|parts| - 1], i, name);
    }
  }

  /** The identity survives the trip through the browser: any header whose first readable pair
      of that name is the one that was set yields the visitor's id. */
  lemma IdentityRoundTrip(c: Codec, u: UriCodec, value: string, secret: string, header: string, i: nat, lead: string, trail: string)
    requires Faithful(c) && UriLaw(u) && value != ""
    requires var parts := Split(header, ";");
             && i < |parts| && parts[i] == lead + IdentityPair(c, u, value, secret) + trail && Blank(lead) && Blank(trail)
             && First(u, parts[..i], SHOP_COOKIE).None?
    ensures VisitorIdFrom(c, u, header, secret) == Some(value)
  {
    hide First, PairOf, ReadSignedCookieValue, SignCookieValue, Inherited, Split;
    var signed := SignCookieValue(c, value, secret);
    ShopNamePlain();
    SignedIsPlain(c, value, secret);
    PaddedPair(u, lead, SHOP_COOKIE, signed, trail);
    FirstAt(u, Split(header, ";"), i, SHOP_COOKIE);
    SignedReadsBack(c, value, secret);
  }

  lemma ShopNamePlain()
    ensures Tight(SHOP_COOKIE) && '=' !in SHOP_COOKIE && !Inherited(SHOP_COOKIE)
  {
  }

  lemma SignedIsPlain(c: Codec, value: string, secret: string)
    ensures var signed := SignCookieValue(c, value, secret); AllUnreserved(signed) && '%' !in signed && Tight(signed)
  {
    LettersUnreserved(ToSextets(c.utf8(value)));
    LettersUnreserved(ToSextets(c.hmac(c.utf8(value), secret)));
    var signed := SignCookieValue(c, value, secret);
    assert forall i :: 0 <= i < |signed| ==> Unreserved(signed[i]);
    assert forall ch :: Unreserved(ch) ==> !IsSpace(ch) && ch != '%';
  }
}
