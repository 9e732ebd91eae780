/**
 Credentials inside an RTSP URL: the encoder that a server prints them with, the decoder, and the
 parsing that the RTSP client does when it is constructed.
 */
module Credentials {
  import opened Bytes
  import opened Hex

  /** C++ strings hold octets. */
  ghost predicate IsOctets(s: string) {
    forall i :: 0 <= i < |s| ==> s[i] as int < 256
  }

  predicate Unreserved(c: char) {
    || '0' <= c <= '9' || 'A' <= c <= 'Z' || 'a' <= c <= 'z'
    || c == '-' || c == '_' || c == '.' || c == '~'
  }

  // --- Encoding -----------------------------------------------------------------------------

  /** A width of two without a fill character pads a single digit with a space. */
  function EncodeChar(c: char): string
    requires c as int < 256
  {
    var n := c as int;
    if Unreserved(c) then [c]
    else if n < 16 then ['%', ' ', UpperDigit(n)]
    else ['%', UpperDigit(n / 16), UpperDigit(n % 16)]
  }

  function Encoded(s: string): string
    requires IsOctets(s)
    decreases |s|
  {
    if s == "" then ""
    else Encoded(s[..|s| - 1]) + EncodeChar(s[|s| - 1])
  }

  method UrlEncode(s: string) returns (out: string)
    requires IsOctets(s)
    ensures out == Encoded(s)
  {
    out := "";
    for i := 0 to |s|
      invariant IsOctets(s[..i]) && out == Encoded(s[..i])
    {
      assert s[..i + 1][..i] == s[..i];
      if Unreserved(s[i]) {
        out := out + [s[i]];
      } else {
        var n := s[i] as int;
        out := out + ['%'] + (if n < 16 then [' ', UpperDigit(n)] else [UpperDigit(n / 16), UpperDigit(n % 16)]);
      }
    }
    assert s[..|s|] == s;
  }

  // --- Decoding -----------------------------------------------------------------------------

  /** What an escape decodes to: nothing if its two characters are not hexadecimal digits. */
  function Escape(hi: char, lo: char): string {
    if Digit(hi).Some? && Digit(lo).Some? then [(Digit(hi).value * 16 + Digit(lo).value) as char] else ""
  }

  function Prepend(out: string, rest: Option<string>): Option<string> {
    if rest == None then None else Some(out + rest.value)
  }

  lemma PrependTwice(a: string, b: string, rest: Option<string>)
    ensures Prepend(a + b, rest) == Prepend(a, Prepend(b, rest))
    ensures Prepend("", rest) == rest
  {
    if rest.Some? {
      AppendAssociates(a, b, rest.value);
      AppendNothing(rest.value);
    }
  }

  /** `None` if the text ends inside an escape. */
  function DecodeRest(s: string): Option<string>
    decreases |s|
  {
    if s == "" then Some("")
    else if s[0] != '%' then Prepend([s[0]], DecodeRest(s[1..]))
    else if |s| < 3 then None
    else Prepend(Escape(s[1], s[2]), DecodeRest(s[3..]))
  }

  function Decoded(s: string): string {
    if DecodeRest(s) == None then "" else DecodeRest(s).value
  }

  lemma EscapeByHex(hex: string, data: seq<octet>)
    requires |hex| == 2 && |data| == 1
    ensures ValidDigits(hex) == 2 ==>
              && Digit(hex[0]).Some? && Digit(hex[1]).Some?
              && Accumulated(Cleared(data, 1), hex, 2) == [Digit(hex[0]).value * 16 + Digit(hex[1]).value]
    ensures ValidDigits(hex) != 2 ==> Digit(hex[0]) == None || Digit(hex[1]) == None
  {
    if ValidDigits(hex) == 2 {
      var hi, lo, cleared := Digit(hex[0]).value, Digit(hex[1]).value, Cleared(data, 1);
      var b: octet := hi * 16 + lo;
      assert b / 16 == hi && b % 16 == lo;
      assert cleared == [0] && Accumulated(cleared, hex, 0) == cleared;
      PairFills(cleared, hex, 0, b);
      assert cleared[0 := b] == [b];
    }
  }

  /** One escape: the two characters parsed as one octet, or dropped. */
  method DecodeEscape(hex: string) returns (out: string)
    requires |hex| == 2
    ensures out == Escape(hex[0], hex[1])
  {
    var val := new octet[1];
    ghost var garbage := val[..];
    var ok := FromHex(hex, val);
    EscapeByHex(hex, garbage);
    if ok {
      assert val[..] == [val[0]];
      out := [val[0] as char];
    } else {
      out := "";
    }
  }

  method UrlDecode(s: string) returns (out: string)
    ensures out == Decoded(s)
  {
    out := "";
    var i := 0;
    PrependTwice("", "", DecodeRest(s));
    assert s[0..] == s;
    while i < |s|
      invariant 0 <= i <= |s|
      invariant DecodeRest(s) == Prepend(out, DecodeRest(s[i..]))
    {
      ghost var rest := s[i..];
      if s[i] == '%' {
        if i + 1 == |s| || i + 2 == |s| {
          return "";
        }
        var val := DecodeEscape(s[i + 1..i + 3]);
        assert rest[3..] == s[i + 3..];
        PrependTwice(out, val, DecodeRest(s[i + 3..]));
        out := out + val;
        i := i + 3;
      } else {
        assert rest[1..] == s[i + 1..];
        PrependTwice(out, [s[i]], DecodeRest(s[i + 1..]));
        out := out + [s[i]];
        i := i + 1;
      }
    }
    AppendNothing(out);
  }

  // --- Decoding any text --------------------------------------------------------------------

  /** Characters before the first escape stay as they are. */
  lemma {:induction false} DecodePlain(a: string, rest: string)
    requires '%' !in a
    ensures DecodeRest(a + rest) == Prepend(a, DecodeRest(rest))
    decreases |a|
  {
    if a == "" {
      AppendNothing(rest);
      PrependTwice("", "", DecodeRest(rest));
    } else {
      assert (a + rest)[0] == a[0] && (a + rest)[1..] == a[1..] + rest;
      DecodePlain(a[1..], rest);
      PrependTwice([a[0]], a[1..], DecodeRest(rest));
      assert [a[0]] + a[1..] == a;
    }
  }

  /**
   Decoding any text, from its first escape on: two hexadecimal digits of either case give the octet that
   they write, any two other characters are dropped with the escape, and a text that ends inside an escape
   gives nothing at all. A text without escapes stays as it is.
   */
  lemma DecodesByParts(a: string, hi: char, lo: char, rest: string)
    requires '%' !in a
    ensures Decoded(a) == a
    ensures DecodeRest(a + ['%', hi, lo] + rest)
         == if Digit(hi).Some? && Digit(lo).Some?
            then Prepend(a + [(Digit(hi).value * 16 + Digit(lo).value) as char], DecodeRest(rest))
            else Prepend(a, DecodeRest(rest))
    ensures Decoded(a + ['%']) == "" && Decoded(a + ['%', hi]) == ""
  {
    var escape := ['%', hi, lo] + rest;
    AppendNothing(a);
    DecodePlain(a, "");
    DecodePlain(a, ['%']);
    DecodePlain(a, ['%', hi]);
    DecodePlain(a, escape);
    AppendAssociates(a, ['%', hi, lo], rest);
    assert escape[3..] == rest;
    PrependTwice(a, Escape(hi, lo), DecodeRest(rest));
    PrependTwice("", "", DecodeRest(rest));
  }

  // --- Encoding then decoding ---------------------------------------------------------------

  lemma {:induction false} DecodeAppend(s: string, t: string)
    requires DecodeRest(s).Some? && DecodeRest(t).Some?
    ensures DecodeRest(s + t) == Some(DecodeRest(s).value + DecodeRest(t).value)
    decreases |s|
  {
    if s == "" {
      AppendNothing(t);
      AppendNothing(DecodeRest(t).value);
    } else if s[0] == '%' {
      assert (s + t)[3..] == s[3..] + t;
      DecodeAppend(s[3..], t);
      AppendAssociates(Escape(s[1], s[2]), DecodeRest(s[3..]).value, DecodeRest(t).value);
    } else {
      assert (s + t)[1..] == s[1..] + t;
      DecodeAppend(s[1..], t);
      AppendAssociates([s[0]], DecodeRest(s[1..]).value, DecodeRest(t).value);
    }
  }

  /** The characters from 0x10 on. */
  function Printable(s: string): string
    decreases |s|
  {
    if s == "" then ""
    else Printable(s[..|s| - 1]) + if s[|s| - 1] as int < 16 then "" else [s[|s| - 1]]
  }

  lemma DecodeEncodedChar(c: char)
    requires c as int < 256
    ensures DecodeRest(EncodeChar(c)) == Some(if c as int < 16 then "" else [c])
  {
    var e := EncodeChar(c);
    assert DecodeRest("") == Some("");
    AppendNothing("");
    AppendNothing([c]);
    if Unreserved(c) {
      assert e[1..] == "";
    } else {
      assert e[3..] == "";
      if c as int < 16 {
        assert Digit(e[1]) == None;
      } else {
        assert Escape(e[1], e[2]) == [c];
      }
    }
  }

  /** Decoding what was encoded loses exactly the characters below 0x10. */
  lemma {:induction false} DecodeEncoded(s: string)
    requires IsOctets(s)
    ensures DecodeRest(Encoded(s)) == Some(Printable(s))
    decreases |s|
  {
    if s != "" {
      var front, c := s[..|s| - 1], s[|s| - 1];
      DecodeEncoded(front);
      DecodeEncodedChar(c);
      DecodeAppend(Encoded(front), EncodeChar(c));
    }
  }

  predicate AllPrintable(s: string) {
    forall i :: 0 <= i < |s| ==> s[i] as int >= 16
  }

  lemma {:induction false} PrintableIff(s: string)
    ensures |Printable(s)| <= |s|
    ensures AllPrintable(s) ==> Printable(s) == s
    ensures !AllPrintable(s) ==> |Printable(s)| < |s|
    decreases |s|
  {
    if s != "" {
      var front := s[..|s| - 1];
      PrintableIff(front);
      assert s == front + [s[|s| - 1]];
    }
  }

  /** Section 2.3 of RFC 3986: letters, digits and four marks need no escape. */
  ghost predicate NeedsNoEscape(c: char) {
    'A' <= c <= 'Z' || 'a' <= c <= 'z' || '0' <= c <= '9' || c in "-_.~"
  }

  lemma EncodeCharGrows(c: char)
    requires c as int < 256
    ensures if NeedsNoEscape(c) then EncodeChar(c) == [c] else |EncodeChar(c)| == 3
  {
  }

  lemma {:induction false} EncodedUnchangedIff(s: string)
    requires IsOctets(s)
    ensures |Encoded(s)| >= |s|
    ensures Encoded(s) == s <==> forall c :: c in s ==> NeedsNoEscape(c)
    decreases |s|
  {
    if s != "" {
      var front, c := s[..|s| - 1], s[|s| - 1];
      assert s == front + [c];
      EncodedUnchangedIff(front);
      EncodeCharGrows(c);
      if NeedsNoEscape(c) {
        SameEnd(Encoded(front), front, c);
        assert forall d :: d in s <==> d in front || d == c;
      } else {
        assert c in s && |Encoded(s)| > |s|;
      }
    }
  }

  lemma SameEnd(s: string, t: string, c: char)
    ensures s + [c] == t + [c] <==> s == t
  {
    assert (s + [c])[..|s|] == s && (t + [c])[..|t|] == t;
  }

  /** Any other character from 0x10 on is escaped in upper case. */
  lemma EncodedEscape(s: string, c: char)
    requires IsOctets(s) && 16 <= c as int < 256
    requires !NeedsNoEscape(c)
    ensures Encoded(s + [c])
         == Encoded(s) + ['%', "0123456789ABCDEF"[c as int / 16], "0123456789ABCDEF"[c as int % 16]]
  {
    assert (s + [c])[..|s|] == s;
    UpperDigitIs(c as int / 16);
    UpperDigitIs(c as int % 16);
  }

  lemma {:induction false} EncodedIsClean(s: string)
    requires IsOctets(s)
    ensures ':' !in Encoded(s) && '@' !in Encoded(s)
    decreases |s|
  {
    if s != "" {
      var front, c := s[..|s| - 1], s[|s| - 1];
      EncodedIsClean(front);
      EncodedCharIsClean(c);
    }
  }

  lemma EncodedCharIsClean(c: char)
    requires c as int < 256
    ensures ':' !in EncodeChar(c) && '@' !in EncodeChar(c)
  {
    assert Digit(':') == None && Digit('@') == None;
  }

  // --- The URL ------------------------------------------------------------------------------

  const SIZE_MODULUS: nat := 0x1_0000_0000_0000_0000

  /** `std::string::find`; the length of the string stands for `npos`. */
  function FindChar(s: string, c: char, from: nat): (p: nat)
    ensures p == |s| || (from <= p < |s| && s[p] == c)
    decreases |s| - from
  {
    if from >= |s| then |s| else if s[from] == c then from else FindChar(s, c, from + 1)
  }

  lemma {:induction false} FindsAt(s: string, c: char, from: nat, p: nat)
    requires from <= p < |s| && s[p] == c && c !in s[from..p]
    ensures FindChar(s, c, from) == p
    decreases p - from
  {
    if from < p {
      assert s[from..p][0] == s[from];
      assert s[from..p][1..] == s[from + 1..p];
      FindsAt(s, c, from + 1, p);
    }
  }

  /** `std::string::substr` with a count computed without a sign; `None` is its exception. */
  function Substr(s: string, pos: nat, count: int): Option<string> {
    var n := count % SIZE_MODULUS;
    if pos > |s| then None
    else if pos + n <= |s| then Some(s[pos..pos + n])
    else Some(s[pos..])
  }

  datatype Client = Client(url: string, username: string, password: string)

  /** How a configured URL is cut up, before decoding; `Throws` is the exception of `substr`. */
  datatype Pieces = Plain | Throws | Pieces(username: string, password: string, rest: string)

  function CutUrl(url: string): Pieces {
    var at := FindChar(url, '@', 0);
    if at == |url| then Plain
    else
      var first := FindChar(url, ':', 0);
      var col := FindChar(url, ':', if first == |url| then 0 else first + 1);
      if col == |url| then Plain else CutAround(url, col, at)
  }

  function CutAround(url: string, col: nat, at: nat): Pieces
    requires at < |url|
  {
    var username, password := Substr(url, 7, col - 7), Substr(url, col + 1, at - col - 1);
    if username == None || password == None then Throws
    else Pieces(username.value, password.value, url[at + 1..])
  }

  /** What the constructor makes of a configured URL. */
  function ParseUrl(url: string): Option<Client> {
    match CutUrl(url)
    case Plain => Some(Client(url, "", ""))
    case Throws => None
    case Pieces(username, password, rest) => Some(Client("rtsp://" + rest, Decoded(username), Decoded(password)))
  }

  /** The URL that the server prints. */
  function PrintUrl(user: string, password: string, host: string): string
    requires IsOctets(user) && IsOctets(password)
  {
    "rtsp://" + Encoded(user) + ":" + Encoded(password) + "@" + host
  }

  /** A text cut in three. */
  lemma Middle(a: string, b: string, c: string)
    ensures var s := a + b + c;
            s == a + (b + c) && s[..|a|] == a && s[|a|..|a| + |b|] == b && s[|a| + |b|..] == c
  {
  }

  lemma FindIn(a: string, c: char, rest: string, from: nat)
    requires from <= |a| && c !in a[from..]
    ensures FindChar(a + [c] + rest, c, from) == |a|
  {
    var s := a + [c] + rest;
    Middle(a, [c], rest);
    assert s[|a|] == c && s[from..|a|] == a[from..];
    FindsAt(s, c, from, |a|);
  }

  /** The first two colons of a URL that starts with "rtsp://". */
  lemma Colons(a: string, rest: string)
    requires ':' !in a
    ensures var url := "rtsp://" + a + ":" + rest;
            FindChar(url, ':', 0) == 4 && FindChar(url, ':', 5) == 7 + |a|
  {
    var url, scheme, tail := "rtsp://" + a + ":" + rest, "rtsp", "//" + a + ":" + rest;
    assert "rtsp://" == scheme + ":" + "//";
    AppendAssociates(scheme + ":", "//", a);
    AppendAssociates(scheme + ":", "//" + a, ":");
    AppendAssociates(scheme + ":", "//" + a + ":", rest);
    assert url == scheme + [':'] + tail;
    FindIn(scheme, ':', tail, 0);
    assert ("rtsp://" + a)[5..] == "//" + a;
    FindIn("rtsp://" + a, ':', rest, 5);
  }

  lemma Separators(u: string, p: string, host: string)
    requires ':' !in u && '@' !in u && ':' !in p && '@' !in p
    ensures var url := "rtsp://" + u + ":" + p + "@" + host;
            var col := 7 + |u|;
            var at := col + 1 + |p|;
            && FindChar(url, '@', 0) == at < |url|
            && FindChar(url, ':', 0) == 4
            && FindChar(url, ':', 5) == col
            && url[7..col] == u && url[col + 1..at] == p && url[at + 1..] == host
  {
    var before, rest := "rtsp://" + u + ":", p + "@" + host;
    var url := before + p + "@" + host;
    AppendAssociates(before, p, "@");
    AppendAssociates(before, p + "@", host);
    assert url == "rtsp://" + u + ":" + rest;
    Colons(u, rest);
    AppendAssociates("rtsp://" + u, ":", rest);
    Middle("rtsp://", u, ":" + rest);
    AppendAssociates(before + p, "@", host);
    Middle(before, p, "@" + host);
    Middle(before + p, "@", host);
    assert '@' !in before + p;
    FindIn(before + p, '@', host, 0);
  }

  lemma SubstrWithin(s: string, pos: nat, n: nat)
    requires pos + n <= |s| && n < SIZE_MODULUS
    ensures Substr(s, pos, n) == Some(s[pos..pos + n])
  {
  }

  lemma CutWith(url: string, first: nat, col: nat, at: nat, username: string, password: string)
    requires FindChar(url, '@', 0) == at < |url|
    requires FindChar(url, ':', 0) == first < |url| && FindChar(url, ':', first + 1) == col < |url|
    requires Substr(url, 7, col - 7) == Some(username) && Substr(url, col + 1, at - col - 1) == Some(password)
    ensures CutUrl(url) == Pieces(username, password, url[at + 1..])
  {
    assert CutUrl(url) == CutAround(url, col, at);
  }

  lemma CutPrinted(u: string, p: string, host: string)
    requires ':' !in u && '@' !in u && ':' !in p && '@' !in p
    requires |u| < SIZE_MODULUS && |p| < SIZE_MODULUS
    ensures CutUrl("rtsp://" + u + ":" + p + "@" + host) == Pieces(u, p, host)
  {
    var url := "rtsp://" + u + ":" + p + "@" + host;
    Separators(u, p, host);
    SubstrWithin(url, 7, |u|);
    SubstrWithin(url, 7 + |u| + 1, |p|);
    CutWith(url, 4, 7 + |u|, 8 + |u| + |p|, u, p);
  }

  lemma ParsePrinted(u: string, p: string, host: string)
    requires ':' !in u && '@' !in u && ':' !in p && '@' !in p
    requires |u| < SIZE_MODULUS && |p| < SIZE_MODULUS
    ensures ParseUrl("rtsp://" + u + ":" + p + "@" + host)
         == Some(Client("rtsp://" + host, Decoded(u), Decoded(p)))
  {
    CutPrinted(u, p, host);
  }

  ghost predicate TwoColons(url: string) {
    exists i, j :: 0 <= i < j < |url| && url[i] == ':' && url[j] == ':'
  }

  lemma {:induction false} FindIsFirst(s: string, c: char, from: nat)
    ensures forall i :: from <= i < FindChar(s, c, from) && i < |s| ==> s[i] != c
    decreases |s| - from
  {
    if from < |s| && s[from] != c {
      FindIsFirst(s, c, from + 1);
    }
  }

  lemma SecondColon(url: string)
    ensures var first := FindChar(url, ':', 0);
            FindChar(url, ':', if first == |url| then 0 else first + 1) < |url| <==> TwoColons(url)
  {
    var first := FindChar(url, ':', 0);
    FindIsFirst(url, ':', 0);
    if first < |url| {
      FindIsFirst(url, ':', first + 1);
    }
  }

  /**
   Any URL: without an '@', or with fewer than two colons, it is taken as it is and without credentials; the
   constructor throws an exception exactly on one that has both but is shorter than "rtsp://".
   */
  lemma ParseUrlCases(url: string)
    ensures '@' !in url || !TwoColons(url) ==> ParseUrl(url) == Some(Client(url, "", ""))
    ensures ParseUrl(url) == None <==> '@' in url && TwoColons(url) && |url| < 7
  {
    FindIsFirst(url, '@', 0);
    SecondColon(url);
  }

  /** The two ways to read a URL with a user and a port. */
  lemma ReadTwice(user: string, host: string, rest: string)
    ensures var url := "rtsp://" + user + "@" + host + ":" + rest;
            url == "rtsp://" + (user + "@" + host) + ":" + rest && url == "rtsp://" + user + "@" + (host + ":" + rest)
  {
    var before := "rtsp://" + user;
    AppendAssociates("rtsp://", user, "@");
    AppendAssociates("rtsp://", user + "@", host);
    AppendAssociates(before + "@", host, ":");
    AppendAssociates(before + "@", host + ":", rest);
  }

  /** Where the user name starts and the password ends. */
  lemma UserAndRest(name: string, rest: string)
    requires ':' !in name
    ensures var url := "rtsp://" + name + ":" + rest;
            && FindChar(url, ':', 0) == 4 && FindChar(url, ':', 5) == 7 + |name| < |url|
            && url[7..7 + |name|] == name && url[8 + |name|..] == rest
  {
    Colons(name, rest);
    AppendAssociates("rtsp://" + name, ":", rest);
    Middle("rtsp://", name, ":" + rest);
    Middle("rtsp://" + name, ":", rest);
  }

  lemma HostAfterAt(before: string, after: string)
    requires '@' !in before
    ensures var url := before + "@" + after;
            FindChar(url, '@', 0) == |before| < |url| && url[|before| + 1..] == after
  {
    Middle(before, "@", after);
    FindIn(before, '@', after, 0);
  }

  lemma CutWithoutPassword(user: string, host: string, rest: string)
    requires ':' !in user && '@' !in user && ':' !in host
    requires 9 + |user| + |host| + |rest| < SIZE_MODULUS
    ensures CutUrl("rtsp://" + user + "@" + host + ":" + rest)
         == Pieces(user + "@" + host, rest, host + ":" + rest)
  {
    var before, name := "rtsp://" + user, user + "@" + host;
    var url := before + "@" + host + ":" + rest;
    var at, col := |before|, 7 + |name|;
    ReadTwice(user, host, rest);
    UserAndRest(name, rest);
    HostAfterAt(before, host + ":" + rest);
    SubstrWithin(url, 7, col - 7);
    SubstrBeyond(url, col + 1, at - col - 1);
    CutWith(url, 4, col, at, name, rest);
  }

  /**
   A user without a password, and a port after the host: the colon before the port is taken for the one
   before the password, so the user name ends with the host and what follows the port is the password.
   */
  lemma UserWithoutPassword(user: string, host: string, rest: string)
    requires ':' !in user && '@' !in user && ':' !in host
    requires 9 + |user| + |host| + |rest| < SIZE_MODULUS
    ensures ParseUrl("rtsp://" + user + "@" + host + ":" + rest)
         == Some(Client("rtsp://" + (host + ":" + rest), Decoded(user + "@" + host), Decoded(rest)))
  {
    CutWithoutPassword(user, host, rest);
  }

  /** A negative count is a very large one. */
  lemma SubstrBeyond(s: string, pos: nat, count: int)
    requires pos <= |s| < SIZE_MODULUS && count < 0 && |s| - pos <= count + SIZE_MODULUS
    ensures Substr(s, pos, count) == Some(s[pos..])
  {
    var n: int := count + SIZE_MODULUS;
    assert count % SIZE_MODULUS == n && s[pos..|s|] == s[pos..];
  }

  /**
   The client recovers from a printed URL the host and the characters of user and password from 0x10
   on: all of both iff neither holds a character below 0x10.
   */
  lemma CredentialRoundTrip(user: string, password: string, host: string)
    requires IsOctets(user) && IsOctets(password)
    requires 3 * (|user| + |password|) < SIZE_MODULUS
    ensures var r := ParseUrl(PrintUrl(user, password, host));
            && r == Some(Client("rtsp://" + host, Printable(user), Printable(password)))
            && (r == Some(Client("rtsp://" + host, user, password)) <==>
                AllPrintable(user) && AllPrintable(password))
  {
    var u, p := Encoded(user), Encoded(password);
    EncodedIsClean(user);
    EncodedIsClean(password);
    EncodedLength(user);
    EncodedLength(password);
    ParsePrinted(u, p, host);
    DecodeEncoded(user);
    DecodeEncoded(password);
    PrintableIff(user);
    PrintableIff(password);
  }

  /** A control character in a user name does get lost. */
  lemma CharacterLost(password: string, host: string)
    requires IsOctets(password) && 3 * (1 + |password|) < SIZE_MODULUS
    ensures var r := ParseUrl(PrintUrl([1 as char], password, host)); r.Some? && r.value.username == ""
  {
    CredentialRoundTrip([1 as char], password, host);
    assert Printable([1 as char]) == "";
  }

  lemma {:induction false} EncodedLength(s: string)
    requires IsOctets(s)
    ensures |Encoded(s)| <= 3 * |s|
    decreases |s|
  {
    if s != "" {
      EncodedLength(s[..|s| - 1]);
    }
  }
}
