/** Authorization code texts: the padded URL-safe base64 of section 5 of RFC 4648, and
    the way internal/service/authorization.go turns a received code into a lookup key. */
module Base64Url {
  import opened Common

  type Byte = n: nat | n < 256

  function Char(v: nat): char
    requires v < 64
  {
    if v < 26 then ('A' as int + v) as char
    else if v < 52 then ('a' as int + v - 26) as char
    else if v < 62 then ('0' as int + v - 52) as char
    else if v == 62 then '-' else '_'
  }

  function Value(c: char): Option<nat> {
    if 'A' <= c <= 'Z' then Some(c as int - 'A' as int)
    else if 'a' <= c <= 'z' then Some(c as int - 'a' as int + 26)
    else if '0' <= c <= '9' then Some(c as int - '0' as int + 52)
    else if c == '-' then Some(62)
    else if c == '_' then Some(63)
    else None
  }

  function Encode(b: seq<Byte>): string {
    if b == [] then ""
    else if |b| == 1 then [Char(b[0] / 4), Char(b[0] % 4 * 16), '=', '=']
    else if |b| == 2 then [Char(b[0] / 4), Char(b[0] % 4 * 16 + b[1] / 16), Char(b[1] % 16 * 4), '=']
    else [Char(b[0] / 4), Char(b[0] % 4 * 16 + b[1] / 16), Char(b[1] % 16 * 4 + b[2] / 64), Char(b[2] % 64)]
         + Encode(b[3..])
  }

  /** The bytes of one group of four characters, with padding only at the end. */
  function DecodeGroup(g: string, last: bool): Option<seq<Byte>>
    requires |g| == 4
  {
    match (Value(g[0]), Value(g[1]), Value(g[2]), Value(g[3]))
    case (Some(p), Some(q), Some(r), Some(t)) => Some([First(p, q), Second(q, r), Third(r, t)])
    case (Some(p), Some(q), Some(r), None) =>
      if last && g[3] == '=' then Some([First(p, q), Second(q, r)]) else None
    case (Some(p), Some(q), None, None) =>
      if last && g[2] == '=' && g[3] == '=' then Some([First(p, q)]) else None
    case _ => None
  }

  function First(p: nat, q: nat): Byte { (p * 4 + q / 16) % 256 }
  function Second(q: nat, r: nat): Byte { (q * 16 + r / 4) % 256 }
  function Third(r: nat, t: nat): Byte { (r * 64 + t) % 256 }

  function Decode(s: string): Option<seq<Byte>> {
    if s == "" then Some([])
    else if |s| < 4 then None
    else
      match (DecodeGroup(s[..4], |s| == 4), Decode(s[4..]))
      case (Some(g), Some(rest)) => Some(g + rest)
      case _ => None
  }

  predicate InAlphabet(c: char) {
    Value(c).Some?
  }

  lemma ValueOfChar(v: nat)
    requires v < 64
    ensures Value(Char(v)) == Some(v) && Char(v) != '='
  {
  }

  /** Cutting 24 bits into four groups of six and back. */
  lemma Regroup(x: Byte, y: Byte, z: Byte)
    ensures var p, q, r := x % 4 * 16 + y / 16, y % 16 * 4 + z / 64, z % 64;
            && x / 4 < 64 && p < 64 && q < 64 && r < 64
            && First(x / 4, p) == x && Second(p, q) == y && Third(q, r) == z
  {
    var p, q := x % 4 * 16 + y / 16, y % 16 * 4 + z / 64;
    assert p / 16 == x % 4 && p % 16 == y / 16;
    assert q / 4 == y % 16 && q % 4 == z / 64;
    assert p * 16 + q / 4 == (x % 4) * 256 + y;
    assert q * 64 + z % 64 == (y % 16) * 256 + z;
  }

  lemma GroupOfThree(x: Byte, y: Byte, z: Byte, last: bool)
    ensures DecodeGroup([Char(x / 4), Char(x % 4 * 16 + y / 16), Char(y % 16 * 4 + z / 64), Char(z % 64)], last)
            == Some([x, y, z])
  {
    Regroup(x, y, z);
    var p, q := x % 4 * 16 + y / 16, y % 16 * 4 + z / 64;
    CharsDecode(x / 4, p, q, z % 64, last);
  }

  lemma GroupOfTwo(x: Byte, y: Byte)
    ensures DecodeGroup([Char(x / 4), Char(x % 4 * 16 + y / 16), Char(y % 16 * 4), '='], true) == Some([x, y])
  {
    Regroup(x, y, 0);
    var p, q := x % 4 * 16 + y / 16, y % 16 * 4;
    CharsDecode(x / 4, p, q, 0, true);
  }

  lemma GroupOfOne(x: Byte)
    ensures DecodeGroup([Char(x / 4), Char(x % 4 * 16), '=', '='], true) == Some([x])
  {
    Regroup(x, 0, 0);
    CharsDecode(x / 4, x % 4 * 16, 0, 0, true);
  }

  lemma CharsDecode(p: nat, q: nat, r: nat, t: nat, last: bool)
    requires p < 64 && q < 64 && r < 64 && t < 64
    ensures DecodeGroup([Char(p), Char(q), Char(r), Char(t)], last) == Some([First(p, q), Second(q, r), Third(r, t)])
    ensures DecodeGroup([Char(p), Char(q), Char(r), '='], true) == Some([First(p, q), Second(q, r)])
    ensures DecodeGroup([Char(p), Char(q), '=', '='], true) == Some([First(p, q)])
  {
    ValueOfChar(p);
    ValueOfChar(q);
    ValueOfChar(r);
    ValueOfChar(t);
  }

  /** Different bytes have different texts: decoding gives the bytes back. */
  lemma {:induction false} DecodeEncode(b: seq<Byte>)
    ensures Decode(Encode(b)) == Some(b)
  {
    if |b| >= 3 {
      GroupOfThree(b[0], b[1], b[2], |b| == 3);
      DecodeEncode(b[3..]);
      TextLength(b[3..]);
      DecodeCons(Encode(b)[..4], Encode(b[3..]), |b| == 3);
      assert b == [b[0], b[1], b[2]] + b[3..];
    } else {
      ShortDecodes(b);
    }
  }

  lemma ShortDecodes(b: seq<Byte>)
    requires |b| < 3
    ensures Decode(Encode(b)) == Some(b)
  {
    if b != [] {
      ShortGroup(b);
      DecodeLast(Encode(b));
    }
  }

  lemma ShortGroup(b: seq<Byte>)
    requires 0 < |b| < 3
    ensures |Encode(b)| == 4 && DecodeGroup(Encode(b), true) == Some(b)
  {
    if |b| == 2 {
      GroupOfTwo(b[0], b[1]);
      assert b == [b[0], b[1]];
    } else {
      GroupOfOne(b[0]);
      assert b == [b[0]];
    }
  }

  lemma DecodeLast(g: string)
    requires |g| == 4
    ensures Decode(g) == DecodeGroup(g, true)
  {
    assert g[..4] == g && g[4..] == "";
    assert Decode("") == Some([]);
    if DecodeGroup(g, true).Some? {
      assert DecodeGroup(g, true).value + [] == DecodeGroup(g, true).value;
    }
  }

  lemma DecodeCons(g: string, rest: string, last: bool)
    requires |g| == 4 && last == (rest == "")
    ensures Decode(g + rest) == match (DecodeGroup(g, last), Decode(rest))
                                case (Some(x), Some(y)) => Some(x + y)
                                case _ => None
  {
    assert (g + rest)[..4] == g && (g + rest)[4..] == rest;
  }

  lemma {:induction false} TextLength(b: seq<Byte>)
    ensures |Encode(b)| == (|b| + 2) / 3 * 4
  {
    if |b| >= 3 { TextLength(b[3..]); }
  }

  /** Texts that section 10 of RFC 4648 gives, and one with both characters that the
      URL-safe alphabet of its section 5 has of its own. */
  lemma KnownTexts()
    ensures Encode([102]) == "Zg==" && Encode([102, 111]) == "Zm8=" && Encode([102, 111, 111]) == "Zm9v"
    ensures Encode([251, 255, 191]) == "-_-_"
  {
  }

  /** Every character that the bytes decide is of the alphabet; the rest are pads. */
  lemma {:induction false} TextShape(b: seq<Byte>, i: nat)
    requires i < |Encode(b)|
    ensures if i < (|b| * 8 + 5) / 6 then InAlphabet(Encode(b)[i]) else Encode(b)[i] == '='
  {
    if |b| >= 3 && i >= 4 {
      TextShape(b[3..], i - 4);
    } else {
      assert forall v: nat | v < 64 :: InAlphabet(Char(v));
    }
  }

  // ---------- percent-encoding ----------

  function Hex(c: char): Option<nat> {
    if '0' <= c <= '9' then Some(c as int - '0' as int)
    else if 'A' <= c <= 'F' then Some(c as int - 'A' as int + 10)
    else if 'a' <= c <= 'f' then Some(c as int - 'a' as int + 10)
    else None
  }

  /** Go's url.QueryUnescape. */
  function Unescape(s: string): Option<string> {
    if s == "" then Some("")
    else if s[0] == '%' then
      if |s| < 3 || Hex(s[1]).None? || Hex(s[2]).None? then None
      else
        match Unescape(s[3..])
        case None => None
        case Some(r) => Some([(Hex(s[1]).value * 16 + Hex(s[2]).value) as char] + r)
    else
      match Unescape(s[1..])
      case None => None
      case Some(r) => Some([if s[0] == '+' then ' ' else s[0]] + r)
  }

  /** t spells s: each character of s stands for itself or as a percent escape. */
  ghost predicate Spells(t: string, s: string) {
    if s == "" then t == ""
    else
      || (t != "" && t[0] == s[0] && t[0] != '%' && t[0] != '+' && Spells(t[1..], s[1..]))
      || (|t| >= 3 && t[0] == '%' && Hex(t[1]).Some? && Hex(t[2]).Some?
          && Hex(t[1]).value * 16 + Hex(t[2]).value == s[0] as int && Spells(t[3..], s[1..]))
  }

  lemma {:induction false} UnescapeSpelling(t: string, s: string)
    requires ' ' !in s
    ensures Unescape(t) == Some(s) <==> Spells(t, s)
  {
    if s != "" && t != "" {
      UnescapeSpelling(t[1..], s[1..]);
      if |t| >= 3 { UnescapeSpelling(t[3..], s[1..]); }
      assert s == [s[0]] + s[1..];
    }
  }

  /** processAuthorizationCode: unescape, then add the pad when it is missing. */
  function LookupKey(received: string): Option<string> {
    match Unescape(received)
    case None => None
    case Some(s) => Some(if s != "" && s[|s| - 1] == '=' then s else s + "=")
  }

  /** The text of a 32-byte code: 43 characters of the alphabet and one pad. */
  lemma CodeText(b: seq<Byte>)
    requires |b| == 32
    ensures |Encode(b)| == 44 && Encode(b)[43] == '='
    ensures forall i :: 0 <= i < 43 ==> InAlphabet(Encode(b)[i])
  {
    TextLength(b);
    forall i: nat | i < 44 ensures if i < 43 then InAlphabet(Encode(b)[i]) else Encode(b)[i] == '=' {
      TextShape(b, i);
    }
  }

  /** The stored text is looked up exactly when the received code spells it, raw or
      percent-encoded in any way, with or without its pad. */
  lemma CodeRecovered(b: seq<Byte>, received: string)
    requires |b| == 32
    ensures |Encode(b)| == 44
    ensures LookupKey(received) == Some(Encode(b))
            <==> Spells(received, Encode(b)) || Spells(received, Encode(b)[..43])
  {
    CodeText(b);
    var s := Encode(b);
    UnescapeSpelling(received, s);
    UnescapeSpelling(received, s[..43]);
    assert s == s[..43] + "=";
  }

  /** A code text spells itself, so sending it raw always works. */
  lemma {:induction false} AlphabetSpellsItself(s: string)
    requires forall i :: 0 <= i < |s| ==> InAlphabet(s[i]) || s[i] == '='
    ensures Spells(s, s)
  {
    if s != "" { AlphabetSpellsItself(s[1..]); }
  }
}
