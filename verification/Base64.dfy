/** The unpadded "base64url" encoding of sections 3.2 and 5 of RFC 4648. The decoder is the lenient one of Go's
    `RawURLEncoding`: line breaks are skipped and the unused bits of the last symbol are ignored. */
module Base64 {
  import opened Text

  type Sextet = n: nat | n < 64

  predicate IsBytes(s: string) { forall k :: 0 <= k < |s| ==> s[k] < '\U{100}' }

  function Symbol(n: Sextet): char {
    if n < 26 then 'A' + n as char
    else if n < 52 then 'a' + (n - 26) as char
    else if n < 62 then '0' + (n - 52) as char
    else if n == 62 then '-' else '_'
  }

  function SymbolValue(c: char): Option<Sextet> {
    if 'A' <= c <= 'Z' then Some((c - 'A') as nat)
    else if 'a' <= c <= 'z' then Some((c - 'a') as nat + 26)
    else if '0' <= c <= '9' then Some((c - '0') as nat + 52)
    else if c == '-' then Some(62) else if c == '_' then Some(63) else None
  }

  lemma SymbolValueOf(n: Sextet)
    ensures SymbolValue(Symbol(n)) == Some(n)
    ensures !IsSpace(Symbol(n))
  {
  }

  /** Three bytes are four groups of six bits; a shorter tail is padded with zero bits. */
  function Sextets(b: string): (r: seq<Sextet>)
    requires IsBytes(b)
    ensures |r| == (4 * |b| + 2) / 3
  {
    if |b| == 0 then []
    else
      var x := b[0] as nat;
      if |b| == 1 then [x / 4, x % 4 * 16]
      else
        var y := b[1] as nat;
        if |b| == 2 then [x / 4, x % 4 * 16 + y / 16, y % 16 * 4]
        else
          var z := b[2] as nat;
          [x / 4, x % 4 * 16 + y / 16, y % 16 * 4 + z / 64, z % 64] + Sextets(b[3..])
  }

  function Bytes(t: seq<Sextet>): string {
    if |t| < 2 then ""
    else
      var x := (t[0] as nat * 4 + t[1] as nat / 16) as char;
      if |t| == 2 then [x]
      else
        var y := (t[1] as nat % 16 * 16 + t[2] as nat / 4) as char;
        if |t| == 3 then [x, y]
        else [x, y, (t[2] as nat % 4 * 64 + t[3] as nat) as char] + Bytes(t[4..])
  }

  function Encode(b: string): (r: string)
    requires IsBytes(b)
    ensures |r| == (4 * |b| + 2) / 3
  {
    var t := Sextets(b);
    seq(|t|, k requires 0 <= k < |t| => Symbol(t[k]))
  }

  function WithoutBreaks(s: string): string {
    if s == "" then "" else (if s[0] == '\n' || s[0] == '\r' then [] else [s[0]]) + WithoutBreaks(s[1..])
  }

  function Decode(s: string): Option<string> {
    var t := WithoutBreaks(s);
    if |t| % 4 == 1 || exists k :: 0 <= k < |t| && SymbolValue(t[k]).None? then None
    else Some(Bytes(seq(|t|, k requires 0 <= k < |t| => SymbolValue(t[k]).value)))
  }

  lemma {:induction false} BytesSextets(b: string)
    requires IsBytes(b)
    ensures Bytes(Sextets(b)) == b
  {
    if |b| >= 3 {
      var t := Sextets(b);
      var x, y, z := b[0] as nat, b[1] as nat, b[2] as nat;
      assert t[..4] == [x / 4, x % 4 * 16 + y / 16, y % 16 * 4 + z / 64, z % 64];
      assert t[4..] == Sextets(b[3..]);
      BytesSextets(b[3..]);
      ThreeBytes(x, y, z);
      hide Sextets;
      assert Bytes(t) == [b[0], b[1], b[2]] + Bytes(t[4..]);
      assert b == [b[0], b[1], b[2]] + b[3..];
    } else if |b| == 2 {
      ThreeBytes(b[0] as nat, b[1] as nat, 0);
      assert b == [b[0], b[1]];
    } else if |b| == 1 {
      assert b == [b[0]];
    }
  }

  /** The groups of six bits put together again. */
  lemma ThreeBytes(x: nat, y: nat, z: nat)
    requires x < 256 && y < 256 && z < 256
    ensures var p, q, r, s := x / 4, x % 4 * 16 + y / 16, y % 16 * 4 + z / 64, z % 64;
            p * 4 + q / 16 == x && q % 16 * 16 + r / 4 == y && r % 4 * 64 + s == z
  {
  }

  lemma {:induction false} NoBreaks(s: string)
    requires forall k :: 0 <= k < |s| ==> !IsSpace(s[k])
    ensures WithoutBreaks(s) == s
  {
    if s != "" {
      assert !IsSpace(s[0]);
      NoBreaks(s[1..]);
    }
  }

  /** Encoding loses nothing. */
  lemma DecodeEncode(b: string)
    requires IsBytes(b)
    ensures Decode(Encode(b)) == Some(b)
    ensures forall k :: 0 <= k < |Encode(b)| ==> !IsSpace(Encode(b)[k])
  {
    hide Sextets, Bytes;
    var t, s := Sextets(b), Encode(b);
    forall k | 0 <= k < |s|
      ensures SymbolValue(s[k]) == Some(t[k]) && !IsSpace(s[k])
    {
      SymbolValueOf(t[k]);
    }
    hide Symbol, SymbolValue, IsSpace;
    NoBreaks(s);
    BytesSextets(b);
    assert seq(|s|, k requires 0 <= k < |s| => SymbolValue(s[k]).value) == t;
  }
}
