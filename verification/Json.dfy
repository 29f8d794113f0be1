/** JSON texts as concrete syntax, following sections 2 to 7 of RFC 8259: a tree keeps every byte of the text,
    white space included, so that printing it gives the text back. */
module Json {
  import opened Text

  predicate IsWs(c: char) { c == ' ' || c == '\n' || c == '\r' || c == '\t' }
  predicate AllWs(s: string) { forall k :: 0 <= k < |s| ==> IsWs(s[k]) }
  predicate IsHex(c: char) { '0' <= c <= '9' || 'a' <= c <= 'f' || 'A' <= c <= 'F' }
  predicate IsDigit(c: char) { '0' <= c <= '9' }

  /** One character of a string literal: an unescaped byte, a short escape, or four hexadecimal digits. */
  datatype Char = Raw(c: char) | Escape(c: char) | Unicode(hex: string)

  const Escapes: set<char> := {'"', '\\', '/', 'b', 'f', 'n', 'r', 't'}

  predicate ValidChar(ch: Char) {
    match ch
    case Raw(c) => c >= ' ' && c != '"' && c != '\\'
    case Escape(c) => c in Escapes
    case Unicode(h) => |h| == 4 && IsHex(h[0]) && IsHex(h[1]) && IsHex(h[2]) && IsHex(h[3])
  }

  function PrintChar(ch: Char): string {
    match ch
    case Raw(c) => [c]
    case Escape(c) => ['\\', c]
    case Unicode(h) => ['\\', 'u'] + h
  }

  function PrintChars(cs: seq<Char>): string {
    if cs == [] then "" else PrintChar(cs[0]) + PrintChars(cs[1..])
  }

  predicate ValidChars(cs: seq<Char>) { forall k :: 0 <= k < |cs| ==> ValidChar(cs[k]) }

  function PrintString(cs: seq<Char>): string { "\"" + PrintChars(cs) + "\"" }

  datatype Value =
    | Null | True | False
    | Number(minus: bool, digits: string, fraction: string, exponent: string)
    | Str(chars: seq<Char>)
    | Array(blank: string, elements: seq<Element>)
    | Object(blank: string, members: seq<Member>)
  datatype Element = Element(before: string, value: Value, after: string)
  datatype Member = Member(before: string, key: seq<Char>, beforeColon: string, afterColon: string, value: Value, after: string)

  predicate Digits(s: string) { s != "" && forall k :: 0 <= k < |s| ==> IsDigit(s[k]) }

  /** An exponent with its letter and optional sign, or nothing. */
  predicate ValidExponent(s: string) {
    s == "" ||
    ((s[0] == 'e' || s[0] == 'E') && (Digits(s[1..]) || (|s| > 1 && (s[1] == '+' || s[1] == '-') && Digits(s[2..]))))
  }

  predicate ValidNumber(digits: string, fraction: string, exponent: string) {
    && Digits(digits) && (|digits| > 1 ==> digits[0] != '0')
    && (fraction == "" || (fraction[0] == '.' && Digits(fraction[1..])))
    && ValidExponent(exponent)
  }

  predicate Valid(v: Value) {
    match v
    case Number(_, d, f, e) => ValidNumber(d, f, e)
    case Str(cs) => ValidChars(cs)
    case Array(blank, es) => AllWs(blank) && forall k :: 0 <= k < |es| ==> AllWs(es[k].before) && AllWs(es[k].after) && Valid(es[k].value)
    case Object(blank, ms) => AllWs(blank) && forall k :: 0 <= k < |ms| ==> ValidMember(ms[k])
    case _ => true
  }

  predicate ValidMember(m: Member) {
    AllWs(m.before) && ValidChars(m.key) && AllWs(m.beforeColon) && AllWs(m.afterColon) && Valid(m.value) && AllWs(m.after)
  }

  function Print(v: Value): string
    decreases v, 0
  {
    match v
    case Null => "null"
    case True => "true"
    case False => "false"
    case Number(minus, d, f, e) => (if minus then "-" else "") + d + f + e
    case Str(cs) => PrintString(cs)
    case Array(blank, es) => "[" + (if es == [] then blank else PrintElements(es)) + "]"
    case Object(blank, ms) => "{" + (if ms == [] then blank else PrintMembers(ms)) + "}"
  }

  function PrintElements(es: seq<Element>): string
    decreases es, 1
  {
    if es == [] then ""
    else es[0].before + Print(es[0].value) + es[0].after + if |es| == 1 then "" else "," + PrintElements(es[1..])
  }

  function PrintMembers(ms: seq<Member>): string
    decreases ms, 1
  {
    if ms == [] then ""
    else PrintMember(ms[0]) + if |ms| == 1 then "" else "," + PrintMembers(ms[1..])
  }

  function PrintMember(m: Member): string
    decreases m, 1
  {
    m.before + (PrintString(m.key) + (m.beforeColon + (":" + (m.afterColon + (Print(m.value) + m.after)))))
  }

  /** A whole text: a value between white space. */
  datatype Document = Document(before: string, value: Value, after: string)

  predicate ValidDocument(d: Document) { AllWs(d.before) && Valid(d.value) && AllWs(d.after) }
  function PrintDocument(d: Document): string { d.before + Print(d.value) + d.after }

  /** What `json.Valid` decides. */
  ghost predicate IsJson(data: string) {
    exists d :: ValidDocument(d) && PrintDocument(d) == data
  }

  // ----- the ends of a value -----

  /** How a printed value starts tells its kind, as far as the scanner asks. */
  lemma PrintStart(v: Value)
    requires Valid(v)
    ensures var s := Print(v);
            && s != "" && !IsSpace(s[0]) && s[0] != '}'
            && (s[0] == '{' <==> v.Object?) && (s[0] == '"' <==> v.Str?) && (s == "null" <==> v.Null?)
            && (v.Object? ==> |s| >= 2)
  {
    match v
    case Number(minus, d, f, e) =>
      assert Print(v)[0] == if minus then '-' else d[0];
    case _ =>
  }

  lemma PrintEnd(v: Value)
    requires Valid(v)
    ensures Print(v) != "" && !IsSpace(Print(v)[|Print(v)| - 1])
  {
    var s := Print(v);
    match v
    case Number(minus, d, f, e) =>
      assert s[|s| - 1] == if e != "" then e[|e| - 1] else if f != "" then f[|f| - 1] else d[|d| - 1];
      assert e != "" ==> IsDigit(e[|e| - 1]) by {
        if e != "" {
          if Digits(e[1..]) {
            assert e[|e| - 1] == e[1..][|e| - 2];
          } else {
            assert e[|e| - 1] == e[2..][|e| - 3];
          }
        }
      }
      assert f != "" ==> IsDigit(f[|f| - 1]) by {
        if f != "" {
          assert f[|f| - 1] == f[1..][|f| - 2];
        }
      }
    case _ =>
  }

  lemma TrimWsLeft(w: string, s: string)
    requires AllWs(w) && s != "" && !IsSpace(s[0])
    ensures TrimLeft(w + s) == s
  {
    hide TrimLeft;
    var t := w + s;
    var r := TrimLeft(t);
    assert !IsSpace(t[|w|]) && forall k :: 0 <= k < |w| ==> t[k] == w[k] && IsWs(t[k]);
    assert r != "" ==> r[0] == t[|t| - |r|];
    assert |t| - |r| == |w|;
  }

  lemma TrimWsRight(s: string, w: string)
    requires AllWs(w) && s != "" && !IsSpace(s[|s| - 1])
    ensures TrimRight(s + w) == s
  {
    hide TrimRight;
    var t := s + w;
    var r := TrimRight(t);
    assert !IsSpace(t[|s| - 1]) && forall k :: |s| <= k < |t| ==> t[k] == w[k - |s|] && IsWs(t[k]);
    assert |r| == |s|;
  }

  /** Trimming a text leaves its value. */
  lemma TrimDocument(d: Document)
    requires ValidDocument(d)
    ensures TrimSpace(PrintDocument(d)) == Print(d.value)
  {
    hide Print;
    PrintStart(d.value);
    PrintEnd(d.value);
    var s := Print(d.value);
    assert d.before + s + d.after == d.before + (s + d.after);
    TrimWsLeft(d.before, s + d.after);
    TrimWsRight(s, d.after);
  }

  // ----- reading string literals -----

  /** The rest of a string literal after its opening quote: its characters and what follows the closing quote. */
  function LexChars(s: string): (r: Option<(seq<Char>, string)>)
    ensures r.Some? ==> |r.value.1| < |s|
  {
    if s == "" then None
    else if s[0] == '"' then Some(([], s[1..]))
    else if s[0] == '\\' then
      if |s| < 2 then None
      else if s[1] == 'u' then
        if |s| < 6 || !IsHex(s[2]) || !IsHex(s[3]) || !IsHex(s[4]) || !IsHex(s[5]) then None
        else Prepend(Unicode(s[2..6]), LexChars(s[6..]))
      else if s[1] !in Escapes then None
      else Prepend(Escape(s[1]), LexChars(s[2..]))
    else if s[0] < ' ' then None
    else Prepend(Raw(s[0]), LexChars(s[1..]))
  }

  function Prepend(c: Char, r: Option<(seq<Char>, string)>): Option<(seq<Char>, string)> {
    if r.None? then None else Some(([c] + r.value.0, r.value.1))
  }

  function LexString(s: string): (r: Option<(seq<Char>, string)>)
    ensures r.Some? ==> |r.value.1| < |s|
  {
    if s == "" || s[0] != '"' then None else LexChars(s[1..])
  }

  /** The scanner accepts a string literal exactly where the grammar has one, and stops right after it. */
  lemma {:induction false} LexCharsPrinted(cs: seq<Char>, rest: string)
    requires ValidChars(cs)
    ensures LexChars(PrintChars(cs) + "\"" + rest) == Some((cs, rest))
  {
    if cs == [] {
      assert PrintChars(cs) + "\"" + rest == ['"'] + rest;
    } else {
      var tail := PrintChars(cs[1..]) + "\"" + rest;
      var s := PrintChars(cs) + "\"" + rest;
      PrintFirst(cs, rest);
      assert ValidChar(cs[0]);
      LexCharsPrinted(cs[1..], rest);
      assert s[|PrintChar(cs[0])|..] == tail;
      assert [cs[0]] + cs[1..] == cs;
      match cs[0] {
        case Raw(c) => assert s[0] == c;
        case Escape(c) => assert s[0] == '\\' && s[1] == c;
        case Unicode(h) =>
          assert |PrintChar(cs[0])| == 6;
          assert s[0] == '\\' && s[1] == 'u' && s[2..6] == h && s[2] == h[0] && s[3] == h[1] && s[4] == h[2] && s[5] == h[3];
      }
    }
  }

  lemma PrintFirst(cs: seq<Char>, rest: string)
    requires cs != []
    ensures PrintChars(cs) + "\"" + rest == PrintChar(cs[0]) + (PrintChars(cs[1..]) + "\"" + rest)
  {
    hide PrintChar;
  }

  /** One step of the literal loop: the first character and its length. */
  lemma LexCharsStep(s: string) returns (n: nat)
    requires LexChars(s).Some? && s[0] != '"'
    ensures 0 < n <= |s| && LexChars(s[n..]).Some?
    ensures var cs := LexChars(s).value.0;
            && cs != [] && ValidChar(cs[0]) && PrintChar(cs[0]) == s[..n]
            && LexChars(s[n..]).value == (cs[1..], LexChars(s).value.1)
  {
    n := if s[0] == '\\' then (if s[1] == 'u' then 6 else 2) else 1;
    var cs := LexChars(s).value.0;
    assert cs[1..] == LexChars(s[n..]).value.0;
  }

  lemma {:induction false} LexCharsSound(s: string)
    requires LexChars(s).Some?
    ensures var (cs, rest) := LexChars(s).value;
            ValidChars(cs) && s == PrintChars(cs) + "\"" + rest
    decreases |s|
  {
    if s[0] == '"' {
      assert s == [s[0]] + s[1..];
    } else {
      var n := LexCharsStep(s);
      LexCharsSound(s[n..]);
      hide ValidChar, PrintChar, LexChars, PrintChars;
      PrintFirst(LexChars(s).value.0, LexChars(s).value.1);
      assert s == s[..n] + s[n..];
    }
  }

  /** So a literal starts at a position exactly if the scanner finds its end. */
  lemma LexStringGrammar(s: string, cs: seq<Char>, rest: string)
    ensures LexString(s) == Some((cs, rest)) <==> ValidChars(cs) && s == PrintString(cs) + rest
  {
    hide LexChars, PrintChars, ValidChars;
    if LexString(s) == Some((cs, rest)) {
      LexCharsSound(s[1..]);
      assert s == ['"'] + s[1..];
    }
    if ValidChars(cs) && s == PrintString(cs) + rest {
      LexCharsPrinted(cs, rest);
      assert s[1..] == PrintChars(cs) + "\"" + rest;
    }
  }

  function HexValue(c: char): (n: nat)
    requires IsHex(c)
    ensures n < 16
  {
    if '0' <= c <= '9' then (c - '0') as nat else if 'a' <= c <= 'f' then (c - 'a') as nat + 10 else (c - 'A') as nat + 10
  }

  /** A code unit, or the replacement character for half a surrogate pair. */
  function CodeUnit(h: string): char
    requires |h| == 4 && IsHex(h[0]) && IsHex(h[1]) && IsHex(h[2]) && IsHex(h[3])
  {
    var n := ((HexValue(h[0]) * 16 + HexValue(h[1])) * 16 + HexValue(h[2])) * 16 + HexValue(h[3]);
    if 0xD800 <= n <= 0xDFFF then '\U{FFFD}' else n as char
  }

  function DecodeChar(ch: Char): char
    requires ValidChar(ch)
  {
    match ch
    case Raw(c) => c
    case Unicode(h) => CodeUnit(h)
    case Escape(c) => if c == 'b' then '\U{08}' else if c == 'f' then '\U{0C}' else if c == 'n' then '\n' else if c == 'r' then '\r' else if c == 't' then '\t' else c
  }

  function Decode(cs: seq<Char>): string
    requires ValidChars(cs)
  {
    seq(|cs|, k requires 0 <= k < |cs| => DecodeChar(cs[k]))
  }
}
