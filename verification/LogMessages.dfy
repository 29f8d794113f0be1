/** The messages of a log stream end to end: what the server marshals is what the client receives, for every
    chunking of the bytes, and a stream that is cut off yields exactly the messages that arrived whole. */
module LogMessages {
  import opened Text
  import opened CodePoints
  import opened Json
  import opened Names
  import opened LogStream

  /** An empty field is omitted. */
  datatype Message = Message(line: string, warning: string)
  datatype Field = Field(key: string, value: string)

  // ----- marshalling -----

  function Hex(n: nat): char
    requires n < 16
  {
    if n < 10 then '0' + n as char else 'a' + (n - 10) as char
  }

  /** How `json.Marshal` writes a character of a string. */
  function Escaped(c: char): Char {
    if c == '"' || c == '\\' then Escape(c)
    else if c == '\n' then Escape('n')
    else if c == '\r' then Escape('r')
    else if c == '\t' then Escape('t')
    else if c < ' ' || c == '<' || c == '>' || c == '&' then ByteEscape(c as nat)
    else if c == '\U{2028}' then Unicode("2028")
    else if c == '\U{2029}' then Unicode("2029")
    else Raw(c)
  }

  function EscapedAll(s: string): seq<Char> { seq(|s|, k requires 0 <= k < |s| => Escaped(s[k])) }
  function Quoted(s: string): string { PrintString(EscapedAll(s)) }

  function PrintFields(fs: seq<Field>): string {
    if fs == [] then ""
    else Quoted(fs[0].key) + (":" + (Quoted(fs[0].value) + if |fs| == 1 then "" else "," + PrintFields(fs[1..])))
  }

  function FieldsOf(m: Message): seq<Field> {
    (if m.line == "" then [] else [Field("line", m.line)]) + if m.warning == "" then [] else [Field("warning", m.warning)]
  }

  function Marshal(m: Message): string { "{" + PrintFields(FieldsOf(m)) + "}" }

  /** What the server sends for some messages, one line each. */
  function ServerText(ms: seq<Message>): string {
    if ms == [] then "" else Marshal(ms[0]) + ("\n" + ServerText(ms[1..]))
  }

  // ----- parsing -----

  function Set(m: Message, f: Field): Message {
    if f.key == "line" then m.(line := f.value) else if f.key == "warning" then m.(warning := f.value) else m
  }

  function Literal(s: string): Option<(string, string)> {
    var r := LexString(s);
    if r.None? then None
    else
      LexStringGrammar(s, r.value.0, r.value.1);
      Some((Decode(r.value.0), r.value.1))
  }

  function ParseFields(s: string, m: Message): Option<Message>
    decreases |s|
  {
    var key := Literal(s);
    if key.None? || key.value.1 == "" || key.value.1[0] != ':' then None
    else
      var value := Literal(key.value.1[1..]);
      if value.None? || value.value.1 == "" then None
      else
        var m' := Set(m, Field(key.value.0, value.value.0));
        if value.value.1 == "}" then Some(m')
        else if value.value.1[0] == ',' then ParseFields(value.value.1[1..], m')
        else None
  }

  /** `JSON.parse` on compact objects of strings, the only texts the server writes; it rejects every other text
      here. Keys that are not of a message are passed over. */
  function Parse(s: string): Option<Message> {
    if s == "" || s[0] != '{' then None
    else if s[1..] == "}" then Some(Message("", ""))
    else ParseFields(s[1..], Message("", ""))
  }

  // ----- the codec -----

  lemma EscapedIs(c: char)
    ensures ValidChar(Escaped(c)) && DecodeChar(Escaped(c)) == c
    ensures forall x :: x in PrintChar(Escaped(c)) ==> x >= ' '
  {
    if Escaped(c).Unicode? && c < '\U{100}' {
      EscapedByte(c as nat);
      assert Escaped(c) == ByteEscape(c as nat);
    } else if Escaped(c).Unicode? {
      SeparatorIs();
    }
  }

  function ByteEscape(n: nat): Char
    requires n < 256
  {
    Unicode(['0', '0', Hex(n / 16), Hex(n % 16)])
  }

  lemma EscapedByte(n: nat)
    requires n < 256
    ensures ValidChar(ByteEscape(n)) && DecodeChar(ByteEscape(n)) == n as char
    ensures forall x :: x in PrintChar(ByteEscape(n)) ==> x >= ' '
  {
    HexIs(n / 16);
    HexIs(n % 16);
    hide Hex, IsHex, HexValue;
    ZeroIsHex();
  }

  lemma SeparatorIs()
    ensures ValidChar(Unicode("2028")) && DecodeChar(Unicode("2028")) == '\U{2028}'
    ensures ValidChar(Unicode("2029")) && DecodeChar(Unicode("2029")) == '\U{2029}'
  {
  }

  lemma ZeroIsHex()
    ensures IsHex('0') && HexValue('0') == 0
  {
  }

  lemma HexIs(n: nat)
    requires n < 16
    ensures IsHex(Hex(n)) && HexValue(Hex(n)) == n && Hex(n) >= ' '
  {
  }

  lemma QuotedIs(s: string)
    ensures ValidChars(EscapedAll(s)) && Decode(EscapedAll(s)) == s
    ensures forall x :: x in Quoted(s) ==> x >= ' '
  {
    hide ValidChar, DecodeChar, PrintChar, Escaped;
    forall k | 0 <= k < |s|
      ensures ValidChar(EscapedAll(s)[k]) && DecodeChar(EscapedAll(s)[k]) == s[k] && forall x :: x in PrintChar(EscapedAll(s)[k]) ==> x >= ' '
    {
      EscapedIs(s[k]);
    }
    PrintedPlain(EscapedAll(s));
  }

  lemma {:induction false} PrintedPlain(cs: seq<Char>)
    requires forall k :: 0 <= k < |cs| ==> forall x :: x in PrintChar(cs[k]) ==> x >= ' '
    ensures forall x :: x in PrintChars(cs) ==> x >= ' '
  {
    hide PrintChar;
    if cs != [] {
      PrintedPlain(cs[1..]);
    }
  }

  /** A literal is found exactly where it is printed. */
  lemma LiteralPrinted(s: string, rest: string)
    ensures Literal(Quoted(s) + rest) == Some((s, rest))
  {
    hide LexString, Decode, PrintString, ValidChars;
    QuotedIs(s);
    LexStringGrammar(Quoted(s) + rest, EscapedAll(s), rest);
  }

  /** More text after a literal is left over. */
  lemma LiteralExtends(s: string, more: string)
    requires Literal(s).Some?
    ensures Literal(s + more) == Some((Literal(s).value.0, Literal(s).value.1 + more))
  {
    hide LexString, Decode, PrintString, ValidChars;
    var (cs, rest) := LexString(s).value;
    LexStringGrammar(s, cs, rest);
    assert s + more == PrintString(cs) + (rest + more);
    LexStringGrammar(s + more, cs, rest + more);
  }

  lemma LiteralShortens(s: string)
    requires Literal(s).Some?
    ensures var rest := Literal(s).value.1; |rest| < |s| && rest == s[|s| - |rest|..]
  {
    hide LexChars, Decode, PrintChars, ValidChars;
    var (cs, rest) := LexString(s).value;
    LexStringGrammar(s, cs, rest);
  }

  function SetAll(m: Message, fs: seq<Field>): Message
    decreases |fs|
  {
    if fs == [] then m else SetAll(Set(m, fs[0]), fs[1..])
  }

  lemma {:induction false} ParsePrinted(fs: seq<Field>, m: Message)
    requires fs != []
    ensures ParseFields(PrintFields(fs) + "}", m) == Some(SetAll(m, fs))
  {
    hide Quoted, Literal, Set;
    var f := fs[0];
    var rest := if |fs| == 1 then "}" else "," + (PrintFields(fs[1..]) + "}");
    var s2 := Quoted(f.value) + rest;
    PrintFieldsSplit(fs, rest);
    LiteralPrinted(f.key, ":" + s2);
    assert (":" + s2)[1..] == s2;
    LiteralPrinted(f.value, rest);
    if |fs| > 1 {
      assert rest[1..] == PrintFields(fs[1..]) + "}";
      ParsePrinted(fs[1..], Set(m, f));
    } else {
      assert SetAll(m, fs) == SetAll(Set(m, f), []);
    }
  }

  lemma PrintFieldsSplit(fs: seq<Field>, rest: string)
    requires fs != [] && rest == if |fs| == 1 then "}" else "," + (PrintFields(fs[1..]) + "}")
    ensures PrintFields(fs) + "}" == Quoted(fs[0].key) + (":" + (Quoted(fs[0].value) + rest))
  {
    hide Quoted;
    var key, value := Quoted(fs[0].key), Quoted(fs[0].value);
    var tail := if |fs| == 1 then "" else "," + PrintFields(fs[1..]);
    assert tail + "}" == rest;
    Associate(value, tail, "}");
    Associate(":", value + tail, "}");
    Associate(key, ":" + (value + tail), "}");
  }

  /** The client reads back the message that the server marshalled. */
  lemma ParseMarshal(m: Message)
    ensures Parse(Marshal(m)) == Some(m)
  {
    hide ParseFields, PrintFields, FieldsOf, SetAll;
    var fs := FieldsOf(m);
    var s := Marshal(m);
    assert s[0] == '{' && s[1..] == PrintFields(fs) + "}";
    SetAllFields(m);
    if fs == [] {
      NoFieldsPrinted();
      NothingSet();
    } else {
      ParsePrinted(fs, Message("", ""));
      PrintedLonger(fs);
      assert |s[1..]| > 1;
    }
  }

  lemma NothingSet()
    ensures forall m :: SetAll(m, []) == m
  {
  }

  lemma PrintedLonger(fs: seq<Field>)
    requires fs != []
    ensures |PrintFields(fs)| > 0
  {
    hide Quoted;
  }

  lemma SetAllFields(m: Message)
    ensures SetAll(Message("", ""), FieldsOf(m)) == m
  {
    var fs, start := FieldsOf(m), Message("", "");
    if m.line != "" && m.warning != "" {
      assert fs[1..] == [Field("warning", m.warning)] && fs[1..][1..] == [];
      assert SetAll(start, fs) == SetAll(Message(m.line, ""), fs[1..]) == SetAll(m, []);
    } else if fs != [] {
      assert fs[1..] == [];
      assert SetAll(start, fs) == SetAll(m, []);
    }
  }

  function AsMember(f: Field): Member { Json.Member("", EscapedAll(f.key), "", "", Str(EscapedAll(f.value)), "") }

  function AsMembers(fs: seq<Field>): (r: seq<Member>)
    ensures |r| == |fs|
  {
    if fs == [] then [] else [AsMember(fs[0])] + AsMembers(fs[1..])
  }

  lemma {:induction false} FieldsAreMembers(fs: seq<Field>)
    ensures PrintMembers(AsMembers(fs)) == PrintFields(fs)
    ensures forall k :: 0 <= k < |fs| ==> ValidMember(AsMembers(fs)[k])
  {
    hide EscapedAll, ValidChars, PrintString;
    if fs != [] {
      var ms := AsMembers(fs);
      FieldsAreMembers(fs[1..]);
      assert ms[1..] == AsMembers(fs[1..]);
      QuotedIs(fs[0].key);
      QuotedIs(fs[0].value);
      var key, value := Quoted(fs[0].key), Quoted(fs[0].value);
      var tail := if |fs| == 1 then "" else "," + PrintFields(fs[1..]);
      assert PrintMember(ms[0]) == key + (":" + value);
      Associate(":", value, tail);
      Associate(key, ":" + value, tail);
    }
  }

  /** What the server writes is a JSON object of strings. */
  lemma MarshalIsJson(m: Message)
    ensures IsJson(Marshal(m))
  {
    hide PrintMembers, ValidMember, PrintFields;
    var fs := FieldsOf(m);
    FieldsAreMembers(fs);
    var d := Document("", Object("", AsMembers(fs)), "");
    if fs == [] {
      NoFieldsPrinted();
    }
    assert ValidDocument(d) && PrintDocument(d) == Marshal(m);
  }

  lemma NoFieldsPrinted()
    ensures PrintFields([]) == ""
  {
  }

  // ----- framing -----

  lemma {:induction false} PrintFieldsPlain(fs: seq<Field>)
    ensures forall x :: x in PrintFields(fs) ==> x >= ' '
  {
    hide Quoted;
    if fs != [] {
      QuotedIs(fs[0].key);
      QuotedIs(fs[0].value);
      PrintFieldsPlain(fs[1..]);
    }
  }

  /** A marshalled message is one line that trimming leaves alone. */
  lemma MarshalIsALine(m: Message)
    ensures var s := Marshal(m);
            && '\n' !in s && |s| >= 2 && s[0] == '{' && s[|s| - 1] == '}'
            && JsTrim(s) == s && s != ""
  {
    hide FieldsOf, PrintFields, TrimBy;
    PrintFieldsPlain(FieldsOf(m));
    TrimByFacts(IsJsSpace, Marshal(m));
  }

  lemma SplitAtLine(line: string, rest: string)
    requires '\n' !in line
    ensures Split(line + ("\n" + rest), '\n') == [line] + Split(rest, '\n')
    ensures Split(line, '\n') == [line]
  {
    hide Join;
    var s := line + ("\n" + rest);
    assert s == line + ['\n'] + rest;
    assert s[|line|] == '\n';
    var (before, after, found) := Cut(s, '\n');
    assert found;
    SplitUnique(line, rest, before, after, '\n');
    assert !Cut(line, '\n').2;
  }

  lemma {:induction false} ReceivedAll(ms: seq<Message>)
    ensures Received(Texts(Split(ServerText(ms), '\n')), Parse) == (ms, true)
  {
    hide Marshal, Parse, Split, JsTrim;
    if ms == [] {
      SplitAtLine("", "");
      NothingToTrim();
      assert Texts([""]) == [];
    } else {
      MarshalIsALine(ms[0]);
      ParseMarshal(ms[0]);
      SplitAtLine(Marshal(ms[0]), ServerText(ms[1..]));
      ReceivedAll(ms[1..]);
      FirstLine(Marshal(ms[0]), Split(ServerText(ms[1..]), '\n'));
      assert [ms[0]] + ms[1..] == ms;
    }
  }

  lemma NothingToTrim()
    ensures JsTrim("") == ""
  {
  }

  lemma FirstLine(line: string, rest: seq<string>)
    requires JsTrim(line) != ""
    ensures var r := Received(Texts(rest), Parse);
            Received(Texts([line] + rest), Parse) ==
            if Parse(JsTrim(line)).None? then ([], false) else ([Parse(JsTrim(line)).value] + r.0, r.1)
  {
    hide Parse, JsTrim;
    assert ([line] + rest)[1..] == rest;
    assert Texts([line] + rest) == [JsTrim(line)] + Texts(rest);
    assert ([JsTrim(line)] + Texts(rest))[1..] == Texts(rest);
  }

  /** The client receives exactly the messages sent, in order, however the bytes are cut into chunks. */
  lemma EndToEnd(ms: seq<Message>, chunks: seq<seq<Byte>>)
    requires Concat(chunks) == Utf8(ServerText(ms))
    ensures Delivered(Concat(chunks), Parse) == (ms, true)
  {
    hide Take, Received, Texts, Split, Parse, Utf8;
    var text := ServerText(ms);
    TakeUtf8(text, Utf8(text));
    assert text + "" == text;
    ReceivedAll(ms);
  }

  // ----- a stream that is cut off -----

  /** The number of messages whose JSON is in a text wholly, the newline after the last not counted. */
  function Whole(ms: seq<Message>, t: string): (n: nat)
    ensures n <= |ms|
  {
    if ms == [] || |t| < |Marshal(ms[0])| then 0
    else if |t| == |Marshal(ms[0])| then 1
    else 1 + Whole(ms[1..], t[|Marshal(ms[0])| + 1..])
  }

  lemma {:induction false} WholeIs(ms: seq<Message>, t: string, n: nat)
    requires 1 <= n <= |ms|
    ensures Whole(ms, t) >= n <==> |t| >= |ServerText(ms[..n])| - 1
  {
    hide Marshal;
    assert ms[..n][1..] == ms[1..][..n - 1];
    if n > 1 {
      assert |Marshal(ms[0])| < |ServerText(ms[..n])| - 1 by {
        assert ServerText(ms[..n][1..]) != "";
        ServerTextLong(ms[1..][..n - 1]);
      }
      if |t| > |Marshal(ms[0])| {
        WholeIs(ms[1..], t[|Marshal(ms[0])| + 1..], n - 1);
      }
    } else {
      assert ServerText(ms[..1][1..]) == "";
    }
  }

  lemma ServerTextLong(ms: seq<Message>)
    requires ms != []
    ensures |ServerText(ms)| >= 2
  {
    MarshalIsALine(ms[0]);
  }

  /** A text that parses does so only as a whole: anything put behind it spoils it. */
  lemma {:induction false} ParseFieldsExtends(s: string, m: Message, more: string)
    requires ParseFields(s, m).Some? && more != ""
    ensures ParseFields(s + more, m).None?
    decreases |s|
  {
    hide Literal, Set;
    LiteralExtends(s, more);
    var key := Literal(s).value;
    LiteralShortens(s);
    assert (key.1 + more)[1..] == key.1[1..] + more;
    LiteralExtends(key.1[1..], more);
    LiteralShortens(key.1[1..]);
    var value := Literal(key.1[1..]).value;
    if value.1 == "}" {
      assert (value.1 + more)[0] == '}';
      assert |value.1 + more| > 1;
    } else {
      assert (value.1 + more)[1..] == value.1[1..] + more;
      ParseFieldsExtends(value.1[1..], Set(m, Field(key.0, value.0)), more);
    }
  }

  lemma {:induction false} ParseFieldsEnds(s: string, m: Message)
    requires ParseFields(s, m).Some?
    ensures s != "" && s[|s| - 1] == '}'
    decreases |s|
  {
    hide Literal, Set;
    LiteralShortens(s);
    var key := Literal(s).value;
    LiteralShortens(key.1[1..]);
    var value := Literal(key.1[1..]).value;
    if value.1 != "}" {
      ParseFieldsEnds(value.1[1..], Set(m, Field(key.0, value.0)));
    }
  }

  /** A message cut short is no message, and neither is one that ends in the middle of a character. */
  lemma CutMessageIsNone(m: Message, s: string)
    requires s < Marshal(m)
    ensures Parse(s).None? && Parse(s + [Replacement]).None?
  {
    hide Marshal, Parse;
    var whole := Marshal(m);
    MarshalIsALine(m);
    ParseMarshal(m);
    var more := whole[|s|..];
    assert whole == s + more;
    CutTextIsNone(s, more);
  }

  lemma CutTextIsNone(s: string, more: string)
    requires more != "" && Parse(s + more).Some?
    ensures Parse(s).None? && Parse(s + [Replacement]).None?
  {
    hide ParseFields;
    if s != "" && s[0] == '{' {
      assert (s + more)[1..] == s[1..] + more;
      CutFields(s[1..], more);
      assert (s + [Replacement])[1..] == s[1..] + [Replacement];
      ReplacementEndsNothing(s[1..]);
    }
  }

  lemma CutFields(s: string, more: string)
    requires more != "" && (s + more == "}" || ParseFields(s + more, Message("", "")).Some?)
    ensures s != "}" && ParseFields(s, Message("", "")).None?
  {
    hide ParseFields;
    if s + more == "}" {
      assert s == "";
      NoFields(s, Message("", ""));
    } else {
      NoFields(s + more, Message("", ""));
      if ParseFields(s, Message("", "")).Some? {
        ParseFieldsExtends(s, Message("", ""), more);
      }
    }
  }

  /** Fields start with a quote. */
  lemma NoFields(s: string, m: Message)
    ensures s == "" || s[0] != '"' ==> ParseFields(s, m).None?
  {
    hide LexChars;
  }

  lemma ReplacementEndsNothing(s: string)
    ensures s + [Replacement] != "}" && ParseFields(s + [Replacement], Message("", "")).None?
  {
    hide ParseFields;
    var t := s + [Replacement];
    assert t[|t| - 1] == Replacement;
    if ParseFields(t, Message("", "")).Some? {
      ParseFieldsEnds(t, Message("", ""));
    }
  }

  lemma SplitCut(line: string)
    requires '\n' !in line
    ensures Received(Texts(Split(line, '\n')), Parse) ==
            if JsTrim(line) == "" then ([], true)
            else if Parse(JsTrim(line)).None? then ([], false)
            else ([Parse(JsTrim(line)).value], true)
  {
    hide Parse, JsTrim, Split, Texts, Received;
    SplitAtLine(line, "");
    OneLine(line, Parse);
  }

  /** The last line of a stream that was cut inside a message, or just after its JSON. */
  lemma CutLine(m: Message, t: string, tail: string)
    requires t <= Marshal(m) && (tail == "" || (tail == [Replacement] && t < Marshal(m)))
    ensures Received(Texts(Split(t + tail, '\n')), Parse).0 == if t == Marshal(m) then [m] else []
  {
    hide Marshal, Parse, Split, Received, Texts;
    var line := t + tail;
    MarshalIsALine(m);
    ParseMarshal(m);
    SplitCut(line);
    TrimByFacts(IsJsSpace, line);
    assert t != "" ==> line[0] == t[0] == '{';
    if t == Marshal(m) {
      assert line == t;
    } else if tail == "" {
      assert line == t;
      if t != "" {
        assert JsTrim(t) <= t;
        CutMessageIsNone(m, JsTrim(t));
      }
    } else {
      assert line[|line| - 1] == Replacement;
      CutMessageIsNone(m, t);
    }
  }

  /** After some bytes of a stream the decoder has a prefix of its text, and perhaps part of a character that is
      no newline. */
  lemma {:induction false} CutText(ms: seq<Message>, t: string, tail: string)
    requires t <= ServerText(ms)
    requires tail == "" || (tail == [Replacement] && t < ServerText(ms) && ServerText(ms)[|t|] != '\n')
    ensures Received(Texts(Split(t + tail, '\n')), Parse).0 == ms[..Whole(ms, t)]
  {
    hide Marshal, Parse, Split, Received, Texts;
    if ms == [] {
      SplitCut("");
      NothingToTrim();
    } else {
      var first, rest := Marshal(ms[0]), ServerText(ms[1..]);
      MarshalIsALine(ms[0]);
      assert ServerText(ms)[..|first|] == first && ServerText(ms)[|first|] == '\n';
      if |t| <= |first| {
        assert t == first[..|t|];
        CutLine(ms[0], t, tail);
        assert ms[..1] == [ms[0]];
      } else {
        var t' := t[|first| + 1..];
        AfterLine(first, rest, t, tail);
        CutText(ms[1..], t', tail);
        SplitAtLine(first, t' + tail);
        ParseMarshal(ms[0]);
        FirstLine(first, Split(t' + tail, '\n'));
        assert ms[..Whole(ms, t)] == [ms[0]] + ms[1..][..Whole(ms[1..], t')];
      }
    }
  }

  lemma AfterLine(line: string, rest: string, t: string, tail: string)
    requires t <= line + ("\n" + rest) && |t| > |line|
    ensures var t' := t[|line| + 1..];
            && t' <= rest && t + tail == line + ("\n" + (t' + tail))
            && (t < line + ("\n" + rest) ==> t' < rest && rest[|t'|] == (line + ("\n" + rest))[|t|])
  {
    var whole := line + ("\n" + rest);
    var t' := t[|line| + 1..];
    assert whole[|line| + 1..] == rest && whole[..|line|] == line && whole[|line|] == '\n';
    assert t == whole[..|t|];
    assert t' == rest[..|t'|];
    assert t == line + ("\n" + t');
  }

  /** A stream cut off after any number of bytes, in any chunks, yields a prefix of what was sent, never a message that
      was not: the first n messages exactly if their text has arrived, the newline after the last not counted. */
  lemma CutStream(ms: seq<Message>, chunks: seq<seq<Byte>>)
    requires Concat(chunks) <= Utf8(ServerText(ms))
    ensures Take(Concat(chunks)).0 <= ServerText(ms)
    ensures Delivered(Concat(chunks), Parse).0 == ms[..Whole(ms, Take(Concat(chunks)).0)]
    ensures forall n :: 1 <= n <= |ms| ==> (|Delivered(Concat(chunks), Parse).0| >= n <==> |Take(Concat(chunks)).0| >= |ServerText(ms[..n])| - 1)
  {
    hide Take, Received, Texts, Split, Parse, Utf8, Whole, EncodeChar, ServerText;
    var (t, pending) := Take(Concat(chunks));
    TakeUtf8(ServerText(ms), Concat(chunks));
    if pending != [] {
      NewlineIsOneByte();
    }
    CutText(ms, t, Flush(pending));
    forall n | 1 <= n <= |ms|
      ensures Whole(ms, t) >= n <==> |t| >= |ServerText(ms[..n])| - 1
    {
      WholeIs(ms, t, n);
    }
  }

  lemma NewlineIsOneByte()
    ensures |EncodeChar('\n')| == 1
  {
  }
}
