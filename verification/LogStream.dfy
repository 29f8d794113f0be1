/** The log stream: the server writes one JSON object and a newline for each message, the client cuts lines out of
    byte chunks that end anywhere, even inside a character. */
module LogStream {
  import opened Text
  import opened CodePoints
  import opened Json
  import opened Names

  // ----- UTF-8 and its streaming decoder -----

  type Byte = n: nat | n < 256

  function EncodeChar(c: char): (r: seq<Byte>)
    ensures 1 <= |r| <= 4 && |r| == LengthOf(r[0])
  {
    var n := c as nat;
    if n < 0x80 then [n]
    else if n < 0x800 then [0xC0 + n / 0x40, 0x80 + n % 0x40]
    else if n < 0x10000 then [0xE0 + n / 0x40 / 0x40, 0x80 + n / 0x40 % 0x40, 0x80 + n % 0x40]
    else [0xF0 + n / 0x40 / 0x40 / 0x40, 0x80 + n / 0x40 / 0x40 % 0x40, 0x80 + n / 0x40 % 0x40, 0x80 + n % 0x40]
  }

  /** How many bytes a character takes, told by its first; 0 if none starts so. */
  function LengthOf(b: Byte): nat {
    if b < 0x80 then 1 else if 0xC2 <= b < 0xE0 then 2 else if 0xE0 <= b < 0xF0 then 3 else if 0xF0 <= b <= 0xF4 then 4 else 0
  }

  /** The second byte of a character; after some first bytes its range is narrower than that of the others. */
  predicate IsSecond(first: Byte, b: Byte) {
    (if first == 0xE0 then 0xA0 else if first == 0xF0 then 0x90 else 0x80) <= b
    <= (if first == 0xED then 0x9F else if first == 0xF4 then 0x8F else 0xBF)
  }

  predicate IsLater(b: Byte) { 0x80 <= b <= 0xBF }

  /** What stands first in some bytes: a character of n bytes, n bytes that are no character, or a start of one
      that is not complete. */
  datatype Head = Character(n: nat) | Malformed(n: nat) | Partial

  function HeadOf(b: seq<Byte>): (h: Head)
    requires b != []
    ensures !h.Partial? ==> 1 <= h.n <= |b|
    ensures h.Character? ==> h.n == LengthOf(b[0])
  {
    var n := LengthOf(b[0]);
    if n == 0 then Malformed(1)
    else if n == 1 then Character(1)
    else if |b| == 1 then Partial
    else if !IsSecond(b[0], b[1]) then Malformed(1)
    else if n == 2 then Character(2)
    else if |b| == 2 then Partial
    else if !IsLater(b[2]) then Malformed(2)
    else if n == 3 then Character(3)
    else if |b| == 3 then Partial
    else if !IsLater(b[3]) then Malformed(3)
    else Character(4)
  }

  const Replacement := '\U{FFFD}'

  function CharOf(n: nat): char { if n <= 0xD7FF || 0xE000 <= n <= 0x10FFFF then n as char else Replacement }

  function Low(b: Byte): nat { b as nat % 0x40 }

  function DecodeOne(b: seq<Byte>): char
    requires |b| > 0 && |b| == LengthOf(b[0])
  {
    if |b| == 1 then (if b[0] < 0x80 then CharOf(b[0]) else Replacement)
    else if |b| == 2 then CharOf(b[0] as nat % 0x20 * 0x40 + Low(b[1]))
    else if |b| == 3 then CharOf((b[0] as nat % 0x10 * 0x40 + Low(b[1])) * 0x40 + Low(b[2]))
    else CharOf(((b[0] as nat % 8 * 0x40 + Low(b[1])) * 0x40 + Low(b[2])) * 0x40 + Low(b[3]))
  }

  function Utf8(t: string): seq<Byte> {
    if t == "" then [] else EncodeChar(t[0]) + Utf8(t[1..])
  }

  /** The decoder of the Encoding standard on what it has so far: the characters that are complete, a replacement
      character for each run of bytes that starts none, and the bytes of one that is not complete. */
  function Take(b: seq<Byte>): (string, seq<Byte>) {
    if b == [] then ("", [])
    else
      var h := HeadOf(b);
      if h.Partial? then ("", b)
      else
        var (text, pending) := Take(b[h.n..]);
        ([if h.Character? then DecodeOne(b[..h.n]) else Replacement] + text, pending)
  }

  /** What `decoder.decode()` adds at the end of the stream. */
  function Flush(pending: seq<Byte>): string { if pending == [] then "" else [Replacement] }

  /** The text of a whole stream of bytes. */
  function TextOf(b: seq<Byte>): string { Take(b).0 + Flush(Take(b).1) }

  lemma DecodeEncode(c: char)
    ensures DecodeOne(EncodeChar(c)) == c
  {
    hide Low, CharOf;
    var n := c as nat;
    CharOfChar(c);
    SixBits(n);
    SixBits(n / 0x40);
    SixBits(n / 0x40 / 0x40);
    LeadBits(n / 0x40, n / 0x40 / 0x40, n / 0x40 / 0x40 / 0x40);
  }

  lemma CharOfChar(c: char)
    ensures CharOf(c as nat) == c
  {
  }

  /** A continuation byte holds the low six bits. */
  lemma SixBits(n: nat)
    ensures Low(0x80 + n % 0x40) == n % 0x40 && n == n / 0x40 * 0x40 + n % 0x40
  {
  }

  lemma LeadBits(x: nat, y: nat, z: nat)
    ensures x < 0x20 ==> (0xC0 + x) % 0x20 == x
    ensures y < 0x10 ==> (0xE0 + y) % 0x10 == y
    ensures z < 8 ==> (0xF0 + z) % 8 == z
  {
  }

  /** More bytes change nothing about a head that is complete. */
  lemma HeadAppend(b: seq<Byte>, c: seq<Byte>)
    requires b != [] && !HeadOf(b).Partial?
    ensures HeadOf(b + c) == HeadOf(b)
  {
    var s := b + c;
    assert forall k :: 0 <= k < |b| ==> s[k] == b[k];
  }

  /** Decoding in pieces is decoding the whole. */
  lemma {:induction false} TakeAppend(b: seq<Byte>, c: seq<Byte>)
    ensures var (text, pending) := Take(b);
            Take(b + c) == (text + Take(pending + c).0, Take(pending + c).1)
  {
    hide DecodeOne, HeadOf;
    if b == [] || HeadOf(b).Partial? {
      assert Take(b) == ("", b);
      assert "" + Take(b + c).0 == Take(b + c).0;
    } else {
      var n := HeadOf(b).n;
      HeadAppend(b, c);
      TakeAppend(b[n..], c);
      assert (b + c)[n..] == b[n..] + c && (b + c)[..n] == b[..n];
      Associate([if HeadOf(b).Character? then DecodeOne(b[..n]) else Replacement], Take(b[n..]).0, Take(Take(b[n..]).1 + c).0);
    }
  }

  function Newlines(b: seq<Byte>): nat { multiset(b)[0x0A] }
  function Breaks(t: string): nat { multiset(t)['\n'] }

  /** What one head decodes to is a line break exactly if it is the byte of one. */
  lemma HeadBreaks(b: seq<Byte>)
    requires b != [] && !HeadOf(b).Partial?
    ensures var h := HeadOf(b);
            Newlines(b[..h.n]) == Breaks([if h.Character? then DecodeOne(b[..h.n]) else Replacement])
  {
    var h := HeadOf(b);
    var head := b[..h.n];
    assert forall k :: 0 < k < h.n ==> head[k] >= 0x80;
    if h.n == 1 {
      assert head == [b[0]];
    } else {
      assert head[0] >= 0xC2;
      assert 0x0A !in head;
      if h.Character? {
        LongerIsNoBreak(head);
      }
    }
  }

  lemma LongerIsNoBreak(e: seq<Byte>)
    requires |e| > 1 && HeadOf(e) == Character(|e|)
    ensures DecodeOne(e) != '\n'
  {
    if |e| == 2 {
      assert e[0] as nat % 0x20 >= 2;
    } else if |e| == 3 {
      assert e[0] == 0xE0 ==> Low(e[1]) >= 0x20;
      assert e[0] != 0xE0 ==> e[0] as nat % 0x10 >= 1;
    } else {
      assert e[0] == 0xF0 ==> Low(e[1]) >= 0x10;
      assert e[0] != 0xF0 ==> e[0] as nat % 8 >= 1;
    }
  }

  /** However malformed the bytes, no line break is lost and none is made. */
  lemma {:induction false} BreaksAreKept(b: seq<Byte>)
    ensures Breaks(TextOf(b)) == Newlines(b)
  {
    TakeBreaks(b);
    hide Take;
    assert multiset(TextOf(b)) == multiset(Take(b).0) + multiset(Flush(Take(b).1));
  }

  lemma {:induction false} TakeBreaks(b: seq<Byte>)
    ensures Breaks(Take(b).0) == Newlines(b)
  {
    hide DecodeOne, HeadOf;
    if b != [] {
      var h := HeadOf(b);
      if h.Partial? {
        PartialHasNoBreak(b);
      } else {
        var c := if h.Character? then DecodeOne(b[..h.n]) else Replacement;
        HeadBreaks(b);
        TakeBreaks(b[h.n..]);
        assert b == b[..h.n] + b[h.n..];
        assert multiset(Take(b).0) == multiset([c]) + multiset(Take(b[h.n..]).0);
      }
    }
  }

  lemma PartialHasNoBreak(b: seq<Byte>)
    requires b != [] && HeadOf(b).Partial?
    ensures Newlines(b) == 0
  {
    assert 1 <= |b| <= 3 && b[0] >= 0xC2 && forall k :: 0 < k < |b| ==> b[k] >= 0x80;
    assert 0x0A !in b;
  }

  /** An encoded character is a whole head, and every proper part of it a start. */
  lemma EncodedHead(c: char, k: nat)
    requires 0 < k <= |EncodeChar(c)|
    ensures HeadOf(EncodeChar(c)[..k]) == if k == |EncodeChar(c)| then Character(k) else Partial
  {
    var e := EncodeChar(c);
    EncodedBytes(c);
    var p := e[..k];
    assert forall i :: 0 <= i < k ==> p[i] == e[i];
    hide EncodeChar, LengthOf, IsSecond, IsLater;
  }

  lemma EncodedBytes(c: char)
    ensures var e := EncodeChar(c);
            && |e| == LengthOf(e[0])
            && (|e| > 1 ==> IsSecond(e[0], e[1]))
            && (|e| > 2 ==> IsLater(e[2])) && (|e| > 3 ==> IsLater(e[3]))
  {
  }

  /** Cut anywhere, the bytes of a text decode to the characters that arrived whole. */
  lemma {:induction false} TakeUtf8(t: string, b: seq<Byte>)
    requires b <= Utf8(t)
    ensures var (text, pending) := Take(b);
            && text <= t
            && (b == Utf8(t) ==> text == t && pending == [])
            && (pending != [] ==> |text| < |t| && |EncodeChar(t[|text|])| > 1)
  {
    hide DecodeOne, EncodeChar, LengthOf, HeadOf;
    if b != [] {
      var e := EncodeChar(t[0]);
      assert Utf8(t) == e + Utf8(t[1..]);
      assert t == [t[0]] + t[1..];
      DecodeEncode(t[0]);
      if |b| >= |e| {
        var rest := b[|e|..];
        assert b == e + rest && b[..|e|] == e[..|e|] == e;
        EncodedHead(t[0], |e|);
        HeadAppend(e, rest);
        assert rest <= Utf8(t[1..]) by {
          assert Utf8(t)[|e|..] == Utf8(t[1..]);
        }
        TakeUtf8(t[1..], rest);
      } else {
        assert b == e[..|b|];
        EncodedHead(t[0], |b|);
      }
    }
  }

  // ----- lines -----

  /** What `String.prototype.trim` removes. */
  predicate IsJsSpace(c: char) { (IsWhite(c) && c != '\U{85}') || c == '\U{FEFF}' }

  function JsTrim(s: string): string { TrimBy(IsJsSpace, s) }

  /** The lines that `readLogStreamLine` goes on to parse. */
  function Texts(lines: seq<string>): seq<string> {
    if lines == [] then []
    else (if JsTrim(lines[0]) == "" then [] else [JsTrim(lines[0])]) + Texts(lines[1..])
  }

  lemma {:induction false} TextsAppend(a: seq<string>, b: seq<string>)
    ensures Texts(a + b) == Texts(a) + Texts(b)
  {
    hide JsTrim;
    if a == [] {
      assert a + b == b;
    } else {
      TextsAppend(a[1..], b);
      assert (a + b)[1..] == a[1..] + b;
      Associate(if JsTrim(a[0]) == "" then [] else [JsTrim(a[0])], Texts(a[1..]), Texts(b));
    }
  }

  /** More text only extends the last line. */
  lemma {:induction false} SplitAppend(a: string, b: string)
    ensures var lines := Split(a, '\n');
            Split(a + b, '\n') == lines[..|lines| - 1] + Split(lines[|lines| - 1] + b, '\n')
    decreases |a|
  {
    hide *;
    var (before, after, found) := Cut(a, '\n');
    SplitOnce(a);
    if !found {
      assert [a][..0] == [] && [] + Split(a + b, '\n') == Split(a + b, '\n');
    } else {
      CutLater(a, b);
      SplitOnce(a + b);
      SplitAppend(after, b);
      LastOfSplit(before, Split(after, '\n'), b);
    }
  }

  lemma CutLater(a: string, b: string)
    requires Cut(a, '\n').2
    ensures Cut(a + b, '\n') == (Cut(a, '\n').0, Cut(a, '\n').1 + b, true)
    ensures |Cut(a, '\n').1| < |a|
  {
    var (before, after, found) := Cut(a, '\n');
    var (before', after', found') := Cut(a + b, '\n');
    SameHead(a, b, before, after);
    SplitUnique(before, after + b, before', after', '\n');
  }

  lemma SameHead(a: string, b: string, before: string, after: string)
    requires a == before + ['\n'] + after && '\n' !in before && Cut(a, '\n') == (before, after, true)
    ensures Cut(a + b, '\n').2 && before + ['\n'] + (after + b) == Cut(a + b, '\n').0 + ['\n'] + Cut(a + b, '\n').1
  {
    hide Cut;
    assert a + b == before + ['\n'] + (after + b);
    assert (a + b)[|before|] == '\n';
  }

  lemma LastOfSplit(before: string, rest: seq<string>, b: string)
    requires |rest| > 0
    ensures var lines, n := [before] + rest, |rest| - 1;
            lines[..n + 1] + Split(lines[n + 1] + b, '\n') == [before] + (rest[..n] + Split(rest[n] + b, '\n'))
  {
    hide Split;
    var n := |rest| - 1;
    assert ([before] + rest)[..n + 1] == [before] + rest[..n] && ([before] + rest)[n + 1] == rest[n];
    Associate([before], rest[..n], Split(rest[n] + b, '\n'));
  }

  lemma SplitOnce(s: string)
    ensures var (before, after, found) := Cut(s, '\n');
            Split(s, '\n') == if found then [before] + Split(after, '\n') else [s]
  {
    hide Join;
  }

  /** The messages parsed before the first text that is no message, which ends the stream with an error. */
  function Received<M>(texts: seq<string>, parse: string -> Option<M>): (seq<M>, bool) {
    if texts == [] then ([], true)
    else if parse(texts[0]).None? then ([], false)
    else
      var (rest, ok) := Received(texts[1..], parse);
      ([parse(texts[0]).value] + rest, ok)
  }

  lemma {:induction false} ReceivedAppend<M>(a: seq<string>, b: seq<string>, parse: string -> Option<M>)
    ensures var (first, ok) := Received(a, parse);
            Received(a + b, parse) == if ok then (first + Received(b, parse).0, Received(b, parse).1) else (first, false)
  {
    if a == [] {
      assert a + b == b;
      assert [] + Received(b, parse).0 == Received(b, parse).0;
    } else {
      ReceivedAppend(a[1..], b, parse);
      assert (a + b)[1..] == a[1..] + b;
      if parse(a[0]).Some? {
        Associate([parse(a[0]).value], Received(a[1..], parse).0, Received(b, parse).0);
      }
    }
  }

  function Concat(chunks: seq<seq<Byte>>): seq<Byte> {
    if chunks == [] then [] else Concat(chunks[..|chunks| - 1]) + chunks[|chunks| - 1]
  }

  /** What a client is to receive from a stream of bytes. */
  function Delivered<M>(b: seq<Byte>, parse: string -> Option<M>): (seq<M>, bool) {
    Received(Texts(Split(TextOf(b), '\n')), parse)
  }

  lemma OneLine<M>(line: string, parse: string -> Option<M>)
    ensures Received(Texts([line]), parse) ==
            if JsTrim(line) == "" then ([], true)
            else if parse(JsTrim(line)).None? then ([], false)
            else ([parse(JsTrim(line)).value], true)
  {
    hide JsTrim;
    assert Texts([line]) == if JsTrim(line) == "" then [] else [JsTrim(line)];
    assert [JsTrim(line)][1..] == [];
    var none: seq<M> := [];
    assert parse(JsTrim(line)).Some? ==> [parse(JsTrim(line)).value] + none == [parse(JsTrim(line)).value];
  }

  method ReadLine<M>(line: string, delivered: seq<M>, parse: string -> Option<M>) returns (r: seq<M>, ok: bool)
    ensures (r, ok) == (delivered + Received(Texts([line]), parse).0, Received(Texts([line]), parse).1)
  {
    hide JsTrim;
    OneLine(line, parse);
    var none: seq<M> := [];
    assert delivered + none == delivered;
    var trimmed := JsTrim(line);
    if trimmed == "" {
      return delivered, true;
    }
    var message := parse(trimmed);
    if message.None? {
      return delivered, false;
    }
    return delivered + [message.value], true;
  }

  lemma ConcatStep(chunks: seq<seq<Byte>>, i: nat)
    requires i < |chunks|
    ensures Concat(chunks[..i + 1]) == Concat(chunks[..i]) + chunks[i]
  {
    assert chunks[..i + 1][..i] == chunks[..i];
  }

  lemma {:induction false} ConcatPrefix(chunks: seq<seq<Byte>>, i: nat)
    requires i <= |chunks|
    ensures Concat(chunks[..i]) <= Concat(chunks)
    decreases |chunks| - i
  {
    if i == |chunks| {
      assert chunks[..i] == chunks;
    } else {
      ConcatPrefix(chunks, i + 1);
      ConcatStep(chunks, i);
    }
  }

  /** Lines that were complete at some time stay what they are. */
  lemma CompleteLinesStay(b: seq<Byte>, whole: seq<Byte>, done: seq<string>, buffer: string) returns (rest: seq<string>)
    requires b <= whole && Split(Take(b).0, '\n') == done + [buffer]
    ensures Split(TextOf(whole), '\n') == done + rest
  {
    hide Take, Split, Flush;
    var more := whole[|b|..];
    assert whole == b + more;
    TakeAppend(b, more);
    var text := Take(b).0;
    var extra := Take(Take(b).1 + more).0 + Flush(Take(whole).1);
    assert TextOf(whole) == text + extra;
    SplitAppend(text, extra);
    assert (done + [buffer])[..|done|] == done;
    rest := Split(buffer + extra, '\n');
  }

  /** The last line, with what flushing the decoder adds. */
  lemma LastLine(b: seq<Byte>, done: seq<string>, buffer: string)
    requires Split(Take(b).0, '\n') == done + [buffer]
    ensures Split(TextOf(b), '\n') == done + [buffer + Flush(Take(b).1)]
  {
    hide Take;
    var last := buffer + Flush(Take(b).1);
    SplitAppend(Take(b).0, Flush(Take(b).1));
    assert (done + [buffer])[..|done|] == done && (done + [buffer])[|done|] == buffer;
    assert '\n' !in last;
    SplitIsTheOnlySplit([last], '\n');
  }

  /** A stream that has failed delivers nothing more. */
  lemma FailedStreamStays<M>(b: seq<Byte>, whole: seq<Byte>, done: seq<string>, buffer: string, parse: string -> Option<M>)
    requires b <= whole && Split(Take(b).0, '\n') == done + [buffer]
    requires !Received(Texts(done), parse).1
    ensures Delivered(whole, parse) == Received(Texts(done), parse)
  {
    hide Take, Split, Texts, TextOf;
    var rest := CompleteLinesStay(b, whole, done, buffer);
    TextsAppend(done, rest);
    ReceivedAppend(Texts(done), Texts(rest), parse);
  }

  method ReadLines<M>(lines: seq<string>, sofar: seq<M>, ghost done: seq<string>, parse: string -> Option<M>) returns (delivered: seq<M>, ok: bool)
    requires Received(Texts(done), parse) == (sofar, true)
    ensures Received(Texts(done + lines), parse) == (delivered, ok)
  {
    hide Texts, Received;
    delivered, ok := sofar, true;
    assert done + lines[..0] == done;
    for i := 0 to |lines|
      invariant ok && Received(Texts(done + lines[..i]), parse) == (delivered, true)
    {
      TextsAppend(done + lines[..i], [lines[i]]);
      assert done + lines[..i] + [lines[i]] == done + lines[..i + 1];
      ReceivedAppend(Texts(done + lines[..i]), Texts([lines[i]]), parse);
      delivered, ok := ReadLine(lines[i], delivered, parse);
      if !ok {
        var rest := lines[i + 1..];
        TextsAppend(done + lines[..i + 1], rest);
        ReceivedAppend(Texts(done + lines[..i + 1]), Texts(rest), parse);
        assert done + lines[..i + 1] + rest == done + lines;
        return;
      }
    }
    assert lines[..|lines|] == lines;
  }

  lemma NothingRead<M>(chunks: seq<seq<Byte>>, parse: string -> Option<M>)
    ensures Concat(chunks[..0]) == [] && Take([]) == ("", []) && Split("", '\n') == [] + [""] && Received(Texts([]), parse) == ([], true)
  {
  }

  /** One turn of the read loop. */
  lemma ReadChunk(chunks: seq<seq<Byte>>, i: nat, done: seq<string>, buffer: string)
    requires i < |chunks| && Split(Take(Concat(chunks[..i])).0, '\n') == done + [buffer]
    ensures var (piece, rest) := Take(Take(Concat(chunks[..i])).1 + chunks[i]);
            var lines := Split(buffer + piece, '\n');
            && Take(Concat(chunks[..i + 1])).1 == rest
            && Split(Take(Concat(chunks[..i + 1])).0, '\n') == (done + lines[..|lines| - 1]) + [lines[|lines| - 1]]
  {
    hide Take, Split, Concat;
    var before := Concat(chunks[..i]);
    var piece := Take(Take(before).1 + chunks[i]).0;
    var lines := Split(buffer + piece, '\n');
    ConcatStep(chunks, i);
    TakeAppend(before, chunks[i]);
    SplitAppend(Take(before).0, piece);
    assert (done + [buffer])[..|done|] == done;
    assert done + lines == (done + lines[..|lines| - 1]) + [lines[|lines| - 1]];
  }

  /** The read loop. For every way of cutting the bytes into chunks it hands on the same messages. */
  method StreamLogs<M>(chunks: seq<seq<Byte>>, parse: string -> Option<M>) returns (delivered: seq<M>, ok: bool)
    ensures (delivered, ok) == Delivered(Concat(chunks), parse)
  {
    hide Take, Split, Texts, Received, Concat, TextOf;
    delivered, ok := [], true;
    var pending: seq<Byte> := [];
    var buffer := "";
    ghost var done: seq<string> := [];
    NothingRead(chunks, parse);
    for i := 0 to |chunks|
      invariant pending == Take(Concat(chunks[..i])).1
      invariant Split(Take(Concat(chunks[..i])).0, '\n') == done + [buffer]
      invariant Received(Texts(done), parse) == (delivered, true)
    {
      ReadChunk(chunks, i, done, buffer);
      var (piece, rest) := Take(pending + chunks[i]);
      pending := rest;
      var lines := Split(buffer + piece, '\n');
      var complete := lines[..|lines| - 1];
      buffer := lines[|lines| - 1];
      delivered, ok := ReadLines(complete, delivered, done, parse);
      done := done + complete;
      if !ok {
        ConcatPrefix(chunks, i + 1);
        FailedStreamStays(Concat(chunks[..i + 1]), Concat(chunks), done, buffer, parse);
        return;
      }
    }
    assert chunks[..|chunks|] == chunks;
    LastLine(Concat(chunks), done, buffer);
    buffer := buffer + Flush(pending);
    TextsAppend(done, [buffer]);
    ReceivedAppend(Texts(done), Texts([buffer]), parse);
    delivered, ok := ReadLine(buffer, delivered, parse);
  }
}
