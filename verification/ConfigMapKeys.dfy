/** The hand-written scanner that indexes the keys of a ConfigMap's data without decoding its values, against
    the JSON grammar. */
module ConfigMapKeys {
  import opened Text
  import opened Names
  import opened Json

  const MaxEntries := 4096

  // ----- the scanner on what is left of the text -----

  function SkipWs(s: string): (r: string)
    ensures |r| <= |s| && r == s[|s| - |r|..]
  {
    if s != "" && IsWs(s[0]) then SkipWs(s[1..]) else s
  }

  // ----- keys -----

  predicate ValidKey(s: string) {
    && s != "" && s != "." && |s| <= 253 && !(|s| >= 2 && s[0] == '.' && s[1] == '.')
    && forall k :: 0 <= k < |s| ==> IsAlphanumeric(s[k]) || s[k] == '-' || s[k] == '_' || s[k] == '.'
  }

  /** What the index holds after a scan; a rejected text leaves it invalid and empty. */
  datatype Index = Index(valid: bool, keys: set<string>)
  const Rejected := Index(false, {})

  function Note(i: Index, key: string): Index {
    if key in i.keys then Index(false, i.keys)
    else if |i.keys| < MaxEntries then Index(i.valid && ValidKey(key), i.keys + {key})
    else Index(false, i.keys)
  }

  /** One turn of the member loop: the key read, and the text of the next member if a comma follows. */
  datatype Entry = Bad | Last(key: string) | More(key: string, rest: string)

  function ReadEntry(s: string): (e: Entry)
    ensures e.More? ==> |e.rest| < |s|
  {
    var key := LexString(s);
    if key.None? then Bad
    else
      LexStringGrammarKey(s);
      var name := Decode(key.value.0);
      var s1 := SkipWs(key.value.1);
      if s1 == "" || s1[0] != ':' then Bad
      else
        var value := LexString(SkipWs(s1[1..]));
        if value.None? then Bad
        else
          var s2 := SkipWs(value.value.1);
          if s2 == "" then Bad
          else if s2[0] == ',' then More(name, SkipWs(s2[1..]))
          else if s2[0] == '}' && SkipWs(s2[1..]) == "" then Last(name)
          else Bad
  }

  /** The member loop, entered after white space. */
  function ScanMembers(s: string, i: Index): Index
    decreases |s|
  {
    match ReadEntry(s)
    case Bad => Rejected
    case Last(key) => Note(i, key)
    case More(key, rest) => ScanMembers(rest, Note(i, key))
  }

  lemma LexStringGrammarKey(s: string)
    requires LexString(s).Some?
    ensures ValidChars(LexString(s).value.0)
  {
    LexStringGrammar(s, LexString(s).value.0, LexString(s).value.1);
  }

  /** `UnmarshalJSON` after `json.Valid` and the trim. */
  function Scan(data: string): Index {
    if data == "null" then Index(true, {})
    else if |data| < 2 || data[0] != '{' then Rejected
    else
      var s := SkipWs(data[1..]);
      if s != "" && s[0] == '}' then Index(|s| == 1, {})
      else ScanMembers(s, Index(true, {}))
  }

  // ----- the scanner on documents -----

  lemma {:induction false} SkipWsOver(w: string, s: string)
    requires AllWs(w)
    ensures SkipWs(w + s) == SkipWs(s)
  {
    if w == "" {
      assert w + s == s;
    } else {
      assert (w + s)[1..] == w[1..] + s;
      SkipWsOver(w[1..], s);
    }
  }

  /** The scan of a list of members, told on the tree: rejected at the first value that is not a string. */
  function Walk(ms: seq<Member>, i: Index): Index
    requires forall k :: 0 <= k < |ms| ==> ValidMember(ms[k])
  {
    if ms == [] then i
    else
      assert ValidMember(ms[0]);
      if !ms[0].value.Str? then Rejected else Walk(ms[1..], Note(i, Decode(ms[0].key)))
  }

  /** What is left of the text at two stops inside a member. */
  function AfterKey(m: Member, rest: string): string { m.beforeColon + (":" + (m.afterColon + AtValue(m, rest))) }
  function AtValue(m: Member, rest: string): string { Print(m.value) + (m.after + rest) }

  function AfterMember(ms: seq<Member>): string
    requires ms != []
  {
    if |ms| == 1 then "}" else "," + (PrintMembers(ms[1..]) + "}")
  }

  lemma AssociateMember(a: string, b: string, c: string, d: string, e: string, f: string, g: string, rest: string)
    ensures (a + (b + (c + (d + (e + (f + g)))))) + rest == a + (b + (c + (d + (e + (f + (g + rest))))))
  {
    Associate(f, g, rest);
    Associate(e, f + g, rest);
    Associate(d, e + (f + g), rest);
    Associate(c, d + (e + (f + g)), rest);
    Associate(b, c + (d + (e + (f + g))), rest);
    Associate(a, b + (c + (d + (e + (f + g)))), rest);
  }

  lemma MemberParts(ms: seq<Member>)
    requires ms != []
    ensures PrintMembers(ms) + "}" == ms[0].before + (PrintString(ms[0].key) + AfterKey(ms[0], AfterMember(ms)))
  {
    hide PrintString, Print;
    var m := ms[0];
    AssociateMember(m.before, PrintString(m.key), m.beforeColon, ":", m.afterColon, Print(m.value), m.after, AfterMember(ms));
    PrintMembersSplit(ms);
  }

  lemma PrintMembersSplit(ms: seq<Member>)
    requires ms != []
    ensures PrintMembers(ms) + "}" == PrintMember(ms[0]) + AfterMember(ms)
  {
    hide PrintMember;
    if |ms| > 1 {
      Associate(",", PrintMembers(ms[1..]), "}");
      Associate(PrintMember(ms[0]), "," + PrintMembers(ms[1..]), "}");
    } else {
      assert PrintMember(ms[0]) + "" == PrintMember(ms[0]);
    }
  }

  lemma StopAt(w: string, s: string)
    requires AllWs(w) && s != "" && !IsWs(s[0])
    ensures SkipWs(w + s) == s
  {
    SkipWsOver(w, s);
  }

  /** What the scanner meets after a key. */
  lemma ValueAhead(m: Member, rest: string)
    requires ValidMember(m)
    ensures var s := SkipWs(AfterKey(m, rest));
            && s != "" && s[0] == ':'
            && SkipWs(s[1..]) == AtValue(m, rest)
  {
    hide Print, PrintString, ValidChars;
    var value := AtValue(m, rest);
    PrintStart(m.value);
    assert value[0] == Print(m.value)[0];
    hide AtValue;
    var s := ":" + (m.afterColon + value);
    StopAt(m.beforeColon, s);
    StopAt(m.afterColon, value);
    assert s[1..] == m.afterColon + value;
  }

  /** One turn of the member loop on a printed member. */
  lemma ReadMember(m: Member, rest: string)
    requires ValidMember(m)
    requires rest != "" && (rest[0] == ',' || rest[0] == '}')
    ensures ReadEntry(PrintString(m.key) + AfterKey(m, rest)) ==
            if !m.value.Str? then Bad
            else if rest[0] == ',' then More(Decode(m.key), SkipWs(rest[1..]))
            else if SkipWs(rest[1..]) == "" then Last(Decode(m.key)) else Bad
  {
    hide PrintString, Print, PrintChars, ValidChars, LexString, Decode, AfterKey, AtValue, SkipWs;
    LexStringGrammar(PrintString(m.key) + AfterKey(m, rest), m.key, AfterKey(m, rest));
    ValueAhead(m, rest);
    StringAhead(m, rest);
    StopAt(m.after, rest);
  }

  lemma StringAhead(m: Member, rest: string)
    requires Valid(m.value)
    ensures LexString(AtValue(m, rest)) == if m.value.Str? then Some((m.value.chars, m.after + rest)) else None
  {
    hide LexChars, PrintString;
    var v := m.value;
    PrintStart(v);
    if v.Str? {
      LexStringGrammar(Print(v) + (m.after + rest), v.chars, m.after + rest);
    }
  }

  lemma MemberStart(ms: seq<Member>)
    requires ms != [] && ValidMember(ms[0])
    ensures SkipWs(PrintMembers(ms) + "}") == PrintString(ms[0].key) + AfterKey(ms[0], AfterMember(ms))
    ensures PrintString(ms[0].key) != "" && PrintString(ms[0].key)[0] == '"'
  {
    hide PrintMembers, AfterKey, AfterMember;
    MemberParts(ms);
    StopAt(ms[0].before, PrintString(ms[0].key) + AfterKey(ms[0], AfterMember(ms)));
  }

  lemma {:induction false} ScanWalk(ms: seq<Member>, i: Index)
    requires ms != [] && forall k :: 0 <= k < |ms| ==> ValidMember(ms[k])
    ensures ScanMembers(SkipWs(PrintMembers(ms) + "}"), i) == Walk(ms, i)
  {
    hide *;
    var m, rest := ms[0], ms[1..];
    assert ValidMember(m);
    assert forall k :: 0 <= k < |rest| ==> rest[k] == ms[k + 1];
    MemberHasChars(m);
    MemberStart(ms);
    ReadFirst(ms);
    ScanOnce(PrintString(m.key) + AfterKey(m, AfterMember(ms)), i);
    WalkStep(ms, i);
    if |ms| > 1 {
      ScanWalk(rest, Note(i, Decode(m.key)));
    } else {
      assert rest == [];
      WalkNothing(Note(i, Decode(m.key)));
    }
  }

  lemma ReadFirst(ms: seq<Member>)
    requires ms != [] && ValidMember(ms[0]) && ValidChars(ms[0].key)
    ensures ReadEntry(PrintString(ms[0].key) + AfterKey(ms[0], AfterMember(ms))) ==
            if !ms[0].value.Str? then Bad
            else if |ms| == 1 then Last(Decode(ms[0].key))
            else More(Decode(ms[0].key), SkipWs(PrintMembers(ms[1..]) + "}"))
  {
    hide *;
    AfterMemberStarts(ms);
    NothingToSkip();
    ReadMember(ms[0], AfterMember(ms));
  }

  lemma MemberHasChars(m: Member)
    requires ValidMember(m)
    ensures ValidChars(m.key)
  {
  }

  lemma AfterMemberStarts(ms: seq<Member>)
    requires ms != []
    ensures var rest := AfterMember(ms);
            if |ms| == 1 then rest == "}" && rest[1..] == ""
            else rest != "" && rest[0] == ',' && rest[1..] == PrintMembers(ms[1..]) + "}"
  {
    hide PrintMembers;
  }

  lemma ScanOnce(s: string, i: Index)
    ensures var e := ReadEntry(s);
            ScanMembers(s, i) == if e.Bad? then Rejected else if e.Last? then Note(i, e.key) else ScanMembers(e.rest, Note(i, e.key))
  {
    hide ReadEntry, Note;
  }

  lemma WalkStep(ms: seq<Member>, i: Index)
    requires ms != [] && (forall k :: 0 <= k < |ms| ==> ValidMember(ms[k])) && ValidChars(ms[0].key)
    ensures Walk(ms, i) == if !ms[0].value.Str? then Rejected else Walk(ms[1..], Note(i, Decode(ms[0].key)))
  {
    hide Note, Decode, ValidMember, ValidChars;
  }

  lemma NothingToSkip()
    ensures SkipWs("") == ""
  {
  }

  function Told(v: Value): Index
    requires Valid(v)
  {
    match v
    case Null => Index(true, {})
    case Object(_, ms) => Walk(ms, Index(true, {}))
    case _ => Rejected
  }

  lemma ScanTold(v: Value)
    requires Valid(v)
    ensures Scan(Print(v)) == Told(v)
  {
    PrintStart(v);
    if v.Object? {
      ScanObject(v);
    }
  }

  lemma ScanObject(v: Value)
    requires Valid(v) && v.Object?
    ensures Scan(Print(v)) == Walk(v.members, Index(true, {}))
  {
    hide Walk, ScanMembers, PrintMembers, PrintString, Print, AfterKey, ValidMember, SkipWs;
    ObjectTail(v);
    if v.members == [] {
      WalkNothing(Index(true, {}));
      StopAt(v.blank, "}");
    } else {
      ScanWalk(v.members, Index(true, {}));
      assert ValidMember(v.members[0]);
      MemberStart(v.members);
    }
  }

  lemma ObjectTail(v: Value)
    requires v.Object?
    ensures var s := Print(v);
            |s| >= 2 && s[0] == '{' && s[1..] == (if v.members == [] then v.blank else PrintMembers(v.members)) + "}"
  {
    hide PrintMembers;
  }

  lemma WalkNothing(i: Index)
    ensures Walk([], i) == i
  {
  }

  // ----- what the index means -----

  function KeysOf(ms: seq<Member>): seq<string>
    requires forall k :: 0 <= k < |ms| ==> ValidMember(ms[k])
  {
    seq(|ms|, k requires 0 <= k < |ms| => assert ValidMember(ms[k]); Decode(ms[k].key))
  }

  predicate Flat(ms: seq<Member>) { forall k :: 0 <= k < |ms| ==> ms[k].value.Str? }

  predicate GoodKeys(keys: seq<string>) {
    && |keys| <= 4096
    && (forall k :: 0 <= k < |keys| ==> ValidKey(keys[k]))
    && forall j, k :: 0 <= j < k < |keys| ==> keys[j] != keys[k]
  }

  function Elements(s: seq<string>): set<string> { set x | x in s }

  /** The scan of a member list decides exactly the grammar of a ConfigMap's data, from any state. */
  lemma {:induction false} WalkMeaning(ms: seq<Member>, i: Index)
    requires forall k :: 0 <= k < |ms| ==> ValidMember(ms[k])
    requires |i.keys| <= MaxEntries
    ensures !Flat(ms) ==> Walk(ms, i) == Rejected
    ensures Flat(ms) ==> var keys := KeysOf(ms);
                         (Walk(ms, i).valid <==>
                          i.valid && GoodKeys(keys) && |i.keys| + |keys| <= MaxEntries && Elements(keys) !! i.keys)
    ensures Walk(ms, i).valid ==> Walk(ms, i).keys == i.keys + Elements(KeysOf(ms))
  {
    hide ValidMember, Decode, ValidKey, Walk, Note, KeysOf, Elements, GoodKeys, Flat;
    if ms == [] {
      WalkNothing(i);
      NoKeys();
    } else {
      KeysOfStep(ms);
      var key, rest := KeysOf(ms)[0], KeysOf(ms[1..]);
      NoteFacts(i, key);
      WalkOnce(ms, i);
      FlatStep(ms);
      if ms[0].value.Str? {
        WalkMeaning(ms[1..], Note(i, key));
        GoodKeysStep(key, rest);
      }
    }
  }

  lemma NoKeys()
    ensures KeysOf([]) == [] && Elements([]) == {} && GoodKeys([]) && Flat([])
  {
  }

  lemma WalkOnce(ms: seq<Member>, i: Index)
    requires ms != [] && forall k :: 0 <= k < |ms| ==> ValidMember(ms[k])
    ensures |KeysOf(ms)| == |ms| && Walk(ms, i) == if !ms[0].value.Str? then Rejected else Walk(ms[1..], Note(i, KeysOf(ms)[0]))
  {
    hide Note, Decode, ValidMember;
    KeysOfStep(ms);
  }

  lemma NoteFacts(i: Index, key: string)
    requires |i.keys| <= MaxEntries
    ensures var i' := Note(i, key);
            && |i'.keys| <= MaxEntries
            && (i'.valid <==> i.valid && key !in i.keys && |i.keys| < MaxEntries && ValidKey(key))
            && (i'.valid ==> i'.keys == i.keys + {key} && |i'.keys| == |i.keys| + 1)
  {
    hide ValidKey;
  }

  lemma KeysOfStep(ms: seq<Member>)
    requires ms != [] && forall k :: 0 <= k < |ms| ==> ValidMember(ms[k])
    ensures |KeysOf(ms)| == |ms| && KeysOf(ms)[0] == Decode(ms[0].key)
    ensures KeysOf(ms) == [KeysOf(ms)[0]] + KeysOf(ms[1..])
    ensures Elements(KeysOf(ms)) == {KeysOf(ms)[0]} + Elements(KeysOf(ms[1..]))
  {
    hide Decode, ValidMember;
  }

  lemma FlatStep(ms: seq<Member>)
    requires ms != []
    ensures Flat(ms) <==> ms[0].value.Str? && Flat(ms[1..])
  {
    assert forall k :: 0 < k < |ms| ==> ms[k] == ms[1..][k - 1];
  }

  lemma GoodKeysStep(key: string, rest: seq<string>)
    ensures GoodKeys([key] + rest) <==> |rest| < MaxEntries && ValidKey(key) && key !in Elements(rest) && GoodKeys(rest)
  {
    hide ValidKey;
    var keys := [key] + rest;
    assert forall k :: 0 <= k < |rest| ==> keys[k + 1] == rest[k];
    if GoodKeys(keys) {
      forall k | 0 <= k < |rest|
        ensures ValidKey(rest[k]) && key != rest[k]
      {
        assert ValidKey(keys[k + 1]) && keys[0] != keys[k + 1];
      }
      assert key !in rest;
      forall j, k | 0 <= j < k < |rest|
        ensures rest[j] != rest[k]
      {
        assert keys[j + 1] != keys[k + 1];
      }
      assert GoodKeys(rest) && ValidKey(keys[0]);
    }
    if |rest| < MaxEntries && ValidKey(key) && key !in Elements(rest) && GoodKeys(rest) {
      assert forall k :: 0 < k < |keys| ==> keys[k] == rest[k - 1];
      assert forall k :: 0 <= k < |rest| ==> rest[k] in Elements(rest);
      assert forall j, k :: 0 <= j < k < |keys| ==> keys[j] != keys[k];
      assert GoodKeys(keys);
    }
  }

  /** Data a ConfigMap may hold: null, or an object whose values are strings and whose keys are good. */
  predicate Acceptable(v: Value)
    requires Valid(v)
  {
    v.Null? || (v.Object? && Flat(v.members) && GoodKeys(KeysOf(v.members)))
  }

  function DataKeys(v: Value): set<string>
    requires Valid(v)
  {
    if v.Object? then Elements(KeysOf(v.members)) else {}
  }

  /** The scanner decides the grammar of a ConfigMap's data on every JSON text, whatever its white space and
      escapes, and indexes exactly its keys. */
  lemma ScannerDecidesTheGrammar(d: Document)
    requires ValidDocument(d)
    ensures var i := Scan(TrimSpace(PrintDocument(d)));
            && (i.valid <==> Acceptable(d.value))
            && (i.valid ==> i.keys == DataKeys(d.value))
  {
    hide Scan, Walk, KeysOf, ValidKey, Flat, ValidMember, PrintDocument, TrimSpace, Print;
    TrimDocument(d);
    ScanTold(d.value);
    if d.value.Object? {
      WalkMeaning(d.value.members, Index(true, {}));
    }
  }

  /** Two texts of one value, printed and escaped differently, index the same keys. */
  lemma PrintingDoesNotMatter(d: Document, d': Document)
    requires ValidDocument(d) && ValidDocument(d')
    requires d.value.Object? && d'.value.Object? && Flat(d.value.members) && Flat(d'.value.members)
    requires KeysOf(d.value.members) == KeysOf(d'.value.members)
    ensures var i, i' := Scan(TrimSpace(PrintDocument(d))), Scan(TrimSpace(PrintDocument(d')));
            i.valid == i'.valid && (i.valid ==> i == i')
  {
    hide Scan, PrintDocument, TrimSpace, KeysOf, GoodKeys, Flat;
    ScannerDecidesTheGrammar(d);
    ScannerDecidesTheGrammar(d');
  }

  // ----- the scanner as it runs -----

  /** What is left of a text at a position. */
  ghost function From(data: string, position: nat): string
    requires position <= |data|
  {
    data[position..]
  }

  lemma FromIs(data: string, position: nat)
    requires position <= |data|
    ensures From(data, position) == data[position..]
  {
  }

  lemma FromStep(data: string, position: nat)
    requires position <= |data|
    ensures From(data, position) == "" <==> position == |data|
    ensures position < |data| ==> From(data, position)[0] == data[position] && From(data, position)[1..] == From(data, position + 1)
  {
  }

  lemma NothingAhead(data: string, position: nat)
    requires position == |data|
    ensures LexString(From(data, position)).None?
  {
  }

  method SkipJsonWhitespace(data: string, start: nat) returns (position: nat)
    requires start <= |data|
    ensures start <= position <= |data|
    ensures From(data, position) == SkipWs(From(data, start))
  {
    position := start;
    while position < |data| && IsWs(data[position])
      invariant start <= position <= |data|
      invariant SkipWs(data[position..]) == SkipWs(data[start..])
    {
      assert data[position..][1..] == data[position + 1..];
      position := position + 1;
    }
  }

  method FourHexDigits(data: string, start: nat) returns (ok: bool)
    requires start + 4 <= |data|
    ensures ok == AllHex(data[start..start + 4])
  {
    var offset := 0;
    while offset < 4
      invariant 0 <= offset <= 4
      invariant forall o: nat :: start <= o < start + offset ==> IsHex(data[o])
    {
      if !IsHex(data[start + offset]) {
        assert data[start..start + 4][offset] == data[start + offset];
        return false;
      }
      offset := offset + 1;
    }
    return true;
  }

  /** The part of the literal loop after a backslash: it stops on the last byte of the escape. */
  method SkipEscape(data: string, start: nat) returns (position: nat, ok: bool)
    requires start < |data| && data[start] == '\\'
    ensures ok <==> TurnLength(data[start..]) > 0
    ensures ok ==> position + 1 == start + TurnLength(data[start..])
  {
    hide AllHex;
    ghost var s := data[start..];
    position := start + 1;
    if position >= |data| {
      return position, false;
    }
    if data[position] == 'u' {
      if position + 4 >= |data| {
        return position, false;
      }
      ok := FourHexDigits(data, position + 1);
      assert s[2..6] == data[position + 1..position + 5];
      if !ok {
        return position, false;
      }
      return position + 4, true;
    }
    return position, data[position] in Escapes;
  }

  lemma PlainTurn(s: string)
    requires s != ""
    ensures s[0] != '\\' ==> TurnLength(s) == if s[0] < ' ' then 0 else 1
  {
    hide AllHex;
  }

  predicate AllHex(s: string) { forall o: nat :: o < |s| ==> IsHex(s[o]) }

  /** Finds the end of a string literal: exactly where the grammar ends one, strictly ahead and in bounds. */
  method SkipJsonString(data: string, start: nat) returns (end: nat, ok: bool)
    requires start <= |data|
    ensures ok <==> LexString(From(data, start)).Some?
    ensures ok ==> start < end <= |data| && LexString(From(data, start)).value.1 == From(data, end)
  {
    if start >= |data| || data[start] != '"' {
      return start, false;
    }
    var position := start + 1;
    assert data[start..][1..] == data[position..];
    while position < |data|
      invariant start < position <= |data|
      invariant LexString(data[start..]).Some? <==> LexChars(data[position..]).Some?
      invariant LexString(data[start..]).Some? ==> LexString(data[start..]).value.1 == LexChars(data[position..]).value.1
    {
      hide LexChars, LexString, TurnLength;
      ghost var s := data[position..];
      LexCharsTurn(s);
      PlainTurn(s);
      ghost var from := position;
      if data[position] == '"' {
        assert s[1..] == data[position + 1..];
        return position + 1, true;
      } else if data[position] == '\\' {
        var escaped;
        position, escaped := SkipEscape(data, position);
        if !escaped {
          return position, false;
        }
      } else if data[position] < ' ' {
        return position, false;
      }
      position := position + 1;
      assert position == from + TurnLength(s);
      assert s[TurnLength(s)..] == data[position..];
    }
    assert data[position..] == "";
    return position, false;
  }

  /** How far one turn of the literal loop goes; 0 where it gives up. */
  ghost function TurnLength(s: string): nat
    requires s != ""
  {
    if s[0] == '\\' then
      if |s| < 2 then 0
      else if s[1] == 'u' then (if |s| >= 6 && AllHex(s[2..6]) then 6 else 0)
      else if s[1] in Escapes then 2 else 0
    else if s[0] < ' ' then 0
    else 1
  }

  /** What one turn does to the rest of the literal. */
  ghost predicate TurnIs(s: string)
    requires s != ""
  {
    var n := TurnLength(s);
    && n <= |s|
    && (n == 0 ==> LexChars(s).None?)
    && (n > 0 ==> var t := LexChars(s[n..]);
                  LexChars(s).Some? == t.Some? && (t.Some? ==> LexChars(s).value.1 == t.value.1))
  }

  lemma LexCharsTurn(s: string)
    requires s != ""
    ensures s[0] == '"' ==> LexChars(s) == Some(([], s[1..]))
    ensures s[0] != '"' ==> TurnIs(s)
  {
    if s[0] == '\\' && |s| >= 2 && s[1] == 'u' {
      UnicodeTurn(s);
    } else if s[0] == '\\' {
      EscapeTurn(s);
    }
  }

  lemma UnicodeTurn(s: string)
    requires |s| >= 2 && s[0] == '\\' && s[1] == 'u'
    ensures TurnIs(s)
  {
    hide IsHex;
    if |s| >= 6 {
      assert s[2..6] == [s[2], s[3], s[4], s[5]];
      assert AllHex(s[2..6]) <==> IsHex(s[2]) && IsHex(s[3]) && IsHex(s[4]) && IsHex(s[5]);
      hide AllHex;
    }
  }

  lemma EscapeTurn(s: string)
    requires s != "" && s[0] == '\\' && (|s| >= 2 ==> s[1] != 'u')
    ensures TurnIs(s)
  {
    hide AllHex, IsHex;
  }

  /** `json.Unmarshal` of one string literal. */
  function DecodeString(literal: string): string
    requires LexString(literal).Some?
  {
    LexStringGrammarKey(literal);
    Decode(LexString(literal).value.0)
  }

  lemma LiteralAlone(data: string, start: nat, end: nat)
    requires start < end <= |data|
    requires LexString(From(data, start)).Some? && LexString(From(data, start)).value.1 == From(data, end)
    ensures var literal := data[start..end];
            LexString(literal).Some? && LexString(literal).value.0 == LexString(From(data, start)).value.0
  {
    hide LexString;
    var (cs, rest) := LexString(data[start..]).value;
    LexStringGrammar(data[start..], cs, rest);
    assert data[start..] == data[start..end] + data[end..];
    assert |PrintString(cs)| == end - start;
    assert data[start..end] == data[start..][..end - start] == PrintString(cs) + "";
    LexStringGrammar(data[start..end], cs, "");
  }

  method NoteKey(keys: set<string>, valid: bool, key: string) returns (keys': set<string>, valid': bool)
    ensures Index(valid', keys') == Note(Index(valid, keys), key)
  {
    keys', valid' := keys, valid;
    if !ValidKey(key) {
      valid' := false;
    }
    if key in keys {
      valid' := false;
    } else if |keys| < MaxEntries {
      keys' := keys + {key};
    } else {
      valid' := false;
    }
  }

  method ScanEntries(text: string, start: nat) returns (index: Index)
    requires start <= |text|
    ensures index == ScanMembers(From(text, start), Index(true, {}))
  {
    hide ReadEntry, Note, ValidKey, From;
    var keys: set<string> := {};
    var valid := true;
    var position := start;
    while position < |text|
      invariant position <= |text|
      invariant ScanMembers(From(text, start), Index(true, {})) == ScanMembers(From(text, position), Index(valid, keys))
      decreases |text| - position
    {
      var entry, next := ScanEntry(text, position);
      if entry.Bad? {
        return Rejected;
      }
      keys, valid := NoteKey(keys, valid, entry.key);
      if entry.Last? {
        return Index(valid, keys);
      }
      position := next;
    }
    NoEntryAhead(text, position);
    return Rejected;
  }

  lemma NoEntryAhead(text: string, position: nat)
    requires position == |text|
    ensures ReadEntry(From(text, position)).Bad?
  {
    NothingAhead(text, position);
  }

  /** One turn; `next` is where the next member starts, strictly ahead. */
  method ScanEntry(text: string, start: nat) returns (entry: Entry, next: nat)
    requires start < |text|
    ensures entry == ReadEntry(From(text, start))
    ensures entry.More? ==> start < next <= |text| && From(text, next) == entry.rest
  {
    hide LexString, LexChars, Decode, SkipWs, From;
    next := start;
    var keyEnd, found := SkipJsonString(text, start);
    if !found {
      return Bad, start;
    }
    LiteralAlone(text, start, keyEnd);
    var key := DecodeString(text[start..keyEnd]);
    var position := SkipJsonWhitespace(text, keyEnd);
    FromStep(text, position);
    if position >= |text| || text[position] != ':' {
      return Bad, start;
    }
    position := SkipJsonWhitespace(text, position + 1);
    var valueEnd, valueIsString := SkipJsonString(text, position);
    if !valueIsString {
      return Bad, start;
    }
    position := SkipJsonWhitespace(text, valueEnd);
    FromStep(text, position);
    if position >= |text| {
      return Bad, start;
    }
    if text[position] == ',' {
      next := SkipJsonWhitespace(text, position + 1);
      assert From(text, next) == text[next..] by { FromIs(text, next); }
      return More(key, text[next..]), next;
    } else if text[position] == '}' {
      position := SkipJsonWhitespace(text, position + 1);
      FromStep(text, position);
      if position == |text| {
        return Last(key), start;
      }
    }
    return Bad, start;
  }

  class ConfigMapKeyIndex {
    var present: bool
    var valid: bool
    var keys: set<string>

    constructor ()
      ensures !present && !valid && keys == {}
    {
      present, valid, keys := false, false, {};
    }

    ghost function Value(): KeyIndex
      reads this
    {
      KeyIndex(present, Index(valid, keys))
    }

    /** `jsonValid` is what `json.Valid` answers. */
    method UnmarshalJson(data: string, jsonValid: bool) returns (ok: bool)
      requires jsonValid <==> IsJson(data)
      modifies this
      ensures ok <==> IsJson(data)
      ensures Value() == KeyIndex(true, if ok then Scan(TrimSpace(data)) else Rejected)
    {
      hide LexString, LexChars, Decode, TrimSpace, IsJson, ValidKey, Note, SkipWs;
      present, valid, keys := true, false, {};
      if !jsonValid {
        return false;
      }
      ok := true;
      var text := TrimSpace(data);
      if text == "null" {
        valid := true;
        return;
      }
      if |text| < 2 || text[0] != '{' {
        return;
      }
      var position := SkipJsonWhitespace(text, 1);
      if position < |text| && text[position] == '}' {
        valid := position + 1 == |text|;
        return;
      }
      var index := ScanEntries(text, position);
      valid, keys := index.valid, index.keys;
    }
  }

  // ----- a whole ConfigMap -----

  /** One of the two maps of a ConfigMap after decoding; an absent field stays as it was constructed. */
  datatype KeyIndex = KeyIndex(present: bool, index: Index) {
    predicate IsValid() { !present || index.valid }
    function Count(): nat { |index.keys| }
  }
  const Absent := KeyIndex(false, Rejected)

  datatype Immutable = Unset | Set(value: bool) | Malformed
  datatype Analysis = InvalidMap | ValidMap(keys: nat, dataKeys: nat, binaryKeys: nat, immutable: Immutable)

  function AnalyzeConfigMap(data: KeyIndex, binary: KeyIndex, immutable: Immutable): Analysis {
    if data.IsValid() && binary.IsValid() && data.Count() + binary.Count() <= MaxEntries && data.index.keys !! binary.index.keys && !immutable.Malformed?
    then ValidMap(data.Count() + binary.Count(), data.Count(), binary.Count(), immutable)
    else InvalidMap
  }

  /** A field of the object: absent, or some JSON text. */
  ghost predicate Decoded(d: Option<Document>, i: KeyIndex) {
    match d
    case None => i == Absent
    case Some(doc) => ValidDocument(doc) && i == KeyIndex(true, Scan(TrimSpace(PrintDocument(doc))))
  }

  predicate FieldAcceptable(d: Option<Document>)
    requires d.Some? ==> ValidDocument(d.value)
  {
    d.Some? ==> Acceptable(d.value.value)
  }

  function FieldKeys(d: Option<Document>): set<string>
    requires d.Some? ==> ValidDocument(d.value)
  {
    if d.None? then {} else DataKeys(d.value.value)
  }

  /** A ConfigMap is sound exactly if both maps are, no key is in both, and together they have at most 4096
      keys; the count reported is the number of different keys of the two texts. */
  lemma AnalysisIsTheRule(data: Option<Document>, binary: Option<Document>, i: KeyIndex, j: KeyIndex, immutable: Immutable)
    requires Decoded(data, i) && Decoded(binary, j)
    ensures var a := AnalyzeConfigMap(i, j, immutable);
            && (a.ValidMap? <==>
                && FieldAcceptable(data) && FieldAcceptable(binary) && !immutable.Malformed?
                && FieldKeys(data) !! FieldKeys(binary) && |FieldKeys(data) + FieldKeys(binary)| <= 4096)
            && (a.ValidMap? ==> a.keys == |FieldKeys(data) + FieldKeys(binary)| && a.dataKeys == |FieldKeys(data)| && a.binaryKeys == |FieldKeys(binary)|)
  {
    hide Decoded, FieldAcceptable, FieldKeys;
    FieldDecided(data, i);
    FieldDecided(binary, j);
    if FieldKeys(data) !! FieldKeys(binary) {
      assert |FieldKeys(data) + FieldKeys(binary)| == |FieldKeys(data)| + |FieldKeys(binary)|;
    }
  }

  lemma FieldDecided(d: Option<Document>, i: KeyIndex)
    requires Decoded(d, i)
    ensures d.Some? ==> ValidDocument(d.value)
    ensures i.IsValid() <==> FieldAcceptable(d)
    ensures i.IsValid() ==> i.index.keys == FieldKeys(d)
  {
    hide Scan, PrintDocument, TrimSpace, Acceptable, DataKeys;
    if d.Some? {
      ScannerDecidesTheGrammar(d.value);
    }
  }
}
