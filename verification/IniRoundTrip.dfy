/** What the driver writes as INI text, goconfig reads back: line by line exactly when the line is safe, and a whole
    section for every order of the loop that writes it. */
module IniRoundTrip {
  import opened Options
  import opened GoStrings
  import opened MapLoops
  import opened GoConfig

  // ---- reading back one line ----

  /** A key and a value that survive on a line of their own. */
  predicate LineSafe(key: string, value: string) {
    && key != "" && Trimmed(key) && Trimmed(value)
    && (forall i :: 0 <= i < |key| ==> key[i] != '=' && key[i] != ':')
    && key[0] !in "#;\"`"
    && !(key[0] == '[' && value != "" && value[|value| - 1] == ']')
    && ValueQuote(value) == ""
  }

  lemma {:induction false} IndexAssignIs(s: string, i: nat)
    requires i < |s| && s[i] == '=' && forall j :: 0 <= j < i ==> s[j] != '=' && s[j] != ':'
    ensures IndexAssign(s) == i
  {
  }

  lemma OnlySpace()
    ensures TrimLeft(" ") == "" && TrimRight(" ") == ""
  {
    assert " "[1..] == "" && " "[..0] == "";
  }

  lemma TrimRightSpace(value: string)
    ensures TrimRight(" " + value) == if TrimRight(value) == "" then "" else " " + TrimRight(value)
  {
    TrimRightAppend(" ", value);
    OnlySpace();
    hide TrimRight;
  }

  lemma TrimLeftEquals(value: string)
    ensures TrimLeft(" = " + value) == "= " + value
  {
    assert (" = " + value)[1..] == "= " + value;
  }

  lemma TrimRightEquals(a: string)
    ensures TrimRight(a + "=") == a + "="
  {
  }

  /** The line as the reader sees it. */
  lemma TrimmedLine(key: string, value: string)
    ensures var l := TrimLeft(key); var r := TrimRight(value);
            TrimSpace(PairLine(key, value)) ==
              (if l == "" then "" else l + " ") + "=" + (if r == "" then "" else " " + r)
  {
    hide TrimLeft, TrimRight;
    var l := TrimLeft(key);
    var a := if l == "" then "" else l + " ";
    TrimLeftAppend(key, " = " + value);
    TrimLeftEquals(value);
    assert PairLine(key, value) == key + (" = " + value);
    assert TrimLeft(PairLine(key, value)) == a + "=" + (" " + value);
    TrimRightAppend(a + "=", " " + value);
    TrimRightSpace(value);
    TrimRightEquals(a);
  }

  lemma {:induction false} TrimLeftAppend(a: string, s: string)
    ensures TrimLeft(a + s) == if TrimLeft(a) == "" then TrimLeft(s) else TrimLeft(a) + s
  {
    if a == "" {
      assert a + s == s;
    } else if IsSpace(a[0]) {
      assert (a + s)[1..] == a[1..] + s;
      TrimLeftAppend(a[1..], s);
    }
  }

  lemma {:induction false} TrimRightAppend(s: string, b: string)
    ensures TrimRight(s + b) == if TrimRight(b) == "" then TrimRight(s) else s + TrimRight(b)
  {
    if b == "" {
      assert s + b == s;
    } else if IsSpace(b[|b| - 1]) {
      assert (s + b)[..|s + b| - 1] == s + b[..|b| - 1];
      TrimRightAppend(s, b[..|b| - 1]);
    }
  }

  lemma TrimShrinks(s: string)
    ensures |TrimLeft(s)| <= |s| && |TrimRight(s)| <= |s| && |TrimSpace(s)| <= |s|
    ensures exists k :: 0 <= k <= |s| && TrimLeft(s) == s[k..]
  {
    TrimLeftShape(s);
    TrimRightShape(s);
    TrimRightShape(TrimLeft(s));
  }

  lemma TrimOne(s: string)
    requires Trimmed(s) && s != ""
    ensures TrimSpace(s + " ") == s && TrimSpace(" " + s) == s && TrimLeft(s) == s && TrimRight(s) == s
  {
    TrimLeftAppend(s, " ");
    TrimRightAppend(s, " ");
    TrimLeftAppend(" ", s);
    OnlySpace();
  }

  lemma SafeIsRead(key: string, value: string)
    requires LineSafe(key, value)
    ensures ParseLine(TrimSpace(PairLine(key, value))) == Pair(key, value)
  {
    var line := TrimSpace(PairLine(key, value));
    var rest := if value == "" then "" else " " + value;
    TrimmedLine(key, value);
    TrimOne(key);
    if value != "" { TrimOne(value); }
    hide TrimLeft, TrimRight, PairLine;
    assert TrimSpace(rest) == value by { TrimTrimmed(""); }
    hide TrimSpace;
    SafeLineParsed(key, value, rest, line);
  }

  lemma SafeSplit(key: string, rest: string, line: string)
    requires key != "" && Trimmed(key) && key[0] != '"' && key[0] != '`' && line == key + " " + "=" + rest
    requires forall i :: 0 <= i < |key| ==> key[i] != '=' && key[i] != ':'
    ensures SplitKey(line) == Some(KeyAt(key, |key| + 1)) && line[|key| + 2..] == rest
  {
    TrimOne(key);
    hide TrimSpace, IndexAssign, Index;
    assert line[0] == key[0] && line[|key| + 1] == '=';
    IndexAssignIs(line, |key| + 1);
    assert line[..|key| + 1] == key + " ";
  }

  lemma PlainValue(value: string)
    requires ValueQuote(value) == "" && TrimSpace(value) == value
    ensures ParseValue(value) == Some(value)
  {
    hide ValueQuote, TrimSpace;
  }

  lemma PairIs(line: string, key: string, at: nat, value: string)
    requires line != "" && SplitKey(line) == Some(KeyAt(key, at))
    requires ParseValue(TrimSpace(line[at + 1..])) == Some(value)
    ensures ParsePair(line) == Pair(key, value)
  {
    hide SplitKey, ParseValue, TrimSpace;
  }

  lemma NotSpecial(key: string, value: string, rest: string, line: string)
    requires LineSafe(key, value) && line == key + " " + "=" + rest
    requires rest == if value == "" then "" else " " + value
    ensures ParseLine(line) == ParsePair(line)
  {
    hide ParsePair, ValueQuote, Trimmed, TrimSpace;
    assert line[0] == key[0] && line[|line| - 1] == if value == "" then '=' else value[|value| - 1];
  }

  lemma SafeLineParsed(key: string, value: string, rest: string, line: string)
    requires LineSafe(key, value) && line == key + " " + "=" + rest
    requires rest == if value == "" then "" else " " + value
    requires TrimSpace(rest) == value && TrimSpace(value) == value
    ensures ParseLine(line) == Pair(key, value)
  {
    hide TrimSpace, ValueQuote, SplitKey, ParsePair, ParseLine, ParseValue;
    SafeSplit(key, rest, line);
    NotSpecial(key, value, rest, line);
    PlainValue(value);
    hide LineSafe;
    PairIs(line, key, |key| + 1, value);
  }

  lemma NoneEarlier(s: string, q: string, l: string, j: nat)
    requires q != "" && q <= l && Index(s, q).Some? && Index(s, q).value == j + |l|
    ensures s[j..j + |l|] != l
  {
    IndexFirst(s, q);
    assert !(q <= s[j..]);
    assert s[j..j + |l|] <= s[j..];
    hide Index;
  }

  lemma QuoteInKey(line: string, l: string)
    requires line != "" && l != "" && l + " " <= line
    ensures KeyQuote(line) <= l
  {
    var q := KeyQuote(line);
    assert (l + " ")[|l|] == line[|l|] && l <= line;
    assert forall i :: 0 <= i < |q| ==> q[i] == line[i] && q[i] != ' ';
  }

  lemma QuotedKeyHasQuote(line: string, key: string, l: string, j: nat)
    requires line != "" && KeyQuote(line) != "" && SplitKey(line).Some?
    requires KeyQuote(line) <= l && j <= |key| && l == key[j..]
    ensures SplitKey(line).value.key != key
  {
    var q := KeyQuote(line);
    var s := line[|q|..];
    var p := Index(s, q).value;
    assert SplitKey(line).value.key == s[..p];
    hide SplitKey, KeyQuote, Index;
    if p == |key| {
      NoneEarlier(s, q, l, j);
      assert s[..p][j..] == s[j..p];
    }
  }

  /** A quoted key never comes back with its quotes. */
  lemma QuotedKeyChanges(line: string, key: string)
    requires line != "" && KeyQuote(line) != "" && SplitKey(line).Some?
    requires TrimLeft(key) != "" && TrimLeft(key) + " " <= line
    ensures SplitKey(line).value.key != key
  {
    hide KeyQuote, SplitKey;
    var l := TrimLeft(key);
    QuoteInKey(line, l);
    TrimShrinks(key);
    hide TrimLeft, TrimRight;
    var j :| 0 <= j <= |key| && l == key[j..];
    QuotedKeyHasQuote(line, key, l, j);
  }

  lemma FirstAssign(line: string, key: string, rest: string)
    requires line == key + " =" + rest && |key| <= IndexAssign(line)
    ensures IndexAssign(line) == |key| + 1
    ensures forall i :: 0 <= i < |key| ==> key[i] != '=' && key[i] != ':'
  {
    hide IndexAssign;
    assert line[|key|] == ' ' && line[|key| + 1] == '=';
    assert forall j :: 0 <= j < |key| ==> line[j] == key[j];
  }

  lemma UnquotedKeyKept(line: string, key: string, rest: string)
    requires line == (if TrimLeft(key) == "" then "" else TrimLeft(key) + " ") + "=" + rest
    requires KeyQuote(line) == "" && SplitKey(line).Some? && SplitKey(line).value.key == key
    ensures key != "" && Trimmed(key) && SplitKey(line).value.at == |key| + 1 && line == key + " =" + rest
    ensures forall i :: 0 <= i < |key| ==> key[i] != '=' && key[i] != ':'
  {
    var i := IndexAssign(line);
    UnquotedSplit(line);
    TrimSpaceTrimmed(line[..i]);
    TrimShrinks(line[..i]);
    assert key == "" ==> TrimLeft(key) == "";
    assert key != "" ==> TrimLeft(key) == key by { hide TrimSpace, TrimRight, SplitKey, KeyQuote, IndexAssign; }
    hide SplitKey, KeyQuote, IndexAssign, TrimLeft, TrimRight, TrimSpace;
    assert key != "" ==> line == key + " =" + rest;
    if key != "" { FirstAssign(line, key, rest); }
  }

  lemma UnquotedSplit(line: string)
    requires line != "" && KeyQuote(line) == "" && SplitKey(line).Some?
    ensures var i := IndexAssign(line); 0 < i < |line| && SplitKey(line).value == KeyAt(TrimSpace(line[..i]), i)
  {
    hide KeyQuote, TrimSpace, IndexAssign;
  }

  lemma RightTrimmed(value: string, right: string)
    requires right == TrimSpace(if TrimRight(value) == "" then "" else " " + TrimRight(value))
    ensures Trimmed(right) && |right| <= |value|
  {
    hide TrimRight, TrimLeft, TrimSpace;
    var r := TrimRight(value);
    TrimShrinks(value);
    SpaceIgnored(r);
    TrimShrinks(r);
    TrimTrimmed("");
    TrimSpaceTrimmed(r);
  }

  lemma SpaceIgnored(s: string)
    ensures TrimSpace(" " + s) == TrimSpace(s)
  {
    TrimLeftAppend(" ", s);
    OnlySpace();
    hide TrimLeft, TrimRight;
  }

  lemma QuotedShorter(right: string)
    requires ValueQuote(right) != "" && ParseValue(right).Some?
    ensures |ParseValue(right).value| < |right|
  {
    hide LastIndex, ValueQuote, TrimSpace;
  }

  lemma ValueKept(right: string, value: string)
    requires Trimmed(right) && |right| <= |value| && ParseValue(right) == Some(value)
    ensures right == value && ValueQuote(value) == ""
  {
    TrimTrimmed(right);
    hide TrimSpace, LastIndex, ValueQuote;
    if ValueQuote(right) != "" { QuotedShorter(right); }
  }

  /** A key and a value come back from the line they are written to exactly when they are line-safe. */
  lemma ReadBackExactly(key: string, value: string)
    ensures ParseLine(TrimSpace(PairLine(key, value))) == Pair(key, value) <==> LineSafe(key, value)
  {
    if LineSafe(key, value) { SafeIsRead(key, value); }
    var line := TrimSpace(PairLine(key, value));
    TrimmedLine(key, value);
    if ParseLine(line) == Pair(key, value) { ReadIsSafe(key, value, line); }
    hide ParseLine, TrimSpace, LineSafe, PairLine, TrimLeft, TrimRight;
  }

  lemma ReadIsSafe(key: string, value: string, line: string)
    requires line == (if TrimLeft(key) == "" then "" else TrimLeft(key) + " ") + "="
                     + (if TrimRight(value) == "" then "" else " " + TrimRight(value))
    requires ParseLine(line) == Pair(key, value)
    ensures LineSafe(key, value)
  {
    var rest := if TrimRight(value) == "" then "" else " " + TrimRight(value);
    hide TrimLeft, TrimRight, TrimSpace, KeyQuote, SplitKey, ValueQuote, ParseValue;
    KeyIsSafe(key, rest, line);
    assert line[|key| + 2..] == rest;
    hide ParseLine, ParsePair;
    RightTrimmed(value, TrimSpace(rest));
    ValueKept(TrimSpace(rest), value);
    if value != "" {
      TrimOne(value);
      assert line[|line| - 1] == value[|value| - 1];
    }
  }

  lemma KeyIsSafe(key: string, rest: string, line: string)
    requires line == (if TrimLeft(key) == "" then "" else TrimLeft(key) + " ") + "=" + rest
    requires ParseLine(line).Pair? && ParseLine(line).key == key
    ensures key != "" && Trimmed(key) && key[0] !in "#;\"`" && line == key + " =" + rest
    ensures forall i :: 0 <= i < |key| ==> key[i] != '=' && key[i] != ':'
    ensures !(key[0] == '[' && line[|line| - 1] == ']')
    ensures ParseValue(TrimSpace(line[|key| + 2..])) == Some(ParseLine(line).value)
  {
    KeyLine(line);
    NoQuote(key, rest, line);
    hide TrimLeft, TrimRight, TrimSpace, SplitKey, ParseLine, ParsePair, ParseValue;
    UnquotedKeyKept(line, key, rest);
    assert line[0] == key[0];
  }

  /** What the parse of a pair says about its line. */
  lemma KeyLine(line: string)
    requires ParseLine(line).Pair?
    ensures line != "" && line[0] != '#' && line[0] != ';' && !(line[0] == '[' && line[|line| - 1] == ']')
    ensures SplitKey(line).Some? && SplitKey(line).value.key == ParseLine(line).key
    ensures ParseValue(TrimSpace(line[SplitKey(line).value.at + 1..])) == Some(ParseLine(line).value)
  {
    hide TrimSpace, SplitKey, ParseValue;
  }

  lemma NoQuote(key: string, rest: string, line: string)
    requires line == (if TrimLeft(key) == "" then "" else TrimLeft(key) + " ") + "=" + rest
    requires SplitKey(line).Some? && SplitKey(line).value.key == key
    ensures KeyQuote(line) == ""
  {
    if KeyQuote(line) != "" {
      assert TrimLeft(key) != "" by { hide SplitKey, TrimLeft; }
      hide TrimLeft, SplitKey, KeyQuote;
      QuotedKeyChanges(line, key);
    }
  }

  // ---- reading back a whole section ----

  /** A section name that survives in brackets; DEFAULT is skipped by the driver. */
  predicate NameSafe(name: string) {
    name != "" && Trimmed(name) && '\n' !in name && name != DEFAULT_SECTION
  }

  /** Everything that is written survives, and no value refers to another. */
  ghost predicate PairSafe(key: string, value: string) {
    LineSafe(key, value) && '\n' !in key && '\n' !in value && key != "-" && !HasReference(value)
  }

  ghost predicate ParamsSafe(params: map<string, string>) {
    forall k :: k in params ==> PairSafe(k, params[k])
  }

  lemma HeaderRead(name: string)
    requires name != "" && Trimmed(name)
    ensures ParseLine(TrimSpace("[" + name + "]")) == Header(name)
  {
    var line := "[" + name + "]";
    TrimTrimmed(line);
    assert line[1..|line| - 1] == name;
    TrimTrimmed(name);
  }

  lemma {:induction false} SplitText(lines: seq<string>)
    requires forall i :: 0 <= i < |lines| ==> '\n' !in lines[i]
    ensures Split(Text(lines), '\n') == lines + [""]
  {
    if lines == [] {
      assert Split("", '\n') == [""];
    } else {
      var t, l := Text(lines), lines[0];
      assert t[..|l|] == l && t[|l|] == '\n' && t[|l| + 1..] == Text(lines[1..]);
      IndexOfIs(t, '\n', |l|);
      SplitText(lines[1..]);
    }
  }

  /** The reader in section name with these keys so far. */
  function Within(name: string, keys: map<string, string>): Reader {
    Reader(name, 1, map[name := keys])
  }

  lemma SetInSection(name: string, keys: map<string, string>, key: string, value: string)
    requires name != "" && key != ""
    ensures SetValue(map[name := keys], name, key, value) == map[name := keys[key := value]]
  {
  }

  lemma PairRead(name: string, keys: map<string, string>, key: string, value: string)
    requires name != "" && LineSafe(key, value) && key != "-"
    ensures ReadLine(Within(name, keys), PairLine(key, value)) == Ok(Within(name, keys[key := value]))
  {
    SafeIsRead(key, value);
    SetInSection(name, keys, key, value);
    hide ParseLine, LineSafe, PairLine, TrimSpace, Decimal, SetValue;
  }

  function Chosen(params: map<string, string>, order: seq<string>): map<string, string>
    requires forall i :: 0 <= i < |order| ==> order[i] in params
  {
    map k | k in order :: params[k]
  }

  lemma ReadNext(r: Reader, lines: seq<string>, next: Reader)
    requires lines != [] && ReadLine(r, lines[0]) == Ok(next)
    ensures ReadLines(r, lines) == ReadLines(next, lines[1..])
  {
    hide ReadLine;
  }

  lemma ReadEnd(r: Reader)
    ensures ReadLines(r, [""]) == Ok(r)
  {
    assert ReadLine(r, "") == Ok(r);
    ReadNext(r, [""], r);
    assert [""][1..] == [];
    hide ReadLine;
  }

  lemma ChosenStep(keys: map<string, string>, params: map<string, string>, order: seq<string>)
    requires order != [] && forall i :: 0 <= i < |order| ==> order[i] in params
    ensures keys[order[0] := params[order[0]]] + Chosen(params, order[1..]) == keys + Chosen(params, order)
  {
    var k := order[0];
    assert forall x :: x in order <==> x == k || x in order[1..];
  }

  lemma PairLinesStep(params: map<string, string>, order: seq<string>)
    requires order != [] && forall i :: 0 <= i < |order| ==> order[i] in params
    ensures var lines := PairLines(params, order) + [""];
            lines[0] == PairLine(order[0], params[order[0]]) && lines[1..] == PairLines(params, order[1..]) + [""]
  {
    hide PairLine;
  }

  lemma NoPairs(name: string, keys: map<string, string>, params: map<string, string>)
    ensures ReadLines(Within(name, keys), PairLines(params, []) + [""]) == Ok(Within(name, keys + Chosen(params, [])))
  {
    assert PairLines(params, []) + [""] == [""];
    assert keys + Chosen(params, []) == keys;
    hide ReadLines, ReadLine;
    ReadEnd(Within(name, keys));
  }

  lemma {:induction false} PairsRead(name: string, keys: map<string, string>, params: map<string, string>, order: seq<string>)
    requires name != "" && forall i :: 0 <= i < |order| ==> order[i] in params
    requires ParamsSafe(params)
    ensures ReadLines(Within(name, keys), PairLines(params, order) + [""]) == Ok(Within(name, keys + Chosen(params, order)))
    decreases |order|
  {
    var lines := PairLines(params, order) + [""];
    if order == [] {
      NoPairs(name, keys, params);
    } else {
      var k := order[0];
      assert LineSafe(k, params[k]) && k != "-" by { assert PairSafe(k, params[k]); }
      PairLinesStep(params, order);
      hide ReadLine, ReadLines, PairLine, LineSafe, PairLines, Chosen, Within, ParamsSafe;
      PairRead(name, keys, k, params[k]);
      ReadNext(Within(name, keys), lines, Within(name, keys[k := params[k]]));
      PairsRead(name, keys[k := params[k]], params, order[1..]);
      ChosenStep(keys, params, order);
    }
  }

  /** All the lines of the text, and that none of them is broken. */
  lemma LinesOf(params: map<string, string>, order: seq<string>, remoteType: string, name: string)
    requires forall i :: 0 <= i < |order| ==> order[i] in params
    requires NameSafe(name) && PairSafe("type", remoteType) && ParamsSafe(params)
    ensures Split(ConfigText(params, order, remoteType, name), '\n') ==
              ["[" + name + "]", PairLine("type", remoteType)] + (PairLines(params, order) + [""])
  {
    var head := ["[" + name + "]", PairLine("type", remoteType)];
    var lines := head + PairLines(params, order);
    forall i | 0 <= i < |lines|
      ensures '\n' !in lines[i]
    {
      if i >= 2 { assert PairSafe(order[i - 2], params[order[i - 2]]); }
    }
    hide NameSafe, PairSafe, ParamsSafe, PairLine, PairLines, Split, Text;
    SplitText(lines);
    assert lines + [""] == head + (PairLines(params, order) + [""]);
  }

  /** The reader gets the section back from the text. */
  lemma TextRead(params: map<string, string>, order: seq<string>, remoteType: string, name: string)
    requires forall i :: 0 <= i < |order| ==> order[i] in params
    requires NameSafe(name) && PairSafe("type", remoteType) && ParamsSafe(params)
    ensures var keys := map[KEEPER := KEEPER]["type" := remoteType] + Chosen(params, order);
            ReadText(ConfigText(params, order, remoteType, name)) == Ok(Within(name, keys))
  {
    LinesOf(params, order, remoteType, name);
    var lines := ["[" + name + "]", PairLine("type", remoteType)] + (PairLines(params, order) + [""]);
    var r0 := Reader(DEFAULT_SECTION, 1, map[]);
    var keys := map[KEEPER := KEEPER];
    HeaderStep(r0, name, keys);
    assert LineSafe("type", remoteType);
    hide ConfigText, PairLine, LineSafe, PairLines, Chosen, Within, ParamsSafe, PairSafe, NameSafe, ReadLine, ReadLines;
    ReadNext(r0, lines, Within(name, keys));
    PairRead(name, keys, "type", remoteType);
    var tail := lines[1..];
    ReadNext(Within(name, keys), tail, Within(name, keys["type" := remoteType]));
    assert tail[1..] == PairLines(params, order) + [""];
    PairsRead(name, keys["type" := remoteType], params, order);
  }

  lemma HeaderStep(r: Reader, name: string, keys: map<string, string>)
    requires NameSafe(name) && r.data == map[] && keys == map[KEEPER := KEEPER]
    ensures ReadLine(r, "[" + name + "]") == Ok(Within(name, keys))
  {
    HeaderRead(name);
    hide ParseLine, TrimSpace;
    assert SetValue(map[], name, KEEPER, KEEPER) == map[name := keys];
  }

  lemma KeeperUnsafe(params: map<string, string>, value: string)
    ensures !PairSafe(KEEPER, value)
    ensures ParamsSafe(params) ==> KEEPER !in params
  {
    assert IsSpace(KEEPER[0]);
    hide HasReference;
    assert KEEPER in params && ParamsSafe(params) ==> PairSafe(KEEPER, params[KEEPER]);
  }

  lemma SectionRead(data: Sections, name: string, params: map<string, string>, expand: Expansion)
    requires name in data && KEEPER !in params && KeepsPlain(expand)
    requires data[name].Keys == params.Keys + {KEEPER}
    requires forall k :: k in params ==> data[name][k] == params[k] && !HasReference(params[k])
    ensures SectionOf(data, expand, name) == params
  {
    hide HasReference;
  }

  lemma SectionPlain(params: map<string, string>, order: seq<string>, remoteType: string, k: string)
    requires IsOrder(order, params) && PairSafe("type", remoteType) && ParamsSafe(params)
    ensures var keys := map[KEEPER := KEEPER]["type" := remoteType] + Chosen(params, order);
            var section := map["type" := remoteType] + params;
            && (k in keys <==> k in section || k == KEEPER)
            && (k in section ==> k in keys && keys[k] == section[k] && !HasReference(section[k]))
  {
    hide LineSafe, HasReference;
    if k in params { assert PairSafe(k, params[k]); }
  }

  lemma OneRemote(data: Sections, name: string, section: map<string, string>, expand: Expansion)
    requires data.Keys == {name} && name != DEFAULT_SECTION && SectionOf(data, expand, name) == section
    ensures Remotes(data, expand) == map[name := section]
  {
    hide SectionOf;
  }

  /** What is written is read back: one section, with the type and the parameters, whatever order the loop over the
      parameters took. */
  lemma RoundTrip(params: map<string, string>, order: seq<string>, remoteType: string, name: string, expand: Expansion)
    requires IsOrder(order, params) && KeepsPlain(expand)
    requires NameSafe(name) && PairSafe("type", remoteType) && ParamsSafe(params)
    ensures var text := ConfigText(params, order, remoteType, name);
            ReadText(text).Ok? && Remotes(ReadText(text).reader.data, expand) == map[name := map["type" := remoteType] + params]
  {
    hide PairSafe, ParamsSafe, ConfigText, ReadText, Chosen, Remotes, SectionOf, KeepsPlain, HasReference;
    TextRead(params, order, remoteType, name);
    KeeperUnsafe(params, "");
    var keys := map[KEEPER := KEEPER]["type" := remoteType] + Chosen(params, order);
    var section := map["type" := remoteType] + params;
    forall k { SectionPlain(params, order, remoteType, k); }
    var data := map[name := keys];
    SectionRead(data, name, section, expand);
    OneRemote(data, name, section, expand);
  }
}
