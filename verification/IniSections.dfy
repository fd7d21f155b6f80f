/** Configuration texts with several sections, such as a crypt remote and the remotes under it: every section is read
    back, and no line of one section changes another. */
module IniSections {
  import opened Options
  import opened GoStrings
  import opened MapLoops
  import opened GoConfig
  import opened IniRoundTrip

  // ---- one line changes one section ----

  /** The section that the reader is in after a line. */
  function Current(r: Reader): string {
    if r.section == "" then "DEFAULT" else r.section
  }

  /** A line changes nothing outside the section it is in, or the one that it begins, and takes no key away. */
  lemma LineFrame(r: Reader, text: string, other: string)
    requires ReadLine(r, text).Ok?
    ensures var r' := ReadLine(r, text).reader;
      && (other != Current(r') ==> (other in r'.data <==> other in r.data) && (other in r.data ==> r'.data[other] == r.data[other]))
      && (other in r.data ==> other in r'.data && r.data[other].Keys <= r'.data[other].Keys)
  {
    hide ParseLine, TrimSpace, Decimal;
  }

  /** A blank line and a comment change nothing. */
  lemma CommentIgnored(r: Reader, text: string)
    requires var line := TrimSpace(text); line == "" || line[0] == '#' || line[0] == ';'
    ensures ReadLine(r, text) == Ok(r)
  {
    hide TrimSpace, ParsePair;
  }

  // ---- which texts are read ----

  function Parsed(lines: seq<string>, i: nat): Line
    requires i < |lines|
  {
    ParseLine(TrimSpace(lines[i]))
  }

  /** The name that a line stands under: that of the last header before it, or else the one at the beginning. */
  function NameAt(first: string, lines: seq<string>, i: nat): string
    requires i <= |lines|
  {
    if i == 0 then first
    else if Parsed(lines, i - 1).Header? then Parsed(lines, i - 1).name
    else NameAt(first, lines, i - 1)
  }

  /** The line is well-formed, and does not give a key to a section without a name. */
  predicate Readable(first: string, lines: seq<string>, i: nat)
    requires i < |lines|
  {
    !Parsed(lines, i).Malformed? && (Parsed(lines, i).Pair? ==> NameAt(first, lines, i) != "")
  }

  predicate AllReadable(first: string, lines: seq<string>) {
    forall i: nat :: i < |lines| ==> Readable(first, lines, i)
  }

  lemma {:induction false} NameAtRest(r: Reader, lines: seq<string>, next: Reader, i: nat)
    requires lines != [] && ReadLine(r, lines[0]) == Ok(next) && i < |lines|
    ensures NameAt(r.section, lines, i + 1) == NameAt(next.section, lines[1..], i)
  {
    hide ParseLine, TrimSpace, SetValue, Decimal;
    if i > 0 {
      NameAtRest(r, lines, next, i - 1);
      assert Parsed(lines[1..], i - 1) == Parsed(lines, i);
    }
  }

  lemma ReadableRest(r: Reader, lines: seq<string>, next: Reader)
    requires lines != [] && ReadLine(r, lines[0]) == Ok(next)
    ensures Readable(r.section, lines, 0)
    ensures forall i: nat :: i < |lines[1..]| ==> Readable(next.section, lines[1..], i) == Readable(r.section, lines, i + 1)
  {
    hide ParseLine, TrimSpace, SetValue, Decimal;
    forall i: nat | i < |lines[1..]|
      ensures Readable(next.section, lines[1..], i) == Readable(r.section, lines, i + 1)
    {
      NameAtRest(r, lines, next, i);
      assert Parsed(lines[1..], i) == Parsed(lines, i + 1);
    }
  }

  lemma NotReadable(r: Reader, lines: seq<string>)
    requires lines != [] && ReadLine(r, lines[0]).Fail?
    ensures !Readable(r.section, lines, 0)
  {
    hide ParseLine, TrimSpace, SetValue, Decimal;
  }

  lemma {:induction false} LinesReadExactly(r: Reader, lines: seq<string>)
    ensures ReadLines(r, lines).Ok? <==> AllReadable(r.section, lines)
    decreases |lines|
  {
    hide ReadLine, Readable;
    if lines != [] {
      if ReadLine(r, lines[0]).Ok? {
        var next := ReadLine(r, lines[0]).reader;
        LinesReadExactly(next, lines[1..]);
        ReadableRest(r, lines, next);
        assert forall i: nat :: 0 < i < |lines| ==> Readable(r.section, lines, i) == Readable(next.section, lines[1..], i - 1);
      } else {
        NotReadable(r, lines);
      }
    }
  }

  /** A text is read exactly when none of its lines is malformed or gives a key to a section without a name; before the
      first header the section is DEFAULT. */
  lemma TextReadExactly(text: string)
    ensures var lines := Split(text, '\n');
            ReadText(text).Ok? <==> AllReadable("DEFAULT", lines)
  {
    hide ReadLines, Readable, Split;
    var r, lines := Reader(DEFAULT_SECTION, 1, map[]), Split(text, '\n');
    LinesReadExactly(r, lines);
    assert ReadText(text) == ReadLines(r, lines);
    hide AllReadable;
    assert r.section == "DEFAULT";
  }

  // ---- several sections ----

  /** A section with its keys, in the order in which they are written. */
  datatype Block = Block(name: string, params: map<string, string>, order: seq<string>)

  ghost predicate BlockSafe(b: Block) {
    NameSafe(b.name) && IsOrder(b.order, b.params) && ParamsSafe(b.params)
  }

  ghost predicate BlocksSafe(blocks: seq<Block>) {
    && (forall i :: 0 <= i < |blocks| ==> BlockSafe(blocks[i]))
    && (forall i, j :: 0 <= i < j < |blocks| ==> blocks[i].name != blocks[j].name)
  }

  /** All keys in the order have values. */
  predicate Listed(b: Block) {
    forall i :: 0 <= i < |b.order| ==> b.order[i] in b.params
  }

  lemma SafeListed(blocks: seq<Block>)
    requires BlocksSafe(blocks)
    ensures forall i :: 0 <= i < |blocks| ==> Listed(blocks[i])
  {
    hide ParamsSafe, NameSafe;
    forall i | 0 <= i < |blocks| ensures Listed(blocks[i]) { assert BlockSafe(blocks[i]); }
  }

  function BlockLines(b: Block): seq<string>
    requires Listed(b)
  {
    ["[" + b.name + "]"] + PairLines(b.params, b.order)
  }

  function AllLines(blocks: seq<Block>): seq<string>
    requires forall i :: 0 <= i < |blocks| ==> Listed(blocks[i])
  {
    if blocks == [] then [] else BlockLines(blocks[0]) + AllLines(blocks[1..])
  }

  lemma ReadStep(r: Reader, line: string, tail: seq<string>, next: Reader)
    requires ReadLine(r, line) == Ok(next)
    ensures ReadLines(r, [line] + tail) == ReadLines(next, tail)
  {
    var lines := [line] + tail;
    assert lines[0] == line && lines[1..] == tail;
    hide ReadLine;
    ReadNext(r, lines, next);
  }

  lemma SetKnown(data: Sections, section: string, key: string, value: string)
    requires section != "" && section in data && key != ""
    ensures SetValue(data, section, key, value) == data[section := data[section][key := value]]
  {
  }

  lemma PairReadIn(r: Reader, key: string, value: string)
    requires r.section != "" && r.section in r.data && LineSafe(key, value) && key != "-"
    ensures ReadLine(r, PairLine(key, value)) == Ok(r.(data := r.data[r.section := r.data[r.section][key := value]]))
  {
    assert key != "";
    hide ParseLine, PairLine, TrimSpace, Decimal, LineSafe, SetValue;
    SafeIsRead(key, value);
    SetKnown(r.data, r.section, key, value);
  }

  /** The reader after the keys of a section. */
  function AfterKeys(r: Reader, keys: map<string, string>): Reader
    requires r.section in r.data
  {
    r.(data := r.data[r.section := r.data[r.section] + keys])
  }

  lemma PairsHead(params: map<string, string>, order: seq<string>, tail: seq<string>)
    requires order != [] && forall i :: 0 <= i < |order| ==> order[i] in params
    ensures PairLines(params, order) + tail
         == [PairLine(order[0], params[order[0]])] + (PairLines(params, order[1..]) + tail)
  {
    hide PairLine;
  }

  lemma SafeLine(params: map<string, string>, key: string)
    requires ParamsSafe(params) && key in params
    ensures LineSafe(key, params[key]) && key != "-"
  {
    hide LineSafe, HasReference;
    assert PairSafe(key, params[key]);
  }

  lemma KeysStep(r: Reader, params: map<string, string>, order: seq<string>)
    requires r.section in r.data && order != [] && forall i :: 0 <= i < |order| ==> order[i] in params
    ensures var r' := r.(data := r.data[r.section := r.data[r.section][order[0] := params[order[0]]]]);
            AfterKeys(r', Chosen(params, order[1..])) == AfterKeys(r, Chosen(params, order))
  {
    ChosenStep(r.data[r.section], params, order);
    hide Chosen;
  }

  lemma {:induction false} PairsReadIn(r: Reader, params: map<string, string>, order: seq<string>, tail: seq<string>)
    requires r.section != "" && r.section in r.data && (forall i :: 0 <= i < |order| ==> order[i] in params) && ParamsSafe(params)
    ensures ReadLines(r, PairLines(params, order) + tail) == ReadLines(AfterKeys(r, Chosen(params, order)), tail)
    decreases |order|
  {
    hide ReadLine, ReadLines, PairLine, LineSafe, ParamsSafe;
    if order == [] {
      assert PairLines(params, order) + tail == tail;
      assert r.data[r.section] + Chosen(params, order) == r.data[r.section];
      assert AfterKeys(r, Chosen(params, order)).data == r.data;
    } else {
      hide PairLines, Chosen, AfterKeys;
      var k := order[0];
      var r' := r.(data := r.data[r.section := r.data[r.section][k := params[k]]]);
      SafeLine(params, k);
      PairsHead(params, order, tail);
      PairReadIn(r, k, params[k]);
      ReadStep(r, PairLine(k, params[k]), PairLines(params, order[1..]) + tail, r');
      PairsReadIn(r', params, order[1..], tail);
      KeysStep(r, params, order);
    }
  }

  /** A section as the reader keeps it. */
  function Kept(params: map<string, string>): map<string, string> {
    map[KEEPER := KEEPER] + params
  }

  /** A header begins its section, or goes on with it if it is there, and starts the numbering again. */
  lemma HeaderReadIn(r: Reader, name: string)
    requires name != "" && Trimmed(name)
    ensures ReadLine(r, "[" + name + "]") ==
              Ok(Reader(name, 1, r.data[name := (if name in r.data then r.data[name] else map[])[" " := " "]]))
  {
    HeaderRead(name);
    hide ParseLine, TrimSpace;
  }

  lemma AfterHeader(r: Reader, name: string, params: map<string, string>)
    ensures var r' := Reader(name, 1, r.data[name := map[KEEPER := KEEPER]]);
            AfterKeys(r', params) == Reader(name, 1, r.data[name := Kept(params)])
  {
  }

  lemma BlockSplit(b: Block, tail: seq<string>)
    requires Listed(b)
    ensures BlockLines(b) + tail == ["[" + b.name + "]"] + (PairLines(b.params, b.order) + tail)
  {
    hide PairLines;
  }

  lemma BlockRead(r: Reader, b: Block, tail: seq<string>)
    requires BlockSafe(b) && b.name !in r.data
    ensures ReadLines(r, BlockLines(b) + tail) == ReadLines(Reader(b.name, 1, r.data[b.name := Kept(b.params)]), tail)
  {
    hide ReadLine, ReadLines, PairLines, ParamsSafe, Chosen, Kept, BlockLines, AfterKeys;
    var r' := Reader(b.name, 1, r.data[b.name := map[KEEPER := KEEPER]]);
    BlockSplit(b, tail);
    HeaderReadIn(r, b.name);
    assert map[][KEEPER := KEEPER] == map[KEEPER := KEEPER];
    ReadStep(r, "[" + b.name + "]", PairLines(b.params, b.order) + tail, r');
    PairsReadIn(r', b.params, b.order, tail);
    AllChosen(b.params, b.order);
    AfterHeader(r, b.name, b.params);
  }

  lemma AllChosen(params: map<string, string>, order: seq<string>)
    requires IsOrder(order, params)
    ensures Chosen(params, order) == params
  {
  }

  /** The sections after these blocks. */
  function DataAfter(data: Sections, blocks: seq<Block>): Sections
    decreases |blocks|
  {
    if blocks == [] then data else DataAfter(data[blocks[0].name := Kept(blocks[0].params)], blocks[1..])
  }

  lemma RestSafe(blocks: seq<Block>)
    requires BlocksSafe(blocks) && blocks != []
    ensures BlockSafe(blocks[0]) && BlocksSafe(blocks[1..])
  {
    hide BlockSafe;
  }

  lemma LinesSplit(blocks: seq<Block>, tail: seq<string>)
    requires blocks != [] && forall i :: 0 <= i < |blocks| ==> Listed(blocks[i])
    ensures AllLines(blocks) + tail == BlockLines(blocks[0]) + (AllLines(blocks[1..]) + tail)
  {
    hide BlockLines, Listed;
  }

  lemma {:induction false} BlocksRead(r: Reader, blocks: seq<Block>)
    requires BlocksSafe(blocks) && forall i :: 0 <= i < |blocks| ==> blocks[i].name !in r.data
    ensures (forall i :: 0 <= i < |blocks| ==> Listed(blocks[i])) && ReadLines(r, AllLines(blocks) + [""]).Ok?
    ensures ReadLines(r, AllLines(blocks) + [""]).reader.data == DataAfter(r.data, blocks)
    decreases |blocks|
  {
    SafeListed(blocks);
    hide ReadLines, BlockLines, Kept, BlockSafe, Listed;
    if blocks == [] {
      assert AllLines(blocks) + [""] == [""];
      ReadEnd(r);
    } else {
      var b, rest := blocks[0], blocks[1..];
      var r' := Reader(b.name, 1, r.data[b.name := Kept(b.params)]);
      RestSafe(blocks);
      LinesSplit(blocks, [""]);
      hide AllLines;
      BlockRead(r, b, AllLines(rest) + [""]);
      assert forall i :: 0 <= i < |rest| ==> rest[i] == blocks[i + 1];
      BlocksRead(r', rest);
    }
  }

  ghost predicate Among(blocks: seq<Block>, name: string) {
    exists i :: 0 <= i < |blocks| && blocks[i].name == name
  }

  lemma {:induction false} DataOf(data: Sections, blocks: seq<Block>, name: string)
    requires forall i, j :: 0 <= i < j < |blocks| ==> blocks[i].name != blocks[j].name
    ensures name in DataAfter(data, blocks) <==> name in data || Among(blocks, name)
    ensures forall i :: 0 <= i < |blocks| && blocks[i].name == name ==> DataAfter(data, blocks)[name] == Kept(blocks[i].params)
    ensures name in data && !Among(blocks, name) ==> DataAfter(data, blocks)[name] == data[name]
    decreases |blocks|
  {
    hide Kept;
    if blocks != [] {
      var b, rest := blocks[0], blocks[1..];
      DataOf(data[b.name := Kept(b.params)], rest, name);
      assert forall i :: 0 <= i < |rest| ==> rest[i] == blocks[i + 1];
      assert forall i :: 0 < i < |blocks| ==> blocks[i] == rest[i - 1];
      assert Among(blocks, name) <==> b.name == name || Among(rest, name);
    }
  }

  lemma {:induction false} PlainLines(blocks: seq<Block>)
    requires BlocksSafe(blocks) && forall i :: 0 <= i < |blocks| ==> Listed(blocks[i])
    ensures forall i :: 0 <= i < |AllLines(blocks)| ==> '\n' !in AllLines(blocks)[i]
  {
    if blocks != [] {
      BlockPlain(blocks[0]);
      PlainLines(blocks[1..]);
      hide BlockLines, BlocksSafe;
    }
  }

  lemma PairsPlain(params: map<string, string>, order: seq<string>)
    requires IsOrder(order, params) && ParamsSafe(params)
    ensures forall i :: 0 <= i < |PairLines(params, order)| ==> '\n' !in PairLines(params, order)[i]
  {
    hide LineSafe, HasReference;
    forall i | 0 <= i < |order| ensures '\n' !in PairLines(params, order)[i] { assert PairSafe(order[i], params[order[i]]); }
  }

  lemma BlockPlain(b: Block)
    requires BlockSafe(b)
    ensures forall i :: 0 <= i < |BlockLines(b)| ==> '\n' !in BlockLines(b)[i]
  {
    hide ParamsSafe, IsOrder, PairLines;
    PairsPlain(b.params, b.order);
    assert '\n' !in "[" + b.name + "]";
  }

  /** The sections are exactly those of the blocks. */
  ghost predicate JustThese(sections: Sections, blocks: seq<Block>) {
    && (forall name :: name in sections <==> Among(blocks, name))
    && (forall i :: 0 <= i < |blocks| ==> blocks[i].name in sections && sections[blocks[i].name] == blocks[i].params)
  }

  lemma KeptSection(data: Sections, b: Block, expand: Expansion)
    requires BlockSafe(b) && b.name in data && data[b.name] == Kept(b.params) && KeepsPlain(expand)
    ensures SectionOf(data, expand, b.name) == b.params
  {
    KeeperUnsafe(b.params, "");
    hide LineSafe, HasReference;
    forall k | k in b.params ensures !HasReference(b.params[k]) { assert PairSafe(k, b.params[k]); }
    SectionRead(data, b.name, b.params, expand);
  }

  /** The reader after these keys, which stand before the first header. */
  function Lead(name: string, keys: map<string, string>): Reader {
    Reader(name, 1, if keys == map[] then map[] else map[name := keys])
  }

  lemma LeadFirst(name: string, key: string, value: string)
    requires name != "" && LineSafe(key, value) && key != "-"
    ensures ReadLine(Lead(name, map[]), PairLine(key, value)) == Ok(Lead(name, map[key := value]))
  {
    SafeIsRead(key, value);
    hide ParseLine, PairLine, TrimSpace, Decimal, LineSafe;
    assert map[key := value] != map[] by { assert key in map[key := value]; }
  }

  lemma LeadMore(name: string, keys: map<string, string>, more: map<string, string>)
    requires keys != map[]
    ensures name in Lead(name, keys).data && AfterKeys(Lead(name, keys), more) == Lead(name, keys + more)
  {
    var k :| k in keys;
    assert k in keys + more;
  }

  lemma FirstChosen(params: map<string, string>, order: seq<string>)
    requires IsOrder(order, params) && order != []
    ensures map[order[0] := params[order[0]]] + Chosen(params, order[1..]) == params
  {
    AllChosen(params, order);
    ChosenStep(map[], params, order);
    hide Chosen;
  }

  lemma LeadRead(name: string, lead: map<string, string>, order: seq<string>, tail: seq<string>)
    requires name != "" && IsOrder(order, lead) && ParamsSafe(lead)
    ensures ReadLines(Lead(name, map[]), PairLines(lead, order) + tail) == ReadLines(Lead(name, lead), tail)
  {
    hide ReadLine, ReadLines, PairLine, LineSafe, ParamsSafe, AfterKeys, Chosen;
    if order == [] {
      assert PairLines(lead, order) + tail == tail && lead == map[];
    } else {
      hide PairLines;
      FirstChosen(lead, order);
      var k, rest := order[0], order[1..];
      var one := map[k := lead[k]];
      SafeLine(lead, k);
      PairsHead(lead, order, tail);
      LeadFirst(name, k, lead[k]);
      assert k in one;
      hide IsOrder, Lead;
      ReadStep(Lead(name, map[]), PairLine(k, lead[k]), PairLines(lead, rest) + tail, Lead(name, one));
      LeadMore(name, one, Chosen(lead, rest));
      LeadSection(name, one);
      PairsReadIn(Lead(name, one), lead, rest, tail);
    }
  }

  lemma LeadSection(name: string, keys: map<string, string>)
    ensures Lead(name, keys).section == name
  {
  }

  lemma BlocksText(lead: map<string, string>, order: seq<string>, blocks: seq<Block>)
    requires IsOrder(order, lead) && ParamsSafe(lead) && BlocksSafe(blocks) && forall i :: 0 <= i < |blocks| ==> Listed(blocks[i])
    ensures Split(Text(PairLines(lead, order) + AllLines(blocks)), '\n') == PairLines(lead, order) + (AllLines(blocks) + [""])
  {
    hide BlocksSafe, ParamsSafe, Listed, Split, Text, AllLines, PairLines;
    PlainLines(blocks);
    PairsPlain(lead, order);
    var pairs, lines := PairLines(lead, order), AllLines(blocks);
    SplitText(pairs + lines);
    assert pairs + lines + [""] == pairs + (lines + [""]);
  }

  lemma BlocksData(lead: map<string, string>, order: seq<string>, blocks: seq<Block>)
    requires IsOrder(order, lead) && ParamsSafe(lead) && BlocksSafe(blocks) && forall i :: 0 <= i < |blocks| ==> Listed(blocks[i])
    ensures var read := ReadText(Text(PairLines(lead, order) + AllLines(blocks)));
            read.Ok? && read.reader.data == DataAfter(Lead(DEFAULT_SECTION, lead).data, blocks)
  {
    SafeNames(blocks);
    hide ReadLines, BlocksSafe, ParamsSafe, DataAfter, Split, Text, AllLines, PairLines;
    BlocksText(lead, order, blocks);
    LeadRead(DEFAULT_SECTION, lead, order, AllLines(blocks) + [""]);
    BlocksRead(Lead(DEFAULT_SECTION, lead), blocks);
  }

  /** Any number of sections with different names, written one after the other, are read back, all of them and nothing
      else; keys before the first section are left out. */
  lemma SectionsRoundTrip(lead: map<string, string>, order: seq<string>, blocks: seq<Block>, expand: Expansion)
    requires IsOrder(order, lead) && ParamsSafe(lead) && BlocksSafe(blocks) && KeepsPlain(expand)
    ensures forall i :: 0 <= i < |blocks| ==> Listed(blocks[i])
    ensures var read := ReadText(Text(PairLines(lead, order) + AllLines(blocks)));
            read.Ok? && JustThese(Remotes(read.reader.data, expand), blocks)
  {
    SafeListed(blocks);
    hide KeepsPlain, BlocksSafe, ParamsSafe, DataAfter, ReadText, Text, AllLines, PairLines, Remotes, JustThese;
    BlocksData(lead, order, blocks);
    BlocksKept(Lead(DEFAULT_SECTION, lead).data, blocks, expand);
  }

  lemma SafeNames(blocks: seq<Block>)
    requires BlocksSafe(blocks)
    ensures forall i :: 0 <= i < |blocks| ==> blocks[i].name != DEFAULT_SECTION
  {
    hide BlockSafe;
    forall i | 0 <= i < |blocks| ensures blocks[i].name != DEFAULT_SECTION { SafeName(blocks[i]); }
  }

  lemma BlocksKept(start: Sections, blocks: seq<Block>, expand: Expansion)
    requires start.Keys <= {DEFAULT_SECTION} && BlocksSafe(blocks) && KeepsPlain(expand)
    ensures JustThese(Remotes(DataAfter(start, blocks), expand), blocks)
  {
    hide KeepsPlain, Kept, SectionOf, BlockSafe, DataAfter;
    var data := DataAfter(start, blocks);
    SafeNames(blocks);
    forall name
      ensures name in data <==> name in start || Among(blocks, name)
      ensures forall i :: 0 <= i < |blocks| && blocks[i].name == name ==> name in data && SectionOf(data, expand, name) == blocks[i].params
    {
      DataOf(start, blocks, name);
      if i :| 0 <= i < |blocks| && blocks[i].name == name {
        assert BlockSafe(blocks[i]);
        KeptSection(data, blocks[i], expand);
      }
    }
  }

  lemma SafeName(b: Block)
    requires BlockSafe(b)
    ensures b.name != DEFAULT_SECTION
  {
  }

  // ---- quotes and numbered keys ----

  /** A value in backquotes or in three double quotes comes back as it is, whatever is in it. */
  lemma QuotedValueRead(key: string, value: string, quote: string)
    requires key != "" && Trimmed(key) && key[0] !in "#;[\"`" && forall i :: 0 <= i < |key| ==> key[i] != '=' && key[i] != ':'
    requires quote == "`" || quote == "\"\"\""
    ensures ParseLine(TrimSpace(PairLine(key, quote + value + quote))) == Pair(key, value)
  {
    hide SplitKey, LastIndex, ParsePair, ParseValue, TrimLeft, TrimRight;
    var right := quote + value + quote;
    var line := key + " =" + " " + right;
    assert PairLine(key, right) == line;
    assert right[0] == quote[0] && right[|right| - 1] == quote[0] && !IsSpace(quote[0]);
    assert line[0] == key[0] && line[|line| - 1] == quote[0] && key[0] != '#';
    TrimTrimmed(line);
    TrimOne(right);
    hide TrimSpace, PairLine, KeyQuote;
    QuotedValue(value, quote);
    assert key[0] !in "#;\"`";
    SafeSplit(key, " " + right, line);
    assert line[|key| + 2..] == " " + right;
    PairIs(line, key, |key| + 1, value);
  }

  lemma QuotedValue(value: string, quote: string)
    requires quote == "`" || quote == "\"\"\""
    ensures ParseValue(quote + value + quote) == Some(value)
  {
    var right := quote + value + quote;
    QuoteLast(value, quote);
    assert ValueQuote(right) == quote by { assert right[..|quote|] == quote; }
    hide LastIndex, TrimSpace, ValueQuote;
    assert right[|quote|..] == value + quote && right[|quote|..][..|value|] == value;
  }

  lemma QuoteLast(value: string, quote: string)
    requires quote != ""
    ensures LastIndex(value + quote, quote) == Some(|value|)
  {
    assert (value + quote)[|value|..] == quote;
  }

  /** A key in quotes, backquotes or three double quotes comes back as it is, assignment signs and spaces included, if the
      quote is not in it. */
  lemma QuotedKeyRead(key: string, value: string, quote: string)
    requires quote == "`" || quote == "\"" || quote == "\"\"\""
    requires quote[0] !in key && Trimmed(value) && ValueQuote(value) == ""
    ensures ParseLine(TrimSpace(PairLine(quote + key + quote, value))) == Pair(key, value)
  {
    hide TrimLeft, TrimRight, SplitKey, ParseLine, ParseValue, KeyQuote, ValueQuote;
    var quoted := quote + key + quote;
    assert !IsSpace(quote[0]) && quoted[0] == quote[0] && quoted[|quoted| - 1] == quote[0];
    var rest := if value == "" then "" else " " + value;
    var line := quoted + " =" + rest;
    QuotedLine(quoted, value, line);
    QuotedSplit(key, quote, rest, line);
    hide TrimSpace, PairLine;
    PlainValue(value);
    assert line[|quoted| + 2..] == rest;
    QuotedParsed(line, key, |quoted| + 1, value);
  }

  lemma QuotedLine(quoted: string, value: string, line: string)
    requires quoted != "" && Trimmed(quoted) && Trimmed(value) && line == quoted + " =" + if value == "" then "" else " " + value
    ensures TrimSpace(PairLine(quoted, value)) == line
    ensures TrimSpace(if value == "" then "" else " " + value) == value && TrimSpace(value) == value
  {
    TrimmedLine(quoted, value);
    TrimOne(quoted);
    TrimTrimmed(value);
    if value != "" { TrimOne(value); }
    hide TrimLeft, TrimRight, PairLine;
    assert quoted + " " + "=" == quoted + " =";
  }

  lemma QuotedParsed(line: string, key: string, at: nat, value: string)
    requires line != "" && line[0] in "`\"" && SplitKey(line) == Some(KeyAt(key, at))
    requires ParseValue(TrimSpace(line[at + 1..])) == Some(value)
    ensures ParseLine(line) == Pair(key, value)
  {
    PairIs(line, key, at, value);
    hide SplitKey, ParseValue, TrimSpace, ParsePair;
  }

  lemma SplitBy(line: string, p: nat)
    requires line != "" && KeyQuote(line) != "" && Index(line[|KeyQuote(line)|..], KeyQuote(line)) == Some(p)
    requires var pos := p + |KeyQuote(line)|; 0 < IndexAssign(line[pos..]) < |line| - pos
    ensures var pos := p + |KeyQuote(line)|; SplitKey(line) == Some(KeyAt(line[|KeyQuote(line)|..pos], IndexAssign(line[pos..]) + pos))
  {
    hide Index, IndexAssign, KeyQuote, TrimSpace;
  }

  lemma SplitAt(line: string, right: string, key: string, q: string, tail: string)
    requires line != "" && KeyQuote(line) == q && q != "" && Index(right, q) == Some(|key|)
    requires |key| + |q| <= |line| && line[|q|..] == right && line[|q|..|key| + |q|] == key && line[|key| + |q|..] == tail
    requires IndexAssign(tail) == |q| + 1 && |q| + 1 < |line| - (|key| + |q|)
    ensures SplitKey(line) == Some(KeyAt(key, 2 * |q| + |key| + 1))
  {
    hide Index, IndexAssign, KeyQuote, TrimSpace, SplitKey;
    SplitBy(line, |key|);
  }

  lemma Cut(q: string, key: string, tail: string)
    ensures var line := q + (key + tail);
            line[|q|..] == key + tail && line[|q|..|key| + |q|] == key && line[|key| + |q|..] == tail
  {
  }

  lemma AssignAfter(quote: string, rest: string)
    requires quote == "`" || quote == "\"" || quote == "\"\"\""
    ensures IndexAssign(quote + " =" + rest) == |quote| + 1
  {
    var tail := quote + " =" + rest;
    assert tail[|quote| + 1] == '=';
    hide IndexAssign;
    IndexAssignIs(tail, |quote| + 1);
  }

  lemma QuotedSplit(key: string, quote: string, rest: string, line: string)
    requires quote == "`" || quote == "\"" || quote == "\"\"\""
    requires quote[0] !in key && line == quote + key + quote + " =" + rest
    ensures SplitKey(line) == Some(KeyAt(key, 2 * |quote| + |key| + 1))
  {
    hide Index, IndexAssign, KeyQuote, SplitKey;
    var tail := quote + " =" + rest;
    assert line == quote + key + quote + (" =" + rest) == quote + (key + tail);
    QuoteOf(key, quote, " =" + rest, line);
    FirstQuote(key, quote, tail);
    AssignAfter(quote, rest);
    Cut(quote, key, tail);
    SplitAt(line, key + tail, key, quote, tail);
  }

  lemma QuoteOf(key: string, quote: string, rest: string, line: string)
    requires quote == "`" || quote == "\"" || quote == "\"\"\""
    requires quote[0] !in key && line == quote + key + quote + rest && rest != "" && rest[0] == ' '
    ensures KeyQuote(line) == quote
  {
    if quote == "\"" {
      assert line[1] == if key != "" then key[0] else '"';
      assert key == "" ==> line[2] == ' ';
      assert !(TRIPLE <= line);
    } else {
      assert quote <= line;
    }
  }

  lemma {:induction false} FirstQuote(key: string, quote: string, tail: string)
    requires quote != "" && quote[0] !in key && quote <= tail
    ensures Index(key + tail, quote) == Some(|key|)
  {
    if key == "" {
      assert key + tail == tail;
    } else {
      assert (key + tail)[0] == key[0] && key[0] != quote[0];
      assert (key + tail)[1..] == key[1..] + tail;
      FirstQuote(key[1..], quote, tail);
    }
  }

  /** The number that a decimal numeral means. */
  function ValueOf(s: string): int {
    if s == "" then 0 else 10 * ValueOf(s[..|s| - 1]) + (s[|s| - 1] as int - '0' as int)
  }

  lemma {:induction false} DecimalExactly(n: nat)
    ensures Decimal(n) != "" && ValueOf(Decimal(n)) == n && forall i :: 0 <= i < |Decimal(n)| ==> '0' <= Decimal(n)[i] <= '9'
    ensures n >= 10 ==> Decimal(n)[0] != '0'
  {
    var digit := [('0' as int + n % 10) as char];
    if n >= 10 {
      DecimalExactly(n / 10);
      assert Decimal(n)[..|Decimal(n)| - 1] == Decimal(n / 10);
    } else {
      assert digit[..0] == "" && ValueOf("") == 0;
    }
  }

  /** A key "-" gets the next number of its section, counted from 1. */
  lemma NumberedRead(r: Reader, value: string)
    requires r.section != "" && r.section in r.data && LineSafe("-", value)
    ensures ReadLine(r, PairLine("-", value)) ==
              Ok(Reader(r.section, r.count + 1, r.data[r.section := r.data[r.section]["#" + Decimal(r.count) := value]]))
  {
    hide ParseLine, PairLine, TrimSpace, Decimal, LineSafe, SetValue;
    SafeIsRead("-", value);
    SetKnown(r.data, r.section, "#" + Decimal(r.count), value);
  }
}
