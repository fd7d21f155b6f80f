/** The driver writes a backend's parameters as INI text, and reads INI text with goconfig.  The reader is modelled
    with its sections, comments, quotes and numbered keys; the expansion of %(name)s in values is a parameter. */
module GoConfig {
  import opened Options
  import opened GoStrings
  import opened MapLoops

  type Sections = map<string, map<string, string>>

  const DEFAULT_SECTION := "DEFAULT"

  /** The key that keeps a section alive that has no other. */
  const KEEPER := " "

  // ---- one line ----

  datatype Line = Comment | Header(name: string) | Pair(key: string, value: string) | Malformed

  /** strings.IndexAny(s, "=:"); |s| when neither occurs. */
  function IndexAssign(s: string): (i: nat)
    ensures i <= |s| && (i < |s| ==> s[i] == '=' || s[i] == ':')
    ensures forall j :: 0 <= j < i ==> s[j] != '=' && s[j] != ':'
  {
    if s == "" || s[0] == '=' || s[0] == ':' then 0 else 1 + IndexAssign(s[1..])
  }

  /** strings.Index. */
  function Index(s: string, sub: string): (r: Option<nat>)
    ensures r.Some? ==> r.value + |sub| <= |s| && s[r.value..r.value + |sub|] == sub
  {
    if sub <= s then Some(0)
    else if s == "" then None
    else
      match Index(s[1..], sub)
      case None => None
      case Some(i) =>
        assert s[1..][i..i + |sub|] == s[i + 1..i + 1 + |sub|];
        Some(i + 1)
  }

  lemma {:induction false} IndexFirst(s: string, sub: string)
    requires Index(s, sub).Some?
    ensures forall j :: 0 <= j < Index(s, sub).value ==> !(sub <= s[j..])
  {
    if !(sub <= s) {
      IndexFirst(s[1..], sub);
      assert forall j :: 1 <= j < Index(s, sub).value ==> s[1..][j - 1..] == s[j..];
    }
  }

  /** strings.LastIndex. */
  function LastIndex(s: string, sub: string): (r: Option<nat>)
    ensures r.Some? ==> r.value + |sub| <= |s|
  {
    if |sub| > |s| then None
    else if s[|s| - |sub|..] == sub then Some(|s| - |sub|)
    else if s == "" then None
    else LastIndex(s[..|s| - 1], sub)
  }

  const TRIPLE := "\"\"\""

  function KeyQuote(line: string): (q: string)
    requires line != ""
    ensures |q| <= |line|
  {
    if line[0] == '"' then (if |line| >= 6 && TRIPLE <= line then TRIPLE else "\"")
    else if line[0] == '`' then "`"
    else ""
  }

  datatype KeyAt = KeyAt(key: string, at: nat)

  /** The key of a line, and where the = or : behind it is. */
  function SplitKey(line: string): (r: Option<KeyAt>)
    requires line != ""
    ensures r.Some? ==> r.value.at < |line|
  {
    var q := KeyQuote(line);
    if q != "" then
      match Index(line[|q|..], q)
      case None => None
      case Some(p) =>
        var pos := p + |q|;
        var i := IndexAssign(line[pos..]);
        if i == 0 || i == |line| - pos then None else Some(KeyAt(line[|q|..pos], i + pos))
    else
      var i := IndexAssign(line);
      if i == 0 || i == |line| then None else Some(KeyAt(TrimSpace(line[..i]), i))
  }

  function ValueQuote(right: string): (q: string)
    ensures q <= right
  {
    if |right| >= 2 && right[0] == '`' then "`"
    else if |right| >= 6 && TRIPLE <= right then TRIPLE
    else ""
  }

  function ParseValue(right: string): Option<string> {
    var q := ValueQuote(right);
    if q != "" then
      match LastIndex(right[|q|..], q)
      case None => None
      case Some(p) => Some(right[|q|..p + |q|])
    else Some(TrimSpace(right))
  }

  function ParsePair(line: string): Line
    requires line != ""
  {
    match SplitKey(line)
    case None => Malformed
    case Some(s) =>
      match ParseValue(TrimSpace(line[s.at + 1..]))
      case None => Malformed
      case Some(v) => Pair(s.key, v)
  }

  function ParseLine(line: string): Line {
    if line == "" || line[0] == '#' || line[0] == ';' then Comment
    else if line[0] == '[' && line[|line| - 1] == ']' then Header(TrimSpace(line[1..|line| - 1]))
    else ParsePair(line)
  }

  // ---- the whole text ----

  datatype Reader = Reader(section: string, count: nat, data: Sections)

  datatype ReadError = BlankSectionName | CouldNotParse

  datatype Read = Ok(reader: Reader) | Fail(error: ReadError)

  function SetValue(data: Sections, section: string, key: string, value: string): Sections {
    var name := if section == "" then DEFAULT_SECTION else section;
    if key == "" then data
    else data[name := (if name in data then data[name] else map[])[key := value]]
  }

  function Decimal(n: nat): string {
    var digit := [('0' as int + n % 10) as char];
    if n < 10 then digit else Decimal(n / 10) + digit
  }

  function ReadLine(r: Reader, text: string): Read {
    match ParseLine(TrimSpace(text))
    case Comment => Ok(r)
    case Header(name) => Ok(Reader(name, 1, SetValue(r.data, name, KEEPER, KEEPER)))
    case Malformed => Fail(if r.section == "" then BlankSectionName else CouldNotParse)
    case Pair(key, value) =>
      if r.section == "" then Fail(BlankSectionName)
      else if key == "-" then Ok(r.(count := r.count + 1, data := SetValue(r.data, r.section, "#" + Decimal(r.count), value)))
      else Ok(r.(data := SetValue(r.data, r.section, key, value)))
  }

  function ReadLines(r: Reader, lines: seq<string>): Read
    decreases |lines|
  {
    if lines == [] then Ok(r)
    else
      match ReadLine(r, lines[0])
      case Fail(e) => Fail(e)
      case Ok(r') => ReadLines(r', lines[1..])
  }

  function ReadText(text: string): Read {
    ReadLines(Reader(DEFAULT_SECTION, 1, map[]), Split(text, '\n'))
  }

  /** Reading is done line by line: the loop of the reader. */
  method Load(text: string) returns (result: Read)
    ensures result == ReadText(text)
  {
    var lines := Split(text, '\n');
    var r := Reader(DEFAULT_SECTION, 1, map[]);
    for i := 0 to |lines|
      invariant ReadText(text) == ReadLines(r, lines[i..])
    {
      var one := ReadLine(r, lines[i]);
      if one.Fail? {
        return one;
      }
      r := one.reader;
    }
    result := Ok(r);
  }

  // ---- what the driver takes from it ----

  /** The value with its %(name)s references expanded. */
  type Expansion = (Sections, string, string) -> string

  /** The value matches %\(([^\)]+)\)s somewhere. */
  ghost predicate HasReference(v: string) {
    exists i, j :: 0 <= i && i + 2 < j < |v| - 1 && v[i] == '%' && v[i + 1] == '(' && ')' !in v[i + 2..j]
      && v[j] == ')' && v[j + 1] == 's'
  }

  ghost predicate KeepsPlain(expand: Expansion) {
    forall d, s, v :: !HasReference(v) ==> expand(d, s, v) == v
  }

  function SectionOf(data: Sections, expand: Expansion, name: string): map<string, string>
    requires name in data
  {
    map k | k in data[name] && k != KEEPER :: expand(data, name, data[name][k])
  }

  function Remotes(data: Sections, expand: Expansion): Sections {
    map name | name in data && name != DEFAULT_SECTION :: SectionOf(data, expand, name)
  }

  method ParseAllConfigRemotes(text: string, expand: Expansion) returns (r: Option<Sections>)
    ensures ReadText(text).Fail? ==> r == None
    ensures ReadText(text).Ok? ==> r == Some(Remotes(ReadText(text).reader.data, expand))
  {
    var gc := Load(text);
    if gc.Fail? {
      return None;
    }
    var data := gc.reader.data;
    var all: Sections := map[];
    var todo := data.Keys;
    while todo != {}
      invariant todo <= data.Keys && all == Remotes(data, expand) - todo
    {
      var name :| name in todo;
      if name != DEFAULT_SECTION {
        var section := CopySection(data, expand, name);
        all := all[name := section];
      }
      todo := todo - {name};
    }
    assert all == Remotes(data, expand);
    r := Some(all);
  }

  method CopySection(data: Sections, expand: Expansion, name: string) returns (section: map<string, string>)
    requires name in data
    ensures section == SectionOf(data, expand, name)
  {
    section := map[];
    var keys := data[name].Keys;
    while keys != {}
      invariant keys <= data[name].Keys && section == SectionOf(data, expand, name) - keys
    {
      var key :| key in keys;
      if key != KEEPER {
        section := section[key := expand(data, name, data[name][key])];
      }
      keys := keys - {key};
    }
  }

  // ---- writing ----

  function PairLine(key: string, value: string): string {
    key + " = " + value
  }

  function Text(lines: seq<string>): string {
    if lines == [] then "" else lines[0] + "\n" + Text(lines[1..])
  }

  function PairLines(params: map<string, string>, order: seq<string>): (lines: seq<string>)
    requires forall i :: 0 <= i < |order| ==> order[i] in params
    ensures |lines| == |order| && forall i :: 0 <= i < |order| ==> lines[i] == PairLine(order[i], params[order[i]])
  {
    if order == [] then []
    else [PairLine(order[0], params[order[0]])] + PairLines(params, order[1..])
  }

  function ConfigText(params: map<string, string>, order: seq<string>, remoteType: string, remoteName: string): string
    requires forall i :: 0 <= i < |order| ==> order[i] in params
  {
    Text(["[" + remoteName + "]", PairLine("type", remoteType)] + PairLines(params, order))
  }

  lemma {:induction false} TextAppend(lines: seq<string>, line: string)
    ensures Text(lines + [line]) == Text(lines) + line + "\n"
  {
    if lines == [] {
      assert Text([line][1..]) == "";
    } else {
      TextAppend(lines[1..], line);
      assert (lines + [line])[1..] == lines[1..] + [line];
    }
  }

  lemma LinesAppend(head: seq<string>, params: map<string, string>, order: seq<string>, key: string)
    requires (forall i :: 0 <= i < |order| ==> order[i] in params) && key in params
    ensures head + PairLines(params, order + [key]) == head + PairLines(params, order) + [PairLine(key, params[key])]
  {
    hide PairLine;
  }

  lemma HeadText(name: string, t: string)
    ensures Text(["[" + name + "]", PairLine("type", t)]) == "[" + name + "]\n" + "type" + " = " + t + "\n"
  {
    var head := ["[" + name + "]"];
    TextAppend(head, PairLine("type", t));
    assert Text(head) == "[" + name + "]\n" by { assert head[1..] == []; }
    assert head + [PairLine("type", t)] == ["[" + name + "]", PairLine("type", t)];
  }

  method GenerateConfig(params: map<string, string>, remoteType: string, remoteName: string)
    returns (text: string)
    ensures exists order :: IsOrder(order, params) && text == ConfigText(params, order, remoteType, remoteName)
  {
    text := "[" + remoteName + "]\n";
    text := text + "type" + " = " + remoteType + "\n";
    ghost var head := ["[" + remoteName + "]", PairLine("type", remoteType)];
    HeadText(remoteName, remoteType);
    ghost var order: seq<string> := [];
    assert head + PairLines(params, order) == head;
    hide Text, PairLines;
    var todo := params.Keys;
    while todo != {}
      invariant Visited(order, params, todo) && (todo == {} ==> IsOrder(order, params))
      invariant forall i :: 0 <= i < |order| ==> order[i] in params
      invariant text == Text(head + PairLines(params, order))
      decreases |todo|
    {
      var key :| key in todo;
      VisitOne(order, params, todo, key);
      hide Visited, IsOrder;
      LinesAppend(head, params, order, key);
      TextAppend(head + PairLines(params, order), PairLine(key, params[key]));
      text := text + key + " = " + params[key] + "\n";
      order, todo := order + [key], todo - {key};
    }
  }
}
