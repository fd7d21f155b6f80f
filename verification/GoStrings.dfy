/** The string functions of Go's strings package that the driver uses, on ASCII. */
module GoStrings {

  predicate HasPrefix(s: string, prefix: string) {
    prefix <= s
  }

  function TrimPrefix(s: string, prefix: string): string {
    if prefix <= s then s[|prefix|..] else s
  }

  function LowerChar(c: char): char {
    if 'A' <= c <= 'Z' then (c as int + 32) as char else c
  }

  function ToLower(s: string): (t: string)
    ensures |t| == |s|
    ensures forall i :: 0 <= i < |s| ==> if 'A' <= s[i] <= 'Z' then 'a' <= t[i] <= 'z' && t[i] - 'a' == s[i] - 'A' else t[i] == s[i]
  {
    if s == "" then "" else [LowerChar(s[0])] + ToLower(s[1..])
  }

  predicate EqualFold(s: string, t: string) {
    ToLower(s) == ToLower(t)
  }

  predicate IsSpace(c: char) {
    c == ' ' || c == '\t' || c == '\n' || c == '\r' || c as int == 11 || c as int == 12
  }

  function TrimLeft(s: string): string {
    if s != "" && IsSpace(s[0]) then TrimLeft(s[1..]) else s
  }

  function TrimRight(s: string): string {
    if s != "" && IsSpace(s[|s| - 1]) then TrimRight(s[..|s| - 1]) else s
  }

  function TrimSpace(s: string): string {
    TrimRight(TrimLeft(s))
  }

  /** No space at either end. */
  predicate Trimmed(s: string) {
    s == "" || (!IsSpace(s[0]) && !IsSpace(s[|s| - 1]))
  }

  lemma TrimTrimmed(s: string)
    requires Trimmed(s)
    ensures TrimSpace(s) == s
  {
  }

  lemma {:induction false} TrimLeftShape(s: string)
    ensures exists k :: 0 <= k <= |s| && TrimLeft(s) == s[k..] && (forall i :: 0 <= i < k ==> IsSpace(s[i]))
    ensures TrimLeft(s) == "" || !IsSpace(TrimLeft(s)[0])
  {
    if s != "" && IsSpace(s[0]) {
      TrimLeftShape(s[1..]);
      var k :| 0 <= k <= |s[1..]| && TrimLeft(s[1..]) == s[1..][k..] && (forall i :: 0 <= i < k ==> IsSpace(s[1..][i]));
      assert s[1..][k..] == s[k + 1..];
      assert forall i :: 1 <= i < k + 1 ==> s[i] == s[1..][i - 1];
    } else {
      assert TrimLeft(s) == s[0..];
    }
  }

  lemma {:induction false} TrimRightShape(s: string)
    ensures TrimRight(s) <= s && (TrimRight(s) == "" || !IsSpace(TrimRight(s)[|TrimRight(s)| - 1]))
  {
    if s != "" && IsSpace(s[|s| - 1]) { TrimRightShape(s[..|s| - 1]); }
  }

  /** What TrimSpace returns is trimmed. */
  lemma TrimSpaceTrimmed(s: string)
    ensures Trimmed(TrimSpace(s))
  {
    TrimLeftShape(s);
    TrimRightShape(TrimLeft(s));
  }

  /** The white space of ASCII. */
  predicate Blank(c: char) {
    c == ' ' || '\t' <= c <= '\r'
  }

  /** t is at place i of s, with nothing but white space around it, and does not begin or end with any. */
  ghost predicate CutOut(s: string, t: string, i: nat) {
    && i + |t| <= |s| && s[i..i + |t|] == t && (t != "" ==> !Blank(t[0]) && !Blank(t[|t| - 1]))
    && (forall k :: 0 <= k < i ==> Blank(s[k])) && (forall k :: i + |t| <= k < |s| ==> Blank(s[k]))
  }

  /** TrimSpace cuts off exactly the white space at both ends. */
  lemma TrimSpaceExactly(s: string)
    ensures exists i: nat :: CutOut(s, TrimSpace(s), i)
  {
    var i := TrimLeftCuts(s);
    TrimRightCuts(TrimLeft(s));
    hide TrimLeft, TrimRight, IsSpace, Blank, CutOut;
    CutsAt(s, i, TrimSpace(s));
  }

  lemma {:induction false} TrimLeftCuts(s: string) returns (k: nat)
    ensures k <= |s| && TrimLeft(s) == s[k..] && (forall i :: 0 <= i < k ==> IsSpace(s[i]))
    ensures TrimLeft(s) == "" || !IsSpace(TrimLeft(s)[0])
  {
    if s != "" && IsSpace(s[0]) {
      k := TrimLeftCuts(s[1..]);
      assert forall i :: 1 <= i < k + 1 ==> s[i] == s[1..][i - 1];
      k := k + 1;
    } else {
      k := 0;
    }
  }

  lemma CutsAt(s: string, i: nat, t: string)
    requires i <= |s| && (forall k :: 0 <= k < i ==> IsSpace(s[k])) && t <= s[i..]
    requires t != "" ==> !IsSpace(t[0]) && !IsSpace(t[|t| - 1])
    requires forall k :: |t| <= k < |s[i..]| ==> IsSpace(s[i..][k])
    ensures CutOut(s, t, i)
  {
    SpaceIsBlank();
    hide IsSpace, Blank;
    forall k | i + |t| <= k < |s| ensures Blank(s[k]) { assert s[k] == s[i..][k - i]; }
  }

  lemma SpaceIsBlank()
    ensures forall c :: IsSpace(c) <==> Blank(c)
  {
  }

  lemma {:induction false} TrimRightCuts(s: string)
    ensures TrimRight(s) <= s && (TrimRight(s) == "" || !IsSpace(TrimRight(s)[|TrimRight(s)| - 1]))
    ensures forall k :: |TrimRight(s)| <= k < |s| ==> IsSpace(s[k])
    ensures TrimRight(s) != "" ==> TrimRight(s)[0] == s[0]
  {
    if s != "" && IsSpace(s[|s| - 1]) { TrimRightCuts(s[..|s| - 1]); }
  }

  /** strings.Index with one byte; |s| when it does not occur. */
  function IndexOf(s: string, c: char): (i: nat)
    ensures i <= |s| && c !in s[..i] && (i < |s| ==> s[i] == c)
  {
    if s == "" || s[0] == c then 0 else 1 + IndexOf(s[1..], c)
  }

  lemma {:induction false} IndexOfIs(s: string, c: char, i: nat)
    requires i <= |s| && c !in s[..i] && (i < |s| ==> s[i] == c)
    ensures IndexOf(s, c) == i
  {
    if i > 0 {
      assert s[..i][0] == s[0];
      forall x | x in s[1..][..i - 1] ensures x in s[..i] {
        var k :| 0 <= k < i - 1 && s[1..][k] == x;
        assert s[..i][k + 1] == x;
      }
      IndexOfIs(s[1..], c, i - 1);
    }
  }

  /** strings.Split with a one-byte separator. */
  function Split(s: string, sep: char): (parts: seq<string>)
    ensures |parts| >= 1
    decreases |s|
  {
    var i := IndexOf(s, sep);
    if i == |s| then [s] else [s[..i]] + Split(s[i + 1..], sep)
  }

  function Join(parts: seq<string>, sep: char): string {
    if parts == [] then ""
    else if |parts| == 1 then parts[0]
    else parts[0] + [sep] + Join(parts[1..], sep)
  }

  /** Splitting undoes joining, for components without the separator. */
  lemma {:induction false} SplitJoin(parts: seq<string>, sep: char)
    requires parts != [] && forall i :: 0 <= i < |parts| ==> sep !in parts[i]
    ensures Split(Join(parts, sep), sep) == parts
  {
    var s := Join(parts, sep);
    if |parts| == 1 {
      IndexOfIs(s, sep, |s|);
    } else {
      var rest := Join(parts[1..], sep);
      assert s == parts[0] + [sep] + rest;
      assert s[..|parts[0]|] == parts[0] && s[|parts[0]|] == sep && s[|parts[0]| + 1..] == rest;
      IndexOfIs(s, sep, |parts[0]|);
      SplitJoin(parts[1..], sep);
    }
  }

  /** strings.ReplaceAll with a non-empty old string: left to right, without looking at what was put in. */
  function ReplaceAll(s: string, old_: string, new_: string): string
    requires old_ != ""
    decreases |s|
  {
    if |s| < |old_| then s
    else if old_ <= s then new_ + ReplaceAll(s[|old_|..], old_, new_)
    else [s[0]] + ReplaceAll(s[1..], old_, new_)
  }

  lemma {:induction false} ReplaceAllChar(s: string, a: char, b: char)
    ensures |ReplaceAll(s, [a], [b])| == |s|
    ensures forall i :: 0 <= i < |s| ==> ReplaceAll(s, [a], [b])[i] == if s[i] == a then b else s[i]
    decreases |s|
  {
    if s != "" {
      assert [a] <= s <==> s[0] == a;
      ReplaceAllChar(s[1..], a, b);
    }
  }
}
