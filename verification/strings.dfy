/** The string functions that more than one parser uses, on strings of code points. */
module Strings {

  import opened Wrappers

  predicate IsSpace(c: char) {
    c == ' ' || '\t' <= c <= '\r' || c == '\U{85}' || c == '\U{A0}' || c == '\U{1680}'
    || '\U{2000}' <= c <= '\U{200A}' || c == '\U{2028}' || c == '\U{2029}' || c == '\U{202F}'
    || c == '\U{205F}' || c == '\U{3000}'
  }

  function TrimLeft(s: string): string {
    if s == [] || !IsSpace(s[0]) then s else TrimLeft(s[1..])
  }

  function TrimRight(s: string): string {
    if s == [] || !IsSpace(s[|s| - 1]) then s else TrimRight(s[..|s| - 1])
  }

  function TrimSpace(s: string): string {
    TrimRight(TrimLeft(s))
  }

  predicate AllSpace(s: string) {
    forall c | c in s :: IsSpace(c)
  }

  lemma {:induction false} TrimLeftOf(front: string, s: string)
    requires AllSpace(front) && (s != [] ==> !IsSpace(s[0]))
    ensures TrimLeft(front + s) == s
  {
    if front == [] {
      assert front + s == s;
    } else {
      TrimLeftOf(front[1..], s);
      assert (front + s)[1..] == front[1..] + s;
    }
  }

  lemma {:induction false} TrimRightOf(s: string, back: string)
    requires AllSpace(back) && (s != [] ==> !IsSpace(s[|s| - 1]))
    ensures TrimRight(s + back) == s
  {
    if back == [] {
      assert s + back == s;
    } else {
      TrimRightOf(s, back[..|back| - 1]);
      assert (s + back)[..|s + back| - 1] == s + back[..|back| - 1];
    }
  }

  /** Trimming takes all white space off both ends and nothing else. */
  lemma TrimPadded(front: string, s: string, back: string)
    requires AllSpace(front) && AllSpace(back) && (s != [] ==> !IsSpace(s[0]) && !IsSpace(s[|s| - 1]))
    ensures TrimSpace(front + s + back) == s
  {
    if s == [] {
      TrimLeftOf(front + back, []);
      assert front + s + back == front + back + [];
    } else {
      TrimLeftOf(front, s + back);
      assert front + s + back == front + (s + back);
      TrimRightOf(s, back);
    }
  }

  /** strings.Split at one character. */
  function Split(text: string, sep: char): (parts: seq<string>)
    ensures parts != []
  {
    if text == [] then [""]
    else
      var rest := Split(text[1..], sep);
      if text[0] == sep then [""] + rest else [[text[0]] + rest[0]] + rest[1..]
  }

  function SplitLines(text: string): (raws: seq<string>)
    ensures raws != []
  {
    Split(text, '\n')
  }

  /** strings.Join with one character. */
  function Join(parts: seq<string>, sep: char): string {
    if parts == [] then []
    else if |parts| == 1 then parts[0]
    else parts[0] + [sep] + Join(parts[1..], sep)
  }

  lemma {:induction false} SplitOne(s: string, sep: char)
    requires sep !in s
    ensures Split(s, sep) == [s]
  {
    if s != [] {
      SplitOne(s[1..], sep);
      assert s == [s[0]] + s[1..];
    }
  }

  lemma {:induction false} SplitFirst(s: string, tail: string, sep: char)
    requires sep !in s
    ensures Split(s + [sep] + tail, sep) == [s] + Split(tail, sep)
  {
    var t := s + [sep] + tail;
    if s == [] {
      assert t[1..] == tail;
    } else {
      SplitFirst(s[1..], tail, sep);
      assert t[0] == s[0] && t[1..] == s[1..] + [sep] + tail;
      assert s == [s[0]] + s[1..];
    }
  }

  lemma {:induction false} SplitJoin(parts: seq<string>, sep: char)
    requires parts != [] && forall i | 0 <= i < |parts| :: sep !in parts[i]
    ensures Split(Join(parts, sep), sep) == parts
  {
    if |parts| == 1 {
      SplitOne(parts[0], sep);
      assert parts == [parts[0]];
    } else {
      SplitJoin(parts[1..], sep);
      SplitFirst(parts[0], Join(parts[1..], sep), sep);
      assert parts == [parts[0]] + parts[1..];
    }
  }

  /** The parts hold the characters of the text, without the separator. */
  lemma {:induction false} SplitParts(text: string, sep: char)
    ensures forall p | p in Split(text, sep) :: sep !in p && forall c | c in p :: c in text
  {
    if text != [] {
      SplitParts(text[1..], sep);
    }
  }

  /** strings.Cut at one character or byte. */
  function Cut<T(==)>(s: seq<T>, c: T): (r: Option<(seq<T>, seq<T>)>)
    ensures r.None? ==> c !in s
    ensures r.Some? ==> s == r.value.0 + [c] + r.value.1 && c !in r.value.0
  {
    if s == [] then None
    else if s[0] == c then Some(([], s[1..]))
    else
      match Cut(s[1..], c)
      case None => None
      case Some((before, after)) => Some(([s[0]] + before, after))
  }

  lemma {:induction false} CutFirst<T>(name: seq<T>, rest: seq<T>, c: T)
    requires c !in name
    ensures Cut(name + [c] + rest, c) == Some((name, rest))
  {
    var s := name + [c] + rest;
    if name == [] {
      assert s[0] == c && s[1..] == rest;
    } else {
      CutFirst(name[1..], rest, c);
      assert s[0] == name[0] != c && s[1..] == name[1..] + [c] + rest;
      assert [s[0]] + name[1..] == name;
    }
  }

  lemma {:induction false} CutNone<T>(s: seq<T>, c: T)
    requires c !in s
    ensures Cut(s, c) == None
  {
    if s != [] {
      CutNone(s[1..], c);
    }
  }

  /** strings.ReplaceAll of one character by another. */
  function Replace(s: string, from: char, to: char): (r: string)
    ensures |r| == |s| && forall i | 0 <= i < |s| :: r[i] == if s[i] == from then to else s[i]
  {
    seq(|s|, i requires 0 <= i < |s| => if s[i] == from then to else s[i])
  }
}
