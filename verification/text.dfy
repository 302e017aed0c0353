/**
 * The Python string and text-file primitives the front end is built on,
 * stated on text as Python's text layer hands it over (universal newlines
 * already translated to '\n'): `str.isspace`, `strip`, `split()`,
 * `sep.join`, `split(sep)`, `splitlines`, `readline`/`readlines`/`read`,
 * `in` on strings, `lower`, `replace(c, "")`, `int()` and `str()` of a
 * natural number.
 */
module Text {
  import opened Wrappers

  /** Python's `str.isspace()` for one character. */
  predicate IsSpace(c: char) {
    c == ' ' || ('\t' <= c <= '\r') || ('\U{1c}' <= c <= '\U{1f}') || c == '\U{85}' || c == '\U{a0}'
    || c == '\U{1680}' || ('\U{2000}' <= c <= '\U{200a}') || c == '\U{2028}' || c == '\U{2029}'
    || c == '\U{202f}' || c == '\U{205f}' || c == '\U{3000}'
  }

  /** The characters at which `str.splitlines()` ends a line. */
  predicate IsLineBreak(c: char) {
    ('\n' <= c <= '\r') || ('\U{1c}' <= c <= '\U{1e}') || c == '\U{85}' || c == '\U{2028}' || c == '\U{2029}'
  }

  /** A token of `str.split()`: non-empty and free of whitespace. */
  predicate IsWord(s: string) {
    |s| > 0 && forall i :: 0 <= i < |s| ==> !IsSpace(s[i])
  }

  predicate AllSpace(s: string) {
    forall i :: 0 <= i < |s| ==> IsSpace(s[i])
  }

  /** A text that `splitlines()` and `readline()` keep on one line. */
  predicate IsLine(s: string) {
    forall i :: 0 <= i < |s| ==> !IsLineBreak(s[i])
  }

  /** A text that `strip()` leaves as it is. */
  predicate IsStripped(s: string) {
    s == [] || (!IsSpace(s[0]) && !IsSpace(s[|s| - 1]))
  }

  lemma LineHasNoNewline(s: string)
    requires IsLine(s)
    ensures '\n' !in s
  {
  }

  /** `"".join(items)`. */
  function Concat(items: seq<string>): string {
    if items == [] then [] else items[0] + Concat(items[1..])
  }

  /** `sep.join(items)`. */
  function Join(sep: string, items: seq<string>): string {
    if |items| == 0 then []
    else if |items| == 1 then items[0]
    else items[0] + sep + Join(sep, items[1..])
  }

  /** The text written by one `write(line + "\n")` per line. */
  function Terminated(lines: seq<string>): string {
    if lines == [] then [] else lines[0] + "\n" + Terminated(lines[1..])
  }

  lemma {:induction false} TerminatedAppend(a: seq<string>, b: seq<string>)
    ensures Terminated(a + b) == Terminated(a) + Terminated(b)
  {
    if a != [] {
      assert (a + b)[1..] == a[1..] + b;
      TerminatedAppend(a[1..], b);
    } else {
      assert a + b == b;
    }
  }

  /** `"\n".join(items + [last])` is the items, each terminated, then `last`. */
  lemma {:induction false} JoinNewlineSplit(items: seq<string>, last: string)
    ensures Join("\n", items + [last]) == Terminated(items) + last
  {
    if items != [] {
      assert (items + [last])[1..] == items[1..] + [last];
      JoinNewlineSplit(items[1..], last);
    }
  }

  /** `"\n".join(head + tail)` with a non-empty tail. */
  lemma JoinNewlineAppend(head: seq<string>, tail: seq<string>)
    requires tail != []
    ensures Join("\n", head + tail) == Terminated(head) + Join("\n", tail)
  {
    var last := tail[|tail| - 1];
    assert head + tail == (head + tail[..|tail| - 1]) + [last];
    JoinNewlineSplit(head + tail[..|tail| - 1], last);
    TerminatedAppend(head, tail[..|tail| - 1]);
    JoinNewlineSplit(tail[..|tail| - 1], last);
    assert tail == tail[..|tail| - 1] + [last];
  }

  /** `"\n".join(items) + "\n"` for at least one item. */
  lemma JoinNewlineTerminated(items: seq<string>)
    requires items != []
    ensures Join("\n", items) + "\n" == Terminated(items)
  {
    var init, last := items[..|items| - 1], items[|items| - 1];
    assert items == init + [last];
    JoinNewlineSplit(init, last);
    TerminatedAppend(init, [last]);
    assert Terminated([last]) == last + "\n" + Terminated([]);
  }

  // ---------------------------------------------------------------- strip()

  /** `lstrip()`: drops leading whitespace, and only that. */
  function StripLeft(s: string): (r: string)
    ensures |r| <= |s| && r == s[|s| - |r|..]
    ensures r == [] || !IsSpace(r[0])
    ensures AllSpace(s[..|s| - |r|])
  {
    if s != [] && IsSpace(s[0]) then
      var t := s[1..];
      var r := StripLeft(t);
      assert r == s[|s| - |r|..] && AllSpace(s[..|s| - |r|]) by {
        assert r == t[|t| - |r|..] == s[|s| - |r|..];
        assert s[..|s| - |r|] == [s[0]] + t[..|t| - |r|];
      }
      r
    else
      assert s[..0] == [];
      s
  }

  /** `rstrip()`: drops trailing whitespace, and only that. */
  function StripRight(s: string): (r: string)
    ensures |r| <= |s| && r == s[..|r|]
    ensures r == [] || !IsSpace(r[|r| - 1])
    ensures AllSpace(s[|r|..])
  {
    if s != [] && IsSpace(s[|s| - 1]) then
      var r := StripRight(s[..|s| - 1]);
      assert s[|r|..] == s[..|s| - 1][|r|..] + [s[|s| - 1]];
      r
    else s
  }

  /** `strip()`. */
  function Strip(s: string): (r: string)
    ensures IsStripped(r)
  {
    StripRight(StripLeft(s))
  }

  lemma {:induction false} StripRightPadding(v: string, w: string)
    requires v == [] || !IsSpace(v[|v| - 1])
    requires AllSpace(w)
    ensures StripRight(v + w) == v
  {
    if w == [] {
      assert v + w == v;
    } else {
      var w' := w[..|w| - 1];
      assert (v + w)[..|v + w| - 1] == v + w';
      StripRightPadding(v, w');
    }
  }

  lemma {:induction false} StripLeftSpaces(w: string)
    requires AllSpace(w)
    ensures StripLeft(w) == []
  {
    if w != [] {
      StripLeftSpaces(w[1..]);
    }
  }

  /** A stripped value followed by whitespace (a line's "\n") strips back to itself. */
  lemma StripPadded(v: string, w: string)
    requires IsStripped(v) && AllSpace(w)
    ensures Strip(v + w) == v
  {
    if v == [] {
      assert v + w == w;
      StripLeftSpaces(w);
    } else {
      assert StripLeft(v + w) == v + w;
      StripRightPadding(v, w);
    }
  }

  // ---------------------------------------------------------------- split()

  /** The longest prefix of `s` without whitespace. */
  function Word(s: string): (w: string)
    ensures |w| <= |s| && w == s[..|w|]
    ensures forall i :: 0 <= i < |w| ==> !IsSpace(w[i])
    ensures |w| < |s| ==> IsSpace(s[|w|])
  {
    if s == [] || IsSpace(s[0]) then [] else [s[0]] + Word(s[1..])
  }

  /** `str.split()` with no argument: the maximal runs of non-whitespace, in order. */
  function Split(s: string): (r: seq<string>)
    ensures forall i :: 0 <= i < |r| ==> IsWord(r[i])
    decreases |s|
  {
    if s == [] then []
    else if IsSpace(s[0]) then Split(s[1..])
    else
      var w := Word(s);
      [w] + Split(s[|w|..])
  }

  lemma {:induction false} SplitSkipsSpace(w: string, s: string)
    requires AllSpace(w)
    ensures Split(w + s) == Split(s)
  {
    if w != [] {
      assert (w + s)[1..] == w[1..] + s;
      SplitSkipsSpace(w[1..], s);
    } else {
      assert w + s == s;
    }
  }

  lemma {:induction false} WordOf(t: string, s: string)
    requires forall i :: 0 <= i < |t| ==> !IsSpace(t[i])
    requires s == [] || IsSpace(s[0])
    ensures Word(t + s) == t
  {
    if t != [] {
      assert (t + s)[1..] == t[1..] + s;
      WordOf(t[1..], s);
    } else {
      assert t + s == s;
    }
  }

  /**
   * Splitting what `sep.join` built, with a whitespace separator and any
   * trailing whitespace (a line's "\n"), gives the words back.
   */
  lemma {:induction false} SplitJoin(sep: string, words: seq<string>, trail: string)
    requires |sep| > 0 && AllSpace(sep) && AllSpace(trail)
    requires forall i :: 0 <= i < |words| ==> IsWord(words[i])
    ensures Split(Join(sep, words) + trail) == words
  {
    if |words| == 0 {
      assert Join(sep, words) + trail == trail + [];
      SplitSkipsSpace(trail, []);
    } else if |words| == 1 {
      assert Join(sep, words) + trail == words[0] + trail;
      SplitWord(words[0], trail);
      SplitSkipsSpace(trail, []);
      assert trail + [] == trail;
    } else {
      var tail := words[1..];
      assert forall i :: 0 <= i < |tail| ==> IsWord(tail[i]) by {
        forall i | 0 <= i < |tail| ensures IsWord(tail[i]) {
          assert tail[i] == words[i + 1];
        }
      }
      SplitJoin(sep, tail, trail);
      SplitJoinCons(sep, words[0], tail, trail);
      assert words == [words[0]] + tail;
    }
  }

  /** One step of `SplitJoin`: a word joined in front of more words splits off first. */
  lemma SplitJoinCons(sep: string, t: string, tail: seq<string>, trail: string)
    requires |sep| > 0 && AllSpace(sep) && IsWord(t) && tail != []
    ensures Split(Join(sep, [t] + tail) + trail) == [t] + Split(Join(sep, tail) + trail)
  {
    var rest := Join(sep, tail) + trail;
    assert Join(sep, [t] + tail) == t + sep + Join(sep, tail) by {
      assert ([t] + tail)[1..] == tail;
    }
    assert Join(sep, [t] + tail) + trail == t + (sep + rest);
    SplitWord(t, sep + rest);
    SplitSkipsSpace(sep, rest);
  }

  /** A word followed by nothing or by whitespace splits off as the first word. */
  lemma SplitWord(t: string, s: string)
    requires IsWord(t) && (s == [] || IsSpace(s[0]))
    ensures Split(t + s) == [t] + Split(s)
  {
    WordOf(t, s);
    assert (t + s)[0] == t[0];
    assert (t + s)[|t|..] == s;
  }

  // ------------------------------------------------------------ split(sep)

  /** `s.split(c)` for a one-character separator: never empty, and joining the pieces with `c` restores `s`. */
  function SplitOn(s: string, c: char): (r: seq<string>)
    ensures |r| >= 1
    ensures forall i :: 0 <= i < |r| ==> c !in r[i]
    ensures Join([c], r) == s
  {
    if s == [] then [[]]
    else
      var rest := SplitOn(s[1..], c);
      if s[0] == c then
        assert Join([c], [[]] + rest) == [] + [c] + Join([c], rest);
        [[]] + rest
      else
        var r := [[s[0]] + rest[0]] + rest[1..];
        assert |rest| > 1 ==> Join([c], rest) == rest[0] + [c] + Join([c], rest[1..]);
        assert |rest| > 1 ==> Join([c], r) == [s[0]] + rest[0] + [c] + Join([c], rest[1..]);
        assert s == [s[0]] + s[1..];
        r
  }

  // ----------------------------------------------------------- splitlines()

  /** The length of the first line of `s`, without its break. */
  function LineEnd(s: string): (i: nat)
    ensures i <= |s| && IsLine(s[..i])
    ensures i < |s| ==> IsLineBreak(s[i])
  {
    if s == [] || IsLineBreak(s[0]) then 0
    else
      var i := 1 + LineEnd(s[1..]);
      assert s[..i] == [s[0]] + s[1..][..i - 1];
      i
  }

  /** `str.splitlines()`: "\r\n" is one break, a final break opens no empty line. */
  function SplitLines(s: string): (r: seq<string>)
    ensures forall k :: 0 <= k < |r| ==> IsLine(r[k])
    decreases |s|
  {
    if s == [] then []
    else
      var i := LineEnd(s);
      if i == |s| then [s]
      else
        var w := if s[i] == '\r' && i + 1 < |s| && s[i + 1] == '\n' then 2 else 1;
        [s[..i]] + SplitLines(s[i + w..])
  }

  lemma {:induction false} LineEndOf(a: string, rest: string)
    requires IsLine(a)
    requires rest == [] || IsLineBreak(rest[0])
    ensures LineEnd(a + rest) == |a|
  {
    if a != [] {
      assert (a + rest)[1..] == a[1..] + rest;
      LineEndOf(a[1..], rest);
    } else {
      assert a + rest == rest;
    }
  }

  /** `"\n".join(items).splitlines()` gives the items back when the last one is not empty. */
  lemma {:induction false} SplitLinesJoin(items: seq<string>)
    requires forall k :: 0 <= k < |items| ==> IsLine(items[k])
    requires items == [] || items[|items| - 1] != []
    ensures SplitLines(Join("\n", items)) == items
  {
    if |items| == 1 {
      LineEndOf(items[0], []);
      assert items[0] + [] == items[0];
    } else if |items| > 1 {
      var a := items[0];
      var j := Join("\n", items[1..]);
      var s := a + "\n" + j;
      assert Join("\n", items) == s;
      assert s == a + ("\n" + j);
      LineEndOf(a, "\n" + j);
      assert s[..|a|] == a;
      assert s[|a|] == '\n';
      assert s[|a| + 1..] == j;
      SplitLinesJoin(items[1..]);
    }
  }

  // ------------------------------------------------ readline() / readlines()

  /** One `readline()`: the first line with its '\n', and what is left to read; `("", "")` at the end of the file. */
  function ReadLine(s: string): (r: (string, string))
    ensures r.0 + r.1 == s
    ensures s != [] ==> |r.0| > 0
    ensures r.0 == [] || '\n' !in r.0[..|r.0| - 1]
    ensures r.1 == [] || r.0[|r.0| - 1] == '\n'
  {
    if s == [] then ([], [])
    else if s[0] == '\n' then ("\n", s[1..])
    else
      var t := ReadLine(s[1..]);
      assert [s[0]] + t.0 + t.1 == s;
      assert t.0 != [] ==> ([s[0]] + t.0)[..|t.0|] == [s[0]] + t.0[..|t.0| - 1];
      ([s[0]] + t.0, t.1)
  }

  lemma {:induction false} ReadLineOf(v: string, rest: string)
    requires '\n' !in v
    ensures ReadLine(v + "\n" + rest) == (v + "\n", rest)
  {
    var s := v + "\n" + rest;
    if v != [] {
      assert v[0] in v;
      assert s[0] == v[0] && s[0] != '\n';
      assert s[1..] == v[1..] + "\n" + rest;
      assert '\n' !in v[1..] by {
        forall c | c in v[1..] ensures c in v { }
      }
      ReadLineOf(v[1..], rest);
      assert ReadLine(s) == ([s[0]] + ReadLine(s[1..]).0, ReadLine(s[1..]).1);
      assert [v[0]] + (v[1..] + "\n") == v + "\n";
    } else {
      assert s == "\n" + rest;
    }
  }

  lemma {:induction false} ReadLineLast(v: string)
    requires '\n' !in v
    ensures ReadLine(v) == (v, [])
  {
    if v != [] {
      assert v[0] in v;
      ReadLineLast(v[1..]);
      assert [v[0]] + v[1..] == v;
    }
  }

  /** What is left to read after `k` calls of `readline()`. */
  function DropLines(s: string, k: nat): (r: string)
    ensures |r| <= |s|
  {
    if k == 0 then s else ReadLine(DropLines(s, k - 1)).1
  }

  /** The line the `i`-th call of `readline()` returns (counting from 0); `""` past the end. */
  function NthLine(s: string, i: nat): string {
    ReadLine(DropLines(s, i)).0
  }

  /** `readlines()`. */
  function ReadLines(s: string): (r: seq<string>)
    decreases |s|
  {
    if s == [] then [] else [ReadLine(s).0] + ReadLines(ReadLine(s).1)
  }

  /** `items[k:]` with Python's slicing past the end. */
  function From<T>(items: seq<T>, k: nat): seq<T> {
    if k <= |items| then items[k..] else []
  }

  /** Each line of `readlines()` over terminated lines is one of them with its '\n'. */
  function WithBreaks(lines: seq<string>): (r: seq<string>)
    ensures |r| == |lines| && forall i :: 0 <= i < |lines| ==> r[i] == lines[i] + "\n"
  {
    seq(|lines|, i requires 0 <= i < |lines| => lines[i] + "\n")
  }

  lemma WithBreaksAppend(a: seq<string>, b: seq<string>)
    ensures WithBreaks(a + b) == WithBreaks(a) + WithBreaks(b)
  {
  }

  /** `readlines()` gives back the lines that were written each with its '\n'. */
  lemma {:induction false} ReadLinesTerminated(lines: seq<string>)
    requires forall i :: 0 <= i < |lines| ==> '\n' !in lines[i]
    ensures ReadLines(Terminated(lines)) == WithBreaks(lines)
    decreases |lines|
  {
    if lines != [] {
      var rest := Terminated(lines[1..]);
      assert Terminated(lines) == lines[0] + "\n" + rest;
      ReadLineOf(lines[0], rest);
      assert |Terminated(lines)| > 0;
      ReadLinesTerminated(lines[1..]);
      assert WithBreaks(lines) == [lines[0] + "\n"] + WithBreaks(lines[1..]);
    }
  }

  lemma {:induction false} DropLinesEmpty(k: nat)
    ensures DropLines([], k) == []
  {
    if k > 0 {
      DropLinesEmpty(k - 1);
    }
  }

  lemma {:induction false} DropLinesFront(s: string, k: nat)
    ensures DropLines(s, k + 1) == DropLines(ReadLine(s).1, k)
  {
    if k > 0 {
      DropLinesFront(s, k - 1);
    }
  }

  /** `a` calls of `readline()`, then `b` more, are `a + b` calls. */
  lemma {:induction false} DropLinesAdd(s: string, a: nat, b: nat)
    ensures DropLines(s, a + b) == DropLines(DropLines(s, a), b)
  {
    if b > 0 {
      DropLinesAdd(s, a, b - 1);
      assert DropLines(s, a + b) == ReadLine(DropLines(s, a + (b - 1))).1;
    }
  }

  lemma {:induction false} ConcatReadLines(s: string)
    ensures Concat(ReadLines(s)) == s
    decreases |s|
  {
    if s != [] {
      ConcatReadLines(ReadLine(s).1);
    }
  }

  /** `"".join(f.readlines()[k:])` is what is left after `k` calls of `readline()`. */
  lemma {:induction false} ReadLinesFrom(s: string, k: nat)
    ensures Concat(From(ReadLines(s), k)) == DropLines(s, k)
    decreases |s|
  {
    if k == 0 {
      ConcatReadLines(s);
    } else if s == [] {
      DropLinesEmpty(k);
    } else {
      var rest := ReadLine(s).1;
      var lines := ReadLines(rest);
      assert ReadLines(s) == [ReadLine(s).0] + lines;
      if k - 1 <= |lines| {
        assert ([ReadLine(s).0] + lines)[k..] == lines[k - 1..];
      }
      assert From(ReadLines(s), k) == From(lines, k - 1);
      ReadLinesFrom(rest, k - 1);
      DropLinesFront(s, k - 1);
    }
  }

  /** Reading `k` lines of a file that starts with terminated lines. */
  lemma {:induction false} DropTerminated(lines: seq<string>, x: string, k: nat)
    requires forall i :: 0 <= i < |lines| ==> '\n' !in lines[i]
    requires k <= |lines|
    ensures DropLines(Terminated(lines) + x, k) == Terminated(lines[k..]) + x
  {
    if k > 0 {
      var t := Terminated(lines[1..]) + x;
      assert Terminated(lines) + x == lines[0] + "\n" + t;
      ReadLineOf(lines[0], t);
      DropLinesFront(Terminated(lines) + x, k - 1);
      DropTerminated(lines[1..], x, k - 1);
      assert lines[1..][k - 1..] == lines[k..];
    }
  }

  lemma NthTerminated(lines: seq<string>, x: string, i: nat)
    requires forall j :: 0 <= j < |lines| ==> '\n' !in lines[j]
    requires i < |lines|
    ensures NthLine(Terminated(lines) + x, i) == lines[i] + "\n"
  {
    DropTerminated(lines, x, i);
    TerminatedHead(lines[i..], x);
  }

  lemma TerminatedHead(lines: seq<string>, x: string)
    requires lines != [] && '\n' !in lines[0]
    ensures ReadLine(Terminated(lines) + x).0 == lines[0] + "\n"
  {
    var rest := Terminated(lines[1..]) + x;
    assert Terminated(lines) + x == lines[0] + "\n" + rest;
    ReadLineOf(lines[0], rest);
  }

  // ---------------------------------------------------- `in`, lower, replace

  /** Python's `sub in s`. */
  predicate Contains(s: string, sub: string)
    decreases |s|
  {
    sub <= s || (s != [] && Contains(s[1..], sub))
  }

  /** `c in s` for a one-character string is membership. */
  lemma {:induction false} ContainsChar(s: string, c: char)
    ensures Contains(s, [c]) <==> c in s
  {
    if s != [] {
      ContainsChar(s[1..], c);
      assert s == [s[0]] + s[1..];
    }
  }

  /** A text contains any of its suffixes. */
  lemma {:induction false} ContainsSuffix(a: string, b: string)
    ensures Contains(a + b, b)
  {
    if a != [] {
      assert (a + b)[1..] == a[1..] + b;
      ContainsSuffix(a[1..], b);
    } else {
      assert a + b == b;
    }
  }

  /** Removing '\n' from a line and its break gives the line. */
  lemma RemoveBreak(s: string)
    requires '\n' !in s
    ensures Remove(s + "\n", '\n') == s
    ensures Remove(s, '\n') == s
  {
    RemoveAbsent(s, '\n');
    RemoveConcat(s, "\n", '\n');
    assert Remove("\n", '\n') == [] + Remove([], '\n');
    assert s + [] == s;
  }

  /** Removing a character the text does not hold changes nothing. */
  lemma {:induction false} RemoveAbsent(s: string, c: char)
    requires c !in s
    ensures Remove(s, c) == s
  {
    if s != [] {
      assert c !in s[1..];
      RemoveAbsent(s[1..], c);
      assert s == [s[0]] + s[1..];
    }
  }

  /** Removing a character from a concatenation removes it from each part. */
  lemma {:induction false} RemoveConcat(a: string, b: string, c: char)
    ensures Remove(a + b, c) == Remove(a, c) + Remove(b, c)
  {
    if a == [] {
      assert a + b == b;
    } else {
      assert (a + b)[0] == a[0];
      assert (a + b)[1..] == a[1..] + b;
      RemoveConcat(a[1..], b, c);
    }
  }

  /** Removing one character keeps every other. */
  lemma {:induction false} RemoveKeeps(s: string, c: char, d: char)
    requires c in s && c != d
    ensures c in Remove(s, d)
  {
    if s[0] != c {
      RemoveKeeps(s[1..], c, d);
    }
  }

  /** `lower()` on ASCII letters. */
  function LowerChar(c: char): char {
    if 'A' <= c <= 'Z' then (c as int + 32) as char else c
  }

  function Lower(s: string): (r: string)
    ensures |r| == |s| && forall i :: 0 <= i < |s| ==> r[i] == LowerChar(s[i])
  {
    if s == [] then [] else [LowerChar(s[0])] + Lower(s[1..])
  }

  /** `s.replace(c, "")`. */
  function Remove(s: string, c: char): (r: string)
    ensures c !in r && |r| <= |s|
  {
    if s == [] then [] else (if s[0] == c then [] else [s[0]]) + Remove(s[1..], c)
  }

  // ------------------------------------------------------ int() and str(int)

  predicate IsDigit(c: char) {
    '0' <= c <= '9'
  }

  predicate AllDigits(s: string) {
    forall i :: 0 <= i < |s| ==> IsDigit(s[i])
  }

  function DigitChar(d: nat): char
    requires d < 10
  {
    ('0' as int + d) as char
  }

  /** `str(n)` for a natural number. */
  function NatToString(n: nat): (s: string)
    ensures |s| > 0 && AllDigits(s)
  {
    if n < 10 then [DigitChar(n)] else NatToString(n / 10) + [DigitChar(n % 10)]
  }

  function DigitsValue(s: string): nat
    requires AllDigits(s)
  {
    if s == [] then 0 else DigitsValue(s[..|s| - 1]) * 10 + (s[|s| - 1] as int - '0' as int)
  }

  /**
   * `int(s)` in base 10 on ASCII digits: surrounding whitespace, an optional
   * sign, then at least one digit, with single underscores allowed between
   * digits; `None` where Python raises ValueError.
   */
  function ParseInt(s: string): Option<int> {
    ParseSigned(Strip(s))
  }

  /** Digits with single underscores between them, as Python's integer literals allow: `1_000`, not `_1`, `1_` or `1__0`. */
  predicate IsNumeral(s: string) {
    |s| > 0 && IsDigit(s[0]) && IsDigit(s[|s| - 1]) &&
    (forall i :: 0 <= i < |s| ==> IsDigit(s[i]) || s[i] == '_') &&
    (forall i :: 0 <= i < |s| - 1 ==> s[i] == '_' ==> s[i + 1] != '_')
  }

  /** `int(t)` for a text without surrounding whitespace: the value of its digits, underscores left out. */
  function ParseSigned(t: string): Option<int> {
    var digits := if t != [] && (t[0] == '-' || t[0] == '+') then t[1..] else t;
    if IsNumeral(digits) then
      RemoveLeavesDigits(digits, '_');
      var n := DigitsValue(Remove(digits, '_'));
      Some(if t[0] == '-' then -(n as int) else n as int)
    else None
  }

  /** Removing the only non-digit character a text holds leaves digits. */
  lemma {:induction false} RemoveLeavesDigits(s: string, c: char)
    requires forall i :: 0 <= i < |s| ==> IsDigit(s[i]) || s[i] == c
    ensures AllDigits(Remove(s, c))
  {
    if s != [] {
      RemoveLeavesDigits(s[1..], c);
    }
  }

  /** An underscore between two runs of digits does not change the value: `int("1_0") == int("10")`. */
  lemma UnderscoreIgnored(a: string, b: string)
    requires a != [] && b != [] && AllDigits(a) && AllDigits(b)
    ensures ParseSigned(a + "_" + b) == ParseSigned(a + b) == Some(DigitsValue(a + b) as int)
  {
    JoinIsNumeral(a, b);
    JoinRemoved(a, b);
    var u := a + b;
    assert AllDigits(u) by {
      forall i | 0 <= i < |u| ensures IsDigit(u[i]) {
        if i < |a| { assert u[i] == a[i]; } else { assert u[i] == b[i - |a|]; }
      }
    }
    DigitsAreNumeral(u);
    ParseNumeral(a + "_" + b);
    ParseNumeral(u);
  }

  /** `int(t)` of a numeral: its digits' value. */
  lemma ParseNumeral(t: string)
    requires IsNumeral(t)
    ensures AllDigits(Remove(t, '_'))
    ensures ParseSigned(t) == Some(DigitsValue(Remove(t, '_')) as int)
  {
    assert IsDigit(t[0]);
    RemoveLeavesDigits(t, '_');
  }

  /** Digits are a numeral, with nothing to remove. */
  lemma DigitsAreNumeral(s: string)
    requires s != [] && AllDigits(s)
    ensures IsNumeral(s) && Remove(s, '_') == s
  {
    assert IsDigit(s[0]) && IsDigit(s[|s| - 1]);
    NoUnderscore(s);
    RemoveAbsent(s, '_');
  }

  lemma JoinIsNumeral(a: string, b: string)
    requires a != [] && b != [] && AllDigits(a) && AllDigits(b)
    ensures IsNumeral(a + "_" + b)
  {
    var t := a + "_" + b;
    assert IsDigit(a[0]) && IsDigit(b[|b| - 1]);
    assert t[0] == a[0] && t[|t| - 1] == b[|b| - 1];
    forall i | 0 <= i < |t| ensures IsDigit(t[i]) || t[i] == '_' {
      if i < |a| { assert t[i] == a[i]; } else if i > |a| { assert t[i] == b[i - |a| - 1]; }
    }
    forall i | 0 <= i < |t| ensures t[i] == '_' <==> i == |a| {
      if i < |a| { assert t[i] == a[i]; } else if i > |a| { assert t[i] == b[i - |a| - 1]; }
    }
  }

  lemma JoinRemoved(a: string, b: string)
    requires AllDigits(a) && AllDigits(b)
    ensures Remove(a + "_" + b, '_') == a + b
  {
    NoUnderscore(a);
    NoUnderscore(b);
    RemoveConcat(a + "_", b, '_');
    RemoveConcat(a, "_", '_');
    RemoveAbsent(a, '_');
    RemoveAbsent(b, '_');
    assert Remove("_", '_') == [];
    assert a + [] == a;
  }

  /** Digits hold no underscore. */
  lemma NoUnderscore(s: string)
    requires AllDigits(s)
    ensures '_' !in s
  {
    forall i | 0 <= i < |s| ensures s[i] != '_' {
      assert IsDigit(s[i]);
    }
  }

  /** An underscore at either end, or two in a row, makes `int()` fail. */
  lemma UnderscoreMisplaced(a: string, b: string)
    requires a != [] && b != [] && AllDigits(a) && AllDigits(b)
    ensures ParseSigned("_" + a) == None && ParseSigned(a + "_") == None && ParseSigned(a + "__" + b) == None
  {
    assert ("_" + a)[0] == '_';
    assert (a + "_")[|a|] == '_';
    var t := a + "__" + b;
    assert t[|a|] == '_' && t[|a| + 1] == '_';
  }

  lemma {:induction false} NatToStringValue(n: nat)
    ensures DigitsValue(NatToString(n)) == n
  {
    if n >= 10 {
      var s := NatToString(n);
      assert s[..|s| - 1] == NatToString(n / 10);
      NatToStringValue(n / 10);
    }
  }

  /** `int(str(n) + padding) == n`, as when a count line is read back. */
  lemma ParseNat(n: nat, w: string)
    requires AllSpace(w)
    ensures ParseInt(NatToString(n) + w) == Some(n)
  {
    NatToStringValue(n);
    ParseDigits(NatToString(n), w);
  }

  /** `int(digits + padding)` is the value of the digits. */
  lemma ParseDigits(s: string, w: string)
    requires s != [] && AllDigits(s) && AllSpace(w)
    ensures ParseInt(s + w) == Some(DigitsValue(s) as int)
  {
    assert IsStripped(s) by {
      assert IsDigit(s[0]) && IsDigit(s[|s| - 1]);
    }
    StripPadded(s, w);
    assert ParseInt(s + w) == ParseSigned(s);
    DigitsAreNumeral(s);
    ParseNumeral(s);
  }

  /** Digits never hold whitespace or line breaks. */
  lemma NatToStringIsWord(n: nat)
    ensures IsWord(NatToString(n)) && IsLine(NatToString(n)) && IsStripped(NatToString(n))
  {
  }
}
