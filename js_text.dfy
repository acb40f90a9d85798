/**
 The JavaScript built-ins the application relies on, stated over
 `seq<char>` and `seq<T>`: `String.prototype.trim`, `startsWith`/`endsWith`,
 `indexOf` for one character, `split` on one character and on `/\r?\n/`,
 the ASCII case folding that a regular expression with the `i` flag (and no
 `u` flag) applies, `Array.prototype.find`, and a `Set` seen through
 `Array.from`, which lists its elements in insertion order.
 */
module JsText {
  import opened Records

  /** The code points JavaScript counts as WhiteSpace or LineTerminator:
      what `trim` strips and what `\s` matches in a regular expression. */
  predicate IsSpace(c: char) {
    || c == '\t' || c == '\n' || c == '\U{B}' || c == '\U{C}' || c == '\r'
    || c == ' ' || c == '\U{A0}' || c == '\U{1680}'
    || ('\U{2000}' <= c <= '\U{200A}')
    || c == '\U{2028}' || c == '\U{2029}' || c == '\U{202F}' || c == '\U{205F}'
    || c == '\U{3000}' || c == '\U{FEFF}'
  }

  predicate AllSpace(s: string) {
    forall i :: 0 <= i < |s| ==> IsSpace(s[i])
  }

  /** `s.trimStart()` */
  function TrimStart(s: string): (r: string)
    ensures |r| <= |s| && r == s[|s| - |r|..]
    ensures AllSpace(s[..|s| - |r|])
    ensures r == [] || !IsSpace(r[0])
  {
    if s != [] && IsSpace(s[0]) then TrimStart(s[1..]) else s
  }

  /** `s.trimEnd()` */
  function TrimEnd(s: string): (r: string)
    ensures |r| <= |s| && r == s[..|r|]
    ensures AllSpace(s[|r|..])
    ensures r == [] || !IsSpace(r[|r| - 1])
  {
    if s != [] && IsSpace(s[|s| - 1]) then TrimEnd(s[..|s| - 1]) else s
  }

  /** `s.trim()`: white space dropped from both ends. */
  function Trim(s: string): (r: string)
    ensures |r| <= |s|
    ensures r == [] || (!IsSpace(r[0]) && !IsSpace(r[|r| - 1]))
  {
    TrimEnd(TrimStart(s))
  }

  /** What `trim` keeps is a slice of the string, and what it drops at
      either end is all white space. */
  lemma TrimSlice(s: string)
    ensures exists p, q :: 0 <= p <= q <= |s| && Trim(s) == s[p..q] && AllSpace(s[..p]) && AllSpace(s[q..])
  {
    var front := TrimStart(s);
    var r := TrimEnd(front);
    var p := |s| - |front|;
    var q := p + |r|;
    assert s[q..] == front[|r|..];
    assert r == s[p..q];
  }

  /** A string is blank (trims to "") exactly when every character is white space. */
  lemma TrimBlank(s: string)
    ensures Trim(s) == [] <==> AllSpace(s)
  {
  }

  /** Trimming leaves alone a string that already has no white space at either end. */
  lemma TrimNoop(s: string)
    requires s == [] || (!IsSpace(s[0]) && !IsSpace(s[|s| - 1]))
    ensures Trim(s) == s
  {
  }

  predicate StartsWith(s: string, prefix: string) {
    |prefix| <= |s| && s[..|prefix|] == prefix
  }

  predicate EndsWith(s: string, suffix: string) {
    |suffix| <= |s| && s[|s| - |suffix|..] == suffix
  }

  /** `s.indexOf(c)`: the first position of `c`, or -1. */
  function IndexOf(s: string, c: char): (r: int)
    ensures -1 <= r < |s|
    ensures r == -1 <==> c !in s
    ensures r >= 0 ==> s[r] == c && c !in s[..r]
  {
    if s == [] then -1
    else if s[0] == c then 0
    else
      var k := IndexOf(s[1..], c);
      assert s[1..][..if k < 0 then 0 else k] == s[1..1 + if k < 0 then 0 else k];
      if k < 0 then -1 else k + 1
  }

  /** `s.split(sep)` for a one-character separator. */
  function Split(s: string, sep: char): (r: seq<string>)
    ensures |r| >= 1
    ensures forall i :: 0 <= i < |r| ==> sep !in r[i]
    decreases |s|
  {
    var k := IndexOf(s, sep);
    if k < 0 then [s] else [s[..k]] + Split(s[k + 1..], sep)
  }

  /** `pieces.join(sep)` */
  function Join(pieces: seq<string>, sep: char): string
    requires |pieces| >= 1
  {
    if |pieces| == 1 then pieces[0] else pieces[0] + [sep] + Join(pieces[1..], sep)
  }

  /** Splitting then joining gives the text back. */
  lemma {:induction false} JoinSplit(s: string, sep: char)
    ensures Join(Split(s, sep), sep) == s
    decreases |s|
  {
    var k := IndexOf(s, sep);
    if k < 0 {
      assert Split(s, sep) == [s];
    } else {
      var head, tail := s[..k], s[k + 1..];
      var rest := Split(tail, sep);
      JoinSplit(tail, sep);
      calc {
        Join(Split(s, sep), sep);
        Join([head] + rest, sep);
        { assert ([head] + rest)[1..] == rest; }
        head + [sep] + Join(rest, sep);
        head + [sep] + tail;
        s;
      }
    }
  }

  /** The first occurrence of `c` is at `i` when `s[i]` is `c` and no
      earlier character is. */
  lemma IndexOfAt(s: string, c: char, i: nat)
    requires i < |s| && s[i] == c && c !in s[..i]
    ensures IndexOf(s, c) == i
  {
  }

  /** Splitting a text whose first separator follows `head`. */
  lemma SplitAfter(head: string, sep: char, rest: string)
    requires sep !in head
    ensures Split(head + [sep] + rest, sep) == [head] + Split(rest, sep)
  {
    var s := head + [sep] + rest;
    assert s[..|head|] == head;
    IndexOfAt(s, sep, |head|);
    assert s[|head| + 1..] == rest;
  }

  /** Joining pieces free of the separator then splitting gives the pieces back. */
  lemma {:induction false} SplitJoin(pieces: seq<string>, sep: char)
    requires |pieces| >= 1
    requires forall i :: 0 <= i < |pieces| ==> sep !in pieces[i]
    ensures Split(Join(pieces, sep), sep) == pieces
  {
    if |pieces| == 1 {
      assert Join(pieces, sep) == pieces[0];
    } else {
      SplitAfter(pieces[0], sep, Join(pieces[1..], sep));
      SplitJoin(pieces[1..], sep);
      assert [pieces[0]] + pieces[1..] == pieces;
    }
  }

  function DropCarriageReturn(line: string): string {
    if line != [] && line[|line| - 1] == '\r' then line[..|line| - 1] else line
  }

  /** `s.split(/\r?\n/)`: split on line feeds, and a carriage return just
      before a line feed belongs to the separator. */
  function SplitLines(s: string): (r: seq<string>)
    ensures |r| == |Split(s, '\n')| >= 1
  {
    var pieces := Split(s, '\n');
    seq(|pieces|, i requires 0 <= i < |pieces| =>
      if i < |pieces| - 1 then DropCarriageReturn(pieces[i]) else pieces[i])
  }

  /** What a regular expression with the `i` flag and no `u` flag treats as
      the same letter: only ASCII letters fold, since a non-ASCII character
      never matches an ASCII one in that mode. */
  function AsciiLower(c: char): char {
    if 'A' <= c <= 'Z' then (c as int + 32) as char else c
  }

  function LowerAscii(s: string): (r: string)
    ensures |r| == |s|
    ensures forall i :: 0 <= i < |s| ==> r[i] == AsciiLower(s[i])
  {
    seq(|s|, i requires 0 <= i < |s| => AsciiLower(s[i]))
  }

  predicate IsDigit(c: char) {
    '0' <= c <= '9'
  }

  predicate IsAsciiLetter(c: char) {
    'a' <= c <= 'z' || 'A' <= c <= 'Z'
  }

  /** The class `\w` of a regular expression without the `u` flag. */
  predicate IsWordChar(c: char) {
    IsAsciiLetter(c) || IsDigit(c) || c == '_'
  }

  /** `xs.find(p)`, as the position of the first element that satisfies `p`. */
  function FindIndex<T>(xs: seq<T>, p: T -> bool): (r: Option<nat>)
    ensures r.Some? ==> r.value < |xs| && p(xs[r.value]) && forall k :: 0 <= k < r.value ==> !p(xs[k])
    ensures r.None? ==> forall k :: 0 <= k < |xs| ==> !p(xs[k])
  {
    if xs == [] then None
    else if p(xs[0]) then Some(0)
    else
      var r := FindIndex(xs[1..], p);
      if r.Some? then Some(r.value + 1) else None
  }

  /** `xs.map(f)` */
  function MapSeq<A, B>(xs: seq<A>, f: A -> B): (r: seq<B>)
    ensures |r| == |xs| && forall i :: 0 <= i < |xs| ==> r[i] == f(xs[i])
  {
    seq(|xs|, i requires 0 <= i < |xs| => f(xs[i]))
  }

  /** Mapping distributes over concatenation. */
  lemma MapSeqAppend<A, B>(a: seq<A>, b: seq<A>, f: A -> B)
    ensures MapSeq(a + b, f) == MapSeq(a, f) + MapSeq(b, f)
  {
    var l, r := MapSeq(a + b, f), MapSeq(a, f) + MapSeq(b, f);
    forall i | 0 <= i < |l| ensures l[i] == r[i] {
      if i < |a| {
        assert (a + b)[i] == a[i];
      } else {
        assert (a + b)[i] == b[i - |a|];
      }
    }
  }

  /** `xs.map(f)` with a callback that may throw: every result, or the
      exception of the first element whose callback throws. */
  function MapOrThrow<A, B>(xs: seq<A>, f: A -> Result<B>): (r: Result<seq<B>>)
    ensures r.Ok? <==> forall i :: 0 <= i < |xs| ==> f(xs[i]).Ok?
    ensures r.Ok? ==> |r.value| == |xs| && forall i :: 0 <= i < |xs| ==> f(xs[i]) == Ok(r.value[i])
    ensures r.Err? ==>
              exists i :: 0 <= i < |xs| && f(xs[i]) == Err(r.message) && forall k :: 0 <= k < i ==> f(xs[k]).Ok?
  {
    if xs == [] then Ok([])
    else
      match f(xs[0])
      case Err(msg) => Err(msg)
      case Ok(y) =>
        var rest := MapOrThrow(xs[1..], f);
        assert forall k :: 1 <= k < |xs| ==> xs[k] == xs[1..][k - 1];
        if rest.Err? then Err(rest.message) else Ok([y] + rest.value)
  }

  predicate Distinct<T(==,!new)>(s: seq<T>) {
    forall i, j :: 0 <= i < j < |s| ==> s[i] != s[j]
  }

  /** `set.add(x)`, the set seen as the order its elements were added in. */
  function SetAdd<T(==,!new)>(order: seq<T>, x: T): seq<T> {
    if x in order then order else order + [x]
  }

  /** Adding every element of `xs` in turn, as `new Set(xs)` or a loop of
      `add` calls does. */
  function SetAddAll<T(==,!new)>(order: seq<T>, xs: seq<T>): (r: seq<T>)
    ensures forall y :: y in r <==> y in order || y in xs
    ensures |order| <= |r| && r[..|order|] == order
    ensures forall i :: |order| <= i < |r| ==> r[i] in xs && r[i] !in order
    ensures Distinct(order) ==> Distinct(r)
    decreases |xs|
  {
    if xs == [] then order else SetAddAll(SetAdd(order, xs[0]), xs[1..])
  }

  /** `Array.from(new Set(xs))` */
  function Dedup<T(==,!new)>(xs: seq<T>): (r: seq<T>)
    ensures forall y :: y in r <==> y in xs
    ensures Distinct(r)
  {
    SetAddAll([], xs)
  }

  /** The position of the first occurrence of `x`. */
  function FirstIndex<T(==,!new)>(xs: seq<T>, x: T): (r: nat)
    requires x in xs
    ensures r < |xs| && xs[r] == x && x !in xs[..r]
  {
    if xs[0] == x then 0
    else
      var k := FirstIndex(xs[1..], x);
      assert xs[..k + 1] == [xs[0]] + xs[1..][..k];
      k + 1
  }

  /** `Array.from(new Set(xs))` lists each element once, in the order of
      its first occurrence. */
  lemma DedupFirstOccurrence<T(!new)>(xs: seq<T>)
    ensures forall i, j :: 0 <= i < j < |Dedup(xs)| ==> FirstIndex(xs, Dedup(xs)[i]) < FirstIndex(xs, Dedup(xs)[j])
  {
    forall i, j | 0 <= i < j < |Dedup(xs)|
      ensures FirstIndex(xs, Dedup(xs)[i]) < FirstIndex(xs, Dedup(xs)[j])
    {
      FirstOccurrencePair([], xs, i, j);
    }
  }

  lemma {:induction false} FirstOccurrencePair<T(!new)>(order: seq<T>, xs: seq<T>, i: nat, j: nat)
    requires |order| <= i < j < |SetAddAll(order, xs)|
    ensures FirstIndex(xs, SetAddAll(order, xs)[i]) < FirstIndex(xs, SetAddAll(order, xs)[j])
    decreases |xs|
  {
    var r := SetAddAll(order, xs);
    var x, rest := xs[0], xs[1..];
    var next := SetAdd(order, x);
    assert r == SetAddAll(next, rest);
    assert r[..|next|] == next;
    assert r[j] != x;
    ShiftedFirstIndex(xs, r[j]);
    if r[i] != x {
      ShiftedFirstIndex(xs, r[i]);
      assert i >= |next|;
      FirstOccurrencePair(next, rest, i, j);
    }
  }

  lemma ShiftedFirstIndex<T(!new)>(xs: seq<T>, y: T)
    requires xs != [] && y in xs && y != xs[0]
    ensures y in xs[1..] && FirstIndex(xs, y) == FirstIndex(xs[1..], y) + 1
  {
  }
}
