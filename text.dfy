/** The JavaScript string operations the app relies on, over `string` = `seq<char>`. */
module Text {
  import opened Common

  /** The characters that `String.prototype.trim` removes and that the regular-expression class `\s`
      matches: ECMAScript's WhiteSpace and LineTerminator code points. */
  predicate IsWhitespace(c: char)
  {
    c == ' ' || c == '\t' || c == '\n' || c == '\r' || c == '\U{B}' || c == '\U{C}' ||
    c == '\U{A0}' || c == '\U{1680}' || ('\U{2000}' <= c <= '\U{200A}') ||
    c == '\U{2028}' || c == '\U{2029}' || c == '\U{202F}' || c == '\U{205F}' ||
    c == '\U{3000}' || c == '\U{FEFF}'
  }

  predicate AllWhitespace(s: string)
  {
    forall i :: 0 <= i < |s| ==> IsWhitespace(s[i])
  }

  predicate NoWhitespace(s: string)
  {
    forall i :: 0 <= i < |s| ==> !IsWhitespace(s[i])
  }

  /** `s.startsWith(prefix)`. */
  predicate StartsWith(s: string, prefix: string)
  {
    |prefix| <= |s| && s[..|prefix|] == prefix
  }

  /** `s.trimStart()`: the suffix of `s` left after dropping its leading whitespace. */
  function TrimStart(s: string): (r: string)
    ensures |r| <= |s| && r == s[|s| - |r|..]
    ensures r == [] || !IsWhitespace(r[0])
    ensures forall i :: 0 <= i < |s| - |r| ==> IsWhitespace(s[i])
  {
    if s != [] && IsWhitespace(s[0]) then TrimStart(s[1..]) else s
  }

  /** `s.trimEnd()`: the prefix of `s` left after dropping its trailing whitespace. */
  function TrimEnd(s: string): (r: string)
    ensures |r| <= |s| && r == s[..|r|]
    ensures r == [] || !IsWhitespace(r[|r| - 1])
    ensures forall i :: |r| <= i < |s| ==> IsWhitespace(s[i])
  {
    if s != [] && IsWhitespace(s[|s| - 1]) then TrimEnd(s[..|s| - 1]) else s
  }

  /** `s.trim()`: `s` without its leading and trailing whitespace. */
  function Trim(s: string): (r: string)
    ensures |r| <= |s|
    ensures r == [] || (!IsWhitespace(r[0]) && !IsWhitespace(r[|r| - 1]))
    ensures r == [] <==> AllWhitespace(s)
  {
    var a := TrimStart(s);
    assert a == [] ==> AllWhitespace(s);
    assert AllWhitespace(s) ==> a == [];
    TrimEnd(a)
  }

  /** What `trim` keeps is the slice of `s` between a leading and a trailing run of whitespace. */
  lemma TrimIsMiddle(s: string)
    ensures IsMiddle(s, Trim(s))
  {
    var a := TrimStart(s);
    MiddleOfSuffix(s, a, TrimEnd(a));
  }

  /** `r` is the part of `s` between a leading and a trailing run of whitespace. */
  ghost predicate IsMiddle(s: string, r: string)
  {
    exists x :: 0 <= x <= |s| - |r| && r == s[x..x + |r|] && AllWhitespace(s[..x]) && AllWhitespace(s[x + |r|..])
  }

  /** A prefix `r` of a suffix `a` of `s`, with only whitespace cut off on either side, is the
      middle of `s` between two whitespace runs. */
  lemma MiddleOfSuffix(s: string, a: string, r: string)
    requires |a| <= |s| && a == s[|s| - |a|..] && forall i :: 0 <= i < |s| - |a| ==> IsWhitespace(s[i])
    requires |r| <= |a| && r == a[..|r|] && forall i :: |r| <= i < |a| ==> IsWhitespace(a[i])
    ensures IsMiddle(s, r)
  {
    var x := |s| - |a|;
    assert forall k :: 0 <= k < |a| ==> a[k] == s[x + k];
    assert r == s[x..x + |r|];
    assert AllWhitespace(s[..x]);
    var tail := s[x + |r|..];
    assert forall k :: 0 <= k < |tail| ==> tail[k] == a[|r| + k];
    assert AllWhitespace(tail);
  }

  /** `s.trim() || undefined`: the trimmed text, or nothing when it is empty. */
  function TrimmedOrNone(s: string): (r: Option<string>)
    ensures r.None? <==> AllWhitespace(s)
    ensures r.Some? ==> r.value == Trim(s) && r.value != ""
  {
    var t := Trim(s);
    if t == "" then None else Some(t)
  }

  /** Whitespace appended at the end of a string does not survive trimming. */
  lemma {:induction false} TrimIgnoresTrailingWhitespace(s: string, c: char)
    requires IsWhitespace(c)
    ensures Trim(s + [c]) == Trim(s)
  {
    TrimStartAppend(s, c);
    if AllWhitespace(s) {
      assert Trim(s) == [];
      assert AllWhitespace(s + [c]);
    } else {
      var a := TrimStart(s);
      assert TrimEnd(a + [c]) == TrimEnd(a) by {
        assert (a + [c])[..|a + [c]| - 1] == a;
      }
    }
  }

  /** Dropping leading whitespace commutes with appending a character, unless nothing else is left. */
  lemma {:induction false} TrimStartAppend(s: string, c: char)
    ensures !AllWhitespace(s) ==> TrimStart(s + [c]) == TrimStart(s) + [c]
    ensures AllWhitespace(s) && IsWhitespace(c) ==> TrimStart(s + [c]) == []
  {
    var t := s + [c];
    if s == [] {
      assert t[1..] == [];
    } else if IsWhitespace(s[0]) {
      assert t[0] == s[0] && t[1..] == s[1..] + [c];
      assert TrimStart(t) == TrimStart(s[1..] + [c]);
      AllWhitespaceTail(s);
      TrimStartAppend(s[1..], c);
    } else {
      assert t[0] == s[0];
      assert !AllWhitespace(s);
    }
  }

  /** A string that starts with whitespace is all whitespace exactly when its tail is. */
  lemma AllWhitespaceTail(s: string)
    requires s != [] && IsWhitespace(s[0])
    ensures AllWhitespace(s) <==> AllWhitespace(s[1..])
  {
    assert forall k :: 0 < k < |s| ==> s[1..][k - 1] == s[k];
  }


  /** `s.indexOf(c)`: the position of the first `c` in `s`, or -1. */
  function IndexOf(s: string, c: char): (r: int)
    ensures -1 <= r < |s|
    ensures r == -1 <==> c !in s
    ensures r >= 0 ==> s[r] == c && c !in s[..r]
  {
    if s == [] then -1
    else if s[0] == c then 0
    else
      var r := IndexOf(s[1..], c);
      assert r >= 0 ==> s[..r + 1] == [s[0]] + s[1..][..r];
      if r == -1 then -1 else r + 1
  }

  /** The first occurrence of `c` is the one with none before it. */
  lemma IndexOfAt(s: string, c: char, i: int)
    requires 0 <= i < |s| && s[i] == c && c !in s[..i]
    ensures IndexOf(s, c) == i
  {
    var r := IndexOf(s, c);
    assert c in s;
    assert forall k :: 0 <= k < i ==> s[..i][k] == s[k];
  }

  /** `s.split(sep)` for a one-character separator: the pieces between the separators, empty ones
      included; there is always at least one piece. */
  function Split(s: string, sep: char): (pieces: seq<string>)
    ensures |pieces| >= 1
    decreases |s|
  {
    var i := IndexOf(s, sep);
    if i == -1 then [s] else [s[..i]] + Split(s[i + 1..], sep)
  }

  /** No piece of a split holds the separator. */
  lemma {:induction false} SplitPiecesLackSeparator(s: string, sep: char)
    ensures forall k :: 0 <= k < |Split(s, sep)| ==> sep !in Split(s, sep)[k]
    decreases |s|
  {
    var i := IndexOf(s, sep);
    if i != -1 {
      var rest := Split(s[i + 1..], sep);
      SplitPiecesLackSeparator(s[i + 1..], sep);
      assert Split(s, sep) == [s[..i]] + rest;
      assert forall k :: 0 < k < |Split(s, sep)| ==> Split(s, sep)[k] == rest[k - 1];
    }
  }

  /** `pieces.join(sep)`. */
  function Join(pieces: seq<string>, sep: char): string
  {
    if pieces == [] then ""
    else if |pieces| == 1 then pieces[0]
    else pieces[0] + [sep] + Join(pieces[1..], sep)
  }

  /** A string split on a separator and joined back on it is the original string. */
  lemma {:induction false} JoinSplit(s: string, sep: char)
    ensures Join(Split(s, sep), sep) == s
    decreases |s|
  {
    var i := IndexOf(s, sep);
    if i != -1 {
      JoinSplit(s[i + 1..], sep);
      assert s == s[..i] + [sep] + s[i + 1..];
    }
  }

  /** Splitting a joined sequence of separator-free pieces gives back the pieces. */
  lemma {:induction false} SplitJoin(pieces: seq<string>, sep: char)
    requires |pieces| >= 1
    requires forall k :: 0 <= k < |pieces| ==> sep !in pieces[k]
    ensures Split(Join(pieces, sep), sep) == pieces
  {
    if |pieces| > 1 {
      var rest := pieces[1..];
      assert forall k :: 0 <= k < |rest| ==> rest[k] == pieces[k + 1];
      assert Join(pieces, sep) == pieces[0] + [sep] + Join(rest, sep);
      SplitJoin(rest, sep);
      SplitFirst(pieces[0], sep, Join(rest, sep));
      HeadTail(pieces);
    } else {
      assert Join(pieces, sep) == pieces[0];
      assert IndexOf(pieces[0], sep) == -1;
      assert pieces == [pieces[0]];
    }
  }

  /** A piece followed by the separator is the first piece of the split. */
  lemma SplitFirst(first: string, sep: char, rest: string)
    requires sep !in first
    ensures Split(first + [sep] + rest, sep) == [first] + Split(rest, sep)
  {
    var s := first + [sep] + rest;
    var i := IndexOf(s, sep);
    assert s[|first|] == sep;
    assert s[..|first|] == first;
    assert i == |first|;
    assert s[i + 1..] == rest;
  }

  /** The pieces of a string made of whitespace are made of whitespace. */
  lemma {:induction false} SplitAllWhitespace(s: string, sep: char)
    requires AllWhitespace(s)
    ensures forall k :: 0 <= k < |Split(s, sep)| ==> AllWhitespace(Split(s, sep)[k])
    decreases |s|
  {
    var i := IndexOf(s, sep);
    if i != -1 {
      var head, tail := s[..i], s[i + 1..];
      AllWhitespaceSlice(s, 0, i);
      AllWhitespaceSlice(s, i + 1, |s|);
      assert s[0..i] == head && s[i + 1..|s|] == tail;
      SplitAllWhitespace(tail, sep);
      var pieces, rest := Split(s, sep), Split(tail, sep);
      assert pieces == [head] + rest;
      assert forall k :: 0 < k < |pieces| ==> pieces[k] == rest[k - 1];
    }
  }

  /** A slice of a string made of whitespace is made of whitespace. */
  lemma AllWhitespaceSlice(s: string, lo: int, hi: int)
    requires AllWhitespace(s) && 0 <= lo <= hi <= |s|
    ensures AllWhitespace(s[lo..hi])
  {
    var p := s[lo..hi];
    assert forall k :: 0 <= k < |p| ==> p[k] == s[lo + k];
  }

  /** The position of the first whitespace character of `s`, or `|s|` when there is none. */
  function FirstWhitespace(s: string): (i: nat)
    ensures i <= |s| && NoWhitespace(s[..i]) && (i < |s| ==> IsWhitespace(s[i]))
  {
    if s == [] || IsWhitespace(s[0]) then 0
    else
      var i := FirstWhitespace(s[1..]);
      assert s[..i + 1] == [s[0]] + s[1..][..i];
      i + 1
  }

  /** `s.split(/\s+/)`: the pieces between maximal runs of whitespace. A run at the start or at the
      end gives an empty first or last piece, and the empty string splits into one empty piece. */
  function SplitOnWhitespace(s: string): (pieces: seq<string>)
    ensures |pieces| >= 1
    ensures forall k :: 0 <= k < |pieces| ==> NoWhitespace(pieces[k])
    decreases |s|
  {
    var i := FirstWhitespace(s);
    if i == |s| then [s]
    else
      var rest := TrimStart(s[i..]);
      assert |rest| < |s[i..]|;
      [s[..i]] + SplitOnWhitespace(rest)
  }

  /** The pieces put back together with the given separators between them. */
  function Interleave(pieces: seq<string>, gaps: seq<string>): string
    requires pieces != [] && |gaps| == |pieces| - 1
    decreases |pieces|
  {
    if |pieces| == 1 then pieces[0] else pieces[0] + gaps[0] + Interleave(pieces[1..], gaps[1..])
  }

  /** `s` is `pieces` put back together with the runs of whitespace `gaps`, none of them empty. */
  ghost predicate SplitsWith(s: string, pieces: seq<string>, gaps: seq<string>)
  {
    pieces != [] && |gaps| == |pieces| - 1 && Interleave(pieces, gaps) == s &&
    forall k :: 0 <= k < |gaps| ==> gaps[k] != [] && AllWhitespace(gaps[k])
  }

  /** `s` is `pieces` put back together with a non-empty run of whitespace between each two. */
  ghost predicate SplitsInto(s: string, pieces: seq<string>)
  {
    exists gaps :: SplitsWith(s, pieces, gaps)
  }

  /** A piece and a separator put in front of a split give a split of the longer string. */
  lemma SplitsWithCons(piece: string, gap: string, rest: string, pieces: seq<string>, gaps: seq<string>)
    requires gap != [] && AllWhitespace(gap) && SplitsWith(rest, pieces, gaps)
    ensures SplitsWith(piece + gap + rest, [piece] + pieces, [gap] + gaps)
  {
    assert ([piece] + pieces)[1..] == pieces && ([gap] + gaps)[1..] == gaps;
  }

  /** The whitespace run that `trimStart` drops from a string that starts with whitespace. */
  lemma LeadingRun(u: string) returns (gap: string)
    requires u != [] && IsWhitespace(u[0])
    ensures gap != [] && AllWhitespace(gap) && u == gap + TrimStart(u)
  {
    var rest := TrimStart(u);
    gap := u[..|u| - |rest|];
    assert u == gap + rest;
  }

  /** A string that holds whitespace is its first piece, the run after it and the rest. */
  lemma SplitOnWhitespaceStep(s: string) returns (gap: string, rest: string)
    requires FirstWhitespace(s) < |s|
    ensures gap != [] && AllWhitespace(gap)
    ensures s == s[..FirstWhitespace(s)] + gap + rest
    ensures |rest| < |s|
    ensures SplitOnWhitespace(s) == [s[..FirstWhitespace(s)]] + SplitOnWhitespace(rest)
  {
    var i := FirstWhitespace(s);
    rest := TrimStart(s[i..]);
    gap := LeadingRun(s[i..]);
    CutAt(s, i, gap, rest);
  }

  /** A string is its prefix up to `i` followed by any cut of the rest. */
  lemma CutAt(s: string, i: nat, gap: string, rest: string)
    requires i <= |s| && s[i..] == gap + rest
    ensures s == s[..i] + gap + rest
  {
    assert s == s[..i] + s[i..];
  }

  /** The pieces are those of the input: it is the pieces with a whitespace run between each two,
      and as no piece holds whitespace, the runs are the maximal ones. */
  lemma {:induction false} SplitOnWhitespaceRebuilds(s: string)
    ensures SplitsInto(s, SplitOnWhitespace(s))
    decreases |s|
  {
    if FirstWhitespace(s) == |s| {
      assert SplitsWith(s, [s], []);
    } else {
      var gap, rest := SplitOnWhitespaceStep(s);
      SplitOnWhitespaceRebuilds(rest);
      var gaps :| SplitsWith(rest, SplitOnWhitespace(rest), gaps);
      SplitsWithCons(s[..FirstWhitespace(s)], gap, rest, SplitOnWhitespace(rest), gaps);
    }
  }

  /** The number of maximal runs of whitespace in `s`, counted at the character ending each run. */
  function WhitespaceRuns(s: string): nat
  {
    if s == [] then 0
    else (if IsWhitespace(s[0]) && (|s| == 1 || !IsWhitespace(s[1])) then 1 else 0) + WhitespaceRuns(s[1..])
  }

  /** Splitting on whitespace gives one piece more than there are whitespace runs. */
  lemma {:induction false} SplitOnWhitespaceCount(s: string)
    ensures |SplitOnWhitespace(s)| == WhitespaceRuns(s) + 1
    decreases |s|
  {
    var i := FirstWhitespace(s);
    RunsSkipPlain(s, i);
    if i < |s| {
      var rest := TrimStart(s[i..]);
      RunsOfRun(s[i..]);
      SplitOnWhitespaceCount(rest);
    }
  }

  /** A prefix without whitespace ends no run. */
  lemma {:induction false} RunsSkipPlain(s: string, i: nat)
    requires i <= |s| && NoWhitespace(s[..i])
    ensures WhitespaceRuns(s) == WhitespaceRuns(s[i..])
  {
    if i > 0 {
      assert !IsWhitespace(s[..i][0]);
      assert s[1..][..i - 1] == s[1..i];
      assert s[1..][i - 1..] == s[i..];
      RunsSkipPlain(s[1..], i - 1);
    }
  }

  /** A string starting with whitespace has one run more than what is left after the first run. */
  lemma {:induction false} RunsOfRun(u: string)
    requires u != [] && IsWhitespace(u[0])
    ensures WhitespaceRuns(u) == 1 + WhitespaceRuns(TrimStart(u))
  {
    if |u| > 1 && IsWhitespace(u[1]) {
      RunsOfRun(u[1..]);
    }
  }
}
