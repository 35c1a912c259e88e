/** The few Python `str` operations the scripts rely on: substring test
    (`p in s`), `str.split(sep)`, `sep.join(parts)`, `str.rstrip()` and
    `str.replace(a, b)` for single characters. */
module Text {
  import opened Wrappers

  /** `p` occurs in `s` starting at index `i`. */
  predicate IsAt(s: string, p: string, i: int) {
    0 <= i && i + |p| <= |s| && s[i..i + |p|] == p
  }

  /** Python's `p in s` for strings. */
  predicate Contains(s: string, p: string) {
    exists i :: 0 <= i <= |s| - |p| && IsAt(s, p, i)
  }

  /** The leftmost occurrence of `p` in `s` at or after `from` (`str.find`). */
  function Find(s: string, p: string, from: nat): (r: Option<nat>)
    ensures r.Some? ==> from <= r.value && IsAt(s, p, r.value)
    decreases |s| - from
  {
    if from + |p| > |s| then None
    else if s[from..from + |p|] == p then Some(from)
    else Find(s, p, from + 1)
  }

  /** `Find` returns the leftmost occurrence, and `None` only when there is
      no occurrence at all. */
  lemma {:induction false} FindLeftmost(s: string, p: string, from: nat)
    ensures var r := Find(s, p, from);
            r.Some? ==> forall j :: from <= j < r.value ==> !IsAt(s, p, j)
    ensures Find(s, p, from).None? ==> forall j :: from <= j ==> !IsAt(s, p, j)
    decreases |s| - from
  {
    if from + |p| <= |s| && s[from..from + |p|] != p {
      FindLeftmost(s, p, from + 1);
    }
  }

  lemma FindNoneIffAbsent(s: string, p: string)
    ensures Find(s, p, 0).None? <==> !Contains(s, p)
  {
    FindLeftmost(s, p, 0);
    if Find(s, p, 0).Some? {
      assert IsAt(s, p, Find(s, p, 0).value);
    }
  }

  /** `sep.join(parts)`. */
  function Join(parts: seq<string>, sep: string): string
  {
    if |parts| == 0 then ""
    else if |parts| == 1 then parts[0]
    else parts[0] + sep + Join(parts[1..], sep)
  }

  /** `s.split(sep)` for a non-empty separator: cut at every leftmost,
      non-overlapping occurrence of `sep`. */
  function Split(s: string, sep: string): (parts: seq<string>)
    requires |sep| > 0
    ensures |parts| >= 1
    decreases |s|
  {
    match Find(s, sep, 0)
    case None => [s]
    case Some(k) => [s[..k]] + Split(s[k + |sep|..], sep)
  }

  /** Joining the parts of a split gives back the string, and no part
      contains the separator. */
  lemma SplitJoinsBack(s: string, sep: string)
    requires |sep| > 0
    ensures Join(Split(s, sep), sep) == s
    ensures forall i :: 0 <= i < |Split(s, sep)| ==> !Contains(Split(s, sep)[i], sep)
  {
    JoinOfSplit(s, sep);
    SplitPartsFree(s, sep);
  }

  lemma {:induction false} JoinOfSplit(s: string, sep: string)
    requires |sep| > 0
    ensures Join(Split(s, sep), sep) == s
    decreases |s|
  {
    match Find(s, sep, 0)
    case None =>
    case Some(k) =>
      var head, tail := s[..k], s[k + |sep|..];
      var rest := Split(tail, sep);
      JoinOfSplit(tail, sep);
      var parts := [head] + rest;
      assert Split(s, sep) == parts;
      assert parts[0] == head && parts[1..] == rest;
      assert Join(parts, sep) == head + sep + Join(rest, sep);
      assert s == head + s[k..k + |sep|] + tail;
  }

  /** The text before the leftmost occurrence does not contain `sep`. */
  lemma HeadIsFree(s: string, sep: string, k: nat)
    requires |sep| > 0 && Find(s, sep, 0) == Some(k)
    ensures !Contains(s[..k], sep)
  {
    FindLeftmost(s, sep, 0);
    var head := s[..k];
    forall j | 0 <= j <= |head| - |sep|
      ensures !IsAt(head, sep, j)
    {
      assert head[j..j + |sep|] == s[j..j + |sep|];
      assert !IsAt(s, sep, j);
    }
  }

  lemma {:induction false} SplitPartsFree(s: string, sep: string)
    requires |sep| > 0
    ensures forall i :: 0 <= i < |Split(s, sep)| ==> !Contains(Split(s, sep)[i], sep)
    decreases |s|
  {
    match Find(s, sep, 0)
    case None =>
      FindNoneIffAbsent(s, sep);
      assert Split(s, sep) == [s];
    case Some(k) =>
      var tail := s[k + |sep|..];
      SplitPartsFree(tail, sep);
      HeadIsFree(s, sep, k);
      var rest := Split(tail, sep);
      assert Split(s, sep) == [s[..k]] + rest;
  }

  /** No proper suffix of `sep` equals the prefix of the same length: two
      occurrences of `sep` can never overlap. */
  predicate BorderFree(sep: string) {
    forall d :: 0 < d < |sep| ==> sep[d..] != sep[..|sep| - d]
  }

  /** The leftmost occurrence of a border-free separator in
      `a + sep + b` is the one right after `a`, provided `a` has none. */
  lemma FindAfterFirstPart(a: string, sep: string, b: string)
    requires |sep| > 0 && BorderFree(sep) && !Contains(a, sep)
    ensures Find(a + sep + b, sep, 0) == Some(|a|)
  {
    var s := a + sep + b;
    FindLeftmost(s, sep, 0);
    assert s[|a|..|a| + |sep|] == sep;
    assert IsAt(s, sep, |a|);
    forall j | 0 <= j < |a|
      ensures !IsAt(s, sep, j)
    {
      if j + |sep| <= |a| {
        assert s[j..j + |sep|] == a[j..j + |sep|];
        assert !IsAt(a, sep, j);
      } else {
        // an occurrence straddling `a` and `sep` would give `sep` a border
        var d := |a| - j;
        assert s[j..j + |sep|][d..] == sep[..|sep| - d];
        assert sep[d..] != sep[..|sep| - d];
      }
    }
  }

  /** `split` undoes `join` when the separator is border-free and no part
      contains it. */
  lemma {:induction false} SplitJoin(parts: seq<string>, sep: string)
    requires |parts| >= 1 && |sep| > 0 && BorderFree(sep)
    requires forall i :: 0 <= i < |parts| ==> !Contains(parts[i], sep)
    ensures Split(Join(parts, sep), sep) == parts
    decreases |parts|
  {
    if |parts| == 1 {
      FindNoneIffAbsent(parts[0], sep);
    } else {
      var rest := Join(parts[1..], sep);
      FindAfterFirstPart(parts[0], sep, rest);
      FindLeftmost(parts[0] + sep + rest, sep, 0);
      var s := parts[0] + sep + rest;
      assert s[..|parts[0]|] == parts[0];
      assert s[|parts[0]| + |sep|..] == rest;
      SplitJoin(parts[1..], sep);
    }
  }

  /** The characters Python's `str.isspace` accepts. */
  predicate IsSpace(c: char) {
    || c == ' '
    || '\t' <= c <= '\r'
    || '\U{1C}' <= c <= '\U{1F}'
    || c == '\U{85}' || c == '\U{A0}' || c == '\U{1680}'
    || '\U{2000}' <= c <= '\U{200A}'
    || c == '\U{2028}' || c == '\U{2029}' || c == '\U{202F}'
    || c == '\U{205F}' || c == '\U{3000}'
  }

  /** `s.rstrip()`: the longest prefix of `s` not ending in whitespace. */
  function RStrip(s: string): (r: string)
    ensures r <= s
  {
    if |s| > 0 && IsSpace(s[|s| - 1]) then RStrip(s[..|s| - 1]) else s
  }

  /** What `rstrip` removes is whitespace, and what it keeps does not end
      in whitespace. */
  lemma {:induction false} RStripSpec(s: string)
    ensures var r := RStrip(s); |r| == 0 || !IsSpace(r[|r| - 1])
    ensures forall i :: |RStrip(s)| <= i < |s| ==> IsSpace(s[i])
    decreases |s|
  {
    if |s| > 0 && IsSpace(s[|s| - 1]) {
      RStripSpec(s[..|s| - 1]);
    }
  }

  /** A pattern that does not end in whitespace occurs in `s` exactly when
      it occurs in `s.rstrip()`. */
  lemma ContainsRStrip(s: string, p: string)
    requires |p| > 0 && !IsSpace(p[|p| - 1])
    ensures Contains(RStrip(s), p) <==> Contains(s, p)
  {
    RStripSpec(s);
    var r := RStrip(s);
    if Contains(r, p) {
      var i :| 0 <= i <= |r| - |p| && IsAt(r, p, i);
      assert s[i..i + |p|] == r[i..i + |p|];
      assert IsAt(s, p, i);
    }
    if Contains(s, p) {
      var i :| 0 <= i <= |s| - |p| && IsAt(s, p, i);
      assert s[i + |p| - 1] == p[|p| - 1];
      assert i + |p| <= |r|;
      assert r[i..i + |p|] == s[i..i + |p|];
      assert IsAt(r, p, i);
    }
  }

  /** `s.replace(a, b)` for single characters `a` and `b`. */
  function ReplaceChar(s: string, a: char, b: char): (r: string)
    ensures |r| == |s|
    ensures forall i :: 0 <= i < |s| ==> r[i] == (if s[i] == a then b else s[i])
  {
    if |s| == 0 then ""
    else [if s[0] == a then b else s[0]] + ReplaceChar(s[1..], a, b)
  }

  /** After replacing `a` by a different `b`, no `a` remains and nothing
      else moved. */
  lemma ReplaceCharRemoves(s: string, a: char, b: char)
    requires a != b
    ensures a !in ReplaceChar(s, a, b)
    ensures forall i :: 0 <= i < |s| && s[i] != a ==> ReplaceChar(s, a, b)[i] == s[i]
  {
  }
}
