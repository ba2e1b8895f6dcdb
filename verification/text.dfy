/**
 The string primitives the command grammar is built from, as Python defines them
 on `str`: the `in` operator, `str.find`, `str.replace(old, "")` and `str.strip()`.
 */
module Text {
  import opened Wrappers

  /** `sub` occurs in `s` starting at index `i`. */
  predicate OccursAt(s: string, sub: string, i: int) {
    0 <= i && i + |sub| <= |s| && s[i..i + |sub|] == sub
  }

  /** The characters of `sub` from index `k` on match `s` from index `i + k` on. */
  predicate MatchFrom(s: string, sub: string, i: nat, k: nat)
    decreases |sub| - k
  {
    k >= |sub| || (i + k < |s| && s[i + k] == sub[k] && MatchFrom(s, sub, i, k + 1))
  }

  /** The character-by-character comparison decides an occurrence. */
  lemma {:induction false} MatchFromIff(s: string, sub: string, i: nat, k: nat)
    requires k <= |sub| && i + |sub| <= |s|
    ensures MatchFrom(s, sub, i, k) <==> s[i + k..i + |sub|] == sub[k..]
    decreases |sub| - k
  {
    if k < |sub| {
      MatchFromIff(s, sub, i, k + 1);
      assert s[i + k..i + |sub|] == [s[i + k]] + s[i + k + 1..i + |sub|];
      assert sub[k..] == [sub[k]] + sub[k + 1..];
    }
  }

  /** The first occurrence of `sub` in `s` at or after `from`, as `s.find(sub, from)`. */
  function FindFrom(s: string, sub: string, from: nat): Option<nat>
    decreases |s| - from
  {
    if from + |sub| > |s| then None
    else if MatchFrom(s, sub, from, 0) then Some(from)
    else FindFrom(s, sub, from + 1)
  }

  /** `find` reports the first occurrence at or after `from`, and `-1` only when there is none. */
  lemma {:induction false} FindFromSpec(s: string, sub: string, from: nat)
    ensures var r := FindFrom(s, sub, from);
            && (r.Some? ==> from <= r.value && OccursAt(s, sub, r.value))
            && (r.Some? ==> forall j :: from <= j < r.value ==> !OccursAt(s, sub, j))
            && (r.None? ==> forall j :: from <= j ==> !OccursAt(s, sub, j))
    decreases |s| - from
  {
    if from + |sub| <= |s| {
      MatchFromIff(s, sub, from, 0);
      assert s[from..from + |sub|] == s[from + 0..from + |sub|] && sub[0..] == sub;
      if !MatchFrom(s, sub, from, 0) {
        FindFromSpec(s, sub, from + 1);
      }
    }
  }

  /** Python's `sub in s`: some occurrence of `sub` exists. */
  predicate Contains(s: string, sub: string) {
    exists i :: 0 <= i <= |s| - |sub| && OccursAt(s, sub, i)
  }

  /** `s.find(sub) != -1` and `sub in s` agree. */
  lemma FindDecidesContains(s: string, sub: string)
    ensures FindFrom(s, sub, 0).Some? <==> Contains(s, sub)
  {
    FindFromSpec(s, sub, 0);
    if FindFrom(s, sub, 0).Some? {
      assert OccursAt(s, sub, FindFrom(s, sub, 0).value);
    }
  }

  lemma ContainsWitness(s: string, sub: string, i: int)
    requires OccursAt(s, sub, i)
    ensures Contains(s, sub)
  {
  }

  /** A string that contains `sub` contains each of `sub`'s characters. */
  lemma CharAbsent(s: string, sub: string, k: nat)
    requires k < |sub|
    ensures Contains(s, sub) ==> sub[k] in s
  {
    if Contains(s, sub) {
      var i :| 0 <= i <= |s| - |sub| && OccursAt(s, sub, i);
      assert s[i..i + |sub|][k] == s[i + k];
    }
  }

  /** A string that contains `sub` shows each pair of `sub`'s adjacent characters side by side. */
  lemma PairAbsent(s: string, sub: string, k: nat)
    requires k + 1 < |sub|
    ensures Contains(s, sub) ==>
              exists i :: 0 <= i < |s| - 1 && s[i] == sub[k] && s[i + 1] == sub[k + 1]
  {
    if Contains(s, sub) {
      var i :| 0 <= i <= |s| - |sub| && OccursAt(s, sub, i);
      assert s[i..i + |sub|][k] == s[i + k] && s[i..i + |sub|][k + 1] == s[i + k + 1];
    }
  }

  /** An occurrence of `outer` carries an occurrence of every substring of `outer`. */
  lemma ContainsTransitive(s: string, outer: string, inner: string)
    requires Contains(s, outer) && Contains(outer, inner)
    ensures Contains(s, inner)
  {
    var i :| 0 <= i <= |s| - |outer| && OccursAt(s, outer, i);
    var j :| 0 <= j <= |outer| - |inner| && OccursAt(outer, inner, j);
    var t := s[i + j..i + j + |inner|];
    forall k | 0 <= k < |inner|
      ensures t[k] == inner[k]
    {
      assert inner[k] == outer[j..j + |inner|][k] == outer[j + k];
      assert outer[j + k] == s[i..i + |outer|][j + k] == s[i + j + k];
    }
    assert t == inner;
    assert OccursAt(s, inner, i + j);
  }

  /**
   Python's `s.replace(lit, "")`: every non-overlapping occurrence of `lit`,
   found scanning left to right, is deleted. An empty `lit` leaves `s` alone.
   */
  function RemoveAll(s: string, lit: string): string {
    RemoveFrom(s, lit, 0)
  }

  /** The scan of `RemoveAll` from index `i` on. */
  function RemoveFrom(s: string, lit: string, i: nat): string
    requires i <= |s|
    decreases |s| - i
  {
    if |lit| == 0 || i + |lit| > |s| then s[i..]
    else if s[i..i + |lit|] == lit then RemoveFrom(s, lit, i + |lit|)
    else [s[i]] + RemoveFrom(s, lit, i + 1)
  }

  /**
   The same deletion written the way CPython performs it: from a start index,
   find the next occurrence, keep what precedes it, continue after it.
   */
  function RemoveAllByFind(s: string, lit: string): string {
    RemoveByFindFrom(s, lit, 0)
  }

  /** The loop of `RemoveAllByFind` from start index `from` on. */
  function RemoveByFindFrom(s: string, lit: string, from: nat): string
    requires from <= |s|
    decreases |s| - from
  {
    if |lit| == 0 then s[from..]
    else match FindFrom(s, lit, from)
      case None => s[from..]
      case Some(i) =>
        FindFromSpec(s, lit, from);
        s[from..i] + RemoveByFindFrom(s, lit, i + |lit|)
  }

  /** Dropping the first character shifts every occurrence one place to the left. */
  lemma OccursShift(s: string, sub: string, j: int)
    requires |s| > 0 && j >= 0
    ensures OccursAt(s[1..], sub, j) <==> OccursAt(s, sub, j + 1)
  {
    if 0 <= j && j + |sub| <= |s| - 1 {
      assert s[1..][j..j + |sub|] == s[j + 1..j + 1 + |sub|];
    }
  }

  /** An occurrence in `[c] + t` of a string not starting with `c` lies wholly in `t`. */
  lemma ContainsPastHead(c: char, t: string, sub: string)
    requires |sub| > 0 && sub[0] != c
    ensures Contains([c] + t, sub) ==> Contains(t, sub)
  {
    var s := [c] + t;
    if Contains(s, sub) {
      var i :| 0 <= i <= |s| - |sub| && OccursAt(s, sub, i);
      assert s[i] == s[i..i + |sub|][0];
      assert s[1..] == t;
      OccursShift(s, sub, i - 1);
      ContainsWitness(t, sub, i - 1);
    }
  }

  /** One step of the scan, where `lit` still fits. */
  lemma RemoveFromStep(s: string, lit: string, i: nat)
    requires 0 < |lit| && i + |lit| <= |s|
    ensures RemoveFrom(s, lit, i) ==
              if OccursAt(s, lit, i) then RemoveFrom(s, lit, i + |lit|) else [s[i]] + RemoveFrom(s, lit, i + 1)
  {
  }

  /** A character that does not start an occurrence is copied ahead of the rest of the scan. */
  lemma RemoveFromCopies(s: string, lit: string, i: nat, p: nat)
    requires |lit| > 0 && i < p && p + |lit| <= |s| && !OccursAt(s, lit, i)
    requires RemoveFrom(s, lit, i + 1) == s[i + 1..p] + RemoveFrom(s, lit, p + |lit|)
    ensures RemoveFrom(s, lit, i) == s[i..p] + RemoveFrom(s, lit, p + |lit|)
  {
    RemoveFromStep(s, lit, i);
    assert s[i..p] == [s[i]] + s[i + 1..p];
  }

  /** Past a stretch without occurrences, the scan only copies characters. */
  lemma {:induction false} RemoveFromAbsent(s: string, lit: string, i: nat)
    requires i <= |s| && forall j :: i <= j ==> !OccursAt(s, lit, j)
    ensures RemoveFrom(s, lit, i) == s[i..]
    decreases |s| - i
  {
    if |lit| == 0 || i + |lit| > |s| {
    } else {
      assert !OccursAt(s, lit, i);
      RemoveFromAbsent(s, lit, i + 1);
      assert s[i..] == [s[i]] + s[i + 1..];
    }
  }

  /** Without an occurrence of `lit`, deletion changes nothing. */
  lemma RemoveAllAbsent(s: string, lit: string)
    requires !Contains(s, lit)
    ensures RemoveAll(s, lit) == s
  {
    RemoveFromAbsent(s, lit, 0);
  }

  /** Up to the next occurrence at `p`, the scan copies; the occurrence itself is skipped. */
  lemma {:induction false} RemoveFromUpTo(s: string, lit: string, i: nat, p: nat)
    requires |lit| > 0 && i <= p && OccursAt(s, lit, p)
    requires forall j :: i <= j < p ==> !OccursAt(s, lit, j)
    ensures RemoveFrom(s, lit, i) == s[i..p] + RemoveFrom(s, lit, p + |lit|)
    decreases p - i
  {
    if i < p {
      RemoveFromUpTo(s, lit, i + 1, p);
      RemoveFromCopies(s, lit, i, p);
    } else {
      RemoveFromStep(s, lit, i);
      assert s[i..p] == [];
    }
  }

  /** The scanning deletion and the find-based deletion agree from every start index. */
  lemma {:induction false} RemoveFromAgrees(s: string, lit: string, from: nat)
    requires from <= |s|
    ensures RemoveFrom(s, lit, from) == RemoveByFindFrom(s, lit, from)
    decreases |s| - from
  {
    if |lit| > 0 {
      FindFromSpec(s, lit, from);
      match FindFrom(s, lit, from)
      case None =>
        RemoveFromAbsent(s, lit, from);
        ByFindNone(s, lit, from);
      case Some(p) =>
        RemoveFromAgrees(s, lit, p + |lit|);
        AgreeAtFound(s, lit, from, p);
    }
  }

  /** One round of both loops: they copy the same stretch and skip the same occurrence. */
  lemma AgreeAtFound(s: string, lit: string, from: nat, p: nat)
    requires from <= |s| && 0 < |lit| && FindFrom(s, lit, from) == Some(p)
    requires from <= p && OccursAt(s, lit, p) && forall j :: from <= j < p ==> !OccursAt(s, lit, j)
    requires RemoveFrom(s, lit, p + |lit|) == RemoveByFindFrom(s, lit, p + |lit|)
    ensures RemoveFrom(s, lit, from) == RemoveByFindFrom(s, lit, from)
  {
    RemoveFromUpTo(s, lit, from, p);
    ByFindSome(s, lit, from, p);
  }

  /** With no occurrence left, the find-based loop keeps the rest. */
  lemma ByFindNone(s: string, lit: string, from: nat)
    requires from <= |s| && FindFrom(s, lit, from).None?
    ensures RemoveByFindFrom(s, lit, from) == s[from..]
  {
  }

  /** The find-based loop keeps what precedes the occurrence found and resumes after it. */
  lemma ByFindSome(s: string, lit: string, from: nat, p: nat)
    requires from <= |s| && 0 < |lit| && FindFrom(s, lit, from) == Some(p)
    requires from <= p && OccursAt(s, lit, p)
    ensures RemoveByFindFrom(s, lit, from) == s[from..p] + RemoveByFindFrom(s, lit, p + |lit|)
  {
  }

  /** The scanning deletion and the find-based deletion agree on every input. */
  lemma RemoveAllAgrees(s: string, lit: string)
    ensures RemoveAll(s, lit) == RemoveAllByFind(s, lit)
  {
    RemoveFromAgrees(s, lit, 0);
  }

  /** A leading occurrence of `lit` is deleted, and a rest free of `lit` is kept as it is. */
  lemma RemoveAllLeading(lit: string, t: string)
    requires |lit| > 0 && !Contains(t, lit)
    ensures RemoveAll(lit + t, lit) == t
  {
    var s := lit + t;
    assert s[0..|lit|] == lit;
    RemoveFromStep(s, lit, 0);
    forall j | |lit| <= j
      ensures OccursAt(s, lit, j) ==> OccursAt(t, lit, j - |lit|)
    {
      if j + |lit| <= |s| {
        assert s[j..j + |lit|] == t[j - |lit|..j];
      }
    }
    RemoveFromAbsent(s, lit, |lit|);
    assert s[|lit|..] == t;
  }

  /** The characters Python's `str.isspace()` accepts, hence the ones `str.strip()` removes. */
  predicate IsSpace(c: char) {
    || c == ' ' || c == '\t' || c == '\n' || c == '\r'
    || c == '\U{000B}' || c == '\U{000C}'
    || ('\U{001C}' <= c <= '\U{001F}')
    || c == '\U{0085}' || c == '\U{00A0}' || c == '\U{1680}'
    || ('\U{2000}' <= c <= '\U{200A}')
    || c == '\U{2028}' || c == '\U{2029}' || c == '\U{202F}' || c == '\U{205F}' || c == '\U{3000}'
  }

  /** The end of the whitespace run that starts at `i`. */
  function LeadEnd(s: string, i: nat): (e: nat)
    requires i <= |s|
    ensures i <= e <= |s|
    decreases |s| - i
  {
    if i < |s| && IsSpace(s[i]) then LeadEnd(s, i + 1) else i
  }

  /** The start of the whitespace run that ends at `j`. */
  function TrailEnd(s: string, j: nat): (e: nat)
    requires j <= |s|
    ensures e <= j
  {
    if j > 0 && IsSpace(s[j - 1]) then TrailEnd(s, j - 1) else j
  }

  /** The run found by `LeadEnd` is all whitespace and stops at a non-space character or the end. */
  lemma {:induction false} LeadEndSpec(s: string, i: nat)
    requires i <= |s|
    ensures forall k :: i <= k < LeadEnd(s, i) ==> IsSpace(s[k])
    ensures LeadEnd(s, i) < |s| ==> !IsSpace(s[LeadEnd(s, i)])
    decreases |s| - i
  {
    if i < |s| && IsSpace(s[i]) {
      LeadEndSpec(s, i + 1);
    }
  }

  /** The run found by `TrailEnd` is all whitespace and stops at a non-space character or the start. */
  lemma {:induction false} TrailEndSpec(s: string, j: nat)
    requires j <= |s|
    ensures forall k :: TrailEnd(s, j) <= k < j ==> IsSpace(s[k])
    ensures TrailEnd(s, j) > 0 ==> !IsSpace(s[TrailEnd(s, j) - 1])
  {
    if j > 0 && IsSpace(s[j - 1]) {
      TrailEndSpec(s, j - 1);
    }
  }

  /** Python's `s.lstrip()`: the suffix left after the leading whitespace run. */
  function StripLeft(s: string): string {
    s[LeadEnd(s, 0)..]
  }

  /** Python's `s.rstrip()`: the prefix left before the trailing whitespace run. */
  function StripRight(s: string): string {
    s[..TrailEnd(s, |s|)]
  }

  /** `r` occurs in `s` at `i` with only whitespace before and after it. */
  ghost predicate TrimsAt(s: string, r: string, i: int) {
    && OccursAt(s, r, i)
    && (forall k :: 0 <= k < i ==> IsSpace(s[k]))
    && (forall k :: i + |r| <= k < |s| ==> IsSpace(s[k]))
  }

  /** `r` is `s` with its leading and trailing whitespace runs removed, and nothing else. */
  ghost predicate Trims(s: string, r: string) {
    && (|r| > 0 ==> !IsSpace(r[0]) && !IsSpace(r[|r| - 1]))
    && exists i :: TrimsAt(s, r, i)
  }

  /** Python's `s.strip()`. */
  function Strip(s: string): string {
    StripRight(StripLeft(s))
  }

  /** `strip` removes exactly the leading and trailing whitespace runs. */
  lemma StripTrims(s: string)
    ensures Trims(s, Strip(s))
  {
    var i := LeadEnd(s, 0);
    var l := s[i..];
    var j := TrailEnd(l, |l|);
    LeadEndSpec(s, 0);
    TrailEndSpec(l, |l|);
    assert Strip(s) == l[..j];
    assert s[i..i + j] == l[..j];
    assert forall k :: i + j <= k < |s| ==> s[k] == l[k - i];
    assert TrimsAt(s, l[..j], i);
  }

  /** A whitespace character in front shifts the leading run by one place. */
  lemma {:induction false} LeadEndPastHead(c: char, t: string, i: nat)
    requires i <= |t|
    ensures LeadEnd([c] + t, i + 1) == LeadEnd(t, i) + 1
    decreases |t| - i
  {
    assert ([c] + t)[i + 1..] == t[i..];
    if i < |t| {
      assert ([c] + t)[i + 1] == t[i];
      if IsSpace(t[i]) {
        LeadEndPastHead(c, t, i + 1);
      }
    }
  }

  /** Leading whitespace does not change what `strip` keeps. */
  lemma StripSkipsSpace(c: char, t: string)
    requires IsSpace(c)
    ensures Strip([c] + t) == Strip(t)
  {
    LeadEndPastHead(c, t, 0);
    assert StripLeft([c] + t) == ([c] + t)[LeadEnd(t, 0) + 1..];
    assert ([c] + t)[LeadEnd(t, 0) + 1..] == t[LeadEnd(t, 0)..];
  }

  /** A string without whitespace at either end is its own strip. */
  lemma StripUnchanged(s: string)
    requires |s| > 0 ==> !IsSpace(s[0]) && !IsSpace(s[|s| - 1])
    ensures Strip(s) == s
  {
    assert LeadEnd(s, 0) == 0;
    assert StripLeft(s) == s;
    assert TrailEnd(s, |s|) == |s|;
  }

  /**
   A trimmed part that is not empty starts where the leading whitespace run ends
   and stops where the trailing one starts; an empty one leaves only whitespace.
   */
  lemma TrimsAtPinned(s: string, r: string, i: int)
    requires TrimsAt(s, r, i) && (|r| > 0 ==> !IsSpace(r[0]) && !IsSpace(r[|r| - 1]))
    ensures |r| > 0 ==> i == LeadEnd(s, 0) < |s| && i + |r| == TrailEnd(s, |s|)
    ensures |r| == 0 ==> LeadEnd(s, 0) == |s|
  {
    LeadEndSpec(s, 0);
    TrailEndSpec(s, |s|);
    var a, b := LeadEnd(s, 0), TrailEnd(s, |s|);
    if |r| > 0 {
      assert s[i] == s[i..i + |r|][0] == r[0];
      assert s[i + |r| - 1] == s[i..i + |r|][|r| - 1] == r[|r| - 1];
    }
  }

  /** `Trims` determines its result: `strip` has exactly one possible outcome. */
  lemma TrimsUnique(s: string, r1: string, r2: string)
    requires Trims(s, r1) && Trims(s, r2)
    ensures r1 == r2
  {
    var i1 :| TrimsAt(s, r1, i1);
    var i2 :| TrimsAt(s, r2, i2);
    TrimsAtPinned(s, r1, i1);
    TrimsAtPinned(s, r2, i2);
    if |r1| > 0 && |r2| > 0 {
      assert r1 == s[i1..i1 + |r1|];
      assert r2 == s[i2..i2 + |r2|];
    }
  }
}
