/** String operations of the source language's standard library: trimming and splitting. */
module Text {
  import opened Common

  /** The characters with the Unicode White_Space property. */
  predicate IsSpace(c: char) {
    var n := c as int;
    || 0x09 <= n <= 0x0D || n == 0x20 || n == 0x85 || n == 0xA0 || n == 0x1680
    || 0x2000 <= n <= 0x200A || n == 0x2028 || n == 0x2029 || n == 0x202F || n == 0x205F || n == 0x3000
  }

  function TrimStart(s: string): (r: string)
    ensures |r| <= |s| && (r != [] ==> !IsSpace(r[0]))
  {
    if s != [] && IsSpace(s[0]) then TrimStart(s[1..]) else s
  }

  function TrimEnd(s: string): (r: string)
    ensures r <= s && (r != [] ==> !IsSpace(r[|r| - 1]))
  {
    if s != [] && IsSpace(s[|s| - 1]) then TrimEnd(s[..|s| - 1]) else s
  }

  function Trim(s: string): (r: string)
    ensures r != [] ==> !IsSpace(r[0]) && !IsSpace(r[|r| - 1])
  {
    TrimEnd(TrimStart(s))
  }

  /** No space at either end. */
  predicate Trimmed(s: string) {
    s != [] ==> !IsSpace(s[0]) && !IsSpace(s[|s| - 1])
  }

  lemma TrimTrimmed(s: string)
    requires Trimmed(s)
    ensures Trim(s) == s
  {
  }

  lemma TrimFront(c: char, s: string)
    requires IsSpace(c)
    ensures Trim([c] + s) == Trim(s)
  {
    assert ([c] + s)[1..] == s;
  }

  lemma {:induction false} TrimBack(s: string, c: char)
    requires IsSpace(c)
    ensures Trim(s + [c]) == Trim(s)
    decreases |s|
  {
    if s == [] {
      assert s + [c] == [c];
      assert [c][1..] == [];
    } else if IsSpace(s[0]) {
      TrimBack(s[1..], c);
      assert (s + [c])[1..] == s[1..] + [c];
    } else {
      assert TrimStart(s + [c]) == s + [c];
      assert (s + [c])[..|s|] == s;
    }
  }

  // ---- splitting at a doubled character ("&&", "||") ----

  predicate DoubleAt(s: string, i: nat, c: char) {
    i + 1 < |s| && s[i] == c && s[i + 1] == c
  }

  ghost predicate NoDouble(s: string, c: char) {
    forall i: nat :: !DoubleAt(s, i, c)
  }

  /** The first occurrence. */
  function FindDouble(s: string, c: char): (r: Option<nat>)
    ensures r.Some? ==> DoubleAt(s, r.value, c) && forall i: nat :: i < r.value ==> !DoubleAt(s, i, c)
    ensures r.None? ==> NoDouble(s, c)
  {
    if |s| < 2 then None
    else if s[0] == c && s[1] == c then Some(0)
    else
      var r := FindDouble(s[1..], c);
      assert forall i: nat :: i > 0 ==> DoubleAt(s, i, c) == DoubleAt(s[1..], i - 1, c);
      if r.None? then None else Some(r.value + 1)
  }

  function Split(s: string, c: char): (r: seq<string>)
    ensures r != []
    decreases |s|
  {
    var at := FindDouble(s, c);
    if at.None? then [s] else [s[..at.value]] + Split(s[at.value + 2..], c)
  }

  lemma FindIs(s: string, c: char, n: nat)
    requires DoubleAt(s, n, c) && forall i: nat :: i < n ==> !DoubleAt(s, i, c)
    ensures FindDouble(s, c) == Some(n)
  {
  }

  lemma FindNone(s: string, c: char)
    requires NoDouble(s, c)
    ensures FindDouble(s, c) == None && Split(s, c) == [s]
  {
  }

  function TrimAll(parts: seq<string>): (r: seq<string>)
    ensures |r| == |parts| && forall i :: 0 <= i < |parts| ==> r[i] == Trim(parts[i])
  {
    if parts == [] then [] else [Trim(parts[0])] + TrimAll(parts[1..])
  }

  /** A leading space changes no trimmed part. */
  lemma SplitFront(x: char, s: string, c: char)
    requires IsSpace(x) && !IsSpace(c)
    ensures TrimAll(Split([x] + s, c)) == TrimAll(Split(s, c))
  {
    var t := [x] + s;
    var at := FindDouble(s, c);
    assert forall i: nat :: i > 0 ==> DoubleAt(t, i, c) == DoubleAt(s, i - 1, c);
    assert !DoubleAt(t, 0, c);
    if at.None? {
      FindNone(t, c);
      TrimFront(x, s);
    } else {
      FindIs(t, c, at.value + 1);
      assert t[..at.value + 1] == [x] + s[..at.value];
      assert t[at.value + 3..] == s[at.value + 2..];
      TrimFront(x, s[..at.value]);
    }
  }

  lemma {:induction false} SplitBack(s: string, x: char, c: char)
    requires IsSpace(x) && !IsSpace(c)
    ensures TrimAll(Split(s + [x], c)) == TrimAll(Split(s, c))
    decreases |s|
  {
    var t := s + [x];
    var at := FindDouble(s, c);
    assert forall i: nat :: DoubleAt(t, i, c) == DoubleAt(s, i, c);
    if at.None? {
      FindNone(t, c);
      TrimBack(s, x);
    } else {
      var n := at.value;
      FindIs(t, c, n);
      SplitBack(s[n + 2..], x, c);
      assert t[..n] == s[..n];
      assert t[n + 2..] == s[n + 2..] + [x];
    }
  }

  lemma {:induction false} SplitTrimStart(s: string, c: char)
    requires !IsSpace(c)
    ensures TrimAll(Split(s, c)) == TrimAll(Split(TrimStart(s), c))
    decreases |s|
  {
    if s != [] && IsSpace(s[0]) {
      SplitFront(s[0], s[1..], c);
      assert s == [s[0]] + s[1..];
      SplitTrimStart(s[1..], c);
    }
  }

  lemma {:induction false} SplitTrimEnd(s: string, c: char)
    requires !IsSpace(c)
    ensures TrimAll(Split(s, c)) == TrimAll(Split(TrimEnd(s), c))
    decreases |s|
  {
    if s != [] && IsSpace(s[|s| - 1]) {
      var front := s[..|s| - 1];
      SplitBack(front, s[|s| - 1], c);
      assert s == front + [s[|s| - 1]];
      SplitTrimEnd(front, c);
    }
  }

  /** Trimming first changes no trimmed part. */
  lemma SplitTrim(s: string, c: char)
    requires !IsSpace(c)
    ensures TrimAll(Split(s, c)) == TrimAll(Split(Trim(s), c))
  {
    SplitTrimStart(s, c);
    SplitTrimEnd(TrimStart(s), c);
  }

  /** Parts contain no separator, nor any other doubled character the whole lacks. */
  lemma {:induction false} SplitParts(s: string, c: char, d: char)
    requires NoDouble(s, d)
    ensures forall i :: 0 <= i < |Split(s, c)| ==> NoDouble(Split(s, c)[i], c) && NoDouble(Split(s, c)[i], d)
    decreases |s|
  {
    var at := FindDouble(s, c);
    if at.Some? {
      var n := at.value;
      var rest := s[n + 2..];
      assert forall i: nat :: DoubleAt(s[..n], i, d) ==> DoubleAt(s, i, d);
      assert forall i: nat :: DoubleAt(s[..n], i, c) ==> DoubleAt(s, i, c);
      assert forall i: nat :: DoubleAt(rest, i, d) ==> DoubleAt(s, n + 2 + i, d);
      SplitParts(rest, c, d);
    }
  }

  lemma {:induction false} TrimNoDouble(s: string, c: char)
    requires NoDouble(s, c)
    ensures NoDouble(Trim(s), c)
    decreases |s|
  {
    if s != [] && IsSpace(s[0]) {
      assert forall i: nat :: DoubleAt(s[1..], i, c) ==> DoubleAt(s, i + 1, c);
      TrimNoDouble(s[1..], c);
      TrimFront(s[0], s[1..]);
      assert s == [s[0]] + s[1..];
    } else if s != [] && IsSpace(s[|s| - 1]) {
      var front := s[..|s| - 1];
      assert forall i: nat :: DoubleAt(front, i, c) ==> DoubleAt(s, i, c);
      TrimNoDouble(front, c);
      TrimBack(front, s[|s| - 1]);
      assert s == front + [s[|s| - 1]];
    } else {
      TrimTrimmed(s);
    }
  }

  // ---- joining with " && " ----

  function JoinAnd(parts: seq<string>): string {
    if parts == [] then ""
    else if |parts| == 1 then parts[0]
    else parts[0] + " && " + JoinAnd(parts[1..])
  }

  predicate Clean(s: string) {
    && s != [] && Trimmed(s)
    && (forall i: nat | i < |s| :: !DoubleAt(s, i, '&'))
    && (forall i: nat | i < |s| :: !DoubleAt(s, i, '|'))
  }

  /** Joined parts contain no "||" and have no space at either end. */
  lemma {:induction false} JoinClean(parts: seq<string>)
    requires parts != [] && forall i :: 0 <= i < |parts| ==> Clean(parts[i])
    ensures var s := JoinAnd(parts); s != [] && Trimmed(s) && NoDouble(s, '|')
    decreases |parts|
  {
    if |parts| > 1 {
      var p, rest := parts[0], JoinAnd(parts[1..]);
      JoinClean(parts[1..]);
      var s := JoinAnd(parts);
      forall i: nat
        ensures !DoubleAt(s, i, '|')
      {
        if i + 1 < |s| {
          if i < |p| {
            assert !DoubleAt(p, i, '|');
          } else if i >= |p| + 4 {
            assert !DoubleAt(rest, i - |p| - 4, '|');
            assert s[i] == rest[i - |p| - 4];
          }
        }
      }
      assert s[|s| - 1] == rest[|rest| - 1];
    }
  }

  lemma SplitJoint(p: string, rest: string)
    requires Clean(p)
    ensures TrimAll(Split(p + (" && " + rest), '&')) == [p] + TrimAll(Split(rest, '&'))
  {
    var s := p + (" && " + rest);
    FirstJoint(p, rest);
    assert s[..|p| + 1] == p + [' '];
    assert s[|p| + 3..] == [' '] + rest;
    assert Split(s, '&') == [p + [' ']] + Split([' '] + rest, '&');
    TrimTrimmed(p);
    TrimBack(p, ' ');
    SplitFront(' ', rest, '&');
  }

  /** Splitting joined parts gives them back. */
  lemma {:induction false} SplitJoin(parts: seq<string>)
    requires parts != [] && forall i :: 0 <= i < |parts| ==> Clean(parts[i])
    ensures TrimAll(Split(JoinAnd(parts), '&')) == parts
    decreases |parts|
  {
    var p := parts[0];
    if |parts| == 1 {
      TrimTrimmed(p);
      FindNone(p, '&');
      assert parts == [p];
    } else {
      SplitJoin(parts[1..]);
      SplitJoint(p, JoinAnd(parts[1..]));
      assert JoinAnd(parts) == p + (" && " + JoinAnd(parts[1..]));
      assert parts == [p] + parts[1..];
    }
  }

  lemma FirstJoint(p: string, rest: string)
    requires Clean(p)
    ensures FindDouble(p + (" && " + rest), '&') == Some(|p| + 1)
  {
    var s := p + (" && " + rest);
    forall i: nat | i < |p| + 1
      ensures !DoubleAt(s, i, '&')
    {
      if i < |p| {
        assert !DoubleAt(p, i, '&');
      }
    }
    FindIs(s, '&', |p| + 1);
  }

  // ---- joining with "|" ----

  function JoinBar(parts: seq<string>): string {
    if parts == [] then ""
    else if |parts| == 1 then parts[0]
    else parts[0] + (['|'] + JoinBar(parts[1..]))
  }

  predicate BarFree(s: string) {
    '|' !in s
  }

  lemma CutAtBar(a: string, x: string, b: string, y: string)
    requires BarFree(a) && BarFree(b) && a + (['|'] + x) == b + (['|'] + y)
    ensures a == b && x == y
  {
    var s := a + (['|'] + x);
    assert s[|a|] == '|' && s[|b|] == '|';
    assert forall i :: 0 <= i < |a| ==> s[i] == a[i];
    assert forall i :: 0 <= i < |b| ==> s[i] == b[i];
    assert a == s[..|a|] && b == s[..|b|];
    assert x == s[|a| + 1..] && y == s[|b| + 1..];
  }

  lemma {:induction false} JoinInjective(a: seq<string>, b: seq<string>)
    requires |a| == |b| && JoinBar(a) == JoinBar(b)
    requires forall i :: 0 <= i < |a| ==> BarFree(a[i]) && BarFree(b[i])
    ensures a == b
    decreases |a|
  {
    if |a| == 1 {
      assert a == [a[0]] && b == [b[0]];
    } else if |a| > 1 {
      CutAtBar(a[0], JoinBar(a[1..]), b[0], JoinBar(b[1..]));
      JoinInjective(a[1..], b[1..]);
      assert a == [a[0]] + a[1..] && b == [b[0]] + b[1..];
    }
  }
}
