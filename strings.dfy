/**
 * The JavaScript string built-ins the lesson planner relies on, over ASCII:
 * `\s` / `String.prototype.trim` whitespace, `toLowerCase`, `split` on one
 * character, `Array.prototype.join` and `.map(s => s.trim())`.
 */
module Strings {

  /** The whitespace class of `\s` and `trim`, restricted to ASCII. */
  predicate IsSpace(c: char) {
    c == ' ' || c == '\t' || c == '\n' || c == '\r' || c == '\U{000B}' || c == '\U{000C}'
  }

  predicate AllSpace(s: string) {
    forall i :: 0 <= i < |s| ==> IsSpace(s[i])
  }

  predicate NoSpace(s: string) {
    forall i :: 0 <= i < |s| ==> !IsSpace(s[i])
  }

  /** No whitespace at either end: what `trim` leaves behind. */
  predicate IsTrimmed(s: string) {
    s == [] || (!IsSpace(s[0]) && !IsSpace(s[|s| - 1]))
  }

  /** `trimStart`: drop the leading whitespace run. */
  function DropSpaces(s: string): (r: string)
    ensures |r| <= |s|
    ensures r == [] || !IsSpace(r[0])
  {
    if s != [] && IsSpace(s[0]) then DropSpaces(s[1..]) else s
  }

  /** `trimEnd`: drop the trailing whitespace run. */
  function TrimEnd(s: string): (r: string)
    ensures |r| <= |s|
    ensures r == [] || !IsSpace(r[|r| - 1])
  {
    if s != [] && IsSpace(s[|s| - 1]) then TrimEnd(s[..|s| - 1]) else s
  }

  /** `trim`. */
  function Trim(s: string): string {
    TrimEnd(DropSpaces(s))
  }

  function LowerChar(c: char): char {
    if 'A' <= c <= 'Z' then (c as int + 32) as char else c
  }

  /** `toLowerCase`, ASCII letters only. */
  function Lower(s: string): (r: string)
    ensures |r| == |s|
    ensures forall i :: 0 <= i < |s| ==> r[i] == LowerChar(s[i])
  {
    seq(|s|, i requires 0 <= i < |s| => LowerChar(s[i]))
  }

  predicate IsLowerCase(s: string) {
    forall i :: 0 <= i < |s| ==> !('A' <= s[i] <= 'Z')
  }

  /** `parts.join(sep)`: the empty array joins to the empty string. */
  function Join(parts: seq<string>, sep: string): string
    decreases |parts|
  {
    if |parts| == 0 then []
    else if |parts| == 1 then parts[0]
    else parts[0] + sep + Join(parts[1..], sep)
  }

  /** `s.split(sep)` for a one-character separator: always at least one part. */
  function Split(s: string, sep: char): (parts: seq<string>)
    ensures |parts| >= 1
    ensures forall i :: 0 <= i < |parts| ==> sep !in parts[i]
    decreases |s|
  {
    if s == [] then [[]]
    else
      var rest := Split(s[1..], sep);
      if s[0] == sep then [[]] + rest
      else [[s[0]] + rest[0]] + rest[1..]
  }

  /** `xs.map(s => s.trim())`. */
  function TrimAll(xs: seq<string>): (ys: seq<string>)
    ensures |ys| == |xs|
    ensures forall i :: 0 <= i < |xs| ==> ys[i] == Trim(xs[i])
  {
    seq(|xs|, i requires 0 <= i < |xs| => Trim(xs[i]))
  }

  // ---------------------------------------------------------------------
  // Facts about trim

  /** `trimStart` removes a leading run of whitespace and nothing else. */
  lemma {:induction false} DropSpacesIsSuffix(s: string)
    ensures DropSpaces(s) == s[|s| - |DropSpaces(s)|..]
    ensures AllSpace(s[..|s| - |DropSpaces(s)|])
    decreases |s|
  {
    if s != [] && IsSpace(s[0]) {
      DropSpacesIsSuffix(s[1..]);
      var k := |s| - |DropSpaces(s)|;
      assert s[1..][k - 1..] == s[k..];
      assert s[..k] == [s[0]] + s[1..][..k - 1];
    }
  }

  /** `trimEnd` removes a trailing run of whitespace and nothing else. */
  lemma {:induction false} TrimEndIsPrefix(s: string)
    ensures TrimEnd(s) == s[..|TrimEnd(s)|]
    ensures AllSpace(s[|TrimEnd(s)|..])
    decreases |s|
  {
    if s != [] && IsSpace(s[|s| - 1]) {
      var init := s[..|s| - 1];
      TrimEndIsPrefix(init);
      var k := |TrimEnd(s)|;
      assert init[..k] == s[..k];
      assert s[k..] == init[k..] + [s[|s| - 1]];
    }
  }

  lemma TrimIsTrimmed(s: string)
    ensures IsTrimmed(Trim(s))
  {
    var d := DropSpaces(s);
    var r := TrimEnd(d);
    TrimEndIsPrefix(d);
    if r != [] {
      assert r[0] == d[0];
    }
  }

  /** After `map(c => c.trim())` no element starts or ends with whitespace. */
  lemma TrimAllTrimmed(xs: seq<string>)
    ensures forall i :: 0 <= i < |xs| ==> IsTrimmed(TrimAll(xs)[i])
  {
    forall i | 0 <= i < |xs| ensures IsTrimmed(TrimAll(xs)[i]) {
      TrimIsTrimmed(xs[i]);
    }
  }

  /** The map works element by element: trimming a concatenation trims each part. */
  lemma TrimAllAppend(xs: seq<string>, ys: seq<string>)
    ensures TrimAll(xs + ys) == TrimAll(xs) + TrimAll(ys)
  {
    assert forall i :: 0 <= i < |xs + ys| ==> TrimAll(xs + ys)[i] == (TrimAll(xs) + TrimAll(ys))[i];
  }

  lemma TrimKeepsChars(s: string)
    ensures forall c :: c in Trim(s) ==> c in s
  {
    var d := DropSpaces(s);
    var r := TrimEnd(d);
    TrimEndIsPrefix(d);
    DropSpacesIsSuffix(s);
    assert forall c :: c in r ==> c in d;
    assert forall c :: c in d ==> c in s;
  }

  lemma TrimEmpty(s: string)
    ensures Trim(s) == [] <==> AllSpace(s)
  {
    var d := DropSpaces(s);
    var r := TrimEnd(d);
    if AllSpace(s) {
      AllSpaceDropsToEmpty(s);
    }
    TrimEndIsPrefix(d);
    DropSpacesIsSuffix(s);
    if r == [] {
      assert d == d[|r|..];
      assert s == s[..|s| - |d|] + d;
    }
  }

  lemma TrimOfTrimmed(s: string)
    requires IsTrimmed(s)
    ensures Trim(s) == s
  {
  }

  lemma {:induction false} DropSpacesAppend(x: string, y: string)
    ensures DropSpaces(x + y) == if AllSpace(x) then DropSpaces(y) else DropSpaces(x) + y
  {
    if x == [] {
      assert x + y == y;
    } else if IsSpace(x[0]) {
      assert (x + y)[1..] == x[1..] + y;
      DropSpacesAppend(x[1..], y);
      assert AllSpace(x) <==> AllSpace(x[1..]);
    } else {
      assert !AllSpace(x);
      assert (x + y)[0] == x[0];
    }
  }

  lemma {:induction false} TrimEndAppend(x: string, y: string)
    ensures TrimEnd(x + y) == if AllSpace(y) then TrimEnd(x) else x + TrimEnd(y)
  {
    if y == [] {
      assert x + y == x;
    } else {
      assert (x + y)[..|x + y| - 1] == x + y[..|y| - 1];
      if IsSpace(y[|y| - 1]) {
        TrimEndAppend(x, y[..|y| - 1]);
        if !AllSpace(y[..|y| - 1]) {
          assert !AllSpace(y);
        }
      } else {
        assert !AllSpace(y);
      }
    }
  }

  lemma {:induction false} AllSpaceDropsToEmpty(s: string)
    requires AllSpace(s)
    ensures DropSpaces(s) == []
  {
    if s != [] {
      AllSpaceDropsToEmpty(s[1..]);
    }
  }

  /** Surrounding whitespace never changes what `trim` returns. */
  lemma TrimPadded(w1: string, t: string, w2: string)
    requires AllSpace(w1) && AllSpace(w2)
    ensures Trim(w1 + t + w2) == Trim(t)
  {
    assert w1 + t + w2 == w1 + (t + w2);
    DropSpacesAppend(w1, t + w2);
    assert DropSpaces(w1 + t + w2) == DropSpaces(t + w2);
    TrimRightPadded(t, w2);
  }

  lemma TrimRightPadded(t: string, w2: string)
    requires AllSpace(w2)
    ensures TrimEnd(DropSpaces(t + w2)) == Trim(t)
  {
    DropSpacesAppend(t, w2);
    if AllSpace(t) {
      AllSpaceIsTrimmedAway(t, w2);
    } else {
      assert DropSpaces(t + w2) == DropSpaces(t) + w2;
      TrimEndAppend(DropSpaces(t), w2);
    }
  }

  lemma AllSpaceIsTrimmedAway(t: string, w2: string)
    requires AllSpace(t) && AllSpace(w2)
    ensures TrimEnd(DropSpaces(w2)) == Trim(t)
  {
    AllSpaceDropsToEmpty(w2);
    AllSpaceDropsToEmpty(t);
  }

  // ---------------------------------------------------------------------
  // Facts about toLowerCase

  lemma LowerOfLowerCase(s: string)
    requires IsLowerCase(s)
    ensures Lower(s) == s
  {
  }

  lemma LowerIsLowerCase(s: string)
    ensures IsLowerCase(Lower(s))
  {
  }

  lemma LowerAppend(x: string, y: string)
    ensures Lower(x + y) == Lower(x) + Lower(y)
  {
  }

  lemma LowerKeepsSpaces(s: string)
    requires AllSpace(s)
    ensures AllSpace(Lower(s))
  {
  }

  // ---------------------------------------------------------------------
  // Facts about split and join

  /** Splitting a separator-free prefix glues it onto the first part. */
  lemma {:induction false} SplitPrefix(p: string, x: string, sep: char)
    requires sep !in p
    ensures Split(p + x, sep) == [p + Split(x, sep)[0]] + Split(x, sep)[1..]
    decreases |p|
  {
    if p == [] {
      assert p + x == x;
      assert p + Split(x, sep)[0] == Split(x, sep)[0];
      assert [p + Split(x, sep)[0]] + Split(x, sep)[1..] == Split(x, sep);
    } else {
      assert (p + x)[1..] == p[1..] + x;
      SplitPrefix(p[1..], x, sep);
      assert [p[0]] + (p[1..] + Split(x, sep)[0]) == p + Split(x, sep)[0];
    }
  }

  /**
   * `split` undoes `join` when no part contains the separator: the parts
   * come back one for one.
   */
  lemma {:induction false} SplitJoin(parts: seq<string>, sep: char)
    requires |parts| >= 1
    requires forall i :: 0 <= i < |parts| ==> sep !in parts[i]
    ensures Split(Join(parts, [sep]), sep) == parts
    decreases |parts|
  {
    if |parts| == 1 {
      SplitPrefix(parts[0], [], sep);
      assert parts[0] + [] == parts[0];
    } else {
      var rest := Join(parts[1..], [sep]);
      assert Join(parts, [sep]) == parts[0] + ([sep] + rest);
      SplitPrefix(parts[0], [sep] + rest, sep);
      assert ([sep] + rest)[1..] == rest;
      SplitJoin(parts[1..], sep);
      assert Split([sep] + rest, sep) == [[]] + parts[1..];
      assert parts[0] + [] == parts[0];
      assert [parts[0]] + parts[1..] == parts;
    }
  }

  /** `join` undoes `split`: the parts, glued back with the separator, give the string. */
  lemma {:induction false} JoinSplit(s: string, sep: char)
    ensures Join(Split(s, sep), [sep]) == s
    decreases |s|
  {
    if s != [] {
      var rest := Split(s[1..], sep);
      JoinSplit(s[1..], sep);
      if s[0] == sep {
        assert ([[]] + rest)[1..] == rest;
      } else {
        var parts := [[s[0]] + rest[0]] + rest[1..];
        assert parts[1..] == rest[1..];
        assert s == [s[0]] + s[1..];
      }
    }
  }

  lemma JoinFour(a: string, b: string, c: string, d: string, sep: char)
    ensures Join([a, b, c, d], [sep]) == a + [sep] + b + [sep] + c + [sep] + d
  {
    JoinCons(a, [b, c, d], sep);
    JoinCons(b, [c, d], sep);
    JoinCons(c, [d], sep);
  }

  /** Joining a part in front of at least one more part puts one separator between. */
  lemma JoinCons(x: string, rest: seq<string>, sep: char)
    requires |rest| >= 1
    ensures Join([x] + rest, [sep]) == x + [sep] + Join(rest, [sep])
  {
    assert ([x] + rest)[1..] == rest;
  }

  /** Two separator-free parts around one separator split back into those parts. */
  lemma SplitTwo(a: string, b: string, sep: char)
    requires sep !in a && sep !in b
    ensures Split(a + [sep] + b, sep) == [a, b]
  {
    assert a + [sep] + b == a + ([sep] + b);
    SplitPrefix(a, [sep] + b, sep);
    assert ([sep] + b)[1..] == b;
    SplitPrefix(b, [], sep);
    assert b + [] == b;
    assert Split([sep] + b, sep) == [[], b];
    assert a + [] == a;
  }

  /** A trimmed string followed by whitespace trims back to itself. */
  lemma TrimTrailingSpace(t: string, pad: string)
    requires IsTrimmed(t) && AllSpace(pad)
    ensures Trim(t + pad) == t
  {
    assert [] + t + pad == t + pad;
    TrimPadded([], t, pad);
    TrimOfTrimmed(t);
  }
}
