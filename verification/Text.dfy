/** String operations the addresses, names and orderings need. */
module Text {

  predicate IsSpace(c: char) {
    || c in {' ', '\t', '\n', '\r', '\U{000B}', '\U{000C}', '\U{00A0}', '\U{1680}',
             '\U{2028}', '\U{2029}', '\U{202F}', '\U{205F}', '\U{3000}', '\U{FEFF}'}
    || '\U{2000}' <= c <= '\U{200A}'
  }

  /** White space by code point: tab to carriage return, the space, and the Unicode separators, line terminators
      and the byte order mark. */
  lemma SpaceCodePoints(c: char)
    ensures IsSpace(c) <==>
              || 9 <= c as int <= 13 || 0x2000 <= c as int <= 0x200A
              || c as int in {0x20, 0xA0, 0x1680, 0x2028, 0x2029, 0x202F, 0x205F, 0x3000, 0xFEFF}
  {}

  predicate IsDigit(c: char) {
    '0' <= c <= '9'
  }

  function LowerChar(c: char): char {
    if 'A' <= c <= 'Z' then (c as int + 32) as char else c
  }

  function ToLower(s: string): (r: string)
    ensures |r| == |s|
    ensures forall i :: 0 <= i < |s| ==> r[i] == LowerChar(s[i])
  {
    seq(|s|, i requires 0 <= i < |s| => LowerChar(s[i]))
  }

  function TrimStart(s: string): string {
    if |s| > 0 && IsSpace(s[0]) then TrimStart(s[1..]) else s
  }

  function TrimEnd(s: string): string {
    if |s| > 0 && IsSpace(s[|s| - 1]) then TrimEnd(s[..|s| - 1]) else s
  }

  function Trim(s: string): string {
    TrimEnd(TrimStart(s))
  }

  lemma ToLowerTwice(s: string)
    ensures ToLower(ToLower(s)) == ToLower(s)
  {}

  lemma TrimOfUnspaced(s: string)
    requires forall i :: 0 <= i < |s| ==> !IsSpace(s[i])
    ensures Trim(s) == s
  {}

  /** The same letter in its two cases. */
  predicate OtherCase(x: char, y: char) {
    || ('A' <= x <= 'Z' && y as int == x as int + 32)
    || ('A' <= y <= 'Z' && x as int == y as int + 32)
  }

  /** Lower-casing makes two strings equal exactly when they differ at most in the case of ASCII letters, and
      leaves no capital behind. */
  lemma SameUpToCase(a: string, b: string)
    ensures ToLower(a) == ToLower(b)
        <==> |a| == |b| && forall i :: 0 <= i < |a| ==> a[i] == b[i] || OtherCase(a[i], b[i])
    ensures forall i :: 0 <= i < |a| ==> !('A' <= ToLower(a)[i] <= 'Z')
  {
    if ToLower(a) == ToLower(b) {
      assert |a| == |b|;
      forall i | 0 <= i < |a| ensures a[i] == b[i] || OtherCase(a[i], b[i]) {
        assert ToLower(a)[i] == ToLower(b)[i];
      }
    }
  }

  predicate AllSpace(s: string) {
    forall i :: 0 <= i < |s| ==> IsSpace(s[i])
  }

  /** A word without white space at either end. */
  predicate IsTrimmed(s: string) {
    |s| > 0 ==> !IsSpace(s[0]) && !IsSpace(s[|s| - 1])
  }

  lemma {:induction false} TrimStartDrops(s: string) returns (lead: string)
    ensures s == lead + TrimStart(s) && AllSpace(lead)
    ensures |TrimStart(s)| > 0 ==> !IsSpace(TrimStart(s)[0])
  {
    lead := "";
    if |s| > 0 && IsSpace(s[0]) {
      var rest := TrimStartDrops(s[1..]);
      lead := [s[0]] + rest;
    }
  }

  lemma {:induction false} TrimEndDrops(s: string) returns (tail: string)
    ensures s == TrimEnd(s) + tail && AllSpace(tail)
    ensures |TrimEnd(s)| > 0 ==> !IsSpace(TrimEnd(s)[|TrimEnd(s)| - 1])
  {
    tail := "";
    if |s| > 0 && IsSpace(s[|s| - 1]) {
      var rest := TrimEndDrops(s[..|s| - 1]);
      tail := rest + [s[|s| - 1]];
    }
  }

  /** Trimming drops the white space around a string, all of it and nothing else. */
  lemma TrimDropsOuterSpace(s: string) returns (lead: string, tail: string)
    ensures s == lead + Trim(s) + tail
    ensures AllSpace(lead) && AllSpace(tail) && IsTrimmed(Trim(s))
  {
    lead := TrimStartDrops(s);
    tail := TrimEndDrops(TrimStart(s));
    if |Trim(s)| > 0 { assert Trim(s)[0] == TrimStart(s)[0]; }
  }

  /** Code-unit order, the order of JavaScript's `<` on strings. */
  predicate Leq(a: string, b: string) {
    |a| == 0 || (|b| > 0 && (a[0] < b[0] || (a[0] == b[0] && Leq(a[1..], b[1..]))))
  }

  predicate Less(a: string, b: string) {
    Leq(a, b) && a != b
  }

  /** The strings first differ at `i`, where `a` has the smaller code unit. */
  predicate SmallerAt(a: string, b: string, i: nat) {
    i < |a| && i < |b| && a[..i] == b[..i] && a[i] < b[i]
  }

  /** One string comes before another exactly when it is a prefix of it or smaller where they first differ. */
  lemma {:induction false} LeqIsCodeUnitOrder(a: string, b: string)
    ensures Leq(a, b) <==> a <= b || exists i :: SmallerAt(a, b, i)
  {
    if |a| > 0 && |b| > 0 {
      LeqIsCodeUnitOrder(a[1..], b[1..]);
      if a[0] == b[0] {
        assert a == [a[0]] + a[1..] && b == [b[0]] + b[1..];
        forall i: nat | SmallerAt(a[1..], b[1..], i) ensures SmallerAt(a, b, i + 1) {
          assert a[..i + 1] == [a[0]] + a[1..][..i] && b[..i + 1] == [b[0]] + b[1..][..i];
        }
        forall i: nat | SmallerAt(a, b, i) ensures i > 0 && SmallerAt(a[1..], b[1..], i - 1) {
          assert a[1..][..i - 1] == a[..i][1..] && b[1..][..i - 1] == b[..i][1..];
        }
      } else {
        assert a[..0] == b[..0];
        assert a[0] < b[0] ==> SmallerAt(a, b, 0);
        forall i: nat | SmallerAt(a, b, i) ensures i == 0 {}
      }
    }
  }

  lemma {:induction false} LeqTotal(a: string, b: string)
    ensures Leq(a, b) || Leq(b, a)
  {
    if |a| > 0 && |b| > 0 { LeqTotal(a[1..], b[1..]); }
  }

  lemma {:induction false} LeqAntisymmetric(a: string, b: string)
    requires Leq(a, b) && Leq(b, a)
    ensures a == b
  {
    if |a| > 0 && |b| > 0 {
      LeqAntisymmetric(a[1..], b[1..]);
      assert a == [a[0]] + a[1..] && b == [b[0]] + b[1..];
    }
  }

  lemma {:induction false} LeqTransitive(a: string, b: string, c: string)
    requires Leq(a, b) && Leq(b, c)
    ensures Leq(a, c)
  {
    if |a| > 0 && a[0] == b[0] && b[0] == c[0] { LeqTransitive(a[1..], b[1..], c[1..]); }
  }
}
