/**
 SQL `LIKE` with the escape character `\`, and the search patterns built for it.

 Characters are compared after `fold`: the identity for the standard's LIKE (section 8.5 of ISO/IEC
 9075-2), lower-casing of ASCII letters for SQLite's. Wildcards and the escape are never folded.
 */
module LikePattern {
  import opened Text

  const ESCAPE := '\\'

  predicate Matches(fold: char -> char, pattern: string, s: string)
    decreases |pattern|
  {
    if |pattern| == 0 then |s| == 0
    else if pattern[0] == ESCAPE then
      |pattern| >= 2 && |s| >= 1 && fold(pattern[1]) == fold(s[0]) && Matches(fold, pattern[2..], s[1..])
    else if pattern[0] == '%' then exists i :: 0 <= i <= |s| && Matches(fold, pattern[1..], s[i..])
    else if pattern[0] == '_' then |s| >= 1 && Matches(fold, pattern[1..], s[1..])
    else |s| >= 1 && fold(pattern[0]) == fold(s[0]) && Matches(fold, pattern[1..], s[1..])
  }

  predicate IsSpecial(c: char) {
    c == '%' || c == '_' || c == ESCAPE
  }

  function Escape(term: string): string {
    if |term| == 0 then ""
    else (if IsSpecial(term[0]) then [ESCAPE, term[0]] else [term[0]]) + Escape(term[1..])
  }

  function Contains(term: string): string {
    "%" + Escape(term) + "%"
  }

  predicate SameText(fold: char -> char, a: string, b: string) {
    |a| == |b| && forall i :: 0 <= i < |a| ==> fold(a[i]) == fold(b[i])
  }

  predicate OccursAt(fold: char -> char, term: string, s: string, i: nat) {
    i + |term| <= |s| && SameText(fold, term, s[i..i + |term|])
  }

  /** The term occurs literally in the text. */
  ghost predicate Occurs(fold: char -> char, term: string, s: string) {
    exists i: nat :: OccursAt(fold, term, s, i)
  }

  /** An escaped term consumes exactly its own text. */
  lemma {:induction false} EscapedMatchesItself(fold: char -> char, term: string, rest: string, s: string)
    ensures Matches(fold, Escape(term) + rest, s)
        <==> |s| >= |term| && SameText(fold, term, s[..|term|]) && Matches(fold, rest, s[|term|..])
  {
    if |term| == 0 {
      assert Escape(term) + rest == rest && s[0..] == s;
    } else {
      var p := Escape(term) + rest;
      var tail := Escape(term[1..]) + rest;
      if IsSpecial(term[0]) {
        assert p == [ESCAPE, term[0]] + tail && p[2..] == tail;
      } else {
        assert p == [term[0]] + tail && p[1..] == tail;
      }
      if |s| >= 1 {
        EscapedMatchesItself(fold, term[1..], rest, s[1..]);
        if |s| >= |term| {
          assert s[1..][..|term| - 1] == s[..|term|][1..] && s[1..][|term| - 1..] == s[|term|..];
          SameTextSplits(fold, term, s[..|term|]);
        }
      }
    }
  }

  lemma SameTextSplits(fold: char -> char, a: string, b: string)
    requires |a| == |b| >= 1
    ensures SameText(fold, a, b) <==> fold(a[0]) == fold(b[0]) && SameText(fold, a[1..], b[1..])
  {
    if fold(a[0]) == fold(b[0]) && SameText(fold, a[1..], b[1..]) {
      forall i | 0 <= i < |a| ensures fold(a[i]) == fold(b[i]) {
        if i > 0 { assert fold(a[1..][i - 1]) == fold(b[1..][i - 1]); }
      }
    }
  }

  lemma PercentMatchesAll(fold: char -> char, s: string)
    ensures Matches(fold, "%", s)
  {
    assert "%"[1..] == "" && s[|s|..] == "";
    assert Matches(fold, "%"[1..], s[|s|..]);
  }

  /** The search pattern of a term matches exactly the texts the term occurs in, whatever wildcards or
      escapes the term is made of. */
  lemma ContainsMatchesSubstrings(fold: char -> char, term: string, s: string)
    ensures Matches(fold, Contains(term), s) <==> Occurs(fold, term, s)
  {
    var inner := Escape(term) + "%";
    assert Contains(term) == "%" + inner && Contains(term)[1..] == inner;
    forall i: nat | i <= |s| ensures Matches(fold, inner, s[i..]) <==> OccursAt(fold, term, s, i) {
      EscapedMatchesItself(fold, term, "%", s[i..]);
      if |s| - i >= |term| {
        PercentMatchesAll(fold, s[i..][|term|..]);
        assert s[i..][..|term|] == s[i..i + |term|];
      }
    }
    if Occurs(fold, term, s) {
      var i: nat :| OccursAt(fold, term, s, i);
      assert Matches(fold, inner, s[i..]);
    }
  }

  predicate IsSubstringAt(term: string, s: string, i: nat) {
    i + |term| <= |s| && s[i..i + |term|] == term
  }

  /** On the standard's LIKE the occurrence is character by character. */
  lemma StandardLikeIsLiteral(term: string, s: string)
    ensures Matches(c => c, Contains(term), s) <==> exists i: nat :: IsSubstringAt(term, s, i)
  {
    var id: char -> char := c => c;
    ContainsMatchesSubstrings(id, term, s);
    forall i: nat ensures OccursAt(id, term, s, i) <==> IsSubstringAt(term, s, i) {}
  }

  /** A text that an unescaped term matches: wildcards and escapes taken as such. */
  function Loosely(term: string): string {
    if |term| == 0 then ""
    else if term[0] == ESCAPE then if |term| == 1 then "%" else [term[1]] + Loosely(term[2..])
    else if term[0] == '%' then Loosely(term[1..])
    else if term[0] == '_' then "x" + Loosely(term[1..])
    else [term[0]] + Loosely(term[1..])
  }

  lemma {:induction false} UnescapedMatchesLoosely(fold: char -> char, term: string)
    ensures Matches(fold, term + "%", Loosely(term))
  {
    var p, s := term + "%", Loosely(term);
    if |term| == 0 {
      PercentMatchesAll(fold, "");
    } else if term[0] == ESCAPE {
      if |term| == 1 {
        assert p[2..] == "" && s[1..] == "";
      } else {
        UnescapedMatchesLoosely(fold, term[2..]);
        assert p[2..] == term[2..] + "%" && s[1..] == Loosely(term[2..]);
      }
    } else {
      UnescapedMatchesLoosely(fold, term[1..]);
      assert p[1..] == term[1..] + "%";
      if term[0] == '%' {
        assert s[0..] == s && Matches(fold, p[1..], s[0..]);
      } else {
        assert s[1..] == Loosely(term[1..]);
      }
    }
  }

  lemma {:induction false} LooselyDiffers(term: string)
    ensures |Loosely(term)| <= |term|
    ensures (exists i :: 0 <= i < |term| && IsSpecial(term[i])) ==> Loosely(term) != term
  {
    if |term| > 0 {
      if term[0] == ESCAPE {
        if |term| > 1 { LooselyDiffers(term[2..]); }
      } else {
        LooselyDiffers(term[1..]);
        if !IsSpecial(term[0]) && Loosely(term) == term {
          assert Loosely(term)[1..] == term[1..];
          forall i | 0 <= i < |term| ensures !IsSpecial(term[i]) {
            if i > 0 { assert term[1..][i - 1] == term[i]; }
          }
        }
      }
    }
  }

  lemma {:induction false} NothingToEscape(term: string)
    requires forall i :: 0 <= i < |term| ==> !IsSpecial(term[i])
    ensures Escape(term) == term
  {
    if |term| > 0 { NothingToEscape(term[1..]); }
  }

  /** And the escaping is needed: left as it is, a term is searched for literally exactly when it has no wildcard
      and no escape character in it. */
  lemma EscapingIsNeeded(fold: char -> char, term: string)
    requires forall c :: fold(c) == c
    ensures (forall s :: Matches(fold, "%" + term + "%", s) <==> Occurs(fold, term, s))
        <==> (forall i :: 0 <= i < |term| ==> !IsSpecial(term[i]))
  {
    if forall i :: 0 <= i < |term| ==> !IsSpecial(term[i]) {
      NothingToEscape(term);
      forall s ensures Matches(fold, "%" + term + "%", s) <==> Occurs(fold, term, s) {
        ContainsMatchesSubstrings(fold, term, s);
      }
    } else {
      var s, p := Loosely(term), "%" + term + "%";
      UnescapedMatchesLoosely(fold, term);
      LooselyDiffers(term);
      assert p[1..] == term + "%" && s[0..] == s;
      assert Matches(fold, p[1..], s[0..]);
      assert Matches(fold, p, s) && !Occurs(fold, term, s);
    }
  }

  /** On SQLite's LIKE it is a substring up to the case of ASCII letters. */
  lemma SqliteLikeIgnoresAsciiCase(term: string, s: string)
    ensures Matches(LowerChar, Contains(term), s) <==> exists i: nat :: IsSubstringAt(ToLower(term), ToLower(s), i)
  {
    ContainsMatchesSubstrings(LowerChar, term, s);
    forall i: nat ensures OccursAt(LowerChar, term, s, i) <==> IsSubstringAt(ToLower(term), ToLower(s), i) {
      if i + |term| <= |s| {
        var t := ToLower(s)[i..i + |term|];
        assert forall j :: 0 <= j < |term| ==>
            t[j] == LowerChar(s[i..i + |term|][j]) && ToLower(term)[j] == LowerChar(term[j]);
      }
    }
  }
}
