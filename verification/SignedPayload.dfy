/**
 The canonical payload of a signed internal request.

 Header names are sorted by a collation order that is only assumed to be total; HMAC itself (RFC 2104,
 section 2) is idealised as an injective function where it is used.
 */
module SignedPayload {
  import opened Text
  import opened Sorting

  const PREFIX := "x-internal-"

  type Header = (string, string)

  predicate IsInternal(name: string) {
    PREFIX <= ToLower(name)
  }

  function Internal(headers: seq<Header>): seq<Header> {
    if |headers| == 0 then []
    else (if IsInternal(headers[0].0) then [headers[0]] else []) + Internal(headers[1..])
  }

  function ByName(leq: (string, string) -> bool): (Header, Header) -> bool {
    (a: Header, b: Header) => leq(a.0, b.0)
  }

  function Line(h: Header): string {
    h.0 + ":" + h.1
  }

  function Lines(headers: seq<Header>): seq<string> {
    seq(|headers|, i requires 0 <= i < |headers| => Line(headers[i]))
  }

  function Join(lines: seq<string>): string {
    if |lines| == 0 then ""
    else if |lines| == 1 then lines[0]
    else lines[0] + "\n" + Join(lines[1..])
  }

  /** `generateHMACSignature`'s payload. */
  function Payload(leq: (string, string) -> bool, headers: seq<Header>, timestamp: string, bodyHash: string,
                   path: string, verb: string): string {
    Join(Lines(Sort(ByName(leq), Internal(headers)))) + "\n" + timestamp + "\n" + bodyHash + "\n" + path + "\n" + verb
  }

  predicate OneLine(s: string) {
    '\n' !in s
  }

  predicate AllOneLine(lines: seq<string>) {
    forall i :: 0 <= i < |lines| ==> OneLine(lines[i])
  }

  predicate NameHasNoColon(h: Header) {
    ':' !in h.0
  }

  /** Field names hold no colon (section 5.1 of RFC 9110) and field values no line break (section 5.5). */
  predicate FieldsWellFormed(headers: seq<Header>) {
    forall i :: 0 <= i < |headers| ==> OneLine(headers[i].0) && OneLine(headers[i].1) && NameHasNoColon(headers[i])
  }

  /** Header names are distinct, and the collation orders them totally. */
  ghost predicate NamesOrdered(leq: (string, string) -> bool, headers: seq<Header>) {
    TotalOn(ByName(leq), multiset(Internal(headers)))
  }

  lemma SplitOnce(a: string, s: string, b: string, t: string, sep: char)
    requires sep !in a && sep !in b && a + [sep] + s == b + [sep] + t
    ensures a == b && s == t
  {
    var u := a + [sep] + s;
    assert u[|a|] == sep && u[|b|] == sep;
    assert forall i :: 0 <= i < |a| ==> u[i] == a[i] && a[i] in a;
    assert forall i :: 0 <= i < |b| ==> u[i] == b[i] && b[i] in b;
    assert |a| == |b|;
    assert a == u[..|a|] && b == u[..|b|];
    assert s == u[|a| + 1..] && t == u[|b| + 1..];
  }

  lemma {:induction false} JoinNeedsBreak(line: string, lines: seq<string>)
    requires |lines| >= 2 && Join(lines) == line
    ensures !OneLine(line)
  {
    assert line[|lines[0]|] == '\n';
  }

  /** Joined lines can be told apart again. */
  lemma {:induction false} JoinIsInjective(a: seq<string>, b: seq<string>)
    requires |a| >= 1 && |b| >= 1 && AllOneLine(a) && AllOneLine(b)
    requires Join(a) == Join(b)
    ensures a == b
    decreases |a|
  {
    if |a| == 1 && |b| > 1 {
      JoinNeedsBreak(a[0], b);
    } else if |b| == 1 && |a| > 1 {
      JoinNeedsBreak(b[0], a);
    } else if |a| > 1 {
      assert a[0] + ['\n'] + Join(a[1..]) == b[0] + ['\n'] + Join(b[1..]);
      SplitOnce(a[0], Join(a[1..]), b[0], Join(b[1..]), '\n');
      JoinIsInjective(a[1..], b[1..]);
      assert a == [a[0]] + a[1..] && b == [b[0]] + b[1..];
    }
  }

  lemma {:induction false} JoinAppends(a: seq<string>, b: seq<string>)
    requires |a| >= 1 && |b| >= 1
    ensures Join(a + b) == Join(a) + "\n" + Join(b)
  {
    if |a| > 1 {
      JoinAppends(a[1..], b);
      assert (a + b)[1..] == a[1..] + b;
    } else {
      assert (a + b)[1..] == b;
    }
  }

  /** The header part: no headers leave one empty line. */
  function HeaderLines(headers: seq<Header>): seq<string> {
    if |headers| == 0 then [""] else Lines(headers)
  }

  lemma JoinTwo(a: string, b: string)
    ensures Join([a, b]) == a + "\n" + b
  {
    assert [a, b][1..] == [b];
  }

  lemma Regroup(x: string, t: string, b: string, p: string, v: string)
    ensures x + "\n" + ((t + "\n" + b) + "\n" + (p + "\n" + v)) == x + "\n" + t + "\n" + b + "\n" + p + "\n" + v
  {
    var y := x + "\n" + t + "\n" + b + "\n";
    assert x + "\n" + ((t + "\n" + b) + "\n" + (p + "\n" + v)) == y + (p + "\n" + v);
    assert y + (p + "\n" + v) == y + p + "\n" + v;
  }

  lemma PayloadIsJoined(leq: (string, string) -> bool, headers: seq<Header>, timestamp: string, bodyHash: string,
                        path: string, verb: string)
    ensures Payload(leq, headers, timestamp, bodyHash, path, verb)
         == Join(HeaderLines(Sort(ByName(leq), Internal(headers))) + [timestamp, bodyHash, path, verb])
  {
    var top := HeaderLines(Sort(ByName(leq), Internal(headers)));
    var first, second := [timestamp, bodyHash], [path, verb];
    assert [timestamp, bodyHash, path, verb] == first + second;
    JoinAppends(top, first + second);
    JoinAppends(first, second);
    JoinTwo(timestamp, bodyHash);
    JoinTwo(path, verb);
    Regroup(Join(top), timestamp, bodyHash, path, verb);
  }

  lemma {:induction false} InternalKeepsFields(headers: seq<Header>)
    requires FieldsWellFormed(headers)
    ensures FieldsWellFormed(Internal(headers))
  {
    if |headers| > 0 { InternalKeepsFields(headers[1..]); }
  }

  lemma SortKeepsFields(leq: (string, string) -> bool, headers: seq<Header>)
    requires FieldsWellFormed(headers)
    ensures FieldsWellFormed(Sort(ByName(leq), headers))
  {
    SortIsPermutation(ByName(leq), headers);
    var s := Sort(ByName(leq), headers);
    forall i | 0 <= i < |s| ensures OneLine(s[i].0) && OneLine(s[i].1) && NameHasNoColon(s[i]) {
      assert s[i] in multiset(s);
      assert s[i] in headers;
    }
  }

  lemma HeaderLinesAreLines(headers: seq<Header>)
    requires FieldsWellFormed(headers)
    ensures AllOneLine(HeaderLines(headers))
  {}

  lemma LineIsNotEmpty(h: Header)
    ensures Line(h) != ""
  {
    assert Line(h)[|h.0|] == ':';
  }

  lemma LinesAreInjective(a: seq<Header>, b: seq<Header>)
    requires FieldsWellFormed(a) && FieldsWellFormed(b) && HeaderLines(a) == HeaderLines(b)
    ensures a == b
  {
    if |a| > 0 { LineIsNotEmpty(a[0]); }
    if |b| > 0 { LineIsNotEmpty(b[0]); }
    assert |a| == 0 ==> HeaderLines(a)[0] == "";
    assert |b| == 0 ==> HeaderLines(b)[0] == "";
    assert |a| > 0 ==> HeaderLines(a)[0] == Line(a[0]);
    assert |b| > 0 ==> HeaderLines(b)[0] == Line(b[0]);
    if |a| > 0 {
      assert |Lines(a)| == |Lines(b)|;
      forall i | 0 <= i < |a| ensures a[i] == b[i] {
        assert Lines(a)[i] == Lines(b)[i];
        assert a[i].0 + [':'] + a[i].1 == b[i].0 + [':'] + b[i].1;
        SplitOnce(a[i].0, a[i].1, b[i].0, b[i].1, ':');
      }
    }
  }

  /** Equal payloads come from the same internal headers, timestamp, body hash, path and method. */
  lemma PayloadIsInjective(leq: (string, string) -> bool,
                           h: seq<Header>, timestamp: string, bodyHash: string, path: string, verb: string,
                           h': seq<Header>, timestamp': string, bodyHash': string, path': string, verb': string)
    requires FieldsWellFormed(h) && FieldsWellFormed(h')
    requires AllOneLine([timestamp, bodyHash, path, verb]) && AllOneLine([timestamp', bodyHash', path', verb'])
    requires Payload(leq, h, timestamp, bodyHash, path, verb) == Payload(leq, h', timestamp', bodyHash', path', verb')
    ensures multiset(Internal(h)) == multiset(Internal(h'))
    ensures timestamp == timestamp' && bodyHash == bodyHash' && path == path' && verb == verb'
  {
    var a, b := Sort(ByName(leq), Internal(h)), Sort(ByName(leq), Internal(h'));
    InternalKeepsFields(h);
    InternalKeepsFields(h');
    SortKeepsFields(leq, Internal(h));
    SortKeepsFields(leq, Internal(h'));
    HeaderLinesAreLines(a);
    HeaderLinesAreLines(b);
    PayloadIsJoined(leq, h, timestamp, bodyHash, path, verb);
    PayloadIsJoined(leq, h', timestamp', bodyHash', path', verb');
    var tail, tail' := [timestamp, bodyHash, path, verb], [timestamp', bodyHash', path', verb'];
    var whole, whole' := HeaderLines(a) + tail, HeaderLines(b) + tail';
    forall i | 0 <= i < |whole| ensures OneLine(whole[i]) {}
    forall i | 0 <= i < |whole'| ensures OneLine(whole'[i]) {}
    JoinIsInjective(whole, whole');
    var n := |HeaderLines(a)|;
    assert n == |HeaderLines(b)|;
    assert HeaderLines(a) == whole[..n] == HeaderLines(b);
    assert tail == whole[n..] == tail';
    assert timestamp == tail[0] && bodyHash == tail[1] && path == tail[2] && verb == tail[3];
    assert timestamp' == tail'[0] && bodyHash' == tail'[1] && path' == tail'[2] && verb' == tail'[3];
    LinesAreInjective(a, b);
    SortIsPermutation(ByName(leq), Internal(h));
    SortIsPermutation(ByName(leq), Internal(h'));
  }

  lemma {:induction false} InternalCounts(headers: seq<Header>, x: Header)
    ensures multiset(Internal(headers))[x] == if IsInternal(x.0) then multiset(headers)[x] else 0
  {
    if |headers| > 0 {
      assert headers == [headers[0]] + headers[1..];
      InternalCounts(headers[1..], x);
    }
  }

  /** The order in which headers arrive does not matter, nor do headers outside the internal prefix. */
  lemma PayloadIgnoresHeaderOrder(leq: (string, string) -> bool, h: seq<Header>, h': seq<Header>,
                                  timestamp: string, bodyHash: string, path: string, verb: string)
    requires NamesOrdered(leq, h)
    requires forall x: Header :: IsInternal(x.0) ==> multiset(h)[x] == multiset(h')[x]
    ensures Payload(leq, h, timestamp, bodyHash, path, verb) == Payload(leq, h', timestamp, bodyHash, path, verb)
  {
    forall x: Header ensures multiset(Internal(h))[x] == multiset(Internal(h'))[x] {
      InternalCounts(h, x);
      InternalCounts(h', x);
    }
    assert multiset(Internal(h)) == multiset(Internal(h'));
    SortForgetsOrder(ByName(leq), Internal(h), Internal(h'));
  }

  lemma {:induction false} InternalDrops(before: seq<Header>, x: Header, after: seq<Header>)
    requires !IsInternal(x.0)
    ensures Internal(before + [x] + after) == Internal(before + after)
  {
    if |before| > 0 {
      InternalDrops(before[1..], x, after);
      assert (before + [x] + after)[1..] == before[1..] + [x] + after;
      assert (before + after)[1..] == before[1..] + after;
    } else {
      assert before + [x] + after == [x] + after && before + after == after;
    }
  }

  /** A header whose name does not begin with `x-internal-`, in whatever case, is not signed, wherever it stands. */
  lemma OtherHeadersAreNotSigned(leq: (string, string) -> bool, before: seq<Header>, x: Header, after: seq<Header>,
                                 timestamp: string, bodyHash: string, path: string, verb: string)
    requires !("x-internal-" <= ToLower(x.0))
    ensures Payload(leq, before + [x] + after, timestamp, bodyHash, path, verb)
         == Payload(leq, before + after, timestamp, bodyHash, path, verb)
  {
    InternalDrops(before, x, after);
  }

  /** The accumulating comparison answers plain equality. */
  method TimingSafeEqual(a: seq<bv8>, b: seq<bv8>) returns (equal: bool)
    ensures equal <==> a == b
  {
    if |a| != |b| { return false; }
    var diff: bv8 := 0;
    for i := 0 to |a|
      invariant diff == 0 <==> a[..i] == b[..i]
    {
      assert a[..i + 1] == a[..i] + [a[i]] && b[..i + 1] == b[..i] + [b[i]];
      diff := diff | (a[i] ^ b[i]);
    }
    assert a[..|a|] == a && b[..|b|] == b;
    return diff == 0;
  }
}
