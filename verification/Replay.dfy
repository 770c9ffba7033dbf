/**
 Internal requests: time window, signature, and the seen-set that makes a signature single-use.

 Times are in milliseconds. A request reads the clock once for the window check and reaches the seen-set
 some time later; `delay` bounds that gap. A record can be read up to and including its expiry, and
 reading it and writing it count as one step.
 */
module Replay {
  import opened Prelude
  import opened SignedPayload
  import opened Text

  const SIGNATURE_HEADER := "x-internal-signature"

  type Bytes = seq<bv8>

  /** The code seen from outside: the collation, base64 decoding, and HMAC under the shared secret. */
  datatype Signer = Signer(leq: (string, string) -> bool, decode: string -> Option<Bytes>, mac: string -> Bytes)

  datatype Request = Request(
    signature: Option<string>,
    timestamp: Option<string>,
    rawHeaders: seq<Header>,
    bodyHash: string,
    path: string,
    verb: string,
    checkedAt: int,
    claimedAt: int)

  datatype Verdict = Accepted | MissingHeaders | OutsideWindow | BadSignature | Replayed

  /** Exactly thirteen digits. */
  predicate TimestampShape(s: string) {
    |s| == 13 && forall i :: 0 <= i < 13 ==> IsDigit(s[i])
  }

  function Digits(s: string): nat
    requires forall i :: 0 <= i < |s| ==> IsDigit(s[i])
  {
    if |s| == 0 then 0 else assert IsDigit(s[|s| - 1]); 10 * Digits(s[..|s| - 1]) + (s[|s| - 1] as int - '0' as int)
  }

  function Abs(x: int): nat {
    if x < 0 then -x else x
  }

  predicate InWindow(r: Request, window: nat) {
    && r.timestamp.Some? && TimestampShape(r.timestamp.value)
    && Abs(r.checkedAt - Digits(r.timestamp.value)) <= window
  }

  /** The headers that are signed: the internal ones but the signature itself. */
  function SignedHeaders(raw: seq<Header>): seq<Header> {
    if |raw| == 0 then []
    else (if raw[0].0 != SIGNATURE_HEADER && PREFIX <= raw[0].0 then [raw[0]] else []) + SignedHeaders(raw[1..])
  }

  function TimestampText(r: Request): string {
    if r.timestamp.Some? then r.timestamp.value else ""
  }

  function PayloadOf(s: Signer, r: Request): string {
    Payload(s.leq, SignedHeaders(r.rawHeaders), TimestampText(r), r.bodyHash, r.path, r.verb)
  }

  predicate Verifies(s: Signer, r: Request) {
    r.signature.Some? && s.decode(r.signature.value) == Some(s.mac(PayloadOf(s, r)))
  }

  type Seen = map<string, int>

  /** How long a record is kept: at least 300 seconds, and at least twice the window. */
  function TtlMs(window: nat): nat {
    Max(300000, 2 * window)
  }

  predicate Recorded(seen: Seen, signature: string, at: int) {
    signature in seen && at <= seen[signature]
  }

  /** The key-value store behind the guard: whether it is bound, and whether this read and write go through. */
  datatype Kv = Kv(bound: bool, canRead: bool, canWrite: bool)

  const HEALTHY := Kv(true, true, true)

  /** `claim`: best effort. What the store cannot tell, or cannot record, lets the request through. */
  function Claimed(seen: Seen, ttl: nat, signature: string, at: int, kv: Kv): (bool, Seen) {
    if !kv.bound || !kv.canRead then (true, seen)
    else if Recorded(seen, signature, at) then (false, seen)
    else (true, if kv.canWrite then seen[signature := at + ttl] else seen)
  }

  predicate Verified(s: Signer, window: nat, r: Request) {
    Truthy(r.signature) && InWindow(r, window) && Verifies(s, r)
  }

  /** `validateInternalRequest`: the verdict and the seen-set after it. Without a guard nothing is claimed. */
  function Judged(s: Signer, window: nat, seen: Seen, r: Request, guard: Option<Kv>): (Verdict, Seen) {
    if !Truthy(r.signature) || !Truthy(r.timestamp) then (MissingHeaders, seen)
    else if !InWindow(r, window) then (OutsideWindow, seen)
    else if !Verifies(s, r) then (BadSignature, seen)
    else if guard.None? then (Accepted, seen)
    else
      var (first, after) := Claimed(seen, TtlMs(window), r.signature.value, r.claimedAt, guard.value);
      (if first then Accepted else Replayed, after)
  }

  /** The same over a healthy store. */
  function Judge(s: Signer, window: nat, seen: Seen, r: Request): (Verdict, Seen) {
    Judged(s, window, seen, r, Some(HEALTHY))
  }

  /** What a guard can and cannot change: a request is accepted exactly when it verifies in its window and
      the store, if it can be asked, does not remember the signature; nothing else reaches the seen-set. */
  lemma GuardOnlyRefusesReplays(s: Signer, window: nat, seen: Seen, r: Request, guard: Option<Kv>)
    ensures var (v, after) := Judged(s, window, seen, r, guard);
            && (v == Accepted <==>
                  && Verified(s, window, r)
                  && !(&& guard.Some? && guard.value.bound && guard.value.canRead
                       && Recorded(seen, r.signature.value, r.claimedAt)))
            && (after != seen ==> v == Accepted && guard == Some(HEALTHY))
            && (v == Accepted && guard == Some(HEALTHY) ==> Recorded(after, r.signature.value, r.claimedAt))
  {
    if r.timestamp.Some? && TimestampShape(r.timestamp.value) { assert r.timestamp.value != ""; }
  }

  /** Which refusal a request meets: what is missing, then its time, then its signature, then its having been
      seen. */
  lemma RefusalsInOrder(s: Signer, window: nat, seen: Seen, r: Request, guard: Option<Kv>)
    ensures var v := Judged(s, window, seen, r, guard).0;
            var missing := r.signature.None? || r.signature.value == "" || r.timestamp.None? || r.timestamp.value == "";
            var timely := r.timestamp.Some? && TimestampShape(r.timestamp.value)
              && r.checkedAt - Digits(r.timestamp.value) <= window && Digits(r.timestamp.value) - r.checkedAt <= window;
            && (v == MissingHeaders <==> missing)
            && (v == OutsideWindow <==> !missing && !timely)
            && (v == BadSignature <==> !missing && timely && !Verifies(s, r))
            && (v == Replayed <==>
                  && !missing && timely && Verifies(s, r)
                  && guard.Some? && guard.value.bound && guard.value.canRead
                  && r.signature.value in seen && r.claimedAt <= seen[r.signature.value])
  {}

  class ReplayGuard {
    var seen: Seen
    const ttl: nat

    constructor (ttl: nat)
      ensures seen == map[] && this.ttl == ttl
    {
      seen := map[];
      this.ttl := ttl;
    }

    /** A read, then a write; either may fail. */
    method Claim(signature: string, at: int, kv: Kv) returns (first: bool)
      modifies this
      ensures (first, seen) == Claimed(old(seen), ttl, signature, at, kv)
    {
      if !kv.bound { return true; }
      if !kv.canRead { return true; }
      if signature in seen && at <= seen[signature] { return false; }
      if kv.canWrite { seen := seen[signature := at + ttl]; }
      return true;
    }
  }

  /** The middleware: shape, window, signature, and only then the claim, so that nothing a forger sends
      can reach the seen-set. */
  method ValidateInternalRequest(s: Signer, window: nat, guard: ReplayGuard?, r: Request, kv: Kv) returns (v: Verdict)
    requires guard != null ==> guard.ttl == TtlMs(window)
    modifies if guard == null then {} else {guard}
    ensures guard == null ==> v == Judged(s, window, map[], r, None).0
    ensures guard != null ==> (v, guard.seen) == Judged(s, window, old(guard.seen), r, Some(kv))
  {
    if !Truthy(r.signature) || !Truthy(r.timestamp) { return MissingHeaders; }
    if !TimestampShape(r.timestamp.value) { return OutsideWindow; }
    var requestTime := Digits(r.timestamp.value);
    if Abs(r.checkedAt - requestTime) > window { return OutsideWindow; }
    var headers: seq<Header> := [];
    for i := 0 to |r.rawHeaders|
      invariant headers + SignedHeaders(r.rawHeaders[i..]) == SignedHeaders(r.rawHeaders)
    {
      var (key, value) := r.rawHeaders[i];
      assert r.rawHeaders[i..][1..] == r.rawHeaders[i + 1..];
      if key != SIGNATURE_HEADER && PREFIX <= key { headers := headers + [(key, value)]; }
    }
    assert headers == SignedHeaders(r.rawHeaders);
    var expected := s.mac(Payload(s.leq, headers, r.timestamp.value, r.bodyHash, r.path, r.verb));
    var presented := s.decode(r.signature.value);
    if presented.None? { return BadSignature; }
    var valid := TimingSafeEqual(presented.value, expected);
    if !valid { return BadSignature; }
    if guard != null {
      var first := guard.Claim(r.signature.value, r.claimedAt, kv);
      if !first { return Replayed; }
    }
    return Accepted;
  }

  function SeenAfter(s: Signer, window: nat, seen: Seen, run: seq<Request>): Seen {
    if |run| == 0 then seen else Judge(s, window, SeenAfter(s, window, seen, run[..|run| - 1]), run[|run| - 1]).1
  }

  predicate AcceptedAt(s: Signer, window: nat, run: seq<Request>, i: nat)
    requires i < |run|
  {
    Judge(s, window, SeenAfter(s, window, map[], run[..i]), run[i]).0.Accepted?
  }

  /** Requests reach the seen-set in order, each at most `delay` after its window check. */
  ghost predicate Timed(run: seq<Request>, delay: nat) {
    && (forall i :: 0 <= i < |run| ==> run[i].checkedAt <= run[i].claimedAt <= run[i].checkedAt + delay)
    && (forall i, j :: 0 <= i < j < |run| ==> run[i].claimedAt <= run[j].claimedAt)
  }

  /** Header fields and request lines carry no line breaks, field names no colon. */
  ghost predicate Transported(r: Request) {
    FieldsWellFormed(r.rawHeaders) && OneLine(r.bodyHash) && OneLine(r.path) && OneLine(r.verb)
  }

  /** HMAC, idealised. */
  ghost predicate Injective(mac: string -> Bytes) {
    forall a, b :: mac(a) == mac(b) ==> a == b
  }

  /** The window twice over, and the delay between check and claim, fit the five minutes for which a record is
      kept at least; without a delay any window does, because longer ones keep their records longer. */
  predicate InMargin(window: nat, delay: nat) {
    delay == 0 || 2 * window + delay <= 300000
  }

  lemma {:induction false} SignedHeadersWellFormed(raw: seq<Header>)
    requires FieldsWellFormed(raw)
    ensures FieldsWellFormed(SignedHeaders(raw))
  {
    if |raw| > 0 { SignedHeadersWellFormed(raw[1..]); }
  }

  /* ----- what a signature covers ----- */

  /** The fields a signature is meant to cover: everything internal but the signature itself. */
  predicate IsCovered(name: string) {
    "x-internal-" <= name && name != "x-internal-signature"
  }

  /** Both requests carry the same covered fields, each as often. */
  ghost predicate SameCovered(a: seq<Header>, b: seq<Header>) {
    forall h: Header :: IsCovered(h.0) ==> multiset(a)[h] == multiset(b)[h]
  }

  lemma PrefixIsLowerCase(name: string)
    requires PREFIX <= name
    ensures IsInternal(name)
  {
    assert forall i :: 0 <= i < |PREFIX| ==> ToLower(name)[i] == LowerChar(name[i]) && name[i] == PREFIX[i];
    assert ToLower(name)[..|PREFIX|] == PREFIX;
  }

  lemma {:induction false} SignedHeadersCount(raw: seq<Header>, h: Header)
    ensures multiset(SignedHeaders(raw))[h] == if IsCovered(h.0) then multiset(raw)[h] else 0
  {
    if |raw| > 0 {
      assert raw == [raw[0]] + raw[1..];
      SignedHeadersCount(raw[1..], h);
    }
  }

  /** What is signed of a request is what the payload keeps of its covered fields. */
  lemma CoveredIsSigned(a: seq<Header>, b: seq<Header>)
    ensures multiset(Internal(SignedHeaders(a))) == multiset(Internal(SignedHeaders(b))) <==> SameCovered(a, b)
  {
    forall h: Header
      ensures multiset(Internal(SignedHeaders(a)))[h] == if IsCovered(h.0) then multiset(a)[h] else 0
      ensures multiset(Internal(SignedHeaders(b)))[h] == if IsCovered(h.0) then multiset(b)[h] else 0
    {
      if IsCovered(h.0) { PrefixIsLowerCase(h.0); }
      InternalCounts(SignedHeaders(a), h);
      InternalCounts(SignedHeaders(b), h);
      SignedHeadersCount(a, h);
      SignedHeadersCount(b, h);
    }
    if SameCovered(a, b) {
      forall h: Header ensures multiset(Internal(SignedHeaders(a)))[h] == multiset(Internal(SignedHeaders(b)))[h] {}
    } else {
      var h: Header :| IsCovered(h.0) && multiset(a)[h] != multiset(b)[h];
      assert multiset(Internal(SignedHeaders(a)))[h] != multiset(Internal(SignedHeaders(b)))[h];
    }
  }

  /** A signature covers its request and nothing else does: of two requests whose signatures decode to the same
      bytes, the second verifies like the first exactly when it has the same timestamp, body hash, path and
      method, and the same internal fields, user included, in whatever order and among whatever others. */
  lemma SignatureCovers(s: Signer, a: Request, b: Request)
    requires Injective(s.mac) && Transported(a) && Transported(b)
    requires OneLine(TimestampText(a)) && OneLine(TimestampText(b))
    requires NamesOrdered(s.leq, SignedHeaders(a.rawHeaders))
    requires Verifies(s, a) && b.signature.Some? && s.decode(b.signature.value) == s.decode(a.signature.value)
    ensures Verifies(s, b) <==>
              && TimestampText(a) == TimestampText(b)
              && a.bodyHash == b.bodyHash && a.path == b.path && a.verb == b.verb
              && SameCovered(a.rawHeaders, b.rawHeaders)
  {
    VerifiesAlike(s, a, b);
    EqualPayloads(s, a, b);
  }

  lemma VerifiesAlike(s: Signer, a: Request, b: Request)
    requires Injective(s.mac) && Verifies(s, a)
    requires b.signature.Some? && s.decode(b.signature.value) == s.decode(a.signature.value)
    ensures Verifies(s, b) <==> PayloadOf(s, a) == PayloadOf(s, b)
  {
    assert s.mac(PayloadOf(s, a)) == s.mac(PayloadOf(s, b)) ==> PayloadOf(s, a) == PayloadOf(s, b);
  }

  lemma EqualPayloads(s: Signer, a: Request, b: Request)
    requires Transported(a) && Transported(b) && OneLine(TimestampText(a)) && OneLine(TimestampText(b))
    requires NamesOrdered(s.leq, SignedHeaders(a.rawHeaders))
    ensures PayloadOf(s, a) == PayloadOf(s, b) <==>
              && TimestampText(a) == TimestampText(b)
              && a.bodyHash == b.bodyHash && a.path == b.path && a.verb == b.verb
              && SameCovered(a.rawHeaders, b.rawHeaders)
  {
    if PayloadOf(s, a) == PayloadOf(s, b) {
      EqualPayloadsCoverAlike(s, a, b);
    } else if SameCovered(a.rawHeaders, b.rawHeaders) {
      CoveredIsSigned(a.rawHeaders, b.rawHeaders);
      SamePayload(s.leq, SignedHeaders(a.rawHeaders), SignedHeaders(b.rawHeaders), TimestampText(a), a.bodyHash,
                  a.path, a.verb);
    }
  }

  lemma EqualPayloadsCoverAlike(s: Signer, a: Request, b: Request)
    requires Transported(a) && Transported(b) && OneLine(TimestampText(a)) && OneLine(TimestampText(b))
    requires PayloadOf(s, a) == PayloadOf(s, b)
    ensures TimestampText(a) == TimestampText(b) && a.bodyHash == b.bodyHash && a.path == b.path && a.verb == b.verb
    ensures SameCovered(a.rawHeaders, b.rawHeaders)
  {
    SignedHeadersWellFormed(a.rawHeaders);
    SignedHeadersWellFormed(b.rawHeaders);
    PayloadIsInjective(s.leq, SignedHeaders(a.rawHeaders), TimestampText(a), a.bodyHash, a.path, a.verb,
                       SignedHeaders(b.rawHeaders), TimestampText(b), b.bodyHash, b.path, b.verb);
    CoveredIsSigned(a.rawHeaders, b.rawHeaders);
  }

  lemma SamePayload(leq: (string, string) -> bool, h: seq<Header>, h': seq<Header>, timestamp: string,
                    bodyHash: string, path: string, verb: string)
    requires NamesOrdered(leq, h) && multiset(Internal(h)) == multiset(Internal(h'))
    ensures Payload(leq, h, timestamp, bodyHash, path, verb) == Payload(leq, h', timestamp, bodyHash, path, verb)
  {
    forall x: Header | IsInternal(x.0) ensures multiset(h)[x] == multiset(h')[x] {
      InternalCounts(h, x);
      InternalCounts(h', x);
    }
    PayloadIgnoresHeaderOrder(leq, h, h', timestamp, bodyHash, path, verb);
  }

  /** A field that is not covered can be put anywhere among the others, whatever the collation. */
  lemma {:induction false} UncoveredFieldIsIgnored(before: seq<Header>, h: Header, after: seq<Header>)
    requires !IsCovered(h.0)
    ensures SignedHeaders(before + [h] + after) == SignedHeaders(before + after)
  {
    if |before| > 0 {
      UncoveredFieldIsIgnored(before[1..], h, after);
      assert (before + [h] + after)[1..] == before[1..] + [h] + after;
      assert (before + after)[1..] == before[1..] + after;
    } else {
      assert before + [h] + after == [h] + after && before + after == after;
    }
  }

  /* ----- the sender ----- */

  /** `generateHMACSignature`. */
  function Signature(s: Signer, encode: Bytes -> string, headers: seq<Header>, timestamp: string, bodyHash: string,
                     path: string, verb: string): string {
    encode(s.mac(Payload(s.leq, headers, timestamp, bodyHash, path, verb)))
  }

  /** `Date.now().toString()`. */
  function Decimal(n: nat): string {
    (if n < 10 then "" else Decimal(n / 10)) + [('0' as int + n % 10) as char]
  }

  lemma {:induction false} DecimalReads(n: nat)
    ensures (forall i :: 0 <= i < |Decimal(n)| ==> IsDigit(Decimal(n)[i])) && Digits(Decimal(n)) == n
  {
    if n >= 10 { DecimalReads(n / 10); }
    var front := if n < 10 then "" else Decimal(n / 10);
    var last := ('0' as int + n % 10) as char;
    assert Decimal(n) == front + [last] && IsDigit(last);
    assert Decimal(n)[..|Decimal(n)| - 1] == front;
  }

  function PowerOfTen(k: nat): nat {
    if k == 0 then 1 else 10 * PowerOfTen(k - 1)
  }

  lemma {:induction false} DecimalLength(n: nat, k: nat)
    requires k >= 1
    ensures |Decimal(n)| == k <==> (k == 1 || PowerOfTen(k - 1) <= n) && n < PowerOfTen(k)
    decreases n
  {
    if n >= 10 && k > 1 { DecimalLength(n / 10, k - 1); }
    if n < 10 { PowersGrow(k); }
    if n >= 10 && k == 1 { assert |Decimal(n / 10)| >= 1; }
  }

  lemma {:induction false} PowersGrow(k: nat)
    ensures k >= 1 ==> PowerOfTen(k) >= 10
  {
    if k > 1 { PowersGrow(k - 1); }
  }

  /** A millisecond clock has thirteen digits from September 2001 on and for some two centuries. */
  lemma StampShape(now: nat)
    ensures TimestampShape(Decimal(now)) <==> 1000000000000 <= now < 10000000000000
    ensures TimestampShape(Decimal(now)) ==> Digits(Decimal(now)) == now
  {
    DecimalReads(now);
    DecimalLength(now, 13);
    assert PowerOfTen(4) == 10000;
    assert PowerOfTen(8) == 100000000;
    assert PowerOfTen(12) == 1000000000000;
  }

  /** The receiver gets what was sent: its covered fields are the sender's internal ones, all of them covered,
      among whatever else the transport adds. */
  ghost predicate Arrives(headers: seq<Header>, raw: seq<Header>) {
    && (forall i :: 0 <= i < |headers| && "x-internal-" <= ToLower(headers[i].0) ==> IsCovered(headers[i].0))
    && SameCovered(headers, raw)
  }

  /** Round trip: a request that is signed and arrives as it was sent is accepted exactly while the two clocks
      differ by no more than the window, and outside of that it is refused for its time and nothing else. */
  lemma SignedRequestIsAccepted(s: Signer, encode: Bytes -> string, headers: seq<Header>, now: nat, window: nat,
                                r: Request)
    requires forall b :: encode(b) != "" && s.decode(encode(b)) == Some(b)
    requires NamesOrdered(s.leq, headers) && Arrives(headers, r.rawHeaders)
    requires 1000000000000 <= now < 10000000000000 && r.timestamp == Some(Decimal(now))
    requires r.signature == Some(Signature(s, encode, headers, Decimal(now), r.bodyHash, r.path, r.verb))
    ensures Judged(s, window, map[], r, None).0
         == if now - window <= r.checkedAt <= now + window then Accepted else OutsideWindow
  {
    StampShape(now);
    ArrivedIsSigned(headers, r.rawHeaders);
    SamePayload(s.leq, headers, SignedHeaders(r.rawHeaders), Decimal(now), r.bodyHash, r.path, r.verb);
  }

  lemma ArrivedIsSigned(headers: seq<Header>, raw: seq<Header>)
    requires Arrives(headers, raw)
    ensures multiset(Internal(headers)) == multiset(Internal(SignedHeaders(raw)))
  {
    forall h: Header ensures multiset(Internal(headers))[h] == multiset(Internal(SignedHeaders(raw)))[h] {
      if IsCovered(h.0) { PrefixIsLowerCase(h.0); }
      InternalCounts(headers, h);
      InternalCounts(SignedHeaders(raw), h);
      SignedHeadersCount(raw, h);
      if h in multiset(headers) {
        var i :| 0 <= i < |headers| && headers[i] == h;
      }
    }
  }

  /** Two verified requests with one signature carry one timestamp: the payload says so. */
  lemma SameSignatureSameTimestamp(s: Signer, a: Request, b: Request)
    requires Injective(s.mac) && Transported(a) && Transported(b)
    requires Verifies(s, a) && Verifies(s, b) && a.signature == b.signature
    requires a.timestamp.Some? && TimestampShape(a.timestamp.value)
    requires b.timestamp.Some? && TimestampShape(b.timestamp.value)
    ensures a.timestamp == b.timestamp
  {
    assert PayloadOf(s, a) == PayloadOf(s, b);
    SignedHeadersWellFormed(a.rawHeaders);
    SignedHeadersWellFormed(b.rawHeaders);
    assert OneLine(a.timestamp.value) && OneLine(b.timestamp.value);
    PayloadIsInjective(s.leq,
                       SignedHeaders(a.rawHeaders), a.timestamp.value, a.bodyHash, a.path, a.verb,
                       SignedHeaders(b.rawHeaders), b.timestamp.value, b.bodyHash, b.path, b.verb);
  }

  /** The signature is recorded until at least then. */
  predicate Remembers(seen: Seen, signature: string, until: int) {
    signature in seen && seen[signature] >= until
  }

  lemma JudgeRemembers(s: Signer, window: nat, seen: Seen, r: Request, signature: string, until: int)
    requires Remembers(seen, signature, until) && r.claimedAt + TtlMs(window) >= until
    ensures Remembers(Judge(s, window, seen, r).1, signature, until)
  {}

  lemma AcceptedIsRemembered(s: Signer, window: nat, seen: Seen, r: Request)
    requires Judge(s, window, seen, r).0.Accepted?
    ensures r.signature.Some?
    ensures Remembers(Judge(s, window, seen, r).1, r.signature.value, r.claimedAt + TtlMs(window))
  {}

  lemma SeenSnoc(s: Signer, window: nat, run: seq<Request>, j: nat)
    requires j < |run|
    ensures SeenAfter(s, window, map[], run[..j + 1])
            == Judge(s, window, SeenAfter(s, window, map[], run[..j]), run[j]).1
  {
    assert run[..j + 1][..j] == run[..j];
  }

  /** Once accepted, a signature stays recorded for the whole time to live. */
  lemma {:induction false} RecordLasts(s: Signer, window: nat, run: seq<Request>, i: nat, j: nat, delay: nat)
    requires i < j <= |run| && Timed(run, delay) && AcceptedAt(s, window, run, i)
    ensures run[i].signature.Some?
    ensures Remembers(SeenAfter(s, window, map[], run[..j]), run[i].signature.value, run[i].claimedAt + TtlMs(window))
    decreases j
  {
    SeenSnoc(s, window, run, j - 1);
    var before := SeenAfter(s, window, map[], run[..j - 1]);
    if i == j - 1 {
      AcceptedIsRemembered(s, window, before, run[i]);
    } else {
      RecordLasts(s, window, run, i, j - 1, delay);
      JudgeRemembers(s, window, before, run[j - 1], run[i].signature.value, run[i].claimedAt + TtlMs(window));
    }
  }

  /** Two acceptances of one signature would lie within `2 * window + delay` of each other. */
  lemma AcceptancesAreClose(s: Signer, window: nat, run: seq<Request>, i: nat, j: nat, delay: nat)
    requires i < j < |run| && Timed(run, delay) && Injective(s.mac)
    requires Transported(run[i]) && Transported(run[j])
    requires AcceptedAt(s, window, run, i) && AcceptedAt(s, window, run, j)
    requires run[i].signature == run[j].signature
    ensures run[j].claimedAt <= run[i].claimedAt + 2 * window + delay
  {
    SameSignatureSameTimestamp(s, run[i], run[j]);
  }

  /** Single use of a signature over whole runs: while the record outlives the window twice over, plus the
      delay between check and claim, one signature string is accepted at most once. */
  lemma SingleUse(s: Signer, window: nat, run: seq<Request>, i: nat, j: nat, delay: nat)
    requires i < j < |run| && Timed(run, delay) && Injective(s.mac)
    requires forall k :: 0 <= k < |run| ==> Transported(run[k])
    requires InMargin(window, delay)
    requires AcceptedAt(s, window, run, i) && AcceptedAt(s, window, run, j)
    ensures run[i].signature != run[j].signature
  {
    if run[i].signature == run[j].signature {
      RecordLasts(s, window, run, i, j, delay);
      AcceptancesAreClose(s, window, run, i, j, delay);
      assert false;
    }
  }

  /** For the signature string the margin is exact: with any longer delay a verified request, presented at
      both ends of its window, is accepted twice. */
  lemma SlowClaimsAcceptTwice(s: Signer, window: nat, r: Request, delay: nat) returns (run: seq<Request>)
    requires !InMargin(window, delay)
    requires Truthy(r.signature) && Verifies(s, r) && r.timestamp.Some? && TimestampShape(r.timestamp.value)
    ensures |run| == 2 && Timed(run, delay) && run[0].signature == run[1].signature == r.signature
    ensures Transported(r) ==> Transported(run[0]) && Transported(run[1])
    ensures AcceptedAt(s, window, run, 0) && AcceptedAt(s, window, run, 1)
  {
    var t := Digits(r.timestamp.value);
    var early := r.(checkedAt := t - window, claimedAt := t - window);
    var late := r.(checkedAt := t + window, claimedAt := t + window + delay);
    run := [early, late];
    assert PayloadOf(s, early) == PayloadOf(s, r) == PayloadOf(s, late);
    assert run[..0] == [] && run[..1] == [early];
    assert [early][..0] == [];
    assert Judge(s, window, map[], early) == (Accepted, map[r.signature.value := t - window + TtlMs(window)]);
    assert SeenAfter(s, window, map[], [early]) == map[r.signature.value := t - window + TtlMs(window)];
  }

  /* ----- from the signature string to the signed request ----- */

  /** The presented signatures, as far as they decode at all, are told apart by what they decode to. */
  ghost predicate SpelledOneWay(s: Signer, run: seq<Request>) {
    forall i, j :: 0 <= i < |run| && 0 <= j < |run| && run[i].signature.Some? && run[j].signature.Some?
      && s.decode(run[i].signature.value).Some?
      && s.decode(run[i].signature.value) == s.decode(run[j].signature.value)
      ==> run[i].signature == run[j].signature
  }

  lemma AcceptedVerifies(s: Signer, window: nat, run: seq<Request>, i: nat)
    requires i < |run| && AcceptedAt(s, window, run, i)
    ensures Truthy(run[i].signature) && Verifies(s, run[i])
  {}

  /** Single use of a signed request: within the margin, and among signatures that are spelled one way, no
      two requests with one payload are accepted. */
  lemma RequestSingleUse(s: Signer, window: nat, run: seq<Request>, i: nat, j: nat, delay: nat)
    requires i < j < |run| && Timed(run, delay) && Injective(s.mac) && SpelledOneWay(s, run)
    requires forall k :: 0 <= k < |run| ==> Transported(run[k])
    requires InMargin(window, delay)
    requires AcceptedAt(s, window, run, i) && AcceptedAt(s, window, run, j)
    ensures PayloadOf(s, run[i]) != PayloadOf(s, run[j])
  {
    AcceptedVerifies(s, window, run, i);
    AcceptedVerifies(s, window, run, j);
    SingleUse(s, window, run, i, j, delay);
  }

  /** Another string for the same signature bytes. */
  predicate Respells(s: Signer, r: Request, other: string)
    requires r.signature.Some?
  {
    other != "" && other != r.signature.value && s.decode(other) == s.decode(r.signature.value)
  }

  /** The guard remembers strings, verification compares bytes: a verified request sent again with another
      spelling of its signature is accepted again, with no delay at all. */
  lemma OtherSpellingIsAcceptedAgain(s: Signer, window: nat, r: Request, other: string) returns (run: seq<Request>)
    requires Truthy(r.signature) && Verifies(s, r) && r.timestamp.Some? && TimestampShape(r.timestamp.value)
    requires Respells(s, r, other)
    ensures |run| == 2 && Timed(run, 0) && PayloadOf(s, run[0]) == PayloadOf(s, run[1]) == PayloadOf(s, r)
    ensures Transported(r) ==> forall k :: 0 <= k < |run| ==> Transported(run[k])
    ensures AcceptedAt(s, window, run, 0) && AcceptedAt(s, window, run, 1)
  {
    var t := Digits(r.timestamp.value);
    var first := r.(checkedAt := t, claimedAt := t);
    var again := first.(signature := Some(other));
    run := [first, again];
    assert PayloadOf(s, first) == PayloadOf(s, r) == PayloadOf(s, again);
    assert run[..0] == [] && run[..1] == [first];
    assert [first][..0] == [];
    var seen := map[r.signature.value := t + TtlMs(window)];
    assert Judge(s, window, map[], first) == (Accepted, seen);
    assert SeenAfter(s, window, map[], [first]) == seen;
  }

  ghost predicate AcceptedTwice(s: Signer, window: nat, run: seq<Request>, i: nat, j: nat, r: Request, delay: nat) {
    && i < j < |run| && Timed(run, delay) && (forall k :: 0 <= k < |run| ==> Transported(run[k]))
    && AcceptedAt(s, window, run, i) && AcceptedAt(s, window, run, j)
    && PayloadOf(s, run[i]) == PayloadOf(s, run[j]) == PayloadOf(s, r)
  }

  /** Within the margin a verified request can be accepted twice exactly when its signature has another
      spelling. */
  lemma AcceptedTwiceExactlyIfRespelled(s: Signer, window: nat, r: Request, delay: nat)
    requires Injective(s.mac) && Transported(r) && InMargin(window, delay)
    requires Truthy(r.signature) && Verifies(s, r) && r.timestamp.Some? && TimestampShape(r.timestamp.value)
    ensures (exists run, i, j :: AcceptedTwice(s, window, run, i, j, r, delay))
            <==> (exists other :: Respells(s, r, other))
  {
    if run: seq<Request>, i: nat, j: nat :| AcceptedTwice(s, window, run, i, j, r, delay) {
      AcceptedVerifies(s, window, run, i);
      AcceptedVerifies(s, window, run, j);
      SingleUse(s, window, run, i, j, delay);
      var k := if run[i].signature == r.signature then j else i;
      assert Respells(s, r, run[k].signature.value);
    }
    if other :| Respells(s, r, other) {
      var run := OtherSpellingIsAcceptedAgain(s, window, r, other);
      assert AcceptedTwice(s, window, run, 0, 1, r, delay);
    }
  }

  /** Forgiving base64 drops ASCII white space before it decodes. */
  function Unspaced(text: string): string {
    if |text| == 0 then ""
    else (if text[0] in {' ', '\t', '\n', '\r', '\U{0C}'} then "" else [text[0]]) + Unspaced(text[1..])
  }

  /** So every signature has another spelling under a forgiving decoder, and within the margin every verified
      request can be accepted twice. */
  lemma ForgivingDecodingRespells(s: Signer, window: nat, r: Request, strict: string -> Option<Bytes>, delay: nat)
    requires forall text :: s.decode(text) == strict(Unspaced(text))
    requires Injective(s.mac) && Transported(r) && InMargin(window, delay)
    requires Truthy(r.signature) && Verifies(s, r) && r.timestamp.Some? && TimestampShape(r.timestamp.value)
    ensures exists run, i, j :: AcceptedTwice(s, window, run, i, j, r, delay)
  {
    var sig := r.signature.value;
    var other := sig[..1] + (" " + sig[1..]);
    assert other[1..] == " " + sig[1..] && (" " + sig[1..])[1..] == sig[1..];
    assert Unspaced(other) == Unspaced(sig);
    assert |other| != |sig|;
    assert Respells(s, r, other);
    AcceptedTwiceExactlyIfRespelled(s, window, r, delay);
  }
}
