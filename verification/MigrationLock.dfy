/**
 The migration lock: parsing, checking against the files on disk, and the lock a `--write` leaves.

 A lock's entries keep the order of the JSON object they came from. Names are sorted by a collation that
 is only assumed total on the names at hand; `<` on names is code-unit order, as in JavaScript.
 */
module MigrationLock {
  import opened Prelude
  import opened Text
  import opened Sorting
  import opened Sequences

  const LOCK_VERSION := 1.0
  const DIGEST_PREFIX := "sha256:"

  datatype File = File(name: string, digest: string)

  type Entry = (string, string)

  datatype Lock = Lock(baseline: Option<string>, migrations: seq<Entry>)

  datatype Kind = Absent | Malformed | Baseline | Edited | Unlocked | Orphan | Name | DuplicatePrefix | OutOfOrder

  datatype Finding = Finding(kind: Kind, subject: string)

  datatype CheckResult = CheckResult(findings: seq<Finding>, missing: seq<File>, updated: Option<Lock>)

  /* ----- names ----- */

  predicate IsWordChar(c: char) {
    IsDigit(c) || 'a' <= c <= 'z'
  }

  /** Words of lower-case letters and digits joined by single underscores. */
  predicate IsSnake(s: string) {
    && |s| > 0 && s[0] != '_' && s[|s| - 1] != '_'
    && (forall i :: 0 <= i < |s| ==> IsWordChar(s[i]) || s[i] == '_')
    && (forall i :: 0 <= i < |s| - 1 ==> s[i] != '_' || s[i + 1] != '_')
  }

  predicate HasNumber(name: string) {
    |name| >= 5 && (forall i :: 0 <= i < 4 ==> IsDigit(name[i])) && name[4] == '_'
  }

  /** `NNNN_snake_case.sql`. */
  predicate IsMigrationName(name: string) {
    HasNumber(name) && |name| > 9 && name[|name| - 4..] == ".sql" && IsSnake(name[5..|name| - 4])
  }

  /** `NNNN_squash.sql`. */
  predicate IsSquashName(name: string) {
    HasNumber(name) && name[5..] == "squash.sql"
  }

  /** One word: at least one character, all of them lower-case letters or digits. */
  predicate IsWord(w: string) {
    |w| >= 1 && forall i :: 0 <= i < |w| ==> '0' <= w[i] <= '9' || 'a' <= w[i] <= 'z'
  }

  predicate AllWords(words: seq<string>) {
    |words| >= 1 && forall i :: 0 <= i < |words| ==> IsWord(words[i])
  }

  function Underscored(words: seq<string>): string
    requires |words| >= 1
  {
    if |words| == 1 then words[0] else words[0] + "_" + Underscored(words[1..])
  }

  lemma {:induction false} SnakeIsWords(s: string) returns (words: seq<string>)
    requires IsSnake(s)
    ensures AllWords(words) && s == Underscored(words)
    decreases |s|
  {
    if '_' !in s {
      words := [s];
    } else {
      var i := FirstUnderscore(s);
      var more := SnakeIsWords(s[i + 1..]);
      assert IsWord(s[..i]);
      words := [s[..i]] + more;
      assert words[1..] == more;
      assert s == s[..i] + "_" + s[i + 1..];
    }
  }

  lemma FirstUnderscore(s: string) returns (i: nat)
    requires IsSnake(s) && '_' in s
    ensures 1 <= i < |s| - 1 && s[i] == '_' && forall j :: 0 <= j < i ==> s[j] != '_'
    ensures IsSnake(s[i + 1..])
  {
    var k :| 0 <= k < |s| && s[k] == '_';
    i := 0;
    while s[i] != '_'
      invariant i <= k && forall j :: 0 <= j < i ==> s[j] != '_'
      decreases k - i
    {
      i := i + 1;
    }
    assert s[i] != '_' || s[i + 1] != '_';
  }

  lemma {:induction false} WordsAreSnake(words: seq<string>)
    requires AllWords(words)
    ensures IsSnake(Underscored(words))
  {
    assert IsWord(words[0]);
    if |words| > 1 {
      WordsAreSnake(words[1..]);
      SnakesJoin(words[0], Underscored(words[1..]));
    }
  }

  lemma SnakesJoin(head: string, rest: string)
    requires IsWord(head) && IsSnake(rest)
    ensures IsSnake(head + "_" + rest)
  {
    var s := head + "_" + rest;
    forall i | 0 <= i < |s| - 1 ensures s[i] != '_' || s[i + 1] != '_' {
      if i >= |head| { assert s[i + 1] == rest[i - |head|]; }
      if i > |head| { assert s[i] == rest[i - |head| - 1]; }
    }
  }

  /** Four digits, an underscore, words joined by underscores, and the extension. */
  ghost predicate IsComposedName(name: string, number: string, words: seq<string>) {
    && |number| == 4 && (forall i :: 0 <= i < 4 ==> '0' <= number[i] <= '9')
    && AllWords(words) && name == number + "_" + Underscored(words) + ".sql"
  }

  /** A migration is named by a number and its words, and every such string names one; a squash is one whose
      only word is just that. */
  lemma MigrationNameIsComposed(name: string)
    ensures IsMigrationName(name) <==> exists number, words :: IsComposedName(name, number, words)
    ensures IsSquashName(name) <==> exists number :: IsComposedName(name, number, ["squash"])
  {
    if IsMigrationName(name) {
      var words := SnakeIsWords(name[5..|name| - 4]);
      ComposedFromParts(name, words);
    }
    if IsSquashName(name) {
      SquashIsMigration(name);
      assert name[5..|name| - 4] == name[5..][..6] == "squash";
      WordsOfSquash();
      ComposedFromParts(name, ["squash"]);
    }
    forall number, words | IsComposedName(name, number, words)
      ensures IsMigrationName(name) && (words == ["squash"] ==> IsSquashName(name))
    {
      ComposedIsMigration(name, number, words);
    }
  }

  lemma WordsOfSquash()
    ensures AllWords(["squash"]) && Underscored(["squash"]) == "squash"
  {}

  lemma ComposedFromParts(name: string, words: seq<string>)
    requires IsMigrationName(name) && AllWords(words) && name[5..|name| - 4] == Underscored(words)
    ensures IsComposedName(name, name[..4], words)
  {
    assert name == name[..4] + [name[4]] + name[5..|name| - 4] + name[|name| - 4..];
  }

  lemma ComposedIsMigration(name: string, number: string, words: seq<string>)
    requires IsComposedName(name, number, words)
    ensures IsMigrationName(name) && (words == ["squash"] ==> IsSquashName(name))
  {
    WordsAreSnake(words);
    var middle := Underscored(words);
    assert name[..4] == number;
    assert name[5..|name| - 4] == middle && name[|name| - 4..] == ".sql" && name[4] == '_';
    assert name[5..] == middle + ".sql";
  }

  lemma SquashIsMigration(name: string)
    requires IsSquashName(name)
    ensures IsMigrationName(name)
  {
    assert |name| == 15;
    assert name[11..] == name[5..][6..] == ".sql";
    assert name[5..11] == name[5..][..6] == "squash";
  }

  /** The highest-numbered squash. */
  function BaselineOf(names: seq<string>): (b: Option<string>)
    ensures b.Some? ==> b.value in names && IsSquashName(b.value)
    ensures forall n :: n in names && IsSquashName(n) ==> b.Some? && Leq(n, b.value)
  {
    if |names| == 0 then None
    else
      var n := names[|names| - 1];
      var before := BaselineOf(names[..|names| - 1]);
      assert names == names[..|names| - 1] + [n];
      HigherOf(before, n, names[..|names| - 1]);
      if IsSquashName(n) && (before.None? || Less(before.value, n)) then Some(n) else before
  }

  lemma HigherOf(before: Option<string>, n: string, names: seq<string>)
    requires forall m :: m in names && IsSquashName(m) ==> before.Some? && Leq(m, before.value)
    ensures before.Some? && Leq(before.value, n) ==> forall m :: m in names && IsSquashName(m) ==> Leq(m, n)
    ensures before.Some? && !Less(before.value, n) ==> Leq(n, before.value)
    ensures Leq(n, n)
  {
    LeqTotal(n, n);
    if before.Some? {
      LeqTotal(before.value, n);
      if Leq(before.value, n) {
        forall m | m in names && IsSquashName(m) ensures Leq(m, n) { LeqTransitive(m, before.value, n); }
      }
    }
  }

  /** At or before the baseline: what a squash rewrites or absorbs. */
  predicate IsSubsumed(name: string, baseline: Option<string>) {
    baseline.Some? && Leq(name, baseline.value)
  }

  /* ----- parsing ----- */

  datatype Json =
    | JNull
    | JBool(b: bool)
    | JNumber(n: real)
    | JString(s: string)
    | JArray(items: seq<Json>)
    | JObject(fields: seq<(string, Json)>)

  /** The lock file: not there, not JSON, or a JSON value. */
  datatype Raw = NoFile | NotJson | Text(json: Json)

  function Field(fields: seq<(string, Json)>, name: string): Option<Json> {
    if |fields| == 0 then None
    else if fields[0].0 == name then Some(fields[0].1)
    else Field(fields[1..], name)
  }

  predicate IsDigest(j: Json) {
    j.JString? && DIGEST_PREFIX <= j.s
  }

  function Tagged(kind: Kind, subjects: seq<string>): seq<Finding> {
    Map(subjects, s => Finding(kind, s))
  }

  function FieldName(f: (string, Json)): string {
    f.0
  }

  predicate BadDigest(f: (string, Json)) {
    !IsDigest(f.1)
  }

  function BadDigests(fields: seq<(string, Json)>): seq<Finding> {
    Tagged(Malformed, Map(Filter(fields, BadDigest), FieldName))
  }

  function DigestEntry(f: (string, Json)): Entry {
    (f.0, if f.1.JString? then f.1.s else "")
  }

  function VersionFindings(fields: seq<(string, Json)>): seq<Finding> {
    if Field(fields, "version") == Some(JNumber(LOCK_VERSION)) then [] else [Finding(Malformed, "version")]
  }

  function BaselineFindings(fields: seq<(string, Json)>): seq<Finding> {
    match Field(fields, "baseline")
    case None => []
    case Some(j) => if j.JString? && IsMigrationName(j.s) then [] else [Finding(Malformed, "baseline")]
  }

  function ParseLock(raw: Raw): (r: (Option<Lock>, seq<Finding>))
    ensures r.0.Some? ==> r.1 == []
    ensures raw.NoFile? ==> r == (None, [Finding(Absent, "")])
    ensures !raw.NoFile? ==> (r.0.None? <==> |r.1| > 0) && forall f :: f in r.1 ==> f.kind == Malformed
  {
    match raw
    case NoFile => (None, [Finding(Absent, "")])
    case NotJson => (None, [Finding(Malformed, "")])
    case Text(json) =>
      if !json.JObject? then (None, [Finding(Malformed, "")])
      else
        var head := VersionFindings(json.fields) + BaselineFindings(json.fields);
        match Field(json.fields, "migrations")
        case Some(JObject(entries)) =>
          var findings := head + BadDigests(entries);
          if |findings| > 0 then (None, findings)
          else (Some(Lock(BaselineField(json.fields), Map(entries, DigestEntry))), [])
        case _ => (None, head + [Finding(Malformed, "migrations")])
  }

  function BaselineField(fields: seq<(string, Json)>): Option<string> {
    match Field(fields, "baseline")
    case Some(JString(s)) => Some(s)
    case _ => None
  }

  function Fields(entries: seq<Entry>): seq<(string, Json)> {
    seq(|entries|, i requires 0 <= i < |entries| => (entries[i].0, JString(entries[i].1)))
  }

  /** `JSON.stringify` of a lock. */
  function Serialized(lock: Lock): Json {
    JObject([("version", JNumber(LOCK_VERSION))]
            + (if lock.baseline.Some? then [("baseline", JString(lock.baseline.value))] else [])
            + [("migrations", JObject(Fields(lock.migrations)))])
  }

  predicate IsWritable(lock: Lock) {
    && (lock.baseline.Some? ==> IsMigrationName(lock.baseline.value))
    && forall i :: 0 <= i < |lock.migrations| ==> DIGEST_PREFIX <= lock.migrations[i].1
  }

  /** Writing a lock and reading it back gives the lock. */
  lemma WrittenLockParses(lock: Lock)
    requires IsWritable(lock)
    ensures ParseLock(Text(Serialized(lock))) == (Some(lock), [])
  {
    var fields := Serialized(lock).fields;
    var entries := Fields(lock.migrations);
    var last := [("migrations", JObject(entries))];
    assert last[1..] == [];
    if lock.baseline.Some? {
      var more := [("baseline", JString(lock.baseline.value))] + last;
      assert more[1..] == last && fields[1..] == more;
      assert Field(more, "migrations") == Field(last, "migrations");
      assert Field(fields, "migrations") == Field(more, "migrations");
      assert Field(fields, "baseline") == Field(more, "baseline");
    } else {
      assert fields[1..] == last;
      assert Field(fields, "migrations") == Field(last, "migrations");
      assert Field(fields, "baseline") == Field(last, "baseline") == Field(last[1..], "baseline") == None;
    }
    EntriesParse(lock);
  }

  lemma EntriesParse(lock: Lock)
    requires IsWritable(lock)
    ensures BadDigests(Fields(lock.migrations)) == [] && Map(Fields(lock.migrations), DigestEntry) == lock.migrations
  {
    var entries := Fields(lock.migrations);
    forall f | f in entries ensures IsDigest(f.1) {
      var i :| 0 <= i < |entries| && entries[i] == f;
    }
    FilterNone(entries, BadDigest);
    forall i | 0 <= i < |entries| ensures DigestEntry(entries[i]) == lock.migrations[i] {}
  }

  /* ----- checking ----- */

  function Names(files: seq<File>): seq<string> {
    Map(files, NameOf)
  }

  function EntryName(e: Entry): string {
    e.0
  }

  function Keys(entries: seq<Entry>): seq<string> {
    Map(entries, EntryName)
  }

  function Recorded(entries: seq<Entry>, name: string): (d: Option<string>)
    ensures d.Some? <==> name in Keys(entries)
  {
    if |entries| == 0 then None
    else if entries[0].0 == name then assert Keys(entries)[0] == name; Some(entries[0].1)
    else assert Keys(entries) == [entries[0].0] + Keys(entries[1..]); Recorded(entries[1..], name)
  }

  predicate IsBadName(name: string) {
    !IsMigrationName(name)
  }

  function BadNames(names: seq<string>): seq<Finding> {
    Tagged(Name, Filter(names, IsBadName))
  }

  /** The prefixes of the well-named among `names`. */
  function Prefixes(names: seq<string>): seq<string> {
    Map(Filter(names, IsMigrationName), PrefixOf)
  }

  function PrefixOf(name: string): string {
    if |name| >= 4 then name[..4] else name
  }

  /** Prefixes used by more than one distinct name, in order of first use. */
  function DuplicatePrefixes(names: seq<string>): seq<Finding> {
    var prefixes := Prefixes(Distinct(names));
    Tagged(DuplicatePrefix, Filter(Distinct(prefixes), (p: string) => multiset(prefixes)[p] > 1))
  }

  predicate IsEdited(f: File, entries: seq<Entry>, baseline: Option<string>) {
    var recorded := Recorded(entries, f.name);
    recorded.Some? && recorded.value != f.digest && !IsSubsumed(f.name, baseline)
  }

  function EditedAgainst(entries: seq<Entry>, baseline: Option<string>): File -> bool {
    (f: File) => IsEdited(f, entries, baseline)
  }

  function RecordedIn(entries: seq<Entry>): File -> bool {
    (f: File) => Recorded(entries, f.name).Some?
  }

  function MissingFrom(entries: seq<Entry>): File -> bool {
    (f: File) => Recorded(entries, f.name).None?
  }

  function OrphanOf(names: seq<string>, baseline: Option<string>): string -> bool {
    (k: string) => k !in names && !IsSubsumed(k, baseline)
  }

  function LateFor(keys: seq<string>): string -> bool {
    (n: string) => IsLate(n, keys, Cutoff(keys))
  }

  function NameOf(f: File): string {
    f.name
  }

  function EditedFiles(files: seq<File>, entries: seq<Entry>, baseline: Option<string>): seq<Finding> {
    Tagged(Edited, Names(Filter(files, EditedAgainst(entries, baseline))))
  }

  function Missing(files: seq<File>, entries: seq<Entry>): seq<File> {
    Filter(files, MissingFrom(entries))
  }

  function Orphans(keys: seq<string>, names: seq<string>, baseline: Option<string>): seq<Finding> {
    Tagged(Orphan, Filter(keys, OrphanOf(names, baseline)))
  }

  function Cutoff(keys: seq<string>): Option<string> {
    if |keys| == 0 then None
    else
      var before := Cutoff(keys[..|keys| - 1]);
      if before.None? || Less(before.value, keys[|keys| - 1]) then Some(keys[|keys| - 1]) else before
  }

  predicate IsLate(name: string, keys: seq<string>, cutoff: Option<string>) {
    cutoff.Some? && Less(name, cutoff.value) && name !in keys
  }

  function Late(names: seq<string>, keys: seq<string>): seq<Finding> {
    Tagged(OutOfOrder, Filter(names, LateFor(keys)))
  }

  function Entries(lock: Option<Lock>): seq<Entry> {
    if lock.Some? then lock.value.migrations else []
  }

  function StaleBaseline(lock: Option<Lock>, baseline: Option<string>): seq<Finding> {
    if lock.Some? && lock.value.baseline != baseline then [Finding(Baseline, "baseline")] else []
  }

  /** The findings that do not look at single entries, up to the recorded baseline's own. */
  function NameFindings(names: seq<string>, keys: seq<string>): seq<Finding> {
    BadNames(names) + BadNames(keys) + DuplicatePrefixes(names + keys)
  }

  function EntryFindings(files: seq<File>, lock: Option<Lock>): seq<Finding> {
    var names, keys, baseline := Names(files), Keys(Entries(lock)), BaselineOf(Names(files));
    EditedFiles(files, Entries(lock), baseline) + Tagged(Unlocked, Names(Unrecorded(files, lock)))
    + Orphans(keys, names, baseline) + Late(names, keys)
  }

  function Unrecorded(files: seq<File>, lock: Option<Lock>): seq<File> {
    if lock.Some? then Missing(files, Entries(lock)) else []
  }

  predicate HasMalformed(findings: seq<Finding>) {
    exists f :: f in findings && f.kind == Malformed
  }

  function Check(leq: (string, string) -> bool, files: seq<File>, lock: Option<Lock>,
                 lockFindings: seq<Finding>): CheckResult {
    CheckResult(
      lockFindings + NameFindings(Names(files), Keys(Entries(lock)))
      + StaleBaseline(lock, BaselineOf(Names(files))) + EntryFindings(files, lock),
      Unrecorded(files, lock),
      Updated(leq, files, lock, HasMalformed(lockFindings)))
  }

  /* ----- what a finding means ----- */

  lemma TaggedHas(kind: Kind, subjects: seq<string>, subject: string)
    ensures Finding(kind, subject) in Tagged(kind, subjects) <==> subject in subjects
  {
    if subject in subjects {
      var i :| 0 <= i < |subjects| && subjects[i] == subject;
      assert Tagged(kind, subjects)[i] == Finding(kind, subject);
    }
  }

  lemma {:induction false} CutoffIsNewest(keys: seq<string>)
    ensures Cutoff(keys).None? <==> keys == []
    ensures Cutoff(keys).Some? ==> Cutoff(keys).value in keys && forall k :: k in keys ==> Leq(k, Cutoff(keys).value)
  {
    if |keys| > 0 {
      var n := |keys| - 1;
      var last := keys[n];
      CutoffIsNewest(keys[..n]);
      assert keys == keys[..n] + [last];
      LeqTotal(last, last);
      var before := Cutoff(keys[..n]);
      if before.Some? {
        LeqTotal(before.value, last);
        forall k | k in keys && Less(before.value, last) ensures Leq(k, last) {
          if k != last { LeqTransitive(k, before.value, last); }
        }
      }
    }
  }

  ghost predicate PassedOver(name: string, keys: seq<string>) {
    exists k :: k in keys && Less(name, k)
  }

  /** A file is out of order exactly when it is not locked although some locked name sorts after it. */
  lemma LateMeansPassedOver(names: seq<string>, keys: seq<string>, name: string)
    ensures Finding(OutOfOrder, name) in Late(names, keys)
        <==> name in names && name !in keys && PassedOver(name, keys)
  {
    TaggedHas(OutOfOrder, Filter(names, LateFor(keys)), name);
    FilterHas(names, LateFor(keys));
    CutoffIsNewest(keys);
    if k :| k in keys && Less(name, k) {
      var newest := Cutoff(keys).value;
      LeqTransitive(name, k, newest);
      if name == newest { LeqAntisymmetric(name, k); }
    }
  }

  ghost predicate PrefixShared(names: seq<string>, prefix: string) {
    exists a, b :: a in names && b in names && a != b && IsMigrationName(a) && IsMigrationName(b)
                   && a[..4] == b[..4] == prefix
  }

  /** A prefix is duplicate exactly when two different well-named migrations, on disk or locked, share it. */
  lemma DuplicateMeansShared(names: seq<string>, prefix: string)
    ensures Finding(DuplicatePrefix, prefix) in DuplicatePrefixes(names) <==> PrefixShared(names, prefix)
  {
    var distinct := Distinct(names);
    var good := Filter(distinct, IsMigrationName);
    var prefixes := Prefixes(distinct);
    DistinctHasEachOnce(names);
    DistinctHasEachOnce(prefixes);
    FilterHas(distinct, IsMigrationName);
    FilterKeepsNoRepeats(distinct, IsMigrationName);
    MoreThanOnce(prefixes, prefix);
    var shared := (p: string) => multiset(prefixes)[p] > 1;
    FilterHas(Distinct(prefixes), shared);
    TaggedHas(DuplicatePrefix, Filter(Distinct(prefixes), shared), prefix);
    SharedTwice(good, prefixes, prefix);
  }

  lemma SharedTwice(good: seq<string>, prefixes: seq<string>, prefix: string)
    requires NoRepeats(good) && prefixes == Map(good, PrefixOf)
    ensures (exists i, j :: 0 <= i < j < |prefixes| && prefixes[i] == prefix && prefixes[j] == prefix)
        <==> exists a, b :: a in good && b in good && a != b && PrefixOf(a) == prefix && PrefixOf(b) == prefix
  {
    if i, j :| 0 <= i < j < |prefixes| && prefixes[i] == prefix && prefixes[j] == prefix {
      assert good[i] != good[j] && good[i] in good && good[j] in good;
      assert PrefixOf(good[i]) == prefix && PrefixOf(good[j]) == prefix;
    }
    if a, b :| a in good && b in good && a != b && PrefixOf(a) == prefix && PrefixOf(b) == prefix {
      var i :| 0 <= i < |good| && good[i] == a;
      var j :| 0 <= j < |good| && good[j] == b;
      assert prefixes[i] == prefix && prefixes[j] == prefix;
      assert i < j || j < i;
    }
  }

  /** The lock's entry of a name, the first one it has, holds this digest. */
  predicate LockedAt(entries: seq<Entry>, name: string, i: int, digest: string) {
    && 0 <= i < |entries| && entries[i] == (name, digest)
    && forall j :: 0 <= j < i ==> entries[j].0 != name
  }

  ghost predicate Locked(entries: seq<Entry>, name: string, digest: string) {
    exists i :: LockedAt(entries, name, i, digest)
  }

  lemma {:induction false} RecordedIsLocked(entries: seq<Entry>, name: string, digest: string)
    ensures Recorded(entries, name) == Some(digest) <==> Locked(entries, name, digest)
  {
    if |entries| > 0 && entries[0].0 != name {
      var rest := entries[1..];
      RecordedIsLocked(rest, name, digest);
      forall i | LockedAt(rest, name, i, digest) ensures LockedAt(entries, name, i + 1, digest) {
        forall j | 0 <= j < i + 1 ensures entries[j].0 != name {
          if j > 0 { assert rest[j - 1].0 != name; }
        }
      }
      forall i | LockedAt(entries, name, i, digest) ensures LockedAt(rest, name, i - 1, digest) {}
    } else if |entries| > 0 {
      assert entries[0].1 == digest ==> LockedAt(entries, name, 0, digest);
      forall i | LockedAt(entries, name, i, digest) ensures i == 0 {}
    }
  }

  /** Absorbed by a squash on disk: some squash sorts at or after the name. */
  ghost predicate Squashed(name: string, names: seq<string>) {
    exists b :: b in names && IsSquashName(b) && Leq(name, b)
  }

  lemma SubsumedMeansSquashed(name: string, names: seq<string>)
    ensures IsSubsumed(name, BaselineOf(names)) <==> Squashed(name, names)
  {
    var highest := BaselineOf(names);
    if b :| b in names && IsSquashName(b) && Leq(name, b) { LeqTransitive(name, b, highest.value); }
  }

  /** The file is locked under another digest than it has. */
  ghost predicate LockedOtherwise(entries: seq<Entry>, f: File) {
    exists digest :: Locked(entries, f.name, digest) && digest != f.digest
  }

  /** A file is edited when its lock entry holds another digest and no squash has absorbed it. */
  lemma EditedMeans(files: seq<File>, entries: seq<Entry>, name: string)
    ensures Finding(Edited, name) in EditedFiles(files, entries, BaselineOf(Names(files)))
        <==> !Squashed(name, Names(files)) && exists f :: f in files && f.name == name && LockedOtherwise(entries, f)
  {
    var isEdited := EditedAgainst(entries, BaselineOf(Names(files)));
    TaggedHas(Edited, Names(Filter(files, isEdited)), name);
    NamesHave(Filter(files, isEdited), name);
    FilterHas(files, isEdited);
    forall f | f in files && f.name == name
      ensures isEdited(f) <==> !Squashed(name, Names(files)) && LockedOtherwise(entries, f)
    {
      EditedFile(f, entries, Names(files));
    }
  }

  lemma EditedFile(f: File, entries: seq<Entry>, names: seq<string>)
    ensures IsEdited(f, entries, BaselineOf(names)) <==> !Squashed(f.name, names) && LockedOtherwise(entries, f)
  {
    SubsumedMeansSquashed(f.name, names);
    if Recorded(entries, f.name).Some? { RecordedIsLocked(entries, f.name, Recorded(entries, f.name).value); }
    forall digest | Locked(entries, f.name, digest) ensures Recorded(entries, f.name) == Some(digest) {
      RecordedIsLocked(entries, f.name, digest);
    }
  }

  lemma NamesHave(files: seq<File>, name: string)
    ensures name in Names(files) <==> exists f :: f in files && f.name == name
  {
    if name in Names(files) {
      var k :| 0 <= k < |files| && Names(files)[k] == name;
      assert files[k] in files;
    }
    if f :| f in files && f.name == name {
      var k :| 0 <= k < |files| && files[k] == f;
      assert Names(files)[k] == name;
    }
  }

  /** A lock entry is an orphan when its file is gone and no squash has absorbed it. */
  lemma OrphanMeans(keys: seq<string>, names: seq<string>, name: string)
    ensures Finding(Orphan, name) in Orphans(keys, names, BaselineOf(names))
        <==> name in keys && name !in names && !Squashed(name, names)
  {
    TaggedHas(Orphan, Filter(keys, OrphanOf(names, BaselineOf(names))), name);
    FilterHas(keys, OrphanOf(names, BaselineOf(names)));
    SubsumedMeansSquashed(name, names);
  }

  /** A file is unlocked when there is a lock and it has no entry for the file. */
  lemma UnlockedMeans(files: seq<File>, lock: Option<Lock>, name: string)
    ensures Finding(Unlocked, name) in Tagged(Unlocked, Names(Unrecorded(files, lock)))
        <==> lock.Some? && name in Names(files) && name !in Keys(lock.value.migrations)
  {
    TaggedHas(Unlocked, Names(Unrecorded(files, lock)), name);
    NamesHave(Unrecorded(files, lock), name);
    NamesHave(files, name);
    if lock.Some? { FilterHas(files, MissingFrom(lock.value.migrations)); }
  }

  lemma BadNameMeans(names: seq<string>, name: string)
    ensures Finding(Name, name) in BadNames(names) <==> name in names && !IsMigrationName(name)
  {
    TaggedHas(Name, Filter(names, IsBadName), name);
    FilterHas(names, IsBadName);
  }

  /** What has to be the case for the check to report a finding of its own. */
  ghost predicate Reportable(files: seq<File>, lock: Option<Lock>, f: Finding) {
    var names, keys := Names(files), Keys(Entries(lock));
    match f.kind
    case Absent => false
    case Malformed => false
    case Name => (f.subject in names || f.subject in keys) && !IsMigrationName(f.subject)
    case DuplicatePrefix =>
      PrefixShared(names + keys, f.subject)
    case Baseline => f.subject == "baseline" && lock.Some? && lock.value.baseline != BaselineOf(names)
    case Edited =>
      && !Squashed(f.subject, names)
      && exists file :: file in files && file.name == f.subject && LockedOtherwise(Entries(lock), file)
    case Unlocked => lock.Some? && f.subject in names && f.subject !in keys
    case Orphan => f.subject in keys && f.subject !in names && !Squashed(f.subject, names)
    case OutOfOrder => f.subject in names && f.subject !in keys && PassedOver(f.subject, keys)
  }

  lemma TaggedKind(kind: Kind, subjects: seq<string>, f: Finding)
    ensures f in Tagged(kind, subjects) ==> f.kind == kind && f == Finding(kind, f.subject)
  {}

  lemma NameFindingsMean(files: seq<File>, lock: Option<Lock>, f: Finding)
    ensures f in NameFindings(Names(files), Keys(Entries(lock)))
        <==> (f.kind == Name || f.kind == DuplicatePrefix) && Reportable(files, lock, f)
  {
    var names, keys := Names(files), Keys(Entries(lock));
    TaggedKind(Name, Filter(names, IsBadName), f);
    TaggedKind(Name, Filter(keys, IsBadName), f);
    var prefixes := Prefixes(Distinct(names + keys));
    TaggedKind(DuplicatePrefix, Filter(Distinct(prefixes), (p: string) => multiset(prefixes)[p] > 1), f);
    BadNameMeans(names, f.subject);
    BadNameMeans(keys, f.subject);
    DuplicateMeansShared(names + keys, f.subject);
  }

  lemma EntryFindingsMean(files: seq<File>, lock: Option<Lock>, f: Finding)
    ensures f in EntryFindings(files, lock)
        <==> (f.kind == Edited || f.kind == Unlocked || f.kind == Orphan || f.kind == OutOfOrder)
             && Reportable(files, lock, f)
  {
    var names, keys, baseline := Names(files), Keys(Entries(lock)), BaselineOf(Names(files));
    TaggedKind(Edited, Names(Filter(files, EditedAgainst(Entries(lock), baseline))), f);
    TaggedKind(Unlocked, Names(Unrecorded(files, lock)), f);
    TaggedKind(Orphan, Filter(keys, OrphanOf(names, baseline)), f);
    TaggedKind(OutOfOrder, Filter(names, LateFor(keys)), f);
    EditedMeans(files, Entries(lock), f.subject);
    UnlockedMeans(files, lock, f.subject);
    OrphanMeans(keys, names, f.subject);
    LateMeansPassedOver(names, keys, f.subject);
  }

  /** The whole report: besides what parsing found, it holds exactly the findings that have cause. */
  lemma ReportMeans(leq: (string, string) -> bool, files: seq<File>, lock: Option<Lock>, lockFindings: seq<Finding>,
                    f: Finding)
    ensures f in Check(leq, files, lock, lockFindings).findings <==> f in lockFindings || Reportable(files, lock, f)
  {
    NameFindingsMean(files, lock, f);
    EntryFindingsMean(files, lock, f);
  }

  /* ----- the lock `--write` leaves ----- */

  /** The entry a file keeps: what was recorded, or its digest if it is new or is the baseline. */
  function KeptEntry(f: File, entries: seq<Entry>, baseline: Option<string>): Entry {
    var recorded := Recorded(entries, f.name);
    (f.name, if recorded.None? || Some(f.name) == baseline then f.digest else recorded.value)
  }

  function FreshEntry(f: File): Entry {
    (f.name, f.digest)
  }

  function KeepFrom(entries: seq<Entry>, baseline: Option<string>): File -> Entry {
    (f: File) => KeptEntry(f, entries, baseline)
  }

  /** The entries of the given files, when read as all of the lock's. */
  function KeptEntries(files: seq<File>, entries: seq<Entry>, baseline: Option<string>): seq<Entry> {
    Map(files, KeepFrom(entries, baseline))
  }

  function ByName(leq: (string, string) -> bool): (Entry, Entry) -> bool {
    (a: Entry, b: Entry) => leq(a.0, b.0)
  }

  /** Recorded files first, then the missing ones, then sorted by name; from scratch without a lock. */
  function Updated(leq: (string, string) -> bool, files: seq<File>, lock: Option<Lock>, malformed: bool): Option<Lock> {
    var baseline := BaselineOf(Names(files));
    if malformed then None
    else if lock.None? then Some(Lock(baseline, Map(files, FreshEntry)))
    else
      var entries := lock.value.migrations;
      var recorded := Filter(files, RecordedIn(entries));
      Some(Lock(baseline, Sort(ByName(leq), KeptEntries(recorded, entries, baseline)
                                            + Map(Missing(files, entries), FreshEntry))))
  }

  /** The files as the directory listing gives them: sorted by the collation, no two alike, digested. */
  ghost predicate Listing(leq: (string, string) -> bool, files: seq<File>) {
    && NoRepeats(Names(files))
    && TotalOn(leq, multiset(Names(files)))
    && SortedBy(leq, Names(files))
    && forall i :: 0 <= i < |files| ==> DIGEST_PREFIX <= files[i].digest
  }

  lemma RecordedAndMissingAreAll(files: seq<File>, entries: seq<Entry>, baseline: Option<string>)
    ensures var recorded := Filter(files, RecordedIn(entries));
            multiset(KeptEntries(recorded, entries, baseline) + Map(Missing(files, entries), FreshEntry))
            == multiset(KeptEntries(files, entries, baseline))
  {
    FilterSplits(files, RecordedIn(entries), MissingFrom(entries), KeepFrom(entries, baseline));
    FilterHas(files, MissingFrom(entries));
    var missing := Missing(files, entries);
    forall i | 0 <= i < |missing| ensures KeptEntry(missing[i], entries, baseline) == FreshEntry(missing[i]) {
      assert missing[i] in missing;
    }
    assert Map(missing, KeepFrom(entries, baseline)) == Map(missing, FreshEntry);
  }

  lemma KeptKeys(files: seq<File>, entries: seq<Entry>, baseline: Option<string>)
    ensures Keys(KeptEntries(files, entries, baseline)) == Names(files)
  {}

  lemma EntriesSorted(leq: (string, string) -> bool, files: seq<File>, entries: seq<Entry>)
    requires Listing(leq, files) && Keys(entries) == Names(files)
    ensures SortedBy(ByName(leq), entries)
  {
    forall i, j | 0 <= i < j < |entries| ensures leq(entries[i].0, entries[j].0) {
      assert Keys(entries)[i] == Names(files)[i] && Keys(entries)[j] == Names(files)[j];
    }
  }

  lemma NameDeterminesEntry(entries: seq<Entry>, x: Entry, y: Entry)
    requires NoRepeats(Keys(entries)) && x in entries && y in entries && x.0 == y.0
    ensures x == y
  {
    var i :| 0 <= i < |entries| && entries[i] == x;
    var j :| 0 <= j < |entries| && entries[j] == y;
    assert Keys(entries)[i] == Keys(entries)[j];
  }

  lemma EntriesOrdered(leq: (string, string) -> bool, files: seq<File>, entries: seq<Entry>)
    requires Listing(leq, files) && Keys(entries) == Names(files)
    ensures TotalOn(ByName(leq), multiset(entries))
  {
    forall x | x in multiset(entries) ensures x in entries && x.0 in multiset(Names(files)) {
      var i :| 0 <= i < |entries| && entries[i] == x;
      assert Keys(entries)[i] == x.0;
    }
    forall x, y | x in multiset(entries) && y in multiset(entries) && x.0 == y.0 ensures x == y {
      NameDeterminesEntry(entries, x, y);
    }
  }

  /** A `--write` leaves one entry per file, in file order: recorded digests stay, new files and the
      baseline take the digest on disk, and everything not on disk is gone. */
  lemma UpdatedLock(leq: (string, string) -> bool, files: seq<File>, lock: Option<Lock>, lockFindings: seq<Finding>)
    requires Listing(leq, files)
    requires forall f :: f in lockFindings ==> f.kind != Malformed
    ensures Check(leq, files, lock, lockFindings).updated
         == Some(Lock(BaselineOf(Names(files)), KeptEntries(files, Entries(lock), BaselineOf(Names(files)))))
  {
    UpdatedIs(leq, files, lock);
  }

  /** The digest a `--write` locks a file with: the one on disk if the file was not locked yet or is the highest
      squash there, and otherwise the one it was locked with. */
  ghost predicate LockedNow(names: seq<string>, entries: seq<Entry>, f: File, digest: string) {
    if || f.name !in Keys(entries)
       || (IsSquashName(f.name) && forall b :: b in names && IsSquashName(b) ==> Leq(b, f.name))
    then digest == f.digest
    else Locked(entries, f.name, digest)
  }

  lemma KeptIsLockedNow(names: seq<string>, entries: seq<Entry>, f: File)
    requires f.name in names
    ensures LockedNow(names, entries, f, KeptEntry(f, entries, BaselineOf(names)).1)
  {
    var highest := BaselineOf(names);
    if IsSquashName(f.name) && forall b :: b in names && IsSquashName(b) ==> Leq(b, f.name) {
      LeqAntisymmetric(f.name, highest.value);
    }
    if Recorded(entries, f.name).Some? { RecordedIsLocked(entries, f.name, Recorded(entries, f.name).value); }
  }

  /** Entry by entry: one for each file, in the order of the files, locked as above. */
  lemma UpdatedEntry(leq: (string, string) -> bool, files: seq<File>, lock: Option<Lock>, lockFindings: seq<Finding>,
                     i: nat)
    requires Listing(leq, files) && i < |files|
    requires forall f :: f in lockFindings ==> f.kind != Malformed
    ensures var updated := Check(leq, files, lock, lockFindings).updated;
            && updated.Some? && |updated.value.migrations| == |files|
            && updated.value.migrations[i].0 == files[i].name
            && LockedNow(Names(files), Entries(lock), files[i], updated.value.migrations[i].1)
  {
    UpdatedLock(leq, files, lock, lockFindings);
    assert files[i].name == Names(files)[i];
    KeptIsLockedNow(Names(files), Entries(lock), files[i]);
  }

  lemma UpdatedIs(leq: (string, string) -> bool, files: seq<File>, lock: Option<Lock>)
    requires Listing(leq, files)
    ensures Updated(leq, files, lock, false)
         == Some(Lock(BaselineOf(Names(files)), KeptEntries(files, Entries(lock), BaselineOf(Names(files)))))
  {
    var baseline := BaselineOf(Names(files));
    var expected := KeptEntries(files, Entries(lock), baseline);
    KeptKeys(files, Entries(lock), baseline);
    EntriesOrdered(leq, files, expected);
    EntriesSorted(leq, files, expected);
    if lock.Some? {
      var entries := lock.value.migrations;
      var recorded := Filter(files, RecordedIn(entries));
      var all := KeptEntries(recorded, entries, baseline) + Map(Missing(files, entries), FreshEntry);
      RecordedAndMissingAreAll(files, entries, baseline);
      SortForgetsOrder(ByName(leq), expected, all);
      SortOfSorted(ByName(leq), expected);
    } else {
      assert Map(files, FreshEntry) == expected;
    }
  }

  lemma {:induction false} RecordedAt(entries: seq<Entry>, i: nat)
    requires i < |entries| && NoRepeats(Keys(entries))
    ensures Recorded(entries, entries[i].0) == Some(entries[i].1)
  {
    if i > 0 {
      assert Keys(entries)[0] != Keys(entries)[i];
      assert Keys(entries) == [entries[0].0] + Keys(entries[1..]);
      forall a, b | 0 <= a < b < |Keys(entries[1..])| ensures Keys(entries[1..])[a] != Keys(entries[1..])[b] {
        assert Keys(entries)[a + 1] != Keys(entries)[b + 1];
      }
      RecordedAt(entries[1..], i - 1);
    }
  }

  lemma RecordedAfterWrite(files: seq<File>, entries: seq<Entry>, baseline: Option<string>, f: File)
    requires NoRepeats(Names(files)) && f in files
    ensures Recorded(KeptEntries(files, entries, baseline), f.name) == Some(KeptEntry(f, entries, baseline).1)
  {
    var kept := KeptEntries(files, entries, baseline);
    KeptKeys(files, entries, baseline);
    var i :| 0 <= i < |files| && files[i] == f;
    RecordedAt(kept, i);
  }

  /** Reading the written lock, a file is edited exactly when it was before, and none is missing. */
  lemma EditedSurvives(files: seq<File>, entries: seq<Entry>, baseline: Option<string>)
    requires NoRepeats(Names(files))
    ensures EditedFiles(files, KeptEntries(files, entries, baseline), baseline) == EditedFiles(files, entries, baseline)
    ensures Missing(files, KeptEntries(files, entries, baseline)) == []
  {
    var kept := KeptEntries(files, entries, baseline);
    forall f | f in files
      ensures IsEdited(f, kept, baseline) == IsEdited(f, entries, baseline) && Recorded(kept, f.name).Some?
    {
      RecordedAfterWrite(files, entries, baseline, f);
      if baseline == Some(f.name) { LeqTotal(f.name, f.name); }
    }
    FilterSame(files, EditedAgainst(kept, baseline), EditedAgainst(entries, baseline));
    FilterNone(files, MissingFrom(kept));
  }

  lemma NothingOrphanedOrLate(names: seq<string>, baseline: Option<string>)
    ensures Orphans(names, names, baseline) == [] && Late(names, names) == []
  {
    FilterNone(names, OrphanOf(names, baseline));
    FilterNone(names, LateFor(names));
  }

  lemma ExpectedIsWritable(leq: (string, string) -> bool, files: seq<File>, lock: Option<Lock>)
    requires Listing(leq, files) && (lock.Some? ==> IsWritable(lock.value))
    ensures IsWritable(Lock(BaselineOf(Names(files)), KeptEntries(files, Entries(lock), BaselineOf(Names(files)))))
  {
    var baseline := BaselineOf(Names(files));
    if baseline.Some? { SquashIsMigration(baseline.value); }
    forall i | 0 <= i < |files| ensures DIGEST_PREFIX <= KeptEntry(files[i], Entries(lock), baseline).1 {
      RecordedIsEntry(Entries(lock), files[i].name);
    }
  }

  lemma {:induction false} RecordedIsEntry(entries: seq<Entry>, name: string)
    ensures Recorded(entries, name).Some? ==>
            exists i :: 0 <= i < |entries| && entries[i] == (name, Recorded(entries, name).value)
  {
    if |entries| > 0 && entries[0].0 != name {
      RecordedIsEntry(entries[1..], name);
      if Recorded(entries[1..], name).Some? {
        var i :| 0 <= i < |entries[1..]| && entries[1..][i] == (name, Recorded(entries, name).value);
        assert entries[i + 1] == (name, Recorded(entries, name).value);
      }
    } else if |entries| > 0 {
      assert entries[0] == (name, Recorded(entries, name).value);
    }
  }

  lemma ParsedIsWritable(raw: Raw)
    ensures ParseLock(raw).0.Some? ==> IsWritable(ParseLock(raw).0.value)
  {
    if ParseLock(raw).0.Some? {
      var entries := Field(raw.json.fields, "migrations").value.fields;
      FilterHas(entries, BadDigest);
      assert |Filter(entries, BadDigest)| == |BadDigests(entries)| == 0;
      forall i | 0 <= i < |entries| ensures IsDigest(entries[i].1) {
        assert entries[i] in entries && entries[i] !in Filter(entries, BadDigest);
      }
      forall i | 0 <= i < |entries| ensures DIGEST_PREFIX <= DigestEntry(entries[i]).1 {
        assert IsDigest(entries[i].1);
      }
    }
  }

  /** The script's check of a lock file. */
  function CheckRaw(leq: (string, string) -> bool, files: seq<File>, raw: Raw): CheckResult {
    var parsed := ParseLock(raw);
    Check(leq, files, parsed.0, parsed.1)
  }

  /** The lock file after `--write`: replaced by the updated lock, or left alone when there is none. */
  function Write(leq: (string, string) -> bool, files: seq<File>, raw: Raw): Raw {
    match CheckRaw(leq, files, raw).updated
    case None => raw
    case Some(lock) => Text(Serialized(lock))
  }

  /** The edited findings of a lock file, as the check computes them. */
  function EditedIn(files: seq<File>, raw: Raw): seq<Finding> {
    EditedFiles(files, Entries(ParseLock(raw).0), BaselineOf(Names(files)))
  }

  predicate IsMalformed(raw: Raw) {
    HasMalformed(ParseLock(raw).1)
  }

  /** The lock a `--write` leaves over a lock file it could read, or over none. */
  function WrittenLock(files: seq<File>, raw: Raw): Lock {
    var baseline := BaselineOf(Names(files));
    Lock(baseline, KeptEntries(files, Entries(ParseLock(raw).0), baseline))
  }

  lemma WriteLeaves(leq: (string, string) -> bool, files: seq<File>, raw: Raw)
    requires Listing(leq, files) && !IsMalformed(raw)
    ensures Write(leq, files, raw) == Text(Serialized(WrittenLock(files, raw)))
    ensures ParseLock(Write(leq, files, raw)) == (Some(WrittenLock(files, raw)), [])
  {
    UpdatedLock(leq, files, ParseLock(raw).0, ParseLock(raw).1);
    ParsedIsWritable(raw);
    ExpectedIsWritable(leq, files, ParseLock(raw).0);
    WrittenLockParses(WrittenLock(files, raw));
  }

  /** Re-checking after a `--write` reports the ill-named files (once for the disk and once for the lock),
      the shared prefixes and the earlier edited files, and nothing else. */
  lemma RecheckAfterWrite(leq: (string, string) -> bool, files: seq<File>, raw: Raw)
    requires Listing(leq, files) && !IsMalformed(raw)
    ensures CheckRaw(leq, files, Write(leq, files, raw)).findings
         == BadNames(Names(files)) + BadNames(Names(files)) + DuplicatePrefixes(Names(files)) + EditedIn(files, raw)
  {
    WriteLeaves(leq, files, raw);
    CheckOfWritten(files, raw);
    FindingsOf(leq, files, WrittenLock(files, raw));
  }

  lemma FindingsOf(leq: (string, string) -> bool, files: seq<File>, lock: Lock)
    requires lock.baseline == BaselineOf(Names(files))
    ensures Check(leq, files, Some(lock), []).findings
            == NameFindings(Names(files), Keys(lock.migrations)) + EntryFindings(files, Some(lock))
  {
    assert StaleBaseline(Some(lock), BaselineOf(Names(files))) == [];
    DropEmpties(NameFindings(Names(files), Keys(lock.migrations)), EntryFindings(files, Some(lock)));
  }

  lemma DropEmpties(a: seq<Finding>, b: seq<Finding>)
    ensures [] + a + [] + b == a + b
  {}

  lemma CheckOfWritten(files: seq<File>, raw: Raw)
    requires NoRepeats(Names(files))
    ensures var lock := Some(WrittenLock(files, raw));
            && NameFindings(Names(files), Keys(Entries(lock)))
                == BadNames(Names(files)) + BadNames(Names(files)) + DuplicatePrefixes(Names(files))
            && EntryFindings(files, lock) == EditedIn(files, raw)
  {
    var names := Names(files);
    var lock := WrittenLock(files, raw);
    KeptKeys(files, Entries(ParseLock(raw).0), BaselineOf(names));
    DistinctAbsorbs(names, names);
    EditedSurvives(files, Entries(ParseLock(raw).0), BaselineOf(names));
    NothingOrphanedOrLate(names, BaselineOf(names));
  }

  /** A second `--write` is a fixed point. */
  lemma SecondWriteChangesNothing(leq: (string, string) -> bool, files: seq<File>, raw: Raw)
    requires Listing(leq, files)
    ensures Write(leq, files, Write(leq, files, raw)) == Write(leq, files, raw)
  {
    if !IsMalformed(raw) {
      WriteLeaves(leq, files, raw);
      WriteLeaves(leq, files, Write(leq, files, raw));
      KeptTwice(files, Entries(ParseLock(raw).0), BaselineOf(Names(files)));
    } else {
      MalformedIsKept(leq, files, raw);
    }
  }

  lemma KeptTwice(files: seq<File>, entries: seq<Entry>, baseline: Option<string>)
    requires NoRepeats(Names(files))
    ensures var kept := KeptEntries(files, entries, baseline);
            KeptEntries(files, kept, baseline) == kept
  {
    var kept := KeptEntries(files, entries, baseline);
    forall i | 0 <= i < |files| ensures KeptEntry(files[i], kept, baseline) == kept[i] {
      RecordedAfterWrite(files, entries, baseline, files[i]);
    }
  }

  /** A malformed lock is never replaced, and every other one, or none, is. */
  lemma MalformedIsKept(leq: (string, string) -> bool, files: seq<File>, raw: Raw)
    ensures IsMalformed(raw) <==> CheckRaw(leq, files, raw).updated.None?
    ensures IsMalformed(raw) ==> Write(leq, files, raw) == raw
  {}

  /** What a lock file has to look like. */
  ghost predicate LockShaped(json: Json) {
    && json.JObject?
    && Field(json.fields, "version") == Some(JNumber(1.0))
    && (match Field(json.fields, "baseline")
        case None => true
        case Some(j) => j.JString? && IsMigrationName(j.s))
    && (match Field(json.fields, "migrations")
        case Some(JObject(entries)) => forall i :: 0 <= i < |entries| ==> IsDigest(entries[i].1)
        case _ => false)
  }

  lemma DigestsAllGood(entries: seq<(string, Json)>)
    ensures BadDigests(entries) == [] <==> forall i :: 0 <= i < |entries| ==> IsDigest(entries[i].1)
  {
    FilterHas(entries, BadDigest);
    var bad := Filter(entries, BadDigest);
    if bad == [] {
      forall i | 0 <= i < |entries| ensures IsDigest(entries[i].1) {
        assert entries[i] in entries && entries[i] !in bad;
      }
    } else {
      assert bad[0] in bad;
      var i :| 0 <= i < |entries| && entries[i] == bad[0];
      assert |BadDigests(entries)| == |bad|;
    }
  }

  /** A write replaces the lock exactly when there is none or it has the shape of one; anything else is
      left as it is. */
  lemma WriteReplacesOnlyLocks(leq: (string, string) -> bool, files: seq<File>, raw: Raw)
    ensures CheckRaw(leq, files, raw).updated.Some? <==> raw.NoFile? || (raw.Text? && LockShaped(raw.json))
    ensures !(raw.NoFile? || (raw.Text? && LockShaped(raw.json))) ==> Write(leq, files, raw) == raw
  {
    MalformedIsKept(leq, files, raw);
    if raw.Text? && raw.json.JObject? {
      match Field(raw.json.fields, "migrations")
      case Some(JObject(entries)) => DigestsAllGood(entries);
      case _ =>
    }
    MalformedMeansFindings(raw);
  }

  /** What parsing reports of a JSON object: a version that is not 1, a baseline that names no migration, entries
      that are not digests, or that there are no entries. */
  lemma MalformedMeans(json: Json, f: Finding)
    requires json.JObject?
    ensures f in ParseLock(Text(json)).1 <==>
              && f.kind == Malformed
              && (|| (f.subject == "version" && Field(json.fields, "version") != Some(JNumber(1.0)))
                  || (f.subject == "baseline" && match Field(json.fields, "baseline")
                      case None => false
                      case Some(j) => !j.JString? || !IsMigrationName(j.s))
                  || match Field(json.fields, "migrations")
                     case Some(JObject(entries)) => exists e :: e in entries && e.0 == f.subject && !IsDigest(e.1)
                     case _ => f.subject == "migrations")
  {
    match Field(json.fields, "migrations")
    case Some(JObject(entries)) => BadDigestMeans(entries, f);
    case _ =>
  }

  lemma BadDigestMeans(entries: seq<(string, Json)>, f: Finding)
    ensures f in BadDigests(entries)
        <==> f.kind == Malformed && exists e :: e in entries && e.0 == f.subject && !IsDigest(e.1)
  {
    var bad := Filter(entries, BadDigest);
    TaggedHas(Malformed, Map(bad, FieldName), f.subject);
    TaggedKind(Malformed, Map(bad, FieldName), f);
    FilterHas(entries, BadDigest);
    if f.subject in Map(bad, FieldName) {
      var k :| 0 <= k < |bad| && Map(bad, FieldName)[k] == f.subject;
      assert bad[k] in bad;
    }
    if e :| e in entries && e.0 == f.subject && !IsDigest(e.1) {
      assert e in bad;
      var k :| 0 <= k < |bad| && bad[k] == e;
      assert Map(bad, FieldName)[k] == f.subject;
    }
  }

  lemma MalformedMeansFindings(raw: Raw)
    ensures IsMalformed(raw) <==> !raw.NoFile? && |ParseLock(raw).1| > 0
  {
    var findings := ParseLock(raw).1;
    if |findings| > 0 { assert findings[0] in findings; }
  }

  function NotOf(kind: Kind): Finding -> bool {
    (f: Finding) => f.kind != kind
  }

  /** The recorded baseline exempts nothing: changing it changes only whether it is reported stale. */
  lemma RecordedBaselineExemptsNothing(leq: (string, string) -> bool, files: seq<File>, lock: Lock,
                                       other: Option<string>)
    ensures var a, b := Check(leq, files, Some(lock), []), Check(leq, files, Some(lock.(baseline := other)), []);
            && a.missing == b.missing && a.updated == b.updated
            && Filter(a.findings, NotOf(Baseline)) == Filter(b.findings, NotOf(Baseline))
  {
    StaleIsSeparate(leq, files, lock);
    StaleIsSeparate(leq, files, lock.(baseline := other));
  }

  lemma StaleIsSeparate(leq: (string, string) -> bool, files: seq<File>, lock: Lock)
    ensures Filter(Check(leq, files, Some(lock), []).findings, NotOf(Baseline))
         == Filter(NameFindings(Names(files), Keys(lock.migrations)), NotOf(Baseline))
            + Filter(EntryFindings(files, Some(lock)), NotOf(Baseline))
  {
    var front := NameFindings(Names(files), Keys(lock.migrations));
    var stale := StaleBaseline(Some(lock), BaselineOf(Names(files)));
    var back := EntryFindings(files, Some(lock));
    assert [] + front == front;
    FilterDropsMiddle(front, stale, back, NotOf(Baseline));
  }

  /* ----- the loops ----- */

  method FindBaseline(names: seq<string>) returns (highest: Option<string>)
    ensures highest == BaselineOf(names)
  {
    highest := None;
    for i := 0 to |names|
      invariant highest == BaselineOf(names[..i])
    {
      assert names[..i + 1][..i] == names[..i];
      if IsSquashName(names[i]) && (highest.None? || Less(highest.value, names[i])) { highest := Some(names[i]); }
    }
    assert names[..|names|] == names;
  }

  lemma TagSnoc(kind: Kind, files: seq<File>, f: File)
    ensures Tagged(kind, Names(files + [f])) == Tagged(kind, Names(files)) + [Finding(kind, f.name)]
  {}

  method EditedLoop(files: seq<File>, entries: seq<Entry>, baseline: Option<string>) returns (findings: seq<Finding>)
    ensures findings == EditedFiles(files, entries, baseline)
  {
    findings := [];
    var isEdited := EditedAgainst(entries, baseline);
    for i := 0 to |files|
      invariant findings == Tagged(Edited, Names(Filter(files[..i], isEdited)))
    {
      var file := files[i];
      FilterSnoc(files, isEdited, i);
      TagSnoc(Edited, Filter(files[..i], isEdited), file);
      var recorded := Recorded(entries, file.name);
      if recorded.None? || recorded.value == file.digest { continue; }
      if IsSubsumed(file.name, baseline) { continue; }
      findings := findings + [Finding(Edited, file.name)];
    }
    assert files[..|files|] == files;
  }

  method OrphanLoop(keys: seq<string>, names: seq<string>, baseline: Option<string>) returns (findings: seq<Finding>)
    ensures findings == Orphans(keys, names, baseline)
  {
    findings := [];
    var isOrphan := OrphanOf(names, baseline);
    for i := 0 to |keys|
      invariant findings == Tagged(Orphan, Filter(keys[..i], isOrphan))
    {
      FilterSnoc(keys, isOrphan, i);
      if keys[i] in names || IsSubsumed(keys[i], baseline) { continue; }
      findings := findings + [Finding(Orphan, keys[i])];
    }
    assert keys[..|keys|] == keys;
  }

  method LateLoop(names: seq<string>, keys: seq<string>) returns (findings: seq<Finding>)
    ensures findings == Late(names, keys)
  {
    findings := [];
    var cutoff: Option<string> := None;
    for i := 0 to |keys|
      invariant cutoff == Cutoff(keys[..i])
    {
      assert keys[..i + 1][..i] == keys[..i];
      if cutoff.None? || Less(cutoff.value, keys[i]) { cutoff := Some(keys[i]); }
    }
    assert keys[..|keys|] == keys;
    var isLate := LateFor(keys);
    for i := 0 to |names|
      invariant findings == Tagged(OutOfOrder, Filter(names[..i], isLate))
    {
      FilterSnoc(names, isLate, i);
      if cutoff.Some? && Less(names[i], cutoff.value) && names[i] !in keys {
        findings := findings + [Finding(OutOfOrder, names[i])];
      }
    }
    assert names[..|names|] == names;
  }

  /** `buildUpdated`: the recorded files in order, then the missing ones, sorted by name. */
  method BuildUpdated(leq: (string, string) -> bool, files: seq<File>, lock: Option<Lock>, missing: seq<File>,
                      baseline: Option<string>, malformed: bool)
    returns (updated: Option<Lock>)
    requires missing == Unrecorded(files, lock) && baseline == BaselineOf(Names(files))
    ensures updated == Updated(leq, files, lock, malformed)
  {
    if malformed { return None; }
    if lock.None? { return Some(Lock(baseline, Map(files, FreshEntry))); }
    var recorded := KeepRecorded(files, lock.value.migrations, baseline);
    var kept := AddMissing(recorded, missing);
    return Some(Lock(baseline, Sort(ByName(leq), kept)));
  }

  method KeepRecorded(files: seq<File>, entries: seq<Entry>, baseline: Option<string>) returns (kept: seq<Entry>)
    ensures kept == KeptEntries(Filter(files, RecordedIn(entries)), entries, baseline)
  {
    kept := [];
    var isRecorded := RecordedIn(entries);
    for i := 0 to |files|
      invariant kept == KeptEntries(Filter(files[..i], isRecorded), entries, baseline)
    {
      var file := files[i];
      FilterSnoc(files, isRecorded, i);
      var recorded := Recorded(entries, file.name);
      if recorded.None? { continue; }
      kept := kept + [(file.name, if Some(file.name) == baseline then file.digest else recorded.value)];
    }
    assert files[..|files|] == files;
  }

  method AddMissing(recorded: seq<Entry>, missing: seq<File>) returns (kept: seq<Entry>)
    ensures kept == recorded + Map(missing, FreshEntry)
  {
    kept := recorded;
    for i := 0 to |missing|
      invariant kept == recorded + Map(missing[..i], FreshEntry)
    {
      kept := kept + [(missing[i].name, missing[i].digest)];
    }
    assert missing[..|missing|] == missing;
  }

  /** `checkMigrations`. */
  method CheckMigrations(leq: (string, string) -> bool, files: seq<File>, lock: Option<Lock>,
                         lockFindings: seq<Finding>)
    returns (r: CheckResult)
    ensures r == Check(leq, files, lock, lockFindings)
  {
    var names := Names(files);
    var keys := Keys(Entries(lock));
    var findings := lockFindings + NameFindings(names, keys);
    var baseline := FindBaseline(names);
    findings := findings + StaleBaseline(lock, baseline);
    var edited := EditedLoop(files, Entries(lock), baseline);
    var missing := Unrecorded(files, lock);
    var orphans := OrphanLoop(keys, names, baseline);
    var late := LateLoop(names, keys);
    findings := findings + (edited + Tagged(Unlocked, Names(missing)) + orphans + late);
    var updated := BuildUpdated(leq, files, lock, missing, baseline, HasMalformed(lockFindings));
    return CheckResult(findings, missing, updated);
  }
}
