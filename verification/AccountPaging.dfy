/**
 Paging of the grant table by account: the list query, the count query, the row mapper and the page
 arithmetic of the web client.
 */
module AccountPaging {
  import opened Prelude
  import opened Text
  import opened Sorting
  import opened Sequences
  import opened Identity

  datatype Grant = Grant(userId: Option<string>, userEmail: string, account: string, role: string, hidden: Option<bool>)

  /** What the joins contribute: the nickname column of known accounts, and the owner's favourites. */
  datatype Catalog = Catalog(nicknames: map<string, Option<string>>, favorites: set<string>)

  predicate IsVisible(g: Grant, o: Owner, showHidden: bool) {
    OwnerMatches(o, g.userId, g.userEmail) && (showHidden || g.hidden != Some(true))
  }

  function Visible(grants: seq<Grant>, o: Owner, showHidden: bool): seq<Grant> {
    Filter(grants, (g: Grant) => IsVisible(g, o, showHidden))
  }

  /** What a listing is made of: the owner's grants, those granted by id and the older ones granted to the anchor,
      without the hidden ones unless they are asked for, each as often as it is stored. */
  lemma VisibleMeans(grants: seq<Grant>, o: Owner, showHidden: bool, g: Grant)
    ensures multiset(Visible(grants, o, showHidden))[g] ==
            if && ((g.userId.Some? && o.userId.Some? && g.userId.value == o.userId.value)
                   || (g.userId.None? && g.userEmail == o.anchor))
               && (showHidden || g.hidden.None? || !g.hidden.value)
            then multiset(grants)[g] else 0
  {
    FilterCounts(grants, (x: Grant) => IsVisible(x, o, showHidden), g);
  }

  function Accounts(rows: seq<Grant>): seq<string> {
    seq(|rows|, i requires 0 <= i < |rows| => rows[i].account)
  }

  function Nickname(c: Catalog, a: string): Option<string> {
    if a in c.nicknames then c.nicknames[a] else None
  }

  function Label(c: Catalog, a: string): string {
    if Nickname(c, a).Some? then Nickname(c, a).value else a
  }

  /** Favourites first, then accounts with a nickname, then by nickname or id, then by id. */
  predicate Before(c: Catalog, a: string, b: string) {
    if (a in c.favorites) != (b in c.favorites) then a in c.favorites
    else if Nickname(c, a).Some? != Nickname(c, b).Some? then Nickname(c, a).Some?
    else if Label(c, a) != Label(c, b) then Leq(Label(c, a), Label(c, b))
    else Leq(a, b)
  }

  function Order(c: Catalog): (string, string) -> bool {
    (a: string, b: string) => Before(c, a, b)
  }

  /** The final tie-break on the account id makes the listing order total, so paging is well defined. */
  lemma OrderIsTotal(c: Catalog, xs: multiset<string>)
    ensures TotalOn(Order(c), xs)
  {
    forall x, y | x in xs && y in xs ensures Before(c, x, y) || Before(c, y, x) {
      LeqTotal(Label(c, x), Label(c, y));
      LeqTotal(x, y);
    }
    forall x, y | x in xs && y in xs && Before(c, x, y) && Before(c, y, x) ensures x == y {
      if Leq(Label(c, x), Label(c, y)) && Leq(Label(c, y), Label(c, x)) { LeqAntisymmetric(Label(c, x), Label(c, y)); }
      if Leq(x, y) && Leq(y, x) { LeqAntisymmetric(x, y); }
    }
    forall x, y, z | x in xs && y in xs && z in xs && Before(c, x, y) && Before(c, y, z) ensures Before(c, x, z) {
      BeforeIsTransitive(c, x, y, z);
    }
  }

  lemma BeforeIsTransitive(c: Catalog, x: string, y: string, z: string)
    requires Before(c, x, y) && Before(c, y, z)
    ensures Before(c, x, z)
  {
    var lx, ly, lz := Label(c, x), Label(c, y), Label(c, z);
    if Leq(lx, ly) && Leq(ly, lz) {
      LeqTransitive(lx, ly, lz);
      if lx == lz { LeqAntisymmetric(lx, ly); }
    }
    if Leq(x, y) && Leq(y, z) { LeqTransitive(x, y, z); }
  }

  /** The accounts of the list query's subquery, before LIMIT and OFFSET. */
  function Listed(grants: seq<Grant>, c: Catalog, o: Owner, showHidden: bool): seq<string> {
    Sort(Order(c), Distinct(Accounts(Visible(grants, o, showHidden))))
  }

  /** The account has a nickname. */
  predicate Named(c: Catalog, a: string) {
    a in c.nicknames && c.nicknames[a].Some?
  }

  /** The listing shows favourites first, among them and among the rest the accounts that have a nickname first,
      those by nickname, and equal nicknames and the others by account id. */
  lemma ListingOrder(grants: seq<Grant>, c: Catalog, o: Owner, showHidden: bool, i: nat, j: nat)
    requires i < j < |Listed(grants, c, o, showHidden)|
    ensures var a, b := Listed(grants, c, o, showHidden)[i], Listed(grants, c, o, showHidden)[j];
            && (b in c.favorites ==> a in c.favorites)
            && ((a in c.favorites) == (b in c.favorites) ==>
                  && (Named(c, b) ==> Named(c, a))
                  && (Named(c, a) && Named(c, b) ==> Leq(c.nicknames[a].value, c.nicknames[b].value))
                  && (Named(c, a) && Named(c, b) && c.nicknames[a] == c.nicknames[b] ==> Leq(a, b))
                  && (!Named(c, a) && !Named(c, b) ==> Leq(a, b)))
  {
    var distinct := Distinct(Accounts(Visible(grants, o, showHidden)));
    OrderIsTotal(c, multiset(distinct));
    SortSorts(Order(c), distinct, multiset(distinct));
    var a, b := Listed(grants, c, o, showHidden)[i], Listed(grants, c, o, showHidden)[j];
    assert Before(c, a, b);
    LeqTotal(Label(c, a), Label(c, a));
  }

  function Window(accounts: seq<string>, limit: nat, offset: nat): seq<string> {
    accounts[Min(offset, |accounts|)..Min(offset + limit, |accounts|)]
  }

  function InAccounts(accounts: seq<string>): Grant -> bool {
    (g: Grant) => g.account in accounts
  }

  function Keep(rows: seq<Grant>, accounts: seq<string>): seq<Grant> {
    Filter(rows, InAccounts(accounts))
  }

  /** The rows of one page, up to the order the database returns them in. */
  function PageRows(grants: seq<Grant>, c: Catalog, o: Owner, showHidden: bool, limit: nat, offset: nat): seq<Grant> {
    Keep(Visible(grants, o, showHidden), Window(Listed(grants, c, o, showHidden), limit, offset))
  }

  /** `COUNT(DISTINCT aws_account_id)`. */
  function TotalAccounts(grants: seq<Grant>, o: Owner, showHidden: bool): nat {
    |(set g | g in Visible(grants, o, showHidden) :: g.account)|
  }

  lemma ListedAccounts(grants: seq<Grant>, c: Catalog, o: Owner, showHidden: bool)
    ensures var listed := Listed(grants, c, o, showHidden);
            && NoRepeats(listed)
            && |listed| == TotalAccounts(grants, o, showHidden)
            && (forall a :: a in listed <==> exists g :: g in Visible(grants, o, showHidden) && g.account == a)
  {
    var visible := Visible(grants, o, showHidden);
    var distinct := Distinct(Accounts(visible));
    var listed := Listed(grants, c, o, showHidden);
    DistinctHasEachOnce(Accounts(visible));
    SortIsPermutation(Order(c), distinct);
    forall a ensures a in listed <==> exists g :: g in visible && g.account == a {
      assert a in listed <==> a in multiset(listed);
      assert a in distinct <==> a in multiset(distinct);
      if a in Accounts(visible) {
        var i :| 0 <= i < |visible| && Accounts(visible)[i] == a;
        assert visible[i] in visible;
      }
      if g :| g in visible && g.account == a {
        var i :| 0 <= i < |visible| && visible[i] == g;
        assert Accounts(visible)[i] == a;
      }
    }
    NoRepeatsOfPermutation(distinct, listed);
    CountOfNoRepeats(listed);
    assert (set a | a in listed) == (set g | g in visible :: g.account);
  }

  lemma NoRepeatsOfPermutation(a: seq<string>, b: seq<string>)
    requires NoRepeats(a) && multiset(a) == multiset(b)
    ensures NoRepeats(b)
  {
    if i, j :| 0 <= i < j < |b| && b[i] == b[j] {
      var x := b[i];
      assert b == b[..j] + [b[j]] + b[j + 1..];
      assert b[..j][i] == x;
      assert x in multiset(b[..j]);
      assert multiset(b)[x] >= 2;
      MultiplicityOne(a, x);
      assert false;
    }
  }

  lemma {:induction false} MultiplicityOne(a: seq<string>, x: string)
    requires NoRepeats(a)
    ensures multiset(a)[x] <= 1
  {
    if |a| > 0 {
      var n := |a| - 1;
      assert a == a[..n] + [a[n]];
      MultiplicityOne(a[..n], x);
      if a[n] == x {
        assert x !in a[..n];
        assert x !in multiset(a[..n]);
      }
    }
  }

  /* ----- the mapper ----- */

  datatype RoleRow = RoleRow(account: string, role: string, hidden: bool, nickname: Option<string>, favorite: bool)

  datatype AccountEntry = AccountEntry(roles: seq<string>, hiddenRoles: seq<string>, nickname: Option<string>,
                                       favorite: bool)

  function RolesOf(rows: seq<RoleRow>, account: string, hidden: bool): seq<string> {
    if |rows| == 0 then []
    else RolesOf(rows[..|rows| - 1], account, hidden) + RoleIf(rows[|rows| - 1], account, hidden)
  }

  function RoleIf(r: RoleRow, account: string, hidden: bool): seq<string> {
    if r.account == account && r.hidden == hidden then [r.role] else []
  }

  function AddRow(m: map<string, AccountEntry>, row: RoleRow): map<string, AccountEntry> {
    var entry := if row.account in m then m[row.account]
                 else AccountEntry([], [], if Truthy(row.nickname) then row.nickname else None, row.favorite);
    m[row.account := if row.hidden then entry.(hiddenRoles := entry.hiddenRoles + [row.role])
                     else entry.(roles := entry.roles + [row.role])]
  }

  function Mapped(rows: seq<RoleRow>): map<string, AccountEntry> {
    if |rows| == 0 then map[] else AddRow(Mapped(rows[..|rows| - 1]), rows[|rows| - 1])
  }

  /** `mapRowsToAssumableMap`. */
  method MapRows(rows: seq<RoleRow>) returns (m: map<string, AccountEntry>)
    ensures m == Mapped(rows)
  {
    m := map[];
    for i := 0 to |rows|
      invariant m == Mapped(rows[..i])
    {
      var row := rows[i];
      assert rows[..i + 1][..i] == rows[..i];
      if row.account !in m {
        m := m[row.account := AccountEntry([], [], if Truthy(row.nickname) then row.nickname else None, row.favorite)];
      }
      if row.hidden {
        m := m[row.account := m[row.account].(hiddenRoles := m[row.account].hiddenRoles + [row.role])];
      } else {
        m := m[row.account := m[row.account].(roles := m[row.account].roles + [row.role])];
      }
    }
    assert rows[..|rows|] == rows;
  }

  /** The first row of an account. */
  predicate FirstRow(rows: seq<RoleRow>, a: string, i: nat) {
    i < |rows| && rows[i].account == a && forall j :: 0 <= j < i ==> rows[j].account != a
  }

  /** The entry shows this row's nickname, an empty one counting as none, and its favourite mark. */
  predicate Shows(entry: AccountEntry, row: RoleRow) {
    entry.favorite == row.favorite && entry.nickname == if row.nickname == Some("") then None else row.nickname
  }

  /** An entry takes its labels from the account's first row. */
  lemma {:induction false} EntryLabels(rows: seq<RoleRow>, a: string) returns (first: nat)
    requires a in Mapped(rows)
    ensures FirstRow(rows, a, first) && Shows(Mapped(rows)[a], rows[first])
  {
    var n := |rows| - 1;
    var before := rows[..n];
    if a in Mapped(before) {
      first := EntryLabels(before, a);
      assert forall j :: 0 <= j <= first ==> before[j] == rows[j];
    } else {
      first := n;
      MappedEntry(before, a);
      forall j | 0 <= j < n ensures rows[j].account != a { assert before[j] == rows[j]; }
    }
  }

  /** The roles of an account are those of its rows with the given hidden mark, in order. */
  lemma {:induction false} RolesAreItsRows(rows: seq<RoleRow>, a: string, hidden: bool)
    ensures RolesOf(rows, a, hidden)
         == Map(Filter(rows, (r: RoleRow) => r.account == a && r.hidden == hidden), (r: RoleRow) => r.role)
  {
    if |rows| > 0 { RolesAreItsRows(rows[..|rows| - 1], a, hidden); }
  }

  /** One entry per account that has a row, and it lists all of that account's rows and no others. */
  lemma {:induction false} MappedEntry(rows: seq<RoleRow>, a: string)
    ensures a in Mapped(rows) <==> exists i :: 0 <= i < |rows| && rows[i].account == a
    ensures a in Mapped(rows) ==>
              Mapped(rows)[a].roles == RolesOf(rows, a, false) && Mapped(rows)[a].hiddenRoles == RolesOf(rows, a, true)
    ensures a !in Mapped(rows) ==> RolesOf(rows, a, false) == [] && RolesOf(rows, a, true) == []
  {
    if |rows| > 0 {
      var n := |rows| - 1;
      MappedEntry(rows[..n], a);
      assert forall i :: 0 <= i < n ==> rows[..n][i] == rows[i];
      if a in Mapped(rows[..n]) {
        var i :| 0 <= i < n && rows[..n][i].account == a;
        assert rows[i].account == a;
      }
    }
  }

  lemma {:induction false} RolesOfAppends(p: seq<RoleRow>, q: seq<RoleRow>, a: string, hidden: bool)
    ensures RolesOf(p + q, a, hidden) == RolesOf(p, a, hidden) + RolesOf(q, a, hidden)
  {
    if |q| == 0 {
      assert p + q == p;
    } else {
      assert (p + q)[..|p + q| - 1] == p + q[..|q| - 1];
      RolesOfAppends(p, q[..|q| - 1], a, hidden);
    }
  }

  /* ----- page arithmetic ----- */

  function TotalPages(total: int, pageSize: int): nat {
    if pageSize <= 0 || total <= 0 then 0 else (total + pageSize - 1) / pageSize
  }

  datatype Range = Range(from: int, to: int)

  function PageRange(page: int, pageSize: int, total: int): Range {
    if total <= 0 || pageSize <= 0 then Range(0, 0)
    else Range(Min((page - 1) * pageSize + 1, total), Min(page * pageSize, total))
  }

  /** The offset the client asks for. */
  function Offset(page: nat, pageSize: nat): nat
    requires page >= 1
  {
    (page - 1) * pageSize
  }

  lemma CeilingBounds(total: nat, pageSize: nat, page: nat)
    requires pageSize >= 1 && total >= 1
    ensures 1 <= page <= TotalPages(total, pageSize) <==> page >= 1 && (page - 1) * pageSize < total
  {
    var pages := TotalPages(total, pageSize);
    assert pages * pageSize <= total + pageSize - 1 < pages * pageSize + pageSize;
    if 1 <= page <= pages {
      TimesGrows(page - 1, pages - 1, pageSize);
      assert (pages - 1) * pageSize == pages * pageSize - pageSize;
    } else if page > pages {
      TimesGrows(pages, page - 1, pageSize);
    }
  }

  lemma TimesGrows(a: int, b: int, c: nat)
    requires a <= b
    ensures a * c <= b * c
  {
    assert (b - a) * c >= 0;
    assert b * c == a * c + (b - a) * c;
  }

  /** A page of the client is its range of the listed accounts: it starts at `from`, ends at `to`, and is
      empty exactly past the last page. */
  lemma PageIsItsRange(accounts: seq<string>, pageSize: nat, page: nat)
    requires pageSize >= 1 && page >= 1
    ensures var r := PageRange(page, pageSize, |accounts|);
            if page <= TotalPages(|accounts|, pageSize)
            then 1 <= r.from <= r.to <= |accounts|
                 && Window(accounts, pageSize, Offset(page, pageSize)) == accounts[r.from - 1..r.to]
                 && |Window(accounts, pageSize, Offset(page, pageSize))| == r.to - r.from + 1
            else Window(accounts, pageSize, Offset(page, pageSize)) == []
  {
    if |accounts| > 0 { CeilingBounds(|accounts|, pageSize, page); }
    assert page * pageSize == Offset(page, pageSize) + pageSize;
  }

  lemma PageOfIndex(pageSize: nat, i: nat, page: nat)
    requires pageSize >= 1 && page >= 1
    ensures Offset(page, pageSize) <= i < Offset(page, pageSize) + pageSize <==> page == i / pageSize + 1
  {
    var q := i / pageSize;
    assert q * pageSize <= i < q * pageSize + pageSize;
    if page - 1 < q {
      TimesGrows(page, q, pageSize);
      assert page * pageSize == Offset(page, pageSize) + pageSize;
    } else if page - 1 > q {
      TimesGrows(q + 1, page - 1, pageSize);
      assert (q + 1) * pageSize == q * pageSize + pageSize;
    }
  }

  /** Every listed account is on exactly one page of the client's page space. */
  lemma EachAccountOnOnePage(accounts: seq<string>, pageSize: nat, i: nat)
    requires NoRepeats(accounts) && pageSize >= 1 && i < |accounts|
    ensures 1 <= i / pageSize + 1 <= TotalPages(|accounts|, pageSize)
    ensures forall page: nat :: page >= 1 ==>
              (accounts[i] in Window(accounts, pageSize, Offset(page, pageSize)) <==> page == i / pageSize + 1)
  {
    forall page: nat | page >= 1
      ensures accounts[i] in Window(accounts, pageSize, Offset(page, pageSize)) <==> page == i / pageSize + 1
    {
      PageOfIndex(pageSize, i, page);
      var lo, hi := Min(Offset(page, pageSize), |accounts|), Min(Offset(page, pageSize) + pageSize, |accounts|);
      var w := accounts[lo..hi];
      if lo <= i < hi {
        assert w[i - lo] == accounts[i];
      } else {
        forall k | 0 <= k < |w| ensures w[k] != accounts[i] { assert w[k] == accounts[lo + k]; }
      }
    }
    PageOfIndex(pageSize, i, i / pageSize + 1);
    CeilingBounds(|accounts|, pageSize, i / pageSize + 1);
  }

  function OfAccount(a: string): Grant -> bool {
    (g: Grant) => g.account == a
  }

  function RowsOfAccount(rows: seq<Grant>, a: string): seq<Grant> {
    Filter(rows, OfAccount(a))
  }

  lemma KeepIsAllOrNothing(rows: seq<Grant>, accounts: seq<string>, a: string)
    ensures RowsOfAccount(Keep(rows, accounts), a) == if a in accounts then RowsOfAccount(rows, a) else []
  {
    FilterTwice(rows, InAccounts(accounts), OfAccount(a));
    if a in accounts {
      FilterSame(rows, Both(InAccounts(accounts), OfAccount(a)), OfAccount(a));
    } else {
      FilterNone(rows, Both(InAccounts(accounts), OfAccount(a)));
    }
  }

  /** The pages partition the owner's visible accounts: each visible account has exactly one page, that
      page carries every one of its visible rows and no other page carries any, the reported total is the
      number of accounts over all pages, and each page holds as many accounts as its range says. */
  lemma PagesPartitionAccounts(grants: seq<Grant>, c: Catalog, o: Owner, showHidden: bool, pageSize: nat, g: Grant)
    requires pageSize >= 1 && g in Visible(grants, o, showHidden)
    ensures var total := TotalAccounts(grants, o, showHidden);
            var listed := Listed(grants, c, o, showHidden);
            && |listed| == total
            && exists home: nat ::
                 && 1 <= home <= TotalPages(total, pageSize)
                 && |Window(listed, pageSize, Offset(home, pageSize))|
                    == PageRange(home, pageSize, total).to - PageRange(home, pageSize, total).from + 1
                 && forall page: nat :: page >= 1 ==>
                      RowsOfAccount(PageRows(grants, c, o, showHidden, pageSize, Offset(page, pageSize)), g.account)
                      == if page == home then RowsOfAccount(Visible(grants, o, showHidden), g.account) else []
  {
    var listed := Listed(grants, c, o, showHidden);
    ListedAccounts(grants, c, o, showHidden);
    assert g.account in listed;
    var i :| 0 <= i < |listed| && listed[i] == g.account;
    EachAccountOnOnePage(listed, pageSize, i);
    var home := i / pageSize + 1;
    PageIsItsRange(listed, pageSize, home);
    forall page: nat | page >= 1
      ensures RowsOfAccount(PageRows(grants, c, o, showHidden, pageSize, Offset(page, pageSize)), g.account)
           == if page == home then RowsOfAccount(Visible(grants, o, showHidden), g.account) else []
    {
      KeepIsAllOrNothing(Visible(grants, o, showHidden), Window(listed, pageSize, Offset(page, pageSize)), g.account);
    }
  }

  /* ----- from the rows of a page to its map ----- */

  function ToRow(g: Grant, c: Catalog): RoleRow {
    RoleRow(g.account, g.role, g.hidden == Some(true), Nickname(c, g.account), g.account in c.favorites)
  }

  function ToRows(rows: seq<Grant>, c: Catalog): seq<RoleRow> {
    seq(|rows|, i requires 0 <= i < |rows| => ToRow(rows[i], c))
  }

  lemma RolesWithout(q: seq<RoleRow>, i: nat, a: string, hidden: bool)
    requires i < |q|
    ensures multiset(RolesOf(q, a, hidden))
            == multiset(RoleIf(q[i], a, hidden)) + multiset(RolesOf(q[..i] + q[i + 1..], a, hidden))
  {
    var x := q[i];
    assert q == q[..i] + ([x] + q[i + 1..]);
    RolesOfAppends(q[..i], [x] + q[i + 1..], a, hidden);
    RolesOfAppends([x], q[i + 1..], a, hidden);
    RolesOfAppends(q[..i], q[i + 1..], a, hidden);
    assert RolesOf([x], a, hidden) == RoleIf(x, a, hidden) by { assert [x][..0] == []; }
  }

  lemma RowsWithout(q: seq<RoleRow>, i: nat)
    requires i < |q|
    ensures multiset(q[..i] + q[i + 1..]) == multiset(q) - multiset{q[i]}
  {
    assert q == q[..i] + [q[i]] + q[i + 1..];
  }

  lemma {:induction false} RolesIgnoreOrder(p: seq<RoleRow>, q: seq<RoleRow>, a: string, hidden: bool)
    requires multiset(p) == multiset(q)
    ensures multiset(RolesOf(p, a, hidden)) == multiset(RolesOf(q, a, hidden))
    decreases |p|
  {
    assert |multiset(p)| == |multiset(q)|;
    if |p| > 0 {
      var n := |p| - 1;
      assert p[n] in multiset(q);
      var i :| 0 <= i < |q| && q[i] == p[n];
      RowsWithout(p, n);
      RowsWithout(q, i);
      assert p[..n] + p[n + 1..] == p[..n];
      RolesIgnoreOrder(p[..n], q[..i] + q[i + 1..], a, hidden);
      RolesWithout(q, i, a, hidden);
    }
  }

  lemma {:induction false} RolesAreTheAccountsRows(rows: seq<Grant>, c: Catalog, a: string, hidden: bool)
    ensures RolesOf(ToRows(rows, c), a, hidden) == RolesOf(ToRows(RowsOfAccount(rows, a), c), a, hidden)
  {
    if |rows| > 0 {
      var n := |rows| - 1;
      RolesAreTheAccountsRows(rows[..n], c, a, hidden);
      assert ToRows(rows, c)[..n] == ToRows(rows[..n], c);
      var mine := RowsOfAccount(rows[..n], a);
      if rows[n].account == a {
        var longer := ToRows(mine + [rows[n]], c);
        assert longer[..|longer| - 1] == ToRows(mine, c) && longer[|longer| - 1] == ToRow(rows[n], c);
        assert RowsOfAccount(rows, a) == mine + [rows[n]];
      } else {
        assert RowsOfAccount(rows, a) == mine;
      }
    }
  }

  /** The map of a page, in whatever order its rows come back: an account listed on the page has all of
      its visible roles, split into shown and hidden ones, and an account off the page has none. */
  lemma PageMapCarriesAllRoles(grants: seq<Grant>, c: Catalog, o: Owner, showHidden: bool, limit: nat, offset: nat,
                               rows: seq<RoleRow>, a: string, hidden: bool)
    requires multiset(rows) == multiset(ToRows(PageRows(grants, c, o, showHidden, limit, offset), c))
    ensures multiset(RolesOf(rows, a, hidden)) ==
            if a in Window(Listed(grants, c, o, showHidden), limit, offset)
            then multiset(RolesOf(ToRows(Visible(grants, o, showHidden), c), a, hidden))
            else multiset{}
  {
    var visible := Visible(grants, o, showHidden);
    var window := Window(Listed(grants, c, o, showHidden), limit, offset);
    var page := Keep(visible, window);
    RolesIgnoreOrder(rows, ToRows(page, c), a, hidden);
    RolesAreTheAccountsRows(page, c, a, hidden);
    RolesAreTheAccountsRows(visible, c, a, hidden);
    KeepIsAllOrNothing(visible, window, a);
  }

  /** And the mapper builds an entry for exactly the accounts listed on the page. */
  lemma PageMapHasThePagesAccounts(grants: seq<Grant>, c: Catalog, o: Owner, showHidden: bool, limit: nat, offset: nat,
                                   rows: seq<RoleRow>, a: string)
    requires multiset(rows) == multiset(ToRows(PageRows(grants, c, o, showHidden, limit, offset), c))
    ensures a in Mapped(rows) <==> a in Window(Listed(grants, c, o, showHidden), limit, offset)
  {
    var visible := Visible(grants, o, showHidden);
    var window := Window(Listed(grants, c, o, showHidden), limit, offset);
    var kept := Keep(visible, window);
    var page := ToRows(kept, c);
    MappedEntry(rows, a);
    FilterHas(visible, InAccounts(window));
    ListedAccounts(grants, c, o, showHidden);
    if a in Mapped(rows) {
      var i :| 0 <= i < |rows| && rows[i].account == a;
      assert rows[i] in multiset(page);
      var j :| 0 <= j < |page| && page[j] == rows[i];
      assert kept[j] in kept;
    }
    if a in window {
      assert a in Listed(grants, c, o, showHidden);
      var g :| g in visible && g.account == a;
      assert g in kept;
      var j :| 0 <= j < |kept| && kept[j] == g;
      assert page[j] in multiset(rows);
      var i :| 0 <= i < |rows| && rows[i] == page[j];
    }
  }

  /** The grants of an account and role, hidden or not, that the owner may see. */
  ghost function Granted(grants: seq<Grant>, o: Owner, showHidden: bool, a: string, role: string, hidden: bool)
    : set<int>
  {
    set i | 0 <= i < |grants| && GrantIs(grants[i], o, showHidden, a, role, hidden)
  }

  predicate GrantIs(g: Grant, o: Owner, showHidden: bool, a: string, role: string, hidden: bool) {
    && g.account == a && g.role == role && (g.hidden == Some(true)) == hidden && (showHidden || !hidden)
    && match g.userId
       case Some(id) => o.userId == Some(id)
       case None => g.userEmail == o.anchor
  }

  lemma GrantedSnoc(grants: seq<Grant>, o: Owner, showHidden: bool, a: string, role: string, hidden: bool)
    requires |grants| > 0
    ensures var n := |grants| - 1;
            |Granted(grants, o, showHidden, a, role, hidden)|
                == |Granted(grants[..n], o, showHidden, a, role, hidden)|
                   + (if GrantIs(grants[n], o, showHidden, a, role, hidden) then 1 else 0)
  {
    var n := |grants| - 1;
    assert Granted(grants, o, showHidden, a, role, hidden)
        == Granted(grants[..n], o, showHidden, a, role, hidden)
           + (if GrantIs(grants[n], o, showHidden, a, role, hidden) then {n} else {});
  }

  lemma RolesSnoc(before: seq<Grant>, g: Grant, c: Catalog, a: string, role: string, hidden: bool)
    ensures multiset(RolesOf(ToRows(before + [g], c), a, hidden))[role]
         == multiset(RolesOf(ToRows(before, c), a, hidden))[role]
            + (if g.account == a && g.role == role && (g.hidden == Some(true)) == hidden then 1 else 0)
  {
    var rows := ToRows(before + [g], c);
    assert rows[..|rows| - 1] == ToRows(before, c) && rows[|rows| - 1] == ToRow(g, c);
  }

  lemma {:induction false} RolesCount(grants: seq<Grant>, c: Catalog, o: Owner, showHidden: bool, a: string,
                                      role: string, hidden: bool)
    ensures multiset(RolesOf(ToRows(Visible(grants, o, showHidden), c), a, hidden))[role]
         == |Granted(grants, o, showHidden, a, role, hidden)|
  {
    if |grants| == 0 {
      assert Granted(grants, o, showHidden, a, role, hidden) == {};
    } else {
      var n := |grants| - 1;
      var before, g := Visible(grants[..n], o, showHidden), grants[n];
      RolesCount(grants[..n], c, o, showHidden, a, role, hidden);
      GrantedSnoc(grants, o, showHidden, a, role, hidden);
      RolesSnoc(before, g, c, a, role, hidden);
      assert Visible(grants, o, showHidden) == before + (if IsVisible(g, o, showHidden) then [g] else []);
      assert before + [] == before;
    }
  }

  /** What the page shows of an account listed on it: each role as often as it is granted, in the shown or the
      hidden list as it is marked, the account's nickname, and whether it is a favourite. */
  lemma PageMapShowsGrants(grants: seq<Grant>, c: Catalog, o: Owner, showHidden: bool, limit: nat, offset: nat,
                           rows: seq<RoleRow>, a: string, role: string)
    requires multiset(rows) == multiset(ToRows(PageRows(grants, c, o, showHidden, limit, offset), c))
    requires a in Window(Listed(grants, c, o, showHidden), limit, offset)
    ensures a in Mapped(rows)
    ensures multiset(Mapped(rows)[a].roles)[role] == |Granted(grants, o, showHidden, a, role, false)|
    ensures multiset(Mapped(rows)[a].hiddenRoles)[role] == |Granted(grants, o, showHidden, a, role, true)|
    ensures Mapped(rows)[a].favorite <==> a in c.favorites
    ensures Mapped(rows)[a].nickname == if a in c.nicknames && c.nicknames[a] != Some("") then c.nicknames[a] else None
  {
    PageMapHasThePagesAccounts(grants, c, o, showHidden, limit, offset, rows, a);
    MappedEntry(rows, a);
    forall hidden
      ensures multiset(RolesOf(rows, a, hidden))[role] == |Granted(grants, o, showHidden, a, role, hidden)|
    {
      PageMapCarriesAllRoles(grants, c, o, showHidden, limit, offset, rows, a, hidden);
      RolesCount(grants, c, o, showHidden, a, role, hidden);
    }
    var first := EntryLabels(rows, a);
    RowComesFromGrant(PageRows(grants, c, o, showHidden, limit, offset), c, rows, first);
  }

  lemma RowComesFromGrant(page: seq<Grant>, c: Catalog, rows: seq<RoleRow>, i: nat)
    requires multiset(rows) == multiset(ToRows(page, c)) && i < |rows|
    ensures rows[i].nickname == Nickname(c, rows[i].account) && (rows[i].favorite <==> rows[i].account in c.favorites)
  {
    assert rows[i] in multiset(ToRows(page, c));
    var j :| 0 <= j < |page| && ToRows(page, c)[j] == rows[i];
  }

  /** Whatever order the database groups in, the listing is the one sorted arrangement of the accounts. */
  lemma ListingIsDetermined(grants: seq<Grant>, c: Catalog, o: Owner, showHidden: bool, other: seq<string>)
    requires NoRepeats(other) && forall a :: a in other <==> a in Accounts(Visible(grants, o, showHidden))
    requires SortedBy(Order(c), other)
    ensures other == Listed(grants, c, o, showHidden)
  {
    var distinct := Distinct(Accounts(Visible(grants, o, showHidden)));
    DistinctHasEachOnce(Accounts(Visible(grants, o, showHidden)));
    forall x ensures multiset(other)[x] == multiset(distinct)[x] {
      MultiplicityOne(other, x);
      MultiplicityOne(distinct, x);
      assert x in multiset(other) <==> x in other;
      assert x in multiset(distinct) <==> x in distinct;
    }
    assert multiset(other) == multiset(distinct);
    OrderIsTotal(c, multiset(other));
    SortForgetsOrder(Order(c), other, distinct);
    SortOfSorted(Order(c), other);
  }
}
