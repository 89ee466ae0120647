/** Account statements: one keyset page per request, newest first, and the cursor rule that
    chains the pages. */
module Statement {
  import opened Wrappers

  const MAX_PAGE: nat := 200
  const DEFAULT_PAGE: nat := 200

  /** One ledger leg; `seqNo` is its key, an identity that starts at 1. */
  datatype Leg = Leg(seqNo: int, acctNo: string, postDate: int, amount: string)

  /** Legs by seq_no (those the query's join reaches), and the account numbers that exist. */
  datatype Ledger = Ledger(legs: map<int, Leg>, accounts: set<string>) {
    ghost predicate Valid() {
      forall n :: n in legs ==> 0 < n && legs[n].seqNo == n && legs[n].acctNo in accounts
    }
  }

  datatype Query = Query(acctNo: string, limit: int, beforeSeq: Option<int>, dateFrom: Option<int>, dateTo: Option<int>)

  /** The repository's own bound on the limit. */
  function SafeLimit(limit: int): (n: nat)
    ensures 1 <= n <= MAX_PAGE
  {
    if limit <= 0 then DEFAULT_PAGE else if limit > MAX_PAGE then MAX_PAGE else limit
  }

  predicate Selects(q: Query, l: Leg) {
    && l.acctNo == q.acctNo
    && (q.dateFrom.Some? ==> l.postDate >= q.dateFrom.value)
    && (q.dateTo.Some? ==> l.postDate <= q.dateTo.value)
  }

  /** The legs of the whole statement, whatever the cursor. */
  function Matching(ledger: Ledger, q: Query): set<int> {
    set n | n in ledger.legs && Selects(q, ledger.legs[n])
  }

  function Below(ids: set<int>, before: Option<int>): set<int> {
    set n | n in ids && (before.Some? ==> n < before.value)
  }

  // ----- Descending order ------------------------------------------------------------------

  predicate IsGreatest(m: int, ids: set<int>) {
    m in ids && forall n :: n in ids ==> n <= m
  }

  lemma {:induction false} GreatestExists(ids: set<int>, m: int)
    requires m in ids
    ensures exists g :: IsGreatest(g, ids)
    decreases |ids|
  {
    if n :| n in ids && n > m {
      var rest := ids - {m};
      GreatestExists(rest, n);
      var g :| IsGreatest(g, rest);
      forall x | x in ids ensures x <= g {
        assert n in rest;
        assert x == m || x in rest;
      }
      assert IsGreatest(g, ids);
    } else {
      assert IsGreatest(m, ids);
    }
  }

  lemma GreatestIsUnique(m: int, n: int, ids: set<int>)
    requires IsGreatest(m, ids) && IsGreatest(n, ids)
    ensures m == n
  {
  }

  ghost function Greatest(ids: set<int>): (m: int)
    requires exists n :: n in ids
    ensures IsGreatest(m, ids)
  {
    var some :| some in ids;
    GreatestExists(ids, some);
    var m :| IsGreatest(m, ids); m
  }

  /** The whole statement in one sorted scan. */
  ghost function Descending(ids: set<int>): seq<int> {
    if exists n :: n in ids then [Greatest(ids)] + Descending(ids - {Greatest(ids)}) else []
  }

  ghost predicate StrictlyDown(s: seq<int>) {
    forall i, j :: 0 <= i < j < |s| ==> s[i] > s[j]
  }

  lemma {:induction false} DescendingIsSorted(ids: set<int>)
    ensures StrictlyDown(Descending(ids)) && |Descending(ids)| == |ids|
    ensures forall n :: n in Descending(ids) <==> n in ids
    decreases |ids|
  {
    if exists n :: n in ids {
      var g := Greatest(ids);
      var d := Descending(ids - {g});
      DescendingIsSorted(ids - {g});
      forall i | 0 <= i < |d| ensures d[i] < g {
        assert d[i] in d;
      }
    } else {
      assert ids == {};
    }
  }

  /** A strictly descending listing of a set is the sorted scan. */
  lemma {:induction false} DescendingIsUnique(s: seq<int>, ids: set<int>)
    requires StrictlyDown(s) && forall n :: n in s <==> n in ids
    ensures s == Descending(ids)
    decreases |s|
  {
    if s == [] {
      assert forall n :: n !in ids;
    } else {
      assert s[0] in s;
      assert s[0] in ids;
      assert Greatest(ids) in s;
      assert Greatest(ids) == s[0];
      forall n ensures n in s[1..] <==> n in ids - {s[0]} {
        if n in ids && n != s[0] {
          assert n in s;
        }
      }
      DescendingIsUnique(s[1..], ids - {s[0]});
      assert s == [s[0]] + s[1..];
    }
  }

  function Take<T>(s: seq<T>, n: nat): seq<T> {
    if n < |s| then s[..n] else s
  }

  /** ORDER BY seq_no DESC LIMIT, below the cursor. */
  ghost function Page(ids: set<int>, limit: nat, before: Option<int>): seq<int> {
    Take(Descending(Below(ids, before)), limit)
  }

  // ----- Following the cursor --------------------------------------------------------------

  /** The next page's cursor: the last key of a page as long as the limit the response saw. */
  function NextCursor(limit: int, page: seq<int>): Option<int> {
    if limit > 0 && |page| == limit then Some(page[|page| - 1]) else None
  }

  /** All pages from `before` on, in one listing: the repository cuts at its own bound while the
      cursor rule compares with the limit the response was given. */
  ghost function Follow(ids: set<int>, limit: nat, before: Option<int>): seq<int>
    requires limit >= 1
    decreases |Below(ids, before)|
  {
    var page := Page(ids, SafeLimit(limit), before);
    var cursor := NextCursor(limit, page);
    if cursor.None? then page
    else
      CursorShrinks(ids, SafeLimit(limit), before);
      page + Follow(ids, limit, cursor)
  }

  lemma CursorShrinks(ids: set<int>, limit: nat, before: Option<int>)
    requires Page(ids, limit, before) != []
    ensures var page := Page(ids, limit, before);
            Below(ids, Some(page[|page| - 1])) < Below(ids, before)
    ensures var page := Page(ids, limit, before);
            |Below(ids, Some(page[|page| - 1]))| < |Below(ids, before)|
  {
    var all, page := Descending(Below(ids, before)), Page(ids, limit, before);
    DescendingIsSorted(Below(ids, before));
    var last := page[|page| - 1];
    assert last in all;
    assert last in Below(ids, before) && last !in Below(ids, Some(last));
    SmallerSubset(Below(ids, Some(last)), Below(ids, before), last);
  }

  lemma SmallerSubset(a: set<int>, b: set<int>, x: int)
    requires a <= b && x in b && x !in a
    ensures a < b && |a| < |b|
  {
    var rest := b - {x};
    assert a <= rest;
    SubsetSize(a, rest);
  }

  // ----- Completeness ------------------------------------------------------------------------

  lemma BelowMember(ids: set<int>, before: Option<int>, x: int)
    requires x in Below(ids, before)
    ensures forall n :: n in Below(ids, Some(x)) <==> n in Below(ids, before) && n < x
  {
  }

  lemma TailIsBelow(s: seq<int>, k: nat)
    requires StrictlyDown(s) && 0 < k <= |s|
    ensures StrictlyDown(s[k..])
    ensures forall n :: n in s[k..] <==> n in s && n < s[k - 1]
  {
    forall n | n in s && n < s[k - 1] ensures n in s[k..] {
      var i :| 0 <= i < |s| && s[i] == n;
      assert i >= k;
      assert s[k..][i - k] == n;
    }
  }

  /** What a sorted listing holds after its k-th key is the scan of the smaller keys. */
  lemma TailIsScan(s: seq<int>, ids: set<int>, k: nat, lower: set<int>)
    requires StrictlyDown(s) && (forall n :: n in s <==> n in ids) && 0 < k <= |s|
    requires forall n :: n in lower <==> n in ids && n < s[k - 1]
    ensures s == s[..k] + Descending(lower)
  {
    TailIsBelow(s, k);
    DescendingIsUnique(s[k..], lower);
    assert s == s[..k] + s[k..];
  }

  /** The scan below a cursor is a first page and the scan below that page's last key. */
  lemma PageSplitsScan(ids: set<int>, limit: nat, before: Option<int>)
    requires Page(ids, limit, before) != []
    ensures var page := Page(ids, limit, before);
            Descending(Below(ids, before)) == page + Descending(Below(ids, Some(page[|page| - 1])))
  {
    var below := Below(ids, before);
    var all, page := Descending(below), Page(ids, limit, before);
    DescendingIsSorted(below);
    var last := page[|page| - 1];
    assert page == all[..|page|] && last == all[|page| - 1];
    assert last in all;
    BelowMember(ids, before, last);
    TailIsScan(all, below, |page|, Below(ids, Some(last)));
  }

  /** Following the cursor lists the whole statement, every leg once in descending order, exactly
      when the limit the response compares with is within the repository's bound or one page
      already holds everything. (The statement handler clamps its limit, so it always does; the
      manual journal handler does not.) */
  lemma {:induction false} FollowIsScan(ids: set<int>, limit: nat, before: Option<int>)
    requires limit >= 1
    ensures Follow(ids, limit, before) == Descending(Below(ids, before))
            <==> limit <= MAX_PAGE || |Below(ids, before)| <= MAX_PAGE
    decreases |Below(ids, before)|
  {
    var page := Page(ids, SafeLimit(limit), before);
    DescendingIsSorted(Below(ids, before));
    if NextCursor(limit, page).Some? {
      CursorShrinks(ids, SafeLimit(limit), before);
      PageSplitsScan(ids, SafeLimit(limit), before);
      FollowIsScan(ids, limit, NextCursor(limit, page));
    }
  }

  /** A manual-journal request for 201 entries per page stops after 200 of 201. */
  lemma UnclampedLimitTruncates(ids: set<int>)
    requires |ids| == 201
    ensures |Follow(ids, 201, None)| == 200
  {
    assert Below(ids, None) == ids;
    DescendingIsSorted(ids);
  }

  // ----- Pages of a growing ledger -------------------------------------------------------------

  /** Legs are only ever added. */
  ghost predicate Grows(idsAt: nat -> set<int>) {
    forall j, k, n :: j <= k && n in idsAt(j) ==> n in idsAt(k) && 0 < n
  }

  /** Following the cursor while the ledger grows: page `k` reads the ledger as it is then. */
  ghost function FollowGrowing(idsAt: nat -> set<int>, k: nat, limit: nat, before: nat): seq<int>
    requires Grows(idsAt)
    decreases before
  {
    var page := Page(idsAt(k), limit, Some(before));
    if |page| == limit > 0 then
      PageIsBelow(idsAt(k), limit, Some(before));
      page + FollowGrowing(idsAt, k + 1, limit, page[|page| - 1])
    else page
  }

  ghost function ReadGrowing(idsAt: nat -> set<int>, limit: nat): seq<int>
    requires Grows(idsAt)
  {
    var page := Page(idsAt(0), limit, None);
    if |page| == limit > 0 then
      PageIsBelow(idsAt(0), limit, None);
      page + FollowGrowing(idsAt, 1, limit, page[|page| - 1])
    else page
  }

  lemma PageIsBelow(ids: set<int>, limit: nat, before: Option<int>)
    ensures var page := Page(ids, limit, before);
            && StrictlyDown(page)
            && forall n :: n in page ==> n in Below(ids, before)
    ensures forall i :: 0 <= i < |Page(ids, limit, before)| ==> Page(ids, limit, before)[i] in Below(ids, before)
  {
    DescendingIsSorted(Below(ids, before));
    var all, page := Descending(Below(ids, before)), Page(ids, limit, before);
    forall n | n in page ensures n in all {
    }
  }

  /** A page holds every key at or above its last one; a short page holds them all. */
  lemma PageIsComplete(ids: set<int>, limit: nat, before: Option<int>, n: int)
    requires n in Below(ids, before)
    ensures var page := Page(ids, limit, before);
            n in page || (|page| == limit && (limit > 0 ==> n < page[|page| - 1]))
  {
    var all, page := Descending(Below(ids, before)), Page(ids, limit, before);
    DescendingIsSorted(Below(ids, before));
    assert n in all;
    var i :| 0 <= i < |all| && all[i] == n;
    if i < |page| {
      assert page[i] == n;
    }
  }

  lemma {:induction false} FollowGrowingLists(idsAt: nat -> set<int>, k: nat, limit: nat, before: nat)
    requires Grows(idsAt) && limit >= 1
    ensures StrictlyDown(FollowGrowing(idsAt, k, limit, before))
    ensures forall n :: n in FollowGrowing(idsAt, k, limit, before) ==> n < before && exists j :: n in idsAt(j)
    ensures forall n :: n in idsAt(k) && n < before ==> n in FollowGrowing(idsAt, k, limit, before)
    decreases before
  {
    var page := Page(idsAt(k), limit, Some(before));
    PageIsBelow(idsAt(k), limit, Some(before));
    if |page| == limit {
      FollowGrowingLists(idsAt, k + 1, limit, page[|page| - 1]);
      JoinDown(page, FollowGrowing(idsAt, k + 1, limit, page[|page| - 1]));
    }
    forall n | n in idsAt(k) && n < before ensures n in FollowGrowing(idsAt, k, limit, before) {
      PageIsComplete(idsAt(k), limit, Some(before), n);
      assert n in idsAt(k + 1);
    }
  }

  lemma JoinDown(a: seq<int>, b: seq<int>)
    requires a != [] && StrictlyDown(a) && StrictlyDown(b)
    requires forall n :: n in b ==> n < a[|a| - 1]
    ensures StrictlyDown(a + b)
  {
    forall i, j | 0 <= i < j < |a + b| ensures (a + b)[i] > (a + b)[j] {
      if j >= |a| {
        assert b[j - |a|] in b;
      }
    }
  }

  /** With the ledger growing between pages, no leg is returned twice and every leg that was
      there at the start is returned. */
  lemma GrowingReadMissesNothing(idsAt: nat -> set<int>, limit: nat)
    requires Grows(idsAt) && limit >= 1
    ensures StrictlyDown(ReadGrowing(idsAt, limit))
    ensures forall n :: n in idsAt(0) ==> n in ReadGrowing(idsAt, limit)
    ensures forall n :: n in ReadGrowing(idsAt, limit) ==> exists j :: n in idsAt(j)
  {
    var page := Page(idsAt(0), limit, None);
    PageIsBelow(idsAt(0), limit, None);
    if |page| == limit {
      FollowGrowingLists(idsAt, 1, limit, page[|page| - 1]);
      JoinDown(page, FollowGrowing(idsAt, 1, limit, page[|page| - 1]));
    }
    forall n | n in idsAt(0) ensures n in ReadGrowing(idsAt, limit) {
      EarlyLegIsRead(idsAt, limit, n);
    }
    forall n | n in ReadGrowing(idsAt, limit) ensures exists j :: n in idsAt(j) {
      if n in page {
        assert n in idsAt(0);
      }
    }
  }

  lemma EarlyLegIsRead(idsAt: nat -> set<int>, limit: nat, n: int)
    requires Grows(idsAt) && limit >= 1 && n in idsAt(0)
    ensures n in ReadGrowing(idsAt, limit)
  {
    var page := Page(idsAt(0), limit, None);
    PageIsBelow(idsAt(0), limit, None);
    PageIsComplete(idsAt(0), limit, None, n);
    if |page| == limit {
      FollowGrowingLists(idsAt, 1, limit, page[|page| - 1]);
      assert n in idsAt(1);
    }
  }

  /** Legs added above the ones already there do not show: the pages still add up to the scan
      of the ledger as it was for the first page. */
  lemma NewerLegsDoNotShow(idsAt: nat -> set<int>, limit: nat)
    requires Grows(idsAt) && limit >= 1
    requires forall j, n, m :: n in idsAt(j) && n !in idsAt(0) && m in idsAt(0) ==> n > m
    ensures ReadGrowing(idsAt, limit) == Descending(idsAt(0))
  {
    GrowingReadMissesNothing(idsAt, limit);
    var page := Page(idsAt(0), limit, None);
    PageIsBelow(idsAt(0), limit, None);
    forall n | n in ReadGrowing(idsAt, limit) ensures n in idsAt(0) {
      if n !in page {
        FollowGrowingLists(idsAt, 1, limit, page[|page| - 1]);
        assert page[|page| - 1] in idsAt(0);
      }
    }
    DescendingIsUnique(ReadGrowing(idsAt, limit), idsAt(0));
  }

  // ----- The endpoint --------------------------------------------------------------------------

  function Keys(rows: seq<Leg>): (keys: seq<int>)
    ensures |keys| == |rows| && forall i :: 0 <= i < |rows| ==> keys[i] == rows[i].seqNo
  {
    seq(|rows|, i requires 0 <= i < |rows| => rows[i].seqNo)
  }

  lemma KeysAppend(a: seq<Leg>, b: seq<Leg>)
    ensures Keys(a + b) == Keys(a) + Keys(b)
  {
  }

  lemma OneMoreRow(all: seq<int>, rows: seq<Leg>, leg: Leg, pool: set<int>)
    requires all == Keys(rows) + Descending(pool) && IsGreatest(leg.seqNo, pool)
    ensures all == Keys(rows + [leg]) + Descending(pool - {leg.seqNo})
  {
    hide Keys;
    hide IsGreatest;
    var n := leg.seqNo;
    NextOfScan(pool, n);
    KeysAppend(rows, [leg]);
    assert Keys([leg]) == [n];
    assert Keys(rows) + ([n] + Descending(pool - {n})) == (Keys(rows) + [n]) + Descending(pool - {n});
  }

  lemma NextOfScan(ids: set<int>, n: int)
    requires IsGreatest(n, ids)
    ensures Descending(ids) == [n] + Descending(ids - {n})
  {
    assert n in ids;
    GreatestIsUnique(n, Greatest(ids), ids);
  }

  lemma PageIsDone(all: seq<int>, rows: seq<Leg>, pool: set<int>, limit: nat)
    requires all == Keys(rows) + Descending(pool)
    requires |rows| == limit || (|rows| < limit && forall n :: n !in pool)
    ensures Keys(rows) == Take(all, limit)
  {
    assert |rows| < limit ==> Descending(pool) == [];
  }

  /** The server's evaluation of the page query. */
  method SelectRows(ledger: Ledger, q: Query, limit: nat) returns (rows: seq<Leg>)
    requires ledger.Valid()
    ensures Keys(rows) == Page(Matching(ledger, q), limit, q.beforeSeq)
    ensures forall l :: l in rows ==> l.seqNo in ledger.legs && ledger.legs[l.seqNo] == l
  {
    hide Descending;
    hide Keys;
    hide IsGreatest;
    rows := [];
    var pool := Below(Matching(ledger, q), q.beforeSeq);
    ghost var all := Descending(pool);
    assert all == Keys(rows) + all;
    while |rows| < limit && exists n :: n in pool
      invariant |rows| <= limit
      invariant forall n :: n in pool ==> n in ledger.legs
      invariant forall l :: l in rows ==> l.seqNo in ledger.legs && ledger.legs[l.seqNo] == l
      invariant all == Keys(rows) + Descending(pool)
      decreases |pool|
    {
      GreatestOf(pool);
      var n :| IsGreatest(n, pool);
      IsMember(n, pool);
      OneMoreRow(all, rows, ledger.legs[n], pool);
      rows := rows + [ledger.legs[n]];
      pool := pool - {n};
    }
    PageIsDone(all, rows, pool, limit);
  }

  lemma GreatestOf(ids: set<int>)
    requires exists n :: n in ids
    ensures exists n :: IsGreatest(n, ids)
  {
    assert IsGreatest(Greatest(ids), ids);
  }

  lemma IsMember(n: int, ids: set<int>)
    requires IsGreatest(n, ids)
    ensures n in ids
  {
  }

  /** A page, leg by leg: legs of the ledger of that account, within the dates and below the cursor,
      newest first, up to the limit; a leg that qualifies and is missing had to give way to a full
      page of newer ones. */
  lemma PageInFields(ledger: Ledger, q: Query, limit: nat, rows: seq<Leg>)
    requires ledger.Valid() && Keys(rows) == Page(Matching(ledger, q), limit, q.beforeSeq)
    requires forall l :: l in rows ==> l.seqNo in ledger.legs && ledger.legs[l.seqNo] == l
    ensures |rows| <= limit
    ensures forall i, j :: 0 <= i < j < |rows| ==> rows[i].seqNo > rows[j].seqNo
    ensures forall l :: l in rows ==>
              && l.acctNo == q.acctNo && (q.beforeSeq.None? || l.seqNo < q.beforeSeq.value)
              && (q.dateFrom.None? || q.dateFrom.value <= l.postDate)
              && (q.dateTo.None? || l.postDate <= q.dateTo.value)
    ensures forall n ::
              && n in ledger.legs && ledger.legs[n] !in rows
              && ledger.legs[n].acctNo == q.acctNo && (q.beforeSeq.None? || n < q.beforeSeq.value)
              && (q.dateFrom.None? || q.dateFrom.value <= ledger.legs[n].postDate)
              && (q.dateTo.None? || ledger.legs[n].postDate <= q.dateTo.value) ==>
                |rows| == limit && forall l :: l in rows ==> n < l.seqNo
  {
    hide Matching;
    hide Below;
    hide Page;
    hide Keys;
    BelowInFields(ledger, q);
    var ids := Matching(ledger, q);
    PageIsBelow(ids, limit, q.beforeSeq);
    PageLength(ids, limit, q.beforeSeq);
    forall l | l in rows ensures l.seqNo in Below(ids, q.beforeSeq) {
      var i :| 0 <= i < |rows| && rows[i] == l;
      assert Keys(rows)[i] in Keys(rows);
    }
    forall n | n in Below(ids, q.beforeSeq) && ledger.legs[n] !in rows
      ensures |rows| == limit && forall l :: l in rows ==> n < l.seqNo
    {
      MissingLeg(ledger, q, limit, rows, n);
    }
  }

  lemma PageLength(ids: set<int>, limit: nat, before: Option<int>)
    ensures |Page(ids, limit, before)| <= limit
  {
  }

  lemma BelowInFields(ledger: Ledger, q: Query)
    ensures forall n ::
              n in Below(Matching(ledger, q), q.beforeSeq)
              <==> && n in ledger.legs
                   && ledger.legs[n].acctNo == q.acctNo && (q.beforeSeq.None? || n < q.beforeSeq.value)
                   && (q.dateFrom.None? || q.dateFrom.value <= ledger.legs[n].postDate)
                   && (q.dateTo.None? || ledger.legs[n].postDate <= q.dateTo.value)
  {
  }

  lemma MissingLeg(ledger: Ledger, q: Query, limit: nat, rows: seq<Leg>, n: int)
    requires ledger.Valid() && Keys(rows) == Page(Matching(ledger, q), limit, q.beforeSeq)
    requires forall l :: l in rows ==> l.seqNo in ledger.legs && ledger.legs[l.seqNo] == l
    requires n in ledger.legs && n in Below(Matching(ledger, q), q.beforeSeq) && ledger.legs[n] !in rows
    ensures |rows| == limit && forall l :: l in rows ==> n < l.seqNo
  {
    hide Matching;
    hide Below;
    hide Page;
    hide Keys;
    hide StrictlyDown;
    PageIsBelow(Matching(ledger, q), limit, q.beforeSeq);
    PageIsComplete(Matching(ledger, q), limit, q.beforeSeq, n);
    UnlistedKey(ledger, rows, n);
    if rows != [] {
      AboveLast(rows, n);
    }
  }

  lemma UnlistedKey(ledger: Ledger, rows: seq<Leg>, n: int)
    requires forall l :: l in rows ==> l.seqNo in ledger.legs && ledger.legs[l.seqNo] == l
    requires n in ledger.legs && ledger.legs[n] !in rows
    ensures n !in Keys(rows)
  {
    hide Keys;
    forall i | 0 <= i < |rows| ensures Keys(rows)[i] != n {
      assert rows[i] in rows;
    }
  }

  lemma AboveLast(rows: seq<Leg>, n: int)
    requires StrictlyDown(Keys(rows)) && rows != [] && n < Keys(rows)[|rows| - 1]
    ensures forall l :: l in rows ==> n < l.seqNo
  {
    forall i | 0 <= i < |rows| ensures n < rows[i].seqNo {
      assert Keys(rows)[i] >= Keys(rows)[|rows| - 1];
    }
  }

  /** The whole statement, leg by leg. */
  lemma StatementInFields(ledger: Ledger, q: Query, rows: seq<Leg>)
    requires ledger.Valid() && Keys(rows) == Descending(Matching(ledger, q))
    requires forall l :: l in rows ==> l.seqNo in ledger.legs && ledger.legs[l.seqNo] == l
    ensures forall i, j :: 0 <= i < j < |rows| ==> rows[i].seqNo > rows[j].seqNo
    ensures forall n :: n in ledger.legs ==>
              (ledger.legs[n] in rows
               <==> && ledger.legs[n].acctNo == q.acctNo
                    && (q.dateFrom.None? || q.dateFrom.value <= ledger.legs[n].postDate)
                    && (q.dateTo.None? || ledger.legs[n].postDate <= q.dateTo.value))
  {
    hide Keys;
    hide Descending;
    var ids, keys := Matching(ledger, q), Keys(rows);
    DescendingIsSorted(ids);
    forall n | n in ledger.legs ensures ledger.legs[n] in rows <==> n in ids {
      if ledger.legs[n] in rows {
        var i :| 0 <= i < |rows| && rows[i] == ledger.legs[n];
        assert keys[i] in keys;
      }
      if n in ids {
        assert n in keys;
        var i :| 0 <= i < |keys| && keys[i] == n;
        assert rows[i] in rows;
      }
    }
  }

  datatype ListResult = Entries(entries: seq<Leg>) | AccountNotFound

  /** `ListTransactions`: one page, bounded again at the query. An unknown account is told from an
      account without entries. */
  method ListTransactions(ledger: Ledger, q: Query) returns (r: ListResult)
    requires ledger.Valid()
    ensures r.Entries? ==>
              && Keys(r.entries) == Page(Matching(ledger, q), SafeLimit(q.limit), q.beforeSeq)
              && forall l :: l in r.entries ==> l.seqNo in ledger.legs && ledger.legs[l.seqNo] == l
    ensures r.Entries? ==>
              && |r.entries| <= (if q.limit <= 0 || q.limit > 200 then 200 else q.limit)
              && (forall i, j :: 0 <= i < j < |r.entries| ==> r.entries[i].seqNo > r.entries[j].seqNo)
              && (forall l :: l in r.entries ==>
                    && l.acctNo == q.acctNo && (q.beforeSeq.None? || l.seqNo < q.beforeSeq.value)
                    && (q.dateFrom.None? || q.dateFrom.value <= l.postDate)
                    && (q.dateTo.None? || l.postDate <= q.dateTo.value))
              && (forall n ::
                    && n in ledger.legs && ledger.legs[n] !in r.entries
                    && ledger.legs[n].acctNo == q.acctNo && (q.beforeSeq.None? || n < q.beforeSeq.value)
                    && (q.dateFrom.None? || q.dateFrom.value <= ledger.legs[n].postDate)
                    && (q.dateTo.None? || ledger.legs[n].postDate <= q.dateTo.value) ==>
                      && |r.entries| == (if q.limit <= 0 || q.limit > 200 then 200 else q.limit)
                      && forall l :: l in r.entries ==> n < l.seqNo)
    ensures r.AccountNotFound? <==>
              Page(Matching(ledger, q), SafeLimit(q.limit), q.beforeSeq) == [] && q.acctNo !in ledger.accounts
  {
    var safeLimit := q.limit;
    if safeLimit <= 0 {
      safeLimit := DEFAULT_PAGE;
    }
    if safeLimit > MAX_PAGE {
      safeLimit := MAX_PAGE;
    }
    var rows := SelectRows(ledger, q, safeLimit);
    var out := [];
    for i := 0 to |rows|
      invariant out == rows[..i]
    {
      out := out + [rows[i]];
    }
    assert out == rows;
    if |out| == 0 && q.acctNo !in ledger.accounts {
      return AccountNotFound;
    }
    PageInFields(ledger, q, safeLimit, out);
    r := Entries(out);
  }

  /** `TxListResponse`: the page, and the cursor for the next one. */
  datatype Response = Response(pageSize: int, items: seq<Leg>, count: nat, nextCursor: Option<int>)

  /** `TxListRespFrom`. */
  method TxListRespFrom(q: Query, entries: seq<Leg>) returns (out: Response)
    ensures out == Response(q.limit, entries, |entries|, NextCursor(q.limit, Keys(entries)))
  {
    var items := [];
    for i := 0 to |entries|
      invariant items == entries[..i]
    {
      items := items + [entries[i]];
    }
    out := Response(q.limit, items, |items|, None);
    if q.limit > 0 && |entries| == q.limit {
      out := out.(nextCursor := Some(entries[|entries| - 1].seqNo));
    }
  }

  /** What a client that follows `next_cursor` until it is absent reads: the whole statement, in
      one descending listing. The handler has clamped the limit to 1..200. */
  method ReadStatement(ledger: Ledger, q: Query) returns (entries: seq<Leg>, found: bool)
    requires ledger.Valid() && q.beforeSeq.None? && 1 <= q.limit <= MAX_PAGE
    ensures found ==> Keys(entries) == Descending(Matching(ledger, q))
    ensures found <==> q.acctNo in ledger.accounts
    ensures !found ==> Matching(ledger, q) == {} && entries == []
    ensures forall l :: l in entries ==> l.seqNo in ledger.legs && ledger.legs[l.seqNo] == l
    ensures forall n :: n in ledger.legs ==>
              (ledger.legs[n] in entries
               <==> && ledger.legs[n].acctNo == q.acctNo
                    && (q.dateFrom.None? || q.dateFrom.value <= ledger.legs[n].postDate)
                    && (q.dateTo.None? || ledger.legs[n].postDate <= q.dateTo.value))
    ensures forall i, j :: 0 <= i < j < |entries| ==> entries[i].seqNo > entries[j].seqNo
  {
    ghost var ids := Matching(ledger, q);
    entries, found := [], true;
    var cursor: Option<int> := None;
    FollowIsScan(ids, q.limit, None);
    assert Below(ids, None) == ids;
    while true
      invariant Descending(ids) == Keys(entries) + Follow(ids, q.limit, cursor)
      invariant cursor.Some? ==> q.acctNo in ledger.accounts
      invariant forall l :: l in entries ==> l.seqNo in ledger.legs && ledger.legs[l.seqNo] == l
      decreases |Below(ids, cursor)|
    {
      var page, next;
      page, next, found := ReadPage(ledger, q, cursor);
      if !found {
        DescendingIsSorted(ids);
        StatementInFields(ledger, q, []);
        return [], false;
      }
      KeysAppend(entries, page);
      FollowStep(ids, q.limit, cursor, Keys(entries), Keys(page));
      entries, cursor := entries + page, next;
      if cursor.None? {
        StatementInFields(ledger, q, entries);
        return;
      }
    }
  }

  /** One page further: what is still to come shrinks, what has been read grows by the page. */
  lemma FollowStep(ids: set<int>, limit: nat, cursor: Option<int>, read: seq<int>, page: seq<int>)
    requires 1 <= limit <= MAX_PAGE && page == Page(ids, limit, cursor)
    ensures var next := NextCursor(limit, page);
            if next.None? then read + Follow(ids, limit, cursor) == read + page
            else
              && read + Follow(ids, limit, cursor) == (read + page) + Follow(ids, limit, next)
              && |Below(ids, next)| < |Below(ids, cursor)|
  {
    var next := NextCursor(limit, page);
    if next.Some? {
      CursorShrinks(ids, limit, cursor);
      assert read + (page + Follow(ids, limit, next)) == (read + page) + Follow(ids, limit, next);
    }
  }

  lemma UnknownAccountIsEmpty(ledger: Ledger, q: Query, cursor: Option<int>)
    requires ledger.Valid() && q.acctNo !in ledger.accounts
    ensures Matching(ledger, q) == {} && Page(Matching(ledger, q), SafeLimit(q.limit), cursor) == []
  {
    forall n ensures n !in Matching(ledger, q) {
      assert n in ledger.legs ==> ledger.legs[n].acctNo in ledger.accounts;
    }
    assert Matching(ledger, q) == {};
    assert Below(Matching(ledger, q), cursor) == {};
    assert Descending({}) == [];
  }

  /** One request of that client. */
  method ReadPage(ledger: Ledger, q: Query, cursor: Option<int>)
    returns (page: seq<Leg>, next: Option<int>, found: bool)
    requires ledger.Valid() && 1 <= q.limit <= MAX_PAGE
    ensures found ==>
              Keys(page) == Page(Matching(ledger, q), q.limit, cursor) && next == NextCursor(q.limit, Keys(page))
    ensures found <==> q.acctNo in ledger.accounts
    ensures !found ==> Matching(ledger, q) == {}
    ensures forall l :: l in page ==> l.seqNo in ledger.legs && ledger.legs[l.seqNo] == l
  {
    var request := q.(beforeSeq := cursor);
    assert forall l :: Selects(request, l) == Selects(q, l);
    assert Matching(ledger, request) == Matching(ledger, q);
    var r := ListTransactions(ledger, request);
    if q.acctNo !in ledger.accounts {
      UnknownAccountIsEmpty(ledger, q, cursor);
    }
    if r.AccountNotFound? {
      return [], None, false;
    }
    var response := TxListRespFrom(request, r.entries);
    page, next, found := response.items, response.nextCursor, true;
  }
}
