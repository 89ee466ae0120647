/** The retrying transaction wrapper of the wallet repository: `withTx` around `runTx`, and what
    the result variables captured by its callbacks hold afterwards. */
module TxRetry {
  import opened Wrappers
  import opened PgErrors

  /** One durable transaction: an attempt of this call, or another session's. */
  datatype Entry = Mine(attempt: nat) | Other(session: int)

  /** What COMMIT answers. A failed reply may hide a commit that took effect. */
  datatype CommitReply = Committed | CommitFailed(err: GoError, applied: bool)

  /** Everything the environment decides about one attempt; `Row` is what the callback's query
      returns. `others` are durable by the time this attempt ends; `cancelled` is the caller's
      context after it, `doneInBackoff` whether it fires while waiting, `jitter` is random. */
  datatype World<Row> = World(
    others: seq<int>,
    begin: Option<GoError>,
    setup: Option<GoError>,
    row: Option<Row>,
    fnError: GoError,
    commit: CommitReply,
    cancelled: bool,
    doneInBackoff: bool,
    jitter: nat)
  {
    /** The callback ran and scanned its row. */
    predicate Scanned() {
      begin.None? && setup.None? && row.Some?
    }

    /** This attempt's effect is durable. */
    predicate Applied() {
      Scanned() && (commit.Committed? || commit.applied)
    }

    /** What `runTx` returns; None is nil. */
    function Outcome(): Option<DomainError> {
      if begin.Some? then Some(MapPgError(begin.value))
      else if setup.Some? then Some(MapPgError(setup.value))
      else if row.None? then Some(MapPgError(fnError))
      else if commit.CommitFailed? then Some(MapPgError(commit.err))
      else None
    }

    /** The first call of the attempt that fails, fails with `e`. */
    ghost predicate FailsWith(e: GoError) {
      || begin == Some(e)
      || (begin == None && setup == Some(e))
      || (begin == None && setup == None && row == None && fnError == e)
      || (begin == None && setup == None && row != None && commit.CommitFailed? && commit.err == e)
    }

    /** The server keeps its word: a commit answered with a definite abort is not applied, and
        the driver never answers a commit with a domain error. */
    predicate Honest() {
      commit.CommitFailed? ==>
        commit.err.domain.None?
        && (commit.applied && commit.err.pg.Some? ==> !DefiniteAbort(commit.err.pg.value))
    }

    predicate Retriable() {
      Outcome().Some? && Outcome().value.IsRetriable()
    }
  }

  function Sessions(others: seq<int>): seq<Entry> {
    if others == [] then [] else Sessions(others[..|others| - 1]) + [Other(others[|others| - 1])]
  }

  /** What is durable after the first `n` attempts. */
  function Journal<Row>(world: nat -> World<Row>, n: nat): seq<Entry> {
    if n == 0 then []
    else Journal(world, n - 1) + Durable(world(n - 1), n - 1)
  }

  /** What attempt `k` alone makes durable. */
  function Durable<Row>(w: World<Row>, k: nat): seq<Entry> {
    Sessions(w.others) + if w.Applied() then [Mine(k)] else []
  }

  /** The rows the callback scanned during the first `n` attempts, in order. */
  function Scans<Row>(world: nat -> World<Row>, n: nat): seq<Row> {
    if n == 0 then []
    else Scans(world, n - 1) + if world(n - 1).Scanned() then [world(n - 1).row.value] else []
  }

  const MILLISECOND: nat := 1_000_000

  /** The backoff computed after attempt `k`: 5 ms more each time, and up to 5 ms of jitter. */
  function Wait<Row>(w: World<Row>, k: nat): nat {
    (k + 1) * 5 * MILLISECOND + w.jitter % (5 * MILLISECOND)
  }

  function Waits<Row>(world: nat -> World<Row>, n: nat): nat {
    if n == 0 then 0 else Waits(world, n - 1) + Wait(world(n - 1), n - 1)
  }

  /** Attempt `k` was followed by another one. */
  predicate Retried<Row>(world: nat -> World<Row>, k: nat) {
    world(k).Retriable() && !world(k).cancelled && !world(k).doneInBackoff
  }

  /** What an attempt returns, call by call: nil when none of its calls failed, and otherwise an
      error with the code of the first call that did. */
  lemma OutcomeExactly<Row>(w: World<Row>)
    ensures w.Outcome().None?
            <==> w.begin.None? && w.setup.None? && w.row.Some? && w.commit.Committed?
    ensures w.Outcome().None? <==> !exists e :: w.FailsWith(e)
    ensures forall e :: w.FailsWith(e) ==> w.Outcome().Some? && HasCode(e, w.Outcome().value.code)
    ensures forall e :: w.FailsWith(e) && e.domain.Some? ==> w.Outcome() == e.domain
  {
    hide HasCode;
    hide MapServerError;
    hide IsConflict;
    var first := if w.begin.Some? then w.begin.value
                 else if w.setup.Some? then w.setup.value
                 else if w.row.None? then w.fnError
                 else if w.commit.CommitFailed? then w.commit.err
                 else GoError(None, false, false, None);
    CodeExactly(first, MapPgError(first).code);
    assert w.Outcome().Some? ==> w.FailsWith(first);
    assert forall e :: w.FailsWith(e) ==> e == first;
  }

  /** An attempt is retriable exactly when the first of its calls that failed met a conflict: a
      domain VERSION_CONFLICT, or a server error that is no timeout and is 40001, 40P01, or a P0
      error naming VERSION_CONFLICT. */
  lemma RetriableAttempt<Row>(w: World<Row>)
    ensures w.Retriable()
            <==> exists e :: w.FailsWith(e)
                   && if e.domain.Some? then e.domain.value.code == "VERSION_CONFLICT"
                      else
                        && !e.deadline && !e.canceled && e.pg.Some?
                        && (e.pg.value.code == "40001" || e.pg.value.code == "40P01"
                            || (|e.pg.value.code| >= 2 && e.pg.value.code[..2] == "P0"
                                && NamesVersionConflict(e.pg.value.message)))
    ensures w.Retriable() <==> exists e :: w.FailsWith(e) && IsConflict(e)
  {
    hide MapPgError;
    hide NamesVersionConflict;
    var first := if w.begin.Some? then w.begin.value
                 else if w.setup.Some? then w.setup.value
                 else if w.row.None? then w.fnError
                 else if w.commit.CommitFailed? then w.commit.err
                 else GoError(None, false, false, None);
    RetriableExactly(first);
    assert w.Outcome().Some? ==> w.FailsWith(first);
    assert forall e :: w.FailsWith(e) ==> e == first && w.Outcome() == Some(MapPgError(first));
  }

  /** The reply to a commit that took effect is lost: the effect stays, and since the server cannot
      have said that it aborted, the call is not run again. */
  lemma LostReplyIsNotRetried<Row>(w: World<Row>, k: nat)
    requires w.begin.None? && w.setup.None? && w.row.Some? && w.Honest()
    requires w.commit.CommitFailed? && w.commit.applied
    ensures Durable(w, k) == Sessions(w.others) + [Mine(k)] && w.Outcome().Some? && !w.Retriable()
  {
    if w.Retriable() {
      RetriableServerErrorsAborted(w.commit.err);
    }
  }

  lemma RetriedExactly<Row>(world: nat -> World<Row>)
    ensures forall k: nat ::
              Retried(world, k) <==>
              && !world(k).cancelled && !world(k).doneInBackoff
              && exists e :: world(k).FailsWith(e) && IsConflict(e)
  {
    hide IsConflict;
    hide World.FailsWith;
    forall k: nat ensures world(k).Retriable() <==> exists e :: world(k).FailsWith(e) && IsConflict(e) {
      RetriableAttempt(world(k));
    }
    hide World.Retriable;
  }

  lemma LastError<Row>(w: World<Row>)
    ensures w.Outcome().None? <==> w.begin.None? && w.setup.None? && w.row.Some? && w.commit.Committed?
    ensures forall e :: w.FailsWith(e) ==>
              && w.Outcome().Some? && HasCode(e, w.Outcome().value.code)
              && (e.domain.Some? ==> w.Outcome() == e.domain)
  {
    OutcomeExactly(w);
  }

  class PgWalletRepo<Row> {
    const txMaxRetries: nat
    var journal: seq<Entry>

    /** A negative retry count is clamped to 0. */
    constructor (retries: int)
      ensures txMaxRetries == (if retries < 0 then 0 else retries) && journal == []
    {
      txMaxRetries := if retries < 0 then 0 else retries;
      journal := [];
    }

    /** One attempt. Whatever is not committed is rolled back by the deferred Rollback. */
    method RunTx(attempt: nat, w: World<Row>) returns (err: Option<DomainError>, scanned: seq<Row>)
      modifies this
      ensures err == w.Outcome()
      ensures journal == old(journal) + Durable(w, attempt)
      ensures scanned == if w.Scanned() then [w.row.value] else []
    {
      journal, scanned := journal + Sessions(w.others), [];
      if w.begin.Some? {
        return Some(MapPgError(w.begin.value)), scanned;
      }
      if w.setup.Some? {
        return Some(MapPgError(w.setup.value)), scanned;
      }
      if w.row.None? {
        return Some(MapPgError(w.fnError)), scanned;
      }
      scanned := [w.row.value];
      match w.commit {
        case Committed =>
          journal := journal + [Mine(attempt)];
          err := None;
        case CommitFailed(e, applied) =>
          if applied {
            journal := journal + [Mine(attempt)];
          }
          err := Some(MapPgError(e));
      }
    }

    /** The retry loop: at most `txMaxRetries + 1` attempts, stopping at the first success, the
        first non-retriable error or the end of the context, and returning the last attempt's
        error. */
    method WithTx(world: nat -> World<Row>)
      returns (err: Option<DomainError>, scanned: seq<Row>, ghost attempts: nat, ghost slept: nat)
      modifies this
      ensures 1 <= attempts <= txMaxRetries + 1
      ensures journal == old(journal) + Journal(world, attempts)
      ensures scanned == Scans(world, attempts)
      ensures err == world(attempts - 1).Outcome()
      ensures forall k :: 0 <= k < attempts - 1 ==> Retried(world, k)
      ensures attempts == txMaxRetries + 1 || !Retried(world, attempts - 1)
      ensures slept == Waits(world, attempts - 1)
      ensures forall k :: 0 <= k < attempts - 1 ==>
                && !world(k).cancelled && !world(k).doneInBackoff
                && exists e :: world(k).FailsWith(e) && IsConflict(e)
      ensures || attempts == txMaxRetries + 1
              || world(attempts - 1).cancelled || world(attempts - 1).doneInBackoff
              || !exists e :: world(attempts - 1).FailsWith(e) && IsConflict(e)
      ensures err.None? <==> var last := world(attempts - 1);
                             last.begin.None? && last.setup.None? && last.row.Some? && last.commit.Committed?
      ensures forall e :: world(attempts - 1).FailsWith(e) ==>
                err.Some? && HasCode(e, err.value.code) && (e.domain.Some? ==> err == e.domain)
    {
      hide HasCode;
      hide IsConflict;
      hide World.FailsWith;
      hide MapPgError;
      hide DomainError.IsRetriable;
      hide Durable;
      scanned, attempts, slept := [], 0, 0;
      var attempt := 0;
      while true
        invariant attempts == attempt <= txMaxRetries
        invariant journal == old(journal) + Journal(world, attempt)
        invariant scanned == Scans(world, attempt)
        invariant forall k :: 0 <= k < attempt ==> Retried(world, k)
        invariant slept == Waits(world, attempt)
        decreases txMaxRetries - attempt
      {
        var w := world(attempt);
        var row;
        ghost var before := Journal(world, attempt);
        err, row := RunTx(attempt, w);
        assert old(journal) + before + Durable(w, attempt) == old(journal) + (before + Durable(w, attempt));
        scanned := scanned + row;
        attempts := attempts + 1;
        RetriedExactly(world);
        LastError(w);
        if err.None? {
          return;
        }
        if attempt >= txMaxRetries || w.cancelled || !err.value.IsRetriable() {
          return;
        }
        if w.doneInBackoff {
          return;
        }
        slept := slept + Wait(w, attempt);
        attempt := attempt + 1;
      }
    }
  }

  // ----- At most one effect ------------------------------------------------------------------

  function MineCount(j: seq<Entry>): nat {
    if j == [] then 0 else MineCount(j[..|j| - 1]) + if j[|j| - 1].Mine? then 1 else 0
  }

  lemma {:induction false} MineCountAppend(a: seq<Entry>, b: seq<Entry>)
    ensures MineCount(a + b) == MineCount(a) + MineCount(b)
  {
    if b == [] {
      assert a + b == a;
    } else {
      MineCountAppend(a, b[..|b| - 1]);
      assert (a + b)[..|a + b| - 1] == a + b[..|b| - 1];
    }
  }

  lemma {:induction false} SessionsAreForeign(others: seq<int>)
    ensures MineCount(Sessions(others)) == 0
  {
    if others != [] {
      SessionsAreForeign(others[..|others| - 1]);
      var front := Sessions(others[..|others| - 1]);
      assert (front + [Other(others[|others| - 1])])[..|front|] == front;
    }
  }

  lemma {:induction false} SessionsExactly(others: seq<int>)
    ensures |Sessions(others)| == |others|
    ensures forall i :: 0 <= i < |others| ==> Sessions(others)[i] == Other(others[i])
  {
    if others != [] {
      SessionsExactly(others[..|others| - 1]);
    }
  }

  lemma DurableCount<Row>(w: World<Row>, k: nat)
    ensures MineCount(Durable(w, k)) == if w.Applied() then 1 else 0
  {
    SessionsAreForeign(w.others);
    MineCountAppend(Sessions(w.others), if w.Applied() then [Mine(k)] else []);
  }

  /** An attempt that may be retried left nothing behind: its error is the callback's own, or a
      server error after a certain rollback. A commit of unknown outcome is never retriable. */
  lemma RetriableMeansRolledBack<Row>(w: World<Row>)
    requires w.Honest() && w.Retriable()
    ensures !w.Applied()
  {
    if w.Scanned() {
      RetriableServerErrorsAborted(w.commit.err);
    }
  }

  /** The calls `WithTx` can make: every attempt but the last was retried. */
  ghost predicate Attempts<Row>(world: nat -> World<Row>, n: nat) {
    n >= 1 && (forall k :: 0 <= k < n ==> world(k).Honest()) && (forall k :: 0 <= k < n - 1 ==> Retried(world, k))
  }

  lemma {:induction false} EarlierAttemptsLeaveNothing<Row>(world: nat -> World<Row>, n: nat, m: nat)
    requires Attempts(world, n) && m <= n - 1
    ensures MineCount(Journal(world, m)) == 0
  {
    if m > 0 {
      EarlierAttemptsLeaveNothing(world, n, m - 1);
      MineCountAppend(Journal(world, m - 1), Durable(world(m - 1), m - 1));
      assert Retried(world, m - 1);
      RetriableMeansRolledBack(world(m - 1));
      DurableCount(world(m - 1), m - 1);
    }
  }

  /** A call's effect is durable at most once, and only through its last attempt; exactly once
      when it returns nil. */
  lemma AtMostOneEffect<Row>(world: nat -> World<Row>, n: nat)
    requires Attempts(world, n)
    ensures MineCount(Journal(world, n)) == if world(n - 1).Applied() then 1 else 0
    ensures forall k :: 0 <= k < n - 1 ==> !world(k).Applied()
    ensures world(n - 1).Outcome().None? ==> MineCount(Journal(world, n)) == 1
  {
    EarlierAttemptsLeaveNothing(world, n, n - 1);
    MineCountAppend(Journal(world, n - 1), Durable(world(n - 1), n - 1));
    DurableCount(world(n - 1), n - 1);
    forall k | 0 <= k < n - 1 ensures !world(k).Applied() {
      assert Retried(world, k);
      RetriableMeansRolledBack(world(k));
    }
  }

  /** The database state after a journal, for any effect of the callback and of other sessions. */
  function Replay<S>(s: S, j: seq<Entry>, fn: S -> S, other: (int, S) -> S): S {
    if j == [] then s
    else
      var before := Replay(s, j[..|j| - 1], fn, other);
      match j[|j| - 1]
      case Mine(_) => fn(before)
      case Other(id) => other(id, before)
  }

  lemma {:induction false} ForeignReplay<S>(s: S, j: seq<Entry>, fn: S -> S, gn: S -> S, other: (int, S) -> S)
    requires MineCount(j) == 0
    ensures Replay(s, j, fn, other) == Replay(s, j, gn, other)
  {
    if j != [] {
      ForeignReplay(s, j[..|j| - 1], fn, gn, other);
    }
  }

  /** For an arbitrary state transition `fn`: a nil return leaves `fn` applied exactly once, on top
      of what the other sessions did; no other attempt of the callback shows in the state. */
  lemma SuccessAppliesFnOnce<Row, S>(world: nat -> World<Row>, n: nat, s: S, fn: S -> S, other: (int, S) -> S)
    requires Attempts(world, n) && world(n - 1).Outcome().None?
    ensures var foreign := Journal(world, n - 1) + Sessions(world(n - 1).others);
            && MineCount(foreign) == 0
            && Replay(s, Journal(world, n), fn, other) == fn(Replay(s, foreign, x => x, other))
  {
    var foreign := Journal(world, n - 1) + Sessions(world(n - 1).others);
    EarlierAttemptsLeaveNothing(world, n, n - 1);
    SessionsAreForeign(world(n - 1).others);
    MineCountAppend(Journal(world, n - 1), Sessions(world(n - 1).others));
    assert Journal(world, n) == foreign + [Mine(n - 1)];
    assert (foreign + [Mine(n - 1)])[..|foreign|] == foreign;
    ForeignReplay(s, foreign, fn, x => x, other);
  }

  // ----- How long it waits -------------------------------------------------------------------

  /** After `n` full backoffs the computed waits lie between 5n(n+1)/2 ms and 5n(n+3)/2 ms. */
  lemma {:induction false} WaitBounds<Row>(world: nat -> World<Row>, n: nat)
    ensures 2 * Waits(world, n) >= 5_000_000 * (n * (n + 1))
    ensures n > 0 ==> 2 * Waits(world, n) < 5_000_000 * (n * (n + 3))
  {
    if n > 0 {
      WaitBounds(world, n - 1);
      WaitBound(world(n - 1), n - 1);
      Squares(n);
    }
  }

  lemma Squares(n: nat)
    requires n > 0
    ensures n * (n + 1) == (n - 1) * n + 2 * n
    ensures n * (n + 3) == (n - 1) * (n + 2) + 2 * n + 2
  {
  }

  lemma WaitBound<Row>(w: World<Row>, k: nat)
    ensures (k + 1) * 5 * MILLISECOND <= Wait(w, k) < (k + 2) * 5 * MILLISECOND
  {
  }

  /** The backoff after attempt `k` can be any time from 5(k+1) ms up to, but not at, 5(k+2) ms, and
      no other. */
  lemma WaitExactly<Row(!new)>(w: World<Row>, k: nat, n: nat)
    ensures (exists jitter: nat :: Wait(w.(jitter := jitter), k) == n)
            <==> (k + 1) * 5_000_000 <= n < (k + 2) * 5_000_000
  {
    var rest := n - (k + 1) * 5_000_000;
    if 0 <= rest < 5_000_000 {
      assert Wait(w.(jitter := rest), k) == n;
    }
    forall jitter: nat ensures (k + 1) * 5_000_000 <= Wait(w.(jitter := jitter), k) < (k + 2) * 5_000_000 {
      WaitBound(w.(jitter := jitter), k);
    }
  }

  // ----- Results captured by the callback ----------------------------------------------------

  /** A result variable after the callback assigned it from each scanned row in turn. */
  function Capture<Row, Out>(assign: (Out, Row) -> Out, zero: Out, rows: seq<Row>): Out {
    if rows == [] then zero else assign(Capture(assign, zero, rows[..|rows| - 1]), rows[|rows| - 1])
  }

  /** A nil return means the last attempt scanned the last row. */
  lemma SuccessScansLast<Row>(world: nat -> World<Row>, n: nat)
    requires n >= 1 && world(n - 1).Outcome().None?
    ensures Scans(world, n) == Scans(world, n - 1) + [world(n - 1).row.value]
  {
  }

  /** A callback that overwrites every field returns the row of the attempt that committed. */
  lemma OverwritingCallbackIsFresh<Row(!new), Out(!new)>(world: nat -> World<Row>, n: nat,
                                                         assign: (Out, Row) -> Out, zero: Out)
    requires Attempts(world, n) && world(n - 1).Outcome().None?
    requires forall o, p, r :: assign(o, r) == assign(p, r)
    ensures Capture(assign, zero, Scans(world, n)) == assign(zero, world(n - 1).row.value)
  {
    SuccessScansLast(world, n);
  }

  /** The rows of `post_topup`, `post_transfer` and `post_withdraw`, column by column, and the
      results their callbacks fill. */
  datatype TopupRow = TopupRow(tran: int, status: string, balance: string, uuid: int)
  datatype TopupResult = TopupResult(tranInternalId: int, status: string, newBalance: string, eventUuid: int)

  function AssignTopup(out: TopupResult, row: TopupRow): TopupResult {
    out.(tranInternalId := row.tran, status := row.status).(newBalance := row.balance).(eventUuid := row.uuid)
  }

  datatype TransferRow = TransferRow(tran: int, status: string, balanceFrom: string, balanceTo: string,
                                     fee: string, vat: string, uuid: int)
  datatype TransferResult = TransferResult(tranInternalId: int, status: string, newBalanceFrom: string,
                                           newBalanceTo: string, feeGross: string, vatAmount: string, eventUuid: int)

  function AssignTransfer(out: TransferResult, row: TransferRow): TransferResult {
    out.(tranInternalId := row.tran, status := row.status)
       .(newBalanceFrom := row.balanceFrom, newBalanceTo := row.balanceTo)
       .(feeGross := row.fee, vatAmount := row.vat)
       .(eventUuid := row.uuid)
  }

  datatype WithdrawRow = WithdrawRow(tran: int, status: string, balance: string, fee: string, vat: string, uuid: int)
  datatype WithdrawResult = WithdrawResult(tranInternalId: int, status: string, newBalance: string,
                                           feeGross: string, vatAmount: string, eventUuid: int)

  function AssignWithdraw(out: WithdrawResult, row: WithdrawRow): WithdrawResult {
    out.(tranInternalId := row.tran, status := row.status)
       .(newBalance := row.balance, feeGross := row.fee, vatAmount := row.vat)
       .(eventUuid := row.uuid)
  }

  /** `Topup`, `Transfer` and `Withdraw` return the row of the attempt that committed, whatever
      earlier attempts had scanned and whatever the result variable started with. */
  lemma TopupIsFresh(world: nat -> World<TopupRow>, n: nat, zero: TopupResult)
    requires Attempts(world, n) && world(n - 1).Outcome().None?
    ensures var row := world(n - 1).row.value;
            Capture(AssignTopup, zero, Scans(world, n)) == TopupResult(row.tran, row.status, row.balance, row.uuid)
  {
    OverwritingCallbackIsFresh(world, n, AssignTopup, zero);
  }

  lemma TransferIsFresh(world: nat -> World<TransferRow>, n: nat, zero: TransferResult)
    requires Attempts(world, n) && world(n - 1).Outcome().None?
    ensures var row := world(n - 1).row.value;
            Capture(AssignTransfer, zero, Scans(world, n))
            == TransferResult(row.tran, row.status, row.balanceFrom, row.balanceTo, row.fee, row.vat, row.uuid)
  {
    OverwritingCallbackIsFresh(world, n, AssignTransfer, zero);
  }

  lemma WithdrawIsFresh(world: nat -> World<WithdrawRow>, n: nat, zero: WithdrawResult)
    requires Attempts(world, n) && world(n - 1).Outcome().None?
    ensures var row := world(n - 1).row.value;
            Capture(AssignWithdraw, zero, Scans(world, n))
            == WithdrawResult(row.tran, row.status, row.balance, row.fee, row.vat, row.uuid)
  {
    OverwritingCallbackIsFresh(world, n, AssignWithdraw, zero);
  }

  /** A stored id: the zero value of the Go fields stands for none. */
  type Id = n: int | n != 0 witness 1

  /** The row of `post_merchant_withdraw`: id and uuid are NULL when a sweep is required first. */
  datatype MerchantRow = MerchantRow(tran: Option<Id>, status: string, amounts: seq<string>, uuid: Option<Id>)
  datatype MerchantResult = MerchantResult(tran: int, status: string, amounts: seq<string>, uuid: int)

  const NO_RESULT := MerchantResult(0, "", [], 0)

  /** The assignments of the `MerchantWithdraw` callback: two fields only when non-NULL. */
  function AssignMerchant(out: MerchantResult, row: MerchantRow): MerchantResult {
    MerchantResult(if row.tran.Some? then row.tran.value else out.tran, row.status, row.amounts,
                   if row.uuid.Some? then row.uuid.value else out.uuid)
  }

  /** `MerchantWithdraw`: the closure runs once per scanned row; the result is dropped on error. */
  method MerchantWithdraw(repo: PgWalletRepo<MerchantRow>, world: nat -> World<MerchantRow>)
    returns (result: Option<MerchantResult>, err: Option<DomainError>, ghost n: nat)
    modifies repo
    ensures n >= 1 && repo.journal == old(repo.journal) + Journal(world, n)
    ensures forall k :: 0 <= k < n - 1 ==> Retried(world, k)
    ensures err == world(n - 1).Outcome()
    ensures err.None? ==> result == Some(Capture(AssignMerchant, NO_RESULT, Scans(world, n)))
    ensures err.Some? ==> result == None
  {
    var rows;
    ghost var slept;
    err, rows, n, slept := repo.WithTx(world);
    var out := NO_RESULT;
    for i := 0 to |rows|
      invariant out == Capture(AssignMerchant, NO_RESULT, rows[..i])
    {
      assert rows[..i + 1][..i] == rows[..i];
      out := AssignMerchant(out, rows[i]);
    }
    assert rows[..|rows|] == rows;
    result := if err.None? then Some(out) else None;
  }

  /** One of the first `n` attempts scanned a row with a transaction id (with a uuid). */
  ghost predicate TranScanned(world: nat -> World<MerchantRow>, n: nat) {
    exists k :: 0 <= k < n && world(k).Scanned() && world(k).row.value.tran.Some?
  }

  ghost predicate UuidScanned(world: nat -> World<MerchantRow>, n: nat) {
    exists k :: 0 <= k < n && world(k).Scanned() && world(k).row.value.uuid.Some?
  }

  lemma CaptureLast(rows: seq<MerchantRow>, row: MerchantRow)
    ensures Capture(AssignMerchant, NO_RESULT, rows + [row])
            == AssignMerchant(Capture(AssignMerchant, NO_RESULT, rows), row)
  {
    assert (rows + [row])[..|rows|] == rows;
  }

  lemma CaptureStep(world: nat -> World<MerchantRow>, n: nat)
    requires n > 0
    ensures Capture(AssignMerchant, NO_RESULT, Scans(world, n))
            == var before := Capture(AssignMerchant, NO_RESULT, Scans(world, n - 1));
               if world(n - 1).Scanned() then AssignMerchant(before, world(n - 1).row.value) else before
  {
    if world(n - 1).Scanned() {
      CaptureLast(Scans(world, n - 1), world(n - 1).row.value);
    } else {
      assert Scans(world, n - 1) + [] == Scans(world, n - 1);
    }
  }

  /** An optional field is filled exactly when some attempt scanned it. */
  lemma {:induction false} FilledExactly(world: nat -> World<MerchantRow>, n: nat)
    ensures Capture(AssignMerchant, NO_RESULT, Scans(world, n)).tran != 0 <==> TranScanned(world, n)
    ensures Capture(AssignMerchant, NO_RESULT, Scans(world, n)).uuid != 0 <==> UuidScanned(world, n)
  {
    if n > 0 {
      FilledExactly(world, n - 1);
      CaptureStep(world, n);
      ScannedStep(world, n);
    }
  }

  lemma ScannedStep(world: nat -> World<MerchantRow>, n: nat)
    requires n > 0
    ensures TranScanned(world, n)
            <==> TranScanned(world, n - 1) || (world(n - 1).Scanned() && world(n - 1).row.value.tran.Some?)
    ensures UuidScanned(world, n)
            <==> UuidScanned(world, n - 1) || (world(n - 1).Scanned() && world(n - 1).row.value.uuid.Some?)
  {
  }

  /** Every field of a merchant withdrawal's result: status and amounts are the committed row's; the
      transaction id (and the uuid) is that of the last attempt that scanned one, and 0 if none did. */
  lemma MerchantResultFields(world: nat -> World<MerchantRow>, n: nat)
    requires Attempts(world, n) && world(n - 1).Outcome().None?
    ensures var result, last := Capture(AssignMerchant, NO_RESULT, Scans(world, n)), world(n - 1).row.value;
            && result.status == last.status && result.amounts == last.amounts
            && (result.tran == 0 <==> !TranScanned(world, n))
            && (result.uuid == 0 <==> !UuidScanned(world, n))
            && (TranScanned(world, n) ==>
                  exists k :: && 0 <= k < n && world(k).Scanned() && world(k).row.value.tran == Some(result.tran)
                              && forall j :: k < j < n && world(j).Scanned() ==> world(j).row.value.tran == None)
            && (UuidScanned(world, n) ==>
                  exists k :: && 0 <= k < n && world(k).Scanned() && world(k).row.value.uuid == Some(result.uuid)
                              && forall j :: k < j < n && world(j).Scanned() ==> world(j).row.value.uuid == None)
  {
    CaptureStep(world, n);
    FilledExactly(world, n);
    if TranScanned(world, n) {
      var _ := LastTran(world, n);
    }
    if UuidScanned(world, n) {
      var _ := LastUuid(world, n);
    }
  }

  lemma {:induction false} LastTran(world: nat -> World<MerchantRow>, n: nat) returns (k: nat)
    requires TranScanned(world, n)
    ensures k < n && world(k).Scanned()
    ensures world(k).row.value.tran == Some(Capture(AssignMerchant, NO_RESULT, Scans(world, n)).tran)
    ensures forall j :: k < j < n && world(j).Scanned() ==> world(j).row.value.tran == None
  {
    ScannedStep(world, n);
    CaptureStep(world, n);
    hide TranScanned;
    hide Capture;
    hide Scans;
    k := n - 1;
    if !(world(k).Scanned() && world(k).row.value.tran.Some?) {
      k := LastTran(world, n - 1);
    }
  }

  lemma {:induction false} LastUuid(world: nat -> World<MerchantRow>, n: nat) returns (k: nat)
    requires UuidScanned(world, n)
    ensures k < n && world(k).Scanned()
    ensures world(k).row.value.uuid == Some(Capture(AssignMerchant, NO_RESULT, Scans(world, n)).uuid)
    ensures forall j :: k < j < n && world(j).Scanned() ==> world(j).row.value.uuid == None
  {
    ScannedStep(world, n);
    CaptureStep(world, n);
    hide UuidScanned;
    hide Capture;
    hide Scans;
    k := n - 1;
    if !(world(k).Scanned() && world(k).row.value.uuid.Some?) {
      k := LastUuid(world, n - 1);
    }
  }

  /** The result is the committed row's own exactly when, for each optional field, that row has it
      or no earlier attempt of the call had scanned it. */
  lemma MerchantResultFreshExactly(world: nat -> World<MerchantRow>, n: nat)
    requires Attempts(world, n) && world(n - 1).Outcome().None?
    ensures var last := world(n - 1).row.value;
            Capture(AssignMerchant, NO_RESULT, Scans(world, n)) == AssignMerchant(NO_RESULT, last)
            <==> (last.tran.Some? || !TranScanned(world, n - 1)) && (last.uuid.Some? || !UuidScanned(world, n - 1))
  {
    SuccessScansLast(world, n);
    CaptureLast(Scans(world, n - 1), world(n - 1).row.value);
    FilledExactly(world, n - 1);
  }

  /** Two attempts: the first books transaction 5 but loses its commit to a serialization
      failure, the second only asks for a sweep. The call reports transaction 5. */
  function SweepWorld(k: nat): World<MerchantRow> {
    var noError := GoError(None, false, false, None);
    if k == 0 then
      World([], None, None, Some(MerchantRow(Some(5), "POSTED", [], Some(7))), noError,
            CommitFailed(GoError(None, false, false, Some(PgError("40001", "VERSION_CONFLICT"))), false),
            false, false, 0)
    else
      World([], None, None, Some(MerchantRow(None, "SETTLEMENT_SWEEP_REQUIRED", [], None)), noError,
            Committed, false, false, 0)
  }

  lemma MerchantReportsRolledBackTransaction()
    ensures Attempts(SweepWorld, 2) && SweepWorld(1).Outcome().None? && !SweepWorld(0).Applied()
    ensures Capture(AssignMerchant, NO_RESULT, Scans(SweepWorld, 2)).tran == 5
  {
    RetriableExactly(SweepWorld(0).commit.err);
    assert Retried(SweepWorld, 0);
    SuccessScansLast(SweepWorld, 2);
    var first := SweepWorld(0).row.value;
    assert Scans(SweepWorld, 1) == [first] by {
      assert Scans(SweepWorld, 0) + [first] == [first];
    }
    assert [first][..0] == [];
    assert Capture(AssignMerchant, NO_RESULT, [first]).tran == 5;
    var last := SweepWorld(1).row.value;
    assert ([first] + [last])[..1] == [first];
  }
}
