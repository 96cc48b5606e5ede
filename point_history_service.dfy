/** PointHistoryService: the append-only point ledger. The balance is the point of the newest
    row; a transaction appends a row holding the new balance and is refused when that balance
    would be negative. */
module PointHistoryService {
  import opened Types
  import opened Ids
  import opened Db

  /** pointHistoryRepository.findPointByUserId: the user's balances, newest first. */
  function FindPointByUserId(h: seq<PointHistory>): (r: seq<int>)
    ensures |r| == |h|
    ensures forall i :: 0 <= i < |h| ==> r[i] == h[|h| - 1 - i].point
  {
    if h == [] then [] else [h[|h| - 1].point] + FindPointByUserId(h[..|h| - 1])
  }

  /** getUserTotalPoint: the first element of the newest-first query, which is the point of the
      row appended last. A user without ledger rows makes the source fail on an empty list. */
  function GetUserTotalPoint(t: Tables, u: UserId): (total: int)
    requires HasLedger(t, u)
    ensures total == LatestPoint(t, u)
  {
    FindPointByUserId(t.pointHistories[u])[0]
  }

  /** savePointHistory on the tables: SURVEY_CREATE_POINT_NOT_ENOUGH when the new balance would
      be negative, otherwise the tables with one row appended to the user's ledger. */
  function SavePointHistorySpec(t: Tables, u: UserId, operandPoint: int, now: Time): (r: Result<Tables>)
    requires HasLedger(t, u)
  {
    var userTotalPoint := GetUserTotalPoint(t, u);
    if userTotalPoint + operandPoint < 0 then Err(SURVEY_CREATE_POINT_NOT_ENOUGH)
    else
      var entry := PointHistory(PointHistoryId(now, u), userTotalPoint + operandPoint);
      Ok(t.(pointHistories := t.pointHistories[u := t.pointHistories[u] + [entry]]))
  }

  method SavePointHistory(db: Database, u: UserId, operandPoint: int, now: Time) returns (r: Outcome)
    requires HasLedger(db.State(), u)
    modifies db
    ensures var spec := SavePointHistorySpec(old(db.State()), u, operandPoint, now);
      (spec.Err? ==> r == Fail(spec.error) && db.State() == old(db.State()))
      && (spec.Ok? ==> r == Pass && db.State() == spec.value)
  {
    var userTotalPoint := GetUserTotalPoint(db.State(), u);
    if userTotalPoint + operandPoint < 0 {
      return Fail(SURVEY_CREATE_POINT_NOT_ENOUGH);
    }
    db.AppendPointHistory(u, PointHistory(PointHistoryId(now, u), userTotalPoint + operandPoint));
    r := Pass;
  }

  /** The refusal happens exactly when the balance plus the operand is negative. On success the
      ledger gains exactly one row, for this user, stamped now, holding the old balance plus the
      operand, which is not negative; every older row and every other table is as it was. */
  lemma SavePointHistoryContract(t: Tables, u: UserId, operandPoint: int, now: Time)
    requires HasLedger(t, u)
    ensures var r := SavePointHistorySpec(t, u, operandPoint, now);
      (r == Err(SURVEY_CREATE_POINT_NOT_ENOUGH) <==> LatestPoint(t, u) + operandPoint < 0)
      && (r.Ok? ==>
        && HasLedger(r.value, u)
        && LatestPoint(r.value, u) == LatestPoint(t, u) + operandPoint >= 0
        && |r.value.pointHistories[u]| == |t.pointHistories[u]| + 1
        && r.value.pointHistories[u][..|t.pointHistories[u]|] == t.pointHistories[u]
        && r.value.pointHistories[u][|t.pointHistories[u]|].id == PointHistoryId(now, u)
        && r.value.pointHistories.Keys == t.pointHistories.Keys
        && (forall v :: v in t.pointHistories && v != u ==> r.value.pointHistories[v] == t.pointHistories[v])
        && r.value == t.(pointHistories := r.value.pointHistories))
  {
  }

  /** Appending keeps every ledger row non-negative. */
  lemma SavePointHistoryKeepsLedgerNonNegative(t: Tables, u: UserId, operandPoint: int, now: Time)
    requires HasLedger(t, u) && LedgerNonNegative(t)
    requires SavePointHistorySpec(t, u, operandPoint, now).Ok?
    ensures LedgerNonNegative(SavePointHistorySpec(t, u, operandPoint, now).value)
  {
    var t' := SavePointHistorySpec(t, u, operandPoint, now).value;
    forall v, i | v in t'.pointHistories && 0 <= i < |t'.pointHistories[v]|
      ensures t'.pointHistories[v][i].point >= 0
    {
      if v == u && i == |t.pointHistories[u]| {
        assert t'.pointHistories[v][i].point == LatestPoint(t, u) + operandPoint;
      } else {
        assert t'.pointHistories[v][i] == t.pointHistories[v][i];
      }
    }
  }

  /** A credit (an operand of at least zero) is never refused on a non-negative ledger. */
  lemma CreditNeverRefused(t: Tables, u: UserId, operandPoint: int, now: Time)
    requires HasLedger(t, u) && LedgerNonNegative(t) && operandPoint >= 0
    ensures SavePointHistorySpec(t, u, operandPoint, now).Ok?
  {
    assert t.pointHistories[u][|t.pointHistories[u]| - 1].point >= 0;
  }

  /** n attempts, one after another, to debit cost from the user's ledger; each refused attempt
      leaves the tables as they were. Returns the final tables and the number of attempts that
      went through. */
  function RepeatDebit(t: Tables, u: UserId, cost: nat, now: Time, n: nat): (Tables, nat)
    requires HasLedger(t, u)
    decreases n
  {
    if n == 0 then (t, 0)
    else match SavePointHistorySpec(t, u, -(cost as int), now)
      case Err(_) => RepeatDebit(t, u, cost, now, n - 1)
      case Ok(t') =>
        assert HasLedger(t', u);
        var (final, done) := RepeatDebit(t', u, cost, now, n - 1);
        (final, done + 1)
  }

  /** Taking one more C off a balance of at least C takes one off the quotient and keeps the remainder. */
  lemma DivModStep(b: int, c: int)
    requires c > 0 && b >= c
    ensures (b - c) / c == b / c - 1 && (b - c) % c == b % c
  {
    var q, r := b / c, b % c;
    assert c * (q - 1) == c * q - c;
    DivModUnique(b - c, c, q - 1, r);
  }

  /** Euclidean division has one quotient and one remainder. */
  lemma DivModUnique(x: int, c: int, q: int, r: int)
    requires c > 0 && 0 <= r < c && x == c * q + r
    ensures x / c == q && x % c == r
  {
    var q', r' := x / c, x % c;
    MulDistinct(c, q, q', r, r');
  }

  /** c * q + r == c * q' + r' with both remainders in [0, c) forces q == q'. */
  lemma MulDistinct(c: int, q: int, q': int, r: int, r': int)
    requires c > 0 && 0 <= r < c && 0 <= r' < c && c * q + r == c * q' + r'
    ensures q == q' && r == r'
  {
    if q > q' {
      MulAtLeast(c, q - q');
    } else if q < q' {
      MulAtLeast(c, q' - q);
    }
  }

  lemma {:induction false} MulAtLeast(c: int, k: int)
    requires c > 0 && k >= 1
    ensures c * k >= c
    decreases k
  {
    if k > 1 {
      MulAtLeast(c, k - 1);
      assert c * k == c * (k - 1) + c;
    }
  }

  /** A balance below C has quotient 0 and is its own remainder. */
  lemma DivModSmall(b: int, c: int)
    requires c > 0 && 0 <= b < c
    ensures b / c == 0 && b % c == b
  {
  }

  /** Debits of a positive cost C against a balance B go through exactly B / C times, however
      many more attempts follow, and leave the balance at B mod C. */
  lemma {:induction false} RepeatDebitCount(t: Tables, u: UserId, cost: nat, now: Time, n: nat)
    requires HasLedger(t, u) && cost > 0 && LatestPoint(t, u) >= 0
    requires n >= LatestPoint(t, u) / cost
    decreases n
    ensures HasLedger(RepeatDebit(t, u, cost, now, n).0, u)
    ensures RepeatDebit(t, u, cost, now, n).1 == LatestPoint(t, u) / cost
    ensures LatestPoint(RepeatDebit(t, u, cost, now, n).0, u) == LatestPoint(t, u) % cost
  {
    var b := LatestPoint(t, u);
    if b < cost {
      DivModSmall(b, cost);
      if n > 0 {
        RepeatDebitCount(t, u, cost, now, n - 1);
      }
    } else {
      DivModStep(b, cost);
      var t' := SavePointHistorySpec(t, u, -(cost as int), now).value;
      assert LatestPoint(t', u) == b - cost;
      RepeatDebitCount(t', u, cost, now, n - 1);
    }
  }

  /** From the initial 50 points, debits of 2 go through 25 times and leave 0. */
  lemma FiftyPointsBuyTwentyFiveDebitsOfTwo(t: Tables, u: UserId, now: Time, n: nat)
    requires HasLedger(t, u) && LatestPoint(t, u) == 50 && n >= 25
    ensures RepeatDebit(t, u, 2, now, n).1 == 25
    ensures HasLedger(RepeatDebit(t, u, 2, now, n).0, u)
    ensures LatestPoint(RepeatDebit(t, u, 2, now, n).0, u) == 0
  {
    RepeatDebitCount(t, u, 2, now, n);
  }
}
