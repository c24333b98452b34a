/**
 The `idempotency_keys` table and the statements that touch it. Every SQL statement is one
 atomic function of the table; times are microseconds read by the statement itself, so two
 statements may read clocks that disagree.
 */
module IdempotencyTable {
  import opened Basics
  import opened Http

  /** A stored response. */
  datatype Response = Response(status: int, header: Header, body: Bytes)

  /** One row. Nullable columns are options. */
  datatype Row = Row(
    fingerprint: Bytes,
    lockToken: Option<Bytes>,
    lockedUntil: Option<int>,
    createdAt: int,
    status: Option<int>,
    header: Option<Header>,
    body: Option<Bytes>
  )

  /** Rows by primary key. */
  type Table = map<Bytes, Row>

  /** `column <= value` in a WHERE clause: NULL is not true. */
  predicate SqlAtMost(column: Option<int>, value: int) {
    column.Some? && column.value <= value
  }

  /** Whether a conflicting row may be taken over by a claim reading `now`. */
  predicate Claimable(row: Row, fingerprint: Bytes, retention: int, now: int) {
    || row.createdAt <= now - retention
    || (row.status.None? && SqlAtMost(row.lockedUntil, now) && row.fingerprint == fingerprint)
  }

  /** The row a successful claim leaves. */
  function ClaimedRow(fingerprint: Bytes, token: Bytes, lockTTL: int, now: int): Row {
    Row(fingerprint, Some(token), Some(now + lockTTL), now, None, None, None)
  }

  /** Whether a claim of `id` inserts or takes over. */
  predicate ClaimSucceeds(rows: Table, id: Bytes, fingerprint: Bytes, retention: int, now: int) {
    id in rows ==> Claimable(rows[id], fingerprint, retention, now)
  }

  /** The insert-or-takeover statement. */
  function ClaimKey(
    rows: Table, id: Bytes, fingerprint: Bytes, token: Bytes, lockTTL: int, retention: int, now: int
  ): Table {
    if ClaimSucceeds(rows, id, fingerprint, retention, now)
    then rows[id := ClaimedRow(fingerprint, token, lockTTL, now)]
    else rows
  }

  /** `id = $1 AND lock_token = $2`. */
  predicate Holds(rows: Table, id: Bytes, token: Bytes) {
    id in rows && rows[id].lockToken == Some(token)
  }

  /** The row a stored response leaves. */
  function CompletedRow(row: Row, response: Response): Row {
    row.(status := Some(response.status), header := Some(response.header), body := Some(response.body),
         lockToken := None, lockedUntil := None)
  }

  /** Stores a response under a fenced update. */
  function CompleteKey(rows: Table, id: Bytes, token: Bytes, response: Response): Table {
    if Holds(rows, id, token) then rows[id := CompletedRow(rows[id], response)] else rows
  }

  /** Deletes a key under a fenced delete. */
  function ReleaseKey(rows: Table, id: Bytes, token: Bytes): Table {
    if Holds(rows, id, token) then rows - {id} else rows
  }

  /** The keys a cleanup reading `now` may delete. */
  function Expired(rows: Table, retention: int, now: int): set<Bytes> {
    set id | id in rows && rows[id].createdAt <= now - retention
  }

  /** The batch a cleanup deletes: at most `limit` expired keys, oldest first, ties in any order. */
  predicate OldestExpired(rows: Table, retention: int, now: int, limit: nat, victims: set<Bytes>) {
    var expired := Expired(rows, retention, now);
    && victims <= expired
    && |victims| == (if |expired| <= limit then |expired| else limit)
    && (forall v, e | v in victims && e in expired - victims :: rows[v].createdAt <= rows[e].createdAt)
  }

  /** A row is either in progress or completed, never both and never neither. */
  predicate InProgress(row: Row) {
    && row.lockToken.Some? && row.lockedUntil.Some?
    && row.status.None? && row.header.None? && row.body.None?
  }

  predicate Completed(row: Row) {
    && row.lockToken.None? && row.lockedUntil.None?
    && row.status.Some? && row.header.Some? && row.body.Some?
  }

  /** The response a completed row replays. */
  function ResponseOf(row: Row): Response
    requires Completed(row)
  {
    Response(row.status.value, row.header.value, row.body.value)
  }
}
