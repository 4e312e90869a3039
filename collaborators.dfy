/** The collaborators of the status report, reduced to the values they hand
    back: the database driver (`authDefault`, `authLast`, `queueReport`, and
    `query` followed by the `fetch` loop) and the clock (`time`, `strtotime`). */
module Collaborators {
  import opened Php

  /** The array `authLast($user)` returns: index 0 is the last login, index 1
      the last action. */
  datatype Evidence = Evidence(lastLogin: string, lastAction: string)

  /** A queue entry's `qb_status`: the eight `QUICKBOOKS_STATUS_*` constants,
      or any other code. The constants' values are defined outside the
      class, so an `Unlisted` code is taken to differ from all eight. */
  datatype JobStatus =
    | Queued | Succeeded | Failed | Processing | Handled | Cancelled | Removed | NoOp
    | Unlisted(code: string)

  /** One array of `queueReport`'s list: `quickbooks_queue_id`, `qb_action`,
      `ident`, `priority`, `qb_status`, `msg`, `enqueue_datetime` and
      `dequeue_datetime`. */
  datatype Job = Job(
    queueId: Cell, action: Cell, ident: Cell, priority: Cell,
    status: JobStatus, msg: Cell, enqueued: Cell, dequeued: Cell)

  /** The mirror report's query, as conditions rather than SQL text: rows of
      `table` whose error-number column is non-empty, created no earlier than
      `createdFrom` and no later than `createdTo` when those are present. */
  datatype RowQuery = RowQuery(table: string, createdFrom: Option<int>, createdTo: Option<int>)

  /** What the driver answers; `fetchRows(q)` is the sequence of rows the
      `fetch` loop receives for the query `q` before `fetch` returns false. */
  datatype Driver = Driver(
    authDefault: Cell,
    authLast: Cell -> Option<Evidence>,
    queueReport: (Cell, Cell, Cell) -> seq<Job>,
    fetchRows: RowQuery -> seq<Row>)

  /** `time()` and `strtotime()`; `None` is `strtotime`'s `false`. */
  datatype Clock = Clock(now: int, strtotime: Cell -> Option<int>)

  /** A falsy `$user` is replaced by the driver's default user. */
  function ResolveUser(user: Cell, driver: Driver): Cell {
    if Truthy(user) then user else driver.authDefault
  }
}
