/** `QuickBooks_Status_Report::create`: the entry point that picks the queue
    report or the mirror report by mode. */
module StatusReport {
  import opened Php
  import opened Collaborators
  import opened QueueReport
  import opened MirrorReport

  const ModeQueue: string := "queue"
  const ModeMirror: string := "mirror"

  /** What `create` returns: the queue report, the mirror report keyed by
      pretty object name, or `false` for any other mode. */
  datatype Report =
    | Queue(rows: seq<QueueRow>)
    | Mirror(entries: Entries)
    | Refused

  /** `create($mode, $user, $date_from, $date_to, $fetch_full_record,
      $restrict)`: a falsy user is replaced by the driver's default user;
      the queue report is the driver's job list for that user and date
      range, one record per job in order; the mirror report is the error
      rows of every included import object; any other mode is refused. */
  method Create(driver: Driver, clock: Clock, schema: Schema, mode: string, user: Cell,
                dateFrom: Cell, dateTo: Cell, full: bool, restrict: seq<string>)
    returns (r: Report)
    ensures r.Queue? <==> mode == ModeQueue
    ensures r.Mirror? <==> mode == ModeMirror
    ensures r.Refused? <==> mode != ModeQueue && mode != ModeMirror
    ensures r.Queue? ==>
      var list := driver.queueReport(ResolveUser(user, driver), dateFrom, dateTo);
      && |r.rows| == |list|
      && forall i :: 0 <= i < |list| ==> r.rows[i] == QueueRecord(list[i])
    ensures r.Mirror? ==> r.entries == MirrorOf(driver, clock, schema, MirrorRequest(dateFrom, dateTo, full, restrict))
  {
    var resolved := user;
    if !Truthy(user) {
      resolved := driver.authDefault;
    }
    if mode == ModeQueue {
      var rows := CreateForQueue(driver, resolved, dateFrom, dateTo);
      return Queue(rows);
    } else if mode == ModeMirror {
      var entries := CreateForMirror(driver, clock, schema, MirrorRequest(dateFrom, dateTo, full, restrict));
      return Mirror(entries);
    } else {
      return Refused;
    }
  }
}
