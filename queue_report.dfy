/** `QuickBooks_Status_Report::_createForQueue`: one ten-field record per
    queued job, in the order the driver lists them. */
module QueueReport {
  import opened Php
  import opened Collaborators
  import opened ErrorDescriptions

  const StatusLabels: map<JobStatus, string> := map[
    Queued := "Queued",
    Succeeded := "Successfully processed",
    Failed := "Error",
    Processing := "Currently being processed",
    Handled := "An error occurred, but the error was handled",
    Cancelled := "Cancelled",
    Removed := "Removed from queue",
    NoOp := "No operation occurred"
  ]

  /** `$statuses[$arr['qb_status']]`: the label of one of the eight status
      constants, and null (PHP also raises a notice) for any other code. */
  function StatusLabel(status: JobStatus): (shown: Cell)
    ensures shown == Null <==> status.Unlisted?
  {
    if status in StatusLabels then Text(StatusLabels[status]) else Null
  }

  /** `$errnum` and `$errmsg` as lines 195-207 leave them. */
  datatype ErrorSplit = ErrorSplit(code: string, message: string)

  /** Splits a job's `msg` at its first colon: empty for a falsy `msg`; `?`
      and the whole text when there is no colon or it comes first (`strpos`
      then answers `false` or `0`, both falsy); otherwise the text before the
      colon, and the text after it with one more character dropped. */
  function SplitMessage(msg: Cell): ErrorSplit {
    if !Truthy(msg) then ErrorSplit("", "")
    else match StrPos(msg.s, ':')
      case Some(p) =>
        if p == 0 then ErrorSplit("?", msg.s) else ErrorSplit(msg.s[..p], SubstrFrom(msg.s, p + 2))
      case None => ErrorSplit("?", msg.s)
  }

  /** `strpos` finds a colon that no earlier colon precedes. */
  lemma FirstColonAt(s: string, p: nat)
    requires p < |s| && s[p] == ':' && ':' !in s[..p]
    ensures StrPos(s, ':') == Some(p)
  {
  }

  /** The three outcomes of the split, stated by where the first colon is. */
  lemma SplitMessageCases(msg: Cell)
    ensures !Truthy(msg) ==> SplitMessage(msg) == ErrorSplit("", "")
    ensures Truthy(msg) && (':' !in msg.s || msg.s[0] == ':') ==> SplitMessage(msg) == ErrorSplit("?", msg.s)
    ensures forall p :: Truthy(msg) && 0 < p < |msg.s| && msg.s[p] == ':' && ':' !in msg.s[..p] ==>
      SplitMessage(msg) == ErrorSplit(msg.s[..p], if p + 2 <= |msg.s| then msg.s[p + 2..] else "")
  {
    if Truthy(msg) {
      var s := msg.s;
      forall p | 0 < p < |s| && s[p] == ':' && ':' !in s[..p]
        ensures StrPos(s, ':') == Some(p)
      {
        FirstColonAt(s, p);
      }
      if s[0] == ':' {
        FirstColonAt(s, 0);
      }
    }
  }

  /** Splitting `code + ": " + message` gives back the code and the message,
      for any non-empty code without a colon. */
  lemma SplitJoin(code: string, message: string)
    requires code != "" && ':' !in code
    ensures SplitMessage(Text(code + ": " + message)) == ErrorSplit(code, message)
  {
    var s := code + ": " + message;
    var n := |code|;
    assert s[n] == ':' && s[..n] == code;
    assert s[n + 2..] == message;
    SplitMessageCases(Text(s));
  }

  /** One row of the queue report, in the order of lines 209-220. */
  datatype QueueRow = QueueRow(
    queueId: Cell, action: Cell, ident: Cell, priority: Cell, status: Cell,
    errorCode: string, errorMessage: string, description: string,
    enqueued: Cell, dequeued: Cell)

  function QueueRecord(job: Job): QueueRow {
    var split := SplitMessage(job.msg);
    QueueRow(job.queueId, job.action, job.ident, job.priority, StatusLabel(job.status),
             split.code, split.message, Describe(Text(split.code), Text(split.message)),
             job.enqueued, job.dequeued)
  }

  /** The split yields the code "3100" exactly when the message starts
      with "3100:". */
  lemma SplitCode3100(msg: Cell)
    ensures SplitMessage(msg).code == "3100" <==> msg.Text? && |msg.s| >= 5 && msg.s[..5] == "3100:"
  {
    var code := SplitMessage(msg).code;
    if msg.Text? && |msg.s| >= 5 && msg.s[..5] == "3100:" {
      var s := msg.s;
      assert s[4] == ':' && s[..4] == "3100";
      FirstColonAt(s, 4);
    }
    if code == "3100" {
      assert Truthy(msg);
      var p := StrPos(msg.s, ':').value;
      assert msg.s[..p] == "3100";
      assert msg.s[..5] == msg.s[..4] + [msg.s[4]];
    }
  }

  /** A queue row carries the duplicate-name explanation exactly when the
      job's message starts with "3100:". */
  lemma DuplicateNameJobs(job: Job)
    ensures QueueRecord(job).description == DuplicateName <==>
      job.msg.Text? && |job.msg.s| >= 5 && job.msg.s[..5] == "3100:"
  {
    SplitCode3100(job.msg);
  }

  /** A duplicate-name error message splits into its code and its text. */
  lemma SplitExample()
    ensures SplitMessage(Text("3100: Name already exists")) == ErrorSplit("3100", "Name already exists")
  {
    var message := "Name already exists";
    assert "3100: Name already exists" == "3100" + ": " + message;
    SplitJoin("3100", message);
  }

  /** A job that failed with a duplicate-name error is explained; a job with
      an empty message has neither a code nor an explanation. */
  lemma QueueExamples(job: Job)
    ensures job.msg == Text("3100: Name already exists") ==> QueueRecord(job).description == DuplicateName
    ensures job.msg == Text("") ==> QueueRecord(job).errorCode == "" && QueueRecord(job).description == ""
  {
    if job.msg == Text("3100: Name already exists") {
      assert job.msg.s[..5] == "3100:";
      DuplicateNameJobs(job);
    }
  }

  /** `_createForQueue`: the driver's list for this user and date range,
      each job turned into its record, in order. */
  method CreateForQueue(driver: Driver, user: Cell, dateFrom: Cell, dateTo: Cell)
    returns (report: seq<QueueRow>)
    ensures var list := driver.queueReport(user, dateFrom, dateTo);
      && |report| == |list|
      && forall i :: 0 <= i < |list| ==> report[i] == QueueRecord(list[i])
  {
    var list := driver.queueReport(user, dateFrom, dateTo);
    report := [];
    for i := 0 to |list|
      invariant |report| == i
      invariant forall j :: 0 <= j < i ==> report[j] == QueueRecord(list[j])
    {
      report := report + [QueueRecord(list[i])];
    }
  }
}
