/** `QuickBooks_Status_Report::status`: the health of the connection to
    QuickBooks, read from a table of levels keyed by a number of seconds. */
module Escalation {
  import opened Php
  import opened Collaborators

  const StatusOk: string := "OK"
  const StatusNotice: string := "Notice"
  const StatusCaution: string := "Caution"
  const StatusWarning: string := "Warning"
  const StatusDanger: string := "Danger"
  const StatusUnknown: string := "Unknown"

  /** One entry of the level table: `array(severity, message template)`. */
  datatype Tier = Tier(severity: string, template: string)

  type Levels = map<int, Tier>

  /** What `status` returns: a table entry as it stands (two elements), or a
      matched entry whose message is formatted and which carries the two
      evidence timestamps (four elements). */
  datatype StatusReply =
    | Plain(tier: Tier)
    | Stamped(severity: string, message: string, lastLogin: string, lastAction: string)

  function Severity(r: StatusReply): string {
    match r
    case Plain(t) => t.severity
    case Stamped(s, _, _, _) => s
  }

  /** `sprintf($template, $days, $hours, $minutes)`. */
  type Formatter = (string, int, int, int) -> string

  const NoticeTier: Tier := Tier(StatusNotice, "Notice: A connection has not been made in %d days, %d hours and %d minutes.")
  const CautionTier: Tier := Tier(StatusCaution, "Caution: A connection has not been made in %d days, %d hours and %d minutes.")
  const WarningTier: Tier := Tier(StatusWarning, "Warning: A connection has not been made in %d days, %d hours and %d minutes.")
  const DangerTier: Tier := Tier(StatusDanger, "ERROR: A connection has not been made in %d days, %d hours and %d minutes! Contact support to get this issue resolved!")

  /** Keyed by 12, 24, 36 and 48 hours in seconds. */
  const DefaultLevels: Levels := map[43200 := NoticeTier, 86400 := CautionTier, 129600 := WarningTier, 172800 := DangerTier]

  const OkTier: Tier := Tier(StatusOk, "Status is OK!")
  const UnknownTier: Tier := Tier(StatusUnknown, "Status is unknown.")

  /** The four defaults with the two sentinel entries. */
  const DefaultTable: Levels :=
    map[43200 := NoticeTier, 86400 := CautionTier, 129600 := WarningTier, 172800 := DangerTier,
        0 := OkTier, -1 := UnknownTier]

  /** The table `status` works with: the caller's levels, or the four
      defaults when the caller gives none, completed with an OK entry at key
      0 and an Unknown entry at key -1 where those keys are missing. */
  function WithSentinels(levels: Levels): (table: Levels)
    ensures 0 in table && -1 in table
    ensures var given := if |levels| == 0 then DefaultLevels else levels;
      && table.Keys == given.Keys + {0, -1}
      && (forall k :: k in given ==> table[k] == given[k])
      && (0 !in given ==> table[0] == OkTier)
      && (-1 !in given ==> table[-1] == UnknownTier)
  {
    var given := if |levels| == 0 then DefaultLevels else levels;
    var withOk := if 0 in given then given else given[0 := OkTier];
    if -1 in withOk then withOk else withOk[-1 := UnknownTier]
  }

  /** Without caller levels the table is exactly the four defaults and the
      two sentinels. */
  lemma DefaultCompleted()
    ensures WithSentinels(map[]) == DefaultTable
  {
  }

  datatype Elapsed = Elapsed(days: int, hours: int, minutes: int)

  /** Days, then the hours left over, then the minutes left over, each by
      floor division (a day is 86400 seconds, an hour 3600, a minute 60);
      the result is the unique such split of `ago`. */
  function Breakdown(ago: int): (e: Elapsed)
    ensures 0 <= e.hours < 24 && 0 <= e.minutes < 60
    ensures 0 <= ago - (86400 * e.days + 3600 * e.hours + 60 * e.minutes) < 60
  {
    var days := ago / 86400;
    var hours := (ago - days * 86400) / 3600;
    var minutes := (ago - days * 86400 - hours * 3600) / 60;
    Elapsed(days, hours, minutes)
  }

  /** 177906 seconds are 2 days, 1 hour and 25 minutes; the documented
      54 days, 1 hour and 46 minutes are 4671960 seconds. */
  lemma BreakdownExample()
    ensures Breakdown(177906) == Elapsed(2, 1, 25)
    ensures Breakdown(4671960) == Elapsed(54, 1, 46)
  {
  }

  /** The seconds since the last action: `time() - strtotime($last[1])`,
      where a failed parse counts as 0. */
  function Ago(clock: Clock, e: Evidence): int {
    clock.now - match clock.strtotime(Text(e.lastAction)) case Some(t) => t case None => 0
  }

  /** A matched entry: its severity, its template formatted with the
      breakdown of `ago`, then `$last[0]` and `$last[1]`. */
  function Stamp(t: Tier, e: Evidence, ago: int, format: Formatter): StatusReply {
    var b := Breakdown(ago);
    Stamped(t.severity, format(t.template, b.days, b.hours, b.minutes), e.lastLogin, e.lastAction)
  }

  /** The largest element of a non-empty finite set. */
  ghost function MaxOf(s: set<int>): (m: int)
    requires exists x :: x in s
    ensures m in s && forall y :: y in s ==> y <= m
    decreases |s|
  {
    var x :| x in s;
    var rest := s - {x};
    if exists y :: y in rest then
      var m := MaxOf(rest);
      assert forall y :: y in s ==> y == x || y in rest;
      if x < m then m else x
    else
      assert forall y :: y in s ==> y == x by {
        forall y | y in s ensures y == x { assert y !in rest; }
      }
      x
  }

  /** The keys the scan on line 136 accepts: not negative and greater than
      the value it compares against. */
  ghost function Above(table: Levels, compared: int): set<int> {
    set k | k in table && 0 <= k && compared < k
  }

  ghost function NonNegativeKeys(table: Levels): set<int> {
    set k | k in table && 0 <= k
  }

  /** What `status` answers for a completed table: the Unknown entry as it
      stands without evidence; otherwise the first key in descending order
      that the scan accepts (the largest accepted key), stamped; or the OK
      entry as it stands when no key is accepted. */
  ghost function Escalate(table: Levels, last: Option<Evidence>, compared: int, clock: Clock, format: Formatter)
    : (r: StatusReply)
    requires 0 in table && -1 in table
    ensures last.None? ==> r == Plain(table[-1])
    ensures last.Some? ==> (r.Plain? <==> forall k :: k in table && 0 <= k ==> k <= compared)
    ensures last.Some? && r.Plain? ==> r == Plain(table[0])
  {
    match last
    case None => Plain(table[-1])
    case Some(e) =>
      var above := Above(table, compared);
      assert (forall k :: k in table && 0 <= k ==> k <= compared) <==> (forall k :: k !in above) by {
        if forall k :: k !in above {
          forall k | k in table && 0 <= k ensures k <= compared {
            assert k !in above;
          }
        }
      }
      if exists k :: k in above then Stamp(table[MaxOf(above)], e, Ago(clock, e), format) else Plain(table[0])
  }

  /** `krsort` followed by iteration: every key once, in strictly descending
      order. */
  method Krsort(table: Levels) returns (order: seq<int>)
    ensures forall k :: k in table <==> k in order
    ensures forall i, j :: 0 <= i < j < |order| ==> order[i] > order[j]
  {
    var rest := table.Keys;
    order := [];
    while exists k :: k in rest
      invariant rest <= table.Keys
      invariant forall k :: k in table <==> k in order || k in rest
      invariant forall i, j :: 0 <= i < j < |order| ==> order[i] > order[j]
      invariant forall i, k :: 0 <= i < |order| && k in rest ==> order[i] > k
      decreases rest
    {
      ghost var top := MaxOf(rest);
      var m :| m in rest && forall x :: x in rest ==> x <= m;
      order := order + [m];
      rest := rest - {m};
    }
  }

  /** The scan stops at `order[i]`: no earlier key was accepted, so no
      accepted key is larger. */
  lemma ScanHit(table: Levels, order: seq<int>, compared: int, i: nat)
    requires forall k :: k in table <==> k in order
    requires forall p, q :: 0 <= p < q < |order| ==> order[p] > order[q]
    requires i < |order| && 0 <= order[i] && compared < order[i]
    requires forall j :: 0 <= j < i ==> order[j] !in Above(table, compared)
    ensures order[i] in Above(table, compared) && MaxOf(Above(table, compared)) == order[i]
  {
    var above := Above(table, compared);
    var level := order[i];
    assert level in above;
    forall x | x in above ensures x <= level {
      var p :| 0 <= p < |order| && order[p] == x;
      assert i <= p;
    }
  }

  /** The scan ran through every key without accepting one. */
  lemma ScanMiss(table: Levels, order: seq<int>, compared: int)
    requires forall k :: k in table <==> k in order
    requires forall j :: 0 <= j < |order| ==> order[j] !in Above(table, compared)
    ensures forall x :: x !in Above(table, compared)
  {
    forall x | x in table ensures x !in Above(table, compared) {
      var p :| 0 <= p < |order| && order[p] == x;
    }
  }

  lemma EscalateHit(table: Levels, e: Evidence, compared: int, clock: Clock, format: Formatter, level: int)
    requires 0 in table && -1 in table
    requires level in Above(table, compared) && MaxOf(Above(table, compared)) == level
    ensures Escalate(table, Some(e), compared, clock, format) == Stamp(table[level], e, Ago(clock, e), format)
  {
  }

  lemma EscalateMiss(table: Levels, e: Evidence, compared: int, clock: Clock, format: Formatter)
    requires 0 in table && -1 in table
    requires forall x :: x !in Above(table, compared)
    ensures Escalate(table, Some(e), compared, clock, format) == Plain(table[0])
  {
  }

  /** The `foreach` of lines 129-160 over the keys in descending order:
      negative keys are skipped, and the first key greater than `compared`
      is the answer. That key is the largest accepted one; no answer means
      no key is accepted. */
  method Scan(table: Levels, order: seq<int>, compared: int) returns (hit: Option<int>)
    requires forall k :: k in table <==> k in order
    requires forall p, q :: 0 <= p < q < |order| ==> order[p] > order[q]
    ensures hit.Some? ==> hit.value in Above(table, compared) && MaxOf(Above(table, compared)) == hit.value
    ensures hit.None? ==> forall x :: x !in Above(table, compared)
  {
    var i := 0;
    while i < |order|
      invariant 0 <= i <= |order|
      invariant forall j :: 0 <= j < i ==> order[j] !in Above(table, compared)
    {
      var level := order[i];
      if level < 0 {
        i := i + 1;
        continue;
      }
      if level > compared {
        ScanHit(table, order, compared, i);
        return Some(level);
      }
      i := i + 1;
    }
    ScanMiss(table, order, compared);
    return None;
  }

  /** `status($user, $levels)`: `compared` is the integer the comparison on
      line 136 sees for `$last[1]`. */
  method Status(driver: Driver, clock: Clock, user: Cell, levels: Levels, compared: int, format: Formatter)
    returns (r: StatusReply)
    ensures r == Escalate(WithSentinels(levels), driver.authLast(ResolveUser(user, driver)), compared, clock, format)
  {
    var table := WithSentinels(levels);
    var last := driver.authLast(ResolveUser(user, driver));
    if last.None? {
      return Plain(table[-1]);
    }
    var order := Krsort(table);
    var hit := Scan(table, order, compared);
    if hit.Some? {
      EscalateHit(table, last.value, compared, clock, format, hit.value);
      r := Stamp(table[hit.value], last.value, Ago(clock, last.value), format);
    } else {
      EscalateMiss(table, last.value, compared, clock, format);
      r := Plain(table[0]);
    }
  }

  /** As written, the scan decides on the largest key alone: with evidence,
      the answer is the largest key's entry, stamped, when that key exceeds
      the compared value, and the OK entry otherwise. The elapsed time only
      fills in the message. */
  lemma EscalateTopKey(table: Levels, e: Evidence, compared: int, clock: Clock, format: Formatter)
    requires 0 in table && -1 in table
    ensures 0 in NonNegativeKeys(table)
    ensures var top := MaxOf(NonNegativeKeys(table));
      Escalate(table, Some(e), compared, clock, format)
        == if compared < top then Stamp(table[top], e, Ago(clock, e), format) else Plain(table[0])
  {
    var keys := NonNegativeKeys(table);
    assert 0 in keys;
    var top := MaxOf(keys);
    var above := Above(table, compared);
    if compared < top {
      assert top in above;
      assert MaxOf(above) == top by {
        assert MaxOf(above) in keys;
      }
    } else {
      assert forall x :: x in above ==> x in keys;
    }
  }

  // ---------------------------------------------------------------------
  // The evidently intended scan compares the elapsed seconds with each key.

  /** The keys the elapsed time has passed: not negative and below `ago`. */
  ghost function Reached(table: Levels, ago: int): set<int> {
    set k | k in table && 0 <= k && k < ago
  }

  /** `status` with line 136 reading `$ago > $level`: the largest key the
      elapsed time has passed, stamped; the OK entry as it stands when none
      has been passed. */
  ghost function IntendedEscalate(table: Levels, last: Option<Evidence>, clock: Clock, format: Formatter): StatusReply
    requires 0 in table && -1 in table
  {
    match last
    case None => Plain(table[-1])
    case Some(e) =>
      var ago := Ago(clock, e);
      var reached := Reached(table, ago);
      if exists k :: k in reached then Stamp(table[MaxOf(reached)], e, ago, format) else Plain(table[0])
  }

  /** The rank of a default severity: OK, Notice, Caution, Warning, Danger. */
  function Rank(severity: string): int {
    if severity == StatusNotice then 1
    else if severity == StatusCaution then 2
    else if severity == StatusWarning then 3
    else if severity == StatusDanger then 4
    else 0
  }

  /** With the intended comparison, more elapsed time never selects a
      smaller key. */
  lemma ReachedMonotone(table: Levels, ago1: int, ago2: int)
    requires ago1 <= ago2
    requires exists k :: k in Reached(table, ago1)
    ensures exists k :: k in Reached(table, ago2)
    ensures MaxOf(Reached(table, ago1)) <= MaxOf(Reached(table, ago2))
  {
    var m1 := MaxOf(Reached(table, ago1));
    assert m1 in Reached(table, ago2);
  }

  /** The largest default key below `ago`, for a positive `ago`. */
  function DefaultStep(ago: int): int {
    if ago <= 43200 then 0
    else if ago <= 86400 then 43200
    else if ago <= 129600 then 86400
    else if ago <= 172800 then 129600
    else 172800
  }

  /** With the default table and the intended comparison, the key chosen
      after `ago` seconds has exact boundaries at 12, 24, 36 and 48 hours;
      a key equal to the elapsed time does not count as passed. */
  lemma DefaultReached(ago: int)
    requires 0 < ago
    ensures exists k :: k in Reached(DefaultTable, ago)
    ensures MaxOf(Reached(DefaultTable, ago)) == DefaultStep(ago)
  {
    var reached := Reached(DefaultTable, ago);
    var d := DefaultStep(ago);
    assert d in reached;
    assert forall k :: k in reached ==> k <= d;
  }

  /** The rank of the default severity after `ago` seconds, under the
      intended comparison. */
  function DefaultRank(ago: int): int {
    if ago <= 43200 then 0
    else if ago <= 86400 then 1
    else if ago <= 129600 then 2
    else if ago <= 172800 then 3
    else 4
  }

  lemma RankValues()
    ensures Rank(StatusOk) == 0 && Rank(StatusNotice) == 1 && Rank(StatusCaution) == 2
    ensures Rank(StatusWarning) == 3 && Rank(StatusDanger) == 4
  {
  }

  /** The severity `DefaultRank` names is the one at `DefaultStep`. */
  lemma DefaultStepRank(ago: int)
    ensures DefaultStep(ago) in DefaultTable && Rank(DefaultTable[DefaultStep(ago)].severity) == DefaultRank(ago)
  {
    RankValues();
  }

  /** With the default table, the intended answer's severity is the one
      `DefaultRank` gives for the elapsed time. */
  lemma IntendedDefaultRank(e: Evidence, clock: Clock, format: Formatter)
    ensures Rank(Severity(IntendedEscalate(DefaultTable, Some(e), clock, format))) == DefaultRank(Ago(clock, e))
  {
    var ago := Ago(clock, e);
    DefaultStepRank(ago);
    if 0 < ago {
      DefaultReached(ago);
    } else {
      assert forall x :: x !in Reached(DefaultTable, ago);
    }
  }

  /** With the default table and the intended comparison, the severity
      never decreases as the elapsed time grows. */
  lemma IntendedSeverityMonotone(e: Evidence, clock1: Clock, clock2: Clock, format: Formatter)
    requires Ago(clock1, e) <= Ago(clock2, e)
    ensures Rank(Severity(IntendedEscalate(DefaultTable, Some(e), clock1, format)))
      <= Rank(Severity(IntendedEscalate(DefaultTable, Some(e), clock2, format)))
  {
    IntendedDefaultRank(e, clock1, format);
    IntendedDefaultRank(e, clock2, format);
  }

  /** The discrepancy: with the default table, evidence of an action one
      minute ago and a compared value (2010) below the largest key, the
      answer is Danger as written and OK as intended. */
  lemma AsWrittenIgnoresElapsed(e: Evidence, format: Formatter)
    ensures var clock := Clock(60, (c: Cell) => Some(0));
      && Severity(Escalate(DefaultTable, Some(e), 2010, clock, format)) == StatusDanger
      && Severity(IntendedEscalate(DefaultTable, Some(e), clock, format)) == StatusOk
  {
    var clock := Clock(60, (c: Cell) => Some(0));
    var keys := NonNegativeKeys(DefaultTable);
    assert 172800 in keys;
    assert MaxOf(keys) == 172800 by {
      assert MaxOf(keys) in DefaultTable;
    }
    EscalateTopKey(DefaultTable, e, 2010, clock, format);
    DefaultReached(60);
  }
}
