/**
 The event log of one task and the pages read from it. A read is one atomic
 snapshot; an append is one atomic increment of the counter plus one row.
 */
module EventPages {
  import opened Prelude

  datatype Status =
    | Succeeded | Partial | Failed | BudgetExceeded | Cancelled
    | InProgress | Queued | Paused | PauseRequested | CancelRequested
    | AwaitingApproval | RecoveryRequired

  predicate TerminalStatus(s: Status) {
    s in {Succeeded, Partial, Failed, BudgetExceeded, Cancelled}
  }

  datatype Event = Event(sequence: nat, body: string)

  /** `rows` is keyed by the unique index on the event sequence. */
  datatype Log = Log(eventSequence: nat, rows: map<nat, Event>, status: Status, durable: bool)

  ghost predicate Dense(log: Log) {
    && (forall n: nat :: n in log.rows <==> 1 <= n <= log.eventSequence)
    && (forall n :: n in log.rows ==> log.rows[n].sequence == n)
  }

  /** The counter and the row change together, so no number is skipped. */
  function Append(log: Log, body: string, status: Status): Log {
    var n := log.eventSequence + 1;
    log.(eventSequence := n, rows := log.rows[n := Event(n, body)], status := status)
  }

  lemma AppendKeepsDense(log: Log, body: string, status: Status)
    requires Dense(log)
    ensures Dense(Append(log, body, status))
    ensures forall n :: n in log.rows ==>
              n in Append(log, body, status).rows && Append(log, body, status).rows[n] == log.rows[n]
  {
  }

  datatype Page = Page(
    status: Status, durable: bool, items: seq<Event>, nextCursor: nat, hasMore: bool, hasOlder: bool)

  datatype PageError = CursorInvalid

  // -------------------------------------------------------------- queries

  /** Rows numbered `from` to `upto`, in order, at most `limit` of them. */
  function Ascending(rows: map<nat, Event>, from: nat, upto: nat, limit: nat): seq<Event>
    decreases upto + 1 - from
  {
    if from > upto || limit == 0 then []
    else if from in rows then [rows[from]] + Ascending(rows, from + 1, upto, limit - 1)
    else Ascending(rows, from + 1, upto, limit)
  }

  /** Rows numbered 1 to `from`, newest first, at most `limit` of them. */
  function Descending(rows: map<nat, Event>, from: nat, limit: nat): seq<Event> {
    if from == 0 || limit == 0 then []
    else if from in rows then [rows[from]] + Descending(rows, from - 1, limit - 1)
    else Descending(rows, from - 1, limit)
  }

  function Reversed(s: seq<Event>): seq<Event> {
    if s == [] then [] else Reversed(s[1..]) + [s[0]]
  }

  /** The rows `from`..`upto` of a dense log. */
  function Slice(log: Log, from: nat, upto: nat): (s: seq<Event>)
    requires from >= 1 && forall n: nat :: from <= n <= upto ==> n in log.rows
    ensures |s| == if from <= upto then upto + 1 - from else 0
    ensures forall i :: 0 <= i < |s| ==> s[i] == log.rows[from + i]
    decreases upto + 1 - from
  {
    if from > upto then [] else [log.rows[from]] + Slice(log, from + 1, upto)
  }

  function MinNat(a: nat, b: nat): nat {
    if a < b then a else b
  }

  lemma {:induction false} AscendingIsSlice(log: Log, from: nat, limit: nat)
    requires Dense(log) && from >= 1
    ensures Ascending(log.rows, from, log.eventSequence, limit)
            == Slice(log, from, MinNat(log.eventSequence, from + limit - 1))
    decreases log.eventSequence + 1 - from
  {
    if from <= log.eventSequence && limit > 0 {
      AscendingIsSlice(log, from + 1, limit - 1);
    }
  }

  lemma {:induction false} DescendingIsSlice(log: Log, from: nat, limit: nat)
    requires Dense(log) && from <= log.eventSequence
    ensures |Descending(log.rows, from, limit)| == MinNat(from, limit)
    ensures forall i :: 0 <= i < |Descending(log.rows, from, limit)| ==>
              Descending(log.rows, from, limit)[i] == log.rows[from - i]
  {
    if from > 0 && limit > 0 {
      DescendingIsSlice(log, from - 1, limit - 1);
    }
  }

  lemma {:induction false} ReversedAt(s: seq<Event>)
    ensures |Reversed(s)| == |s|
    ensures forall i :: 0 <= i < |s| ==> Reversed(s)[i] == s[|s| - 1 - i]
  {
    if s != [] {
      ReversedAt(s[1..]);
    }
  }

  // ---------------------------------------------------------------- pages

  /** The rows a query returns: one more than the page holds, newest first when going back. */
  function Found(log: Log, after: Option<nat>, before: Option<nat>, limit: nat): seq<Event> {
    if after.Some? then Ascending(log.rows, after.value + 1, log.eventSequence, limit + 1)
    else if before.Some? && before.value == 0 then []
    else Descending(log.rows, if before.Some? then before.value - 1 else log.eventSequence, limit + 1)
  }

  /** The page made from the rows found. */
  function Assembled(log: Log, after: Option<nat>, found: seq<Event>, limit: nat): Page {
    var more := |found| > limit;
    var kept := if more then found[..limit] else found;
    var items := if after.Some? then kept else Reversed(kept);
    var cursor := if items != [] then items[|items| - 1].sequence
                  else if after.Some? then after.value else 0;
    Page(log.status, log.durable, items, cursor,
         if after.Some? then more else items != [] && cursor < log.eventSequence,
         if after.Some? then items != [] && items[0].sequence > 1 else more)
  }

  /** One read: forward after a cursor, or backward from a bound or from the newest row. */
  function ReadPage(log: Log, after: Option<nat>, before: Option<nat>, limit: nat)
    : Result<Page, PageError>
  {
    var latest := log.eventSequence;
    if (after.Some? && after.value > latest) || (before.Some? && before.value > latest + 1)
    then Err(CursorInvalid)
    else Ok(Assembled(log, after, Found(log, after, before, limit), limit))
  }

  method Fetch(log: Log, after: Option<nat>, before: Option<nat>, limit: nat)
    returns (rows: seq<Event>)
    requires after.Some? ==> after.value <= log.eventSequence
    ensures rows == Found(log, after, before, limit)
  {
    rows := [];
    if after.Some? {
      var n: nat := after.value + 1;
      while n <= log.eventSequence && |rows| <= limit
        invariant after.value + 1 <= n <= log.eventSequence + 1 && |rows| <= limit + 1
        invariant Ascending(log.rows, after.value + 1, log.eventSequence, limit + 1)
                  == rows + Ascending(log.rows, n, log.eventSequence, limit + 1 - |rows|)
        decreases log.eventSequence + 1 - n
      {
        if n in log.rows {
          rows := rows + [log.rows[n]];
        }
        n := n + 1;
      }
    } else {
      var n: nat := if before.None? then log.eventSequence
                    else if before.value == 0 then 0 else before.value - 1;
      ghost var top := n;
      while n > 0 && |rows| <= limit
        invariant |rows| <= limit + 1
        invariant Descending(log.rows, top, limit + 1)
                  == rows + Descending(log.rows, n, limit + 1 - |rows|)
        decreases n
      {
        if n in log.rows {
          rows := rows + [log.rows[n]];
        }
        n := n - 1;
      }
    }
  }

  /** The checks, the query, and the in-place reversal of a backward page. */
  method Events(log: Log, after: Option<nat>, before: Option<nat>, limit: nat)
    returns (r: Result<Page, PageError>)
    ensures r == ReadPage(log, after, before, limit)
  {
    var latest := log.eventSequence;
    if (after.Some? && after.value > latest) || (before.Some? && before.value > latest + 1) {
      return Err(CursorInvalid);
    }
    var rows := Fetch(log, after, before, limit);
    var more := |rows| > limit;
    if more {
      rows := rows[..limit];
    }
    if after.None? {
      rows := ReverseInPlace(rows);
    }
    var cursor := if rows != [] then rows[|rows| - 1].sequence
                  else if after.Some? then after.value else 0;
    r := Ok(Page(log.status, log.durable, rows, cursor,
                 if after.Some? then more else rows != [] && cursor < latest,
                 if after.Some? then rows != [] && rows[0].sequence > 1 else more));
  }

  method ReverseInPlace(rows: seq<Event>) returns (r: seq<Event>)
    ensures r == Reversed(rows)
  {
    ReversedAt(rows);
    hide Reversed;
    r := rows;
    var i := 0;
    while i < |rows| / 2
      invariant 0 <= i <= |rows| / 2 && |r| == |rows|
      invariant forall k :: 0 <= k < i ==>
                  r[k] == rows[|rows| - 1 - k] && r[|rows| - 1 - k] == rows[k]
      invariant forall k :: i <= k < |rows| - i ==> r[k] == rows[k]
    {
      r := r[i := r[|r| - 1 - i]][|r| - 1 - i := r[i]];
      i := i + 1;
    }
  }

  /** A forward page is the run of events after the cursor; `hasMore` says whether it is all. */
  lemma ForwardPage(log: Log, after: nat, limit: nat)
    requires Dense(log) && after <= log.eventSequence
    ensures ReadPage(log, Some(after), None, limit).Ok?
    ensures var page := ReadPage(log, Some(after), None, limit).value;
            var last := MinNat(log.eventSequence, after + limit);
            && page.items == Slice(log, after + 1, last)
            && page.nextCursor == last
            && (page.hasMore <==> after + limit < log.eventSequence)
            && page.status == log.status && page.durable == log.durable
  {
    KeptForward(log, after, limit);
    hide Ascending, Descending, Reversed, Slice;
  }

  lemma KeptForward(log: Log, after: nat, limit: nat)
    requires Dense(log) && after <= log.eventSequence
    ensures var found := Ascending(log.rows, after + 1, log.eventSequence, limit + 1);
            && (|found| > limit <==> after + limit < log.eventSequence)
            && (if |found| > limit then found[..limit] else found)
               == Slice(log, after + 1, MinNat(log.eventSequence, after + limit))
  {
    AscendingIsSlice(log, after + 1, limit + 1);
  }

  /** The run of `limit` events, or as many as there are, that ends with event `last`. */
  ghost predicate EndsWith(log: Log, page: Page, last: nat, limit: nat)
    requires Dense(log) && last <= log.eventSequence
  {
    var count := MinNat(last, limit);
    && page.items == Slice(log, last - count + 1, last)
    && (count > 0 ==> page.nextCursor == last)
    && (count == 0 ==> page.nextCursor == 0)
    && (page.hasOlder <==> limit < last)
    && (page.hasMore <==> count > 0 && last < log.eventSequence)
  }

  /** A backward page is the run of events that ends just before its bound. */
  lemma BackwardPage(log: Log, before: Option<nat>, limit: nat)
    requires Dense(log) && (before.Some? ==> 1 <= before.value <= log.eventSequence + 1)
    ensures ReadPage(log, None, before, limit).Ok?
    ensures EndsWith(log, ReadPage(log, None, before, limit).value,
              if before.Some? then before.value - 1 else log.eventSequence, limit)
  {
    hide EndsWith, Assembled, Descending, Ascending, Reversed, Slice, Dense;
    BackwardAssembled(log, limit, if before.Some? then before.value - 1 else log.eventSequence);
  }

  lemma BackwardAssembled(log: Log, limit: nat, last: nat)
    requires Dense(log) && last <= log.eventSequence
    ensures EndsWith(log, Assembled(log, None, Descending(log.rows, last, limit + 1), limit), last, limit)
  {
    hide Descending, Reversed, Slice;
    DescendingIsSlice(log, last, limit + 1);
    KeptIsSlice(log, last, limit);
  }

  lemma KeptIsSlice(log: Log, last: nat, limit: nat)
    requires Dense(log) && last <= log.eventSequence
    ensures var found := Descending(log.rows, last, limit + 1);
            var kept := if |found| > limit then found[..limit] else found;
            Reversed(kept) == Slice(log, last - MinNat(last, limit) + 1, last)
  {
    hide Descending, Reversed, Slice;
    DescendingIsSlice(log, last, limit + 1);
    var found := Descending(log.rows, last, limit + 1);
    ReversedAt(if |found| > limit then found[..limit] else found);
  }

  /** Paging back from the earliest event shown leaves no gap and no overlap. */
  lemma HistoryAdjoins(log: Log, earliest: nat, limit: nat)
    requires Dense(log) && 1 < earliest <= log.eventSequence && limit > 0
    ensures ReadPage(log, None, Some(earliest), limit).Ok?
    ensures var items := ReadPage(log, None, Some(earliest), limit).value.items;
            && items != [] && items[|items| - 1].sequence == earliest - 1
            && forall i :: 0 <= i < |items| ==> items[i].sequence == earliest - |items| + i
  {
    BackwardPage(log, Some(earliest), limit);
    hide ReadPage;
  }
}
