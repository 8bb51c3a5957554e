/** The log records of the in-memory logger and the meaning of a sequence of
    calls on it, as pure functions: the reference against which the data
    source's class is proved. */
module LoggerHistory {

  /** A log record: a message and the wall-clock time (milliseconds since the
      epoch) at which it was added. */
  datatype Log = Log(msg: string, timestamp: int)

  /** A call that changes the data source's list: adding a message at a
      clock value, or clearing the list. */
  datatype Call = AddLog(msg: string, now: int) | RemoveLogs

  /** The list held after the calls, applied in order to an empty list:
      AddLog puts its record at the head, RemoveLogs empties the list. The
      list holds one record per call after the last RemoveLogs. */
  function Replay(calls: seq<Call>): (r: seq<Log>)
    ensures |r| == |calls| - LastRemove(calls)
  {
    if calls == [] then []
    else
      var before := Replay(calls[..|calls| - 1]);
      match calls[|calls| - 1]
      case AddLog(m, t) => [Log(m, t)] + before
      case RemoveLogs => []
  }

  /** The record a call adds, if any. */
  function RecordOf(c: Call): seq<Log>
  {
    match c
    case AddLog(m, t) => [Log(m, t)]
    case RemoveLogs => []
  }

  /** Every record the calls add, oldest first, whatever clears come between. */
  function Added(calls: seq<Call>): seq<Log>
  {
    if calls == [] then [] else RecordOf(calls[0]) + Added(calls[1..])
  }

  /** The position just after the last RemoveLogs among the calls (0 when
      there is none): every call from there on is an AddLog. */
  function LastRemove(calls: seq<Call>): (k: nat)
    ensures k <= |calls|
    ensures k > 0 ==> calls[k - 1].RemoveLogs?
    ensures forall i :: k <= i < |calls| ==> calls[i].AddLog?
  {
    if calls == [] then 0
    else if calls[|calls| - 1].RemoveLogs? then |calls|
    else LastRemove(calls[..|calls| - 1])
  }

  /** The sequence in reverse order. */
  function Reverse<T>(s: seq<T>): (r: seq<T>)
    ensures |r| == |s|
  {
    if s == [] then [] else Reverse(s[1..]) + [s[0]]
  }

  /** The clock never goes back between two AddLog calls. */
  ghost predicate ClockNonDecreasing(calls: seq<Call>)
  {
    forall i, j :: 0 <= i < j < |calls| && calls[i].AddLog? && calls[j].AddLog? ==>
      calls[i].now <= calls[j].now
  }

  lemma {:induction false} AddedAppend(a: seq<Call>, b: seq<Call>)
    ensures Added(a + b) == Added(a) + Added(b)
  {
    if a == [] {
      assert a + b == b;
    } else {
      assert (a + b)[1..] == a[1..] + b;
      AddedAppend(a[1..], b);
    }
  }

  lemma {:induction false} ReverseSnoc<T>(s: seq<T>, x: T)
    ensures Reverse(s + [x]) == [x] + Reverse(s)
  {
    if s == [] {
      assert s + [x] == [x];
    } else {
      assert (s + [x])[1..] == s[1..] + [x];
      ReverseSnoc(s[1..], x);
    }
  }

  lemma {:induction false} ReverseAt<T>(s: seq<T>, i: nat)
    requires i < |s|
    ensures Reverse(s)[i] == s[|s| - 1 - i]
  {
    if i < |s| - 1 {
      ReverseAt(s[1..], i);
    }
  }

  /** Newest first: the list is exactly the records added since the last
      clear, most recent at the head. */
  lemma {:induction false} ReplayNewestFirst(calls: seq<Call>)
    ensures Replay(calls) == Reverse(Added(calls[LastRemove(calls)..]))
  {
    if calls != [] {
      var n := |calls|;
      var init := calls[..n - 1];
      assert calls == init + [calls[n - 1]];
      match calls[n - 1]
      case RemoveLogs =>
        assert calls[n..] == [];
      case AddLog(m, t) =>
        var k := LastRemove(init);
        assert LastRemove(calls) == k;
        assert calls[k..] == init[k..] + [calls[n - 1]];
        AddedAppend(init[k..], [calls[n - 1]]);
        assert Added([calls[n - 1]]) == [Log(m, t)];
        ReverseSnoc(Added(init[k..]), Log(m, t));
        ReplayNewestFirst(init);
    }
  }

  /** The same, position by position: the list holds exactly as many records
      as were added since the last clear, and record i of the list is the
      (i+1)-th most recent of those additions. */
  lemma ReplayPositions(calls: seq<Call>)
    ensures var recent := Added(calls[LastRemove(calls)..]);
      |Replay(calls)| == |recent| &&
      forall i :: 0 <= i < |Replay(calls)| ==> Replay(calls)[i] == recent[|recent| - 1 - i]
  {
    var recent := Added(calls[LastRemove(calls)..]);
    ReplayNewestFirst(calls);
    forall i | 0 <= i < |recent|
      ensures Replay(calls)[i] == recent[|recent| - 1 - i]
    {
      ReverseAt(recent, i);
    }
  }

  /** Every record in the list was added by one of the calls, with the
      message and the clock value of that call. */
  lemma {:induction false} ReplayFromCalls(calls: seq<Call>)
    ensures forall r :: r in Replay(calls) ==> AddLog(r.msg, r.timestamp) in calls
  {
    if calls != [] {
      var n := |calls|;
      var init := calls[..n - 1];
      assert calls == init + [calls[n - 1]];
      ReplayFromCalls(init);
    }
  }

  /** When the clock supplied to AddLog never goes back, the list is sorted
      by timestamp, newest first. */
  lemma {:induction false} ReplayTimestampsNonIncreasing(calls: seq<Call>)
    requires ClockNonDecreasing(calls)
    ensures forall i, j :: 0 <= i < j < |Replay(calls)| ==>
      Replay(calls)[i].timestamp >= Replay(calls)[j].timestamp
  {
    if calls != [] {
      var n := |calls|;
      var init := calls[..n - 1];
      assert calls == init + [calls[n - 1]];
      assert ClockNonDecreasing(init) by {
        forall i, j | 0 <= i < j < |init| && init[i].AddLog? && init[j].AddLog?
          ensures init[i].now <= init[j].now
        {
          assert init[i] == calls[i] && init[j] == calls[j];
        }
      }
      ReplayTimestampsNonIncreasing(init);
      match calls[n - 1]
      case RemoveLogs =>
      case AddLog(m, t) =>
        var before := Replay(init);
        ReplayFromCalls(init);
        forall j | 0 <= j < |before|
          ensures before[j].timestamp <= t
        {
          var r := before[j];
          assert r in before;
          var k :| 0 <= k < |init| && init[k] == AddLog(r.msg, r.timestamp);
          assert calls[k] == init[k];
        }
    }
  }
}
