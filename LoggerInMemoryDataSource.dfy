/** The in-memory logger data source: one list of log records, newest first,
    changed in place by AddLog and RemoveLogs and read by GetAllLogs. */
module LoggerInMemory {
  import opened LoggerHistory

  class LoggerInMemoryDataSource {
    /** The records, most recent at the head. */
    var logs: seq<Log>
    /** The calls that changed the list so far, oldest first. */
    ghost var history: seq<Call>

    /** The list is the one the calls so far produce. */
    ghost predicate Valid()
      reads this
    {
      logs == Replay(history)
    }

    constructor ()
      ensures Valid()
      ensures history == [] && logs == []
    {
      logs := [];
      history := [];
    }

    /** Puts a record with the message and the supplied clock value at the
        head; the records already there keep their order, one place back. */
    method AddLog(msg: string, now: int)
      requires Valid()
      modifies this
      ensures Valid()
      ensures history == old(history) + [Call.AddLog(msg, now)]
      ensures logs == [Log(msg, now)] + old(logs)
      ensures |logs| == |old(logs)| + 1
      ensures logs[0].msg == msg && logs[0].timestamp == now
    {
      logs := [Log(msg, now)] + logs;
      history := history + [Call.AddLog(msg, now)];
      assert history[..|history| - 1] == old(history);
    }

    /** Hands over the current list, leaving it as it is: the records added
        since the last RemoveLogs, most recent first. */
    method GetAllLogs() returns (delivered: seq<Log>)
      requires Valid()
      ensures delivered == logs
      ensures delivered == Reverse(Added(history[LastRemove(history)..]))
    {
      delivered := logs;
      ReplayNewestFirst(history);
    }

    /** Empties the list, whatever it held (so a second call leaves it empty). */
    method RemoveLogs()
      requires Valid()
      modifies this
      ensures Valid()
      ensures history == old(history) + [Call.RemoveLogs]
      ensures logs == []
    {
      logs := [];
      history := history + [Call.RemoveLogs];
    }
  }

  /** A client of the data source: two additions, a fetch, a clear, a fetch,
      a second clear and a last fetch. The fetches see the newer message
      first, then nothing, then still nothing. */
  method Scenario(first: string, second: string, t1: int, t2: int)
    returns (afterAdds: seq<Log>, afterRemove: seq<Log>, afterSecondRemove: seq<Log>)
    ensures afterAdds == [Log(second, t2), Log(first, t1)]
    ensures afterRemove == [] && afterSecondRemove == []
  {
    var source := new LoggerInMemoryDataSource();
    source.AddLog(first, t1);
    assert source.logs == [Log(first, t1)];
    source.AddLog(second, t2);
    assert source.logs == [Log(second, t2), Log(first, t1)];
    afterAdds := source.GetAllLogs();
    source.RemoveLogs();
    afterRemove := source.GetAllLogs();
    source.RemoveLogs();
    afterSecondRemove := source.GetAllLogs();
  }
}
