/** The progress log: every message is appended to a list and the whole list is rewritten to a JSON
    file at once, so that a front end polling the file always sees the complete log so far. */
module Logging {
  import opened Wrappers
  import opened Json

  /** One log record. The current logger stamps each record with its counter; the legacy one has no counter. */
  datatype Entry = Entry(completed: bool, counter: Option<int>, isError: bool, message: string, timestamp: int)

  const CompletedSuffix: string := " has completed!"
  const LegacyFinishedMessage: string := "FINISHED"

  /** The record as `json_encode` writes it; the `counter` key is present only when the record has one. */
  function EntryJson(e: Entry): (j: Json)
    ensures j.JObj? && ("counter" in j.fields <==> e.counter.Some?)
  {
    var fields := map["completed" := JBool(e.completed), "isError" := JBool(e.isError),
                      "message" := JStr(e.message), "timestamp" := JInt(e.timestamp)];
    JObj(if e.counter.Some? then fields["counter" := JInt(e.counter.value)] else fields)
  }

  /** How a reader of the log file takes a record back; anything else than the written shape is refused. */
  function ReadEntry(j: Json): Option<Entry> {
    if j.JObj? && "completed" in j.fields && j.fields["completed"].JBool?
      && "isError" in j.fields && j.fields["isError"].JBool?
      && "message" in j.fields && j.fields["message"].JStr?
      && "timestamp" in j.fields && j.fields["timestamp"].JInt?
      && ("counter" in j.fields ==> j.fields["counter"].JInt?)
    then
      var counter := if "counter" in j.fields then Some(j.fields["counter"].i) else None;
      Some(Entry(j.fields["completed"].b, counter, j.fields["isError"].b, j.fields["message"].s, j.fields["timestamp"].i))
    else None
  }

  /** The file contents: a JSON list of the records in the order they were logged. */
  function EncodeLog(data: seq<Entry>): Json {
    JList(seq(|data|, i requires 0 <= i < |data| => EntryJson(data[i])))
  }

  function DecodeLog(j: Json): Option<seq<Entry>> {
    if j.JList? && forall i :: 0 <= i < |j.items| ==> ReadEntry(j.items[i]).Some?
    then Some(seq(|j.items|, i requires 0 <= i < |j.items| && ReadEntry(j.items[i]).Some? => ReadEntry(j.items[i]).value))
    else None
  }

  lemma EntryRoundTrip(e: Entry)
    ensures ReadEntry(EntryJson(e)) == Some(e)
  {
    var j := EntryJson(e);
    assert "completed" in j.fields && "isError" in j.fields && "message" in j.fields && "timestamp" in j.fields;
  }

  /** A reader of the file gets back exactly the records written, in order. */
  lemma LogRoundTrip(data: seq<Entry>)
    ensures DecodeLog(EncodeLog(data)) == Some(data)
  {
    var items := EncodeLog(data).items;
    forall i | 0 <= i < |items|
      ensures ReadEntry(items[i]) == Some(data[i])
    {
      EntryRoundTrip(data[i]);
    }
    assert DecodeLog(EncodeLog(data)).value == data;
  }

  /** The logger of the current exporter, whose records carry a progress counter. */
  class FileLogger {
    var data: seq<Entry>
    var counter: int
    /** The log file: gone once the constructor has run, then the encoded log as last saved. */
    var file: Option<Json>

    /** A log file left over from an earlier run is deleted. */
    constructor ()
      ensures data == [] && counter == 0 && file == None
    {
      data := [];
      counter := 0;
      file := None;
    }

    /** What a reader of the log file gets back. */
    function ReadBack(): Option<seq<Entry>>
      reads this
    {
      if file.Some? then DecodeLog(file.value) else None
    }

    method IncreaseCounter()
      modifies this
      ensures counter == old(counter) + 1 && data == old(data) && file == old(file)
    {
      counter := counter + 1;
    }

    method ReduceCounter()
      modifies this
      ensures counter == old(counter) - 1 && data == old(data) && file == old(file)
    {
      counter := counter - 1;
    }

    method ResetCounter()
      modifies this
      ensures counter == 0 && data == old(data) && file == old(file)
    {
      counter := 0;
    }

    /** `now` stands for the clock reading the record is stamped with. */
    method Log(message: string, now: int)
      modifies this
      ensures data == old(data) + [Entry(false, Some(counter), false, message, now)] && counter == old(counter)
      ensures file == Some(EncodeLog(data)) && ReadBack() == Some(data)
    {
      data := data + [Entry(false, Some(counter), false, message, now)];
      Save();
    }

    method LogFinished(processName: string, now: int)
      modifies this
      ensures data == old(data) + [Entry(true, Some(counter), false, processName + CompletedSuffix, now)]
      ensures counter == old(counter)
      ensures file == Some(EncodeLog(data)) && ReadBack() == Some(data)
    {
      data := data + [Entry(true, Some(counter), false, processName + CompletedSuffix, now)];
      Save();
    }

    method LogError(message: string, now: int)
      modifies this
      ensures data == old(data) + [Entry(false, Some(counter), true, message, now)] && counter == old(counter)
      ensures file == Some(EncodeLog(data)) && ReadBack() == Some(data)
    {
      data := data + [Entry(false, Some(counter), true, message, now)];
      Save();
    }

    /** The whole list is written each time, replacing what the file held. */
    method Save()
      modifies this
      ensures file == Some(EncodeLog(data)) && ReadBack() == Some(data) && data == old(data) && counter == old(counter)
    {
      file := Some(EncodeLog(data));
      LogRoundTrip(data);
    }
  }

  /** The logger of the older exporter: no counter, and a fixed message when a process finishes. */
  class LegacyFileLogger {
    var data: seq<Entry>
    var file: Option<Json>

    constructor ()
      ensures data == [] && file == None
    {
      data := [];
      file := None;
    }

    function ReadBack(): Option<seq<Entry>>
      reads this
    {
      if file.Some? then DecodeLog(file.value) else None
    }

    method Log(message: string, now: int)
      modifies this
      ensures data == old(data) + [Entry(false, None, false, message, now)]
      ensures file == Some(EncodeLog(data)) && ReadBack() == Some(data)
    {
      data := data + [Entry(false, None, false, message, now)];
      Save();
    }

    /** The process name only reaches the console; the record says "FINISHED". */
    method LogFinished(processName: string, now: int)
      modifies this
      ensures data == old(data) + [Entry(true, None, false, LegacyFinishedMessage, now)]
      ensures file == Some(EncodeLog(data)) && ReadBack() == Some(data)
    {
      data := data + [Entry(true, None, false, LegacyFinishedMessage, now)];
      Save();
    }

    method LogError(message: string, now: int)
      modifies this
      ensures data == old(data) + [Entry(false, None, true, message, now)]
      ensures file == Some(EncodeLog(data)) && ReadBack() == Some(data)
    {
      data := data + [Entry(false, None, true, message, now)];
      Save();
    }

    method Save()
      modifies this
      ensures file == Some(EncodeLog(data)) && ReadBack() == Some(data) && data == old(data)
    {
      file := Some(EncodeLog(data));
      LogRoundTrip(data);
    }
  }

  /** `after` is `before` followed by ordinary progress records, each stamped with `counter`. */
  predicate Progressed(before: seq<Entry>, after: seq<Entry>, counter: int) {
    before <= after
    && forall i :: |before| <= i < |after| ==> !after[i].isError && !after[i].completed && after[i].counter == Some(counter)
  }

  /** Progress over two stretches with one counter is progress over both. */
  lemma ProgressedTrans(a: seq<Entry>, b: seq<Entry>, c: seq<Entry>, counter: int)
    requires Progressed(a, b, counter) && Progressed(b, c, counter)
    ensures Progressed(a, c, counter)
  {
  }

  /** Some record appended after `before` is an error. */
  predicate ErrorLogged(before: seq<Entry>, after: seq<Entry>) {
    exists i :: |before| <= i < |after| && after[i].isError
  }

  /** Progress logs no error, so an error logged since `before` was logged after the progress. */
  lemma ErrorAfterProgress(before: seq<Entry>, progressed: seq<Entry>, after: seq<Entry>, counter: int)
    requires Progressed(before, progressed, counter) && progressed <= after
    ensures ErrorLogged(before, after) <==> ErrorLogged(progressed, after)
  {
    assert forall i :: |before| <= i < |progressed| ==> after[i] == progressed[i];
  }

  /** Records are only ever appended: the log read back after more calls starts with the one read back before. */
  lemma LogOnlyGrows(data: seq<Entry>, added: seq<Entry>)
    ensures DecodeLog(EncodeLog(data + added)).Some?
    ensures DecodeLog(EncodeLog(data + added)).value[..|data|] == DecodeLog(EncodeLog(data)).value
  {
    LogRoundTrip(data);
    LogRoundTrip(data + added);
    assert (data + added)[..|data|] == data;
  }
}
